# Site change watcher — a verified model

The site change watcher polls a web page and reduces its HTML to a canonical
visible text:
- visible text only (nothing inside `script`, `style` or `noscript`);
- each fragment trimmed;
- clock times and ISO dates deleted;
- whitespace runs collapsed to one space;
- empty lines dropped.

It hashes that text and compares the digest with the snapshot stored for the
URL in a JSON state file. On a change it prints the removed and added lines,
truncated per group, and may play an alert sound. Each cycle it writes the new
snapshot back to the state file.

This project models that core in Dafny:

- `Extractor` (extractor.dfy): the `VisibleTextExtractor` parser callbacks. It
  is a class with the source's two fields: the skip depth and the list of
  parts. A document is its sequence of parser events. Its
  specification functions are `DepthAfter` and `PartsAfter`.
- `Text` (text.dfy): the Python string primitives the pipeline uses:
  - `str.isspace`, `str.strip`, `re.sub(r"\s+", " ", …)`;
  - `"\n".join`, `str.splitlines`;
  - ASCII `str.lower` and `str(n)`.
- `Volatile` (volatile.dfy): the two volatile-token substitutions. Each is a
  left-to-right `re.sub` scan that tries alternatives in the order Python's
  backtracking engine does.
- `Normalize` (normalize.dfy): `normalize_visible_text`. The method keeps the
  source's loop and is proved equal to the function `NormalizedText`.
- `Store` (store.dfy): the decoded state mapping, `parse_snapshot` and the
  entry the loop writes.
- `Differ` (differ.dfy): `print_diff`. Printing becomes the sequence of lines
  it prints. The `ndiff` edit script is an input.
- `Watcher` (watcher.dfy): `run_watcher`. The method keeps the source's loop
  and is proved equal to the function `Run`, which is built from one cycle
  (`Cycle`) and the exit test (`Stops`).

The collaborators of the loop are parameters:
- the content hash is a function `hash: string -> string`;
- `difflib.ndiff` is a function `ndiff` from two line lists to an edit script;
- each cycle's fetch result is one element of an input sequence. It records
  whether the fetch failed, whether the cycle raised after counting the check,
  and otherwise the page, the clock reading and whether writing the state file
  succeeded.

The loop ends when that sequence runs out. That stands for the signal or
keyboard interrupt that ends it in the source.

`main` clamps the settings before calling the loop. Those clamps appear as
follows:
- `max_diff_lines >= 1` is the precondition `cfg.maxDiffLines >= 1`;
- `max_checks >= 0` is the type `nat`.

When the fetch succeeds but writing the state file raises, the code behaves
as follows, and the model does the same:
- the in-memory mapping already holds the new entry;
- the check is already counted;
- `prev` is not moved forward.

`UnsavedCycleDiverges` states the consequence: the mapping and the snapshot
then disagree.

## Model

| member | source | states |
|---|---|---|
| Extractor.StepDepth | watch_site_changes.py:51-57 | the depth stays non-negative, changes only on script/style/noscript tags (any letter case), goes up by one on such a start tag and down by one on such an end tag only when positive |
| Extractor.IsSkipTagAnyCase | watch_site_changes.py:52 | a tag is skipped exactly when it spells script, style or noscript in any mixture of ASCII letter case |
| Extractor.DepthNeverNegative | watch_site_changes.py:48-57 | after any event sequence starting from a non-negative depth, the skip depth is non-negative |
| Extractor.DepthChangesOnlyOnSkipTags | watch_site_changes.py:51-57 | events other than skip-tag starts and ends leave the depth unchanged |
| Extractor.Origins | watch_site_changes.py:59-63 | each collected part has an originating event index inside the document |
| Extractor.OriginsSound | watch_site_changes.py:59-63 | every collected part is the stripped text of a data event seen at depth 0, and is non-empty |
| Extractor.OriginsOrdered | watch_site_changes.py:59-63 | parts appear in document order (their origins strictly increase) |
| Extractor.OriginsComplete | watch_site_changes.py:59-63 | every data event at depth 0 whose stripped text is non-empty contributes a part |
| Extractor.OriginsGrow | watch_site_changes.py:59-63 | one more event never removes an origin |
| Extractor.OriginsLast | watch_site_changes.py:59-63 | a visible data event with non-empty stripped text at the end of the document is an origin |
| Extractor.DepthAtPrefix | watch_site_changes.py:48-57 | the depth before event i depends only on the events before i |
| Extractor.PartsAfterAppend | watch_site_changes.py:59-66 | feeding a document in two pieces gives the parts of the first piece followed by those of the second, begun at the depth the first left |
| Extractor.VisibleTextExtractor.constructor | watch_site_changes.py:46-49 | a fresh extractor has depth 0 and no parts |
| Extractor.VisibleTextExtractor.HandleStartTag | watch_site_changes.py:51-53 | the new depth is the start-tag step of the old one; parts unchanged |
| Extractor.VisibleTextExtractor.HandleEndTag | watch_site_changes.py:55-57 | the new depth is the end-tag step of the old one; parts unchanged |
| Extractor.VisibleTextExtractor.HandleData | watch_site_changes.py:59-63 | depth unchanged; the stripped text is appended exactly when the depth is 0 and it is non-empty |
| Extractor.VisibleTextExtractor.Feed | watch_site_changes.py:92 | after a document, the depth and the parts are those of the specification folds continued from the old state |
| Extractor.VisibleTextExtractor.Lines | watch_site_changes.py:65-66 | returns the parts collected |
| Text.TrimStartDrops | watch_site_changes.py:61 | left stripping removes exactly a leading run of whitespace |
| Text.TrimEndDrops | watch_site_changes.py:61 | right stripping removes exactly a trailing run of whitespace |
| Text.StripProperties | watch_site_changes.py:97 | a stripped string has no whitespace at either end, is empty exactly when the input is all whitespace, and keeps the input's spacing properties |
| Text.StripSlice | watch_site_changes.py:97 | the stripped string is the slice of the input starting where the leading whitespace ends |
| Text.StripEnds | watch_site_changes.py:97 | a non-empty stripped string starts and ends with a non-whitespace character |
| Text.StripEmptyIff | watch_site_changes.py:62 | stripping gives "" exactly when the input is all whitespace |
| Text.StripIdempotent | watch_site_changes.py:97 | stripping twice is stripping once (the extractor's strip makes the normaliser's a no-op) |
| Text.SliceKeepsSpacing | watch_site_changes.py:104 | a slice of a single-spaced string is single-spaced |
| Text.CollapseProperties | watch_site_changes.py:104 | after collapsing, the only whitespace is single plain spaces; the result is empty exactly when the input is, starts with whitespace exactly when the input does, and an already single-spaced string is unchanged |
| Text.ConsKeepsSpacing | watch_site_changes.py:104 | a non-space character, or a space before a non-space, in front of a single-spaced string keeps it single-spaced |
| Text.TailKeepsSpacing | watch_site_changes.py:104 | dropping the first character keeps a string single-spaced |
| Text.CollapseKeepsNonSpace | watch_site_changes.py:104 | collapsing keeps every non-whitespace character, in order |
| Text.NonSpaceTrimStart | watch_site_changes.py:104 | dropping leading whitespace keeps every non-whitespace character |
| Text.CollapseRun | watch_site_changes.py:104 | a non-empty whitespace run between two stretches (the first ending, the second starting with non-whitespace, or empty) becomes exactly one space, and the stretches collapse on their own |
| Text.CollapseJoin | watch_site_changes.py:104 | a string ending in non-whitespace and a string starting with whitespace collapse independently |
| Text.CollapseLeadingRun | watch_site_changes.py:104 | a leading whitespace run before non-whitespace (or nothing) becomes one space |
| Text.CollapseStep | watch_site_changes.py:104 | a leading whitespace character takes the whitespace after it into one space; any other character is kept |
| Text.TrimStartAppend | watch_site_changes.py:104 | when a string ends in non-whitespace, what follows it is untouched by dropping its leading whitespace |
| Text.TrimStartSpaces | watch_site_changes.py:104 | whitespace before a string that does not start with whitespace is dropped entirely |
| Text.StripSpacedCanonical | watch_site_changes.py:104 | stripping a single-spaced string leaves it canonical unless nothing remains |
| Text.SpaceFreeUnchanged | watch_site_changes.py:104 | a string without whitespace is unchanged by collapsing and stripping |
| Text.CanonicalHasNoLineBoundary | watch_site_changes.py:104-109 | a canonical line holds no newline or other line boundary |
| Text.SplitLinesOfJoin | watch_site_changes.py:149 | splitting the newline join of non-empty lines free of line boundaries gives the lines back |
| Text.FirstBoundaryAt | watch_site_changes.py:149 | the first line break of a boundary-free line followed by a break is at the line's end |
| Text.NatToString | watch_site_changes.py:161 | non-empty decimal digits with no leading zero |
| Text.NatToStringRoundTrip | watch_site_changes.py:161 | the printed count reads back as the count |
| Text.LowerUpToCase | watch_site_changes.py:52 | lower-casing a tag gives a given lower-case name exactly when the tag spells that name up to letter case |
| Volatile.MatchClockTime | watch_site_changes.py:102 | a clock-time match starts at a digit and ends after it, inside the string |
| Volatile.MatchIsoDate | watch_site_changes.py:103 | an ISO-date match starts at a digit and is exactly ten characters long |
| Volatile.RemoveFromFree | watch_site_changes.py:102-103 | a substitution whose pattern never matches changes nothing |
| Volatile.RemoveFromKeepsNonDigits | watch_site_changes.py:102-103 | a stretch without digits passes through a substitution unchanged |
| Volatile.StripVolatileFree | watch_site_changes.py:102-103 | a line holding no clock time and no date survives both substitutions unchanged |
| Volatile.RemoveFromStep | watch_site_changes.py:102-103 | a character that is not a digit starts no match and is kept |
| Volatile.IsoDateRemoved | watch_site_changes.py:103 | a date at the end of a line, after digit-free text ending in a non-word character, is deleted and the text before it kept (so "on 2024-01-02" becomes "on ") |
| Volatile.DateMatchesAtEnd | watch_site_changes.py:103 | a date-shaped tail after a non-word character matches the pattern in full |
| Volatile.GluedTimeKept | watch_site_changes.py:102 | "x10:15" is kept: digits glued to a letter are not at a word boundary |
| Volatile.RemovalCreatesTime | watch_site_changes.py:102 | in "10:1:30 45" the only clock time the scan deletes is "1:30 ", leaving "10:45" |
| Volatile.WholeTimeRemoved | watch_site_changes.py:102 | "10:45" is one clock time and is deleted whole |
| Volatile.ShortTextHasNoDate | watch_site_changes.py:103 | a string shorter than ten characters holds no date and is unchanged by the date pass |
| Normalize.NormalizeVisibleText | watch_site_changes.py:90-109 | the loop computes the canonical text of the document |
| Normalize.CleanLineCanonical | watch_site_changes.py:97-106 | a fragment that survives cleaning is canonical: non-empty, trimmed, single plain spaces |
| Normalize.NormalizedLinesCanonical | watch_site_changes.py:95-107 | every kept line is canonical |
| Normalize.NormalizeLinesSnoc | watch_site_changes.py:96-107 | one more fragment adds its cleaned form at the end exactly when it is non-empty |
| Normalize.CleanedStep | watch_site_changes.py:96-107 | one loop iteration extends the kept lines as the specification does |
| Normalize.NormalizeLinesAppend | watch_site_changes.py:96-107 | the kept lines of two fragment lists are concatenated in order |
| Normalize.NormalizeLinesMembers | watch_site_changes.py:96-107 | a line is kept exactly when it is non-empty and some fragment cleans to it |
| Normalize.KeptLineHasSource | watch_site_changes.py:96-107 | every kept line is non-empty and is the cleaned form of some fragment |
| Normalize.CleanedFragmentKept | watch_site_changes.py:96-107 | every fragment whose cleaned form is non-empty has that form kept |
| Normalize.NormalizeSplitsBack | watch_site_changes.py:149 | splitting the canonical text into lines gives back exactly the kept lines; the text is empty exactly when no line is kept |
| Normalize.CanonicalIsFixpoint | watch_site_changes.py:97-107 | a canonical line with no volatile token is left unchanged by cleaning |
| Normalize.CleanLineNotIdempotent | watch_site_changes.py:97-104 | cleaning is not idempotent: "10:1:30 45" cleans to "10:45", which cleans to "" |
| Normalize.TimeTextUnchanged | watch_site_changes.py:104 | "10:45" is unchanged by collapsing and stripping |
| Normalize.ClockTimeRemoved | watch_site_changes.py:102 | the clock-time pass deletes "10:1m AM" from the status line for every minute digit m |
| Normalize.ClockTimeInvisible | watch_site_changes.py:97-104 | a status line "Updated at 10:1m AM" cleans to "Updated at" for every minute digit m |
| Normalize.StatusLineTrimmed | watch_site_changes.py:97 | the status line has no whitespace at its ends |
| Normalize.StatusLineTokensRemoved | watch_site_changes.py:102-103 | both passes together leave "Updated at " |
| Normalize.StatusPrefixCollapsed | watch_site_changes.py:104 | collapsing leaves "Updated at " alone |
| Normalize.PageClockTimeInvisible | watch_site_changes.py:90-109 | two pages differing only in the minute of a status time have the same canonical text |
| Normalize.SinglePage | watch_site_changes.py:90-109 | a page of one text run yields the cleaned form of that text |
| Store.ParseSnapshot | watch_site_changes.py:132-145 | none exactly when the entry is missing, not an object, or its hash is missing or not a string; otherwise the hash as stored, the text when it is a string and "" otherwise, and the time when it is an integer (a boolean counting as 0 or 1) and 0 otherwise |
| Store.EntryRoundTrip | watch_site_changes.py:232 | the entry the loop writes reads back as the snapshot it records |
| Store.OtherEntriesIrrelevant | watch_site_changes.py:133 | entries of other URLs do not affect a URL's snapshot |
| Differ.GroupAppend | watch_site_changes.py:150-151 | grouping concatenates over script pieces, so order is kept |
| Differ.GroupMembers | watch_site_changes.py:150-151 | a line is in the removed (added) group exactly when some "- " ("+ ") entry carries it |
| Differ.TagsAreExclusive | watch_site_changes.py:150-151 | unchanged and hint entries go into no group, and no entry into both |
| Differ.GroupsAreSubsequences | watch_site_changes.py:149-151 | for an edit script of the old lines into the new, the removed lines are a subsequence of the old lines and the added lines of the new |
| Differ.OldSideEmpty | watch_site_changes.py:149-151 | for an edit script from no lines, nothing is removed and the added group is the whole new text |
| Differ.NewSideEmpty | watch_site_changes.py:149-151 | for an edit script to no lines, the removed group is the whole old text and nothing is added |
| Differ.GroupReportShape | watch_site_changes.py:153-161 | an empty group prints nothing; otherwise the heading, the first min(n, max) lines in order, and a "… (n − max more)" summary exactly when lines were left out, at most max + 2 lines |
| Differ.EntryReadsBack | watch_site_changes.py:159 | each printed entry ends with the line it shows |
| Differ.PrintGroup | watch_site_changes.py:153-161 | the group printer's loop prints the group report |
| Differ.PrintDiff | watch_site_changes.py:148-164 | prints the removed group's report followed by the added group's |
| Differ.ExampleDiff | watch_site_changes.py:148-164 | "A\nB\nC" against "A\nC\nD": the lines split as expected and the report is Removed B, Added D |
| Differ.ExampleReport | watch_site_changes.py:153-164 | the report lines of that example |
| Differ.ExampleScript | watch_site_changes.py:149 | the example's script is an edit script of its two texts |
| Differ.ExampleGroups | watch_site_changes.py:150-151 | the example's removed and added groups |
| Differ.ThreeLines | watch_site_changes.py:149 | three one-character lines split back from their join |
| Differ.ExampleTruncation | watch_site_changes.py:157-161 | 100 lines shown at most 10: 12 printed lines ending "  ... (90 more)" |
| Watcher.RunWatcher | watch_site_changes.py:184-257 | the loop, started from the loaded mapping and its snapshot, ends in the state and verdicts of the specification run |
| Watcher.CheckOnce | watch_site_changes.py:214-241 | one pass of the loop body (fetch, normalise, hash, count, classify, print the diff, store) yields exactly the specified cycle, including a failed fetch (nothing changes) and an exception after the count (only the count changes) |
| Watcher.CycleCounts | watch_site_changes.py:213-241 | a cycle counts a check unless the fetch failed, ends in failure exactly when no page was stored, and a failed fetch changes nothing |
| Watcher.CycleFacts | watch_site_changes.py:213-241 | a failed fetch changes nothing; an exception after the count changes only the count; a fetched page counts a check, writes the URL's entry `{"hash", "text", "updated"}` (which reads back as the new snapshot), keeps every other entry, moves the snapshot only when the write succeeded, and gives baseline / unchanged / changed-with-diff exactly by the previous snapshot and its digest |
| Watcher.Counted | watch_site_changes.py:219 | the number of cycles that counted a check is at most the number of cycles |
| Watcher.CountedCons | watch_site_changes.py:219 | the count over a cycle followed by the rest is that cycle's count plus the rest's |
| Watcher.CountedPrefix | watch_site_changes.py:219 | the count over the first n + 1 cycles is the first cycle's count plus the count over the next n |
| Watcher.RunStep | watch_site_changes.py:213-248 | the run from a position is one cycle followed by the exit test and the rest of the run |
| Watcher.RunResumes | watch_site_changes.py:213-248 | the loop invariant carries over one cycle |
| Watcher.RunLength | watch_site_changes.py:213-248 | at least one cycle when there is input, no more cycles than inputs, and stopping short of the input only because of once or the limit |
| Watcher.RunCycles | watch_site_changes.py:213-248 | the run's number of verdicts is exactly `Cycles`, an independent count of the loop's cycles computed from the check count and which fetches fail before counting |
| Watcher.CyclesStopFirst | watch_site_changes.py:243-248 | that count is at most the number of inputs, and the exit test fails after every cycle before the last one |
| Watcher.RunStopsFirst | watch_site_changes.py:243-248 | the run ends at the first cycle after which the exit test holds: after no earlier cycle is once set or the limit reached (`GoesOn`) |
| Watcher.RunFailures | watch_site_changes.py:213-248 | the i-th verdict is a failure exactly when the i-th cycle stored no page |
| Watcher.RunCount | watch_site_changes.py:213-248 | the check count grows by the number of cycles that ran and did not fail to fetch |
| Watcher.RunOnce | watch_site_changes.py:243-244 | with once, exactly one cycle runs |
| Watcher.RunWithinLimit | watch_site_changes.py:245-248 | a run starting below a positive limit never passes it |
| Watcher.RunReachesLimit | watch_site_changes.py:245-248 | without once and with no fetch failing, exactly the remaining number of checks run and the run ends on the limit |
| Watcher.FailuresChangeNothing | watch_site_changes.py:238-241 | cycles whose fetches all fail leave mapping, snapshot and count as they were |
| Watcher.InitialPersisted | watch_site_changes.py:204-205 | the loop starts with the snapshot the loaded mapping holds |
| Watcher.RunKeepsDigest | watch_site_changes.py:217-234 | if the previous snapshot (when there is one) belongs to the watched URL and carries its text's digest, every cycle keeps this; a saved cycle establishes it (CycleFacts) |
| Watcher.RunKeepsPersisted | watch_site_changes.py:232-234 | while every write succeeds, the snapshot stays the one the mapping holds for the URL |
| Watcher.UnsavedCycleDiverges | watch_site_changes.py:232-234 | a failed write after a changed page leaves the mapping ahead of the snapshot |
| Watcher.TwoCycles | watch_site_changes.py:213-248 | the verdicts of two cycles when the first does not stop the loop |
| Watcher.StableScenario | watch_site_changes.py:221-230 | when the first check does not stop the loop, from no snapshot, a page becomes the baseline and a page with the same canonical text is then unchanged |
| Watcher.ChangeScenario | watch_site_changes.py:221-228 | when the first check does not stop the loop, from no snapshot, a page becomes the baseline and a page with another digest is then reported with the diff of the two texts, alerting unless sound is off |

## Left out

- Fetching (`fetch_html`) is left out: HTTP, headers, charset decoding and the timeout are I/O. Each fetch's outcome is an input. A decode or any other exception before `checks += 1` is a failed fetch (`FetchFailed`). An exception after it and before the entry is written (a print, the diff report or the alert raising) is `FailedAfterCount`: the check is counted and nothing is stored.
- HTML tokenising (`HTMLParser.feed`, `close`, character references, CDATA handling) is left out. A document is already its sequence of start-tag, end-tag and data events.
- The content hash (`content_hash`, SHA-256 over UTF-8) is left out. It is a function parameter. Only the loop's use of it is modelled.
- `difflib.ndiff` is left out: its alignment algorithm is not modelled. The edit script is a parameter. `GroupsAreSubsequences` holds for any script that is a genuine edit script.
- Reading and writing the state file (`load_state`, `save_state`, JSON text, the temporary file and the rename) are left out. The state is the decoded mapping, and a failed write is a flag on the cycle's input.
- A loaded state that is JSON but not an object is left out: the model's mapping is always an object.
- Watcher.RunWatcher: it does not model the signal handler, `time.sleep`, the clock (`now` is an input), keyboard interrupts, or the interval and timeout settings. The end of the input sequence stands for the interruption, and the constant exit status 0 is not returned.
- Watcher.RunWatcher: it does not model the informational prints (banner, baseline, unchanged, errors, stop), which depend on `quiet`. The time-stamped "CHANGE DETECTED" header is also out. A change is reported as its diff lines and whether the alert plays.
- Playing the alert (`play_sound`, the player commands and the bell fallback) is left out. It is a flag on the verdict.
- Argument parsing (`parse_args`) is left out. The default URL and the interval and timeout clamps are out as well; only the two clamps the loop depends on are modelled.
- Volatile.IsDigit: `\d` and `\w` are ASCII only, where Python also matches non-ASCII digits and word characters.
- Text.Lower: lower-casing is ASCII only. Tags matched case-insensitively are compared after ASCII lower-casing.
- Normalize.CanonicalIsFixpoint: it states that normalisation is idempotent only for canonical lines without volatile tokens. Deleting one token can create another, so cleaning is not idempotent in general (`CleanLineNotIdempotent`).
- Normalize.PageClockTimeInvisible: it shows that a volatile token is invisible only for a concrete family of status lines, not for every position in every page.
- Volatile.MatchClockTime: its own contract bounds the match only. Its behaviour is pinned by `ClockTimeRemoved` and `GluedTimeKept`.
