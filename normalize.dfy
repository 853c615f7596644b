/**
 * `normalize_visible_text`: extract the visible fragments of a document, clean
 * each one (trim, drop volatile tokens, collapse whitespace, trim again), drop the
 * ones that end up empty and join the rest with newlines.
 */
module Normalize {
  import opened Text
  import opened Volatile
  import opened Wrappers
  import opened Extractor

  /** The cleaned form of one fragment; "" means the fragment is dropped. */
  function CleanLine(raw: string): (line: string)
  {
    var trimmed := Strip(raw);
    if trimmed == "" then "" else Strip(Collapse(StripVolatile(trimmed)))
  }

  /** A fragment that survives cleaning is canonical. */
  lemma CleanLineCanonical(raw: string)
    ensures CleanLine(raw) != "" ==> Canonical(CleanLine(raw))
  {
    var trimmed := Strip(raw);
    if trimmed != "" {
      var v := StripVolatile(trimmed);
      assert SpacesNormal(Collapse(v)) && NoDoubleSpace(Collapse(v)) by {
        CollapseProperties(v);
      }
      StripSpacedCanonical(Collapse(v));
    }
  }

  /** The cleaned fragments that survive, in fragment order. */
  function NormalizeLines(parts: seq<string>): (lines: seq<string>)
  {
    if parts == [] then []
    else
      var last := CleanLine(parts[|parts| - 1]);
      NormalizeLines(parts[..|parts| - 1]) + if last != "" then [last] else []
  }

  /** The canonical text of a document. */
  function NormalizedText(evs: seq<Event>): string
  {
    Join(NormalizeLines(Extract(evs)))
  }

  method NormalizeVisibleText(evs: seq<Event>) returns (text: string)
    ensures text == NormalizedText(evs)
  {
    var extractor := new VisibleTextExtractor();
    extractor.Feed(evs);
    var fragments := extractor.Lines();
    assert fragments == Extract(evs);
    var normalized: seq<string> := [];
    for i := 0 to |fragments|
      invariant normalized == NormalizeLines(fragments[..i])
    {
      var raw := fragments[i];
      PrefixSnoc(fragments, i);
      var line := Strip(raw);
      if line == "" {
        CleanedStep(fragments[..i], raw, normalized, line);
        continue;
      }
      line := Remove(ClockTime, line);
      line := Remove(IsoDate, line);
      line := Strip(Collapse(line));
      CleanedStep(fragments[..i], raw, normalized, line);
      if line != "" {
        normalized := normalized + [line];
      }
    }
    assert fragments[..|fragments|] == fragments;
    text := Join(normalized);
  }

  /** Every surviving line is canonical: non-empty, trimmed, single-spaced, and
      free of newlines. */
  lemma {:induction false} NormalizedLinesCanonical(parts: seq<string>)
    ensures forall k :: 0 <= k < |NormalizeLines(parts)| ==> Canonical(NormalizeLines(parts)[k])
    decreases |parts|
  {
    if parts != [] {
      NormalizedLinesCanonical(parts[..|parts| - 1]);
      CleanLineCanonical(parts[|parts| - 1]);
    }
  }

  /** One more fragment adds its cleaned form at the end, if it survives. */
  lemma NormalizeLinesSnoc(parts: seq<string>, x: string)
    ensures NormalizeLines(parts + [x]) == NormalizeLines(parts) + if CleanLine(x) != "" then [CleanLine(x)] else []
  {
    assert (parts + [x])[..|parts|] == parts;
  }

  /** One iteration of the normalising loop, in the terms of its specification. */
  lemma CleanedStep(done: seq<string>, raw: string, normalized: seq<string>, line: string)
    requires normalized == NormalizeLines(done)
    requires line == CleanLine(raw)
    ensures NormalizeLines(done + [raw]) == normalized + if line != "" then [line] else []
  {
    NormalizeLinesSnoc(done, raw);
  }

  /** Normalising fragment lists concatenates: the surviving lines keep the order
      of the fragments they came from. */
  lemma {:induction false} NormalizeLinesAppend(a: seq<string>, b: seq<string>)
    ensures NormalizeLines(a + b) == NormalizeLines(a) + NormalizeLines(b)
    decreases |b|
  {
    if b == [] {
      assert a + b == a;
    } else {
      var m := |b| - 1;
      assert (a + b)[..|a + b| - 1] == a + b[..m];
      assert (a + b)[|a + b| - 1] == b[m];
      NormalizeLinesAppend(a, b[..m]);
    }
  }

  /** A line is produced exactly when some fragment cleans to it. */
  lemma NormalizeLinesMembers(parts: seq<string>, line: string)
    ensures line in NormalizeLines(parts) <==> line != "" && exists j :: 0 <= j < |parts| && CleanLine(parts[j]) == line
  {
    if line in NormalizeLines(parts) {
      KeptLineHasSource(parts, line);
    }
    if line != "" && exists j :: 0 <= j < |parts| && CleanLine(parts[j]) == line {
      var j :| 0 <= j < |parts| && CleanLine(parts[j]) == line;
      CleanedFragmentKept(parts, j);
    }
  }

  lemma {:induction false} KeptLineHasSource(parts: seq<string>, line: string)
    requires line in NormalizeLines(parts)
    ensures line != "" && exists j :: 0 <= j < |parts| && CleanLine(parts[j]) == line
    decreases |parts|
  {
    var n := |parts| - 1;
    var init := parts[..n];
    assert parts == init + [parts[n]];
    NormalizeLinesSnoc(init, parts[n]);
    if line in NormalizeLines(init) {
      KeptLineHasSource(init, line);
      var j :| 0 <= j < |init| && CleanLine(init[j]) == line;
      assert parts[j] == init[j];
    } else {
      assert CleanLine(parts[n]) == line;
    }
  }

  lemma {:induction false} CleanedFragmentKept(parts: seq<string>, j: nat)
    requires j < |parts| && CleanLine(parts[j]) != ""
    ensures CleanLine(parts[j]) in NormalizeLines(parts)
    decreases |parts|
  {
    var n := |parts| - 1;
    var init, last := parts[..n], parts[n];
    var line := CleanLine(parts[j]);
    assert parts == init + [last];
    NormalizeLinesSnoc(init, last);
    if j < n {
      assert init[j] == parts[j];
      CleanedFragmentKept(init, j);
      assert line in NormalizeLines(init);
    } else {
      assert line == CleanLine(last);
    }
  }

  /** Splitting the canonical text into lines, as the differ does, gives back
      exactly the surviving lines in order; no line survives exactly when the text
      is "". */
  lemma NormalizeSplitsBack(evs: seq<Event>)
    ensures SplitLines(NormalizedText(evs)) == NormalizeLines(Extract(evs))
    ensures NormalizedText(evs) == "" <==> NormalizeLines(Extract(evs)) == []
  {
    var lines := NormalizeLines(Extract(evs));
    NormalizedLinesCanonical(Extract(evs));
    forall i | 0 <= i < |lines| ensures lines[i] != [] && NoLineBoundary(lines[i]) {
      CanonicalHasNoLineBoundary(lines[i]);
    }
    SplitLinesOfJoin(lines);
  }

  /** A fragment that is already canonical and holds no volatile token is kept
      unchanged. */
  lemma CanonicalIsFixpoint(line: string)
    requires Canonical(line) && FreeOf(ClockTime, line) && FreeOf(IsoDate, line)
    ensures CleanLine(line) == line
  {
    StripProperties(line);
    StripVolatileFree(line);
    CollapseProperties(line);
    StripProperties(Collapse(line));
  }

  /** Cleaning is not idempotent: "10:1:30 45" cleans to "10:45", which cleans to
      "" and so is dropped. */
  lemma CleanLineNotIdempotent()
    ensures CleanLine("10:1:30 45") == "10:45"
    ensures CleanLine("10:45") == ""
  {
    CleansToTime();
    TimeCleansAway();
  }

  lemma CleansToTime()
    ensures CleanLine("10:1:30 45") == "10:45"
  {
    var s, t := "10:1:30 45", "10:45";
    assert StripVolatile(s) == t by {
      RemovalCreatesTime();
      ShortTextHasNoDate(t);
    }
    assert Strip(s) == s by {
      assert !IsSpace(s[0]) && !IsSpace(s[|s| - 1]);
      StripProperties(s);
    }
    TimeTextUnchanged();
  }

  lemma TimeCleansAway()
    ensures CleanLine("10:45") == ""
  {
    WholeTimeRemoved();
    TimeTextUnchanged();
  }

  lemma TimeTextUnchanged()
    ensures Strip("10:45") == "10:45" && Collapse("10:45") == "10:45"
  {
    var t := "10:45";
    forall i | 0 <= i < |t| ensures !IsSpace(t[i]) {
      assert t[i] in "10:45";
    }
    SpaceFreeUnchanged(t);
  }

  /** The clock-time pass deletes the time and its meridiem from the status line. */
  lemma ClockTimeRemoved(m: char)
    requires IsDigit(m)
    ensures Remove(ClockTime, "Updated at 10:1" + [m] + " AM") == "Updated at "
  {
    var s := "Updated at 10:1" + [m] + " AM";
    RemoveFromKeepsNonDigits(ClockTime, s, 0, 11);
    assert MatchClockTime(s, 11) == Some(19) by {
      assert EndAt(s, 19) == Some(19);
      assert MeridiemAt(s, 17);
      assert TimeAfterMinutes(s, 16) == Some(19);
      assert DigitsAt(s, 14, 2);
      assert DigitsAt(s, 11, 2);
    }
    assert s[0..11] == "Updated at ";
  }

  /** A status line that differs only in its clock time cleans to the same line:
      "Updated at 10:1m AM" becomes "Updated at" for every minute digit m. */
  lemma ClockTimeInvisible(m: char)
    requires IsDigit(m)
    ensures CleanLine("Updated at 10:1" + [m] + " AM") == "Updated at"
  {
    StatusLineTrimmed(m);
    StatusLineTokensRemoved(m);
    StatusPrefixCollapsed();
    assert Strip("Updated at ") == "Updated at" by {
      assert TrimStart("Updated at ") == "Updated at ";
      assert "Updated at "[..10] == "Updated at";
    }
  }

  lemma StatusLineTrimmed(m: char)
    requires IsDigit(m)
    ensures Strip("Updated at 10:1" + [m] + " AM") == "Updated at 10:1" + [m] + " AM"
  {
    var s := "Updated at 10:1" + [m] + " AM";
    assert !IsSpace(s[0]) && !IsSpace(s[|s| - 1]);
    StripProperties(s);
  }

  lemma StatusLineTokensRemoved(m: char)
    requires IsDigit(m)
    ensures StripVolatile("Updated at 10:1" + [m] + " AM") == "Updated at "
  {
    var kept := "Updated at ";
    ClockTimeRemoved(m);
    RemoveFromKeepsNonDigits(IsoDate, kept, 0, |kept|);
    assert kept[0..|kept|] == kept;
  }

  lemma StatusPrefixCollapsed()
    ensures Collapse("Updated at ") == "Updated at "
  {
    var s := "Updated at ";
    assert SpacesNormal(s) && NoDoubleSpace(s);
    CollapseProperties(s);
  }

  /** Two pages that differ only in the time of a status line have the same
      canonical text. */
  lemma PageClockTimeInvisible(m1: char, m2: char)
    requires IsDigit(m1) && IsDigit(m2)
    ensures NormalizedText([Data("Updated at 10:1" + [m1] + " AM")]) == NormalizedText([Data("Updated at 10:1" + [m2] + " AM")])
  {
    SinglePage("Updated at 10:1" + [m1] + " AM");
    SinglePage("Updated at 10:1" + [m2] + " AM");
    ClockTimeInvisible(m1);
    ClockTimeInvisible(m2);
  }

  /** A page made of one run of text yields the cleaned form of that text. */
  lemma SinglePage(text: string)
    ensures NormalizedText([Data(text)]) == CleanLine(text)
  {
    var evs := [Data(text)];
    assert evs[..0] == [];
    assert DepthAfter(0, evs[..0]) == 0;
    assert Extract(evs) == PartsAfter(0, []) + StepParts(0, Data(text));
    if Strip(text) == "" {
      assert NormalizeLines(Extract(evs)) == [];
    } else {
      assert NormalizeLines([Strip(text)]) == NormalizeLines([]) + if CleanLine(Strip(text)) != "" then [CleanLine(Strip(text))] else [];
      StripIdempotent(text);
    }
  }
}
