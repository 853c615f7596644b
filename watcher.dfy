/**
 * `run_watcher`: each cycle fetches the page, normalises it, hashes the canonical
 * text, classifies the result against the previous snapshot (baseline, changed,
 * unchanged), writes the new entry into the state mapping and decides whether to
 * stop.  The fetch, the hash function and `difflib.ndiff` are parameters: the
 * fetch results arrive as a sequence, one per cycle, and running out of them
 * stands for the interruption that otherwise ends the loop.
 */
module Watcher {
  import opened Wrappers
  import opened Text
  import opened Extractor
  import opened Normalize
  import opened Store
  import opened Differ

  /** The settings the loop depends on, as `main` clamps them. */
  datatype Config = Config(url: string, once: bool, maxChecks: nat, maxDiffLines: nat, noSound: bool)

  /** What the collaborators did in one cycle: the fetch failed; or the page was
      fetched and counted but a later step (a print, the diff report, the alert)
      raised before the entry was written; or it returned a page at time `now`,
      and writing the state file then succeeded (`saved`) or raised. */
  datatype Fetch = FetchFailed | FailedAfterCount | Fetched(page: seq<Event>, now: int, saved: bool)

  /** How a cycle ended: the fetch failed, the first observation became the
      baseline, nothing changed, or a change was reported (and the alert played
      when `alert`). */
  datatype Verdict = Failed | Baseline | Unchanged | Changed(report: seq<string>, alert: bool)

  /** The loop's variables: the state mapping, the previous snapshot, the count of
      successful checks. */
  datatype WatchState = WatchState(state: map<string, Json>, prev: Option<Snapshot>, checks: nat)

  /** The lines `print_diff` is given: `difflib.ndiff` over the two texts' lines. */
  function Script(ndiff: (seq<string>, seq<string>) -> seq<string>, before: string, after: string): seq<string>
  {
    ndiff(SplitLines(before), SplitLines(after))
  }

  /** How a fetched page with digest `h` and canonical text `text` compares with
      the previous snapshot. */
  function Classify(cfg: Config, ndiff: (seq<string>, seq<string>) -> seq<string>,
                    prev: Option<Snapshot>, h: string, text: string): Verdict
    requires cfg.maxDiffLines >= 1
  {
    if prev.None? then Baseline
    else if h != prev.value.hash then
      Changed(DiffReport(Script(ndiff, prev.value.text, text), cfg.maxDiffLines), !cfg.noSound)
    else Unchanged
  }

  /** One pass of the loop body. */
  function Cycle(cfg: Config, hash: string -> string, ndiff: (seq<string>, seq<string>) -> seq<string>,
                 st: WatchState, f: Fetch): (WatchState, Verdict)
    requires cfg.maxDiffLines >= 1
  {
    match f
    case FetchFailed => (st, Failed)
    case FailedAfterCount => (st.(checks := st.checks + 1), Failed)
    case Fetched(page, now, saved) =>
      var text := NormalizedText(page);
      var h := hash(text);
      var snapshot := Snapshot(cfg.url, h, text, now);
      (WatchState(st.state[cfg.url := Entry(h, text, now)], if saved then Some(snapshot) else st.prev, st.checks + 1),
       Classify(cfg, ndiff, st.prev, h, text))
  }

  /** The loop's exit test after a cycle: `once`, or the check limit reached. */
  predicate Stops(cfg: Config, checks: nat)
  {
    cfg.once || (cfg.maxChecks > 0 && checks >= cfg.maxChecks)
  }

  /** The loop from state `st` over the remaining fetch results: the final state and
      the verdicts of the cycles that ran. */
  function Run(cfg: Config, hash: string -> string, ndiff: (seq<string>, seq<string>) -> seq<string>,
               st: WatchState, fetches: seq<Fetch>): (r: (WatchState, seq<Verdict>))
    requires cfg.maxDiffLines >= 1
    decreases |fetches|
  {
    if fetches == [] then (st, [])
    else
      var next := Cycle(cfg, hash, ndiff, st, fetches[0]);
      if Stops(cfg, next.0.checks) then (next.0, [next.1])
      else
        var rest := Run(cfg, hash, ndiff, next.0, fetches[1..]);
        (rest.0, [next.1] + rest.1)
  }

  /** The state the loop starts from: the loaded mapping and the snapshot it holds
      for the URL. */
  function Initial(cfg: Config, raw: map<string, Json>): WatchState
  {
    WatchState(raw, ParseSnapshot(raw, cfg.url), 0)
  }

  method RunWatcher(cfg: Config, hash: string -> string, ndiff: (seq<string>, seq<string>) -> seq<string>,
                    raw: map<string, Json>, fetches: seq<Fetch>)
    returns (state: map<string, Json>, prev: Option<Snapshot>, checks: nat, verdicts: seq<Verdict>)
    requires cfg.maxDiffLines >= 1
    ensures (WatchState(state, prev, checks), verdicts) == Run(cfg, hash, ndiff, Initial(cfg, raw), fetches)
  {
    state := raw;
    prev := ParseSnapshot(state, cfg.url);
    checks := 0;
    verdicts := [];
    var i := 0;
    assert fetches[0..] == fetches;
    assert WatchState(state, prev, checks) == Initial(cfg, raw);
    ghost var total := Run(cfg, hash, ndiff, Initial(cfg, raw), fetches);
    assert verdicts + total.1 == total.1;
    while i < |fetches|
      invariant 0 <= i <= |fetches|
      invariant total ==
        var rest := Run(cfg, hash, ndiff, WatchState(state, prev, checks), fetches[i..]);
        (rest.0, verdicts + rest.1)
      decreases |fetches| - i
    {
      ghost var before := WatchState(state, prev, checks);
      var verdict: Verdict;
      state, prev, checks, verdict := CheckOnce(cfg, hash, ndiff, state, prev, checks, fetches[i]);
      RunResumes(cfg, hash, ndiff, total, before, fetches, i, verdicts, WatchState(state, prev, checks), verdict);
      verdicts := verdicts + [verdict];
      i := i + 1;
      if Stops(cfg, checks) {
        break;
      }
    }
    assert fetches[|fetches|..] == [];
    assert verdicts + [] == verdicts;
  }

  /** One pass of the loop body: fetch, normalise, hash, count, classify, store. */
  method CheckOnce(cfg: Config, hash: string -> string, ndiff: (seq<string>, seq<string>) -> seq<string>,
                   state0: map<string, Json>, prev0: Option<Snapshot>, checks0: nat, f: Fetch)
    returns (state: map<string, Json>, prev: Option<Snapshot>, checks: nat, verdict: Verdict)
    requires cfg.maxDiffLines >= 1
    ensures (WatchState(state, prev, checks), verdict) == Cycle(cfg, hash, ndiff, WatchState(state0, prev0, checks0), f)
  {
    state, prev, checks := state0, prev0, checks0;
    match f {
      case FetchFailed =>
        verdict := Failed;
      case FailedAfterCount =>
        checks := checks + 1;
        verdict := Failed;
      case Fetched(page, now, saved) =>
        var text := NormalizeVisibleText(page);
        var h := hash(text);
        checks := checks + 1;
        if prev.None? {
          verdict := Baseline;
        } else if h != prev.value.hash {
          var report := PrintDiff(Script(ndiff, prev.value.text, text), cfg.maxDiffLines);
          verdict := Changed(report, !cfg.noSound);
        } else {
          verdict := Unchanged;
        }
        state := state[cfg.url := Entry(h, text, now)];
        if saved {
          prev := Some(Snapshot(cfg.url, h, text, now));
        }
    }
  }

  /** The loop from position i runs one cycle, then stops or goes on from i + 1. */
  lemma RunStep(cfg: Config, hash: string -> string, ndiff: (seq<string>, seq<string>) -> seq<string>,
                st: WatchState, fetches: seq<Fetch>, i: nat)
    requires cfg.maxDiffLines >= 1 && i < |fetches|
    ensures var next := Cycle(cfg, hash, ndiff, st, fetches[i]);
      Run(cfg, hash, ndiff, st, fetches[i..]) ==
        if Stops(cfg, next.0.checks) then (next.0, [next.1])
        else (Run(cfg, hash, ndiff, next.0, fetches[i + 1..]).0, [next.1] + Run(cfg, hash, ndiff, next.0, fetches[i + 1..]).1)
  {
    assert fetches[i..][1..] == fetches[i + 1..];
  }

  /** The loop invariant carried over one cycle: what remains of the run after
      position i is the cycle at i, giving `after` and `v`, followed by the run
      after i + 1 unless the loop stops. */
  lemma RunResumes(cfg: Config, hash: string -> string, ndiff: (seq<string>, seq<string>) -> seq<string>,
                   total: (WatchState, seq<Verdict>), st: WatchState, fetches: seq<Fetch>, i: nat, done: seq<Verdict>,
                   after: WatchState, v: Verdict)
    requires cfg.maxDiffLines >= 1 && i < |fetches|
    requires total == (Run(cfg, hash, ndiff, st, fetches[i..]).0, done + Run(cfg, hash, ndiff, st, fetches[i..]).1)
    requires (after, v) == Cycle(cfg, hash, ndiff, st, fetches[i])
    ensures Stops(cfg, after.checks) ==> total == (after, done + [v])
    ensures !Stops(cfg, after.checks) ==>
      total == (Run(cfg, hash, ndiff, after, fetches[i + 1..]).0, (done + [v]) + Run(cfg, hash, ndiff, after, fetches[i + 1..]).1)
  {
    RunStep(cfg, hash, ndiff, st, fetches, i);
    var later := Run(cfg, hash, ndiff, after, fetches[i + 1..]);
    assert done + ([v] + later.1) == (done + [v]) + later.1;
  }


  /** A cycle whose fetch fails changes nothing; one that raises after counting
      changes only the count; one whose fetch succeeds counts a
      check, writes the URL's entry (which then reads back as the new snapshot),
      leaves every other entry alone, moves the previous snapshot forward only
      when the write succeeded, and classifies the page by its digest. */
  lemma CycleFacts(cfg: Config, hash: string -> string, ndiff: (seq<string>, seq<string>) -> seq<string>,
                   st: WatchState, f: Fetch)
    requires cfg.maxDiffLines >= 1
    ensures var r := Cycle(cfg, hash, ndiff, st, f);
      f.FetchFailed? ==> r == (st, Failed)
    ensures var r := Cycle(cfg, hash, ndiff, st, f);
      f.FailedAfterCount? ==> r == (WatchState(st.state, st.prev, st.checks + 1), Failed)
    ensures var r := Cycle(cfg, hash, ndiff, st, f);
      f.Fetched? ==>
        var text := NormalizedText(f.page);
        && r.0.checks == st.checks + 1
        && r.0.state == st.state[cfg.url := Entry(hash(text), text, f.now)]
        && ParseSnapshot(r.0.state, cfg.url) == Some(Snapshot(cfg.url, hash(text), text, f.now))
        && (forall k :: k != cfg.url ==> (k in r.0.state <==> k in st.state))
        && (forall k :: k != cfg.url && k in st.state ==> r.0.state[k] == st.state[k])
        && r.0.prev == (if f.saved then Some(Snapshot(cfg.url, hash(text), text, f.now)) else st.prev)
        && (r.1.Baseline? <==> st.prev.None?)
        && (r.1.Unchanged? <==> st.prev.Some? && st.prev.value.hash == hash(text))
        && (r.1.Changed? <==> st.prev.Some? && st.prev.value.hash != hash(text))
        && (r.1.Changed? ==> r.1 == Changed(DiffReport(Script(ndiff, st.prev.value.text, text), cfg.maxDiffLines), !cfg.noSound))
  {
    if f.Fetched? {
      var text := NormalizedText(f.page);
      EntryRoundTrip(st.state, cfg.url, hash(text), text, f.now);
    }
  }

  /** What the run's bookkeeping needs of a cycle: it counts a check unless the
      fetch failed, fails exactly when no page was stored, and a failed fetch
      changes nothing. */
  lemma CycleCounts(cfg: Config, hash: string -> string, ndiff: (seq<string>, seq<string>) -> seq<string>,
                    st: WatchState, f: Fetch)
    requires cfg.maxDiffLines >= 1
    ensures var r := Cycle(cfg, hash, ndiff, st, f);
      && r.0.checks == st.checks + (if f.FetchFailed? then 0 else 1)
      && (r.1.Failed? <==> !f.Fetched?)
      && (f.FetchFailed? ==> r.0 == st)
  {
  }

  /** The number of cycles that counted a check: those whose fetch did not fail. */
  function Counted(fetches: seq<Fetch>): (n: nat)
    ensures n <= |fetches|
  {
    if fetches == [] then 0
    else Counted(fetches[..|fetches| - 1]) + if fetches[|fetches| - 1].FetchFailed? then 0 else 1
  }

  lemma {:induction false} CountedCons(f: Fetch, rest: seq<Fetch>)
    ensures Counted([f] + rest) == (if f.FetchFailed? then 0 else 1) + Counted(rest)
    decreases |rest|
  {
    var all := [f] + rest;
    if rest == [] {
      assert all[..0] == [];
    } else {
      var n := |rest| - 1;
      assert all[..|all| - 1] == [f] + rest[..n];
      CountedCons(f, rest[..n]);
    }
  }

  /** The loop runs at least one cycle when there is input, never more cycles than
      there are inputs, and stops short of the input only because of `once` or the
      check limit. */
  lemma {:induction false} RunLength(cfg: Config, hash: string -> string, ndiff: (seq<string>, seq<string>) -> seq<string>,
                                     st: WatchState, fetches: seq<Fetch>)
    requires cfg.maxDiffLines >= 1
    ensures var r := Run(cfg, hash, ndiff, st, fetches);
      && (|r.1| == 0 <==> fetches == [])
      && |r.1| <= |fetches|
      && (|r.1| < |fetches| ==> Stops(cfg, r.0.checks))
    decreases |fetches|
  {
    if fetches != [] {
      var next := Cycle(cfg, hash, ndiff, st, fetches[0]);
      if !Stops(cfg, next.0.checks) {
        RunLength(cfg, hash, ndiff, next.0, fetches[1..]);
      }
    }
  }

  /** The i-th verdict is Failed exactly when the i-th cycle stored no page. */
  lemma {:induction false} RunFailures(cfg: Config, hash: string -> string, ndiff: (seq<string>, seq<string>) -> seq<string>,
                                       st: WatchState, fetches: seq<Fetch>)
    requires cfg.maxDiffLines >= 1
    ensures var r := Run(cfg, hash, ndiff, st, fetches);
      |r.1| <= |fetches| && forall k :: 0 <= k < |r.1| ==> (r.1[k].Failed? <==> !fetches[k].Fetched?)
    decreases |fetches|
  {
    if fetches != [] {
      var next := Cycle(cfg, hash, ndiff, st, fetches[0]);
      CycleCounts(cfg, hash, ndiff, st, fetches[0]);
      if !Stops(cfg, next.0.checks) {
        var rest := fetches[1..];
        var later := Run(cfg, hash, ndiff, next.0, rest);
        RunFailures(cfg, hash, ndiff, next.0, rest);
        var r := Run(cfg, hash, ndiff, st, fetches);
        assert r.1 == [next.1] + later.1;
        forall k | 0 <= k < |r.1| ensures r.1[k].Failed? <==> !fetches[k].Fetched? {
          if k > 0 {
            assert r.1[k] == later.1[k - 1] && fetches[k] == rest[k - 1];
          }
        }
      }
    }
  }

  /** The check count grows by the number of cycles that ran and did not fail to
      fetch. */
  lemma {:induction false} RunCount(cfg: Config, hash: string -> string, ndiff: (seq<string>, seq<string>) -> seq<string>,
                                    st: WatchState, fetches: seq<Fetch>)
    requires cfg.maxDiffLines >= 1
    ensures var r := Run(cfg, hash, ndiff, st, fetches);
      |r.1| <= |fetches| && r.0.checks == st.checks + Counted(fetches[..|r.1|])
    decreases |fetches|
  {
    if fetches != [] {
      var next := Cycle(cfg, hash, ndiff, st, fetches[0]);
      CycleCounts(cfg, hash, ndiff, st, fetches[0]);
      if Stops(cfg, next.0.checks) {
        CountedPrefix(fetches, 0);
      } else {
        RunCount(cfg, hash, ndiff, next.0, fetches[1..]);
        CountedPrefix(fetches, |Run(cfg, hash, ndiff, next.0, fetches[1..]).1|);
      }
    }
  }

  /** The number of cycles the loop runs from check count `checks`: it depends only
      on the count and on which fetches fail before counting. */
  function Cycles(cfg: Config, checks: nat, fetches: seq<Fetch>): nat
    decreases |fetches|
  {
    if fetches == [] then 0
    else
      var c := checks + if fetches[0].FetchFailed? then 0 else 1;
      if Stops(cfg, c) then 1 else 1 + Cycles(cfg, c, fetches[1..])
  }

  /** The run's length is `Cycles` of its starting count. */
  lemma {:induction false} RunCycles(cfg: Config, hash: string -> string, ndiff: (seq<string>, seq<string>) -> seq<string>,
                                     st: WatchState, fetches: seq<Fetch>)
    requires cfg.maxDiffLines >= 1
    ensures |Run(cfg, hash, ndiff, st, fetches).1| == Cycles(cfg, st.checks, fetches)
    decreases |fetches|
  {
    if fetches != [] {
      var next := Cycle(cfg, hash, ndiff, st, fetches[0]);
      CycleCounts(cfg, hash, ndiff, st, fetches[0]);
      if Stops(cfg, next.0.checks) {
        assert Run(cfg, hash, ndiff, st, fetches).1 == [next.1];
      } else {
        assert Run(cfg, hash, ndiff, st, fetches).1 == [next.1] + Run(cfg, hash, ndiff, next.0, fetches[1..]).1;
        assert Cycles(cfg, st.checks, fetches) == 1 + Cycles(cfg, next.0.checks, fetches[1..]);
        RunCycles(cfg, hash, ndiff, next.0, fetches[1..]);
      }
    }
  }

  /** The exit test fails after each of the first n - 1 of the inputs: the loop
      goes on to the n-th. */
  predicate GoesOn(cfg: Config, checks: nat, fetches: seq<Fetch>, n: nat)
    requires n <= |fetches|
  {
    forall j :: 1 <= j < n ==> !Stops(cfg, checks + Counted(fetches[..j]))
  }

  /** Before the last of the `Cycles` cycles, the exit test never holds. */
  lemma {:induction false} CyclesStopFirst(cfg: Config, checks: nat, fetches: seq<Fetch>, n: nat)
    requires n == Cycles(cfg, checks, fetches)
    ensures n <= |fetches| && GoesOn(cfg, checks, fetches, n)
    decreases |fetches|
  {
    if fetches != [] {
      var c := checks + if fetches[0].FetchFailed? then 0 else 1;
      if !Stops(cfg, c) {
        CyclesStopFirst(cfg, c, fetches[1..], Cycles(cfg, c, fetches[1..]));
        NotStoppedShift(cfg, checks, c, fetches, Cycles(cfg, c, fetches[1..]));
      }
    }
  }

  /** The loop goes on only while the exit test fails: after none of the cycles
      before the last does the count reach the limit (or `once` hold). */
  lemma RunStopsFirst(cfg: Config, hash: string -> string, ndiff: (seq<string>, seq<string>) -> seq<string>,
                      st: WatchState, fetches: seq<Fetch>)
    requires cfg.maxDiffLines >= 1
    ensures var r := Run(cfg, hash, ndiff, st, fetches);
      |r.1| <= |fetches| && GoesOn(cfg, st.checks, fetches, |r.1|)
  {
    RunCycles(cfg, hash, ndiff, st, fetches);
    CyclesStopFirst(cfg, st.checks, fetches, |Run(cfg, hash, ndiff, st, fetches).1|);
  }

  /** The exit test failing after the first cycle and after each of the next
      m - 1 cycles of the rest means it fails after each of the first m cycles. */
  lemma NotStoppedShift(cfg: Config, c0: nat, c1: nat, fetches: seq<Fetch>, m: nat)
    requires m < |fetches|
    requires c1 == c0 + (if fetches[0].FetchFailed? then 0 else 1) && !Stops(cfg, c1)
    requires forall j :: 1 <= j < m ==> !Stops(cfg, c1 + Counted(fetches[1..][..j]))
    ensures forall j :: 1 <= j < m + 1 ==> !Stops(cfg, c0 + Counted(fetches[..j]))
  {
    forall j | 1 <= j < m + 1 ensures !Stops(cfg, c0 + Counted(fetches[..j])) {
      CountedPrefix(fetches, j - 1);
      if j == 1 {
        assert fetches[1..][..0] == [];
      }
    }
  }

  /** Counting over the first n + 1 inputs is the first input's count plus the
      count over the next n. */
  lemma CountedPrefix(fetches: seq<Fetch>, n: nat)
    requires n < |fetches|
    ensures Counted(fetches[..n + 1]) == (if fetches[0].FetchFailed? then 0 else 1) + Counted(fetches[1..][..n])
  {
    assert fetches[..n + 1] == [fetches[0]] + fetches[1..][..n];
    CountedCons(fetches[0], fetches[1..][..n]);
  }

  /** With `once`, exactly one cycle runs. */
  lemma RunOnce(cfg: Config, hash: string -> string, ndiff: (seq<string>, seq<string>) -> seq<string>,
                st: WatchState, fetches: seq<Fetch>)
    requires cfg.maxDiffLines >= 1 && cfg.once && fetches != []
    ensures |Run(cfg, hash, ndiff, st, fetches).1| == 1
  {
  }

  /** A run that starts below a positive check limit never goes past it. */
  lemma {:induction false} RunWithinLimit(cfg: Config, hash: string -> string, ndiff: (seq<string>, seq<string>) -> seq<string>,
                                          st: WatchState, fetches: seq<Fetch>)
    requires cfg.maxDiffLines >= 1 && cfg.maxChecks > 0 && st.checks < cfg.maxChecks
    ensures Run(cfg, hash, ndiff, st, fetches).0.checks <= cfg.maxChecks
    decreases |fetches|
  {
    if fetches != [] {
      var next := Cycle(cfg, hash, ndiff, st, fetches[0]);
      CycleCounts(cfg, hash, ndiff, st, fetches[0]);
      if !Stops(cfg, next.0.checks) {
        RunWithinLimit(cfg, hash, ndiff, next.0, fetches[1..]);
      }
    }
  }

  /** Without `once`, and with no fetch failing, a run from below the limit
      performs exactly the remaining number of checks and ends on the limit. */
  lemma {:induction false} RunReachesLimit(cfg: Config, hash: string -> string, ndiff: (seq<string>, seq<string>) -> seq<string>,
                                           st: WatchState, fetches: seq<Fetch>)
    requires cfg.maxDiffLines >= 1 && !cfg.once && cfg.maxChecks > 0 && st.checks < cfg.maxChecks
    requires |fetches| >= cfg.maxChecks - st.checks
    requires forall k :: 0 <= k < |fetches| ==> !fetches[k].FetchFailed?
    ensures var r := Run(cfg, hash, ndiff, st, fetches);
      |r.1| == cfg.maxChecks - st.checks && r.0.checks == cfg.maxChecks
    decreases |fetches|
  {
    var next := Cycle(cfg, hash, ndiff, st, fetches[0]);
    CycleCounts(cfg, hash, ndiff, st, fetches[0]);
    if !Stops(cfg, next.0.checks) {
      RunReachesLimit(cfg, hash, ndiff, next.0, fetches[1..]);
    }
  }

  /** A run in which every fetch fails leaves the state, the snapshot and the count
      exactly as they were. */
  lemma {:induction false} FailuresChangeNothing(cfg: Config, hash: string -> string, ndiff: (seq<string>, seq<string>) -> seq<string>,
                                                 st: WatchState, fetches: seq<Fetch>)
    requires cfg.maxDiffLines >= 1
    requires forall k :: 0 <= k < |fetches| ==> fetches[k].FetchFailed?
    ensures Run(cfg, hash, ndiff, st, fetches).0 == st
    decreases |fetches|
  {
    if fetches != [] {
      CycleCounts(cfg, hash, ndiff, st, fetches[0]);
      FailuresChangeNothing(cfg, hash, ndiff, st, fetches[1..]);
    }
  }

  /** The previous snapshot, once the loop has produced one, belongs to the watched
      URL and carries the digest of its own text. */
  predicate DigestAgrees(cfg: Config, hash: string -> string, st: WatchState)
  {
    st.prev.Some? ==> st.prev.value.url == cfg.url && st.prev.value.hash == hash(st.prev.value.text)
  }

  /** The previous snapshot is the one the state mapping holds for the URL. */
  predicate Persisted(cfg: Config, st: WatchState)
  {
    ParseSnapshot(st.state, cfg.url) == st.prev
  }

  /** The loop starts persisted: the snapshot is read from the loaded mapping. */
  lemma InitialPersisted(cfg: Config, raw: map<string, Json>)
    ensures Persisted(cfg, Initial(cfg, raw))
  {
  }

  /** Every cycle keeps the digest invariant. */
  lemma {:induction false} RunKeepsDigest(cfg: Config, hash: string -> string, ndiff: (seq<string>, seq<string>) -> seq<string>,
                                          st: WatchState, fetches: seq<Fetch>)
    requires cfg.maxDiffLines >= 1 && DigestAgrees(cfg, hash, st)
    ensures DigestAgrees(cfg, hash, Run(cfg, hash, ndiff, st, fetches).0)
    decreases |fetches|
  {
    if fetches != [] {
      var next := Cycle(cfg, hash, ndiff, st, fetches[0]);
      CycleFacts(cfg, hash, ndiff, st, fetches[0]);
      if !Stops(cfg, next.0.checks) {
        RunKeepsDigest(cfg, hash, ndiff, next.0, fetches[1..]);
      }
    }
  }

  /** While every write of the state file succeeds, the snapshot stays the one the
      mapping holds for the URL. */
  lemma {:induction false} RunKeepsPersisted(cfg: Config, hash: string -> string, ndiff: (seq<string>, seq<string>) -> seq<string>,
                                             st: WatchState, fetches: seq<Fetch>)
    requires cfg.maxDiffLines >= 1 && Persisted(cfg, st)
    requires forall k :: 0 <= k < |fetches| && fetches[k].Fetched? ==> fetches[k].saved
    ensures Persisted(cfg, Run(cfg, hash, ndiff, st, fetches).0)
    decreases |fetches|
  {
    if fetches != [] {
      var next := Cycle(cfg, hash, ndiff, st, fetches[0]);
      CycleFacts(cfg, hash, ndiff, st, fetches[0]);
      if !Stops(cfg, next.0.checks) {
        RunKeepsPersisted(cfg, hash, ndiff, next.0, fetches[1..]);
      }
    }
  }

  /** A failed write leaves the mapping and the snapshot apart: the mapping holds
      the new page while the snapshot stays the old one. */
  lemma UnsavedCycleDiverges(cfg: Config, hash: string -> string, ndiff: (seq<string>, seq<string>) -> seq<string>,
                             st: WatchState, page: seq<Event>, now: int)
    requires cfg.maxDiffLines >= 1
    requires st.prev.Some? && st.prev.value.text != NormalizedText(page)
    ensures !Persisted(cfg, Cycle(cfg, hash, ndiff, st, Fetched(page, now, false)).0)
  {
    CycleFacts(cfg, hash, ndiff, st, Fetched(page, now, false));
  }

  /** Starting without a snapshot, a page becomes the baseline, and a second page
      with the same canonical text is reported unchanged. */
  lemma {:induction false} StableScenario(cfg: Config, hash: string -> string, ndiff: (seq<string>, seq<string>) -> seq<string>,
                                          raw: map<string, Json>, p1: seq<Event>, p2: seq<Event>, t1: int, t2: int)
    requires cfg.maxDiffLines >= 1 && !Stops(cfg, 1)
    requires ParseSnapshot(raw, cfg.url).None?
    requires NormalizedText(p1) == NormalizedText(p2)
    ensures Run(cfg, hash, ndiff, Initial(cfg, raw), [Fetched(p1, t1, true), Fetched(p2, t2, true)]).1 == [Baseline, Unchanged]
  {
    var fetches := [Fetched(p1, t1, true), Fetched(p2, t2, true)];
    var st := Initial(cfg, raw);
    var first := Cycle(cfg, hash, ndiff, st, fetches[0]);
    var second := Cycle(cfg, hash, ndiff, first.0, fetches[1]);
    assert first.1 == Baseline && first.0.prev == Some(Snapshot(cfg.url, hash(NormalizedText(p1)), NormalizedText(p1), t1));
    assert second.1 == Unchanged;
    TwoCycles(cfg, hash, ndiff, st, fetches[0], fetches[1]);
  }

  /** Starting without a snapshot, a page becomes the baseline, and a second page
      with a different digest is reported with the diff against the first page's
      text, alerting unless the sound is off. */
  lemma {:induction false} ChangeScenario(cfg: Config, hash: string -> string, ndiff: (seq<string>, seq<string>) -> seq<string>,
                                          raw: map<string, Json>, p1: seq<Event>, p2: seq<Event>, t1: int, t2: int)
    requires cfg.maxDiffLines >= 1 && !Stops(cfg, 1)
    requires ParseSnapshot(raw, cfg.url).None?
    requires hash(NormalizedText(p1)) != hash(NormalizedText(p2))
    ensures Run(cfg, hash, ndiff, Initial(cfg, raw), [Fetched(p1, t1, true), Fetched(p2, t2, true)]).1 ==
      [Baseline, Changed(DiffReport(Script(ndiff, NormalizedText(p1), NormalizedText(p2)), cfg.maxDiffLines), !cfg.noSound)]
  {
    var fetches := [Fetched(p1, t1, true), Fetched(p2, t2, true)];
    var st := Initial(cfg, raw);
    var first := Cycle(cfg, hash, ndiff, st, fetches[0]);
    var second := Cycle(cfg, hash, ndiff, first.0, fetches[1]);
    assert first.1 == Baseline && first.0.prev == Some(Snapshot(cfg.url, hash(NormalizedText(p1)), NormalizedText(p1), t1));
    assert second.1 == Changed(DiffReport(Script(ndiff, NormalizedText(p1), NormalizedText(p2)), cfg.maxDiffLines), !cfg.noSound);
    TwoCycles(cfg, hash, ndiff, st, fetches[0], fetches[1]);
  }

  /** A run over two inputs when the first cycle does not stop the loop. */
  lemma TwoCycles(cfg: Config, hash: string -> string, ndiff: (seq<string>, seq<string>) -> seq<string>,
                  st: WatchState, f1: Fetch, f2: Fetch)
    requires cfg.maxDiffLines >= 1 && !Stops(cfg, Cycle(cfg, hash, ndiff, st, f1).0.checks)
    ensures var first := Cycle(cfg, hash, ndiff, st, f1);
      Run(cfg, hash, ndiff, st, [f1, f2]).1 == [first.1, Cycle(cfg, hash, ndiff, first.0, f2).1]
  {
    var first := Cycle(cfg, hash, ndiff, st, f1);
    var second := Cycle(cfg, hash, ndiff, first.0, f2);
    assert [f1, f2][1..] == [f2];
    assert [f2][1..] == [];
    assert Run(cfg, hash, ndiff, first.0, [f2]).1 == [second.1];
    assert Run(cfg, hash, ndiff, st, [f1, f2]).1 == [first.1] + [second.1];
  }
}
