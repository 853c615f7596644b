/**
 * The visible-text extractor: a parser callback object that keeps a skip depth
 * and collects the trimmed text found outside script, style and noscript
 * elements.  The HTML tokeniser is not modelled; its output is a sequence of
 * events, delivered to the handlers in document order.
 */
module Extractor {
  import opened Text

  /** One tokeniser callback: a start tag, an end tag, or a run of character data. */
  datatype Event = Start(name: string) | End(name: string) | Data(text: string)

  /** Tags whose content is not rendered; matched after lower-casing. */
  predicate IsSkipTag(tag: string)
  {
    Lower(tag) in {"script", "style", "noscript"}
  }

  /** A tag is skipped exactly when it spells script, style or noscript in any
      mixture of ASCII letter case. */
  lemma IsSkipTagAnyCase(tag: string)
    ensures IsSkipTag(tag) <==>
      SameUpToCase(tag, "script") || SameUpToCase(tag, "style") || SameUpToCase(tag, "noscript")
  {
    LowerUpToCase(tag, "script");
    LowerUpToCase(tag, "style");
    LowerUpToCase(tag, "noscript");
  }

  /** The skip depth after one event. */
  function StepDepth(d: int, e: Event): (r: int)
    ensures d >= 0 ==> r >= 0
    ensures r != d ==> (e.Start? || e.End?) && IsSkipTag(e.name)
    ensures e.Start? && IsSkipTag(e.name) ==> r == d + 1
    ensures e.End? && IsSkipTag(e.name) ==> r == if d > 0 then d - 1 else d
  {
    match e
    case Start(tag) => if IsSkipTag(tag) then d + 1 else d
    case End(tag) => if IsSkipTag(tag) && d > 0 then d - 1 else d
    case Data(_) => d
  }

  /** The parts one event contributes when it arrives at skip depth `d`. */
  function StepParts(d: int, e: Event): seq<string>
  {
    if e.Data? && d == 0 && Strip(e.text) != "" then [Strip(e.text)] else []
  }

  /** The skip depth after the events `evs`, starting from depth `d`. */
  function DepthAfter(d: int, evs: seq<Event>): int
  {
    if evs == [] then d
    else StepDepth(DepthAfter(d, evs[..|evs| - 1]), evs[|evs| - 1])
  }

  /** The skip depth in force when event `i` arrives. */
  function DepthAt(d: int, evs: seq<Event>, i: nat): int
    requires i <= |evs|
  {
    DepthAfter(d, evs[..i])
  }

  /** The parts collected from the events `evs`, starting from depth `d`. */
  function PartsAfter(d: int, evs: seq<Event>): seq<string>
  {
    if evs == [] then []
    else PartsAfter(d, evs[..|evs| - 1]) + StepParts(DepthAfter(d, evs[..|evs| - 1]), evs[|evs| - 1])
  }

  /** What a fresh extractor collects from a whole document. */
  function Extract(evs: seq<Event>): seq<string>
  {
    PartsAfter(0, evs)
  }

  /** The skip depth never becomes negative, whatever markup arrives, including
      end tags with no matching start tag. */
  lemma {:induction false} DepthNeverNegative(d: int, evs: seq<Event>)
    requires d >= 0
    ensures DepthAfter(d, evs) >= 0
    decreases |evs|
  {
    if evs != [] {
      DepthNeverNegative(d, evs[..|evs| - 1]);
    }
  }

  /** Events other than start and end tags of skipped elements leave the depth alone. */
  lemma {:induction false} DepthChangesOnlyOnSkipTags(d: int, evs: seq<Event>)
    requires forall i :: 0 <= i < |evs| ==> !((evs[i].Start? || evs[i].End?) && IsSkipTag(evs[i].name))
    ensures DepthAfter(d, evs) == d
    decreases |evs|
  {
    if evs != [] {
      DepthChangesOnlyOnSkipTags(d, evs[..|evs| - 1]);
    }
  }

  /** The positions of the events the collected parts come from. */
  function Origins(d: int, evs: seq<Event>): (idx: seq<nat>)
    ensures |idx| == |PartsAfter(d, evs)|
    ensures forall k :: 0 <= k < |idx| ==> idx[k] < |evs|
  {
    if evs == [] then []
    else
      var n := |evs| - 1;
      Origins(d, evs[..n]) + if StepParts(DepthAfter(d, evs[..n]), evs[n]) != [] then [n] else []
  }

  /** The skip depth at event `i` does not depend on the events after it. */
  lemma DepthAtPrefix(d: int, evs: seq<Event>, n: nat, i: nat)
    requires i <= n <= |evs|
    ensures DepthAt(d, evs, i) == DepthAt(d, evs[..n], i)
  {
    assert evs[..i] == evs[..n][..i];
  }

  /** Each collected part is the trimmed, non-empty text of a data event that
      arrived at skip depth 0. */
  lemma {:induction false} OriginsSound(d: int, evs: seq<Event>)
    ensures forall k :: 0 <= k < |Origins(d, evs)| ==>
      var i := Origins(d, evs)[k];
      evs[i].Data? && DepthAt(d, evs, i) == 0 &&
      PartsAfter(d, evs)[k] == Strip(evs[i].text) && PartsAfter(d, evs)[k] != ""
    decreases |evs|
  {
    if evs != [] {
      var n := |evs| - 1;
      var init := evs[..n];
      OriginsSound(d, init);
      var idx, prev := Origins(d, evs), Origins(d, init);
      forall k | 0 <= k < |idx|
        ensures evs[idx[k]].Data? && DepthAt(d, evs, idx[k]) == 0
        ensures PartsAfter(d, evs)[k] == Strip(evs[idx[k]].text) && PartsAfter(d, evs)[k] != ""
      {
        DepthAtPrefix(d, evs, n, idx[k]);
        if k < |prev| {
          assert idx[k] == prev[k] && evs[prev[k]] == init[prev[k]];
          assert PartsAfter(d, evs)[k] == PartsAfter(d, init)[k];
        } else {
          assert idx[k] == n;
        }
      }
    }
  }

  /** The parts appear in the order of the events they come from. */
  lemma {:induction false} OriginsOrdered(d: int, evs: seq<Event>)
    ensures forall k, l :: 0 <= k < l < |Origins(d, evs)| ==> Origins(d, evs)[k] < Origins(d, evs)[l]
    decreases |evs|
  {
    if evs != [] {
      OriginsOrdered(d, evs[..|evs| - 1]);
    }
  }

  /** No visible data is lost: every data event at skip depth 0 whose trimmed text
      is non-empty contributes a part. */
  lemma {:induction false} OriginsComplete(d: int, evs: seq<Event>, i: nat)
    requires i < |evs| && evs[i].Data? && DepthAt(d, evs, i) == 0 && Strip(evs[i].text) != ""
    ensures i in Origins(d, evs)
    decreases |evs|
  {
    var n := |evs| - 1;
    if i < n {
      var init := evs[..n];
      DepthAtPrefix(d, evs, n, i);
      assert init[i] == evs[i];
      OriginsComplete(d, init, i);
      OriginsGrow(d, evs);
    } else {
      OriginsLast(d, evs);
    }
  }

  /** The origins of a document extend those of the document without its last event. */
  lemma OriginsGrow(d: int, evs: seq<Event>)
    requires evs != []
    ensures forall j :: j in Origins(d, evs[..|evs| - 1]) ==> j in Origins(d, evs)
  {
  }

  /** A visible, non-empty last data event is an origin. */
  lemma OriginsLast(d: int, evs: seq<Event>)
    requires evs != [] && evs[|evs| - 1].Data? && DepthAt(d, evs, |evs| - 1) == 0
    requires Strip(evs[|evs| - 1].text) != ""
    ensures |evs| - 1 in Origins(d, evs)
  {
    var n := |evs| - 1;
    assert DepthAfter(d, evs[..n]) == 0;
    assert StepParts(DepthAfter(d, evs[..n]), evs[n]) != [];
  }

  /** Feeding a document in two pieces collects the parts of the first piece, then
      those of the second, continuing from the depth the first one left. */
  lemma {:induction false} PartsAfterAppend(d: int, a: seq<Event>, b: seq<Event>)
    ensures PartsAfter(d, a + b) == PartsAfter(d, a) + PartsAfter(DepthAfter(d, a), b)
    ensures DepthAfter(d, a + b) == DepthAfter(DepthAfter(d, a), b)
    decreases |b|
  {
    if b == [] {
      assert a + b == a;
    } else {
      var m := |b| - 1;
      assert (a + b)[..|a + b| - 1] == a + b[..m];
      PartsAfterAppend(d, a, b[..m]);
    }
  }

  /** The parser callback object; its fields are updated in place by the handlers. */
  class VisibleTextExtractor {
    var skipDepth: int
    var parts: seq<string>

    ghost predicate Valid()
      reads this
    {
      skipDepth >= 0
    }

    constructor ()
      ensures Valid() && skipDepth == 0 && parts == []
    {
      skipDepth := 0;
      parts := [];
    }

    method HandleStartTag(tag: string)
      requires Valid()
      modifies this
      ensures Valid()
      ensures skipDepth == StepDepth(old(skipDepth), Start(tag)) && parts == old(parts)
    {
      if IsSkipTag(tag) {
        skipDepth := skipDepth + 1;
      }
    }

    method HandleEndTag(tag: string)
      requires Valid()
      modifies this
      ensures Valid()
      ensures skipDepth == StepDepth(old(skipDepth), End(tag)) && parts == old(parts)
    {
      if IsSkipTag(tag) && skipDepth > 0 {
        skipDepth := skipDepth - 1;
      }
    }

    method HandleData(data: string)
      requires Valid()
      modifies this
      ensures Valid()
      ensures skipDepth == old(skipDepth)
      ensures parts == old(parts) + StepParts(old(skipDepth), Data(data))
    {
      if skipDepth == 0 {
        var text := Strip(data);
        if text != "" {
          parts := parts + [text];
        }
      }
    }

    /** The tokeniser delivering a document's events to the handlers in order. */
    method Feed(evs: seq<Event>)
      requires Valid()
      modifies this
      ensures Valid()
      ensures skipDepth == DepthAfter(old(skipDepth), evs)
      ensures parts == old(parts) + PartsAfter(old(skipDepth), evs)
    {
      ghost var d0, p0 := skipDepth, parts;
      var i := 0;
      while i < |evs|
        invariant 0 <= i <= |evs|
        invariant Valid()
        invariant skipDepth == DepthAfter(d0, evs[..i])
        invariant parts == p0 + PartsAfter(d0, evs[..i])
      {
        ghost var before := evs[..i + 1];
        assert before[..i] == evs[..i] && before[i] == evs[i];
        ghost var depth, collected := skipDepth, parts;
        match evs[i] {
          case Start(tag) => HandleStartTag(tag);
          case End(tag) => HandleEndTag(tag);
          case Data(text) => HandleData(text);
        }
        assert skipDepth == StepDepth(depth, evs[i]);
        assert parts == collected + StepParts(depth, evs[i]);
        i := i + 1;
      }
      assert evs[..i] == evs;
    }

    method Lines() returns (r: seq<string>)
      ensures r == parts
    {
      r := parts;
    }
  }
}
