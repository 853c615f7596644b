/**
 * Python string primitives the pipeline relies on: `str.isspace`, `str.strip`,
 * `re.sub(r"\s+", " ", ...)`, `"\n".join`, `str.splitlines`, `str.lower` on
 * ASCII letters, and `str(n)` for a non-negative integer.
 */
module Text {

  /** Python's `str.isspace()`; the same set is matched by `\s` in a `str` regex
      and removed by `str.strip()` without arguments. */
  predicate IsSpace(c: char)
  {
    c == ' ' || ('\t' <= c <= '\r') || ('\U{1C}' <= c <= '\U{1F}') ||
    c == '\U{85}' || c == '\U{A0}' || c == '\U{1680}' ||
    ('\U{2000}' <= c <= '\U{200A}') || c == '\U{2028}' || c == '\U{2029}' ||
    c == '\U{202F}' || c == '\U{205F}' || c == '\U{3000}'
  }

  /** The characters `str.splitlines` breaks at ("\r\n" counts as one break). */
  predicate IsLineBoundary(c: char)
  {
    c == '\n' || c == '\r' || c == '\U{0B}' || c == '\U{0C}' ||
    ('\U{1C}' <= c <= '\U{1E}') || c == '\U{85}' || c == '\U{2028}' || c == '\U{2029}'
  }

  lemma LineBoundaryIsSpace(c: char)
    requires IsLineBoundary(c)
    ensures IsSpace(c) && c != ' '
  {
  }

  /** Every whitespace character of `s` is a plain space. */
  predicate SpacesNormal(s: string)
  {
    forall i :: 0 <= i < |s| && IsSpace(s[i]) ==> s[i] == ' '
  }

  /** `s` holds no run of two spaces. */
  predicate NoDoubleSpace(s: string)
  {
    forall i :: 0 < i < |s| ==> !(s[i - 1] == ' ' && s[i] == ' ')
  }

  /** `s` holds no character `str.splitlines` would break at. */
  predicate NoLineBoundary(s: string)
  {
    forall i :: 0 <= i < |s| ==> !IsLineBoundary(s[i])
  }

  /** A canonical line: non-empty, no leading or trailing whitespace, and its only
      whitespace is single plain spaces. */
  predicate Canonical(s: string)
  {
    s != [] && !IsSpace(s[0]) && !IsSpace(s[|s| - 1]) && SpacesNormal(s) && NoDoubleSpace(s)
  }

  lemma CanonicalHasNoLineBoundary(s: string)
    requires Canonical(s)
    ensures NoLineBoundary(s) && '\n' !in s
  {
    forall i | 0 <= i < |s| ensures !IsLineBoundary(s[i]) {
      if IsLineBoundary(s[i]) {
        LineBoundaryIsSpace(s[i]);
      }
    }
  }

  /** `str.lstrip()`: `s` without its leading whitespace. */
  function TrimStart(s: string): (r: string)
    ensures |r| <= |s|
    ensures r != [] ==> !IsSpace(r[0])
    decreases |s|
  {
    if s != [] && IsSpace(s[0]) then TrimStart(s[1..]) else s
  }

  /** What `str.lstrip()` drops is a run of whitespace at the front. */
  lemma {:induction false} TrimStartDrops(s: string)
    ensures TrimStart(s) == s[|s| - |TrimStart(s)|..]
    ensures forall i :: 0 <= i < |s| - |TrimStart(s)| ==> IsSpace(s[i])
    decreases |s|
  {
    if s != [] && IsSpace(s[0]) {
      TrimStartDrops(s[1..]);
    }
  }

  /** `str.rstrip()`: `s` without its trailing whitespace. */
  function TrimEnd(s: string): (r: string)
    ensures |r| <= |s|
    ensures r != [] ==> !IsSpace(r[|r| - 1])
    decreases |s|
  {
    if s != [] && IsSpace(s[|s| - 1]) then TrimEnd(s[..|s| - 1]) else s
  }

  /** What `str.rstrip()` drops is a run of whitespace at the back. */
  lemma {:induction false} TrimEndDrops(s: string)
    ensures TrimEnd(s) == s[..|TrimEnd(s)|]
    ensures forall i :: |TrimEnd(s)| <= i < |s| ==> IsSpace(s[i])
    decreases |s|
  {
    if s != [] && IsSpace(s[|s| - 1]) {
      TrimEndDrops(s[..|s| - 1]);
    }
  }

  /** `str.strip()`. */
  function Strip(s: string): string
  {
    TrimEnd(TrimStart(s))
  }

  /** Stripping leaves a slice of `s` that neither starts nor ends with whitespace
      and is empty exactly when `s` is all whitespace; a slice keeps the spacing
      properties of `s`, and a string with no whitespace at its ends is unchanged. */
  lemma StripProperties(s: string)
    ensures Strip(s) != [] ==> !IsSpace(Strip(s)[0]) && !IsSpace(Strip(s)[|Strip(s)| - 1])
    ensures Strip(s) == [] <==> forall i :: 0 <= i < |s| ==> IsSpace(s[i])
    ensures SpacesNormal(s) ==> SpacesNormal(Strip(s))
    ensures NoDoubleSpace(s) ==> NoDoubleSpace(Strip(s))
    ensures s == [] || (!IsSpace(s[0]) && !IsSpace(s[|s| - 1])) ==> Strip(s) == s
  {
    var a := |s| - |TrimStart(s)|;
    StripSlice(s);
    SliceKeepsSpacing(s, a, a + |Strip(s)|);
    StripEnds(s);
    StripEmptyIff(s);
    if s == [] || (!IsSpace(s[0]) && !IsSpace(s[|s| - 1])) {
      assert TrimStart(s) == s;
      assert TrimEnd(s) == s;
    }
  }

  /** `Strip(s)` is the slice of `s` that starts where the leading whitespace ends. */
  lemma StripSlice(s: string)
    ensures |s| - |TrimStart(s)| + |Strip(s)| <= |s|
    ensures Strip(s) == s[|s| - |TrimStart(s)|..|s| - |TrimStart(s)| + |Strip(s)|]
  {
    var t := TrimStart(s);
    TrimStartDrops(s);
    TrimEndDrops(t);
  }

  lemma StripEnds(s: string)
    ensures Strip(s) != [] ==> !IsSpace(Strip(s)[0]) && !IsSpace(Strip(s)[|Strip(s)| - 1])
  {
    var t := TrimStart(s);
    var r := TrimEnd(t);
    TrimEndDrops(t);
    if r != [] {
      assert r[0] == t[0];
    }
  }

  lemma StripEmptyIff(s: string)
    ensures Strip(s) == [] <==> forall i :: 0 <= i < |s| ==> IsSpace(s[i])
  {
    var t := TrimStart(s);
    var a := |s| - |t|;
    TrimStartDrops(s);
    TrimEndDrops(t);
    assert t != [] ==> t[0] == s[a];
    assert t != [] ==> TrimEnd(t) != [];
  }

  /** Stripping twice is stripping once. */
  lemma StripIdempotent(s: string)
    ensures Strip(Strip(s)) == Strip(s)
  {
    StripProperties(s);
    StripProperties(Strip(s));
  }

  /** A slice of a string keeps its spacing properties. */
  lemma SliceKeepsSpacing(s: string, a: nat, b: nat)
    requires a <= b <= |s|
    ensures SpacesNormal(s) ==> SpacesNormal(s[a..b])
    ensures NoDoubleSpace(s) ==> NoDoubleSpace(s[a..b])
  {
    var r := s[a..b];
    assert forall i :: 0 <= i < |r| ==> r[i] == s[a + i];
    if NoDoubleSpace(s) {
      forall i | 0 < i < |r| ensures !(r[i - 1] == ' ' && r[i] == ' ') {
        assert r[i - 1] == s[a + i - 1];
      }
    }
  }

  /** `re.sub(r"\s+", " ", s)`: every maximal run of whitespace becomes one space. */
  function Collapse(s: string): string
    decreases |s|
  {
    if s == [] then []
    else if IsSpace(s[0]) then [' '] + Collapse(TrimStart(s[1..]))
    else [s[0]] + Collapse(s[1..])
  }

  /** After collapsing, the only whitespace is single plain spaces; the result is
      empty exactly when the input is, starts with whitespace exactly when the input
      does, and a string already spaced that way is unchanged. */
  lemma {:induction false} CollapseProperties(s: string)
    ensures SpacesNormal(Collapse(s)) && NoDoubleSpace(Collapse(s))
    ensures Collapse(s) == [] <==> s == []
    ensures Collapse(s) != [] ==> (IsSpace(Collapse(s)[0]) <==> IsSpace(s[0]))
    ensures SpacesNormal(s) && NoDoubleSpace(s) ==> Collapse(s) == s
    decreases |s|
  {
    if s != [] {
      var tail := s[1..];
      if IsSpace(s[0]) {
        var t := TrimStart(tail);
        CollapseProperties(t);
        var r := Collapse(t);
        assert Collapse(s) == [' '] + r;
        assert r != [] ==> !IsSpace(r[0]);
        ConsKeepsSpacing(' ', r);
        if SpacesNormal(s) && NoDoubleSpace(s) {
          if tail != [] {
            assert s[1] == tail[0];
            assert !IsSpace(tail[0]);
          }
          assert t == tail;
          TailKeepsSpacing(s);
          assert s == [s[0]] + tail;
        }
      } else {
        CollapseProperties(tail);
        var r := Collapse(tail);
        assert Collapse(s) == [s[0]] + r;
        ConsKeepsSpacing(s[0], r);
        if SpacesNormal(s) && NoDoubleSpace(s) {
          TailKeepsSpacing(s);
          assert s == [s[0]] + tail;
        }
      }
    }
  }

  /** The non-whitespace characters of `s`, in order. */
  function NonSpace(s: string): string
    decreases |s|
  {
    if s == [] then [] else (if IsSpace(s[0]) then [] else [s[0]]) + NonSpace(s[1..])
  }

  /** Dropping leading whitespace keeps every other character. */
  lemma {:induction false} NonSpaceTrimStart(s: string)
    ensures NonSpace(TrimStart(s)) == NonSpace(s)
    decreases |s|
  {
    if s != [] && IsSpace(s[0]) {
      NonSpaceTrimStart(s[1..]);
    }
  }

  /** Collapsing keeps every non-whitespace character, in order. */
  lemma {:induction false} CollapseKeepsNonSpace(s: string)
    ensures NonSpace(Collapse(s)) == NonSpace(s)
    decreases |s|
  {
    if s != [] {
      var r := Collapse(s);
      if IsSpace(s[0]) {
        var t := TrimStart(s[1..]);
        CollapseKeepsNonSpace(t);
        NonSpaceTrimStart(s[1..]);
        assert r[0] == ' ' && r[1..] == Collapse(t);
      } else {
        CollapseKeepsNonSpace(s[1..]);
        assert r[0] == s[0] && r[1..] == Collapse(s[1..]);
      }
    }
  }

  /** Leading whitespace of `a + b`, when `a` holds a non-whitespace character, is
      that of `a`. */
  lemma {:induction false} TrimStartAppend(a: string, b: string)
    requires a != [] && !IsSpace(a[|a| - 1])
    ensures TrimStart(a + b) == TrimStart(a) + b
    ensures TrimStart(a) != [] && !IsSpace(TrimStart(a)[|TrimStart(a)| - 1])
    decreases |a|
  {
    if IsSpace(a[0]) {
      assert (a + b)[1..] == a[1..] + b;
      TrimStartAppend(a[1..], b);
    }
  }

  /** A run of whitespace between two stretches becomes exactly one space: for
      `x` ending and `y` starting with a non-whitespace character (or empty), and
      a non-empty all-whitespace `w`, `x + w + y` collapses to the collapsed
      stretches joined by " ". */
  lemma CollapseRun(x: string, w: string, y: string)
    requires x == [] || !IsSpace(x[|x| - 1])
    requires w != [] && forall i :: 0 <= i < |w| ==> IsSpace(w[i])
    requires y == [] || !IsSpace(y[0])
    ensures Collapse(x + w + y) == Collapse(x) + " " + Collapse(y)
  {
    CollapseRunGrouped(x, w, y);
    Regroup(x, w, y);
    Regroup(Collapse(x), " ", Collapse(y));
  }

  /** Concatenation is associative. */
  lemma Regroup<T>(a: seq<T>, b: seq<T>, c: seq<T>)
    ensures a + b + c == a + (b + c)
  {
  }

  lemma CollapseRunGrouped(x: string, w: string, y: string)
    requires x == [] || !IsSpace(x[|x| - 1])
    requires w != [] && forall i :: 0 <= i < |w| ==> IsSpace(w[i])
    requires y == [] || !IsSpace(y[0])
    ensures Collapse(x + (w + y)) == Collapse(x) + ([' '] + Collapse(y))
  {
    assert (w + y)[0] == w[0];
    CollapseJoin(x, w + y);
    CollapseLeadingRun(w, y);
  }

  /** A string ending in a non-whitespace character and one starting with
      whitespace collapse independently. */
  lemma {:induction false} CollapseJoin(x: string, z: string)
    requires x == [] || !IsSpace(x[|x| - 1])
    requires z != [] && IsSpace(z[0])
    ensures Collapse(x + z) == Collapse(x) + Collapse(z)
    decreases |x|
  {
    if x == [] {
      assert x + z == z;
    } else {
      var c, u := x[0], x[1..];
      assert x == [c] + u;
      Regroup([c], u, z);
      CollapseStep(c, u);
      CollapseStep(c, u + z);
      if IsSpace(c) {
        var t := TrimStart(u);
        TrimStartAppend(u, z);
        CollapseJoin(t, z);
        Regroup([' '], Collapse(t), Collapse(z));
      } else {
        CollapseJoin(u, z);
        Regroup([c], Collapse(u), Collapse(z));
      }
    }
  }

  /** One step of the substitution: a leading whitespace character absorbs the
      whitespace after it, any other character is kept. */
  lemma CollapseStep(c: char, r: string)
    ensures Collapse([c] + r) == if IsSpace(c) then [' '] + Collapse(TrimStart(r)) else [c] + Collapse(r)
  {
    assert ([c] + r)[0] == c && ([c] + r)[1..] == r;
  }

  /** A leading run of whitespace becomes one space. */
  lemma CollapseLeadingRun(w: string, y: string)
    requires w != [] && forall i :: 0 <= i < |w| ==> IsSpace(w[i])
    requires y == [] || !IsSpace(y[0])
    ensures Collapse(w + y) == [' '] + Collapse(y)
  {
    var s := w + y;
    assert s[0] == w[0] && s[1..] == w[1..] + y;
    TrimStartSpaces(w[1..], y);
  }

  /** Whitespace in front of a string that does not start with whitespace is
      dropped entirely. */
  lemma {:induction false} TrimStartSpaces(w: string, y: string)
    requires forall i :: 0 <= i < |w| ==> IsSpace(w[i])
    requires y == [] || !IsSpace(y[0])
    ensures TrimStart(w + y) == y
    decreases |w|
  {
    if w == [] {
      assert w + y == y;
    } else {
      assert (w + y)[1..] == w[1..] + y;
      TrimStartSpaces(w[1..], y);
    }
  }

  /** Stripping a single-spaced string leaves it canonical unless nothing is left. */
  lemma StripSpacedCanonical(c: string)
    requires SpacesNormal(c) && NoDoubleSpace(c)
    ensures Strip(c) != [] ==> Canonical(Strip(c))
  {
    StripProperties(c);
  }

  /** A string without whitespace is left alone by stripping and collapsing. */
  lemma SpaceFreeUnchanged(t: string)
    requires forall i :: 0 <= i < |t| ==> !IsSpace(t[i])
    ensures Strip(t) == t && Collapse(t) == t
  {
    StripProperties(t);
    CollapseProperties(t);
  }

  /** Putting a character that is a plain space or not whitespace in front of a
      single-spaced string keeps it single-spaced, unless two spaces would meet. */
  lemma ConsKeepsSpacing(c: char, r: string)
    requires SpacesNormal(r) && NoDoubleSpace(r)
    requires IsSpace(c) ==> c == ' '
    requires c == ' ' && r != [] ==> r[0] != ' '
    ensures SpacesNormal([c] + r) && NoDoubleSpace([c] + r)
  {
    var s := [c] + r;
    assert forall i :: 0 < i < |s| ==> s[i] == r[i - 1];
  }

  /** Dropping the first character keeps a string single-spaced. */
  lemma TailKeepsSpacing(s: string)
    requires s != [] && SpacesNormal(s) && NoDoubleSpace(s)
    ensures SpacesNormal(s[1..]) && NoDoubleSpace(s[1..])
  {
    SliceKeepsSpacing(s, 1, |s|);
  }

  /** Extending a prefix by one element. */
  lemma PrefixSnoc<T>(s: seq<T>, i: nat)
    requires i < |s|
    ensures s[..i + 1] == s[..i] + [s[i]]
  {
  }

  /** `"\n".join(lines)`. */
  function Join(lines: seq<string>): string
  {
    if |lines| == 0 then ""
    else if |lines| == 1 then lines[0]
    else lines[0] + "\n" + Join(lines[1..])
  }

  /** Index of the first line boundary of `s`, or `|s|` when there is none. */
  function FirstBoundary(s: string): (k: nat)
    ensures k <= |s|
    ensures forall i :: 0 <= i < k ==> !IsLineBoundary(s[i])
    ensures k < |s| ==> IsLineBoundary(s[k])
    decreases |s|
  {
    if s == [] || IsLineBoundary(s[0]) then 0 else 1 + FirstBoundary(s[1..])
  }

  /** `str.splitlines()`: a trailing break yields no empty last line, "" yields []. */
  function SplitLines(s: string): seq<string>
    decreases |s|
  {
    if s == [] then []
    else
      var k := FirstBoundary(s);
      if k == |s| then [s]
      else
        var width := if s[k] == '\r' && k + 1 < |s| && s[k + 1] == '\n' then 2 else 1;
        [s[..k]] + SplitLines(s[k + width..])
  }

  /** Joining lines that are non-empty and hold no line boundary, then splitting
      the result, gives the lines back; in particular "" splits into []. */
  lemma {:induction false} SplitLinesOfJoin(lines: seq<string>)
    requires forall i :: 0 <= i < |lines| ==> lines[i] != [] && NoLineBoundary(lines[i])
    ensures SplitLines(Join(lines)) == lines
    decreases |lines|
  {
    if |lines| == 0 {
    } else if |lines| == 1 {
      assert FirstBoundary(lines[0]) == |lines[0]| by { FirstBoundaryAt(lines[0], ""); }
    } else {
      var x := lines[0];
      var rest := Join(lines[1..]);
      var s := x + "\n" + rest;
      FirstBoundaryAt(x, "\n" + rest);
      assert x + "\n" + rest == x + ("\n" + rest);
      assert s[..|x|] == x;
      assert s[|x| + 1..] == rest;
      SplitLinesOfJoin(lines[1..]);
      assert lines == [x] + lines[1..];
    }
  }

  /** The first boundary of `x + y` is `|x|` when `x` has none and `y` starts with one
      (or is empty). */
  lemma {:induction false} FirstBoundaryAt(x: string, y: string)
    requires NoLineBoundary(x)
    requires y == [] || IsLineBoundary(y[0])
    ensures FirstBoundary(x + y) == |x|
    decreases |x|
  {
    if x != [] {
      assert (x + y)[1..] == x[1..] + y;
      FirstBoundaryAt(x[1..], y);
    }
  }

  /** ASCII `str.lower()`; upper-case letters A-Z become a-z, everything else is kept. */
  function Lower(s: string): string
  {
    seq(|s|, i requires 0 <= i < |s| => if 'A' <= s[i] <= 'Z' then (s[i] as int + 32) as char else s[i])
  }

  predicate IsUpper(c: char)
  {
    'A' <= c <= 'Z'
  }

  /** `a` spells `b` up to the case of ASCII letters: each character is the one of
      `b`, or its upper-case form where `b` has a lower-case letter. */
  predicate SameUpToCase(a: string, b: string)
  {
    |a| == |b| &&
    forall i :: 0 <= i < |a| ==> a[i] == b[i] || ('a' <= b[i] <= 'z' && a[i] as int == b[i] as int - 32)
  }

  /** Lower-casing gives a string without capitals exactly when the input spells
      it up to case. */
  lemma LowerUpToCase(s: string, w: string)
    requires forall i :: 0 <= i < |w| ==> !IsUpper(w[i])
    ensures Lower(s) == w <==> SameUpToCase(s, w)
  {
    var l := Lower(s);
    if SameUpToCase(s, w) {
      assert forall i :: 0 <= i < |w| ==> l[i] == w[i];
    }
  }

  function DigitChar(d: nat): (c: char)
    requires d < 10
  {
    ('0' as int + d) as char
  }

  /** `str(n)` for a non-negative integer: its decimal digits, without leading zeros. */
  function NatToString(n: nat): (s: string)
    ensures s != []
    ensures forall i :: 0 <= i < |s| ==> '0' <= s[i] <= '9'
    ensures |s| > 1 ==> s[0] != '0'
  {
    if n < 10 then [DigitChar(n)] else NatToString(n / 10) + [DigitChar(n % 10)]
  }

  /** The number a string of decimal digits denotes. */
  function DecimalValue(s: string): nat
    requires forall i :: 0 <= i < |s| ==> '0' <= s[i] <= '9'
  {
    if s == [] then 0 else 10 * DecimalValue(s[..|s| - 1]) + (s[|s| - 1] as int - '0' as int)
  }

  /** Reading back the rendered count gives the count. */
  lemma {:induction false} NatToStringRoundTrip(n: nat)
    ensures DecimalValue(NatToString(n)) == n
  {
    if n >= 10 {
      NatToStringRoundTrip(n / 10);
      var s := NatToString(n);
      assert s[..|s| - 1] == NatToString(n / 10);
    }
  }
}
