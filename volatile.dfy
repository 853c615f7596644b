/**
 * The two volatile-token substitutions of the normaliser, written out as the
 * backtracking matcher Python's `re` module runs for them:
 *   clock times  \b\d{1,2}:\d{2}(?::\d{2})?\s?(?:AM|PM|am|pm)?\b
 *   ISO dates    \b\d{4}-\d{2}-\d{2}\b
 * and `re.sub(pattern, "", s)`, which scans left to right, deletes each match and
 * resumes after it.  Word boundaries are judged on the original string.
 */
module Volatile {
  import opened Text
  import opened Wrappers

  /** `\d`, restricted to ASCII digits. */
  predicate IsDigit(c: char)
  {
    '0' <= c <= '9'
  }

  /** `\w`, restricted to ASCII letters, digits and the underscore. */
  predicate IsWord(c: char)
  {
    IsDigit(c) || ('a' <= c <= 'z') || ('A' <= c <= 'Z') || c == '_'
  }

  predicate WordAt(s: string, p: int)
  {
    0 <= p < |s| && IsWord(s[p])
  }

  /** `\b` at position `p`: a word character on exactly one side. */
  predicate Boundary(s: string, p: nat)
  {
    WordAt(s, p - 1) != WordAt(s, p)
  }

  /** `n` digits start at position `p`. */
  predicate DigitsAt(s: string, p: nat, n: nat)
  {
    p + n <= |s| && forall j :: p <= j < p + n ==> IsDigit(s[j])
  }

  predicate CharAt(s: string, p: nat, c: char)
  {
    p < |s| && s[p] == c
  }

  /** `(?:AM|PM|am|pm)` at position `p`. */
  predicate MeridiemAt(s: string, p: nat)
  {
    p + 2 <= |s| && s[p + 1] in {'M', 'm'} &&
    ((s[p] in {'A', 'P'} && s[p + 1] == 'M') || (s[p] in {'a', 'p'} && s[p + 1] == 'm'))
  }

  /** The first alternative that matches, in the engine's order of preference. */
  function FirstOf(a: Option<nat>, b: Option<nat>): Option<nat>
  {
    if a.Some? then a else b
  }

  /** The closing `\b` at `e`. */
  function EndAt(s: string, e: nat): (r: Option<nat>)
    requires e <= |s|
    ensures r.Some? ==> r.value == e
  {
    if Boundary(s, e) then Some(e) else None
  }

  /** After `\s?`: the optional meridiem, tried present first. */
  function TimeAfterSpace(s: string, m: nat): (r: Option<nat>)
    requires m <= |s|
    ensures r.Some? ==> m <= r.value <= |s|
  {
    FirstOf(if MeridiemAt(s, m) then EndAt(s, m + 2) else None, EndAt(s, m))
  }

  /** After the seconds group: the optional single whitespace, tried present first. */
  function TimeAfterSeconds(s: string, q: nat): (r: Option<nat>)
    requires q <= |s|
    ensures r.Some? ==> q <= r.value <= |s|
  {
    FirstOf(if q < |s| && IsSpace(s[q]) then TimeAfterSpace(s, q + 1) else None, TimeAfterSpace(s, q))
  }

  /** After `\d{2}` of the minutes: the optional `:\d{2}` seconds, tried present first. */
  function TimeAfterMinutes(s: string, q: nat): (r: Option<nat>)
    requires q <= |s|
    ensures r.Some? ==> q <= r.value <= |s|
  {
    FirstOf(if CharAt(s, q, ':') && DigitsAt(s, q + 1, 2) then TimeAfterSeconds(s, q + 3) else None,
            TimeAfterSeconds(s, q))
  }

  /** After the hour digits: `:` and two minute digits. */
  function TimeAfterHour(s: string, p: nat): (r: Option<nat>)
    requires p <= |s|
    ensures r.Some? ==> p < r.value <= |s|
  {
    if CharAt(s, p, ':') && DigitsAt(s, p + 1, 2) then TimeAfterMinutes(s, p + 3) else None
  }

  /** The end of the clock-time match starting at `i`, if there is one; the hour
      is tried with two digits before one. */
  function MatchClockTime(s: string, i: nat): (r: Option<nat>)
    requires i <= |s|
    ensures r.Some? ==> i < r.value <= |s| && IsDigit(s[i])
  {
    if !Boundary(s, i) then None
    else FirstOf(if DigitsAt(s, i, 2) then TimeAfterHour(s, i + 2) else None,
                 if DigitsAt(s, i, 1) then TimeAfterHour(s, i + 1) else None)
  }

  /** The end of the ISO-date match starting at `i`, if there is one. */
  function MatchIsoDate(s: string, i: nat): (r: Option<nat>)
    requires i <= |s|
    ensures r.Some? ==> r.value == i + 10 <= |s| && IsDigit(s[i])
  {
    if Boundary(s, i) && DigitsAt(s, i, 4) && CharAt(s, i + 4, '-') && DigitsAt(s, i + 5, 2) &&
       CharAt(s, i + 7, '-') && DigitsAt(s, i + 8, 2) && Boundary(s, i + 10)
    then Some(i + 10)
    else None
  }

  /** The two volatile-token patterns. */
  datatype Token = ClockTime | IsoDate

  function MatchAt(t: Token, s: string, i: nat): (r: Option<nat>)
    requires i <= |s|
    ensures r.Some? ==> i < r.value <= |s| && IsDigit(s[i])
  {
    match t
    case ClockTime => MatchClockTime(s, i)
    case IsoDate => MatchIsoDate(s, i)
  }

  /** `re.sub(pattern, "", s[i..])`, with boundaries judged against all of `s`. */
  function RemoveFrom(t: Token, s: string, i: nat): (r: string)
    requires i <= |s|
    ensures |r| <= |s| - i
    decreases |s| - i
  {
    if i == |s| then []
    else
      match MatchAt(t, s, i)
      case Some(e) => RemoveFrom(t, s, e)
      case None => [s[i]] + RemoveFrom(t, s, i + 1)
  }

  function Remove(t: Token, s: string): string
  {
    RemoveFrom(t, s, 0)
  }

  /** No match of `t` starts anywhere in `s`. */
  predicate FreeOf(t: Token, s: string)
  {
    forall i :: 0 <= i < |s| ==> MatchAt(t, s, i).None?
  }

  /** Clock times are removed first, ISO dates second. */
  function StripVolatile(s: string): string
  {
    Remove(IsoDate, Remove(ClockTime, s))
  }

  /** A string in which the pattern never matches is left as it is. */
  lemma {:induction false} RemoveFromFree(t: Token, s: string, i: nat)
    requires i <= |s| && FreeOf(t, s)
    ensures RemoveFrom(t, s, i) == s[i..]
    decreases |s| - i
  {
    if i < |s| {
      RemoveFromFree(t, s, i + 1);
      assert s[i..] == [s[i]] + s[i + 1..];
    }
  }

  /** A stretch without digits is kept as it is, since every match starts with a digit. */
  lemma {:induction false} RemoveFromKeepsNonDigits(t: Token, s: string, i: nat, j: nat)
    requires i <= j <= |s|
    requires forall k :: i <= k < j ==> !IsDigit(s[k])
    ensures RemoveFrom(t, s, i) == s[i..j] + RemoveFrom(t, s, j)
    decreases j - i
  {
    if i < j {
      var rest := RemoveFrom(t, s, j);
      assert RemoveFrom(t, s, i) == [s[i]] + RemoveFrom(t, s, i + 1) by {
        RemoveFromStep(t, s, i);
      }
      assert RemoveFrom(t, s, i + 1) == s[i + 1..j] + rest by {
        RemoveFromKeepsNonDigits(t, s, i + 1, j);
      }
      assert s[i..j] == [s[i]] + s[i + 1..j];
    }
  }

  /** A character that is not a digit starts no match and is kept. */
  lemma RemoveFromStep(t: Token, s: string, i: nat)
    requires i < |s| && !IsDigit(s[i])
    ensures RemoveFrom(t, s, i) == [s[i]] + RemoveFrom(t, s, i + 1)
  {
    assert MatchAt(t, s, i).None?;
  }

  /** Both substitutions leave a string holding neither token unchanged. */
  lemma StripVolatileFree(s: string)
    requires FreeOf(ClockTime, s) && FreeOf(IsoDate, s)
    ensures StripVolatile(s) == s
  {
    RemoveFromFree(ClockTime, s, 0);
    RemoveFromFree(IsoDate, s, 0);
  }

  /** A string shorter than a date holds none. */
  lemma ShortTextHasNoDate(s: string)
    requires |s| < 10
    ensures Remove(IsoDate, s) == s
  {
    assert FreeOf(IsoDate, s);
    RemoveFromFree(IsoDate, s, 0);
  }

  /** `\d{4}-\d{2}-\d{2}` spelled out on a ten-character string. */
  predicate IsoDateShape(date: string)
  {
    |date| == 10 && DigitsAt(date, 0, 4) && date[4] == '-' && DigitsAt(date, 5, 2) &&
    date[7] == '-' && DigitsAt(date, 8, 2)
  }

  /** A date at the end of a line, after text without digits that ends in a
      non-word character (or is empty), is deleted and the text before it kept:
      "on 2024-01-02" becomes "on ". */
  lemma IsoDateRemoved(pre: string, date: string)
    requires IsoDateShape(date)
    requires forall k :: 0 <= k < |pre| ==> !IsDigit(pre[k])
    requires pre == [] || !IsWord(pre[|pre| - 1])
    ensures Remove(IsoDate, pre + date) == pre
  {
    var s := pre + date;
    var p := |pre|;
    assert s[p..] == date && s[0..p] == pre;
    DateMatchesAtEnd(s, p);
    RemoveFromKeepsNonDigits(IsoDate, s, 0, p);
  }

  lemma DateMatchesAtEnd(s: string, p: nat)
    requires p + 10 == |s| && IsoDateShape(s[p..])
    requires p == 0 || !IsWord(s[p - 1])
    ensures MatchIsoDate(s, p) == Some(p + 10)
  {
    var date := s[p..];
    assert forall j :: 0 <= j < 10 ==> s[p + j] == date[j];
    assert DigitsAt(s, p, 4) && DigitsAt(s, p + 5, 2) && DigitsAt(s, p + 8, 2);
  }

  /** Deleting a time can create another: in "10:1:30 45" the only match is
      "1:30 " (one hour digit, the seconds group absent, the space taken), and the
      text left behind, "10:45", is itself a clock time (`WholeTimeRemoved`). */
  lemma RemovalCreatesTime()
    ensures Remove(ClockTime, "10:1:30 45") == "10:45"
  {
    var s := "10:1:30 45";
    assert MatchAt(ClockTime, s, 0).None? by {
      assert !CharAt(s, 2, ':') || !DigitsAt(s, 3, 2) by { assert !IsDigit(s[4]); }
      assert !CharAt(s, 1, ':');
    }
    assert MatchAt(ClockTime, s, 1).None? by { assert !Boundary(s, 1); }
    assert MatchAt(ClockTime, s, 3) == Some(8) by {
      assert !DigitsAt(s, 3, 2) by { assert !IsDigit(s[4]); }
      assert DigitsAt(s, 5, 2);
      assert TimeAfterSpace(s, 8) == Some(8) by { assert !MeridiemAt(s, 8); assert Boundary(s, 8); }
      assert TimeAfterSeconds(s, 7) == Some(8);
    }
    assert MatchAt(ClockTime, s, 8).None? by { assert !CharAt(s, 10, ':') && !CharAt(s, 9, ':'); }
    assert MatchAt(ClockTime, s, 9).None? by { assert !Boundary(s, 9); }
    assert RemoveFrom(ClockTime, s, 8) == "45";
    assert RemoveFrom(ClockTime, s, 3) == "45";
    assert RemoveFrom(ClockTime, s, 0) == "10:45";
  }

  /** "10:45" is one clock time and is deleted whole. */
  lemma WholeTimeRemoved()
    ensures Remove(ClockTime, "10:45") == ""
  {
    var t := "10:45";
    assert MatchAt(ClockTime, t, 0) == Some(5) by {
      assert DigitsAt(t, 0, 2) && DigitsAt(t, 3, 2);
      assert !CharAt(t, 5, ':') && !MeridiemAt(t, 5) && Boundary(t, 5);
    }
  }

  /** Digits glued to a letter are not at a word boundary, so "x10:15" keeps its
      time: the only boundary before a digit is after the colon, where "15" is
      not followed by a colon. */
  lemma GluedTimeKept()
    ensures Remove(ClockTime, "x10:15") == "x10:15"
  {
    var s := "x10:15";
    forall i | 0 <= i < |s| ensures MatchAt(ClockTime, s, i).None? {
      if i == 4 {
        assert !CharAt(s, 6, ':') && !CharAt(s, 5, ':');
      }
    }
    RemoveFromFree(ClockTime, s, 0);
  }
}
