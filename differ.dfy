/**
 * `print_diff`: split an `ndiff` edit script into its removed and added lines and
 * render each group, truncated to `maxLines` entries with a count of the rest.
 * The script is taken as given; how `difflib` aligns the two texts is not modelled.
 */
module Differ {
  import opened Text

  /** An edit-script entry carrying tag `c`: it starts with `c` and a space. */
  predicate Tagged(d: string, c: char)
  {
    |d| >= 2 && d[0] == c && d[1] == ' '
  }

  /** The entries tagged `c`, with their two-character prefix removed, in script
      order: `[d[2:] for d in diff if d.startswith(c + " ")]`. */
  function Group(script: seq<string>, c: char): seq<string>
  {
    if script == [] then []
    else (if Tagged(script[0], c) then [script[0][2..]] else []) + Group(script[1..], c)
  }

  /** Grouping a script in two pieces concatenates the groups: order is kept. */
  lemma {:induction false} GroupAppend(a: seq<string>, b: seq<string>, c: char)
    ensures Group(a + b, c) == Group(a, c) + Group(b, c)
    decreases |a|
  {
    if a == [] {
      assert a + b == b;
    } else {
      assert (a + b)[0] == a[0] && (a + b)[1..] == a[1..] + b;
      GroupAppend(a[1..], b, c);
    }
  }

  /** A line is in the group exactly when some entry tagged `c` carries it. */
  lemma {:induction false} GroupMembers(script: seq<string>, c: char, line: string)
    ensures line in Group(script, c) <==> exists j :: 0 <= j < |script| && Tagged(script[j], c) && script[j][2..] == line
    decreases |script|
  {
    if script != [] {
      GroupMembers(script[1..], c, line);
      if exists j :: 0 <= j < |script| && Tagged(script[j], c) && script[j][2..] == line {
        var j :| 0 <= j < |script| && Tagged(script[j], c) && script[j][2..] == line;
        if j > 0 {
          assert script[1..][j - 1] == script[j];
        }
      }
      if exists j :: 0 <= j < |script| - 1 && Tagged(script[1..][j], c) && script[1..][j][2..] == line {
        var j :| 0 <= j < |script| - 1 && Tagged(script[1..][j], c) && script[1..][j][2..] == line;
        assert script[j + 1] == script[1..][j];
      }
    }
  }

  /** Unchanged ("  ") and hint ("? ") entries go into neither group, and no entry
      goes into both. */
  lemma TagsAreExclusive(d: string)
    ensures Tagged(d, ' ') || Tagged(d, '?') ==> !Tagged(d, '-') && !Tagged(d, '+')
    ensures !(Tagged(d, '-') && Tagged(d, '+'))
  {
  }

  /** `script` is an edit script turning `a` into `b`: unchanged entries belong to
      both, removed ones to `a` only, added ones to `b` only, hints to neither. */
  predicate EditScript(script: seq<string>, a: seq<string>, b: seq<string>)
  {
    if script == [] then a == [] && b == []
    else
      var d, rest := script[0], script[1..];
      if Tagged(d, ' ') then a != [] && b != [] && a[0] == d[2..] && b[0] == d[2..] && EditScript(rest, a[1..], b[1..])
      else if Tagged(d, '-') then a != [] && a[0] == d[2..] && EditScript(rest, a[1..], b)
      else if Tagged(d, '+') then b != [] && b[0] == d[2..] && EditScript(rest, a, b[1..])
      else if Tagged(d, '?') then EditScript(rest, a, b)
      else false
  }

  /** `xs` can be obtained from `ys` by deleting elements. */
  predicate IsSubsequence(xs: seq<string>, ys: seq<string>)
  {
    if ys == [] then xs == []
    else (xs != [] && xs[0] == ys[0] && IsSubsequence(xs[1..], ys[1..])) || IsSubsequence(xs, ys[1..])
  }

  /** For an edit script of `a` into `b`, the removed lines are lines of `a` and the
      added lines are lines of `b`, each in their original order. */
  lemma {:induction false} GroupsAreSubsequences(script: seq<string>, a: seq<string>, b: seq<string>)
    requires EditScript(script, a, b)
    ensures IsSubsequence(Group(script, '-'), a)
    ensures IsSubsequence(Group(script, '+'), b)
    decreases |script|
  {
    if script != [] {
      var d, rest := script[0], script[1..];
      if Tagged(d, ' ') {
        GroupsAreSubsequences(rest, a[1..], b[1..]);
        assert Group(script, '-') == Group(rest, '-') && Group(script, '+') == Group(rest, '+');
      } else if Tagged(d, '-') {
        GroupsAreSubsequences(rest, a[1..], b);
        assert Group(script, '+') == Group(rest, '+');
        assert Group(script, '-') == [a[0]] + Group(rest, '-');
        assert Group(script, '-')[1..] == Group(rest, '-');
      } else if Tagged(d, '+') {
        GroupsAreSubsequences(rest, a, b[1..]);
        assert Group(script, '-') == Group(rest, '-');
        assert Group(script, '+') == [b[0]] + Group(rest, '+');
        assert Group(script, '+')[1..] == Group(rest, '+');
      } else {
        GroupsAreSubsequences(rest, a, b);
        assert Group(script, '-') == Group(rest, '-') && Group(script, '+') == Group(rest, '+');
      }
    }
  }

  /** When the old text has no lines, every entry of an edit script adds a line:
      nothing is removed and the added group is the whole new text. */
  lemma {:induction false} OldSideEmpty(script: seq<string>, b: seq<string>)
    requires EditScript(script, [], b)
    ensures Group(script, '-') == [] && Group(script, '+') == b
    decreases |script|
  {
    if script != [] {
      var d, rest := script[0], script[1..];
      if Tagged(d, '+') {
        OldSideEmpty(rest, b[1..]);
        assert Group(script, '+') == [b[0]] + b[1..];
      } else if Tagged(d, '?') {
        OldSideEmpty(rest, b);
      }
    }
  }

  /** When the new text has no lines, the removed group is the whole old text and
      nothing is added. */
  lemma {:induction false} NewSideEmpty(script: seq<string>, a: seq<string>)
    requires EditScript(script, a, [])
    ensures Group(script, '-') == a && Group(script, '+') == []
    decreases |script|
  {
    if script != [] {
      var d, rest := script[0], script[1..];
      if Tagged(d, '-') {
        NewSideEmpty(rest, a[1..]);
        assert Group(script, '-') == [a[0]] + a[1..];
      } else if Tagged(d, '?') {
        NewSideEmpty(rest, a);
      }
    }
  }

  function Min(a: nat, b: nat): nat
  {
    if a < b then a else b
  }

  /** One rendered entry: two spaces, the group's prefix, a space, the line. */
  function EntryLine(prefix: string, line: string): string
  {
    "  " + prefix + " " + line
  }

  /** The summary after a truncated group. */
  function Summary(omitted: nat): string
  {
    "  ... (" + NatToString(omitted) + " more)"
  }

  /** What `_print_group(heading, lines, prefix)` prints. */
  function GroupReport(heading: string, lines: seq<string>, prefix: string, maxLines: nat): seq<string>
    requires maxLines >= 1
  {
    if lines == [] then []
    else
      [heading + ":"] + seq(Min(|lines|, maxLines), k requires 0 <= k < Min(|lines|, maxLines) => EntryLine(prefix, lines[k]))
      + if |lines| > maxLines then [Summary(|lines| - maxLines)] else []
  }

  /** What `print_diff` prints for an edit script: removed lines before added lines. */
  function DiffReport(script: seq<string>, maxLines: nat): seq<string>
    requires maxLines >= 1
  {
    GroupReport("Removed", Group(script, '-'), "-", maxLines) + GroupReport("Added", Group(script, '+'), "+", maxLines)
  }

  /** An empty group prints nothing; otherwise the heading, the first min(n, maxLines)
      lines in order, and a summary of the n - maxLines others exactly when some
      were left out. */
  lemma GroupReportShape(heading: string, lines: seq<string>, prefix: string, maxLines: nat)
    requires maxLines >= 1
    ensures var r := GroupReport(heading, lines, prefix, maxLines);
      && (lines == [] <==> r == [])
      && (lines != [] ==>
           |r| == 1 + Min(|lines|, maxLines) + (if |lines| > maxLines then 1 else 0) &&
           |r| <= maxLines + 2 &&
           r[0] == heading + ":" &&
           (forall k :: 0 <= k < Min(|lines|, maxLines) ==> r[k + 1] == EntryLine(prefix, lines[k])) &&
           (|lines| > maxLines ==> r[|r| - 1] == Summary(|lines| - maxLines)) &&
           (|lines| <= maxLines ==> r[|r| - 1] == EntryLine(prefix, lines[|lines| - 1])))
  {
  }

  /** The line an entry shows can be read back from it. */
  lemma EntryReadsBack(prefix: string, line: string)
    ensures EntryLine(prefix, line)[|prefix| + 3..] == line
  {
  }

  /** `_print_group`, printing line by line. */
  method PrintGroup(heading: string, lines: seq<string>, prefix: string, maxLines: nat) returns (out: seq<string>)
    requires maxLines >= 1
    ensures out == GroupReport(heading, lines, prefix, maxLines)
  {
    if lines == [] {
      return [];
    }
    out := [heading + ":"];
    var shown := lines[..Min(|lines|, maxLines)];
    for i := 0 to |shown|
      invariant out == [heading + ":"] + seq(i, k requires 0 <= k < i => EntryLine(prefix, shown[k]))
    {
      out := out + [EntryLine(prefix, shown[i])];
    }
    if |lines| > maxLines {
      out := out + [Summary(|lines| - maxLines)];
    }
  }

  /** `print_diff`, given the edit script `ndiff` produced. */
  method PrintDiff(script: seq<string>, maxLines: nat) returns (out: seq<string>)
    requires maxLines >= 1
    ensures out == DiffReport(script, maxLines)
  {
    var removed := Group(script, '-');
    var added := Group(script, '+');
    var first := PrintGroup("Removed", removed, "-", maxLines);
    var second := PrintGroup("Added", added, "+", maxLines);
    out := first + second;
  }

  /** The end-to-end example: "A\nB\nC" against "A\nC\nD".  The texts split into
      these lines, the script `ndiff` gives for them is an edit script of one into
      the other, and the report shows B as removed and D as added, and not C. */
  lemma ExampleDiff()
    ensures SplitLines("A\nB\nC") == ["A", "B", "C"] && SplitLines("A\nC\nD") == ["A", "C", "D"]
    ensures EditScript(["  A", "- B", "  C", "+ D"], ["A", "B", "C"], ["A", "C", "D"])
    ensures DiffReport(["  A", "- B", "  C", "+ D"], 40) == ["Removed:", "  - B", "Added:", "  + D"]
  {
    ThreeLines('A', 'B', 'C');
    ThreeLines('A', 'C', 'D');
    ExampleScript();
    ExampleReport();
  }

  lemma ExampleReport()
    ensures DiffReport(["  A", "- B", "  C", "+ D"], 40) == ["Removed:", "  - B", "Added:", "  + D"]
  {
    ExampleGroups();
    GroupReportShape("Removed", ["B"], "-", 40);
    GroupReportShape("Added", ["D"], "+", 40);
    assert EntryLine("-", "B") == "  - B" && EntryLine("+", "D") == "  + D";
    assert "Removed" + ":" == "Removed:" && "Added" + ":" == "Added:";
    var removed := GroupReport("Removed", ["B"], "-", 40);
    var added := GroupReport("Added", ["D"], "+", 40);
    assert removed == [removed[0], removed[1]] == ["Removed:", "  - B"];
    assert added == [added[0], added[1]] == ["Added:", "  + D"];
  }

  lemma ExampleScript()
    ensures EditScript(["  A", "- B", "  C", "+ D"], ["A", "B", "C"], ["A", "C", "D"])
  {
    var script := ["  A", "- B", "  C", "+ D"];
    assert script[1..] == ["- B", "  C", "+ D"];
    assert script[1..][1..] == ["  C", "+ D"];
    assert script[1..][1..][1..] == ["+ D"];
    assert EditScript(["+ D"], [], ["D"]);
    assert EditScript(["  C", "+ D"], ["C"], ["C", "D"]);
    assert EditScript(["- B", "  C", "+ D"], ["B", "C"], ["C", "D"]);
  }

  lemma ExampleGroups()
    ensures Group(["  A", "- B", "  C", "+ D"], '-') == ["B"] && Group(["  A", "- B", "  C", "+ D"], '+') == ["D"]
  {
    var script := ["  A", "- B", "  C", "+ D"];
    assert script[1..] == ["- B", "  C", "+ D"];
    assert script[1..][1..] == ["  C", "+ D"];
    assert script[1..][1..][1..] == ["+ D"];
    assert Group(["+ D"], '-') == [] && Group(["+ D"], '+') == ["D"];
  }

  /** Three one-character lines joined by newlines split back into those lines. */
  lemma ThreeLines(x: char, y: char, z: char)
    requires !IsLineBoundary(x) && !IsLineBoundary(y) && !IsLineBoundary(z)
    ensures SplitLines([x, '\n', y, '\n', z]) == [[x], [y], [z]]
  {
    var lines := [[x], [y], [z]];
    SplitLinesOfJoin(lines);
    assert lines[1..] == [[y], [z]] && lines[1..][1..] == [[z]];
    assert Join([[y], [z]]) == [y] + "\n" + [z];
    assert Join(lines) == [x] + "\n" + ([y] + "\n" + [z]);
    assert [x] + "\n" + ([y] + "\n" + [z]) == [x, '\n', y, '\n', z];
  }

  /** 100 added lines with at most 10 shown: the heading, 10 lines and "90 more". */
  lemma ExampleTruncation(lines: seq<string>)
    requires |lines| == 100
    ensures |GroupReport("Added", lines, "+", 10)| == 12
    ensures GroupReport("Added", lines, "+", 10)[11] == "  ... (90 more)"
  {
    GroupReportShape("Added", lines, "+", 10);
    assert NatToString(90) == "90";
  }
}
