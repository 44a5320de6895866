/** Character counting, separator joining and splitting, used to state the
    layout of the decoder's output lines. */
module Text {

  /** How many times `c` occurs in `s`. */
  function CountChar(s: string, c: char): (k: nat)
    ensures k <= |s|
    ensures k == 0 <==> c !in s
    decreases |s|
  {
    if |s| == 0 then 0 else (if s[0] == c then 1 else 0) + CountChar(s[1..], c)
  }

  lemma {:induction false} CountCharAppend(a: string, b: string, c: char)
    ensures CountChar(a + b, c) == CountChar(a, c) + CountChar(b, c)
    decreases |a|
  {
    if |a| > 0 {
      assert (a + b)[1..] == a[1..] + b;
      CountCharAppend(a[1..], b, c);
    } else {
      assert a + b == b;
    }
  }

  /** Cells separated by single `sep` characters; no separator at either end. */
  function Join(cells: seq<string>, sep: char): string
    decreases |cells|
  {
    if |cells| == 0 then ""
    else if |cells| == 1 then cells[0]
    else cells[0] + [sep] + Join(cells[1..], sep)
  }

  /** The inverse reading of a separated line: the pieces between separators,
      including empty ones; there is always at least one piece. */
  function Split(s: string, sep: char): (parts: seq<string>)
    ensures |parts| >= 1
    decreases |s|
  {
    if |s| == 0 then [""]
    else
      var rest := Split(s[1..], sep);
      if s[0] == sep then [""] + rest else [[s[0]] + rest[0]] + rest[1..]
  }

  predicate Free(cells: seq<string>, sep: char) {
    forall i :: 0 <= i < |cells| ==> sep !in cells[i]
  }

  lemma {:induction false} SplitWithout(a: string, sep: char)
    requires sep !in a
    ensures Split(a, sep) == [a]
    decreases |a|
  {
    if |a| > 0 {
      SplitWithout(a[1..], sep);
      assert [a[0]] + a[1..] == a;
    }
  }

  lemma {:induction false} SplitFirst(a: string, sep: char, b: string)
    requires sep !in a
    ensures Split(a + [sep] + b, sep) == [a] + Split(b, sep)
    decreases |a|
  {
    var s := a + [sep] + b;
    if |a| == 0 {
      assert s[1..] == b;
    } else {
      assert s[1..] == a[1..] + [sep] + b;
      SplitFirst(a[1..], sep, b);
      assert [a[0]] + a[1..] == a;
    }
  }

  /** Column stability: splitting a joined line at the separator recovers
      every cell, empty ones included, provided no cell holds the separator. */
  lemma {:induction false} SplitJoin(cells: seq<string>, sep: char)
    requires |cells| >= 1 && Free(cells, sep)
    ensures Split(Join(cells, sep), sep) == cells
    decreases |cells|
  {
    if |cells| == 1 {
      SplitWithout(cells[0], sep);
    } else {
      SplitJoin(cells[1..], sep);
      SplitFirst(cells[0], sep, Join(cells[1..], sep));
    }
  }

  /** A joined line holds exactly one separator fewer than it has cells. */
  lemma {:induction false} JoinCount(cells: seq<string>, sep: char)
    requires |cells| >= 1 && Free(cells, sep)
    ensures CountChar(Join(cells, sep), sep) == |cells| - 1
    decreases |cells|
  {
    if |cells| > 1 {
      JoinCount(cells[1..], sep);
      CountCharAppend(cells[0] + [sep], Join(cells[1..], sep), sep);
      CountCharAppend(cells[0], [sep], sep);
    }
  }

  /** Regrouping one cell and its separator into the prefix before it. */
  lemma Regroup(pre: string, x: string, sep: char, tail: string)
    ensures pre + (x + [sep] + tail) == pre + x + [sep] + tail
  {
  }

  /** Joining five leading cells in front of the rest, spelled out. */
  lemma JoinFive(a: string, b: string, c: string, d: string, e: string, rest: seq<string>, sep: char)
    requires |rest| >= 1
    ensures Join([a, b, c, d, e] + rest, sep)
      == a + [sep] + b + [sep] + c + [sep] + d + [sep] + e + [sep] + Join(rest, sep)
  {
    var p := [a, b, c, d, e] + rest;
    assert p[5..] == rest;
    assert Join(p, sep) == a + [sep] + Join(p[1..], sep);
    assert Join(p[1..], sep) == b + [sep] + Join(p[2..], sep);
    Regroup(a + [sep], b, sep, Join(p[2..], sep));
    assert Join(p[2..], sep) == c + [sep] + Join(p[3..], sep);
    Regroup(a + [sep] + b + [sep], c, sep, Join(p[3..], sep));
    assert Join(p[3..], sep) == d + [sep] + Join(p[4..], sep);
    Regroup(a + [sep] + b + [sep] + c + [sep], d, sep, Join(p[4..], sep));
    assert Join(p[4..], sep) == e + [sep] + Join(rest, sep);
    Regroup(a + [sep] + b + [sep] + c + [sep] + d + [sep], e, sep, Join(rest, sep));
  }

  /** A character that is neither the separator nor in any cell is not in
      the joined line. */
  lemma {:induction false} JoinWithout(cells: seq<string>, sep: char, c: char)
    requires Free(cells, c) && c != sep
    ensures c !in Join(cells, sep)
    decreases |cells|
  {
    if |cells| > 1 {
      JoinWithout(cells[1..], sep, c);
    }
  }

  /** A joined line closed by a terminator that occurs in no cell: the
      separators number one fewer than the cells, the terminator occurs once,
      at the end, and splitting what precedes it gives the cells back. */
  lemma TerminatedLine(cells: seq<string>, sep: char, term: char)
    requires |cells| >= 1 && Free(cells, sep) && Free(cells, term) && sep != term
    ensures var out := Join(cells, sep) + [term];
      && out[|out| - 1] == term
      && CountChar(out, sep) == |cells| - 1
      && CountChar(out, term) == 1
      && Split(out[..|out| - 1], sep) == cells
  {
    var line := Join(cells, sep);
    var out := line + [term];
    JoinCount(cells, sep);
    JoinWithout(cells, sep, term);
    SplitJoin(cells, sep);
    CountCharAppend(line, [term], sep);
    CountCharAppend(line, [term], term);
    assert out[..|out| - 1] == line;
  }

  /** The strings of `ss` one after another. */
  function Concat(ss: seq<string>): string
    decreases |ss|
  {
    if |ss| == 0 then "" else ss[0] + Concat(ss[1..])
  }

  lemma Concat7(ss: seq<string>)
    requires |ss| == 7
    ensures Concat(ss) == (ss[0] + ss[1] + ss[2] + ss[3] + ss[4]) + (ss[5] + ss[6])
  {
    assert Concat(ss[6..]) == ss[6] + Concat(ss[7..]) && Concat(ss[7..]) == "";
    assert Concat(ss[5..]) == ss[5] + Concat(ss[6..]);
    assert Concat(ss[4..]) == ss[4] + Concat(ss[5..]);
    assert Concat(ss[3..]) == ss[3] + Concat(ss[4..]);
    assert Concat(ss[2..]) == ss[2] + Concat(ss[3..]);
    assert Concat(ss[1..]) == ss[1] + Concat(ss[2..]);
  }
}
