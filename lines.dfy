/** Searching a string and cutting it into `\n`-terminated lines, the way the
    relay's readers scan their buffers with `std::string::find`. */
module Lines {

  /** `s.find(c, from)`: the first index at or after `from` holding `c`, or
      -1 for `npos`. */
  function Find(s: string, c: char, from: nat): (r: int)
    ensures r == -1 || from <= r < |s|
    ensures r == -1 ==> forall i :: from <= i < |s| ==> s[i] != c
    ensures r >= 0 ==> s[r] == c && forall i :: from <= i < r ==> s[i] != c
    decreases |s| - from
  {
    if from >= |s| then -1 else if s[from] == c then from else Find(s, c, from + 1)
  }

  /** The complete lines of a buffer (without their `\n`) and the bytes after
      the last `\n`. */
  datatype Split = Split(lines: seq<string>, rest: string)

  /** Each line followed by its `\n`. */
  function Join(lines: seq<string>): string {
    if lines == [] then "" else lines[0] + "\n" + Join(lines[1..])
  }

  predicate NoNewline(s: string) { forall i :: 0 <= i < |s| ==> s[i] != '\n' }

  predicate AllLines(lines: seq<string>) { forall k :: 0 <= k < |lines| ==> NoNewline(lines[k]) }

  /** Cuts `s` at every `\n` (the scan `find('\n', pos)` performs). */
  function SplitLines(s: string): (r: Split)
    decreases |s|
  {
    var nl := Find(s, '\n', 0);
    if nl < 0 then Split([], s)
    else
      var tail := SplitLines(s[nl + 1..]);
      Split([s[..nl]] + tail.lines, tail.rest)
  }

  /** Joining the lines back and appending the rest gives `s` again, and
      neither a line nor the rest holds a `\n`. */
  lemma {:induction false} SplitLinesJoin(s: string)
    ensures Join(SplitLines(s).lines) + SplitLines(s).rest == s
    ensures AllLines(SplitLines(s).lines) && NoNewline(SplitLines(s).rest)
    decreases |s|
  {
    var nl := Find(s, '\n', 0);
    if nl >= 0 {
      var tail := SplitLines(s[nl + 1..]);
      SplitLinesJoin(s[nl + 1..]);
      SplitLinesCut(s, nl);
      FirstLine(s, 0, nl);
      JoinCons(s[..nl], tail.lines);
      AllLinesCons(s[..nl], tail.lines);
      Rebuild(s, 0, nl, Join(tail.lines), tail.rest);
    } else {
      SplitLinesWhole(s);
      JoinNil(s);
    }
  }

  lemma SplitLinesCut(s: string, nl: int)
    requires nl >= 0 && Find(s, '\n', 0) == nl
    ensures SplitLines(s).lines == [s[..nl]] + SplitLines(s[nl + 1..]).lines
    ensures SplitLines(s).rest == SplitLines(s[nl + 1..]).rest
  {
  }

  lemma SplitLinesWhole(s: string)
    requires Find(s, '\n', 0) < 0
    ensures SplitLines(s).lines == [] && SplitLines(s).rest == s
    ensures NoNewline(s)
  {
  }

  /** The text before the `\n` that `find` reports holds no `\n`. */
  lemma FirstLine(s: string, pos: nat, nl: nat)
    requires pos <= |s| && Find(s, '\n', pos) == nl
    ensures NoNewline(s[pos..nl])
    ensures pos == 0 ==> NoNewline(s[..nl])
  {
    assert s[0..nl] == s[..nl];
    forall i | 0 <= i < nl - pos ensures s[pos..nl][i] != '\n' {
      assert s[pos..nl][i] == s[pos + i];
    }
  }

  lemma JoinNil(s: string)
    ensures Join([]) + s == s
  {
  }

  lemma JoinCons(head: string, tail: seq<string>)
    ensures Join([head] + tail) == head + "\n" + Join(tail)
  {
    var ls := [head] + tail;
    assert ls[0] == head && ls[1..] == tail;
  }

  lemma AllLinesCons(head: string, tail: seq<string>)
    requires NoNewline(head) && AllLines(tail)
    ensures AllLines([head] + tail)
  {
    var ls := [head] + tail;
    forall k | 0 <= k < |ls| ensures NoNewline(ls[k]) {
      if k > 0 { assert ls[k] == tail[k - 1]; }
    }
  }

  lemma AllLinesConcat(a: seq<string>, b: seq<string>)
    requires AllLines(a) && AllLines(b)
    ensures AllLines(a + b)
  {
    forall k | 0 <= k < |a + b| ensures NoNewline((a + b)[k]) {
      if k < |a| { assert (a + b)[k] == a[k]; }
      else { assert (a + b)[k] == b[k - |a|]; }
    }
  }

  lemma AppendAssoc<T>(a: seq<T>, b: seq<T>, c: seq<T>)
    ensures (a + b) + c == a + (b + c)
  {
  }

  /** Putting a line, its `\n` and the text after it back together. */
  lemma Rebuild(s: string, pos: nat, nl: nat, joined: string, rest: string)
    requires pos <= nl < |s| && s[nl] == '\n'
    requires joined + rest == s[nl + 1..]
    ensures (s[pos..nl] + "\n" + joined) + rest == s[pos..]
    ensures pos == 0 ==> (s[..nl] + "\n" + joined) + rest == s
  {
    CutAt(s, pos, nl);
    assert (s[pos..nl] + "\n" + joined) + rest == s[pos..nl] + "\n" + (joined + rest);
    assert s[0..] == s && s[0..nl] == s[..nl];
  }

  lemma Regroup(jx: string, jy: string, ry: string, rx: string, b: string, a: string)
    requires jy + ry == rx + b && jx + rx == a
    ensures (jx + jy) + ry == a + b
  {
    assert (jx + jy) + ry == jx + (jy + ry);
    assert jx + (rx + b) == (jx + rx) + b;
  }

  /** A `\n` at `k` cuts `s[pos..]` into the line before it and the text after it. */
  lemma CutAt(s: string, pos: nat, k: nat)
    requires pos <= k < |s| && s[k] == '\n'
    ensures s[pos..] == s[pos..k] + "\n" + s[k + 1..]
  {
  }

  lemma {:induction false} JoinAppend(a: seq<string>, b: seq<string>)
    ensures Join(a + b) == Join(a) + Join(b)
    decreases |a|
  {
    if a == [] {
      assert a + b == b;
    } else {
      assert (a + b)[0] == a[0];
      assert (a + b)[1..] == a[1..] + b;
      JoinAppend(a[1..], b);
      calc {
        Join(a + b);
        a[0] + "\n" + Join(a[1..] + b);
        a[0] + "\n" + (Join(a[1..]) + Join(b));
        (a[0] + "\n" + Join(a[1..])) + Join(b);
      }
    }
  }

  /** The split is the only way to write `s` as lines and a rest. */
  lemma {:induction false} SplitLinesUnique(s: string, lines: seq<string>, rest: string)
    requires Join(lines) + rest == s
    requires AllLines(lines) && NoNewline(rest)
    ensures SplitLines(s) == Split(lines, rest)
    decreases |lines|
  {
    if lines == [] {
      JoinNil(rest);
      SplitLinesWhole(s);
    } else {
      var head := lines[0];
      assert lines == [head] + lines[1..];
      JoinCons(head, lines[1..]);
      AllLinesTail(lines);
      var tailText := Join(lines[1..]) + rest;
      AppendAssoc(head + "\n", Join(lines[1..]), rest);
      Decompose(s, head, tailText);
      SplitLinesUnique(tailText, lines[1..], rest);
      SplitLinesCut(s, |head|);
    }
  }

  /** A line without `\n`, a `\n`, then the text after it. */
  lemma Decompose(s: string, head: string, tailText: string)
    requires s == head + "\n" + tailText && NoNewline(head)
    ensures Find(s, '\n', 0) == |head|
    ensures s[..|head|] == head && s[|head| + 1..] == tailText
  {
    assert s[|head|] == '\n';
    assert forall i :: 0 <= i < |head| ==> s[i] == head[i];
    FindFirst(s, '\n', 0, |head|);
  }

  /** `k` holds the first `c` at or after `from`. */
  ghost predicate FirstAt(s: string, c: char, from: int, k: int) {
    0 <= from <= k < |s| && s[k] == c && forall i :: from <= i < k ==> s[i] != c
  }

  /** What `find` reports is the first occurrence... */
  lemma FindIsFirstAt(s: string, c: char, from: nat)
    requires Find(s, c, from) >= 0
    ensures FirstAt(s, c, from, Find(s, c, from))
  {
  }

  /** ...and the first occurrence is what `find` reports. */
  lemma FirstAtIsFound(s: string, c: char, from: nat, k: int)
    requires FirstAt(s, c, from, k)
    ensures Find(s, c, from) == k
  {
    FindFirst(s, c, from, k);
  }

  lemma FindFirst(s: string, c: char, from: nat, k: nat)
    requires from <= k < |s| && s[k] == c
    requires forall i :: from <= i < k ==> s[i] != c
    ensures Find(s, c, from) == k
    decreases k - from
  {
    if from < k {
      FindFirst(s, c, from + 1, k);
    }
  }

  lemma AllLinesTail(lines: seq<string>)
    requires AllLines(lines) && lines != []
    ensures NoNewline(lines[0]) && AllLines(lines[1..])
  {
    forall k | 0 <= k < |lines| - 1 ensures NoNewline(lines[1..][k]) {
      assert lines[1..][k] == lines[k + 1];
    }
  }

  /** Reading `a` and then `b` cuts the same lines as reading `a + b` at
      once, provided the bytes after `a`'s last `\n` are kept and prefixed
      to `b`. */
  lemma SplitLinesAppend(a: string, b: string)
    ensures SplitLines(a + b)
         == Split(SplitLines(a).lines + SplitLines(SplitLines(a).rest + b).lines,
                  SplitLines(SplitLines(a).rest + b).rest)
  {
    var x := SplitLines(a);
    var y := SplitLines(x.rest + b);
    SplitLinesJoin(a);
    SplitLinesJoin(x.rest + b);
    JoinAppend(x.lines, y.lines);
    Regroup(Join(x.lines), Join(y.lines), y.rest, x.rest, b, a);
    AllLinesConcat(x.lines, y.lines);
    SplitLinesUnique(a + b, x.lines + y.lines, y.rest);
  }

  /** A scan that finds no `\n` at or after `pos` has only rest left. */
  lemma SplitLinesDone(s: string, pos: nat)
    requires pos <= |s| && Find(s, '\n', pos) == -1
    ensures SplitLines(s[pos..]) == Split([], s[pos..])
  {
    assert NoNewline(s[pos..]) by {
      forall i | 0 <= i < |s[pos..]| ensures s[pos..][i] != '\n' {
        assert s[pos..][i] == s[pos + i];
      }
    }
    assert Join([]) + s[pos..] == s[pos..];
    SplitLinesUnique(s[pos..], [], s[pos..]);
  }

  /** One step of a scan that finds its next `\n` at `nl`: the next line is
      `s[pos..nl]` and scanning goes on at `nl + 1`. */
  lemma SplitLinesNext(s: string, pos: nat, nl: nat)
    requires pos <= |s| && Find(s, '\n', pos) == nl
    ensures SplitLines(s[pos..]).lines == [s[pos..nl]] + SplitLines(s[nl + 1..]).lines
    ensures SplitLines(s[pos..]).rest == SplitLines(s[nl + 1..]).rest
  {
    var t := SplitLines(s[nl + 1..]);
    SplitLinesJoin(s[nl + 1..]);
    var line := s[pos..nl];
    var ls := [line] + t.lines;
    FirstLine(s, pos, nl);
    AllLinesCons(line, t.lines);
    JoinCons(line, t.lines);
    Rebuild(s, pos, nl, Join(t.lines), t.rest);
    SplitLinesUnique(s[pos..], ls, t.rest);
  }

  /** The lines a scan finds from `pos` on, stated on positions of `s`. */
  function LinesFrom(s: string, pos: nat): seq<string>
    requires pos <= |s|
    decreases |s| - pos
  {
    var nl := Find(s, '\n', pos);
    if nl < 0 then [] else [s[pos..nl]] + LinesFrom(s, nl + 1)
  }

  /** Scanning from `pos` finds the lines of the suffix at `pos`. */
  lemma {:induction false} LinesFromSuffix(s: string, pos: nat)
    requires pos <= |s|
    ensures LinesFrom(s, pos) == SplitLines(s[pos..]).lines
    decreases |s| - pos
  {
    var nl := Find(s, '\n', pos);
    if nl < 0 {
      LinesFromCut(s, pos);
      SplitLinesDone(s, pos);
    } else {
      LinesFromCut(s, pos);
      LinesFromSuffix(s, nl + 1);
      SplitLinesNext(s, pos, nl);
    }
  }

  lemma LinesFromCut(s: string, pos: nat)
    requires pos <= |s|
    ensures Find(s, '\n', pos) < 0 ==> LinesFrom(s, pos) == []
    ensures Find(s, '\n', pos) >= 0 ==>
      LinesFrom(s, pos) == [s[pos..Find(s, '\n', pos)]] + LinesFrom(s, Find(s, '\n', pos) + 1)
  {
  }
  /** What a scan from `pos` leaves behind after its last `\n`. */
  function RestFrom(s: string, pos: nat): string
    requires pos <= |s|
    decreases |s| - pos
  {
    var nl := Find(s, '\n', pos);
    if nl < 0 then s[pos..] else RestFrom(s, nl + 1)
  }

  /** Scanning from `pos` leaves the rest of the suffix at `pos`. */
  lemma {:induction false} RestFromSuffix(s: string, pos: nat)
    requires pos <= |s|
    ensures RestFrom(s, pos) == SplitLines(s[pos..]).rest
    decreases |s| - pos
  {
    var nl := Find(s, '\n', pos);
    RestFromCut(s, pos);
    if nl < 0 {
      SplitLinesDone(s, pos);
    } else {
      RestFromSuffix(s, nl + 1);
      SplitLinesNext(s, pos, nl);
    }
  }

  /** A scan that found its next `\n` at `nl` records `s[pos..nl]` and goes on at `nl + 1`. */
  lemma ScanStep(s: string, pos: nat, nl: int, done: seq<string>)
    requires pos <= |s| && Find(s, '\n', pos) == nl && nl >= 0
    requires done + LinesFrom(s, pos) == LinesFrom(s, 0)
    ensures (done + [s[pos..nl]]) + LinesFrom(s, nl + 1) == LinesFrom(s, 0)
  {
    AppendAssoc(done, [s[pos..nl]], LinesFrom(s, nl + 1));
  }

  lemma RestFromCut(s: string, pos: nat)
    requires pos <= |s|
    ensures Find(s, '\n', pos) < 0 ==> RestFrom(s, pos) == s[pos..]
    ensures Find(s, '\n', pos) >= 0 ==> RestFrom(s, pos) == RestFrom(s, Find(s, '\n', pos) + 1)
  {
  }

  /** ... and leaves behind what it left behind from `pos`. */
  lemma ScanStepRest(s: string, pos: nat, nl: int)
    requires pos <= |s| && Find(s, '\n', pos) == nl && nl >= 0
    requires RestFrom(s, pos) == RestFrom(s, 0)
    ensures RestFrom(s, nl + 1) == RestFrom(s, 0)
  {
    RestFromCut(s, pos);
  }

  /** A scan that finds no further `\n` has recorded every line of `s`. */
  lemma ScanDone(s: string, pos: nat, done: seq<string>)
    requires pos <= |s| && Find(s, '\n', pos) == -1
    requires done + LinesFrom(s, pos) == LinesFrom(s, 0)
    ensures done == SplitLines(s).lines
  {
    LinesFromSuffix(s, 0);
    assert s[0..] == s;
    assert done + [] == done;
  }

  /** ... and what it leaves after `pos` is the unterminated rest of `s`. */
  lemma ScanRest(s: string, pos: nat)
    requires pos <= |s| && Find(s, '\n', pos) == -1
    requires RestFrom(s, pos) == RestFrom(s, 0)
    ensures s[pos..] == SplitLines(s).rest
  {
    RestFromSuffix(s, 0);
    assert s[0..] == s;
  }
}
