/** The relay's moderator (T1 `moderator`): it reads report lines, one target
    pid per line, from the broker's channel, counts the reports against each
    target and issues a kill once a target collects ten of them, forgetting
    that target afterwards.  Bytes after the last `\n` of a read are kept and
    prefixed to the next read.

    A `kill` is recorded in `kills` instead of being sent; its outcome does
    not influence the moderator's state. */
module Moderator {
  import opened Decimal
  import opened Lines

  /** Reports needed before a target is killed. */
  const Threshold: int := 10

  /** The conversion of a `long` to the 32-bit `pid_t`: the value modulo
      2^32, read as a two's-complement number. */
  function Wrap32(n: int): (r: int)
    ensures IntMin <= r <= IntMax
    ensures (n - r) % 0x1_0000_0000 == 0
    ensures IntMin <= n <= IntMax ==> r == n
  {
    var m := n % 0x1_0000_0000;
    if m > IntMax then m - 0x1_0000_0000 else m
  }

  /** The target a report line names: `std::stol` of the line (leading
      white space and a sign allowed, trailing text ignored), cast to
      `pid_t`; `None` when `std::stol` throws. */
  function ReportTarget(line: string): (r: Option<int>)
    ensures r.Some? <==> Stol(line).Some?
    ensures r.Some? ==> IntMin <= r.value <= IntMax
  {
    var n := Stol(line);
    if n.None? then None else Some(Wrap32(n.value.value))
  }

  /** The counts per target and the kills issued so far, oldest first. */
  datatype Tally = Tally(counts: map<int, int>, kills: seq<int>)

  /** A tally together with the unterminated text carried to the next read. */
  datatype Reader = Reader(tally: Tally, carry: string)

  function CountOf(counts: map<int, int>, p: int): int {
    if p in counts then counts[p] else 0
  }

  /** Every stored count lies between 1 and 9. */
  predicate InRange(counts: map<int, int>) {
    forall p :: p in counts ==> 1 <= counts[p] < Threshold
  }

  /** The effect of one report line. */
  function Count(t: Tally, line: string): Tally {
    match ReportTarget(line)
    case None => t
    case Some(target) =>
      var c := CountOf(t.counts, target) + 1;
      if c >= Threshold then Tally(t.counts - {target}, t.kills + [target])
      else Tally(t.counts[target := c], t.kills)
  }

  /** The effect of report lines processed in order. */
  function CountAll(t: Tally, lines: seq<string>): Tally {
    if lines == [] then t else Count(CountAll(t, lines[..|lines| - 1]), lines[|lines| - 1])
  }

  /** One read of `chunk`: the carried text and the chunk are cut into lines,
      every complete line is counted and the unterminated tail is carried. */
  function Feed(r: Reader, chunk: string): (r': Reader)
    ensures NoNewline(r'.carry)
    ensures |r'.carry| <= |r.carry + chunk|
    ensures r'.carry == (r.carry + chunk)[|r.carry + chunk| - |r'.carry|..]
  {
    var s := SplitLines(r.carry + chunk);
    SplitLinesJoin(r.carry + chunk);
    Reader(CountAll(r.tally, s.lines), s.rest)
  }

  lemma FeedIs(r: Reader, chunk: string, lines: seq<string>, rest: string)
    requires lines == SplitLines(r.carry + chunk).lines && rest == SplitLines(r.carry + chunk).rest
    ensures Feed(r, chunk) == Reader(CountAll(r.tally, lines), rest)
    ensures NoNewline(rest)
  {
  }

  // ---------- one line ----------

  /** A line naming `p` below the threshold raises `p`'s count by one
      (an absent entry counting as 0) and issues no kill. */
  lemma CountIncrements(t: Tally, line: string, p: int)
    requires ReportTarget(line) == Some(p) && CountOf(t.counts, p) < Threshold - 1
    ensures CountOf(Count(t, line).counts, p) == CountOf(t.counts, p) + 1
    ensures Count(t, line).kills == t.kills
  {
  }

  /** The line that brings `p`'s count to 10 issues exactly one kill of
      `p` and erases `p`'s entry. */
  lemma CountKills(t: Tally, line: string, p: int)
    requires ReportTarget(line) == Some(p) && CountOf(t.counts, p) == Threshold - 1
    ensures p !in Count(t, line).counts
    ensures Count(t, line).kills == t.kills + [p]
  {
  }

  /** Only the named target's entry changes. */
  lemma CountOthers(t: Tally, line: string, q: int)
    requires ReportTarget(line).None? || ReportTarget(line).value != q
    ensures q in Count(t, line).counts <==> q in t.counts
    ensures q in t.counts ==> Count(t, line).counts[q] == t.counts[q]
  {
  }

  /** A line `std::stol` rejects changes nothing. */
  lemma CountRejected(t: Tally, line: string)
    requires Stol(line).None?
    ensures Count(t, line) == t
  {
  }

  /** Every stored count stays between 1 and 9. */
  lemma CountInRange(t: Tally, line: string)
    requires InRange(t.counts)
    ensures InRange(Count(t, line).counts)
  {
  }

  /** Kills are only ever appended. */
  lemma CountKillsGrow(t: Tally, line: string)
    ensures t.kills <= Count(t, line).kills
    ensures |Count(t, line).kills| <= |t.kills| + 1
  {
  }

  // ---------- many lines ----------

  lemma {:induction false} CountAllInRange(t: Tally, lines: seq<string>)
    requires InRange(t.counts)
    ensures InRange(CountAll(t, lines).counts)
    decreases |lines|
  {
    if lines != [] {
      CountAllInRange(t, lines[..|lines| - 1]);
      CountInRange(CountAll(t, lines[..|lines| - 1]), lines[|lines| - 1]);
    }
  }

  /** Counting `xs` and then `ys` is counting `xs + ys`. */
  lemma {:induction false} CountAllAppend(t: Tally, xs: seq<string>, ys: seq<string>)
    ensures CountAll(t, xs + ys) == CountAll(CountAll(t, xs), ys)
    decreases |ys|
  {
    if ys == [] {
      assert xs + ys == xs;
    } else {
      var n := |ys| - 1;
      assert (xs + ys)[..|xs + ys| - 1] == xs + ys[..n];
      assert (xs + ys)[|xs + ys| - 1] == ys[n];
      CountAllAppend(t, xs, ys[..n]);
    }
  }

  lemma CountAllSnoc(t: Tally, lines: seq<string>, line: string)
    ensures CountAll(t, lines + [line]) == Count(CountAll(t, lines), line)
  {
    assert (lines + [line])[..|lines|] == lines;
  }

  function Repeat(line: string, n: nat): (r: seq<string>)
    ensures |r| == n && forall i :: 0 <= i < n ==> r[i] == line
  {
    if n == 0 then [] else Repeat(line, n - 1) + [line]
  }

  /** Up to nine reports against a pid without an entry leave exactly that
      many counted and issue no kill. */
  lemma {:induction false} RepeatedReports(t: Tally, line: string, p: int, n: nat)
    requires ReportTarget(line) == Some(p) && p !in t.counts
    requires 1 <= n < Threshold
    ensures CountAll(t, Repeat(line, n)) == Tally(t.counts[p := n], t.kills)
  {
    if n == 1 {
      assert Repeat(line, 1) == [] + [line];
      CountAllSnoc(t, [], line);
    } else {
      RepeatedReports(t, line, p, n - 1);
      CountAllSnoc(t, Repeat(line, n - 1), line);
      assert t.counts[p := n - 1][p := n] == t.counts[p := n];
    }
  }

  /** The tenth report against such a pid kills it once and leaves it absent. */
  lemma TenthReport(t: Tally, line: string, p: int)
    requires ReportTarget(line) == Some(p) && p !in t.counts
    ensures CountAll(t, Repeat(line, Threshold - 1)).counts == t.counts[p := Threshold - 1]
    ensures CountAll(t, Repeat(line, Threshold - 1)).kills == t.kills
    ensures CountAll(t, Repeat(line, Threshold)) == Tally(t.counts, t.kills + [p])
  {
    RepeatedReports(t, line, p, Threshold - 1);
    CountAllSnoc(t, Repeat(line, Threshold - 1), line);
    assert t.counts[p := Threshold - 1] - {p} == t.counts;
  }

  // ---------- reads ----------

  /** Splitting the stream between two reads does not change the outcome:
      the carry joins the pieces back together. */
  lemma FeedChunks(r: Reader, a: string, b: string)
    ensures Feed(Feed(r, a), b) == Feed(r, a + b)
  {
    var x := SplitLines(r.carry + a);
    SplitLinesAppend(r.carry + a, b);
    AppendAssoc(r.carry, a, b);
    CountAllAppend(r.tally, x.lines, SplitLines(x.rest + b).lines);
  }

  /** A read whose text holds no `\n` only grows the carry. */
  lemma FeedPartial(r: Reader, chunk: string)
    requires NoNewline(r.carry + chunk)
    ensures Feed(r, chunk) == Reader(r.tally, r.carry + chunk)
  {
    JoinNil(r.carry + chunk);
    SplitLinesUnique(r.carry + chunk, [], r.carry + chunk);
  }

  /** Every read keeps the counts between 1 and 9. */
  lemma FeedInRange(r: Reader, chunk: string)
    requires InRange(r.tally.counts)
    ensures InRange(Feed(r, chunk).tally.counts)
  {
    CountAllInRange(r.tally, SplitLines(r.carry + chunk).lines);
  }

  // ---------- the process ----------

  class Moderator {
    /** Reports counted per target. */
    var countByPid: map<int, int>
    /** Text after the last `\n` read so far. */
    var carry: string
    /** Kills issued so far, oldest first. */
    var kills: seq<int>

    function Snapshot(): Reader
      reads this
    {
      Reader(Tally(countByPid, kills), carry)
    }

    predicate Valid()
      reads this
    {
      InRange(countByPid) && NoNewline(carry)
    }

    constructor ()
      ensures Snapshot() == Reader(Tally(map[], []), "")
      ensures Valid()
    {
      countByPid := map[];
      carry := "";
      kills := [];
    }

    /** The handling of one complete line: a target `std::stol` accepts
        gets one more report; at 10 it is killed and its entry erased. */
    method CountLine(line: string)
      modifies this
      ensures Tally(countByPid, kills) == Count(old(Tally(countByPid, kills)), line)
      ensures carry == old(carry)
    {
      var parsed := Stol(line);
      if parsed.Some? {
        var target := Wrap32(parsed.value.value);
        var c := CountOf(countByPid, target) + 1;
        countByPid := countByPid[target := c];
        if c >= Threshold {
          kills := kills + [target];
          countByPid := countByPid - {target};
        }
      }
    }

    /** One pass of the read loop with `n` the value `read` returned into
        `buf`: a positive `n` appends those bytes to the carry and counts
        every complete line; 0 (all writers gone: the channel is reopened)
        and a negative `n` change nothing. */
    method OnRead(buf: string, n: int)
      requires n <= |buf|
      requires Valid()
      modifies this
      ensures Valid()
      ensures n > 0 ==> Snapshot() == Feed(old(Snapshot()), buf[..n])
      ensures n <= 0 ==> Snapshot() == old(Snapshot())
    {
      if n <= 0 {
        return;
      }
      ghost var r0 := Snapshot();
      carry := carry + buf[..n];
      ghost var s := carry;
      ghost var done: seq<string> := [];
      var pos := 0;
      while true
        invariant carry == s
        invariant 0 <= pos <= |s|
        invariant done + LinesFrom(s, pos) == LinesFrom(s, 0)
        invariant RestFrom(s, pos) == RestFrom(s, 0)
        invariant Tally(countByPid, kills) == CountAll(r0.tally, done)
        invariant InRange(countByPid)
        decreases |s| - pos
      {
        var nl := Find(carry, '\n', pos);
        if nl < 0 {
          ScanDone(s, pos, done);
          ScanRest(s, pos);
          break;
        }
        var line := carry[pos..nl];
        ScanStep(s, pos, nl, done);
        ScanStepRest(s, pos, nl);
        pos := nl + 1;
        CountInRange(Tally(countByPid, kills), line);
        CountLine(line);
        CountAllSnoc(r0.tally, done, line);
        done := done + [line];
      }
      carry := carry[pos..];
      FeedIs(r0, buf[..n], done, carry);
    }
  }
}
