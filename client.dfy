/** The relay's client (T1 `client`): it frames what the user types as
    `[<pid>]-<text>` envelopes for the broker and interprets the commands
    `/leave`, `/share` and `/report <pid>`.

    The terminal and the channel are replaced by parameters: the line the
    user typed (`None` at end of input) and whether the write of a chat
    envelope succeeds.  What the client writes is returned, in order. */
module Client {
  import opened Decimal

  const ConnectText: string := "Proceso conectado"
  const DisconnectText: string := "Proceso desconectado"
  const ReportCommand: string := "/report"
  const ShareCommand: string := "/share"
  const LeaveCommand: string := "/leave"
  /** The chat body a report is sent as, before the target's digits. */
  const ReportBody: string := "reportar "

  // ---------- text helpers ----------

  /** `startsWith`: false for a string shorter than the prefix, otherwise
      a comparison of the leading characters. */
  function StartsWith(s: string, prefix: string): (r: bool)
    ensures |s| < |prefix| ==> !r
  {
    if |s| < |prefix| then false else s[..|prefix|] == prefix
  }

  lemma StartsWithMeaning(s: string, prefix: string)
    ensures StartsWith(s, prefix) <==> exists t :: s == prefix + t
  {
    if StartsWith(s, prefix) {
      assert s == prefix + s[|prefix|..];
    }
    forall t | s == prefix + t ensures StartsWith(s, prefix) {
      assert s[..|prefix|] == prefix;
    }
  }

  function DropLeading(s: string): (r: string)
    ensures r == [] || !IsSpace(r[0])
  {
    if s != [] && IsSpace(s[0]) then DropLeading(s[1..]) else s
  }

  function DropTrailing(s: string): (r: string)
    ensures r == [] || !IsSpace(r[|r| - 1])
  {
    if s != [] && IsSpace(s[|s| - 1]) then DropTrailing(s[..|s| - 1]) else s
  }

  /** The reference for `trim`: leading white space removed, then trailing. */
  function Trimmed(s: string): string {
    DropTrailing(DropLeading(s))
  }

  /** `trim`: advance `i` over leading white space, pull `j` back over
      trailing white space, return `s[i..j]`. */
  method Trim(s: string) returns (r: string)
    ensures r == Trimmed(s)
  {
    var i := 0;
    var j := |s|;
    while i < j && IsSpace(s[i])
      invariant 0 <= i <= j == |s|
      invariant DropLeading(s[i..]) == DropLeading(s)
    {
      assert s[i..][1..] == s[i + 1..];
      i := i + 1;
    }
    assert DropLeading(s[i..]) == s[i..];
    assert s[i..j] == s[i..];
    while j > i && IsSpace(s[j - 1])
      invariant i <= j <= |s|
      invariant DropTrailing(s[i..j]) == Trimmed(s)
    {
      assert s[i..j][..j - 1 - i] == s[i..j - 1];
      j := j - 1;
    }
    r := s[i..j];
  }

  /** The number of leading white-space characters. */
  function LeadingSpace(s: string): (i: nat)
    ensures i <= |s| && forall k :: 0 <= k < i ==> IsSpace(s[k])
  {
    if s != [] && IsSpace(s[0]) then 1 + LeadingSpace(s[1..]) else 0
  }

  /** The length left once trailing white space is cut. */
  function TrailingCut(s: string): (j: nat)
    ensures j <= |s| && forall k :: j <= k < |s| ==> IsSpace(s[k])
  {
    if s != [] && IsSpace(s[|s| - 1]) then TrailingCut(s[..|s| - 1]) else |s|
  }

  lemma {:induction false} DropLeadingSuffix(s: string)
    ensures DropLeading(s) == s[LeadingSpace(s)..]
    decreases |s|
  {
    if s != [] && IsSpace(s[0]) {
      DropLeadingSuffix(s[1..]);
      assert s[1..][LeadingSpace(s[1..])..] == s[LeadingSpace(s)..];
    }
  }

  lemma {:induction false} DropTrailingPrefix(s: string)
    ensures DropTrailing(s) == s[..TrailingCut(s)]
    decreases |s|
  {
    if s != [] && IsSpace(s[|s| - 1]) {
      var t := s[..|s| - 1];
      DropTrailingPrefix(t);
      assert t[..TrailingCut(t)] == s[..TrailingCut(s)];
    }
  }

  /** `trim` returns a contiguous piece of its argument; only white space
      was cut off on either side ... */
  lemma TrimmedShape(s: string)
    ensures exists i, j :: 0 <= i <= j <= |s| && Trimmed(s) == s[i..j]
                        && (forall k :: 0 <= k < i ==> IsSpace(s[k]))
                        && (forall k :: j <= k < |s| ==> IsSpace(s[k]))
  {
    var i := LeadingSpace(s);
    var d := DropLeading(s);
    DropLeadingSuffix(s);
    var j := TrailingCut(d);
    DropTrailingPrefix(d);
    assert Trimmed(s) == d[..j];
    TrimmedSlice(s, i, j, Trimmed(s));
  }

  /** ... and that piece neither starts nor ends with white space. */
  lemma TrimmedEnds(s: string)
    ensures Trimmed(s) == [] || (!IsSpace(Trimmed(s)[0]) && !IsSpace(Trimmed(s)[|Trimmed(s)| - 1]))
  {
    var d := DropLeading(s);
    var t := Trimmed(s);
    DropTrailingPrefix(d);
    if t != [] {
      assert t[0] == d[0];
    }
  }

  lemma TrimmedSlice(s: string, i: nat, j: nat, t: string)
    requires i <= |s| && j <= |s| - i && t == s[i..][..j]
    requires forall k :: j <= k < |s[i..]| ==> IsSpace(s[i..][k])
    ensures t == s[i..i + j]
    ensures forall k :: i + j <= k < |s| ==> IsSpace(s[k])
  {
    var d := s[i..];
    forall k | i + j <= k < |s| ensures IsSpace(s[k]) {
      assert s[k] == d[k - i];
    }
  }

  lemma {:induction false} DropLeadingKeeps(s: string)
    requires s == [] || !IsSpace(s[0])
    ensures DropLeading(s) == s
  {
  }

  lemma {:induction false} DropTrailingKeeps(s: string)
    requires s == [] || !IsSpace(s[|s| - 1])
    ensures DropTrailing(s) == s
  {
  }

  /** Trimming twice is trimming once. */
  lemma TrimmedIdempotent(s: string)
    ensures Trimmed(Trimmed(s)) == Trimmed(s)
  {
    var t := Trimmed(s);
    TrimmedEnds(s);
    DropLeadingKeeps(t);
    DropTrailingKeeps(t);
  }

  /** White space around a text that neither starts nor ends with white
      space is exactly what `trim` removes. */
  lemma {:induction false} TrimmedPadded(before: string, text: string, after: string)
    requires forall k :: 0 <= k < |before| ==> IsSpace(before[k])
    requires forall k :: 0 <= k < |after| ==> IsSpace(after[k])
    requires text != [] && !IsSpace(text[0]) && !IsSpace(text[|text| - 1])
    ensures Trimmed(before + text + after) == text
  {
    DropLeadingPadded(before, text + after);
    assert before + text + after == before + (text + after);
    DropTrailingPadded(text, after);
  }

  lemma {:induction false} DropLeadingPadded(before: string, s: string)
    requires forall k :: 0 <= k < |before| ==> IsSpace(before[k])
    requires s != [] && !IsSpace(s[0])
    ensures DropLeading(before + s) == s
    decreases |before|
  {
    if before == [] {
      assert before + s == s;
    } else {
      assert (before + s)[1..] == before[1..] + s;
      DropLeadingPadded(before[1..], s);
    }
  }

  lemma {:induction false} DropTrailingPadded(s: string, after: string)
    requires forall k :: 0 <= k < |after| ==> IsSpace(after[k])
    requires s != [] && !IsSpace(s[|s| - 1])
    ensures DropTrailing(s + after) == s
    decreases |after|
  {
    if after == [] {
      assert s + after == s;
    } else {
      var a := after[..|after| - 1];
      assert (s + after)[..|s + after| - 1] == s + a;
      DropTrailingPadded(s, a);
    }
  }

  // ---------- envelopes ----------

  /** The envelope `sendUserMessage` writes. */
  function Payload(pid: int, text: string): (r: string)
    ensures |r| > 2 && r[0] == '[' && r[|r| - 1] == '\n'
  {
    "[" + ToString(pid) + "]-" + text + "\n"
  }

  /** `sendConnectHello`'s line: the pid in brackets, then `-` and the
      connect notice, ending the line. */
  function HelloLine(pid: int): (r: string)
    ensures |r| >= |ConnectText| + 5 && r[0] == '['
    ensures r[|r| - |ConnectText| - 3..] == "]-" + ConnectText + "\n"
  {
    Payload(pid, ConnectText)
  }

  /** `sendDisconnectBye`'s line: the same with the disconnect notice. */
  function ByeLine(pid: int): (r: string)
    ensures |r| >= |DisconnectText| + 5 && r[0] == '['
    ensures r[|r| - |DisconnectText| - 3..] == "]-" + DisconnectText + "\n"
  {
    Payload(pid, DisconnectText)
  }

  /** Different texts from one pid give different envelopes, and so do
      the same texts from different pids. */
  lemma PayloadInjective(p: int, t: string, q: int, u: string)
    requires Payload(p, t) == Payload(q, u)
    ensures p == q && t == u
  {
    PayloadAfterBracket(p, t);
    PayloadAfterBracket(q, u);
    ToStringParses(p, "]-" + t + "\n");
    ToStringParses(q, "]-" + u + "\n");
    ToStringInjective(p, q);
    PayloadBody(p, t);
    PayloadBody(q, u);
  }

  lemma PayloadAfterBracket(p: int, t: string)
    ensures Payload(p, t)[1..] == ToString(p) + ("]-" + t + "\n")
  {
  }

  lemma PayloadBody(p: int, t: string)
    ensures Payload(p, t)[|ToString(p)| + 3..|Payload(p, t)| - 1] == t
  {
    var d := ToString(p);
    assert Payload(p, t) == ("[" + d + "]-") + t + "\n";
  }

  // ---------- commands ----------

  /** The argument of `/report`: trimmed, one leading blank dropped, read
      by `std::stol`; only a positive number is a target. */
  function ReportArgument(arg: string): Option<int> {
    var rest := Trimmed(arg);
    var rest' := if rest != [] && rest[0] == ' ' then rest[1..] else rest;
    var n := Stol(rest');
    if n.Some? && n.value.value > 0 then Some(n.value.value) else None
  }

  /** The extra blank `handleUserInput` drops can never be there: `trim`
      already removed it, so the argument is `std::stol` of the trimmed
      text. */
  lemma ReportArgumentMeaning(arg: string)
    ensures ReportArgument(arg).Some? <==>
              Stol(Trimmed(arg)).Some? && Stol(Trimmed(arg)).value.value > 0
    ensures ReportArgument(arg).Some? ==> ReportArgument(arg).value == Stol(Trimmed(arg)).value.value
  {
    TrimmedEnds(arg);
  }

  /** `/report <n>` with a positive `long` `n`, however padded, names `n`. */
  lemma ReportArgumentOf(before: string, n: int, after: string)
    requires 0 < n <= LongMax
    requires forall k :: 0 <= k < |before| ==> IsSpace(before[k])
    requires forall k :: 0 <= k < |after| ==> IsSpace(after[k])
    ensures ReportArgument(before + ToString(n) + after) == Some(n)
  {
    var digits := ToString(n);
    assert IsDigit(digits[0]) && IsDigit(digits[|digits| - 1]);
    TrimmedPadded(before, digits, after);
    ReportArgumentMeaning(before + digits + after);
    StolToString(n, []);
    assert digits + [] == digits;
  }

  /** What one call of `handleUserInput` does, given the typed line (`None`
      at end of input) and whether a chat write succeeds: `sent` lists the
      envelopes written, `spawn` says whether a copy of the client is
      started, `usage` whether the usage hint is printed, and `keepGoing`
      whether the chat loop continues. */
  method HandleUserInput(pid: int, input: Option<string>, writeOk: bool)
    returns (keepGoing: bool, sent: seq<string>, spawn: bool, usage: bool)
    ensures input.None? || input.value == LeaveCommand ==>
              !keepGoing && sent == [ByeLine(pid)] && !spawn && !usage
    ensures input.Some? && input.value != LeaveCommand && StartsWith(input.value, ShareCommand) ==>
              keepGoing && sent == [] && spawn && !usage
    ensures input.Some? && input.value != LeaveCommand && !StartsWith(input.value, ShareCommand)
            && StartsWith(input.value, ReportCommand) ==>
              !spawn
              && (match ReportArgument(input.value[|ReportCommand|..])
                  case Some(n) => sent == [Payload(pid, ReportBody + ToString(n))] && keepGoing == writeOk && !usage
                  case None => sent == [] && keepGoing && usage)
    ensures input.Some? && input.value != LeaveCommand && !StartsWith(input.value, ShareCommand)
            && !StartsWith(input.value, ReportCommand) ==>
              sent == [Payload(pid, input.value)] && keepGoing == writeOk && !spawn && !usage
  {
    sent, spawn, usage := [], false, false;
    if input.None? {
      sent := [ByeLine(pid)];
      return false, sent, spawn, usage;
    }
    var line := input.value;
    if line == LeaveCommand {
      sent := [ByeLine(pid)];
      return false, sent, spawn, usage;
    }
    if StartsWith(line, ShareCommand) {
      spawn := true;
      return true, sent, spawn, usage;
    }
    if StartsWith(line, ReportCommand) {
      var rest := Trim(line[|ReportCommand|..]);
      if rest != [] && rest[0] == ' ' {
        rest := rest[1..];
      }
      var target := Stol(rest);
      if target.Some? && target.value.value > 0 {
        sent := [Payload(pid, ReportBody + ToString(target.value.value))];
        return writeOk, sent, spawn, usage;
      }
      usage := true;
      return true, sent, spawn, usage;
    }
    sent := [Payload(pid, line)];
    return writeOk, sent, spawn, usage;
  }
}
