/** How the three programs of the relay fit together: what a client writes
    is what the broker decodes, and what the broker forwards is what the
    moderator counts. */
module Relay {
  import opened Decimal
  import opened Lines
  import Central
  import Client
  import Moderator

  /** A chat envelope arrives at the broker as one complete line, and that
      line decodes to the client's pid and text. */
  lemma ChatArrives(pid: int, text: string)
    requires 0 < pid <= IntMax && NoNewline(text)
    ensures SplitLines(Client.Payload(pid, text)) == Split(["[" + ToString(pid) + "]-" + text], "")
    ensures Central.ParseMessage("[" + ToString(pid) + "]-" + text) == Some(Central.Envelope(pid, text))
  {
    ChatLineAlone(pid, text);
    ChatLineParses(pid, text);
  }

  /** The notices a client sends on connecting and on leaving arrive as
      one line each, decoding to its pid and the notice. */
  lemma NoticesArrive(pid: int)
    requires 0 < pid <= IntMax
    ensures SplitLines(Client.HelloLine(pid)) == Split(["[" + ToString(pid) + "]-" + Client.ConnectText], "")
    ensures Central.ParseMessage("[" + ToString(pid) + "]-" + Client.ConnectText) == Some(Central.Envelope(pid, Client.ConnectText))
    ensures SplitLines(Client.ByeLine(pid)) == Split(["[" + ToString(pid) + "]-" + Client.DisconnectText], "")
    ensures Central.ParseMessage("[" + ToString(pid) + "]-" + Client.DisconnectText) == Some(Central.Envelope(pid, Client.DisconnectText))
  {
    ChatArrives(pid, Client.ConnectText);
    ChatArrives(pid, Client.DisconnectText);
  }

  lemma ChatLineAlone(pid: int, text: string)
    requires pid >= 0 && NoNewline(text)
    ensures SplitLines(Client.Payload(pid, text)) == Split(["[" + ToString(pid) + "]-" + text], "")
  {
    var line := "[" + ToString(pid) + "]-" + text;
    assert Client.Payload(pid, text) == line + "\n";
    OneLine(line, ToString(pid), text);
    SingleLine(line);
  }

  lemma ChatLineParses(pid: int, text: string)
    requires 0 < pid <= IntMax
    ensures Central.ParseMessage("[" + ToString(pid) + "]-" + text) == Some(Central.Envelope(pid, text))
  {
    Central.ParseMessageEnvelope(pid, "", text);
    assert "[" + ToString(pid) + "]" + "" + "-" + text == "[" + ToString(pid) + "]-" + text;
  }

  lemma OneLine(line: string, digits: string, text: string)
    requires line == "[" + digits + "]-" + text && AllDigits(digits) && NoNewline(text)
    ensures NoNewline(line)
  {
    forall i | 0 <= i < |line| ensures line[i] != '\n' {
      if 1 <= i < |digits| + 1 {
        assert line[i] == digits[i - 1];
      } else if i >= |digits| + 3 {
        assert line[i] == text[i - |digits| - 3];
      }
    }
  }

  lemma SingleLine(line: string)
    requires NoNewline(line)
    ensures SplitLines(line + "\n") == Split([line], "")
  {
    JoinCons(line, []);
    JoinNil("");
    assert Join([line]) + "" == line + "\n";
    assert AllLines([line]);
    SplitLinesUnique(line + "\n", [line], "");
  }

  /** `/report <n>` reaches the broker as a report it forwards to the
      moderator: the client's chat body starts with the key the broker
      looks for. */
  lemma ReportForwarded(n: int)
    requires 0 < n <= LongMax
    ensures Client.ReportBody == Central.ReportKey
    ensures Central.ReportRequest(Client.ReportBody + ToString(n)) == Central.Forward(n)
  {
    var body := Client.ReportBody + ToString(n);
    assert body[..|Central.ReportKey|] == Central.ReportKey;
    assert body[|Central.ReportKey|..] == ToString(n) + [];
    StolToString(n, []);
  }

  /** The broker's report line is one complete line for the moderator,
      naming the same pid when it fits a 32-bit `pid_t`. */
  lemma ReportCounted(n: int)
    requires 0 < n <= IntMax
    ensures SplitLines(Central.ReportText(n)) == Split([ToString(n)], "")
    ensures Moderator.ReportTarget(ToString(n)) == Some(n)
  {
    ReportLineAlone(n);
    StolToString(n, []);
    assert ToString(n) + [] == ToString(n);
  }

  lemma ReportLineAlone(n: int)
    requires n >= 0
    ensures SplitLines(Central.ReportText(n)) == Split([ToString(n)], "")
  {
    assert NoNewline(ToString(n)) by {
      forall i | 0 <= i < |ToString(n)| ensures ToString(n)[i] != '\n' {
        assert IsDigit(ToString(n)[i]);
      }
    }
    SingleLine(ToString(n));
  }

  /** A target beyond the 32-bit range passes the broker's check but is
      cut down to 32 bits by the moderator: `4294967295` is counted
      against pid -1 and `4294967296` against pid 0, the two values for
      which `kill` signals more than one process. */
  lemma ReportTargetWraps()
    ensures Central.ReportRequest(Central.ReportKey + ToString(0xFFFF_FFFF)) == Central.Forward(0xFFFF_FFFF)
    ensures Moderator.ReportTarget(ToString(0xFFFF_FFFF)) == Some(-1)
    ensures Central.ReportRequest(Central.ReportKey + ToString(0x1_0000_0000)) == Central.Forward(0x1_0000_0000)
    ensures Moderator.ReportTarget(ToString(0x1_0000_0000)) == Some(0)
  {
    ReportForwarded(0xFFFF_FFFF);
    ReportForwarded(0x1_0000_0000);
    StolToString(0xFFFF_FFFF, []);
    StolToString(0x1_0000_0000, []);
    assert ToString(0xFFFF_FFFF) + [] == ToString(0xFFFF_FFFF);
    assert ToString(0x1_0000_0000) + [] == ToString(0x1_0000_0000);
  }
}
