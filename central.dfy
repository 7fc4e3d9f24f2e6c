/** The relay's broker (T1 `central`): it decodes `[<pid>]-<body>` envelopes
    from the shared inbound channel, opens a delivery channel for each new
    sender, rebroadcasts chat to every other registered peer, acknowledges
    the sender and forwards `reportar <n>` commands to the moderator.

    The operating system is replaced by an environment `Env`: `openFd` is
    the descriptor `open` returns for a peer's delivery channel (negative on
    failure), `writeOk` says whether a `write` on a descriptor succeeds,
    `hms` is the wall-clock stamp `nowHms` would print, and `order` is the
    order in which an `unordered_map` with a given key set visits its
    entries.  Every write the broker performs is recorded, in order, in the
    broker's `trace`. */
module Central {
  import opened Decimal
  import opened Lines

  datatype Envelope = Envelope(pid: int, body: string)

  datatype Env = Env(openFd: int -> int, writeOk: int -> bool, hms: string, order: set<int> -> seq<int>)

  /** One write the broker performs. */
  datatype Event =
    | Welcome(pid: int, fd: int, text: string)           // first contact; result ignored
    | Deliver(pid: int, fd: int, text: string, ok: bool)  // one rebroadcast write
    | Ack(pid: int, fd: int, text: string, ok: bool)      // acknowledgement to the sender
    | ReportLine(fd: int, text: string)                   // line to the moderator's channel

  /** What `handleReportIfAny` makes of a chat body. */
  datatype ReportAction = NotReport | Ignored | Forward(target: int)

  // ---------- wire formats ----------

  /** `getO2cPathFor`: the broker-to-client channel of `pid`. */
  function DeliveryPath(pid: int): (r: string)
    ensures |r| > 19 && r[..14] == "/tmp/orch_o2c_" && r[|r| - 5..] == ".fifo"
  {
    "/tmp/orch_o2c_" + ToString(pid) + ".fifo"
  }

  function WelcomeText(hms: string, pid: int): string {
    "[CENTRAL " + hms + "] Conexión OK. Tu PID: " + ToString(pid) + "\n"
  }

  function AckText(hms: string): string {
    "[CENTRAL " + hms + "] ACK\n"
  }

  function BroadcastText(hms: string, sender: int, message: string): string {
    "[" + hms + "][PID " + ToString(sender) + "] " + message + "\n"
  }

  function ReportText(target: int): string {
    ToString(target) + "\n"
  }

  const ReportKey: string := "reportar "

  predicate HasPrefix(s: string, prefix: string) {
    |prefix| <= |s| && s[..|prefix|] == prefix
  }

  // ---------- parsing ----------

  /** The pid between the brackets: `std::stoi` must consume all of it and
      the value must be positive. */
  function PidField(pidStr: string): (r: Option<int>)
    ensures r.Some? <==> Stoi(pidStr).Some? && Stoi(pidStr).value.consumed == |pidStr| && Stoi(pidStr).value.value > 0
    ensures r.Some? ==> r.value == Stoi(pidStr).value.value
  {
    var p := Stoi(pidStr);
    if p.None? || p.value.consumed != |pidStr| || p.value.value <= 0 then None else Some(p.value.value)
  }

  /** `parseMessage`: the first `[`, the first `]` after it (not adjacent),
      an interior that `std::stoi` consumes completely and that is positive,
      then the first `-` after the `]`; the body is everything after that `-`. */
  function ParseMessage(raw: string): (r: Option<Envelope>)
    ensures r.Some? ==> 0 < r.value.pid <= IntMax
    ensures r.Some? ==> |r.value.body| < |raw|
  {
    var lb := Find(raw, '[', 0);
    if lb < 0 then None
    else
      var rb := Find(raw, ']', lb + 1);
      if rb < 0 || rb <= lb + 1 then None
      else
        var pid := PidField(raw[lb + 1..rb]);
        if pid.None? then None
        else
          var dash := Find(raw, '-', rb + 1);
          if dash < 0 then None
          else Some(Envelope(pid.value, raw[dash + 1..]))
  }

  /** A declarative reading of a well-formed line: `[` at `lb` is the first
      `[`, `]` at `rb` is the first `]` after it, the interior is a whole
      positive `int`, and `-` at `dash` is the first `-` after `rb`. */
  ghost predicate Framed(raw: string, lb: int, rb: int, dash: int, e: Envelope) {
    && lb + 1 < rb && dash < |raw|
    && FirstAt(raw, '[', 0, lb)
    && FirstAt(raw, ']', lb + 1, rb)
    && PidField(raw[lb + 1..rb]) == Some(e.pid)
    && FirstAt(raw, '-', rb + 1, dash)
    && e.body == raw[dash + 1..]
  }

  /** A line is accepted exactly when it is framed, and then the envelope is
      the framed one; every line without a framing is rejected. */
  lemma ParseMessageMeaning(raw: string)
    ensures ParseMessage(raw).Some? ==>
      exists lb, rb, dash :: Framed(raw, lb, rb, dash, ParseMessage(raw).value)
    ensures forall lb, rb, dash, e :: Framed(raw, lb, rb, dash, e) ==> ParseMessage(raw) == Some(e)
  {
    if ParseMessage(raw).Some? {
      ParseMessageFramed(raw);
    }
    forall lb, rb, dash, e | Framed(raw, lb, rb, dash, e) ensures ParseMessage(raw) == Some(e) {
      FramedParses(raw, lb, rb, dash, e);
    }
  }

  lemma ParseMessageFramed(raw: string)
    requires ParseMessage(raw).Some?
    ensures Framed(raw, Find(raw, '[', 0), Find(raw, ']', Find(raw, '[', 0) + 1),
                   Find(raw, '-', Find(raw, ']', Find(raw, '[', 0) + 1) + 1), ParseMessage(raw).value)
  {
    var lb := Find(raw, '[', 0);
    var rb := Find(raw, ']', lb + 1);
    var dash := Find(raw, '-', rb + 1);
    ParseMessageAccepts(raw);
    ParseMessageAt(raw, lb, rb, dash);
    FramedAt(raw, lb, rb, dash);
  }

  /** What an accepted line must contain. */
  lemma ParseMessageAccepts(raw: string)
    requires ParseMessage(raw).Some?
    ensures Find(raw, '[', 0) >= 0 && Find(raw, ']', Find(raw, '[', 0) + 1) > Find(raw, '[', 0) + 1
    ensures PidField(raw[Find(raw, '[', 0) + 1..Find(raw, ']', Find(raw, '[', 0) + 1)]).Some?
    ensures Find(raw, '-', Find(raw, ']', Find(raw, '[', 0) + 1) + 1) >= 0
  {
  }

  /** The envelope `parseMessage` builds once every piece was found. */
  lemma ParseMessageAt(raw: string, lb: int, rb: int, dash: int)
    requires lb == Find(raw, '[', 0) && rb == Find(raw, ']', lb + 1) && dash == Find(raw, '-', rb + 1)
    requires lb >= 0 && rb > lb + 1 && dash >= 0 && PidField(raw[lb + 1..rb]).Some?
    ensures ParseMessage(raw) == Some(Envelope(PidField(raw[lb + 1..rb]).value, raw[dash + 1..]))
  {
  }

  /** The pieces `find` located form a framing. */
  lemma FramedAt(raw: string, lb: int, rb: int, dash: int)
    requires lb == Find(raw, '[', 0) && rb == Find(raw, ']', lb + 1) && dash == Find(raw, '-', rb + 1)
    requires lb >= 0 && rb > lb + 1 && dash >= 0 && PidField(raw[lb + 1..rb]).Some?
    ensures Framed(raw, lb, rb, dash, Envelope(PidField(raw[lb + 1..rb]).value, raw[dash + 1..]))
  {
    FindIsFirstAt(raw, '[', 0);
    FindIsFirstAt(raw, ']', lb + 1);
    FindIsFirstAt(raw, '-', rb + 1);
  }

  lemma FramedParses(raw: string, lb: int, rb: int, dash: int, e: Envelope)
    requires Framed(raw, lb, rb, dash, e)
    ensures ParseMessage(raw) == Some(e)
  {
    FramedFound(raw, lb, rb, dash, e);
    ParseMessageAt(raw, lb, rb, dash);
  }

  /** A framing is where `find` looks. */
  lemma FramedFound(raw: string, lb: int, rb: int, dash: int, e: Envelope)
    requires Framed(raw, lb, rb, dash, e)
    ensures lb == Find(raw, '[', 0) && rb == Find(raw, ']', lb + 1) && dash == Find(raw, '-', rb + 1)
    ensures lb >= 0 && rb > lb + 1 && dash >= 0 && PidField(raw[lb + 1..rb]) == Some(e.pid)
    ensures e == Envelope(e.pid, raw[dash + 1..])
  {
    FirstAtIsFound(raw, '[', 0, lb);
    FirstAtIsFound(raw, ']', lb + 1, rb);
    FirstAtIsFound(raw, '-', rb + 1, dash);
  }

  /** A line without any `[` is rejected. */
  lemma ParseMessageNeedsBracket(raw: string)
    requires forall i :: 0 <= i < |raw| ==> raw[i] != '['
    ensures ParseMessage(raw) == None
  {
    ParseMessageMeaning(raw);
  }

  /** An interior that `std::stoi` does not consume completely (digits
      followed by other text, as in `[12a]`) makes the line invalid. */
  lemma ParseMessageRejectsPartialPid(pidText: string, tail: string)
    requires forall i :: 0 <= i < |pidText| ==> pidText[i] != '[' && pidText[i] != ']'
    requires Stoi(pidText).Some? ==> Stoi(pidText).value.consumed < |pidText|
    ensures ParseMessage("[" + pidText + "]" + tail) == None
  {
    var raw := "[" + pidText + "]" + tail;
    var lb := Find(raw, '[', 0);
    assert lb == 0;
    var rb := Find(raw, ']', 1);
    FindFirst(raw, ']', 1, |pidText| + 1);
    assert raw[1..rb] == pidText;
  }

  /** The envelope the client writes decodes to its pid and text; the `-`
      need not follow the `]` directly. */
  lemma ParseMessageEnvelope(pid: int, gap: string, body: string)
    requires 0 < pid <= IntMax
    requires forall i :: 0 <= i < |gap| ==> gap[i] != '-'
    ensures ParseMessage("[" + ToString(pid) + "]" + gap + "-" + body) == Some(Envelope(pid, body))
  {
    var digits := ToString(pid);
    var raw := "[" + digits + "]" + gap + "-" + body;
    var rb := |digits| + 1;
    var dash := rb + 1 + |gap|;
    assert pid >= 0;
    assert forall i :: 0 <= i < |digits| ==> IsDigit(digits[i]);
    assert raw[1..rb] == digits;
    StoiToString(pid);
    assert raw[dash + 1..] == body;
    assert Framed(raw, 0, rb, dash, Envelope(pid, body));
    ParseMessageMeaning(raw);
  }

  /** Two peers never share a delivery channel name. */
  lemma DeliveryPathInjective(a: int, b: int)
    requires DeliveryPath(a) == DeliveryPath(b)
    ensures a == b
  {
    var pre := "/tmp/orch_o2c_";
    var sa, sb := ToString(a), ToString(b);
    assert DeliveryPath(a) == pre + sa + ".fifo";
    assert |sa| == |sb|;
    assert sa == DeliveryPath(a)[|pre|..|pre| + |sa|];
    assert sb == DeliveryPath(b)[|pre|..|pre| + |sb|];
    ToStringInjective(a, b);
  }

  // ---------- report recognition ----------

  /** `handleReportIfAny`'s decision: not a report unless the body starts with
      `reportar `; a report whose number `std::stol` rejects or that is not
      positive is swallowed; otherwise its target is forwarded. */
  function ReportRequest(message: string): (r: ReportAction)
    ensures r.NotReport? <==> !HasPrefix(message, ReportKey)
    ensures r.Forward? ==> 0 < r.target <= LongMax
    ensures r.Forward? ==> Stol(message[|ReportKey|..]).Some? && Stol(message[|ReportKey|..]).value.value == r.target
    ensures r.Ignored? ==> Stol(message[|ReportKey|..]).None? || Stol(message[|ReportKey|..]).value.value <= 0
  {
    if !HasPrefix(message, ReportKey) then NotReport
    else
      var n := Stol(message[|ReportKey|..]);
      if n.None? || n.value.value <= 0 then Ignored else Forward(n.value.value)
  }

  function ReportEvents(reportsFd: int, action: ReportAction): seq<Event> {
    if action.Forward? && reportsFd >= 0 then [ReportLine(reportsFd, ReportText(action.target))] else []
  }

  // ---------- registry specification ----------

  /** After `sendAck`: the sender's entry goes when its write fails. */
  function AckMap(m: map<int, int>, env: Env, sender: int): map<int, int> {
    if sender in m && !env.writeOk(m[sender]) then m - {sender} else m
  }

  function AckEvents(m: map<int, int>, env: Env, sender: int): seq<Event> {
    if sender in m then [Ack(sender, m[sender], AckText(env.hms), env.writeOk(m[sender]))] else []
  }

  /** After a broadcast: every entry but the sender's whose write failed is gone. */
  function Survivors(m: map<int, int>, env: Env, sender: int): map<int, int> {
    map p | p in m && (p == sender || env.writeOk(m[p])) :: m[p]
  }

  /** `order` lists every pid of `keys` exactly once. */
  ghost predicate Enumerates(order: seq<int>, keys: set<int>) {
    && (forall i, j :: 0 <= i < j < |order| ==> order[i] != order[j])
    && (forall p :: p in order <==> p in keys)
  }

  /** Iterating a map visits each of its keys exactly once, in an order the
      language leaves unspecified. */
  ghost predicate Iterates(env: Env) {
    forall keys :: Enumerates(env.order(keys), keys)
  }

  /** The broadcast writes: one per visited entry other than the sender's. */
  function Deliveries(order: seq<int>, m: map<int, int>, env: Env, sender: int, text: string): seq<Event> {
    if order == [] then []
    else
      var p := order[|order| - 1];
      Deliveries(order[..|order| - 1], m, env, sender, text)
        + if p != sender && p in m then [Deliver(p, m[p], text, env.writeOk(m[p]))] else []
  }

  /** The registry part way through a broadcast that has visited `seen`. */
  function Visited(m: map<int, int>, env: Env, sender: int, seen: seq<int>): map<int, int> {
    map p | p in m && (p !in seen || p == sender || env.writeOk(m[p])) :: m[p]
  }

  /** After processing a valid line from an unseen sender: registered when
      the open succeeded. */
  function Registered(m: map<int, int>, env: Env, pid: int): map<int, int> {
    if pid in m || env.openFd(pid) < 0 then m else m[pid := env.openFd(pid)]
  }

  function RegisterEvents(m: map<int, int>, env: Env, pid: int): seq<Event> {
    if pid in m || env.openFd(pid) < 0 then [] else [Welcome(pid, env.openFd(pid), WelcomeText(env.hms, pid))]
  }

  /** The registry after `processLine`. */
  function LineMap(m: map<int, int>, env: Env, raw: string): map<int, int> {
    match ParseMessage(raw)
    case None => m
    case Some(e) =>
      var m1 := Registered(m, env, e.pid);
      if ReportRequest(e.body).NotReport? then AckMap(Survivors(m1, env, e.pid), env, e.pid)
      else AckMap(m1, env, e.pid)
  }

  /** The writes `processLine` performs. */
  function LineEvents(m: map<int, int>, env: Env, reportsFd: int, raw: string): seq<Event> {
    match ParseMessage(raw)
    case None => []
    case Some(e) =>
      var m1 := Registered(m, env, e.pid);
      var action := ReportRequest(e.body);
      RegisterEvents(m, env, e.pid) +
      if action.NotReport? then
        Deliveries(env.order(m1.Keys), m1, env, e.pid, BroadcastText(env.hms, e.pid, e.body))
          + AckEvents(Survivors(m1, env, e.pid), env, e.pid)
      else
        ReportEvents(reportsFd, action) + AckEvents(m1, env, e.pid)
  }

  /** The registry after processing `lines` in order. */
  function LinesMap(m: map<int, int>, env: Env, lines: seq<string>): map<int, int> {
    if lines == [] then m else LineMap(LinesMap(m, env, lines[..|lines| - 1]), env, lines[|lines| - 1])
  }

  /** The writes of processing `lines` in order. */
  function LinesEvents(m: map<int, int>, env: Env, reportsFd: int, lines: seq<string>): seq<Event> {
    if lines == [] then []
    else
      var n := |lines| - 1;
      LinesEvents(m, env, reportsFd, lines[..n]) + LineEvents(LinesMap(m, env, lines[..n]), env, reportsFd, lines[n])
  }

  /** Processing one more line extends the registry fold and the trace. */
  lemma LinesSnoc(m: map<int, int>, env: Env, reportsFd: int, lines: seq<string>, line: string, t0: seq<Event>)
    ensures LinesMap(m, env, lines + [line]) == LineMap(LinesMap(m, env, lines), env, line)
    ensures t0 + LinesEvents(m, env, reportsFd, lines + [line])
         == (t0 + LinesEvents(m, env, reportsFd, lines)) + LineEvents(LinesMap(m, env, lines), env, reportsFd, line)
  {
    LastDropped(lines, line);
    AppendAssoc(t0, LinesEvents(m, env, reportsFd, lines), LineEvents(LinesMap(m, env, lines), env, reportsFd, line));
  }

  lemma LastDropped<T>(s: seq<T>, x: T)
    ensures (s + [x])[..|s|] == s && (s + [x])[|s|] == x
  {
  }

  /** One more visited entry extends the broadcast's writes. */
  lemma DeliveriesStep(order: seq<int>, i: nat, m: map<int, int>, env: Env, sender: int, text: string)
    requires i < |order|
    ensures Deliveries(order[..i + 1], m, env, sender, text)
         == Deliveries(order[..i], m, env, sender, text)
            + if order[i] != sender && order[i] in m then [Deliver(order[i], m[order[i]], text, env.writeOk(m[order[i]]))] else []
  {
    assert order[..i + 1][..i] == order[..i];
  }

  /** One more visited entry: it goes when it is not the sender's and its write failed. */
  lemma VisitedStep(m: map<int, int>, env: Env, sender: int, order: seq<int>, i: nat)
    requires i < |order| && order[i] in m && order[i] !in order[..i]
    ensures order[i] in Visited(m, env, sender, order[..i])
    ensures Visited(m, env, sender, order[..i + 1])
         == if order[i] == sender || env.writeOk(m[order[i]]) then Visited(m, env, sender, order[..i])
            else Visited(m, env, sender, order[..i]) - {order[i]}
  {
    assert order[..i + 1] == order[..i] + [order[i]];
  }

  lemma VisitedAll(m: map<int, int>, env: Env, sender: int, order: seq<int>)
    requires Enumerates(order, m.Keys)
    ensures Visited(m, env, sender, order) == Survivors(m, env, sender)
  {
  }

  lemma VisitedNone(m: map<int, int>, env: Env, sender: int)
    ensures Visited(m, env, sender, []) == m
  {
  }

  /** `processLine` on a line `parseMessage` rejects: nothing happens. */
  lemma LineRejected(m: map<int, int>, env: Env, reportsFd: int, raw: string, t0: seq<Event>)
    requires ParseMessage(raw).None?
    ensures LineMap(m, env, raw) == m
    ensures t0 + LineEvents(m, env, reportsFd, raw) == t0
  {
    assert t0 + [] == t0;
  }

  /** `processLine` on a report: register, forward, acknowledge. */
  lemma LineReport(m: map<int, int>, env: Env, reportsFd: int, raw: string, e: Envelope)
    requires ParseMessage(raw) == Some(e) && !ReportRequest(e.body).NotReport?
    ensures LineMap(m, env, raw) == AckMap(Registered(m, env, e.pid), env, e.pid)
    ensures LineEvents(m, env, reportsFd, raw)
         == RegisterEvents(m, env, e.pid) + (ReportEvents(reportsFd, ReportRequest(e.body)) + AckEvents(Registered(m, env, e.pid), env, e.pid))
  {
  }

  /** `processLine` on chat: register, broadcast, acknowledge. */
  lemma LineChat(m: map<int, int>, env: Env, reportsFd: int, raw: string, e: Envelope)
    requires ParseMessage(raw) == Some(e) && ReportRequest(e.body).NotReport?
    ensures LineMap(m, env, raw) == AckMap(Survivors(Registered(m, env, e.pid), env, e.pid), env, e.pid)
    ensures LineEvents(m, env, reportsFd, raw)
         == RegisterEvents(m, env, e.pid)
            + (Deliveries(env.order(Registered(m, env, e.pid).Keys), Registered(m, env, e.pid), env, e.pid, BroadcastText(env.hms, e.pid, e.body))
               + AckEvents(Survivors(Registered(m, env, e.pid), env, e.pid), env, e.pid))
  {
  }

  lemma Concat3<T>(t0: seq<T>, a: seq<T>, b: seq<T>, c: seq<T>)
    ensures ((t0 + a) + b) + c == t0 + (a + (b + c))
  {
  }

  lemma NoEvents<T>(t: seq<T>)
    ensures t + [] == t
  {
  }

  // ---------- properties of a broadcast and of one line ----------

  /** `ev` is the rebroadcast write to `p`'s registered descriptor. */
  predicate DeliveredTo(ev: Event, p: int, m: map<int, int>, env: Env, text: string) {
    p in m && ev == Deliver(p, m[p], text, env.writeOk(m[p]))
  }

  /** Every write of a broadcast goes to a visited registered peer other
      than the sender, with that peer's descriptor; every such peer is
      written to; and no peer twice when the order has no repetition. */
  lemma {:induction false} DeliveriesTargets(order: seq<int>, m: map<int, int>, env: Env, sender: int, text: string)
    ensures forall k :: 0 <= k < |Deliveries(order, m, env, sender, text)| ==>
              var ev := Deliveries(order, m, env, sender, text)[k];
              ev.Deliver? && ev.pid != sender && ev.pid in order && DeliveredTo(ev, ev.pid, m, env, text)
    ensures forall p :: p in order && p in m && p != sender ==>
              exists k :: 0 <= k < |Deliveries(order, m, env, sender, text)| && Deliveries(order, m, env, sender, text)[k].Deliver? && Deliveries(order, m, env, sender, text)[k].pid == p
    ensures (forall i, j :: 0 <= i < j < |order| ==> order[i] != order[j]) ==>
              forall i, j :: 0 <= i < j < |Deliveries(order, m, env, sender, text)| ==>
                Deliveries(order, m, env, sender, text)[i].pid != Deliveries(order, m, env, sender, text)[j].pid
    decreases |order|
  {
    if order != [] {
      var n := |order| - 1;
      var front := order[..n];
      var p := order[n];
      DeliveriesTargets(front, m, env, sender, text);
      var d0 := Deliveries(front, m, env, sender, text);
      var last: seq<Event> := if p != sender && p in m then [Deliver(p, m[p], text, env.writeOk(m[p]))] else [];
      var d := Deliveries(order, m, env, sender, text);
      assert d == d0 + last;
      assert order == front + [p];
      forall k | 0 <= k < |d| ensures d[k].Deliver? && d[k].pid != sender && d[k].pid in order && DeliveredTo(d[k], d[k].pid, m, env, text) {
        if k < |d0| { assert d[k] == d0[k]; assert d0[k].pid in front; }
      }
      forall q | q in order && q in m && q != sender
        ensures exists k :: 0 <= k < |d| && d[k].Deliver? && d[k].pid == q
      {
        if q == p {
          assert d[|d0|].pid == q;
        } else {
          assert q in front;
          var k :| 0 <= k < |d0| && d0[k].Deliver? && d0[k].pid == q;
          assert d[k] == d0[k];
        }
      }
      if forall i, j :: 0 <= i < j < |order| ==> order[i] != order[j] {
        assert forall i, j :: 0 <= i < j < |front| ==> front[i] != front[j] by {
          forall i, j | 0 <= i < j < |front| ensures front[i] != front[j] {
            assert front[i] == order[i] && front[j] == order[j];
          }
        }
        assert p !in front by {
          forall i | 0 <= i < |front| ensures front[i] != p {
            assert front[i] == order[i];
          }
        }
        forall i, j | 0 <= i < j < |d| ensures d[i].pid != d[j].pid {
          if j < |d0| {
            assert d[i] == d0[i] && d[j] == d0[j];
          } else {
            assert d[i] == d0[i] && d0[i].pid in front;
          }
        }
      }
    }
  }

  /** `broadcastMessage` over a registry `m`: exactly one write to every
      registered peer but the sender, none to the sender; an entry goes
      exactly when its write failed, the sender's entry stays, and no
      entry changes its descriptor. */
  lemma BroadcastReaches(m: map<int, int>, env: Env, sender: int, text: string)
    requires Iterates(env)
    ensures var d := Deliveries(env.order(m.Keys), m, env, sender, text);
      && (forall p :: p in m && p != sender <==> exists k :: 0 <= k < |d| && d[k].Deliver? && d[k].pid == p)
      && (forall k :: 0 <= k < |d| ==> d[k].Deliver? && DeliveredTo(d[k], d[k].pid, m, env, text))
      && (forall i, j :: 0 <= i < j < |d| ==> d[i].pid != d[j].pid)
    ensures forall p :: p in Survivors(m, env, sender) <==> p in m && (p == sender || env.writeOk(m[p]))
    ensures forall p :: p in Survivors(m, env, sender) ==> Survivors(m, env, sender)[p] == m[p]
  {
    var order := env.order(m.Keys);
    assert Enumerates(order, m.Keys);
    DeliveriesTargets(order, m, env, sender, text);
  }

  /** `ev` is a write on `p`'s delivery channel. */
  predicate AddressedTo(ev: Event, p: int) {
    !ev.ReportLine? && ev.pid == p
  }

  /** A line `parseMessage` rejects: no registration, no write. */
  lemma InvalidLineIgnored(m: map<int, int>, env: Env, reportsFd: int, raw: string)
    requires ParseMessage(raw).None?
    ensures LineMap(m, env, raw) == m
    ensures LineEvents(m, env, reportsFd, raw) == []
  {
  }

  /** A sender seen for the first time: when its channel opens, the
      welcome is the line's first write; otherwise it is not registered
      and nothing is written to it. */
  lemma NewSender(m: map<int, int>, env: Env, reportsFd: int, raw: string, e: Envelope)
    requires ParseMessage(raw) == Some(e) && e.pid !in m
    ensures env.openFd(e.pid) >= 0 ==>
              LineEvents(m, env, reportsFd, raw)[0] == Welcome(e.pid, env.openFd(e.pid), WelcomeText(env.hms, e.pid))
    ensures env.openFd(e.pid) < 0 ==>
              e.pid !in LineMap(m, env, raw)
              && forall k :: 0 <= k < |LineEvents(m, env, reportsFd, raw)| ==> !AddressedTo(LineEvents(m, env, reportsFd, raw)[k], e.pid)
  {
    if ReportRequest(e.body).NotReport? {
      LineChat(m, env, reportsFd, raw, e);
      DeliveriesTargets(env.order(m.Keys), m, env, e.pid, BroadcastText(env.hms, e.pid, e.body));
    } else {
      LineReport(m, env, reportsFd, raw, e);
    }
  }

  /** A report is never rebroadcast: its writes are at most a welcome, the
      line to the moderator (only for a positive target and an open
      channel) and the sender's ack. */
  lemma ReportNotBroadcast(m: map<int, int>, env: Env, reportsFd: int, raw: string, e: Envelope)
    requires ParseMessage(raw) == Some(e) && HasPrefix(e.body, ReportKey)
    ensures forall k :: 0 <= k < |LineEvents(m, env, reportsFd, raw)| ==> !LineEvents(m, env, reportsFd, raw)[k].Deliver?
    ensures (exists k :: 0 <= k < |LineEvents(m, env, reportsFd, raw)| && LineEvents(m, env, reportsFd, raw)[k].ReportLine?)
        <==> ReportRequest(e.body).Forward? && reportsFd >= 0
    ensures var m1 := Registered(m, env, e.pid);
      e.pid in m1 ==> LineEvents(m, env, reportsFd, raw)[|LineEvents(m, env, reportsFd, raw)| - 1]
                      == Ack(e.pid, m1[e.pid], AckText(env.hms), env.writeOk(m1[e.pid]))
    ensures LineMap(m, env, raw).Keys <= Registered(m, env, e.pid).Keys
  {
    LineReport(m, env, reportsFd, raw, e);
    var r := RegisterEvents(m, env, e.pid);
    if ReportRequest(e.body).Forward? && reportsFd >= 0 {
      assert LineEvents(m, env, reportsFd, raw)[|r|].ReportLine?;
    }
  }

  /** A chat line is acknowledged last, after the broadcast, when the sender
      still holds an entry. */
  lemma ChatAckedLast(m: map<int, int>, env: Env, reportsFd: int, raw: string, e: Envelope)
    requires Iterates(env)
    requires ParseMessage(raw) == Some(e) && !HasPrefix(e.body, ReportKey)
    ensures var m1 := Registered(m, env, e.pid);
      e.pid in m1 ==> LineEvents(m, env, reportsFd, raw)[|LineEvents(m, env, reportsFd, raw)| - 1]
                      == Ack(e.pid, m1[e.pid], AckText(env.hms), env.writeOk(m1[e.pid]))
    ensures var m1 := Registered(m, env, e.pid);
      e.pid in m1 ==> (e.pid in LineMap(m, env, raw) <==> env.writeOk(m1[e.pid]))
  {
    LineChat(m, env, reportsFd, raw, e);
    BroadcastReaches(Registered(m, env, e.pid), env, e.pid, BroadcastText(env.hms, e.pid, e.body));
  }

  /** `processChunk` keeps no carry: text after the last `\n` of a chunk
      is lost, so a chunk ending in a partial line processes the same lines
      as the chunk without it. */
  lemma TrailingBytesDropped(s: string, tail: string)
    requires SplitLines(s).rest == [] && NoNewline(tail)
    ensures SplitLines(s + tail).lines == SplitLines(s).lines
  {
    SplitLinesAppend(s, tail);
    assert [] + tail == tail;
    JoinNil(tail);
    SplitLinesUnique(tail, [], tail);
  }

  // ---------- the broker ----------

  class Broker {
    /** `writerByPid`: pid -> descriptor of that peer's delivery channel. */
    var writerByPid: map<int, int>
    /** Every write performed so far. */
    var trace: seq<Event>
    /** Descriptor of the moderator's channel (negative when it could not be opened). */
    const reportsFd: int

    constructor (reportsFd: int)
      ensures writerByPid == map[] && trace == [] && this.reportsFd == reportsFd
    {
      writerByPid := map[];
      trace := [];
      this.reportsFd := reportsFd;
    }

    /** `sendAck`: nothing for an unregistered sender; otherwise one ack
        write, and the entry is dropped if that write fails. */
    method SendAck(env: Env, sender: int)
      modifies this
      ensures writerByPid == AckMap(old(writerByPid), env, sender)
      ensures trace == old(trace) + AckEvents(old(writerByPid), env, sender)
    {
      if sender !in writerByPid { return; }
      var fd := writerByPid[sender];
      var ok := env.writeOk(fd);
      trace := trace + [Ack(sender, fd, AckText(env.hms), ok)];
      if !ok {
        writerByPid := writerByPid - {sender};
      }
    }

    /** `broadcastMessage`: one write to every registered peer but the
        sender, in the map's iteration order; an entry whose write fails is
        erased and the iteration goes on. */
    method Broadcast(env: Env, sender: int, message: string)
      requires Iterates(env)
      modifies this
      ensures writerByPid == Survivors(old(writerByPid), env, sender)
      ensures trace == old(trace) + Deliveries(env.order(old(writerByPid).Keys), old(writerByPid), env, sender, BroadcastText(env.hms, sender, message))
    {
      var line := BroadcastText(env.hms, sender, message);
      ghost var m0 := writerByPid;
      var order := env.order(writerByPid.Keys);
      assert Enumerates(order, m0.Keys);
      VisitedNone(m0, env, sender);
      var i := 0;
      while i < |order|
        invariant 0 <= i <= |order|
        invariant writerByPid == Visited(m0, env, sender, order[..i])
        invariant trace == old(trace) + Deliveries(order[..i], m0, env, sender, line)
      {
        var p := order[i];
        assert p !in order[..i];
        VisitedStep(m0, env, sender, order, i);
        DeliveriesStep(order, i, m0, env, sender, line);
        if p != sender {
          var fd := writerByPid[p];
          var ok := env.writeOk(fd);
          trace := trace + [Deliver(p, fd, line, ok)];
          if !ok {
            writerByPid := writerByPid - {p};
          }
        } else {
          NoEvents(trace);
        }
        i := i + 1;
      }
      assert order[..i] == order;
      VisitedAll(m0, env, sender, order);
    }

    /** `handleReportIfAny`: true for a body starting with `reportar `; a
        positive target is written to the moderator's channel. */
    method HandleReportIfAny(message: string) returns (isReport: bool)
      modifies this
      ensures isReport == !ReportRequest(message).NotReport?
      ensures writerByPid == old(writerByPid)
      ensures trace == old(trace) + ReportEvents(reportsFd, ReportRequest(message))
    {
      if !HasPrefix(message, ReportKey) {
        return false;
      }
      var n := Stol(message[|ReportKey|..]);
      if n.Some? && n.value.value > 0 && reportsFd >= 0 {
        trace := trace + [ReportLine(reportsFd, ReportText(n.value.value))];
      }
      return true;
    }

    /** `processLine`: an invalid line is dropped; otherwise the sender is
        registered if new, then the body is either forwarded as a report or
        broadcast, and the sender is acknowledged. */
    method ProcessLine(env: Env, raw: string)
      requires Iterates(env)
      modifies this
      ensures writerByPid == LineMap(old(writerByPid), env, raw)
      ensures trace == old(trace) + LineEvents(old(writerByPid), env, reportsFd, raw)
    {
      ghost var m0, t0 := writerByPid, trace;
      var parsed := ParseMessage(raw);
      if parsed.None? {
        LineRejected(m0, env, reportsFd, raw, t0);
        return;
      }
      var sender, message := parsed.value.pid, parsed.value.body;
      if sender !in writerByPid {
        var fd := env.openFd(sender);
        if fd >= 0 {
          writerByPid := writerByPid[sender := fd];
          trace := trace + [Welcome(sender, fd, WelcomeText(env.hms, sender))];
        }
      }
      ghost var m1, t1 := writerByPid, trace;
      assert m1 == Registered(m0, env, sender);
      assert t1 == t0 + RegisterEvents(m0, env, sender);
      var isReport := HandleReportIfAny(message);
      if isReport {
        SendAck(env, sender);
        LineReport(m0, env, reportsFd, raw, parsed.value);
        Concat3(t0, RegisterEvents(m0, env, sender), ReportEvents(reportsFd, ReportRequest(message)), AckEvents(m1, env, sender));
        return;
      }
      NoEvents(t1);
      Broadcast(env, sender, message);
      ghost var m2 := writerByPid;
      SendAck(env, sender);
      LineChat(m0, env, reportsFd, raw, parsed.value);
      Concat3(t0, RegisterEvents(m0, env, sender), Deliveries(env.order(m1.Keys), m1, env, sender, BroadcastText(env.hms, sender, message)), AckEvents(m2, env, sender));
    }

    /** `processChunk`: the complete lines of the first `bytesRead` bytes, in
        order; bytes after the last `\n` are discarded. */
    method ProcessChunk(env: Env, buffer: string, bytesRead: int)
      requires Iterates(env)
      requires bytesRead <= |buffer|
      modifies this
      ensures var lines := if bytesRead <= 0 then [] else SplitLines(buffer[..bytesRead]).lines;
        && writerByPid == LinesMap(old(writerByPid), env, lines)
        && trace == old(trace) + LinesEvents(old(writerByPid), env, reportsFd, lines)
    {
      if bytesRead <= 0 {
        NoEvents(trace);
        return;
      }
      var chunk := buffer[..bytesRead];
      ghost var m0, t0 := writerByPid, trace;
      ghost var done: seq<string> := [];
      var pos := 0;
      NoEvents(t0);
      while true
        invariant 0 <= pos <= |chunk|
        invariant done + LinesFrom(chunk, pos) == LinesFrom(chunk, 0)
        invariant writerByPid == LinesMap(m0, env, done)
        invariant trace == t0 + LinesEvents(m0, env, reportsFd, done)
        decreases |chunk| - pos
      {
        var nl := Find(chunk, '\n', pos);
        if nl < 0 {
          ScanDone(chunk, pos, done);
          break;
        }
        var line := chunk[pos..nl];
        ScanStep(chunk, pos, nl, done);
        pos := nl + 1;
        ProcessLine(env, line);
        LinesSnoc(m0, env, reportsFd, done, line, t0);
        done := done + [line];
      }
    }
  }
}
