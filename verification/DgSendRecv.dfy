/**
 * Reliable requests over UDP: `dg_send_recv` retransmits until a reply with its sequence
 * number arrives, the server echoes datagrams, the network loses, duplicates, delays and
 * reorders them.
 */
module DgSendRecv {
  import opened Prelude
  import opened Rtt

  const MAXLINE: nat := 4096
  const HEADER: nat := 8

  /** 32-bit arithmetic of `sendhdr.seq` and of timestamps. */
  function U32(x: int): (r: nat)
    ensures r < 0x1_0000_0000
  {
    x % 0x1_0000_0000
  }

  /** `rtt_ts` at `now` milliseconds on the clock: milliseconds since second `base`. */
  function Timestamp(now: nat, base: nat): nat
  {
    U32(now - 1000 * base)
  }

  /** A datagram of at least a header; shorter ones carry nothing the client looks at. */
  datatype Msg = Msg(sq: nat, ts: nat, data: seq<byte>)

  function Cut(data: seq<byte>, n: nat): (r: seq<byte>)
    ensures r <= data && |r| == if |data| <= n then |data| else n
  {
    if |data| <= n then data else data[..n]
  }

  /** `dg_echo`: what came in, as much of it as the buffer held. */
  function Echo(m: Msg): Msg
  {
    m.(data := Cut(m.data, MAXLINE - HEADER))
  }

  // ---------- the client ----------

  datatype Outcome = Nothing | Reply(data: seq<byte>, sample: nat) | TimedOutError

  datatype Pc = Idle(last: Outcome) | Waiting(data: seq<byte>, inbytes: nat)

  /** The static variables of the client, and where it is. */
  datatype Client = Client(pc: Pc, sq: nat, inited: bool, est: Est)

  function Transmission(c: Client, now: nat): Msg
    requires c.pc.Waiting?
  {
    Msg(c.sq, Timestamp(now, c.est.base), c.pc.data)
  }

  /** Up to the first `sendmsg`. */
  function Begin(c: Client, now: nat, data: seq<byte>, inbytes: nat): Client
  {
    var est := if c.inited then c.est else Initial(now / 1000);
    Client(Waiting(data, inbytes), U32(c.sq + 1), true, est.(nrexmt := 0))
  }

  /** The alarm: back to `sendagain`, or out with ETIMEDOUT. */
  function OnAlarm(c: Client): Client
  {
    var est := TimedOut(c.est);
    if GivesUp(est) then Client(Idle(TimedOutError), c.sq, false, est) else c.(est := est)
  }

  /** A datagram: ignored for a wrong sequence number, otherwise the reply. */
  function OnDatagram(c: Client, now: nat, m: Msg): Client
    requires c.pc.Waiting?
  {
    if m.sq != c.sq then c
    else
      var ms := U32(Timestamp(now, c.est.base) - m.ts);
      Client(Idle(Reply(Cut(m.data, c.pc.inbytes), ms)), c.sq, c.inited, Sampled(c.est, ms as real / 1000.0))
  }

  /** The same, on the variables themselves; a call is cut where it blocks in `recvmsg`. */
  class Caller {
    const rttinfo: RttInfo
    var rttinit: bool
    var sendSeq: nat
    var pc: Pc

    constructor ()
      ensures fresh(rttinfo) && !rttinit && sendSeq == 0 && pc == Idle(Nothing)
    {
      rttinfo := new RttInfo();
      rttinit, sendSeq, pc := false, 0, Idle(Nothing);
    }

    function View(): Client
      reads this, rttinfo
    {
      Client(pc, sendSeq, rttinit, rttinfo.View())
    }

    method Send(now: nat) returns (m: Msg, alarm: int)
      requires pc.Waiting?
      ensures m == Transmission(View(), now) && alarm == Alarm(rttinfo.View())
    {
      m := Msg(sendSeq, U32(now - 1000 * rttinfo.rtt_base), pc.data);
      alarm := rttinfo.Start();
    }

    method Call(now: nat, data: seq<byte>, inbytes: nat) returns (m: Msg, alarm: int)
      requires pc.Idle?
      modifies this, rttinfo
      ensures View() == Begin(old(View()), now, data, inbytes)
      ensures m == Transmission(View(), now) && alarm == Alarm(View().est)
    {
      if !rttinit {
        rttinfo.Init(now / 1000);
        rttinit := true;
      }
      sendSeq := U32(sendSeq + 1);
      pc := Waiting(data, inbytes);
      rttinfo.NewPack();
      m, alarm := Send(now);
    }

    /** `sigsetjmp` returning from the signal handler. */
    method Alarmed(now: nat) returns (again: Option<(Msg, int)>)
      requires pc.Waiting?
      modifies this, rttinfo
      ensures View() == OnAlarm(old(View()))
      ensures again == if pc.Waiting? then Some((Transmission(View(), now), Alarm(View().est))) else None
    {
      var rc := rttinfo.Timeout();
      if rc < 0 {
        rttinit := false;
        pc := Idle(TimedOutError);
        return None;
      }
      var m, alarm := Send(now);
      return Some((m, alarm));
    }

    /** `recvmsg` returning a datagram of `HEADER + |m.data|` bytes; a number is the return value. */
    method Received(now: nat, m: Msg) returns (n: Option<nat>)
      requires pc.Waiting?
      modifies this, rttinfo
      ensures View() == OnDatagram(old(View()), now, m)
      ensures n == if m.sq == sendSeq then Some(|pc.last.data|) else None
    {
      if m.sq != sendSeq {
        return None;
      }
      var inbuff := Cut(m.data, pc.inbytes);
      var ms := U32(U32(now - 1000 * rttinfo.rtt_base) - m.ts);
      rttinfo.Stop(ms);
      pc := Idle(Reply(inbuff, ms));
      return Some(|inbuff|);
    }
  }

  // ---------- client, server and network ----------

  /** A transmission actually made: for which call, when, with which timestamp and data. */
  datatype Sent = Sent(call: nat, at: nat, ts: nat, data: seq<byte>)

  /** Every datagram ever sent stays available for delivery, any number of times, or never. */
  datatype State = State(
    client: Client, now: nat, calls: nat, sent: seq<Sent>, requests: set<Msg>, replies: set<Msg>)

  function Init(now: nat): State
  {
    State(Client(Idle(Nothing), 0, false, Initial(now / 1000)), now, 0, [], {}, {})
  }

  datatype Event =
    | Tick(ms: nat)
    | Call(data: seq<byte>, inbytes: nat)
    | AlarmRings
    | Serve(m: Msg)
    | Deliver(m: Msg)
    | DeliverShort(n: nat)

  predicate Enabled(s: State, e: Event)
  {
    match e
    case Tick(_) => true
    case Call(_, _) => s.client.pc.Idle?
    case AlarmRings => s.client.pc.Waiting?
    case Serve(m) => m in s.requests
    case Deliver(m) => s.client.pc.Waiting? && m in s.replies
    case DeliverShort(n) => s.client.pc.Waiting? && n < HEADER
  }

  function Transmit(s: State): State
    requires s.client.pc.Waiting?
  {
    var m := Transmission(s.client, s.now);
    s.(requests := s.requests + {m}, sent := s.sent + [Sent(s.calls, s.now, m.ts, m.data)])
  }

  function Next(s: State, e: Event): State
    requires Enabled(s, e)
  {
    match e
    case Tick(ms) => s.(now := s.now + ms)
    case Call(data, inbytes) =>
      Transmit(s.(client := Begin(s.client, s.now, data, inbytes), calls := s.calls + 1))
    case AlarmRings =>
      var t := s.(client := OnAlarm(s.client));
      if t.client.pc.Waiting? then Transmit(t) else t
    case Serve(m) => s.(replies := s.replies + {Echo(m)})
    case Deliver(m) => s.(client := OnDatagram(s.client, s.now, m))
    case DeliverShort(_) => s
  }

  // ---------- what every run keeps ----------

  /** `m` is transmission `x`, or its echo. */
  predicate Carries(x: Sent, m: Msg)
  {
    m.sq == U32(x.call) && m.ts == x.ts && (m.data == x.data || m.data == Cut(x.data, MAXLINE - HEADER))
  }

  ghost predicate Known(s: State, m: Msg)
  {
    exists k :: 0 <= k < |s.sent| && Carries(s.sent[k], m)
  }

  ghost predicate EchoOf(s: State, m: Msg)
  {
    exists k :: 0 <= k < |s.sent| && Carries(s.sent[k], m) && m.data == Cut(s.sent[k].data, MAXLINE - HEADER)
  }

  /** Transmissions are logged in the order of their calls, at most four for each. */
  ghost predicate Log(sent: seq<Sent>, calls: nat, now: nat)
  {
    && (forall k :: 0 <= k < |sent| ==> 1 <= sent[k].call <= calls && sent[k].at <= now)
    && (forall a, b :: 0 <= a <= b < |sent| ==>
          sent[a].call <= sent[b].call && (sent[a].call == sent[b].call ==> b - a <= RTT_MAXNREXMT))
  }

  /** The transmissions of the call in progress are those at the end of the log. */
  ghost predicate CallLog(sent: seq<Sent>, call: nat, nrexmt: nat, data: seq<byte>, base: nat)
  {
    && |sent| > nrexmt
    && (forall k :: 0 <= k < |sent| ==> (sent[k].call == call <==> k >= |sent| - 1 - nrexmt))
    && (forall k :: 0 <= k < |sent| && sent[k].call == call ==>
          sent[k].data == data && sent[k].ts == Timestamp(sent[k].at, base))
  }

  ghost predicate Current(s: State)
  {
    var c := s.client;
    c.pc.Waiting? ==>
      && c.inited
      && CallLog(s.sent, s.calls, c.est.nrexmt, c.pc.data, c.est.base)
      && !GivesUp(c.est)
      && BackingOff(c.est)
  }

  ghost predicate BackingOff(e: Est)
  {
    exists rto0 :: Backing(e, rto0)
  }

  ghost predicate Inv(s: State)
  {
    && s.client.sq == U32(s.calls)
    && Log(s.sent, s.calls, s.now)
    && (forall m :: m in s.requests ==> Known(s, m))
    && (forall m :: m in s.replies ==> EchoOf(s, m))
    && (s.client.pc.Idle? && s.client.inited ==> RTT_RXTMIN <= s.client.est.rto <= RTT_RXTMAX)
    && Current(s)
  }

  // ---------- each step keeps the invariant ----------

  lemma InitInv(now: nat)
    ensures Inv(Init(now))
  {
  }

  /** More transmissions take nothing away from what datagrams are known to be. */
  lemma KnownStays(s: State, t: State)
    requires s.sent <= t.sent
    ensures forall m :: Known(s, m) ==> Known(t, m)
    ensures forall m :: EchoOf(s, m) ==> EchoOf(t, m)
  {
    forall m | Known(s, m) ensures Known(t, m) {
      var k :| 0 <= k < |s.sent| && Carries(s.sent[k], m);
      assert t.sent[k] == s.sent[k];
    }
    forall m | EchoOf(s, m) ensures EchoOf(t, m) {
      var k :| 0 <= k < |s.sent| && Carries(s.sent[k], m) && m.data == Cut(s.sent[k].data, MAXLINE - HEADER);
      assert t.sent[k] == s.sent[k];
    }
  }

  lemma TransmitKnown(s: State)
    requires s.client.pc.Waiting? && s.client.sq == U32(s.calls)
    ensures Known(Transmit(s), Transmission(s.client, s.now))
  {
    var t := Transmit(s);
    assert Carries(t.sent[|s.sent|], Transmission(s.client, s.now));
  }

  lemma U32Next(x: nat)
    ensures U32(U32(x) + 1) == U32(x + 1)
  {
  }

  lemma BackingStarts(e: Est)
    requires RTT_RXTMIN <= e.rto <= RTT_RXTMAX && e.nrexmt == 0
    ensures BackingOff(e) && !GivesUp(e)
  {
    assert Backing(e, e.rto);
  }

  lemma BeginReady(c: Client, now: nat, data: seq<byte>, inbytes: nat)
    requires c.pc.Idle? && (c.inited ==> RTT_RXTMIN <= c.est.rto <= RTT_RXTMAX)
    ensures var b := Begin(c, now, data, inbytes);
            && b.pc == Waiting(data, inbytes) && b.inited && b.sq == U32(c.sq + 1)
            && b.est.nrexmt == 0 && BackingOff(b.est) && !GivesUp(b.est)
  {
    BackingStarts(Begin(c, now, data, inbytes).est);
  }

  lemma CallKeeps(s: State, data: seq<byte>, inbytes: nat)
    requires Inv(s) && s.client.pc.Idle?
    ensures Inv(Next(s, Call(data, inbytes)))
  {
    var b := Begin(s.client, s.now, data, inbytes);
    BeginReady(s.client, s.now, data, inbytes);
    U32Next(s.calls);
    LogStarts(s.sent, s.calls, s.now, data, b.est.base);
    FirstKeeps(s, b, Next(s, Call(data, inbytes)));
  }

  lemma FirstKeeps(s: State, b: Client, t: State)
    requires Inv(s) && b.pc.Waiting? && b.inited && b.sq == U32(s.calls + 1)
    requires b.est.nrexmt == 0 && BackingOff(b.est) && !GivesUp(b.est)
    requires var more := s.sent + [Sent(s.calls + 1, s.now, Timestamp(s.now, b.est.base), b.pc.data)];
             Log(more, s.calls + 1, s.now) && CallLog(more, s.calls + 1, 0, b.pc.data, b.est.base)
    requires t == Transmit(s.(client := b, calls := s.calls + 1))
    ensures Inv(t)
  {
    KnownStays(s, t);
    TransmitKnown(s.(client := b, calls := s.calls + 1));
  }

  lemma BackingOffStep(e: Est)
    requires BackingOff(e)
    ensures BackingOff(TimedOut(e))
  {
    var rto0 :| Backing(e, rto0);
    BackingStep(e, rto0);
  }

  /** One more transmission of the call in progress is still at most the fourth. */
  lemma LogGrows(sent: seq<Sent>, call: nat, now: nat, nrexmt: nat, data: seq<byte>, base: nat)
    requires Log(sent, call, now) && CallLog(sent, call, nrexmt, data, base) && nrexmt < RTT_MAXNREXMT
    ensures var more := sent + [Sent(call, now, Timestamp(now, base), data)];
            Log(more, call, now) && CallLog(more, call, nrexmt + 1, data, base)
  {
    assert sent[|sent| - 1].call == call;
  }

  /** The first transmission of a call. */
  lemma LogStarts(sent: seq<Sent>, calls: nat, now: nat, data: seq<byte>, base: nat)
    requires Log(sent, calls, now)
    ensures var more := sent + [Sent(calls + 1, now, Timestamp(now, base), data)];
            Log(more, calls + 1, now) && CallLog(more, calls + 1, 0, data, base)
  {
  }

  lemma AlarmKeeps(s: State)
    requires Inv(s) && s.client.pc.Waiting?
    ensures Inv(Next(s, AlarmRings))
  {
    var u := s.(client := OnAlarm(s.client));
    if u.client.pc.Waiting? {
      var t := Transmit(u);
      KnownStays(s, t);
      TransmitKnown(u);
      BackingOffStep(s.client.est);
      LogGrows(s.sent, s.calls, s.now, s.client.est.nrexmt, s.client.pc.data, s.client.est.base);
    } else {
      KnownStays(s, u);
    }
  }

  lemma ServeKeeps(s: State, m: Msg)
    requires Inv(s) && m in s.requests
    ensures Inv(Next(s, Serve(m)))
  {
    var t := Next(s, Serve(m));
    KnownStays(s, t);
    var k :| 0 <= k < |s.sent| && Carries(s.sent[k], m);
    assert Carries(t.sent[k], Echo(m));
    assert EchoOf(t, Echo(m));
  }

  lemma StepKeeps(s: State, e: Event)
    requires Inv(s) && Enabled(s, e)
    ensures Inv(Next(s, e))
  {
    KnownStays(s, Next(s, e));
    match e
    case Tick(_) => assert Current(Next(s, e));
    case Call(data, inbytes) => CallKeeps(s, data, inbytes);
    case AlarmRings => AlarmKeeps(s);
    case Serve(m) => ServeKeeps(s, m);
    case Deliver(m) =>
    case DeliverShort(_) =>
  }

  // ---------- runs ----------

  ghost predicate IsRun(s: State, es: seq<Event>, t: State)
    decreases |es|
  {
    if es == [] then s == t
    else Enabled(s, es[0]) && IsRun(Next(s, es[0]), es[1..], t)
  }

  ghost predicate Reachable(s: State)
  {
    exists now: nat, es :: IsRun(Init(now), es, s)
  }

  lemma {:induction false} RunKeeps(s: State, es: seq<Event>, t: State)
    requires Inv(s) && IsRun(s, es, t)
    ensures Inv(t)
    decreases |es|
  {
    if es != [] {
      StepKeeps(s, es[0]);
      RunKeeps(Next(s, es[0]), es[1..], t);
    }
  }

  lemma ReachableInv(s: State)
    requires Reachable(s)
    ensures Inv(s)
  {
    var now: nat, es :| IsRun(Init(now), es, s);
    InitInv(now);
    RunKeeps(Init(now), es, s);
  }

  // ---------- what a successful call returns ----------

  /** The reply is the echo of a request of some call with the same 32-bit number. */
  lemma ReplyIsAnEcho(s: State, m: Msg) returns (x: Sent)
    requires Reachable(s) && Enabled(s, Deliver(m)) && Next(s, Deliver(m)).client.pc.Idle?
    ensures x in s.sent && Carries(x, m) && m.data == Cut(x.data, MAXLINE - HEADER)
    ensures 1 <= x.call <= s.calls && U32(x.call) == U32(s.calls) && x.at <= s.now
  {
    ReachableInv(s);
    assert EchoOf(s, m);
    var k :| 0 <= k < |s.sent| && Carries(s.sent[k], m) && m.data == Cut(s.sent[k].data, MAXLINE - HEADER);
    x := s.sent[k];
  }

  lemma SmallCallsDiffer(a: nat, b: nat)
    requires 1 <= a <= b <= 0x1_0000_0000 && U32(a) == U32(b)
    ensures a == b
  {
  }

  lemma ElapsedMod(now: nat, at: nat, base: nat)
    ensures U32(Timestamp(now, base) - Timestamp(at, base)) == U32(now - at)
  {
    var x, y := now - 1000 * base, at - 1000 * base;
    var i, j := x / 0x1_0000_0000, y / 0x1_0000_0000;
    assert x - y == (U32(x) - U32(y)) + (i - j) * 0x1_0000_0000;
    WholeTurns(U32(x) - U32(y), i - j);
  }

  lemma WholeTurns(x: int, k: int)
    ensures U32(x + k * 0x1_0000_0000) == U32(x)
  {
  }

  /**
   * As long as sequence numbers have not wrapped, a call that succeeds returns the echo of its
   * own request, cut to the buffers on the way; and the round-trip sample is the time since
   * a transmission actually made for this request, however often it was retransmitted.
   */
  lemma SuccessIsCurrent(s: State, m: Msg) returns (x: Sent)
    requires Reachable(s) && Enabled(s, Deliver(m)) && Next(s, Deliver(m)).client.pc.Idle?
    requires s.calls <= 0x1_0000_0000
    ensures var r := Next(s, Deliver(m)).client.pc.last;
            && r.Reply?
            && r.data == Cut(Cut(s.client.pc.data, MAXLINE - HEADER), s.client.pc.inbytes)
            && x in s.sent && x.call == s.calls && x.at <= s.now
            && r.sample == U32(s.now - x.at)
            && (s.now - x.at < 0x1_0000_0000 ==> r.sample == s.now - x.at)
  {
    x := ReplyIsAnEcho(s, m);
    ReachableInv(s);
    SmallCallsDiffer(x.call, s.calls);
    ElapsedMod(s.now, x.at, s.client.est.base);
  }

  /** Each request is sent at most four times. */
  lemma AtMostFourTransmissions(s: State, a: nat, b: nat)
    requires Reachable(s) && a <= b < |s.sent| && s.sent[a].call == s.sent[b].call
    ensures b - a + 1 <= 4
    ensures forall k :: a <= k <= b ==> s.sent[k].call == s.sent[a].call
  {
    ReachableInv(s);
    forall k | a <= k <= b ensures s.sent[k].call == s.sent[a].call {
      assert s.sent[a].call <= s.sent[k].call <= s.sent[b].call;
    }
  }

  /** A request that is never answered is given up on after 30 to 900 seconds of waiting. */
  lemma RequestGivesUpWithin(s: State, data: seq<byte>, inbytes: nat)
    requires Reachable(s) && s.client.pc.Idle?
    ensures 30 <= AlarmsFrom(Begin(s.client, s.now, data, inbytes).est) <= 900
  {
    ReachableInv(s);
    GivesUpWithin(Begin(s.client, s.now, data, inbytes).est);
  }

  /** The timeout is in range whenever a request starts, and so are all the alarms of a request. */
  lemma TimeoutsInRange(s: State)
    requires Reachable(s)
    ensures s.client.pc.Idle? ==>
              forall data, inbytes ::
                2.0 <= Begin(s.client, s.now, data, inbytes).est.rto <= 60.0
    ensures s.client.pc.Waiting? ==> 2 <= Alarm(s.client.est) <= 480
  {
    ReachableInv(s);
    if s.client.pc.Waiting? {
      var rto0 :| Backing(s.client.est, rto0);
      AlarmBounds(s.client.est, rto0);
    }
  }

  // ---------- what each step does to the estimators and the log ----------

  /**
   * What a success leaves for the next request. With `d` the seconds since the transmission `x`
   * less the smoothed time so far, positive or not: the smoothed time moves by an eighth of it, the
   * deviation by a quarter of what separates it from the size of `d`, and the timeout is the
   * smoothed time and four deviations, brought between 2 and 60.
   */
  lemma EstimatorsLearn(s: State, m: Msg) returns (x: Sent)
    requires Reachable(s) && Enabled(s, Deliver(m)) && Next(s, Deliver(m)).client.pc.Idle?
    requires s.calls <= 0x1_0000_0000
    ensures x in s.sent && x.call == s.calls && x.at <= s.now
    ensures s.now - x.at < 0x1_0000_0000 ==>
              var before, after, t := s.client.est, Next(s, Deliver(m)).client.est, (s.now - x.at) as real / 1000.0;
              var d := t - before.srtt;
              && after.rtt == t
              && after.srtt == before.srtt + d / 8.0
              && (d >= 0.0 ==> after.rttvar == before.rttvar + (d - before.rttvar) / 4.0)
              && (d < 0.0 ==> after.rttvar == before.rttvar + (-d - before.rttvar) / 4.0)
              && var r := after.srtt + 4.0 * after.rttvar;
                 && (r < 2.0 ==> after.rto == 2.0) && (r > 60.0 ==> after.rto == 60.0)
                 && (2.0 <= r <= 60.0 ==> after.rto == r)
    ensures var t := Next(s, Deliver(m));
            t.client.inited && t.client.est.base == s.client.est.base && t.sent == s.sent && t.calls == s.calls
  {
    x := SuccessIsCurrent(s, m);
    ReachableInv(s);
  }

  /** A datagram ends the call exactly when it carries the number of the call; others change nothing. */
  lemma OnlyItsNumberEnds(s: State, m: Msg)
    requires Reachable(s) && Enabled(s, Deliver(m))
    ensures Next(s, Deliver(m)).client.pc.Idle? <==> m.sq == U32(s.calls)
    ensures m.sq != U32(s.calls) ==> Next(s, Deliver(m)) == s
  {
    ReachableInv(s);
  }

  /** How many transmissions were made for a call. */
  function Made(sent: seq<Sent>, call: nat): nat
  {
    if sent == [] then 0 else Made(sent[..|sent| - 1], call) + (if sent[|sent| - 1].call == call then 1 else 0)
  }

  lemma {:induction false} MadeIs(sent: seq<Sent>, call: nat, n: nat)
    requires n <= |sent| && forall k :: 0 <= k < |sent| ==> (sent[k].call == call <==> k >= |sent| - n)
    ensures Made(sent, call) == n
  {
    if sent != [] {
      var front := sent[..|sent| - 1];
      assert forall k :: 0 <= k < |front| ==> front[k] == sent[k];
      MadeIs(front, call, if n == 0 then 0 else n - 1);
    }
  }

  /**
   * An alarm. After fewer than four transmissions the same data is sent again, for the same call
   * and with the time of now, and the timeout is twice as long; after the fourth the call fails
   * and the estimators are forgotten.
   */
  lemma AlarmSendsAgain(s: State)
    requires Reachable(s) && s.client.pc.Waiting?
    ensures var n, t, c := Made(s.sent, s.calls), Next(s, AlarmRings), s.client;
            && 1 <= n <= 4
            && (n < 4 ==>
                  && t.client.pc == c.pc && t.client.est.rto == 2.0 * c.est.rto
                  && t.sent == s.sent + [Sent(s.calls, s.now, Timestamp(s.now, c.est.base), c.pc.data)]
                  && t.requests == s.requests + {Msg(U32(s.calls), Timestamp(s.now, c.est.base), c.pc.data)})
            && (n == 4 ==>
                  t.client.pc == Idle(TimedOutError) && !t.client.inited && t.sent == s.sent && t.requests == s.requests)
  {
    ReachableInv(s);
    MadeIs(s.sent, s.calls, s.client.est.nrexmt + 1);
  }

  /**
   * A call. Its data is sent once, with the next number; the estimators are those of the call
   * before, or new ones with a timeout of 3 seconds.
   */
  lemma CallSendsOnce(s: State, data: seq<byte>, inbytes: nat)
    requires Reachable(s) && s.client.pc.Idle?
    ensures var t := Next(s, Call(data, inbytes));
            var e := t.client.est;
            && t.client.pc == Waiting(data, inbytes) && t.calls == s.calls + 1
            && t.sent == s.sent + [Sent(t.calls, s.now, Timestamp(s.now, e.base), data)]
            && t.requests == s.requests + {Msg(U32(t.calls), Timestamp(s.now, e.base), data)}
            && (s.client.inited ==> e == s.client.est.(nrexmt := 0))
            && (!s.client.inited ==> e.srtt == 0.0 && e.rttvar == 0.75 && e.rto == 3.0 && e.base == s.now / 1000)
  {
    ReachableInv(s);
    U32Next(s.calls);
  }
}
