/**
 * The signal-driven UDP echo server: a SIGIO handler reads datagrams into a ring that the main
 * loop empties, sharing `iput`, `iget` and `nqueue` with it. The signal may arrive wherever it
 * is not blocked.
 */
module SigioQueue {
  import opened Prelude

  const QSIZE: nat := 8

  // ---------- the ring ----------

  /** `n` datagrams from slot `base` on, oldest first. */
  function Queued(dg: seq<int>, base: nat, n: nat): (q: seq<int>)
    requires |dg| == QSIZE && base < QSIZE && n <= QSIZE
    ensures |q| == n
  {
    seq(n, j requires 0 <= j < n => dg[Slot(base, j, QSIZE)])
  }

  lemma QueuedPut(dg: seq<int>, base: nat, n: nat, d: int)
    requires |dg| == QSIZE && base < QSIZE && n < QSIZE
    ensures Queued(dg[Slot(base, n, QSIZE) := d], base, n + 1) == Queued(dg, base, n) + [d]
  {
  }

  lemma QueuedTake(dg: seq<int>, base: nat, n: nat)
    requires |dg| == QSIZE && base < QSIZE && 0 < n <= QSIZE
    ensures Queued(dg, base, n) == [dg[base]] + Queued(dg, Slot(base, 1, QSIZE), n - 1)
  {
  }

  // ---------- the handler and the main loop on the variables themselves ----------

  class EchoQueue {
    const dg: array<int>
    const cntread: array<nat>
    var iget: nat
    var iput: nat
    var nqueue: nat

    ghost predicate Valid()
      reads this, dg, cntread
    {
      && dg.Length == QSIZE && cntread.Length == QSIZE + 1
      && iget < QSIZE && nqueue <= QSIZE && iput == Slot(iget, nqueue, QSIZE)
    }

    function Contents(): seq<int>
      requires Valid()
      reads this, dg, cntread
    {
      Queued(dg[..], iget, nqueue)
    }

    constructor ()
      ensures Valid() && fresh(dg) && fresh(cntread) && nqueue == 0
    {
      dg := new int[QSIZE];
      cntread := new nat[QSIZE + 1](_ => 0);
      iget, iput, nqueue := 0, 0, 0;
    }

    /** A datagram read into the free slot. */
    method Store(d: int)
      requires Valid() && nqueue < QSIZE
      modifies this`iput, this`nqueue, dg
      ensures Valid() && Contents() == old(Contents()) + [d] && nqueue == old(nqueue) + 1
    {
      QueuedPut(dg[..], iget, nqueue, d);
      ghost var before := dg[..];
      dg[iput] := d;
      assert dg[..] == before[iput := d];
      nqueue := nqueue + 1;
      iput := iput + 1;
      if iput >= QSIZE {
        iput := 0;
      }
    }

    /**
     * `sig_io` with `avail` waiting in the kernel: everything is queued, in order, unless
     * that would fill the ring; the check comes before it is known that nothing is left.
     */
    method SigIo(avail: seq<int>) returns (overflow: bool)
      requires Valid()
      modifies this`iput, this`nqueue, dg, cntread
      ensures Valid()
      ensures overflow <==> old(nqueue) + |avail| >= QSIZE
      ensures !overflow ==> Contents() == old(Contents()) + avail
      ensures !overflow ==> cntread[..] == old(cntread[..])[|avail| := old(cntread[..])[|avail|] + 1]
      ensures overflow ==> cntread[..] == old(cntread[..])
    {
      ghost var was := Contents();
      var nread := 0;
      assert was + avail[..0] == was;
      while true
        invariant Valid() && 0 <= nread <= |avail| && nqueue == old(nqueue) + nread
        invariant Contents() == was + avail[..nread]
        invariant cntread[..] == old(cntread[..])
        decreases |avail| - nread
      {
        if nqueue >= QSIZE {
          return true;
        }
        if nread == |avail| {
          break;
        }
        Store(avail[nread]);
        assert avail[..nread + 1] == avail[..nread] + [avail[nread]];
        nread := nread + 1;
      }
      assert avail[..nread] == avail;
      cntread[nread] := cntread[nread] + 1;
      return false;
    }

    /** One turn of the main loop with no signal in between: the oldest datagram is sent back. */
    method EchoOne() returns (sent: int)
      requires Valid() && nqueue > 0
      modifies this`iget, this`nqueue
      ensures Valid() && old(Contents()) == [sent] + Contents()
    {
      QueuedTake(dg[..], iget, nqueue);
      sent := dg[iget];
      iget := iget + 1;
      if iget >= QSIZE {
        iget := 0;
      }
      nqueue := nqueue - 1;
    }
  }

  // ---------- the main loop, interrupted ----------

  /**
   * `Top` and `Counting` (just before `nqueue--`) run with SIGIO blocked; in `Suspended`, and
   * from `Sending` to `Advanced`, the handler may run.
   */
  datatype Pc = Top | Suspended | Sending | Sent | Incremented | Advanced | Counting

  datatype Handler = Out | In(nread: nat)

  datatype State = State(
    pc: Pc, handler: Handler, pending: bool, aborted: bool,
    dg: seq<int>, iget: nat, iput: nat, nqueue: nat, cntread: seq<nat>,
    kernel: seq<int>, arrived: seq<int>, sent: seq<int>)

  function Init(): State
  {
    State(Top, Out, false, false, seq(QSIZE, _ => 0), 0, 0, 0, seq(QSIZE + 1, _ => 0), [], [], [])
  }

  datatype Event = Arrive(d: int) | Signal | HandlerStep | MainStep

  predicate Unblocked(pc: Pc)
  {
    pc in {Suspended, Sending, Sent, Incremented, Advanced}
  }

  predicate Enabled(s: State, e: Event)
  {
    && !s.aborted && |s.dg| == QSIZE && |s.cntread| == QSIZE + 1
    && match e
       case Arrive(_) => true
       case Signal => s.pending && s.handler.Out? && Unblocked(s.pc)
       case HandlerStep => s.handler.In? && s.iput < QSIZE && s.handler.nread <= QSIZE
       case MainStep =>
         && s.handler.Out? && !s.pc.Suspended?
         && (s.pc.Sending? ==> s.iget < QSIZE) && (s.pc.Counting? ==> s.nqueue > 0)
  }

  function HandlerNext(s: State): State
    requires Enabled(s, HandlerStep)
  {
    if s.nqueue >= QSIZE then s.(aborted := true)
    else if s.kernel == [] then
      // nothing left to read: the handler returns, and so does sigsuspend
      s.(handler := Out, cntread := s.cntread[s.handler.nread := s.cntread[s.handler.nread] + 1],
         pc := if s.pc.Suspended? then Top else s.pc)
    else
      s.(dg := s.dg[s.iput := s.kernel[0]], kernel := s.kernel[1..], handler := In(s.handler.nread + 1),
         nqueue := s.nqueue + 1, iput := if s.iput + 1 >= QSIZE then 0 else s.iput + 1)
  }

  function MainNext(s: State): State
    requires Enabled(s, MainStep)
  {
    match s.pc
    case Top => s.(pc := if s.nqueue == 0 then Suspended else Sending)
    case Sending => s.(pc := Sent, sent := s.sent + [s.dg[s.iget]])
    case Sent => s.(pc := Incremented, iget := s.iget + 1)
    case Incremented => s.(pc := Advanced, iget := if s.iget >= QSIZE then 0 else s.iget)
    case Advanced => s.(pc := Counting)
    case Counting => s.(pc := Top, nqueue := s.nqueue - 1)
  }

  function Next(s: State, e: Event): State
    requires Enabled(s, e)
  {
    match e
    case Arrive(d) => s.(kernel := s.kernel + [d], arrived := s.arrived + [d], pending := true)
    case Signal => s.(handler := In(0), pending := false)
    case HandlerStep => HandlerNext(s)
    case MainStep => MainNext(s)
  }

  // ---------- what every run keeps ----------

  /** The slot of the oldest datagram still counted in `nqueue`, whatever the main loop did to `iget`. */
  function Base(s: State): int
  {
    match s.pc
    case Incremented => s.iget - 1
    case Advanced => if s.iget == 0 then QSIZE - 1 else s.iget - 1
    case Counting => if s.iget == 0 then QSIZE - 1 else s.iget - 1
    case _ => s.iget
  }

  predicate AlreadySent(pc: Pc)
  {
    pc in {Sent, Incremented, Advanced, Counting}
  }

  ghost predicate RingOk(s: State)
  {
    && |s.dg| == QSIZE && |s.cntread| == QSIZE + 1
    && 0 <= Base(s) < QSIZE && s.nqueue <= QSIZE && s.iput == Slot(Base(s), s.nqueue, QSIZE)
    && (s.pc.Incremented? ==> s.iget <= QSIZE) && (!s.pc.Incremented? ==> s.iget < QSIZE)
  }

  /** The datagrams in the ring that are still to be sent. */
  function Unsent(s: State): seq<int>
    requires RingOk(s) && (AlreadySent(s.pc) ==> s.nqueue > 0)
  {
    var q := Queued(s.dg, Base(s), s.nqueue);
    if AlreadySent(s.pc) then q[1..] else q
  }

  ghost predicate Inv(s: State)
  {
    && RingOk(s)
    && (s.pc.Sending? || AlreadySent(s.pc) ==> s.nqueue > 0)
    && (s.handler.Out? ==> s.nqueue < QSIZE)
    && (s.handler.In? ==> s.handler.nread <= s.nqueue && Unblocked(s.pc))
    && (s.pc.Suspended? && s.handler.Out? ==> s.nqueue == 0)
    && (s.kernel != [] ==> s.pending || s.handler.In?)
    && s.arrived == s.sent + Unsent(s) + s.kernel
  }

  lemma InitInv()
    ensures Inv(Init())
  {
  }

  /** What is unsent depends on the ring and the main loop alone. */
  lemma SameRing(s: State, t: State)
    requires RingOk(s) && (AlreadySent(s.pc) ==> s.nqueue > 0) && t.pc == s.pc && t.dg == s.dg
    requires t.iget == s.iget && t.iput == s.iput && t.nqueue == s.nqueue && t.cntread == s.cntread
    ensures RingOk(t) && Unsent(t) == Unsent(s)
  {
  }

  lemma ArriveKeeps(s: State, d: int)
    requires Inv(s) && !s.aborted
    ensures Inv(Next(s, Arrive(d)))
  {
    SameRing(s, Next(s, Arrive(d)));
    Assoc(s.sent + Unsent(s), s.kernel, [d]);
  }

  lemma HandlerKeeps(s: State)
    requires Inv(s) && Enabled(s, HandlerStep)
    ensures Inv(Next(s, HandlerStep))
  {
    if s.nqueue < QSIZE && s.kernel != [] {
      HandlerReads(s);
      Regroup(s.sent, Unsent(s), s.kernel[0], s.kernel[1..]);
      assert s.kernel == [s.kernel[0]] + s.kernel[1..];
    }
  }

  /** A datagram read goes behind the unsent ones. */
  lemma HandlerReads(s: State)
    requires Inv(s) && Enabled(s, HandlerStep) && s.nqueue < QSIZE && s.kernel != []
    ensures var t := Next(s, HandlerStep);
            RingOk(t) && Base(t) == Base(s) && Unsent(t) == Unsent(s) + [s.kernel[0]]
  {
    QueuedPut(s.dg, Base(s), s.nqueue, s.kernel[0]);
    if AlreadySent(s.pc) {
      TailSnoc(Queued(s.dg, Base(s), s.nqueue), s.kernel[0]);
    }
  }

  lemma TailSnoc<T>(q: seq<T>, d: T)
    requires q != []
    ensures (q + [d])[1..] == q[1..] + [d]
  {
  }

  lemma Regroup(a: seq<int>, b: seq<int>, d: int, c: seq<int>)
    ensures a + b + ([d] + c) == a + (b + [d]) + c
    ensures a + ([d] + b) + c == (a + [d]) + b + c
  {
  }

  lemma SendingKeeps(s: State)
    requires Inv(s) && Enabled(s, MainStep) && s.pc.Sending?
    ensures Inv(Next(s, MainStep))
  {
    var t := Next(s, MainStep);
    QueuedTake(s.dg, s.iget, s.nqueue);
    Regroup(s.sent, Unsent(t), s.dg[s.iget], s.kernel);
  }

  lemma CountingKeeps(s: State)
    requires Inv(s) && Enabled(s, MainStep) && s.pc.Counting?
    ensures Inv(Next(s, MainStep))
  {
    QueuedTake(s.dg, Base(s), s.nqueue);
    assert Slot(Base(s), 1, QSIZE) == s.iget;
  }

  /** The other steps of the main loop change neither the ring nor what is unsent. */
  lemma QuietKeeps(s: State)
    requires Inv(s) && Enabled(s, MainStep) && !s.pc.Sending? && !s.pc.Counting?
    ensures Inv(Next(s, MainStep))
  {
    var t := Next(s, MainStep);
    assert Base(t) == Base(s);
    assert Unsent(t) == Unsent(s);
  }

  lemma MainKeeps(s: State)
    requires Inv(s) && Enabled(s, MainStep)
    ensures Inv(Next(s, MainStep))
  {
    if s.pc.Sending? {
      SendingKeeps(s);
    } else if s.pc.Counting? {
      CountingKeeps(s);
    } else {
      QuietKeeps(s);
    }
  }

  lemma SignalKeeps(s: State)
    requires Inv(s) && Enabled(s, Signal)
    ensures Inv(Next(s, Signal))
  {
    SameRing(s, Next(s, Signal));
  }

  lemma StepKeeps(s: State, e: Event)
    requires Inv(s) && Enabled(s, e)
    ensures Inv(Next(s, e))
  {
    match e
    case Arrive(d) => ArriveKeeps(s, d);
    case Signal => SignalKeeps(s);
    case HandlerStep => HandlerKeeps(s);
    case MainStep => MainKeeps(s);
  }

  ghost predicate IsRun(s: State, es: seq<Event>, t: State)
    decreases |es|
  {
    if es == [] then s == t
    else Enabled(s, es[0]) && IsRun(Next(s, es[0]), es[1..], t)
  }

  ghost predicate Reachable(s: State)
  {
    exists es :: IsRun(Init(), es, s)
  }

  lemma {:induction false} RunKeeps(s: State, es: seq<Event>, t: State)
    requires Inv(s) && IsRun(s, es, t)
    ensures Inv(t)
    decreases |es|
  {
    if es != [] {
      StepKeeps(s, es[0]);
      RunKeeps(Next(s, es[0]), es[1..], t);
    }
  }

  lemma ReachableInv(s: State)
    requires Reachable(s)
    ensures Inv(s)
  {
    var es :| IsRun(Init(), es, s);
    InitInv();
    RunKeeps(Init(), es, s);
  }

  // ---------- what that means ----------

  /** The indices agree wherever the loop is not between advancing `iget` and counting down. */
  lemma IndicesAgree(s: State)
    requires Reachable(s)
    ensures s.pc in {Top, Suspended, Sending, Sent} ==> s.iput == (s.iget + s.nqueue) % 8
    ensures s.pc in {Incremented, Advanced, Counting} ==> s.nqueue > 0 && s.iput == (s.iget + s.nqueue - 1) % 8
  {
    ReachableInv(s);
    if AlreadySent(s.pc) && !s.pc.Sent? {
      SlotBefore(s.iget, s.nqueue);
    } else {
      SlotAt(s.iget, s.nqueue);
    }
  }

  lemma SlotAt(iget: nat, n: nat)
    requires iget < QSIZE && n <= QSIZE
    ensures Slot(iget, n, QSIZE) == (iget + n) % QSIZE
  {
  }

  lemma SlotBefore(iget: nat, n: nat)
    requires iget <= QSIZE && 0 < n <= QSIZE
    ensures Slot(if iget == 0 then QSIZE - 1 else iget - 1, n, QSIZE) == (iget + n - 1) % QSIZE
  {
  }

  /** The handler never writes the slot that is being sent, nor outside its histogram. */
  lemma HandlerIsSafe(s: State)
    requires Reachable(s) && Enabled(s, HandlerStep)
    ensures RingOk(s) && |Next(s, HandlerStep).dg| == QSIZE
    ensures s.pc.Sending? && !Next(s, HandlerStep).aborted ==> Next(s, HandlerStep).dg[s.iget] == s.dg[s.iget]
    ensures s.handler.nread < |s.cntread|
    ensures Next(s, HandlerStep).handler.Out? ==> s.handler.nread < QSIZE
  {
    ReachableInv(s);
  }

  /** Every datagram is echoed once, in the order of arrival, or is still on its way. */
  lemma EchoedInOrder(s: State)
    requires Reachable(s)
    ensures s.sent <= s.arrived
    ensures RingOk(s) && (AlreadySent(s.pc) ==> s.nqueue > 0) && s.arrived == s.sent + Unsent(s) + s.kernel
  {
    ReachableInv(s);
    Assoc(s.sent, Unsent(s), s.kernel);
  }

  /** The ring holds seven: outside the handler there is always a free slot, and reading an eighth quits. */
  lemma QuitsAtEight(s: State)
    requires Reachable(s)
    ensures s.handler.Out? ==> s.nqueue <= 7
    ensures Enabled(s, HandlerStep) ==> (Next(s, HandlerStep).aborted <==> s.nqueue == 8)
  {
    ReachableInv(s);
  }

  // ---------- progress ----------

  /** While a datagram is not echoed, something other than an arrival can happen. */
  lemma Progress(s: State)
    requires Reachable(s) && !s.aborted && s.sent != s.arrived
    ensures exists e: Event :: !e.Arrive? && Enabled(s, e)
  {
    ReachableInv(s);
    if s.handler.In? {
      assert Enabled(s, HandlerStep);
    } else if s.pc.Suspended? {
      assert Unsent(s) == [];
      Nil(s.sent);
      assert Enabled(s, Signal);
    } else {
      assert Enabled(s, MainStep);
    }
  }

  function Bound(s: State): nat
  {
    12 * |s.kernel| + 8 * s.nqueue + (if s.pending then 5 else 0) + (if s.handler.In? then 4 else 0)
    + (match s.pc case Top => 6 case Sending => 5 case Sent => 4 case Incremented => 3
                  case Advanced => 2 case Counting => 1 case Suspended => 3)
  }

  lemma HandlerBound(s: State)
    requires Inv(s) && Enabled(s, HandlerStep)
    ensures Next(s, HandlerStep).aborted || Bound(Next(s, HandlerStep)) < Bound(s)
    ensures Next(s, HandlerStep).aborted ==> Bound(Next(s, HandlerStep)) == Bound(s)
  {
    if s.nqueue < QSIZE && s.kernel != [] {
      assert |s.kernel[1..]| == |s.kernel| - 1;
    }
  }

  lemma MainBound(s: State)
    requires Inv(s) && Enabled(s, MainStep)
    ensures !Next(s, MainStep).aborted && Bound(Next(s, MainStep)) < Bound(s)
  {
  }

  lemma StepBound(s: State, e: Event)
    requires Inv(s) && Enabled(s, e) && !e.Arrive?
    ensures Next(s, e).aborted || Bound(Next(s, e)) < Bound(s)
    ensures Next(s, e).aborted ==> Bound(Next(s, e)) == Bound(s)
  {
    if e.HandlerStep? {
      HandlerBound(s);
    } else if e.MainStep? {
      MainBound(s);
    }
  }

  /**
   * Without new arrivals the server cannot go on for ever.
   */
  lemma {:induction false} ComesToRest(s: State, es: seq<Event>, t: State)
    requires Inv(s) && IsRun(s, es, t) && forall k :: 0 <= k < |es| ==> !es[k].Arrive?
    ensures |es| <= Bound(s) - Bound(t) + (if t.aborted then 1 else 0)
    ensures s.aborted ==> es == []
    decreases |es|
  {
    if es != [] {
      var u := Next(s, es[0]);
      StepKeeps(s, es[0]);
      StepBound(s, es[0]);
      ComesToRest(u, es[1..], t);
    }
  }

  /** Where nothing but an arrival is possible, every datagram has been echoed. */
  lemma StuckIsEchoed(s: State)
    requires Reachable(s) && !s.aborted && forall e: Event :: Enabled(s, e) ==> e.Arrive?
    ensures s.sent == s.arrived
  {
    if s.sent != s.arrived {
      Progress(s);
    }
  }

  // ---------- a run that overflows the ring ----------

  lemma {:induction false} RunSnoc(s: State, es: seq<Event>, t: State, e: Event)
    requires IsRun(s, es, t) && Enabled(t, e)
    ensures IsRun(s, es + [e], Next(t, e))
    decreases |es|
  {
    if es == [] {
      Nil([e]);
    } else {
      RunSnoc(Next(s, es[0]), es[1..], t, e);
      assert (es + [e])[1..] == es[1..] + [e];
    }
  }

  lemma ReachableNext(s: State, e: Event)
    requires Reachable(s) && Enabled(s, e)
    ensures Reachable(Next(s, e))
  {
    var es :| IsRun(Init(), es, s);
    RunSnoc(Init(), es, s, e);
  }

  /** `k` datagrams arrive before the main loop suspends. */
  lemma {:induction false} Arrivals(k: nat) returns (s: State)
    requires k > 0
    ensures Reachable(s) && Inv(s) && !s.aborted && s.pc.Top? && s.handler.Out? && s.pending
    ensures s.nqueue == 0 && |s.kernel| == |s.arrived| == k
  {
    var u := Init();
    if k == 1 {
      assert IsRun(Init(), [], u);
    } else {
      u := Arrivals(k - 1);
    }
    ReachableNext(u, Arrive(0));
    s := Next(u, Arrive(0));
    ReachableInv(s);
  }

  /** One handler reads them all, as long as there are slots. */
  lemma {:induction false} ReadAll(k: nat) returns (s: State)
    requires k <= QSIZE
    ensures Reachable(s) && Inv(s) && !s.aborted && s.handler.In? && s.nqueue == k && |s.kernel| == QSIZE - k
    ensures |s.arrived| == QSIZE
  {
    if k == 0 {
      var u := Arrivals(QSIZE);
      ReachableNext(u, MainStep);
      var v := Next(u, MainStep);
      ReachableNext(v, Signal);
      s := Next(v, Signal);
    } else {
      var u := ReadAll(k - 1);
      ReachableNext(u, HandlerStep);
      s := Next(u, HandlerStep);
    }
    ReachableInv(s);
  }

  /** So eight datagrams in one go end the server. */
  lemma OverflowIsReachable() returns (s: State)
    ensures Reachable(s) && s.aborted && |s.arrived| == 8
  {
    var u := ReadAll(QSIZE);
    ReachableNext(u, HandlerStep);
    s := Next(u, HandlerStep);
  }
}
