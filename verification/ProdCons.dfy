/**
 * One producer and one consumer sharing a bounded buffer, with a mutex and two condition
 * variables. Every interleaving of the two loops is a run.
 */
module ProdCons {
  import opened Prelude

  const NLOOP: nat := 50
  const BUFFSIZE: nat := 10

  // ---------- the buffer ----------

  datatype Buf = Buf(items: seq<int>, nitems: nat, nextget: nat, nextput: nat)

  ghost predicate BufOk(b: Buf)
  {
    && |b.items| == BUFFSIZE && b.nextget < BUFFSIZE && b.nitems <= BUFFSIZE
    && b.nextput == Slot(b.nextget, b.nitems, BUFFSIZE)
  }

  /** The items, oldest first. */
  function Contents(b: Buf): (c: seq<int>)
    requires BufOk(b)
    ensures |c| == b.nitems
  {
    seq(b.nitems, j requires 0 <= j < b.nitems => b.items[Slot(b.nextget, j, BUFFSIZE)])
  }

  function PutBuf(b: Buf, val: int): Buf
    requires BufOk(b) && b.nextput < |b.items|
  {
    b.(items := b.items[b.nextput := val], nextput := Slot(b.nextput, 1, BUFFSIZE), nitems := b.nitems + 1)
  }

  function GetBuf(b: Buf): Buf
    requires BufOk(b) && b.nitems > 0
  {
    b.(nextget := Slot(b.nextget, 1, BUFFSIZE), nitems := b.nitems - 1)
  }

  lemma PutContents(b: Buf, val: int)
    requires BufOk(b) && b.nitems < BUFFSIZE
    ensures BufOk(PutBuf(b, val)) && Contents(PutBuf(b, val)) == Contents(b) + [val]
  {
  }

  lemma GetContents(b: Buf)
    requires BufOk(b) && b.nitems > 0
    ensures BufOk(GetBuf(b)) && Contents(b) == [b.items[b.nextget]] + Contents(GetBuf(b))
  {
  }

  class BufT {
    const b_buf: array<int>
    var b_nitems: nat
    var b_nextget: nat
    var b_nextput: nat

    function View(): Buf
      reads this, b_buf
    {
      Buf(b_buf[..], b_nitems, b_nextget, b_nextput)
    }

    constructor ()
      ensures fresh(b_buf) && BufOk(View()) && Contents(View()) == []
    {
      b_buf := new int[BUFFSIZE];
      b_nitems, b_nextget, b_nextput := 0, 0, 0;
    }

    /** `produce`, once there is room. */
    method Store(val: int)
      requires BufOk(View()) && b_nitems < BUFFSIZE
      modifies this, b_buf
      ensures View() == PutBuf(old(View()), val) && BufOk(View())
      ensures Contents(View()) == Contents(old(View())) + [val]
    {
      PutContents(View(), val);
      b_buf[b_nextput] := val;
      b_nextput := b_nextput + 1;
      if b_nextput >= BUFFSIZE {
        b_nextput := 0;
      }
      b_nitems := b_nitems + 1;
    }

    /** `consume`, once there is data. */
    method Fetch() returns (val: int)
      requires BufOk(View()) && b_nitems > 0
      modifies this
      ensures View() == GetBuf(old(View())) && BufOk(View())
      ensures Contents(old(View())) == [val] + Contents(View())
    {
      GetContents(View());
      val := b_buf[b_nextget];
      b_nextget := b_nextget + 1;
      if b_nextget >= BUFFSIZE {
        b_nextget := 0;
      }
      b_nitems := b_nitems - 1;
    }
  }

  // ---------- the two threads ----------

  datatype Role = Producer | Consumer

  datatype Pc = WantsLock | HasLock | Sleeping | Woken | Finished

  datatype Owner = Free | Held(holder: Role)

  datatype State = State(
    buf: Buf, mutex: Owner, producer: Pc, consumer: Pc, produced: seq<int>, consumed: seq<int>)

  function Init(): State
  {
    State(Buf(seq(BUFFSIZE, _ => 0), 0, 0, 0), Free, WantsLock, WantsLock, [], [])
  }

  datatype Event = Lock(r: Role) | Wait(r: Role) | Act(r: Role) | Spurious(r: Role)

  function PcOf(s: State, r: Role): Pc
  {
    if r.Producer? then s.producer else s.consumer
  }

  function SetPc(s: State, r: Role, pc: Pc): State
  {
    if r.Producer? then s.(producer := pc) else s.(consumer := pc)
  }

  predicate MustWait(s: State, r: Role)
  {
    if r.Producer? then s.buf.nitems >= BUFFSIZE else s.buf.nitems <= 0
  }

  ghost predicate Enabled(s: State, e: Event)
  {
    && BufOk(s.buf)
    && match e
       case Lock(r) => PcOf(s, r) in {WantsLock, Woken} && s.mutex.Free?
       case Wait(r) => PcOf(s, r).HasLock? && MustWait(s, r)
       case Act(r) => PcOf(s, r).HasLock? && !MustWait(s, r)
       case Spurious(r) => PcOf(s, r).Sleeping?
  }

  /** `pthread_cond_signal` for a condition only `pc` can be waiting for. */
  function SignalTo(pc: Pc): Pc
  {
    if pc.Sleeping? then Woken else pc
  }

  /** The loop counter after `done` turns. */
  function After(done: nat): Pc
  {
    if done < NLOOP then WantsLock else Finished
  }

  ghost function Next(s: State, e: Event): State
    requires Enabled(s, e)
  {
    match e
    case Lock(r) => SetPc(s, r, HasLock).(mutex := Held(r))
    case Wait(r) => SetPc(s, r, Sleeping).(mutex := Free)
    case Act(Producer) =>
      var val := |s.produced|;
      s.(buf := PutBuf(s.buf, val), mutex := Free, produced := s.produced + [val],
         producer := After(|s.produced| + 1), consumer := SignalTo(s.consumer))
    case Act(Consumer) =>
      s.(buf := GetBuf(s.buf), mutex := Free, consumed := s.consumed + [s.buf.items[s.buf.nextget]],
         consumer := After(|s.consumed| + 1), producer := SignalTo(s.producer))
    case Spurious(r) => SetPc(s, r, Woken)
  }

  ghost predicate Inv(s: State)
  {
    && BufOk(s.buf)
    && s.produced == s.consumed + Contents(s.buf)
    && (forall k :: 0 <= k < |s.produced| ==> s.produced[k] == k)
    && |s.produced| <= NLOOP && |s.consumed| <= NLOOP
    && (s.producer.Finished? <==> |s.produced| == NLOOP)
    && (s.consumer.Finished? <==> |s.consumed| == NLOOP)
    && (s.producer.HasLock? <==> s.mutex == Held(Producer))
    && (s.consumer.HasLock? <==> s.mutex == Held(Consumer))
    && (s.producer.Sleeping? ==> s.buf.nitems == BUFFSIZE)
    && (s.consumer.Sleeping? ==> s.buf.nitems == 0)
  }

  lemma InitInv()
    ensures Inv(Init())
  {
  }

  lemma StepKeeps(s: State, e: Event)
    requires Inv(s) && Enabled(s, e)
    ensures Inv(Next(s, e))
  {
    match e
    case Act(Producer) =>
      PutContents(s.buf, |s.produced|);
      Assoc(s.consumed, Contents(s.buf), [|s.produced|]);
    case Act(Consumer) =>
      GetContents(s.buf);
      Assoc(s.consumed, [s.buf.items[s.buf.nextget]], Contents(GetBuf(s.buf)));
    case _ =>
  }

  ghost predicate IsRun(s: State, es: seq<Event>, t: State)
    decreases |es|
  {
    if es == [] then s == t
    else Enabled(s, es[0]) && IsRun(Next(s, es[0]), es[1..], t)
  }

  ghost predicate Reachable(s: State)
  {
    exists es :: IsRun(Init(), es, s)
  }

  lemma {:induction false} RunKeeps(s: State, es: seq<Event>, t: State)
    requires Inv(s) && IsRun(s, es, t)
    ensures Inv(t)
    decreases |es|
  {
    if es != [] {
      StepKeeps(s, es[0]);
      RunKeeps(Next(s, es[0]), es[1..], t);
    }
  }

  lemma ReachableInv(s: State)
    requires Reachable(s)
    ensures Inv(s)
  {
    var es :| IsRun(Init(), es, s);
    InitInv();
    RunKeeps(Init(), es, s);
  }

  /** The consumer receives 0, 1, 2, ... in order, and what it has not received is in the buffer. */
  lemma ReceivedInOrder(s: State)
    requires Reachable(s)
    ensures BufOk(s.buf) && s.produced == s.consumed + Contents(s.buf)
    ensures forall k :: 0 <= k < |s.consumed| ==> s.consumed[k] == k
    ensures s.producer.Finished? && s.consumer.Finished? ==> |s.consumed| == |s.produced| == 50 && s.buf.nitems == 0
  {
    ReachableInv(s);
    forall k | 0 <= k < |s.consumed| ensures s.consumed[k] == k {
      assert s.produced[k] == s.consumed[k];
    }
  }

  /** The two are never both asleep, and the sleeper has a reason. */
  lemma NeverBothAsleep(s: State)
    requires Reachable(s)
    ensures !(s.producer.Sleeping? && s.consumer.Sleeping?)
    ensures s.producer.Sleeping? ==> !s.consumer.Finished? && s.buf.nitems == 10
    ensures s.consumer.Sleeping? ==> !s.producer.Finished? && s.buf.nitems == 0
  {
    ReachableInv(s);
  }

  /** No deadlock: until both loops have finished, one of them can take a step of its own. */
  lemma Progress(s: State)
    requires Reachable(s) && !(s.producer.Finished? && s.consumer.Finished?)
    ensures exists e: Event :: !e.Spurious? && Enabled(s, e)
  {
    ReachableInv(s);
    NeverBothAsleep(s);
    if s.mutex.Held? {
      var e := if MustWait(s, s.mutex.holder) then Wait(s.mutex.holder) else Act(s.mutex.holder);
      assert Enabled(s, e);
    } else {
      var r := if s.producer in {WantsLock, Woken} then Producer else Consumer;
      assert Enabled(s, Lock(r));
    }
  }

  function Rank(pc: Pc): nat
  {
    match pc case WantsLock => 2 case Woken => 2 case HasLock => 1 case _ => 0
  }

  function Bound(s: State): int
  {
    5 * (2 * NLOOP - |s.produced| - |s.consumed|) + Rank(s.producer) + Rank(s.consumer)
  }

  /**
   * Apart from spurious wakeups every step brings the end nearer, so both loops finish in
   * every run that goes on while it can.
   */
  lemma {:induction false} LoopsFinish(s: State, es: seq<Event>, t: State)
    requires Inv(s) && IsRun(s, es, t) && forall k :: 0 <= k < |es| ==> !es[k].Spurious?
    ensures |es| <= Bound(s) - Bound(t)
    decreases |es|
  {
    if es != [] {
      var u := Next(s, es[0]);
      StepKeeps(s, es[0]);
      assert Bound(u) < Bound(s);
      LoopsFinish(u, es[1..], t);
    }
  }

  lemma RunsAreShort(es: seq<Event>, t: State)
    requires IsRun(Init(), es, t) && forall k :: 0 <= k < |es| ==> !es[k].Spurious?
    ensures |es| <= 504
  {
    InitInv();
    LoopsFinish(Init(), es, t);
    RunKeeps(Init(), es, t);
  }
}
