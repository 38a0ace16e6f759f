/**
 * The prethreaded server: the main thread puts accepted descriptors in a circular queue, any
 * number of worker threads take them out, under one mutex and one condition variable.
 */
module ThreadQueue {
  import opened Prelude

  const MAXNCLI: nat := 32

  // ---------- the circular queue ----------

  /** `clifd`, `iget` and `iput`; equal indices mean empty. */
  datatype Ring = Ring(clifd: seq<int>, iget: nat, iput: nat)

  ghost predicate RingOk(r: Ring)
  {
    |r.clifd| == MAXNCLI && r.iget < MAXNCLI && r.iput < MAXNCLI
  }

  function Advance(i: nat): nat
  {
    if i + 1 == MAXNCLI then 0 else i + 1
  }

  function Contents(r: Ring): seq<int>
    requires RingOk(r)
  {
    if r.iget <= r.iput then r.clifd[r.iget..r.iput] else r.clifd[r.iget..] + r.clifd[..r.iput]
  }

  function PutRing(r: Ring, fd: int): Ring
    requires RingOk(r)
  {
    r.(clifd := r.clifd[r.iput := fd], iput := Advance(r.iput))
  }

  function TakeRing(r: Ring): Ring
    requires RingOk(r)
  {
    r.(iget := Advance(r.iget))
  }

  /** At most 31 are pending; putting one more makes the indices meet. */
  lemma PutContents(r: Ring, fd: int)
    requires RingOk(r)
    ensures RingOk(PutRing(r, fd)) && |Contents(r)| < MAXNCLI
    ensures PutRing(r, fd).iput == r.iget <==> |Contents(r)| == MAXNCLI - 1
    ensures PutRing(r, fd).iput != r.iget ==> Contents(PutRing(r, fd)) == Contents(r) + [fd]
  {
    var buf := r.clifd[r.iput := fd];
    if r.iget <= r.iput {
      assert r.iput + 1 < MAXNCLI ==> buf[r.iget..r.iput + 1] == r.clifd[r.iget..r.iput] + [fd];
      assert r.iput + 1 == MAXNCLI ==> buf[r.iget..] + buf[..0] == r.clifd[r.iget..r.iput] + [fd];
    } else {
      assert buf[r.iget..] == r.clifd[r.iget..] && buf[..r.iput + 1] == r.clifd[..r.iput] + [fd];
    }
  }

  lemma TakeContents(r: Ring)
    requires RingOk(r) && r.iget != r.iput
    ensures RingOk(TakeRing(r)) && Contents(r) == [r.clifd[r.iget]] + Contents(TakeRing(r))
  {
    if r.iget < r.iput {
      SliceHead(r.clifd, r.iget, r.iput);
    } else {
      TakeWrapped(r.clifd, r.iget, r.iput);
    }
  }

  /** Taking from a queue that goes round the end of the array. */
  lemma TakeWrapped(c: seq<int>, iget: nat, iput: nat)
    requires iput < iget < |c|
    ensures c[iget..] + c[..iput] == [c[iget]] + (c[iget + 1..] + c[..iput])
    ensures iget + 1 == |c| ==> c[iget + 1..] + c[..iput] == c[0..iput]
  {
  }

  lemma TakeOneLess(r: Ring)
    requires RingOk(r) && r.iget != r.iput
    ensures RingOk(TakeRing(r)) && |Contents(TakeRing(r))| == |Contents(r)| - 1
  {
    TakeContents(r);
  }

  lemma SliceHead<T>(s: seq<T>, a: nat, b: nat)
    requires a < b <= |s|
    ensures s[a..b] == [s[a]] + s[a + 1..b]
  {
  }

  lemma EmptyContents(r: Ring)
    requires RingOk(r)
    ensures Contents(r) == [] <==> r.iget == r.iput
  {
  }

  /** The queue in memory, as the code between lock and unlock changes it. */
  class Queue {
    const clifd: array<int>
    var iget: nat
    var iput: nat

    function View(): Ring
      reads this, clifd
    {
      Ring(clifd[..], iget, iput)
    }

    constructor ()
      ensures fresh(clifd) && RingOk(View()) && Contents(View()) == []
    {
      clifd := new int[MAXNCLI];
      iget, iput := 0, 0;
    }

    /** The main thread's part; `full` is where it quits. */
    method Put(connfd: int) returns (full: bool)
      requires RingOk(View())
      modifies this`iput, clifd
      ensures View() == PutRing(old(View()), connfd) && RingOk(View())
      ensures full <==> |Contents(old(View()))| == MAXNCLI - 1
      ensures !full ==> Contents(View()) == Contents(old(View())) + [connfd]
    {
      PutContents(View(), connfd);
      clifd[iput] := connfd;
      iput := iput + 1;
      if iput == MAXNCLI {
        iput := 0;
      }
      full := iput == iget;
    }

    /** A worker's part, once the queue is not empty. */
    method Take() returns (connfd: int)
      requires RingOk(View()) && iget != iput
      modifies this`iget
      ensures View() == TakeRing(old(View())) && RingOk(View())
      ensures Contents(old(View())) == [connfd] + Contents(View())
    {
      TakeContents(View());
      connfd := clifd[iget];
      iget := iget + 1;
      if iget == MAXNCLI {
        iget := 0;
      }
    }
  }

  // ---------- threads ----------

  datatype MainPc = Accepting | MainWantsLock(fd: int) | MainHasLock(fd: int) | Quit

  /**
   * A worker wants the mutex, holds it (`woken` if it comes back from the condition
   * variable because it was signalled), sleeps on the condition variable, has been woken, by a
   * signal (`sig`) or spuriously, and must get the mutex again, or serves a connection.
   */
  datatype Worker = WantsLock | HasLock(woken: bool) | Sleeping | Woken(sig: bool) | Serving(fd: int)

  datatype Owner = Free | Main | Thread(t: nat)

  datatype Taken = Taken(t: nat, fd: int)

  datatype State = State(
    ring: Ring, mutex: Owner, main: MainPc, workers: seq<Worker>,
    threadCount: seq<nat>, queued: seq<int>, taken: seq<Taken>)

  function Init(n: nat): State
  {
    State(Ring(seq(MAXNCLI, _ => 0), 0, 0), Free, Accepting, seq(n, _ => WantsLock), seq(n, _ => 0), [], [])
  }

  datatype Event =
    | Accept(fd: int)
    | MainLock
    | Put(woken: set<nat>)
    | Lock(t: nat)
    | Wait(t: nat)
    | Take(t: nat)
    | Done(t: nat)
    | Spurious(t: nat)

  predicate Sleeps(s: State, t: nat)
  {
    t < |s.workers| && s.workers[t].Sleeping?
  }

  /** Once the main thread has quit, the process is gone and nothing happens any more. */
  ghost predicate Enabled(s: State, e: Event)
  {
    && !s.main.Quit? && RingOk(s.ring) && |s.threadCount| == |s.workers|
    && match e
       case Accept(_) => s.main.Accepting?
       case MainLock => s.main.MainWantsLock? && s.mutex.Free?
       case Put(woken) =>
         // pthread_cond_signal wakes at least one sleeper when there is one
         && s.main.MainHasLock?
         && (forall t :: t in woken ==> Sleeps(s, t))
         && ((exists t :: Sleeps(s, t)) ==> woken != {})
       case Lock(t) => t < |s.workers| && (s.workers[t].WantsLock? || s.workers[t].Woken?) && s.mutex.Free?
       case Wait(t) => t < |s.workers| && s.workers[t].HasLock? && s.ring.iget == s.ring.iput
       case Take(t) => t < |s.workers| && s.workers[t].HasLock? && s.ring.iget != s.ring.iput
       case Done(t) => t < |s.workers| && s.workers[t].Serving?
       case Spurious(t) => Sleeps(s, t)
  }

  function Wake(workers: seq<Worker>, woken: set<nat>): (r: seq<Worker>)
    ensures |r| == |workers|
    ensures forall t :: 0 <= t < |workers| ==> r[t] == if t in woken then Woken(true) else workers[t]
  {
    seq(|workers|, t requires 0 <= t < |workers| => if t in woken then Woken(true) else workers[t])
  }

  ghost function Next(s: State, e: Event): State
    requires Enabled(s, e)
  {
    match e
    case Accept(fd) => s.(main := MainWantsLock(fd))
    case MainLock => s.(main := MainHasLock(s.main.fd), mutex := Main)
    case Put(woken) =>
      var r := PutRing(s.ring, s.main.fd);
      if r.iput == r.iget then s.(ring := r, main := Quit)
      else s.(ring := r, main := Accepting, mutex := Free,
              workers := Wake(s.workers, woken), queued := s.queued + [s.main.fd])
    case Lock(t) => s.(workers := s.workers[t := HasLock(s.workers[t].Woken? && s.workers[t].sig)], mutex := Thread(t))
    case Wait(t) => s.(workers := s.workers[t := Sleeping], mutex := Free)
    case Take(t) =>
      var fd := s.ring.clifd[s.ring.iget];
      s.(ring := TakeRing(s.ring), workers := s.workers[t := Serving(fd)], mutex := Free,
         threadCount := s.threadCount[t := s.threadCount[t] + 1], taken := s.taken + [Taken(t, fd)])
    case Done(t) => s.(workers := s.workers[t := WantsLock])
    case Spurious(t) => s.(workers := s.workers[t := Woken(false)])
  }

  // ---------- what every run keeps ----------

  function Fds(taken: seq<Taken>): seq<int>
  {
    seq(|taken|, k requires 0 <= k < |taken| => taken[k].fd)
  }

  function CountOf(taken: seq<Taken>, t: nat): nat
  {
    if taken == [] then 0
    else CountOf(taken[..|taken| - 1], t) + (if taken[|taken| - 1].t == t then 1 else 0)
  }

  predicate IsSignalled(w: Worker)
  {
    (w.Woken? && w.sig) || (w.HasLock? && w.woken)
  }

  /** The threads a signal has woken that have not yet looked at the queue again. */
  function Signalled(workers: seq<Worker>): nat
  {
    if workers == [] then 0
    else Signalled(workers[..|workers| - 1]) + (if IsSignalled(workers[|workers| - 1]) then 1 else 0)
  }

  ghost predicate MutexOk(s: State)
  {
    && (s.main.MainHasLock? || s.main.Quit? <==> s.mutex.Main?)
    && (s.mutex.Thread? ==> s.mutex.t < |s.workers|)
    && forall t :: 0 <= t < |s.workers| ==> (s.workers[t].HasLock? <==> s.mutex == Thread(t))
  }

  /** No wakeup is lost: while some thread sleeps, every pending item has a signalled thread coming. */
  ghost predicate WakeupsOk(s: State)
    requires RingOk(s.ring)
  {
    (exists t :: Sleeps(s, t)) ==> |Contents(s.ring)| <= Signalled(s.workers)
  }

  ghost predicate Inv(s: State)
  {
    && RingOk(s.ring) && |s.threadCount| == |s.workers| && MutexOk(s)
    && (!s.main.Quit? ==>
          && s.queued == Fds(s.taken) + Contents(s.ring)
          && WakeupsOk(s))
    && forall t :: 0 <= t < |s.workers| ==> s.threadCount[t] == CountOf(s.taken, t)
  }

  lemma {:induction false} SignalledUpdate(workers: seq<Worker>, t: nat, w: Worker)
    requires t < |workers|
    ensures Signalled(workers[t := w]) + (if IsSignalled(workers[t]) then 1 else 0)
            == Signalled(workers) + (if IsSignalled(w) then 1 else 0)
  {
    var n := |workers| - 1;
    if t == n {
      assert workers[t := w][..n] == workers[..n];
    } else {
      assert workers[t := w][..n] == workers[..n][t := w];
      SignalledUpdate(workers[..n], t, w);
    }
  }

  lemma {:induction false} SignalledWake(workers: seq<Worker>, woken: set<nat>)
    requires forall t :: t in woken && t < |workers| ==> workers[t].Sleeping?
    ensures Signalled(Wake(workers, woken)) >= Signalled(workers)
    ensures (exists t :: t in woken && t < |workers|) ==> Signalled(Wake(workers, woken)) > Signalled(workers)
  {
    if workers != [] {
      var n := |workers| - 1;
      assert Wake(workers, woken)[..n] == Wake(workers[..n], woken);
      SignalledWake(workers[..n], woken);
    }
  }

  lemma CountSnoc(taken: seq<Taken>, x: Taken, t: nat)
    ensures CountOf(taken + [x], t) == CountOf(taken, t) + (if x.t == t then 1 else 0)
    ensures Fds(taken + [x]) == Fds(taken) + [x.fd]
  {
    Halves(taken, [x]);
  }

  lemma InitInv(n: nat)
    ensures Inv(Init(n))
  {
  }

  lemma PutKeeps(s: State, woken: set<nat>)
    requires Inv(s) && Enabled(s, Put(woken))
    ensures Inv(Next(s, Put(woken)))
  {
    PutContents(s.ring, s.main.fd);
    SignalledWake(s.workers, woken);
    var t := Next(s, Put(woken));
    if !t.main.Quit? {
      Assoc(Fds(s.taken), Contents(s.ring), [s.main.fd]);
      if exists i :: Sleeps(t, i) {
        var i :| Sleeps(t, i);
        assert Sleeps(s, i);
        var j :| j in woken;
        assert Sleeps(s, j);
      }
    }
  }

  lemma TakeQueue(s: State, t: nat)
    requires Inv(s) && Enabled(s, Take(t))
    ensures var u := Next(s, Take(t)); RingOk(u.ring) && u.queued == Fds(u.taken) + Contents(u.ring)
  {
    var fd := s.ring.clifd[s.ring.iget];
    TakeContents(s.ring);
    CountSnoc(s.taken, Taken(t, fd), t);
    Assoc(Fds(s.taken), [fd], Contents(TakeRing(s.ring)));
  }

  lemma TakeCounts(s: State, t: nat)
    requires Inv(s) && Enabled(s, Take(t))
    ensures var u := Next(s, Take(t));
            |u.threadCount| == |u.workers| && forall i :: 0 <= i < |u.workers| ==> u.threadCount[i] == CountOf(u.taken, i)
  {
    var u := Next(s, Take(t));
    forall i | 0 <= i < |u.workers| ensures u.threadCount[i] == CountOf(u.taken, i) {
      CountSnoc(s.taken, Taken(t, s.ring.clifd[s.ring.iget]), i);
    }
  }

  lemma TakeWakeups(s: State, t: nat)
    requires Inv(s) && Enabled(s, Take(t)) && RingOk(Next(s, Take(t)).ring)
    ensures WakeupsOk(Next(s, Take(t)))
  {
    var u := Next(s, Take(t));
    TakeContents(s.ring);
    SignalledUpdate(s.workers, t, u.workers[t]);
    assert forall i :: Sleeps(u, i) ==> Sleeps(s, i);
  }

  lemma TakeKeeps(s: State, t: nat)
    requires Inv(s) && Enabled(s, Take(t))
    ensures Inv(Next(s, Take(t)))
  {
    TakeQueue(s, t);
    TakeCounts(s, t);
    TakeWakeups(s, t);
  }

  lemma WorkerKeeps(s: State, e: Event)
    requires Inv(s) && Enabled(s, e) && (e.Lock? || e.Wait? || e.Done? || e.Spurious?)
    ensures Inv(Next(s, e))
  {
    var u := Next(s, e);
    SignalledUpdate(s.workers, e.t, u.workers[e.t]);
    EmptyContents(s.ring);
    forall i | Sleeps(u, i) ensures Sleeps(s, i) || e.Wait? {
    }
  }

  lemma StepKeeps(s: State, e: Event)
    requires Inv(s) && Enabled(s, e)
    ensures Inv(Next(s, e))
  {
    match e
    case Accept(fd) =>
      assert forall i :: Sleeps(Next(s, e), i) ==> Sleeps(s, i);
    case MainLock =>
      assert forall i :: Sleeps(Next(s, e), i) ==> Sleeps(s, i);
    case Put(woken) => PutKeeps(s, woken);
    case Take(t) => TakeKeeps(s, t);
    case _ => WorkerKeeps(s, e);
  }

  // ---------- runs ----------

  ghost predicate IsRun(s: State, es: seq<Event>, t: State)
    decreases |es|
  {
    if es == [] then s == t
    else Enabled(s, es[0]) && IsRun(Next(s, es[0]), es[1..], t)
  }

  ghost predicate Reachable(n: nat, s: State)
  {
    exists es :: IsRun(Init(n), es, s)
  }

  lemma {:induction false} RunKeeps(s: State, es: seq<Event>, t: State)
    requires Inv(s) && IsRun(s, es, t)
    ensures Inv(t) && |t.workers| == |s.workers|
    decreases |es|
  {
    if es != [] {
      StepKeeps(s, es[0]);
      RunKeeps(Next(s, es[0]), es[1..], t);
    }
  }

  lemma ReachableInv(n: nat, s: State)
    requires Reachable(n, s)
    ensures Inv(s) && |s.workers| == n
  {
    var es :| IsRun(Init(n), es, s);
    InitInv(n);
    RunKeeps(Init(n), es, s);
  }

  /**
   * First in, first out, each descriptor to one thread: what has been queued is what the
   * threads have taken, in the order they took it, followed by what is pending.
   */
  lemma FirstInFirstOut(n: nat, s: State)
    requires Reachable(n, s) && !s.main.Quit?
    ensures RingOk(s.ring) && s.queued == Fds(s.taken) + Contents(s.ring)
    ensures |Contents(s.ring)| <= 31
    ensures |s.threadCount| == n && forall t :: 0 <= t < n ==> s.threadCount[t] == CountOf(s.taken, t)
  {
    ReachableInv(n, s);
  }

  /** The server quits exactly when a connection arrives with 31 pending. */
  lemma QuitsWhenFull(n: nat, s: State, woken: set<nat>)
    requires Reachable(n, s) && Enabled(s, Put(woken))
    ensures Next(s, Put(woken)).main.Quit? <==> |Contents(s.ring)| == 31
  {
    ReachableInv(n, s);
    PutContents(s.ring, s.main.fd);
  }

  /** Mutual exclusion. */
  lemma OneHolder(n: nat, s: State, a: nat, b: nat)
    requires Reachable(n, s) && a < n && b < n
    ensures |s.workers| == n
    ensures s.workers[a].HasLock? && s.workers[b].HasLock? ==> a == b
    ensures s.main.MainHasLock? ==> !s.workers[a].HasLock?
  {
    ReachableInv(n, s);
  }

  lemma NoLostWakeup(n: nat, s: State)
    requires Reachable(n, s) && !s.main.Quit?
    ensures RingOk(s.ring)
    ensures (exists t :: Sleeps(s, t)) ==> |Contents(s.ring)| <= Signalled(s.workers)
  {
    ReachableInv(n, s);
  }

  lemma {:induction false} SignalledOne(workers: seq<Worker>)
    requires Signalled(workers) > 0
    ensures exists t :: 0 <= t < |workers| && IsSignalled(workers[t])
  {
    var n := |workers| - 1;
    if !IsSignalled(workers[n]) {
      SignalledOne(workers[..n]);
      var t :| 0 <= t < |workers[..n]| && IsSignalled(workers[..n][t]);
      assert IsSignalled(workers[t]);
    } else {
      assert IsSignalled(workers[n]);
    }
  }

  lemma SomeAwake(s: State) returns (t: nat)
    requires Inv(s) && !s.main.Quit? && |s.workers| > 0 && Contents(s.ring) != []
    ensures t < |s.workers| && !s.workers[t].Sleeping?
  {
    t := 0;
    if Sleeps(s, 0) {
      SignalledOne(s.workers);
      t :| 0 <= t < |s.workers| && IsSignalled(s.workers[t]);
    }
  }

  /** A step of a worker, or of the main thread about to put a connection it holds the lock for. */
  predicate Serves(e: Event)
  {
    e.Lock? || e.Wait? || e.Take? || e.Done? || e.Put?
  }

  /** With something pending the server is never stuck, nor left to a spurious wakeup or a new connection. */
  lemma PendingIsServed(n: nat, s: State)
    requires Reachable(n, s) && n > 0 && !s.main.Quit? && RingOk(s.ring) && Contents(s.ring) != []
    ensures exists e :: Serves(e) && Enabled(s, e)
  {
    ReachableInv(n, s);
    EmptyContents(s.ring);
    if t :| 0 <= t < n && s.workers[t].HasLock? {
      assert Enabled(s, Take(t));
    } else if s.main.MainHasLock? {
      var woken := set t | 0 <= t < n && Sleeps(s, t);
      assert forall t :: Sleeps(s, t) ==> t in woken;
      assert Enabled(s, Put(woken));
    } else {
      var t := SomeAwake(s);
      assert Enabled(s, Lock(t)) || Enabled(s, Done(t));
    }
  }

  // ---------- between arrivals ----------

  function Rank(w: Worker): nat
  {
    match w case Serving(_) => 3 case WantsLock => 2 case Woken(_) => 2 case HasLock(_) => 1 case Sleeping => 0
  }

  function Ranks(workers: seq<Worker>): nat
  {
    if workers == [] then 0 else Ranks(workers[..|workers| - 1]) + Rank(workers[|workers| - 1])
  }

  lemma {:induction false} RanksUpdate(workers: seq<Worker>, t: nat, w: Worker)
    requires t < |workers|
    ensures Ranks(workers[t := w]) + Rank(workers[t]) == Ranks(workers) + Rank(w)
  {
    var n := |workers| - 1;
    if t == n {
      assert workers[t := w][..n] == workers[..n];
    } else {
      assert workers[t := w][..n] == workers[..n][t := w];
      RanksUpdate(workers[..n], t, w);
    }
  }

  lemma {:induction false} RanksWake(workers: seq<Worker>, woken: set<nat>)
    ensures Ranks(Wake(workers, woken)) <= Ranks(workers) + 2 * |workers|
  {
    if workers != [] {
      var n := |workers| - 1;
      assert Wake(workers, woken)[..n] == Wake(workers[..n], woken);
      RanksWake(workers[..n], woken);
    }
  }

  /** A bound on the steps left before the threads are all asleep or the main thread is needed. */
  ghost function Bound(s: State): nat
    requires RingOk(s.ring)
  {
    5 * |Contents(s.ring)| + Ranks(s.workers) + MainRank(s.main, |s.workers|)
  }

  function MainRank(main: MainPc, n: nat): nat
  {
    match main
    case Accepting => 0
    case MainWantsLock(_) => 2 * n + 7
    case MainHasLock(_) => 2 * n + 6
    case Quit => 0
  }

  lemma PutDecreases(s: State, woken: set<nat>)
    requires Enabled(s, Put(woken))
    ensures RingOk(Next(s, Put(woken)).ring) && Bound(Next(s, Put(woken))) < Bound(s)
  {
    PutContents(s.ring, s.main.fd);
    EmptyContents(PutRing(s.ring, s.main.fd));
    RanksWake(s.workers, woken);
  }

  lemma TakeDecreases(s: State, t: nat)
    requires Enabled(s, Take(t))
    ensures RingOk(Next(s, Take(t)).ring) && Bound(Next(s, Take(t))) < Bound(s)
  {
    var u := Next(s, Take(t));
    TakeOneLess(s.ring);
    RanksUpdate(s.workers, t, u.workers[t]);
    assert u.ring == TakeRing(s.ring) && u.workers == s.workers[t := u.workers[t]] && u.main == s.main;
  }

  lemma WorkerDecreases(s: State, e: Event)
    requires Enabled(s, e) && (e.Lock? || e.Wait? || e.Done?)
    ensures RingOk(Next(s, e).ring) && Bound(Next(s, e)) < Bound(s)
  {
    RanksUpdate(s.workers, e.t, Next(s, e).workers[e.t]);
  }

  lemma StepDecreases(s: State, e: Event)
    requires Enabled(s, e) && !e.Accept? && !e.Spurious?
    ensures RingOk(Next(s, e).ring) && Bound(Next(s, e)) < Bound(s)
  {
    if e.Put? {
      PutDecreases(s, e.woken);
    } else if e.Take? {
      TakeDecreases(s, e.t);
    } else if !e.MainLock? {
      WorkerDecreases(s, e);
    }
  }

  /**
   * Without new connections and spurious wakeups the threads cannot run for ever.
   */
  lemma {:induction false} ServiceIsFinite(s: State, es: seq<Event>, t: State)
    requires Inv(s) && IsRun(s, es, t)
    requires forall k :: 0 <= k < |es| ==> !es[k].Accept? && !es[k].Spurious?
    ensures Inv(t) && |es| <= Bound(s) - Bound(t)
    decreases |es|
  {
    if es != [] {
      StepKeeps(s, es[0]);
      StepDecreases(s, es[0]);
      ServiceIsFinite(Next(s, es[0]), es[1..], t);
    }
  }

  /** Where nothing but a new connection or a spurious wakeup is possible, everything queued was taken. */
  lemma StuckIsServed(n: nat, s: State)
    requires Reachable(n, s) && n > 0 && !s.main.Quit?
    requires forall e: Event :: Enabled(s, e) ==> e.Accept? || e.Spurious?
    ensures RingOk(s.ring) && Contents(s.ring) == [] && s.queued == Fds(s.taken)
    ensures |s.workers| == n && forall t :: 0 <= t < n ==> s.workers[t].Sleeping?
  {
    ReachableInv(n, s);
    if Contents(s.ring) != [] {
      PendingIsServed(n, s);
    }
    Nil(Fds(s.taken));
    EmptyContents(s.ring);
    NobodyHolds(n, s);
    forall t | 0 <= t < n ensures s.workers[t].Sleeping? {
      assert !Enabled(s, Lock(t)) && !Enabled(s, Done(t));
    }
  }

  /** There nobody holds the mutex: its holder could go on. */
  lemma NobodyHolds(n: nat, s: State)
    requires Inv(s) && |s.workers| == n && !s.main.Quit?
    requires forall e: Event :: Enabled(s, e) ==> e.Accept? || e.Spurious?
    ensures s.mutex.Free? && forall t :: 0 <= t < n ==> !s.workers[t].HasLock?
  {
    if s.main.MainHasLock? {
      var woken := set t | 0 <= t < n && Sleeps(s, t);
      assert forall t :: Sleeps(s, t) ==> t in woken;
      assert Enabled(s, Put(woken));
    }
    forall t | 0 <= t < n ensures !s.workers[t].HasLock? {
      assert !Enabled(s, Take(t)) && !Enabled(s, Wait(t));
    }
  }

  // ---------- a run that fills the ring ----------

  lemma {:induction false} RunSnoc(s: State, es: seq<Event>, t: State, e: Event)
    requires IsRun(s, es, t) && Enabled(t, e)
    ensures IsRun(s, es + [e], Next(t, e))
    decreases |es|
  {
    if es == [] {
      Nil([e]);
    } else {
      RunSnoc(Next(s, es[0]), es[1..], t, e);
      assert (es + [e])[1..] == es[1..] + [e];
    }
  }

  lemma ReachableNext(n: nat, s: State, e: Event)
    requires Reachable(n, s) && Enabled(s, e)
    ensures Reachable(n, Next(s, e))
  {
    var es :| IsRun(Init(n), es, s);
    RunSnoc(Init(n), es, s, e);
  }

  /** While no worker gets the mutex, the main thread can queue `k` connections. */
  ghost predicate Piled(n: nat, s: State, k: nat)
  {
    && Reachable(n, s) && s.main.Accepting? && s.mutex.Free? && RingOk(s.ring) && |Contents(s.ring)| == k
    && |s.workers| == |s.threadCount| == n && forall t :: 0 <= t < n ==> s.workers[t].WantsLock?
  }

  lemma PileOne(n: nat, s: State, k: nat, fd: int) returns (t: State)
    requires Piled(n, s, k)
    ensures Reachable(n, t) && t.main.MainHasLock? && t.ring == s.ring && t.workers == s.workers
    ensures Enabled(t, Put({})) && t.threadCount == s.threadCount
  {
    ReachableNext(n, s, Accept(fd));
    var u := Next(s, Accept(fd));
    ReachableNext(n, u, MainLock);
    t := Next(u, MainLock);
    assert forall i :: !Sleeps(t, i);
  }

  lemma {:induction false} Pile(n: nat, k: nat, fd: int) returns (s: State)
    requires k < MAXNCLI
    ensures Piled(n, s, k)
  {
    if k == 0 {
      s := Init(n);
      assert IsRun(Init(n), [], s);
    } else {
      var u := Pile(n, k - 1, fd);
      var t := PileOne(n, u, k - 1, fd);
      PutContents(t.ring, t.main.fd);
      ReachableNext(n, t, Put({}));
      s := Next(t, Put({}));
      assert s.workers == t.workers;
    }
  }

  /** So the 32nd connection can end the server, however many threads there are. */
  lemma QuitIsReachable(n: nat, fd: int) returns (s: State)
    ensures Reachable(n, s) && s.main.Quit?
  {
    var u := Pile(n, MAXNCLI - 1, fd);
    var t := PileOne(n, u, MAXNCLI - 1, fd);
    QuitsWhenFull(n, t, {});
    ReachableNext(n, t, Put({}));
    s := Next(t, Put({}));
  }
}
