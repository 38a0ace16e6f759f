/**
 * The preforked server that passes descriptors: a parent hands each accepted connection to an
 * idle child over a stream pipe, the child answers with one byte when it is idle again.
 * Parent, children and pipes are a state machine; every interleaving is a run.
 */
module Prefork {
  import opened Prelude

  // ---------- states ----------

  /** What `select` reported: the listening socket, and children's pipes. */
  datatype Ready = Ready(listen: bool, pipes: set<nat>)

  /** Where the parent is in its loop. */
  datatype Pc =
    | Top
    | Selected(ready: Ready, nsel: int)
    | Sending(child: nat, conn: nat, ready: Ready, nsel: int)
    | Scanning(i: nat, ready: Ready, nsel: int)
    | NoAvailableChildren

  /** Where a child is in its loop. */
  datatype ChildPc = Receiving | Serving(conn: nat) | Replying

  /** A child and its pipe: descriptors on their way to it, ready bytes on their way back. */
  datatype Child = Child(pc: ChildPc, down: seq<nat>, up: nat, served: seq<nat>)

  /** `log[k]` is the child that connection number `k` was given to. */
  datatype State = State(
    pc: Pc, status: seq<nat>, count: seq<nat>, navail: int,
    children: seq<Child>, backlog: nat, log: seq<nat>)

  function Init(n: nat): State
  {
    State(Top, seq(n, _ => 0), seq(n, _ => 0), n, seq(n, _ => Child(Receiving, [], 0, [])), 0, [])
  }

  // ---------- steps ----------

  datatype Event =
    | Arrive
    | Select(ready: Ready)
    | Accept
    | NoConnection
    | Send
    | Scan
    | Receive(child: nat)
    | Serve(child: nat)
    | Reply(child: nat)

  /** The first child with status 0, or the number of children when there is none. */
  function FirstAvailable(status: seq<nat>): (i: nat)
    ensures i <= |status|
    ensures forall k :: 0 <= k < i ==> status[k] != 0
    ensures i < |status| ==> status[i] == 0
  {
    if status == [] then 0
    else if status[0] == 0 then 0
    else FirstAvailable(status[1..]) + 1
  }

  predicate Enabled(s: State, e: Event)
  {
    match e
    case Arrive => true
    case Select(ready) =>
      && s.pc.Top?
      && (ready.listen || ready.pipes != {})
      && (ready.listen ==> s.navail > 0 && s.backlog > 0)
      && forall k :: k in ready.pipes ==> k < |s.children| && s.children[k].up > 0
    case Accept => s.pc.Selected? && s.pc.ready.listen && s.backlog > 0
    case NoConnection => s.pc.Selected? && !s.pc.ready.listen
    case Send => s.pc.Sending? && s.pc.child < |s.children|
    case Scan =>
      s.pc.Scanning? && |s.status| == |s.children|
      && (s.pc.i < |s.status| && s.pc.i in s.pc.ready.pipes ==> s.children[s.pc.i].up > 0)
    case Receive(i) => i < |s.children| && s.children[i].pc.Receiving? && s.children[i].down != []
    case Serve(i) => i < |s.children| && s.children[i].pc.Serving?
    case Reply(i) => i < |s.children| && s.children[i].pc.Replying?
  }

  function AcceptStep(s: State): State
    requires Enabled(s, Accept)
  {
    var i := FirstAvailable(s.status);
    if i == |s.status| || i >= |s.count| then s.(pc := NoAvailableChildren)
    else s.(pc := Sending(i, |s.log|, s.pc.ready, s.pc.nsel),
            status := s.status[i := 1], count := s.count[i := s.count[i] + 1],
            navail := s.navail - 1, backlog := s.backlog - 1, log := s.log + [i])
  }

  function SendStep(s: State): State
    requires Enabled(s, Send)
  {
    var c := s.children[s.pc.child];
    s.(pc := if s.pc.nsel - 1 == 0 then Top else Scanning(0, s.pc.ready, s.pc.nsel - 1),
       children := s.children[s.pc.child := c.(down := c.down + [s.pc.conn])])
  }

  function ScanStep(s: State): State
    requires Enabled(s, Scan)
  {
    var i := s.pc.i;
    if i == |s.status| then s.(pc := Top)
    else if i > |s.status| || i !in s.pc.ready.pipes then s.(pc := Scanning(i + 1, s.pc.ready, s.pc.nsel))
    else
      var c := s.children[i];
      s.(pc := if s.pc.nsel - 1 == 0 then Top else Scanning(i + 1, s.pc.ready, s.pc.nsel - 1),
         status := s.status[i := 0], navail := s.navail + 1,
         children := s.children[i := c.(up := c.up - 1)])
  }

  function ChildStep(c: Child): Child
    requires c.pc.Receiving? ==> c.down != []
  {
    match c.pc
    case Receiving => c.(pc := Serving(c.down[0]), down := c.down[1..])
    case Serving(conn) => c.(pc := Replying, served := c.served + [conn])
    case Replying => c.(pc := Receiving, up := c.up + 1)
  }

  function Next(s: State, e: Event): State
    requires Enabled(s, e)
  {
    match e
    case Arrive => s.(backlog := s.backlog + 1)
    case Select(ready) => s.(pc := Selected(ready, |ready.pipes| + One(ready.listen)))
    case Accept => AcceptStep(s)
    case NoConnection => s.(pc := Scanning(0, s.pc.ready, s.pc.nsel))
    case Send => SendStep(s)
    case Scan => ScanStep(s)
    case Receive(i) => s.(children := s.children[i := ChildStep(s.children[i])])
    case Serve(i) => s.(children := s.children[i := ChildStep(s.children[i])])
    case Reply(i) => s.(children := s.children[i := ChildStep(s.children[i])])
  }

  // ---------- what every run keeps ----------

  function Zeros01(status: seq<nat>): nat
  {
    if status == [] then 0
    else Zeros01(status[..|status| - 1]) + (if status[|status| - 1] == 0 then 1 else 0)
  }

  function Total(count: seq<nat>): nat
  {
    if count == [] then 0 else Total(count[..|count| - 1]) + count[|count| - 1]
  }

  /** The numbers of the connections given to child `i`, in order. */
  function GivenTo(log: seq<nat>, i: nat): seq<nat>
  {
    if log == [] then []
    else GivenTo(log[..|log| - 1], i) + (if log[|log| - 1] == i then [|log| - 1] else [])
  }

  function SendingTo(pc: Pc, i: nat): seq<nat>
  {
    if pc.Sending? && pc.child == i then [pc.conn] else []
  }

  function InService(c: Child): seq<nat>
  {
    if c.pc.Serving? then [c.pc.conn] else []
  }

  /** How many of the places a busy child can be in hold it: a pipe, the child itself, the parent. */
  function Busy(pc: Pc, c: Child, i: nat): nat
  {
    |SendingTo(pc, i)| + |c.down| + (if c.pc.Receiving? then 0 else 1) + c.up
  }

  /** Status 1 means exactly one of: descriptor in transit, child serving, ready byte in transit. */
  ghost predicate ChildOk(s: State, i: nat)
    requires i < |s.children| == |s.status| == |s.count|
  {
    var c := s.children[i];
    && s.status[i] <= 1
    && Busy(s.pc, c, i) == s.status[i]
    && c.served + InService(c) + c.down + SendingTo(s.pc, i) == GivenTo(s.log, i)
    && s.count[i] == |GivenTo(s.log, i)|
  }

  function From(pipes: set<nat>, i: nat): set<nat>
  {
    set k | k in pipes && k >= i
  }

  ghost predicate Waiting(s: State, pipes: set<nat>)
  {
    forall k :: k in pipes ==> k < |s.children| && s.children[k].up > 0
  }

  ghost predicate PcOk(s: State)
  {
    match s.pc
    case Top => true
    case Selected(r, nsel) =>
      && nsel == |r.pipes| + One(r.listen) && nsel > 0
      && (r.listen ==> s.navail > 0 && s.backlog > 0) && Waiting(s, r.pipes)
    case Sending(i, conn, r, nsel) =>
      i < |s.children| && nsel == |r.pipes| + 1 && Waiting(s, r.pipes)
    case Scanning(i, r, nsel) =>
      i < |s.children| && nsel == |From(r.pipes, i)| && nsel > 0 && Waiting(s, From(r.pipes, i))
    case NoAvailableChildren => false
  }

  ghost predicate Inv(s: State)
  {
    && |s.children| == |s.status| == |s.count|
    && (forall i :: 0 <= i < |s.children| ==> ChildOk(s, i))
    && (forall k :: 0 <= k < |s.log| ==> s.log[k] < |s.children|)
    && s.navail == Zeros01(s.status)
    && Total(s.count) == |s.log|
    && PcOk(s)
  }

  // ---------- counting ----------

  lemma {:induction false} Zeros01Update(status: seq<nat>, i: nat, v: nat)
    requires i < |status|
    ensures Zeros01(status[i := v]) + (if status[i] == 0 then 1 else 0)
            == Zeros01(status) + (if v == 0 then 1 else 0)
  {
    var n := |status| - 1;
    if i == n {
      assert status[i := v][..n] == status[..n];
    } else {
      assert status[i := v][..n] == status[..n][i := v];
      Zeros01Update(status[..n], i, v);
    }
  }

  lemma {:induction false} Zeros01Positive(status: seq<nat>)
    ensures Zeros01(status) > 0 <==> FirstAvailable(status) < |status|
  {
    if status != [] {
      Zeros01Positive(status[..|status| - 1]);
      var i, j := FirstAvailable(status), FirstAvailable(status[..|status| - 1]);
      assert j < |status| - 1 ==> status[..|status| - 1][j] == status[j];
      assert forall k :: 0 <= k < |status| - 1 ==> status[..|status| - 1][k] == status[k];
    }
  }

  lemma {:induction false} TotalUpdate(count: seq<nat>, i: nat)
    requires i < |count|
    ensures Total(count[i := count[i] + 1]) == Total(count) + 1
  {
    var n := |count| - 1;
    if i == n {
      assert count[i := count[i] + 1][..n] == count[..n];
    } else {
      assert count[i := count[i] + 1][..n] == count[..n][i := count[i] + 1];
      TotalUpdate(count[..n], i);
    }
  }

  lemma {:induction false} InitCounts(n: nat)
    ensures Zeros01(seq(n, _ => 0)) == n && Total(seq(n, _ => 0)) == 0
  {
    if n > 0 {
      InitCounts(n - 1);
      assert seq(n, _ => 0)[..n - 1] == seq(n - 1, _ => 0);
    }
  }

  lemma GivenToSnoc(log: seq<nat>, j: nat, i: nat)
    ensures GivenTo(log + [j], i) == GivenTo(log, i) + (if j == i then [|log|] else [])
  {
    Halves(log, [j]);
  }

  lemma FromSplit(pipes: set<nat>, i: nat)
    ensures |From(pipes, i)| == |From(pipes, i + 1)| + (if i in pipes then 1 else 0)
  {
    if i in pipes {
      assert From(pipes, i) == From(pipes, i + 1) + {i};
    } else {
      assert From(pipes, i) == From(pipes, i + 1);
    }
  }

  lemma FromBeyond(pipes: set<nat>, n: nat)
    requires forall k :: k in pipes ==> k < n
    ensures |From(pipes, n)| == 0
  {
    assert From(pipes, n) == {};
  }

  lemma FromStart(pipes: set<nat>)
    ensures From(pipes, 0) == pipes
  {
  }

  // ---------- each step keeps the invariant ----------

  lemma InitInv(n: nat)
    ensures Inv(Init(n))
  {
    InitCounts(n);
  }

  lemma AcceptChild(s: State, k: nat)
    requires Inv(s) && Enabled(s, Accept) && k < |s.children| && FirstAvailable(s.status) < |s.status|
    ensures ChildOk(Next(s, Accept), k)
  {
    assert ChildOk(s, k);
    GivenToSnoc(s.log, FirstAvailable(s.status), k);
  }

  lemma AcceptKeeps(s: State)
    requires Inv(s) && Enabled(s, Accept)
    ensures Inv(Next(s, Accept))
  {
    var i := FirstAvailable(s.status);
    Zeros01Positive(s.status);
    Zeros01Update(s.status, i, 1);
    TotalUpdate(s.count, i);
    forall k | 0 <= k < |s.children| ensures ChildOk(Next(s, Accept), k) {
      AcceptChild(s, k);
    }
  }

  lemma SendKeeps(s: State)
    requires Inv(s) && Enabled(s, Send)
    ensures Inv(Next(s, Send))
  {
    var t := Next(s, Send);
    forall k | 0 <= k < |t.children| ensures ChildOk(t, k) {
      assert ChildOk(s, k);
    }
    FromStart(s.pc.ready.pipes);
    ReadyChildExists(s);
  }

  /** A pipe still to be read belongs to a child, so there is a child. */
  lemma ReadyChildExists(s: State)
    requires Inv(s) && s.pc.Sending?
    ensures s.pc.ready.pipes != {} ==> 0 < |s.children|
  {
  }

  /** The pipes after `i` still wait when at most child `i` has changed. */
  lemma WaitingRest(s: State, t: State, pipes: set<nat>, i: nat)
    requires Waiting(s, From(pipes, i)) && |t.children| == |s.children|
    requires forall k :: 0 <= k < |s.children| && k != i ==> t.children[k] == s.children[k]
    ensures Waiting(t, From(pipes, i + 1))
  {
    forall k | k in From(pipes, i + 1) ensures k < |t.children| && t.children[k].up > 0 {
      assert k in From(pipes, i);
    }
  }

  lemma ScanKeeps(s: State)
    requires Inv(s) && Enabled(s, Scan)
    ensures Inv(Next(s, Scan))
  {
    var i, pipes := s.pc.i, s.pc.ready.pipes;
    FromSplit(pipes, i);
    var t := Next(s, Scan);
    assert Waiting(s, From(pipes, i));
    if i in pipes {
      assert i in From(pipes, i);
      assert ChildOk(s, i);
      Zeros01Update(s.status, i, 0);
    }
    forall k | 0 <= k < |t.children| ensures ChildOk(t, k) {
      assert ChildOk(s, k);
    }
    if t.pc.Scanning? {
      WaitingRest(s, t, pipes, i);
      assert t.pc.i == i + 1 && t.pc.ready.pipes == pipes;
    }
  }

  lemma ChildKeeps(s: State, i: nat)
    requires Inv(s) && i < |s.children| && (s.children[i].pc.Receiving? ==> s.children[i].down != [])
    ensures Inv(s.(children := s.children[i := ChildStep(s.children[i])]))
  {
    var t := s.(children := s.children[i := ChildStep(s.children[i])]);
    forall k | 0 <= k < |t.children| ensures ChildOk(t, k) {
      assert ChildOk(s, k);
      if k == i {
        var c := s.children[i];
        if c.pc.Receiving? {
          assert [c.down[0]] + c.down[1..] == c.down;
        }
      }
    }
    WaitingKept(s, t, i);
  }

  lemma WaitingKept(s: State, t: State, i: nat)
    requires i < |s.children| && |t.children| == |s.children| && t.children[i].up >= s.children[i].up
    requires forall k :: 0 <= k < |s.children| && k != i ==> t.children[k] == s.children[k]
    ensures forall pipes :: Waiting(s, pipes) ==> Waiting(t, pipes)
  {
  }

  lemma StepKeeps(s: State, e: Event)
    requires Inv(s) && Enabled(s, e)
    ensures Inv(Next(s, e))
  {
    match e
    case Arrive =>
      forall k | 0 <= k < |s.children| ensures ChildOk(Next(s, e), k) {
        assert ChildOk(s, k);
      }
    case Select(ready) =>
      forall k | 0 <= k < |s.children| ensures ChildOk(Next(s, e), k) {
        assert ChildOk(s, k);
      }
    case Accept => AcceptKeeps(s);
    case NoConnection =>
      forall k | 0 <= k < |s.children| ensures ChildOk(Next(s, e), k) {
        assert ChildOk(s, k);
      }
      FromStart(s.pc.ready.pipes);
    case Send => SendKeeps(s);
    case Scan => ScanKeeps(s);
    case Receive(i) => ChildKeeps(s, i);
    case Serve(i) => ChildKeeps(s, i);
    case Reply(i) => ChildKeeps(s, i);
  }

  // ---------- runs ----------

  ghost predicate IsRun(s: State, es: seq<Event>, t: State)
    decreases |es|
  {
    if es == [] then s == t
    else Enabled(s, es[0]) && IsRun(Next(s, es[0]), es[1..], t)
  }

  ghost predicate Reachable(n: nat, s: State)
  {
    exists es :: IsRun(Init(n), es, s)
  }

  lemma {:induction false} RunKeeps(s: State, es: seq<Event>, t: State)
    requires Inv(s) && IsRun(s, es, t)
    ensures Inv(t) && |t.children| == |s.children|
    decreases |es|
  {
    if es != [] {
      StepKeeps(s, es[0]);
      RunKeeps(Next(s, es[0]), es[1..], t);
    }
  }

  lemma ReachableInv(n: nat, s: State)
    requires Reachable(n, s)
    ensures Inv(s) && |s.children| == n
  {
    var es :| IsRun(Init(n), es, s);
    InitInv(n);
    RunKeeps(Init(n), es, s);
  }

  // ---------- what that means ----------

  /** Everything child `i` was given, from what it has served to what is on its way. */
  function Path(s: State, i: nat): seq<nat>
    requires i < |s.children|
  {
    s.children[i].served + InService(s.children[i]) + s.children[i].down + SendingTo(s.pc, i)
  }

  lemma {:induction false} GivenToHolds(log: seq<nat>, i: nat)
    ensures forall k: nat :: k in GivenTo(log, i) <==> k < |log| && log[k] == i
  {
    if log != [] {
      var front := log[..|log| - 1];
      GivenToHolds(front, i);
      assert forall k: nat :: k < |front| ==> front[k] == log[k];
    }
  }

  lemma {:induction false} GivenToAscends(log: seq<nat>, i: nat)
    ensures forall a, b :: 0 <= a < b < |GivenTo(log, i)| ==> GivenTo(log, i)[a] < GivenTo(log, i)[b]
  {
    if log != [] {
      var front := GivenTo(log[..|log| - 1], i);
      GivenToAscends(log[..|log| - 1], i);
      GivenToHolds(log[..|log| - 1], i);
      assert forall a :: 0 <= a < |front| ==> front[a] in front;
    }
  }

  /** Each connection is with exactly one child, once, and a child is given them in order. */
  lemma EachConnectionOnce(n: nat, s: State, i: nat)
    requires Reachable(n, s) && i < n
    ensures |s.children| == |s.count| == n
    ensures forall k: nat :: k in Path(s, i) <==> k < |s.log| && s.log[k] == i
    ensures forall a, b :: 0 <= a < b < |Path(s, i)| ==> Path(s, i)[a] < Path(s, i)[b]
    ensures s.count[i] == |Path(s, i)|
  {
    ReachableInv(n, s);
    assert ChildOk(s, i);
    GivenToHolds(s.log, i);
    GivenToAscends(s.log, i);
  }

  /** The accounting of the parent against the places a child can be busy in. */
  lemma StatusMeansBusy(n: nat, s: State, i: nat)
    requires Reachable(n, s) && i < n
    ensures |s.children| == |s.status| == n
    ensures var c := s.children[i];
            var toChild := |SendingTo(s.pc, i)| + |c.down|;
            var atChild := if c.pc.Receiving? then 0 else 1;
            && s.status[i] in {0, 1}
            && (s.status[i] == 0 <==> toChild == 0 && atChild == 0 && c.up == 0)
            && (s.status[i] == 1 <==> toChild + atChild + c.up == 1)
  {
    ReachableInv(n, s);
    assert ChildOk(s, i);
  }

  lemma Accounting(n: nat, s: State)
    requires Reachable(n, s)
    ensures s.navail == Zeros01(s.status) && Total(s.count) == |s.log|
    ensures !s.pc.NoAvailableChildren?
  {
    ReachableInv(n, s);
  }

  /** `nsel` ends a pass over the children only when no reported pipe is left unread. */
  lemma NothingReportedIsSkipped(n: nat, s: State, e: Event)
    requires Reachable(n, s) && Enabled(s, e) && Next(s, e).pc.Top? && !s.pc.Top?
    ensures s.pc.Scanning? ==> s.pc.i in s.pc.ready.pipes && forall k :: k in s.pc.ready.pipes ==> k <= s.pc.i
    ensures s.pc.Sending? ==> s.pc.ready.pipes == {}
    ensures s.pc.Scanning? || s.pc.Sending?
  {
    ReachableInv(n, s);
    if s.pc.Scanning? {
      var i, pipes := s.pc.i, s.pc.ready.pipes;
      FromSplit(pipes, i);
      assert forall k :: k in pipes && k > i ==> k in From(pipes, i + 1);
      assert From(pipes, i + 1) == {};
    }
  }

  // ---------- progress ----------

  /** Everything accepted has been served and every child is idle, nothing is pending. */
  ghost predicate Quiet(s: State)
  {
    && s.pc.Top? && s.backlog == 0
    && forall i :: 0 <= i < |s.children| ==>
         s.children[i].pc.Receiving? && s.children[i].down == [] && s.children[i].up == 0
  }

  /** No deadlock: short of that, some step other than an arrival is possible. */
  lemma Progress(n: nat, s: State)
    requires Reachable(n, s) && n > 0 && !Quiet(s)
    ensures exists e: Event :: !e.Arrive? && Enabled(s, e)
  {
    ReachableInv(n, s);
    if s.pc.Top? {
      ProgressAtTop(s);
    } else {
      var e := match s.pc
        case Selected(r, _) => if r.listen then Accept else NoConnection
        case Sending(_, _, _, _) => Send
        case _ => Scan;
      if s.pc.Scanning? {
        assert s.pc.i in s.pc.ready.pipes ==> s.pc.i in From(s.pc.ready.pipes, s.pc.i);
      }
      assert Enabled(s, e);
    }
  }

  lemma ProgressAtTop(s: State)
    requires Inv(s) && s.pc.Top? && |s.children| > 0 && !Quiet(s)
    ensures exists e: Event :: !e.Arrive? && Enabled(s, e)
  {
    if i :| 0 <= i < |s.children| && s.children[i].up > 0 {
      assert Enabled(s, Select(Ready(false, {i})));
    } else if i :| 0 <= i < |s.children| && s.children[i].pc.Serving? {
      assert Enabled(s, Serve(i));
    } else if i :| 0 <= i < |s.children| && s.children[i].pc.Replying? {
      assert Enabled(s, Reply(i));
    } else if i :| 0 <= i < |s.children| && s.children[i].down != [] {
      assert Enabled(s, Receive(i));
    } else {
      assert ChildOk(s, 0);
      assert s.status[0] == 0;
      Zeros01Positive(s.status);
      assert Enabled(s, Select(Ready(true, {})));
    }
  }

  /** The steps a child still has before it can be idle again. */
  function ChildWork(c: Child): nat
  {
    4 * |c.down| + (match c.pc case Receiving => 0 case Serving(_) => 3 case Replying => 2) + c.up
  }

  function Work(children: seq<Child>): nat
  {
    if children == [] then 0 else Work(children[..|children| - 1]) + ChildWork(children[|children| - 1])
  }

  lemma {:induction false} WorkUpdate(children: seq<Child>, i: nat, c: Child)
    requires i < |children|
    ensures Work(children[i := c]) + ChildWork(children[i]) == Work(children) + ChildWork(c)
  {
    var n := |children| - 1;
    if i == n {
      assert children[i := c][..n] == children[..n];
    } else {
      assert children[i := c][..n] == children[..n][i := c];
      WorkUpdate(children[..n], i, c);
    }
  }

  /** Steps still to be made on behalf of connections. */
  function Pending(s: State): nat
  {
    6 * s.backlog + (if s.pc.Sending? then 5 else 0) + Work(s.children)
  }

  /** Steps the parent can make before it next does one of those. */
  function Distance(s: State): int
  {
    var n := |s.children|;
    match s.pc
    case Top => n + 3
    case Selected(_, _) => n + 2
    case Scanning(i, _, _) => n + 1 - i
    case _ => 0
  }

  /** One step nearer to the quiet state. */
  ghost predicate Nearer(t: State, s: State)
  {
    Pending(t) < Pending(s) || (Pending(t) == Pending(s) && Distance(t) < Distance(s))
  }

  lemma ChildNearer(s: State, e: Event)
    requires Inv(s) && Enabled(s, e) && (e.Receive? || e.Serve? || e.Reply?)
    ensures Nearer(Next(s, e), s)
  {
    var i := match e case Receive(i) => i case Serve(i) => i case Reply(i) => i;
    WorkUpdate(s.children, i, ChildStep(s.children[i]));
  }

  lemma SendNearer(s: State)
    requires Inv(s) && Enabled(s, Send)
    ensures Nearer(Next(s, Send), s)
  {
    var c := s.children[s.pc.child];
    WorkUpdate(s.children, s.pc.child, c.(down := c.down + [s.pc.conn]));
  }

  lemma ScanNearer(s: State)
    requires Inv(s) && Enabled(s, Scan)
    ensures Nearer(Next(s, Scan), s)
  {
    if s.pc.i in s.pc.ready.pipes {
      var c := s.children[s.pc.i];
      WorkUpdate(s.children, s.pc.i, c.(up := c.up - 1));
    }
  }

  lemma AcceptNearer(s: State)
    requires Inv(s) && Enabled(s, Accept)
    ensures Nearer(Next(s, Accept), s)
  {
    AcceptKeeps(s);
  }

  /** Every step but an arrival brings the quiet state closer. */
  lemma StepDecreases(s: State, e: Event)
    requires Inv(s) && Enabled(s, e) && !e.Arrive?
    ensures Nearer(Next(s, e), s)
  {
    if e.Receive? || e.Serve? || e.Reply? {
      ChildNearer(s, e);
    } else if e.Send? {
      SendNearer(s);
    } else if e.Scan? {
      ScanNearer(s);
    } else if e.Accept? {
      AcceptNearer(s);
    }
  }

  function Bound(s: State): int
  {
    Pending(s) * (|s.children| + 4) + Distance(s)
  }

  /**
   * Without new arrivals every run is finite, whatever the scheduling: `Bound` of the state it
   * starts in limits its length.
   */
  lemma {:induction false} RunsAreFinite(s: State, es: seq<Event>, t: State)
    requires Inv(s) && IsRun(s, es, t) && forall k :: 0 <= k < |es| ==> !es[k].Arrive?
    ensures |es| <= Bound(s)
    decreases |es|
  {
    if es == [] {
      BoundNat(s);
    } else {
      BoundStep(s, es[0]);
      RunsAreFinite(Next(s, es[0]), es[1..], t);
    }
  }

  lemma BoundNat(s: State)
    requires Inv(s)
    ensures Bound(s) >= 0
  {
    DistanceInRange(s);
    ProductNat(Pending(s), |s.children| + 4);
  }

  lemma ProductNat(a: nat, m: nat)
    ensures a * m >= 0
  {
  }

  /** A run that cannot go on without a new connection has served every connection, each by its child. */
  lemma StuckIsServed(n: nat, s: State)
    requires Reachable(n, s) && n > 0 && forall e: Event :: Enabled(s, e) ==> e.Arrive?
    ensures Quiet(s) && |s.children| == n
    ensures forall i :: 0 <= i < n ==> s.children[i].served == GivenTo(s.log, i)
  {
    if !Quiet(s) {
      Progress(n, s);
    }
    ReachableInv(n, s);
    forall i | 0 <= i < n ensures s.children[i].served == GivenTo(s.log, i) {
      assert ChildOk(s, i);
      Nil(s.children[i].served);
    }
  }

  lemma BoundStep(s: State, e: Event)
    requires Inv(s) && Enabled(s, e) && !e.Arrive?
    ensures Inv(Next(s, e)) && Bound(Next(s, e)) < Bound(s)
  {
    var u := Next(s, e);
    StepKeeps(s, e);
    StepDecreases(s, e);
    DistanceInRange(s);
    DistanceInRange(u);
    BoundDecreases(Pending(s), Pending(u), |s.children| + 4, Distance(s), Distance(u));
  }

  lemma DistanceInRange(s: State)
    requires Inv(s)
    ensures 0 <= Distance(s) <= |s.children| + 3
  {
  }

  lemma BoundDecreases(a: nat, b: nat, m: nat, d: int, c: int)
    requires b < a || (b == a && c < d)
    requires 0 <= d < m && c < m
    ensures b * m + c < a * m + d
  {
    if b < a {
      OneMoreTime(b, a, m);
    }
  }

  lemma {:induction false} OneMoreTime(b: nat, a: nat, m: nat)
    requires b < a
    ensures b * m + m <= a * m
  {
    assert a * m == (a - 1) * m + m;
    if b < a - 1 {
      OneMoreTime(b, a - 1, m);
    }
  }
}
