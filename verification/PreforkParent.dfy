/** One turn of the parent's loop, on the child table it keeps. */
module PreforkParent {
  import opened Prelude
  import opened Prefork

  /** The statuses with the ready bytes of `pipes` collected. */
  function Collected(status: seq<nat>, pipes: set<nat>): (r: seq<nat>)
    ensures |r| == |status|
    ensures forall k :: 0 <= k < |status| ==> r[k] == if k in pipes then 0 else status[k]
  {
    seq(|status|, k requires 0 <= k < |status| => if k in pipes then 0 else status[k])
  }

  /** The statuses once the first available child is given a connection. */
  function Marked(status: seq<nat>, listen: bool): (r: seq<nat>)
    ensures |r| == |status|
  {
    var i := FirstAvailable(status);
    if listen && i < |status| then status[i := 1] else status
  }

  function Below(pipes: set<nat>, i: nat): set<nat>
  {
    set k | k in pipes && k < i
  }

  class Parent {
    var status: array<nat>
    var count: array<nat>
    var navail: int

    ghost predicate Valid()
      reads this, status, count
    {
      && status != count && status.Length == count.Length
      && navail == Zeros01(status[..])
    }

    /** The table after all the children are forked. */
    constructor (nchildren: nat)
      ensures Valid() && fresh(status) && fresh(count)
      ensures status[..] == Init(nchildren).status && count[..] == Init(nchildren).count
    {
      status := new nat[nchildren](_ => 0);
      count := new nat[nchildren](_ => 0);
      navail := nchildren;
      new;
      InitCounts(nchildren);
      assert status[..] == seq(nchildren, _ => 0);
      assert count[..] == seq(nchildren, _ => 0);
    }

    method FindAvailable() returns (i: nat)
      ensures i == FirstAvailable(status[..])
    {
      i := 0;
      while i < status.Length
        invariant 0 <= i <= status.Length
        invariant forall k :: 0 <= k < i ==> status[k] != 0
      {
        if status[i] == 0 {
          break;
        }
        i := i + 1;
      }
      assert i < status.Length ==> status[..][i] == 0;
    }

    /** Marking a child busy for a connection just accepted. */
    method MarkBusy() returns (i: nat)
      requires Valid() && navail > 0
      modifies this`navail, status, count
      ensures Valid()
      ensures i == FirstAvailable(old(status[..])) < status.Length
      ensures status[..] == old(status[..])[i := 1] && count[..] == old(count[..])[i := old(count[i]) + 1]
      ensures navail == old(navail) - 1
    {
      Zeros01Positive(status[..]);
      i := FindAvailable();
      Zeros01Update(status[..], i, 1);
      ghost var was := status[..];
      status[i] := 1;
      assert status[..] == was[i := 1];
      count[i] := count[i] + 1;
      navail := navail - 1;
    }

    /** The pass over the children, left as soon as `nsel` descriptors are accounted for. */
    method Collect(ready: Ready, nsel0: int)
      requires Valid() && nsel0 == |ready.pipes| > 0
      requires forall k :: k in ready.pipes ==> k < status.Length && status[k] != 0
      modifies this`navail, status
      ensures Valid()
      ensures status[..] == Collected(old(status[..]), ready.pipes)
      ensures navail == old(navail) + |ready.pipes|
    {
      ghost var was, pipes := status[..], ready.pipes;
      var nsel, i := nsel0, 0;
      FromStart(pipes);
      assert Below(pipes, 0) == {};
      while i < status.Length
        invariant 0 <= i <= status.Length && Valid()
        invariant nsel == |From(pipes, i)| && navail == old(navail) + |pipes| - nsel
        invariant status[..] == Collected(was, Below(pipes, i))
      {
        FromSplit(pipes, i);
        ghost var before := status[..];
        if i in ready.pipes {
          Zeros01Update(status[..], i, 0);
          status[i] := 0;
          assert status[..] == before[i := 0];
          navail := navail + 1;
          nsel := nsel - 1;
          assert status[..] == Collected(was, Below(pipes, i + 1));
          if nsel == 0 {
            AllBelow(pipes, i + 1);
            break;
          }
        } else {
          assert Below(pipes, i + 1) == Below(pipes, i);
        }
        i := i + 1;
      }
      if i == status.Length {
        FromBeyond(pipes, i);
        AllBelow(pipes, i);
      }
    }

    /**
     * From one `select` to the next: a connection goes to the first available child, and the
     * children whose pipes are ready become available.
     */
    method Turn(ready: Ready) returns (passedTo: Option<nat>)
      requires Valid() && (ready.listen || ready.pipes != {}) && (ready.listen ==> navail > 0)
      requires forall k :: k in ready.pipes ==> k < status.Length && status[k] != 0
      modifies this`navail, status, count
      ensures Valid()
      ensures passedTo == if ready.listen then Some(FirstAvailable(old(status[..]))) else None
      ensures status[..] == Collected(Marked(old(status[..]), ready.listen), ready.pipes)
      ensures ready.listen ==> passedTo.value < count.Length
      ensures ready.listen ==>
                count[..] == old(count[..])[passedTo.value := old(count[..])[passedTo.value] + 1]
      ensures !ready.listen ==> count[..] == old(count[..])
      ensures navail == old(navail) - One(ready.listen) + |ready.pipes|
    {
      var nsel := |ready.pipes| + One(ready.listen);
      passedTo := None;
      if ready.listen {
        var i := MarkBusy();
        passedTo := Some(i);
        nsel := nsel - 1;
        if nsel == 0 {
          assert status[..] == Collected(status[..], ready.pipes);
          return;
        }
      }
      Collect(ready, nsel);
    }
  }

  lemma AllBelow(pipes: set<nat>, i: nat)
    requires |From(pipes, i)| == 0
    ensures Below(pipes, i) == pipes
  {
    assert forall k :: k in pipes && k >= i ==> k in From(pipes, i);
    assert From(pipes, i) == {};
  }

  // ---------- a turn of the loop is a run of the machine ----------

  /** A step of the parent, not of a child or of the world outside. */
  predicate IsParents(e: Event)
  {
    e.Select? || e.Accept? || e.NoConnection? || e.Send? || e.Scan?
  }

  ghost predicate AllParents(es: seq<Event>)
  {
    forall k :: 0 <= k < |es| ==> IsParents(es[k])
  }

  /** Collecting from `i` on is collecting from `i` and then from the next. */
  lemma CollectStep(status: seq<nat>, pipes: set<nat>, i: nat)
    requires i < |status|
    ensures Collected(if i in pipes then status[i := 0] else status, From(pipes, i + 1))
            == Collected(status, From(pipes, i))
  {
    assert forall k :: k in From(pipes, i) <==> k in From(pipes, i + 1) || (k == i && i in pipes);
  }

  /** The pass over the children from `i`, as steps of the parent alone. */
  lemma {:induction false} ScanRun(s: State) returns (es: seq<Event>, t: State)
    requires Inv(s) && s.pc.Scanning?
    ensures IsRun(s, es, t) && t.pc.Top?
    ensures t.status == Collected(s.status, From(s.pc.ready.pipes, s.pc.i))
    ensures t.count == s.count && t.log == s.log && t.navail == s.navail + |From(s.pc.ready.pipes, s.pc.i)|
    ensures AllParents(es)
    decreases |s.children| - s.pc.i
  {
    var i, pipes := s.pc.i, s.pc.ready.pipes;
    assert i in pipes ==> i in From(pipes, i);
    assert Enabled(s, Scan);
    StepKeeps(s, Scan);
    FromSplit(pipes, i);
    var u := Next(s, Scan);
    CollectStep(s.status, pipes, i);
    if u.pc.Top? {
      assert From(pipes, i + 1) == {};
      es, t := [Scan], u;
      assert IsRun(u, es[1..], t);
    } else {
      es, t := ScanRun(u);
      RunCons(s, Scan, es, t);
      es := [Scan] + es;
    }
  }

  /** After `select` without a new connection. */
  lemma QuietRun(s: State) returns (es: seq<Event>, t: State)
    requires Inv(s) && s.pc.Selected? && !s.pc.ready.listen
    ensures IsRun(s, es, t) && t.pc.Top? && AllParents(es)
    ensures t.status == Collected(s.status, s.pc.ready.pipes) && t.count == s.count && t.log == s.log
    ensures t.navail == s.navail + |s.pc.ready.pipes|
  {
    FromStart(s.pc.ready.pipes);
    StepKeeps(s, NoConnection);
    es, t := ScanRun(Next(s, NoConnection));
    RunCons(s, NoConnection, es, t);
    es := [NoConnection] + es;
  }

  /** After a connection was accepted for a child: it is sent, then the pipes are read. */
  lemma SendRun(s: State) returns (es: seq<Event>, t: State)
    requires Inv(s) && s.pc.Sending?
    ensures IsRun(s, es, t) && t.pc.Top? && AllParents(es)
    ensures t.status == Collected(s.status, s.pc.ready.pipes) && t.count == s.count && t.log == s.log
    ensures t.navail == s.navail + |s.pc.ready.pipes|
  {
    FromStart(s.pc.ready.pipes);
    StepKeeps(s, Send);
    var w := Next(s, Send);
    if w.pc.Top? {
      es, t := [], w;
      assert s.pc.ready.pipes == {};
    } else {
      es, t := ScanRun(w);
    }
    RunCons(s, Send, es, t);
    es := [Send] + es;
  }

  /** After `select` with a new connection. */
  lemma ListenRun(s: State) returns (es: seq<Event>, t: State)
    requires Inv(s) && s.pc.Selected? && s.pc.ready.listen
    ensures var i := FirstAvailable(s.status);
            && i < |s.count| == |s.status|
            && t.status == Collected(s.status[i := 1], s.pc.ready.pipes)
            && t.count == s.count[i := s.count[i] + 1] && t.log == s.log + [i]
    ensures IsRun(s, es, t) && t.pc.Top? && AllParents(es)
    ensures t.navail == s.navail - 1 + |s.pc.ready.pipes|
  {
    StepKeeps(s, Accept);
    Zeros01Positive(s.status);
    es, t := SendRun(Next(s, Accept));
    RunCons(s, Accept, es, t);
    es := [Accept] + es;
  }

  /** From `select` back to the top, by steps of the parent alone: the table changes as `Turn` changes it. */
  lemma TurnIsRun(s: State, ready: Ready) returns (es: seq<Event>, t: State)
    requires Inv(s) && Enabled(s, Select(ready))
    ensures IsRun(s, es, t) && t.pc.Top? && AllParents(es)
    ensures t.status == Collected(Marked(s.status, ready.listen), ready.pipes)
    ensures t.log == if ready.listen then s.log + [FirstAvailable(s.status)] else s.log
    ensures var i := FirstAvailable(s.status);
            if ready.listen then i < |s.count| && t.count == s.count[i := s.count[i] + 1] else t.count == s.count
    ensures t.navail == s.navail - One(ready.listen) + |ready.pipes|
  {
    StepKeeps(s, Select(ready));
    var u := Next(s, Select(ready));
    if ready.listen {
      es, t := ListenRun(u);
    } else {
      es, t := QuietRun(u);
    }
    RunCons(s, Select(ready), es, t);
    es := [Select(ready)] + es;
  }

  lemma RunCons(s: State, e: Event, es: seq<Event>, t: State)
    requires Enabled(s, e) && IsRun(Next(s, e), es, t)
    ensures IsRun(s, [e] + es, t)
  {
    Halves([e], es);
  }
}
