/**
 * The bounded parallel fetcher: nonblocking connects to at most `maxnconn` servers at a time,
 * driven by `select`, with `start_connect` and `write_get_cmd`.
 */
module Web {
  import opened Prelude

  /** `f_flags`: zero, F_CONNECTING, F_READING or F_DONE. */
  datatype Flag = Untouched | Connecting | Reading | Done

  predicate InProgress(f: Flag) { f.Connecting? || f.Reading? }

  function Rank(f: Flag): nat
  {
    match f case Untouched => 0 case Connecting => 1 case Reading => 2 case Done => 3
  }

  /** No file has moved back. */
  ghost predicate Forward(before: seq<Flag>, after: seq<Flag>)
  {
    |before| == |after| && forall k :: 0 <= k < |before| ==> Rank(before[k]) <= Rank(after[k])
  }

  // ---------- counting files ----------

  function Progressing(flags: seq<Flag>): nat
  {
    if flags == [] then 0
    else Progressing(flags[..|flags| - 1]) + (if InProgress(flags[|flags| - 1]) then 1 else 0)
  }

  function NotDone(flags: seq<Flag>): nat
  {
    if flags == [] then 0
    else NotDone(flags[..|flags| - 1]) + (if flags[|flags| - 1].Done? then 0 else 1)
  }

  function ToStart(flags: seq<Flag>): nat
  {
    if flags == [] then 0
    else ToStart(flags[..|flags| - 1]) + (if flags[|flags| - 1].Untouched? then 1 else 0)
  }

  lemma {:induction false} CountsUpdate(flags: seq<Flag>, i: nat, f: Flag)
    requires i < |flags|
    ensures Progressing(flags[i := f]) + One(InProgress(flags[i])) == Progressing(flags) + One(InProgress(f))
    ensures NotDone(flags[i := f]) + One(!flags[i].Done?) == NotDone(flags) + One(!f.Done?)
    ensures ToStart(flags[i := f]) + One(flags[i].Untouched?) == ToStart(flags) + One(f.Untouched?)
  {
    var n := |flags| - 1;
    if i == n {
      assert flags[i := f][..n] == flags[..n];
    } else {
      assert flags[i := f][..n] == flags[..n][i := f];
      CountsUpdate(flags[..n], i, f);
    }
  }

  /** The counters are the numbers of files in progress, not done, and untouched. */
  lemma CountsAreNumbers(flags: seq<Flag>)
    ensures Progressing(flags) == |set i | 0 <= i < |flags| && (flags[i].Connecting? || flags[i].Reading?)|
    ensures NotDone(flags) == |set i | 0 <= i < |flags| && !flags[i].Done?|
    ensures ToStart(flags) == |set i | 0 <= i < |flags| && flags[i].Untouched?|
  {
    ProgressingIs(flags);
    NotDoneIs(flags);
    ToStartIs(flags);
  }

  lemma {:induction false} ProgressingIs(flags: seq<Flag>)
    ensures Progressing(flags) == |set i | 0 <= i < |flags| && (flags[i].Connecting? || flags[i].Reading?)|
  {
    if flags != [] {
      var n := |flags| - 1;
      ProgressingIs(flags[..n]);
      var front := set i | 0 <= i < n && (flags[..n][i].Connecting? || flags[..n][i].Reading?);
      assert (set i | 0 <= i < |flags| && (flags[i].Connecting? || flags[i].Reading?))
        == if (flags[n].Connecting? || flags[n].Reading?) then front + {n} else front;
    }
  }

  lemma {:induction false} NotDoneIs(flags: seq<Flag>)
    ensures NotDone(flags) == |set i | 0 <= i < |flags| && !flags[i].Done?|
  {
    if flags != [] {
      var n := |flags| - 1;
      NotDoneIs(flags[..n]);
      var front := set i | 0 <= i < n && !flags[..n][i].Done?;
      assert (set i | 0 <= i < |flags| && !flags[i].Done?)
        == if !flags[n].Done? then front + {n} else front;
    }
  }

  lemma {:induction false} ToStartIs(flags: seq<Flag>)
    ensures ToStart(flags) == |set i | 0 <= i < |flags| && flags[i].Untouched?|
  {
    if flags != [] {
      var n := |flags| - 1;
      ToStartIs(flags[..n]);
      var front := set i | 0 <= i < n && flags[..n][i].Untouched?;
      assert (set i | 0 <= i < |flags| && flags[i].Untouched?)
        == if flags[n].Untouched? then front + {n} else front;
    }
  }

  lemma {:induction false} CountsMeaning(flags: seq<Flag>)
    ensures Progressing(flags) + ToStart(flags) <= NotDone(flags) <= |flags|
    ensures NotDone(flags) == Progressing(flags) + ToStart(flags)
    ensures ToStart(flags) > 0 <==> exists i :: 0 <= i < |flags| && flags[i].Untouched?
    ensures NotDone(flags) == 0 <==> forall i :: 0 <= i < |flags| ==> flags[i].Done?
    ensures Progressing(flags) > 0 <==> exists i :: 0 <= i < |flags| && InProgress(flags[i])
  {
    if flags != [] {
      var n := |flags| - 1;
      CountsMeaning(flags[..n]);
      assert forall i :: 0 <= i < n ==> flags[..n][i] == flags[i];
    }
  }

  lemma {:induction false} CountsInitially(n: nat)
    ensures var flags := seq(n, _ => Untouched);
            Progressing(flags) == 0 && NotDone(flags) == n && ToStart(flags) == n
  {
    if n > 0 {
      CountsInitially(n - 1);
      assert seq(n, _ => Untouched)[..n - 1] == seq(n - 1, _ => Untouched);
    }
  }

  // ---------- the fetcher ----------

  /**
   * The kernel's side of one turn: which connects complete at once, what `select` reports, and
   * which reads find end of file.
   */
  datatype Turn = Turn(connectNow: set<int>, rs: set<int>, ws: set<int>, eof: set<int>)

  /** Whose descriptors are in `rset` (`reading`) or in `wset`. */
  predicate Wanted(f: Flag, reading: bool)
  {
    f.Connecting? || (reading && f.Reading?)
  }

  predicate Tests(fds: set<int>, x: int) { x in fds }

  /** The descriptors of the files wanted are exactly `fds`. */
  ghost predicate Holds(fds: set<int>, fd: seq<int>, flags: seq<Flag>, reading: bool)
    requires |fd| == |flags|
  {
    && (forall i :: 0 <= i < |fd| && Wanted(flags[i], reading) ==> fd[i] in fds)
    && (forall x :: Tests(fds, x) ==> exists i :: 0 <= i < |fd| && fd[i] == x && Wanted(flags[i], reading))
  }

  /** One entry changed, and with it one descriptor of the set. */
  lemma HoldsUpdate(fds: set<int>, fd: seq<int>, flags: seq<Flag>, reading: bool, maxfd: int, i: nat, f: Flag)
    requires |fd| == |flags| && i < |fd| && Holds(fds, fd, flags, reading)
    requires Distinct(fd, flags, maxfd) && InProgress(flags[i])
    ensures Holds(if Wanted(f, reading) then fds + {fd[i]} else fds - {fd[i]}, fd, flags[i := f], reading)
  {
    var flags' := flags[i := f];
    var fds' := if Wanted(f, reading) then fds + {fd[i]} else fds - {fd[i]};
    assert flags'[i] == f && forall k :: 0 <= k < |fd| && k != i ==> flags'[k] == flags[k];
    forall x | Tests(fds', x) ensures exists k :: 0 <= k < |fd| && fd[k] == x && Wanted(flags'[k], reading) {
      if x != fd[i] {
        assert Tests(fds, x);
        var k :| 0 <= k < |fd| && fd[k] == x && Wanted(flags[k], reading);
        assert Wanted(flags'[k], reading);
      } else {
        assert Wanted(flags'[i], reading);
      }
    }
  }

  /** Files in progress have different descriptors, none above `maxfd`. */
  ghost predicate Distinct(fd: seq<int>, flags: seq<Flag>, maxfd: int)
    requires |fd| == |flags|
  {
    && (forall i :: 0 <= i < |fd| && InProgress(flags[i]) ==> 0 <= fd[i] <= maxfd)
    && (forall i, j :: 0 <= i < j < |fd| && InProgress(flags[i]) && InProgress(flags[j]) ==> fd[i] != fd[j])
  }

  /** Files are started in order. */
  ghost predicate InOrder(flags: seq<Flag>)
  {
    forall i, j :: 0 <= i < j < |flags| && flags[i].Untouched? ==> flags[j].Untouched?
  }

  ghost predicate SetsOk(fd: seq<int>, flags: seq<Flag>, rset: set<int>, wset: set<int>, maxfd: int)
    requires |fd| == |flags|
  {
    && Distinct(fd, flags, maxfd) && maxfd >= -1
    && Holds(rset, fd, flags, true) && Holds(wset, fd, flags, false)
  }

  /** The counters count, the sets hold the right descriptors, files start in order. */
  ghost predicate TablesOk(fd: seq<int>, flags: seq<Flag>, rset: set<int>, wset: set<int>, maxfd: int,
                           nconn: int, toConnect: int, toRead: int, limit: int)
  {
    && |fd| == |flags|
    && toConnect == ToStart(flags) && nconn == Progressing(flags) && toRead == NotDone(flags)
    && nconn <= (if limit < 0 then 0 else limit)
    && SetsOk(fd, flags, rset, wset, maxfd)
    && InOrder(flags)
  }

  /** `select` tests the files in progress for reading, and the connecting ones for writing. */
  lemma SetsAre(fd: seq<int>, flags: seq<Flag>, rset: set<int>, wset: set<int>, maxfd: int, x: int)
    requires |fd| == |flags| && SetsOk(fd, flags, rset, wset, maxfd)
    ensures x in rset <==> exists i :: 0 <= i < |fd| && fd[i] == x && (flags[i].Connecting? || flags[i].Reading?)
    ensures x in wset <==> exists i :: 0 <= i < |fd| && fd[i] == x && flags[i].Connecting?
    ensures x in rset ==> 0 <= x <= maxfd
  {
    assert Tests(rset, x) <==> x in rset;
    assert Tests(wset, x) <==> x in wset;
    if i :| 0 <= i < |fd| && fd[i] == x && (flags[i].Connecting? || flags[i].Reading?) {
      assert Wanted(flags[i], true);
    }
    if i :| 0 <= i < |fd| && fd[i] == x && flags[i].Connecting? {
      assert Wanted(flags[i], false);
    }
  }

  lemma HoldsStart(fds: set<int>, fd: seq<int>, flags: seq<Flag>, reading: bool, i: nat, x: int, f: Flag)
    requires |fd| == |flags| && i < |fd| && Holds(fds, fd, flags, reading) && flags[i].Untouched?
    ensures Holds(if Wanted(f, reading) then fds + {x} else fds, fd[i := x], flags[i := f], reading)
  {
    var fd', flags' := fd[i := x], flags[i := f];
    var fds' := if Wanted(f, reading) then fds + {x} else fds;
    assert fd'[i] == x && flags'[i] == f;
    assert forall k :: 0 <= k < |fd| && k != i ==> fd'[k] == fd[k] && flags'[k] == flags[k];
    forall y | Tests(fds', y) ensures exists k :: 0 <= k < |fd| && fd'[k] == y && Wanted(flags'[k], reading) {
      if Tests(fds, y) {
        var k :| 0 <= k < |fd| && fd[k] == y && Wanted(flags[k], reading);
        assert fd'[k] == y && Wanted(flags'[k], reading);
      } else {
        assert fd'[i] == y && Wanted(flags'[i], reading);
      }
    }
  }

  /** Starting file `i`, the first untouched one, on the unused descriptor `x`. */
  lemma StartKeeps(fd: seq<int>, flags: seq<Flag>, rset: set<int>, wset: set<int>, maxfd: int,
                   nconn: int, toConnect: int, toRead: int, limit: int, i: nat, x: int, f: Flag)
    requires TablesOk(fd, flags, rset, wset, maxfd, nconn, toConnect, toRead, limit) && nconn < limit
    requires i < |fd| && flags[i].Untouched? && (forall k :: 0 <= k < i ==> !flags[k].Untouched?)
    requires InProgress(f) && x >= 0 && x !in rset
    ensures TablesOk(fd[i := x], flags[i := f], rset + {x}, if f.Connecting? then wset + {x} else wset,
                     if x > maxfd then x else maxfd, nconn + 1, toConnect - 1, toRead, limit)
  {
    CountsUpdate(flags, i, f);
    HoldsStart(rset, fd, flags, true, i, x, f);
    HoldsStart(wset, fd, flags, false, i, x, f);
  }

  /** An established connection is no longer tested for writability. */
  lemma EstablishKeeps(fd: seq<int>, flags: seq<Flag>, rset: set<int>, wset: set<int>, maxfd: int,
                       nconn: int, toConnect: int, toRead: int, limit: int, i: nat)
    requires TablesOk(fd, flags, rset, wset, maxfd, nconn, toConnect, toRead, limit)
    requires i < |fd| && flags[i].Connecting?
    ensures TablesOk(fd, flags[i := Reading], rset + {fd[i]}, wset - {fd[i]}, maxfd, nconn, toConnect, toRead, limit)
    ensures fd[i] <= maxfd
  {
    CountsUpdate(flags, i, Reading);
    HoldsUpdate(rset, fd, flags, true, maxfd, i, Reading);
    HoldsUpdate(wset, fd, flags, false, maxfd, i, Reading);
  }

  /** A finished file's descriptor leaves the sets. */
  lemma FinishKeeps(fd: seq<int>, flags: seq<Flag>, rset: set<int>, wset: set<int>, maxfd: int,
                    nconn: int, toConnect: int, toRead: int, limit: int, i: nat)
    requires TablesOk(fd, flags, rset, wset, maxfd, nconn, toConnect, toRead, limit)
    requires i < |fd| && flags[i].Reading?
    ensures TablesOk(fd, flags[i := Done], rset - {fd[i]}, wset, maxfd, nconn - 1, toConnect, toRead - 1, limit)
  {
    CountsUpdate(flags, i, Done);
    HoldsUpdate(rset, fd, flags, true, maxfd, i, Done);
    HoldsUpdate(wset, fd, flags, false, maxfd, i, Done);
    assert !Tests(wset, fd[i]) by {
      assert forall k :: 0 <= k < |fd| && Wanted(flags[k], false) ==> fd[k] != fd[i];
    }
    assert wset - {fd[i]} == wset;
  }

  lemma NothingWanted(fds: set<int>, fd: seq<int>, flags: seq<Flag>, reading: bool)
    requires |fd| == |flags| && Holds(fds, fd, flags, reading)
    requires forall i :: 0 <= i < |flags| ==> flags[i].Done?
    ensures fds == {}
  {
    forall x ensures x !in fds {
      assert !Tests(fds, x);
    }
  }

  /** What the tables say when nothing is left, and when something is. */
  lemma TablesMean(fd: seq<int>, flags: seq<Flag>, rset: set<int>, wset: set<int>, maxfd: int,
                   nconn: int, toConnect: int, toRead: int, limit: int)
    requires TablesOk(fd, flags, rset, wset, maxfd, nconn, toConnect, toRead, limit)
    ensures toConnect > 0 <==> exists i :: 0 <= i < |flags| && flags[i].Untouched?
    ensures nconn == Progressing(flags) && toRead == NotDone(flags)
    ensures toRead == 0 ==> (forall i :: 0 <= i < |flags| ==> flags[i].Done?) && rset == wset == {} && nconn == 0
    ensures toRead > 0 && (nconn >= limit > 0 || toConnect == 0) ==> rset != {}
    ensures toConnect >= 0
  {
    CountsMeaning(flags);
    if toRead == 0 {
      NothingWanted(rset, fd, flags, true);
      NothingWanted(wset, fd, flags, false);
    }
    if toRead > 0 && (nconn >= limit > 0 || toConnect == 0) {
      var i :| 0 <= i < |flags| && InProgress(flags[i]);
      assert Wanted(flags[i], true);
    }
  }

  /**
   * With something left to read and no more connects to start, `select` has a descriptor to wait
   * for exactly when `maxnconn` is positive; otherwise it blocks for ever on two empty sets.
   */
  lemma WaitsForSomethingIff(fd: seq<int>, flags: seq<Flag>, rset: set<int>, wset: set<int>, maxfd: int,
                             nconn: int, toConnect: int, toRead: int, limit: int)
    requires TablesOk(fd, flags, rset, wset, maxfd, nconn, toConnect, toRead, limit)
    requires toRead > 0 && (nconn >= limit || toConnect == 0)
    ensures rset + wset != {} <==> limit > 0
  {
    TablesMean(fd, flags, rset, wset, maxfd, nconn, toConnect, toRead, limit);
    CountsMeaning(flags);
    if limit <= 0 {
      NothingInProgress(rset, fd, flags, true);
      NothingInProgress(wset, fd, flags, false);
    }
  }

  lemma NothingInProgress(fds: set<int>, fd: seq<int>, flags: seq<Flag>, reading: bool)
    requires |fd| == |flags| && Holds(fds, fd, flags, reading) && Progressing(flags) == 0
    ensures fds == {}
  {
    CountsMeaning(flags);
    forall x ensures x !in fds {
      assert !Tests(fds, x);
    }
  }

  /** What a turn makes of one file. */
  function Advanced(f: Flag, i: int, fd: int, turn: Turn): Flag
  {
    if f.Connecting? && (fd in turn.rs || fd in turn.ws) then Reading
    else if f.Reading? && fd in turn.rs && i in turn.eof then Done
    else f
  }

  /** The first `n` files have advanced by what the turn allows them, the others not at all. */
  ghost predicate Scanned(before: seq<Flag>, after: seq<Flag>, fd: seq<int>, turn: Turn, n: nat)
  {
    && n <= |before| == |after| == |fd|
    && (forall k :: 0 <= k < n ==> after[k] == Advanced(before[k], k, fd[k], turn))
    && (forall k :: n <= k < |before| ==> after[k] == before[k])
  }

  lemma ScannedStep(before: seq<Flag>, after: seq<Flag>, fd: seq<int>, turn: Turn, n: nat)
    requires n < |before| && Scanned(before, after, fd, turn, n)
    ensures Scanned(before, after[n := Advanced(after[n], n, fd[n], turn)], fd, turn, n + 1)
  {
  }

  lemma ScannedIsForward(first: seq<Flag>, before: seq<Flag>, after: seq<Flag>, fd: seq<int>, turn: Turn)
    requires Forward(first, before) && Scanned(before, after, fd, turn, |fd|)
    ensures Forward(first, after)
  {
  }

  // ---------- what the main loop does ----------

  function FirstUntouched(flags: seq<Flag>): (i: nat)
    ensures i <= |flags| && (i < |flags| ==> flags[i].Untouched?)
    ensures forall k :: 0 <= k < i ==> !flags[k].Untouched?
  {
    if flags == [] || flags[0].Untouched? then 0 else 1 + FirstUntouched(flags[1..])
  }

  lemma FirstUntouchedIs(flags: seq<Flag>, i: nat)
    requires i < |flags| && flags[i].Untouched? && forall k :: 0 <= k < i ==> !flags[k].Untouched?
    ensures FirstUntouched(flags) == i
  {
    if FirstUntouched(flags) < i {
      assert false;
    }
  }

  /** The first `room` untouched files are started. */
  function Started(flags: seq<Flag>, room: int, now: set<int>): (r: seq<Flag>)
    ensures |r| == |flags|
  {
    seq(|flags|, k requires 0 <= k < |flags| =>
      if flags[k].Untouched? && ToStart(flags[..k]) < room then StartedFlag(k, now) else flags[k])
  }

  function StartedFlag(k: nat, now: set<int>): Flag
  {
    if k in now then Reading else Connecting
  }

  /** The untouched files among the first `k`, before and after the first of all is started. */
  lemma ToStartPrefix(flags: seq<Flag>, i: nat, f: Flag, k: nat)
    requires i < |flags| && k <= |flags| && flags[i].Untouched? && !f.Untouched?
    requires forall j :: 0 <= j < i ==> !flags[j].Untouched?
    ensures k <= i ==> ToStart(flags[..k]) == ToStart(flags[i := f][..k]) == 0
    ensures k > i ==> ToStart(flags[..k]) == ToStart(flags[i := f][..k]) + 1
  {
    CountsMeaning(flags[..k]);
    if k > i {
      assert flags[i := f][..k] == flags[..k][i := f];
      CountsUpdate(flags[..k], i, f);
    } else {
      assert flags[i := f][..k] == flags[..k];
    }
  }

  /** Starting the first untouched file leaves one place less. */
  lemma StartedStep(flags: seq<Flag>, room: int, now: set<int>)
    requires room > 0 && FirstUntouched(flags) < |flags|
    ensures var i := FirstUntouched(flags);
            Started(flags[i := StartedFlag(i, now)], room - 1, now) == Started(flags, room, now)
  {
    var i := FirstUntouched(flags);
    var after := flags[i := StartedFlag(i, now)];
    forall k | 0 <= k < |flags| ensures Started(after, room - 1, now)[k] == Started(flags, room, now)[k] {
      StartedStepAt(flags, i, room, now, k);
    }
  }

  lemma StartedStepAt(flags: seq<Flag>, i: nat, room: int, now: set<int>, k: nat)
    requires room > 0 && i < |flags| && k < |flags| && flags[i].Untouched?
    requires forall j :: 0 <= j < i ==> !flags[j].Untouched?
    ensures Started(flags[i := StartedFlag(i, now)], room - 1, now)[k] == Started(flags, room, now)[k]
  {
    ToStartPrefix(flags, i, StartedFlag(i, now), k);
  }

  lemma {:induction false} StartedNothing(flags: seq<Flag>, room: int, now: set<int>)
    requires room <= 0 || forall i :: 0 <= i < |flags| ==> !flags[i].Untouched?
    ensures Started(flags, room, now) == flags
  {
  }

  datatype Snapshot = Snapshot(flags: seq<Flag>, fd: seq<int>)

  /** The descriptors of files already started do not change. */
  ghost predicate KeepsFds(flags: seq<Flag>, fd: seq<int>, fd': seq<int>)
  {
    |flags| == |fd| == |fd'| && forall k :: 0 <= k < |fd| && !flags[k].Untouched? ==> fd'[k] == fd[k]
  }

  /** From `a` to `b` only connects were started; starting `room` more will give `want`. */
  ghost predicate Starting(a: Snapshot, b: Snapshot, want: seq<Flag>, room: int, now: set<int>)
  {
    Started(b.flags, room, now) == want && KeepsFds(a.flags, a.fd, b.fd) && Forward(a.flags, b.flags)
  }

  /** All of them were started. */
  ghost predicate AllStarted(a: Snapshot, b: Snapshot, want: seq<Flag>)
  {
    b.flags == want && KeepsFds(a.flags, a.fd, b.fd) && Forward(a.flags, b.flags)
  }

  function StartedOne(a: Snapshot, fd: int, now: set<int>): Snapshot
    requires FirstUntouched(a.flags) < |a.flags| == |a.fd|
  {
    var i := FirstUntouched(a.flags);
    Snapshot(a.flags[i := StartedFlag(i, now)], a.fd[i := fd])
  }

  lemma StartingStep(a: Snapshot, b: Snapshot, want: seq<Flag>, room: int, now: set<int>, fd: int)
    requires Starting(a, b, want, room, now) && room > 0 && FirstUntouched(b.flags) < |b.flags| == |b.fd|
    ensures Starting(a, StartedOne(b, fd, now), want, room - 1, now)
  {
    StartedStep(b.flags, room, now);
  }

  lemma StartingEnds(a: Snapshot, b: Snapshot, want: seq<Flag>, room: int, now: set<int>)
    requires Starting(a, b, want, room, now)
    requires room <= 0 || forall i :: 0 <= i < |b.flags| ==> !b.flags[i].Untouched?
    ensures AllStarted(a, b, want)
  {
    StartedNothing(b.flags, room, now);
  }

  /** No room or nothing left to start: the starts are complete, and `select` has something to wait for. */
  lemma StartsEnd(first: Snapshot, fd: seq<int>, flags: seq<Flag>, rset: set<int>, wset: set<int>, maxfd: int,
                  nconn: int, toConnect: int, toRead: int, limit: int, want: seq<Flag>, now: set<int>)
    requires TablesOk(fd, flags, rset, wset, maxfd, nconn, toConnect, toRead, limit)
    requires Starting(first, Snapshot(flags, fd), want, limit - nconn, now) && (nconn >= limit || toConnect == 0)
    ensures AllStarted(first, Snapshot(flags, fd), want)
    ensures toRead > 0 ==> (rset + wset != {} <==> limit > 0)
  {
    TablesMean(fd, flags, rset, wset, maxfd, nconn, toConnect, toRead, limit);
    if toRead > 0 {
      WaitsForSomethingIff(fd, flags, rset, wset, maxfd, nconn, toConnect, toRead, limit);
    }
    StartingEnds(first, Snapshot(flags, fd), want, limit - nconn, now);
  }

  lemma StartingNothing(a: Snapshot, room: int, now: set<int>)
    requires |a.flags| == |a.fd|
    ensures Starting(a, a, Started(a.flags, room, now), room, now)
  {
  }

  /** One turn: connects are started while there is room, then every file advances as `select` allows. */
  ghost predicate Turned(a: Snapshot, b: Snapshot, limit: int, turn: Turn)
  {
    TurnedFrom(a, Started(a.flags, limit - Progressing(a.flags), turn.connectNow), b, turn)
  }

  ghost predicate TurnedFrom(a: Snapshot, started: seq<Flag>, b: Snapshot, turn: Turn)
  {
    && Scanned(started, b.flags, b.fd, turn, |b.fd|)
    && KeepsFds(a.flags, a.fd, b.fd)
    && Forward(a.flags, b.flags)
  }

  lemma TurnedBy(a: Snapshot, m: Snapshot, started: seq<Flag>, b: Snapshot, turn: Turn)
    requires AllStarted(a, m, started) && Scanned(m.flags, b.flags, b.fd, turn, |b.fd|) && b.fd == m.fd
    ensures TurnedFrom(a, started, b, turn)
  {
    ScannedIsForward(a.flags, m.flags, b.flags, b.fd, turn);
  }

  /**
   * What a turn makes of file `k`. It is started if it is untouched and fewer untouched files come
   * before it than there is room for; a connect that completes at once goes straight to reading. A
   * connecting file reported readable or writable is read from the next turn on; a file that is read
   * is done exactly when it was reported readable and the read found end of file.
   */
  lemma TurnTable(a: Snapshot, b: Snapshot, limit: int, turn: Turn, k: nat)
    requires Turned(a, b, limit, turn) && k < |a.flags|
    ensures |b.flags| == |a.flags| && |b.fd| == |a.flags|
    ensures var f, g, fd := a.flags[k], b.flags[k], b.fd[k];
            var starts := f.Untouched? && ToStart(a.flags[..k]) < limit - Progressing(a.flags);
            var connecting := f.Connecting? || (starts && k !in turn.connectNow);
            var reading := f.Reading? || (starts && k in turn.connectNow);
            && (g.Untouched? <==> f.Untouched? && !starts)
            && (g.Connecting? <==> connecting && fd !in turn.rs && fd !in turn.ws)
            && (g.Reading? <==> (connecting && (fd in turn.rs || fd in turn.ws))
                                || (reading && !(fd in turn.rs && k in turn.eof)))
            && (g.Done? <==> f.Done? || (reading && fd in turn.rs && k in turn.eof))
  {
    var started := Started(a.flags, limit - Progressing(a.flags), turn.connectNow);
    assert started[k] == if a.flags[k].Untouched? && ToStart(a.flags[..k]) < limit - Progressing(a.flags)
                         then StartedFlag(k, turn.connectNow) else a.flags[k];
    assert b.flags[k] == Advanced(started[k], k, b.fd[k], turn);
  }

  /** File `k` was reported readable, and its end of file was read. */
  ghost predicate EndRead(b: Snapshot, turn: Turn, k: nat)
  {
    k < |b.fd| && k in turn.eof && b.fd[k] in turn.rs
  }

  lemma DoneInTurn(a: Snapshot, b: Snapshot, limit: int, turn: Turn, k: nat)
    requires Turned(a, b, limit, turn) && k < |a.flags| && !a.flags[k].Done? && k < |b.flags| && b.flags[k].Done?
    ensures EndRead(b, turn, k)
  {
    TurnTable(a, b, limit, turn, k);
  }

  /** Then no turn changes anything: the loop has no end. */
  lemma NoTurnWithoutLimit(a: Snapshot, b: Snapshot, limit: int, turn: Turn)
    requires Turned(a, b, limit, turn) && limit <= 0 && forall k :: 0 <= k < |a.flags| ==> a.flags[k].Untouched?
    ensures b.flags == a.flags
  {
    StartedNothing(a.flags, limit - Progressing(a.flags), turn.connectNow);
  }

  /** For instance with a `maxnconn` of 0 and one file: the tables are right, and both sets are empty. */
  lemma BlocksForEverExample()
    ensures TablesOk([0], [Untouched], {}, {}, -1, 0, 1, 1, 0)
    ensures forall b, turn :: Turned(Snapshot([Untouched], [0]), b, 0, turn) ==> b.flags == [Untouched]
  {
    assert [Untouched][..0] == [];
    var a := Snapshot([Untouched], [0]);
    forall b, turn | Turned(a, b, 0, turn) ensures b.flags == [Untouched] {
      NoTurnWithoutLimit(a, b, 0, turn);
    }
  }

  /** The turn after the snapshot number `k`. */
  ghost predicate StepAt(history: seq<Snapshot>, limit: int, turns: seq<Turn>, k: nat)
    requires k + 1 < |history| && k < |turns|
  {
    Turned(history[k], history[k + 1], limit, turns[k]) && NotDone(history[k].flags) > 0
  }

  /** The loop ran once for each of the first turns, each time with a file not done. */
  ghost predicate IsRun(history: seq<Snapshot>, limit: int, turns: seq<Turn>)
  {
    && 1 <= |history| <= |turns| + 1
    && forall k: nat {:trigger StepAt(history, limit, turns, k)} :: k + 1 < |history| ==> StepAt(history, limit, turns, k)
  }

  lemma StepKept(history: seq<Snapshot>, more: seq<Snapshot>, limit: int, turns: seq<Turn>, k: nat)
    requires history <= more && k + 1 < |history| && k < |turns| && StepAt(history, limit, turns, k)
    ensures StepAt(more, limit, turns, k)
  {
    assert more[k] == history[k] && more[k + 1] == history[k + 1];
  }

  lemma RunMore(history: seq<Snapshot>, b: Snapshot, limit: int, turns: seq<Turn>)
    requires IsRun(history, limit, turns) && |history| <= |turns|
    requires var a := history[|history| - 1]; NotDone(a.flags) > 0 && Turned(a, b, limit, turns[|history| - 1])
    ensures IsRun(history + [b], limit, turns)
  {
    var more := history + [b];
    forall k: nat | k + 1 < |more| ensures StepAt(more, limit, turns, k) {
      if k + 1 < |history| {
        StepKept(history, more, limit, turns, k);
      }
    }
  }

  /** Over a whole run no file moves back, so that each is done at most once. */
  lemma {:induction false} RunIsForward(history: seq<Snapshot>, limit: int, turns: seq<Turn>, j: nat, k: nat)
    requires IsRun(history, limit, turns) && j <= k < |history|
    ensures Forward(history[j].flags, history[k].flags)
    decreases k
  {
    if j < k {
      RunIsForward(history, limit, turns, j, k - 1);
      assert StepAt(history, limit, turns, k - 1);
    }
  }

  lemma DoneAtStep(history: seq<Snapshot>, limit: int, turns: seq<Turn>, k: nat, j: nat)
    requires IsRun(history, limit, turns) && j + 1 < |history| && k < |history[j].flags| && k < |history[j + 1].flags|
    requires !history[j].flags[k].Done? && history[j + 1].flags[k].Done?
    ensures EndRead(history[j + 1], turns[j], k)
  {
    assert StepAt(history, limit, turns, j);
    DoneInTurn(history[j], history[j + 1], limit, turns[j], k);
  }

  /** A file that is done had its end of file read in some turn. */
  lemma {:induction false} DoneHadEndOfFile(history: seq<Snapshot>, limit: int, turns: seq<Turn>, k: nat, n: nat) returns (j: nat)
    requires IsRun(history, limit, turns) && n < |history| && k < |history[0].flags| && k < |history[n].flags|
    requires !history[0].flags[k].Done? && history[n].flags[k].Done?
    ensures j < n && EndRead(history[j + 1], turns[j], k)
    decreases n
  {
    RunIsForward(history, limit, turns, 0, n - 1);
    if history[n - 1].flags[k].Done? {
      j := DoneHadEndOfFile(history, limit, turns, k, n - 1);
    } else {
      DoneAtStep(history, limit, turns, k, n - 1);
      j := n - 1;
    }
  }

  class Fetcher {
    const f_fd: array<int>
    const f_flags: array<Flag>
    const maxnconn: int
    var rset: set<int>
    var wset: set<int>
    var maxfd: int
    var nconn: int
    var nlefttoconn: int
    var nlefttoread: int

    ghost predicate Shaped()
    {
      f_fd.Length == f_flags.Length
    }

    ghost predicate Valid()
      reads this, f_fd, f_flags
    {
      && Shaped()
      && TablesOk(f_fd[..], f_flags[..], rset, wset, maxfd, nconn, nlefttoconn, nlefttoread, maxnconn)
    }

    constructor (nfiles: nat, maxnconn: int)
      ensures Valid() && fresh(f_fd) && fresh(f_flags)
      ensures f_flags[..] == seq(nfiles, _ => Untouched) && this.maxnconn == maxnconn
    {
      f_fd := new int[nfiles](_ => 0);
      f_flags := new Flag[nfiles](_ => Untouched);
      this.maxnconn := maxnconn;
      rset, wset, maxfd := {}, {}, -1;
      nconn, nlefttoconn, nlefttoread := 0, nfiles, nfiles;
      new;
      CountsInitially(nfiles);
      assert f_flags[..] == seq(nfiles, _ => Untouched);
    }

    /** `socket`: some descriptor not in use. */
    method Socket() returns (fd: int)
      requires Valid()
      ensures fd >= 0 && fd !in rset
    {
      assert !Tests(rset, maxfd + 1);
      fd :| fd >= 0 && fd !in rset;
    }

    method WriteGetCmd(i: nat)
      requires Shaped() && i < f_fd.Length
      modifies f_flags, this`rset, this`maxfd
      ensures f_flags[..] == old(f_flags[..])[i := Reading]
      ensures rset == old(rset) + {f_fd[i]} && maxfd == if f_fd[i] > old(maxfd) then f_fd[i] else old(maxfd)
    {
      f_flags[i] := Reading;
      rset := rset + {f_fd[i]};
      if f_fd[i] > maxfd {
        maxfd := f_fd[i];
      }
    }

    /** `start_connect`; `now` says the connect completes at once. */
    method StartConnect(i: nat, fd: int, now: bool)
      requires Shaped() && i < f_fd.Length
      modifies f_fd, f_flags, this`rset, this`wset, this`maxfd
      ensures f_fd[..] == old(f_fd[..])[i := fd]
      ensures f_flags[..] == old(f_flags[..])[i := if now then Reading else Connecting]
      ensures rset == old(rset) + {fd} && wset == if now then old(wset) else old(wset) + {fd}
      ensures maxfd == if fd > old(maxfd) then fd else old(maxfd)
    {
      f_fd[i] := fd;
      if !now {
        f_flags[i] := Connecting;
        rset := rset + {fd};
        wset := wset + {fd};
        if fd > maxfd {
          maxfd := fd;
        }
      } else {
        WriteGetCmd(i);
      }
    }

    /** The first file not yet touched; there is one while `nlefttoconn` says so. */
    method FindFile() returns (i: nat)
      requires Valid() && nlefttoconn > 0
      ensures i == FirstUntouched(f_flags[..]) < f_flags.Length
    {
      TablesMean(f_fd[..], f_flags[..], rset, wset, maxfd, nconn, nlefttoconn, nlefttoread, maxnconn);
      i := 0;
      while i < f_flags.Length
        invariant 0 <= i <= f_flags.Length
        invariant forall k :: 0 <= k < i ==> !f_flags[k].Untouched?
      {
        if f_flags[i].Untouched? {
          break;
        }
        i := i + 1;
      }
      FirstUntouchedIs(f_flags[..], i);
    }

    /** The first untouched file is started. */
    method StartNext(turn: Turn, ghost first: Snapshot, ghost want: seq<Flag>)
      requires Valid() && nconn < maxnconn && nlefttoconn > 0
      requires Starting(first, Now(), want, maxnconn - nconn, turn.connectNow)
      modifies this, f_fd, f_flags
      ensures Valid() && nlefttoconn == old(nlefttoconn) - 1
      ensures Starting(first, Now(), want, maxnconn - nconn, turn.connectNow)
    {
      ghost var before := Now();
      var i := FindFile();
      ghost var fd := StartFile(i, turn);
      StartingStep(first, before, want, maxnconn - nconn + 1, turn.connectNow, fd);
    }

    /** File `i` is started on a new descriptor, and the counters follow. */
    method StartFile(i: nat, turn: Turn) returns (ghost fd: int)
      requires Valid() && nconn < maxnconn && i == FirstUntouched(f_flags[..]) < f_flags.Length
      modifies f_fd, f_flags, this`rset, this`wset, this`maxfd, this`nconn, this`nlefttoconn
      ensures Valid() && nlefttoconn == old(nlefttoconn) - 1 && nconn == old(nconn) + 1
      ensures Now() == StartedOne(old(Now()), fd, turn.connectNow)
    {
      var s := Socket();
      fd := s;
      StartKeeps(f_fd[..], f_flags[..], rset, wset, maxfd, nconn, nlefttoconn, nlefttoread, maxnconn,
                 i, s, StartedFlag(i, turn.connectNow));
      StartConnect(i, s, i in turn.connectNow);
      nconn := nconn + 1;
      nlefttoconn := nlefttoconn - 1;
    }

    /** Connects are started while there are fewer than `maxnconn` and files left. */
    method StartMore(turn: Turn, ghost first: Snapshot, ghost want: seq<Flag>)
      requires Valid() && first == Now()
      requires want == Started(first.flags, maxnconn - nconn, turn.connectNow)
      modifies this, f_fd, f_flags
      ensures Valid()
      ensures nconn >= maxnconn || nlefttoconn == 0
      ensures nlefttoread > 0 ==> (rset + wset != {} <==> maxnconn > 0)
      ensures AllStarted(first, Now(), want)
    {
      StartingNothing(first, maxnconn - nconn, turn.connectNow);
      StartLoop(turn, first, want);
      StartsEnd(first, f_fd[..], f_flags[..], rset, wset, maxfd, nconn, nlefttoconn, nlefttoread, maxnconn,
                want, turn.connectNow);
    }

    method StartLoop(turn: Turn, ghost first: Snapshot, ghost want: seq<Flag>)
      requires Valid() && Starting(first, Now(), want, maxnconn - nconn, turn.connectNow)
      modifies this, f_fd, f_flags
      ensures Valid()
      ensures nconn >= maxnconn || nlefttoconn == 0
      ensures Starting(first, Now(), want, maxnconn - nconn, turn.connectNow)
    {
      while nconn < maxnconn && nlefttoconn > 0
        invariant Valid()
        invariant Starting(first, Now(), want, maxnconn - nconn, turn.connectNow)
        decreases nlefttoconn
      {
        StartNext(turn, first, want);
      }
    }

    /** The pass over the files after `select`. */
    method Scan(turn: Turn)
      requires Valid()
      modifies f_flags, this`rset, this`wset, this`maxfd, this`nconn, this`nlefttoread
      ensures Valid()
      ensures Scanned(old(f_flags[..]), f_flags[..], f_fd[..], turn, f_fd.Length)
    {
      ghost var was := f_flags[..];
      var i := 0;
      while i < f_flags.Length
        invariant 0 <= i <= f_flags.Length && Valid()
        invariant Scanned(was, f_flags[..], f_fd[..], turn, i)
      {
        ScannedStep(was, f_flags[..], f_fd[..], turn, i);
        ScanOne(i, turn);
        i := i + 1;
      }
    }

    /** The connection of file `i` is established. */
    method Establish(i: nat)
      requires Valid() && i < f_flags.Length && f_flags[i].Connecting?
      modifies f_flags, this`rset, this`wset, this`maxfd
      ensures Valid()
      ensures f_flags[..] == old(f_flags[..])[i := Reading]
    {
      EstablishKeeps(f_fd[..], f_flags[..], rset, wset, maxfd, nconn, nlefttoconn, nlefttoread, maxnconn, i);
      wset := wset - {f_fd[i]};
      WriteGetCmd(i);
    }

    /** End of file on file `i`. */
    method Finish(i: nat)
      requires Valid() && i < f_flags.Length && f_flags[i].Reading?
      modifies f_flags, this`rset, this`nconn, this`nlefttoread
      ensures Valid()
      ensures f_flags[..] == old(f_flags[..])[i := Done]
    {
      ghost var was := f_flags[..];
      FinishKeeps(f_fd[..], was, rset, wset, maxfd, nconn, nlefttoconn, nlefttoread, maxnconn, i);
      f_flags[i] := Done;
      assert f_flags[..] == was[i := Done];
      rset := rset - {f_fd[i]};
      nconn := nconn - 1;
      nlefttoread := nlefttoread - 1;
    }

    method ScanOne(i: nat, turn: Turn)
      requires Valid() && i < f_flags.Length
      modifies f_flags, this`rset, this`wset, this`maxfd, this`nconn, this`nlefttoread
      ensures Valid()
      ensures f_flags[..] == old(f_flags[..])[i := Advanced(old(f_flags[i]), i, f_fd[i], turn)]
    {
      var flags := f_flags[i];
      if flags.Untouched? || flags.Done? {
        return;
      }
      var fd := f_fd[i];
      if flags.Connecting? && (fd in turn.rs || fd in turn.ws) {
        Establish(i);
      } else if flags.Reading? && fd in turn.rs {
        if i in turn.eof {
          Finish(i);
        }
      }
    }

    /** What follows `select` in a turn that began at `first`. */
    method ScanTurn(turn: Turn, ghost first: Snapshot, ghost started: seq<Flag>)
      requires Valid() && AllStarted(first, Now(), started)
      modifies this, f_flags
      ensures Valid()
      ensures TurnedFrom(first, started, Now(), turn)
    {
      ghost var mid := Now();
      Scan(turn);
      TurnedBy(first, mid, started, Now(), turn);
    }

    /** One turn of the main loop. */
    method OneTurn(turn: Turn)
      requires Valid()
      modifies this, f_fd, f_flags
      ensures Valid()
      ensures Turned(old(Now()), Now(), maxnconn, turn)
    {
      ghost var first, started := Now(), Started(Now().flags, maxnconn - nconn, turn.connectNow);
      StartMore(turn, first, started);
      ScanTurn(turn, first, started);
    }

    ghost function Now(): Snapshot
      reads f_fd, f_flags
    {
      Snapshot(f_flags[..], f_fd[..])
    }

    /** One turn, added to the run so far. */
    method RecordTurn(turns: seq<Turn>, t: nat, ghost history: seq<Snapshot>) returns (ghost more: seq<Snapshot>)
      requires Valid() && nlefttoread > 0 && t < |turns|
      requires IsRun(history, maxnconn, turns) && |history| == t + 1 && history[t] == Now()
      modifies this, f_fd, f_flags
      ensures Valid() && IsRun(more, maxnconn, turns) && |more| == t + 2
      ensures more[0] == history[0] && more[t + 1] == Now()
    {
      OneTurn(turns[t]);
      RunMore(history, Now(), maxnconn, turns);
      more := history + [Now()];
    }

    /**
     * The main loop, for as many returns of `select` as `turns` has; `history` is its run.
     * When the loop ends by itself every file is done and no descriptor is left in the sets.
     */
    method Run(turns: seq<Turn>) returns (ghost history: seq<Snapshot>)
      requires Valid()
      modifies this, f_fd, f_flags
      ensures Valid()
      ensures IsRun(history, maxnconn, turns) && history[0] == old(Now()) && history[|history| - 1] == Now()
      ensures |history| == |turns| + 1 || nlefttoread == 0
      ensures nlefttoread == 0 ==> forall k :: 0 <= k < f_flags.Length ==> f_flags[k].Done?
      ensures nlefttoread == 0 ==> rset == wset == {} && nconn == 0
    {
      var t := 0;
      history := [Now()];
      while nlefttoread > 0 && t < |turns|
        invariant 0 <= t <= |turns| && Valid()
        invariant IsRun(history, maxnconn, turns) && |history| == t + 1
        invariant history[0] == old(Now()) && history[t] == Now()
        decreases |turns| - t
      {
        history := RecordTurn(turns, t, history);
        t := t + 1;
      }
      TablesMean(f_fd[..], f_flags[..], rset, wset, maxfd, nconn, nlefttoconn, nlefttoread, maxnconn);
    }
  }
}
