/**
 * The `select` echo server: a table of clients, the set of descriptors to test, and one turn
 * for each return of `select`, which stops looking as soon as `nready` clients were served.
 */
module SelectServer {
  import opened Prelude

  const FD_SETSIZE: nat := 1024

  /** The kernel's side of one turn: what is readable, the next descriptor, what reads return. */
  datatype Turn = Turn(ready: set<int>, connfd: int, input: int -> seq<byte>)

  /** What the server did with one ready client; reading nothing is end of file. */
  datatype Served = Echoed(fd: int, data: seq<byte>) | Closed(fd: int)

  datatype Outcome = Looping | TooManyClients | AcceptFailed

  // ---------- the table ----------

  /** The live entries. */
  function Fds(client: seq<int>): set<int>
  {
    set k | 0 <= k < |client| && client[k] >= 0 :: client[k]
  }

  ghost predicate Distinct(client: seq<int>)
  {
    forall i, j :: 0 <= i < j < |client| && client[i] >= 0 ==> client[i] != client[j]
  }

  /** `allset` is the listening descriptor and the clients; `maxi` and `maxfd` bound them. */
  ghost predicate TableOk(client: seq<int>, allset: set<int>, listenfd: int, maxi: int, maxfd: int, limit: int)
  {
    && allset == {listenfd} + Fds(client) && listenfd !in Fds(client) && Distinct(client)
    && -1 <= maxi < |client| && (forall k :: maxi < k < |client| ==> client[k] < 0)
    && (forall fd :: fd in allset ==> 0 <= fd <= maxfd && fd < limit)
  }

  lemma {:induction false} CountFds(client: seq<int>)
    requires Distinct(client) && forall k :: 0 <= k < |client| ==> client[k] >= 0
    ensures |Fds(client)| == |client|
  {
    if client != [] {
      var n := |client| - 1;
      CountFds(client[..n]);
      FdsSnoc(client);
    }
  }

  lemma FdsSnoc(client: seq<int>)
    requires client != [] && Distinct(client)
    ensures var n := |client| - 1;
            && Distinct(client[..n])
            && Fds(client) == Fds(client[..n]) + (if client[n] >= 0 then {client[n]} else {})
            && client[n] !in Fds(client[..n])
  {
    var n := |client| - 1;
    assert forall k :: 0 <= k < n ==> client[..n][k] == client[k];
    forall x | x in Fds(client) ensures x in Fds(client[..n]) + (if client[n] >= 0 then {client[n]} else {}) {
      var k :| 0 <= k < |client| && client[k] >= 0 && client[k] == x;
      if k < n { assert client[..n][k] == x; }
    }
  }

  lemma {:induction false} FewBelow(s: set<int>, n: nat)
    requires forall x :: x in s ==> 0 <= x < n
    ensures |s| <= n
  {
    if n > 0 {
      FewBelow(s - {n - 1}, n - 1);
      assert s - {n - 1} == s || |s - {n - 1}| == |s| - 1;
    } else {
      assert forall x :: x !in s;
    }
  }

  /** While the kernel hands out no descriptor an `fd_set` cannot hold, the table never fills. */
  lemma NeverFull(client: seq<int>, allset: set<int>, listenfd: int, maxi: int, maxfd: int, limit: int)
    requires TableOk(client, allset, listenfd, maxi, maxfd, limit) && 0 <= limit <= |client|
    ensures exists k :: 0 <= k < |client| && client[k] < 0
  {
    if forall k :: 0 <= k < |client| ==> client[k] >= 0 {
      CountFds(client);
      FewBelow(allset, limit);
      assert false;
    }
  }

  /** A new client in a free entry. */
  lemma AddKeeps(client: seq<int>, allset: set<int>, listenfd: int, maxi: int, maxfd: int, limit: int, i: nat, fd: int)
    requires TableOk(client, allset, listenfd, maxi, maxfd, limit) && i < |client| && client[i] < 0
    requires 0 <= fd < limit && fd !in allset
    ensures TableOk(client[i := fd], allset + {fd}, listenfd, if i > maxi then i else maxi,
                    if fd > maxfd then fd else maxfd, limit)
    ensures Fds(client[i := fd]) == Fds(client) + {fd}
  {
    var c := client[i := fd];
    assert c[i] == fd && forall k :: 0 <= k < |client| && k != i ==> c[k] == client[k];
    forall x | x in Fds(client) + {fd} ensures x in Fds(c) {
      if x == fd {
        assert c[i] == x;
      } else {
        var k :| 0 <= k < |client| && client[k] >= 0 && client[k] == x;
        assert c[k] == x;
      }
    }
    assert Fds(c) == Fds(client) + {fd};
    forall k, j | 0 <= k < j < |c| && c[k] >= 0 ensures c[k] != c[j] {
      assert k != i ==> client[k] in Fds(client);
      assert j != i && client[j] >= 0 ==> client[j] in Fds(client);
    }
  }

  /** A client gone: exactly its descriptor leaves the set. */
  lemma CloseKeeps(client: seq<int>, allset: set<int>, listenfd: int, maxi: int, maxfd: int, limit: int, i: nat)
    requires TableOk(client, allset, listenfd, maxi, maxfd, limit) && i < |client| && client[i] >= 0
    ensures TableOk(client[i := -1], allset - {client[i]}, listenfd, maxi, maxfd, limit)
  {
    var c, fd := client[i := -1], client[i];
    assert c[i] == -1 && forall k :: 0 <= k < |client| && k != i ==> c[k] == client[k];
    forall x | x in Fds(client) - {fd} ensures x in Fds(c) {
      var k :| 0 <= k < |client| && client[k] >= 0 && client[k] == x;
      assert c[k] == x;
    }
    assert fd in Fds(client);
    assert Fds(c) == Fds(client) - {fd};
    assert allset - {fd} == {listenfd} + Fds(c);
  }

  // ---------- what one turn does ----------

  /** The entry a new client gets, |client| when there is none. */
  function FirstFree(client: seq<int>): (i: nat)
    ensures i <= |client|
    ensures forall k :: 0 <= k < i ==> client[k] >= 0
    ensures i < |client| ==> client[i] < 0
  {
    if client == [] || client[0] < 0 then 0 else 1 + FirstFree(client[1..])
  }

  function AfterRead(fd: int, turn: Turn): int
  {
    if fd >= 0 && fd in turn.ready && turn.input(fd) == [] then -1 else fd
  }

  /** What becomes of the first `n` entries; the others stay. */
  ghost predicate ServedTo(was: seq<int>, now: seq<int>, turn: Turn, n: nat)
  {
    && n <= |was| == |now|
    && (forall k :: 0 <= k < n ==> now[k] == AfterRead(was[k], turn))
    && (forall k :: n <= k < |was| ==> now[k] == was[k])
  }

  /** The reads and writes of a turn that serves every ready client, in table order. */
  function Service(client: seq<int>, turn: Turn): (s: seq<Served>)
  {
    if client == [] then [] else
      var n := |client| - 1;
      Service(client[..n], turn) + ServeOne(client[n], turn)
  }

  function ServeOne(fd: int, turn: Turn): seq<Served>
  {
    if fd < 0 || fd !in turn.ready then []
    else if turn.input(fd) == [] then [Closed(fd)] else [Echoed(fd, turn.input(fd))]
  }

  /** Every descriptor of `fds` is served by one entry, and no other descriptor by any. */
  ghost predicate ExactlyOnce(s: seq<Served>, fds: set<int>)
  {
    && (forall k :: 0 <= k < |s| ==> s[k].fd in fds)
    && (forall x :: x in fds ==> exists k :: 0 <= k < |s| && s[k].fd == x)
    && (forall j, k :: 0 <= j < k < |s| ==> s[j].fd != s[k].fd)
  }

  lemma OnceMore(s: seq<Served>, fds: set<int>, e: Served)
    requires ExactlyOnce(s, fds) && e.fd !in fds
    ensures ExactlyOnce(s + [e], fds + {e.fd})
  {
    var s' := s + [e];
    forall x | x in fds + {e.fd} ensures exists k :: 0 <= k < |s'| && s'[k].fd == x {
      if x in fds {
        var k :| 0 <= k < |s| && s[k].fd == x;
        assert s'[k].fd == x;
      } else {
        assert s'[|s|].fd == x;
      }
    }
  }

  /** A full service meets every ready client exactly once, and nobody else. */
  lemma {:induction false} EachReadyClientOnce(client: seq<int>, turn: Turn)
    requires Distinct(client)
    ensures ExactlyOnce(Service(client, turn), Fds(client) * turn.ready)
  {
    if client != [] {
      var n := |client| - 1;
      FdsSnoc(client);
      EachReadyClientOnce(client[..n], turn);
      var before, one := Fds(client[..n]) * turn.ready, ServeOne(client[n], turn);
      if one == [] {
        Nil(Service(client[..n], turn));
        assert Fds(client) * turn.ready == before;
      } else {
        OnceMore(Service(client[..n], turn), before, one[0]);
        assert Fds(client) * turn.ready == before + {one[0].fd};
      }
    }
  }

  /** An echo of what was read, or a close because nothing was. */
  ghost predicate Answers(e: Served, turn: Turn)
  {
    match e
    case Echoed(fd, data) => data == turn.input(fd) && data != []
    case Closed(fd) => turn.input(fd) == []
  }

  /** What is echoed is what was read, and a client is closed exactly when nothing was. */
  lemma {:induction false} EchoesWhatWasRead(client: seq<int>, turn: Turn)
    ensures forall e :: e in Service(client, turn) ==> Answers(e, turn)
  {
    if client != [] {
      EchoesWhatWasRead(client[..|client| - 1], turn);
    }
  }

  /** After a full pass exactly the clients that were read to their end are gone. */
  lemma ClosedAreGone(was: seq<int>, now: seq<int>, turn: Turn, x: int)
    requires ServedTo(was, now, turn, |was|) && Distinct(was)
    ensures x in Fds(now) <==> x in Fds(was) && !(x in turn.ready && turn.input(x) == [])
  {
    if x in Fds(was) {
      var k :| 0 <= k < |was| && was[k] >= 0 && was[k] == x;
      assert now[k] == AfterRead(x, turn);
    }
    if x in Fds(now) {
      var k :| 0 <= k < |now| && now[k] >= 0 && now[k] == x;
      assert now[k] == AfterRead(was[k], turn);
    }
  }

  lemma ServiceStep(client: seq<int>, turn: Turn, i: nat)
    requires i < |client|
    ensures Service(client[..i + 1], turn) == Service(client[..i], turn) + ServeOne(client[i], turn)
  {
    assert client[..i + 1][..i] == client[..i];
  }

  /** Nothing more to serve: a service cut short there is the full service. */
  lemma {:induction false} ServiceRest(client: seq<int>, turn: Turn, i: nat)
    requires i <= |client| && forall k :: i <= k < |client| ==> ServeOne(client[k], turn) == []
    ensures Service(client[..i], turn) == Service(client, turn)
  {
    if i < |client| {
      var n := |client| - 1;
      ServiceRest(client[..n], turn, i);
      assert client[..n][..i] == client[..i];
    } else {
      assert client[..i] == client;
    }
  }

  /** The ready clients from entry `i` on. */
  ghost function Pending(client: seq<int>, turn: Turn, i: nat): set<int>
    requires i <= |client|
  {
    Fds(client[i..]) * turn.ready
  }

  lemma PendingStep(client: seq<int>, turn: Turn, i: nat)
    requires i < |client| && Distinct(client)
    ensures |Pending(client, turn, i)| == |Pending(client, turn, i + 1)| + |ServeOne(client[i], turn)|
  {
    var a, b := Fds(client[i..]), Fds(client[i + 1..]);
    assert client[i..] == [client[i]] + client[i + 1..];
    forall x | x in a ensures x in b || x == client[i] {
      var k :| 0 <= k < |client[i..]| && client[i..][k] >= 0 && client[i..][k] == x;
      assert k > 0 ==> client[i + 1..][k - 1] == x;
    }
    forall x | x in b ensures x in a && x != client[i] {
      var k :| 0 <= k < |client[i + 1..]| && client[i + 1..][k] >= 0 && client[i + 1..][k] == x;
      assert client[i..][k + 1] == x && x == client[i + 1 + k];
    }
    assert client[i] >= 0 ==> client[i..][0] in a;
    if ServeOne(client[i], turn) == [] {
      assert a * turn.ready == b * turn.ready;
    } else {
      assert a * turn.ready == b * turn.ready + {client[i]};
    }
  }

  lemma NothingPending(client: seq<int>, turn: Turn, i: nat)
    requires i <= |client| && Pending(client, turn, i) == {}
    ensures forall k :: i <= k < |client| ==> ServeOne(client[k], turn) == []
  {
    forall k | i <= k < |client| ensures ServeOne(client[k], turn) == [] {
      assert client[i..][k - i] == client[k];
      assert client[k] !in Fds(client[i..]) * turn.ready;
    }
  }

  /** The pass has visited the first `i` entries; `nready` ready clients are still to come. */
  ghost predicate Scanning(was: seq<int>, now: seq<int>, log0: seq<Served>, log: seq<Served>, turn: Turn, i: nat, nready: int)
  {
    && i <= |was| && ServedTo(was, now, turn, i)
    && log == log0 + Service(was[..i], turn)
    && nready == |Pending(was, turn, i)|
  }

  lemma ScanStart(was: seq<int>, log: seq<Served>, turn: Turn)
    ensures Scanning(was, was, log, log, turn, 0, |Pending(was, turn, 0)|)
  {
    Nil(log);
  }

  /** Entry `i` visited. */
  lemma ScanStep(was: seq<int>, now: seq<int>, log0: seq<Served>, log: seq<Served>, turn: Turn, i: nat, nready: int)
    requires i < |was| && Distinct(was) && Scanning(was, now, log0, log, turn, i, nready)
    ensures Scanning(was, now[i := AfterRead(now[i], turn)], log0, log + ServeOne(now[i], turn), turn, i + 1,
                     nready - |ServeOne(now[i], turn)|)
  {
    ServiceStep(was, turn, i);
    PendingStep(was, turn, i);
    Assoc(log0, Service(was[..i], turn), ServeOne(was[i], turn));
  }

  /** At the end of the table, or when no ready client is to come, all of them were served. */
  lemma ScanEnd(was: seq<int>, now: seq<int>, log0: seq<Served>, log: seq<Served>, turn: Turn, i: nat, nready: int)
    requires Scanning(was, now, log0, log, turn, i, nready)
    requires nready <= 0 || forall k :: i <= k < |was| ==> was[k] < 0
    ensures ServedTo(was, now, turn, |was|) && log == log0 + Service(was, turn)
  {
    if nready > 0 {
      PastMaxi(was, turn, i);
    }
    StopEarly(was, now, turn, i);
  }

  /** No client sits above `maxi`. */
  lemma PastMaxi(was: seq<int>, turn: Turn, i: nat)
    requires i <= |was| && forall k :: i <= k < |was| ==> was[k] < 0
    ensures Pending(was, turn, i) == {}
  {
    assert forall k :: 0 <= k < |was[i..]| ==> was[i..][k] == was[i + k];
  }

  /** When nothing is pending, the entries served so far are all there are to serve. */
  lemma StopEarly(was: seq<int>, now: seq<int>, turn: Turn, i: nat)
    requires i <= |was| && ServedTo(was, now, turn, i) && Pending(was, turn, i) == {}
    ensures ServedTo(was, now, turn, |was|)
    ensures Service(was[..i], turn) == Service(was, turn)
  {
    NothingPending(was, turn, i);
    ServiceRest(was, turn, i);
    forall k | i <= k < |was| ensures now[k] == AfterRead(was[k], turn) {
      assert ServeOne(was[k], turn) == [];
    }
  }

  // ---------- the server ----------

  class Server {
    const client: array<int>
    const listenfd: int
    const limit: int
    var allset: set<int>
    var maxi: int
    var maxfd: int
    /** Every client served, in order. */
    ghost var log: seq<Served>

    ghost predicate Valid()
      reads this, client
    {
      && client.Length == FD_SETSIZE
      && TableOk(client[..], allset, listenfd, maxi, maxfd, limit)
    }

    /** The kernel hands out descriptors below `limit`. */
    constructor (listenfd: int, limit: int)
      requires 0 <= listenfd < limit
      ensures Valid() && fresh(client) && log == []
      ensures allset == {listenfd} && this.listenfd == listenfd && this.limit == limit
    {
      client := new int[FD_SETSIZE](_ => -1);
      this.listenfd, this.limit := listenfd, limit;
      allset, maxi, maxfd := {listenfd}, -1, listenfd;
      log := [];
      new;
      assert Fds(client[..]) == {};
    }

    /** `accept`: an unused descriptor, or None. */
    method Accept(turn: Turn) returns (connfd: Option<int>)
      requires Valid()
      ensures connfd.Some? ==> 0 <= connfd.value < limit && connfd.value !in allset
      ensures 0 <= turn.connfd < limit && turn.connfd !in allset ==> connfd == Some(turn.connfd)
    {
      if 0 <= turn.connfd < limit && turn.connfd !in allset {
        connfd := Some(turn.connfd);
      } else {
        connfd := None;
      }
    }

    /** A new client goes to the first free entry. */
    method Enter(connfd: int) returns (ok: bool)
      requires Valid() && 0 <= connfd < limit && connfd !in allset
      modifies this`allset, this`maxi, this`maxfd, client
      ensures ok <==> FirstFree(old(client[..])) < FD_SETSIZE
      ensures !ok ==> client[..] == old(client[..])
      ensures Valid()
      ensures limit <= FD_SETSIZE ==> ok
      ensures ok ==> client[..] == old(client[..])[FirstFree(old(client[..])) := connfd]
      ensures ok ==> allset == old(allset) + {connfd}
    {
      ghost var was := client[..];
      var i := 0;
      while i < FD_SETSIZE
        invariant 0 <= i <= FD_SETSIZE
        invariant forall k :: 0 <= k < i ==> client[k] >= 0
        invariant client[..] == was
      {
        if client[i] < 0 {
          break;
        }
        i := i + 1;
      }
      FirstFreeIs(was, i);
      if limit <= FD_SETSIZE {
        NeverFull(was, allset, listenfd, maxi, maxfd, limit);
      }
      if i == FD_SETSIZE {
        return false;
      }
      AddKeeps(was, allset, listenfd, maxi, maxfd, limit, i, connfd);
      client[i] := connfd;
      assert client[..] == was[i := connfd];
      allset := allset + {connfd};
      if connfd > maxfd {
        maxfd := connfd;
      }
      if i > maxi {
        maxi := i;
      }
      ok := true;
    }

    /** Reads from one ready client: echo, or close. */
    method ServeClient(i: nat, turn: Turn)
      requires Valid() && i < FD_SETSIZE && client[i] >= 0 && client[i] in turn.ready
      modifies this`allset, this`log, client
      ensures Valid()
      ensures client[..] == old(client[..])[i := AfterRead(old(client[i]), turn)]
      ensures log == old(log) + ServeOne(old(client[i]), turn)
    {
      ghost var was := client[..];
      var sockfd := client[i];
      var data := turn.input(sockfd);
      if data == [] {
        CloseKeeps(was, allset, listenfd, maxi, maxfd, limit, i);
        allset := allset - {sockfd};
        client[i] := -1;
        log := log + [Closed(sockfd)];
        assert client[..] == was[i := -1];
      } else {
        log := log + [Echoed(sockfd, data)];
        assert client[..] == was[i := sockfd];
      }
    }

    /** Looks at entry `i`; `found` when there was a ready client. */
    method Visit(i: nat, turn: Turn) returns (found: bool)
      requires Valid() && i < FD_SETSIZE
      modifies this`allset, this`log, client
      ensures Valid()
      ensures client[..] == old(client[..])[i := AfterRead(old(client[i]), turn)]
      ensures log == old(log) + ServeOne(old(client[i]), turn)
      ensures |ServeOne(old(client[i]), turn)| == if found then 1 else 0
    {
      found := client[i] >= 0 && client[i] in turn.ready;
      if found {
        ServeClient(i, turn);
      } else {
        Nil(log);
        assert client[..] == client[..][i := client[i]];
      }
    }

    /** One turn of the pass. */
    method ScanOne(i: nat, turn: Turn, ghost nready: int, ghost was: seq<int>, ghost log0: seq<Served>)
      returns (found: bool)
      requires Valid() && i < FD_SETSIZE && Distinct(was) && Scanning(was, client[..], log0, log, turn, i, nready)
      modifies this`allset, this`log, client
      ensures Valid()
      ensures Scanning(was, client[..], log0, log, turn, i + 1, if found then nready - 1 else nready)
    {
      ScanStep(was, client[..], log0, log, turn, i, nready);
      found := Visit(i, turn);
    }

    /**
     * The pass over the clients. It may stop as soon as `nready` clients were served: the
     * result is that of serving them all.
     */
    method ServeAll(count: nat, turn: Turn)
      requires Valid() && count == |Pending(client[..], turn, 0)|
      modifies this`allset, this`log, client
      ensures Valid()
      ensures ServedTo(old(client[..]), client[..], turn, FD_SETSIZE)
      ensures log == old(log) + Service(old(client[..]), turn)
    {
      ghost var was, log0 := client[..], log;
      ScanStart(was, log, turn);
      var i, nready := ScanLoop(count, turn, was, log0);
      ScanEnd(was, client[..], log0, log, turn, i, nready);
    }

    method ScanLoop(count: nat, turn: Turn, ghost was: seq<int>, ghost log0: seq<Served>) returns (i: nat, nready: int)
      requires Valid() && was == client[..] && Scanning(was, was, log0, log, turn, 0, count)
      modifies this`allset, this`log, client
      ensures Valid() && Scanning(was, client[..], log0, log, turn, i, nready)
      ensures nready <= 0 || i > maxi
    {
      nready, i := count, 0;
      while i <= maxi
        invariant i <= maxi + 1 && Valid()
        invariant Scanning(was, client[..], log0, log, turn, i, nready)
      {
        var found := ScanOne(i, turn, nready, was, log0);
        i := i + 1;
        if found {
          nready := nready - 1;
          if nready <= 0 {
            break;
          }
        }
      }
    }

    /** A new connection: accepted and entered, or the server gives up. */
    method TakeConnection(turn: Turn) returns (outcome: Outcome, connfd: int)
      requires Valid() && turn.ready <= allset
      modifies this`allset, this`maxi, this`maxfd, client
      ensures Valid()
      ensures !outcome.Looping? ==> client[..] == old(client[..])
      ensures outcome.TooManyClients? ==> limit > FD_SETSIZE && FirstFree(old(client[..])) == FD_SETSIZE
      ensures outcome.Looping? ==>
        && 0 <= connfd < limit && connfd !in old(allset)
        && client[..] == Entered(old(client[..]), connfd)
        && Service(client[..], turn) == Service(old(client[..]), turn)
        && Pending(client[..], turn, 0) == Pending(old(client[..]), turn, 0)
    {
      ghost var was := client[..];
      var a := Accept(turn);
      if a.None? {
        return AcceptFailed, -1;
      }
      connfd := a.value;
      var ok := Enter(connfd);
      if !ok {
        return TooManyClients, connfd;
      }
      EnterServes(was, FirstFree(was), connfd, turn);
      outcome := Looping;
    }

    /**
     * One turn of the loop, `turn.ready` being what `select` reports. A pending connection is
     * entered first; every ready client is then served exactly once, whether the pass over the
     * clients is completed, stops early or is left out altogether.
     */
    method OneTurn(turn: Turn) returns (outcome: Outcome, connfd: int)
      requires Valid() && turn.ready <= allset
      modifies this, client
      ensures Valid()
      ensures !outcome.Looping? ==> client[..] == old(client[..]) && log == old(log)
      ensures outcome.TooManyClients? ==> limit > FD_SETSIZE && FirstFree(old(client[..])) == FD_SETSIZE
      ensures outcome.Looping? && listenfd in turn.ready ==> 0 <= connfd < limit && connfd !in old(allset)
      ensures outcome.Looping? ==>
        && log == old(log) + Service(old(client[..]), turn)
        && ServedTo(if listenfd in turn.ready then Entered(old(client[..]), connfd) else old(client[..]),
                    client[..], turn, FD_SETSIZE)
    {
      outcome, connfd := Looping, -1;
      var nready := |turn.ready|;
      CountReady(client[..], allset, listenfd, turn);
      if listenfd in turn.ready {
        outcome, connfd := TakeConnection(turn);
        if !outcome.Looping? {
          return;
        }
        nready := nready - 1;
        if nready <= 0 {
          NothingToServe(client[..], log, turn);
          return;
        }
      }
      ServeAll(nready, turn);
    }

    /**
     * The server, for as many returns of `select` as `turns` has, until it gives up; `tables`
     * is the client table at each `select`, `reported` what each of them reported.
     */
    method Serve(turns: seq<Turn>) returns (outcome: Outcome, ghost tables: seq<seq<int>>, ghost reported: seq<Turn>)
      requires Valid()
      modifies this, client
      ensures Valid()
      ensures IsRun(tables, reported, listenfd, turns)
      ensures tables[0] == old(client[..]) && tables[|reported|] == client[..]
      ensures log == old(log) + Services(tables, reported)
      ensures outcome.Looping? ==> |reported| == |turns|
      ensures limit <= 1024 ==> !outcome.TooManyClients?
    {
      outcome, tables, reported := Looping, [client[..]], [];
      ghost var log0 := log;
      Nil(log);
      for t := 0 to |turns|
        invariant Valid() && IsRun(tables, reported, listenfd, turns) && |reported| == t
        invariant tables[0] == old(client[..]) && tables[t] == client[..]
        invariant log == log0 + Services(tables, reported)
      {
        var turn := turns[t].(ready := turns[t].ready * allset);
        var connfd;
        ghost var was, logged := client[..], log;
        outcome, connfd := OneTurn(turn);
        if !outcome.Looping? {
          return;
        }
        RunMore(tables, reported, listenfd, turns, turn, connfd, client[..]);
        Assoc(log0, Services(tables, reported), Service(was, turn));
        tables, reported := tables + [client[..]], reported + [turn];
      }
      outcome := Looping;
    }
  }

  /** The tables of a run, each made of the last by the turn reported for it. */
  ghost predicate IsRun(tables: seq<seq<int>>, reported: seq<Turn>, listenfd: int, turns: seq<Turn>)
  {
    && |reported| <= |turns| && |tables| == |reported| + 1
    && forall k :: 0 <= k < |reported| ==>
         && reported[k] == turns[k].(ready := turns[k].ready * ({listenfd} + Fds(tables[k])))
         && Turned(tables[k], tables[k + 1], listenfd, reported[k])
  }

  ghost predicate Turned(a: seq<int>, b: seq<int>, listenfd: int, turn: Turn)
  {
    exists connfd :: TurnedWith(a, b, listenfd, turn, connfd)
  }

  ghost predicate TurnedWith(a: seq<int>, b: seq<int>, listenfd: int, turn: Turn, connfd: int)
  {
    && (listenfd in turn.ready ==> connfd >= 0 && connfd != listenfd && connfd !in Fds(a))
    && ServedTo(if listenfd in turn.ready then Entered(a, connfd) else a, b, turn, |b|)
  }

  /** What a run serves: at each turn every ready client of the table. */
  ghost function Services(tables: seq<seq<int>>, reported: seq<Turn>): seq<Served>
    requires |tables| > |reported|
  {
    if reported == [] then []
    else
      var n := |reported| - 1;
      Services(tables, reported[..n]) + Service(tables[n], reported[n])
  }

  lemma {:induction false} ServicesPrefix(tables: seq<seq<int>>, reported: seq<Turn>, more: seq<int>)
    requires |tables| > |reported|
    ensures Services(tables + [more], reported) == Services(tables, reported)
  {
    if reported != [] {
      var n := |reported| - 1;
      ServicesPrefix(tables, reported[..n], more);
      assert (tables + [more])[n] == tables[n];
    }
  }

  lemma RunMore(tables: seq<seq<int>>, reported: seq<Turn>, listenfd: int, turns: seq<Turn>, turn: Turn, connfd: int, b: seq<int>)
    requires IsRun(tables, reported, listenfd, turns) && |reported| < |turns|
    requires var k, a := |reported|, tables[|reported|];
             && turn == turns[k].(ready := turns[k].ready * ({listenfd} + Fds(a)))
             && TurnedWith(a, b, listenfd, turn, connfd)
    ensures IsRun(tables + [b], reported + [turn], listenfd, turns)
    ensures Services(tables + [b], reported + [turn])
            == Services(tables, reported) + Service(tables[|reported|], turn)
  {
    var n := |reported|;
    var ts, rs := tables + [b], reported + [turn];
    assert Turned(tables[n], b, listenfd, turn);
    forall k | 0 <= k < |rs|
      ensures rs[k] == turns[k].(ready := turns[k].ready * ({listenfd} + Fds(ts[k])))
      ensures Turned(ts[k], ts[k + 1], listenfd, rs[k])
    {
      if k < n {
        assert ts[k] == tables[k] && ts[k + 1] == tables[k + 1] && rs[k] == reported[k];
      }
    }
    ServicesPrefix(tables, reported, b);
    Halves(reported, [turn]);
    assert ts[n] == tables[n] && rs[n] == turn;
  }

  /** The table after a new connection. */
  function Entered(client: seq<int>, connfd: int): seq<int>
  {
    var i := FirstFree(client);
    if i < |client| then client[i := connfd] else client
  }

  /** `nready` counts the listening descriptor and the ready clients. */
  lemma CountReady(client: seq<int>, allset: set<int>, listenfd: int, turn: Turn)
    requires turn.ready <= allset == {listenfd} + Fds(client) && listenfd !in Fds(client)
    ensures |turn.ready| == |Pending(client, turn, 0)| + if listenfd in turn.ready then 1 else 0
  {
    assert client[0..] == client;
    if listenfd in turn.ready {
      assert turn.ready == Fds(client) * turn.ready + {listenfd};
    } else {
      assert turn.ready == Fds(client) * turn.ready;
    }
  }

  /** A connection just accepted is not among those reported. */
  lemma EnterServes(client: seq<int>, i: nat, fd: int, turn: Turn)
    requires i < |client| && client[i] < 0 && fd !in turn.ready
    ensures Service(client[i := fd], turn) == Service(client, turn)
    ensures Pending(client[i := fd], turn, 0) == Pending(client, turn, 0)
  {
    EnterService(client, i, fd, turn);
    var c := client[i := fd];
    assert c[0..] == c && client[0..] == client;
    assert c[i] == fd && forall k :: 0 <= k < |client| && k != i ==> c[k] == client[k];
    forall x | x in Fds(client) * turn.ready ensures x in Fds(c) {
      var k :| 0 <= k < |client| && client[k] >= 0 && client[k] == x;
      assert c[k] == x;
    }
  }

  lemma {:induction false} EnterService(client: seq<int>, i: nat, fd: int, turn: Turn)
    requires i < |client| && client[i] < 0 && fd !in turn.ready
    ensures Service(client[i := fd], turn) == Service(client, turn)
  {
    var n := |client| - 1;
    if i < n {
      EnterService(client[..n], i, fd, turn);
      assert client[i := fd][..n] == client[..n][i := fd];
    } else {
      assert client[i := fd][..n] == client[..n];
    }
  }

  /** No ready client: the pass over the clients would change nothing. */
  lemma NothingToServe(client: seq<int>, log: seq<Served>, turn: Turn)
    requires |Pending(client, turn, 0)| == 0
    ensures ServedTo(client, client, turn, |client|) && log == log + Service(client, turn)
  {
    StopEarly(client, client, turn, 0);
  }

  lemma {:induction false} FirstFreeIs(client: seq<int>, i: nat)
    requires i <= |client| && forall k :: 0 <= k < i ==> client[k] >= 0
    requires i < |client| ==> client[i] < 0
    ensures FirstFree(client) == i
  {
  }
}
