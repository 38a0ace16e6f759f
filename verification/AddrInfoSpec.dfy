/** What `ga_aistruct`, `ga_port` and `ga_serv` do to the list of results, on values. */
module AddrInfoSpec {
  import opened Prelude

  datatype Family = Inet | Inet6 | Local

  const SOCK_STREAM: nat := 1
  const SOCK_DGRAM: nat := 2

  /** One `addrinfo` with its socket address; `clone` is the AI_CLONE flag. */
  datatype Info = Info(clone: bool, family: Family, socktype: nat, protocol: nat, addr: seq<byte>, port: nat)

  datatype Pass = Pass(port: nat, socktype: nat)

  predicate HasPort(f: Family) { f != Local }

  function WithPort(x: Info, port: nat): Info
  {
    if HasPort(x.family) then x.(port := port) else x
  }

  /** What one pass makes of one entry: it stays one entry, or becomes two. */
  function PortOne(x: Info, p: Pass): seq<Info>
  {
    if x.clone then
      if x.socktype != 0
      then [x, WithPort(x.(clone := false, socktype := p.socktype), p.port)]
      else [WithPort(x.(socktype := p.socktype), p.port)]
    else if x.socktype != p.socktype then [x]
    else [WithPort(x, p.port)]
  }

  function PortAll(l: seq<Info>, p: Pass): seq<Info>
  {
    if l == [] then [] else PortAll(l[..|l| - 1], p) + PortOne(l[|l| - 1], p)
  }

  /** The entries a pass gives a port to. */
  function FoundOne(x: Info, p: Pass): nat
  {
    if HasPort(x.family) && (x.clone || x.socktype == p.socktype) then 1 else 0
  }

  function FoundAll(l: seq<Info>, p: Pass): nat
  {
    if l == [] then 0 else FoundAll(l[..|l| - 1], p) + FoundOne(l[|l| - 1], p)
  }

  lemma PortSnoc(l: seq<Info>, x: Info, p: Pass)
    ensures PortAll(l + [x], p) == PortAll(l, p) + PortOne(x, p)
    ensures FoundAll(l + [x], p) == FoundAll(l, p) + FoundOne(x, p)
  {
    Halves(l, [x]);
  }

  lemma {:induction false} PortConcat(a: seq<Info>, b: seq<Info>, p: Pass)
    ensures PortAll(a + b, p) == PortAll(a, p) + PortAll(b, p)
    ensures FoundAll(a + b, p) == FoundAll(a, p) + FoundAll(b, p)
  {
    if b == [] {
      Nil(a);
      Nil(PortAll(a, p));
    } else {
      var front, last := b[..|b| - 1], b[|b| - 1];
      FrontLast(b);
      Assoc(a, front, [last]);
      PortConcat(a, front, p);
      PortSnoc(a + front, last, p);
      Assoc(PortAll(a, p), PortAll(front, p), PortOne(last, p));
    }
  }

  // ---------- any number of passes ----------

  function Passes(l: seq<Info>, ps: seq<Pass>): seq<Info>
  {
    if ps == [] then l else PortAll(Passes(l, ps[..|ps| - 1]), ps[|ps| - 1])
  }

  /** Distinct nonzero socket types, as Posix requires of them. */
  ghost predicate DistinctTypes(ps: seq<Pass>)
  {
    && (forall i :: 0 <= i < |ps| ==> ps[i].socktype != 0)
    && (forall i, j :: 0 <= i < j < |ps| ==> ps[i].socktype != ps[j].socktype)
  }

  /** An entry made without a socket type, for an address that has ports. */
  predicate Unspecified(x: Info)
  {
    x.clone && x.socktype == 0 && HasPort(x.family)
  }

  /** The entry for address `x` and pass `p`. */
  function Served(x: Info, p: Pass): Info
  {
    x.(socktype := p.socktype, port := p.port)
  }

  /** The clones of `x` for the passes after the first, the latest nearest to `x`. */
  function Clones(x: Info, ps: seq<Pass>): seq<Info>
    requires ps != []
  {
    if |ps| == 1 then []
    else [Served(x, ps[|ps| - 1]).(clone := false)] + Clones(x, ps[..|ps| - 1])
  }

  function Group(x: Info, ps: seq<Pass>): (g: seq<Info>)
    requires ps != []
  {
    [Served(x, ps[0])] + Clones(x, ps)
  }

  function Groups(l: seq<Info>, ps: seq<Pass>): seq<Info>
    requires ps != []
  {
    if l == [] then [] else Groups(l[..|l| - 1], ps) + Group(l[|l| - 1], ps)
  }

  /** Clones already made are left alone by a pass for another socket type. */
  lemma {:induction false} ClonesKept(x: Info, ps: seq<Pass>, p: Pass)
    requires ps != [] && DistinctTypes(ps + [p])
    ensures PortAll(Clones(x, ps), p) == Clones(x, ps) && FoundAll(Clones(x, ps), p) == 0
    decreases |ps|
  {
    if |ps| > 1 {
      var front, last := ps[..|ps| - 1], ps[|ps| - 1];
      var c := Served(x, last).(clone := false);
      assert (ps + [p])[|ps| - 1] == last && (ps + [p])[|ps|] == p;
      FrontLast(ps);
      DistinctFront(front, last, p);
      ClonesKept(x, front, p);
      PortConcat([c], Clones(x, front), p);
      PortSnoc([], c, p);
      Nil([c]);
    }
  }

  lemma DistinctFront(front: seq<Pass>, last: Pass, p: Pass)
    requires DistinctTypes((front + [last]) + [p])
    ensures DistinctTypes(front + [p])
  {
    var all := (front + [last]) + [p];
    forall i | 0 <= i < |front| ensures front[i].socktype != p.socktype && front[i].socktype != 0 {
      assert all[i] == front[i] && all[|front| + 1] == p;
    }
    forall i, j | 0 <= i < j < |front| ensures front[i].socktype != front[j].socktype {
      assert all[i] == front[i] && all[j] == front[j];
    }
    assert all[|front| + 1] == p;
  }

  /** One more pass over the group of an address adds its entry right after the first. */
  lemma GroupPass(x: Info, ps: seq<Pass>, p: Pass)
    requires ps != [] && Unspecified(x) && DistinctTypes(ps + [p])
    ensures PortAll(Group(x, ps), p) == Group(x, ps + [p]) && FoundAll(Group(x, ps), p) == 1
  {
    var first, clone := Served(x, ps[0]), Served(x, p).(clone := false);
    assert (ps + [p])[0] == ps[0] && (ps + [p])[|ps|] == p;
    ServedPassed(x, ps[0], p);
    GroupSnoc(x, ps, p);
    ClonesKept(x, ps, p);
    PortConcat([first], Clones(x, ps), p);
    PortSnoc([], first, p);
    Nil(PortOne(first, p));
    Assoc([first], [clone], Clones(x, ps));
  }

  lemma ServedPassed(x: Info, q: Pass, p: Pass)
    requires Unspecified(x) && q.socktype != 0 && p.socktype != q.socktype
    ensures PortOne(Served(x, q), p) == [Served(x, q)] + [Served(x, p).(clone := false)]
    ensures FoundAll([Served(x, q)], p) == 1
  {
    PortSnoc([], Served(x, q), p);
    Nil([Served(x, q)]);
  }

  lemma GroupSnoc(x: Info, ps: seq<Pass>, p: Pass)
    requires ps != []
    ensures Group(x, ps + [p]) == [Served(x, ps[0])] + ([Served(x, p).(clone := false)] + Clones(x, ps))
  {
    Halves(ps, [p]);
    assert (ps + [p])[0] == ps[0] && (ps + [p])[|ps|] == p;
  }

  lemma {:induction false} GroupsPass(l: seq<Info>, ps: seq<Pass>, p: Pass)
    requires ps != [] && DistinctTypes(ps + [p]) && forall i :: 0 <= i < |l| ==> Unspecified(l[i])
    ensures PortAll(Groups(l, ps), p) == Groups(l, ps + [p]) && FoundAll(Groups(l, ps), p) == |l|
  {
    if l != [] {
      var front, last := l[..|l| - 1], l[|l| - 1];
      GroupsPass(front, ps, p);
      GroupPass(last, ps, p);
      PortConcat(Groups(front, ps), Group(last, ps), p);
    }
  }

  lemma {:induction false} FirstPass(l: seq<Info>, p: Pass)
    requires forall i :: 0 <= i < |l| ==> Unspecified(l[i])
    ensures PortAll(l, p) == Groups(l, [p]) && FoundAll(l, p) == |l|
  {
    if l != [] {
      FirstPass(l[..|l| - 1], p);
      var last := l[|l| - 1];
      assert PortOne(last, p) == [Served(last, p)] == Group(last, [p]);
    }
  }

  /**
   * The cloning scheme for any number of socket types: addresses keep their order, and each
   * appears once for every type, with that type's port.
   */
  lemma {:induction false} AnyNumberOfTypes(l: seq<Info>, ps: seq<Pass>)
    requires ps != [] && DistinctTypes(ps) && forall i :: 0 <= i < |l| ==> Unspecified(l[i])
    ensures Passes(l, ps) == Groups(l, ps)
    ensures FoundAll(Passes(l, ps[..|ps| - 1]), ps[|ps| - 1]) == |l|
  {
    var front, last := ps[..|ps| - 1], ps[|ps| - 1];
    FrontLast(ps);
    if front == [] {
      FirstPass(l, last);
      assert ps == [last];
    } else {
      assert DistinctTypes(front);
      AnyNumberOfTypes(l, front);
      GroupsPass(l, front, last);
    }
  }

  /** Two entries for each address: its stream entry, then its datagram entry. */
  lemma {:induction false} StreamThenDgram(l: seq<Info>, tcp: nat, udp: nat)
    requires forall i :: 0 <= i < |l| ==> Unspecified(l[i])
    ensures var r := Passes(l, [Pass(tcp, SOCK_STREAM), Pass(udp, SOCK_DGRAM)]);
            && |r| == 2 * |l|
            && forall i :: 0 <= i < |l| ==>
                 && r[2 * i] == Served(l[i], Pass(tcp, SOCK_STREAM))
                 && r[2 * i + 1] == Served(l[i], Pass(udp, SOCK_DGRAM)).(clone := false)
  {
    var ps := [Pass(tcp, SOCK_STREAM), Pass(udp, SOCK_DGRAM)];
    AnyNumberOfTypes(l, ps);
    PairsOf(l, ps);
  }

  lemma {:induction false} PairsOf(l: seq<Info>, ps: seq<Pass>)
    requires |ps| == 2
    ensures InPairs(Groups(l, ps), l, ps)
  {
    if l != [] {
      var front, last := l[..|l| - 1], l[|l| - 1];
      PairsOf(front, ps);
      GroupOfTwo(last, ps);
      PairsMore(Groups(front, ps), front, last, ps);
      FrontLast(l);
    }
  }

  /** For each entry of `l` the two entries of the passes `ps`. */
  ghost predicate InPairs(r: seq<Info>, l: seq<Info>, ps: seq<Pass>)
    requires |ps| == 2
  {
    && |r| == 2 * |l|
    && forall i :: 0 <= i < |l| ==>
         r[2 * i] == Served(l[i], ps[0]) && r[2 * i + 1] == Served(l[i], ps[1]).(clone := false)
  }

  lemma PairsMore(r: seq<Info>, l: seq<Info>, x: Info, ps: seq<Pass>)
    requires |ps| == 2 && InPairs(r, l, ps)
    ensures InPairs(r + [Served(x, ps[0]), Served(x, ps[1]).(clone := false)], l + [x], ps)
  {
    var more, all := r + [Served(x, ps[0]), Served(x, ps[1]).(clone := false)], l + [x];
    forall i | 0 <= i < |all|
      ensures more[2 * i] == Served(all[i], ps[0]) && more[2 * i + 1] == Served(all[i], ps[1]).(clone := false)
    {
      if i < |l| {
        assert more[2 * i] == r[2 * i] && more[2 * i + 1] == r[2 * i + 1];
      }
    }
  }

  lemma GroupOfTwo(x: Info, ps: seq<Pass>)
    requires |ps| == 2
    ensures Group(x, ps) == [Served(x, ps[0]), Served(x, ps[1]).(clone := false)]
  {
    assert Clones(x, ps[..1]) == [];
  }

  // ---------- ga_serv ----------

  /** The service string: a port number, or a name and what `getservbyname` knows of it. */
  datatype Service = Number(port: nat) | Name(tcp: Option<nat>, udp: Option<nat>)

  datatype Result = Ok | EaiNoname | EaiService

  /** The passes made for the caller's socket type, zero when not specified. */
  function PassesFor(socktype: nat, serv: Service): seq<Pass>
  {
    match serv
    case Number(port) =>
      if socktype != 0 then [Pass(port, socktype)]
      else [Pass(port, SOCK_STREAM), Pass(port, SOCK_DGRAM)]
    case Name(tcp, udp) =>
      (if (socktype == 0 || socktype == SOCK_STREAM) && tcp.Some? then [Pass(tcp.value, SOCK_STREAM)] else [])
      + (if (socktype == 0 || socktype == SOCK_DGRAM) && udp.Some? then [Pass(udp.value, SOCK_DGRAM)] else [])
  }

  function FoundBy(l: seq<Info>, ps: seq<Pass>): nat
  {
    if ps == [] then 0 else FoundBy(l, ps[..|ps| - 1]) + FoundAll(Passes(l, ps[..|ps| - 1]), ps[|ps| - 1])
  }

  function ServResult(l: seq<Info>, socktype: nat, serv: Service): Result
  {
    if FoundBy(l, PassesFor(socktype, serv)) > 0 then Ok
    else if socktype == 0 then EaiNoname else EaiService
  }

  /** An entry as `ga_aistruct` makes it. */
  function Made(family: Family, addr: seq<byte>, socktype: nat, protocol: nat): Info
  {
    Info(socktype == 0, family, socktype, protocol, addr, 0)
  }

  /**
   * Without a socket type the service is served for each address once per type that knows
   * it, and the call fails exactly when no type does (or there is no address).
   */
  lemma {:induction false} UnspecifiedTypeServed(l: seq<Info>, serv: Service)
    requires forall i :: 0 <= i < |l| ==> Unspecified(l[i])
    ensures var ps := PassesFor(0, serv);
            && (ps != [] ==> Passes(l, ps) == Groups(l, ps))
            && FoundBy(l, ps) == |ps| * |l|
            && (ServResult(l, 0, serv) == Ok <==> ps != [] && l != [])
  {
    var ps := PassesFor(0, serv);
    AllFound(l, ps);
    if ps != [] {
      AnyNumberOfTypes(l, ps);
    }
    if ps != [] && l != [] {
      OneMore(|ps| - 1, |l|);
    }
  }

  lemma AllFound(l: seq<Info>, ps: seq<Pass>)
    requires DistinctTypes(ps) && forall i :: 0 <= i < |l| ==> Unspecified(l[i])
    ensures FoundBy(l, ps) == |ps| * |l|
  {
    FoundTimes(l, ps);
    TimesIs(|ps|, |l|);
  }

  function Times(n: nat, m: nat): nat
  {
    if n == 0 then 0 else Times(n - 1, m) + m
  }

  lemma {:induction false} TimesIs(n: nat, m: nat)
    ensures Times(n, m) == n * m
  {
    if n > 0 {
      TimesIs(n - 1, m);
      OneMore(n - 1, m);
    }
  }

  lemma {:induction false} FoundTimes(l: seq<Info>, ps: seq<Pass>)
    requires DistinctTypes(ps) && forall i :: 0 <= i < |l| ==> Unspecified(l[i])
    ensures FoundBy(l, ps) == Times(|ps|, |l|)
  {
    if ps != [] {
      FoundByLast(l, ps);
      FoundTimes(l, ps[..|ps| - 1]);
    }
  }

  lemma FoundByLast(l: seq<Info>, ps: seq<Pass>)
    requires ps != [] && DistinctTypes(ps) && forall i :: 0 <= i < |l| ==> Unspecified(l[i])
    ensures FoundBy(l, ps) == FoundBy(l, ps[..|ps| - 1]) + |l|
  {
    AnyNumberOfTypes(l, ps);
  }

  lemma OneMore(n: nat, m: nat)
    ensures (n + 1) * m == n * m + m
  {
  }

  /** With a socket type nothing is cloned: entries that have a port get it, and no other change. */
  lemma {:induction false} SpecifiedTypeServed(l: seq<Info>, p: Pass)
    requires p.socktype != 0 && forall i :: 0 <= i < |l| ==> !l[i].clone && l[i].socktype == p.socktype
    ensures |PortAll(l, p)| == |l| && forall i :: 0 <= i < |l| ==> PortAll(l, p)[i] == WithPort(l[i], p.port)
    ensures FoundAll(l, p) == 0 <==> forall i :: 0 <= i < |l| ==> !HasPort(l[i].family)
  {
    if l != [] {
      SpecifiedTypeServed(l[..|l| - 1], p);
      assert l[..|l| - 1] + [l[|l| - 1]] == l;
    }
  }

  // ---------- every branch of ga_serv, entry by entry ----------

  /** An address the host lookup found. */
  datatype Found = Found(family: Family, addr: seq<byte>)

  function AllMade(hosts: seq<Found>, socktype: nat, protocol: nat): (l: seq<Info>)
    ensures |l| == |hosts|
    ensures forall i :: 0 <= i < |hosts| ==> l[i] == Made(hosts[i].family, hosts[i].addr, socktype, protocol)
  {
    seq(|hosts|, i requires 0 <= i < |hosts| => Made(hosts[i].family, hosts[i].addr, socktype, protocol))
  }

  /** Two entries for each address: stream with its port, then datagram with its own. */
  ghost predicate Pairs(l: seq<Info>, hosts: seq<Found>, protocol: nat, tcp: nat, udp: nat)
  {
    && |l| == 2 * |hosts|
    && forall i :: 0 <= i < |hosts| ==>
         && l[2 * i] == Info(true, hosts[i].family, SOCK_STREAM, protocol, hosts[i].addr, tcp)
         && l[2 * i + 1] == Info(false, hosts[i].family, SOCK_DGRAM, protocol, hosts[i].addr, udp)
  }

  /** One entry for each address. */
  ghost predicate Singles(l: seq<Info>, hosts: seq<Found>, clone: bool, socktype: nat, protocol: nat, port: nat)
  {
    && |l| == |hosts|
    && forall i :: 0 <= i < |hosts| ==>
         l[i] == Info(clone, hosts[i].family, socktype, protocol, hosts[i].addr, port)
  }

  /** Success needs an address; otherwise the error code depends on whether a type was asked for. */
  function Expected(served: bool, hosts: seq<Found>, socktype: nat): Result
  {
    if served && hosts != [] then Ok else if socktype == 0 then EaiNoname else EaiService
  }

  /**
   * The list and the return value of `ga_serv` for the addresses found. A port number serves
   * the type asked for, or stream and datagram. A name serves the types asked for that it is
   * known to; an entry that is not served keeps port 0.
   */
  ghost predicate InTable(l: seq<Info>, rc: Result, hosts: seq<Found>, socktype: nat, protocol: nat, serv: Service)
  {
    match serv
    case Number(port) =>
      if socktype == 0
      then Pairs(l, hosts, protocol, port, port) && rc == Expected(true, hosts, socktype)
      else Singles(l, hosts, false, socktype, protocol, port) && rc == Expected(true, hosts, socktype)
    case Name(None, None) =>
      Singles(l, hosts, socktype == 0, socktype, protocol, 0) && rc == Expected(false, hosts, socktype)
    case Name(Some(tcp), None) =>
      if socktype == 0 || socktype == SOCK_STREAM
      then Singles(l, hosts, socktype == 0, SOCK_STREAM, protocol, tcp) && rc == Expected(true, hosts, socktype)
      else Singles(l, hosts, false, socktype, protocol, 0) && rc == Expected(false, hosts, socktype)
    case Name(None, Some(udp)) =>
      if socktype == 0 || socktype == SOCK_DGRAM
      then Singles(l, hosts, socktype == 0, SOCK_DGRAM, protocol, udp) && rc == Expected(true, hosts, socktype)
      else Singles(l, hosts, false, socktype, protocol, 0) && rc == Expected(false, hosts, socktype)
    case Name(Some(tcp), Some(udp)) =>
      if socktype == 0 then Pairs(l, hosts, protocol, tcp, udp) && rc == Expected(true, hosts, socktype)
      else if socktype == SOCK_STREAM
      then Singles(l, hosts, false, SOCK_STREAM, protocol, tcp) && rc == Expected(true, hosts, socktype)
      else if socktype == SOCK_DGRAM
      then Singles(l, hosts, false, SOCK_DGRAM, protocol, udp) && rc == Expected(true, hosts, socktype)
      else Singles(l, hosts, false, socktype, protocol, 0) && rc == Expected(false, hosts, socktype)
  }

  /** No pass leaves the entries as they were made. */
  lemma NoneServed(hosts: seq<Found>, socktype: nat, protocol: nat)
    ensures var l := AllMade(hosts, socktype, protocol);
            Singles(Passes(l, []), hosts, socktype == 0, socktype, protocol, 0) && FoundBy(l, []) == 0
  {
  }

  /** One pass over entries made without a type. */
  lemma OneServed(hosts: seq<Found>, protocol: nat, p: Pass)
    requires p.socktype != 0 && forall i :: 0 <= i < |hosts| ==> hosts[i].family in {Inet, Inet6}
    ensures var l := AllMade(hosts, 0, protocol);
            Singles(Passes(l, [p]), hosts, true, p.socktype, protocol, p.port) && FoundBy(l, [p]) == |hosts|
  {
    var l := AllMade(hosts, 0, protocol);
    FirstPass(l, p);
    GroupsOfOne(l, p);
    PassOnce(l, p);
  }

  lemma PassOnce(l: seq<Info>, p: Pass)
    ensures Passes(l, [p]) == PortAll(l, p) && FoundBy(l, [p]) == FoundAll(l, p)
  {
    assert [p][..0] == [];
  }

  lemma {:induction false} GroupsOfOne(l: seq<Info>, p: Pass)
    ensures |Groups(l, [p])| == |l| && forall i :: 0 <= i < |l| ==> Groups(l, [p])[i] == Served(l[i], p)
  {
    if l != [] {
      GroupsOfOne(l[..|l| - 1], p);
      Nil([Served(l[|l| - 1], p)]);
      assert Group(l[|l| - 1], [p]) == [Served(l[|l| - 1], p)];
    }
  }

  /** One pass for the type the entries were made with. */
  lemma TypeServed(hosts: seq<Found>, protocol: nat, p: Pass)
    requires p.socktype != 0 && forall i :: 0 <= i < |hosts| ==> hosts[i].family in {Inet, Inet6}
    ensures var l := AllMade(hosts, p.socktype, protocol);
            && Singles(Passes(l, [p]), hosts, false, p.socktype, protocol, p.port)
            && (FoundBy(l, [p]) > 0 <==> hosts != [])
  {
    SpecifiedTypeServed(AllMade(hosts, p.socktype, protocol), p);
    PassOnce(AllMade(hosts, p.socktype, protocol), p);
  }

  /** Two passes over entries made without a type. */
  lemma BothServed(hosts: seq<Found>, protocol: nat, tcp: nat, udp: nat)
    requires forall i :: 0 <= i < |hosts| ==> hosts[i].family in {Inet, Inet6}
    ensures var l, ps := AllMade(hosts, 0, protocol), [Pass(tcp, SOCK_STREAM), Pass(udp, SOCK_DGRAM)];
            Pairs(Passes(l, ps), hosts, protocol, tcp, udp) && (FoundBy(l, ps) > 0 <==> hosts != [])
  {
    var l, ps := AllMade(hosts, 0, protocol), [Pass(tcp, SOCK_STREAM), Pass(udp, SOCK_DGRAM)];
    StreamThenDgram(l, tcp, udp);
    AllFound(l, ps);
  }

  lemma TableServed(hosts: seq<Found>, socktype: nat, protocol: nat, serv: Service)
    requires forall i :: 0 <= i < |hosts| ==> hosts[i].family in {Inet, Inet6}
    ensures var l := AllMade(hosts, socktype, protocol);
            InTable(Passes(l, PassesFor(socktype, serv)), ServResult(l, socktype, serv), hosts, socktype, protocol, serv)
  {
    var ps := PassesFor(socktype, serv);
    if ps == [] {
      NoneServed(hosts, socktype, protocol);
    } else if |ps| == 1 {
      assert ps == [ps[0]];
      if socktype == 0 {
        OneServed(hosts, protocol, ps[0]);
      } else {
        TypeServed(hosts, protocol, ps[0]);
      }
    } else {
      assert ps == [Pass(ps[0].port, SOCK_STREAM), Pass(ps[1].port, SOCK_DGRAM)];
      BothServed(hosts, protocol, ps[0].port, ps[1].port);
    }
  }
}
