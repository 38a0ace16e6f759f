/** The linked list of results in memory: `ga_aistruct`, `ga_clone`, `ga_port` and `ga_serv`. */
module AddrInfo {
  import opened Prelude
  import opened AddrInfoSpec

  class SockAddr {
    var family: Family
    var addr: seq<byte>
    var port: nat

    constructor (family: Family, addr: seq<byte>, port: nat)
      ensures this.family == family && this.addr == addr && this.port == port
    {
      this.family, this.addr, this.port := family, addr, port;
    }
  }

  class Node {
    var clone: bool
    var family: Family
    var socktype: nat
    var protocol: nat
    const addr: SockAddr
    var next: Node?

    constructor (clone: bool, family: Family, socktype: nat, protocol: nat, addr: SockAddr, next: Node?)
      ensures this.clone == clone && this.family == family && this.socktype == socktype
      ensures this.protocol == protocol && this.addr == addr && this.next == next
    {
      this.clone, this.family, this.socktype := clone, family, socktype;
      this.protocol, this.addr, this.next := protocol, addr, next;
    }
  }

  function Value(n: Node): Info
    reads n, n.addr
  {
    Info(n.clone, n.family, n.socktype, n.protocol, n.addr.addr, n.addr.port)
  }

  /** The node number `i`, or NULL behind the last. */
  function At(nodes: seq<Node>, i: int): Node?
  {
    if 0 <= i < |nodes| then nodes[i] else null
  }

  /** Two nodes, and two addresses. */
  ghost predicate Apart(a: Node, b: Node)
  {
    a != b && a.addr != b.addr
  }

  ghost predicate AllApart(nodes: seq<Node>)
  {
    forall i, j {:trigger Apart(nodes[i], nodes[j])} :: 0 <= i < j < |nodes| ==> Apart(nodes[i], nodes[j])
  }

  lemma OthersApart(nodes: seq<Node>, d: nat)
    requires AllApart(nodes) && d < |nodes|
    ensures forall i :: 0 <= i < |nodes| && i != d ==> nodes[i] != nodes[d] && nodes[i].addr != nodes[d].addr
  {
    forall i | 0 <= i < |nodes| && i != d ensures nodes[i] != nodes[d] && nodes[i].addr != nodes[d].addr {
      assert if i < d then Apart(nodes[i], nodes[d]) else Apart(nodes[d], nodes[i]);
    }
  }

  /** A new node between the others. */
  lemma ApartWith(nodes: seq<Node>, d: nat, n: Node)
    requires AllApart(nodes) && d <= |nodes|
    requires forall i :: 0 <= i < |nodes| ==> nodes[i] != n && nodes[i].addr != n.addr
    ensures AllApart(nodes[..d] + [n] + nodes[d..])
  {
    var after := nodes[..d] + [n] + nodes[d..];
    forall i, j | 0 <= i < j < |after| ensures Apart(after[i], after[j]) {
      var i', j' := if i < d then i else i - 1, if j < d then j else j - 1;
      if i != d && j != d {
        assert after[i] == nodes[i'] && after[j] == nodes[j'];
        assert Apart(nodes[i'], nodes[j']);
      } else if i == d {
        assert after[j] == nodes[j'];
      } else {
        assert after[i] == nodes[i'];
      }
    }
  }

  /**
   * `nodes` are the nodes of the list from `head`, all different, no two sharing an `ai_addr`;
   * nodes and addresses are objects of `repr`.
   */
  ghost predicate IsList(head: Node?, nodes: seq<Node>, repr: set<object>)
    reads repr
  {
    && (forall i :: 0 <= i < |nodes| ==> nodes[i] in repr && nodes[i].addr in repr)
    && head == At(nodes, 0)
    && (forall i {:trigger nodes[i].next} :: 0 <= i < |nodes| ==> nodes[i].next == At(nodes, i + 1))
    && AllApart(nodes)
  }

  /** The list as values. */
  ghost predicate Shows(nodes: seq<Node>, l: seq<Info>, repr: set<object>)
    requires forall i :: 0 <= i < |nodes| ==> nodes[i] in repr && nodes[i].addr in repr
    reads repr
  {
    |l| == |nodes| && forall i :: 0 <= i < |nodes| ==> Value(nodes[i]) == l[i]
  }

  ghost predicate ListOf(head: Node?, nodes: seq<Node>, l: seq<Info>, repr: set<object>)
    reads repr
  {
    IsList(head, nodes, repr) && Shows(nodes, l, repr)
  }

  /** `ga_clone`: a copy of `ai`, with an address of its own, linked in behind it. */
  method GaClone(ai: Node) returns (n: Node)
    modifies ai`next
    ensures fresh(n) && fresh(n.addr)
    ensures ai.next == n && n.next == old(ai.next)
    ensures Value(n) == Value(ai).(clone := false)
  {
    var sa := new SockAddr(ai.addr.family, ai.addr.addr, ai.addr.port);
    n := new Node(false, ai.family, ai.socktype, ai.protocol, sa, ai.next);
    ai.next := n;
  }

  /** `s` with `x` behind the element at `d`. */
  function Spliced<T>(s: seq<T>, d: nat, x: T): seq<T>
    requires d < |s|
  {
    s[..d + 1] + [x] + s[d + 1..]
  }

  /** `ai_socktype`, and the port of an address that has one. */
  method SetEntry(ai: Node, p: Pass) returns (found: nat)
    modifies ai`socktype, ai.addr`port
    ensures Value(ai) == WithPort(old(Value(ai)).(socktype := p.socktype), p.port)
    ensures found == if HasPort(ai.family) then 1 else 0
  {
    ai.socktype := p.socktype;
    match ai.family {
      case Inet => ai.addr.port := p.port; found := 1;
      case Inet6 => ai.addr.port := p.port; found := 1;
      case Local => found := 0;
    }
  }

  lemma SplicedAt<T>(s: seq<T>, d: nat, x: T)
    requires d < |s|
    ensures |Spliced(s, d, x)| == |s| + 1
    ensures forall i :: 0 <= i <= d ==> Spliced(s, d, x)[i] == s[i]
    ensures Spliced(s, d, x)[d + 1] == x
    ensures forall i :: d + 1 < i <= |s| ==> Spliced(s, d, x)[i] == s[i - 1]
  {
  }

  /** A list cut open behind `nodes[d]`, with `n` put between: it is a list again. */
  lemma SplicedList(head: Node?, nodes: seq<Node>, l: seq<Info>, repr: set<object>, d: nat, n: Node, c: Info)
    requires d < |nodes| == |l| && head == At(nodes, 0) && AllApart(nodes)
    requires forall i :: 0 <= i < |nodes| ==> nodes[i] in repr && nodes[i].addr in repr && Value(nodes[i]) == l[i]
    requires forall i {:trigger nodes[i].next} :: 0 <= i < |nodes| && i != d ==> nodes[i].next == At(nodes, i + 1)
    requires nodes[d].next == n && n.next == At(nodes, d + 1) && Value(n) == c
    requires n !in repr && n.addr !in repr
    ensures ListOf(head, Spliced(nodes, d, n), Spliced(l, d, c), repr + {n, n.addr})
  {
    var after, l' := Spliced(nodes, d, n), Spliced(l, d, c);
    SplicedAt(nodes, d, n);
    SplicedAt(l, d, c);
    forall i | 0 <= i < |after| ensures after[i].next == At(after, i + 1) && Value(after[i]) == l'[i] {
      if i <= d {
        assert after[i] == nodes[i];
      } else if i > d + 1 {
        assert after[i] == nodes[i - 1];
      }
    }
    ApartWith(nodes, d + 1, n);
  }

  /** Cloning inside a list keeps it a list, of the old nodes and the clone. */
  method CloneInList(ghost head: Node?, ghost nodes: seq<Node>, ghost l: seq<Info>, ghost repr: set<object>,
                     ghost d: nat, ai: Node) returns (n: Node)
    requires ListOf(head, nodes, l, repr) && d < |nodes| && nodes[d] == ai
    modifies ai`next
    ensures fresh(n) && fresh(n.addr)
    ensures ListOf(head, Spliced(nodes, d, n), Spliced(l, d, l[d].(clone := false)), repr + {n, n.addr})
  {
    assert Value(nodes[d]) == l[d] && nodes[d].next == At(nodes, d + 1);
    OthersApart(nodes, d);
    n := GaClone(ai);
    SplicedList(head, nodes, l, repr, d, n, l[d].(clone := false));
  }

  /** Filling in one entry of a list changes that entry only. */
  method SetInList(ghost head: Node?, ghost nodes: seq<Node>, ghost l: seq<Info>, ghost repr: set<object>,
                   ghost d: nat, ai: Node, p: Pass) returns (found: nat)
    requires ListOf(head, nodes, l, repr) && d < |nodes| && nodes[d] == ai
    modifies ai`socktype, ai.addr`port
    ensures ListOf(head, nodes, l[d := WithPort(l[d].(socktype := p.socktype), p.port)], repr)
    ensures found == if HasPort(l[d].family) then 1 else 0
  {
    assert Value(nodes[d]) == l[d];
    OthersApart(nodes, d);
    found := SetEntry(ai, p);
  }

  /** `l` with the entry at `d` replaced by the one or two entries a pass makes of it. */
  function Stepped(l: seq<Info>, d: nat, q: seq<Info>): seq<Info>
    requires d < |l| && 1 <= |q| <= 2
  {
    if |q| == 1 then l[d := q[0]] else Spliced(l, d, q[1])
  }

  lemma SetClone(l: seq<Info>, d: nat, x: Info, y: Info)
    requires d < |l|
    ensures Spliced(l, d, x)[d + 1] == x && Spliced(l, d, x)[d + 1 := y] == Spliced(l, d, y)
  {
  }

  /** A clone behind `ai`, filled in for the pass. */
  method CloneAndSet(ghost head: Node?, ghost nodes: seq<Node>, ghost l: seq<Info>, ghost repr: set<object>,
                     ghost d: nat, ai: Node, p: Pass) returns (n: Node, found: nat)
    requires ListOf(head, nodes, l, repr) && d < |nodes| && nodes[d] == ai
    modifies ai`next
    ensures fresh(n) && fresh(n.addr) && n.next == At(Spliced(nodes, d, n), d + 2)
    ensures var c := WithPort(l[d].(clone := false, socktype := p.socktype), p.port);
            ListOf(head, Spliced(nodes, d, n), Spliced(l, d, c), repr + {n, n.addr})
    ensures found == if HasPort(l[d].family) then 1 else 0
  {
    ghost var c := l[d].(clone := false);
    n := CloneInList(head, nodes, l, repr, d, ai);
    SplicedAt(nodes, d, n);
    SetClone(l, d, c, WithPort(c.(socktype := p.socktype), p.port));
    found := SetInList(head, Spliced(nodes, d, n), Spliced(l, d, c), repr + {n, n.addr}, d + 1, n, p);
    assert Spliced(nodes, d, n)[d + 1].next == At(Spliced(nodes, d, n), d + 2);
  }

  /** The three things a pass can make of an entry. */
  lemma StepKinds(l: seq<Info>, d: nat, p: Pass)
    requires d < |l|
    ensures var x, q := l[d], PortOne(l[d], p);
            if x.clone && x.socktype != 0
            then |q| == 2 && Stepped(l, d, q)
                             == Spliced(l, d, WithPort(x.(clone := false, socktype := p.socktype), p.port))
            else if x.clone || x.socktype == p.socktype
            then |q| == 1 && Stepped(l, d, q) == l[d := WithPort(x.(socktype := p.socktype), p.port)]
            else |q| == 1 && Stepped(l, d, q) == l
  {
    assert l[d := l[d]] == l;
  }

  /** The body of the walk at the entry `nodes[d]`; `last` is where the walk stands after it. */
  method Visit(ghost head: Node?, ghost nodes: seq<Node>, ghost l: seq<Info>, ghost repr: set<object>,
               ghost d: nat, ai: Node, p: Pass)
    returns (last: Node, found: nat, ghost nodes': seq<Node>, ghost repr': set<object>)
    requires ListOf(head, nodes, l, repr) && d < |nodes| && nodes[d] == ai
    modifies ai`next, ai`socktype, ai.addr`port
    ensures repr <= repr' && fresh(repr' - repr)
    ensures ListOf(head, nodes', Stepped(l, d, PortOne(l[d], p)), repr')
    ensures found == FoundOne(l[d], p)
    ensures var e := d + |PortOne(l[d], p)|;
            e <= |nodes'| && last.next == At(nodes', e)
  {
    last, nodes', repr', found := ai, nodes, repr, 0;
    assert Value(nodes[d]) == l[d] && nodes[d].next == At(nodes, d + 1);
    StepKinds(l, d, p);
    if ai.clone {
      if ai.socktype != 0 {
        last, found := CloneAndSet(head, nodes, l, repr, d, ai, p);
        nodes', repr' := Spliced(nodes, d, last), repr + {last, last.addr};
        SplicedAt(nodes, d, last);
        return;
      }
    } else if ai.socktype != p.socktype {
      return;
    }
    found := SetInList(head, nodes, l, repr, d, ai, p);
  }

  /** The values shown when the walk stands at entry `i`, and where it stands among them. */
  function ShownAt(l: seq<Info>, i: nat, p: Pass): seq<Info>
    requires i <= |l|
  {
    PortAll(l[..i], p) + l[i..]
  }

  function Place(l: seq<Info>, i: nat, p: Pass): nat
    requires i <= |l|
  {
    |PortAll(l[..i], p)|
  }

  /** One entry of the walk, seen on values. */
  lemma WalkStep(l: seq<Info>, i: nat, p: Pass)
    requires i < |l|
    ensures var d := Place(l, i, p);
            && d < |ShownAt(l, i, p)| && ShownAt(l, i, p)[d] == l[i]
            && Place(l, i + 1, p) == d + |PortOne(l[i], p)|
            && ShownAt(l, i + 1, p) == Stepped(ShownAt(l, i, p), d, PortOne(l[i], p))
    ensures FoundAll(l[..i + 1], p) == FoundAll(l[..i], p) + FoundOne(l[i], p)
  {
    assert l[..i + 1] == l[..i] + [l[i]];
    PortSnoc(l[..i], l[i], p);
    assert l[i..] == [l[i]] + l[i + 1..];
    SteppedParts(PortAll(l[..i], p), l[i], l[i + 1..], PortOne(l[i], p));
  }

  /** The entry behind `done` replaced by what the pass makes of it. */
  lemma SteppedParts(done: seq<Info>, x: Info, rest: seq<Info>, q: seq<Info>)
    requires |q| == 1 || (|q| == 2 && q[0] == x)
    ensures (done + ([x] + rest))[|done|] == x
    ensures Stepped(done + ([x] + rest), |done|, q) == done + q + rest
  {
  }

  lemma WalkStart(l: seq<Info>, p: Pass)
    ensures Place(l, 0, p) == 0 && ShownAt(l, 0, p) == l && FoundAll(l[..0], p) == 0
  {
  }

  /** The walk reaches the end of the list exactly when every original entry is behind it. */
  lemma WalkEnds(l: seq<Info>, i: nat, p: Pass)
    requires i <= |l|
    ensures Place(l, i, p) <= |ShownAt(l, i, p)|
    ensures Place(l, i, p) == |ShownAt(l, i, p)| <==> i == |l|
    ensures i == |l| ==> ShownAt(l, i, p) == PortAll(l, p) && FoundAll(l[..i], p) == FoundAll(l, p)
  {
    if i == |l| {
      assert l[..i] == l;
    }
  }

  /** The walk stands at the entry `i` of the original list; those before it have been served. */
  ghost predicate Walking(head: Node?, nodes: seq<Node>, l: seq<Info>, i: nat, ai: Node?, p: Pass, repr: set<object>)
    reads repr
  {
    i <= |l| && ListOf(head, nodes, ShownAt(l, i, p), repr) && ai == At(nodes, Place(l, i, p))
  }

  lemma WalkingEnds(head: Node?, nodes: seq<Node>, l: seq<Info>, i: nat, ai: Node?, p: Pass, repr: set<object>)
    requires Walking(head, nodes, l, i, ai, p, repr)
    ensures ai == null <==> i == |l|
    ensures ai == null ==> ListOf(head, nodes, PortAll(l, p), repr) && FoundAll(l[..i], p) == FoundAll(l, p)
  {
    WalkEnds(l, i, p);
  }

  /** One turn of the loop, from the entry `i` of the original list to the next. */
  method WalkOne(ghost head: Node?, ghost nodes: seq<Node>, ghost l: seq<Info>, ghost repr: set<object>,
                 ghost i: nat, ai: Node, p: Pass)
    returns (next: Node?, found: nat, ghost nodes': seq<Node>, ghost repr': set<object>)
    requires i < |l| && Walking(head, nodes, l, i, ai, p, repr)
    modifies repr
    ensures repr <= repr' && fresh(repr' - repr)
    ensures Walking(head, nodes', l, i + 1, next, p, repr')
    ensures FoundAll(l[..i + 1], p) == FoundAll(l[..i], p) + found
  {
    ghost var shown, d := ShownAt(l, i, p), Place(l, i, p);
    WalkStep(l, i, p);
    var last;
    last, found, nodes', repr' := Visit(head, nodes, shown, repr, d, ai, p);
    next := last.next;
  }

  method WalkOn(ghost head: Node?, ghost nodes: seq<Node>, ghost l: seq<Info>, ghost repr: set<object>,
                ghost i: nat, ai: Node, p: Pass, nfound: nat)
    returns (next: Node?, total: nat, ghost nodes': seq<Node>, ghost repr': set<object>)
    requires Walking(head, nodes, l, i, ai, p, repr) && nfound == FoundAll(l[..i], p)
    modifies repr
    ensures fresh(repr' - repr) && i < |l|
    ensures Walking(head, nodes', l, i + 1, next, p, repr') && total == FoundAll(l[..i + 1], p)
  {
    WalkingEnds(head, nodes, l, i, ai, p, repr);
    var found;
    next, found, nodes', repr' := WalkOne(head, nodes, l, repr, i, ai, p);
    total := nfound + found;
  }

  /**
   * `ga_port`: the walk over the list that fills in `socktype` and `port`, cloning into the
   * list as it goes. The new list shows one pass over the old one.
   */
  method GaPort(aihead: Node?, p: Pass, ghost nodes0: seq<Node>, ghost l: seq<Info>, ghost repr0: set<object>)
    returns (nfound: nat, ghost nodes: seq<Node>, ghost repr: set<object>)
    requires ListOf(aihead, nodes0, l, repr0)
    modifies repr0
    ensures ListOf(aihead, nodes, PortAll(l, p), repr) && fresh(repr - repr0)
    ensures nfound == FoundAll(l, p)
  {
    nfound, nodes, repr := 0, nodes0, repr0;
    ghost var i := 0;
    var ai := aihead;
    WalkStart(l, p);
    while ai != null
      invariant Walking(aihead, nodes, l, i, ai, p, repr)
      invariant fresh(repr - repr0)
      invariant nfound == FoundAll(l[..i], p)
      decreases |l| - i
    {
      ai, nfound, nodes, repr := WalkOn(aihead, nodes, l, repr, i, ai, p, nfound);
      i := i + 1;
    }
    WalkingEnds(aihead, nodes, l, i, ai, p, repr);
  }

  lemma PassesSnoc(l: seq<Info>, ps: seq<Pass>, p: Pass)
    ensures Passes(l, ps + [p]) == PortAll(Passes(l, ps), p)
    ensures FoundBy(l, ps + [p]) == FoundBy(l, ps) + FoundAll(Passes(l, ps), p)
  {
    Halves(ps, [p]);
  }

  /** `ga_port` after the passes `ps`, with the running total of the entries found. */
  method NextPass(aihead: Node?, p: Pass, nfound: nat,
                  ghost nodes: seq<Node>, ghost l: seq<Info>, ghost ps: seq<Pass>, ghost repr: set<object>)
    returns (total: nat, ghost nodes': seq<Node>, ghost repr': set<object>)
    requires ListOf(aihead, nodes, Passes(l, ps), repr) && nfound == FoundBy(l, ps)
    modifies repr
    ensures ListOf(aihead, nodes', Passes(l, ps + [p]), repr') && fresh(repr' - repr)
    ensures total == FoundBy(l, ps + [p])
  {
    PassesSnoc(l, ps, p);
    var rc;
    rc, nodes', repr' := GaPort(aihead, p, nodes, Passes(l, ps), repr);
    total := nfound + rc;
  }

  /** The branch of `ga_serv` for a port number. */
  method ServNumber(aihead: Node?, socktype: nat, port: nat,
                    ghost nodes0: seq<Node>, ghost l: seq<Info>, ghost repr0: set<object>)
    returns (nfound: nat, ghost nodes: seq<Node>, ghost repr: set<object>)
    requires ListOf(aihead, nodes0, l, repr0)
    modifies repr0
    ensures ListOf(aihead, nodes, Passes(l, PassesFor(socktype, Number(port))), repr) && fresh(repr - repr0)
    ensures nfound == FoundBy(l, PassesFor(socktype, Number(port)))
  {
    if socktype != 0 {
      nfound, nodes, repr := NextPass(aihead, Pass(port, socktype), 0, nodes0, l, [], repr0);
      assert [] + [Pass(port, socktype)] == [Pass(port, socktype)];
    } else {
      var stream, dgram := Pass(port, SOCK_STREAM), Pass(port, SOCK_DGRAM);
      nfound, nodes, repr := NextPass(aihead, stream, 0, nodes0, l, [], repr0);
      nfound, nodes, repr := NextPass(aihead, dgram, nfound, nodes, l, [] + [stream], repr);
      assert ([] + [stream]) + [dgram] == [stream, dgram];
    }
  }

  /** Its branch for a service name. */
  method ServName(aihead: Node?, socktype: nat, tcp: Option<nat>, udp: Option<nat>,
                  ghost nodes0: seq<Node>, ghost l: seq<Info>, ghost repr0: set<object>)
    returns (nfound: nat, ghost nodes: seq<Node>, ghost repr: set<object>)
    requires ListOf(aihead, nodes0, l, repr0)
    modifies repr0
    ensures ListOf(aihead, nodes, Passes(l, PassesFor(socktype, Name(tcp, udp))), repr) && fresh(repr - repr0)
    ensures nfound == FoundBy(l, PassesFor(socktype, Name(tcp, udp)))
  {
    ghost var ps;
    nfound, nodes, repr, ps :=
      TryPass(aihead, socktype == 0 || socktype == SOCK_STREAM, tcp, SOCK_STREAM, 0, nodes0, l, [], repr0);
    nfound, nodes, repr, ps :=
      TryPass(aihead, socktype == 0 || socktype == SOCK_DGRAM, udp, SOCK_DGRAM, nfound, nodes, l, ps, repr);
  }

  /** A pass for a service name, if the protocol is wanted and knows the name. */
  method TryPass(aihead: Node?, wanted: bool, port: Option<nat>, socktype: nat, nfound: nat,
                 ghost nodes: seq<Node>, ghost l: seq<Info>, ghost ps: seq<Pass>, ghost repr: set<object>)
    returns (total: nat, ghost nodes': seq<Node>, ghost repr': set<object>, ghost ps': seq<Pass>)
    requires ListOf(aihead, nodes, Passes(l, ps), repr) && nfound == FoundBy(l, ps)
    modifies repr
    ensures ps' == ps + (if wanted && port.Some? then [Pass(port.value, socktype)] else [])
    ensures ListOf(aihead, nodes', Passes(l, ps'), repr') && fresh(repr' - repr)
    ensures total == FoundBy(l, ps')
  {
    total, nodes', repr', ps' := nfound, nodes, repr, ps;
    Nil(ps);
    if wanted {
      if port.Some? {
        total, nodes', repr' := NextPass(aihead, Pass(port.value, socktype), nfound, nodes, l, ps, repr);
        ps' := ps + [Pass(port.value, socktype)];
      }
    }
  }

  /**
   * `ga_serv`: the passes for the service, in order, and the error when no entry got a port.
   */
  method GaServ(aihead: Node?, socktype: nat, serv: Service,
                ghost nodes0: seq<Node>, ghost l: seq<Info>, ghost repr0: set<object>)
    returns (rc: Result, ghost nodes: seq<Node>, ghost repr: set<object>)
    requires ListOf(aihead, nodes0, l, repr0)
    modifies repr0
    ensures ListOf(aihead, nodes, Passes(l, PassesFor(socktype, serv)), repr) && fresh(repr - repr0)
    ensures rc == ServResult(l, socktype, serv)
  {
    var nfound;
    match serv {
      case Number(port) =>
        nfound, nodes, repr := ServNumber(aihead, socktype, port, nodes0, l, repr0);
      case Name(tcp, udp) =>
        nfound, nodes, repr := ServName(aihead, socktype, tcp, udp, nodes0, l, repr0);
    }
    if nfound == 0 {
      if socktype == 0 {
        rc := EaiNoname;
      } else {
        rc := EaiService;
      }
    } else {
      rc := Ok;
    }
  }

  method NewNode(family: Family, addr: seq<byte>, socktype: nat, protocol: nat) returns (ai: Node)
    ensures fresh(ai) && fresh(ai.addr) && ai.next == null
    ensures Value(ai) == Made(family, addr, socktype, protocol)
  {
    var sa := new SockAddr(family, addr, 0);
    ai := new Node(socktype == 0, family, socktype, protocol, sa, null);
  }

  /** A new node linked in behind the last one extends the list. */
  method Link(ghost head: Node?, ghost nodes: seq<Node>, ghost l: seq<Info>, ghost repr: set<object>, last: Node, ai: Node)
    requires ListOf(head, nodes, l, repr) && nodes != [] && last == nodes[|nodes| - 1]
    requires ai !in repr && ai.addr !in repr && ai.next == null
    modifies last`next
    ensures ListOf(head, nodes + [ai], l + [Value(ai)], repr + {ai, ai.addr})
  {
    assert last.next == null && Value(last) == l[|l| - 1];
    OthersApart(nodes, |nodes| - 1);
    last.next := ai;
    ghost var after, l' := nodes + [ai], l + [Value(ai)];
    forall i | 0 <= i < |after|
      ensures after[i] in repr + {ai, ai.addr} && after[i].addr in repr + {ai, ai.addr}
      ensures after[i].next == At(after, i + 1) && Value(after[i]) == l'[i]
    {
      if i < |nodes| {
        assert after[i] == nodes[i];
      }
    }
    ApartWith(nodes, |nodes|, ai);
    assert nodes[..|nodes|] + [ai] + nodes[|nodes|..] == after;
  }

  /** A new node after nothing is a list. */
  lemma Alone(nodes: seq<Node>, l: seq<Info>, repr: set<object>, ai: Node)
    requires nodes == [] && l == [] && ai.next == null
    ensures ListOf(ai, nodes + [ai], l + [Value(ai)], repr + {ai, ai.addr})
  {
  }

  /** A new node behind the last one, or as the first; the head may change. */
  method LinkLast(head: Node?, last: Node?, ghost nodes: seq<Node>, ghost l: seq<Info>, ghost repr: set<object>, ai: Node)
    returns (head': Node)
    requires ListOf(head, nodes, l, repr) && last == At(nodes, |nodes| - 1)
    requires ai !in repr && ai.addr !in repr && ai.next == null
    modifies repr
    ensures ListOf(head', nodes + [ai], l + [Value(ai)], repr + {ai, ai.addr})
    ensures Value(ai) == old(Value(ai))
  {
    if last == null {
      Alone(nodes, l, repr, ai);
      head' := ai;
    } else {
      Link(head, nodes, l, repr, last, ai);
      head' := head;
    }
  }

  /** The list under construction: its head, and the last node in place of `&ai->ai_next`. */
  class Results {
    var aihead: Node?
    var last: Node?
    ghost var nodes: seq<Node>
    ghost var shown: seq<Info>
    ghost var repr: set<object>

    ghost predicate Valid()
      reads this, repr
    {
      && this !in repr
      && ListOf(aihead, nodes, shown, repr)
      && last == At(nodes, |nodes| - 1)
    }

    constructor ()
      ensures Valid() && shown == [] && fresh(repr)
    {
      aihead, last, nodes, shown, repr := null, null, [], [], {};
    }

    /** `ga_aistruct`: a new node behind the last, marked for cloning when no type was asked for. */
    method Append(family: Family, addr: seq<byte>, socktype: nat, protocol: nat)
      requires Valid() && HasPort(family)
      modifies this, repr
      ensures Valid() && fresh(repr - old(repr))
      ensures shown == old(shown) + [Made(family, addr, socktype, protocol)]
    {
      var ai := NewNode(family, addr, socktype, protocol);
      var head := LinkLast(aihead, last, nodes, shown, repr, ai);
      Set(head, ai, nodes + [ai], shown + [Value(ai)], repr + {ai, ai.addr});
    }

    method Set(head: Node, ai: Node, ghost ns: seq<Node>, ghost l: seq<Info>, ghost r: set<object>)
      requires this !in r && ListOf(head, ns, l, r) && ns != [] && ns[|ns| - 1] == ai
      modifies this
      ensures Valid() && shown == l && repr == r
    {
      aihead, last := head, ai;
      nodes, shown, repr := ns, l, r;
    }
  }

  // ---------- the two phases together ----------

  /** The host loop: one entry for each address found. */
  method AppendAll(hosts: seq<Found>, socktype: nat, protocol: nat) returns (r: Results)
    requires forall i :: 0 <= i < |hosts| ==> hosts[i].family in {Inet, Inet6}
    ensures fresh(r) && fresh(r.repr) && r.Valid() && r.shown == AllMade(hosts, socktype, protocol)
  {
    r := new Results();
    for i := 0 to |hosts|
      invariant fresh(r) && fresh(r.repr) && r.Valid()
      invariant r.shown == AllMade(hosts[..i], socktype, protocol)
    {
      r.Append(hosts[i].family, hosts[i].addr, socktype, protocol);
      assert AllMade(hosts[..i + 1], socktype, protocol)
        == AllMade(hosts[..i], socktype, protocol) + [Made(hosts[i].family, hosts[i].addr, socktype, protocol)];
    }
    assert hosts[..|hosts|] == hosts;
  }

  /**
   * Host loop and service lookup together: the list on the heap has the entries of the table, and
   * no two nodes share an address.
   */
  method Resolve(hosts: seq<Found>, socktype: nat, protocol: nat, serv: Service)
    returns (rc: Result, aihead: Node?, ghost nodes: seq<Node>, ghost l: seq<Info>, ghost repr: set<object>)
    requires forall i :: 0 <= i < |hosts| ==> hosts[i].family in {Inet, Inet6}
    ensures fresh(repr) && ListOf(aihead, nodes, l, repr) && InTable(l, rc, hosts, socktype, protocol, serv)
  {
    var r := AppendAll(hosts, socktype, protocol);
    aihead := r.aihead;
    rc, nodes, repr := GaServ(aihead, socktype, serv, r.nodes, r.shown, r.repr);
    l := Passes(AllMade(hosts, socktype, protocol), PassesFor(socktype, serv));
    TableServed(hosts, socktype, protocol, serv);
  }
}
