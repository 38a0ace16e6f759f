/**
 * The nonblocking client: two buffers, standard input to socket and socket to standard output,
 * a half-close when standard input ends, one turn for each return of `select`.
 */
module StrCli {
  import opened Prelude

  const MAXLINE: nat := 4096

  // ---------- what the kernel does ----------

  /** What a nonblocking `read` finds, in order; after that nothing has arrived yet. */
  datatype Arrival = Chunk(first: byte, more: seq<byte>) | EndOfFile | NotYet | ReadFails

  /** What a nonblocking `write` does, in order; after that there is no room. */
  datatype Room = Takes(n: nat) | Full | WriteFails

  datatype Answer = Bytes(data: seq<byte>) | End | Nothing | Failure

  /** One `read` of at most `max` bytes: the rest of a chunk stays. */
  function Answered(script: seq<Arrival>, max: nat): Answer
  {
    if script == [] then Nothing
    else match script[0]
         case Chunk(first, more) =>
           var data := [first] + more;
           Bytes(if |data| <= max then data else data[..max])
         case EndOfFile => End
         case NotYet => Nothing
         case ReadFails => Failure
  }

  function Remaining(script: seq<Arrival>, max: nat): seq<Arrival>
  {
    if script == [] then []
    else match script[0]
         case Chunk(first, more) =>
           var data := [first] + more;
           if |data| <= max then script[1..] else [Chunk(data[max], data[max + 1..])] + script[1..]
         case EndOfFile => script[1..]
         case NotYet => script[1..]
         case ReadFails => script[1..]
  }

  /** How many of `n` bytes one `write` takes. */
  function Accepted(room: seq<Room>, n: nat): (k: nat)
    ensures k <= n
  {
    if room != [] && room[0].Takes? then (if room[0].n <= n then room[0].n else n) else 0
  }

  function WriteResult(room: seq<Room>, n: nat): int
  {
    if room != [] && room[0].Takes? then Accepted(room, n) else -1
  }

  function RoomLeft(room: seq<Room>): seq<Room>
  {
    if room == [] then [] else room[1..]
  }

  predicate WriteBreaks(room: seq<Room>) { room != [] && room[0].WriteFails? }

  class Source {
    var script: seq<Arrival>

    constructor (script: seq<Arrival>)
      ensures this.script == script
    {
      this.script := script;
    }

    /** `read(fd, buf + off, max)`: the count, or -1 with `errno` EWOULDBLOCK or not. */
    method Read(buf: array<byte>, off: nat, max: nat) returns (n: int, wouldBlock: bool)
      requires 0 < max && off + max <= buf.Length
      modifies this, buf
      ensures script == Remaining(old(script), max)
      ensures match Answered(old(script), max)
              case Bytes(data) =>
                n == |data| && 0 < n <= max && buf[..] == old(buf[..off]) + data + old(buf[off + |data|..])
              case End => n == 0 && buf[..] == old(buf[..])
              case Nothing => n == -1 && wouldBlock && buf[..] == old(buf[..])
              case Failure => n == -1 && !wouldBlock && buf[..] == old(buf[..])
    {
      var a := Answered(script, max);
      script := Remaining(script, max);
      match a {
        case Bytes(data) =>
          MemCpy(buf, off, data);
          return |data|, false;
        case End => return 0, false;
        case Nothing => return -1, true;
        case Failure => return -1, false;
      }
    }
  }

  class Sink {
    var room: seq<Room>
    ghost var sent: seq<byte>
    ghost var closed: bool

    constructor (room: seq<Room>)
      ensures this.room == room && sent == [] && !closed
    {
      this.room, sent, closed := room, [], false;
    }

    /** `write(fd, buf + off, n)`; the sending side must still be open. */
    method Write(buf: array<byte>, off: nat, n: nat) returns (k: int, wouldBlock: bool)
      requires off + n <= buf.Length && !closed
      modifies this
      ensures !closed && room == RoomLeft(old(room))
      ensures k == WriteResult(old(room), n) && (k < 0 ==> (wouldBlock <==> !WriteBreaks(old(room))))
      ensures sent == old(sent) + buf[off..off + Accepted(old(room), n)]
    {
      k := WriteResult(room, n);
      wouldBlock := !WriteBreaks(room);
      sent := sent + buf[off..off + Accepted(room, n)];
      room := RoomLeft(room);
    }

    /** `shutdown(fd, SHUT_WR)`, which must not be done twice. */
    method Shutdown()
      requires !closed
      modifies this
      ensures closed && sent == old(sent) && room == old(room)
    {
      closed := true;
    }
  }

  // ---------- the copier, on values ----------

  /** One direction: what is to be read, what is buffered from `start` on, what was written. */
  datatype Way = Way(script: seq<Arrival>, start: nat, buffered: seq<byte>, room: seq<Room>, sent: seq<byte>)

  datatype State = State(up: Way, down: Way, stdineof: bool, closed: bool)

  /** What `select` finds ready, of what it was asked about. */
  datatype Ready = Ready(stdin: bool, sockRead: bool, sockWrite: bool, stdout: bool)

  datatype Outcome = Running | Returned | Terminated | Failed

  datatype Next = Next(state: State, outcome: Outcome, tried: bool)

  function Free(w: Way): nat
  {
    var used := w.start + |w.buffered|;
    if used < MAXLINE then MAXLINE - used else 0
  }

  function Filled(w: Way): Way
  {
    var v := w.(script := Remaining(w.script, Free(w)));
    match Answered(w.script, Free(w))
    case Bytes(data) => v.(buffered := w.buffered + data)
    case _ => v
  }

  /** What is written leaves the front of the buffer; an empty buffer starts again at its beginning. */
  function Drained(w: Way): Way
  {
    var k := Accepted(w.room, |w.buffered|);
    Way(w.script, if WriteResult(w.room, |w.buffered|) >= 0 && k == |w.buffered| then 0 else w.start + k,
        w.buffered[k..], RoomLeft(w.room), w.sent + w.buffered[..k])
  }

  function FromStdin(s: State): Next
  {
    var a, up := Answered(s.up.script, Free(s.up)), Filled(s.up);
    match a
    case Bytes(_) => Next(s.(up := up), Running, true)
    case End => Next(s.(up := up, stdineof := true, closed := s.closed || s.up.buffered == []), Running, false)
    case Nothing => Next(s.(up := up), Running, false)
    case Failure => Next(s.(up := up), Failed, false)
  }

  function FromSocket(s: State): Next
  {
    var a, down := Answered(s.down.script, Free(s.down)), Filled(s.down);
    match a
    case Bytes(_) => Next(s.(down := down), Running, true)
    case End => Next(s.(down := down), if s.stdineof then Returned else Terminated, false)
    case Nothing => Next(s.(down := down), Running, false)
    case Failure => Next(s.(down := down), Failed, false)
  }

  function ToStdout(s: State): Next
  {
    Next(s.(down := Drained(s.down)), if WriteBreaks(s.down.room) then Failed else Running, false)
  }

  function ToSocket(s: State): Next
  {
    var up := Drained(s.up);
    Next(s.(up := up, closed := s.closed || (s.stdineof && up.buffered == [])),
         if WriteBreaks(s.up.room) then Failed else Running, false)
  }

  function When(due: bool, s: State, next: Next): Next
  {
    if due then next else Next(s, Running, false)
  }

  /** The two reads, and what they make worth writing. */
  datatype Reads = Reads(state: State, outcome: Outcome, trySock: bool, tryStdout: bool)

  function ReadBoth(s: State, ready: Ready): Reads
  {
    var a := When(ready.stdin && !s.stdineof && Free(s.up) > 0, s, FromStdin(s));
    if a.outcome != Running then Reads(a.state, a.outcome, false, false)
    else
      var b := When(ready.sockRead && Free(s.down) > 0, a.state, FromSocket(a.state));
      Reads(b.state, b.outcome, a.tried, b.tried)
  }

  function WriteBoth(s: State, writeSock: bool, writeStdout: bool): Next
  {
    var c := When(writeStdout && s.down.buffered != [], s, ToStdout(s));
    if c.outcome != Running then c
    else When(writeSock && s.up.buffered != [], c.state, ToSocket(c.state))
  }

  /** From one `select` to the next. */
  function Turn(s: State, ready: Ready): Next
  {
    var r := ReadBoth(s, ready);
    if r.outcome != Running then Next(r.state, r.outcome, false)
    else WriteBoth(r.state, (ready.sockWrite && s.up.buffered != []) || r.trySock,
                   (ready.stdout && s.down.buffered != []) || r.tryStdout)
  }

  /** All turns, up to the one that does not keep the loop running. */
  function Run(s: State, readies: seq<Ready>): Next
    decreases |readies|
  {
    if readies == [] then Next(s, Running, false)
    else
      var n := Turn(s, readies[0]);
      if n.outcome != Running then n else Run(n.state, readies[1..])
  }

  /** A turn from its two halves. */
  lemma TurnBy(s: State, ready: Ready, r: Reads, writeSock: bool, writeStdout: bool, n: Next)
    requires r == ReadBoth(s, ready)
    requires writeSock == (ready.sockWrite && s.up.buffered != [])
    requires writeStdout == (ready.stdout && s.down.buffered != [])
    requires n == if r.outcome != Running then Next(r.state, r.outcome, false)
                  else WriteBoth(r.state, writeSock || r.trySock, writeStdout || r.tryStdout)
    ensures n == Turn(s, ready)
  {
  }

  // ---------- what a run keeps ----------

  /** What a descriptor will deliver before its end of file. */
  function Content(script: seq<Arrival>): seq<byte>
  {
    if script == [] then []
    else match script[0]
         case Chunk(first, more) => ([first] + more) + Content(script[1..])
         case EndOfFile => []
         case NotYet => Content(script[1..])
         case ReadFails => Content(script[1..])
  }

  /** Bytes sent, buffered and yet to come are the content of the descriptor, in order. */
  ghost predicate Carried(w: Way, ended: bool, content: seq<byte>)
  {
    && w.start + |w.buffered| <= MAXLINE
    && w.sent + w.buffered + (if ended then [] else Content(w.script)) == content
  }

  /** The same after a turn, when the descriptor may have come to its end in it. */
  ghost predicate Inv(s: State, outcome: Outcome, stdin: seq<byte>, sock: seq<byte>)
  {
    && Carried(s.up, s.stdineof, stdin)
    && Carried(s.down, outcome in {Returned, Terminated}, sock)
    && (s.closed <==> s.stdineof && s.up.buffered == [])
    && (outcome == Returned ==> s.stdineof) && (outcome == Terminated ==> !s.stdineof)
  }

  lemma ReadTakes(script: seq<Arrival>, max: nat)
    requires max > 0
    ensures var a := Answered(script, max);
            Content(script) == match a
              case Bytes(data) => data + Content(Remaining(script, max))
              case End => []
              case Nothing => Content(Remaining(script, max))
              case Failure => Content(Remaining(script, max))
    ensures Answered(script, max).Bytes? ==> 0 < |Answered(script, max).data| <= max
  {
    if script != [] && script[0].Chunk? {
      var data := [script[0].first] + script[0].more;
      if |data| > max {
        CutContent(data, max, script[1..]);
      }
    }
  }

  lemma CutContent(data: seq<byte>, max: nat, rest: seq<Arrival>)
    requires 0 < max < |data|
    ensures data + Content(rest) == data[..max] + Content([Chunk(data[max], data[max + 1..])] + rest)
  {
    assert data[max..] == [data[max]] + data[max + 1..];
    assert data == data[..max] + data[max..];
    Halves([Chunk(data[max], data[max + 1..])], rest);
    Assoc(data[..max], data[max..], Content(rest));
  }

  lemma FilledCarries(w: Way, content: seq<byte>)
    requires Carried(w, false, content) && Free(w) > 0
    ensures Carried(Filled(w), Answered(w.script, Free(w)).End?, content)
    ensures Answered(w.script, Free(w)).Bytes? || Filled(w).buffered == w.buffered
    ensures Filled(w).buffered == [] ==> w.buffered == []
  {
    ReadTakes(w.script, Free(w));
    var a := Answered(w.script, Free(w));
    if a.Bytes? {
      Assoc(w.sent + w.buffered, a.data, Content(Remaining(w.script, Free(w))));
      Assoc(w.sent, w.buffered, a.data);
    }
  }

  lemma DrainedCarries(w: Way, ended: bool, content: seq<byte>)
    requires Carried(w, ended, content)
    ensures Carried(Drained(w), ended, content)
  {
    var k := Accepted(w.room, |w.buffered|);
    assert w.buffered == w.buffered[..k] + w.buffered[k..];
    Assoc(w.sent, w.buffered[..k], w.buffered[k..]);
  }

  lemma ReadsKeep(s: State, ready: Ready, stdin: seq<byte>, sock: seq<byte>)
    requires Inv(s, Running, stdin, sock)
    ensures var r := ReadBoth(s, ready); Inv(r.state, r.outcome, stdin, sock)
  {
    if Free(s.up) > 0 && !s.stdineof {
      FilledCarries(s.up, stdin);
    }
    if Free(s.down) > 0 {
      FilledCarries(s.down, sock);
    }
  }

  lemma WritesKeep(s: State, writeSock: bool, writeStdout: bool, stdin: seq<byte>, sock: seq<byte>)
    requires Inv(s, Running, stdin, sock)
    ensures var n := WriteBoth(s, writeSock, writeStdout); Inv(n.state, n.outcome, stdin, sock)
  {
    DrainedCarries(s.down, false, sock);
    DrainedCarries(s.up, s.stdineof, stdin);
  }

  lemma TurnKeeps(s: State, ready: Ready, stdin: seq<byte>, sock: seq<byte>)
    requires Inv(s, Running, stdin, sock)
    ensures Inv(Turn(s, ready).state, Turn(s, ready).outcome, stdin, sock)
  {
    ReadsKeep(s, ready, stdin, sock);
    var r := ReadBoth(s, ready);
    if r.outcome == Running {
      WritesKeep(r.state, (ready.sockWrite && s.up.buffered != []) || r.trySock,
                 (ready.stdout && s.down.buffered != []) || r.tryStdout, stdin, sock);
    }
  }

  lemma {:induction false} RunKeeps(s: State, readies: seq<Ready>, stdin: seq<byte>, sock: seq<byte>)
    requires Inv(s, Running, stdin, sock)
    ensures Inv(Run(s, readies).state, Run(s, readies).outcome, stdin, sock)
    decreases |readies|
  {
    if readies != [] {
      TurnKeeps(s, readies[0], stdin, sock);
      if Turn(s, readies[0]).outcome == Running {
        RunKeeps(Turn(s, readies[0]).state, readies[1..], stdin, sock);
      }
    }
  }

  function Begun(stdin: seq<Arrival>, sock: seq<Arrival>, toSock: seq<Room>, toStdout: seq<Room>): State
  {
    State(Way(stdin, 0, [], toSock, []), Way(sock, 0, [], toStdout, []), false, false)
  }

  lemma BegunInv(stdin: seq<Arrival>, sock: seq<Arrival>, toSock: seq<Room>, toStdout: seq<Room>)
    ensures Inv(Begun(stdin, sock, toSock, toStdout), Running, Content(stdin), Content(sock))
  {
    Nil(Content(stdin));
    Nil(Content(sock));
  }

  /**
   * Whatever is ready when, the socket gets a prefix of standard input and standard output one
   * of what the socket delivers; the half-close comes only after all of standard input. A
   * normal return has read the whole socket: what standard output lacks is what `fr` still holds.
   */
  lemma CopiesFaithfully(stdin: seq<Arrival>, sock: seq<Arrival>, toSock: seq<Room>, toStdout: seq<Room>, readies: seq<Ready>)
    ensures var n := Run(Begun(stdin, sock, toSock, toStdout), readies);
            var s := n.state;
            && s.up.sent <= Content(stdin) && s.down.sent <= Content(sock)
            && (s.closed <==> s.stdineof && s.up.buffered == [])
            && (s.stdineof ==> Content(stdin) == s.up.sent + s.up.buffered)
            && (s.closed ==> s.up.sent == Content(stdin))
            && (n.outcome == Returned ==> s.stdineof && Content(sock) == s.down.sent + s.down.buffered)
  {
    var s0 := Begun(stdin, sock, toSock, toStdout);
    BegunInv(stdin, sock, toSock, toStdout);
    RunKeeps(s0, readies, Content(stdin), Content(sock));
    var s := Run(s0, readies).state;
    Nil(s.up.sent + s.up.buffered);
    Nil(s.down.sent + s.down.buffered);
    Nil(s.up.sent);
    Assoc(s.up.sent, s.up.buffered, if s.stdineof then [] else Content(s.up.script));
    Assoc(s.down.sent, s.down.buffered, Content(s.down.script));
  }

  /**
   * A turn that returns leaves standard output complete exactly when nothing was buffered for
   * it when the turn began: the last chance to write was in the turn before.
   */
  lemma ReturnCompleteIff(s: State, ready: Ready, stdin: seq<byte>, sock: seq<byte>)
    requires Inv(s, Running, stdin, sock) && Turn(s, ready).outcome == Returned
    ensures Turn(s, ready).state.down.sent == sock <==> s.down.buffered == []
  {
    ReadsKeep(s, ready, stdin, sock);
    var down := ReadBoth(s, ready).state.down;
    Nil(down.sent + down.buffered);
    Nil(down.sent);
  }

  /** The turn in which a run ends. */
  lemma {:induction false} LastTurn(s: State, readies: seq<Ready>) returns (k: nat)
    requires Run(s, readies).outcome != Running
    ensures k < |readies| && Run(s, readies[..k]).outcome == Running
    ensures Turn(Run(s, readies[..k]).state, readies[k]) == Run(s, readies)
    decreases |readies|
  {
    var n := Turn(s, readies[0]);
    if n.outcome != Running {
      k := 0;
    } else {
      k := LastTurn(n.state, readies[1..]);
      assert readies[..k + 1][0] == readies[0] && readies[..k + 1][1..] == readies[1..][..k];
      k := k + 1;
    }
  }

  /** A run that returns has written everything exactly when `fr` was empty at its last `select`. */
  lemma ReturnedRunCompleteIff(stdin: seq<Arrival>, sock: seq<Arrival>, toSock: seq<Room>, toStdout: seq<Room>, readies: seq<Ready>)
    returns (k: nat)
    requires Run(Begun(stdin, sock, toSock, toStdout), readies).outcome == Returned
    ensures var s0 := Begun(stdin, sock, toSock, toStdout);
            && k < |readies| && Run(s0, readies[..k]).outcome == Running
            && Turn(Run(s0, readies[..k]).state, readies[k]) == Run(s0, readies)
            && (Run(s0, readies).state.down.sent == Content(sock) <==> Run(s0, readies[..k]).state.down.buffered == [])
  {
    var s0 := Begun(stdin, sock, toSock, toStdout);
    k := LastTurn(s0, readies);
    BegunInv(stdin, sock, toSock, toStdout);
    RunKeeps(s0, readies[..k], Content(stdin), Content(sock));
    ReturnCompleteIff(Run(s0, readies[..k]).state, readies[k], Content(stdin), Content(sock));
  }

  /** For instance a byte that cannot be written before the socket ends is lost. */
  lemma ReturnLosesExample()
    ensures var n := Run(Begun([EndOfFile], [Chunk(7, []), EndOfFile], [], [Full]),
                         [Ready(true, true, false, false), Ready(false, true, false, false)]);
            n.outcome == Returned && n.state.down.sent == [] && n.state.down.buffered == [7]
  {
    var s0 := Begun([EndOfFile], [Chunk(7, []), EndOfFile], [], [Full]);
    var first, second := Ready(true, true, false, false), Ready(false, true, false, false);
    StuckByte(s0, first);
    assert [first, second][1..] == [second];
    LastByteLost(Turn(s0, first).state, second);
  }

  /** End of file and a byte arrive, the byte cannot be written. */
  lemma StuckByte(s: State, ready: Ready)
    requires s == Begun([EndOfFile], [Chunk(7, []), EndOfFile], [], [Full]) && ready == Ready(true, true, false, false)
    ensures Turn(s, ready) == Next(State(Way([], 0, [], [], []), Way([EndOfFile], 0, [7], [], []), true, true), Running, false)
  {
    assert s.down.script[1..] == [EndOfFile] && s.down.room[1..] == [];
  }

  /** Then the socket ends. */
  lemma LastByteLost(s: State, ready: Ready)
    requires s == State(Way([], 0, [], [], []), Way([EndOfFile], 0, [7], [], []), true, true)
    requires ready == Ready(false, true, false, false)
    ensures var n := Run(s, [ready]);
            n.outcome == Returned && n.state.down.sent == [] && n.state.down.buffered == [7]
  {
  }

  // ---------- what a turn reads and writes ----------

  /** The bytes a turn reads into `w` when it may. */
  function Fetched(w: Way, may: bool): seq<byte>
  {
    if may && w.start + |w.buffered| < MAXLINE then
      match Answered(w.script, MAXLINE - (w.start + |w.buffered|))
      case Bytes(data) => data
      case _ => []
    else []
  }

  /** One write of `b` to `room`: the front of it, as far as the kernel takes it. */
  ghost predicate Wrote(before: Way, after: Way, b: seq<byte>)
  {
    var k := |after.sent| - |before.sent|;
    && 0 <= k <= |b|
    && after.sent == before.sent + b[..k] && after.buffered == b[k..]
    && (before.room == [] ==> k == 0 && after.room == [])
    && (before.room != [] ==> after.room == before.room[1..])
    && (before.room != [] && before.room[0].Takes? ==> k == if before.room[0].n <= |b| then before.room[0].n else |b|)
    && (before.room != [] && !before.room[0].Takes? ==> k == 0)
  }

  /**
   * One direction in a turn that goes on. `b` is what is buffered once `data` was read. It is written
   * if there is any, and either data was just read or the descriptor was found writable with bytes
   * buffered at the head of the turn; otherwise nothing is written.
   */
  ghost predicate Moved(before: Way, after: Way, data: seq<byte>, writable: bool)
  {
    var b := before.buffered + data;
    if b != [] && (data != [] || (writable && before.buffered != [])) then Wrote(before, after, b)
    else after.sent == before.sent && after.buffered == b && after.room == before.room
  }

  lemma FilledFetches(w: Way, may: bool, v: Way)
    requires v == if may && Free(w) > 0 then Filled(w) else w
    ensures v.buffered == w.buffered + Fetched(w, may) && v.sent == w.sent && v.room == w.room
    ensures Fetched(w, may) != [] <==> may && Free(w) > 0 && Answered(w.script, Free(w)).Bytes?
  {
    Nil(w.buffered);
    if Free(w) > 0 {
      ReadTakes(w.script, Free(w));
    }
  }

  lemma DrainedWrites(w: Way, v: Way)
    requires v.buffered != [] && v.sent == w.sent && v.room == w.room
    ensures Wrote(w, Drained(v), v.buffered)
  {
  }

  /** The reads of a turn that goes on. */
  lemma ReadsRun(s: State, ready: Ready)
    requires ReadBoth(s, ready).outcome == Running
    ensures var r, mayUp := ReadBoth(s, ready), ready.stdin && !s.stdineof;
            && r.state.up == (if mayUp && Free(s.up) > 0 then Filled(s.up) else s.up)
            && r.state.down == (if ready.sockRead && Free(s.down) > 0 then Filled(s.down) else s.down)
            && (r.trySock <==> mayUp && Free(s.up) > 0 && Answered(s.up.script, Free(s.up)).Bytes?)
            && (r.tryStdout <==> ready.sockRead && Free(s.down) > 0 && Answered(s.down.script, Free(s.down)).Bytes?)
  {
  }

  lemma WritesMove(s: State, writeSock: bool, writeStdout: bool)
    requires WriteBoth(s, writeSock, writeStdout).outcome == Running
    ensures var t := WriteBoth(s, writeSock, writeStdout).state;
            && (if writeSock && s.up.buffered != [] then Wrote(s.up, t.up, s.up.buffered) else t.up == s.up)
            && (if writeStdout && s.down.buffered != [] then Wrote(s.down, t.down, s.down.buffered) else t.down == s.down)
  {
    if s.up.buffered != [] {
      DrainedWrites(s.up, s.up);
    }
    if s.down.buffered != [] {
      DrainedWrites(s.down, s.down);
    }
  }

  /** A turn that goes on moves each direction on as far as `select` and the kernel allow. */
  lemma TurnMoves(s: State, ready: Ready)
    requires Turn(s, ready).outcome == Running
    ensures var t := Turn(s, ready).state;
            && Moved(s.up, t.up, Fetched(s.up, ready.stdin && !s.stdineof), ready.sockWrite)
            && Moved(s.down, t.down, Fetched(s.down, ready.sockRead), ready.stdout)
  {
    var r, t := ReadBoth(s, ready), Turn(s, ready).state;
    ReadsRun(s, ready);
    WritesMove(r.state, (ready.sockWrite && s.up.buffered != []) || r.trySock,
               (ready.stdout && s.down.buffered != []) || r.tryStdout);
    MovedBy(s.up, r.state.up, t.up, ready.stdin && !s.stdineof, r.trySock, ready.sockWrite);
    MovedBy(s.down, r.state.down, t.down, ready.sockRead, r.tryStdout, ready.stdout);
  }

  lemma MovedBy(before: Way, mid: Way, after: Way, may: bool, tried: bool, writable: bool)
    requires mid == if may && Free(before) > 0 then Filled(before) else before
    requires tried <==> may && Free(before) > 0 && Answered(before.script, Free(before)).Bytes?
    requires if ((writable && before.buffered != []) || tried) && mid.buffered != []
             then Wrote(mid, after, mid.buffered) else after == mid
    ensures Moved(before, after, Fetched(before, may), writable)
  {
    FilledFetches(before, may, mid);
  }

  /** The reads of a turn: what they find decides how it goes on. */
  lemma ReadsEnd(s: State, ready: Ready)
    ensures var reading, readSock := ready.stdin && !s.stdineof && Free(s.up) > 0, ready.sockRead && Free(s.down) > 0;
            var a, b, r := Answered(s.up.script, Free(s.up)), Answered(s.down.script, Free(s.down)), ReadBoth(s, ready);
            var ended := s.stdineof || (reading && a.End?);
            && r.state.up == (if reading then Filled(s.up) else s.up)
            && (reading && a.Failure? ==> r.outcome == Failed)
            && (!(reading && a.Failure?) ==>
                  && r.state.stdineof == ended
                  && (r.outcome == Returned <==> readSock && b.End? && ended)
                  && (r.outcome == Terminated <==> readSock && b.End? && !ended)
                  && (r.outcome == Failed <==> readSock && b.Failure?))
  {
  }

  lemma WritesEnd(s: State, writeSock: bool, writeStdout: bool)
    ensures var n := WriteBoth(s, writeSock, writeStdout);
            && n.outcome in {Running, Failed} && n.state.stdineof == s.stdineof
            && (n.outcome == Running ==>
                  n.state.up == if writeSock && s.up.buffered != [] then Drained(s.up) else s.up)
  {
  }

  /** How a turn ends, in terms of what its reads find. */
  lemma TurnEnds(s: State, ready: Ready)
    ensures var reading, readSock := ready.stdin && !s.stdineof && Free(s.up) > 0, ready.sockRead && Free(s.down) > 0;
            var a, b, n := Answered(s.up.script, Free(s.up)), Answered(s.down.script, Free(s.down)), Turn(s, ready);
            var ended := s.stdineof || (reading && a.End?);
            && (reading && a.Failure? ==> n.outcome == Failed)
            && (!(reading && a.Failure?) ==>
                  && n.state.stdineof == ended
                  && (n.outcome == Returned <==> readSock && b.End? && ended)
                  && (n.outcome == Terminated <==> readSock && b.End? && !ended)
                  && (readSock && b.Failure? ==> n.outcome == Failed))
  {
    ReadsEnd(s, ready);
    var r := ReadBoth(s, ready);
    WritesEnd(r.state, (ready.sockWrite && s.up.buffered != []) || r.trySock,
              (ready.stdout && s.down.buffered != []) || r.tryStdout);
  }

  // ---------- everything is sent in the end ----------

  /** Standard input has an end, and no failing read before it. */
  predicate Ends(script: seq<Arrival>)
  {
    script != [] && (script[0].EndOfFile? || (!script[0].ReadFails? && Ends(script[1..])))
  }

  /** At most that many reads lead to the end. */
  function Need(script: seq<Arrival>): nat
  {
    if script == [] then 0
    else match script[0]
         case Chunk(first, more) => 1 + |more| + Need(script[1..])
         case EndOfFile => 1
         case NotYet => 1 + Need(script[1..])
         case ReadFails => 0
  }

  /** A sink that always takes something, at least `n` times. */
  ghost predicate Obliging(room: seq<Room>, n: nat)
  {
    |room| >= n && forall k :: 0 <= k < |room| ==> room[k].Takes? && room[k].n > 0
  }

  /** What the copier has yet to do for standard input. */
  function Left(s: State): nat
  {
    (if s.stdineof then 0 else 2 * Need(s.up.script)) + |s.up.buffered|
  }

  ghost predicate Going(s: State)
  {
    && s.up.start + |s.up.buffered| <= MAXLINE && (s.up.buffered == [] ==> s.up.start == 0)
    && (!s.stdineof ==> Ends(s.up.script))
  }

  lemma NeedDrops(script: seq<Arrival>, max: nat)
    requires Ends(script) && max > 0
    ensures match Answered(script, max)
            case Bytes(data) =>
              0 < |data| <= max && Need(Remaining(script, max)) + |data| == Need(script) && Ends(Remaining(script, max))
            case End => true
            case Nothing => Need(Remaining(script, max)) < Need(script) && Ends(Remaining(script, max))
            case Failure => false
    ensures Need(script) > 0
  {
    if script[0].Chunk? {
      var data := [script[0].first] + script[0].more;
      if |data| > max {
        Halves([Chunk(data[max], data[max + 1..])], script[1..]);
      }
    }
  }

  /** The scripts and the reset of an emptied buffer, after a turn that goes on. */
  lemma TurnKeepsGoing(s: State, ready: Ready)
    requires Going(s) && ready.stdin && Turn(s, ready).outcome == Running
    ensures Going(Turn(s, ready).state)
    ensures var t := Turn(s, ready).state;
            var reading := !s.stdineof && Free(s.up) > 0;
            && t.stdineof == (s.stdineof || (reading && Answered(s.up.script, Free(s.up)).End?))
            && t.up.script == if reading then Remaining(s.up.script, Free(s.up)) else s.up.script
  {
    ReadsEnd(s, ready);
    var r := ReadBoth(s, ready);
    WritesEnd(r.state, (ready.sockWrite && s.up.buffered != []) || r.trySock,
              (ready.stdout && s.down.buffered != []) || r.tryStdout);
    if !s.stdineof && Free(s.up) > 0 {
      NeedDrops(s.up.script, Free(s.up));
      FilledGoing(s.up);
    }
    if r.state.up.buffered != [] {
      DrainedStart(r.state.up);
    }
  }

  lemma FilledGoing(w: Way)
    requires w.start + |w.buffered| <= MAXLINE && Free(w) > 0 && Ends(w.script) && (w.buffered == [] ==> w.start == 0)
    ensures var v := Filled(w);
            && v.start + |v.buffered| <= MAXLINE && (v.buffered == [] ==> v.start == 0)
            && v.script == Remaining(w.script, Free(w))
  {
    NeedDrops(w.script, Free(w));
  }

  lemma DrainedStart(w: Way)
    requires w.buffered != [] && w.start + |w.buffered| <= MAXLINE
    ensures Drained(w).start + |Drained(w).buffered| <= MAXLINE
    ensures Drained(w).buffered == [] ==> Drained(w).start == 0
  {
  }

  /** With standard input and the socket ready, every turn leaves less to do. */
  lemma LeftDrops(s: State, ready: Ready)
    requires Going(s) && ready.stdin && ready.sockWrite && Turn(s, ready).outcome == Running && Obliging(s.up.room, 1)
    ensures var t := Turn(s, ready).state;
            && (Left(s) > 0 ==> Left(t) < Left(s)) && (Left(s) == 0 ==> Left(t) == 0)
            && Obliging(t.up.room, |s.up.room| - 1)
  {
    TurnKeepsGoing(s, ready);
    TurnMoves(s, ready);
    if !s.stdineof {
      NeedPositive(s.up.script);
      if Free(s.up) > 0 {
        NeedDrops(s.up.script, Free(s.up));
      }
    }
  }

  lemma NeedPositive(script: seq<Arrival>)
    requires Ends(script)
    ensures Need(script) > 0
  {
    NeedDrops(script, 1);
  }

  lemma {:induction false} LeftRunsOut(s: State, readies: seq<Ready>)
    requires Going(s) && Run(s, readies).outcome == Running && Obliging(s.up.room, |readies|)
    requires forall k :: 0 <= k < |readies| ==> readies[k].stdin && readies[k].sockWrite
    ensures Going(Run(s, readies).state)
    ensures |readies| >= Left(s) ==> Left(Run(s, readies).state) == 0
    decreases |readies|
  {
    if readies != [] {
      LeftDrops(s, readies[0]);
      TurnKeepsGoing(s, readies[0]);
      LeftRunsOut(Turn(s, readies[0]).state, readies[1..]);
    }
  }

  /**
   * Given a standard input that ends and a socket that always takes something, with both ready at
   * every `select`: unless the other side ends the program, twice as many turns as there are bytes and
   * arrivals on standard input are enough to send all of it and to follow it by the half-close.
   */
  lemma EverythingIsSent(stdin: seq<Arrival>, sock: seq<Arrival>, toSock: seq<Room>, toStdout: seq<Room>, readies: seq<Ready>)
    requires Ends(stdin) && |readies| >= 2 * Need(stdin) && Obliging(toSock, |readies|)
    requires forall k :: 0 <= k < |readies| ==> readies[k].stdin && readies[k].sockWrite
    requires Run(Begun(stdin, sock, toSock, toStdout), readies).outcome == Running
    ensures var s := Run(Begun(stdin, sock, toSock, toStdout), readies).state;
            s.up.sent == Content(stdin) && s.closed && s.stdineof
  {
    var s0 := Begun(stdin, sock, toSock, toStdout);
    LeftRunsOut(s0, readies);
    var s := Run(s0, readies).state;
    CopiesFaithfully(stdin, sock, toSock, toStdout, readies);
    if !s.stdineof {
      NeedPositive(s.up.script);
    }
  }

  // ---------- the copier ----------

  /** `n` bytes read behind what was buffered in `lo..hi`. */
  lemma ReadBehind(before: seq<byte>, data: seq<byte>, lo: nat, hi: nat)
    requires lo <= hi && hi + |data| <= |before|
    ensures (before[..hi] + data + before[hi + |data|..])[lo..hi + |data|] == before[lo..hi] + data
  {
  }

  /** Writing from the front of what is buffered in `lo..hi`. */
  lemma WrittenFrom(script: seq<Arrival>, buf: seq<byte>, lo: nat, hi: nat, room: seq<Room>, sent: seq<byte>)
    requires lo < hi <= |buf|
    ensures var k := Accepted(room, hi - lo);
            Drained(Way(script, lo, buf[lo..hi], room, sent)) ==
              if WriteResult(room, hi - lo) >= 0 && lo + k == hi
              then Way(script, 0, buf[0..0], RoomLeft(room), sent + buf[lo..lo + k])
              else Way(script, lo + k, buf[lo + k..hi], RoomLeft(room), sent + buf[lo..lo + k])
  {
    var k := Accepted(room, hi - lo);
    assert buf[lo..hi][..k] == buf[lo..lo + k] && buf[lo..hi][k..] == buf[lo + k..hi];
  }

  class Copier {
    const stdin: Source
    const sockIn: Source
    const sockOut: Sink
    const stdout: Sink
    const to: array<byte>
    const fr: array<byte>
    var toiptr: nat
    var tooptr: nat
    var friptr: nat
    var froptr: nat
    var stdineof: bool

    ghost predicate Shaped()
      reads this, sockOut, stdout
    {
      && to != fr && to.Length == fr.Length == MAXLINE
      && stdin != sockIn && sockOut != stdout && !stdout.closed
      && tooptr <= toiptr <= MAXLINE && froptr <= friptr <= MAXLINE
      && (sockOut.closed <==> stdineof && tooptr == toiptr)
    }

    ghost function View(): State
      requires Shaped()
      reads this, to, fr, stdin, sockIn, sockOut, stdout
    {
      State(Way(stdin.script, tooptr, to[tooptr..toiptr], sockOut.room, sockOut.sent),
            Way(sockIn.script, froptr, fr[froptr..friptr], stdout.room, stdout.sent), stdineof, sockOut.closed)
    }

    constructor (stdin: Source, sockIn: Source, sockOut: Sink, stdout: Sink)
      requires stdin != sockIn && sockOut != stdout && !sockOut.closed && !stdout.closed
      requires sockOut.sent == stdout.sent == []
      ensures Shaped() && fresh(to) && fresh(fr)
      ensures View() == Begun(stdin.script, sockIn.script, sockOut.room, stdout.room)
      ensures this.stdin == stdin && this.sockIn == sockIn && this.sockOut == sockOut && this.stdout == stdout
    {
      this.stdin, this.sockIn, this.sockOut, this.stdout := stdin, sockIn, sockOut, stdout;
      to, fr := new byte[MAXLINE](_ => 0), new byte[MAXLINE](_ => 0);
      toiptr, tooptr, friptr, froptr, stdineof := 0, 0, 0, 0, false;
    }

    /** Standard input readable; `tryWrite` is the FD_SET of the socket for writing. */
    method ReadStdin() returns (outcome: Outcome, tryWrite: bool)
      requires Shaped() && !stdineof && toiptr < MAXLINE
      modifies this`toiptr, this`stdineof, to, stdin, sockOut
      ensures Shaped() && Next(View(), outcome, tryWrite) == FromStdin(old(View()))
    {
      ghost var before, a := to[..], Answered(stdin.script, MAXLINE - toiptr);
      var n, wouldBlock := stdin.Read(to, toiptr, MAXLINE - toiptr);
      if n < 0 {
        if !wouldBlock {
          return Failed, false;
        }
      } else if n == 0 {
        stdineof := true;
        if tooptr == toiptr {
          sockOut.Shutdown();
        }
      } else {
        ReadBehind(before, a.data, tooptr, toiptr);
        toiptr := toiptr + n;
        return Running, true;
      }
      return Running, false;
    }

    /** The socket readable; its end of file ends the program, one way or the other. */
    method ReadSocket() returns (outcome: Outcome, tryWrite: bool)
      requires Shaped() && friptr < MAXLINE
      modifies this`friptr, fr, sockIn
      ensures Shaped() && Next(View(), outcome, tryWrite) == FromSocket(old(View()))
    {
      ghost var before, a := fr[..], Answered(sockIn.script, MAXLINE - friptr);
      var n, wouldBlock := sockIn.Read(fr, friptr, MAXLINE - friptr);
      if n < 0 {
        if !wouldBlock {
          return Failed, false;
        }
      } else if n == 0 {
        if stdineof {
          return Returned, false;
        } else {
          return Terminated, false;
        }
      } else {
        ReadBehind(before, a.data, froptr, friptr);
        friptr := friptr + n;
        return Running, true;
      }
      return Running, false;
    }

    method WriteStdout() returns (outcome: Outcome)
      requires Shaped() && friptr - froptr > 0
      modifies this`froptr, this`friptr, stdout
      ensures Shaped() && Next(View(), outcome, false) == ToStdout(old(View()))
    {
      WrittenFrom(sockIn.script, fr[..], froptr, friptr, stdout.room, stdout.sent);
      var nwritten, wouldBlock := stdout.Write(fr, froptr, friptr - froptr);
      if nwritten < 0 {
        if !wouldBlock {
          return Failed;
        }
      } else {
        froptr := froptr + nwritten;
        if froptr == friptr {
          froptr, friptr := 0, 0;
        }
      }
      return Running;
    }

    /** The socket writable: the half-close follows the last byte of standard input. */
    method WriteSocket() returns (outcome: Outcome)
      requires Shaped() && toiptr - tooptr > 0
      modifies this`tooptr, this`toiptr, sockOut
      ensures Shaped() && Next(View(), outcome, false) == ToSocket(old(View()))
    {
      WrittenFrom(stdin.script, to[..], tooptr, toiptr, sockOut.room, sockOut.sent);
      var nwritten, wouldBlock := sockOut.Write(to, tooptr, toiptr - tooptr);
      if nwritten < 0 {
        if !wouldBlock {
          return Failed;
        }
      } else {
        tooptr := tooptr + nwritten;
        if tooptr == toiptr {
          toiptr, tooptr := 0, 0;
          if stdineof {
            sockOut.Shutdown();
          }
        }
      }
      return Running;
    }

    method ReadOnes(readStdin: bool, readSock: bool, ghost ready: Ready)
      returns (outcome: Outcome, trySock: bool, tryStdout: bool)
      requires Shaped() && readStdin == (ready.stdin && !stdineof && toiptr < MAXLINE)
      requires readSock == (ready.sockRead && friptr < MAXLINE)
      modifies this, to, fr, stdin, sockIn, sockOut
      ensures Shaped() && Reads(View(), outcome, trySock, tryStdout) == ReadBoth(old(View()), ready)
    {
      outcome, trySock, tryStdout := Running, false, false;
      if readStdin {
        outcome, trySock := ReadStdin();
        if outcome != Running {
          return;
        }
      }
      if readSock {
        outcome, tryStdout := ReadSocket();
      }
    }

    method WriteOnes(writeSock: bool, writeStdout: bool) returns (outcome: Outcome)
      requires Shaped()
      modifies this, sockOut, stdout
      ensures Shaped() && Next(View(), outcome, false) == WriteBoth(old(View()), writeSock, writeStdout)
    {
      outcome := Running;
      if writeStdout && friptr - froptr > 0 {
        outcome := WriteStdout();
        if outcome != Running {
          return;
        }
      }
      if writeSock && toiptr - tooptr > 0 {
        outcome := WriteSocket();
      }
    }

    /** From one `select` to the next. */
    method OneTurn(ready: Ready) returns (outcome: Outcome)
      requires Shaped()
      modifies this, to, fr, stdin, sockIn, sockOut, stdout
      ensures Shaped() && Next(View(), outcome, false) == Turn(old(View()), ready)
    {
      ghost var before := View();
      var writeSock := ready.sockWrite && tooptr != toiptr;
      var writeStdout := ready.stdout && froptr != friptr;
      var trySock, tryStdout;
      outcome, trySock, tryStdout := ReadOnes(ready.stdin && !stdineof && toiptr < MAXLINE,
                                              ready.sockRead && friptr < MAXLINE, ready);
      ghost var r := Reads(View(), outcome, trySock, tryStdout);
      if outcome == Running {
        outcome := WriteOnes(writeSock || trySock, writeStdout || tryStdout);
      }
      TurnBy(before, ready, r, writeSock, writeStdout, Next(View(), outcome, false));
    }

    /** `str_cli` for as many returns of `select` as `readies` has. */
    method StrCli(readies: seq<Ready>) returns (outcome: Outcome)
      requires Shaped()
      modifies this, to, fr, stdin, sockIn, sockOut, stdout
      ensures Shaped()
      ensures Next(View(), outcome, false) == Run(old(View()), readies)
    {
      ghost var want := Run(View(), readies);
      var k := 0;
      while k < |readies|
        invariant 0 <= k <= |readies| && Shaped()
        invariant Run(View(), readies[k..]) == want
      {
        assert readies[k..][0] == readies[k] && readies[k..][1..] == readies[k + 1..];
        outcome := OneTurn(readies[k]);
        if outcome != Running {
          return;
        }
        k := k + 1;
      }
      return Running;
    }
  }
}
