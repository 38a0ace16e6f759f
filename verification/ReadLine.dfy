/**
 * Buffered `readline` against the byte-at-a-time one: both return what the stream of bytes,
 * ends of file and errors determines, however the kernel delivers it.
 */
module ReadLine {
  import opened Prelude

  const MAXLINE: nat := 4096
  const NEWLINE: byte := 10

  // ---------- the kernel ----------

  /** What `read` may do: deliver bytes, report end of file, be interrupted, or fail. */
  datatype Delivery = Chunk(first: byte, more: seq<byte>) | EndOfFile | Interrupted | Failure

  /** What a reader can observe, interruptions and chunk boundaries left out. */
  datatype Item = Data(c: byte) | Eof | Err

  function Bytes(data: seq<byte>): (items: seq<Item>)
    ensures |items| == |data|
  {
    seq(|data|, k requires 0 <= k < |data| => Data(data[k]))
  }

  function Observed(d: Delivery): seq<Item>
  {
    match d
    case Chunk(first, more) => Bytes([first] + more)
    case EndOfFile => [Eof]
    case Interrupted => []
    case Failure => [Err]
  }

  function Items(script: seq<Delivery>): seq<Item>
  {
    if script == [] then [] else Observed(script[0]) + Items(script[1..])
  }

  lemma BytesSplit(data: seq<byte>, n: nat, rest: seq<Item>)
    requires n <= |data|
    ensures Bytes(data) + rest == Bytes(data[..n]) + (Bytes(data[n..]) + rest)
    ensures n == |data| ==> Bytes(data[n..]) + rest == rest && data[..n] == data
  {
  }

  /** Reading the first `n` bytes of a chunk: the rest of it stays. */
  lemma ChunkRead(first: byte, more: seq<byte>, n: nat, script: seq<Delivery>)
    requires script != [] && script[0] == Chunk(first, more) && n <= |more| + 1
    ensures var data := [first] + more;
            Items(script) == Bytes(data[..n]) +
              Items((if n == |data| then [] else [Chunk(data[n], data[n + 1..])]) + script[1..])
  {
    var data := [first] + more;
    BytesSplit(data, n, Items(script[1..]));
    if n == |data| {
      Nil(script[1..]);
    } else {
      assert [data[n]] + data[n + 1..] == data[n..];
      Halves([Chunk(data[n], data[n + 1..])], script[1..]);
    }
  }

  datatype Result = Count(n: nat) | Eintr | Error

  /** A descriptor whose deliveries are yet to be read; after the last one, end of file. */
  class Kernel {
    var script: seq<Delivery>

    constructor (script: seq<Delivery>)
      ensures this.script == script
    {
      this.script := script;
    }

    /** `read(fd, buf, max)`: at most `max` bytes, the rest of a chunk stays. */
    method Read(buf: array<byte>, max: nat) returns (r: Result)
      requires 0 < max <= buf.Length
      modifies this, buf
      ensures r.Count? && r.n > 0 ==> r.n <= max && Items(old(script)) == Bytes(buf[..r.n]) + Items(script)
      ensures r.Count? && r.n == 0 ==> Items(script) == Tail(Items(old(script))) && Head(Items(old(script))) == Eof
      ensures r.Eintr? ==> Items(script) == Items(old(script))
      ensures r.Error? ==> Items(old(script)) == [Err] + Items(script)
      ensures r.Eintr? ==> |script| < |old(script)|
    {
      if script == [] {
        return Count(0);
      }
      match script[0] {
        case Chunk(first, more) =>
          var data := [first] + more;
          var n := if |data| <= max then |data| else max;
          forall k | 0 <= k < n { buf[k] := data[k]; }
          assert buf[..n] == data[..n];
          ChunkRead(first, more, n, script);
          script := (if n == |data| then [] else [Chunk(data[n], data[n + 1..])]) + script[1..];
          r := Count(n);
        case EndOfFile =>
          script := script[1..];
          r := Count(0);
        case Interrupted =>
          Nil(Items(script[1..]));
          script := script[1..];
          r := Eintr;
        case Failure =>
          script := script[1..];
          r := Error;
      }
    }
  }

  // ---------- what readline returns ----------

  function Head(items: seq<Item>): Item
  {
    if items == [] then Eof else items[0]
  }

  function Tail(items: seq<Item>): seq<Item>
  {
    if items == [] then [] else items[1..]
  }

  /** A return value, the bytes stored, whether a NUL follows them, and what is left unread. */
  datatype Line = Line(ret: int, stored: seq<byte>, terminated: bool, rest: seq<Item>)

  /** From the loop head with `n`, `stored` already there. */
  function Loop(items: seq<Item>, n: nat, maxlen: nat, stored: seq<byte>): Line
    decreases maxlen - n
  {
    if n >= maxlen then Line(n, stored, true, items)
    else match Head(items)
         case Data(c) =>
           if c == NEWLINE then Line(n, stored + [c], true, Tail(items))
           else Loop(Tail(items), n + 1, maxlen, stored + [c])
         case Eof => Line(n - 1, stored, true, Tail(items))
         case Err => Line(-1, stored, false, Tail(items))
  }

  function ReadOne(items: seq<Item>, maxlen: nat): Line
  {
    Loop(items, 1, maxlen, [])
  }

  function Calls(items: seq<Item>, maxlens: seq<nat>): (lines: seq<Line>)
    ensures |lines| == |maxlens|
    decreases |maxlens|
  {
    if maxlens == [] then []
    else
      var line := ReadOne(items, maxlens[0]);
      [line] + Calls(line.rest, maxlens[1..])
  }

  /** How many bytes may be stored before the NUL; the loop does not run for a `maxlen` of 0 or 1. */
  function Limit(maxlen: nat): nat { if maxlen >= 1 then maxlen - 1 else 0 }

  predicate IsPlain(item: Item) { item.Data? && item.c != NEWLINE }

  /** How many bytes other than a newline come first, at most `m`. */
  function Plain(items: seq<Item>, m: nat): (k: nat)
    ensures k <= m && k <= |items|
    ensures forall j :: 0 <= j < k ==> IsPlain(items[j])
    ensures k < m && k < |items| ==> !IsPlain(items[k])
  {
    if m == 0 || items == [] || !IsPlain(items[0]) then 0 else 1 + Plain(items[1..], m - 1)
  }

  function DataOf(items: seq<Item>): (data: seq<byte>)
    ensures |data| == |items|
    ensures forall j :: 0 <= j < |items| && items[j].Data? ==> data[j] == items[j].c
  {
    seq(|items|, j requires 0 <= j < |items| => if items[j].Data? then items[j].c else 0)
  }

  /**
   * A call that may store `m` more bytes after `stored`: cut at the limit if the next `m` bytes
   * have no newline, otherwise ended by the newline, the end of file or the error behind them.
   */
  function Ended(items: seq<Item>, m: nat, stored: seq<byte>): Line
  {
    var k := Plain(items, m);
    var all := stored + DataOf(items[..k]);
    if k == m then Line(|all| + 1, all, true, items[k..])
    else match Head(items[k..])
         case Data(c) => Line(|all| + 1, all + [c], true, items[k + 1..])
         case Eof => Line(|all|, all, true, Tail(items[k..]))
         case Err => Line(-1, all, false, items[k + 1..])
  }

  lemma EndedStep(items: seq<Item>, m: nat, stored: seq<byte>)
    requires m > 0 && items != [] && IsPlain(items[0])
    ensures Ended(items, m, stored) == Ended(items[1..], m - 1, stored + [items[0].c])
  {
    var k := Plain(items[1..], m - 1);
    assert items[1..][k..] == items[k + 1..];
    assert k < |items[1..]| ==> items[1..][k + 1..] == items[k + 2..];
    DataStep(items, k, stored);
  }

  lemma DataStep(items: seq<Item>, k: nat, stored: seq<byte>)
    requires k < |items| && items[0].Data?
    ensures stored + DataOf(items[..k + 1]) == stored + [items[0].c] + DataOf(items[1..][..k])
  {
    assert items[..k + 1] == [items[0]] + items[1..][..k];
    assert DataOf(items[..k + 1]) == [items[0].c] + DataOf(items[1..][..k]);
  }

  lemma {:induction false} LoopEnded(items: seq<Item>, n: nat, maxlen: nat, stored: seq<byte>)
    requires 1 <= n && |stored| == n - 1 && (n <= maxlen || n == 1)
    ensures Loop(items, n, maxlen, stored) == Ended(items, Limit(maxlen) - (n - 1), stored)
    decreases maxlen - n
  {
    if n < maxlen && items != [] && IsPlain(items[0]) {
      LoopEnded(items[1..], n + 1, maxlen, stored + [items[0].c]);
      EndedStep(items, Limit(maxlen) - (n - 1), stored);
    } else {
      EndedAtOnce(items, Limit(maxlen) - (n - 1), stored);
    }
  }

  lemma EndedAtOnce(items: seq<Item>, m: nat, stored: seq<byte>)
    requires m == 0 || items == [] || !IsPlain(items[0])
    ensures Ended(items, m, stored) ==
              if m == 0 then Line(|stored| + 1, stored, true, items)
              else match Head(items)
                   case Data(c) => Line(|stored| + 1, stored + [c], true, Tail(items))
                   case Eof => Line(|stored|, stored, true, Tail(items))
                   case Err => Line(-1, stored, false, Tail(items))
  {
    Nil(stored);
  }

  /**
   * What one call returns, stores and leaves, for any `maxlen` and any stream: the bytes up to
   * a newline, the limit, an end of file or an error.
   */
  lemma ReadOneShape(items: seq<Item>, maxlen: nat)
    ensures ReadOne(items, maxlen) == Ended(items, Limit(maxlen), [])
  {
    LoopEnded(items, 1, maxlen, []);
  }

  /**
   * The return value is not the number of bytes stored exactly when a line is cut: when as many
   * bytes as fit come first and none of them is a newline. It is then one too large.
   */
  lemma CountIsWrongIff(items: seq<Item>, maxlen: nat)
    ensures var r, m := ReadOne(items, maxlen), Limit(maxlen);
            && (r.ret >= 0 && r.ret != |r.stored| <==> |items| >= m && forall j :: 0 <= j < m ==> IsPlain(items[j]))
            && (r.ret >= 0 && r.ret != |r.stored| ==> r.ret == |r.stored| + 1)
  {
    ReadOneShape(items, maxlen);
  }

  /** An error behind `k` bytes without a newline. */
  ghost predicate FailsAt(items: seq<Item>, k: int)
  {
    0 <= k < |items| && items[k].Err? && forall j :: 0 <= j < k ==> IsPlain(items[j])
  }

  lemma FailsAtPlain(items: seq<Item>, m: nat, k: nat)
    requires k < m && FailsAt(items, k)
    ensures k == Plain(items, m)
  {
  }

  /** A call fails exactly when an error comes before a newline, the limit or the end of the file. */
  lemma FailsIff(items: seq<Item>, maxlen: nat)
    ensures ReadOne(items, maxlen).ret == -1 <==> exists k :: 0 <= k < Limit(maxlen) && FailsAt(items, k)
    ensures var r := ReadOne(items, maxlen);
            r.ret == -1 ==> r.stored == DataOf(items[..Plain(items, Limit(maxlen))]) && !r.terminated
  {
    ReadOneShape(items, maxlen);
    var k := Plain(items, Limit(maxlen));
    Nil(DataOf(items[..k]));
    assert ReadOne(items, maxlen).ret == -1 ==> FailsAt(items, k);
    if k2 :| 0 <= k2 < Limit(maxlen) && FailsAt(items, k2) {
      FailsAtPlain(items, Limit(maxlen), k2);
    }
  }

  /** For instance three letters into a buffer of three: 3 is returned, two are stored. */
  lemma CountIsWrongExample()
    ensures var r := ReadOne([Data(65), Data(66), Data(67)], 3); r.ret == 3 && r.stored == [65, 66]
  {
    var items := [Data(65), Data(66), Data(67)];
    ReadOneShape(items, 3);
    CountIsWrongIff(items, 3);
    assert Plain(items, 2) == 2;
    assert DataOf(items[..2]) == [65, 66];
  }

  // ---------- the byte-at-a-time version ----------

  /** How many bytes of its buffer a call writes, the NUL included. */
  function Width(line: Line): nat
  {
    |line.stored| + One(line.terminated)
  }

  /** Memory after a call: the bytes, the NUL, and behind them what was there. */
  function Put(before: seq<byte>, line: Line): (after: seq<byte>)
    requires Width(line) <= |before|
    ensures |after| == |before|
  {
    line.stored + (if line.terminated then [0] else []) + before[Width(line)..]
  }

  /**
   * What a call did to the memory at `vptr`. With a `maxlen` of 0 a NUL is stored all the same: where
   * there is no memory it falls past the end.
   */
  ghost predicate Delivered(before: seq<byte>, after: seq<byte>, line: Line, ret: int, pastEnd: bool)
  {
    && ret == line.ret
    && (pastEnd <==> before == [])
    && (if pastEnd then after == [] && line.stored == [] && line.terminated
        else Width(line) <= |before| && after == Put(before, line))
  }

  lemma {:induction false} LoopWidth(items: seq<Item>, n: nat, maxlen: nat, stored: seq<byte>)
    requires 1 <= n && |stored| == n - 1 && (n <= maxlen || n == 1)
    ensures Width(Loop(items, n, maxlen, stored)) <= if maxlen >= 1 then maxlen else 1
    decreases maxlen - n
  {
    if n < maxlen && items != [] && IsPlain(items[0]) {
      LoopWidth(items[1..], n + 1, maxlen, stored + [items[0].c]);
    }
  }

  /** The first `maxlen` bytes are all that a call writes to, whatever the stream. */
  ghost predicate StaysInside(maxlen: nat)
  {
    forall items: seq<Item>, before: seq<byte> :: |before| > maxlen ==>
      var line := ReadOne(items, maxlen);
      Width(line) <= |before| && Put(before, line)[maxlen..] == before[maxlen..]
  }

  /** They are, exactly when `maxlen` is not 0. */
  lemma StaysInsideIff(maxlen: nat)
    ensures StaysInside(maxlen) <==> maxlen >= 1
  {
    if maxlen >= 1 {
      forall items: seq<Item>, before: seq<byte> | |before| > maxlen
        ensures Width(ReadOne(items, maxlen)) <= |before|
        ensures Put(before, ReadOne(items, maxlen))[maxlen..] == before[maxlen..]
      {
        LoopWidth(items, 1, maxlen, []);
        PutInside(before, ReadOne(items, maxlen), maxlen);
      }
    } else {
      ZeroOverruns();
    }
  }

  lemma PutInside(before: seq<byte>, line: Line, m: nat)
    requires Width(line) <= m <= |before|
    ensures Put(before, line)[m..] == before[m..]
  {
  }

  /** A `maxlen` of 0, end of file or not: a NUL over the first byte behind an empty buffer. */
  lemma ZeroOverruns()
    ensures ReadOne([], 0) == Line(1, [], true, []) && Put([65], ReadOne([], 0)) == [0]
    ensures !StaysInside(0)
  {
    var before: seq<byte> := [65];
    var line := ReadOne([], 0);
    assert Put(before, line)[0..] != before[0..] by {
      assert Put(before, line)[0..][0] == 0 && before[0..][0] == 65;
    }
  }

  /** The return value of a one-byte read, the byte, and what it consumed. */
  ghost predicate Got(items: seq<Item>, rc: int, c: byte, rest: seq<Item>)
  {
    && rest == Tail(items)
    && match Head(items) case Data(d) => rc == 1 && c == d case Eof => rc == 0 case Err => rc == -1
  }

  lemma OneByte(c: seq<byte>, rest: seq<Item>)
    requires |c| == 1
    ensures Got(Bytes(c) + rest, 1, c[0], rest)
  {
  }

  /** One `read` of one byte, again after EINTR. */
  method ReadByte(fd: Kernel) returns (rc: int, c: byte)
    modifies fd
    ensures Got(Items(old(fd.script)), rc, c, Items(fd.script))
  {
    var cell := new byte[1](_ => 0);
    while true
      invariant Items(fd.script) == Items(old(fd.script))
      decreases |fd.script|
    {
      var r := fd.Read(cell, 1);
      match r {
        case Count(k) =>
          if k > 0 {
            OneByte(cell[..1], Items(fd.script));
            return 1, cell[0];
          }
          return 0, 0;
        case Eintr =>
        case Error =>
          return -1, 0;
      }
    }
  }

  /** The state of the loop after `n - 1` bytes, against what the call will return. */
  ghost predicate InLoop(items: seq<Item>, n: int, maxlen: nat, stored: seq<byte>, line: Line)
  {
    1 <= n && |stored| == n - 1 && (n <= maxlen || n == 1) && Loop(items, n, maxlen, stored) == line
  }

  /** What each outcome of the next read makes of the loop. */
  lemma LoopTurn(items: seq<Item>, n: int, maxlen: nat, stored: seq<byte>, line: Line, rc: int, c: byte, rest: seq<Item>)
    requires InLoop(items, n, maxlen, stored, line) && n < maxlen && Got(items, rc, c, rest)
    ensures rc == 1 && c != NEWLINE ==> InLoop(rest, n + 1, maxlen, stored + [c], line)
    ensures rc == 1 && c == NEWLINE ==> line == Line(n, stored + [c], true, rest)
    ensures rc == 0 ==> line == Line(n - 1, stored, true, rest)
    ensures rc == -1 ==> line == Line(-1, stored, false, rest)
    ensures rc in {1, 0, -1}
  {
  }

  lemma LoopDone(items: seq<Item>, n: int, maxlen: nat, stored: seq<byte>, line: Line)
    requires InLoop(items, n, maxlen, stored, line) && n >= maxlen
    ensures line == Line(n, stored, true, items)
  {
  }

  method PutByte(vptr: array<byte>, ptr: nat, c: byte)
    requires ptr < vptr.Length
    modifies vptr
    ensures vptr[..] == old(vptr[..])[ptr := c]
  {
    vptr[ptr] := c;
  }

  /** So far `stored` was written over the memory that was there. */
  ghost predicate Over(now: seq<byte>, stored: seq<byte>, before: seq<byte>)
  {
    |stored| <= |before| && now == stored + before[|stored|..]
  }

  lemma OverMore(now: seq<byte>, stored: seq<byte>, before: seq<byte>, c: byte)
    requires Over(now, stored, before) && |stored| < |before|
    ensures Over(now[|stored| := c], stored + [c], before)
  {
  }

  /** The line ends: a NUL behind what was stored, or nothing more after a failed read. */
  lemma OverEnds(now: seq<byte>, before: seq<byte>, line: Line)
    requires Over(now, line.stored, before) && Width(line) <= |before|
    ensures Put(before, line) == if line.terminated then now[|line.stored| := 0] else now
  {
  }

  /** What both versions do with the outcome of a read: go on, or end the line. */
  method StoreTurn(vptr: array<byte>, ptr: nat, n: int, rc: int, c: byte, ghost items: seq<Item>, ghost maxlen: nat,
                   ghost want: Line, ghost rest: seq<Item>, ghost stored: seq<byte>, ghost before: seq<byte>)
    returns (ended: bool, ret: int)
    requires ptr + 1 < vptr.Length && ptr == n - 1 && n < maxlen && InLoop(items, n, maxlen, stored, want)
    requires Got(items, rc, c, rest) && Over(vptr[..], stored, before)
    modifies vptr
    ensures ended ==> Delivered(before, vptr[..], want, ret, false) && want.rest == rest && (ret == -1 <==> rc == -1)
    ensures !ended ==> InLoop(rest, n + 1, maxlen, stored + [c], want) && Over(vptr[..], stored + [c], before) && rc == 1
  {
    LoopTurn(items, n, maxlen, stored, want, rc, c, rest);
    if rc == 1 {
      OverMore(vptr[..], stored, before, c);
      PutByte(vptr, ptr, c);
      if c == NEWLINE {
        OverEnds(vptr[..], before, want);
        PutByte(vptr, ptr + 1, 0);
        return true, n;
      }
      return false, 0;
    } else if rc == 0 {
      OverEnds(vptr[..], before, want);
      PutByte(vptr, ptr, 0);
      return true, n - 1;
    } else {
      OverEnds(vptr[..], before, want);
      return true, -1;
    }
  }

  /** The NUL behind a line that was cut, or where `maxlen` left no room for it. */
  method LastNul(vptr: array<byte>, ptr: nat, n: int, ghost items: seq<Item>, ghost maxlen: nat,
                 ghost want: Line, ghost stored: seq<byte>, ghost before: seq<byte>)
    returns (pastEnd: bool)
    requires ptr == n - 1 && n >= maxlen && InLoop(items, n, maxlen, stored, want) && Over(vptr[..], stored, before)
    requires ptr < vptr.Length || stored == before == []
    modifies vptr
    ensures Delivered(before, vptr[..], want, n, pastEnd) && want.rest == items
  {
    LoopDone(items, n, maxlen, stored, want);
    pastEnd := ptr >= vptr.Length;
    if !pastEnd {
      OverEnds(vptr[..], before, want);
      PutByte(vptr, ptr, 0);
    }
  }

  /** `readline` with one `read` for each byte; `pastEnd` when a NUL was stored past the end of `vptr`. */
  method ReadLineSlow(fd: Kernel, vptr: array<byte>, maxlen: nat) returns (ret: int, pastEnd: bool)
    requires maxlen <= vptr.Length
    modifies fd, vptr
    ensures var line := ReadOne(Items(old(fd.script)), maxlen);
            Delivered(old(vptr[..]), vptr[..], line, ret, pastEnd) && Items(fd.script) == line.rest
    ensures maxlen >= 1 ==> vptr[maxlen..] == old(vptr[maxlen..])
  {
    ghost var want, before, stored := ReadOne(Items(fd.script), maxlen), vptr[..], [];
    LoopWidth(Items(fd.script), 1, maxlen, []);
    var n, ptr := 1, 0;
    while n < maxlen
      invariant ptr == n - 1 && (n <= maxlen || n == 1)
      invariant InLoop(Items(fd.script), n, maxlen, stored, want) && Over(vptr[..], stored, before)
      decreases maxlen - n
    {
      ghost var items := Items(fd.script);
      var rc, c := ReadByte(fd);
      var ended, r := StoreTurn(vptr, ptr, n, rc, c, items, maxlen, want, Items(fd.script), stored, before);
      if ended {
        Untouched(before, want, maxlen);
        return r, false;
      }
      ptr, n, stored := ptr + 1, n + 1, stored + [c];
    }
    pastEnd := LastNul(vptr, ptr, n, Items(fd.script), maxlen, want, stored, before);
    Untouched(before, want, maxlen);
    return n, pastEnd;
  }

  lemma Untouched(before: seq<byte>, line: Line, maxlen: nat)
    requires Width(line) <= (if maxlen >= 1 then maxlen else 1) && maxlen <= |before|
    ensures maxlen >= 1 ==> Put(before, line)[maxlen..] == before[maxlen..]
  {
    if maxlen >= 1 {
      PutInside(before, line, maxlen);
    }
  }

  // ---------- the buffered version ----------

  /** The static variables of the buffered reader, for one descriptor. */
  class Reader {
    const fd: Kernel
    const read_buf: array<byte>
    var read_cnt: int
    var read_ptr: nat

    constructor (fd: Kernel)
      ensures Valid() && fresh(read_buf) && this.fd == fd && Stream() == Items(fd.script)
    {
      this.fd := fd;
      read_buf := new byte[MAXLINE](_ => 0);
      read_cnt, read_ptr := 0, 0;
      new;
      Nil(Items(fd.script));
      assert Bytes(Buffered()) == [];
    }

    ghost predicate Valid()
      reads this, read_buf
    {
      read_buf.Length == MAXLINE && (read_cnt > 0 ==> read_ptr + read_cnt <= MAXLINE)
    }

    /** The bytes read from the kernel and not yet returned. */
    function Buffered(): seq<byte>
      requires Valid()
      reads this, read_buf
    {
      if read_cnt > 0 then read_buf[read_ptr..read_ptr + read_cnt] else []
    }

    /** What the callers of `readline` have yet to see. */
    function Stream(): seq<Item>
      requires Valid()
      reads this, read_buf, fd
    {
      Bytes(Buffered()) + Items(fd.script)
    }

    /** `read` into the buffer until it is not interrupted: 1 when bytes came, 0 or -1 otherwise. */
    method Refill() returns (rc: int)
      requires Valid() && read_cnt <= 0
      modifies this, fd, read_buf
      ensures Valid() && -1 <= rc <= 1 && (rc == 1 <==> read_cnt > 0) && (rc < 1 ==> read_cnt == rc)
      ensures if rc == 1 then Stream() == old(Stream()) else Got(old(Stream()), rc, 0, Stream())
    {
      ghost var items := Items(fd.script);
      NoBytes(Buffered(), items);
      while true
        invariant Valid() && read_cnt <= 0 && Items(fd.script) == items
        decreases |fd.script|
      {
        var r := fd.Read(read_buf, MAXLINE);
        match r {
          case Eintr =>
            read_cnt := -1;
          case Error =>
            read_cnt := -1;
            NoBytes(Buffered(), Items(fd.script));
            return -1;
          case Count(k) =>
            read_cnt := k;
            if k == 0 {
              NoBytes(Buffered(), Items(fd.script));
              return 0;
            }
            read_ptr := 0;
            assert Buffered() == read_buf[..k];
            return 1;
        }
      }
    }

    /** `my_read`: the next byte, from the buffer or from a refill of it. */
    method MyRead() returns (rc: int, c: byte)
      requires Valid()
      modifies this, fd, read_buf
      ensures Valid() && Got(old(Stream()), rc, c, Stream())
      ensures rc == 1 ==> read_cnt >= 0
      ensures rc == 0 ==> read_cnt == 0
      ensures rc == -1 ==> read_cnt == -1
    {
      if read_cnt <= 0 {
        rc := Refill();
        if rc < 1 {
          return rc, 0;
        }
      }
      rc := 1;
      c := TakeByte();
    }

    /** The oldest byte of the buffer. */
    method TakeByte() returns (c: byte)
      requires Valid() && read_cnt > 0
      modifies this
      ensures Valid() && read_cnt >= 0 && Got(old(Stream()), 1, c, Stream())
    {
      ghost var was := Buffered();
      TakeOne(was, Items(fd.script));
      OneLess(read_buf[..], read_ptr, read_cnt);
      read_cnt := read_cnt - 1;
      c := read_buf[read_ptr];
      read_ptr := read_ptr + 1;
      assert Buffered() == was[1..] && c == was[0];
    }

    /** One turn of the loop. */
    method OneTurn(vptr: array<byte>, ptr: nat, n: int, ghost maxlen: nat, ghost want: Line,
                   ghost stored: seq<byte>, ghost before: seq<byte>)
      returns (ended: bool, ret: int, ghost c: byte)
      requires Valid() && ptr + 1 < vptr.Length && vptr != read_buf && ptr == n - 1 && n < maxlen
      requires InLoop(Stream(), n, maxlen, stored, want) && Over(vptr[..], stored, before)
      modifies this, fd, read_buf, vptr
      ensures Valid() && (read_cnt >= 0 || (ended && ret == -1 == read_cnt))
      ensures ended ==>
                Delivered(before, vptr[..], want, ret, false) && want.rest == Stream() && (ret == -1 ==> read_cnt == -1)
      ensures !ended ==> InLoop(Stream(), n + 1, maxlen, stored + [c], want) && Over(vptr[..], stored + [c], before)
    {
      ghost var items := Stream();
      var rc, b := MyRead();
      c := b;
      ended, ret := StoreTurn(vptr, ptr, n, rc, b, items, maxlen, want, Stream(), stored, before);
    }

    /** `readline` over the buffer. */
    method ReadLineBuffered(vptr: array<byte>, maxlen: nat) returns (ret: int, pastEnd: bool)
      requires Valid() && maxlen <= vptr.Length && vptr != read_buf
      modifies this, fd, read_buf, vptr
      ensures Valid()
      ensures var line := ReadOne(old(Stream()), maxlen);
              Delivered(old(vptr[..]), vptr[..], line, ret, pastEnd) && Stream() == line.rest
      ensures maxlen >= 1 ==> vptr[maxlen..] == old(vptr[maxlen..])
      ensures ret == -1 ==> read_cnt == -1
      ensures ret != -1 && maxlen > 1 ==> read_cnt >= 0
      ensures maxlen <= 1 ==> read_cnt == old(read_cnt)
    {
      ghost var want, before := ReadOne(Stream(), maxlen), vptr[..];
      LoopWidth(Stream(), 1, maxlen, []);
      var ended, n;
      ghost var stored;
      ended, ret, n, stored := ReadOn(vptr, maxlen, want, before);
      if !ended {
        pastEnd := LastNul(vptr, n - 1, n, Stream(), maxlen, want, stored, before);
        ret := n;
      } else {
        pastEnd := false;
      }
      Untouched(before, want, maxlen);
    }

    /** The loop of `readline`. */
    method ReadOn(vptr: array<byte>, maxlen: nat, ghost want: Line, ghost before: seq<byte>)
      returns (ended: bool, ret: int, n: int, ghost stored: seq<byte>)
      requires Valid() && maxlen <= vptr.Length && vptr != read_buf && before == vptr[..]
      requires InLoop(Stream(), 1, maxlen, [], want)
      modifies this, fd, read_buf, vptr
      ensures Valid() && n >= 1
      ensures ended ==>
                Delivered(before, vptr[..], want, ret, false) && want.rest == Stream() && (ret == -1 ==> read_cnt == -1)
      ensures !ended ==> n >= maxlen && InLoop(Stream(), n, maxlen, stored, want) && Over(vptr[..], stored, before)
      ensures maxlen <= 1 ==> !ended && read_cnt == old(read_cnt)
      ensures maxlen > 1 && !(ended && ret == -1) ==> read_cnt >= 0
    {
      ended, ret, n, stored := false, 0, 1, [];
      while n < maxlen
        invariant if n == 1 then read_cnt == old(read_cnt) else maxlen > 1 && read_cnt >= 0
        invariant Valid() && n >= 1
        invariant InLoop(Stream(), n, maxlen, stored, want) && Over(vptr[..], stored, before)
        decreases maxlen - n
      {
        ghost var c;
        ended, ret, c := OneTurn(vptr, n - 1, n, maxlen, want, stored, before);
        if ended {
          return;
        }
        n, stored := n + 1, stored + [c];
      }
    }

    /**
     * `readlinebuf`: the count, and where the bytes are. They are exactly the bytes not yet
     * returned, except that after a failed `read` the count is -1.
     */
    method ReadLineBuf() returns (cnt: int, ptr: nat)
      requires Valid()
      ensures cnt == read_cnt
      ensures cnt >= 0 ==> cnt == |Buffered()|
      ensures cnt > 0 ==> ptr + cnt <= read_buf.Length && read_buf[ptr..ptr + cnt] == Buffered()
    {
      ptr := 0;
      if read_cnt != 0 {
        ptr := read_ptr;
      }
      cnt := read_cnt;
    }
  }

  lemma OneLess(buf: seq<byte>, ptr: nat, cnt: nat)
    requires 0 < cnt && ptr + cnt <= |buf|
    ensures buf[ptr..ptr + cnt][1..] == if cnt - 1 > 0 then buf[ptr + 1..ptr + 1 + (cnt - 1)] else []
  {
  }

  lemma NoBytes(buffered: seq<byte>, rest: seq<Item>)
    requires buffered == []
    ensures Bytes(buffered) + rest == rest
  {
  }

  lemma TakeOne(buffered: seq<byte>, rest: seq<Item>)
    requires buffered != []
    ensures Got(Bytes(buffered) + rest, 1, buffered[0], Bytes(buffered[1..]) + rest)
  {
    assert Bytes(buffered) == [Data(buffered[0])] + Bytes(buffered[1..]);
  }

  // ---------- the two agree on any sequence of calls ----------

  /** How the kernel cuts bytes into chunks, and where it is interrupted, cannot be observed. */
  lemma {:induction false} ItemsConcat(a: seq<Delivery>, b: seq<Delivery>)
    ensures Items(a + b) == Items(a) + Items(b)
    decreases |a|
  {
    if a == [] {
      Nil(b);
      Nil(Items(b));
    } else {
      ItemsConcat(a[1..], b);
      assert (a + b)[1..] == a[1..] + b;
      Assoc(Observed(a[0]), Items(a[1..]), Items(b));
    }
  }

  lemma ChunkingUnobservable(a: seq<Delivery>, x: byte, xs: seq<byte>, y: byte, ys: seq<byte>, b: seq<Delivery>)
    ensures Items(a + [Chunk(x, xs + [y] + ys)] + b) == Items(a + [Chunk(x, xs), Interrupted, Chunk(y, ys)] + b)
  {
    var one, three := [Chunk(x, xs + [y] + ys)], [Chunk(x, xs), Interrupted, Chunk(y, ys)];
    ItemsConcat(a + one, b);
    ItemsConcat(a, one);
    ItemsConcat(a + three, b);
    ItemsConcat(a, three);
    CutChunk(x, xs, y, ys);
  }

  lemma CutChunk(x: byte, xs: seq<byte>, y: byte, ys: seq<byte>)
    ensures Items([Chunk(x, xs + [y] + ys)]) == Items([Chunk(x, xs), Interrupted, Chunk(y, ys)])
  {
    OneDelivery(Chunk(x, xs + [y] + ys));
    OneDelivery(Chunk(y, ys));
    var rest := [Interrupted, Chunk(y, ys)];
    assert rest == [Interrupted] + [Chunk(y, ys)];
    ItemsConcat([Interrupted], [Chunk(y, ys)]);
    OneDelivery(Interrupted);
    Nil(Items([Chunk(y, ys)]));
    assert [Chunk(x, xs), Interrupted, Chunk(y, ys)] == [Chunk(x, xs)] + rest;
    ItemsConcat([Chunk(x, xs)], rest);
    OneDelivery(Chunk(x, xs));
    JoinBytes(x, xs, y, ys);
  }

  lemma OneDelivery(d: Delivery)
    ensures Items([d]) == Observed(d)
  {
    Nil(Observed(d));
  }

  lemma JoinBytes(x: byte, xs: seq<byte>, y: byte, ys: seq<byte>)
    ensures Bytes([x] + (xs + [y] + ys)) == Bytes([x] + xs) + Bytes([y] + ys)
  {
    assert [x] + (xs + [y] + ys) == ([x] + xs) + ([y] + ys);
  }

  /** The return values and the bytes stored are those of `lines`. */
  ghost predicate Matches(rets: seq<int>, stored: seq<seq<byte>>, lines: seq<Line>)
  {
    |rets| == |stored| == |lines| && forall k :: 0 <= k < |lines| ==> rets[k] == lines[k].ret && stored[k] == lines[k].stored
  }

  lemma MatchesMore(ret: int, now: seq<byte>, line: Line, rets: seq<int>, stored: seq<seq<byte>>, lines: seq<Line>)
    requires ret == line.ret && now == line.stored && Matches(rets, stored, lines)
    ensures Matches([ret] + rets, [now] + stored, [line] + lines)
  {
  }

  /** A fresh buffer for each call; what each call delivered. */
  method CallSlow(fd: Kernel, maxlens: seq<nat>) returns (rets: seq<int>, ghost stored: seq<seq<byte>>)
    modifies fd
    ensures var lines := Calls(Items(old(fd.script)), maxlens);
            Matches(rets, stored, lines)
    decreases |maxlens|
  {
    if maxlens == [] {
      return [], [];
    }
    var vptr := new byte[maxlens[0] + 1](_ => 0);
    ghost var line := ReadOne(Items(fd.script), maxlens[0]);
    var ret, pastEnd := ReadLineSlow(fd, vptr, maxlens[0]);
    ghost var now := vptr[..|line.stored|];
    rets, stored := CallSlow(fd, maxlens[1..]);
    MatchesMore(ret, now, line, rets, stored, Calls(line.rest, maxlens[1..]));
    rets, stored := [ret] + rets, [now] + stored;
  }

  method CallBuffered(reader: Reader, maxlens: seq<nat>) returns (rets: seq<int>, ghost stored: seq<seq<byte>>)
    requires reader.Valid()
    modifies reader, reader.fd, reader.read_buf
    ensures var lines := Calls(old(reader.Stream()), maxlens);
            Matches(rets, stored, lines)
    decreases |maxlens|
  {
    if maxlens == [] {
      return [], [];
    }
    var vptr := new byte[maxlens[0] + 1](_ => 0);
    ghost var line := ReadOne(reader.Stream(), maxlens[0]);
    var ret, pastEnd := reader.ReadLineBuffered(vptr, maxlens[0]);
    ghost var now := vptr[..|line.stored|];
    rets, stored := CallBuffered(reader, maxlens[1..]);
    MatchesMore(ret, now, line, rets, stored, Calls(line.rest, maxlens[1..]));
    rets, stored := [ret] + rets, [now] + stored;
  }

  /** Buffered calls on one descriptor and slow calls on another that will deliver the same. */
  method CallBoth(slow: Kernel, buffered: Kernel, maxlens: seq<nat>)
    returns (a: seq<int>, b: seq<int>, ghost x: seq<seq<byte>>, ghost y: seq<seq<byte>>)
    requires slow != buffered && Items(slow.script) == Items(buffered.script)
    modifies slow, buffered
    ensures a == b && x == y
    ensures Matches(a, x, Calls(Items(old(slow.script)), maxlens))
  {
    var reader := new Reader(buffered);
    a, x := CallSlow(slow, maxlens);
    b, y := CallBuffered(reader, maxlens);
    assert x == y;
  }
}
