/** `in_cksum`, the Internet checksum, on hosts of either byte order. */
module Checksum {
  import opened Prelude

  datatype Host = LittleEndian | BigEndian

  /** The 16-bit word a host loads from two bytes of memory. */
  function Load(h: Host, b0: byte, b1: byte): (w: nat)
    ensures w <= 0xffff
  {
    var first: int, second: int := b0, b1;
    if h.BigEndian? then first * 0x100 + second else second * 0x100 + first
  }

  /** The two bytes of memory a host stores a word in. */
  function Store(h: Host, w: nat): (b: seq<byte>)
    requires w <= 0xffff
    ensures |b| == 2 && Load(h, b[0], b[1]) == w
  {
    if h.BigEndian? then [w / 0x100, w % 0x100] else [w % 0x100, w / 0x100]
  }

  /** The sum of the words of `buf`; an odd last byte is the first byte of a word. */
  function Sum(h: Host, buf: seq<byte>): nat
  {
    if buf == [] then 0
    else if |buf| % 2 == 1 then Sum(h, buf[..|buf| - 1]) + Load(h, buf[|buf| - 1], 0)
    else Sum(h, buf[..|buf| - 2]) + Load(h, buf[|buf| - 2], buf[|buf| - 1])
  }

  /** One's-complement value of a sum: its residue modulo 65535, where only zero gives zero. */
  function Fold(x: nat): (v: nat)
    ensures v <= 0xffff && (v == 0 <==> x == 0)
    ensures x <= 0xffff ==> v == x
  {
    if x <= 0xffff then x else Fold(x - 0xffff)
  }

  /** What a `uint32_t` accumulator holds of a sum. */
  function Wrap32(x: nat): (v: nat)
    ensures v < 0x1_0000_0000
  {
    if x < 0x1_0000_0000 then x else Wrap32(x - 0x1_0000_0000)
  }

  function Cksum(h: Host, buf: seq<byte>): (v: nat)
    ensures v <= 0xffff
  {
    0xffff - Fold(Wrap32(Sum(h, buf)))
  }

  // ---------- arithmetic of Fold ----------

  lemma {:induction false} FoldMultiple(x: nat, k: nat)
    requires x > 0
    ensures Fold(x + k * 0xffff) == Fold(x)
  {
    if k > 0 {
      FoldMultiple(x, k - 1);
    }
  }

  /** Fold finds the multiple of 65535 to take away. */
  lemma {:induction false} FoldQuotient(x: nat) returns (k: nat)
    ensures x == Fold(x) + k * 0xffff
  {
    if x <= 0xffff {
      k := 0;
    } else {
      k := FoldQuotient(x - 0xffff);
      k := k + 1;
    }
  }

  /** Adding the high half to the low half, twice, is enough for any 32-bit sum. */
  lemma TwoFolds(sum: nat)
    requires sum < 0x1_0000_0000
    ensures var once := sum / 0x1_0000 + sum % 0x1_0000;
            (once + once / 0x1_0000) % 0x1_0000 == Fold(sum)
  {
    var hi, lo := sum / 0x1_0000, sum % 0x1_0000;
    var once := hi + lo;
    if once > 0 {
      FoldMultiple(once, hi);
      assert sum == once + hi * 0xffff;
    }
    FoldOnce(once);
  }

  lemma FoldOnce(once: nat)
    requires once <= 0x1_fffe
    ensures (once + once / 0x1_0000) % 0x1_0000 == Fold(once)
  {
    if once > 0xffff {
      assert Fold(once) == once - 0xffff;
      assert once / 0x1_0000 == 1;
    }
  }

  lemma {:induction false} WrapAdd(x: nat, w: nat)
    requires w <= 0xffff
    ensures Wrap32(Wrap32(x) + w) == Wrap32(x + w)
  {
    if x >= 0x1_0000_0000 {
      WrapAdd(x - 0x1_0000_0000, w);
    }
  }

  // ---------- in_cksum ----------

  method InCksum(h: Host, addr: seq<byte>) returns (answer: nat)
    ensures answer == Cksum(h, addr)
  {
    var nleft, sum, w := |addr|, 0, 0;
    answer := 0;
    while nleft > 1
      invariant 0 <= nleft <= |addr| && w % 2 == 0 && w + nleft == |addr|
      invariant sum == Wrap32(Sum(h, addr[..w]))
    {
      var word := Load(h, addr[w], addr[w + 1]);
      WordAdded(h, addr, w, word);
      sum := Wrap32(sum + word);
      w := w + 2;
      nleft := nleft - 2;
    }
    if nleft == 1 {
      answer := Load(h, addr[w], 0);
      OddAdded(h, addr, w, answer);
      sum := Wrap32(sum + answer);
    } else {
      SumAll(h, addr, w);
    }
    answer := AddCarries(sum);
  }

  lemma OddAdded(h: Host, addr: seq<byte>, w: nat, word: nat)
    requires w % 2 == 0 && w + 1 == |addr| && word == Load(h, addr[w], 0)
    ensures Wrap32(Wrap32(Sum(h, addr[..w])) + word) == Wrap32(Sum(h, addr))
  {
    SumOdd(h, addr, w);
    WrapAdd(Sum(h, addr[..w]), word);
  }

  lemma WordAdded(h: Host, addr: seq<byte>, w: nat, word: nat)
    requires w % 2 == 0 && w + 2 <= |addr| && word == Load(h, addr[w], addr[w + 1])
    ensures Wrap32(Wrap32(Sum(h, addr[..w])) + word) == Wrap32(Sum(h, addr[..w + 2]))
  {
    SumNext(h, addr, w);
    WrapAdd(Sum(h, addr[..w]), word);
  }

  /** The carries added back, twice, and the complement truncated to 16 bits. */
  method AddCarries(total: nat) returns (answer: nat)
    requires total < 0x1_0000_0000
    ensures answer == 0xffff - Fold(total)
  {
    TwoFolds(total);
    var sum := total / 0x1_0000 + total % 0x1_0000;
    sum := sum + sum / 0x1_0000;
    answer := 0xffff - sum % 0x1_0000;
  }

  lemma SumNext(h: Host, buf: seq<byte>, w: nat)
    requires w % 2 == 0 && w + 2 <= |buf|
    ensures Sum(h, buf[..w + 2]) == Sum(h, buf[..w]) + Load(h, buf[w], buf[w + 1])
  {
    assert buf[..w + 2][..w] == buf[..w];
  }

  lemma SumOdd(h: Host, buf: seq<byte>, w: nat)
    requires w % 2 == 0 && w + 1 == |buf|
    ensures Sum(h, buf) == Sum(h, buf[..w]) + Load(h, buf[w], 0)
  {
  }

  lemma SumAll(h: Host, buf: seq<byte>, w: nat)
    requires w == |buf|
    ensures Sum(h, buf[..w]) == Sum(h, buf)
  {
    assert buf[..w] == buf;
  }

  /** The accumulator does not overflow on an IP datagram, nor on one twice as long. */
  lemma NoOverflow(h: Host, buf: seq<byte>)
    requires |buf| <= 131074
    ensures Sum(h, buf) < 0x1_0000_0000
    ensures Cksum(h, buf) == 0xffff - Fold(Sum(h, buf))
  {
    SumBound(h, buf);
  }

  lemma {:induction false} SumBound(h: Host, buf: seq<byte>)
    ensures Sum(h, buf) <= 0xffff * ((|buf| + 1) / 2)
  {
    if buf != [] {
      SumBound(h, if |buf| % 2 == 1 then buf[..|buf| - 1] else buf[..|buf| - 2]);
    }
  }

  // ---------- a stored checksum verifies ----------

  /** `buf` with the word at the even offset `f` replaced. */
  function Put(h: Host, buf: seq<byte>, f: nat, w: nat): (r: seq<byte>)
    requires f + 2 <= |buf| && w <= 0xffff
    ensures |r| == |buf|
  {
    buf[..f] + Store(h, w) + buf[f + 2..]
  }

  lemma SumPut(h: Host, buf: seq<byte>, f: nat, w: nat)
    requires f % 2 == 0 && f + 2 <= |buf| && w <= 0xffff
    ensures Sum(h, Put(h, buf, f, w)) + Load(h, buf[f], buf[f + 1]) == Sum(h, buf) + w
  {
    PutReplaces(h, buf, f, w);
    SumReplaced(h, buf, Put(h, buf, f, w), f);
  }

  ghost predicate Replaced(buf: seq<byte>, r: seq<byte>, f: nat)
  {
    |r| == |buf| && forall k :: 0 <= k < |buf| && k != f && k != f + 1 ==> r[k] == buf[k]
  }

  lemma PutReplaces(h: Host, buf: seq<byte>, f: nat, w: nat)
    requires f + 2 <= |buf| && w <= 0xffff
    ensures var r := Put(h, buf, f, w); Replaced(buf, r, f) && Load(h, r[f], r[f + 1]) == w
  {
  }

  /** The last word of nonempty data, an odd byte padded. */
  function LastWord(h: Host, t: seq<byte>): nat
    requires 1 <= |t| <= 2
  {
    if |t| == 1 then Load(h, t[0], 0) else Load(h, t[0], t[1])
  }

  /** In network byte order the first byte of a word counts 256; the words of two parts add up. */
  lemma NetworkWord(a: byte, b: byte)
    ensures Sum(BigEndian, [a, b]) == 0x100 * (a as int) + (b as int)
  {
    assert [a, b][..0] == [];
  }

  /**
   * The checksum is the negative of the sum of the words modulo 65535; of the two that are congruent
   * to 0 it is 0, unless all the data is zero.
   */
  lemma NegatesTheSum(h: Host, buf: seq<byte>) returns (k: nat)
    requires |buf| <= 131074
    ensures Sum(h, buf) + Cksum(h, buf) == k * 0xffff
    ensures Cksum(h, buf) == 0xffff <==> Sum(h, buf) == 0
  {
    NoOverflow(h, buf);
    k := FoldQuotient(Sum(h, buf));
    k := k + 1;
  }

  /** An odd last byte counts as if a zero byte followed it (section 1 of RFC 1071). */
  lemma OddIsPadded(h: Host, buf: seq<byte>)
    requires |buf| % 2 == 1
    ensures Cksum(h, buf) == Cksum(h, buf + [0])
  {
    var n := |buf| - 1;
    SumLast(h, buf, n);
    SumLast(h, buf + [0], n);
    assert (buf + [0])[..n] == buf[..n];
  }

  lemma SumLast(h: Host, buf: seq<byte>, n: nat)
    requires n % 2 == 0 && n < |buf| <= n + 2
    ensures Sum(h, buf) == Sum(h, buf[..n]) + LastWord(h, buf[n..])
  {
  }

  lemma {:induction false} SumReplaced(h: Host, buf: seq<byte>, r: seq<byte>, f: nat)
    requires f % 2 == 0 && f + 2 <= |buf| && Replaced(buf, r, f)
    ensures Sum(h, r) + Load(h, buf[f], buf[f + 1]) == Sum(h, buf) + Load(h, r[f], r[f + 1])
    decreases |buf|
  {
    var n := if |buf| % 2 == 1 then |buf| - 1 else |buf| - 2;
    SumLast(h, buf, n);
    SumLast(h, r, n);
    ReplacedParts(buf, r, f, n);
    if f < n {
      SumReplaced(h, buf[..n], r[..n], f);
    }
  }

  /** The change is in the front part, or is the last word. */
  lemma ReplacedParts(buf: seq<byte>, r: seq<byte>, f: nat, n: nat)
    requires f % 2 == 0 && n % 2 == 0 && f + 2 <= |buf| && n < |buf| <= n + 2 && Replaced(buf, r, f)
    ensures f <= n
    ensures f < n ==> f + 2 <= n && Replaced(buf[..n], r[..n], f) && buf[n..] == r[n..]
    ensures f == n ==> buf[..n] == r[..n] && |buf| == n + 2
  {
  }

  /** Summed over data that holds its own checksum, everything cancels. */
  lemma {:induction false} FoldComplement(x: nat)
    ensures Fold(x + (0xffff - Fold(x))) == 0xffff
    ensures x > 0 ==> Fold(x) == 0xffff ==> Fold(x + 0xffff) == 0xffff
  {
    if x > 0xffff {
      FoldComplement(x - 0xffff);
    }
  }

  /** The checksum computed with its field zero, and stored there: the receiver's checksum is zero. */
  lemma StoredChecksumVerifies(h: Host, buf: seq<byte>, f: nat)
    requires f % 2 == 0 && f + 2 <= |buf| <= 131074 && buf[f] == 0 && buf[f + 1] == 0
    ensures Cksum(h, Put(h, buf, f, Cksum(h, buf))) == 0
  {
    var c := Cksum(h, buf);
    NoOverflow(h, buf);
    NoOverflow(h, Put(h, buf, f, c));
    SumPut(h, buf, f, c);
    FoldComplement(Sum(h, buf));
  }

  /** RFC 768: a computed zero is sent as 0xffff, and still verifies. */
  function UdpCksum(h: Host, buf: seq<byte>): (c: nat)
    ensures 0 < c <= 0xffff
  {
    if Cksum(h, buf) == 0 then 0xffff else Cksum(h, buf)
  }

  lemma UdpChecksumVerifies(h: Host, buf: seq<byte>, f: nat)
    requires f % 2 == 0 && f + 2 <= |buf| <= 131074 && buf[f] == 0 && buf[f + 1] == 0
    ensures Cksum(h, Put(h, buf, f, UdpCksum(h, buf))) == 0
  {
    if Cksum(h, buf) == 0 {
      NoOverflow(h, buf);
      NoOverflow(h, Put(h, buf, f, 0xffff));
      SumPut(h, buf, f, 0xffff);
      FoldComplement(Sum(h, buf));
    } else {
      StoredChecksumVerifies(h, buf, f);
    }
  }

  /**
   * Replacing one word of data that verifies goes unnoticed exactly when nothing changes in
   * one's complement: the same word, or one zero for the other where the rest is not all zero.
   */
  lemma WordChangeUnnoticedIff(h: Host, buf: seq<byte>, f: nat, w: nat)
    requires f % 2 == 0 && f + 2 <= |buf| <= 131074 && w <= 0xffff && Cksum(h, buf) == 0
    ensures var was := Load(h, buf[f], buf[f + 1]);
            Cksum(h, Put(h, buf, f, w)) == 0
            <==> w == was || (was == 0 && w == 0xffff) || (was == 0xffff && w == 0 && Sum(h, buf) > 0xffff)
  {
    var was, x := Load(h, buf[f], buf[f + 1]), Sum(h, buf);
    var r := Put(h, buf, f, w);
    NoOverflow(h, buf);
    NoOverflow(h, r);
    SumPut(h, buf, f, w);
    FoldMultiples(x);
    FoldMultiples(Sum(h, r));
    SmallDifference(x, Sum(h, r), was, w);
  }

  ghost predicate IsMultiple(x: nat)
  {
    exists k: nat :: x == k * 0xffff
  }

  lemma FoldMultiples(x: nat)
    ensures Fold(x) == 0xffff <==> x > 0 && IsMultiple(x)
  {
    var q := FoldQuotient(x);
    if Fold(x) == 0xffff {
      assert x == (q + 1) * 0xffff;
    }
    if k: nat :| x > 0 && x == k * 0xffff {
      MultipleFolds(k);
    }
  }

  lemma SmallDifference(x: nat, y: nat, was: nat, w: nat)
    requires x > 0 && IsMultiple(x) && y + was == x + w && w <= 0xffff && was <= x && was <= 0xffff
    ensures y > 0 && IsMultiple(y)
            <==> w == was || (was == 0 && w == 0xffff) || (was == 0xffff && w == 0 && x > 0xffff)
  {
    var k: nat :| x == k * 0xffff;
    assert w == 0xffff && was == 0 ==> y == (k + 1) * 0xffff;
    assert w == 0 && was == 0xffff ==> y == (k - 1) * 0xffff;
    if m: nat :| y == m * 0xffff {
      var d: int := m - k;
      assert w - was == d * 0xffff;
    }
  }

  lemma {:induction false} MultipleFolds(k: nat)
    requires k > 0
    ensures Fold(k * 0xffff) == 0xffff
  {
    FoldMultiple(0xffff, k - 1);
    assert 0xffff + (k - 1) * 0xffff == k * 0xffff;
  }

  // ---------- byte order ----------

  /** The sum of the second bytes of the words. */
  function Seconds(buf: seq<byte>): nat
  {
    if buf == [] then 0
    else if |buf| % 2 == 1 then Seconds(buf[..|buf| - 1])
    else Seconds(buf[..|buf| - 2]) + buf[|buf| - 1]
  }

  lemma {:induction false} SumsAgree(buf: seq<byte>)
    ensures Sum(BigEndian, buf) + 0xffff * Seconds(buf) == 0x100 * Sum(LittleEndian, buf)
  {
    if buf != [] {
      SumsAgree(if |buf| % 2 == 1 then buf[..|buf| - 1] else buf[..|buf| - 2]);
    }
  }

  function Swap(v: nat): (r: nat)
    requires v <= 0xffff
    ensures r <= 0xffff
  {
    v % 0x100 * 0x100 + v / 0x100
  }

  /** Multiplying by 256 swaps the bytes of a one's-complement value. */
  lemma FoldSwap(x: nat, y: nat, s: nat)
    requires y + 0xffff * s == 0x100 * x && (y == 0 <==> x == 0)
    ensures Fold(y) == Swap(Fold(x))
  {
    if x > 0 {
      var v := Fold(x);
      var k := FoldQuotient(x);
      var a := v / 0x100;
      assert 0x100 * v == Swap(v) + 0xffff * a;
      assert y + 0xffff * s == Swap(v) + 0xffff * (a + 0x100 * k);
      FoldMultiple(y, s);
      FoldMultiple(Swap(v), a + 0x100 * k);
    }
  }

  lemma {:induction false} SumPositive(buf: seq<byte>)
    ensures Sum(BigEndian, buf) == 0 <==> Sum(LittleEndian, buf) == 0
  {
    if buf != [] {
      SumPositive(if |buf| % 2 == 1 then buf[..|buf| - 1] else buf[..|buf| - 2]);
    }
  }

  /** The checksum bytes left in memory do not depend on the host's byte order. */
  lemma ByteOrderIndependent(buf: seq<byte>)
    requires |buf| <= 131074
    ensures Store(LittleEndian, Cksum(LittleEndian, buf)) == Store(BigEndian, Cksum(BigEndian, buf))
  {
    NoOverflow(LittleEndian, buf);
    NoOverflow(BigEndian, buf);
    SumsAgree(buf);
    SumPositive(buf);
    var x, y := Sum(LittleEndian, buf), Sum(BigEndian, buf);
    FoldSwap(x, y, Seconds(buf));
    ComplementSwap(Fold(x));
  }

  lemma ComplementSwap(v: nat)
    requires v <= 0xffff
    ensures Store(LittleEndian, 0xffff - v) == Store(BigEndian, 0xffff - Swap(v))
  {
    var a, b := v / 0x100, v % 0x100;
    HighLow(0xff - a, 0xff - b);
    HighLow(0xff - b, 0xff - a);
    assert 0xffff - v == (0xff - a) * 0x100 + (0xff - b);
    assert 0xffff - Swap(v) == (0xff - b) * 0x100 + (0xff - a);
  }

  lemma HighLow(a: nat, b: nat)
    requires b < 0x100
    ensures (a * 0x100 + b) / 0x100 == a && (a * 0x100 + b) % 0x100 == b
  {
  }
}
