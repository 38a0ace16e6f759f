/** `inet_aton`, the older and laxer parser, with the wrap-around of its `u_long`. */
module InetAton {
  import opened Prelude
  import opened Text
  import opened Inet4

  /** The number of values of a `u_long`, which has at least 32 bits. */
  type UlongSize = n: nat | n >= 0x1_0000_0000 witness 0x1_0000_0000

  /** Unsigned arithmetic: the value kept of `n`. */
  function Wrap(n: nat, ulong: UlongSize): (kept: nat)
    ensures kept < ulong
  {
    if n < ulong then n else Wrap(n - ulong, ulong)
  }

  /** A part as `inet_aton` sees it: a possibly empty digit run whose value wraps. */
  predicate IsPart(p: string, ulong: UlongSize)
  {
    AllDec(p) && Wrap(DecValue(p), ulong) <= 255
  }

  predicate AreParts(parts: seq<string>, ulong: UlongSize)
  {
    forall k :: 0 <= k < |parts| ==> IsPart(parts[k], ulong)
  }

  function Packed(parts: seq<string>, ulong: UlongSize): nat
  {
    if parts == [] then 0
    else Packed(parts[..|parts| - 1], ulong) * 256 + Wrap(DecValue(parts[|parts| - 1]), ulong)
  }

  /** `addr << 8 * octets`. */
  function Shifted(addr: nat, octets: nat): nat
    requires octets <= 3
  {
    match octets
    case 0 => addr
    case 1 => addr * 0x100
    case 2 => addr * 0x1_0000
    case _ => addr * 0x100_0000
  }

  function Parts(s: string): (parts: seq<string>)
    ensures |parts| >= 1
  {
    var p := Split(s, '.');
    p.closed + [p.last]
  }

  /** One to four parts; the parts given are the high-order octets. */
  function Aton(s: string, ulong: UlongSize): (addr: Option<nat>)
  {
    var parts := Parts(s);
    if |parts| <= 4 && AreParts(parts, ulong)
    then Some(Shifted(Packed(parts, ulong), 4 - |parts|))
    else None
  }

  function NetworkOrder(addr: nat): seq<byte>
    requires addr < 0x1_0000_0000
  {
    [addr / 0x100_0000, addr / 0x1_0000 % 0x100, addr / 0x100 % 0x100, addr % 0x100]
  }

  lemma {:induction false} PackedBound(parts: seq<string>, ulong: UlongSize)
    requires |parts| <= 4 && AreParts(parts, ulong)
    ensures Packed(parts, ulong) < match |parts| case 0 => 1 case 1 => 0x100 case 2 => 0x1_0000
                                   case 3 => 0x100_0000 case _ => 0x1_0000_0000
  {
    if parts != [] {
      PackedBound(parts[..|parts| - 1], ulong);
      assert IsPart(parts[|parts| - 1], ulong);
    }
  }

  lemma PackedShort(parts: seq<string>, ulong: UlongSize)
    requires |parts| <= 3 && AreParts(parts, ulong)
    ensures Packed(parts, ulong) < 0x100_0000
  {
    PackedBound(parts, ulong);
  }

  lemma PackedShifted(parts: seq<string>, ulong: UlongSize)
    requires 1 <= |parts| <= 4 && AreParts(parts, ulong)
    ensures Shifted(Packed(parts, ulong), 4 - |parts|) < 0x1_0000_0000
  {
    PackedBound(parts, ulong);
  }

  /** Every dotted quad is accepted, with the address `inet_pton4` gives it. */
  lemma AtonAcceptsQuads(s: string, ulong: UlongSize)
    requires Quad(s).Some?
    ensures Aton(s, ulong).Some? && Aton(s, ulong).value < 0x1_0000_0000
    ensures NetworkOrder(Aton(s, ulong).value) == Quad(s).value
  {
    var p := Parts(s);
    forall k | 0 <= k < 4 ensures IsPart(p[k], ulong) && Wrap(DecValue(p[k]), ulong) == DecValue(p[k]) {
      assert IsOctet(p[k]);
      WrapSmall(DecValue(p[k]), ulong);
    }
    PackedFour(p, ulong);
    NetworkOrderFour(Octet(p[0]), Octet(p[1]), Octet(p[2]), Octet(p[3]));
  }

  lemma WrapSmall(n: nat, ulong: UlongSize)
    ensures n < 0x1_0000_0000 ==> Wrap(n, ulong) == n
  {
  }

  lemma PackedFour(p: seq<string>, ulong: UlongSize)
    requires |p| == 4
    ensures Packed(p, ulong) ==
            ((Wrap(DecValue(p[0]), ulong) * 256 + Wrap(DecValue(p[1]), ulong)) * 256
             + Wrap(DecValue(p[2]), ulong)) * 256 + Wrap(DecValue(p[3]), ulong)
  {
    assert p == [] + [p[0]] + [p[1]] + [p[2]] + [p[3]];
    PackedSnoc([], p[0], ulong);
    PackedSnoc([] + [p[0]], p[1], ulong);
    PackedSnoc([] + [p[0]] + [p[1]], p[2], ulong);
    PackedSnoc([] + [p[0]] + [p[1]] + [p[2]], p[3], ulong);
  }

  lemma NetworkOrderFour(a: byte, b: byte, c: byte, d: byte)
    ensures NetworkOrder(((a * 256 + b) * 256 + c) * 256 + d) == [a, b, c, d]
  {
    var w: int, x: int, y: int, z: int := a, b, c, d;
    LowOctet(w, x);
    LowOctet(w * 256 + x, y);
    LowOctet((w * 256 + x) * 256 + y, z);
    HighOctets(((w * 256 + x) * 256 + y) * 256 + z);
  }

  lemma LowOctet(high: nat, low: nat)
    requires low < 256
    ensures (high * 256 + low) / 256 == high && (high * 256 + low) % 256 == low
  {
  }

  lemma HighOctets(v: nat)
    ensures v / 0x1_0000 == v / 256 / 256 && v / 0x100_0000 == v / 256 / 256 / 256
  {
  }

  lemma QuadByParts(s: string)
    ensures Quad(s).Some? <==> |Parts(s)| == 4 && AllOctets(Parts(s))
  {
    var p := Split(s, '.');
    if |p.closed| == 3 {
      var four := Parts(s);
      assert four == [p.closed[0], p.closed[1], p.closed[2], p.last];
      if AllOctets(four) {
        assert IsOctet(four[0]) && IsOctet(four[1]) && IsOctet(four[2]) && IsOctet(four[3]);
      }
    }
  }

  ghost predicate AllOctets(parts: seq<string>)
  {
    forall k :: 0 <= k < |parts| ==> IsOctet(parts[k])
  }

  lemma PartIsOctetIff(p: string, ulong: UlongSize)
    requires IsPart(p, ulong)
    ensures p != "" && DecValue(p) < ulong <==> IsOctet(p)
  {
  }

  /**
   * The two parsers accept the same text exactly when it has four parts, none of them
   * empty and none of them longer than the `u_long` can hold.
   */
  lemma AtonStricterIff(s: string, ulong: UlongSize)
    requires Aton(s, ulong).Some?
    ensures var p := Parts(s);
            Quad(s).Some? <==>
            |p| == 4 && forall k :: 0 <= k < 4 ==> p[k] != "" && DecValue(p[k]) < ulong
  {
    var p := Parts(s);
    QuadByParts(s);
    assert AreParts(p, ulong);
    forall k | 0 <= k < |p| ensures p[k] != "" && DecValue(p[k]) < ulong <==> IsOctet(p[k]) {
      PartIsOctetIff(p[k], ulong);
    }
  }

  /** At most 255 once whole multiples of the size of the `u_long` are taken away. */
  ghost predicate Small(n: nat, ulong: UlongSize)
  {
    exists q: nat, r: nat :: IsRest(n, q, r, ulong)
  }

  ghost predicate IsRest(n: nat, q: nat, r: nat, ulong: UlongSize)
  {
    r <= 255 && n == r + q * ulong
  }

  lemma {:induction false} WrapTakesAway(n: nat, ulong: UlongSize) returns (q: nat)
    ensures n == Wrap(n, ulong) + q * ulong
  {
    if n < ulong {
      q := 0;
    } else {
      q := WrapTakesAway(n - ulong, ulong);
      q := q + 1;
    }
  }

  lemma SmallIff(n: nat, ulong: UlongSize)
    ensures Small(n, ulong) <==> Wrap(n, ulong) <= 255
  {
    if q: nat, r: nat :| IsRest(n, q, r, ulong) {
      WrapMultiple(r, q, ulong);
    }
    var q := WrapTakesAway(n, ulong);
    assert Wrap(n, ulong) <= 255 ==> IsRest(n, q, Wrap(n, ulong), ulong);
  }

  /** The texts accepted: at most four runs of digits, empty ones included, each at most 255 once wrapped. */
  lemma AtonGrammar(s: string, ulong: UlongSize)
    ensures Aton(s, ulong).Some? <==>
            |Parts(s)| <= 4 && forall k :: 0 <= k < |Parts(s)| ==> AllDec(Parts(s)[k]) && Small(DecValue(Parts(s)[k]), ulong)
    ensures Join(Parts(s), '.') == s && Free(Parts(s), '.')
  {
    forall k | 0 <= k < |Parts(s)|
      ensures IsPart(Parts(s)[k], ulong) <==> AllDec(Parts(s)[k]) && Small(DecValue(Parts(s)[k]), ulong)
    {
      SmallIff(DecValue(Parts(s)[k]), ulong);
    }
    JoinSplit(s, '.');
    PiecesFree(s, '.');
  }

  /** The octets of a text of one to four parts, in order. */
  function Octets(parts: seq<string>): (b: seq<byte>)
    requires forall k :: 0 <= k < |parts| ==> IsOctet(parts[k])
    ensures |b| == |parts|
  {
    seq(|parts|, k requires 0 <= k < |parts| => Octet(parts[k]))
  }

  /** Fewer than four parts are the first octets of the address, the others are zero. */
  lemma AtonPads(parts: seq<string>, ulong: UlongSize)
    requires 1 <= |parts| <= 4 && forall k :: 0 <= k < |parts| ==> IsOctet(parts[k])
    ensures var a := Aton(Join(parts, '.'), ulong);
            a.Some? && a.value < 0x1_0000_0000 && NetworkOrder(a.value) == Octets(parts) + Zeros(4 - |parts|)
  {
    OctetsAreParts(parts, ulong);
    PartsOfJoin(parts);
    AtonOfParts(Join(parts, '.'), parts, ulong);
    PackedInOrder(parts, Octets(parts), ulong);
  }

  lemma AtonOfParts(s: string, parts: seq<string>, ulong: UlongSize)
    requires Parts(s) == parts && |parts| <= 4 && AreParts(parts, ulong)
    ensures Aton(s, ulong) == Some(Shifted(Packed(parts, ulong), 4 - |parts|))
  {
  }

  lemma PackedInOrder(parts: seq<string>, b: seq<byte>, ulong: UlongSize)
    requires 1 <= |parts| <= 4 && |b| == |parts|
    requires forall k :: 0 <= k < |parts| ==> Wrap(DecValue(parts[k]), ulong) == b[k]
    ensures var v := Shifted(Packed(parts, ulong), 4 - |parts|);
            v < 0x1_0000_0000 && NetworkOrder(v) == b + Zeros(4 - |b|)
  {
    var w: int, x: int, y: int, z: int :=
      b[0], if |b| > 1 then b[1] else 0, if |b| > 2 then b[2] else 0, if |b| > 3 then b[3] else 0;
    PackedFew(parts, ulong);
    NetworkOrderFour(w, x, y, z);
    assert b + Zeros(4 - |b|) == [w, x, y, z];
  }

  /** One to four parts, packed and shifted. */
  lemma PackedFew(p: seq<string>, ulong: UlongSize)
    requires 1 <= |p| <= 4
    ensures var v: int, w: int, x: int, y: int := PartValue(p, 0, ulong), PartValue(p, 1, ulong), PartValue(p, 2, ulong), PartValue(p, 3, ulong);
            Shifted(Packed(p, ulong), 4 - |p|) == ((v * 256 + w) * 256 + x) * 256 + y
  {
    if |p| == 1 {
      PackedOne(p, ulong);
    } else if |p| == 2 {
      PackedTwo(p, ulong);
    } else if |p| == 3 {
      PackedThree(p, ulong);
    } else {
      PackedFour(p, ulong);
    }
  }

  lemma PackedOne(p: seq<string>, ulong: UlongSize)
    requires |p| == 1
    ensures Packed(p, ulong) == PartValue(p, 0, ulong)
  {
    PackedSnoc([], p[0], ulong);
    assert p == [] + [p[0]];
  }

  lemma PackedTwo(p: seq<string>, ulong: UlongSize)
    requires |p| == 2
    ensures Packed(p, ulong) == PartValue(p, 0, ulong) * 256 + PartValue(p, 1, ulong)
  {
    PackedOne(p[..1], ulong);
    PackedSnoc(p[..1], p[1], ulong);
    assert p == p[..1] + [p[1]];
  }

  lemma PackedThree(p: seq<string>, ulong: UlongSize)
    requires |p| == 3
    ensures Packed(p, ulong)
            == (PartValue(p, 0, ulong) * 256 + PartValue(p, 1, ulong)) * 256 + PartValue(p, 2, ulong)
  {
    PackedTwo(p[..2], ulong);
    PackedSnoc(p[..2], p[2], ulong);
    assert p == p[..2] + [p[2]];
  }

  function PartValue(p: seq<string>, k: nat, ulong: UlongSize): nat
  {
    if k < |p| then Wrap(DecValue(p[k]), ulong) else 0
  }

  lemma OctetsAreParts(parts: seq<string>, ulong: UlongSize)
    requires forall k :: 0 <= k < |parts| ==> IsOctet(parts[k])
    ensures AreParts(parts, ulong)
    ensures forall k :: 0 <= k < |parts| ==> Wrap(DecValue(parts[k]), ulong) == Octets(parts)[k]
  {
    forall k | 0 <= k < |parts|
      ensures IsPart(parts[k], ulong) && Wrap(DecValue(parts[k]), ulong) == Octets(parts)[k]
    {
      assert IsOctet(parts[k]);
      WrapSmall(DecValue(parts[k]), ulong);
    }
  }

  lemma PartsOfJoin(parts: seq<string>)
    requires parts != [] && forall k :: 0 <= k < |parts| ==> IsOctet(parts[k])
    ensures Parts(Join(parts, '.')) == parts
  {
    assert Free(parts, '.');
    SplitJoin(parts, '.');
    FrontLast(parts);
  }

  lemma WrapOver(ulong: UlongSize)
    ensures Wrap(ulong + 1, ulong) == 1
  {
  }

  lemma SinglePart(s: string, ulong: UlongSize)
    requires IsPart(s, ulong)
    ensures Aton(s, ulong) == Some(Wrap(DecValue(s), ulong) * 0x100_0000)
  {
    PackedSnoc([], s, ulong);
    SplitFree(s, '.');
    var parts := Parts(s);
    assert parts == [s];
  }

  /** A part above 255 can be accepted: the number 2^w + 1 wraps to 1. */
  lemma AtonWraps(ulong: UlongSize)
    ensures var s := DecText(ulong + 1);
            AllDec(s) && DecValue(s) > 255 && Aton(s, ulong) == Some(0x100_0000)
  {
    DecTextValue(ulong + 1);
    WrapOver(ulong);
    SinglePart(DecText(ulong + 1), ulong);
  }

  /** Wrapping every step is wrapping once. */
  lemma {:induction false} WrapStep(v: nat, d: nat, ulong: UlongSize)
    ensures Wrap(Wrap(v, ulong) * 10 + d, ulong) == Wrap(v * 10 + d, ulong)
  {
    if v >= ulong {
      var u := v - ulong;
      WrapStep(u, d, ulong);
      WrapMultiple(u * 10 + d, 10, ulong);
      assert v * 10 + d == (u * 10 + d) + 10 * ulong;
    }
  }

  lemma {:induction false} WrapMultiple(n: nat, k: nat, ulong: UlongSize)
    ensures Wrap(n + k * ulong, ulong) == Wrap(n, ulong)
  {
    if k > 0 {
      WrapMultiple(n, k - 1, ulong);
      assert n + k * ulong == (n + (k - 1) * ulong) + ulong;
    }
  }

  ghost predicate Scanned(done: string, acc: int, addr: int, dots: int, ulong: UlongSize)
  {
    var p := Split(done, '.');
    && dots == |p.closed| <= 3
    && AreParts(p.closed, ulong)
    && addr == Packed(p.closed, ulong)
    && AllDec(p.last)
    && acc == Wrap(DecValue(p.last), ulong)
  }

  lemma AccStep(last: string, c: char, ulong: UlongSize)
    ensures Wrap(Wrap(DecValue(last), ulong) * 10 + HexDigit(c), ulong) == Wrap(DecValue(last + [c]), ulong)
  {
    WrapStep(DecValue(last), HexDigit(c), ulong);
    ValueSnoc(last, c);
  }

  lemma ScanRead(s: string, i: int, acc: int, acc': int, addr: int, dots: int, ulong: UlongSize)
    requires 0 <= i < |s| && Scanned(s[..i], acc, addr, dots, ulong) && IsDec(s[i])
    requires acc' == Wrap(DecValue(Split(s[..i], '.').last + [s[i]]), ulong)
    ensures Scanned(s[..i + 1], acc', addr, dots, ulong)
  {
    SplitNext(s, i, '.');
    DecSnoc(Split(s[..i], '.').last, s[i]);
  }

  lemma DecSnoc(t: string, c: char)
    requires AllDec(t) && IsDec(c)
    ensures AllDec(t + [c])
  {
  }

  lemma ScanDigit(s: string, i: int, acc: int, addr: int, dots: int, ulong: UlongSize)
    requires 0 <= i < |s| && Scanned(s[..i], acc, addr, dots, ulong) && IsDec(s[i])
    ensures Scanned(s[..i + 1], Wrap(acc * 10 + HexDigit(s[i]), ulong), addr, dots, ulong)
  {
    AccStep(Split(s[..i], '.').last, s[i], ulong);
    ScanRead(s, i, acc, Wrap(acc * 10 + HexDigit(s[i]), ulong), addr, dots, ulong);
  }

  lemma PackedSnoc(closed: seq<string>, last: string, ulong: UlongSize)
    ensures Packed(closed + [last], ulong) == Packed(closed, ulong) * 256 + Wrap(DecValue(last), ulong)
  {
    assert (closed + [last])[..|closed|] == closed;
  }

  lemma PartsSnoc(closed: seq<string>, last: string, ulong: UlongSize)
    requires AreParts(closed, ulong) && IsPart(last, ulong)
    ensures AreParts(closed + [last], ulong)
  {
  }

  /** Another part; `w` is its value. */
  lemma PartClosed(closed: seq<string>, last: string, w: nat, ulong: UlongSize)
    requires |closed| <= 3 && AreParts(closed, ulong) && IsPart(last, ulong)
    requires w == Wrap(DecValue(last), ulong)
    ensures AreParts(closed + [last], ulong)
    ensures Packed(closed + [last], ulong) == Wrap(Packed(closed, ulong) * 256 + w, ulong)
  {
    PartsSnoc(closed, last, ulong);
    PackedSnoc(closed, last, ulong);
    PackedShort(closed, ulong);
    WrapOctet(Packed(closed, ulong), w, ulong);
  }

  lemma WrapOctet(a: nat, w: nat, ulong: UlongSize)
    requires a < 0x100_0000 && w <= 255
    ensures Wrap(a * 256 + w, ulong) == a * 256 + w
  {
  }

  lemma DotClosed(s: string, i: int, acc: int, addr: int, dots: int, ulong: UlongSize)
    requires 0 <= i < |s| && Scanned(s[..i], acc, addr, dots, ulong) && s[i] == '.' && dots < 3 && acc <= 255
    ensures Scanned(s[..i + 1], 0, Wrap(addr * 256 + acc, ulong), dots + 1, ulong)
  {
    var p := Split(s[..i], '.');
    SplitNext(s, i, '.');
    PartClosed(p.closed, p.last, acc, ulong);
    NewPart(s[..i + 1], p.closed + [p.last], ulong);
  }

  lemma NewPart(done: string, closed: seq<string>, ulong: UlongSize)
    requires Split(done, '.') == Pieces(closed, "") && |closed| <= 3 && AreParts(closed, ulong)
    ensures Scanned(done, 0, Packed(closed, ulong), |closed|, ulong)
  {
  }

  lemma DotRejected(s: string, i: int, acc: int, addr: int, dots: int, ulong: UlongSize)
    requires 0 <= i < |s| && Scanned(s[..i], acc, addr, dots, ulong) && s[i] == '.' && (dots >= 3 || acc > 255)
    ensures Aton(s, ulong) == None
  {
    SplitNext(s, i, '.');
    assert Split(s[..i + 1], '.').closed[dots] == Split(s[..i], '.').last;
    HopelessRejects(s, i + 1, ulong);
  }

  lemma ScanDot(s: string, i: int, acc: int, addr: int, dots: int, ulong: UlongSize)
    requires 0 <= i < |s| && Scanned(s[..i], acc, addr, dots, ulong) && s[i] == '.'
    ensures if dots < 3 && acc <= 255
            then Scanned(s[..i + 1], 0, Wrap(addr * 256 + acc, ulong), dots + 1, ulong)
            else Aton(s, ulong) == None
  {
    if dots < 3 && acc <= 255 {
      DotClosed(s, i, acc, addr, dots, ulong);
    } else {
      DotRejected(s, i, acc, addr, dots, ulong);
    }
  }

  ghost predicate ScannedAll(s: string, addr: int, dots: int, ulong: UlongSize)
  {
    dots == |Parts(s)| - 1 <= 3 && AreParts(Parts(s), ulong) && addr == Packed(Parts(s), ulong)
  }

  lemma LastClosed(s: string, closed: seq<string>, last: string, w: nat, ulong: UlongSize)
    requires Parts(s) == closed + [last] && |closed| <= 3 && AreParts(closed, ulong)
    requires IsPart(last, ulong) && w == Wrap(DecValue(last), ulong)
    ensures ScannedAll(s, Wrap(Packed(closed, ulong) * 256 + w, ulong), |closed|, ulong)
  {
    PartClosed(closed, last, w, ulong);
  }

  lemma BadPartRejects(s: string, closed: seq<string>, last: string, ulong: UlongSize)
    requires Parts(s) == closed + [last] && !IsPart(last, ulong)
    ensures Aton(s, ulong) == None
  {
    assert Parts(s)[|closed|] == last;
  }

  lemma ScanNul(s: string, acc: int, addr: int, dots: int, ulong: UlongSize)
    requires Scanned(s, acc, addr, dots, ulong)
    ensures if acc <= 255 then ScannedAll(s, Wrap(addr * 256 + acc, ulong), dots, ulong)
            else Aton(s, ulong) == None
  {
    var p := Split(s, '.');
    if acc <= 255 {
      LastClosed(s, p.closed, p.last, acc, ulong);
    } else {
      BadPartRejects(s, p.closed, p.last, ulong);
    }
  }

  lemma ScanResult(s: string, addr: int, dots: int, ulong: UlongSize)
    requires ScannedAll(s, addr, dots, ulong)
    ensures Aton(s, ulong) == Some(Shifted(addr, 3 - dots)) && Shifted(addr, 3 - dots) < 0x1_0000_0000
  {
    PackedShifted(Parts(s), ulong);
  }

  /** No continuation of a text whose pieces so far are `p` is accepted. */
  ghost predicate Hopeless(p: Pieces, ulong: UlongSize)
  {
    || |p.closed| > 3
    || (exists k :: 0 <= k < |p.closed| && !IsPart(p.closed[k], ulong))
    || !AllDec(p.last)
  }

  lemma HopelessRejects(s: string, i: nat, ulong: UlongSize)
    requires i <= |s| && Hopeless(Split(s[..i], '.'), ulong)
    ensures Aton(s, ulong) == None
  {
    var p, w := Split(s[..i], '.'), Split(s, '.');
    SplitTake(s, i, '.');
    if k :| 0 <= k < |p.closed| && !IsPart(p.closed[k], ulong) {
      assert Parts(s)[k] == p.closed[k];
    } else if !AllDec(p.last) {
      var m :| 0 <= m < |p.last| && !IsDec(p.last[m]);
      var whole := Piece(w, |p.closed|);
      assert whole[m] == p.last[m];
      assert Parts(s)[|p.closed|] == whole;
    }
  }

  lemma ScanForeign(s: string, i: nat, ulong: UlongSize)
    requires i < |s| && !IsDec(s[i]) && s[i] != '.'
    ensures Aton(s, ulong) == None
  {
    SplitNext(s, i, '.');
    var last := Split(s[..i + 1], '.').last;
    assert last[|last| - 1] == s[i];
    HopelessRejects(s, i + 1, ulong);
  }

  /** `inet_aton`: the four bytes of `s_addr` for a return of 1, None for 0. */
  method InetAton(cp: cstring, ulong: UlongSize) returns (sAddr: Option<seq<byte>>)
    ensures sAddr.Some? <==> Aton(cp, ulong).Some?
    ensures sAddr.Some? ==> Aton(cp, ulong).value < 0x1_0000_0000
                            && sAddr.value == NetworkOrder(Aton(cp, ulong).value)
  {
    var dots, acc, addr := 0, 0, 0;
    var i := 0;
    var more := true;
    while more
      invariant 0 <= i <= |cp|
      invariant more ==> Scanned(cp[..i], acc, addr, dots, ulong)
      invariant !more ==> ScannedAll(cp, addr, dots, ulong)
      decreases more, |cp| - i
    {
      var cc := if i < |cp| then cp[i] else '\0';
      if IsDec(cc) {
        ScanDigit(cp, i, acc, addr, dots, ulong);
        acc := Wrap(acc * 10 + HexDigit(cc), ulong);
      } else if cc == '.' || cc == '\0' {
        if cc == '.' {
          ScanDot(cp, i, acc, addr, dots, ulong);
          dots := dots + 1;
          if dots > 3 {
            return None;
          }
        } else {
          assert cp[..i] == cp;
          ScanNul(cp, acc, addr, dots, ulong);
        }
        if acc > 255 {
          return None;
        }
        addr := Wrap(addr * 256 + acc, ulong);
        acc := 0;
      } else {
        ScanForeign(cp, i, ulong);
        return None;
      }
      if cc == '\0' {
        more := false;
      } else {
        i := i + 1;
      }
    }
    ScanResult(cp, addr, dots, ulong);
    if dots < 3 {
      addr := Shifted(addr, 3 - dots);
    }
    return Some(NetworkOrder(addr));
  }
}
