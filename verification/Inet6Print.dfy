/** `inet_ntop6`: 16 bytes to IPv6 presentation text, and the round trip. */
module Inet6Print {
  import opened Prelude
  import opened Text
  import opened Inet4
  import opened Inet6Parse
  import opened Inet6Text

  // ---------- the text of an address ----------

  function Word(addr: seq<byte>, k: nat): (w: nat)
    requires |addr| == 16 && k < 8
    ensures w <= 0xffff
  {
    var high: int := addr[2 * k];
    high * 0x100 + addr[2 * k + 1]
  }

  function Words(addr: seq<byte>): (w: seq<nat>)
    requires |addr| == 16
    ensures |w| == 8 && forall k :: 0 <= k < 8 ==> w[k] == Word(addr, k)
  {
    seq(8, k requires 0 <= k < 8 => Word(addr, k))
  }

  /** A stretch of `len` zero words from `base`. */
  predicate ZeroRun(words: seq<nat>, base: int, len: int)
  {
    0 <= base && 1 <= len && base + len <= |words| && forall k :: base <= k < base + len ==> words[k] == 0
  }

  /** Section 4.2 of RFC 5952: the leftmost of the longest runs of at least two zero words, or none. */
  ghost predicate IsBest(words: seq<nat>, base: int, len: int)
  {
    if base == -1 then forall b, l :: ZeroRun(words, b, l) ==> l < 2
    else
      && ZeroRun(words, base, len) && len >= 2
      && forall b, l :: ZeroRun(words, b, l) ==> l <= len && (l == len ==> base <= b)
  }

  function Hexes(words: seq<nat>): (ts: seq<string>)
    ensures |ts| == |words|
  {
    if words == [] then [] else Hexes(words[..|words| - 1]) + [HexText(words[|words| - 1])]
  }

  /** An IPv4-compatible or IPv4-mapped address, whose last two words are written as a dotted quad. */
  predicate Encapsulated(words: seq<nat>, base: int, len: int)
    requires |words| == 8
  {
    base == 0 && (len == 6 || (len == 5 && words[5] == 0xffff))
  }

  /** What follows the best run. */
  function Right(addr: seq<byte>, base: int, len: int): Half
    requires |addr| == 16 && 0 <= base && 1 <= len && base + len <= 8
  {
    var words := Words(addr);
    if Encapsulated(words, base, len)
    then Half(Hexes(words[len..6]), Some(QuadText(addr[12..])))
    else Half(Hexes(words[base + len..]), None)
  }

  function Render(addr: seq<byte>, base: int, len: int): string
    requires |addr| == 16 && (base == -1 || (0 <= base && 1 <= len && base + len <= 8))
  {
    if base == -1 then Join(Hexes(Words(addr)), ':')
    else Join(Hexes(Words(addr)[..base]), ':') + "::" + HalfText(Right(addr, base, len))
  }

  /** The presentation text of `addr`. */
  ghost predicate IsText(addr: seq<byte>, s: string)
    requires |addr| == 16
  {
    exists base, len :: IsTextBy(addr, s, base, len)
  }

  ghost predicate IsTextBy(addr: seq<byte>, s: string, base: int, len: int)
    requires |addr| == 16
  {
    IsBest(Words(addr), base, len) && s == Render(addr, base, len)
  }

  lemma BestUnique(words: seq<nat>, b1: int, l1: int, b2: int, l2: int)
    requires IsBest(words, b1, l1) && IsBest(words, b2, l2)
    ensures b1 == b2 && (b1 != -1 ==> l1 == l2)
  {
    if b1 != -1 {
      assert ZeroRun(words, b1, l1);
    }
    if b2 != -1 {
      assert ZeroRun(words, b2, l2);
    }
  }

  /** An address has one text... */
  lemma TextUnique(addr: seq<byte>, s: string, t: string)
    requires |addr| == 16 && IsText(addr, s) && IsText(addr, t)
    ensures s == t
  {
    var b1, l1 :| IsTextBy(addr, s, b1, l1);
    var b2, l2 :| IsTextBy(addr, t, b2, l2);
    BestUnique(Words(addr), b1, l1, b2, l2);
  }

  // ---------- the text is RFC 4291 text for the address ----------

  lemma {:induction false} HexesBytes(addr: seq<byte>, a: nat, b: nat)
    requires |addr| == 16 && a <= b <= 8
    ensures Groups(Hexes(Words(addr)[a..b])) && GroupBytes(Hexes(Words(addr)[a..b])) == addr[2 * a..2 * b]
    decreases b - a
  {
    var w := Words(addr)[a..b];
    if a < b {
      HexesBytes(addr, a, b - 1);
      WordIsGroup(Word(addr, b - 1));
      WordBytes(addr, b - 1);
      HexesLast(Words(addr), a, b - 1);
      GroupBytesSnoc(Hexes(Words(addr)[a..b - 1]), HexText(Word(addr, b - 1)));
      SliceJoin(addr, 2 * a, 2 * (b - 1), 2 * b);
    }
  }

  lemma WordBytes(addr: seq<byte>, k: nat)
    requires |addr| == 16 && k < 8
    ensures TwoBytes(Word(addr, k)) == addr[2 * k..2 * (k + 1)]
  {
  }

  lemma HexesLast(words: seq<nat>, a: nat, b: nat)
    requires a <= b < |words|
    ensures Hexes(words[a..b + 1]) == Hexes(words[a..b]) + [HexText(words[b])]
  {
    assert words[a..b + 1][..b - a] == words[a..b];
  }

  lemma SliceJoin<T>(s: seq<T>, a: nat, b: nat, c: nat)
    requires a <= b <= c <= |s|
    ensures s[a..b] + s[b..c] == s[a..c]
  {
  }

  lemma SliceTail<T>(s: seq<T>, a: nat, b: nat)
    requires a <= b <= |s|
    ensures s[a..b] + s[b..] == s[a..]
  {
  }

  lemma WholeTail<T>(s: seq<T>, a: nat)
    requires a <= |s|
    ensures s[a..|s|] == s[a..] && s[0..a] == s[..a] && s[0..|s|] == s
  {
  }

  lemma WordIsGroup(w: nat)
    requires w <= 0xffff
    ensures IsGroup(HexText(w)) && HexValue(HexText(w)) == w && |HexText(w)| <= 4
  {
    HexTextValue(w);
    HexTextLength(w);
  }

  lemma RightBytes(addr: seq<byte>, base: int, len: int)
    requires |addr| == 16 && 0 <= base && 1 <= len && base + len <= 8
    ensures ValidHalf(Right(addr, base, len))
    ensures HalfBytes(Right(addr, base, len)) == addr[2 * (base + len)..]
  {
    var r := Right(addr, base, len);
    if Encapsulated(Words(addr), base, len) {
      RightQuad(addr, len);
      assert r == Half(Hexes(Words(addr)[len..6]), Some(QuadText(addr[12..])));
    } else {
      RightHexes(addr, base + len);
      assert r == Half(Hexes(Words(addr)[base + len..]), None);
    }
  }

  lemma RightQuad(addr: seq<byte>, len: nat)
    requires |addr| == 16 && len <= 6
    ensures var h := Half(Hexes(Words(addr)[len..6]), Some(QuadText(addr[12..])));
            ValidHalf(h) && HalfBytes(h) == addr[2 * len..]
  {
    HexesBytes(addr, len, 6);
    QuadRoundTrip(addr[12..]);
    SliceTail(addr, 2 * len, 12);
  }

  lemma LeftBytes(addr: seq<byte>, base: nat)
    requires |addr| == 16 && base <= 8
    ensures var ts := Hexes(Words(addr)[..base]);
            Groups(ts) && ShortTokens(ts) && GroupBytes(ts) == addr[..2 * base]
  {
    HexesBytes(addr, 0, base);
    WholeTail(Words(addr), base);
    WholeTail(addr, 2 * base);
    HexesShort(Words(addr)[..base]);
  }

  lemma RightHexes(addr: seq<byte>, end: nat)
    requires |addr| == 16 && end <= 8
    ensures var h := Half(Hexes(Words(addr)[end..]), None); ValidHalf(h) && HalfBytes(h) == addr[2 * end..]
  {
    HexesBytes(addr, end, 8);
    WholeTail(Words(addr), end);
    WholeTail(addr, 2 * end);
    Nil(addr[2 * end..]);
  }

  lemma {:induction false} HexesShort(words: seq<nat>)
    requires forall k :: 0 <= k < |words| ==> words[k] <= 0xffff
    ensures ShortTokens(Hexes(words))
  {
    if words != [] {
      HexesShort(words[..|words| - 1]);
      WordIsGroup(words[|words| - 1]);
      GroupIsHex(HexText(words[|words| - 1]));
    }
  }

  lemma OctetTextShort(n: byte)
    ensures '.' !in DecText(n) && |DecText(n)| <= 3
  {
    DecTextValue(n);
    DecTextLength(n);
  }

  lemma QuadTextShort(addr: seq<byte>)
    requires |addr| == 4
    ensures ShortToken(QuadText(addr))
  {
    OctetTextShort(addr[0]);
    OctetTextShort(addr[1]);
    OctetTextShort(addr[2]);
    OctetTextShort(addr[3]);
    DottedShort(DecText(addr[0]), DecText(addr[1]), DecText(addr[2]), DecText(addr[3]));
  }

  lemma DottedShort(a: string, b: string, c: string, d: string)
    requires '.' !in a && '.' !in b && '.' !in c && '.' !in d
    requires |a| <= 3 && |b| <= 3 && |c| <= 3 && |d| <= 3
    ensures ShortToken(Dotted(a, b, c, d))
  {
    DottedIsJoin(a, b, c, d);
    assert Free([a, b, c, d], '.');
    SplitJoin([a, b, c, d], '.');
  }

  /** What follows the run has groups of at most four digits and octets of at most three. */
  lemma RightShort(addr: seq<byte>, base: int, len: int)
    requires |addr| == 16 && 0 <= base && 1 <= len && base + len <= 8
    ensures ShortTokens(Tokens6(Right(addr, base, len)))
  {
    var words := Words(addr);
    if Encapsulated(words, base, len) {
      HexesShort(words[len..6]);
      QuadTextShort(addr[12..]);
    } else {
      HexesShort(words[base + len..]);
    }
  }

  lemma ZeroBytes(addr: seq<byte>, base: int, len: int)
    requires |addr| == 16 && ZeroRun(Words(addr), base, len)
    ensures addr == addr[..2 * base] + Zeros(2 * len) + addr[2 * (base + len)..]
  {
    forall j | 2 * base <= j < 2 * (base + len) ensures addr[j] == 0 {
      assert Words(addr)[j / 2] == 0;
      assert addr[2 * (j / 2)] == 0 && addr[2 * (j / 2) + 1] == 0;
      assert j == 2 * (j / 2) || j == 2 * (j / 2) + 1;
    }
    assert addr[2 * base..2 * (base + len)] == Zeros(2 * len);
    SliceTail(addr, 2 * base, 2 * (base + len));
    SliceTail(addr, 0, 2 * base);
    WholeTail(addr, 2 * base);
    Assoc(addr[..2 * base], Zeros(2 * len), addr[2 * (base + len)..]);
  }

  lemma TextIsRfcText(addr: seq<byte>, s: string)
    requires |addr| == 16 && IsText(addr, s)
    ensures IsRfcText(s, addr)
  {
    var base, len :| IsTextBy(addr, s, base, len);
    if base == -1 {
      FullIsRfcText(addr);
    } else {
      CompressedIsRfcText(addr, s, base, len);
    }
  }

  lemma FullIsRfcText(addr: seq<byte>)
    requires |addr| == 16
    ensures IsRfcText(Join(Hexes(Words(addr)), ':'), addr)
  {
    var words := Words(addr);
    RightHexes(addr, 0);
    WholeTail(words, 0);
    WholeTail(addr, 0);
    assert words[0..] == words && addr[0..] == addr;
    Nil(Hexes(words));
    var h := Half(Hexes(words), None);
    HexesShort(words);
    assert HalfText(h) == Join(Hexes(words), ':');
    assert IsFull(HalfText(h), addr, h);
  }

  lemma Compressed(s: string, addr: seq<byte>, left: seq<string>, right: Half)
    requires IsCompressed(s, addr, left, right)
    ensures IsRfcText(s, addr)
  {
  }

  lemma CompressedIsRfcText(addr: seq<byte>, s: string, base: int, len: int)
    requires |addr| == 16 && IsTextBy(addr, s, base, len) && base != -1
    ensures IsRfcText(s, addr)
  {
    LeftBytes(addr, base);
    RightBytes(addr, base, len);
    RightShort(addr, base, len);
    ZeroBytes(addr, base, len);
    Compressed(s, addr, Hexes(Words(addr)[..base]), Right(addr, base, len));
  }

  /** The round trip: what is printed parses back to the same 16 bytes. */
  lemma RoundTrip(addr: seq<byte>, s: string)
    requires |addr| == 16 && IsText(addr, s)
    ensures Pton6(s) == Some(addr)
  {
    TextIsRfcText(addr, s);
    RfcTextParses(s, addr);
  }

  /** ... and different addresses have different texts. */
  lemma TextInjective(a: seq<byte>, b: seq<byte>, s: string)
    requires |a| == 16 && |b| == 16 && IsText(a, s) && IsText(b, s)
    ensures a == b
  {
    RoundTrip(a, s);
    RoundTrip(b, s);
  }

  // ---------- finding the run ----------

  /**
   * The state of the search after `i` words: the current run, if any, ends at `i` and
   * cannot be extended to the left; `best` is the leftmost longest run that ended before it.
   */
  ghost predicate Searching(words: seq<nat>, i: int, bestBase: int, bestLen: int, curBase: int, curLen: int)
  {
    && 0 <= i <= |words|
    && var start := if curBase == -1 then i else curBase;
       && 0 <= start <= i
       && (start == 0 || words[start - 1] != 0)
       && (curBase != -1 ==> ZeroRun(words, curBase, curLen) && curBase + curLen == i)
       && Leftmost(words, start, bestBase, bestLen)
  }

  /** `base`, `len` is the leftmost longest run among those within the first `n` words. */
  ghost predicate Leftmost(words: seq<nat>, n: int, base: int, len: int)
    requires 0 <= n <= |words|
  {
    if base == -1 then forall b, l :: ZeroRun(words, b, l) ==> b + l > n
    else
      && ZeroRun(words, base, len) && base + len <= n
      && forall b, l :: ZeroRun(words, b, l) && b + l <= n ==> l <= len && (l == len ==> base <= b)
  }

  /** Closing the current run: it replaces the best one when strictly longer. */
  lemma CloseRun(words: seq<nat>, i: int, bestBase: int, bestLen: int, curBase: int, curLen: int)
    requires Searching(words, i, bestBase, bestLen, curBase, curLen) && curBase != -1
    requires i == |words| || words[i] != 0
    ensures if bestBase == -1 || curLen > bestLen then Leftmost(words, i, curBase, curLen)
            else Leftmost(words, i, bestBase, bestLen)
  {
    assert curBase > 0 ==> words[curBase - 1] != 0;
  }

  /** A nonzero word outside a run ends nothing. */
  lemma SkipNonzero(words: seq<nat>, i: int, bestBase: int, bestLen: int)
    requires 0 <= i < |words| && Leftmost(words, i, bestBase, bestLen) && words[i] != 0
    ensures Leftmost(words, i + 1, bestBase, bestLen)
  {
    assert words[i] != 0;
  }

  method FindBest(words: seq<nat>) returns (bestBase: int, bestLen: int)
    requires |words| == 8
    ensures IsBest(words, bestBase, bestLen)
  {
    var curBase, curLen := -1, 0;
    bestBase, bestLen := -1, 0;
    var i := 0;
    while i < 8
      invariant Searching(words, i, bestBase, bestLen, curBase, curLen)
    {
      if words[i] == 0 {
        if curBase == -1 {
          curBase, curLen := i, 1;
        } else {
          curLen := curLen + 1;
        }
      } else {
        if curBase != -1 {
          CloseRun(words, i, bestBase, bestLen, curBase, curLen);
          if bestBase == -1 || curLen > bestLen {
            bestBase, bestLen := curBase, curLen;
          }
          curBase := -1;
        }
        SkipNonzero(words, i, bestBase, bestLen);
      }
      i := i + 1;
    }
    if curBase != -1 {
      CloseRun(words, i, bestBase, bestLen, curBase, curLen);
      if bestBase == -1 || curLen > bestLen {
        bestBase, bestLen := curBase, curLen;
      }
    }
    if bestBase != -1 && bestLen < 2 {
      bestBase := -1;
    }
  }

  // ---------- formatting ----------

  /** The bytes of the address gathered into words; the shifted bytes share no bits. */
  method GatherWords(src: seq<byte>) returns (words: array<nat>)
    requires |src| == 16
    ensures fresh(words) && words[..] == Words(src)
  {
    words := new nat[8](_ => 0);
    var i := 0;
    while i < 16
      invariant 0 <= i <= 16
      invariant forall k :: 0 <= k < i / 2 ==> words[k] == Word(src, k)
      invariant forall k :: i / 2 <= k < 8 ==> words[k] == if 2 * k < i then 0x100 * (src[2 * k] as int) else 0
    {
      var high: int := src[i];
      words[i / 2] := words[i / 2] + if i % 2 == 0 then high * 0x100 else high;
      i := i + 1;
    }
  }

  /** The characters before word `i`, the `::` opened at `base` and closed by the next word. */
  function Shape(words: seq<nat>, base: int, len: int, i: nat): string
    requires i <= |words| && (base == -1 || (0 <= base && 1 <= len && base + len <= |words|))
  {
    if base == -1 || i <= base then Join(Hexes(words[..i]), ':')
    else if i <= base + len then Join(Hexes(words[..base]), ':') + ":"
    else Join(Hexes(words[..base]), ':') + "::" + Join(Hexes(words[base + len..i]), ':')
  }

  /** One more printed word outside the run. */
  lemma TextStep(words: seq<nat>, base: int, len: int, i: nat)
    requires i < |words| && (base == -1 || (0 <= base && 1 <= len && base + len <= |words|))
    requires base == -1 || i < base || base + len <= i
    ensures Shape(words, base, len, i + 1)
            == Shape(words, base, len, i) + (if i != 0 then ":" else "") + HexText(words[i])
  {
    var from := if base == -1 || i < base then 0 else base + len;
    HexesStep(words, from, i);
    if from == 0 {
      WholeTail(words, i);
      WholeTail(words, i + 1);
    } else {
      AfterRun(Join(Hexes(words[..base]), ':'), Join(Hexes(words[from..i]), ':'), HexText(words[i]));
    }
  }

  lemma HexesStep(words: seq<nat>, from: nat, i: nat)
    requires from <= i < |words|
    ensures Join(Hexes(words[from..i + 1]), ':')
            == Join(Hexes(words[from..i]), ':') + (if i > from then ":" else "") + HexText(words[i])
  {
    HexesLast(words, from, i);
    JoinSnoc(Hexes(words[from..i]), HexText(words[i]), ':');
    if from == i {
      assert Hexes(words[from..i]) == [];
      assert "" + "" + HexText(words[i]) == HexText(words[i]);
    }
  }

  lemma AfterRun(l: string, r: string, h: string)
    ensures l + "::" + ("" + "" + h) == (l + ":") + ":" + h
    ensures l + "::" + (r + ":" + h) == (l + "::" + r) + ":" + h
  {
  }

  /** The text when the loop runs to the end, with the colon for a trailing run. */
  lemma TextWhole(addr: seq<byte>, base: int, len: int)
    requires |addr| == 16 && (base == -1 || (0 <= base && 1 <= len && base + len <= 8))
    requires base != -1 ==> !Encapsulated(Words(addr), base, len)
    ensures Render(addr, base, len)
            == Shape(Words(addr), base, len, 8) + (if base != -1 && base + len == 8 then ":" else "")
  {
    WholeTail(Words(addr), 8);
    if base == -1 {
      Nil(Join(Hexes(Words(addr)), ':'));
    } else {
      TextWithRun(addr, base, len);
    }
  }

  lemma TextWithRun(addr: seq<byte>, base: int, len: int)
    requires |addr| == 16 && 0 <= base && 1 <= len && base + len <= 8 && !Encapsulated(Words(addr), base, len)
    ensures Render(addr, base, len) == Shape(Words(addr), base, len, 8) + (if base + len == 8 then ":" else "")
  {
    var words := Words(addr);
    WholeTail(words, base + len);
    Nil(Hexes(words[base + len..]));
    var l := Join(Hexes(words[..base]), ':');
    if base + len == 8 {
      assert HalfText(Right(addr, base, len)) == "";
      assert l + "::" + "" == (l + ":") + ":";
    } else {
      Nil(l + "::" + Join(Hexes(words[base + len..]), ':'));
    }
  }

  /** The text when the loop stops at an encapsulated IPv4 address. */
  lemma TextQuad(addr: seq<byte>, base: int, len: int)
    requires |addr| == 16 && 0 <= base && 1 <= len && base + len <= 8 && Encapsulated(Words(addr), base, len)
    ensures Render(addr, base, len) == Shape(Words(addr), base, len, 6) + ":" + QuadText(addr[12..])
    ensures |Shape(Words(addr), base, len, 6)| <= 6
  {
    var words, q := Words(addr), QuadText(addr[12..]);
    assert Hexes(words[..0]) == [];
    EncapsulatedHexes(words, len);
    JoinSnoc(Hexes(words[len..6]), q, ':');
    ShapeWithQuad(HexText(0xffff), q);
  }

  /** What is between the run and the dotted quad: nothing, or the group ffff. */
  lemma EncapsulatedHexes(words: seq<nat>, len: int)
    requires |words| == 8 && Encapsulated(words, 0, len)
    ensures Hexes(words[len..6]) == if len == 6 then [] else [HexText(0xffff)]
    ensures |HexText(0xffff)| <= 4
  {
    WordIsGroup(0xffff);
    if len == 5 {
      HexesLast(words, 5, 5);
    }
  }

  lemma ShapeWithQuad(h: string, q: string)
    ensures "" + "::" + q == ("" + ":") + ":" + q
    ensures "" + "::" + (h + [':'] + q) == ("" + "::" + h) + ":" + q
  {
  }

  /** What the loop writes for word `k`. */
  function WordText(words: seq<nat>, base: int, len: int, k: nat): string
    requires k < |words|
  {
    if base != -1 && base <= k < base + len then (if k == base then ":" else "")
    else (if k != 0 then ":" else "") + HexText(words[k])
  }

  function WrittenTo(words: seq<nat>, base: int, len: int, i: nat): string
    requires i <= |words|
  {
    if i == 0 then "" else WrittenTo(words, base, len, i - 1) + WordText(words, base, len, i - 1)
  }

  /** Word by word the loop writes the text's shape, four digits and a colon at most for each. */
  lemma {:induction false} WrittenShape(addr: seq<byte>, base: int, len: int, i: nat)
    requires |addr| == 16 && i <= 8 && (base == -1 || (0 <= base && 1 <= len && base + len <= 8))
    ensures WrittenTo(Words(addr), base, len, i) == Shape(Words(addr), base, len, i)
    ensures |WrittenTo(Words(addr), base, len, i)| <= 5 * i
  {
    if i > 0 {
      WrittenShape(addr, base, len, i - 1);
      ShapeStep(Words(addr), base, len, i - 1);
      WordIsGroup(Word(addr, i - 1));
    }
  }

  lemma ShapeStep(words: seq<nat>, base: int, len: int, i: nat)
    requires i < |words| && (base == -1 || (0 <= base && 1 <= len && base + len <= |words|))
    ensures Shape(words, base, len, i + 1) == Shape(words, base, len, i) + WordText(words, base, len, i)
  {
    var s := Shape(words, base, len, i);
    if base == -1 || i < base || base + len <= i {
      TextStep(words, base, len, i);
      Assoc(s, if i != 0 then ":" else "", HexText(words[i]));
    } else if i != base {
      Nil(s);
    }
  }

  lemma WrittenNext(words: seq<nat>, base: int, len: int, i: nat)
    requires i < |words|
    ensures var before := WrittenTo(words, base, len, i);
            WrittenTo(words, base, len, i + 1) ==
              if base != -1 && base <= i < base + len then (if i == base then before + ":" else before)
              else (if i != 0 then before + ":" else before) + HexText(words[i])
  {
    var before := WrittenTo(words, base, len, i);
    Nil(before);
    Assoc(before, if i != 0 then ":" else "", HexText(words[i]));
  }

  /** One more character. */
  method PutChar(tmp: array<char>, tp: nat, c: char)
    requires tp < tmp.Length
    modifies tmp
    ensures tmp[..tp + 1] == old(tmp[..tp]) + [c]
  {
    tmp[tp] := c;
  }

  /** A colon, if one is due. */
  method PutColon(tmp: array<char>, tp: nat, due: bool) returns (end: nat)
    requires tp < tmp.Length
    modifies tmp
    ensures end == (if due then tp + 1 else tp) && tmp[..end] == (if due then old(tmp[..tp]) + ":" else old(tmp[..tp]))
  {
    end := tp;
    if due {
      PutChar(tmp, tp, ':');
      end := tp + 1;
    }
  }

  /** A word in hexadecimal. */
  method PutHex(tmp: array<char>, tp: nat, w: nat) returns (end: nat)
    requires w <= 0xffff && tp + 5 <= tmp.Length
    modifies tmp
    ensures end <= tp + 4 && tmp[..end] == old(tmp[..tp]) + HexText(w)
  {
    WordIsGroup(w);
    StrCpy(tmp, tp, HexText(w));
    end := tp + |HexText(w)|;
  }

  /** The last four bytes as a dotted quad, in what is left of the buffer. */
  method PutQuad(src: seq<byte>, base: int, len: int, tmp: array<char>, tp: nat) returns (end: nat)
    requires |src| == 16 && 0 <= base && 1 <= len && base + len <= 8 && Encapsulated(Words(src), base, len)
    requires tmp.Length == 46 && tp < 46 && tmp[..tp] == Shape(Words(src), base, len, 6) + ":"
    modifies tmp
    ensures end < 46 && tmp[..end] == Render(src, base, len)
  {
    TextQuad(src, base, len);
    QuadRoundTrip(src[12..]);
    var r := InetNtop4(src[12..], tmp, tp, 46 - tp);
    assert r.Text?;
    end := tp + |QuadText(src[12..])|;
  }

  /**
   * The formatting loop, from `best` to the text in `tmp[..tp]`, with its terminating NUL
   * not yet stored; it never runs over the 46 characters of the buffer.
   */
  method Format(src: seq<byte>, words: seq<nat>, bestBase: int, bestLen: int, tmp: array<char>) returns (tp: nat)
    requires |src| == 16 && words == Words(src) && tmp.Length == 46
    requires bestBase == -1 || (0 <= bestBase && 1 <= bestLen && bestBase + bestLen <= 8)
    modifies tmp
    ensures tp < 46 && tmp[..tp] == Render(src, bestBase, bestLen)
  {
    tp := 0;
    var i := 0;
    while i < 8
      invariant 0 <= i <= 8
      invariant bestBase != -1 && i > 6 ==> !Encapsulated(words, bestBase, bestLen)
      invariant tp <= 5 * i && tmp[..tp] == WrittenTo(words, bestBase, bestLen, i)
    {
      WrittenNext(words, bestBase, bestLen, i);
      if bestBase != -1 && i >= bestBase && i < bestBase + bestLen {
        tp := PutColon(tmp, tp, i == bestBase);
      } else {
        tp := PutColon(tmp, tp, i != 0);
        if i == 6 && bestBase == 0 && (bestLen == 6 || (bestLen == 5 && words[5] == 0xffff)) {
          WrittenShape(src, bestBase, bestLen, 6);
          tp := PutQuad(src, bestBase, bestLen, tmp, tp);
          return;
        }
        tp := PutHex(tmp, tp, words[i]);
      }
      i := i + 1;
    }
    WrittenShape(src, bestBase, bestLen, 8);
    tp := LastColon(src, bestBase, bestLen, tmp, tp);
  }

  /** A run at the end is closed by a second colon. */
  method LastColon(src: seq<byte>, bestBase: int, bestLen: int, tmp: array<char>, tp: nat) returns (end: nat)
    requires |src| == 16 && tmp.Length == 46 && tp <= 40
    requires bestBase == -1 || (0 <= bestBase && 1 <= bestLen && bestBase + bestLen <= 8)
    requires bestBase != -1 ==> !Encapsulated(Words(src), bestBase, bestLen)
    requires tmp[..tp] == Shape(Words(src), bestBase, bestLen, 8)
    modifies tmp
    ensures end < 46 && tmp[..end] == Render(src, bestBase, bestLen)
  {
    TextWhole(src, bestBase, bestLen);
    end := PutColon(tmp, tp, bestBase != -1 && bestBase + bestLen == 8);
  }

  /** The text of `src` and its NUL in a buffer of their own. */
  method TextOf(src: seq<byte>) returns (tmp: array<char>, tp: nat)
    requires |src| == 16
    ensures fresh(tmp) && 0 < tp <= 46 && tp <= tmp.Length && IsText(src, tmp[..tp - 1]) && tmp[tp - 1] == '\0'
  {
    var w := GatherWords(src);
    var bestBase, bestLen := FindBest(w[..]);
    tmp := new char[46];
    tp := Format(src, w[..], bestBase, bestLen, tmp);
    assert IsTextBy(src, tmp[..tp], bestBase, bestLen);
    PutChar(tmp, tp, '\0');
    tp := tp + 1;
    assert tmp[..tp][..tp - 1] == tmp[..tp - 1];
  }

  /**
   * `inet_ntop6`: the presentation text and its NUL at `dst` when they fit `size`, otherwise NULL;
   * nothing else of `dst` is touched, and nothing at or behind `size`.
   */
  method InetNtop6(src: seq<byte>, dst: array<char>, size: nat) returns (ok: bool, ghost text: string)
    requires |src| == 16 && size <= dst.Length
    modifies dst
    ensures IsText(src, text) && |text| <= 45
    ensures ok <==> |text| + 1 <= size
    ensures dst[..] == if ok then text + ['\0'] + old(dst[|text| + 1..]) else old(dst[..])
    ensures dst[size..] == old(dst[size..])
  {
    var tmp, tp := TextOf(src);
    text := tmp[..tp - 1];
    ok := tp <= size;
    if ok {
      StrCpy(dst, 0, tmp[..tp - 1]);
    }
  }
}
