/** The text `inet_ntop6` chooses, in terms of the bytes and of the characters alone. */
module Inet6Canonical {
  import opened Prelude
  import opened Text
  import opened Inet4
  import opened Inet6Parse
  import opened Inet6Text
  import opened Inet6Language
  import opened Inet6Print

  // ---------- the dotted quad ----------

  /** An IPv4-mapped address: ten zero bytes and two of ones before the IPv4 address. */
  predicate Mapped(addr: seq<byte>)
    requires |addr| == 16
  {
    addr[..10] == Zeros(10) && addr[10..12] == [0xff, 0xff]
  }

  /** An IPv4-compatible address: twelve zero bytes, and an IPv4 address of at least 0.1.0.0. */
  predicate Compatible(addr: seq<byte>)
    requires |addr| == 16
  {
    addr[..10] == Zeros(10) && addr[10..12] == [0, 0] && addr[12..14] != [0, 0]
  }

  lemma WordBytesZero(addr: seq<byte>, k: nat)
    requires |addr| == 16 && k < 8
    ensures Words(addr)[k] == 0 <==> addr[2 * k] == 0 && addr[2 * k + 1] == 0
    ensures Words(addr)[k] == 0xffff <==> addr[2 * k] == 0xff && addr[2 * k + 1] == 0xff
  {
    var high: int, low: int := addr[2 * k], addr[2 * k + 1];
    assert Words(addr)[k] == high * 0x100 + low;
  }

  lemma FiveZeroWords(addr: seq<byte>)
    requires |addr| == 16
    ensures addr[..10] == Zeros(10) <==> forall k :: 0 <= k < 5 ==> Words(addr)[k] == 0
  {
    if forall k :: 0 <= k < 5 ==> Words(addr)[k] == 0 {
      forall j | 0 <= j < 10 ensures addr[j] == 0 {
        WordBytesZero(addr, j / 2);
        assert j == 2 * (j / 2) || j == 2 * (j / 2) + 1;
      }
    }
    if addr[..10] == Zeros(10) {
      forall k | 0 <= k < 5 ensures Words(addr)[k] == 0 {
        WordBytesZero(addr, k);
        assert addr[..10][2 * k] == 0 && addr[..10][2 * k + 1] == 0;
      }
    }
  }

  /** The bytes of words 5 and 6. */
  lemma MiddleWords(addr: seq<byte>)
    requires |addr| == 16
    ensures addr[10..12] == [0xff, 0xff] <==> Words(addr)[5] == 0xffff
    ensures addr[10..12] == [0, 0] <==> Words(addr)[5] == 0
    ensures addr[12..14] == [0, 0] <==> Words(addr)[6] == 0
  {
    WordBytesZero(addr, 5);
    WordBytesZero(addr, 6);
    assert addr[10..12] == [addr[10], addr[11]] && addr[12..14] == [addr[12], addr[13]];
  }

  /** Which addresses have the run that calls for a dotted quad. */
  lemma BestOfQuad(words: seq<nat>, base: int, len: int)
    requires |words| == 8 && IsBest(words, base, len)
    ensures (base == 0 && len == 5 && words[5] == 0xffff)
            <==> (forall k :: 0 <= k < 5 ==> words[k] == 0) && words[5] == 0xffff
    ensures (base == 0 && len == 6)
            <==> (forall k :: 0 <= k < 5 ==> words[k] == 0) && words[5] == 0 && words[6] != 0
  {
    if (forall k :: 0 <= k < 5 ==> words[k] == 0) && words[5] == 0xffff {
      assert ZeroRun(words, 0, 5);
      assert IsBest(words, 0, 5) by {
        forall b, l | ZeroRun(words, b, l) ensures l <= 5 && (l == 5 ==> 0 <= b) {
          assert b + l <= 5 || b >= 6;
        }
      }
      BestUnique(words, base, len, 0, 5);
    }
    if (forall k :: 0 <= k < 5 ==> words[k] == 0) && words[5] == 0 && words[6] != 0 {
      assert ZeroRun(words, 0, 6);
      assert IsBest(words, 0, 6) by {
        forall b, l | ZeroRun(words, b, l) ensures l <= 6 && (l == 6 ==> 0 <= b) {
          assert b + l <= 6 || b >= 7;
        }
      }
      BestUnique(words, base, len, 0, 6);
    }
    if base == 0 && len == 6 && words[6] == 0 {
      assert ZeroRun(words, 0, 7);
    }
  }

  lemma EncapsulatedIff(addr: seq<byte>, base: int, len: int)
    requires |addr| == 16 && IsBest(Words(addr), base, len)
    ensures base == 0 && len == 5 && Words(addr)[5] == 0xffff <==> Mapped(addr)
    ensures base == 0 && len == 6 <==> Compatible(addr)
  {
    FiveZeroWords(addr);
    MiddleWords(addr);
    BestOfQuad(Words(addr), base, len);
  }

  /** How the text of an address comes about: its halves, and whether a `::` is between them. */
  function FormOf(addr: seq<byte>, base: int, len: int): Form
    requires |addr| == 16 && (base == -1 || (0 <= base && 1 <= len && base + len <= 8))
  {
    if base == -1 then Form([], Half(Hexes(Words(addr)), None), false, false)
    else Form(Hexes(Words(addr)[..base]), Right(addr, base, len), true, false)
  }

  lemma FormOfText(addr: seq<byte>, s: string, base: int, len: int)
    requires |addr| == 16 && IsTextBy(addr, s, base, len)
    ensures ValidForm(FormOf(addr, base, len)) && Text6(FormOf(addr, base, len)) == s
    ensures base != -1 ==> |HalfBytes(Right(addr, base, len))| == 2 * (8 - base - len)
  {
    Nil(s);
    if base == -1 {
      Nil(Hexes(Words(addr)));
      RightHexes(addr, 0);
      WholeTail(Words(addr), 0);
      assert Words(addr)[0..] == Words(addr);
    } else {
      LeftBytes(addr, base);
      RightBytes(addr, base, len);
    }
  }

  lemma FfffText()
    ensures HexText(0xffff) == "ffff"
  {
    HexTextStep(0xffff);
    HexTextStep(0xfff);
    HexTextStep(0xff);
  }

  lemma HexTextStep(n: nat)
    requires n >= 16
    ensures HexText(n) == HexText(n / 16) + [DigitChar(n % 16)]
  {
  }

  /** The text of an encapsulated address. */
  lemma QuadForm(addr: seq<byte>, len: int)
    requires |addr| == 16 && Encapsulated(Words(addr), 0, len)
    ensures Render(addr, 0, len) == (if len == 6 then "::" else "::ffff:") + QuadText(addr[12..])
  {
    var words, q := Words(addr), QuadText(addr[12..]);
    EncapsulatedHexes(words, len);
    FfffText();
    assert Hexes(words[..0]) == [];
    JoinSnoc(Hexes(words[len..6]), q, ':');
    QuadPrefixes(q);
  }

  lemma QuadPrefixes(q: string)
    ensures "" + "::" + q == "::" + q
    ensures "" + "::" + ("ffff" + [':'] + q) == "::ffff:" + q
  {
  }

  lemma QuadHasDot(q: string)
    requires Quad(q).Some?
    ensures '.' in q
  {
    QuadShape(q);
  }

  /**
   * The last four bytes are written as a dotted quad exactly for IPv4-mapped and IPv4-compatible
   * addresses, behind `::ffff:` and `::`; no other text has a dot.
   */
  lemma DottedQuadIff(addr: seq<byte>, s: string)
    requires |addr| == 16 && IsText(addr, s)
    ensures '.' in s <==> Mapped(addr) || Compatible(addr)
    ensures Mapped(addr) ==> s == "::ffff:" + QuadText(addr[12..])
    ensures Compatible(addr) ==> s == "::" + QuadText(addr[12..])
  {
    var base, len :| IsTextBy(addr, s, base, len);
    EncapsulatedIff(addr, base, len);
    if Mapped(addr) || Compatible(addr) {
      QuadForm(addr, len);
      QuadRoundTrip(addr[12..]);
      QuadHasDot(QuadText(addr[12..]));
    } else {
      FormOfText(addr, s, base, len);
      NoDots(FormOf(addr, base, len));
    }
  }

  // ---------- section 4 of RFC 5952 ----------

  /** Lower case, and no zeros in front of a group. */
  lemma {:induction false} HexesCanonical(words: seq<nat>)
    ensures forall t :: t in Hexes(words) ==> t != "" && (|t| > 1 ==> t[0] != '0')
    ensures forall t :: t in Hexes(words) ==> NoCapitals(t)
  {
    if words != [] {
      HexesCanonical(words[..|words| - 1]);
      HexTextValue(words[|words| - 1]);
    }
  }

  ghost predicate Canonical(t: string)
  {
    |t| > 1 && '.' !in t ==> t[0] != '0'
  }

  lemma RightCanonical(addr: seq<byte>, base: int, len: int)
    requires |addr| == 16 && 0 <= base && 1 <= len && base + len <= 8
    ensures forall t :: t in Tokens6(Right(addr, base, len)) ==> Canonical(t)
  {
    var words := Words(addr);
    if Encapsulated(words, base, len) {
      HexesCanonical(words[len..6]);
      QuadRoundTrip(addr[12..]);
      QuadHasDot(QuadText(addr[12..]));
    } else {
      HexesCanonical(words[base + len..]);
    }
  }

  lemma FormCanonical(addr: seq<byte>, base: int, len: int)
    requires |addr| == 16 && (base == -1 || (0 <= base && 1 <= len && base + len <= 8))
    ensures var f := FormOf(addr, base, len);
            forall t :: t in f.left || t in Tokens6(f.right) ==> Canonical(t)
  {
    if base == -1 {
      HexesCanonical(Words(addr));
      Nil(Hexes(Words(addr)));
    } else {
      HexesCanonical(Words(addr)[..base]);
      RightCanonical(addr, base, len);
    }
  }

  lemma InFormTokens(f: Form, t: string)
    requires t in FormTokens(f) && t != ""
    ensures t in f.left || t in Tokens6(f.right)
  {
  }

  /** No group is written with zeros in front. */
  lemma NoLeadingZeros(addr: seq<byte>, s: string)
    requires |addr| == 16 && IsText(addr, s)
    ensures forall t :: t in Toks(s) ==> Canonical(t)
  {
    var base, len :| IsTextBy(addr, s, base, len);
    FormOfText(addr, s, base, len);
    FormToks(FormOf(addr, base, len));
    FormCanonical(addr, base, len);
    forall t | t in Toks(s) ensures Canonical(t) {
      if t != "" {
        InFormTokens(FormOf(addr, base, len), t);
      }
    }
  }

  /**
   * A `::` is written exactly when two words in a row are zero. It stands for the leftmost of the
   * longest runs of zero words: in front of it as many groups are written as words come before
   * the run, and in all as many as there are words outside it.
   */
  lemma DoubleColonIsBestRun(addr: seq<byte>, s: string) returns (base: int, len: int)
    requires |addr| == 16 && IsText(addr, s)
    ensures IsBest(Words(addr), base, len) && (HasDouble(s) <==> base != -1)
    ensures base != -1 <==> exists k :: 0 <= k < 7 && ZeroRun(Words(addr), k, 2)
    ensures Written(Toks(s)) == if base == -1 then 8 else 8 - len
    ensures base != -1 ==> exists left, right :: SplitsAt(s, left, right, base)
  {
    base, len :| IsTextBy(addr, s, base, len);
    var f := FormOf(addr, base, len);
    FormOfText(addr, s, base, len);
    FormFacts(f);
    if base == -1 {
      assert forall k :: 0 <= k < 7 ==> !ZeroRun(Words(addr), k, 2);
    } else {
      assert ZeroRun(Words(addr), base, 2) && base < 7;
      LeftBytes(addr, base);
      WrittenBefore(f.left);
      Nil(Join(f.left, ':') + "::" + HalfText(f.right));
      assert SplitsAt(s, Join(f.left, ':'), HalfText(f.right), base);
    }
  }

  /** `n` groups are written before the `::`. */
  ghost predicate SplitsAt(s: string, left: string, right: string, n: int)
  {
    s == left + "::" + right && !HasDouble(left) && Written(Toks(left)) == n
  }

  lemma WrittenBefore(left: seq<string>)
    requires Groups(left)
    ensures Written(Toks(Join(left, ':'))) == |left| && !HasDouble(Join(left, ':'))
  {
    WrittenGroups(left);
    if left == [] {
      assert Toks("") == [""] && [""][..0] == [];
    } else {
      HalfTokensFree(Half(left, None));
      Nil(left);
      SplitJoin(left, ':');
      FrontLast(left);
      if i: nat :| i < |Join(left, ':')| && DoubleAt(Join(left, ':'), i) {
        DoubleSplits(Join(left, ':'), i);
        NoEmptyBefore(left);
      }
    }
  }

  lemma NoEmptyBefore(left: seq<string>)
    requires left != [] && "" !in left
    ensures "" !in left[..|left| - 1]
  {
  }

  ghost predicate NoCapitals(t: string)
  {
    forall c :: c in t ==> !('A' <= c <= 'F')
  }

  /** All letters are lower-case. */
  lemma LowerCase(addr: seq<byte>, s: string)
    requires |addr| == 16 && IsText(addr, s)
    ensures NoCapitals(s)
  {
    var base, len :| IsTextBy(addr, s, base, len);
    FormOfText(addr, s, base, len);
    FormLower(addr, base, len);
    TextLower(FormOf(addr, base, len));
  }

  lemma FormLower(addr: seq<byte>, base: int, len: int)
    requires |addr| == 16 && (base == -1 || (0 <= base && 1 <= len && base + len <= 8))
    ensures var f := FormOf(addr, base, len);
            (forall t :: t in f.left ==> NoCapitals(t)) && forall t :: t in Tokens6(f.right) ==> NoCapitals(t)
  {
    if base == -1 {
      HexesCanonical(Words(addr));
      Nil(Hexes(Words(addr)));
    } else {
      HexesCanonical(Words(addr)[..base]);
      RightLower(addr, base, len);
    }
  }

  lemma TextLower(f: Form)
    requires (forall t :: t in f.left ==> NoCapitals(t)) && forall t :: t in Tokens6(f.right) ==> NoCapitals(t)
    ensures NoCapitals(Text6(f))
  {
    JoinLower(f.left);
    JoinLower(Tokens6(f.right));
  }

  lemma {:induction false} JoinLower(ts: seq<string>)
    requires forall t :: t in ts ==> NoCapitals(t)
    ensures NoCapitals(Join(ts, ':'))
  {
    if ts != [] {
      assert NoCapitals(ts[|ts| - 1]);
      JoinLower(ts[..|ts| - 1]);
    }
  }

  lemma RightLower(addr: seq<byte>, base: int, len: int)
    requires |addr| == 16 && 0 <= base && 1 <= len && base + len <= 8
    ensures forall t :: t in Tokens6(Right(addr, base, len)) ==> NoCapitals(t)
  {
    var words := Words(addr);
    if Encapsulated(words, base, len) {
      HexesCanonical(words[len..6]);
      QuadTextLower(addr[12..]);
    } else {
      HexesCanonical(words[base + len..]);
    }
  }

  lemma QuadTextLower(addr: seq<byte>)
    requires |addr| == 4
    ensures NoCapitals(QuadText(addr))
  {
    forall i | 0 <= i < 4 ensures NoCapitals(DecText(addr[i])) {
      DecTextValue(addr[i]);
    }
  }
}
