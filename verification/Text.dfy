/** Character strings, as the address parsers and printers see them. */
module Text {

  /** The characters of a C string before its terminating NUL. */
  type cstring = s: string | '\0' !in s

  // ---------- slices ----------

  lemma SliceNext(s: string, a: nat, i: nat)
    requires a <= i < |s|
    ensures s[a..i + 1] == s[a..i] + [s[i]]
  {
  }

  lemma SliceRest(s: string, a: nat, i: nat)
    requires a <= i <= |s|
    ensures s[a..] == s[a..i] + s[i..]
  {
  }

  lemma TakeDrop(s: string, i: nat)
    requires i <= |s|
    ensures s == s[..i] + s[i..]
  {
  }

  lemma DropIn(s: string, a: nat, i: nat)
    requires a <= i <= |s|
    ensures forall c :: c in s[i..] ==> c in s[a..]
  {
    SliceRest(s, a, i);
  }

  // ---------- splitting on a separator ----------

  /** The pieces before a separator, and the piece still open at the end of the text. */
  datatype Pieces = Pieces(closed: seq<string>, last: string)

  function Read(p: Pieces, c: char, sep: char): Pieces
  {
    if c == sep then Pieces(p.closed + [p.last], "") else Pieces(p.closed, p.last + [c])
  }

  /** The pieces of `s` between occurrences of `sep`. */
  function Split(s: string, sep: char): Pieces
  {
    if s == "" then Pieces([], "") else Read(Split(s[..|s| - 1], sep), s[|s| - 1], sep)
  }

  function Join(parts: seq<string>, sep: char): string
  {
    if |parts| == 0 then ""
    else if |parts| == 1 then parts[0]
    else Join(parts[..|parts| - 1], sep) + [sep] + parts[|parts| - 1]
  }

  ghost predicate Free(parts: seq<string>, sep: char)
  {
    forall p :: p in parts ==> sep !in p
  }

  lemma SplitSnoc(s: string, c: char, sep: char)
    ensures Split(s + [c], sep) == Read(Split(s, sep), c, sep)
  {
    assert (s + [c])[..|s|] == s;
  }

  /** Reading one more character of `s`. */
  lemma SplitNext(s: string, i: nat, sep: char)
    requires i < |s|
    ensures Split(s[..i + 1], sep) == Read(Split(s[..i], sep), s[i], sep)
  {
    assert s[..i + 1] == s[..i] + [s[i]];
    SplitSnoc(s[..i], s[i], sep);
  }

  /** Text without a separator only lengthens the last piece. */
  lemma {:induction false} SplitConcat(s: string, t: string, sep: char)
    requires sep !in t
    ensures Split(s + t, sep) == Pieces(Split(s, sep).closed, Split(s, sep).last + t)
    decreases |t|
  {
    if t == "" {
      assert s + t == s;
      assert Split(s, sep).last + t == Split(s, sep).last;
    } else {
      var u, c := t[..|t| - 1], t[|t| - 1];
      assert t == u + [c];
      assert s + t == (s + u) + [c];
      assert (Split(s, sep).last + u) + [c] == Split(s, sep).last + t;
      SplitSnoc(s + u, c, sep);
      SplitConcat(s, u, sep);
    }
  }

  lemma SplitFree(t: string, sep: char)
    requires sep !in t
    ensures Split(t, sep) == Pieces([], t)
  {
    SplitConcat("", t, sep);
    assert "" + t == t;
  }

  /** Join and Split are inverse on separator-free pieces... */
  lemma {:induction false} SplitJoin(parts: seq<string>, sep: char)
    requires |parts| >= 1 && Free(parts, sep)
    ensures Split(Join(parts, sep), sep) == Pieces(parts[..|parts| - 1], parts[|parts| - 1])
  {
    var last := parts[|parts| - 1];
    if |parts| == 1 {
      SplitFree(last, sep);
    } else {
      var front := parts[..|parts| - 1];
      SplitJoin(front, sep);
      SplitSnoc(Join(front, sep), sep, sep);
      SplitConcat(Join(front, sep) + [sep], last, sep);
      assert "" + last == last;
      assert front[..|front| - 1] + [front[|front| - 1]] == front;
    }
  }

  /** ... and on every string. */
  lemma {:induction false} JoinSplit(s: string, sep: char)
    ensures Join(Split(s, sep).closed + [Split(s, sep).last], sep) == s
  {
    if s != "" {
      var t, c := s[..|s| - 1], s[|s| - 1];
      assert s == t + [c];
      JoinSplit(t, sep);
      JoinRead(t, Split(t, sep), c, sep);
    }
  }

  lemma {:induction false} PiecesFree(s: string, sep: char)
    ensures Free(Split(s, sep).closed + [Split(s, sep).last], sep)
  {
    if s != "" {
      PiecesFree(s[..|s| - 1], sep);
      ReadFree(Split(s[..|s| - 1], sep), s[|s| - 1], sep);
    }
  }

  lemma ReadFree(p: Pieces, c: char, sep: char)
    requires Free(p.closed + [p.last], sep)
    ensures Free(Read(p, c, sep).closed + [Read(p, c, sep).last], sep)
  {
    assert forall x :: x in p.closed ==> x in p.closed + [p.last];
    assert p.last in p.closed + [p.last];
  }

  lemma JoinRead(t: string, p: Pieces, c: char, sep: char)
    requires Join(p.closed + [p.last], sep) == t
    ensures Join(Read(p, c, sep).closed + [Read(p, c, sep).last], sep) == t + [c]
  {
    JoinSnoc(p.closed, p.last, sep);
    if c == sep {
      JoinSnoc(p.closed + [p.last], "", sep);
      assert t + [sep] + "" == t + [c];
    } else {
      JoinSnoc(p.closed, p.last + [c], sep);
    }
  }

  lemma JoinSnoc(parts: seq<string>, p: string, sep: char)
    ensures Join(parts + [p], sep) == if parts == [] then p else Join(parts, sep) + [sep] + p
  {
    assert (parts + [p])[..|parts|] == parts;
  }

  lemma {:induction false} JoinAppend(a: seq<string>, b: seq<string>, sep: char)
    requires a != [] && b != []
    ensures Join(a + b, sep) == Join(a, sep) + [sep] + Join(b, sep)
  {
    var front, last := b[..|b| - 1], b[|b| - 1];
    assert b == front + [last] && a + b == (a + front) + [last];
    JoinSnoc(a + front, last, sep);
    JoinSnoc(front, last, sep);
    if front == [] {
      assert a + front == a;
    } else {
      JoinAppend(a, front, sep);
    }
  }

  /** Piece number `k`, the last one included. */
  function Piece(p: Pieces, k: nat): string
    requires k <= |p.closed|
  {
    if k < |p.closed| then p.closed[k] else p.last
  }

  /**
   * `whole` can be the pieces of a longer text: the closed pieces of `prefix` stay as
   * they are, its last piece may still grow.
   */
  ghost predicate Extends(prefix: Pieces, whole: Pieces)
  {
    && prefix.closed <= whole.closed
    && prefix.last <= Piece(whole, |prefix.closed|)
  }

  lemma {:induction false} SplitPrefix(s: string, t: string, sep: char)
    ensures Extends(Split(s, sep), Split(s + t, sep))
    ensures Split(s + t, sep).closed == Split(s, sep).closed ==>
            Split(s + t, sep).last == Split(s, sep).last + t
    decreases |t|
  {
    if t == "" {
      assert s + t == s;
    } else {
      var u, c := t[..|t| - 1], t[|t| - 1];
      assert t == u + [c];
      assert s + t == (s + u) + [c];
      assert (Split(s, sep).last + u) + [c] == Split(s, sep).last + t;
      SplitSnoc(s + u, c, sep);
      SplitPrefix(s, u, sep);
    }
  }

  /** The pieces of a prefix of `s` against those of `s`. */
  lemma SplitTake(s: string, i: nat, sep: char)
    requires i <= |s|
    ensures Extends(Split(s[..i], sep), Split(s, sep))
    ensures Split(s, sep).closed == Split(s[..i], sep).closed ==>
            Split(s, sep).last == Split(s[..i], sep).last + s[i..]
  {
    TakeDrop(s, i);
    SplitPrefix(s[..i], s[i..], sep);
  }

  // ---------- numerals ----------

  predicate IsDec(c: char) { '0' <= c <= '9' }

  predicate IsHex(c: char) { '0' <= c <= '9' || 'a' <= c <= 'f' || 'A' <= c <= 'F' }

  function HexDigit(c: char): (d: nat)
    ensures d < 16
  {
    if '0' <= c <= '9' then c as int - '0' as int
    else if 'a' <= c <= 'f' then c as int - 'a' as int + 10
    else if 'A' <= c <= 'F' then c as int - 'A' as int + 10
    else 0
  }

  const LOWER: string := "0123456789abcdef"
  const UPPER: string := "0123456789ABCDEF"

  /** The digits are the characters of the two tables, each with its place as its value. */
  lemma HexTables(c: char)
    ensures IsHex(c) <==> c in LOWER || c in UPPER
    ensures forall k :: 0 <= k < 16 && (c == LOWER[k] || c == UPPER[k]) ==> HexDigit(c) == k
  {
    assert LOWER == ['0', '1', '2', '3', '4', '5', '6', '7', '8', '9', 'a', 'b', 'c', 'd', 'e', 'f'];
    assert UPPER == ['0', '1', '2', '3', '4', '5', '6', '7', '8', '9', 'A', 'B', 'C', 'D', 'E', 'F'];
    if IsHex(c) {
      var k := HexDigit(c);
      assert c == LOWER[k] || c == UPPER[k];
    }
  }

  /** The decimal digits are the first ten of either table. */
  lemma DecTable(c: char)
    ensures IsDec(c) <==> c in LOWER[..10]
    ensures IsDec(c) ==> LOWER[HexDigit(c)] == c
  {
    assert LOWER[..10] == ['0', '1', '2', '3', '4', '5', '6', '7', '8', '9'];
    if IsDec(c) {
      assert c == LOWER[..10][HexDigit(c)];
    }
  }

  predicate AllDec(s: string) { forall i :: 0 <= i < |s| ==> IsDec(s[i]) }

  predicate AllHex(s: string) { forall i :: 0 <= i < |s| ==> IsHex(s[i]) }

  /** The number a decimal digit string denotes. */
  function DecValue(s: string): nat
  {
    if s == "" then 0 else 10 * DecValue(s[..|s| - 1]) + HexDigit(s[|s| - 1])
  }

  /** The number a hexadecimal digit string denotes. */
  function HexValue(s: string): nat
  {
    if s == "" then 0 else 16 * HexValue(s[..|s| - 1]) + HexDigit(s[|s| - 1])
  }

  lemma ValueSnoc(s: string, c: char)
    ensures DecValue(s + [c]) == 10 * DecValue(s) + HexDigit(c)
    ensures HexValue(s + [c]) == 16 * HexValue(s) + HexDigit(c)
  {
    assert (s + [c])[..|s|] == s;
  }

  lemma {:induction false} ValueMonotone(p: string, s: string)
    requires p <= s
    ensures DecValue(p) <= DecValue(s) && HexValue(p) <= HexValue(s)
  {
    if |p| < |s| {
      ValueMonotone(p, s[..|s| - 1]);
    } else {
      assert p == s;
    }
  }

  /** A decimal octet read as hexadecimal still fits in 16 bits. */
  lemma {:induction false} DecAsHex(s: string)
    requires AllDec(s)
    ensures DecValue(s) <= 9 ==> HexValue(s) == DecValue(s)
    ensures DecValue(s) <= 99 ==> HexValue(s) <= 2 * DecValue(s)
    ensures DecValue(s) <= 999 ==> HexValue(s) <= 4 * DecValue(s)
  {
    if s != "" {
      DecAsHex(s[..|s| - 1]);
    }
  }

  function DigitChar(d: nat): (c: char)
    requires d < 16
    ensures IsHex(c) && HexDigit(c) == d && !('A' <= c <= 'F')
    ensures d < 10 ==> IsDec(c)
  {
    if d < 10 then '0' + d as char else 'a' + (d - 10) as char
  }

  /** `printf` with `%u`. */
  function DecText(n: nat): string
  {
    if n < 10 then [DigitChar(n)] else DecText(n / 10) + [DigitChar(n % 10)]
  }

  /** `printf` with `%x`. */
  function HexText(n: nat): string
  {
    if n < 16 then [DigitChar(n)] else HexText(n / 16) + [DigitChar(n % 16)]
  }

  /** A printed number reads back and is not padded. */
  lemma {:induction false} DecTextValue(n: nat)
    ensures DecValue(DecText(n)) == n
    ensures DecText(n) != "" && AllDec(DecText(n))
    ensures DecText(n)[0] == '0' ==> n == 0 && DecText(n) == "0"
  {
    if n < 10 {
      ValueSnoc("", DigitChar(n));
      assert "" + [DigitChar(n)] == [DigitChar(n)];
    } else {
      DecTextValue(n / 10);
      ValueSnoc(DecText(n / 10), DigitChar(n % 10));
    }
  }

  lemma {:induction false} HexTextValue(n: nat)
    ensures HexValue(HexText(n)) == n
    ensures HexText(n) != "" && AllHex(HexText(n))
    ensures HexText(n)[0] == '0' ==> n == 0 && HexText(n) == "0"
    ensures forall c :: c in HexText(n) ==> !('A' <= c <= 'F')
  {
    if n < 16 {
      ValueSnoc("", DigitChar(n));
      assert "" + [DigitChar(n)] == [DigitChar(n)];
    } else {
      HexTextValue(n / 16);
      ValueSnoc(HexText(n / 16), DigitChar(n % 16));
    }
  }

  lemma DecTextLength(n: nat)
    requires n < 256
    ensures |DecText(n)| <= 3
  {
    if n >= 100 {
      assert |DecText(n / 10)| == |DecText(n / 10 / 10)| + 1;
    }
  }

  lemma HexTextLength(n: nat)
    requires n < 0x10000
    ensures |HexText(n)| <= 4
  {
    if n >= 0x100 {
      HexTextShort(n / 0x100);
      assert n / 0x10 / 0x10 == n / 0x100;
      assert |HexText(n / 0x10)| == |HexText(n / 0x10 / 0x10)| + 1;
    } else {
      HexTextShort(n);
    }
  }

  lemma HexTextShort(n: nat)
    requires n < 0x100
    ensures |HexText(n)| <= 2
  {
    assert n >= 0x10 ==> |HexText(n)| == |HexText(n / 0x10)| + 1;
  }
}
