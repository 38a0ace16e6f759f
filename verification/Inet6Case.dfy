/** Digits and their place in the address: case does not matter, the order does. */
module Inet6Case {
  import opened Prelude
  import opened Text
  import opened Inet4
  import opened Inet6Parse

  // ---------- upper and lower case ----------

  function Lower(c: char): char
  {
    if 'A' <= c <= 'Z' then 'a' + (c - 'A') else c
  }

  function Lowered(s: string): (t: string)
    ensures |t| == |s| && forall i :: 0 <= i < |s| ==> t[i] == Lower(s[i])
  {
    seq(|s|, i requires 0 <= i < |s| => Lower(s[i]))
  }

  lemma LoweredSnoc(s: string, c: char)
    ensures Lowered(s + [c]) == Lowered(s) + [Lower(c)]
  {
  }

  lemma LowerDigit(c: char)
    ensures IsHex(Lower(c)) <==> IsHex(c)
    ensures HexDigit(Lower(c)) == HexDigit(c)
    ensures IsDec(Lower(c)) <==> IsDec(c)
    ensures IsDec(c) || c == ':' || c == '.' ==> Lower(c) == c
    ensures Lower(c) == ':' <==> c == ':'
    ensures Lower(c) == '.' <==> c == '.'
  {
  }

  function LoweredAll(ts: seq<string>): (us: seq<string>)
    ensures |us| == |ts| && forall k :: 0 <= k < |ts| ==> us[k] == Lowered(ts[k])
  {
    seq(|ts|, k requires 0 <= k < |ts| => Lowered(ts[k]))
  }

  /** A separator that is no letter separates the same pieces. */
  lemma {:induction false} SplitLowered(s: string, sep: char)
    requires sep == ':' || sep == '.'
    ensures Split(Lowered(s), sep) == Pieces(LoweredAll(Split(s, sep).closed), Lowered(Split(s, sep).last))
  {
    if s == "" {
      assert LoweredAll([]) == [] && Lowered("") == "";
    } else {
      var t, c := s[..|s| - 1], s[|s| - 1];
      assert s == t + [c];
      SplitLowered(t, sep);
      LoweredSnoc(t, c);
      SplitSnoc(t, c, sep);
      SplitSnoc(Lowered(t), Lower(c), sep);
      LowerDigit(c);
      ReadLowered(Split(t, sep), c, sep);
    }
  }

  lemma ReadLowered(p: Pieces, c: char, sep: char)
    requires Lower(c) == sep <==> c == sep
    ensures Read(Pieces(LoweredAll(p.closed), Lowered(p.last)), Lower(c), sep)
            == Pieces(LoweredAll(Read(p, c, sep).closed), Lowered(Read(p, c, sep).last))
  {
    if c == sep {
      assert LoweredAll(p.closed + [p.last]) == LoweredAll(p.closed) + [Lowered(p.last)];
      assert Lowered("") == "";
    } else {
      LoweredSnoc(p.last, c);
    }
  }

  lemma {:induction false} ValueLowered(t: string)
    ensures HexValue(Lowered(t)) == HexValue(t)
  {
    if t != "" {
      var u, c := t[..|t| - 1], t[|t| - 1];
      assert t == u + [c];
      ValueLowered(u);
      LoweredSnoc(u, c);
      LowerDigit(c);
      ValueSnoc(u, c);
      ValueSnoc(Lowered(u), Lower(c));
    }
  }

  lemma GroupLowered(t: string)
    ensures IsGroup(Lowered(t)) <==> IsGroup(t)
    ensures HexValue(Lowered(t)) == HexValue(t) && (Lowered(t) == "" <==> t == "")
  {
    ValueLowered(t);
    forall i | 0 <= i < |t| ensures IsHex(Lowered(t)[i]) <==> IsHex(t[i]) {
      LowerDigit(t[i]);
    }
  }

  lemma OctetLowered(p: string)
    ensures IsOctet(Lowered(p)) <==> IsOctet(p)
    ensures IsOctet(p) ==> Lowered(p) == p
  {
    forall i | 0 <= i < |p| ensures (IsDec(Lowered(p)[i]) <==> IsDec(p[i])) && (IsDec(p[i]) ==> Lowered(p)[i] == p[i]) {
      LowerDigit(p[i]);
    }
    if AllDec(p) {
      assert Lowered(p) == p;
    } else {
      assert !AllDec(Lowered(p));
    }
  }

  lemma QuadLowered(t: string)
    ensures Quad(Lowered(t)) == Quad(t)
  {
    SplitLowered(t, '.');
    var p := Split(t, '.');
    if |p.closed| == 3 {
      OctetLowered(p.closed[0]);
      OctetLowered(p.closed[1]);
      OctetLowered(p.closed[2]);
      OctetLowered(p.last);
    }
  }

  lemma {:induction false} ClosedLowered(ts: seq<string>)
    ensures Closed(LoweredAll(ts)) == Closed(ts)
  {
    if ts != [] {
      var front, t := ts[..|ts| - 1], ts[|ts| - 1];
      ClosedLowered(front);
      GroupLowered(t);
      FrontLast(ts);
      assert LoweredAll(ts) == LoweredAll(front) + [Lowered(t)];
      ClosedSnoc(front, t);
      ClosedSnoc(LoweredAll(front), Lowered(t));
    }
  }

  lemma TokensLowered(s: string)
    ensures Tokens(Split(Lowered(s), ':')) == Tokens(Split(s, ':'))
  {
    var p := Split(s, ':');
    SplitLowered(s, ':');
    ClosedLowered(p.closed);
    GroupLowered(p.last);
    QuadLowered(p.last);
  }

  lemma LoweredParses(s: string)
    ensures Pton6(Lowered(s)) == Pton6(s)
  {
    if s != "" {
      LowerDigit(s[0]);
    }
    if |s| >= 2 {
      LowerDigit(s[1]);
    }
    assert Lowered(s)[Start(s)..] == Lowered(s[Start(s)..]);
    TokensLowered(s[Start(s)..]);
  }

  /** Texts that differ in the case of their letters alone are accepted alike, with the same address. */
  lemma CaseDoesNotMatter(s: string, t: string)
    requires |s| == |t| && forall i :: 0 <= i < |s| ==> Lower(s[i]) == Lower(t[i])
    ensures Pton6(s) == Pton6(t)
  {
    LoweredParses(s);
    LoweredParses(t);
    assert Lowered(s) == Lowered(t);
  }

  // ---------- the order of digits and bytes ----------

  /** Of two digits the first counts sixteen. */
  lemma TwoDigits(t: string, c: char, d: char)
    ensures HexValue(t + [c, d]) == 256 * HexValue(t) + (16 * HexDigit(c) + HexDigit(d))
  {
    ValueSnoc(t, c);
    ValueSnoc(t + [c], d);
    assert (t + [c]) + [d] == t + [c, d];
  }

  /** Of four digits the first two make the first byte, the others the second. */
  lemma FourDigits(a: char, b: char, c: char, d: char)
    ensures var v := HexValue([a, b] + [c, d]);
            v <= 0xffff && TwoBytes(v) == [16 * HexDigit(a) + HexDigit(b), 16 * HexDigit(c) + HexDigit(d)]
  {
    TwoDigits([], a, b);
    assert [] + [a, b] == [a, b];
    TwoDigits([a, b], c, d);
    HighAndLow(16 * HexDigit(a) + HexDigit(b), 16 * HexDigit(c) + HexDigit(d));
  }

  lemma HighAndLow(high: nat, low: nat)
    requires high < 256 && low < 256
    ensures TwoBytes(256 * high + low) == [high, low]
  {
  }

  /** Decimal digits likewise: the first counts most. */
  lemma ThreeDigits(a: char, b: char, c: char)
    ensures DecValue([a, b, c]) == 100 * HexDigit(a) + 10 * HexDigit(b) + HexDigit(c)
  {
    ValueSnoc([], a);
    ValueSnoc([a], b);
    ValueSnoc([a, b], c);
    assert [] + [a] == [a] && [a] + [b] == [a, b] && [a, b] + [c] == [a, b, c];
  }
}
