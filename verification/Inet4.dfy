/**
 * Dotted-decimal IPv4 text: `inet_pton4` and `inet_ntop4`.
 */
module Inet4 {
  import opened Prelude
  import opened Text

  // ---------- what a dotted quad is ----------

  predicate IsOctet(p: string)
  {
    p != "" && AllDec(p) && DecValue(p) <= 255
  }

  function Octet(p: string): byte
    requires IsOctet(p)
  {
    DecValue(p)
  }

  /** The address a dotted quad denotes: four octets joined by single dots. */
  function Quad(s: string): (q: Option<seq<byte>>)
    ensures q.Some? ==> |q.value| == 4
  {
    var p := Split(s, '.');
    if |p.closed| == 3 && IsOctet(p.closed[0]) && IsOctet(p.closed[1]) && IsOctet(p.closed[2]) && IsOctet(p.last)
    then Some([Octet(p.closed[0]), Octet(p.closed[1]), Octet(p.closed[2]), Octet(p.last)])
    else None
  }

  function Dotted(a: string, b: string, c: string, d: string): string
  {
    a + "." + b + "." + c + "." + d
  }

  lemma DottedIsJoin(a: string, b: string, c: string, d: string)
    ensures Dotted(a, b, c, d) == Join([a, b, c, d], '.')
  {
    assert [a, b, c, d] == [a] + [b] + [c] + [d];
    JoinSnoc([a] + [b] + [c], d, '.');
    JoinSnoc([a] + [b], c, '.');
    JoinSnoc([a], b, '.');
  }

  /** A nonempty run of decimal digits, of any length, whose value is at most 255. */
  ghost predicate DigitRun(p: string)
  {
    p != "" && (forall c :: c in p ==> c in LOWER[..10]) && DecValue(p) <= 255
  }

  lemma RunIsOctet(p: string)
    ensures DigitRun(p) <==> IsOctet(p)
  {
    forall i | 0 <= i < |p| ensures p[i] in LOWER[..10] <==> IsDec(p[i]) {
      DecTable(p[i]);
    }
    if DigitRun(p) {
      assert forall i :: 0 <= i < |p| ==> p[i] in p;
    }
  }

  lemma QuadOfOctets(s: string, addr: seq<byte>)
    ensures Quad(s) == Some(addr) <==> exists a, b, c, d :: IsDotted(s, addr, a, b, c, d)
  {
    if Quad(s) == Some(addr) {
      var p := Split(s, '.');
      JoinSplit(s, '.');
      assert p.closed + [p.last] == [p.closed[0], p.closed[1], p.closed[2], p.last];
      DottedIsJoin(p.closed[0], p.closed[1], p.closed[2], p.last);
      assert IsDotted(s, addr, p.closed[0], p.closed[1], p.closed[2], p.last);
    }
    if a, b, c, d :| IsDotted(s, addr, a, b, c, d) {
      DottedIsJoin(a, b, c, d);
      SplitJoin([a, b, c, d], '.');
    }
  }

  ghost predicate IsDotted(s: string, addr: seq<byte>, a: string, b: string, c: string, d: string)
  {
    && IsOctet(a) && IsOctet(b) && IsOctet(c) && IsOctet(d)
    && s == Dotted(a, b, c, d) && addr == [Octet(a), Octet(b), Octet(c), Octet(d)]
  }

  /** `s` is four runs of digits and the dots between them, and `addr` their values. */
  ghost predicate FourRuns(s: string, addr: seq<byte>, a: string, b: string, c: string, d: string)
  {
    && DigitRun(a) && DigitRun(b) && DigitRun(c) && DigitRun(d)
    && s == a + "." + b + "." + c + "." + d && addr == [DecValue(a), DecValue(b), DecValue(c), DecValue(d)]
  }

  lemma RunsAreOctets(s: string, addr: seq<byte>, a: string, b: string, c: string, d: string)
    ensures FourRuns(s, addr, a, b, c, d) <==> IsDotted(s, addr, a, b, c, d)
  {
    RunIsOctet(a);
    RunIsOctet(b);
    RunIsOctet(c);
    RunIsOctet(d);
  }

  /**
   * Quad recognises exactly four nonempty runs of decimal digits of value at most 255 joined by
   * single dots, and denotes their values.
   */
  lemma QuadGrammar(s: string, addr: seq<byte>)
    ensures Quad(s) == Some(addr) <==> exists a, b, c, d :: FourRuns(s, addr, a, b, c, d)
  {
    QuadOfOctets(s, addr);
    if a, b, c, d :| IsDotted(s, addr, a, b, c, d) {
      RunsAreOctets(s, addr, a, b, c, d);
    }
    if a, b, c, d :| FourRuns(s, addr, a, b, c, d) {
      RunsAreOctets(s, addr, a, b, c, d);
    }
  }

  // ---------- inet_pton4 ----------

  /** No continuation of a text whose pieces so far are `p` can be a dotted quad. */
  ghost predicate Hopeless4(p: Pieces)
  {
    || |p.closed| > 3
    || (exists k :: 0 <= k < |p.closed| && !IsOctet(p.closed[k]))
    || !AllDec(p.last)
    || DecValue(p.last) > 255
  }

  lemma Hopeless4Rejects(s: string, i: nat)
    requires i <= |s| && Hopeless4(Split(s[..i], '.'))
    ensures Quad(s) == None
  {
    var p, w := Split(s[..i], '.'), Split(s, '.');
    SplitTake(s, i, '.');
    if k :| 0 <= k < |p.closed| && !IsOctet(p.closed[k]) {
      assert w.closed[k] == p.closed[k];
    } else if !AllDec(p.last) || DecValue(p.last) > 255 {
      NeverOctet(p.last, Piece(w, |p.closed|));
    }
  }

  /** What is no octet and cannot become one. */
  lemma NeverOctet(t: string, whole: string)
    requires t <= whole && (!AllDec(t) || DecValue(t) > 255)
    ensures !IsOctet(whole)
  {
    if !AllDec(t) {
      var m :| 0 <= m < |t| && !IsDec(t[m]);
      assert whole[m] == t[m];
    } else {
      ValueMonotone(t, whole);
    }
  }

  /** What the scan has in its variables after reading `done`. */
  ghost predicate Scanned4(done: string, tmp: seq<int>, tp: int, octets: int, sawDigit: bool)
  {
    var p := Split(done, '.');
    && |tmp| == 4
    && tp == |p.closed| < 4
    && (forall k :: 0 <= k < tp ==> IsOctet(p.closed[k]) && tmp[k] == DecValue(p.closed[k]))
    && AllDec(p.last)
    && tmp[tp] == DecValue(p.last) <= 255
    && sawDigit == (p.last != "")
    && octets == tp + (if sawDigit then 1 else 0)
  }

  /** A digit read; `v` is the value of the run with it. */
  lemma DigitRead4(s: string, i: int, tmp: seq<int>, tp: int, octets: int, sawDigit: bool, v: nat)
    requires 0 <= i < |s| && Scanned4(s[..i], tmp, tp, octets, sawDigit) && IsDec(s[i])
    requires v == DecValue(Split(s[..i], '.').last + [s[i]]) <= 255
    ensures Scanned4(s[..i + 1], tmp[tp := v], tp, if sawDigit then octets else octets + 1, true)
  {
    SplitNext(s, i, '.');
  }

  lemma DigitOver4(s: string, i: int)
    requires 0 <= i < |s| && s[i] != '.' && DecValue(Split(s[..i], '.').last + [s[i]]) > 255
    ensures Quad(s) == None
  {
    SplitNext(s, i, '.');
    Hopeless4Rejects(s, i + 1);
  }

  lemma ScanDigit4(s: string, i: int, tmp: seq<int>, tp: int, octets: int, sawDigit: bool)
    requires 0 <= i < |s| && Scanned4(s[..i], tmp, tp, octets, sawDigit) && IsDec(s[i])
    ensures var v := tmp[tp] * 10 + HexDigit(s[i]);
            if v <= 255 then Scanned4(s[..i + 1], tmp[tp := v], tp, if sawDigit then octets else octets + 1, true)
            else Quad(s) == None
  {
    var v := tmp[tp] * 10 + HexDigit(s[i]);
    ValueSnoc(Split(s[..i], '.').last, s[i]);
    if v <= 255 {
      DigitRead4(s, i, tmp, tp, octets, sawDigit, v);
    } else {
      DigitOver4(s, i);
    }
  }

  lemma ScanDot4(s: string, i: int, tmp: seq<int>, tp: int, octets: int, sawDigit: bool)
    requires 0 <= i < |s| && Scanned4(s[..i], tmp, tp, octets, sawDigit) && s[i] == '.'
    ensures if sawDigit && octets != 4 then Scanned4(s[..i + 1], tmp[tp + 1 := 0], tp + 1, octets, false)
            else Quad(s) == None
  {
    SplitNext(s, i, '.');
    if !sawDigit || octets == 4 {
      assert Split(s[..i + 1], '.').closed[tp] == Split(s[..i], '.').last;
      Hopeless4Rejects(s, i + 1);
    }
  }

  lemma ForeignChar(s: string, i: nat)
    requires i < |s| && !IsDec(s[i]) && s[i] != '.'
    ensures Quad(s) == None
  {
    SplitNext(s, i, '.');
    var last := Split(s[..i + 1], '.').last;
    assert last[|last| - 1] == s[i];
    Hopeless4Rejects(s, i + 1);
  }

  lemma ScanEnd4(s: string, tmp: seq<byte>, tp: int, octets: int, sawDigit: bool)
    requires Scanned4(s, tmp, tp, octets, sawDigit)
    ensures Quad(s) == if octets < 4 then None else Some(tmp)
  {
    if octets == 4 && sawDigit {
      assert tmp == [tmp[0], tmp[1], tmp[2], tmp[3]];
    }
  }

  /** The scan of `inet_pton4` into `tmp`; a result below 4 is its `return 0`. */
  method ScanQuad(src: cstring, tmp: array<byte>) returns (octets: int)
    requires tmp.Length == 4
    modifies tmp
    ensures octets <= 4
    ensures Quad(src) == if octets < 4 then None else Some(tmp[..])
  {
    var sawDigit, tp := false, 0;
    octets := 0;
    tmp[0] := 0;
    var i := 0;
    while i < |src|
      invariant 0 <= i <= |src|
      invariant Scanned4(src[..i], tmp[..], tp, octets, sawDigit)
    {
      var ch := src[i];
      ghost var before: seq<int> := tmp[..];
      if IsDec(ch) {
        ScanDigit4(src, i, before, tp, octets, sawDigit);
        var v := tmp[tp] * 10 + HexDigit(ch);
        if v > 255 {
          return 0;
        }
        tmp[tp] := v;
        assert tmp[..] == before[tp := v];
        if !sawDigit {
          octets := octets + 1;
          if octets > 4 {
            assert false;
          }
          sawDigit := true;
        }
      } else if ch == '.' && sawDigit {
        ScanDot4(src, i, before, tp, octets, sawDigit);
        if octets == 4 {
          return 0;
        }
        tp := tp + 1;
        tmp[tp] := 0;
        assert tmp[..] == before[tp := 0];
        sawDigit := false;
      } else {
        if ch == '.' {
          ScanDot4(src, i, before, tp, octets, sawDigit);
        } else {
          ForeignChar(src, i);
        }
        return 0;
      }
      i := i + 1;
    }
    assert src[..i] == src;
    ScanEnd4(src, tmp[..], tp, octets, sawDigit);
  }

  /**
   * `inet_pton4(src, dst + off)`: 1 and the four bytes stored, exactly when `src` is a
   * dotted quad; otherwise 0 with `dst` untouched.
   */
  method InetPton4(src: cstring, dst: array<byte>, off: nat) returns (rc: int)
    requires off + 4 <= dst.Length
    modifies dst
    ensures rc == (if Quad(src).Some? then 1 else 0)
    ensures Quad(src) == None ==> dst[..] == old(dst[..])
    ensures Quad(src).Some? ==> dst[..] == old(dst[..off]) + Quad(src).value + old(dst[off + 4..])
  {
    var tmp := new byte[4];
    var octets := ScanQuad(src, tmp);
    if octets < 4 {
      return 0;
    }
    MemCpy(dst, off, tmp[..]);
    return 1;
  }

  // ---------- inet_ntop4 ----------

  /** `"%u.%u.%u.%u"`. */
  function QuadText(addr: seq<byte>): string
    requires |addr| == 4
  {
    Dotted(DecText(addr[0]), DecText(addr[1]), DecText(addr[2]), DecText(addr[3]))
  }

  /** Every address survives printing and parsing; the text fits `sizeof "255.255.255.255"`. */
  lemma QuadRoundTrip(addr: seq<byte>)
    requires |addr| == 4
    ensures Quad(QuadText(addr)) == Some(addr)
    ensures 7 <= |QuadText(addr)| <= 15
  {
    forall i | 0 <= i < 4
      ensures IsOctet(DecText(addr[i])) && Octet(DecText(addr[i])) == addr[i]
      ensures |DecText(addr[i])| <= 3
    {
      DecTextValue(addr[i]);
      DecTextLength(addr[i]);
    }
    var a, b, c, d := DecText(addr[0]), DecText(addr[1]), DecText(addr[2]), DecText(addr[3]);
    assert addr == [Octet(a), Octet(b), Octet(c), Octet(d)];
    assert IsDotted(QuadText(addr), addr, a, b, c, d);
    QuadOfOctets(QuadText(addr), addr);
  }

  /** The characters of `s`, then a NUL, at `dst[off..]`: `strcpy`, or `sprintf` of `s`. */
  method StrCpy(dst: array<char>, off: nat, s: string)
    requires off + |s| < dst.Length
    modifies dst
    ensures dst[..off + |s|] == old(dst[..off]) + s
    ensures dst[off + |s|] == '\0'
    ensures dst[off + |s| + 1..] == old(dst[off + |s| + 1..])
  {
    forall k | 0 <= k < |s| { dst[off + k] := s[k]; }
    dst[off + |s|] := '\0';
  }

  /** Memory after `inet_ntop4(src, mem + off, size)`, when it goes on behind the buffer. */
  function Ntop4(src: seq<byte>, mem: seq<char>, off: nat, size: nat): (r: seq<char>)
    requires |src| == 4 && off + size < |mem|
    ensures |r| == |mem|
  {
    var text := QuadText(src);
    if |text| > size then mem else mem[..off] + text + ['\0'] + mem[off + |text| + 1..]
  }

  /** The buffer of `size` characters is all that a call writes to. */
  ghost predicate StaysInside(src: seq<byte>, size: nat)
    requires |src| == 4
  {
    forall mem: seq<char>, off: nat :: off + size < |mem| ==>
      Ntop4(src, mem, off, size)[..off] == mem[..off] && Ntop4(src, mem, off, size)[off + size..] == mem[off + size..]
  }

  /** It is, exactly when the text is not `size` long: then the NUL goes behind the buffer. */
  lemma StaysInsideIff(src: seq<byte>, size: nat)
    requires |src| == 4
    ensures StaysInside(src, size) <==> |QuadText(src)| != size
  {
    var n := |QuadText(src)|;
    if n == size {
      var mem := seq(size + 1, _ => '*');
      assert Ntop4(src, mem, 0, size)[size] == '\0';
      assert Ntop4(src, mem, 0, size)[size..][0] != mem[size..][0];
    } else {
      forall mem: seq<char>, off: nat | off + size < |mem|
        ensures Ntop4(src, mem, off, size)[..off] == mem[..off]
        ensures Ntop4(src, mem, off, size)[off + size..] == mem[off + size..]
      {
        var r := Ntop4(src, mem, off, size);
        assert forall k :: off + size <= k < |mem| ==> r[k] == mem[k];
      }
    }
  }

  /** A caller that offers 16 characters, the size of the longest text and its NUL, is always safe. */
  lemma SixteenIsEnough(src: seq<byte>, size: nat)
    requires |src| == 4 && size >= 16
    ensures StaysInside(src, size) && |QuadText(src)| < size
  {
    QuadRoundTrip(src);
    StaysInsideIff(src, size);
  }

  /** 0.0.0.0 does not stay inside a buffer of 7. */
  lemma ZerosOverrunSeven()
    ensures !StaysInside([0, 0, 0, 0], 7)
  {
    StaysInsideIff([0, 0, 0, 0], 7);
  }

  /**
   * How a call ends: NULL, the text, or a NUL that would have to be stored behind the end of
   * `mem`. The test `strlen(tmp) > size` leaves no room for it when the text is `size` long.
   */
  datatype Ntop = Null | Text | PastTheEnd

  /** `inet_ntop4` on a buffer of `size` characters at `mem + off`. */
  method InetNtop4(src: seq<byte>, mem: array<char>, off: nat, size: nat) returns (r: Ntop)
    requires |src| == 4 && off + size <= mem.Length
    modifies mem
    ensures r.Null? <==> |QuadText(src)| > size
    ensures r.PastTheEnd? <==> |QuadText(src)| == size && off + size == mem.Length
    ensures r.Null? ==> mem[..] == old(mem[..])
    ensures r.Text? ==>
              mem[..] == old(mem[..off]) + QuadText(src) + ['\0'] + old(mem[off + |QuadText(src)| + 1..])
    ensures r.PastTheEnd? ==> mem[..] == old(mem[..off]) + QuadText(src)
    ensures off + size < mem.Length ==> mem[..] == Ntop4(src, old(mem[..]), off, size)
  {
    var tmp := QuadText(src);
    if |tmp| > size {
      return Null;
    }
    if off + |tmp| == mem.Length {
      forall k | 0 <= k < |tmp| { mem[off + k] := tmp[k]; }
      return PastTheEnd;
    }
    StrCpy(mem, off, tmp);
    return Text;
  }
}
