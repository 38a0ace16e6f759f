/** Exactly which texts `inet_pton6` accepts, and which of them RFC 4291 does not allow. */
module Inet6Language {
  import opened Prelude
  import opened Text
  import opened Inet4
  import opened Inet6Parse
  import opened Inet6Text

  // ---------- the language accepted ----------

  /** How an accepted text is made: two halves around a `::` or one half, and perhaps a last colon. */
  datatype Form = Form(left: seq<string>, right: Half, double: bool, trailing: bool)

  function Text6(f: Form): string
  {
    (if f.double then Join(f.left, ':') + "::" else "") + HalfText(f.right) + (if f.trailing then ":" else "")
  }

  ghost predicate ValidForm(f: Form)
  {
    && Groups(f.left) && ValidHalf(f.right)
    && (if f.double then 2 * |f.left| + |HalfBytes(f.right)| <= 16
        else f.left == [] && |HalfBytes(f.right)| == 16)
    && (f.trailing ==> f.right.groups != [] && f.right.quad == None)
  }

  ghost function Bytes6(f: Form): seq<byte>
    requires ValidForm(f)
  {
    if f.double then Widen(GroupBytes(f.left) + HalfBytes(f.right), 2 * |f.left|) else HalfBytes(f.right)
  }

  // ---------- accepted text has the form ----------

  /** The closed tokens the parser goes through: groups, with at most one empty token among them. */
  lemma {:induction false} ClosedShape(tokens: seq<string>) returns (left: seq<string>, mid: seq<string>)
    requires Closed(tokens).Some?
    ensures Groups(left) && Groups(mid)
    ensures var a := Closed(tokens).value;
            && a.bytes == GroupBytes(left) + GroupBytes(mid)
            && (a.colon == None ==> tokens == mid && left == [])
            && (a.colon.Some? ==> tokens == left + ([""] + mid) && a.colon.value == 2 * |left|)
  {
    if tokens == [] {
      left, mid := [], [];
    } else {
      var front, last := tokens[..|tokens| - 1], tokens[|tokens| - 1];
      left, mid := ClosedShape(front);
      FrontLast(tokens);
      if last == "" {
        left, mid := mid, [];
        Nil(GroupBytes(left));
      } else {
        GroupBytesSnoc(mid, last);
        Assoc(GroupBytes(left), GroupBytes(mid), TwoBytes(HexValue(last)));
        Assoc(left, [""] + mid, [last]);
        Assoc([""], mid, [last]);
        mid := mid + [last];
      }
    }
  }

  /** The groups `mid` and the last token make a half, and perhaps a colon is left over. */
  lemma LastShape(a: Parsed, l: seq<byte>, mid: seq<string>, last: string) returns (right: Half, trailing: bool)
    requires Fits(a) && Groups(mid) && a.bytes == l + GroupBytes(mid) && AddLast(a, last).Some?
    ensures ValidHalf(right) && AddLast(a, last).value == a.(bytes := l + HalfBytes(right))
    ensures trailing <==> last == "" && mid != []
    ensures trailing ==> right == Half(mid, None)
    ensures !trailing && last != "" ==> Tokens6(right) == mid + [last]
    ensures !trailing && last == "" ==> right == Half([], None)
  {
    trailing := last == "" && mid != [];
    if last == "" {
      right := Half(mid, None);
      HalfOfGroups(mid);
    } else if IsGroup(last) && |a.bytes| + 2 <= 16 {
      right := Half(mid + [last], None);
      GroupBytesSnoc(mid, last);
      HalfOfGroups(mid + [last]);
      Assoc(l, GroupBytes(mid), TwoBytes(HexValue(last)));
    } else {
      right := Half(mid, Some(last));
      Assoc(l, GroupBytes(mid), Quad(last).value);
    }
  }

  lemma HalfOfGroups(ts: seq<string>)
    requires Groups(ts)
    ensures var h := Half(ts, None); ValidHalf(h) && Tokens6(h) == ts && HalfBytes(h) == GroupBytes(ts)
  {
    Nil(ts);
    Nil(GroupBytes(ts));
  }

  /** The tokens of an accepted text after its first colon, joined again. */
  lemma TailText(right: Half, mid: seq<string>, last: string, trailing: bool)
    requires trailing <==> last == "" && mid != []
    requires trailing ==> right == Half(mid, None)
    requires !trailing && last != "" ==> Tokens6(right) == mid + [last]
    requires !trailing && last == "" ==> right == Half([], None)
    ensures Join(mid + [last], ':') == HalfText(right) + (if trailing then ":" else "")
  {
    JoinSnoc(mid, last, ':');
    Nil(mid);
  }

  lemma DoubleText(left: seq<string>, rest: seq<string>, r: string)
    requires rest != [] && Join(rest, ':') == r
    ensures Join(left + ([""] + rest), ':') == (if left == [] then "" else Join(left, ':') + ":") + (":" + r)
  {
    JoinAppend([""], rest, ':');
    assert "" + [':'] + r == ":" + r;
    Nil([""] + rest);
    if left != [] {
      JoinAppend(left, [""] + rest, ':');
    }
  }

  lemma StartsWithColon(s: string, left: seq<string>, u: string)
    requires !BadStart(s) && Groups(left) && s[Start(s)..] == (if left == [] then "" else Join(left, ':') + ":") + (":" + u)
    ensures s == Join(left, ':') + "::" + u
  {
    var t := s[Start(s)..];
    if left == [] {
      assert t[0] == ':';
      assert s == [s[0]] + s[1..];
    } else {
      HalfTokensFree(Half(left, None));
      Nil(left);
      FirstChar(left);
      assert t[0] == Join(left, ':')[0];
      assert s[0..] == s;
      assert Start(s) == 0;
    }
  }

  lemma PlainText(s: string, right: Half, u: string)
    requires !BadStart(s) && ValidHalf(right) && Tokens6(right) != [] && s[Start(s)..] == HalfText(right) + u
    ensures s == HalfText(right) + u
  {
    var t := s[Start(s)..];
    HalfTokensFree(right);
    FirstChar(Tokens6(right));
    assert t[0] == HalfText(right)[0];
    assert t[0] != ':';
    assert s[0..] == s;
  }

  /** The text read so far in terms of its tokens: what comes after the first colon, then all of it. */
  lemma FormText(s: string, closed: seq<string>, left: seq<string>, mid: seq<string>, last: string, f: Form)
    requires !BadStart(s) && Split(s[Start(s)..], ':') == Pieces(closed, last) && ValidForm(f) && f.left == left
    requires if f.double then closed == left + ([""] + mid) else closed == mid
    requires f.trailing <==> last == "" && mid != []
    requires f.trailing ==> f.right == Half(mid, None)
    requires !f.trailing && last != "" ==> Tokens6(f.right) == mid + [last]
    requires !f.trailing && last == "" ==> f.right == Half([], None)
    ensures s == Text6(f)
  {
    var tail := if f.trailing then ":" else "";
    JoinSplit(s[Start(s)..], ':');
    TailText(f.right, mid, last, f.trailing);
    if f.double {
      Assoc(left, [""] + mid, [last]);
      Assoc([""], mid, [last]);
      DoubleText(left, mid + [last], HalfText(f.right) + tail);
      StartsWithColon(s, left, HalfText(f.right) + tail);
      Assoc(Join(left, ':') + "::", HalfText(f.right), tail);
    } else {
      PlainText(s, f.right, tail);
      Nil(HalfText(f.right));
    }
  }

  /** Every accepted text has the form, and the address it denotes. */
  lemma AcceptedForm(s: string, addr: seq<byte>) returns (f: Form)
    requires Pton6(s) == Some(addr)
    ensures ValidForm(f) && s == Text6(f) && addr == Bytes6(f)
  {
    var p := Split(s[Start(s)..], ':');
    var left, mid := ClosedShape(p.closed);
    var a := Closed(p.closed).value;
    var right, trailing := LastShape(a, GroupBytes(left), mid, p.last);
    f := Form(left, right, a.colon.Some?, trailing);
    Nil(HalfBytes(right));
    FormText(s, p.closed, left, mid, p.last, f);
  }

  // ---------- what the form says about the characters ----------

  /** The last character of a nonempty half is no colon. */
  lemma LastOfHalf(h: Half)
    requires ValidHalf(h) && Tokens6(h) != []
    ensures HalfText(h) != "" && HalfText(h)[|HalfText(h)| - 1] != ':'
  {
    HalfTokensFree(h);
    var ts := Tokens6(h);
    var front, last := ts[..|ts| - 1], ts[|ts| - 1];
    FrontLast(ts);
    JoinSnoc(front, last, ':');
    assert last in ts;
    assert last[|last| - 1] in last;
  }

  lemma EndsLikeHalf(f: Form)
    requires ValidForm(f) && !f.trailing && Tokens6(f.right) != []
    ensures var s := Text6(f); s != "" && s[|s| - 1] != ':'
  {
    LastOfHalf(f.right);
    Nil((if f.double then Join(f.left, ':') + "::" else "") + HalfText(f.right));
  }

  lemma {:induction false} JoinDots(ts: seq<string>)
    requires forall t :: t in ts ==> '.' !in t
    ensures '.' !in Join(ts, ':')
  {
    if |ts| > 1 {
      JoinDots(ts[..|ts| - 1]);
    } else if |ts| == 1 {
      assert ts[0] in ts;
    }
  }

  /** Without a dotted quad there is no dot. */
  lemma NoDots(f: Form)
    requires ValidForm(f) && f.right.quad == None && !f.trailing
    ensures '.' !in Text6(f)
  {
    forall t | t in f.left || t in f.right.groups ensures '.' !in t {
      GroupIsHex(t);
    }
    Nil(f.right.groups);
    JoinDots(f.left);
    JoinDots(f.right.groups);
  }

  // ---------- and text of the form is accepted ----------

  /** A colon after an accepted text that ends in a group changes nothing. */
  lemma LastColonIgnored(s: string, addr: seq<byte>)
    requires Pton6(s) == Some(addr) && s[|s| - 1] != ':' && '.' !in s
    ensures Pton6(s + ":") == Some(addr)
  {
    var t := s[Start(s)..];
    assert s[|s| - 1] == t[|t| - 1];
    LastNotEmpty(t);
    LastIsGroup(s, t);
    assert (s + ":")[Start(s)..] == t + [':'];
    LastMayClose(t);
  }

  lemma LastNotEmpty(t: string)
    requires t != "" && t[|t| - 1] != ':'
    ensures Split(t, ':').last != ""
  {
    FrontLast(t);
    SplitSnoc(t[..|t| - 1], t[|t| - 1], ':');
  }

  /** A group that is the last token may as well be followed by a colon. */
  lemma LastMayClose(t: string)
    requires IsGroup(Split(t, ':').last)
    ensures Tokens(Split(t + [':'], ':')) == Tokens(Split(t, ':'))
  {
    var p := Split(t, ':');
    SplitSnoc(t, ':', ':');
    ClosedSnoc(p.closed, p.last);
  }

  lemma LastIsGroup(s: string, t: string)
    requires t == s[Start(s)..] && '.' !in s && Tokens(Split(t, ':')).Some? && Split(t, ':').last != ""
    ensures IsGroup(Split(t, ':').last)
  {
    var p := Split(t, ':');
    assert forall c :: c in t ==> c in s;
    if Quad(p.last).Some? {
      QuadShape(p.last);
      LastInText(t, '.');
    }
  }

  lemma LastInText(t: string, c: char)
    requires c in Split(t, ':').last
    ensures c in t
  {
    var p := Split(t, ':');
    JoinSplit(t, ':');
    JoinSnoc(p.closed, p.last, ':');
  }

  lemma UntrailedParses(f: Form)
    requires ValidForm(f) && !f.trailing
    ensures Pton6(Text6(f)) == Some(Bytes6(f))
  {
    if f.double {
      DoubleColonParses(f.left, f.right);
      Nil(Join(f.left, ':') + "::" + HalfText(f.right));
    } else {
      FullFormParses(f.right);
      Nil(HalfText(f.right));
    }
  }

  lemma FormParses(f: Form)
    requires ValidForm(f)
    ensures Pton6(Text6(f)) == Some(Bytes6(f))
  {
    var g := f.(trailing := false);
    UntrailedParses(g);
    if f.trailing {
      TrailedText(f, g);
      LastColonIgnored(Text6(g), Bytes6(f));
    }
  }

  lemma TrailedText(f: Form, g: Form)
    requires ValidForm(f) && f.trailing && g == f.(trailing := false)
    ensures var s := Text6(g); Text6(f) == s + ":" && s != "" && s[|s| - 1] != ':' && '.' !in s
  {
    EndsLikeHalf(g);
    NoDots(g);
  }

  /** The language of `inet_pton6`, with the address it gives each text. */
  lemma AcceptedIff(s: string, addr: seq<byte>)
    ensures Pton6(s) == Some(addr) <==> exists f :: ValidForm(f) && s == Text6(f) && addr == Bytes6(f)
  {
    if Pton6(s) == Some(addr) {
      var f := AcceptedForm(s, addr);
    }
    if f :| ValidForm(f) && s == Text6(f) && addr == Bytes6(f) {
      FormParses(f);
    }
  }

  // ---------- the form can be read off the text ----------

  /** The pieces between colons. */
  function Toks(s: string): seq<string>
  {
    Split(s, ':').closed + [Split(s, ':').last]
  }

  predicate DoubleAt(s: string, i: nat)
  {
    i + 1 < |s| && s[i] == ':' && s[i + 1] == ':'
  }

  predicate HasDouble(s: string)
  {
    exists i :: 0 <= i < |s| && DoubleAt(s, i)
  }

  /** A last colon that is not the second one of a `::`. */
  predicate EndsInColon(s: string)
  {
    s != "" && s[|s| - 1] == ':' && !(|s| >= 2 && s[|s| - 2] == ':')
  }

  /** How many of the eight groups are written, a dotted quad standing for two. */
  function Written(ts: seq<string>): nat
  {
    if ts == [] then 0
    else
      var t := ts[|ts| - 1];
      Written(ts[..|ts| - 1]) + (if t == "" then 0 else if '.' in t then 2 else 1)
  }

  lemma {:induction false} WrittenConcat(a: seq<string>, b: seq<string>)
    ensures Written(a + b) == Written(a) + Written(b)
  {
    if b == [] {
      Nil(a);
    } else {
      var front, last := b[..|b| - 1], b[|b| - 1];
      FrontLast(b);
      Assoc(a, front, [last]);
      Halves(a + front, [last]);
      WrittenConcat(a, front);
    }
  }

  lemma {:induction false} WrittenGroups(ts: seq<string>)
    requires Groups(ts)
    ensures Written(ts) == |ts|
  {
    if ts != [] {
      WrittenGroups(ts[..|ts| - 1]);
      GroupIsHex(ts[|ts| - 1]);
    }
  }

  lemma WrittenHalf(h: Half)
    requires ValidHalf(h)
    ensures 2 * Written(Tokens6(h)) == |HalfBytes(h)|
  {
    WrittenGroups(h.groups);
    Nil(h.groups);
    if h.quad.Some? {
      QuadShape(h.quad.value);
      WrittenConcat(h.groups, [h.quad.value]);
      assert [h.quad.value][..0] == [];
    }
  }

  function Lead(left: seq<string>): (l: seq<string>)
    ensures l != []
  {
    if left == [] then [""] else left
  }

  function Rest(f: Form): seq<string>
  {
    if f.double then Lead(f.left) + ([""] + After(f.right)) else Tokens6(f.right)
  }

  function FormTokens(f: Form): seq<string>
  {
    Rest(f) + (if f.trailing then [""] else [])
  }

  lemma RestText(f: Form)
    requires ValidForm(f)
    ensures Rest(f) != [] && Free(Rest(f), ':')
    ensures Join(Rest(f), ':') == (if f.double then Join(f.left, ':') + "::" else "") + HalfText(f.right)
  {
    HalfTokensFree(f.right);
    Nil(HalfText(f.right));
    if f.double {
      AfterText(f.right);
      HalfTokensFree(Half(f.left, None));
      Nil(f.left);
      DoubleText(Lead(f.left), After(f.right), HalfText(f.right));
      ColonsApart(Join(f.left, ':'), HalfText(f.right));
    }
  }

  lemma ColonsApart(l: string, r: string)
    ensures l + ":" + (":" + r) == l + "::" + r
  {
  }

  /** The pieces of a text of the form. */
  lemma FormToks(f: Form)
    requires ValidForm(f)
    ensures Toks(Text6(f)) == FormTokens(f)
  {
    RestText(f);
    var rest := Rest(f);
    var u := Join(rest, ':');
    Nil(u);
    Nil(rest);
    SplitJoin(rest, ':');
    FrontLast(rest);
    if f.trailing {
      SplitSnoc(u, ':', ':');
    }
  }

  /** Two colons in a row have an empty piece between them. */
  lemma DoubleSplits(s: string, i: nat)
    requires DoubleAt(s, i)
    ensures "" in Split(s, ':').closed
  {
    SplitNext(s, i, ':');
    SplitNext(s, i + 1, ':');
    SplitTake(s, i + 2, ':');
    var c := Split(s[..i], ':').closed;
    var d := Split(s[..i + 2], ':').closed;
    assert d[|c| + 1] == "" && Split(s, ':').closed[|c| + 1] == "";
  }

  lemma DoubleIff(f: Form)
    requires ValidForm(f)
    ensures HasDouble(Text6(f)) <==> f.double
  {
    var s := Text6(f);
    if f.double {
      assert DoubleAt(s, |Join(f.left, ':')|);
    }
    if i: nat :| i < |s| && DoubleAt(s, i) {
      DoubleSplits(s, i);
      FormToks(f);
      HalfTokensFree(f.right);
      if !f.double {
        ClosedInTokens(f);
        assert false;
      }
    }
  }

  /** Without a `::` no piece but the last is empty. */
  lemma ClosedInTokens(f: Form)
    requires ValidForm(f) && !f.double && Toks(Text6(f)) == FormTokens(f) && "" !in Tokens6(f.right)
    ensures "" !in Split(Text6(f), ':').closed
  {
    var p := Split(Text6(f), ':');
    assert p.closed == FormTokens(f)[..|p.closed|];
    assert |p.closed| <= |Tokens6(f.right)|;
    assert forall k :: 0 <= k < |p.closed| ==> p.closed[k] == Tokens6(f.right)[k];
  }

  lemma EmptyHalf(f: Form)
    requires ValidForm(f) && Tokens6(f.right) == []
    ensures !f.trailing && Text6(f) == Join(f.left, ':') + "::"
  {
  }

  lemma EndsInColonIff(f: Form)
    requires ValidForm(f)
    ensures EndsInColon(Text6(f)) <==> f.trailing
  {
    var g := f.(trailing := false);
    if Tokens6(f.right) != [] {
      EndsLikeHalf(g);
    } else {
      EmptyHalf(f);
    }
    assert f.trailing ==> Text6(f) == Text6(g) + ":";
  }

  lemma WrittenForm(f: Form)
    requires ValidForm(f)
    ensures 2 * Written(Toks(Text6(f))) == 2 * |f.left| + |HalfBytes(f.right)|
  {
    FormToks(f);
    WrittenHalf(f.right);
    WrittenGroups(f.left);
    WrittenConcat(Rest(f), if f.trailing then [""] else []);
    assert [""][..0] == [];
    if f.double {
      WrittenConcat(Lead(f.left), [""] + After(f.right));
      WrittenConcat([""], After(f.right));
    }
  }

  lemma ShortForm(f: Form)
    requires ValidForm(f)
    ensures ShortTokens(Toks(Text6(f))) <==> ShortTokens(f.left) && ShortTokens(Tokens6(f.right))
  {
    FormToks(f);
    assert ShortToken("");
    assert forall t :: t in FormTokens(f) <==>
      t in Tokens6(f.right) || t in f.left || (t == "" && (f.double || f.trailing));
  }

  /**
   * Accepted text is text of RFC 4291 unless it ends in a single colon, writes all eight
   * groups beside a `::`, or writes a group or an octet with too many digits.
   */
  lemma AcceptedIsRfcTextIff(s: string, addr: seq<byte>)
    requires Pton6(s) == Some(addr)
    ensures IsRfcText(s, addr) <==>
            !EndsInColon(s) && !(HasDouble(s) && Written(Toks(s)) == 8) && ShortTokens(Toks(s))
  {
    if IsRfcText(s, addr) {
      var f := RfcForm(s, addr);
      FormFacts(f);
    }
    var f := AcceptedForm(s, addr);
    FormFacts(f);
    if !f.trailing && !(f.double && Written(Toks(s)) == 8) && ShortTokens(Toks(s)) {
      ShortFormIsRfc(f);
    }
  }

  lemma FormFacts(f: Form)
    requires ValidForm(f)
    ensures var s := Text6(f);
            && (EndsInColon(s) <==> f.trailing) && (HasDouble(s) <==> f.double)
            && 2 * Written(Toks(s)) == 2 * |f.left| + |HalfBytes(f.right)|
            && (ShortTokens(Toks(s)) <==> ShortTokens(f.left) && ShortTokens(Tokens6(f.right)))
  {
    EndsInColonIff(f);
    DoubleIff(f);
    WrittenForm(f);
    ShortForm(f);
  }

  lemma RfcForm(s: string, addr: seq<byte>) returns (f: Form)
    requires IsRfcText(s, addr)
    ensures ValidForm(f) && s == Text6(f) && !f.trailing
    ensures ShortTokens(f.left) && ShortTokens(Tokens6(f.right))
    ensures f.double ==> 2 * |f.left| + |HalfBytes(f.right)| <= 14
  {
    if h :| IsFull(s, addr, h) {
      f := Form([], h, false, false);
      Nil(HalfText(h));
    } else {
      var left, right :| IsCompressed(s, addr, left, right);
      f := Form(left, right, true, false);
      Nil(s);
    }
  }

  lemma ShortFormIsRfc(f: Form)
    requires ValidForm(f) && !f.trailing && ShortTokens(f.left) && ShortTokens(Tokens6(f.right))
    requires f.double ==> 2 * |f.left| + |HalfBytes(f.right)| <= 14
    ensures IsRfcText(Text6(f), Bytes6(f))
  {
    if f.double {
      WidenHalves(GroupBytes(f.left), HalfBytes(f.right));
      Nil(Join(f.left, ':') + "::" + HalfText(f.right));
      assert IsCompressed(Text6(f), Bytes6(f), f.left, f.right);
    } else {
      Nil(HalfText(f.right));
      assert IsFull(Text6(f), Bytes6(f), f.right);
    }
  }

  // ---------- accepted, but not text of RFC 4291 ----------

  /** A colon after a text that ends in a group: the same address, outside the grammar. */
  lemma TrailingColonAccepted(s: string, addr: seq<byte>)
    requires Pton6(s) == Some(addr) && s[|s| - 1] != ':' && '.' !in s
    ensures Pton6(s + ":") == Some(addr) && forall a :: !IsRfcText(s + ":", a)
  {
    LastColonIgnored(s, addr);
    assert EndsInColon(s + ":");
    AcceptedIsRfcTextIff(s + ":", addr);
    OnlyItsAddress(s + ":", addr);
  }

  lemma OnlyItsAddress(s: string, addr: seq<byte>)
    requires Pton6(s) == Some(addr) && !IsRfcText(s, addr)
    ensures forall a :: !IsRfcText(s, a)
  {
    forall a | IsRfcText(s, a) ensures a == addr {
      RfcTextParses(s, a);
    }
  }

  /** All eight groups beside a `::`: accepted, outside the grammar. */
  lemma FullDoubleColonAccepted(left: seq<string>, right: Half)
    requires Groups(left) && ValidHalf(right) && 2 * |left| + |HalfBytes(right)| == 16
    ensures var s := Join(left, ':') + "::" + HalfText(right);
            Pton6(s).Some? && forall a :: !IsRfcText(s, a)
  {
    var f := Form(left, right, true, false);
    Nil(Join(left, ':') + "::" + HalfText(right));
    CrowdedIsNoRfcText(f);
  }

  lemma CrowdedIsNoRfcText(f: Form)
    requires ValidForm(f) && f.double && 2 * |f.left| + |HalfBytes(f.right)| == 16
    ensures Pton6(Text6(f)).Some? && forall a :: !IsRfcText(Text6(f), a)
  {
    FormParses(f);
    FormFacts(f);
    AcceptedIsRfcTextIff(Text6(f), Bytes6(f));
    OnlyItsAddress(Text6(f), Bytes6(f));
  }

  /** For instance 1::2: is accepted as 1::2 is. */
  lemma TrailingColonExample()
    ensures var s := "1" + "::" + "2";
            Pton6(s).Some? && Pton6(s + ":") == Pton6(s) && forall a :: !IsRfcText(s + ":", a)
  {
    OneDigit("1");
    OneDigit("2");
    TwoGroups("1", "2");
  }

  lemma TwoGroups(t: string, u: string)
    requires IsGroup(t) && IsGroup(u)
    ensures var s := t + "::" + u;
            Pton6(s).Some? && Pton6(s + ":") == Pton6(s) && forall a :: !IsRfcText(s + ":", a)
  {
    var f := Form([t], Half([u], None), true, false);
    Nil([u]);
    Nil(t + "::" + u);
    assert Text6(f) == t + "::" + u;
    LastOfHalf(f.right);
    NoDots(f);
    FormParses(f);
    TrailingColonAccepted(t + "::" + u, Bytes6(f));
  }

  /** A group followed by `::` is accepted however many digits it has; beyond four it is no RFC text. */
  lemma LongGroupAccepted(t: string)
    requires IsGroup(t)
    ensures Pton6(t + "::") == Some(TwoBytes(HexValue(t)) + Zeros(14))
    ensures |t| > 4 ==> forall a :: !IsRfcText(t + "::", a)
  {
    var f := Form([t], Half([], None), true, false);
    OneGroup(t);
    FormParses(f);
    if |t| > 4 {
      FormFacts(f);
      GroupIsHex(t);
      assert t in f.left && !ShortToken(t);
      AcceptedIsRfcTextIff(t + "::", Bytes6(f));
      OnlyItsAddress(t + "::", Bytes6(f));
    }
  }

  /** For instance 00001::, with four zeros too many, and so on: all have the address of 1::. */
  lemma LongGroupExample(k: nat)
    ensures var s := Padded(k) + "::";
            Pton6(s) == Some(TwoBytes(1) + Zeros(14)) && (k >= 4 ==> forall a :: !IsRfcText(s, a))
  {
    PaddedIsOne(k);
    LongGroupAccepted(Padded(k));
  }

  /** The digit 1 behind `k` zeros. */
  function Padded(k: nat): (t: string)
    ensures |t| == k + 1
  {
    if k == 0 then "1" else "0" + Padded(k - 1)
  }

  lemma PaddedFour()
    ensures Padded(4) == "00001"
  {
  }

  lemma {:induction false} PaddedIsOne(k: nat)
    ensures IsGroup(Padded(k)) && HexValue(Padded(k)) == 1
  {
    if k == 0 {
      ValueSnoc("", '1');
      assert "" + ['1'] == "1";
    } else {
      PaddedIsOne(k - 1);
      LeadingZero(Padded(k - 1));
    }
  }

  lemma {:induction false} LeadingZero(t: string)
    ensures HexValue("0" + t) == HexValue(t)
  {
    if t == "" {
      ValueSnoc("", '0');
      assert "" + ['0'] == "0" + t;
    } else {
      var front, c := t[..|t| - 1], t[|t| - 1];
      LeadingZero(front);
      ValueSnoc("0" + front, c);
      assert ("0" + front) + [c] == "0" + t;
    }
  }

  lemma OneGroup(t: string)
    requires IsGroup(t)
    ensures var f := Form([t], Half([], None), true, false);
            ValidForm(f) && Bytes6(f) == TwoBytes(HexValue(t)) + Zeros(14) && Text6(f) == t + "::"
  {
    var ts := [t];
    assert ts[..0] == [] && GroupBytes(ts) == TwoBytes(HexValue(t));
    WidenHalves(GroupBytes(ts), []);
    Nil(TwoBytes(HexValue(t)) + Zeros(14));
    Nil(GroupBytes(ts));
    Nil(t + "::");
  }
}
