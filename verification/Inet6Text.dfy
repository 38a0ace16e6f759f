/** IPv6 text as section 2.2 of RFC 4291 writes it, and what `inet_pton6` makes of it. */
module Inet6Text {
  import opened Prelude
  import opened Text
  import opened Inet4
  import opened Inet6Parse

  ghost predicate Groups(ts: seq<string>)
  {
    forall k :: 0 <= k < |ts| ==> IsGroup(ts[k])
  }

  function GroupBytes(ts: seq<string>): (b: seq<byte>)
    requires Groups(ts)
    ensures |b| == 2 * |ts|
  {
    if ts == [] then [] else GroupBytes(ts[..|ts| - 1]) + TwoBytes(HexValue(ts[|ts| - 1]))
  }

  /** Groups, the last two of which may be written as a dotted quad. */
  datatype Half = Half(groups: seq<string>, quad: Option<string>)

  ghost predicate ValidHalf(h: Half)
  {
    Groups(h.groups) && (h.quad.Some? ==> Quad(h.quad.value).Some?)
  }

  function Tokens6(h: Half): seq<string>
  {
    h.groups + (if h.quad.Some? then [h.quad.value] else [])
  }

  ghost function HalfBytes(h: Half): seq<byte>
    requires ValidHalf(h)
  {
    GroupBytes(h.groups) + (if h.quad.Some? then Quad(h.quad.value).value else [])
  }

  function HalfText(h: Half): string
  {
    Join(Tokens6(h), ':')
  }

  // ---------- tokens of a half ----------

  lemma GroupIsHex(t: string)
    requires IsGroup(t)
    ensures ':' !in t && '.' !in t
  {
  }

  lemma QuadShape(q: string)
    requires Quad(q).Some?
    ensures '.' in q && ':' !in q && q != "" && !IsGroup(q)
  {
    if '.' !in q {
      SplitFree(q, '.');
    }
    QuadHasNoColon(q);
  }

  lemma HalfTokensFree(h: Half)
    requires ValidHalf(h)
    ensures Free(Tokens6(h), ':') && "" !in Tokens6(h)
  {
    forall t | t in Tokens6(h) ensures ':' !in t && t != "" {
      if t in h.groups {
        GroupIsHex(t);
      } else {
        QuadShape(t);
      }
    }
  }

  lemma GroupBytesSnoc(ts: seq<string>, t: string)
    requires Groups(ts) && IsGroup(t)
    ensures Groups(ts + [t]) && GroupBytes(ts + [t]) == GroupBytes(ts) + TwoBytes(HexValue(t))
  {
    assert (ts + [t])[..|ts|] == ts;
  }

  /** Groups read after the tokens `pre` append their bytes. */
  lemma {:induction false} ClosedGroups(pre: seq<string>, ts: seq<string>)
    requires Closed(pre).Some? && Groups(ts) && |Closed(pre).value.bytes| + 2 * |ts| <= 16
    ensures Closed(pre + ts) == Some(Closed(pre).value.(bytes := Closed(pre).value.bytes + GroupBytes(ts)))
  {
    var a := Closed(pre).value;
    if ts == [] {
      Nil(pre);
      Nil(a.bytes);
    } else {
      var front, last := ts[..|ts| - 1], ts[|ts| - 1];
      ClosedGroups(pre, front);
      FrontLast(ts);
      Assoc(pre, front, [last]);
      ClosedSnoc(pre + front, last);
      Assoc(a.bytes, GroupBytes(front), TwoBytes(HexValue(last)));
    }
  }

  function Front(ts: seq<string>): seq<string>
    requires ts != []
  {
    ts[..|ts| - 1]
  }

  /** The tokens of a nonempty half after `pre`, the last one at the end of the text. */
  lemma HalfParses(pre: seq<string>, h: Half)
    requires ValidHalf(h) && Tokens6(h) != []
    requires Closed(pre).Some? && |Closed(pre).value.bytes| + |HalfBytes(h)| <= 16
    ensures var t := Tokens6(h); var a := Closed(pre).value;
            Tokens(Pieces(pre + Front(t), t[|t| - 1])) == Finish(a.(bytes := a.bytes + HalfBytes(h)))
  {
    if h.quad.Some? {
      QuadHalfParses(pre, h.groups, h.quad.value);
    } else {
      Nil(h.groups);
      Nil(GroupBytes(h.groups));
      GroupHalfParses(pre, h.groups);
    }
  }

  lemma QuadHalfParses(pre: seq<string>, groups: seq<string>, q: string)
    requires Groups(groups) && Quad(q).Some?
    requires Closed(pre).Some? && |Closed(pre).value.bytes| + 2 * |groups| + 4 <= 16
    ensures var a := Closed(pre).value;
            Tokens(Pieces(pre + Front(groups + [q]), (groups + [q])[|groups|]))
            == Finish(a.(bytes := a.bytes + (GroupBytes(groups) + Quad(q).value)))
  {
    Halves(groups, [q]);
    ClosedGroups(pre, groups);
    QuadShape(q);
    Assoc(Closed(pre).value.bytes, GroupBytes(groups), Quad(q).value);
  }

  lemma GroupHalfParses(pre: seq<string>, groups: seq<string>)
    requires Groups(groups) && groups != []
    requires Closed(pre).Some? && |Closed(pre).value.bytes| + 2 * |groups| <= 16
    ensures var a := Closed(pre).value;
            Tokens(Pieces(pre + Front(groups), groups[|groups| - 1]))
            == Finish(a.(bytes := a.bytes + GroupBytes(groups)))
  {
    var last := groups[|groups| - 1];
    ClosedGroups(pre, Front(groups));
    Assoc(Closed(pre).value.bytes, GroupBytes(Front(groups)), TwoBytes(HexValue(last)));
  }

  // ---------- the forms ----------

  /** The preferred form: eight groups, or six and a dotted quad. */
  lemma FullFormParses(h: Half)
    requires ValidHalf(h) && |HalfBytes(h)| == 16
    ensures Pton6(HalfText(h)) == Some(HalfBytes(h))
  {
    var t := Tokens6(h);
    HalfTokensFree(h);
    SplitJoin(t, ':');
    FirstChar(t);
    var s := HalfText(h);
    assert s[Start(s)..] == s;
    assert Closed([]) == Some(Parsed([], None));
    HalfParses([], h);
    Nil(Front(t));
    Nil(HalfBytes(h));
  }

  lemma {:induction false} FirstChar(t: seq<string>)
    requires t != [] && Free(t, ':') && "" !in t
    ensures |Join(t, ':')| >= 1 && Join(t, ':')[0] != ':'
  {
    if |t| == 1 {
      assert t[0] in t;
      assert t[0][0] in t[0];
    } else {
      assert forall x :: x in t[..|t| - 1] ==> x in t;
      FirstChar(t[..|t| - 1]);
    }
  }

  /** What follows the `::`; when nothing does, the text ends with an empty token. */
  function After(right: Half): (t: seq<string>)
    ensures t != []
  {
    if Tokens6(right) == [] then [""] else Tokens6(right)
  }

  /** The text from the second colon on, and its tokens. */
  lemma AfterText(right: Half)
    requires ValidHalf(right)
    ensures Join(After(right), ':') == HalfText(right)
    ensures Free(After(right), ':')
    ensures Join([""] + After(right), ':') == ":" + HalfText(right)
  {
    HalfTokensFree(right);
    JoinAppend([""], After(right), ':');
    assert "" + ":" + HalfText(right) == ":" + HalfText(right);
  }

  /** The tokens of a compressed text, and where the parser finds them. */
  lemma CompressedTokens(left: seq<string>, right: Half)
    requires Groups(left) && ValidHalf(right)
    ensures var s := Join(left, ':') + "::" + HalfText(right);
            !BadStart(s) && s[Start(s)..] == Join(left + ([""] + After(right)), ':')
  {
    AfterText(right);
    var rest := [""] + After(right);
    if left == [] {
      Nil(rest);
      LeftEmpty(HalfText(right));
    } else {
      LeftNonempty(left, HalfText(right));
      JoinAppend(left, rest, ':');
    }
  }

  lemma LeftEmpty(tail: string)
    ensures var s := Join([], ':') + "::" + tail; !BadStart(s) && s[Start(s)..] == ":" + tail
  {
    var s := Join([], ':') + "::" + tail;
    assert s[1..] == ":" + tail;
  }

  lemma LeftNonempty(left: seq<string>, tail: string)
    requires Groups(left) && left != []
    ensures var s := Join(left, ':') + "::" + tail;
            !BadStart(s) && s[Start(s)..] == Join(left, ':') + [':'] + (":" + tail)
  {
    var h := Half(left, None);
    HalfTokensFree(h);
    Nil(left);
    FirstChar(left);
    var s := Join(left, ':') + "::" + tail;
    assert s[0] == Join(left, ':')[0];
    assert s[0..] == s;
    assert s == Join(left, ':') + [':'] + (":" + tail);
  }

  lemma CompressedSplit(left: seq<string>, right: Half)
    requires Groups(left) && ValidHalf(right)
    ensures Split(Join(left + ([""] + After(right)), ':'), ':')
            == Pieces((left + [""]) + Front(After(right)), After(right)[|After(right)| - 1])
  {
    var after := After(right);
    var t := left + ([""] + after);
    AfterText(right);
    forall x | x in t ensures ':' !in x {
      if x in left {
        GroupIsHex(x);
      } else if x != "" {
        assert x in after;
      }
    }
    SplitJoin(t, ':');
    FrontLast(after);
    CompressedFront(left, Front(after), after[|after| - 1]);
  }

  lemma CompressedFront(left: seq<string>, front: seq<string>, last: string)
    ensures var t := left + ([""] + (front + [last]));
            t[..|t| - 1] == (left + [""]) + front && t[|t| - 1] == last
  {
  }

  /** What `::` between two halves denotes to the parser, full or not. */
  lemma DoubleColonParses(left: seq<string>, right: Half)
    requires Groups(left) && ValidHalf(right)
    requires 2 * |left| + |HalfBytes(right)| <= 16
    ensures Pton6(Join(left, ':') + "::" + HalfText(right))
            == Some(Widen(GroupBytes(left) + HalfBytes(right), 2 * |left|))
  {
    CompressedTokens(left, right);
    CompressedSplit(left, right);
    assert Closed([]) == Some(Parsed([], None));
    ClosedGroups([], left);
    Nil(left);
    Nil(GroupBytes(left));
    ClosedSnoc(left, "");
    AfterParses(left + [""], right);
  }

  lemma AfterParses(pre: seq<string>, right: Half)
    requires ValidHalf(right) && Closed(pre).Some? && |Closed(pre).value.bytes| + |HalfBytes(right)| <= 16
    ensures var t, a := After(right), Closed(pre).value;
            Tokens(Pieces(pre + Front(t), t[|t| - 1])) == Finish(a.(bytes := a.bytes + HalfBytes(right)))
  {
    if Tokens6(right) == [] {
      assert Front([""]) == [];
      Nil(pre);
      Nil(Closed(pre).value.bytes);
    } else {
      HalfParses(pre, right);
    }
  }

  lemma WidenHalves(l: seq<byte>, r: seq<byte>)
    requires |l| + |r| <= 14
    ensures Widen(l + r, |l|) == l + Zeros(16 - |l| - |r|) + r
  {
    Halves(l, r);
  }

  /** The compressed form: `::` for one or more groups of zeros. */
  lemma CompressedFormParses(left: seq<string>, right: Half)
    requires Groups(left) && ValidHalf(right)
    requires 2 * |left| + |HalfBytes(right)| <= 14
    ensures Pton6(Join(left, ':') + "::" + HalfText(right))
            == Some(GroupBytes(left) + Zeros(16 - 2 * |left| - |HalfBytes(right)|) + HalfBytes(right))
  {
    DoubleColonParses(left, right);
    WidenHalves(GroupBytes(left), HalfBytes(right));
  }

  /** A group has one to four digits, an octet of a dotted quad one to three. */
  ghost predicate ShortToken(t: string)
  {
    if '.' in t then
      var p := Split(t, '.');
      |p.last| <= 3 && forall k :: 0 <= k < |p.closed| ==> |p.closed[k]| <= 3
    else |t| <= 4
  }

  ghost predicate ShortTokens(ts: seq<string>)
  {
    forall t :: t in ts ==> ShortToken(t)
  }

  /** The texts of section 2.2 of RFC 4291, with the address they denote. */
  ghost predicate IsRfcText(s: string, addr: seq<byte>)
  {
    || (exists h :: IsFull(s, addr, h))
    || (exists left, right :: IsCompressed(s, addr, left, right))
  }

  ghost predicate IsFull(s: string, addr: seq<byte>, h: Half)
  {
    ValidHalf(h) && ShortTokens(Tokens6(h)) && s == HalfText(h) && |HalfBytes(h)| == 16 && addr == HalfBytes(h)
  }

  ghost predicate IsCompressed(s: string, addr: seq<byte>, left: seq<string>, right: Half)
  {
    && Groups(left) && ValidHalf(right) && ShortTokens(left) && ShortTokens(Tokens6(right))
    && 2 * |left| + |HalfBytes(right)| <= 14
    && s == Join(left, ':') + "::" + HalfText(right)
    && addr == GroupBytes(left) + Zeros(16 - 2 * |left| - |HalfBytes(right)|) + HalfBytes(right)
  }

  /** Valid text gets its meaning. */
  lemma RfcTextParses(s: string, addr: seq<byte>)
    requires IsRfcText(s, addr)
    ensures Pton6(s) == Some(addr)
  {
    if h :| IsFull(s, addr, h) {
      FullFormParses(h);
    } else {
      var left, right :| IsCompressed(s, addr, left, right);
      CompressedFormParses(left, right);
    }
  }

  /**
   * "`::` in a full address is silently ignored" is what the source's notice says. It is
   * true exactly when every byte after the `::` is zero: the shift overwrites the others.
   */
  lemma FullDoubleColonIgnoredIff(left: seq<string>, right: Half)
    requires Groups(left) && ValidHalf(right)
    requires 2 * |left| + |HalfBytes(right)| == 16
    ensures var ignored := GroupBytes(left) + HalfBytes(right);
            Pton6(Join(left, ':') + "::" + HalfText(right)) == Some(ignored)
            <==> forall k :: 0 <= k < |HalfBytes(right)| ==> HalfBytes(right)[k] == 0
  {
    DoubleColonParses(left, right);
    var l, r := GroupBytes(left), HalfBytes(right);
    Halves(l, r);
    Halves(l, Zeros(|r|));
    assert Widen(l + r, |l|) == l + Zeros(|r|);
    assert (forall k :: 0 <= k < |r| ==> r[k] == 0) <==> Zeros(|r|) == r;
  }

  /** Eight groups after a `::` are all lost. */
  lemma LeadingDoubleColonLoses(groups: seq<string>)
    requires Groups(groups) && |groups| == 8
    ensures Pton6("::" + Join(groups, ':')) == Some(Zeros(16))
  {
    var right := Half(groups, None);
    Nil(groups);
    Nil(GroupBytes(groups));
    DoubleColonParses([], right);
    assert Join([], ':') + "::" + HalfText(right) == "::" + Join(groups, ':');
    Nil(Zeros(16));
  }

  /** For instance ::1:2:3:4:5:6:7:8 is accepted and read as sixteen zero bytes. */
  lemma FullDoubleColonExample()
    ensures Pton6("::" + "1:2:3:4:5:6:7:8") == Some(Zeros(16))
  {
    var ts := ["1", "2", "3", "4", "5", "6", "7", "8"];
    forall k | 0 <= k < 8 ensures IsGroup(ts[k]) {
      OneDigit(ts[k]);
    }
    LeadingDoubleColonLoses(ts);
    JoinDigits();
  }

  lemma OneDigit(t: string)
    requires |t| == 1 && IsHex(t[0])
    ensures IsGroup(t)
  {
    ValueSnoc("", t[0]);
    assert t == "" + [t[0]];
  }

  lemma JoinMore(tokens: seq<string>, last: string, all: seq<string>, text: string)
    requires tokens != [] && all == tokens + [last] && text == Join(tokens, ':') + ":" + last
    ensures Join(all, ':') == text
  {
    JoinSnoc(tokens, last, ':');
  }

  lemma JoinDigits()
    ensures Join(["1", "2", "3", "4", "5", "6", "7", "8"], ':') == "1:2:3:4:5:6:7:8"
  {
    var ts := ["1", "2", "3", "4", "5", "6", "7", "8"];
    assert Join(ts[..1], ':') == "1";
    JoinMore(ts[..1], "2", ts[..2], "1:2");
    JoinMore(ts[..2], "3", ts[..3], "1:2:3");
    JoinMore(ts[..3], "4", ts[..4], "1:2:3:4");
    JoinMore(ts[..4], "5", ts[..5], "1:2:3:4:5");
    JoinMore(ts[..5], "6", ts[..6], "1:2:3:4:5:6");
    JoinMore(ts[..6], "7", ts[..7], "1:2:3:4:5:6:7");
    JoinMore(ts[..7], "8", ts[..8], "1:2:3:4:5:6:7:8");
    assert ts[..8] == ts;
  }

  /** No dotted quad is also IPv6 text, so the family a caller infers is unambiguous. */
  lemma QuadsRejected(s: string)
    requires Quad(s).Some?
    ensures Pton6(s) == None
  {
    QuadShape(s);
    assert s[0] in s;
    assert s[Start(s)..] == s;
    SplitFree(s, ':');
    assert Closed([]) == Some(Parsed([], None));
  }
}
