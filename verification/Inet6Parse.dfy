/** `inet_pton6`: IPv6 presentation text to 16 bytes. */
module Inet6Parse {
  import opened Prelude
  import opened Text
  import opened Inet4

  // ---------- what the parser accepts, token by token ----------

  predicate IsGroup(t: string)
  {
    t != "" && AllHex(t) && HexValue(t) <= 0xffff
  }

  function TwoBytes(v: nat): seq<byte>
    requires v <= 0xffff
  {
    [v / 0x100, v % 0x100]
  }

  /** The bytes stored so far and where `::` was seen. */
  datatype Parsed = Parsed(bytes: seq<byte>, colon: Option<nat>)

  ghost predicate Fits(a: Parsed)
  {
    |a.bytes| <= 16 && (a.colon.Some? ==> a.colon.value <= |a.bytes|)
  }

  /** A token followed by a colon; an empty one marks the `::`. */
  function AddClosed(a: Parsed, t: string): (r: Option<Parsed>)
    requires Fits(a)
    ensures r.Some? ==> Fits(r.value)
  {
    if t == "" then
      if a.colon.Some? then None else Some(a.(colon := Some(|a.bytes|)))
    else if IsGroup(t) && |a.bytes| + 2 <= 16 then
      Some(a.(bytes := a.bytes + TwoBytes(HexValue(t))))
    else None
  }

  function Closed(tokens: seq<string>): (r: Option<Parsed>)
    ensures r.Some? ==> Fits(r.value)
  {
    if tokens == [] then Some(Parsed([], None)) else
    var a :- Closed(tokens[..|tokens| - 1]);
    AddClosed(a, tokens[|tokens| - 1])
  }

  /** The token that runs to the end of the text: nothing, a group or a dotted quad. */
  function AddLast(a: Parsed, t: string): (r: Option<Parsed>)
    requires Fits(a)
    ensures r.Some? ==> Fits(r.value)
  {
    if t == "" then Some(a)
    else if IsGroup(t) && |a.bytes| + 2 <= 16 then
      Some(a.(bytes := a.bytes + TwoBytes(HexValue(t))))
    else if Quad(t).Some? && |a.bytes| + 4 <= 16 then
      Some(a.(bytes := a.bytes + Quad(t).value))
    else None
  }

  /**
   * `bytes` widened to 16 by zeros at `colon`; when there is no room for a zero, what
   * follows the `::` is lost.
   */
  function Widen(bytes: seq<byte>, colon: nat): (r: seq<byte>)
    requires colon <= |bytes| <= 16
    ensures |r| == 16
  {
    if |bytes| == 16 then bytes[..colon] + Zeros(16 - colon)
    else bytes[..colon] + Zeros(16 - |bytes|) + bytes[colon..]
  }

  function Finish(a: Parsed): (r: Option<seq<byte>>)
    requires Fits(a)
    ensures r.Some? ==> |r.value| == 16
  {
    match a.colon
    case Some(c) => Some(Widen(a.bytes, c))
    case None => if |a.bytes| == 16 then Some(a.bytes) else None
  }

  function Tokens(p: Pieces): (r: Option<seq<byte>>)
    ensures r.Some? ==> |r.value| == 16
  {
    var a :- Closed(p.closed);
    var b :- AddLast(a, p.last);
    Finish(b)
  }

  /** A leading colon must be the first half of a `::`, whose second half opens the tokens. */
  predicate BadStart(s: string)
  {
    |s| >= 1 && s[0] == ':' && !(|s| >= 2 && s[1] == ':')
  }

  function Start(s: string): (k: nat)
    ensures k <= |s|
  {
    if |s| >= 1 && s[0] == ':' then 1 else 0
  }

  function Pton6(s: string): (r: Option<seq<byte>>)
    ensures r.Some? ==> |r.value| == 16
  {
    if BadStart(s) then None else Tokens(Split(s[Start(s)..], ':'))
  }

  // ---------- why each `return 0` is right ----------

  lemma {:induction false} ClosedPrefix(tokens: seq<string>, k: nat)
    requires k <= |tokens| && Closed(tokens[..k]) == None
    ensures Closed(tokens) == None
  {
    if k < |tokens| {
      var front := tokens[..|tokens| - 1];
      assert front[..k] == tokens[..k];
      ClosedPrefix(front, k);
    } else {
      assert tokens[..k] == tokens;
    }
  }

  lemma ClosedSnoc(tokens: seq<string>, t: string)
    ensures Closed(tokens + [t]) == if Closed(tokens) == None then None else AddClosed(Closed(tokens).value, t)
  {
    assert (tokens + [t])[..|tokens|] == tokens;
  }

  /** A token rejected both as a closed and as the last one, however it continues. */
  ghost predicate Spoiled(t: string)
  {
    || (AllHex(t) && HexValue(t) > 0xffff)
    || (exists i :: 0 <= i < |t| && !IsHex(t[i]) && t[i] != '.')
  }

  lemma SpoiledStays(t: string, w: string)
    requires Spoiled(t) && t <= w
    ensures w != "" && !IsGroup(w) && Quad(w) == None
  {
    if i :| 0 <= i < |t| && !IsHex(t[i]) && t[i] != '.' {
      assert w[i] == t[i];
      ForeignChar(w, i);
    } else {
      ValueMonotone(t, w);
      OverlongNotOctet(t, w);
    }
  }

  lemma OverlongNotOctet(t: string, w: string)
    requires AllHex(t) && HexValue(t) > 0xffff && t <= w
    ensures Quad(w) == None
  {
    SplitFree(t, '.');
    assert w[..|t|] == t;
    SplitTake(w, |t|, '.');
    var first := Piece(Split(w, '.'), 0);
    if IsOctet(first) {
      DecAsHex(first);
      ValueMonotone(t, first);
    }
  }

  lemma NotAGroup(t: string, k: nat)
    requires k < |t| && !IsHex(t[k])
    ensures t != "" && !IsGroup(t)
  {
  }

  /** If the token after the closed ones can neither be closed nor be last, the text is rejected. */
  lemma TokenRejects(closed: seq<string>, w: Pieces)
    requires closed <= w.closed
    requires var t := Piece(w, |closed|); t != "" && !IsGroup(t)
    requires |w.closed| == |closed| && Closed(closed).Some? ==> AddLast(Closed(closed).value, w.last) == None
    ensures Tokens(w) == None
  {
    if |closed| < |w.closed| {
      CannotClose(closed, w.closed);
    } else {
      assert w.closed == closed;
    }
  }

  lemma CannotClose(closed: seq<string>, all: seq<string>)
    requires |closed| < |all| && closed <= all && all[|closed|] != "" && !IsGroup(all[|closed|])
    ensures Closed(all) == None
  {
    var k := |closed|;
    assert all[..k + 1] == closed + [all[k]];
    ClosedSnoc(closed, all[k]);
    ClosedPrefix(all, k + 1);
  }

  /** An overlong group or a foreign character in the token being read. */
  lemma SpoiledRejects(s: string, i: nat)
    requires i <= |s| && Spoiled(Split(s[..i], ':').last)
    ensures Tokens(Split(s, ':')) == None
  {
    SplitTake(s, i, ':');
    var p, w := Split(s[..i], ':'), Split(s, ':');
    SpoiledStays(p.last, Piece(w, |p.closed|));
    TokenRejects(p.closed, w);
  }

  /** Closed tokens that cannot be. */
  lemma ClosedRejects(s: string, i: nat)
    requires i <= |s| && Closed(Split(s[..i], ':').closed) == None
    ensures Tokens(Split(s, ':')) == None
  {
    SplitTake(s, i, ':');
    var p, w := Split(s[..i], ':'), Split(s, ':');
    assert w.closed[..|p.closed|] == p.closed;
    ClosedPrefix(w.closed, |p.closed|);
  }

  /** A dot in a token that does not run on as a dotted quad for which there is room. */
  lemma DotRejects(s: string, i: nat)
    requires i < |s| && s[i] == '.'
    requires var p := Split(s[..i], ':');
             Closed(p.closed).Some? &&
             (Quad(p.last + s[i..]) == None || |Closed(p.closed).value.bytes| + 4 > 16)
    ensures Tokens(Split(s, ':')) == None
  {
    var p, w := Split(s[..i], ':'), Split(s, ':');
    SplitNext(s, i, ':');
    SplitTake(s, i + 1, ':');
    SplitTake(s, i, ':');
    var t := Piece(w, |p.closed|);
    assert (p.last + ['.'])[|p.last|] == '.';
    NotAGroup(t, |p.last|);
    TokenRejects(p.closed, w);
  }

  // ---------- the scan ----------

  /** What the scan has in its variables after reading `i` characters of `s`. */
  ghost predicate Scanned6(s: string, i: int, curtok: int, tmp: seq<byte>, tp: int, colonp: Option<nat>,
                           sawXdigit: bool, val: int)
  {
    && 0 <= curtok <= i <= |s|
    && var p := Split(s[..i], ':');
       && Held(p.closed, tmp, tp, colonp)
       && p.last == s[curtok..i]
       && Reading(p.last, sawXdigit, val)
  }

  /** The bytes of the closed tokens are in `tmp`. */
  ghost predicate Held(closed: seq<string>, tmp: seq<byte>, tp: int, colonp: Option<nat>)
  {
    && |tmp| == 16 && 0 <= tp <= 16
    && (forall k :: tp <= k < 16 ==> tmp[k] == 0)
    && Closed(closed) == Some(Parsed(tmp[..tp], colonp))
  }

  /** The token being read is so far a group, or empty. */
  ghost predicate Reading(last: string, sawXdigit: bool, val: int)
  {
    && AllHex(last)
    && val == HexValue(last) <= 0xffff
    && sawXdigit == (last != "")
  }

  /** Storing `b` at `tp` appends it to the bytes so far. */
  lemma Stored(tmp: seq<byte>, tp: int, b: seq<byte>)
    requires |tmp| == 16 && 0 <= tp && tp + |b| <= 16 && forall k :: tp <= k < 16 ==> tmp[k] == 0
    ensures var t := tmp[..tp] + b + tmp[tp + |b|..];
            && |t| == 16 && t[..tp + |b|] == tmp[..tp] + b
            && forall k :: tp + |b| <= k < 16 ==> t[k] == 0
  {
  }

  lemma ScanRead(s: string, i: int, curtok: int, tmp: seq<byte>, tp: int, colonp: Option<nat>, sawXdigit: bool, val: int, v: int)
    requires Scanned6(s, i, curtok, tmp, tp, colonp, sawXdigit, val) && i < |s| && IsHex(s[i])
    requires v == HexValue(s[curtok..i + 1]) <= 0xffff
    ensures Scanned6(s, i + 1, curtok, tmp, tp, colonp, true, v)
  {
    SplitNext(s, i, ':');
    SliceNext(s, curtok, i);
    HexSnoc(s[curtok..i], s[i]);
  }

  lemma HexSnoc(t: string, c: char)
    requires AllHex(t) && IsHex(c)
    ensures AllHex(t + [c]) && t + [c] != ""
  {
  }

  lemma ScanOverlong(s: string, i: nat)
    requires i < |s| && IsHex(s[i]) && AllHex(Split(s[..i], ':').last)
    requires HexValue(Split(s[..i], ':').last + [s[i]]) > 0xffff
    ensures Tokens(Split(s, ':')) == None
  {
    SplitNext(s, i, ':');
    SpoiledRejects(s, i + 1);
  }

  lemma ScanHex(s: string, i: int, curtok: int, tmp: seq<byte>, tp: int, colonp: Option<nat>, sawXdigit: bool, val: int)
    requires Scanned6(s, i, curtok, tmp, tp, colonp, sawXdigit, val) && i < |s| && IsHex(s[i])
    ensures var v := 16 * val + HexDigit(s[i]);
            if v <= 0xffff then Scanned6(s, i + 1, curtok, tmp, tp, colonp, true, v)
            else Tokens(Split(s, ':')) == None
  {
    var v := 16 * val + HexDigit(s[i]);
    ValueSnoc(s[curtok..i], s[i]);
    SliceNext(s, curtok, i);
    if v <= 0xffff {
      ScanRead(s, i, curtok, tmp, tp, colonp, sawXdigit, val, v);
    } else {
      ScanOverlong(s, i);
    }
  }

  lemma ScanForeign(s: string, i: nat)
    requires i < |s| && !IsHex(s[i]) && s[i] != ':' && s[i] != '.'
    ensures Tokens(Split(s, ':')) == None
  {
    SplitNext(s, i, ':');
    var last := Split(s[..i + 1], ':').last;
    assert last[|last| - 1] == s[i];
    SpoiledRejects(s, i + 1);
  }

  /** A colon after nothing: the second half of a `::`, allowed once. */
  lemma ScanDoubleColon(s: string, i: int, curtok: int, tmp: seq<byte>, tp: int, colonp: Option<nat>, val: int)
    requires Scanned6(s, i, curtok, tmp, tp, colonp, false, val) && i < |s| && s[i] == ':'
    ensures if colonp == None then Scanned6(s, i + 1, i + 1, tmp, tp, Some(tp), false, 0)
            else Tokens(Split(s, ':')) == None
    ensures val == 0
  {
    SplitNext(s, i, ':');
    var p := Split(s[..i], ':');
    ColonsHeld(p.closed, tmp, tp, colonp);
    if colonp.Some? {
      ClosedRejects(s, i + 1);
    } else {
      NewToken(s, i + 1, p.closed + [p.last], tmp, tp, Some(tp));
    }
  }

  lemma ColonsHeld(closed: seq<string>, tmp: seq<byte>, tp: int, colonp: Option<nat>)
    requires Held(closed, tmp, tp, colonp)
    ensures if colonp == None then Held(closed + [""], tmp, tp, Some(tp)) else Closed(closed + [""]) == None
  {
    ClosedSnoc(closed, "");
  }

  lemma ScanColon(s: string, i: int, curtok: int, tmp: seq<byte>, tp: int, colonp: Option<nat>, val: int)
    requires Scanned6(s, i, curtok, tmp, tp, colonp, true, val) && i < |s| && s[i] == ':'
    ensures tp + 2 <= 16 ==>
            Scanned6(s, i + 1, i + 1, tmp[..tp] + TwoBytes(val) + tmp[tp + 2..], tp + 2, colonp, false, 0)
    ensures tp + 2 > 16 ==> Tokens(Split(s, ':')) == None
  {
    SplitNext(s, i, ':');
    var p := Split(s[..i], ':');
    if tp + 2 > 16 {
      NoRoom(p.closed, p.last, tmp, tp, colonp, val);
      ClosedRejects(s, i + 1);
    } else {
      GroupHeld(p.closed, p.last, tmp, tp, colonp, val);
      NewToken(s, i + 1, p.closed + [p.last], tmp[..tp] + TwoBytes(val) + tmp[tp + 2..], tp + 2, colonp);
    }
  }

  /** After a colon a new token begins. */
  lemma NewToken(s: string, i: int, closed: seq<string>, tmp: seq<byte>, tp: int, colonp: Option<nat>)
    requires 0 <= i <= |s| && Split(s[..i], ':') == Pieces(closed, "") && Held(closed, tmp, tp, colonp)
    ensures Scanned6(s, i, i, tmp, tp, colonp, false, 0)
  {
  }

  lemma NoRoom(closed: seq<string>, last: string, tmp: seq<byte>, tp: int, colonp: Option<nat>, val: int)
    requires Held(closed, tmp, tp, colonp) && Reading(last, true, val) && tp + 2 > 16
    ensures Closed(closed + [last]) == None
  {
    ClosedSnoc(closed, last);
  }

  lemma GroupHeld(closed: seq<string>, last: string, tmp: seq<byte>, tp: int, colonp: Option<nat>, val: int)
    requires Held(closed, tmp, tp, colonp) && Reading(last, true, val) && tp + 2 <= 16
    ensures Held(closed + [last], tmp[..tp] + TwoBytes(val) + tmp[tp + 2..], tp + 2, colonp)
  {
    ClosedSnoc(closed, last);
    Stored(tmp, tp, TwoBytes(val));
  }

  /** The bytes that the text leaves in `tmp`, before `::` is widened. */
  ghost predicate Scanned(s: string, tmp: seq<byte>, tp: int, colonp: Option<nat>)
  {
    && |tmp| == 16 && 0 <= tp <= 16
    && (forall k :: tp <= k < 16 ==> tmp[k] == 0)
    && (colonp.Some? ==> colonp.value <= tp)
    && Tokens(Split(s, ':')) == Finish(Parsed(tmp[..tp], colonp))
  }

  lemma QuadHasNoColon(tok: string)
    requires Quad(tok).Some?
    ensures ':' !in tok
  {
    if k :| 0 <= k < |tok| && tok[k] == ':' {
      ForeignChar(tok, k);
    }
  }

  /** A dot: the token from `curtok` must run to the end as a dotted quad that fits. */
  lemma ScanDotted(s: string, i: int, curtok: int, tmp: seq<byte>, tp: int, colonp: Option<nat>, sawXdigit: bool, val: int)
    requires Scanned6(s, i, curtok, tmp, tp, colonp, sawXdigit, val) && i < |s| && s[i] == '.'
    ensures tp + 4 <= 16 && Quad(s[curtok..]).Some? ==>
            Scanned(s, tmp[..tp] + Quad(s[curtok..]).value + tmp[tp + 4..], tp + 4, colonp)
    ensures tp + 4 > 16 || Quad(s[curtok..]) == None ==> Tokens(Split(s, ':')) == None
  {
    if tp + 4 <= 16 && Quad(s[curtok..]).Some? {
      DottedStored(s, i, curtok, tmp, tp, colonp);
    } else {
      SliceRest(s, curtok, i);
      DotRejects(s, i);
    }
  }

  lemma DottedStored(s: string, i: int, curtok: int, tmp: seq<byte>, tp: int, colonp: Option<nat>)
    requires 0 <= curtok <= i < |s| && s[i] == '.' && Split(s[..i], ':').last == s[curtok..i]
    requires Held(Split(s[..i], ':').closed, tmp, tp, colonp) && tp + 4 <= 16 && Quad(s[curtok..]).Some?
    ensures Scanned(s, tmp[..tp] + Quad(s[curtok..]).value + tmp[tp + 4..], tp + 4, colonp)
  {
    QuadRunsToEnd(s, i, curtok);
    NotAGroup(s[curtok..], i - curtok);
    QuadStored(s, s[curtok..], tmp, tp, colonp);
  }

  lemma QuadStored(s: string, tok: string, tmp: seq<byte>, tp: int, colonp: Option<nat>)
    requires |tmp| == 16 && 0 <= tp && tp + 4 <= 16 && (forall k :: tp <= k < 16 ==> tmp[k] == 0)
    requires Split(s, ':').last == tok && tok != "" && !IsGroup(tok) && Quad(tok).Some?
    requires Closed(Split(s, ':').closed) == Some(Parsed(tmp[..tp], colonp))
    ensures Scanned(s, tmp[..tp] + Quad(tok).value + tmp[tp + 4..], tp + 4, colonp)
  {
    Stored(tmp, tp, Quad(tok).value);
  }

  lemma QuadRunsToEnd(s: string, i: int, curtok: int)
    requires 0 <= curtok <= i <= |s| && Split(s[..i], ':').last == s[curtok..i] && Quad(s[curtok..]).Some?
    ensures Split(s, ':') == Pieces(Split(s[..i], ':').closed, s[curtok..])
  {
    QuadHasNoColon(s[curtok..]);
    SliceRest(s, curtok, i);
    DropIn(s, curtok, i);
    TakeDrop(s, i);
    SplitConcat(s[..i], s[i..], ':');
  }

  /** The end of the text: a pending group is stored, or there is no room for it. */
  lemma ScanEnd(s: string, curtok: int, tmp: seq<byte>, tp: int, colonp: Option<nat>, sawXdigit: bool, val: int)
    requires Scanned6(s, |s|, curtok, tmp, tp, colonp, sawXdigit, val)
    ensures !sawXdigit ==> Scanned(s, tmp, tp, colonp)
    ensures sawXdigit && tp + 2 <= 16 ==>
            Scanned(s, tmp[..tp] + TwoBytes(val) + tmp[tp + 2..], tp + 2, colonp)
    ensures sawXdigit && tp + 2 > 16 ==> Tokens(Split(s, ':')) == None
  {
    assert s[..|s|] == s;
    var p := Split(s, ':');
    if sawXdigit && tp + 2 <= 16 {
      Stored(tmp, tp, TwoBytes(val));
    }
  }

  /** The two bytes of a group, high byte first. */
  method StoreGroup(tmp: array<byte>, tp: nat, val: nat)
    requires tmp.Length == 16 && tp + 2 <= 16 && val <= 0xffff
    modifies tmp
    ensures tmp[..] == old(tmp[..tp]) + TwoBytes(val) + old(tmp[tp + 2..])
  {
    tmp[tp] := val / 0x100;
    tmp[tp + 1] := val % 0x100;
  }

  /**
   * The shift by hand from `colonp` up to `endp`, reading and writing the same buffer;
   * it leaves what inserting zeros at `colonp` would.
   */
  method ShiftByHand(tmp: array<byte>, colonp: nat, tp: nat)
    requires tmp.Length == 16 && colonp <= tp <= 16
    requires forall k :: tp <= k < 16 ==> tmp[k] == 0
    modifies tmp
    ensures tmp[..] == Widen(old(tmp[..tp]), colonp)
  {
    ghost var was := tmp[..];
    var n := tp - colonp;
    var i := 1;
    while i <= n
      invariant 1 <= i <= n + 1
      invariant forall j :: 0 <= j < tp - i + 1 ==> tmp[j] == was[j]
      invariant forall j :: tp - i + 1 <= j < 16 - i + 1 ==> tmp[j] == 0
      invariant forall j :: 16 - i + 1 <= j < 16 ==> tmp[j] == if tp == 16 then 0 else was[j - (16 - tp)]
    {
      tmp[16 - i] := tmp[colonp + n - i];
      tmp[colonp + n - i] := 0;
      i := i + 1;
    }
    assert was[..tp][..colonp] == was[..colonp];
  }

  /** At a dot: the rest of the text must be a dotted quad, stored if there is room. */
  method DottedTail(src: cstring, i: nat, curtok: nat, tmp: array<byte>, tp: nat, colonp: Option<nat>, sawXdigit: bool, val: int)
    returns (r: Option<(nat, Option<nat>)>)
    requires tmp.Length == 16 && Scanned6(src, i, curtok, tmp[..], tp, colonp, sawXdigit, val)
    requires i < |src| && src[i] == '.'
    modifies tmp
    ensures r == None ==> Tokens(Split(src, ':')) == None
    ensures r.Some? ==> Scanned(src, tmp[..], r.value.0, r.value.1)
  {
    ScanDotted(src, i, curtok, tmp[..], tp, colonp, sawXdigit, val);
    if tp + 4 <= 16 {
      var rc := InetPton4(src[curtok..], tmp, tp);
      if rc > 0 {
        return Some((tp + 4, colonp));
      }
    }
    return None;
  }

  /** At the end of the text: a pending group is stored if there is room. */
  method LastGroup(src: cstring, curtok: nat, tmp: array<byte>, tp: nat, colonp: Option<nat>, sawXdigit: bool, val: int)
    returns (r: Option<(nat, Option<nat>)>)
    requires tmp.Length == 16 && Scanned6(src, |src|, curtok, tmp[..], tp, colonp, sawXdigit, val)
    modifies tmp
    ensures r == None ==> Tokens(Split(src, ':')) == None
    ensures r.Some? ==> Scanned(src, tmp[..], r.value.0, r.value.1)
  {
    ScanEnd(src, curtok, tmp[..], tp, colonp, sawXdigit, val);
    if sawXdigit {
      if tp + 2 > 16 {
        return None;
      }
      StoreGroup(tmp, tp, val);
      return Some((tp + 2, colonp));
    }
    return Some((tp, colonp));
  }

  /** At a hexadecimal digit: the group goes on while its value fits. */
  method Digit(src: cstring, i: nat, ghost curtok: nat, ghost tmp: seq<byte>, ghost tp: nat, ghost colonp: Option<nat>,
               ghost sawXdigit: bool, val: int)
    returns (v: Option<int>)
    requires Scanned6(src, i, curtok, tmp, tp, colonp, sawXdigit, val) && i < |src| && IsHex(src[i])
    ensures v.Some? ==> Scanned6(src, i + 1, curtok, tmp, tp, colonp, true, v.value)
    ensures v == None ==> Tokens(Split(src, ':')) == None
  {
    ScanHex(src, i, curtok, tmp, tp, colonp, sawXdigit, val);
    var more := 16 * val + HexDigit(src[i]);
    v := if more <= 0xffff then Some(more) else None;
  }

  /** At a colon: the second one of a `::`, or the end of a group that is stored if there is room. */
  method Colon(src: cstring, i: nat, curtok: nat, tmp: array<byte>, tp: nat, colonp: Option<nat>, sawXdigit: bool, val: int)
    returns (r: Option<(nat, Option<nat>)>)
    requires tmp.Length == 16 && Scanned6(src, i, curtok, tmp[..], tp, colonp, sawXdigit, val)
    requires i < |src| && src[i] == ':'
    modifies tmp
    ensures r == None ==> Tokens(Split(src, ':')) == None
    ensures r.Some? ==> Scanned6(src, i + 1, i + 1, tmp[..], r.value.0, r.value.1, false, 0)
  {
    if !sawXdigit {
      ScanDoubleColon(src, i, curtok, tmp[..], tp, colonp, val);
      if colonp.Some? {
        return None;
      }
      return Some((tp, Some(tp)));
    }
    ScanColon(src, i, curtok, tmp[..], tp, colonp, val);
    if tp + 2 > 16 {
      return None;
    }
    StoreGroup(tmp, tp, val);
    return Some((tp + 2, colonp));
  }

  /**
   * The scanning loop of `inet_pton6`, over the text after a skipped first colon: None for
   * its `return 0`, otherwise the final `tp` and `colonp`.
   */
  method Scan6(src: cstring, tmp: array<byte>) returns (r: Option<(nat, Option<nat>)>)
    requires tmp.Length == 16 && forall k :: 0 <= k < 16 ==> tmp[k] == 0
    modifies tmp
    ensures r == None ==> Tokens(Split(src, ':')) == None
    ensures r.Some? ==> Scanned(src, tmp[..], r.value.0, r.value.1)
  {
    var tp: nat, colonp: Option<nat>, sawXdigit, val := 0, None, false, 0;
    var i, curtok := 0, 0;
    while i < |src|
      invariant Scanned6(src, i, curtok, tmp[..], tp, colonp, sawXdigit, val)
      decreases |src| - i
    {
      var ch := src[i];
      if IsHex(ch) {
        var v := Digit(src, i, curtok, tmp[..], tp, colonp, sawXdigit, val);
        if v == None {
          return None;
        }
        val, sawXdigit := v.value, true;
      } else if ch == ':' {
        var at := Colon(src, i, curtok, tmp, tp, colonp, sawXdigit, val);
        if at == None {
          return None;
        }
        tp, colonp := at.value.0, at.value.1;
        sawXdigit, val, curtok := false, 0, i + 1;
      } else if ch == '.' {
        r := DottedTail(src, i, curtok, tmp, tp, colonp, sawXdigit, val);
        return;
      } else {
        ScanForeign(src, i);
        return None;
      }
      i := i + 1;
    }
    r := LastGroup(src, curtok, tmp, tp, colonp, sawXdigit, val);
  }

  /** After the scan: a `::` is widened, and the address must be complete. */
  method FinishScan(s: string, tmp: array<byte>, tp0: nat, colonp: Option<nat>) returns (ok: bool)
    requires tmp.Length == 16 && Scanned(s, tmp[..], tp0, colonp)
    modifies tmp
    ensures ok <==> Tokens(Split(s, ':')).Some?
    ensures ok ==> tmp[..] == Tokens(Split(s, ':')).value
  {
    var tp := tp0;
    if colonp.Some? {
      ShiftByHand(tmp, colonp.value, tp);
      tp := 16;
    }
    assert tmp[..] == tmp[..16];
    return tp == 16;
  }

  /**
   * `inet_pton6`: 1 and the 16 bytes of `Pton6` stored, or 0 with `dst` untouched.
   */
  method InetPton6(src: cstring, dst: array<byte>) returns (rc: int)
    requires dst.Length >= 16
    modifies dst
    ensures rc == (if Pton6(src).Some? then 1 else 0)
    ensures Pton6(src) == None ==> dst[..] == old(dst[..])
    ensures Pton6(src).Some? ==> dst[..] == Pton6(src).value + old(dst[16..])
  {
    var tmp := new byte[16](_ => 0);
    if BadStart(src) {
      return 0;
    }
    var r := Scan6(src[Start(src)..], tmp);
    if r == None {
      return 0;
    }
    var ok := FinishScan(src[Start(src)..], tmp, r.value.0, r.value.1);
    if !ok {
      return 0;
    }
    MemCpy(dst, 0, tmp[..]);
    return 1;
  }
}
