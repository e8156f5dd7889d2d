/** Printed fields inside a frame: each key is found and each value read back, wherever they stand. */
module Wire {
  import opened Prelude
  import opened FixedPoint
  import opened JsonWalker
  import opened Keys
  import opened LevelArrays
  import opened Types

  /** A key that must be present at or after `pos`, and the level array behind it. */
  function SideAt(json: seq<byte>, pos: nat, name: seq<byte>): (r: Option<At<seq<RawLevel>>>)
    ensures r.Some? ==> r.value.next <= |json|
  {
    var i :- Find(json, pos, Key(name));
    LevelsAt(json, i + |Key(name)|, DEPTH)
  }

  lemma {:induction false} StandsWhole(s: seq<byte>)
    ensures Stands(s, 0, s)
  {
  }

  lemma {:induction false} FirstByte(buf: seq<byte>, pos: nat, gap: seq<byte>, name: seq<byte>, rest: seq<byte>)
    requires gap != [] ==> !IsDigit(gap[0])
    requires Stands(buf, pos, (gap + Key(name)) + rest)
    ensures pos < |buf| && !IsDigit(buf[pos])
  {
    var part := (gap + Key(name)) + rest;
    assert part[0] == if gap != [] then gap[0] else QUOTE;
    assert buf[pos] == buf[pos..pos + |part|][0];
  }

  predicate AllWhitespace(s: seq<byte>) {
    forall i :: 0 <= i < |s| ==> IsWhitespace(s[i])
  }

  lemma {:induction false} WhitespaceSkipped(buf: seq<byte>, pos: nat, ws: seq<byte>)
    requires AllWhitespace(ws) && Stands(buf, pos, ws)
    ensures AfterWhitespace(buf, pos) == AfterWhitespace(buf, pos + |ws|)
    decreases |ws|
  {
    hide Stands;
    if ws != [] {
      assert ws == [ws[0]] + ws[1..];
      StandsSplit(buf, pos, [ws[0]], ws[1..]);
      ByteStands(buf, pos, ws[0]);
      WhitespaceSkipped(buf, pos + 1, ws[1..]);
    }
  }

  lemma {:induction false} DigitsStand(buf: seq<byte>, pos: nat, d: seq<byte>)
    requires Stands(buf, pos, d) && AllDigits(d)
    requires pos + |d| < |buf| ==> !IsDigit(buf[pos + |d|]) && !IsWhitespace(buf[pos + |d|])
    ensures AfterWhitespace(buf, pos) == pos && DigitsEnd(buf, pos) == pos + |d| && buf[pos..DigitsEnd(buf, pos)] == d
  {
    assert forall i :: 0 <= i < |d| ==> buf[pos + i] == d[i];
    assert d != [] ==> IsDigit(buf[pos]);
    var e := DigitsEnd(buf, pos);
    assert forall i :: pos <= i < pos + |d| ==> buf[i] == d[i - pos];
    assert e == pos + |d|;
  }

  /** Digits followed by something else, perhaps after white space, read as their value, 0 if that exceeds 64 bits. */
  lemma {:induction false} NumberRead(buf: seq<byte>, pos: nat, ws: seq<byte>, d: seq<byte>)
    requires Stands(buf, pos, ws + d) && AllWhitespace(ws) && AllDigits(d)
    requires var end := pos + |ws| + |d|; end < |buf| ==> !IsDigit(buf[end]) && !IsWhitespace(buf[end])
    ensures NumberAt(buf, pos).value == if Val(d) <= 0xFFFF_FFFF_FFFF_FFFF then Val(d) else 0
    ensures Val(d) <= 0xFFFF_FFFF_FFFF_FFFF ==> NumberAt(buf, pos).next == pos + |ws| + |d|
  {
    hide Val, Fitting, Stands;
    StandsSplit(buf, pos, ws, d);
    WhitespaceSkipped(buf, pos, ws);
    DigitsStand(buf, pos + |ws|, d);
  }

  lemma {:induction false} NumberStands(buf: seq<byte>, pos: nat, v: u64)
    requires Stands(buf, pos, Digits(v))
    requires pos + |Digits(v)| < |buf| ==> !IsDigit(buf[pos + |Digits(v)|])
    ensures NumberAt(buf, pos) == At(v, pos + |Digits(v)|)
  {
    hide Digits, Val, Fitting;
    var end := pos + |Digits(v)|;
    assert forall i :: 0 <= i < |Digits(v)| ==> buf[pos + i] == Digits(v)[i];
    assert IsDigit(buf[pos]);
    var e := DigitsEnd(buf, pos);
    assert forall i :: pos <= i < e ==> buf[i] == buf[pos..e][i - pos];
    assert e == end;
    ValDigits(v);
  }

  /** A side printed after filler, itself after the unread rest of an earlier array, is found and read. */
  lemma {:induction false} SideStands(
      json: seq<byte>, pos: nat, unread: seq<byte>, gap: seq<byte>, name: seq<byte>, ws: seq<Pair>)
    requires IsName(name) && AllWellFormed(ws) && Free(gap, Key(name))
    requires forall i :: 0 <= i < |unread| ==> LevelByte(unread[i])
    requires unread != [] ==> unread[|unread| - 1] == RBRACKET
    requires Stands(json, pos, unread + ((gap + Key(name)) + PrintLevels(ws)))
    ensures var at := pos + |unread| + |gap| + |Key(name)|;
            SideAt(json, pos, name) == Some(At(FirstN(Nonzero(ws), DEPTH), at + Consumed(ws, DEPTH)))
  {
    hide AllWellFormed, Key, PrintLevels, LevelsAt, Consumed, Nonzero, Find;
    LevelsThenFree(unread, gap, name);
    assert unread + ((gap + Key(name)) + PrintLevels(ws)) == ((unread + gap) + Key(name)) + PrintLevels(ws);
    StandsSplit(json, pos, (unread + gap) + Key(name), PrintLevels(ws));
    KeyFound(json, pos, unread + gap, name);
    LevelsRoundTrip(json, pos + |unread| + |gap| + |Key(name)|, ws, DEPTH);
  }

  /** What a bounded reader leaves of a printed array: level bytes ending with the closing bracket. */
  lemma {:induction false} UnreadBytes(ws: seq<Pair>, n: nat) returns (unread: seq<byte>)
    requires AllWellFormed(ws)
    ensures unread == PrintLevels(ws)[Consumed(ws, n)..]
    ensures forall i :: 0 <= i < |unread| ==> LevelByte(unread[i])
    ensures unread != [] ==> unread[|unread| - 1] == RBRACKET
  {
    hide AllWellFormed, PrintLevels, Consumed;
    LevelsBytes(ws);
    unread := PrintLevels(ws)[Consumed(ws, n)..];
  }

  /** What stands before and after a cut at `k` inside the second of four parts. */
  lemma {:induction false} SplitTwo(
      buf: seq<byte>, pos: nat, a: seq<byte>, b: seq<byte>, k: nat, c: seq<byte>, post: seq<byte>)
    requires k <= |b| && Stands(buf, pos, a + (b + (c + post)))
    ensures Stands(buf, pos, a + b) && Stands(buf, pos + |a| + k, b[k..] + c)
  {
    hide Stands;
    StandsSplit(buf, pos, a, b + (c + post));
    StandsSplit(buf, pos + |a|, b, c + post);
    StandsSplit(buf, pos, a, b);
    StandsSplit(buf, pos + |a| + |b|, c, post);
    assert b == b[..k] + b[k..];
    StandsSplit(buf, pos + |a|, b[..k], b[k..]);
    StandsSplit(buf, pos + |a| + k, b[k..], c);
  }

  /**
   * Two sides printed in order decode to their first DEPTH nonzero levels, even when the first
   * side's reader fills up and leaves the rest of its array unread.
   */
  lemma {:induction false} SidesStand(
      json: seq<byte>, pos: nat, gap1: seq<byte>, bids: seq<Pair>, gap2: seq<byte>, asks: seq<Pair>, post: seq<byte>)
    requires AllWellFormed(bids) && AllWellFormed(asks) && Free(gap1, Key(BIDS)) && Free(gap2, Key(ASKS))
    requires Stands(json, pos,
               (gap1 + Key(BIDS)) + (PrintLevels(bids) + ((gap2 + Key(ASKS)) + (PrintLevels(asks) + post))))
    ensures SideAt(json, pos, BIDS).Some? && SideAt(json, pos, BIDS).value.value == FirstN(Nonzero(bids), DEPTH)
    ensures var p := SideAt(json, pos, BIDS).value.next;
            SideAt(json, p, ASKS).Some? && SideAt(json, p, ASKS).value.value == FirstN(Nonzero(asks), DEPTH)
  {
    hide AllWellFormed, Free, Key, PrintLevels, Consumed, Nonzero, SideAt, Stands, LevelByte;
    var key1, side2 := gap1 + Key(BIDS), (gap2 + Key(ASKS)) + PrintLevels(asks);
    var c := Consumed(bids, DEPTH);
    assert (gap2 + Key(ASKS)) + (PrintLevels(asks) + post) == side2 + post;
    SplitTwo(json, pos, key1, PrintLevels(bids), c, side2, post);
    assert [] + (key1 + PrintLevels(bids)) == key1 + PrintLevels(bids);
    SideStands(json, pos, [], gap1, BIDS, bids);
    var unread := UnreadBytes(bids, DEPTH);
    SideStands(json, pos + |key1| + c, unread, gap2, ASKS, asks);
  }

  /** The array of `ws`, whole or cut once full, starts at `pos` and ends no later than `limit`. */
  predicate ArrayAt(json: seq<byte>, pos: nat, ws: seq<Pair>, limit: nat) {
    && AllWellFormed(ws) && |Nonzero(ws)| <= DEPTH && ByteAt(json, pos, LBRACKET)
    && if ws == [] then Stands(json, pos, PrintLevels(ws)) && pos + 2 <= limit
       else
         || (Stands(json, pos + 1, PrintTail(ws)) && pos + 1 + |PrintTail(ws)| <= limit)
         || (Stands(json, pos + 1, PrintOpen(ws)) && pos + 1 + |PrintOpen(ws)| <= limit && |Nonzero(ws)| == DEPTH)
  }

  lemma {:induction false} ArrayWithin(json: seq<byte>, pos: nat, ws: seq<Pair>, limit: nat)
    requires ArrayAt(json, pos, ws, limit) && limit <= |json|
    ensures ArrayAt(json, pos, ws, |json|)
  {
    hide AllWellFormed, Nonzero, PrintTail, PrintOpen, PrintLevels, Stands;
  }

  lemma {:induction false} ArraySound(json: seq<byte>, pos: nat) returns (ws: seq<Pair>)
    requires LevelsAt(json, pos, DEPTH).Some?
    ensures AllWellFormed(ws) && LevelsAt(json, pos, DEPTH).value.value == Nonzero(ws)
    ensures ArrayAt(json, pos, ws, LevelsAt(json, pos, DEPTH).value.next)
  {
    hide LevelsAt, WellFormed, AllWellFormed, Nonzero, PrintTail, PrintOpen, PrintLevels, Stands;
    ws := LevelsSound(json, pos, DEPTH);
  }

  lemma {:induction false} NothingWellFormed()
    ensures AllWellFormed([]) && Nonzero([]) == []
  {
  }

  /** Whatever a side decodes from is a printed array, whole or cut once full, right behind its key. */
  lemma {:induction false} OptionalSound(json: seq<byte>, pos: nat, name: seq<byte>) returns (ws: seq<Pair>)
    requires pos <= |json| && OptionalLevelsAt(json, pos, Key(name), DEPTH).Some?
    ensures AllWellFormed(ws) && OptionalLevelsAt(json, pos, Key(name), DEPTH).value.value == Nonzero(ws)
    ensures match Find(json, pos, Key(name))
            case Some(i) => ArrayAt(json, i + |Key(name)|, ws, OptionalLevelsAt(json, pos, Key(name), DEPTH).value.next)
            case None => ws == []
  {
    hide LevelsAt, Key, AllWellFormed, Nonzero, Find, ArrayAt;
    if Find(json, pos, Key(name)).Some? {
      ws := ArraySound(json, Find(json, pos, Key(name)).value + |Key(name)|);
    } else {
      NothingWellFormed();
      ws := [];
    }
  }
}
