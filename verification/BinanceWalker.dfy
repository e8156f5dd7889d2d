/** src/exchange/binance.rs: decoding a partial-depth frame. */
module BinanceWalker {
  import opened Prelude
  import opened FixedPoint
  import opened JsonWalker
  import opened Keys
  import opened LevelArrays
  import opened Types
  import opened Wire

  datatype Frame = Frame(id: u64, bids: seq<RawLevel>, asks: seq<RawLevel>)

  /** The update id and where the search for the sides starts: position 0 when the key is absent. */
  function IdAt(json: seq<byte>): (r: At<u64>)
    ensures r.next <= |json|
  {
    match Find(json, 0, Key(LAST_UPDATE_ID))
    case Some(i) => NumberAt(json, i + |Key(LAST_UPDATE_ID)|)
    case None => At(0, 0)
  }

  /** What `walk` returns. */
  function Decode(json: seq<byte>): Option<Frame> {
    var bids :- SideAt(json, IdAt(json).next, BIDS);
    var asks :- SideAt(json, bids.next, ASKS);
    Some(Frame(IdAt(json).value, bids.value, asks.value))
  }

  /** `walk`: total on every input, so no scanner call is made past the end of the frame. */
  method Walk(json: seq<byte>) returns (r: Option<Frame>)
    requires |json| < MAX_FRAME
    ensures r == Decode(json)
  {
    hide LevelsAt, LevelsPushFails, NumberAt, Key, Find;
    var s := new Scanner(json);
    var id: u64 := 0;
    var found := s.Seek(Key(LAST_UPDATE_ID));
    if found {
      id := s.ReadU64();
    } else {
      s.pos := 0;
    }
    found := s.Seek(Key(BIDS));
    if !found {
      return None;
    }
    var bids, _ :- ReadRawLevels(s, DEPTH);
    found := s.Seek(Key(ASKS));
    if !found {
      return None;
    }
    var asks, _ :- ReadRawLevels(s, DEPTH);
    return Some(Frame(id, bids, asks));
  }

  /** `parse_depth_json`. */
  method ParseDepthJson(json: seq<byte>, now: nat) returns (r: Option<OrderBook>)
    requires |json| < MAX_FRAME
    ensures r == match Decode(json)
                 case Some(f) => Some(OrderBook(BINANCE_ID, f.bids, f.asks, now))
                 case None => None
  {
    var frame :- Walk(json);
    return Some(OrderBook(BINANCE_ID, frame.bids, frame.asks, now));
  }

  // ---------------------------------------------------------------- wire format

  /** A depth snapshot with arbitrary bytes around and between its three fields. */
  datatype Snapshot = Snapshot(
    pre: seq<byte>, id: u64, gap1: seq<byte>, bids: seq<Pair>, gap2: seq<byte>, asks: seq<Pair>, post: seq<byte>)

  /** No filler holds the key that is searched across it, and the id's digits end where they end. */
  predicate Printable(m: Snapshot) {
    && AllWellFormed(m.bids) && AllWellFormed(m.asks)
    && Free(m.pre, Key(LAST_UPDATE_ID)) && Free(m.gap1, Key(BIDS)) && Free(m.gap2, Key(ASKS))
    && (m.gap1 != [] ==> !IsDigit(m.gap1[0]))
  }

  function Print(m: Snapshot): seq<byte> {
    (m.pre + Key(LAST_UPDATE_ID)) + (Digits(m.id) + ((m.gap1 + Key(BIDS)) + (PrintLevels(m.bids)
    + ((m.gap2 + Key(ASKS)) + (PrintLevels(m.asks) + m.post)))))
  }

  /** Decoding a printed snapshot returns its id and the first DEPTH nonzero levels of each side. */
  lemma {:induction false} SnapshotRoundTrip(m: Snapshot)
    requires Printable(m)
    ensures Decode(Print(m)) == Some(Frame(m.id, FirstN(Nonzero(m.bids), DEPTH), FirstN(Nonzero(m.asks), DEPTH)))
  {
    hide AllWellFormed, Free, Key, PrintLevels, Nonzero, SideAt, Digits, Find, NumberAt, Stands, FirstN;
    var json, head := Print(m), m.pre + Key(LAST_UPDATE_ID);
    var p := |head| + |Digits(m.id)|;
    var sides := (m.gap1 + Key(BIDS)) + (PrintLevels(m.bids)
      + ((m.gap2 + Key(ASKS)) + (PrintLevels(m.asks) + m.post)));
    StandsWhole(json);
    StandsSplit(json, 0, head, Digits(m.id) + sides);
    StandsSplit(json, |head|, Digits(m.id), sides);
    KeyFound(json, 0, m.pre, LAST_UPDATE_ID);
    FirstByte(json, p, m.gap1, BIDS, sides[|m.gap1 + Key(BIDS)|..]);
    NumberStands(json, |head|, m.id);
    SidesStand(json, p, m.gap1, m.bids, m.gap2, m.asks, m.post);
  }

  /** The exchange's own layout: `{"lastUpdateId":n,"bids":[...],"asks":[...]}` */
  function WireSnapshot(id: u64, bids: seq<Pair>, asks: seq<Pair>): Snapshot {
    Snapshot([123], id, [COMMA], bids, [COMMA], asks, [125])
  }

  lemma {:induction false} WirePrintable(id: u64, bids: seq<Pair>, asks: seq<Pair>)
    requires AllWellFormed(bids) && AllWellFormed(asks)
    ensures Printable(WireSnapshot(id, bids, asks))
  {
    hide AllWellFormed;
  }

  /** Without the id key the id reads as 0 and the sides are searched from the start. */
  lemma {:induction false} SnapshotWithoutId(
      gap1: seq<byte>, bids: seq<Pair>, gap2: seq<byte>, asks: seq<Pair>, post: seq<byte>)
    requires AllWellFormed(bids) && AllWellFormed(asks) && Free(gap1, Key(BIDS)) && Free(gap2, Key(ASKS))
    requires var json := (gap1 + Key(BIDS)) + (PrintLevels(bids) + ((gap2 + Key(ASKS)) + (PrintLevels(asks) + post)));
             Free(json, Key(LAST_UPDATE_ID))
    ensures var json := (gap1 + Key(BIDS)) + (PrintLevels(bids) + ((gap2 + Key(ASKS)) + (PrintLevels(asks) + post)));
            Decode(json) == Some(Frame(0, FirstN(Nonzero(bids), DEPTH), FirstN(Nonzero(asks), DEPTH)))
  {
    hide AllWellFormed, Key, PrintLevels, Nonzero, SideAt, Find;
    var json := (gap1 + Key(BIDS)) + (PrintLevels(bids) + ((gap2 + Key(ASKS)) + (PrintLevels(asks) + post)));
    assert Stands(json, 0, json);
    SidesStand(json, 0, gap1, bids, gap2, asks, post);
  }

  /**
   * Conversely, whatever decodes holds both keys in order, and the first occurrence of each is followed
   * by a printed level array, cut after a comma only once DEPTH levels are nonzero, which denotes the side.
   */
  lemma {:induction false} DecodeSound(json: seq<byte>) returns (i: nat, bids: seq<Pair>, pos: nat, j: nat, asks: seq<Pair>)
    requires Decode(json).Some?
    ensures Find(json, IdAt(json).next, Key(BIDS)) == Some(i) && ArrayAt(json, i + |Key(BIDS)|, bids, pos)
    ensures Find(json, pos, Key(ASKS)) == Some(j) && ArrayAt(json, j + |Key(ASKS)|, asks, |json|)
    ensures Decode(json).value.bids == Nonzero(bids) && Decode(json).value.asks == Nonzero(asks)
  {
    hide LevelsAt, Key, AllWellFormed, Nonzero, Find, ArrayAt, IdAt;
    i := Find(json, IdAt(json).next, Key(BIDS)).value;
    pos := LevelsAt(json, i + |Key(BIDS)|, DEPTH).value.next;
    bids := ArraySound(json, i + |Key(BIDS)|);
    j := Find(json, pos, Key(ASKS)).value;
    asks := ArraySound(json, j + |Key(ASKS)|);
    ArrayWithin(json, j + |Key(ASKS)|, asks, LevelsAt(json, j + |Key(ASKS)|, DEPTH).value.next);
  }

  /** For arbitrary input the decoded sides fit their arrays and hold no zero amount. */
  lemma {:induction false} DecodeBounded(json: seq<byte>)
    requires Decode(json).Some?
    ensures Bounded(Decode(json).value.bids, DEPTH) && Bounded(Decode(json).value.asks, DEPTH)
  {
    hide LevelsAt, Key, Find, Bounded;
    var i := Find(json, IdAt(json).next, Key(BIDS)).value;
    LevelsBounded(json, i + |Key(BIDS)|, DEPTH);
    var j := Find(json, LevelsAt(json, i + |Key(BIDS)|, DEPTH).value.next, Key(ASKS)).value;
    LevelsBounded(json, j + |Key(ASKS)|, DEPTH);
  }
}
