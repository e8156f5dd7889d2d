/** Decode, store, merge: from two wire messages to the published summary. */
module Pipeline {
  import opened Prelude
  import opened FixedPoint
  import opened JsonWalker
  import opened LevelArrays
  import opened Types
  import opened Merge
  import opened Merger
  import opened Exchange
  import SlotProtocol
  import BinanceWalker
  import BitstampWalker
  import Layouts

  /** Every level of a printed side, zero amounts included. */
  function AllLevels(ws: seq<Pair>): (r: seq<RawLevel>)
    requires AllWellFormed(ws)
    ensures |r| == |ws|
  {
    seq(|ws|, i requires 0 <= i < |ws| => Denoted(ws[i]))
  }

  function Wire(side: Side, bids: seq<Pair>, asks: seq<Pair>): seq<Pair> {
    if side.Bid? then bids else asks
  }

  /** All nonzero levels of both messages, per exchange, however many there are. */
  function FullSlices(side: Side, m: BinanceWalker.Snapshot, w: BitstampWalker.Message): seq<TaggedSlice>
    requires BinanceWalker.Printable(m) && BitstampWalker.Printable(w)
  {
    [TaggedSlice(BINANCE_ID, Nonzero(Wire(side, m.bids, m.asks))),
     TaggedSlice(BITSTAMP_ID, Nonzero(Wire(side, w.bids, w.asks)))]
  }

  predicate StrictSides(bids: seq<Pair>, asks: seq<Pair>)
    requires AllWellFormed(bids) && AllWellFormed(asks)
  {
    StrictByPrice(Bid, AllLevels(bids)) && StrictByPrice(Ask, AllLevels(asks))
  }

  /** Both messages are the last of their exchange and fresh at `now`. */
  predicate BothCurrent(m: BinanceWalker.Snapshot, w: BitstampWalker.Message, t1: nat, t2: nat, h: seq<Arrival>, now: nat)
  {
    var a, b := BinanceReading(BinanceWalker.Print(m), t1), BitstampReading(BitstampWalker.Print(w), t2);
    && a.Book? && LastWith(h, BINANCE_ID) == Some(a.book) && now <= t1 + 5_000_000_000
    && b.Book? && LastWith(h, BITSTAMP_ID) == Some(b.book) && now <= t2 + 5_000_000_000
  }

  lemma {:induction false} KeptIs(w: Pair)
    requires WellFormed(w)
    ensures |Kept(w)| == 1 ==> Kept(w)[0] == Denoted(w)
  {
  }

  lemma {:induction false} OneSource(ws: seq<Pair>, i: nat) returns (p: nat)
    requires AllWellFormed(ws) && i < |Nonzero(ws)|
    ensures p < |ws| && Nonzero(ws)[i] == Denoted(ws[p])
    decreases |ws|
  {
    hide Denoted, WellFormed, Nonzero, Kept;
    Unfold(ws, 0);
    KeptIs(ws[0]);
    var k := |Kept(ws[0])|;
    if i < k {
      p := 0;
    } else {
      p := OneSource(ws[1..], i - k);
      p := p + 1;
    }
  }

  /** Dropping the zero amounts keeps prices strictly monotone. */
  lemma {:induction false} NonzeroSource(ws: seq<Pair>, i: nat, j: nat) returns (p: nat, q: nat)
    requires AllWellFormed(ws) && i < j < |Nonzero(ws)|
    ensures p < q < |ws| && Nonzero(ws)[i] == Denoted(ws[p]) && Nonzero(ws)[j] == Denoted(ws[q])
    decreases |ws|
  {
    hide Denoted, WellFormed, Nonzero, Kept;
    Unfold(ws, 0);
    var k, rest := |Kept(ws[0])|, ws[1..];
    if i < k {
      p := 0;
      KeptIs(ws[0]);
      q := OneSource(rest, j - k);
      q := q + 1;
    } else {
      p, q := NonzeroSource(rest, i - k, j - k);
      p, q := p + 1, q + 1;
    }
  }

  lemma {:induction false} NonzeroStrict(side: Side, ws: seq<Pair>)
    requires AllWellFormed(ws) && StrictByPrice(side, AllLevels(ws))
    ensures StrictByPrice(side, Nonzero(ws))
  {
    hide Nonzero, Denoted, WellFormed;
    var s := Nonzero(ws);
    forall i, j | 0 <= i < j < |s|
      ensures if side.Bid? then s[i].price > s[j].price else s[i].price < s[j].price
    {
      var p, q := NonzeroSource(ws, i, j);
      assert AllLevels(ws)[p] == s[i] && AllLevels(ws)[q] == s[j];
    }
  }

  lemma {:induction false} FullSorted(side: Side, m: BinanceWalker.Snapshot, w: BitstampWalker.Message)
    requires BinanceWalker.Printable(m) && BitstampWalker.Printable(w)
    requires StrictSides(m.bids, m.asks) && StrictSides(w.bids, w.asks)
    ensures AllSorted(side, FullSlices(side, m, w))
    ensures forall k :: 0 <= k < 2 ==> ByPrice(side, FullSlices(side, m, w)[k].levels)
  {
    hide Nonzero, AllLevels, Before, SortedLevels;
    NonzeroStrict(side, Wire(side, m.bids, m.asks));
    NonzeroStrict(side, Wire(side, w.bids, w.asks));
    StrictIsSorted(side, Nonzero(Wire(side, m.bids, m.asks)));
    StrictIsSorted(side, Nonzero(Wire(side, w.bids, w.asks)));
  }

  lemma {:induction false} TwoSlices(side: Side, a: OrderBook, b: OrderBook)
    ensures SlicesOf(side, [Some(a), Some(b)]) == [SliceOf(side, a), SliceOf(side, b)]
  {
    assert [Some(a), Some(b)][..1] == [Some(a)] && [Some(a)][..0] == [];
    assert SlicesOf(side, [Some(a)]) == [] + [SliceOf(side, a)];
  }

  /** The slices that reach the merge are the full slices cut to DEPTH. */
  lemma {:induction false} StoredSlices(
      side: Side, m: BinanceWalker.Snapshot, w: BitstampWalker.Message, t1: nat, t2: nat, h: seq<Arrival>, now: nat)
    requires BinanceWalker.Printable(m) && BitstampWalker.Printable(w) && BothCurrent(m, w, t1, t2, h, now)
    ensures SlicesOf(side, FreshLatest(h, now)) == Cut(FullSlices(side, m, w), DEPTH)
  {
    hide Nonzero, AllWellFormed, BinanceWalker.Decode, BitstampWalker.Decode, BinanceWalker.Print, BitstampWalker.Print;
    hide LastWith, FirstN;
    BinanceWalker.SnapshotRoundTrip(m);
    BitstampWalker.DataRoundTrip(w);
    var books := FreshLatest(h, now);
    assert |books| == 2 && books[0].Some? && books[1].Some?;
    assert books[..1] == [books[0]] && books[..1][..0] == [];
    TwoSlices(side, books[0].value, books[1].value);
    assert books == [books[0], books[1]];
  }

  /**
   * Two well-formed messages with strictly monotone prices and any number of levels: once both are
   * current, the summary holds exactly the best DEPTH of all nonzero levels of both, best first,
   * ties to the first exchange, each tagged with its own exchange.
   */
  lemma {:induction false} BestOfBoth(
      side: Side, m: BinanceWalker.Snapshot, w: BitstampWalker.Message, t1: nat, t2: nat, h: seq<Arrival>, now: nat)
    requires BinanceWalker.Printable(m) && BitstampWalker.Printable(w) && BothCurrent(m, w, t1, t2, h, now)
    requires StrictSides(m.bids, m.asks) && StrictSides(w.bids, w.asks)
    ensures var s := SummaryOf(FreshLatest(h, now));
            (if side.Bid? then s.bids else s.asks) == FirstN(StableSort(side, Concat(FullSlices(side, m, w))), DEPTH)
  {
    hide BothCurrent, FreshLatest, Merged, AllSorted, StrictSides, Cut, Concat, SpreadOf, SlicesOf, FirstN;
    var full := FullSlices(side, m, w);
    StoredSlices(side, m, w, t1, t2, h, now);
    EarlyCutLosesNothing(side, full, DEPTH);
    FullSorted(side, m, w);
    StableSortIs(side, Concat(full));
    MergeIsStableSort(side, full, DEPTH, StableSort(side, Concat(full)));
  }

  lemma {:induction false} TwoFull(side: Side, m: BinanceWalker.Snapshot, w: BitstampWalker.Message)
    requires BinanceWalker.Printable(m) && BitstampWalker.Printable(w)
    ensures |FullSlices(side, m, w)| == 2
  {
  }

  /** There is a slice `i` with a level at `x`. */
  predicate Holds(slices: seq<TaggedSlice>, i: nat, x: nat) {
    i < |slices| && x < |slices[i].levels|
  }

  ghost predicate PricesFit(slices: seq<TaggedSlice>) {
    forall i: nat, x: nat :: Holds(slices, i, x) ==> slices[i].levels[x].price <= I64_MAX
  }

  /**
   * ... and the spread is the least difference between an ask and a bid among all nonzero levels of
   * both messages, also those that were cut: none is smaller, and the heads of two slices attain it.
   */
  lemma {:induction false} SpreadOfBoth(
      m: BinanceWalker.Snapshot, w: BitstampWalker.Message, t1: nat, t2: nat, h: seq<Arrival>, now: nat,
      i: nat, x: nat, j: nat, y: nat) returns (a: nat, b: nat)
    requires BinanceWalker.Printable(m) && BitstampWalker.Printable(w) && BothCurrent(m, w, t1, t2, h, now)
    requires StrictSides(m.bids, m.asks) && StrictSides(w.bids, w.asks)
    requires Holds(FullSlices(Ask, m, w), i, x) && Holds(FullSlices(Bid, m, w), j, y)
    requires PricesFit(FullSlices(Ask, m, w)) && PricesFit(FullSlices(Bid, m, w))
    ensures var s := SummaryOf(FreshLatest(h, now));
            && s.asks != [] && s.bids != []
            && s.spreadRaw == s.asks[0].price - s.bids[0].price
            && s.spreadRaw <= FullSlices(Ask, m, w)[i].levels[x].price - FullSlices(Bid, m, w)[j].levels[y].price
    ensures Holds(FullSlices(Ask, m, w), a, 0) && Holds(FullSlices(Bid, m, w), b, 0)
    ensures SummaryOf(FreshLatest(h, now)).spreadRaw
         == FullSlices(Ask, m, w)[a].levels[0].price - FullSlices(Bid, m, w)[b].levels[0].price
  {
    hide BothCurrent, FreshLatest, Merged, AllSorted, StrictSides, Cut, SlicesOf, FullSlices, ByPrice;
    var asks, bids := FullSlices(Ask, m, w), FullSlices(Bid, m, w);
    StoredSlices(Ask, m, w, t1, t2, h, now);
    StoredSlices(Bid, m, w, t1, t2, h, now);
    EarlyCutLosesNothing(Ask, asks, DEPTH);
    EarlyCutLosesNothing(Bid, bids, DEPTH);
    FullSorted(Ask, m, w);
    FullSorted(Bid, m, w);
    TwoFull(Ask, m, w);
    TwoFull(Bid, m, w);
    FirstHasBestPrice(Ask, asks, DEPTH, i, x);
    FirstHasBestPrice(Bid, bids, DEPTH, j, y);
    a := FirstIsHead(Ask, asks, DEPTH);
    b := FirstIsHead(Bid, bids, DEPTH);
    assert Holds(asks, a, 0) && Holds(bids, b, 0);
  }

  // ---------------------------------------------------------------- two books, by value

  /** A book's two sides by value, best first, any number of levels, zero amounts allowed. */
  datatype Sides = Sides(bids: seq<RawLevel>, asks: seq<RawLevel>) {
    predicate Strict() {
      StrictByPrice(Bid, bids) && StrictByPrice(Ask, asks)
    }

    function On(side: Side): seq<RawLevel> {
      if side.Bid? then bids else asks
    }
  }

  function BinanceMessage(id: u64, a: Sides): BinanceWalker.Snapshot {
    BinanceWalker.WireSnapshot(id, PairsOf(a.bids), PairsOf(a.asks))
  }

  function BitstampMessage(stamp: seq<byte>, micro: u64, b: Sides, trailer: seq<byte>): BitstampWalker.Message {
    BitstampWalker.WireMessage(stamp, micro, PairsOf(b.bids), PairsOf(b.asks), trailer)
  }

  lemma {:induction false} SidesPrint(a: Sides)
    ensures AllWellFormed(PairsOf(a.bids)) && AllWellFormed(PairsOf(a.asks))
    ensures Nonzero(PairsOf(a.bids)) == Present(a.bids) && Nonzero(PairsOf(a.asks)) == Present(a.asks)
    ensures AllLevels(PairsOf(a.bids)) == a.bids && AllLevels(PairsOf(a.asks)) == a.asks
  {
    hide WellFormed, Denoted, Nonzero, PairOf, Present;
    PairsOfDenote(a.bids);
    PairsOfDenote(a.asks);
  }

  lemma {:induction false} TwoArrivals(h: seq<Arrival>)
    requires |h| == 2 && h[0].book.exchangeId == BINANCE_ID && h[1].book.exchangeId == BITSTAMP_ID
    ensures LastWith(h, BINANCE_ID) == Some(h[0].book) && LastWith(h, BITSTAMP_ID) == Some(h[1].book)
  {
    assert h[..1] == [h[0]];
  }

  /**
   * Any two books with strictly monotone prices, spelled out as each exchange writes them: both frames
   * decode to their ids and their first ten levels present, stamped with the time decoding began, and
   * once these have arrived within five seconds the summary holds the best ten of all levels present
   * in the two.
   */
  lemma {:induction false} WireToSummary(
      side: Side, id: u64, a: Sides, stamp: seq<byte>, micro: u64, b: Sides, trailer: seq<byte>,
      t1: nat, t2: nat, n1: nat, n2: nat)
    requires a.Strict() && b.Strict() && AllDigits(stamp)
    requires n2 <= t1 + 5_000_000_000 && n2 <= t2 + 5_000_000_000
    ensures var x := BinanceReading(Layouts.BinanceText(id, PairsOf(a.bids), PairsOf(a.asks)), t1);
            var y := BitstampReading(Layouts.BitstampText(stamp, micro, PairsOf(b.bids), PairsOf(b.asks), trailer), t2);
            && x == Book(id, OrderBook(0, FirstN(Present(a.bids), 10), FirstN(Present(a.asks), 10), t1))
            && y == Book(micro, OrderBook(1, FirstN(Present(b.bids), 10), FirstN(Present(b.asks), 10), t2))
            && var s := SummaryOf(FreshLatest([Arrival(x.book, n1), Arrival(y.book, n2)], n2));
               (if side.Bid? then s.bids else s.asks)
               == FirstN(StableSort(side, Concat([TaggedSlice(0, Present(a.On(side))), TaggedSlice(1, Present(b.On(side)))])), 10)
  {
    hide AllWellFormed, Nonzero, Present, FreshLatest, SummaryOf, StableSort, Concat, FirstN, PairsOf;
    hide BinanceWalker.Decode, BitstampWalker.Decode, BinanceWalker.Print, BitstampWalker.Print;
    hide BinanceWalker.Printable, BitstampWalker.Printable, LastWith, StrictByPrice, Layouts.BinanceText, Layouts.BitstampText;
    var m, w := BinanceMessage(id, a), BitstampMessage(stamp, micro, b, trailer);
    SidesPrint(a);
    SidesPrint(b);
    BinanceWalker.WirePrintable(id, m.bids, m.asks);
    BitstampWalker.WirePrintable(stamp, micro, w.bids, w.asks, trailer);
    BinanceWalker.SnapshotRoundTrip(m);
    BitstampWalker.DataRoundTrip(w);
    Layouts.BinanceTextIs(id, m.bids, m.asks);
    Layouts.BitstampTextIs(stamp, micro, w.bids, w.asks, trailer);
    var x := BinanceReading(BinanceWalker.Print(m), t1);
    var y := BitstampReading(BitstampWalker.Print(w), t2);
    var h := [Arrival(x.book, n1), Arrival(y.book, n2)];
    TwoArrivals(h);
    BestOfBoth(side, m, w, t1, t2, h, n2);
  }

  // ---------------------------------------------------------------- feed, slot and merger together

  /** The books of one exchange among the arrivals, in order. */
  function ArrivalsOf(h: seq<Arrival>, id: byte): seq<OrderBook> {
    if h == [] then []
    else
      var last := h[|h| - 1].book;
      ArrivalsOf(h[..|h| - 1], id) + if last.exchangeId == id then [last] else []
  }

  lemma {:induction false} LastIsLast(h: seq<Arrival>, id: byte)
    ensures LastWith(h, id) == var a := ArrivalsOf(h, id); if a == [] then None else Some(a[|a| - 1])
    decreases |h|
  {
    if h != [] {
      LastIsLast(h[..|h| - 1], id);
    }
  }

  lemma {:induction false} ArrivalsGrow(h: seq<Arrival>, k: nat, id: byte)
    requires k <= |h|
    ensures ArrivalsOf(h[..k], id) <= ArrivalsOf(h, id)
    decreases |h|
  {
    if k < |h| {
      ArrivalsGrow(h[..|h| - 1], k, id);
      assert h[..|h| - 1][..k] == h[..k];
    } else {
      assert h[..k] == h;
    }
  }

  /** The merger's arrivals from one exchange are, in order, what that exchange's slot delivered. */
  ghost predicate FedBy(h: seq<Arrival>, id: byte, delivered: seq<SlotProtocol.Item<Sent>>) {
    && |ArrivalsOf(h, id)| <= |delivered|
    && forall i :: 0 <= i < |ArrivalsOf(h, id)| ==> ArrivalsOf(h, id)[i] == delivered[i].value.book
  }

  /**
   * Across reconnections, filter, slot overwrites and any interleaving, the book an exchange has in
   * one summary is, in every later summary, the same book or one from a later frame.
   */
  lemma {:induction false} NeverGoesBack(
      steps: seq<SlotProtocol.Step<Sent>>, script: seq<Turn>, h: seq<Arrival>, id: byte, k: nat, l: nat)
      returns (p: nat, q: nat)
    requires WithIds(script)
    requires SlotProtocol.Run(steps).Some? && SlotProtocol.Run(steps).value.sent <= SentBy(0, script)
    requires FedBy(h, id, SlotProtocol.Run(steps).value.delivered)
    requires k <= l <= |h| && LastWith(h[..k], id).Some?
    ensures var d := SlotProtocol.Run(steps).value.delivered;
            && p <= q < |d|
            && LastWith(h[..k], id) == Some(d[p].value.book) && LastWith(h[..l], id) == Some(d[q].value.book)
            && (p == q || Later(d[p].value, d[q].value))
  {
    hide SentBy, SlotProtocol.Run, WithIds, LastWith, ArrivalsOf, Later;
    Exchange.DeliveredInOrder(steps, script);
    LastIsLast(h[..k], id);
    LastIsLast(h[..l], id);
    ArrivalsGrow(h, k, id);
    ArrivalsGrow(h, l, id);
    assert h[..l][..k] == h[..k];
    ArrivalsGrow(h[..l], k, id);
    p, q := |ArrivalsOf(h[..k], id)| - 1, |ArrivalsOf(h[..l], id)| - 1;
  }
}
