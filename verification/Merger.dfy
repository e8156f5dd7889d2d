/** src/merger.rs: the book store, the published summary and the merger's loop. */
module Merger {
  import opened Prelude
  import opened JsonWalker
  import opened LevelArrays
  import opened Types
  import opened Merge
  import opened MergeTop

  /** Five seconds in nanoseconds. */
  const STALE_THRESHOLD: nat := 5_000_000_000

  const I64_MAX: nat := 0x7FFF_FFFF_FFFF_FFFF

  // ---------------------------------------------------------------- summary

  function SliceOf(side: Side, book: OrderBook): TaggedSlice {
    TaggedSlice(book.exchangeId, if side.Bid? then book.bids else book.asks)
  }

  /** One slice per stored book, in index order. */
  function SlicesOf(side: Side, books: seq<Option<OrderBook>>): (r: seq<TaggedSlice>)
    ensures |r| <= |books|
  {
    if books == [] then []
    else
      var last := books[|books| - 1];
      SlicesOf(side, books[..|books| - 1]) + if last.Some? then [SliceOf(side, last.value)] else []
  }

  /** `x as i64`. */
  function AsI64(x: u64): int {
    if x <= I64_MAX then x else x - U64_MAX - 1
  }

  /** 64-bit two's-complement wrap-around, as in a release build. */
  function WrapI64(x: int): int {
    (x + I64_MAX + 1) % (U64_MAX + 1) - I64_MAX - 1
  }

  function SpreadOf(bids: seq<Level>, asks: seq<Level>): int {
    if asks != [] && bids != [] then WrapI64(AsI64(asks[0].price) - AsI64(bids[0].price)) else 0
  }

  function SummaryOf(books: seq<Option<OrderBook>>): Summary {
    var bids, asks := Merged(Bid, SlicesOf(Bid, books), DEPTH), Merged(Ask, SlicesOf(Ask, books), DEPTH);
    Summary(SpreadOf(bids, asks), bids, asks)
  }

  /** `merge`. */
  method MergeBooks(books: array<Option<OrderBook>>) returns (r: Summary)
    requires books.Length <= MAX_EXCHANGES
    ensures r == SummaryOf(books[..])
  {
    hide Merged;
    var bidSlices: seq<TaggedSlice>, askSlices: seq<TaggedSlice> := [], [];
    for i := 0 to books.Length
      invariant bidSlices == SlicesOf(Bid, books[..i]) && askSlices == SlicesOf(Ask, books[..i])
    {
      assert books[..i + 1][..i] == books[..i];
      match books[i]
      case None =>
      case Some(book) =>
        bidSlices := bidSlices + [TaggedSlice(book.exchangeId, book.bids)];
        askSlices := askSlices + [TaggedSlice(book.exchangeId, book.asks)];
    }
    assert books[..books.Length] == books[..];
    var bids := MergeTopN(Bid, bidSlices, DEPTH);
    var asks := MergeTopN(Ask, askSlices, DEPTH);
    var spreadRaw := 0;
    if asks != [] && bids != [] {
      spreadRaw := WrapI64(AsI64(asks[0].price) - AsI64(bids[0].price));
    }
    return Summary(spreadRaw, bids, asks);
  }

  // ---------------------------------------------------------------- spread

  predicate BookByPrice(b: OrderBook) {
    ByPrice(Bid, b.bids) && ByPrice(Ask, b.asks)
  }

  predicate Stored(books: seq<Option<OrderBook>>, i: nat) {
    i < |books| && books[i].Some?
  }

  lemma {:induction false} SliceIndex(side: Side, books: seq<Option<OrderBook>>, i: nat) returns (j: nat)
    requires Stored(books, i)
    ensures j < |SlicesOf(side, books)| && SlicesOf(side, books)[j] == SliceOf(side, books[i].value)
    decreases |books|
  {
    if i == |books| - 1 {
      j := |SlicesOf(side, books)| - 1;
    } else {
      j := SliceIndex(side, books[..|books| - 1], i);
    }
  }

  lemma {:induction false} SliceSource(side: Side, books: seq<Option<OrderBook>>, j: nat) returns (i: nat)
    requires j < |SlicesOf(side, books)|
    ensures Stored(books, i) && SlicesOf(side, books)[j] == SliceOf(side, books[i].value)
    decreases |books|
  {
    if books[|books| - 1].Some? && j == |SlicesOf(side, books)| - 1 {
      i := |books| - 1;
    } else {
      i := SliceSource(side, books[..|books| - 1], j);
    }
  }

  /** The first merged level has the best price of all slices that are monotone by price. */
  lemma {:induction false} FirstHasBestPrice(side: Side, slices: seq<TaggedSlice>, n: nat, j: nat, q: nat)
    requires forall k :: 0 <= k < |slices| ==> ByPrice(side, slices[k].levels)
    requires n > 0 && j < |slices| && q < |slices[j].levels|
    ensures Merged(side, slices, n) != []
    ensures var first, x := Merged(side, slices, n)[0].price, slices[j].levels[q].price;
            if side.Bid? then first >= x else first <= x
  {
    hide Best;
    MergedUnfold(side, slices, n);
    BestIsLeast(side, slices, |slices|, j);
    assert ByPrice(side, slices[j].levels);
  }

  /** The first merged level is some slice's head. */
  lemma {:induction false} FirstIsHead(side: Side, slices: seq<TaggedSlice>, n: nat) returns (j: nat)
    requires Merged(side, slices, n) != []
    ensures j < |slices| && slices[j].levels != [] && Raw(Merged(side, slices, n)[0]) == slices[j].levels[0]
  {
    hide Best;
    MergedUnfold(side, slices, n);
    j := Best(side, slices, |slices|).value;
  }

  lemma {:induction false} SlicesByPrice(side: Side, books: seq<Option<OrderBook>>)
    requires forall i: nat :: Stored(books, i) ==> BookByPrice(books[i].value)
    ensures forall k :: 0 <= k < |SlicesOf(side, books)| ==> ByPrice(side, SlicesOf(side, books)[k].levels)
  {
    hide ByPrice, SlicesOf;
    forall k | 0 <= k < |SlicesOf(side, books)|
      ensures ByPrice(side, SlicesOf(side, books)[k].levels)
    {
      var i := SliceSource(side, books, k);
      assert BookByPrice(books[i].value);
    }
  }

  /** Best-first by price is all that is needed: no stored pair of ask and bid is closer than the spread. */
  lemma {:induction false} SpreadIsMinimum(books: seq<Option<OrderBook>>, i: nat, x: nat, j: nat, y: nat)
    requires forall k: nat :: Stored(books, k) ==> BookByPrice(books[k].value)
    requires Stored(books, i) && x < |books[i].value.asks| && Stored(books, j) && y < |books[j].value.bids|
    requires var s := SummaryOf(books); s.asks != [] && s.bids != [] ==>
               s.asks[0].price <= I64_MAX && s.bids[0].price <= I64_MAX
    ensures var s := SummaryOf(books);
            && s.asks != [] && s.bids != [] && s.spreadRaw == s.asks[0].price - s.bids[0].price
            && s.spreadRaw <= books[i].value.asks[x].price - books[j].value.bids[y].price
  {
    hide Merged, SlicesOf, ByPrice;
    SlicesByPrice(Ask, books);
    SlicesByPrice(Bid, books);
    var a := SliceIndex(Ask, books, i);
    var b := SliceIndex(Bid, books, j);
    FirstHasBestPrice(Ask, SlicesOf(Ask, books), DEPTH, a, x);
    FirstHasBestPrice(Bid, SlicesOf(Bid, books), DEPTH, b, y);
  }

  /** ... and one stored pair attains it. */
  lemma {:induction false} SpreadIsAttained(books: seq<Option<OrderBook>>) returns (i: nat, j: nat)
    requires SummaryOf(books).asks != [] && SummaryOf(books).bids != []
    requires SummaryOf(books).asks[0].price <= I64_MAX && SummaryOf(books).bids[0].price <= I64_MAX
    ensures Stored(books, i) && books[i].value.asks != [] && Stored(books, j) && books[j].value.bids != []
    ensures SummaryOf(books).spreadRaw == books[i].value.asks[0].price - books[j].value.bids[0].price
  {
    hide Merged, SlicesOf;
    var a := FirstIsHead(Ask, SlicesOf(Ask, books), DEPTH);
    var b := FirstIsHead(Bid, SlicesOf(Bid, books), DEPTH);
    i := SliceSource(Ask, books, a);
    j := SliceSource(Bid, books, b);
  }

  /** A side of the summary is empty exactly when no stored book has a level on it. */
  lemma {:induction false} SideEmptyIff(side: Side, books: seq<Option<OrderBook>>)
    ensures var s := SummaryOf(books);
            (if side.Bid? then s.bids else s.asks) == []
            <==> forall i: nat :: Stored(books, i) ==> (if side.Bid? then books[i].value.bids else books[i].value.asks) == []
  {
    hide SlicesOf, Best, SpreadOf;
    var slices := SlicesOf(side, books);
    MergedUnfold(side, slices, DEPTH);
    var best := Best(side, slices, |slices|);
    if best.Some? {
      var i := SliceSource(side, books, best.value);
    } else {
      forall i: nat | Stored(books, i)
        ensures (if side.Bid? then books[i].value.bids else books[i].value.asks) == []
      {
        var j := SliceIndex(side, books, i);
      }
    }
  }

  /** Without an ask, or without a bid, in any stored book the spread is zero. */
  lemma {:induction false} SpreadIsZero(books: seq<Option<OrderBook>>)
    requires (forall i: nat :: Stored(books, i) ==> books[i].value.asks == [])
          || (forall i: nat :: Stored(books, i) ==> books[i].value.bids == [])
    ensures SummaryOf(books).spreadRaw == 0
  {
    hide SlicesOf, Merged;
    SideEmptyIff(Ask, books);
    SideEmptyIff(Bid, books);
  }

  /** Whatever the prices, the spread is a 64-bit integer and best ask minus best bid modulo 2^64. */
  lemma {:induction false} SpreadModulo(books: seq<Option<OrderBook>>)
    requires SummaryOf(books).asks != [] && SummaryOf(books).bids != []
    ensures var s := SummaryOf(books);
            && -0x8000_0000_0000_0000 <= s.spreadRaw < 0x8000_0000_0000_0000
            && (s.spreadRaw - (s.asks[0].price - s.bids[0].price)) % 0x1_0000_0000_0000_0000 == 0
  {
    hide SlicesOf, Merged;
  }

  // ---------------------------------------------------------------- when a summary is the best

  /** Every book lies under its own exchange id. */
  ghost predicate Filed(books: seq<Option<OrderBook>>) {
    forall i: nat :: Stored(books, i) ==> books[i].value.exchangeId == i
  }

  lemma {:induction false} FiledSlices(side: Side, books: seq<Option<OrderBook>>)
    requires Filed(books)
    ensures DistinctIds(SlicesOf(side, books))
    ensures forall j :: 0 <= j < |SlicesOf(side, books)| ==> SlicesOf(side, books)[j].exchangeId < |books|
    decreases |books|
  {
    if books != [] {
      var init := books[..|books| - 1];
      assert forall i: nat :: Stored(init, i) ==> Stored(books, i);
      FiledSlices(side, init);
    }
  }

  /**
   * A summary's side is the best DEPTH of all stored levels if and only if no level among these
   * stands behind a worse level of its own book.
   */
  lemma {:induction false} SummaryIsBestIff(side: Side, books: seq<Option<OrderBook>>)
    requires Filed(books)
    ensures var s, slices := SummaryOf(books), SlicesOf(side, books);
            (if side.Bid? then s.bids else s.asks) == FirstN(StableSort(side, Concat(slices)), DEPTH)
            <==> BestInOrder(side, slices, DEPTH)
  {
    hide Merged, StableSort, Concat, BestInOrder, SlicesOf, SpreadOf;
    FiledSlices(side, books);
    TopIsSortedIff(side, SlicesOf(side, books), DEPTH);
  }

  // ---------------------------------------------------------------- store

  /** `now - start` on instants: saturates at zero. */
  function Age(now: nat, start: nat): nat {
    if now <= start then 0 else now - start
  }

  predicate IsFresh(book: OrderBook, now: nat, threshold: nat) {
    Age(now, book.decodeStart) <= threshold
  }

  function Inserted(books: seq<Option<OrderBook>>, book: OrderBook): seq<Option<OrderBook>> {
    if book.exchangeId < |books| then books[book.exchangeId := Some(book)] else books
  }

  function Evicted(books: seq<Option<OrderBook>>, now: nat, threshold: nat): seq<Option<OrderBook>> {
    seq(|books|, i requires 0 <= i < |books| =>
      if books[i].Some? && IsFresh(books[i].value, now, threshold) then books[i] else None)
  }

  class BookStore {
    const books: array<Option<OrderBook>>

    constructor ()
      ensures fresh(books) && books.Length == MAX_EXCHANGES
      ensures books[..] == seq(MAX_EXCHANGES, _ => None)
    {
      books := new Option<OrderBook>[MAX_EXCHANGES](_ => None);
    }

    /** An id out of range is dropped. */
    method Insert(book: OrderBook)
      modifies books
      ensures books[..] == Inserted(old(books[..]), book)
      ensures forall i :: 0 <= i < books.Length ==>
                books[i] == if i == book.exchangeId then Some(book) else old(books[..])[i]
    {
      if book.exchangeId < books.Length {
        books[book.exchangeId] := Some(book);
      }
    }

    method EvictStale(now: nat, threshold: nat)
      modifies books
      ensures books[..] == Evicted(old(books[..]), now, threshold)
      ensures forall i :: 0 <= i < books.Length ==>
                var was := old(books[..])[i];
                books[i] == if was.Some? && now > was.value.decodeStart + threshold then None else was
    {
      ghost var was := books[..];
      for i := 0 to books.Length
        invariant forall k :: 0 <= k < i ==> books[k] == Evicted(was, now, threshold)[k]
        invariant forall k :: i <= k < books.Length ==> books[k] == was[k]
      {
        match books[i]
        case None =>
        case Some(book) =>
          var age := Age(now, book.decodeStart);
          if age > threshold {
            books[i] := None;
          }
      }
    }
  }

  // ---------------------------------------------------------------- loop

  /** A book handed over by a receiver and the time read after it was stored. */
  datatype Arrival = Arrival(book: OrderBook, now: nat)

  /** What one pass of the loop observes: cancellation, the abandoned flags, and each receiver's poll. */
  datatype Round = Round(cancelled: bool, abandoned: seq<bool>, polls: seq<Option<Arrival>>)

  predicate Stops(r: Round) {
    r.cancelled || forall i :: 0 <= i < |r.abandoned| ==> r.abandoned[i]
  }

  /** The books one pass receives, in receiver order. */
  function Arrivals(polls: seq<Option<Arrival>>): seq<Arrival> {
    if polls == [] then []
    else
      var last := polls[|polls| - 1];
      Arrivals(polls[..|polls| - 1]) + if last.Some? then [last.value] else []
  }

  /** The books received before the loop stops. */
  function Received(rounds: seq<Round>): seq<Arrival> {
    if rounds == [] || Stops(rounds[0]) then [] else Arrivals(rounds[0].polls) + Received(rounds[1..])
  }

  /** How many of the first `n` polls yield a book. */
  function Books(polls: seq<Option<Arrival>>, n: nat): nat
    requires n <= |polls|
  {
    if n == 0 then 0 else Books(polls, n - 1) + if polls[n - 1].Some? then 1 else 0
  }

  lemma {:induction false} BooksPrefix(polls: seq<Option<Arrival>>, n: nat)
    requires n < |polls|
    ensures Books(polls, n) == Books(polls[..|polls| - 1], n)
    decreases n
  {
    if n > 0 {
      BooksPrefix(polls, n - 1);
    }
  }

  /** Every poll that yields a book is an arrival, in receiver order, and there are no others. */
  lemma {:induction false} ArrivalsAre(polls: seq<Option<Arrival>>)
    ensures |Arrivals(polls)| == Books(polls, |polls|)
    ensures forall p :: 0 <= p < |polls| && polls[p].Some? ==>
              Books(polls, p) < |Arrivals(polls)| && Arrivals(polls)[Books(polls, p)] == polls[p].value
    decreases |polls|
  {
    if polls != [] {
      var init := polls[..|polls| - 1];
      ArrivalsAre(init);
      forall p | 0 <= p <= |init|
        ensures Books(polls, p) == Books(init, p)
      {
        BooksPrefix(polls, p);
      }
    }
  }

  /** The arrivals of all passes, one after the other. */
  function AllArrivals(rounds: seq<Round>): seq<Arrival> {
    if rounds == [] then [] else Arrivals(rounds[0].polls) + AllArrivals(rounds[1..])
  }

  /** Not cancelled, and some producer still there. */
  predicate GoesOn(r: Round) {
    !r.cancelled && exists i :: 0 <= i < |r.abandoned| && !r.abandoned[i]
  }

  lemma {:induction false} StopsIff(r: Round)
    ensures Stops(r) <==> !GoesOn(r)
  {
  }

  /**
   * The loop goes on exactly while it is not cancelled and some producer is live, and until then every
   * pass contributes all its arrivals; from the pass `r` that ends it on nothing is received.
   */
  lemma {:induction false} ReceivedUntil(rounds: seq<Round>, r: nat)
    requires r <= |rounds| && (forall k :: 0 <= k < r ==> GoesOn(rounds[k])) && (r < |rounds| ==> !GoesOn(rounds[r]))
    ensures Received(rounds) == AllArrivals(rounds[..r])
    decreases r
  {
    hide Arrivals, GoesOn, Stops;
    if rounds != [] {
      StopsIff(rounds[0]);
    }
    if r > 0 {
      ReceivedUntil(rounds[1..], r - 1);
      assert rounds[1..][..r - 1] == rounds[..r][1..];
    }
  }

  predicate ClockNondecreasing(h: seq<Arrival>) {
    forall i, j :: 0 <= i < j < |h| ==> h[i].now <= h[j].now
  }

  /** The last book received with an exchange id. */
  function LastWith(h: seq<Arrival>, id: nat): (r: Option<OrderBook>)
    ensures r.Some? ==> r.value.exchangeId == id
  {
    if h == [] then None
    else if h[|h| - 1].book.exchangeId == id then Some(h[|h| - 1].book)
    else LastWith(h[..|h| - 1], id)
  }

  /** For each exchange, its last received book if that is fresh at `now`. */
  function FreshLatest(h: seq<Arrival>, now: nat): seq<Option<OrderBook>> {
    seq(MAX_EXCHANGES, i requires 0 <= i < MAX_EXCHANGES =>
      var last := LastWith(h, i);
      if last.Some? && IsFresh(last.value, now, STALE_THRESHOLD) then last else None)
  }

  /** The summary due after the `k`-th arrival. */
  function Due(h: seq<Arrival>, k: nat): Summary
    requires k < |h|
  {
    SummaryOf(FreshLatest(h[..k + 1], h[k].now))
  }

  function AllDue(h: seq<Arrival>): seq<Summary> {
    seq(|h|, k requires 0 <= k < |h| => Due(h, k))
  }

  /** Of the first `n` books received, the one at `j` is `b`, and no later one has its id `i`. */
  predicate IsLastAt(h: seq<Arrival>, n: nat, i: nat, b: OrderBook, j: nat) {
    j < n <= |h| && h[j].book == b && b.exchangeId == i && forall l :: j < l < n ==> h[l].book.exchangeId != i
  }

  ghost predicate IsLast(h: seq<Arrival>, n: nat, i: nat, b: OrderBook) {
    exists j: nat :: IsLastAt(h, n, i, b, j)
  }

  lemma {:induction false} LastWithIs(h: seq<Arrival>, n: nat, i: nat, b: OrderBook)
    requires n <= |h|
    ensures LastWith(h[..n], i) == Some(b) <==> IsLast(h, n, i, b)
    decreases n
  {
    if n > 0 {
      assert h[..n][..n - 1] == h[..n - 1];
      LastWithIs(h, n - 1, i, b);
      if h[n - 1].book.exchangeId == i {
        assert IsLastAt(h, n, i, h[n - 1].book, n - 1);
        assert forall j: nat :: IsLastAt(h, n, i, b, j) ==> j == n - 1;
      } else {
        if IsLast(h, n - 1, i, b) {
          var j: nat :| IsLastAt(h, n - 1, i, b, j);
          assert IsLastAt(h, n, i, b, j);
        }
        if IsLast(h, n, i, b) {
          var j: nat :| IsLastAt(h, n, i, b, j);
          assert IsLastAt(h, n - 1, i, b, j);
        }
      }
    }
  }

  /**
   * The loop publishes one summary per book received. The `k`-th is made of, for each exchange, the
   * last book received so far under its id, present if and only if it was decoded at most five
   * seconds before that moment.
   */
  lemma {:induction false} PublishedIs(h: seq<Arrival>, k: nat, i: nat, b: OrderBook)
    requires k < |h| && i < 2
    ensures |AllDue(h)| == |h| && AllDue(h)[k] == SummaryOf(FreshLatest(h[..k + 1], h[k].now))
    ensures |FreshLatest(h[..k + 1], h[k].now)| == 2
    ensures FreshLatest(h[..k + 1], h[k].now)[i] == Some(b)
       <==> IsLast(h, k + 1, i, b) && h[k].now <= b.decodeStart + 5_000_000_000
  {
    hide LastWith, SummaryOf;
    LastWithIs(h, k + 1, i, b);
  }

  /** What every published summary is made from satisfies `SummaryIsBestIff`. */
  lemma {:induction false} DueIsBestIff(side: Side, h: seq<Arrival>, k: nat)
    requires k < |h|
    ensures var s, slices := Due(h, k), SlicesOf(side, FreshLatest(h[..k + 1], h[k].now));
            (if side.Bid? then s.bids else s.asks) == FirstN(StableSort(side, Concat(slices)), DEPTH)
            <==> BestInOrder(side, slices, DEPTH)
  {
    hide LastWith, StableSort, Concat, BestInOrder, SlicesOf, SummaryOf;
    var books := FreshLatest(h[..k + 1], h[k].now);
    assert Filed(books);
    SummaryIsBestIff(side, books);
  }

  /** A store that earlier evictions have reached: only books already stale are missing. */
  ghost predicate Tracks(books: seq<Option<OrderBook>>, h: seq<Arrival>) {
    && |books| == MAX_EXCHANGES
    && forall i :: 0 <= i < MAX_EXCHANGES ==>
         || books[i] == LastWith(h, i)
         || (books[i] == None && h != [] && LastWith(h, i).Some?
             && !IsFresh(LastWith(h, i).value, h[|h| - 1].now, STALE_THRESHOLD))
  }

  /** With a nondecreasing clock past evictions never change what is fresh now. */
  lemma {:induction false} EvictionsNeverMatter(books: seq<Option<OrderBook>>, h: seq<Arrival>, a: Arrival)
    requires Tracks(books, h) && ClockNondecreasing(h + [a])
    ensures Evicted(Inserted(books, a.book), a.now, STALE_THRESHOLD) == FreshLatest(h + [a], a.now)
    ensures Tracks(Evicted(Inserted(books, a.book), a.now, STALE_THRESHOLD), h + [a])
  {
    var h' := h + [a];
    assert h'[..|h|] == h;
    if h != [] { assert h'[|h| - 1].now <= h'[|h|].now; }
    var out, due := Evicted(Inserted(books, a.book), a.now, STALE_THRESHOLD), FreshLatest(h', a.now);
    forall i | 0 <= i < MAX_EXCHANGES
      ensures out[i] == due[i]
    {
    }
  }

  lemma {:induction false} ArrivalsPrefix(polls: seq<Option<Arrival>>, i: nat)
    requires i <= |polls|
    ensures Arrivals(polls[..i]) <= Arrivals(polls)
    decreases |polls|
  {
    if i < |polls| {
      ArrivalsPrefix(polls[..|polls| - 1], i);
      assert polls[..|polls| - 1][..i] == polls[..i];
    } else {
      assert polls[..i] == polls;
    }
  }

  /** The arrivals of a longer prefix, which is still a prefix of all arrivals. */
  lemma {:induction false} ArrivalsSnoc(polls: seq<Option<Arrival>>, i: nat)
    requires i <= |polls|
    ensures Arrivals(polls[..0]) == []
    ensures i < |polls| ==>
              Arrivals(polls[..i + 1]) == Arrivals(polls[..i]) + (if polls[i].Some? then [polls[i].value] else [])
    ensures i < |polls| ==> Arrivals(polls[..i + 1]) <= Arrivals(polls)
  {
    if i < |polls| {
      assert polls[..i + 1][..i] == polls[..i];
      ArrivalsPrefix(polls, i + 1);
    }
  }

  lemma {:induction false} PrefixClock(all: seq<Arrival>, pre: seq<Arrival>)
    requires ClockNondecreasing(all) && pre <= all
    ensures ClockNondecreasing(pre)
  {
  }

  lemma {:induction false} AllDueSnoc(h: seq<Arrival>, a: Arrival)
    ensures AllDue(h + [a]) == AllDue(h) + [SummaryOf(FreshLatest(h + [a], a.now))]
  {
    hide FreshLatest, SummaryOf;
    var h' := h + [a];
    assert h'[..|h| + 1] == h';
    forall k | 0 <= k < |h|
      ensures Due(h', k) == Due(h, k)
    {
      assert h'[..k + 1] == h[..k + 1];
    }
  }

  /** One pass over the receivers: every book received is stored, stale ones evicted, the rest merged. */
  method PollAll(store: BookStore, polls: seq<Option<Arrival>>, ghost h0: seq<Arrival>) returns (published: seq<Summary>)
    requires store.books.Length == MAX_EXCHANGES && Tracks(store.books[..], h0)
    requires ClockNondecreasing(h0 + Arrivals(polls))
    modifies store.books
    ensures Tracks(store.books[..], h0 + Arrivals(polls))
    ensures AllDue(h0) + published == AllDue(h0 + Arrivals(polls))
  {
    hide Arrivals, AllDue, Tracks, ClockNondecreasing, SummaryOf, FreshLatest, Inserted, Evicted;
    published := [];
    ghost var h := h0;
    ArrivalsSnoc(polls, 0);
    assert h0 + [] == h0 && AllDue(h0) + [] == AllDue(h0);
    for i := 0 to |polls|
      invariant h == h0 + Arrivals(polls[..i])
      invariant Tracks(store.books[..], h)
      invariant AllDue(h0) + published == AllDue(h)
    {
      ArrivalsSnoc(polls, i);
      if polls[i].Some? {
        var arrival := polls[i].value;
        assert h0 + (Arrivals(polls[..i]) + [arrival]) == h + [arrival];
        PrefixClock(h0 + Arrivals(polls), h + [arrival]);
        EvictionsNeverMatter(store.books[..], h, arrival);
        store.Insert(arrival.book);
        store.EvictStale(arrival.now, STALE_THRESHOLD);
        var summary := MergeBooks(store.books);
        AllDueSnoc(h, arrival);
        assert AllDue(h0) + (published + [summary]) == (AllDue(h0) + published) + [summary];
        published := published + [summary];
        h := h + [arrival];
      } else {
        assert Arrivals(polls[..i]) + [] == Arrivals(polls[..i]);
      }
    }
    assert polls[..|polls|] == polls;
  }

  lemma {:induction false} StartTracks(books: seq<Option<OrderBook>>)
    requires books == seq(MAX_EXCHANGES, _ => None)
    ensures Tracks(books, []) && AllDue([]) == []
  {
  }

  lemma {:induction false} ReceivedNext(rounds: seq<Round>, r: nat)
    requires r <= |rounds|
    ensures r == |rounds| || Stops(rounds[r]) ==> Received(rounds[r..]) == []
    ensures r < |rounds| && !Stops(rounds[r]) ==>
              Received(rounds[r..]) == Arrivals(rounds[r].polls) + Received(rounds[r + 1..])
  {
    if r < |rounds| {
      assert rounds[r..][0] == rounds[r] && rounds[r..][1..] == rounds[r + 1..];
    }
  }

  /**
   * `run_spsc` on any observed run: one summary per received book, each the merge of the latest
   * books that are fresh at that moment, and nothing after cancellation or once all producers left.
   */
  method RunSpsc(rounds: seq<Round>) returns (published: seq<Summary>, merges: nat)
    requires ClockNondecreasing(Received(rounds))
    ensures published == AllDue(Received(rounds)) && merges == |published|
  {
    hide Received, Arrivals, AllDue, Tracks, ClockNondecreasing;
    var store := new BookStore();
    published, merges := [], 0;
    ghost var all := Received(rounds);
    ghost var h: seq<Arrival> := [];
    StartTracks(store.books[..]);
    var r := 0;
    assert rounds[0..] == rounds && [] + all == all;
    while r < |rounds|
      invariant 0 <= r <= |rounds|
      invariant store.books.Length == MAX_EXCHANGES && fresh(store.books)
      invariant all == h + Received(rounds[r..])
      invariant Tracks(store.books[..], h)
      invariant published == AllDue(h) && merges == |published|
    {
      var round := rounds[r];
      ReceivedNext(rounds, r);
      if round.cancelled {
        break;
      }
      var allGone := true;
      for i := 0 to |round.abandoned|
        invariant allGone <==> forall k :: 0 <= k < i ==> round.abandoned[k]
      {
        allGone := allGone && round.abandoned[i];
      }
      if allGone {
        break;
      }
      assert h + (Arrivals(round.polls) + Received(rounds[r + 1..])) == h + Arrivals(round.polls) + Received(rounds[r + 1..]);
      PrefixClock(all, h + Arrivals(round.polls));
      var more := PollAll(store, round.polls, h);
      h := h + Arrivals(round.polls);
      published := published + more;
      merges := merges + |more|;
      r := r + 1;
    }
    ReceivedNext(rounds, r);
    assert h + [] == h;
  }
}
