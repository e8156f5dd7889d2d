/** src/exchange: the two frame handlers, the shared send and the reconnecting read loop. */
module Exchange {
  import opened Prelude
  import opened JsonWalker
  import opened LevelArrays
  import opened Types
  import opened AtomicSlot
  import SlotProtocol
  import BinanceWalker
  import BitstampWalker
  import Layouts

  datatype HandleResult = Continue | Reconnect | Shutdown

  class ExchangeMetrics {
    var messages: nat
    var errors: nat

    constructor ()
      ensures messages == 0 && errors == 0
    {
      messages, errors := 0, 0;
    }
  }

  // ---------------------------------------------------------------- one frame

  /** What a frame amounts to for the feed. */
  datatype Reading =
    | Unusable(error: bool)
    | ServerError
    | Book(id: u64, book: OrderBook)

  function BinanceReading(text: seq<byte>, t0: nat): Reading {
    match BinanceWalker.Decode(text)
    case None => Unusable(true)
    case Some(f) => Book(f.id, OrderBook(BINANCE_ID, f.bids, f.asks, t0))
  }

  function BitstampReading(text: seq<byte>, t0: nat): Reading {
    match BitstampWalker.Decode(text)
    case Parsed(event, micro, bids, asks) =>
      if event == BitstampWalker.DATA then Book(micro, OrderBook(BITSTAMP_ID, bids, asks, t0))
      else if event == BitstampWalker.ERROR then ServerError
      else Unusable(false)
    case _ => Unusable(true)
  }

  /** What a handler does with a reading: its new last id, whether it sends, its counters, its verdict. */
  datatype Reaction = Reaction(last: u64, sends: bool, messages: nat, errors: nat, result: HandleResult)

  /** The stale and duplicate filter: only two positive ids are ever compared. */
  predicate Passes(last: u64, id: u64) {
    !(id > 0 && last > 0 && id <= last)
  }

  function React(last: u64, r: Reading, abandoned: bool): (a: Reaction)
    ensures a.sends ==> r.Book? && a.result == Continue
  {
    match r
    case Unusable(error) => Reaction(last, false, 0, if error then 1 else 0, Continue)
    case ServerError => Reaction(last, false, 0, 1, Reconnect)
    case Book(id, _) =>
      if !Passes(last, id) then Reaction(last, false, 0, 1, Continue)
      else if abandoned then Reaction(id, false, 1, 0, Shutdown)
      else Reaction(id, true, 1, 0, Continue)
  }

  /**
   * On the wire, a confirmation and any other event but two are ignored, and an error event counts one
   * error and asks for a reconnect.
   */
  lemma {:induction false} EventReadings(
      ws: seq<byte>, event: seq<byte>, symbol: seq<byte>, t0: nat, last: u64, abandoned: bool)
    requires Layouts.Blank(ws) && BitstampWalker.Alphanumeric(symbol)
    requires forall i :: 0 <= i < |event| ==> event[i] < 128 && event[i] != 34 && event[i] != 92
    ensures Layouts.Ascii("bts:subscription_succeeded") !in [Layouts.Ascii("data"), Layouts.Ascii("bts:error")]
    ensures var a := React(last, BitstampReading(Layouts.EventText(ws, event, symbol), t0), abandoned);
            && (event == Layouts.Ascii("bts:error") ==> a == Reaction(last, false, 0, 1, Reconnect))
            && (event !in [Layouts.Ascii("data"), Layouts.Ascii("bts:error")] ==> a == Reaction(last, false, 0, 0, Continue))
  {
    hide BitstampWalker.Decode, Layouts.EventText, Layouts.Ascii;
    Layouts.EventTextDecodes(ws, event, symbol);
    Layouts.EventSpelling();
    Layouts.TextSpelling();
    assert |BitstampWalker.SUBSCRIBED| == 26 && |BitstampWalker.DATA| == 4 && |BitstampWalker.ERROR| == 9;
  }

  /** A frame that does not decode counts one error and changes nothing else. */
  lemma {:induction false} UnparsableCounts(text: seq<byte>, t0: nat, last: u64, abandoned: bool)
    ensures BinanceWalker.Decode(text).None? ==>
              React(last, BinanceReading(text, t0), abandoned) == Reaction(last, false, 0, 1, Continue)
    ensures BitstampWalker.Decode(text).Rejected? ==>
              React(last, BitstampReading(text, t0), abandoned) == Reaction(last, false, 0, 1, Continue)
  {
    hide BinanceWalker.Decode, BitstampWalker.Decode;
  }

  /** `try_send_book`: refuses once the receiver is gone, otherwise replaces the slot's content. */
  method TrySendBook(sender: SlotSender<OrderBook>, book: OrderBook, ghost rx: SlotReceiver<OrderBook>) returns (ok: bool)
    requires Paired(sender, rx) && sender.shared.Counted() && !sender.shared.senderGone
    modifies sender`back, sender.shared`state, sender.shared.buffers
    ensures Paired(sender, rx) && ok == !sender.shared.receiverGone
    ensures if ok then Latest(View(sender, rx)) == Some(book) else View(sender, rx) == old(View(sender, rx))
  {
    var gone := sender.IsAbandoned();
    if gone {
      return false;
    }
    sender.Send(book, rx);
    return true;
  }

  class BinanceHandler {
    var lastSeq: u64

    constructor ()
      ensures lastSeq == 0
    {
      lastSeq := 0;
    }

    method OnConnected()
      modifies this
      ensures lastSeq == 0
    {
      lastSeq := 0;
    }

    method ProcessText(text: seq<byte>, t0: nat, sender: SlotSender<OrderBook>, metrics: ExchangeMetrics,
                       ghost rx: SlotReceiver<OrderBook>) returns (result: HandleResult)
      requires Paired(sender, rx) && sender.shared.Counted() && !sender.shared.senderGone
      requires |text| < MAX_FRAME
      modifies this`lastSeq, metrics`messages, metrics`errors, sender`back, sender.shared`state, sender.shared.buffers
      ensures Paired(sender, rx)
      ensures var r := React(old(lastSeq), BinanceReading(text, t0), sender.shared.receiverGone);
              && lastSeq == r.last && result == r.result
              && metrics.messages == old(metrics.messages) + r.messages
              && metrics.errors == old(metrics.errors) + r.errors
              && (r.sends ==> Latest(View(sender, rx)) == Some(BinanceReading(text, t0).book))
              && (!r.sends ==> View(sender, rx) == old(View(sender, rx)))
    {
      hide BinanceWalker.Decode, Paired, View, Latest;
      var walked := BinanceWalker.Walk(text);
      if walked.None? {
        metrics.errors := metrics.errors + 1;
        return Continue;
      }
      var frame := walked.value;
      if frame.id > 0 && lastSeq > 0 && frame.id <= lastSeq {
        metrics.errors := metrics.errors + 1;
        return Continue;
      }
      lastSeq := frame.id;
      var book := OrderBook(BINANCE_ID, frame.bids, frame.asks, t0);
      metrics.messages := metrics.messages + 1;
      var ok := TrySendBook(sender, book, rx);
      if !ok {
        return Shutdown;
      }
      return Continue;
    }
  }

  class BitstampHandler {
    var lastMicro: u64

    constructor ()
      ensures lastMicro == 0
    {
      lastMicro := 0;
    }

    method OnConnected()
      modifies this
      ensures lastMicro == 0
    {
      lastMicro := 0;
    }

    /** For messages on which the walk does not abort the process. */
    method ProcessText(text: seq<byte>, t0: nat, sender: SlotSender<OrderBook>, metrics: ExchangeMetrics,
                       ghost rx: SlotReceiver<OrderBook>) returns (result: HandleResult)
      requires Paired(sender, rx) && sender.shared.Counted() && !sender.shared.senderGone
      requires |text| < MAX_FRAME && !BitstampWalker.TimestampDangles(text)
      modifies this`lastMicro, metrics`messages, metrics`errors, sender`back, sender.shared`state, sender.shared.buffers
      ensures Paired(sender, rx)
      ensures var r := React(old(lastMicro), BitstampReading(text, t0), sender.shared.receiverGone);
              && lastMicro == r.last && result == r.result
              && metrics.messages == old(metrics.messages) + r.messages
              && metrics.errors == old(metrics.errors) + r.errors
              && (r.sends ==> Latest(View(sender, rx)) == Some(BitstampReading(text, t0).book))
              && (!r.sends ==> View(sender, rx) == old(View(sender, rx)))
    {
      hide BitstampWalker.Decode, BitstampWalker.TimestampDangles, Paired, View, Latest;
      BitstampWalker.AbortsIff(text);
      var walked := BitstampWalker.Walk(text);
      if walked.Rejected? {
        metrics.errors := metrics.errors + 1;
        return Continue;
      }
      if walked.event == BitstampWalker.DATA {
        var micro := walked.micro;
        if micro > 0 && lastMicro > 0 && micro <= lastMicro {
          metrics.errors := metrics.errors + 1;
          return Continue;
        }
        lastMicro := micro;
        var book := OrderBook(BITSTAMP_ID, walked.bids, walked.asks, t0);
        metrics.messages := metrics.messages + 1;
        var ok := TrySendBook(sender, book, rx);
        if !ok {
          return Shutdown;
        }
      } else if walked.event == BitstampWalker.SUBSCRIBED {
      } else if walked.event == BitstampWalker.ERROR {
        metrics.errors := metrics.errors + 1;
        return Reconnect;
      }
      return Continue;
    }
  }

  // ---------------------------------------------------------------- one connection

  /** The ids that pass the filter, starting from a last id. */
  function Accepted(last: u64, ids: seq<u64>): seq<u64>
    decreases |ids|
  {
    if ids == [] then []
    else if Passes(last, ids[0]) then [ids[0]] + Accepted(ids[0], ids[1..])
    else Accepted(last, ids[1..])
  }

  predicate StrictlyIncreasing(s: seq<u64>) {
    forall i, j :: 0 <= i < j < |s| ==> s[i] < s[j]
  }

  predicate Positive(s: seq<u64>) {
    forall i :: 0 <= i < |s| ==> s[i] > 0
  }

  lemma {:induction false} AcceptedAbove(last: u64, ids: seq<u64>)
    requires Positive(ids)
    ensures StrictlyIncreasing(Accepted(last, ids))
    ensures forall i :: 0 <= i < |Accepted(last, ids)| ==> Accepted(last, ids)[i] > last
    decreases |ids|
  {
    if ids != [] {
      AcceptedAbove(if Passes(last, ids[0]) then ids[0] else last, ids[1..]);
    }
  }

  lemma {:induction false} ZeroIsAccepted(last: u64, ids: seq<u64>, i: nat)
    requires i < |ids| && ids[i] == 0
    ensures 0 in Accepted(last, ids)
    ensures last > 0 || i > 0 ==> !StrictlyIncreasing([last] + Accepted(last, ids))
    decreases |ids|
  {
    var rest, next := ids[1..], if Passes(last, ids[0]) then ids[0] else last;
    if i > 0 {
      ZeroIsAccepted(next, rest, i - 1);
    }
    var a := Accepted(last, ids);
    assert a == (if Passes(last, ids[0]) then [ids[0]] else []) + Accepted(next, rest);
    assert 0 in a;
    var p :| 0 <= p < |a| && a[p] == 0;
    assert ([last] + a)[0] == last && ([last] + a)[p + 1] == 0;
  }

  /**
   * On one connection the accepted ids strictly increase exactly when no frame after the first
   * carries id 0: an id of 0 is always accepted and resets the filter.
   */
  lemma {:induction false} IncreasingIff(ids: seq<u64>)
    ensures StrictlyIncreasing(Accepted(0, ids)) <==> ids == [] || Positive(ids[1..])
  {
    if ids != [] {
      var rest := Accepted(ids[0], ids[1..]);
      assert Accepted(0, ids) == [ids[0]] + rest;
      if Positive(ids[1..]) {
        AcceptedAbove(ids[0], ids[1..]);
      } else {
        var i :| 0 <= i < |ids[1..]| && ids[1..][i] == 0;
        ZeroIsAccepted(ids[0], ids[1..], i);
        var p :| 0 <= p < |rest| && rest[p] == 0;
        assert ([ids[0]] + rest)[0] == ids[0] && ([ids[0]] + rest)[p + 1] == 0;
      }
    }
  }

  /** The last id the filter holds after some frames. */
  function LastAfter(last: u64, ids: seq<u64>): u64
    decreases |ids|
  {
    if ids == [] then last else LastAfter(if Passes(last, ids[0]) then ids[0] else last, ids[1..])
  }

  /** With positive ids a frame is dropped exactly when an earlier one carried the same or a higher id. */
  lemma {:induction false} DropsExactlyTheStale(last: u64, ids: seq<u64>, id: u64)
    requires Positive(ids) && id > 0
    ensures !Passes(LastAfter(last, ids), id) <==> id <= last || exists k :: 0 <= k < |ids| && id <= ids[k]
    decreases |ids|
  {
    if ids != [] {
      var next := if Passes(last, ids[0]) then ids[0] else last;
      DropsExactlyTheStale(next, ids[1..], id);
      assert forall k :: 0 < k < |ids| ==> ids[k] == ids[1..][k - 1];
      if exists k :: 0 <= k < |ids[1..]| && id <= ids[1..][k] {
        var k :| 0 <= k < |ids[1..]| && id <= ids[1..][k];
        assert id <= ids[k + 1];
      }
    }
  }

  // ---------------------------------------------------------------- the reconnecting loop

  /** What the inner loop's select can yield; the end of the list is the end of the stream. */
  datatype Incoming =
    | Text(reading: Reading, abandoned: bool)
    | OtherFrame
    | Broken
    | CancelRequested

  datatype Attempt =
    | TimedOut
    | Refused
    | Connected(subscribed: bool, incoming: seq<Incoming>)

  /** One pass of the outer loop: cancelled before it, after its connection, or during the backoff. */
  datatype Turn = Turn(cancelled: bool, attempt: Attempt, cancelledAfter: bool, cancelledInBackoff: bool)

  /** A book put into the slot, with the connection it came from. */
  datatype Sent = Sent(epoch: nat, id: u64, book: OrderBook)

  /** What is sent, and by how much the counters grow. */
  datatype Tally = Tally(sent: seq<Sent>, messages: nat, errors: nat, reconnections: nat) {
    function Plus(t: Tally): Tally {
      Tally(sent + t.sent, messages + t.messages, errors + t.errors, reconnections + t.reconnections)
    }
  }

  const NOTHING: Tally := Tally([], 0, 0, 0)
  const ONE_ERROR: Tally := Tally([], 0, 1, 0)
  const ONE_RECONNECTION: Tally := Tally([], 0, 0, 1)

  /** What one frame adds, the last id behind it, and if it ends the connection whether for good. */
  function FrameStep(epoch: nat, last: u64, frame: Incoming): (Tally, u64, Option<bool>) {
    match frame
    case CancelRequested => (NOTHING, last, Some(true))
    case Broken => (ONE_ERROR, last, Some(false))
    case OtherFrame => (NOTHING, last, None)
    case Text(reading, abandoned) =>
      var r := React(last, reading, abandoned);
      var sent := if r.sends then [Sent(epoch, reading.id, reading.book)] else [];
      (Tally(sent, r.messages, r.errors, 0), r.last, if r.result == Continue then None else Some(r.result == Shutdown))
  }

  /** What one connection adds from a last id on, and whether the loop then returns for good. */
  function ReadBooks(epoch: nat, last: u64, incoming: seq<Incoming>): (Tally, bool)
    decreases |incoming|
  {
    if incoming == [] then (NOTHING, false)
    else
      var (tally, next, end) := FrameStep(epoch, last, incoming[0]);
      if end.Some? then (tally, end.value)
      else
        var (more, stop) := ReadBooks(epoch, next, incoming[1..]);
        (tally.Plus(more), stop)
  }

  /** What one attempt adds; a subscribed connection reads from a last id of 0. */
  function AttemptBooks(epoch: nat, attempt: Attempt): (Tally, bool) {
    match attempt
    case Connected(subscribed, incoming) => if subscribed then ReadBooks(epoch + 1, 0, incoming) else (ONE_ERROR, false)
    case _ => (ONE_ERROR, false)
  }

  /** What one pass of the outer loop adds, and whether the loop then returns for good. */
  function TurnBooks(epoch: nat, turn: Turn): (Tally, bool) {
    if turn.cancelled then (NOTHING, true)
    else
      var (tally, stop) := AttemptBooks(epoch, turn.attempt);
      if stop || turn.cancelledAfter then (tally, true)
      else (tally.Plus(ONE_RECONNECTION), turn.cancelledInBackoff)
  }

  function EpochAfter(epoch: nat, turn: Turn): nat {
    if turn.attempt.Connected? then epoch + 1 else epoch
  }

  /** What a script of connection attempts adds after `epoch` connections, and whether the loop returns. */
  function Played(epoch: nat, script: seq<Turn>): (Tally, bool)
    decreases |script|
  {
    if script == [] then (NOTHING, false)
    else
      var (tally, stop) := TurnBooks(epoch, script[0]);
      if stop then (tally, true)
      else
        var (more, returned) := Played(EpochAfter(epoch, script[0]), script[1..]);
        (tally.Plus(more), returned)
  }

  /** The books a script of connection attempts sends. */
  function SentBy(epoch: nat, script: seq<Turn>): seq<Sent> {
    Played(epoch, script).0.sent
  }

  lemma {:induction false} PlusNothing(t: Tally)
    ensures t.Plus(NOTHING) == t && NOTHING.Plus(t) == t
  {
  }

  lemma {:induction false} PlusAssociates(a: Tally, b: Tally, c: Tally)
    ensures a.Plus(b).Plus(c) == a.Plus(b.Plus(c))
  {
  }

  /** One frame moves what it adds from what is still to come to what has been added. */
  lemma {:induction false} ReadStep(epoch: nat, last: u64, incoming: seq<Incoming>, i: nat, sum: Tally)
    requires i <= |incoming|
    ensures var rest := ReadBooks(epoch, last, incoming[i..]);
            if i == |incoming| then rest == (NOTHING, false)
            else
              var (tally, next, end) := FrameStep(epoch, last, incoming[i]);
              if end.Some? then rest == (tally, end.value)
              else
                var (more, stop) := ReadBooks(epoch, next, incoming[i + 1..]);
                rest.1 == stop && sum.Plus(rest.0) == sum.Plus(tally).Plus(more)
  {
    hide FrameStep;
    if i < |incoming| {
      var rest := incoming[i..];
      assert rest[0] == incoming[i] && rest[1..] == incoming[i + 1..];
      var (tally, next, end) := FrameStep(epoch, last, incoming[i]);
      PlusAssociates(sum, tally, ReadBooks(epoch, next, incoming[i + 1..]).0);
    }
  }

  /** The inner read loop. */
  method ReadConnection(epoch: nat, last0: u64, incoming: seq<Incoming>) returns (tally: Tally, stop: bool)
    ensures (tally, stop) == ReadBooks(epoch, last0, incoming)
  {
    hide ReadBooks, React;
    tally := NOTHING;
    var last, i := last0, 0;
    ghost var all := ReadBooks(epoch, last0, incoming);
    assert incoming[0..] == incoming;
    PlusNothing(all.0);
    while i < |incoming|
      invariant 0 <= i <= |incoming|
      invariant var (more, end) := ReadBooks(epoch, last, incoming[i..]);
                all == (tally.Plus(more), end)
    {
      ReadStep(epoch, last, incoming, i, tally);
      match incoming[i] {
        case CancelRequested =>
          PlusNothing(tally);
          return tally, true;
        case Broken =>
          return tally.Plus(ONE_ERROR), false;
        case OtherFrame =>
          PlusNothing(tally);
        case Text(reading, abandoned) =>
          var r := React(last, reading, abandoned);
          var sent := if r.sends then [Sent(epoch, reading.id, reading.book)] else [];
          tally := tally.Plus(Tally(sent, r.messages, r.errors, 0));
          if r.result != Continue {
            return tally, r.result == Shutdown;
          }
          last := r.last;
      }
      i := i + 1;
    }
    ReadStep(epoch, last, incoming, i, tally);
    PlusNothing(tally);
    stop := false;
  }

  /** One pass moves what it adds from what is still to come to what has been added. */
  lemma {:induction false} TurnStep(epoch: nat, script: seq<Turn>, t: nat, sum: Tally)
    requires t <= |script|
    ensures var rest := Played(epoch, script[t..]);
            if t == |script| then rest == (NOTHING, false)
            else
              var (tally, stop) := TurnBooks(epoch, script[t]);
              if stop then rest == (tally, true)
              else
                var (more, returned) := Played(EpochAfter(epoch, script[t]), script[t + 1..]);
                rest.1 == returned && sum.Plus(rest.0) == sum.Plus(tally).Plus(more)
  {
    hide TurnBooks, EpochAfter;
    if t < |script| {
      var rest := script[t..];
      assert rest[0] == script[t] && rest[1..] == script[t + 1..];
      PlusAssociates(sum, TurnBooks(epoch, script[t]).0, Played(EpochAfter(epoch, script[t]), script[t + 1..]).0);
    }
  }

  lemma {:induction false} TurnCases(epoch: nat, turn: Turn, sum: Tally)
    ensures turn.cancelled ==> TurnBooks(epoch, turn) == (NOTHING, true)
    ensures !turn.cancelled ==>
              var (tally, stop) := AttemptBooks(epoch, turn.attempt);
              if stop || turn.cancelledAfter then TurnBooks(epoch, turn) == (tally, true)
              else
                && TurnBooks(epoch, turn).1 == turn.cancelledInBackoff
                && sum.Plus(TurnBooks(epoch, turn).0) == sum.Plus(tally).Plus(ONE_RECONNECTION)
  {
    PlusAssociates(sum, AttemptBooks(epoch, turn.attempt).0, ONE_RECONNECTION);
  }

  /** `run_ws_loop`: the last id is reset on every established connection and nowhere else. */
  method RunWsLoop(script: seq<Turn>) returns (tally: Tally, returned: bool)
    ensures (tally, returned) == Played(0, script)
  {
    hide ReadBooks, Played, TurnBooks, Tally.Plus;
    tally := NOTHING;
    var last: u64, epoch: nat, t := 0, 0, 0;
    ghost var all := Played(0, script);
    assert script[0..] == script;
    PlusNothing(all.0);
    while t < |script|
      invariant 0 <= t <= |script|
      invariant var (more, end) := Played(epoch, script[t..]);
                all == (tally.Plus(more), end)
    {
      var turn := script[t];
      TurnStep(epoch, script, t, tally);
      TurnCases(epoch, turn, tally);
      PlusNothing(tally);
      if turn.cancelled {
        return tally, true;
      }
      var stop := false;
      match turn.attempt {
        case TimedOut =>
          tally := tally.Plus(ONE_ERROR);
        case Refused =>
          tally := tally.Plus(ONE_ERROR);
        case Connected(subscribed, incoming) =>
          epoch := epoch + 1;
          last := 0;
          if subscribed {
            var read;
            read, stop := ReadConnection(epoch, last, incoming);
            tally := tally.Plus(read);
            if stop {
              return tally, true;
            }
          } else {
            tally := tally.Plus(ONE_ERROR);
          }
      }
      if turn.cancelledAfter {
        return tally, true;
      }
      tally := tally.Plus(ONE_RECONNECTION);
      if turn.cancelledInBackoff {
        return tally, true;
      }
      t := t + 1;
    }
    TurnStep(epoch, script, t, tally);
    PlusNothing(tally);
    returned := false;
  }

  /** The ids of the book frames, in order. */
  function IdsOf(incoming: seq<Incoming>): seq<u64> {
    if incoming == [] then []
    else
      (match incoming[0]
       case Text(Book(id, _), _) => [id]
       case _ => []) + IdsOf(incoming[1..])
  }

  function SentIds(sent: seq<Sent>): seq<u64> {
    seq(|sent|, i requires 0 <= i < |sent| => sent[i].id)
  }

  lemma {:induction false} NoSentIds()
    ensures SentIds([]) == []
  {
  }

  lemma {:induction false} SentIdsCons(book: Sent, more: seq<Sent>)
    ensures SentIds([book] + more) == [book.id] + SentIds(more)
  {
  }

  /** One frame's part of what is sent. */
  lemma {:induction false} ReadUnfold(epoch: nat, last: u64, incoming: seq<Incoming>)
    ensures var sent := ReadBooks(epoch, last, incoming).0.sent;
            if incoming == [] || incoming[0].CancelRequested? || incoming[0].Broken? then SentIds(sent) == [] && sent == []
            else if incoming[0].OtherFrame? then sent == ReadBooks(epoch, last, incoming[1..]).0.sent
            else
              var r := React(last, incoming[0].reading, incoming[0].abandoned);
              var more := ReadBooks(epoch, r.last, incoming[1..]).0.sent;
              if r.result != Continue then SentIds(sent) == [] && sent == []
              else if r.sends then
                var book := Sent(epoch, incoming[0].reading.id, incoming[0].reading.book);
                sent == [book] + more && SentIds(sent) == [book.id] + SentIds(more)
              else sent == more
  {
    hide React, SentIds;
    NoSentIds();
    if incoming != [] && incoming[0].Text? {
      var r := React(last, incoming[0].reading, incoming[0].abandoned);
      var more := ReadBooks(epoch, r.last, incoming[1..]).0.sent;
      assert [] + more == more;
      if r.sends {
        SentIdsCons(Sent(epoch, incoming[0].reading.id, incoming[0].reading.book), more);
      }
    }
  }

  /** One frame's part of what the filter accepts. */
  lemma {:induction false} AcceptedUnfold(last: u64, incoming: seq<Incoming>)
    requires incoming != []
    ensures var ids, all := IdsOf(incoming[1..]), Accepted(last, IdsOf(incoming));
            if incoming[0].Text? && incoming[0].reading.Book? then
              var id := incoming[0].reading.id;
              all == if Passes(last, id) then [id] + Accepted(id, ids) else Accepted(last, ids)
            else all == Accepted(last, ids)
  {
    var ids := IdsOf(incoming[1..]);
    if incoming[0].Text? && incoming[0].reading.Book? {
      assert ([incoming[0].reading.id] + ids)[1..] == ids;
    } else {
      assert [] + ids == ids;
    }
  }

  /** What a connection sends is a prefix of what the filter accepts of its frames. */
  lemma {:induction false} SendsAccepted(epoch: nat, last: u64, incoming: seq<Incoming>)
    ensures SentIds(ReadBooks(epoch, last, incoming).0.sent) <= Accepted(last, IdsOf(incoming))
    ensures forall i :: 0 <= i < |ReadBooks(epoch, last, incoming).0.sent| ==> ReadBooks(epoch, last, incoming).0.sent[i].epoch == epoch
    decreases |incoming|
  {
    hide ReadBooks, IdsOf, Accepted, SentIds;
    ReadUnfold(epoch, last, incoming);
    if incoming != [] {
      AcceptedUnfold(last, incoming);
      var rest := incoming[1..];
      match incoming[0] {
        case OtherFrame => SendsAccepted(epoch, last, rest);
        case Text(reading, abandoned) => SendsAccepted(epoch, React(last, reading, abandoned).last, rest);
        case _ =>
      }
    }
  }

  /** Nothing ends the connection early: no error event, no broken stream, no shutdown. */
  predicate Undisturbed(incoming: seq<Incoming>) {
    forall i :: 0 <= i < |incoming| ==>
      incoming[i].OtherFrame? || (incoming[i].Text? && !incoming[i].reading.ServerError? && !incoming[i].abandoned)
  }

  lemma {:induction false} NoIds(last: u64)
    ensures IdsOf([]) == [] && Accepted(last, []) == []
  {
  }

  /** An undisturbed connection sends exactly what the filter accepts, and the loop reconnects. */
  lemma {:induction false} SendsAllAccepted(epoch: nat, last: u64, incoming: seq<Incoming>)
    requires Undisturbed(incoming)
    ensures SentIds(ReadBooks(epoch, last, incoming).0.sent) == Accepted(last, IdsOf(incoming))
    ensures !ReadBooks(epoch, last, incoming).1
    decreases |incoming|
  {
    hide IdsOf, Accepted, SentIds;
    ReadUnfold(epoch, last, incoming);
    if incoming == [] {
      assert IdsOf([]) == [] && Accepted(last, []) == [] by { NoIds(last); }
    } else {
      AcceptedUnfold(last, incoming);
      var rest := incoming[1..];
      match incoming[0]
      case OtherFrame => SendsAllAccepted(epoch, last, rest);
      case Text(reading, abandoned) => SendsAllAccepted(epoch, React(last, reading, abandoned).last, rest);
    }
  }

  /** Every book sent is the book of one frame, under that frame's id. */
  lemma {:induction false} SentSource(epoch: nat, last: u64, incoming: seq<Incoming>, i: nat) returns (k: nat)
    requires i < |ReadBooks(epoch, last, incoming).0.sent|
    ensures var sent := ReadBooks(epoch, last, incoming).0.sent[i];
            k < |incoming| && incoming[k].Text? && incoming[k].reading == Book(sent.id, sent.book)
    decreases |incoming|
  {
    hide ReadBooks, SentIds;
    ReadUnfold(epoch, last, incoming);
    var rest := incoming[1..];
    if incoming[0].OtherFrame? {
      k := SentSource(epoch, last, rest, i);
      k := k + 1;
    } else {
      var r := React(last, incoming[0].reading, incoming[0].abandoned);
      if r.sends && i == 0 {
        k := 0;
      } else {
        k := SentSource(epoch, r.last, rest, if r.sends then i - 1 else i);
        k := k + 1;
      }
    }
  }

  /** The text frame of a snapshot in the exchange's own layout. */
  function Frame(id: u64, bids: seq<Pair>, asks: seq<Pair>, t0: nat): Incoming {
    Text(BinanceReading(Layouts.BinanceText(id, bids, asks), t0), false)
  }

  lemma {:induction false} FrameReads(id: u64, bids: seq<Pair>, asks: seq<Pair>, t0: nat)
    requires AllWellFormed(bids) && AllWellFormed(asks)
    ensures Frame(id, bids, asks, t0).reading.Book? && Frame(id, bids, asks, t0).reading.id == id
    ensures Frame(id, bids, asks, t0).Text? && !Frame(id, bids, asks, t0).abandoned
  {
    hide BinanceWalker.Decode, Layouts.BinanceText;
    Layouts.BinanceTextDecodes(id, bids, asks);
  }

  /** Three frames of one connection, on the wire: an id of 0 between 7 and 5 lets both through. */
  lemma {:induction false} ResetExample(epoch: nat, bids: seq<Pair>, asks: seq<Pair>, t0: nat)
    requires AllWellFormed(bids) && AllWellFormed(asks)
    ensures var sent := ReadBooks(epoch, 0, [Frame(7, bids, asks, t0), Frame(0, bids, asks, t0), Frame(5, bids, asks, t0)]).0.sent;
            SentIds(sent) == [7, 0, 5] && !StrictlyIncreasing(SentIds(sent))
  {
    hide ReadBooks, Frame;
    var a, b, c := Frame(7, bids, asks, t0), Frame(0, bids, asks, t0), Frame(5, bids, asks, t0);
    FrameReads(7, bids, asks, t0);
    FrameReads(0, bids, asks, t0);
    FrameReads(5, bids, asks, t0);
    SendsAllAccepted(epoch, 0, [a, b, c]);
    assert [a, b, c][1..] == [b, c] && [b, c][1..] == [c] && [c][1..] == [];
    assert IdsOf([c]) == [5] && IdsOf([b, c]) == [0] + [5] && IdsOf([a, b, c]) == [7] + [0, 5];
    assert [7, 0, 5][1..] == [0, 5] && [0, 5][1..] == [5] && [5][1..] == [];
    assert Accepted(0, [5]) == [5] && Accepted(7, [0, 5]) == [0, 5] && Accepted(0, [7, 0, 5]) == [7, 0, 5];
    assert [7, 0, 5][1] < [7, 0, 5][0];
  }

  /** Later connection, or same connection and larger id. */
  predicate Later(a: Sent, b: Sent) {
    a.epoch < b.epoch || (a.epoch == b.epoch && a.id < b.id)
  }

  predicate InOrder(sent: seq<Sent>) {
    forall i, j :: 0 <= i < j < |sent| ==> Later(sent[i], sent[j])
  }

  /** On every connection only the first book frame may lack an id. */
  predicate WithIds(script: seq<Turn>) {
    forall i :: 0 <= i < |script| && script[i].attempt.Connected? ==>
      IdsOf(script[i].attempt.incoming) == [] || Positive(IdsOf(script[i].attempt.incoming)[1..])
  }

  lemma {:induction false} ConnectionInOrder(epoch: nat, incoming: seq<Incoming>)
    requires IdsOf(incoming) == [] || Positive(IdsOf(incoming)[1..])
    ensures InOrder(ReadBooks(epoch, 0, incoming).0.sent)
    ensures forall i :: 0 <= i < |ReadBooks(epoch, 0, incoming).0.sent| ==> ReadBooks(epoch, 0, incoming).0.sent[i].epoch == epoch
  {
    hide Accepted, ReadBooks, IdsOf;
    var sent, ids := ReadBooks(epoch, 0, incoming).0.sent, Accepted(0, IdsOf(incoming));
    SendsAccepted(epoch, 0, incoming);
    IncreasingIff(IdsOf(incoming));
    forall i, j | 0 <= i < j < |sent|
      ensures Later(sent[i], sent[j])
    {
      assert ids[i] == SentIds(sent)[i] && ids[j] == SentIds(sent)[j];
    }
  }

  /** Over the whole run, reconnections included, books are sent in order of connection and id. */
  lemma {:induction false} SentInOrder(epoch: nat, script: seq<Turn>)
    requires WithIds(script)
    ensures InOrder(SentBy(epoch, script))
    ensures forall i :: 0 <= i < |SentBy(epoch, script)| ==> SentBy(epoch, script)[i].epoch > epoch
    decreases |script|
  {
    hide ReadBooks, IdsOf, Positive;
    if script != [] {
      var rest := script[1..];
      assert WithIds(rest);
      SentInOrder(EpochAfter(epoch, script[0]), rest);
      if script[0].attempt.Connected? {
        ConnectionInOrder(epoch + 1, script[0].attempt.incoming);
      }
    }
  }

  /**
   * The books the merger receives, through the filter, the slot and its overwrites under any
   * interleaving, come in order of connection and id.
   */
  lemma {:induction false} DeliveredInOrder(steps: seq<SlotProtocol.Step<Sent>>, script: seq<Turn>)
    requires WithIds(script)
    requires SlotProtocol.Run(steps).Some? && SlotProtocol.Run(steps).value.sent <= SentBy(0, script)
    ensures var d := SlotProtocol.Run(steps).value.delivered;
            forall i, j :: 0 <= i < j < |d| ==> Later(d[i].value, d[j].value)
  {
    hide SentBy, SlotProtocol.Run;
    SentInOrder(0, script);
    SlotProtocol.DeliveredInOrder(steps);
    var s, all := SlotProtocol.Run(steps).value, SentBy(0, script);
    forall i, j | 0 <= i < j < |s.delivered|
      ensures Later(s.delivered[i].value, s.delivered[j].value)
    {
      assert all[s.delivered[i].tag] == s.sent[s.delivered[i].tag];
      assert all[s.delivered[j].tag] == s.sent[s.delivered[j].tag];
    }
  }
}
