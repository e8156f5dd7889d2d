/** src/exchange/bitstamp.rs: decoding an order-book channel message. */
module BitstampWalker {
  import opened Prelude
  import opened FixedPoint
  import opened JsonWalker
  import opened Keys
  import opened LevelArrays
  import opened Types
  import opened Wire

  const DATA: seq<byte> := [100, 97, 116, 97]
  const SUBSCRIBED: seq<byte> := [98, 116, 115, 58, 115, 117, 98, 115, 99, 114, 105, 112, 116, 105, 111, 110, 95,
                                  115, 117, 99, 99, 101, 101, 100, 101, 100]
  const ERROR: seq<byte> := [98, 116, 115, 58, 101, 114, 114, 111, 114]
  const PLUS: byte := 43

  /** `Aborted`: the walk sliced past the end of its frame, which ends the process. */
  datatype Outcome =
    | Aborted
    | Rejected
    | Parsed(event: seq<byte>, micro: u64, bids: seq<RawLevel>, asks: seq<RawLevel>)

  /** `str::parse::<u64>`: digits with an optional plus sign. */
  function ParseU64(s: seq<byte>): Option<u64> {
    var digits := if |s| > 1 && s[0] == PLUS then s[1..] else s;
    if digits != [] && AllDigits(digits) && Val(digits) <= U64_MAX then Some(Val(digits)) else None
  }

  /** The microtimestamp a text stands for: 0 when it is no number that fits. */
  function MicroOf(text: seq<byte>): u64 {
    if ParseU64(text).Some? then ParseU64(text).value else 0
  }

  /** The text is one or more digits `d`, perhaps after a plus sign. */
  predicate Signed(text: seq<byte>, d: seq<byte>) {
    d != [] && AllDigits(d) && (text == d || text == [43] + d)
  }

  /** A digit text stands for its value unless that exceeds 64 bits; every other text stands for 0. */
  lemma {:induction false} MicroOfIs(text: seq<byte>)
    ensures forall d :: Signed(text, d) ==> MicroOf(text) == if Val(d) <= 0xFFFF_FFFF_FFFF_FFFF then Val(d) else 0
    ensures (forall d :: !Signed(text, d)) ==> MicroOf(text) == 0
  {
    hide Val;
    forall d | Signed(text, d)
      ensures MicroOf(text) == if Val(d) <= 0xFFFF_FFFF_FFFF_FFFF then Val(d) else 0
    {
      if text == [43] + d {
        assert text[1..] == d;
      } else {
        assert text[0] == d[0];
      }
    }
    if ParseU64(text).Some? {
      var d := if |text| > 1 && text[0] == PLUS then text[1..] else text;
      assert Signed(text, d);
    }
  }

  /** The microtimestamp and where the search for the sides starts; `value` is None without the key. */
  function MicroAt(json: seq<byte>): At<Option<u64>> {
    match Find(json, 0, Key(MICROTIMESTAMP))
    case None => At(None, 0)
    case Some(i) =>
      var text := StringAt(json, i + |Key(MICROTIMESTAMP)|);
      At(Some(if text.value.Some? then MicroOf(text.value.value) else 0), text.next)
  }

  /** The event name of a message without a microtimestamp. */
  function EventAt(json: seq<byte>): Option<seq<byte>> {
    var i :- Find(json, 0, Key(EVENT));
    StringAt(json, i + |Key(EVENT)|).value
  }

  function SidesAt(json: seq<byte>, pos: nat): Option<(seq<RawLevel>, seq<RawLevel>)>
    requires pos <= |json|
  {
    var bids :- OptionalLevelsAt(json, pos, Key(BIDS), DEPTH);
    var asks :- OptionalLevelsAt(json, bids.next, Key(ASKS), DEPTH);
    Some((bids.value, asks.value))
  }

  /** What `walk` does with a message. */
  function Decode(json: seq<byte>): Outcome {
    var micro := MicroAt(json);
    if micro.next > |json| then Aborted
    else
      match SidesAt(json, micro.next)
      case None => Rejected
      case Some((bids, asks)) =>
        match micro.value
        case Some(m) => Parsed(DATA, m, bids, asks)
        case None =>
          match EventAt(json)
          case Some(event) => Parsed(event, 0, bids, asks)
          case None => Rejected
  }

  /** `walk`. */
  method Walk(json: seq<byte>) returns (r: Outcome)
    requires |json| < MAX_FRAME
    ensures r == Decode(json)
  {
    hide LevelsAt, LevelsPushFails, StringAt, Key, Find, ParseU64, OptionalLevelsAt;
    var s := new Scanner(json);
    var micro: u64 := 0;
    var hasData := s.Seek(Key(MICROTIMESTAMP));
    if hasData {
      var text := s.ReadString();
      if text.Some? && ParseU64(text.value).Some? {
        micro := ParseU64(text.value).value;
      }
    } else {
      s.pos := 0;
    }
    if s.pos > |s.buf| {
      return Aborted;
    }
    var bids := s.ReadOptionalRawLevels(Key(BIDS), DEPTH);
    if bids.None? {
      return Rejected;
    }
    var asks := s.ReadOptionalRawLevels(Key(ASKS), DEPTH);
    if asks.None? {
      return Rejected;
    }
    if hasData {
      return Parsed(DATA, micro, bids.value, asks.value);
    }
    s.pos := 0;
    var found := s.Seek(Key(EVENT));
    if !found {
      return Rejected;
    }
    var event := s.ReadString();
    if event.None? {
      return Rejected;
    }
    return Parsed(event.value, micro, bids.value, asks.value);
  }

  /** `parse_order_book_json`, for messages on which the walk does not abort. */
  method ParseOrderBookJson(json: seq<byte>, now: nat) returns (r: Option<OrderBook>)
    requires |json| < MAX_FRAME && Decode(json) != Aborted
    ensures r == match Decode(json)
                 case Parsed(event, _, bids, asks) =>
                   if event == DATA then Some(OrderBook(BITSTAMP_ID, bids, asks, now)) else None
                 case _ => None
  {
    var outcome := Walk(json);
    if outcome.Rejected? || outcome.event != DATA {
      return None;
    }
    return Some(OrderBook(BITSTAMP_ID, outcome.bids, outcome.asks, now));
  }

  // ---------------------------------------------------------------- when the walk aborts

  /**
   * The first `"microtimestamp":` is followed by a string that never closes, its last byte being a
   * backslash that itself is not escaped.
   */
  predicate TimestampDangles(json: seq<byte>) {
    match Find(json, 0, Key(MICROTIMESTAMP))
    case None => false
    case Some(i) =>
      var open := AfterWhitespace(json, i + |Key(MICROTIMESTAMP)|);
      open < |json| && json[open] == QUOTE && Dangles(json, open + 1)
  }

  /** The scanner runs past its frame exactly on a dangling escape in the timestamp string. */
  lemma {:induction false} AbortsIff(json: seq<byte>)
    ensures Decode(json) == Aborted <==> TimestampDangles(json)
  {
    hide Find, Key, SidesAt, ClosingQuote, Backslashes;
  }

  lemma {:induction false} NeverCloses(buf: seq<byte>, start: nat)
    requires start + 1 == |buf| && buf[start] != QUOTE
    ensures ClosingQuote(buf, start, start) == |buf|
  {
    assert !Closes(buf, start, start);
  }

  lemma {:induction false} FreeNothing(name: seq<byte>)
    ensures Free([], Key(name))
  {
  }

  /** `"microtimestamp":"\` is such a frame. */
  lemma {:induction false} AbortExample()
    ensures Decode(Key(MICROTIMESTAMP) + [QUOTE, BACKSLASH]) == Aborted
  {
    hide Find, Decode, Free, Stands, ClosingQuote;
    var key := Key(MICROTIMESTAMP);
    var json := key + [QUOTE, BACKSLASH];
    StandsWhole(json);
    StandsSplit(json, 0, key, [QUOTE, BACKSLASH]);
    assert [] + key == key;
    FreeNothing(MICROTIMESTAMP);
    KeyFound(json, 0, [], MICROTIMESTAMP);
    assert json[|key|] == QUOTE && json[|key| + 1] == BACKSLASH;
    assert Backslashes(json, |key| + 1, |json|) == 1;
    NeverCloses(json, |key| + 1);
    AbortsIff(json);
  }

  /** No continuation byte follows an ASCII byte: true of every UTF-8 text. */
  predicate AsciiStandsAlone(buf: seq<byte>) {
    forall i :: 0 <= i < |buf| - 1 && buf[i] < 128 ==> !(128 <= buf[i + 1] < 192)
  }

  /** On UTF-8 text the boundary check on a string's ends never fails: every closed string is read. */
  lemma {:induction false} ClosedStringsAreRead(buf: seq<byte>, pos: nat)
    requires AsciiStandsAlone(buf)
    requires var open := AfterWhitespace(buf, pos);
             open < |buf| && buf[open] == QUOTE && ClosingQuote(buf, open + 1, open + 1) < |buf|
    ensures var start := AfterWhitespace(buf, pos) + 1;
            StringAt(buf, pos) == At(Some(buf[start..ClosingQuote(buf, start, start)]), ClosingQuote(buf, start, start) + 1)
  {
    var open := AfterWhitespace(buf, pos);
    assert buf[open] < 128;
  }

  // ---------------------------------------------------------------- wire format

  lemma {:induction false} ParseDigits(v: u64)
    ensures ParseU64(Digits(v)) == Some(v)
  {
    ValDigits(v);
  }

  /** A data message with arbitrary bytes around and between its three fields. */
  datatype Message = Message(
    pre: seq<byte>, micro: u64, gap1: seq<byte>, bids: seq<Pair>, gap2: seq<byte>, asks: seq<Pair>, post: seq<byte>)

  predicate Printable(m: Message) {
    && AllWellFormed(m.bids) && AllWellFormed(m.asks)
    && Free(m.pre, Key(MICROTIMESTAMP)) && Free(m.gap1, Key(BIDS)) && Free(m.gap2, Key(ASKS))
  }

  /** The message with another text in the place of its microtimestamp. */
  function PrintText(m: Message, text: seq<byte>): seq<byte> {
    (m.pre + Key(MICROTIMESTAMP)) + (([QUOTE] + text + [QUOTE]) + ((m.gap1 + Key(BIDS))
    + (PrintLevels(m.bids) + ((m.gap2 + Key(ASKS)) + (PrintLevels(m.asks) + m.post)))))
  }

  function Print(m: Message): seq<byte> {
    PrintText(m, Digits(m.micro))
  }

  lemma {:induction false} OptionalIsSide(json: seq<byte>, pos: nat, name: seq<byte>)
    requires pos <= |json| && SideAt(json, pos, name).Some?
    ensures OptionalLevelsAt(json, pos, Key(name), DEPTH) == SideAt(json, pos, name)
  {
    hide Find, LevelsAt, Key;
  }

  /** Two printed sides, seen through the optional-field reader. */
  lemma {:induction false} SidesRead(
      json: seq<byte>, pos: nat, gap1: seq<byte>, bids: seq<Pair>, gap2: seq<byte>, asks: seq<Pair>, post: seq<byte>)
    requires AllWellFormed(bids) && AllWellFormed(asks) && Free(gap1, Key(BIDS)) && Free(gap2, Key(ASKS))
    requires pos <= |json| && Stands(json, pos,
               (gap1 + Key(BIDS)) + (PrintLevels(bids) + ((gap2 + Key(ASKS)) + (PrintLevels(asks) + post))))
    ensures SidesAt(json, pos) == Some((FirstN(Nonzero(bids), DEPTH), FirstN(Nonzero(asks), DEPTH)))
  {
    hide AllWellFormed, Free, Key, PrintLevels, Nonzero, SideAt, Stands, FirstN, OptionalLevelsAt;
    SidesStand(json, pos, gap1, bids, gap2, asks, post);
    OptionalIsSide(json, pos, BIDS);
    OptionalIsSide(json, SideAt(json, pos, BIDS).value.next, ASKS);
  }

  lemma {:induction false} StandsInside(buf: seq<byte>, pos: nat, part: seq<byte>)
    requires Stands(buf, pos, part)
    ensures pos + |part| <= |buf|
  {
  }

  /** Bytes and two-byte escapes, none of them a bare quote. */
  predicate IsEscaped(t: seq<byte>) {
    || t == []
    || (t[0] == BACKSLASH && |t| >= 2 && IsEscaped(t[2..]))
    || (t[0] != BACKSLASH && t[0] != QUOTE && IsEscaped(t[1..]))
  }

  lemma {:induction false} StringAhead(buf: seq<byte>, start: nat, pos: nat)
    requires InString(buf, start, pos)
    ensures start <= pos <= |buf|
  {
  }

  lemma {:induction false} EscapedCloses(buf: seq<byte>, start: nat, pos: nat, t: seq<byte>)
    requires InString(buf, start, pos) && IsEscaped(t) && Stands(buf, pos, t + [QUOTE])
    ensures pos + |t| < |buf| && ClosingQuote(buf, start, start) == pos + |t|
    decreases |t|
  {
    hide InString, ClosingQuote, Stands, Backslashes;
    StringAhead(buf, start, pos);
    StandsInside(buf, pos, t + [QUOTE]);
    StringStep(buf, start, pos);
    if t == [] {
      assert t + [QUOTE] == [QUOTE];
      ByteStands(buf, pos, QUOTE);
    } else {
      var n := if t[0] == BACKSLASH then 2 else 1;
      assert t + [QUOTE] == [t[0]] + (t + [QUOTE])[1..];
      StandsSplit(buf, pos, [t[0]], (t + [QUOTE])[1..]);
      ByteStands(buf, pos, t[0]);
      assert t + [QUOTE] == t[..n] + (t[n..] + [QUOTE]);
      StandsSplit(buf, pos, t[..n], t[n..] + [QUOTE]);
      StandsInside(buf, pos + n, t[n..] + [QUOTE]);
      EscapedCloses(buf, start, pos + n, t[n..]);
    }
  }

  /** A quoted text whose inner quotes are escaped reads back as it stands, escapes included. */
  lemma {:induction false} EscapedStands(buf: seq<byte>, pos: nat, text: seq<byte>)
    requires Stands(buf, pos, [QUOTE] + text + [QUOTE]) && IsEscaped(text)
    requires text != [] ==> !(128 <= text[0] < 192)
    ensures StringAt(buf, pos) == At(Some(text), pos + |text| + 2)
  {
    hide Stands, ClosingQuote, Backslashes, InString, IsEscaped;
    assert [QUOTE] + text + [QUOTE] == [QUOTE] + (text + [QUOTE]);
    StandsSplit(buf, pos, [QUOTE], text + [QUOTE]);
    StandsSplit(buf, pos + 1, text, [QUOTE]);
    ByteStands(buf, pos, QUOTE);
    ByteStands(buf, pos + 1 + |text|, QUOTE);
    StringStart(buf, pos + 1);
    EscapedCloses(buf, pos + 1, pos + 1, text);
    StandsHere(buf, pos + 1, text);
    if text != [] {
      assert buf[pos + 1] == buf[pos + 1..pos + 1 + |text|][0];
    }
  }

  /**
   * Decoding a printed data message, whatever text stands for its microtimestamp: the id is what that
   * text denotes, and each side its first DEPTH nonzero levels.
   */
  lemma {:induction false} TextRoundTrip(m: Message, text: seq<byte>)
    requires Printable(m) && IsEscaped(text) && (text != [] ==> !(128 <= text[0] < 192))
    ensures Decode(PrintText(m, text))
         == Parsed(DATA, MicroOf(text), FirstN(Nonzero(m.bids), DEPTH), FirstN(Nonzero(m.asks), DEPTH))
  {
    hide AllWellFormed, Free, Key, PrintLevels, Nonzero, SidesAt, Find, StringAt, MicroOf, Stands, FirstN, IsEscaped;
    var json, head := PrintText(m, text), m.pre + Key(MICROTIMESTAMP);
    var stamp := [QUOTE] + text + [QUOTE];
    var sides := (m.gap1 + Key(BIDS)) + (PrintLevels(m.bids)
      + ((m.gap2 + Key(ASKS)) + (PrintLevels(m.asks) + m.post)));
    StandsWhole(json);
    StandsSplit(json, 0, head, stamp + sides);
    StandsSplit(json, |head|, stamp, sides);
    KeyFound(json, 0, m.pre, MICROTIMESTAMP);
    EscapedStands(json, |head|, text);
    StandsInside(json, |head| + |stamp|, sides);
    SidesRead(json, |head| + |stamp|, m.gap1, m.bids, m.gap2, m.asks, m.post);
  }

  lemma {:induction false} PlainIsEscaped(t: seq<byte>)
    requires forall i :: 0 <= i < |t| ==> t[i] != QUOTE && t[i] != BACKSLASH
    ensures IsEscaped(t)
    decreases |t|
  {
    if t != [] {
      PlainIsEscaped(t[1..]);
    }
  }

  /** Decoding a printed data message returns its timestamp and the first DEPTH nonzero levels of each side. */
  lemma {:induction false} DataRoundTrip(m: Message)
    requires Printable(m)
    ensures Decode(Print(m))
         == Parsed(DATA, m.micro, FirstN(Nonzero(m.bids), DEPTH), FirstN(Nonzero(m.asks), DEPTH))
  {
    hide Printable, Decode, PrintText, Nonzero, FirstN, Digits;
    var text := Digits(m.micro);
    assert IsDigit(text[0]);
    PlainIsEscaped(text);
    ParseDigits(m.micro);
    TextRoundTrip(m, text);
  }

  const DATA_TIMESTAMP: seq<byte> := [116, 105, 109, 101, 115, 116, 97, 109, 112]

  /** `{"data":{"timestamp":"...",` */
  function Opening(stamp: seq<byte>): seq<byte> {
    Render([Chunk([123], DATA), Chunk([COLON, 123], DATA_TIMESTAMP), Chunk([COLON], stamp)], [COMMA])
  }

  /** The exchange's own layout: data first, then channel and event, whatever these say. */
  function WireMessage(stamp: seq<byte>, micro: u64, bids: seq<Pair>, asks: seq<Pair>, trailer: seq<byte>): Message {
    Message(Opening(stamp), micro, [COMMA], bids, [COMMA], asks, trailer)
  }

  lemma {:induction false} OpeningFree(stamp: seq<byte>)
    requires AllDigits(stamp)
    ensures Free(Opening(stamp), Key(MICROTIMESTAMP))
  {
    hide Free, Key, Render;
    ChunksFree([Chunk([123], DATA), Chunk([COLON, 123], DATA_TIMESTAMP), Chunk([COLON], stamp)], [COMMA], MICROTIMESTAMP);
  }

  lemma {:induction false} CommaFree(name: seq<byte>)
    ensures Free([COMMA], Key(name))
  {
  }

  lemma {:induction false} WirePrintable(
      stamp: seq<byte>, micro: u64, bids: seq<Pair>, asks: seq<Pair>, trailer: seq<byte>)
    requires AllDigits(stamp) && AllWellFormed(bids) && AllWellFormed(asks)
    ensures Printable(WireMessage(stamp, micro, bids, asks, trailer))
  {
    hide AllWellFormed, Key, Free;
    OpeningFree(stamp);
    CommaFree(BIDS);
    CommaFree(ASKS);
  }

  /** The round trip on the exchange's layout, for any digit timestamp and any trailer. */
  lemma {:induction false} WireRoundTrip(
      stamp: seq<byte>, micro: u64, bids: seq<Pair>, asks: seq<Pair>, trailer: seq<byte>)
    requires AllDigits(stamp) && AllWellFormed(bids) && AllWellFormed(asks)
    ensures Decode(Print(WireMessage(stamp, micro, bids, asks, trailer)))
         == Parsed(DATA, micro, FirstN(Nonzero(bids), DEPTH), FirstN(Nonzero(asks), DEPTH))
  {
    hide AllWellFormed, Nonzero, Decode, FirstN, Print, Printable;
    WirePrintable(stamp, micro, bids, asks, trailer);
    DataRoundTrip(WireMessage(stamp, micro, bids, asks, trailer));
  }

  lemma {:induction false} WhitespaceStands(buf: seq<byte>, pos: nat, ws: seq<byte>)
    requires AllWhitespace(ws) && Stands(buf, pos, ws)
    ensures StringAt(buf, pos) == StringAt(buf, pos + |ws|)
  {
    hide AllWhitespace, Stands, AfterWhitespace, ClosingQuote, Backslashes, CharBoundary;
    WhitespaceSkipped(buf, pos, ws);
  }

  /** A message with none of the data keys returns its event name, id 0 and empty sides. */
  lemma {:induction false} EventRoundTrip(pre: seq<byte>, ws: seq<byte>, event: seq<byte>, post: seq<byte>)
    requires Free(pre, Key(EVENT)) && AllWhitespace(ws)
    requires IsEscaped(event) && (event != [] ==> !(128 <= event[0] < 192))
    requires var json := (pre + Key(EVENT)) + (ws + (([QUOTE] + event + [QUOTE]) + post));
             Free(json, Key(MICROTIMESTAMP)) && Free(json, Key(BIDS)) && Free(json, Key(ASKS))
    ensures var json := (pre + Key(EVENT)) + (ws + (([QUOTE] + event + [QUOTE]) + post));
            Decode(json) == Parsed(event, 0, [], [])
  {
    hide Key, Find, StringAt, Stands, AllWhitespace, IsEscaped;
    var head, quoted := pre + Key(EVENT), [QUOTE] + event + [QUOTE];
    var json := head + (ws + (quoted + post));
    StandsWhole(json);
    StandsSplit(json, 0, head, ws + (quoted + post));
    StandsSplit(json, |head|, ws, quoted + post);
    StandsSplit(json, |head| + |ws|, quoted, post);
    KeyFound(json, 0, pre, EVENT);
    WhitespaceStands(json, |head|, ws);
    EscapedStands(json, |head| + |ws|, event);
  }

  const CHANNEL: seq<byte> := [99, 104, 97, 110, 110, 101, 108]
  /** `order_book_` */
  const ORDER_BOOK: seq<byte> := [111, 114, 100, 101, 114, 95, 98, 111, 111, 107, 95]

  /** Ascii letters and digits: what the configuration accepts as a symbol. */
  predicate Alphanumeric(s: seq<byte>) {
    forall i :: 0 <= i < |s| ==> IsLetter(s[i]) || IsDigit(s[i])
  }

  /** `"channel":"order_book_<symbol>","data":` behind the event, with white space where JSON allows it. */
  function EventRest(ws: seq<byte>, symbol: seq<byte>): seq<Chunk> {
    [Chunk([COMMA] + ws, CHANNEL), Chunk([COLON] + ws, ORDER_BOOK + symbol), Chunk([COMMA] + ws, DATA)]
  }

  function EventTail(ws: seq<byte>): seq<byte> {
    [COLON] + ws + [123, 125] + ws + [125]
  }

  /** The exchange's own non-data message: event, channel and an empty data object. */
  function WireEvent(ws: seq<byte>, event: seq<byte>, symbol: seq<byte>): seq<byte> {
    (([123] + ws) + Key(EVENT)) + (ws + (([QUOTE] + event + [QUOTE]) + Render(EventRest(ws, symbol), EventTail(ws))))
  }

  function EventChunks(ws: seq<byte>, event: seq<byte>, symbol: seq<byte>): seq<Chunk> {
    [Chunk([123] + ws, EVENT), Chunk([COLON] + ws, event)] + EventRest(ws, symbol)
  }

  lemma {:induction false} EventRenders(ws: seq<byte>, event: seq<byte>, symbol: seq<byte>)
    ensures WireEvent(ws, event, symbol) == Render(EventChunks(ws, event, symbol), EventTail(ws))
  {
    hide EventRest, EventTail;
    var rest, tail := EventRest(ws, symbol), EventTail(ws);
    var chunks := EventChunks(ws, event, symbol);
    var last := ([QUOTE] + event + [QUOTE]) + Render(rest, tail);
    assert chunks[1..] == [Chunk([COLON] + ws, event)] + rest && chunks[1..][1..] == rest;
    assert Render(chunks[1..], tail) == [COLON] + (ws + last);
    assert Render(chunks, tail) == ([123] + ws) + (([QUOTE] + EVENT + [QUOTE]) + ([COLON] + (ws + last)));
  }

  lemma {:induction false} EventGaps(ws: seq<byte>, event: seq<byte>, symbol: seq<byte>)
    requires AllWhitespace(ws) && IsText(event) && Alphanumeric(symbol)
    ensures AllChunks(EventChunks(ws, event, symbol)) && IsGap(EventTail(ws))
  {
    assert IsGap([123] + ws) && IsGap([COMMA] + ws) && IsGap([COLON] + ws);
    assert IsText(EVENT) && IsText(CHANNEL) && IsText(ORDER_BOOK + symbol) && IsText(DATA);
  }

  /** The names of the data fields are keys nowhere in such a message, whatever the event and the symbol. */
  lemma {:induction false} EventNeverKey(ws: seq<byte>, event: seq<byte>, symbol: seq<byte>, name: seq<byte>)
    requires name in [MICROTIMESTAMP, BIDS, ASKS]
    ensures IsName(name) && NeverKey(EventChunks(ws, event, symbol), EventTail(ws), name)
  {
    assert name[0] in [109, 98, 97];
    assert (ORDER_BOOK + symbol)[0] == 111 && EVENT[0] == 101 && CHANNEL[0] == 99 && DATA[0] == 100;
    assert GapAfter(EventChunks(ws, event, symbol), EventTail(ws), 1) == [COMMA] + ws;
  }

  /** It returns its event name, id 0 and empty sides. */
  lemma {:induction false} WireEventRoundTrip(ws: seq<byte>, event: seq<byte>, symbol: seq<byte>)
    requires AllWhitespace(ws) && Alphanumeric(symbol)
    requires forall i :: 0 <= i < |event| ==> event[i] < 128 && event[i] != QUOTE && event[i] != BACKSLASH
    ensures Decode(WireEvent(ws, event, symbol)) == Parsed(event, 0, [], [])
  {
    hide Find, Key, Decode, EventChunks, EventTail, NeverKey, AllChunks, IsGap, Render, EventRest, IsEscaped;
    PlainIsEscaped(event);
    EventRenders(ws, event, symbol);
    EventGaps(ws, event, symbol);
    forall name | name in [MICROTIMESTAMP, BIDS, ASKS]
      ensures Free(WireEvent(ws, event, symbol), Key(name))
    {
      EventNeverKey(ws, event, symbol, name);
      ChunksFree(EventChunks(ws, event, symbol), EventTail(ws), name);
    }
    forall i: nat
      ensures !Matches([123] + ws, i, Key(EVENT))
    {
      KeyBytes(EVENT);
      NoQuoteFree([123] + ws, Key(EVENT), i);
    }
    assert MICROTIMESTAMP in [MICROTIMESTAMP, BIDS, ASKS] && BIDS in [MICROTIMESTAMP, BIDS, ASKS];
    assert ASKS in [MICROTIMESTAMP, BIDS, ASKS];
    EventRoundTrip([123] + ws, ws, event, Render(EventRest(ws, symbol), EventTail(ws)));
  }

  /**
   * Conversely, in whatever decodes a side is empty because its key is absent, or it is what a printed
   * level array behind the first such key denotes, cut after a comma only once DEPTH levels are nonzero.
   */
  lemma {:induction false} DecodeSound(json: seq<byte>) returns (bids: seq<Pair>, pos: nat, asks: seq<Pair>, end: nat)
    requires Decode(json).Parsed?
    ensures MicroAt(json).next <= pos <= end <= |json| && AllWellFormed(bids) && AllWellFormed(asks)
    ensures Decode(json).bids == Nonzero(bids) && Decode(json).asks == Nonzero(asks)
    ensures match Find(json, MicroAt(json).next, Key(BIDS))
            case Some(i) => ArrayAt(json, i + |Key(BIDS)|, bids, pos)
            case None => bids == [] && pos == MicroAt(json).next
    ensures match Find(json, pos, Key(ASKS))
            case Some(j) => ArrayAt(json, j + |Key(ASKS)|, asks, end)
            case None => asks == []
  {
    hide LevelsAt, Key, AllWellFormed, Find, MicroAt, EventAt, ArrayAt, Nonzero;
    var start := MicroAt(json).next;
    pos := OptionalLevelsAt(json, start, Key(BIDS), DEPTH).value.next;
    end := OptionalLevelsAt(json, pos, Key(ASKS), DEPTH).value.next;
    bids := OptionalSound(json, start, BIDS);
    asks := OptionalSound(json, pos, ASKS);
  }

  lemma {:induction false} OptionalBounded(json: seq<byte>, pos: nat, needle: seq<byte>)
    requires pos <= |json| && OptionalLevelsAt(json, pos, needle, DEPTH).Some?
    ensures Bounded(OptionalLevelsAt(json, pos, needle, DEPTH).value.value, DEPTH)
  {
    hide LevelsAt, Find;
    if Find(json, pos, needle).Some? {
      LevelsBounded(json, Find(json, pos, needle).value + |needle|, DEPTH);
    }
  }

  /** For arbitrary input the decoded sides fit their arrays and hold no zero amount. */
  lemma {:induction false} DecodeBounded(json: seq<byte>)
    requires Decode(json).Parsed?
    ensures Bounded(Decode(json).bids, DEPTH) && Bounded(Decode(json).asks, DEPTH)
  {
    hide LevelsAt, Key, Find, Bounded, StringAt, MicroAt, EventAt;
    var bids := OptionalLevelsAt(json, MicroAt(json).next, Key(BIDS), DEPTH);
    OptionalBounded(json, MicroAt(json).next, Key(BIDS));
    OptionalBounded(json, bids.value.next, Key(ASKS));
  }
}
