/**
 * The exchanges' own frames, spelled out byte by byte: what the decoders make of the texts that
 * src/exchange and its fixtures write down.
 */
module Layouts {
  import opened Prelude
  import opened FixedPoint
  import opened JsonWalker
  import opened Keys
  import opened LevelArrays
  import opened Types
  import opened Wire
  import BinanceWalker
  import BitstampWalker

  /** The bytes of an ASCII text. */
  function Ascii(s: string): (r: seq<byte>)
    ensures |r| == |s|
  {
    seq(|s|, i requires 0 <= i < |s| => s[i] as int % 128)
  }

  // ---------------------------------------------------------------- spelling

  lemma {:induction false} SideSpelling()
    ensures Ascii("bids") == BIDS && Ascii("asks") == ASKS && Ascii("event") == EVENT
  {
  }

  lemma {:induction false} IdSpelling()
    ensures Ascii("lastUpdateId") == LAST_UPDATE_ID && Ascii("microtimestamp") == MICROTIMESTAMP
  {
  }

  lemma {:induction false} NameSpelling()
    ensures Ascii("lastUpdateId") == LAST_UPDATE_ID && Ascii("bids") == BIDS && Ascii("asks") == ASKS
    ensures Ascii("event") == EVENT && Ascii("microtimestamp") == MICROTIMESTAMP
  {
    hide Ascii;
    SideSpelling();
    IdSpelling();
  }

  lemma {:induction false} TextSpelling()
    ensures Ascii("data") == BitstampWalker.DATA && Ascii("timestamp") == BitstampWalker.DATA_TIMESTAMP
    ensures Ascii("channel") == BitstampWalker.CHANNEL && Ascii("order_book_") == BitstampWalker.ORDER_BOOK
  {
  }

  lemma {:induction false} EventSpelling()
    ensures Ascii("bts:error") == BitstampWalker.ERROR
    ensures Ascii("bts:subscription_succeeded") == BitstampWalker.SUBSCRIBED
  {
  }

  lemma {:induction false} MarkSpelling()
    ensures Ascii("\"") == [QUOTE] && Ascii(",") == [COMMA] && Ascii(":") == [COLON] && Ascii("\":") == [QUOTE, COLON]
    ensures Ascii("[") == [LBRACKET] && Ascii("]") == [RBRACKET] && Ascii("{") == [123] && Ascii("}") == [125]
    ensures Ascii("[\"") == [LBRACKET, QUOTE] && Ascii("\"]") == [QUOTE, RBRACKET] && Ascii("\",\"") == [QUOTE, COMMA, QUOTE]
  {
  }

  lemma {:induction false} AsciiJoin(a: string, b: string)
    ensures Ascii(a + b) == Ascii(a) + Ascii(b)
  {
  }

  /** A text in quotes and a colon is the key of that name. */
  lemma {:induction false} KeySpelling(before: string, name: string)
    ensures Ascii(before + "\"" + name + "\":") == Ascii(before) + Key(Ascii(name))
  {
    MarkSpelling();
    AsciiJoin(before, "\"");
    AsciiJoin(before + "\"", name);
    AsciiJoin(before + "\"" + name, "\":");
    assert Ascii(before) + [QUOTE] + Ascii(name) + [QUOTE, COLON] == Ascii(before) + Key(Ascii(name));
  }

  // ---------------------------------------------------------------- level arrays

  function PairText(w: Pair): seq<byte> {
    Ascii("[\"") + w.price + Ascii("\",\"") + w.amount + Ascii("\"]")
  }

  function PairTexts(ws: seq<Pair>): seq<byte> {
    if ws == [] then []
    else if |ws| == 1 then PairText(ws[0])
    else PairText(ws[0]) + Ascii(",") + PairTexts(ws[1..])
  }

  /** `[["price","amount"],...]` */
  function LevelsText(ws: seq<Pair>): seq<byte> {
    Ascii("[") + PairTexts(ws) + Ascii("]")
  }

  lemma {:induction false} PairTextIs(w: Pair)
    ensures PairText(w) == PrintPair(w)
  {
    hide Ascii;
    MarkSpelling();
    assert [LBRACKET, QUOTE] + w.price + [QUOTE, COMMA, QUOTE] + w.amount + [QUOTE, RBRACKET] == PrintPair(w);
  }

  lemma {:induction false} PairTextsAre(ws: seq<Pair>)
    requires ws != []
    ensures PairTexts(ws) + [RBRACKET] == PrintTail(ws)
    decreases |ws|
  {
    hide Ascii, PairText, PrintPair;
    MarkSpelling();
    PairTextIs(ws[0]);
    if |ws| > 1 {
      PairTextsAre(ws[1..]);
      assert PairText(ws[0]) + [COMMA] + PairTexts(ws[1..]) + [RBRACKET]
          == PairText(ws[0]) + ([COMMA] + (PairTexts(ws[1..]) + [RBRACKET]));
    }
  }

  lemma {:induction false} NoPairTexts()
    ensures PairTexts([]) == []
  {
  }

  lemma {:induction false} LevelsTextIs(ws: seq<Pair>)
    ensures LevelsText(ws) == PrintLevels(ws)
  {
    hide Ascii, PairTexts, PrintTail;
    MarkSpelling();
    if ws == [] {
      NoPairTexts();
    } else {
      PairTextsAre(ws);
      assert [LBRACKET] + PairTexts(ws) + [RBRACKET] == [LBRACKET] + (PairTexts(ws) + [RBRACKET]);
    }
  }

  // ---------------------------------------------------------------- Binance

  /** `{"lastUpdateId":n,"bids":[...],"asks":[...]}` */
  function BinanceText(id: u64, bids: seq<Pair>, asks: seq<Pair>): seq<byte> {
    Ascii("{\"lastUpdateId\":") + Digits(id) + Ascii(",\"bids\":") + LevelsText(bids)
    + Ascii(",\"asks\":") + LevelsText(asks) + Ascii("}")
  }

  lemma {:induction false} BinanceTextIs(id: u64, bids: seq<Pair>, asks: seq<Pair>)
    ensures BinanceText(id, bids, asks) == BinanceWalker.Print(BinanceWalker.WireSnapshot(id, bids, asks))
  {
    hide Ascii, LevelsText, PrintLevels, Key, Digits;
    NameSpelling();
    MarkSpelling();
    KeySpelling("{", "lastUpdateId");
    KeySpelling(",", "bids");
    KeySpelling(",", "asks");
    LevelsTextIs(bids);
    LevelsTextIs(asks);
    assert "{" + "\"" + "lastUpdateId" + "\":" == "{\"lastUpdateId\":";
    assert "," + "\"" + "bids" + "\":" == ",\"bids\":";
    assert "," + "\"" + "asks" + "\":" == ",\"asks\":";
  }

  /** The exchange's snapshot decodes to its id and the first ten nonzero levels of each side. */
  lemma {:induction false} BinanceTextDecodes(id: u64, bids: seq<Pair>, asks: seq<Pair>)
    requires AllWellFormed(bids) && AllWellFormed(asks)
    ensures BinanceWalker.Decode(BinanceText(id, bids, asks))
         == Some(BinanceWalker.Frame(id, FirstN(Nonzero(bids), 10), FirstN(Nonzero(asks), 10)))
  {
    hide BinanceWalker.Decode, BinanceWalker.Print, BinanceWalker.Printable, AllWellFormed, Nonzero, FirstN, BinanceText;
    BinanceTextIs(id, bids, asks);
    BinanceWalker.WirePrintable(id, bids, asks);
    BinanceWalker.SnapshotRoundTrip(BinanceWalker.WireSnapshot(id, bids, asks));
  }

  // ---------------------------------------------------------------- Bitstamp

  /** `{"data":{"timestamp":"...","microtimestamp":"n","bids":[...],"asks":[...]` and whatever follows. */
  function BitstampText(stamp: seq<byte>, micro: u64, bids: seq<Pair>, asks: seq<Pair>, trailer: seq<byte>): seq<byte> {
    Ascii("{\"data\":{\"timestamp\":\"") + stamp + Ascii("\",\"microtimestamp\":\"") + Digits(micro) + Ascii("\",\"bids\":")
    + LevelsText(bids) + Ascii(",\"asks\":") + LevelsText(asks) + trailer
  }

  /** A quote behind a text, and a quote before one. */
  lemma {:induction false} QuoteJoins(text: string)
    ensures Ascii(text + "\"") == Ascii(text) + [QUOTE] && Ascii("\"" + text) == [QUOTE] + Ascii(text)
  {
    MarkSpelling();
    AsciiJoin(text, "\"");
    AsciiJoin("\"", text);
  }

  lemma {:induction false} OpeningSpelling()
    ensures Ascii("{\"data\":{\"timestamp\":\"")
         == ([123] + Key(BitstampWalker.DATA)) + (([123] + Key(BitstampWalker.DATA_TIMESTAMP)) + [QUOTE])
  {
    hide Ascii, Key;
    TextSpelling();
    MarkSpelling();
    KeySpelling("{", "data");
    KeySpelling("{", "timestamp");
    var data, timestamp := "{\"data\":", "{\"timestamp\":";
    assert "{" + "\"" + "data" + "\":" == data && "{" + "\"" + "timestamp" + "\":" == timestamp;
    QuoteJoins(timestamp);
    AsciiJoin(data, timestamp + "\"");
    assert data + (timestamp + "\"") == "{\"data\":{\"timestamp\":\"";
  }

  lemma {:induction false} StampSpelling()
    ensures Ascii("\",\"microtimestamp\":\"") == [QUOTE] + (([COMMA] + Key(MICROTIMESTAMP)) + [QUOTE])
  {
    hide Ascii, Key;
    NameSpelling();
    MarkSpelling();
    KeySpelling(",", "microtimestamp");
    var micro := ",\"microtimestamp\":";
    assert "," + "\"" + "microtimestamp" + "\":" == micro;
    QuoteJoins(micro);
    QuoteJoins(micro + "\"");
    assert "\"" + (micro + "\"") == "\",\"microtimestamp\":\"";
  }

  lemma {:induction false} FieldSpelling()
    ensures Ascii("\",\"bids\":") == [QUOTE] + ([COMMA] + Key(BIDS))
    ensures Ascii(",\"asks\":") == [COMMA] + Key(ASKS)
  {
    hide Ascii, Key;
    NameSpelling();
    MarkSpelling();
    KeySpelling(",", "bids");
    KeySpelling(",", "asks");
    assert "," + "\"" + "bids" + "\":" == ",\"bids\":" && "," + "\"" + "asks" + "\":" == ",\"asks\":";
    QuoteJoins(",\"bids\":");
    assert "\"" + ",\"bids\":" == "\",\"bids\":";
  }

  lemma {:induction false} OpeningIs(stamp: seq<byte>)
    ensures BitstampWalker.Opening(stamp)
         == ([123] + Key(BitstampWalker.DATA)) + (([123] + Key(BitstampWalker.DATA_TIMESTAMP)) + [QUOTE])
            + stamp + [QUOTE, COMMA]
  {
    hide BitstampWalker.DATA, BitstampWalker.DATA_TIMESTAMP;
    var a, b, c := Chunk([123], BitstampWalker.DATA), Chunk([COLON, 123], BitstampWalker.DATA_TIMESTAMP), Chunk([COLON], stamp);
    assert [a, b, c][1..] == [b, c] && [b, c][1..] == [c] && [c][1..] == [];
    assert Render([], [COMMA]) == [COMMA];
    var r := Render([c], [COMMA]);
    assert r == [COLON] + (([QUOTE] + stamp + [QUOTE]) + [COMMA]);
    assert Render([b, c], [COMMA]) == [COLON, 123] + (([QUOTE] + b.text + [QUOTE]) + r);
    assert BitstampWalker.Opening(stamp) == [123] + (([QUOTE] + a.text + [QUOTE]) + Render([b, c], [COMMA]));
  }

  lemma {:induction false} BitstampTextIs(
      stamp: seq<byte>, micro: u64, bids: seq<Pair>, asks: seq<Pair>, trailer: seq<byte>)
    ensures BitstampText(stamp, micro, bids, asks, trailer)
         == BitstampWalker.Print(BitstampWalker.WireMessage(stamp, micro, bids, asks, trailer))
  {
    hide Ascii, LevelsText, PrintLevels, Key, Digits, BitstampWalker.Opening;
    OpeningSpelling();
    StampSpelling();
    FieldSpelling();
    OpeningIs(stamp);
    LevelsTextIs(bids);
    LevelsTextIs(asks);
  }

  /** The exchange's data message decodes to its microtimestamp and the first ten nonzero levels of each side. */
  lemma {:induction false} BitstampTextDecodes(
      stamp: seq<byte>, micro: u64, bids: seq<Pair>, asks: seq<Pair>, trailer: seq<byte>)
    requires AllDigits(stamp) && AllWellFormed(bids) && AllWellFormed(asks)
    ensures BitstampWalker.Decode(BitstampText(stamp, micro, bids, asks, trailer))
         == BitstampWalker.Parsed(Ascii("data"), micro, FirstN(Nonzero(bids), 10), FirstN(Nonzero(asks), 10))
  {
    hide BitstampWalker.Decode, BitstampWalker.Print, AllWellFormed, Nonzero, FirstN, BitstampText, Ascii;
    BitstampTextIs(stamp, micro, bids, asks, trailer);
    BitstampWalker.WireRoundTrip(stamp, micro, bids, asks, trailer);
    TextSpelling();
  }

  // ---------------------------------------------------------------- Bitstamp events

  /** JSON white space: blanks, tabs and line ends. */
  predicate Blank(ws: seq<byte>) {
    forall i :: 0 <= i < |ws| ==> ws[i] in Ascii(" \t\r\n")
  }

  /** `,"channel":"order_book_<symbol>","data":{}}` with white space between the tokens. */
  function EventTrailer(ws: seq<byte>, symbol: seq<byte>): seq<byte> {
    (Ascii(",") + ws) + (Ascii("\"channel\"") + ((Ascii(":") + ws) + ((Ascii("\"order_book_") + symbol + Ascii("\""))
    + ((Ascii(",") + ws) + (Ascii("\"data\"") + (Ascii(":") + ws + Ascii("{}") + ws + Ascii("}")))))))
  }

  /** `{"event":"<event>"` and the trailer, with white space between the tokens. */
  function EventText(ws: seq<byte>, event: seq<byte>, symbol: seq<byte>): seq<byte> {
    (Ascii("{") + ws + Ascii("\"event\":")) + (ws + ((Ascii("\"") + event + Ascii("\"")) + EventTrailer(ws, symbol)))
  }

  lemma {:induction false} QuotedSpelling(name: string)
    ensures Ascii("\"" + name + "\"") == [QUOTE] + Ascii(name) + [QUOTE]
  {
    MarkSpelling();
    AsciiJoin("\"", name);
    AsciiJoin("\"" + name, "\"");
  }

  lemma {:induction false} EventMarks()
    ensures Ascii("\"event\":") == Key(EVENT) && Ascii("{}") == [123, 125]
    ensures Ascii("\"channel\"") == [QUOTE] + BitstampWalker.CHANNEL + [QUOTE]
    ensures Ascii("\"data\"") == [QUOTE] + BitstampWalker.DATA + [QUOTE]
    ensures Ascii("\"order_book_") == [QUOTE] + BitstampWalker.ORDER_BOOK
  {
    NameSpelling();
    TextSpelling();
    MarkSpelling();
    KeySpelling("", "event");
    assert "" + "\"" + "event" + "\":" == "\"event\":" && Ascii("") + Key(EVENT) == Key(EVENT);
    QuotedSpelling("channel");
    QuotedSpelling("data");
    assert "\"" + "channel" + "\"" == "\"channel\"" && "\"" + "data" + "\"" == "\"data\"";
    AsciiJoin("\"", "order_book_");
    assert "\"" + "order_book_" == "\"order_book_";
  }

  lemma {:induction false} EventTrailerIs(ws: seq<byte>, symbol: seq<byte>)
    ensures EventTrailer(ws, symbol) == Render(BitstampWalker.EventRest(ws, symbol), BitstampWalker.EventTail(ws))
  {
    hide Ascii;
    EventMarks();
    MarkSpelling();
    var rest, tail := BitstampWalker.EventRest(ws, symbol), BitstampWalker.EventTail(ws);
    assert rest[1..] == [rest[1], rest[2]] && rest[1..][1..] == [rest[2]] && rest[1..][1..][1..] == [];
    assert Render([], tail) == tail;
    var last := Render([rest[2]], tail);
    assert last == ([COMMA] + ws) + (([QUOTE] + BitstampWalker.DATA + [QUOTE]) + tail);
    var text := [QUOTE] + (BitstampWalker.ORDER_BOOK + symbol) + [QUOTE];
    assert text == [QUOTE] + BitstampWalker.ORDER_BOOK + symbol + [QUOTE];
    assert Render(rest[1..], tail) == ([COLON] + ws) + (text + last);
  }

  /** What the scanner skips before a value is white space as JSON has it, and nothing else. */
  lemma {:induction false} BlankIsWhitespace(ws: seq<byte>)
    ensures Blank(ws) <==> AllWhitespace(ws)
  {
    assert Ascii(" \t\r\n") == [32, 9, 13, 10];
    assert forall b: byte :: IsWhitespace(b) <==> b in Ascii(" \t\r\n");
  }

  /** The exchange's non-data message, compact or spaced, returns its event name, id 0 and empty sides. */
  lemma {:induction false} EventTextDecodes(ws: seq<byte>, event: seq<byte>, symbol: seq<byte>)
    requires Blank(ws) && BitstampWalker.Alphanumeric(symbol)
    requires forall i :: 0 <= i < |event| ==> event[i] < 128 && event[i] != 34 && event[i] != 92
    ensures BitstampWalker.Decode(EventText(ws, event, symbol)) == BitstampWalker.Parsed(event, 0, [], [])
  {
    hide BitstampWalker.Decode, Blank, AllWhitespace, BitstampWalker.Alphanumeric;
    hide BitstampWalker.EventRest, BitstampWalker.EventTail, Ascii, EventTrailer;
    EventMarks();
    MarkSpelling();
    BlankIsWhitespace(ws);
    EventTrailerIs(ws, symbol);
    BitstampWalker.WireEventRoundTrip(ws, event, symbol);
  }

  // ---------------------------------------------------------------- decimal texts

  lemma {:induction false} DigitTexts()
    ensures Ascii("101") == [49, 48, 49] && Ascii("5") == [53] && Ascii(".") == [46] && Ascii("") == []
    ensures Val([49, 48, 49]) == 101 && Val([53]) == 5 && Val([49, 48, 49, 53]) == 1015
  {
    assert Val([49]) == 1 && [49, 48][..1] == [49];
    assert Val([49, 48]) == 10 && [49, 48, 49][..2] == [49, 48];
    assert [49, 48, 49, 53][..3] == [49, 48, 49];
    assert [53][..0] == [];
  }

  lemma {:induction false} PowTexts()
    ensures Pow10(0) == 1 && Pow10(1) == 10
  {
  }

  /** `101.5`, `.5` and `101` denote what they say; the empty text and the bare dot denote nothing. */
  lemma {:induction false} DecimalTexts()
    ensures Decoded(Ascii("101") + Ascii(".") + Ascii("5")) == Some(10_150_000_000)
    ensures Decoded(Ascii(".") + Ascii("5")) == Some(50_000_000)
    ensures Decoded(Ascii("101")) == Some(10_100_000_000)
    ensures Decoded(Ascii("")) == None && Decoded(Ascii(".")) == None
  {
    hide Ascii, Decoded, Val, Pow10;
    DigitTexts();
    PowTexts();
    var w: seq<byte>, f: seq<byte> := [49, 48, 49], [53];
    assert w + f == [49, 48, 49, 53] && [] + f == f && w + [] == w;
    assert [] + [46] + f == [46] + f;
    DecodedSpelled(w + [46] + f, w, f, 10_150_000_000);
    DecodedSpelled([46] + f, [], f, 50_000_000);
    DecodedSpelled(w, w, [], 10_100_000_000);
    NothingDenoted();
  }
}
