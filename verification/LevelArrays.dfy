/** The wire form of a level array, and what the fused reader makes of it. */
module LevelArrays {
  import opened Prelude
  import opened FixedPoint
  import opened JsonWalker
  import opened Types

  /** A printed `["price","amount"]` pair, by its two texts. */
  datatype Pair = Pair(price: seq<byte>, amount: seq<byte>)

  /** Both texts denote fixed-point numbers. */
  predicate WellFormed(w: Pair) {
    Decoded(w.price).Some? && Decoded(w.amount).Some?
  }

  predicate AllWellFormed(ws: seq<Pair>) {
    forall i :: 0 <= i < |ws| ==> WellFormed(ws[i])
  }

  function Denoted(w: Pair): RawLevel
    requires WellFormed(w)
  {
    RawLevel(Decoded(w.price).value, Decoded(w.amount).value)
  }

  /** A pair contributes its level unless the amount is zero. */
  function Kept(w: Pair): (r: seq<RawLevel>)
    requires WellFormed(w)
    ensures |r| <= 1
  {
    if Denoted(w).amount != 0 then [Denoted(w)] else []
  }

  /** The levels with a nonzero amount, in order. */
  function Nonzero(ws: seq<Pair>): (r: seq<RawLevel>)
    requires AllWellFormed(ws)
    ensures |r| <= |ws|
  {
    if ws == [] then [] else Kept(ws[0]) + Nonzero(ws[1..])
  }

  function FirstN<T>(s: seq<T>, n: nat): seq<T> {
    s[..Min(n, |s|)]
  }

  // ---------------------------------------------------------------- printer

  function PrintPair(w: Pair): seq<byte> {
    [LBRACKET, QUOTE] + w.price + [QUOTE, COMMA, QUOTE] + w.amount + [QUOTE, RBRACKET]
  }

  /** Pairs separated by commas and the closing bracket. */
  function PrintTail(ws: seq<Pair>): (r: seq<byte>)
    requires ws != []
    ensures |r| > 0
  {
    PrintPair(ws[0]) + (if |ws| == 1 then [RBRACKET] else [COMMA] + PrintTail(ws[1..]))
  }

  function PrintLevels(ws: seq<Pair>): seq<byte> {
    [LBRACKET] + if ws == [] then [RBRACKET] else PrintTail(ws)
  }

  /** Pairs each followed by a comma: what the reader has consumed when it stops early. */
  function PrintOpen(ws: seq<Pair>): seq<byte> {
    if ws == [] then [] else PrintPair(ws[0]) + [COMMA] + PrintOpen(ws[1..])
  }

  /** How much of the tail a reader with room for `n` more levels consumes. */
  function TailConsumed(ws: seq<Pair>, n: nat): (k: nat)
    requires ws != [] && AllWellFormed(ws)
    ensures k <= |PrintTail(ws)|
  {
    if |ws| == 1 then |PrintPair(ws[0])| + 1
    else if n <= |Kept(ws[0])| then |PrintPair(ws[0])| + 1
    else |PrintPair(ws[0])| + 1 + TailConsumed(ws[1..], n - |Kept(ws[0])|)
  }

  /** The length the reader consumes of a printed array: all of it unless it fills up first. */
  function Consumed(ws: seq<Pair>, n: nat): (k: nat)
    requires AllWellFormed(ws)
    ensures k <= |PrintLevels(ws)|
  {
    1 + if ws == [] then 1 else TailConsumed(ws, n)
  }

  /** `part` stands in `buf` at `pos`. */
  predicate Stands(buf: seq<byte>, pos: nat, part: seq<byte>) {
    pos + |part| <= |buf| && buf[pos..pos + |part|] == part
  }

  lemma {:induction false} StandsSplit(buf: seq<byte>, pos: nat, a: seq<byte>, b: seq<byte>)
    ensures Stands(buf, pos, a + b) <==> Stands(buf, pos, a) && Stands(buf, pos + |a|, b)
  {
    if Stands(buf, pos, a + b) {
      assert buf[pos..pos + |a|] == (a + b)[..|a|] == a;
      assert buf[pos + |a|..pos + |a + b|] == (a + b)[|a|..] == b;
    }
    if Stands(buf, pos, a) && Stands(buf, pos + |a|, b) {
      assert buf[pos..pos + |a + b|] == buf[pos..pos + |a|] + buf[pos + |a|..pos + |a| + |b|];
    }
  }

  // ---------------------------------------------------------------- texts and quotes

  predicate LevelByte(b: byte) {
    IsDigit(b) || b == DOT || b == QUOTE || b == COMMA || b == LBRACKET || b == RBRACKET
  }

  /** A decimal text holds digits and dots only, so the next quote closes it. */
  lemma {:induction false} DecimalBytes(s: seq<byte>)
    requires Decoded(s).Some?
    ensures forall i :: 0 <= i < |s| ==> IsDigit(s[i]) || s[i] == DOT
  {
    hide IndexFrom, Whole, Fraction;
    Parts(s);
    var d := |Whole(s)|;
    assert forall i :: d < i < |s| ==> s[i] == Fraction(s)[i - d - 1];
  }

  lemma {:induction false} QuotedStands(buf: seq<byte>, pos: nat, text: seq<byte>)
    requires Decoded(text).Some? && Stands(buf, pos, [QUOTE] + text + [QUOTE])
    ensures QuotedAt(buf, pos) == Some(At(Decoded(text).value, pos + |text| + 2))
  {
    hide Decoded;
    DecimalBytes(text);
    var part := [QUOTE] + text + [QUOTE];
    assert forall i :: 0 <= i < |part| ==> buf[pos + i] == part[i];
    var q := IndexFrom(buf, QUOTE, pos + 1);
    StandsSplit(buf, pos, [QUOTE], text + [QUOTE]);
    StandsSplit(buf, pos + 1, text, [QUOTE]);
    assert part == [QUOTE] + (text + [QUOTE]);
    assert buf[pos + 1 + |text|] == QUOTE;
    assert forall i :: 0 <= i < |text| ==> buf[pos + 1 + i] == text[i];
    assert q == pos + 1 + |text|;
  }

  lemma {:induction false} ByteStands(buf: seq<byte>, pos: nat, b: byte)
    requires Stands(buf, pos, [b])
    ensures ByteAt(buf, pos, b)
  {
    assert buf[pos] == buf[pos..pos + 1][0];
  }

  lemma {:induction false} EntryStands(buf: seq<byte>, pos: nat, w: Pair)
    requires WellFormed(w) && Stands(buf, pos, PrintPair(w))
    ensures EntryAt(buf, pos) == Some(At(Denoted(w), pos + |PrintPair(w)|))
  {
    hide Decoded, QuotedAt, Stands;
    var price, amount := [QUOTE] + w.price + [QUOTE], [QUOTE] + w.amount + [QUOTE];
    assert PrintPair(w) == [LBRACKET] + (price + ([COMMA] + (amount + [RBRACKET])));
    StandsSplit(buf, pos, [LBRACKET], price + ([COMMA] + (amount + [RBRACKET])));
    StandsSplit(buf, pos + 1, price, [COMMA] + (amount + [RBRACKET]));
    StandsSplit(buf, pos + 1 + |price|, [COMMA], amount + [RBRACKET]);
    StandsSplit(buf, pos + 2 + |price|, amount, [RBRACKET]);
    ByteStands(buf, pos, LBRACKET);
    QuotedStands(buf, pos + 1, w.price);
    ByteStands(buf, pos + 1 + |price|, COMMA);
    QuotedStands(buf, pos + 2 + |price|, w.amount);
    ByteStands(buf, pos + 2 + |price| + |amount|, RBRACKET);
  }

  // ---------------------------------------------------------------- completeness

  /** One unfolding of everything defined over a list of pairs. */
  lemma {:induction false} Unfold(ws: seq<Pair>, n: nat)
    requires ws != [] && AllWellFormed(ws)
    ensures WellFormed(ws[0]) && AllWellFormed(ws[1..])
    ensures Nonzero(ws) == Kept(ws[0]) + Nonzero(ws[1..])
    ensures |ws| == 1 ==> Nonzero(ws) == Kept(ws[0]) && PrintTail(ws) == PrintPair(ws[0]) + [RBRACKET]
    ensures |ws| > 1 ==> PrintTail(ws) == PrintPair(ws[0]) + ([COMMA] + PrintTail(ws[1..]))
    ensures PrintOpen(ws) == PrintPair(ws[0]) + ([COMMA] + PrintOpen(ws[1..]))
    ensures TailConsumed(ws, n) == |PrintPair(ws[0])| + 1
         + if |ws| == 1 || n <= |Kept(ws[0])| then 0 else TailConsumed(ws[1..], n - |Kept(ws[0])|)
  {
    hide PrintPair, WellFormed, Kept;
    assert PrintPair(ws[0]) + [COMMA] + PrintOpen(ws[1..]) == PrintPair(ws[0]) + ([COMMA] + PrintOpen(ws[1..]));
    assert WellFormed(ws[0]);
  }

  /** One pass of the reader's loop once its pair has been read. */
  lemma {:induction false} EntriesStep(buf: seq<byte>, pos: nat, n: nat, kept: seq<RawLevel>, w: Pair)
    requires WellFormed(w) && EntryAt(buf, pos) == Some(At(Denoted(w), pos + |PrintPair(w)|))
    requires |kept| < n
    ensures var p, kept' := pos + |PrintPair(w)|, kept + Kept(w);
            && (ByteAt(buf, p, COMMA) && |kept'| == n ==> EntriesAt(buf, pos, n, kept) == Some(At(kept', p + 1)))
            && (ByteAt(buf, p, COMMA) && |kept'| < n ==> EntriesAt(buf, pos, n, kept) == EntriesAt(buf, p + 1, n, kept'))
            && (ByteAt(buf, p, RBRACKET) ==> EntriesAt(buf, pos, n, kept) == Some(At(kept', p + 1)))
            && (EntriesAt(buf, pos, n, kept).Some? ==> ByteAt(buf, p, COMMA) || ByteAt(buf, p, RBRACKET))
  {
    hide EntryAt, WellFormed, PrintPair;
    assert kept + [] == kept;
  }

  lemma {:induction false} FirstNSplit<T>(kept: seq<T>, head: seq<T>, rest: seq<T>, n: nat)
    requires |kept| + |head| <= n
    ensures kept + FirstN(head + rest, n - |kept|) == (kept + head) + FirstN(rest, n - |kept + head|)
    ensures |kept + head| == n || rest == [] ==> kept + FirstN(head + rest, n - |kept|) == kept + head
  {
  }

  /** A printed tail opens with a readable pair, then a bracket, or a comma and a shorter tail. */
  lemma {:induction false} TailHead(buf: seq<byte>, pos: nat, ws: seq<Pair>)
    requires ws != [] && AllWellFormed(ws) && Stands(buf, pos, PrintTail(ws))
    ensures WellFormed(ws[0]) && AllWellFormed(ws[1..])
    ensures var p := pos + |PrintPair(ws[0])|;
            && EntryAt(buf, pos) == Some(At(Denoted(ws[0]), p))
            && (|ws| == 1 ==> ByteAt(buf, p, RBRACKET))
            && (|ws| > 1 ==> ByteAt(buf, p, COMMA) && Stands(buf, p + 1, PrintTail(ws[1..])))
  {
    hide EntryAt, WellFormed, AllWellFormed, PrintPair, PrintTail, TailConsumed, Nonzero, Stands, Kept;
    Unfold(ws, 0);
    var w, rest := ws[0], ws[1..];
    var p := pos + |PrintPair(w)|;
    if |ws| == 1 {
      StandsSplit(buf, pos, PrintPair(w), [RBRACKET]);
      ByteStands(buf, p, RBRACKET);
    } else {
      StandsSplit(buf, pos, PrintPair(w), [COMMA] + PrintTail(rest));
      StandsSplit(buf, p, [COMMA], PrintTail(rest));
      ByteStands(buf, p, COMMA);
    }
    EntryStands(buf, pos, w);
  }

  lemma {:induction false} NonzeroNone()
    ensures Nonzero([]) == []
  {
  }

  /** What one pass adds to the levels kept and to the length consumed. */
  lemma {:induction false} TailResult(ws: seq<Pair>, n: nat, kept: seq<RawLevel>)
    requires ws != [] && AllWellFormed(ws) && |kept| < n
    ensures WellFormed(ws[0]) && AllWellFormed(ws[1..])
    ensures var kept', last := kept + Kept(ws[0]), |ws| == 1 || |kept + Kept(ws[0])| == n;
            && kept + FirstN(Nonzero(ws), n - |kept|)
               == (if last then kept' else kept' + FirstN(Nonzero(ws[1..]), n - |kept'|))
            && TailConsumed(ws, n - |kept|)
               == |PrintPair(ws[0])| + 1 + (if last then 0 else TailConsumed(ws[1..], n - |kept'|))
  {
    hide WellFormed, AllWellFormed, PrintPair, PrintTail, TailConsumed, Nonzero, Kept, FirstN;
    Unfold(ws, n - |kept|);
    NonzeroNone();
    FirstNSplit(kept, Kept(ws[0]), Nonzero(ws[1..]), n);
  }

  lemma {:induction false} TailStands(buf: seq<byte>, pos: nat, ws: seq<Pair>, n: nat, kept: seq<RawLevel>)
    requires ws != [] && AllWellFormed(ws) && |kept| < n
    requires Stands(buf, pos, PrintTail(ws))
    ensures EntriesAt(buf, pos, n, kept)
         == Some(At(kept + FirstN(Nonzero(ws), n - |kept|), pos + TailConsumed(ws, n - |kept|)))
    decreases |ws|
  {
    hide EntriesAt, EntryAt, WellFormed, AllWellFormed, PrintPair, PrintTail, TailConsumed, Nonzero, Stands, Kept, FirstN;
    TailHead(buf, pos, ws);
    TailResult(ws, n, kept);
    var w := ws[0];
    EntriesStep(buf, pos, n, kept, w);
    if |ws| > 1 && |kept + Kept(w)| < n {
      TailStands(buf, pos + |PrintPair(w)| + 1, ws[1..], n, kept + Kept(w));
    }
  }

  lemma {:induction false} TailOpens(ws: seq<Pair>)
    requires ws != []
    ensures PrintTail(ws) == [LBRACKET] + PrintTail(ws)[1..]
  {
    assert PrintTail(ws)[0] == PrintPair(ws[0])[0];
  }

  /**
   * Reading the printed form of any levels, wherever it stands and whatever follows it, gives the
   * first `n` with a nonzero amount in order and stops where `Consumed` says.
   */
  lemma {:induction false} LevelsRoundTrip(buf: seq<byte>, pos: nat, ws: seq<Pair>, n: nat)
    requires AllWellFormed(ws) && n > 0 && Stands(buf, pos, PrintLevels(ws))
    ensures LevelsAt(buf, pos, n) == Some(At(FirstN(Nonzero(ws), n), pos + Consumed(ws, n)))
  {
    hide EntriesAt, WellFormed, AllWellFormed, PrintPair, PrintTail, TailConsumed, Nonzero, Stands;
    var after := if ws == [] then [RBRACKET] else PrintTail(ws);
    StandsSplit(buf, pos, [LBRACKET], after);
    ByteStands(buf, pos, LBRACKET);
    if ws == [] {
      ByteStands(buf, pos + 1, RBRACKET);
      NonzeroNone();
    } else {
      TailOpens(ws);
      StandsSplit(buf, pos + 1, [LBRACKET], after[1..]);
      ByteStands(buf, pos + 1, LBRACKET);
      TailStands(buf, pos + 1, ws, n, []);
      assert [] + FirstN(Nonzero(ws), n) == FirstN(Nonzero(ws), n);
    }
  }

  lemma {:induction false} KeptNonzero(w: Pair)
    requires WellFormed(w)
    ensures |Kept(w)| == 1 <==> Denoted(w).amount != 0
  {
  }

  lemma {:induction false} TailLength(ws: seq<Pair>, n: nat)
    requires ws != [] && AllWellFormed(ws)
    ensures WellFormed(ws[0]) && AllWellFormed(ws[1..])
    ensures |ws| == 1 ==> |PrintTail(ws)| == |PrintPair(ws[0])| + 1
    ensures |ws| > 1 ==> |PrintTail(ws)| == |PrintPair(ws[0])| + 1 + |PrintTail(ws[1..])|
    ensures TailConsumed(ws, n) == |PrintPair(ws[0])| + 1
         + if |ws| == 1 || n <= |Kept(ws[0])| then 0 else TailConsumed(ws[1..], n - |Kept(ws[0])|)
  {
    hide WellFormed, AllWellFormed, PrintPair, PrintTail, PrintOpen, TailConsumed, Nonzero, Denoted, Kept;
    Unfold(ws, n);
  }

  /** A nonempty prefix, one unfolding. */
  lemma {:induction false} OpenCons(ws: seq<Pair>, k: nat)
    requires 0 < k <= |ws| && AllWellFormed(ws)
    ensures AllWellFormed(ws[..k]) && AllWellFormed(ws[1..]) && AllWellFormed(ws[1..][..k - 1])
    ensures WellFormed(ws[0]) && WellFormed(ws[k - 1])
    ensures |PrintOpen(ws[..k])| == |PrintPair(ws[0])| + 1 + |PrintOpen(ws[1..][..k - 1])|
    ensures |Nonzero(ws[..k])| == |Kept(ws[0])| + |Nonzero(ws[1..][..k - 1])|
    ensures ws[1..][..0] == [] && ws[..0] == []
    ensures k > 1 ==> ws[1..][k - 2] == ws[k - 1]
  {
    hide WellFormed, PrintPair;
    var pre := ws[..k];
    assert pre[1..] == ws[1..][..k - 1];
    assert AllWellFormed(pre) && AllWellFormed(ws[1..]);
    Unfold(pre, 0);
    assert WellFormed(ws[k - 1]);
  }

  lemma {:induction false} OpenNone()
    ensures PrintOpen([]) == []
  {
  }

  /**
   * Where the reader stops: past the closing bracket when fewer than `n` levels are nonzero, and
   * otherwise past the comma after the `n`-th, unless that was the last pair.
   */
  lemma {:induction false} ConsumedWhere(ws: seq<Pair>, n: nat) returns (k: nat)
    requires ws != [] && AllWellFormed(ws) && n > 0
    ensures 0 < k <= |ws|
    ensures k < |ws| ==> TailConsumed(ws, n) == |PrintOpen(ws[..k])|
    ensures k < |ws| ==> |Nonzero(ws[..k])| == n && Denoted(ws[k - 1]).amount != 0
    ensures k == |ws| ==> TailConsumed(ws, n) == |PrintTail(ws)| && |Nonzero(ws[..|ws| - 1])| < n
    decreases |ws|
  {
    hide WellFormed, AllWellFormed, PrintPair, PrintTail, PrintOpen, TailConsumed, Nonzero, Denoted, Kept;
    OpenCons(ws, 1);
    TailLength(ws, n);
    OpenNone();
    NonzeroNone();
    if |ws| == 1 {
      k := 1;
    } else if n == |Kept(ws[0])| {
      k := 1;
      KeptNonzero(ws[0]);
    } else {
      var k' := ConsumedWhere(ws[1..], n - |Kept(ws[0])|);
      k := k' + 1;
      OpenCons(ws, k);
      OpenCons(ws, |ws| - 1);
    }
  }

  // ---------------------------------------------------------------- soundness

  lemma {:induction false} QuotedSound(buf: seq<byte>, pos: nat) returns (text: seq<byte>)
    requires QuotedAt(buf, pos).Some?
    ensures Decoded(text) == Some(QuotedAt(buf, pos).value.value)
    ensures Stands(buf, pos, [QUOTE] + text + [QUOTE])
    ensures QuotedAt(buf, pos).value.next == pos + |text| + 2
  {
    hide Decoded;
    var q := IndexFrom(buf, QUOTE, pos + 1);
    text := buf[pos + 1..q];
    assert buf[pos..q + 1] == [QUOTE] + text + [QUOTE];
  }

  lemma {:induction false} ByteStood(buf: seq<byte>, pos: nat, b: byte)
    requires ByteAt(buf, pos, b)
    ensures Stands(buf, pos, [b])
  {
    assert buf[pos..pos + 1] == [b];
  }

  lemma {:induction false} EntrySound(buf: seq<byte>, pos: nat) returns (w: Pair)
    requires EntryAt(buf, pos).Some?
    ensures WellFormed(w) && EntryAt(buf, pos).value == At(Denoted(w), pos + |PrintPair(w)|)
    ensures Stands(buf, pos, PrintPair(w))
  {
    hide Decoded, QuotedAt, Stands;
    var p := QuotedAt(buf, pos + 1).value.next;
    var price := QuotedSound(buf, pos + 1);
    var amount := QuotedSound(buf, p + 1);
    w := Pair(price, amount);
    var a, b := [QUOTE] + price + [QUOTE], [QUOTE] + amount + [QUOTE];
    ByteStood(buf, pos, LBRACKET);
    ByteStood(buf, p, COMMA);
    ByteStood(buf, p + 1 + |b|, RBRACKET);
    StandsSplit(buf, p + 1, b, [RBRACKET]);
    StandsSplit(buf, p, [COMMA], b + [RBRACKET]);
    StandsSplit(buf, pos + 1, a, [COMMA] + (b + [RBRACKET]));
    StandsSplit(buf, pos, [LBRACKET], a + ([COMMA] + (b + [RBRACKET])));
    assert PrintPair(w) == [LBRACKET] + (a + ([COMMA] + (b + [RBRACKET])));
  }

  /** The pairs `ws` were read at `pos`, ending at `next`: complete, or cut after a comma at `n` levels. */
  predicate ReadAs(buf: seq<byte>, pos: nat, ws: seq<Pair>, next: nat, n: nat)
    requires ws != [] && AllWellFormed(ws)
  {
    || (Stands(buf, pos, PrintTail(ws)) && next == pos + |PrintTail(ws)|)
    || (Stands(buf, pos, PrintOpen(ws)) && next == pos + |PrintOpen(ws)| && |Nonzero(ws)| == n)
  }

  lemma {:induction false} EntriesOpen(buf: seq<byte>, pos: nat, n: nat, kept: seq<RawLevel>)
    requires EntriesAt(buf, pos, n, kept).Some?
    ensures EntryAt(buf, pos).Some?
  {
  }

  lemma {:induction false} PairThen(buf: seq<byte>, pos: nat, w: Pair, b: byte, rest: seq<byte>)
    requires Stands(buf, pos, PrintPair(w)) && ByteAt(buf, pos + |PrintPair(w)|, b)
    ensures Stands(buf, pos, PrintPair(w) + ([b] + rest)) <==> Stands(buf, pos + |PrintPair(w)| + 1, rest)
  {
    hide PrintPair, Stands;
    ByteStood(buf, pos + |PrintPair(w)|, b);
    StandsSplit(buf, pos + |PrintPair(w)|, [b], rest);
    StandsSplit(buf, pos, PrintPair(w), [b] + rest);
  }

  lemma {:induction false} SoundCons(buf: seq<byte>, pos: nat, w: Pair, rest: seq<Pair>, next: nat, m: nat)
    requires WellFormed(w) && Stands(buf, pos, PrintPair(w)) && ByteAt(buf, pos + |PrintPair(w)|, COMMA)
    requires rest != [] && AllWellFormed(rest) && |Kept(w)| <= m
    requires ReadAs(buf, pos + |PrintPair(w)| + 1, rest, next, m - |Kept(w)|)
    ensures AllWellFormed([w] + rest) && Nonzero([w] + rest) == Kept(w) + Nonzero(rest)
    ensures ReadAs(buf, pos, [w] + rest, next, m)
  {
    hide WellFormed, PrintPair, PrintTail, PrintOpen, Nonzero, Stands, Kept;
    assert ([w] + rest)[1..] == rest;
    Unfold([w] + rest, m);
    PairThen(buf, pos, w, COMMA, PrintTail(rest));
    PairThen(buf, pos, w, COMMA, PrintOpen(rest));
  }

  lemma {:induction false} SoundLast(buf: seq<byte>, pos: nat, w: Pair, m: nat)
    requires WellFormed(w) && Stands(buf, pos, PrintPair(w))
    requires var p := pos + |PrintPair(w)|;
             ByteAt(buf, p, RBRACKET) || (ByteAt(buf, p, COMMA) && |Kept(w)| == m)
    ensures AllWellFormed([w]) && Nonzero([w]) == Kept(w)
    ensures ReadAs(buf, pos, [w], pos + |PrintPair(w)| + 1, m)
  {
    hide WellFormed, PrintPair, PrintTail, PrintOpen, Nonzero, Stands, Kept;
    assert [w][1..] == [];
    Unfold([w], m);
    OpenNone();
    var p := pos + |PrintPair(w)|;
    if ByteAt(buf, p, RBRACKET) {
      ByteStood(buf, p, RBRACKET);
      StandsSplit(buf, pos, PrintPair(w), [RBRACKET]);
    } else {
      ByteStood(buf, p, COMMA);
      StandsSplit(buf, pos, PrintPair(w), [COMMA]);
      assert [COMMA] + [] == [COMMA];
    }
  }

  lemma {:induction false} EntriesSound(buf: seq<byte>, pos: nat, n: nat, kept: seq<RawLevel>) returns (ws: seq<Pair>)
    requires EntriesAt(buf, pos, n, kept).Some? && |kept| < n
    ensures ws != [] && AllWellFormed(ws)
    ensures EntriesAt(buf, pos, n, kept).value.value == kept + Nonzero(ws)
    ensures |kept| + |Nonzero(ws)| <= n
    ensures ReadAs(buf, pos, ws, EntriesAt(buf, pos, n, kept).value.next, n - |kept|)
    decreases |buf| - pos
  {
    hide EntriesAt, EntryAt, WellFormed, AllWellFormed, Denoted, PrintPair, PrintTail, PrintOpen, Nonzero, Stands, Kept, ReadAs;
    EntriesOpen(buf, pos, n, kept);
    var w := EntrySound(buf, pos);
    var p := pos + |PrintPair(w)|;
    EntriesStep(buf, pos, n, kept, w);
    if ByteAt(buf, p, COMMA) && |kept + Kept(w)| < n {
      var rest := EntriesSound(buf, p + 1, n, kept + Kept(w));
      ws := [w] + rest;
      SoundCons(buf, pos, w, rest, EntriesAt(buf, pos, n, kept).value.next, n - |kept|);
      assert kept + Nonzero(ws) == kept + Kept(w) + Nonzero(rest);
    } else {
      ws := [w];
      SoundLast(buf, pos, w, n - |kept|);
    }
  }

  /** Whatever the reader accepts is a printed level array, or one cut after a comma once full. */
  lemma {:induction false} LevelsSound(buf: seq<byte>, pos: nat, n: nat) returns (ws: seq<Pair>)
    requires LevelsAt(buf, pos, n).Some? && n > 0
    ensures AllWellFormed(ws) && LevelsAt(buf, pos, n).value.value == Nonzero(ws) && |Nonzero(ws)| <= n
    ensures ByteAt(buf, pos, LBRACKET)
    ensures ws == [] ==> LevelsAt(buf, pos, n).value.next == pos + 2 && Stands(buf, pos, PrintLevels(ws))
    ensures ws != [] ==> ReadAs(buf, pos + 1, ws, LevelsAt(buf, pos, n).value.next, n)
  {
    hide EntriesAt, WellFormed;
    if ByteAt(buf, pos + 1, RBRACKET) {
      ws := [];
      assert buf[pos..pos + 2] == [LBRACKET, RBRACKET];
    } else {
      ws := EntriesSound(buf, pos + 1, n, []);
    }
  }

  // ---------------------------------------------------------------- bytes of a printed array

  lemma {:induction false} TailBytes(ws: seq<Pair>)
    requires ws != [] && AllWellFormed(ws)
    ensures forall i :: 0 <= i < |PrintTail(ws)| ==> LevelByte(PrintTail(ws)[i])
    ensures PrintTail(ws)[|PrintTail(ws)| - 1] == RBRACKET
    decreases |ws|
  {
    hide Decoded;
    assert WellFormed(ws[0]);
    DecimalBytes(ws[0].price);
    DecimalBytes(ws[0].amount);
    assert forall i :: 0 <= i < |PrintPair(ws[0])| ==> LevelByte(PrintPair(ws[0])[i]);
    if |ws| > 1 {
      TailBytes(ws[1..]);
    }
  }

  /** A printed array holds no letters and no colon, and ends with a bracket. */
  lemma {:induction false} LevelsBytes(ws: seq<Pair>)
    requires AllWellFormed(ws)
    ensures forall i :: 0 <= i < |PrintLevels(ws)| ==> LevelByte(PrintLevels(ws)[i])
    ensures PrintLevels(ws)[|PrintLevels(ws)| - 1] == RBRACKET
  {
    hide WellFormed, PrintTail;
    if ws != [] {
      TailBytes(ws);
    }
  }

  // ---------------------------------------------------------------- bounds for arbitrary input

  lemma {:induction false} NonzeroAmounts(ws: seq<Pair>)
    requires AllWellFormed(ws)
    ensures forall i :: 0 <= i < |Nonzero(ws)| ==> Nonzero(ws)[i].amount != 0
    decreases |ws|
  {
    hide WellFormed;
    if ws != [] {
      Unfold(ws, 0);
      NonzeroAmounts(ws[1..]);
    }
  }

  /** At most `n` levels, none with a zero amount. */
  predicate Bounded(s: seq<RawLevel>, n: nat) {
    |s| <= n && forall i :: 0 <= i < |s| ==> s[i].amount != 0
  }

  /** Whatever the input, the reader returns at most `n` levels, none with a zero amount. */
  lemma {:induction false} LevelsBounded(buf: seq<byte>, pos: nat, n: nat)
    requires LevelsAt(buf, pos, n).Some? && n > 0
    ensures Bounded(LevelsAt(buf, pos, n).value.value, n)
  {
    hide LevelsAt, AllWellFormed, Nonzero, ReadAs;
    var ws := LevelsSound(buf, pos, n);
    NonzeroAmounts(ws);
  }

  // ---------------------------------------------------------------- levels printed by value

  function PairOf(l: RawLevel): Pair {
    Pair(Display(l.price), Display(l.amount))
  }

  /** Any list of levels in its displayed form. */
  function PairsOf(ls: seq<RawLevel>): (r: seq<Pair>)
    ensures |r| == |ls|
  {
    seq(|ls|, i requires 0 <= i < |ls| => PairOf(ls[i]))
  }

  /** The levels with a nonzero amount, in order. */
  function Present(ls: seq<RawLevel>): seq<RawLevel> {
    if ls == [] then [] else (if ls[0].amount != 0 then [ls[0]] else []) + Present(ls[1..])
  }

  lemma {:induction false} PairOfDenotes(l: RawLevel)
    ensures WellFormed(PairOf(l)) && Denoted(PairOf(l)) == l
  {
    hide Decoded, Display;
    DisplayParses(l.price);
    DisplayParses(l.amount);
  }

  /** Every list of levels has a wire form, and what is kept of it is what is present in the list. */
  lemma {:induction false} PairsOfDenote(ls: seq<RawLevel>)
    ensures AllWellFormed(PairsOf(ls)) && Nonzero(PairsOf(ls)) == Present(ls)
    ensures forall i :: 0 <= i < |ls| ==> Denoted(PairsOf(ls)[i]) == ls[i]
    decreases |ls|
  {
    hide WellFormed, Denoted, Nonzero, PairOf;
    forall i | 0 <= i < |ls|
      ensures WellFormed(PairsOf(ls)[i]) && Denoted(PairsOf(ls)[i]) == ls[i]
    {
      PairOfDenotes(ls[i]);
    }
    if ls == [] {
      NonzeroNone();
      assert PairsOf(ls) == [];
    } else {
      PairsOfDenote(ls[1..]);
      assert PairsOf(ls)[1..] == PairsOf(ls[1..]);
      Unfold(PairsOf(ls), 0);
    }
  }
}
