/** src/json_walker.rs: the byte scanner and the fused level reader. */
module JsonWalker {
  import opened Prelude
  import opened FixedPoint
  import opened Types

  /** Frames stay below 2^32 bytes, so the scanner's 32-bit digit counters cannot wrap. */
  const MAX_FRAME: nat := 0x1_0000_0000

  /** A value together with the position just after it. */
  datatype At<+T> = At(value: T, next: nat)

  // ---------------------------------------------------------------- substring search

  predicate Matches(buf: seq<byte>, i: nat, needle: seq<byte>) {
    i + |needle| <= |buf| && buf[i..i + |needle|] == needle
  }

  /** The first occurrence of the needle at or after `pos` (`memmem`). */
  function Find(buf: seq<byte>, pos: nat, needle: seq<byte>): (r: Option<nat>)
    ensures r.Some? ==> pos <= r.value && Matches(buf, r.value, needle)
    ensures r.Some? ==> forall i :: pos <= i < r.value ==> !Matches(buf, i, needle)
    ensures r.None? ==> forall i :: pos <= i ==> !Matches(buf, i, needle)
    decreases |buf| - pos
  {
    if pos + |needle| > |buf| then None
    else if Matches(buf, pos, needle) then Some(pos)
    else Find(buf, pos + 1, needle)
  }

  // ---------------------------------------------------------------- strings

  predicate IsWhitespace(b: byte) {
    b == 32 || b == 9 || b == 10 || b == 13
  }

  function AfterWhitespace(buf: seq<byte>, pos: nat): (r: nat)
    ensures pos <= r
    ensures pos <= |buf| ==> r <= |buf|
    ensures r < |buf| ==> !IsWhitespace(buf[r])
    decreases |buf| - pos
  {
    if pos < |buf| && IsWhitespace(buf[pos]) then AfterWhitespace(buf, pos + 1) else pos
  }

  /** How many backslashes stand directly before `i`, counting back no further than `start`. */
  function Backslashes(buf: seq<byte>, start: nat, i: nat): (n: nat)
    requires start <= i <= |buf|
    ensures n <= i - start
  {
    if i == start || buf[i - 1] != BACKSLASH then 0 else 1 + Backslashes(buf, start, i - 1)
  }

  /** A quote that no backslash escapes. */
  predicate Closes(buf: seq<byte>, start: nat, i: nat)
    requires start <= i < |buf|
  {
    buf[i] == QUOTE && Backslashes(buf, start, i) % 2 == 0
  }

  /** The first unescaped quote at or after `i`, or the length when there is none. */
  function ClosingQuote(buf: seq<byte>, start: nat, i: nat): (q: nat)
    requires start <= i <= |buf|
    ensures i <= q <= |buf|
    ensures q < |buf| ==> Closes(buf, start, q)
    ensures forall j :: i <= j < q ==> !Closes(buf, start, j)
    decreases |buf| - i
  {
    if i == |buf| || Closes(buf, start, i) then i else ClosingQuote(buf, start, i + 1)
  }

  /** The string whose content starts at `start` never closes and its last byte starts an escape. */
  predicate Dangles(buf: seq<byte>, start: nat)
    requires start <= |buf|
  {
    ClosingQuote(buf, start, start) == |buf| && Backslashes(buf, start, |buf|) % 2 == 1
  }

  /** `str::is_char_boundary`: not in the middle of a UTF-8 sequence. */
  predicate CharBoundary(buf: seq<byte>, i: nat) {
    i == 0 || i == |buf| || (i < |buf| && !(128 <= buf[i] < 192))
  }

  /** What `read_string` returns at `pos`, and where it leaves the scanner. */
  function StringAt(buf: seq<byte>, pos: nat): At<Option<seq<byte>>> {
    var open := AfterWhitespace(buf, pos);
    if open >= |buf| || buf[open] != QUOTE then
      At(None, open)
    else
      var start := open + 1;
      var q := ClosingQuote(buf, start, start);
      if q < |buf| then
        if CharBoundary(buf, start) && CharBoundary(buf, q) then At(Some(buf[start..q]), q + 1) else At(None, q)
      else
        At(None, if Dangles(buf, start) then |buf| + 1 else |buf|)
  }

  /** A scan of the string from `start` may have got to `pos`: it has not closed and no escape is open. */
  ghost predicate InString(buf: seq<byte>, start: nat, pos: nat) {
    start <= pos <= |buf| && pos <= ClosingQuote(buf, start, start) && Backslashes(buf, start, pos) % 2 == 0
  }

  lemma {:induction false} StringStep(buf: seq<byte>, start: nat, pos: nat)
    requires InString(buf, start, pos) && pos < |buf|
    ensures buf[pos] == QUOTE ==> ClosingQuote(buf, start, start) == pos
    ensures buf[pos] == BACKSLASH ==> if pos + 1 < |buf| then InString(buf, start, pos + 2) else Dangles(buf, start)
    ensures buf[pos] != QUOTE && buf[pos] != BACKSLASH ==> InString(buf, start, pos + 1)
  {
    var q := ClosingQuote(buf, start, start);
    if buf[pos] == QUOTE {
      assert Closes(buf, start, pos);
    } else if buf[pos] == BACKSLASH {
      assert Backslashes(buf, start, pos + 1) == Backslashes(buf, start, pos) + 1;
      assert pos + 1 <= q;
    }
  }

  lemma {:induction false} StringEnd(buf: seq<byte>, start: nat)
    requires InString(buf, start, |buf|)
    ensures ClosingQuote(buf, start, start) == |buf| && !Dangles(buf, start)
  {
  }

  lemma {:induction false} StringStart(buf: seq<byte>, start: nat)
    requires start <= |buf|
    ensures InString(buf, start, start)
  {
  }

  // ---------------------------------------------------------------- unsigned numbers

  /** Where the digits starting at `pos` end. */
  function DigitsEnd(buf: seq<byte>, pos: nat): (r: nat)
    requires pos <= |buf|
    ensures pos <= r <= |buf|
    ensures forall i :: pos <= i < r ==> IsDigit(buf[i])
    ensures AllDigits(buf[pos..r])
    ensures r < |buf| ==> !IsDigit(buf[r])
    decreases |buf| - pos
  {
    if pos < |buf| && IsDigit(buf[pos]) then DigitsEnd(buf, pos + 1) else pos
  }

  /** The length of the longest prefix whose value fits in 64 bits. */
  function Fitting(s: seq<byte>): (k: nat)
    requires AllDigits(s)
    ensures k <= |s| && Val(s[..k]) <= U64_MAX
    ensures k < |s| ==> Val(s[..k + 1]) > U64_MAX
    decreases |s|
  {
    if Val(s) <= U64_MAX then
      assert s[..|s|] == s;
      |s|
    else
      var s' := s[..|s| - 1];
      var k := Fitting(s');
      assert s'[..k] == s[..k];
      assert k < |s'| ==> s'[..k + 1] == s[..k + 1];
      assert k == |s'| ==> s[..k + 1] == s;
      k
  }

  /** What `read_u64` returns at `pos`: the digits' value, 0 when there is none or it overflows. */
  function NumberAt(buf: seq<byte>, pos: nat): (r: At<u64>)
    requires pos <= |buf|
    ensures r.next <= |buf|
  {
    var start := AfterWhitespace(buf, pos);
    var run := buf[start..DigitsEnd(buf, start)];
    if Val(run) <= U64_MAX then At(Val(run), start + |run|) else At(0, start + Fitting(run))
  }

  /** One digit of a number: either the prefix still fits, or the scan stops exactly here. */
  lemma {:induction false} NumberStep(run: seq<byte>, k: nat, val: u64)
    requires AllDigits(run) && k < |run| && Scanned(run, k, val)
    ensures Scanned(run, k + 1, 10 * val + DigitOf(run[k]))
    ensures 10 * val + DigitOf(run[k]) > U64_MAX ==> Val(run) > U64_MAX && Fitting(run) == k
  {
    ScanStep(run, k, val);
    var f := Fitting(run);
    if 10 * val + DigitOf(run[k]) > U64_MAX {
      ValPrefix(run, k + 1);
      if f > k {
        assert run[..f][..k + 1] == run[..k + 1];
        ValPrefix(run[..f], k + 1);
      } else if f < k {
        assert run[..k][..f + 1] == run[..f + 1];
        ValPrefix(run[..k], f + 1);
      }
    }
  }

  // ---------------------------------------------------------------- quoted decimals and levels

  /** A quote, a text up to the next quote that denotes a fixed-point number, and that quote. */
  function QuotedAt(buf: seq<byte>, pos: nat): (r: Option<At<u64>>)
    ensures r.Some? ==> pos < r.value.next <= |buf|
  {
    if pos >= |buf| || buf[pos] != QUOTE then None
    else
      var q := IndexFrom(buf, QUOTE, pos + 1);
      if q < |buf| && Decoded(buf[pos + 1..q]).Some? then Some(At(Decoded(buf[pos + 1..q]).value, q + 1)) else None
  }

  /** The text from `start` to the next quote. */
  function TextAt(buf: seq<byte>, start: nat): (t: seq<byte>)
    requires start <= |buf|
    ensures start + |t| <= |buf| && t == buf[start..start + |t|]
    ensures forall i :: start <= i < start + |t| ==> buf[i] == t[i - start] && buf[i] != QUOTE
    ensures start + |t| < |buf| ==> buf[start + |t|] == QUOTE
  {
    buf[start..IndexFrom(buf, QUOTE, start)]
  }

  lemma {:induction false} TextFrom(buf: seq<byte>, start: nat, k: nat)
    requires start <= |buf| && k <= |TextAt(buf, start)|
    ensures TextAt(buf, start + k) == TextAt(buf, start)[k..]
  {
  }

  /** The fraction is the text behind the dot. */
  lemma {:induction false} FractionText(buf: seq<byte>, start: nat)
    requires start <= |buf|
    ensures var t, w := TextAt(buf, start), |Whole(TextAt(buf, start))|;
            && w <= |t| && (forall i :: 0 <= i < w ==> buf[start + i] == Whole(t)[i] != DOT)
            && if w < |t| then buf[start + w] == DOT && Fraction(t) == TextAt(buf, start + w + 1) else Fraction(t) == []
  {
    hide IndexFrom, TextAt, Whole, Fraction;
    var t := TextAt(buf, start);
    Parts(t);
    if |Whole(t)| < |t| {
      TextFrom(buf, start, |Whole(t)| + 1);
    }
  }

  lemma {:induction false} NoOpening(buf: seq<byte>, pos: nat)
    requires pos >= |buf| || buf[pos] != QUOTE
    ensures QuotedAt(buf, pos) == None
  {
  }

  /** What a quoted decimal is, by the text behind its opening quote. */
  lemma {:induction false} QuotedText(buf: seq<byte>, pos: nat)
    requires pos < |buf| && buf[pos] == QUOTE
    ensures var t := TextAt(buf, pos + 1); var q := pos + 1 + |t|;
            QuotedAt(buf, pos)
            == if q < |buf| && Decoded(t).Some? then Some(At(Decoded(t).value, q + 1)) else None
  {
    hide Decoded;
  }

  predicate ByteAt(buf: seq<byte>, pos: nat, b: byte) {
    pos < |buf| && buf[pos] == b
  }

  /** One `["price","amount"]` pair. */
  function EntryAt(buf: seq<byte>, pos: nat): (r: Option<At<RawLevel>>)
    ensures r.Some? ==> pos < r.value.next <= |buf|
  {
    if !ByteAt(buf, pos, LBRACKET) then None
    else
      var price :- QuotedAt(buf, pos + 1);
      if !ByteAt(buf, price.next, COMMA) then None
      else
        var amount :- QuotedAt(buf, price.next + 1);
        if !ByteAt(buf, amount.next, RBRACKET) then None
        else Some(At(RawLevel(price.value, amount.value), amount.next + 1))
  }

  /** The reader's loop from an entry at `pos`, `kept` being what it holds so far. */
  function EntriesAt(buf: seq<byte>, pos: nat, n: nat, kept: seq<RawLevel>): (r: Option<At<seq<RawLevel>>>)
    ensures r.Some? ==> pos < r.value.next <= |buf|
    decreases |buf| - pos
  {
    var entry :- EntryAt(buf, pos);
    var p := entry.next;
    if entry.value.amount != 0 && |kept| >= n then
      Some(At(kept, p))
    else
      var kept' := if entry.value.amount != 0 then kept + [entry.value] else kept;
      if ByteAt(buf, p, COMMA) then
        if |kept'| == n then Some(At(kept', p + 1)) else EntriesAt(buf, p + 1, n, kept')
      else if ByteAt(buf, p, RBRACKET) then
        Some(At(kept', p + 1))
      else
        None
  }

  /** Whether the reader's loop, continued from an entry at `pos`, pushes onto a full array. */
  predicate PushFails(buf: seq<byte>, pos: nat, n: nat, kept: seq<RawLevel>)
    decreases |buf| - pos
  {
    match EntryAt(buf, pos)
    case None => false
    case Some(entry) =>
      if entry.value.amount == 0 then
        ByteAt(buf, entry.next, COMMA) && |kept| != n && PushFails(buf, entry.next + 1, n, kept)
      else
        || |kept| >= n
        || (ByteAt(buf, entry.next, COMMA) && |kept| + 1 != n && PushFails(buf, entry.next + 1, n, kept + [entry.value]))
  }

  /** Whether reading the array at `pos` meets a full array. */
  predicate LevelsPushFails(buf: seq<byte>, pos: nat, n: nat) {
    ByteAt(buf, pos, LBRACKET) && !ByteAt(buf, pos + 1, RBRACKET) && PushFails(buf, pos + 1, n, [])
  }

  /** `read_raw_levels::<n>` at `pos`. */
  function LevelsAt(buf: seq<byte>, pos: nat, n: nat): (r: Option<At<seq<RawLevel>>>)
    ensures r.Some? ==> pos < r.value.next <= |buf|
  {
    if !ByteAt(buf, pos, LBRACKET) then None
    else if ByteAt(buf, pos + 1, RBRACKET) then Some(At([], pos + 2))
    else EntriesAt(buf, pos + 1, n, [])
  }

  /** `read_optional_raw_levels` at `pos`. */
  function OptionalLevelsAt(buf: seq<byte>, pos: nat, needle: seq<byte>, n: nat): (r: Option<At<seq<RawLevel>>>)
    requires pos <= |buf|
    ensures r.Some? ==> pos <= r.value.next <= |buf|
  {
    match Find(buf, pos, needle)
    case Some(i) => LevelsAt(buf, i + |needle|, n)
    case None => Some(At([], pos))
  }

  // ---------------------------------------------------------------- scanner

  class Scanner {
    const buf: seq<byte>
    var pos: nat

    constructor (json: seq<byte>)
      ensures buf == json && pos == 0
    {
      buf := json;
      pos := 0;
    }

    method SkipWs()
      modifies this`pos
      ensures pos == AfterWhitespace(buf, old(pos))
    {
      while pos < |buf|
        invariant AfterWhitespace(buf, pos) == AfterWhitespace(buf, old(pos))
        decreases |buf| - pos
      {
        if IsWhitespace(buf[pos]) {
          pos := pos + 1;
        } else {
          return;
        }
      }
    }

    method ExpectByte(b: byte) returns (ok: bool)
      modifies this`pos
      ensures ok == ByteAt(buf, old(pos), b)
      ensures pos == if ok then old(pos) + 1 else old(pos)
    {
      if pos < |buf| && buf[pos] == b {
        pos := pos + 1;
        return true;
      }
      return false;
    }

    /** Slicing `buf[pos..]` panics past the end, hence the precondition. */
    method Seek(needle: seq<byte>) returns (found: bool)
      requires pos <= |buf|
      modifies this`pos
      ensures found == Find(buf, old(pos), needle).Some?
      ensures pos == if found then Find(buf, old(pos), needle).value + |needle| else old(pos)
      ensures pos <= |buf|
    {
      var at := Find(buf, pos, needle);
      if at.None? {
        return false;
      }
      pos := at.value + |needle|;
      return true;
    }

    /** A dangling backslash leaves the scanner one past the end. */
    method ReadString() returns (r: Option<seq<byte>>)
      modifies this`pos
      ensures At(r, pos) == StringAt(buf, old(pos))
    {
      hide Backslashes, ClosingQuote, InString, AfterWhitespace;
      SkipWs();
      if pos >= |buf| || buf[pos] != QUOTE {
        return None;
      }
      pos := pos + 1;
      var start := pos;
      StringStart(buf, start);
      while pos < |buf|
        invariant if pos <= |buf| then InString(buf, start, pos) else pos == |buf| + 1 && Dangles(buf, start)
        decreases |buf| - pos
      {
        StringStep(buf, start, pos);
        if buf[pos] == QUOTE {
          if CharBoundary(buf, start) && CharBoundary(buf, pos) {
            r := Some(buf[start..pos]);
            pos := pos + 1;
            return;
          }
          return None;
        } else if buf[pos] == BACKSLASH {
          pos := pos + 2;
        } else {
          pos := pos + 1;
        }
      }
      if pos == |buf| {
        StringEnd(buf, start);
      }
      return None;
    }

    method ReadU64() returns (val: u64)
      requires pos <= |buf|
      modifies this`pos
      ensures At(val, pos) == NumberAt(buf, old(pos))
    {
      hide Val, Fitting, AfterWhitespace, DigitsEnd, Scanned;
      SkipWs();
      ghost var start := pos;
      ghost var run := buf[start..DigitsEnd(buf, start)];
      val := 0;
      ScanStart(run);
      while pos < |buf|
        invariant start <= pos <= start + |run|
        invariant Scanned(run, pos - start, val)
        decreases |buf| - pos
      {
        var d := DigitOf(buf[pos]);
        if d > 9 {
          break;
        }
        NumberStep(run, pos - start, val);
        var shifted := CheckedMul(val, 10);
        if shifted.None? {
          return 0;
        }
        var next := CheckedAdd(shifted.value, d);
        if next.None? {
          return 0;
        }
        val := next.value;
        pos := pos + 1;
      }
      ScanEnd(run, val);
    }

    /** First loop of `read_quoted_decimal`: the digits before a dot or the closing quote. */
    method ReadWhole() returns (ok: bool, intPart: u64, intDigits: u32)
      requires |buf| < MAX_FRAME && pos <= |buf|
      modifies this`pos
      ensures pos <= |buf|
      ensures !ok ==> Decoded(TextAt(buf, old(pos))) == None
      ensures ok ==> var whole := Whole(TextAt(buf, old(pos)));
              intDigits == |whole| && Scanned(whole, intDigits, intPart) && pos == old(pos) + intDigits
    {
      hide Decoded, Val, IndexFrom;
      ghost var start, text := pos, TextAt(buf, pos);
      ghost var whole := Whole(text);
      intPart, intDigits := 0, 0;
      ScanStart(whole);
      while pos < |buf| && buf[pos] != DOT && buf[pos] != QUOTE
        invariant intDigits <= |whole| && pos == start + intDigits
        invariant Scanned(whole, intDigits, intPart)
        decreases |buf| - pos
      {
        WholeStep(text, intDigits, intPart);
        var d := DigitOf(buf[pos]);
        if d > 9 {
          return false, 0, 0;
        }
        var shifted := CheckedMul(intPart, 10);
        if shifted.None? {
          return false, 0, 0;
        }
        var next := CheckedAdd(shifted.value, d);
        if next.None? {
          return false, 0, 0;
        }
        intPart := next.value;
        intDigits := intDigits + 1;
        pos := pos + 1;
      }
      ok := true;
    }

    /** Second loop: up to eight digits of the fraction, which ends at the next quote. */
    method ReadEightDigits(ghost text: seq<byte>) returns (ok: bool, fracPart: u64, fracDigits: u32)
      requires pos <= |buf| && Fraction(text) == TextAt(buf, pos)
      modifies this`pos
      ensures pos <= |buf|
      ensures !ok ==> Decoded(text) == None
      ensures ok ==> fracDigits == Significant(Fraction(text)) && Scanned(Fraction(text), fracDigits, fracPart)
      ensures ok ==> pos == old(pos) + fracDigits
    {
      hide Decoded, Val, IndexFrom, Fraction;
      ghost var base, frac := pos, Fraction(text);
      fracPart, fracDigits := 0, 0;
      ScanStart(frac);
      while pos < |buf| && buf[pos] != QUOTE && fracDigits < 8
        invariant fracDigits <= 8 && fracDigits <= |frac| && pos == base + fracDigits
        invariant Scanned(frac, fracDigits, fracPart)
        decreases |buf| - pos
      {
        assert buf[pos] == frac[fracDigits];
        FractionStep(text, fracDigits, fracPart);
        var d := DigitOf(buf[pos]);
        if d > 9 {
          return false, 0, 0;
        }
        fracPart := fracPart * 10 + d;
        fracDigits := fracDigits + 1;
        pos := pos + 1;
      }
      ok := true;
    }

    /** Third loop: the digits up to the next quote are checked and skipped. */
    method SkipDigits() returns (ok: bool)
      requires pos <= |buf|
      modifies this`pos
      ensures pos <= |buf|
      ensures ok == AllDigits(TextAt(buf, old(pos)))
      ensures ok ==> pos == old(pos) + |TextAt(buf, old(pos))|
    {
      hide IndexFrom;
      ghost var base, rest := pos, TextAt(buf, pos);
      while pos < |buf| && buf[pos] != QUOTE
        invariant base <= pos <= base + |rest|
        invariant AllDigits(rest[..pos - base])
        decreases |buf| - pos
      {
        assert buf[pos] == rest[pos - base];
        if DigitOf(buf[pos]) > 9 {
          return false;
        }
        assert rest[..pos + 1 - base] == rest[..pos - base] + [rest[pos - base]];
        pos := pos + 1;
      }
      assert rest[..pos - base] == rest;
      ok := true;
    }

    /** The fraction behind a dot: the first eight digits count, the others are only checked. */
    method ReadFraction(ghost start: nat) returns (ok: bool, fracPart: u64, fracDigits: u32)
      requires start <= pos < |buf| && pos == start + |Whole(TextAt(buf, start))| < start + |TextAt(buf, start)|
      requires buf[pos] == DOT
      modifies this`pos
      ensures pos <= |buf|
      ensures !ok ==> Decoded(TextAt(buf, start)) == None
      ensures ok ==> var frac := Fraction(TextAt(buf, start));
              fracDigits == Significant(frac) && Scanned(frac, fracDigits, fracPart) && AllDigits(frac)
              && pos == start + |TextAt(buf, start)|
    {
      hide Decoded, Val, IndexFrom, TextAt, Whole, Fraction;
      ghost var text := TextAt(buf, start);
      ghost var frac := Fraction(text);
      FractionText(buf, start);
      pos := pos + 1;
      ghost var base := pos;
      ok, fracPart, fracDigits := ReadEightDigits(text);
      if !ok {
        return;
      }
      TextFrom(buf, base, fracDigits);
      DigitsFrom(frac, fracDigits);
      ok := SkipDigits();
      if !ok {
        FractionNotDigits(text);
      }
    }

    /** Quote, digits and dot, quote in one pass; its loops are `ReadWhole` and `ReadFraction`. */
    method ReadQuotedDecimal() returns (r: Option<u64>)
      requires |buf| < MAX_FRAME
      modifies this`pos
      ensures r == (match QuotedAt(buf, old(pos)) case Some(d) => Some(d.value) case None => None)
      ensures r.Some? ==> pos == QuotedAt(buf, old(pos)).value.next
      ensures old(pos) <= |buf| ==> pos <= |buf|
    {
      hide Decoded, IndexFrom, TextAt, Whole, Fraction, QuotedAt, Scanned, IsDecimal, POW10;
      if pos >= |buf| || buf[pos] != QUOTE {
        NoOpening(buf, pos);
        return None;
      }
      QuotedText(buf, pos);
      pos := pos + 1;
      ghost var start, text := pos, TextAt(buf, pos);
      FractionText(buf, start);
      var ok, intPart, intDigits := ReadWhole();
      if !ok {
        return None;
      }
      var fracPart: u64, fracDigits: u32 := 0, 0;
      ScanStart(Fraction(text));
      if pos < |buf| && buf[pos] == DOT {
        ok, fracPart, fracDigits := ReadFraction(start);
        if !ok {
          return None;
        }
      }
      if intDigits == 0 && fracDigits == 0 {
        NoDigits(text);
        return None;
      }
      if pos >= |buf| || buf[pos] != QUOTE {
        return None;
      }
      pos := pos + 1;
      Assemble(text, intPart, fracPart, fracDigits);
      fracPart := fracPart * POW10[8 - fracDigits];
      var scaled :- CheckedMul(intPart, SCALE);
      var value :- CheckedAdd(scaled, fracPart);
      return Some(value);
    }

    /** Absent key: empty levels. Present key: its level array, or failure. */
    method ReadOptionalRawLevels(needle: seq<byte>, n: nat) returns (r: Option<seq<RawLevel>>)
      requires |buf| < MAX_FRAME && pos <= |buf|
      modifies this`pos
      ensures match OptionalLevelsAt(buf, old(pos), needle, n)
              case Some(at) => r == Some(at.value) && pos == at.next
              case None => r == None
      ensures pos <= |buf|
    {
      var found := Seek(needle);
      if found {
        var levels, _ := ReadRawLevels(this, n);
        return levels;
      } else {
        return Some([]);
      }
    }
  }

  /** One pass of the reader's loop up to the closing bracket of the pair. */
  method ReadEntry(s: Scanner) returns (r: Option<RawLevel>)
    requires |s.buf| < MAX_FRAME && s.pos <= |s.buf|
    modifies s`pos
    ensures match EntryAt(s.buf, old(s.pos))
            case Some(at) => r == Some(at.value) && s.pos == at.next
            case None => r == None
    ensures s.pos <= |s.buf|
  {
    hide QuotedAt;
    var ok := s.ExpectByte(LBRACKET);
    if !ok {
      return None;
    }
    var price :- s.ReadQuotedDecimal();
    ok := s.ExpectByte(COMMA);
    if !ok {
      return None;
    }
    var amount :- s.ReadQuotedDecimal();
    ok := s.ExpectByte(RBRACKET);
    if !ok {
      return None;
    }
    return Some(RawLevel(price, amount));
  }

  /** `failedPush` tells whether a push met a full array: with room for one level none does. */
  method ReadRawLevels(s: Scanner, n: nat) returns (r: Option<seq<RawLevel>>, ghost failedPush: bool)
    requires |s.buf| < MAX_FRAME && s.pos <= |s.buf|
    modifies s`pos
    ensures match LevelsAt(s.buf, old(s.pos), n)
            case Some(at) => r == Some(at.value) && s.pos == at.next
            case None => r == None
    ensures s.pos <= |s.buf|
    ensures failedPush == LevelsPushFails(s.buf, old(s.pos), n)
    ensures n > 0 ==> !failedPush
  {
    hide EntryAt;
    failedPush := false;
    var ok := s.ExpectByte(LBRACKET);
    if !ok {
      return None, false;
    }
    var levels: seq<RawLevel> := [];
    if s.pos < |s.buf| && s.buf[s.pos] == RBRACKET {
      s.pos := s.pos + 1;
      return Some(levels), false;
    }
    while true
      invariant s.pos <= |s.buf| && |levels| <= n && (n > 0 ==> |levels| < n)
      invariant EntriesAt(s.buf, s.pos, n, levels) == LevelsAt(s.buf, old(s.pos), n)
      invariant PushFails(s.buf, s.pos, n, levels) == LevelsPushFails(s.buf, old(s.pos), n)
      decreases |s.buf| - s.pos
    {
      var entry :- ReadEntry(s);
      if entry.amount != 0 {
        if |levels| == n {
          return Some(levels), true;
        }
        levels := levels + [entry];
      }
      if s.pos < |s.buf| && s.buf[s.pos] == COMMA {
        s.pos := s.pos + 1;
        if |levels| == n {
          return Some(levels), false;
        }
      } else if s.pos < |s.buf| && s.buf[s.pos] == RBRACKET {
        s.pos := s.pos + 1;
        return Some(levels), false;
      } else {
        return None, false;
      }
    }
  }
}
