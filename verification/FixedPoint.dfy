/** src/types.rs: decimal text to and from 10^-8 fixed point. */
module FixedPoint {
  import opened Prelude

  const SCALE: u64 := 100_000_000

  const POW10: seq<u64> := [1, 10, 100, 1_000, 10_000, 100_000, 1_000_000, 10_000_000, 100_000_000]

  // ---------------------------------------------------------------- meaning

  /** The text before the first dot. */
  function Whole(s: seq<byte>): seq<byte> {
    s[..IndexFrom(s, DOT, 0)]
  }

  /** The text after the first dot; empty when there is no dot. */
  function Fraction(s: seq<byte>): seq<byte> {
    var d := IndexFrom(s, DOT, 0);
    if d < |s| then s[d + 1..] else []
  }

  /** Digits with an optional dot and fraction, and at least one digit in all. */
  predicate IsDecimal(s: seq<byte>) {
    AllDigits(Whole(s)) && AllDigits(Fraction(s)) && Whole(s) + Fraction(s) != []
  }

  /** floor(value * 10^8), the value being the digits with the dot removed over 10^|fraction|. */
  function FloorScaled(s: seq<byte>): nat
    requires IsDecimal(s)
  {
    FloorDiv(Val(Whole(s) + Fraction(s)) * SCALE, Pow10(|Fraction(s)|))
  }

  /** The fixed-point number a text denotes, if it denotes one that fits. */
  function Decoded(s: seq<byte>): Option<u64> {
    if IsDecimal(s) && FloorScaled(s) <= U64_MAX then Some(FloorScaled(s)) else None
  }

  /** How many fraction digits count; the rest are truncated. */
  function Significant(frac: seq<byte>): nat {
    Min(|frac|, 8)
  }

  // ---------------------------------------------------------------- arithmetic

  lemma {:induction false} PowTable(k: nat)
    requires k <= 8
    ensures POW10[k] == Pow10(k)
  {
    assert Pow10(1) == 10 && Pow10(2) == 100 && Pow10(3) == 1_000;
    assert Pow10(4) == 10_000 && Pow10(5) == 100_000 && Pow10(6) == 1_000_000;
    assert Pow10(7) == 10_000_000 && Pow10(8) == 100_000_000;
  }

  /** floor(F * 10^8 / 10^n) keeps the first eight digits of F, padded with zeros. */
  lemma {:induction false} FractionFloor(frac: seq<byte>) returns (q: nat, r: nat)
    requires AllDigits(frac)
    ensures q == Val(frac[..Significant(frac)]) * Pow10(8 - Significant(frac))
    ensures r < Pow10(|frac|) && Val(frac) * SCALE == q * Pow10(|frac|) + r
  {
    PowTable(8);
    var n := |frac|;
    if n <= 8 {
      assert frac[..n] == frac;
      PowAdd(8 - n, n);
      q, r := Val(frac) * Pow10(8 - n), 0;
      MulAssociates(Val(frac), Pow10(8 - n), Pow10(n));
    } else {
      var hi, lo := frac[..8], frac[8..];
      assert frac == hi + lo;
      ValConcat(hi, lo);
      ValBound(lo);
      PowAdd(n - 8, 8);
      q, r := Val(hi), Val(lo) * SCALE;
      assert Pow10(0) == 1;
      MulDistributes(Val(hi) * Pow10(n - 8), Val(lo), SCALE);
      MulAssociates(Val(hi), Pow10(n - 8), SCALE);
      MulStrict(Val(lo), Pow10(n - 8), SCALE);
    }
  }

  lemma {:induction false} FloorRearrange(w: nat, p: nat, f: nat, q: nat, r: nat)
    requires f * SCALE == q * p + r && r < p
    ensures (w * p + f) * SCALE == (w * SCALE + q) * p + r
  {
    MulDistributes(w * p, f, SCALE);
    MulDistributes(w * SCALE, q, p);
    MulAssociates(w, p, SCALE);
    MulAssociates(w, SCALE, p);
  }

  /** The split the parser computes is the floor of the scaled value. */
  lemma {:induction false} FloorSplit(whole: seq<byte>, frac: seq<byte>)
    requires AllDigits(whole) && AllDigits(frac)
    ensures FloorDiv(Val(whole + frac) * SCALE, Pow10(|frac|))
         == Val(whole) * SCALE + Val(frac[..Significant(frac)]) * Pow10(8 - Significant(frac))
  {
    ValConcat(whole, frac);
    var q, r := FractionFloor(frac);
    FloorRearrange(Val(whole), Pow10(|frac|), Val(frac), q, r);
    QuotientIs(Val(whole + frac) * SCALE, Pow10(|frac|), Val(whole) * SCALE + q, r);
  }

  /** What an accepted text denotes, in the parser's own pieces. */
  lemma {:induction false} DecodedSplit(s: seq<byte>)
    requires IsDecimal(s)
    ensures var f := Fraction(s); var k := Significant(f);
            FloorScaled(s) == Val(Whole(s)) * SCALE + Val(f[..k]) * Pow10(8 - k)
    ensures FloorScaled(s) >= Val(Whole(s)) * 100_000_000
  {
    hide Val, Pow10, FloorDiv, IndexFrom;
    var k := Significant(Fraction(s));
    MulMonotone(0, Pow10(8 - k), Val(Fraction(s)[..k]));
    FloorSplit(Whole(s), Fraction(s));
  }

  /** `v` is the value of the first `k` bytes, all of them digits. */
  predicate Scanned(s: seq<byte>, k: nat, v: nat) {
    k <= |s| && AllDigits(s[..k]) && v == Val(s[..k])
  }

  lemma {:induction false} ScanStart(s: seq<byte>)
    ensures Scanned(s, 0, 0)
  {
  }

  lemma {:induction false} ScanDigits(s: seq<byte>, k: nat, v: nat)
    requires Scanned(s, k, v)
    ensures k <= |s| && AllDigits(s[..k])
  {
  }

  lemma {:induction false} ScanEnd(s: seq<byte>, v: nat)
    requires Scanned(s, |s|, v)
    ensures AllDigits(s) && v == Val(s)
  {
    assert s[..|s|] == s;
  }

  lemma {:induction false} ScanStep(s: seq<byte>, k: nat, v: nat)
    requires Scanned(s, k, v) && k < |s| && IsDigit(s[k])
    ensures Scanned(s, k + 1, 10 * v + DigitOf(s[k]))
  {
    ValSnoc(s, k);
  }

  /** A byte that is no digit, or a whole part that overflows, rejects the text whatever follows. */
  lemma {:induction false} WholeStep(s: seq<byte>, k: nat, v: nat)
    requires Scanned(Whole(s), k, v) && k < |Whole(s)|
    ensures !IsDigit(Whole(s)[k]) ==> Decoded(s) == None
    ensures IsDigit(Whole(s)[k]) ==> Scanned(Whole(s), k + 1, 10 * v + DigitOf(Whole(s)[k]))
    ensures IsDigit(Whole(s)[k]) && 10 * v + DigitOf(Whole(s)[k]) > U64_MAX ==> Decoded(s) == None
  {
    if IsDigit(Whole(s)[k]) {
      ScanStep(Whole(s), k, v);
      if 10 * v + DigitOf(Whole(s)[k]) > U64_MAX && IsDecimal(s) {
        DecodedSplit(s);
        ValPrefix(Whole(s), k + 1);
      }
    }
  }

  lemma {:induction false} FracBound(s: seq<byte>, k: nat)
    requires k <= 8 && k <= |s| && AllDigits(s[..k])
    ensures Val(s[..k]) < Pow10(k) <= SCALE
    ensures Val(s[..k]) * Pow10(8 - k) < SCALE
  {
    PowTable(8);
    ValBound(s[..k]);
    PowAdd(k, 8 - k);
    MulStrict(Val(s[..k]), Pow10(k), Pow10(8 - k));
    MulMonotone(1, Pow10(8 - k), Pow10(k));
  }

  lemma {:induction false} FractionStep(s: seq<byte>, k: nat, v: nat)
    requires Scanned(Fraction(s), k, v) && k < |Fraction(s)|
    ensures !IsDigit(Fraction(s)[k]) ==> Decoded(s) == None
    ensures IsDigit(Fraction(s)[k]) ==> Scanned(Fraction(s), k + 1, 10 * v + DigitOf(Fraction(s)[k]))
    ensures IsDigit(Fraction(s)[k]) && k < 8 ==> 10 * v + DigitOf(Fraction(s)[k]) < SCALE
  {
    if IsDigit(Fraction(s)[k]) {
      ScanStep(Fraction(s), k, v);
      if k < 8 { FracBound(Fraction(s), k + 1); }
    }
  }

  /** The parser's closing arithmetic: padding stays below 10^8 and the sum decides the result. */
  lemma {:induction false} Assemble(s: seq<byte>, intPart: u64, fracPart: u64, k: nat)
    requires AllDigits(Fraction(s)) && (Whole(s) != [] || Fraction(s) != []) && k == Significant(Fraction(s))
    requires Scanned(Whole(s), |Whole(s)|, intPart) && Scanned(Fraction(s), k, fracPart)
    ensures 8 - k < |POW10| && 0 <= fracPart * POW10[8 - k] < SCALE
    ensures var v := intPart * SCALE + fracPart * POW10[8 - k];
            Decoded(s) == if v <= U64_MAX then Some(v) else None
  {
    assert Whole(s)[..|Whole(s)|] == Whole(s);
    DecodedSplit(s);
    FracBound(Fraction(s), k);
    PowTable(8 - k);
  }

  lemma {:induction false} FractionNotDigits(s: seq<byte>)
    requires !AllDigits(Fraction(s))
    ensures Decoded(s) == None
  {
  }

  /** Once a first part is known to be digits, the rest decides. */
  lemma {:induction false} DigitsFrom(s: seq<byte>, k: nat)
    requires k <= |s| && AllDigits(s[..k])
    ensures AllDigits(s) <==> AllDigits(s[k..])
  {
    assert s == s[..k] + s[k..];
  }

  lemma {:induction false} NoDigits(s: seq<byte>)
    requires Whole(s) == [] && Fraction(s) == []
    ensures Decoded(s) == None
  {
  }

  /** Where the two parts lie in the text. */
  lemma {:induction false} Parts(s: seq<byte>)
    ensures var w, f := Whole(s), Fraction(s);
            && |w| <= |s| && (forall i :: 0 <= i < |w| ==> s[i] == w[i] != DOT)
            && if |w| < |s| then s[|w|] == DOT && f == s[|w| + 1..] else f == []
  {
  }

  // ---------------------------------------------------------------- parser

  /** `FixedPoint::parse`. Every unchecked operation stays in `u64`: its types are proved. */
  method Parse(bytes: seq<byte>) returns (r: Option<u64>)
    ensures r == Decoded(bytes)
  {
    hide Decoded, IndexFrom, Val, Whole, Fraction, Scanned, IsDecimal, POW10;
    Parts(bytes);
    if |bytes| == 0 {
      NoDigits(bytes);
      return None;
    }
    ghost var whole, frac := Whole(bytes), Fraction(bytes);
    ScanStart(whole);
    ScanStart(frac);
    var i := 0;
    var intPart: u64 := 0;
    while i < |bytes| && bytes[i] != DOT
      invariant i <= |whole| && Scanned(whole, i, intPart)
    {
      WholeStep(bytes, i, intPart);
      var d := DigitOf(bytes[i]);
      if d > 9 {
        return None;
      }
      var shifted :- CheckedMul(intPart, 10);
      intPart :- CheckedAdd(shifted, d);
      i := i + 1;
    }
    var intDigits := i;

    var fracPart: u64 := 0;
    var fracDigits: u32 := 0;
    if i < |bytes| && bytes[i] == DOT {
      i := i + 1;
      while i < |bytes| && fracDigits < 8
        invariant fracDigits <= 8 && i == |whole| + 1 + fracDigits <= |bytes|
        invariant Scanned(frac, fracDigits, fracPart)
      {
        FractionStep(bytes, fracDigits, fracPart);
        var d := DigitOf(bytes[i]);
        if d > 9 {
          return None;
        }
        fracPart := fracPart * 10 + d;
        fracDigits := fracDigits + 1;
        i := i + 1;
      }
      ScanDigits(frac, fracDigits, fracPart);
      ghost var j := fracDigits;
      while i < |bytes|
        invariant fracDigits <= j && i == |whole| + 1 + j <= |bytes|
        invariant AllDigits(frac[..j])
      {
        assert bytes[i] == frac[j] && frac[..j + 1] == frac[..j] + [frac[j]];
        var d := DigitOf(bytes[i]);
        if d > 9 {
          FractionNotDigits(bytes);
          return None;
        }
        j := j + 1;
        i := i + 1;
      }
    }
    if intDigits == 0 && fracDigits == 0 {
      NoDigits(bytes);
      return None;
    }
    assert frac[..|frac|] == frac;
    Assemble(bytes, intPart, fracPart, fracDigits);
    fracPart := fracPart * POW10[8 - fracDigits];
    var scaled :- CheckedMul(intPart, SCALE);
    var value :- CheckedAdd(scaled, fracPart);
    return Some(value);
  }

  // ---------------------------------------------------------------- display

  /** Decimal digits of a number without leading zeros. */
  function Digits(n: nat): (s: seq<byte>)
    ensures AllDigits(s) && |s| > 0
  {
    if n < 10 then [ZERO + n] else Digits(n / 10) + [ZERO + n % 10]
  }

  /** Exactly `k` digits, zero padded on the left (Rust's `{:0k}` on a number that fits). */
  function Padded(n: nat, k: nat): (s: seq<byte>)
    ensures AllDigits(s) && |s| == k
  {
    if k == 0 then [] else Padded(n / 10, k - 1) + [ZERO + n % 10]
  }

  /** `Display for FixedPoint`. */
  function Display(v: u64): seq<byte> {
    Digits(v / SCALE) + [DOT] + Padded(v % SCALE, 8)
  }

  lemma {:induction false} ValDigits(n: nat)
    ensures Val(Digits(n)) == n
  {
    if n >= 10 {
      ValDigits(n / 10);
      assert Digits(n)[..|Digits(n)| - 1] == Digits(n / 10);
    }
  }

  lemma {:induction false} ValPadded(n: nat, k: nat)
    requires n < Pow10(k)
    ensures Val(Padded(n, k)) == n
    decreases k
  {
    if k > 0 {
      ValPadded(n / 10, k - 1);
      assert Padded(n, k)[..k - 1] == Padded(n / 10, k - 1);
    }
  }

  /** Where a text of the form digits, dot, digits splits. */
  lemma {:induction false} SplitAtDot(whole: seq<byte>, frac: seq<byte>)
    requires AllDigits(whole)
    ensures Whole(whole + [DOT] + frac) == whole && Fraction(whole + [DOT] + frac) == frac
  {
    var s := whole + [DOT] + frac;
    assert s[|whole|] == DOT;
    assert forall i :: 0 <= i < |whole| ==> s[i] == whole[i] && IsDigit(s[i]);
    assert IndexFrom(s, DOT, 0) == |whole|;
  }

  /** `s` is the digits `w`, or `w`, a dot and the digits `f`, with at least one digit. */
  predicate Spelled(s: seq<byte>, w: seq<byte>, f: seq<byte>) {
    AllDigits(w) && AllDigits(f) && w + f != [] && (s == w + [46] + f || (s == w && f == []))
  }

  lemma {:induction false} NoDot(s: seq<byte>)
    requires AllDigits(s)
    ensures Whole(s) == s && Fraction(s) == []
  {
    assert IndexFrom(s, DOT, 0) == |s|;
  }

  lemma {:induction false} SpelledParts(s: seq<byte>, w: seq<byte>, f: seq<byte>)
    requires Spelled(s, w, f)
    ensures Whole(s) == w && Fraction(s) == f && IsDecimal(s)
  {
    hide IndexFrom;
    if s == w + [46] + f {
      SplitAtDot(w, f);
    } else {
      NoDot(s);
    }
  }

  lemma {:induction false} FloorBetween(n: nat, d: nat, v: nat)
    requires d > 0
    ensures FloorDiv(n, d) == v <==> v * d <= n < (v + 1) * d
  {
    MulDistributes(v, 1, d);
    if v * d <= n < (v + 1) * d {
      QuotientIs(n, d, v, n - v * d);
    }
  }

  /**
   * A spelled text denotes `v` if and only if `v` fits in 64 bits and is the floor of its value times
   * 10^8: the digits of `w` and `f` read as one number, over ten to the number of digits of `f`.
   */
  lemma {:induction false} DecodedSpelled(s: seq<byte>, w: seq<byte>, f: seq<byte>, v: nat)
    requires Spelled(s, w, f)
    ensures AllDigits(w + f)
    ensures Decoded(s) == Some(v)
       <==> v <= 0xFFFF_FFFF_FFFF_FFFF && v * Pow10(|f|) <= Val(w + f) * 100_000_000 < (v + 1) * Pow10(|f|)
  {
    hide FloorDiv, Val, Pow10, IndexFrom, Whole, Fraction, IsDecimal;
    SpelledParts(s, w, f);
    ValConcat(w, f);
    FloorBetween(Val(w + f) * 100_000_000, Pow10(|f|), v);
  }

  lemma {:induction false} NothingDenoted()
    ensures Decoded([]) == None && Decoded([46]) == None
  {
    NoDigits([]);
    assert IndexFrom([46], DOT, 0) == 0;
    NoDigits([46]);
  }

  /** Only spelled texts denote anything. */
  lemma {:induction false} DecodedIsSpelled(s: seq<byte>) returns (w: seq<byte>, f: seq<byte>)
    requires Decoded(s).Some?
    ensures Spelled(s, w, f)
  {
    hide IndexFrom, Whole, Fraction, FloorScaled;
    Parts(s);
    w, f := Whole(s), Fraction(s);
    assert if |w| < |s| then s == w + [46] + f else s == w;
  }

  /** Parsing the displayed form of any value gives that value back. */
  lemma {:induction false} DisplayParses(v: u64)
    ensures Decoded(Display(v)) == Some(v)
  {
    hide Val, Pow10, Digits, Padded, IndexFrom, FloorDiv, Whole, Fraction;
    var whole, frac := Digits(v / SCALE), Padded(v % SCALE, 8);
    SplitAtDot(whole, frac);
    PowTable(0);
    PowTable(8);
    ValDigits(v / SCALE);
    ValPadded(v % SCALE, 8);
    DecodedSplit(Display(v));
    assert frac[..8] == frac;
  }

  /** Leading zeros removed, down to the last digit; an empty whole part reads as zero. */
  function StripZeros(s: seq<byte>): seq<byte> {
    if s == [] then [ZERO]
    else if |s| > 1 && s[0] == ZERO then StripZeros(s[1..])
    else s
  }

  /** The fraction cut or padded to exactly eight digits. */
  function EightDigits(frac: seq<byte>): seq<byte> {
    if |frac| >= 8 then frac[..8] else frac + seq(8 - |frac|, _ => ZERO)
  }

  /** The canonical spelling of a decimal text. */
  function Canonical(s: seq<byte>): seq<byte> {
    StripZeros(Whole(s)) + [DOT] + EightDigits(Fraction(s))
  }

  lemma {:induction false} DigitsOfVal(s: seq<byte>)
    requires AllDigits(s) && |s| > 0 && (|s| == 1 || s[0] != ZERO)
    ensures Digits(Val(s)) == s
    ensures Val(s) == 0 ==> s == [ZERO]
    decreases |s|
  {
    var s' := s[..|s| - 1];
    assert s == s' + [s[|s| - 1]];
    if |s| == 1 {
      assert Val(s') == 0;
    } else {
      assert s'[0] == s[0];
      DigitsOfVal(s');
      assert Val(s') >= 1;
      assert Val(s) / 10 == Val(s') && Val(s) % 10 == s[|s| - 1] - 48;
    }
  }

  lemma {:induction false} DigitsStrip(s: seq<byte>)
    requires AllDigits(s)
    ensures Digits(Val(s)) == StripZeros(s)
    decreases |s|
  {
    if s == [] {
    } else if |s| > 1 && s[0] == ZERO {
      assert s == s[..1] + s[1..];
      ValConcat(s[..1], s[1..]);
      assert s[..1][..0] == [];
      assert Val(s[..1]) == 0;
      assert Val(s) == Val(s[1..]);
      DigitsStrip(s[1..]);
    } else {
      DigitsOfVal(s);
    }
  }

  lemma {:induction false} PaddedOfVal(s: seq<byte>)
    requires AllDigits(s)
    ensures Padded(Val(s), |s|) == s
    decreases |s|
  {
    if s != [] {
      var s' := s[..|s| - 1];
      PaddedOfVal(s');
      assert s == s' + [s[|s| - 1]];
      assert Val(s) / 10 == Val(s') && Val(s) % 10 == s[|s| - 1] - 48;
    }
  }

  lemma {:induction false} ValZeros(n: nat)
    ensures AllDigits(seq<byte>(n, _ => ZERO)) && Val(seq<byte>(n, _ => ZERO)) == 0
  {
    if n > 0 {
      ValZeros(n - 1);
      assert seq<byte>(n, _ => ZERO)[..n - 1] == seq<byte>(n - 1, _ => ZERO);
    }
  }

  lemma {:induction false} EightDigitsVal(frac: seq<byte>)
    requires AllDigits(frac)
    ensures var e := EightDigits(frac); var k := Significant(frac);
            AllDigits(e) && |e| == 8 && Val(e) == Val(frac[..k]) * Pow10(8 - k)
  {
    if |frac| < 8 {
      assert frac[..|frac|] == frac;
      ValZeros(8 - |frac|);
      ValConcat(frac, seq(8 - |frac|, _ => ZERO));
    }
  }

  /** Displaying a parsed text spells the eight-decimal truncation without leading zeros. */
  lemma {:induction false} ParseDisplays(s: seq<byte>)
    requires Decoded(s).Some?
    ensures Display(Decoded(s).value) == Canonical(s)
  {
    DecodedSplit(s);
    var whole, e := Whole(s), EightDigits(Fraction(s));
    EightDigitsVal(Fraction(s));
    ValBound(e);
    PowTable(8);
    var v := Decoded(s).value;
    assert v == Val(whole) * SCALE + Val(e);
    QuotientIs(v, SCALE, Val(whole), Val(e));
    assert v / SCALE == Val(whole) && v % SCALE == Val(e);
    DigitsStrip(whole);
    PaddedOfVal(e);
  }
}
