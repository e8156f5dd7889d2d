/** src/metrics.rs: the lazily cumulated latency histogram. */
module Metrics {
  import opened Prelude
  import FixedPoint
  import Layouts

  const NUM_BUCKETS: nat := 16

  /** Upper bounds in nanoseconds, 100ns to 100ms. */
  const BOUNDS: seq<nat> := [
    100, 500, 1_000, 5_000, 10_000, 25_000, 50_000, 100_000, 250_000, 500_000,
    1_000_000, 5_000_000, 10_000_000, 25_000_000, 50_000_000, 100_000_000]

  function Bound(i: nat): nat
    requires i < NUM_BUCKETS
  {
    BOUNDS[i]
  }

  /** What the rendered lines call the bounds, in seconds. */
  const LABELS: seq<string> := [
    "0.0000001", "0.0000005", "0.000001", "0.000005", "0.00001", "0.000025", "0.00005", "0.0001", "0.00025", "0.0005",
    "0.001", "0.005", "0.01", "0.025", "0.05", "0.1"]

  const WRAP: nat := U64_MAX + 1

  /** The first bucket whose bound is not below the value; the overflow slot when there is none. */
  function BucketFrom(nanos: nat, i: nat): (r: nat)
    requires i <= NUM_BUCKETS
    ensures i <= r <= NUM_BUCKETS
    ensures r < NUM_BUCKETS ==> nanos <= Bound(r)
    ensures forall k :: i <= k < r ==> nanos > Bound(k)
    decreases NUM_BUCKETS - i
  {
    if i == NUM_BUCKETS || nanos <= Bound(i) then i else BucketFrom(nanos, i + 1)
  }

  function BucketOf(nanos: nat): nat {
    BucketFrom(nanos, 0)
  }

  /** How many observations fall into one slot. */
  function InBucket(obs: seq<nat>, i: nat): (n: nat)
    ensures n <= |obs|
  {
    if obs == [] then 0
    else InBucket(obs[..|obs| - 1], i) + if BucketOf(obs[|obs| - 1]) == i then 1 else 0
  }

  /** How many observations are at most a bound: what a cumulative column promises. */
  function AtMost(obs: seq<nat>, bound: nat): (n: nat)
    ensures n <= |obs|
  {
    if obs == [] then 0
    else AtMost(obs[..|obs| - 1], bound) + if obs[|obs| - 1] <= bound then 1 else 0
  }

  /** The sum of the durations in nanoseconds, each cut to what 64 bits hold. */
  function Total(obs: seq<nat>): nat {
    if obs == [] then 0 else Total(obs[..|obs| - 1]) + Min(obs[|obs| - 1], U64_MAX)
  }

  /** The slots below `i`, added up. */
  function Cumulated(obs: seq<nat>, i: nat): nat {
    if i == 0 then 0 else Cumulated(obs, i - 1) + InBucket(obs, i - 1)
  }

  lemma {:induction false} BoundsRise(i: nat, j: nat)
    requires i <= j < NUM_BUCKETS
    ensures Bound(i) <= Bound(j)
    decreases j - i
  {
    if i < j {
      BoundsRise(i, j - 1);
    }
  }

  /** A value lies in one of the first slots exactly when it is within the last of their bounds. */
  lemma {:induction false} BucketWithin(nanos: nat, i: nat)
    requires i < NUM_BUCKETS
    ensures BucketOf(nanos) <= i <==> nanos <= Bound(i)
  {
    hide Bound;
    if BucketOf(nanos) <= i {
      BoundsRise(BucketOf(nanos), i);
    }
  }

  lemma {:induction false} CumulatedSnoc(obs: seq<nat>, x: nat, i: nat)
    requires i <= NUM_BUCKETS
    ensures Cumulated(obs + [x], i) == Cumulated(obs, i) + if BucketOf(x) < i then 1 else 0
    decreases i
  {
    hide BucketFrom;
    if i > 0 {
      CumulatedSnoc(obs, x, i - 1);
      assert (obs + [x])[..|obs|] == obs;
    }
  }

  lemma {:induction false} CumulatedNothing(i: nat)
    ensures Cumulated([], i) == 0
  {
    if i > 0 {
      CumulatedNothing(i - 1);
    }
  }

  /** Adding up the slots gives the cumulative count: the lazy sum is exact. */
  lemma {:induction false} CumulatedIsAtMost(obs: seq<nat>, i: nat)
    requires i < NUM_BUCKETS
    ensures Cumulated(obs, i + 1) == AtMost(obs, Bound(i))
    decreases |obs|
  {
    hide Bound, BucketFrom;
    if obs == [] {
      CumulatedNothing(i + 1);
    } else {
      var init, x := obs[..|obs| - 1], obs[|obs| - 1];
      assert obs == init + [x];
      CumulatedSnoc(init, x, i + 1);
      CumulatedIsAtMost(init, i);
      BucketWithin(x, i);
    }
  }

  lemma {:induction false} WrapMultiple(q: nat, x: nat)
    ensures (q * WRAP + x) % WRAP == x % WRAP
  {
    if q > 0 {
      WrapMultiple(q - 1, x);
      assert (q * WRAP + x) == ((q - 1) * WRAP + x) + WRAP;
    }
  }

  lemma {:induction false} WrapAdd(a: nat, b: nat)
    ensures (a + b) % WRAP == (a % WRAP + b) % WRAP
  {
    assert a + b == (a / WRAP) * WRAP + (a % WRAP + b);
    WrapMultiple(a / WRAP, a % WRAP + b);
  }

  /** What one more observation changes. */
  lemma {:induction false} RecordedOnce(obs: seq<nat>, x: nat)
    ensures forall i :: InBucket(obs + [x], i) == InBucket(obs, i) + if BucketOf(x) == i then 1 else 0
    ensures Total(obs + [x]) % WRAP == (Total(obs) % WRAP + Min(x, U64_MAX)) % WRAP
  {
    hide BucketFrom;
    assert (obs + [x])[..|obs|] == obs;
    WrapAdd(Total(obs), Min(x, U64_MAX));
  }

  /** The total of a longer history: the durations add up, none counting for more than 64 bits hold. */
  lemma {:induction false} TotalIs(obs: seq<nat>, x: nat)
    ensures Total([]) == 0
    ensures Total(obs + [x]) == Total(obs) + if x <= 0xFFFF_FFFF_FFFF_FFFF then x else 0xFFFF_FFFF_FFFF_FFFF
  {
    assert (obs + [x])[..|obs|] == obs;
  }

  /** The count within a bound is the number of the observations at most that bound. */
  lemma {:induction false} AtMostIs(obs: seq<nat>, bound: nat)
    ensures AtMost(obs, bound) == |set k | 0 <= k < |obs| && obs[k] <= bound|
    decreases |obs|
  {
    var all := set k | 0 <= k < |obs| && obs[k] <= bound;
    if obs == [] {
      assert all == {};
    } else {
      var init, last := obs[..|obs| - 1], |obs| - 1;
      AtMostIs(init, bound);
      var rest := set k | 0 <= k < |init| && init[k] <= bound;
      assert all == rest + if obs[last] <= bound then {last} else {};
      assert last !in rest;
    }
  }

  lemma {:induction false} LastBound()
    ensures Bound(NUM_BUCKETS - 1) == 100_000_000
  {
  }

  lemma {:induction false} Overflows(nanos: nat)
    requires nanos > 100_000_000
    ensures BucketOf(nanos) == NUM_BUCKETS
  {
    hide Bound;
    if BucketOf(nanos) < NUM_BUCKETS {
      BoundsRise(BucketOf(nanos), NUM_BUCKETS - 1);
      LastBound();
    }
  }

  /** `u64::try_from(nanos).unwrap_or(u64::MAX)`. */
  function Saturate(nanos: nat): u64 {
    if nanos <= U64_MAX then nanos else U64_MAX
  }

  /** Saturation cannot show in the columns: every bound is far below what 64 bits hold. */
  lemma {:induction false} SaturatedBucket(duration: nat)
    ensures BucketOf(Saturate(duration)) == BucketOf(duration)
  {
    hide BucketFrom;
    if duration > U64_MAX {
      Overflows(duration);
      Overflows(U64_MAX);
    }
  }

  class PromHistogram {
    const buckets: array<u64>
    var sumNs: u64
    var count: u64
    /** The durations recorded, in nanoseconds. */
    ghost var obs: seq<nat>

    ghost predicate Valid()
      reads this, buckets
    {
      && buckets.Length == NUM_BUCKETS + 1
      && |obs| <= U64_MAX
      && (forall i :: 0 <= i <= NUM_BUCKETS ==> buckets[i] == InBucket(obs, i))
      && sumNs == Total(obs) % WRAP
      && count == |obs|
    }

    constructor ()
      ensures Valid() && obs == [] && fresh(buckets)
    {
      buckets := new u64[NUM_BUCKETS + 1](_ => 0);
      sumNs, count := 0, 0;
      obs := [];
    }

    /** Finds the slot by linear scan and increments it, the wrapping sum and the count. */
    method Record(duration: nat)
      requires Valid() && |obs| < U64_MAX
      modifies this, buckets
      ensures Valid() && obs == old(obs) + [duration]
    {
      hide InBucket, Total, BucketOf;
      var nanos := Saturate(duration);
      var idx := FindBucket(nanos);
      SaturatedBucket(duration);
      RecordedOnce(obs, duration);
      Increment(idx);
      sumNs := (sumNs + nanos) % WRAP;
      count := count + 1;
      obs := obs + [duration];
    }

    /** The scan of `record`. */
    static method FindBucket(nanos: nat) returns (idx: nat)
      ensures idx == BucketOf(nanos) && idx <= NUM_BUCKETS
    {
      idx := NUM_BUCKETS;
      for i := 0 to NUM_BUCKETS
        invariant idx == NUM_BUCKETS && BucketFrom(nanos, i) == BucketOf(nanos)
      {
        if nanos <= Bound(i) {
          idx := i;
          break;
        }
      }
    }

    method Increment(idx: nat)
      requires Valid() && idx <= NUM_BUCKETS && |obs| < U64_MAX
      modifies buckets
      ensures forall i :: 0 <= i <= NUM_BUCKETS ==> buckets[i] == InBucket(obs, i) + if i == idx then 1 else 0
    {
      buckets[idx] := buckets[idx] + 1;
    }

    /** Each column is the number of observations within its bound, the last one all of them. */
    method Render() returns (columns: seq<nat>, total: nat, sum: nat)
      requires Valid()
      ensures |columns| == NUM_BUCKETS
      ensures forall i :: 0 <= i < NUM_BUCKETS ==> columns[i] == |set k | 0 <= k < |obs| && obs[k] <= Bound(i)|
      ensures total == |obs| && sum == Total(obs) % WRAP
    {
      hide InBucket, AtMost, Total, Bound;
      var cumulative: u64 := 0;
      columns := [];
      for i := 0 to NUM_BUCKETS
        invariant |columns| == i && cumulative == Cumulated(obs, i)
        invariant forall k :: 0 <= k < i ==> columns[k] == AtMost(obs, Bound(k))
      {
        CumulatedIsAtMost(obs, i);
        cumulative := cumulative + buckets[i];
        columns := columns + [cumulative];
      }
      total := count;
      sum := sumNs;
      forall i | 0 <= i < NUM_BUCKETS
        ensures columns[i] == |set k | 0 <= k < |obs| && obs[k] <= Bound(i)|
      {
        AtMostIs(obs, Bound(i));
      }
    }
  }

  // ---------------------------------------------------------------- labels

  lemma {:induction false} ZeroVal()
    ensures Val([48]) == 0
  {
    assert [48][..0] == [];
  }

  /** `0.`, some zeros and the digits `d` denote the number `d` at its decimal place. */
  lemma {:induction false} SmallDecimal(zeros: nat, d: seq<byte>, v: u64)
    requires AllDigits(d) && d != [] && zeros + |d| <= 8 && v == Val(d) * Pow10(8 - zeros - |d|)
    ensures FixedPoint.Decoded([48, 46] + (seq(zeros, _ => ZERO) + d)) == Some(v)
  {
    hide Val, Pow10, FixedPoint.Decoded;
    var f := seq<byte>(zeros, _ => ZERO) + d;
    FixedPoint.ValZeros(zeros);
    ValConcat(seq(zeros, _ => ZERO), d);
    ValConcat([48], f);
    FixedPoint.ValDigits(0);
    ZeroVal();
    FixedPoint.PowTable(8);
    PowAdd(8 - zeros - |d|, |f|);
    MulAssociates(Val(d), Pow10(8 - zeros - |d|), Pow10(|f|));
    MulDistributes(v, 1, Pow10(|f|));
    assert [48] + [46] + f == [48, 46] + f;
    FixedPoint.DecodedSpelled([48, 46] + f, [48], f, v);
  }

  lemma {:induction false} SmallVals()
    ensures Val([49]) == 1 && Val([53]) == 5 && Val([50, 53]) == 25
    ensures Pow10(0) == 1 && Pow10(1) == 10 && Pow10(2) == 100 && Pow10(3) == 1_000
    ensures Pow10(4) == 10_000 && Pow10(5) == 100_000 && Pow10(6) == 1_000_000 && Pow10(7) == 10_000_000
  {
    assert [49][..0] == [] && [53][..0] == [] && [50][..0] == [] && [50, 53][..1] == [50];
    assert Val([50]) == 2;
    assert Pow10(3) == 1_000;
    assert Pow10(5) == 100_000;
  }

  lemma {:induction false} Label0()
    ensures FixedPoint.Decoded(Layouts.Ascii("0.0000001")) == Some(10)
  {
    hide Val, Pow10, FixedPoint.Decoded;
    SmallVals();
    SmallDecimal(6, [49], 10);
    assert Layouts.Ascii("0.0000001") == [48, 46] + (seq(6, _ => ZERO) + [49]);
  }

  lemma {:induction false} Label1()
    ensures FixedPoint.Decoded(Layouts.Ascii("0.0000005")) == Some(50)
  {
    hide Val, Pow10, FixedPoint.Decoded;
    SmallVals();
    SmallDecimal(6, [53], 50);
    assert Layouts.Ascii("0.0000005") == [48, 46] + (seq(6, _ => ZERO) + [53]);
  }

  lemma {:induction false} Label2()
    ensures FixedPoint.Decoded(Layouts.Ascii("0.000001")) == Some(100)
  {
    hide Val, Pow10, FixedPoint.Decoded;
    SmallVals();
    SmallDecimal(5, [49], 100);
    assert Layouts.Ascii("0.000001") == [48, 46] + (seq(5, _ => ZERO) + [49]);
  }

  lemma {:induction false} Label3()
    ensures FixedPoint.Decoded(Layouts.Ascii("0.000005")) == Some(500)
  {
    hide Val, Pow10, FixedPoint.Decoded;
    SmallVals();
    SmallDecimal(5, [53], 500);
    assert Layouts.Ascii("0.000005") == [48, 46] + (seq(5, _ => ZERO) + [53]);
  }

  lemma {:induction false} Label4()
    ensures FixedPoint.Decoded(Layouts.Ascii("0.00001")) == Some(1000)
  {
    hide Val, Pow10, FixedPoint.Decoded;
    SmallVals();
    SmallDecimal(4, [49], 1000);
    assert Layouts.Ascii("0.00001") == [48, 46] + (seq(4, _ => ZERO) + [49]);
  }

  lemma {:induction false} Label5()
    ensures FixedPoint.Decoded(Layouts.Ascii("0.000025")) == Some(2500)
  {
    hide Val, Pow10, FixedPoint.Decoded;
    SmallVals();
    SmallDecimal(4, [50, 53], 2500);
    assert Layouts.Ascii("0.000025") == [48, 46] + (seq(4, _ => ZERO) + [50, 53]);
  }

  lemma {:induction false} Label6()
    ensures FixedPoint.Decoded(Layouts.Ascii("0.00005")) == Some(5000)
  {
    hide Val, Pow10, FixedPoint.Decoded;
    SmallVals();
    SmallDecimal(4, [53], 5000);
    assert Layouts.Ascii("0.00005") == [48, 46] + (seq(4, _ => ZERO) + [53]);
  }

  lemma {:induction false} Label7()
    ensures FixedPoint.Decoded(Layouts.Ascii("0.0001")) == Some(10000)
  {
    hide Val, Pow10, FixedPoint.Decoded;
    SmallVals();
    SmallDecimal(3, [49], 10000);
    assert Layouts.Ascii("0.0001") == [48, 46] + (seq(3, _ => ZERO) + [49]);
  }

  lemma {:induction false} Label8()
    ensures FixedPoint.Decoded(Layouts.Ascii("0.00025")) == Some(25000)
  {
    hide Val, Pow10, FixedPoint.Decoded;
    SmallVals();
    SmallDecimal(3, [50, 53], 25000);
    assert Layouts.Ascii("0.00025") == [48, 46] + (seq(3, _ => ZERO) + [50, 53]);
  }

  lemma {:induction false} Label9()
    ensures FixedPoint.Decoded(Layouts.Ascii("0.0005")) == Some(50000)
  {
    hide Val, Pow10, FixedPoint.Decoded;
    SmallVals();
    SmallDecimal(3, [53], 50000);
    assert Layouts.Ascii("0.0005") == [48, 46] + (seq(3, _ => ZERO) + [53]);
  }

  lemma {:induction false} Label10()
    ensures FixedPoint.Decoded(Layouts.Ascii("0.001")) == Some(100000)
  {
    hide Val, Pow10, FixedPoint.Decoded;
    SmallVals();
    SmallDecimal(2, [49], 100000);
    assert Layouts.Ascii("0.001") == [48, 46] + (seq(2, _ => ZERO) + [49]);
  }

  lemma {:induction false} Label11()
    ensures FixedPoint.Decoded(Layouts.Ascii("0.005")) == Some(500000)
  {
    hide Val, Pow10, FixedPoint.Decoded;
    SmallVals();
    SmallDecimal(2, [53], 500000);
    assert Layouts.Ascii("0.005") == [48, 46] + (seq(2, _ => ZERO) + [53]);
  }

  lemma {:induction false} Label12()
    ensures FixedPoint.Decoded(Layouts.Ascii("0.01")) == Some(1000000)
  {
    hide Val, Pow10, FixedPoint.Decoded;
    SmallVals();
    SmallDecimal(1, [49], 1000000);
    assert Layouts.Ascii("0.01") == [48, 46] + (seq(1, _ => ZERO) + [49]);
  }

  lemma {:induction false} Label13()
    ensures FixedPoint.Decoded(Layouts.Ascii("0.025")) == Some(2500000)
  {
    hide Val, Pow10, FixedPoint.Decoded;
    SmallVals();
    SmallDecimal(1, [50, 53], 2500000);
    assert Layouts.Ascii("0.025") == [48, 46] + (seq(1, _ => ZERO) + [50, 53]);
  }

  lemma {:induction false} Label14()
    ensures FixedPoint.Decoded(Layouts.Ascii("0.05")) == Some(5000000)
  {
    hide Val, Pow10, FixedPoint.Decoded;
    SmallVals();
    SmallDecimal(1, [53], 5000000);
    assert Layouts.Ascii("0.05") == [48, 46] + (seq(1, _ => ZERO) + [53]);
  }

  lemma {:induction false} Label15()
    ensures FixedPoint.Decoded(Layouts.Ascii("0.1")) == Some(10000000)
  {
    hide Val, Pow10, FixedPoint.Decoded;
    SmallVals();
    SmallDecimal(0, [49], 10000000);
    assert Layouts.Ascii("0.1") == [48, 46] + (seq(0, _ => ZERO) + [49]);
  }

  /** Every label, read as a decimal number of seconds, is the bound it labels: ten nanoseconds a unit. */
  lemma {:induction false} LabelsAgree(i: nat)
    requires i < NUM_BUCKETS
    ensures |LABELS| == NUM_BUCKETS
    ensures var v := FixedPoint.Decoded(Layouts.Ascii(LABELS[i])); v.Some? && v.value * 10 == Bound(i)
  {
    hide FixedPoint.Decoded, Layouts.Ascii;
    if i == 0 {
      Label0();
    } else if i == 1 {
      Label1();
    } else if i == 2 {
      Label2();
    } else if i == 3 {
      Label3();
    } else if i == 4 {
      Label4();
    } else if i == 5 {
      Label5();
    } else if i == 6 {
      Label6();
    } else if i == 7 {
      Label7();
    } else if i == 8 {
      Label8();
    } else if i == 9 {
      Label9();
    } else if i == 10 {
      Label10();
    } else if i == 11 {
      Label11();
    } else if i == 12 {
      Label12();
    } else if i == 13 {
      Label13();
    } else if i == 14 {
      Label14();
    } else {
      Label15();
    }
  }

  // ---------------------------------------------------------------- one recorder, one render

  datatype Recorder =
    | Idle
    /** The slot has been incremented, the sum has not. */
    | SlotDone(nanos: nat)
    | SumDone

  datatype Renderer =
    | Waiting
    /** `columns` rendered so far; `before` is what had been recorded when rendering began. */
    | Scanning(columns: seq<nat>, cumulative: nat, before: nat)
    | Counted(columns: seq<nat>, total: nat, before: nat)
    /** `summed` is how many observations the sum that was read contains. */
    | Rendered(columns: seq<nat>, total: nat, sum: nat, summed: nat, before: nat)

  /** The shared counters, both threads, and every observation whose slot was incremented. */
  datatype Shared = Shared(
    buckets: seq<nat>, sumNs: nat, count: nat, obs: seq<nat>, recorder: Recorder, renderer: Renderer)

  datatype Step =
    | AddSlot(nanos: nat)
    | AddSum
    | AddCount
    | BeginRender
    | LoadSlot
    | LoadCount
    | LoadSum

  function Start(): Shared {
    Shared(seq(NUM_BUCKETS + 1, _ => 0), 0, 0, [], Idle, Waiting)
  }

  ghost predicate Enabled(s: Shared, step: Step) {
    match step
    case AddSlot(_) => s.recorder.Idle?
    case AddSum => s.recorder.SlotDone?
    case AddCount => s.recorder.SumDone?
    case BeginRender => s.renderer.Waiting? || s.renderer.Rendered?
    case LoadSlot => s.renderer.Scanning? && |s.renderer.columns| < NUM_BUCKETS
    case LoadCount => s.renderer.Scanning? && |s.renderer.columns| == NUM_BUCKETS
    case LoadSum => s.renderer.Counted?
  }

  /** How many observations have been added to the sum. */
  function SummedUp(s: Shared): (n: nat)
    ensures n <= |s.obs|
  {
    if s.recorder.SlotDone? && s.obs != [] then |s.obs| - 1 else |s.obs|
  }

  function Next(s: Shared, step: Step): Shared
    requires |s.buckets| == NUM_BUCKETS + 1 && Enabled(s, step)
  {
    match step
    case AddSlot(nanos) =>
      var i := BucketOf(nanos);
      s.(buckets := s.buckets[i := s.buckets[i] + 1], obs := s.obs + [nanos], recorder := SlotDone(nanos))
    case AddSum => s.(sumNs := (s.sumNs + Saturate(s.recorder.nanos)) % WRAP, recorder := SumDone)
    case AddCount => s.(count := s.count + 1, recorder := Idle)
    case BeginRender => s.(renderer := Scanning([], 0, |s.obs|))
    case LoadSlot =>
      var r := s.renderer;
      var cumulative := r.cumulative + s.buckets[|r.columns|];
      s.(renderer := Scanning(r.columns + [cumulative], cumulative, r.before))
    case LoadCount => s.(renderer := Counted(s.renderer.columns, s.count, s.renderer.before))
    case LoadSum =>
      var r := s.renderer;
      s.(renderer := Rendered(r.columns, r.total, s.sumNs, SummedUp(s), r.before))
  }

  /** A column lies between what was recorded when rendering began and what is recorded now. */
  ghost predicate Between(obs: seq<nat>, before: nat, columns: seq<nat>) {
    && before <= |obs| && |columns| <= NUM_BUCKETS
    && (forall i :: 0 <= i < |columns| ==> Cumulated(obs[..before], i + 1) <= columns[i] <= Cumulated(obs, i + 1))
    && (forall i, j :: 0 <= i <= j < |columns| ==> columns[i] <= columns[j])
  }

  /** What a render has read, at or after its last column. */
  ghost predicate Complete(obs: seq<nat>, columns: seq<nat>, total: nat, before: nat) {
    && Between(obs, before, columns) && |columns| == NUM_BUCKETS
    && before <= total + 1 && total <= |obs| && columns[NUM_BUCKETS - 1] <= total + 1
  }

  ghost predicate Inv(s: Shared) {
    && |s.buckets| == NUM_BUCKETS + 1
    && (forall i :: 0 <= i <= NUM_BUCKETS ==> s.buckets[i] == InBucket(s.obs, i))
    && |s.obs| == s.count + (if s.recorder.Idle? then 0 else 1)
    && (s.recorder.SlotDone? ==> s.obs != [] && s.recorder.nanos == s.obs[|s.obs| - 1])
    && s.sumNs == Total(s.obs[..SummedUp(s)]) % WRAP
    && match s.renderer
       case Waiting => true
       case Scanning(columns, cumulative, before) =>
         Between(s.obs, before, columns) && cumulative == (if columns == [] then 0 else columns[|columns| - 1])
       case Counted(columns, total, before) => Complete(s.obs, columns, total, before) && total <= s.count
       case Rendered(columns, total, sum, summed, before) =>
         && Complete(s.obs, columns, total, before)
         && total <= summed <= |s.obs| && sum == Total(s.obs[..summed]) % WRAP
  }

  lemma {:induction false} InBucketGrows(obs: seq<nat>, k: nat, i: nat)
    requires k <= |obs|
    ensures InBucket(obs[..k], i) <= InBucket(obs, i)
    decreases |obs|
  {
    if k < |obs| {
      InBucketGrows(obs[..|obs| - 1], k, i);
      assert obs[..|obs| - 1][..k] == obs[..k];
    } else {
      assert obs[..k] == obs;
    }
  }

  /** All slots together hold no more than all observations. */
  lemma {:induction false} CumulatedWithinAll(obs: seq<nat>)
    ensures Cumulated(obs, NUM_BUCKETS) <= |obs|
  {
    CumulatedIsAtMost(obs, NUM_BUCKETS - 1);
  }

  lemma {:induction false} BetweenGrows(obs: seq<nat>, x: nat, before: nat, columns: seq<nat>)
    requires Between(obs, before, columns)
    ensures Between(obs + [x], before, columns)
  {
    hide Cumulated, BucketFrom;
    assert (obs + [x])[..before] == obs[..before];
    forall i | 0 <= i < |columns|
      ensures columns[i] <= Cumulated(obs + [x], i + 1)
    {
      CumulatedSnoc(obs, x, i + 1);
    }
  }

  lemma {:induction false} BetweenNext(obs: seq<nat>, before: nat, columns: seq<nat>)
    requires Between(obs, before, columns) && |columns| < NUM_BUCKETS
    ensures var c := (if columns == [] then 0 else columns[|columns| - 1]) + InBucket(obs, |columns|);
            Between(obs, before, columns + [c])
  {
    hide InBucket;
    var k := |columns|;
    InBucketGrows(obs, before, k);
    assert Cumulated(obs, k + 1) == Cumulated(obs, k) + InBucket(obs, k);
    assert Cumulated(obs[..before], k + 1) == Cumulated(obs[..before], k) + InBucket(obs[..before], k);
  }

  lemma {:induction false} BetweenStart(obs: seq<nat>)
    ensures Between(obs, |obs|, [])
  {
  }

  lemma {:induction false} BetweenEnd(obs: seq<nat>, before: nat, columns: seq<nat>)
    requires Between(obs, before, columns) && |columns| == NUM_BUCKETS
    ensures before <= |obs| && columns[NUM_BUCKETS - 1] <= |obs|
  {
    CumulatedWithinAll(obs);
  }

  lemma {:induction false} InvAddSlot(s: Shared, nanos: nat)
    requires Inv(s) && s.recorder.Idle?
    ensures Inv(Next(s, AddSlot(nanos)))
  {
    hide Between, BucketFrom, Total;
    var obs := s.obs + [nanos];
    assert obs[..|s.obs|] == s.obs == s.obs[..|s.obs|];
    match s.renderer
    case Waiting =>
    case Scanning(columns, _, before) => BetweenGrows(s.obs, nanos, before, columns);
    case Counted(columns, _, before) => BetweenGrows(s.obs, nanos, before, columns);
    case Rendered(columns, _, _, summed, before) =>
      BetweenGrows(s.obs, nanos, before, columns);
      assert obs[..summed] == s.obs[..summed];
  }

  lemma {:induction false} InvAddSum(s: Shared)
    requires Inv(s) && s.recorder.SlotDone?
    ensures Inv(Next(s, AddSum))
  {
    hide Between, InBucket, Total;
    var init, last := s.obs[..|s.obs| - 1], s.obs[|s.obs| - 1];
    assert s.obs == init + [last] == s.obs[..|s.obs|];
    RecordedOnce(init, last);
  }

  lemma {:induction false} InvLoad(s: Shared, step: Step)
    requires Inv(s) && Enabled(s, step) && (step.LoadSlot? || step.LoadCount?)
    ensures Inv(Next(s, step))
  {
    hide Between, InBucket;
    if step.LoadSlot? {
      BetweenNext(s.obs, s.renderer.before, s.renderer.columns);
    } else {
      BetweenEnd(s.obs, s.renderer.before, s.renderer.columns);
    }
  }

  lemma {:induction false} InvOther(s: Shared, step: Step)
    requires Inv(s) && Enabled(s, step) && !step.AddSlot? && !step.AddSum? && !step.LoadSlot? && !step.LoadCount?
    ensures Inv(Next(s, step))
  {
    hide Between, InBucket, Total;
    BetweenStart(s.obs);
  }

  lemma {:induction false} InvStep(s: Shared, step: Step)
    requires Inv(s) && Enabled(s, step)
    ensures Inv(Next(s, step))
  {
    hide Inv, Next;
    match step
    case AddSlot(nanos) => InvAddSlot(s, nanos);
    case AddSum => InvAddSum(s);
    case LoadSlot => InvLoad(s, step);
    case LoadCount => InvLoad(s, step);
    case _ => InvOther(s, step);
  }

  ghost function Run(steps: seq<Step>): (r: Option<Shared>)
    ensures r.Some? ==> |r.value.buckets| == NUM_BUCKETS + 1
  {
    if steps == [] then Some(Start())
    else
      var s :- Run(steps[..|steps| - 1]);
      if Enabled(s, steps[|steps| - 1]) then Some(Next(s, steps[|steps| - 1])) else None
  }

  lemma {:induction false} StartInv()
    ensures Inv(Start())
  {
  }

  lemma {:induction false} RunInv(steps: seq<Step>)
    requires Run(steps).Some?
    ensures Inv(Run(steps).value)
    decreases |steps|
  {
    hide Inv, Next, Enabled;
    if steps == [] {
      StartInv();
    } else {
      RunInv(steps[..|steps| - 1]);
      InvStep(Run(steps[..|steps| - 1]).value, steps[|steps| - 1]);
    }
  }

  /**
   * A render that overlaps one recorder: its columns never decrease, each counts at least what had
   * been recorded within its bound when the render began and at most what is recorded now, the last
   * finite column exceeds the +Inf value by at most one, and the sum is that of at least as many
   * observations as the +Inf value counts.
   */
  lemma {:induction false} OverlappingRender(steps: seq<Step>)
    requires Run(steps).Some? && Run(steps).value.renderer.Rendered?
    ensures var s := Run(steps).value; var r := s.renderer;
            && |r.columns| == NUM_BUCKETS && r.before <= |s.obs|
            && (forall i, j :: 0 <= i <= j < NUM_BUCKETS ==> r.columns[i] <= r.columns[j])
            && (forall i :: 0 <= i < NUM_BUCKETS ==>
                  |set k | 0 <= k < r.before && s.obs[k] <= Bound(i)| <= r.columns[i]
                  <= |set k | 0 <= k < |s.obs| && s.obs[k] <= Bound(i)|)
            && r.columns[NUM_BUCKETS - 1] <= r.total + 1
            && r.before <= r.total + 1 && r.total <= |s.obs|
            && r.total <= r.summed <= |s.obs| && r.sum == Total(s.obs[..r.summed]) % WRAP
  {
    hide Run, Bound, AtMost, Cumulated, InBucket, Total;
    RunInv(steps);
    var s := Run(steps).value;
    forall i | 0 <= i < NUM_BUCKETS
      ensures |set k | 0 <= k < s.renderer.before && s.obs[k] <= Bound(i)| <= s.renderer.columns[i]
           <= |set k | 0 <= k < |s.obs| && s.obs[k] <= Bound(i)|
    {
      var early := s.obs[..s.renderer.before];
      CumulatedIsAtMost(early, i);
      CumulatedIsAtMost(s.obs, i);
      AtMostIs(early, Bound(i));
      AtMostIs(s.obs, Bound(i));
      assert (set k | 0 <= k < |early| && early[k] <= Bound(i)) == (set k | 0 <= k < s.renderer.before && s.obs[k] <= Bound(i));
    }
  }
}
