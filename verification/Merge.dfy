/** src/merger.rs: the k-way merge and the summary of a set of books. */
module Merge {
  import opened Prelude
  import opened JsonWalker
  import opened LevelArrays
  import opened Types

  // ---------------------------------------------------------------- order

  datatype Ordering = Less | Equal | Greater {
    function Then(other: Ordering): Ordering {
      if Equal? then other else this
    }
  }

  function Cmp(a: u64, b: u64): Ordering {
    if a < b then Less else if a == b then Equal else Greater
  }

  datatype Side = Bid | Ask

  /** Best first: highest bid or lowest ask, then the larger amount. */
  function Compare(side: Side, a: RawLevel, b: RawLevel): Ordering {
    match side
    case Bid => Cmp(b.price, a.price).Then(Cmp(b.amount, a.amount))
    case Ask => Cmp(a.price, b.price).Then(Cmp(b.amount, a.amount))
  }

  predicate Before(side: Side, a: RawLevel, b: RawLevel) {
    Compare(side, a, b).Less?
  }

  /** The comparator is a strict total order: only identical price and amount compare equal. */
  lemma {:induction false} TotalOrder(side: Side, a: RawLevel, b: RawLevel, c: RawLevel)
    ensures !Before(side, a, a)
    ensures Before(side, a, b) ==> !Before(side, b, a)
    ensures !Before(side, a, b) && !Before(side, b, a) ==> a == b
    ensures Before(side, a, b) && Before(side, b, c) ==> Before(side, a, c)
    ensures !Before(side, b, a) && !Before(side, c, b) ==> !Before(side, c, a)
  {
  }

  predicate SortedLevels(side: Side, s: seq<RawLevel>) {
    forall i, j :: 0 <= i < j < |s| ==> !Before(side, s[j], s[i])
  }

  // ---------------------------------------------------------------- merge

  datatype TaggedSlice = TaggedSlice(exchangeId: byte, levels: seq<RawLevel>)

  function Stamp(id: byte, raw: RawLevel): Level {
    Level(raw.price, raw.amount, id)
  }

  function Raw(l: Level): RawLevel {
    RawLevel(l.price, l.amount)
  }

  /** The first slice, among the first `k`, whose head no other head precedes. */
  function Best(side: Side, slices: seq<TaggedSlice>, k: nat): (r: Option<nat>)
    requires k <= |slices|
    ensures r.Some? ==> r.value < k && slices[r.value].levels != []
    ensures r.None? ==> forall i :: 0 <= i < k ==> slices[i].levels == []
  {
    if k == 0 then None
    else
      var b := Best(side, slices, k - 1);
      if slices[k - 1].levels == [] then b
      else if b.None? || Before(side, slices[k - 1].levels[0], slices[b.value].levels[0]) then Some(k - 1)
      else b
  }

  /** The slices once the head of slice `i` has been taken. */
  function Without(slices: seq<TaggedSlice>, i: nat): seq<TaggedSlice>
    requires i < |slices| && slices[i].levels != []
  {
    slices[i := slices[i].(levels := slices[i].levels[1..])]
  }

  /** Take the best head `n` times, or until nothing is left. */
  function Merged(side: Side, slices: seq<TaggedSlice>, n: nat): (r: seq<Level>)
    ensures |r| <= n
    decreases n
  {
    if n == 0 then []
    else
      match Best(side, slices, |slices|)
      case None => []
      case Some(i) => [Stamp(slices[i].exchangeId, slices[i].levels[0])] + Merged(side, Without(slices, i), n - 1)
  }

  ghost predicate InRange(slices: seq<TaggedSlice>, cursors: seq<nat>) {
    |slices| <= |cursors| && forall i :: 0 <= i < |slices| ==> cursors[i] <= |slices[i].levels|
  }

  /** What is left of each slice behind its cursor. */
  ghost function Rest(slices: seq<TaggedSlice>, cursors: seq<nat>): (r: seq<TaggedSlice>)
    requires InRange(slices, cursors)
    ensures |r| == |slices|
  {
    seq(|slices|, i requires 0 <= i < |slices| => TaggedSlice(slices[i].exchangeId, slices[i].levels[cursors[i]..]))
  }

  lemma {:induction false} MergedUnfold(side: Side, slices: seq<TaggedSlice>, n: nat)
    ensures n == 0 ==> Merged(side, slices, n) == []
    ensures n > 0 ==>
              match Best(side, slices, |slices|)
              case None => Merged(side, slices, n) == []
              case Some(i) =>
                Merged(side, slices, n) == [Stamp(slices[i].exchangeId, slices[i].levels[0])] + Merged(side, Without(slices, i), n - 1)
  {
    hide Best;
  }

  lemma {:induction false} RestNext(slices: seq<TaggedSlice>, cursors: seq<nat>, i: nat)
    requires InRange(slices, cursors) && i < |slices| && cursors[i] < |slices[i].levels|
    ensures InRange(slices, cursors[i := cursors[i] + 1])
    ensures Rest(slices, cursors[i := cursors[i] + 1]) == Without(Rest(slices, cursors), i)
  {
    assert slices[i].levels[cursors[i]..][1..] == slices[i].levels[cursors[i] + 1..];
  }

  /** One push: the head behind cursor `i` moves from what is left to the result. */
  lemma {:induction false} MergeNext(
      side: Side, slices: seq<TaggedSlice>, cursors: seq<nat>, i: nat, left: nat, result: seq<Level>)
    requires InRange(slices, cursors) && left > 0
    requires Best(side, Rest(slices, cursors), |slices|) == Some(i)
    ensures i < |slices| && cursors[i] < |slices[i].levels|
    ensures var next := cursors[i := cursors[i] + 1]; var head := Stamp(slices[i].exchangeId, slices[i].levels[cursors[i]]);
            && InRange(slices, next)
            && result + Merged(side, Rest(slices, cursors), left)
               == result + [head] + Merged(side, Rest(slices, next), left - 1)
  {
    hide Best, Merged;
    var rest := Rest(slices, cursors);
    MergedUnfold(side, rest, left);
    assert rest[i].levels == slices[i].levels[cursors[i]..];
    RestNext(slices, cursors, i);
    assert result + ([Stamp(rest[i].exchangeId, rest[i].levels[0])] + Merged(side, Without(rest, i), left - 1))
        == result + [Stamp(rest[i].exchangeId, rest[i].levels[0])] + Merged(side, Without(rest, i), left - 1);
  }

  /** The inner loop over the heads behind the cursors. */
  method FindBest(side: Side, slices: seq<TaggedSlice>, cursors: array<nat>) returns (best: Option<nat>)
    requires InRange(slices, cursors[..])
    ensures best == Best(side, Rest(slices, cursors[..]), |slices|)
  {
    hide Before;
    ghost var rest := Rest(slices, cursors[..]);
    best := None;
    for i := 0 to |slices|
      invariant best == Best(side, rest, i)
    {
      assert rest[i].levels == slices[i].levels[cursors[i]..];
      if cursors[i] < |slices[i].levels| {
        match best
        case None => best := Some(i);
        case Some(b) =>
          assert rest[b].levels[0] == slices[b].levels[cursors[b]];
          if Before(side, slices[i].levels[cursors[i]], slices[b].levels[cursors[b]]) {
            best := Some(i);
          }
      }
    }
  }

  lemma {:induction false} RestStart(slices: seq<TaggedSlice>, cursors: seq<nat>)
    requires |slices| <= |cursors| && forall i :: 0 <= i < |cursors| ==> cursors[i] == 0
    ensures InRange(slices, cursors) && Rest(slices, cursors) == slices
  {
  }

  /** `merge_top_n`: the fixed cursor array holds MAX_EXCHANGES entries, the result DEPTH levels. */
  method MergeTopN(side: Side, slices: seq<TaggedSlice>, n: nat) returns (result: seq<Level>)
    requires |slices| <= MAX_EXCHANGES
    ensures result == Merged(side, slices, Min(n, DEPTH))
  {
    hide Before, Merged, Best, Rest, Without, InRange, Stamp;
    var k := |slices|;
    var cursors := new nat[MAX_EXCHANGES](_ => 0);
    result := [];
    RestStart(slices, cursors[..]);
    ghost var all := Merged(side, slices, Min(n, DEPTH));
    ghost var left: nat := Min(n, DEPTH);
    assert [] + all == all;
    for step := 0 to n
      invariant |result| == step && left + step == Min(n, DEPTH)
      invariant InRange(slices, cursors[..])
      invariant result + Merged(side, Rest(slices, cursors[..]), left) == all
    {
      ghost var was := cursors[..];
      var best := FindBest(side, slices, cursors);
      MergedUnfold(side, Rest(slices, was), left);
      if best.None? || |result| == DEPTH {
        assert result + [] == result;
        return;
      }
      var i := best.value;
      MergeNext(side, slices, was, i, left, result);
      var raw := slices[i].levels[cursors[i]];
      result := result + [Stamp(slices[i].exchangeId, raw)];
      cursors[i] := cursors[i] + 1;
      left := left - 1;
      assert cursors[..] == was[i := was[i] + 1];
    }
    MergedUnfold(side, Rest(slices, cursors[..]), left);
    assert result + [] == result;
  }

  // ---------------------------------------------------------------- stable sort

  function Tagged(s: TaggedSlice): (r: seq<Level>)
    ensures |r| == |s.levels|
  {
    seq(|s.levels|, i requires 0 <= i < |s.levels| => Stamp(s.exchangeId, s.levels[i]))
  }

  /** All slices one after the other, in slice order. */
  function Concat(slices: seq<TaggedSlice>): seq<Level> {
    if slices == [] then [] else Tagged(slices[0]) + Concat(slices[1..])
  }

  predicate Sorted(side: Side, s: seq<Level>) {
    forall i, j :: 0 <= i < j < |s| ==> !Before(side, Raw(s[j]), Raw(s[i]))
  }

  /** The levels that compare equal to `raw`, in order. */
  function Class(s: seq<Level>, raw: RawLevel): seq<Level> {
    if s == [] then [] else (if Raw(s[0]) == raw then [s[0]] else []) + Class(s[1..], raw)
  }

  /** Sorted, and the levels that compare equal are the same ones in the same order. */
  ghost predicate IsStableSort(side: Side, xs: seq<Level>, ys: seq<Level>) {
    Sorted(side, ys) && forall raw :: Class(ys, raw) == Class(xs, raw)
  }

  lemma {:induction false} ClassConcat(a: seq<Level>, b: seq<Level>, raw: RawLevel)
    ensures Class(a + b, raw) == Class(a, raw) + Class(b, raw)
    decreases |a|
  {
    if a == [] {
      assert a + b == b;
    } else {
      assert (a + b)[1..] == a[1..] + b;
      ClassConcat(a[1..], b, raw);
    }
  }

  lemma {:induction false} ClassEmpty(s: seq<Level>, raw: RawLevel)
    ensures Class(s, raw) == [] <==> forall i :: 0 <= i < |s| ==> Raw(s[i]) != raw
    decreases |s|
  {
    if s != [] {
      ClassEmpty(s[1..], raw);
      assert forall i :: 0 < i < |s| ==> s[i] == s[1..][i - 1];
    }
  }

  lemma {:induction false} ConcatSplit(slices: seq<TaggedSlice>, i: nat)
    requires i < |slices|
    ensures Concat(slices) == Concat(slices[..i]) + (Tagged(slices[i]) + Concat(slices[i + 1..]))
    decreases i
  {
    if i > 0 {
      ConcatSplit(slices[1..], i - 1);
      assert slices[1..][..i - 1] == slices[..i][1..];
      assert slices[1..][i..] == slices[i + 1..];
    }
  }

  /** Every concatenated level comes from a slice. */
  lemma {:induction false} ConcatMember(slices: seq<TaggedSlice>, p: nat) returns (j: nat, q: nat)
    requires p < |Concat(slices)|
    ensures j < |slices| && q < |slices[j].levels|
    ensures Concat(slices)[p] == Stamp(slices[j].exchangeId, slices[j].levels[q])
    decreases |slices|
  {
    if p < |slices[0].levels| {
      j, q := 0, p;
    } else {
      j, q := ConcatMember(slices[1..], p - |slices[0].levels|);
      j := j + 1;
    }
  }

  predicate AllSorted(side: Side, slices: seq<TaggedSlice>) {
    forall i :: 0 <= i < |slices| ==> SortedLevels(side, slices[i].levels)
  }

  /** No head precedes the best one, and the heads before it are strictly behind it. */
  lemma {:induction false} BestIsLeast(side: Side, slices: seq<TaggedSlice>, k: nat, j: nat)
    requires k <= |slices| && Best(side, slices, k).Some? && j < k && slices[j].levels != []
    ensures var h := slices[Best(side, slices, k).value].levels[0];
            && !Before(side, slices[j].levels[0], h)
            && (j < Best(side, slices, k).value ==> Before(side, h, slices[j].levels[0]))
    decreases k
  {
    var last := slices[k - 1].levels;
    if Best(side, slices, k - 1).Some? {
      var b := slices[Best(side, slices, k - 1).value].levels[0];
      if j < k - 1 {
        BestIsLeast(side, slices, k - 1, j);
        if last != [] { TotalOrder(side, last[0], b, slices[j].levels[0]); TotalOrder(side, b, slices[j].levels[0], last[0]); }
      }
      if last != [] { TotalOrder(side, last[0], b, b); }
    } else if last != [] {
      TotalOrder(side, last[0], last[0], last[0]);
    }
  }

  /** In sorted slices nothing at all precedes the best head. */
  lemma {:induction false} BestPrecedesAll(side: Side, slices: seq<TaggedSlice>, j: nat, q: nat)
    requires AllSorted(side, slices) && Best(side, slices, |slices|).Some?
    requires j < |slices| && q < |slices[j].levels|
    ensures var i := Best(side, slices, |slices|).value; var h := slices[i].levels[0];
            && !Before(side, slices[j].levels[q], h)
            && (j < i ==> slices[j].levels[q] != h)
  {
    hide Best, Before;
    BestIsLeast(side, slices, |slices|, j);
    var i := Best(side, slices, |slices|).value;
    var h, g, x := slices[i].levels[0], slices[j].levels[0], slices[j].levels[q];
    assert SortedLevels(side, slices[j].levels);
    TotalOrder(side, h, g, x);
    TotalOrder(side, h, g, h);
    TotalOrder(side, x, g, g);
    TotalOrder(side, x, g, h);
  }

  /** The concatenation with and without one head. */
  lemma {:induction false} ConcatAround(slices: seq<TaggedSlice>, i: nat) returns (rest: seq<Level>)
    requires i < |slices| && slices[i].levels != []
    ensures Concat(slices) == Concat(slices[..i]) + ([Stamp(slices[i].exchangeId, slices[i].levels[0])] + rest)
    ensures Concat(Without(slices, i)) == Concat(slices[..i]) + rest
  {
    hide Concat;
    var h, out := Stamp(slices[i].exchangeId, slices[i].levels[0]), Without(slices, i);
    ConcatSplit(slices, i);
    ConcatSplit(out, i);
    assert out[..i] == slices[..i] && out[i + 1..] == slices[i + 1..];
    rest := Tagged(out[i]) + Concat(slices[i + 1..]);
    assert Tagged(slices[i]) == [h] + Tagged(out[i]);
    assert Tagged(slices[i]) + Concat(slices[i + 1..]) == [h] + rest;
  }

  lemma {:induction false} ClassAround(pre: seq<Level>, h: Level, post: seq<Level>, raw: RawLevel)
    ensures Class(pre + ([h] + post), raw) == Class(pre, raw) + (if Raw(h) == raw then [h] else []) + Class(post, raw)
    ensures Class(pre + post, raw) == Class(pre, raw) + Class(post, raw)
    ensures Class(pre, raw) == [] ==> Class(pre, raw) + Class(post, raw) == Class(post, raw)
  {
    ClassConcat(pre, [h] + post, raw);
    ClassConcat(pre, post, raw);
    assert ([h] + post)[1..] == post;
  }

  lemma {:induction false} NotBeforeBest(side: Side, slices: seq<TaggedSlice>)
    requires AllSorted(side, slices) && Best(side, slices, |slices|).Some?
    ensures var i := Best(side, slices, |slices|).value;
            Class(Concat(slices[..i]), slices[i].levels[0]) == []
  {
    hide Best, Before;
    var i := Best(side, slices, |slices|).value;
    var pre := Concat(slices[..i]);
    forall p | 0 <= p < |pre|
      ensures Raw(pre[p]) != slices[i].levels[0]
    {
      var j, q := ConcatMember(slices[..i], p);
      BestPrecedesAll(side, slices, j, q);
    }
    ClassEmpty(pre, slices[i].levels[0]);
  }

  /** Taking the best head removes exactly the first level of its class from the concatenation. */
  lemma {:induction false} WithoutClass(side: Side, slices: seq<TaggedSlice>, raw: RawLevel)
    requires AllSorted(side, slices) && Best(side, slices, |slices|).Some?
    ensures var i := Best(side, slices, |slices|).value; var h := Stamp(slices[i].exchangeId, slices[i].levels[0]);
            Class(Concat(slices), raw) == (if Raw(h) == raw then [h] else []) + Class(Concat(Without(slices, i)), raw)
  {
    hide Best, Before, Concat, Class, Tagged, Without;
    var i := Best(side, slices, |slices|).value;
    var h := Stamp(slices[i].exchangeId, slices[i].levels[0]);
    var rest := ConcatAround(slices, i);
    ClassAround(Concat(slices[..i]), h, rest, raw);
    if Raw(h) == raw {
      NotBeforeBest(side, slices);
    }
  }

  lemma {:induction false} WithoutSorted(side: Side, slices: seq<TaggedSlice>, i: nat)
    requires i < |slices| && slices[i].levels != [] && AllSorted(side, slices)
    ensures AllSorted(side, Without(slices, i))
  {
    hide Before;
    assert SortedLevels(side, slices[i].levels);
  }

  /** The first of a sorted list is preceded by no class it contains. */
  lemma {:induction false} FirstIsLeast(side: Side, ys: seq<Level>, raw: RawLevel)
    requires Sorted(side, ys) && Class(ys, raw) != []
    ensures ys != [] && !Before(side, raw, Raw(ys[0]))
  {
    hide Before;
    ClassEmpty(ys, raw);
    var p :| 0 <= p < |ys| && Raw(ys[p]) == raw;
    if p == 0 {
      TotalOrder(side, raw, raw, raw);
    }
  }

  lemma {:induction false} StableMember(side: Side, xs: seq<Level>, ys: seq<Level>)
    requires IsStableSort(side, xs, ys) && ys != []
    ensures exists r :: 0 <= r < |xs| && Raw(xs[r]) == Raw(ys[0])
  {
    hide Before;
    ClassEmpty(ys, Raw(ys[0]));
    ClassEmpty(xs, Raw(ys[0]));
    assert Class(ys, Raw(ys[0])) == Class(xs, Raw(ys[0]));
  }

  /** A stable sort starts with the best head. */
  lemma {:induction false} SortStartsWithBest(side: Side, slices: seq<TaggedSlice>, ys: seq<Level>)
    requires AllSorted(side, slices) && IsStableSort(side, Concat(slices), ys)
    requires Best(side, slices, |slices|).Some?
    ensures var i := Best(side, slices, |slices|).value;
            ys != [] && ys[0] == Stamp(slices[i].exchangeId, slices[i].levels[0])
  {
    hide Best, Before;
    var xs, i := Concat(slices), Best(side, slices, |slices|).value;
    var h := Stamp(slices[i].exchangeId, slices[i].levels[0]);
    WithoutClass(side, slices, Raw(h));
    assert Class(ys, Raw(h)) == Class(xs, Raw(h));
    assert Class(ys, Raw(h)) != [] && Class(ys, Raw(h))[0] == h;
    FirstIsLeast(side, ys, Raw(h));
    StableMember(side, xs, ys);
    var r :| 0 <= r < |xs| && Raw(xs[r]) == Raw(ys[0]);
    var j, q := ConcatMember(slices, r);
    BestPrecedesAll(side, slices, j, q);
    TotalOrder(side, Raw(ys[0]), Raw(h), Raw(h));
  }

  lemma {:induction false} SameTail<T>(head: seq<T>, a: seq<T>, b: seq<T>)
    requires head + a == head + b
    ensures a == b
  {
    assert a == (head + a)[|head|..] && b == (head + b)[|head|..];
  }

  /** ... and its rest is a stable sort of what is left. */
  lemma {:induction false} SortTail(side: Side, slices: seq<TaggedSlice>, ys: seq<Level>)
    requires AllSorted(side, slices) && IsStableSort(side, Concat(slices), ys)
    requires Best(side, slices, |slices|).Some? && ys != []
    requires var i := Best(side, slices, |slices|).value; ys[0] == Stamp(slices[i].exchangeId, slices[i].levels[0])
    ensures IsStableSort(side, Concat(Without(slices, Best(side, slices, |slices|).value)), ys[1..])
  {
    hide Best, Before, Concat;
    var out := Without(slices, Best(side, slices, |slices|).value);
    forall raw
      ensures Class(ys[1..], raw) == Class(Concat(out), raw)
    {
      WithoutClass(side, slices, raw);
      assert Class(ys, raw) == Class(Concat(slices), raw);
      var head := if Raw(ys[0]) == raw then [ys[0]] else [];
      SameTail(head, Class(ys[1..], raw), Class(Concat(out), raw));
    }
  }

  lemma {:induction false} ConcatEmpty(slices: seq<TaggedSlice>)
    requires forall i :: 0 <= i < |slices| ==> slices[i].levels == []
    ensures Concat(slices) == []
    decreases |slices|
  {
    if slices != [] {
      ConcatEmpty(slices[1..]);
    }
  }

  lemma {:induction false} SortOfNothing(side: Side, ys: seq<Level>)
    requires IsStableSort(side, [], ys)
    ensures ys == []
  {
    var y := if ys == [] then RawLevel(0, 0) else Raw(ys[0]);
    assert Class(ys, y) == Class([], y);
  }

  /**
   * For slices sorted under the comparator, taking best heads yields the first `n` of the stable
   * sort of the slices concatenated in order: ties go to the earlier slice.
   */
  lemma {:induction false} MergeIsStableSort(side: Side, slices: seq<TaggedSlice>, n: nat, ys: seq<Level>)
    requires AllSorted(side, slices) && IsStableSort(side, Concat(slices), ys)
    ensures Merged(side, slices, n) == FirstN(ys, n)
    decreases n
  {
    hide Best, Before, AllSorted, IsStableSort, Concat, Merged, Without;
    MergedUnfold(side, slices, n);
    if n > 0 {
      match Best(side, slices, |slices|)
      case None =>
        ConcatEmpty(slices);
        SortOfNothing(side, ys);
      case Some(i) =>
        SortStartsWithBest(side, slices, ys);
        SortTail(side, slices, ys);
        WithoutSorted(side, slices, i);
        MergeIsStableSort(side, Without(slices, i), n - 1, ys[1..]);
        assert FirstN(ys, n) == [ys[0]] + FirstN(ys[1..], n - 1);
    }
  }

  // ---------------------------------------------------------------- a stable sort exists

  /** Insertion before the first level that does not precede it. */
  function Insert(side: Side, x: Level, ys: seq<Level>): seq<Level> {
    if ys == [] || !Before(side, Raw(ys[0]), Raw(x)) then [x] + ys
    else [ys[0]] + Insert(side, x, ys[1..])
  }

  function StableSort(side: Side, xs: seq<Level>): seq<Level> {
    if xs == [] then [] else Insert(side, xs[0], StableSort(side, xs[1..]))
  }

  lemma {:induction false} InsertClass(side: Side, x: Level, ys: seq<Level>, raw: RawLevel)
    ensures Class(Insert(side, x, ys), raw) == (if Raw(x) == raw then [x] else []) + Class(ys, raw)
    decreases |ys|
  {
    if ys == [] || !Before(side, Raw(ys[0]), Raw(x)) {
      assert ([x] + ys)[1..] == ys;
    } else {
      InsertClass(side, x, ys[1..], raw);
      assert ([ys[0]] + Insert(side, x, ys[1..]))[1..] == Insert(side, x, ys[1..]);
      TotalOrder(side, Raw(x), Raw(x), Raw(x));
    }
  }

  lemma {:induction false} InsertSorted(side: Side, x: Level, ys: seq<Level>)
    requires Sorted(side, ys)
    ensures Sorted(side, Insert(side, x, ys))
    ensures forall k :: 0 <= k < |Insert(side, x, ys)| ==> Insert(side, x, ys)[k] == x || Insert(side, x, ys)[k] in ys
    decreases |ys|
  {
    if ys == [] || !Before(side, Raw(ys[0]), Raw(x)) {
      var r := [x] + ys;
      forall i, j | 0 <= i < j < |r|
        ensures !Before(side, Raw(r[j]), Raw(r[i]))
      {
        if i == 0 { TotalOrder(side, Raw(x), Raw(ys[0]), Raw(r[j])); }
      }
    } else {
      InsertSorted(side, x, ys[1..]);
      var t := Insert(side, x, ys[1..]);
      forall j | 0 <= j < |t|
        ensures !Before(side, Raw(t[j]), Raw(ys[0]))
      {
        TotalOrder(side, Raw(ys[0]), Raw(x), Raw(x));
        assert t[j] == x || t[j] in ys[1..];
      }
    }
  }

  lemma {:induction false} StableSortIs(side: Side, xs: seq<Level>)
    ensures IsStableSort(side, xs, StableSort(side, xs))
    decreases |xs|
  {
    hide Before, Insert;
    if xs != [] {
      StableSortIs(side, xs[1..]);
      var ys := StableSort(side, xs[1..]);
      InsertSorted(side, xs[0], ys);
      forall raw
        ensures Class(StableSort(side, xs), raw) == Class(xs, raw)
      {
        InsertClass(side, xs[0], ys, raw);
      }
    }
  }

  lemma {:induction false} ClassCount(s: seq<Level>, x: Level)
    ensures multiset(s)[x] == multiset(Class(s, Raw(x)))[x]
    decreases |s|
  {
    if s != [] {
      assert s == [s[0]] + s[1..];
      ClassCount(s[1..], x);
    }
  }

  /** A stable sort is a permutation. */
  lemma {:induction false} StableSortPermutes(side: Side, xs: seq<Level>, ys: seq<Level>)
    requires IsStableSort(side, xs, ys)
    ensures multiset(xs) == multiset(ys)
  {
    forall x: Level
      ensures multiset(xs)[x] == multiset(ys)[x]
    {
      ClassCount(xs, x);
      ClassCount(ys, x);
      assert Class(ys, Raw(x)) == Class(xs, Raw(x));
    }
  }

  // ---------------------------------------------------------------- truncation

  /** Slices that agree on their first `n` levels. */
  predicate AgreeUpTo(a: seq<TaggedSlice>, b: seq<TaggedSlice>, n: nat) {
    && |a| == |b|
    && forall i :: 0 <= i < |a| ==> a[i].exchangeId == b[i].exchangeId && FirstN(a[i].levels, n) == FirstN(b[i].levels, n)
  }

  lemma {:induction false} HeadAgrees(a: seq<RawLevel>, b: seq<RawLevel>, n: nat)
    requires FirstN(a, n) == FirstN(b, n) && n > 0
    ensures a == [] <==> b == []
    ensures a != [] ==> a[0] == b[0] && FirstN(a[1..], n - 1) == FirstN(b[1..], n - 1)
  {
    if a != [] || b != [] {
      assert |FirstN(a, n)| > 0;
      assert FirstN(a, n)[0] == a[0] && FirstN(b, n)[0] == b[0];
      assert FirstN(a, n)[1..] == FirstN(a[1..], n - 1);
      assert FirstN(b, n)[1..] == FirstN(b[1..], n - 1);
    }
  }

  lemma {:induction false} BestAgrees(side: Side, a: seq<TaggedSlice>, b: seq<TaggedSlice>, n: nat, k: nat)
    requires AgreeUpTo(a, b, n) && n > 0 && k <= |a|
    ensures Best(side, a, k) == Best(side, b, k)
    ensures forall i :: 0 <= i < |a| ==>
              (a[i].levels == [] <==> b[i].levels == []) && (a[i].levels != [] ==> a[i].levels[0] == b[i].levels[0])
    decreases k
  {
    hide Before;
    forall i | 0 <= i < |a|
      ensures a[i].levels == [] <==> b[i].levels == []
      ensures a[i].levels != [] ==> a[i].levels[0] == b[i].levels[0]
    {
      HeadAgrees(a[i].levels, b[i].levels, n);
    }
    if k > 0 {
      BestAgrees(side, a, b, n, k - 1);
    }
  }

  lemma {:induction false} FirstNLess(s: seq<RawLevel>, n: nat)
    requires n > 0
    ensures FirstN(s, n - 1) == FirstN(FirstN(s, n), n - 1)
  {
  }

  lemma {:induction false} WithoutAgrees(a: seq<TaggedSlice>, b: seq<TaggedSlice>, n: nat, i: nat)
    requires AgreeUpTo(a, b, n) && n > 0 && i < |a| && a[i].levels != [] && b[i].levels != []
    ensures AgreeUpTo(Without(a, i), Without(b, i), n - 1)
  {
    HeadAgrees(a[i].levels, b[i].levels, n);
    forall j | 0 <= j < |a| && j != i
      ensures FirstN(a[j].levels, n - 1) == FirstN(b[j].levels, n - 1)
    {
      FirstNLess(a[j].levels, n);
      FirstNLess(b[j].levels, n);
    }
  }

  lemma {:induction false} AgreeSize(a: seq<TaggedSlice>, b: seq<TaggedSlice>, n: nat)
    requires AgreeUpTo(a, b, n)
    ensures |a| == |b| && forall i :: 0 <= i < |a| ==> a[i].exchangeId == b[i].exchangeId
  {
  }

  /** The first `n` merged levels depend on the first `n` of each slice only, sorted or not. */
  lemma {:induction false} MergeAgrees(side: Side, a: seq<TaggedSlice>, b: seq<TaggedSlice>, n: nat)
    requires AgreeUpTo(a, b, n)
    ensures Merged(side, a, n) == Merged(side, b, n)
    decreases n
  {
    hide Best, AgreeUpTo;
    if n > 0 {
      BestAgrees(side, a, b, n, |a|);
      AgreeSize(a, b, n);
      match Best(side, a, |a|)
      case None =>
      case Some(i) =>
        WithoutAgrees(a, b, n, i);
        MergeAgrees(side, Without(a, i), Without(b, i), n - 1);
    }
  }

  function Cut(slices: seq<TaggedSlice>, n: nat): (r: seq<TaggedSlice>)
    ensures |r| == |slices|
  {
    seq(|slices|, i requires 0 <= i < |slices| => slices[i].(levels := FirstN(slices[i].levels, n)))
  }

  /** Cutting each book to `n` levels before merging loses nothing of the merged top `n`. */
  lemma {:induction false} EarlyCutLosesNothing(side: Side, slices: seq<TaggedSlice>, n: nat)
    ensures Merged(side, Cut(slices, n), n) == Merged(side, slices, n)
  {
    assert forall i :: 0 <= i < |slices| ==> FirstN(FirstN(slices[i].levels, n), n) == FirstN(slices[i].levels, n);
    MergeAgrees(side, Cut(slices, n), slices, n);
  }

  // ---------------------------------------------------------------- what each exchange contributes

  function From(s: seq<Level>, id: byte): seq<Level> {
    if s == [] then [] else (if s[0].exchangeId == id then [s[0]] else []) + From(s[1..], id)
  }

  predicate DistinctIds(slices: seq<TaggedSlice>) {
    forall i, j :: 0 <= i < j < |slices| ==> slices[i].exchangeId != slices[j].exchangeId
  }

  /** Each exchange contributes a prefix of its own slice, in its own order. */
  lemma {:induction false} ContributesPrefix(side: Side, slices: seq<TaggedSlice>, n: nat, i: nat)
    requires DistinctIds(slices) && i < |slices|
    ensures From(Merged(side, slices, n), slices[i].exchangeId) <= Tagged(slices[i])
    decreases n
  {
    hide Best;
    MergedUnfold(side, slices, n);
    if n > 0 && Best(side, slices, |slices|).Some? {
      var b := Best(side, slices, |slices|).value;
      var head, out := Stamp(slices[b].exchangeId, slices[b].levels[0]), Without(slices, b);
      var rest := Merged(side, out, n - 1);
      assert slices[b].exchangeId == slices[i].exchangeId <==> b == i;
      ContributesPrefix(side, out, n - 1, i);
      assert ([head] + rest)[1..] == rest;
      assert Tagged(slices[b]) == [head] + Tagged(out[b]);
    }
  }

  // ---------------------------------------------------------------- when the merge is a sort

  /** With room for everything, every level of every slice is merged. */
  lemma {:induction false} MergesAll(side: Side, slices: seq<TaggedSlice>, n: nat, j: nat, q: nat)
    requires |Concat(slices)| <= n && j < |slices| && q < |slices[j].levels|
    ensures Stamp(slices[j].exchangeId, slices[j].levels[q]) in Merged(side, slices, n)
    decreases n
  {
    hide Best, Concat;
    ConcatSplit(slices, j);
    MergedUnfold(side, slices, n);
    if Best(side, slices, |slices|).Some? {
      var i := Best(side, slices, |slices|).value;
      var rest := ConcatAround(slices, i);
      if j != i || q > 0 {
        MergesAll(side, Without(slices, i), n - 1, j, if j == i then q - 1 else q);
      }
    }
  }

  lemma {:induction false} SortedCons(side: Side, h: Level, tail: seq<Level>)
    requires Sorted(side, [h] + tail)
    ensures Sorted(side, tail)
    ensures forall l :: l in tail ==> !Before(side, Raw(l), Raw(h))
  {
    hide Before;
    var s := [h] + tail;
    assert forall k :: 0 <= k < |tail| ==> tail[k] == s[k + 1];
    forall l | l in tail
      ensures !Before(side, Raw(l), Raw(h))
    {
      var k :| 0 <= k < |tail| && tail[k] == l;
      assert !Before(side, Raw(s[k + 1]), Raw(s[0]));
    }
  }

  lemma {:induction false} PutBackSorted(side: Side, slices: seq<TaggedSlice>, i: nat)
    requires i < |slices| && slices[i].levels != [] && AllSorted(side, Without(slices, i))
    requires var tail := slices[i].levels[1..]; forall q :: 0 <= q < |tail| ==> !Before(side, tail[q], slices[i].levels[0])
    ensures AllSorted(side, slices)
  {
    hide Before;
    var out, s := Without(slices, i), slices[i].levels;
    assert SortedLevels(side, out[i].levels);
    assert forall j :: 0 < j < |s| ==> s[j] == s[1..][j - 1];
    forall j | 0 <= j < |slices|
      ensures SortedLevels(side, slices[j].levels)
    {
      assert SortedLevels(side, out[j].levels);
    }
  }

  lemma {:induction false} NoLevelsSorted(side: Side, slices: seq<TaggedSlice>)
    ensures (forall i :: 0 <= i < |slices| ==> slices[i].levels == []) ==> AllSorted(side, slices)
  {
  }

  lemma {:induction false} SortedMergeNeedsSorted(side: Side, slices: seq<TaggedSlice>, n: nat)
    requires |Concat(slices)| <= n && Sorted(side, Merged(side, slices, n))
    ensures AllSorted(side, slices)
    decreases n
  {
    hide Best, Before, Concat, Sorted, Merged, AllSorted;
    if n == 0 {
      forall i | 0 <= i < |slices|
        ensures slices[i].levels == []
      {
        ConcatSplit(slices, i);
      }
      NoLevelsSorted(side, slices);
    } else {
      MergedUnfold(side, slices, n);
      if Best(side, slices, |slices|).Some? {
        var i := Best(side, slices, |slices|).value;
        var out := Without(slices, i);
        var rest := ConcatAround(slices, i);
        var h := slices[i].levels[0];
        var tail := Merged(side, out, n - 1);
        SortedCons(side, Stamp(slices[i].exchangeId, h), tail);
        SortedMergeNeedsSorted(side, out, n - 1);
        assert out[i].levels == slices[i].levels[1..];
        forall q | 0 <= q < |slices[i].levels[1..]|
          ensures !Before(side, slices[i].levels[1..][q], h)
        {
          MergesAll(side, out, n - 1, i, q);
        }
        PutBackSorted(side, slices, i);
      } else {
        NoLevelsSorted(side, slices);
      }
    }
  }

  /** Merging everything is the stable sort of the concatenation exactly when each slice is sorted. */
  lemma {:induction false} StableIffSorted(side: Side, slices: seq<TaggedSlice>)
    ensures AllSorted(side, slices)
       <==> Merged(side, slices, |Concat(slices)|) == StableSort(side, Concat(slices))
  {
    hide Best, Before, AllSorted;
    var xs := Concat(slices);
    StableSortIs(side, xs);
    if AllSorted(side, slices) {
      MergeIsStableSort(side, slices, |xs|, StableSort(side, xs));
      StableSortPermutes(side, xs, StableSort(side, xs));
      assert |multiset(xs)| == |xs| && |multiset(StableSort(side, xs))| == |StableSort(side, xs)|;
      assert FirstN(StableSort(side, xs), |xs|) == StableSort(side, xs);
    }
    if Merged(side, slices, |xs|) == StableSort(side, xs) {
      SortedMergeNeedsSorted(side, slices, |xs|);
    }
  }

  /** Strictly monotone prices: no two levels of a side share a price. */
  predicate StrictByPrice(side: Side, s: seq<RawLevel>) {
    forall i, j :: 0 <= i < j < |s| ==> if side.Bid? then s[i].price > s[j].price else s[i].price < s[j].price
  }

  lemma {:induction false} StrictIsSorted(side: Side, s: seq<RawLevel>)
    requires StrictByPrice(side, s)
    ensures SortedLevels(side, s)
  {
    forall i, j | 0 <= i < j < |s|
      ensures !Before(side, s[j], s[i])
    {
      assert if side.Bid? then s[i].price > s[j].price else s[i].price < s[j].price;
    }
  }

  predicate ByPrice(side: Side, s: seq<RawLevel>) {
    forall i, j :: 0 <= i < j < |s| ==> if side.Bid? then s[i].price >= s[j].price else s[i].price <= s[j].price
  }
}
