/** src/merger.rs: exactly when the merged top `n` is the top of a sort, for every `n`. */
module MergeTop {
  import opened Prelude
  import opened LevelArrays
  import opened Types
  import opened Merge

  // ---------------------------------------------------------------- places

  /** How many levels precede `raw`. */
  function Ahead(side: Side, s: seq<Level>, raw: RawLevel): nat {
    if s == [] then 0 else (if Before(side, Raw(s[0]), raw) then 1 else 0) + Ahead(side, s[1..], raw)
  }

  /** The levels of earlier slices and the earlier ones of its own slice. */
  function Earlier(slices: seq<TaggedSlice>, j: nat, p: nat): seq<Level>
    requires j < |slices| && p <= |slices[j].levels|
  {
    Concat(slices[..j]) + Tagged(slices[j])[..p]
  }

  /** How many levels of all slices go before this one: those that precede it and earlier equal ones. */
  function Place(side: Side, slices: seq<TaggedSlice>, j: nat, p: nat): nat
    requires j < |slices| && p < |slices[j].levels|
  {
    var raw := slices[j].levels[p];
    Ahead(side, Concat(slices), raw) + |Class(Earlier(slices, j, p), raw)|
  }

  /** No level among the best `n` stands behind a worse level of its own slice. */
  predicate BestInOrder(side: Side, slices: seq<TaggedSlice>, n: nat) {
    forall j, p, q :: 0 <= j < |slices| && 0 <= q < p < |slices[j].levels| && Place(side, slices, j, p) < n ==>
      !Before(side, slices[j].levels[p], slices[j].levels[q])
  }

  lemma {:induction false} AheadConcat(side: Side, a: seq<Level>, b: seq<Level>, raw: RawLevel)
    ensures Ahead(side, a + b, raw) == Ahead(side, a, raw) + Ahead(side, b, raw)
    decreases |a|
  {
    hide Before;
    if a == [] {
      assert a + b == b;
    } else {
      assert (a + b)[1..] == a[1..] + b;
      AheadConcat(side, a[1..], b, raw);
    }
  }

  lemma {:induction false} AheadAround(side: Side, pre: seq<Level>, h: Level, post: seq<Level>, raw: RawLevel)
    ensures Ahead(side, pre + ([h] + post), raw)
         == Ahead(side, pre + post, raw) + if Before(side, Raw(h), raw) then 1 else 0
  {
    hide Before;
    AheadConcat(side, pre, [h] + post, raw);
    AheadConcat(side, pre, post, raw);
    assert ([h] + post)[1..] == post;
  }

  lemma {:induction false} AheadNone(side: Side, s: seq<Level>, raw: RawLevel)
    requires forall l :: l in s ==> !Before(side, Raw(l), raw)
    ensures Ahead(side, s, raw) == 0
    decreases |s|
  {
    hide Before;
    if s != [] {
      assert s[0] in s && forall l :: l in s[1..] ==> l in s;
      AheadNone(side, s[1..], raw);
    }
  }

  // ---------------------------------------------------------------- a head that goes first

  /** Nothing precedes the head of slice `i`, and no earlier slice holds its equal. */
  ghost predicate HeadIsFirst(side: Side, slices: seq<TaggedSlice>, i: nat) {
    && i < |slices| && slices[i].levels != []
    && (forall l :: l in Concat(slices) ==> !Before(side, Raw(l), slices[i].levels[0]))
    && (forall l :: l in Concat(slices[..i]) ==> Raw(l) != slices[i].levels[0])
  }

  lemma {:induction false} InConcat(slices: seq<TaggedSlice>, j: nat, q: nat)
    requires j < |slices| && q < |slices[j].levels|
    ensures Stamp(slices[j].exchangeId, slices[j].levels[q]) in Concat(slices)
  {
    hide Concat;
    ConcatSplit(slices, j);
    assert Tagged(slices[j])[q] in Tagged(slices[j]);
  }

  lemma {:induction false} InEarlierConcat(slices: seq<TaggedSlice>, i: nat, j: nat, q: nat)
    requires j < i <= |slices| && q < |slices[j].levels|
    ensures Stamp(slices[j].exchangeId, slices[j].levels[q]) in Concat(slices[..i])
  {
    hide Concat;
    InConcat(slices[..i], j, q);
  }

  /** The merge picks that head. */
  lemma {:induction false} BestIsHead(side: Side, slices: seq<TaggedSlice>, i: nat)
    requires HeadIsFirst(side, slices, i)
    ensures Best(side, slices, |slices|) == Some(i)
  {
    hide Best, Before, Concat;
    var b := Best(side, slices, |slices|).value;
    var h, g := slices[i].levels[0], slices[b].levels[0];
    BestIsLeast(side, slices, |slices|, i);
    InConcat(slices, b, 0);
    TotalOrder(side, g, h, h);
    if b < i {
      InEarlierConcat(slices, i, b, 0);
    }
  }

  /** A level that nothing precedes, and that equals nothing before it, is the first of the sort. */
  lemma {:induction false} SortAround(side: Side, pre: seq<Level>, h: Level, post: seq<Level>)
    requires forall l :: l in pre ==> !Before(side, Raw(l), Raw(h)) && Raw(l) != Raw(h)
    requires forall l :: l in post ==> !Before(side, Raw(l), Raw(h))
    ensures StableSort(side, pre + ([h] + post)) == [h] + StableSort(side, pre + post)
    decreases |pre|
  {
    hide Before;
    if pre == [] {
      assert pre + ([h] + post) == [h] + post && pre + post == post && ([h] + post)[1..] == post;
      var ys := StableSort(side, post);
      StableSortIs(side, post);
      if ys != [] {
        StableMember(side, post, ys);
      }
    } else {
      var x := pre[0];
      assert x in pre;
      assert (pre + ([h] + post))[1..] == pre[1..] + ([h] + post) && (pre + post)[1..] == pre[1..] + post;
      assert forall l :: l in pre[1..] ==> l in pre;
      SortAround(side, pre[1..], h, post);
      TotalOrder(side, Raw(x), Raw(h), Raw(h));
      assert ([h] + StableSort(side, pre[1..] + post))[1..] == StableSort(side, pre[1..] + post);
    }
  }

  lemma {:induction false} SortOfHead(side: Side, slices: seq<TaggedSlice>, i: nat)
    requires HeadIsFirst(side, slices, i)
    ensures StableSort(side, Concat(slices))
         == [Stamp(slices[i].exchangeId, slices[i].levels[0])] + StableSort(side, Concat(Without(slices, i)))
  {
    hide Before, Concat, StableSort, Without;
    var rest := ConcatAround(slices, i);
    SortAround(side, Concat(slices[..i]), Stamp(slices[i].exchangeId, slices[i].levels[0]), rest);
  }

  lemma {:induction false} HeadExists(side: Side, slices: seq<TaggedSlice>, i: nat)
    requires HeadIsFirst(side, slices, i)
    ensures i < |slices| && slices[i].levels != []
  {
  }

  lemma {:induction false} FirstNCons<T>(h: T, s: seq<T>, n: nat)
    requires n > 0
    ensures FirstN([h] + s, n) == [h] + FirstN(s, n - 1)
  {
  }

  /** With and without that head, merge and sort agree alike. */
  lemma {:induction false} AgreeWithoutHead(side: Side, slices: seq<TaggedSlice>, i: nat, n: nat)
    requires HeadIsFirst(side, slices, i) && n > 0
    ensures Merged(side, slices, n) == FirstN(StableSort(side, Concat(slices)), n)
       <==> Merged(side, Without(slices, i), n - 1) == FirstN(StableSort(side, Concat(Without(slices, i))), n - 1)
  {
    hide Best, Before, Concat, StableSort, Merged, Without, HeadIsFirst;
    BestIsHead(side, slices, i);
    MergedUnfold(side, slices, n);
    SortOfHead(side, slices, i);
    HeadExists(side, slices, i);
    var h := Stamp(slices[i].exchangeId, slices[i].levels[0]);
    FirstNCons(h, StableSort(side, Concat(Without(slices, i))), n);
    var m, t := Merged(side, Without(slices, i), n - 1), FirstN(StableSort(side, Concat(Without(slices, i))), n - 1);
    if [h] + m == [h] + t {
      SameTail([h], m, t);
    }
  }

  // ---------------------------------------------------------------- places without that head

  /** Where a level stands once the head of slice `i` is gone. */
  function Shifted(i: nat, j: nat, p: nat): int {
    if j == i then p - 1 else p
  }

  lemma {:induction false} EarlierWithout(slices: seq<TaggedSlice>, i: nat, j: nat, p: nat, raw: RawLevel)
    requires i < |slices| && slices[i].levels != [] && j < |slices| && p <= |slices[j].levels| && (j == i ==> p > 0)
    ensures Shifted(i, j, p) <= |Without(slices, i)[j].levels|
    ensures |Class(Earlier(slices, j, p), raw)|
         == |Class(Earlier(Without(slices, i), j, Shifted(i, j, p)), raw)|
            + if i <= j && slices[i].levels[0] == raw then 1 else 0
  {
    hide Class, Concat;
    var h, out := Stamp(slices[i].exchangeId, slices[i].levels[0]), Without(slices, i);
    if j < i {
      assert out[..j] == slices[..j];
    } else if j == i {
      assert out[..j] == slices[..j];
      var t := Tagged(out[i])[..p - 1];
      assert Tagged(slices[i])[..p] == [h] + t;
      ClassAround(Concat(slices[..j]), h, t, raw);
    } else {
      var rest := ConcatAround(slices[..j], i);
      assert Without(slices[..j], i) == out[..j] && slices[..j][..i] == slices[..i];
      var t := Tagged(slices[j])[..p];
      assert Earlier(slices, j, p) == Concat(slices[..i]) + ([h] + (rest + t));
      assert Earlier(out, j, p) == Concat(slices[..i]) + (rest + t);
      ClassAround(Concat(slices[..i]), h, rest + t, raw);
    }
  }

  /** Every other level moves up by one place. */
  lemma {:induction false} PlaceWithout(side: Side, slices: seq<TaggedSlice>, i: nat, j: nat, p: nat)
    requires HeadIsFirst(side, slices, i)
    requires j < |slices| && p < |slices[j].levels| && (j == i ==> p > 0)
    ensures 0 <= Shifted(i, j, p) < |Without(slices, i)[j].levels|
    ensures Without(slices, i)[j].levels[Shifted(i, j, p)] == slices[j].levels[p]
    ensures Place(side, slices, j, p) == Place(side, Without(slices, i), j, Shifted(i, j, p)) + 1
  {
    hide Class, Concat, Before, Earlier, Ahead;
    var raw, h := slices[j].levels[p], Stamp(slices[i].exchangeId, slices[i].levels[0]);
    var rest := ConcatAround(slices, i);
    AheadAround(side, Concat(slices[..i]), h, rest, raw);
    EarlierWithout(slices, i, j, p, raw);
    InConcat(slices, j, p);
    TotalOrder(side, raw, Raw(h), Raw(h));
    TotalOrder(side, Raw(h), raw, raw);
    if j < i {
      InEarlierConcat(slices, i, j, p);
    }
  }

  lemma {:induction false} InOrderShifts(side: Side, slices: seq<TaggedSlice>, i: nat, n: nat)
    requires HeadIsFirst(side, slices, i) && n > 0 && BestInOrder(side, slices, n)
    ensures BestInOrder(side, Without(slices, i), n - 1)
  {
    hide Before, Place, Concat;
    var out := Without(slices, i);
    forall j, p, q | 0 <= j < |out| && 0 <= q < p < |out[j].levels| && Place(side, out, j, p) < n - 1
      ensures !Before(side, out[j].levels[p], out[j].levels[q])
    {
      var d := if j == i then 1 else 0;
      PlaceWithout(side, slices, i, j, p + d);
      assert out[j].levels[q] == slices[j].levels[q + d];
    }
  }

  lemma {:induction false} InOrderShiftsBack(side: Side, slices: seq<TaggedSlice>, i: nat, n: nat)
    requires HeadIsFirst(side, slices, i) && n > 0 && BestInOrder(side, Without(slices, i), n - 1)
    ensures BestInOrder(side, slices, n)
  {
    hide Before, Place, Concat;
    var out := Without(slices, i);
    forall j, p, q | 0 <= j < |slices| && 0 <= q < p < |slices[j].levels| && Place(side, slices, j, p) < n
      ensures !Before(side, slices[j].levels[p], slices[j].levels[q])
    {
      PlaceWithout(side, slices, i, j, p);
      InConcat(slices, j, p);
      var d := if j == i then 1 else 0;
      if q >= d {
        assert out[j].levels[q - d] == slices[j].levels[q];
      }
    }
  }

  // ---------------------------------------------------------------- where the first level lies

  lemma {:induction false} NoClass(raw: RawLevel)
    ensures Class([], raw) == []
  {
  }

  lemma {:induction false} FirstIn(s: seq<Level>, raw: RawLevel) returns (p: nat)
    requires Class(s, raw) != []
    ensures p < |s| && Raw(s[p]) == raw && Class(s[..p], raw) == [] && Class(s, raw)[0] == s[p]
    decreases |s|
  {
    if Raw(s[0]) == raw {
      p := 0;
    } else {
      p := FirstIn(s[1..], raw);
      assert s[..p + 1][1..] == s[1..][..p];
      p := p + 1;
    }
  }

  /** The first position that holds `raw`. */
  lemma {:induction false} Locate(slices: seq<TaggedSlice>, raw: RawLevel) returns (j: nat, p: nat)
    requires Class(Concat(slices), raw) != []
    ensures j < |slices| && p < |slices[j].levels| && slices[j].levels[p] == raw
    ensures Class(Earlier(slices, j, p), raw) == []
    ensures Class(Concat(slices), raw)[0] == Stamp(slices[j].exchangeId, raw)
    decreases |slices|
  {
    hide Class;
    NoClass(raw);
    var own, rest := Tagged(slices[0]), Concat(slices[1..]);
    ClassConcat(own, rest, raw);
    if Class(own, raw) != [] {
      j := 0;
      p := FirstIn(own, raw);
      assert Earlier(slices, 0, p) == own[..p];
    } else {
      j, p := Locate(slices[1..], raw);
      ClassConcat(own, Earlier(slices[1..], j, p), raw);
      assert slices[..j + 1][1..] == slices[1..][..j];
      assert Earlier(slices, j + 1, p) == own + Earlier(slices[1..], j, p);
      j := j + 1;
    }
  }

  lemma {:induction false} ClassHead(s: seq<Level>)
    requires s != []
    ensures Class(s, Raw(s[0])) != [] && Class(s, Raw(s[0]))[0] == s[0]
  {
  }

  /** Nothing precedes the first of the sort, and it is the first of its class. */
  lemma {:induction false} FirstOfSort(side: Side, xs: seq<Level>)
    requires xs != []
    ensures StableSort(side, xs) != []
    ensures var raw := Raw(StableSort(side, xs)[0]);
            && (forall l :: l in xs ==> !Before(side, Raw(l), raw))
            && Class(xs, raw) != [] && Class(xs, raw)[0] == StableSort(side, xs)[0]
  {
    hide Before, StableSort, Class;
    var ys := StableSort(side, xs);
    StableSortIs(side, xs);
    ClassEmpty(xs, Raw(xs[0]));
    assert Class(ys, Raw(xs[0])) == Class(xs, Raw(xs[0]));
    FirstIsLeast(side, ys, Raw(xs[0]));
    forall l | l in xs
      ensures !Before(side, Raw(l), Raw(ys[0]))
    {
      ClassEmpty(xs, Raw(l));
      assert Class(ys, Raw(l)) == Class(xs, Raw(l));
      FirstIsLeast(side, ys, Raw(l));
    }
    ClassHead(ys);
    assert Class(ys, Raw(ys[0])) == Class(xs, Raw(ys[0]));
  }

  lemma {:induction false} NoneEarlier(slices: seq<TaggedSlice>, j: nat, p: nat, raw: RawLevel)
    requires j < |slices| && p <= |slices[j].levels| && Class(Earlier(slices, j, p), raw) == []
    ensures forall l :: l in Concat(slices[..j]) ==> Raw(l) != raw
    ensures forall q :: 0 <= q < p ==> slices[j].levels[q] != raw
  {
    hide Concat, Class;
    var e := Earlier(slices, j, p);
    ClassEmpty(e, raw);
    forall q | 0 <= q < p
      ensures slices[j].levels[q] != raw
    {
      assert e[|Concat(slices[..j])| + q] == Tagged(slices[j])[q];
    }
    forall l | l in Concat(slices[..j])
      ensures Raw(l) != raw
    {
      assert l in e;
    }
  }

  /** If the best are in order, some head goes first. */
  lemma {:induction false} InOrderHasHead(side: Side, slices: seq<TaggedSlice>, n: nat) returns (i: nat)
    requires Concat(slices) != [] && n > 0 && BestInOrder(side, slices, n)
    ensures HeadIsFirst(side, slices, i)
  {
    hide Before, Concat, StableSort, Class, Earlier, Ahead;
    var xs := Concat(slices);
    FirstOfSort(side, xs);
    var raw := Raw(StableSort(side, xs)[0]);
    var p: nat;
    i, p := Locate(slices, raw);
    AheadNone(side, xs, raw);
    NoneEarlier(slices, i, p, raw);
    assert Place(side, slices, i, p) == 0;
    assert forall q :: 0 <= q < p ==> !Before(side, slices[i].levels[p], slices[i].levels[q]);
    if p > 0 {
      InConcat(slices, i, 0);
      TotalOrder(side, raw, slices[i].levels[0], raw);
      assert false;
    }
  }

  /** If the merge starts like the sort, the head it picks goes first. */
  lemma {:induction false} AgreeHasHead(side: Side, slices: seq<TaggedSlice>, n: nat) returns (i: nat)
    requires Concat(slices) != [] && n > 0 && DistinctIds(slices)
    requires Merged(side, slices, n) == FirstN(StableSort(side, Concat(slices)), n)
    ensures HeadIsFirst(side, slices, i)
  {
    hide Before, Best, Concat, StableSort, Class, Earlier, Merged;
    var xs, ys := Concat(slices), StableSort(side, Concat(slices));
    FirstOfSort(side, xs);
    MergedUnfold(side, slices, n);
    assert FirstN(ys, n)[0] == ys[0];
    i := Best(side, slices, |slices|).value;
    var raw := slices[i].levels[0];
    var j, p := Locate(slices, raw);
    assert j == i;
    NoneEarlier(slices, i, p, raw);
  }

  // ---------------------------------------------------------------- the exact condition

  lemma {:induction false} IdsWithout(slices: seq<TaggedSlice>, i: nat)
    requires i < |slices| && slices[i].levels != [] && DistinctIds(slices)
    ensures DistinctIds(Without(slices, i))
  {
  }

  lemma {:induction false} NothingInOrder(side: Side, slices: seq<TaggedSlice>, n: nat)
    requires n == 0 || Concat(slices) == []
    ensures BestInOrder(side, slices, n)
  {
    hide Before, Concat, Place;
    if n > 0 {
      forall j | 0 <= j < |slices|
        ensures slices[j].levels == []
      {
        ConcatSplit(slices, j);
      }
    }
  }

  lemma {:induction false} EmptyTop(side: Side, slices: seq<TaggedSlice>, n: nat)
    requires Concat(slices) == []
    ensures Merged(side, slices, n) == [] && StableSort(side, Concat(slices)) == []
  {
    hide Best, Concat;
    MergedUnfold(side, slices, n);
    if n > 0 && Best(side, slices, |slices|).Some? {
      InConcat(slices, Best(side, slices, |slices|).value, 0);
    }
  }

  /**
   * For every `n` the merge is the top `n` of the stable sort of all levels if and only if no level
   * among the best `n` stands behind a worse level of its own slice.
   */
  lemma {:induction false} TopIsSortedIff(side: Side, slices: seq<TaggedSlice>, n: nat)
    requires DistinctIds(slices)
    ensures Merged(side, slices, n) == FirstN(StableSort(side, Concat(slices)), n) <==> BestInOrder(side, slices, n)
    decreases n
  {
    hide Before, Best, Concat, StableSort, Merged, BestInOrder, HeadIsFirst, Without;
    if n == 0 {
      MergedUnfold(side, slices, 0);
      NothingInOrder(side, slices, n);
    } else if Concat(slices) == [] {
      EmptyTop(side, slices, n);
      NothingInOrder(side, slices, n);
    } else {
      var i: nat := 0;
      if BestInOrder(side, slices, n) {
        i := InOrderHasHead(side, slices, n);
      } else if Merged(side, slices, n) == FirstN(StableSort(side, Concat(slices)), n) {
        i := AgreeHasHead(side, slices, n);
      } else {
        return;
      }
      HeadExists(side, slices, i);
      AgreeWithoutHead(side, slices, i, n);
      if BestInOrder(side, slices, n) {
        InOrderShifts(side, slices, i, n);
      }
      if BestInOrder(side, Without(slices, i), n - 1) {
        InOrderShiftsBack(side, slices, i, n);
      }
      IdsWithout(slices, i);
      TopIsSortedIff(side, Without(slices, i), n - 1);
    }
  }

  /** Sorted slices are in order for every `n`. */
  lemma {:induction false} SortedInOrder(side: Side, slices: seq<TaggedSlice>, n: nat)
    requires AllSorted(side, slices)
    ensures BestInOrder(side, slices, n)
  {
    hide Before, Place;
    forall j, p, q | 0 <= j < |slices| && 0 <= q < p < |slices[j].levels|
      ensures !Before(side, slices[j].levels[p], slices[j].levels[q])
    {
      assert SortedLevels(side, slices[j].levels);
    }
  }

  /** Equal prices with rising amounts are monotone by price, yet for no `n` merged to the best `n`. */
  lemma {:induction false} PriceOrderIsNotEnough(side: Side, n: nat)
    requires n > 0
    ensures var s := [RawLevel(1, 1), RawLevel(1, 2)]; var slices := [TaggedSlice(BINANCE_ID, s)];
            ByPrice(side, s) && Merged(side, slices, n) != FirstN(StableSort(side, Concat(slices)), n)
  {
    hide StableSort, Merged;
    var s := [RawLevel(1, 1), RawLevel(1, 2)];
    var slices := [TaggedSlice(BINANCE_ID, s)];
    var xs := [Stamp(BINANCE_ID, s[0]), Stamp(BINANCE_ID, s[1])];
    assert Tagged(slices[0]) == xs && slices[1..] == [];
    assert Concat(slices) == xs;
    AheadNone(side, xs, s[1]);
    assert slices[..0] == [] && Earlier(slices, 0, 1) == [xs[0]];
    ClassEmpty([xs[0]], s[1]);
    assert Place(side, slices, 0, 1) == 0;
    assert Before(side, slices[0].levels[1], slices[0].levels[0]);
    TopIsSortedIff(side, slices, n);
  }
}
