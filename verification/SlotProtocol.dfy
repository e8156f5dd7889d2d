/**
 * src/atomic_slot.rs under concurrency: the producer's and the consumer's atomic actions interleave
 * arbitrarily, the halves are dropped at any time, and a history records what became of each value.
 */
module SlotProtocol {
  import opened Prelude
  import opened AtomicSlot

  /** A value with its position in the order of sends; no action looks at the tag. */
  datatype Item<T> = Item(tag: nat, value: T)

  datatype Producer<T> =
    | Ready
    /** `send` entered, buffer not yet written. */
    | Holding(item: Item<T>)
    /** Buffer written, swap not yet done. */
    | Written
    /** Dropped as the last half, about to release the allocation. */
    | Releasing
    | Gone

  datatype Consumer =
    | Waiting
    /** The load saw the dirty bit, swap not yet done. */
    | SawDirty
    /** Swapped, the front buffer not yet emptied. */
    | Swapped
    | Draining
    | Departed

  datatype System<T> = System(
    mem: Mem<Item<T>>,
    refcount: byte,
    producer: Producer<T>,
    consumer: Consumer,
    // the state bytes written since the consumer's own last write, that one first
    recent: seq<byte>,
    sent: seq<T>,
    published: nat,
    delivered: seq<Item<T>>,
    overwritten: multiset<nat>,
    released: multiset<nat>,
    frees: nat)

  datatype Step<T> =
    | BeginSend(value: T)
    | WriteBuffer
    | PublishSwap
    | DropSender
    | ReleaseBySender
    /** The relaxed load returns the `k`-th of the recent state bytes; the last is the current one. */
    | Load(k: nat)
    | TakeSwap
    | TakeValue
    | DropReceiver
    | ReleaseByReceiver

  function Start<T>(): System<T> {
    System(Fresh(), 2, Ready, Waiting, [Fresh<Item<T>>().state], [], 0, [], multiset{}, multiset{}, 0)
  }

  /** The tag in a buffer, if any. */
  function Tags<T>(b: Option<Item<T>>): multiset<nat> {
    if b.Some? then multiset{b.value.tag} else multiset{}
  }

  ghost predicate Enabled<T>(s: System<T>, step: Step<T>) {
    match step
    case BeginSend(_) => s.producer.Ready?
    case WriteBuffer => s.producer.Holding?
    case PublishSwap => s.producer.Written?
    case DropSender => s.producer.Ready?
    case ReleaseBySender => s.producer.Releasing?
    case Load(k) => s.consumer.Waiting? && k < |s.recent|
    case TakeSwap => s.consumer.SawDirty?
    case TakeValue => s.consumer.Swapped?
    case DropReceiver => s.consumer.Waiting?
    case ReleaseByReceiver => s.consumer.Draining?
  }

  ghost function AllTags<T>(b: seq<Option<Item<T>>>): multiset<nat>
    requires |b| == 3
  {
    Tags(b[0]) + Tags(b[1]) + Tags(b[2])
  }

  /** The values lying in buffers; none once the allocation is released. */
  ghost function InBuffers<T>(s: System<T>): multiset<nat>
    requires |s.mem.buffers| == 3
  {
    if s.frees > 0 then multiset{} else AllTags(s.mem.buffers)
  }

  ghost function Release<T>(s: System<T>): System<T>
    requires |s.mem.buffers| == 3
  {
    s.(frees := s.frees + 1, released := s.released + InBuffers(s))
  }

  ghost function Next<T>(s: System<T>, step: Step<T>): System<T>
    requires Owned(s.mem) && Enabled(s, step)
  {
    match step
    case BeginSend(v) => s.(producer := Holding(Item(|s.sent|, v)), sent := s.sent + [v])
    case WriteBuffer =>
      s.(mem := StoreBack(s.mem, s.producer.item), producer := Written,
         overwritten := s.overwritten + Tags(s.mem.buffers[s.mem.back]))
    case PublishSwap =>
      var mem := SwapBack(s.mem);
      s.(mem := mem, producer := Ready, recent := s.recent + [mem.state], published := s.published + 1)
    case DropSender =>
      s.(refcount := Decrement(s.refcount), producer := if LastOut(s.refcount) then Releasing else Gone)
    case ReleaseBySender => Release(s).(producer := Gone)
    case Load(k) => s.(consumer := if IsDirty(s.recent[k]) then SawDirty else Waiting)
    case TakeSwap =>
      var mem := SwapFront(s.mem);
      s.(mem := mem, consumer := Swapped, recent := [mem.state])
    case TakeValue =>
      var taken := s.mem.buffers[s.mem.front];
      s.(mem := TakeFront(s.mem), consumer := Waiting,
         delivered := s.delivered + if taken.Some? then [taken.value] else [])
    case DropReceiver =>
      s.(refcount := Decrement(s.refcount), consumer := if LastOut(s.refcount) then Draining else Departed)
    case ReleaseByReceiver => Release(s).(consumer := Departed)
  }

  // ---------------------------------------------------------------- where values are

  ghost function InHand<T>(s: System<T>): multiset<nat> {
    if s.producer.Holding? then multiset{s.producer.item.tag} else multiset{}
  }

  ghost function TagsOf<T>(items: seq<Item<T>>): multiset<nat> {
    if items == [] then multiset{} else TagsOf(items[..|items| - 1]) + multiset{items[|items| - 1].tag}
  }

  /** How often the value of send `t` exists: in the hand, in a buffer, delivered, overwritten, released. */
  ghost function Places<T>(s: System<T>, t: nat): nat
    requires |s.mem.buffers| == 3
  {
    InHand(s)[t] + InBuffers(s)[t] + TagsOf(s.delivered)[t] + s.overwritten[t] + s.released[t]
  }

  /** Every value sent so far is in exactly one place, and nothing else is anywhere. */
  ghost predicate Conserved<T>(s: System<T>)
    requires |s.mem.buffers| == 3
  {
    forall t: nat :: Places(s, t) == if t < |s.sent| then 1 else 0
  }

  // ---------------------------------------------------------------- invariant

  /** The item is the one sent at its position. */
  predicate Genuine<T(==)>(s: System<T>, it: Item<T>) {
    it.tag < |s.sent| && it.value == s.sent[it.tag]
  }

  /** The item of the `n`-th send. */
  function Nth<T>(s: System<T>, n: nat): Item<T>
    requires n < |s.sent|
  {
    Item(n, s.sent[n])
  }

  /** Who holds what in the three buffers. */
  ghost predicate Contents<T>(s: System<T>) {
    && Owned(s.mem)
    && s.published <= |s.sent|
    && (IsDirty(s.mem.state) ==> s.published > 0 && Middle(s.mem) == Some(Nth(s, s.published - 1)))
    && (!IsDirty(s.mem.state) ==> Middle(s.mem) == None)
    && (s.consumer.Swapped? <==> s.mem.buffers[s.mem.front].Some?)
    && (s.consumer.SawDirty? ==> IsDirty(s.mem.state))
    && match s.producer
       case Holding(it) => |s.sent| == s.published + 1 && it == Nth(s, s.published)
       case Written => |s.sent| == s.published + 1 && s.mem.buffers[s.mem.back] == Some(Nth(s, s.published))
       case _ => |s.sent| == s.published
  }

  /** What a load of the state byte may return. */
  ghost predicate History<T>(s: System<T>) {
    && |s.recent| > 0
    && s.recent[|s.recent| - 1] == s.mem.state
    && !IsDirty(s.recent[0])
    && forall i :: 0 < i < |s.recent| ==> IsDirty(s.recent[i])
  }

  ghost function DeliveredBound<T>(d: seq<Item<T>>): nat {
    if d == [] then 0 else d[|d| - 1].tag + 1
  }

  /** One more than the tag of the last value taken out of the exchange. */
  ghost function TakenBound<T>(s: System<T>): nat
    requires Owned(s.mem)
  {
    if s.consumer.Swapped? && s.mem.buffers[s.mem.front].Some? then s.mem.buffers[s.mem.front].value.tag + 1
    else DeliveredBound(s.delivered)
  }

  ghost predicate Increasing<T>(d: seq<Item<T>>) {
    forall i, j :: 0 <= i < j < |d| ==> d[i].tag < d[j].tag
  }

  /** Values leave in the order they were sent, each at most once, and nothing older follows. */
  ghost predicate Ordered<T>(s: System<T>) {
    && Owned(s.mem)
    && Increasing(s.delivered)
    && (forall i :: 0 <= i < |s.delivered| ==> Genuine(s, s.delivered[i]))
    && (s.consumer.Swapped? && s.mem.buffers[s.mem.front].Some? ==>
          Genuine(s, s.mem.buffers[s.mem.front].value)
          && DeliveredBound(s.delivered) <= s.mem.buffers[s.mem.front].value.tag)
    && (if IsDirty(s.mem.state) then TakenBound(s) < s.published else TakenBound(s) == s.published)
  }

  /** The reference count counts the halves not yet dropped, and the last one releases exactly once. */
  ghost predicate Counted<T>(s: System<T>) {
    var p := !(s.producer.Releasing? || s.producer.Gone?);
    var c := !(s.consumer.Draining? || s.consumer.Departed?);
    && s.refcount == Live(p) + Live(c)
    && s.frees + Live(s.producer.Releasing?) + Live(s.consumer.Draining?) == (if s.refcount == 0 then 1 else 0)
  }

  ghost predicate Inv<T>(s: System<T>) {
    Contents(s) && History(s) && Ordered(s) && Counted(s) && Conserved(s)
  }

  lemma {:induction false} InvParts<T>(s: System<T>)
    ensures Inv(s) <==> Contents(s) && History(s) && Ordered(s) && Counted(s) && Conserved(s)
  {
    hide Contents, History, Ordered, Counted, Conserved;
  }

  lemma {:induction false} StartConserved<T>()
    ensures Conserved(Start<T>())
  {
    var s := Start<T>();
    assert InBuffers(s) == multiset{} && TagsOf(s.delivered) == multiset{};
  }

  lemma {:induction false} StartInv<T>()
    ensures Inv(Start<T>())
  {
    hide Conserved, Inv;
    var s := Start<T>();
    assert Contents(s) && History(s);
    assert Ordered(s) && Counted(s);
    StartConserved<T>();
    InvParts(s);
  }

  lemma {:induction false} ContentsWrite<T>(s: System<T>, step: Step<T>)
    requires Contents(s) && History(s) && Enabled(s, step) && (step.BeginSend? || step.WriteBuffer?)
    ensures Contents(Next(s, step))
  {
  }

  lemma {:induction false} ContentsPublish<T>(s: System<T>, step: Step<T>)
    requires Contents(s) && History(s) && Enabled(s, step) && step.PublishSwap?
    ensures Contents(Next(s, step))
  {
    SwapsKeepOwned(s.mem);
  }

  lemma {:induction false} ContentsSwap<T>(s: System<T>, step: Step<T>)
    requires Contents(s) && History(s) && Enabled(s, step) && step.TakeSwap?
    ensures Contents(Next(s, step))
  {
    SwapsKeepOwned(s.mem);
  }

  lemma {:induction false} ContentsTake<T>(s: System<T>, step: Step<T>)
    requires Contents(s) && History(s) && Enabled(s, step) && step.TakeValue?
    ensures Contents(Next(s, step))
  {
  }

  lemma {:induction false} ContentsOther<T>(s: System<T>, step: Step<T>)
    requires Contents(s) && History(s) && Enabled(s, step) && !step.BeginSend? && !step.WriteBuffer? && !step.PublishSwap? && !step.TakeSwap? && !step.TakeValue?
    ensures Contents(Next(s, step))
  {
  }

  lemma {:induction false} ContentsStep<T>(s: System<T>, step: Step<T>)
    requires Contents(s) && History(s) && Enabled(s, step)
    ensures Contents(Next(s, step))
  {
    hide Contents, History, Next;
    match step
    case BeginSend(_) => ContentsWrite(s, step);
    case WriteBuffer => ContentsWrite(s, step);
    case PublishSwap => ContentsPublish(s, step);
    case TakeSwap => ContentsSwap(s, step);
    case TakeValue => ContentsTake(s, step);
    case _ => ContentsOther(s, step);
  }

  lemma {:induction false} ContentsOwned<T>(s: System<T>)
    requires Contents(s)
    ensures Owned(s.mem)
  {
  }

  lemma {:induction false} HistoryPublish<T>(s: System<T>, step: Step<T>)
    requires Contents(s) && History(s) && Enabled(s, step) && step.PublishSwap?
    ensures History(Next(s, step))
  {
    hide Contents;
    ContentsOwned(s);
    SwapsKeepOwned(s.mem);
  }

  lemma {:induction false} HistorySwap<T>(s: System<T>, step: Step<T>)
    requires Contents(s) && Enabled(s, step) && step.TakeSwap?
    ensures History(Next(s, step))
  {
    hide Contents;
    ContentsOwned(s);
    SwapsKeepOwned(s.mem);
  }

  lemma {:induction false} HistoryOther<T>(s: System<T>, step: Step<T>)
    requires Owned(s.mem) && History(s) && Enabled(s, step) && !step.PublishSwap? && !step.TakeSwap?
    ensures History(Next(s, step))
  {
  }

  lemma {:induction false} HistoryStep<T>(s: System<T>, step: Step<T>)
    requires Contents(s) && History(s) && Enabled(s, step)
    ensures History(Next(s, step))
  {
    hide Contents, History, Next;
    ContentsOwned(s);
    match step
    case PublishSwap => HistoryPublish(s, step);
    case TakeSwap => HistorySwap(s, step);
    case _ => HistoryOther(s, step);
  }

  lemma {:induction false} OrderedSend<T>(s: System<T>, step: Step<T>)
    requires Contents(s) && Ordered(s) && Enabled(s, step) && step.BeginSend?
    ensures Ordered(Next(s, step))
  {
  }

  lemma {:induction false} OrderedWrite<T>(s: System<T>, step: Step<T>)
    requires Contents(s) && Ordered(s) && Enabled(s, step) && step.WriteBuffer?
    ensures Ordered(Next(s, step))
  {
  }

  lemma {:induction false} OrderedPublish<T>(s: System<T>, step: Step<T>)
    requires Contents(s) && Ordered(s) && Enabled(s, step) && step.PublishSwap?
    ensures Ordered(Next(s, step))
  {
    SwapsKeepOwned(s.mem);
  }

  lemma {:induction false} OrderedSwap<T>(s: System<T>, step: Step<T>)
    requires Contents(s) && Ordered(s) && Enabled(s, step) && step.TakeSwap?
    ensures Ordered(Next(s, step))
  {
    SwapsKeepOwned(s.mem);
  }

  lemma {:induction false} OrderedTake<T>(s: System<T>, step: Step<T>)
    requires Contents(s) && Ordered(s) && Enabled(s, step) && step.TakeValue?
    ensures Ordered(Next(s, step))
  {
  }

  lemma {:induction false} OrderedOther<T>(s: System<T>, step: Step<T>)
    requires Contents(s) && Ordered(s) && Enabled(s, step) && !step.BeginSend? && !step.WriteBuffer? && !step.PublishSwap? && !step.TakeSwap? && !step.TakeValue?
    ensures Ordered(Next(s, step))
  {
  }

  lemma {:induction false} OrderedStep<T>(s: System<T>, step: Step<T>)
    requires Contents(s) && Ordered(s) && Enabled(s, step)
    ensures Ordered(Next(s, step))
  {
    hide Contents, Ordered, Next;
    match step
    case BeginSend(_) => OrderedSend(s, step);
    case WriteBuffer => OrderedWrite(s, step);
    case PublishSwap => OrderedPublish(s, step);
    case TakeSwap => OrderedSwap(s, step);
    case TakeValue => OrderedTake(s, step);
    case _ => OrderedOther(s, step);
  }

  lemma {:induction false} CountedStep<T>(s: System<T>, step: Step<T>)
    requires Contents(s) && Counted(s) && Enabled(s, step)
    ensures Counted(Next(s, step))
  {
  }

  /** Replacing one buffer's content exchanges its tag for the new one. */
  lemma {:induction false} ReplaceTags<T>(b: seq<Option<Item<T>>>, i: nat, x: Option<Item<T>>)
    requires |b| == 3 && i < 3
    ensures AllTags(b[i := x]) + Tags(b[i]) == AllTags(b) + Tags(x)
  {
    hide Tags;
  }

  lemma {:induction false} TagsSnoc<T>(items: seq<Item<T>>, x: Item<T>)
    ensures TagsOf(items + [x]) == TagsOf(items) + multiset{x.tag}
    ensures TagsOf(items + []) == TagsOf(items)
  {
    assert (items + [x])[..|items|] == items;
    assert items + [] == items;
  }

  lemma {:induction false} ConservedFrom<T>(s: System<T>, s': System<T>)
    requires |s.mem.buffers| == 3 && |s'.mem.buffers| == 3 && Conserved(s) && |s.sent| <= |s'.sent|
    requires forall t: nat :: Places(s', t) == Places(s, t) + if |s.sent| <= t < |s'.sent| then 1 else 0
    ensures Conserved(s')
  {
    hide Places;
  }

  lemma {:induction false} MovedTags<T>(b: seq<Option<Item<T>>>, i: nat, x: Option<Item<T>>, t: nat)
    requires |b| == 3 && i < 3
    ensures AllTags(b[i := x])[t] + Tags(b[i])[t] == AllTags(b)[t] + Tags(x)[t]
  {
    ReplaceTags(b, i, x);
    assert (AllTags(b[i := x]) + Tags(b[i]))[t] == (AllTags(b) + Tags(x))[t];
  }

  lemma {:induction false} WritePlaces<T>(s: System<T>, t: nat)
    requires Owned(s.mem) && s.producer.Holding? && Counted(s)
    ensures |Next(s, WriteBuffer).mem.buffers| == 3 && Next(s, WriteBuffer).sent == s.sent
    ensures Places(Next(s, WriteBuffer), t) == Places(s, t)
  {
    hide TagsOf, AllTags;
    MovedTags(s.mem.buffers, s.mem.back, Some(s.producer.item), t);
  }

  lemma {:induction false} SwappedFull<T>(s: System<T>)
    requires Contents(s) && s.consumer.Swapped?
    ensures s.mem.buffers[s.mem.front].Some?
  {
  }

  lemma {:induction false} TakePlaces<T>(s: System<T>, t: nat)
    requires Owned(s.mem) && s.consumer.Swapped? && s.mem.buffers[s.mem.front].Some? && Counted(s)
    ensures |Next(s, TakeValue).mem.buffers| == 3 && Next(s, TakeValue).sent == s.sent
    ensures Places(Next(s, TakeValue), t) == Places(s, t)
  {
    hide TagsOf, AllTags;
    MovedTags(s.mem.buffers, s.mem.front, None, t);
    TagsSnoc(s.delivered, s.mem.buffers[s.mem.front].value);
  }

  lemma {:induction false} ReleasePlaces<T>(s: System<T>, step: Step<T>, t: nat)
    requires Owned(s.mem) && Counted(s) && Enabled(s, step) && (step.ReleaseBySender? || step.ReleaseByReceiver?)
    ensures |Next(s, step).mem.buffers| == 3 && Next(s, step).sent == s.sent
    ensures Places(Next(s, step), t) == Places(s, t)
  {
    hide TagsOf, AllTags;
  }

  lemma {:induction false} OtherPlaces<T>(s: System<T>, step: Step<T>, t: nat)
    requires Contents(s) && Counted(s) && Enabled(s, step)
    requires !step.WriteBuffer? && !step.TakeValue? && !step.ReleaseBySender? && !step.ReleaseByReceiver?
    ensures |Next(s, step).mem.buffers| == 3
    ensures Places(Next(s, step), t) == Places(s, t) + if |s.sent| <= t < |Next(s, step).sent| then 1 else 0
  {
    hide TagsOf, AllTags;
  }

  lemma {:induction false} PlacesAt<T>(s: System<T>, step: Step<T>, t: nat)
    requires Contents(s) && Counted(s) && Enabled(s, step)
    ensures |Next(s, step).mem.buffers| == 3
    ensures Places(Next(s, step), t) == Places(s, t) + if |s.sent| <= t < |Next(s, step).sent| then 1 else 0
  {
    hide TagsOf, AllTags, Places, Next, Contents, Counted;
    ContentsOwned(s);
    match step
    case WriteBuffer => WritePlaces(s, t);
    case TakeValue =>
      SwappedFull(s);
      TakePlaces(s, t);
    case ReleaseBySender => ReleasePlaces(s, step, t);
    case ReleaseByReceiver => ReleasePlaces(s, step, t);
    case _ => OtherPlaces(s, step, t);
  }

  lemma {:induction false} PlacesStep<T>(s: System<T>, step: Step<T>)
    requires Contents(s) && Counted(s) && Enabled(s, step)
    ensures var s' := Next(s, step);
            && Owned(s'.mem) && |s.sent| <= |s'.sent|
            && forall t: nat :: Places(s', t) == Places(s, t) + if |s.sent| <= t < |s'.sent| then 1 else 0
  {
    hide Places;
    SwapsKeepOwned(s.mem);
    forall t: nat
      ensures Places(Next(s, step), t) == Places(s, t) + if |s.sent| <= t < |Next(s, step).sent| then 1 else 0
    {
      PlacesAt(s, step, t);
    }
  }

  /** Values only move: into a hand, a buffer, the receiver's caller, or out by overwriting or release. */
  lemma {:induction false} ConservedStep<T>(s: System<T>, step: Step<T>)
    requires Contents(s) && Counted(s) && Conserved(s) && Enabled(s, step)
    ensures Owned(Next(s, step).mem) && Conserved(Next(s, step))
  {
    hide Conserved, Places, Contents, Next, Counted;
    ContentsOwned(s);
    PlacesStep(s, step);
    ConservedFrom(s, Next(s, step));
  }

  /** Every action of either half keeps the invariant. */
  lemma {:induction false} InvStep<T>(s: System<T>, step: Step<T>)
    requires Inv(s) && Enabled(s, step)
    ensures Inv(Next(s, step))
  {
    hide Contents, History, Ordered, Counted, Conserved, Next;
    ContentsStep(s, step);
    HistoryStep(s, step);
    OrderedStep(s, step);
    CountedStep(s, step);
    ConservedStep(s, step);
  }

  // ---------------------------------------------------------------- runs

  /** The state after a sequence of actions; None when one of them was not enabled. */
  ghost function Run<T>(steps: seq<Step<T>>): Option<System<T>>
    ensures Run(steps).Some? ==> Owned(Run(steps).value.mem)
  {
    if steps == [] then Some(Start())
    else
      var s :- Run(steps[..|steps| - 1]);
      var step := steps[|steps| - 1];
      if Enabled(s, step) && Owned(Next(s, step).mem) then Some(Next(s, step)) else None
  }

  lemma {:induction false} InvOwned<T>(s: System<T>)
    requires Inv(s)
    ensures Owned(s.mem)
  {
  }

  /** The invariant holds in every reachable state, and no enabled action is lost by `Run`. */
  lemma {:induction false} RunInv<T>(steps: seq<Step<T>>)
    requires Run(steps).Some?
    ensures Inv(Run(steps).value)
    ensures forall step :: Enabled(Run(steps).value, step) ==> Owned(Next(Run(steps).value, step).mem)
    decreases |steps|
  {
    hide Contents, History, Ordered, Counted, Conserved, Inv, Next, Enabled;
    if steps == [] {
      StartInv<T>();
    } else {
      RunInv(steps[..|steps| - 1]);
      InvStep(Run(steps[..|steps| - 1]).value, steps[|steps| - 1]);
    }
    var s := Run(steps).value;
    forall step | Enabled(s, step)
      ensures Owned(Next(s, step).mem)
    {
      InvStep(s, step);
      InvOwned(Next(s, step));
    }
  }

  /** In every reachable state the three roles hold the three buffers, one each. */
  lemma {:induction false} AlwaysPermutation<T>(steps: seq<Step<T>>)
    requires Run(steps).Some?
    ensures var m := Run(steps).value.mem;
            |m.buffers| == 3 && {m.back, Shr1(m.state), m.front} == {0, 1, 2}
  {
    hide Run;
    RunInv(steps);
    var m := Run(steps).value.mem;
    assert m.back in {0, 1, 2} && m.front in {0, 1, 2} && Shr1(m.state) in {0, 1, 2};
    assert 0 == m.back || 0 == m.front || 0 == Shr1(m.state);
    assert 1 == m.back || 1 == m.front || 1 == Shr1(m.state);
    assert 2 == m.back || 2 == m.front || 2 == Shr1(m.state);
  }

  /** The write of a send and the take of a receive never touch the same buffer, nor the exchange. */
  lemma {:induction false} Exclusion<T>(steps: seq<Step<T>>)
    requires Run(steps).Some?
    requires Enabled(Run(steps).value, WriteBuffer) && Enabled(Run(steps).value, TakeValue)
    ensures var s := Run(steps).value;
            && s.mem.back != s.mem.front && s.mem.back != Shr1(s.mem.state) && s.mem.front != Shr1(s.mem.state)
            // neither action is visible to the other half
            && Next(Next(s, WriteBuffer), TakeValue).mem == Next(Next(s, TakeValue), WriteBuffer).mem
  {
    hide Run;
    RunInv(steps);
    var s := Run(steps).value;
    var b, x := s.mem.buffers, Some(s.producer.item);
    assert b[s.mem.back := x][s.mem.front := None] == b[s.mem.front := None][s.mem.back := x];
  }

  /**
   * A receive whose load saw the dirty bit, however stale that load, ends by returning a value, and
   * it is the value that was the most recently published one when the receive swapped.
   */
  lemma {:induction false} DirtyReceiveReturns<T>(steps: seq<Step<T>>, step: Step<T>)
    requires Run(steps).Some? && Enabled(Run(steps).value, step)
    ensures var s := Run(steps).value;
            && (step.Load? && IsDirty(s.recent[step.k]) ==> IsDirty(s.mem.state))
            && (step.TakeSwap? ==> 0 < s.published <= |s.sent| && Middle(s.mem) == Some(Nth(s, s.published - 1)))
            && (step.TakeValue? ==> s.mem.buffers[s.mem.front].Some?)
  {
    hide Run, Ordered, Counted, Conserved;
    RunInv(steps);
  }

  /** A load of the current byte finds it clean exactly when nothing was published since the last take. */
  lemma {:induction false} CleanIff<T>(steps: seq<Step<T>>, k: nat)
    requires Run(steps).Some? && Enabled(Run(steps).value, Load(k))
    ensures var s := Run(steps).value;
            && (k + 1 == |s.recent| ==> (!IsDirty(s.recent[k]) <==> s.published == DeliveredBound(s.delivered)))
            && (IsDirty(s.recent[k]) ==> s.published > DeliveredBound(s.delivered))
  {
    hide Run, Counted, Conserved;
    RunInv(steps);
  }

  lemma {:induction false} OrderedDelivered<T>(s: System<T>)
    requires Ordered(s) && s.published <= |s.sent|
    ensures Increasing(s.delivered)
    ensures forall i :: 0 <= i < |s.delivered| ==>
              s.delivered[i].tag < s.published <= |s.sent| && s.delivered[i].value == s.sent[s.delivered[i].tag]
  {
    hide Owned;
    assert DeliveredBound(s.delivered) <= TakenBound(s) <= s.published;
    forall i | 0 <= i < |s.delivered|
      ensures s.delivered[i].tag < s.published
    {
      assert i < |s.delivered| - 1 ==> s.delivered[i].tag < s.delivered[|s.delivered| - 1].tag;
    }
    assert forall i :: 0 <= i < |s.delivered| ==> Genuine(s, s.delivered[i]);
  }

  /** What was delivered is a strictly increasing subsequence of what was published. */
  lemma {:induction false} DeliveredInOrder<T>(steps: seq<Step<T>>)
    requires Run(steps).Some?
    ensures var s := Run(steps).value;
            && Increasing(s.delivered)
            && forall i :: 0 <= i < |s.delivered| ==>
                 s.delivered[i].tag < s.published <= |s.sent| && s.delivered[i].value == s.sent[s.delivered[i].tag]
  {
    hide Run, History, Counted, Conserved;
    RunInv(steps);
    OrderedDelivered(Run(steps).value);
  }

  /** Each value sent is in exactly one place; once released, it was delivered, overwritten or released. */
  lemma {:induction false} ExactlyOnePlace<T>(steps: seq<Step<T>>, t: nat)
    requires Run(steps).Some? && t < |Run(steps).value.sent|
    ensures Places(Run(steps).value, t) == 1
    ensures var s := Run(steps).value;
            s.frees > 0 ==> TagsOf(s.delivered)[t] + s.overwritten[t] + s.released[t] == 1
  {
    RunInv(steps);
  }

  /** The allocation is released at most once, only by the last half, and nobody acts afterwards. */
  lemma {:induction false} ReleasedOnce<T>(steps: seq<Step<T>>)
    requires Run(steps).Some?
    ensures var s := Run(steps).value;
            && s.frees <= 1
            && (s.frees == 1 ==> s.producer.Gone? && s.consumer.Departed?)
            && (s.frees == 1 ==> forall step :: !Enabled(s, step))
            && (s.producer.Gone? && s.consumer.Departed? ==> s.frees == 1)
  {
    RunInv(steps);
  }

  /** `is_abandoned` asked by a half that is still there tells whether the other half was dropped. */
  lemma {:induction false} AbandonedIff<T>(steps: seq<Step<T>>)
    requires Run(steps).Some?
    ensures var s := Run(steps).value;
            && (s.producer.Ready? || s.producer.Holding? || s.producer.Written? ==>
                  (s.refcount == 1 <==> s.consumer.Departed?))
            && (s.consumer.Waiting? || s.consumer.SawDirty? || s.consumer.Swapped? ==>
                  (s.refcount == 1 <==> s.producer.Gone?))
  {
    RunInv(steps);
  }

  // ---------------------------------------------------------------- refinement

  /** The visible operations on a one-cell register that holds the latest value. */
  datatype Event<T> =
    | Published(item: Item<T>)
    | Took(item: Item<T>)
    | SawNothing
    /** A stale load reported nothing although a value was there. */
    | Missed

  /** One register operation; None when the register does not allow it. */
  ghost function Operate<T>(cell: Option<Item<T>>, e: Event<T>): Option<Option<Item<T>>> {
    match e
    case Published(item) => Some(Some(item))
    case Took(item) => if cell == Some(item) then Some(None) else None
    case SawNothing => if cell == None then Some(None) else None
    case Missed => if cell != None then Some(cell) else None
  }

  /** The register's content after a history, if it allows the history. */
  ghost function Register<T>(history: seq<Event<T>>): Option<Option<Item<T>>> {
    if history == [] then Some(None)
    else
      var cell :- Register(history[..|history| - 1]);
      Operate(cell, history[|history| - 1])
  }

  /** Where each operation takes effect: a send at its swap, a receive at its swap or its clean load. */
  ghost function EventOf<T>(s: System<T>, step: Step<T>): seq<Event<T>>
    requires Owned(s.mem) && Enabled(s, step)
  {
    match step
    case PublishSwap =>
      var b := s.mem.buffers[s.mem.back];
      if b.Some? then [Published(b.value)] else []
    case TakeSwap => if Middle(s.mem).Some? then [Took(Middle(s.mem).value)] else []
    case Load(k) =>
      if IsDirty(s.recent[k]) then [] else if IsDirty(s.mem.state) then [Missed] else [SawNothing]
    case _ => []
  }

  ghost function HistoryOf<T>(steps: seq<Step<T>>): seq<Event<T>>
    requires Run(steps).Some?
  {
    if steps == [] then []
    else
      var before := steps[..|steps| - 1];
      HistoryOf(before) + EventOf(Run(before).value, steps[|steps| - 1])
  }

  /** The values a history takes out of the register, in order. */
  ghost function TakenBy<T>(history: seq<Event<T>>): seq<Item<T>> {
    if history == [] then []
    else
      var last := history[|history| - 1];
      TakenBy(history[..|history| - 1]) + if last.Took? then [last.item] else []
  }

  /** The values a history publishes, in order. */
  ghost function PublishedBy<T>(history: seq<Event<T>>): seq<Item<T>> {
    if history == [] then []
    else
      var last := history[|history| - 1];
      PublishedBy(history[..|history| - 1]) + if last.Published? then [last.item] else []
  }

  /** The value a receive has swapped out and not yet handed over. */
  ghost function Pending<T>(s: System<T>): seq<Item<T>>
    requires Owned(s.mem)
  {
    if s.consumer.Swapped? && s.mem.buffers[s.mem.front].Some? then [s.mem.buffers[s.mem.front].value] else []
  }

  /** The first `n` sends as items. */
  ghost function FirstSends<T>(s: System<T>, n: nat): seq<Item<T>>
    requires n <= |s.sent|
  {
    seq(n, i requires 0 <= i < n => Nth(s, i))
  }

  /** What the register has seen is what the slot has done. */
  ghost predicate Agrees<T>(s: System<T>, history: seq<Event<T>>)
    requires Contents(s)
  {
    && Register(history) == Some(Latest(s.mem))
    && TakenBy(history) == s.delivered + Pending(s)
    && PublishedBy(history) == FirstSends(s, s.published)
  }

  lemma {:induction false} HistorySnoc<T>(history: seq<Event<T>>, e: Event<T>)
    ensures Register(history).Some? ==> Register(history + [e]) == Operate(Register(history).value, e)
    ensures TakenBy(history + [e]) == TakenBy(history) + if e.Took? then [e.item] else []
    ensures PublishedBy(history + [e]) == PublishedBy(history) + if e.Published? then [e.item] else []
  {
    assert (history + [e])[..|history|] == history;
  }

  lemma {:induction false} AgreesPublish<T>(s: System<T>, history: seq<Event<T>>)
    requires Contents(s) && s.producer.Written? && Contents(Next(s, PublishSwap)) && Agrees(s, history)
    ensures Agrees(Next(s, PublishSwap), history + EventOf(s, PublishSwap))
  {
    hide Register, TakenBy, PublishedBy;
    HistorySnoc(history, EventOf(s, PublishSwap)[0]);
    assert FirstSends(Next(s, PublishSwap), s.published + 1) == FirstSends(s, s.published) + [Nth(s, s.published)];
  }

  lemma {:induction false} AgreesTake<T>(s: System<T>, history: seq<Event<T>>)
    requires Contents(s) && s.consumer.SawDirty? && Contents(Next(s, TakeSwap)) && Agrees(s, history)
    ensures Agrees(Next(s, TakeSwap), history + EventOf(s, TakeSwap))
  {
    hide Register, TakenBy, PublishedBy;
    HistorySnoc(history, EventOf(s, TakeSwap)[0]);
  }

  lemma {:induction false} AgreesStep<T>(s: System<T>, step: Step<T>, history: seq<Event<T>>)
    requires Contents(s) && Enabled(s, step) && Contents(Next(s, step)) && Agrees(s, history)
    ensures Agrees(Next(s, step), history + EventOf(s, step))
  {
    hide Register, TakenBy, PublishedBy;
    match step
    case PublishSwap => AgreesPublish(s, history);
    case TakeSwap => AgreesTake(s, history);
    case Load(k) =>
      if EventOf(s, step) == [] { assert history + [] == history; } else { HistorySnoc(history, EventOf(s, step)[0]); }
    case _ => assert history + [] == history;
  }

  lemma {:induction false} InvContents<T>(s: System<T>)
    requires Inv(s)
    ensures Contents(s)
  {
  }

  lemma {:induction false} StartAgrees<T>()
    ensures Contents(Start<T>()) && Agrees(Start<T>(), [])
  {
  }

  /**
   * Every interleaving is a history of a one-cell latest-value register: its content is the value
   * the next receive would take, receives return exactly what the history takes, in that order,
   * and the history publishes exactly the sends that have swapped.
   */
  lemma {:induction false} RefinesRegister<T>(steps: seq<Step<T>>)
    requires Run(steps).Some?
    ensures Contents(Run(steps).value) && Agrees(Run(steps).value, HistoryOf(steps))
    decreases |steps|
  {
    hide Contents, Agrees, Next, Enabled, EventOf;
    RunInv(steps);
    InvContents(Run(steps).value);
    if steps == [] {
      StartAgrees<T>();
    } else {
      var before := steps[..|steps| - 1];
      RefinesRegister(before);
      AgreesStep(Run(before).value, steps[|steps| - 1], HistoryOf(before));
    }
  }

  lemma {:induction false} MissedStep<T>(s: System<T>, k: nat)
    requires Contents(s) && History(s) && Ordered(s) && Enabled(s, Load(k))
    ensures Missed in EventOf(s, Load(k)) <==> k == 0 && |s.recent| > 1
    ensures s.published > DeliveredBound(s.delivered) <==> |s.recent| > 1
  {
    assert IsDirty(s.mem.state) <==> |s.recent| > 1;
  }

  /**
   * A load misses a value exactly when it returns the consumer's own last write although a value has
   * been published since; a load of the current byte misses nothing.
   */
  lemma {:induction false} MissedIff<T>(steps: seq<Step<T>>, k: nat)
    requires Run(steps).Some? && Enabled(Run(steps).value, Load(k))
    ensures var s := Run(steps).value;
            && (Missed in EventOf(s, Load(k)) <==> k == 0 && s.published > DeliveredBound(s.delivered))
            && (s.published > DeliveredBound(s.delivered) <==> |s.recent| > 1)
            && (k + 1 == |s.recent| ==> Missed !in EventOf(s, Load(k)))
  {
    hide Run, Counted, Conserved;
    RunInv(steps);
    MissedStep(Run(steps).value, k);
  }
}
