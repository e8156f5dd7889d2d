/** src/atomic_slot.rs: the triple-buffered latest-value slot, its memory and its operations. */
module AtomicSlot {
  import opened Prelude

  /** Bit 0 of the state byte; bits 1 and 2 hold the index of the middle buffer. */
  const DIRTY: byte := 1

  /** `x << 1` on a byte. */
  function Shl1(x: byte): byte {
    (x * 2) % 256
  }

  /** `x >> 1` on a byte. */
  function Shr1(x: byte): byte {
    x / 2
  }

  /** `x | DIRTY` on a byte. */
  function OrDirty(x: byte): byte {
    if x % 2 == 0 then x + DIRTY else x
  }

  /** `x & DIRTY != 0` on a byte. */
  predicate IsDirty(x: byte) {
    x % 2 == 1
  }

  /** The three buffers, the packed state byte and the two private indices. */
  datatype Mem<V> = Mem(buffers: seq<Option<V>>, state: byte, back: byte, front: byte)

  /** The three roles hold the three buffers, one each. */
  predicate Owned<V>(m: Mem<V>) {
    && |m.buffers| == 3
    && m.back < 3 && m.front < 3 && Shr1(m.state) < 3
    && m.back != m.front && m.front != Shr1(m.state) && Shr1(m.state) != m.back
  }

  function Middle<V>(m: Mem<V>): Option<V>
    requires Owned(m)
  {
    m.buffers[Shr1(m.state)]
  }

  /** The value a receive would take. */
  function Latest<V>(m: Mem<V>): Option<V>
    requires Owned(m)
  {
    if IsDirty(m.state) then Middle(m) else None
  }

  function Fresh<V>(): (m: Mem<V>)
    ensures Owned(m)
  {
    Mem([None, None, None], Shl1(1), 0, 2)
  }

  // The atomic actions, in the order the two operations perform them.

  /** First half of a send: the back buffer is overwritten. */
  function StoreBack<V>(m: Mem<V>, v: V): Mem<V>
    requires Owned(m)
  {
    m.(buffers := m.buffers[m.back := Some(v)])
  }

  /** Second half of a send: back and middle are exchanged and the dirty bit set. */
  function SwapBack<V>(m: Mem<V>): Mem<V> {
    m.(state := OrDirty(Shl1(m.back)), back := Shr1(m.state))
  }

  /** First half of a receive: front and middle are exchanged and the dirty bit cleared. */
  function SwapFront<V>(m: Mem<V>): Mem<V> {
    m.(state := Shl1(m.front), front := Shr1(m.state))
  }

  /** Second half of a receive: the front buffer is emptied. */
  function TakeFront<V>(m: Mem<V>): Mem<V>
    requires Owned(m)
  {
    m.(buffers := m.buffers[m.front := None])
  }

  /** The swaps permute the roles, and the shift and or encode the index and the bit exactly. */
  lemma {:induction false} SwapsKeepOwned<V>(m: Mem<V>)
    requires Owned(m)
    ensures Owned(SwapBack(m)) && IsDirty(SwapBack(m).state) && Shr1(SwapBack(m).state) == m.back
    ensures Owned(SwapFront(m)) && !IsDirty(SwapFront(m).state) && Shr1(SwapFront(m).state) == m.front
  {
  }

  /** Between operations: dirty means the middle buffer is full, clean that it is empty, front is empty. */
  predicate Settled<V>(m: Mem<V>) {
    && Owned(m)
    && (IsDirty(m.state) <==> Middle(m).Some?)
    && m.buffers[m.front] == None
  }

  /** `fetch_sub(1)` on a byte. */
  function Decrement(refcount: byte): byte {
    (refcount + 255) % 256
  }

  /** The half that finds the count at one releases the allocation. */
  predicate LastOut(prev: byte) {
    prev == 1
  }

  function Live(b: bool): nat {
    if b then 1 else 0
  }

  class Shared<T> {
    const buffers: array<Option<T>>
    var state: byte
    var refcount: byte
    /** Which halves have been dropped, and how often the allocation has been released. */
    ghost var senderGone: bool
    ghost var receiverGone: bool
    ghost var frees: nat

    /** The count tells how many halves are left, and the allocation is released when none is. */
    ghost predicate Counted()
      reads this
    {
      refcount == Live(!senderGone) + Live(!receiverGone) && frees == Live(senderGone && receiverGone)
    }

    constructor ()
      ensures fresh(buffers) && buffers[..] == [None, None, None]
      ensures state == Shl1(1) && Counted() && !senderGone && !receiverGone
    {
      buffers := new Option<T>[3](_ => None);
      state := Shl1(1);
      refcount := 2;
      senderGone, receiverGone, frees := false, false, 0;
    }

    /** `drop_half`: the last half out releases the allocation. */
    method DropHalf()
      modifies this`refcount, this`frees
      ensures refcount == Decrement(old(refcount))
      ensures frees == old(frees) + Live(LastOut(old(refcount)))
    {
      var prev := refcount;
      refcount := Decrement(prev);
      if LastOut(prev) {
        frees := frees + 1;
      }
    }
  }

  ghost function View<T>(tx: SlotSender<T>, rx: SlotReceiver<T>): Mem<T>
    reads tx, tx.shared, tx.shared.buffers, rx
  {
    Mem(tx.shared.buffers[..], tx.shared.state, tx.back, rx.front)
  }

  /** Two halves of one slot, between operations. */
  ghost predicate Paired<T>(tx: SlotSender<T>, rx: SlotReceiver<T>)
    reads tx, tx.shared, tx.shared.buffers, rx
  {
    tx.shared == rx.shared && Settled(View(tx, rx))
  }

  class SlotSender<T> {
    const shared: Shared<T>
    var back: byte

    constructor (s: Shared<T>)
      ensures shared == s && back == 0
    {
      shared := s;
      back := 0;
    }

    /** Uninterrupted, a send makes its value the latest, whatever was there. */
    method Send(value: T, ghost rx: SlotReceiver<T>)
      requires Paired(this, rx)
      modifies this`back, shared`state, shared.buffers
      ensures Paired(this, rx) && Latest(View(this, rx)) == Some(value)
      ensures View(this, rx) == SwapBack(StoreBack(old(View(this, rx)), value))
    {
      ghost var before := View(this, rx);
      shared.buffers[back] := Some(value);
      ghost var stored := StoreBack(before, value);
      assert View(this, rx) == stored;
      var oldState := shared.state;
      shared.state := OrDirty(Shl1(back));
      back := Shr1(oldState);
      SwapsKeepOwned(stored);
    }

    /** Asked by a sender that is still there: whether the receiver was dropped. */
    method IsAbandoned() returns (b: bool)
      requires shared.Counted() && !shared.senderGone
      ensures b == shared.receiverGone
    {
      return shared.refcount == 1;
    }

    /** `drop`: the allocation is released exactly if the receiver was dropped before. */
    method Drop()
      requires shared.Counted() && !shared.senderGone
      modifies shared`refcount, shared`frees, shared`senderGone
      ensures shared.Counted() && shared.senderGone && shared.frees == Live(shared.receiverGone)
    {
      shared.DropHalf();
      shared.senderGone := true;
    }
  }

  class SlotReceiver<T> {
    const shared: Shared<T>
    var front: byte

    constructor (s: Shared<T>)
      ensures shared == s && front == 2
    {
      shared := s;
      front := 2;
    }

    /** Uninterrupted, a receive returns the latest value and leaves none. */
    method Recv(ghost tx: SlotSender<T>) returns (r: Option<T>)
      requires Paired(tx, this)
      modifies this`front, shared`state, shared.buffers
      ensures Paired(tx, this) && r == old(Latest(View(tx, this))) && Latest(View(tx, this)) == None
      ensures View(tx, this) == if r.None? then old(View(tx, this)) else TakeFront(SwapFront(old(View(tx, this))))
    {
      if !IsDirty(shared.state) {
        return None;
      }
      ghost var before := View(tx, this);
      SwapsKeepOwned(before);
      var oldState := shared.state;
      shared.state := Shl1(front);
      front := Shr1(oldState);
      ghost var swapped := SwapFront(before);
      assert View(tx, this) == swapped;
      r := shared.buffers[front];
      shared.buffers[front] := None;
      assert View(tx, this) == TakeFront(swapped);
    }

    /** Asked by a receiver that is still there: whether the sender was dropped. */
    method IsAbandoned() returns (b: bool)
      requires shared.Counted() && !shared.receiverGone
      ensures b == shared.senderGone
    {
      return shared.refcount == 1;
    }

    /** `drop`: the allocation is released exactly if the sender was dropped before. */
    method Drop()
      requires shared.Counted() && !shared.receiverGone
      modifies shared`refcount, shared`frees, shared`receiverGone
      ensures shared.Counted() && shared.receiverGone && shared.frees == Live(shared.senderGone)
    {
      shared.DropHalf();
      shared.receiverGone := true;
    }
  }

  /** `slot()`: back is 0, middle 1 and clean, front 2. */
  method NewSlot<T>() returns (tx: SlotSender<T>, rx: SlotReceiver<T>)
    ensures fresh(tx) && fresh(rx) && fresh(tx.shared) && fresh(tx.shared.buffers)
    ensures Paired(tx, rx) && View(tx, rx) == Fresh()
    ensures tx.shared.Counted() && !tx.shared.senderGone && !tx.shared.receiverGone
  {
    var shared := new Shared<T>();
    tx := new SlotSender(shared);
    rx := new SlotReceiver(shared);
  }
}
