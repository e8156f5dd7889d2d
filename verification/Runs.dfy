/** src/exchange/mod.rs: what a whole run of the read loop does, by the positions of its frames and passes. */
module Runs {
  import opened Prelude
  import opened Types
  import opened Exchange

  // ---------------------------------------------------------------- one connection

  /** The last id the filter holds before frame `k` of a connection. */
  function LastBefore(incoming: seq<Incoming>, k: nat): u64
    requires k <= |incoming|
  {
    LastAfter(0, IdsOf(incoming[..k]))
  }

  /** Frame `k` is a book that passes the filter. */
  predicate IsAccepted(incoming: seq<Incoming>, k: nat)
    requires k < |incoming|
  {
    && incoming[k].Text? && incoming[k].reading.Book?
    && Passes(LastBefore(incoming, k), incoming[k].reading.id)
  }

  /** Frame `k` counts as an error: unparsable, stale, a server error, or a broken stream. */
  predicate IsError(incoming: seq<Incoming>, k: nat)
    requires k < |incoming|
  {
    match incoming[k]
    case Text(Unusable(error), _) => error
    case Text(ServerError, _) => true
    case Text(Book(id, _), _) => !Passes(LastBefore(incoming, k), id)
    case Broken => true
    case _ => false
  }

  /** The loop returns at frame `k`: cancelled, or an accepted book while the consumer is gone. */
  predicate Leaves(incoming: seq<Incoming>, k: nat)
    requires k < |incoming|
  {
    incoming[k].CancelRequested? || (IsAccepted(incoming, k) && incoming[k].abandoned)
  }

  /** The connection ends at frame `k` and another one is tried: a broken stream or a server error. */
  predicate Breaks(incoming: seq<Incoming>, k: nat)
    requires k < |incoming|
  {
    incoming[k].Broken? || (incoming[k].Text? && incoming[k].reading.ServerError?)
  }

  predicate Goes(incoming: seq<Incoming>, k: nat)
    requires k < |incoming|
  {
    !Leaves(incoming, k) && !Breaks(incoming, k)
  }

  /** The first frame that ends the connection is `k`; the length when the stream just ends. */
  predicate EndsAt(incoming: seq<Incoming>, k: nat) {
    && k <= |incoming|
    && (forall j :: 0 <= j < k ==> Goes(incoming, j))
    && (k < |incoming| ==> !Goes(incoming, k))
  }

  function EndFrom(incoming: seq<Incoming>, k: nat): (e: nat)
    requires k <= |incoming| && forall j :: 0 <= j < k ==> Goes(incoming, j)
    ensures EndsAt(incoming, e)
    decreases |incoming| - k
  {
    if k < |incoming| && Goes(incoming, k) then EndFrom(incoming, k + 1) else k
  }

  function EndOf(incoming: seq<Incoming>): (e: nat)
    ensures EndsAt(incoming, e)
  {
    EndFrom(incoming, 0)
  }

  /** How many frames are looked at: those before the end and the one that ends it. */
  function SeenOf(incoming: seq<Incoming>): (n: nat)
    ensures n <= |incoming|
  {
    if EndOf(incoming) < |incoming| then EndOf(incoming) + 1 else |incoming|
  }

  /** The accepted books among the first `n` frames, in order. */
  function BooksOf(epoch: nat, incoming: seq<Incoming>, n: nat): seq<Sent>
    requires n <= |incoming|
  {
    if n == 0 then []
    else
      BooksOf(epoch, incoming, n - 1)
      + if IsAccepted(incoming, n - 1) then [Sent(epoch, incoming[n - 1].reading.id, incoming[n - 1].reading.book)] else []
  }

  /** How many of the first `n` frames are accepted books, and how many are errors. */
  function AcceptedCount(incoming: seq<Incoming>, n: nat): nat
    requires n <= |incoming|
  {
    if n == 0 then 0 else AcceptedCount(incoming, n - 1) + if IsAccepted(incoming, n - 1) then 1 else 0
  }

  function ErrorCount(incoming: seq<Incoming>, n: nat): nat
    requires n <= |incoming|
  {
    if n == 0 then 0 else ErrorCount(incoming, n - 1) + if IsError(incoming, n - 1) then 1 else 0
  }

  function TallyOf(epoch: nat, incoming: seq<Incoming>, n: nat): Tally
    requires n <= |incoming|
  {
    Tally(BooksOf(epoch, incoming, n), AcceptedCount(incoming, n), ErrorCount(incoming, n), 0)
  }

  lemma {:induction false} IdsJoin(a: seq<Incoming>, b: seq<Incoming>)
    ensures IdsOf(a + b) == IdsOf(a) + IdsOf(b)
    decreases |a|
  {
    if a == [] {
      assert a + b == b;
    } else {
      assert (a + b)[1..] == a[1..] + b;
      IdsJoin(a[1..], b);
    }
  }

  lemma {:induction false} LastJoin(last: u64, a: seq<u64>, b: seq<u64>)
    ensures LastAfter(last, a + b) == LastAfter(LastAfter(last, a), b)
    decreases |a|
  {
    hide Passes;
    if a == [] {
      assert a + b == b;
    } else {
      assert (a + b)[1..] == a[1..] + b;
      LastJoin(if Passes(last, a[0]) then a[0] else last, a[1..], b);
    }
  }

  /** The filter takes over the id of an accepted book and of nothing else. */
  lemma {:induction false} LastNext(incoming: seq<Incoming>, k: nat)
    requires k < |incoming|
    ensures LastBefore(incoming, 0) == 0
    ensures LastBefore(incoming, k + 1) == if IsAccepted(incoming, k) then incoming[k].reading.id else LastBefore(incoming, k)
  {
    hide Passes;
    var one := [incoming[k]];
    assert incoming[..k + 1] == incoming[..k] + one;
    IdsJoin(incoming[..k], one);
    assert one[1..] == [] && IdsOf([]) == [];
    assert IdsOf(one) == if one[0].Text? && one[0].reading.Book? then [one[0].reading.id] else [];
    LastJoin(0, IdsOf(incoming[..k]), IdsOf(one));
  }

  /** What the loop does with frame `k`, in terms of the predicates above. */
  lemma {:induction false} StepIs(epoch: nat, incoming: seq<Incoming>, k: nat)
    requires k < |incoming|
    ensures var (tally, next, end) := FrameStep(epoch, LastBefore(incoming, k), incoming[k]);
            && tally.messages == (if IsAccepted(incoming, k) then 1 else 0)
            && tally.errors == (if IsError(incoming, k) then 1 else 0) && tally.reconnections == 0
            && next == LastBefore(incoming, k + 1)
            && (end == None <==> Goes(incoming, k)) && (end == Some(true) <==> Leaves(incoming, k))
            && tally.sent == if IsAccepted(incoming, k) && Goes(incoming, k)
               then [Sent(epoch, incoming[k].reading.id, incoming[k].reading.book)] else []
  {
    hide LastBefore, Passes;
    LastNext(incoming, k);
  }

  lemma {:induction false} NoneBefore(incoming: seq<Incoming>)
    ensures LastBefore(incoming, 0) == 0
  {
  }

  /** Up to the first frame that ends it, a connection has added what its frames add. */
  lemma {:induction false} ReadSoFar(epoch: nat, incoming: seq<Incoming>, n: nat)
    requires n <= |incoming| && forall j :: 0 <= j < n ==> Goes(incoming, j)
    ensures var (more, stop) := ReadBooks(epoch, LastBefore(incoming, n), incoming[n..]);
            ReadBooks(epoch, 0, incoming) == (TallyOf(epoch, incoming, n).Plus(more), stop)
    decreases n
  {
    hide ReadBooks, FrameStep, LastBefore, Goes, Leaves, IsAccepted, IsError;
    if n == 0 {
      assert incoming[0..] == incoming;
      NoneBefore(incoming);
      PlusNothing(ReadBooks(epoch, 0, incoming).0);
    } else {
      ReadSoFar(epoch, incoming, n - 1);
      StepIs(epoch, incoming, n - 1);
      ReadStep(epoch, LastBefore(incoming, n - 1), incoming, n - 1, TallyOf(epoch, incoming, n - 1));
      var tally := FrameStep(epoch, LastBefore(incoming, n - 1), incoming[n - 1]).0;
      assert TallyOf(epoch, incoming, n - 1).Plus(tally) == TallyOf(epoch, incoming, n);
    }
  }

  /**
   * A connection, exactly: with `k` the first frame that ends it, it sends the accepted books before
   * `k`, counts the accepted books and the errors up to and with `k`, and the loop returns for good
   * if and only if `k` is a cancellation or an accepted book whose consumer is gone.
   */
  lemma {:induction false} ConnectionIs(epoch: nat, incoming: seq<Incoming>, k: nat)
    requires EndsAt(incoming, k)
    ensures var (tally, stop) := ReadBooks(epoch, 0, incoming);
            var seen := if k < |incoming| then k + 1 else k;
            && tally == Tally(BooksOf(epoch, incoming, k), AcceptedCount(incoming, seen), ErrorCount(incoming, seen), 0)
            && (stop <==> k < |incoming| && Leaves(incoming, k))
  {
    hide ReadBooks, FrameStep, LastBefore, Leaves, Breaks, IsAccepted, IsError;
    ReadSoFar(epoch, incoming, k);
    var sum := TallyOf(epoch, incoming, k);
    ReadStep(epoch, LastBefore(incoming, k), incoming, k, sum);
    if k < |incoming| {
      StepIs(epoch, incoming, k);
    } else {
      PlusNothing(sum);
    }
  }

  // ---------------------------------------------------------------- the whole run

  /** The attempt gave a connection that is read from. */
  predicate Reads(attempt: Attempt) {
    attempt.Connected? && attempt.subscribed
  }

  /** The loop returns while reading. */
  predicate LeavesReading(attempt: Attempt) {
    Reads(attempt) && var k := EndOf(attempt.incoming); k < |attempt.incoming| && Leaves(attempt.incoming, k)
  }

  /** The loop returns in this pass: cancelled before, after or in the backoff, or while reading. */
  predicate Returns(turn: Turn) {
    turn.cancelled || LeavesReading(turn.attempt) || turn.cancelledAfter || turn.cancelledInBackoff
  }

  /** How many connections the first `t` passes establish. */
  function Connections(script: seq<Turn>, t: nat): nat
    requires t <= |script|
  {
    if t == 0 then 0 else Connections(script, t - 1) + if script[t - 1].attempt.Connected? then 1 else 0
  }

  /** What an attempt adds: a subscribed connection its books and counts, any other attempt one error. */
  function AttemptTally(epoch: nat, attempt: Attempt): Tally {
    if Reads(attempt) then
      var incoming := attempt.incoming;
      Tally(BooksOf(epoch + 1, incoming, EndOf(incoming)), AcceptedCount(incoming, SeenOf(incoming)),
            ErrorCount(incoming, SeenOf(incoming)), 0)
    else
      Tally([], 0, 1, 0)
  }

  /** What a pass adds: that, and one reconnection unless the loop returns before the backoff. */
  function PassTally(epoch: nat, turn: Turn): Tally {
    if turn.cancelled then Tally([], 0, 0, 0)
    else
      var again := if LeavesReading(turn.attempt) || turn.cancelledAfter then 0 else 1;
      AttemptTally(epoch, turn.attempt).(reconnections := again)
  }

  /** What the first `t` passes add. */
  function PassesTally(script: seq<Turn>, t: nat): Tally
    requires t <= |script|
  {
    if t == 0 then Tally([], 0, 0, 0)
    else PassesTally(script, t - 1).Plus(PassTally(Connections(script, t - 1), script[t - 1]))
  }

  lemma {:induction false} AttemptIs(epoch: nat, attempt: Attempt)
    ensures AttemptBooks(epoch, attempt) == (AttemptTally(epoch, attempt), LeavesReading(attempt))
    ensures AttemptTally(epoch, attempt).reconnections == 0
  {
    hide ReadBooks, EndOf, BooksOf, AcceptedCount, ErrorCount, Leaves;
    if Reads(attempt) {
      ConnectionIs(epoch + 1, attempt.incoming, EndOf(attempt.incoming));
    }
  }

  lemma {:induction false} PassIs(epoch: nat, turn: Turn)
    ensures TurnBooks(epoch, turn) == (PassTally(epoch, turn), Returns(turn))
  {
    hide AttemptBooks, AttemptTally, LeavesReading;
    AttemptIs(epoch, turn.attempt);
    var tally := AttemptTally(epoch, turn.attempt);
    assert tally.sent + [] == tally.sent;
  }

  lemma {:induction false} PlayedSoFar(script: seq<Turn>, t: nat)
    requires t <= |script| && forall u :: 0 <= u < t ==> !Returns(script[u])
    ensures var (more, returned) := Played(Connections(script, t), script[t..]);
            Played(0, script) == (PassesTally(script, t).Plus(more), returned)
    decreases t
  {
    hide Played, PassTally, Returns, TurnBooks;
    if t == 0 {
      assert script[0..] == script;
      PlusNothing(Played(0, script).0);
    } else {
      PlayedSoFar(script, t - 1);
      PassIs(Connections(script, t - 1), script[t - 1]);
      TurnStep(Connections(script, t - 1), script, t - 1, PassesTally(script, t - 1));
    }
  }

  /**
   * A run, exactly: the loop returns in the first pass `t` that returns and in no other, every pass up
   * to and with it adds what it adds, and none after it is reached. After a timeout, a refusal, a
   * failed subscription, a broken or ended stream or a server error the next pass follows.
   */
  lemma {:induction false} RunIs(script: seq<Turn>, t: nat)
    requires t <= |script| && (forall u :: 0 <= u < t ==> !Returns(script[u])) && (t < |script| ==> Returns(script[t]))
    ensures Played(0, script) == (PassesTally(script, if t < |script| then t + 1 else t), t < |script|)
  {
    hide Played, PassTally, Returns, TurnBooks;
    PlayedSoFar(script, t);
    TurnStep(Connections(script, t), script, t, PassesTally(script, t));
    if t < |script| {
      PassIs(Connections(script, t), script[t]);
    } else {
      PlusNothing(PassesTally(script, t));
    }
  }

  lemma {:induction false} BookThen(epoch: nat, last: u64, id: u64, book: OrderBook, rest: seq<Incoming>)
    requires Passes(last, id)
    ensures var (more, stop) := ReadBooks(epoch, id, rest);
            ReadBooks(epoch, last, [Text(Book(id, book), false)] + rest) == (Tally([Sent(epoch, id, book)], 1, 0, 0).Plus(more), stop)
  {
    hide Passes;
    var frame := Text(Book(id, book), false);
    assert ([frame] + rest)[1..] == rest;
    assert FrameStep(epoch, last, frame) == (Tally([Sent(epoch, id, book)], 1, 0, 0), id, None);
  }

  lemma {:induction false} EndsHere(epoch: nat, last: u64)
    ensures ReadBooks(epoch, last, [Broken]) == (ONE_ERROR, false) && ReadBooks(epoch, last, []) == (NOTHING, false)
  {
  }

  lemma {:induction false} PassThen(epoch: nat, turn: Turn, rest: seq<Turn>, tally: Tally)
    requires turn == Turn(false, turn.attempt, false, false) && Reads(turn.attempt)
    requires ReadBooks(epoch + 1, 0, turn.attempt.incoming) == (tally, false)
    ensures var (more, returned) := Played(epoch + 1, rest);
            Played(epoch, [turn] + rest) == (tally.Plus(ONE_RECONNECTION).Plus(more), returned)
    ensures Played(epoch + 1, []) == (NOTHING, false)
  {
    hide ReadBooks;
    assert ([turn] + rest)[1..] == rest;
  }

  /** A book, a broken stream, and a book on the next connection: both are sent. */
  lemma {:induction false} ReconnectExample(a: OrderBook, b: OrderBook)
    ensures var first := Turn(false, Connected(true, [Text(Book(7, a), false), Broken]), false, false);
            var second := Turn(false, Connected(true, [Text(Book(8, b), false)]), false, false);
            Played(0, [first, second]) == (Tally([Sent(1, 7, a), Sent(2, 8, b)], 2, 1, 2), false)
  {
    hide React, Played, ReadBooks, TurnBooks, FrameStep;
    var x, y := [Text(Book(7, a), false), Broken], [Text(Book(8, b), false)];
    var first, second := Turn(false, Connected(true, x), false, false), Turn(false, Connected(true, y), false, false);
    BookThen(1, 0, 7, a, [Broken]);
    BookThen(2, 0, 8, b, []);
    assert [Text(Book(7, a), false)] + [Broken] == x && [Text(Book(8, b), false)] + [] == y;
    EndsHere(1, 7);
    EndsHere(2, 8);
    var t1, t2 := Tally([Sent(1, 7, a)], 1, 1, 0), Tally([Sent(2, 8, b)], 1, 0, 0);
    assert Tally([Sent(1, 7, a)], 1, 0, 0).Plus(ONE_ERROR) == t1 && t2.Plus(NOTHING) == t2;
    PassThen(0, first, [second], t1);
    PassThen(1, second, [], t2);
    assert [first] + [second] == [first, second] && [second] + [] == [second];
    assert Played(1, [second]) == (Tally([Sent(2, 8, b)], 1, 0, 1), false);
    assert Played(0, [first] + [second]).0.sent == [Sent(1, 7, a), Sent(2, 8, b)];
  }
}
