# Order book aggregator: model and proofs

The program reads order book frames from two exchanges, decodes the top of each book straight from
the bytes, hands every book to a merger thread through a triple-buffered slot, and publishes one
merged summary per book received. This project models that path and proves what it promises, from
the bytes of a frame to the published summary.

| module | models |
|---|---|
| `Prelude`, `Types` | bytes, machine integers, decimal values; the books and summaries |
| `FixedPoint` | decimal text to and from 10^-8 fixed point (`src/types.rs`) |
| `JsonWalker` | the byte scanner and the fused level reader (`src/json_walker.rs`) |
| `LevelArrays`, `Keys`, `Wire` | a printer of the wire format and how the scanner meets it |
| `BinanceWalker`, `BitstampWalker` | the two frame decoders (`src/exchange/binance.rs`, `src/exchange/bitstamp.rs`) |
| `Layouts` | the exchanges' own frames, spelled out as text |
| `AtomicSlot` | the slot's memory and operations, uninterrupted (`src/atomic_slot.rs`) |
| `SlotProtocol` | the same atomic actions under every interleaving, with drops |
| `Merge`, `MergeTop`, `Merger` | k-way merge, when its top is the best, book store, merger loop (`src/merger.rs`) |
| `Exchange`, `Runs` | frame handlers, stale-id filters, reconnecting read loop, what whole runs do (`src/exchange/`) |
| `Metrics` | the lazily cumulated histogram (`src/metrics.rs`) |
| `Pipeline` | all of it together |

## How to read it

Code that updates state is a class or a method with loops, proved equal to a function of its inputs
(`Scanner.ReadRawLevels` computes `LevelsAt`, `MergeTopN` computes `Merged`, `RunSpsc` computes
`AllDue`). What the program promises is then proved about that function against something defined
independently of it: the value of a decimal text, a frame spelled out as text, a stable sort, a
one-cell register, the list of books received, the positions of frames and passes in a run, the
number of durations within a bound.

Concurrency is a step system. Each atomic action of `send`, `recv` and dropping is one step, steps of
the two halves interleave in any order, and a history records every value sent, delivered,
overwritten and released. The memory actions are the very functions (`StoreBack`, `SwapBack`,
`SwapFront`, `TakeFront`) that the methods of `AtomicSlot` are proved to perform. A relaxed load may
return any state byte written since the consumer's own last write. Nothing is claimed about a weak
memory model beyond that: the release swap orders a buffer write before the take that reads it, but
no ordering runs from a take back to the producer's later reuse of the buffer, so exclusion here is
exclusion over interleavings and not freedom from data races.

The environment enters as parameters: frames, time readings, what each select or poll yields, whether
the other half is gone. Instants are nonnegative integers on one clock, subtraction saturates. The
substring search is the first occurrence at or after a position. The broadcast of summaries is the
list of summaries published. The comparator closures are the two values of `Side`. Ghost parameters
(`rx`, `tx`) name the other half of a slot in contracts and carry no run-time meaning.

Integer widths are modelled: `u64` values and the scanner's `u32` digit counters are bounded types
with the checked operations of the source, and every unchecked operation on them is proved to stay
in range. For the counters this needs frames shorter than 2^32 bytes (`src/json_walker.rs:134`),
which the decoders therefore require. The spread wraps in 64 bits, the state byte and the reference
count in 8, and `sum_ns` wraps.

## Where the code does not do what it says

- Ids. The filter comments expect ids to rise (`src/exchange/binance.rs:103`,
  `src/exchange/bitstamp.rs:147`), but an id of 0 is always accepted and resets the filter.
  `IncreasingIff` says exactly when the accepted ids of a connection rise: no frame after the first
  carries id 0. `ResetExample` is a run in which they do not.
- Sorted books. `src/types.rs:179` asks for books sorted by price. That is enough for the spread
  (`SpreadIsMinimum`), but not for the merge to be a sort, because the comparator breaks price ties by
  amount: `PriceOrderIsNotEnough` is a book whose merged top `n` is wrong for every `n`.
  `TopIsSortedIff` says exactly when the merged top `n` is the best `n` of all levels: no level whose
  place among all levels is below `n` stands behind a worse level of its own book. `DueIsBestIff` says
  it of every summary the loop publishes. Books sorted under the full comparator meet the condition for
  every `n` (`SortedInOrder`), and for all levels together only they do (`StableIffSorted`); distinct
  prices are enough (`StrictIsSorted`).
- Dangling escape. The comment at `src/json_walker.rs:86` calls the skip past an escape safe. It leaves
  the position one past the end when the escape is the last byte. The Bitstamp walker ignores that
  failure and searches again from there, which slices out of range and ends the process
  (`Cargo.toml:72` makes a panic abort). `AbortsIff` gives the exact condition on the frame,
  `AbortExample` a frame that meets it, and every other frame is decoded without leaving its bounds.
  The Binance walker stays in bounds on every frame.

## Model

| member | source | states |
|---|---|---|
| FixedPoint.Parse | src/types.rs:48-97 | accepts exactly the decimal texts whose floor(value * 10^8) fits 64 bits, and returns that floor; no unchecked step overflows |
| FixedPoint.DecodedSpelled | src/types.rs:43-97 | digits w, or w, a dot and f, denote v if and only if v fits 64 bits and v * 10^k <= wf * 10^8 < (v + 1) * 10^k, with wf the digits read as one number and k the length of f |
| FixedPoint.DecodedIsSpelled | src/types.rs:43-97 | no other text denotes anything |
| FixedPoint.FloorSplit | src/types.rs:55-95 | whole part times 10^8 plus the first eight fraction digits padded with zeros is that floor, for a fraction of any length |
| FixedPoint.WholeStep | src/types.rs:56-63 | an overflow while the whole part is read rejects the text whatever follows, so leaving early is right |
| FixedPoint.Assemble | src/types.rs:93-96 | the unchecked padding multiplication stays below 10^8, its table index is in range, and the checked sum alone decides the result |
| FixedPoint.DisplayParses | src/types.rs:144-150 | parsing the displayed form of any 64-bit value gives that value back |
| FixedPoint.ParseDisplays | src/types.rs:48-150 | displaying a parsed text gives its eight-decimal truncation without leading zeros |
| JsonWalker.Scanner.Seek | src/json_walker.rs:62-67 | lands just behind the first occurrence, or stays put when there is none; never leaves the frame |
| JsonWalker.Scanner.ReadString | src/json_walker.rs:71-94 | returns the bytes up to the first quote that an even number of backslashes precedes; ends one past the frame exactly on a dangling escape |
| JsonWalker.Scanner.ReadU64 | src/json_walker.rs:99-117 | the value of the longest digit run, or 0 when it does not fit 64 bits, with the stopping position in both cases |
| JsonWalker.NumberStep | src/json_walker.rs:102-115 | the scan stops on overflow exactly behind the longest prefix that fits, and only if the whole run does not fit |
| JsonWalker.Scanner.ReadQuotedDecimal | src/json_walker.rs:127-185 | succeeds with v behind q exactly when q is the first quote after the opening one and the text between parses to v: the fused pass agrees with the plain parser |
| JsonWalker.Scanner.ReadWhole | src/json_walker.rs:133-144 | fails only on texts that do not parse; otherwise the part before the dot is read in full, and its 32-bit digit counter never overflows |
| JsonWalker.Scanner.ReadFraction | src/json_walker.rs:146-167 | keeps at most eight fraction digits, checks the others, and fails only on texts that do not parse |
| JsonWalker.Scanner.ReadEightDigits | src/json_walker.rs:150-158 | the value of the first eight fraction digits, or fewer when the next quote comes first; the unchecked accumulation cannot overflow |
| JsonWalker.Scanner.SkipDigits | src/json_walker.rs:159-166 | succeeds exactly when only digits stand before the next quote, and stops at it |
| JsonWalker.Scanner.ReadOptionalRawLevels | src/json_walker.rs:191-200 | an absent key reads as no levels and leaves the position; a present one must be followed by a level array |
| JsonWalker.ReadRawLevels | src/json_walker.rs:211-252 | terminates on every input within the frame with the result and end of `LevelsAt`; says exactly whether a push met a full array, which with room for at least one level never happens |
| JsonWalker.ReadEntry | src/json_walker.rs:223-233 | one bracketed pair of quoted decimals, or failure |
| LevelArrays.QuotedStands | src/json_walker.rs:127-185 | a decimal text printed between quotes reads back as its value, ending behind the quote |
| LevelArrays.LevelsRoundTrip | src/json_walker.rs:211-252 | reading any printed level list gives its first n nonzero levels in order, and the exact end position |
| LevelArrays.ConsumedWhere | src/json_walker.rs:238-248 | the reader ends behind the closing bracket, or just behind the comma after the pair that is the n-th nonzero one |
| LevelArrays.LevelsSound | src/json_walker.rs:211-252 | whatever is accepted, of any input, is a printed level list, whole or cut behind a comma at n nonzero levels, and is read as what it denotes |
| LevelArrays.LevelsBounded | src/json_walker.rs:234-243 | for any input at most n levels come out, none with amount zero |
| LevelArrays.LevelsBytes | src/json_walker.rs:203-210 | a printed level list holds no letter and ends with its bracket, so its unread rest cannot hold a key |
| LevelArrays.PairsOfDenote | src/types.rs:144-150 | every list of levels has a wire form in displayed decimals, of which exactly the levels with nonzero amount are kept |
| Keys.NoBorder | src/exchange/binance.rs:33-37 | a quoted key never overlaps a shifted copy of itself |
| Keys.NoStraddle | src/json_walker.rs:61-67 | no occurrence of a key begins in filler that does not contain it, even one that would run into the key |
| Keys.KeyFound | src/json_walker.rs:61-67 | the search lands on the printed key after any filler free of it |
| Keys.LevelsThenFree | src/json_walker.rs:235-243 | an unread rest of a level array before key-free filler adds no occurrence of a key |
| Keys.ChunksFree | src/json_walker.rs:61-67 | an object of quoted texts holds a key only where that very text is followed by a colon |
| Wire.NumberStands | src/json_walker.rs:99-117 | every 64-bit number printed in decimal before a non-digit reads back, ending behind its digits |
| Wire.NumberRead | src/json_walker.rs:96-117 | any digits after any white space read as their value, as 0 when there are none or the value exceeds 64 bits |
| Wire.SidesStand | src/exchange/binance.rs:52-55 | two printed sides of any length are both read to their first DEPTH nonzero levels, also when the first reader stops early inside its array |
| Wire.OptionalSound | src/json_walker.rs:191-252 | a side decoded from any input is empty for want of its key or is a printed array directly behind it |
| BinanceWalker.Walk | src/exchange/binance.rs:43-57 | computes `Decode` on every frame, without a scanner call past its end; `Layouts.BinanceTextDecodes` says what that is on the exchange's own frames |
| BinanceWalker.ParseDepthJson | src/exchange/binance.rs:132-141 | the decoded sides under the exchange's own id, or nothing |
| BinanceWalker.SnapshotRoundTrip | src/exchange/binance.rs:43-57 | a printed snapshot with any 64-bit id, any key-free filler and any number of levels decodes to that id and the first DEPTH nonzero levels of each side |
| BinanceWalker.SnapshotWithoutId | src/exchange/binance.rs:46-51 | without the id key the id is 0 and both sides are still found from the start |
| BinanceWalker.DecodeSound | src/exchange/binance.rs:52-56 | whatever decodes has printed level arrays right behind the first occurrence of each key, in order, and returns what they denote |
| BinanceWalker.DecodeBounded | src/exchange/binance.rs:43-57 | for any input at most DEPTH levels a side and no zero amount |
| BitstampWalker.Walk | src/exchange/bitstamp.rs:55-92 | computes `Decode` on every message, or reports that the process aborts; `Layouts.BitstampTextDecodes` and `Layouts.EventTextDecodes` say what that is on the exchange's own messages |
| BitstampWalker.ParseOrderBookJson | src/exchange/bitstamp.rs:189-200 | the sides of a data message, nothing for any other event |
| BitstampWalker.AbortsIff | src/exchange/bitstamp.rs:69-78 | the walk leaves its frame exactly when the string behind the first microtimestamp key never closes and ends in an unescaped backslash |
| BitstampWalker.AbortExample | src/json_walker.rs:85-89 | a frame on which that happens |
| BitstampWalker.ClosedStringsAreRead | src/json_walker.rs:80-84 | on UTF-8 text the boundary check never rejects a closed string |
| BitstampWalker.EscapedStands | src/json_walker.rs:71-94 | a quoted text with escapes, escaped quotes among them, reads back as it stands |
| BitstampWalker.MicroOfIs | src/exchange/bitstamp.rs:69-74 | one or more digits, perhaps after a plus sign, stand for their value unless it exceeds 64 bits; every other text stands for 0 |
| BitstampWalker.TextRoundTrip | src/exchange/bitstamp.rs:55-92 | a printed data message with any text as its microtimestamp decodes to what that text stands for and the first DEPTH nonzero levels of each side |
| BitstampWalker.DataRoundTrip | src/exchange/bitstamp.rs:55-92 | a printed data message with any timestamp, key-free filler and any number of levels decodes to the event "data", the timestamp and the first DEPTH nonzero levels of each side |
| BitstampWalker.WireRoundTrip | src/exchange/bitstamp.rs:46-54 | the same for the exchange's own layout, whatever the digits of the plain timestamp and whatever follows the asks |
| BitstampWalker.EventRoundTrip | src/exchange/bitstamp.rs:85-91 | a message without the data keys returns its event name, id 0 and empty sides |
| BitstampWalker.WireEventRoundTrip | src/exchange/bitstamp.rs:85-91 | so does the exchange's own layout with any event name, any alphanumeric channel symbol and any white space |
| BitstampWalker.DecodeSound | src/exchange/bitstamp.rs:78-84 | in any message that decodes each side is empty for want of its key or is what the printed array behind that key denotes |
| BitstampWalker.DecodeBounded | src/exchange/bitstamp.rs:78-79 | for any input at most DEPTH levels a side and no zero amount |
| Layouts.BinanceTextDecodes | src/testutil.rs:39-40 | the text `{"lastUpdateId":n,"bids":[["p","q"],...],"asks":[...]}` decodes to n, to its bids and to its asks, each cut to the first ten nonzero levels |
| Layouts.BitstampTextDecodes | src/testutil.rs:42-43 | the text `{"data":{"timestamp":"t","microtimestamp":"n","bids":[...],"asks":[...]` and whatever follows decodes to the event data, to n, to its bids and to its asks |
| Layouts.EventTextDecodes | src/exchange/bitstamp.rs:226-230 | the text `{"event":"e","channel":"order_book_s","data":{}}`, compact or spaced, decodes to e, id 0 and no levels |
| Layouts.LevelsTextIs | src/json_walker.rs:203-204 | the printer writes level arrays with these brackets, commas and quotes |
| Layouts.BlankIsWhitespace | src/json_walker.rs:36-43 | what is skipped before a value is blanks, tabs and line ends and nothing else |
| Layouts.DecimalTexts | src/types.rs:214-237 | `101.5`, `.5` and `101` denote what they say; the empty text and the bare dot denote nothing |
| AtomicSlot.NewSlot | src/atomic_slot.rs:91-112 | two halves of a fresh slot, empty and clean |
| AtomicSlot.SlotSender.Send | src/atomic_slot.rs:134-158 | uninterrupted, the value becomes what the next receive takes, whatever was there before |
| AtomicSlot.SlotReceiver.Recv | src/atomic_slot.rs:180-207 | uninterrupted, returns the latest value once and leaves the slot without one |
| AtomicSlot.SlotSender.IsAbandoned | src/atomic_slot.rs:160-167 | asked by a live sender, tells whether the receiver was dropped |
| AtomicSlot.SlotSender.Drop | src/atomic_slot.rs:219-223 | releases the allocation exactly if the receiver was dropped before |
| AtomicSlot.SlotReceiver.IsAbandoned | src/atomic_slot.rs:209-216 | asked by a live receiver, tells whether the sender was dropped |
| AtomicSlot.SlotReceiver.Drop | src/atomic_slot.rs:225-229 | releases the allocation exactly if the sender was dropped before |
| AtomicSlot.Shared.DropHalf | src/atomic_slot.rs:115-125 | takes one from the 8-bit count and releases the allocation if and only if it was the last; the step system drops by the same two functions |
| AtomicSlot.SwapsKeepOwned | src/atomic_slot.rs:151-157 | both swaps permute the three roles, and the byte's shift and bit encode index and dirtiness exactly |
| SlotProtocol.InvStep | src/atomic_slot.rs:115-229 | every atomic action of either half, in any state of the other, keeps ownership, contents, order, count and conservation |
| SlotProtocol.RunInv | src/atomic_slot.rs:115-229 | so they hold in every reachable state, and no possible action is ruled out by the model of runs |
| SlotProtocol.AlwaysPermutation | src/atomic_slot.rs:69-76 | back, middle and front are always a permutation of 0, 1, 2 |
| SlotProtocol.Exclusion | src/atomic_slot.rs:136-206 | a pending write and a pending take never concern the same buffer nor the middle one, and commute |
| SlotProtocol.DirtyReceiveReturns | src/atomic_slot.rs:182-206 | a receive that saw the dirty bit, even in a stale load, swaps out the most recently published value and returns a value |
| SlotProtocol.CleanIff | src/atomic_slot.rs:174-187 | a current load is clean exactly when nothing was published since the last value taken; a dirty load always means something was |
| SlotProtocol.DeliveredInOrder | src/atomic_slot.rs:134-207 | delivered values are a strictly increasing subsequence of the published sends |
| SlotProtocol.ExactlyOnePlace | src/atomic_slot.rs:115-229 | each value sent is in the producer's hand, one buffer, delivered, overwritten or released: exactly one of these, once, at every moment |
| SlotProtocol.PlacesStep | src/atomic_slot.rs:134-206 | an action only moves values: it creates none but the one being sent and loses none |
| SlotProtocol.ReleasedOnce | src/atomic_slot.rs:115-125 | the allocation is released exactly once when both halves are gone, and no action is possible afterwards |
| SlotProtocol.AbandonedIff | src/atomic_slot.rs:160-216 | asked by a live half, the count is one exactly when the other half was dropped |
| SlotProtocol.RefinesRegister | src/atomic_slot.rs:134-207 | every interleaving is a history of a one-cell latest-value register, sends taking effect at their swap and receives at their swap or clean load |
| SlotProtocol.AgreesStep | src/atomic_slot.rs:134-207 | each action is the register operation it stands for, or none |
| SlotProtocol.MissedIff | src/atomic_slot.rs:182-187 | in every reachable state a load misses a value exactly when it returns the consumer's own last write although something was published since; a current load misses nothing |
| Merge.TotalOrder | src/merger.rs:248-255 | both comparators are strict total orders on price and amount |
| Merge.MergeTopN | src/merger.rs:184-226 | the cursors compute repeated removal of the best head, min(n, DEPTH) times or until nothing is left |
| Merge.FindBest | src/merger.rs:195-209 | the first of the best heads |
| Merge.BestPrecedesAll | src/merger.rs:195-209 | in sorted slices nothing left anywhere precedes the chosen head, and no equal level lies in an earlier slice |
| Merge.MergeIsStableSort | src/merger.rs:184-226 | on slices sorted under the comparator the merge is the first n of any stable sort of the slices concatenated in order: ties go to the earlier slice |
| Merge.StableSortIs | src/merger.rs:181-226 | such a stable sort exists for every list |
| Merge.StableSortPermutes | src/merger.rs:181-226 | and is a permutation of it |
| Merge.ContributesPrefix | src/merger.rs:194-223 | for slices of distinct exchanges, each contributes a prefix of its own slice in its own order, sorted or not |
| Merge.MergeAgrees | src/types.rs:13-17 | the top n depend on the first n levels of each slice only |
| Merge.EarlyCutLosesNothing | src/types.rs:13-17 | cutting every book to n levels before the merge does not change the merged top n |
| Merge.StableIffSorted | src/types.rs:177-179 | the merge of all levels is their stable sort if and only if every slice is sorted under the full comparator |
| Merge.StrictIsSorted | src/types.rs:177-179 | strictly monotone prices are enough |
| MergeTop.TopIsSortedIff | src/merger.rs:184-226 | for every n and slices of distinct exchanges, the merge is the first n of the stable sort of all levels if and only if no level with a place below n stands behind a worse level of its own slice |
| MergeTop.SortedInOrder | src/types.rs:177-179 | slices sorted under the full comparator meet that condition for every n |
| MergeTop.PlaceWithout | src/merger.rs:210-222 | taking the first head moves every other level up by exactly one place |
| MergeTop.PriceOrderIsNotEnough | src/types.rs:177-179 | a book sorted by price whose merged top n is wrong for every n, on either side |
| Merger.MergeBooks | src/merger.rs:231-271 | the summary of the stored books, the spread wrapping in 64 bits |
| Merger.SummaryIsBestIff | src/merger.rs:245-257 | a summary's side is the best DEPTH of all stored levels if and only if the condition holds of the stored books at DEPTH |
| Merger.DueIsBestIff | src/merger.rs:150-160 | and this applies to every summary the loop publishes |
| Merger.SpreadIsMinimum | src/merger.rs:259-264 | for books sorted by price the spread is at most ask minus bid of every stored pair |
| Merger.SpreadIsAttained | src/merger.rs:259-264 | and two stored books attain it |
| Merger.SideEmptyIff | src/merger.rs:234-243 | a side of the summary is empty if and only if no stored book has a level on it |
| Merger.SpreadIsZero | src/types.rs:191-195 | without an ask, or without a bid, in any stored book the spread is zero |
| Merger.SpreadModulo | src/merger.rs:261-262 | whatever the prices, the spread is a 64-bit integer congruent to best ask minus best bid modulo 2^64 |
| Merger.BookStore.Insert | src/merger.rs:70-81 | replaces the book of that exchange and no other; an unknown id changes nothing |
| Merger.BookStore.EvictStale | src/merger.rs:91-105 | clears exactly the books with now > decode start + threshold |
| Merger.EvictionsNeverMatter | src/merger.rs:89-106 | with a nondecreasing clock, a store that evicted earlier shows the same fresh books as one that never did |
| Merger.RunSpsc | src/merger.rs:112-172 | with a nondecreasing clock, publishes the summaries due for the books received, one each; the next three rows say which books these are and what each summary is made of |
| Merger.PublishedIs | src/merger.rs:150-160 | the k-th summary is made of, for each of the two exchanges, the last book received under its id, present if and only if the time is at most five seconds after its decode start |
| Merger.ReceivedUntil | src/merger.rs:135-145 | every pass contributes all its arrivals while the loop is not cancelled and some producer is live, and none from the first other pass on |
| Merger.ArrivalsAre | src/merger.rs:150-153 | a pass contributes exactly the books its polls yield, in receiver order |
| Merger.PollAll | src/merger.rs:150-164 | one pass over the receivers continues that list by the books it received |
| Exchange.TrySendBook | src/exchange/mod.rs:95-106 | refuses and leaves the slot alone once the consumer is gone, otherwise the book is the slot's latest |
| Exchange.BinanceHandler.ProcessText | src/exchange/binance.rs:86-128 | filter, counters, slot and verdict for every frame |
| Exchange.BitstampHandler.ProcessText | src/exchange/bitstamp.rs:129-184 | the same by event for every message that does not abort |
| Exchange.IncreasingIff | src/exchange/binance.rs:103-114 | the accepted ids of a connection strictly increase if and only if no frame after the first carries id 0 |
| Exchange.ResetExample | src/exchange/binance.rs:103-114 | three frames on the wire with ids 7, 0, 5 are all sent, the last older than the first |
| Exchange.EventReadings | src/exchange/bitstamp.rs:172-182 | on the wire the event `bts:error` counts one error and reconnects, and every other event but `data` changes nothing |
| Exchange.UnparsableCounts | src/exchange/binance.rs:93-101 | a frame that does not decode counts one error, sends nothing and leaves the filter alone |
| Exchange.DropsExactlyTheStale | src/exchange/bitstamp.rs:147-158 | with positive ids a frame is dropped if and only if an earlier one had the same or a higher id, whatever was dropped between |
| Exchange.RunWsLoop | src/exchange/mod.rs:132-239 | computes `Played` on every script of passes: what is sent, the counters, and whether it returns; `Runs.RunIs` says what that is |
| Exchange.ReadConnection | src/exchange/mod.rs:190-217 | computes `ReadBooks` for one connection; `Runs.ConnectionIs` says what that is |
| Runs.ConnectionIs | src/exchange/mod.rs:190-217 | with k the first cancellation, broken stream, server error or accepted book whose consumer is gone: the accepted books before k are sent, accepted books and errors are counted up to and with k, and the loop returns for good if and only if k is a cancellation or such a book |
| Runs.RunIs | src/exchange/mod.rs:143-238 | the loop returns in the first pass that is cancelled before, after or in its backoff or that leaves while reading, and in no other; each pass up to it adds its books, counts and reconnection, and the next one follows a timeout, a refusal, a failed subscription, a broken or ended stream or a server error |
| Runs.StepIs | src/exchange/bitstamp.rs:145-171 | an accepted frame counts one message, an unparsable, stale or server-error frame one error, and an accepted book whose consumer is gone is not sent and ends the loop |
| Runs.LastNext | src/exchange/binance.rs:103-114 | the filter starts at 0 on each connection and takes over the id of an accepted book and of nothing else |
| Runs.ReconnectExample | src/exchange/mod.rs:200-208 | a book, a broken stream and a book on the next connection: both are sent, with one error and two reconnections |
| Exchange.SendsAccepted | src/exchange/mod.rs:190-217 | a connection sends a prefix of what the filter accepts |
| Exchange.SendsAllAccepted | src/exchange/mod.rs:190-217 | and all of it when nothing ends it early |
| Exchange.SentSource | src/exchange/mod.rs:212-216 | every book sent is one frame's book under that frame's id |
| Exchange.SentInOrder | src/exchange/mod.rs:132-239 | over a whole run, reconnections included, books are sent in order of connection, then id, if only the first book frame of a connection may carry id 0 |
| Exchange.DeliveredInOrder | src/exchange/mod.rs:95-106 | under the same condition the merger receives them in that order through the filter, overwrites and any interleaving |
| Metrics.PromHistogram.Record | src/metrics.rs:84-98 | the history grows by the duration itself, in exactly one slot, the sum and the count |
| Metrics.SaturatedBucket | src/metrics.rs:84-93 | saturating at 64 bits never moves a duration to another slot |
| Metrics.TotalIs | src/metrics.rs:96 | the durations add up, each cut to the largest 64-bit number |
| Metrics.PromHistogram.Render | src/metrics.rs:104-130 | column i is the number of recorded durations at most the i-th bound, the total all of them, the sum theirs modulo 2^64 |
| Metrics.LabelsAgree | src/metrics.rs:32-49 | each label, read as a decimal number of seconds, is the bound it labels |
| Metrics.PromHistogram.FindBucket | src/metrics.rs:87-93 | the first bucket whose bound is not below the value, else overflow |
| Metrics.BucketWithin | src/metrics.rs:32-54 | a value is in one of the first slots exactly when it is within the last of their bounds |
| Metrics.CumulatedIsAtMost | src/metrics.rs:102-107 | summing the slots gives the cumulative count for every bound |
| Metrics.InvStep | src/metrics.rs:95-115 | every atomic step of one recorder and one render keeps the columns between the counts before and now |
| Metrics.RunInv | src/metrics.rs:95-115 | so on every interleaving |
| Metrics.OverlappingRender | src/metrics.rs:84-130 | an overlapped render has nondecreasing columns between the true counts at its start and now, the last exceeds the +Inf value by at most one, and the sum covers at least as many observations as the +Inf value counts |
| Pipeline.NonzeroStrict | src/json_walker.rs:234-237 | dropping zero amounts keeps prices strictly monotone |
| Pipeline.StoredSlices | src/merger.rs:231-243 | what reaches the merge of two current messages is each message's nonzero levels cut to DEPTH |
| Pipeline.BestOfBoth | src/merger.rs:231-271 | from the bytes of two messages with any number of levels, each published side is the best DEPTH of all nonzero levels of both, tagged with their exchange |
| Pipeline.SpreadOfBoth | src/merger.rs:259-264 | and, for prices up to the largest `i64`, the spread is the least ask minus bid over all those levels, cut ones included, and is attained |
| Pipeline.WireToSummary | src/merger.rs:231-271 | any two books with strictly monotone prices, spelled out as the exchanges write them, decode to their ids, first ten levels and decode times, and once both have arrived within five seconds each side of the summary is the best ten of all levels present in them |
| Pipeline.NeverGoesBack | src/merger.rs:135-164 | under the same condition, across reconnections, overwrites and interleavings, a later summary never uses an older book of an exchange than an earlier one did |

## Left out

- WebSocket, TLS, the async runtime, gRPC and HTTP serving, signals, logging and configuration: input and output without a property of this kind.
- The terminal client, the generated protobuf code, `src/error.rs` and `build.rs`.
- Floating point: `to_f64`, `from_f64`, `spread_to_f64`, `to_proto` and the seconds in a rendered histogram.
- Core pinning, padding, and the assertion that there are at most two receivers.
- Weak memory in the direction from a take to the producer's reuse of the buffer; see above.
- That the last value sent is received: the merger leaves as soon as all producers are dropped, so an unread book may be lost.
- Reconnect delays and the `connected` gauge.
- Latency observations made inside `process_text` and `run_spsc`; the histogram is modelled on its own.
- The server's error message (`extract_string`) goes only to the log; the event's effect is modelled.
- The message, error, reconnection and merge counters are unbounded numbers.
- JsonWalker.Scanner.ReadQuotedDecimal: its loops are methods of their own, as are the inner loops of `merge_top_n`, `run_spsc` and `run_ws_loop`.
- BitstampWalker.ParseOrderBookJson: needs a message on which the walk does not abort, since nothing is returned then.
- Exchange.BitstampHandler.ProcessText: likewise excludes exactly the frames of `AbortsIff`.
- Merger.SpreadIsMinimum: needs the best prices to be at most the largest `i64`, as the code assumes (`src/merger.rs:261`); beyond that only `SpreadModulo` holds.
- Metrics.PromHistogram.Record: up to 2^64 - 1 observations, as the counters would wrap after that.
- Metrics.PromHistogram.Render: the numbers of each line, not the text.
- Merger.RunSpsc: the receivers' answers are given round by round; `Pipeline.NeverGoesBack` ties them to what the slots deliver.
- Exchange.RunWsLoop: a text frame is given by what it decodes to, which `ProcessText` computes from its bytes.
