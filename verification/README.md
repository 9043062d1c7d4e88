# A verified model of the limit-order matching engine

This project models a single-symbol limit-order matching engine and proves what the engine is
for. The engine reads newline-delimited `ADD` and `CXL` lines, matches orders under price-time
priority with three times in force, and writes one row per trade, per touched resting order and
per input. Reader, matcher and writer run as three threads joined by lock-free ring buffers.

`dafny verify dfyconfig.toml` checks everything.

## How the model is built

* **Two engines.** `Reference` keeps each side of the book as one plain sequence, best price
  first, earliest arrival first. `PriceLevels`, `BookSides` and `OrderBook` keep what the engine
  keeps: heap nodes on intrusive doubly linked chains, a cached total per price level, an ordered
  map of levels per side, and one id lookup shared by both sides. Every mutator is a method on
  these objects. `OrderBook.Clob.ProcessAll` proves that for every input the linked book emits
  exactly the rows of the reference engine and ends in the corresponding state; `Ladder` holds the
  sequence lemmas that connect a ladder of queues to one flat sequence.
* **Laws of the engine** are theorems about the reference engine for all books, events and runs,
  so they hold of the linked book: `BookInvariant` (ordering, one order per id, never crossed),
  `Priority` (price-time priority as a closed formula, maximality, fill-or-kill), `Limits` (who may
  trade with whom, on the prices themselves, down to the two adds behind each trade), `Conservation`,
  `Rejection`, `Replay`, `Mirror` and `NonInterference`.
* **Machine integers.** Quantities are mathematical integers. A ghost result of every method that
  computes one records whether each computed value fits 64 bits; `ProcessAll` shows that all do as
  long as both sides' resting totals and the requested quantities do.
* **Concurrency.** `SpscQueue` is the ring buffer one call at a time. `RingProtocol` is the same
  code cut into single index loads, slot accesses and index stores, where a load of the other
  side's index may return any value not older than one already seen. `Pipeline` composes two such
  rings with the three agents, the stop flag and the shutdown sentinel, again one access at a
  time. `PipelineSafety`, `PipelineBalance`, `PipelineProgress` and `PipelineStop` quantify over every
  interleaving; `PipelineLiveness` over every infinite execution in which no agent is passed over for
  ever and every store becomes visible at last.
* **The wire.** `Text`, `InputParser` and `OutputFormatter` cover the cursor-based parser and the
  row formatter: which lines are accepted, skipped or refused and why, and which literal line each
  row becomes. `EndToEnd` joins both ends: what the pipeline writes reads back as what the engine
  decided. `Statistics` is the latency accumulator over exact reals.

The standard library's ordered map is modelled as the sequence of its keys in ladder order plus a
map from key to level; the hash map is a map; `std::from_chars`, `std::string_view::find`,
`std::format` of an integer and `std::sort` are functions with the behaviour ISO C++ gives them.

## Where the code and its documentation disagree

The model follows the code.

* `include/matching/output_event.hpp:65` says a rejection changes nothing. A duplicate id is only
  noticed when a good-till-cancel residue is about to rest, so trades may come first.
  `Rejection.RejectedIff` says from the book and the event alone which events are rejected and why;
  a rejection changes the book if and only if a valid add has something to trade against, more
  quantity than that, and its id resting where it does not reach
  (`Rejection.RejectionChangesBookIff`). `Rejection.DuplicateTradesBeforeRejection` shows one.
* The repository's `README.md:113` says filled, resting and cancelled add up to the order for every
  add. They do if and only if the add is valid and does not run into its own id in that sense
  (`Conservation.ReportsWholeOrderIff`).
* A reader of the output who takes each row by itself (RST sets, FIL and CAN drop) is misled by an
  add that ends in FIL or CAN while another order rests under its id, and by nothing else
  (`Replay.StepReplayIff`, `Replay.TracksThroughoutIff`). The rows do determine what rests: reading
  each trade together with the row behind it, and a CAN row by its cause, is right for every run
  (`Replay.OutputDeterminesBook`).
* The repository's `README.md:102` says one output line per input; there is one terminal row per input, after a
  trade row and a row for the resting order per fill.
* `ARCHITECTURE.md:151` describes an open-addressing cancel table; the code uses
  `std::pmr::unordered_map`.
* A single trailing comma after the last field is accepted by the parser.

## Model

| member | source | states |
|---|---|---|
| `PriceLevels.PriceLevel.PushBack` | include/matching/order_book.hpp:94-106 | linking behind the tail keeps a back-linked acyclic chain, appends exactly that order and adds its quantity to the cached total |
| `PriceLevels.PriceLevel.Splice` | include/matching/order_book.hpp:119-134 | closing the chain around any node, first, middle, last or only, leaves a proper chain of the remaining nodes in order |
| `PriceLevels.PriceLevel.Take` | include/matching/order_book.hpp:117-134 | a node taken out takes its order and its quantity with it and nothing else |
| `PriceLevels.PriceLevel.TradeHead` | include/matching/order_book.hpp:468-483 | a partial trade shrinks the head order and the cached total together |
| `BookSides.BookSide.Emplace` | include/matching/order_book.hpp:92-93 | finding or creating a level keeps the ladder in order and shows nothing to an observer of the orders |
| `BookSides.BookSide.Append` | include/matching/order_book.hpp:91-107 | an appended node is filed behind everything at its price or better in the flat order of the side |
| `BookSides.BookSide.TakeOut` | include/matching/order_book.hpp:110-134 | unlinking a node anywhere on the ladder is removal by id from the flat order, other levels untouched |
| `BookSides.BookSide.Erase` | include/matching/order_book.hpp:136-138 | erasing an emptied level keeps every other level and every order |
| `BookSides.BookSide.Detach` | include/matching/order_book.hpp:110-139 | detaching removes exactly that order and never leaves an empty level; without a level at the price nothing happens |
| `BookSides.BookSide.PopBestLevel` | include/matching/order_book.hpp:151-155 | popping the drained best level removes no order |
| `BookSides.BookSide.FillableQuantity` | include/matching/order_book.hpp:166-178 | the early-exit sum over cached totals is the lesser of the need and the quantity of all individual orders that cross |
| `BookSides.BookSide.RetireBest` | include/matching/order_book.hpp:491-511 | a filled front order leaves its level and is dead |
| `BookSides.BookSide.TradeBest` | include/matching/order_book.hpp:468-483 | a partly filled front order keeps its place with the rest of its quantity |
| `BookSides.BookSide.Withdraw` | include/matching/order_book.hpp:384-388 | cancelling detaches the order, marks it dead and keeps the side valid |
| `OrderBook.Clob.constructor` | include/matching/order_book.hpp:246-253 | a new book is valid, empty and has emitted nothing |
| `OrderBook.Clob.LevelInvariant` | include/matching/order_book.hpp:91-139 | in a valid book every level is a non-empty chain of live nodes with positive quantity at that price, its cached total is their sum, and the lookup finds each |
| `OrderBook.Clob.StoredQuantitiesFit` | include/matching/order_book.hpp:91-139 | while both sides' totals fit 64 bits, so do every cached total and every stored quantity |
| `OrderBook.Clob.LookupInvariant` | include/matching/order_book.hpp:419-429 | whatever the lookup finds is linked at its own price on its own side |
| `OrderBook.Clob.RetireResting` | include/matching/order_book.hpp:491-511 | retiring the front order keeps the lookup a bijection with the linked nodes |
| `OrderBook.Clob.TradeWithHead` | include/matching/order_book.hpp:463-486 | one round trades the lesser of the two quantities with the front order and emits the trade and the order's row |
| `OrderBook.Clob.MatchLevel` | include/matching/order_book.hpp:453-489 | draining a level is a stretch of the reference sweep: what was emitted followed by the sweep of what is left is the whole sweep |
| `OrderBook.Clob.MatchAgainst` | include/matching/order_book.hpp:432-450 | rows, remaining side and remaining quantity are those of the reference sweep, and no level is left empty |
| `OrderBook.Clob.FillableAtLimit` | include/matching/order_book.hpp:410-416 | the probe says yes exactly when the crossing orders together hold the whole quantity |
| `OrderBook.Clob.RestOrder` | include/matching/order_book.hpp:418-429 | the residue rests unless its id is the id of a resting order, in which case nothing changes |
| `OrderBook.Clob.SweepOpposite` | include/matching/order_book.hpp:354-357 | sweeping the opposite side keeps the whole book valid |
| `OrderBook.Clob.SettleResidue` | include/matching/order_book.hpp:359-374 | the terminal row and the resting decision agree with the reference engine for all three times in force |
| `OrderBook.Clob.AddOrder` | include/matching/order_book.hpp:347-375 | an accepted add has the effect and the rows of the reference engine |
| `OrderBook.Clob.CancelNode` | include/matching/order_book.hpp:377-390 | cancelling through the lookup removes the order on whichever side it rests and reports its remaining quantity |
| `OrderBook.Clob.CancelOrder` | include/matching/order_book.hpp:287-303 | cancel by id agrees with the reference engine, invalid and unknown ids included |
| `OrderBook.Clob.Process` | include/matching/order_book.hpp:260-306 | every event keeps the book valid and has the state and rows of the reference engine; no computed quantity leaves 64 bits if both sides fit before and after |
| `OrderBook.Clob.ProcessAll` | include/matching/order_book.hpp:260-306 | for every input the linked book emits the reference run's rows and ends in its state; no computed quantity leaves 64 bits in a run that stays within them |
| `Ladder.AppendToQueue` | include/matching/order_book.hpp:91-107 | appending to a price's queue is insertion in price-time order |
| `Ladder.DetachFromQueue` | include/matching/order_book.hpp:110-139 | taking an order out of its queue is removal by id |
| `Ladder.CloseLevel` | include/matching/order_book.hpp:136-138 | an empty level can go without a trace |
| `Ladder.ProbeLevel` | include/matching/order_book.hpp:168-172 | a crossing level counts for its cached total, and behind one that does not cross nothing does |
| `BookInvariant.StepWellFormed` | include/matching/order_book.hpp:260-303 | every event keeps both sides in price-time order, quantities positive, ids unique and the sides apart |
| `BookInvariant.RunWellFormed` | include/matching/order_book.hpp:260-303 | so does every run |
| `BookInvariant.NeverCrossed` | include/matching/order_book.hpp:356-369 | after any run the best bid is strictly below the best ask, and they are the best |
| `Priority.PriceTimePriority` | include/matching/order_book.hpp:432-489 | the i-th resting order trades exactly what is left of the incoming quantity once everyone ahead of it is served, in book order, all but the last completely, and the rows and the remaining side say just that |
| `Priority.Maximality` | include/matching/order_book.hpp:432-450 | an order trades the lesser of its quantity and everything that crosses |
| `Priority.MatchTraded` | include/matching/order_book.hpp:468-476 | trades account for what the aggressor and the side both lost |
| `Priority.FillOrKillIsAllOrNothing` | include/matching/order_book.hpp:349-375 | a fill-or-kill add trades in full if enough crosses and otherwise emits one zero-fill cancel and changes nothing; its residue branch is never reached |
| `Priority.DrainedRest` | include/matching/order_book.hpp:432-450 | a sweep that leaves the incoming order short has taken every order that crosses and no other |
| `Priority.SurvivorIds` | include/matching/order_book.hpp:432-489 | an order outlives a sweep exactly when it is owed less than it holds |
| `Limits.AvailableIsTradable` | include/matching/order_book.hpp:74-88 | what crosses a limit is what is not dearer than a buy's limit, or not cheaper than a sell's |
| `Limits.NoTradeBeyondTheLimit` | include/matching/order_book.hpp:438-443 | every trade row is a trade of that add with an order resting opposite at a price its limit allows, for no more than either has |
| `Limits.TradesAllItMay` | include/matching/order_book.hpp:347-357 | an accepted add trades the lesser of its quantity and everything opposite priced within its limit, and a fill-or-kill that cannot be filled nothing |
| `Limits.FiledByPriceThenTime` | include/matching/order_book.hpp:91-107 | a resting order goes behind everything at its price or better and ahead of everything worse |
| `Limits.TradesHonourBothLimits` | include/matching/order_book.hpp:432-489 | in every run each trade is between an add and an earlier good-till-cancel add of the other side whose limits overlap, for no more than either asked for |
| `Conservation.AddAccountsForItsQuantity` | include/matching/order_book.hpp:354-375 | an accepted add yields trade pairs and one terminal row that accounts for its whole quantity, and the row is a rejection if and only if the add has more than it can trade and its id rests out of its reach |
| `Conservation.ReportsWholeOrderIff` | README.md:113 | filled, resting and cancelled quantities of the terminal row make up the order if and only if the add is valid and does not run into its own id |
| `Conservation.StepConserves` | include/matching/order_book.hpp:354-390 | one event changes the resting quantity by what it rested less what traded and what a user cancelled |
| `Conservation.RunConserves` | include/matching/order_book.hpp:354-390 | so does a whole run, duplicate ids included |
| `Rejection.DuplicateAfterSweep` | include/matching/order_book.hpp:359-368 | after a sweep that left it short, an add's id is still resting if and only if the order carrying it rested on the add's own side or beyond its limit |
| `Rejection.RejectedIff` | include/matching/order_book.hpp:265-303 | an event is rejected, and with which code, exactly as the book and the event say beforehand |
| `Rejection.RejectionChangesBookIff` | include/matching/output_event.hpp:65-69 | an event is rejected and still changes the book if and only if it is a valid add with something to trade against that runs into its own id |
| `Rejection.DuplicateTradesBeforeRejection` | include/matching/order_book.hpp:364-367 | a concrete add that trades and is then rejected as a duplicate |
| `Replay.StepReplayIff` | include/matching/order_book.hpp:354-390 | replaying an event's rows one by one tracks the resting quantities if and only if the event is not an add that ends in FIL or CAN while an order still rests under its id |
| `Replay.StepReplay` | include/matching/order_book.hpp:354-390 | in particular it does for every event other than an add under a resting id |
| `Replay.TracksThroughoutIff` | include/matching/order_book.hpp:354-390 | over any run, row-by-row replay agrees with the book after every event if and only if no event is such an add |
| `Replay.OutputReplay` | include/matching/message_types.hpp:77-79 | in every run without repeated add ids row-by-row replay ends with exactly the resting orders and what is left of each |
| `Replay.RepeatedIdMisleadsReplay` | include/matching/order_book.hpp:364-372 | a concrete run with a repeated id in which row-by-row replay loses a resting order |
| `Replay.OutputDeterminesBook` | include/matching/order_book.hpp:354-390 | in every run, repeated ids included, the rows read with their neighbours determine which orders rest and how much of each is left |
| `Mirror.MirrorStep` | include/matching/order_book.hpp:74-88 | reflecting prices and swapping sides commutes with every event |
| `Mirror.MirrorRun` | include/matching/order_book.hpp:329-375 | a reflected run emits identical rows and ends in the reflected book |
| `NonInterference.KilledWithout` | include/matching/order_book.hpp:166-178 | the fill-or-kill verdict does not depend on an order that does not get to trade |
| `NonInterference.StepWithout` | include/matching/order_book.hpp:347-390 | an event about other orders that does not trade with an order does the same without it |
| `NonInterference.UntradedOrderLeavesNoTrace` | include/matching/order_book.hpp:347-390 | an order that rests unfilled, never trades and is cancelled contributes its own two rows and nothing else |
| `NonInterference.UntradedOrderLeavesNoTraceInRun` | include/matching/order_book.hpp:347-390 | the same inside any run from the empty book |
| `RingIndex.MaskIsModulo` | include/matching/runtime/spsc_queue.hpp:63-81 | masking with capacity minus one is reduction modulo the capacity |
| `RingIndex.SizeOfWindow` | include/matching/runtime/spsc_queue.hpp:87-91 | subtracting unsigned indices with wrap-around and masking gives the occupancy |
| `SpscQueue.SpscQueue.TryPush` | include/matching/runtime/spsc_queue.hpp:61-70 | a push appends unless capacity minus one values are queued |
| `SpscQueue.SpscQueue.TryPop` | include/matching/runtime/spsc_queue.hpp:75-83 | a pop returns the oldest value unless none is queued |
| `SpscQueue.SpscQueue.Size` | include/matching/runtime/spsc_queue.hpp:87-91 | the size is the number of queued values |
| `SpscQueue.SpscQueue.Empty` | include/matching/runtime/spsc_queue.hpp:93-95 | equal indices mean an empty queue and nothing else |
| `RingProtocol.LoadVerdicts` | include/matching/runtime/spsc_queue.hpp:62-79 | a possibly stale load reports full exactly when the observed window is one short of a lap, and empty exactly when nothing newer was observed, for every value a load may return |
| `RingProtocol.SizeSnapshots` | include/matching/runtime/spsc_queue.hpp:85-91 | a racy size is never too small on the producer's side and never too large on the consumer's |
| `RingProtocol.ProducerStep` | include/matching/runtime/spsc_queue.hpp:61-70 | every producer access keeps the ring invariant |
| `RingProtocol.ConsumerStep` | include/matching/runtime/spsc_queue.hpp:75-83 | every consumer access keeps the ring invariant |
| `RingProtocol.RingIsSafe` | include/matching/runtime/spsc_queue.hpp:61-83 | under every interleaving popped values are a prefix of pushed ones, at most capacity minus one lie between, the slot being written is never the slot being read, and a slot is written only after its release, and read only after its publication, has been observed |
| `RingProtocol.RingIsFifo` | include/matching/runtime/spsc_queue.hpp:61-83 | the index stores are the linearization points of a bounded first-in first-out queue |
| `RingProtocol.FreshLoads` | include/matching/runtime/spsc_queue.hpp:62-79 | an up-to-date load lets a push through if there is room and a pop if there is a value |
| `PipelineSafety.ReaderKeeps` | include/matching/stream_pipeline.hpp:77-87 | pushed or dropped, the reader's pushes stay a prefix of the parsed events and the sentinel |
| `PipelineSafety.MatcherHandles` | include/matching/stream_pipeline.hpp:106-113 | handling a popped event extends the owed rows by exactly that event's rows |
| `PipelineSafety.EmitKeeps` | include/matching/stream_pipeline.hpp:53-57 | emitted or dropped, the rows pushed stay a prefix of the rows owed |
| `PipelineSafety.PopKeeps` | include/matching/runtime/event_loop.hpp:33-44 | the poll loop processes events in order and ends only on the sentinel or a stop |
| `PipelineSafety.WriterKeeps` | include/matching/stream_pipeline.hpp:133-148 | the writer writes what it pops and stops at the sentinel |
| `PipelineSafety.MoveKeeps` | include/matching/stream_pipeline.hpp:53-148 | every step of every agent keeps the pipeline invariant |
| `PipelineSafety.PipelineIsSequential` | include/matching/stream_pipeline.hpp:53-148 | under every interleaving and stop request the written rows are a prefix of the sequential run's rows, and all of them once the writer handles the sentinel |
| `PipelineBalance.NothingIsLost` | include/matching/stream_pipeline.hpp:53-117 | in every interleaving each event parsed and each row owed has been pushed, is still in hand, or was dropped by one test that saw the stop, so the reader always reads to the end |
| `PipelineProgress.WorkIsSpentOneByOne` | include/matching/stream_pipeline.hpp:53-121 | reading a line, pushing and popping each use up one unit of a fixed amount of work, and nothing else changes it |
| `PipelineProgress.NeverStuck` | include/matching/runtime/event_loop.hpp:33-44 | unless a stop is requested, an unfinished pipeline has a step that does work or brings an agent closer to some |
| `PipelineProgress.CanFinish` | include/matching/stream_pipeline.hpp:53-148 | from every such state some continuation ends with all agents finished and the whole output written |
| `PipelineProgress.UnstoppedRunsCanFinish` | include/matching/stream_pipeline.hpp:53-148 | the same after any unstopped execution from the start |
| `PipelineStop.OwnStepsCount` | include/matching/stream_pipeline.hpp:53-148 | every step of an agent that does not miss the stop lowers the number of steps it has left |
| `PipelineStop.StopIsWaitFree` | include/matching/runtime/event_loop.hpp:33-44 | in every interleaving an agent that notices the stop ends within a fixed number of its own steps, whatever the others do and however full the rings are |
| `PipelineStop.NeverBlocked` | include/matching/stream_pipeline.hpp:53-148 | an agent that has not ended can always take a step, one that sees everything there is to see |
| `PipelineStop.CanAbort` | include/matching/stream_pipeline.hpp:53-148 | from every state with a stop requested some continuation ends all three agents |
| `PipelineStop.CanStopNow` | include/matching/stream_pipeline.hpp:53-148 | a stop may be requested in every state, and from there all three agents can end |
| `PipelineStop.TestsRace` | include/matching/runtime/event_loop.hpp:33-35 | until an agent has seen the stop each of its tests may miss it or see it |
| `PipelineLiveness.StoppedRunsEnd` | include/matching/stream_pipeline.hpp:53-148 | every fair execution in which a stop is requested ends all three agents |
| `PipelineLiveness.NextProductive` | include/matching/stream_pipeline.hpp:53-148 | in a fair unstopped execution an agent whose turn it is does get to read, push or pop |
| `PipelineLiveness.UnstoppedRunsEnd` | include/matching/stream_pipeline.hpp:53-148 | every fair execution without a stop comes to a state with all agents finished by the sentinel |
| `PipelineLiveness.FairRunsEnd` | include/matching/stream_pipeline.hpp:53-148 | every fair execution ends all three agents, whenever a stop is requested, with a prefix of the sequential rows written, and all of them if none is |
| `PipelineLiveness.EveryRunExtendsFairly` | include/matching/stream_pipeline.hpp:53-148 | fairness excludes no beginning: every finite execution goes on to a fair one |
| `InputParser.TrimView` | include/matching/input_parser.hpp:19-28 | the two loops strip exactly the whitespace at both ends |
| `InputParser.NextField` | include/matching/input_parser.hpp:31-42 | the cursor yields the trimmed pieces of the comma split in order, and empty fields once exhausted |
| `InputParser.ParseAdd` | include/matching/input_parser.hpp:108-130 | an add line is accepted, and its errors classified, by its pieces alone |
| `InputParser.ParseLine` | include/matching/input_parser.hpp:99-144 | every line has the meaning its trimmed comma split gives it, one trailing comma allowed, and obeys the grammar of `MeaningIff` |
| `InputParser.MeaningIff` | include/matching/input_parser.hpp:99-144 | a line is accepted as an add or cancel if and only if its pieces are the literal tokens and numerals of that event, skipped if and only if it is blank or a comment, and otherwise gets exactly the diagnostic its first fault calls for |
| `InputParser.BlankOrCommentIff` | include/matching/input_parser.hpp:100-103 | the lines skipped are blanks alone or blanks and a hash sign |
| `InputParser.ParseStream` | include/matching/input_parser.hpp:148-157 | events and diagnostics come out in line order, none lost |
| `InputParser.CarriedFields` | include/matching/input_parser.hpp:19-42 | padding and a trailing comma do not change the fields of a line |
| `InputParser.WireRoundTrip` | include/matching/input_parser.hpp:99-144 | every add or cancel with 64-bit fields, with any padding, parses back to itself |
| `Text.IntRoundTrip` | include/matching/input_parser.hpp:46-58 | every 64-bit integer, the smallest included, reads back from its decimal text |
| `Text.ParseIntIff` | include/matching/input_parser.hpp:46-58 | the parse accepts an optional minus, leading zeros and the digits of a 64-bit value with the right sign, gives that value, and refuses everything else |
| `Text.TextIsShortest` | include/matching/output_formatter.hpp:49-75 | a rendered integer has a minus sign only if negative and no leading zero |
| `Text.TrimIff` | include/matching/input_parser.hpp:19-28 | trimming takes off exactly the blanks, tabs, carriage returns and line feeds at both ends |
| `Text.SplitIff` | include/matching/input_parser.hpp:31-42 | the pieces of a text are the one way to write it as comma-free pieces with commas between |
| `Text.TrimPadded` | include/matching/input_parser.hpp:19-28 | trimming finds the core whatever whitespace surrounds it |
| `OutputFormatter.RenderIsWireLine` | include/matching/output_formatter.hpp:14-75 | the literal line of every kind of row, with the literal token of every cancel cause and reject code |
| `OutputFormatter.Formatter.Write` | include/matching/output_formatter.hpp:49-75 | each row appends its one literal line and nothing else, so the text of some rows becomes the text of those rows and this one |
| `OutputFormatter.FieldsReadBack` | include/matching/output_formatter.hpp:14-75 | tags, tokens and numbers of a row determine the row |
| `OutputFormatter.OutputReadsBack` | include/matching/output_formatter.hpp:49-75 | the text of a row sequence decodes to the sequence |
| `OutputFormatter.OutputIsUnambiguous` | include/matching/output_formatter.hpp:49-75 | distinct row sequences give distinct text |
| `EndToEnd.MachineIntegers` | include/matching/message_types.hpp:77-86 | ids, prices and quantities range over 64-bit two's complement |
| `EndToEnd.EngineRowsFit` | include/matching/output_event.hpp:44-69 | whatever lines come in, every number of every row that comes out fits 64 bits |
| `EndToEnd.WrittenTextReadsBack` | include/matching/stream_pipeline.hpp:126-148 | in every interleaving the text written reads back as a prefix of the sequential run's rows, and as all of them once the writer has handled the sentinel |
| `EndToEnd.TextTellsTheBook` | include/matching/stream_pipeline.hpp:53-148 | every fair execution without a stop writes a text from which alone the resting orders and their quantities follow |
| `Statistics.Welford` | include/matching/benchmark/statistics.hpp:62-67 | the streaming update is the two-pass mean and sum of squared deviations of one more sample |
| `Statistics.QuantileMonotone` | include/matching/benchmark/statistics.hpp:30-43 | interpolated quantiles rise with the level and stay between the extremes |
| `Statistics.QuantileInterpolates` | include/matching/benchmark/statistics.hpp:38-42 | a quantile that falls a fraction of the way between two neighbouring order statistics is that fraction of the way from one to the other |
| `Statistics.QuantileHitsOrderStatistics` | include/matching/benchmark/statistics.hpp:38-42 | a level that falls on an order statistic gives it |
| `Statistics.QuantileEnds` | include/matching/benchmark/statistics.hpp:31-37 | no samples give zero, one sample is every quantile, levels outside 0 to 1 give the extremes |
| `Statistics.SortOk` | include/matching/benchmark/statistics.hpp:98-99 | the sorted copy is ascending and a permutation |
| `Statistics.ReservoirStep` | include/matching/benchmark/statistics.hpp:71-82 | whatever the draw, retained samples are samples, and all of them up to the cap |
| `Statistics.LatencyAccumulator.Add` | include/matching/benchmark/statistics.hpp:62-83 | for every reservoir draw the accumulator keeps exact mean, deviation, extremes and reservoir |
| `Statistics.LatencyAccumulator.Summarize` | include/matching/benchmark/statistics.hpp:85-106 | the summary reports the exact figures, and its quantiles are ordered between its extremes even past the sample cap |

## Left out

- Memory arenas, alignment and allocation failure (`clob_memory_t`, `clob_factory_t`): nodes and levels are fresh objects.
- `bid_depth`, `ask_depth` and `depth`: the number of levels, which would only add easy members.
- The benchmark harness, order generator, market profiles and timers.
- Threads, CPU pinning, signals and command-line handling: the agents are the steps of a transition system, and a stop request may come at any point.
- Stream input and output and the text of diagnostics: input is a sequence of lines, diagnostics are values naming what was wrong and where.
- The C++ memory model beyond stale index loads: slots are one shared memory, and `RingProtocol.RingIsSafe` shows that no slot is written and read at the same time and that each access follows an observed index store that orders it after the conflicting ones.
- `event_loop_t::run` as a loop: it may poll forever, so each of its rounds is a step of the pipeline instead.
- The operating system's scheduler: that no thread is starved for ever and that stores become visible at last are the hypotheses of `PipelineLiveness.FairRunsEnd`.
- PipelineProgress.CanFinish: states that a finishing continuation exists; that every fair execution finishes is `PipelineLiveness.FairRunsEnd`.
- PipelineProgress.UnstoppedRunsCanFinish: states that a finishing continuation exists; that every fair execution finishes is `PipelineLiveness.FairRunsEnd`.
- SpscQueue.SpscQueue.Size: exact between calls only; what either thread can read off while the other is active is `RingProtocol.SizeSnapshots`, and a snapshot by a third thread is not modelled.
- Statistics.LatencyAccumulator.Summarize: reports the variance rather than its square root, and exact reals stand for floating-point numbers, because rounding is not what the accumulator promises.
- Statistics.LatencyAccumulator.Add: takes the reservoir's random draw as a parameter, so it says nothing about the distribution of the draws.
