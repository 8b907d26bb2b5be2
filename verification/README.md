# A verified model of the exchange

The exchange accepts orders over TCP, matches them with price-time priority and reports fills back to its clients. An
I/O thread reassembles frames from sockets and pushes them into one ring buffer; a processor thread pops them, runs the
matching engine on the order book and pushes the responses into a second ring buffer; the I/O thread drains that ring
and sends. This project models all four layers in Dafny and proves what they promise, separately and put together.

Check it with `dafny verify dfyconfig.toml`.

## How it is organised

| layer | modules |
|---|---|
| values | `Domain` |
| order book and matching | `BookSpec` (a flat, greedy specification), `BookInvariants`, `BookTheorems`, `Ledger`, `Symmetry`, `PriceLevels` (maps of lists as a flat side), `Engine` (the classes with their nested loops) |
| ring buffer | `BitMask` (masks and wrapping counters), `RingBuffer` (two threads as atomic steps, and the class) |
| wire | `WireCodec`, `Serializer`, `Framing`, `NetworkUtils` |
| I/O thread | `Messages`, `Environment` (sockets and rings as seen from outside), `Outflow` (one connection's writing half), `Server` (the class) |
| processor | `Processor` (the class and its meaning), `Routing`, `Sequential` (any number of messages), `Reporting` (what clients can read) |
| everything | `Exchange` (both threads, both rings and every socket as one state machine) |

The results a reader should start from:

- `Engine.MatchingEngine.MatchBid` and `MatchAsk`: the nested loops over maps of lists compute the flat greedy sweep,
  which `BookInvariants.SweepIsWaterfall` and `WaterfallIsUnique` characterise without recursion through cumulative depth.
  `TradesExecute`, `RemainderRests` and `MatchIndexes` tell trades, remainder and index from the resting book alone.
- `BookInvariants.RunKeepsInvariants`, `BookTheorems.RunKeepsIndexed`, `Ledger.NothingIsLostOrCreated`: invariants and
  conservation over every run.
- `Symmetry.MatchMirrors` and `Symmetry.TakerIsAdditive`: the two branches of `match` are mirror images; splitting a
  taker changes nothing for the makers.
- `RingBuffer.FifoUnderEveryInterleaving`: the lock-free queue under every schedule, stale loads and wrapped counters included.
- `Framing.BatchRoundTrip`, `Framing.AbsorbTracks`, `Outflow.StreamIsSafe`: batches decode to what was encoded, and
  arbitrary chunking in either direction loses nothing.
- `Routing.AcceptRoutesIff`, `Routing.CancelRoutesIff`, `Sequential.TradesReachOwners`: executions reach the client
  behind the maker, and exactly when.
- `Reporting.LedgerBalancesWithReports`: the quantity submitted balances with what all reports sent, decoded from their
  bytes, say was traded.
- `Exchange.ServerIsSequential`, `Exchange.ServerBookIsSound`, `Exchange.ServerRoutesTrades`: in every reachable state of
  the running server, what each client has received decodes to the first of the replies a sequential processor has for
  it, the book satisfies the invariants and the ledger, and trades reach their makers' owners.

## Modelling decisions

- Integers have the source's widths: ids, prices and timestamps below 2^64, quantities below 2^32, ring counters modulo
  2^64. The host is little-endian, as the rejection serializer already requires (src/binary_serializer.cpp:155).
- A list iterator is a handle. Handles are handed out in allocation order, so a smaller handle is an earlier arrival;
  priority is the position in the list, never a timestamp. The remainder of a taker rests as a new node.
- The clock is a function parameter: `now(i)` is the reading taken for the i-th trade. No decision depends on it.
- Acquire and release accesses are sequentially consistent steps, except that a load of the other thread's index may
  return any value between the last one seen and the current one.
- `recv` and `send` are environments that deliver or accept any part of what is asked, would block, close or fail.
- Spinning on a full outbound ring (src/order_processor.cpp:43, 95) is a loop of refused pushes in `Processor`, under the
  assumption that the ring is drained sooner or later, and retried `try_push` steps without that assumption in `Exchange`.
- `process` is modelled for payloads long enough for their type (`WellFormedMessage`); a shorter one is read beyond its
  end, which is undefined behaviour. Side and type are one-byte enums, so every byte is a value of them: `match` takes
  neither branch for a side above 1, and treats a type above 1 as it treats MARKET without looking at the price. `Ticket`
  says so. An unknown message type throws out of `process`, which `Respond` gives as `None` and `Exchange` as a halted
  processor.
- Descriptors may be reused. A connection's streams start at its accept: the messages pushed from it and the messages
  drained for its descriptor are counted from that moment.

## Where the code does not do what one would expect

The model follows the code; each of these has the exact condition proved.

- Duplicate ids are accepted. The index then loses one of the orders (`DuplicateIdEscapesIndex`), exactly when the
  submission collides (`MatchKeepsIndexedIff`), and executions go to the wrong client (`DuplicateIdMisroutes`), exactly
  when another client's order rests under that id (`AcceptRoutesIff`). An execution against one of them erases the
  index entry of the other (`ExecutionErasesDuplicate`, `MatchIndexes`).
- Cancelling under a reused id erases the routing entry of the order that stays. Its next execution inserts descriptor 0
  and is reported there (`CancelOrphansDuplicate`); routing survives a cancel exactly when the cancelled order is the
  only one resting under its id (`CancelRoutesIff`).
- A failed cancel is answered by a CANCEL_ACK followed by a REJECT (`CancelResponse`).
- An order with a side byte above 1 is acknowledged and vanishes (`NewOrderIsAllOrNothing`); one with a type byte above 1
  trades without a limit (`UnlistedTypeHasNoLimit`).
- `add_order` on its own can cross the book (`AddCanCross`), exactly when the order could have traded
  (`AddKeepsUncrossedIff`); `match` cannot.
- A client whose buffer was finished by `try_send` while EPOLLOUT was registered is disconnected by the next writable
  event (`FlushedClientIsDropped`). A client whose peer is alive throughout, neither closing nor erring, is dropped
  exactly in that way, by reading or writing (`HealthyClientIsDroppedIff`).
- Masked indexing is correct exactly for capacities that are powers of two (`SlotsDistinctIff`); nothing in the class
  enforces that.
- A rejection reads back exactly when 12 plus its reason's length is below 2^32 (`RejectionReadsBackIff`).
- tests/test_order.cpp:34-36 expects a negative price to be refused. Price is unsigned (include/types.hpp:8), so the
  argument arrives as a large positive price and the constructor accepts it; `MakeOrder` does the same.

## Model

| member | source | states |
|---|---|---|
| Domain.MakeOrder | include/order.hpp:28-43 | construction succeeds if and only if LIMIT has a positive price, MARKET has price 0 and the quantity is positive; otherwise the first failing check gives the reason |
| BookInvariants.SweepIsWaterfall | src/matching_engine.cpp:16-56 | a greedy sweep fills the i-th maker by the smaller of its size and what the depth ahead of it leaves of the taker, stops only when the taker or the eligible prefix is used up, and leaves exactly the residue |
| BookInvariants.WaterfallIsUnique | src/matching_engine.cpp:16-56 | no other fills, residue or remainder satisfy that description: the sweep is determined by it |
| BookInvariants.TradesExecute | src/matching_engine.cpp:28-41 | the i-th new trade is with the i-th order resting opposite, at that order's price and within the taker's limit, for what the depth ahead leaves, buyer and seller by the taker's side; there is one for exactly the eligible orders the quantity reaches |
| BookInvariants.SweepKeepsSide | src/matching_engine.cpp:26-55 | the swept side stays in price-time order, every survivor kept its place, and every maker survives or was exhausted by a fill |
| BookInvariants.SweepLeavesNoCross | src/matching_engine.cpp:16-22 | if the taker has quantity left, the best remaining opposite price is beyond its limit |
| BookInvariants.InsertKeepsSide | src/orderbook.cpp:24-44 | a new order lands behind all of equal or better price; the side keeps its order and gains exactly that order |
| BookInvariants.RemoveKeepsSide | src/orderbook.cpp:59-71 | erasing a node keeps the side's order and exactly the other nodes |
| BookInvariants.AddKeepsWellFormed | src/orderbook.cpp:24-50 | add_order keeps both sides in priority order and every index entry live, duplicate ids included |
| BookInvariants.CancelKeepsWellFormed | src/orderbook.cpp:52-80 | cancel_order keeps both sides in priority order and every remaining index entry live, duplicate ids included |
| BookInvariants.MatchKeepsWellFormed | src/matching_engine.cpp:13-101 | match keeps levels of positive LIMIT orders of their own side in priority order and every index entry denoting a live node with that id, side and price |
| BookInvariants.MatchKeepsUncrossed | src/matching_engine.cpp:13-101 | from an uncrossed book, match leaves every bid strictly below every ask |
| BookInvariants.CancelKeepsUncrossed | src/orderbook.cpp:52-80 | cancel_order leaves an uncrossed book uncrossed |
| BookInvariants.RunKeepsInvariants | src/matching_engine.cpp:13-101 | every sequence of submissions and cancellations keeps the book well-formed and uncrossed |
| BookInvariants.BestPricesAreExtrema | src/orderbook.cpp:13-22 | in every reachable book the front prices are the true maximum bid and minimum ask and the spread is positive |
| PriceLevels.Begin | include/orderbook.hpp:29-31 | begin()->first is the greatest bid price or the least ask price present |
| PriceLevels.FlattenPushBack | src/orderbook.cpp:27-28 | push_back into a price's list, creating the level if missing, is priority insertion into the flat side |
| PriceLevels.FlattenErase | src/orderbook.cpp:61-66 | erasing an iterator's node and its emptied level is removal of exactly that node from the flat side |
| PriceLevels.FlattenUpdateBegin | src/matching_engine.cpp:24-51 | changing the best level's list changes the front of the flat side and nothing behind it |
| Engine.OrderBook.constructor | include/orderbook.hpp:27-48 | a new book is empty and valid |
| Engine.OrderBook.BestBid | src/orderbook.cpp:13-17 | nothing for an empty side, otherwise the maximum over all resting bids |
| Engine.OrderBook.BestAsk | src/orderbook.cpp:19-22 | nothing for an empty side, otherwise the minimum over all resting asks |
| Engine.OrderBook.AddOrder | src/orderbook.cpp:24-50 | in-place update of map, list and index refines Add: MARKET ignored, LIMIT placed last at its price, index entry overwritten |
| Engine.OrderBook.CancelOrder | src/orderbook.cpp:52-80 | in-place erase refines Cancel; an unknown id throws the source's message and changes nothing |
| Engine.EraseAt | src/orderbook.cpp:61-66 | the list loses the node and the level goes with its last order |
| Engine.AddRefines | src/orderbook.cpp:24-50 | on every stored book, the map and index updates equal the flat insertion and keep the stored invariant |
| Engine.CancelRefines | src/orderbook.cpp:52-80 | on every stored book an index entry's level exists, and the map and index updates equal the flat removal |
| Engine.ExecuteFront | src/matching_engine.cpp:28-51 | one execution against the front order is positive, is at the level's price and keeps fills done, trades, index and remaining sweep in agreement with the whole sweep |
| Engine.LeaveLevel | src/matching_engine.cpp:54-55 | erasing an emptied level leaves the flat side as it was |
| Engine.TakeFromFront | src/matching_engine.cpp:44-51 | a maker filled completely leaves the list, one filled in part stays in front with what is left; reduce_quantity cannot throw |
| Engine.SweepDone | src/matching_engine.cpp:16-22 | the outer loop's exit conditions are exactly where the greedy sweep ends |
| Engine.MatchingEngine.MatchOrder | src/matching_engine.cpp:13-101 | final book, index and appended trades equal the greedy specification, earlier trades are kept, each new trade executes at its maker's price, neither inner throw can happen |
| Engine.MatchingEngine.MatchBid | src/matching_engine.cpp:15-62 | the BID branch's nested loops refine the greedy sweep of asks and rest the remainder |
| Engine.MatchingEngine.FillAskLevel | src/matching_engine.cpp:26-53 | the inner loop consumes the level until the taker or the list is used up, in step with the sweep, and strictly decreases the remaining quantity |
| Engine.MatchingEngine.FillAskFront | src/matching_engine.cpp:27-51 | one turn of that loop: trade, list, index and remaining quantity stay in step with the sweep, and the remaining quantity decreases |
| Engine.MatchingEngine.MatchAsk | src/matching_engine.cpp:63-100 | the ASK branch's nested loops refine the greedy sweep of bids and rest the remainder |
| Engine.MatchingEngine.FillBidLevel | src/matching_engine.cpp:71-93 | as FillAskLevel, for bids |
| Engine.MatchingEngine.FillBidFront | src/matching_engine.cpp:72-92 | as FillAskFront, for bids |
| BookTheorems.FillsFollowPriority | src/matching_engine.cpp:16-56 | makers trade in strict price-time priority and within the taker's limit, every fill is positive, all but the last maker are exhausted, and a partly filled one stays at the front while the taker is done |
| BookTheorems.RestsExactlyWhen | src/matching_engine.cpp:57-62 | a LIMIT taker rests if and only if the eligible depth is below its quantity, and then exactly the eligible prefix is gone |
| BookTheorems.RemainderRests | src/matching_engine.cpp:57-62 | if the eligible depth is below a LIMIT taker's quantity, its own side gains exactly one order: new handle, the taker's id and limit price, the uncovered quantity, behind equal or better prices, indexed there; otherwise its own side is unchanged |
| BookTheorems.MatchIndexes | src/matching_engine.cpp:44-47 | an index entry goes exactly when some order with its id is filled completely, duplicate ids included; the remainder's entry is set and all others stay |
| BookTheorems.AddKeepsUncrossedIff | src/orderbook.cpp:24-50 | add_order alone keeps the book uncrossed if and only if the order crosses nothing resting opposite |
| BookTheorems.AddCanCross | src/orderbook.cpp:24-50 | an ask at 100 and then a bid at 100, added without matching, cross the book |
| BookTheorems.CancelRemovesExactlyOne | src/orderbook.cpp:52-80 | exactly the indexed node goes; all others keep order and quantity, the other side and other entries are untouched |
| BookTheorems.CancelUndoesAdd | src/orderbook.cpp:24-80 | cancelling an order just added under an unused id restores both sides and the index |
| BookTheorems.EraseUndoesPushBack | src/orderbook.cpp:24-80 | the same on the stored map, including removal of a newly created level |
| BookTheorems.SameIdSameNode | include/orderbook.hpp:47-48 | in a fully indexed book two resting orders with one id are one node |
| BookTheorems.IndexIsBijection | include/orderbook.hpp:47-48 | in a fully indexed book the indexed ids are exactly the resting ids |
| BookTheorems.AddKeepsIndexedIff | src/orderbook.cpp:30-43 | adding keeps the index a bijection if and only if the id is not resting |
| BookTheorems.MatchKeepsIndexedIff | src/matching_engine.cpp:13-101 | matching keeps it a bijection if and only if no remainder rests beside an order with the same id on its own side or beyond its limit |
| BookTheorems.RunKeepsIndexed | src/orderbook.cpp:24-80 | over every run that never resubmits a resting id the index is a bijection with the resting orders |
| BookTheorems.DuplicateIdEscapesIndex | src/orderbook.cpp:39-43 | two bids under one id: the cancel removes the second and the first can no longer be cancelled |
| BookTheorems.ExecutionErasesDuplicate | src/matching_engine.cpp:87-89 | of two bids under one id, an execution against the first erases the index entry of the second |
| Ledger.SweepConserves | src/matching_engine.cpp:29-51 | what makers and taker lose is exactly what is recorded as fills |
| Ledger.TradeLegs | src/matching_engine.cpp:31-40 | each fill is one trade with one leg for its maker and one for the taker |
| Ledger.SubmitConserves | src/matching_engine.cpp:13-101 | per id, held before plus submitted equals held after plus traded plus discarded |
| Ledger.WithdrawConserves | src/orderbook.cpp:52-80 | per id, held before equals held after plus the cancelled quantity |
| Ledger.RunConserves | src/matching_engine.cpp:13-101 | the ledger balances over every run from every well-formed book |
| Ledger.NothingIsLostOrCreated | src/matching_engine.cpp:13-101 | from the empty book, for every id and run, submitted equals traded plus resting plus cancelled plus discarded MARKET remainder |
| Symmetry.SweepMirrors | src/matching_engine.cpp:16-95 | sweeping mirrored makers with a mirrored taker gives the mirrored fills, residue and remainder |
| Symmetry.MatchMirrors | src/matching_engine.cpp:15-100 | mirroring prices and swapping sides maps one branch's final book and index onto the other's |
| Symmetry.BranchFromMirror | src/matching_engine.cpp:15-100 | so each branch is the other one seen in the mirror |
| Symmetry.TradesMirror | src/matching_engine.cpp:31-84 | ... and its trades, with buyer and seller exchanged |
| Symmetry.SweepAdds | src/matching_engine.cpp:16-56 | sweeping a+b equals sweeping a and then b over what is left |
| Symmetry.TakerIsAdditive | src/matching_engine.cpp:13-101 | submitting a+b, or a and then b, gives equal fills per maker, the same opposite side and the same total rested |
| BitMask.MaskIsMod | include/spsc_ring_buffer.hpp:7-23 | masking with 2^k - 1 is reduction modulo 2^k |
| BitMask.SlotOfWrapped | include/spsc_ring_buffer.hpp:38-41 | the masked index of a wrapped 64-bit counter is the unbounded count modulo the capacity |
| BitMask.WrappedDistance | include/spsc_ring_buffer.hpp:34 | head - tail on wrapped counters is the true distance |
| BitMask.SlotsDistinctIff | include/spsc_ring_buffer.hpp:7-23 | any capacity consecutive counters have distinct slots if and only if the capacity is a power of two |
| RingBuffer.FullTestIsExact | include/spsc_ring_buffer.hpp:34-36 | the full test holds exactly when capacity values are outstanding as far as the producer has seen |
| RingBuffer.EmptyTestIsExact | include/spsc_ring_buffer.hpp:49-51 | the empty test holds exactly when no unread value is visible to the consumer |
| RingBuffer.StepKeeps | include/spsc_ring_buffer.hpp:28-55 | every atomic step of either thread keeps the invariant |
| RingBuffer.FifoUnderEveryInterleaving | include/spsc_ring_buffer.hpp:28-55 | under every schedule the values popped are a prefix of those pushed, at most capacity are outstanding, and the threads never touch one slot at once |
| RingBuffer.WriteHitsFreeSlot | include/spsc_ring_buffer.hpp:38 | no slot is written while it holds an unread value |
| RingBuffer.StepRefinesQueue | include/spsc_ring_buffer.hpp:28-55 | storing head enqueues, storing tail dequeues the front, every other step leaves the queue alone |
| RingBuffer.BothThreadsWaitFree | include/spsc_ring_buffer.hpp:28-55 | whatever the other thread does, each thread's next access is possible and inside the array |
| RingBuffer.SoloPush | include/spsc_ring_buffer.hpp:28-43 | the producer's steps run in one go append the item, or find the queue full exactly at capacity |
| RingBuffer.SoloPop | include/spsc_ring_buffer.hpp:45-55 | the consumer's steps run in one go remove the oldest value, or find the queue empty |
| RingBuffer.SpscRingBuffer.constructor | include/spsc_ring_buffer.hpp:61-63 | a new ring of power-of-two capacity is empty |
| RingBuffer.SpscRingBuffer.TryPush | include/spsc_ring_buffer.hpp:28-43 | succeeds if and only if fewer than capacity values are queued, and then appends the item |
| RingBuffer.SpscRingBuffer.TryPop | include/spsc_ring_buffer.hpp:45-55 | returns nothing if and only if the queue is empty, otherwise removes and returns its front |
| WireCodec.OrderRoundTrip | src/binary_serializer.cpp:6-84 | a serialized valid order deserializes to itself |
| WireCodec.TradeRoundTrip | src/binary_serializer.cpp:184-243 | a serialized trade deserializes to itself |
| WireCodec.RejectionRoundTrip | src/binary_serializer.cpp:135-182 | a serialized rejection deserializes to itself while its reason's length fits 32 bits |
| WireCodec.IdRoundTrip | src/binary_serializer.cpp:86-133 | a serialized id deserializes to itself |
| WireCodec.DecodeInvertsPayload | src/binary_serializer.cpp:6-269 | every message type's deserializer undoes its serializer |
| WireCodec.OrderLayout | src/binary_serializer.cpp:6-57 | the 27 bytes of a NEW_ORDER frame one by one: big-endian length, little-endian fields |
| WireCodec.TradeLayout | src/binary_serializer.cpp:184-211 | the 41 bytes of a TRADE frame one by one |
| WireCodec.FrameHeader | src/binary_serializer.cpp:143-149 | every frame starts with its type byte and the low 32 bits of the payload size, most significant byte first |
| WireCodec.IdMessageLayouts | src/binary_serializer.cpp:86-124 | the 13 bytes of CANCEL_ORDER (type 2), ORDER_ACK (type 3) and CANCEL_ACK (type 6) one by one |
| WireCodec.RejectionLayout | src/binary_serializer.cpp:135-162 | the bytes of a REJECT frame (type 4): length, id, reason length and reason at fixed offsets |
| WireCodec.OrderRead | src/binary_serializer.cpp:59-84 | on the bytes: a payload is refused if and only if its quantity is 0, or its type is 0 and its price 0, or its type is 1 and its price positive, with the reason of the first failing check; any other is read as exactly its fields |
| WireCodec.IdRead | src/binary_serializer.cpp:103-107 | an id is read from the first eight bytes of any payload |
| WireCodec.TradeRead | src/binary_serializer.cpp:213-243 | each field of a trade is read at its offset |
| WireCodec.RejectionRead | src/binary_serializer.cpp:164-182 | id, reason length and reason are read at their offsets |
| Serializer.OpenFrame | src/binary_serializer.cpp:141-150 | makes room for the frame, keeps the buffer's bytes and writes type and length behind them |
| Serializer.SerializeOrder | src/binary_serializer.cpp:6-57 | appends exactly the order's frame, existing bytes untouched |
| Serializer.SerializeCancel | src/binary_serializer.cpp:86-101 | appends exactly the cancel frame |
| Serializer.SerializeAcknowledgement | src/binary_serializer.cpp:109-124 | appends exactly the acknowledgement frame |
| Serializer.SerializeRejection | src/binary_serializer.cpp:135-162 | appends exactly the rejection frame, for reasons of any length |
| Serializer.SerializeTrade | src/binary_serializer.cpp:184-211 | appends exactly the trade's frame |
| Serializer.SerializeCancelAck | src/binary_serializer.cpp:245-260 | appends exactly the cancel acknowledgement frame |
| Framing.ParseAppend | src/network_utils.cpp:20-38 | parsing is incremental: later bytes only extend the leftover of earlier ones |
| Framing.FrameReadsBackIff | src/network_utils.cpp:20-38 | a frame reads back as itself, leaving what follows, if and only if its payload length is below 2^32 |
| Framing.RejectionReadsBackIff | src/binary_serializer.cpp:135-162 | a rejection reads back if and only if 12 plus its reason's length is below 2^32 |
| Framing.BatchRoundTrip | src/binary_serializer.cpp:6-269 | a batch appended to whole frames parses and decodes to the same messages in order and leaves the earlier frames alone |
| Framing.AbsorbTracks | src/exchange_server.cpp:148-209 | after a recv of any size, messages pushed plus the pending one are the non-empty frames of the whole-stream parse and the partial buffers hold exactly its leftover |
| Framing.ResetTracks | src/exchange_server.cpp:218-220 | resetting the reader after a successful push keeps that agreement |
| Framing.WantsSomething | src/exchange_server.cpp:152-193 | no recv is issued for zero bytes |
| Messages.OthersUnseen | src/exchange_server.cpp:210-216 | pushes for one connection leave every other connection's frames alone |
| NetworkUtils.ReadExact | src/network_utils.cpp:7-17 | returns exactly the next n bytes however they are chunked; fails only if the stream ends or breaks first |
| NetworkUtils.ReadMessage | src/network_utils.cpp:20-38 | returns the stream's first frame and consumes nothing beyond it; fails only if the stream ends inside it or breaks |
| Outflow.HappenKeeps | src/exchange_server.cpp:225-295 | draining, try_send and handle_write each keep: bytes accepted followed by the unsent buffer equal the payloads drained |
| Outflow.StreamIsSafe | src/exchange_server.cpp:225-321 | so does every sequence of them with any partial sends; after a disconnect the accepted bytes are a prefix |
| Outflow.HandleWriteDropsIff | src/exchange_server.cpp:268-295 | with a healthy peer one call of handle_write disconnects if and only if the buffer is empty, and try_send never does |
| Outflow.EpolloutIff | src/exchange_server.cpp:256-294 | over every history, EPOLLOUT is registered if and only if some try_send sent only a part and no handle_write has finished the buffer since |
| Outflow.UnsentRestIsArmed | src/exchange_server.cpp:262-287 | the rest of a buffer sent in part always has EPOLLOUT registered |
| Outflow.ClientIsDroppedIff | src/exchange_server.cpp:148-295 | over every history, a client is gone if and only if a send from it returned zero or failed, or a recv reported a close or an error |
| Outflow.HealthyClientIsDroppedIff | src/exchange_server.cpp:148-295 | a client whose peer neither closes nor errs is never dropped by reading, and is dropped at all if and only if a writable event follows a try_send that emptied the buffer under EPOLLOUT, with nothing drained in between |
| Server.DeliverAllBytes | src/exchange_server.cpp:225-236 | draining a batch extends each active client by exactly the payloads addressed to it, in order |
| Server.WokenIff | src/exchange_server.cpp:229-233 | a descriptor enters pending_writes_ if and only if it is active and addressed by the batch |
| Server.SendOutcome | src/exchange_server.cpp:239-295 | for every result of send, both send paths keep the connection's byte stream intact |
| Server.FlushedClientIsDropped | src/exchange_server.cpp:225-321 | two responses drained together, a partial and then a finishing try_send from pending_writes_, and the next writable event disconnects the client |
| Server.ExchangeServer.constructor | src/exchange_server.cpp:77 | 1024 slots, all disconnected, and every connection's invariant holds |
| Server.ExchangeServer.AcceptClient | src/exchange_server.cpp:134-139 | on any descriptor, used before or not: the table doubles or grows to fit, the slot starts over active, other slots are untouched and all connections stay in agreement |
| Server.ExchangeServer.DrainOutboundQueue | src/exchange_server.cpp:225-236 | each active client's buffer grows by its own payloads in order, unknown and inactive ones are skipped, one pending entry is added per delivered message |
| Server.ExchangeServer.TrySend | src/exchange_server.cpp:239-265 | nothing without unsent bytes; otherwise one send of everything unsent, whose result decides between finished, partial with EPOLLOUT, unchanged or disconnected; every byte stream stays intact |
| Server.ExchangeServer.HandleWrite | src/exchange_server.cpp:268-295 | one send of everything unsent for an active client, EPOLLOUT off once finished and only then, disconnected if the buffer was empty; every byte stream stays intact |
| Server.ExchangeServer.FlushPendingWrites | src/exchange_server.cpp:316-321 | one try_send per pending entry in order, duplicates included, and the list ends empty |
| Server.ExchangeServer.HandleRead | src/exchange_server.cpp:143-223 | only this connection's stream grows, all connections stay in agreement with the whole-stream parse, the client is disconnected if and only if one of the recvs reported a close or an error, and the loop ends at the first short recv or the first refused push, the latter exactly when a complete message is kept |
| Server.ExchangeServer.ReadHeader | src/exchange_server.cpp:148-187 | one recv for the missing header bytes keeps the reader tracking the stream whatever it returns, and drops the client if and only if it reported a close or an error |
| Server.ExchangeServer.ReadPayload | src/exchange_server.cpp:189-209 | the same for the missing payload bytes; it proceeds only with a complete message |
| Server.ExchangeServer.PushMessage | src/exchange_server.cpp:210-220 | a refused push changes nothing and the message may be forgotten only after an accepted one |
| Processor.OrderProcessor.Process | src/order_processor.cpp:16-96 | new book, routing and outbound messages equal the sequential specification Respond, for every side and type byte; an unknown type throws and changes nothing |
| Processor.OrderProcessor.Push | src/order_processor.cpp:91-95 | retries through every refusal and pushes the message exactly once |
| Processor.OrderProcessor.TakeNewOrder | src/order_processor.cpp:19-58 | the three outcomes of a NEW_ORDER, with the sender's own message still to be pushed |
| Processor.OrderProcessor.TakeOrder | src/order_processor.cpp:27-48 | match, record the submitter, push the maker frames, and build trades then ack for the taker |
| Processor.OrderProcessor.SendTrades | src/order_processor.cpp:31-44 | per trade one frame in the taker's batch and one pushed to the routed maker, in order, with operator[]'s default insertion |
| Processor.OrderProcessor.SendTrade | src/order_processor.cpp:32-43 | one turn of that loop, retrying its push until the ring takes it |
| Processor.OrderProcessor.TakeCancel | src/order_processor.cpp:61-86 | a known id is removed from book and routing and acknowledged; an unknown one is acknowledged, then rejected, with state unchanged |
| Processor.ReasonBytes | src/orderbook.cpp:77 | the bytes of the reason for an unknown id |
| Routing.NewOrderIsAllOrNothing | src/order_processor.cpp:19-58 | exactly the payloads the constructor refuses change nothing and give their sender alone one rejection with the reason; any other does to the book what match does and its sender's last-pushed response decodes to its trades in order and then the ack; with an unlisted side there is the ack and nothing else |
| Routing.ThrowsIff | src/order_processor.cpp:18-90 | a message throws out of process if and only if its type byte is neither 1 nor 2 |
| Routing.UnlistedTypeHasNoLimit | src/matching_engine.cpp:19-62 | a type byte above 1 matches like a MARKET order of its side and quantity, at any price, and never rests |
| Routing.CancelResponse | src/order_processor.cpp:61-86 | one message to the sender: for a known id, taken out of book and routing, it decodes to the ack; for an unknown id to ack and rejection with state unchanged |
| Routing.MakerMessagesAt | src/order_processor.cpp:31-44 | the i-th trade yields one frame with that trade, addressed by the map's entry for its maker |
| Routing.LookupsInsert | src/order_processor.cpp:39 | looking up counterparties keeps every routing entry and inserts descriptor 0 for exactly the missing ids |
| Routing.NoDefaultInsert | src/order_processor.cpp:39 | while resting ids are routed, the counterparty lookup never inserts a default entry |
| Routing.AcceptRoutesIff | src/order_processor.cpp:28-44 | every trade reaches its maker's submitter and every resting id still leads to its submitter, if and only if no other client's order rests under the submitted id |
| Routing.InertRoutesIff | src/order_processor.cpp:28-30 | the same for an order with an unlisted side, which only enters the routing map |
| Routing.CancelRoutesIff | src/order_processor.cpp:70-76 | after a cancel every resting id leads to its submitter if and only if the cancelled order was the only one resting under its id |
| Routing.MessageRoutes | src/order_processor.cpp:16-96 | a message that reuses no resting id keeps every resting order indexed and routed and reports each trade to its maker's submitter |
| Routing.DuplicateIdMisroutes | src/order_processor.cpp:30-41 | a reused id sends client 3's execution report to client 4 |
| Routing.CancelOrphansDuplicate | src/order_processor.cpp:39-76 | two bids of client 3 under one id, a cancel, and the remaining bid's execution is reported to descriptor 0 |
| Sequential.ServedAt | src/order_processor.cpp:4-13 | every message is served in the state the earlier ones left, and what it sends is never taken back |
| Sequential.ServeRunsCommands | src/order_processor.cpp:16-96 | serving messages, the last of which may throw, does to the book what running their commands does |
| Sequential.ServeKeepsBook | src/order_processor.cpp:16-96 | after any messages, also ones that throw, the book is well-formed and uncrossed |
| Sequential.ServeRoutes | src/order_processor.cpp:4-96 | after every run that never reuses a resting id, all resting orders are indexed and lead to their submitters |
| Sequential.TradesReachOwners | src/order_processor.cpp:27-48 | over every such run each order sends one report per trade to the maker's submitter, then the response to its sender, and nothing else |
| Reporting.ServeSpeaks | src/order_processor.cpp:4-96 | everything ever sent is batches of encodable messages |
| Reporting.PrefixDecodes | src/network_utils.cpp:20-38 | whatever part of a batch has arrived, its whole frames decode to the batch's first messages |
| Reporting.LiveReportsTwice | src/order_processor.cpp:31-48 | an order's trades, decoded from the bytes sent, are reported once to the makers and once to the taker, in order |
| Reporting.ReportedTwice | src/order_processor.cpp:4-96 | over every run the reports decoded from all bytes sent account for every trade exactly twice |
| Reporting.LedgerBalancesWithReports | src/order_processor.cpp:4-96 | per id, twice the submitted quantity equals the legs of all reports sent plus twice what rests, was cancelled or was discarded |
| Exchange.MoveKeepsPipeline | src/order_processor.cpp:4-96 | every step of either thread keeps: the desk is the sequential processor's after the messages popped, and its outputs are those pushed plus those still to push |
| Exchange.MoveKeepsLinks | src/exchange_server.cpp:106-321 | every step, accepts included, keeps every connection in agreement with the frames pushed from it and the bytes drained for it since its accept |
| Exchange.ProcessorIsNeverHeldUp | src/order_processor.cpp:4-13 | the machine's conditions never block a step the processor thread would take |
| Exchange.IoIsNeverHeldUp | src/exchange_server.cpp:81-104 | nor an accept, a recv or send of any outcome, a drain or an offer of the I/O thread between ring operations |
| Exchange.RingsAreNeverHeldUp | include/spsc_ring_buffer.hpp:28-55 | nor a push or pop under way |
| Exchange.PipelineIsSequential | src/order_processor.cpp:4-96 | in every reachable state book and routing are the fold of process over the first k messages pushed inbound, and the messages drained are a prefix of that fold's outputs |
| Exchange.ServerIsSequential | src/exchange_server.cpp:106-321 | end to end per connection since its accept: messages pushed are the frames its client sent in order, at most one pending, and what the client has received decodes to the first of the replies the sequential processor has for its descriptor |
| Exchange.ServerBookIsSound | src/order_processor.cpp:4-96 | in every reachable state of the server, halted or not, the book is well-formed and uncrossed, and for every id the ledger balances with the reports sent or about to be sent |
| Exchange.ServerRoutesTrades | src/order_processor.cpp:4-96 | in every reachable state of a run without reuse of resting ids, every trade taken so far has its one report to the maker's submitter among the messages sent or about to be sent |

## Left out

- Socket, epoll, accept and fcntl calls and their errors: only the bytes they move and the EPOLLOUT flag are modelled.
- Whom a message drained on a reused descriptor was meant for: a connection's replies are everything drained for its
  descriptor since its accept, which can include what an earlier connection on it had coming.
- Processor.OrderProcessor.Process: excludes payloads too short for their type, which are undefined behaviour in the source.
- Exchange.ServerIsSequential: covers runs whose completed messages are long enough for their type.
- Processor.OrderProcessor.Push: terminates under the assumption that the outbound ring is drained sooner or later.
- RingBuffer.SpscRingBuffer.TryPush: the class runs without interference; concurrency is the state machine in the same module.
- Framing.AbsorbTracks: states safety only; a message kept after a refused push waits for another read event.
- Outflow.StreamIsSafe: states safety of the byte stream, not that a client stays connected.
- Memory orders weaker than acquire and release, and the cost or failure of allocation and moves.
- Order timestamps: no decision reads them and the wire format does not carry them.
- OrderBook::print_depth and Order::toString: output formatting.
- The client, its order simulator and the main programs: wiring and random generation.
- The mutex-based queue in include/thread_safe_queue.hpp: replaced by the ring buffer.
- Benchmarks and performance documents.
