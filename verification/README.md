# CTE trading pipeline: a verified model

This project models the trading pipeline of the repository in Dafny and proves what it does: the
matching engine, the order manager that follows it through asynchronous trade messages, the request
generator and the symbol router that spread orders over threads and nodes, the data verifier that
compares the trades of two engines, and the database client with its text format and HTTP reader.

How the modules fit together:

- `Orders`, `Seqs`, `Decimal`: the records, the counting functions over them, small sequence lemmas.
- `PriceTime`: the order book of one symbol as two sequences in priority order. `Sweep`, `Insert`,
  `Submit` and `Run` are the specification of matching; invariants, conservation and price limits are
  proved about them.
- `NaiveEngine`: one pile of resting orders in arrival order, from which the best-priced and then
  earliest order is picked. `PriceTime` is proved to be exactly this engine.
- `GreedyMatching`: no other way of filling the same quantity is a better deal for the incoming order.
- `MatchActor`: the actor with its two tables of price levels, changed by loops that erase while they
  iterate, proved against `PriceTime` and through it against `NaiveEngine`.
- `OrderManager`, `EngineGateway`: the manager's service class; the engine's switch, its order
  transformation and its broadcast loop.
- `TradingSystem`, `TradeProvenance`: manager, engine and messages as one transition system in which any
  number of place-order calls interleave and trades are delivered in any order; and that every trade is
  between two of the requests.
- `Generator`, `Schedule`, `SymbolRouter`: the split of the order file over threads, independence of
  the schedule, and the routing table as a function of its event history.
- `DataVerifier`, `VerdictExactness`, `PagedVerifier`, `VerifiedSchedules`: what the verifier's verdict
  means, exactly when it is right, and that it never reports a difference between two runs of the same
  order file.
- `PercentEncoding`, `LineProtocol`, `InfluxBuffer`, `HttpReader`, `HttpResponse`, `HeaderSpelling`,
  `IncompleteBodies`: the byte formats.

Methods with loops stand where the source has loops; each is proved against a function, and the
properties are lemmas about that function. Amounts are non-negative int32 values by type, prices int32
values by type. Inductive proofs call themselves; where Dafny would add an induction of its own it is
switched off.

Where the code differs from what one would expect, the model follows the code:

- An order for amount zero that crosses the book makes a trade for amount zero. Exactly for streams with
  such an order the trades differ from those of the naive engine (`NaiveEngine.RunRefinesExactlyWhen`, with
  a run from the empty book in `NaiveEngine.ZeroAmountTrades`).
- Removing a node erases its symbols even if another node has registered them since
  (`SymbolRouter.RemovalUndoesExactlyWhen`).
- Comparing fully ordered data page by page reads past what was read of the second source, unless that
  source is not shorter, fits in one page, or ends with a page (`PagedVerifier.PagesInStepWhen`).
- Against databases with as many trades for each symbol, the by-symbol verdict is exact if and only if each
  symbol's trades in the first one are all different or all alike in what is compared
  (`VerdictExactness.VerdictIsExactExactlyWhen`; `VerdictExactness.RepeatedTradesPass` shows what it lets
  through). Trades that one side has beyond the end of the other are never looked at
  (`VerdictExactness.SurplusOfAIgnored`, `VerdictExactness.SurplusOfBIgnored`).
- A payload of the database client reads back if and only if no name, key or value in it ends in a
  backslash, no name, key or tag value has a newline, and every entity has a field
  (`LineProtocol.PayloadReadBack`). A backslash at the end of a component swallows the delimiter behind it.
- The list of characters that are not percent-encoded has a second `q` where `z` should be, so `z` is
  encoded; this still decodes correctly.
- The HTTP reader recognises the framing headers in one spelling only. By sections 3.2 and 4 of RFC 7230
  names are case-insensitive and blanks around values are optional; in any other spelling the body is read
  only if there is none (`HeaderSpelling.LengthFieldIsRead`, `HeaderSpelling.CodingFieldIsRead`, and
  `content-length: 5` in `HeaderSpelling.LowerCaseLengthIsIgnored`).
- A body of known length that breaks off is taken as complete, with the status unchanged
  (`IncompleteBodies.ShortBodyIsAccepted`); a chunked body that breaks off is an error
  (`IncompleteBodies.ChunkedBodyIsAcceptedExactlyWhen`).
- The client of the order manager is told whether the last record could be written, not what the engine
  answered (`OrderManager.OrderManagerService.PlaceOrder`).
- Every payload of the database client begins with an empty line, because each entity starts a new
  line.

## Model

| member | source | states |
|---|---|---|
| MatchActor.MakeTrade | match_engine/src/match_actor.cc:13-47 | a trade takes the smaller of the two amounts off both orders and uses one of them up; it is at the resting price, for the right buyer and seller and the incoming order's side and symbol, with the incoming order's submit time if that is used up, else the resting one's |
| MatchActor.MatchOrderFromList | match_engine/src/match_actor.cc:49-75 | the erasing loop over one level leaves, trades and takes exactly what sweeping the level from the front does, and answers whether the level ran out before the order |
| MatchActor.OrderTable.MatchOrder | match_engine/src/match_actor.cc:77-96 | the erasing loop over the levels is the sweep of the flattened table; no empty level, one price per level, strict level order and positive amounts are kept |
| MatchActor.OrderTable.AddToOrderTable | match_engine/src/match_actor.cc:98-125 | a new order comes to rest behind everything of equal or better price; the table invariant is kept |
| MatchActor.OrderBook.Receive | match_engine/src/match_actor.cc:169-197 | one order message: tables, trades and outgoing message are those of the priority book, and those of the naive engine if and only if the order asks for something or crosses nothing; the book invariant, best bid below best ask included, is kept |
| MatchActor.Process | match_engine/src/match_actor.cc:169-197 | for every stream of orders, the two tables rest exactly the naive engine's orders; they make exactly its trades if and only if no order for nothing crosses the book when it comes, so for all positive amounts |
| MatchActor.SweepConcat | match_engine/src/match_actor.cc:80-93 | sweeping two stretches of a book is sweeping the first and, if it runs out before the order, the second |
| MatchActor.LevelOpened | match_engine/src/match_actor.cc:116-124 | a level inserted before the first worse one keeps the table invariant and is the right place in priority order |
| NaiveEngine.BestIsBest | match_engine/src/match_actor.cc:49-125 | the specification picks the eligible order with the best price, and among those the one that arrived first |
| NaiveEngine.SubmitRefinesNaive | match_engine/src/match_actor.cc:180-196 | for one order of positive amount the priority book makes the naive engine's trades and still holds, price by price and in arrival order, the same resting orders |
| NaiveEngine.RunRefinesNaive | match_engine/src/match_actor.cc:180-196 | the same for every stream of such orders |
| NaiveEngine.RepresentsSameOrders | match_engine/src/match_actor.cc:98-125 | related books rest the same multiset of orders |
| NaiveEngine.RepresentationIsUnique | match_engine/src/match_actor.cc:98-125 | only one priority-ordered book corresponds to a pile of orders in arrival order |
| NaiveEngine.RefinesExactlyWhen | match_engine/src/match_actor.cc:13-27 | the book and the naive engine make the same trades if and only if the order asks for a positive amount or crosses nothing |
| NaiveEngine.RunRefinesExactlyWhen | match_engine/src/match_actor.cc:13-27 | for every stream of any amounts the two rest the same orders, and make the same trades if and only if no order for nothing crosses the book when it comes |
| NaiveEngine.ZeroAmountTrades | match_engine/src/match_actor.cc:13-27 | a run from the empty book in which a buy order for nothing trades |
| PriceTime.SweepHitsPrefix | match_engine/src/match_actor.cc:49-96 | the makers hit are a prefix of the book in priority order, all but the last filled completely, every price acceptable to the taker |
| PriceTime.SweepIsMaximal | match_engine/src/match_actor.cc:49-96 | executed quantity is the smaller of the taker's amount and the total resting at crossing prices |
| PriceTime.SweepShowsTimes | match_engine/src/match_actor.cc:17-27 | a trade that uses the incoming order up shows its submit time; one that leaves it wanting more uses the resting order up and shows that one's |
| PriceTime.RunKeepsBookValid | match_engine/src/match_actor.cc:180-196 | every reachable book is in price priority with positive amounts on the right sides, and every bid is below every ask |
| PriceTime.RunConserves | match_engine/src/match_actor.cc:13-27 | for every id, over whole runs, what rests plus what was traded equals what rested before plus what came in |
| PriceTime.OrderAmountsAreConserved | match_engine/src/match_actor.cc:13-27 | with distinct ids, each order's amount is what rests of it plus the trades naming it |
| PriceTime.BoughtEqualsSold | match_engine/src/match_actor.cc:13-47 | over whole runs buy orders and sell orders lose exactly the traded volume |
| PriceTime.TradesRespectLimits | match_engine/src/match_actor.cc:49-60 | every trade of every run is made by one order with an earlier one of the stream, at the earlier one's price, within both limits, for their users and symbol, and shows the later one's submit time if it uses that one up, else the earlier one's |
| GreedyMatching.GreedyIsOptimal | match_engine/src/match_actor.cc:77-125 | among all allocations of the executed quantity over the resting orders, the trades made cost a buyer the least and bring a seller the most |
| OrderManager.OrderManagerService.PlaceOrder | order_manager/src/order_manager.cc:149-210 | a new id; the order carries symbol, user, side, amount and price of the request and the present time; a table entry with nothing concluded; the records persisted before and after the engine's answer, and the reply to the client, which reports the database write |
| OrderManager.OrderManagerService.HandleMatchResult | order_manager/src/order_manager.cc:221-297 | both orders are credited and erased when used up; a message naming an unknown order changes nothing; in test mode nothing is persisted |
| OrderManager.TradeMeans | order_manager/src/order_manager.cc:238-292 | in plain terms: each order's concluded amount grows by the trade's, its entry goes exactly when that reaches its amount, no other entry changes, and the maker's record is persisted before the taker's |
| TradingSystem.AmountsAlwaysAgree | order_manager/src/order_manager.cc:156-173 | under every interleaving and delivery order, concluded plus undelivered plus resting plus unmatched amount is the order's amount, and the concluded amount fits its int32 |
| TradingSystem.RunKeepsInv | order_manager/src/order_manager.cc:212-265 | every step of placing, submitting, refusing and delivering keeps the agreement of the manager's table with the engine's books |
| TradingSystem.NoDeliveryIsLost | order_manager/src/order_manager.cc:238-264 | no trade message ever takes the branch for unknown orders |
| TradingSystem.DeliveryFindsBothOrders | order_manager/src/order_manager.cc:238-248 | a message in flight finds both its orders in the table, with room for its amount |
| TradingSystem.ErasedExactlyWhenFilled | order_manager/src/order_manager.cc:254-261 | a delivery erases an entry if and only if its amount is then concluded in full |
| TradingSystem.QuiescentTable | order_manager/src/order_manager.cc:212-265 | when nothing is on its way, the table holds exactly the orders that rest in a book or were never taken by the engine, with all that no longer rests counted as concluded |
| TradingSystem.DeliveryOrderLeavesNoTrace | order_manager/src/order_manager.cc:221-265 | two quiescent runs with the same orders and books have the same table, in whatever order their trades were delivered |
| TradingSystem.PersistedAmountsRise | order_manager/src/order_manager.cc:235-292 | the amounts persisted for an order by the trade handler rise strictly within its amount, and "concluded" comes at most once, last, with exactly that amount |
| TradeProvenance.PlacedAsRequested | order_manager/src/order_manager.cc:299-337 | in every reachable state each placed order carries, field by field, the request of one building step of the run, with ids given out in the order of these steps |
| TradeProvenance.TradesAreBetweenRequests | match_engine/src/match_actor.cc:13-47 | under every interleaving each trade message is between a buy and a sell request of the run for one symbol, for their users, within both limits, at the resting one's |
| EngineGateway.Match | match_engine/src/match_engine_grpc_impl.cc:53-81 | a closed engine answers that it is unavailable, an unknown trading side fails the precondition, and every other order is forwarded with all its fields |
| EngineGateway.MatchEngineGRPC.SubscribeMatchResult | match_engine/src/match_engine_grpc_impl.cc:83-97 | a new client joins the broadcast from the current trade on |
| EngineGateway.MatchEngineGRPC.SendMatchResult | match_engine/src/match_engine_grpc_impl.cc:138-179 | for every pattern of write failures, each client has in order what was sent since it subscribed up to its first failed write, is dropped exactly there, and a client still kept has everything |
| Generator.RequestGenerator.Split | request_generator/src/generator.cc:59-75 | each symbol's orders land in one thread's queue in original order, and no thread has two symbols more than another |
| Generator.PartitionKeepsOrders | request_generator/src/generator.cc:72-74 | the queues together hold exactly the input |
| Schedule.MergedKeepsSymbol | request_generator/src/generator.cc:114-120 | under every interleaving of the queues, a symbol that one queue holds keeps that queue's order |
| Schedule.RunAnon | match_engine/src/match_actor.cc:13-125 | trades and books do not depend on order ids and submission times, except for showing them |
| Schedule.RouteBySymbol | match_engine/src/symbol_id_router.cc:50-57 | seen from one symbol, the engine is that symbol's book run on that symbol's orders; orders of unknown symbols change nothing |
| Schedule.ScheduleIndependence | request_generator/src/generator.cc:59-85 | two runs of one order file, for any thread counts, schedules, ids and times, make for every symbol the same trades in the same order, equal in side, amount, price, users and symbol, and end in the same book |
| Schedule.SequentialReference | request_generator/src/generator.cc:59-85 | in particular every schedule agrees with sending the file sequentially |
| SymbolRouter.SymbolRouterData.AddRemoteSymbol | match_engine/src/symbol_id_router.cc:13-20 | the routing table and the nodes' symbol lists stay the fold over the event history |
| SymbolRouter.SymbolRouterData.AddLocalSymbol | match_engine/src/symbol_id_router.cc:21-26 | the same for a local symbol, which is also remembered as local |
| SymbolRouter.SymbolRouterData.RemoveSymbolsOf | match_engine/src/symbol_id_router.cc:27-33 | the erasing loop removes exactly the routes of the symbols the node holds |
| SymbolRouter.SymbolRouterData.RouteOrder | match_engine/src/symbol_id_router.cc:50-57 | an order goes where the history says; the null entry left for an unknown symbol changes no route |
| SymbolRouter.TargetIsInForce | match_engine/src/symbol_id_router.cc:18-33 | a symbol is routed if and only if one of its registrations has neither a later one nor a later removal of a node holding it, and then to that actor |
| SymbolRouter.RemovedNodeIsUnused | match_engine/src/symbol_id_router.cc:27-33 | after a node's removal no registration it made decides any route |
| SymbolRouter.RemovalUndoesExactlyWhen | match_engine/src/symbol_id_router.cc:27-33 | the registration in force for a symbol is undone by a node's removal if and only if that node registered the symbol at the same time or earlier and was not removed since, whoever made the registration in force |
| SymbolRouter.RemovalSparesExactlyWhen | match_engine/src/symbol_id_router.cc:27-33 | a removal leaves a symbol's routing alone if and only if the node has not registered it since its last removal, or it was not routed |
| SymbolRouter.TakenOverSymbolIsLost | match_engine/src/symbol_id_router.cc:27-33 | a symbol taken over by a second node loses its route when the first one is removed |
| SymbolRouter.RegisteringChangesNothingWhen | match_engine/src/symbol_id_router.cc:13-26 | a list of registrations leaves table and symbol lists alike if and only if its symbols are routed and held so already |
| SymbolRouter.RepetitionIsHarmless | match_engine/src/symbol_id_router.cc:13-26 | registering a whole list of symbols again changes no route and no holding, now or after any later events |
| SymbolRouter.LookupIsHarmless | match_engine/src/symbol_id_router.cc:50-57 | a lookup of an unknown symbol never masks a later registration |
| SymbolRouter.JoinThenLeave | match_engine/src/symbol_id_router.cc:13-33 | a node joining and leaving restores routing if and only if none of its symbols was routed before |
| DataVerifier.ExtractValuesElementBySymbol | data_verifier/src/data_source_influxdb.cc:219-226 | grouping is stable: each symbol's rows, all of them, in their original order |
| DataVerifier.CompareTradeJsonElement | data_verifier/src/data_source_influxdb.cc:231-275 | two rows are equal exactly when amount, buying user, price, selling user and symbol are |
| DataVerifier.CompareSymbol | data_verifier/src/data_verifier.cc:131-190 | a symbol passes if and only if the key of every row of A that differs in place appears among the rows of B that differ in place |
| DataVerifier.VerifyEqualityForOrderedBySymbolDataSource | data_verifier/src/data_verifier.cc:93-213 | the verdict is true if and only if every symbol of A occurs in B and passes |
| DataVerifier.VerifyEquality | data_verifier/src/data_verifier.cc:12-55 | the default mode from rows to verdict; two empty sources are not equal |
| DataVerifier.NoFalseAlarm | data_verifier/src/data_verifier.cc:107-172 | if each symbol's trades in B are a permutation of those in A on the compared fields, the verdict is true |
| VerdictExactness.PassesExactlyWhenPermuted | data_verifier/src/data_verifier.cc:131-172 | a symbol with as many trades on both sides, those of A all different or all alike, passes if and only if the compared fields are a permutation |
| VerdictExactness.VerdictIsExact | data_verifier/src/data_verifier.cc:107-172 | when sizes agree for every symbol and each symbol's trades in A are all different or all alike, the verdict is true if and only if the multisets are equal for every symbol |
| VerdictExactness.VerdictIsExactExactlyWhen | data_verifier/src/data_verifier.cc:107-172 | the verdict on A is exact against every database with as many trades for each symbol if and only if A is not empty and each symbol's trades in A are all different or all alike |
| VerdictExactness.SurplusOfBIgnored | data_verifier/src/data_verifier.cc:123-129 | rows of B behind as many as A has for each symbol never change the verdict, except on an empty A |
| VerdictExactness.SurplusOfAIgnored | data_verifier/src/data_verifier.cc:107-129 | rows of A behind as many as B has for each symbol change the verdict only if B lacks their symbol |
| VerdictExactness.MissingTradesPass | data_verifier/src/data_verifier.cc:107-129 | so any trades that one side lacks at the end go unnoticed, and only a symbol that B lacks does not |
| VerdictExactness.RepeatedTradesPass | data_verifier/src/data_verifier.cc:151-154 | two different trades of one symbol, in numbers two and one against one and two: the verdict is true, with as many trades on both sides |
| VerdictExactness.KeyTellsApart | data_verifier/src/data_verifier.cc:151-156 | for fields without colons the joined key determines the compared fields of a symbol's row |
| PagedVerifier.VerifyEqualityForFullyOrderedDataSource | data_verifier/src/data_verifier.cc:57-91 | whenever the reads keep in step, the paging loop ends, compares each index up to the shorter length exactly once and in order, and its verdict is that the five compared fields agree at each of them, whatever the page size |
| PagedVerifier.PagesInStepWhen | data_verifier/src/data_verifier.cc:60-76 | reading page by page, but no more than the shorter length at a time, keeps in step if and only if the second source is not shorter, fits in one page, or is a whole number of pages |
| VerifiedSchedules.TwoRunsVerify | data_verifier/src/data_verifier.cc:93-213 | the verifier's verdict on the stored trades of any two runs of one order file is true, in whatever order each run's trades are stored |
| PercentEncoding.UrlEncode | common/include/influxdb.hpp:236-253 | the stretch-copying loop appends the byte-wise encoding |
| PercentEncoding.EncodedByte | common/include/influxdb.hpp:236-253 | letters other than z, digits and four marks are copied, a blank becomes a plus sign, every other byte a percent sign and two upper-case hexadecimal digits |
| PercentEncoding.DecodeEncode | common/include/influxdb.hpp:236-253 | the standard decoder, with form-style plus, reads every byte string back |
| PercentEncoding.EncodedAlphabet | common/include/influxdb.hpp:53-55 | the output has only unreserved characters, percent and plus signs |
| LineProtocol.PayloadReadBack | common/include/influxdb.hpp:93-112 | a payload reads back, by a reader with its own list of what is escaped where, as exactly its entities if and only if they are all clean |
| LineProtocol.TokenReadBack | common/include/influxdb.hpp:163-171 | in front of a delimiter an escaped component is read back, up to the delimiter, if and only if it is clean |
| LineProtocol.CleanMeans | common/include/influxdb.hpp:163-171 | clean means: does not end in a backslash and, for names, keys and tag values, has no newline |
| LineProtocol.PrintedUnchanged | common/include/influxdb.hpp:93-112 | names without comma and blank, keys and tag values without comma, equals sign and blank, and texts without quotes are printed as they are |
| LineProtocol.TrailingBackslashIsLost | common/include/influxdb.hpp:104-112 | no payload with a field value that ends in a backslash, whatever the value and wherever it is, reads back |
| InfluxBuffer.Builder.Escape | common/include/influxdb.hpp:163-171 | the escaping loop appends the character-wise escaped text |
| InfluxBuffer.InfluxDB.FlushBuffer | common/src/database_interface.cc:77-134 | one payload with all buffered entities in order is posted and the buffer emptied, whatever the server says; only zero and an empty answer count as success |
| InfluxBuffer.InfluxDB.Write | common/src/database_interface.cc:31-49 | for clean entities, over any run of writes and flushes, the posted payloads, read back, followed by the buffer, are exactly what was written, and the buffer stays below its limit |
| InfluxBuffer.InfluxDB.FlushIfNeeded | common/src/database_interface.cc:57-63 | a round of the background thread posts nothing if nothing is buffered, else one payload with everything, and reports the server's answer; nothing is lost |
| HttpReader.Connection.NoMore | common/include/influxdb.hpp:303-306 | refilling the buffer never changes the bytes still to be read |
| HttpReader.Connection.ReadHeaderLine | common/include/influxdb.hpp:342-376 | the switch on a header line reads what the specification of a header line reads |
| HttpReader.Connection.ReadResponse | common/include/influxdb.hpp:338-404 | code and body are a function of the received bytes alone, for every stream and every split into non-empty pieces; a status of 200 to 299 is returned as zero |
| HttpResponse.WellFormedIsRead | common/include/influxdb.hpp:338-404 | every well-formed response is read as zero for a status of 200 to 299 and else as its status, and as its Content-Length bytes or concatenated chunks (sections 3.3 and 4.1 of RFC 7230) |
| HttpResponse.WriteSucceedsExactlyWhen | common/src/database_interface.cc:113-133 | what the database client takes for a successful write is a well-formed response with a 2xx status and no body |
| HttpResponse.ReadWellFormed | common/include/influxdb.hpp:301-404 | the same through the buffer, for every way recv may split the response |
| HeaderSpelling.LengthFieldIsRead | common/include/influxdb.hpp:343-354 | behind a Content-Length field in any letter case, with any blanks, the body is read if and only if the field has the reader's spelling or the body is empty |
| HeaderSpelling.CodingFieldIsRead | common/include/influxdb.hpp:355-374 | the same for a chunked body behind a Transfer-Encoding field |
| HeaderSpelling.LowerCaseLengthIsIgnored | common/include/influxdb.hpp:342-354 | with `content-length: 5` the five bytes behind the headers are not read |
| IncompleteBodies.ShortBodyIsAccepted | common/include/influxdb.hpp:376-400 | behind a Content-Length of n the body is the first n bytes that come, and fewer if the connection fails before; the code is the status either way |
| IncompleteBodies.ChunkedBodyIsAcceptedExactlyWhen | common/include/influxdb.hpp:376-400 | a chunked body is accepted if and only if it is complete: well-formed chunks up to the empty one |

## Left out

- PriceTime.Sweep: negative amounts, which the engine does not reject either; its int32 subtraction can then overflow.
- DataVerifier.VerifyEquality: the mode for unordered sources, a membership query per row.
- PagedVerifier.VerifyEqualityForFullyOrderedDataSource: reads out of step, where the source runs past the end of a vector, and page size zero, on which it does not return.
- HttpReader.Connection.Recv: an orderly shutdown of the connection by the server in the middle of a response, on which the source reads stale bytes or does not return.
- HttpReader.Number: int overflow of the status and length counters; they are unbounded here.
- HttpResponse.WellFormed: chunk extensions, trailers, bodies ended by closing the connection, lists of transfer codings, and more than one framing header.
- LineProtocol.Entity: the timestamp's passage through an unsigned type and back, which is the identity on int64.
- TradingSystem.PersistedAmountsRise: the records that placing an order persists; its "submitted" may come after "concluded".
- TradingSystem.IsRun: crashes, lost subscriptions, and request amounts that are not positive.
- EngineGateway.MatchEngineGRPC.SendMatchResult: the promises that wake a dropped client's call, the test flag, and copying a trade field by field into its message.
- SendRequest's choice of a server in turn and its counters; one entry node is assumed.
- Reading orders from the database, JSON parsing, InfluxDB itself, sockets, gRPC, actor and cluster calls, threads and locks: rows, messages, queues and atomic steps stand for them.
- Clocks and generated ids: submission times are arbitrary numbers, deal times and trade ids do not appear.
- Latency recording, logging, configuration, command lines, the order generator, fakes and mocks.
- The router's listing of local symbols and its forwarding of the result receiver.
