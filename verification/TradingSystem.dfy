// The order manager, the engine and the messages between them as one transition system. Place-order
// calls of any number of threads interleave at will, the engine takes waiting orders in any order, and
// trade messages are delivered in any order. The manager's table nevertheless always agrees with the
// engine's books.

module TradingSystem {
  import opened Seqs
  import opened Orders
  import opened OrderManager
  import opened PriceTime
  import opened EngineGateway

  datatype State = State(
    lastId: nat,
    placed: map<int, PlacedOrder>,          // every order that was given an id
    building: set<int>,                     // has an id, not yet in the manager's table
    waiting: set<int>,                      // in the table, on its way to a book
    idle: set<int>,                         // refused by the engine, or no book for its symbol
    statuses: map<int, OrderStatus>,        // the manager's table
    books: map<int, Book>,                  // one book per symbol
    inflight: seq<Trade>,                   // trade messages not yet handled
    log: seq<Record>)                       // what the trade handler persisted

  datatype Step =
    | Build(request: Request, now: int)
    | Save(id: int)
    | Submit(id: int)
    | Refuse(id: int)
    | Deliver(index: nat)

  function Init(symbols: set<int>): State {
    State(0, map[], {}, {}, {}, map[], map s | s in symbols :: EMPTY_BOOK, [], [])
  }

  predicate Enabled(s: State, step: Step) {
    match step
    case Build(request, _) => 0 < request.amount
    case Save(id) => id in s.building && id in s.placed
    case Submit(id) =>
      id in s.waiting && id in s.placed && TransformGrpcOrder(s.placed[id]).Some? && s.placed[id].symbol in s.books
    case Refuse(id) => id in s.waiting
    case Deliver(i) => i < |s.inflight|
  }

  function Apply(s: State, step: Step): State
    requires Enabled(s, step)
  {
    match step
    case Build(request, now) =>
      var id := s.lastId + 1;
      s.(lastId := id, placed := s.placed[id := Placed(id, request, now)], building := s.building + {id})
    case Save(id) =>
      s.(building := s.building - {id}, waiting := s.waiting + {id},
         statuses := s.statuses[id := OrderStatus(s.placed[id], 0)])
    case Submit(id) =>
      var symbol := s.placed[id].symbol;
      var (book, trades) := PriceTime.Submit(s.books[symbol], TransformGrpcOrder(s.placed[id]).value);
      s.(waiting := s.waiting - {id}, books := s.books[symbol := book], inflight := s.inflight + trades)
    case Refuse(id) =>
      s.(waiting := s.waiting - {id}, idle := s.idle + {id})
    case Deliver(i) =>
      s.(statuses := AfterTrade(s.statuses, s.inflight[i]),
         inflight := s.inflight[..i] + s.inflight[i + 1..],
         log := s.log + TradeRecords(s.statuses, s.inflight[i]))
  }

  ghost predicate IsRun(s: State, steps: seq<Step>)
    decreases |steps|
  {
    steps == [] || (Enabled(s, steps[0]) && IsRun(Apply(s, steps[0]), steps[1..]))
  }

  ghost function Exec(s: State, steps: seq<Step>): State
    requires IsRun(s, steps)
    decreases |steps|
  {
    if steps == [] then s else Exec(Apply(s, steps[0]), steps[1..])
  }

  // ---------------------------------------------------------------- where an order's amount is

  // The manager's view: the amount it counts as concluded. An order that left the table is done.
  function ConcludedOf(s: State, id: int): int
    requires id in s.placed
  {
    if id in s.statuses then s.statuses[id].concluded
    else if id in s.building then 0
    else s.placed[id].amount
  }

  // The engine's view: the amount that rests in the book of the order's symbol.
  function RestingIn(s: State, id: int): nat
    requires id in s.placed
  {
    if s.placed[id].symbol in s.books then RestingOf(s.books[s.placed[id].symbol], id) else 0
  }

  function Unmatched(s: State, id: int): nat
    requires id in s.placed
  {
    if id in s.building || id in s.waiting || id in s.idle then s.placed[id].amount else 0
  }

  predicate Balanced(s: State, id: int)
    requires id in s.placed
  {
    ConcludedOf(s, id) + Traded(s.inflight, id) + RestingIn(s, id) + Unmatched(s, id) == s.placed[id].amount
  }

  // ---------------------------------------------------------------- the invariant

  ghost predicate GoodIds(s: State) {
    && (forall id :: id in s.placed ==> 1 <= id <= s.lastId && s.placed[id].id == id && 0 < s.placed[id].amount)
    && s.building + s.waiting + s.idle <= s.placed.Keys
    && s.building !! s.waiting !! s.idle
  }

  ghost predicate GoodTable(s: State)
    requires GoodIds(s)
  {
    && (forall id :: id in s.statuses ==> id in s.placed)
    && forall id :: id in s.statuses ==>
         && id !in s.building
         && s.statuses[id].order == s.placed[id]
         && 0 <= s.statuses[id].concluded < s.placed[id].amount
  }

  // A book holds orders of its own symbol only.
  ghost predicate GoodBooks(s: State) {
    && (forall y :: y in s.books ==> ValidBook(s.books[y]))
    && forall y, id :: y in s.books && !(id in s.placed && s.placed[id].symbol == y) ==> RestingOf(s.books[y], id) == 0
  }

  ghost predicate GoodTrades(s: State) {
    && (forall i :: 0 <= i < |s.inflight| ==>
                      0 < s.inflight[i].amount && s.inflight[i].makerId != s.inflight[i].takerId)
    && forall id :: id !in s.placed ==> Traded(s.inflight, id) == 0
  }

  ghost predicate AllBalanced(s: State) {
    forall id :: id in s.placed ==> Balanced(s, id)
  }

  ghost predicate Inv(s: State) {
    && GoodIds(s)
    && GoodTable(s)
    && GoodBooks(s)
    && GoodTrades(s)
    && AllBalanced(s)
  }

  lemma InitInv(symbols: set<int>)
    ensures Inv(Init(symbols))
  {
    assert ValidBook(EMPTY_BOOK);
  }

  lemma {:induction false} TradedRemove(trades: seq<Trade>, i: nat, id: int)
    requires i < |trades|
    ensures Traded(trades[..i] + trades[i + 1..], id) + Credit(trades[i], id) == Traded(trades, id)
  {
    TradedConcat(trades[..i], trades[i + 1..], id);
    TradedConcat(trades[..i], trades[i..], id);
    assert trades == trades[..i] + trades[i..];
    assert trades[i..][1..] == trades[i + 1..];
  }

  // Steps that touch neither books nor messages, and forget no order.
  lemma BooksAndTradesStay(s: State, s': State)
    requires GoodBooks(s) && GoodTrades(s)
    requires s'.books == s.books && s'.inflight == s.inflight
    requires forall id :: id in s.placed ==> id in s'.placed && s'.placed[id] == s.placed[id]
    ensures GoodBooks(s') && GoodTrades(s')
  {}

  lemma BuildKeepsIds(s: State, request: Request, now: int)
    requires GoodIds(s) && 0 < request.amount
    ensures GoodIds(Apply(s, Build(request, now)))
  {}

  lemma BuildKeepsTable(s: State, request: Request, now: int)
    requires GoodIds(s) && GoodTable(s) && 0 < request.amount
    requires GoodIds(Apply(s, Build(request, now)))
    ensures GoodTable(Apply(s, Build(request, now)))
  {}

  lemma BuildKeepsBalance(s: State, request: Request, now: int, id: int)
    requires Inv(s) && 0 < request.amount && id in Apply(s, Build(request, now)).placed
    ensures Balanced(Apply(s, Build(request, now)), id)
  {
    if id in s.placed {
      assert Balanced(s, id);
    }
  }

  lemma BuildKeepsInv(s: State, request: Request, now: int)
    requires Inv(s) && 0 < request.amount
    ensures Inv(Apply(s, Build(request, now)))
  {
    var s' := Apply(s, Build(request, now));
    BuildKeepsIds(s, request, now);
    BuildKeepsTable(s, request, now);
    BooksAndTradesStay(s, s');
    forall id | id in s'.placed
      ensures Balanced(s', id)
    {
      BuildKeepsBalance(s, request, now, id);
    }
  }

  lemma SaveKeepsIds(s: State, id: int)
    requires GoodIds(s) && Enabled(s, Save(id))
    ensures GoodIds(Apply(s, Save(id)))
  {}

  lemma SaveKeepsTable(s: State, id: int)
    requires GoodIds(s) && GoodTable(s) && Enabled(s, Save(id)) && GoodIds(Apply(s, Save(id)))
    ensures GoodTable(Apply(s, Save(id)))
  {}

  lemma SaveKeepsBalance(s: State, id: int, k: int)
    requires GoodIds(s) && GoodTable(s) && Enabled(s, Save(id))
    requires k in s.placed && Balanced(s, k)
    ensures Balanced(Apply(s, Save(id)), k)
  {}

  lemma SaveKeepsInv(s: State, id: int)
    requires Inv(s) && Enabled(s, Save(id))
    ensures Inv(Apply(s, Save(id)))
  {
    var s' := Apply(s, Save(id));
    SaveKeepsIds(s, id);
    SaveKeepsTable(s, id);
    BooksAndTradesStay(s, s');
    forall k | k in s'.placed
      ensures Balanced(s', k)
    {
      SaveKeepsBalance(s, id, k);
    }
  }

  lemma RefuseKeepsIds(s: State, id: int)
    requires GoodIds(s) && GoodTable(s) && Enabled(s, Refuse(id))
    ensures GoodIds(Apply(s, Refuse(id))) && GoodTable(Apply(s, Refuse(id)))
  {}

  lemma RefuseKeepsBalance(s: State, id: int, k: int)
    requires GoodIds(s) && Enabled(s, Refuse(id)) && k in s.placed && Balanced(s, k)
    ensures Balanced(Apply(s, Refuse(id)), k)
  {}

  lemma RefuseKeepsInv(s: State, id: int)
    requires Inv(s) && Enabled(s, Refuse(id))
    ensures Inv(Apply(s, Refuse(id)))
  {
    var s' := Apply(s, Refuse(id));
    RefuseKeepsIds(s, id);
    BooksAndTradesStay(s, s');
    forall k | k in s'.placed
      ensures Balanced(s', k)
    {
      RefuseKeepsBalance(s, id, k);
    }
  }

  lemma {:induction false} NotResting(book: seq<Order>, id: int, i: nat)
    requires i < |book| && 0 < book[i].amount && AmountOf(book, id) == 0
    ensures book[i].id != id
  {
    if i > 0 {
      NotResting(book[1..], id, i - 1);
    }
  }

  lemma {:induction false} SweepTradesPositive(book: seq<Order>, taker: Order, i: nat)
    requires i < |Sweep(book, taker).trades|
    requires forall k :: 0 <= k < |book| ==> 0 < book[k].amount
    requires 0 < taker.amount
    ensures 0 < Sweep(book, taker).trades[i].amount
  {
    if i > 0 {
      var trade := TradeOf(book[0], taker);
      var taker' := taker.(amount := taker.amount - trade.amount);
      SweepTradesPositive(book[1..], taker', i - 1);
      assert Sweep(book, taker).trades == [trade] + Sweep(book[1..], taker').trades;
    }
  }

  // The trades of a fresh order are for positive amounts and never with the order itself.
  lemma SubmitTradesAreGood(b: Book, order: Order)
    requires ValidBook(b) && 0 < order.amount && RestingOf(b, order.id) == 0
    ensures forall i :: 0 <= i < |PriceTime.Submit(b, order).1| ==>
              var t := PriceTime.Submit(b, order).1[i]; 0 < t.amount && t.makerId != t.takerId
  {
    var book := b.On(order.side.Opposite());
    var trades := Sweep(book, order).trades;
    forall i | 0 <= i < |trades|
      ensures 0 < trades[i].amount && trades[i].makerId != trades[i].takerId
    {
      SweepTradesPositive(book, order, i);
      SweepHits(book, order, i);
      NotResting(book, order.id, i);
    }
  }

  // What a submission moves, id by id: out of waiting, into trades in flight and into the book.
  lemma {:induction false} SubmitMoves(s: State, id: int, k: int)
    requires Inv(s) && Enabled(s, Submit(id))
    ensures var s' := Apply(s, Submit(id));
            var y := s.placed[id].symbol;
            && Traded(s.inflight, k) <= Traded(s'.inflight, k)
            && Traded(s'.inflight, k) + RestingOf(s'.books[y], k)
               == Traded(s.inflight, k) + RestingOf(s.books[y], k) + if k == id then s.placed[id].amount else 0
  {
    var order := TransformGrpcOrder(s.placed[id]).value;
    var b := s.books[s.placed[id].symbol];
    TradedConcat(s.inflight, PriceTime.Submit(b, order).1, k);
    SubmitConserves(b, order, k);
  }

  lemma NoForeignOrders(s: State, id: int, k: int)
    requires Inv(s) && Enabled(s, Submit(id))
    requires !(k in s.placed && s.placed[k].symbol == s.placed[id].symbol)
    ensures RestingOf(Apply(s, Submit(id)).books[s.placed[id].symbol], k) == 0
  {
    SubmitMoves(s, id, k);
  }

  lemma BookReplaced(s: State, s': State, y: int, b: Book)
    requires GoodBooks(s) && y in s.books && ValidBook(b)
    requires forall k :: !(k in s.placed && s.placed[k].symbol == y) ==> RestingOf(b, k) == 0
    requires s'.books == s.books[y := b] && s'.placed == s.placed
    ensures GoodBooks(s')
  {}

  lemma SubmitKeepsBooks(s: State, id: int)
    requires Inv(s) && Enabled(s, Submit(id))
    ensures GoodBooks(Apply(s, Submit(id)))
  {
    var s' := Apply(s, Submit(id));
    var y := s.placed[id].symbol;
    SubmitKeepsBookValid(s.books[y], TransformGrpcOrder(s.placed[id]).value);
    forall k | !(k in s.placed && s.placed[k].symbol == y)
      ensures RestingOf(s'.books[y], k) == 0
    {
      NoForeignOrders(s, id, k);
    }
    BookReplaced(s, s', y, s'.books[y]);
  }

  lemma SubmitKeepsTrades(s: State, id: int)
    requires Inv(s) && Enabled(s, Submit(id))
    ensures GoodTrades(Apply(s, Submit(id)))
  {
    assert Balanced(s, id);
    SubmitTradesAreGood(s.books[s.placed[id].symbol], TransformGrpcOrder(s.placed[id]).value);
    forall k | k !in s.placed
      ensures Traded(Apply(s, Submit(id)).inflight, k) == 0
    {
      SubmitMoves(s, id, k);
    }
  }

  lemma SubmitKeepsTable(s: State, id: int)
    requires GoodIds(s) && GoodTable(s) && Enabled(s, Submit(id))
    ensures GoodIds(Apply(s, Submit(id))) && GoodTable(Apply(s, Submit(id)))
  {}

  lemma SubmitKeepsBalance(s: State, id: int, k: int)
    requires Inv(s) && Enabled(s, Submit(id)) && k in s.placed
    ensures Balanced(Apply(s, Submit(id)), k)
  {
    assert Balanced(s, k);
    SubmitMoves(s, id, k);
  }

  lemma SubmitKeepsInv(s: State, id: int)
    requires Inv(s) && Enabled(s, Submit(id))
    ensures Inv(Apply(s, Submit(id)))
  {
    var s' := Apply(s, Submit(id));
    SubmitKeepsTable(s, id);
    SubmitKeepsBooks(s, id);
    SubmitKeepsTrades(s, id);
    forall k | k in s'.placed
      ensures Balanced(s', k)
    {
      SubmitKeepsBalance(s, id, k);
    }
  }

  // A message in flight always finds both its orders in the manager's table, with room for its amount.
  lemma DeliveryFindsBothOrders(s: State, i: nat)
    requires Inv(s) && i < |s.inflight|
    ensures Known(s.statuses, s.inflight[i])
    ensures forall id :: id in s.statuses ==>
              s.statuses[id].concluded + Credit(s.inflight[i], id) <= s.placed[id].amount
  {
    var t := s.inflight[i];
    forall id: int
      ensures Credit(t, id) <= Traded(s.inflight, id)
    {
      TradedRemove(s.inflight, i, id);
    }
    assert Credit(t, t.makerId) > 0 && Credit(t, t.takerId) > 0;
    assert t.makerId in s.placed && t.takerId in s.placed;
    assert Balanced(s, t.makerId) && Balanced(s, t.takerId);
    forall id | id in s.statuses
      ensures s.statuses[id].concluded + Credit(t, id) <= s.placed[id].amount
    {
      assert Balanced(s, id);
    }
  }

  // Delivering removes an order from the table exactly when its amount is then concluded in full.
  lemma ErasedExactlyWhenFilled(s: State, i: nat, id: int)
    requires Inv(s) && i < |s.inflight| && id in s.statuses
    ensures id !in Apply(s, Deliver(i)).statuses
            <==> s.statuses[id].concluded + Credit(s.inflight[i], id) == s.placed[id].amount
  {
    DeliveryFindsBothOrders(s, i);
  }

  lemma DeliverKeepsBalance(s: State, i: nat, id: int)
    requires Inv(s) && i < |s.inflight| && id in s.placed
    ensures Balanced(Apply(s, Deliver(i)), id)
  {
    DeliveryFindsBothOrders(s, i);
    TradedRemove(s.inflight, i, id);
    assert Balanced(s, id);
  }

  lemma DeliverKeepsTrades(s: State, i: nat)
    requires Inv(s) && i < |s.inflight|
    ensures GoodTrades(Apply(s, Deliver(i)))
  {
    forall id | id !in s.placed
      ensures Traded(Apply(s, Deliver(i)).inflight, id) == 0
    {
      TradedRemove(s.inflight, i, id);
    }
  }

  // Entries stay within bounds as long as the message had room in both of them.
  lemma DeliverKeepsTable(s: State, i: nat)
    requires GoodIds(s) && GoodTable(s) && i < |s.inflight|
    requires forall id :: id in s.statuses ==>
               s.statuses[id].concluded + Credit(s.inflight[i], id) <= s.placed[id].amount
    ensures GoodIds(Apply(s, Deliver(i))) && GoodTable(Apply(s, Deliver(i)))
  {
    var s' := Apply(s, Deliver(i));
    assert GoodIds(s');
    forall id | id in s'.statuses
      ensures id in s.statuses
      ensures s'.statuses[id].order == s.placed[id]
      ensures 0 <= s'.statuses[id].concluded < s.placed[id].amount
    {}
  }

  lemma DeliverKeepsBooks(s: State, i: nat)
    requires GoodBooks(s) && i < |s.inflight|
    ensures GoodBooks(Apply(s, Deliver(i)))
  {}

  lemma DeliverKeepsInv(s: State, i: nat)
    requires Inv(s) && Enabled(s, Deliver(i))
    ensures Inv(Apply(s, Deliver(i)))
  {
    var s' := Apply(s, Deliver(i));
    assert GoodIds(s') && GoodTable(s') by {
      DeliveryFindsBothOrders(s, i);
      DeliverKeepsTable(s, i);
    }
    DeliverKeepsBooks(s, i);
    DeliverKeepsTrades(s, i);
    forall id | id in s.placed
      ensures Balanced(s', id)
    {
      DeliverKeepsBalance(s, i, id);
    }
  }

  lemma StepKeepsInv(s: State, step: Step)
    requires Inv(s) && Enabled(s, step)
    ensures Inv(Apply(s, step))
  {
    match step
    case Build(request, now) => BuildKeepsInv(s, request, now);
    case Save(id) => SaveKeepsInv(s, id);
    case Submit(id) => SubmitKeepsInv(s, id);
    case Refuse(id) => RefuseKeepsInv(s, id);
    case Deliver(i) => DeliverKeepsInv(s, i);
  }

  lemma {:induction false} RunKeepsInv(s: State, steps: seq<Step>)
    requires Inv(s) && IsRun(s, steps)
    ensures Inv(Exec(s, steps))
    decreases |steps|
  {
    if steps != [] {
      StepKeepsInv(s, steps[0]);
      RunKeepsInv(Apply(s, steps[0]), steps[1..]);
    }
  }

  // ---------------------------------------------------------------- what every reachable state satisfies

  // Under every interleaving, each order's amount is concluded, in flight, resting or unmatched; the
  // concluded amount the manager keeps never exceeds it, so it fits the order's int32.
  lemma {:induction false} AmountsAlwaysAgree(symbols: set<int>, steps: seq<Step>, id: int)
    requires IsRun(Init(symbols), steps)
    requires id in Exec(Init(symbols), steps).placed
    ensures var s := Exec(Init(symbols), steps);
            && Balanced(s, id)
            && 0 <= ConcludedOf(s, id) <= s.placed[id].amount <= 0x7FFF_FFFF
  {
    InitInv(symbols);
    RunKeepsInv(Init(symbols), steps);
  }

  // No trade message is ever for an order the manager does not know.
  lemma {:induction false} NoDeliveryIsLost(symbols: set<int>, steps: seq<Step>, i: nat)
    requires IsRun(Init(symbols), steps)
    requires i < |Exec(Init(symbols), steps).inflight|
    ensures var s := Exec(Init(symbols), steps);
            Known(s.statuses, s.inflight[i])
  {
    InitInv(symbols);
    RunKeepsInv(Init(symbols), steps);
    DeliveryFindsBothOrders(Exec(Init(symbols), steps), i);
  }

  predicate Quiescent(s: State) {
    s.building == {} && s.waiting == {} && s.inflight == []
  }

  // The table holds the orders that rest in a book or were never taken by the engine, and counts as concluded
  // what no longer rests.
  ghost predicate TableIsRests(s: State) {
    && (forall id :: id in s.statuses <==> id in s.placed && (0 < RestingIn(s, id) || id in s.idle))
    && (forall id :: id in s.placed ==>
          ConcludedOf(s, id) == if id in s.idle then 0 else s.placed[id].amount - RestingIn(s, id))
  }

  // When nothing is on its way, the manager's table holds exactly the orders that still rest in a book
  // and those the engine never took, and what it counts as concluded is what no longer rests.
  lemma {:induction false} QuiescentTable(symbols: set<int>, steps: seq<Step>)
    requires IsRun(Init(symbols), steps) && Quiescent(Exec(Init(symbols), steps))
    ensures TableIsRests(Exec(Init(symbols), steps))
  {
    InitInv(symbols);
    RunKeepsInv(Init(symbols), steps);
    var s := Exec(Init(symbols), steps);
    forall id | id in s.placed
      ensures Balanced(s, id)
    {}
  }

  lemma SameTable(s: State, s': State)
    requires GoodIds(s) && GoodTable(s) && GoodIds(s') && GoodTable(s')
    requires TableIsRests(s) && TableIsRests(s')
    requires s.placed == s'.placed && s.idle == s'.idle && s.books == s'.books
    ensures s.statuses == s'.statuses
  {
    forall id: int
      ensures id in s.statuses <==> id in s'.statuses
    {
      if id in s.placed {
        assert RestingIn(s, id) == RestingIn(s', id);
      }
    }
    forall id | id in s.statuses
      ensures s.statuses[id] == s'.statuses[id]
    {
      assert id in s'.statuses && RestingIn(s, id) == RestingIn(s', id);
      assert ConcludedOf(s, id) == ConcludedOf(s', id);
    }
    assert s.statuses.Keys == s'.statuses.Keys;
  }

  // So the order in which trades are delivered leaves no trace: two quiescent runs that placed the same
  // orders and left the same books have the same table.
  lemma {:induction false} DeliveryOrderLeavesNoTrace(symbols: set<int>, steps: seq<Step>, steps': seq<Step>)
    requires IsRun(Init(symbols), steps) && Quiescent(Exec(Init(symbols), steps))
    requires IsRun(Init(symbols), steps') && Quiescent(Exec(Init(symbols), steps'))
    requires var s, s' := Exec(Init(symbols), steps), Exec(Init(symbols), steps');
             s.placed == s'.placed && s.idle == s'.idle && s.books == s'.books
    ensures Exec(Init(symbols), steps).statuses == Exec(Init(symbols), steps').statuses
  {
    InitInv(symbols);
    RunKeepsInv(Init(symbols), steps);
    RunKeepsInv(Init(symbols), steps');
    QuiescentTable(symbols, steps);
    QuiescentTable(symbols, steps');
    SameTable(Exec(Init(symbols), steps), Exec(Init(symbols), steps'));
  }

  // ---------------------------------------------------------------- what the trade handler persists

  function RecordId(r: Record): int { r.order.id }

  function History(s: State, id: int): seq<Record> {
    Select(s.log, RecordId, id)
  }

  // Records of one order: amounts rise strictly up to what is now concluded, and the status says
  // "concluded" exactly at the full amount.
  ghost predicate GoodHistory(h: seq<Record>, order: PlacedOrder, concluded: int) {
    && (forall i :: 0 <= i < |h| ==>
                      && h[i].order == order
                      && 0 < h[i].concluded <= order.amount
                      && h[i].status == if h[i].concluded == order.amount then Concluded else PartiallyConcluded)
    && (forall i, j :: 0 <= i < j < |h| ==> h[i].concluded < h[j].concluded)
    && concluded == if h == [] then 0 else h[|h| - 1].concluded
  }

  ghost predicate GoodLog(s: State) {
    && (forall id :: id in s.placed ==> GoodHistory(History(s, id), s.placed[id], ConcludedOf(s, id)))
    && (forall id :: id !in s.placed ==> History(s, id) == [])
  }

  lemma HistoryAfterDelivery(s: State, i: nat, id: int)
    requires Inv(s) && i < |s.inflight| && Known(s.statuses, s.inflight[i])
    ensures var t := s.inflight[i];
            History(Apply(s, Deliver(i)), id)
            == History(s, id)
               + if id == t.makerId || id == t.takerId then [TradeRecord(s.statuses, t, id)] else []
  {
    var t := s.inflight[i];
    SelectConcat(s.log, TradeRecords(s.statuses, t), RecordId, id);
    var maker, taker := TradeRecord(s.statuses, t, t.makerId), TradeRecord(s.statuses, t, t.takerId);
    assert TradeRecords(s.statuses, t)[1..] == [taker];
    assert Select([taker], RecordId, id) == if id == t.takerId then [taker] else [];
  }

  lemma GoodHistoryGrows(h: seq<Record>, order: PlacedOrder, concluded: int, r: Record)
    requires GoodHistory(h, order, concluded)
    requires r.order == order && concluded < r.concluded <= order.amount
    requires r.status == if r.concluded == order.amount then Concluded else PartiallyConcluded
    ensures GoodHistory(h + [r], order, r.concluded)
  {}

  // What a delivery leaves an order's concluded amount at.
  lemma DeliveryConcludes(s: State, i: nat, id: int)
    requires Inv(s) && i < |s.inflight| && Known(s.statuses, s.inflight[i]) && id in s.placed
    requires id in s.statuses ==> s.statuses[id].concluded + Credit(s.inflight[i], id) <= s.placed[id].amount
    ensures var s' := Apply(s, Deliver(i));
            && s'.placed == s.placed
            && ConcludedOf(s', id)
               == ConcludedOf(s, id) + if id in s.statuses then Credit(s.inflight[i], id) else 0
  {}

  lemma DeliverKeepsHistory(s: State, i: nat, id: int)
    requires Inv(s) && i < |s.inflight| && Known(s.statuses, s.inflight[i])
    requires id in s.statuses ==> s.statuses[id].concluded + Credit(s.inflight[i], id) <= s.placed[id].amount
    requires id in s.placed && GoodHistory(History(s, id), s.placed[id], ConcludedOf(s, id))
    ensures var s' := Apply(s, Deliver(i));
            GoodHistory(History(s', id), s'.placed[id], ConcludedOf(s', id))
  {
    var t := s.inflight[i];
    HistoryAfterDelivery(s, i, id);
    DeliveryConcludes(s, i, id);
    if id == t.makerId || id == t.takerId {
      GoodHistoryGrows(History(s, id), s.placed[id], ConcludedOf(s, id), TradeRecord(s.statuses, t, id));
    }
  }

  lemma NoHistoryYet(s: State, i: nat, id: int)
    requires Inv(s) && i < |s.inflight| && Known(s.statuses, s.inflight[i])
    requires id !in s.placed && History(s, id) == []
    ensures History(Apply(s, Deliver(i)), id) == []
  {
    HistoryAfterDelivery(s, i, id);
  }

  lemma DeliverKeepsLog(s: State, i: nat)
    requires Inv(s) && GoodLog(s) && i < |s.inflight|
    ensures GoodLog(Apply(s, Deliver(i)))
  {
    DeliveryFindsBothOrders(s, i);
    var s' := Apply(s, Deliver(i));
    forall id | id in s.placed
      ensures GoodHistory(History(s', id), s'.placed[id], ConcludedOf(s', id))
    {
      assert GoodHistory(History(s, id), s.placed[id], ConcludedOf(s, id));
      DeliverKeepsHistory(s, i, id);
    }
    forall id | id !in s.placed
      ensures History(s', id) == []
    {
      NoHistoryYet(s, i, id);
    }
  }

  // No other step moves what the manager counts as concluded.
  lemma OtherStepsConcludeNothing(s: State, step: Step, id: int)
    requires Inv(s) && Enabled(s, step) && !step.Deliver? && id in Apply(s, step).placed
    ensures var s' := Apply(s, step);
            if id in s.placed then s'.placed[id] == s.placed[id] && ConcludedOf(s', id) == ConcludedOf(s, id)
            else ConcludedOf(s', id) == 0
  {}

  lemma StepKeepsLog(s: State, step: Step)
    requires Inv(s) && GoodLog(s) && Enabled(s, step)
    ensures GoodLog(Apply(s, step))
  {
    var s' := Apply(s, step);
    if step.Deliver? {
      DeliverKeepsLog(s, step.index);
    } else {
      forall id | id in s'.placed
        ensures GoodHistory(History(s', id), s'.placed[id], ConcludedOf(s', id))
      {
        OtherStepsConcludeNothing(s, step, id);
        assert id in s.placed ==> GoodHistory(History(s, id), s.placed[id], ConcludedOf(s, id));
      }
    }
  }

  lemma {:induction false} RunKeepsLog(s: State, steps: seq<Step>)
    requires Inv(s) && GoodLog(s) && IsRun(s, steps)
    ensures GoodLog(Exec(s, steps))
    decreases |steps|
  {
    if steps != [] {
      StepKeepsInv(s, steps[0]);
      StepKeepsLog(s, steps[0]);
      RunKeepsLog(Apply(s, steps[0]), steps[1..]);
    }
  }

  // Under every interleaving the amounts persisted for an order rise strictly and stay within its
  // amount, and "concluded" is persisted at most once, last, with exactly the order's amount.
  lemma {:induction false} PersistedAmountsRise(symbols: set<int>, steps: seq<Step>, id: int)
    requires IsRun(Init(symbols), steps)
    requires id in Exec(Init(symbols), steps).placed
    ensures var s := Exec(Init(symbols), steps);
            var h := History(s, id);
            && (forall i, j :: 0 <= i < j < |h| ==> h[i].concluded < h[j].concluded)
            && (forall i :: 0 <= i < |h| ==> 0 < h[i].concluded <= s.placed[id].amount)
            && (forall i :: 0 <= i < |h| && h[i].status == Concluded ==>
                              i == |h| - 1 && h[i].concluded == s.placed[id].amount)
            && (h != [] && h[|h| - 1].concluded == s.placed[id].amount ==> h[|h| - 1].status == Concluded)
  {
    InitInv(symbols);
    RunKeepsLog(Init(symbols), steps);
    var s := Exec(Init(symbols), steps);
    assert GoodHistory(History(s, id), s.placed[id], ConcludedOf(s, id));
  }
}
