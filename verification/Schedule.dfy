// Why runs can be compared per symbol: however the sending threads interleave, and whatever ids and
// times the orders are given on the way, each symbol's book sees the same orders in the same sequence,
// and so makes the same trades.

module Schedule {
  import opened Seqs
  import opened Orders
  import opened OrderManager
  import opened PriceTime
  import opened Generator
  import opened EngineGateway

  // ---------------------------------------------------------------- interleaving the threads' queues

  // A schedule names, one order after the other, the thread that sends next; it empties all queues.
  predicate Feasible(queues: seq<seq<Request>>, schedule: seq<nat>)
    decreases |schedule|
  {
    if schedule == [] then forall t :: 0 <= t < |queues| ==> queues[t] == []
    else
      var t := schedule[0];
      && t < |queues| && queues[t] != []
      && Feasible(queues[t := queues[t][1..]], schedule[1..])
  }

  function Merged(queues: seq<seq<Request>>, schedule: seq<nat>): seq<Request>
    requires Feasible(queues, schedule)
    decreases |schedule|
  {
    if schedule == [] then []
    else
      var t := schedule[0];
      [queues[t][0]] + Merged(queues[t := queues[t][1..]], schedule[1..])
  }

  // A symbol that only one queue holds keeps that queue's order under every schedule.
  lemma {:induction false} MergedKeepsSymbol(queues: seq<seq<Request>>, schedule: seq<nat>, home: nat, y: int)
    requires Feasible(queues, schedule) && home < |queues|
    requires forall t :: 0 <= t < |queues| && t != home ==> Select(queues[t], RequestSymbol, y) == []
    ensures Select(Merged(queues, schedule), RequestSymbol, y) == Select(queues[home], RequestSymbol, y)
    decreases |schedule|
  {
    if schedule != [] {
      var t := schedule[0];
      var queues' := queues[t := queues[t][1..]];
      forall u | 0 <= u < |queues'| && u != home
        ensures Select(queues'[u], RequestSymbol, y) == []
      {
        assert Select(queues[u], RequestSymbol, y) == [];
      }
      MergedKeepsSymbol(queues', schedule[1..], home, y);
      assert t != home ==> Select(queues[t], RequestSymbol, y) == [];
    }
  }

  lemma {:induction false} PartitionedMerge(input: seq<Request>, queues: seq<seq<Request>>, owner: map<int, int>,
                                            schedule: seq<nat>, y: int)
    requires StablePartition(input, queues, owner) && Feasible(queues, schedule) && queues != []
    ensures Select(Merged(queues, schedule), RequestSymbol, y) == Select(input, RequestSymbol, y)
  {
    var home := if y in owner then owner[y] else 0;
    assert forall t: int :: 0 <= t < |queues| ==> QueueOf(input, queues[t], owner, t, y);
    MergedKeepsSymbol(queues, schedule, home, y);
    if y !in owner {
      UnownedIsNew(input, owner, y);
    }
  }

  // ---------------------------------------------------------------- ids and times

  // Forget what the order manager stamped on an order: its id and its time.
  function Unstamp(p: PlacedOrder): PlacedOrder { p.(id := 0, submitTime := 0) }
  function Unstamped(r: Request): PlacedOrder { Placed(0, r, 0) }
  function AnonOrder(o: Order): Order { o.(id := 0, submitTime := 0) }
  function AnonTrade(t: Trade): Trade { t.(makerId := 0, takerId := 0, submitTime := 0) }
  function AnonBook(b: Book): Book { Book(Map(AnonOrder, b.sells), Map(AnonOrder, b.buys)) }
  function PlacedSymbol(p: PlacedOrder): int { p.symbol }

  // The orders carry the requests, one for one, with any ids and any times.
  ghost predicate Carries(placed: seq<PlacedOrder>, requests: seq<Request>) {
    Map(Unstamp, placed) == Map(Unstamped, requests)
  }

  // The orders that the engine accepts, as the engine sees them.
  function Accepted(placed: seq<PlacedOrder>): seq<Order> {
    if placed == [] then []
    else
      var o := TransformGrpcOrder(placed[0]);
      (if o.Some? then [o.value] else []) + Accepted(placed[1..])
  }

  lemma {:induction false} AcceptedSelect(placed: seq<PlacedOrder>, y: int)
    ensures Select(Accepted(placed), OrderSymbol, y) == Accepted(Select(placed, PlacedSymbol, y))
  {
    if placed != [] {
      var o := TransformGrpcOrder(placed[0]);
      var head := if o.Some? then [o.value] else [];
      AcceptedSelect(placed[1..], y);
      SelectConcat(head, Accepted(placed[1..]), OrderSymbol, y);
      assert head != [] ==> Select(head, OrderSymbol, y) == if placed[0].symbol == y then head else [];
      var s := Select(placed[1..], PlacedSymbol, y);
      assert ([placed[0]] + s)[1..] == s && [] + s == s;
      assert [] + Accepted(s) == Accepted(s);
    }
  }

  lemma {:induction false} AcceptedAnon(placed: seq<PlacedOrder>)
    ensures Map(AnonOrder, Accepted(placed)) == Accepted(Map(Unstamp, placed))
  {
    if placed != [] {
      AcceptedAnon(placed[1..]);
      var rest := Map(Unstamp, placed[1..]);
      assert Map(Unstamp, placed)[1..] == rest;
      if TransformGrpcOrder(placed[0]).Some? {
        assert ([TransformGrpcOrder(placed[0]).value] + Accepted(placed[1..]))[1..] == Accepted(placed[1..]);
      } else {
        assert [] + Accepted(placed[1..]) == Accepted(placed[1..]);
        assert [] + Accepted(rest) == Accepted(rest);
      }
    }
  }

  // ---------------------------------------------------------------- matching does not look at them

  function AnonSwept(s: Swept): Swept {
    Swept(Map(AnonOrder, s.rest), AnonOrder(s.taker), Map(AnonTrade, s.trades))
  }

  // The first trade of a sweep, without ids and times.
  lemma TradeAnon(maker: Order, taker: Order)
    ensures var t := TradeOf(maker, taker);
            && TradeOf(AnonOrder(maker), AnonOrder(taker)) == AnonTrade(t)
            && AnonOrder(maker).(amount := maker.amount - t.amount)
               == AnonOrder(maker.(amount := maker.amount - t.amount))
            && AnonOrder(taker).(amount := taker.amount - t.amount)
               == AnonOrder(taker.(amount := taker.amount - t.amount))
  {}

  lemma AnonAfter(trade: Trade, s: Swept)
    ensures AnonSwept(After([trade], s)) == After([AnonTrade(trade)], AnonSwept(s))
  {
    MapCons(AnonTrade, trade, s.trades);
  }

  lemma {:induction false} AnonLast(maker: Order, taker: Order, trade: Trade, rest: seq<Order>)
    ensures AnonSwept(Swept(rest, taker, [trade]))
            == Swept(Map(AnonOrder, rest), AnonOrder(taker), [AnonTrade(trade)])
    ensures AnonSwept(Swept([maker] + rest, taker, [trade]))
            == Swept([AnonOrder(maker)] + Map(AnonOrder, rest), AnonOrder(taker), [AnonTrade(trade)])
  {
    MapCons(AnonTrade, trade, []);
    MapCons(AnonOrder, maker, rest);
  }

  lemma {:induction false} AnonFirst(book: seq<Order>)
    requires book != []
    ensures Map(AnonOrder, book) != [] && Map(AnonOrder, book)[0] == AnonOrder(book[0])
    ensures Map(AnonOrder, book)[1..] == Map(AnonOrder, book[1..])
  {
    Behind([AnonOrder(book[0])], Map(AnonOrder, book[1..]));
  }

  // A sweep that ends with the first trade.
  lemma {:induction false} AnonAtOnce(book: seq<Order>, taker: Order)
    requires book != [] && Crosses(taker, book[0].price) && taker.amount <= book[0].amount
    ensures Sweep(Map(AnonOrder, book), AnonOrder(taker)) == AnonSwept(Sweep(book, taker))
  {
    var trade := TradeOf(book[0], taker);
    AnonFirst(book);
    TradeAnon(book[0], taker);
    AnonLast(book[0].(amount := book[0].amount - taker.amount), taker.(amount := 0), trade, book[1..]);
  }

  lemma {:induction false} AnonOneMore(book: seq<Order>, taker: Order, taker': Order)
    requires GoesOn(book, taker, taker')
    requires Sweep(Map(AnonOrder, book[1..]), AnonOrder(taker')) == AnonSwept(Sweep(book[1..], taker'))
    ensures Sweep(Map(AnonOrder, book), AnonOrder(taker)) == AnonSwept(Sweep(book, taker))
  {
    AnonFirst(book);
    TradeAnon(book[0], taker);
    SweepGoesOn(book, taker, taker');
    SweepGoesOn(Map(AnonOrder, book), AnonOrder(taker), AnonOrder(taker'));
    AnonAfter(TradeOf(book[0], taker), Sweep(book[1..], taker'));
  }

  lemma {:induction false} SweepAnon(book: seq<Order>, taker: Order)
    ensures Sweep(Map(AnonOrder, book), AnonOrder(taker)) == AnonSwept(Sweep(book, taker))
  {
    if book != [] {
      AnonFirst(book);
      if Crosses(taker, book[0].price) {
        if taker.amount <= book[0].amount {
          AnonAtOnce(book, taker);
        } else {
          var taker' := taker.(amount := taker.amount - book[0].amount);
          SweepAnon(book[1..], taker');
          AnonOneMore(book, taker, taker');
        }
      }
    }
  }

  lemma {:induction false} InsertAnon(book: seq<Order>, order: Order)
    ensures Insert(Map(AnonOrder, book), AnonOrder(order)) == Map(AnonOrder, Insert(book, order))
  {
    MapCons(AnonOrder, order, book);
    if book != [] {
      MapCons(AnonOrder, book[0], Insert(book[1..], order));
      InsertAnon(book[1..], order);
      assert Map(AnonOrder, book)[1..] == Map(AnonOrder, book[1..]);
    }
  }

  lemma SubmitAnon(b: Book, order: Order)
    ensures var (b', trades) := Submit(b, order);
            Submit(AnonBook(b), AnonOrder(order)) == (AnonBook(b'), Map(AnonTrade, trades))
  {
    var opposite := order.side.Opposite();
    SweepAnon(b.On(opposite), order);
    SweepShape(b.On(opposite), order);
    InsertAnon(b.On(order.side), Sweep(b.On(opposite), order).taker);
  }

  // Trades and books do not depend on order ids and submission times, except for showing them.
  lemma {:induction false} RunAnon(b: Book, orders: seq<Order>)
    ensures var (b', trades) := Run(b, orders);
            Run(AnonBook(b), Map(AnonOrder, orders)) == (AnonBook(b'), Map(AnonTrade, trades))
    decreases |orders|
  {
    if orders != [] {
      var (b', first) := Submit(b, orders[0]);
      SubmitAnon(b, orders[0]);
      RunAnon(b', orders[1..]);
      MapConcat(AnonTrade, first, Run(b', orders[1..]).1);
      assert Map(AnonOrder, orders)[1..] == Map(AnonOrder, orders[1..]);
    }
  }

  // ---------------------------------------------------------------- one book per symbol

  // The entry node: each order goes to the book of its symbol, and to no book if there is none.
  function Route(books: map<int, Book>, orders: seq<Order>): (map<int, Book>, seq<Trade>)
    decreases |orders|
  {
    if orders == [] then (books, [])
    else if orders[0].symbol !in books then Route(books, orders[1..])
    else
      var (b, first) := Submit(books[orders[0].symbol], orders[0]);
      var (books', more) := Route(books[orders[0].symbol := b], orders[1..]);
      (books', first + more)
  }

  lemma {:induction false} SweepSymbols(book: seq<Order>, taker: Order)
    ensures forall i :: 0 <= i < |Sweep(book, taker).trades| ==>
              TradeSymbol(Sweep(book, taker).trades[i]) == taker.symbol
  {
    if book != [] && Crosses(taker, book[0].price) {
      var taker' := taker.(amount := taker.amount - TradeOf(book[0], taker).amount);
      if taker'.amount != 0 {
        SweepSymbols(book[1..], taker');
      }
    }
  }

  // Seen from one symbol, the whole engine is that symbol's book, run on that symbol's orders.
  lemma {:induction false} RouteBySymbol(books: map<int, Book>, orders: seq<Order>, y: int)
    ensures var (books', trades) := Route(books, orders);
            var mine := Select(orders, OrderSymbol, y);
            && books'.Keys == books.Keys
            && (y in books ==> (books'[y], Select(trades, TradeSymbol, y)) == Run(books[y], mine))
            && (y !in books ==> Select(trades, TradeSymbol, y) == [])
    decreases |orders|
  {
    if orders != [] {
      var order := orders[0];
      var later := Select(orders[1..], OrderSymbol, y);
      assert ([order] + later)[1..] == later && [] + later == later;
      if order.symbol !in books {
        RouteBySymbol(books, orders[1..], y);
      } else {
        var (b, first) := Submit(books[order.symbol], order);
        var books' := books[order.symbol := b];
        RouteBySymbol(books', orders[1..], y);
        SelectConcat(first, Route(books', orders[1..]).1, TradeSymbol, y);
        SweepSymbols(books[order.symbol].On(order.side.Opposite()), order);
        if order.symbol == y {
          SelectAll(first, TradeSymbol, y);
        } else {
          SelectNone(first, TradeSymbol, y);
          var trades := Select(Route(books', orders[1..]).1, TradeSymbol, y);
          assert [] + trades == trades;
        }
      }
    }
  }

  // ---------------------------------------------------------------- schedule independence

  // The books and trades that placed orders lead to, from empty books.
  function Outcome(symbols: set<int>, placed: seq<PlacedOrder>): (map<int, Book>, seq<Trade>) {
    Route(map y | y in symbols :: EMPTY_BOOK, Accepted(placed))
  }

  // One symbol's outcome is determined by that symbol's requests alone.
  lemma {:induction false} OutcomeOf(symbols: set<int>, placed: seq<PlacedOrder>, requests: seq<Request>, y: int)
    requires Carries(placed, requests) && y in symbols
    ensures var (books, trades) := Outcome(symbols, placed);
            && y in books
            && (AnonBook(books[y]), Map(AnonTrade, Select(trades, TradeSymbol, y)))
               == Run(EMPTY_BOOK, Accepted(Map(Unstamped, Select(requests, RequestSymbol, y))))
  {
    var books := map y | y in symbols :: EMPTY_BOOK;
    RouteBySymbol(books, Accepted(placed), y);
    AcceptedSelect(placed, y);
    var mine := Select(placed, PlacedSymbol, y);
    RunAnon(EMPTY_BOOK, Accepted(mine));
    AcceptedAnon(mine);
    MapSelect(Unstamp, placed, PlacedSymbol, PlacedSymbol, y);
    MapSelect(Unstamped, requests, RequestSymbol, PlacedSymbol, y);
    assert AnonBook(EMPTY_BOOK) == EMPTY_BOOK;
  }

  // One way of sending an order file: the threads' queues and who owns which symbol, the schedule in
  // which they were sent, and the orders that were placed.
  datatype FileRun = FileRun(queues: seq<seq<Request>>, owner: map<int, int>, schedule: seq<nat>,
                             placed: seq<PlacedOrder>)

  ghost predicate Sends(r: FileRun, input: seq<Request>) {
    && r.queues != [] && StablePartition(input, r.queues, r.owner)
    && Feasible(r.queues, r.schedule)
    && Carries(r.placed, Merged(r.queues, r.schedule))
  }

  // The same orders, but for ids and times.
  ghost predicate SameOrders(a: seq<Order>, b: seq<Order>) {
    |a| == |b| && forall i :: 0 <= i < |a| ==>
                                && a[i].symbol == b[i].symbol && a[i].user == b[i].user && a[i].side == b[i].side
                                && a[i].amount == b[i].amount && a[i].price == b[i].price
  }

  // The same trades, but for ids and times.
  ghost predicate SameTrades(a: seq<Trade>, b: seq<Trade>) {
    |a| == |b| && forall i :: 0 <= i < |a| ==>
                                && a[i].side == b[i].side && a[i].amount == b[i].amount && a[i].price == b[i].price
                                && a[i].seller == b[i].seller && a[i].buyer == b[i].buyer
                                && a[i].symbol == b[i].symbol
  }

  lemma {:induction false} AnonOrdersSame(a: seq<Order>, b: seq<Order>)
    requires Map(AnonOrder, a) == Map(AnonOrder, b)
    ensures SameOrders(a, b)
  {
    MapAt(AnonOrder, a);
    MapAt(AnonOrder, b);
    assert forall i :: 0 <= i < |a| ==> AnonOrder(a[i]) == Map(AnonOrder, a)[i] == AnonOrder(b[i]);
  }

  lemma {:induction false} AnonTradesSame(a: seq<Trade>, b: seq<Trade>)
    requires Map(AnonTrade, a) == Map(AnonTrade, b)
    ensures SameTrades(a, b)
  {
    MapAt(AnonTrade, a);
    MapAt(AnonTrade, b);
    assert forall i :: 0 <= i < |a| ==> AnonTrade(a[i]) == Map(AnonTrade, a)[i] == AnonTrade(b[i]);
  }

  // For one symbol the same trades in the same order, and the same final book, up to ids and times.
  ghost predicate SameFor(y: int, x: (map<int, Book>, seq<Trade>), z: (map<int, Book>, seq<Trade>)) {
    && y in x.0 && y in z.0
    && SameOrders(x.0[y].sells, z.0[y].sells) && SameOrders(x.0[y].buys, z.0[y].buys)
    && SameTrades(Select(x.1, TradeSymbol, y), Select(z.1, TradeSymbol, y))
  }

  lemma {:induction false} AnonSameFor(y: int, x: (map<int, Book>, seq<Trade>), z: (map<int, Book>, seq<Trade>))
    requires y in x.0 && y in z.0 && AnonBook(x.0[y]) == AnonBook(z.0[y])
    requires Map(AnonTrade, Select(x.1, TradeSymbol, y)) == Map(AnonTrade, Select(z.1, TradeSymbol, y))
    ensures SameFor(y, x, z)
  {
    AnonOrdersSame(x.0[y].sells, z.0[y].sells);
    AnonOrdersSame(x.0[y].buys, z.0[y].buys);
    AnonTradesSame(Select(x.1, TradeSymbol, y), Select(z.1, TradeSymbol, y));
  }

  // Every schedule agrees with sending the file sequentially.
  lemma SequentialReference(input: seq<Request>, symbols: set<int>, y: int, r: FileRun, sequential: seq<PlacedOrder>)
    requires y in symbols && Sends(r, input) && Carries(sequential, input)
    ensures SameFor(y, Outcome(symbols, r.placed), Outcome(symbols, sequential))
  {
    OutcomeOf(symbols, r.placed, Merged(r.queues, r.schedule), y);
    OutcomeOf(symbols, sequential, input, y);
    PartitionedMerge(input, r.queues, r.owner, r.schedule, y);
    AnonSameFor(y, Outcome(symbols, r.placed), Outcome(symbols, sequential));
  }

  // Two runs of the same order file, split over any numbers of threads, under any two schedules, with any
  // ids and times, have the same outcome for every symbol.
  lemma ScheduleIndependence(input: seq<Request>, symbols: set<int>, y: int, r: FileRun, r': FileRun)
    requires y in symbols && Sends(r, input) && Sends(r', input)
    ensures SameFor(y, Outcome(symbols, r.placed), Outcome(symbols, r'.placed))
  {
    OutcomeOf(symbols, r.placed, Merged(r.queues, r.schedule), y);
    OutcomeOf(symbols, r'.placed, Merged(r'.queues, r'.schedule), y);
    PartitionedMerge(input, r.queues, r.owner, r.schedule, y);
    PartitionedMerge(input, r'.queues, r'.owner, r'.schedule, y);
    AnonSameFor(y, Outcome(symbols, r.placed), Outcome(symbols, r'.placed));
  }
}
