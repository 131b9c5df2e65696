// Where orders and trades of the transition system come from: every order carries the request of the step
// that built it, and every trade message is between two requests, within the limits of both.

module TradeProvenance {
  import opened Seqs
  import opened Orders
  import opened OrderManager
  import opened PriceTime
  import opened EngineGateway
  import opened TradingSystem

  function Builds(steps: seq<Step>): nat {
    if steps == [] then 0 else (if steps[0].Build? then 1 else 0) + Builds(steps[1..])
  }

  // ---------------------------------------------------------------- orders

  // Step k built the order, after so many others, and the order is what was requested.
  ghost predicate BuiltBy(p: PlacedOrder, steps: seq<Step>, k: int, others: nat) {
    && 0 <= k < |steps| && steps[k].Build?
    && p.id == others + Builds(steps[..k]) + 1
    && p.symbol == steps[k].request.symbol
    && p.user == steps[k].request.user
    && p.side == steps[k].request.side
    && p.amount == steps[k].request.amount
    && p.price == steps[k].request.price
    && p.submitTime == steps[k].now
  }

  ghost predicate IdsGivenOut(s: State) {
    forall id :: id in s.placed ==> id <= s.lastId
  }

  lemma {:induction false} BuiltInRun(s: State, steps: seq<Step>, id: int) returns (k: int)
    requires IsRun(s, steps) && IdsGivenOut(s) && id in Exec(s, steps).placed
    ensures if id in s.placed then Exec(s, steps).placed[id] == s.placed[id]
            else BuiltBy(Exec(s, steps).placed[id], steps, k, s.lastId) && Exec(s, steps).placed[id].id == id
    decreases |steps|
  {
    k := 0;
    if steps != [] {
      var s' := Apply(s, steps[0]);
      k := BuiltInRun(s', steps[1..], id);
      if id !in s'.placed {
        assert steps[..k + 1][0] == steps[0] && steps[..k + 1][1..] == steps[1..][..k];
        k := k + 1;
      } else if id !in s.placed {
        k := 0;
        assert Builds(steps[..0]) == 0;
      }
    }
  }

  // Every order of a reachable state is the one that some step of the run requested, field by field, with
  // the ids given out in the order of these steps.
  lemma {:induction false} PlacedAsRequested(symbols: set<int>, steps: seq<Step>, id: int)
    requires IsRun(Init(symbols), steps) && id in Exec(Init(symbols), steps).placed
    ensures Exec(Init(symbols), steps).placed[id].id == id
    ensures exists k :: BuiltBy(Exec(Init(symbols), steps).placed[id], steps, k, 0)
  {
    var k := BuiltInRun(Init(symbols), steps, id);
  }

  // ---------------------------------------------------------------- resting orders and trades

  // What is left of an order that was placed.
  ghost predicate RestOf(placed: map<int, PlacedOrder>, y: int, o: Order) {
    && o.id in placed && TransformGrpcOrder(placed[o.id]).Some?
    && o == TransformGrpcOrder(placed[o.id]).value.(amount := o.amount)
    && o.symbol == y
  }

  ghost predicate AllRestOf(placed: map<int, PlacedOrder>, y: int, book: seq<Order>) {
    forall i :: 0 <= i < |book| ==> RestOf(placed, y, book[i])
  }

  ghost predicate TradeOfPlaced(placed: map<int, PlacedOrder>, t: Trade) {
    && t.makerId in placed && t.takerId in placed
    && var maker, taker := TransformGrpcOrder(placed[t.makerId]), TransformGrpcOrder(placed[t.takerId]);
    && maker.Some? && taker.Some? && maker.value.symbol == taker.value.symbol
    && Suits(t, maker.value, taker.value)
    && (t.submitTime == maker.value.submitTime || t.submitTime == taker.value.submitTime)
  }

  ghost predicate FromPlaced(s: State) {
    && (forall y :: y in s.books ==>
                      AllRestOf(s.placed, y, s.books[y].sells) && AllRestOf(s.placed, y, s.books[y].buys))
    && (forall i :: 0 <= i < |s.inflight| ==> TradeOfPlaced(s.placed, s.inflight[i]))
  }

  lemma SubmitKeepsRests(placed: map<int, PlacedOrder>, y: int, b: Book, order: Order)
    requires AllRestOf(placed, y, b.sells) && AllRestOf(placed, y, b.buys) && RestOf(placed, y, order)
    ensures var b' := PriceTime.Submit(b, order).0;
            AllRestOf(placed, y, b'.sells) && AllRestOf(placed, y, b'.buys)
  {
    var book := b.On(order.side.Opposite());
    var s := Sweep(book, order);
    var own := Rested(b.On(order.side), s.taker);
    SweepShape(book, order);
    forall i | 0 <= i < |s.rest|
      ensures RestOf(placed, y, s.rest[i])
    {
      SweepKeeps(book, order, i);
    }
    forall i | 0 <= i < |own|
      ensures RestOf(placed, y, own[i])
    {
      if s.taker.amount != 0 {
        InsertMembers(b.On(order.side), s.taker, i);
      }
    }
  }

  lemma SubmitTradesOfPlaced(placed: map<int, PlacedOrder>, y: int, b: Book, order: Order, i: nat)
    requires ValidBook(b) && AllRestOf(placed, y, b.sells) && AllRestOf(placed, y, b.buys) && RestOf(placed, y, order)
    requires i < |PriceTime.Submit(b, order).1|
    ensures TradeOfPlaced(placed, PriceTime.Submit(b, order).1[i])
  {
    var book := b.On(order.side.Opposite());
    SweepSuits(book, order, i);
    SweepShowsTimes(book, order, i);
    assert RestOf(placed, y, book[i]);
  }

  lemma SubmitKeepsFromPlaced(s: State, id: int)
    requires Inv(s) && FromPlaced(s) && Enabled(s, Step.Submit(id))
    ensures FromPlaced(Apply(s, Step.Submit(id)))
  {
    var y := s.placed[id].symbol;
    var order := TransformGrpcOrder(s.placed[id]).value;
    assert RestOf(s.placed, y, order);
    SubmitKeepsRests(s.placed, y, s.books[y], order);
    forall i | 0 <= i < |PriceTime.Submit(s.books[y], order).1|
      ensures TradeOfPlaced(s.placed, PriceTime.Submit(s.books[y], order).1[i])
    {
      SubmitTradesOfPlaced(s.placed, y, s.books[y], order, i);
    }
  }

  lemma RestsStay(placed: map<int, PlacedOrder>, placed': map<int, PlacedOrder>, y: int, book: seq<Order>)
    requires AllRestOf(placed, y, book)
    requires forall id :: id in placed ==> id in placed' && placed'[id] == placed[id]
    ensures AllRestOf(placed', y, book)
  {}

  lemma TradeStays(placed: map<int, PlacedOrder>, placed': map<int, PlacedOrder>, t: Trade)
    requires TradeOfPlaced(placed, t)
    requires forall id :: id in placed ==> id in placed' && placed'[id] == placed[id]
    ensures TradeOfPlaced(placed', t)
  {}

  // Steps that change no book, add no message and forget no order.
  lemma FromPlacedStays(s: State, s': State)
    requires FromPlaced(s) && s'.books == s.books
    requires forall id :: id in s.placed ==> id in s'.placed && s'.placed[id] == s.placed[id]
    requires forall t :: t in s'.inflight ==> t in s.inflight
    ensures FromPlaced(s')
  {
    forall y | y in s'.books
      ensures AllRestOf(s'.placed, y, s'.books[y].sells) && AllRestOf(s'.placed, y, s'.books[y].buys)
    {
      RestsStay(s.placed, s'.placed, y, s.books[y].sells);
      RestsStay(s.placed, s'.placed, y, s.books[y].buys);
    }
    forall i | 0 <= i < |s'.inflight|
      ensures TradeOfPlaced(s'.placed, s'.inflight[i])
    {
      assert s'.inflight[i] in s.inflight;
      TradeStays(s.placed, s'.placed, s'.inflight[i]);
    }
  }

  lemma StepKeepsFromPlaced(s: State, step: Step)
    requires Inv(s) && FromPlaced(s) && Enabled(s, step)
    ensures FromPlaced(Apply(s, step))
  {
    if step.Submit? {
      SubmitKeepsFromPlaced(s, step.id);
    } else {
      assert forall id :: id in s.placed ==> id <= s.lastId;
      FromPlacedStays(s, Apply(s, step));
    }
  }

  lemma {:induction false} RunKeepsFromPlaced(s: State, steps: seq<Step>)
    requires Inv(s) && FromPlaced(s) && IsRun(s, steps)
    ensures FromPlaced(Exec(s, steps))
    decreases |steps|
  {
    if steps != [] {
      StepKeepsInv(s, steps[0]);
      StepKeepsFromPlaced(s, steps[0]);
      RunKeepsFromPlaced(Apply(s, steps[0]), steps[1..]);
    }
  }

  // ---------------------------------------------------------------- trades and requests

  // The trade is between the buy request of step j and the sell request of step k: for their users and their
  // symbol, within both limits, at the limit of the one that rested, with the submit time of one of them.
  ghost predicate BetweenRequests(t: Trade, steps: seq<Step>, j: int, k: int) {
    && 0 <= j < |steps| && steps[j].Build? && steps[j].request.side.TradingBuy?
    && 0 <= k < |steps| && steps[k].Build? && steps[k].request.side.TradingSell?
    && var buy, sell := steps[j].request, steps[k].request;
    && t.buyer == buy.user && t.seller == sell.user
    && t.symbol == buy.symbol == sell.symbol
    && sell.price <= t.price <= buy.price
    && t.price == (if t.side.Buy? then sell.price else buy.price)
    && (t.submitTime == steps[j].now || t.submitTime == steps[k].now)
    && (if t.side.Buy? then t.takerId else t.makerId) == Builds(steps[..j]) + 1
    && (if t.side.Buy? then t.makerId else t.takerId) == Builds(steps[..k]) + 1
  }

  // Under every interleaving, every trade message in flight is between two requests of the run.
  lemma {:induction false} TradesAreBetweenRequests(symbols: set<int>, steps: seq<Step>, i: nat)
    requires IsRun(Init(symbols), steps) && i < |Exec(Init(symbols), steps).inflight|
    ensures exists j, k :: BetweenRequests(Exec(Init(symbols), steps).inflight[i], steps, j, k)
  {
    InitInv(symbols);
    RunKeepsFromPlaced(Init(symbols), steps);
    var s := Exec(Init(symbols), steps);
    var t := s.inflight[i];
    assert TradeOfPlaced(s.placed, t);
    var m := BuiltInRun(Init(symbols), steps, t.makerId);
    var n := BuiltInRun(Init(symbols), steps, t.takerId);
    assert BetweenRequests(t, steps, if t.side.Buy? then n else m, if t.side.Buy? then m else n);
  }
}
