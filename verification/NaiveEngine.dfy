// The engine the documentation promises: one pile of resting orders in arrival order, from which the
// best-priced and then earliest order is picked over and over. The priority book is proved to be
// exactly this engine, for every stream of orders with positive amounts; for other streams it is proved
// when the two agree.

module NaiveEngine {
  import opened Seqs
  import opened Orders
  import opened PriceTime

  predicate Eligible(o: Order, taker: Order) {
    o.side == taker.side.Opposite() && Crosses(taker, o.price)
  }

  // Scan the pile in arrival order, keeping the best eligible order so far.
  function Best(pile: seq<Order>, taker: Order): (best: Option<nat>)
    ensures best.Some? ==> best.value < |pile|
  {
    if pile == [] then None
    else
      var last := |pile| - 1;
      var best := Best(pile[..last], taker);
      if Eligible(pile[last], taker)
         && (best.None? || Better(pile[last].side, pile[last].price, pile[best.value].price))
      then Some(last) else best
  }

  // The scan finds the eligible order with the best price, and among those the one that arrived first.
  lemma {:induction false} BestIsBest(pile: seq<Order>, taker: Order)
    ensures var best := Best(pile, taker);
            && (best.None? ==> forall i :: 0 <= i < |pile| ==> !Eligible(pile[i], taker))
            && (best.Some? ==>
                  && Eligible(pile[best.value], taker)
                  && forall i :: 0 <= i < |pile| && i != best.value && Eligible(pile[i], taker) ==>
                                   Before(pile[best.value], best.value, pile[i], i))
  {
    if pile != [] {
      BestIsBest(pile[..|pile| - 1], taker);
    }
  }

  // Price priority, then time priority: order o at arrival position i comes before q at position j.
  predicate Before(o: Order, i: int, q: Order, j: int) {
    Better(o.side, o.price, q.price) || (o.price == q.price && i < j)
  }

  function Match(pile: seq<Order>, taker: Order): Swept
    decreases |pile|
  {
    var best := Best(pile, taker);
    if taker.amount == 0 || best.None? then
      Swept(pile, taker, [])
    else
      var k := best.value;
      var trade := TradeOf(pile[k], taker);
      var maker' := pile[k].(amount := pile[k].amount - trade.amount);
      var taker' := taker.(amount := taker.amount - trade.amount);
      if maker'.amount == 0 then
        var s := Match(pile[..k] + pile[k + 1..], taker');
        Swept(s.rest, s.taker, [trade] + s.trades)
      else
        Swept(pile[k := maker'], taker', [trade])
  }

  function NaiveSubmit(pile: seq<Order>, order: Order): (seq<Order>, seq<Trade>) {
    var s := Match(pile, order);
    (if s.taker.amount == 0 then s.rest else s.rest + [s.taker], s.trades)
  }

  function NaiveRun(pile: seq<Order>, orders: seq<Order>): (seq<Order>, seq<Trade>)
    decreases |orders|
  {
    if orders == [] then (pile, [])
    else
      var (pile', first) := NaiveSubmit(pile, orders[0]);
      var (pile'', more) := NaiveRun(pile', orders[1..]);
      (pile'', first + more)
  }

  lemma {:induction false} NaiveRunSnoc(pile: seq<Order>, orders: seq<Order>, last: Order)
    ensures NaiveRun(pile, orders + [last]).0 == NaiveSubmit(NaiveRun(pile, orders).0, last).0
    decreases |orders|
  {
    if orders != [] {
      assert (orders + [last])[1..] == orders[1..] + [last];
      NaiveRunSnoc(NaiveSubmit(pile, orders[0]).0, orders[1..], last);
    }
  }

  // ---------------------------------------------------------------- the refinement relation

  // At every price, one side of the book holds exactly the pile's orders, in arrival order.
  ghost predicate SameLevels(book: seq<Order>, pile: seq<Order>, side: Side) {
    forall p: int :: Level(book, side, p) == Level(pile, side, p)
  }

  ghost predicate Represents(b: Book, pile: seq<Order>) {
    && ValidBook(b)
    && SameLevels(b.sells, pile, Sell)
    && SameLevels(b.buys, pile, Buy)
  }

  ghost predicate Positive(orders: seq<Order>) {
    forall i :: 0 <= i < |orders| ==> 0 < orders[i].amount
  }

  lemma {:induction false} LevelMembers(orders: seq<Order>, side: Side, price: int, k: nat)
    requires k < |orders| && orders[k].side == side && orders[k].price == price
    ensures orders[k] in Level(orders, side, price)
  {
    if k > 0 {
      LevelMembers(orders[1..], side, price, k - 1);
    }
  }

  lemma {:induction false} LevelFrom(orders: seq<Order>, side: Side, price: int)
    requires Level(orders, side, price) != []
    ensures exists k :: 0 <= k < |orders| && orders[k].side == side && orders[k].price == price
  {
    if orders[0].side == side && orders[0].price == price {
    } else {
      LevelFrom(orders[1..], side, price);
      var k :| 0 <= k < |orders[1..]| && orders[1..][k].side == side && orders[1..][k].price == price;
      assert orders[k + 1] == orders[1..][k];
    }
  }

  // The front of the book is the order the naive engine picks.
  lemma {:induction false} FrontIsBest(side: Side, book: seq<Order>, pile: seq<Order>, taker: Order)
    requires ValidSide(side, book) && SameLevels(book, pile, side) && taker.side == side.Opposite()
    ensures var best := Best(pile, taker);
            && (best.None? <==> book == [] || !Crosses(taker, book[0].price))
            && (best.Some? ==>
                  && book != []
                  && book[0] == pile[best.value]
                  && Level(pile[..best.value], side, book[0].price) == [])
  {
    BestIsBest(pile, taker);
    var best := Best(pile, taker);
    if book != [] {
      var p := book[0].price;
      assert Level(book, side, p)[0] == book[0];
      LevelFrom(pile, side, p);
    }
    if best.Some? {
      var k := best.value;
      var p := pile[k].price;
      LevelMembers(pile, side, p, k);
      LevelFrom(book, side, p);
      assert !Better(side, p, book[0].price);
      assert p == book[0].price;
      forall o | o in pile[..k]
        ensures o.side != side || o.price != p
      {
        var i :| 0 <= i < k && pile[i] == o;
      }
      LevelEmpty(pile[..k], side, p);
      LevelAround(pile, k, pile[k], side, p);
    }
  }

  // Taking the picked order out, or reducing it where it stands, is the same on both representations.
  lemma LevelAfterStep(side: Side, book: seq<Order>, pile: seq<Order>, k: nat, o: Order, p: int)
    requires Level(book, side, p) == Level(pile, side, p)
    requires book != [] && k < |pile| && pile[k] == book[0] && book[0].side == side
    requires Level(pile[..k], side, book[0].price) == []
    requires o == book[0].(amount := o.amount)
    ensures Level(book[1..], side, p) == Level(pile[..k] + pile[k + 1..], side, p)
    ensures Level([o] + book[1..], side, p) == Level(pile[k := o], side, p)
  {
    LevelAround(pile, k, o, side, p);
    var after := Level(pile[k + 1..], side, p);
    assert ([o] + book[1..])[1..] == book[1..];
    if p == book[0].price {
      assert [] + ([book[0]] + after) == [book[0]] + after && [] + ([o] + after) == [o] + after;
      Cancel([book[0]], Level(book[1..], side, p), after);
      assert [] + after == after;
    } else {
      assert [] + after == after;
      assert [] + Level(book[1..], side, p) == Level(book[1..], side, p);
    }
  }

  lemma {:induction false} SameLevelsAfterStep(side: Side, book: seq<Order>, pile: seq<Order>, k: nat, amount: Amount)
    requires SameLevels(book, pile, side)
    requires book != [] && k < |pile| && pile[k] == book[0] && book[0].side == side
    requires Level(pile[..k], side, book[0].price) == []
    ensures var o := book[0].(amount := amount);
            && SameLevels(book[1..], pile[..k] + pile[k + 1..], side)
            && SameLevels([o] + book[1..], pile[k := o], side)
  {
    var o := book[0].(amount := amount);
    forall p: int
      ensures Level(book[1..], side, p) == Level(pile[..k] + pile[k + 1..], side, p)
      ensures Level([o] + book[1..], side, p) == Level(pile[k := o], side, p)
    {
      assert Level(book, side, p) == Level(pile, side, p);
      LevelAfterStep(side, book, pile, k, o, p);
    }
  }

  // Removing or reducing an order of one side leaves the other side's levels alone.
  lemma OtherSideUntouched(pile: seq<Order>, k: nat, o: Order, side: Side)
    requires k < |pile| && pile[k].side != side && o.side != side
    ensures SameLevels(pile[..k] + pile[k + 1..], pile, side)
    ensures SameLevels(pile[k := o], pile, side)
  {
    forall p: int
      ensures Level(pile[..k] + pile[k + 1..], side, p) == Level(pile, side, p)
      ensures Level(pile[k := o], side, p) == Level(pile, side, p)
    {
      LevelAround(pile, k, o, side, p);
      assert [] + Level(pile[k + 1..], side, p) == Level(pile[k + 1..], side, p);
    }
  }

  lemma SameLevelsTransitive(x: seq<Order>, y: seq<Order>, z: seq<Order>, side: Side)
    requires SameLevels(x, y, side) && SameLevels(y, z, side)
    ensures SameLevels(x, z, side)
  {
    forall p: int
      ensures Level(x, side, p) == Level(z, side, p)
    {
      assert Level(x, side, p) == Level(y, side, p);
    }
  }

  // One pick of the naive engine that does not use up the picked order.
  lemma {:induction false} MatchLast(pile: seq<Order>, k: nat, taker: Order)
    requires 0 < taker.amount && Best(pile, taker) == Some(k) && taker.amount < pile[k].amount
    ensures Match(pile, taker)
            == Swept(pile[k := pile[k].(amount := pile[k].amount - taker.amount)], taker.(amount := 0),
                     [TradeOf(pile[k], taker)])
  {}

  // One that does.
  lemma MatchGoesOn(pile: seq<Order>, k: nat, taker: Order, taker': Order)
    requires 0 < taker.amount && Best(pile, taker) == Some(k) && pile[k].amount <= taker.amount
    requires taker' == taker.(amount := taker.amount - pile[k].amount)
    ensures Match(pile, taker) == After([TradeOf(pile[k], taker)], Match(pile[..k] + pile[k + 1..], taker'))
  {}

  // One trade of the sweep is one pick of the naive engine, whatever it leaves of the resting order.
  lemma StepRefines(side: Side, book: seq<Order>, pile: seq<Order>, taker: Order, amount: Amount) returns (k: nat)
    requires ValidSide(side, book) && SameLevels(book, pile, side)
    requires taker.side == side.Opposite() && book != [] && Crosses(taker, book[0].price)
    ensures k < |pile| && Best(pile, taker) == Some(k) && pile[k] == book[0]
    ensures SameLevels(book[1..], pile[..k] + pile[k + 1..], side)
    ensures SameLevels([book[0].(amount := amount)] + book[1..], pile[k := book[0].(amount := amount)], side)
    ensures SameLevels(pile[..k] + pile[k + 1..], pile, side.Opposite())
    ensures SameLevels(pile[k := book[0].(amount := amount)], pile, side.Opposite())
  {
    FrontIsBest(side, book, pile, taker);
    k := Best(pile, taker).value;
    OtherSideUntouched(pile, k, book[0].(amount := amount), side.Opposite());
    SameLevelsAfterStep(side, book, pile, k, amount);
  }

  ghost predicate Agree(side: Side, s: Swept, m: Swept, pile: seq<Order>) {
    && s.trades == m.trades
    && s.taker == m.taker
    && SameLevels(s.rest, m.rest, side)
    && SameLevels(m.rest, pile, side.Opposite())
  }

  lemma AgreeAfterTrade(side: Side, s: Swept, m: Swept, pile': seq<Order>, pile: seq<Order>, trade: Trade)
    requires Agree(side, s, m, pile') && SameLevels(pile', pile, side.Opposite())
    ensures Agree(side, After([trade], s), After([trade], m), pile)
  {
    SameLevelsTransitive(m.rest, pile', pile, side.Opposite());
  }

  lemma {:induction false} MatchUsesUpBoth(pile: seq<Order>, k: nat, taker: Order)
    requires 0 < taker.amount && Best(pile, taker) == Some(k) && pile[k].amount == taker.amount
    ensures Match(pile, taker)
            == Swept(pile[..k] + pile[k + 1..], taker.(amount := 0), [TradeOf(pile[k], taker)])
  {
    var taker' := taker.(amount := 0);
    var pile' := pile[..k] + pile[k + 1..];
    MatchGoesOn(pile, k, taker, taker');
    assert Match(pile', taker') == Swept(pile', taker', []);
  }

  lemma {:induction false} RefinesAtOnce(side: Side, book: seq<Order>, pile: seq<Order>, taker: Order)
    requires ValidSide(side, book) && SameLevels(book, pile, side)
    requires taker.side == side.Opposite() && book != [] && Crosses(taker, book[0].price)
    requires 0 < taker.amount <= book[0].amount
    ensures Agree(side, Sweep(book, taker), Match(pile, taker), pile)
  {
    var maker' := book[0].(amount := book[0].amount - taker.amount);
    var k := StepRefines(side, book, pile, taker, maker'.amount);
    SweepStops(book, taker, maker', taker.(amount := 0));
    if maker'.amount == 0 {
      MatchUsesUpBoth(pile, k, taker);
    } else {
      MatchLast(pile, k, taker);
    }
  }

  lemma RefinesOneMore(side: Side, book: seq<Order>, pile: seq<Order>, taker: Order, taker': Order, k: nat)
    requires taker.side == side.Opposite() && GoesOn(book, taker, taker')
    requires k < |pile| && Best(pile, taker) == Some(k) && pile[k] == book[0]
    requires var pile' := pile[..k] + pile[k + 1..];
             && SameLevels(pile', pile, side.Opposite())
             && Agree(side, Sweep(book[1..], taker'), Match(pile', taker'), pile')
    ensures Agree(side, Sweep(book, taker), Match(pile, taker), pile)
  {
    var pile' := pile[..k] + pile[k + 1..];
    SweepGoesOn(book, taker, taker');
    MatchGoesOn(pile, k, taker, taker');
    AgreeAfterTrade(side, Sweep(book[1..], taker'), Match(pile', taker'), pile', pile, TradeOf(book[0], taker));
  }

  lemma {:induction false} SweepRefinesMatch(side: Side, book: seq<Order>, pile: seq<Order>, taker: Order)
    requires ValidSide(side, book) && SameLevels(book, pile, side)
    requires taker.side == side.Opposite() && 0 < taker.amount
    ensures Agree(side, Sweep(book, taker), Match(pile, taker), pile)
    decreases |book|
  {
    if book == [] || !Crosses(taker, book[0].price) {
      FrontIsBest(side, book, pile, taker);
      assert Match(pile, taker) == Swept(pile, taker, []);
    } else if taker.amount <= book[0].amount {
      RefinesAtOnce(side, book, pile, taker);
    } else {
      var taker' := taker.(amount := taker.amount - book[0].amount);
      var k := StepRefines(side, book, pile, taker, 0);
      ValidTail(side, book);
      SweepRefinesMatch(side, book[1..], pile[..k] + pile[k + 1..], taker');
      RefinesOneMore(side, book, pile, taker, taker', k);
    }
  }

  lemma {:induction false} InsertLevel(book: seq<Order>, order: Order, p: int)
    requires ValidSide(order.side, book)
    ensures Level(Insert(book, order), order.side, p) == Level(book, order.side, p) + Level([order], order.side, p)
  {
    if book == [] || Better(order.side, order.price, book[0].price) {
      if p == order.price {
        forall o | o in book
          ensures o.price != p
        {
          var i :| 0 <= i < |book| && book[i] == o;
          if i > 0 {
            assert !Better(order.side, book[i].price, book[0].price);
          }
        }
        LevelEmpty(book, order.side, p);
      }
      LevelConcat([order], book, order.side, p);
    } else {
      ValidTail(order.side, book);
      InsertLevel(book[1..], order, p);
    }
  }

  // One order: the same trades, and books that still represent each other.
  lemma SubmitRefinesNaive(b: Book, pile: seq<Order>, order: Order)
    requires Represents(b, pile) && 0 < order.amount
    ensures var (b', trades) := Submit(b, order);
            var (pile', naive) := NaiveSubmit(pile, order);
            trades == naive && Represents(b', pile')
  {
    var opposite := order.side.Opposite();
    SweepRefinesMatch(opposite, b.On(opposite), pile, order);
    SweepShape(b.On(opposite), order);
    SubmitKeepsBookValid(b, order);
    RestedSameLevels(b, pile, order);
  }

  // Adding the leftover behind its level is the same as adding it to the end of the pile.
  lemma {:induction false} RestedSameLevels(b: Book, pile: seq<Order>, order: Order)
    requires Represents(b, pile)
    requires var opposite := order.side.Opposite();
             var s, m := Sweep(b.On(opposite), order), Match(pile, order);
             && s.taker == m.taker && s.taker.side == order.side
             && SameLevels(s.rest, m.rest, opposite)
             && SameLevels(m.rest, pile, order.side)
    ensures var (b', pile') := (Submit(b, order).0, NaiveSubmit(pile, order).0);
            SameLevels(b'.sells, pile', Sell) && SameLevels(b'.buys, pile', Buy)
  {
    var (b', pile') := (Submit(b, order).0, NaiveSubmit(pile, order).0);
    var m := Match(pile, order);
    var own := b.On(order.side);
    forall p: int
      ensures Level(b'.On(order.side), order.side, p) == Level(pile', order.side, p)
      ensures Level(b'.On(order.side.Opposite()), order.side.Opposite(), p) == Level(pile', order.side.Opposite(), p)
    {
      LevelConcat(m.rest, [m.taker], order.side, p);
      LevelConcat(m.rest, [m.taker], order.side.Opposite(), p);
      assert Level([m.taker], order.side.Opposite(), p) == [];
      InsertLevel(own, m.taker, p);
      assert Level(own, order.side, p) == Level(pile, order.side, p);
      assert Level(m.rest, order.side, p) == Level(pile, order.side, p);
    }
  }

  // Every stream: the priority book makes exactly the naive engine's trades, in the same order.
  lemma {:induction false} RunRefinesNaive(b: Book, pile: seq<Order>, orders: seq<Order>)
    requires Represents(b, pile) && Positive(orders)
    ensures var (b', trades) := Run(b, orders);
            var (pile', naive) := NaiveRun(pile, orders);
            trades == naive && Represents(b', pile')
    decreases |orders|
  {
    if orders != [] {
      SubmitRefinesNaive(b, pile, orders[0]);
      RunRefinesNaive(Submit(b, orders[0]).0, NaiveSubmit(pile, orders[0]).0, orders[1..]);
    }
  }

  // The two engines also rest exactly the same orders.
  lemma {:induction false} LevelCounts(orders: seq<Order>, o: Order)
    ensures multiset(Level(orders, o.side, o.price))[o] == multiset(orders)[o]
  {
    if orders != [] {
      LevelCounts(orders[1..], o);
      assert orders == [orders[0]] + orders[1..];
    }
  }

  lemma {:induction false} SideCounts(side: Side, orders: seq<Order>, o: Order)
    requires ValidSide(side, orders) && o.side != side
    ensures multiset(orders)[o] == 0
  {}

  lemma RepresentsSameOrders(b: Book, pile: seq<Order>)
    requires Represents(b, pile)
    ensures multiset(b.sells + b.buys) == multiset(pile)
  {
    forall o: Order
      ensures multiset(b.sells + b.buys)[o] == multiset(pile)[o]
    {
      LevelCounts(b.On(o.side), o);
      LevelCounts(pile, o);
      SideCounts(o.side.Opposite(), b.On(o.side.Opposite()), o);
      assert Level(b.On(o.side), o.side, o.price) == Level(pile, o.side, o.price);
    }
  }

  lemma NothingIsEmpty(side: Side, x: seq<Order>, y: seq<Order>)
    requires ValidSide(side, y) && SameLevels(x, y, side) && y != []
    ensures x != []
  {
    assert Level(x, side, y[0].price) == Level(y, side, y[0].price);
  }

  // Only one book represents a pile: the relation leaves no freedom in how orders are queued.
  lemma {:induction false} RepresentationIsUnique(side: Side, x: seq<Order>, y: seq<Order>)
    requires ValidSide(side, x) && ValidSide(side, y) && SameLevels(x, y, side)
    ensures x == y
  {
    if y != [] {
      NothingIsEmpty(side, x, y);
    }
    if x != [] {
      var p := x[0].price;
      assert Level(x, side, p) == Level(y, side, p);
      LevelFrom(y, side, p);
      assert Level(x, side, y[0].price) == Level(y, side, y[0].price);
      LevelFrom(x, side, y[0].price);
      assert y[0].price == p;
      assert Level(x, side, p)[0] == x[0] && Level(y, side, p)[0] == y[0];
      forall q: int
        ensures Level(x[1..], side, q) == Level(y[1..], side, q)
      {
        assert Level(x, side, q) == Level(y, side, q);
        Cancel(Slot(x[0], side, q), Level(x[1..], side, q), Level(y[1..], side, q));
      }
      ValidTail(side, x);
      ValidTail(side, y);
      RepresentationIsUnique(side, x[1..], y[1..]);
      assert x == [x[0]] + x[1..] && y == [y[0]] + y[1..];
    }
  }

  // ---------------------------------------------------------------- amount zero

  ghost predicate NothingEligible(pile: seq<Order>, order: Order) {
    forall i :: 0 <= i < |pile| ==> !Eligible(pile[i], order)
  }

  // An order for amount zero is the one case in which the code departs from the naive engine: it trades
  // amount zero with the best crossing order, if there is one.
  lemma ZeroAmountDeparts(b: Book, pile: seq<Order>, order: Order)
    requires Represents(b, pile) && order.amount == 0
    ensures var (b', trades) := Submit(b, order);
            var (pile', naive) := NaiveSubmit(pile, order);
            && naive == [] && pile' == pile
            && b' == b
            && (trades == naive <==> NothingEligible(pile, order))
  {
    var opposite := order.side.Opposite();
    var book := b.On(opposite);
    FrontIsBest(opposite, book, pile, order);
    BestIsBest(pile, order);
    if book != [] && Crosses(order, book[0].price) {
      assert book[0].(amount := book[0].amount) == book[0];
      assert [book[0]] + book[1..] == book;
    }
  }

  // So the two engines agree on an order exactly when it asks for something or crosses nothing.
  lemma RefinesExactlyWhen(b: Book, pile: seq<Order>, order: Order)
    requires Represents(b, pile)
    ensures Submit(b, order).1 == NaiveSubmit(pile, order).1
            <==> 0 < order.amount || NothingEligible(pile, order)
  {
    if order.amount == 0 {
      ZeroAmountDeparts(b, pile, order);
    } else {
      SubmitRefinesNaive(b, pile, order);
    }
  }

  // Every order of the stream asks for something, or crosses nothing when it comes.
  ghost predicate NoIdleCrossing(pile: seq<Order>, orders: seq<Order>)
    decreases |orders|
  {
    orders != [] ==>
      && (0 < orders[0].amount || NothingEligible(pile, orders[0]))
      && NoIdleCrossing(NaiveSubmit(pile, orders[0]).0, orders[1..])
  }

  // One order of any amount: the books represent each other afterwards, and the book's trades are those of
  // the naive engine, or one more.
  lemma AnyOrderRefines(b: Book, pile: seq<Order>, order: Order)
    requires Represents(b, pile)
    ensures Represents(Submit(b, order).0, NaiveSubmit(pile, order).0)
    ensures var trades, naive := Submit(b, order).1, NaiveSubmit(pile, order).1;
            if 0 < order.amount || NothingEligible(pile, order) then trades == naive else |trades| > |naive|
  {
    if order.amount == 0 {
      ZeroAmountDeparts(b, pile, order);
    } else {
      SubmitRefinesNaive(b, pile, order);
    }
  }

  // Every stream, whatever the amounts: the books represent each other, and the trades are the same if and
  // only if no order for nothing crosses the book.
  lemma {:induction false} RunRefinesExactlyWhen(b: Book, pile: seq<Order>, orders: seq<Order>)
    requires Represents(b, pile)
    ensures Represents(Run(b, orders).0, NaiveRun(pile, orders).0)
    ensures |NaiveRun(pile, orders).1| <= |Run(b, orders).1|
    ensures Run(b, orders).1 == NaiveRun(pile, orders).1 <==> NoIdleCrossing(pile, orders)
    decreases |orders|
  {
    if orders != [] {
      var (b', first) := Submit(b, orders[0]);
      var (pile', naive) := NaiveSubmit(pile, orders[0]);
      AnyOrderRefines(b, pile, orders[0]);
      RunRefinesExactlyWhen(b', pile', orders[1..]);
      if first == naive && first + Run(b', orders[1..]).1 == naive + NaiveRun(pile', orders[1..]).1 {
        Cancel(first, Run(b', orders[1..]).1, NaiveRun(pile', orders[1..]).1);
      }
    }
  }

  lemma {:induction false} PositiveIsNeverIdle(pile: seq<Order>, orders: seq<Order>)
    ensures Positive(orders) ==> NoIdleCrossing(pile, orders)
    decreases |orders|
  {
    if orders != [] {
      PositiveIsNeverIdle(NaiveSubmit(pile, orders[0]).0, orders[1..]);
    }
  }

  // From the empty book: a buy order for nothing trades with the sell order that rests at its price.
  lemma ZeroAmountTrades(sell: Order, buy: Order)
    requires sell.side == Sell && sell.amount == 5 && sell.price == 10
    requires buy.side == Buy && buy.amount == 0 && buy.price == 10
    ensures Run(EMPTY_BOOK, [sell, buy]).1 == [TradeOf(sell, buy)] && TradeOf(sell, buy).amount == 0
    ensures NaiveRun([], [sell, buy]).1 == []
  {
    assert [sell, buy][1..] == [buy] && [buy][1..] == [];
    assert [sell] + [] == [sell] == [] + [sell];
    assert Submit(EMPTY_BOOK, sell) == (Book([sell], []), []);
    var trade := TradeOf(sell, buy);
    assert Submit(Book([sell], []), buy).1 == [trade];
    assert Run(Book([sell], []), [buy]).1 == [trade] + [] == [trade] == [] + [trade];
    assert NaiveSubmit([], sell) == ([sell], []);
    assert NaiveSubmit([sell], buy).1 == [];
    assert NaiveRun([sell], [buy]).1 == [] + [] == [];
  }
}
