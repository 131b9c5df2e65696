// The order book of one symbol as two sequences in priority order, and what matching does to them.
// This is the specification that the nested tables of MatchActor are proved against.

module PriceTime {
  import opened Seqs
  import opened Orders

  datatype Swept = Swept(rest: seq<Order>, taker: Order, trades: seq<Trade>)

  datatype Book = Book(sells: seq<Order>, buys: seq<Order>) {
    function On(side: Side): seq<Order> {
      if side.Sell? then sells else buys
    }
  }

  const EMPTY_BOOK := Book([], [])

  // The trade between a resting order and the incoming one: the smaller amount, at the resting price.
  function TradeOf(maker: Order, taker: Order): Trade {
    Trade(maker.id, taker.id, taker.side, Min(maker.amount, taker.amount), maker.price,
          if taker.side.Buy? then maker.user else taker.user,
          if taker.side.Buy? then taker.user else maker.user,
          taker.symbol,
          if maker.amount < taker.amount then maker.submitTime else taker.submitTime)
  }

  // Match an incoming order against the opposite side, front first. A pair of orders that cross is
  // traded even when the incoming amount is already zero, as the engine does.
  function Sweep(book: seq<Order>, taker: Order): Swept {
    if book == [] || !Crosses(taker, book[0].price) then
      Swept(book, taker, [])
    else
      var trade := TradeOf(book[0], taker);
      var maker' := book[0].(amount := book[0].amount - trade.amount);
      var taker' := taker.(amount := taker.amount - trade.amount);
      if taker'.amount == 0 then
        Swept(if maker'.amount == 0 then book[1..] else [maker'] + book[1..], taker', [trade])
      else
        After([trade], Sweep(book[1..], taker'))
  }

  // What a sweep comes to when some trades were made before it.
  function After(done: seq<Trade>, s: Swept): Swept {
    s.(trades := done + s.trades)
  }

  lemma AfterAfter(x: seq<Trade>, y: seq<Trade>, s: Swept)
    ensures After(x, After(y, s)) == After(x + y, s)
  {
    Assoc(x, y, s.trades);
  }

  // The incoming order wants more than the first one has: it goes on with what is left of it.
  predicate GoesOn(book: seq<Order>, taker: Order, taker': Order) {
    && book != [] && Crosses(taker, book[0].price)
    && taker' == taker.(amount := taker'.amount)
    && 0 < taker'.amount == taker.amount - book[0].amount
  }

  lemma {:induction false} SweepGoesOn(book: seq<Order>, taker: Order, taker': Order)
    requires GoesOn(book, taker, taker')
    ensures Sweep(book, taker) == After([TradeOf(book[0], taker)], Sweep(book[1..], taker'))
  {}

  // It wants no more than the first one has: that is the last trade.
  lemma {:induction false} SweepStops(book: seq<Order>, taker: Order, maker': Order, taker': Order)
    requires book != [] && Crosses(taker, book[0].price) && taker.amount <= book[0].amount
    requires maker' == book[0].(amount := book[0].amount - taker.amount) && taker' == taker.(amount := 0)
    ensures Sweep(book, taker)
            == Swept(if maker'.amount == 0 then book[1..] else [maker'] + book[1..], taker', [TradeOf(book[0], taker)])
  {}

  // Rest an order behind everything of equal or better price.
  function Insert(book: seq<Order>, order: Order): seq<Order> {
    if book == [] || Better(order.side, order.price, book[0].price) then [order] + book
    else [book[0]] + Insert(book[1..], order)
  }

  function Rested(book: seq<Order>, order: Order): seq<Order> {
    if order.amount == 0 then book else Insert(book, order)
  }

  function Submit(b: Book, order: Order): (Book, seq<Trade>) {
    if order.side.Buy? then
      var s := Sweep(b.sells, order);
      (Book(s.rest, Rested(b.buys, s.taker)), s.trades)
    else
      var s := Sweep(b.buys, order);
      (Book(Rested(b.sells, s.taker), s.rest), s.trades)
  }

  function Run(b: Book, orders: seq<Order>): (Book, seq<Trade>)
    decreases |orders|
  {
    if orders == [] then (b, [])
    else
      var (b', first) := Submit(b, orders[0]);
      var (b'', more) := Run(b', orders[1..]);
      (b'', first + more)
  }

  // ---------------------------------------------------------------- book invariant

  ghost predicate PriceSorted(side: Side, book: seq<Order>) {
    forall i, j :: 0 <= i < j < |book| ==> !Better(side, book[j].price, book[i].price)
  }

  ghost predicate ValidSide(side: Side, book: seq<Order>) {
    && PriceSorted(side, book)
    && forall i :: 0 <= i < |book| ==> book[i].side == side && 0 < book[i].amount
  }

  // No resting buy would accept a resting sell.
  ghost predicate Uncrossed(sells: seq<Order>, buys: seq<Order>) {
    forall i, j :: 0 <= i < |sells| && 0 <= j < |buys| ==> buys[j].price < sells[i].price
  }

  ghost predicate ValidBook(b: Book) {
    && ValidSide(Sell, b.sells)
    && ValidSide(Buy, b.buys)
    && Uncrossed(b.sells, b.buys)
  }

  // ---------------------------------------------------------------- what one sweep does

  // What stays is the tail of the book behind the makers that were used up; only its first order can
  // differ, and only in amount.
  ghost predicate Shaped(book: seq<Order>, taker: Order, s: Swept) {
    && |s.rest| <= |book|
    && s.taker == taker.(amount := s.taker.amount)
    && s.taker.amount <= taker.amount
    && (s.rest != [] ==>
          var n := |book| - |s.rest|;
          && s.rest[0] == book[n].(amount := s.rest[0].amount)
          && s.rest[0].amount <= book[n].amount
          && s.rest[1..] == book[n + 1..]
          && (0 < book[n].amount ==> 0 < s.rest[0].amount))
    && (s.taker.amount != 0 && s.rest != [] ==> !Crosses(taker, s.rest[0].price))
    && (s.taker.amount != 0 && s.rest != [] ==> s.rest[0] == book[|book| - |s.rest|])
  }

  lemma {:induction false} ShapedAtOnce(book: seq<Order>, taker: Order)
    requires book != [] && Crosses(taker, book[0].price) && taker.amount <= book[0].amount
    ensures Shaped(book, taker, Sweep(book, taker))
  {
    SweepStops(book, taker, book[0].(amount := book[0].amount - taker.amount), taker.(amount := 0));
  }

  lemma {:induction false} ShapedOneMore(book: seq<Order>, taker: Order, taker': Order)
    requires GoesOn(book, taker, taker') && Shaped(book[1..], taker', Sweep(book[1..], taker'))
    ensures Shaped(book, taker, Sweep(book, taker))
  {
    SweepGoesOn(book, taker, taker');
    var s := Sweep(book[1..], taker');
    if s.rest != [] {
      var n := |book[1..]| - |s.rest|;
      assert book[1..][n] == book[n + 1];
      assert book[1..][n + 1..] == book[n + 2..];
    }
  }

  lemma {:induction false} SweepShape(book: seq<Order>, taker: Order)
    ensures Shaped(book, taker, Sweep(book, taker))
  {
    if book != [] && Crosses(taker, book[0].price) {
      if taker.amount <= book[0].amount {
        ShapedAtOnce(book, taker);
      } else {
        var taker' := taker.(amount := taker.amount - book[0].amount);
        SweepShape(book[1..], taker');
        ShapedOneMore(book, taker, taker');
      }
    }
  }

  // Trade number i hits order number i of the book.
  predicate Hits(t: Trade, maker: Order, taker: Order, last: bool) {
    && t.makerId == maker.id && t.takerId == taker.id
    && t.price == maker.price && Crosses(taker, maker.price)
    && t.amount <= maker.amount
    && (!last ==> t.amount == maker.amount)
  }

  lemma {:induction false} SweepHits(book: seq<Order>, taker: Order, i: nat)
    requires i < |Sweep(book, taker).trades|
    ensures i < |book|
    ensures Hits(Sweep(book, taker).trades[i], book[i], taker, i == |Sweep(book, taker).trades| - 1)
  {
    var trade := TradeOf(book[0], taker);
    var taker' := taker.(amount := taker.amount - trade.amount);
    if i > 0 {
      SweepHits(book[1..], taker', i - 1);
      assert Sweep(book, taker).trades == [trade] + Sweep(book[1..], taker').trades;
    }
  }

  // The makers hit are the front of the book, in order; all but the last are filled completely.
  lemma {:induction false} SweepHitsPrefix(book: seq<Order>, taker: Order)
    ensures var trades := Sweep(book, taker).trades;
            && |trades| <= |book|
            && forall i :: 0 <= i < |trades| ==> Hits(trades[i], book[i], taker, i == |trades| - 1)
  {
    var trades := Sweep(book, taker).trades;
    forall i | 0 <= i < |trades|
      ensures i < |book| && Hits(trades[i], book[i], taker, i == |trades| - 1)
    {
      SweepHits(book, taker, i);
    }
    if |trades| > 0 {
      SweepHits(book, taker, |trades| - 1);
    }
  }

  // Total resting amount at prices the incoming order accepts.
  function CrossingAmount(book: seq<Order>, taker: Order): nat {
    if book == [] then 0
    else (if Crosses(taker, book[0].price) then book[0].amount else 0) + CrossingAmount(book[1..], taker)
  }

  lemma {:induction false} NothingCrosses(side: Side, book: seq<Order>, taker: Order)
    requires ValidSide(side, book) && taker.side == side.Opposite()
    requires book != [] ==> !Crosses(taker, book[0].price)
    ensures CrossingAmount(book, taker) == 0
  {
    if book != [] {
      ValidTail(side, book);
      if |book| > 1 {
        assert !Better(side, book[1].price, book[0].price);
      }
      NothingCrosses(side, book[1..], taker);
    }
  }

  lemma {:induction false} CrossingAmountIgnores(book: seq<Order>, taker: Order, amount: Amount)
    ensures CrossingAmount(book, taker.(amount := amount)) == CrossingAmount(book, taker)
  {
    if book != [] {
      CrossingAmountIgnores(book[1..], taker, amount);
    }
  }

  // Execution is maximal: everything the incoming order wants, up to everything on offer at its price.
  lemma {:induction false} SweepIsMaximal(side: Side, book: seq<Order>, taker: Order)
    requires ValidSide(side, book) && taker.side == side.Opposite()
    ensures Volume(Sweep(book, taker).trades) == Min(taker.amount, CrossingAmount(book, taker))
  {
    if book != [] && Crosses(taker, book[0].price) {
      var trade := TradeOf(book[0], taker);
      var taker' := taker.(amount := taker.amount - trade.amount);
      if taker'.amount != 0 {
        ValidTail(side, book);
        SweepIsMaximal(side, book[1..], taker');
        CrossingAmountIgnores(book[1..], taker, taker'.amount);
        assert Sweep(book, taker).trades[1..] == Sweep(book[1..], taker').trades;
      }
    } else {
      NothingCrosses(side, book, taker);
    }
  }

  // ---------------------------------------------------------------- the invariant is kept

  lemma {:induction false} ValidTail(side: Side, book: seq<Order>)
    requires ValidSide(side, book) && book != []
    ensures ValidSide(side, book[1..])
  {
    var tail := book[1..];
    forall i, j | 0 <= i < j < |tail|
      ensures !Better(side, tail[j].price, tail[i].price)
    {
      assert tail[i] == book[i + 1] && tail[j] == book[j + 1];
    }
  }

  lemma {:induction false} SweepKeeps(book: seq<Order>, taker: Order, i: nat)
    requires i < |Sweep(book, taker).rest|
    ensures var s := Sweep(book, taker);
            && |s.rest| <= |book|
            && var o, q := s.rest[i], book[|book| - |s.rest| + i];
            && o == q.(amount := o.amount)
            && (0 < q.amount ==> 0 < o.amount)
  {
    SweepShape(book, taker);
    var s := Sweep(book, taker);
    var n := |book| - |s.rest|;
    if i > 0 {
      assert s.rest[1..][i - 1] == book[n + 1..][i - 1];
    }
  }

  lemma {:induction false} SweepValid(side: Side, book: seq<Order>, taker: Order)
    requires ValidSide(side, book)
    ensures ValidSide(side, Sweep(book, taker).rest)
  {
    SweepShape(book, taker);
    var rest := Sweep(book, taker).rest;
    var n := |book| - |rest|;
    forall i | 0 <= i < |rest|
      ensures rest[i].price == book[n + i].price && rest[i].side == side && 0 < rest[i].amount
    {
      SweepKeeps(book, taker, i);
    }
    forall i, j | 0 <= i < j < |rest|
      ensures !Better(side, rest[j].price, rest[i].price)
    {
      assert !Better(side, book[n + j].price, book[n + i].price);
    }
  }

  // Whatever is left of the incoming order crosses nothing that still rests.
  lemma {:induction false} SweepUncrosses(side: Side, book: seq<Order>, taker: Order)
    requires ValidSide(side, book) && taker.side == side.Opposite()
    ensures var s := Sweep(book, taker);
            s.taker.amount != 0 ==> forall i :: 0 <= i < |s.rest| ==> !Crosses(taker, s.rest[i].price)
  {
    SweepShape(book, taker);
    SweepValid(side, book, taker);
    var rest := Sweep(book, taker).rest;
    forall i | Sweep(book, taker).taker.amount != 0 && 0 < i < |rest|
      ensures !Crosses(taker, rest[i].price)
    {
      assert !Better(side, rest[i].price, rest[0].price);
    }
  }

  // Every order after an insertion is the new one or was there before.
  lemma {:induction false} InsertMembers(book: seq<Order>, order: Order, i: nat)
    requires i < |Insert(book, order)|
    ensures Insert(book, order)[i] == order || exists j :: 0 <= j < |book| && Insert(book, order)[i] == book[j]
  {
    if book == [] || Better(order.side, order.price, book[0].price) {
      if i > 0 {
        assert Insert(book, order)[i] == book[i - 1];
      }
    } else if i > 0 {
      InsertMembers(book[1..], order, i - 1);
      if Insert(book, order)[i] != order {
        var j :| 0 <= j < |book[1..]| && Insert(book[1..], order)[i - 1] == book[1..][j];
        assert book[1..][j] == book[j + 1];
      }
    }
  }

  lemma {:induction false} InsertValid(book: seq<Order>, order: Order)
    requires ValidSide(order.side, book) && 0 < order.amount
    ensures ValidSide(order.side, Insert(book, order))
  {
    if book == [] || Better(order.side, order.price, book[0].price) {
      var r := [order] + book;
      forall i, j | 0 <= i < j < |r|
        ensures !Better(order.side, r[j].price, r[i].price)
      {
        if i > 0 {
          assert r[i] == book[i - 1] && r[j] == book[j - 1];
        } else if j > 1 {
          assert !Better(order.side, book[j - 1].price, book[0].price);
        }
      }
    } else {
      ValidTail(order.side, book);
      InsertValid(book[1..], order);
      var rest := Insert(book[1..], order);
      var r := [book[0]] + rest;
      forall i, j | 0 <= i < j < |r|
        ensures !Better(order.side, r[j].price, r[i].price)
      {
        if i > 0 {
          assert r[i] == rest[i - 1] && r[j] == rest[j - 1];
        } else {
          InsertMembers(book[1..], order, j - 1);
          if rest[j - 1] != order {
            var k :| 0 <= k < |book[1..]| && rest[j - 1] == book[1..][k];
            assert !Better(order.side, book[k + 1].price, book[0].price);
          }
        }
      }
    }
  }

  // After a submission no order of one side crosses one of the other.
  lemma {:induction false} StaysUncrossed(b: Book, order: Order, i: nat, j: nat)
    requires ValidBook(b)
    requires var s := Sweep(b.On(order.side.Opposite()), order);
             i < |s.rest| && j < |Rested(b.On(order.side), s.taker)|
    ensures var s := Sweep(b.On(order.side.Opposite()), order);
            Better(order.side, s.rest[i].price, Rested(b.On(order.side), s.taker)[j].price)
  {
    var opposite := order.side.Opposite();
    var book := b.On(opposite);
    var s := Sweep(book, order);
    SweepShape(book, order);
    SweepUncrosses(opposite, book, order);
    SweepKeeps(book, order, i);
    if s.taker.amount != 0 {
      InsertMembers(b.On(order.side), s.taker, j);
    }
  }

  lemma SubmitKeepsBookValid(b: Book, order: Order)
    requires ValidBook(b)
    ensures ValidBook(Submit(b, order).0)
  {
    var opposite := order.side.Opposite();
    var book := b.On(opposite);
    var s := Sweep(book, order);
    SweepShape(book, order);
    SweepValid(opposite, book, order);
    var own := Rested(b.On(order.side), s.taker);
    if s.taker.amount != 0 {
      InsertValid(b.On(order.side), s.taker);
    }
    forall i, j | 0 <= i < |s.rest| && 0 <= j < |own|
      ensures Better(order.side, s.rest[i].price, own[j].price)
    {
      StaysUncrossed(b, order, i, j);
    }
  }

  lemma {:induction false} RunKeepsBookValid(b: Book, orders: seq<Order>)
    requires ValidBook(b)
    ensures ValidBook(Run(b, orders).0)
    decreases |orders|
  {
    if orders != [] {
      SubmitKeepsBookValid(b, orders[0]);
      RunKeepsBookValid(Submit(b, orders[0]).0, orders[1..]);
    }
  }

  lemma {:induction false} RunConcat(b: Book, x: seq<Order>, y: seq<Order>)
    ensures Run(b, x + y) == var (b', first) := Run(b, x); var (b'', more) := Run(b', y); (b'', first + more)
    decreases |x|
  {
    if x == [] {
      assert x + y == y;
      assert [] + Run(b, y).1 == Run(b, y).1;
    } else {
      var (b', first) := Submit(b, x[0]);
      RunConcat(b', x[1..], y);
      assert (x + y)[1..] == x[1..] + y;
      Assoc(first, Run(b', x[1..]).1, Run(Run(b', x[1..]).0, y).1);
    }
  }

  lemma {:induction false} RunOne(b: Book, order: Order)
    ensures Run(b, [order]) == Submit(b, order)
  {
    var (b', trades) := Submit(b, order);
    assert Run(b', []) == (b', []);
    assert trades + [] == trades;
  }

  // ---------------------------------------------------------------- conservation

  function RestingOf(b: Book, id: int): nat {
    AmountOf(b.sells, id) + AmountOf(b.buys, id)
  }

  lemma {:induction false} SweepConserves(book: seq<Order>, taker: Order, id: int)
    ensures var s := Sweep(book, taker);
            AmountOf(s.rest, id) + AmountOf([s.taker], id) + Traded(s.trades, id)
            == AmountOf(book, id) + AmountOf([taker], id)
  {
    if book != [] && Crosses(taker, book[0].price) {
      var trade := TradeOf(book[0], taker);
      var taker' := taker.(amount := taker.amount - trade.amount);
      if taker'.amount != 0 {
        SweepConserves(book[1..], taker', id);
        assert Sweep(book, taker).trades[1..] == Sweep(book[1..], taker').trades;
      }
    }
  }

  lemma {:induction false} InsertAmount(book: seq<Order>, order: Order, id: int)
    ensures AmountOf(Insert(book, order), id) == AmountOf(book, id) + AmountOf([order], id)
  {
    if book == [] || Better(order.side, order.price, book[0].price) {
      AmountOfConcat([order], book, id);
    } else {
      InsertAmount(book[1..], order, id);
    }
  }

  // For every id: what rests afterwards plus what was traded is what rested before plus what came in.
  lemma {:induction false} SubmitConserves(b: Book, order: Order, id: int)
    ensures var (b', trades) := Submit(b, order);
            RestingOf(b', id) + Traded(trades, id) == RestingOf(b, id) + AmountOf([order], id)
  {
    var opposite := order.side.Opposite();
    var s := Sweep(b.On(opposite), order);
    SweepShape(b.On(opposite), order);
    SweepConserves(b.On(opposite), order, id);
    InsertAmount(b.On(order.side), s.taker, id);
  }

  lemma {:induction false} RunConserves(b: Book, orders: seq<Order>, id: int)
    ensures var (b', trades) := Run(b, orders);
            RestingOf(b', id) + Traded(trades, id) == RestingOf(b, id) + AmountOf(orders, id)
    decreases |orders|
  {
    if orders != [] {
      var (b', first) := Submit(b, orders[0]);
      SubmitConserves(b, orders[0], id);
      RunConserves(b', orders[1..], id);
      TradedConcat(first, Run(b', orders[1..]).1, id);
    }
  }

  lemma {:induction false} AmountOfUnique(orders: seq<Order>, k: nat)
    requires k < |orders|
    requires forall i :: 0 <= i < |orders| && i != k ==> orders[i].id != orders[k].id
    ensures AmountOf(orders, orders[k].id) == orders[k].amount
  {
    if k == 0 {
      NoAmount(orders[1..], orders[0].id);
    } else {
      AmountOfUnique(orders[1..], k - 1);
    }
  }

  lemma {:induction false} NoAmount(orders: seq<Order>, id: int)
    requires forall o :: o in orders ==> o.id != id
    ensures AmountOf(orders, id) == 0
  {
    if orders != [] {
      NoAmount(orders[1..], id);
    }
  }

  // With distinct ids, every order's amount is what still rests plus the trades naming it.
  lemma {:induction false} OrderAmountsAreConserved(orders: seq<Order>, k: nat)
    requires k < |orders|
    requires forall i, j :: 0 <= i < j < |orders| ==> orders[i].id != orders[j].id
    ensures var (b, trades) := Run(EMPTY_BOOK, orders);
            RestingOf(b, orders[k].id) + Traded(trades, orders[k].id) == orders[k].amount
  {
    RunConserves(EMPTY_BOOK, orders, orders[k].id);
    AmountOfUnique(orders, k);
  }

  // ---------------------------------------------------------------- bought equals sold

  lemma {:induction false} SweepVolumes(side: Side, book: seq<Order>, taker: Order)
    requires forall o :: o in book ==> o.side == side
    requires taker.side == side.Opposite()
    ensures var s := Sweep(book, taker);
            && AmountOn(s.rest, side) + Volume(s.trades) == AmountOn(book, side)
            && s.taker.amount + Volume(s.trades) == taker.amount
  {
    if book != [] && Crosses(taker, book[0].price) {
      var trade := TradeOf(book[0], taker);
      var taker' := taker.(amount := taker.amount - trade.amount);
      if taker'.amount != 0 {
        SweepVolumes(side, book[1..], taker');
        assert Sweep(book, taker).trades[1..] == Sweep(book[1..], taker').trades;
      }
    }
  }

  lemma {:induction false} InsertVolume(book: seq<Order>, order: Order, side: Side)
    ensures AmountOn(Insert(book, order), side) == AmountOn(book, side) + AmountOn([order], side)
  {
    if book == [] || Better(order.side, order.price, book[0].price) {
      assert ([order] + book)[1..] == book;
    } else {
      InsertVolume(book[1..], order, side);
    }
  }

  lemma SubmitVolumes(b: Book, order: Order)
    requires ValidBook(b)
    ensures var (b', trades) := Submit(b, order);
            && AmountOn(b'.buys, Buy) + Volume(trades) == AmountOn(b.buys, Buy) + AmountOn([order], Buy)
            && AmountOn(b'.sells, Sell) + Volume(trades) == AmountOn(b.sells, Sell) + AmountOn([order], Sell)
  {
    var opposite := order.side.Opposite();
    var s := Sweep(b.On(opposite), order);
    SweepShape(b.On(opposite), order);
    SweepVolumes(opposite, b.On(opposite), order);
    InsertVolume(b.On(order.side), s.taker, order.side);
  }

  // Buy orders and sell orders lose exactly the same quantity: the volume traded.
  lemma {:induction false} BoughtEqualsSold(b: Book, orders: seq<Order>)
    requires ValidBook(b)
    ensures var (b', trades) := Run(b, orders);
            && AmountOn(b'.buys, Buy) + Volume(trades) == AmountOn(b.buys, Buy) + AmountOn(orders, Buy)
            && AmountOn(b'.sells, Sell) + Volume(trades) == AmountOn(b.sells, Sell) + AmountOn(orders, Sell)
    decreases |orders|
  {
    if orders != [] {
      var (b', first) := Submit(b, orders[0]);
      SubmitVolumes(b, orders[0]);
      SubmitKeepsBookValid(b, orders[0]);
      BoughtEqualsSold(b', orders[1..]);
      VolumeConcat(first, Run(b', orders[1..]).1);
    }
  }

  // ---------------------------------------------------------------- limits and times

  // The trade is between these two orders, for the right users, at the maker's price, which suits both the
  // buyer and the seller.
  predicate Suits(t: Trade, maker: Order, taker: Order) {
    && t.makerId == maker.id && t.takerId == taker.id
    && maker.side == taker.side.Opposite() && t.side == taker.side
    && t.symbol == taker.symbol
    && t.buyer == (if taker.side.Buy? then taker.user else maker.user)
    && t.seller == (if taker.side.Buy? then maker.user else taker.user)
    && var buy, sell := (if taker.side.Buy? then taker else maker), (if taker.side.Buy? then maker else taker);
    && sell.price <= t.price <= buy.price
    && t.price == maker.price
  }

  lemma {:induction false} SweepSuits(book: seq<Order>, taker: Order, i: nat)
    requires i < |Sweep(book, taker).trades|
    requires forall k :: 0 <= k < |book| ==> book[k].side == taker.side.Opposite()
    ensures i < |book| && Suits(Sweep(book, taker).trades[i], book[i], taker)
  {
    var trade := TradeOf(book[0], taker);
    var taker' := taker.(amount := taker.amount - trade.amount);
    if i > 0 {
      SweepSuits(book[1..], taker', i - 1);
      assert Sweep(book, taker).trades == [trade] + Sweep(book[1..], taker').trades;
    }
  }

  // A trade that uses the incoming order up shows the time of the incoming order; one that leaves it wanting
  // more uses the resting order up and shows that one's time.
  lemma {:induction false} SweepShowsTimes(book: seq<Order>, taker: Order, i: nat)
    requires i < |Sweep(book, taker).trades|
    ensures var s := Sweep(book, taker);
            var soFar := Volume(s.trades[..i + 1]);
            && i < |book| && soFar <= taker.amount
            && s.trades[i].submitTime == (if soFar == taker.amount then taker.submitTime else book[i].submitTime)
            && (soFar < taker.amount ==> s.trades[i].amount == book[i].amount)
            && (soFar == taker.amount <==> i == |s.trades| - 1 && s.taker.amount == 0)
  {
    var trade := TradeOf(book[0], taker);
    assert [trade][..1] == [trade] && Volume([trade]) == trade.amount;
    if taker.amount > book[0].amount {
      var taker' := taker.(amount := taker.amount - book[0].amount);
      var more := Sweep(book[1..], taker').trades;
      SweepGoesOn(book, taker, taker');
      VolumeOneMore(trade, more, i);
      if i > 0 {
        SweepShowsTimes(book[1..], taker', i - 1);
      }
    }
  }

  lemma VolumeOneMore(trade: Trade, more: seq<Trade>, i: nat)
    requires i <= |more|
    ensures Volume(([trade] + more)[..i + 1]) == trade.amount + Volume(more[..i])
  {
    assert ([trade] + more)[..i + 1] == [trade] + more[..i];
    assert ([trade] + more[..i])[1..] == more[..i];
  }

  // The resting order is what is left of an order of the stream.
  ghost predicate LeftFrom(o: Order, orders: seq<Order>) {
    exists i :: 0 <= i < |orders| && o == orders[i].(amount := o.amount)
  }

  ghost predicate AllLeftFrom(book: seq<Order>, orders: seq<Order>) {
    forall i :: 0 <= i < |book| ==> LeftFrom(book[i], orders)
  }

  lemma LeftFromLonger(o: Order, orders: seq<Order>, more: seq<Order>)
    requires LeftFrom(o, orders)
    ensures LeftFrom(o, orders + more)
  {
    var i :| 0 <= i < |orders| && o == orders[i].(amount := o.amount);
    assert (orders + more)[i] == orders[i];
  }

  lemma {:induction false} SweepLeftFrom(book: seq<Order>, taker: Order, seen: seq<Order>)
    requires AllLeftFrom(book, seen)
    ensures AllLeftFrom(Sweep(book, taker).rest, seen)
  {
    var rest := Sweep(book, taker).rest;
    forall i | 0 <= i < |rest|
      ensures LeftFrom(rest[i], seen)
    {
      SweepKeeps(book, taker, i);
      var q := book[|book| - |rest| + i];
      var k :| 0 <= k < |seen| && q == seen[k].(amount := q.amount);
      assert rest[i] == seen[k].(amount := rest[i].amount);
    }
  }

  lemma SubmitLeftFrom(b: Book, seen: seq<Order>, order: Order)
    requires AllLeftFrom(b.sells, seen) && AllLeftFrom(b.buys, seen)
    ensures var b' := Submit(b, order).0;
            AllLeftFrom(b'.sells, seen + [order]) && AllLeftFrom(b'.buys, seen + [order])
  {
    var book := b.On(order.side.Opposite());
    var s := Sweep(book, order);
    var own := Rested(b.On(order.side), s.taker);
    SweepShape(book, order);
    SweepLeftFrom(book, order, seen);
    forall i | 0 <= i < |s.rest|
      ensures LeftFrom(s.rest[i], seen + [order])
    {
      LeftFromLonger(s.rest[i], seen, [order]);
    }
    assert (seen + [order])[|seen|] == order;
    assert LeftFrom(s.taker, seen + [order]);
    forall i | 0 <= i < |own|
      ensures LeftFrom(own[i], seen + [order])
    {
      if s.taker.amount != 0 {
        InsertMembers(b.On(order.side), s.taker, i);
      }
      if own[i] != s.taker {
        LeftFromLonger(own[i], seen, [order]);
      }
    }
  }

  // Trade k of the submission of an order is between an order of the stream and this one, and shows the time
  // of this one if it uses it up, else of the other.
  ghost predicate Explains(trades: seq<Trade>, k: int, maker: Order, order: Order) {
    && 0 <= k < |trades|
    && Suits(trades[k], maker, order)
    && trades[k].submitTime
       == if Volume(trades[..k + 1]) == order.amount then order.submitTime else maker.submitTime
  }

  lemma SubmitTradeExplained(b: Book, seen: seq<Order>, order: Order, k: nat) returns (i: nat)
    requires ValidBook(b) && AllLeftFrom(b.sells, seen) && AllLeftFrom(b.buys, seen)
    requires k < |Submit(b, order).1|
    ensures i < |seen| && Explains(Submit(b, order).1, k, seen[i], order)
  {
    var book := b.On(order.side.Opposite());
    SweepSuits(book, order, k);
    SweepShowsTimes(book, order, k);
    i :| 0 <= i < |seen| && book[k] == seen[i].(amount := book[k].amount);
  }

  // Trade n of the run is made by order j, as the trades before order j came say.
  ghost predicate MadeBy(b: Book, orders: seq<Order>, n: nat, maker: Order, j: int) {
    && 0 <= j < |orders| && n < |Run(b, orders).1|
    && var (before, earlier) := Run(b, orders[..j]);
    var trades := Submit(before, orders[j]).1;
    var k := n - |earlier|;
    && Explains(trades, k, maker, orders[j])
    && trades[k] == Run(b, orders).1[n]
  }

  lemma {:induction false} MadeByLater(b: Book, orders: seq<Order>, n: nat, maker: Order, j: nat)
    requires orders != []
    requires var (b', first) := Submit(b, orders[0]);
             |first| <= n && MadeBy(b', orders[1..], n - |first|, maker, j)
    ensures MadeBy(b, orders, n, maker, j + 1)
  {
    var (b', first) := Submit(b, orders[0]);
    assert orders[..j + 1][0] == orders[0] && orders[..j + 1][1..] == orders[1..][..j];
    assert Run(b, orders[..j + 1]) == (Run(b', orders[1..][..j]).0, first + Run(b', orders[1..][..j]).1);
    assert Run(b, orders).1 == first + Run(b', orders[1..]).1;
  }

  lemma OrdersSeen(seen: seq<Order>, orders: seq<Order>)
    requires orders != []
    ensures seen + [orders[0]] + orders[1..] == seen + orders
  {}

  lemma {:induction false} RunTradeExplained(b: Book, seen: seq<Order>, orders: seq<Order>, n: nat)
    returns (i: nat, j: nat)
    requires ValidBook(b) && AllLeftFrom(b.sells, seen) && AllLeftFrom(b.buys, seen)
    requires n < |Run(b, orders).1|
    ensures j < |orders| && i < |seen| + j && MadeBy(b, orders, n, (seen + orders)[i], j)
    decreases |orders|
  {
    var (b', first) := Submit(b, orders[0]);
    if n < |first| {
      i := SubmitTradeExplained(b, seen, orders[0], n);
      j := 0;
      assert Run(b, orders[..0]) == (b, []);
    } else {
      SubmitLeftFrom(b, seen, orders[0]);
      SubmitKeepsBookValid(b, orders[0]);
      i, j := RunTradeExplained(b', seen + [orders[0]], orders[1..], n - |first|);
      OrdersSeen(seen, orders);
      MadeByLater(b, orders, n, (seen + orders)[i], j);
      j := j + 1;
    }
  }

  // Every trade of every run is made by one order of the stream with an earlier one, at the earlier one's
  // price, within both limits, for their users and their symbol. It shows the later one's submit time if it
  // uses it up, else the earlier one's.
  lemma {:induction false} TradesRespectLimits(orders: seq<Order>, n: nat)
    requires n < |Run(EMPTY_BOOK, orders).1|
    ensures exists i, j :: 0 <= i < j < |orders| && MadeBy(EMPTY_BOOK, orders, n, orders[i], j)
  {
    var i, j := RunTradeExplained(EMPTY_BOOK, [], orders, n);
    assert [] + orders == orders;
  }
}
