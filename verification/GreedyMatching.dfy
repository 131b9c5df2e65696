// Taking the book front first is the best deal for the incoming order: no other way of drawing the
// executed quantity from the resting orders is cheaper for a buyer or dearer for a seller.

module GreedyMatching {
  import opened Seqs
  import opened Orders
  import opened PriceTime

  function Sum(x: seq<int>): int {
    if x == [] then 0 else x[0] + Sum(x[1..])
  }

  // Total price times quantity of drawing x[i] from order i of the book.
  function Cost(book: seq<Order>, x: seq<int>): int
    requires |x| == |book|
  {
    if book == [] then 0 else book[0].price * x[0] + Cost(book[1..], x[1..])
  }

  function Value(trades: seq<Trade>): int {
    if trades == [] then 0 else trades[0].price * trades[0].amount + Value(trades[1..])
  }

  // A way of drawing quantity q from the resting orders, none beyond its amount.
  ghost predicate Allocation(book: seq<Order>, x: seq<int>, q: int) {
    && |x| == |book|
    && (forall i :: 0 <= i < |x| ==> 0 <= x[i] <= book[i].amount)
    && Sum(x) == q
  }

  // What the trades draw from each order of the book.
  function Taken(book: seq<Order>, trades: seq<Trade>): seq<int>
    requires |trades| <= |book|
  {
    if book == [] then []
    else if trades == [] then [0] + Taken(book[1..], [])
    else [trades[0].amount] + Taken(book[1..], trades[1..])
  }

  lemma {:induction false} TakenAt(book: seq<Order>, trades: seq<Trade>)
    requires |trades| <= |book|
    requires forall i :: 0 <= i < |trades| ==> trades[i].price == book[i].price
    ensures var x := Taken(book, trades);
            && |x| == |book|
            && (forall i :: 0 <= i < |book| ==> x[i] == if i < |trades| then trades[i].amount else 0)
            && Sum(x) == Volume(trades)
            && Cost(book, x) == Value(trades)
  {
    if book != [] {
      TakenAt(book[1..], if trades == [] then [] else trades[1..]);
    }
  }

  // The trades are themselves an allocation of the executed quantity.
  lemma {:induction false} TradesAllocate(book: seq<Order>, taker: Order)
    ensures var trades := Sweep(book, taker).trades;
            && |trades| <= |book|
            && Allocation(book, Taken(book, trades), Volume(trades))
            && Cost(book, Taken(book, trades)) == Value(trades)
  {
    SweepHitsPrefix(book, taker);
    TakenAt(book, Sweep(book, taker).trades);
  }

  // At each order, x differs from g only in the direction in which the price is no better than pivot.
  predicate NoBetter(buying: bool, price: int, pivot: int, x: int, g: int) {
    || price == pivot
    || ((if buying then price < pivot else price > pivot) && x <= g)
    || ((if buying then price > pivot else price < pivot) && g <= x)
  }

  lemma ExchangeOne(buying: bool, price: int, pivot: int, x: int, g: int)
    requires NoBetter(buying, price, pivot, x, g)
    ensures if buying then price * x - price * g >= pivot * x - pivot * g
            else price * x - price * g <= pivot * x - pivot * g
  {
    assert price * x - price * g - (pivot * x - pivot * g) == (price - pivot) * (x - g);
  }

  lemma Distributes(p: int, a: int, b: int)
    ensures p * (a + b) == p * a + p * b
  {}

  lemma {:induction false} Exchange(buying: bool, book: seq<Order>, pivot: int, x: seq<int>, g: seq<int>)
    requires |x| == |g| == |book|
    requires forall i :: 0 <= i < |book| ==> NoBetter(buying, book[i].price, pivot, x[i], g[i])
    ensures if buying then Cost(book, x) - Cost(book, g) >= pivot * Sum(x) - pivot * Sum(g)
            else Cost(book, x) - Cost(book, g) <= pivot * Sum(x) - pivot * Sum(g)
  {
    if book != [] {
      ExchangeOne(buying, book[0].price, pivot, x[0], g[0]);
      Exchange(buying, book[1..], pivot, x[1..], g[1..]);
      Distributes(pivot, x[0], Sum(x[1..]));
      Distributes(pivot, g[0], Sum(g[1..]));
    }
  }

  // Among all allocations of the executed quantity, the trades made cost a buyer the least and bring a
  // seller the most.
  lemma {:induction false} GreedyIsOptimal(side: Side, book: seq<Order>, taker: Order, x: seq<int>)
    requires ValidSide(side, book) && taker.side == side.Opposite()
    requires Allocation(book, x, Volume(Sweep(book, taker).trades))
    ensures var value := Value(Sweep(book, taker).trades);
            if taker.side.Buy? then value <= Cost(book, x) else Cost(book, x) <= value
  {
    var trades := Sweep(book, taker).trades;
    var n := |trades|;
    TradesAllocate(book, taker);
    SweepHitsPrefix(book, taker);
    TakenAt(book, trades);
    var g := Taken(book, trades);
    if book != [] {
      var last := if n == 0 then 0 else n - 1;
      var pivot := book[last].price;
      forall i | 0 <= i < |book|
        ensures NoBetter(taker.side.Buy?, book[i].price, pivot, x[i], g[i])
      {
        if i < last {
          assert !Better(side, book[last].price, book[i].price);
        } else if last < i {
          assert !Better(side, book[i].price, book[last].price);
        }
      }
      Exchange(taker.side.Buy?, book, pivot, x, g);
    }
  }
}
