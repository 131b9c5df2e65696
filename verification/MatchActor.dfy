// The matching actor of one symbol: two tables of price levels, changed in place by loops that erase
// while they iterate. Each method is proved against the priority book of PriceTime, and the actor as a
// whole against the naive engine of NaiveEngine.

module MatchActor {
  import opened Seqs
  import opened Orders
  import opened PriceTime
  import opened NaiveEngine

  // All orders of a table, best level first, each level in queue order.
  function Flatten(levels: seq<seq<Order>>): seq<Order> {
    if levels == [] then [] else levels[0] + Flatten(levels[1..])
  }

  // No empty level, one price per level, levels strictly in priority order, one side, amounts positive.
  ghost predicate WellFormed(side: Side, levels: seq<seq<Order>>) {
    && (forall i :: 0 <= i < |levels| ==> GoodLevel(side, levels[i]))
    && (forall i, j :: 0 <= i < j < |levels| ==> Better(side, levels[i][0].price, levels[j][0].price))
  }

  ghost predicate GoodLevel(side: Side, level: seq<Order>) {
    && level != []
    && forall i :: 0 <= i < |level| ==>
                     level[i].side == side && level[i].price == level[0].price && 0 < level[i].amount
  }

  lemma {:induction false} FlattenConcat(a: seq<seq<Order>>, b: seq<seq<Order>>)
    ensures Flatten(a + b) == Flatten(a) + Flatten(b)
  {
    if a == [] {
      assert a + b == b;
    } else {
      FlattenConcat(a[1..], b);
      assert (a + b)[1..] == a[1..] + b;
      Assoc(a[0], Flatten(a[1..]), Flatten(b));
    }
  }

  // An order of the flattened table is an order of one of its levels.
  lemma {:induction false} FlattenIndex(levels: seq<seq<Order>>, k: nat) returns (i: nat, j: nat)
    requires k < |Flatten(levels)|
    ensures i < |levels| && j < |levels[i]| && Flatten(levels)[k] == levels[i][j]
  {
    if k < |levels[0]| {
      i, j := 0, k;
    } else {
      i, j := FlattenIndex(levels[1..], k - |levels[0]|);
      i := i + 1;
    }
  }

  lemma WellFormedTail(side: Side, levels: seq<seq<Order>>)
    requires WellFormed(side, levels) && levels != []
    ensures WellFormed(side, levels[1..])
  {
    var tail := levels[1..];
    forall i: int, j: int | 0 <= i < j < |tail|
      ensures Better(side, levels[1..][i][0].price, levels[1..][j][0].price)
    {
      assert tail[i] == levels[i + 1] && tail[j] == levels[j + 1];
    }
  }

  lemma {:induction false} WellFormedIsValid(side: Side, levels: seq<seq<Order>>)
    requires WellFormed(side, levels)
    ensures ValidSide(side, Flatten(levels))
  {
    if levels != [] {
      WellFormedTail(side, levels);
      WellFormedIsValid(side, levels[1..]);
      var flat, rest := Flatten(levels), Flatten(levels[1..]);
      forall k | 0 <= k < |rest|
        ensures Better(side, levels[0][0].price, rest[k].price)
      {
        var i, j := FlattenIndex(levels[1..], k);
        assert GoodLevel(side, levels[i + 1]);
      }
      assert GoodLevel(side, levels[0]);
      forall i, j | 0 <= i < j < |flat|
        ensures !Better(side, flat[j].price, flat[i].price)
      {
        if |levels[0]| <= i {
          assert flat[i] == rest[i - |levels[0]|] && flat[j] == rest[j - |levels[0]|];
        }
      }
    }
  }

  // A swept level keeps its price and its positive amounts.
  lemma {:induction false} SweptLevelIsGood(side: Side, level: seq<Order>, taker: Order)
    requires GoodLevel(side, level) && Sweep(level, taker).rest != []
    ensures GoodLevel(side, Sweep(level, taker).rest)
    ensures Sweep(level, taker).rest[0].price == level[0].price
  {
    var rest := Sweep(level, taker).rest;
    forall i | 0 <= i < |rest|
      ensures rest[i].side == side && rest[i].price == level[0].price && 0 < rest[i].amount
    {
      SweepKeeps(level, taker, i);
    }
  }

  // Sweeping a level and then, if it ran out first, the levels behind it.
  function Onward(s: Swept, nothing: bool, b: seq<Order>): Swept {
    if s.rest == [] && (s.taker.amount != 0 || nothing) then After(s.trades, Sweep(b, s.taker))
    else s.(rest := s.rest + b)
  }

  // The order is used up by the first trade already.
  lemma {:induction false} ConcatAtOnce(a: seq<Order>, b: seq<Order>, taker: Order)
    requires a != [] && Crosses(taker, a[0].price) && taker.amount <= a[0].amount
    ensures Sweep(a + b, taker) == Onward(Sweep(a, taker), false, b)
  {
    var maker' := a[0].(amount := a[0].amount - taker.amount);
    assert (a + b)[1..] == a[1..] + b;
    Assoc([maker'], a[1..], b);
  }

  lemma OnwardAfter(done: seq<Trade>, s: Swept, nothing: bool, b: seq<Order>)
    ensures After(done, Onward(s, nothing, b)) == Onward(After(done, s), nothing, b)
  {
    AfterAfter(done, s.trades, Sweep(b, s.taker));
  }

  lemma {:induction false} ConcatOneMore(a: seq<Order>, b: seq<Order>, taker: Order, taker': Order)
    requires GoesOn(a, taker, taker') && Sweep(a[1..] + b, taker') == Onward(Sweep(a[1..], taker'), a[1..] == [], b)
    ensures Sweep(a + b, taker) == Onward(Sweep(a, taker), a[1..] == [], b)
  {
    assert (a + b)[0] == a[0] && (a + b)[1..] == a[1..] + b;
    SweepGoesOn(a + b, taker, taker');
    SweepGoesOn(a, taker, taker');
    OnwardAfter([TradeOf(a[0], taker)], Sweep(a[1..], taker'), a[1..] == [], b);
  }

  // A single order that is used up leaves the incoming one with something to go on with.
  lemma {:induction false} SomethingLeft(a: seq<Order>, b: seq<Order>, taker: Order, taker': Order)
    requires |a| == 1 && GoesOn(a, taker, taker')
    ensures Onward(Sweep(a, taker), true, b) == Onward(Sweep(a, taker), false, b)
  {
    SweepGoesOn(a, taker, taker');
  }

  lemma {:induction false} SweepConcat(a: seq<Order>, b: seq<Order>, taker: Order)
    ensures Sweep(a + b, taker) == Onward(Sweep(a, taker), a == [], b)
  {
    if a == [] {
      assert a + b == b;
      assert [] + Sweep(b, taker).trades == Sweep(b, taker).trades;
    } else if Crosses(taker, a[0].price) {
      if taker.amount <= a[0].amount {
        ConcatAtOnce(a, b, taker);
      } else {
        var taker' := taker.(amount := taker.amount - a[0].amount);
        SweepConcat(a[1..], b, taker');
        ConcatOneMore(a, b, taker, taker');
        if |a| == 1 {
          SomethingLeft(a, b, taker, taker');
        }
      }
    }
  }

  method MakeTrade(maker: Order, taker: Order, tradeList: seq<Trade>)
    returns (maker': Order, taker': Order, tradeList': seq<Trade>)
    ensures var t := TradeOf(maker, taker);
            && tradeList' == tradeList + [t]
            && maker' == maker.(amount := maker.amount - t.amount)
            && taker' == taker.(amount := taker.amount - t.amount)
    ensures maker'.amount == 0 || taker'.amount == 0
    ensures var t := tradeList'[|tradeList|];
            && t.amount == maker.amount - maker'.amount == taker.amount - taker'.amount
            && t.submitTime == (if taker'.amount == 0 then taker.submitTime else maker.submitTime)
            && (t.makerId, t.takerId, t.side, t.price, t.symbol)
               == (maker.id, taker.id, taker.side, maker.price, taker.symbol)
            && (t.buyer, t.seller) == (if taker.side == Buy then (taker.user, maker.user) else (maker.user, taker.user))
  {
    var tradeAmount: Amount := 0;
    var submitTime: int;
    if maker.amount < taker.amount {
      tradeAmount := maker.amount;
      maker' := maker.(amount := 0);
      taker' := taker.(amount := taker.amount - tradeAmount);
      submitTime := maker.submitTime;
    } else {
      tradeAmount := taker.amount;
      taker' := taker.(amount := 0);
      maker' := maker.(amount := maker.amount - tradeAmount);
      submitTime := taker.submitTime;
    }
    var seller, buyer: Int32 := 0, 0;
    if taker.side == Buy {
      seller := maker.user;
      buyer := taker.user;
    } else {
      seller := taker.user;
      buyer := maker.user;
    }
    tradeList' := tradeList + [Trade(maker.id, taker.id, taker.side, tradeAmount, maker.price,
                                     seller, buyer, taker.symbol, submitTime)];
  }

  lemma FirstReplaced<T>(s: seq<T>, x: T)
    requires s != []
    ensures s[..0] + s[1..] == s[1..] && s[0 := x] == [x] + s[1..]
  {}

  // What is left of a maker and a taker after their trade.
  predicate Remain(maker: Order, taker: Order, maker': Order, taker': Order) {
    var t := TradeOf(maker, taker);
    && maker' == maker.(amount := maker.amount - t.amount)
    && taker' == taker.(amount := taker.amount - t.amount)
  }

  // The list after the trade with its first order: without it if it was used up, else with the rest of it.
  function AfterFirst(list: seq<Order>, maker': Order): seq<Order>
    requires list != []
  {
    if maker'.amount == 0 then list[..0] + list[1..] else list[0 := maker']
  }

  lemma {:induction false} LastTrade(list: seq<Order>, taker: Order, maker': Order, taker': Order)
    requires list != [] && Crosses(taker, list[0].price) && Remain(list[0], taker, maker', taker')
    requires taker'.amount == 0
    ensures Sweep(list, taker) == Swept(AfterFirst(list, maker'), taker', [TradeOf(list[0], taker)])
  {
    FirstReplaced(list, maker');
    SweepStops(list, taker, maker', taker');
  }

  // One round of the loop over a level, seen from the trades made so far.
  lemma {:induction false} ListStep(list: seq<Order>, taker: Order, done: seq<Trade>, maker': Order, taker': Order)
    requires list != [] && Crosses(taker, list[0].price) && Remain(list[0], taker, maker', taker')
    ensures var trade := TradeOf(list[0], taker);
            After(done, Sweep(list, taker))
            == if taker'.amount == 0 then Swept(AfterFirst(list, maker'), taker', done + [trade])
               else After(done + [trade], Sweep(AfterFirst(list, maker'), taker'))
  {
    if taker'.amount == 0 {
      LastTrade(list, taker, maker', taker');
    } else {
      FirstReplaced(list, maker');
      SweepGoesOn(list, taker, taker');
      AfterAfter(done, [TradeOf(list[0], taker)], Sweep(list[1..], taker'));
    }
  }

  lemma {:induction false} ListEnds(list: seq<Order>, taker: Order, done: seq<Trade>)
    requires list == [] || !Crosses(taker, list[0].price)
    ensures After(done, Sweep(list, taker)) == Swept(list, taker, done)
  {}

  // Match against one level, erasing the orders that are used up. The answer says whether matching may
  // go on with the next level.
  method MatchOrderFromList(orderList: seq<Order>, order: Order, tradeList: seq<Trade>)
    returns (orderList': seq<Order>, order': Order, tradeList': seq<Trade>, more: bool)
    ensures Swept(orderList', order', tradeList') == After(tradeList, Sweep(orderList, order))
    ensures more <==> orderList' == [] && (order'.amount != 0 || orderList == [])
  {
    orderList', order', tradeList' := orderList, order, tradeList;
    ghost var goal := After(tradeList, Sweep(orderList, order));
    var maker := 0;
    while maker < |orderList'|
      invariant maker == 0
      invariant order'.side == order.side
      invariant order'.amount != 0 || orderList' == orderList
      invariant goal == After(tradeList', Sweep(orderList', order'))
      decreases |orderList'|
    {
      if order'.side == Sell {
        if order'.price > orderList'[maker].price {
          ListEnds(orderList', order', tradeList');
          return orderList', order', tradeList', false;
        }
      } else {
        if order'.price < orderList'[maker].price {
          ListEnds(orderList', order', tradeList');
          return orderList', order', tradeList', false;
        }
      }
      var maker', taker', trades := MakeTrade(orderList'[maker], order', tradeList');
      ListStep(orderList', order', tradeList', maker', taker');
      order', tradeList' := taker', trades;
      if maker'.amount == 0 {
        orderList' := orderList'[..maker] + orderList'[maker + 1..];
      } else {
        orderList' := orderList'[maker := maker'];
        maker := maker + 1;
      }
      if order'.amount == 0 {
        return orderList', order', tradeList', false;
      }
    }
    ListEnds(orderList', order', tradeList');
    more := true;
  }

  // A table of price levels, as one of the two sides of an order book.
  class OrderTable {
    const side: Side
    var levels: seq<seq<Order>>

    ghost predicate Valid()
      reads this
    {
      WellFormed(side, levels)
    }

    ghost function Flat(): seq<Order>
      reads this
    {
      Flatten(levels)
    }

    constructor (side: Side)
      ensures this.side == side && levels == [] && Valid()
    {
      this.side := side;
      levels := [];
    }

    // Match an incoming order level by level, erasing levels that run empty.
    method MatchOrder(order: Order) returns (order': Order, tradeList: seq<Trade>)
      requires Valid()
      modifies this
      ensures Valid()
      ensures Swept(Flat(), order', tradeList) == Sweep(old(Flat()), order)
    {
      ghost var table := levels;
      order', tradeList := order, [];
      assert After([], Sweep(Flatten(table), order)) == Sweep(Flatten(table), order);
      var it := 0;
      while it < |levels|
        invariant it == 0
        invariant WellFormed(side, levels)
        invariant Sweep(Flatten(table), order) == After(tradeList, Sweep(Flatten(levels), order'))
        decreases |levels|
      {
        TableStep(side, levels, order', tradeList);
        GoodLevelAt(side, levels, it);
        var orderList', taker', trades, more := MatchOrderFromList(levels[it], order', tradeList);
        order', tradeList := taker', trades;
        if orderList' == [] {
          levels := levels[..it] + levels[it + 1..];
        } else {
          levels := levels[it := orderList'];
          it := it + 1;
        }
        if !more {
          break;
        }
      }
    }

    // Rest an order at the end of its price level, opening the level where it belongs if need be.
    method AddToOrderTable(order: Order)
      requires Valid() && order.side == side && 0 < order.amount
      modifies this
      ensures Valid()
      ensures Flat() == Insert(old(Flat()), order)
    {
      var it := 0;
      while it < |levels|
        invariant 0 <= it <= |levels| && levels == old(levels)
        invariant forall i :: 0 <= i < it ==> Better(side, levels[i][0].price, order.price)
      {
        var orderList := levels[it];
        assert GoodLevel(side, levels[it]);
        if order.price == orderList[0].price {
          AppendedToLevel(side, levels, it, order);
          levels := levels[it := orderList + [order]];
          return;
        }
        var needCreate: bool;
        if order.side == Buy {
          needCreate := order.price > orderList[0].price;
        } else {
          needCreate := order.price < orderList[0].price;
        }
        if needCreate {
          LevelOpened(side, levels, it, order);
          levels := levels[..it] + [[order]] + levels[it..];
          return;
        }
        it := it + 1;
      }
      LevelOpened(side, levels, it, order);
      assert levels[..it] + [[order]] + levels[it..] == levels + [[order]];
      levels := levels + [[order]];
    }
  }

  lemma GoodLevelAt(side: Side, levels: seq<seq<Order>>, it: nat)
    requires WellFormed(side, levels) && it < |levels|
    ensures levels[it] != []
  {
    assert GoodLevel(side, levels[it]);
  }

  // The table after its first level was swept: without it if it ran empty, else with the rest of it.
  lemma {:induction false} HeadSwept(side: Side, levels: seq<seq<Order>>, taker: Order)
    requires WellFormed(side, levels) && levels != []
    ensures var rest := Sweep(levels[0], taker).rest;
            && (rest == [] ==> levels[..0] + levels[1..] == levels[1..] && WellFormed(side, levels[1..]))
            && (rest != [] ==>
                  && WellFormed(side, levels[0 := rest])
                  && Flatten(levels[0 := rest]) == rest + Flatten(levels[1..]))
  {
    WellFormedTail(side, levels);
    assert GoodLevel(side, levels[0]);
    if Sweep(levels[0], taker).rest != [] {
      SweptLevelIsGood(side, levels[0], taker);
      var levels' := levels[0 := Sweep(levels[0], taker).rest];
      assert levels'[1..] == levels[1..];
      forall i | 0 <= i < |levels'|
        ensures GoodLevel(side, levels'[i]) && levels'[i][0].price == levels[i][0].price
      {
        assert GoodLevel(side, levels[i]);
      }
    }
  }

  // The table after its first level was swept.
  function AfterLevel(levels: seq<seq<Order>>, rest: seq<Order>): seq<seq<Order>>
    requires levels != []
  {
    if rest == [] then levels[..0] + levels[1..] else levels[0 := rest]
  }

  // One round of the loop over a table, seen from the trades made so far.
  lemma {:induction false} TableStep(side: Side, levels: seq<seq<Order>>, taker: Order, done: seq<Trade>)
    requires WellFormed(side, levels) && levels != []
    ensures var s := Sweep(levels[0], taker);
            var levels' := AfterLevel(levels, s.rest);
            && WellFormed(side, levels')
            && After(done, Sweep(Flatten(levels), taker))
               == (if s.rest == [] && s.taker.amount != 0
                   then After(done + s.trades, Sweep(Flatten(levels'), s.taker))
                   else Swept(Flatten(levels'), s.taker, done + s.trades))
  {
    var s := Sweep(levels[0], taker);
    assert GoodLevel(side, levels[0]);
    HeadSwept(side, levels, taker);
    SweepConcat(levels[0], Flatten(levels[1..]), taker);
    AfterAfter(done, s.trades, Sweep(Flatten(levels[1..]), s.taker));
    assert [] + Flatten(levels[1..]) == Flatten(levels[1..]);
  }

  ghost predicate Passed(front: seq<Order>, order: Order) {
    forall i :: 0 <= i < |front| ==> !Better(order.side, order.price, front[i].price)
  }

  // Orders of equal or better price are passed over.
  lemma {:induction false} InsertPasses(a: seq<Order>, b: seq<Order>, order: Order)
    requires Passed(a, order)
    ensures Insert(a + b, order) == a + Insert(b, order)
  {
    if a == [] {
      assert a + b == b;
    } else {
      InsertPasses(a[1..], b, order);
      assert (a + b)[1..] == a[1..] + b;
    }
  }

  // The levels in front of position it are all better than the price.
  ghost predicate BetterBefore(side: Side, levels: seq<seq<Order>>, it: nat, price: int)
    requires it <= |levels| && WellFormed(side, levels)
  {
    forall i :: 0 <= i < it ==> GoodLevel(side, levels[i]) && Better(side, levels[i][0].price, price)
  }

  lemma FrontIsBetter(side: Side, levels: seq<seq<Order>>, it: nat, price: int, k: nat)
    requires it <= |levels| && WellFormed(side, levels) && BetterBefore(side, levels, it, price)
    requires k < |Flatten(levels[..it])|
    ensures Better(side, Flatten(levels[..it])[k].price, price)
  {
    var i, j := FlattenIndex(levels[..it], k);
    assert GoodLevel(side, levels[i]);
  }

  lemma FrontIsPassed(side: Side, levels: seq<seq<Order>>, it: nat, order: Order)
    requires it <= |levels| && WellFormed(side, levels) && order.side == side
    requires BetterBefore(side, levels, it, order.price)
    ensures Passed(Flatten(levels[..it]), order)
  {
    var front := Flatten(levels[..it]);
    forall k | 0 <= k < |front|
      ensures !Better(side, order.price, front[k].price)
    {
      FrontIsBetter(side, levels, it, order.price, k);
    }
  }

  lemma {:induction false} InsertBehind(front: seq<seq<Order>>, behind: seq<seq<Order>>, order: Order)
    requires Passed(Flatten(front), order)
    ensures Insert(Flatten(front + behind), order) == Flatten(front) + Insert(Flatten(behind), order)
  {
    FlattenConcat(front, behind);
    InsertPasses(Flatten(front), Flatten(behind), order);
  }

  lemma {:induction false} BetterPrefix(side: Side, levels: seq<seq<Order>>, it: nat, order: Order)
    requires it <= |levels| && WellFormed(side, levels) && order.side == side
    requires BetterBefore(side, levels, it, order.price)
    ensures Insert(Flatten(levels), order) == Flatten(levels[..it]) + Insert(Flatten(levels[it..]), order)
  {
    FrontIsPassed(side, levels, it, order);
    InsertBehind(levels[..it], levels[it..], order);
    SplitAt(levels, it);
  }

  lemma AppendedIsWellFormed(side: Side, levels: seq<seq<Order>>, it: nat, order: Order)
    requires it < |levels| && WellFormed(side, levels) && order.side == side && 0 < order.amount
    requires GoodLevel(side, levels[it]) && levels[it][0].price == order.price
    ensures WellFormed(side, levels[it := levels[it] + [order]])
  {
    var levels' := levels[it := levels[it] + [order]];
    forall i | 0 <= i < |levels'|
      ensures GoodLevel(side, levels'[i]) && levels'[i][0].price == levels[i][0].price
    {
      assert GoodLevel(side, levels[i]);
    }
  }

  // The levels behind a level are worse, so the order stays in front of them.
  lemma {:induction false} InsertBehindLevel(side: Side, levels: seq<seq<Order>>, it: nat, order: Order)
    requires it < |levels| && WellFormed(side, levels) && order.side == side
    requires GoodLevel(side, levels[it]) && levels[it][0].price == order.price
    ensures Insert(Flatten(levels[it..]), order) == levels[it] + ([order] + Flatten(levels[it + 1..]))
  {
    var level, behind := levels[it], levels[it + 1..];
    assert levels[it..] == [level] + behind;
    InsertPasses(level, Flatten(behind), order);
    if behind != [] {
      assert behind[0] == levels[it + 1] && GoodLevel(side, levels[it + 1]);
      assert Better(side, levels[it][0].price, levels[it + 1][0].price);
      assert Flatten(behind)[0] == behind[0][0];
    }
  }

  lemma AppendedToLevel(side: Side, levels: seq<seq<Order>>, it: nat, order: Order)
    requires it < |levels| && WellFormed(side, levels) && order.side == side && 0 < order.amount
    requires BetterBefore(side, levels, it, order.price)
    requires GoodLevel(side, levels[it]) && levels[it][0].price == order.price
    ensures var levels' := levels[it := levels[it] + [order]];
            WellFormed(side, levels') && Flatten(levels') == Insert(Flatten(levels), order)
  {
    var level, behind := levels[it], levels[it + 1..];
    var levels' := levels[it := level + [order]];
    AppendedIsWellFormed(side, levels, it, order);
    BetterPrefix(side, levels, it, order);
    InsertBehindLevel(side, levels, it, order);
    assert levels'[it..] == [level + [order]] + behind;
    Assoc(level, [order], Flatten(behind));
    FlattenConcat(levels[..it], levels'[it..]);
    assert levels' == levels[..it] + levels'[it..];
  }

  lemma LevelOpenedIsWellFormed(side: Side, levels: seq<seq<Order>>, it: nat, order: Order)
    requires it <= |levels| && WellFormed(side, levels) && order.side == side && 0 < order.amount
    requires BetterBefore(side, levels, it, order.price)
    requires it < |levels| ==> GoodLevel(side, levels[it]) && Better(side, order.price, levels[it][0].price)
    ensures WellFormed(side, levels[..it] + [[order]] + levels[it..])
  {
    var levels' := levels[..it] + [[order]] + levels[it..];
    forall i | 0 <= i < |levels'|
      ensures GoodLevel(side, levels'[i])
      ensures i < it ==> Better(side, levels'[i][0].price, order.price)
      ensures i > it ==> Better(side, order.price, levels'[i][0].price)
    {
      if i < it {
        assert levels'[i] == levels[i] && GoodLevel(side, levels[i]);
      } else if i > it {
        assert levels'[i] == levels[i - 1] && GoodLevel(side, levels[i - 1]);
        assert i > it + 1 ==> Better(side, levels[it][0].price, levels[i - 1][0].price);
      }
    }
    forall i: int, j: int | 0 <= i < j < |levels'|
      ensures Better(side, levels'[i][0].price, levels'[j][0].price)
    {
      assert GoodLevel(side, levels'[i]) && GoodLevel(side, levels'[j]);
      if j < it {
        assert levels'[i] == levels[i] && levels'[j] == levels[j];
      } else if it < i {
        assert levels'[i] == levels[i - 1] && levels'[j] == levels[j - 1];
      }
    }
  }

  lemma {:induction false} LevelOpened(side: Side, levels: seq<seq<Order>>, it: nat, order: Order)
    requires it <= |levels| && WellFormed(side, levels) && order.side == side && 0 < order.amount
    requires BetterBefore(side, levels, it, order.price)
    requires it < |levels| ==> GoodLevel(side, levels[it]) && Better(side, order.price, levels[it][0].price)
    ensures var levels' := levels[..it] + [[order]] + levels[it..];
            WellFormed(side, levels') && Flatten(levels') == Insert(Flatten(levels), order)
  {
    var front, behind := levels[..it], levels[it..];
    LevelOpenedIsWellFormed(side, levels, it, order);
    BetterPrefix(side, levels, it, order);
    if behind != [] {
      assert Flatten(behind)[0] == behind[0][0];
    }
    FlattenConcat(front + [[order]], behind);
    FlattenConcat(front, [[order]]);
    assert Flatten([[order]]) == [order];
    Assoc(Flatten(front), [order], Flatten(behind));
  }

  lemma {:induction false} SweptTakerSide(book: seq<Order>, taker: Order)
    ensures Sweep(book, taker).taker.side == taker.side
  {
    SweepShape(book, taker);
  }

  // The actor's state: both tables and the actor that receives the results. The naive engine's pile runs
  // along as a ghost.
  class OrderBook {
    const sellList: OrderTable
    const buyList: OrderTable
    var hasReceiver: bool
    var outbox: seq<seq<Trade>>
    ghost var pile: seq<Order>

    ghost predicate Valid()
      reads this, sellList, buyList
    {
      && sellList.side == Sell && buyList.side == Buy
      && sellList.Valid() && buyList.Valid()
      && Represents(Contents(), pile)
    }

    ghost function Contents(): Book
      reads this, sellList, buyList
    {
      Book(sellList.Flat(), buyList.Flat())
    }

    constructor ()
      ensures Valid() && Contents() == EMPTY_BOOK && pile == [] && outbox == [] && !hasReceiver
      ensures fresh(sellList) && fresh(buyList)
    {
      sellList := new OrderTable(Sell);
      buyList := new OrderTable(Buy);
      hasReceiver := false;
      outbox := [];
      pile := [];
    }

    method SetResultReceiver()
      requires Valid()
      modifies this`hasReceiver
      ensures Valid() && hasReceiver
    {
      hasReceiver := true;
    }

    method SendMatchResult(matchResult: seq<Trade>)
      modifies this`outbox
      ensures outbox == old(outbox) + if hasReceiver && matchResult != [] then [matchResult] else []
    {
      if |matchResult| == 0 {
        return;
      }
      if hasReceiver {
        outbox := outbox + [matchResult];
      }
    }

    // One order message. The tables do what the priority book does, which is what the naive engine does
    // unless the order asks for nothing and crosses the book.
    method Receive(order: Order) returns (tradeList: seq<Trade>)
      requires Valid()
      modifies this`pile, this`outbox, sellList, buyList
      ensures Valid()
      ensures (Contents(), tradeList) == Submit(old(Contents()), order)
      ensures pile == NaiveSubmit(old(pile), order).0
      ensures tradeList == NaiveSubmit(old(pile), order).1 <==> 0 < order.amount || NothingEligible(old(pile), order)
      ensures outbox == old(outbox) + if hasReceiver && tradeList != [] then [tradeList] else []
    {
      ghost var before := Contents();
      SweptTakerSide(before.On(order.side.Opposite()), order);
      AnyOrderRefines(before, pile, order);
      var left: Order;
      if order.side == Buy {
        left, tradeList := sellList.MatchOrder(order);
        if left.amount != 0 {
          buyList.AddToOrderTable(left);
        }
      } else {
        left, tradeList := buyList.MatchOrder(order);
        if left.amount != 0 {
          sellList.AddToOrderTable(left);
        }
      }
      pile := NaiveSubmit(pile, order).0;
      SendMatchResult(tradeList);
    }
  }

  // A whole mailbox. The resting orders are those of the naive engine, for every stream of orders; the trades
  // are too, if and only if no order for nothing crosses the book when it comes.
  method Process(actor: OrderBook, mailbox: seq<Order>) returns (trades: seq<Trade>)
    requires actor.Valid()
    modifies actor`pile, actor`outbox, actor.sellList, actor.buyList
    ensures actor.Valid()
    ensures (actor.Contents(), trades) == Run(old(actor.Contents()), mailbox)
    ensures actor.pile == NaiveRun(old(actor.pile), mailbox).0
    ensures trades == NaiveRun(old(actor.pile), mailbox).1 <==> NoIdleCrossing(old(actor.pile), mailbox)
    ensures Positive(mailbox) ==> trades == NaiveRun(old(actor.pile), mailbox).1
  {
    ghost var book, pile := actor.Contents(), actor.pile;
    trades := [];
    var i := 0;
    while i < |mailbox|
      invariant 0 <= i <= |mailbox|
      invariant actor.Valid()
      invariant (actor.Contents(), trades) == Run(book, mailbox[..i])
      invariant actor.pile == NaiveRun(pile, mailbox[..i]).0
    {
      RunOneMore(book, pile, mailbox, i);
      var more := actor.Receive(mailbox[i]);
      trades := trades + more;
      i := i + 1;
    }
    assert mailbox[..i] == mailbox;
    RunRefinesExactlyWhen(book, pile, mailbox);
    PositiveIsNeverIdle(pile, mailbox);
  }

  lemma {:induction false} RunOneMore(book: Book, pile: seq<Order>, mailbox: seq<Order>, i: nat)
    requires i < |mailbox|
    ensures var (b, trades) := Run(book, mailbox[..i]);
            Run(book, mailbox[..i + 1]) == (Submit(b, mailbox[i]).0, trades + Submit(b, mailbox[i]).1)
    ensures NaiveRun(pile, mailbox[..i + 1]).0 == NaiveSubmit(NaiveRun(pile, mailbox[..i]).0, mailbox[i]).0
  {
    assert mailbox[..i] + [mailbox[i]] == mailbox[..i + 1];
    RunConcat(book, mailbox[..i], [mailbox[i]]);
    RunOne(Run(book, mailbox[..i]).0, mailbox[i]);
    NaiveRunSnoc(pile, mailbox[..i], mailbox[i]);
  }
}
