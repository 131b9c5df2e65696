// The records that travel through the trading pipeline, and the bookkeeping functions over them
// that every other module shares.

module Orders {
  import opened Seqs

  type Int32 = x: int | -0x8000_0000 <= x <= 0x7FFF_FFFF

  // An int32 order amount that is not negative.
  type Amount = x: int | 0 <= x <= 0x7FFF_FFFF

  datatype Side = Buy | Sell {
    function Opposite(): Side {
      if Buy? then Sell else Buy
    }
  }

  datatype Order = Order(id: int, symbol: Int32, user: Int32, side: Side, amount: Amount, price: Int32, submitTime: int)

  datatype Trade = Trade(makerId: int, takerId: int, side: Side, amount: Amount, price: Int32,
                         seller: Int32, buyer: Int32, symbol: Int32, submitTime: int)

  // Would the incoming order accept a resting order at this price?
  predicate Crosses(taker: Order, price: int) {
    if taker.side.Sell? then taker.price <= price else price <= taker.price
  }

  // Among resting orders of one side, does price p have priority over price q?
  predicate Better(side: Side, p: int, q: int) {
    if side.Sell? then p < q else p > q
  }

  function Slot(o: Order, side: Side, price: int): seq<Order> {
    if o.side == side && o.price == price then [o] else []
  }

  // The orders of one side resting at one price, in the order they appear.
  function Level(orders: seq<Order>, side: Side, price: int): seq<Order> {
    if orders == [] then [] else Slot(orders[0], side, price) + Level(orders[1..], side, price)
  }

  // Total amount of the orders carrying this id.
  function AmountOf(orders: seq<Order>, id: int): nat {
    if orders == [] then 0
    else (if orders[0].id == id then orders[0].amount else 0) + AmountOf(orders[1..], id)
  }

  // Total amount of the orders on one side.
  function AmountOn(orders: seq<Order>, side: Side): nat {
    if orders == [] then 0
    else (if orders[0].side == side then orders[0].amount else 0) + AmountOn(orders[1..], side)
  }

  // The amount one trade executes for an order id, as maker and as taker.
  function Credit(t: Trade, id: int): nat {
    (if t.makerId == id then t.amount else 0) + (if t.takerId == id then t.amount else 0)
  }

  function Traded(trades: seq<Trade>, id: int): nat {
    if trades == [] then 0 else Credit(trades[0], id) + Traded(trades[1..], id)
  }

  function Volume(trades: seq<Trade>): nat {
    if trades == [] then 0 else trades[0].amount + Volume(trades[1..])
  }

  function OrderSymbol(o: Order): int { o.symbol }

  function TradeSymbol(t: Trade): int { t.symbol }

  lemma {:induction false} LevelConcat(a: seq<Order>, b: seq<Order>, side: Side, price: int)
    ensures Level(a + b, side, price) == Level(a, side, price) + Level(b, side, price)
  {
    if a == [] {
      assert a + b == b;
    } else {
      LevelConcat(a[1..], b, side, price);
      assert (a + b)[1..] == a[1..] + b;
      Assoc(Slot(a[0], side, price), Level(a[1..], side, price), Level(b, side, price));
    }
  }

  // A level seen around one position of the list.
  lemma LevelAround(orders: seq<Order>, k: nat, o: Order, side: Side, price: int)
    requires k < |orders|
    ensures var before, after := Level(orders[..k], side, price), Level(orders[k + 1..], side, price);
            && Level(orders, side, price) == before + (Slot(orders[k], side, price) + after)
            && Level(orders[k := o], side, price) == before + (Slot(o, side, price) + after)
            && Level(orders[..k] + orders[k + 1..], side, price) == before + after
  {
    assert orders == orders[..k] + orders[k..] && orders[k..][1..] == orders[k + 1..];
    LevelConcat(orders[..k], orders[k..], side, price);
    var changed := [o] + orders[k + 1..];
    assert orders[k := o] == orders[..k] + changed && changed[1..] == orders[k + 1..];
    LevelConcat(orders[..k], changed, side, price);
    LevelConcat(orders[..k], orders[k + 1..], side, price);
  }

  lemma {:induction false} LevelEmpty(orders: seq<Order>, side: Side, price: int)
    requires forall o :: o in orders ==> o.side != side || o.price != price
    ensures Level(orders, side, price) == []
  {
    if orders != [] {
      LevelEmpty(orders[1..], side, price);
    }
  }

  lemma {:induction false} AmountOfConcat(a: seq<Order>, b: seq<Order>, id: int)
    ensures AmountOf(a + b, id) == AmountOf(a, id) + AmountOf(b, id)
  {
    if a == [] {
      assert a + b == b;
    } else {
      AmountOfConcat(a[1..], b, id);
      assert (a + b)[1..] == a[1..] + b;
    }
  }

  lemma {:induction false} TradedConcat(a: seq<Trade>, b: seq<Trade>, id: int)
    ensures Traded(a + b, id) == Traded(a, id) + Traded(b, id)
  {
    if a == [] {
      assert a + b == b;
    } else {
      TradedConcat(a[1..], b, id);
      assert (a + b)[1..] == a[1..] + b;
    }
  }

  lemma {:induction false} VolumeConcat(a: seq<Trade>, b: seq<Trade>)
    ensures Volume(a + b) == Volume(a) + Volume(b)
  {
    if a == [] {
      assert a + b == b;
    } else {
      VolumeConcat(a[1..], b);
      assert (a + b)[1..] == a[1..] + b;
    }
  }
}
