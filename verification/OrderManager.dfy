// The order manager: it hands out ids, remembers every unfinished order with the amount concluded so
// far, and learns about trades only from the messages that the engine sends back.

module OrderManager {
  import opened Seqs
  import opened Orders

  datatype RequestSide = TradingBuy | TradingSell | TradingUnknown

  datatype Request = Request(symbol: Int32, user: Int32, side: RequestSide, amount: Amount, price: Int32)

  // An order as the manager keeps it and as it is sent to the engine.
  datatype PlacedOrder = PlacedOrder(id: int, symbol: Int32, user: Int32, side: RequestSide,
                                     amount: Amount, price: Int32, submitTime: int)

  datatype OrderStatus = OrderStatus(order: PlacedOrder, concluded: int)

  datatype Status = Unsubmitted | Submitted | SubmissionError | PartiallyConcluded | Concluded

  datatype Record = Record(order: PlacedOrder, status: Status, concluded: int)

  function Placed(id: int, request: Request, now: int): PlacedOrder {
    PlacedOrder(id, request.symbol, request.user, request.side, request.amount, request.price, now)
  }

  predicate Known(statuses: map<int, OrderStatus>, t: Trade) {
    t.makerId in statuses && t.takerId in statuses
  }

  // Is the order used up by the trade?
  predicate Finishes(status: OrderStatus, t: Trade, id: int) {
    && (id == t.makerId || id == t.takerId)
    && status.order.amount <= status.concluded + Credit(t, id)
  }

  // The table after a trade message: both orders are credited, and those that are used up are gone. A
  // message naming an order that is not in the table changes nothing.
  function AfterTrade(statuses: map<int, OrderStatus>, t: Trade): map<int, OrderStatus> {
    if Known(statuses, t) then
      map id | id in statuses && !Finishes(statuses[id], t, id)
        :: statuses[id].(concluded := statuses[id].concluded + Credit(t, id))
    else
      statuses
  }

  function TradeRecord(statuses: map<int, OrderStatus>, t: Trade, id: int): Record
    requires id in statuses
  {
    Record(statuses[id].order,
           if Finishes(statuses[id], t, id) then Concluded else PartiallyConcluded,
           statuses[id].concluded + Credit(t, id))
  }

  // What a trade message makes the manager persist: the maker's new status, then the taker's.
  function TradeRecords(statuses: map<int, OrderStatus>, t: Trade): seq<Record> {
    if Known(statuses, t) then [TradeRecord(statuses, t, t.makerId), TradeRecord(statuses, t, t.takerId)] else []
  }

  // The same in plain terms, for two different orders.
  lemma TradeMeans(statuses: map<int, OrderStatus>, t: Trade)
    requires Known(statuses, t) && t.makerId != t.takerId
    ensures var maker, taker := statuses[t.makerId], statuses[t.takerId];
            var makerNow, takerNow := maker.concluded + t.amount, taker.concluded + t.amount;
            var after := AfterTrade(statuses, t);
            && (t.makerId in after <==> makerNow < maker.order.amount)
            && (t.makerId in after ==> after[t.makerId] == OrderStatus(maker.order, makerNow))
            && (t.takerId in after <==> takerNow < taker.order.amount)
            && (t.takerId in after ==> after[t.takerId] == OrderStatus(taker.order, takerNow))
            && (forall id :: id != t.makerId && id != t.takerId ==>
                  && (id in after <==> id in statuses)
                  && (id in statuses ==> after[id] == statuses[id]))
            && TradeRecords(statuses, t)
               == [Record(maker.order, if t.makerId in after then PartiallyConcluded else Concluded, makerNow),
                   Record(taker.order, if t.takerId in after then PartiallyConcluded else Concluded, takerNow)]
  {
    forall id | id in statuses
      ensures Credit(t, id) == if id == t.makerId || id == t.takerId then t.amount else 0
    {}
  }

  // Both orders of a known trade credited, before those that are used up are erased.
  function Credited(statuses: map<int, OrderStatus>, t: Trade): map<int, OrderStatus> {
    map id | id in statuses :: statuses[id].(concluded := statuses[id].concluded + Credit(t, id))
  }

  predicate UsedUp(status: OrderStatus) {
    status.order.amount <= status.concluded
  }

  function ErasedIf(statuses: map<int, OrderStatus>, used: bool, id: int): map<int, OrderStatus> {
    if used then statuses - {id} else statuses
  }

  lemma CreditedOneByOne(statuses: map<int, OrderStatus>, t: Trade)
    requires Known(statuses, t)
    ensures var maker := statuses[t.makerId];
            var once := statuses[t.makerId := maker.(concluded := maker.concluded + t.amount)];
            var taker := once[t.takerId];
            once[t.takerId := taker.(concluded := taker.concluded + t.amount)] == Credited(statuses, t)
  {}

  lemma ErasedOneByOne(statuses: map<int, OrderStatus>, t: Trade)
    requires Known(statuses, t)
    ensures var credited := Credited(statuses, t);
            ErasedIf(ErasedIf(credited, UsedUp(credited[t.makerId]), t.makerId),
                     UsedUp(credited[t.takerId]), t.takerId)
            == AfterTrade(statuses, t)
  {}

  // What the engine answers, and what the client is told.
  datatype Reply = NoEngine | StatusSuccess | StatusError

  datatype ErrorCode = SUCCESS | FAILURE

  datatype Response = Response(errorCode: ErrorCode, message: string)

  class OrderManagerService {
    var orderId: int
    var orderIdToOrderStatus: map<int, OrderStatus>
    var store: seq<Record>
    var testModeIsOpen: bool

    constructor ()
      ensures orderId == 0 && orderIdToOrderStatus == map[] && store == [] && !testModeIsOpen
    {
      orderId := 0;
      orderIdToOrderStatus := map[];
      store := [];
      testModeIsOpen := false;
    }

    method BuildOrder(request: Request, now: int) returns (order: PlacedOrder)
      modifies this`orderId
      ensures orderId == old(orderId) + 1
      ensures order == Placed(orderId, request, now)
      ensures (order.id, order.symbol, order.user, order.side, order.amount, order.price, order.submitTime)
              == (orderId, request.symbol, request.user, request.side, request.amount, request.price, now)
    {
      orderId := orderId + 1;
      order := PlacedOrder(orderId, request.symbol, request.user, request.side, request.amount, request.price, now);
    }

    method SaveOrderStatus(order: PlacedOrder)
      modifies this`orderIdToOrderStatus
      ensures orderIdToOrderStatus == old(orderIdToOrderStatus)[order.id := OrderStatus(order, 0)]
    {
      orderIdToOrderStatus := orderIdToOrderStatus[order.id := OrderStatus(order, 0)];
    }

    // The record is handed to the database, which answers whether it could be written.
    method PersistOrder(order: PlacedOrder, status: Status, concluded: int, written: int) returns (ret: int)
      modifies this`store
      ensures store == old(store) + [Record(order, status, concluded)] && ret == written
    {
      store := store + [Record(order, status, concluded)];
      ret := written;
    }

    // A new id, an entry with nothing concluded, and one record before and one after the engine answers.
    // The record of an order whose submission the engine refused says so; its entry stays. The client is told
    // whether that second record could be written (zero means yes), not what the engine answered.
    method PlaceOrder(request: Request, now: int, reply: Reply, written: int)
      returns (order: PlacedOrder, response: Response)
      modifies this`orderId, this`orderIdToOrderStatus, this`store
      ensures orderId == old(orderId) + 1 && order == Placed(orderId, request, now)
      ensures (order.id, order.symbol, order.user, order.side, order.amount, order.price, order.submitTime)
              == (orderId, request.symbol, request.user, request.side, request.amount, request.price, now)
      ensures orderIdToOrderStatus == old(orderIdToOrderStatus)[orderId := OrderStatus(order, 0)]
      ensures testModeIsOpen ==> store == old(store)
      ensures !testModeIsOpen ==>
                store == old(store) + [Record(order, Unsubmitted, 0)]
                + match reply
                  case NoEngine => []
                  case StatusSuccess => [Record(order, Submitted, 0)]
                  case StatusError => [Record(order, SubmissionError, 0)]
      ensures response.errorCode == FAILURE <==> !testModeIsOpen && reply != NoEngine && written != 0
      ensures response.message == if testModeIsOpen || reply == NoEngine then ""
                                  else if written == 0 then "order submitted" else "order submission error"
    {
      response := Response(SUCCESS, "");
      order := BuildOrder(request, now);
      SaveOrderStatus(order);
      if !testModeIsOpen {
        var _ := PersistOrder(order, Unsubmitted, 0, 0);
      }
      if reply != NoEngine {
        if testModeIsOpen {
          return;
        }
        var ret;
        if reply != StatusSuccess {
          ret := PersistOrder(order, SubmissionError, 0, written);
        } else {
          ret := PersistOrder(order, Submitted, 0, written);
        }
        if ret == 0 {
          response := Response(SUCCESS, "order submitted");
        } else {
          response := Response(FAILURE, "order submission error");
        }
      }
    }

    // What is done to the table under the lock, and what is then to be persisted.
    method CreditAndErase(trade: Trade)
      returns (orderExists: bool, makerOrder: PlacedOrder, makerConcluded: bool, makerAmount: int,
               takerOrder: PlacedOrder, takerConcluded: bool, takerAmount: int)
      modifies this`orderIdToOrderStatus
      ensures orderIdToOrderStatus == AfterTrade(old(orderIdToOrderStatus), trade)
      ensures orderExists <==> Known(old(orderIdToOrderStatus), trade)
      ensures orderExists ==>
                TradeRecords(old(orderIdToOrderStatus), trade)
                == [Record(makerOrder, if makerConcluded then Concluded else PartiallyConcluded, makerAmount),
                    Record(takerOrder, if takerConcluded then Concluded else PartiallyConcluded, takerAmount)]
    {
      ghost var was := orderIdToOrderStatus;
      orderExists, makerConcluded, takerConcluded := false, false, false;
      makerAmount, takerAmount := 0, 0;
      makerOrder, takerOrder := PlacedOrder(0, 0, 0, TradingUnknown, 0, 0, 0),
                                PlacedOrder(0, 0, 0, TradingUnknown, 0, 0, 0);
      if trade.makerId in orderIdToOrderStatus && trade.takerId in orderIdToOrderStatus {
        orderExists := true;
        var maker := orderIdToOrderStatus[trade.makerId];
        orderIdToOrderStatus :=
          orderIdToOrderStatus[trade.makerId := maker.(concluded := maker.concluded + trade.amount)];
        var taker := orderIdToOrderStatus[trade.takerId];
        orderIdToOrderStatus :=
          orderIdToOrderStatus[trade.takerId := taker.(concluded := taker.concluded + trade.amount)];
        CreditedOneByOne(was, trade);
        makerOrder := orderIdToOrderStatus[trade.makerId].order;
        takerOrder := orderIdToOrderStatus[trade.takerId].order;
        makerAmount := orderIdToOrderStatus[trade.makerId].concluded;
        takerAmount := orderIdToOrderStatus[trade.takerId].concluded;
        ErasedOneByOne(was, trade);
        if makerOrder.amount <= makerAmount {
          makerConcluded := true;
          orderIdToOrderStatus := orderIdToOrderStatus - {trade.makerId};
        }
        if takerOrder.amount <= takerAmount {
          takerConcluded := true;
          orderIdToOrderStatus := orderIdToOrderStatus - {trade.takerId};
        }
      }
    }

    method HandleMatchResult(trade: Trade)
      modifies this`orderIdToOrderStatus, this`store
      ensures orderIdToOrderStatus == AfterTrade(old(orderIdToOrderStatus), trade)
      ensures store == old(store) + if testModeIsOpen then [] else TradeRecords(old(orderIdToOrderStatus), trade)
    {
      var orderExists, makerOrder, makerConcluded, makerAmount, takerOrder, takerConcluded, takerAmount :=
        CreditAndErase(trade);
      if testModeIsOpen {
        return;
      }
      if orderExists {
        var _ := PersistOrder(makerOrder, if makerConcluded then Concluded else PartiallyConcluded, makerAmount, 0);
        var _ := PersistOrder(takerOrder, if takerConcluded then Concluded else PartiallyConcluded, takerAmount, 0);
      }
    }
  }
}
