// The pipeline end to end: the trades of two runs of the same order file, stored by the persistence tool
// and compared by the data verifier, always pass, however differently the runs were scheduled.

module VerifiedSchedules {
  import opened Seqs
  import opened Orders
  import opened OrderManager
  import opened PriceTime
  import opened Generator
  import opened Schedule
  import opened DataVerifier
  import Decimal

  // The row stored for a trade, under whatever trade id and time.
  predicate Stores(r: Row, t: Trade) {
    && r.amount == Decimal.ToString(t.amount)
    && r.price == Decimal.ToString(t.price)
    && r.buyUserId == Decimal.ToString(t.buyer)
    && r.sellUserId == Decimal.ToString(t.seller)
    && r.symbolId == Decimal.ToString(t.symbol)
    && r.buyOrderId == Decimal.ToString(if t.side.Buy? then t.takerId else t.makerId)
    && r.sellOrderId == Decimal.ToString(if t.side.Buy? then t.makerId else t.takerId)
    && r.submitTime == Decimal.ToString(t.submitTime)
  }

  ghost predicate Stored(rows: seq<Row>, trades: seq<Trade>) {
    |rows| == |trades| && forall i :: 0 <= i < |rows| ==> Stores(rows[i], trades[i])
  }

  // Rows for these trades, stored in any order.
  ghost predicate StoredInSomeOrder(rows: seq<Row>, trades: seq<Trade>) {
    exists arranged :: Shuffled(arranged, rows) && Stored(arranged, trades)
  }

  ghost predicate Shuffled(rows: seq<Row>, rows': seq<Row>) {
    multiset(rows) == multiset(rows')
  }

  // What is compared of one symbol's rows.
  function FieldsOf(rows: seq<Row>, y: string): seq<Fields> {
    ComparedAll(Select(rows, RowSymbol, y))
  }

  lemma FieldsConcat(a: seq<Row>, b: seq<Row>, y: string)
    ensures FieldsOf(a + b, y) == FieldsOf(a, y) + FieldsOf(b, y)
  {
    SelectConcat(a, b, RowSymbol, y);
    MapConcat(Compared, Select(a, RowSymbol, y), Select(b, RowSymbol, y));
  }

  // What is left of a shuffled copy without the first row.
  lemma FirstTaken(rows: seq<Row>, rows': seq<Row>) returns (left: seq<Row>, right: seq<Row>)
    requires rows != [] && Shuffled(rows, rows')
    ensures rows' == left + ([rows[0]] + right) && Shuffled(rows[1..], left + right)
  {
    assert rows[0] in multiset(rows');
    var j :| 0 <= j < |rows'| && rows'[j] == rows[0];
    left, right := rows'[..j], rows'[j + 1..];
    assert rows == [rows[0]] + rows[1..] && rows' == left + ([rows[0]] + right);
    assert multiset(rows) == multiset([rows[0]]) + multiset(rows[1..]);
    assert multiset(rows') == multiset(left) + (multiset([rows[0]]) + multiset(right));
    assert multiset(left + right) == multiset(left) + multiset(right);
    TakenFromBoth(multiset([rows[0]]), multiset(rows[1..]), multiset(left), multiset(right));
  }

  lemma TakenFromBoth(x: multiset<Row>, a: multiset<Row>, l: multiset<Row>, r: multiset<Row>)
    requires x + a == l + (x + r)
    ensures a == l + r
  {
    forall v: Row
      ensures a[v] == (l + r)[v]
    {
      assert (x + a)[v] == (l + (x + r))[v];
    }
  }

  lemma FieldsInserted(left: seq<Row>, row: Row, right: seq<Row>, y: string)
    ensures multiset(FieldsOf(left + ([row] + right), y))
            == multiset(FieldsOf([row], y)) + multiset(FieldsOf(left + right, y))
  {
    FieldsConcat(left, [row] + right, y);
    FieldsConcat([row], right, y);
    FieldsConcat(left, right, y);
  }

  lemma {:induction false} ShuffledFields(rows: seq<Row>, rows': seq<Row>, y: string)
    requires Shuffled(rows, rows')
    ensures multiset(FieldsOf(rows, y)) == multiset(FieldsOf(rows', y))
  {
    if rows == [] {
      assert |multiset(rows')| == 0;
    } else {
      var left, right := FirstTaken(rows, rows');
      ShuffledFields(rows[1..], left + right, y);
      FieldsInserted(left, rows[0], right, y);
      assert rows == [rows[0]] + rows[1..];
      FieldsConcat([rows[0]], rows[1..], y);
    }
  }

  lemma {:induction false} StoredBySymbol(rows: seq<Row>, trades: seq<Trade>, y: int)
    requires Stored(rows, trades)
    ensures Stored(Select(rows, RowSymbol, Decimal.ToString(y)), Select(trades, TradeSymbol, y))
  {
    if rows != [] {
      StoredBySymbol(rows[1..], trades[1..], y);
      if RowSymbol(rows[0]) == Decimal.ToString(y) {
        Decimal.Injective(trades[0].symbol, y);
      }
    }
  }

  // Trades that agree except for ids and times are stored as rows that compare equal.
  lemma {:induction false} SameTradesSameFields(rows: seq<Row>, trades: seq<Trade>,
                                                rows': seq<Row>, trades': seq<Trade>)
    requires Stored(rows, trades) && Stored(rows', trades')
    requires SameTrades(trades, trades')
    ensures ComparedAll(rows) == ComparedAll(rows')
  {
    MapAt(Compared, rows);
    MapAt(Compared, rows');
    assert forall i :: 0 <= i < |rows| ==> Compared(rows[i]) == Compared(rows'[i]);
  }

  lemma {:induction false} RouteSymbols(books: map<int, Book>, orders: seq<Order>, i: nat)
    requires i < |Route(books, orders).1|
    ensures Route(books, orders).1[i].symbol in books
  {
    var trades := Route(books, orders).1;
    RouteBySymbol(books, orders, trades[i].symbol);
    if trades[i].symbol !in books {
      SelectHas(trades, TradeSymbol, i);
    }
  }

  lemma SymbolOccurs(rows: seq<Row>, arranged: seq<Row>, i: nat) returns (j: nat)
    requires Shuffled(arranged, rows) && i < |rows|
    ensures j < |arranged| && arranged[j] == rows[i]
  {
    assert rows[i] in multiset(arranged);
    j :| 0 <= j < |arranged| && arranged[j] == rows[i];
  }

  lemma ArrangedPermuted(input: seq<Request>, symbols: set<int>, y: int,
                         r: FileRun, rows: seq<Row>, r': FileRun, rows': seq<Row>)
    requires Sends(r, input) && Sends(r', input)
    requires Stored(rows, Outcome(symbols, r.placed).1) && Stored(rows', Outcome(symbols, r'.placed).1)
    requires y in symbols
    ensures FieldsOf(rows, Decimal.ToString(y)) == FieldsOf(rows', Decimal.ToString(y))
  {
    var trades, trades' := Outcome(symbols, r.placed).1, Outcome(symbols, r'.placed).1;
    ScheduleIndependence(input, symbols, y, r, r');
    StoredBySymbol(rows, trades, y);
    StoredBySymbol(rows', trades', y);
    var text := Decimal.ToString(y);
    SameTradesSameFields(Select(rows, RowSymbol, text), Select(trades, TradeSymbol, y),
                         Select(rows', RowSymbol, text), Select(trades', TradeSymbol, y));
  }

  // The verifier never reports a difference between two runs of one order file that made any trade, in
  // whatever order the trades of either run were stored.
  lemma TwoRunsVerify(input: seq<Request>, symbols: set<int>, r: FileRun, rows: seq<Row>, r': FileRun, rows': seq<Row>)
    requires Sends(r, input) && Sends(r', input)
    requires StoredInSomeOrder(rows, Outcome(symbols, r.placed).1)
    requires StoredInSomeOrder(rows', Outcome(symbols, r'.placed).1)
    requires rows != [] || rows' != []
    ensures Verdict(rows, rows')
  {
    var trades, trades' := Outcome(symbols, r.placed).1, Outcome(symbols, r'.placed).1;
    var arranged :| Shuffled(arranged, rows) && Stored(arranged, trades);
    var arranged' :| Shuffled(arranged', rows') && Stored(arranged', trades');
    forall i | 0 <= i < |rows|
      ensures Permuted(rows, rows', rows[i].symbolId)
    {
      var j := SymbolOccurs(rows, arranged, i);
      var y := trades[j].symbol;
      RouteSymbols(map z | z in symbols :: EMPTY_BOOK, Accepted(r.placed), j);
      ArrangedPermuted(input, symbols, y, r, arranged, r', arranged');
      ShuffledFields(arranged, rows, rows[i].symbolId);
      ShuffledFields(arranged', rows', rows[i].symbolId);
    }
    NoFalseAlarm(rows, rows');
  }
}
