// The data verifier in its default mode: it compares the trades that two engines left in two databases
// symbol by symbol, with a cancellation of what does not match in place.

module DataVerifier {
  import opened Seqs
  import opened Orders

  // A stored trade. The text fields are as the database returns them.
  datatype Row = Row(time: int, amount: string, buyOrderId: string, buyUserId: string, price: string,
                     sellOrderId: string, sellUserId: string, submitTime: string, symbolId: string, tradeId: string)

  datatype Fields = Fields(amount: string, buyUserId: string, price: string, sellUserId: string, symbolId: string)

  // What counts when trades are compared: not the order ids, not the times.
  function Compared(r: Row): Fields {
    Fields(r.amount, r.buyUserId, r.price, r.sellUserId, r.symbolId)
  }

  predicate CompareTradeJsonElement(source: Row, target: Row): (same: bool)
    ensures same <==>
              && source.amount == target.amount
              && source.buyUserId == target.buyUserId
              && source.price == target.price
              && source.sellUserId == target.sellUserId
              && source.symbolId == target.symbolId
    ensures same <==> Compared(source) == Compared(target)
  {
    if source.amount != target.amount then false
    else if source.buyUserId != target.buyUserId then false
    else if source.price != target.price then false
    else if source.sellUserId != target.sellUserId then false
    else if source.symbolId != target.symbolId then false
    else true
  }

  // The key under which an unmatched row waits for its counterpart.
  function Key(r: Row): string {
    r.amount + ":" + r.buyUserId + ":" + r.price + ":" + r.sellUserId
  }

  function RowSymbol(r: Row): string { r.symbolId }

  // ---------------------------------------------------------------- grouping by symbol

  ghost predicate Occurs(rows: seq<Row>, y: string) {
    exists j :: 0 <= j < |rows| && rows[j].symbolId == y
  }

  ghost predicate Grouped(rows: seq<Row>, groups: map<string, seq<Row>>) {
    && (forall y :: y in groups <==> Occurs(rows, y))
    && (forall y :: y in groups ==> groups[y] == Select(rows, RowSymbol, y))
  }

  method ExtractValuesElementBySymbol(rows: seq<Row>) returns (groups: map<string, seq<Row>>)
    ensures Grouped(rows, groups)
  {
    groups := map[];
    GroupedNone(rows);
    var i := 0;
    while i < |rows|
      invariant 0 <= i <= |rows|
      invariant Grouped(rows[..i], groups)
    {
      GroupedNext(rows, i, groups);
      var row := rows[i];
      groups := groups[row.symbolId := (if row.symbolId in groups then groups[row.symbolId] else []) + [row]];
      i := i + 1;
    }
    WholeSeq(rows, i);
  }

  lemma WholeSeq(rows: seq<Row>, n: nat)
    requires n == |rows|
    ensures rows[..n] == rows
  {}

  lemma GroupedNone(rows: seq<Row>)
    ensures Grouped(rows[..0], map[])
  {}

  function WithRow(groups: map<string, seq<Row>>, row: Row): map<string, seq<Row>> {
    groups[row.symbolId := (if row.symbolId in groups then groups[row.symbolId] else []) + [row]]
  }

  lemma GroupedNext(rows: seq<Row>, i: nat, groups: map<string, seq<Row>>)
    requires i < |rows| && Grouped(rows[..i], groups)
    ensures Grouped(rows[..i + 1], WithRow(groups, rows[i]))
  {
    GroupedSnoc(rows[..i], groups, rows[i]);
    assert rows[..i] + [rows[i]] == rows[..i + 1];
  }

  lemma {:induction false} SelectSnoc(rows: seq<Row>, row: Row, y: string)
    ensures Select(rows + [row], RowSymbol, y)
            == Select(rows, RowSymbol, y) + if row.symbolId == y then [row] else []
  {
    SelectConcat(rows, [row], RowSymbol, y);
    assert Select([row], RowSymbol, y) == if row.symbolId == y then [row] else [];
  }

  lemma OccursSnoc(rows: seq<Row>, row: Row, y: string)
    ensures Occurs(rows + [row], y) <==> Occurs(rows, y) || row.symbolId == y
  {
    var rows' := rows + [row];
    assert rows'[|rows|] == row;
    if i :| 0 <= i < |rows| && rows[i].symbolId == y {
      assert rows'[i].symbolId == y;
    }
  }

  lemma {:induction false} SelectAbsent(rows: seq<Row>, y: string)
    requires !Occurs(rows, y)
    ensures Select(rows, RowSymbol, y) == []
  {
    forall i | 0 <= i < |rows|
      ensures RowSymbol(rows[i]) != y
    {}
    SelectNone(rows, RowSymbol, y);
  }

  lemma GroupedSnoc(rows: seq<Row>, groups: map<string, seq<Row>>, row: Row)
    requires Grouped(rows, groups)
    ensures Grouped(rows + [row], WithRow(groups, row))
  {
    forall y: string
      ensures Select(rows + [row], RowSymbol, y)
              == Select(rows, RowSymbol, y) + if row.symbolId == y then [row] else []
      ensures Occurs(rows + [row], y) <==> Occurs(rows, y) || row.symbolId == y
    {
      SelectSnoc(rows, row, y);
      OccursSnoc(rows, row, y);
    }
    if row.symbolId !in groups {
      SelectAbsent(rows, row.symbolId);
    }
  }

  // ---------------------------------------------------------------- comparison by symbol

  // Do the rows at this position differ?
  predicate Differ(a: seq<Row>, b: seq<Row>, i: int)
    requires 0 <= i < |a| && i < |b|
  {
    !CompareTradeJsonElement(a[i], b[i])
  }

  // Every row of A that differs from B's row in its place has its key somewhere among the rows of B that
  // differ. Whatever one side has beyond the other's end is not looked at.
  ghost predicate SymbolPasses(a: seq<Row>, b: seq<Row>) {
    forall i {:trigger Key(a[i])} ::
      0 <= i < |a| && i < |b| && Differ(a, b, i) ==> Waits(a, b, Key(a[i]), Min(|a|, |b|))
  }

  ghost predicate Waits(a: seq<Row>, b: seq<Row>, k: string, n: int)
    requires n <= |a| && n <= |b|
  {
    exists j :: 0 <= j < n && Differ(a, b, j) && Key(b[j]) == k
  }

  ghost predicate WaitsA(a: seq<Row>, b: seq<Row>, k: string, n: int)
    requires n <= |a| && n <= |b|
  {
    exists j :: 0 <= j < n && Differ(a, b, j) && Key(a[j]) == k
  }

  ghost predicate Passes(a: map<string, seq<Row>>, b: map<string, seq<Row>>, y: string)
    requires y in a
  {
    y in b && SymbolPasses(a[y], b[y])
  }

  lemma WaitsOneMore(a: seq<Row>, b: seq<Row>, k: string, n: int)
    requires 0 <= n < |a| && n < |b|
    ensures WaitsA(a, b, k, n + 1) <==> WaitsA(a, b, k, n) || (Differ(a, b, n) && Key(a[n]) == k)
    ensures Waits(a, b, k, n + 1) <==> Waits(a, b, k, n) || (Differ(a, b, n) && Key(b[n]) == k)
  {}

  lemma PassesByKeys(a: seq<Row>, b: seq<Row>, n: int)
    requires n == Min(|a|, |b|)
    ensures SymbolPasses(a, b) <==> forall k :: WaitsA(a, b, k, n) ==> Waits(a, b, k, n)
  {
    if forall k :: WaitsA(a, b, k, n) ==> Waits(a, b, k, n) {
      forall j | 0 <= j < |a| && j < |b| && Differ(a, b, j)
        ensures Waits(a, b, Key(a[j]), n)
      {
        assert WaitsA(a, b, Key(a[j]), n);
      }
    }
  }

  // Erase from both maps what appears in both; something of A left over is an inconsistency.
  method CancelUnmatched(unmatchedA: map<string, Row>, unmatchedB: map<string, Row>) returns (inconsistencyFound: bool)
    ensures !inconsistencyFound <==> unmatchedA.Keys <= unmatchedB.Keys
  {
    inconsistencyFound := false;
    var restA, restB, todo := unmatchedA, unmatchedB, unmatchedA.Keys;
    while todo != {}
      invariant todo <= restA.Keys <= unmatchedA.Keys
      invariant restB.Keys <= unmatchedB.Keys
      invariant forall k :: k in todo && k in unmatchedB ==> k in restB
      invariant !inconsistencyFound <==> unmatchedA.Keys - todo <= unmatchedB.Keys
      decreases todo
    {
      var k :| k in todo;
      if k !in restB {
        inconsistencyFound := true;
      } else {
        restA := restA - {k};
        restB := restB - {k};
      }
      todo := todo - {k};
    }
    assert unmatchedA.Keys - todo == unmatchedA.Keys;
  }

  method CompareSymbol(a: seq<Row>, b: seq<Row>) returns (inconsistencyFound: bool)
    ensures !inconsistencyFound <==> SymbolPasses(a, b)
  {
    inconsistencyFound := false;
    var unmatchedA: map<string, Row> := map[];
    var unmatchedB: map<string, Row> := map[];
    var n := Min(|a|, |b|);
    var i := 0;
    while i < n
      invariant 0 <= i <= n
      invariant forall k :: k in unmatchedA <==> WaitsA(a, b, k, i)
      invariant forall k :: k in unmatchedB <==> Waits(a, b, k, i)
    {
      forall k: string {
        WaitsOneMore(a, b, k, i);
      }
      if !CompareTradeJsonElement(a[i], b[i]) {
        unmatchedA := unmatchedA[Key(a[i]) := a[i]];
        unmatchedB := unmatchedB[Key(b[i]) := b[i]];
      }
      i := i + 1;
    }
    PassesByKeys(a, b, n);
    if unmatchedA != map[] || unmatchedB != map[] {
      inconsistencyFound := CancelUnmatched(unmatchedA, unmatchedB);
    }
  }

  // The exact verdict: symbols of B that A does not have are never looked at.
  method VerifyEqualityForOrderedBySymbolDataSource(a: map<string, seq<Row>>, b: map<string, seq<Row>>)
    returns (equal: bool)
    ensures equal <==> forall y :: y in a ==> Passes(a, b, y)
  {
    var inconsistencyFound := false;
    var todo := a.Keys;
    while todo != {}
      invariant todo <= a.Keys
      invariant !inconsistencyFound <==> forall y :: y in a && y !in todo ==> Passes(a, b, y)
      decreases todo
    {
      var y :| y in todo;
      todo := todo - {y};
      if y !in b {
        inconsistencyFound := true;
        assert !Passes(a, b, y);
        continue;
      }
      var found := CompareSymbol(a[y], b[y]);
      assert Passes(a, b, y) <==> !found;
      if found {
        inconsistencyFound := true;
      }
    }
    equal := !inconsistencyFound;
  }

  // The verdict in terms of the stored rows.
  ghost predicate Verdict(a: seq<Row>, b: seq<Row>) {
    && (a != [] || b != [])
    && forall i :: 0 <= i < |a| ==> RowPasses(a, b, i)
  }

  // The symbol of a row of A occurs in B, and its rows pass.
  ghost predicate RowPasses(a: seq<Row>, b: seq<Row>, i: nat)
    requires i < |a|
  {
    && Occurs(b, a[i].symbolId)
    && SymbolPasses(Select(a, RowSymbol, a[i].symbolId), Select(b, RowSymbol, a[i].symbolId))
  }

  // Verification in its default mode: ordered by symbol, everything in one turn.
  method VerifyEquality(a: seq<Row>, b: seq<Row>) returns (equal: bool)
    ensures equal <==> Verdict(a, b)
  {
    if |a| == 0 && |b| == 0 {
      return false;
    }
    var groupsA := ExtractValuesElementBySymbol(a);
    var groupsB := ExtractValuesElementBySymbol(b);
    equal := VerifyEqualityForOrderedBySymbolDataSource(groupsA, groupsB);
    forall i | 0 <= i < |a| {
      PassesInGroups(a, b, groupsA, groupsB, i);
    }
    forall y | y in groupsA
      ensures Occurs(a, y)
    {}
  }

  lemma PassesInGroups(a: seq<Row>, b: seq<Row>, groupsA: map<string, seq<Row>>, groupsB: map<string, seq<Row>>, i: nat)
    requires i < |a| && Grouped(a, groupsA) && Grouped(b, groupsB)
    ensures a[i].symbolId in groupsA
    ensures Passes(groupsA, groupsB, a[i].symbolId) <==> RowPasses(a, b, i)
  {}

  // ---------------------------------------------------------------- what the verdict means

  function ComparedAll(rows: seq<Row>): seq<Fields> {
    Map(Compared, rows)
  }

  // If wherever y has v, x has it too, then x has at least as many; more if it has one where y has not.
  lemma {:induction false} Surplus<T>(x: seq<T>, y: seq<T>, v: T)
    requires |x| == |y|
    ensures (forall i :: 0 <= i < |x| && y[i] == v ==> x[i] == v) ==>
              && multiset(y)[v] <= multiset(x)[v]
              && ((exists i :: 0 <= i < |x| && x[i] == v && y[i] != v) ==> multiset(y)[v] < multiset(x)[v])
  {
    if x != [] && forall i :: 0 <= i < |x| && y[i] == v ==> x[i] == v {
      forall i | 0 <= i < |x[1..]| && y[1..][i] == v
        ensures x[1..][i] == v
      {
        assert y[i + 1] == v;
      }
      Surplus(x[1..], y[1..], v);
      assert x == [x[0]] + x[1..] && y == [y[0]] + y[1..];
      if i :| 0 < i < |x| && x[i] == v && y[i] != v {
        assert x[1..][i - 1] == v && y[1..][i - 1] != v;
      }
    }
  }

  // Permuted rows pass: what is displaced in A is displaced in B.
  lemma PermutationPasses(a: seq<Row>, b: seq<Row>)
    requires multiset(ComparedAll(a)) == multiset(ComparedAll(b))
    ensures SymbolPasses(a, b)
  {
    var x, y := ComparedAll(a), ComparedAll(b);
    MapAt(Compared, a);
    MapAt(Compared, b);
    assert |x| == |multiset(x)| && |y| == |multiset(y)|;
    forall i | 0 <= i < |a| && Differ(a, b, i)
      ensures Waits(a, b, Key(a[i]), |a|)
    {
      Surplus(x, y, x[i]);
      var j :| 0 <= j < |y| && y[j] == x[i] && x[j] != x[i];
      assert Differ(a, b, j);
      assert Compared(b[j]) == Compared(a[i]);
      assert Key(b[j]) == Key(a[i]);
    }
  }

  ghost predicate Permuted(a: seq<Row>, b: seq<Row>, y: string) {
    multiset(ComparedAll(Select(a, RowSymbol, y))) == multiset(ComparedAll(Select(b, RowSymbol, y)))
  }

  lemma OccursInBoth(a: seq<Row>, b: seq<Row>, i: nat)
    requires i < |a| && Permuted(a, b, a[i].symbolId)
    ensures Occurs(b, a[i].symbolId)
  {
    var y := a[i].symbolId;
    var x, z := Select(a, RowSymbol, y), Select(b, RowSymbol, y);
    SelectHas(a, RowSymbol, i);
    MapAt(Compared, x);
    MapAt(Compared, z);
    assert |ComparedAll(x)| == |multiset(ComparedAll(x))| && |ComparedAll(z)| == |multiset(ComparedAll(z))|;
    var j := SelectMembers(b, RowSymbol, y, 0);
  }

  // No false alarm: if for each symbol of A the trades in B are a permutation, the verdict is true.
  lemma NoFalseAlarm(a: seq<Row>, b: seq<Row>)
    requires a != [] || b != []
    requires forall i :: 0 <= i < |a| ==> Permuted(a, b, a[i].symbolId)
    ensures Verdict(a, b)
  {
    forall i | 0 <= i < |a|
      ensures RowPasses(a, b, i)
    {
      OccursInBoth(a, b, i);
      PermutationPasses(Select(a, RowSymbol, a[i].symbolId), Select(b, RowSymbol, a[i].symbolId));
    }
  }
}
