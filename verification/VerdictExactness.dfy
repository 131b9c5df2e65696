// When the verdict of the data verifier is right, and what it lets through otherwise.

module VerdictExactness {
  import opened Seqs
  import opened DataVerifier

  // ---------------------------------------------------------------- what the keys tell apart

  predicate Colonless(s: string) { forall i :: 0 <= i < |s| ==> s[i] != ':' }

  // Numbers are written without colons.
  predicate ProperKey(r: Row) {
    Colonless(r.amount) && Colonless(r.buyUserId) && Colonless(r.price)
  }

  lemma ColonNotLater(x: string, y: string, p: string, q: string)
    requires Colonless(y) && x + ":" + p == y + ":" + q
    ensures |y| <= |x|
  {
    var s := x + ":" + p;
    assert s[|x|] == ':';
    assert forall k :: 0 <= k < |y| ==> (y + ":" + q)[k] != ':';
  }

  lemma FirstColon(x: string, y: string, p: string, q: string)
    requires Colonless(x) && Colonless(y) && x + ":" + p == y + ":" + q
    ensures x == y && p == q
  {
    ColonNotLater(x, y, p, q);
    ColonNotLater(y, x, q, p);
    var s := x + ":" + p;
    assert s[..|x|] == x && s[..|x|] == y;
    assert s[|x| + 1..] == p && s[|x| + 1..] == q;
  }

  lemma KeyTellsApart(r: Row, s: Row)
    requires ProperKey(r) && ProperKey(s) && Key(r) == Key(s)
    ensures r.symbolId == s.symbolId ==> Compared(r) == Compared(s)
  {
    var r2, s2 := r.price + ":" + r.sellUserId, s.price + ":" + s.sellUserId;
    var r1, s1 := r.buyUserId + ":" + r2, s.buyUserId + ":" + s2;
    assert Key(r) == r.amount + ":" + r1;
    assert Key(s) == s.amount + ":" + s1;
    FirstColon(r.amount, s.amount, r1, s1);
    FirstColon(r.buyUserId, s.buyUserId, r2, s2);
    FirstColon(r.price, s.price, r.sellUserId, s.sellUserId);
  }

  ghost predicate OneSymbol(rows: seq<Row>, y: string) {
    forall i :: 0 <= i < |rows| ==> rows[i].symbolId == y && ProperKey(rows[i])
  }

  function Elements<T>(s: seq<T>): set<T> {
    set i | 0 <= i < |s| :: s[i]
  }

  lemma {:induction false} ElementsSize<T>(s: seq<T>)
    ensures |Elements(s)| <= |s|
    ensures Distinct(s) <==> |Elements(s)| == |s|
  {
    if s != [] {
      var t := s[1..];
      ElementsSize(t);
      assert s == [s[0]] + t;
      assert Elements(s) == Elements(t) + {s[0]};
      if s[0] in Elements(t) {
        assert Elements(s) == Elements(t);
        var j :| 0 <= j < |t| && t[j] == s[0];
        assert s[0] == s[j + 1];
      } else {
        forall i, j | 0 <= i < j < |s| && Distinct(t)
          ensures s[i] != s[j]
        {
          if i > 0 {
            assert s[i] == t[i - 1] && s[j] == t[j - 1];
          } else {
            assert t[j - 1] in Elements(t);
          }
        }
        if Distinct(s) {
          forall i, j | 0 <= i < j < |t|
            ensures t[i] != t[j]
          {
            assert s[i + 1] != s[j + 1];
          }
        }
      }
    }
  }

  lemma {:induction false} DistinctCounts<T>(s: seq<T>, v: T)
    requires Distinct(s)
    ensures multiset(s)[v] == if v in Elements(s) then 1 else 0
  {
    if s != [] {
      var t := s[1..];
      forall i, j | 0 <= i < j < |t|
        ensures t[i] != t[j]
      {
        assert s[i + 1] != s[j + 1];
      }
      DistinctCounts(t, v);
      assert s == [s[0]] + t;
      assert Elements(s) == Elements(t) + {s[0]};
      forall j | 0 <= j < |t|
        ensures t[j] != s[0]
      {
        assert s[0] != s[j + 1];
      }
    }
  }

  // A sequence without repetitions whose elements all occur in an equally long one is a permutation of it.
  lemma CoveredIsPermuted<T>(x: seq<T>, y: seq<T>)
    requires |x| == |y| && Distinct(x) && Elements(x) <= Elements(y)
    ensures multiset(x) == multiset(y)
  {
    ElementsSize(x);
    ElementsSize(y);
    SubsetSize(Elements(x), Elements(y));
    forall v: T
      ensures multiset(x)[v] == multiset(y)[v]
    {
      DistinctCounts(x, v);
      DistinctCounts(y, v);
    }
  }

  lemma SubsetSize<T>(x: set<T>, y: set<T>)
    requires x <= y && |y| <= |x|
    ensures x == y
  {
    assert |y - x| == |y| - |x|;
  }

  // ---------------------------------------------------------------- one symbol

  // Of these trades no two compare equal, or all do.
  ghost predicate Tells(rows: seq<Row>) {
    Distinct(ComparedAll(rows)) || Uniform(ComparedAll(rows))
  }

  ghost predicate Uniform<T>(s: seq<T>) {
    forall i, j :: 0 <= i < |s| && 0 <= j < |s| ==> s[i] == s[j]
  }

  // The row of A at a place that differs occurs in B, as far as what is compared goes.
  lemma CounterpartOf(a: seq<Row>, b: seq<Row>, y: string, i: nat) returns (j: nat)
    requires OneSymbol(a, y) && OneSymbol(b, y) && |a| == |b|
    requires SymbolPasses(a, b) && i < |a| && Differ(a, b, i)
    ensures j < |a| && Differ(a, b, j) && Compared(b[j]) == Compared(a[i])
  {
    j :| 0 <= j < |a| && Differ(a, b, j) && Key(b[j]) == Key(a[i]);
    KeyTellsApart(b[j], a[i]);
  }

  // Equally many trades of which those of A can be told apart, or are all alike: the symbol passes exactly
  // when the compared fields are a permutation.
  lemma PassesExactlyWhenPermuted(a: seq<Row>, b: seq<Row>, y: string)
    requires OneSymbol(a, y) && OneSymbol(b, y) && |a| == |b| && Tells(a)
    ensures SymbolPasses(a, b) <==> multiset(ComparedAll(a)) == multiset(ComparedAll(b))
  {
    var u, v := ComparedAll(a), ComparedAll(b);
    MapAt(Compared, a);
    MapAt(Compared, b);
    if SymbolPasses(a, b) {
      if Distinct(u) {
        forall i | 0 <= i < |a|
          ensures u[i] in Elements(v)
        {
          if Differ(a, b, i) {
            var j := CounterpartOf(a, b, y, i);
            assert v[j] == u[i];
          } else {
            assert v[i] == u[i];
          }
        }
        assert Elements(u) <= Elements(v);
        CoveredIsPermuted(u, v);
      } else {
        forall i | 0 <= i < |a|
          ensures u[i] == v[i]
        {
          if Differ(a, b, i) {
            var j := CounterpartOf(a, b, y, i);
          }
        }
        assert u == v;
      }
    } else if multiset(u) == multiset(v) {
      PermutationPasses(a, b);
    }
  }

  // Two equal trades turned into a third one, and the third into one of them.
  function Changed<T>(s: seq<T>, i: nat, j: nat, k: nat): seq<T>
    requires i < |s| && j < |s| && k < |s|
  {
    s[i := s[k]][j := s[k]][k := s[i]]
  }

  lemma ChangedPasses(a: seq<Row>, i: nat, j: nat, k: nat)
    requires i < |a| && j < |a| && k < |a| && Compared(a[i]) == Compared(a[j]) != Compared(a[k])
    ensures SymbolPasses(a, Changed(a, i, j, k))
  {
    var b := Changed(a, i, j, k);
    assert Differ(a, b, i) && Key(b[i]) == Key(a[k]);
    assert Differ(a, b, k) && Key(b[k]) == Key(a[i]);
    assert Key(a[j]) == Key(a[i]);
    forall m | 0 <= m < |a| && Differ(a, b, m)
      ensures Waits(a, b, Key(a[m]), |a|)
    {
      assert m == i || m == j || m == k;
    }
  }

  lemma ChangedCompared(a: seq<Row>, i: nat, j: nat, k: nat)
    requires i < |a| && j < |a| && k < |a|
    ensures |ComparedAll(a)| == |a| && ComparedAll(Changed(a, i, j, k)) == Changed(ComparedAll(a), i, j, k)
  {
    MapAt(Compared, a);
    MapAt(Compared, Changed(a, i, j, k));
  }

  lemma ChangedSymbol(a: seq<Row>, i: nat, j: nat, k: nat, y: string)
    requires OneSymbol(a, y) && i < |a| && j < |a| && k < |a|
    ensures OneSymbol(Changed(a, i, j, k), y) && |Changed(a, i, j, k)| == |a|
  {}

  lemma ChangedNotPermuted(a: seq<Row>, i: nat, j: nat, k: nat)
    requires i < j < |a| && k < |a| && Compared(a[i]) == Compared(a[j]) != Compared(a[k])
    ensures multiset(ComparedAll(a)) != multiset(ComparedAll(Changed(a, i, j, k)))
  {
    MapAt(Compared, a);
    ChangedCompared(a, i, j, k);
    FewerOf(ComparedAll(a), i, j, k);
  }

  // Otherwise such a changed copy passes.
  lemma ChangedCopyPasses(a: seq<Row>, y: string) returns (b: seq<Row>)
    requires OneSymbol(a, y) && !Tells(a)
    ensures OneSymbol(b, y) && |b| == |a| && SymbolPasses(a, b)
    ensures multiset(ComparedAll(a)) != multiset(ComparedAll(b))
  {
    var i, j, k := EqualAndUnlike(a);
    b := Changed(a, i, j, k);
    ChangedSymbol(a, i, j, k, y);
    ChangedPasses(a, i, j, k);
    ChangedNotPermuted(a, i, j, k);
  }

  lemma EqualAndUnlike(a: seq<Row>) returns (i: nat, j: nat, k: nat)
    requires !Tells(a)
    ensures i < j < |a| && k < |a| && Compared(a[i]) == Compared(a[j]) != Compared(a[k])
  {
    MapAt(Compared, a);
    var u := ComparedAll(a);
    i, j :| 0 <= i < j < |u| && u[i] == u[j];
    k := ElementUnlike(u, i);
  }

  lemma ElementUnlike<T>(s: seq<T>, i: nat) returns (k: nat)
    requires i < |s| && !Uniform(s)
    ensures k < |s| && s[k] != s[i]
  {
    var m, n :| 0 <= m < |s| && 0 <= n < |s| && s[m] != s[n];
    k := if s[m] != s[i] then m else n;
  }

  lemma FewerOf<T>(s: seq<T>, i: nat, j: nat, k: nat)
    requires i < j < |s| && k < |s| && s[i] == s[j] != s[k]
    ensures multiset(s) != multiset(Changed(s, i, j, k))
  {
    var s1 := s[i := s[k]];
    var s2 := s1[j := s[k]];
    assert s1[j] == s[i];
    assert multiset(s1)[s[i]] + 1 == multiset(s)[s[i]];
    assert multiset(s2)[s[i]] + 1 == multiset(s1)[s[i]];
    assert s2[k] == s[k];
    assert multiset(s2[k := s[i]])[s[i]] == multiset(s2)[s[i]] + 1;
  }

  // ---------------------------------------------------------------- whole databases

  ghost predicate ProperKeys(rows: seq<Row>) {
    forall i :: 0 <= i < |rows| ==> ProperKey(rows[i])
  }

  // As many trades on both sides for every symbol, so that the same symbols occur.
  ghost predicate SameSizes(a: seq<Row>, b: seq<Row>) {
    forall y :: |Select(a, RowSymbol, y)| == |Select(b, RowSymbol, y)|
  }

  ghost predicate AllPermuted(a: seq<Row>, b: seq<Row>) {
    forall y :: Permuted(a, b, y)
  }

  ghost predicate TellsBySymbol(a: seq<Row>) {
    forall y :: Tells(Select(a, RowSymbol, y))
  }

  // The verdict is right about B.
  ghost predicate RightAbout(a: seq<Row>, b: seq<Row>) {
    ProperKeys(b) && SameSizes(a, b) ==> (Verdict(a, b) <==> AllPermuted(a, b))
  }

  lemma {:induction false} SelectedOneSymbol(rows: seq<Row>, y: string)
    requires ProperKeys(rows)
    ensures OneSymbol(Select(rows, RowSymbol, y), y)
  {
    var s := Select(rows, RowSymbol, y);
    forall i | 0 <= i < |s|
      ensures s[i].symbolId == y && ProperKey(s[i])
    {
      var j := SelectMembers(rows, RowSymbol, y, i);
    }
  }

  lemma {:induction false} SymbolIsDecided(a: seq<Row>, b: seq<Row>, y: string)
    requires ProperKeys(a) && ProperKeys(b) && SameSizes(a, b) && TellsBySymbol(a)
    ensures SymbolPasses(Select(a, RowSymbol, y), Select(b, RowSymbol, y)) <==> Permuted(a, b, y)
  {
    SelectedOneSymbol(a, y);
    SelectedOneSymbol(b, y);
    PassesExactlyWhenPermuted(Select(a, RowSymbol, y), Select(b, RowSymbol, y), y);
  }

  // A symbol that A does not have cannot fail.
  lemma {:induction false} AbsentIsPermuted(a: seq<Row>, b: seq<Row>, y: string)
    requires SameSizes(a, b) && Select(a, RowSymbol, y) == []
    ensures Permuted(a, b, y)
  {}

  // When as many trades are stored for each symbol, and each symbol's trades on side A can be told apart
  // or are all alike, the verdict is exact.
  lemma VerdictIsExact(a: seq<Row>, b: seq<Row>)
    requires a != [] && ProperKeys(a) && TellsBySymbol(a)
    ensures RightAbout(a, b)
  {
    if ProperKeys(b) && SameSizes(a, b) {
      forall y {
        SymbolIsDecided(a, b, y);
      }
      if AllPermuted(a, b) {
        NoFalseAlarm(a, b);
      }
      if Verdict(a, b) {
        forall y
          ensures Permuted(a, b, y)
        {
          if Select(a, RowSymbol, y) == [] {
            AbsentIsPermuted(a, b, y);
          } else {
            var i := SelectMembers(a, RowSymbol, y, 0);
            assert RowPasses(a, b, i);
          }
        }
      }
    }
  }

  // The rows of all other symbols.
  function Without(rows: seq<Row>, y: string): seq<Row> {
    if rows == [] then [] else (if rows[0].symbolId == y then [] else [rows[0]]) + Without(rows[1..], y)
  }

  lemma {:induction false} WithoutSelects(rows: seq<Row>, y: string, z: string)
    ensures Select(Without(rows, y), RowSymbol, z) == if z == y then [] else Select(rows, RowSymbol, z)
  {
    if rows != [] {
      var tail := Without(rows[1..], y);
      WithoutSelects(rows[1..], y, z);
      if rows[0].symbolId == y {
        assert [] + tail == tail;
        assert [] + Select(rows[1..], RowSymbol, z) == Select(rows[1..], RowSymbol, z);
      } else {
        SelectConcat([rows[0]], tail, RowSymbol, z);
        OneSymbolSelects([rows[0]], rows[0].symbolId, z);
      }
    }
  }

  lemma {:induction false} WithoutKeepsKeys(rows: seq<Row>, y: string)
    requires ProperKeys(rows)
    ensures ProperKeys(Without(rows, y))
  {
    if rows != [] {
      WithoutKeepsKeys(rows[1..], y);
    }
  }

  lemma {:induction false} OneSymbolSelects(rows: seq<Row>, y: string, z: string)
    requires forall i :: 0 <= i < |rows| ==> rows[i].symbolId == y
    ensures Select(rows, RowSymbol, z) == if z == y then rows else []
  {
    if z == y {
      SelectAll(rows, RowSymbol, y);
    } else {
      SelectNone(rows, RowSymbol, z);
    }
  }

  // The rows of one symbol replaced.
  lemma {:induction false} Replaced(a: seq<Row>, y: string, rows: seq<Row>, z: string)
    requires OneSymbol(rows, y)
    ensures Select(rows + Without(a, y), RowSymbol, z) == if z == y then rows else Select(a, RowSymbol, z)
  {
    SelectConcat(rows, Without(a, y), RowSymbol, z);
    WithoutSelects(a, y, z);
    OneSymbolSelects(rows, y, z);
    assert rows + [] == rows;
    assert [] + Select(a, RowSymbol, z) == Select(a, RowSymbol, z);
  }

  lemma {:induction false} ReplacedDatabase(a: seq<Row>, y: string, rows: seq<Row>)
    requires ProperKeys(a) && OneSymbol(rows, y) && |rows| == |Select(a, RowSymbol, y)|
    ensures ProperKeys(rows + Without(a, y)) && SameSizes(a, rows + Without(a, y))
    ensures forall z ::
              Select(rows + Without(a, y), RowSymbol, z) == if z == y then rows else Select(a, RowSymbol, z)
  {
    WithoutKeepsKeys(a, y);
    forall z
      ensures Select(rows + Without(a, y), RowSymbol, z) == if z == y then rows else Select(a, RowSymbol, z)
    {
      Replaced(a, y, rows, z);
    }
  }

  // If some symbol's trades repeat without being all alike, there is a database about which the verdict is
  // wrong: true, with as many trades for every symbol, but not the same.
  lemma WrongVerdict(a: seq<Row>, y: string) returns (b: seq<Row>)
    requires ProperKeys(a) && !Tells(Select(a, RowSymbol, y))
    ensures ProperKeys(b) && SameSizes(a, b) && Verdict(a, b) && !Permuted(a, b, y)
  {
    SelectedOneSymbol(a, y);
    var rows := ChangedCopyPasses(Select(a, RowSymbol, y), y);
    b := rows + Without(a, y);
    ReplacedDatabase(a, y, rows);
    ChangedVerdict(a, b, y);
  }

  // A database that differs in one symbol only, and passes there, passes.
  lemma {:induction false} ChangedVerdict(a: seq<Row>, b: seq<Row>, y: string)
    requires a != [] && SameSizes(a, b)
    requires forall z :: z != y ==> Select(b, RowSymbol, z) == Select(a, RowSymbol, z)
    requires SymbolPasses(Select(a, RowSymbol, y), Select(b, RowSymbol, y))
    ensures Verdict(a, b)
  {
    forall i | 0 <= i < |a|
      ensures RowPasses(a, b, i)
    {
      OccursWhenSelected(a, a[i].symbolId);
      OccursWhenSelected(b, a[i].symbolId);
    }
  }

  // The verdict on a database is exact against every other with as many trades per symbol if and only if it
  // is not empty, and each symbol's trades can be told apart or are all alike.
  lemma VerdictIsExactExactlyWhen(a: seq<Row>)
    requires ProperKeys(a)
    ensures (forall b :: RightAbout(a, b)) <==> a != [] && TellsBySymbol(a)
  {
    if a == [] {
      assert !Verdict([], []) && AllPermuted(a, a) && !RightAbout(a, a);
    } else if TellsBySymbol(a) {
      forall b {
        VerdictIsExact(a, b);
      }
    } else {
      var y :| !Tells(Select(a, RowSymbol, y));
      var b := WrongVerdict(a, y);
      assert !RightAbout(a, b);
    }
  }

  lemma RepeatedTradesPass(p: Row, q: Row)
    requires p.symbolId == q.symbolId && Compared(p) != Compared(q)
    ensures Verdict([p, p, q], [q, q, p]) && SameSizes([p, p, q], [q, q, p])
    ensures !Permuted([p, p, q], [q, q, p], p.symbolId)
  {
    var a, b := [p, p, q], [q, q, p];
    assert Changed(a, 0, 1, 2) == b;
    SampleSelects(a, b, p.symbolId);
    ChangedPasses(a, 0, 1, 2);
    ChangedVerdict(a, b, p.symbolId);
    ChangedNotPermuted(a, 0, 1, 2);
  }

  lemma {:induction false} SampleSelects(a: seq<Row>, b: seq<Row>, y: string)
    requires |a| == |b| && forall i :: 0 <= i < |a| ==> a[i].symbolId == y && b[i].symbolId == y
    ensures SameSizes(a, b) && Select(a, RowSymbol, y) == a && Select(b, RowSymbol, y) == b
    ensures forall z :: z != y ==> Select(b, RowSymbol, z) == Select(a, RowSymbol, z)
  {
    forall z
      ensures Select(a, RowSymbol, z) == if z == y then a else []
      ensures Select(b, RowSymbol, z) == if z == y then b else []
    {
      OneSymbolSelects(a, y, z);
      OneSymbolSelects(b, y, z);
    }
  }

  // ---------------------------------------------------------------- unequal sizes

  // Only rows with a counterpart in their place are looked at.
  lemma OnlyCommonPartCounts(a: seq<Row>, b: seq<Row>, c: seq<Row>)
    ensures |a| <= |b| ==> (SymbolPasses(a, b + c) <==> SymbolPasses(a, b))
    ensures |b| <= |a| ==> (SymbolPasses(a + c, b) <==> SymbolPasses(a, b))
  {
    if |a| <= |b| {
      SamePrefix(a, b, a, b + c);
    }
    if |b| <= |a| {
      SamePrefix(a, b, a + c, b);
    }
  }

  lemma SamePrefix(a: seq<Row>, b: seq<Row>, a': seq<Row>, b': seq<Row>)
    requires Min(|a|, |b|) == Min(|a'|, |b'|)
    requires forall i :: 0 <= i < Min(|a|, |b|) ==> a[i] == a'[i] && b[i] == b'[i]
    ensures SymbolPasses(a, b) <==> SymbolPasses(a', b')
  {
    var n := Min(|a|, |b|);
    assert forall i :: 0 <= i < n ==> Differ(a, b, i) == Differ(a', b', i);
    forall k: string
      ensures Waits(a, b, k, n) <==> Waits(a', b', k, n)
    {}
  }

  lemma {:induction false} OccursWhenSelected(rows: seq<Row>, y: string)
    ensures Occurs(rows, y) <==> Select(rows, RowSymbol, y) != []
  {
    if j :| 0 <= j < |rows| && rows[j].symbolId == y {
      SelectHas(rows, RowSymbol, j);
    }
    if Select(rows, RowSymbol, y) != [] {
      var j := SelectMembers(rows, RowSymbol, y, 0);
    }
  }

  // The verdict symbol by symbol.
  lemma VerdictBySymbol(a: seq<Row>, b: seq<Row>)
    ensures Verdict(a, b) <==> (a != [] || b != []) && forall y :: SymbolIsRight(a, b, y)
  {
    forall y {
      OccursWhenSelected(a, y);
    }
    if Verdict(a, b) {
      forall y
        ensures SymbolIsRight(a, b, y)
      {
        if i :| 0 <= i < |a| && a[i].symbolId == y {
          assert RowPasses(a, b, i);
        }
      }
    }
    if forall y :: SymbolIsRight(a, b, y) {
      forall i | 0 <= i < |a|
        ensures RowPasses(a, b, i)
      {
        assert SymbolIsRight(a, b, a[i].symbolId);
      }
    }
  }

  ghost predicate SymbolIsRight(a: seq<Row>, b: seq<Row>, y: string) {
    Occurs(a, y) ==> Occurs(b, y) && SymbolPasses(Select(a, RowSymbol, y), Select(b, RowSymbol, y))
  }

  // Rows of B behind as many as A has change nothing.
  lemma {:induction false} SurplusOfBIgnored(a: seq<Row>, b: seq<Row>, c: seq<Row>)
    requires forall y :: |Select(a, RowSymbol, y)| <= |Select(b, RowSymbol, y)|
    ensures Verdict(a, b + c) <==> Verdict(a, b) || (a == [] && c != [])
  {
    VerdictBySymbol(a, b);
    VerdictBySymbol(a, b + c);
    forall y
      ensures SymbolIsRight(a, b + c, y) <==> SymbolIsRight(a, b, y)
    {
      var x, z := Select(a, RowSymbol, y), Select(b, RowSymbol, y);
      SelectConcat(b, c, RowSymbol, y);
      OnlyCommonPartCounts(x, z, Select(c, RowSymbol, y));
      OccursWhenSelected(a, y);
      OccursWhenSelected(b, y);
      OccursWhenSelected(b + c, y);
    }
  }

  // Rows of A behind as many as B has matter only if B does not have their symbol.
  lemma {:induction false} SurplusOfAIgnored(a: seq<Row>, b: seq<Row>, c: seq<Row>)
    requires forall y :: |Select(b, RowSymbol, y)| <= |Select(a, RowSymbol, y)|
    ensures Verdict(a + c, b) <==> Verdict(a, b) && forall j :: 0 <= j < |c| ==> Occurs(b, c[j].symbolId)
  {
    VerdictBySymbol(a, b);
    VerdictBySymbol(a + c, b);
    forall y
      ensures SymbolIsRight(a + c, b, y) <==> SymbolIsRight(a, b, y) && (Occurs(c, y) ==> Occurs(b, y))
    {
      var x, z := Select(a, RowSymbol, y), Select(b, RowSymbol, y);
      SelectConcat(a, c, RowSymbol, y);
      OnlyCommonPartCounts(x, z, Select(c, RowSymbol, y));
      OccursWhenSelected(a, y);
      OccursWhenSelected(b, y);
      OccursWhenSelected(c, y);
      OccursWhenSelected(a + c, y);
    }
    forall j | 0 <= j < |c|
      ensures Occurs(c, c[j].symbolId)
    {}
    if b != [] {
      SelectHas(b, RowSymbol, 0);
    } else if c != [] {
      assert !SymbolIsRight(a + c, b, c[0].symbolId);
    }
  }

  // So trades that one side lacks at the end go unnoticed; only a symbol that side B lacks altogether does not.
  lemma MissingTradesPass(a: seq<Row>, c: seq<Row>)
    requires a != []
    ensures Verdict(a, a + c)
    ensures Verdict(a + c, a) <==> forall j :: 0 <= j < |c| ==> Occurs(a, c[j].symbolId)
    ensures c != [] ==> !AllPermuted(a, a + c) && !AllPermuted(a + c, a)
  {
    assert Verdict(a, a);
    SurplusOfBIgnored(a, a, c);
    SurplusOfAIgnored(a, a, c);
    if c != [] {
      var y := c[0].symbolId;
      SelectConcat(a, c, RowSymbol, y);
      SelectHas(c, RowSymbol, 0);
      PermutedSizes(a, a + c, y);
      PermutedSizes(a + c, a, y);
    }
  }

  lemma {:induction false} PermutedSizes(a: seq<Row>, b: seq<Row>, y: string)
    ensures Permuted(a, b, y) ==> |Select(a, RowSymbol, y)| == |Select(b, RowSymbol, y)|
  {
    var x, z := Select(a, RowSymbol, y), Select(b, RowSymbol, y);
    MapAt(Compared, x);
    MapAt(Compared, z);
    assert |multiset(ComparedAll(x))| == |x| && |multiset(ComparedAll(z))| == |z|;
  }
}
