// The comparison of two fully ordered databases, one page of rows at a time.

module PagedVerifier {
  import opened Seqs
  import opened DataVerifier

  // What the database returns for a page.
  function GetDataEntries(rows: seq<Row>, limit: nat, offset: nat): seq<Row> {
    if |rows| <= offset then [] else rows[offset..Min(|rows|, offset + limit)]
  }

  // How many rows are read a turn: a page, but no more than there are to compare.
  function Retrieve(a: seq<Row>, b: seq<Row>, page: nat): nat {
    Min(page, Min(|a|, |b|))
  }

  // Reading B in step with A never runs past what was read of B.
  ghost predicate PagesInStep(a: seq<Row>, b: seq<Row>, page: nat)
    requires 0 < page
  {
    var retrieve := Retrieve(a, b, page);
    0 < retrieve ==>
      forall offset: nat :: offset % retrieve == 0 && offset < Min(|a|, |b|) ==>
        |GetDataEntries(a, retrieve, offset)| <= |GetDataEntries(b, retrieve, offset)|
  }

  lemma MulAtLeast(d: int, p: int)
    requires 0 < p
    ensures 0 < d ==> d * p >= p
    ensures d <= 0 ==> d * p <= 0
    ensures d < 0 ==> d * p <= -p
  {}

  lemma Distributes(x: int, y: int, p: int)
    ensures (x - y) * p == x * p - y * p
  {}

  lemma DivisionIsUnique(n: nat, q: int, r: int, p: nat)
    requires 0 < p && n == q * p + r && 0 <= r < p
    ensures n % p == r
  {
    var d := q - n / p;
    assert n == n / p * p + n % p;
    Distributes(q, n / p, p);
    MulAtLeast(d, p);
  }

  lemma MulMod(x: nat, p: nat)
    requires 0 < p
    ensures (p * x) % p == 0
  {
    DivisionIsUnique(p * x, x, 0, p);
  }

  lemma ModSub(n: nat, m: nat, p: nat)
    requires 0 < p && n % p == 0 && m % p == 0 && m < n
    ensures (n - m) % p == 0 && m + p <= n
  {
    var x, y := n / p, m / p;
    assert n == x * p && m == y * p;
    Distributes(x, y, p);
    MulAtLeast(x - y, p);
    DivisionIsUnique(n - m, x - y, 0, p);
  }

  // Where the last, incomplete page begins.
  lemma LastPage(n: nat, page: nat) returns (offset: nat)
    requires 0 < page && n % page != 0
    ensures offset % page == 0 && offset < n && n - offset == n % page < page
  {
    offset := page * (n / page);
    MulMod(n / page, page);
  }

  // It is so exactly when B is not shorter, fits in one page, or ends with a page.
  lemma PagesInStepWhen(a: seq<Row>, b: seq<Row>, page: nat)
    requires 0 < page
    ensures PagesInStep(a, b, page) <==> |a| <= |b| || |b| <= page || |b| % page == 0
  {
    if |b| < |a| && 0 < |b| {
      var retrieve := Retrieve(a, b, page);
      if |b| > page && |b| % page != 0 {
        var offset := LastPage(|b|, page);
        assert |GetDataEntries(b, retrieve, offset)| < |GetDataEntries(a, retrieve, offset)|;
      } else {
        MulMod(1, |b|);
        forall offset: nat | offset % retrieve == 0 && offset < |b|
          ensures |GetDataEntries(a, retrieve, offset)| <= |GetDataEntries(b, retrieve, offset)|
        {
          ModSub(|b|, offset, retrieve);
        }
      }
    }
  }

  // The indices compared so far.
  function UpTo(n: nat): seq<int> {
    if n == 0 then [] else UpTo(n - 1) + [n - 1]
  }

  lemma {:induction false} UpToIs(n: nat)
    ensures |UpTo(n)| == n && forall i :: 0 <= i < n ==> UpTo(n)[i] == i
  {
    if n > 0 {
      UpToIs(n - 1);
    }
  }

  ghost predicate EqualUpTo(a: seq<Row>, b: seq<Row>, n: int)
    requires n <= |a| && n <= |b|
  {
    forall i :: 0 <= i < n ==> Compared(a[i]) == Compared(b[i])
  }

  lemma EqualUpToMeans(a: seq<Row>, b: seq<Row>, n: int)
    requires n <= |a| && n <= |b|
    ensures EqualUpTo(a, b, n) <==>
              forall i :: 0 <= i < n ==>
                            && a[i].amount == b[i].amount
                            && a[i].buyUserId == b[i].buyUserId
                            && a[i].price == b[i].price
                            && a[i].sellUserId == b[i].sellUserId
                            && a[i].symbolId == b[i].symbolId
  {
    assert EqualUpTo(a, b, n) <==> forall i :: 0 <= i < n ==> CompareTradeJsonElement(a[i], b[i]);
  }

  // One page, from the given offset on.
  method ComparePage(a: seq<Row>, b: seq<Row>, retrieve: nat, offset: nat)
    returns (found: bool, ghost visited: seq<int>)
    requires offset <= |a| && offset <= |b|
    requires |GetDataEntries(a, retrieve, offset)| <= |GetDataEntries(b, retrieve, offset)|
    ensures var n := offset + |GetDataEntries(a, retrieve, offset)|;
            && n <= |a| && n <= |b|
            && (EqualUpTo(a, b, offset) ==> (!found <==> EqualUpTo(a, b, n)))
            && UpTo(offset) + visited == UpTo(n)
  {
    var entriesA := GetDataEntries(a, retrieve, offset);
    var entriesB := GetDataEntries(b, retrieve, offset);
    found := false;
    visited := [];
    var i := 0;
    while i < |entriesA|
      invariant 0 <= i <= |entriesA|
      invariant !found <==> forall j :: 0 <= j < i ==> Compared(entriesA[j]) == Compared(entriesB[j])
      invariant UpTo(offset) + visited == UpTo(offset + i)
    {
      if !CompareTradeJsonElement(entriesA[i], entriesB[i]) {
        found := true;
      }
      Assoc(UpTo(offset), visited, [offset + i]);
      visited := visited + [offset + i];
      i := i + 1;
    }
    assert forall j :: 0 <= j < |entriesA| ==> entriesA[j] == a[offset + j] && entriesB[j] == b[offset + j];
    if EqualUpTo(a, b, offset) && !found {
      forall k | 0 <= k < offset + |entriesA|
        ensures Compared(a[k]) == Compared(b[k])
      {
        assert k >= offset ==> a[k] == entriesA[k - offset] && b[k] == entriesB[k - offset];
      }
    }
  }

  // If B is the shorter side, what is left of it is a whole number of pages.
  ghost predicate OnTrack(a: seq<Row>, b: seq<Row>, retrieve: nat, offset: nat) {
    && 0 < retrieve
    && (|b| < |a| ==> offset <= |b| && (|b| - offset) % retrieve == 0)
  }

  lemma TrackStarts(a: seq<Row>, b: seq<Row>, page: nat)
    requires 0 < page && 0 < Min(|a|, |b|) && PagesInStep(a, b, page)
    ensures OnTrack(a, b, Retrieve(a, b, page), 0)
  {
    PagesInStepWhen(a, b, page);
    MulMod(1, |b|);
  }

  lemma TrackGoesOn(a: seq<Row>, b: seq<Row>, retrieve: nat, offset: nat)
    requires OnTrack(a, b, retrieve, offset) && offset < Min(|a|, |b|)
    ensures OnTrack(a, b, retrieve, offset + retrieve)
    ensures |GetDataEntries(a, retrieve, offset)| <= |GetDataEntries(b, retrieve, offset)|
    ensures offset + |GetDataEntries(a, retrieve, offset)| == Min(offset + retrieve, Min(|a|, |b|))
  {
    if |b| < |a| {
      ModSub(|b| - offset, 0, retrieve);
      MinusOnce(|b| - offset, retrieve);
    }
  }

  // Whenever the pages keep in step, every index up to the shorter length is compared exactly once, in
  // order, and the verdict does not depend on the page size.
  method VerifyEqualityForFullyOrderedDataSource(a: seq<Row>, b: seq<Row>, limit: nat, page: nat)
    returns (equal: bool, ghost visited: seq<int>)
    requires limit == Min(|a|, |b|)
    requires 0 < limit ==> 0 < page && PagesInStep(a, b, page)
    ensures equal <==>
              forall i :: 0 <= i < limit ==>
                            && a[i].amount == b[i].amount
                            && a[i].buyUserId == b[i].buyUserId
                            && a[i].price == b[i].price
                            && a[i].sellUserId == b[i].sellUserId
                            && a[i].symbolId == b[i].symbolId
    ensures |visited| == limit && forall i :: 0 <= i < limit ==> visited[i] == i
  {
    if 0 < limit {
      TrackStarts(a, b, page);
    }
    var remaining: int := limit;
    var retrieve := if limit > page then page else limit;
    var offset := 0;
    visited := [];
    var inconsistencyFound := false;
    while remaining > 0
      invariant remaining == limit - offset && 0 <= offset
      invariant 0 < limit ==> OnTrack(a, b, retrieve, offset)
      invariant visited == UpTo(Min(offset, limit))
      invariant !inconsistencyFound <==> EqualUpTo(a, b, Min(offset, limit))
      decreases remaining
    {
      TrackGoesOn(a, b, retrieve, offset);
      var found, more := ComparePage(a, b, retrieve, offset);
      if found {
        inconsistencyFound := true;
      }
      visited := visited + more;
      remaining := remaining - retrieve;
      offset := offset + retrieve;
    }
    UpToIs(limit);
    EqualUpToMeans(a, b, limit);
    equal := !inconsistencyFound;
  }

  lemma MinusOnce(n: nat, p: nat)
    requires 0 < p <= n && n % p == 0
    ensures (n - p) % p == 0
  {
    if n > p {
      ModSub(n, p, p);
    }
  }
}
