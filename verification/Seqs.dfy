// Small things about sequences that the other modules share.

module Seqs {

  datatype Option<+T> = None | Some(value: T)

  function Min(a: int, b: int): int {
    if a < b then a else b
  }

  // The elements with the given key, in the order they appear.
  function Select<T, K(==)>(s: seq<T>, key: T -> K, k: K): seq<T> {
    if s == [] then [] else (if key(s[0]) == k then [s[0]] else []) + Select(s[1..], key, k)
  }

  function Map<T, U>(f: T -> U, s: seq<T>): seq<U> {
    if s == [] then [] else [f(s[0])] + Map(f, s[1..])
  }

  lemma Assoc<T>(x: seq<T>, y: seq<T>, z: seq<T>)
    ensures (x + y) + z == x + (y + z)
  {}

  lemma {:induction false} SelectConcat<T, K>(a: seq<T>, b: seq<T>, key: T -> K, k: K)
    ensures Select(a + b, key, k) == Select(a, key, k) + Select(b, key, k)
  {
    if a == [] {
      assert a + b == b;
    } else {
      SelectConcat(a[1..], b, key, k);
      assert (a + b)[1..] == a[1..] + b;
      Assoc(if key(a[0]) == k then [a[0]] else [], Select(a[1..], key, k), Select(b, key, k));
    }
  }

  lemma {:induction false} SelectNone<T, K>(s: seq<T>, key: T -> K, k: K)
    requires forall i :: 0 <= i < |s| ==> key(s[i]) != k
    ensures Select(s, key, k) == []
  {
    if s != [] {
      SelectNone(s[1..], key, k);
    }
  }

  lemma {:induction false} SelectAll<T, K>(s: seq<T>, key: T -> K, k: K)
    requires forall i :: 0 <= i < |s| ==> key(s[i]) == k
    ensures Select(s, key, k) == s
  {
    if s != [] {
      SelectAll(s[1..], key, k);
    }
  }

  lemma {:induction false} SelectMembers<T, K>(s: seq<T>, key: T -> K, k: K, i: nat) returns (j: nat)
    requires i < |Select(s, key, k)|
    ensures j < |s| && s[j] == Select(s, key, k)[i] && key(s[j]) == k
  {
    if key(s[0]) == k && i == 0 {
      j := 0;
    } else {
      j := SelectMembers(s[1..], key, k, if key(s[0]) == k then i - 1 else i);
      j := j + 1;
    }
  }

  lemma {:induction false} SelectHas<T, K>(s: seq<T>, key: T -> K, j: nat)
    requires j < |s|
    ensures s[j] in Select(s, key, key(s[j]))
  {
    if j > 0 {
      SelectHas(s[1..], key, j - 1);
    }
  }

  lemma SplitAt<T>(s: seq<T>, n: nat)
    requires n <= |s|
    ensures s[..n] + s[n..] == s
  {}

  lemma Behind<T>(x: seq<T>, y: seq<T>)
    ensures (x + y)[|x|..] == y && (x + y)[..|x|] == x
  {}

  lemma ConsEquals<T>(x: T, xs: seq<T>, y: T, ys: seq<T>)
    ensures [x] + xs == [y] + ys <==> x == y && xs == ys
  {
    assert ([x] + xs)[0] == x && ([y] + ys)[0] == y;
    assert ([x] + xs)[1..] == xs && ([y] + ys)[1..] == ys;
  }

  ghost predicate Distinct<T>(s: seq<T>) {
    forall i, j :: 0 <= i < j < |s| ==> s[i] != s[j]
  }

  lemma Cancel<T>(x: seq<T>, y: seq<T>, z: seq<T>)
    requires x + y == x + z
    ensures y == z
  {
    assert (x + y)[|x|..] == y && (x + z)[|x|..] == z;
  }

  lemma {:induction false} MapAt<T, U>(f: T -> U, s: seq<T>)
    ensures |Map(f, s)| == |s| && forall i :: 0 <= i < |s| ==> Map(f, s)[i] == f(s[i])
  {
    if s != [] {
      MapAt(f, s[1..]);
    }
  }

  lemma {:induction false} MapCons<T, U>(f: T -> U, x: T, s: seq<T>)
    ensures Map(f, [x] + s) == [f(x)] + Map(f, s)
    ensures Map(f, [x]) == [f(x)]
  {
    assert ([x] + s)[1..] == s;
    assert [f(x)] + [] == [f(x)];
  }

  lemma {:induction false} MapSelect<T, U>(f: T -> U, s: seq<T>, key: T -> int, key': U -> int, k: int)
    requires forall x: T :: key'(f(x)) == key(x)
    ensures Select(Map(f, s), key', k) == Map(f, Select(s, key, k))
  {
    if s != [] {
      MapSelect(f, s[1..], key, key', k);
      assert Map(f, s)[1..] == Map(f, s[1..]);
      var rest := Select(s[1..], key, k);
      MapCons(f, s[0], rest);
      assert [] + rest == rest && [] + Map(f, rest) == Map(f, rest);
    }
  }

  lemma {:induction false} MapConcat<T, U>(f: T -> U, x: seq<T>, y: seq<T>)
    ensures Map(f, x + y) == Map(f, x) + Map(f, y)
  {
    if x == [] {
      assert x + y == y;
    } else {
      MapConcat(f, x[1..], y);
      assert (x + y)[1..] == x[1..] + y;
      Assoc([f(x[0])], Map(f, x[1..]), Map(f, y));
    }
  }
}
