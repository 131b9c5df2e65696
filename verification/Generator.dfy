// The request generator's split of the order file over its sending threads: a symbol is given to the
// next thread in turn when it is first seen, and all its orders follow it.

module Generator {
  import opened Seqs
  import opened Orders
  import opened OrderManager

  function RequestSymbol(r: Request): int { r.symbol }

  // The symbols that have an owner are those that occur.
  ghost predicate OwnersOf(input: seq<Request>, owner: map<int, int>) {
    forall y :: y in owner <==> exists i :: 0 <= i < |input| && input[i].symbol == y
  }

  // A queue holds a symbol's orders, all of them in their original order, if its thread owns the symbol, else none.
  ghost predicate QueueOf(input: seq<Request>, queue: seq<Request>, owner: map<int, int>, t: int, y: int) {
    Select(queue, RequestSymbol, y) == if y in owner && owner[y] == t then Select(input, RequestSymbol, y) else []
  }

  // Every symbol has one owner, whose queue has its orders.
  ghost predicate StablePartition(input: seq<Request>, queues: seq<seq<Request>>, owner: map<int, int>) {
    && OwnersOf(input, owner)
    && (forall y :: y in owner ==> 0 <= owner[y] < |queues|)
    && forall t: int, y: int :: 0 <= t < |queues| ==> QueueOf(input, queues[t], owner, t, y)
  }

  ghost function SymbolsOn(owner: map<int, int>, t: int): set<int> {
    set y | y in owner && owner[y] == t
  }

  // No thread has two symbols more than another.
  ghost predicate EvenlySpread(owner: map<int, int>, threads: nat) {
    forall t: int, u: int :: 0 <= t < threads && 0 <= u < threads ==>
      |SymbolsOn(owner, t)| <= |SymbolsOn(owner, u)| + 1
  }

  // After giving out symbols in turn, the threads before the next one have one symbol more.
  ghost predicate DealtRound(owner: map<int, int>, threads: nat, next: int, round: nat) {
    forall t: int :: 0 <= t < threads ==> |SymbolsOn(owner, t)| == round + if t < next then 1 else 0
  }

  lemma DealOne(owner: map<int, int>, threads: nat, next: int, round: nat, y: int)
    requires 0 <= next < threads && y !in owner && DealtRound(owner, threads, next, round)
    ensures if next == threads - 1 then DealtRound(owner[y := next], threads, 0, round + 1)
            else DealtRound(owner[y := next], threads, next + 1, round)
  {
    var owner' := owner[y := next];
    forall t: int | 0 <= t < threads
      ensures |SymbolsOn(owner', t)| == |SymbolsOn(owner, t)| + if t == next then 1 else 0
    {
      assert SymbolsOn(owner', t) == SymbolsOn(owner, t) + if t == next then {y} else {};
    }
  }

  lemma {:induction false} SelectSnoc(s: seq<Request>, r: Request, y: int)
    ensures Select(s + [r], RequestSymbol, y)
            == Select(s, RequestSymbol, y) + if r.symbol == y then [r] else []
  {
    SelectConcat(s, [r], RequestSymbol, y);
    assert Select([r], RequestSymbol, y) == if r.symbol == y then [r] else [];
  }

  // The owner of the next order's symbol: as before, or newly chosen.
  predicate Extends(owner: map<int, int>, r: Request, owner': map<int, int>) {
    && r.symbol in owner'
    && if r.symbol in owner then owner' == owner else owner' == owner[r.symbol := owner'[r.symbol]]
  }

  lemma OwnersGrow(input: seq<Request>, owner: map<int, int>, r: Request, owner': map<int, int>)
    requires OwnersOf(input, owner) && Extends(owner, r, owner')
    ensures OwnersOf(input + [r], owner')
  {
    var input' := input + [r];
    assert input'[|input|] == r;
    forall y | y in owner
      ensures exists i :: 0 <= i < |input'| && input'[i].symbol == y
    {
      var i :| 0 <= i < |input| && input[i].symbol == y;
      assert input'[i].symbol == y;
    }
  }

  lemma {:induction false} UnownedIsNew(input: seq<Request>, owner: map<int, int>, y: int)
    requires OwnersOf(input, owner) && y !in owner
    ensures Select(input, RequestSymbol, y) == []
  {
    forall i | 0 <= i < |input|
      ensures RequestSymbol(input[i]) != y
    {}
    SelectNone(input, RequestSymbol, y);
  }

  // Queueing one more order with the thread that owns its symbol.
  lemma PartitionGrows(input: seq<Request>, queues: seq<seq<Request>>, owner: map<int, int>,
                       r: Request, owner': map<int, int>)
    requires StablePartition(input, queues, owner)
    requires Extends(owner, r, owner') && 0 <= owner'[r.symbol] < |queues|
    ensures var t := owner'[r.symbol];
            StablePartition(input + [r], queues[t := queues[t] + [r]], owner')
  {
    var mine := owner'[r.symbol];
    var queues' := queues[mine := queues[mine] + [r]];
    OwnersGrow(input, owner, r, owner');
    if r.symbol !in owner {
      UnownedIsNew(input, owner, r.symbol);
    }
    forall t: int, y: int | 0 <= t < |queues|
      ensures QueueOf(input + [r], queues'[t], owner', t, y)
    {
      assert QueueOf(input, queues[t], owner, t, y);
      QueueGrows(input, queues[t], owner, r, owner', t, y);
    }
  }

  // One queue, seen from one symbol.
  lemma {:induction false} QueueGrows(input: seq<Request>, queue: seq<Request>, owner: map<int, int>,
                                      r: Request, owner': map<int, int>, t: int, y: int)
    requires QueueOf(input, queue, owner, t, y) && Extends(owner, r, owner')
    requires r.symbol !in owner ==> Select(input, RequestSymbol, r.symbol) == []
    ensures QueueOf(input + [r], if owner'[r.symbol] == t then queue + [r] else queue, owner', t, y)
  {
    SelectSnoc(input, r, y);
    SelectSnoc(queue, r, y);
  }

  class RequestGenerator {
    const numOfThreads: nat
    var orders: seq<Request>
    var ordersForThread: seq<seq<Request>>
    var symbolToThread: map<int, int>

    constructor (numOfThreads: nat, orders: seq<Request>)
      ensures this.numOfThreads == numOfThreads && this.orders == orders
      ensures |ordersForThread| == numOfThreads && symbolToThread == map[]
      ensures forall t :: 0 <= t < numOfThreads ==> ordersForThread[t] == []
    {
      this.numOfThreads := numOfThreads;
      this.orders := orders;
      ordersForThread := seq(numOfThreads, _ => []);
      symbolToThread := map[];
    }

    // The splitting loop at the beginning of Start, on a generator that has not been started before.
    method Split()
      requires 0 < numOfThreads == |ordersForThread| && symbolToThread == map[]
      requires forall t :: 0 <= t < numOfThreads ==> ordersForThread[t] == []
      modifies this
      ensures orders == [] && |ordersForThread| == numOfThreads
      ensures StablePartition(old(orders), ordersForThread, symbolToThread)
      ensures EvenlySpread(symbolToThread, numOfThreads)
    {
      ghost var input, round: nat := orders, 0;
      var orderSize := |orders|;
      var threadNow := 0;
      var i := 0;
      assert forall t: int :: SymbolsOn(symbolToThread, t) == {};
      while i < orderSize
        invariant 0 <= i <= orderSize == |input| && orders == input[i..]
        invariant 0 <= threadNow < numOfThreads == |ordersForThread|
        invariant StablePartition(input[..i], ordersForThread, symbolToThread)
        invariant DealtRound(symbolToThread, numOfThreads, threadNow, round)
      {
        ghost var owner := symbolToThread;
        var front := orders[0];
        if front.symbol !in symbolToThread {
          DealOne(symbolToThread, numOfThreads, threadNow, round, front.symbol);
          symbolToThread := symbolToThread[front.symbol := threadNow];
          if threadNow == numOfThreads - 1 {
            threadNow, round := 0, round + 1;
          } else {
            threadNow := threadNow + 1;
          }
        }
        PartitionGrows(input[..i], ordersForThread, owner, front, symbolToThread);
        assert input[..i] + [front] == input[..i + 1];
        var t := symbolToThread[front.symbol];
        ordersForThread := ordersForThread[t := ordersForThread[t] + [front]];
        orders := orders[1..];
        i := i + 1;
      }
      assert input[..i] == input;
    }
  }

  // ---------------------------------------------------------------- nothing lost, nothing added

  function Pooled(queues: seq<seq<Request>>): multiset<Request> {
    if queues == [] then multiset{} else multiset(queues[0]) + Pooled(queues[1..])
  }

  lemma {:induction false} SelectCounts(s: seq<Request>, r: Request)
    ensures multiset(s)[r] == multiset(Select(s, RequestSymbol, r.symbol))[r]
  {
    if s != [] {
      SelectCounts(s[1..], r);
      assert s == [s[0]] + s[1..];
    }
  }

  lemma {:induction false} PooledCount(queues: seq<seq<Request>>, r: Request, home: int, n: nat)
    requires forall t: int :: 0 <= t < |queues| ==>
               multiset(Select(queues[t], RequestSymbol, r.symbol))[r] == if t == home then n else 0
    ensures Pooled(queues)[r] == if 0 <= home < |queues| then n else 0
  {
    if queues != [] {
      SelectCounts(queues[0], r);
      forall t: int | 0 <= t < |queues[1..]|
        ensures multiset(Select(queues[1..][t], RequestSymbol, r.symbol))[r] == if t == home - 1 then n else 0
      {
        assert queues[1..][t] == queues[t + 1];
      }
      PooledCount(queues[1..], r, home - 1, n);
    }
  }

  // The queues together hold exactly the input.
  lemma {:induction false} PartitionKeepsOrders(input: seq<Request>, queues: seq<seq<Request>>, owner: map<int, int>)
    requires StablePartition(input, queues, owner)
    ensures Pooled(queues) == multiset(input)
  {
    forall r: Request
      ensures Pooled(queues)[r] == multiset(input)[r]
    {
      SelectCounts(input, r);
      var y: int := r.symbol;
      assert forall t: int :: 0 <= t < |queues| ==> QueueOf(input, queues[t], owner, t, y);
      if y in owner {
        PooledCount(queues, r, owner[y], multiset(input)[r]);
      } else {
        PooledCount(queues, r, -1, 0);
        UnownedIsNew(input, owner, y);
      }
    }
  }
}
