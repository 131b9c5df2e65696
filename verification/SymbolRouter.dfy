// The router of one node: it knows which actor matches each symbol. Nodes come and go, and lookups of
// unknown symbols leave null entries behind. Its table is proved to be a function of what was
// registered and removed, in which order.

module SymbolRouter {
  import opened Seqs

  type Actor = int

  datatype Event =
    | AddRemote(symbol: int, host: string, actor: Actor)
    | AddLocal(symbol: int, actor: Actor)
    | RemoveNode(host: string)
    | Lookup(symbol: int)

  predicate Registers(e: Event, symbol: int) {
    (e.AddRemote? || e.AddLocal?) && e.symbol == symbol
  }

  // The host registered the symbol and was not removed since.
  predicate Holding(h: seq<Event>, host: string, symbol: int) {
    if h == [] then false
    else
      var last := h[|h| - 1];
      if last.AddRemote? && last.host == host && last.symbol == symbol then true
      else if last == RemoveNode(host) then false
      else Holding(h[..|h| - 1], host, symbol)
  }

  // Where orders of a symbol go after a history of events.
  function Target(h: seq<Event>, symbol: int): Option<Actor> {
    if h == [] then None
    else
      var last, before := h[|h| - 1], h[..|h| - 1];
      if Registers(last, symbol) then Some(last.actor)
      else if last.RemoveNode? && Holding(before, last.host, symbol) then None
      else Target(before, symbol)
  }

  function HoldingAfter(h: seq<Event>, e: Event, host: string, symbol: int): bool {
    if e.AddRemote? && e.host == host && e.symbol == symbol then true
    else e != RemoveNode(host) && Holding(h, host, symbol)
  }

  function TargetAfter(h: seq<Event>, e: Event, symbol: int): Option<Actor> {
    if Registers(e, symbol) then Some(e.actor)
    else if e.RemoveNode? && Holding(h, e.host, symbol) then None
    else Target(h, symbol)
  }

  lemma {:induction false} Latest(h: seq<Event>, e: Event)
    ensures forall host, y :: Holding(h + [e], host, y) == HoldingAfter(h, e, host, y)
    ensures forall y :: Target(h + [e], y) == TargetAfter(h, e, y)
  {
    assert (h + [e])[..|h|] == h;
  }

  // ---------------------------------------------------------------- the actor

  class SymbolRouterData {
    var symbolActorMap: map<int, Option<Actor>>
    var nodeSymbolMap: map<string, seq<int>>
    var localSymbolActors: seq<(int, Actor)>
    var sent: seq<(Option<Actor>, int)>
    ghost var history: seq<Event>

    ghost predicate Valid()
      reads this
    {
      && (forall y :: RouteOf(y) == Target(history, y))
      && (forall host, y :: y in SymbolsOf(host) <==> Holding(history, host, y))
    }

    function RouteOf(symbol: int): Option<Actor>
      reads this`symbolActorMap
    {
      if symbol in symbolActorMap then symbolActorMap[symbol] else None
    }

    function SymbolsOf(host: string): seq<int>
      reads this`nodeSymbolMap
    {
      if host in nodeSymbolMap then nodeSymbolMap[host] else []
    }

    constructor ()
      ensures Valid() && history == [] && localSymbolActors == [] && sent == []
    {
      symbolActorMap := map[];
      nodeSymbolMap := map[];
      localSymbolActors := [];
      sent := [];
      history := [];
    }

    method AddRemoteSymbol(symbol: int, host: string, actor: Actor)
      requires Valid()
      modifies this`symbolActorMap, this`nodeSymbolMap, this`history
      ensures Valid() && history == old(history) + [AddRemote(symbol, host, actor)]
    {
      Latest(history, AddRemote(symbol, host, actor));
      symbolActorMap := symbolActorMap[symbol := Some(actor)];
      nodeSymbolMap := nodeSymbolMap[host := SymbolsOf(host) + [symbol]];
      history := history + [AddRemote(symbol, host, actor)];
    }

    method AddLocalSymbol(symbol: int, actor: Actor)
      requires Valid()
      modifies this`symbolActorMap, this`localSymbolActors, this`history
      ensures Valid() && history == old(history) + [AddLocal(symbol, actor)]
      ensures localSymbolActors == old(localSymbolActors) + [(symbol, actor)]
    {
      Latest(history, AddLocal(symbol, actor));
      localSymbolActors := localSymbolActors + [(symbol, actor)];
      symbolActorMap := symbolActorMap[symbol := Some(actor)];
      history := history + [AddLocal(symbol, actor)];
    }

    method RemoveSymbolsOf(host: string)
      requires Valid()
      modifies this`symbolActorMap, this`nodeSymbolMap, this`history
      ensures Valid() && history == old(history) + [RemoveNode(host)]
    {
      Latest(history, RemoveNode(host));
      var symbols := SymbolsOf(host);
      var i := 0;
      while i < |symbols|
        invariant 0 <= i <= |symbols| && nodeSymbolMap == old(nodeSymbolMap) && history == old(history)
        invariant forall y :: RouteOf(y) == if y in symbols[..i] then None else old(RouteOf(y))
      {
        symbolActorMap := symbolActorMap - {symbols[i]};
        assert symbols[..i + 1] == symbols[..i] + [symbols[i]];
        i := i + 1;
      }
      assert symbols[..i] == symbols;
      nodeSymbolMap := nodeSymbolMap - {host};
      history := history + [RemoveNode(host)];
    }

    // An order: looking up an unknown symbol leaves a null entry, and the order goes nowhere.
    method RouteOrder(symbol: int)
      requires Valid()
      modifies this`symbolActorMap, this`sent, this`history
      ensures Valid() && history == old(history) + [Lookup(symbol)]
      ensures sent == old(sent) + [(Target(old(history), symbol), symbol)]
    {
      Latest(history, Lookup(symbol));
      if symbol !in symbolActorMap {
        symbolActorMap := symbolActorMap[symbol := None];
      }
      assert forall y :: RouteOf(y) == old(RouteOf(y));
      sent := sent + [(symbolActorMap[symbol], symbol)];
      history := history + [Lookup(symbol)];
    }
  }

  // ---------------------------------------------------------------- what the table means

  // Event i is the registration that decides where the symbol goes: nothing registered it later, and no
  // node holding it was removed later.
  ghost predicate InForce(h: seq<Event>, i: int, symbol: int) {
    && 0 <= i < |h| && Registers(h[i], symbol)
    && forall j :: i < j < |h| ==> !Overrides(h, j, symbol)
  }

  ghost predicate Overrides(h: seq<Event>, j: int, symbol: int)
    requires 0 <= j < |h|
  {
    Registers(h[j], symbol) || (h[j].RemoveNode? && Holding(h[..j], h[j].host, symbol))
  }

  lemma InForceShorter(h: seq<Event>, i: int, symbol: int)
    requires h != [] && 0 <= i < |h| - 1
    ensures InForce(h, i, symbol)
            <==> InForce(h[..|h| - 1], i, symbol) && !Overrides(h, |h| - 1, symbol)
  {
    var before := h[..|h| - 1];
    forall j | 0 <= j < |before|
      ensures before[j] == h[j] && (Overrides(before, j, symbol) <==> Overrides(h, j, symbol))
    {
      assert before[..j] == h[..j];
    }
  }

  // A symbol is routed exactly when one of its registrations is in force, and then to that actor.
  lemma {:induction false} TargetIsInForce(h: seq<Event>, symbol: int)
    ensures Target(h, symbol).Some? ==>
              exists i :: InForce(h, i, symbol) && Target(h, symbol) == Some(h[i].actor)
    ensures forall i :: InForce(h, i, symbol) ==> Target(h, symbol) == Some(h[i].actor)
  {
    if h != [] {
      var n := |h| - 1;
      var before := h[..n];
      TargetIsInForce(before, symbol);
      forall i | 0 <= i < n
        ensures InForce(h, i, symbol) <==> InForce(before, i, symbol) && !Overrides(h, n, symbol)
      {
        InForceShorter(h, i, symbol);
      }
      if Registers(h[n], symbol) {
        assert InForce(h, n, symbol);
      } else if i :| InForce(before, i, symbol) && Target(before, symbol) == Some(before[i].actor) {
        assert !Overrides(h, n, symbol) ==> InForce(h, i, symbol);
      }
    }
  }

  // The host registered the symbol as event k and was not removed since.
  ghost predicate Kept(h: seq<Event>, k: int, host: string, symbol: int) {
    && 0 <= k < |h| && h[k].AddRemote? && h[k].host == host && h[k].symbol == symbol
    && forall j :: k < j < |h| ==> h[j] != RemoveNode(host)
  }

  // The symbols a host holds are those it registered and kept.
  lemma {:induction false} HeldIsKept(h: seq<Event>, host: string, symbol: int)
    ensures Holding(h, host, symbol) <==> exists k :: Kept(h, k, host, symbol)
    decreases |h|
  {
    if h != [] {
      var n := |h| - 1;
      HeldIsKept(h[..n], host, symbol);
      forall k | 0 <= k < n
        ensures Kept(h, k, host, symbol) <==> Kept(h[..n], k, host, symbol) && h[n] != RemoveNode(host)
      {
        KeptLonger(h[..n], h[n], k, host, symbol);
        assert h[..n] + [h[n]] == h;
      }
      if h[n].AddRemote? && h[n].host == host && h[n].symbol == symbol {
        assert Kept(h, n, host, symbol);
      }
      if k :| Kept(h[..n], k, host, symbol) {
        assert h[n] != RemoveNode(host) ==> Kept(h, k, host, symbol);
      }
    }
  }

  lemma KeptLonger(h: seq<Event>, e: Event, k: int, host: string, symbol: int)
    requires 0 <= k < |h|
    ensures Kept(h + [e], k, host, symbol) <==> Kept(h, k, host, symbol) && e != RemoveNode(host)
  {
    assert (h + [e])[|h|] == e;
    assert forall j :: 0 <= j < |h| ==> (h + [e])[j] == h[j];
  }

  // After a node is removed, no registration that the node made is in force.
  lemma RemovedNodeIsUnused(h: seq<Event>, host: string, i: int, symbol: int)
    requires InForce(h + [RemoveNode(host)], i, symbol)
    ensures i < |h| && !(h[i].AddRemote? && h[i].host == host)
  {
    var h' := h + [RemoveNode(host)];
    if i < |h| && h[i].AddRemote? && h[i].host == host {
      // the first removal of the host after event i
      var j := i + 1;
      while h'[j] != RemoveNode(host)
        invariant i < j < |h'| && forall k :: i < k < j ==> h'[k] != RemoveNode(host)
        decreases |h'| - j
      {
        j := j + 1;
      }
      assert Kept(h'[..j], i, host, symbol);
      HeldIsKept(h'[..j], host, symbol);
      assert Overrides(h', j, symbol);
    }
  }

  // The removal of a node undoes the registration in force exactly when that node registered the symbol
  // too, then or earlier, and was not removed since: also if the registration in force is another node's.
  lemma RemovalUndoesExactlyWhen(h: seq<Event>, host: string, i: int, symbol: int)
    requires InForce(h, i, symbol)
    ensures !InForce(h + [RemoveNode(host)], i, symbol) <==> exists k :: k <= i && Kept(h, k, host, symbol)
  {
    var h' := h + [RemoveNode(host)];
    assert h'[..|h|] == h && h'[i] == h[i];
    InForceShorter(h', i, symbol);
    HeldIsKept(h, host, symbol);
    forall k | Kept(h, k, host, symbol)
      ensures k <= i
    {
      assert k > i ==> Overrides(h, k, symbol);
    }
  }

  // So a removal leaves a symbol's routing alone exactly when the node has registered the symbol at no event
  // since its last removal, or the symbol was not routed anyway.
  lemma {:induction false} RemovalSparesExactlyWhen(h: seq<Event>, host: string, symbol: int)
    ensures Target(h + [RemoveNode(host)], symbol) == Target(h, symbol)
            <==> (forall k :: !Kept(h, k, host, symbol)) || Target(h, symbol) == None
  {
    Latest(h, RemoveNode(host));
    HeldIsKept(h, host, symbol);
  }

  lemma {:induction false} TakenOverSymbolIsLost(symbol: int, x: string, y: string, a: Actor, b: Actor)
    requires x != y
    ensures var h := [AddRemote(symbol, x, a), AddRemote(symbol, y, b)];
            Target(h, symbol) == Some(b) && Target(h + [RemoveNode(x)], symbol) == None
  {
    var h0, h1 := [AddRemote(symbol, x, a)], [AddRemote(symbol, x, a), AddRemote(symbol, y, b)];
    assert h1 == h0 + [AddRemote(symbol, y, b)] && h0 == [] + [AddRemote(symbol, x, a)];
    Latest([], AddRemote(symbol, x, a));
    Latest(h0, AddRemote(symbol, y, b));
    Latest(h1, RemoveNode(x));
  }

  // ---------------------------------------------------------------- histories that route alike

  ghost predicate Alike(g: seq<Event>, h: seq<Event>) {
    && (forall y :: Target(g, y) == Target(h, y))
    && (forall host, y :: Holding(g, host, y) == Holding(h, host, y))
  }

  lemma AlikeOneMore(g: seq<Event>, h: seq<Event>, e: Event)
    requires Alike(g, h)
    ensures Alike(g + [e], h + [e])
  {
    Latest(g, e);
    Latest(h, e);
  }

  // Histories that route alike do so whatever happens next.
  lemma {:induction false} AlikeForever(g: seq<Event>, h: seq<Event>, future: seq<Event>)
    requires Alike(g, h)
    ensures Alike(g + future, h + future)
    decreases |future|
  {
    if future == [] {
      assert g + future == g && h + future == h;
    } else {
      var e := future[0];
      AlikeOneMore(g, h, e);
      AlikeForever(g + [e], h + [e], future[1..]);
      assert g + [e] + future[1..] == g + future && h + [e] + future[1..] == h + future;
    }
  }

  ghost predicate Registrations(joining: seq<Event>) {
    forall i :: 0 <= i < |joining| ==> joining[i].AddRemote? || joining[i].AddLocal?
  }

  ghost predicate Joins(joining: seq<Event>, symbol: int) {
    exists i :: 0 <= i < |joining| && Registers(joining[i], symbol)
  }

  // A list of registrations decides by itself where its symbols go, and who holds them.
  lemma {:induction false} AfterRegistrations(h: seq<Event>, joining: seq<Event>, host: string, y: int)
    requires Registrations(joining)
    ensures Holding(h + joining, host, y) <==> Holding(h, host, y) || Holding(joining, host, y)
    ensures Target(h + joining, y) == if Joins(joining, y) then Target(joining, y) else Target(h, y)
    ensures Holding(joining, host, y) ==> Joins(joining, y)
    decreases |joining|
  {
    if joining == [] {
      assert h + joining == h;
    } else {
      var n := |joining| - 1;
      AfterRegistrations(h, joining[..n], host, y);
      assert h + joining == h + joining[..n] + [joining[n]];
      Latest(h + joining[..n], joining[n]);
      assert Joins(joining[..n], y) ==> Joins(joining, y);
    }
  }

  ghost predicate AlreadySo(h: seq<Event>, joining: seq<Event>) {
    && (forall y :: Joins(joining, y) ==> Target(h, y) == Target(joining, y))
    && (forall host, y :: Holding(joining, host, y) ==> Holding(h, host, y))
  }

  // A list of registrations changes nothing exactly when its symbols go there already and are held already.
  lemma RegisteringChangesNothingWhen(h: seq<Event>, joining: seq<Event>)
    requires Registrations(joining)
    ensures Alike(h + joining, h) <==> AlreadySo(h, joining)
  {
    forall host, y
      ensures Holding(h + joining, host, y) <==> Holding(h, host, y) || Holding(joining, host, y)
    {
      AfterRegistrations(h, joining, host, y);
    }
    forall y
      ensures Target(h + joining, y) == if Joins(joining, y) then Target(joining, y) else Target(h, y)
    {
      AfterRegistrations(h, joining, "", y);
    }
    if Alike(h + joining, h) {
      forall y | Joins(joining, y)
        ensures Target(h, y) == Target(joining, y)
      {
        assert Target(h + joining, y) == Target(joining, y);
      }
      forall host, y | Holding(joining, host, y)
        ensures Holding(h, host, y)
      {
        assert Holding(h + joining, host, y);
      }
    }
  }

  // Registering a whole list of symbols again changes nothing, now or later.
  lemma RepetitionIsHarmless(h: seq<Event>, joining: seq<Event>, future: seq<Event>)
    requires Registrations(joining)
    ensures Alike(h + joining + joining + future, h + joining + future)
  {
    forall host, y
      ensures Holding(joining, host, y) ==> Holding(h + joining, host, y)
    {
      AfterRegistrations(h, joining, host, y);
    }
    forall y
      ensures Joins(joining, y) ==> Target(h + joining, y) == Target(joining, y)
    {
      AfterRegistrations(h, joining, "", y);
    }
    RegisteringChangesNothingWhen(h + joining, joining);
    AlikeForever(h + joining + joining, h + joining, future);
  }

  // A lookup, with the null entry it may leave, changes nothing, now or later.
  lemma LookupIsHarmless(h: seq<Event>, symbol: int, future: seq<Event>)
    ensures Alike(h + [Lookup(symbol)] + future, h + future)
  {
    Latest(h, Lookup(symbol));
    AlikeForever(h + [Lookup(symbol)], h, future);
  }

  // ---------------------------------------------------------------- a node joins and leaves again

  ghost predicate JoinOf(joining: seq<Event>, host: string) {
    forall i :: 0 <= i < |joining| ==> joining[i].AddRemote? && joining[i].host == host
  }

  lemma {:induction false} JoinerHolds(joining: seq<Event>, host: string, y: int)
    requires JoinOf(joining, host) && Joins(joining, y)
    ensures Holding(joining, host, y)
  {
    var i :| 0 <= i < |joining| && Registers(joining[i], y);
    assert Kept(joining, i, host, y);
    HeldIsKept(joining, host, y);
  }

  // A node that held nothing joins and leaves: routing is restored exactly when none of the symbols it
  // brought was routed before.
  lemma {:induction false} JoinThenLeave(h: seq<Event>, joining: seq<Event>, host: string)
    requires JoinOf(joining, host) && forall y :: !Holding(h, host, y)
    ensures (forall y :: Target(h + joining + [RemoveNode(host)], y) == Target(h, y))
            <==> forall y :: Joins(joining, y) ==> Target(h, y) == None
  {
    forall y: int
      ensures Target(h + joining + [RemoveNode(host)], y) == if Joins(joining, y) then None else Target(h, y)
    {
      AfterRegistrations(h, joining, host, y);
      if Joins(joining, y) {
        JoinerHolds(joining, host, y);
      }
      Latest(h + joining, RemoveNode(host));
    }
  }
}
