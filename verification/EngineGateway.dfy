// The engine's network face: it takes orders in, unless it is closed or the trading side is unknown, and
// broadcasts trades to everybody who subscribed.

module EngineGateway {
  import opened Seqs
  import opened Orders
  import opened OrderManager

  // The engine's record of an order, if it accepts the trading side.
  function TransformGrpcOrder(p: PlacedOrder): Option<Order> {
    match p.side
    case TradingBuy => Some(Order(p.id, p.symbol, p.user, Buy, p.amount, p.price, p.submitTime))
    case TradingSell => Some(Order(p.id, p.symbol, p.user, Sell, p.amount, p.price, p.submitTime))
    case TradingUnknown => None
  }

  // ---------------------------------------------------------------- the switch

  datatype Response = Unavailable | FailedPrecondition | Ok(forwarded: Order)

  // An order reaches the routers exactly when the engine is open and the trading side is known.
  function Match(engineIsOpen: bool, request: PlacedOrder): (response: Response)
    ensures response.Ok? <==> engineIsOpen && !request.side.TradingUnknown?
    ensures response.Unavailable? <==> !engineIsOpen
    ensures response.FailedPrecondition? <==> engineIsOpen && request.side.TradingUnknown?
    ensures response.Ok? ==>
              var o := response.forwarded;
              && (o.side.Buy? <==> request.side.TradingBuy?)
              && (o.id, o.symbol, o.user, o.amount, o.price, o.submitTime)
                 == (request.id, request.symbol, request.user, request.amount, request.price, request.submitTime)
  {
    if !engineIsOpen then Unavailable
    else
      match TransformGrpcOrder(request)
      case None => FailedPrecondition
      case Some(order) => Ok(order)
  }

  // ---------------------------------------------------------------- the broadcast

  // Which writes a client accepts: client w's write number k succeeds or fails, for whatever reason.
  type Network = (nat, nat) -> bool

  // The client has everything that was sent since it subscribed.
  ghost predicate Served(net: Network, w: nat, got: seq<Trade>, stream: seq<Trade>) {
    got == stream && forall k: nat :: k < |got| ==> net(w, k)
  }

  // The client has what was sent before its first failed write, and nothing later.
  ghost predicate CutOff(net: Network, w: nat, got: seq<Trade>, stream: seq<Trade>) {
    && |got| < |stream| && got == stream[..|got|]
    && (forall k: nat :: k < |got| ==> net(w, k))
    && !net(w, |got|)
  }

  // One more trade: the write succeeds or it is the first to fail; a dropped client misses it anyway.
  lemma {:induction false} OneMoreTrade(net: Network, w: nat, got: seq<Trade>, stream: seq<Trade>, trade: Trade)
    ensures Served(net, w, got, stream) ==>
              if net(w, |got|) then Served(net, w, got + [trade], stream + [trade])
              else CutOff(net, w, got, stream + [trade])
    ensures CutOff(net, w, got, stream) ==> CutOff(net, w, got, stream + [trade])
  {
    if Served(net, w, got, stream) {
      assert (stream + [trade])[..|got|] == got;
    }
    if CutOff(net, w, got, stream) {
      assert (stream + [trade])[..|got|] == stream[..|got|];
    }
  }

  lemma Erased(s: seq<nat>, it: nat)
    requires Distinct(s) && it < |s|
    ensures var r := s[..it] + s[it + 1..];
            && Distinct(r)
            && (forall w :: w in r <==> w in s && w != s[it])
            && (forall i :: 0 <= i < |r| ==> r[i] == s[if i < it then i else i + 1])
  {
    var r := s[..it] + s[it + 1..];
    forall w | w in s && w != s[it]
      ensures w in r
    {
      var i :| 0 <= i < |s| && s[i] == w;
      assert r[if i < it then i else i - 1] == w;
    }
  }

  ghost predicate OneLonger(now: map<nat, seq<Trade>>, next: map<nat, seq<Trade>>, trade: Trade) {
    next.Keys == now.Keys && forall w :: w in now ==> next[w] == now[w] + [trade]
  }

  // In the middle of sending one trade: the first it clients have it, the others do not yet; now and next
  // are what each client should have before and after.
  ghost predicate Halfway(net: Network, keepers: seq<nat>, it: nat, written: map<nat, seq<Trade>>,
                          now: map<nat, seq<Trade>>, next: map<nat, seq<Trade>>) {
    && it <= |keepers| && Distinct(keepers)
    && written.Keys == now.Keys == next.Keys
    && (forall i :: 0 <= i < |keepers| ==> keepers[i] in now)
    && (forall i :: 0 <= i < it ==> Served(net, keepers[i], written[keepers[i]], next[keepers[i]]))
    && (forall i :: it <= i < |keepers| ==> Served(net, keepers[i], written[keepers[i]], now[keepers[i]]))
    && (forall w :: w in now && w !in keepers ==> CutOff(net, w, written[w], next[w]))
  }

  lemma WriteFails(net: Network, keepers: seq<nat>, it: nat, written: map<nat, seq<Trade>>,
                   now: map<nat, seq<Trade>>, next: map<nat, seq<Trade>>, trade: Trade)
    requires Halfway(net, keepers, it, written, now, next) && it < |keepers|
    requires OneLonger(now, next, trade)
    requires !net(keepers[it], |written[keepers[it]]|)
    ensures Halfway(net, keepers[..it] + keepers[it + 1..], it, written, now, next)
  {
    var w := keepers[it];
    Erased(keepers, it);
    OneMoreTrade(net, w, written[w], now[w], trade);
  }

  lemma WriteSucceeds(net: Network, keepers: seq<nat>, it: nat, written: map<nat, seq<Trade>>,
                      now: map<nat, seq<Trade>>, next: map<nat, seq<Trade>>, trade: Trade)
    requires Halfway(net, keepers, it, written, now, next) && it < |keepers|
    requires OneLonger(now, next, trade)
    requires net(keepers[it], |written[keepers[it]]|)
    ensures Halfway(net, keepers, it + 1, written[keepers[it] := written[keepers[it]] + [trade]], now, next)
  {
    var w := keepers[it];
    OneMoreTrade(net, w, written[w], now[w], trade);
    var written' := written[w := written[w] + [trade]];
    forall i | 0 <= i < |keepers| && i != it
      ensures written'[keepers[i]] == written[keepers[i]]
    {
      assert i < it ==> keepers[i] != keepers[it];
      assert it < i ==> keepers[it] != keepers[i];
    }
  }

  // What was sent since each client subscribed.
  ghost function Streams(since: map<nat, nat>, sent: seq<Trade>): map<nat, seq<Trade>>
    requires forall w :: w in since ==> since[w] <= |sent|
  {
    map w | w in since :: sent[since[w]..]
  }

  lemma StreamsGrow(since: map<nat, nat>, sent: seq<Trade>, trade: Trade)
    requires forall w :: w in since ==> since[w] <= |sent|
    ensures OneLonger(Streams(since, sent), Streams(since, sent + [trade]), trade)
  {}

  // Every client that ever subscribed is either still kept and fully served, or was dropped at its first
  // failed write.
  ghost predicate ServedOrCutOff(net: Network, keepers: seq<nat>, written: map<nat, seq<Trade>>,
                                 streams: map<nat, seq<Trade>>) {
    && Distinct(keepers)
    && written.Keys == streams.Keys
    && (forall i :: 0 <= i < |keepers| ==> keepers[i] in streams)
    && forall w :: w in streams ==>
         if w in keepers then Served(net, w, written[w], streams[w]) else CutOff(net, w, written[w], streams[w])
  }

  lemma SendingStarts(net: Network, keepers: seq<nat>, written: map<nat, seq<Trade>>,
                      now: map<nat, seq<Trade>>, next: map<nat, seq<Trade>>, trade: Trade)
    requires ServedOrCutOff(net, keepers, written, now) && OneLonger(now, next, trade)
    ensures Halfway(net, keepers, 0, written, now, next)
  {
    forall w | w in now && w !in keepers
      ensures CutOff(net, w, written[w], next[w])
    {
      OneMoreTrade(net, w, written[w], now[w], trade);
    }
  }

  lemma SendingEnds(net: Network, keepers: seq<nat>, written: map<nat, seq<Trade>>,
                    now: map<nat, seq<Trade>>, next: map<nat, seq<Trade>>)
    requires Halfway(net, keepers, |keepers|, written, now, next)
    ensures ServedOrCutOff(net, keepers, written, next)
  {}

  class MatchEngineGRPC {
    const net: Network
    var keepers: seq<nat>
    var written: map<nat, seq<Trade>>
    ghost var sent: seq<Trade>
    ghost var since: map<nat, nat>

    ghost predicate Valid()
      reads this
    {
      && (forall w :: w in since ==> since[w] <= |sent|)
      && ServedOrCutOff(net, keepers, written, Streams(since, sent))
    }

    constructor (net: Network)
      ensures Valid() && keepers == [] && sent == []
    {
      this.net := net;
      keepers, written, sent, since := [], map[], [], map[];
    }

    method SubscribeMatchResult(writer: nat)
      requires Valid() && writer !in since
      modifies this`keepers, this`written, this`since
      ensures Valid() && keepers == old(keepers) + [writer] && since == old(since)[writer := |sent|]
    {
      keepers := keepers + [writer];
      written := written[writer := []];
      since := since[writer := |sent|];
    }

    // One trade to every client, erasing those whose write fails.
    method Broadcast(trade: Trade)
      requires Valid()
      modifies this`keepers, this`written, this`sent
      ensures Valid() && sent == old(sent) + [trade]
    {
      ghost var now, next := Streams(since, sent), Streams(since, sent + [trade]);
      StreamsGrow(since, sent, trade);
      SendingStarts(net, keepers, written, now, next, trade);
      var it := 0;
      while it < |keepers|
        invariant Halfway(net, keepers, it, written, now, next) && sent == old(sent)
        decreases |keepers| - it
      {
        var success := net(keepers[it], |written[keepers[it]]|);
        if !success {
          WriteFails(net, keepers, it, written, now, next, trade);
          keepers := keepers[..it] + keepers[it + 1..];
        } else {
          WriteSucceeds(net, keepers, it, written, now, next, trade);
          written := written[keepers[it] := written[keepers[it]] + [trade]];
          it := it + 1;
        }
      }
      SendingEnds(net, keepers, written, now, next);
      sent := sent + [trade];
    }

    method SendMatchResult(tradeList: seq<Trade>)
      requires Valid()
      modifies this`keepers, this`written, this`sent
      ensures Valid() && sent == old(sent) + tradeList
    {
      var i := 0;
      while i < |tradeList|
        invariant 0 <= i <= |tradeList| && Valid() && sent == old(sent) + tradeList[..i]
      {
        Broadcast(tradeList[i]);
        i := i + 1;
      }
    }
  }
}
