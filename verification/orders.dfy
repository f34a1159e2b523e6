/**
  The order lifecycle: placing a limit order (validation, then locking the
  cash or the asset it commits, then one match attempt) and cancelling an
  open order (releasing what it locked).
 */
module Orders {
  import opened FixedPoint
  import opened Exchange
  import Matching

  /** The tradeable symbols. */
  const AllowedSymbols: seq<Symbol> := ["BTC", "ETH"]

  /** An order request as the caller submits it; price and amount are
      scale-8 values. */
  datatype OrderRequest = OrderRequest(symbol: string, side: string, price: int, amount: int)

  /** A request that passed validation. */
  datatype Ticket = Ticket(symbol: Symbol, side: Side, price: Positive, amount: Positive)

  /** What placement returns: the id of the new order and the order as it
      was created, before the match attempt. */
  datatype Placed = Placed(id: OrderId, order: Order)

  /** A state together with an outcome; placement needs it because a match
      failure surfaces after the placement has already been committed. */
  datatype Reply<T> = Reply(state: State, result: Result<T>)

  datatype Cancellation = Cancellation(state: State, order: Order)

  function ParseSide(side: string): (r: Option<Side>)
    ensures r == Some(Buy) <==> side == "buy"
    ensures r == Some(Sell) <==> side == "sell"
  {
    if side == "buy" then Some(Buy)
    else if side == "sell" then Some(Sell)
    else None
  }

  /** Input validation, checked in the order symbol, side, price, amount;
      the first failing check decides the error. */
  function Validate(req: OrderRequest): (r: Result<Ticket>)
    ensures r.Ok? <==> req.symbol in AllowedSymbols && ParseSide(req.side).Some? && req.price > 0 && req.amount > 0
    ensures r.Ok? ==> r.value.symbol == req.symbol && r.value.side == ParseSide(req.side).value
                      && r.value.price == req.price && r.value.amount == req.amount
    ensures req.symbol !in AllowedSymbols ==> r == Err(InvalidSymbol)
    ensures req.symbol in AllowedSymbols && ParseSide(req.side).None? ==> r == Err(InvalidSide)
    ensures req.symbol in AllowedSymbols && ParseSide(req.side).Some? && req.price <= 0 ==> r == Err(InvalidPrice)
    ensures req.symbol in AllowedSymbols && ParseSide(req.side).Some? && req.price > 0 && req.amount <= 0 ==>
              r == Err(InvalidAmount)
  {
    if req.symbol !in AllowedSymbols then Err(InvalidSymbol)
    else if ParseSide(req.side).None? then Err(InvalidSide)
    else if req.price <= 0 then Err(InvalidPrice)
    else if req.amount <= 0 then Err(InvalidAmount)
    else Ok(Ticket(req.symbol, ParseSide(req.side).value, req.price, req.amount))
  }

  /** The order row placement creates: open, stamped with the next sequence
      number. */
  function NewOrder(s: State, user: UserId, t: Ticket): Order
  {
    Order(user, t.symbol, t.side, t.price, t.amount, Open, |s.orders|)
  }

  /** The cash a buy order locks: price × amount at scale 8. */
  function BuyCost(price: Positive, amount: Positive): nat
  {
    Mul8(price, amount)
  }

  /** Buy placement: fails exactly when the balance is short of the cost;
      otherwise debits the cost and appends the open order. */
  function PlaceBuy(s: State, user: UserId, t: Ticket): (r: Result<State>)
    requires user in s.balances
    requires t.side == Buy
    ensures r.Err? <==> s.balances[user] < BuyCost(t.price, t.amount)
    ensures r.Err? ==> r.error == InsufficientBalance
    ensures r.Ok? ==>
      && r.value.balances == s.balances[user := s.balances[user] - BuyCost(t.price, t.amount)]
      && r.value.holdings == s.holdings
      && r.value.orders == s.orders + [NewOrder(s, user, t)]
      && r.value.trades == s.trades
  {
    var cost := BuyCost(t.price, t.amount);
    if s.balances[user] < cost then Err(InsufficientBalance)
    else
      var cash := s.balances[user := s.balances[user] - cost];
      Ok(State(cash, s.holdings, s.orders + [NewOrder(s, user, t)], s.trades))
  }

  /** Sell placement: fails when the user has no holding row in the symbol
      or too little available; otherwise moves the amount from available to
      locked and appends the open order. No holding row is ever created. */
  function PlaceSell(s: State, user: UserId, t: Ticket): (r: Result<State>)
    requires t.side == Sell
    ensures r.Err? <==> (user, t.symbol) !in s.holdings || s.holdings[(user, t.symbol)].available < t.amount
    ensures r.Err? ==> r.error == InsufficientAsset
    ensures r.Ok? ==>
      var h := s.holdings[(user, t.symbol)];
      && r.value.balances == s.balances
      && r.value.holdings.Keys == s.holdings.Keys
      && r.value.holdings[(user, t.symbol)] == Holding(h.available - t.amount, h.locked + t.amount)
      && TotalHeld(r.value.holdings, user, t.symbol) == TotalHeld(s.holdings, user, t.symbol)
      && (forall key | key in s.holdings && key != (user, t.symbol) :: r.value.holdings[key] == s.holdings[key])
      && r.value.orders == s.orders + [NewOrder(s, user, t)]
      && r.value.trades == s.trades
  {
    if (user, t.symbol) !in s.holdings || s.holdings[(user, t.symbol)].available < t.amount then
      Err(InsufficientAsset)
    else
      var h := s.holdings[(user, t.symbol)];
      var held := s.holdings[(user, t.symbol) := Holding(h.available - t.amount, h.locked + t.amount)];
      Ok(State(s.balances, held, s.orders + [NewOrder(s, user, t)], s.trades))
  }

  /** Whether `user` has what an order for ticket `t` must lock: the cash
      for a buy, an asset row with enough available for a sell. */
  predicate Funded(s: State, user: UserId, t: Ticket)
    requires user in s.balances
  {
    if t.side == Buy then s.balances[user] >= BuyCost(t.price, t.amount)
    else (user, t.symbol) in s.holdings && s.holdings[(user, t.symbol)].available >= t.amount
  }

  /** The locking step of placement, by side. */
  function Reserve(s: State, user: UserId, t: Ticket): Result<State>
    requires user in s.balances
  {
    if t.side == Buy then PlaceBuy(s, user, t) else PlaceSell(s, user, t)
  }

  /** Order placement by `user`: validate, lock, create the order open, then
      run one match attempt. Any failure before the order exists leaves the
      state as it was; the returned order is the one created, whatever the
      match attempt did to it afterwards. */
  function PlaceOrder(s: State, user: UserId, req: OrderRequest): (out: Reply<Placed>)
    requires user in s.balances
    ensures Validate(req).Err? ==> out == Reply(s, Err(Validate(req).error))
    ensures (Validate(req).Ok? && Validate(req).value.side == Buy
             && s.balances[user] < BuyCost(req.price, req.amount)) ==>
              out == Reply(s, Err(InsufficientBalance))
    ensures (Validate(req).Ok? && Validate(req).value.side == Sell
             && ((user, req.symbol) !in s.holdings || s.holdings[(user, req.symbol)].available < req.amount)) ==>
              out == Reply(s, Err(InsufficientAsset))
    ensures out.result.Ok? ==>
      && Validate(req).Ok?
      && out.result.value.id == |s.orders|
      && out.result.value.order == NewOrder(s, user, Validate(req).value)
      && |out.state.orders| == |s.orders| + 1
      && |s.trades| <= |out.state.trades| <= |s.trades| + 1
    ensures Validate(req).Ok? && Funded(s, user, Validate(req).value) ==>
      var s1 := Reserve(s, user, Validate(req).value).value;
      var m := Matching.Match(s1, |s.orders|);
      && Reserve(s, user, Validate(req).value).Ok?
      && out.state == (if m.Ok? then m.value.state else s1)
      && (m.Ok? ==> out.result == Ok(Placed(|s.orders|, NewOrder(s, user, Validate(req).value))))
      && (m.Err? ==> out.result == Err(m.error))
  {
    match Validate(req)
    case Err(e) => Reply(s, Err(e))
    case Ok(t) =>
      match Reserve(s, user, t)
      case Err(e) => Reply(s, Err(e))
      case Ok(s1) =>
        var id := |s.orders|;
        match Matching.Match(s1, id)
        case Err(e) => Reply(s1, Err(e))
        case Ok(m) =>
          Reply(m.state, Ok(Placed(id, s1.orders[id])))
  }

  /** Releases the cash a buy order locked: credits price × amount to its
      owner. */
  function RefundBuy(s: State, o: Order): (r: Result<State>)
    ensures r.Err? <==> o.userId !in s.balances
    ensures r.Err? ==> r.error == MissingRow
    ensures r.Ok? ==>
      && r.value.balances == s.balances[o.userId := s.balances[o.userId] + BuyCost(o.price, o.amount)]
      && r.value.holdings == s.holdings && r.value.orders == s.orders && r.value.trades == s.trades
  {
    if o.userId !in s.balances then Err(MissingRow)
    else Ok(s.(balances := s.balances[o.userId := s.balances[o.userId] + BuyCost(o.price, o.amount)]))
  }

  /** Releases the asset a sell order locked: moves its amount from locked
      back to available. */
  function RefundSell(s: State, o: Order): (r: Result<State>)
    ensures r.Err? <==> (o.userId, o.symbol) !in s.holdings
    ensures r.Err? ==> r.error == MissingRow
    ensures r.Ok? ==>
      var h := s.holdings[(o.userId, o.symbol)];
      && r.value.holdings == s.holdings[(o.userId, o.symbol) := Holding(h.available + o.amount, h.locked - o.amount)]
      && TotalHeld(r.value.holdings, o.userId, o.symbol) == TotalHeld(s.holdings, o.userId, o.symbol)
      && r.value.balances == s.balances && r.value.orders == s.orders && r.value.trades == s.trades
  {
    if (o.userId, o.symbol) !in s.holdings then Err(MissingRow)
    else
      var h := s.holdings[(o.userId, o.symbol)];
      Ok(s.(holdings := s.holdings[(o.userId, o.symbol) := Holding(h.available + o.amount, h.locked - o.amount)]))
  }

  /** Cancellation of order `id` by `user`: the order must exist, belong to
      the user and be open, checked in that order. The lock is released and
      the order becomes Cancelled; nothing else changes. */
  function CancelOrder(s: State, user: UserId, id: OrderId): (r: Result<Cancellation>)
    ensures id >= |s.orders| ==> r == Err(OrderNotFound)
    ensures id < |s.orders| && s.orders[id].userId != user ==> r == Err(NotOrderOwner)
    ensures id < |s.orders| && s.orders[id].userId == user && s.orders[id].status != Open ==>
              r == Err(OrderNotOpen)
    ensures r.Err? && id < |s.orders| && s.orders[id].userId == user && s.orders[id].status == Open ==>
              r.error == MissingRow
    ensures r.Ok? <==>
      && id < |s.orders| && s.orders[id].userId == user && s.orders[id].status == Open
      && (if s.orders[id].side == Buy then user in s.balances else (user, s.orders[id].symbol) in s.holdings)
    ensures r.Ok? ==>
      var o := s.orders[id];
      && id < |s.orders| && o.userId == user && o.status == Open
      && r.value.order == o.(status := Cancelled)
      && r.value.state.orders == s.orders[id := o.(status := Cancelled)]
      && r.value.state.trades == s.trades
    ensures r.Ok? && s.orders[id].side == Buy ==>
      var o := s.orders[id];
      && user in s.balances
      && r.value.state.balances == s.balances[user := s.balances[user] + BuyCost(o.price, o.amount)]
      && r.value.state.holdings == s.holdings
    ensures r.Ok? && s.orders[id].side == Sell ==>
      var o := s.orders[id];
      && (user, o.symbol) in s.holdings
      && var h := s.holdings[(user, o.symbol)];
      && r.value.state.balances == s.balances
      && r.value.state.holdings == s.holdings[(user, o.symbol) := Holding(h.available + o.amount, h.locked - o.amount)]
  {
    if id >= |s.orders| then Err(OrderNotFound)
    else
      var o := s.orders[id];
      if o.userId != user then Err(NotOrderOwner)
      else if o.status != Open then Err(OrderNotOpen)
      else
        var s1 :- if o.side == Buy then RefundBuy(s, o) else RefundSell(s, o);
        var closed := o.(status := Cancelled);
        Ok(Cancellation(s1.(orders := s1.orders[id := closed]), closed))
  }

  /** Buy placement keeps a valid state valid. */
  lemma PlaceBuyPreservesValid(s: State, user: UserId, t: Ticket)
    requires Valid(s) && user in s.balances && t.side == Buy
    requires PlaceBuy(s, user, t).Ok?
    ensures Valid(PlaceBuy(s, user, t).value)
    ensures Succeeds(s, PlaceBuy(s, user, t).value)
  {
    var s' := PlaceBuy(s, user, t).value;
    var o := NewOrder(s, user, t);
    forall u: UserId, sym: Symbol
      ensures HoldingOf(s'.holdings, u, sym).locked == OpenSellVolume(s'.orders, u, sym)
    {
      OpenSellVolumeAppend(s.orders, o, u, sym);
    }
  }

  /** Sell placement keeps a valid state valid: the lock it adds is exactly
      the amount of the open sell order it appends. */
  lemma PlaceSellPreservesValid(s: State, user: UserId, t: Ticket)
    requires Valid(s) && user in s.balances && t.side == Sell
    requires PlaceSell(s, user, t).Ok?
    ensures Valid(PlaceSell(s, user, t).value)
    ensures Succeeds(s, PlaceSell(s, user, t).value)
  {
    var s' := PlaceSell(s, user, t).value;
    var o := NewOrder(s, user, t);
    forall u: UserId, sym: Symbol
      ensures HoldingOf(s'.holdings, u, sym).locked == OpenSellVolume(s'.orders, u, sym)
    {
      OpenSellVolumeAppend(s.orders, o, u, sym);
      assert HoldingOf(s.holdings, u, sym).locked == OpenSellVolume(s.orders, u, sym);
    }
    forall key | key in s'.holdings
      ensures s'.holdings[key].available >= 0
    {
      assert key in s.holdings;
    }
  }

  /** Placement on a valid state keeps it valid, changes existing orders
      only by filling open ones, and fails only for a reason the caller can
      act on: never because a row is missing. */
  lemma PlaceOrderPreservesValid(s: State, user: UserId, req: OrderRequest)
    requires Valid(s) && user in s.balances
    ensures Valid(PlaceOrder(s, user, req).state)
    ensures Succeeds(s, PlaceOrder(s, user, req).state)
    ensures PlaceOrder(s, user, req).result.Err? ==> PlaceOrder(s, user, req).result.error != MissingRow
    ensures PlaceOrder(s, user, req).result.Ok? <==> Validate(req).Ok? && Funded(s, user, Validate(req).value)
  {
    var v := Validate(req);
    if v.Ok? {
      var t := v.value;
      var placed := Reserve(s, user, t);
      if placed.Ok? {
        var s1 := placed.value;
        if t.side == Buy {
          PlaceBuyPreservesValid(s, user, t);
        } else {
          PlaceSellPreservesValid(s, user, t);
        }
        Matching.MatchPreservesValid(s1, |s.orders|);
        SucceedsTransitive(s, s1, Matching.Match(s1, |s.orders|).value.state);
      }
    }
  }

  /** Cancellation on a valid state fails only for the three reasons it
      checks, keeps the state valid, and only closes the one open order. */
  lemma CancelOrderPreservesValid(s: State, user: UserId, id: OrderId)
    requires Valid(s)
    ensures CancelOrder(s, user, id).Ok? <==>
              (id < |s.orders| && s.orders[id].userId == user && s.orders[id].status == Open)
    ensures CancelOrder(s, user, id).Err? ==>
              CancelOrder(s, user, id).error in {OrderNotFound, NotOrderOwner, OrderNotOpen}
    ensures CancelOrder(s, user, id).Ok? ==> Valid(CancelOrder(s, user, id).value.state)
    ensures CancelOrder(s, user, id).Ok? ==> Succeeds(s, CancelOrder(s, user, id).value.state)
  {
    if id < |s.orders| && s.orders[id].userId == user && s.orders[id].status == Open {
      var o := s.orders[id];
      if o.side == Sell {
        OpenSellIsLocked(s, id);
      }
      var s' := CancelOrder(s, user, id).value.state;
      forall u: UserId, sym: Symbol
        ensures HoldingOf(s'.holdings, u, sym).locked == OpenSellVolume(s'.orders, u, sym)
      {
        OpenSellVolumeUpdate(s.orders, id, o.(status := Cancelled), u, sym);
        assert HoldingOf(s.holdings, u, sym).locked == OpenSellVolume(s.orders, u, sym);
      }
      forall key | key in s'.holdings
        ensures s'.holdings[key].available >= 0
      {
        assert key in s.holdings;
      }
      forall k | 0 <= k < |s'.orders|
        ensures s'.orders[k].userId in s'.balances
      {
        assert s'.orders[k].userId == s.orders[k].userId;
      }
    }
  }

  /** Cancelling a freshly placed buy order gives back exactly the cash its
      placement took: balances and holdings return to what they were. */
  lemma PlaceBuyThenCancel(s: State, user: UserId, t: Ticket)
    requires user in s.balances && t.side == Buy
    requires PlaceBuy(s, user, t).Ok?
    ensures var r := CancelOrder(PlaceBuy(s, user, t).value, user, |s.orders|);
      && r.Ok?
      && r.value.state.balances == s.balances
      && r.value.state.holdings == s.holdings
      && r.value.state.orders == s.orders + [NewOrder(s, user, t).(status := Cancelled)]
      && r.value.state.trades == s.trades
  {
    var s1 := PlaceBuy(s, user, t).value;
    assert s1.orders[|s.orders|] == NewOrder(s, user, t);
    assert s1.orders[|s.orders| := NewOrder(s, user, t).(status := Cancelled)]
        == s.orders + [NewOrder(s, user, t).(status := Cancelled)];
  }

  /** Cancelling a freshly placed sell order moves its amount back from
      locked to available: the holding row is exactly as before. */
  lemma PlaceSellThenCancel(s: State, user: UserId, t: Ticket)
    requires t.side == Sell
    requires PlaceSell(s, user, t).Ok?
    ensures var r := CancelOrder(PlaceSell(s, user, t).value, user, |s.orders|);
      && r.Ok?
      && r.value.state.balances == s.balances
      && r.value.state.holdings == s.holdings
      && r.value.state.orders == s.orders + [NewOrder(s, user, t).(status := Cancelled)]
      && r.value.state.trades == s.trades
  {
    var s1 := PlaceSell(s, user, t).value;
    assert s1.orders[|s.orders|] == NewOrder(s, user, t);
    assert s1.orders[|s.orders| := NewOrder(s, user, t).(status := Cancelled)]
        == s.orders + [NewOrder(s, user, t).(status := Cancelled)];
    var key := (user, t.symbol);
    assert s1.holdings[key := s.holdings[key]] == s.holdings;
  }

  /** A placed order that found no counter-order can be cancelled by its
      owner, and that cancellation restores every balance and holding. */
  lemma PlaceOrderThenCancel(s: State, user: UserId, req: OrderRequest)
    requires user in s.balances
    requires PlaceOrder(s, user, req).result.Ok?
    requires |PlaceOrder(s, user, req).state.trades| == |s.trades|
    ensures var r := CancelOrder(PlaceOrder(s, user, req).state, user, |s.orders|);
      && r.Ok?
      && r.value.state.balances == s.balances
      && r.value.state.holdings == s.holdings
  {
    var t := Validate(req).value;
    var s1 := Reserve(s, user, t).value;
    assert PlaceOrder(s, user, req).state == s1;
    if t.side == Buy {
      PlaceBuyThenCancel(s, user, t);
    } else {
      PlaceSellThenCancel(s, user, t);
    }
  }
}
