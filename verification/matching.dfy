/**
  The matching engine: after an order is placed it looks for at most one
  counter-order of exactly the same amount and, if one exists, settles the
  trade between the two in one atomic step.
 */
module Matching {
  import opened FixedPoint
  import opened Exchange

  /** Whether `cand` may fill `incoming`: open, same symbol, exactly the same
      amount, another user, the opposite side, and a price that crosses. */
  predicate Eligible(incoming: Order, cand: Order)
  {
    && cand.symbol == incoming.symbol
    && cand.status == Open
    && cand.amount == incoming.amount
    && cand.userId != incoming.userId
    && match incoming.side
       case Buy => cand.side == Sell && cand.price <= incoming.price
       case Sell => cand.side == Buy && cand.price >= incoming.price
  }

  /** Search order of counter-orders for an incoming order on `side`: best
      price first (lowest ask for a buy, highest bid for a sell), then the
      earliest `createdAt`; rows the query leaves tied are taken by id. */
  predicate Precedes(side: Side, a: Order, i: OrderId, b: Order, j: OrderId)
  {
    || (side == Buy && a.price < b.price)
    || (side == Sell && a.price > b.price)
    || (a.price == b.price && a.createdAt < b.createdAt)
    || (a.price == b.price && a.createdAt == b.createdAt && i < j)
  }

  lemma PrecedesTransitive(side: Side, a: Order, i: OrderId, b: Order, j: OrderId, c: Order, k: OrderId)
    requires Precedes(side, a, i, b, j) && Precedes(side, b, j, c, k)
    ensures Precedes(side, a, i, c, k)
  {
  }

  lemma PrecedesTotal(side: Side, a: Order, i: OrderId, b: Order, j: OrderId)
    requires i != j
    ensures Precedes(side, a, i, b, j) || Precedes(side, b, j, a, i)
  {
  }

  lemma PrecedesAsymmetric(side: Side, a: Order, i: OrderId, b: Order, j: OrderId)
    requires Precedes(side, a, i, b, j)
    ensures !Precedes(side, b, j, a, i)
  {
  }

  /** `c` is the counter-order the search returns among the first `n` rows:
      eligible, and ahead of every other eligible row. */
  ghost predicate IsBestCounter(orders: seq<Order>, incoming: Order, n: nat, c: OrderId)
    requires n <= |orders|
  {
    && c < n
    && Eligible(incoming, orders[c])
    && forall k | 0 <= k < n && k != c && Eligible(incoming, orders[k]) ::
         Precedes(incoming.side, orders[c], c, orders[k], k)
  }

  /** The best eligible counter-order among the first `n` rows. */
  function Scan(orders: seq<Order>, incoming: Order, n: nat): (r: Option<OrderId>)
    requires n <= |orders|
    ensures r.Some? ==> IsBestCounter(orders, incoming, n, r.value)
    ensures r.None? ==> forall k | 0 <= k < n :: !Eligible(incoming, orders[k])
  {
    if n == 0 then None
    else
      var best := Scan(orders, incoming, n - 1);
      var last := n - 1;
      if !Eligible(incoming, orders[last]) then best
      else if best.None? then Some(last)
      else if Precedes(incoming.side, orders[last], last, orders[best.value], best.value) then
        var b := best.value;
        assert forall k | 0 <= k < last && k != b && Eligible(incoming, orders[k]) ::
            Precedes(incoming.side, orders[last], last, orders[k], k) by {
          forall k | 0 <= k < last && k != b && Eligible(incoming, orders[k])
            ensures Precedes(incoming.side, orders[last], last, orders[k], k)
          {
            PrecedesTransitive(incoming.side, orders[last], last, orders[b], b, orders[k], k);
          }
        }
        Some(last)
      else
        PrecedesTotal(incoming.side, orders[last], last, orders[best.value], best.value);
        best
  }

  /** The counter-order query for order `id`. */
  function FindCounterOrder(orders: seq<Order>, id: OrderId): (r: Option<OrderId>)
    requires id < |orders|
    ensures r.Some? ==> IsBestCounter(orders, orders[id], |orders|, r.value)
    ensures r.None? ==> forall k | 0 <= k < |orders| :: !Eligible(orders[id], orders[k])
  {
    Scan(orders, orders[id], |orders|)
  }

  /** The search result is determined by the ranking alone: a row is
      returned exactly when it is the best eligible counter-order. */
  lemma FindCounterOrderIsBest(orders: seq<Order>, id: OrderId, c: OrderId)
    requires id < |orders|
    ensures FindCounterOrder(orders, id) == Some(c) <==> IsBestCounter(orders, orders[id], |orders|, c)
  {
    var r := FindCounterOrder(orders, id);
    if IsBestCounter(orders, orders[id], |orders|, c) {
      assert r.Some?;
      if r.value != c {
        PrecedesAsymmetric(orders[id].side, orders[c], c, orders[r.value], r.value);
      }
    }
  }

  /** What the buyer gets back at settlement: the total cost at the buy
      order's own price (volume plus commission) minus the total cost at the
      execution price. */
  function BuyerRefund(buyPrice: Positive, execPrice: Positive, amount: Positive): (r: int)
    ensures execPrice <= buyPrice ==> r >= 0
    ensures execPrice == buyPrice ==> r == 0
    ensures r == (Mul8(buyPrice, amount) - Mul8(execPrice, amount))
               + (Commission(Mul8(buyPrice, amount)) - Commission(Mul8(execPrice, amount)))
  {
    var paid := Mul8(buyPrice, amount) + Commission(Mul8(buyPrice, amount));
    var owed := Mul8(execPrice, amount) + Commission(Mul8(execPrice, amount));
    if execPrice <= buyPrice then
      Mul8Monotone(execPrice, buyPrice, amount);
      CommissionMonotone(Mul8(execPrice, amount), Mul8(buyPrice, amount));
      paid - owed
    else
      paid - owed
  }

  /** The result of a match attempt: the new state and the trade, if any. */
  datatype Settlement = Settlement(state: State, trade: Option<Trade>)

  /** The ids of the buy and the sell order when `id` meets `c`. */
  function BuyId(s: State, id: OrderId, c: OrderId): OrderId
    requires id < |s.orders|
  {
    if s.orders[id].side == Buy then id else c
  }

  function SellId(s: State, id: OrderId, c: OrderId): OrderId
    requires id < |s.orders|
  {
    if s.orders[id].side == Buy then c else id
  }

  /** The rows settlement reads without checking: both users and the
      seller's holding. */
  predicate RowsPresent(s: State, id: OrderId, c: OrderId)
    requires id < |s.orders| && c < |s.orders|
  {
    var buyer := s.orders[BuyId(s, id, c)].userId;
    var seller := s.orders[SellId(s, id, c)].userId;
    buyer in s.balances && seller in s.balances && (seller, s.orders[id].symbol) in s.holdings
  }

  /** Settles incoming order `id` against counter-order `c`: the sell order's
      price is the execution price; the seller is paid volume minus
      commission; the buyer gets back any positive refund; the asset moves
      from the seller's locked quantity to the buyer's available quantity;
      both orders are filled and one trade is recorded. */
  function Settle(s: State, id: OrderId, c: OrderId): (r: Result<Settlement>)
    requires id < |s.orders| && c < |s.orders|
    requires Eligible(s.orders[id], s.orders[c])
    ensures r.Err? <==> !RowsPresent(s, id, c)
    ensures r.Err? ==> r.error == MissingRow
    ensures r.Ok? ==> r.value.trade.Some?
    // the trade record
    ensures r.Ok? ==>
      var t := r.value.trade.value;
      && t.buyOrderId == BuyId(s, id, c) && t.sellOrderId == SellId(s, id, c)
      && {t.buyOrderId, t.sellOrderId} == {id, c}
    ensures r.Ok? ==>
      var t := r.value.trade.value;
      var buy := s.orders[BuyId(s, id, c)];
      var sell := s.orders[SellId(s, id, c)];
      && buy.side == Buy && sell.side == Sell
      && t.symbol == s.orders[id].symbol
      && t.price == sell.price && t.price <= buy.price
      && t.amount == s.orders[id].amount == s.orders[c].amount
      && t.usdVolume == Mul8(t.price, t.amount)
      && t.commission == Commission(t.usdVolume)
      && t.commission <= t.usdVolume
      && r.value.state.trades == s.trades + [t]
    // cash
    ensures r.Ok? ==>
      var t := r.value.trade.value;
      var buyer := s.orders[BuyId(s, id, c)].userId;
      var seller := s.orders[SellId(s, id, c)].userId;
      var cash := r.value.state.balances;
      var refund := BuyerRefund(s.orders[BuyId(s, id, c)].price, t.price, t.amount);
      && cash.Keys == s.balances.Keys
      && cash[buyer] == s.balances[buyer] + (if refund > 0 then refund else 0)
      && s.balances[buyer] <= cash[buyer]
      && cash[seller] == s.balances[seller] + (t.usdVolume - t.commission)
      && s.balances[seller] <= cash[seller]
      && forall u | u in s.balances && u != buyer && u != seller :: cash[u] == s.balances[u]
    // assets
    ensures r.Ok? ==>
      var t := r.value.trade.value;
      var buyer := s.orders[BuyId(s, id, c)].userId;
      var seller := s.orders[SellId(s, id, c)].userId;
      var held := r.value.state.holdings;
      && held.Keys == s.holdings.Keys + {(buyer, t.symbol)}
      && HoldingOf(held, buyer, t.symbol).available == HoldingOf(s.holdings, buyer, t.symbol).available + t.amount
      && HoldingOf(held, buyer, t.symbol).locked == HoldingOf(s.holdings, buyer, t.symbol).locked
      && HoldingOf(held, seller, t.symbol).available == HoldingOf(s.holdings, seller, t.symbol).available
      && HoldingOf(held, seller, t.symbol).locked == HoldingOf(s.holdings, seller, t.symbol).locked - t.amount
      && TotalHeld(held, buyer, t.symbol) + TotalHeld(held, seller, t.symbol)
         == TotalHeld(s.holdings, buyer, t.symbol) + TotalHeld(s.holdings, seller, t.symbol)
      && forall key | key in s.holdings && key != (buyer, t.symbol) && key != (seller, t.symbol) ::
           held[key] == s.holdings[key]
    // orders
    ensures r.Ok? ==>
      var orders := r.value.state.orders;
      && |orders| == |s.orders|
      && orders[id] == s.orders[id].(status := Filled)
      && orders[c] == s.orders[c].(status := Filled)
      && forall k | 0 <= k < |s.orders| && k != id && k != c :: orders[k] == s.orders[k]
  {
    var o := s.orders[id];
    var buyId, sellId := BuyId(s, id, c), SellId(s, id, c);
    var buy, sell := s.orders[buyId], s.orders[sellId];
    var buyer, seller := buy.userId, sell.userId;
    if !RowsPresent(s, id, c) then Err(MissingRow)
    else
      var price := sell.price;
      var amount := o.amount;
      var volume := Mul8(price, amount);
      var fee := Commission(volume);
      var refund := BuyerRefund(buy.price, price, amount);
      var cash1 := s.balances[buyer := s.balances[buyer] + (if refund > 0 then refund else 0)];
      var cash2 := cash1[seller := cash1[seller] + (volume - fee)];
      var bought := HoldingOf(s.holdings, buyer, o.symbol);
      var sold := s.holdings[(seller, o.symbol)];
      var held1 := s.holdings[(buyer, o.symbol) := Holding(bought.available + amount, bought.locked)];
      var held2 := held1[(seller, o.symbol) := Holding(sold.available, sold.locked - amount)];
      var orders := s.orders[buyId := buy.(status := Filled)][sellId := sell.(status := Filled)];
      var trade := Trade(buyId, sellId, o.symbol, price, amount, volume, fee);
      Ok(Settlement(State(cash2, held2, orders, s.trades + [trade]), Some(trade)))
  }

  /** The match attempt for order `id`: re-read the order, give up unless it
      is still open, look up the counter-order and settle against it. */
  function Match(s: State, id: OrderId): (r: Result<Settlement>)
    ensures id >= |s.orders| || s.orders[id].status != Open ==> r == Ok(Settlement(s, None))
    ensures id < |s.orders| && (forall k | 0 <= k < |s.orders| :: !Eligible(s.orders[id], s.orders[k])) ==>
              r == Ok(Settlement(s, None))
    ensures r.Ok? && r.value.trade.None? ==> r.value.state == s
    ensures id < |s.orders| && s.orders[id].status == Open && FindCounterOrder(s.orders, id).Some? ==>
              r == Settle(s, id, FindCounterOrder(s.orders, id).value)
    ensures r.Err? ==> r.error == MissingRow
    ensures r.Ok? ==> |r.value.state.orders| == |s.orders|
    ensures r.Ok? && r.value.trade.Some? ==>
      var t := r.value.trade.value;
      && id < |s.orders| && s.orders[id].status == Open
      && ((t.buyOrderId == id && IsBestCounter(s.orders, s.orders[id], |s.orders|, t.sellOrderId))
          || (t.sellOrderId == id && IsBestCounter(s.orders, s.orders[id], |s.orders|, t.buyOrderId)))
      && r.value.state.trades == s.trades + [t]
  {
    if id >= |s.orders| || s.orders[id].status != Open then Ok(Settlement(s, None))
    else
      match FindCounterOrder(s.orders, id)
      case None => Ok(Settlement(s, None))
      case Some(c) => Settle(s, id, c)
  }

  /** In a valid state settlement never meets a missing row, keeps the
      tables consistent, and only fills the two matched open orders. */
  lemma SettlePreservesValid(s: State, id: OrderId, c: OrderId)
    requires Valid(s)
    requires id < |s.orders| && c < |s.orders|
    requires s.orders[id].status == Open
    requires Eligible(s.orders[id], s.orders[c])
    ensures Settle(s, id, c).Ok?
    ensures Valid(Settle(s, id, c).value.state)
    ensures Succeeds(s, Settle(s, id, c).value.state)
  {
    var buyId, sellId := BuyId(s, id, c), SellId(s, id, c);
    var buy, sell := s.orders[buyId], s.orders[sellId];
    var sym := s.orders[id].symbol;
    OpenSellIsLocked(s, sellId);
    var r := Settle(s, id, c);
    assert r.Ok?;
    var s' := r.value.state;
    var t := r.value.trade.value;
    var buyer, seller := buy.userId, sell.userId;
    assert t.symbol == sym && t.amount == sell.amount;
    var orders1 := s.orders[buyId := buy.(status := Filled)];
    assert s'.orders == orders1[sellId := sell.(status := Filled)];

    assert forall k | 0 <= k < |s'.orders| :: s'.orders[k].userId in s'.balances by {
      forall k | 0 <= k < |s'.orders|
        ensures s'.orders[k].userId in s'.balances
      {
        assert s'.orders[k].userId == s.orders[k].userId;
      }
    }
    assert forall u | u in s'.balances :: s'.balances[u] >= 0 by {
      forall u | u in s'.balances
        ensures s'.balances[u] >= 0
      {
        assert u in s.balances;
      }
    }
    assert forall key | key in s'.holdings :: s'.holdings[key].available >= 0 by {
      forall key | key in s'.holdings
        ensures s'.holdings[key].available >= 0
      {
        if key == (buyer, sym) {
          assert HoldingOf(s.holdings, buyer, sym).available >= 0;
        } else if key == (seller, sym) {
          assert s'.holdings[key].available == HoldingOf(s.holdings, seller, sym).available;
        } else {
          assert key in s.holdings;
        }
      }
    }
    forall u: UserId, sym': Symbol
      ensures HoldingOf(s'.holdings, u, sym').locked == OpenSellVolume(s'.orders, u, sym')
    {
      SettleKeepsLocksExact(s, id, c, u, sym');
    }
  }

  /** Settlement keeps each locked quantity equal to the open sell volume:
      the seller's lock shrinks by exactly the amount of the sell order it
      fills, and no other lock moves. */
  lemma SettleKeepsLocksExact(s: State, id: OrderId, c: OrderId, u: UserId, sym': Symbol)
    requires Valid(s)
    requires id < |s.orders| && c < |s.orders|
    requires s.orders[id].status == Open
    requires Eligible(s.orders[id], s.orders[c])
    requires Settle(s, id, c).Ok?
    ensures HoldingOf(Settle(s, id, c).value.state.holdings, u, sym').locked
         == OpenSellVolume(Settle(s, id, c).value.state.orders, u, sym')
  {
    var buyId, sellId := BuyId(s, id, c), SellId(s, id, c);
    var buy, sell := s.orders[buyId], s.orders[sellId];
    var sym := s.orders[id].symbol;
    var s' := Settle(s, id, c).value.state;
    var orders1 := s.orders[buyId := buy.(status := Filled)];
    assert s'.orders == orders1[sellId := sell.(status := Filled)];
    OpenSellVolumeUpdate(s.orders, buyId, buy.(status := Filled), u, sym');
    OpenSellVolumeUpdate(orders1, sellId, sell.(status := Filled), u, sym');
    assert OpenSellVolume(s'.orders, u, sym') == OpenSellVolume(s.orders, u, sym') - Reserved(sell, u, sym');
    assert HoldingOf(s.holdings, u, sym').locked == OpenSellVolume(s.orders, u, sym');
    if (u, sym') == (sell.userId, sym) {
    } else if (u, sym') == (buy.userId, sym) {
    } else if (u, sym') in s.holdings {
      assert s'.holdings[(u, sym')] == s.holdings[(u, sym')];
    } else {
      assert (u, sym') !in s'.holdings;
    }
  }

  /** A match attempt on a valid state always completes, keeps the state
      valid, and changes order rows only by filling open ones. It trades
      exactly when the order is open and some row is eligible against it. */
  lemma MatchPreservesValid(s: State, id: OrderId)
    requires Valid(s)
    ensures Match(s, id).Ok?
    ensures Valid(Match(s, id).value.state)
    ensures Succeeds(s, Match(s, id).value.state)
    ensures Match(s, id).value.trade.Some? <==>
      (id < |s.orders| && s.orders[id].status == Open
       && exists k | 0 <= k < |s.orders| :: Eligible(s.orders[id], s.orders[k]))
  {
    if id < |s.orders| && s.orders[id].status == Open {
      var found := FindCounterOrder(s.orders, id);
      if found.Some? {
        SettlePreservesValid(s, id, found.value);
        assert Eligible(s.orders[id], s.orders[found.value]);
      }
    }
  }
}
