/**
  How the cash a buy order locks at placement relates to what settlement
  pays out. Placement locks price × amount and no commission; settlement
  refunds the buyer as if the commission at the buy price had been taken
  too. The two parties together therefore receive the lock less the
  commission, plus the truncated commission at the buy price less the one
  at the execution price. That surplus is zero at equal prices and whenever
  the two truncated commissions agree, and positive otherwise.
 */
module Accounting {
  import opened FixedPoint
  import opened Exchange
  import opened Matching
  import Orders

  /** Exact cash effect of a settlement on the two parties: together they
      are credited the cash the buy order locked, minus the commission,
      plus the commission at the buy price minus the commission actually
      taken. */
  lemma SettlementCashEffect(s: State, id: OrderId, c: OrderId)
    requires id < |s.orders| && c < |s.orders|
    requires Eligible(s.orders[id], s.orders[c])
    requires Settle(s, id, c).Ok?
    ensures
      var t := Settle(s, id, c).value.trade.value;
      var buy := s.orders[t.buyOrderId];
      var cash := Settle(s, id, c).value.state.balances;
      var locked := Orders.BuyCost(buy.price, t.amount);
      (cash[buy.userId] - s.balances[buy.userId]) + (cash[s.orders[t.sellOrderId].userId] - s.balances[s.orders[t.sellOrderId].userId])
      == locked - t.commission + (Commission(locked) - t.commission)
  {
    var t := Settle(s, id, c).value.trade.value;
    var buy := s.orders[t.buyOrderId];
    Mul8Monotone(t.price, buy.price, t.amount);
    CommissionMonotone(t.usdVolume, Mul8(buy.price, t.amount));
  }

  /** At equal prices the parties together receive exactly the locked cash
      less the commission: nothing is created or lost. */
  lemma EqualPriceSettlementConserves(s: State, id: OrderId, c: OrderId)
    requires id < |s.orders| && c < |s.orders|
    requires Eligible(s.orders[id], s.orders[c])
    requires s.orders[id].price == s.orders[c].price
    requires Settle(s, id, c).Ok?
    ensures
      var t := Settle(s, id, c).value.trade.value;
      var buy := s.orders[t.buyOrderId];
      var cash := Settle(s, id, c).value.state.balances;
      (cash[buy.userId] - s.balances[buy.userId]) + (cash[s.orders[t.sellOrderId].userId] - s.balances[s.orders[t.sellOrderId].userId])
      == Orders.BuyCost(buy.price, t.amount) - t.commission
  {
    SettlementCashEffect(s, id, c);
  }

  /** With a buy at 1000, a sell at 900 and amount 0.5, the buyer is
      refunded 50.75 where the price improvement is 50: the extra 0.75 is
      the commission difference at the two prices, which placement never
      took. */
  lemma RefundOvershootsPriceImprovement()
    ensures BuyerRefund(1000 * Scale, 900 * Scale, Scale / 2) == 50_75_000_000
    ensures Orders.BuyCost(1000 * Scale, Scale / 2) - Mul8(900 * Scale, Scale / 2) == 50 * Scale
  {
  }

  /** A buy at 1000.0000001 against a sell at 1000 for amount 1: the two
      truncated commissions agree, so the refund is exactly the price
      improvement of 10^-7 and the surplus is zero although the prices
      differ. */
  lemma NearPricesRefundOnlyTheImprovement()
    ensures Commission(Orders.BuyCost(1000 * Scale + 10, Scale)) == Commission(Mul8(1000 * Scale, Scale))
    ensures BuyerRefund(1000 * Scale + 10, 1000 * Scale, Scale) == 10
  {
  }
}
