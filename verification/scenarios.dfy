/**
  The feature tests' scenarios, played through the model with concrete
  numbers. Where a test asserts something the code does not do, the lemma
  states what the code does.
 */
module Scenarios {
  import opened FixedPoint
  import opened Exchange
  import opened Matching
  import opened Orders

  const Buyer: UserId := 1
  const Seller: UserId := 2

  /** A buyer with 10000 USD and a seller with 0 USD and 1 BTC available. */
  function Start(): (s: State)
    ensures Valid(s)
  {
    var s := State(map[Buyer := 10000 * Scale, Seller := 0], map[(Seller, "BTC") := Holding(Scale, 0)], [], []);
    InitialStateIsValid(s);
    s
  }

  /** The seller offers `amount` BTC at `sellPrice`, then the buyer bids for
      `buyAmount` at `buyPrice`. */
  function SellThenBuy(sellPrice: int, amount: int, buyPrice: int, buyAmount: int): State
  {
    var s1 := PlaceOrder(Start(), Seller, OrderRequest("BTC", "sell", sellPrice, amount)).state;
    PlaceOrder(s1, Buyer, OrderRequest("BTC", "buy", buyPrice, buyAmount)).state
  }

  /** Sell 0.5 at 1000, then buy 0.5 at 1000: both orders fill and one
      trade of volume 500 and commission 7.5 is recorded. The buyer ends
      with 9500 (the test expects 9492.5: placement never takes a
      commission from the buyer) and the seller with 492.5 (the test
      expects 500: the seller bears the commission). */
  lemma EqualPricesMatch()
    ensures var s := SellThenBuy(1000 * Scale, Scale / 2, 1000 * Scale, Scale / 2);
      && |s.orders| == 2 && s.orders[0].status == Filled && s.orders[1].status == Filled
      && s.trades == [Trade(1, 0, "BTC", 1000 * Scale, Scale / 2, 500 * Scale, 7_50_000_000)]
      && s.balances[Buyer] == 9500 * Scale
      && s.balances[Seller] == 492_50_000_000
      && s.holdings[(Buyer, "BTC")] == Holding(Scale / 2, 0)
      && s.holdings[(Seller, "BTC")] == Holding(Scale / 2, 0)
  {
    var s0 := Start();
    var s1 := PlaceOrder(s0, Seller, OrderRequest("BTC", "sell", 1000 * Scale, Scale / 2)).state;
    assert s1.orders == [Order(Seller, "BTC", Sell, 1000 * Scale, Scale / 2, Open, 0)];
    assert s1.holdings == map[(Seller, "BTC") := Holding(Scale / 2, Scale / 2)];
    var s2 := PlaceBuy(s1, Buyer, Ticket("BTC", Buy, 1000 * Scale, Scale / 2)).value;
    assert s2.orders[0] == s1.orders[0] && s2.orders[1].side == Buy;
    assert IsBestCounter(s2.orders, s2.orders[1], 2, 0);
    FindCounterOrderIsBest(s2.orders, 1, 0);
  }

  /** A buy at 1000 against a resting sell at 900 trades at 900, volume
      450, commission 6.75. The buyer locked 500 and gets 50.75 back, so
      ends with 9550.75; the seller ends with 443.25. Together they hold
      0.75 more than the 500 locked less the commission. */
  lemma BuyMatchesLowerSell()
    ensures var s := SellThenBuy(900 * Scale, Scale / 2, 1000 * Scale, Scale / 2);
      && |s.trades| == 1 && s.trades[0].price == 900 * Scale && s.trades[0].usdVolume == 450 * Scale
      && s.trades[0].commission == 6_75_000_000
      && s.balances[Buyer] == 9550_75_000_000
      && s.balances[Seller] == 443_25_000_000
  {
    var s0 := Start();
    var s1 := PlaceOrder(s0, Seller, OrderRequest("BTC", "sell", 900 * Scale, Scale / 2)).state;
    assert s1.orders == [Order(Seller, "BTC", Sell, 900 * Scale, Scale / 2, Open, 0)];
    var s2 := PlaceBuy(s1, Buyer, Ticket("BTC", Buy, 1000 * Scale, Scale / 2)).value;
    assert s2.orders[0] == s1.orders[0] && s2.orders[1].side == Buy;
    assert IsBestCounter(s2.orders, s2.orders[1], 2, 0);
    FindCounterOrderIsBest(s2.orders, 1, 0);
  }

  /** A buy of 0.3 does not match a sell of 0.5: no trade, both stay open. */
  lemma DifferentAmountsDoNotMatch()
    ensures var s := SellThenBuy(1000 * Scale, Scale / 2, 1000 * Scale, 3 * Scale / 10);
      && s.trades == [] && |s.orders| == 2 && s.orders[0].status == Open && s.orders[1].status == Open
  {
    var s0 := Start();
    var s1 := PlaceOrder(s0, Seller, OrderRequest("BTC", "sell", 1000 * Scale, Scale / 2)).state;
    assert s1.orders == [Order(Seller, "BTC", Sell, 1000 * Scale, Scale / 2, Open, 0)];
    var s2 := PlaceBuy(s1, Buyer, Ticket("BTC", Buy, 1000 * Scale, 3 * Scale / 10)).value;
    assert !Eligible(s2.orders[1], s2.orders[0]);
  }

  /** A buy at 900 does not match a sell at 1000. */
  lemma UncrossedPricesDoNotMatch()
    ensures SellThenBuy(1000 * Scale, Scale / 2, 900 * Scale, Scale / 2).trades == []
  {
    var s0 := Start();
    var s1 := PlaceOrder(s0, Seller, OrderRequest("BTC", "sell", 1000 * Scale, Scale / 2)).state;
    assert s1.orders == [Order(Seller, "BTC", Sell, 1000 * Scale, Scale / 2, Open, 0)];
    var s2 := PlaceBuy(s1, Buyer, Ticket("BTC", Buy, 900 * Scale, Scale / 2)).value;
    assert !Eligible(s2.orders[1], s2.orders[0]);
  }

  /** A user's own crossing orders never match each other. */
  lemma NoSelfMatch()
    ensures
      var s0 := State(map[Buyer := 10000 * Scale], map[(Buyer, "BTC") := Holding(Scale, 0)], [], []);
      var s1 := PlaceOrder(s0, Buyer, OrderRequest("BTC", "sell", 1000 * Scale, Scale / 2)).state;
      PlaceOrder(s1, Buyer, OrderRequest("BTC", "buy", 1000 * Scale, Scale / 2)).state.trades == []
  {
    var s0 := State(map[Buyer := 10000 * Scale], map[(Buyer, "BTC") := Holding(Scale, 0)], [], []);
    var s1 := PlaceOrder(s0, Buyer, OrderRequest("BTC", "sell", 1000 * Scale, Scale / 2)).state;
    assert s1.orders == [Order(Buyer, "BTC", Sell, 1000 * Scale, Scale / 2, Open, 0)];
    var s2 := PlaceBuy(s1, Buyer, Ticket("BTC", Buy, 1000 * Scale, Scale / 2)).value;
    assert !Eligible(s2.orders[1], s2.orders[0]);
  }

  /** Sell 0.5 at 2000, then buy 0.5 at 2000: the recorded trade has
      volume 2000 × 0.5 = 1000 and commission 15. */
  lemma CommissionOfAThousand()
    ensures SellThenBuy(2000 * Scale, Scale / 2, 2000 * Scale, Scale / 2).trades
            == [Trade(1, 0, "BTC", 2000 * Scale, Scale / 2, 1000 * Scale, 15 * Scale)]
  {
    var s0 := Start();
    var s1 := PlaceOrder(s0, Seller, OrderRequest("BTC", "sell", 2000 * Scale, Scale / 2)).state;
    assert s1.orders == [Order(Seller, "BTC", Sell, 2000 * Scale, Scale / 2, Open, 0)];
    assert s1.holdings == map[(Seller, "BTC") := Holding(Scale / 2, Scale / 2)];
    var s2 := PlaceBuy(s1, Buyer, Ticket("BTC", Buy, 2000 * Scale, Scale / 2)).value;
    assert s2.orders[0] == s1.orders[0] && s2.orders[1].side == Buy;
    assert IsBestCounter(s2.orders, s2.orders[1], 2, 0);
    FindCounterOrderIsBest(s2.orders, 1, 0);
  }

  /** A buy of 0.1 at 95000 from 10000 leaves 500 and an open order; from
      100 it is refused and the balance stays 100. */
  lemma BuyPlacementLocksCost()
    ensures
      var r := PlaceOrder(Start(), Buyer, OrderRequest("BTC", "buy", 95000 * Scale, Scale / 10));
      && r.result.Ok? && r.result.value.order.status == Open
      && r.state.balances[Buyer] == 500 * Scale
    ensures
      var s := State(map[Buyer := 100 * Scale], map[], [], []);
      PlaceOrder(s, Buyer, OrderRequest("BTC", "buy", 95000 * Scale, Scale / 10)) == Reply(s, Err(InsufficientBalance))
  {
    var s1 := PlaceBuy(Start(), Buyer, Ticket("BTC", Buy, 95000 * Scale, Scale / 10)).value;
    assert FindCounterOrder(s1.orders, 0) == None;
  }

  /** Selling 1.0 with 0.01 available is refused; selling 0.5 of 1.0 moves
      0.5 from available to locked. */
  lemma SellPlacementLocksAsset()
    ensures
      var r := PlaceOrder(Start(), Seller, OrderRequest("BTC", "sell", 95000 * Scale, Scale / 2));
      r.state.holdings[(Seller, "BTC")] == Holding(Scale / 2, Scale / 2)
    ensures
      var s := State(map[Seller := 0], map[(Seller, "BTC") := Holding(Scale / 100, 0)], [], []);
      PlaceOrder(s, Seller, OrderRequest("BTC", "sell", 95000 * Scale, Scale)) == Reply(s, Err(InsufficientAsset))
  {
    var s1 := PlaceSell(Start(), Seller, Ticket("BTC", Sell, 95000 * Scale, Scale / 2)).value;
    assert FindCounterOrder(s1.orders, 0) == None;
  }

  /** Invalid symbol and non-positive price are refused before anything
      changes. */
  lemma InvalidRequestsAreRefused()
    ensures PlaceOrder(Start(), Buyer, OrderRequest("INVALID", "buy", 100 * Scale, Scale))
            == Reply(Start(), Err(InvalidSymbol))
    ensures PlaceOrder(Start(), Buyer, OrderRequest("BTC", "buy", 0, Scale))
            == Reply(Start(), Err(InvalidPrice))
  {
    assert "INVALID" !in AllowedSymbols;
  }

  /** The cancellation tests: a buy order of 1 at 1000 is refunded 1000;
      a sell order of 1 moves 1 from locked back to available; a filled
      order cannot be cancelled; another user's order cannot be cancelled. */
  lemma CancellationScenarios()
    ensures
      var s := State(map[Buyer := 9000 * Scale], map[], [Order(Buyer, "BTC", Buy, 1000 * Scale, Scale, Open, 0)], []);
      var r := CancelOrder(s, Buyer, 0);
      r.Ok? && r.value.order.status == Cancelled && r.value.state.balances[Buyer] == 10000 * Scale
    ensures
      var s := State(map[Seller := 0], map[(Seller, "BTC") := Holding(0, Scale)],
                     [Order(Seller, "BTC", Sell, 95000 * Scale, Scale, Open, 0)], []);
      var r := CancelOrder(s, Seller, 0);
      r.Ok? && r.value.order.status == Cancelled && r.value.state.holdings[(Seller, "BTC")] == Holding(Scale, 0)
    ensures
      var s := State(map[Buyer := 10000 * Scale], map[], [Order(Buyer, "BTC", Buy, 1000 * Scale, Scale, Filled, 0)], []);
      CancelOrder(s, Buyer, 0) == Err(OrderNotOpen)
    ensures
      var s := State(map[Buyer := 10000 * Scale, Seller := 10000 * Scale], map[],
                     [Order(Buyer, "BTC", Buy, 1000 * Scale, Scale, Open, 0)], []);
      CancelOrder(s, Seller, 0) == Err(NotOrderOwner)
  {
  }
}
