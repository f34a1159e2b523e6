/**
  The exchange's persistent state with the database abstracted away: users'
  cash balances, per-(user, symbol) asset holdings, the orders table and the
  trades table. Orders and trades are never deleted and their ids are
  auto-incremented, so an id is the row's position in its table.
 */
module Exchange {
  import opened FixedPoint

  type UserId = nat
  type OrderId = nat

  /** A ticker as the code stores it: a plain string such as "BTC". */
  type Symbol = string

  /** Prices and amounts of a placed order: strictly positive scale-8 values. */
  type Positive = x: int | x > 0 witness 1

  datatype Option<T> = None | Some(value: T)

  datatype Side = Buy | Sell

  datatype Status = Open | Filled | Cancelled

  /** A row of the orders table; its id is its index in `State.orders`.
      `createdAt` is the creation timestamp, modelled as a sequence number. */
  datatype Order = Order(
    userId: UserId,
    symbol: Symbol,
    side: Side,
    price: Positive,
    amount: Positive,
    status: Status,
    createdAt: nat)

  /** A row of the assets table: `available` is the column `amount`, the
      quantity free to sell; `locked` is `locked_amount`, the quantity
      committed to open sell orders. */
  datatype Holding = Holding(available: int, locked: int)

  /** A row of the trades table; its id is its index in `State.trades`. */
  datatype Trade = Trade(
    buyOrderId: OrderId,
    sellOrderId: OrderId,
    symbol: Symbol,
    price: Positive,
    amount: Positive,
    usdVolume: nat,
    commission: nat)

  datatype State = State(
    balances: map<UserId, int>,
    holdings: map<(UserId, Symbol), Holding>,
    orders: seq<Order>,
    trades: seq<Trade>)

  /** The failures the two services raise. `MissingRow` stands for a row the
      code dereferences without checking (a PHP error inside the transaction,
      which rolls everything back). */
  datatype Error =
    | InvalidSymbol
    | InvalidSide
    | InvalidPrice
    | InvalidAmount
    | InsufficientBalance
    | InsufficientAsset
    | OrderNotFound
    | NotOrderOwner
    | OrderNotOpen
    | MissingRow

  datatype Result<T> = Ok(value: T) | Err(error: Error)
  {
    predicate IsFailure() {
      Err?
    }

    /** Carries an error over to a result of another value type. */
    function PropagateFailure<U>(): Result<U>
      requires Err?
    {
      Err(error)
    }

    function Extract(): T
      requires Ok?
    {
      value
    }
  }

  /** The holding of `u` in `sym`, reading a missing row as zero. */
  function HoldingOf(holdings: map<(UserId, Symbol), Holding>, u: UserId, sym: Symbol): Holding
  {
    if (u, sym) in holdings then holdings[(u, sym)] else Holding(0, 0)
  }

  /** Available plus locked quantity of `u` in `sym`. */
  function TotalHeld(holdings: map<(UserId, Symbol), Holding>, u: UserId, sym: Symbol): int
  {
    HoldingOf(holdings, u, sym).available + HoldingOf(holdings, u, sym).locked
  }

  /** The quantity of `sym` that order `o` keeps locked for user `u`. */
  function Reserved(o: Order, u: UserId, sym: Symbol): nat
  {
    if o.status == Open && o.side == Sell && o.userId == u && o.symbol == sym then o.amount else 0
  }

  /** Total amount of the open sell orders of `u` in `sym`. */
  function OpenSellVolume(orders: seq<Order>, u: UserId, sym: Symbol): nat
    decreases |orders|
  {
    if |orders| == 0 then 0
    else OpenSellVolume(orders[..|orders| - 1], u, sym) + Reserved(orders[|orders| - 1], u, sym)
  }

  /** The consistency the two services maintain between the tables:
      every order belongs to an existing user, no cash balance or available
      quantity is negative, and every locked quantity is exactly what the
      owner's open sell orders commit. */
  ghost predicate Valid(s: State)
  {
    && (forall k | 0 <= k < |s.orders| :: s.orders[k].userId in s.balances)
    && (forall u | u in s.balances :: s.balances[u] >= 0)
    && (forall key | key in s.holdings :: s.holdings[key].available >= 0)
    && (forall u, sym :: HoldingOf(s.holdings, u, sym).locked == OpenSellVolume(s.orders, u, sym))
  }

  /** One order row may only move from Open to Filled or from Open to
      Cancelled; any other row stays as it is. */
  predicate StatusStep(o: Order, o': Order)
  {
    || o' == o
    || (o.status == Open && o' == o.(status := Filled))
    || (o.status == Open && o' == o.(status := Cancelled))
  }

  /** `s'` is a later version of `s`: rows are only ever appended, trades are
      never altered, and each existing order takes at most one status step. */
  ghost predicate Succeeds(s: State, s': State)
  {
    && |s.orders| <= |s'.orders|
    && s.trades <= s'.trades
    && forall k | 0 <= k < |s.orders| :: StatusStep(s.orders[k], s'.orders[k])
  }

  /** Appending an order adds exactly what it reserves. */
  lemma OpenSellVolumeAppend(orders: seq<Order>, o: Order, u: UserId, sym: Symbol)
    ensures OpenSellVolume(orders + [o], u, sym) == OpenSellVolume(orders, u, sym) + Reserved(o, u, sym)
  {
    assert (orders + [o])[..|orders|] == orders;
  }

  /** Replacing one order changes the volume by the difference of what the
      old and the new row reserve. */
  lemma {:induction false} OpenSellVolumeUpdate(orders: seq<Order>, k: nat, o: Order, u: UserId, sym: Symbol)
    requires k < |orders|
    ensures OpenSellVolume(orders[k := o], u, sym)
         == OpenSellVolume(orders, u, sym) - Reserved(orders[k], u, sym) + Reserved(o, u, sym)
    decreases |orders|
  {
    var n := |orders|;
    var updated := orders[k := o];
    if k == n - 1 {
      assert updated[..n - 1] == orders[..n - 1];
    } else {
      assert updated[..n - 1] == orders[..n - 1][k := o];
      OpenSellVolumeUpdate(orders[..n - 1], k, o, u, sym);
    }
  }

  /** Every open sell order is covered by the volume it belongs to. */
  lemma {:induction false} OpenSellVolumeCovers(orders: seq<Order>, k: nat, u: UserId, sym: Symbol)
    requires k < |orders|
    ensures Reserved(orders[k], u, sym) <= OpenSellVolume(orders, u, sym)
    decreases |orders|
  {
    var n := |orders|;
    if k < n - 1 {
      assert orders[..n - 1][k] == orders[k];
      OpenSellVolumeCovers(orders[..n - 1], k, u, sym);
    }
  }

  /** In a valid state no cash balance, available quantity or locked
      quantity is negative. The first two are conjuncts of `Valid`, restated
      here so callers get all three from one lemma; `locked >= 0` is the
      derived part, from the lock equation. */
  lemma ValidHasNoNegatives(s: State)
    requires Valid(s)
    ensures forall u | u in s.balances :: s.balances[u] >= 0
    ensures forall key | key in s.holdings :: s.holdings[key].available >= 0 && s.holdings[key].locked >= 0
  {
    forall key | key in s.holdings
      ensures s.holdings[key].locked >= 0
    {
      assert HoldingOf(s.holdings, key.0, key.1).locked == OpenSellVolume(s.orders, key.0, key.1);
    }
  }

  /** In a valid state an open sell order's holding row exists and locks at
      least the order's amount, so releasing or delivering it never drives
      `locked` below zero. */
  lemma OpenSellIsLocked(s: State, k: nat)
    requires Valid(s)
    requires k < |s.orders| && s.orders[k].status == Open && s.orders[k].side == Sell
    ensures (s.orders[k].userId, s.orders[k].symbol) in s.holdings
    ensures s.holdings[(s.orders[k].userId, s.orders[k].symbol)].locked >= s.orders[k].amount
  {
    var o := s.orders[k];
    OpenSellVolumeCovers(s.orders, k, o.userId, o.symbol);
    assert HoldingOf(s.holdings, o.userId, o.symbol).locked == OpenSellVolume(s.orders, o.userId, o.symbol);
  }

  /** The empty exchange, and any exchange whose holdings lock nothing and
      which has no orders yet, is valid. */
  lemma InitialStateIsValid(s: State)
    requires s.orders == []
    requires forall u | u in s.balances :: s.balances[u] >= 0
    requires forall key | key in s.holdings :: s.holdings[key].available >= 0 && s.holdings[key].locked == 0
    ensures Valid(s)
  {
    forall u, sym
      ensures HoldingOf(s.holdings, u, sym).locked == OpenSellVolume(s.orders, u, sym)
    {
    }
  }

  /** Succession composes. */
  lemma SucceedsTransitive(s: State, s': State, s'': State)
    requires Succeeds(s, s') && Succeeds(s', s'')
    ensures Succeeds(s, s'')
  {
    forall k | 0 <= k < |s.orders|
      ensures StatusStep(s.orders[k], s''.orders[k])
    {
      assert StatusStep(s.orders[k], s'.orders[k]);
      assert StatusStep(s'.orders[k], s''.orders[k]);
    }
  }
}
