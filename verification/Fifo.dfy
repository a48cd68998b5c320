/**
 FIFO lot matching and the paper account (src/pnl.rs), over exact reals.

 The functions on `Ledger` and `Account` say what each operation computes; classes `FifoPnl`
 and `PaperAccount` do it in place. `Accounting` and `UnitFifo` prove what they are for.
 */
module Fifo {
  import opened Types

  const QTY_EPSILON: real := 0.0000000001

  /** An open buy: its price and what is left of its quantity. */
  datatype Lot = Lot(price: real, qty: real)

  datatype Ledger = Ledger(queue: seq<Lot>, realized: real, buyNotional: real)

  const EMPTY_LEDGER := Ledger([], 0.0, 0.0)

  function Min(a: real, b: real): real {
    if a < b then a else b
  }

  /** The notional of a quantity at a price. */
  function Value(price: real, qty: real): real {
    price * qty
  }

  /** What matching a sell leaves: the queue, the profit taken and the unmatched quantity. */
  datatype Matching = Matching(queue: seq<Lot>, profit: real, remaining: real)

  /** Matches `remaining` units sold at `price` against the oldest lots. */
  function Match(queue: seq<Lot>, price: real, remaining: real): Matching
    decreases |queue|
  {
    if remaining <= QTY_EPSILON || queue == [] then
      Matching(queue, 0.0, remaining)
    else
      var front := queue[0];
      var matched := Min(remaining, front.qty);
      var profit := Value(price - front.price, matched);
      if front.qty - matched <= QTY_EPSILON then
        var rest := Match(queue[1..], price, remaining - matched);
        Matching(rest.queue, profit + rest.profit, rest.remaining)
      else
        Matching([Lot(front.price, front.qty - matched)] + queue[1..], profit, remaining - matched)
  }

  /** The queue after `matched` is taken from its front lot. */
  function Consumed(queue: seq<Lot>, matched: real): seq<Lot>
    requires queue != []
  {
    var left := queue[0].qty - matched;
    if left <= QTY_EPSILON then queue[1..] else [Lot(queue[0].price, left)] + queue[1..]
  }

  /** One turn of the matching loop. */
  lemma MatchTurn(queue: seq<Lot>, price: real, remaining: real)
    requires remaining > QTY_EPSILON && queue != []
    ensures var matched := Min(remaining, queue[0].qty);
      var rest := Match(Consumed(queue, matched), price, remaining - matched);
      Match(queue, price, remaining)
        == Matching(rest.queue, Value(price - queue[0].price, matched) + rest.profit, rest.remaining)
  {
  }

  lemma MatchEnds(queue: seq<Lot>, price: real, remaining: real)
    requires remaining <= QTY_EPSILON || queue == []
    ensures Match(queue, price, remaining) == Matching(queue, 0.0, remaining)
  {
  }

  /** A sell that uses up the front lot continues behind it. */
  lemma MatchPops(queue: seq<Lot>, price: real, qty: real)
    requires qty > QTY_EPSILON && queue != [] && queue[0].qty <= qty
    ensures var m := Match(queue[1..], price, qty - queue[0].qty);
      Match(queue, price, qty) == Matching(m.queue, Value(price - queue[0].price, queue[0].qty) + m.profit, m.remaining)
  {
    hide Value;
  }

  /** A sell that ends inside the front lot. */
  lemma MatchEndsInside(queue: seq<Lot>, price: real, qty: real)
    requires qty > QTY_EPSILON && queue != [] && qty <= queue[0].qty
    ensures Match(queue, price, qty) == Matching(Consumed(queue, qty), Value(price - queue[0].price, qty), 0.0)
  {
    hide Value;
    MatchEnds(queue[1..], price, 0.0);
  }

  function Bought(l: Ledger, price: real, qty: real): Ledger {
    Ledger(l.queue + [Lot(price, qty)], l.realized, l.buyNotional + Value(price, qty))
  }

  function Sold(l: Ledger, price: real, qty: real): Ledger {
    var m := Match(l.queue, price, qty);
    l.(queue := m.queue, realized := l.realized + m.profit)
  }

  /** The quantity a sell really matches. */
  function MatchedQty(l: Ledger, price: real, qty: real): real {
    qty - Match(l.queue, price, qty).remaining
  }

  function TotalQty(queue: seq<Lot>): real {
    if queue == [] then 0.0 else queue[0].qty + TotalQty(queue[1..])
  }

  /** The cost basis of the open position. */
  function Notional(queue: seq<Lot>): real {
    if queue == [] then 0.0 else Value(queue[0].price, queue[0].qty) + Notional(queue[1..])
  }

  /** The profit the open position shows at a mark price. */
  function Unrealized(queue: seq<Lot>, mark: real): real {
    if queue == [] then 0.0 else Value(mark - queue[0].price, queue[0].qty) + Unrealized(queue[1..], mark)
  }

  class FifoPnl {
    var buyQueue: seq<Lot>
    var realizedPnl: real
    var buyNotional: real

    function Contents(): Ledger
      reads this
    {
      Ledger(buyQueue, realizedPnl, buyNotional)
    }

    constructor ()
      ensures Contents() == EMPTY_LEDGER
    {
      buyQueue, realizedPnl, buyNotional := [], 0.0, 0.0;
    }

    method OnBuy(price: real, qty: real)
      modifies this
      ensures Contents() == Bought(old(Contents()), price, qty)
    {
      buyQueue := buyQueue + [Lot(price, qty)];
      buyNotional := buyNotional + Value(price, qty);
    }

    method OnSell(price: real, qty: real) returns (matchedQty: real)
      modifies this
      ensures Contents() == Sold(old(Contents()), price, qty)
      ensures matchedQty == MatchedQty(old(Contents()), price, qty)
    {
      hide Match;
      var remaining := qty;
      ghost var goal := Match(buyQueue, price, qty);
      while remaining > QTY_EPSILON
        invariant buyNotional == old(buyNotional)
        invariant Match(buyQueue, price, remaining).queue == goal.queue
        invariant Match(buyQueue, price, remaining).remaining == goal.remaining
        invariant realizedPnl + Match(buyQueue, price, remaining).profit == old(realizedPnl) + goal.profit
        decreases |buyQueue| + if remaining > QTY_EPSILON then 1 else 0
      {
        if buyQueue == [] {
          break;
        }
        MatchTurn(buyQueue, price, remaining);
        var front := buyQueue[0];
        var matched := Min(remaining, front.qty);
        realizedPnl := realizedPnl + Value(price - front.price, matched);
        remaining := remaining - matched;
        buyQueue := [Lot(front.price, front.qty - matched)] + buyQueue[1..];
        if buyQueue[0].qty <= QTY_EPSILON {
          buyQueue := buyQueue[1..];
        }
      }
      MatchEnds(buyQueue, price, remaining);
      return qty - remaining;
    }
  }

  // ---------- The paper account ----------

  datatype Account = Account(ledger: Ledger, initial: real, cash: real, feePct: real, fees: real)

  function NewAccount(initial: real, feePct: real): Account {
    Account(EMPTY_LEDGER, initial, initial, feePct, 0.0)
  }

  function Fee(a: Account, notional: real): real {
    notional * a.feePct / 100.0
  }

  function AccountBuy(a: Account, price: real, qty: real): Account {
    var fee := Fee(a, Value(price, qty));
    a.(ledger := Bought(a.ledger, price, qty), cash := a.cash - (Value(price, qty) + fee), fees := a.fees + fee)
  }

  function AccountSell(a: Account, price: real, qty: real): Account {
    var matched := MatchedQty(a.ledger, price, qty);
    var sold := a.(ledger := Sold(a.ledger, price, qty));
    if matched <= QTY_EPSILON then
      sold
    else
      var fee := Fee(a, Value(price, matched));
      sold.(cash := a.cash + (Value(price, matched) - fee), fees := a.fees + fee)
  }

  /** Cash plus the open position, at a mark price or else at its cost basis. */
  function Equity(a: Account, mark: Option<real>): real {
    match mark
    case Some(m) => a.cash + Value(m, TotalQty(a.ledger.queue))
    case None => a.cash + Notional(a.ledger.queue)
  }

  class PaperAccount {
    const pnl: FifoPnl
    const initialCapital: real
    const feePct: real
    var cash: real
    var totalFees: real

    function Contents(): Account
      reads this, pnl
    {
      Account(pnl.Contents(), initialCapital, cash, feePct, totalFees)
    }

    constructor (initialCapital: real, feePct: real)
      ensures Contents() == NewAccount(initialCapital, feePct) && fresh(pnl)
    {
      pnl := new FifoPnl();
      this.initialCapital, this.feePct := initialCapital, feePct;
      cash, totalFees := initialCapital, 0.0;
    }

    method OnBuy(price: real, qty: real)
      modifies this, pnl
      ensures Contents() == AccountBuy(old(Contents()), price, qty)
    {
      var notional := Value(price, qty);
      var fee := notional * feePct / 100.0;
      pnl.OnBuy(price, qty);
      cash := cash - (notional + fee);
      totalFees := totalFees + fee;
    }

    method OnSell(price: real, qty: real)
      modifies this, pnl
      ensures Contents() == AccountSell(old(Contents()), price, qty)
    {
      var matched := pnl.OnSell(price, qty);
      if matched <= QTY_EPSILON {
        return;
      }
      var notional := Value(price, matched);
      var fee := notional * feePct / 100.0;
      cash := cash + (notional - fee);
      totalFees := totalFees + fee;
    }
  }

  // ---------- Order histories ----------

  /** A filled order. */
  datatype Order = BuyOrder(price: real, qty: real) | SellOrder(price: real, qty: real)

  function Trade(l: Ledger, o: Order): Ledger {
    match o
    case BuyOrder(price, qty) => Bought(l, price, qty)
    case SellOrder(price, qty) => Sold(l, price, qty)
  }

  /** The ledger after a history of orders. */
  function TradeAll(l: Ledger, orders: seq<Order>): Ledger {
    if orders == [] then
      l
    else
      Trade(TradeAll(l, orders[..|orders| - 1]), orders[|orders| - 1])
  }

  function Fill(a: Account, o: Order): Account {
    match o
    case BuyOrder(price, qty) => AccountBuy(a, price, qty)
    case SellOrder(price, qty) => AccountSell(a, price, qty)
  }

  /** The account after a history of orders. */
  function FillAll(a: Account, orders: seq<Order>): Account {
    if orders == [] then
      a
    else
      Fill(FillAll(a, orders[..|orders| - 1]), orders[|orders| - 1])
  }

  lemma {:induction false} AccountFollowsLedger(a: Account, orders: seq<Order>)
    ensures FillAll(a, orders).ledger == TradeAll(a.ledger, orders)
  {
    if orders != [] {
      AccountFollowsLedger(a, orders[..|orders| - 1]);
    }
  }
}
