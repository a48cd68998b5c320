/**
 The accounting identity of the paper account, with its exact rounding error, and the
 order-independence of FIFO matching, over exact reals and with the quantity cutoff in place.
 */
module Accounting {
  import opened Types
  import opened Fifo

  // ---------- Conservation of one sell ----------

  /** Open lots with non-negative prices up to `top` and non-negative quantities. */
  ghost predicate LotsWithin(queue: seq<Lot>, top: real) {
    forall i :: 0 <= i < |queue| ==> 0.0 <= queue[i].price <= top && 0.0 <= queue[i].qty
  }

  lemma ValueIsMonotone(p: real, q: real, top: real, most: real)
    requires 0.0 <= p <= top && 0.0 <= q <= most
    ensures 0.0 <= Value(p, q) <= Value(top, most)
  {
    assert Value(top - p, q) >= 0.0 && Value(top, most - q) >= 0.0 && Value(p, q) >= 0.0;
  }

  lemma ValueIsAdditive(p: real, a: real, b: real)
    ensures Value(p, a + b) == Value(p, a) + Value(p, b)
  {
  }

  lemma ValueOfDifference(p: real, c: real, q: real)
    ensures Value(p - c, q) == Value(p, q) - Value(c, q)
  {
  }

  /** The cost of the dust that one sell drops: what is left of a lot that counts as used up. */
  function Dust(queue: seq<Lot>, qty: real): real
    decreases |queue|
  {
    if qty <= QTY_EPSILON || queue == [] then
      0.0
    else
      var front := queue[0];
      var matched := Min(qty, front.qty);
      if front.qty - matched <= QTY_EPSILON then
        Value(front.price, front.qty - matched) + Dust(queue[1..], qty - matched)
      else
        0.0
  }

  /** A sell matches at most its own quantity, and drops at most one epsilon of the position. */
  lemma {:induction false} SellQuantities(queue: seq<Lot>, price: real, qty: real, top: real)
    requires LotsWithin(queue, top) && qty >= 0.0
    ensures var m := Match(queue, price, qty);
      && 0.0 <= m.remaining <= qty
      && LotsWithin(m.queue, top)
      && 0.0 <= TotalQty(queue) - TotalQty(m.queue) - (qty - m.remaining) <= QTY_EPSILON
    decreases |queue|
  {
    if qty > QTY_EPSILON && queue != [] {
      var front := queue[0];
      var matched := Min(qty, front.qty);
      if front.qty - matched <= QTY_EPSILON {
        SellQuantities(queue[1..], price, qty - matched, top);
      } else {
        assert ([Lot(front.price, front.qty - matched)] + queue[1..])[1..] == queue[1..];
      }
    }
  }

  /** How many lots one sell drops with something left of them. */
  function DustLots(queue: seq<Lot>, qty: real): nat
    decreases |queue|
  {
    if qty <= QTY_EPSILON || queue == [] then
      0
    else
      var left := queue[0].qty - Min(qty, queue[0].qty);
      if left <= QTY_EPSILON then
        (if left > 0.0 then 1 else 0) + DustLots(queue[1..], qty - Min(qty, queue[0].qty))
      else
        0
  }

  /** At most one lot per sell is dropped as dust, and it is worth at most one epsilon at the highest price. */
  lemma {:induction false} DustIsBounded(queue: seq<Lot>, qty: real, top: real)
    requires LotsWithin(queue, top) && qty >= 0.0 && top >= 0.0
    ensures DustLots(queue, qty) <= 1
    ensures DustLots(queue, qty) == 0 ==> Dust(queue, qty) == 0.0
    ensures 0.0 <= Dust(queue, qty) <= Value(top, QTY_EPSILON)
    decreases |queue|
  {
    hide Value;
    ValueIsMonotone(0.0, 0.0, top, QTY_EPSILON);
    if qty > QTY_EPSILON && queue != [] {
      var front := queue[0];
      if qty < front.qty {
        if front.qty - qty <= QTY_EPSILON {
          ValueIsMonotone(front.price, front.qty - qty, top, QTY_EPSILON);
          assert Dust(queue[1..], 0.0) == 0.0 && DustLots(queue[1..], 0.0) == 0;
        }
      } else {
        NothingLeftIsWorthNothing(front.price);
        DustIsBounded(queue[1..], qty - front.qty, top);
      }
    }
  }

  lemma NothingLeftIsWorthNothing(price: real)
    ensures Value(price, 0.0) == 0.0
  {
  }

  /** What a sell takes out of the cost basis is its proceeds less its profit, and the dust. */
  lemma {:induction false} SellConserves(queue: seq<Lot>, price: real, qty: real)
    ensures var m := Match(queue, price, qty);
      Notional(queue) == Notional(m.queue) + Value(price, qty - m.remaining) - m.profit + Dust(queue, qty)
    decreases |queue|
  {
    hide Value;
    if qty > QTY_EPSILON && queue != [] {
      var front, m := queue[0], Match(queue, price, qty);
      var matched := Min(qty, front.qty);
      var left := front.qty - matched;
      ValueIsAdditive(front.price, matched, left);
      ValueIsAdditive(price, matched, qty - matched - m.remaining);
      ValueOfDifference(price, front.price, matched);
      assert qty - m.remaining == matched + (qty - matched - m.remaining);
      if left <= QTY_EPSILON {
        SellConserves(queue[1..], price, qty - matched);
      } else {
        NothingLeftIsWorthNothing(price);
        assert ([Lot(front.price, left)] + queue[1..])[1..] == queue[1..];
      }
    } else {
      NothingLeftIsWorthNothing(price);
    }
  }

  // ---------- The identity over whole histories ----------

  /** What a buy pays for its lot. */
  function Cost(o: Order): real {
    if o.BuyOrder? then o.price * o.qty else 0.0
  }

  /** What a sell earns on the open lots; nothing is credited for a match within the cutoff. */
  function Proceeds(queue: seq<Lot>, o: Order): real {
    var matched := o.qty - Match(queue, o.price, o.qty).remaining;
    if o.SellOrder? && matched > QTY_EPSILON then o.price * matched else 0.0
  }

  /** The notional of all buys of a history, matched or not. */
  function BuyNotionals(orders: seq<Order>): real {
    if orders == [] then 0.0 else BuyNotionals(orders[..|orders| - 1]) + Cost(orders[|orders| - 1])
  }

  /** The return denominator counts every buy once, and no sell changes it. */
  lemma {:induction false} BuyNotionalIsTotal(l: Ledger, orders: seq<Order>)
    ensures TradeAll(l, orders).buyNotional == l.buyNotional + BuyNotionals(orders)
  {
    hide Match;
    if orders != [] {
      BuyNotionalIsTotal(l, orders[..|orders| - 1]);
    }
  }

  /** The credited proceeds of all sells of a history, each from the lots open at the time. */
  function SellProceeds(orders: seq<Order>): real {
    if orders == [] then
      0.0
    else
      var before, o := orders[..|orders| - 1], orders[|orders| - 1];
      SellProceeds(before) + Proceeds(TradeAll(EMPTY_LEDGER, before).queue, o)
  }

  lemma FeeIsRate(a: Account, notional: real)
    ensures Fee(a, notional) == Value(a.feePct / 100.0, notional)
  {
  }

  lemma ValueIsProduct(price: real, qty: real)
    ensures Value(price, qty) == price * qty
  {
  }

  /** One order costs or earns its amount, and the fee on it. */
  lemma OrderPays(a: Account, o: Order)
    ensures var a', cost, earned := Fill(a, o), Cost(o), Proceeds(a.ledger.queue, o);
      && a'.initial == a.initial && a'.feePct == a.feePct
      && a'.fees == a.fees + Value(a.feePct / 100.0, cost + earned)
      && a'.cash == a.cash - cost + earned - (a'.fees - a.fees)
  {
    hide Match, Value, Fee;
    var qty := if o.BuyOrder? then o.qty else MatchedQty(a.ledger, o.price, o.qty);
    FeeIsRate(a, Value(o.price, qty));
    ValueIsProduct(o.price, qty);
    NothingLeftIsWorthNothing(a.feePct / 100.0);
  }

  /**
   Where the cash of an account went: it paid for all buys, received the credited proceeds of all sells,
   and paid the fee rate on both.
   */
  lemma CashAndFeesAddUp(initial: real, feePct: real, orders: seq<Order>)
    ensures var a := FillAll(NewAccount(initial, feePct), orders);
      && a.initial == initial && a.feePct == feePct
      && a.fees == feePct / 100.0 * (BuyNotionals(orders) + SellProceeds(orders))
      && a.cash == initial - BuyNotionals(orders) + SellProceeds(orders) - a.fees
  {
    hide FillAll, BuyNotionals, SellProceeds;
    CashFollowsOrders(initial, feePct, orders);
  }

  lemma {:induction false} CashFollowsOrders(initial: real, feePct: real, orders: seq<Order>)
    ensures var a := FillAll(NewAccount(initial, feePct), orders);
      && a.initial == initial && a.feePct == feePct
      && a.fees == Value(feePct / 100.0, BuyNotionals(orders) + SellProceeds(orders))
      && a.cash == initial - BuyNotionals(orders) + SellProceeds(orders) - a.fees
    decreases |orders|
  {
    hide Cost, Proceeds, TradeAll, Value, Fill;
    if orders == [] {
      NothingLeftIsWorthNothing(feePct / 100.0);
    } else {
      var before, o := orders[..|orders| - 1], orders[|orders| - 1];
      var a := FillAll(NewAccount(initial, feePct), before);
      CashFollowsOrders(initial, feePct, before);
      AccountFollowsLedger(NewAccount(initial, feePct), before);
      OrderPays(a, o);
      ValueIsAdditive(
        feePct / 100.0, BuyNotionals(before) + SellProceeds(before), Cost(o) + Proceeds(a.ledger.queue, o));
      assert BuyNotionals(orders) + SellProceeds(orders)
        == BuyNotionals(before) + SellProceeds(before) + (Cost(o) + Proceeds(a.ledger.queue, o));
    }
  }

  ghost predicate OrdersWithin(orders: seq<Order>, topBuy: real, topSell: real) {
    forall i :: 0 <= i < |orders| ==>
      && 0.0 <= orders[i].qty
      && 0.0 <= orders[i].price <= if orders[i].BuyOrder? then topBuy else topSell
  }

  function Sells(orders: seq<Order>): nat {
    if orders == [] then
      0
    else
      Sells(orders[..|orders| - 1]) + if orders[|orders| - 1].SellOrder? then 1 else 0
  }

  /** What equity falls short of initial capital + profits - fees; no mark price enters into it. */
  function Shortfall(a: Account): real {
    a.initial + a.ledger.realized - a.fees - a.cash - Notional(a.ledger.queue)
  }

  lemma {:induction false} NotionalOfAppend(queue: seq<Lot>, lot: Lot)
    ensures Notional(queue + [lot]) == Notional(queue) + Value(lot.price, lot.qty)
    ensures TotalQty(queue + [lot]) == TotalQty(queue) + lot.qty
  {
    if queue == [] {
      assert queue + [lot] == [lot];
    } else {
      assert (queue + [lot])[1..] == queue[1..] + [lot];
      NotionalOfAppend(queue[1..], lot);
    }
  }

  lemma {:induction false} UnrealizedIsValueLessCost(queue: seq<Lot>, mark: real)
    ensures Unrealized(queue, mark) == Value(mark, TotalQty(queue)) - Notional(queue)
  {
    hide Value;
    if queue == [] {
      NothingLeftIsWorthNothing(mark);
    } else {
      ValueOfDifference(mark, queue[0].price, queue[0].qty);
      ValueIsAdditive(mark, queue[0].qty, TotalQty(queue[1..]));
      UnrealizedIsValueLessCost(queue[1..], mark);
    }
  }

  /** A buy leaves the shortfall as it is. */
  lemma BuyAddsNothing(a: Account, price: real, qty: real)
    ensures Shortfall(AccountBuy(a, price, qty)) == Shortfall(a)
  {
    hide Value;
    NotionalOfAppend(a.ledger.queue, Lot(price, qty));
  }

  /** What one sell loses of equity: the dust it drops, and proceeds too small to be credited. */
  function Loss(a: Account, price: real, qty: real): real {
    var matched := MatchedQty(a.ledger, price, qty);
    Dust(a.ledger.queue, qty) + if matched <= QTY_EPSILON then Value(price, matched) else 0.0
  }

  /** A sell adds exactly its loss. */
  lemma SellAddsItsLoss(a: Account, price: real, qty: real)
    ensures Shortfall(AccountSell(a, price, qty)) == Shortfall(a) + Loss(a, price, qty)
  {
    hide Value, Match, Dust;
    SellConserves(a.ledger.queue, price, qty);
  }

  /** That is at most one epsilon at the highest prices. */
  lemma LossIsBounded(a: Account, price: real, qty: real, topBuy: real, topSell: real)
    requires LotsWithin(a.ledger.queue, topBuy) && topBuy >= 0.0 && qty >= 0.0 && 0.0 <= price <= topSell
    ensures LotsWithin(AccountSell(a, price, qty).ledger.queue, topBuy)
    ensures AccountSell(a, price, qty).initial == a.initial
    ensures 0.0 <= Loss(a, price, qty) <= Value(topBuy + topSell, QTY_EPSILON)
  {
    hide Value, Match;
    var matched := MatchedQty(a.ledger, price, qty);
    SellQuantities(a.ledger.queue, price, qty, topBuy);
    DustIsBounded(a.ledger.queue, qty, topBuy);
    ValueIsMonotone(0.0, 0.0, topSell, QTY_EPSILON);
    if matched <= QTY_EPSILON {
      ValueIsMonotone(price, matched, topSell, QTY_EPSILON);
    }
    ValueOfSum(topBuy, topSell);
  }

  lemma ValueOfSum(topBuy: real, topSell: real)
    ensures Value(topBuy + topSell, QTY_EPSILON) == Value(topBuy, QTY_EPSILON) + Value(topSell, QTY_EPSILON)
  {
  }

  lemma OneMore(k: nat, unit: real)
    ensures (k + 1) as real * unit == k as real * unit + unit
  {
  }

  /** The shortfall is never negative, and at most one epsilon per sell at the highest prices. */
  lemma {:induction false} ShortfallIsBounded(a: Account, orders: seq<Order>, topBuy: real, topSell: real)
    requires OrdersWithin(orders, topBuy, topSell) && topBuy >= 0.0 && topSell >= 0.0
    requires LotsWithin(a.ledger.queue, topBuy) && Shortfall(a) == 0.0
    ensures LotsWithin(FillAll(a, orders).ledger.queue, topBuy) && FillAll(a, orders).initial == a.initial
    ensures 0.0 <= Shortfall(FillAll(a, orders)) <= Sells(orders) as real * (Value(topBuy + topSell, QTY_EPSILON))
    decreases |orders|
  {
    hide Value, Shortfall, AccountSell;
    if orders != [] {
      var before, o := orders[..|orders| - 1], orders[|orders| - 1];
      ShortfallIsBounded(a, before, topBuy, topSell);
      var a' := FillAll(a, before);
      match o {
        case BuyOrder(price, qty) => BuyAddsNothing(a', price, qty);
        case SellOrder(price, qty) =>
          SellAddsItsLoss(a', price, qty);
          LossIsBounded(a', price, qty, topBuy, topSell);
          OneMore(Sells(before), Value(topBuy + topSell, QTY_EPSILON));
      }
    }
  }

  /** How far equity falls short of initial capital + realized + unrealized profit - fees. */
  function EquityError(a: Account, mark: Option<real>): real {
    var unrealized := if mark.Some? then Unrealized(a.ledger.queue, mark.value) else 0.0;
    a.initial + a.ledger.realized + unrealized - a.fees - Equity(a, mark)
  }

  lemma ErrorIsShortfall(a: Account, mark: Option<real>)
    ensures EquityError(a, mark) == Shortfall(a)
  {
    if mark.Some? {
      UnrealizedIsValueLessCost(a.ledger.queue, mark.value);
    }
  }

  /**
   The accounting identity: at every mark price, after every history of orders with non-negative
   prices and quantities, equity is initial capital plus realized and unrealized profit less fees,
   up to an error that is never in the account's favour and at most one epsilon per sell.
   Without a mark price the position counts at cost and there is no unrealized profit.
   */
  lemma AccountingIdentity(
      initial: real, feePct: real, orders: seq<Order>, topBuy: real, topSell: real, mark: Option<real>)
    requires OrdersWithin(orders, topBuy, topSell) && topBuy >= 0.0 && topSell >= 0.0
    ensures var a := FillAll(NewAccount(initial, feePct), orders);
      && a.initial == initial
      && 0.0 <= EquityError(a, mark) <= Sells(orders) as real * (Value(topBuy + topSell, QTY_EPSILON))
  {
    ShortfallIsBounded(NewAccount(initial, feePct), orders, topBuy, topSell);
    ErrorIsShortfall(FillAll(NewAccount(initial, feePct), orders), mark);
  }

  /** The losses of all sells of a history. */
  function Losses(a: Account, orders: seq<Order>): real {
    if orders == [] then
      0.0
    else
      var before, o := orders[..|orders| - 1], orders[|orders| - 1];
      Losses(a, before) + if o.SellOrder? then Loss(FillAll(a, before), o.price, o.qty) else 0.0
  }

  /** The error of the identity is exactly the sum of the losses, for every history and at every mark. */
  lemma {:induction false} ErrorIsSumOfLosses(initial: real, feePct: real, orders: seq<Order>, mark: Option<real>)
    ensures EquityError(FillAll(NewAccount(initial, feePct), orders), mark) == Losses(NewAccount(initial, feePct), orders)
    decreases |orders|
  {
    hide Value, Loss, EquityError, AccountBuy, AccountSell, Shortfall;
    var a0 := NewAccount(initial, feePct);
    ErrorIsShortfall(FillAll(a0, orders), mark);
    if orders == [] {
      NewAccountIsExact(initial, feePct);
    } else {
      var before, o := orders[..|orders| - 1], orders[|orders| - 1];
      ErrorIsSumOfLosses(initial, feePct, before, mark);
      ErrorIsShortfall(FillAll(a0, before), mark);
      match o {
        case BuyOrder(price, qty) => BuyAddsNothing(FillAll(a0, before), price, qty);
        case SellOrder(price, qty) => SellAddsItsLoss(FillAll(a0, before), price, qty);
      }
    }
  }

  lemma NewAccountIsExact(initial: real, feePct: real)
    ensures Shortfall(NewAccount(initial, feePct)) == 0.0
  {
  }

  // ---------- When the identity is exact ----------

  /** Where the first k lots of the queue end. */
  function Boundary(queue: seq<Lot>, k: nat): real
    requires k <= |queue|
  {
    TotalQty(queue[..k])
  }

  lemma BoundaryOfRest(queue: seq<Lot>, k: nat)
    requires 0 < k <= |queue|
    ensures Boundary(queue, k) == queue[0].qty + Boundary(queue[1..], k - 1)
  {
    assert queue[..k][1..] == queue[1..][..k - 1];
  }

  lemma NoBoundaryAtStart(queue: seq<Lot>)
    ensures Boundary(queue, 0) == 0.0
  {
  }

  /** The sell goes beyond the start of each of the first k lots by more than the cutoff. */
  ghost predicate Reaches(queue: seq<Lot>, qty: real, k: nat)
    requires k <= |queue|
  {
    forall j :: 0 <= j < k ==> qty - Boundary(queue, j) > QTY_EPSILON
  }

  lemma ReachesInRest(queue: seq<Lot>, qty: real, k: nat)
    requires k < |queue| && qty > QTY_EPSILON
    ensures Reaches(queue, qty, k + 1) <==> Reaches(queue[1..], qty - queue[0].qty, k)
  {
    var rest, less := queue[1..], qty - queue[0].qty;
    forall j | 0 <= j < k
      ensures qty - Boundary(queue, j + 1) == less - Boundary(rest, j)
    {
      BoundaryOfRest(queue, j + 1);
    }
    NoBoundaryAtStart(queue);
    hide Boundary;
    if Reaches(rest, less, k) {
      forall j | 0 <= j < k + 1
        ensures qty - Boundary(queue, j) > QTY_EPSILON
      {
        if j > 0 {
          assert qty - Boundary(queue, j - 1 + 1) == less - Boundary(rest, j - 1);
        }
      }
    }
    if Reaches(queue, qty, k + 1) {
      forall j | 0 <= j < k
        ensures less - Boundary(rest, j) > QTY_EPSILON
      {
        assert qty - Boundary(queue, j + 1) == less - Boundary(rest, j);
      }
    }
  }

  /** The sell ends inside lot k, at most the cutoff before its end, and that lot had cost something. */
  ghost predicate DropsDustAt(queue: seq<Lot>, qty: real, k: nat) {
    && k < |queue| && Reaches(queue, qty, k + 1)
    && 0.0 < Boundary(queue, k + 1) - qty <= QTY_EPSILON && queue[k].price != 0.0
  }

  /** The sell ends behind the first k lots, which together hold no more than the cutoff, but not nothing. */
  ghost predicate UncreditedAt(queue: seq<Lot>, qty: real, k: nat) {
    && k <= |queue| && Reaches(queue, qty, k)
    && 0.0 < Boundary(queue, k) <= QTY_EPSILON < qty
    && (k < |queue| ==> qty - Boundary(queue, k) <= QTY_EPSILON)
  }

  ghost predicate DropsDust(queue: seq<Lot>, qty: real) {
    exists k :: DropsDustAt(queue, qty, k)
  }

  ghost predicate Uncredited(queue: seq<Lot>, qty: real) {
    exists k :: UncreditedAt(queue, qty, k)
  }

  lemma ValueIsZeroIff(price: real, qty: real)
    ensures Value(price, qty) == 0.0 <==> price == 0.0 || qty == 0.0
  {
  }

  lemma DropsDustAtFront(queue: seq<Lot>, qty: real)
    requires queue != []
    ensures DropsDustAt(queue, qty, 0) <==>
      qty > QTY_EPSILON && 0.0 < queue[0].qty - qty <= QTY_EPSILON && queue[0].price != 0.0
  {
    NoBoundaryAtStart(queue);
    BoundaryOfRest(queue, 1);
    NoBoundaryAtStart(queue[1..]);
  }

  lemma DropsDustInRest(queue: seq<Lot>, qty: real, k: nat)
    requires queue != [] && qty > QTY_EPSILON
    ensures DropsDustAt(queue, qty, k + 1) <==> DropsDustAt(queue[1..], qty - queue[0].qty, k)
  {
    if k + 1 < |queue| {
      ReachesInRest(queue, qty, k + 1);
      BoundaryOfRest(queue, k + 2);
    }
  }

  lemma NothingReached(queue: seq<Lot>, qty: real)
    requires qty <= QTY_EPSILON || queue == []
    ensures !DropsDust(queue, qty)
  {
    NoBoundaryAtStart(queue);
  }

  /** A sell drops dust of some cost exactly when it ends inside a lot that had cost something, shortly before its end. */
  lemma {:induction false} DustIsZeroIff(queue: seq<Lot>, qty: real, top: real)
    requires LotsWithin(queue, top) && qty >= 0.0
    ensures Dust(queue, qty) >= 0.0 && (Dust(queue, qty) == 0.0 <==> !DropsDust(queue, qty))
    decreases |queue|
  {
    hide Value, DropsDustAt;
    if qty <= QTY_EPSILON || queue == [] {
      NothingReached(queue, qty);
    } else {
      var front, rest := queue[0], queue[1..];
      DropsDustAtFront(queue, qty);
      DropsDustBehind(queue, qty);
      if front.qty <= qty {
        NothingLeftIsWorthNothing(front.price);
        DustIsZeroIff(rest, qty - front.qty, top);
      } else {
        NothingReached(rest, qty - front.qty);
        assert Dust(rest, 0.0) == 0.0;
        ValueIsZeroIff(front.price, front.qty - qty);
        ValueIsMonotone(front.price, front.qty - qty, front.price, front.qty - qty);
      }
    }
  }

  lemma DropsDustBehind(queue: seq<Lot>, qty: real)
    requires queue != [] && qty > QTY_EPSILON
    ensures DropsDust(queue, qty) <==> DropsDustAt(queue, qty, 0) || DropsDust(queue[1..], qty - queue[0].qty)
  {
    hide DropsDustAt;
    var rest, less := queue[1..], qty - queue[0].qty;
    if k: nat :| DropsDustAt(queue, qty, k) {
      if k > 0 {
        DropsDustInRest(queue, qty, k - 1);
      }
    }
    if k: nat :| DropsDustAt(rest, less, k) {
      DropsDustInRest(queue, qty, k);
    }
  }

  /** A sell that ends behind the first k lots matches them. */
  lemma {:induction false} MatchesUpTo(queue: seq<Lot>, price: real, qty: real, k: nat)
    requires k <= |queue| && Reaches(queue, qty, k)
    requires Boundary(queue, k) <= qty && (k < |queue| ==> qty - Boundary(queue, k) <= QTY_EPSILON)
    ensures qty - Match(queue, price, qty).remaining == Boundary(queue, k)
    decreases |queue|
  {
    hide Value, Match, Boundary;
    NoBoundaryAtStart(queue);
    if k == 0 {
      MatchEnds(queue, price, qty);
    } else {
      assert qty - Boundary(queue, 0) > QTY_EPSILON;
      BoundaryOfRest(queue, 1);
      NoBoundaryAtStart(queue[1..]);
      MatchPops(queue, price, qty);
      ReachesInRest(queue, qty, k - 1);
      BoundaryOfRest(queue, k);
      MatchesUpTo(queue[1..], price, qty - queue[0].qty, k - 1);
    }
  }

  /** A sell that is not matched in full ends behind some lots. */
  lemma {:induction false} EndsBehindLots(queue: seq<Lot>, price: real, qty: real) returns (k: nat)
    requires Match(queue, price, qty).remaining > 0.0
    ensures k <= |queue| && Reaches(queue, qty, k)
    ensures k < |queue| ==> qty - Boundary(queue, k) <= QTY_EPSILON
    ensures Boundary(queue, k) == qty - Match(queue, price, qty).remaining
    decreases |queue|
  {
    hide Value, Match, Boundary;
    NoBoundaryAtStart(queue);
    if qty <= QTY_EPSILON || queue == [] {
      MatchEnds(queue, price, qty);
      return 0;
    }
    if qty <= queue[0].qty {
      MatchEndsInside(queue, price, qty);
    }
    MatchPops(queue, price, qty);
    var j := EndsBehindLots(queue[1..], price, qty - queue[0].qty);
    ReachesInRest(queue, qty, j);
    BoundaryOfRest(queue, j + 1);
    return j + 1;
  }

  /** A sell matches something, but no more than the cutoff, exactly when it ends behind lots that hold no more. */
  lemma UncreditedIff(queue: seq<Lot>, price: real, qty: real, top: real)
    requires LotsWithin(queue, top) && qty >= 0.0
    ensures var matched := qty - Match(queue, price, qty).remaining;
      matched >= 0.0 && (0.0 < matched <= QTY_EPSILON <==> Uncredited(queue, qty))
  {
    hide Match, Boundary, Reaches;
    var matched := qty - Match(queue, price, qty).remaining;
    SellQuantities(queue, price, qty, top);
    if k: nat :| UncreditedAt(queue, qty, k) {
      MatchesUpTo(queue, price, qty, k);
    }
    if 0.0 < matched <= QTY_EPSILON {
      if qty <= QTY_EPSILON {
        MatchEnds(queue, price, qty);
      } else {
        var k := EndsBehindLots(queue, price, qty);
        assert UncreditedAt(queue, qty, k);
      }
    }
  }

  /** The sell drops dust that had cost something, or its proceeds are too small to be credited. */
  ghost predicate LosesValue(queue: seq<Lot>, price: real, qty: real) {
    DropsDust(queue, qty) || (price != 0.0 && Uncredited(queue, qty))
  }

  /** That is exactly when the sell loses something. */
  lemma LossIsZeroIff(a: Account, price: real, qty: real, top: real)
    requires LotsWithin(a.ledger.queue, top) && qty >= 0.0 && price >= 0.0
    ensures Loss(a, price, qty) >= 0.0 && (Loss(a, price, qty) == 0.0 <==> !LosesValue(a.ledger.queue, price, qty))
  {
    hide Match, Value, Dust, DropsDust, Uncredited;
    var matched := MatchedQty(a.ledger, price, qty);
    DustIsZeroIff(a.ledger.queue, qty, top);
    UncreditedIff(a.ledger.queue, price, qty, top);
    ValueIsZeroIff(price, matched);
    ValueIsMonotone(price, matched, price, matched);
  }

  /** Some sell of the history ends where it loses something. */
  ghost predicate SomeLoss(a: Account, orders: seq<Order>) {
    orders != [] &&
    var before, o := orders[..|orders| - 1], orders[|orders| - 1];
    SomeLoss(a, before) || (o.SellOrder? && LosesValue(FillAll(a, before).ledger.queue, o.price, o.qty))
  }

  lemma {:induction false} LossesAreZeroIffNone(a: Account, orders: seq<Order>, topBuy: real, topSell: real)
    requires OrdersWithin(orders, topBuy, topSell) && topBuy >= 0.0 && topSell >= 0.0
    requires LotsWithin(a.ledger.queue, topBuy)
    ensures LotsWithin(FillAll(a, orders).ledger.queue, topBuy)
    ensures Losses(a, orders) >= 0.0 && (Losses(a, orders) == 0.0 <==> !SomeLoss(a, orders))
    decreases |orders|
  {
    hide Value, Loss, AccountSell, LosesValue;
    if orders != [] {
      var before, o := orders[..|orders| - 1], orders[|orders| - 1];
      LossesAreZeroIffNone(a, before, topBuy, topSell);
      if o.SellOrder? {
        LossIsBounded(FillAll(a, before), o.price, o.qty, topBuy, topSell);
        LossIsZeroIff(FillAll(a, before), o.price, o.qty, topBuy);
      }
    }
  }

  /** The identity is exact if and only if no sell drops dust of positive cost or leaves proceeds uncredited. */
  lemma IdentityIsExactIff(
      initial: real, feePct: real, orders: seq<Order>, topBuy: real, topSell: real, mark: Option<real>)
    requires OrdersWithin(orders, topBuy, topSell) && topBuy >= 0.0 && topSell >= 0.0
    ensures var a := NewAccount(initial, feePct);
      EquityError(FillAll(a, orders), mark) == 0.0 <==> !SomeLoss(a, orders)
  {
    hide EquityError;
    ErrorIsSumOfLosses(initial, feePct, orders, mark);
    LossesAreZeroIffNone(NewAccount(initial, feePct), orders, topBuy, topSell);
  }

  lemma UnitPrice(x: real)
    ensures Value(1.0, x) == x
  {
  }

  /** The error is real: selling all but half an epsilon of a lot bought at 1 drops the rest, at its cost. */
  lemma DustCostsEquity(a: Account, mark: Option<real>)
    requires a.ledger.queue == [Lot(1.0, 1.0)]
    ensures EquityError(AccountSell(a, 1.0, 1.0 - QTY_EPSILON / 2.0), mark) == EquityError(a, mark) + QTY_EPSILON / 2.0
  {
    hide Value, EquityError, Match;
    var qty := 1.0 - QTY_EPSILON / 2.0;
    ErrorIsShortfall(a, mark);
    ErrorIsShortfall(AccountSell(a, 1.0, qty), mark);
    SellConserves(a.ledger.queue, 1.0, qty);
    MatchTurn(a.ledger.queue, 1.0, qty);
    MatchEnds([], 1.0, 0.0);
    assert a.ledger.queue[1..] == [];
    assert Dust(a.ledger.queue, qty) == Value(1.0, QTY_EPSILON / 2.0) + Dust([], 0.0);
    UnitPrice(QTY_EPSILON / 2.0);
  }

  // ---------- Order independence ----------

  /** A sell that the open position covers, up to the cutoff, matches the same lots whatever is bought after them. */
  lemma {:induction false} CoveredSellIgnoresLaterBuys(queue: seq<Lot>, later: seq<Lot>, price: real, qty: real)
    requires qty <= TotalQty(queue) + QTY_EPSILON
    ensures var m := Match(queue, price, qty);
      Match(queue + later, price, qty) == Matching(m.queue + later, m.profit, m.remaining)
    decreases |queue|
  {
    hide Match, Value;
    if qty <= QTY_EPSILON {
      MatchEnds(queue, price, qty);
      MatchEnds(queue + later, price, qty);
    } else {
      assert queue != [];
      var matched := Min(qty, queue[0].qty);
      MatchTurn(queue, price, qty);
      MatchTurn(queue + later, price, qty);
      ConsumedBeforeLater(queue, later, matched);
      if matched < qty {
        CoveredSellIgnoresLaterBuys(queue[1..], later, price, qty - matched);
      } else {
        MatchEnds(Consumed(queue, matched), price, 0.0);
        MatchEnds(Consumed(queue, matched) + later, price, 0.0);
      }
    }
  }

  /** Taking from the front lot does not concern the later lots. */
  lemma ConsumedBeforeLater(queue: seq<Lot>, later: seq<Lot>, matched: real)
    requires queue != []
    ensures (queue + later)[0] == queue[0]
    ensures Consumed(queue + later, matched) == Consumed(queue, matched) + later
  {
    hide Value, Match;
    var whole, rest := queue + later, queue[1..];
    assert whole[0] == queue[0];
    assert whole[1..] == rest + later;
    if queue[0].qty - matched <= QTY_EPSILON {
      assert Consumed(queue, matched) == rest && Consumed(whole, matched) == whole[1..];
    } else {
      var lot := Lot(queue[0].price, queue[0].qty - matched);
      assert Consumed(queue, matched) == [lot] + rest;
      assert Consumed(whole, matched) == [lot] + whole[1..];
      LotInFront(lot, rest, later);
    }
  }

  lemma LotInFront(lot: Lot, rest: seq<Lot>, later: seq<Lot>)
    ensures [lot] + (rest + later) == ([lot] + rest) + later
  {
  }

  /** No sell of the history asks for more than the position that is open when it arrives. */
  ghost predicate NeverOversells(l: Ledger, orders: seq<Order>) {
    orders == [] ||
    var before, o := orders[..|orders| - 1], orders[|orders| - 1];
    NeverOversells(l, before) && (o.SellOrder? ==> o.qty <= TotalQty(TradeAll(l, before).queue))
  }

  /** The buys (or the sells) of a history, in order. */
  function OnlySide(orders: seq<Order>, buys: bool): seq<Order> {
    if orders == [] then
      []
    else
      var before, o := OnlySide(orders[..|orders| - 1], buys), orders[|orders| - 1];
      if o.BuyOrder? == buys then before + [o] else before
  }

  lemma {:induction false} TradeAllConcat(l: Ledger, first: seq<Order>, second: seq<Order>)
    ensures TradeAll(l, first + second) == TradeAll(TradeAll(l, first), second)
    ensures NeverOversells(l, first + second) <==> NeverOversells(l, first) && NeverOversells(TradeAll(l, first), second)
    decreases |second|
  {
    if second == [] {
      assert first + second == first;
    } else {
      var n := |second| - 1;
      var all := first + second;
      assert all[..|all| - 1] == first + second[..n] && all[|all| - 1] == second[n];
      TradeAllConcat(l, first, second[..n]);
    }
  }

  /** A buy can be moved in front of sells that the position covers without it. */
  lemma {:induction false} BuyMovesForward(l: Ledger, sells: seq<Order>, price: real, qty: real)
    requires qty >= 0.0 && NeverOversells(l, sells)
    requires forall i :: 0 <= i < |sells| ==> sells[i].SellOrder?
    ensures TradeAll(Bought(l, price, qty), sells) == Bought(TradeAll(l, sells), price, qty)
    ensures NeverOversells(Bought(l, price, qty), sells)
    decreases |sells|
  {
    if sells != [] {
      var before, o := sells[..|sells| - 1], sells[|sells| - 1];
      BuyMovesForward(l, before, price, qty);
      var at := TradeAll(l, before);
      CoveredSellIgnoresLaterBuys(at.queue, [Lot(price, qty)], o.price, o.qty);
      NotionalOfAppend(at.queue, Lot(price, qty));
    }
  }

  lemma {:induction false} OnlySideIsThatSide(orders: seq<Order>, buys: bool)
    ensures forall i :: 0 <= i < |OnlySide(orders, buys)| ==> OnlySide(orders, buys)[i].BuyOrder? == buys
  {
    if orders != [] {
      OnlySideIsThatSide(orders[..|orders| - 1], buys);
    }
  }

  lemma {:induction false} SameAsBuysFirst(l: Ledger, orders: seq<Order>)
    requires NeverOversells(l, orders)
    requires forall i :: 0 <= i < |orders| ==> orders[i].qty >= 0.0
    ensures TradeAll(l, orders) == TradeAll(TradeAll(l, OnlySide(orders, true)), OnlySide(orders, false))
    ensures NeverOversells(TradeAll(l, OnlySide(orders, true)), OnlySide(orders, false))
    decreases |orders|
  {
    if orders != [] {
      var before, o := orders[..|orders| - 1], orders[|orders| - 1];
      SameAsBuysFirst(l, before);
      var buys, sells := OnlySide(before, true), OnlySide(before, false);
      if o.BuyOrder? {
        TradeAllConcat(l, buys, [o]);
        OnlySideIsThatSide(before, false);
        BuyMovesForward(TradeAll(l, buys), sells, o.price, o.qty);
      } else {
        TradeAllConcat(TradeAll(l, buys), sells, [o]);
      }
    }
  }

  /**
   If no sell exceeds the position open at the time, the whole ledger -- realized profit, open
   lots, notional -- depends only on the sequence of buys and the sequence of sells, not on how
   the two were interleaved.
   */
  lemma InterleavingDoesNotMatter(l: Ledger, orders: seq<Order>, orders': seq<Order>)
    requires NeverOversells(l, orders) && NeverOversells(l, orders')
    requires forall i :: 0 <= i < |orders| ==> orders[i].qty >= 0.0
    requires forall i :: 0 <= i < |orders'| ==> orders'[i].qty >= 0.0
    requires OnlySide(orders, true) == OnlySide(orders', true)
    requires OnlySide(orders, false) == OnlySide(orders', false)
    ensures TradeAll(l, orders) == TradeAll(l, orders')
  {
    SameAsBuysFirst(l, orders);
    SameAsBuysFirst(l, orders');
  }
}
