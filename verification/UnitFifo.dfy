/**
 Unit-by-unit FIFO: when every quantity is a whole number of some step above the cutoff, the lot
 queue with its partial fills is exactly the queue of single units, first in first out, and the
 accounts have no rounding error at all.
 */
module UnitFifo {
  import opened Types
  import opened Fifo
  import opened Accounting

  // ---------- The reference: single units ----------

  datatype WholeOrder = WholeBuy(price: real, n: nat) | WholeSell(price: real, n: nat)

  function Repeat(price: real, n: nat): seq<real> {
    seq(n, _ => price)
  }

  /** The price of every unit bought, in order. */
  function UnitsBought(orders: seq<WholeOrder>): seq<real> {
    if orders == [] then
      []
    else
      var before, o := UnitsBought(orders[..|orders| - 1]), orders[|orders| - 1];
      if o.WholeBuy? then before + Repeat(o.price, o.n) else before
  }

  function Fewer(a: nat, b: nat): nat {
    if a < b then a else b
  }

  /** The number of units bought and not yet sold. */
  function Unsold(bought: seq<real>, sold: seq<real>): nat {
    if |sold| < |bought| then |bought| - |sold| else 0
  }

  /** The price of every unit that really was sold, in order: a sell stops when no unit is left. */
  function UnitsSold(orders: seq<WholeOrder>): seq<real> {
    if orders == [] then
      []
    else
      var before, o := orders[..|orders| - 1], orders[|orders| - 1];
      var sold := UnitsSold(before);
      if o.WholeSell? then sold + Repeat(o.price, Fewer(o.n, Unsold(UnitsBought(before), sold))) else sold
  }

  lemma {:induction false} SoldAtMostBought(orders: seq<WholeOrder>)
    ensures |UnitsSold(orders)| <= |UnitsBought(orders)|
  {
    if orders != [] {
      SoldAtMostBought(orders[..|orders| - 1]);
    }
  }

  /** The sum, unit by unit, of sale price less purchase price. */
  function Spread(sold: seq<real>, bought: seq<real>): real
    requires |sold| == |bought|
  {
    if sold == [] then 0.0 else sold[0] - bought[0] + Spread(sold[1..], bought[1..])
  }

  lemma {:induction false} SpreadConcat(s1: seq<real>, s2: seq<real>, b1: seq<real>, b2: seq<real>)
    requires |s1| == |b1| && |s2| == |b2|
    ensures Spread(s1 + s2, b1 + b2) == Spread(s1, b1) + Spread(s2, b2)
  {
    if s1 == [] {
      assert s1 + s2 == s2 && b1 + b2 == b2;
    } else {
      assert (s1 + s2)[1..] == s1[1..] + s2 && (b1 + b2)[1..] == b1[1..] + b2;
      SpreadConcat(s1[1..], s2, b1[1..], b2);
    }
  }

  lemma {:induction false} SpreadOfRepeat(p: real, cost: real, n: nat)
    ensures Spread(Repeat(p, n), Repeat(cost, n)) == Value(p - cost, n as real)
  {
    if n > 0 {
      assert Repeat(p, n)[1..] == Repeat(p, n - 1) && Repeat(cost, n)[1..] == Repeat(cost, n - 1);
      SpreadOfRepeat(p, cost, n - 1);
      ValueIsAdditive(p - cost, 1.0, (n - 1) as real);
    }
  }

  // ---------- Lots of whole steps ----------

  datatype WholeLot = WholeLot(price: real, n: nat)

  function Qty(n: nat, step: real): real {
    n as real * step
  }

  lemma QtyOrder(a: nat, b: nat, step: real)
    requires step > QTY_EPSILON
    ensures a <= b <==> Qty(a, step) <= Qty(b, step)
    ensures a <= b ==> Qty(b, step) - Qty(a, step) == Qty(b - a, step)
    ensures Qty(a, step) <= QTY_EPSILON <==> a == 0
    ensures Qty(0, step) == 0.0
  {
    if a < b {
      assert Qty(b, step) == Qty(a, step) + Qty(b - a, step);
      QtyAtLeastStep(b - a, step);
    }
    if b < a {
      assert Qty(a, step) == Qty(b, step) + Qty(a - b, step);
      QtyAtLeastStep(a - b, step);
    }
    if a > 0 {
      QtyAtLeastStep(a, step);
    }
  }

  lemma QtyAtLeastStep(n: nat, step: real)
    requires n > 0 && step > 0.0
    ensures Qty(n, step) >= step
  {
    assert (n as real - 1.0) * step >= 0.0;
  }

  function Priced(lots: seq<WholeLot>, step: real): seq<Lot> {
    if lots == [] then [] else [Lot(lots[0].price, Qty(lots[0].n, step))] + Priced(lots[1..], step)
  }

  function Units(lots: seq<WholeLot>): seq<real> {
    if lots == [] then [] else Repeat(lots[0].price, lots[0].n) + Units(lots[1..])
  }

  /** The lots after k units are taken from the front. */
  function Take(lots: seq<WholeLot>, k: nat): seq<WholeLot> {
    if k == 0 || lots == [] then
      lots
    else if lots[0].n <= k then
      Take(lots[1..], k - lots[0].n)
    else
      [WholeLot(lots[0].price, lots[0].n - k)] + lots[1..]
  }

  lemma {:induction false} TakeDropsUnits(lots: seq<WholeLot>, k: nat)
    ensures Units(Take(lots, k)) == Units(lots)[Fewer(k, |Units(lots)|)..]
  {
    if !(k == 0 || lots == []) {
      var first, rest := Repeat(lots[0].price, lots[0].n), Units(lots[1..]);
      if lots[0].n <= k {
        TakeDropsUnits(lots[1..], k - lots[0].n);
        var m := Fewer(k - lots[0].n, |rest|);
        assert (first + rest)[lots[0].n + m..] == rest[m..];
      } else {
        assert (first + rest)[k..] == Repeat(lots[0].price, lots[0].n - k) + rest;
      }
    }
  }

  lemma ValueOfUnits(spread: real, price: real, n: nat, step: real)
    requires spread == Value(price, n as real)
    ensures Value(price, Qty(n, step)) == Value(spread, step)
  {
    assert price * (n as real * step) == (price * n as real) * step;
  }

  lemma SpreadIsScaled(a: real, b: real, step: real)
    ensures Value(a + b, step) == Value(a, step) + Value(b, step)
    ensures Value(0.0, step) == 0.0
  {
  }

  /** What matching k units against whole lots must give. */
  ghost predicate TakesUnits(lots: seq<WholeLot>, p: real, k: nat, step: real, m: Matching, dust: real) {
    var n := Fewer(k, |Units(lots)|);
    && m.queue == Priced(Take(lots, k), step)
    && m.remaining == Qty(k - n, step)
    && m.profit == Value(Spread(Repeat(p, n), Units(lots)[..n]), step)
    && dust == 0.0
  }

  /** Matching whole lots: the unit queue loses its first units, each at its own profit, and nothing is dropped. */
  lemma {:induction false} MatchIsWhole(lots: seq<WholeLot>, p: real, k: nat, step: real)
    requires step > QTY_EPSILON
    ensures TakesUnits(lots, p, k, step,
      Match(Priced(lots, step), p, Qty(k, step)), Dust(Priced(lots, step), Qty(k, step)))
    decreases |lots|
  {
    hide Value, Qty;
    QtyOrder(k, 0, step);
    SpreadIsScaled(0.0, 0.0, step);
    if !(k == 0 || lots == []) {
      if lots[0].n <= k {
        MatchIsWhole(lots[1..], p, k - lots[0].n, step);
        MatchUsesUpLot(lots, p, k, step);
      } else {
        MatchPartOfLot(lots, p, k, step);
      }
    }
  }

  lemma MatchUsesUpLot(lots: seq<WholeLot>, p: real, k: nat, step: real)
    requires step > QTY_EPSILON && lots != [] && lots[0].n <= k && k > 0
    requires TakesUnits(lots[1..], p, k - lots[0].n, step,
      Match(Priced(lots[1..], step), p, Qty(k - lots[0].n, step)), Dust(Priced(lots[1..], step), Qty(k - lots[0].n, step)))
    ensures TakesUnits(lots, p, k, step,
      Match(Priced(lots, step), p, Qty(k, step)), Dust(Priced(lots, step), Qty(k, step)))
  {
    hide Value, Qty, Spread, Repeat;
    var cost, c, rest := lots[0].price, lots[0].n, Units(lots[1..]);
    var first, n := Repeat(cost, c), Fewer(k - c, |rest|);
    RepeatSplits(p, c, n);
    RepeatSplits(cost, c, 0);
    QtyOrder(c, k, step);
    QtyOrder(k, 0, step);
    NothingLeftIsWorthNothing(cost);
    assert (first + rest)[..c + n] == first + rest[..n];
    SpreadConcat(Repeat(p, c), Repeat(p, n), first, rest[..n]);
    ProfitOfFront(p, cost, c, step);
    SpreadIsScaled(Spread(Repeat(p, c), first), Spread(Repeat(p, n), rest[..n]), step);
  }

  lemma MatchPartOfLot(lots: seq<WholeLot>, p: real, k: nat, step: real)
    requires step > QTY_EPSILON && lots != [] && 0 < k < lots[0].n
    ensures TakesUnits(lots, p, k, step,
      Match(Priced(lots, step), p, Qty(k, step)), Dust(Priced(lots, step), Qty(k, step)))
  {
    hide Value, Qty, Spread, Repeat;
    var cost, c, rest := lots[0].price, lots[0].n, Units(lots[1..]);
    RepeatSplits(p, k, 0);
    RepeatSplits(cost, k, c - k);
    QtyOrder(k, c, step);
    QtyOrder(c, k, step);
    QtyOrder(c - k, 0, step);
    QtyOrder(k, 0, step);
    assert (Repeat(cost, c) + rest)[..k] == Repeat(cost, k);
    ProfitOfFront(p, cost, k, step);
    var left := WholeLot(cost, c - k);
    assert ([left] + lots[1..])[1..] == lots[1..];
    assert Priced([left] + lots[1..], step) == [Lot(cost, Qty(c - k, step))] + Priced(lots[1..], step);
    assert Priced(lots, step)[1..] == Priced(lots[1..], step);
  }

  lemma RepeatSplits(p: real, a: nat, b: nat)
    ensures |Repeat(p, a)| == a && |Repeat(p, b)| == b
    ensures Repeat(p, a + b) == Repeat(p, a) + Repeat(p, b)
  {
  }

  lemma ProfitOfFront(p: real, cost: real, n: nat, step: real)
    ensures Value(p - cost, Qty(n, step)) == Value(Spread(Repeat(p, n), Repeat(cost, n)), step)
  {
    SpreadOfRepeat(p, cost, n);
    ValueOfUnits(Spread(Repeat(p, n), Repeat(cost, n)), p - cost, n, step);
  }

  // ---------- Whole histories ----------

  function Scale(o: WholeOrder, step: real): Order {
    match o
    case WholeBuy(price, n) => BuyOrder(price, Qty(n, step))
    case WholeSell(price, n) => SellOrder(price, Qty(n, step))
  }

  function Scaled(orders: seq<WholeOrder>, step: real): seq<Order> {
    seq(|orders|, i requires 0 <= i < |orders| => Scale(orders[i], step))
  }

  /** The whole lots that are open after a history. */
  function OpenLots(orders: seq<WholeOrder>): seq<WholeLot> {
    if orders == [] then
      []
    else
      var before, o := OpenLots(orders[..|orders| - 1]), orders[|orders| - 1];
      if o.WholeBuy? then before + [WholeLot(o.price, o.n)] else Take(before, o.n)
  }

  /** The units in a queue of lots, each lot counted in whole steps. */
  function Flatten(queue: seq<Lot>, step: real): seq<real>
    requires step > 0.0
  {
    if queue == [] then
      []
    else
      var n := (queue[0].qty / step).Floor;
      Repeat(queue[0].price, if n < 0 then 0 else n) + Flatten(queue[1..], step)
  }

  lemma WholeQtyHasNoFraction(n: nat, step: real)
    requires step > 0.0
    ensures (Qty(n, step) / step).Floor == n
  {
    assert Qty(n, step) / step == n as real;
  }

  lemma {:induction false} PricedFlattens(lots: seq<WholeLot>, step: real)
    requires step > QTY_EPSILON
    ensures Flatten(Priced(lots, step), step) == Units(lots)
    ensures TotalQty(Priced(lots, step)) == Qty(|Units(lots)|, step)
  {
    hide Qty;
    QtyOrder(0, 0, step);
    if lots != [] {
      WholeQtyHasNoFraction(lots[0].n, step);
      QtyOrder(lots[0].n, |Units(lots)|, step);
      PricedFlattens(lots[1..], step);
    }
  }

  lemma {:induction false} AppendLot(lots: seq<WholeLot>, lot: WholeLot, step: real)
    ensures Priced(lots + [lot], step) == Priced(lots, step) + [Lot(lot.price, Qty(lot.n, step))]
    ensures Units(lots + [lot]) == Units(lots) + Repeat(lot.price, lot.n)
  {
    if lots == [] {
      assert lots + [lot] == [lot];
    } else {
      assert (lots + [lot])[1..] == lots[1..] + [lot];
      AppendLot(lots[1..], lot, step);
    }
  }

  lemma {:induction false} OpenLotsAreUnsoldUnits(orders: seq<WholeOrder>)
    ensures |UnitsSold(orders)| <= |UnitsBought(orders)|
    ensures Units(OpenLots(orders)) == UnitsBought(orders)[|UnitsSold(orders)|..]
  {
    SoldAtMostBought(orders);
    if orders != [] {
      var before, o := orders[..|orders| - 1], orders[|orders| - 1];
      OpenLotsAreUnsoldUnits(before);
      var bought, sold := UnitsBought(before), UnitsSold(before);
      match o {
        case WholeBuy(price, n) =>
          AppendLot(OpenLots(before), WholeLot(price, n), 1.0);
          assert (bought + Repeat(price, n))[|sold|..] == bought[|sold|..] + Repeat(price, n);
        case WholeSell(price, n) =>
          TakeDropsUnits(OpenLots(before), n);
          var m := Fewer(n, Unsold(bought, sold));
          assert bought[|sold|..][m..] == bought[|sold| + m..];
      }
    }
  }

  lemma ScaledPrefix(orders: seq<WholeOrder>, step: real)
    requires orders != []
    ensures Scaled(orders, step)[..|orders| - 1] == Scaled(orders[..|orders| - 1], step)
    ensures Scaled(orders, step)[|orders| - 1] == Scale(orders[|orders| - 1], step)
  {
  }

  lemma EmptyIsWhole(step: real)
    ensures Priced([], step) == [] && Value(Spread([], []), step) == 0.0
  {
  }

  lemma {:induction false} LedgerIsWhole(orders: seq<WholeOrder>, step: real)
    requires step > QTY_EPSILON
    ensures var l := TradeAll(EMPTY_LEDGER, Scaled(orders, step));
      var sold := UnitsSold(orders);
      && |sold| <= |UnitsBought(orders)|
      && l.queue == Priced(OpenLots(orders), step)
      && l.realized == Value(Spread(sold, UnitsBought(orders)[..|sold|]), step)
    decreases |orders|
  {
    hide Value, Qty, Match, Spread, Repeat, Units, Priced, Take;
    SoldAtMostBought(orders);
    if orders == [] {
      EmptyIsWhole(step);
    } else {
      var before, o := orders[..|orders| - 1], orders[|orders| - 1];
      LedgerIsWhole(before, step);
      ScaledPrefix(orders, step);
      var lots, bought, sold := OpenLots(before), UnitsBought(before), UnitsSold(before);
      OpenLotsAreUnsoldUnits(before);
      match o {
        case WholeBuy(price, n) =>
          AppendLot(lots, WholeLot(price, n), step);
          assert |sold| <= |bought|;
          assert (bought + Repeat(price, n))[..|sold|] == bought[..|sold|];
        case WholeSell(price, n) =>
          MatchIsWhole(lots, price, n, step);
          RepeatSplits(price, n, 0);
          RepeatSplits(price, Fewer(n, Unsold(bought, sold)), 0);
          var m := Fewer(n, Unsold(bought, sold));
          assert bought[|sold|..][..m] == bought[|sold|..|sold| + m];
          assert bought[..|sold| + m] == bought[..|sold|] + bought[|sold|..|sold| + m];
          SpreadConcat(sold, Repeat(price, m), bought[..|sold|], bought[|sold|..|sold| + m]);
          SpreadIsScaled(Spread(sold, bought[..|sold|]), Spread(Repeat(price, m), bought[|sold|..|sold| + m]), step);
      }
    }
  }

  /**
   The lot queue refines unit FIFO: after every history of whole-step orders, the open lots flatten
   to the units bought less the first M, where M is the number really sold, and realized profit is
   the sum over those M of the k-th unit sold less the k-th unit bought.
   */
  lemma LotsRefineUnits(orders: seq<WholeOrder>, step: real)
    requires step > QTY_EPSILON
    ensures var l := TradeAll(EMPTY_LEDGER, Scaled(orders, step));
      var bought, sold := UnitsBought(orders), UnitsSold(orders);
      && |sold| <= |bought|
      && Flatten(l.queue, step) == bought[|sold|..]
      && TotalQty(l.queue) == Qty(|bought| - |sold|, step)
      && l.realized == Value(Spread(sold, bought[..|sold|]), step)
  {
    LedgerIsWhole(orders, step);
    OpenLotsAreUnsoldUnits(orders);
    PricedFlattens(OpenLots(orders), step);
  }

  /** Each sell matches exactly what it asks for or, if that is less, the whole open position. */
  lemma EachSellMatchesWhatItCan(orders: seq<WholeOrder>, price: real, n: nat, step: real)
    requires step > QTY_EPSILON
    ensures MatchedQty(TradeAll(EMPTY_LEDGER, Scaled(orders, step)), price, Qty(n, step))
      == Qty(Fewer(n, Unsold(UnitsBought(orders), UnitsSold(orders))), step)
  {
    hide Qty, Match, Value, Spread, Repeat, Units, Priced, Take, UnitsBought, UnitsSold, OpenLots, TradeAll;
    LedgerIsWhole(orders, step);
    OpenLotsAreUnsoldUnits(orders);
    MatchIsWhole(OpenLots(orders), price, n, step);
    QtyOrder(n - Fewer(n, |Units(OpenLots(orders))|), n, step);
  }

  // ---------- No rounding error on whole lots ----------

  /** On whole lots the accounting identity is exact. */
  lemma {:induction false} IdentityIsExactOnWholeLots(
      initial: real, feePct: real, orders: seq<WholeOrder>, step: real, mark: Option<real>)
    requires step > QTY_EPSILON
    ensures EquityError(FillAll(NewAccount(initial, feePct), Scaled(orders, step)), mark) == 0.0
    decreases |orders|
  {
    hide Value, Qty, Match, Shortfall, EquityError;
    var a0 := NewAccount(initial, feePct);
    ErrorIsShortfall(FillAll(a0, Scaled(orders, step)), mark);
    if orders == [] {
      NewAccountIsExact(initial, feePct);
    } else {
      var before, o := orders[..|orders| - 1], orders[|orders| - 1];
      IdentityIsExactOnWholeLots(initial, feePct, before, step, mark);
      ScaledPrefix(orders, step);
      var a := FillAll(a0, Scaled(before, step));
      ErrorIsShortfall(a, mark);
      AccountFollowsLedger(a0, Scaled(before, step));
      LedgerIsWhole(before, step);
      match o {
        case WholeBuy(price, n) => BuyAddsNothing(a, price, Qty(n, step));
        case WholeSell(price, n) => WholeSellIsExact(a, OpenLots(before), price, n, step);
      }
    }
  }

  lemma WholeSellIsExact(a: Account, lots: seq<WholeLot>, price: real, n: nat, step: real)
    requires step > QTY_EPSILON && a.ledger.queue == Priced(lots, step)
    ensures Shortfall(AccountSell(a, price, Qty(n, step))) == Shortfall(a)
  {
    hide Value, Qty, Match;
    MatchIsWhole(lots, price, n, step);
    SellConserves(a.ledger.queue, price, Qty(n, step));
    var m := Fewer(n, |Units(lots)|);
    QtyOrder(n - m, n, step);
    QtyOrder(m, 0, step);
    NothingLeftIsWorthNothing(price);
  }

  // ---------- Splitting ----------

  /** Two histories with the same units bought and sold. */
  ghost predicate SameUnits(orders: seq<WholeOrder>, orders': seq<WholeOrder>) {
    UnitsBought(orders) == UnitsBought(orders') && UnitsSold(orders) == UnitsSold(orders')
  }

  lemma {:induction false} SameUnitsExtends(orders: seq<WholeOrder>, orders': seq<WholeOrder>, after: seq<WholeOrder>)
    requires SameUnits(orders, orders')
    ensures SameUnits(orders + after, orders' + after)
    decreases |after|
  {
    if after == [] {
      assert orders + after == orders && orders' + after == orders';
    } else {
      var n := |after| - 1;
      SameUnitsExtends(orders, orders', after[..n]);
      assert (orders + after)[..|orders + after| - 1] == orders + after[..n];
      assert (orders' + after)[..|orders' + after| - 1] == orders' + after[..n];
    }
  }

  lemma AppendOrder(orders: seq<WholeOrder>, o: WholeOrder)
    ensures UnitsBought(orders + [o]) == UnitsBought(orders) + if o.WholeBuy? then Repeat(o.price, o.n) else []
    ensures UnitsSold(orders + [o]) == UnitsSold(orders)
      + if o.WholeSell? then Repeat(o.price, Fewer(o.n, Unsold(UnitsBought(orders), UnitsSold(orders)))) else []
  {
    assert (orders + [o])[..|orders + [o]| - 1] == orders;
  }

  function OneSided(buy: bool, price: real, n: nat): WholeOrder {
    if buy then WholeBuy(price, n) else WholeSell(price, n)
  }

  lemma SplitHasSameUnits(before: seq<WholeOrder>, buy: bool, price: real, a: nat, b: nat)
    ensures SameUnits(before + [OneSided(buy, price, a + b)],
      before + [OneSided(buy, price, a)] + [OneSided(buy, price, b)])
  {
    hide UnitsBought, UnitsSold, Repeat;
    AppendOrder(before, OneSided(buy, price, a + b));
    AppendOrder(before, OneSided(buy, price, a));
    AppendOrder(before + [OneSided(buy, price, a)], OneSided(buy, price, b));
    var open := Unsold(UnitsBought(before), UnitsSold(before));
    var m := Fewer(a, open);
    RepeatSplits(price, a, b);
    RepeatSplits(price, m, Fewer(b, open - m));
    assert Fewer(a + b, open) == m + Fewer(b, open - m);
  }

  /**
   Splitting one buy, or one sell, into two at the same price -- anywhere in a history, and whether
   or not the sell exceeds the position -- changes neither the realized profit nor the open units.
   */
  lemma SplittingChangesNothing(
      before: seq<WholeOrder>, buy: bool, price: real, a: nat, b: nat, after: seq<WholeOrder>, step: real)
    requires step > QTY_EPSILON
    ensures var whole := before + [OneSided(buy, price, a + b)] + after;
      var split := before + [OneSided(buy, price, a)] + [OneSided(buy, price, b)] + after;
      var l, l' := TradeAll(EMPTY_LEDGER, Scaled(whole, step)), TradeAll(EMPTY_LEDGER, Scaled(split, step));
      && l.realized == l'.realized
      && Flatten(l.queue, step) == Flatten(l'.queue, step)
      && TotalQty(l.queue) == TotalQty(l'.queue)
  {
    hide Value, Qty, TradeAll, UnitsBought, UnitsSold, Spread, Flatten, TotalQty, Scaled, OneSided;
    var whole := before + [OneSided(buy, price, a + b)];
    var split := before + [OneSided(buy, price, a)] + [OneSided(buy, price, b)];
    SplitHasSameUnits(before, buy, price, a, b);
    SameUnitsExtends(whole, split, after);
    LotsRefineUnits(whole + after, step);
    LotsRefineUnits(split + after, step);
  }

  /** A sell of 1.5 epsilon is matched, its two halves are not; module Splitting says exactly when a split matters. */
  lemma SplittingBelowCutoffMatters()
    ensures var l := Bought(EMPTY_LEDGER, 1.0, 1.0);
      var half := 0.75 * QTY_EPSILON;
      Sold(l, 2.0, half + half).realized > 0.0 && Sold(Sold(l, 2.0, half), 2.0, half) == l
  {
  }
}
