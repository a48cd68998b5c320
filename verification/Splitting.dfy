/**
 Splitting an order into two at the same price, over exact reals and with the cutoff in place:
 exactly when it leaves a sell, or a whole history after a buy, unchanged.
 */
module Splitting {
  import opened Fifo
  import opened Accounting

  ghost predicate NonNegative(queue: seq<Lot>) {
    forall i :: 0 <= i < |queue| ==> queue[i].qty >= 0.0
  }

  // ---------- Splitting a sell ----------

  /** Selling a + b, and selling a and then b, leave the same queue, the same profit and the same quantity unmatched. */
  predicate SameSell(queue: seq<Lot>, price: real, a: real, b: real) {
    var whole, first := Match(queue, price, a + b), Match(queue, price, a);
    var second := Match(first.queue, price, b);
    && whole.queue == second.queue
    && whole.profit == first.profit + second.profit
    && whole.remaining == first.remaining + second.remaining
  }

  /** Two sells a little apart stop at the same place: the same lots are used up, and the rest is left unmatched. */
  predicate SameStop(queue: seq<Lot>, x: real, y: real)
    decreases |queue|
  {
    || queue == []
    || (x <= QTY_EPSILON && y <= QTY_EPSILON)
    || (x > QTY_EPSILON && y > QTY_EPSILON && queue[0].qty <= x && queue[0].qty <= y
        && SameStop(queue[1..], x - queue[0].qty, y - queue[0].qty))
  }

  /** The smaller sell drops what the larger one takes beyond it as dust, from a lot that cost `cost`. */
  predicate DustCancels(queue: seq<Lot>, cost: real, x: real, y: real)
    decreases |queue|
  {
    queue != [] && x > QTY_EPSILON && y > QTY_EPSILON &&
    var front := queue[0];
    if front.qty <= x then
      DustCancels(queue[1..], cost, x - front.qty, y - front.qty)
    else
      front.qty - x <= QTY_EPSILON && y <= front.qty && front.price == cost
  }

  /**
   When splitting a + b is harmless. The first part uses up lots until it runs out: below the cutoff, where
   the second part must stop where the whole does; or inside a lot, and then the second part must exceed the
   cutoff and, if the rest of that lot is dropped as dust, the whole must drop as much at the same cost.
   */
  predicate Harmless(queue: seq<Lot>, a: real, b: real)
    decreases |queue|
  {
    if b == 0.0 || queue == [] then
      true
    else if a <= QTY_EPSILON then
      a == 0.0 || SameStop(queue, a + b, b)
    else
      var front := queue[0];
      if front.qty <= a then
        Harmless(queue[1..], a - front.qty, b)
      else
        var left := front.qty - a;
        b > QTY_EPSILON && (left <= QTY_EPSILON ==> DustCancels(queue[1..], front.price, b - left, b))
  }

  /** The quantity that one sell drops as dust. */
  function DustQty(queue: seq<Lot>, qty: real): real
    decreases |queue|
  {
    if qty <= QTY_EPSILON || queue == [] then
      0.0
    else
      var left := queue[0].qty - Min(qty, queue[0].qty);
      if left <= QTY_EPSILON then left + DustQty(queue[1..], qty - Min(qty, queue[0].qty)) else 0.0
  }

  /** A sell takes out of the position what it matches and the dust it drops. */
  lemma {:induction false} QuantityIsConserved(queue: seq<Lot>, price: real, qty: real)
    requires NonNegative(queue) && qty >= 0.0
    ensures var m := Match(queue, price, qty);
      && TotalQty(queue) == TotalQty(m.queue) + (qty - m.remaining) + DustQty(queue, qty)
      && NonNegative(m.queue) && |m.queue| <= |queue| && 0.0 <= m.remaining <= qty
    ensures DustQty(queue, qty) >= 0.0 && (DustQty(queue, qty) == 0.0 <==> DustLots(queue, qty) == 0)
    ensures DustLots(queue, qty) == 0 ==> Dust(queue, qty) == 0.0
    decreases |queue|
  {
    hide Value;
    if qty > QTY_EPSILON && queue != [] {
      var front := queue[0];
      var left := front.qty - Min(qty, front.qty);
      if left <= QTY_EPSILON {
        NothingLeftIsWorthNothing(front.price);
        QuantityIsConserved(queue[1..], price, qty - Min(qty, front.qty));
      } else {
        assert ([Lot(front.price, left)] + queue[1..])[1..] == queue[1..];
      }
    }
  }

  /** A sell above the cutoff changes the queue. */
  lemma MatchTakes(queue: seq<Lot>, price: real, qty: real)
    requires NonNegative(queue) && qty > QTY_EPSILON && queue != []
    ensures Match(queue, price, qty).queue != queue
    ensures Match(queue, price, qty).remaining <= qty - Min(qty, queue[0].qty)
  {
    hide Value;
    var matched := Min(qty, queue[0].qty);
    if queue[0].qty - matched <= QTY_EPSILON {
      QuantityIsConserved(queue[1..], price, qty - matched);
    }
  }

  lemma {:induction false} SameStopIsExact(queue: seq<Lot>, price: real, x: real, y: real)
    requires NonNegative(queue) && 0.0 <= y < x <= y + QTY_EPSILON
    ensures var one, two := Match(queue, price, x), Match(queue, price, y);
      SameStop(queue, x, y) <==>
        one.queue == two.queue && one.profit == two.profit && one.remaining == x - y + two.remaining
    decreases |queue|
  {
    hide Match, Value;
    if queue == [] || y <= QTY_EPSILON {
      MatchEnds(queue, price, y);
      if queue == [] || x <= QTY_EPSILON {
        MatchEnds(queue, price, x);
      } else {
        MatchTakes(queue, price, x);
      }
    } else if queue[0].qty <= y {
      MatchPops(queue, price, x);
      MatchPops(queue, price, y);
      SameStopIsExact(queue[1..], price, x - queue[0].qty, y - queue[0].qty);
    } else {
      MatchTakes(queue, price, x);
      MatchEndsInside(queue, price, y);
    }
  }

  lemma {:induction false} DustCancelsIsExact(queue: seq<Lot>, price: real, cost: real, x: real, y: real)
    requires NonNegative(queue) && 0.0 <= x < y <= x + QTY_EPSILON
    ensures var one, two := Match(queue, price, x), Match(queue, price, y);
      DustCancels(queue, cost, x, y) <==>
        && one.queue == two.queue && one.remaining == two.remaining
        && one.profit + Value(price - cost, y - x) == two.profit
    decreases |queue|
  {
    hide Match, Value;
    if queue == [] || x <= QTY_EPSILON {
      MatchEnds(queue, price, x);
      if queue == [] || y <= QTY_EPSILON {
        MatchEnds(queue, price, y);
      } else {
        MatchTakes(queue, price, y);
      }
    } else if queue[0].qty <= x {
      MatchPops(queue, price, x);
      MatchPops(queue, price, y);
      DustCancelsIsExact(queue[1..], price, cost, x - queue[0].qty, y - queue[0].qty);
    } else {
      DustCancelsInside(queue, price, cost, x, y);
    }
  }

  /** Both sells reach the front lot, and the smaller one ends inside it. */
  lemma DustCancelsInside(queue: seq<Lot>, price: real, cost: real, x: real, y: real)
    requires queue != [] && QTY_EPSILON < x < y <= x + QTY_EPSILON && x < queue[0].qty
    ensures var one, two := Match(queue, price, x), Match(queue, price, y);
      DustCancels(queue, cost, x, y) <==>
        && one.queue == two.queue && one.remaining == two.remaining
        && one.profit + Value(price - cost, y - x) == two.profit
  {
    hide Match, Value;
    var front := queue[0];
    MatchEndsInside(queue, price, x);
    if y <= front.qty {
      MatchEndsInside(queue, price, y);
      assert front.qty - x > QTY_EPSILON ==> Consumed(queue, x)[0].qty == front.qty - x;
      assert Consumed(queue, x) == Consumed(queue, y) <==> front.qty - x <= QTY_EPSILON by {
        if front.qty - y > QTY_EPSILON {
          assert Consumed(queue, y)[0].qty == front.qty - y;
        }
      }
      ValueIsAdditive(price - front.price, x, y - x);
      SameValueMeansSamePrice(price - cost, price - front.price, y - x);
    } else {
      MatchPops(queue, price, y);
      MatchEnds(queue[1..], price, y - front.qty);
    }
  }

  lemma SameValueMeansSamePrice(p: real, q: real, qty: real)
    requires qty > 0.0
    ensures Value(p, qty) == Value(q, qty) <==> p == q
  {
  }

  /**
   Selling a + b at once is the same as selling a and then b if and only if the split is harmless: a
   condition on quantities and, where dust cancels, on the costs of two lots. It holds at any price.
   */
  lemma {:induction false} SplitSellIsExact(queue: seq<Lot>, price: real, a: real, b: real)
    requires NonNegative(queue) && a >= 0.0 && b >= 0.0
    ensures SameSell(queue, price, a, b) <==> Harmless(queue, a, b)
    decreases |queue|
  {
    hide Match, Value;
    if b == 0.0 {
      MatchEnds(Match(queue, price, a).queue, price, b);
    } else if queue == [] {
      MatchEnds(queue, price, a);
      MatchEnds(queue, price, b);
      MatchEnds(queue, price, a + b);
    } else if a <= QTY_EPSILON {
      MatchEnds(queue, price, a);
      if a > 0.0 {
        SameStopIsExact(queue, price, a + b, b);
      }
    } else if queue[0].qty <= a {
      MatchPops(queue, price, a);
      MatchPops(queue, price, a + b);
      assert a + b - queue[0].qty == a - queue[0].qty + b;
      SplitSellIsExact(queue[1..], price, a - queue[0].qty, b);
    } else if queue[0].qty - a > QTY_EPSILON {
      SplitInsideLot(queue, price, a, b);
    } else {
      SplitDropsDust(queue, price, a, b);
    }
  }

  /** Taking two parts from the front lot, with more than the cutoff left in between. */
  lemma ConsumedInTwo(queue: seq<Lot>, a: real, more: real)
    requires queue != [] && queue[0].qty - a > QTY_EPSILON
    ensures var halved := Consumed(queue, a);
      && halved != [] && halved[0] == Lot(queue[0].price, queue[0].qty - a)
      && Consumed(halved, more) == Consumed(queue, a + more)
  {
    var halved := Consumed(queue, a);
    assert halved[1..] == queue[1..];
    assert halved[0].qty - more == queue[0].qty - (a + more);
  }

  /** The first part ends inside the front lot, with more than the cutoff left of it. */
  lemma SplitInsideLot(queue: seq<Lot>, price: real, a: real, b: real)
    requires queue != [] && QTY_EPSILON < a < queue[0].qty - QTY_EPSILON && b > 0.0
    ensures SameSell(queue, price, a, b) <==> b > QTY_EPSILON
  {
    hide Match, Value, Consumed;
    var front := queue[0];
    var halved, matched := Consumed(queue, a), Min(b, front.qty - a);
    MatchEndsInside(queue, price, a);
    ConsumedInTwo(queue, a, matched);
    if b <= QTY_EPSILON {
      MatchEnds(halved, price, b);
      MatchEndsInside(queue, price, a + b);
    } else {
      MatchTurn(queue, price, a + b);
      MatchTurn(halved, price, b);
      assert Min(a + b, front.qty) == a + matched;
      assert a + b - (a + matched) == b - matched;
      ValueIsAdditive(price - front.price, a, matched);
    }
  }

  /** The first part ends inside the front lot, and the rest of that lot is dropped. */
  lemma SplitDropsDust(queue: seq<Lot>, price: real, a: real, b: real)
    requires NonNegative(queue) && queue != [] && a > QTY_EPSILON && b > 0.0
    requires 0.0 < queue[0].qty - a <= QTY_EPSILON
    ensures var left := queue[0].qty - a;
      SameSell(queue, price, a, b) <==> b > QTY_EPSILON && DustCancels(queue[1..], queue[0].price, b - left, b)
  {
    hide Match, Value;
    var front, rest := queue[0], queue[1..];
    var left := front.qty - a;
    MatchEndsInside(queue, price, a);
    assert Consumed(queue, a) == rest;
    if b <= QTY_EPSILON {
      MatchEnds(rest, price, b);
      MatchTakes(queue, price, a + b);
    } else {
      MatchPops(queue, price, a + b);
      assert a + b - front.qty == b - left;
      DustCancelsIsExact(rest, price, front.price, b - left, b);
      ValueIsAdditive(price - front.price, a, left);
    }
  }

  /** The part is matched in full and drops no dust. */
  predicate Clean(queue: seq<Lot>, price: real, qty: real) {
    Match(queue, price, qty).remaining == 0.0 && DustLots(queue, qty) == 0
  }

  /** The quantity ends on boundary k, or farther than the cutoff before it, and that far behind all earlier ones. */
  ghost predicate EndsAt(queue: seq<Lot>, qty: real, k: nat) {
    && k <= |queue| && Reaches(queue, qty, k)
    && (qty == Boundary(queue, k) || Boundary(queue, k) - qty > QTY_EPSILON)
  }

  ghost predicate EndsWell(queue: seq<Lot>, qty: real) {
    exists k :: EndsAt(queue, qty, k)
  }

  lemma EndsAtInRest(queue: seq<Lot>, qty: real, k: nat)
    requires queue != [] && qty > QTY_EPSILON
    ensures EndsAt(queue, qty, k + 1) <==> EndsAt(queue[1..], qty - queue[0].qty, k)
  {
    if k < |queue| {
      hide Boundary, Reaches;
      ReachesInRest(queue, qty, k);
      BoundaryOfRest(queue, k + 1);
    }
  }

  /** Within the cutoff of the start, only the start counts. */
  lemma OnlyStartIsReached(queue: seq<Lot>, qty: real)
    requires qty <= QTY_EPSILON || queue == []
    ensures EndsAt(queue, qty, 0) <==> qty == 0.0 || qty < -QTY_EPSILON
    ensures forall k :: k > 0 ==> !EndsAt(queue, qty, k)
  {
    NoBoundaryAtStart(queue);
  }

  lemma StartIsPassed(queue: seq<Lot>, qty: real)
    requires qty > QTY_EPSILON
    ensures !EndsAt(queue, qty, 0)
  {
  }

  lemma EndsWellInRest(queue: seq<Lot>, qty: real)
    requires queue != [] && qty > QTY_EPSILON
    ensures EndsWell(queue, qty) <==> EndsWell(queue[1..], qty - queue[0].qty)
  {
    var rest, less := queue[1..], qty - queue[0].qty;
    StartIsPassed(queue, qty);
    hide EndsAt;
    if k: nat :| EndsAt(queue, qty, k) {
      EndsAtInRest(queue, qty, k - 1);
    }
    if k: nat :| EndsAt(rest, less, k) {
      EndsAtInRest(queue, qty, k);
    }
  }

  /** A part is clean exactly when it ends on a lot boundary, or inside a lot but not within the cutoff of its ends. */
  lemma {:induction false} CleanIffItEndsWell(queue: seq<Lot>, price: real, qty: real)
    requires NonNegative(queue) && qty >= 0.0
    ensures Clean(queue, price, qty) <==> EndsWell(queue, qty)
    decreases |queue|
  {
    hide Match, Value, EndsAt;
    if qty <= QTY_EPSILON || queue == [] {
      MatchEnds(queue, price, qty);
      OnlyStartIsReached(queue, qty);
    } else {
      var front, rest := queue[0], queue[1..];
      EndsWellInRest(queue, qty);
      if front.qty <= qty {
        MatchPops(queue, price, qty);
        CleanIffItEndsWell(rest, price, qty - front.qty);
      } else {
        MatchEndsInside(queue, price, qty);
        OnlyStartIsReached(rest, qty - front.qty);
      }
    }
  }

  /** A first part that ends well, and a second part above the cutoff: the split changes nothing. */
  lemma CleanSplitIsHarmless(queue: seq<Lot>, price: real, a: real, b: real)
    requires NonNegative(queue) && a >= 0.0 && b > QTY_EPSILON && EndsWell(queue, a)
    ensures SameSell(queue, price, a, b)
  {
    EndingWellIsHarmless(queue, a, b);
    SplitSellIsExact(queue, price, a, b);
  }

  lemma {:induction false} EndingWellIsHarmless(queue: seq<Lot>, a: real, b: real)
    requires NonNegative(queue) && a >= 0.0 && b > QTY_EPSILON && EndsWell(queue, a)
    ensures Harmless(queue, a, b)
    decreases |queue|
  {
    hide EndsAt;
    if queue != [] {
      if a <= QTY_EPSILON {
        OnlyStartIsReached(queue, a);
      } else {
        EndsWellInRest(queue, a);
        if queue[0].qty <= a {
          EndingWellIsHarmless(queue[1..], a - queue[0].qty, b);
        } else {
          OnlyStartIsReached(queue[1..], a - queue[0].qty);
        }
      }
    }
  }

  /** The dust of the first part can cancel against equal dust of the whole, from another lot at the same price. */
  lemma DustMayCancel(p: real)
    ensures var queue := [Lot(1.0, 1.0 + QTY_EPSILON / 2.0), Lot(1.0, 1.0)];
      SameSell(queue, p, 1.0, 1.0) && DustLots(queue, 1.0) == 1
  {
    var big, unit := Lot(1.0, 1.0 + QTY_EPSILON / 2.0), Lot(1.0, 1.0);
    var queue := [big, unit];
    assert queue[1..] == [unit] && [unit][1..] == [];
    assert Match(queue, p, 1.0) == Matching([unit], Value(p - 1.0, 1.0) + 0.0, 0.0);
    assert Match([unit], p, 1.0) == Matching([], Value(p - 1.0, 1.0) + 0.0, 0.0);
    var most := 1.0 - QTY_EPSILON / 2.0;
    assert Match([unit], p, most) == Matching([], Value(p - 1.0, most) + 0.0, 0.0);
    assert DustLots([unit], 0.0) == 0;
  }

  // ---------- Splitting a buy ----------

  /** A queue in which one bought lot may be whole or in two parts: `before`, the two parts, `after`. */
  datatype Split = Gone(queue: seq<Lot>) | Apart(before: seq<Lot>, price: real, a: real, b: real, after: seq<Lot>)

  function Whole(s: Split): seq<Lot> {
    match s
    case Gone(queue) => queue
    case Apart(before, price, a, b, after) => before + ([Lot(price, a + b)] + after)
  }

  function Parts(s: Split): seq<Lot> {
    match s
    case Gone(queue) => queue
    case Apart(before, price, a, b, after) => before + ([Lot(price, a)] + ([Lot(price, b)] + after))
  }

  ghost predicate ValidSplit(s: Split) {
    match s
    case Gone(queue) => NonNegative(queue)
    case Apart(before, price, a, b, after) => NonNegative(before) && a > 0.0 && b > 0.0 && NonNegative(after)
  }

  /**
   A sell that reaches the parts ends farther than the cutoff from the boundary between them, or exactly
   there with a second part above the cutoff.
   */
  predicate ClearsBoundary(s: Split, qty: real) {
    match s
    case Gone(_) => true
    case Apart(before, _, a, b, _) =>
      var reach := qty - TotalQty(before);
      reach <= QTY_EPSILON || reach - a > QTY_EPSILON || a - reach > QTY_EPSILON || (reach == a && b > QTY_EPSILON)
  }

  /** The split queue after a sell that clears the boundary. */
  function AfterSell(s: Split, price: real, qty: real): Split {
    match s
    case Gone(queue) => Gone(Match(queue, price, qty).queue)
    case Apart(before, cost, a, b, after) =>
      var reach := qty - TotalQty(before);
      if reach <= QTY_EPSILON then Apart(Match(before, price, qty).queue, cost, a, b, after)
      else if reach < a then Apart([], cost, a - reach, b, after)
      else Gone(Match([Lot(cost, b)] + after, price, reach - a).queue)
  }

  lemma {:induction false} TotalIsNonNegative(queue: seq<Lot>)
    requires NonNegative(queue)
    ensures TotalQty(queue) >= 0.0
  {
    if queue != [] {
      TotalIsNonNegative(queue[1..]);
    }
  }

  /** A sell that goes beyond some lots uses them up and continues behind them. */
  lemma {:induction false} SellPassesThrough(before: seq<Lot>, rest: seq<Lot>, price: real, qty: real)
    requires NonNegative(before) && qty - TotalQty(before) > QTY_EPSILON
    ensures var m := Match(rest, price, qty - TotalQty(before));
      Match(before + rest, price, qty) == Matching(m.queue, Unrealized(before, price) + m.profit, m.remaining)
    decreases |before|
  {
    hide Match, Value;
    if before == [] {
      assert [] + rest == rest;
    } else {
      var front, queue := before[0], before + rest;
      TotalIsNonNegative(before[1..]);
      MatchTurn(queue, price, qty);
      assert queue[1..] == before[1..] + rest;
      assert Consumed(queue, front.qty) == queue[1..];
      SellPassesThrough(before[1..], rest, price, qty - front.qty);
    }
  }

  /** A sell that goes beyond the first part takes from the second what it takes from the rest of the whole lot. */
  lemma SellBeyondBoundary(cost: real, a: real, b: real, after: seq<Lot>, price: real, reach: real)
    requires a > 0.0 && b > 0.0 && reach - a > QTY_EPSILON
    ensures var second := [Lot(cost, b)] + after;
      Match([Lot(cost, a + b)] + after, price, reach) == Match([Lot(cost, a)] + second, price, reach)
    ensures var second := [Lot(cost, b)] + after;
      Match([Lot(cost, a)] + second, price, reach).queue == Match(second, price, reach - a).queue
  {
    hide Match, Value;
    var second := [Lot(cost, b)] + after;
    var one, two := [Lot(cost, a + b)] + after, [Lot(cost, a)] + second;
    assert one[1..] == after && two[1..] == second && second[1..] == after;
    MatchTurn(one, price, reach);
    MatchTurn(two, price, reach);
    MatchTurn(second, price, reach - a);
    var matched := Min(reach - a, b);
    assert Min(reach, a + b) == a + matched;
    assert a + b - (a + matched) == b - matched && reach - (a + matched) == reach - a - matched;
    assert Consumed(one, a + matched) == Consumed(second, matched);
    assert Consumed(two, a) == second;
    ValueIsAdditive(price - cost, a, matched);
  }

  /** A sell that ends well inside the first part leaves the second alone. */
  lemma SellInsideFirst(cost: real, a: real, rest: seq<Lot>, price: real, reach: real)
    requires QTY_EPSILON < reach && a - reach > QTY_EPSILON
    ensures Match([Lot(cost, a)] + rest, price, reach)
      == Matching([Lot(cost, a - reach)] + rest, Value(price - cost, reach) + 0.0, 0.0)
  {
    hide Match, Value;
    var queue := [Lot(cost, a)] + rest;
    assert queue[1..] == rest;
    MatchTurn(queue, price, reach);
    MatchEnds([Lot(cost, a - reach)] + rest, price, 0.0);
  }

  /** A sell that ends exactly at the end of the first lot uses it up. */
  lemma SellEndsWithFirst(cost: real, a: real, rest: seq<Lot>, price: real)
    requires a > QTY_EPSILON
    ensures Match([Lot(cost, a)] + rest, price, a) == Matching(rest, Value(price - cost, a) + 0.0, 0.0)
  {
    hide Match, Value;
    var queue := [Lot(cost, a)] + rest;
    assert queue[1..] == rest;
    MatchTurn(queue, price, a);
    MatchEnds(rest, price, 0.0);
  }

  /** What the sell does once it reaches the parts, when it clears their boundary. */
  lemma SellAtParts(cost: real, a: real, b: real, after: seq<Lot>, price: real, reach: real)
    requires a > 0.0 && b > 0.0 && reach > QTY_EPSILON && ClearsBoundary(Apart([], cost, a, b, after), reach)
    ensures var whole := Match([Lot(cost, a + b)] + after, price, reach);
      var parts := Match([Lot(cost, a)] + ([Lot(cost, b)] + after), price, reach);
      var s := AfterSell(Apart([], cost, a, b, after), price, reach);
      && whole.profit == parts.profit && whole.remaining == parts.remaining
      && whole.queue == Whole(s) && parts.queue == Parts(s)
  {
    hide Match, Value;
    var second := [Lot(cost, b)] + after;
    if reach - a > QTY_EPSILON {
      SellBeyondBoundary(cost, a, b, after, price, reach);
    } else if reach == a {
      SellInsideFirst(cost, a + b, after, price, reach);
      SellEndsWithFirst(cost, a, second, price);
      MatchEnds(second, price, 0.0);
      assert a + b - reach == b;
    } else {
      SellInsideFirst(cost, a + b, after, price, reach);
      SellInsideFirst(cost, a, second, price, reach);
      assert a + b - reach == a - reach + b;
    }
  }

  /** A sell that clears the boundary takes the same profit, and the queues still differ at most in the split. */
  lemma ClearSellKeepsSplit(s: Split, price: real, qty: real)
    requires ValidSplit(s) && qty >= 0.0 && ClearsBoundary(s, qty)
    ensures var whole, parts := Match(Whole(s), price, qty), Match(Parts(s), price, qty);
      && whole.profit == parts.profit && whole.remaining == parts.remaining
      && whole.queue == Whole(AfterSell(s, price, qty)) && parts.queue == Parts(AfterSell(s, price, qty))
    ensures ValidSplit(AfterSell(s, price, qty))
  {
    hide Match, Value;
    match s {
      case Gone(queue) => QuantityIsConserved(queue, price, qty);
      case Apart(before, cost, a, b, after) =>
        var reach := qty - TotalQty(before);
        var one, two := [Lot(cost, a + b)] + after, [Lot(cost, a)] + ([Lot(cost, b)] + after);
        if reach <= QTY_EPSILON {
          CoveredSellIgnoresLaterBuys(before, one, price, qty);
          CoveredSellIgnoresLaterBuys(before, two, price, qty);
          QuantityIsConserved(before, price, qty);
        } else {
          SellPassesThrough(before, one, price, qty);
          SellPassesThrough(before, two, price, qty);
          SellAtParts(cost, a, b, after, price, reach);
          var rest := [Lot(cost, b)] + after;
          assert NonNegative(rest);
          if reach >= a {
            QuantityIsConserved(rest, price, reach - a);
          }
        }
    }
  }

  /** What the sell does once it reaches the parts, when it does not clear their boundary. */
  lemma UnclearAtParts(cost: real, a: real, b: real, after: seq<Lot>, price: real, reach: real)
    requires a > 0.0 && b > 0.0 && reach > QTY_EPSILON && !ClearsBoundary(Apart([], cost, a, b, after), reach)
    ensures var whole := Match([Lot(cost, a + b)] + after, price, reach);
      var parts := Match([Lot(cost, a)] + ([Lot(cost, b)] + after), price, reach);
      whole.remaining != parts.remaining || TotalQty(whole.queue) != TotalQty(parts.queue)
  {
    hide Match, Value;
    var second := [Lot(cost, b)] + after;
    var one, two := [Lot(cost, a + b)] + after, [Lot(cost, a)] + second;
    assert one[1..] == after && two[1..] == second && second[1..] == after;
    MatchTurn(one, price, reach);
    MatchTurn(two, price, reach);
    var taken := Min(reach, a + b);
    MatchEnds(second, price, reach - Min(reach, a));
    MatchEnds(Consumed(one, taken), price, reach - taken);
    if reach <= a {
      var left := Lot(cost, a + b - reach);
      assert ([left] + after)[1..] == after;
    }
  }

  /** A sell that does not clear it leaves another quantity unmatched, or another position. */
  lemma UnclearSellShowsSplit(s: Split, price: real, qty: real)
    requires ValidSplit(s) && qty >= 0.0 && !ClearsBoundary(s, qty)
    ensures var whole, parts := Match(Whole(s), price, qty), Match(Parts(s), price, qty);
      whole.remaining != parts.remaining || TotalQty(whole.queue) != TotalQty(parts.queue)
  {
    hide Match, Value;
    var Apart(before, cost, a, b, after) := s;
    SellPassesThrough(before, [Lot(cost, a + b)] + after, price, qty);
    SellPassesThrough(before, [Lot(cost, a)] + ([Lot(cost, b)] + after), price, qty);
    UnclearAtParts(cost, a, b, after, price, qty - TotalQty(before));
  }

  /** One sell does not tell a split buy from a whole one exactly when it clears the boundary. */
  lemma SplitBuyIsInvisibleIff(s: Split, price: real, qty: real)
    requires ValidSplit(s) && qty >= 0.0
    ensures var whole, parts := Match(Whole(s), price, qty), Match(Parts(s), price, qty);
      ClearsBoundary(s, qty) <==>
        && whole.profit == parts.profit && whole.remaining == parts.remaining
        && TotalQty(whole.queue) == TotalQty(parts.queue)
  {
    hide Match, Value;
    if ClearsBoundary(s, qty) {
      ClearSellKeepsSplit(s, price, qty);
      SplitHasSameTotal(AfterSell(s, price, qty));
    } else {
      UnclearSellShowsSplit(s, price, qty);
    }
  }

  lemma {:induction false} TotalOfConcat(first: seq<Lot>, second: seq<Lot>)
    ensures TotalQty(first + second) == TotalQty(first) + TotalQty(second)
  {
    if first == [] {
      assert [] + second == second;
    } else {
      assert (first + second)[1..] == first[1..] + second;
      TotalOfConcat(first[1..], second);
    }
  }

  lemma SplitHasSameTotal(s: Split)
    ensures TotalQty(Whole(s)) == TotalQty(Parts(s))
  {
    match s {
      case Gone(_) =>
      case Apart(before, price, a, b, after) =>
        var second := [Lot(price, b)] + after;
        assert ([Lot(price, a + b)] + after)[1..] == after;
        assert ([Lot(price, a)] + second)[1..] == second && second[1..] == after;
        TotalOfConcat(before, [Lot(price, a + b)] + after);
        TotalOfConcat(before, [Lot(price, a)] + second);
    }
  }

  // ---------- Whole histories after a split buy ----------

  function AfterOrder(s: Split, o: Order): Split {
    match o
    case SellOrder(price, qty) => AfterSell(s, price, qty)
    case BuyOrder(price, qty) =>
      match s
      case Gone(queue) => Gone(queue + [Lot(price, qty)])
      case Apart(before, cost, a, b, after) => Apart(before, cost, a, b, after + [Lot(price, qty)])
  }

  function AfterOrders(s: Split, orders: seq<Order>): Split {
    if orders == [] then s else AfterOrder(AfterOrders(s, orders[..|orders| - 1]), orders[|orders| - 1])
  }

  /** Every sell of the history clears the boundary, as it is when the sell arrives. */
  predicate AllClear(s: Split, orders: seq<Order>) {
    orders == [] ||
    var before, o := orders[..|orders| - 1], orders[|orders| - 1];
    AllClear(s, before) && (o.SellOrder? ==> ClearsBoundary(AfterOrders(s, before), o.qty))
  }

  lemma BuyKeepsSplit(s: Split, price: real, qty: real)
    requires ValidSplit(s) && qty >= 0.0
    ensures var s' := AfterOrder(s, BuyOrder(price, qty));
      && ValidSplit(s')
      && Whole(s') == Whole(s) + [Lot(price, qty)] && Parts(s') == Parts(s) + [Lot(price, qty)]
  {
  }

  /** Through a history of sells that all clear the boundary, profit and position do not depend on the split. */
  lemma {:induction false} HistoryIgnoresSplit(l: Ledger, l': Ledger, s: Split, orders: seq<Order>)
    requires ValidSplit(s) && l.queue == Whole(s) && l'.queue == Parts(s) && l.realized == l'.realized
    requires AllClear(s, orders) && forall i :: 0 <= i < |orders| ==> orders[i].qty >= 0.0
    ensures var end, end', t := TradeAll(l, orders), TradeAll(l', orders), AfterOrders(s, orders);
      && ValidSplit(t) && end.queue == Whole(t) && end'.queue == Parts(t) && end.realized == end'.realized
    decreases |orders|
  {
    hide Match, Value, ClearsBoundary, AfterSell, ValidSplit, Whole, Parts;
    if orders != [] {
      var before, o := orders[..|orders| - 1], orders[|orders| - 1];
      HistoryIgnoresSplit(l, l', s, before);
      match o {
        case BuyOrder(price, qty) => BuyKeepsSplit(AfterOrders(s, before), price, qty);
        case SellOrder(price, qty) => ClearSellKeepsSplit(AfterOrders(s, before), price, qty);
      }
    }
  }

  /**
   Splitting one buy into two positive parts at the same price changes neither the realized profit nor
   the position, after any history of later orders whose sells all clear the boundary between the parts.
   */
  lemma {:induction false} SplitBuyChangesNothing(l: Ledger, price: real, a: real, b: real, orders: seq<Order>)
    requires NonNegative(l.queue) && a > 0.0 && b > 0.0
    requires forall i :: 0 <= i < |orders| ==> orders[i].qty >= 0.0
    requires AllClear(Apart(l.queue, price, a, b, []), orders)
    ensures var end := TradeAll(Bought(l, price, a + b), orders);
      var end' := TradeAll(Bought(Bought(l, price, a), price, b), orders);
      end.realized == end'.realized && TotalQty(end.queue) == TotalQty(end'.queue)
  {
    hide Match, Value, TradeAll, AllClear;
    var s := Apart(l.queue, price, a, b, []);
    assert l.queue + [Lot(price, a)] + [Lot(price, b)] == Parts(s);
    assert l.queue + [Lot(price, a + b)] == Whole(s);
    HistoryIgnoresSplit(Bought(l, price, a + b), Bought(Bought(l, price, a), price, b), s, orders);
    SplitHasSameTotal(AfterOrders(s, orders));
  }
}
