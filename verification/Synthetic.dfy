/**
 The synthetic data generator (src/backtest/data_loader.rs): a seeded random walk that deletes the
 levels it quoted before and quotes two new levels on each side of the new mid price.
 Prices are whole dollars; a formatted price or quantity is the number it is parsed back to.
 */
module Synthetic {
  import opened Types
  import opened Exchange
  import opened OrderbookModel
  import opened TopView

  const BASE_PRICE: int := 65_000
  const BASE_UPDATE_ID: nat := 1000
  const BASE_TIME: nat := 1_700_000_000_000
  const SEED: nat := 0x5DEECE66D
  const U64_SIZE: nat := 0x1_0000_0000_0000_0000

  /** One step of the 64-bit linear congruential generator, with wrap-around. */
  function NextState(rng: nat): (next: nat)
    ensures next < U64_SIZE
  {
    (rng * 6364136223846793005 + 1442695040888963407) % U64_SIZE
  }

  /** The top 31 bits of the state as a number in [0, 1). */
  function Uniform(rng: nat): (r: real)
    requires rng < U64_SIZE
    ensures 0.0 <= r < 1.0
  {
    (rng / 0x2_0000_0000) as real / 2147483648.0
  }

  /** Rounds to the nearest integer, halves away from zero. */
  function Round(x: real): int {
    if x >= 0.0 then (x + 0.5).Floor else -((0.5 - x).Floor)
  }

  /** A quantity as it reads after formatting with four decimals. */
  function FourDecimals(x: real): real {
    (x * 10000.0 + 0.5).Floor as real / 10000.0
  }

  /** The key of a whole-dollar price: the cast to unsigned clamps negative prices to 0. */
  function KeyOf(dollars: int): nat {
    if dollars < 0 then 0 else dollars * 100_000_000
  }

  function NextQty(rng: nat): (qty: real)
    requires rng < U64_SIZE
    ensures 0.25 <= qty <= 1.75
  {
    var x := 0.25 + Uniform(rng) * 1.5;
    FourDecimals(x)
  }

  function NextStep(rng: nat): (step: int)
    requires rng < U64_SIZE
    ensures -10 <= step <= 10
  {
    Round(Uniform(rng) * 20.0 - 10.0)
  }

  /** The levels, deleted first, that take one side from its old prices to two new ones. */
  function Deletions(before: seq<int>, after: seq<int>): seq<Level> {
    if before == [] then
      []
    else
      (if before[0] in after then [] else [Level(KeyOf(before[0]), 0.0)]) + Deletions(before[1..], after)
  }

  /** Where the generator stands between two events. */
  datatype Walk = Walk(rng: nat, mid: int, lastId: nat, bids: seq<int>, asks: seq<int>)

  function BidsAround(mid: int): seq<int> { [mid - 10, mid - 20] }

  function AsksAround(mid: int): seq<int> { [mid + 10, mid + 20] }

  /** The two fresh quotes of one side, and the generator state after their quantities are drawn. */
  function FreshQuotes(prices: seq<int>, rng: nat): (levels: seq<Level>)
    requires |prices| == 2
    ensures |levels| == 2 && forall i :: 0 <= i < 2 ==> levels[i].key == KeyOf(prices[i]) && levels[i].qty > 0.0
  {
    var r1 := NextState(rng);
    var r2 := NextState(r1);
    [Level(KeyOf(prices[0]), NextQty(r1)), Level(KeyOf(prices[1]), NextQty(r2))]
  }

  function Advance(w: Walk): Walk {
    var r1 := NextState(w.rng);
    var mid := w.mid + NextStep(r1);
    Walk(NextState(NextState(NextState(NextState(r1)))), mid, w.lastId + 1, BidsAround(mid), AsksAround(mid))
  }

  /** The i-th event: the ids follow on from the last one, and both sides are quoted anew. */
  function EventFrom(w: Walk, i: nat): DepthUpdate {
    var r1 := NextState(w.rng);
    var mid := w.mid + NextStep(r1);
    var bids, asks := BidsAround(mid), AsksAround(mid);
    DepthUpdate(BASE_TIME + i * 100, w.lastId + 1, w.lastId + 1, w.lastId,
      Deletions(w.bids, bids) + FreshQuotes(bids, r1),
      Deletions(w.asks, asks) + FreshQuotes(asks, NextState(NextState(r1))))
  }

  /** The generator state before the k-th quantity of the snapshot is drawn. */
  function SeedState(k: nat): nat {
    if k == 0 then SEED else NextState(SeedState(k - 1))
  }

  /** The levels of one side of the snapshot: `side` is -1 for bids and 1 for asks. */
  function SnapshotLevels(side: int, k: nat): seq<Level> {
    seq(k, i requires 0 <= i => Level(KeyOf(BASE_PRICE + side * (i + 1) * 10), NextQty(SeedState(i + 1))))
  }

  function SnapshotPrices(side: int, k: nat): seq<int> {
    seq(k, i requires 0 <= i => BASE_PRICE + side * (i + 1) * 10)
  }

  const SNAPSHOT := DepthSnapshot(BASE_UPDATE_ID, SnapshotLevels(-1, 5), SnapshotLevels(1, 5))

  /** The walk after k events. */
  function WalkAt(k: nat): Walk {
    if k == 0 then
      Walk(SeedState(5), BASE_PRICE, BASE_UPDATE_ID, SnapshotPrices(-1, 5), SnapshotPrices(1, 5))
    else
      Advance(WalkAt(k - 1))
  }

  function Events(n: nat): seq<DepthUpdate> {
    seq(n, i requires 0 <= i => EventFrom(WalkAt(i), i))
  }

  lemma NextQtyDef(rng: nat)
    requires rng < U64_SIZE
    ensures NextQty(rng) == FourDecimals(0.25 + Uniform(rng) * 1.5)
  {
  }

  class Lcg {
    var state: nat

    constructor ()
      ensures state == SEED
    {
      state := SEED;
    }

    method Next() returns (r: real)
      modifies this
      ensures state == NextState(old(state)) && r == Uniform(state)
    {
      state := (state * 6364136223846793005 + 1442695040888963407) % U64_SIZE;
      r := (state / 0x2_0000_0000) as real / 2147483648.0;
    }
  }

  method DeleteStale(previous: seq<int>, quoted: seq<int>) returns (levels: seq<Level>)
    ensures levels == Deletions(previous, quoted)
  {
    levels := [];
    for i := 0 to |previous|
      invariant levels + Deletions(previous[i..], quoted) == Deletions(previous, quoted)
    {
      ghost var rest := Deletions(previous[i + 1..], quoted);
      assert previous[i..][1..] == previous[i + 1..];
      if previous[i] !in quoted {
        var level := Level(KeyOf(previous[i]), 0.0);
        assert levels + ([level] + rest) == levels + [level] + rest;
        levels := levels + [level];
      } else {
        assert [] + rest == rest;
      }
    }
  }

  lemma SnapshotGrows(side: int, k: nat)
    ensures SnapshotLevels(side, k + 1)
      == SnapshotLevels(side, k) + [Level(KeyOf(BASE_PRICE + side * (k + 1) * 10), NextQty(SeedState(k + 1)))]
    ensures SnapshotPrices(side, k + 1) == SnapshotPrices(side, k) + [BASE_PRICE + side * (k + 1) * 10]
  {
  }

  /** The first loop: five levels on each side, with one quantity drawn for both. */
  method QuoteSnapshot(rng: Lcg) returns (snapshot: DepthSnapshot, bidPrices: seq<int>, askPrices: seq<int>)
    requires rng.state == SEED
    modifies rng
    ensures snapshot == SNAPSHOT && rng.state == WalkAt(0).rng
    ensures bidPrices == WalkAt(0).bids && askPrices == WalkAt(0).asks
  {
    hide NextState, NextQty, KeyOf, Uniform, FourDecimals, SnapshotLevels, SnapshotPrices;
    var bids, asks := [], [];
    bidPrices, askPrices := [], [];
    NoSnapshotYet();
    for i := 0 to 5
      invariant rng.state == SeedState(i)
      invariant bids == SnapshotLevels(-1, i) && asks == SnapshotLevels(1, i)
      invariant bidPrices == SnapshotPrices(-1, i) && askPrices == SnapshotPrices(1, i)
    {
      var bidPrice, askPrice := BASE_PRICE - (i + 1) * 10, BASE_PRICE + (i + 1) * 10;
      SnapshotGrows(-1, i);
      SnapshotGrows(1, i);
      var r := rng.Next();
      NextQtyDef(rng.state);
      var qty := FourDecimals(0.25 + r * 1.5);
      bids, asks := bids + [Level(KeyOf(bidPrice), qty)], asks + [Level(KeyOf(askPrice), qty)];
      bidPrices, askPrices := bidPrices + [bidPrice], askPrices + [askPrice];
    }
    snapshot := DepthSnapshot(BASE_UPDATE_ID, bids, asks);
  }

  lemma NoSnapshotYet()
    ensures SnapshotLevels(-1, 0) == SnapshotLevels(1, 0) == [] && SnapshotPrices(-1, 0) == SnapshotPrices(1, 0) == []
  {
  }

  lemma NoEventsYet()
    ensures Events(0) == []
  {
  }

  lemma EventsGrow(k: nat)
    ensures |Events(k + 1)| == k + 1 && Events(k + 1)[..k] == Events(k) && Events(k + 1)[k] == EventFrom(WalkAt(k), k)
  {
  }

  method GenerateSyntheticData(numEvents: nat) returns (snapshot: DepthSnapshot, events: seq<DepthUpdate>)
    ensures snapshot == SNAPSHOT && events == Events(numEvents)
  {
    hide Advance, EventFrom, Events, NextState;
    NoEventsYet();
    var rng := new Lcg();
    var previousBids, previousAsks;
    snapshot, previousBids, previousAsks := QuoteSnapshot(rng);
    events := [];
    var lastId, mid := BASE_UPDATE_ID, BASE_PRICE;
    for i := 0 to numEvents
      invariant fresh(rng) && WalkAt(i) == Walk(rng.state, mid, lastId, previousBids, previousAsks)
      invariant events == Events(i)
    {
      AdvanceQuotes(WalkAt(i));
      EventsGrow(i);
      var event;
      event, mid := NextEvent(rng, mid, lastId, previousBids, previousAsks, i);
      assert events + [event] == Events(i + 1);
      events := events + [event];
      previousBids, previousAsks := [mid - 10, mid - 20], [mid + 10, mid + 20];
      lastId := event.lastId;
    }
  }

  /** The body of the event loop: step the mid, delete the stale levels, quote anew. */
  method NextEvent(rng: Lcg, mid: int, lastId: nat, previousBids: seq<int>, previousAsks: seq<int>, i: nat)
      returns (event: DepthUpdate, newMid: int)
    modifies rng
    ensures var w := Walk(old(rng.state), mid, lastId, previousBids, previousAsks);
      event == EventFrom(w, i) && event.lastId == lastId + 1 && newMid == Advance(w).mid && rng.state == Advance(w).rng
  {
    hide NextState, Uniform, FourDecimals, Round, KeyOf, Deletions;
    var r := rng.Next();
    newMid := mid + Round(r * 20.0 - 10.0);
    var newBids, newAsks := [newMid - 10, newMid - 20], [newMid + 10, newMid + 20];
    var bids := DeleteStale(previousBids, newBids);
    var asks := DeleteStale(previousAsks, newAsks);
    var b0 := rng.Next();
    var b1 := rng.Next();
    bids := bids + [
      Level(KeyOf(newBids[0]), FourDecimals(0.25 + b0 * 1.5)),
      Level(KeyOf(newBids[1]), FourDecimals(0.25 + b1 * 1.5))];
    var a0 := rng.Next();
    var a1 := rng.Next();
    asks := asks + [
      Level(KeyOf(newAsks[0]), FourDecimals(0.25 + a0 * 1.5)),
      Level(KeyOf(newAsks[1]), FourDecimals(0.25 + a1 * 1.5))];
    event := DepthUpdate(BASE_TIME + i * 100, lastId + 1, lastId + 1, lastId, bids, asks);
  }

  // ---------- The walk is the seeded one ----------

  const INVERSE: nat := 13877824140714322085

  /** The generator state before a given one. */
  function PreviousState(next: nat): nat {
    ((next + U64_SIZE - 1442695040888963407) * INVERSE) % U64_SIZE
  }

  /** The generator loses nothing: every state can be wound back, so no two states lead to the same one. */
  lemma GeneratorIsInvertible(rng: nat)
    requires rng < U64_SIZE
    ensures PreviousState(NextState(rng)) == rng
  {
    var a, c := 6364136223846793005, 1442695040888963407;
    var k := (rng * a + c) / U64_SIZE;
    var t := a * INVERSE / U64_SIZE;
    assert NextState(rng) == rng * a + c - k * U64_SIZE;
    assert (NextState(rng) + U64_SIZE - c) * INVERSE == rng + U64_SIZE * (rng * t + INVERSE - k * INVERSE);
    WrapsAround(rng, rng * t + INVERSE - k * INVERSE);
  }

  lemma WrapsAround(x: nat, k: int)
    requires x < U64_SIZE && x + U64_SIZE * k >= 0
    ensures (x + U64_SIZE * k) % U64_SIZE == x
  {
  }

  /** A draw is the state as a fraction of its range, cut to 31 bits. */
  lemma DrawIsTopBits(rng: nat)
    requires rng < U64_SIZE
    ensures var top := Uniform(rng) * 2147483648.0;
      top == top.Floor as real && top.Floor * 8589934592 <= rng < (top.Floor + 1) * 8589934592
  {
    hide Uniform;
    TopOfDraw(rng);
    QuotientOfState(rng);
  }

  lemma TopOfDraw(rng: nat)
    requires rng < U64_SIZE
    ensures Uniform(rng) * 2147483648.0 == (rng / 0x2_0000_0000) as real
  {
  }

  lemma QuotientOfState(rng: nat)
    ensures (rng / 0x2_0000_0000) * 8589934592 <= rng < (rng / 0x2_0000_0000 + 1) * 8589934592
  {
  }

  /** The whole-dollar step of a draw: 20 u - 10, rounded to the nearest, halves away from zero. */
  predicate IsStep(step: int, u: real) {
    var x := u * 20.0 - 10.0;
    if x >= 0.0 then x - 0.5 < step as real <= x + 0.5 else x - 0.5 <= step as real < x + 0.5
  }

  /** The quantity of a draw: 0.25 + 1.5 u, to four decimals. */
  predicate IsQty(qty: real, u: real) {
    && qty * 10000.0 == (qty * 10000.0).Floor as real
    && -0.00005 <= qty - (0.25 + 1.5 * u) <= 0.00005
  }

  lemma StepIsNearest(rng: nat)
    requires rng < U64_SIZE
    ensures IsStep(NextStep(rng), Uniform(rng))
  {
  }

  lemma QtyIsNearest(rng: nat)
    requires rng < U64_SIZE
    ensures IsQty(NextQty(rng), Uniform(rng))
  {
    var n := ((0.25 + Uniform(rng) * 1.5) * 10000.0 + 0.5).Floor;
    assert NextQty(rng) * 10000.0 == n as real;
  }

  /** Each event draws five numbers, after the five of the snapshot. */
  lemma {:induction false} DrawsInOrder(k: nat)
    ensures WalkAt(k).rng == SeedState(5 + 5 * k)
  {
    hide NextState, NextStep;
    if k > 0 {
      DrawsInOrder(k - 1);
      var n := 5 * k;
      assert SeedState(n + 5) == NextState(SeedState(n + 4)) && SeedState(n + 4) == NextState(SeedState(n + 3));
      assert SeedState(n + 3) == NextState(SeedState(n + 2)) && SeedState(n + 2) == NextState(SeedState(n + 1));
      assert SeedState(n + 1) == NextState(SeedState(n));
    }
  }

  /** The n-th number drawn, counted from 1. */
  function Draw(n: nat): real
    requires n > 0
  {
    Uniform(SeedState(n))
  }

  /** The level quotes a price, or key 0 for a negative one, with the quantity of the n-th draw. */
  predicate QuotesDraw(level: Level, price: int, n: nat)
    requires n > 0
  {
    && (price >= 0 ==> level.key as real / KEY_SCALE == price as real) && (price < 0 ==> level.key == 0)
    && IsQty(level.qty, Draw(n))
  }

  /** The levels end with quotes at the two prices, with the quantities of the n-th draw and the one after it. */
  predicate EndsWithQuotes(levels: seq<Level>, first: int, second: int, n: nat)
    requires n > 0
  {
    && |levels| >= 2
    && QuotesDraw(levels[|levels| - 2], first, n) && QuotesDraw(levels[|levels| - 1], second, n + 1)
  }

  /**
   The stream is the seeded walk: event k comes 100 ms after the one before, follows on in its ids, moves the
   mid by the step of draw 5 k + 6, and quotes anew around it with the quantities of the next four draws.
   */
  lemma EventIsDrawn(k: nat)
    ensures var e, from, to := EventFrom(WalkAt(k), k), WalkAt(k).mid, WalkAt(k + 1).mid;
      && e.eventTime == 1_700_000_000_000 + 100 * k
      && e.firstId == e.lastId == 1001 + k && e.prevLastId == 1000 + k
      && IsStep(to - from, Draw(5 * k + 6))
      && EndsWithQuotes(e.bids, to - 10, to - 20, 5 * k + 7)
      && EndsWithQuotes(e.asks, to + 10, to + 20, 5 * k + 9)
  {
    hide NextState, NextStep, NextQty, Uniform, IsQty, IsStep, Deletions, WalkAt, SeedState;
    var w, n := WalkAt(k), 5 * k;
    DrawsInOrder(k);
    NextDraws(n + 5);
    NextDraws(n + 7);
    NextDraws(n + 9);
    IdsFollowOn(k);
    StepIsNearest(SeedState(n + 6));
    QtyIsNearest(SeedState(n + 7));
    QtyIsNearest(SeedState(n + 8));
    QtyIsNearest(SeedState(n + 9));
    QtyIsNearest(SeedState(n + 10));
  }

  lemma NextDraws(n: nat)
    ensures SeedState(n + 1) == NextState(SeedState(n)) && SeedState(n + 2) == NextState(SeedState(n + 1))
  {
  }

  lemma {:induction false} IdsFollowOn(k: nat)
    ensures WalkAt(k).lastId == 1000 + k && WalkAt(k + 1) == Advance(WalkAt(k))
  {
    if k > 0 {
      IdsFollowOn(k - 1);
    }
  }

  /** The snapshot quotes five levels on each side, 10 apart; level i has the quantity of draw i + 1 on both. */
  lemma SnapshotIsDrawn(i: nat)
    requires i < 5
    ensures SeedState(0) == 0x5DEECE66D && SNAPSHOT.lastUpdateId == 1000 && |SNAPSHOT.bids| == |SNAPSHOT.asks| == 5
    ensures QuotesDraw(SNAPSHOT.bids[i], 65_000 - 10 * (i + 1), i + 1)
    ensures QuotesDraw(SNAPSHOT.asks[i], 65_000 + 10 * (i + 1), i + 1)
  {
    hide NextState, NextQty, Uniform, IsQty;
    QtyIsNearest(SeedState(i + 1));
  }

  // ---------- The book that follows the stream ----------

  /** The side holds exactly the quoted prices, each with a positive quantity. */
  ghost predicate HoldsExactly(m: map<nat, real>, prices: seq<int>) {
    && (forall key :: key in m <==> exists i :: 0 <= i < |prices| && KeyOf(prices[i]) == key)
    && (forall key :: key in m ==> m[key] > 0.0)
  }

  ghost predicate OnGrid(prices: seq<int>) {
    forall i :: 0 <= i < |prices| ==> prices[i] >= 0
  }

  lemma KeyIsInjective(a: int, b: int)
    requires a >= 0 && b >= 0
    ensures KeyOf(a) == KeyOf(b) <==> a == b
    ensures KeyOf(a) < KeyOf(b) <==> a < b
  {
  }

  lemma {:induction false} ApplyConcat(m: map<nat, real>, a: seq<Level>, b: seq<Level>)
    ensures ApplySide(m, a + b) == ApplySide(ApplySide(m, a), b)
  {
    if b == [] {
      assert a + b == a;
    } else {
      var n := |b| - 1;
      assert (a + b)[..|a + b| - 1] == a + b[..n];
      ApplyConcat(m, a, b[..n]);
    }
  }

  ghost predicate Stale(before: seq<int>, after: seq<int>, key: nat) {
    exists i :: 0 <= i < |before| && before[i] !in after && KeyOf(before[i]) == key
  }

  lemma {:induction false} DeletionsDeleteStale(m: map<nat, real>, before: seq<int>, after: seq<int>)
    ensures var r := ApplySide(m, Deletions(before, after));
      forall key :: (key in r <==> key in m && !Stale(before, after, key)) && (key in r ==> r[key] == m[key])
    decreases |before|
  {
    if before != [] {
      var rest := before[1..];
      var first := if before[0] in after then [] else [Level(KeyOf(before[0]), 0.0)];
      var m' := ApplySide(m, first);
      ApplyConcat(m, first, Deletions(rest, after));
      assert first != [] ==> first[..0] == [] && m' == m - {KeyOf(before[0])};
      DeletionsDeleteStale(m', rest, after);
      forall key
        ensures Stale(before, after, key) <==> Stale(rest, after, key) || (first != [] && KeyOf(before[0]) == key)
      {
        if Stale(rest, after, key) {
          var i :| 0 <= i < |rest| && rest[i] !in after && KeyOf(rest[i]) == key;
          assert before[i + 1] == rest[i];
        }
        assert forall i :: 0 < i < |before| ==> before[i] == rest[i - 1];
      }
    }
  }

  lemma TwoPuts(kept: map<nat, real>, quotes: seq<Level>, prices: seq<int>)
    requires |prices| == |quotes| == 2
    requires forall i :: 0 <= i < 2 ==> quotes[i].key == KeyOf(prices[i]) && quotes[i].qty > 0.0
    requires forall key :: key in kept ==> kept[key] > 0.0 && (key == quotes[0].key || key == quotes[1].key)
    ensures HoldsExactly(ApplySide(kept, quotes), prices)
  {
    assert quotes[..1] == [quotes[0]] && quotes[..1][..0] == [];
    var one: map<nat, real> := kept[quotes[0].key := quotes[0].qty];
    var r := ApplySide(kept, quotes);
    assert ApplySide(kept, quotes[..1][..0]) == kept && ApplySide(kept, quotes[..1]) == one;
    assert r == one[quotes[1].key := quotes[1].qty];
    forall key
      ensures key in r <==> exists i :: 0 <= i < 2 && KeyOf(prices[i]) == key
    {
      assert key in r <==> key == KeyOf(prices[0]) || key == KeyOf(prices[1]);
    }
  }

  lemma RequotingReplacesQuotes(m: map<nat, real>, before: seq<int>, after: seq<int>, rng: nat)
    requires HoldsExactly(m, before) && |after| == 2
    ensures HoldsExactly(ApplySide(m, Deletions(before, after) + FreshQuotes(after, rng)), after)
  {
    hide KeyOf, ApplySide, NextQty;
    var quotes := FreshQuotes(after, rng);
    ApplyConcat(m, Deletions(before, after), quotes);
    DeletionsDeleteStale(m, before, after);
    var kept := ApplySide(m, Deletions(before, after));
    forall key | key in kept
      ensures kept[key] > 0.0 && (key == quotes[0].key || key == quotes[1].key)
    {
      var i :| 0 <= i < |before| && KeyOf(before[i]) == key;
      assert before[i] in after;
    }
    TwoPuts(kept, quotes, after);
  }

  lemma {:induction false} SnapshotQuotes(side: int, k: nat)
    requires (side == 1 || side == -1) && k <= 5
    ensures HoldsExactly(LoadSide(SnapshotLevels(side, k)), SnapshotPrices(side, k))
  {
    hide NextQty, SeedState, NextState, KeyOf;
    if k > 0 {
      var levels, prices := SnapshotLevels(side, k), SnapshotPrices(side, k);
      SnapshotQuotes(side, k - 1);
      assert levels[..k - 1] == SnapshotLevels(side, k - 1);
      assert prices[..k - 1] == SnapshotPrices(side, k - 1);
      forall key
        ensures key in LoadSide(levels) <==> exists i :: 0 <= i < k && KeyOf(prices[i]) == key
      {
        assert levels[k - 1].key == KeyOf(prices[k - 1]);
        assert forall i :: 0 <= i < k - 1 ==> prices[i] == SnapshotPrices(side, k - 1)[i];
      }
    }
  }

  /** The book after the snapshot and the first k events. */
  function BookAfter(k: nat): BookState {
    if k == 0 then OnSnapshot(EMPTY_BOOK, SNAPSHOT) else OnUpdate(BookAfter(k - 1), EventFrom(WalkAt(k - 1), k - 1)).book
  }

  /**
   Every event is accepted, and after event k the book is live at id 1000 + k and holds exactly the
   levels last quoted, all with positive quantity.
   */
  lemma {:induction false} BookTracksWalk(k: nat)
    ensures var b, w := BookAfter(k), WalkAt(k);
      && b.sync == Live(BASE_UPDATE_ID + k) && w.lastId == BASE_UPDATE_ID + k
      && HoldsExactly(b.bids, w.bids) && HoldsExactly(b.asks, w.asks)
      && OnUpdate(b, EventFrom(w, k)).applied
  {
    hide Advance, KeyOf, NextState, NextStep, HoldsExactly, FreshQuotes, Deletions, ApplySide, LoadSide;
    if k == 0 {
      SnapshotQuotes(-1, 5);
      SnapshotQuotes(1, 5);
    } else {
      BookTracksWalk(k - 1);
      var b, w, w' := BookAfter(k - 1), WalkAt(k - 1), WalkAt(k);
      var r1 := NextState(w.rng);
      AdvanceQuotes(w);
      RequotingReplacesQuotes(b.bids, w.bids, w'.bids, r1);
      RequotingReplacesQuotes(b.asks, w.asks, w'.asks, NextState(NextState(r1)));
    }
  }

  lemma AdvanceQuotes(w: Walk)
    ensures var w', mid := Advance(w), w.mid + NextStep(NextState(w.rng));
      w'.mid == mid && w'.bids == BidsAround(mid) && w'.asks == AsksAround(mid) && w'.lastId == w.lastId + 1
    ensures w.mid - 10 <= Advance(w).mid <= w.mid + 10
  {
  }

  /** The walk moves by at most 10 per event, so 6498 events cannot take a quoted price below zero. */
  lemma {:induction false} WalkIsBounded(k: nat)
    ensures BASE_PRICE - 10 * k <= WalkAt(k).mid <= BASE_PRICE + 10 * k
    ensures k <= 6498 ==> WalkAt(k).mid >= 20
  {
    hide Advance;
    if k > 0 {
      WalkIsBounded(k - 1);
      AdvanceQuotes(WalkAt(k - 1));
    }
  }

  /** The view lists exactly mid - 10, mid - 20 as bids and mid + 10, mid + 20 as asks, with positive quantities. */
  ghost predicate ShowsQuotes(v: BookView, mid: int) {
    && |v.bids| == |v.asks| == 2
    && v.bids[0].price == (mid - 10) as real && v.bids[1].price == (mid - 20) as real
    && v.asks[0].price == (mid + 10) as real && v.asks[1].price == (mid + 20) as real
    && v.bids[0].qty > 0.0 && v.bids[1].qty > 0.0 && v.asks[0].qty > 0.0 && v.asks[1].qty > 0.0
  }

  /**
   The synthetic stream keeps the book exact and uncrossed: the view after event k shows exactly the
   quoted prices if and only if none of them is negative, as in the first 6498 events.
   */
  lemma SyntheticViewIsExact(k: nat, depth: nat)
    requires k > 0 && depth >= 2
    ensures ShowsQuotes(ViewOf(BookAfter(k), depth), WalkAt(k).mid) <==> WalkAt(k).mid >= 20
  {
    hide Advance, KeyOf, TopLevels, BookAfter, EventFrom, OnUpdate;
    var b, mid := BookAfter(k), WalkAt(k).mid;
    if mid >= 20 {
      BookTracksWalk(k);
      AdvanceQuotes(WalkAt(k - 1));
      TopOfTwo(b.bids, [mid - 10, mid - 20], depth, true);
      TopOfTwo(b.asks, [mid + 10, mid + 20], depth, false);
      KeyIsPrice(mid - 10);
      KeyIsPrice(mid - 20);
      KeyIsPrice(mid + 10);
      KeyIsPrice(mid + 20);
    }
  }

  lemma KeyIsPrice(dollars: int)
    requires dollars >= 0
    ensures KeyOf(dollars) as real / KEY_SCALE == dollars as real
  {
  }

  lemma TopOfTwo(m: map<nat, real>, prices: seq<int>, depth: nat, highestFirst: bool)
    requires |prices| == 2 && OnGrid(prices) && HoldsExactly(m, prices) && depth >= 2
    requires if highestFirst then prices[0] > prices[1] else prices[0] < prices[1]
    ensures var top := TopLevels(m, depth, highestFirst);
      |top| == 2 && forall i :: 0 <= i < 2 ==> top[i].key == KeyOf(prices[i]) && top[i].qty > 0.0
  {
    hide HoldsExactly, KeyOf;
    var k0, k1 := KeyOf(prices[0]), KeyOf(prices[1]);
    KeyIsInjective(prices[0], prices[1]);
    KeyIsInjective(prices[1], prices[0]);
    HoldsTwo(m, prices);
    TopLevelsIsTopView(m, depth, highestFirst);
    var top := TopLevels(m, depth, highestFirst);
    TwoKeys(m, k0, k1);
    assert top[0].key in m && top[1].key in m && Before(top[0].key, top[1].key, highestFirst);
  }

  lemma HoldsTwo(m: map<nat, real>, prices: seq<int>)
    requires |prices| == 2 && HoldsExactly(m, prices)
    ensures forall key :: key in m <==> key == KeyOf(prices[0]) || key == KeyOf(prices[1])
    ensures forall key :: key in m ==> m[key] > 0.0
  {
  }

  lemma TwoKeys(m: map<nat, real>, k0: nat, k1: nat)
    requires k0 != k1 && forall key :: key in m <==> key == k0 || key == k1
    ensures |m| == 2
  {
    assert m.Keys == {k0, k1};
  }
}
