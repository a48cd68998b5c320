/** What the strategies guarantee over whole runs: sizing, entry conditions, trade spacing, and ledger alignment. */
module StrategyRuns {
  import opened Types
  import opened Risk
  import opened Fifo
  import opened Strategies

  // ---------- Entries ----------

  /** That many quantity steps fit the configured quantity, and the budget at this price. */
  predicate Fits(steps: int, qty: real, maxNotional: Option<real>, price: real) {
    && steps as real * QTY_STEP <= qty
    && (maxNotional.Some? && price > 0.0 ==> price * (steps as real * QTY_STEP) <= maxNotional.value)
  }

  /** The quantity is the largest number of steps that fits. */
  ghost predicate LargestFit(entry: real, qty: real, maxNotional: Option<real>, price: real) {
    exists n :: IsLargestFit(n, entry, qty, maxNotional, price)
  }

  ghost predicate IsLargestFit(n: int, entry: real, qty: real, maxNotional: Option<real>, price: real) {
    entry == n as real * QTY_STEP && forall k :: Fits(k, qty, maxNotional, price) <==> k <= n
  }

  /** An entry is the largest number of steps that fits; it is positive exactly when one step does. */
  lemma EntryIsLargestFit(qty: real, maxNotional: Option<real>, price: real)
    ensures LargestFit(EntryQty(qty, maxNotional, price), qty, maxNotional, price)
    ensures EntryQty(qty, maxNotional, price) > 0.0 <==> Fits(1, qty, maxNotional, price)
  {
    var capped :=
      if maxNotional.Some? && price > 0.0 && maxNotional.value / price < qty then maxNotional.value / price else qty;
    var n := (capped / QTY_STEP).Floor;
    forall k: int
      ensures Fits(k, qty, maxNotional, price) <==> k <= n
    {
      var q := k as real * QTY_STEP;
      if maxNotional.Some? && price > 0.0 {
        QuotientOrder(q, maxNotional.value, price);
      }
      assert q <= capped <==> k as real <= capped / QTY_STEP;
    }
    assert IsLargestFit(n, EntryQty(qty, maxNotional, price), qty, maxNotional, price);
  }

  lemma QuotientOrder(q: real, n: real, d: real)
    requires d > 0.0
    ensures d * q <= n <==> q <= n / d
  {
    assert (n / d) * d == n;
    if q <= n / d {
      assert (n / d - q) * d >= 0.0;
    } else {
      assert (q - n / d) * d > 0.0;
    }
  }

  /** An entry is a whole number of quantity steps, never above the configured quantity, and within the budget. */
  lemma EntryStaysWithinBudget(qty: real, maxNotional: Option<real>, price: real)
    ensures var q := EntryQty(qty, maxNotional, price);
      && q <= qty
      && (q > 0.0 ==> q >= QTY_STEP)
      && (maxNotional.Some? && price > 0.0 ==> price * q <= maxNotional.value)
  {
    var q := EntryQty(qty, maxNotional, price);
    if maxNotional.Some? && price > 0.0 {
      QuotientOrder(q, maxNotional.value, price);
    }
  }

  /** One step buys only when both gates pass on its history; over runs, see EveryBuyFollowsTrueMomentum. */
  lemma BuyMeansBothGatesPassed(c: MomentumConfig, s: MomentumState, view: BookView)
    requires MomentumStep(c, s, view).1.Buy?
    ensures TwoSided(view) && !s.position.holding && s.cooldownLeft == 0
    ensures var history := s.history + [Mid(view)];
      && |history| > c.lookbackTicks
      && var past := history[|history| - 1 - c.lookbackTicks];
        past > 0.0 && Mid(view) >= past * (1.0 + c.entryMomPct / 100.0)
    ensures ImbalanceGate(c, view)
    ensures var Buy(price, qty) := MomentumStep(c, s, view).1;
      && price == view.asks[0].price && QTY_STEP <= qty <= c.qty
      && (c.maxNotional.Some? && price > 0.0 ==> price * qty <= c.maxNotional.value)
  {
    hide ImbalanceGate, Above;
    EntryStaysWithinBudget(c.qty, c.maxNotional, view.asks[0].price);
    var history := s.history + [Mid(view)];
    var past := history[|history| - 1 - c.lookbackTicks];
    ReturnMeansGrowth(past, Mid(view), c.entryMomPct);
  }

  lemma ReturnMeansGrowth(past: real, mid: real, pct: real)
    requires past > 0.0
    ensures (mid - past) / past * 100.0 >= pct <==> mid >= past * (1.0 + pct / 100.0)
  {
    QuotientOrder(pct / 100.0, mid - past, past);
    assert past * (1.0 + pct / 100.0) == past + past * (pct / 100.0);
  }

  /** The quantity of the first n quotes. */
  function QtyOfFirst(quotes: seq<Quote>, n: nat): real
    requires n <= |quotes|
  {
    if n == 0 then 0.0 else QtyOfFirst(quotes, n - 1) + quotes[n - 1].qty
  }

  /** The quantity of the five best quotes, or of all there are. */
  function TopQty(quotes: seq<Quote>): real {
    QtyOfFirst(quotes, if |quotes| < 5 then |quotes| else 5)
  }

  /** The bid side holds at least the configured share of the five best levels. */
  predicate Skewed(c: MomentumConfig, view: BookView) {
    var bid, ask := TopQty(view.bids), TopQty(view.asks);
    bid + ask > 0.0 && bid >= c.imbalanceMin * (bid + ask)
  }

  lemma {:induction false} VolumeOfConcat(a: seq<Quote>, b: seq<Quote>)
    ensures Volume(a + b) == Volume(a) + Volume(b)
  {
    if a == [] {
      assert [] + b == b;
    } else {
      assert (a + b)[1..] == a[1..] + b;
      VolumeOfConcat(a[1..], b);
    }
  }

  lemma {:induction false} VolumeOfFirst(quotes: seq<Quote>, n: nat)
    requires n <= |quotes|
    ensures Volume(quotes[..n]) == QtyOfFirst(quotes, n)
  {
    if n > 0 {
      VolumeOfFirst(quotes, n - 1);
      assert quotes[..n] == quotes[..n - 1] + [quotes[n - 1]] && [quotes[n - 1]][1..] == [];
      VolumeOfConcat(quotes[..n - 1], [quotes[n - 1]]);
    }
  }

  lemma TopFiveVolume(quotes: seq<Quote>)
    ensures Volume(TopFive(quotes)) == TopQty(quotes)
  {
    VolumeOfFirst(quotes, if |quotes| < 5 then |quotes| else 5);
    assert quotes[..|quotes|] == quotes;
  }

  lemma GateMeansSkew(c: MomentumConfig, view: BookView)
    ensures ImbalanceGate(c, view) <==> Skewed(c, view)
  {
    hide TopQty;
    TopFiveVolume(view.bids);
    TopFiveVolume(view.asks);
    var bid, ask := TopQty(view.bids), TopQty(view.asks);
    if bid + ask > 0.0 {
      QuotientOrder(c.imbalanceMin, bid, bid + ask);
    }
  }

  /** A ping-pong buy bids at the best bid, for a whole number of steps that fits the budget. */
  lemma PingPongBuyFitsBudget(c: PingPongConfig, p: Position, view: BookView)
    requires PingPongStep(c, p, view).1.Buy?
    ensures var Buy(price, qty) := PingPongStep(c, p, view).1;
      && !p.holding && price == view.bids[0].price && QTY_STEP <= qty <= c.qty
      && (c.maxNotional.Some? && price > 0.0 ==> Value(price, qty) <= c.maxNotional.value)
  {
    hide EntryQty, Above;
    EntryStaysWithinBudget(c.qty, c.maxNotional, view.bids[0].price);
  }

  /** A ping-pong sell either gains at least the minimum edge, or is a stop-out that loses at least the stop. */
  lemma PingPongSellIsEdgeOrStop(c: PingPongConfig, p: Position, view: BookView)
    requires PingPongStep(c, p, view).1.Sell? && p.entryQty >= 0.0
    ensures var price := PingPongStep(c, p, view).1.price;
      var profit := Value(price - p.entryPrice, p.entryQty);
      || (price == view.asks[0].price && profit >= Value(p.entryPrice * c.minEdgePct / 100.0, p.entryQty))
      || (price == view.bids[0].price && profit <= Value(-p.entryPrice * c.stopPct / 100.0, p.entryQty))
  {
    hide Value;
    var price := PingPongStep(c, p, view).1.price;
    AboveIsGain(p.entryPrice, c.minEdgePct);
    AboveIsGain(p.entryPrice, -c.stopPct);
    if price - p.entryPrice >= p.entryPrice * c.minEdgePct / 100.0 {
      ValueOrder(p.entryPrice * c.minEdgePct / 100.0, price - p.entryPrice, p.entryQty);
    }
    if price - p.entryPrice <= -p.entryPrice * c.stopPct / 100.0 {
      ValueOrder(price - p.entryPrice, -p.entryPrice * c.stopPct / 100.0, p.entryQty);
    }
  }

  lemma AboveIsGain(price: real, pct: real)
    ensures Above(price, pct) == price + price * pct / 100.0
  {
  }

  lemma ValueOrder(a: real, b: real, qty: real)
    requires a <= b && qty >= 0.0
    ensures Value(a, qty) <= Value(b, qty)
  {
    assert (b - a) * qty >= 0.0;
  }

  /**
   A momentum position is closed at the best bid on the first tick that gains the take-profit, loses
   the stop, or reaches the time stop; and on no other tick.
   */
  lemma MomentumClosesOnFirstReason(c: MomentumConfig, s: MomentumState, view: BookView)
    requires s.position.holding && TwoSided(view)
    ensures var (s', signal) := MomentumStep(c, s, view);
      var gain := view.bids[0].price - s.position.entryPrice;
      var reason := gain >= s.position.entryPrice * c.tpPct / 100.0
        || -gain >= s.position.entryPrice * c.stopPct / 100.0
        || s.heldTicks + 1 >= c.maxHoldTicks;
      if reason then
        && signal == Sell(view.bids[0].price, s.position.entryQty)
        && !s'.position.holding && s'.cooldownLeft == c.cooldownTicks
      else
        signal == Hold && s'.position == s.position
  {
    hide Above, EntryQty, MomentumGate, ImbalanceGate;
    AboveIsGain(s.position.entryPrice, c.tpPct);
    AboveIsGain(s.position.entryPrice, -c.stopPct);
  }

  // ---------- Runs ----------

  /** A strategy over a sequence of views: the state it ends in, and its signals. */
  function Play<S>(step: (S, BookView) -> (S, Signal), start: S, views: seq<BookView>): (r: (S, seq<Signal>))
    ensures |r.1| == |views|
    decreases |views|
  {
    if views == [] then
      (start, [])
    else
      var (next, signal) := step(start, views[0]);
      var (end, signals) := Play(step, next, views[1..]);
      (end, [signal] + signals)
  }

  function PingPongPlayer(c: PingPongConfig): (Position, BookView) -> (Position, Signal) {
    (p, view) => PingPongStep(c, p, view)
  }

  function MomentumPlayer(c: MomentumConfig): (MomentumState, BookView) -> (MomentumState, Signal) {
    (s, view) => MomentumStep(c, s, view)
  }

  function PingPongRun(c: PingPongConfig, p: Position, views: seq<BookView>): (Position, seq<Signal>) {
    Play(PingPongPlayer(c), p, views)
  }

  function MomentumRun(c: MomentumConfig, s: MomentumState, views: seq<BookView>): (MomentumState, seq<Signal>) {
    Play(MomentumPlayer(c), s, views)
  }

  // ---------- What a buy means ----------

  function MidOf(view: BookView): real
    requires TwoSided(view)
  {
    (view.bids[0].price + view.asks[0].price) / 2.0
  }

  /** The mid prices of the views that show both sides, in order. */
  function Mids(views: seq<BookView>): seq<real> {
    if views == [] then [] else (if TwoSided(views[0]) then [MidOf(views[0])] else []) + Mids(views[1..])
  }

  lemma {:induction false} FirstMid(views: seq<BookView>, i: nat)
    requires i < |views|
    ensures Mids(views[..i + 1]) == Mids(views[..1]) + Mids(views[1..][..i])
  {
    assert views[..i + 1][0] == views[0] && views[..i + 1][1..] == views[1..][..i];
    assert views[..1][1..] == [] && Mids(views[..1][1..]) == [];
  }

  lemma HistoryGrows(c: MomentumConfig, s: MomentumState, views: seq<BookView>)
    requires views != []
    ensures MomentumStep(c, s, views[0]).0.history == s.history + Mids(views[..1])
  {
    assert views[..1][1..] == [] && Mids(views[..1][1..]) == [];
  }

  /** The last price of a history has grown by the entry threshold over the lookback window. */
  predicate HasMomentum(c: MomentumConfig, prices: seq<real>) {
    && |prices| > c.lookbackTicks
    && var past, now := prices[|prices| - 1 - c.lookbackTicks], prices[|prices| - 1];
      past > 0.0 && now >= past * (1.0 + c.entryMomPct / 100.0)
  }

  /** The buy pays the best ask for whole steps within quantity and budget. */
  predicate BuysAtAsk(c: MomentumConfig, view: BookView, signal: Signal)
    requires TwoSided(view) && signal.Buy?
  {
    && signal.price == view.asks[0].price && QTY_STEP <= signal.qty <= c.qty
    && (c.maxNotional.Some? && signal.price > 0.0 ==> signal.price * signal.qty <= c.maxNotional.value)
  }

  lemma FirstBuyHasMomentum(c: MomentumConfig, s: MomentumState, view: BookView)
    requires MomentumStep(c, s, view).1.Buy?
    ensures TwoSided(view) && Skewed(c, view) && BuysAtAsk(c, view, MomentumStep(c, s, view).1)
    ensures HasMomentum(c, s.history + [Mid(view)])
  {
    hide MomentumStep, ImbalanceGate, Skewed;
    BuyMeansBothGatesPassed(c, s, view);
    GateMeansSkew(c, view);
  }

  /**
   In every run, a buy means that the mid price has grown by the entry threshold over the last
   `lookbackTicks` of all the mid prices the run has seen, that the bid side holds the configured share
   of the five best levels, and that it pays the best ask for whole steps within quantity and budget.
   */
  lemma {:induction false} EveryBuyFollowsTrueMomentum(c: MomentumConfig, s: MomentumState, views: seq<BookView>, i: nat)
    requires i < |views| && MomentumRun(c, s, views).1[i].Buy?
    ensures TwoSided(views[i]) && Skewed(c, views[i])
    ensures BuysAtAsk(c, views[i], MomentumRun(c, s, views).1[i])
    ensures HasMomentum(c, s.history + Mids(views[..i + 1]))
    decreases i
  {
    hide MomentumStep, Skewed, HasMomentum, BuysAtAsk, Mids;
    HistoryGrows(c, s, views);
    if i == 0 {
      FirstBuyHasMomentum(c, s, views[0]);
      OneMid(views);
    } else {
      var s1 := MomentumStep(c, s, views[0]).0;
      EveryBuyFollowsTrueMomentum(c, s1, views[1..], i - 1);
      FirstMid(views, i);
      assert s.history + Mids(views[..i + 1]) == s1.history + Mids(views[1..][..i]);
    }
  }

  lemma OneMid(views: seq<BookView>)
    requires views != [] && TwoSided(views[0])
    ensures Mids(views[..1]) == [MidOf(views[0])]
  {
    assert views[..1][1..] == [] && Mids(views[..1][1..]) == [];
  }

  lemma {:induction false} PlayOneMore<S>(
      step: (S, BookView) -> (S, Signal), start: S, views: seq<BookView>, view: BookView)
    ensures var (before, signals) := Play(step, start, views);
      Play(step, start, views + [view]) == (step(before, view).0, signals + [step(before, view).1])
    decreases |views|
  {
    if views == [] {
      var (next, signal) := step(start, view);
      assert [] + [view] == [view] && [view][1..] == [] && [signal] + [] == [] + [signal];
      assert Play(step, next, []) == (next, []);
    } else {
      assert (views + [view])[1..] == views[1..] + [view];
      var (next, signal) := step(start, views[0]);
      PlayOneMore(step, next, views[1..], view);
      var (before, signals) := Play(step, next, views[1..]);
      var last := step(before, view).1;
      assert [signal] + (signals + [last]) == [signal] + signals + [last];
    }
  }

  // ---------- When a strategy trades ----------

  /** Where the last trade is. */
  function LastTrade(signals: seq<Signal>): (j: Option<nat>)
    ensures j.Some? ==> j.value < |signals| && !signals[j.value].Hold?
  {
    if signals == [] then None
    else if !signals[|signals| - 1].Hold? then Some(|signals| - 1)
    else LastTrade(signals[..|signals| - 1])
  }

  lemma OneMoreSignal(past: seq<Signal>, signal: Signal)
    ensures LastTrade(past + [signal]) == if signal.Hold? then LastTrade(past) else Some(|past|)
  {
    assert (past + [signal])[..|past|] == past;
  }

  /** That many percent of a price. */
  function Percent(price: real, pct: real): real {
    price * pct / 100.0
  }

  lemma AboveIsPercent(entry: real, price: real, pct: real)
    ensures price >= Above(entry, pct) <==> price - entry >= Percent(entry, pct)
    ensures price <= Above(entry, -pct) <==> entry - price >= Percent(entry, pct)
  {
    AboveIsGain(entry, pct);
    AboveIsGain(entry, -pct);
  }

  /** A buy at the given price of the most that fits. */
  ghost predicate BuysMost(signal: Signal, price: real, qty: real, maxNotional: Option<real>) {
    signal.Buy? && signal.price == price && LargestFit(signal.qty, qty, maxNotional, price)
  }

  /**
   The ping-pong signal that is due after the signals of the past. Without a position it buys at the best
   bid what fits, if anything does; a position is sold at the best ask on the first view that gains the
   minimum edge, else at the best bid on the first that loses the stop.
   */
  ghost predicate PingPongDue(c: PingPongConfig, past: seq<Signal>, view: BookView, signal: Signal) {
    if !TwoSided(view) then
      signal == Hold
    else
      var bid, ask, last := view.bids[0].price, view.asks[0].price, LastTrade(past);
      if last.None? || past[last.value].Sell? then
        if Fits(1, c.qty, c.maxNotional, bid) then BuysMost(signal, bid, c.qty, c.maxNotional) else signal == Hold
      else
        var Buy(entry, qty) := past[last.value];
        if ask - entry >= Percent(entry, c.minEdgePct) then signal == Sell(ask, qty)
        else if entry - bid >= Percent(entry, c.stopPct) then signal == Sell(bid, qty)
        else signal == Hold
  }

  /** The position is the one that the last trade opened. */
  predicate PingPongFollows(p: Position, past: seq<Signal>) {
    var last := LastTrade(past);
    if last.Some? && past[last.value].Buy? then
      p.holding && past[last.value] == Buy(p.entryPrice, p.entryQty)
    else
      !p.holding
  }

  lemma PingPongStepIsDue(c: PingPongConfig, p: Position, past: seq<Signal>, view: BookView)
    requires PingPongFollows(p, past)
    ensures var (p', signal) := PingPongStep(c, p, view);
      PingPongDue(c, past, view, signal) && PingPongFollows(p', past + [signal])
  {
    hide EntryQty, LargestFit, Fits, Above, Percent, LastTrade;
    OneMoreSignal(past, PingPongStep(c, p, view).1);
    if TwoSided(view) {
      EntryIsLargestFit(c.qty, c.maxNotional, view.bids[0].price);
      AboveIsPercent(p.entryPrice, view.asks[0].price, c.minEdgePct);
      AboveIsPercent(p.entryPrice, view.bids[0].price, c.stopPct);
    }
  }

  /** Every signal of every ping-pong run is the one that is due. */
  lemma {:induction false} PingPongIsExact(c: PingPongConfig, views: seq<BookView>)
    ensures var (p, signals) := PingPongRun(c, FLAT, views);
      && PingPongFollows(p, signals)
      && forall i :: 0 <= i < |views| ==> PingPongDue(c, signals[..i], views[i], signals[i])
    decreases |views|
  {
    hide PingPongStep, PingPongDue, PingPongFollows;
    if views == [] {
      FlatFollowsNothing();
    } else {
      var n := |views| - 1;
      var (before, past) := PingPongRun(c, FLAT, views[..n]);
      var signals := PingPongRun(c, FLAT, views).1;
      PingPongIsExact(c, views[..n]);
      PlayOneMore(PingPongPlayer(c), FLAT, views[..n], views[n]);
      assert views[..n] + [views[n]] == views;
      PingPongStepIsDue(c, before, past, views[n]);
      assert signals[..n] == past;
      forall i | 0 <= i < n
        ensures PingPongDue(c, signals[..i], views[i], signals[i])
      {
        assert signals[..i] == past[..i] && views[..n][i] == views[i];
      }
    }
  }

  lemma FlatFollowsNothing()
    ensures PingPongFollows(FLAT, [])
  {
  }

  /** All conditions of a momentum entry, on the mid prices so far and the view. */
  predicate Enters(c: MomentumConfig, prices: seq<real>, view: BookView)
    requires TwoSided(view)
  {
    HasMomentum(c, prices) && Skewed(c, view) && Fits(1, c.qty, c.maxNotional, view.asks[0].price)
  }

  /** Some reason to close a position: take profit, stop, or its age in ticks. */
  predicate Exits(c: MomentumConfig, entry: real, bid: real, age: nat) {
    || bid - entry >= Percent(entry, c.tpPct)
    || entry - bid >= Percent(entry, c.stopPct)
    || age >= c.maxHoldTicks
  }

  /**
   The momentum signal that is due after the signals of the past and on the mid prices so far. A position
   is sold at the best bid on the first tick with a reason to; without one, and more than `cooldownTicks`
   ticks after the last sell, it buys at the best ask what fits, on every tick that meets the conditions.
   */
  ghost predicate MomentumDue(
      c: MomentumConfig, prices: seq<real>, past: seq<Signal>, view: BookView, signal: Signal)
    requires TwoSided(view)
  {
    var bid, ask, last := view.bids[0].price, view.asks[0].price, LastTrade(past);
    if last.Some? && past[last.value].Buy? then
      var Buy(entry, qty) := past[last.value];
      if Exits(c, entry, bid, |past| - last.value) then signal == Sell(bid, qty) else signal == Hold
    else if (last.Some? ==> |past| - last.value > c.cooldownTicks) && Enters(c, prices, view) then
      BuysMost(signal, ask, c.qty, c.maxNotional)
    else
      signal == Hold
  }

  /** The state is what the prices and the last trade make of it. */
  predicate MomentumFollows(c: MomentumConfig, s: MomentumState, prices: seq<real>, past: seq<Signal>) {
    var last := LastTrade(past);
    && s.history == prices
    && if last.None? then
        !s.position.holding && s.cooldownLeft == 0
      else
        var age, p := |past| - 1 - last.value, s.position;
        if past[last.value].Buy? then
          p.holding && past[last.value] == Buy(p.entryPrice, p.entryQty) && s.heldTicks == age
        else
          !p.holding && s.cooldownLeft == if age < c.cooldownTicks then c.cooldownTicks - age else 0
  }

  lemma MomentumStepIsDue(
      c: MomentumConfig, s: MomentumState, prices: seq<real>, past: seq<Signal>, view: BookView)
    requires TwoSided(view) && MomentumFollows(c, s, prices, past)
    ensures var (s', signal) := MomentumStep(c, s, view);
      && MomentumDue(c, prices + [MidOf(view)], past, view, signal)
      && MomentumFollows(c, s', prices + [MidOf(view)], past + [signal])
  {
    hide EntryQty, LargestFit, Fits, Above, Percent, LastTrade, Skewed, ImbalanceGate, HasMomentum, MomentumGate;
    OneMoreSignal(past, MomentumStep(c, s, view).1);
    GateMeansSkew(c, view);
    EntryIsLargestFit(c.qty, c.maxNotional, view.asks[0].price);
    AboveIsPercent(s.position.entryPrice, view.bids[0].price, c.tpPct);
    AboveIsPercent(s.position.entryPrice, view.bids[0].price, c.stopPct);
    GateMeansMomentum(c, s.history + [Mid(view)]);
  }

  lemma GateMeansMomentum(c: MomentumConfig, prices: seq<real>)
    requires prices != []
    ensures MomentumGate(c, PriceAgo(prices, c.lookbackTicks), prices[|prices| - 1]) <==> HasMomentum(c, prices)
  {
    var past := PriceAgo(prices, c.lookbackTicks);
    if past.Some? && past.value > 0.0 {
      ReturnMeansGrowth(past.value, prices[|prices| - 1], c.entryMomPct);
    }
  }

  lemma {:induction false} OneMoreMid(views: seq<BookView>, view: BookView)
    requires TwoSided(view)
    ensures Mids(views + [view]) == Mids(views) + [MidOf(view)]
  {
    hide MidOf, Mids;
    if views == [] {
      assert [] + [view] == [view] && Mids([]) == [] by {
        NoMids();
      }
      OneMid([view]);
      assert [view][..1] == [view];
    } else {
      var rest := views[1..];
      var first := if TwoSided(views[0]) then [MidOf(views[0])] else [];
      OneMoreMid(rest, view);
      FirstAndRest(views);
      FirstAndRest(views + [view]);
      assert (views + [view])[1..] == rest + [view];
      assert first + (Mids(rest) + [MidOf(view)]) == first + Mids(rest) + [MidOf(view)];
    }
  }

  lemma NoMids()
    ensures Mids([]) == []
  {
  }

  lemma FirstAndRest(views: seq<BookView>)
    requires views != []
    ensures Mids(views) == (if TwoSided(views[0]) then [MidOf(views[0])] else []) + Mids(views[1..])
  {
  }

  /** Every signal of every momentum run over ticks is the one that is due. */
  lemma {:induction false} MomentumIsExact(c: MomentumConfig, views: seq<BookView>)
    requires forall i :: 0 <= i < |views| ==> TwoSided(views[i])
    ensures var (s, signals) := MomentumRun(c, MOMENTUM_START, views);
      && MomentumFollows(c, s, Mids(views), signals)
      && forall i :: 0 <= i < |views| ==> MomentumDue(c, Mids(views[..i + 1]), signals[..i], views[i], signals[i])
    decreases |views|
  {
    hide MomentumStep, MomentumDue, MomentumFollows, Mids;
    if views == [] {
      StartFollowsNothing(c);
    } else {
      var n := |views| - 1;
      var (before, past) := MomentumRun(c, MOMENTUM_START, views[..n]);
      var signals := MomentumRun(c, MOMENTUM_START, views).1;
      MomentumIsExact(c, views[..n]);
      PlayOneMore(MomentumPlayer(c), MOMENTUM_START, views[..n], views[n]);
      OneMoreMid(views[..n], views[n]);
      assert views[..n] + [views[n]] == views && views[..n + 1] == views;
      MomentumStepIsDue(c, before, Mids(views[..n]), past, views[n]);
      assert signals[..n] == past;
      forall i | 0 <= i < n
        ensures MomentumDue(c, Mids(views[..i + 1]), signals[..i], views[i], signals[i])
      {
        assert signals[..i] == past[..i] && views[..n][i] == views[i] && views[..n][..i + 1] == views[..i + 1];
      }
    }
  }

  lemma StartFollowsNothing(c: MomentumConfig)
    ensures MomentumFollows(c, MOMENTUM_START, Mids([]), [])
  {
  }

  // ---------- The strategy objects over whole runs ----------

  /** Calls the momentum strategy on each view in turn, as the order-book thread does. */
  method RunMomentum(strategy: MomentumScalp, views: seq<BookView>) returns (signals: seq<Signal>)
    requires strategy.Valid()
    modifies strategy, strategy.prices
    ensures strategy.Valid()
    ensures (strategy.Contents(), signals) == MomentumRun(strategy.config, old(strategy.Contents()), views)
  {
    hide MomentumStep;
    signals := [];
    assert views[0..] == views;
    ghost var all := MomentumRun(strategy.config, strategy.Contents(), views).1;
    assert [] + all == all;
    for i := 0 to |views|
      invariant strategy.Valid()
      invariant var (end, rest) := MomentumRun(strategy.config, strategy.Contents(), views[i..]);
        (end, signals + rest) == MomentumRun(strategy.config, old(strategy.Contents()), views)
    {
      assert views[i..][0] == views[i] && views[i..][1..] == views[i + 1..];
      ghost var before := strategy.Contents();
      var signal := strategy.OnOrderbook(views[i]);
      ghost var rest := MomentumRun(strategy.config, strategy.Contents(), views[i + 1..]).1;
      assert signals + ([signal] + rest) == signals + [signal] + rest;
      signals := signals + [signal];
    }
    assert signals + [] == signals;
  }

  // ---------- Trade spacing of the momentum strategy ----------

  /** The ticks of a run: the views with both sides non-empty. */
  function Ticks(views: seq<BookView>): seq<BookView> {
    if views == [] then [] else (if TwoSided(views[0]) then [views[0]] else []) + Ticks(views[1..])
  }

  function Trades(signals: seq<Signal>): seq<Signal> {
    if signals == [] then [] else (if signals[0].Hold? then [] else [signals[0]]) + Trades(signals[1..])
  }

  /** Views with an empty side leave no trace: the run over the ticks alone trades the same and ends the same. */
  lemma {:induction false} OneSidedViewsLeaveNoTrace(c: MomentumConfig, s: MomentumState, views: seq<BookView>)
    ensures MomentumRun(c, s, Ticks(views)).0 == MomentumRun(c, s, views).0
    ensures Trades(MomentumRun(c, s, Ticks(views)).1) == Trades(MomentumRun(c, s, views).1)
    decreases |views|
  {
    hide MomentumStep;
    if views != [] {
      var (s1, signal) := MomentumStep(c, s, views[0]);
      OneSidedViewsLeaveNoTrace(c, s1, views[1..]);
      if TwoSided(views[0]) {
        assert Ticks(views) == [views[0]] + Ticks(views[1..]);
        var ticks := MomentumRun(c, s, Ticks(views)).1;
        assert ticks[0] == signal && ticks[1..] == MomentumRun(c, s1, Ticks(views[1..])).1;
      } else {
        assert Ticks(views) == Ticks(views[1..]);
        OneSidedStep(c, s, views[0]);
      }
      var signals := MomentumRun(c, s, views).1;
      assert signals[0] == signal && signals[1..] == MomentumRun(c, s1, views[1..]).1;
    }
  }

  lemma OneSidedStep(c: MomentumConfig, s: MomentumState, view: BookView)
    requires !TwoSided(view)
    ensures MomentumStep(c, s, view) == (s, Hold)
  {
  }

  /** How many ticks must pass before the next buy can come. */
  function Wait(c: MomentumConfig, s: MomentumState): nat {
    if s.position.holding then c.cooldownTicks + 1 else s.cooldownLeft
  }

  /** The longest a position is held. */
  function HoldLimit(c: MomentumConfig): nat {
    if c.maxHoldTicks == 0 then 1 else c.maxHoldTicks
  }

  /** What one tick does to the wait and to an open position. */
  lemma TickEffect(c: MomentumConfig, s: MomentumState, view: BookView)
    requires TwoSided(view) && TimeStopAhead(c, s)
    ensures var (s', signal) := MomentumStep(c, s, view);
      && TimeStopAhead(c, s')
      && (signal.Buy? ==> !s.position.holding && s'.position.holding && s'.heldTicks == 0)
      && (signal.Buy? ==> Wait(c, s) == 0 && Wait(c, s') == c.cooldownTicks + 1)
      && (!signal.Buy? ==> Wait(c, s') + 1 >= Wait(c, s))
      && (s.position.holding && !signal.Sell? ==>
        s'.position.holding && s'.heldTicks == s.heldTicks + 1 && s'.heldTicks < HoldLimit(c))
  {
    hide Above, EntryQty, MomentumGate, ImbalanceGate;
  }

  /** The signals from tick i on are those of the run that starts from the state reached there. */
  lemma {:induction false} RunSplits(c: MomentumConfig, s: MomentumState, views: seq<BookView>, i: nat)
      returns (at: MomentumState)
    requires i <= |views| && TimeStopAhead(c, s) && forall k :: 0 <= k < |views| ==> TwoSided(views[k])
    ensures TimeStopAhead(c, at)
    ensures MomentumRun(c, s, views).1[i..] == MomentumRun(c, at, views[i..]).1
    decreases |views|
  {
    hide MomentumStep;
    if i == 0 {
      at := s;
      assert views[0..] == views;
    } else {
      TickEffect(c, s, views[0]);
      at := RunSplits(c, MomentumStep(c, s, views[0]).0, views[1..], i - 1);
      assert views[1..][i - 1..] == views[i..];
    }
  }

  /** No buy comes before the wait is over. */
  lemma {:induction false} NoBuyWhileWaiting(c: MomentumConfig, s: MomentumState, views: seq<BookView>, k: nat)
    requires k < |views| && k < Wait(c, s)
    requires TimeStopAhead(c, s) && forall i :: 0 <= i < |views| ==> TwoSided(views[i])
    ensures !MomentumRun(c, s, views).1[k].Buy?
    decreases k
  {
    hide MomentumStep;
    TickEffect(c, s, views[0]);
    if k > 0 {
      NoBuyWhileWaiting(c, MomentumStep(c, s, views[0]).0, views[1..], k - 1);
    }
  }

  /** Successive buys are at least cooldown + 2 ticks apart. */
  lemma {:induction false} BuysAreSpaced(c: MomentumConfig, views: seq<BookView>, i: nat, j: nat)
    requires i < j < |views| && forall k :: 0 <= k < |views| ==> TwoSided(views[k])
    requires MomentumRun(c, MOMENTUM_START, views).1[i].Buy? && MomentumRun(c, MOMENTUM_START, views).1[j].Buy?
    ensures j - i >= c.cooldownTicks + 2
  {
    hide MomentumStep;
    var at := RunSplits(c, MOMENTUM_START, views, i);
    TickEffect(c, at, views[i]);
    var signals, rest := MomentumRun(c, MOMENTUM_START, views).1, views[i..];
    assert signals[i..][0] == signals[i] && signals[i..][j - i] == signals[j];
    var next := MomentumStep(c, at, views[i]).0;
    if j - i - 1 < c.cooldownTicks + 1 {
      assert rest[0] == views[i] && |rest[1..]| == |views| - i - 1;
      NoBuyWhileWaiting(c, next, rest[1..], j - i - 1);
    }
  }

  /** While a position is open, a sell comes before the time stop. */
  lemma {:induction false} SellComesInTime(c: MomentumConfig, s: MomentumState, views: seq<BookView>) returns (k: nat)
    requires s.position.holding && TimeStopAhead(c, s) && HoldLimit(c) <= s.heldTicks + |views|
    requires forall i :: 0 <= i < |views| ==> TwoSided(views[i])
    ensures k < |views| && s.heldTicks + k < HoldLimit(c)
    ensures MomentumRun(c, s, views).1[k].Sell?
    decreases |views|
  {
    hide MomentumStep;
    TickEffect(c, s, views[0]);
    var (s1, signal) := MomentumStep(c, s, views[0]);
    if signal.Sell? {
      k := 0;
    } else {
      k := SellComesInTime(c, s1, views[1..]);
      k := k + 1;
    }
  }

  /** Every buy that is followed by enough ticks is closed within max(1, maxHoldTicks) ticks. */
  lemma {:induction false} EveryBuyIsClosed(c: MomentumConfig, views: seq<BookView>, i: nat) returns (j: nat)
    requires i + HoldLimit(c) < |views| && forall k :: 0 <= k < |views| ==> TwoSided(views[k])
    requires MomentumRun(c, MOMENTUM_START, views).1[i].Buy?
    ensures i < j <= i + HoldLimit(c) && MomentumRun(c, MOMENTUM_START, views).1[j].Sell?
  {
    hide MomentumStep;
    var at := RunSplits(c, MOMENTUM_START, views, i);
    TickEffect(c, at, views[i]);
    var signals, rest := MomentumRun(c, MOMENTUM_START, views).1, views[i..];
    assert signals[i..][0] == signals[i];
    var k := SellComesInTime(c, MomentumStep(c, at, rest[0]).0, rest[1..]);
    j := i + 1 + k;
    assert signals[j] == signals[i..][k + 1];
  }

  function CountBuys(signals: seq<Signal>): nat {
    if signals == [] then 0 else (if signals[0].Buy? then 1 else 0) + CountBuys(signals[1..])
  }

  lemma {:induction false} BuysFitInTicks(c: MomentumConfig, s: MomentumState, views: seq<BookView>)
    requires TimeStopAhead(c, s) && forall i :: 0 <= i < |views| ==> TwoSided(views[i])
    ensures var b := CountBuys(MomentumRun(c, s, views).1);
      b > 0 ==> b * (c.cooldownTicks + 2) <= |views| - Wait(c, s) + c.cooldownTicks + 1
    decreases |views|
  {
    hide MomentumStep, Wait;
    if views != [] {
      TickEffect(c, s, views[0]);
      var (s1, signal) := MomentumStep(c, s, views[0]);
      BuysFitInTicks(c, s1, views[1..]);
      var signals, b1 := MomentumRun(c, s, views).1, CountBuys(MomentumRun(c, s1, views[1..]).1);
      assert signals[0] == signal && signals[1..] == MomentumRun(c, s1, views[1..]).1;
      OneMoreBuy(b1, c.cooldownTicks + 2);
    }
  }

  lemma OneMoreBuy(b: nat, spacing: nat)
    ensures (b + 1) * spacing == b * spacing + spacing
  {
  }

  /** A run over n ticks buys at most n / (cooldown + 2) times, rounded up. */
  lemma BuysAreRationed(c: MomentumConfig, views: seq<BookView>)
    requires forall i :: 0 <= i < |views| ==> TwoSided(views[i])
    ensures CountBuys(MomentumRun(c, MOMENTUM_START, views).1) <= (|views| + c.cooldownTicks + 1) / (c.cooldownTicks + 2)
  {
    BuysFitInTicks(c, MOMENTUM_START, views);
    QuotientIsUpperBound(
      CountBuys(MomentumRun(c, MOMENTUM_START, views).1), c.cooldownTicks + 2, |views| + c.cooldownTicks + 1);
  }

  lemma QuotientIsUpperBound(b: nat, d: nat, n: nat)
    requires d > 0 && b * d <= n
    ensures b <= n / d
  {
    SmallerFactor(b, n / d + 1, d);
  }

  lemma SmallerFactor(b: nat, k: nat, d: nat)
    requires b * d < k * d
    ensures b < k
  {
  }

  // ---------- Alternation, and alignment with the FIFO ledger ----------

  /** Buys and sells alternate; each sell sells exactly the quantity last bought, at least one step. */
  ghost predicate Alternates(open: Option<Lot>, signals: seq<Signal>)
    decreases |signals|
  {
    signals == [] ||
    match signals[0]
    case Hold => Alternates(open, signals[1..])
    case Buy(price, qty) => open.None? && qty >= QTY_STEP && Alternates(Some(Lot(price, qty)), signals[1..])
    case Sell(price, qty) => open.Some? && qty == open.value.qty && Alternates(None, signals[1..])
  }

  /** The position that is open after some signals. */
  function OpenAfter(open: Option<Lot>, signals: seq<Signal>): Option<Lot>
    decreases |signals|
  {
    if signals == [] then
      open
    else
      match signals[0]
      case Hold => OpenAfter(open, signals[1..])
      case Buy(price, qty) => OpenAfter(Some(Lot(price, qty)), signals[1..])
      case Sell(price, qty) => OpenAfter(None, signals[1..])
  }

  /** The sum over completed round trips of (sell price - buy price) * quantity. */
  function RoundTrips(open: Option<Lot>, signals: seq<Signal>): real
    decreases |signals|
  {
    if signals == [] then
      0.0
    else
      match signals[0]
      case Hold => RoundTrips(open, signals[1..])
      case Buy(price, qty) => RoundTrips(Some(Lot(price, qty)), signals[1..])
      case Sell(price, qty) =>
        (if open.Some? then Value(price - open.value.price, open.value.qty) else 0.0) + RoundTrips(None, signals[1..])
  }

  /** The ledger when every signal is filled. */
  function FillSignals(l: Ledger, signals: seq<Signal>): Ledger
    decreases |signals|
  {
    if signals == [] then
      l
    else
      match signals[0]
      case Hold => FillSignals(l, signals[1..])
      case Buy(price, qty) => FillSignals(Bought(l, price, qty), signals[1..])
      case Sell(price, qty) => FillSignals(Sold(l, price, qty), signals[1..])
  }

  function QueueOf(open: Option<Lot>): seq<Lot> {
    if open.Some? then [open.value] else []
  }

  lemma WholeLotIsSold(l: Ledger, lot: Lot, price: real)
    requires l.queue == [lot] && lot.qty >= QTY_STEP
    ensures Sold(l, price, lot.qty) == l.(queue := [], realized := l.realized + Value(price - lot.price, lot.qty))
  {
    hide Value;
    assert l.queue[1..] == [];
    assert Match([], price, 0.0) == Matching([], 0.0, 0.0);
    assert Match(l.queue, price, lot.qty) == Matching([], Value(price - lot.price, lot.qty) + 0.0, 0.0);
  }

  /**
   Filling alternating signals: the queue never holds more than the one open lot, and realized
   profit is the sum over the completed round trips.
   */
  lemma {:induction false} LedgerFollowsSignals(open: Option<Lot>, l: Ledger, signals: seq<Signal>)
    requires Alternates(open, signals) && l.queue == QueueOf(open) && (open.Some? ==> open.value.qty >= QTY_STEP)
    ensures FillSignals(l, signals).queue == QueueOf(OpenAfter(open, signals))
    ensures FillSignals(l, signals).realized == l.realized + RoundTrips(open, signals)
    ensures OpenAfter(open, signals).Some? ==> OpenAfter(open, signals).value.qty >= QTY_STEP
    decreases |signals|
  {
    hide Value, Match;
    if signals != [] {
      match signals[0] {
        case Hold => LedgerFollowsSignals(open, l, signals[1..]);
        case Buy(price, qty) => LedgerFollowsSignals(Some(Lot(price, qty)), Bought(l, price, qty), signals[1..]);
        case Sell(price, qty) =>
          WholeLotIsSold(l, open.value, price);
          LedgerFollowsSignals(None, Sold(l, price, qty), signals[1..]);
      }
    }
  }

  function OpenLot(p: Position): Option<Lot> {
    if p.holding then Some(Lot(p.entryPrice, p.entryQty)) else None
  }

  /** A position a strategy can be in. */
  predicate Sound(p: Position) {
    p.holding ==> p.entryQty >= QTY_STEP
  }

  /** One step of a strategy trades exactly its own position. */
  predicate TradesPosition(p: Position, signal: Signal, p': Position) {
    && Sound(p')
    && match signal
      case Hold => OpenLot(p') == OpenLot(p)
      case Buy(price, qty) => !p.holding && OpenLot(p') == Some(Lot(price, qty))
      case Sell(price, qty) => p.holding && qty == p.entryQty && !p'.holding
  }

  lemma PingPongTradesPosition(c: PingPongConfig, p: Position, view: BookView)
    requires Sound(p)
    ensures TradesPosition(p, PingPongStep(c, p, view).1, PingPongStep(c, p, view).0)
  {
    hide EntryQty, Above;
    if TwoSided(view) {
      EntryStaysWithinBudget(c.qty, c.maxNotional, view.bids[0].price);
    }
  }

  lemma MomentumTradesPosition(c: MomentumConfig, s: MomentumState, view: BookView)
    requires Sound(s.position)
    ensures TradesPosition(s.position, MomentumStep(c, s, view).1, MomentumStep(c, s, view).0.position)
  {
    hide EntryQty, Above, ImbalanceGate, MomentumGate;
    if TwoSided(view) {
      EntryStaysWithinBudget(c.qty, c.maxNotional, view.asks[0].price);
    }
  }

  lemma {:induction false} PingPongAlternates(c: PingPongConfig, p: Position, views: seq<BookView>)
    requires Sound(p)
    ensures var (p', signals) := PingPongRun(c, p, views);
      Alternates(OpenLot(p), signals) && OpenAfter(OpenLot(p), signals) == OpenLot(p')
    decreases |views|
  {
    hide PingPongStep;
    if views != [] {
      PingPongTradesPosition(c, p, views[0]);
      var (p1, signal) := PingPongStep(c, p, views[0]);
      PingPongAlternates(c, p1, views[1..]);
      assert PingPongRun(c, p, views).1[1..] == PingPongRun(c, p1, views[1..]).1;
    }
  }

  lemma {:induction false} MomentumAlternates(c: MomentumConfig, s: MomentumState, views: seq<BookView>)
    requires Sound(s.position)
    ensures var (s', signals) := MomentumRun(c, s, views);
      Alternates(OpenLot(s.position), signals) && OpenAfter(OpenLot(s.position), signals) == OpenLot(s'.position)
    decreases |views|
  {
    hide MomentumStep;
    if views != [] {
      MomentumTradesPosition(c, s, views[0]);
      var (s1, signal) := MomentumStep(c, s, views[0]);
      MomentumAlternates(c, s1, views[1..]);
      assert MomentumRun(c, s, views).1[1..] == MomentumRun(c, s1, views[1..]).1;
    }
  }

  /** After any run in which every signal is filled, the strategy's idea of its position is the ledger's. */
  lemma PingPongAndLedgerAgree(c: PingPongConfig, views: seq<BookView>)
    ensures var (p, signals) := PingPongRun(c, FLAT, views);
      var l := FillSignals(EMPTY_LEDGER, signals);
      && l.queue == QueueOf(OpenLot(p)) && (p.holding <==> TotalQty(l.queue) > 0.0)
      && l.realized == RoundTrips(None, signals)
  {
    PingPongAlternates(c, FLAT, views);
    LedgerFollowsSignals(None, EMPTY_LEDGER, PingPongRun(c, FLAT, views).1);
    TotalOfOne(OpenLot(PingPongRun(c, FLAT, views).0));
  }

  lemma MomentumAndLedgerAgree(c: MomentumConfig, views: seq<BookView>)
    ensures var (s, signals) := MomentumRun(c, MOMENTUM_START, views);
      var l := FillSignals(EMPTY_LEDGER, signals);
      && l.queue == QueueOf(OpenLot(s.position)) && (s.position.holding <==> TotalQty(l.queue) > 0.0)
      && l.realized == RoundTrips(None, signals)
  {
    MomentumAlternates(c, MOMENTUM_START, views);
    LedgerFollowsSignals(None, EMPTY_LEDGER, MomentumRun(c, MOMENTUM_START, views).1);
    TotalOfOne(OpenLot(MomentumRun(c, MOMENTUM_START, views).0.position));
  }

  lemma TotalOfOne(open: Option<Lot>)
    ensures TotalQty(QueueOf(open)) == if open.Some? then open.value.qty else 0.0
  {
  }
}
