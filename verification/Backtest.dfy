/**
 The backtester (src/backtest/mod.rs): each event goes through the order book; each applied event
 is shown to the strategy; each signal goes through the risk gate; the accepted trades are replayed
 into a FIFO ledger. A strategy is a state and a step function on it.
 */
module Backtest {
  import opened Types
  import opened OrderbookModel
  import opened Accounting
  import opened Fifo
  import opened Risk
  import opened RiskRuns
  import opened Strategies
  import opened StrategyRuns
  import opened Synthetic

  datatype Fill = Fill(buy: bool, price: real, qty: real, timestampMs: nat)

  datatype BacktestResult = BacktestResult(
    totalTrades: nat, buyTrades: nat, sellTrades: nat, totalVolume: real, realizedPnl: real, trades: seq<Fill>)

  datatype Rig<S> = Rig(book: BookState, strategy: S, window: Window)

  /** The fill of a validated signal. */
  function FillOf(signal: Signal, timestampMs: nat): seq<Fill> {
    match signal
    case Buy(price, qty) => [Fill(true, price, qty, timestampMs)]
    case Sell(price, qty) => [Fill(false, price, qty, timestampMs)]
    case Hold => []
  }

  /** The price the gate compares an order with: the best bid, or 0 without one. */
  function ReferencePrice(view: BookView): real {
    if view.bids == [] then 0.0 else view.bids[0].price
  }

  /** One event through book, strategy and gate, and the fill it leads to, if any. */
  function Process<S>(
      step: (S, BookView) -> (S, Signal), depth: nat, knobs: Settings, rig: Rig<S>, e: DepthUpdate, outside: Outside)
      : (Rig<S>, seq<Fill>)
  {
    var update := OnUpdate(rig.book, e);
    if !update.applied then
      (rig.(book := update.book), [])
    else
      var view := ViewOf(update.book, depth);
      var (strategy, signal) := step(rig.strategy, view);
      if signal.Hold? then
        (Rig(update.book, strategy, rig.window), [])
      else
        var (window, result) := Check(knobs, rig.window, signal, ReferencePrice(view), outside);
        (Rig(update.book, strategy, window), if result.Approved? then FillOf(result.signal, e.eventTime) else [])
  }

  function ProcessAll<S>(
      step: (S, BookView) -> (S, Signal), depth: nat, knobs: Settings, rig: Rig<S>,
      events: seq<DepthUpdate>, outsides: seq<Outside>)
      : (Rig<S>, seq<Fill>)
    requires |events| == |outsides|
  {
    if events == [] then
      (rig, [])
    else
      var n := |events| - 1;
      var (before, fills) := ProcessAll(step, depth, knobs, rig, events[..n], outsides[..n]);
      var (after, more) := Process(step, depth, knobs, before, events[n], outsides[n]);
      (after, fills + more)
  }

  function ReplayFills(fills: seq<Fill>): Ledger {
    if fills == [] then
      EMPTY_LEDGER
    else
      var before, f := ReplayFills(fills[..|fills| - 1]), fills[|fills| - 1];
      if f.buy then Bought(before, f.price, f.qty) else Sold(before, f.price, f.qty)
  }

  function CountSide(fills: seq<Fill>, buy: bool): nat {
    if fills == [] then
      0
    else
      CountSide(fills[..|fills| - 1], buy) + if fills[|fills| - 1].buy == buy then 1 else 0
  }

  function VolumeOf(fills: seq<Fill>): real {
    if fills == [] then 0.0 else VolumeOf(fills[..|fills| - 1]) + fills[|fills| - 1].qty
  }

  function ResultOf(fills: seq<Fill>): BacktestResult {
    BacktestResult(
      |fills|, CountSide(fills, true), CountSide(fills, false), VolumeOf(fills), ReplayFills(fills).realized, fills)
  }

  class Backtester<S> {
    const step: (S, BookView) -> (S, Signal)
    const orderbook: Orderbook
    const risk: RiskChecker
    var strategy: S

    function Contents(): Rig<S>
      reads this, orderbook, risk
    {
      Rig(orderbook.Contents(), strategy, risk.Memory())
    }

    constructor (depthLevels: nat, strategy: S, step: (S, BookView) -> (S, Signal), risk: RiskChecker)
      ensures this.step == step && this.risk == risk && fresh(orderbook) && orderbook.depthLevels == depthLevels
      ensures Contents() == Rig(EMPTY_BOOK, strategy, risk.Memory())
    {
      orderbook := new Orderbook(depthLevels);
      this.step, this.risk, this.strategy := step, risk, strategy;
    }

    method ProcessEvent(e: DepthUpdate, outside: Outside) returns (fills: seq<Fill>)
      modifies this, orderbook, risk
      ensures risk.Knobs() == old(risk.Knobs())
      ensures (Contents(), fills) == Process(step, orderbook.depthLevels, risk.Knobs(), old(Contents()), e, outside)
    {
      hide Check, OnUpdate, ViewOf;
      var flag := new AtomicFlag(false);
      var applied := orderbook.HandleUpdate(e, flag);
      if !applied {
        return [];
      }
      var view := orderbook.Snapshot();
      var mid := if view.bids == [] then 0.0 else view.bids[0].price;
      var (next, signal) := step(strategy, view);
      strategy := next;
      if signal.Hold? {
        return [];
      }
      var result := risk.CheckOrder(signal, mid, outside);
      if result.Rejected? {
        return [];
      }
      return FillOf(result.signal, e.eventTime);
    }

    method Run(events: seq<DepthUpdate>, snapshot: Option<DepthSnapshot>, outsides: seq<Outside>)
        returns (result: BacktestResult)
      requires |events| == |outsides|
      modifies this, orderbook, risk
      ensures var book := old(orderbook.Contents());
        var start := old(Contents()).(book := if snapshot.Some? then OnSnapshot(book, snapshot.value) else book);
        var (rig, fills) := ProcessAll(step, orderbook.depthLevels, old(risk.Knobs()), start, events, outsides);
        Contents() == rig && result == ResultOf(fills)
    {
      hide Process, Sold, Bought;
      if snapshot.Some? {
        var _ := orderbook.HandleSnapshot(snapshot.value);
      }
      ghost var start, knobs := Contents(), risk.Knobs();
      var trades := [];
      for i := 0 to |events|
        invariant risk.Knobs() == knobs
        invariant (Contents(), trades)
          == ProcessAll(step, orderbook.depthLevels, knobs, start, events[..i], outsides[..i])
      {
        var fills := ProcessEvent(events[i], outsides[i]);
        assert events[..i + 1][..i] == events[..i] && outsides[..i + 1][..i] == outsides[..i];
        trades := trades + fills;
      }
      assert events[..|events|] == events && outsides[..|events|] == outsides;
      result := Summarize(trades);
    }

    static method Summarize(trades: seq<Fill>) returns (result: BacktestResult)
      ensures result == ResultOf(trades)
    {
      hide Sold, Bought;
      var pnl := new FifoPnl();
      var buys, sells, volume := 0, 0, 0.0;
      for i := 0 to |trades|
        invariant fresh(pnl) && pnl.Contents() == ReplayFills(trades[..i])
        invariant buys == CountSide(trades[..i], true) && sells == CountSide(trades[..i], false)
        invariant volume == VolumeOf(trades[..i])
      {
        var trade := trades[i];
        assert trades[..i + 1][..i] == trades[..i];
        if trade.buy {
          pnl.OnBuy(trade.price, trade.qty);
          buys := buys + 1;
        } else {
          var _ := pnl.OnSell(trade.price, trade.qty);
          sells := sells + 1;
        }
        volume := volume + trade.qty;
      }
      assert trades[..|trades|] == trades;
      return BacktestResult(|trades|, buys, sells, volume, pnl.realizedPnl, trades);
    }
  }

  // ---------- The fills of a run ----------

  /** An applied event as the strategy meets it: the view it is shown, the event's time, the gate's surroundings. */
  datatype Occasion = Occasion(view: BookView, time: nat, outside: Outside)

  /** The occasions of a run: one for each applied event. */
  function Occasions(book: BookState, depth: nat, events: seq<DepthUpdate>, outsides: seq<Outside>): seq<Occasion>
    requires |events| == |outsides|
  {
    if events == [] then
      []
    else
      var n := |events| - 1;
      var update := OnUpdate(BookAfterAll(book, events[..n]), events[n]);
      Occasions(book, depth, events[..n], outsides[..n])
      + if update.applied then [Occasion(ViewOf(update.book, depth), events[n].eventTime, outsides[n])] else []
  }

  function BookAfterAll(book: BookState, events: seq<DepthUpdate>): BookState {
    if events == [] then
      book
    else
      OnUpdate(BookAfterAll(book, events[..|events| - 1]), events[|events| - 1]).book
  }

  function ViewsOf(occasions: seq<Occasion>): seq<BookView> {
    seq(|occasions|, i requires 0 <= i < |occasions| => occasions[i].view)
  }

  /** An order for the gate, and the time of its event. */
  datatype TimedOrder = TimedOrder(attempt: Attempt, time: nat)

  /** An order is compared with the best bid, or 0 without one. */
  function OrderOn(knobs: Settings, o: Occasion, signal: Signal): TimedOrder {
    var mid := if o.view.bids == [] then 0.0 else o.view.bids[0].price;
    TimedOrder(Attempt(knobs, signal, mid, o.outside), o.time)
  }

  /** The orders of a run: one for each occasion on which the strategy does not hold. */
  function OrdersOn(knobs: Settings, occasions: seq<Occasion>, signals: seq<Signal>): seq<TimedOrder>
    requires |occasions| == |signals|
  {
    if signals == [] then
      []
    else
      var n := |signals| - 1;
      OrdersOn(knobs, occasions[..n], signals[..n])
      + if signals[n].Hold? then [] else [OrderOn(knobs, occasions[n], signals[n])]
  }

  function AttemptsOf(orders: seq<TimedOrder>): seq<Attempt> {
    seq(|orders|, i requires 0 <= i < |orders| => orders[i].attempt)
  }

  /** The approved orders, in order, each with its own side, price, quantity and time. */
  function ApprovedFills(orders: seq<TimedOrder>, results: seq<CheckResult>): seq<Fill>
    requires |orders| == |results|
  {
    if orders == [] then
      []
    else
      var n := |orders| - 1;
      var signal := orders[n].attempt.signal;
      ApprovedFills(orders[..n], results[..n])
      + if results[n].Approved? && !signal.Hold? then
        [Fill(signal.Buy?, signal.price, signal.qty, orders[n].time)]
      else
        []
  }

  /** The orders of a run, as its strategy plays it. */
  function OrdersOf<S>(
      step: (S, BookView) -> (S, Signal), depth: nat, knobs: Settings, rig: Rig<S>,
      events: seq<DepthUpdate>, outsides: seq<Outside>)
      : seq<TimedOrder>
    requires |events| == |outsides|
  {
    var occasions := Occasions(rig.book, depth, events, outsides);
    OrdersOn(knobs, occasions, Play(step, rig.strategy, ViewsOf(occasions)).1)
  }

  /** One more occasion leads to one more order, unless the strategy holds. */
  lemma OneMoreOccasion<S>(
      step: (S, BookView) -> (S, Signal), knobs: Settings, strategy: S, occasions: seq<Occasion>, o: Occasion)
    ensures var (at, signals) := Play(step, strategy, ViewsOf(occasions));
      var (next, signal) := step(at, o.view);
      var all := Play(step, strategy, ViewsOf(occasions + [o]));
      && all == (next, signals + [signal])
      && OrdersOn(knobs, occasions + [o], all.1) == OrdersOn(knobs, occasions, signals)
        + if signal.Hold? then [] else [OrderOn(knobs, o, signal)]
  {
    var (at, signals) := Play(step, strategy, ViewsOf(occasions));
    var signal := step(at, o.view).1;
    assert ViewsOf(occasions + [o]) == ViewsOf(occasions) + [o.view];
    PlayOneMore(step, strategy, ViewsOf(occasions), o.view);
    var n := |signals|;
    assert (occasions + [o])[..n] == occasions && (signals + [signal])[..n] == signals;
  }

  /** One more order is filled exactly when the gate approves it. */
  lemma OneMoreOrder(w: Window, orders: seq<TimedOrder>, o: TimedOrder)
    requires !o.attempt.signal.Hold?
    ensures var (at, results) := Answers(w, AttemptsOf(orders));
      var (window, result) := Check(o.attempt.settings, at, o.attempt.signal, o.attempt.mid, o.attempt.outside);
      var all := Answers(w, AttemptsOf(orders + [o]));
      && all == (window, results + [result])
      && ApprovedFills(orders + [o], all.1) == ApprovedFills(orders, results)
        + if result.Approved? then
          [Fill(o.attempt.signal.Buy?, o.attempt.signal.price, o.attempt.signal.qty, o.time)]
        else
          []
  {
    hide Check;
    var results := Answers(w, AttemptsOf(orders)).1;
    var attempts, n := AttemptsOf(orders + [o]), |orders|;
    assert attempts == AttemptsOf(orders) + [o.attempt];
    assert attempts[..n] == AttemptsOf(orders) && attempts[n] == o.attempt;
    var all := Answers(w, attempts).1;
    assert all[..n] == results && (orders + [o])[..n] == orders;
  }

  /**
   The fills of every run, whatever the gate rejects: in order, exactly the orders that the gate approves
   of those the strategy gives on the applied events, each with its side, price, quantity and event time.
   */
  lemma {:induction false} FillsAreApprovedOrders<S>(
      step: (S, BookView) -> (S, Signal), depth: nat, knobs: Settings, rig: Rig<S>,
      events: seq<DepthUpdate>, outsides: seq<Outside>)
    requires |events| == |outsides|
    ensures var (end, fills) := ProcessAll(step, depth, knobs, rig, events, outsides);
      var orders := OrdersOf(step, depth, knobs, rig, events, outsides);
      var (window, results) := Answers(rig.window, AttemptsOf(orders));
      && end.window == window && fills == ApprovedFills(orders, results)
      && end.book == BookAfterAll(rig.book, events)
      && end.strategy == Play(step, rig.strategy, ViewsOf(Occasions(rig.book, depth, events, outsides))).0
    decreases |events|
  {
    hide Process, Play, ViewOf, OnUpdate, OrdersOn, ApprovedFills, Answers;
    if events == [] {
      NoOrdersYet(step, knobs, rig.strategy, rig.window);
    } else {
      var n := |events| - 1;
      FillsAreApprovedOrders(step, depth, knobs, rig, events[..n], outsides[..n]);
      var before := ProcessAll(step, depth, knobs, rig, events[..n], outsides[..n]).0;
      var occasions := Occasions(rig.book, depth, events[..n], outsides[..n]);
      EventAddsItsOrder(step, depth, knobs, before, events[n], outsides[n]);
      var update := OnUpdate(before.book, events[n]);
      if update.applied {
        var o := Occasion(ViewOf(update.book, depth), events[n].eventTime, outsides[n]);
        OneMoreOccasion(step, knobs, rig.strategy, occasions, o);
        var signal := step(before.strategy, o.view).1;
        if !signal.Hold? {
          var orders := OrdersOf(step, depth, knobs, rig, events[..n], outsides[..n]);
          OneMoreOrder(rig.window, orders, OrderOn(knobs, o, signal));
        } else {
          var orders := OrdersOf(step, depth, knobs, rig, events[..n], outsides[..n]);
          assert orders + [] == orders;
        }
      } else {
        assert occasions + [] == occasions;
      }
    }
  }

  lemma NoOrdersYet<S>(step: (S, BookView) -> (S, Signal), knobs: Settings, strategy: S, w: Window)
    ensures Play(step, strategy, ViewsOf([])) == (strategy, [])
    ensures OrdersOn(knobs, [], []) == [] && AttemptsOf([]) == []
    ensures Answers(w, []) == (w, []) && ApprovedFills([], []) == []
  {
  }

  /** What one event does to the window and the fills: what the gate does with its order, if it leads to one. */
  lemma EventAddsItsOrder<S>(
      step: (S, BookView) -> (S, Signal), depth: nat, knobs: Settings, rig: Rig<S>, e: DepthUpdate, outside: Outside)
    ensures var update, (after, more) := OnUpdate(rig.book, e), Process(step, depth, knobs, rig, e, outside);
      var view := ViewOf(update.book, depth);
      var (strategy, signal) := step(rig.strategy, view);
      && after.book == update.book
      && after.strategy == (if update.applied then strategy else rig.strategy)
      && if update.applied && !signal.Hold? then
        var a := OrderOn(knobs, Occasion(view, e.eventTime, outside), signal).attempt;
        var (window, result) := Check(a.settings, rig.window, a.signal, a.mid, a.outside);
        && after.window == window
        && more == if result.Approved? then [Fill(signal.Buy?, signal.price, signal.qty, e.eventTime)] else []
      else
        after.window == rig.window && more == []
  {
    hide Check, OnUpdate, ViewOf;
    var update := OnUpdate(rig.book, e);
    var view := ViewOf(update.book, depth);
    ApprovalIsOfTheOrder(knobs, rig.window, step(rig.strategy, view).1, ReferencePrice(view), outside);
  }

  ghost predicate NoHold(orders: seq<TimedOrder>) {
    forall i :: 0 <= i < |orders| ==> !orders[i].attempt.signal.Hold?
  }

  lemma {:induction false} OrdersAreNoHold(knobs: Settings, occasions: seq<Occasion>, signals: seq<Signal>)
    requires |occasions| == |signals|
    ensures NoHold(OrdersOn(knobs, occasions, signals))
    ensures forall o :: o in OrdersOn(knobs, occasions, signals) ==> o.attempt.settings == knobs
  {
    if signals != [] {
      OrdersAreNoHold(knobs, occasions[..|signals| - 1], signals[..|signals| - 1]);
    }
  }

  lemma {:induction false} AnswersFollowRun(orders: seq<TimedOrder>)
    requires NoHold(orders)
    ensures var (window, results) := Answers(EMPTY_WINDOW, AttemptsOf(orders));
      var run := Run(AttemptsOf(orders));
      window == run.window && |ApprovedFills(orders, results)| == |run.ids|
  {
    hide Check;
    var attempts := AttemptsOf(orders);
    if orders != [] {
      var n := |orders| - 1;
      AnswersFollowRun(orders[..n]);
      assert attempts[..n] == AttemptsOf(orders[..n]) && orders[..n] + [orders[n]] == orders;
      OneMoreOrder(EMPTY_WINDOW, orders[..n], orders[n]);
    }
  }

  /** A run with a new gate has as many fills as the gate's run over its orders has approvals. */
  lemma FillsAreCounted<S>(
      step: (S, BookView) -> (S, Signal), depth: nat, knobs: Settings, rig: Rig<S>,
      events: seq<DepthUpdate>, outsides: seq<Outside>)
    requires |events| == |outsides| && rig.window == EMPTY_WINDOW
    ensures var (end, fills) := ProcessAll(step, depth, knobs, rig, events, outsides);
      var run := Run(AttemptsOf(OrdersOf(step, depth, knobs, rig, events, outsides)));
      end.window == run.window && |fills| == |run.ids|
  {
    var occasions := Occasions(rig.book, depth, events, outsides);
    FillsAreApprovedOrders(step, depth, knobs, rig, events, outsides);
    OrdersAreNoHold(knobs, occasions, Play(step, rig.strategy, ViewsOf(occasions)).1);
    AnswersFollowRun(OrdersOf(step, depth, knobs, rig, events, outsides));
  }

  lemma {:induction false} HaltedGateApprovesNothing(w: Window, orders: seq<TimedOrder>)
    requires forall o :: o in orders ==> o.attempt.settings.halted
    ensures ApprovedFills(orders, Answers(w, AttemptsOf(orders)).1) == []
  {
    if orders != [] {
      var n := |orders| - 1;
      HaltedGateApprovesNothing(w, orders[..n]);
      assert AttemptsOf(orders)[..n] == AttemptsOf(orders[..n]) && orders[n] in orders;
    }
  }

  /** With the kill switch on, a run fills nothing. */
  lemma HaltedRunFillsNothing<S>(
      step: (S, BookView) -> (S, Signal), depth: nat, knobs: Settings, rig: Rig<S>,
      events: seq<DepthUpdate>, outsides: seq<Outside>)
    requires |events| == |outsides| && knobs.halted
    ensures ProcessAll(step, depth, knobs, rig, events, outsides).1 == []
  {
    var occasions := Occasions(rig.book, depth, events, outsides);
    FillsAreApprovedOrders(step, depth, knobs, rig, events, outsides);
    OrdersAreNoHold(knobs, occasions, Play(step, rig.strategy, ViewsOf(occasions)).1);
    HaltedGateApprovesNothing(rig.window, OrdersOf(step, depth, knobs, rig, events, outsides));
  }

  lemma {:induction false} BufferingNeverApplies(
      book: BookState, depth: nat, events: seq<DepthUpdate>, outsides: seq<Outside>)
    requires |events| == |outsides| && book.sync.Buffering?
    ensures BookAfterAll(book, events).sync.Buffering? && Occasions(book, depth, events, outsides) == []
    decreases |events|
  {
    if events != [] {
      BufferingNeverApplies(book, depth, events[..|events| - 1], outsides[..|events| - 1]);
    }
  }

  /** Without a snapshot, a run on a new book never shows its strategy a view and fills nothing. */
  lemma NoSnapshotNoFills<S>(
      step: (S, BookView) -> (S, Signal), depth: nat, knobs: Settings, rig: Rig<S>,
      events: seq<DepthUpdate>, outsides: seq<Outside>)
    requires |events| == |outsides| && rig.book == EMPTY_BOOK
    ensures var (end, fills) := ProcessAll(step, depth, knobs, rig, events, outsides);
      end.strategy == rig.strategy && fills == []
  {
    hide OnUpdate, Check;
    FillsAreApprovedOrders(step, depth, knobs, rig, events, outsides);
    BufferingNeverApplies(rig.book, depth, events, outsides);
    assert ViewsOf([]) == [];
    NoOrdersYet(step, knobs, rig.strategy, rig.window);
  }

  function AsOrders(fills: seq<Fill>): seq<Order> {
    seq(|fills|, i requires 0 <= i < |fills| =>
      if fills[i].buy then BuyOrder(fills[i].price, fills[i].qty) else SellOrder(fills[i].price, fills[i].qty))
  }

  function AsLots(fills: seq<Fill>): seq<Lot> {
    seq(|fills|, i requires 0 <= i < |fills| => Lot(fills[i].price, fills[i].qty))
  }

  function OnSide(fills: seq<Fill>, buy: bool): set<nat> {
    set i: nat | i < |fills| && fills[i].buy == buy
  }

  lemma {:induction false} CountIsSize(fills: seq<Fill>, buy: bool)
    ensures CountSide(fills, buy) == |OnSide(fills, buy)|
  {
    if fills == [] {
      assert OnSide(fills, buy) == {};
    } else {
      var n := |fills| - 1;
      CountIsSize(fills[..n], buy);
      assert OnSide(fills, buy) == OnSide(fills[..n], buy) + if fills[n].buy == buy then {n} else {};
    }
  }

  lemma {:induction false} VolumeIsTotal(fills: seq<Fill>)
    ensures VolumeOf(fills) == TotalQty(AsLots(fills))
  {
    hide Value;
    if fills != [] {
      var n := |fills| - 1;
      VolumeIsTotal(fills[..n]);
      var lot := Lot(fills[n].price, fills[n].qty);
      assert AsLots(fills) == AsLots(fills[..n]) + [lot];
      NotionalOfAppend(AsLots(fills[..n]), lot);
    }
  }

  lemma {:induction false} ReplayIsTrading(fills: seq<Fill>)
    ensures ReplayFills(fills) == TradeAll(EMPTY_LEDGER, AsOrders(fills))
  {
    hide Bought, Sold;
    if fills != [] {
      var n := |fills| - 1;
      ReplayIsTrading(fills[..n]);
      assert AsOrders(fills)[..n] == AsOrders(fills[..n]);
    }
  }

  /**
   The summary of a run: the profit of a FIFO ledger that trades the fills in order, how many of them are
   on each side, and the quantity of all of them.
   */
  lemma SummaryIsExact(fills: seq<Fill>)
    ensures var r := ResultOf(fills);
      && r.trades == fills && r.totalTrades == |fills|
      && r.buyTrades == |OnSide(fills, true)| && r.sellTrades == |OnSide(fills, false)|
      && r.totalVolume == TotalQty(AsLots(fills))
      && r.realizedPnl == TradeAll(EMPTY_LEDGER, AsOrders(fills)).realized
  {
    CountIsSize(fills, true);
    CountIsSize(fills, false);
    VolumeIsTotal(fills);
    ReplayIsTrading(fills);
  }

  // ---------- What a backtest computes ----------

  /** The views a run shows to its strategy: one for each applied event. */
  function ViewsShown(book: BookState, depth: nat, events: seq<DepthUpdate>): (BookState, seq<BookView>) {
    if events == [] then
      (book, [])
    else
      var n := |events| - 1;
      var (before, views) := ViewsShown(book, depth, events[..n]);
      var update := OnUpdate(before, events[n]);
      (update.book, views + if update.applied then [ViewOf(update.book, depth)] else [])
  }

  /** The gate never touches the strategy: whatever it rejects, the strategy plays the views it is shown. */
  lemma {:induction false} StrategyPlaysItsViews<S>(
      step: (S, BookView) -> (S, Signal), depth: nat, knobs: Settings, rig: Rig<S>,
      events: seq<DepthUpdate>, outsides: seq<Outside>)
    requires |events| == |outsides|
    ensures var (end, fills) := ProcessAll(step, depth, knobs, rig, events, outsides);
      var (book, views) := ViewsShown(rig.book, depth, events);
      end.book == book && end.strategy == Play(step, rig.strategy, views).0
    decreases |events|
  {
    hide Check, OnUpdate, ViewOf;
    if events != [] {
      var n := |events| - 1;
      StrategyPlaysItsViews(step, depth, knobs, rig, events[..n], outsides[..n]);
      var (book, views) := ViewsShown(rig.book, depth, events[..n]);
      var update := OnUpdate(book, events[n]);
      PlayOneMore(step, rig.strategy, views, ViewOf(update.book, depth));
      assert views + [] == views;
    }
  }

  /** The gate accepts every signal of the run. */
  predicate AllAccepted<S>(
      step: (S, BookView) -> (S, Signal), depth: nat, knobs: Settings, rig: Rig<S>,
      events: seq<DepthUpdate>, outsides: seq<Outside>)
    requires |events| == |outsides|
  {
    events == [] ||
    var n := |events| - 1;
    var before := ProcessAll(step, depth, knobs, rig, events[..n], outsides[..n]).0;
    var update := OnUpdate(before.book, events[n]);
    var view := ViewOf(update.book, depth);
    var signal := step(before.strategy, view).1;
    && AllAccepted(step, depth, knobs, rig, events[..n], outsides[..n])
    && (update.applied && !signal.Hold? ==>
      Check(knobs, before.window, signal, ReferencePrice(view), outsides[n]).1.Approved?)
  }

  lemma {:induction false} FillOneMore(l: Ledger, signals: seq<Signal>, signal: Signal)
    ensures FillSignals(l, signals + [signal]) == FillSignals(FillSignals(l, signals), [signal])
    decreases |signals|
  {
    hide Bought, Sold;
    if signals == [] {
      assert [] + [signal] == [signal];
    } else {
      assert (signals + [signal])[1..] == signals[1..] + [signal];
      match signals[0] {
        case Hold => FillOneMore(l, signals[1..], signal);
        case Buy(price, qty) => FillOneMore(Bought(l, price, qty), signals[1..], signal);
        case Sell(price, qty) => FillOneMore(Sold(l, price, qty), signals[1..], signal);
      }
    }
  }

  /** If the gate accepts every signal, the replayed ledger is the one that fills every signal. */
  lemma {:induction false} AcceptedRunFillsSignals<S>(
      step: (S, BookView) -> (S, Signal), depth: nat, knobs: Settings, rig: Rig<S>,
      events: seq<DepthUpdate>, outsides: seq<Outside>)
    requires |events| == |outsides| && AllAccepted(step, depth, knobs, rig, events, outsides)
    ensures var fills := ProcessAll(step, depth, knobs, rig, events, outsides).1;
      var signals := Play(step, rig.strategy, ViewsShown(rig.book, depth, events).1).1;
      ReplayFills(fills) == FillSignals(EMPTY_LEDGER, signals)
    decreases |events|
  {
    hide Check, OnUpdate, ViewOf, FillSignals, ReplayFills, Process;
    if events == [] {
      NothingFilled();
    } else {
      var n := |events| - 1;
      AcceptedRunFillsSignals(step, depth, knobs, rig, events[..n], outsides[..n]);
      StrategyPlaysItsViews(step, depth, knobs, rig, events[..n], outsides[..n]);
      var (before, fills) := ProcessAll(step, depth, knobs, rig, events[..n], outsides[..n]);
      var (book, views) := ViewsShown(rig.book, depth, events[..n]);
      var update := OnUpdate(book, events[n]);
      var view := ViewOf(update.book, depth);
      PlayOneMore(step, rig.strategy, views, view);
      AcceptedEventFillsSignal(
        step, depth, knobs, before, events[n], outsides[n], fills, Play(step, rig.strategy, views).1);
      assert views + [] == views;
    }
  }

  lemma NothingFilled()
    ensures ReplayFills([]) == FillSignals(EMPTY_LEDGER, []) == EMPTY_LEDGER
  {
  }

  lemma AcceptedEventFillsSignal<S>(
      step: (S, BookView) -> (S, Signal), depth: nat, knobs: Settings, rig: Rig<S>, e: DepthUpdate, outside: Outside,
      fills: seq<Fill>, signals: seq<Signal>)
    requires ReplayFills(fills) == FillSignals(EMPTY_LEDGER, signals)
    requires var update := OnUpdate(rig.book, e);
      var view := ViewOf(update.book, depth);
      var signal := step(rig.strategy, view).1;
      update.applied && !signal.Hold? ==> Check(knobs, rig.window, signal, ReferencePrice(view), outside).1.Approved?
    ensures var update := OnUpdate(rig.book, e);
      ReplayFills(fills + Process(step, depth, knobs, rig, e, outside).1)
        == FillSignals(EMPTY_LEDGER,
          if update.applied then signals + [step(rig.strategy, ViewOf(update.book, depth)).1] else signals)
  {
    hide Check, OnUpdate, ViewOf, Bought, Sold;
    var update := OnUpdate(rig.book, e);
    var signal := step(rig.strategy, ViewOf(update.book, depth)).1;
    assert fills + [] == fills;
    if update.applied {
      FillOneMore(EMPTY_LEDGER, signals, signal);
      assert [signal][1..] == [];
      if !signal.Hold? {
        var f := Fill(signal.Buy?, signal.price, signal.qty, e.eventTime);
        ApprovalIsOfTheOrder(knobs, rig.window, signal, ReferencePrice(ViewOf(update.book, depth)), outside);
        assert FillOf(signal, e.eventTime) == [f];
        assert (fills + [f])[..|fills + [f]| - 1] == fills;
      }
    }
  }

  /**
   A backtest of the ping-pong strategy in which the gate accepts every signal reports as realized
   profit the sum over its completed round trips of (sell - buy) * quantity.
   */
  lemma PingPongBacktestCountsRoundTrips(
      c: PingPongConfig, depth: nat, knobs: Settings, rig: Rig<Position>,
      events: seq<DepthUpdate>, outsides: seq<Outside>)
    requires |events| == |outsides| && rig.strategy == FLAT
    requires AllAccepted(PingPongPlayer(c), depth, knobs, rig, events, outsides)
    ensures var fills := ProcessAll(PingPongPlayer(c), depth, knobs, rig, events, outsides).1;
      var signals := PingPongRun(c, FLAT, ViewsShown(rig.book, depth, events).1).1;
      ResultOf(fills).realizedPnl == RoundTrips(None, signals)
  {
    hide CountSide, VolumeOf, AllAccepted;
    AcceptedRunFillsSignals(PingPongPlayer(c), depth, knobs, rig, events, outsides);
    PingPongAndLedgerAgree(c, ViewsShown(rig.book, depth, events).1);
  }

  /** The same for the momentum strategy. */
  lemma MomentumBacktestCountsRoundTrips(
      c: MomentumConfig, depth: nat, knobs: Settings, rig: Rig<MomentumState>,
      events: seq<DepthUpdate>, outsides: seq<Outside>)
    requires |events| == |outsides| && rig.strategy == MOMENTUM_START
    requires AllAccepted(MomentumPlayer(c), depth, knobs, rig, events, outsides)
    ensures var fills := ProcessAll(MomentumPlayer(c), depth, knobs, rig, events, outsides).1;
      var signals := MomentumRun(c, MOMENTUM_START, ViewsShown(rig.book, depth, events).1).1;
      ResultOf(fills).realizedPnl == RoundTrips(None, signals)
  {
    hide CountSide, VolumeOf, AllAccepted;
    AcceptedRunFillsSignals(MomentumPlayer(c), depth, knobs, rig, events, outsides);
    MomentumAndLedgerAgree(c, ViewsShown(rig.book, depth, events).1);
  }

  /** The book after each of the first n events of the synthetic stream, as a strategy sees it. */
  function SyntheticViews(n: nat, depth: nat): seq<BookView> {
    seq(n, i requires 0 <= i => ViewOf(BookAfter(i + 1), depth))
  }

  lemma SyntheticEventIsApplied(k: nat)
    ensures OnUpdate(BookAfter(k), EventFrom(WalkAt(k), k)).applied
  {
    BookTracksWalk(k);
  }

  /** On the synthetic stream the strategy is called exactly once per event, with the book as it then stands. */
  lemma {:induction false} SyntheticStreamShowsEveryEvent(n: nat, depth: nat)
    ensures ViewsShown(OnSnapshot(EMPTY_BOOK, SNAPSHOT), depth, Events(n)) == (BookAfter(n), SyntheticViews(n, depth))
    decreases n
  {
    hide ViewOf, EventFrom, OnUpdate, OnSnapshot, WalkAt, Events;
    if n == 0 {
      NoEventsYet();
      assert SyntheticViews(0, depth) == [];
    } else {
      SyntheticStreamShowsEveryEvent(n - 1, depth);
      EventsGrow(n - 1);
      var all, book := Events(n), BookAfter(n - 1);
      assert all[..|all| - 1] == Events(n - 1) && all[|all| - 1] == EventFrom(WalkAt(n - 1), n - 1);
      SyntheticEventIsApplied(n - 1);
      assert BookAfter(n) == OnUpdate(book, all[n - 1]).book;
      assert SyntheticViews(n, depth) == SyntheticViews(n - 1, depth) + [ViewOf(BookAfter(n), depth)];
    }
  }
}
