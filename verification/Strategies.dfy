/**
 The two built-in strategies (src/strategy). `PingPongStep` and `MomentumStep` say what one call
 decides; the momentum step looks at the whole price history, and class `MomentumScalp` shows that
 the 64-entry ring buffer is enough to decide the same.
 */
module Strategies {
  import opened Types
  import opened Risk

  const QTY_STEP: real := 0.001
  const PRICE_BUF: nat := 64

  /** What both strategies keep about their one open position. */
  datatype Position = Position(holding: bool, entryPrice: real, entryQty: real)

  const FLAT := Position(false, 0.0, 0.0)

  /** Both sides of the book have a level. */
  predicate TwoSided(view: BookView) {
    view.bids != [] && view.asks != []
  }

  /** The configured quantity, shrunk to the budget at this price and floored to the quantity step. */
  function EntryQty(qty: real, maxNotional: Option<real>, price: real): real {
    var capped :=
      if maxNotional.Some? && price > 0.0 && maxNotional.value / price < qty then maxNotional.value / price else qty;
    (capped / QTY_STEP).Floor as real * QTY_STEP
  }

  // ---------- Ping-pong ----------

  datatype PingPongConfig = PingPongConfig(qty: real, maxNotional: Option<real>, minEdgePct: real, stopPct: real)

  function PingPongStep(c: PingPongConfig, p: Position, view: BookView): (Position, Signal) {
    if !TwoSided(view) then
      (p, Hold)
    else
      var bid, ask := view.bids[0].price, view.asks[0].price;
      var qty := EntryQty(c.qty, c.maxNotional, bid);
      if !p.holding then
        if qty <= 0.0 then (p, Hold) else (Position(true, bid, qty), Buy(bid, qty))
      else if ask >= Above(p.entryPrice, c.minEdgePct) then
        (p.(holding := false), Sell(ask, p.entryQty))
      else if bid <= Above(p.entryPrice, -c.stopPct) then
        (p.(holding := false), Sell(bid, p.entryQty))
      else
        (p, Hold)
  }

  /** The price that is `pct` percent above an entry price. */
  function Above(price: real, pct: real): real {
    price * (1.0 + pct / 100.0)
  }

  class PingPong {
    const config: PingPongConfig
    var holding: bool
    var entryPrice: real
    var entryQty: real

    function Contents(): Position
      reads this
    {
      Position(holding, entryPrice, entryQty)
    }

    constructor (config: PingPongConfig)
      ensures this.config == config && Contents() == FLAT
    {
      this.config := config;
      holding, entryPrice, entryQty := false, 0.0, 0.0;
    }

    method OnOrderbook(view: BookView) returns (signal: Signal)
      modifies this
      ensures (Contents(), signal) == PingPongStep(config, old(Contents()), view)
    {
      if view.bids == [] || view.asks == [] {
        return Hold;
      }
      var bestBid, bestAsk := view.bids[0].price, view.asks[0].price;
      if !holding {
        var qty := EntryQty(config.qty, config.maxNotional, bestBid);
        if qty <= 0.0 {
          return Hold;
        }
        holding, entryPrice, entryQty := true, bestBid, qty;
        return Buy(bestBid, qty);
      }
      var takeProfit := Above(entryPrice, config.minEdgePct);
      var stopOut := Above(entryPrice, -config.stopPct);
      if bestAsk >= takeProfit {
        holding := false;
        return Sell(bestAsk, entryQty);
      }
      if bestBid <= stopOut {
        holding := false;
        return Sell(bestBid, entryQty);
      }
      return Hold;
    }
  }

  // ---------- Momentum scalping ----------

  datatype MomentumConfig = MomentumConfig(
    qty: real, maxNotional: Option<real>, lookbackTicks: nat, entryMomPct: real, imbalanceMin: real,
    tpPct: real, stopPct: real, maxHoldTicks: U32, cooldownTicks: U32)

  /** The strategy over the full history of mid prices. */
  datatype MomentumState = MomentumState(history: seq<real>, position: Position, heldTicks: nat, cooldownLeft: nat)

  const MOMENTUM_START := MomentumState([], FLAT, 0, 0)

  function Mid(view: BookView): real
    requires TwoSided(view)
  {
    (view.bids[0].price + view.asks[0].price) / 2.0
  }

  /** The price `ticks` entries before the last one, if the history reaches back that far. */
  function PriceAgo(history: seq<real>, ticks: nat): Option<real> {
    if |history| > ticks then Some(history[|history| - 1 - ticks]) else None
  }

  /** The return over the lookback window reaches the entry threshold. */
  predicate MomentumGate(c: MomentumConfig, past: Option<real>, mid: real) {
    past.Some? && past.value > 0.0 && (mid - past.value) / past.value * 100.0 >= c.entryMomPct
  }

  function Volume(quotes: seq<Quote>): real {
    if quotes == [] then 0.0 else quotes[0].qty + Volume(quotes[1..])
  }

  function TopFive(quotes: seq<Quote>): seq<Quote> {
    if |quotes| <= 5 then quotes else quotes[..5]
  }

  /** The five best levels are skewed to the bid side. */
  predicate ImbalanceGate(c: MomentumConfig, view: BookView) {
    var bidVolume, askVolume := Volume(TopFive(view.bids)), Volume(TopFive(view.asks));
    bidVolume + askVolume > 0.0 && bidVolume / (bidVolume + askVolume) >= c.imbalanceMin
  }

  predicate ExitGate(c: MomentumConfig, entryPrice: real, bid: real, held: nat) {
    bid >= Above(entryPrice, c.tpPct) || bid <= Above(entryPrice, -c.stopPct) || held >= c.maxHoldTicks
  }

  function MomentumStep(c: MomentumConfig, s: MomentumState, view: BookView): (MomentumState, Signal) {
    if !TwoSided(view) then
      (s, Hold)
    else
      var bid, ask, mid := view.bids[0].price, view.asks[0].price, Mid(view);
      var p, s' := s.position, s.(history := s.history + [mid]);
      if p.holding then
        var held := s'.(heldTicks := s.heldTicks + 1);
        if ExitGate(c, p.entryPrice, bid, held.heldTicks) then
          (held.(position := p.(holding := false), cooldownLeft := c.cooldownTicks), Sell(bid, p.entryQty))
        else
          (held, Hold)
      else if s.cooldownLeft > 0 then
        (s'.(cooldownLeft := s.cooldownLeft - 1), Hold)
      else
        var qty := EntryQty(c.qty, c.maxNotional, ask);
        if MomentumGate(c, PriceAgo(s'.history, c.lookbackTicks), mid) && ImbalanceGate(c, view) && qty > 0.0 then
          (s'.(position := Position(true, ask, qty), heldTicks := 0), Buy(ask, qty))
        else
          (s', Hold)
  }

  /** While a position is open its age stays below the time stop, so the tick counter cannot wrap. */
  predicate TimeStopAhead(c: MomentumConfig, s: MomentumState) {
    s.position.holding ==> s.heldTicks < (if c.maxHoldTicks == 0 then 1 else c.maxHoldTicks)
  }

  lemma RingSlots(n: nat, i: nat)
    requires n - PRICE_BUF < i < n
    ensures i % PRICE_BUF != n % PRICE_BUF
  {
  }

  lemma RingIndex(n: nat, ticks: nat)
    requires ticks < PRICE_BUF && ticks < n
    ensures (n % PRICE_BUF + PRICE_BUF - 1 - ticks) % PRICE_BUF == (n - 1 - ticks) % PRICE_BUF
  {
  }

  class MomentumScalp {
    const config: MomentumConfig
    const prices: array<real>
    var head: nat
    var filled: nat
    var holding: bool
    var entryPrice: real
    var entryQty: real
    var heldTicks: U32
    var cooldownLeft: U32

    /** Every mid price ever pushed. */
    ghost var history: seq<real>

    ghost predicate RingHolds()
      reads this, prices
    {
      && prices.Length == PRICE_BUF
      && head == |history| % PRICE_BUF
      && filled == (if |history| < PRICE_BUF then |history| else PRICE_BUF)
      && forall i :: |history| - filled <= i < |history| ==> prices[i % PRICE_BUF] == history[i]
    }

    ghost predicate Valid()
      reads this, prices
    {
      RingHolds() && config.lookbackTicks < PRICE_BUF && TimeStopAhead(config, Contents())
    }

    ghost function Contents(): MomentumState
      reads this
    {
      MomentumState(history, Position(holding, entryPrice, entryQty), heldTicks, cooldownLeft)
    }

    /** The lookback is capped to what the ring can hold. */
    constructor (config: MomentumConfig)
      ensures Valid() && fresh(prices) && Contents() == MOMENTUM_START
      ensures this.config == config.(
        lookbackTicks := if config.lookbackTicks < PRICE_BUF then config.lookbackTicks else PRICE_BUF - 1)
    {
      this.config := config.(
        lookbackTicks := if config.lookbackTicks < PRICE_BUF then config.lookbackTicks else PRICE_BUF - 1);
      prices := new real[PRICE_BUF](_ => 0.0);
      head, filled, history := 0, 0, [];
      holding, entryPrice, entryQty := false, 0.0, 0.0;
      heldTicks, cooldownLeft := 0, 0;
    }

    method PushPrice(mid: real)
      requires RingHolds()
      modifies prices, `head, `filled, `history
      ensures RingHolds() && history == old(history) + [mid]
    {
      prices[head] := mid;
      head := (head + 1) % PRICE_BUF;
      if filled < PRICE_BUF {
        filled := filled + 1;
      }
      ghost var n := |history|;
      history := history + [mid];
      forall i | n + 1 - filled <= i < n
        ensures prices[i % PRICE_BUF] == history[i]
      {
        RingSlots(n, i);
      }
    }

    method LookbackPrice() returns (price: Option<real>)
      requires RingHolds() && config.lookbackTicks < PRICE_BUF
      ensures price == PriceAgo(history, config.lookbackTicks)
    {
      if filled <= config.lookbackTicks {
        return None;
      }
      RingIndex(|history|, config.lookbackTicks);
      var index := (head + PRICE_BUF - 1 - config.lookbackTicks) % PRICE_BUF;
      return Some(prices[index]);
    }

    method OnOrderbook(view: BookView) returns (signal: Signal)
      requires Valid()
      modifies this, prices
      ensures Valid()
      ensures (Contents(), signal) == MomentumStep(config, old(Contents()), view)
    {
      hide Above, EntryQty, MomentumGate, ImbalanceGate;
      if view.bids == [] || view.asks == [] {
        return Hold;
      }
      var bestBid, bestAsk := view.bids[0].price, view.asks[0].price;
      var mid := (bestBid + bestAsk) / 2.0;
      PushPrice(mid);
      if holding {
        heldTicks := heldTicks + 1;
        var takeProfit := Above(entryPrice, config.tpPct);
        var stopOut := Above(entryPrice, -config.stopPct);
        if bestBid >= takeProfit || bestBid <= stopOut || heldTicks >= config.maxHoldTicks {
          holding := false;
          cooldownLeft := config.cooldownTicks;
          return Sell(bestBid, entryQty);
        }
        return Hold;
      }
      if cooldownLeft > 0 {
        cooldownLeft := cooldownLeft - 1;
        return Hold;
      }
      var past := LookbackPrice();
      if !MomentumGate(config, past, mid) {
        return Hold;
      }
      if !ImbalanceGate(config, view) {
        return Hold;
      }
      var qty := EntryQty(config.qty, config.maxNotional, bestAsk);
      if qty <= 0.0 {
        return Hold;
      }
      holding, entryPrice, entryQty, heldTicks := true, bestAsk, qty, 0;
      return Buy(bestAsk, qty);
    }
  }
}
