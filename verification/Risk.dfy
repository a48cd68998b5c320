/**
 The pre-trade risk gate (src/risk.rs). The clock, the fresh order id, the halt file and the
 mirrored account balance are inputs of each check. Times are nanoseconds.
 */
module Risk {
  import opened Types

  const MAX_SEEN_ORDER_IDS := 10_000
  const SECOND: nat := 1_000_000_000
  const U32_SIZE := 0x1_0000_0000

  type U32 = n: nat | n < U32_SIZE

  datatype RiskError =
    | KillSwitch
    | MaxQtyExceeded(qty: real, max: real)
    | InsufficientBalance(balance: real, min: real)
    | InsufficientFunds(notional: real, balance: real)
    | FatFinger(price: real, mid: real, pct: real, maxPct: real)
    | RateLimit(current: nat, limit: U32)
    | DuplicateOrderId(id: nat)

  datatype CheckResult = Approved(signal: Signal, orderId: nat) | Rejected(error: RiskError)

  /** The public knobs of the checker. */
  datatype Settings = Settings(
    halted: bool, maxOrderQty: real, minFreeBalance: real, priceBandPct: real, maxOrdersPerSec: U32, freeBalance: real)

  /** What the checker remembers: the recent approval times and the window of used order ids. */
  datatype Window = Window(ids: set<nat>, queue: seq<nat>, timestamps: seq<nat>)

  const EMPTY_WINDOW := Window({}, [], [])

  /** What one check reads from outside. */
  datatype Outside = Outside(fileHalt: bool, balance: Option<real>, now: nat, freshId: nat)

  function Abs(x: real): real {
    if x < 0.0 then -x else x
  }

  function Deviation(price: real, mid: real): real
    requires mid > 0.0
  {
    Abs((price - mid) / mid) * 100.0
  }

  /** The notional of a buy with 0.1% headroom for the fill fee. */
  function WithHeadroom(price: real, qty: real): real {
    price * qty * 1.001
  }

  /** The balance a buy is compared with: the mirrored account balance if there is one. */
  function Balance(s: Settings, outside: Outside): real {
    if outside.balance.Some? then outside.balance.value else s.freeBalance
  }

  /**
   The conditions that look at the order alone; a buy must also be covered, with headroom.
   A Hold signal reaches this point only while the kill switch is on.
   */
  function Screen(s: Settings, signal: Signal, mid: real, outside: Outside): Option<RiskError> {
    if s.halted || outside.fileHalt || signal.Hold? then
      Some(KillSwitch)
    else if signal.qty > s.maxOrderQty then
      Some(MaxQtyExceeded(signal.qty, s.maxOrderQty))
    else
      var balance := Balance(s, outside);
      var notional := WithHeadroom(signal.price, signal.qty);
      if signal.Buy? && balance < s.minFreeBalance then
        Some(InsufficientBalance(balance, s.minFreeBalance))
      else if signal.Buy? && notional > balance then
        Some(InsufficientFunds(notional, balance))
      else if mid > 0.0 && Deviation(signal.price, mid) > s.priceBandPct then
        Some(FatFinger(signal.price, mid, Deviation(signal.price, mid), s.priceBandPct))
      else
        None
  }

  function Elapsed(since: nat, now: nat): nat {
    if since <= now then now - since else 0
  }

  /** The timestamps less than a second old, in order. */
  function Recent(timestamps: seq<nat>, now: nat): seq<nat> {
    if timestamps == [] then
      []
    else
      (if Elapsed(timestamps[0], now) < SECOND then [timestamps[0]] else []) + Recent(timestamps[1..], now)
  }

  /** The window of ids after one more is used. */
  function UseId(w: Window, id: nat): Window {
    var full := |w.queue| >= MAX_SEEN_ORDER_IDS;
    var ids := if full then w.ids - {w.queue[0]} else w.ids;
    var queue := if full then w.queue[1..] else w.queue;
    w.(ids := ids + {id}, queue := queue + [id])
  }

  /** One check: the window it leaves and its answer. The count is cast to 32 bits before it is compared. */
  function Check(s: Settings, w: Window, signal: Signal, mid: real, outside: Outside): (Window, CheckResult) {
    var screened := Screen(s, signal, mid, outside);
    if screened.Some? then
      (w, Rejected(screened.value))
    else
      var recent := Recent(w.timestamps, outside.now);
      var pruned := w.(timestamps := recent);
      if |recent| % U32_SIZE >= s.maxOrdersPerSec then
        (pruned, Rejected(RateLimit(|recent|, s.maxOrdersPerSec)))
      else if outside.freshId in w.ids then
        (pruned, Rejected(DuplicateOrderId(outside.freshId)))
      else
        (UseId(pruned, outside.freshId).(timestamps := recent + [outside.now]), Approved(signal, outside.freshId))
  }

  /** An approval is of the order that was asked about, under the fresh id. */
  lemma ApprovalIsOfTheOrder(s: Settings, w: Window, signal: Signal, mid: real, outside: Outside)
    ensures var result := Check(s, w, signal, mid, outside).1;
      result.Approved? ==> result == Approved(signal, outside.freshId)
  {
  }

  // ---------- What the order conditions mean ----------

  /** The price lies in the band of `pct` percent around the mid price. */
  predicate InBand(price: real, mid: real, pct: real) {
    mid * (1.0 - pct / 100.0) <= price <= mid * (1.0 + pct / 100.0)
  }

  lemma DeviationIsBand(price: real, mid: real, pct: real)
    requires mid > 0.0
    ensures Deviation(price, mid) <= pct <==> InBand(price, mid, pct)
  {
    var d := (price - mid) / mid;
    assert d * mid == price - mid;
    ScaledOrder(d, pct / 100.0, mid);
    ScaledOrder(-(pct / 100.0), d, mid);
    assert mid * (1.0 - pct / 100.0) == mid - pct / 100.0 * mid && mid * (1.0 + pct / 100.0) == mid + pct / 100.0 * mid;
  }

  lemma ScaledOrder(a: real, b: real, scale: real)
    requires scale > 0.0
    ensures a <= b <==> a * scale <= b * scale
  {
    assert (b - a) * scale == b * scale - a * scale;
    if a > b {
      assert (a - b) * scale > 0.0;
    }
  }

  /** The balance that a buy must be covered by: the mirrored account balance if there is one. */
  predicate IsFree(free: real, s: Settings, outside: Outside) {
    if outside.balance.Some? then free == outside.balance.value else free == s.freeBalance
  }

  /** The order conditions in the order they are looked at. Sells are never held back by the balance. */
  predicate Breaks(condition: nat, s: Settings, signal: Signal, mid: real, outside: Outside, free: real)
    requires !signal.Hold?
  {
    match condition
    case 0 => s.halted || outside.fileHalt
    case 1 => signal.qty > s.maxOrderQty
    case 2 => signal.Buy? && free < s.minFreeBalance
    case 3 => signal.Buy? && signal.price * signal.qty * 1.001 > free
    case 4 => mid > 0.0 && !InBand(signal.price, mid, s.priceBandPct)
    case _ => false
  }

  /** The error reports this condition, with the quantities it compares. */
  predicate Reports(error: RiskError, condition: nat, s: Settings, signal: Signal, mid: real, free: real)
    requires !signal.Hold?
  {
    match condition
    case 0 => error == KillSwitch
    case 1 => error == MaxQtyExceeded(signal.qty, s.maxOrderQty)
    case 2 => error == InsufficientBalance(free, s.minFreeBalance)
    case 3 => error == InsufficientFunds(signal.price * signal.qty * 1.001, free)
    case 4 =>
      && error.FatFinger? && error.price == signal.price && error.mid == mid && error.maxPct == s.priceBandPct
      && error.pct * mid == 100.0 * (if signal.price < mid then mid - signal.price else signal.price - mid)
    case _ => false
  }

  /** No order condition is broken. */
  predicate MeetsConditions(s: Settings, signal: Signal, mid: real, outside: Outside, free: real)
    requires !signal.Hold?
  {
    forall k :: 0 <= k < 5 ==> !Breaks(k, s, signal, mid, outside, free)
  }

  lemma DeviationIsDistance(price: real, mid: real)
    requires mid > 0.0
    ensures Deviation(price, mid) * mid == 100.0 * (if price < mid then mid - price else price - mid)
  {
    var d := (price - mid) / mid;
    assert d * mid == price - mid;
    assert d < 0.0 <==> price < mid;
  }

  /**
   An order passes the order conditions exactly when it breaks none of them: trading is not halted, its
   quantity is within the limit, a buy leaves the balance above the floor and covered with headroom, and
   its price lies in the band around the mid price. Otherwise the first one broken is reported.
   */
  lemma ScreenIsExact(s: Settings, signal: Signal, mid: real, outside: Outside, free: real) returns (condition: nat)
    requires !signal.Hold? && IsFree(free, s, outside)
    ensures var screened := Screen(s, signal, mid, outside);
      && (screened.None? <==> MeetsConditions(s, signal, mid, outside, free))
      && (screened.Some? ==>
        && Breaks(condition, s, signal, mid, outside, free) && Reports(screened.value, condition, s, signal, mid, free)
        && forall k :: 0 <= k < condition ==> !Breaks(k, s, signal, mid, outside, free))
  {
    hide InBand, Deviation;
    if mid > 0.0 {
      DeviationIsBand(signal.price, mid, s.priceBandPct);
      DeviationIsDistance(signal.price, mid);
    }
    condition :=
      if Breaks(0, s, signal, mid, outside, free) then 0
      else if Breaks(1, s, signal, mid, outside, free) then 1
      else if Breaks(2, s, signal, mid, outside, free) then 2
      else if Breaks(3, s, signal, mid, outside, free) then 3
      else if Breaks(4, s, signal, mid, outside, free) then 4
      else 5;
  }

  class RiskChecker {
    var halted: bool
    var maxOrderQty: real
    var minFreeBalance: real
    var priceBandPct: real
    var maxOrdersPerSec: U32
    var freeBalance: real
    var seenOrderIds: set<nat>
    var seenOrderQueue: seq<nat>
    var orderTimestamps: seq<nat>

    function Knobs(): Settings
      reads this
    {
      Settings(halted, maxOrderQty, minFreeBalance, priceBandPct, maxOrdersPerSec, freeBalance)
    }

    function Memory(): Window
      reads this
    {
      Window(seenOrderIds, seenOrderQueue, orderTimestamps)
    }

    constructor (maxOrderQty: real, minFreeBalance: real, priceBandPct: real, maxOrdersPerSec: U32)
      ensures Knobs() == Settings(false, maxOrderQty, minFreeBalance, priceBandPct, maxOrdersPerSec, 10_000.0)
      ensures Memory() == EMPTY_WINDOW
    {
      halted := false;
      this.maxOrderQty, this.minFreeBalance := maxOrderQty, minFreeBalance;
      this.priceBandPct, this.maxOrdersPerSec := priceBandPct, maxOrdersPerSec;
      freeBalance := 10_000.0;
      seenOrderIds, seenOrderQueue, orderTimestamps := {}, [], [];
    }

    /** A Hold signal may reach the gate only while the kill switch is on. */
    method CheckOrder(signal: Signal, mid: real, outside: Outside) returns (result: CheckResult)
      requires signal.Hold? ==> halted || outside.fileHalt
      modifies `seenOrderIds, `seenOrderQueue, `orderTimestamps
      ensures (Memory(), result) == Check(Knobs(), old(Memory()), signal, mid, outside)
    {
      if halted || outside.fileHalt {
        return Rejected(KillSwitch);
      }
      var price, qty := signal.price, signal.qty;
      if qty > maxOrderQty {
        return Rejected(MaxQtyExceeded(qty, maxOrderQty));
      }
      if signal.Buy? {
        var balance := if outside.balance.Some? then outside.balance.value else freeBalance;
        if balance < minFreeBalance {
          return Rejected(InsufficientBalance(balance, minFreeBalance));
        }
        var notional := WithHeadroom(price, qty);
        if notional > balance {
          return Rejected(InsufficientFunds(notional, balance));
        }
      }
      if mid > 0.0 {
        var pctDiff := Abs((price - mid) / mid) * 100.0;
        if pctDiff > priceBandPct {
          return Rejected(FatFinger(price, mid, pctDiff, priceBandPct));
        }
      }
      orderTimestamps := Recent(orderTimestamps, outside.now);
      var currentRate := |orderTimestamps|;
      if currentRate % U32_SIZE >= maxOrdersPerSec {
        return Rejected(RateLimit(currentRate, maxOrdersPerSec));
      }
      if outside.freshId in seenOrderIds {
        return Rejected(DuplicateOrderId(outside.freshId));
      }
      if |seenOrderQueue| >= MAX_SEEN_ORDER_IDS {
        var oldest := seenOrderQueue[0];
        seenOrderQueue := seenOrderQueue[1..];
        seenOrderIds := seenOrderIds - {oldest};
      }
      seenOrderIds := seenOrderIds + {outside.freshId};
      seenOrderQueue := seenOrderQueue + [outside.freshId];
      orderTimestamps := orderTimestamps + [outside.now];
      return Approved(signal, outside.freshId);
    }
  }
}
