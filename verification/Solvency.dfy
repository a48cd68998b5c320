/**
 The gate's 0.1% headroom and the paper account's fee together: when every approved order is
 filled before the next check, and the gate reads the account's own cash, cash never goes negative.
 */
module Solvency {
  import opened Types
  import opened Fifo
  import opened Accounting
  import opened Risk
  import opened RiskRuns

  datatype Desk = Desk(account: Account, window: Window)

  function FillOrder(a: Account, signal: Signal): Account {
    match signal
    case Buy(price, qty) => AccountBuy(a, price, qty)
    case Sell(price, qty) => AccountSell(a, price, qty)
    case Hold => a
  }

  /** One order: checked against the account's cash and, if approved, filled at once. */
  function Submit(d: Desk, a: Attempt): Desk {
    var outside := a.outside.(balance := Some(d.account.cash));
    var (window, result) := Check(a.settings, d.window, a.signal, a.mid, outside);
    Desk(if result.Approved? then FillOrder(d.account, result.signal) else d.account, window)
  }

  function SubmitAll(d: Desk, attempts: seq<Attempt>): Desk {
    if attempts == [] then
      d
    else
      Submit(SubmitAll(d, attempts[..|attempts| - 1]), attempts[|attempts| - 1])
  }

  /** The orders that the gate approves, in order. */
  function ApprovedOrders(d: Desk, attempts: seq<Attempt>): seq<Order> {
    if attempts == [] then
      []
    else
      var a, before := attempts[|attempts| - 1], SubmitAll(d, attempts[..|attempts| - 1]);
      var outside := a.outside.(balance := Some(before.account.cash));
      var approved := Check(a.settings, before.window, a.signal, a.mid, outside).1.Approved?;
      ApprovedOrders(d, attempts[..|attempts| - 1])
      + if !approved || a.signal.Hold? then []
        else if a.signal.Buy? then [BuyOrder(a.signal.price, a.signal.qty)]
        else [SellOrder(a.signal.price, a.signal.qty)]
  }

  /** The account is the one that trades the approved orders, and no others. */
  lemma {:induction false} DeskTradesApprovedOrders(d: Desk, attempts: seq<Attempt>)
    ensures SubmitAll(d, attempts).account == FillAll(d.account, ApprovedOrders(d, attempts))
    decreases |attempts|
  {
    hide Check, AccountBuy, AccountSell;
    if attempts != [] {
      var a, before := attempts[|attempts| - 1], attempts[..|attempts| - 1];
      DeskTradesApprovedOrders(d, before);
      var orders, all := ApprovedOrders(d, before), ApprovedOrders(d, attempts);
      var at := SubmitAll(d, before);
      ApprovalIsOfTheOrder(a.settings, at.window, a.signal, a.mid, a.outside.(balance := Some(at.account.cash)));
      assert orders + [] == orders;
      assert |all| > |orders| ==> all[..|all| - 1] == orders;
    }
  }

  ghost predicate NonNegative(a: Attempt) {
    a.signal.Hold? || (a.signal.price >= 0.0 && a.signal.qty >= 0.0)
  }

  ghost predicate AllNonNegative(attempts: seq<Attempt>) {
    forall i :: 0 <= i < |attempts| ==> NonNegative(attempts[i])
  }

  ghost predicate Solvent(a: Account) {
    && a.cash >= 0.0
    && a.feePct <= 0.1
    && forall i :: 0 <= i < |a.ledger.queue| ==> a.ledger.queue[i].price >= 0.0 && a.ledger.queue[i].qty >= 0.0
  }

  lemma CoveredBuyIsAffordable(a: Account, price: real, qty: real)
    requires Solvent(a) && price >= 0.0 && qty >= 0.0 && WithHeadroom(price, qty) <= a.cash
    ensures Solvent(AccountBuy(a, price, qty))
  {
    var notional := Value(price, qty);
    assert notional >= 0.0;
    FeeIsSmall(a, notional);
    assert WithHeadroom(price, qty) == notional * 1.001;
  }

  lemma FeeIsSmall(a: Account, notional: real)
    requires a.feePct <= 0.1 && notional >= 0.0
    ensures Fee(a, notional) <= notional * 0.001
  {
    assert notional * (0.1 - a.feePct) >= 0.0;
  }

  ghost function MaxPrice(queue: seq<Lot>): (top: real)
    ensures top >= 0.0 && forall i :: 0 <= i < |queue| ==> queue[i].price <= top
  {
    if queue == [] then
      0.0
    else
      var rest := MaxPrice(queue[1..]);
      assert forall i :: 0 < i < |queue| ==> queue[i] == queue[1..][i - 1];
      if queue[0].price > rest then queue[0].price else rest
  }

  lemma SellKeepsSolvent(a: Account, price: real, qty: real)
    requires Solvent(a) && price >= 0.0 && qty >= 0.0
    ensures Solvent(AccountSell(a, price, qty))
  {
    hide Value, Match, Fee;
    SellQuantities(a.ledger.queue, price, qty, MaxPrice(a.ledger.queue));
    var matched := MatchedQty(a.ledger, price, qty);
    if matched > QTY_EPSILON {
      ValueIsMonotone(0.0, 0.0, price, matched);
      FeeIsSmall(a, Value(price, matched));
    }
  }

  /** In every run of checks and fills, cash stays non-negative. */
  lemma {:induction false} CashNeverGoesNegative(d: Desk, attempts: seq<Attempt>)
    requires Solvent(d.account)
    requires AllNonNegative(attempts)
    ensures Solvent(SubmitAll(d, attempts).account)
    decreases |attempts|
  {
    if attempts != [] {
      var before, a := attempts[..|attempts| - 1], attempts[|attempts| - 1];
      CashNeverGoesNegative(d, before);
      var d' := SubmitAll(d, before);
      SubmitKeepsSolvent(d', a);
    }
  }

  lemma SubmitKeepsSolvent(d: Desk, a: Attempt)
    requires Solvent(d.account) && NonNegative(a)
    ensures Solvent(Submit(d, a).account)
  {
    hide Solvent, WithHeadroom, AccountBuy, AccountSell, Recent, UseId;
    var outside := a.outside.(balance := Some(d.account.cash));
    if Check(a.settings, d.window, a.signal, a.mid, outside).1.Approved? {
      match a.signal {
        case Buy(price, qty) => CoveredBuyIsAffordable(d.account, price, qty);
        case Sell(price, qty) => SellKeepsSolvent(d.account, price, qty);
        case Hold =>
      }
    }
  }

  /**
   The headroom covers fees up to 0.1% and no more: with any higher fee there is an account and an
   order that the gate approves and that leaves the cash negative.
   */
  lemma HigherFeesBreakSolvency(feePct: real) returns (capital: real, a: Attempt)
    requires feePct > 0.1
    ensures capital >= 0.0 && NonNegative(a)
    ensures Submit(Desk(NewAccount(capital, feePct), EMPTY_WINDOW), a).account.cash < 0.0
  {
    var knobs := Settings(false, 0.01, 100.0, 1.0, 5, 10_000.0);
    capital := 1001.0;
    a := Attempt(knobs, Buy(100_000.0, 0.01), 100_000.0, Outside(false, None, 0, 0));
    var desk := Desk(NewAccount(capital, feePct), EMPTY_WINDOW);
    assert WithHeadroom(100_000.0, 0.01) == 1001.0;
    assert Submit(desk, a).account.cash == 1001.0 - (1000.0 + Fee(desk.account, 1000.0));
    assert Fee(desk.account, 1000.0) == 10.0 * feePct;
  }

  /** Cash after a run of checks and fills on a new account. */
  function CashAfter(capital: real, feePct: real, attempts: seq<Attempt>): real {
    SubmitAll(Desk(NewAccount(capital, feePct), EMPTY_WINDOW), attempts).account.cash
  }

  /** A fee keeps every account solvent, whatever it starts with and is asked to do, exactly when it is at most 0.1%. */
  lemma SolvencyIsExact(feePct: real)
    ensures feePct <= 0.1 <==>
      forall capital: real, attempts ::
        capital >= 0.0 && AllNonNegative(attempts) ==> CashAfter(capital, feePct, attempts) >= 0.0
  {
    hide Submit;
    if feePct <= 0.1 {
      forall capital: real, attempts | capital >= 0.0 && AllNonNegative(attempts)
        ensures CashAfter(capital, feePct, attempts) >= 0.0
      {
        CashNeverGoesNegative(Desk(NewAccount(capital, feePct), EMPTY_WINDOW), attempts);
      }
    } else {
      var capital, a := HigherFeesBreakSolvency(feePct);
      var desk := Desk(NewAccount(capital, feePct), EMPTY_WINDOW);
      assert [a][..0] == [] && SubmitAll(desk, []) == desk;
      assert SubmitAll(desk, [a]) == Submit(desk, a);
      assert AllNonNegative([a]) && CashAfter(capital, feePct, [a]) < 0.0;
    }
  }
}
