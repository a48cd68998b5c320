/** The rate limit and the duplicate window of the risk gate, over whole runs of checks. */
module RiskRuns {
  import opened Types
  import opened Risk

  /** One check of a run. The knobs may be turned between checks, except the rate limit. */
  datatype Attempt = Attempt(settings: Settings, signal: Signal, mid: real, outside: Outside)

  /** A run so far: what the gate remembers, and the times and ids of all approvals. */
  datatype GateRun = GateRun(window: Window, times: seq<nat>, ids: seq<nat>)

  function Run(attempts: seq<Attempt>): GateRun {
    if attempts == [] then
      GateRun(EMPTY_WINDOW, [], [])
    else
      var before, a := Run(attempts[..|attempts| - 1]), attempts[|attempts| - 1];
      var (window, result) := Check(a.settings, before.window, a.signal, a.mid, a.outside);
      if result.Approved? then
        GateRun(window, before.times + [a.outside.now], before.ids + [result.orderId])
      else
        before.(window := window)
  }

  /** The answers of a gate that is asked for one order after the other, and what it remembers at the end. */
  function Answers(w: Window, attempts: seq<Attempt>): (r: (Window, seq<CheckResult>))
    ensures |r.1| == |attempts|
  {
    if attempts == [] then
      (w, [])
    else
      var a := attempts[|attempts| - 1];
      var (before, results) := Answers(w, attempts[..|attempts| - 1]);
      var (window, result) := Check(a.settings, before, a.signal, a.mid, a.outside);
      (window, results + [result])
  }

  /** The run uses one rate limit and a clock that never goes back. */
  ghost predicate ValidRun(attempts: seq<Attempt>, max: U32) {
    && (forall i :: 0 <= i < |attempts| ==> attempts[i].settings.maxOrdersPerSec == max)
    && (forall i, j :: 0 <= i < j < |attempts| ==> attempts[i].outside.now <= attempts[j].outside.now)
  }

  // ---------- Rate limit ----------

  ghost predicate Sorted(times: seq<nat>) {
    forall i, j :: 0 <= i < j < |times| ==> times[i] <= times[j]
  }

  ghost predicate Spaced(times: seq<nat>, max: nat) {
    forall i, j :: 0 <= i && j == i + max && j < |times| ==> times[j] - times[i] >= SECOND
  }

  lemma {:induction false} RecentIsSuffix(times: seq<nat>, now: nat)
    requires Sorted(times) && forall i :: 0 <= i < |times| ==> times[i] <= now
    ensures var k := |times| - |Recent(times, now)|;
      k >= 0 && Recent(times, now) == times[k..] && forall i :: 0 <= i < k ==> now - times[i] >= SECOND
  {
    hide Recent;
    if times != [] && now - times[0] >= SECOND {
      var rest := times[1..];
      FirstIsForgotten(times, now);
      RecentIsSuffix(rest, now);
      var k := |rest| - |Recent(rest, now)|;
      assert rest[k..] == times[k + 1..];
      forall i | 0 <= i < k + 1
        ensures now - times[i] >= SECOND
      {
        assert i > 0 ==> times[i] == rest[i - 1];
      }
    } else {
      assert forall i :: 0 < i < |times| ==> times[0] <= times[i];
      AllRecent(times, now);
    }
  }

  lemma FirstIsForgotten(times: seq<nat>, now: nat)
    requires times != [] && Elapsed(times[0], now) >= SECOND
    ensures Recent(times, now) == Recent(times[1..], now)
  {
  }

  lemma {:induction false} AllRecent(times: seq<nat>, now: nat)
    requires forall i :: 0 <= i < |times| ==> Elapsed(times[i], now) < SECOND
    ensures Recent(times, now) == times
  {
    if times != [] {
      assert forall i :: 0 <= i < |times[1..]| ==> times[1..][i] == times[i + 1];
      AllRecent(times[1..], now);
    }
  }

  /** All approval times are sorted and not in the future; what the gate forgot is a second old. */
  ghost predicate RateInvariant(times: seq<nat>, kept: seq<nat>, max: nat, now: nat) {
    && |kept| <= max && |kept| <= |times|
    && kept == times[|times| - |kept|..]
    && Sorted(times) && (forall i :: 0 <= i < |times| ==> times[i] <= now)
    && (forall i :: 0 <= i < |times| - |kept| ==> now - times[i] >= SECOND)
    && Spaced(times, max)
  }

  lemma {:induction false} RateInvariantHolds(attempts: seq<Attempt>, max: U32, now: nat)
    requires ValidRun(attempts, max) && forall i :: 0 <= i < |attempts| ==> attempts[i].outside.now <= now
    ensures RateInvariant(Run(attempts).times, Run(attempts).window.timestamps, max, now)
    decreases |attempts|
  {
    if attempts != [] {
      var before, a := attempts[..|attempts| - 1], attempts[|attempts| - 1];
      var r, t := Run(before), a.outside.now;
      var kept := r.window.timestamps;
      RateInvariantHolds(before, max, t);
      RateInvariantHolds(before, max, now);
      PruneKeepsRate(r.times, kept, max, t);
      PruneKeepsRate(r.times, kept, max, now);
      CheckKeepsRate(r, a, max, now);
    }
  }

  lemma PruneKeepsRate(times: seq<nat>, kept: seq<nat>, max: nat, now: nat)
    requires RateInvariant(times, kept, max, now)
    ensures RateInvariant(times, Recent(kept, now), max, now)
  {
    var d := |times| - |kept|;
    assert forall i :: 0 <= i < |kept| ==> kept[i] == times[d + i];
    RecentIsSuffix(kept, now);
    var k := |kept| - |Recent(kept, now)|;
    assert times[d..][k..] == times[d + k..];
    forall i | 0 <= i < d + k
      ensures now - times[i] >= SECOND
    {
      assert i >= d ==> times[i] == kept[i - d];
    }
  }

  lemma ApprovalKeepsRate(times: seq<nat>, kept: seq<nat>, max: nat, now: nat, later: nat)
    requires RateInvariant(times, kept, max, now) && |kept| < max && now <= later
    ensures RateInvariant(times + [now], kept + [now], max, later)
  {
  }

  lemma CheckKeepsRate(r: GateRun, a: Attempt, max: U32, later: nat)
    requires a.settings.maxOrdersPerSec == max && a.outside.now <= later
    requires RateInvariant(r.times, r.window.timestamps, max, a.outside.now)
    requires RateInvariant(r.times, Recent(r.window.timestamps, a.outside.now), max, a.outside.now)
    ensures var (window, result) := Check(a.settings, r.window, a.signal, a.mid, a.outside);
      RateInvariant(if result.Approved? then r.times + [a.outside.now] else r.times, window.timestamps, max, later)
  {
    hide Recent, Screen;
    var now, recent := a.outside.now, Recent(r.window.timestamps, a.outside.now);
    assert |recent| % U32_SIZE == |recent|;
    if |recent| < max {
      ApprovalKeepsRate(r.times, recent, max, now, later);
    }
  }

  /** In every run, approvals that are `max` apart in order are at least one second apart in time. */
  lemma ApprovalsAreSpaced(attempts: seq<Attempt>, max: U32)
    requires ValidRun(attempts, max)
    ensures Sorted(Run(attempts).times) && Spaced(Run(attempts).times, max)
    ensures |Run(attempts).window.timestamps| <= max
  {
    var now := if attempts == [] then 0 else attempts[|attempts| - 1].outside.now;
    RateInvariantHolds(attempts, max, now);
  }

  lemma {:induction false} SpacingAdds(times: seq<nat>, max: nat, i: nat, k: nat)
    requires Spaced(times, max) && i + k * max < |times|
    ensures times[i + k * max] - times[i] >= k * SECOND
    decreases k
  {
    if k > 0 {
      var before := i + (k - 1) * max;
      assert before + max == i + k * max && 0 <= (k - 1) * max;
      SpacingAdds(times, max, i, k - 1);
    }
  }

  lemma {:induction false} SubsetOfIntervalIsSmall(s: set<nat>, low: nat, n: nat)
    requires forall i :: i in s ==> low <= i < low + n
    ensures |s| <= n
    decreases n
  {
    if n > 0 {
      SubsetOfIntervalIsSmall(s - {low + n - 1}, low, n - 1);
    } else {
      assert s == {};
    }
  }

  /** The approvals with times in [from, from + length]. */
  function ApprovalsIn(times: seq<nat>, from: nat, length: nat): set<nat> {
    set i: nat | i < |times| && from <= times[i] <= from + length
  }

  /**
   The rate limit over whole runs: a closed interval of any length holds at most max approvals for
   each whole second in it and the one begun. An interval shorter than a second holds at most max.
   */
  lemma RateLimitHolds(attempts: seq<Attempt>, max: U32, from: nat, length: nat)
    requires ValidRun(attempts, max)
    ensures |ApprovalsIn(Run(attempts).times, from, length)| <= max * (length / SECOND + 1)
  {
    var times := Run(attempts).times;
    ApprovalsAreSpaced(attempts, max);
    var s := ApprovalsIn(times, from, length);
    var k := length / SECOND + 1;
    if s != {} {
      var low := LeastOf(s);
      forall i | i in s
        ensures low <= i < low + max * k
      {
        assert k * max == max * k && k * SECOND > length;
        if i >= low + max * k {
          SpacingAdds(times, max, low, k);
        }
      }
      SubsetOfIntervalIsSmall(s, low, max * k);
    }
  }

  lemma {:induction false} LeastOf(s: set<nat>) returns (least: nat)
    requires s != {}
    ensures least in s && forall i :: i in s ==> least <= i
    decreases s
  {
    var one :| one in s;
    least := one;
    if s - {one} == {} {
      assert s == {one};
    } else {
      var other := LeastOf(s - {one});
      least := if other < one then other else one;
      assert forall i :: i in s ==> i == one || i in s - {one};
    }
  }

  lemma {:induction false} RecentAreRecent(times: seq<nat>, now: nat)
    ensures forall i :: 0 <= i < |Recent(times, now)| ==> Elapsed(Recent(times, now)[i], now) < SECOND
  {
    if times != [] {
      RecentAreRecent(times[1..], now);
    }
  }

  /** The gate has room for one more approval: the max-th last one, if there is one, is a second old. */
  predicate HasRoom(times: seq<nat>, max: U32, now: nat) {
    max > 0 && (|times| >= max ==> now >= times[|times| - max] + SECOND)
  }

  /** There is room exactly when fewer than max approvals are less than a second old. */
  lemma RoomIsExact(times: seq<nat>, kept: seq<nat>, max: U32, now: nat)
    requires RateInvariant(times, kept, max, now)
    ensures var recent := |Recent(kept, now)|;
      recent % U32_SIZE == recent && (recent < max <==> HasRoom(times, max, now))
  {
    hide Recent;
    var recent := Recent(kept, now);
    PruneKeepsRate(times, kept, max, now);
    RecentAreRecent(kept, now);
    RecentRate(recent, max);
    if |recent| == max && max > 0 {
      assert recent[0] == times[|times| - max];
    }
  }

  lemma RecentRate(recent: seq<nat>, max: U32)
    requires |recent| <= max
    ensures |recent| % U32_SIZE == |recent|
  {
  }

  lemma RunKeepsRate(attempts: seq<Attempt>, a: Attempt, max: U32)
    requires ValidRun(attempts + [a], max)
    ensures RateInvariant(Run(attempts).times, Run(attempts).window.timestamps, max, a.outside.now)
    ensures a.settings.maxOrdersPerSec == max
    ensures forall i :: 0 <= i < |Run(attempts).times| ==> Run(attempts).times[i] <= a.outside.now
  {
    hide Run;
    var all := attempts + [a];
    assert all[|attempts|] == a && forall i :: 0 <= i < |attempts| ==> all[i] == attempts[i];
    RateInvariantHolds(attempts, max, a.outside.now);
  }

  /**
   The limit is not stricter than it says: an order that passes the other conditions fails on it
   exactly when the gate has no room, the `max`-th last approval of the whole run being less than a second ago.
   */
  lemma RateGateIsExact(attempts: seq<Attempt>, a: Attempt, max: U32)
    requires ValidRun(attempts + [a], max) && Screen(a.settings, a.signal, a.mid, a.outside).None?
    ensures var r, now := Run(attempts), a.outside.now;
      var result := Check(a.settings, r.window, a.signal, a.mid, a.outside).1;
      (result.Rejected? && result.error.RateLimit?)
        <==> (max == 0 || (|r.times| >= max && now - r.times[|r.times| - max] < SECOND))
  {
    hide Run, RateInvariant, Recent, Screen, UseId;
    var r := Run(attempts);
    RunKeepsRate(attempts, a, max);
    RoomIsExact(r.times, r.window.timestamps, max, a.outside.now);
  }

  // ---------- Duplicate window ----------

  ghost predicate Distinct(ids: seq<nat>) {
    forall i, j :: 0 <= i < j < |ids| ==> ids[i] != ids[j]
  }

  /** Equal ids are more than 10,000 places apart. */
  ghost predicate FarApart(ids: seq<nat>) {
    forall i, j :: 0 <= i < j < |ids| && ids[i] == ids[j] ==> j - i > MAX_SEEN_ORDER_IDS
  }

  /** The window holds the last 10,000 approved ids, as a queue and as a set, without duplicates. */
  ghost predicate WindowInvariant(all: seq<nat>, queue: seq<nat>, ids: set<nat>) {
    && |queue| == (if |all| < MAX_SEEN_ORDER_IDS then |all| else MAX_SEEN_ORDER_IDS)
    && queue == all[|all| - |queue|..]
    && (forall id :: id in ids <==> id in queue)
    && Distinct(queue)
    && FarApart(all)
  }

  /** In every run, whatever ids are generated, approved orders with equal ids are more than 10,000 approvals apart. */
  lemma {:induction false} DuplicateWindowHolds(attempts: seq<Attempt>)
    ensures WindowInvariant(Run(attempts).ids, Run(attempts).window.queue, Run(attempts).window.ids)
    decreases |attempts|
  {
    hide Recent, Screen, UseId, WindowInvariant;
    if attempts == [] {
      EmptyWindow();
    } else {
      var before, a := attempts[..|attempts| - 1], attempts[|attempts| - 1];
      DuplicateWindowHolds(before);
      var r := Run(before);
      var pruned := r.window.(timestamps := Recent(r.window.timestamps, a.outside.now));
      if a.outside.freshId !in r.window.ids {
        FreshIdKeepsWindow(r.ids, pruned, a.outside.freshId);
      }
    }
  }

  lemma EmptyWindow()
    ensures WindowInvariant([], [], {})
  {
  }

  lemma FreshIdKeepsWindow(all: seq<nat>, w: Window, id: nat)
    requires WindowInvariant(all, w.queue, w.ids) && id !in w.ids
    ensures WindowInvariant(all + [id], UseId(w, id).queue, UseId(w, id).ids)
  {
    var d, q, w' := |all| - |w.queue|, w.queue, UseId(w, id);
    var drop := if |q| >= MAX_SEEN_ORDER_IDS then 1 else 0;
    assert w'.queue == q[drop..] + [id];
    assert all[d..][drop..] == all[d + drop..];
    assert (all + [id])[d + drop..] == all[d + drop..] + [id];
    FreshIdIsFarApart(all, q, id);
    FreshIdIsDistinct(q, w.ids, id, drop);
  }

  lemma FreshIdIsFarApart(all: seq<nat>, q: seq<nat>, id: nat)
    requires |q| == (if |all| < MAX_SEEN_ORDER_IDS then |all| else MAX_SEEN_ORDER_IDS)
    requires q == all[|all| - |q|..] && FarApart(all) && id !in q
    ensures FarApart(all + [id])
  {
  }

  lemma FreshIdIsDistinct(q: seq<nat>, ids: set<nat>, id: nat, drop: nat)
    requires drop <= 1 && drop <= |q| && Distinct(q) && id !in q
    requires forall x :: x in ids <==> x in q
    ensures Distinct(q[drop..] + [id])
    ensures var ids' := (if drop == 1 then ids - {q[0]} else ids) + {id};
      forall x :: x in ids' <==> x in q[drop..] + [id]
  {
  }

  /** A rejected check leaves the id window as it was. */
  lemma RejectionKeepsWindow(s: Settings, w: Window, signal: Signal, mid: real, outside: Outside)
    requires Check(s, w, signal, mid, outside).1.Rejected?
    ensures Check(s, w, signal, mid, outside).0.queue == w.queue
    ensures Check(s, w, signal, mid, outside).0.ids == w.ids
  {
  }

  // ---------- Approvals ----------

  /** The last n of a sequence, or all of it. */
  function Last(ids: seq<nat>, n: nat): seq<nat> {
    if |ids| <= n then ids else ids[|ids| - n..]
  }

  /** How many of the approvals are less than a second old. */
  function Lately(times: seq<nat>, now: nat): nat {
    |set i: nat | i < |times| && now < times[i] + SECOND|
  }

  lemma {:induction false} LatelyOfSuffix(times: seq<nat>, now: nat, k: nat)
    requires k <= |times|
    requires forall i :: 0 <= i < k ==> now >= times[i] + SECOND
    requires forall i :: k <= i < |times| ==> now < times[i] + SECOND
    ensures Lately(times, now) == |times| - k
    decreases |times|
  {
    var n := |times| - 1;
    if k == |times| {
      assert (set i: nat | i < |times| && now < times[i] + SECOND) == {};
    } else {
      LatelyOfSuffix(times[..n], now, k);
      assert (set i: nat | i < |times| && now < times[i] + SECOND)
        == (set i: nat | i < n && now < times[..n][i] + SECOND) + {n};
    }
  }

  /** What pruning leaves are the approvals less than a second old. */
  lemma PrunedAreLate(times: seq<nat>, kept: seq<nat>, max: nat, now: nat)
    requires RateInvariant(times, kept, max, now)
    ensures |Recent(kept, now)| == Lately(times, now) && Recent(kept, now) == Last(times, Lately(times, now))
  {
    hide Recent, Spaced, Lately;
    PruneKeepsRate(times, kept, max, now);
    RecentAreRecent(kept, now);
    var recent := Recent(kept, now);
    var k := |times| - |recent|;
    forall i | k <= i < |times|
      ensures now < times[i] + SECOND
    {
      assert times[i] == recent[i - k];
    }
    LatelyOfSuffix(times, now, k);
  }

  /**
   The answer of the gate, in every run. It approves exactly the orders that break no order condition, come
   when it has room, and whose id is not among those of the last 10,000 approvals; and then the very order
   it was asked about, under the fresh id. Otherwise it says which of the last two failed, and remembers no
   more than the approvals of the last second; an order that breaks an order condition leaves no trace.
   */
  lemma AnswerIsExact(attempts: seq<Attempt>, a: Attempt, max: U32, free: real)
    requires ValidRun(attempts + [a], max) && !a.signal.Hold? && IsFree(free, a.settings, a.outside)
    ensures var r, r', now, id := Run(attempts), Run(attempts + [a]), a.outside.now, a.outside.freshId;
      var (window, result) := Check(a.settings, r.window, a.signal, a.mid, a.outside);
      if !MeetsConditions(a.settings, a.signal, a.mid, a.outside, free) then
        result.Rejected? && r' == r
      else
        && (if !HasRoom(r.times, max, now) then
            result == Rejected(RateLimit(Lately(r.times, now), max)) && r'.times == r.times && r'.ids == r.ids
          else if id in Last(r.ids, 10_000) then
            result == Rejected(DuplicateOrderId(id)) && r'.times == r.times && r'.ids == r.ids
          else
            result == Approved(a.signal, id) && r'.times == r.times + [now] && r'.ids == r.ids + [id])
        && r'.window.timestamps == Last(r'.times, Lately(r'.times, now))
  {
    hide Screen, Recent, UseId, MeetsConditions, WindowInvariant, ValidRun, RateInvariant, Lately, Last, HasRoom;
    var r, all, now := Run(attempts), attempts + [a], a.outside.now;
    assert all[..|all| - 1] == attempts && all[|all| - 1] == a;
    var _ := ScreenIsExact(a.settings, a.signal, a.mid, a.outside, free);
    DuplicateWindowHolds(attempts);
    WindowIsLast(r.ids, r.window.queue, r.window.ids, a.outside.freshId);
    RunKeepsRate(attempts, a, max);
    PrunedAreLate(r.times, r.window.timestamps, max, now);
    RoomIsExact(r.times, r.window.timestamps, max, now);
    OneMoreLate(r.times, now);
  }

  lemma OneMoreLate(times: seq<nat>, now: nat)
    ensures Lately(times + [now], now) == Lately(times, now) + 1
    ensures Last(times, Lately(times, now)) + [now] == Last(times + [now], Lately(times, now) + 1)
  {
    OneMoreCounts(times, now);
    LastOneMore(times, now, Lately(times, now));
  }

  lemma OneMoreCounts(times: seq<nat>, now: nat)
    ensures Lately(times + [now], now) == Lately(times, now) + 1
  {
    var n, more := |times|, times + [now];
    var late, late' := set i: nat | i < n && now < times[i] + SECOND, set i: nat | i < n + 1 && now < more[i] + SECOND;
    forall i: nat
      ensures i in late' <==> i in late || i == n
    {
      assert i < n ==> more[i] == times[i];
    }
    assert late' == late + {n};
  }

  lemma LastOneMore(times: seq<nat>, now: nat, n: nat)
    ensures Last(times, n) + [now] == Last(times + [now], n + 1)
  {
    if |times| > n {
      assert (times + [now])[|times| - n..] == times[|times| - n..] + [now];
    }
  }

  lemma WindowIsLast(all: seq<nat>, queue: seq<nat>, ids: set<nat>, id: nat)
    requires WindowInvariant(all, queue, ids)
    ensures id in ids <==> id in Last(all, 10_000)
  {
  }
}
