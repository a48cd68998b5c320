/**
 What the snapshot + diff synchronisation guarantees, against the exchange's true history:
 agreement with the true book, exact loss detection, coalescing, and when one snapshot is enough.
 */
module BookSync {
  import opened Types
  import opened Exchange
  import opened OrderbookModel
  import opened TopView

  // ---------- What applying levels means, key by key ----------

  /** The last level that mentions a key decides it: zero removes it, anything else is its quantity. */
  lemma {:induction false} LastMentionDecides(m: map<nat, real>, levels: seq<Level>, i: nat)
    requires i < |levels| && forall j :: i < j < |levels| ==> levels[j].key != levels[i].key
    ensures var key, r := levels[i].key, ApplySide(m, levels);
      (key in r <==> levels[i].qty != 0.0) && (key in r ==> r[key] == levels[i].qty)
  {
    var n := |levels| - 1;
    if i < n {
      assert levels[..n][i] == levels[i];
      LastMentionDecides(m, levels[..n], i);
    }
  }

  /** A key that no level mentions stays as it is. */
  lemma {:induction false} UnmentionedIsKept(m: map<nat, real>, levels: seq<Level>, key: nat)
    requires !Mentions(levels, key)
    ensures var r := ApplySide(m, levels);
      (key in r <==> key in m) && (key in r ==> r[key] == m[key])
  {
    if levels != [] {
      var n := |levels| - 1;
      assert forall i :: 0 <= i < n ==> levels[..n][i] == levels[i];
      UnmentionedIsKept(m, levels[..n], key);
    }
  }

  /** Of the levels of a snapshot, the last positive one of each key enters the book. */
  lemma {:induction false} LastPositiveIsLoaded(levels: seq<Level>, i: nat)
    requires i < |levels| && levels[i].qty > 0.0
    requires forall j :: i < j < |levels| && levels[j].key == levels[i].key ==> levels[j].qty <= 0.0
    ensures levels[i].key in LoadSide(levels) && LoadSide(levels)[levels[i].key] == levels[i].qty
  {
    var n := |levels| - 1;
    if i < n {
      assert forall j :: 0 <= j < n ==> levels[..n][j] == levels[j];
      LastPositiveIsLoaded(levels[..n], i);
    }
  }

  /** A key without a positive level does not enter the book. */
  lemma {:induction false} OnlyPositiveIsLoaded(levels: seq<Level>, key: nat)
    requires forall i :: 0 <= i < |levels| && levels[i].key == key ==> levels[i].qty <= 0.0
    ensures key !in LoadSide(levels)
  {
    if levels != [] {
      var n := |levels| - 1;
      assert forall i :: 0 <= i < n ==> levels[..n][i] == levels[i];
      OnlyPositiveIsLoaded(levels[..n], key);
    }
  }

  function ApplyAll(b: BookState, events: seq<DepthUpdate>): BookState
    decreases |events|
  {
    if events == [] then b else ApplyAll(ApplyEvent(b, events[0]), events[1..])
  }

  /** Each event continues the one before it. */
  ghost predicate Linked(events: seq<DepthUpdate>) {
    forall i :: 0 < i < |events| ==> events[i].prevLastId == events[i - 1].lastId
  }

  /** A replay applies the longest linked run of events, whatever the first one's pu is, and nothing after it. */
  lemma {:induction false} ReplayStopsAtFirstBreak(b: BookState, first: bool, events: seq<DepthUpdate>) returns (k: nat)
    requires b.sync.Live?
    ensures k <= |events| && Replay(b, first, events) == ApplyAll(b, events[..k]) && Linked(events[..k])
    ensures first && events != [] ==> k > 0
    ensures !first && k > 0 ==> events[0].prevLastId == b.sync.lastUpdateId
    ensures k < |events| && k > 0 ==> events[k].prevLastId != events[k - 1].lastId
    ensures k < |events| && k == 0 ==> events[0].prevLastId != b.sync.lastUpdateId
    decreases |events|
  {
    if events == [] || (!first && events[0].prevLastId != b.sync.lastUpdateId) {
      k := 0;
    } else {
      var rest := events[1..];
      var k' := ReplayStopsAtFirstBreak(ApplyEvent(b, events[0]), false, rest);
      k := k' + 1;
      assert events[..k][1..] == rest[..k'];
      forall i | 0 < i < k
        ensures events[i].prevLastId == events[i - 1].lastId
      {
        assert i > 1 ==> rest[..k'][i - 1] == events[i] && rest[..k'][i - 2] == events[i - 1];
      }
    }
  }

  // ---------- Agreement with the exchange ----------

  /** The local book is the true book at its id, or an empty one that buffers genuine events. */
  ghost predicate Agrees(h: History, b: BookState) {
    match b.sync
    case Live(l) => l <= |h| && b.bids == TrueSide(h, Bid, l) && b.asks == TrueSide(h, Ask, l)
    case Buffering(buffer) =>
      b.bids == b.asks == map[] && forall i :: 0 <= i < |buffer| ==> GenuineUpdate(h, buffer[i])
  }

  /** Applying levels that carry the quantities of `m'` sets exactly the mentioned keys to them. */
  lemma {:induction false} ApplySetsMentioned(m: map<nat, real>, levels: seq<Level>, m': map<nat, real>, key: nat)
    requires Carries(levels, m') && forall k :: k in m' ==> m'[k] > 0.0
    ensures var r := ApplySide(m, levels); var src := if Mentions(levels, key) then m' else m;
      (key in r <==> key in src) && (key in r ==> r[key] == src[key])
  {
    if levels != [] {
      var n := |levels| - 1;
      ApplySetsMentioned(m, levels[..n], m', key);
      if Mentions(levels, key) && levels[n].key != key {
        var i :| 0 <= i < |levels| && levels[i].key == key;
        assert levels[..n][i].key == key;
      }
      if Mentions(levels[..n], key) {
        var i :| 0 <= i < n && levels[..n][i].key == key;
        assert levels[i].key == key;
      }
      assert levels[n].key == key ==> Mentions(levels, key);
    }
  }

  /** A genuine diff over (pu, u] takes the true side at any id of [pu, u] to the true side at u. */
  lemma DiffReachesTruth(h: History, side: Side, levels: seq<Level>, pu: nat, l: nat, u: nat)
    requires pu <= l <= u <= |h| && GenuineDiff(h, side, levels, pu, u)
    ensures ApplySide(TrueSide(h, side, l), levels) == TrueSide(h, side, u)
  {
    var before, after := TrueSide(h, side, l), TrueSide(h, side, u);
    var r := ApplySide(before, levels);
    forall key: nat
      ensures (key in r <==> key in after) && (key in r ==> r[key] == after[key])
    {
      ApplySetsMentioned(before, levels, after, key);
      if !Mentions(levels, key) {
        assert !Touched(h, side, pu, u, key);
        assert !Touched(h, side, l, u, key);
        UntouchedIsUnchanged(h, side, l, u, key);
      }
    }
    assert forall key :: key in r <==> key in after;
    assert r.Keys == after.Keys;
  }

  lemma EventReachesTruth(h: History, b: BookState, e: DepthUpdate)
    requires Agrees(h, b) && b.sync.Live? && GenuineUpdate(h, e)
    requires e.prevLastId <= b.sync.lastUpdateId <= e.lastId
    ensures Agrees(h, ApplyEvent(b, e))
  {
    DiffReachesTruth(h, Bid, e.bids, e.prevLastId, b.sync.lastUpdateId, e.lastId);
    DiffReachesTruth(h, Ask, e.asks, e.prevLastId, b.sync.lastUpdateId, e.lastId);
  }

  lemma {:induction false} LoadIsApply(levels: seq<Level>, m: map<nat, real>)
    requires Carries(levels, m) && forall k :: k in m ==> m[k] > 0.0
    ensures LoadSide(levels).Keys <= m.Keys
    ensures forall k :: k in LoadSide(levels) ==> LoadSide(levels)[k] == m[k]
    ensures forall k :: k in m && Mentions(levels, k) ==> k in LoadSide(levels)
  {
    if levels != [] {
      var n := |levels| - 1;
      LoadIsApply(levels[..n], m);
      forall k | k in m && Mentions(levels, k)
        ensures k in LoadSide(levels)
      {
        var i :| 0 <= i < |levels| && levels[i].key == k;
        if i < n {
          assert levels[..n][i].key == k;
        }
      }
    }
  }

  lemma SnapshotLoadsTruth(levels: seq<Level>, m: map<nat, real>)
    requires Lists(levels, m) && forall k :: k in m ==> m[k] > 0.0
    ensures LoadSide(levels) == m
  {
    LoadIsApply(levels, m);
  }

  /** Replaying genuine events agrees, wherever the replay stops. */
  lemma {:induction false} ReplayAgrees(h: History, b: BookState, first: bool, events: seq<DepthUpdate>)
    requires Agrees(h, b) && b.sync.Live?
    requires forall i :: 0 <= i < |events| ==> GenuineUpdate(h, events[i])
    requires first && events != [] ==> events[0].prevLastId <= b.sync.lastUpdateId <= events[0].lastId
    ensures Agrees(h, Replay(b, first, events)) && Replay(b, first, events).sync.Live?
    decreases |events|
  {
    if !(events == [] || (!first && events[0].prevLastId != b.sync.lastUpdateId)) {
      EventReachesTruth(h, b, events[0]);
      ReplayAgrees(h, ApplyEvent(b, events[0]), false, events[1..]);
    }
  }

  lemma {:induction false} ValidEventsAreASuffix(buffer: seq<DepthUpdate>, s: nat)
    ensures |ValidEvents(buffer, s)| <= |buffer|
    ensures ValidEvents(buffer, s) == buffer[|buffer| - |ValidEvents(buffer, s)|..]
    ensures ValidEvents(buffer, s) != [] ==> Spans(ValidEvents(buffer, s)[0], s)
    ensures forall i :: 0 <= i < |buffer| - |ValidEvents(buffer, s)| ==> !Spans(buffer[i], s)
  {
    if !(buffer == [] || Spans(buffer[0], s)) {
      ValidEventsAreASuffix(buffer[1..], s);
      forall i | 0 <= i < |buffer| - |ValidEvents(buffer, s)|
        ensures !Spans(buffer[i], s)
      {
        assert i > 0 ==> buffer[i] == buffer[1..][i - 1];
      }
    }
  }

  /** A genuine snapshot makes the book live and right, whatever was buffered or live before. */
  lemma SnapshotAgrees(h: History, b: BookState, s: DepthSnapshot)
    requires Agrees(h, b) && GenuineSnapshot(h, s)
    ensures Agrees(h, OnSnapshot(b, s)) && OnSnapshot(b, s).sync.Live?
  {
    var id := s.lastUpdateId;
    SnapshotLoadsTruth(s.bids, TrueSide(h, Bid, id));
    SnapshotLoadsTruth(s.asks, TrueSide(h, Ask, id));
    var buffer := if b.sync.Buffering? then b.sync.buffer else [];
    ValidEventsAreASuffix(buffer, id);
    ReplayAgrees(h, BookState(LoadSide(s.bids), LoadSide(s.asks), Live(id)), true, ValidEvents(buffer, id));
  }

  lemma UpdateAgrees(h: History, b: BookState, e: DepthUpdate)
    requires Agrees(h, b) && GenuineUpdate(h, e)
    ensures Agrees(h, OnUpdate(b, e).book)
  {
    if OnUpdate(b, e).applied {
      EventReachesTruth(h, b, e);
    }
  }

  /**
   On a live book at id l, an event over (pu, u] is applied exactly when it covers l + 1, changes nothing
   exactly when it ends at or before l, and is a gap exactly when it starts beyond l.
   */
  lemma UpdateOutcomeByRange(b: BookState, e: DepthUpdate)
    requires b.sync.Live? && e.prevLastId < e.lastId
    ensures var l, r := b.sync.lastUpdateId, OnUpdate(b, e);
      && (r.applied <==> e.prevLastId <= l < e.lastId)
      && (r.gap <==> l < e.prevLastId)
      && (e.lastId <= l ==> r.book == b)
      && (r.applied ==> r.book.sync == Live(e.lastId))
      && (r.gap ==> r.book == EMPTY_BOOK)
  {
  }

  /** Anything that can reach the book: diffs and snapshots in any order, and resets. */
  datatype Input = Diff(e: DepthUpdate) | Snap(s: DepthSnapshot) | Restart

  ghost predicate Genuine(h: History, i: Input) {
    match i
    case Diff(e) => GenuineUpdate(h, e)
    case Snap(s) => GenuineSnapshot(h, s)
    case Restart => true
  }

  function Receive(b: BookState, i: Input): BookState {
    match i
    case Diff(e) => OnUpdate(b, e).book
    case Snap(s) => OnSnapshot(b, s)
    case Restart => EMPTY_BOOK
  }

  function ReceiveAll(b: BookState, inputs: seq<Input>): BookState
    decreases |inputs|
  {
    if inputs == [] then b else ReceiveAll(Receive(b, inputs[0]), inputs[1..])
  }

  /**
   For every sequence of genuine diffs and snapshots -- with any of them lost, duplicated,
   reordered or overlapping, and with resets anywhere -- a live book is the true book at its id.
   */
  lemma {:induction false} Agreement(h: History, b: BookState, inputs: seq<Input>)
    requires Agrees(h, b)
    requires forall i :: 0 <= i < |inputs| ==> Genuine(h, inputs[i])
    ensures Agrees(h, ReceiveAll(b, inputs))
    decreases |inputs|
  {
    if inputs != [] {
      match inputs[0] {
        case Diff(e) => UpdateAgrees(h, b, e);
        case Snap(s) => SnapshotAgrees(h, b, s);
        case Restart =>
      }
      Agreement(h, Receive(b, inputs[0]), inputs[1..]);
    }
  }

  /** Two books that are live at the same id are equal, whatever each of them received. */
  lemma ReplicasConverge(h: History, inputs: seq<Input>, inputs': seq<Input>)
    requires forall i :: 0 <= i < |inputs| ==> Genuine(h, inputs[i])
    requires forall i :: 0 <= i < |inputs'| ==> Genuine(h, inputs'[i])
    requires ReceiveAll(EMPTY_BOOK, inputs).sync.Live?
    requires ReceiveAll(EMPTY_BOOK, inputs).sync == ReceiveAll(EMPTY_BOOK, inputs').sync
    ensures ReceiveAll(EMPTY_BOOK, inputs) == ReceiveAll(EMPTY_BOOK, inputs')
  {
    Agreement(h, EMPTY_BOOK, inputs);
    Agreement(h, EMPTY_BOOK, inputs');
  }

  // ---------- Exact loss detection ----------

  function Max(a: nat, b: nat): nat {
    if a < b then b else a
  }

  /** The book after a run of diffs, and whether any of them raised the resync flag. */
  function FeedAll(b: BookState, events: seq<DepthUpdate>): (BookState, bool)
    decreases |events|
  {
    if events == [] then
      (b, false)
    else
      var r := OnUpdate(b, events[0]);
      var (book, gap) := FeedAll(r.book, events[1..]);
      (book, r.gap || gap)
  }

  /** How many of the events arrive before the first one that starts beyond all that was covered. */
  function GapFreePrefix(l: nat, events: seq<DepthUpdate>): (k: nat)
    ensures k <= |events|
    decreases |events|
  {
    if events == [] || events[0].prevLastId > l then
      0
    else
      1 + GapFreePrefix(Max(l, events[0].lastId), events[1..])
  }

  predicate GapFree(l: nat, events: seq<DepthUpdate>) {
    GapFreePrefix(l, events) == |events|
  }

  /** The highest id covered. */
  function Covered(l: nat, events: seq<DepthUpdate>): nat
    decreases |events|
  {
    if events == [] then l else Covered(Max(l, events[0].lastId), events[1..])
  }

  lemma {:induction false} BufferingKeepsAll(b: BookState, events: seq<DepthUpdate>)
    requires b.sync.Buffering?
    ensures FeedAll(b, events) == (b.(sync := Buffering(b.sync.buffer + events)), false)
    decreases |events|
  {
    if events == [] {
      assert b.sync.buffer + events == b.sync.buffer;
    } else {
      BufferingKeepsAll(OnUpdate(b, events[0]).book, events[1..]);
      assert b.sync.buffer + [events[0]] + events[1..] == b.sync.buffer + events;
    }
  }

  /**
   A live book fed any genuine events raises the resync flag exactly when one of them starts
   beyond all that was covered. Until then it is the true book at the highest covered id; after
   that it is an empty book that has buffered exactly the events behind the gap.
   */
  lemma {:induction false} LiveRun(h: History, b: BookState, events: seq<DepthUpdate>)
    requires Agrees(h, b) && b.sync.Live?
    requires forall i :: 0 <= i < |events| ==> GenuineUpdate(h, events[i])
    ensures var l := b.sync.lastUpdateId; var (book, gap) := FeedAll(b, events); var k := GapFreePrefix(l, events);
      && (gap <==> !GapFree(l, events))
      && (!gap ==> book.sync == Live(Covered(l, events)) && Agrees(h, book))
      && (gap ==> k < |events| && book == EMPTY_BOOK.(sync := Buffering(events[k + 1..])))
    decreases |events|
  {
    hide GenuineDiff, Agrees, ApplyEvent, OnUpdate;
    if events != [] {
      var l, e, r := b.sync.lastUpdateId, events[0], OnUpdate(b, events[0]);
      UpdateOutcomeByRange(b, e);
      UpdateAgrees(h, b, e);
      if e.prevLastId > l {
        BufferingKeepsAll(EMPTY_BOOK, events[1..]);
        assert EMPTY_BOOK.sync.buffer + events[1..] == events[1..];
      } else {
        assert r.book.sync == Live(Max(l, e.lastId)) && !r.gap;
        LiveRun(h, r.book, events[1..]);
        var k := GapFreePrefix(Max(l, e.lastId), events[1..]);
        assert k + 1 <= |events| - 1 ==> events[1..][k + 1..] == events[k + 2..];
      }
    }
  }

  /** An in-order, lossless stream of events. */
  ghost predicate Chain(events: seq<DepthUpdate>) {
    && (forall i :: 0 <= i < |events| ==> events[i].prevLastId < events[i].firstId <= events[i].lastId)
    && (forall i :: 0 < i < |events| ==> events[i].prevLastId == events[i - 1].lastId)
  }

  lemma {:induction false} ChainIsOrdered(events: seq<DepthUpdate>, i: nat, j: nat)
    requires Chain(events) && i < j < |events|
    ensures events[i].lastId <= events[j].prevLastId
    decreases j
  {
    if i + 1 < j {
      ChainIsOrdered(events, i, j - 1);
    }
  }

  ghost predicate Increasing(picks: seq<nat>, from: nat, below: nat) {
    && (forall i :: 0 <= i < |picks| ==> from <= picks[i] < below)
    && (forall i, j :: 0 <= i < j < |picks| ==> picks[i] < picks[j])
  }

  /** The sub-stream that is actually delivered. */
  function Delivered(stream: seq<DepthUpdate>, picks: seq<nat>): seq<DepthUpdate>
    requires forall i :: 0 <= i < |picks| ==> picks[i] < |stream|
  {
    seq(|picks|, i requires 0 <= i < |picks| => stream[picks[i]])
  }

  /** An event that adds something beyond id l was not delivered, although a later one was. */
  ghost predicate Missing(stream: seq<DepthUpdate>, picks: seq<nat>, l: nat, from: nat, m: nat) {
    && from <= m < |stream| && m !in picks && stream[m].lastId > l
    && picks != [] && m < picks[|picks| - 1]
  }

  lemma {:induction false} GapFreeIffNoneMissing(stream: seq<DepthUpdate>, picks: seq<nat>, l: nat, from: nat)
    requires Chain(stream) && Increasing(picks, from, |stream|)
    requires from < |stream| ==> stream[from].prevLastId <= l
    ensures GapFree(l, Delivered(stream, picks)) <==> forall m :: !Missing(stream, picks, l, from, m)
    decreases |picks|
  {
    if picks != [] {
      var j, rest := picks[0], picks[1..];
      var events := Delivered(stream, picks);
      assert events[0] == stream[j] && events[1..] == Delivered(stream, rest);
      if stream[j].prevLastId > l {
        assert j > from;
        assert Missing(stream, picks, l, from, j - 1);
      } else {
        var l', next := Max(l, stream[j].lastId), j + 1;
        GapFreeIffNoneMissing(stream, rest, l', next);
        assert GapFree(l, events) <==> GapFree(l', Delivered(stream, rest));
        forall m: nat
          ensures Missing(stream, picks, l, from, m) <==> Missing(stream, rest, l', next, m)
        {
          assert m in picks <==> m == j || m in rest;
          if from <= m < j {
            ChainIsOrdered(stream, m, j);
          }
          if j < m < |stream| {
            ChainIsOrdered(stream, j, m);
          }
        }
      }
    }
  }

  /**
   No undetected loss, and no false alarm: feed a live book any part of the exchange's in-order
   stream. The resync flag is raised if and only if an event is missing whose changes the book
   did not already have. If none is, the book is live and right at the highest delivered id.
   */
  lemma LossIsDetectedExactly(h: History, b: BookState, stream: seq<DepthUpdate>, picks: seq<nat>)
    requires Agrees(h, b) && b.sync.Live?
    requires Chain(stream) && forall i :: 0 <= i < |stream| ==> GenuineUpdate(h, stream[i])
    requires Increasing(picks, 0, |stream|)
    requires stream != [] ==> stream[0].prevLastId <= b.sync.lastUpdateId
    ensures var l := b.sync.lastUpdateId; var (book, gap) := FeedAll(b, Delivered(stream, picks));
      && (gap <==> exists m :: Missing(stream, picks, l, 0, m))
      && (gap ==> book.sync.Buffering? && book.bids == book.asks == map[])
      && (!gap ==> Agrees(h, book) && book.sync == Live(Covered(l, Delivered(stream, picks))))
  {
    LiveRun(h, b, Delivered(stream, picks));
    GapFreeIffNoneMissing(stream, picks, b.sync.lastUpdateId, 0);
  }

  // ---------- Coalescing ----------

  /** One event that stands for two adjacent ones. */
  ghost predicate Coalesces(e: DepthUpdate, e1: DepthUpdate, e2: DepthUpdate) {
    e.prevLastId == e1.prevLastId && e1.lastId == e2.prevLastId && e.lastId == e2.lastId
  }

  /**
   On a live book, replacing two adjacent genuine events of a stream of diffs by one genuine event
   over both ranges never changes whether a gap is found nor the book that a gap-free run ends with.
   */
  lemma {:induction false} CoalescingChangesNothing(
      h: History, b: BookState, before: seq<DepthUpdate>,
      e: DepthUpdate, e1: DepthUpdate, e2: DepthUpdate, after: seq<DepthUpdate>)
    requires Agrees(h, b) && b.sync.Live? && Coalesces(e, e1, e2)
    requires forall i :: 0 <= i < |before| ==> GenuineUpdate(h, before[i])
    requires forall i :: 0 <= i < |after| ==> GenuineUpdate(h, after[i])
    requires GenuineUpdate(h, e) && GenuineUpdate(h, e1) && GenuineUpdate(h, e2)
    ensures FeedAll(b, before + [e] + after).1 == FeedAll(b, before + [e1, e2] + after).1
    ensures !FeedAll(b, before + [e] + after).1
      ==> FeedAll(b, before + [e] + after) == FeedAll(b, before + [e1, e2] + after)
  {
    var one, two := before + [e] + after, before + [e1, e2] + after;
    CoverageOfCoalesced(b.sync.lastUpdateId, before, e, e1, e2, after);
    LiveRun(h, b, one);
    LiveRun(h, b, two);
  }

  lemma {:induction false} CoverageOfCoalesced(
      l: nat, before: seq<DepthUpdate>, e: DepthUpdate, e1: DepthUpdate, e2: DepthUpdate, after: seq<DepthUpdate>)
    requires Coalesces(e, e1, e2) && e1.prevLastId <= e1.lastId <= e2.lastId
    ensures GapFree(l, before + [e] + after) <==> GapFree(l, before + [e1, e2] + after)
    ensures Covered(l, before + [e] + after) == Covered(l, before + [e1, e2] + after)
    decreases |before|
  {
    var one, two := before + [e] + after, before + [e1, e2] + after;
    if before == [] {
      assert one[1..] == after;
      assert two[1..] == [e2] + after && ([e2] + after)[1..] == after;
      if e.prevLastId <= l {
        var l' := Max(l, e1.lastId);
        assert GapFreePrefix(l, one) == 1 + GapFreePrefix(Max(l, e.lastId), after);
        assert GapFreePrefix(l, two) == 1 + GapFreePrefix(l', [e2] + after);
        assert GapFreePrefix(l', [e2] + after) == 1 + GapFreePrefix(Max(l', e2.lastId), after);
        assert Covered(l, two) == Covered(l', [e2] + after);
      }
    } else {
      assert one[1..] == before[1..] + [e] + after && two[1..] == before[1..] + [e1, e2] + after;
      CoverageOfCoalesced(Max(l, before[0].lastId), before[1..], e, e1, e2, after);
    }
  }

  ghost predicate AllGenuine(h: History, events: seq<DepthUpdate>) {
    forall i :: 0 <= i < |events| ==> GenuineUpdate(h, events[i])
  }

  lemma {:induction false} ValidEventsOfConcat(before: seq<DepthUpdate>, rest: seq<DepthUpdate>, s: nat)
    ensures var valid := ValidEvents(before, s);
      ValidEvents(before + rest, s) == if valid != [] then valid + rest else ValidEvents(rest, s)
    decreases |before|
  {
    if before == [] {
      assert [] + rest == rest;
    } else if !Spans(before[0], s) {
      assert (before + rest)[1..] == before[1..] + rest;
      ValidEventsOfConcat(before[1..], rest, s);
    }
  }

  /** Over a range that starts in or before the book's id, one event and its two halves lead to the same book. */
  lemma HalvesReachTheSame(h: History, b: BookState, e: DepthUpdate, e1: DepthUpdate, e2: DepthUpdate)
    requires Agrees(h, b) && b.sync.Live? && Coalesces(e, e1, e2)
    requires GenuineUpdate(h, e) && GenuineUpdate(h, e1) && GenuineUpdate(h, e2)
    requires e.prevLastId <= b.sync.lastUpdateId <= e.lastId
    ensures b.sync.lastUpdateId <= e1.lastId ==> ApplyEvent(ApplyEvent(b, e1), e2) == ApplyEvent(b, e)
    ensures e1.lastId <= b.sync.lastUpdateId ==> ApplyEvent(b, e2) == ApplyEvent(b, e)
  {
    hide GenuineDiff, ApplySide, TrueSide;
    EventReachesTruth(h, b, e);
    if b.sync.lastUpdateId <= e1.lastId {
      EventReachesTruth(h, b, e1);
      EventReachesTruth(h, ApplyEvent(b, e1), e2);
    }
    if e1.lastId <= b.sync.lastUpdateId {
      EventReachesTruth(h, b, e2);
    }
  }

  lemma {:induction false} ReplayOfCoalesced(
      h: History, b: BookState, first: bool, before: seq<DepthUpdate>,
      e: DepthUpdate, e1: DepthUpdate, e2: DepthUpdate, after: seq<DepthUpdate>)
    requires Agrees(h, b) && b.sync.Live? && AllGenuine(h, before) && Coalesces(e, e1, e2)
    requires GenuineUpdate(h, e) && GenuineUpdate(h, e1) && GenuineUpdate(h, e2)
    requires first ==> var head := (before + [e1])[0]; head.prevLastId <= b.sync.lastUpdateId <= head.lastId
    ensures Replay(b, first, before + [e] + after) == Replay(b, first, before + [e1, e2] + after)
    decreases |before|
  {
    hide GenuineDiff, ApplySide, TrueSide;
    var one, two := before + [e] + after, before + [e1, e2] + after;
    if before == [] {
      assert one[0] == e && one[1..] == after;
      assert two[0] == e1 && two[1..] == [e2] + after && ([e2] + after)[0] == e2 && ([e2] + after)[1..] == after;
      if first || e.prevLastId == b.sync.lastUpdateId {
        HalvesReachTheSame(h, b, e, e1, e2);
        var half := ApplyEvent(b, e1);
        assert Replay(b, first, two) == Replay(half, false, [e2] + after);
        assert Replay(half, false, [e2] + after) == Replay(ApplyEvent(half, e2), false, after);
      }
    } else {
      assert (before + [e1])[0] == before[0];
      assert one[1..] == before[1..] + [e] + after && two[1..] == before[1..] + [e1, e2] + after;
      if first || before[0].prevLastId == b.sync.lastUpdateId {
        EventReachesTruth(h, b, before[0]);
        ReplayOfCoalesced(h, ApplyEvent(b, before[0]), false, before[1..], e, e1, e2, after);
      }
    }
  }

  /** The merged event spans the id after the snapshot exactly when one of its halves does. */
  predicate SameSpan(e: DepthUpdate, e1: DepthUpdate, e2: DepthUpdate, s: nat) {
    Spans(e, s) <==> Spans(e1, s) || Spans(e2, s)
  }

  /** A snapshot on the two buffers that differ in the merge leads to the same book. */
  predicate SameReplay(
      s: DepthSnapshot, before: seq<DepthUpdate>,
      e: DepthUpdate, e1: DepthUpdate, e2: DepthUpdate, after: seq<DepthUpdate>)
  {
    OnSnapshot(EMPTY_BOOK.(sync := Buffering(before + [e] + after)), s)
      == OnSnapshot(EMPTY_BOOK.(sync := Buffering(before + [e1, e2] + after)), s)
  }

  /** The book as the snapshot alone leaves it. */
  function Loaded(s: DepthSnapshot): BookState {
    BookState(LoadSide(s.bids), LoadSide(s.asks), Live(s.lastUpdateId))
  }

  lemma SnapshotReplaysValid(buffer: seq<DepthUpdate>, s: DepthSnapshot)
    ensures OnSnapshot(EMPTY_BOOK.(sync := Buffering(buffer)), s)
      == Replay(Loaded(s), true, ValidEvents(buffer, s.lastUpdateId))
  {
  }

  lemma LoadedAgrees(h: History, s: DepthSnapshot)
    requires GenuineSnapshot(h, s)
    ensures Agrees(h, Loaded(s))
  {
    SnapshotLoadsTruth(s.bids, TrueSide(h, Bid, s.lastUpdateId));
    SnapshotLoadsTruth(s.asks, TrueSide(h, Ask, s.lastUpdateId));
  }

  lemma ValidAfterMerge(e: DepthUpdate, e1: DepthUpdate, e2: DepthUpdate, after: seq<DepthUpdate>, s: nat)
    ensures ValidEvents([e] + after, s) == if Spans(e, s) then [e] + after else ValidEvents(after, s)
    ensures ValidEvents([e1, e2] + after, s)
      == if Spans(e1, s) then [e1, e2] + after else if Spans(e2, s) then [e2] + after else ValidEvents(after, s)
  {
    assert ([e] + after)[1..] == after;
    assert ([e1, e2] + after)[1..] == [e2] + after && ([e2] + after)[1..] == after;
    assert ValidEvents([e2] + after, s) == if Spans(e2, s) then [e2] + after else ValidEvents(after, s);
  }

  /** The valid part of a buffer `before + middle + after`, when some event of `before` spans, and when none does. */
  lemma ValidOfThree(before: seq<DepthUpdate>, middle: seq<DepthUpdate>, after: seq<DepthUpdate>, s: nat)
    ensures var valid := ValidEvents(before, s);
      ValidEvents(before + middle + after, s)
        == if valid != [] then valid + middle + after else ValidEvents(middle + after, s)
  {
    hide ValidEvents;
    var valid := ValidEvents(before, s);
    assert before + middle + after == before + (middle + after);
    assert valid + middle + after == valid + (middle + after);
    ValidEventsOfConcat(before, middle + after, s);
  }

  lemma {:induction false} SameSpanReplaysTheSame(
      h: History, s: DepthSnapshot, before: seq<DepthUpdate>,
      e: DepthUpdate, e1: DepthUpdate, e2: DepthUpdate, after: seq<DepthUpdate>)
    requires GenuineSnapshot(h, s) && AllGenuine(h, before) && Coalesces(e, e1, e2)
    requires GenuineUpdate(h, e) && GenuineUpdate(h, e1) && GenuineUpdate(h, e2)
    requires ValidEvents(before, s.lastUpdateId) != [] || SameSpan(e, e1, e2, s.lastUpdateId)
    ensures SameReplay(s, before, e, e1, e2, after)
  {
    hide GenuineSnapshot, GenuineUpdate, AllGenuine, Coalesces, Agrees;
    hide Loaded, Replay, ValidEvents, OnSnapshot, ApplyEvent;
    var b, id := Loaded(s), s.lastUpdateId;
    var valid := ValidEvents(before, id);
    LoadedAgrees(h, s);
    LoadedIsLive(s);
    SnapshotReplaysValid(before + [e] + after, s);
    SnapshotReplaysValid(before + [e1, e2] + after, s);
    ValidOfThree(before, [e], after, id);
    ValidOfThree(before, [e1, e2], after, id);
    ValidAfterMerge(e, e1, e2, after, id);
    if valid != [] {
      ValidIsGenuine(h, before, id);
      ReplayFromSpanning(h, b, valid, e, e1, e2, after);
    } else if Spans(e1, id) {
      FirstHalfSpans(h, b, e, e1, e2, after);
    } else if Spans(e2, id) {
      SecondHalfSpans(h, b, e, e1, e2);
      FirstIsApplied(b, e, after);
      FirstIsApplied(b, e2, after);
    }
  }

  lemma ValidIsGenuine(h: History, before: seq<DepthUpdate>, s: nat)
    requires AllGenuine(h, before) && ValidEvents(before, s) != []
    ensures AllGenuine(h, ValidEvents(before, s)) && Spans(ValidEvents(before, s)[0], s)
  {
    hide GenuineUpdate;
    ValidEventsAreASuffix(before, s);
  }

  lemma SpanningCoversId(h: History, e: DepthUpdate, s: nat)
    requires GenuineUpdate(h, e) && Spans(e, s)
    ensures e.prevLastId <= s <= e.lastId
  {
  }

  lemma ReplayFromSpanning(
      h: History, b: BookState, valid: seq<DepthUpdate>,
      e: DepthUpdate, e1: DepthUpdate, e2: DepthUpdate, after: seq<DepthUpdate>)
    requires Agrees(h, b) && b.sync.Live? && AllGenuine(h, valid) && Coalesces(e, e1, e2)
    requires GenuineUpdate(h, e) && GenuineUpdate(h, e1) && GenuineUpdate(h, e2)
    requires valid != [] && Spans(valid[0], b.sync.lastUpdateId)
    ensures Replay(b, true, valid + [e] + after) == Replay(b, true, valid + [e1, e2] + after)
  {
    hide GenuineDiff, Agrees, Replay, Coalesces;
    SpanningCoversId(h, valid[0], b.sync.lastUpdateId);
    assert (valid + [e1])[0] == valid[0];
    ReplayOfCoalesced(h, b, true, valid, e, e1, e2, after);
  }

  lemma FirstHalfSpans(
      h: History, b: BookState, e: DepthUpdate, e1: DepthUpdate, e2: DepthUpdate, after: seq<DepthUpdate>)
    requires Agrees(h, b) && b.sync.Live? && Coalesces(e, e1, e2)
    requires GenuineUpdate(h, e) && GenuineUpdate(h, e1) && GenuineUpdate(h, e2)
    requires Spans(e1, b.sync.lastUpdateId)
    ensures Replay(b, true, [e] + after) == Replay(b, true, [e1, e2] + after)
  {
    hide GenuineDiff, Agrees, Replay, Coalesces;
    SpanningCoversId(h, e1, b.sync.lastUpdateId);
    assert [] + [e] + after == [e] + after && [] + [e1, e2] + after == [e1, e2] + after && ([] + [e1])[0] == e1;
    ReplayOfCoalesced(h, b, true, [], e, e1, e2, after);
  }

  lemma SecondHalfSpans(h: History, b: BookState, e: DepthUpdate, e1: DepthUpdate, e2: DepthUpdate)
    requires Agrees(h, b) && b.sync.Live? && Coalesces(e, e1, e2)
    requires GenuineUpdate(h, e) && GenuineUpdate(h, e1) && GenuineUpdate(h, e2)
    requires Spans(e, b.sync.lastUpdateId) && Spans(e2, b.sync.lastUpdateId)
    ensures ApplyEvent(b, e) == ApplyEvent(b, e2)
  {
    hide GenuineDiff, Agrees, ApplyEvent;
    HalvesReachTheSame(h, b, e, e1, e2);
  }

  lemma LoadedIsLive(s: DepthSnapshot)
    ensures Loaded(s).sync == Live(s.lastUpdateId)
  {
  }

  lemma FirstIsApplied(b: BookState, e: DepthUpdate, after: seq<DepthUpdate>)
    requires b.sync.Live?
    ensures Replay(b, true, [e] + after) == Replay(ApplyEvent(b, e), false, after)
  {
    assert ([e] + after)[1..] == after;
  }

  /**
   Coalescing inside the replay of buffered events: merging two adjacent genuine events changes no
   replay, whatever else is buffered, if and only if the merged event spans the id after the snapshot
   exactly when one of its halves does.
   */
  lemma {:induction false} CoalescingInReplayIsExact(
      h: History, s: DepthSnapshot, e: DepthUpdate, e1: DepthUpdate, e2: DepthUpdate)
    requires GenuineSnapshot(h, s) && Coalesces(e, e1, e2)
    requires GenuineUpdate(h, e) && GenuineUpdate(h, e1) && GenuineUpdate(h, e2)
    ensures SameSpan(e, e1, e2, s.lastUpdateId) <==>
      forall before, after :: AllGenuine(h, before) && AllGenuine(h, after) ==> SameReplay(s, before, e, e1, e2, after)
  {
    hide SameReplay, GenuineSnapshot, GenuineDiff;
    if SameSpan(e, e1, e2, s.lastUpdateId) {
      forall before, after | AllGenuine(h, before) && AllGenuine(h, after)
        ensures SameReplay(s, before, e, e1, e2, after)
      {
        SameSpanReplaysTheSame(h, s, before, e, e1, e2, after);
      }
    } else {
      OtherSpanReplaysDifferently(s, [], e, e1, e2);
      assert AllGenuine(h, []);
    }
  }

  /** Otherwise the two events alone already end at another id than the merged one. */
  lemma OtherSpanReplaysDifferently(
      s: DepthSnapshot, before: seq<DepthUpdate>, e: DepthUpdate, e1: DepthUpdate, e2: DepthUpdate)
    requires Coalesces(e, e1, e2) && e2.prevLastId < e2.lastId && !SameSpan(e, e1, e2, s.lastUpdateId)
    requires ValidEvents(before, s.lastUpdateId) == []
    ensures !SameReplay(s, before, e, e1, e2, [])
  {
    hide Loaded, Replay, ValidEvents, OnSnapshot, ApplySide;
    var b, id := Loaded(s), s.lastUpdateId;
    LoadedIsLive(s);
    assert [e] + [] == [e] && [e1, e2] + [] == [e1, e2] && [e2] + [] == [e2];
    SnapshotReplaysValid(before + [e] + [], s);
    SnapshotReplaysValid(before + [e1, e2] + [], s);
    ValidOfThree(before, [e], [], id);
    ValidOfThree(before, [e1, e2], [], id);
    ValidAfterMerge(e, e1, e2, [], id);
    assert ValidEvents([], id) == [] by {
      ValidEventsAreASuffix([], id);
    }
    FirstIsApplied(b, e, []);
    FirstIsApplied(b, e1, [e2]);
    FirstIsApplied(b, e2, []);
    LinkedIsApplied(ApplyEvent(b, e1), e2);
    NothingToReplay(b, true);
    NothingToReplay(ApplyEvent(b, e), false);
    NothingToReplay(ApplyEvent(b, e2), false);
    assert [e1] + [e2] == [e1, e2];
  }

  lemma NothingToReplay(b: BookState, first: bool)
    requires b.sync.Live?
    ensures Replay(b, first, []) == b
  {
  }

  lemma LinkedIsApplied(b: BookState, e: DepthUpdate)
    requires b.sync.Live? && e.prevLastId == b.sync.lastUpdateId
    ensures Replay(b, false, [e]) == ApplyEvent(b, e)
  {
    assert [e][1..] == [];
  }

  /** The spans agree at every snapshot exactly when the ids leave no hole: U is e1's U, and e2 follows e1 at once. */
  lemma SameSpanEverywhere(e: DepthUpdate, e1: DepthUpdate, e2: DepthUpdate)
    requires Coalesces(e, e1, e2)
    requires e.prevLastId < e.firstId <= e.lastId
    requires e1.prevLastId < e1.firstId <= e1.lastId && e2.prevLastId < e2.firstId <= e2.lastId
    ensures (forall s :: SameSpan(e, e1, e2, s)) <==> e.firstId == e1.firstId && e2.firstId == e1.lastId + 1
  {
    if forall s :: SameSpan(e, e1, e2, s) {
      assert SameSpan(e, e1, e2, e.firstId - 1);
      assert SameSpan(e, e1, e2, e1.firstId - 1);
      assert SameSpan(e, e1, e2, e1.lastId);
    }
  }

  // ---------- Coalescing over whole runs ----------

  /** At every id, some event of the buffer spans it or the spans of the merge and its halves agree. */
  ghost predicate SpansAgreeBehind(buffer: seq<DepthUpdate>, e: DepthUpdate, e1: DepthUpdate, e2: DepthUpdate) {
    forall s: nat :: ValidEvents(buffer, s) != [] || SameSpan(e, e1, e2, s)
  }

  /** Two books that are equal, or that buffer the same events but for the merge. */
  ghost predicate SameButMerge(
      b: BookState, b': BookState, before: seq<DepthUpdate>, e: DepthUpdate, e1: DepthUpdate, e2: DepthUpdate)
  {
    b == b' || exists after :: MergedIn(b, b', before, e, e1, e2, after)
  }

  ghost predicate MergedIn(
      b: BookState, b': BookState, before: seq<DepthUpdate>,
      e: DepthUpdate, e1: DepthUpdate, e2: DepthUpdate, after: seq<DepthUpdate>)
  {
    && b == EMPTY_BOOK.(sync := Buffering(before + [e] + after))
    && b' == EMPTY_BOOK.(sync := Buffering(before + [e1, e2] + after))
  }

  ghost predicate AllInputsGenuine(h: History, inputs: seq<Input>) {
    forall i :: 0 <= i < |inputs| ==> Genuine(h, inputs[i])
  }

  lemma {:induction false} RunKeepsSameButMerge(
      h: History, b: BookState, b': BookState, before: seq<DepthUpdate>,
      e: DepthUpdate, e1: DepthUpdate, e2: DepthUpdate, inputs: seq<Input>)
    requires Coalesces(e, e1, e2) && GenuineUpdate(h, e) && GenuineUpdate(h, e1) && GenuineUpdate(h, e2)
    requires AllGenuine(h, before) && SpansAgreeBehind(before, e, e1, e2)
    requires SameButMerge(b, b', before, e, e1, e2) && AllInputsGenuine(h, inputs)
    ensures SameButMerge(ReceiveAll(b, inputs), ReceiveAll(b', inputs), before, e, e1, e2)
    decreases |inputs|
  {
    hide GenuineUpdate, OnSnapshot, AllGenuine;
    if inputs != [] {
      if b != b' {
        var after :| MergedIn(b, b', before, e, e1, e2, after);
        match inputs[0] {
          case Diff(x) =>
            assert before + [e] + after + [x] == before + [e] + (after + [x]);
            assert before + [e1, e2] + after + [x] == before + [e1, e2] + (after + [x]);
            assert MergedIn(Receive(b, inputs[0]), Receive(b', inputs[0]), before, e, e1, e2, after + [x]);
          case Snap(s) =>
            assert Genuine(h, inputs[0]);
            SameSpanReplaysTheSame(h, s, before, e, e1, e2, after);
          case Restart =>
        }
      }
      RunKeepsSameButMerge(h, Receive(b, inputs[0]), Receive(b', inputs[0]), before, e, e1, e2, inputs[1..]);
    }
  }

  /** Receiving the merged event, or the halves, and then the inputs. */
  lemma RunsOfMerge(b: BookState, e: DepthUpdate, e1: DepthUpdate, e2: DepthUpdate, inputs: seq<Input>)
    ensures ReceiveAll(b, [Diff(e)] + inputs) == ReceiveAll(OnUpdate(b, e).book, inputs)
    ensures ReceiveAll(b, [Diff(e1), Diff(e2)] + inputs)
      == ReceiveAll(OnUpdate(OnUpdate(b, e1).book, e2).book, inputs)
  {
    hide OnUpdate;
    var half := OnUpdate(b, e1).book;
    assert ([Diff(e)] + inputs)[1..] == inputs;
    assert ([Diff(e1), Diff(e2)] + inputs)[1..] == [Diff(e2)] + inputs && ([Diff(e2)] + inputs)[1..] == inputs;
    assert ReceiveAll(half, [Diff(e2)] + inputs) == ReceiveAll(OnUpdate(half, e2).book, inputs);
  }

  /**
   When two adjacent events can be merged as they arrive on this book: a live book must not be behind
   their range, and in a buffer their spans must agree at each id that no earlier buffered event spans.
   */
  ghost predicate MergesHere(b: BookState, e: DepthUpdate, e1: DepthUpdate, e2: DepthUpdate) {
    match b.sync
    case Live(l) => e.prevLastId <= l
    case Buffering(buffer) => SpansAgreeBehind(buffer, e, e1, e2)
  }

  /** The merged event instead of its halves leads, through these later inputs, to the same live book if to any. */
  ghost predicate SameLiveBook(
      b: BookState, e: DepthUpdate, e1: DepthUpdate, e2: DepthUpdate, inputs: seq<Input>)
  {
    var one, two := ReceiveAll(b, [Diff(e)] + inputs), ReceiveAll(b, [Diff(e1), Diff(e2)] + inputs);
    one.sync.Live? || two.sync.Live? ==> one == two
  }

  lemma MergeReachesTheSame(
      h: History, b: BookState, e: DepthUpdate, e1: DepthUpdate, e2: DepthUpdate, inputs: seq<Input>)
    requires Agrees(h, b) && MergesHere(b, e, e1, e2) && AllInputsGenuine(h, inputs)
    requires Coalesces(e, e1, e2) && GenuineUpdate(h, e) && GenuineUpdate(h, e1) && GenuineUpdate(h, e2)
    ensures SameLiveBook(b, e, e1, e2, inputs)
    ensures var one, two := ReceiveAll(b, [Diff(e)] + inputs), ReceiveAll(b, [Diff(e1), Diff(e2)] + inputs);
      one == two || (b.sync.Buffering? && SameButMerge(one, two, b.sync.buffer, e, e1, e2))
  {
    hide GenuineDiff, GenuineSnapshot, ApplySide, OnSnapshot, ReceiveAll, SpansAgreeBehind;
    var one, two := OnUpdate(b, e).book, OnUpdate(OnUpdate(b, e1).book, e2).book;
    RunsOfMerge(b, e, e1, e2, inputs);
    if b.sync.Live? {
      if b.sync.lastUpdateId <= e.lastId {
        HalvesReachTheSame(h, b, e, e1, e2);
      }
      assert one == two;
    } else {
      var buffer := b.sync.buffer;
      assert buffer + [e1] + [e2] == buffer + [e1, e2] + [] && buffer + [e] == buffer + [e] + [];
      assert MergedIn(one, two, buffer, e, e1, e2, []);
      RunKeepsSameButMerge(h, one, two, buffer, e, e1, e2, inputs);
    }
  }

  lemma {:induction false} SideCanBeListed(m: map<nat, real>) returns (levels: seq<Level>)
    ensures Lists(levels, m) && forall i :: 0 <= i < |levels| ==> levels[i].key in m
    decreases |m|
  {
    if m == map[] {
      levels := [];
    } else {
      var key :| key in m;
      var rest := SideCanBeListed(m - {key});
      levels := rest + [Level(key, m[key])];
      assert levels[|rest|].key == key;
      forall k | k in m
        ensures Mentions(levels, k)
      {
        if k != key {
          assert k in m - {key};
          var i :| 0 <= i < |rest| && rest[i].key == k;
          assert levels[i].key == k;
        }
      }
    }
  }

  /** There is a genuine snapshot at every id. */
  lemma SnapshotExists(h: History, id: nat) returns (s: DepthSnapshot)
    requires id <= |h|
    ensures GenuineSnapshot(h, s) && s.lastUpdateId == id
  {
    var bids := SideCanBeListed(TrueSide(h, Bid, id));
    var asks := SideCanBeListed(TrueSide(h, Ask, id));
    s := DepthSnapshot(id, bids, asks);
  }

  /**
   On a live book behind the range both find the gap, but the second half stays in the buffer and the merge
   does not: a snapshot just before it leaves one book live there, and the other at the end of the range.
   */
  lemma GapSeparatesHalves(h: History, b: BookState, e: DepthUpdate, e1: DepthUpdate, e2: DepthUpdate)
      returns (s: DepthSnapshot)
    requires b.sync.Live? && b.sync.lastUpdateId < e.prevLastId && Coalesces(e, e1, e2)
    requires GenuineUpdate(h, e) && GenuineUpdate(h, e1) && GenuineUpdate(h, e2)
    ensures GenuineSnapshot(h, s)
    ensures ReceiveAll(b, [Diff(e), Snap(s)]).sync == Live(e2.firstId - 1)
    ensures ReceiveAll(b, [Diff(e1), Diff(e2), Snap(s)]).sync == Live(e2.lastId)
  {
    hide GenuineDiff, GenuineSnapshot;
    var id: nat := e2.firstId - 1;
    s := SnapshotExists(h, id);
    assert OnUpdate(b, e).book == EMPTY_BOOK;
    assert [] + [e2] == [e2];
    assert OnUpdate(OnUpdate(b, e1).book, e2).book == EMPTY_BOOK.(sync := Buffering([e2]));
    RunsOfMerge(b, e, e1, e2, [Snap(s)]);
    assert [Diff(e)] + [Snap(s)] == [Diff(e), Snap(s)];
    assert [Diff(e1), Diff(e2)] + [Snap(s)] == [Diff(e1), Diff(e2), Snap(s)];
    OneInput(EMPTY_BOOK, Snap(s));
    OneInput(EMPTY_BOOK.(sync := Buffering([e2])), Snap(s));
    SnapshotReplaysValid([], s);
    SnapshotReplaysValid([e2], s);
    NothingToReplay(Loaded(s), true);
    LoadedIsLive(s);
    FirstIsApplied(Loaded(s), e2, []);
    NothingToReplay(ApplyEvent(Loaded(s), e2), false);
    assert [e2] + [] == [e2];
  }

  lemma OneInput(b: BookState, i: Input)
    ensures ReceiveAll(b, [i]) == Receive(b, i)
  {
    assert [i][1..] == [];
  }

  /** In a buffer, a snapshot at an id where the spans differ leaves different live books. */
  lemma SpanSeparatesHalves(
      h: History, b: BookState, e: DepthUpdate, e1: DepthUpdate, e2: DepthUpdate, id: nat) returns (s: DepthSnapshot)
    requires Agrees(h, b) && b.sync.Buffering? && id <= |h|
    requires ValidEvents(b.sync.buffer, id) == [] && !SameSpan(e, e1, e2, id)
    requires Coalesces(e, e1, e2) && GenuineUpdate(h, e) && e2.prevLastId < e2.lastId
    ensures GenuineSnapshot(h, s) && !SameLiveBook(b, e, e1, e2, [Snap(s)])
  {
    hide GenuineSnapshot, ReceiveAll, OnSnapshot, GenuineUpdate;
    s := SnapshotExists(h, id);
    var buffer := b.sync.buffer;
    RunsOfMerge(b, e, e1, e2, [Snap(s)]);
    OneInput(OnUpdate(b, e).book, Snap(s));
    OneInput(OnUpdate(OnUpdate(b, e1).book, e2).book, Snap(s));
    assert buffer + [e1] + [e2] == buffer + [e1, e2] + [] && buffer + [e] == buffer + [e] + [];
    OtherSpanReplaysDifferently(s, buffer, e, e1, e2);
    UpdateAgrees(h, b, e);
    SnapshotAgrees(h, OnUpdate(b, e).book, s);
  }

  /**
   Coalescing over whole runs: receiving one merged event instead of two adjacent ones leads, through all
   later genuine diffs, snapshots and resets, to the same live book, if and only if the book is live and not
   behind the range, or buffering with spans that agree. If the ids leave no hole they agree in every buffer.
   */
  lemma CoalescingOverRuns(h: History, b: BookState, e: DepthUpdate, e1: DepthUpdate, e2: DepthUpdate)
    requires Agrees(h, b) && Coalesces(e, e1, e2)
    requires GenuineUpdate(h, e) && GenuineUpdate(h, e1) && GenuineUpdate(h, e2)
    ensures MergesHere(b, e, e1, e2) <==>
      forall inputs :: AllInputsGenuine(h, inputs) ==> SameLiveBook(b, e, e1, e2, inputs)
    ensures e.firstId == e1.firstId && e2.firstId == e1.lastId + 1 ==>
      (MergesHere(b, e, e1, e2) <==> (b.sync.Live? ==> e.prevLastId <= b.sync.lastUpdateId))
  {
    hide GenuineDiff, GenuineSnapshot, SameLiveBook, SameSpan, ValidEvents, Agrees;
    if MergesHere(b, e, e1, e2) {
      forall inputs | AllInputsGenuine(h, inputs)
        ensures SameLiveBook(b, e, e1, e2, inputs)
      {
        MergeReachesTheSame(h, b, e, e1, e2, inputs);
      }
    } else {
      var s := MergeIsSeen(h, b, e, e1, e2);
      assert AllInputsGenuine(h, [Snap(s)]);
    }
    if e.firstId == e1.firstId && e2.firstId == e1.lastId + 1 {
      SameSpanEverywhere(e, e1, e2);
      assert b.sync.Buffering? ==> SpansAgreeBehind(b.sync.buffer, e, e1, e2);
    }
  }

  lemma MergeIsSeen(h: History, b: BookState, e: DepthUpdate, e1: DepthUpdate, e2: DepthUpdate)
      returns (s: DepthSnapshot)
    requires Agrees(h, b) && Coalesces(e, e1, e2) && !MergesHere(b, e, e1, e2)
    requires GenuineUpdate(h, e) && GenuineUpdate(h, e1) && GenuineUpdate(h, e2)
    ensures GenuineSnapshot(h, s) && !SameLiveBook(b, e, e1, e2, [Snap(s)])
  {
    hide GenuineDiff, GenuineSnapshot, ValidEvents, Agrees, ReceiveAll;
    if b.sync.Live? {
      s := GapSeparatesHalves(h, b, e, e1, e2);
      assert [Diff(e)] + [Snap(s)] == [Diff(e), Snap(s)];
      assert [Diff(e1), Diff(e2)] + [Snap(s)] == [Diff(e1), Diff(e2), Snap(s)];
    } else {
      var id: nat :| !(ValidEvents(b.sync.buffer, id) != [] || SameSpan(e, e1, e2, id));
      s := SpanSeparatesHalves(h, b, e, e1, e2, id);
    }
  }

  lemma {:induction false} NothingListed(h: History, side: Side, n: nat)
    requires n <= |h| && forall i :: 0 <= i < |h| ==> h[i].qty == 0.0
    ensures TrueSide(h, side, n) == map[]
  {
    if n > 0 {
      NothingListed(h, side, n - 1);
    }
  }

  /**
   The condition is needed. With a hole of ids between the halves (ranges (4, 5] and (5, 8] with U = 8)
   and a snapshot at 6, the halves are dropped and the book is live at 6; the merged event is applied,
   and the book is live at 8.
   */
  lemma MergeAcrossIdHole()
      returns (h: History, s: DepthSnapshot, e: DepthUpdate, e1: DepthUpdate, e2: DepthUpdate)
    ensures GenuineSnapshot(h, s) && Coalesces(e, e1, e2)
    ensures GenuineUpdate(h, e) && GenuineUpdate(h, e1) && GenuineUpdate(h, e2)
    ensures OnSnapshot(EMPTY_BOOK.(sync := Buffering([e])), s).sync == Live(8)
    ensures OnSnapshot(EMPTY_BOOK.(sync := Buffering([e1, e2])), s).sync == Live(6)
  {
    hide TrueSide;
    h := seq(8, i => Change(Bid, 0, 0.0));
    var levels := [Level(0, 0.0)];
    s := DepthSnapshot(6, [], []);
    e := DepthUpdate(0, 5, 8, 4, levels, []);
    e1, e2 := DepthUpdate(0, 5, 5, 4, levels, []), DepthUpdate(0, 8, 8, 5, levels, []);
    forall side, n: nat | n <= 8
      ensures TrueSide(h, side, n) == map[]
    {
      NothingListed(h, side, n);
    }
    assert levels[0].key == 0 && Mentions(levels, 0);
    assert [e] + [] == [e] && [e1, e2] + [] == [e1, e2];
    ValidAfterMerge(e, e1, e2, [], 6);
    FirstIsApplied(Loaded(s), e, []);
    NothingToReplay(ApplyEvent(Loaded(s), e), false);
  }

  /** An event whose whole range the book has already covered changes nothing, wherever it arrives. */
  lemma {:induction false} CoveredEventChangesNothing(
      h: History, b: BookState, before: seq<DepthUpdate>, e: DepthUpdate, after: seq<DepthUpdate>)
    requires Agrees(h, b) && b.sync.Live? && GenuineUpdate(h, e)
    requires forall i :: 0 <= i < |before| ==> GenuineUpdate(h, before[i])
    requires GapFree(b.sync.lastUpdateId, before) && e.lastId <= Covered(b.sync.lastUpdateId, before)
    ensures FeedAll(b, before + [e] + after) == FeedAll(b, before + after)
    decreases |before|
  {
    if before == [] {
      assert ([] + [e] + after)[1..] == after && [] + after == after;
    } else {
      var r := OnUpdate(b, before[0]);
      UpdateAgrees(h, b, before[0]);
      assert (before + [e] + after)[1..] == before[1..] + [e] + after;
      assert (before + after)[1..] == before[1..] + after;
      CoveredEventChangesNothing(h, r.book, before[1..], e, after);
    }
  }

  // ---------- One snapshot is enough ----------

  /** The snapshot meets the stream: it lies in or past the buffered part without falling into a hole of ids. */
  ghost predicate Meets(stream: seq<DepthUpdate>, k: nat, s: nat)
    requires k < |stream|
  {
    if k == 0 then
      stream[0].prevLastId <= s
    else
      stream[k - 1].lastId <= s || exists i :: 0 <= i < k && Spans(stream[i], s)
  }

  lemma {:induction false} ReplayOfChain(b: BookState, events: seq<DepthUpdate>)
    requires b.sync.Live? && Chain(events) && events != []
    ensures Replay(b, true, events).sync == Live(events[|events| - 1].lastId)
    ensures events[0].prevLastId == b.sync.lastUpdateId
      ==> Replay(b, false, events).sync == Live(events[|events| - 1].lastId)
    decreases |events|
  {
    var b1, rest := ApplyEvent(b, events[0]), events[1..];
    if rest != [] {
      ChainSuffix(events, 1);
      ReplayOfChain(b1, rest);
    }
  }

  lemma ChainSuffix(stream: seq<DepthUpdate>, k: nat)
    requires Chain(stream) && k <= |stream|
    ensures Chain(stream[k..])
  {
  }

  lemma {:induction false} ChainGapFree(l: nat, events: seq<DepthUpdate>)
    requires Chain(events) && events != []
    ensures GapFree(l, events) <==> events[0].prevLastId <= l
    decreases |events|
  {
    var rest := events[1..];
    if rest != [] {
      ChainSuffix(events, 1);
      ChainGapFree(Max(l, events[0].lastId), rest);
    }
  }

  /**
   On an in-order, lossless stream of which the first k events are buffered, one genuine snapshot
   makes the book live; no later event ever resets it or raises the resync flag if and only if
   the snapshot meets the stream.
   */
  lemma OneSnapshotSufficesExactly(h: History, stream: seq<DepthUpdate>, k: nat, s: DepthSnapshot)
    requires Chain(stream) && forall i :: 0 <= i < |stream| ==> GenuineUpdate(h, stream[i])
    requires GenuineSnapshot(h, s) && k < |stream|
    ensures var b := OnSnapshot(EMPTY_BOOK.(sync := Buffering(stream[..k])), s);
      var (book, gap) := FeedAll(b, stream[k..]);
      && b.sync.Live? && Agrees(h, b)
      && (gap <==> !Meets(stream, k, s.lastUpdateId))
      && (gap ==> book.sync.Buffering?)
      && (!gap ==> book.sync.Live? && book.sync.lastUpdateId >= stream[|stream| - 1].lastId && Agrees(h, book))
  {
    var start, id := EMPTY_BOOK.(sync := Buffering(stream[..k])), s.lastUpdateId;
    SnapshotAgrees(h, start, s);
    var b, rest := OnSnapshot(start, s), stream[k..];
    LiveRun(h, b, rest);
    ChainSuffix(stream, k);
    ChainGapFree(b.sync.lastUpdateId, rest);
    CoveredReachesLast(b.sync.lastUpdateId, rest);
    LiveIdAfterSnapshot(stream, k, s);
  }

  /** Where the book stands after that snapshot. */
  lemma LiveIdAfterSnapshot(stream: seq<DepthUpdate>, k: nat, s: DepthSnapshot)
    requires Chain(stream) && k < |stream|
    ensures var l := OnSnapshot(EMPTY_BOOK.(sync := Buffering(stream[..k])), s).sync;
      l.Live? && (stream[k].prevLastId <= l.lastUpdateId <==> Meets(stream, k, s.lastUpdateId))
  {
    var buffer, id := stream[..k], s.lastUpdateId;
    ValidEventsAreASuffix(buffer, id);
    var valid := ValidEvents(buffer, id);
    var at := k - |valid|;
    if valid != [] {
      assert buffer == stream[..k];
      ChainSuffix(buffer, at);
      ReplayOfChain(BookState(LoadSide(s.bids), LoadSide(s.asks), Live(id)), valid);
      assert Spans(stream[at], id);
    } else {
      assert forall i :: 0 <= i < k ==> stream[i] == buffer[i] && !Spans(stream[i], id);
    }
  }

  lemma {:induction false} CoveredReachesLast(l: nat, events: seq<DepthUpdate>)
    requires events != []
    ensures Covered(l, events) >= Max(l, events[|events| - 1].lastId)
    decreases |events|
  {
    if |events| > 1 {
      CoveredReachesLast(Max(l, events[0].lastId), events[1..]);
    }
  }

  /** A stream without holes between its ids. */
  ghost predicate Dense(stream: seq<DepthUpdate>) {
    Chain(stream) && forall i :: 0 <= i < |stream| ==> stream[i].firstId == stream[i].prevLastId + 1
  }

  /** In a dense stream the snapshot meets the stream exactly when it is not older than the first event's U - 1. */
  lemma {:induction false} DenseStreamIsMet(stream: seq<DepthUpdate>, k: nat, s: nat)
    requires Dense(stream) && k < |stream|
    ensures Meets(stream, k, s) <==> s + 1 >= stream[0].firstId
  {
    if k > 0 {
      if stream[0].prevLastId <= s < stream[k - 1].lastId {
        var i := 0;
        while stream[i].lastId <= s
          invariant 0 <= i < k && stream[i].prevLastId <= s
          decreases k - i
        {
          i := i + 1;
        }
        assert Spans(stream[i], s);
      }
      forall i | 0 < i < |stream|
        ensures stream[0].lastId <= stream[i].prevLastId
      {
        ChainIsOrdered(stream, 0, i);
      }
    }
  }

  /** One snapshot suffices on a dense stream, whether it falls before, inside or after the buffered part. */
  lemma OneSnapshotSuffices(h: History, stream: seq<DepthUpdate>, k: nat, s: DepthSnapshot)
    requires Dense(stream) && forall i :: 0 <= i < |stream| ==> GenuineUpdate(h, stream[i])
    requires GenuineSnapshot(h, s) && k < |stream|
    ensures var b := OnSnapshot(EMPTY_BOOK.(sync := Buffering(stream[..k])), s);
      FeedAll(b, stream[k..]).1 <==> s.lastUpdateId + 1 < stream[0].firstId
  {
    OneSnapshotSufficesExactly(h, stream, k, s);
    DenseStreamIsMet(stream, k, s.lastUpdateId);
  }

  // ---------- The view of a right book ----------

  /** The view shows the exchange's own best levels at id l. */
  ghost predicate IsTrueView(h: History, l: nat, depth: nat, v: BookView) {
    && l <= |h|
    && ShowsBest(TrueSide(h, Bid, l), depth, true, v.bids)
    && ShowsBest(TrueSide(h, Ask, l), depth, false, v.asks)
  }

  /** A view that a strategy is shown, and the last id of the diff that led to it. */
  datatype Shown = Shown(lastId: nat, view: BookView)

  /** The views a run shows to the strategy: one for each diff that is applied. */
  function ViewsDuring(b: BookState, depth: nat, inputs: seq<Input>): seq<Shown>
    decreases |inputs|
  {
    if inputs == [] then
      []
    else
      var next := Receive(b, inputs[0]);
      (if inputs[0].Diff? && OnUpdate(b, inputs[0].e).applied then
        [Shown(inputs[0].e.lastId, ViewOf(next, depth))]
      else
        [])
      + ViewsDuring(next, depth, inputs[1..])
  }

  ghost predicate AllTrueViews(h: History, depth: nat, views: seq<Shown>) {
    forall i :: 0 <= i < |views| ==> IsTrueView(h, views[i].lastId, depth, views[i].view)
  }

  /**
   The strategy never acts on a wrong book: through every sequence of genuine diffs, snapshots and
   resets, each view it is shown is the exchange's own top of book, with its prices and quantities,
   as of the diff that was just applied.
   */
  lemma {:induction false} StrategySeesTrueViews(h: History, b: BookState, depth: nat, inputs: seq<Input>)
    requires Agrees(h, b) && forall i :: 0 <= i < |inputs| ==> Genuine(h, inputs[i])
    ensures AllTrueViews(h, depth, ViewsDuring(b, depth, inputs))
    decreases |inputs|
  {
    hide TopLevels, Quotes, ShowsBest, ViewOf;
    if inputs != [] {
      var next := Receive(b, inputs[0]);
      Agreement(h, b, [inputs[0]]);
      assert ReceiveAll(next, [inputs[0]][1..]) == next;
      StrategySeesTrueViews(h, next, depth, inputs[1..]);
      ViewShowsBest(next, depth);
    }
  }

  /** When the exchange is uncrossed, so is every live view with both sides, and it leads with the true best prices. */
  lemma LiveViewIsUncrossed(h: History, b: BookState, depth: nat)
    requires Agrees(h, b) && b.sync.Live? && depth > 0
    requires forall bid, ask ::
      bid in TrueSide(h, Bid, b.sync.lastUpdateId) && ask in TrueSide(h, Ask, b.sync.lastUpdateId) ==> bid < ask
    ensures var l, v := b.sync.lastUpdateId, ViewOf(b, depth);
      && (v.bids == [] <==> TrueSide(h, Bid, l) == map[])
      && (v.asks == [] <==> TrueSide(h, Ask, l) == map[])
      && (v.bids != [] ==> forall bid :: bid in TrueSide(h, Bid, l) ==> bid as real / KEY_SCALE <= v.bids[0].price)
      && (v.asks != [] ==> forall ask :: ask in TrueSide(h, Ask, l) ==> ask as real / KEY_SCALE >= v.asks[0].price)
      && (v.bids != [] && v.asks != [] ==> v.bids[0].price < v.asks[0].price)
  {
  }
}
