/**
 The local order book and its snapshot + diff synchronisation (src/orderbook.rs).

 `BookState` and the functions on it say what each operation computes; class `Orderbook`
 does it in place. Module `BookSync` proves what the synchronisation is for.
 */
module OrderbookModel {
  import opened Types
  import opened Exchange
  import opened TopView

  datatype SyncState = Buffering(buffer: seq<DepthUpdate>) | Live(lastUpdateId: nat)

  datatype BookState = BookState(bids: map<nat, real>, asks: map<nat, real>, sync: SyncState)

  const EMPTY_BOOK := BookState(map[], map[], Buffering([]))

  /** Applies the levels of a diff, in order. */
  function ApplySide(m: map<nat, real>, levels: seq<Level>): map<nat, real> {
    if levels == [] then
      m
    else
      var last := levels[|levels| - 1];
      Put(ApplySide(m, levels[..|levels| - 1]), last.key, last.qty)
  }

  /** Loads the levels of a snapshot, in order; only positive quantities enter the book. */
  function LoadSide(levels: seq<Level>): map<nat, real> {
    if levels == [] then
      map[]
    else
      var last := levels[|levels| - 1];
      var before := LoadSide(levels[..|levels| - 1]);
      if last.qty > 0.0 then before[last.key := last.qty] else before
  }

  function ApplyEvent(b: BookState, e: DepthUpdate): BookState {
    BookState(ApplySide(b.bids, e.bids), ApplySide(b.asks, e.asks), Live(e.lastId))
  }

  /** The first buffered event spans the id after the snapshot. */
  predicate Spans(e: DepthUpdate, s: nat) {
    e.firstId <= s + 1 && e.lastId >= s + 1
  }

  /** The buffered events from the first one that spans the id after the snapshot. */
  function ValidEvents(buffer: seq<DepthUpdate>, s: nat): seq<DepthUpdate> {
    if buffer == [] || Spans(buffer[0], s) then buffer else ValidEvents(buffer[1..], s)
  }

  /** Replays buffered events up to the first break in their pu chain. */
  function Replay(b: BookState, first: bool, events: seq<DepthUpdate>): BookState
    requires b.sync.Live?
    decreases |events|
  {
    if events == [] || (!first && events[0].prevLastId != b.sync.lastUpdateId) then
      b
    else
      Replay(ApplyEvent(b, events[0]), false, events[1..])
  }

  /** The book after a snapshot. */
  function OnSnapshot(b: BookState, s: DepthSnapshot): BookState {
    var buffer := if b.sync.Buffering? then b.sync.buffer else [];
    var loaded := BookState(LoadSide(s.bids), LoadSide(s.asks), Live(s.lastUpdateId));
    Replay(loaded, true, ValidEvents(buffer, s.lastUpdateId))
  }

  /** What a diff does: the new book, whether it was applied, and whether a gap was found. */
  datatype UpdateResult = UpdateResult(book: BookState, applied: bool, gap: bool)

  function OnUpdate(b: BookState, e: DepthUpdate): UpdateResult {
    match b.sync
    case Buffering(buffer) => UpdateResult(b.(sync := Buffering(buffer + [e])), false, false)
    case Live(expected) =>
      if e.prevLastId == expected || e.prevLastId < expected < e.lastId then
        UpdateResult(ApplyEvent(b, e), true, false)
      else if e.lastId <= expected then
        UpdateResult(b, false, false)
      else
        UpdateResult(EMPTY_BOOK, false, true)
  }

  /** The view handed to strategies: the best `depth` levels of each side. */
  function ViewOf(b: BookState, depth: nat): BookView {
    BookView(Quotes(TopLevels(b.bids, depth, true)), Quotes(TopLevels(b.asks, depth, false)))
  }

  /** The view handed to strategies shows the best levels of each side. */
  lemma ViewShowsBest(b: BookState, depth: nat)
    ensures ShowsBest(b.bids, depth, true, ViewOf(b, depth).bids)
    ensures ShowsBest(b.asks, depth, false, ViewOf(b, depth).asks)
  {
    hide Quotes, ShowsBest, TopLevels;
    BestIsShownOneWay(b.bids, depth, true, ViewOf(b, depth).bids);
    BestIsShownOneWay(b.asks, depth, false, ViewOf(b, depth).asks);
  }

  class Orderbook {
    const depthLevels: nat
    var bids: map<nat, real>
    var asks: map<nat, real>
    var state: SyncState

    function Contents(): BookState
      reads this
    {
      BookState(bids, asks, state)
    }

    constructor (depthLevels: nat)
      ensures this.depthLevels == depthLevels && Contents() == EMPTY_BOOK
    {
      this.depthLevels := depthLevels;
      bids, asks, state := map[], map[], Buffering([]);
    }

    method Reset()
      modifies this
      ensures Contents() == EMPTY_BOOK
    {
      bids, asks := map[], map[];
      state := Buffering([]);
    }

    method ApplyLevels(update: DepthUpdate)
      modifies `bids, `asks
      ensures bids == ApplySide(old(bids), update.bids)
      ensures asks == ApplySide(old(asks), update.asks)
    {
      for i := 0 to |update.bids|
        invariant bids == ApplySide(old(bids), update.bids[..i])
        invariant asks == old(asks)
      {
        var level := update.bids[i];
        if level.qty == 0.0 {
          bids := bids - {level.key};
        } else {
          bids := bids[level.key := level.qty];
        }
        assert update.bids[..i + 1][..i] == update.bids[..i];
      }
      assert update.bids[..|update.bids|] == update.bids;
      for i := 0 to |update.asks|
        invariant asks == ApplySide(old(asks), update.asks[..i])
        invariant bids == ApplySide(old(bids), update.bids)
      {
        var level := update.asks[i];
        if level.qty == 0.0 {
          asks := asks - {level.key};
        } else {
          asks := asks[level.key := level.qty];
        }
        assert update.asks[..i + 1][..i] == update.asks[..i];
      }
      assert update.asks[..|update.asks|] == update.asks;
    }

    method LoadSnapshot(snapshot: DepthSnapshot)
      modifies `bids, `asks
      ensures bids == LoadSide(snapshot.bids) && asks == LoadSide(snapshot.asks)
    {
      bids, asks := map[], map[];
      for i := 0 to |snapshot.bids|
        invariant bids == LoadSide(snapshot.bids[..i]) && asks == map[]
      {
        var level := snapshot.bids[i];
        if level.qty > 0.0 {
          bids := bids[level.key := level.qty];
        }
        assert snapshot.bids[..i + 1][..i] == snapshot.bids[..i];
      }
      assert snapshot.bids[..|snapshot.bids|] == snapshot.bids;
      for i := 0 to |snapshot.asks|
        invariant asks == LoadSide(snapshot.asks[..i]) && bids == LoadSide(snapshot.bids)
      {
        var level := snapshot.asks[i];
        if level.qty > 0.0 {
          asks := asks[level.key := level.qty];
        }
        assert snapshot.asks[..i + 1][..i] == snapshot.asks[..i];
      }
      assert snapshot.asks[..|snapshot.asks|] == snapshot.asks;
    }

    /** Finds the first buffered event that spans the id after the snapshot. */
    static method FirstValid(buffer: seq<DepthUpdate>, s: nat) returns (index: Option<nat>)
      ensures index.None? ==> ValidEvents(buffer, s) == []
      ensures index.Some? ==> index.value < |buffer| && Spans(buffer[index.value], s)
      ensures index.Some? ==> forall j :: 0 <= j < index.value ==> !Spans(buffer[j], s)
      ensures index.Some? ==> ValidEvents(buffer, s) == buffer[index.value..]
    {
      var i := 0;
      while i < |buffer|
        invariant 0 <= i <= |buffer|
        invariant forall j :: 0 <= j < i ==> !Spans(buffer[j], s)
        invariant ValidEvents(buffer, s) == ValidEvents(buffer[i..], s)
      {
        if Spans(buffer[i], s) {
          return Some(i);
        }
        i := i + 1;
      }
      return None;
    }

    method HandleSnapshot(snapshot: DepthSnapshot) returns (live: bool)
      modifies this
      ensures live && Contents() == OnSnapshot(old(Contents()), snapshot)
    {
      var s := snapshot.lastUpdateId;
      var buffered := if state.Buffering? then state.buffer else [];
      var firstValid := FirstValid(buffered, s);
      LoadSnapshot(snapshot);
      if firstValid.None? {
        state := Live(s);
        return true;
      }
      var validEvents := buffered[firstValid.value..];
      ghost var goal := Replay(BookState(bids, asks, Live(s)), true, validEvents);
      var lastId, first, i := s, true, 0;
      while i < |validEvents|
        invariant 0 <= i <= |validEvents|
        invariant Replay(BookState(bids, asks, Live(lastId)), first, validEvents[i..]) == goal
      {
        var event := validEvents[i];
        if first {
          first := false;
        } else if event.prevLastId != lastId {
          break;
        }
        ApplyLevels(event);
        lastId := event.lastId;
        i := i + 1;
      }
      state := Live(lastId);
      return true;
    }

    /** Says whether the update was applied; raises `resyncNeeded` on a sequence gap. */
    method HandleUpdate(update: DepthUpdate, resyncNeeded: AtomicFlag) returns (applied: bool)
      modifies this, resyncNeeded
      ensures Contents() == OnUpdate(old(Contents()), update).book
      ensures applied == OnUpdate(old(Contents()), update).applied
      ensures resyncNeeded.value == (old(resyncNeeded.value) || OnUpdate(old(Contents()), update).gap)
    {
      match state {
        case Buffering(buffer) =>
          state := Buffering(buffer + [update]);
          return false;
        case Live(expected) =>
          if update.prevLastId != expected {
            if update.lastId <= expected {
              return false;
            }
            if !(update.prevLastId < expected && update.lastId > expected) {
              Reset();
              resyncNeeded.Store(true);
              return false;
            }
          }
          ApplyLevels(update);
          state := Live(update.lastId);
          return true;
      }
    }

    /** Each side lists its best levels, best first, as many as fit; that leaves no choice. */
    method Snapshot() returns (view: BookView)
      ensures ShowsBest(bids, depthLevels, true, view.bids) && ShowsBest(asks, depthLevels, false, view.asks)
      ensures view == ViewOf(Contents(), depthLevels)
    {
      hide ShowsBest, Quotes;
      ViewShowsBest(Contents(), depthLevels);
      var bestBids := TakeBest(bids, depthLevels, true);
      var bestAsks := TakeBest(asks, depthLevels, false);
      TopViewIsUnique(bids, depthLevels, true, bestBids);
      TopViewIsUnique(asks, depthLevels, false, bestAsks);
      view := BookView(Quotes(bestBids), Quotes(bestAsks));
    }
  }
}
