/**
 The exchange's side of the order-book protocol: the ground truth that the local book is
 compared with. The exchange numbers its changes 1, 2, 3, ...; the true book at id n is the
 fold of the first n changes. Diff events and snapshots are genuine when they report that history.
 */
module Exchange {
  import opened Types

  datatype Side = Bid | Ask

  /** One numbered change: the quantity at a price key is now `qty` (0 removes the level). */
  datatype Change = Change(side: Side, key: nat, qty: real)

  type History = h: seq<Change> | forall i :: 0 <= i < |h| ==> h[i].qty >= 0.0

  /** Sets the quantity at one key, where quantity zero removes the level. */
  function Put(m: map<nat, real>, key: nat, qty: real): map<nat, real> {
    if qty == 0.0 then m - {key} else m[key := qty]
  }

  function QtyAt(m: map<nat, real>, key: nat): real {
    if key in m then m[key] else 0.0
  }

  /** One side of the exchange's book after its first n changes. */
  function TrueSide(h: History, side: Side, n: nat): (m: map<nat, real>)
    requires n <= |h|
    ensures forall key :: key in m ==> m[key] > 0.0
  {
    if n == 0 then
      map[]
    else
      var before := TrueSide(h, side, n - 1);
      if h[n - 1].side == side then Put(before, h[n - 1].key, h[n - 1].qty) else before
  }

  /** Some change numbered in (a, b] concerns this key. */
  ghost predicate Touched(h: History, side: Side, a: nat, b: nat, key: nat)
    requires a <= b <= |h|
  {
    exists n :: a <= n < b && h[n].side == side && h[n].key == key
  }

  ghost predicate Mentions(levels: seq<Level>, key: nat) {
    exists i :: 0 <= i < |levels| && levels[i].key == key
  }

  /** Every listed level carries the quantity that book `m` has there. */
  ghost predicate Carries(levels: seq<Level>, m: map<nat, real>) {
    forall i :: 0 <= i < |levels| ==> levels[i].qty == QtyAt(m, levels[i].key)
  }

  /** The levels list the final quantity of (at least) each key changed in (pu, u]. */
  ghost predicate GenuineDiff(h: History, side: Side, levels: seq<Level>, pu: nat, u: nat)
    requires pu <= u <= |h|
  {
    && Carries(levels, TrueSide(h, side, u))
    && forall key :: Touched(h, side, pu, u, key) ==> Mentions(levels, key)
  }

  /** A genuine diff event covers the non-empty range (pu, u], with U inside it. */
  ghost predicate GenuineUpdate(h: History, e: DepthUpdate) {
    && e.prevLastId < e.firstId <= e.lastId <= |h|
    && GenuineDiff(h, Bid, e.bids, e.prevLastId, e.lastId)
    && GenuineDiff(h, Ask, e.asks, e.prevLastId, e.lastId)
  }

  /** The levels list a whole side of the book. */
  ghost predicate Lists(levels: seq<Level>, m: map<nat, real>) {
    && Carries(levels, m)
    && forall key :: key in m ==> Mentions(levels, key)
  }

  ghost predicate GenuineSnapshot(h: History, s: DepthSnapshot) {
    && s.lastUpdateId <= |h|
    && Lists(s.bids, TrueSide(h, Bid, s.lastUpdateId))
    && Lists(s.asks, TrueSide(h, Ask, s.lastUpdateId))
  }

  /** A key that no change in (a, b] concerns has the same quantity at both ids. */
  lemma {:induction false} UntouchedIsUnchanged(h: History, side: Side, a: nat, b: nat, key: nat)
    requires a <= b <= |h|
    requires !Touched(h, side, a, b, key)
    ensures key in TrueSide(h, side, a) <==> key in TrueSide(h, side, b)
    ensures QtyAt(TrueSide(h, side, a), key) == QtyAt(TrueSide(h, side, b), key)
  {
    if a < b {
      forall n | a <= n < b - 1
        ensures !(h[n].side == side && h[n].key == key)
      {
        assert a <= n < b;
      }
      UntouchedIsUnchanged(h, side, a, b - 1, key);
    }
  }
}
