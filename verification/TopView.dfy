/** The top-N view of one side of the book: its N best levels, best first. */
module TopView {
  import opened Types

  /** The unit of the integer price keys. */
  const KEY_SCALE := 100_000_000.0

  /** Bids are listed highest price first, asks lowest first. */
  predicate Before(a: nat, b: nat, highestFirst: bool) {
    if highestFirst then a > b else a < b
  }

  ghost predicate IsBest(keys: set<nat>, k: nat, highestFirst: bool) {
    k in keys && forall k' :: k' in keys && k' != k ==> Before(k, k', highestFirst)
  }

  lemma {:induction false} BestExists(keys: set<nat>, highestFirst: bool)
    requires keys != {}
    ensures exists k :: IsBest(keys, k, highestFirst)
  {
    var k :| k in keys;
    if keys - {k} == {} {
      assert keys == {k};
      assert IsBest(keys, k, highestFirst);
    } else {
      BestExists(keys - {k}, highestFirst);
      var b :| IsBest(keys - {k}, b, highestFirst);
      var best := if Before(k, b, highestFirst) then k else b;
      forall k' | k' in keys && k' != best
        ensures Before(best, k', highestFirst)
      {
        assert k' == k || k' in keys - {k};
      }
      assert IsBest(keys, best, highestFirst);
    }
  }

  function BestKey(keys: set<nat>, highestFirst: bool): (k: nat)
    requires keys != {}
    ensures IsBest(keys, k, highestFirst)
  {
    BestExists(keys, highestFirst);
    var k :| k in keys && forall k' :: k' in keys && k' != k ==> Before(k, k', highestFirst);
    k
  }

  /** The n best levels, best first. */
  function TopLevels(m: map<nat, real>, n: nat, highestFirst: bool): seq<Level> {
    if n == 0 || m == map[] then
      []
    else
      var k := BestKey(m.Keys, highestFirst);
      [Level(k, m[k])] + TopLevels(m - {k}, n - 1, highestFirst)
  }

  function Quotes(levels: seq<Level>): seq<Quote> {
    seq(|levels|, i requires 0 <= i < |levels| => Quote(levels[i].key as real / KEY_SCALE, levels[i].qty))
  }

  ghost predicate Listed(v: seq<Level>, key: nat) {
    exists i :: 0 <= i < |v| && v[i].key == key
  }

  /** `v` lists as many levels of `m` as fit in n, in order, and every listed level beats every omitted one. */
  ghost predicate IsTopView(m: map<nat, real>, n: nat, highestFirst: bool, v: seq<Level>) {
    && |v| == (if n < |m| then n else |m|)
    && (forall i :: 0 <= i < |v| ==> v[i].key in m && v[i].qty == m[v[i].key])
    && (forall i, j :: 0 <= i < j < |v| ==> Before(v[i].key, v[j].key, highestFirst))
    && (forall key, i :: key in m && !Listed(v, key) && 0 <= i < |v| ==> Before(v[i].key, key, highestFirst))
  }

  lemma ListedBehind(v: seq<Level>, key: nat)
    requires v != []
    ensures Listed(v, key) <==> v[0].key == key || Listed(v[1..], key)
  {
  }

  lemma WithoutKey(m: map<nat, real>, k: nat)
    requires k in m
    ensures |m - {k}| == |m| - 1 && (m - {k}).Keys == m.Keys - {k}
  {
  }

  /** Putting the best level in front of the top view of the others gives the top view. */
  lemma TopViewGrows(m: map<nat, real>, n: nat, highestFirst: bool, k: nat, rest: seq<Level>)
    requires n > 0 && IsBest(m.Keys, k, highestFirst) && IsTopView(m - {k}, n - 1, highestFirst, rest)
    ensures IsTopView(m, n, highestFirst, [Level(k, m[k])] + rest)
  {
    var v, m' := [Level(k, m[k])] + rest, m - {k};
    WithoutKey(m, k);
    assert v[1..] == rest;
    assert forall i :: 0 < i < |v| ==> v[i] == rest[i - 1] && v[i].key in m';
    forall key, i | key in m && !Listed(v, key) && 0 <= i < |v|
      ensures Before(v[i].key, key, highestFirst)
    {
      ListedBehind(v, key);
      assert key in m';
    }
  }

  /** What `TopLevels` computes is the top view. */
  lemma {:induction false} TopLevelsIsTopView(m: map<nat, real>, n: nat, highestFirst: bool)
    ensures IsTopView(m, n, highestFirst, TopLevels(m, n, highestFirst))
  {
    hide IsTopView;
    if n == 0 || m == map[] {
      EmptyTopView(m, n, highestFirst);
    } else {
      var k := BestKey(m.Keys, highestFirst);
      TopLevelsIsTopView(m - {k}, n - 1, highestFirst);
      TopViewGrows(m, n, highestFirst, k, TopLevels(m - {k}, n - 1, highestFirst));
    }
  }

  lemma EmptyTopView(m: map<nat, real>, n: nat, highestFirst: bool)
    requires n == 0 || m == map[]
    ensures IsTopView(m, n, highestFirst, [])
  {
  }

  lemma TopViewStartsWithBest(m: map<nat, real>, n: nat, highestFirst: bool, v: seq<Level>)
    requires IsTopView(m, n, highestFirst, v) && n != 0 && m != map[]
    ensures v != [] && v[0].key == BestKey(m.Keys, highestFirst) && v[0].key in m && v[0].qty == m[v[0].key]
  {
  }

  lemma TopViewShrinks(m: map<nat, real>, n: nat, highestFirst: bool, v: seq<Level>)
    requires IsTopView(m, n, highestFirst, v) && v != []
    ensures IsTopView(m - {v[0].key}, n - 1, highestFirst, v[1..])
  {
    var k, rest := v[0].key, v[1..];
    var m' := m - {k};
    WithoutKey(m, k);
    forall i | 0 <= i < |rest|
      ensures rest[i] == v[i + 1] && rest[i].key in m' && rest[i].qty == m'[rest[i].key]
    {
      assert Before(v[0].key, v[i + 1].key, highestFirst);
    }
    forall key, i | key in m' && !Listed(rest, key) && 0 <= i < |rest|
      ensures Before(rest[i].key, key, highestFirst)
    {
      ListedBehind(v, key);
      assert rest[i] == v[i + 1];
    }
  }

  lemma TopViewOfNothing(m: map<nat, real>, n: nat, highestFirst: bool, v: seq<Level>)
    requires IsTopView(m, n, highestFirst, v) && (n == 0 || m == map[])
    ensures v == []
  {
  }

  lemma BestComesFirst(m: map<nat, real>, n: nat, highestFirst: bool)
    requires n > 0 && m != map[]
    ensures var k := BestKey(m.Keys, highestFirst);
      TopLevels(m, n, highestFirst) == [Level(k, m[k])] + TopLevels(m - {k}, n - 1, highestFirst)
  {
  }

  lemma NoneLeft(m: map<nat, real>, n: nat, highestFirst: bool)
    requires n == 0 || m == map[]
    ensures TopLevels(m, n, highestFirst) == []
  {
  }

  /** Walks the keys from the best one on and takes the first n. */
  method TakeBest(m: map<nat, real>, n: nat, highestFirst: bool) returns (v: seq<Level>)
    ensures IsTopView(m, n, highestFirst, v)
  {
    hide IsTopView, IsBest, TopLevels;
    v := [];
    var rest := m;
    while |v| < n && rest != map[]
      invariant |v| <= n
      invariant v + TopLevels(rest, n - |v|, highestFirst) == TopLevels(m, n, highestFirst)
      decreases n - |v|
    {
      var k := BestKey(rest.Keys, highestFirst);
      BestComesFirst(rest, n - |v|, highestFirst);
      ghost var others := TopLevels(rest - {k}, n - |v| - 1, highestFirst);
      assert v + ([Level(k, rest[k])] + others) == v + [Level(k, rest[k])] + others;
      v, rest := v + [Level(k, rest[k])], rest - {k};
    }
    NoneLeft(rest, n - |v|, highestFirst);
    assert v + [] == v;
    TopLevelsIsTopView(m, n, highestFirst);
  }

  /** A list with those properties is the top view: the description leaves no choice. */
  lemma {:induction false} TopViewIsUnique(m: map<nat, real>, n: nat, highestFirst: bool, v: seq<Level>)
    requires IsTopView(m, n, highestFirst, v)
    ensures v == TopLevels(m, n, highestFirst)
  {
    hide IsTopView;
    if n == 0 || m == map[] {
      TopViewOfNothing(m, n, highestFirst, v);
    } else {
      TopViewStartsWithBest(m, n, highestFirst, v);
      TopViewShrinks(m, n, highestFirst, v);
      TopViewIsUnique(m - {v[0].key}, n - 1, highestFirst, v[1..]);
      assert v == [v[0]] + v[1..];
    }
  }

  // ---------- The view in prices ----------

  function PriceOf(key: nat): real {
    key as real / KEY_SCALE
  }

  predicate Better(a: real, b: real, highestFirst: bool) {
    if highestFirst then a > b else a < b
  }

  /** The quote shows a level of the side: its price, and the quantity that the side holds there. */
  ghost predicate ShowsLevel(m: map<nat, real>, key: nat, q: Quote) {
    key in m && q.price == PriceOf(key) && q.qty == m[key]
  }

  ghost predicate ShowsSomeLevel(m: map<nat, real>, q: Quote) {
    exists key :: ShowsLevel(m, key, q)
  }

  ghost predicate IsShown(m: map<nat, real>, key: nat, quotes: seq<Quote>) {
    exists i :: 0 <= i < |quotes| && ShowsLevel(m, key, quotes[i])
  }

  /**
   The quotes show as many levels of the side as fit in n, each with its own price and quantity, in
   strict order of price, and every one of them beats every level that is left out.
   */
  ghost predicate ShowsBest(m: map<nat, real>, n: nat, highestFirst: bool, quotes: seq<Quote>) {
    && |quotes| == (if n < |m| then n else |m|)
    && (forall i :: 0 <= i < |quotes| ==> ShowsSomeLevel(m, quotes[i]))
    && (forall i, j :: 0 <= i < j < |quotes| ==> Better(quotes[i].price, quotes[j].price, highestFirst))
    && (forall key, i :: key in m && !IsShown(m, key, quotes) && 0 <= i < |quotes| ==>
      Better(quotes[i].price, PriceOf(key), highestFirst))
  }

  lemma PricesKeepOrder(a: nat, b: nat, highestFirst: bool)
    ensures Better(PriceOf(a), PriceOf(b), highestFirst) <==> Before(a, b, highestFirst)
    ensures PriceOf(a) == PriceOf(b) <==> a == b
  {
  }

  /** The quotes of some levels of the side, one by one. */
  ghost predicate Quoted(m: map<nat, real>, levels: seq<Level>, quotes: seq<Quote>) {
    && |quotes| == |levels|
    && forall i :: 0 <= i < |levels| ==> ShowsLevel(m, levels[i].key, quotes[i]) && levels[i].qty == quotes[i].qty
  }

  lemma QuotedMeansQuotes(m: map<nat, real>, levels: seq<Level>, quotes: seq<Quote>)
    requires forall i :: 0 <= i < |levels| ==> levels[i].key in m && levels[i].qty == m[levels[i].key]
    ensures Quoted(m, levels, quotes) <==> quotes == Quotes(levels)
  {
    if Quoted(m, levels, quotes) {
      assert forall i :: 0 <= i < |levels| ==> quotes[i] == Quotes(levels)[i];
    }
  }

  lemma ShownIsListed(m: map<nat, real>, levels: seq<Level>, quotes: seq<Quote>, key: nat)
    requires Quoted(m, levels, quotes) && key in m
    ensures IsShown(m, key, quotes) <==> Listed(levels, key)
  {
    hide PriceOf;
    if IsShown(m, key, quotes) {
      var i :| 0 <= i < |quotes| && ShowsLevel(m, key, quotes[i]);
      PricesKeepOrder(levels[i].key, key, true);
    }
    if Listed(levels, key) {
      var i :| 0 <= i < |levels| && levels[i].key == key;
      assert ShowsLevel(m, key, quotes[i]);
    }
  }

  /** Some levels are the top view of the side exactly when their quotes show the best of it. */
  lemma TopViewShowsBest(m: map<nat, real>, n: nat, highestFirst: bool, levels: seq<Level>, quotes: seq<Quote>)
    requires Quoted(m, levels, quotes)
    ensures IsTopView(m, n, highestFirst, levels) <==> ShowsBest(m, n, highestFirst, quotes)
  {
    hide PriceOf, Better, Before, IsShown, Listed;
    forall i, j | 0 <= i < j < |levels|
      ensures Better(quotes[i].price, quotes[j].price, highestFirst)
        <==> Before(levels[i].key, levels[j].key, highestFirst)
    {
      PricesKeepOrder(levels[i].key, levels[j].key, highestFirst);
    }
    forall key, i | key in m && 0 <= i < |levels|
      ensures Better(quotes[i].price, PriceOf(key), highestFirst) <==> Before(levels[i].key, key, highestFirst)
    {
      PricesKeepOrder(levels[i].key, key, highestFirst);
    }
    forall key | key in m
      ensures IsShown(m, key, quotes) <==> Listed(levels, key)
    {
      ShownIsListed(m, levels, quotes, key);
    }
  }

  lemma LevelsShown(m: map<nat, real>, quotes: seq<Quote>) returns (levels: seq<Level>)
    requires forall i :: 0 <= i < |quotes| ==> ShowsSomeLevel(m, quotes[i])
    ensures Quoted(m, levels, quotes)
  {
    levels := [];
    for k := 0 to |quotes|
      invariant Quoted(m, levels, quotes[..k])
    {
      var key :| ShowsLevel(m, key, quotes[k]);
      levels := levels + [Level(key, quotes[k].qty)];
    }
    assert quotes[..|quotes|] == quotes;
  }

  /** Only one list of quotes shows the best levels: those of the top view. */
  lemma BestIsShownOneWay(m: map<nat, real>, n: nat, highestFirst: bool, quotes: seq<Quote>)
    ensures ShowsBest(m, n, highestFirst, quotes) <==> quotes == Quotes(TopLevels(m, n, highestFirst))
  {
    hide TopLevels, Quotes, IsShown, Better, PriceOf;
    TopLevelsIsTopView(m, n, highestFirst);
    if quotes == Quotes(TopLevels(m, n, highestFirst)) {
      QuotedMeansQuotes(m, TopLevels(m, n, highestFirst), quotes);
      TopViewShowsBest(m, n, highestFirst, TopLevels(m, n, highestFirst), quotes);
    }
    if ShowsBest(m, n, highestFirst, quotes) {
      var levels := LevelsShown(m, quotes);
      TopViewShowsBest(m, n, highestFirst, levels, quotes);
      TopViewIsUnique(m, n, highestFirst, levels);
      QuotedMeansQuotes(m, levels, quotes);
    }
  }
}
