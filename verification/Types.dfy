/** The messages and values that travel between the parts of the trading core. */
module Types {

  datatype Option<+T> = None | Some(value: T)

  /** One price level. Prices are integer keys (price * 10^8), as the book stores them. */
  datatype Level = Level(key: nat, qty: real)

  /** A diff event: `firstId`, `lastId` and `prevLastId` are the exchange's U, u and pu. */
  datatype DepthUpdate = DepthUpdate(
    eventTime: nat, firstId: nat, lastId: nat, prevLastId: nat,
    bids: seq<Level>, asks: seq<Level>)

  datatype DepthSnapshot = DepthSnapshot(lastUpdateId: nat, bids: seq<Level>, asks: seq<Level>)

  /** One level of the view handed to a strategy, with its price in USDT. */
  datatype Quote = Quote(price: real, qty: real)

  datatype BookView = BookView(bids: seq<Quote>, asks: seq<Quote>)

  datatype Signal = Buy(price: real, qty: real) | Sell(price: real, qty: real) | Hold

  /** A shared atomic boolean, such as the `resync_needed` flag. */
  class AtomicFlag {
    var value: bool

    constructor (value: bool)
      ensures this.value == value
    {
      this.value := value;
    }

    method Store(v: bool)
      modifies this
      ensures value == v
    {
      value := v;
    }

    /** Replaces `current` by `new_`; says whether the flag held `current`. */
    method CompareExchange(current: bool, new_: bool) returns (ok: bool)
      modifies this
      ensures ok == (old(value) == current)
      ensures value == if ok then new_ else old(value)
    {
      ok := value == current;
      if ok {
        value := new_;
      }
    }
  }
}
