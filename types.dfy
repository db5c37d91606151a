/** Values shared by the order-book engine: decoded feed messages, the rows of
    the rendered view and the market configuration. Numbers of the feed are
    modelled as exact reals. */
module Types {

  datatype Option<T> = None | Some(value: T)

  /** A raw price level as it travels on the feed: (price, quantity). */
  type RawOrder = (real, real)

  /** A message after JSON decoding. `Unparsable` stands for a payload on which
      the JSON parser throws; a decoded message may or may not carry an
      `event` and a `feed` name, and carries the two sides' raw levels. */
  datatype FeedMessage =
    | Unparsable
    | Decoded(event: Option<string>, feed: Option<string>, bids: seq<RawOrder>, asks: seq<RawOrder>)

  /** The incremental update handed to processDelta. */
  datatype DeltaMessage = DeltaMessage(bids: seq<RawOrder>, asks: seq<RawOrder>)

  /** One row of the rendered book. */
  datatype OrderLevel = OrderLevel(price: real, size: real, total: real, depth: real)

  datatype OrderBookViewModel = OrderBookViewModel(asks: seq<OrderLevel>, bids: seq<OrderLevel>)

  datatype Market = XBTUSD | ETHUSD

  /** The feed name announcing a full snapshot and the one carrying deltas. */
  const SnapshotFeed: string := "book_ui_1_snapshot"
  const DeltaFeed: string := "book_ui_1"

  /** The grouping sizes offered for each market, first one being the default. */
  function TicketSizes(market: Market): (sizes: seq<real>)
    ensures |sizes| == 3
    ensures forall i :: 0 <= i < |sizes| ==> sizes[i] > 0.0
    ensures forall i, j :: 0 <= i < j < |sizes| ==> sizes[i] < sizes[j]
  {
    match market
    case XBTUSD => [0.5, 1.0, 2.5]
    case ETHUSD => [0.05, 0.1, 0.25]
  }
}
