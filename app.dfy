/** The message-dispatch step of the app: the two level stores held across
    messages, the routing of each decoded feed message to a snapshot or a
    delta, and the market toggle. */
module AppState {
  import opened Types
  import opened Levels
  import opened Grouping
  import opened ViewBuilder

  /** Where processMessage sends a message. */
  datatype Route =
    | Ignored
    | Snapshot(bids: seq<RawOrder>, asks: seq<RawOrder>)
    | Delta(delta: DeltaMessage)

  /** The message is an acknowledgement of a (un)subscription. */
  predicate IsAck(msg: FeedMessage)
  {
    msg.Decoded? && (msg.event == Some("subscribed") || msg.event == Some("unsubscribed"))
  }

  /** The branch processMessage takes: an unparsable payload is dropped, the
      event checks come first, then the snapshot feed, then the delta feed;
      anything else falls through. */
  function RouteOf(msg: FeedMessage): (r: Route)
    ensures IsAck(msg) ==> r == Ignored
    ensures r.Snapshot? ==> msg.Decoded? && msg.feed == Some(SnapshotFeed) && r.bids == msg.bids && r.asks == msg.asks
    ensures r.Delta? ==> msg.Decoded? && msg.feed == Some(DeltaFeed) && r.delta == DeltaMessage(msg.bids, msg.asks)
    ensures msg.Decoded? && !IsAck(msg) && msg.feed == Some(SnapshotFeed) ==> r.Snapshot?
    ensures msg.Decoded? && !IsAck(msg) && msg.feed == Some(DeltaFeed) ==> r.Delta?
  {
    match msg
    case Unparsable => Ignored
    case Decoded(event, feed, bids, asks) =>
      if event == Some("subscribed") then Ignored
      else if event == Some("unsubscribed") then Ignored
      else if feed == Some(SnapshotFeed) then Snapshot(bids, asks)
      else if feed == Some(DeltaFeed) then Delta(DeltaMessage(bids, asks))
      else Ignored
  }

  /** The contents of the two level stores. */
  datatype Store = Store(asks: map<real, real>, bids: map<real, real>)

  /** The stores after one message. */
  function After(s: Store, msg: FeedMessage): Store
  {
    match RouteOf(msg)
    case Ignored => s
    case Snapshot(bids, asks) => Store(EntriesToMap(asks), EntriesToMap(bids))
    case Delta(delta) => Store(ApplyLevels(s.asks, delta.asks), ApplyLevels(s.bids, delta.bids))
  }

  /** Acknowledgements change nothing, whatever feed name they carry. */
  lemma AckIgnored(s: Store, msg: FeedMessage)
    requires IsAck(msg)
    ensures After(s, msg) == s
  {
  }

  /** A payload that does not parse, or one naming neither book feed, changes
      nothing. */
  lemma OtherMessagesIgnored(s: Store, msg: FeedMessage)
    requires msg.Unparsable? || (msg.feed != Some(SnapshotFeed) && msg.feed != Some(DeltaFeed))
    ensures After(s, msg) == s
  {
  }

  /** A snapshot discards the prior stores: its result depends on the message
      alone, each side holds exactly the prices its entries name, the last
      entry for a price wins, and zero quantities are stored as they are. */
  lemma {:induction false} SnapshotReplaces(s1: Store, s2: Store, msg: FeedMessage)
    requires RouteOf(msg).Snapshot?
    ensures After(s1, msg) == After(s2, msg)
    ensures forall p :: p in After(s1, msg).asks <==> exists i :: 0 <= i < |msg.asks| && msg.asks[i].0 == p
    ensures forall p :: p in After(s1, msg).bids <==> exists i :: 0 <= i < |msg.bids| && msg.bids[i].0 == p
    ensures forall k :: 0 <= k < |msg.asks| && NotMentionedFrom(msg.asks, msg.asks[k].0, k + 1) ==>
      After(s1, msg).asks[msg.asks[k].0] == msg.asks[k].1
    ensures forall k :: 0 <= k < |msg.bids| && NotMentionedFrom(msg.bids, msg.bids[k].0, k + 1) ==>
      After(s1, msg).bids[msg.bids[k].0] == msg.bids[k].1
  {
    forall p ensures p in After(s1, msg).asks <==> exists i :: 0 <= i < |msg.asks| && msg.asks[i].0 == p {
      EntriesToMapKeys(msg.asks, p);
    }
    forall p ensures p in After(s1, msg).bids <==> exists i :: 0 <= i < |msg.bids| && msg.bids[i].0 == p {
      EntriesToMapKeys(msg.bids, p);
    }
    forall k | 0 <= k < |msg.asks| && NotMentionedFrom(msg.asks, msg.asks[k].0, k + 1)
      ensures After(s1, msg).asks[msg.asks[k].0] == msg.asks[k].1
    {
      EntriesToMapLastWins(msg.asks, k);
    }
    forall k | 0 <= k < |msg.bids| && NotMentionedFrom(msg.bids, msg.bids[k].0, k + 1)
      ensures After(s1, msg).bids[msg.bids[k].0] == msg.bids[k].1
    {
      EntriesToMapLastWins(msg.bids, k);
    }
  }

  /** A delta touches only the prices it names, on its own side: an ask price
      no ask level names keeps its state, whatever the bid levels say, and
      likewise for bids. */
  lemma {:induction false} DeltaTouchesOnlyNamedPrices(s: Store, msg: FeedMessage, p: real)
    requires RouteOf(msg).Delta?
    ensures NotMentionedFrom(msg.asks, p, 0) ==>
      (p in After(s, msg).asks <==> p in s.asks) && (p in s.asks ==> After(s, msg).asks[p] == s.asks[p])
    ensures NotMentionedFrom(msg.bids, p, 0) ==>
      (p in After(s, msg).bids <==> p in s.bids) && (p in s.bids ==> After(s, msg).bids[p] == s.bids[p])
  {
    if NotMentionedFrom(msg.asks, p, 0) {
      ApplyLevelsUntouched(s.asks, msg.asks, p);
    }
    if NotMentionedFrom(msg.bids, p, 0) {
      ApplyLevelsUntouched(s.bids, msg.bids, p);
    }
  }

  /** The other market of the toggle. */
  function Toggled(market: Market): (r: Market)
    ensures r != market
  {
    match market
    case XBTUSD => ETHUSD
    case ETHUSD => XBTUSD
  }

  /** Toggling twice returns to the market one started from. */
  lemma ToggleTwice(market: Market)
    ensures Toggled(Toggled(market)) == market
  {
  }

  /** The ticket size a market starts with: the first, and smallest, of its
      configured sizes. */
  function DefaultTicketSize(market: Market): (t: real)
    ensures t == TicketSizes(market)[0]
    ensures t > 0.0 && forall i :: 0 <= i < |TicketSizes(market)| ==> t <= TicketSizes(market)[i]
    ensures market == XBTUSD ==> t == 0.5
    ensures market == ETHUSD ==> t == 0.05
  {
    TicketSizes(market)[0]
  }

  /** The app component's state: the two level stores held in refs, the
      selected market and ticket size, and the book last rendered. */
  class App {
    var asks: PriceMap
    var bids: PriceMap
    var selectedMarket: Market
    var ticketSize: real
    var orderBook: OrderBookViewModel

    /** The two sides are distinct maps and the ticket size is one configured
        for the selected market. */
    ghost predicate Valid()
      reads this
    {
      && asks != bids
      && ticketSize in TicketSizes(selectedMarket)
    }

    function Contents(): Store
      reads this, asks, bids
    {
      Store(asks.entries, bids.entries)
    }

    /** Empty stores, XBTUSD at its default ticket size, an empty book. */
    constructor ()
      ensures Valid()
      ensures Contents() == Store(map[], map[])
      ensures selectedMarket == XBTUSD && ticketSize == 0.5
      ensures orderBook == OrderBookViewModel([], [])
    {
      asks := new PriceMap.FromEntries([]);
      bids := new PriceMap.FromEntries([]);
      selectedMarket := XBTUSD;
      ticketSize := DefaultTicketSize(XBTUSD);
      orderBook := OrderBookViewModel([], []);
    }

    /** refreshOrderBook: renders the book from the current stores, as
        updateOrderBook (ViewBuilder.UpdateOrderBook, proved to compute View)
        does. */
    method Refresh()
      requires ticketSize > 0.0
      modifies this
      ensures asks == old(asks) && bids == old(bids)
      ensures selectedMarket == old(selectedMarket) && ticketSize == old(ticketSize)
      ensures orderBook == View(asks.entries, bids.entries, ticketSize)
    {
      orderBook := View(asks.entries, bids.entries, ticketSize);
    }

    /** processMessage: routes one message. A snapshot installs two new maps
        and renders the book; a delta updates the current maps in place (the
        book is left for the throttled refresh); anything else is dropped. */
    method ProcessMessage(msg: FeedMessage)
      requires Valid()
      modifies this, asks, bids
      ensures Valid()
      ensures Contents() == After(old(Contents()), msg)
      ensures selectedMarket == old(selectedMarket) && ticketSize == old(ticketSize)
      ensures RouteOf(msg).Snapshot? ==> fresh(asks) && fresh(bids)
      ensures RouteOf(msg).Snapshot? ==> orderBook == View(asks.entries, bids.entries, ticketSize)
      ensures !RouteOf(msg).Snapshot? ==> asks == old(asks) && bids == old(bids) && orderBook == old(orderBook)
    {
      var route := RouteOf(msg);
      if route.Snapshot? {
        asks := new PriceMap.FromEntries(route.asks);
        bids := new PriceMap.FromEntries(route.bids);
        TicketSizesPositive(selectedMarket, ticketSize);
        Refresh();
      } else if route.Delta? {
        var newAsks, newBids := ProcessDelta(route.delta, asks, bids);
        asks := newAsks;
        bids := newBids;
      }
    }

    /** toggleFeed: switches to the other market and to its default ticket
        size; the stores and the rendered book stay as they are until the new
        market's snapshot arrives. */
    method ToggleFeed()
      requires Valid()
      modifies this
      ensures Valid()
      ensures selectedMarket == Toggled(old(selectedMarket))
      ensures ticketSize == DefaultTicketSize(selectedMarket)
      ensures asks == old(asks) && bids == old(bids) && orderBook == old(orderBook)
    {
      var newMarket := Toggled(selectedMarket);
      selectedMarket := newMarket;
      ticketSize := DefaultTicketSize(newMarket);
    }
  }

  /** Every configured ticket size is positive. */
  lemma TicketSizesPositive(market: Market, t: real)
    requires t in TicketSizes(market)
    ensures t > 0.0
  {
    var i :| 0 <= i < |TicketSizes(market)| && TicketSizes(market)[i] == t;
  }
}
