/** The worked examples the order-book utilities are specified by, stated on
    the model: deltas on a small book, the view of that book at ticket size
    0.5, and grouping at ticket size 1. The sides are passed as parameters
    equal to the sample maps. */
module Scenarios {
  import opened Types
  import opened Levels
  import opened Grouping
  import opened ViewBuilder

  /** The sample ask side {1200: 50, 1205: 20}. */
  ghost predicate IsSampleAsks(m: map<real, real>)
  {
    m == map[1200.0 := 50.0, 1205.0 := 20.0]
  }

  /** The sample bid side {1000: 40, 1005: 10}. */
  ghost predicate IsSampleBids(m: map<real, real>)
  {
    m == map[1000.0 := 40.0, 1005.0 := 10.0]
  }

  /** A delta level on empty sides adds the level. */
  lemma DeltaAddsLevel()
    ensures ApplyLevels(map[], [(1200.0, 10.0)]) == map[1200.0 := 10.0]
    ensures ApplyLevels(map[], [(1000.0, 20.0)]) == map[1000.0 := 20.0]
  {
    assert [(1200.0, 10.0)][..0] == [];
    assert [(1000.0, 20.0)][..0] == [];
  }

  /** A delta level for a present price overwrites its size only. */
  lemma DeltaUpdatesLevel(asks: map<real, real>, bids: map<real, real>)
    requires IsSampleAsks(asks) && IsSampleBids(bids)
    ensures ApplyLevels(asks, [(1200.0, 10.0)]) == map[1200.0 := 10.0, 1205.0 := 20.0]
    ensures ApplyLevels(bids, [(1000.0, 20.0)]) == map[1000.0 := 20.0, 1005.0 := 10.0]
  {
    assert [(1200.0, 10.0)][..0] == [];
    assert [(1000.0, 20.0)][..0] == [];
  }

  /** A delta level of size zero removes the price. */
  lemma DeltaDeletesLevel(asks: map<real, real>, bids: map<real, real>)
    requires IsSampleAsks(asks) && IsSampleBids(bids)
    ensures ApplyLevels(asks, [(1200.0, 0.0)]) == map[1205.0 := 20.0]
    ensures ApplyLevels(bids, [(1000.0, 0.0)]) == map[1005.0 := 10.0]
  {
    assert [(1200.0, 0.0)][..0] == [];
    assert [(1000.0, 0.0)][..0] == [];
  }

  /** A two-price side lists its higher price first. */
  lemma SortedPair(m: map<real, real>, hi: real, lo: real)
    requires hi > lo && m.Keys == {hi, lo}
    ensures SortDesc(m) == [(hi, m[hi]), (lo, m[lo])]
  {
    var s: seq<RawOrder> := [(hi, m[hi]), (lo, m[lo])];
    assert HasPrice(s, hi) && HasPrice(s, lo) by {
      assert s[0].0 == hi && s[1].0 == lo;
    }
    assert |m| == |m.Keys| == 2;
    assert ListsDescending(m, s);
    SortDescCharacterized(m, s);
  }

  /** Two levels in distinct buckets stay apart, in order. */
  lemma GroupedApart(s: seq<RawOrder>, ticketSize: real)
    requires ticketSize > 0.0 && |s| == 2
    requires Bucket(s[0].0, ticketSize) != Bucket(s[1].0, ticketSize)
    ensures GroupByTicketSize(s, ticketSize) == [(Bucket(s[0].0, ticketSize), s[0].1), (Bucket(s[1].0, ticketSize), s[1].1)]
  {
    var first: seq<RawOrder> := [(Bucket(s[0].0, ticketSize), s[0].1)];
    assert s[..1][..0] == [];
    assert GroupByTicketSize(s[..1], ticketSize) == first;
    var b := Bucket(s[1].0, ticketSize);
    assert AddToBucket(first[1..], b, s[1].1) == [(b, s[1].1)];
    assert AddToBucket(first, b, s[1].1) == [first[0]] + [(b, s[1].1)];
  }

  /** Two levels in one bucket merge, their sizes summed. */
  lemma GroupedTogether(s: seq<RawOrder>, ticketSize: real)
    requires ticketSize > 0.0 && |s| == 2
    requires Bucket(s[0].0, ticketSize) == Bucket(s[1].0, ticketSize)
    ensures GroupByTicketSize(s, ticketSize) == [(Bucket(s[0].0, ticketSize), s[0].1 + s[1].1)]
  {
    var first: seq<RawOrder> := [(Bucket(s[0].0, ticketSize), s[0].1)];
    assert s[..1][..0] == [];
    assert GroupByTicketSize(s[..1], ticketSize) == first;
    assert first[1..] == [];
  }

  /** The rendered sample at ticket size 0.5: descending prices, ask totals 20
      then 70, bid totals 50 then 40, all on the scale 70. */
  lemma SampleView(asks: map<real, real>, bids: map<real, real>)
    requires IsSampleAsks(asks) && IsSampleBids(bids)
    ensures View(asks, bids, 0.5) == OrderBookViewModel(
      [OrderLevel(1205.0, 20.0, 20.0, 20.0 / 70.0 * 100.0), OrderLevel(1200.0, 50.0, 70.0, 100.0)],
      [OrderLevel(1005.0, 10.0, 50.0, 50.0 / 70.0 * 100.0), OrderLevel(1000.0, 40.0, 40.0, 40.0 / 70.0 * 100.0)])
  {
    SortedPair(asks, 1205.0, 1200.0);
    SortedPair(bids, 1005.0, 1000.0);
    var wa: seq<RawOrder> := [(1205.0, 20.0), (1200.0, 50.0)];
    var wb: seq<RawOrder> := [(1005.0, 10.0), (1000.0, 40.0)];
    assert Bucket(1205.0, 0.5) == 1205.0 && Bucket(1200.0, 0.5) == 1200.0;
    assert Bucket(1005.0, 0.5) == 1005.0 && Bucket(1000.0, 0.5) == 1000.0;
    GroupedApart(wa, 0.5);
    GroupedApart(wb, 0.5);
    assert AskWindow(wa) == wa && BidWindow(wb) == wb;
    SampleRender(wa, wb);
  }

  /** The rows rendered from the two sample windows of buckets. */
  lemma SampleRender(wa: seq<RawOrder>, wb: seq<RawOrder>)
    requires wa == [(1205.0, 20.0), (1200.0, 50.0)] && wb == [(1005.0, 10.0), (1000.0, 40.0)]
    ensures Render(wa, wb) == OrderBookViewModel(
      [OrderLevel(1205.0, 20.0, 20.0, 20.0 / 70.0 * 100.0), OrderLevel(1200.0, 50.0, 70.0, 100.0)],
      [OrderLevel(1005.0, 10.0, 50.0, 50.0 / 70.0 * 100.0), OrderLevel(1000.0, 40.0, 40.0, 40.0 / 70.0 * 100.0)])
  {
    assert wa[..1] == [(1205.0, 20.0)] && wa[..1][..0] == [] && wa[..2] == wa && wa[..2][..1] == wa[..1];
    assert wb[..0] == [] && wb[..1] == [(1005.0, 10.0)] && wb[..1][..0] == [];
    assert wb[..2] == wb && wb[..2][..1] == wb[..1];
    assert SumSizes(wa[..1]) == 20.0 && SumSizes(wb[..1]) == 10.0;
    assert SumSizes(wa) == SumSizes(wa[..1]) + 50.0 == 70.0;
    assert SumSizes(wb) == SumSizes(wb[..1]) + 40.0 == 50.0;
    assert Depth(70.0, 70.0) == 100.0;
  }

  /** At ticket size 1 the asks {1200.5: 50, 1200: 20} fall in one bucket 1200
      of size 70, and the bids {1000: 40, 1000.5: 10} in one bucket 1000 of
      size 50. */
  lemma SampleGroupedAtOne(asks: map<real, real>, bids: map<real, real>)
    requires asks == map[1200.5 := 50.0, 1200.0 := 20.0]
    requires bids == map[1000.0 := 40.0, 1000.5 := 10.0]
    ensures GroupedSide(asks, 1.0) == [(1200.0, 70.0)]
    ensures GroupedSide(bids, 1.0) == [(1000.0, 50.0)]
  {
    SortedPair(asks, 1200.5, 1200.0);
    SortedPair(bids, 1000.5, 1000.0);
    assert Bucket(1200.5, 1.0) == 1200.0 && Bucket(1200.0, 1.0) == 1200.0;
    assert Bucket(1000.5, 1.0) == 1000.0 && Bucket(1000.0, 1.0) == 1000.0;
    GroupedTogether([(1200.5, 50.0), (1200.0, 20.0)], 1.0);
    GroupedTogether([(1000.5, 10.0), (1000.0, 40.0)], 1.0);
  }

  /** The rendered book at ticket size 1: one ask row at 1200 of size 70 and
      one bid row at 1000 of size 50. */
  lemma SampleViewAtOne(asks: map<real, real>, bids: map<real, real>)
    requires asks == map[1200.5 := 50.0, 1200.0 := 20.0]
    requires bids == map[1000.0 := 40.0, 1000.5 := 10.0]
    ensures var v := View(asks, bids, 1.0);
      |v.asks| == 1 && v.asks[0].price == 1200.0 && v.asks[0].size == 70.0
    ensures var v := View(asks, bids, 1.0);
      |v.bids| == 1 && v.bids[0].price == 1000.0 && v.bids[0].size == 50.0
  {
    SampleGroupedAtOne(asks, bids);
    var wa, wb := AskWindow(GroupedSide(asks, 1.0)), BidWindow(GroupedSide(bids, 1.0));
    assert wa == [(1200.0, 70.0)];
    assert wb == [(1000.0, 50.0)];
    assert View(asks, bids, 1.0) == Render(wa, wb);
    RenderRows(wa, wb);
  }
}
