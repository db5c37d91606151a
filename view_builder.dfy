/** The second half of the view builder: the bounded windows of buckets, the
    running totals and depth percentages of each row, and the pipeline of
    updateOrderBook that ties sorting, grouping and totals together. */
module ViewBuilder {
  import opened Types
  import opened Grouping

  /** At most this many rows are shown per side. */
  const MaxRows := 10

  /** `slice(-10)`: the last buckets of the descending list, i.e. the lowest prices. */
  function AskWindow(g: seq<RawOrder>): (w: seq<RawOrder>)
    ensures |w| == if |g| < MaxRows then |g| else MaxRows
    ensures w == g[|g| - |w|..]
  {
    if |g| <= MaxRows then g else g[|g| - MaxRows..]
  }

  /** `slice(0, 10)`: the first buckets of the descending list, i.e. the highest prices. */
  function BidWindow(g: seq<RawOrder>): (w: seq<RawOrder>)
    ensures |w| == if |g| < MaxRows then |g| else MaxRows
    ensures w == g[..|w|]
  {
    if |g| <= MaxRows then g else g[..MaxRows]
  }

  /** `Math.max` on two totals. */
  function Max(a: real, b: real): (m: real)
    ensures m >= a && m >= b && (m == a || m == b)
  {
    if a >= b then a else b
  }

  /** `(total / maxTotal) * 100`; an empty scale gives depth 0. */
  function Depth(total: real, maxTotal: real): (d: real)
    ensures maxTotal == 0.0 ==> d == 0.0
    ensures maxTotal != 0.0 && total == maxTotal ==> d == 100.0
    ensures maxTotal > 0.0 && 0.0 <= total <= maxTotal ==> 0.0 <= d <= 100.0
  {
    if maxTotal == 0.0 then 0.0
    else
      DepthBounds(total, maxTotal);
      total / maxTotal * 100.0
  }

  lemma {:induction false} DepthBounds(total: real, maxTotal: real)
    requires maxTotal != 0.0
    ensures total == maxTotal ==> total / maxTotal * 100.0 == 100.0
    ensures maxTotal > 0.0 && 0.0 <= total <= maxTotal ==> 0.0 <= total / maxTotal * 100.0 <= 100.0
  {
    var q := total / maxTotal;
    assert q * maxTotal == total;
    if total == maxTotal {
      var t := if maxTotal > 0.0 then maxTotal else -maxTotal;
      assert q * t == t;
      MulMonotone(q, 1.0, t);
      MulMonotone(1.0, q, t);
    }
    if maxTotal > 0.0 && 0.0 <= total <= maxTotal {
      assert 0.0 <= q by {
        if q < 0.0 { MulMonotone(q, 0.0, maxTotal); }
      }
      assert q <= 1.0 by {
        if q > 1.0 { MulMonotone(1.0, q, maxTotal); }
      }
    }
  }

  /** A depth is the total's share of the scale, in percent. */
  lemma {:induction false} DepthIsShare(total: real, maxTotal: real)
    requires maxTotal != 0.0
    ensures Depth(total, maxTotal) * maxTotal == total * 100.0
  {
    var q := total / maxTotal;
    assert q * maxTotal == total;
    assert q * 100.0 * maxTotal == q * maxTotal * 100.0;
  }

  /** Ask rows in output order: each total is the sum of the sizes of its own
      row and of every row above it. */
  function AskRows(levels: seq<RawOrder>, maxTotal: real): seq<OrderLevel>
  {
    seq(|levels|, i requires 0 <= i < |levels| =>
      OrderLevel(levels[i].0, levels[i].1, SumSizes(levels[..i + 1]), Depth(SumSizes(levels[..i + 1]), maxTotal)))
  }

  /** Bid rows in output order: each total is the side total less the sizes of
      every row above it. */
  function BidRows(levels: seq<RawOrder>, bidsTotal: real, maxTotal: real): seq<OrderLevel>
  {
    seq(|levels|, i requires 0 <= i < |levels| =>
      OrderLevel(levels[i].0, levels[i].1, bidsTotal - SumSizes(levels[..i]), Depth(bidsTotal - SumSizes(levels[..i]), maxTotal)))
  }

  /** calculateTotalsForAsks: a running sum, increased before each row is emitted. */
  method CalculateTotalsForAsks(levels: seq<RawOrder>, maxTotal: real) returns (rows: seq<OrderLevel>)
    ensures rows == AskRows(levels, maxTotal)
  {
    var acum := 0.0;
    rows := [];
    var i := 0;
    while i < |levels|
      invariant 0 <= i <= |levels|
      invariant acum == SumSizes(levels[..i])
      invariant |rows| == i
      invariant forall k :: 0 <= k < i ==> rows[k] == AskRows(levels, maxTotal)[k]
    {
      assert levels[..i + 1][..i] == levels[..i];
      acum := acum + levels[i].1;
      rows := rows + [OrderLevel(levels[i].0, levels[i].1, acum, Depth(acum, maxTotal))];
      i := i + 1;
    }
  }

  /** calculateTotalsForBids: a running value seeded with the side total and
      decreased after each row is emitted. */
  method CalculateTotalsForBids(levels: seq<RawOrder>, bidsTotal: real, maxTotal: real) returns (rows: seq<OrderLevel>)
    ensures rows == BidRows(levels, bidsTotal, maxTotal)
  {
    var acum := bidsTotal;
    rows := [];
    var i := 0;
    while i < |levels|
      invariant 0 <= i <= |levels|
      invariant acum == bidsTotal - SumSizes(levels[..i])
      invariant |rows| == i
      invariant forall k :: 0 <= k < i ==> rows[k] == BidRows(levels, bidsTotal, maxTotal)[k]
    {
      assert levels[..i + 1][..i] == levels[..i];
      rows := rows + [OrderLevel(levels[i].0, levels[i].1, acum, Depth(acum, maxTotal))];
      acum := acum - levels[i].1;
      i := i + 1;
    }
  }

  /** The buckets a side is grouped into, highest first, before the window. */
  function GroupedSide(m: map<real, real>, ticketSize: real): seq<RawOrder>
    requires ticketSize > 0.0
  {
    GroupByTicketSize(SortDesc(m), ticketSize)
  }

  /** The view updateOrderBook computes from the two sides and a ticket size. */
  function View(asks: map<real, real>, bids: map<real, real>, ticketSize: real): OrderBookViewModel
    requires ticketSize > 0.0
  {
    Render(AskWindow(GroupedSide(asks, ticketSize)), BidWindow(GroupedSide(bids, ticketSize)))
  }

  /** The rows built from the two windows of buckets, on the scale of the larger
      side total. */
  function Render(groupedAsks: seq<RawOrder>, groupedBids: seq<RawOrder>): OrderBookViewModel
  {
    var askTotal := SumSizes(groupedAsks);
    var bidTotal := SumSizes(groupedBids);
    var maxTotal := Max(askTotal, bidTotal);
    OrderBookViewModel(AskRows(groupedAsks, maxTotal), BidRows(groupedBids, bidTotal, maxTotal))
  }

  /** updateOrderBook: reads the two sides and builds fresh rows; nothing it is
      given is modified. */
  method UpdateOrderBook(asks: map<real, real>, bids: map<real, real>, ticketSize: real)
    returns (view: OrderBookViewModel)
    requires ticketSize > 0.0
    ensures view == View(asks, bids, ticketSize)
  {
    var sortedAsks := SortDesc(asks);
    var sortedBids := SortDesc(bids);
    var groupedAsks := AskWindow(GroupByTicketSize(sortedAsks, ticketSize));
    var groupedBids := BidWindow(GroupByTicketSize(sortedBids, ticketSize));
    var askTotal := SumSizes(groupedAsks);
    var bidTotal := SumSizes(groupedBids);
    var maxTotal := Max(askTotal, bidTotal);
    var processedAsks := CalculateTotalsForAsks(groupedAsks, maxTotal);
    var processedBids := CalculateTotalsForBids(groupedBids, bidTotal, maxTotal);
    view := OrderBookViewModel(processedAsks, processedBids);
  }

  // ---------------------------------------------------------------------------
  // Properties of the rows

  /** Ask totals are prefix sums in output order, ending at the side total. */
  lemma {:induction false} AskRowsArePrefixSums(levels: seq<RawOrder>, maxTotal: real)
    ensures |AskRows(levels, maxTotal)| == |levels|
    ensures |levels| > 0 ==> AskRows(levels, maxTotal)[0].total == levels[0].1
    ensures forall i :: 0 < i < |levels| ==>
      AskRows(levels, maxTotal)[i].total == AskRows(levels, maxTotal)[i - 1].total + levels[i].1
    ensures |levels| > 0 ==> AskRows(levels, maxTotal)[|levels| - 1].total == SumSizes(levels)
  {
    var rows := AskRows(levels, maxTotal);
    if |levels| > 0 {
      assert levels[..1][..0] == [];
      assert SumSizes(levels[..1]) == SumSizes(levels[..1][..0]) + levels[0].1;
      assert levels[..|levels| - 1 + 1] == levels;
    }
    forall i | 0 < i < |levels|
      ensures rows[i].total == rows[i - 1].total + levels[i].1
    {
      assert levels[..i + 1][..i] == levels[..i];
    }
  }

  /** The side total less a prefix is the sum of the rest. */
  lemma SuffixSum(levels: seq<RawOrder>, i: int)
    requires 0 <= i <= |levels|
    ensures SumSizes(levels) - SumSizes(levels[..i]) == SumSizes(levels[i..])
  {
    assert levels == levels[..i] + levels[i..];
    SumSizesAppend(levels[..i], levels[i..]);
  }

  /** Seeded with their own sum, bid totals are suffix sums in output order:
      the first row holds the side total and the last row its own size. */
  lemma {:induction false} BidRowsAreSuffixSums(levels: seq<RawOrder>, maxTotal: real)
    ensures |BidRows(levels, SumSizes(levels), maxTotal)| == |levels|
    ensures forall i :: 0 <= i < |levels| ==>
      BidRows(levels, SumSizes(levels), maxTotal)[i].total == SumSizes(levels[i..])
    ensures |levels| > 0 ==> BidRows(levels, SumSizes(levels), maxTotal)[0].total == SumSizes(levels)
    ensures forall i :: 0 <= i < |levels| - 1 ==>
      BidRows(levels, SumSizes(levels), maxTotal)[i].total
        == levels[i].1 + BidRows(levels, SumSizes(levels), maxTotal)[i + 1].total
    ensures |levels| > 0 ==> BidRows(levels, SumSizes(levels), maxTotal)[|levels| - 1].total == levels[|levels| - 1].1
  {
    var rows := BidRows(levels, SumSizes(levels), maxTotal);
    forall i | 0 <= i < |levels| ensures rows[i].total == SumSizes(levels[i..]) {
      SuffixSum(levels, i);
    }
    forall i | 0 <= i < |levels| - 1 ensures rows[i].total == levels[i].1 + rows[i + 1].total {
      assert levels[i..] == [levels[i]] + levels[i + 1..];
      SumSizesCons(levels[i], levels[i + 1..]);
    }
    if |levels| > 0 {
      assert levels[0..] == levels;
      assert levels[|levels| - 1..] == [levels[|levels| - 1]];
      SumSizesCons(levels[|levels| - 1], []);
      assert [levels[|levels| - 1]] + [] == [levels[|levels| - 1]];
    }
  }

  /** With no negative size and a scale covering the side total, every ask
      depth lies between 0 and 100. */
  lemma {:induction false} AskRowsDepthBounded(levels: seq<RawOrder>, maxTotal: real)
    requires NonNegativeSizes(levels)
    requires maxTotal >= SumSizes(levels)
    ensures forall i :: 0 <= i < |levels| ==> 0.0 <= AskRows(levels, maxTotal)[i].depth <= 100.0
  {
    forall i | 0 <= i < |levels| ensures 0.0 <= AskRows(levels, maxTotal)[i].depth <= 100.0 {
      var total := SumSizes(levels[..i + 1]);
      SumSizesPrefixBounds(levels, i + 1);
      assert AskRows(levels, maxTotal)[i].depth == Depth(total, maxTotal);
      assert 0.0 <= total <= maxTotal;
    }
  }

  /** The same for bid rows seeded with their own sum. */
  lemma {:induction false} BidRowsDepthBounded(levels: seq<RawOrder>, maxTotal: real)
    requires NonNegativeSizes(levels)
    requires maxTotal >= SumSizes(levels)
    ensures forall i :: 0 <= i < |levels| ==> 0.0 <= BidRows(levels, SumSizes(levels), maxTotal)[i].depth <= 100.0
  {
    forall i | 0 <= i < |levels| ensures 0.0 <= BidRows(levels, SumSizes(levels), maxTotal)[i].depth <= 100.0 {
      var total := SumSizes(levels) - SumSizes(levels[..i]);
      BidRowTotalBounded(levels, i);
      assert BidRows(levels, SumSizes(levels), maxTotal)[i].depth == Depth(total, maxTotal);
      assert 0.0 <= total <= maxTotal;
    }
  }

  /** What remains of a non-negative side total after a prefix lies between 0
      and the total. */
  lemma BidRowTotalBounded(levels: seq<RawOrder>, i: int)
    requires NonNegativeSizes(levels)
    requires 0 <= i <= |levels|
    ensures 0.0 <= SumSizes(levels) - SumSizes(levels[..i]) <= SumSizes(levels)
  {
    SumSizesPrefixBounds(levels, i);
    SuffixSum(levels, i);
    var suffix := levels[i..];
    assert NonNegativeSizes(suffix) by {
      forall k | 0 <= k < |suffix| ensures suffix[k].1 >= 0.0 {
        assert suffix[k] == levels[i + k];
      }
    }
    assert suffix[..|suffix|] == suffix;
    SumSizesPrefixBounds(suffix, |suffix|);
  }

  // ---------------------------------------------------------------------------
  // Properties of the rendered rows

  /** The total shown by the larger side: the last ask row's or the first bid
      row's, whichever is greater (0 for an empty view). */
  function ScaleOf(view: OrderBookViewModel): real
  {
    Max(if |view.asks| > 0 then view.asks[|view.asks| - 1].total else 0.0,
        if |view.bids| > 0 then view.bids[0].total else 0.0)
  }

  /** The rendered rows are the two windows of buckets, position by position. */
  lemma RenderRows(wa: seq<RawOrder>, wb: seq<RawOrder>)
    ensures var v := Render(wa, wb);
      |v.asks| == |wa| && forall i :: 0 <= i < |wa| ==> v.asks[i].price == wa[i].0 && v.asks[i].size == wa[i].1
    ensures var v := Render(wa, wb);
      |v.bids| == |wb| && forall i :: 0 <= i < |wb| ==> v.bids[i].price == wb[i].0 && v.bids[i].size == wb[i].1
  {
  }

  /** The scale of the rendered rows is the larger of the two side totals, and
      it is the one every depth is computed against. */
  lemma {:induction false} RenderScale(wa: seq<RawOrder>, wb: seq<RawOrder>)
    ensures ScaleOf(Render(wa, wb)) == Max(SumSizes(wa), SumSizes(wb))
    ensures var v := Render(wa, wb);
      forall i :: 0 <= i < |v.asks| ==> v.asks[i].depth == Depth(v.asks[i].total, ScaleOf(v))
    ensures var v := Render(wa, wb);
      forall i :: 0 <= i < |v.bids| ==> v.bids[i].depth == Depth(v.bids[i].total, ScaleOf(v))
  {
    var maxTotal := Max(SumSizes(wa), SumSizes(wb));
    AskRowsArePrefixSums(wa, maxTotal);
    if |wb| > 0 {
      assert wb[..0] == [];
    }
  }

  /** When the scale is not zero, the row holding the larger side total is at
      depth 100: the last ask row or the first bid row. */
  lemma {:induction false} RenderFullRow(wa: seq<RawOrder>, wb: seq<RawOrder>)
    ensures var v := Render(wa, wb);
      ScaleOf(v) != 0.0 ==>
        (|v.asks| > 0 && v.asks[|v.asks| - 1].depth == 100.0) || (|v.bids| > 0 && v.bids[0].depth == 100.0)
  {
    var v := Render(wa, wb);
    RenderScale(wa, wb);
    var scale := ScaleOf(v);
    if scale != 0.0 {
      if |v.asks| > 0 && v.asks[|v.asks| - 1].total == scale {
        assert v.asks[|v.asks| - 1].depth == Depth(scale, scale);
      } else {
        assert |v.bids| > 0 && v.bids[0].total == scale;
        assert v.bids[0].depth == Depth(scale, scale);
      }
    }
  }

  /** With no negative quantity in either window, every depth lies between 0
      and 100. */
  lemma {:induction false} RenderDepthBounded(wa: seq<RawOrder>, wb: seq<RawOrder>)
    requires NonNegativeSizes(wa) && NonNegativeSizes(wb)
    ensures var v := Render(wa, wb);
      (forall i :: 0 <= i < |v.asks| ==> 0.0 <= v.asks[i].depth <= 100.0) &&
      (forall i :: 0 <= i < |v.bids| ==> 0.0 <= v.bids[i].depth <= 100.0)
  {
    var maxTotal := Max(SumSizes(wa), SumSizes(wb));
    AskRowsDepthBounded(wa, maxTotal);
    BidRowsDepthBounded(wb, maxTotal);
  }

  // ---------------------------------------------------------------------------
  // Properties of the whole view

  ghost predicate RowsDescending(rows: seq<OrderLevel>)
  {
    forall i, j :: 0 <= i < j < |rows| ==> rows[i].price > rows[j].price
  }

  /** Bucket `b` is the bucket of some price of side `m`. */
  ghost predicate IsSideBucket(m: map<real, real>, ticketSize: real, b: real)
    requires ticketSize > 0.0
  {
    exists p :: p in m && Bucket(p, ticketSize) == b
  }

  ghost predicate Shown(rows: seq<OrderLevel>, price: real)
  {
    exists i :: 0 <= i < |rows| && rows[i].price == price
  }

  /** The buckets of a grouped side are exactly the buckets of its prices,
      listed once each, highest first. */
  lemma {:induction false} GroupedSideBuckets(m: map<real, real>, ticketSize: real)
    requires ticketSize > 0.0
    ensures StrictlyDescending(GroupedSide(m, ticketSize))
    ensures forall b :: HasPrice(GroupedSide(m, ticketSize), b) <==> IsSideBucket(m, ticketSize, b)
  {
    var s := SortDesc(m);
    SortDescLists(m);
    GroupedDescending(s, ticketSize);
    GroupedBuckets(s, ticketSize);
    forall b ensures IsBucketOf(s, ticketSize, b) <==> IsSideBucket(m, ticketSize, b) {
      if IsBucketOf(s, ticketSize, b) {
        var j :| 0 <= j < |s| && Bucket(s[j].0, ticketSize) == b;
        assert s[j].0 in m;
      }
      if IsSideBucket(m, ticketSize, b) {
        var p :| p in m && Bucket(p, ticketSize) == b;
        assert HasPrice(s, p);
        var j :| 0 <= j < |s| && s[j].0 == p;
        assert Bucket(s[j].0, ticketSize) == b;
      }
    }
  }

  /** Buckets strictly descending by price, each one a bucket of side `m`
      holding the summed quantity of that bucket's levels. */
  ghost predicate AreSideBuckets(m: map<real, real>, ticketSize: real, w: seq<RawOrder>)
    requires ticketSize > 0.0
  {
    && StrictlyDescending(w)
    && forall i :: 0 <= i < |w| ==>
         IsSideBucket(m, ticketSize, w[i].0) && w[i].1 == BucketSize(SortDesc(m), ticketSize, w[i].0)
  }

  /** The same, for rendered rows. */
  ghost predicate RowsAreBuckets(m: map<real, real>, ticketSize: real, rows: seq<OrderLevel>)
    requires ticketSize > 0.0
  {
    && RowsDescending(rows)
    && forall i :: 0 <= i < |rows| ==>
         IsSideBucket(m, ticketSize, rows[i].price) && rows[i].size == BucketSize(SortDesc(m), ticketSize, rows[i].price)
  }

  /** Any run of consecutive buckets of a grouped side is made of side buckets. */
  lemma {:induction false} SideWindow(m: map<real, real>, ticketSize: real, g: seq<RawOrder>, w: seq<RawOrder>, offset: int)
    requires ticketSize > 0.0 && g == GroupedSide(m, ticketSize)
    requires 0 <= offset && offset + |w| <= |g|
    requires w == g[offset..offset + |w|]
    ensures AreSideBuckets(m, ticketSize, w)
  {
    GroupedSideBuckets(m, ticketSize);
    GroupedBuckets(SortDesc(m), ticketSize);
    forall i | 0 <= i < |w|
      ensures IsSideBucket(m, ticketSize, w[i].0)
    {
      assert w[i] == g[offset + i];
      assert HasPrice(g, g[offset + i].0);
    }
    forall i, j | 0 <= i < j < |w| ensures w[i].0 > w[j].0 {
      assert w[i] == g[offset + i] && w[j] == g[offset + j];
    }
  }

  /** Rows rendered from side buckets keep their shape. */
  lemma RowsFromBuckets(m: map<real, real>, ticketSize: real, w: seq<RawOrder>, rows: seq<OrderLevel>)
    requires ticketSize > 0.0
    requires AreSideBuckets(m, ticketSize, w)
    requires |rows| == |w| && forall i :: 0 <= i < |w| ==> rows[i].price == w[i].0 && rows[i].size == w[i].1
    ensures RowsAreBuckets(m, ticketSize, rows)
  {
  }

  /** The ask window is the run of buckets ending at the last one. */
  lemma AskWindowSuffix(g: seq<RawOrder>)
    ensures 0 <= |g| - |AskWindow(g)|
    ensures AskWindow(g) == g[|g| - |AskWindow(g)|..|g| - |AskWindow(g)| + |AskWindow(g)|]
  {
  }

  /** The ask window holds at most ten buckets of the asks, highest first. */
  lemma {:induction false} AskWindowBuckets(m: map<real, real>, ticketSize: real)
    requires ticketSize > 0.0
    ensures |AskWindow(GroupedSide(m, ticketSize))| <= MaxRows
    ensures AreSideBuckets(m, ticketSize, AskWindow(GroupedSide(m, ticketSize)))
  {
    var g := GroupedSide(m, ticketSize);
    AskWindowSuffix(g);
    SideWindow(m, ticketSize, g, AskWindow(g), |g| - |AskWindow(g)|);
  }

  /** The bid window holds at most ten buckets of the bids, highest first. */
  lemma {:induction false} BidWindowBuckets(m: map<real, real>, ticketSize: real)
    requires ticketSize > 0.0
    ensures |BidWindow(GroupedSide(m, ticketSize))| <= MaxRows
    ensures AreSideBuckets(m, ticketSize, BidWindow(GroupedSide(m, ticketSize)))
  {
    var g := GroupedSide(m, ticketSize);
    var w := BidWindow(g);
    assert w == g[0..0 + |w|];
    SideWindow(m, ticketSize, g, w, 0);
  }

  /** The ask side comes out strictly descending by price, with at most ten
      rows, each row a bucket of the asks holding that bucket's summed quantity. */
  lemma {:induction false} ViewAsksShape(asks: map<real, real>, bids: map<real, real>, ticketSize: real)
    requires ticketSize > 0.0
    ensures |View(asks, bids, ticketSize).asks| <= MaxRows
    ensures RowsAreBuckets(asks, ticketSize, View(asks, bids, ticketSize).asks)
  {
    var wa, wb := AskWindow(GroupedSide(asks, ticketSize)), BidWindow(GroupedSide(bids, ticketSize));
    assert View(asks, bids, ticketSize) == Render(wa, wb);
    AskWindowBuckets(asks, ticketSize);
    RenderRows(wa, wb);
    RowsFromBuckets(asks, ticketSize, wa, Render(wa, wb).asks);
  }

  /** The same for the bid side. */
  lemma {:induction false} ViewBidsShape(asks: map<real, real>, bids: map<real, real>, ticketSize: real)
    requires ticketSize > 0.0
    ensures |View(asks, bids, ticketSize).bids| <= MaxRows
    ensures RowsAreBuckets(bids, ticketSize, View(asks, bids, ticketSize).bids)
  {
    var wa, wb := AskWindow(GroupedSide(asks, ticketSize)), BidWindow(GroupedSide(bids, ticketSize));
    assert View(asks, bids, ticketSize) == Render(wa, wb);
    BidWindowBuckets(bids, ticketSize);
    RenderRows(wa, wb);
    RowsFromBuckets(bids, ticketSize, wb, Render(wa, wb).bids);
  }

  /** A bucket of the asks that the ask window leaves out lies above every
      bucket in it, and the window is then full. */
  lemma {:induction false} AskWindowNearest(m: map<real, real>, ticketSize: real, p: real)
    requires ticketSize > 0.0
    requires p in m
    requires !HasPrice(AskWindow(GroupedSide(m, ticketSize)), Bucket(p, ticketSize))
    ensures |AskWindow(GroupedSide(m, ticketSize))| == MaxRows
    ensures forall i :: 0 <= i < |AskWindow(GroupedSide(m, ticketSize))| ==>
      Bucket(p, ticketSize) > AskWindow(GroupedSide(m, ticketSize))[i].0
  {
    var g := GroupedSide(m, ticketSize);
    var w := AskWindow(g);
    var b := Bucket(p, ticketSize);
    GroupedSideBuckets(m, ticketSize);
    assert IsSideBucket(m, ticketSize, b);
    var j :| 0 <= j < |g| && g[j].0 == b;
    var offset := |g| - |w|;
    forall k | offset <= k < |g| ensures g[k].0 != b {
      assert w[k - offset] == g[k];
    }
    assert j < offset;
    forall i | 0 <= i < |w| ensures b > w[i].0 {
      assert w[i] == g[offset + i];
    }
  }

  /** A bucket of the bids that the bid window leaves out lies below every
      bucket in it, and the window is then full. */
  lemma {:induction false} BidWindowNearest(m: map<real, real>, ticketSize: real, p: real)
    requires ticketSize > 0.0
    requires p in m
    requires !HasPrice(BidWindow(GroupedSide(m, ticketSize)), Bucket(p, ticketSize))
    ensures |BidWindow(GroupedSide(m, ticketSize))| == MaxRows
    ensures forall i :: 0 <= i < |BidWindow(GroupedSide(m, ticketSize))| ==>
      Bucket(p, ticketSize) < BidWindow(GroupedSide(m, ticketSize))[i].0
  {
    var g := GroupedSide(m, ticketSize);
    var w := BidWindow(g);
    var b := Bucket(p, ticketSize);
    GroupedSideBuckets(m, ticketSize);
    assert IsSideBucket(m, ticketSize, b);
    var j :| 0 <= j < |g| && g[j].0 == b;
    forall k | 0 <= k < |w| ensures g[k].0 != b {
      assert w[k] == g[k];
    }
    assert j >= |w|;
    forall i | 0 <= i < |w| ensures b < w[i].0 {
      assert w[i] == g[i];
    }
  }

  /** A price is shown in rendered rows exactly when its bucket is in the window. */
  lemma {:induction false} RenderShown(wa: seq<RawOrder>, wb: seq<RawOrder>, b: real)
    ensures Shown(Render(wa, wb).asks, b) <==> HasPrice(wa, b)
    ensures Shown(Render(wa, wb).bids, b) <==> HasPrice(wb, b)
  {
    var v := Render(wa, wb);
    RenderRows(wa, wb);
    if Shown(v.asks, b) {
      var i :| 0 <= i < |v.asks| && v.asks[i].price == b;
      assert wa[i].0 == b;
    }
    if HasPrice(wa, b) {
      var i :| 0 <= i < |wa| && wa[i].0 == b;
      assert v.asks[i].price == b;
    }
    if Shown(v.bids, b) {
      var i :| 0 <= i < |v.bids| && v.bids[i].price == b;
      assert wb[i].0 == b;
    }
    if HasPrice(wb, b) {
      var i :| 0 <= i < |wb| && wb[i].0 == b;
      assert v.bids[i].price == b;
    }
  }

  /** The ask rows are the ask buckets nearest the spread: every ask bucket left
      out lies above every ask row shown, and one is left out only when all ten
      rows are taken. */
  lemma {:induction false} ViewAsksNearestSpread(asks: map<real, real>, bids: map<real, real>, ticketSize: real, p: real)
    requires ticketSize > 0.0
    requires p in asks
    requires !Shown(View(asks, bids, ticketSize).asks, Bucket(p, ticketSize))
    ensures |View(asks, bids, ticketSize).asks| == MaxRows
    ensures forall i :: 0 <= i < |View(asks, bids, ticketSize).asks| ==>
      Bucket(p, ticketSize) > View(asks, bids, ticketSize).asks[i].price
  {
    var wa, wb := AskWindow(GroupedSide(asks, ticketSize)), BidWindow(GroupedSide(bids, ticketSize));
    assert View(asks, bids, ticketSize) == Render(wa, wb);
    RenderShown(wa, wb, Bucket(p, ticketSize));
    AskWindowNearest(asks, ticketSize, p);
    RenderRows(wa, wb);
  }

  /** The bid rows are the bid buckets nearest the spread: every bid bucket left
      out lies below every bid row shown, and one is left out only when all ten
      rows are taken. */
  lemma {:induction false} ViewBidsNearestSpread(asks: map<real, real>, bids: map<real, real>, ticketSize: real, p: real)
    requires ticketSize > 0.0
    requires p in bids
    requires !Shown(View(asks, bids, ticketSize).bids, Bucket(p, ticketSize))
    ensures |View(asks, bids, ticketSize).bids| == MaxRows
    ensures forall i :: 0 <= i < |View(asks, bids, ticketSize).bids| ==>
      Bucket(p, ticketSize) < View(asks, bids, ticketSize).bids[i].price
  {
    var wa, wb := AskWindow(GroupedSide(asks, ticketSize)), BidWindow(GroupedSide(bids, ticketSize));
    assert View(asks, bids, ticketSize) == Render(wa, wb);
    RenderShown(wa, wb, Bucket(p, ticketSize));
    BidWindowNearest(bids, ticketSize, p);
    RenderRows(wa, wb);
  }

  /** Rendered running totals: asks accumulate downwards from the first row,
      bids are what remains of the bid total from each row downwards. */
  lemma {:induction false} RenderTotals(wa: seq<RawOrder>, wb: seq<RawOrder>)
    ensures var a := Render(wa, wb).asks;
      (|a| > 0 ==> a[0].total == a[0].size) &&
      (forall i :: 0 < i < |a| ==> a[i].total == a[i - 1].total + a[i].size)
    ensures var b := Render(wa, wb).bids;
      (|b| > 0 ==> b[|b| - 1].total == b[|b| - 1].size) &&
      (forall i :: 0 <= i < |b| - 1 ==> b[i].total == b[i].size + b[i + 1].total)
  {
    var maxTotal := Max(SumSizes(wa), SumSizes(wb));
    AskRowsArePrefixSums(wa, maxTotal);
    BidRowsAreSuffixSums(wb, maxTotal);
  }

  /** The running totals of a view. */
  lemma {:induction false} ViewTotals(asks: map<real, real>, bids: map<real, real>, ticketSize: real)
    requires ticketSize > 0.0
    ensures var a := View(asks, bids, ticketSize).asks;
      (|a| > 0 ==> a[0].total == a[0].size) &&
      (forall i :: 0 < i < |a| ==> a[i].total == a[i - 1].total + a[i].size)
    ensures var b := View(asks, bids, ticketSize).bids;
      (|b| > 0 ==> b[|b| - 1].total == b[|b| - 1].size) &&
      (forall i :: 0 <= i < |b| - 1 ==> b[i].total == b[i].size + b[i + 1].total)
  {
    var wa, wb := AskWindow(GroupedSide(asks, ticketSize)), BidWindow(GroupedSide(bids, ticketSize));
    assert View(asks, bids, ticketSize) == Render(wa, wb);
    RenderTotals(wa, wb);
  }

  /** Every row's depth is its total against the one scale shared by both sides. */
  lemma {:induction false} ViewDepthScale(asks: map<real, real>, bids: map<real, real>, ticketSize: real)
    requires ticketSize > 0.0
    ensures var v := View(asks, bids, ticketSize);
      (forall i :: 0 <= i < |v.asks| ==> v.asks[i].depth == Depth(v.asks[i].total, ScaleOf(v))) &&
      (forall i :: 0 <= i < |v.bids| ==> v.bids[i].depth == Depth(v.bids[i].total, ScaleOf(v)))
  {
    var wa, wb := AskWindow(GroupedSide(asks, ticketSize)), BidWindow(GroupedSide(bids, ticketSize));
    assert View(asks, bids, ticketSize) == Render(wa, wb);
    RenderScale(wa, wb);
  }

  /** The row holding the larger side's total is at depth 100. */
  lemma {:induction false} ViewDepthFull(asks: map<real, real>, bids: map<real, real>, ticketSize: real)
    requires ticketSize > 0.0
    ensures var v := View(asks, bids, ticketSize);
      ScaleOf(v) != 0.0 ==>
        (|v.asks| > 0 && v.asks[|v.asks| - 1].depth == 100.0) || (|v.bids| > 0 && v.bids[0].depth == 100.0)
  {
    var wa, wb := AskWindow(GroupedSide(asks, ticketSize)), BidWindow(GroupedSide(bids, ticketSize));
    assert View(asks, bids, ticketSize) == Render(wa, wb);
    RenderFullRow(wa, wb);
  }

  /** A side holding no negative quantity. */
  ghost predicate NoNegativeQuantity(m: map<real, real>)
  {
    forall p :: p in m ==> m[p] >= 0.0
  }

  /** A side with no negative quantity yields an ask window with none either. */
  lemma {:induction false} AskWindowNonNegative(m: map<real, real>, ticketSize: real)
    requires ticketSize > 0.0
    requires NoNegativeQuantity(m)
    ensures NonNegativeSizes(AskWindow(GroupedSide(m, ticketSize)))
  {
    var g := GroupedSide(m, ticketSize);
    SortDescLists(m);
    GroupedNonNegative(SortDesc(m), ticketSize);
    var w := AskWindow(g);
    forall i | 0 <= i < |w| ensures w[i].1 >= 0.0 {
      assert w[i] == g[|g| - |w| + i];
    }
  }

  /** The same for a bid window. */
  lemma {:induction false} BidWindowNonNegative(m: map<real, real>, ticketSize: real)
    requires ticketSize > 0.0
    requires NoNegativeQuantity(m)
    ensures NonNegativeSizes(BidWindow(GroupedSide(m, ticketSize)))
  {
    var g := GroupedSide(m, ticketSize);
    SortDescLists(m);
    GroupedNonNegative(SortDesc(m), ticketSize);
    var w := BidWindow(g);
    forall i | 0 <= i < |w| ensures w[i].1 >= 0.0 {
      assert w[i] == g[i];
    }
  }

  /** With no negative quantity on either side, every depth lies between 0 and 100. */
  lemma {:induction false} ViewDepthBounded(asks: map<real, real>, bids: map<real, real>, ticketSize: real)
    requires ticketSize > 0.0
    requires NoNegativeQuantity(asks) && NoNegativeQuantity(bids)
    ensures var v := View(asks, bids, ticketSize);
      (forall i :: 0 <= i < |v.asks| ==> 0.0 <= v.asks[i].depth <= 100.0) &&
      (forall i :: 0 <= i < |v.bids| ==> 0.0 <= v.bids[i].depth <= 100.0)
  {
    var wa, wb := AskWindow(GroupedSide(asks, ticketSize)), BidWindow(GroupedSide(bids, ticketSize));
    assert View(asks, bids, ticketSize) == Render(wa, wb);
    AskWindowNonNegative(asks, ticketSize);
    BidWindowNonNegative(bids, ticketSize);
    RenderDepthBounded(wa, wb);
  }
}
