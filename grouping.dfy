/** The first half of the view builder: a side's levels sorted by descending
    price and merged into ticket-size buckets, first-seen bucket first. */
module Grouping {
  import opened Types

  /** Sum of the quantities, accumulated front to back. */
  function SumSizes(levels: seq<RawOrder>): real
  {
    if |levels| == 0 then 0.0 else SumSizes(levels[..|levels| - 1]) + levels[|levels| - 1].1
  }

  lemma {:induction false} SumSizesAppend(a: seq<RawOrder>, b: seq<RawOrder>)
    ensures SumSizes(a + b) == SumSizes(a) + SumSizes(b)
    decreases |b|
  {
    if |b| == 0 {
      assert a + b == a;
    } else {
      assert (a + b)[..|a + b| - 1] == a + b[..|b| - 1];
      SumSizesAppend(a, b[..|b| - 1]);
    }
  }

  lemma SumSizesCons(x: RawOrder, s: seq<RawOrder>)
    ensures SumSizes([x] + s) == x.1 + SumSizes(s)
  {
    SumSizesAppend([x], s);
    assert [x][..0] == [];
  }

  /** With no negative quantity, the sum of any prefix lies between 0 and the
      whole sum. */
  lemma {:induction false} SumSizesPrefixBounds(levels: seq<RawOrder>, n: int)
    requires 0 <= n <= |levels|
    requires forall i :: 0 <= i < |levels| ==> levels[i].1 >= 0.0
    ensures 0.0 <= SumSizes(levels[..n]) <= SumSizes(levels)
    decreases |levels|
  {
    if n < |levels| {
      assert levels[..|levels| - 1][..n] == levels[..n];
      SumSizesPrefixBounds(levels[..|levels| - 1], n);
    } else {
      assert levels[..n] == levels;
      if n > 0 {
        SumSizesPrefixBounds(levels[..n - 1], n - 1);
        assert levels[..n - 1][..n - 1] == levels[..n - 1];
      }
    }
  }

  ghost predicate StrictlyDescending(s: seq<RawOrder>)
  {
    forall i, j :: 0 <= i < j < |s| ==> s[i].0 > s[j].0
  }

  ghost predicate DistinctPrices(s: seq<RawOrder>)
  {
    forall i, j :: 0 <= i < j < |s| ==> s[i].0 != s[j].0
  }

  ghost predicate HasPrice(s: seq<RawOrder>, p: real)
  {
    exists i :: 0 <= i < |s| && s[i].0 == p
  }

  ghost predicate NonNegativeSizes(s: seq<RawOrder>)
  {
    forall i :: 0 <= i < |s| ==> s[i].1 >= 0.0
  }

  lemma HasElement(keys: set<real>)
    ensures keys == {} || exists x :: x in keys
  {
    if !exists x :: x in keys {
      assert keys == {};
    }
  }

  lemma {:induction false} MaxKeyExists(keys: set<real>)
    requires keys != {}
    ensures exists k :: k in keys && forall j :: j in keys ==> j <= k
  {
    HasElement(keys);
    var x :| x in keys;
    if keys != {x} {
      var rest := keys - {x};
      MaxKeyExists(rest);
      var k :| k in rest && forall j :: j in rest ==> j <= k;
      var top := if x > k then x else k;
      forall j | j in keys ensures j <= top {
        if j != x { assert j in rest; }
      }
      assert top in keys;
    } else {
      forall j | j in keys ensures j <= x {
        assert j in {x};
      }
    }
  }

  /** The highest price of a non-empty side. */
  function MaxKey(m: map<real, real>): (k: real)
    requires |m| > 0
    ensures k in m && forall j :: j in m ==> j <= k
  {
    MaxKeyExists(m.Keys);
    var k :| k in m && forall j :: j in m ==> j <= k;
    k
  }

  /** Listing properties of a side, highest price first. */
  ghost predicate ListsDescending(m: map<real, real>, s: seq<RawOrder>)
  {
    && |s| == |m|
    && StrictlyDescending(s)
    && (forall i :: 0 <= i < |s| ==> s[i].0 in m && s[i].1 == m[s[i].0])
    && (forall p :: p in m ==> HasPrice(s, p))
  }

  /** Putting the highest price in front of a listing of the rest lists the
      whole side. */
  lemma ListsDescendingCons(m: map<real, real>, k: real, tail: seq<RawOrder>)
    requires k in m && forall j :: j in m ==> j <= k
    requires ListsDescending(m - {k}, tail)
    ensures ListsDescending(m, [(k, m[k])] + tail)
  {
    var s := [(k, m[k])] + tail;
    assert |(m - {k}).Keys| == |m.Keys - {k}| == |m.Keys| - 1;
    ConsEntries(m, k, tail);
    ConsDescending(m, k, tail);
    ConsCovers(m, k, tail);
  }

  lemma ConsEntries(m: map<real, real>, k: real, tail: seq<RawOrder>)
    requires k in m
    requires forall i :: 0 <= i < |tail| ==> tail[i].0 in m - {k} && tail[i].1 == (m - {k})[tail[i].0]
    ensures var s := [(k, m[k])] + tail;
      forall i :: 0 <= i < |s| ==> s[i].0 in m && s[i].1 == m[s[i].0]
  {
    var s := [(k, m[k])] + tail;
    forall i | 0 <= i < |s| ensures s[i].0 in m && s[i].1 == m[s[i].0] {
      if i > 0 { assert s[i] == tail[i - 1]; }
    }
  }

  lemma ConsDescending(m: map<real, real>, k: real, tail: seq<RawOrder>)
    requires k in m
    requires forall j :: j in m ==> j <= k
    requires StrictlyDescending(tail)
    requires forall i :: 0 <= i < |tail| ==> tail[i].0 in m - {k}
    ensures StrictlyDescending([(k, m[k])] + tail)
  {
    var s := [(k, m[k])] + tail;
    forall i, j | 0 <= i < j < |s| ensures s[i].0 > s[j].0 {
      assert s[j] == tail[j - 1];
      assert tail[j - 1].0 in m - {k};
      if i > 0 { assert s[i] == tail[i - 1]; }
    }
  }

  lemma ConsCovers(m: map<real, real>, k: real, tail: seq<RawOrder>)
    requires k in m
    requires forall p :: p in m - {k} ==> HasPrice(tail, p)
    ensures forall p :: p in m ==> HasPrice([(k, m[k])] + tail, p)
  {
    var s := [(k, m[k])] + tail;
    forall p | p in m ensures HasPrice(s, p) {
      if p == k {
        assert s[0].0 == p;
      } else {
        assert p in m - {k};
        var i :| 0 <= i < |tail| && tail[i].0 == p;
        assert s[i + 1].0 == p;
      }
    }
  }

  /** The first entry of a descending listing is the highest price, and the
      rest lists the side without it. */
  lemma ListsDescendingTail(m: map<real, real>, s: seq<RawOrder>)
    requires ListsDescending(m, s) && |s| > 0
    ensures s[0].0 in m && forall p :: p in m ==> p <= s[0].0
    ensures ListsDescending(m - {s[0].0}, s[1..])
  {
    var k := s[0].0;
    forall p | p in m ensures p <= k {
      var i :| 0 <= i < |s| && s[i].0 == p;
    }
    assert |(m - {k}).Keys| == |m.Keys - {k}| == |m.Keys| - 1;
    TailEntries(m, s);
    TailCovers(m, s);
  }

  lemma TailEntries(m: map<real, real>, s: seq<RawOrder>)
    requires |s| > 0 && StrictlyDescending(s)
    requires forall i :: 0 <= i < |s| ==> s[i].0 in m && s[i].1 == m[s[i].0]
    ensures StrictlyDescending(s[1..])
    ensures forall i :: 0 <= i < |s[1..]| ==> s[1..][i].0 in m - {s[0].0} && s[1..][i].1 == (m - {s[0].0})[s[1..][i].0]
  {
    var t := s[1..];
    forall i | 0 <= i < |t| ensures t[i].0 in m - {s[0].0} && t[i].1 == (m - {s[0].0})[t[i].0] {
      assert t[i] == s[i + 1];
    }
    forall i, j | 0 <= i < j < |t| ensures t[i].0 > t[j].0 {
      assert t[i] == s[i + 1] && t[j] == s[j + 1];
    }
  }

  lemma TailCovers(m: map<real, real>, s: seq<RawOrder>)
    requires |s| > 0
    requires forall p :: p in m ==> HasPrice(s, p)
    ensures forall p :: p in m - {s[0].0} ==> HasPrice(s[1..], p)
  {
    var t := s[1..];
    forall p | p in m - {s[0].0} ensures HasPrice(t, p) {
      var i :| 0 <= i < |s| && s[i].0 == p;
      assert t[i - 1].0 == p;
    }
  }

  /** A side has exactly one descending listing. */
  lemma {:induction false} ListsDescendingUnique(m: map<real, real>, s1: seq<RawOrder>, s2: seq<RawOrder>)
    requires ListsDescending(m, s1) && ListsDescending(m, s2)
    ensures s1 == s2
    decreases |s1|
  {
    if |s1| > 0 {
      ListsDescendingTail(m, s1);
      ListsDescendingTail(m, s2);
      assert s1[0].0 == s2[0].0;
      ListsDescendingUnique(m - {s1[0].0}, s1[1..], s2[1..]);
      assert s1 == [s1[0]] + s1[1..] && s2 == [s2[0]] + s2[1..];
    }
  }

  /** `Array.from(m).sort((a, b) => b[0] - a[0])`: the entries of a side,
      highest price first. */
  function SortDesc(m: map<real, real>): seq<RawOrder>
    decreases |m|
  {
    if |m| == 0 then []
    else
      var k := MaxKey(m);
      assert |(m - {k}).Keys| == |m.Keys - {k}| == |m.Keys| - 1;
      [(k, m[k])] + SortDesc(m - {k})
  }

  /** The sorted entries list every price of the side once, with its
      quantity, in strictly descending order. */
  lemma {:induction false} SortDescLists(m: map<real, real>)
    ensures ListsDescending(m, SortDesc(m))
    decreases |m|
  {
    if |m| > 0 {
      var k := MaxKey(m);
      assert |(m - {k}).Keys| == |m.Keys - {k}| == |m.Keys| - 1;
      SortDescLists(m - {k});
      ListsDescendingCons(m, k, SortDesc(m - {k}));
    }
  }

  /** The sorted entries are the one and only descending listing of the side. */
  lemma SortDescCharacterized(m: map<real, real>, s: seq<RawOrder>)
    ensures ListsDescending(m, s) <==> s == SortDesc(m)
  {
    SortDescLists(m);
    if ListsDescending(m, s) {
      ListsDescendingUnique(m, s, SortDesc(m));
    }
  }

  /** The bucket of a price: the largest multiple of the ticket size not above it. */
  function Bucket(price: real, ticketSize: real): (b: real)
    requires ticketSize > 0.0
    ensures b <= price < b + ticketSize
  {
    FloorScaled(price, ticketSize);
    (price / ticketSize).Floor as real * ticketSize
  }

  lemma FloorScaled(p: real, t: real)
    requires t > 0.0
    ensures (p / t).Floor as real * t <= p < (p / t).Floor as real * t + t
  {
    var x := p / t;
    var f := x.Floor as real;
    assert x * t == p;
    assert f <= x < f + 1.0;
    MulMonotone(f, x, t);
    assert f * t <= p;
    MulMonotone(x, f + 1.0, t);
    assert p < (f + 1.0) * t;
    assert (f + 1.0) * t == f * t + t;
  }

  lemma MulMonotone(a: real, b: real, t: real)
    requires t > 0.0
    ensures a <= b ==> a * t <= b * t
    ensures a < b ==> a * t < b * t
  {
  }

  /** A lower price never falls in a higher bucket. */
  lemma BucketMonotone(p: real, q: real, ticketSize: real)
    requires ticketSize > 0.0
    requires p <= q
    ensures Bucket(p, ticketSize) <= Bucket(q, ticketSize)
  {
    var x, y := p / ticketSize, q / ticketSize;
    MulMonotone(p, q, 1.0 / ticketSize);
    assert x <= y;
    assert x.Floor <= y.Floor;
    MulMonotone(x.Floor as real, y.Floor as real, ticketSize);
  }

  /** `map.set(b, (map.get(b) || 0) + size)` on an insertion-ordered map kept as
      a sequence: an existing bucket grows in place, a new one goes last. */
  function AddToBucket(g: seq<RawOrder>, b: real, size: real): seq<RawOrder>
  {
    if |g| == 0 then [(b, size)]
    else if g[0].0 == b then [(b, g[0].1 + size)] + g[1..]
    else [g[0]] + AddToBucket(g[1..], b, size)
  }

  /** On distinct keys, adding to a bucket keeps the keys distinct and their
      order; it adds `size` to bucket `b` when `b` is already present and
      appends `(b, size)` otherwise. */
  lemma {:induction false} AddToBucketShape(g: seq<RawOrder>, b: real, size: real)
    requires DistinctPrices(g)
    ensures var r := AddToBucket(g, b, size);
      && DistinctPrices(r)
      && (HasPrice(g, b) ==> |r| == |g|)
      && (!HasPrice(g, b) ==> |r| == |g| + 1 && r[|g|] == (b, size))
      && (forall i :: 0 <= i < |g| ==> r[i].0 == g[i].0)
      && (forall i :: 0 <= i < |g| ==> r[i].1 == if g[i].0 == b then g[i].1 + size else g[i].1)
    decreases |g|
  {
    if |g| > 0 && g[0].0 != b {
      var t := g[1..];
      assert DistinctPrices(t) by {
        forall i, j | 0 <= i < j < |t| ensures t[i].0 != t[j].0 {
          assert t[i] == g[i + 1] && t[j] == g[j + 1];
        }
      }
      AddToBucketShape(t, b, size);
      var tail := AddToBucket(t, b, size);
      assert HasPrice(g, b) <==> HasPrice(t, b) by {
        if HasPrice(g, b) {
          var i :| 0 <= i < |g| && g[i].0 == b;
          assert t[i - 1].0 == b;
        }
        if HasPrice(t, b) {
          var i :| 0 <= i < |t| && t[i].0 == b;
          assert g[i + 1].0 == b;
        }
      }
      var r := [g[0]] + tail;
      forall i | 1 <= i < |r| ensures r[i].0 != g[0].0 {
        if i - 1 < |t| {
          assert r[i].0 == t[i - 1].0 == g[i].0;
        } else {
          assert r[i].0 == b;
        }
      }
      forall i, j | 0 <= i < j < |r| ensures r[i].0 != r[j].0 {
        if i > 0 {
          assert r[i] == tail[i - 1] && r[j] == tail[j - 1];
        }
      }
      forall i | 0 <= i < |g| ensures r[i].0 == g[i].0 {
        if i > 0 { assert r[i] == tail[i - 1] && g[i] == t[i - 1]; }
      }
      forall i | 0 <= i < |g| ensures r[i].1 == if g[i].0 == b then g[i].1 + size else g[i].1 {
        if i > 0 { assert r[i] == tail[i - 1] && g[i] == t[i - 1]; }
      }
    } else if |g| > 0 {
      var r := AddToBucket(g, b, size);
      assert HasPrice(g, b) by { assert g[0].0 == b; }
      forall i, j | 0 <= i < j < |r| ensures r[i].0 != r[j].0 {
        assert r[i].0 == g[i].0 && r[j].0 == g[j].0;
      }
    }
  }

  /** groupByTicketSize: the `reduce` that folds every level into its bucket. */
  function GroupByTicketSize(levels: seq<RawOrder>, ticketSize: real): seq<RawOrder>
    requires ticketSize > 0.0
  {
    if |levels| == 0 then []
    else
      var last := levels[|levels| - 1];
      AddToBucket(GroupByTicketSize(levels[..|levels| - 1], ticketSize), Bucket(last.0, ticketSize), last.1)
  }

  /** Each bucket is listed once. */
  lemma {:induction false} GroupedDistinct(levels: seq<RawOrder>, ticketSize: real)
    requires ticketSize > 0.0
    ensures DistinctPrices(GroupByTicketSize(levels, ticketSize))
    decreases |levels|
  {
    if |levels| > 0 {
      var init := levels[..|levels| - 1];
      GroupedDistinct(init, ticketSize);
      AddToBucketShape(GroupByTicketSize(init, ticketSize), Bucket(levels[|levels| - 1].0, ticketSize), levels[|levels| - 1].1);
    }
  }

  /** Summed quantity of the levels whose price falls in bucket `b`. */
  function BucketSize(levels: seq<RawOrder>, ticketSize: real, b: real): real
    requires ticketSize > 0.0
  {
    if |levels| == 0 then 0.0
    else
      var last := levels[|levels| - 1];
      BucketSize(levels[..|levels| - 1], ticketSize, b) + if Bucket(last.0, ticketSize) == b then last.1 else 0.0
  }

  ghost predicate IsBucketOf(levels: seq<RawOrder>, ticketSize: real, b: real)
    requires ticketSize > 0.0
  {
    exists j :: 0 <= j < |levels| && Bucket(levels[j].0, ticketSize) == b
  }

  lemma AddToBucketHasPrice(g: seq<RawOrder>, b: real, size: real, p: real)
    requires DistinctPrices(g)
    ensures HasPrice(AddToBucket(g, b, size), p) <==> HasPrice(g, p) || p == b
  {
    AddToBucketShape(g, b, size);
    var r := AddToBucket(g, b, size);
    if HasPrice(r, p) {
      var i :| 0 <= i < |r| && r[i].0 == p;
      if i < |g| { assert g[i].0 == p; }
    }
    if HasPrice(g, p) {
      var i :| 0 <= i < |g| && g[i].0 == p;
      assert r[i].0 == p;
    }
    if p == b && !HasPrice(g, b) {
      assert r[|g|].0 == p;
    }
  }

  /** The buckets produced are exactly the buckets of the input prices, each
      listed once, and each holds the summed quantity of its input levels. */
  lemma {:induction false} GroupedBuckets(levels: seq<RawOrder>, ticketSize: real)
    requires ticketSize > 0.0
    ensures forall b :: HasPrice(GroupByTicketSize(levels, ticketSize), b) <==> IsBucketOf(levels, ticketSize, b)
    ensures forall i :: 0 <= i < |GroupByTicketSize(levels, ticketSize)| ==>
      GroupByTicketSize(levels, ticketSize)[i].1 == BucketSize(levels, ticketSize, GroupByTicketSize(levels, ticketSize)[i].0)
    decreases |levels|
  {
    if |levels| > 0 {
      var init := levels[..|levels| - 1];
      var last := levels[|levels| - 1];
      var b := Bucket(last.0, ticketSize);
      var g := GroupByTicketSize(init, ticketSize);
      var r := GroupByTicketSize(levels, ticketSize);
      GroupedBuckets(init, ticketSize);
      GroupedDistinct(init, ticketSize);
      AddToBucketShape(g, b, last.1);
      assert r == AddToBucket(g, b, last.1);
      forall p ensures HasPrice(r, p) <==> IsBucketOf(levels, ticketSize, p) {
        AddToBucketHasPrice(g, b, last.1, p);
        if IsBucketOf(init, ticketSize, p) {
          var j :| 0 <= j < |init| && Bucket(init[j].0, ticketSize) == p;
          assert levels[j] == init[j];
        }
        if IsBucketOf(levels, ticketSize, p) && p != b {
          var j :| 0 <= j < |levels| && Bucket(levels[j].0, ticketSize) == p;
          assert j < |init| && init[j] == levels[j];
        }
        assert Bucket(levels[|levels| - 1].0, ticketSize) == b;
      }
      forall i | 0 <= i < |r| ensures r[i].1 == BucketSize(levels, ticketSize, r[i].0) {
        if i == |g| {
          assert !HasPrice(g, b);
          assert !IsBucketOf(init, ticketSize, b);
          BucketSizeAbsent(init, ticketSize, b);
        }
      }
    }
  }

  lemma {:induction false} BucketSizeAbsent(levels: seq<RawOrder>, ticketSize: real, b: real)
    requires ticketSize > 0.0
    requires !IsBucketOf(levels, ticketSize, b)
    ensures BucketSize(levels, ticketSize, b) == 0.0
    decreases |levels|
  {
    if |levels| > 0 {
      var init := levels[..|levels| - 1];
      assert forall j :: 0 <= j < |init| ==> init[j] == levels[j];
      BucketSizeAbsent(init, ticketSize, b);
    }
  }

  lemma {:induction false} AddToBucketSum(g: seq<RawOrder>, b: real, size: real)
    requires DistinctPrices(g)
    ensures SumSizes(AddToBucket(g, b, size)) == SumSizes(g) + size
    decreases |g|
  {
    if |g| == 0 {
      assert [(b, size)][..0] == [];
    } else {
      assert g == [g[0]] + g[1..];
      SumSizesCons(g[0], g[1..]);
      if g[0].0 == b {
        SumSizesCons((b, g[0].1 + size), g[1..]);
      } else {
        AddToBucketSum(g[1..], b, size);
        SumSizesCons(g[0], AddToBucket(g[1..], b, size));
      }
    }
  }

  /** Grouping moves quantity between rows but neither creates nor loses any. */
  lemma {:induction false} GroupedSum(levels: seq<RawOrder>, ticketSize: real)
    requires ticketSize > 0.0
    ensures SumSizes(GroupByTicketSize(levels, ticketSize)) == SumSizes(levels)
    decreases |levels|
  {
    if |levels| > 0 {
      var init := levels[..|levels| - 1];
      GroupedSum(init, ticketSize);
      GroupedDistinct(init, ticketSize);
      AddToBucketSum(GroupByTicketSize(init, ticketSize), Bucket(levels[|levels| - 1].0, ticketSize), levels[|levels| - 1].1);
    }
  }

  /** Fed with levels in descending price order, grouping yields buckets in
      strictly descending order, the last one being the last level's bucket. */
  lemma {:induction false} GroupedDescending(levels: seq<RawOrder>, ticketSize: real)
    requires ticketSize > 0.0
    requires StrictlyDescending(levels)
    ensures StrictlyDescending(GroupByTicketSize(levels, ticketSize))
    ensures |levels| > 0 ==> |GroupByTicketSize(levels, ticketSize)| > 0
    ensures |levels| > 0 ==>
      GroupByTicketSize(levels, ticketSize)[|GroupByTicketSize(levels, ticketSize)| - 1].0 == Bucket(levels[|levels| - 1].0, ticketSize)
    decreases |levels|
  {
    if |levels| > 0 {
      var init := levels[..|levels| - 1];
      var last := levels[|levels| - 1];
      var b := Bucket(last.0, ticketSize);
      var g := GroupByTicketSize(init, ticketSize);
      var r := AddToBucket(g, b, last.1);
      assert StrictlyDescending(init) by {
        forall i, j | 0 <= i < j < |init| ensures init[i].0 > init[j].0 {
          assert init[i] == levels[i] && init[j] == levels[j];
        }
      }
      GroupedDescending(init, ticketSize);
      assert GroupByTicketSize(levels, ticketSize) == r;
      if |g| > 0 {
        BucketMonotone(last.0, init[|init| - 1].0, ticketSize);
      }
      AddToBucketDescending(g, b, last.1);
    }
  }

  /** A bucket no higher than the last one either merges into it or goes after it. */
  lemma AddToBucketDescending(g: seq<RawOrder>, b: real, size: real)
    requires StrictlyDescending(g)
    requires |g| > 0 ==> b <= g[|g| - 1].0
    ensures StrictlyDescending(AddToBucket(g, b, size))
    ensures |AddToBucket(g, b, size)| > 0 && AddToBucket(g, b, size)[|AddToBucket(g, b, size)| - 1].0 == b
  {
    AddToBucketShape(g, b, size);
    var r := AddToBucket(g, b, size);
    if |g| > 0 && b == g[|g| - 1].0 {
      assert HasPrice(g, b);
      forall i, j | 0 <= i < j < |r| ensures r[i].0 > r[j].0 {
        assert r[i].0 == g[i].0 && r[j].0 == g[j].0;
      }
    } else {
      assert forall i :: 0 <= i < |g| ==> g[i].0 >= g[|g| - 1].0;
      assert !HasPrice(g, b);
      forall i, j | 0 <= i < j < |r| ensures r[i].0 > r[j].0 {
        assert r[i].0 == g[i].0;
        if j < |g| { assert r[j].0 == g[j].0; }
      }
    }
  }

  lemma {:induction false} GroupedNonNegative(levels: seq<RawOrder>, ticketSize: real)
    requires ticketSize > 0.0
    requires NonNegativeSizes(levels)
    ensures NonNegativeSizes(GroupByTicketSize(levels, ticketSize))
    decreases |levels|
  {
    if |levels| > 0 {
      var init := levels[..|levels| - 1];
      assert NonNegativeSizes(init) by {
        forall i | 0 <= i < |init| ensures init[i].1 >= 0.0 {
          assert init[i] == levels[i];
        }
      }
      GroupedNonNegative(init, ticketSize);
      GroupedDistinct(init, ticketSize);
      AddToBucketShape(GroupByTicketSize(init, ticketSize), Bucket(levels[|levels| - 1].0, ticketSize), levels[|levels| - 1].1);
    }
  }
}
