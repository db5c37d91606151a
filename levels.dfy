/** The level store: per side, a mutable map from price to quantity, filled
    wholesale from a snapshot and updated level by level from deltas. */
module Levels {
  import opened Types

  /** The effect of one delta level on a side: a zero quantity removes the
      price, any other quantity inserts or overwrites it. */
  function ApplyLevel(m: map<real, real>, level: RawOrder): (r: map<real, real>)
    ensures (level.0 in r) == (level.1 != 0.0)
    ensures level.1 != 0.0 ==> r[level.0] == level.1
    ensures forall p :: p != level.0 ==> (p in r <==> p in m)
    ensures forall p :: p != level.0 && p in m ==> r[p] == m[p]
  {
    if level.1 == 0.0 then m - {level.0} else m[level.0 := level.1]
  }

  /** A side after the levels of a delta, applied in arrival order. */
  function ApplyLevels(m: map<real, real>, levels: seq<RawOrder>): map<real, real>
  {
    if |levels| == 0 then m
    else ApplyLevel(ApplyLevels(m, levels[..|levels| - 1]), levels[|levels| - 1])
  }

  /** The map built by the Map constructor from a list of entries: every entry
      is set in order, zero quantities included. */
  function EntriesToMap(entries: seq<RawOrder>): map<real, real>
  {
    if |entries| == 0 then map[]
    else EntriesToMap(entries[..|entries| - 1])[entries[|entries| - 1].0 := entries[|entries| - 1].1]
  }

  /** No price names level `p` from index `from` on. */
  ghost predicate NotMentionedFrom(levels: seq<RawOrder>, p: real, from: int)
  {
    forall i :: from <= i < |levels| && 0 <= i ==> levels[i].0 != p
  }

  /** Applying a prefix and then the rest is applying the whole: a delta may be
      split anywhere without changing its effect. */
  lemma {:induction false} ApplyLevelsAppend(m: map<real, real>, a: seq<RawOrder>, b: seq<RawOrder>)
    ensures ApplyLevels(m, a + b) == ApplyLevels(ApplyLevels(m, a), b)
    decreases |b|
  {
    if |b| == 0 {
      assert a + b == a;
    } else {
      assert (a + b)[..|a + b| - 1] == a + b[..|b| - 1];
      ApplyLevelsAppend(m, a, b[..|b| - 1]);
    }
  }

  /** A price that no level of the delta names keeps its state. */
  lemma {:induction false} ApplyLevelsUntouched(m: map<real, real>, levels: seq<RawOrder>, p: real)
    requires NotMentionedFrom(levels, p, 0)
    ensures p in ApplyLevels(m, levels) <==> p in m
    ensures p in m ==> ApplyLevels(m, levels)[p] == m[p]
    decreases |levels|
  {
    if |levels| > 0 {
      ApplyLevelsUntouched(m, levels[..|levels| - 1], p);
    }
  }

  /** The last level naming a price decides its final state: present with that
      quantity when it is non-zero, absent when it is zero. */
  lemma {:induction false} ApplyLevelsLastWins(m: map<real, real>, levels: seq<RawOrder>, k: int)
    requires 0 <= k < |levels|
    requires NotMentionedFrom(levels, levels[k].0, k + 1)
    ensures levels[k].0 in ApplyLevels(m, levels) <==> levels[k].1 != 0.0
    ensures levels[k].1 != 0.0 ==> ApplyLevels(m, levels)[levels[k].0] == levels[k].1
    decreases |levels|
  {
    if k < |levels| - 1 {
      ApplyLevelsLastWins(m, levels[..|levels| - 1], k);
    }
  }

  /** A side that holds no zero quantity keeps holding none after a delta. */
  lemma {:induction false} ApplyLevelsKeepsNoZero(m: map<real, real>, levels: seq<RawOrder>)
    requires forall p :: p in m ==> m[p] != 0.0
    ensures forall p :: p in ApplyLevels(m, levels) ==> ApplyLevels(m, levels)[p] != 0.0
    decreases |levels|
  {
    if |levels| > 0 {
      ApplyLevelsKeepsNoZero(m, levels[..|levels| - 1]);
    }
  }

  /** The prices of a snapshot side are exactly the prices its entries name. */
  lemma {:induction false} EntriesToMapKeys(entries: seq<RawOrder>, p: real)
    ensures p in EntriesToMap(entries) <==> exists i :: 0 <= i < |entries| && entries[i].0 == p
    decreases |entries|
  {
    if |entries| > 0 {
      var init := entries[..|entries| - 1];
      EntriesToMapKeys(init, p);
      if exists i :: 0 <= i < |init| && init[i].0 == p {
        var i :| 0 <= i < |init| && init[i].0 == p;
        assert entries[i].0 == p;
      }
    }
  }

  /** The last entry for a price gives its quantity in a snapshot side, zero
      quantities included. */
  lemma {:induction false} EntriesToMapLastWins(entries: seq<RawOrder>, k: int)
    requires 0 <= k < |entries|
    requires NotMentionedFrom(entries, entries[k].0, k + 1)
    ensures entries[k].0 in EntriesToMap(entries)
    ensures EntriesToMap(entries)[entries[k].0] == entries[k].1
    decreases |entries|
  {
    if k < |entries| - 1 {
      EntriesToMapLastWins(entries[..|entries| - 1], k);
    }
  }

  /** A snapshot is not filtered: a zero quantity in it is stored as zero,
      unlike the same level arriving in a delta. */
  lemma SnapshotKeepsZero(p: real)
    ensures p in EntriesToMap([(p, 0.0)]) && EntriesToMap([(p, 0.0)])[p] == 0.0
    ensures p !in ApplyLevels(map[], [(p, 0.0)])
  {
    assert [(p, 0.0)][..0] == [];
  }

  /** A JavaScript `Map<number, number>` holding one side of the book. */
  class PriceMap {
    var entries: map<real, real>

    /** `new Map(entries)`: sets every entry in order. */
    constructor FromEntries(pairs: seq<RawOrder>)
      ensures entries == EntriesToMap(pairs)
    {
      var m: map<real, real> := map[];
      var i := 0;
      while i < |pairs|
        invariant 0 <= i <= |pairs|
        invariant m == EntriesToMap(pairs[..i])
      {
        assert pairs[..i + 1][..i] == pairs[..i];
        m := m[pairs[i].0 := pairs[i].1];
        i := i + 1;
      }
      assert pairs[..|pairs|] == pairs;
      entries := m;
    }

    method Set(price: real, quantity: real)
      modifies this
      ensures entries == old(entries)[price := quantity]
    {
      entries := entries[price := quantity];
    }

    method Delete(price: real)
      modifies this
      ensures entries == old(entries) - {price}
    {
      entries := entries - {price};
    }

    /** One side's loop of processDelta: delete on zero, set otherwise. */
    method ApplyAll(levels: seq<RawOrder>)
      modifies this
      ensures entries == ApplyLevels(old(entries), levels)
    {
      var i := 0;
      while i < |levels|
        invariant 0 <= i <= |levels|
        invariant entries == ApplyLevels(old(entries), levels[..i])
      {
        assert levels[..i + 1][..i] == levels[..i];
        if levels[i].1 == 0.0 {
          Delete(levels[i].0);
        } else {
          Set(levels[i].0, levels[i].1);
        }
        i := i + 1;
      }
      assert levels[..|levels|] == levels;
    }
  }

  /** processDelta: applies the ask levels to `asks`, then the bid levels to
      `bids`, in place, and hands back the same two maps. */
  method ProcessDelta(delta: DeltaMessage, asks: PriceMap, bids: PriceMap)
    returns (newAsks: PriceMap, newBids: PriceMap)
    modifies asks, bids
    ensures newAsks == asks && newBids == bids
    ensures asks != bids ==> asks.entries == ApplyLevels(old(asks.entries), delta.asks)
    ensures asks != bids ==> bids.entries == ApplyLevels(old(bids.entries), delta.bids)
    ensures asks == bids ==> asks.entries == ApplyLevels(old(asks.entries), delta.asks + delta.bids)
  {
    asks.ApplyAll(delta.asks);
    bids.ApplyAll(delta.bids);
    ApplyLevelsAppend(old(asks.entries), delta.asks, delta.bids);
    newAsks, newBids := asks, bids;
  }
}
