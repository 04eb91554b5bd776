/**
 * `CIdentityWithHistory`: the versions of one identity the key store keeps,
 * keyed by the block height at which each version was confirmed.  Updates
 * only move the history forward and keep it at two entries once it has two.
 */
module IdentityHistory {
  import opened IdentityNames

  /** A block height: a `uint32_t`. */
  type Height = h: int | 0 <= h < 0x1_0000_0000

  /** A history value: whether it is valid, and the identity versions by height. */
  datatype IdentityWithHistory = IdentityWithHistory(valid: bool, ids: map<Height, Identity>)
  {
    predicate IsValid()
    {
      valid
    }
  }

  /** `ids.begin()->first`: the lowest stored height. */
  function MinKey<V>(m: map<Height, V>): (lo: Height)
    requires m != map[]
    ensures lo in m && forall k :: k in m ==> lo <= k
  {
    HasMinimum(m.Keys);
    var lo :| IsLowest(lo, m.Keys);
    lo
  }

  /** `ids.rbegin()->first`: the highest stored height. */
  function MaxKey<V>(m: map<Height, V>): (hi: Height)
    requires m != map[]
    ensures hi in m && forall k :: k in m ==> k <= hi
  {
    HasMaximum(m.Keys);
    var hi :| IsHighest(hi, m.Keys);
    hi
  }

  predicate IsLowest(lo: Height, s: set<Height>)
  {
    lo in s && forall k :: k in s ==> lo <= k
  }

  predicate IsHighest(hi: Height, s: set<Height>)
  {
    hi in s && forall k :: k in s ==> k <= hi
  }

  /** A non-empty set of heights has a lowest element. */
  lemma HasMinimum(s: set<Height>)
    requires s != {}
    ensures exists lo :: IsLowest(lo, s)
  {
    var x :| x in s;
    var rest := s - {x};
    if rest == {} {
      assert s == {x};
      assert IsLowest(x, s);
    } else {
      HasMinimum(rest);
      var lo :| IsLowest(lo, rest);
      var m := if x < lo then x else lo;
      assert s == rest + {x};
      assert IsLowest(m, s);
    }
  }

  /** A non-empty set of heights has a highest element. */
  lemma HasMaximum(s: set<Height>)
    requires s != {}
    ensures exists hi :: IsHighest(hi, s)
  {
    var x :| x in s;
    var rest := s - {x};
    if rest == {} {
      assert s == {x};
      assert IsHighest(x, s);
    } else {
      HasMaximum(rest);
      var hi :| IsHighest(hi, rest);
      var m := if x > hi then x else hi;
      assert s == rest + {x};
      assert IsHighest(m, s);
    }
  }

  /** Removing one present key leaves one key fewer. */
  lemma KeysBesides<V>(m: map<Height, V>, x: Height)
    requires x in m
    ensures (m - {x}).Keys == m.Keys - {x}
    ensures |m - {x}| == |m| - 1
  {
    var rest := m.Keys - {x};
    assert m.Keys == rest + {x};
    assert (m - {x}).Keys == rest;
  }

  /** A map with one entry has no other key; a larger one has another key. */
  lemma OtherKey<V>(m: map<Height, V>, x: Height)
    requires x in m
    ensures |m| == 1 <==> forall k :: k in m ==> k == x
  {
    KeysBesides(m, x);
    var rest := m.Keys - {x};
    if |m| != 1 {
      assert rest != {};
      var k :| k in rest;
      assert k in m && k != x;
    } else {
      assert |rest| == 0;
      forall k | k in m
        ensures k == x
      {
        assert k !in rest;
      }
    }
  }

  /**
   * What `CIdentityWithHistory::UpdateIdentity` does to a non-empty history:
   * with one entry, a version at a new height is added; otherwise a height
   * above the lowest one replaces the lowest entry unless it is the highest
   * height already; a height at or below the lowest one is refused.
   */
  function Updated(hist: IdentityWithHistory, identity: Identity, height: Height): (bool, IdentityWithHistory)
    requires hist.ids != map[]
  {
    var lo := MinKey(hist.ids);
    if |hist.ids| == 1 then
      (true, if height != lo then hist.(ids := hist.ids[height := identity]) else hist)
    else if height > lo then
      (true, if height != MaxKey(hist.ids)
             then hist.(ids := InsertAbsent(hist.ids - {lo}, height, identity))
             else hist)
    else
      (false, hist)
  }

  /** `std::map::insert`: adds the entry only when the key is absent. */
  function InsertAbsent<K, V>(m: map<K, V>, k: K, v: V): map<K, V>
  {
    if k in m then m else m[k := v]
  }

  /**
   * `CIdentityWithHistory::UpdateIdentity`, on a history value: erases and
   * inserts in a copy of `ids` and returns it with the verdict.  The
   * transaction identifier the source takes is unused there and is left out.
   */
  method UpdateIdentity(hist: IdentityWithHistory, identity: Identity, height: Height)
    returns (ok: bool, updated: IdentityWithHistory)
    requires hist.ids != map[]
    ensures (ok, updated) == Updated(hist, identity, height)
  {
    var ids := hist.ids;
    ok := true;
    if |ids| == 1 {
      if height != MinKey(ids) {
        ids := ids[height := identity];
      }
    } else if height > MinKey(ids) {
      if height != MaxKey(ids) {
        ids := ids - {MinKey(ids)};
        if height !in ids {
          ids := ids[height := identity];
        }
      }
    } else {
      ok := false;
    }
    updated := hist.(ids := ids);
  }

  /** An update is refused, leaving the history as it was, exactly when the history does not have one entry and the height is not above the lowest one. */
  lemma UpdateRefusal(hist: IdentityWithHistory, identity: Identity, height: Height)
    requires hist.ids != map[]
    ensures var (ok, updated) := Updated(hist, identity, height);
            (!ok <==> |hist.ids| != 1 && height <= MinKey(hist.ids)) &&
            (!ok ==> updated == hist) &&
            updated.valid == hist.valid
  {
  }

  /** A history of one or two entries still has one or two; a longer one does not grow. */
  lemma UpdateBounded(hist: IdentityWithHistory, identity: Identity, height: Height)
    requires hist.ids != map[]
    ensures var updated := Updated(hist, identity, height).1;
            updated.ids != map[] &&
            (|hist.ids| <= 2 ==> |updated.ids| <= 2) &&
            (|hist.ids| >= 2 ==> |updated.ids| <= |hist.ids|)
  {
    var lo := MinKey(hist.ids);
    var hi := MaxKey(hist.ids);
    OtherKey(hist.ids, lo);
    if |hist.ids| == 1 {
      if height != lo {
        var grown := hist.ids[height := identity];
        assert grown.Keys == {lo, height};
      }
    } else if height > lo && height != hi {
      var rest := hist.ids - {lo};
      KeysBesides(hist.ids, lo);
      assert hi != lo;
      if height !in rest {
        assert rest[height := identity].Keys == rest.Keys + {height};
      }
    }
  }

  /**
   * No stored version is overwritten, only the lowest height can disappear,
   * an accepted height is stored afterwards, and the highest stored height
   * never goes down.
   */
  lemma UpdateMovesForward(hist: IdentityWithHistory, identity: Identity, height: Height)
    requires hist.ids != map[]
    ensures var (ok, updated) := Updated(hist, identity, height);
            updated.ids != map[] &&
            (forall k :: k in hist.ids && k in updated.ids ==> updated.ids[k] == hist.ids[k]) &&
            (forall k :: k in hist.ids && k !in updated.ids ==> k == MinKey(hist.ids)) &&
            (ok ==> height in updated.ids) &&
            MaxKey(updated.ids) >= MaxKey(hist.ids)
  {
    var lo := MinKey(hist.ids);
    var hi := MaxKey(hist.ids);
    var updated := Updated(hist, identity, height).1;
    OtherKey(hist.ids, lo);
    if |hist.ids| != 1 && height > lo && height != hi {
      assert hi != lo;
    }
    assert hi in updated.ids;
  }

  /** Applies updates in order, ignoring the verdicts. */
  function ApplyUpdates(hist: IdentityWithHistory, updates: seq<(Identity, Height)>): IdentityWithHistory
    requires hist.ids != map[]
    decreases |updates|
  {
    if updates == [] then hist
    else
      UpdateBounded(hist, updates[0].0, updates[0].1);
      ApplyUpdates(Updated(hist, updates[0].0, updates[0].1).1, updates[1..])
  }

  /** A history started with one entry never holds more than two, whatever updates follow. */
  lemma {:induction false} HistoryStaysBounded(hist: IdentityWithHistory, updates: seq<(Identity, Height)>)
    requires 1 <= |hist.ids| <= 2
    ensures 1 <= |ApplyUpdates(hist, updates).ids| <= 2
    decreases |updates|
  {
    if updates != [] {
      UpdateBounded(hist, updates[0].0, updates[0].1);
      var next := Updated(hist, updates[0].0, updates[0].1).1;
      assert next.ids != map[];
      assert |next.ids| >= 1 by {
        var k :| k in next.ids;
        assert k in next.ids.Keys;
      }
      HistoryStaysBounded(next, updates[1..]);
    }
  }

  /** Versions at heights 100, 105 and 110 leave 105 and 110; a later one at 103 is refused. */
  lemma ForwardOnlyExample(a: Identity, b: Identity, c: Identity, d: Identity)
    ensures var m0: map<Height, Identity> := map[100 := a];
            100 in m0 &&
            Updated(IdentityWithHistory(true, m0), b, 105)
            == (true, IdentityWithHistory(true, map[100 := a, 105 := b]))
    ensures var m1: map<Height, Identity> := map[100 := a, 105 := b];
            100 in m1 &&
            Updated(IdentityWithHistory(true, m1), c, 110)
            == (true, IdentityWithHistory(true, map[105 := b, 110 := c]))
    ensures var m2: map<Height, Identity> := map[105 := b, 110 := c];
            105 in m2 &&
            Updated(IdentityWithHistory(true, m2), d, 103)
            == (false, IdentityWithHistory(true, m2))
  {
    var m0: map<Height, Identity> := map[100 := a];
    assert 100 in m0;
    assert MinKey(m0) == 100;
    var m1: map<Height, Identity> := map[100 := a, 105 := b];
    assert 100 in m1 && 105 in m1;
    assert MinKey(m1) == 100 && MaxKey(m1) == 105;
    OtherKey(m1, 100);
    assert |m1| != 1;
    assert InsertAbsent(m1 - {100}, 110, c) == map[105 := b, 110 := c];
    var m2: map<Height, Identity> := map[105 := b, 110 := c];
    assert 105 in m2 && 110 in m2;
    assert MinKey(m2) == 105;
    OtherKey(m2, 105);
  }
}
