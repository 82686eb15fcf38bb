/**
 The `groupby(keys)['Unidades_vendidas'].sum()` of a data frame, with the library's
 default `sort=True`: one entry per distinct key, keys in ascending order, units
 summed over the rows carrying that key. The key type and its order are parameters,
 so the monthly (`Año`, `Mes`) and the annual (`Año`) aggregates share one definition.
 */
module GroupBy {

  /** A key paired with a number of units: an input row projected onto its group key, or one output group. */
  datatype Keyed<K> = Keyed(key: K, units: nat)

  /** `lt` is irreflexive, transitive and relates any two distinct keys. */
  ghost predicate StrictTotalOrder<K(!new)>(lt: (K, K) -> bool) {
    && (forall x :: !lt(x, x))
    && (forall x, y, z :: lt(x, y) && lt(y, z) ==> lt(x, z))
    && (forall x, y :: x != y ==> lt(x, y) || lt(y, x))
  }

  /** Keys strictly increase along `g`; in particular no key occurs twice. */
  ghost predicate StrictlyAscending<K>(g: seq<Keyed<K>>, lt: (K, K) -> bool) {
    forall i, j :: 0 <= i < j < |g| ==> lt(g[i].key, g[j].key)
  }

  function KeySet<K>(g: seq<Keyed<K>>): set<K> {
    set i | 0 <= i < |g| :: g[i].key
  }

  /** Units of all entries of `g` whose key is `k`. */
  function UnitsAt<K(==)>(g: seq<Keyed<K>>, k: K): nat {
    if |g| == 0 then 0 else (if g[0].key == k then g[0].units else 0) + UnitsAt(g[1..], k)
  }

  /** Units of all entries of `g`. */
  function Total<K>(g: seq<Keyed<K>>): nat {
    if |g| == 0 then 0 else g[0].units + Total(g[1..])
  }

  lemma {:induction false} UnitsAtAbsent<K>(g: seq<Keyed<K>>, k: K)
    requires k !in KeySet(g)
    ensures UnitsAt(g, k) == 0
    decreases |g|
  {
    if |g| > 0 {
      assert g[0].key in KeySet(g);
      assert KeySet(g[1..]) <= KeySet(g) by {
        forall x | x in KeySet(g[1..]) ensures x in KeySet(g) {
          var i :| 0 <= i < |g[1..]| && g[1..][i].key == x;
          assert g[i + 1].key == x;
        }
      }
      UnitsAtAbsent(g[1..], k);
    }
  }

  /** In an ascending aggregate the units at an entry's key are that entry's units. */
  lemma {:induction false} UnitsAtAscending<K(!new)>(g: seq<Keyed<K>>, lt: (K, K) -> bool)
    requires StrictTotalOrder(lt) && StrictlyAscending(g, lt)
    ensures forall i :: 0 <= i < |g| ==> UnitsAt(g, g[i].key) == g[i].units
    decreases |g|
  {
    if |g| > 0 {
      var tail := g[1..];
      assert StrictlyAscending(tail, lt);
      UnitsAtAscending(tail, lt);
      assert g[0].key !in KeySet(tail);
      UnitsAtAbsent(tail, g[0].key);
      forall i | 1 <= i < |g| ensures UnitsAt(g, g[i].key) == g[i].units {
        assert tail[i - 1] == g[i];
        assert lt(g[0].key, g[i].key);
      }
    }
  }

  /** Prepending an entry whose key is below every key of an ascending aggregate keeps it ascending. */
  lemma {:induction false} AscendingCons<K(!new)>(e: Keyed<K>, g: seq<Keyed<K>>, lt: (K, K) -> bool)
    requires StrictlyAscending(g, lt)
    requires forall k :: k in KeySet(g) ==> lt(e.key, k)
    ensures StrictlyAscending([e] + g, lt)
  {
    forall i, j | 0 <= i < j < |[e] + g| ensures lt(([e] + g)[i].key, ([e] + g)[j].key) {
      if i == 0 {
        assert g[j - 1].key in KeySet(g);
      }
    }
  }

  lemma {:induction false} KeySetEmpty<K>(g: seq<Keyed<K>>)
    ensures KeySet(g) == {} <==> |g| == 0
  {
    if |g| > 0 {
      assert g[0].key in KeySet(g);
    }
  }

  lemma {:induction false} KeySetCons<K>(e: Keyed<K>, g: seq<Keyed<K>>)
    ensures KeySet([e] + g) == {e.key} + KeySet(g)
  {
    var r := [e] + g;
    forall x | x in KeySet(g) ensures x in KeySet(r) {
      var i :| 0 <= i < |g| && g[i].key == x;
      assert r[i + 1].key == x;
    }
    assert r[0].key == e.key;
  }

  /** The first key of an ascending aggregate is below every later key, and the rest is ascending. */
  lemma {:induction false} AscendingTail<K(!new)>(g: seq<Keyed<K>>, lt: (K, K) -> bool)
    requires |g| > 0 && StrictlyAscending(g, lt)
    ensures StrictlyAscending(g[1..], lt)
    ensures forall k :: k in KeySet(g[1..]) ==> lt(g[0].key, k)
  {
    forall k | k in KeySet(g[1..]) ensures lt(g[0].key, k) {
      var i :| 0 <= i < |g[1..]| && g[1..][i].key == k;
      assert g[i + 1].key == k;
    }
  }

  lemma {:induction false} ConsUnits<K>(e: Keyed<K>, g: seq<Keyed<K>>)
    ensures forall k :: UnitsAt([e] + g, k) == (if e.key == k then e.units else 0) + UnitsAt(g, k)
    ensures Total([e] + g) == e.units + Total(g)
  {
    assert ([e] + g)[1..] == g;
  }

  /** Adds `e.units` to the entry for `e.key`, inserting a new entry at its sorted position if there is none. */
  function AddUnits<K(==,!new)>(g: seq<Keyed<K>>, e: Keyed<K>, lt: (K, K) -> bool): (r: seq<Keyed<K>>)
    requires StrictTotalOrder(lt) && StrictlyAscending(g, lt)
    ensures StrictlyAscending(r, lt)
    ensures KeySet(r) == KeySet(g) + {e.key}
    ensures forall k :: UnitsAt(r, k) == UnitsAt(g, k) + (if k == e.key then e.units else 0)
    ensures Total(r) == Total(g) + e.units
    decreases |g|
  {
    if |g| == 0 then
      assert KeySet([e]) == {e.key} by { KeySetCons(e, []); }
      [e]
    else
      var head, tail := g[0], g[1..];
      assert g == [head] + tail;
      KeySetCons(head, tail);
      ConsUnits(head, tail);
      AscendingTail(g, lt);
      if head.key == e.key then
        var merged := Keyed(e.key, head.units + e.units);
        KeySetCons(merged, tail);
        AscendingCons(merged, tail, lt);
        ConsUnits(merged, tail);
        [merged] + tail
      else if lt(e.key, head.key) then
        KeySetCons(e, g);
        AscendingCons(e, g, lt);
        ConsUnits(e, g);
        [e] + g
      else
        var rest := AddUnits(tail, e, lt);
        KeySetCons(head, rest);
        AscendingCons(head, rest, lt);
        ConsUnits(head, rest);
        [head] + rest
  }

  /**
   The grouped sum of `obs`: strictly ascending keys, exactly the keys present in
   `obs`, and each group's units equal to the units of the observations with its key.
   */
  function GroupSum<K(==,!new)>(obs: seq<Keyed<K>>, lt: (K, K) -> bool): (r: seq<Keyed<K>>)
    requires StrictTotalOrder(lt)
    ensures StrictlyAscending(r, lt)
    ensures KeySet(r) == KeySet(obs)
    ensures forall k :: UnitsAt(r, k) == UnitsAt(obs, k)
    ensures forall i :: 0 <= i < |r| ==> r[i].units == UnitsAt(obs, r[i].key)
    ensures Total(r) == Total(obs)
    decreases |obs|
  {
    if |obs| == 0 then []
    else
      assert obs == [obs[0]] + obs[1..];
      KeySetCons(obs[0], obs[1..]);
      var r := AddUnits(GroupSum(obs[1..], lt), obs[0], lt);
      UnitsAtAscending(r, lt);
      r
  }

  /** An ascending aggregate is determined by its key set and the units at each key. */
  lemma {:induction false} AscendingAggregateUnique<K(!new)>(g1: seq<Keyed<K>>, g2: seq<Keyed<K>>, lt: (K, K) -> bool)
    requires StrictTotalOrder(lt)
    requires StrictlyAscending(g1, lt) && StrictlyAscending(g2, lt)
    requires KeySet(g1) == KeySet(g2)
    requires forall k :: UnitsAt(g1, k) == UnitsAt(g2, k)
    ensures g1 == g2
    decreases |g1|
  {
    KeySetEmpty(g1);
    KeySetEmpty(g2);
    if |g1| != 0 {
      assert g1[0].key in KeySet(g1);
      assert |g2| != 0;
      assert g2[0].key in KeySet(g2);
      var j :| 0 <= j < |g2| && g2[j].key == g1[0].key;
      var i :| 0 <= i < |g1| && g1[i].key == g2[0].key;
      assert g1[0].key == g2[0].key;
      var k0 := g1[0].key;
      var t1, t2 := g1[1..], g2[1..];
      AscendingTail(g1, lt);
      AscendingTail(g2, lt);
      KeySetCons(g1[0], t1);
      KeySetCons(g2[0], t2);
      ConsUnits(g1[0], t1);
      ConsUnits(g2[0], t2);
      assert g1 == [g1[0]] + t1 && g2 == [g2[0]] + t2;
      UnitsAtAbsent(t1, k0);
      UnitsAtAbsent(t2, k0);
      assert g1[0] == g2[0];
      assert KeySet(t1) == KeySet(t2);
      forall k ensures UnitsAt(t1, k) == UnitsAt(t2, k) {
        assert UnitsAt(g1, k) == UnitsAt(g2, k);
      }
      AscendingAggregateUnique(t1, t2, lt);
    }
  }
}
