/** Sums of the integer values of a map and of a list of (key, value) pairs,
    and how the two agree when the list enumerates the map's entries. */
module MapSums {
  import opened Choice

  lemma RemoveShrinks<K>(m: map<K, int>, k: K)
    requires k in m
    ensures |m - {k}| == |m| - 1
  {
    assert (m - {k}).Keys == m.Keys - {k};
  }

  /** The sum of all values of `m`, taken in no particular key order. */
  ghost function MapSum<K>(m: map<K, int>): int
    decreases |m|
  {
    if |m| == 0 then 0
    else
      var k := Pick(m.Keys);
      RemoveShrinks(m, k);
      m[k] + MapSum(m - {k})
  }

  /** The sum of the second components of `s`. */
  function SeqSum<K>(s: seq<(K, int)>): int
  {
    if |s| == 0 then 0 else s[0].1 + SeqSum(s[1..])
  }

  /** Any key can be taken out first: the order of summation does not matter. */
  lemma {:induction false} MapSumRemove<K>(m: map<K, int>, k: K)
    requires k in m
    ensures MapSum(m) == m[k] + MapSum(m - {k})
    decreases |m|
  {
    var j := Pick(m.Keys);
    if j != k {
      RemoveShrinks(m, j);
      RemoveShrinks(m, k);
      MapSumRemove(m - {j}, k);
      MapSumRemove(m - {k}, j);
      assert m - {j} - {k} == m - {k} - {j};
    }
  }

  lemma RemoveUpdated<K>(m: map<K, int>, k: K, v: int)
    ensures m[k := v] - {k} == m - {k}
  {
  }

  lemma RemoveAbsent<K>(m: map<K, int>, k: K)
    requires k !in m
    ensures m - {k} == m
  {
  }

  /** Overwriting (or adding) one entry changes the sum by the difference. */
  lemma MapSumUpdate<K>(m: map<K, int>, k: K, v: int)
    ensures MapSum(m[k := v]) == MapSum(m) - (if k in m then m[k] else 0) + v
  {
    MapSumRemove(m[k := v], k);
    RemoveUpdated(m, k, v);
    if k in m {
      MapSumRemove(m, k);
    } else {
      RemoveAbsent(m, k);
    }
  }

  lemma SetToMultisetAdd<T>(a: set<T>, e: T)
    requires e !in a
    ensures multiset(a + {e}) == multiset(a) + multiset{e}
  {
  }

  /** A list holding every entry of `m` exactly once sums to the map's sum. */
  lemma {:induction false} SeqSumOfEntries<K>(s: seq<(K, int)>, m: map<K, int>)
    requires multiset(s) == multiset(m.Items)
    ensures SeqSum(s) == MapSum(m)
    decreases |s|
  {
    if |s| > 0 {
      var e := s[0];
      assert e in multiset(m.Items);
      var k := e.0;
      assert k in m && m[k] == e.1;
      var rest := m - {k};
      assert rest.Items == m.Items - {e} by {
        forall p | p in m.Items ensures p in rest.Items <==> p != e {
          assert p.0 in m && m[p.0] == p.1;
        }
      }
      assert s == [e] + s[1..];
      assert multiset(s) == multiset{e} + multiset(s[1..]);
      assert m.Items == rest.Items + {e};
      assert e !in rest.Items;
      SetToMultisetAdd(rest.Items, e);
      assert multiset(m.Items) == multiset{e} + multiset(rest.Items);
      assert multiset(s[1..]) == multiset(s) - multiset{e};
      assert multiset(rest.Items) == multiset(m.Items) - multiset{e};
      SeqSumOfEntries(s[1..], rest);
      MapSumRemove(m, k);
    }
  }
}
