/** The iteration order of a `TreeMap<Long, ...>`: keys in ascending order. */
module TreeOrder {
  import opened Choice

  /** `a` is the least element of `keys`. */
  predicate IsLeast(a: int, keys: set<int>)
  {
    a in keys && forall x :: x in keys ==> a <= x
  }

  /** A finite non-empty set of keys has a least element, the first key a
      `TreeMap` visits. */
  lemma {:induction false} LeastExists(keys: set<int>)
    requires keys != {}
    ensures exists a :: IsLeast(a, keys)
    decreases |keys|
  {
    var y := Pick(keys);
    var rest := keys - {y};
    if rest == {} {
      assert keys == {y};
      assert IsLeast(y, keys);
    } else {
      LeastExists(rest);
      var d :| IsLeast(d, rest);
      var least := if y < d then y else d;
      forall x | x in keys ensures least <= x {
        if x != y {
          assert x in rest;
        }
      }
      assert IsLeast(least, keys);
    }
  }

  /** Strictly ascending: the order in which a `TreeMap` visits its keys. */
  predicate Ascending(s: seq<int>)
  {
    forall i, j :: 0 <= i < j < |s| ==> s[i] < s[j]
  }

  /** The first element of an ascending list is its least. */
  lemma HeadIsLeast(s: seq<int>, x: int)
    requires Ascending(s) && x in s
    ensures s[0] <= x
  {
  }

  /** Without its head, an ascending list keeps every other element. */
  lemma TailMembers(s: seq<int>)
    requires Ascending(s) && |s| > 0
    ensures Ascending(s[1..])
    ensures forall x :: x in s[1..] <==> x in s && x != s[0]
  {
    forall x ensures x in s[1..] <==> x in s && x != s[0] {
      if x in s && x != s[0] {
        var k :| 0 <= k < |s| && s[k] == x;
        assert s[1..][k - 1] == x;
      }
    }
  }

  /** There is only one ascending listing of a set of keys, so the visiting
      order is fully determined by the keys. */
  lemma {:induction false} AscendingUnique(s: seq<int>, t: seq<int>)
    requires Ascending(s) && Ascending(t)
    requires forall x :: x in s <==> x in t
    ensures s == t
  {
    assert |s| > 0 ==> s[0] in s && s[0] in t;
    assert |t| > 0 ==> t[0] in t && t[0] in s;
    if |s| > 0 && |t| > 0 {
      HeadIsLeast(s, t[0]);
      HeadIsLeast(t, s[0]);
      TailMembers(s);
      TailMembers(t);
      AscendingUnique(s[1..], t[1..]);
      assert s == [s[0]] + s[1..] && t == [t[0]] + t[1..];
    }
  }
}
