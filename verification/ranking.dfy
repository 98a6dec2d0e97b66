/** The per-day ordering of the report (`Report.sortAllUrlHits`): every day's
    URL table is listed, the list is sorted by hit count, largest first, and
    the sorted list replaces the table. */
module Ranking {
  import opened DayTables
  import opened MapSums
  import opened TreeOrder

  /** One line of a day's ranking: a URL and its hit count. */
  type Entry = (string, int)

  /** Counts never increase along the list. */
  predicate ByCountDesc(s: seq<Entry>)
  {
    forall i, j :: 0 <= i < j < |s| ==> s[i].1 >= s[j].1
  }

  /** `ranked` lists the entries of `table`, each exactly once, largest count
      first. */
  ghost predicate Ranks(ranked: seq<Entry>, table: map<string, int>)
  {
    ByCountDesc(ranked) && multiset(ranked) == multiset(table.Items)
  }

  /** Puts `e` in front of the first entry whose count does not exceed its own. */
  function Insert(e: Entry, s: seq<Entry>): (r: seq<Entry>)
    requires ByCountDesc(s)
    ensures ByCountDesc(r)
    ensures multiset(r) == multiset(s) + multiset{e}
    ensures |r| == |s| + 1
    ensures |s| == 0 ==> r == [e]
    ensures |s| > 0 ==> r[0] == e || r[0] == s[0]
  {
    if |s| == 0 then [e]
    else if e.1 >= s[0].1 then [e] + s
    else
      var rest := Insert(e, s[1..]);
      assert s == [s[0]] + s[1..];
      assert multiset([s[0]] + rest) == multiset{s[0]} + multiset(rest);
      assert forall j :: 0 <= j < |rest| ==> rest[0].1 >= rest[j].1;
      [s[0]] + rest
  }

  /** A comparison sort by count, largest first (the list's
      `sort(Collections.reverseOrder(Entry.comparingByValue()))`). */
  function SortByCount(s: seq<Entry>): (r: seq<Entry>)
    ensures ByCountDesc(r)
    ensures multiset(r) == multiset(s)
  {
    if |s| == 0 then []
    else
      assert s == [s[0]] + s[1..];
      Insert(s[0], SortByCount(s[1..]))
  }

  /** A list that is already in order is left as it is. */
  lemma {:induction false} SortKeepsOrderedList(s: seq<Entry>)
    requires ByCountDesc(s)
    ensures SortByCount(s) == s
  {
    if |s| > 0 {
      SortKeepsOrderedList(s[1..]);
      assert s == [s[0]] + s[1..];
    }
  }

  /** Sorting twice is sorting once. */
  lemma {:induction false} SortIdempotent(s: seq<Entry>)
    ensures SortByCount(SortByCount(s)) == SortByCount(s)
  {
    SortKeepsOrderedList(SortByCount(s));
  }

  /** The entries of a table in some order (`new ArrayList<>(table.entrySet())`):
      `HashMap` iteration order is not specified, so the order is left open. */
  method EntryList(table: map<string, int>) returns (es: seq<Entry>)
    ensures multiset(es) == multiset(table.Items)
  {
    es := [];
    var rest := table.Items;
    while rest != {}
      invariant rest <= table.Items
      invariant multiset(es) + multiset(rest) == multiset(table.Items)
      decreases |rest|
    {
      var e :| e in rest;
      SetToMultisetAdd(rest - {e}, e);
      assert rest - {e} + {e} == rest;
      es := es + [e];
      rest := rest - {e};
    }
  }

  lemma RepeatedElement<T>(s: seq<T>, i: int, j: int)
    requires 0 <= i < j < |s| && s[i] == s[j]
    ensures multiset(s)[s[i]] >= 2
  {
    assert s == s[..j] + [s[j]] + s[j + 1..];
    assert s[i] in s[..j];
  }

  /** A list with the same elements as a table's entries names every URL of
      the table exactly once, each with its count, and nothing else. */
  lemma ListsTable(es: seq<Entry>, table: map<string, int>)
    requires multiset(es) == multiset(table.Items)
    ensures |es| == |table|
    ensures forall i :: 0 <= i < |es| ==> es[i].0 in table && table[es[i].0] == es[i].1
    ensures forall i, j :: 0 <= i < j < |es| ==> es[i].0 != es[j].0
    ensures forall u :: u in table ==> exists i :: 0 <= i < |es| && es[i] == (u, table[u])
  {
    assert |es| == |multiset(es)| == |table.Items|;
    assert |table.Items| == |table|;
    forall i | 0 <= i < |es| ensures es[i].0 in table && table[es[i].0] == es[i].1 {
      assert es[i] in multiset(table.Items);
    }
    forall i, j | 0 <= i < j < |es| ensures es[i].0 != es[j].0 {
      if es[i].0 == es[j].0 {
        assert es[i] in multiset(table.Items) && es[j] in multiset(table.Items);
        RepeatedElement(es, i, j);
      }
    }
    forall u | u in table ensures exists i :: 0 <= i < |es| && es[i] == (u, table[u]) {
      assert (u, table[u]) in table.Items;
      assert (u, table[u]) in multiset(es);
    }
  }

  /** `LinkedHashMap.put` on a map kept as its insertion-ordered entry list:
      an existing key keeps its place and takes the new value, a new key goes
      to the end. */
  function LinkedPut(m: seq<Entry>, key: string, value: int): (r: seq<Entry>)
    ensures |r| == |m| || r == m + [(key, value)]
    ensures forall i :: 0 <= i < |m| ==> r[i].0 == m[i].0
    ensures |r| == |m| + 1 <==> forall i :: 0 <= i < |m| ==> m[i].0 != key
    ensures forall i :: 0 <= i < |m| && m[i].0 != key ==> r[i] == m[i]
    ensures forall i :: 0 <= i < |m| && m[i].0 == key && (forall j :: 0 <= j < i ==> m[j].0 != key)
              ==> r[i] == (key, value)
  {
    if |m| == 0 then [(key, value)]
    else if m[0].0 == key then [(key, value)] + m[1..]
    else [m[0]] + LinkedPut(m[1..], key, value)
  }

  /** The `LinkedHashMap` that `put`s every entry of `es` in turn. */
  function LinkedFrom(es: seq<Entry>): seq<Entry>
  {
    if |es| == 0 then [] else LinkedPut(LinkedFrom(es[..|es| - 1]), es[|es| - 1].0, es[|es| - 1].1)
  }

  lemma {:induction false} LinkedPutNew(m: seq<Entry>, key: string, value: int)
    requires forall i :: 0 <= i < |m| ==> m[i].0 != key
    ensures LinkedPut(m, key, value) == m + [(key, value)]
  {
    if |m| > 0 {
      LinkedPutNew(m[1..], key, value);
    }
  }

  /** Putting entries with distinct URLs keeps exactly the list's order, so the
      day's `LinkedHashMap` iterates in sorted order. */
  lemma {:induction false} LinkedFromDistinct(es: seq<Entry>)
    requires forall i, j :: 0 <= i < j < |es| ==> es[i].0 != es[j].0
    ensures LinkedFrom(es) == es
  {
    if |es| > 0 {
      var prefix := es[..|es| - 1];
      LinkedFromDistinct(prefix);
      LinkedPutNew(prefix, es[|es| - 1].0, es[|es| - 1].1);
    }
  }

  /** The ranking of one day: its entries sorted by count, then copied into an
      insertion-ordered map. */
  method RankDay(table: map<string, int>) returns (ranked: seq<Entry>)
    ensures ByCountDesc(ranked)
    ensures multiset(ranked) == multiset(table.Items)
  {
    var es := EntryList(table);
    var sortedList := SortByCount(es);
    ListsTable(sortedList, table);
    LinkedFromDistinct(sortedList);
    ranked := LinkedFrom(sortedList);
  }

  /** Every day's table replaced by its ranking, visiting the days in the
      `TreeMap`'s ascending order; the days stay the same. */
  method SortAllUrlHits(hits: Hits) returns (sorted: map<int, seq<Entry>>)
    ensures sorted.Keys == hits.Keys
    ensures forall d :: d in sorted ==> Ranks(sorted[d], hits[d])
  {
    sorted := map[];
    var days := hits.Keys;
    while days != {}
      invariant days <= hits.Keys
      invariant sorted.Keys == hits.Keys - days
      invariant forall d :: d in sorted ==> Ranks(sorted[d], hits[d])
      decreases |days|
    {
      LeastExists(days);
      var d :| IsLeast(d, days);
      var ranked := RankDay(hits[d]);
      sorted := sorted[d := ranked];
      days := days - {d};
    }
  }
}
