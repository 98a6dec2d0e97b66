/** The nested hit tables of the report: for every day key, a table from URL
    to hit count. Holds the single update the accumulation loop performs, and
    a reference description of the tables that a list of hits determines. */
module DayTables {
  import opened JavaNumbers
  import opened MapSums

  /** Per-day URL hit tables, keyed by day (a `TreeMap` of `HashMap`s). */
  type Hits = map<int, map<string, int>>

  /** One hit: a day key and a URL. */
  type Hit = (int, string)

  /** The table of `day`, empty when the day has none yet. */
  function TableOf(hits: Hits, day: int): map<string, int>
  {
    if day in hits then hits[day] else map[]
  }

  /** The count of `url` on `day`, 0 when absent (`getOrDefault(url, 0)`). */
  function CountOf(hits: Hits, day: int, url: string): int
  {
    if day in hits && url in hits[day] then hits[day][url] else 0
  }

  /** Stores count `c` for `url` on `day`, creating the day's table if needed. */
  function SetCount(hits: Hits, day: int, url: string, c: int): (r: Hits)
    ensures r.Keys == hits.Keys + {day}
    ensures r[day].Keys == TableOf(hits, day).Keys + {url}
    ensures CountOf(r, day, url) == c
    ensures forall d :: d in hits && d != day ==> r[d] == hits[d]
    ensures forall u :: u in TableOf(hits, day) && u != url ==> r[day][u] == hits[day][u]
  {
    hits[day := TableOf(hits, day)[url := c]]
  }

  /** The body of the accumulation loop for one valid line: the URL's count
      for the day goes up by one in Java `int` arithmetic, and no other count,
      URL or day changes. */
  function Accumulate(hits: Hits, day: int, url: string): (r: Hits)
    ensures r.Keys == hits.Keys + {day}
    ensures r[day].Keys == TableOf(hits, day).Keys + {url}
    ensures CountOf(r, day, url) == Inc32(CountOf(hits, day, url))
    ensures forall d, u :: (d, u) != (day, url) ==> CountOf(r, d, u) == CountOf(hits, d, u)
    ensures forall d :: d in hits && d != day ==> r[d] == hits[d]
  {
    SetCount(hits, day, url, Inc32(CountOf(hits, day, url)))
  }

  /** Below the `int` maximum the increment does not wrap. */
  lemma AccumulateNoWrap(hits: Hits, day: int, url: string)
    requires 0 <= CountOf(hits, day, url) < IntMax
    ensures Accumulate(hits, day, url) == SetCount(hits, day, url, CountOf(hits, day, url) + 1)
  {
  }

  /** The sum of all counts of all days. */
  ghost function TotalHits(hits: Hits): int
  {
    MapSum(map d | d in hits :: MapSum(hits[d]))
  }

  /** Changing one count changes its day's sum by the difference. */
  lemma SetCountDaySum(hits: Hits, day: int, url: string, c: int)
    ensures MapSum(SetCount(hits, day, url, c)[day])
         == MapSum(TableOf(hits, day)) - CountOf(hits, day, url) + c
  {
    MapSumUpdate(TableOf(hits, day), url, c);
  }

  /** Changing one count changes the total by the difference. */
  lemma SetCountTotal(hits: Hits, day: int, url: string, c: int)
    ensures TotalHits(SetCount(hits, day, url, c))
         == TotalHits(hits) - CountOf(hits, day, url) + c
  {
    var r := SetCount(hits, day, url, c);
    SetCountDaySum(hits, day, url, c);
    var newSum := MapSum(r[day]);
    var outer := map d | d in hits :: MapSum(hits[d]);
    var outer' := map d | d in r :: MapSum(r[d]);
    assert outer'.Keys == outer[day := newSum].Keys;
    forall d | d in outer' ensures outer'[d] == outer[day := newSum][d] {
      if d != day {
        assert r[d] == hits[d];
      }
    }
    assert outer' == outer[day := newSum];
    MapSumUpdate(outer, day, newSum);
  }

  // ---------------------------------------------------------------------------
  // The tables a list of hits determines, independently of any loop

  /** The days some hit falls on. */
  ghost function DaysOf(hs: seq<Hit>): set<int>
  {
    set h | h in hs :: h.0
  }

  /** The URLs hit on `day`. */
  ghost function UrlsOn(hs: seq<Hit>, day: int): set<string>
  {
    set h | h in hs && h.0 == day :: h.1
  }

  /** The number of hits of `url` on `day`. */
  ghost function Occurrences(hs: seq<Hit>, day: int, url: string): nat
  {
    multiset(hs)[(day, url)]
  }

  /** The number of hits on `day`. */
  function DaySize(hs: seq<Hit>, day: int): (n: nat)
    ensures n <= |hs|
  {
    if |hs| == 0 then 0
    else DaySize(hs[..|hs| - 1], day) + (if hs[|hs| - 1].0 == day then 1 else 0)
  }

  /** The tables that `hs` determines: a day is present when some hit has it,
      a URL is present under it when some hit has that pair, and its count is
      the number of such hits. */
  ghost function Tabulate(hs: seq<Hit>): Hits
  {
    map d | d in DaysOf(hs) :: DayTable(hs, d)
  }

  /** The reference table of one day. */
  ghost function DayTable(hs: seq<Hit>, day: int): map<string, int>
  {
    map u | u in UrlsOn(hs, day) :: Occurrences(hs, day, u)
  }

  lemma {:induction false} OccurrencesBound(hs: seq<Hit>, h: Hit)
    ensures multiset(hs)[h] <= |hs|
  {
    if |hs| > 0 {
      OccurrencesBound(hs[..|hs| - 1], h);
      assert hs == hs[..|hs| - 1] + [hs[|hs| - 1]];
    }
  }

  lemma UrlsOnMeansOccurs(hs: seq<Hit>, d: int, u: string)
    ensures u in UrlsOn(hs, d) <==> Occurrences(hs, d, u) > 0
  {
    if Occurrences(hs, d, u) > 0 {
      assert (d, u) in hs;
    }
  }

  lemma DaysOfMeansUrls(hs: seq<Hit>, d: int)
    ensures d in DaysOf(hs) <==> UrlsOn(hs, d) != {}
  {
    if d in DaysOf(hs) {
      var h :| h in hs && h.0 == d;
      assert h.1 in UrlsOn(hs, d);
    }
  }

  /** The reference count of a pair is its number of occurrences. */
  lemma TabulateCount(hs: seq<Hit>, d: int, u: string)
    ensures CountOf(Tabulate(hs), d, u) == Occurrences(hs, d, u)
  {
    UrlsOnMeansOccurs(hs, d, u);
    if Occurrences(hs, d, u) > 0 {
      assert (d, u) in hs;
      assert d in DaysOf(hs);
    }
  }

  lemma TabulateCountBelow(hs: seq<Hit>, d: int, u: string)
    requires |hs| < IntMax
    ensures 0 <= CountOf(Tabulate(hs), d, u) < IntMax
  {
    TabulateCount(hs, d, u);
    OccurrencesBound(hs, (d, u));
  }

  /** Below 2^31 - 1 hits, the loop's update of the reference tables of `hs`
      gives the reference tables of `hs` with one more hit. */
  lemma AccumulateTabulate(hs: seq<Hit>, day: int, url: string)
    requires |hs| < IntMax
    ensures Accumulate(Tabulate(hs), day, url) == Tabulate(hs + [(day, url)])
  {
    TabulateCountBelow(hs, day, url);
    AccumulateNoWrap(Tabulate(hs), day, url);
    TabulateSnoc(hs, day, url);
  }

  /** Every stored count lies between 1 and the number of hits. */
  lemma TabulateCountsBounded(hs: seq<Hit>)
    ensures forall d, u :: d in Tabulate(hs) && u in Tabulate(hs)[d] ==>
      1 <= Tabulate(hs)[d][u] <= |hs|
  {
    var t := Tabulate(hs);
    forall d, u | d in t && u in t[d] ensures 1 <= t[d][u] <= |hs| {
      UrlsOnMeansOccurs(hs, d, u);
      OccurrencesBound(hs, (d, u));
    }
  }

  lemma DaysOfSnoc(hs: seq<Hit>, day: int, url: string)
    ensures DaysOf(hs + [(day, url)]) == DaysOf(hs) + {day}
  {
    var hs' := hs + [(day, url)];
    assert (day, url) in hs';
    forall d | d in DaysOf(hs') ensures d in DaysOf(hs) + {day} {
      var h :| h in hs' && h.0 == d;
      if h != (day, url) { assert h in hs; }
    }
    forall d | d in DaysOf(hs) ensures d in DaysOf(hs') {
      var h :| h in hs && h.0 == d;
      assert h in hs';
    }
  }

  lemma UrlsOnSnoc(hs: seq<Hit>, day: int, url: string, d: int)
    ensures UrlsOn(hs + [(day, url)], d) == UrlsOn(hs, d) + (if d == day then {url} else {})
  {
    var hs' := hs + [(day, url)];
    assert (day, url) in hs';
    forall u | u in UrlsOn(hs', d) ensures u in UrlsOn(hs, d) + (if d == day then {url} else {}) {
      var h :| h in hs' && h.0 == d && h.1 == u;
      if h != (day, url) { assert h in hs; }
    }
    forall u | u in UrlsOn(hs, d) ensures u in UrlsOn(hs', d) {
      var h :| h in hs && h.0 == d && h.1 == u;
      assert h in hs';
    }
  }

  lemma OccurrencesSnoc(hs: seq<Hit>, day: int, url: string, d: int, u: string)
    ensures Occurrences(hs + [(day, url)], d, u)
         == Occurrences(hs, d, u) + (if (d, u) == (day, url) then 1 else 0)
  {
    assert multiset(hs + [(day, url)]) == multiset(hs) + multiset{(day, url)};
  }

  lemma DayTableSnocOther(hs: seq<Hit>, day: int, url: string, d: int)
    requires d != day
    ensures DayTable(hs + [(day, url)], d) == DayTable(hs, d)
  {
    UrlsOnSnoc(hs, day, url, d);
    forall u | u in UrlsOn(hs, d)
      ensures Occurrences(hs + [(day, url)], d, u) == Occurrences(hs, d, u)
    {
      OccurrencesSnoc(hs, day, url, d, u);
    }
  }

  lemma DayTableSnoc(hs: seq<Hit>, day: int, url: string)
    ensures var t := DayTable(hs, day);
      DayTable(hs + [(day, url)], day) == t[url := Occurrences(hs, day, url) + 1]
  {
    var t := DayTable(hs, day);
    var want := t[url := Occurrences(hs, day, url) + 1];
    var got := DayTable(hs + [(day, url)], day);
    UrlsOnSnoc(hs, day, url, day);
    assert got.Keys == want.Keys;
    forall u | u in want ensures got[u] == want[u] {
      OccurrencesSnoc(hs, day, url, day, u);
    }
  }

  lemma DayTableOfAbsentDay(hs: seq<Hit>, day: int)
    requires day !in DaysOf(hs)
    ensures DayTable(hs, day) == map[]
  {
    DaysOfMeansUrls(hs, day);
  }

  lemma TabulateSnocAt(hs: seq<Hit>, day: int, url: string, d: int)
    requires d in DaysOf(hs) + {day}
    ensures var t := Tabulate(hs);
      Tabulate(hs + [(day, url)])[d] == SetCount(t, day, url, CountOf(t, day, url) + 1)[d]
  {
    var t := Tabulate(hs);
    DaysOfSnoc(hs, day, url);
    if d == day {
      TabulateCount(hs, day, url);
      DayTableSnoc(hs, day, url);
      if day !in t {
        DayTableOfAbsentDay(hs, day);
      }
    } else {
      DayTableSnocOther(hs, day, url, d);
    }
  }

  /** The same days, each with the same table. The equality of two tables
      is proved through this pointwise form: one equation between two whole
      map comprehensions is far costlier for the solver than a fact per day. */
  predicate SameTables(a: Hits, b: Hits)
  {
    a.Keys == b.Keys && forall d :: d in a ==> a[d] == b[d]
  }

  lemma SameEntries(a: Hits, b: Hits)
    requires SameTables(a, b)
    ensures a == b
  {
    assert forall d :: d in a <==> d in b;
    assert forall d :: d in a ==> a[d] == b[d];
  }

  /** One more hit adds one to exactly one count of the reference tables. */
  lemma TabulateSnoc(hs: seq<Hit>, day: int, url: string)
    ensures Tabulate(hs + [(day, url)])
         == SetCount(Tabulate(hs), day, url, CountOf(Tabulate(hs), day, url) + 1)
  {
    TabulateSnocTables(hs, day, url);
    SameEntries(Tabulate(hs + [(day, url)]),
      SetCount(Tabulate(hs), day, url, CountOf(Tabulate(hs), day, url) + 1));
  }

  /** `TabulateSnoc` day by day, each day proved by `TabulateSnocAt`. */
  lemma TabulateSnocTables(hs: seq<Hit>, day: int, url: string)
    ensures SameTables(Tabulate(hs + [(day, url)]),
      SetCount(Tabulate(hs), day, url, CountOf(Tabulate(hs), day, url) + 1))
  {
    DaysOfSnoc(hs, day, url);
    forall d | d in Tabulate(hs + [(day, url)])
      ensures var t := Tabulate(hs);
        Tabulate(hs + [(day, url)])[d] == SetCount(t, day, url, CountOf(t, day, url) + 1)[d]
    {
      TabulateSnocAt(hs, day, url, d);
    }
  }

  lemma DaySizeSnoc(hs: seq<Hit>, day: int, url: string, d: int)
    ensures DaySize(hs + [(day, url)], d) == DaySize(hs, d) + (if d == day then 1 else 0)
  {
    assert (hs + [(day, url)])[..|hs|] == hs;
  }

  lemma DaySumStepAt(hs: seq<Hit>, day: int, url: string, d: int)
    requires d in Tabulate(hs + [(day, url)])
    requires d in Tabulate(hs) ==> MapSum(Tabulate(hs)[d]) == DaySize(hs, d)
    ensures MapSum(Tabulate(hs + [(day, url)])[d]) == DaySize(hs + [(day, url)], d)
  {
    DaysOfSnoc(hs, day, url);
    TabulateSnocAt(hs, day, url, d);
    DaySizeSnoc(hs, day, url, d);
    if d !in Tabulate(hs) {
      TabulateAbsentDay(hs, d);
    }
    DaySumAfterHit(Tabulate(hs), day, url, d, DaySize(hs, d), DaySize(hs + [(day, url)], d));
  }

  /** After one more hit on `day`, that day's sum goes up by one and every
      other day's sum stays. */
  lemma DaySumAfterHit(t: Hits, day: int, url: string, d: int, before: int, after: int)
    requires d in t || d == day
    requires d in t ==> MapSum(t[d]) == before
    requires d !in t ==> before == 0
    requires after == before + (if d == day then 1 else 0)
    ensures MapSum(SetCount(t, day, url, CountOf(t, day, url) + 1)[d]) == after
  {
    if d == day {
      IncrementDaySum(t, day, url, before);
    }
  }

  lemma TabulateAbsentDay(hs: seq<Hit>, day: int)
    requires day !in Tabulate(hs)
    ensures DaySize(hs, day) == 0
  {
    assert day !in DaysOf(hs);
    TabulateDaySizeZero(hs, day);
  }

  /** One more hit on `day` adds one to that day's sum. */
  lemma IncrementDaySum(t: Hits, day: int, url: string, before: int)
    requires day in t ==> MapSum(t[day]) == before
    requires day !in t ==> before == 0
    ensures MapSum(SetCount(t, day, url, CountOf(t, day, url) + 1)[day]) == before + 1
  {
    SetCountDaySum(t, day, url, CountOf(t, day, url) + 1);
    if day !in t {
      assert TableOf(t, day) == map[];
    }
  }

  lemma {:induction false} TabulateDaySizeZero(hs: seq<Hit>, day: int)
    requires day !in DaysOf(hs)
    ensures DaySize(hs, day) == 0
  {
    if |hs| > 0 {
      var prefix := hs[..|hs| - 1];
      assert hs[|hs| - 1] in hs;
      assert forall h :: h in prefix ==> h in hs;
      TabulateDaySizeZero(prefix, day);
    }
  }

  lemma DaySumsStep(hs: seq<Hit>, day: int, url: string)
    requires forall d :: d in Tabulate(hs) ==> MapSum(Tabulate(hs)[d]) == DaySize(hs, d)
    ensures var hs' := hs + [(day, url)];
      forall d :: d in Tabulate(hs') ==> MapSum(Tabulate(hs')[d]) == DaySize(hs', d)
  {
    forall d | d in Tabulate(hs + [(day, url)])
      ensures MapSum(Tabulate(hs + [(day, url)])[d]) == DaySize(hs + [(day, url)], d)
    {
      DaySumStepAt(hs, day, url, d);
    }
  }

  /** The counts of one day add up to the number of hits on that day. */
  lemma {:induction false} TabulateDaySums(hs: seq<Hit>)
    ensures forall d :: d in Tabulate(hs) ==> MapSum(Tabulate(hs)[d]) == DaySize(hs, d)
  {
    if |hs| > 0 {
      var prefix := hs[..|hs| - 1];
      TabulateDaySums(prefix);
      DaySumsStep(prefix, hs[|hs| - 1].0, hs[|hs| - 1].1);
      assert hs == prefix + [(hs[|hs| - 1].0, hs[|hs| - 1].1)];
    }
  }

  lemma TotalStep(hs: seq<Hit>, day: int, url: string)
    ensures TotalHits(Tabulate(hs + [(day, url)])) == TotalHits(Tabulate(hs)) + 1
  {
    TabulateSnoc(hs, day, url);
    IncrementTotal(Tabulate(hs), day, url);
  }

  lemma IncrementTotal(t: Hits, day: int, url: string)
    ensures TotalHits(SetCount(t, day, url, CountOf(t, day, url) + 1)) == TotalHits(t) + 1
  {
    SetCountTotal(t, day, url, CountOf(t, day, url) + 1);
  }

  /** The counts of all days add up to the number of hits. */
  lemma {:induction false} TabulateTotal(hs: seq<Hit>)
    ensures TotalHits(Tabulate(hs)) == |hs|
  {
    if |hs| > 0 {
      var prefix := hs[..|hs| - 1];
      TabulateTotal(prefix);
      TotalStep(prefix, hs[|hs| - 1].0, hs[|hs| - 1].1);
      assert hs == prefix + [(hs[|hs| - 1].0, hs[|hs| - 1].1)];
    }
  }
}
