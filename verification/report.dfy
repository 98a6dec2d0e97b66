/** The output phase of the report (`Report.generateReport` without its
    formatting) and the whole run of `Report.main` on the lines of one file:
    accumulate, rank every day, then list the days in ascending order, each
    with its ranked entries. */
module Report {
  import opened JavaNumbers
  import opened JavaStrings
  import opened MapSums
  import opened DayTables
  import opened UrlHits
  import opened Ranking
  import opened TreeOrder

  /** One day of the report: the day key and its entries in printing order. */
  datatype DayReport = DayReport(day: int, entries: seq<Entry>)

  /** The day keys of a report, in order. */
  function Days(report: seq<DayReport>): (ds: seq<int>)
    ensures |ds| == |report|
    ensures forall i :: 0 <= i < |report| ==> ds[i] == report[i].day
  {
    if |report| == 0 then [] else [report[0].day] + Days(report[1..])
  }

  /** `report` visits the days of `sorted` in ascending order, each exactly
      once and with the entries stored for it. */
  predicate Lists(report: seq<DayReport>, sorted: map<int, seq<Entry>>)
  {
    && Ascending(Days(report))
    && (forall i :: 0 <= i < |report| ==>
          report[i].day in sorted && report[i].entries == sorted[report[i].day])
    && (forall d :: d in sorted ==> d in Days(report))
  }

  /** After the days outside `days` have been visited: the report lists
      exactly those, in ascending order, and all of them precede `days`. */
  ghost predicate VisitedAllBut(report: seq<DayReport>, sorted: map<int, seq<Entry>>, days: set<int>)
  {
    && days <= sorted.Keys
    && Ascending(Days(report))
    && (forall i :: 0 <= i < |report| ==>
          report[i].day in sorted.Keys - days && report[i].entries == sorted[report[i].day])
    && (forall d :: d in sorted.Keys - days ==> d in Days(report))
    && (forall i, x :: 0 <= i < |report| && x in days ==> report[i].day < x)
    && |report| + |days| == |sorted|
  }

  lemma DaysSnoc(report: seq<DayReport>, r: DayReport)
    ensures Days(report + [r]) == Days(report) + [r.day]
  {
    var next := report + [r];
    assert forall i :: 0 <= i < |report| ==> next[i] == report[i];
  }

  lemma AscendingSnoc(ds: seq<int>, d: int)
    requires Ascending(ds)
    requires forall i :: 0 <= i < |ds| ==> ds[i] < d
    ensures Ascending(ds + [d])
  {
  }

  lemma VisitInOrder(report: seq<DayReport>, days: set<int>, r: DayReport)
    requires Ascending(Days(report))
    requires forall i, x :: 0 <= i < |report| && x in days ==> report[i].day < x
    requires IsLeast(r.day, days)
    ensures Ascending(Days(report + [r]))
    ensures forall i, x :: 0 <= i < |report + [r]| && x in days - {r.day} ==> (report + [r])[i].day < x
  {
    DaysSnoc(report, r);
    forall i | 0 <= i < |Days(report)| ensures Days(report)[i] < r.day {
      assert report[i].day < r.day;
    }
    AscendingSnoc(Days(report), r.day);
  }

  lemma VisitCovers(report: seq<DayReport>, sorted: map<int, seq<Entry>>, days: set<int>, d: int)
    requires days <= sorted.Keys && d in days
    requires forall i :: 0 <= i < |report| ==>
      report[i].day in sorted.Keys - days && report[i].entries == sorted[report[i].day]
    requires forall x :: x in sorted.Keys - days ==> x in Days(report)
    ensures var next := report + [DayReport(d, sorted[d])];
      && (forall i :: 0 <= i < |next| ==>
            next[i].day in sorted.Keys - (days - {d}) && next[i].entries == sorted[next[i].day])
      && (forall x :: x in sorted.Keys - (days - {d}) ==> x in Days(next))
  {
    var next := report + [DayReport(d, sorted[d])];
    DaysSnoc(report, DayReport(d, sorted[d]));
    assert forall x :: x in Days(next) <==> x in Days(report) || x == d;
  }

  lemma VisitLeast(report: seq<DayReport>, sorted: map<int, seq<Entry>>, days: set<int>, d: int)
    requires VisitedAllBut(report, sorted, days)
    requires IsLeast(d, days)
    ensures VisitedAllBut(report + [DayReport(d, sorted[d])], sorted, days - {d})
  {
    VisitInOrder(report, days, DayReport(d, sorted[d]));
    VisitCovers(report, sorted, days, d);
    assert |days - {d}| == |days| - 1;
  }

  /** The loop of `generateReport`: the `TreeMap`'s key set is iterated from
      its least key upwards. */
  method GenerateReport(sorted: map<int, seq<Entry>>) returns (report: seq<DayReport>)
    ensures Lists(report, sorted)
    ensures |report| == |sorted|
  {
    report := [];
    var days := sorted.Keys;
    while days != {}
      invariant VisitedAllBut(report, sorted, days)
      decreases |days|
    {
      LeastExists(days);
      var d :| IsLeast(d, days);
      VisitLeast(report, sorted, days, d);
      report := report + [DayReport(d, sorted[d])];
      days := days - {d};
    }
    assert sorted.Keys - days == sorted.Keys;
  }

  /** There is only one report of a given set of rankings: whatever order the
      key set happens to be enumerated in, the printed order is the same. */
  lemma ListsUnique(r1: seq<DayReport>, r2: seq<DayReport>, sorted: map<int, seq<Entry>>)
    requires Lists(r1, sorted) && Lists(r2, sorted)
    ensures r1 == r2
  {
    var d1, d2 := Days(r1), Days(r2);
    forall x ensures x in d1 <==> x in d2 {
      if x in d1 {
        var i :| 0 <= i < |d1| && d1[i] == x;
        assert r1[i].day in sorted;
      }
      if x in d2 {
        var i :| 0 <= i < |d2| && d2[i] == x;
        assert r2[i].day in sorted;
      }
    }
    AscendingUnique(d1, d2);
    assert |r1| == |r2|;
    forall i | 0 <= i < |r1| ensures r1[i] == r2[i] {
      assert d1[i] == d2[i];
    }
  }

  /** What a run of the program on the lines of one file amounts to: it either
      dies on the line whose timestamp `Long.parseLong` rejects, or it prints
      the unexpected-line notice (when the tally is positive) and the report. */
  datatype RunResult =
    | Crashed(line: nat)
    | Finished(unexpected: Option<int>, report: seq<DayReport>)

  /** `processUrlHits`, `sortAllUrlHits` and `generateReport` in turn. */
  method RunReport(lines: seq<string>) returns (r: RunResult)
    ensures r.Crashed? <==> !NoBadTimestamp(lines)
    ensures r.Crashed? ==>
      r.line < |lines| && Classify(lines[r.line]).BadTimestamp? && NoBadTimestamp(lines[..r.line])
    ensures r.Finished? ==>
      && Ascending(Days(r.report))
      && (forall d :: d in Days(r.report) <==> d in DaysOf(Records(lines)))
      && (forall i :: 0 <= i < |r.report| ==> ByCountDesc(r.report[i].entries))
    ensures r.Finished? && |lines| <= IntMax ==>
      && (r.unexpected.Some? <==> exists i :: 0 <= i < |lines| && |Split(lines[i])| != 2)
      && (r.unexpected.Some? ==> r.unexpected.value == UnexpectedCount(lines))
      && (forall i :: 0 <= i < |r.report| ==>
            var e := r.report[i].entries;
            var day := r.report[i].day;
            && multiset(e) == multiset(Tabulate(Records(lines))[day].Items)
            && SeqSum(e) == DaySize(Records(lines), day))
  {
    var outcome := Process(lines);
    ProcessOutcome(lines);
    if |lines| <= IntMax && outcome.Completed? {
      ProcessTally(lines);
      UnexpectedCountPositive(lines);
    }
    if outcome.Aborted? {
      return Crashed(outcome.line);
    }
    var t := outcome.tally;
    var unexpected := if t.errors > 0 then Some(t.errors) else None;
    var sorted := SortAllUrlHits(t.hits);
    var report := GenerateReport(sorted);
    ReportDays(lines, sorted, report);
    if |lines| <= IntMax {
      ReportOfTally(lines, sorted, report);
    }
    r := Finished(unexpected, report);
  }

  /** The report built from a completed run's tables, of any length, shows
      exactly the days the hits fall on, each ranked by count. */
  lemma {:induction false} ReportDays(lines: seq<string>, sorted: map<int, seq<Entry>>, report: seq<DayReport>)
    requires Process(lines).Completed?
    requires sorted.Keys == Process(lines).tally.hits.Keys
    requires forall d :: d in sorted ==> Ranks(sorted[d], Process(lines).tally.hits[d])
    requires Lists(report, sorted)
    ensures forall d :: d in Days(report) <==> d in DaysOf(Records(lines))
    ensures forall i :: 0 <= i < |report| ==> ByCountDesc(report[i].entries)
  {
    ProcessDays(lines);
    forall d ensures d in Days(report) <==> d in sorted {
      if d in Days(report) {
        var i :| 0 <= i < |Days(report)| && Days(report)[i] == d;
        assert report[i].day in sorted;
      }
    }
    forall i | 0 <= i < |report| ensures ByCountDesc(report[i].entries) {
      assert Ranks(sorted[report[i].day], Process(lines).tally.hits[report[i].day]);
    }
  }

  /** The report built from a completed run of at most 2^31 - 1 lines shows,
      for each day, the day's reference table ranked by count, and its counts
      add up to the hits on that day. */
  lemma ReportOfTally(lines: seq<string>, sorted: map<int, seq<Entry>>, report: seq<DayReport>)
    requires Process(lines).Completed?
    requires |lines| <= IntMax
    requires sorted.Keys == Process(lines).tally.hits.Keys
    requires forall d :: d in sorted ==> Ranks(sorted[d], Process(lines).tally.hits[d])
    requires Lists(report, sorted)
    ensures forall i :: 0 <= i < |report| ==>
      var e := report[i].entries;
      var day := report[i].day;
      && day in Tabulate(Records(lines))
      && multiset(e) == multiset(Tabulate(Records(lines))[day].Items)
      && SeqSum(e) == DaySize(Records(lines), day)
  {
    var t := Process(lines).tally;
    var hs := Records(lines);
    ProcessTally(lines);
    TabulateDaySums(hs);
    forall d ensures d in Days(report) <==> d in DaysOf(hs) {
      if d in Days(report) {
        var i :| 0 <= i < |Days(report)| && Days(report)[i] == d;
        assert report[i].day in sorted;
      }
    }
    forall i | 0 <= i < |report|
      ensures SeqSum(report[i].entries) == DaySize(hs, report[i].day)
    {
      var day := report[i].day;
      assert Ranks(sorted[day], t.hits[day]);
      SeqSumOfEntries(report[i].entries, t.hits[day]);
    }
  }
}
