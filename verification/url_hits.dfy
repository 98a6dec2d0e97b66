/** The accumulation phase of the report (`Report.processUrlHits`): every input
    line is split on `|`, lines without exactly two tokens are tallied as
    unexpected, and every other line adds one hit for its URL on the UTC day
    of its timestamp. */
module UrlHits {
  import opened JavaNumbers
  import opened JavaStrings
  import opened MapSums
  import opened DayTables

  const SecondsPerDay: int := 86400

  /** `(t / 86400L) * 86400L` in Java: the start of the UTC day of a
      non-negative timestamp. The quotient is rounded toward zero, so a
      negative timestamp is rounded UP to a multiple of a day. */
  function DayKey(t: int): (key: int)
    ensures key % SecondsPerDay == 0
    ensures t >= 0 ==> 0 <= key <= t < key + SecondsPerDay
    ensures t < 0 ==> key - SecondsPerDay < t <= key <= 0
    ensures key == 0 <==> -SecondsPerDay < t < SecondsPerDay
  {
    JavaDiv(t, SecondsPerDay) * SecondsPerDay
  }

  /** Two timestamps share a day key exactly when their day quotients agree. */
  lemma SameQuotientSameDay(t1: int, t2: int)
    ensures DayKey(t1) == DayKey(t2) <==> JavaDiv(t1, SecondsPerDay) == JavaDiv(t2, SecondsPerDay)
  {
  }

  /** A day key is its own day key. */
  lemma DayKeyIdempotent(t: int)
    ensures DayKey(DayKey(t)) == DayKey(t)
  {
    var q := JavaDiv(t, SecondsPerDay);
    var key := q * SecondsPerDay;
    if key >= 0 {
      assert JavaDiv(key, SecondsPerDay) == q;
    } else {
      assert JavaDiv(key, SecondsPerDay) == q;
    }
  }

  /** What one input line contributes. */
  datatype LineKind =
    | Unexpected                  // not exactly two tokens: counted, skipped
    | BadTimestamp                // two tokens, first not a long: parseLong throws
    | Hit(day: int, url: string)  // one hit for `url` on day `day`

  function Classify(line: string): (k: LineKind)
    ensures k.Unexpected? <==> |Split(line)| != 2
    ensures k.BadTimestamp? <==> |Split(line)| == 2 && ParseLong(Split(line)[0]).None?
    ensures k.Hit? ==> k.url == Split(line)[1] && k.url != "" && Bar !in k.url
    ensures k.Hit? ==> IsLong(k.day) && k.day % SecondsPerDay == 0
    ensures k.Hit? ==>
      ParseLong(Split(line)[0]).Some? && k.day == DayKey(ParseLong(Split(line)[0]).value)
  {
    var tokens := Split(line);
    if |tokens| != 2 then Unexpected
    else match ParseLong(tokens[0])
      case None => BadTimestamp
      case Some(t) => Hit(DayKey(t), tokens[1])
  }

  lemma LongTextHasNoBar(n: int)
    ensures Bar !in LongToString(n)
  {
    var s := LongToString(n);
    if n < 0 {
      assert s == "-" + NatToDigits(-n);
      assert forall i :: 1 <= i < |s| ==> IsDigit(s[i]);
    }
  }

  /** A line written as `<timestamp>|<url>`, possibly followed by more bars, is
      read back as one hit for that URL on the timestamp's day. */
  lemma ClassifyRecord(t: int, url: string, k: nat)
    requires IsLong(t)
    requires url != "" && Bar !in url
    ensures Classify(LongToString(t) + [Bar] + url + Bars(k)) == Hit(DayKey(t), url)
  {
    LongTextHasNoBar(t);
    TwoTokensOf(LongToString(t), url, k);
    ParseLongRoundTrip(t);
  }

  /** `"5|"` splits into the single token `"5"`, so it is an unexpected line. */
  lemma TrailingBarIsUnexpected()
    ensures Classify("5|").Unexpected?
  {
    assert "5|"[1..] == "|" && "|"[1..] == "";
    assert Fields("") == [""];
    assert Fields("|") == ["", ""];
    assert ['5'] + "" == "5";
    assert Fields("5|") == ["5", ""];
  }

  /** The state of the loop: the tables and the unexpected-line tally. */
  datatype Tally = Tally(hits: Hits, errors: int)

  /** The loop either reads every line, or stops at the line whose timestamp
      `Long.parseLong` rejected: the exception is not caught, so the tally
      is never printed and no report follows. */
  datatype Outcome = Completed(tally: Tally) | Aborted(line: nat)

  /** The effect of reading line number `index`. */
  function Feed(t: Tally, line: string, index: nat): (r: Outcome)
    ensures r.Aborted? <==> Classify(line).BadTimestamp?
    ensures r.Aborted? ==> r.line == index
  {
    match Classify(line)
    case Unexpected => Completed(Tally(t.hits, Inc32(t.errors)))
    case BadTimestamp => Aborted(index)
    case Hit(day, url) => Completed(Tally(Accumulate(t.hits, day, url), t.errors))
  }

  /** The loop of `processUrlHits` over the lines the scanner delivered,
      starting from an empty `TreeMap` and a zero tally. */
  function Process(lines: seq<string>): (r: Outcome)
    ensures r.Aborted? ==> r.line < |lines| && Classify(lines[r.line]).BadTimestamp?
  {
    if |lines| == 0 then Completed(Tally(map[], 0))
    else
      match Process(lines[..|lines| - 1])
      case Aborted(i) => Aborted(i)
      case Completed(t) => Feed(t, lines[|lines| - 1], |lines| - 1)
  }

  // ---------------------------------------------------------------------------
  // What the lines determine, independently of the loop

  /** The (day, url) pair of every line that counts as a hit, in input order. */
  function Records(lines: seq<string>): (hs: seq<Hit>)
    ensures |hs| <= |lines|
    ensures forall i :: 0 <= i < |hs| ==> hs[i].0 % SecondsPerDay == 0 && hs[i].1 != ""
  {
    if |lines| == 0 then []
    else
      var rest := Records(lines[..|lines| - 1]);
      match Classify(lines[|lines| - 1])
      case Hit(day, url) => rest + [(day, url)]
      case _ => rest
  }

  /** The number of lines that do not split into exactly two tokens. */
  function UnexpectedCount(lines: seq<string>): (n: nat)
    ensures n <= |lines|
  {
    if |lines| == 0 then 0
    else UnexpectedCount(lines[..|lines| - 1]) + (if |Split(lines[|lines| - 1])| != 2 then 1 else 0)
  }

  predicate NoBadTimestamp(lines: seq<string>)
  {
    forall i :: 0 <= i < |lines| ==> !Classify(lines[i]).BadTimestamp?
  }

  lemma RecordsSnoc(lines: seq<string>, line: string)
    ensures var k := Classify(line);
      Records(lines + [line]) == if k.Hit? then Records(lines) + [(k.day, k.url)] else Records(lines)
    ensures UnexpectedCount(lines + [line]) ==
      UnexpectedCount(lines) + (if Classify(line).Unexpected? then 1 else 0)
  {
    assert (lines + [line])[..|lines|] == lines;
  }

  /** There are unexpected lines exactly when some line does not split into
      two tokens. */
  lemma {:induction false} UnexpectedCountPositive(lines: seq<string>)
    ensures UnexpectedCount(lines) > 0 <==> exists i :: 0 <= i < |lines| && |Split(lines[i])| != 2
  {
    if |lines| > 0 {
      var prefix := lines[..|lines| - 1];
      UnexpectedCountPositive(prefix);
      assert forall i :: 0 <= i < |prefix| ==> prefix[i] == lines[i];
      if UnexpectedCount(lines) == 0 {
        assert UnexpectedCount(prefix) == 0;
        forall i | 0 <= i < |lines| ensures |Split(lines[i])| == 2 {
          if i < |prefix| {
            assert lines[i] == prefix[i];
          }
        }
      }
    }
  }

  /** Reading one more line, after the earlier ones. */
  lemma ProcessSnoc(lines: seq<string>, line: string)
    ensures Process(lines + [line]) ==
      match Process(lines)
      case Aborted(i) => Aborted(i)
      case Completed(t) => Feed(t, line, |lines|)
  {
    assert (lines + [line])[..|lines|] == lines;
  }

  /** A line that does not split into two tokens raises the tally by one and
      leaves the tables as they were. */
  lemma UnexpectedLineStep(lines: seq<string>, line: string)
    requires Process(lines).Completed?
    requires |Split(line)| != 2
    ensures Process(lines + [line]).Completed?
    ensures Process(lines + [line]).tally.hits == Process(lines).tally.hits
    ensures Process(lines + [line]).tally.errors == Inc32(Process(lines).tally.errors)
  {
    ProcessSnoc(lines, line);
  }

  /** A valid line leaves the tally alone and changes exactly one count: the
      one of its URL on its day, which goes up by one from its old value or 0. */
  lemma HitLineStep(lines: seq<string>, line: string)
    requires Process(lines).Completed?
    requires Classify(line).Hit?
    ensures var day := Classify(line).day;
      var url := Classify(line).url;
      var before := Process(lines).tally;
      var after := Process(lines + [line]);
      && after.Completed?
      && after.tally.errors == before.errors
      && after.tally.hits.Keys == before.hits.Keys + {day}
      && after.tally.hits[day].Keys == TableOf(before.hits, day).Keys + {url}
      && (forall d :: d in before.hits && d != day ==> after.tally.hits[d] == before.hits[d])
      && CountOf(after.tally.hits, day, url) == Inc32(CountOf(before.hits, day, url))
      && forall d, u :: (d, u) != (day, url) ==> CountOf(after.tally.hits, d, u) == CountOf(before.hits, d, u)
  {
    ProcessSnoc(lines, line);
  }

  /** The loop finishes exactly when no line has an unreadable timestamp, and
      otherwise stops at the first such line. */
  lemma {:induction false} ProcessOutcome(lines: seq<string>)
    ensures Process(lines).Completed? <==> NoBadTimestamp(lines)
    ensures Process(lines).Aborted? ==>
      var i := Process(lines).line;
      i < |lines| && Classify(lines[i]).BadTimestamp? && NoBadTimestamp(lines[..i])
  {
    if |lines| > 0 {
      var n := |lines| - 1;
      var prefix := lines[..n];
      assert lines == prefix + [lines[n]];
      ProcessOutcome(prefix);
      ProcessSnoc(prefix, lines[n]);
      match Process(prefix)
      case Aborted(i) =>
        assert lines[i] == prefix[i];
        assert lines[..i] == prefix[..i];
      case Completed(t) =>
        assert NoBadTimestamp(lines) <==> NoBadTimestamp(prefix) && !Classify(lines[n]).BadTimestamp?;
    }
  }

  /** The tally agrees with what the lines determine. */
  ghost predicate Agrees(t: Tally, lines: seq<string>)
  {
    && t.hits == Tabulate(Records(lines))
    && t.errors == UnexpectedCount(lines)
    && |Records(lines)| + UnexpectedCount(lines) == |lines|
  }

  lemma HitStep(lines: seq<string>, line: string)
    requires Process(lines).Completed? && Agrees(Process(lines).tally, lines)
    requires Classify(line).Hit?
    requires |lines| < IntMax
    ensures Agrees(Process(lines + [line]).tally, lines + [line])
  {
    ProcessSnoc(lines, line);
    RecordsSnoc(lines, line);
    var t := Process(lines).tally;
    var day := Classify(line).day;
    var url := Classify(line).url;
    var hs := Records(lines);
    AccumulateTabulate(hs, day, url);
    assert Process(lines + [line]).tally.hits == Accumulate(t.hits, day, url);
    assert Records(lines + [line]) == hs + [(day, url)];
    assert Process(lines + [line]).tally.hits == Tabulate(Records(lines + [line]));
  }

  lemma TallyStep(lines: seq<string>, line: string)
    requires Process(lines).Completed? && Agrees(Process(lines).tally, lines)
    requires Process(lines + [line]).Completed?
    requires |lines| < IntMax
    ensures Agrees(Process(lines + [line]).tally, lines + [line])
  {
    ProcessSnoc(lines, line);
    RecordsSnoc(lines, line);
    if Classify(line).Hit? {
      HitStep(lines, line);
    }
  }

  /** Within 2^31 - 1 lines no 32-bit counter can wrap, and a completed run
      holds exactly the tables its hit lines determine and the number of
      unexpected lines; every line is one or the other. */
  lemma {:induction false} ProcessTally(lines: seq<string>)
    requires Process(lines).Completed?
    requires |lines| <= IntMax
    ensures Process(lines).tally.hits == Tabulate(Records(lines))
    ensures Process(lines).tally.errors == UnexpectedCount(lines)
    ensures |Records(lines)| + UnexpectedCount(lines) == |lines|
  {
    if |lines| > 0 {
      var n := |lines| - 1;
      var prefix := lines[..n];
      assert lines == prefix + [lines[n]];
      ProcessSnoc(prefix, lines[n]);
      ProcessTally(prefix);
      TallyStep(prefix, lines[n]);
    }
  }

  /** Whatever the number of lines, a completed run has a table for exactly
      the days its hit lines fall on. */
  lemma {:induction false} ProcessDays(lines: seq<string>)
    requires Process(lines).Completed?
    ensures Process(lines).tally.hits.Keys == DaysOf(Records(lines))
  {
    if |lines| > 0 {
      var n := |lines| - 1;
      var prefix := lines[..n];
      assert lines == prefix + [lines[n]];
      ProcessSnoc(prefix, lines[n]);
      RecordsSnoc(prefix, lines[n]);
      ProcessDays(prefix);
      var k := Classify(lines[n]);
      if k.Hit? {
        DaysOfSnoc(Records(prefix), k.day, k.url);
      }
    }
  }

  /** What a completed run of at most 2^31 - 1 lines holds: every stored
      count is at least 1 and every day key a multiple of a day; each day's
      counts add up to the hits on that day; all counts together plus the
      tally make up every line; and the tally is positive exactly when some
      line does not split into two tokens. */
  lemma CompletedRun(lines: seq<string>)
    requires Process(lines).Completed?
    requires |lines| <= IntMax
    ensures var t := Process(lines).tally;
      && (forall d, u :: d in t.hits && u in t.hits[d] ==> t.hits[d][u] >= 1)
      && (forall d :: d in t.hits ==> d % SecondsPerDay == 0)
      && (forall d :: d in t.hits ==> MapSum(t.hits[d]) == DaySize(Records(lines), d))
      && TotalHits(t.hits) + t.errors == |lines|
      && (t.errors > 0 <==> exists i :: 0 <= i < |lines| && |Split(lines[i])| != 2)
  {
    ProcessTally(lines);
    var hs := Records(lines);
    TabulateCountsBounded(hs);
    TabulateDaySums(hs);
    TabulateTotal(hs);
    UnexpectedCountPositive(lines);
    forall d | d in Tabulate(hs) ensures d % SecondsPerDay == 0 {
      var h :| h in hs && h.0 == d;
    }
  }
}
