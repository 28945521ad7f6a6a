/** Weekday bucketing of utils.py: group_by_weekday,
    start_end_group_by_weekday and mean_start_end_by_weekday. */
module Grouping {
  import opened TimeMath
  import opened Collections
  import opened Wrappers

  /** A calendar date, held as its proleptic Gregorian ordinal
      (0001-01-01 is 1), the number Python's date.toordinal() gives. */
  datatype Date = Date(ordinal: int)

  /** date.weekday(): Monday is 0 and Sunday is 6. */
  function Weekday(d: Date): (w: int)
    ensures 0 <= w < 7
  {
    (d.ordinal + 6) % 7
  }

  /** One day's record, the {'start': ..., 'end': ...} dictionary. */
  datatype Presence = Presence(start: TimeOfDay, end: TimeOfDay)

  /** One user's records: date to that day's presence. */
  type DayLog = map<Date, Presence>

  /** The dates of `order` that fall on weekday `k`, in the order visited. */
  function DatesOn(order: seq<Date>, k: int): (r: seq<Date>)
    ensures |r| <= |order|
    ensures forall d :: d in r <==> d in order && Weekday(d) == k
  {
    if order == [] then []
    else
      var last := order[|order| - 1];
      DatesOn(order[..|order| - 1], k) + (if Weekday(last) == k then [last] else [])
  }

  lemma {:induction false} DatesOnDistinct(order: seq<Date>, k: int)
    requires Distinct(order)
    ensures Distinct(DatesOn(order, k))
  {
    if order != [] {
      var front := order[..|order| - 1];
      assert Distinct(front);
      DatesOnDistinct(front, k);
    }
  }

  /** The durations of the given dates, each interval(start, end). */
  function Intervals(items: DayLog, dates: seq<Date>): (r: seq<int>)
    requires forall d :: d in dates ==> d in items
    ensures |r| == |dates|
  {
    seq(|dates|, i requires 0 <= i < |dates| => Interval(items[dates[i]].start, items[dates[i]].end))
  }

  function Starts(items: DayLog, dates: seq<Date>): (r: seq<int>)
    requires forall d :: d in dates ==> d in items
    ensures |r| == |dates|
  {
    seq(|dates|, i requires 0 <= i < |dates| => SecondsSinceMidnight(items[dates[i]].start))
  }

  function Ends(items: DayLog, dates: seq<Date>): (r: seq<int>)
    requires forall d :: d in dates ==> d in items
    ensures |r| == |dates|
  {
    seq(|dates|, i requires 0 <= i < |dates| => SecondsSinceMidnight(items[dates[i]].end))
  }

  /** What group_by_weekday returns when the dictionary is visited in
      `order`: seven lists, list k holding the durations of the weekday-k
      dates. */
  function Grouped(items: DayLog, order: seq<Date>): (r: seq<seq<int>>)
    requires forall d :: d in order ==> d in items
    ensures |r| == 7
  {
    seq(7, k requires 0 <= k < 7 => Intervals(items, DatesOn(order, k)))
  }

  /** group_by_weekday: one pass over the dictionary, appending each
      date's duration to the list of its weekday. */
  method GroupByWeekday(items: DayLog, order: seq<Date>) returns (result: seq<seq<int>>)
    requires Enumerates(order, items.Keys)
    ensures result == Grouped(items, order)
  {
    result := [[], [], [], [], [], [], []];
    for i := 0 to |order|
      invariant |result| == 7
      invariant forall k :: 0 <= k < 7 ==> result[k] == Intervals(items, DatesOn(order[..i], k))
    {
      var date := order[i];
      var w := Weekday(date);
      assert order[..i + 1][..i] == order[..i];
      result := result[w := result[w] + [Interval(items[date].start, items[date].end)]];
    }
    assert order[..|order|] == order;
  }

  /** One bucket of start_end_group_by_weekday: the 'start' and 'end' lists. */
  datatype StartEnd = StartEnd(starts: seq<int>, ends: seq<int>)

  /** The keys 0..6 of a weekday-indexed dictionary. */
  function Week(): (w: set<int>)
    ensures forall k :: k in w <==> 0 <= k < 7
  {
    {0, 1, 2, 3, 4, 5, 6}
  }

  /** What start_end_group_by_weekday returns when the dictionary is visited
      in `order`. */
  function GroupedStartEnd(items: DayLog, order: seq<Date>): (r: map<int, StartEnd>)
    requires forall d :: d in order ==> d in items
    ensures r.Keys == Week()
  {
    map k | 0 <= k < 7 :: StartEnd(Starts(items, DatesOn(order, k)), Ends(items, DatesOn(order, k)))
  }

  /** start_end_group_by_weekday: seven buckets keyed 0..6, filled in one
      pass that appends a date's start and end seconds to its weekday's
      bucket. */
  method StartEndGroupByWeekday(items: DayLog, order: seq<Date>) returns (result: map<int, StartEnd>)
    requires Enumerates(order, items.Keys)
    ensures result == GroupedStartEnd(items, order)
  {
    var empty := StartEnd([], []);
    result := map[0 := empty, 1 := empty, 2 := empty, 3 := empty, 4 := empty, 5 := empty, 6 := empty];
    assert result == GroupedStartEnd(items, order[..0]);
    for i := 0 to |order|
      invariant result == GroupedStartEnd(items, order[..i])
    {
      var date := order[i];
      var curr := result[Weekday(date)];
      GroupedStartEndStep(items, order, i);
      result := result[Weekday(date) := StartEnd(
        curr.starts + [SecondsSinceMidnight(items[date].start)],
        curr.ends + [SecondsSinceMidnight(items[date].end)])];
    }
    assert order[..|order|] == order;
  }

  /** Appending one date to a bucket appends its duration, start and end. */
  lemma BucketStep(items: DayLog, ds: seq<Date>, d: Date)
    requires forall e :: e in ds ==> e in items
    requires d in items
    ensures Intervals(items, ds + [d]) == Intervals(items, ds) + [Interval(items[d].start, items[d].end)]
    ensures Starts(items, ds + [d]) == Starts(items, ds) + [SecondsSinceMidnight(items[d].start)]
    ensures Ends(items, ds + [d]) == Ends(items, ds) + [SecondsSinceMidnight(items[d].end)]
  {
  }

  /** Visiting one more date appends its start and end to its weekday's
      bucket and leaves the other six buckets as they were. */
  lemma GroupedStartEndStep(items: DayLog, order: seq<Date>, i: int)
    requires forall d :: d in order ==> d in items
    requires 0 <= i < |order|
    ensures var d, before := order[i], GroupedStartEnd(items, order[..i]);
      GroupedStartEnd(items, order[..i + 1]) == before[Weekday(d) := StartEnd(
        before[Weekday(d)].starts + [SecondsSinceMidnight(items[d].start)],
        before[Weekday(d)].ends + [SecondsSinceMidnight(items[d].end)])]
  {
    var d, w := order[i], Weekday(order[i]);
    var before, after := GroupedStartEnd(items, order[..i]), GroupedStartEnd(items, order[..i + 1]);
    var updated := before[w := StartEnd(
      before[w].starts + [SecondsSinceMidnight(items[d].start)],
      before[w].ends + [SecondsSinceMidnight(items[d].end)])];
    assert order[..i + 1][..i] == order[..i];
    forall k | 0 <= k < 7 ensures after[k] == updated[k] {
      if k == w {
        BucketStep(items, DatesOn(order[..i], k), d);
      } else {
        assert DatesOn(order[..i + 1], k) == DatesOn(order[..i], k);
      }
    }
    assert after.Keys == updated.Keys;
  }

  /** Both groupings bucket the same dates: the start/end buckets have keys
      0..6 only, their two lists run in parallel, and end[i] - start[i] is
      the duration group_by_weekday lists for the same date. */
  lemma StartEndMatchesDurations(items: DayLog, order: seq<Date>)
    requires forall d :: d in order ==> d in items
    ensures GroupedStartEnd(items, order).Keys == Week()
    ensures forall k :: 0 <= k < 7 ==>
      var b := GroupedStartEnd(items, order)[k];
      && |b.starts| == |b.ends| == |Grouped(items, order)[k]|
      && forall i :: 0 <= i < |b.starts| ==> b.ends[i] - b.starts[i] == Grouped(items, order)[k][i]
  {
  }

  /** A weekday's list is empty exactly when no date of the log falls on it. */
  lemma GroupedEmpty(items: DayLog, order: seq<Date>, k: int)
    requires Enumerates(order, items.Keys)
    requires 0 <= k < 7
    ensures Grouped(items, order)[k] == [] <==> forall d :: d in items ==> Weekday(d) != k
  {
    var ds := DatesOn(order, k);
    if ds != [] {
      assert ds[0] in ds;
    }
  }

  /** `x` is the duration of some record of the log dated on weekday `k`. */
  ghost predicate DurationOf(items: DayLog, k: int, x: int)
  {
    exists d :: d in items && Weekday(d) == k && x == Interval(items[d].start, items[d].end)
  }

  /** Every record of the log shows up in the list of its weekday, and every
      entry of list k is the duration of a weekday-k date of the log. */
  lemma GroupedMembers(items: DayLog, order: seq<Date>)
    requires Enumerates(order, items.Keys)
    ensures forall d :: d in items ==>
      Interval(items[d].start, items[d].end) in Grouped(items, order)[Weekday(d)]
    ensures forall k, i :: 0 <= k < 7 && 0 <= i < |Grouped(items, order)[k]| ==>
      DurationOf(items, k, Grouped(items, order)[k][i])
  {
    forall d | d in items
      ensures Interval(items[d].start, items[d].end) in Grouped(items, order)[Weekday(d)]
    {
      var ds := DatesOn(order, Weekday(d));
      assert d in ds;
      var j :| 0 <= j < |ds| && ds[j] == d;
      assert Grouped(items, order)[Weekday(d)][j] == Interval(items[d].start, items[d].end);
    }
    forall k, i | 0 <= k < 7 && 0 <= i < |Grouped(items, order)[k]|
      ensures DurationOf(items, k, Grouped(items, order)[k][i])
    {
      var d := DatesOn(order, k)[i];
      assert d in DatesOn(order, k);
      assert d in items && Weekday(d) == k;
      assert Grouped(items, order)[k] == Intervals(items, DatesOn(order, k));
      assert Grouped(items, order)[k][i] == Interval(items[d].start, items[d].end);
    }
  }

  /** Total number of entries across the seven lists. */
  function TotalEntries(buckets: seq<seq<int>>): nat
  {
    if buckets == [] then 0 else |buckets[0]| + TotalEntries(buckets[1..])
  }

  function CountOn(order: seq<Date>, k: int): nat
  {
    |DatesOn(order, k)|
  }

  /** Each visited date lands in exactly one of the seven weekdays. */
  lemma {:induction false} WeekdayCountsAddUp(order: seq<Date>)
    ensures CountOn(order, 0) + CountOn(order, 1) + CountOn(order, 2) + CountOn(order, 3)
      + CountOn(order, 4) + CountOn(order, 5) + CountOn(order, 6) == |order|
  {
    if order != [] {
      WeekdayCountsAddUp(order[..|order| - 1]);
    }
  }

  /** group_by_weekday neither loses nor duplicates a record: its seven lists
      together hold exactly one entry per date of the log. */
  lemma GroupedTotal(items: DayLog, order: seq<Date>)
    requires Enumerates(order, items.Keys)
    ensures TotalEntries(Grouped(items, order)) == |items|
  {
    var g := Grouped(items, order);
    WeekdayCountsAddUp(order);
    EnumerationLength(order, items.Keys);
    assert |items.Keys| == |items|;
    assert TotalEntries(g[7..]) == 0;
    assert TotalEntries(g[6..]) == |g[6]| + TotalEntries(g[7..]);
    assert TotalEntries(g[5..]) == |g[5]| + TotalEntries(g[6..]);
    assert TotalEntries(g[4..]) == |g[4]| + TotalEntries(g[5..]);
    assert TotalEntries(g[3..]) == |g[3]| + TotalEntries(g[4..]);
    assert TotalEntries(g[2..]) == |g[2]| + TotalEntries(g[3..]);
    assert TotalEntries(g[1..]) == |g[1]| + TotalEntries(g[2..]);
    assert TotalEntries(g) == |g[0]| + TotalEntries(g[1..]);
  }

  /** Python dictionaries have no promised order, but any two visiting
      orders give each weekday the same durations up to order, so the same
      sum and the same count. */
  lemma {:induction false} IntervalsReordered(items: DayLog, a: seq<Date>, b: seq<Date>)
    requires Distinct(a) && Distinct(b)
    requires forall d :: d in a <==> d in b
    requires forall d :: d in a ==> d in items
    ensures |a| == |b|
    ensures Sum(Intervals(items, a)) == Sum(Intervals(items, b))
  {
    if a == [] {
      EnumerationLength(b, {});
    } else {
      var d := a[0];
      assert d in b;
      var j :| 0 <= j < |b| && b[j] == d;
      var rest := b[..j] + b[j + 1..];
      assert b == b[..j] + [d] + b[j + 1..];
      assert Distinct(a[1..]);
      assert Distinct(rest) by {
        forall x, y | 0 <= x < y < |rest| ensures rest[x] != rest[y] {
          var bx := if x < j then x else x + 1;
          var by' := if y < j then y else y + 1;
          assert rest[x] == b[bx] && rest[y] == b[by'] && bx < by';
        }
      }
      assert forall e :: e in a[1..] <==> e in rest by {
        forall e ensures e in a[1..] <==> e in rest {
          if e in a[1..] {
            var x :| 0 <= x < |a[1..]| && a[1..][x] == e;
            assert a[x + 1] == e && e != d;
            assert e in b;
          }
          if e in rest {
            assert e in b[..j] || e in b[j + 1..];
            var x :| 0 <= x < |b| && x != j && b[x] == e;
            assert e != d;
            assert e in a;
            var y :| 0 <= y < |a| && a[y] == e;
            assert y != 0;
            assert a[1..][y - 1] == e;
          }
        }
      }
      IntervalsReordered(items, a[1..], rest);
      IntervalsAppend(items, b[..j], [d]);
      IntervalsAppend(items, b[..j] + [d], b[j + 1..]);
      IntervalsAppend(items, b[..j], b[j + 1..]);
      SumAppend(Intervals(items, b[..j]), Intervals(items, [d]));
      SumAppend(Intervals(items, b[..j]) + Intervals(items, [d]), Intervals(items, b[j + 1..]));
      SumAppend(Intervals(items, b[..j]), Intervals(items, b[j + 1..]));
      assert Intervals(items, a) == Intervals(items, [d]) + Intervals(items, a[1..]);
      SumAppend(Intervals(items, [d]), Intervals(items, a[1..]));
    }
  }

  lemma IntervalsAppend(items: DayLog, a: seq<Date>, b: seq<Date>)
    requires forall d :: d in a + b ==> d in items
    ensures Intervals(items, a + b) == Intervals(items, a) + Intervals(items, b)
  {
  }

  /** The weekday totals and means do not depend on the dictionary's
      iteration order. */
  lemma GroupedOrderIndependent(items: DayLog, o1: seq<Date>, o2: seq<Date>, k: int)
    requires Enumerates(o1, items.Keys) && Enumerates(o2, items.Keys)
    requires 0 <= k < 7
    ensures Sum(Grouped(items, o1)[k]) == Sum(Grouped(items, o2)[k])
    ensures Mean(Grouped(items, o1)[k]) == Mean(Grouped(items, o2)[k])
  {
    DatesOnDistinct(o1, k);
    DatesOnDistinct(o2, k);
    IntervalsReordered(items, DatesOn(o1, k), DatesOn(o2, k));
  }

  /** str_to_time(mean(xs)): the mean of one list as a clock string. */
  function MeanClock(xs: seq<int>): (s: string)
    ensures ParseClock(s) == Some(ClockTime(Truncate(Mean(xs).Value())))
    ensures xs == [] ==> s == "00:00:00"
  {
    StrToTimeZero();
    StrToTime(Mean(xs))
  }

  /** mean_start_end_by_weekday: for each bucket, visited in key order 0..6,
      the mean start and mean end rendered as HH:MM:SS. */
  function MeanStartEndByWeekday(grouped: map<int, StartEnd>): (r: seq<(string, string)>)
    requires grouped.Keys == Week()
    ensures |r| == 7
    ensures forall k :: 0 <= k < 7 ==>
      && ParseClock(r[k].0) == Some(ClockTime(Truncate(Mean(grouped[k].starts).Value())))
      && ParseClock(r[k].1) == Some(ClockTime(Truncate(Mean(grouped[k].ends).Value())))
  {
    seq(7, k requires 0 <= k < 7 => (MeanClock(grouped[k].starts), MeanClock(grouped[k].ends)))
  }

  /** The mean start and end of a weekday fall inside that day, between its
      earliest and latest recorded clock times, so no wrap-around occurs. */
  lemma MeanStartWithinDay(items: DayLog, order: seq<Date>, k: int)
    requires forall d :: d in order ==> d in items
    requires 0 <= k < 7
    ensures 0.0 <= Mean(GroupedStartEnd(items, order)[k].starts).Value() < SecondsPerDay as real
    ensures 0.0 <= Mean(GroupedStartEnd(items, order)[k].ends).Value() < SecondsPerDay as real
  {
    var b := GroupedStartEnd(items, order)[k];
    if b.starts != [] {
      MeanWithin(b.starts, 0, SecondsPerDay - 1);
      MeanWithin(b.ends, 0, SecondsPerDay - 1);
    }
  }
}
