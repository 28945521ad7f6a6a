/** Time arithmetic of utils.py: seconds since midnight, signed intervals,
    the arithmetic mean with its empty-list policy, and HH:MM:SS rendering. */
module TimeMath {
  import opened Wrappers

  const SecondsPerDay: int := 86400

  /** A wall-clock time of day, as a datetime.time parsed with '%H:%M:%S'
      holds it (its microsecond part is always zero). */
  datatype Time = Time(hour: int, minute: int, second: int)
  {
    predicate Valid()
    {
      0 <= hour < 24 && 0 <= minute < 60 && 0 <= second < 60
    }
  }

  type TimeOfDay = t: Time | t.Valid() witness Time(0, 0, 0)

  /** Strictly earlier on the same day, comparing fields as datetime.time does. */
  predicate Before(a: TimeOfDay, b: TimeOfDay)
  {
    a.hour < b.hour
    || (a.hour == b.hour && a.minute < b.minute)
    || (a.hour == b.hour && a.minute == b.minute && a.second < b.second)
  }

  function SecondsSinceMidnight(t: TimeOfDay): (s: int)
    ensures 0 <= s < SecondsPerDay
  {
    t.hour * 3600 + t.minute * 60 + t.second
  }

  /** The time of day a clock shows `s` seconds after a midnight; whole days
      wrap away (Euclidean remainder, so -1 shows 23:59:59, as gmtime does). */
  function ClockTime(s: int): (t: TimeOfDay)
    ensures SecondsSinceMidnight(t) == s % SecondsPerDay
  {
    var n := s % SecondsPerDay;
    Time(n / 3600, n % 3600 / 60, n % 3600 % 60)
  }

  /** Reading a time as seconds and back gives the same time. */
  lemma ClockTimeOfSeconds(t: TimeOfDay)
    ensures ClockTime(SecondsSinceMidnight(t)) == t
  {
    var n := SecondsSinceMidnight(t);
    var r := t.minute * 60 + t.second;
    assert 0 <= r < 3600;
    assert n == t.hour * 3600 + r;
    assert n / 3600 == t.hour && n % 3600 == r;
    assert r / 60 == t.minute && r % 60 == t.second;
  }

  /** Seconds since midnight increase strictly through the day, so they order
      times exactly as the clock does. */
  lemma SecondsSinceMidnightOrder(a: TimeOfDay, b: TimeOfDay)
    ensures Before(a, b) <==> SecondsSinceMidnight(a) < SecondsSinceMidnight(b)
    ensures a == b <==> SecondsSinceMidnight(a) == SecondsSinceMidnight(b)
  {
    ClockTimeOfSeconds(a);
    ClockTimeOfSeconds(b);
  }

  /** utils.interval: the signed difference end - start in seconds, negative
      when the end precedes the start (the source does not correct it). */
  function Interval(start: TimeOfDay, end: TimeOfDay): (d: int)
    ensures -SecondsPerDay < d < SecondsPerDay
  {
    SecondsSinceMidnight(end) - SecondsSinceMidnight(start)
  }

  lemma IntervalSign(start: TimeOfDay, end: TimeOfDay)
    ensures Interval(start, end) == -Interval(end, start)
    ensures Interval(start, end) == 0 <==> start == end
    ensures Interval(start, end) > 0 <==> Before(start, end)
    ensures Interval(start, end) < 0 <==> Before(end, start)
  {
    SecondsSinceMidnightOrder(start, end);
    SecondsSinceMidnightOrder(end, start);
  }

  /** A number as the views emit it: the int 0 that mean gives for an empty
      list, or the float it gives otherwise (modelled exactly, as a real). */
  datatype Number = Int(i: int) | Float(x: real)
  {
    function Value(): real
    {
      match this
      case Int(i) => i as real
      case Float(x) => x
    }
  }

  /** Python's sum over a list of ints; the empty sum is 0. */
  function Sum(xs: seq<int>): int
  {
    if xs == [] then 0 else xs[0] + Sum(xs[1..])
  }

  lemma {:induction false} SumAppend(a: seq<int>, b: seq<int>)
    ensures Sum(a + b) == Sum(a) + Sum(b)
  {
    if a == [] {
      assert a + b == b;
    } else {
      assert (a + b)[1..] == a[1..] + b;
      SumAppend(a[1..], b);
    }
  }

  /** Every element within [lo, hi] puts the sum within [n * lo, n * hi]. */
  lemma {:induction false} SumWithin(xs: seq<int>, lo: int, hi: int)
    requires forall i :: 0 <= i < |xs| ==> lo <= xs[i] <= hi
    ensures |xs| * lo <= Sum(xs) <= |xs| * hi
  {
    if xs != [] {
      SumWithin(xs[1..], lo, hi);
    }
  }

  /** utils.mean: the int 0 for an empty list, else float(sum) / len. */
  function Mean(xs: seq<int>): (m: Number)
    ensures xs == [] ==> m == Int(0)
    ensures xs != [] ==> m.Float? && m.x * |xs| as real == Sum(xs) as real
  {
    if |xs| > 0 then Float(Sum(xs) as real / |xs| as real) else Int(0)
  }

  /** The mean lies between any lower and upper bound of the elements, so
      between the minimum and the maximum. */
  lemma MeanWithin(xs: seq<int>, lo: int, hi: int)
    requires xs != []
    requires forall i :: 0 <= i < |xs| ==> lo <= xs[i] <= hi
    ensures lo as real <= Mean(xs).Value() <= hi as real
  {
    SumWithin(xs, lo, hi);
    QuotientWithin(Sum(xs), |xs|, lo, hi);
  }

  /** Dividing bounds n*lo <= s <= n*hi by n > 0. */
  lemma QuotientWithin(s: int, n: int, lo: int, hi: int)
    requires n > 0 && n * lo <= s <= n * hi
    ensures lo as real <= s as real / n as real <= hi as real
  {
    var q := s as real / n as real;
    assert q - lo as real == (s - n * lo) as real / n as real;
    assert hi as real - q == (n * hi - s) as real / n as real;
  }

  lemma MeanExamples()
    ensures Mean([]) == Int(0)
    ensures forall a :: Mean([a]) == Float(a as real)
    ensures Mean([2, 4]) == Float(3.0)
  {
    forall a ensures Mean([a]) == Float(a as real) {
      assert Sum([a]) == a + Sum([]);
    }
    assert Sum([2, 4]) == 2 + Sum([4]);
  }

  /** Python 2's conversion of a float timestamp to whole seconds, as gmtime
      does it: truncation toward zero. */
  function Truncate(x: real): (n: int)
    ensures 0.0 <= x ==> n as real <= x < n as real + 1.0
    ensures x < 0.0 ==> n as real - 1.0 < x <= n as real
  {
    if x >= 0.0 then x.Floor else -((-x).Floor)
  }

  function DigitChar(d: int): (c: char)
    requires 0 <= d < 10
    ensures '0' <= c <= '9'
  {
    (48 + d) as char
  }

  predicate IsDigit(c: char)
  {
    '0' <= c <= '9'
  }

  function DigitValue(c: char): (d: int)
    requires IsDigit(c)
    ensures 0 <= d < 10 && DigitChar(d) == c
  {
    c as int - 48
  }

  /** The zero-padded two-digit rendering strftime gives %H, %M and %S. */
  function TwoDigits(n: int): (s: string)
    requires 0 <= n < 100
    ensures |s| == 2 && IsDigit(s[0]) && IsDigit(s[1])
    ensures DigitValue(s[0]) * 10 + DigitValue(s[1]) == n
  {
    [DigitChar(n / 10), DigitChar(n % 10)]
  }

  /** strftime('%H:%M:%S') of a time of day. */
  function Format(t: TimeOfDay): (s: string)
    ensures |s| == 8 && s[2] == ':' && s[5] == ':'
  {
    TwoDigits(t.hour) + ":" + TwoDigits(t.minute) + ":" + TwoDigits(t.second)
  }

  /** The inverse of Format: reads back an HH:MM:SS string, or None. */
  function ParseClock(s: string): (r: Option<TimeOfDay>)
  {
    if |s| == 8 && s[2] == ':' && s[5] == ':'
       && IsDigit(s[0]) && IsDigit(s[1]) && IsDigit(s[3])
       && IsDigit(s[4]) && IsDigit(s[6]) && IsDigit(s[7])
    then
      var t := Time(DigitValue(s[0]) * 10 + DigitValue(s[1]),
                    DigitValue(s[3]) * 10 + DigitValue(s[4]),
                    DigitValue(s[6]) * 10 + DigitValue(s[7]));
      if t.Valid() then Some(t) else None
    else None
  }

  lemma FormatRoundTrip(t: TimeOfDay)
    ensures ParseClock(Format(t)) == Some(t)
  {
    var s := Format(t);
    var h, m, c := TwoDigits(t.hour), TwoDigits(t.minute), TwoDigits(t.second);
    assert s[0] == h[0] && s[1] == h[1];
    assert s[3] == m[0] && s[4] == m[1];
    assert s[6] == c[0] && s[7] == c[1];
  }

  /** utils.str_to_time on a whole number of seconds: the HH:MM:SS of the
      seconds modulo one day. */
  function ClockString(seconds: int): (s: string)
    ensures |s| == 8
    ensures ParseClock(s) == Some(ClockTime(seconds))
  {
    FormatRoundTrip(ClockTime(seconds));
    Format(ClockTime(seconds))
  }

  /** utils.str_to_time(x): gmtime truncates x to whole seconds, then the
      clock reading of that many seconds after the epoch is rendered. */
  function StrToTime(x: Number): (s: string)
    ensures |s| == 8
    ensures ParseClock(s) == Some(ClockTime(Truncate(x.Value())))
  {
    ClockString(Truncate(x.Value()))
  }

  /** Rendering the seconds since midnight of a time shows that time. */
  lemma ClockStringOfTime(t: TimeOfDay)
    ensures ClockString(SecondsSinceMidnight(t)) == Format(t)
  {
    ClockTimeOfSeconds(t);
  }

  /** The int zero of an empty mean renders as midnight. */
  lemma StrToTimeZero()
    ensures StrToTime(Int(0)) == "00:00:00"
  {
    var midnight := Time(0, 0, 0);
    assert ClockTime(Truncate(Int(0).Value())) == midnight;
    var zz := TwoDigits(0);
    assert zz[0] == '0' && zz[1] == '0';
    assert zz == "00";
    calc {
      StrToTime(Int(0));
      Format(midnight);
      zz + ":" + zz + ":" + zz;
      "00:00:00";
    }
  }
}
