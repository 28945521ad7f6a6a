/** The result shaping of views.py: the users listing and the three
    per-weekday views, each answering NotFound for an unknown user. */
module Views {
  import opened Wrappers
  import opened TimeMath
  import opened Collections
  import opened Grouping
  import opened Store

  /** calendar.day_abbr in the default C locale, Monday first. */
  const DayAbbr: seq<string> := ["Mon", "Tue", "Wed", "Thu", "Fri", "Sat", "Sun"]

  /** abort(404): the requested user id is not a key of the store. */
  datatype NotFound = NotFound

  /** `order` is the order in which `for date in items` visits the dates of
      the user's records, whenever the user is in the store. */
  predicate VisitOrder(store: Store, userId: int, order: seq<Date>)
  {
    userId in store ==> Enumerates(order, store[userId].Keys)
  }

  /** mean_time_weekday_view: seven rows (day, mean duration). */
  method MeanTimeWeekdayView(store: Store, userId: int, order: seq<Date>)
    returns (r: Result<seq<(string, Number)>, NotFound>)
    requires VisitOrder(store, userId, order)
    ensures r.Failure? <==> userId !in store
    ensures r.Success? ==>
      && |r.value| == 7
      && forall k :: 0 <= k < 7 ==> r.value[k] == (DayAbbr[k], Mean(Grouped(store[userId], order)[k]))
  {
    if userId !in store {
      return Failure(NotFound);
    }
    var weekdays := GroupByWeekday(store[userId], order);
    var result := seq(|weekdays|, k requires 0 <= k < |weekdays| => (DayAbbr[k], Mean(weekdays[k])));
    return Success(result);
  }

  /** A row of presence_weekday_view: the header pair, or a day's total. */
  datatype PresenceRow = Header(weekday: string, presence: string) | Total(day: string, seconds: int)

  /** presence_weekday_view: the header row, then seven rows (day, total
      duration). */
  method PresenceWeekdayView(store: Store, userId: int, order: seq<Date>)
    returns (r: Result<seq<PresenceRow>, NotFound>)
    requires VisitOrder(store, userId, order)
    ensures r.Failure? <==> userId !in store
    ensures r.Success? ==>
      && |r.value| == 8
      && r.value[0] == Header("Weekday", "Presence (s)")
      && forall k :: 0 <= k < 7 ==> r.value[k + 1] == Total(DayAbbr[k], Sum(Grouped(store[userId], order)[k]))
  {
    if userId !in store {
      return Failure(NotFound);
    }
    var weekdays := GroupByWeekday(store[userId], order);
    var result := seq(|weekdays|, k requires 0 <= k < |weekdays| => Total(DayAbbr[k], Sum(weekdays[k])));
    result := [Header("Weekday", "Presence (s)")] + result;  // result.insert(0, header)
    return Success(result);
  }

  /** presence_start_end_per_weekday_view: NotFound for an unknown user,
      otherwise seven rows (day, mean start, mean end), the pairs of
      mean_start_end_by_weekday in weekday order. */
  method PresenceStartEndPerWeekdayView(store: Store, userId: int, order: seq<Date>)
    returns (r: Result<seq<(string, string, string)>, NotFound>)
    requires VisitOrder(store, userId, order)
    ensures r.Failure? <==> userId !in store
    ensures r.Success? ==>
      var pairs := MeanStartEndByWeekday(GroupedStartEnd(store[userId], order));
      && |r.value| == 7
      && (forall k :: 0 <= k < 7 ==> r.value[k].0 == DayAbbr[k])
      && Unlabelled(r.value) == pairs
  {
    if userId !in store {
      return Failure(NotFound);
    }
    var weekdays := StartEndGroupByWeekday(store[userId], order);
    var meanStartEnd := MeanStartEndByWeekday(weekdays);
    return Success(Labelled(meanStartEnd));
  }

  /** The (start, end) pairs of labelled rows. */
  function Unlabelled(rows: seq<(string, string, string)>): (pairs: seq<(string, string)>)
    ensures |pairs| == |rows|
  {
    seq(|rows|, k requires 0 <= k < |rows| => (rows[k].1, rows[k].2))
  }

  /** The comprehension of lines 108-111: each row carries the abbreviation
      of its weekday, and dropping the labels gives back the pairs. */
  function Labelled(pairs: seq<(string, string)>): (r: seq<(string, string, string)>)
    requires |pairs| == 7
    ensures |r| == 7
    ensures forall k :: 0 <= k < 7 ==> r[k].0 == DayAbbr[k]
    ensures Unlabelled(r) == pairs
  {
    seq(7, k requires 0 <= k < 7 => (DayAbbr[k], pairs[k].0, pairs[k].1))
  }

  /** The mean row of a weekday is the int 0 exactly when the user has no
      record on that weekday, and a float otherwise. */
  lemma MeanRowZeroIff(items: DayLog, order: seq<Date>, k: int)
    requires Enumerates(order, items.Keys)
    requires 0 <= k < 7
    ensures var g := Grouped(items, order)[k];
      Mean(g) == Int(0) <==> forall d :: d in items ==> Weekday(d) != k
  {
    var g := Grouped(items, order)[k];
    GroupedEmpty(items, order, k);
    assert Mean(g) == Int(0) <==> g == [];
  }

  /** A weekday without records shows 0 s of presence and 00:00:00 for both
      clock times. */
  lemma EmptyWeekdayRows(items: DayLog, order: seq<Date>, k: int)
    requires Enumerates(order, items.Keys)
    requires 0 <= k < 7
    requires forall d :: d in items ==> Weekday(d) != k
    ensures Sum(Grouped(items, order)[k]) == 0
    ensures MeanStartEndByWeekday(GroupedStartEnd(items, order))[k] == ("00:00:00", "00:00:00")
  {
    GroupedEmpty(items, order, k);
    StartEndMatchesDurations(items, order);
    assert |GroupedStartEnd(items, order)[k].starts| == 0;
  }

  /** Python's str() of an int in decimal, without leading zeros. */
  function NatToString(n: nat): (s: string)
    ensures s != [] && forall i :: 0 <= i < |s| ==> IsDigit(s[i])
    ensures s[0] == '0' ==> n == 0
  {
    if n < 10 then [DigitChar(n)] else NatToString(n / 10) + [DigitChar(n % 10)]
  }

  /** The value of a string of decimal digits. */
  function DecimalValue(s: string): nat
    requires forall i :: 0 <= i < |s| ==> IsDigit(s[i])
  {
    if s == [] then 0 else DecimalValue(s[..|s| - 1]) * 10 + DigitValue(s[|s| - 1])
  }

  lemma {:induction false} NatToStringRoundTrip(n: nat)
    ensures DecimalValue(NatToString(n)) == n
  {
    var s := NatToString(n);
    if n >= 10 {
      NatToStringRoundTrip(n / 10);
      assert s[..|s| - 1] == NatToString(n / 10);
    }
  }

  function IntToString(i: int): (s: string)
    ensures s != [] && (s[0] == '-' <==> i < 0)
  {
    if i < 0 then "-" + NatToString(-i) else NatToString(i)
  }

  /** Different ids never print the same. */
  lemma IntToStringInjective(a: int, b: int)
    requires IntToString(a) == IntToString(b)
    ensures a == b
  {
    var s := IntToString(a);
    assert a < 0 <==> b < 0;
    if a < 0 {
      assert s[1..] == NatToString(-a) == NatToString(-b);
      NatToStringRoundTrip(-a);
      NatToStringRoundTrip(-b);
    } else {
      NatToStringRoundTrip(a);
      NatToStringRoundTrip(b);
    }
  }

  /** One entry of users_view. */
  datatype UserEntry = UserEntry(userId: int, name: string)

  /** users_view: one entry per user id of the store, in the order
      data.keys() lists them, named 'User ' followed by the id. */
  function UsersView(store: Store, order: seq<int>): (r: seq<UserEntry>)
    requires Enumerates(order, store.Keys)
    ensures |r| == |store|
    ensures forall i :: 0 <= i < |r| ==> r[i].userId in store && r[i].name == "User " + IntToString(r[i].userId)
    ensures forall u :: u in store ==> exists i :: 0 <= i < |r| && r[i].userId == u
  {
    EnumerationLength(order, store.Keys);
    var r := seq(|order|, i requires 0 <= i < |order| => UserEntry(order[i], "User " + IntToString(order[i])));
    assert forall u :: u in store ==> exists i :: 0 <= i < |r| && r[i].userId == u by {
      forall u | u in store ensures exists i :: 0 <= i < |r| && r[i].userId == u {
        var i :| 0 <= i < |order| && order[i] == u;
        assert r[i].userId == u;
      }
    }
    r
  }

  /** No two entries of users_view share an id or a name. */
  lemma UsersViewDistinct(store: Store, order: seq<int>)
    requires Enumerates(order, store.Keys)
    ensures var r := UsersView(store, order);
      forall i, j :: 0 <= i < j < |r| ==> r[i].userId != r[j].userId && r[i].name != r[j].name
  {
    var r := UsersView(store, order);
    forall i, j | 0 <= i < j < |r| ensures r[i].userId != r[j].userId && r[i].name != r[j].name {
      assert r[i].userId == order[i] && r[j].userId == order[j];
      if r[i].name == r[j].name {
        assert r[i].name[5..] == IntToString(order[i]);
        assert r[j].name[5..] == IntToString(order[j]);
        IntToStringInjective(order[i], order[j]);
      }
    }
  }

  /** The Thursday of user 11 in the sample data: two records, 10:18:36 to
      16:41:25 and 09:28:08 to 15:51:27, lasting 22969 s and 22999 s and
      totalling 45968 s. */
  lemma ThursdayExample()
    ensures var d1, d2 := Date(735123), Date(735116);
      var items := map[d1 := Presence(Time(10, 18, 36), Time(16, 41, 25)),
                       d2 := Presence(Time(9, 28, 8), Time(15, 51, 27))];
      && Weekday(d1) == 3 && Weekday(d2) == 3
      && Grouped(items, [d1, d2])[3] == [22969, 22999]
      && Sum(Grouped(items, [d1, d2])[3]) == 45968
  {
    var d1, d2 := Date(735123), Date(735116);
    var order := [d1, d2];
    assert order[..1] == [d1] && order[..1][..0] == [];
    assert DatesOn(order, 3) == [d1, d2];
    assert Sum([22969, 22999]) == 22969 + Sum([22999]);
  }
}
