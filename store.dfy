/** The record store of utils.get_data: user id to date to the day's
    start and end, built row by row over the already-parsed CSV rows. */
module Store {
  import opened Wrappers
  import opened TimeMath
  import opened Grouping

  /** user_id -> date -> {'start', 'end'}. */
  type Store = map<int, DayLog>

  /** What parsing one cell gave: its value, or a ValueError/TypeError. */
  datatype Cell<T> = Parsed(value: T) | Malformed

  /** One row of the CSV reader: how many fields it had, and what parsing
      the first four gave (int() of the user id, strptime of the date and
      of the two times). The cells are only looked at when the row has
      exactly four fields. */
  datatype Row = Row(width: nat, userId: Cell<int>, date: Cell<Date>, start: Cell<TimeOfDay>, end: Cell<TimeOfDay>)

  predicate WellFormed(row: Row)
  {
    row.userId.Parsed? && row.date.Parsed? && row.start.Parsed? && row.end.Parsed?
  }

  /** A row the evident intent keeps: four fields, all of them parsed. */
  predicate Clean(row: Row)
  {
    row.width == 4 && WellFormed(row)
  }

  function PresenceOf(row: Row): Presence
    requires WellFormed(row)
  {
    Presence(row.start.value, row.end.value)
  }

  /** The loop's local variables user_id, date, start and end; None while a
      variable has never been assigned. */
  datatype Locals = Locals(userId: Option<int>, date: Option<Date>, start: Option<TimeOfDay>, end: Option<TimeOfDay>)

  const Unassigned := Locals(None, None, None, None)

  predicate Bound(l: Locals)
  {
    l.userId.Some? && l.date.Some? && l.start.Some? && l.end.Some?
  }

  /** The only way the loop fails: reading a local at line 101 that was
      never assigned (UnboundLocalError), which propagates out of get_data. */
  datatype LoadError = UnboundLocal

  /** The try block: the four assignments run in order and the first parse
      that raises stops them, leaving that variable and the later ones
      holding whatever the previous row put there. */
  function ParseRow(l: Locals, row: Row): (r: Locals)
    ensures WellFormed(row) ==>
      r == Locals(Some(row.userId.value), Some(row.date.value), Some(row.start.value), Some(row.end.value))
    ensures row.userId.Malformed? ==> r == l
    ensures row.userId.Parsed? && row.date.Malformed? ==> r == l.(userId := Some(row.userId.value))
    ensures row.userId.Parsed? && row.date.Parsed? && row.start.Malformed? ==>
      r == l.(userId := Some(row.userId.value), date := Some(row.date.value))
    ensures row.userId.Parsed? && row.date.Parsed? && row.start.Parsed? && row.end.Malformed? ==>
      r == l.(userId := Some(row.userId.value), date := Some(row.date.value), start := Some(row.start.value))
    ensures Bound(l) ==> Bound(r)
  {
    match row.userId
    case Malformed => l
    case Parsed(u) =>
      var l := l.(userId := Some(u));
      match row.date
      case Malformed => l
      case Parsed(d) =>
        var l := l.(date := Some(d));
        match row.start
        case Malformed => l
        case Parsed(s) =>
          var l := l.(start := Some(s));
          match row.end
          case Malformed => l
          case Parsed(e) => l.(end := Some(e))
  }

  predicate HasRecord(s: Store, u: int, d: Date)
  {
    u in s && d in s[u]
  }

  /** The record stored for (u, d), if any. */
  function Lookup(s: Store, u: int, d: Date): Option<Presence>
  {
    if HasRecord(s, u, d) then Some(s[u][d]) else None
  }

  /** data.setdefault(user_id, {})[date] = {...}: sets the one record for
      (userId, date), replacing any earlier one, and changes nothing else. */
  function Upsert(data: Store, userId: int, date: Date, p: Presence): (r: Store)
    ensures Lookup(r, userId, date) == Some(p)
    ensures r.Keys == data.Keys + {userId}
    ensures forall u, d :: (u != userId || d != date) ==> Lookup(r, u, d) == Lookup(data, u, d)
    ensures (forall u :: u in data ==> data[u] != map[]) ==> forall u :: u in r ==> r[u] != map[]
  {
    var r := data[userId := (if userId in data then data[userId] else map[])[date := p]];
    assert date in r[userId];
    r
  }

  /** Upserting the record already stored changes nothing. */
  lemma UpsertStored(data: Store, userId: int, date: Date, p: Presence)
    requires Lookup(data, userId, date) == Some(p)
    ensures Upsert(data, userId, date, p) == data
  {
    assert data[userId][date := p] == data[userId];
  }

  datatype LoadState = LoadState(data: Store, locals: Locals)

  /** One iteration of the loop of get_data: a header or footer line is
      skipped; a four-field row assigns what parses and then stores the
      locals, failing only while a local is still unassigned. */
  function StepRow(st: LoadState, row: Row): (r: Result<LoadState, LoadError>)
    ensures row.width != 4 ==> r == Success(st)
    ensures Clean(row) ==>
      r == Success(LoadState(Upsert(st.data, row.userId.value, row.date.value, PresenceOf(row)), ParseRow(st.locals, row)))
    ensures Bound(st.locals) ==> r.Success? && Bound(r.value.locals)
    ensures r.Success? ==> st.data.Keys <= r.value.data.Keys
  {
    if row.width != 4 then Success(st)
    else
      var l := ParseRow(st.locals, row);
      if !Bound(l) then Failure(UnboundLocal)
      else Success(LoadState(Upsert(st.data, l.userId.value, l.date.value, Presence(l.start.value, l.end.value)), l))
  }

  /** The loop of get_data run over `rows` from an empty dictionary. */
  function LoadPrefix(rows: seq<Row>): (r: Result<LoadState, LoadError>)
    ensures r.Success? ==> forall u :: u in r.value.data ==> r.value.data[u] != map[]
    ensures (forall i :: 0 <= i < |rows| ==> rows[i].width != 4) ==> r == Success(LoadState(map[], Unassigned))
  {
    if rows == [] then Success(LoadState(map[], Unassigned))
    else
      match LoadPrefix(rows[..|rows| - 1])
      case Failure(e) => Failure(e)
      case Success(st) => StepRow(st, rows[|rows| - 1])
  }

  /** get_data: the dictionary the loop builds, or the error it raises. A
      file of header and footer lines only gives the empty dictionary, and
      no user is ever stored without a record. */
  function Load(rows: seq<Row>): (r: Result<Store, LoadError>)
    ensures r.Success? ==> forall u :: u in r.value ==> r.value[u] != map[]
    ensures (forall i :: 0 <= i < |rows| ==> rows[i].width != 4) ==> r == Success(map[])
  {
    match LoadPrefix(rows)
    case Success(st) => Success(st.data)
    case Failure(e) => Failure(e)
  }

  /** Once the loop has failed, later rows do not matter. */
  lemma {:induction false} FailureSticks(rows: seq<Row>, i: int)
    requires 0 <= i <= |rows|
    requires LoadPrefix(rows[..i]).Failure?
    ensures Load(rows) == Failure(UnboundLocal)
  {
    if i < |rows| {
      var front := rows[..|rows| - 1];
      assert front[..i] == rows[..i];
      FailureSticks(front, i);
      assert LoadPrefix(front).Failure?;
      assert rows[..|rows| - 1] == front;
      assert LoadPrefix(rows).Failure?;
    } else {
      assert rows[..i] == rows;
      var e := LoadPrefix(rows).error;
      assert e == UnboundLocal by {
        match e { case UnboundLocal => }
      }
    }
  }

  /** get_data's loop, over already-parsed rows. */
  method GetData(rows: seq<Row>) returns (r: Result<Store, LoadError>)
    ensures r == Load(rows)
  {
    var data: Store := map[];
    var userId: Option<int> := None;
    var date: Option<Date> := None;
    var start: Option<TimeOfDay> := None;
    var end: Option<TimeOfDay> := None;
    for i := 0 to |rows|
      invariant LoadPrefix(rows[..i]) == Success(LoadState(data, Locals(userId, date, start, end)))
    {
      var row := rows[i];
      assert rows[..i + 1][..i] == rows[..i];
      if row.width != 4 {
        continue;  // header and footer lines
      }
      if row.userId.Parsed? {
        userId := Some(row.userId.value);
        if row.date.Parsed? {
          date := Some(row.date.value);
          if row.start.Parsed? {
            start := Some(row.start.value);
            if row.end.Parsed? {
              end := Some(row.end.value);
            }
          }
        }
      }
      // the except clause only logs; control reaches the upsert either way
      if userId.None? || date.None? || start.None? || end.None? {
        FailureSticks(rows, i + 1);
        return Failure(UnboundLocal);
      }
      data := Upsert(data, userId.value, date.value, Presence(start.value, end.value));
    }
    assert rows[..|rows|] == rows;
    return Success(data);
  }

  /** Row i has four fields and no row before it has. */
  predicate IsFirstWide(rows: seq<Row>, i: int)
    requires 0 <= i < |rows|
  {
    rows[i].width == 4 && forall j :: 0 <= j < i ==> rows[j].width != 4
  }

  /** The first row of `rows` that has four fields, if any. */
  function FirstWideRow(rows: seq<Row>): (r: Option<Row>)
    ensures r.Some? ==> exists i :: 0 <= i < |rows| && rows[i] == r.value && IsFirstWide(rows, i)
    ensures r.None? ==> forall i :: 0 <= i < |rows| ==> rows[i].width != 4
  {
    if rows == [] then None
    else
      var last := rows[|rows| - 1];
      match FirstWideRow(rows[..|rows| - 1])
      case Some(r) => Some(r)
      case None => if last.width == 4 then Some(last) else None
  }

  /** The locals stay unassigned until the first four-field row and, if
      that row parses, are all assigned from then on. */
  lemma {:induction false} LoadLocals(rows: seq<Row>)
    requires LoadPrefix(rows).Success?
    ensures FirstWideRow(rows).Some? ==> Bound(LoadPrefix(rows).value.locals)
    ensures FirstWideRow(rows).None? ==> LoadPrefix(rows).value.locals == Unassigned
  {
    if rows != [] {
      LoadLocals(rows[..|rows| - 1]);
    }
  }

  /** get_data fails exactly when the first four-field row does not parse:
      that is the only row after which a local can still be unassigned. */
  lemma {:induction false} LoadFailsIff(rows: seq<Row>)
    ensures Load(rows).Failure? <==> FirstWideRow(rows).Some? && !WellFormed(FirstWideRow(rows).value)
  {
    if rows != [] {
      var front, last := rows[..|rows| - 1], rows[|rows| - 1];
      LoadFailsIff(front);
      if LoadPrefix(front).Success? {
        LoadLocals(front);
        assert last.width == 4 ==> (Bound(ParseRow(Unassigned, last)) <==> WellFormed(last));
      }
    }
  }

  /** While the loop runs, the record named by the current locals is in the
      store with the locals' start and end. */
  lemma {:induction false} LocalsAreStored(rows: seq<Row>)
    requires LoadPrefix(rows).Success?
    ensures var st := LoadPrefix(rows).value;
      Bound(st.locals) ==>
        Lookup(st.data, st.locals.userId.value, st.locals.date.value)
          == Some(Presence(st.locals.start.value, st.locals.end.value))
  {
    if rows != [] {
      LoadLocals(rows[..|rows| - 1]);
      LocalsAreStored(rows[..|rows| - 1]);
    }
  }

  /** A four-field row whose user id does not parse re-stores the record of
      the previous four-field row, which is already there: the store does
      not change. */
  lemma UnparsedUserIdChangesNothing(rows: seq<Row>, row: Row)
    requires LoadPrefix(rows).Success?
    requires FirstWideRow(rows).Some?
    requires row.userId.Malformed?
    ensures Load(rows + [row]) == Load(rows)
  {
    assert (rows + [row])[..|rows|] == rows;
    LoadLocals(rows);
    LocalsAreStored(rows);
    var st := LoadPrefix(rows).value;
    if row.width == 4 {
      UpsertStored(st.data, st.locals.userId.value, st.locals.date.value,
        Presence(st.locals.start.value, st.locals.end.value));
    }
  }

  /** The last clean row for (u, d), scanning from the end, or None. */
  function LastClean(rows: seq<Row>, u: int, d: Date): Option<Presence>
  {
    if rows == [] then None
    else
      var last := rows[|rows| - 1];
      if Clean(last) && last.userId.value == u && last.date.value == d then Some(PresenceOf(last))
      else LastClean(rows[..|rows| - 1], u, d)
  }

  /** The evidently intended store: clean rows upserted in order, every
      other row dropped. */
  function LoadClean(rows: seq<Row>): (s: Store)
    ensures forall u :: u in s ==> s[u] != map[]
  {
    if rows == [] then map[]
    else
      var last := rows[|rows| - 1];
      if Clean(last) then Upsert(LoadClean(rows[..|rows| - 1]), last.userId.value, last.date.value, PresenceOf(last))
      else LoadClean(rows[..|rows| - 1])
  }

  /** Later rows overwrite earlier ones: the intended store holds, for each
      user and date, exactly the last clean row for that pair. */
  lemma {:induction false} LoadCleanLastWins(rows: seq<Row>, u: int, d: Date)
    ensures Lookup(LoadClean(rows), u, d) == LastClean(rows, u, d)
  {
    if rows != [] {
      LoadCleanLastWins(rows[..|rows| - 1], u, d);
    }
  }

  /** When every four-field row parses, get_data succeeds and builds the
      intended store. */
  lemma {:induction false} LoadOfCleanRows(rows: seq<Row>)
    requires forall i :: 0 <= i < |rows| && rows[i].width == 4 ==> WellFormed(rows[i])
    ensures Load(rows) == Success(LoadClean(rows))
  {
    if rows != [] {
      var front := rows[..|rows| - 1];
      assert forall i :: 0 <= i < |front| && front[i].width == 4 ==> WellFormed(front[i]) by {
        forall i | 0 <= i < |front| && front[i].width == 4 ensures WellFormed(front[i]) {
          assert rows[i] == front[i];
        }
      }
      LoadOfCleanRows(front);
    }
  }

  /** get_data keeps the last row for each user and date, so every user in
      the store has at least one date. */
  lemma LoadLastWins(rows: seq<Row>)
    requires forall i :: 0 <= i < |rows| && rows[i].width == 4 ==> WellFormed(rows[i])
    ensures Load(rows).Success?
    ensures forall u, d :: Lookup(Load(rows).value, u, d) == LastClean(rows, u, d)
    ensures forall u :: u in Load(rows).value ==> Load(rows).value[u] != map[]
  {
    LoadOfCleanRows(rows);
    forall u, d ensures Lookup(Load(rows).value, u, d) == LastClean(rows, u, d) {
      LoadCleanLastWins(rows, u, d);
    }
  }

  /** As written, after the first good row, a four-field row whose user id
      parses but whose date does not stores, under its own user id, the
      date, start and end of the row before it. */
  lemma UnparsedDateCopiesPreviousRecord(rows: seq<Row>, row: Row)
    requires LoadPrefix(rows).Success? && FirstWideRow(rows).Some?
    requires row.width == 4 && row.userId.Parsed? && row.date.Malformed?
    ensures var st := LoadPrefix(rows).value;
      && Bound(st.locals)
      && Load(rows + [row]) == Success(Upsert(st.data, row.userId.value, st.locals.date.value,
                                              Presence(st.locals.start.value, st.locals.end.value)))
  {
    assert (rows + [row])[..|rows|] == rows;
    LoadLocals(rows);
  }

  /** As written, a four-field row whose user id parses but whose date does
      not is stored under the new user id with the previous row's date,
      start and end: user 11 gains a record copied from user 10, where the
      intended store has no record for user 11. */
  lemma PartialRowCopiesPreviousRecord(d: Date, s: TimeOfDay, e: TimeOfDay)
    ensures var rows := [Row(4, Parsed(10), Parsed(d), Parsed(s), Parsed(e)),
                         Row(4, Parsed(11), Malformed, Malformed, Malformed)];
      && Load(rows) == Success(map[10 := map[d := Presence(s, e)], 11 := map[d := Presence(s, e)]])
      && LoadClean(rows) == map[10 := map[d := Presence(s, e)]]
  {
    var rows := [Row(4, Parsed(10), Parsed(d), Parsed(s), Parsed(e)),
                 Row(4, Parsed(11), Malformed, Malformed, Malformed)];
    var p := Presence(s, e);
    var first := Locals(Some(10), Some(d), Some(s), Some(e));
    assert rows[..1][..0] == [];
    assert rows[..1] == [rows[0]];
    assert rows[..2][..1] == rows[..1];
    assert LoadPrefix(rows[..1]) == Success(LoadState(map[10 := map[d := p]], first));
    assert ParseRow(first, rows[1]) == first.(userId := Some(11));
    assert Upsert(map[10 := map[d := p]], 11, d, p) == map[10 := map[d := p], 11 := map[d := p]];
    assert rows[..2] == rows;
    assert LoadClean(rows[..1]) == map[10 := map[d := p]] by {
      assert LoadClean(rows[..1][..0]) == map[];
    }
  }
}
