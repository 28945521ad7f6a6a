/** The expiring memoizer of utils.cache: one slot per decorated function,
    refreshed when it is empty or its expiry has passed. */
module Cache {
  import opened Wrappers

  /** Timestamps are datetime values counted in microseconds, the
      resolution of datetime.now(). */
  const MicrosPerSecond: int := 1000000

  /** The state `cache(cache_time)` keeps for one decorated function: the
      'memo' and 'valid' deques (maxlen=1, so at most one element each),
      plus the number of times the wrapped function has been evaluated. */
  class Memoizer<T> {
    const cacheTime: int
    var memo: seq<T>
    var valid: seq<int>
    var evaluations: nat

    ghost predicate Valid()
      reads this
    {
      |memo| <= 1 && |valid| <= 1 && (|memo| == 1 ==> |valid| == 1)
    }

    constructor (cacheTime: int)
      ensures Valid() && this.cacheTime == cacheTime
      ensures memo == [] && valid == [] && evaluations == 0
    {
      this.cacheTime := cacheTime;
      memo, valid, evaluations := [], [], 0;
    }

    /** The test of lines 57-58: nothing cached yet, or `now` strictly past
        the stored expiry. A slot that is not stale holds a value, the one
        line 61 returns. */
    predicate Stale(now: int)
      reads this
      requires Valid()
      ensures !Stale(now) ==> |memo| == 1 && now <= valid[0]
    {
      memo == [] || now > valid[0]
    }

    /** Until the next call, a slot that is stale stays stale as time goes
        on. */
    lemma StaleLater(now: int, later: int)
      requires Valid() && Stale(now) && now <= later
      ensures Stale(later)
    {
    }

    /** One call of the wrapper at time `now`. `func(k)` is what the k-th
        evaluation of the wrapped function gives (None: it raises). On a
        refresh the new expiry is stored before the function runs, so a
        refresh that raises keeps the old value but advances its expiry. */
    method Call(now: int, func: nat -> Option<T>) returns (r: Option<T>)
      requires Valid()
      modifies this
      ensures Valid()
      ensures !old(Stale(now)) ==>
        && r == Some(old(memo)[0])
        && memo == old(memo) && valid == old(valid) && evaluations == old(evaluations)
      ensures old(Stale(now)) ==>
        && evaluations == old(evaluations) + 1
        && valid == [now + cacheTime * MicrosPerSecond]
        && r == func(old(evaluations))
        && memo == (if r.Some? then [r.value] else old(memo))
    {
      var validTo := now + cacheTime * MicrosPerSecond;
      if memo == [] || now > valid[0] {
        valid := [validTo];  // valid.append on a deque of maxlen 1
        var result := func(evaluations);
        evaluations := evaluations + 1;
        if result.None? {
          return None;  // the exception propagates to the caller
        }
        memo := [result.value];
      }
      r := Some(memo[0]);
    }

    /** The wrapper as evidently intended: the expiry is stored together
        with the value, only once the function has returned. A refresh that
        raises leaves the slot as it was, so every later call retries. */
    method CallFixed(now: int, func: nat -> Option<T>) returns (r: Option<T>)
      requires Valid()
      modifies this
      ensures Valid()
      ensures !old(Stale(now)) ==>
        && r == Some(old(memo)[0])
        && memo == old(memo) && valid == old(valid) && evaluations == old(evaluations)
      ensures old(Stale(now)) ==>
        && evaluations == old(evaluations) + 1
        && r == func(old(evaluations))
        && (r.Some? ==> memo == [r.value] && valid == [now + cacheTime * MicrosPerSecond])
        && (r.None? ==> memo == old(memo) && valid == old(valid))
      ensures r.None? ==> forall t :: t >= now ==> Stale(t)
    {
      var validTo := now + cacheTime * MicrosPerSecond;
      if memo == [] || now > valid[0] {
        var result := func(evaluations);
        evaluations := evaluations + 1;
        if result.None? {
          return None;
        }
        valid := [validTo];
        memo := [result.value];
      }
      r := Some(memo[0]);
    }
  }

  /** Two calls within the window return the same value and evaluate the
      function once. */
  method CallTwiceWithinWindow<T>(cacheTime: int, t1: int, t2: int, func: nat -> Option<T>)
    returns (r1: Option<T>, r2: Option<T>, evaluations: nat)
    requires t1 <= t2 <= t1 + cacheTime * MicrosPerSecond
    requires func(0).Some?
    ensures r1 == r2 == func(0)
    ensures evaluations == 1
  {
    var m := new Memoizer<T>(cacheTime);
    r1 := m.Call(t1, func);
    r2 := m.Call(t2, func);
    evaluations := m.evaluations;
  }

  /** A call after the window evaluates the function exactly once more and
      returns the new value. */
  method CallAfterExpiry<T>(cacheTime: int, t1: int, t2: int, func: nat -> Option<T>)
    returns (r1: Option<T>, r2: Option<T>, evaluations: nat)
    requires t2 > t1 + cacheTime * MicrosPerSecond
    requires func(0).Some?
    ensures r1 == func(0) && r2 == func(1)
    ensures evaluations == 2
  {
    var m := new Memoizer<T>(cacheTime);
    r1 := m.Call(t1, func);
    r2 := m.Call(t2, func);
    evaluations := m.evaluations;
  }

  /** A stub whose i-th evaluation returns 201 + i, cached for 2 seconds:
      201 at time 0, then 202 three seconds later and 202 again straight
      after. */
  method TimeoutScenario() returns (a: Option<int>, b: Option<int>, c: Option<int>)
    ensures a == Some(201) && b == Some(202) && c == Some(202)
  {
    var m := new Memoizer<int>(2);
    var stub := (i: nat) => Some(201 + i);
    a := m.Call(0, stub);
    b := m.Call(3 * MicrosPerSecond, stub);
    c := m.Call(3 * MicrosPerSecond + 1, stub);
  }

  /** As written: the first evaluation returns 1, the second raises and the
      third would return 2. After the failed refresh at 601 s, the call at
      602 s serves the value from time 0 without evaluating again. */
  method StaleAfterFailedRefresh() returns (second: Option<int>, third: Option<int>, evaluations: nat)
    ensures second == None && third == Some(1) && evaluations == 2
  {
    var m := new Memoizer<int>(600);
    var source := (k: nat) => if k == 0 then Some(1) else if k == 1 then None else Some(2);
    var first := m.Call(0, source);
    second := m.Call(601 * MicrosPerSecond, source);
    third := m.Call(602 * MicrosPerSecond, source);
    evaluations := m.evaluations;
  }

  /** The same calls with the intended wrapper: the call at 602 s retries
      and returns the fresh value. */
  method RetryAfterFailedRefresh() returns (second: Option<int>, third: Option<int>, evaluations: nat)
    ensures second == None && third == Some(2) && evaluations == 3
  {
    var m := new Memoizer<int>(600);
    var source := (k: nat) => if k == 0 then Some(1) else if k == 1 then None else Some(2);
    var first := m.CallFixed(0, source);
    second := m.CallFixed(601 * MicrosPerSecond, source);
    third := m.CallFixed(602 * MicrosPerSecond, source);
    evaluations := m.evaluations;
  }
}
