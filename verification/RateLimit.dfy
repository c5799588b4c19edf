/**
  The Redis sliding-window script of the rate limiter, one atomic step per call.

  `now` is the caller's clock in milliseconds, `server` the clock of Redis, by which the key's EXPIRE runs out.
  */
module RateLimit {
  import opened Wrappers

  datatype Limiter = Limiter(window: nat, limit: int)

  datatype Call = Call(now: nat, server: nat, member: string)

  // The sorted set (member -> score) and the instant after which Redis drops it.
  datatype Store = Store(entries: map<string, nat>, deadline: Option<nat>)

  const EMPTY := Store(map[], None)

  // math.ceil(window / 1000) + 1 seconds, in milliseconds
  function Ttl(window: nat): nat {
    ((window + 999) / 1000 + 1) * 1000
  }

  function Live(s: Store, server: nat): Store {
    if s.deadline.Some? && server > s.deadline.value then EMPTY else s
  }

  // ZREMRANGEBYSCORE key 0 (now - window); a sorted set that becomes empty is deleted with its expiry.
  function Cleared(s: Store, now: nat, window: nat): Store {
    var kept := map m | m in s.entries && s.entries[m] > now - window :: s.entries[m];
    if kept == map[] then EMPTY else s.(entries := kept)
  }

  function Before(c: Limiter, s: Store, call: Call): Store {
    Cleared(Live(s, call.server), call.now, c.window)
  }

  predicate Allows(c: Limiter, s: Store, call: Call) {
    |Before(c, s, call).entries| < c.limit
  }

  function Step(c: Limiter, s: Store, call: Call): Store {
    var before := Before(c, s, call);
    if |before.entries| < c.limit then
      Store(before.entries[call.member := call.now], Some(call.server + Ttl(c.window)))
    else before
  }

  // ----- runs

  function After(c: Limiter, calls: seq<Call>, n: nat): Store
    requires n <= |calls|
  {
    if n == 0 then EMPTY else Step(c, After(c, calls, n - 1), calls[n - 1])
  }

  predicate Admitted(c: Limiter, calls: seq<Call>, i: nat)
    requires i < |calls|
  {
    Allows(c, After(c, calls, i), calls[i])
  }

  // A key without entries is no key: Redis keeps no expiry of it.
  lemma {:induction false} NoExpiryWithoutEntries(c: Limiter, calls: seq<Call>, n: nat)
    requires n <= |calls|
    ensures After(c, calls, n).entries == map[] <==> After(c, calls, n) == EMPTY
  {
    if n > 0 {
      NoExpiryWithoutEntries(c, calls, n - 1);
      var before := Before(c, After(c, calls, n - 1), calls[n - 1]);
      assert before.entries == map[] ==> before == EMPTY;
    }
  }

  // Neither clock runs backwards, and no two requests use the same member.
  ghost predicate Orderly(calls: seq<Call>) {
    && (forall i, j :: 0 <= i < j < |calls| ==> calls[i].now <= calls[j].now && calls[i].server <= calls[j].server)
    && (forall i, j :: 0 <= i < j < |calls| ==> calls[i].member != calls[j].member)
  }

  // While a request is in the callers' window, the server's clock has not passed the expiry that request would set.
  ghost predicate Timely(window: nat, calls: seq<Call>) {
    forall i, j :: 0 <= i < j < |calls| && calls[j].now < calls[i].now + window ==>
                     calls[j].server <= calls[i].server + Ttl(window)
  }

  // The admitted among the first n calls with a timestamp in (after, upTo].
  ghost function AdmittedIn(c: Limiter, calls: seq<Call>, n: nat, after: int, upTo: int): set<nat>
    requires n <= |calls|
  {
    set i: nat | i < n && Admitted(c, calls, i) && after < calls[i].now <= upTo
  }

  // ----- the sorted set is the window

  ghost predicate Accurate(c: Limiter, calls: seq<Call>, n: nat, s: Store)
    requires n <= |calls|
  {
    && (forall m :: m in s.entries ==> Recorded(c, calls, n, m, s.entries[m]))
    && (forall i: nat :: i < n && Admitted(c, calls, i) ==>
          Kept(s, c, calls[i]) || (n > 0 && calls[i].now + c.window <= calls[n - 1].now))
  }

  ghost predicate Recorded(c: Limiter, calls: seq<Call>, n: nat, member: string, score: nat)
    requires n <= |calls|
  {
    exists i: nat :: i < n && Admitted(c, calls, i) && calls[i].member == member && calls[i].now == score
  }

  ghost predicate Kept(s: Store, c: Limiter, call: Call) {
    && call.member in s.entries && s.entries[call.member] == call.now
    && s.deadline.Some? && s.deadline.value >= call.server + Ttl(c.window)
  }

  // An entry that expired or was removed is out of the window of the call that found it gone.
  lemma ClearingKeepsTheWindow(c: Limiter, calls: seq<Call>, n: nat, s: Store, i: nat)
    requires Orderly(calls) && Timely(c.window, calls) && i < n < |calls| && Kept(s, c, calls[i])
    ensures Kept(Before(c, s, calls[n]), c, calls[i]) || calls[i].now + c.window <= calls[n].now
    ensures calls[i].now + c.window <= calls[n].now || calls[i].member in Before(c, s, calls[n]).entries
  {
    if s.deadline.value < calls[n].server {
      assert calls[n].now >= calls[i].now + c.window;
    } else if calls[i].now + c.window > calls[n].now {
      var kept := map m | m in s.entries && s.entries[m] > calls[n].now - c.window :: s.entries[m];
      assert calls[i].member in kept;
    }
  }

  lemma {:induction false} AlwaysAccurate(c: Limiter, calls: seq<Call>, n: nat)
    requires Orderly(calls) && Timely(c.window, calls) && n <= |calls|
    ensures Accurate(c, calls, n, After(c, calls, n))
  {
    hide Accurate, Step, Admitted, Orderly, Timely;
    if n > 0 {
      AlwaysAccurate(c, calls, n - 1);
      StepKeepsAccurate(c, calls, n - 1, After(c, calls, n - 1));
    } else {
      NothingIsAccurate(c, calls);
    }
  }

  lemma NothingIsAccurate(c: Limiter, calls: seq<Call>)
    ensures Accurate(c, calls, 0, EMPTY)
  {
  }

  lemma StepKeepsAccurate(c: Limiter, calls: seq<Call>, n: nat, s: Store)
    requires Orderly(calls) && Timely(c.window, calls) && n < |calls| && s == After(c, calls, n) && Accurate(c, calls, n, s)
    ensures Accurate(c, calls, n + 1, Step(c, s, calls[n]))
  {
    hide Admitted, Step, Allows, Timely, Before, Kept, After, Orderly;
    var next := Step(c, s, calls[n]);
    NewEntry(c, s, calls[n]);
    AdmittedIs(c, calls, n);
    forall m | m in next.entries ensures Recorded(c, calls, n + 1, m, next.entries[m]) {
      if m in s.entries && next.entries[m] == s.entries[m] {
        assert Recorded(c, calls, n, m, s.entries[m]);
      }
    }
    forall i: nat | i < n + 1 && Admitted(c, calls, i)
      ensures Kept(next, c, calls[i]) || calls[i].now + c.window <= calls[n].now
    {
      if i < n {
        StaysAccurate(c, calls, n, s, i);
      }
    }
  }

  lemma AdmittedIs(c: Limiter, calls: seq<Call>, n: nat)
    requires n < |calls|
    ensures Admitted(c, calls, n) == Allows(c, After(c, calls, n), calls[n])
  {
    hide After;
  }

  lemma NewEntry(c: Limiter, s: Store, call: Call)
    ensures Allows(c, s, call) ==> Kept(Step(c, s, call), c, call)
    ensures forall m :: m in Step(c, s, call).entries ==>
                          || (Allows(c, s, call) && m == call.member && Step(c, s, call).entries[m] == call.now)
                          || (m in s.entries && Step(c, s, call).entries[m] == s.entries[m])
  {
  }

  lemma StaysAccurate(c: Limiter, calls: seq<Call>, n: nat, s: Store, i: nat)
    requires Orderly(calls) && Timely(c.window, calls) && i < n < |calls| && Accurate(c, calls, n, s) && Admitted(c, calls, i)
    ensures Kept(Step(c, s, calls[n]), c, calls[i]) || calls[i].now + c.window <= calls[n].now
  {
    hide Admitted;
    if Kept(s, c, calls[i]) {
      ClearingKeepsTheWindow(c, calls, n, s, i);
      assert calls[i].member != calls[n].member;
    } else {
      assert calls[n - 1].now <= calls[n].now;
    }
  }

  // When a call arrives, the cleaned set holds exactly the admitted requests of (now - window, now].
  lemma TheSetIsTheWindow(c: Limiter, calls: seq<Call>, n: nat)
    requires Orderly(calls) && Timely(c.window, calls) && n < |calls|
    ensures
      var now := calls[n].now;
      |Before(c, After(c, calls, n), calls[n]).entries| == |AdmittedIn(c, calls, n, now - c.window, now)|
  {
    hide Admitted, After, Before, Accurate, Timely, Orderly;
    AlwaysAccurate(c, calls, n);
    var s, now := After(c, calls, n), calls[n].now;
    var entries := Before(c, s, calls[n]).entries;
    var window := AdmittedIn(c, calls, n, now - c.window, now);
    var members := set i | i in window :: calls[i].member;
    forall m | m in entries ensures m in members {
      EntriesAreInTheWindow(c, calls, n, s, m);
    }
    forall i | i in window ensures calls[i].member in entries {
      WindowIsInTheEntries(c, calls, n, s, i);
    }
    assert entries.Keys == members;
    DistinctMembers(calls, window);
    assert |entries| == |entries.Keys|;
  }

  lemma EntriesAreInTheWindow(c: Limiter, calls: seq<Call>, n: nat, s: Store, m: string)
    requires Orderly(calls) && n < |calls| && Accurate(c, calls, n, s) && m in Before(c, s, calls[n]).entries
    ensures exists i :: i in AdmittedIn(c, calls, n, calls[n].now - c.window, calls[n].now) && calls[i].member == m
  {
    hide Admitted;
    assert m in s.entries && s.entries[m] > calls[n].now - c.window;
    assert Recorded(c, calls, n, m, s.entries[m]);
    var i: nat :| i < n && Admitted(c, calls, i) && calls[i].member == m && calls[i].now == s.entries[m];
    assert calls[i].now <= calls[n].now;
    assert i in AdmittedIn(c, calls, n, calls[n].now - c.window, calls[n].now);
  }

  lemma WindowIsInTheEntries(c: Limiter, calls: seq<Call>, n: nat, s: Store, i: nat)
    requires Orderly(calls) && Timely(c.window, calls) && n < |calls| && Accurate(c, calls, n, s)
    requires i in AdmittedIn(c, calls, n, calls[n].now - c.window, calls[n].now)
    ensures calls[i].member in Before(c, s, calls[n]).entries
  {
    hide Admitted, Before;
    assert calls[n - 1].now <= calls[n].now;
    assert Kept(s, c, calls[i]);
    ClearingKeepsTheWindow(c, calls, n, s, i);
  }

  lemma {:induction false} DistinctMembers(calls: seq<Call>, window: set<nat>)
    requires Orderly(calls) && forall i :: i in window ==> i < |calls|
    ensures |set i | i in window :: calls[i].member| == |window|
  {
    if window != {} {
      var k :| k in window;
      DistinctMembers(calls, window - {k});
      var rest := set i | i in window - {k} :: calls[i].member;
      assert (set i | i in window :: calls[i].member) == rest + {calls[k].member};
      assert calls[k].member !in rest;
    }
  }

  // A request is refused exactly when `limit` admitted requests lie in the window that ends with it.
  lemma RefusedExactlyWhenTheWindowIsFull(c: Limiter, calls: seq<Call>, n: nat)
    requires Orderly(calls) && Timely(c.window, calls) && n < |calls|
    ensures Admitted(c, calls, n) <==> |AdmittedIn(c, calls, n, calls[n].now - c.window, calls[n].now)| < c.limit
  {
    TheSetIsTheWindow(c, calls, n);
  }

  // Over every run, every interval (t - window, t] holds at most `limit` admitted requests.
  lemma {:induction false} NeverMoreThanTheLimit(c: Limiter, calls: seq<Call>, n: nat, t: int)
    requires Orderly(calls) && Timely(c.window, calls) && n <= |calls|
    ensures |AdmittedIn(c, calls, n, t - c.window, t)| <= if c.limit > 0 then c.limit else 0
  {
    hide Admitted, After, Timely, AdmittedIn;
    AdmittedGrows(c, calls, n, t - c.window, t);
    if n > 0 {
      var now := calls[n - 1].now;
      NeverMoreThanTheLimit(c, calls, n - 1, t);
      if Admitted(c, calls, n - 1) && t - c.window < now <= t {
        RefusedExactlyWhenTheWindowIsFull(c, calls, n - 1);
        EarlierInTheWindow(c, calls, n - 1, t);
      }
    }
  }

  lemma AdmittedGrows(c: Limiter, calls: seq<Call>, n: nat, after: int, upTo: int)
    requires n <= |calls|
    ensures n == 0 ==> |AdmittedIn(c, calls, n, after, upTo)| == 0
    ensures n > 0 ==>
              |AdmittedIn(c, calls, n, after, upTo)|
              == |AdmittedIn(c, calls, n - 1, after, upTo)|
                 + if Admitted(c, calls, n - 1) && after < calls[n - 1].now <= upTo then 1 else 0
  {
    if n == 0 {
      assert AdmittedIn(c, calls, n, after, upTo) == {};
    } else {
      OneMoreAdmitted(c, calls, n, after, upTo);
      hide AdmittedIn, Admitted;
    }
  }

  lemma OneMoreAdmitted(c: Limiter, calls: seq<Call>, n: nat, after: int, upTo: int)
    requires 0 < n <= |calls|
    ensures n - 1 !in AdmittedIn(c, calls, n - 1, after, upTo)
    ensures AdmittedIn(c, calls, n, after, upTo)
            == AdmittedIn(c, calls, n - 1, after, upTo)
               + if Admitted(c, calls, n - 1) && after < calls[n - 1].now <= upTo then {n - 1} else {}
  {
    hide Admitted;
  }

  // What lies in (t - window, t] before call n also lies in the window that ends with call n, if that is in it.
  lemma EarlierInTheWindow(c: Limiter, calls: seq<Call>, n: nat, t: int)
    requires Orderly(calls) && n < |calls| && calls[n].now <= t
    ensures |AdmittedIn(c, calls, n, t - c.window, t)| <= |AdmittedIn(c, calls, n, calls[n].now - c.window, calls[n].now)|
  {
    hide Admitted;
    Subset(AdmittedIn(c, calls, n, t - c.window, t), AdmittedIn(c, calls, n, calls[n].now - c.window, calls[n].now));
  }

  lemma {:induction false} Subset(a: set<nat>, b: set<nat>)
    requires a <= b
    ensures |a| <= |b|
  {
    if a != {} {
      var x :| x in a;
      Subset(a - {x}, b - {x});
    }
  }

  // ----- the bound on the clocks is exact

  ghost predicate Increasing(indexes: seq<nat>, n: nat) {
    && (forall x :: 0 <= x < |indexes| ==> indexes[x] < n)
    && (forall x, y :: 0 <= x < y < |indexes| ==> indexes[x] < indexes[y])
  }

  // Some of the calls, in order: the requests that share one key.
  function Chosen(calls: seq<Call>, indexes: seq<nat>): (r: seq<Call>)
    requires Increasing(indexes, |calls|)
    ensures |r| == |indexes| && forall x :: 0 <= x < |r| ==> r[x] == calls[indexes[x]]
  {
    seq(|indexes|, x requires 0 <= x < |indexes| && indexes[x] < |calls| => calls[indexes[x]])
  }

  ghost predicate WindowKeepsTheLimit(c: Limiter, calls: seq<Call>, t: int) {
    |AdmittedIn(c, calls, |calls|, t - c.window, t)| <= if c.limit > 0 then c.limit else 0
  }

  ghost predicate KeepsTheLimit(c: Limiter, calls: seq<Call>) {
    forall t: int :: WindowKeepsTheLimit(c, calls, t)
  }

  ghost predicate KeepsEveryLimit(window: nat, calls: seq<Call>) {
    forall limit: int, indexes: seq<nat> :: Increasing(indexes, |calls|) ==>
                                              KeepsTheLimit(Limiter(window, limit), Chosen(calls, indexes))
  }

  lemma BothAreAdmitted(window: nat, x: Call, y: Call)
    requires y.server > x.server + Ttl(window)
    ensures Admitted(Limiter(window, 1), [x, y], 0) && Admitted(Limiter(window, 1), [x, y], 1)
  {
    hide Ttl;
    var c, calls := Limiter(window, 1), [x, y];
    assert Before(c, EMPTY, x).entries == map[];
    assert After(c, calls, 1) == Step(c, After(c, calls, 0), calls[0]);
    assert Live(Step(c, EMPTY, x), y.server) == EMPTY;
    assert Before(c, After(c, calls, 1), y).entries == map[];
  }

  // Two requests the condition excludes pass a limit of one within one window, whatever the window.
  lemma AnExpiredKeyForgets(window: nat, x: Call, y: Call)
    requires x.now <= y.now < x.now + window && y.server > x.server + Ttl(window)
    ensures
      var c, calls := Limiter(window, 1), [x, y];
      Admitted(c, calls, 0) && Admitted(c, calls, 1) && !KeepsTheLimit(c, calls)
  {
    hide Admitted, Ttl;
    var c, calls := Limiter(window, 1), [x, y];
    BothAreAdmitted(window, x, y);
    var both := AdmittedIn(c, calls, 2, y.now - window, y.now);
    assert both == {0, 1};
    assert !WindowKeepsTheLimit(c, calls, y.now);
  }

  // Whatever the limit and whichever of the calls share a key, the limit is kept: exactly when the clocks are timely.
  lemma TimelyIsExact(window: nat, calls: seq<Call>)
    requires Orderly(calls)
    ensures Timely(window, calls) <==> KeepsEveryLimit(window, calls)
  {
    if Timely(window, calls) {
      forall limit: int, indexes: seq<nat> | Increasing(indexes, |calls|)
        ensures KeepsTheLimit(Limiter(window, limit), Chosen(calls, indexes))
      {
        ChosenCallsKeepTheLimit(Limiter(window, limit), calls, indexes);
      }
    } else {
      var i, j :| 0 <= i < j < |calls| && calls[j].now < calls[i].now + window
                  && calls[j].server > calls[i].server + Ttl(window);
      AnExpiredKeyForgets(window, calls[i], calls[j]);
      assert Increasing([i, j], |calls|) && Chosen(calls, [i, j]) == [calls[i], calls[j]];
      assert !KeepsTheLimit(Limiter(window, 1), Chosen(calls, [i, j]));
    }
  }

  lemma ChosenCallsKeepTheLimit(c: Limiter, calls: seq<Call>, indexes: seq<nat>)
    requires Orderly(calls) && Timely(c.window, calls) && Increasing(indexes, |calls|)
    ensures KeepsTheLimit(c, Chosen(calls, indexes))
  {
    var some := Chosen(calls, indexes);
    assert Orderly(some) && Timely(c.window, some);
    forall t: int ensures WindowKeepsTheLimit(c, some, t) {
      NeverMoreThanTheLimit(c, some, |some|, t);
    }
  }

  // The key outlives the window by more than the rounding of EXPIRE to seconds.
  lemma TheKeyOutlivesTheWindow(window: nat)
    ensures window + 1000 <= Ttl(window) < window + 2000
  {
  }

  // Within a window the server's clock gains no more than a second on the callers'.
  ghost predicate ClocksAgree(window: nat, calls: seq<Call>) {
    forall i, j :: 0 <= i < j < |calls| && calls[j].now < calls[i].now + window ==>
                     calls[j].server - calls[i].server <= calls[j].now - calls[i].now + 1000
  }

  // So with clocks that agree to the second every limit is kept.
  lemma AgreeingClocksKeepEveryLimit(window: nat, calls: seq<Call>)
    requires Orderly(calls) && ClocksAgree(window, calls)
    ensures Timely(window, calls) && KeepsEveryLimit(window, calls)
  {
    hide Ttl, KeepsEveryLimit, Orderly;
    TheKeyOutlivesTheWindow(window);
    TimelyIsExact(window, calls);
  }

  // ----- the script

  class SlidingWindow {
    var entries: map<string, nat>
    var deadline: Option<nat>

    constructor ()
      ensures State() == EMPTY
    {
      entries, deadline := map[], None;
    }

    function State(): Store
      reads this
    {
      Store(entries, deadline)
    }

    // What Redis has expired by now is gone; then ZREMRANGEBYSCORE.
    method RemoveOld(c: Limiter, call: Call)
      modifies this
      ensures State() == Before(c, old(State()), call)
    {
      if deadline.Some? && call.server > deadline.value {
        entries, deadline := map[], None;
      }
      var clearBefore := call.now - c.window;
      entries := map m | m in entries && !(0 <= entries[m] <= clearBefore) :: entries[m];
      if entries == map[] {
        deadline := None;
      }
    }

    method Evaluate(c: Limiter, now: nat, server: nat, member: string) returns (allowed: bool, count: nat)
      modifies this
      ensures State() == Step(c, old(State()), Call(now, server, member))
      ensures allowed == Allows(c, old(State()), Call(now, server, member))
      ensures count == |Before(c, old(State()), Call(now, server, member)).entries| + if allowed then 1 else 0
    {
      hide Before;
      RemoveOld(c, Call(now, server, member));
      count := |entries|;
      if count < c.limit {
        entries := entries[member := now];
        deadline := Some(server + Ttl(c.window));
        return true, count + 1;
      }
      allowed := false;
    }
  }
}
