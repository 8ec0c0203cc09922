/** `check_rate_limit` of utils.py: a per-user, per-action counting window
    over the table `user_id -> action_type -> {last_request, request_count}`.
    The wall clock is replaced by an explicit integer `now` in seconds. */
module RateLimit {
  import Config

  /** One row of the table: the start of the current window and the number of
      requests counted in it. */
  datatype Entry = Entry(lastRequest: int, requestCount: int)

  type Table = map<int, map<string, Entry>>

  /** The threshold for the caller's class: the administrators' one or the
      normal one. */
  function MaxRequests(isAdmin: bool): (m: int)
    ensures 1 <= Config.RATE_LIMIT_MAX_REQUESTS <= m <= Config.ADMIN_RATE_LIMIT_MAX_REQUESTS
  {
    if isAdmin then Config.ADMIN_RATE_LIMIT_MAX_REQUESTS else Config.RATE_LIMIT_MAX_REQUESTS
  }

  /** The window length for the caller's class, in seconds. */
  function TimeWindow(isAdmin: bool): (w: int)
    ensures w > 0
  {
    if isAdmin then Config.ADMIN_RATE_LIMIT_WINDOW else Config.RATE_LIMIT_WINDOW
  }

  predicate HasEntry(t: Table, userId: int, actionType: string) {
    userId in t && actionType in t[userId]
  }

  /** The four things a call can do. */
  datatype Outcome = Created | Rejected | Incremented | Reset

  /** Which of the four outcomes a call at time `now` has. A difference below
      the window, negative ones included, counts as inside the window. */
  function Classify(t: Table, userId: int, actionType: string, isAdmin: bool, now: int): (o: Outcome)
    ensures o == Created <==> !HasEntry(t, userId, actionType)
    ensures o == Reset ==> now - t[userId][actionType].lastRequest >= TimeWindow(isAdmin)
    ensures o in {Rejected, Incremented} ==> now - t[userId][actionType].lastRequest < TimeWindow(isAdmin)
  {
    if !HasEntry(t, userId, actionType) then Created
    else
      var e := t[userId][actionType];
      if now - e.lastRequest < TimeWindow(isAdmin) then
        if e.requestCount >= MaxRequests(isAdmin) then Rejected else Incremented
      else Reset
  }

  /** The value the call returns: a request is refused exactly when its pair
      has an entry whose window is still open and whose count has reached
      the threshold. */
  function Allowed(t: Table, userId: int, actionType: string, isAdmin: bool, now: int): (b: bool)
    ensures !b <==> (HasEntry(t, userId, actionType) &&
                     now - t[userId][actionType].lastRequest < TimeWindow(isAdmin) &&
                     t[userId][actionType].requestCount >= MaxRequests(isAdmin))
  {
    Classify(t, userId, actionType, isAdmin, now) != Rejected
  }

  /** `t` with the entry for `(userId, actionType)` set to `e`, creating the
      user's inner table when it is missing. */
  function Put(t: Table, userId: int, actionType: string, e: Entry): (t': Table)
    ensures HasEntry(t', userId, actionType) && t'[userId][actionType] == e
    ensures t'.Keys == t.Keys + {userId}
    ensures forall u, a :: (u, a) != (userId, actionType) ==>
      (HasEntry(t', u, a) <==> HasEntry(t, u, a)) &&
      (HasEntry(t, u, a) ==> t'[u][a] == t[u][a])
  {
    t[userId := (if userId in t then t[userId] else map[])[actionType := e]]
  }

  /** The table after the call. */
  function After(t: Table, userId: int, actionType: string, isAdmin: bool, now: int): (t': Table)
    ensures t'.Keys <= t.Keys + {userId}
    ensures forall u, a :: (u, a) != (userId, actionType) ==>
      (HasEntry(t', u, a) <==> HasEntry(t, u, a)) &&
      (HasEntry(t, u, a) ==> t'[u][a] == t[u][a])
  {
    match Classify(t, userId, actionType, isAdmin, now)
    case Created => Put(t, userId, actionType, Entry(now, 1))
    case Rejected => t
    case Incremented =>
      var e := t[userId][actionType];
      Put(t, userId, actionType, Entry(e.lastRequest, e.requestCount + 1))
    case Reset => Put(t, userId, actionType, Entry(now, 1))
  }

  /** Every stored count lies in `[1, max]`. */
  ghost predicate Bounded(t: Table, max: int) {
    forall u, a :: HasEntry(t, u, a) ==> 1 <= t[u][a].requestCount <= max
  }

  /** The first request for a pair creates the entry `{now, 1}` and is
      allowed, whichever class the caller is in. */
  lemma FirstRequestCreates(t: Table, userId: int, actionType: string, isAdmin: bool, now: int)
    requires !HasEntry(t, userId, actionType)
    ensures Allowed(t, userId, actionType, isAdmin, now)
    ensures var t' := After(t, userId, actionType, isAdmin, now);
      HasEntry(t', userId, actionType) && t'[userId][actionType] == Entry(now, 1)
  {
  }

  /** Inside the window and at the threshold, the call is refused and the
      table is left exactly as it was. */
  lemma RejectedAtLimit(t: Table, userId: int, actionType: string, isAdmin: bool, now: int)
    requires HasEntry(t, userId, actionType)
    requires now - t[userId][actionType].lastRequest < TimeWindow(isAdmin)
    requires t[userId][actionType].requestCount >= MaxRequests(isAdmin)
    ensures !Allowed(t, userId, actionType, isAdmin, now)
    ensures After(t, userId, actionType, isAdmin, now) == t
  {
  }

  /** Inside the window and below the threshold, the call is allowed, the
      count goes up by exactly one and the window start stays put. */
  lemma IncrementedInsideWindow(t: Table, userId: int, actionType: string, isAdmin: bool, now: int)
    requires HasEntry(t, userId, actionType)
    requires now - t[userId][actionType].lastRequest < TimeWindow(isAdmin)
    requires t[userId][actionType].requestCount < MaxRequests(isAdmin)
    ensures Allowed(t, userId, actionType, isAdmin, now)
    ensures var e, t' := t[userId][actionType], After(t, userId, actionType, isAdmin, now);
      HasEntry(t', userId, actionType) &&
      t'[userId][actionType] == Entry(e.lastRequest, e.requestCount + 1)
  {
  }

  /** Once the window has run out, the call is allowed and opens a new
      window at `now` with a count of one. */
  lemma ResetAfterWindow(t: Table, userId: int, actionType: string, isAdmin: bool, now: int)
    requires HasEntry(t, userId, actionType)
    requires now - t[userId][actionType].lastRequest >= TimeWindow(isAdmin)
    ensures Allowed(t, userId, actionType, isAdmin, now)
    ensures var t' := After(t, userId, actionType, isAdmin, now);
      HasEntry(t', userId, actionType) && t'[userId][actionType] == Entry(now, 1)
  {
  }

  /** A call never leaves a count outside `[1, max]` when `max` is at least
      the caller's threshold. */
  lemma CountStaysBounded(t: Table, userId: int, actionType: string, isAdmin: bool, now: int, max: int)
    requires Bounded(t, max)
    requires MaxRequests(isAdmin) <= max
    ensures Bounded(After(t, userId, actionType, isAdmin, now), max)
  {
    var t' := After(t, userId, actionType, isAdmin, now);
    forall u, a | HasEntry(t', u, a) ensures 1 <= t'[u][a].requestCount <= max {
      if (u, a) != (userId, actionType) {
        assert HasEntry(t, u, a);
      }
    }
  }

  /** With the class fixed, counts stay within that class's threshold; with
      the class varying between calls, within the larger, administrators'
      threshold. */
  lemma CountBoundedByThreshold(t: Table, userId: int, actionType: string, isAdmin: bool, now: int)
    ensures Bounded(t, MaxRequests(isAdmin)) ==>
      Bounded(After(t, userId, actionType, isAdmin, now), MaxRequests(isAdmin))
    ensures Bounded(t, Config.ADMIN_RATE_LIMIT_MAX_REQUESTS) ==>
      Bounded(After(t, userId, actionType, isAdmin, now), Config.ADMIN_RATE_LIMIT_MAX_REQUESTS)
  {
    if Bounded(t, MaxRequests(isAdmin)) {
      CountStaysBounded(t, userId, actionType, isAdmin, now, MaxRequests(isAdmin));
    }
    if Bounded(t, Config.ADMIN_RATE_LIMIT_MAX_REQUESTS) {
      CountStaysBounded(t, userId, actionType, isAdmin, now, Config.ADMIN_RATE_LIMIT_MAX_REQUESTS);
    }
  }

  /** The answers and the final table of a run of calls for one pair and one
      class, at the given times. */
  function Replay(t: Table, userId: int, actionType: string, isAdmin: bool, times: seq<int>): (r: (seq<bool>, Table))
    ensures |r.0| == |times|
    decreases |times|
  {
    if times == [] then ([], t)
    else
      var rest := Replay(After(t, userId, actionType, isAdmin, times[0]), userId, actionType, isAdmin, times[1..]);
      ([Allowed(t, userId, actionType, isAdmin, times[0])] + rest.0, rest.1)
  }

  /** A run split in two is the first part followed by the second part
      started from where the first left the table. */
  lemma {:induction false} ReplayAppend(t: Table, userId: int, actionType: string, isAdmin: bool, xs: seq<int>, ys: seq<int>)
    ensures var first := Replay(t, userId, actionType, isAdmin, xs);
      var second := Replay(first.1, userId, actionType, isAdmin, ys);
      Replay(t, userId, actionType, isAdmin, xs + ys) == (first.0 + second.0, second.1)
    decreases |xs|
  {
    if xs == [] {
      assert xs + ys == ys;
      var second := Replay(t, userId, actionType, isAdmin, ys);
      assert [] + second.0 == second.0;
    } else {
      var t' := After(t, userId, actionType, isAdmin, xs[0]);
      assert (xs + ys)[0] == xs[0] && (xs + ys)[1..] == xs[1..] + ys;
      ReplayAppend(t', userId, actionType, isAdmin, xs[1..], ys);
      var head := [Allowed(t, userId, actionType, isAdmin, xs[0])];
      var tail1 := Replay(t', userId, actionType, isAdmin, xs[1..]);
      var second := Replay(tail1.1, userId, actionType, isAdmin, ys);
      assert head + (tail1.0 + second.0) == (head + tail1.0) + second.0;
    }
  }

  /** Calls that all fall inside a window opened at `start` with `count`
      requests are allowed while the count is below the threshold and refused
      from then on; the window start never moves. */
  lemma {:induction false} ReplayWithinWindow(t: Table, userId: int, actionType: string, isAdmin: bool,
                                              times: seq<int>, start: int, count: int)
    requires HasEntry(t, userId, actionType) && t[userId][actionType] == Entry(start, count)
    requires forall i :: 0 <= i < |times| ==> times[i] - start < TimeWindow(isAdmin)
    ensures var r := Replay(t, userId, actionType, isAdmin, times);
      r.0 == seq(|times|, i => count + i < MaxRequests(isAdmin)) &&
      HasEntry(r.1, userId, actionType) &&
      r.1[userId][actionType] ==
        Entry(start, if count >= MaxRequests(isAdmin) || count + |times| <= MaxRequests(isAdmin)
                     then (if count >= MaxRequests(isAdmin) then count else count + |times|)
                     else MaxRequests(isAdmin))
    decreases |times|
  {
    if times != [] {
      var t' := After(t, userId, actionType, isAdmin, times[0]);
      var count' := if count < MaxRequests(isAdmin) then count + 1 else count;
      assert HasEntry(t', userId, actionType) && t'[userId][actionType] == Entry(start, count');
      forall i | 0 <= i < |times[1..]| ensures times[1..][i] - start < TimeWindow(isAdmin) {
        assert times[1..][i] == times[i + 1];
      }
      ReplayWithinWindow(t', userId, actionType, isAdmin, times[1..], start, count');
    }
  }

  /** A burst of calls for a pair that has no entry yet, all within one
      window of the first, gets exactly as many acceptances as the threshold
      allows, and every call after that is refused; the entry ends with the
      window opened by the first call and a count capped at the threshold. */
  lemma BurstWithinWindow(t: Table, userId: int, actionType: string, isAdmin: bool, times: seq<int>)
    requires !HasEntry(t, userId, actionType)
    requires times != []
    requires forall i :: 0 <= i < |times| ==> times[i] - times[0] < TimeWindow(isAdmin)
    ensures var r := Replay(t, userId, actionType, isAdmin, times);
      r.0 == seq(|times|, i => i < MaxRequests(isAdmin)) &&
      HasEntry(r.1, userId, actionType) &&
      r.1[userId][actionType] ==
        Entry(times[0], if |times| <= MaxRequests(isAdmin) then |times| else MaxRequests(isAdmin))
  {
    var t' := After(t, userId, actionType, isAdmin, times[0]);
    forall i | 0 <= i < |times[1..]| ensures times[1..][i] - times[0] < TimeWindow(isAdmin) {
      assert times[1..][i] == times[i + 1];
    }
    ReplayWithinWindow(t', userId, actionType, isAdmin, times[1..], times[0], 1);
  }

  /** A normal user sending six requests within a minute has the sixth
      refused; a request 61 seconds after the first is allowed again and
      restarts the count at one. */
  lemma NormalUserScenario(t: Table, userId: int, actionType: string, start: int)
    requires !HasEntry(t, userId, actionType)
    ensures var r := Replay(t, userId, actionType, false,
                            [start, start + 1, start + 2, start + 3, start + 4, start + 5, start + 61]);
      r.0 == [true, true, true, true, true, false, true] &&
      HasEntry(r.1, userId, actionType) && r.1[userId][actionType] == Entry(start + 61, 1)
  {
    var burst := [start, start + 1, start + 2, start + 3, start + 4, start + 5];
    BurstWithinWindow(t, userId, actionType, false, burst);
    var first := Replay(t, userId, actionType, false, burst);
    assert first.0 == [true, true, true, true, true, false];
    ResetAfterWindow(first.1, userId, actionType, false, start + 61);
    var second := Replay(first.1, userId, actionType, false, [start + 61]);
    assert second.0 == [true];
    ReplayAppend(t, userId, actionType, false, burst, [start + 61]);
    assert burst + [start + 61] == [start, start + 1, start + 2, start + 3, start + 4, start + 5, start + 61];
  }

  /** The in-memory table `rate_limits` and the call that consults and
      updates it. */
  class RateLimiter {
    var limits: Table

    /** Stored counts never exceed the larger of the two thresholds. */
    ghost predicate Valid()
      reads this
    {
      Bounded(limits, Config.ADMIN_RATE_LIMIT_MAX_REQUESTS)
    }

    constructor ()
      ensures Valid() && limits == map[]
    {
      limits := map[];
    }

    /** `check_rate_limit`: decide whether the request is allowed and update
        the entry for `(userId, actionType)` in place. */
    method CheckRateLimit(userId: int, actionType: string := "default", isAdmin: bool := false, now: int)
      returns (allowed: bool)
      requires Valid()
      modifies this
      ensures Valid()
      ensures allowed == Allowed(old(limits), userId, actionType, isAdmin, now)
      ensures limits == After(old(limits), userId, actionType, isAdmin, now)
    {
      ghost var t0 := limits;
      CountStaysBounded(t0, userId, actionType, isAdmin, now, Config.ADMIN_RATE_LIMIT_MAX_REQUESTS);
      if userId !in limits {
        limits := limits[userId := map[]];
      }
      if actionType !in limits[userId] {
        assert Classify(t0, userId, actionType, isAdmin, now) == Created;
        limits := limits[userId := limits[userId][actionType := Entry(now, 1)]];
        assert limits == Put(t0, userId, actionType, Entry(now, 1));
        return true;
      }
      assert limits == t0;
      var userLimits := limits[userId][actionType];
      var timeDiff := now - userLimits.lastRequest;
      var maxRequests, timeWindow;
      if isAdmin {
        maxRequests, timeWindow := Config.ADMIN_RATE_LIMIT_MAX_REQUESTS, Config.ADMIN_RATE_LIMIT_WINDOW;
      } else {
        maxRequests, timeWindow := Config.RATE_LIMIT_MAX_REQUESTS, Config.RATE_LIMIT_WINDOW;
      }
      assert maxRequests == MaxRequests(isAdmin) && timeWindow == TimeWindow(isAdmin);
      if timeDiff < timeWindow {
        if userLimits.requestCount >= maxRequests {
          assert Classify(t0, userId, actionType, isAdmin, now) == Rejected;
          return false;
        }
        assert Classify(t0, userId, actionType, isAdmin, now) == Incremented;
        userLimits := userLimits.(requestCount := userLimits.requestCount + 1);
      } else {
        assert Classify(t0, userId, actionType, isAdmin, now) == Reset;
        userLimits := userLimits.(lastRequest := now, requestCount := 1);
      }
      limits := limits[userId := limits[userId][actionType := userLimits]];
      assert limits == Put(t0, userId, actionType, userLimits);
      return true;
    }
  }
}
