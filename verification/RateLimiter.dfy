/** The sliding-window rate limiter: services/intelligence/app/core/limits.py. Seconds are reals. */
module RateLimiter {
  import opened Common

  /** The deques, by key; an absent key has an empty one. */
  type Windows = map<string, seq<real>>

  function WindowOf(w: Windows, key: string): seq<real> { if key in w then w[key] else [] }

  /** Pops from the front while the oldest entry is not younger than the cutoff. */
  function Popped(window: seq<real>, cutoff: real): seq<real> {
    if window != [] && window[0] <= cutoff then Popped(window[1..], cutoff) else window
  }

  datatype Reply = Reply(windows: Windows, admitted: bool)

  function Allow(w: Windows, key: string, now: real, max: int, period: real): Reply {
    var window := Popped(WindowOf(w, key), now - period);
    if |window| >= max then Reply(w[key := window], false) else Reply(w[key := window + [now]], true)
  }

  class SlidingWindowRateLimiter {
    const maxRequests: int
    const windowSeconds: real
    var requestTimes: Windows

    constructor (maxRequests: int, windowSeconds: real)
      ensures this.maxRequests == maxRequests && this.windowSeconds == windowSeconds && requestTimes == map[]
    {
      this.maxRequests, this.windowSeconds := maxRequests, windowSeconds;
      requestTimes := map[];
    }

    /** allow, from the clock reading on: what happens under the lock. */
    method AllowRequest(key: string, now: real) returns (admitted: bool)
      modifies this
      ensures Reply(requestTimes, admitted) == Allow(old(requestTimes), key, now, maxRequests, windowSeconds)
    {
      var window := if key in requestTimes then requestTimes[key] else [];
      var cutoff := now - windowSeconds;
      while |window| > 0 && window[0] <= cutoff
        invariant Popped(window, cutoff) == Popped(WindowOf(old(requestTimes), key), cutoff)
        decreases |window|
      {
        window := window[1..];
      }
      if |window| >= maxRequests {
        requestTimes := requestTimes[key := window];
        return false;
      }
      requestTimes := requestTimes[key := window + [now]];
      return true;
    }
  }

  // ----- every run -----

  /** A call, in the order in which calls take the lock. */
  datatype Call = Call(key: string, now: real)

  function Run(calls: seq<Call>, max: int, period: real): Windows {
    if calls == [] then map[]
    else
      var last := calls[|calls| - 1];
      Allow(Run(calls[..|calls| - 1], max, period), last.key, last.now, max, period).windows
  }

  /** Whether the next call would be admitted. */
  function Admits(calls: seq<Call>, next: Call, max: int, period: real): bool {
    Allow(Run(calls, max, period), next.key, next.now, max, period).admitted
  }

  /** The times of the admitted calls of a key, oldest first. */
  function Admitted(calls: seq<Call>, key: string, max: int, period: real): seq<real> {
    if calls == [] then []
    else
      var front, last := calls[..|calls| - 1], calls[|calls| - 1];
      Admitted(front, key, max, period) + if last.key == key && Admits(front, last, max, period) then [last.now] else []
  }

  /** (t - period, t] */
  function Within(t: real, period: real): real -> bool { (x: real) => t - period < x <= t }

  /** How many calls of the key were admitted in (t - period, t]. */
  function AdmittedWithin(calls: seq<Call>, key: string, t: real, max: int, period: real): nat {
    Count(Admitted(calls, key, max, period), Within(t, period))
  }

  /** The readings of the key's calls reach the lock in order; those of other keys may come in any order. */
  ghost predicate ClockInOrder(calls: seq<Call>, key: string) {
    forall i, j :: 0 <= i < j < |calls| && calls[i].key == key && calls[j].key == key ==> calls[i].now <= calls[j].now
  }

  /** No reading of the key is later than t. */
  ghost predicate UpTo(calls: seq<Call>, key: string, t: real) {
    forall i :: 0 <= i < |calls| && calls[i].key == key ==> calls[i].now <= t
  }

  ghost predicate Ascending(s: seq<real>) { forall i, j :: 0 <= i < j < |s| ==> s[i] <= s[j] }

  function Since(cutoff: real): real -> bool { (x: real) => x > cutoff }

  lemma {:induction false} PoppedFilters(window: seq<real>, cutoff: real)
    requires Ascending(window)
    ensures Popped(window, cutoff) == Filter(window, Since(cutoff))
  {
    if window != [] && window[0] <= cutoff {
      PoppedFilters(window[1..], cutoff);
    } else if window != [] {
      forall x | x in window ensures x > cutoff {
        var i :| 0 <= i < |window| && window[i] == x;
      }
      FilterAll(window, Since(cutoff));
    }
  }

  lemma {:induction false} FilterTwice(s: seq<real>, low: real, high: real)
    requires low <= high
    ensures Filter(Filter(s, Since(low)), Since(high)) == Filter(s, Since(high))
  {
    if s != [] {
      FilterTwice(s[1..], low, high);
    }
  }

  lemma {:induction false} FilterAscending(s: seq<real>, p: real -> bool)
    requires Ascending(s)
    ensures Ascending(Filter(s, p))
  {
    if s != [] {
      FilterAscending(s[1..], p);
      var rest := Filter(s[1..], p);
      forall i | 0 <= i < |rest| ensures s[0] <= rest[i] {
        assert rest[i] in rest;
        var k :| 0 <= k < |s[1..]| && s[1..][k] == rest[i];
      }
    }
  }

  /** The deque is the admitted times above a cutoff; the history is ascending and up to t. */
  ghost predicate Tracks(window: seq<real>, admitted: seq<real>, cutoff: real, t: real) {
    && window == Filter(admitted, Since(cutoff))
    && Ascending(admitted)
    && forall x :: x in admitted ==> x <= t
  }

  lemma PoppedIsFiltered(window: seq<real>, admitted: seq<real>, cutoff: real, now: real, period: real)
    requires Tracks(window, admitted, cutoff, now) && cutoff <= now - period
    ensures Popped(window, now - period) == Filter(admitted, Since(now - period))
  {
    FilterAscending(admitted, Since(cutoff));
    PoppedFilters(window, now - period);
    FilterTwice(admitted, cutoff, now - period);
  }

  lemma RecentIsWithin(admitted: seq<real>, now: real, period: real)
    requires forall x :: x in admitted ==> x <= now
    ensures Filter(admitted, Since(now - period)) == Filter(admitted, Within(now, period))
  {
    FilterCongruent(admitted, Since(now - period), Within(now, period));
  }

  /** Popping at now leaves exactly the calls admitted in (now - period, now]. */
  lemma PoppedIsWindow(window: seq<real>, admitted: seq<real>, cutoff: real, now: real, period: real)
    requires Tracks(window, admitted, cutoff, now) && cutoff <= now - period
    ensures Popped(window, now - period) == Filter(admitted, Since(now - period))
    ensures |Popped(window, now - period)| == Count(admitted, Within(now, period))
  {
    PoppedIsFiltered(window, admitted, cutoff, now, period);
    RecentIsWithin(admitted, now, period);
  }

  lemma TrackMore(window: seq<real>, admitted: seq<real>, cutoff: real, now: real)
    requires Tracks(window, admitted, cutoff, now) && cutoff < now
    ensures Tracks(window + [now], admitted + [now], cutoff, now)
  {
    FilterAppend(admitted, [now], Since(cutoff));
    forall i, j | 0 <= i < j < |admitted + [now]| ensures (admitted + [now])[i] <= (admitted + [now])[j] {
      assert admitted[i] in admitted;
    }
  }

  /** What one more call does to the deque and to the history of any key. */
  lemma NextCall(calls: seq<Call>, next: Call, key: string, max: int, period: real)
    ensures
      var all, popped := calls + [next], Popped(WindowOf(Run(calls, max, period), next.key), next.now - period);
      var window, admitted := WindowOf(Run(all, max, period), key), Admitted(all, key, max, period);
      if next.key != key then
        window == WindowOf(Run(calls, max, period), key) && admitted == Admitted(calls, key, max, period)
      else if |popped| >= max then
        window == popped && admitted == Admitted(calls, key, max, period)
      else
        window == popped + [next.now] && admitted == Admitted(calls, key, max, period) + [next.now]
  {
    RunNext(calls, next, max, period);
    AdmittedNext(calls, next, key, max, period);
  }

  lemma RunNext(calls: seq<Call>, next: Call, max: int, period: real)
    ensures Run(calls + [next], max, period) ==
            Allow(Run(calls, max, period), next.key, next.now, max, period).windows
  {
    assert (calls + [next])[..|calls|] == calls;
  }

  lemma AdmittedNext(calls: seq<Call>, next: Call, key: string, max: int, period: real)
    ensures Admitted(calls + [next], key, max, period) == Admitted(calls, key, max, period) +
            if next.key == key && Admits(calls, next, max, period) then [next.now] else []
  {
    assert (calls + [next])[..|calls|] == calls;
  }

  /** After the calls, the deque of a key tracks its history. */
  ghost predicate RunTracked(calls: seq<Call>, key: string, cutoff: real, t: real, max: int, period: real) {
    Tracks(WindowOf(Run(calls, max, period), key), Admitted(calls, key, max, period), cutoff, t)
  }

  lemma OtherKeyTracks(calls: seq<Call>, next: Call, key: string, cutoff: real, t: real, max: int, period: real)
    requires RunTracked(calls, key, cutoff, t, max, period) && next.key != key
    ensures RunTracked(calls + [next], key, cutoff, t, max, period)
  {
    NextCall(calls, next, key, max, period);
  }

  lemma SameKeyTracks(calls: seq<Call>, next: Call, cutoff: real, t: real, max: int, period: real)
    requires RunTracked(calls, next.key, cutoff, next.now, max, period) && next.now <= t
    requires cutoff <= next.now - period && period > 0.0
    ensures RunTracked(calls + [next], next.key, next.now - period, t, max, period)
  {
    var window, admitted := WindowOf(Run(calls, max, period), next.key), Admitted(calls, next.key, max, period);
    NextCall(calls, next, next.key, max, period);
    PoppedIsWindow(window, admitted, cutoff, next.now, period);
    TrackMore(Popped(window, next.now - period), admitted, next.now - period, next.now);
  }

  lemma NothingTracked(key: string, t: real, max: int, period: real)
    ensures RunTracked([], key, t - period, t, max, period)
  {
  }

  lemma FrontInOrder(front: seq<Call>, last: Call, key: string)
    requires ClockInOrder(front + [last], key)
    ensures ClockInOrder(front, key) && (last.key == key ==> UpTo(front, key, last.now))
  {
    var all := front + [last];
    assert all[|front|] == last && forall i :: 0 <= i < |front| ==> all[i] == front[i];
  }

  lemma FrontUpTo(front: seq<Call>, last: Call, key: string, t: real)
    requires UpTo(front + [last], key, t)
    ensures UpTo(front, key, t) && (last.key == key ==> last.now <= t)
  {
    var all := front + [last];
    assert all[|front|] == last && forall i :: 0 <= i < |front| ==> all[i] == front[i];
  }

  /** One more call keeps the tracking, whatever its key. */
  lemma TracksOneMore(front: seq<Call>, last: Call, key: string, cutoff: real, t: real, max: int, period: real)
    requires period > 0.0 && (last.key == key ==> last.now <= t)
    requires var seen := if last.key == key then last.now else t;
             cutoff <= seen - period && RunTracked(front, key, cutoff, seen, max, period)
    ensures RunTracked(front + [last], key, if last.key == key then last.now - period else cutoff, t, max, period)
  {
    if last.key == key {
      SameKeyTracks(front, last, cutoff, t, max, period);
    } else {
      OtherKeyTracks(front, last, key, cutoff, t, max, period);
    }
  }

  lemma {:induction false} RunTracks(calls: seq<Call>, key: string, t: real, max: int, period: real)
      returns (cutoff: real)
    requires ClockInOrder(calls, key) && UpTo(calls, key, t) && period > 0.0
    ensures cutoff <= t - period && RunTracked(calls, key, cutoff, t, max, period)
    decreases |calls|
  {
    if calls == [] {
      NothingTracked(key, t, max, period);
      return t - period;
    }
    var front, last := calls[..|calls| - 1], calls[|calls| - 1];
    assert calls == front + [last];
    FrontInOrder(front, last, key);
    FrontUpTo(front, last, key, t);
    var before := RunTracks(front, key, if last.key == key then last.now else t, max, period);
    TracksOneMore(front, last, key, before, t, max, period);
    cutoff := if last.key == key then last.now - period else before;
  }

  /**
   Where the readings of a key reach the lock in order, a call is admitted exactly when fewer than
   max_requests calls of its key were admitted in the window that ends with it.
   */
  lemma AdmitsIffRoom(calls: seq<Call>, next: Call, max: int, period: real)
    requires ClockInOrder(calls + [next], next.key) && period > 0.0
    ensures Admits(calls, next, max, period) <==> AdmittedWithin(calls, next.key, next.now, max, period) < max
  {
    FrontInOrder(calls, next, next.key);
    var cutoff := RunTracks(calls, next.key, next.now, max, period);
    PoppedIsWindow(WindowOf(Run(calls, max, period), next.key), Admitted(calls, next.key, max, period), cutoff,
                   next.now, period);
  }

  lemma WithinOneMore(h: seq<real>, x: real, t: real, period: real)
    ensures Count(h + [x], Within(t, period)) == Count(h, Within(t, period)) + if t - period < x <= t then 1 else 0
  {
    CountAppend(h, [x], Within(t, period));
    assert Filter([x], Within(t, period)) == if Within(t, period)(x) then [x] else [];
  }

  /** One more admitted call: no window that holds it held max_requests before. */
  lemma AdmissionFits(calls: seq<Call>, next: Call, t: real, max: int, period: real)
    requires ClockInOrder(calls + [next], next.key) && period > 0.0 && Admits(calls, next, max, period)
    requires t - period < next.now <= t
    ensures AdmittedWithin(calls, next.key, t, max, period) < max
  {
    AdmitsIffRoom(calls, next, max, period);
    FrontInOrder(calls, next, next.key);
    var cutoff := RunTracks(calls, next.key, next.now, max, period);
    CountMonotone(Admitted(calls, next.key, max, period), Within(t, period), Within(next.now, period));
  }

  function Limit(max: int): nat { if max > 0 then max else 0 }

  /** For every instant t, at most max_requests calls of the key were admitted in (t - window, t]. */
  lemma {:induction false} NeverMoreThanMax(calls: seq<Call>, key: string, t: real, max: int, period: real)
    requires ClockInOrder(calls, key) && period > 0.0
    ensures AdmittedWithin(calls, key, t, max, period) <= Limit(max)
    decreases |calls|
  {
    if calls == [] {
      return;
    }
    var front, last := calls[..|calls| - 1], calls[|calls| - 1];
    assert calls == front + [last];
    FrontInOrder(front, last, key);
    NeverMoreThanMax(front, key, t, max, period);
    NextCall(front, last, key, max, period);
    if last.key == key && Admits(front, last, max, period) {
      WithinOneMore(Admitted(front, key, max, period), last.now, t, period);
      if t - period < last.now <= t {
        AdmissionFits(front, last, t, max, period);
      }
    }
  }

  /** A refusal means the window was full: with a positive limit, exactly max_requests admitted calls in it. */
  lemma RefusedOnlyWhenFull(calls: seq<Call>, next: Call, max: int, period: real)
    requires ClockInOrder(calls + [next], next.key) && period > 0.0 && max > 0
    requires !Admits(calls, next, max, period)
    ensures AdmittedWithin(calls, next.key, next.now, max, period) == max
  {
    AdmitsIffRoom(calls, next, max, period);
    FrontInOrder(calls, next, next.key);
    NeverMoreThanMax(calls, next.key, next.now, max, period);
  }

  // ----- readings in any order: limits up to one -----

  ghost predicate Spaced(h: seq<real>, period: real) { forall i, j :: 0 <= i < j < |h| ==> h[i] + period <= h[j] }

  /** With a limit of one the deque is the last admitted time, and admitted times are a period apart. */
  ghost predicate OneAtATime(window: seq<real>, admitted: seq<real>, period: real) {
    && Spaced(admitted, period)
    && window == if admitted == [] then [] else [admitted[|admitted| - 1]]
  }

  lemma StepOneAtATime(window: seq<real>, admitted: seq<real>, now: real, period: real)
    requires OneAtATime(window, admitted, period) && period > 0.0
    ensures var popped := Popped(window, now - period);
            if |popped| >= 1 then OneAtATime(popped, admitted, period)
            else OneAtATime(popped + [now], admitted + [now], period)
  {
    var popped := Popped(window, now - period);
    if window == [] || window[0] > now - period {
      assert popped == window;
    } else {
      assert window[1..] == [] && popped == [];
    }
  }

  ghost predicate OneAtATimeAfter(calls: seq<Call>, key: string, period: real) {
    OneAtATime(WindowOf(Run(calls, 1, period), key), Admitted(calls, key, 1, period), period)
  }

  lemma NoneYet(key: string, period: real)
    ensures OneAtATimeAfter([], key, period)
  {
  }

  lemma CallKeepsOneAtATime(calls: seq<Call>, next: Call, key: string, period: real)
    requires OneAtATimeAfter(calls, key, period) && period > 0.0
    ensures OneAtATimeAfter(calls + [next], key, period)
  {
    NextCall(calls, next, key, 1, period);
    if next.key == key {
      StepOneAtATime(WindowOf(Run(calls, 1, period), key), Admitted(calls, key, 1, period), next.now, period);
    }
  }

  lemma {:induction false} RunOneAtATime(calls: seq<Call>, key: string, period: real)
    requires period > 0.0
    ensures OneAtATimeAfter(calls, key, period)
    decreases |calls|
  {
    if calls == [] {
      NoneYet(key, period);
    } else {
      var front, last := calls[..|calls| - 1], calls[|calls| - 1];
      assert calls == front + [last];
      RunOneAtATime(front, key, period);
      CallKeepsOneAtATime(front, last, key, period);
    }
  }

  lemma {:induction false} SpacedCount(h: seq<real>, t: real, period: real)
    requires Spaced(h, period) && period > 0.0
    ensures Count(h, Within(t, period)) <= 1
  {
    if h != [] {
      var front, x := h[..|h| - 1], h[|h| - 1];
      assert h == front + [x];
      SpacedCount(front, t, period);
      WithinOneMore(front, x, t, period);
      if t - period < x <= t {
        forall y | y in front ensures !Within(t, period)(y) {
          var i :| 0 <= i < |front| && front[i] == y;
          assert h[i] + period <= h[|front|];
        }
        FilterNone(front, Within(t, period));
      }
    }
  }

  /** A limit of at most zero admits nothing. */
  lemma {:induction false} NothingAdmitted(calls: seq<Call>, key: string, max: int, period: real)
    requires max <= 0
    ensures Admitted(calls, key, max, period) == []
    decreases |calls|
  {
    if calls != [] {
      NothingAdmitted(calls[..|calls| - 1], key, max, period);
    }
  }

  // ----- readings in any order: limits from two -----

  function Later(t: real, n: nat, period: real): real { if n == 0 then t else Later(t, n - 1, period) + period }

  /** n pairs of calls: one that read t, and one that read much later but gets the lock right after it. */
  function Pairs(key: string, t: real, n: nat, period: real): seq<Call> {
    if n == 0 then [] else Pairs(key, t, n - 1, period) + [Call(key, t)] + [Call(key, Later(t, n, period))]
  }

  lemma {:induction false} LaterIsLater(t: real, n: nat, period: real)
    requires period > 0.0 && n > 0
    ensures Later(t, n, period) >= t + period && Later(t, n - 1, period) >= t
  {
    if n > 1 {
      LaterIsLater(t, n - 1, period);
    }
  }

  /** The deque of the later call, which emptied it. */
  function AfterPairs(t: real, n: nat, period: real): seq<real> { if n == 0 then [] else [Later(t, n, period)] }

  lemma EarlyCallAdmitted(calls: seq<Call>, key: string, t: real, n: nat, max: int, period: real)
    requires period > 0.0 && max >= 2 && WindowOf(Run(calls, max, period), key) == AfterPairs(t, n, period)
    ensures var more := calls + [Call(key, t)];
            && WindowOf(Run(more, max, period), key) == AfterPairs(t, n, period) + [t]
            && Admitted(more, key, max, period) == Admitted(calls, key, max, period) + [t]
  {
    NextCall(calls, Call(key, t), key, max, period);
    if n > 0 {
      LaterIsLater(t, n, period);
    }
    assert Popped(AfterPairs(t, n, period), t - period) == AfterPairs(t, n, period);
  }

  lemma LateCallEmpties(calls: seq<Call>, key: string, t: real, n: nat, max: int, period: real)
    requires period > 0.0 && max >= 2 && n > 0
    requires WindowOf(Run(calls, max, period), key) == AfterPairs(t, n - 1, period) + [t]
    ensures var late := Later(t, n, period);
            var more := calls + [Call(key, late)];
            && WindowOf(Run(more, max, period), key) == [late]
            && Admitted(more, key, max, period) == Admitted(calls, key, max, period) + [late]
  {
    var late, window := Later(t, n, period), AfterPairs(t, n - 1, period) + [t];
    NextCall(calls, Call(key, late), key, max, period);
    LatePopsAll(t, n, period);
    assert max > 0 && Popped(window, late - period) + [late] == [late];
  }

  lemma LatePopsAll(t: real, n: nat, period: real)
    requires period > 0.0 && n > 0
    ensures Popped(AfterPairs(t, n - 1, period) + [t], Later(t, n, period) - period) == []
  {
    var late, window := Later(t, n, period), AfterPairs(t, n - 1, period) + [t];
    LaterIsLater(t, n, period);
    assert Popped([t], late - period) == [];
    if n > 1 {
      assert window[1..] == [t];
    }
  }

  /** The deque after some pairs, of which all the early calls were admitted, and all in one window. */
  ghost predicate PairsAdmitted(calls: seq<Call>, key: string, t: real, n: nat, max: int, period: real) {
    && WindowOf(Run(calls, max, period), key) == AfterPairs(t, n, period)
    && AdmittedWithin(calls, key, t, max, period) == n
  }

  lemma NoPairs(key: string, t: real, max: int, period: real)
    ensures PairsAdmitted([], key, t, 0, max, period)
  {
  }

  lemma OneMorePair(before: seq<Call>, key: string, t: real, n: nat, max: int, period: real)
    requires period > 0.0 && max >= 2 && PairsAdmitted(before, key, t, n, max, period)
    ensures PairsAdmitted(before + [Call(key, t)] + [Call(key, Later(t, n + 1, period))], key, t, n + 1, max, period)
  {
    var between, late := before + [Call(key, t)], Later(t, n + 1, period);
    EarlyCallAdmitted(before, key, t, n, max, period);
    LateCallEmpties(between, key, t, n + 1, max, period);
    LaterIsLater(t, n + 1, period);
    WithinOneMore(Admitted(before, key, max, period), t, t, period);
    WithinOneMore(Admitted(between, key, max, period), late, t, period);
  }

  lemma {:induction false} PairsOverrun(key: string, t: real, n: nat, max: int, period: real)
    requires period > 0.0 && max >= 2
    ensures PairsAdmitted(Pairs(key, t, n, period), key, t, n, max, period)
    decreases n
  {
    if n == 0 {
      NoPairs(key, t, max, period);
    } else {
      PairsOverrun(key, t, n - 1, max, period);
      OneMorePair(Pairs(key, t, n - 1, period), key, t, n - 1, max, period);
    }
  }

  /** At every instant the window that ends there is within the limit. */
  ghost predicate WithinLimit(calls: seq<Call>, key: string, max: int, period: real) {
    forall t :: AdmittedWithin(calls, key, t, max, period) <= Limit(max)
  }

  /**
   The clock is read before the lock is taken, so readings may reach the lock in any order. The limit
   holds for all orders exactly if it is at most one.
   */
  lemma LimitHoldsIff(max: int, period: real)
    requires period > 0.0
    ensures (forall calls, key :: WithinLimit(calls, key, max, period)) <==> max <= 1
  {
    if max <= 1 {
      forall calls, key ensures WithinLimit(calls, key, max, period) {
        SmallLimitHolds(calls, key, max, period);
      }
    } else {
      var key, n := "", max + 1;
      PairsOverrun(key, 0.0, n, max, period);
      assert !WithinLimit(Pairs(key, 0.0, n, period), key, max, period);
    }
  }

  lemma SmallLimitHolds(calls: seq<Call>, key: string, max: int, period: real)
    requires period > 0.0 && max <= 1
    ensures WithinLimit(calls, key, max, period)
  {
    forall t ensures AdmittedWithin(calls, key, t, max, period) <= Limit(max) {
      if max == 1 {
        RunOneAtATime(calls, key, period);
        SpacedCount(Admitted(calls, key, 1, period), t, period);
      } else {
        NothingAdmitted(calls, key, max, period);
      }
    }
  }

  /** From a limit of two on, the overrun has no bound: any number of calls can be admitted in one window. */
  lemma OverrunUnbounded(key: string, t: real, n: nat, max: int, period: real)
    requires period > 0.0 && max >= 2
    ensures exists calls :: AdmittedWithin(calls, key, t, max, period) == n
  {
    PairsOverrun(key, t, n, max, period);
    assert AdmittedWithin(Pairs(key, t, n, period), key, t, max, period) == n;
  }

  // ----- readings in any order: single calls -----

  function Repeated(t: real, n: nat): seq<real> { if n == 0 then [] else Repeated(t, n - 1) + [t] }

  function Burst(key: string, t: real, n: nat): seq<Call> {
    if n == 0 then [] else Burst(key, t, n - 1) + [Call(key, t)]
  }

  lemma {:induction false} RepeatedIsThat(t: real, n: nat)
    ensures |Repeated(t, n)| == n && forall x :: x in Repeated(t, n) ==> x == t
  {
    if n > 0 {
      RepeatedIsThat(t, n - 1);
    }
  }

  lemma YoungStay(t: real, n: nat, cutoff: real)
    requires cutoff < t
    ensures Popped(Repeated(t, n), cutoff) == Repeated(t, n)
  {
    RepeatedIsThat(t, n);
    assert n > 0 ==> Repeated(t, n)[0] in Repeated(t, n);
  }

  /** The calls of the key so far were n at one instant, all admitted. */
  ghost predicate Filled(calls: seq<Call>, key: string, t: real, n: nat, max: int, period: real) {
    && WindowOf(Run(calls, max, period), key) == Repeated(t, n)
    && Admitted(calls, key, max, period) == Repeated(t, n)
  }

  lemma NoneFilled(key: string, t: real, max: int, period: real)
    ensures Filled([], key, t, 0, max, period)
  {
  }

  lemma OneMoreFilled(calls: seq<Call>, key: string, t: real, n: nat, max: int, period: real)
    requires period > 0.0 && n < max && Filled(calls, key, t, n, max, period)
    ensures Filled(calls + [Call(key, t)], key, t, n + 1, max, period)
  {
    NextCall(calls, Call(key, t), key, max, period);
    YoungStay(t, n, t - period);
    RepeatedIsThat(t, n);
  }

  /** As many calls at one instant as the limit allows fill the window. */
  lemma {:induction false} BurstFills(key: string, t: real, n: nat, max: int, period: real)
    requires period > 0.0 && n <= max
    ensures Filled(Burst(key, t, n), key, t, n, max, period)
    decreases n
  {
    if n == 0 {
      NoneFilled(key, t, max, period);
    } else {
      BurstFills(key, t, n - 1, max, period);
      OneMoreFilled(Burst(key, t, n - 1), key, t, n - 1, max, period);
    }
  }

  /** A call whose reading is older than those of a burst is refused, though none was admitted in its window. */
  lemma RefusedOnEmptyWindow(key: string, t: real, now: real, max: int, period: real)
    requires period > 0.0 && max > 0 && now < t
    ensures var calls := Burst(key, t, max);
            !Admits(calls, Call(key, now), max, period) && AdmittedWithin(calls, key, now, max, period) == 0
  {
    BurstFills(key, t, max, max, period);
    YoungStay(t, max, now - period);
    RepeatedIsThat(t, max);
    FilterNone(Repeated(t, max), Within(now, period));
  }

  /** The window decides admission. */
  ghost predicate RoomDecides(calls: seq<Call>, next: Call, max: int, period: real) {
    Admits(calls, next, max, period) <==> AdmittedWithin(calls, next.key, next.now, max, period) < max
  }

  /** For all orders of readings, room in the window decides admission exactly if no call is ever admitted. */
  lemma RoomDecidesIff(max: int, period: real)
    requires period > 0.0
    ensures (forall calls, next :: RoomDecides(calls, next, max, period)) <==> max <= 0
  {
    if max > 0 {
      RefusedOnEmptyWindow("", 1.0, 0.0, max, period);
      assert !RoomDecides(Burst("", 1.0, max), Call("", 0.0), max, period);
    }
  }
}
