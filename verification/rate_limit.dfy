/** The fixed-window rate limiter: what one caller can get through in any stretch of time one window long. */
module RateLimit {
  import opened Wrappers

  // The requests let through since the window began.
  datatype Window = Window(count: int, start: int)

  datatype Request = Request(caller: string, now: int)

  datatype Limits = Limits(limit: int, windowSize: int)

  // ---- One caller's requests.

  function Admit(limits: Limits, window: Option<Window>, now: int): (Window, bool) {
    if window.None? || now - window.value.start >= limits.windowSize then (Window(1, now), true)
    else if window.value.count >= limits.limit then (window.value, false)
    else (window.value.(count := window.value.count + 1), true)
  }

  function Answers(limits: Limits, window: Option<Window>, times: seq<int>): (answers: seq<bool>)
    ensures |answers| == |times|
    decreases |times|
  {
    if times == [] then []
    else
      var (next, allowed) := Admit(limits, window, times[0]);
      [allowed] + Answers(limits, Some(next), times[1..])
  }

  // How many requests are let through at times from `low` up to but not including `high`.
  function Allowed(limits: Limits, window: Option<Window>, times: seq<int>, low: int, high: int): nat
    decreases |times|
  {
    if times == [] then 0
    else
      var (next, allowed) := Admit(limits, window, times[0]);
      (if allowed && low <= times[0] < high then 1 else 0) + Allowed(limits, Some(next), times[1..], low, high)
  }

  predicate NonDecreasing(times: seq<int>) {
    forall i, j | 0 <= i < j < |times| :: times[i] <= times[j]
  }

  // A window lets one request through even when the limit is less.
  function PerWindow(limits: Limits): int {
    if limits.limit < 1 then 1 else limits.limit
  }

  // What a window may still let through.
  function Left(limits: Limits, window: Window): int {
    if window.count >= limits.limit then 0 else limits.limit - window.count
  }

  // Once the stretch has begun: at most what is left of the current window, and of one more window if the current
  // one began before the stretch.
  lemma {:induction false} AllowedWithin(limits: Limits, window: Window, times: seq<int>, low: int)
    requires NonDecreasing(times) && window.count >= 1
    requires times != [] ==> window.start <= times[0] && low <= times[0]
    ensures Allowed(limits, Some(window), times, low, low + limits.windowSize) <=
            Left(limits, window) + (if window.start < low then PerWindow(limits) else 0)
    decreases |times|
  {
    if times != [] {
      var next := Admit(limits, Some(window), times[0]).0;
      AllowedWithin(limits, next, times[1..], low);
      if times[0] >= low + limits.windowSize {
        NoneAfter(limits, Some(window), times, low, low + limits.windowSize);
      }
    }
  }

  lemma {:induction false} AllowedFrom(limits: Limits, window: Window, times: seq<int>, low: int)
    requires NonDecreasing(times) && window.count >= 1
    requires times != [] ==> window.start <= times[0]
    ensures Allowed(limits, Some(window), times, low, low + limits.windowSize) <=
            if window.start < low then 2 * PerWindow(limits) - 1 else Left(limits, window)
    decreases |times|
  {
    if times == [] || low <= times[0] {
      AllowedWithin(limits, window, times, low);
    } else {
      AllowedFrom(limits, Admit(limits, Some(window), times[0]).0, times[1..], low);
    }
  }

  lemma {:induction false} NoneAfter(limits: Limits, window: Option<Window>, times: seq<int>, low: int, high: int)
    requires forall i | 0 <= i < |times| :: high <= times[i]
    ensures Allowed(limits, window, times, low, high) == 0
    decreases |times|
  {
    if times != [] {
      NoneAfter(limits, Some(Admit(limits, window, times[0]).0), times[1..], low, high);
    }
  }

  /** In any stretch one window long a caller gets at most one request less than two windows' worth through. */
  lemma AtMostTwoWindows(limits: Limits, times: seq<int>, low: int)
    requires NonDecreasing(times)
    ensures Allowed(limits, None, times, low, low + limits.windowSize) <= 2 * PerWindow(limits) - 1
  {
    if times != [] {
      AllowedFrom(limits, Window(1, times[0]), times[1..], low);
      if times[0] >= low + limits.windowSize {
        NoneAfter(limits, None, times, low, low + limits.windowSize);
      }
    }
  }

  // ---- The bound is reached.

  function Burst(count: nat, now: int): seq<int> {
    seq(count, _ => now)
  }

  lemma {:induction false} BurstAllowed(limits: Limits, window: Window, count: nat, now: int, rest: seq<int>,
      low: int, high: int)
    requires window.start <= now < window.start + limits.windowSize && window.count + count <= limits.limit
    requires low <= now < high
    ensures Allowed(limits, Some(window), Burst(count, now) + rest, low, high) ==
            count + Allowed(limits, Some(window.(count := window.count + count)), rest, low, high)
    decreases count
  {
    if count == 0 {
      assert Burst(count, now) + rest == rest;
    } else {
      assert (Burst(count, now) + rest)[1..] == Burst(count - 1, now) + rest;
      BurstAllowed(limits, window.(count := window.count + 1), count - 1, now, rest, low, high);
    }
  }

  // One request, the rest of its window just after, and a full window as soon as it is over.
  function Straddling(limits: Limits): seq<int>
    requires limits.limit >= 1
  {
    [0] + Burst(limits.limit - 1, 1) + Burst(limits.limit, limits.windowSize)
  }

  /** The bound is reached for every limit and every window of two ticks or more. */
  lemma BoundIsReached(limits: Limits)
    requires limits.limit >= 1 && limits.windowSize >= 2
    ensures NonDecreasing(Straddling(limits))
    ensures Allowed(limits, None, Straddling(limits), 1, 1 + limits.windowSize) == 2 * limits.limit - 1
  {
    var limit, size := limits.limit, limits.windowSize;
    var second := Burst(limit, size);
    assert Straddling(limits)[1..] == Burst(limit - 1, 1) + second;
    BurstAllowed(limits, Window(1, 0), limit - 1, 1, second, 1, 1 + size);
    assert second[1..] == Burst(limit - 1, size) + [];
    BurstAllowed(limits, Window(1, size), limit - 1, size, [], 1, 1 + size);
  }

  // ---- When the limit itself is kept.

  // The limiter's promise, for any stretch one window long: no more than the limit.
  ghost predicate KeepsLimit(limits: Limits) {
    forall times, low :: NonDecreasing(times) ==> WithinLimit(limits, times, low)
  }

  predicate WithinLimit(limits: Limits, times: seq<int>, low: int) {
    Allowed(limits, None, times, low, low + limits.windowSize) <= limits.limit
  }

  // With windows of one tick a stretch is one tick, which is one window.
  lemma {:induction false} OneTick(limits: Limits, window: Option<Window>, times: seq<int>, low: int)
    requires limits.windowSize == 1 && limits.limit >= 1 && NonDecreasing(times)
    requires window.Some? ==> window.value.count >= 1 && (times != [] ==> window.value.start <= times[0])
    ensures Allowed(limits, window, times, low, low + 1) <=
            if window.Some? && window.value.start == low then Left(limits, window.value) else limits.limit
    decreases |times|
  {
    if times != [] {
      var next := Admit(limits, window, times[0]).0;
      OneTick(limits, Some(next), times[1..], low);
      if low < times[0] {
        NoneAfter(limits, window, times, low, low + 1);
      }
    }
  }

  lemma OneRequest(limits: Limits)
    requires limits.windowSize >= 1
    ensures NonDecreasing([0]) && Allowed(limits, None, [0], 0, limits.windowSize) == 1
  {
    assert [0][1..] == [];
  }

  /**
   * In stretches that need not begin with a window, the limit is kept exactly when it is one, or when a window is a
   * single tick; a limit of zero is not kept, since every window lets its first request through.
   */
  lemma KeptExactly(limits: Limits)
    requires limits.windowSize >= 1
    ensures KeepsLimit(limits) <==> limits.limit == 1 || (limits.limit > 1 && limits.windowSize == 1)
  {
    if limits.limit < 1 {
      OneRequest(limits);
      assert !WithinLimit(limits, [0], 0);
    } else if limits.limit > 1 && limits.windowSize > 1 {
      BoundIsReached(limits);
      assert !WithinLimit(limits, Straddling(limits), 1);
    } else {
      forall times, low | NonDecreasing(times)
        ensures WithinLimit(limits, times, low)
      {
        if limits.limit == 1 {
          AtMostTwoWindows(limits, times, low);
        } else {
          OneTick(limits, None, times, low);
        }
      }
    }
  }

  // A window without length leaves no stretch to count in.
  lemma KeptWithoutLength(limits: Limits)
    requires limits.windowSize <= 0
    ensures KeepsLimit(limits) <==> limits.limit >= 0
  {
    if limits.limit >= 0 {
      forall times, low | NonDecreasing(times)
        ensures WithinLimit(limits, times, low)
      {
        EmptyStretch(limits, None, times, low, low + limits.windowSize);
      }
    } else {
      assert NonDecreasing([]) && !WithinLimit(limits, [], 0);
    }
  }

  lemma {:induction false} EmptyStretch(limits: Limits, window: Option<Window>, times: seq<int>, low: int, high: int)
    requires high <= low
    ensures Allowed(limits, window, times, low, high) == 0
    decreases |times|
  {
    if times != [] {
      EmptyStretch(limits, Some(Admit(limits, window, times[0]).0), times[1..], low, high);
    }
  }

  // ---- The windows that the limiter opens.

  // How many requests each window lets through, in the order in which the windows are opened.
  function Counts(limits: Limits, window: Option<Window>, times: seq<int>): seq<int>
    decreases |times|
  {
    if times == [] then if window.Some? then [window.value.count] else []
    else
      var (next, allowed) := Admit(limits, window, times[0]);
      var rest := Counts(limits, Some(next), times[1..]);
      if window.Some? && Opens(limits, window, times[0]) then [window.value.count] + rest else rest
  }

  predicate Opens(limits: Limits, window: Option<Window>, now: int) {
    window.None? || now - window.value.start >= limits.windowSize
  }

  function Total(counts: seq<int>): int {
    if counts == [] then 0 else counts[0] + Total(counts[1..])
  }

  function Yes(answers: seq<bool>): nat {
    if answers == [] then 0 else (if answers[0] then 1 else 0) + Yes(answers[1..])
  }

  // The windows account for every request that is let through.
  lemma {:induction false} CountsAreAnswers(limits: Limits, window: Option<Window>, times: seq<int>)
    ensures Total(Counts(limits, window, times)) ==
            (if window.Some? then window.value.count else 0) + Yes(Answers(limits, window, times))
    decreases |times|
  {
    if times == [] {
      assert window.Some? ==> [window.value.count][1..] == [];
    } else {
      var (next, allowed) := Admit(limits, window, times[0]);
      var rest := Counts(limits, Some(next), times[1..]);
      CountsAreAnswers(limits, Some(next), times[1..]);
      assert ([allowed] + Answers(limits, Some(next), times[1..]))[1..] == Answers(limits, Some(next), times[1..]);
      assert window.Some? ==> ([window.value.count] + rest)[1..] == rest;
    }
  }

  predicate AtMost(counts: seq<int>, bound: int) {
    forall i | 0 <= i < |counts| :: counts[i] <= bound
  }

  lemma {:induction false} CountsBounded(limits: Limits, window: Option<Window>, times: seq<int>)
    requires window.Some? ==> window.value.count <= PerWindow(limits)
    ensures AtMost(Counts(limits, window, times), PerWindow(limits))
    decreases |times|
  {
    if times != [] {
      CountsBounded(limits, Some(Admit(limits, window, times[0]).0), times[1..]);
    }
  }

  ghost predicate KeepsLimitPerWindow(limits: Limits) {
    forall times :: AtMost(Counts(limits, None, times), limits.limit)
  }

  /** Every window that the limiter opens keeps the limit, exactly when the limit is at least one. */
  lemma KeptPerWindowExactly(limits: Limits)
    ensures KeepsLimitPerWindow(limits) <==> limits.limit >= 1
  {
    if limits.limit >= 1 {
      forall times
        ensures AtMost(Counts(limits, None, times), limits.limit)
      {
        CountsBounded(limits, None, times);
      }
    } else {
      assert [0][1..] == [];
      var counts := Counts(limits, None, [0]);
      assert counts == [1];
      assert counts[0] > limits.limit && !AtMost(counts, limits.limit);
    }
  }

  // ---- All callers.

  function WindowOf(windows: map<string, Window>, caller: string): Option<Window> {
    if caller in windows then Some(windows[caller]) else None
  }

  class FixedWindowRateLimiter {
    const limits: Limits
    var windows: map<string, Window>

    constructor (limits: Limits)
      ensures this.limits == limits && windows == map[]
    {
      this.limits, windows := limits, map[];
    }

    // Decides one request from the window of its caller, and changes that window only.
    method Allow(caller: string, now: int) returns (allowed: bool)
      modifies this
      ensures caller in windows && (windows[caller], allowed) == Admit(limits, old(WindowOf(windows, caller)), now)
      ensures windows == old(windows)[caller := windows[caller]]
    {
      if caller !in windows || now - windows[caller].start >= limits.windowSize {
        windows := windows[caller := Window(1, now)];
        return true;
      }
      var w := windows[caller];
      if w.count >= limits.limit {
        assert windows == windows[caller := w];
        return false;
      }
      windows := windows[caller := w.(count := w.count + 1)];
      allowed := true;
    }
  }

  // The times of one caller's requests.
  function TimesOf(requests: seq<Request>, caller: string): seq<int> {
    if requests == [] then []
    else (if requests[0].caller == caller then [requests[0].now] else []) + TimesOf(requests[1..], caller)
  }

  // The answers given to one caller.
  function AnswersTo(requests: seq<Request>, answers: seq<bool>, caller: string): seq<bool>
    requires |requests| == |answers|
  {
    if requests == [] then []
    else (if requests[0].caller == caller then [answers[0]] else []) + AnswersTo(requests[1..], answers[1..], caller)
  }

  lemma {:induction false} TimesSnoc(requests: seq<Request>, request: Request, caller: string)
    ensures TimesOf(requests + [request], caller) ==
            TimesOf(requests, caller) + (if request.caller == caller then [request.now] else [])
  {
    if requests == [] {
      assert requests + [request] == [request] && [request][1..] == [];
    } else {
      var more, rest := requests + [request], requests[1..];
      assert more[0] == requests[0] && more[1..] == rest + [request];
      TimesSnoc(rest, request, caller);
      var first := if requests[0].caller == caller then [requests[0].now] else [];
      var last := if request.caller == caller then [request.now] else [];
      assert first + (TimesOf(rest, caller) + last) == first + TimesOf(rest, caller) + last;
    }
  }

  lemma {:induction false} AnswersSnoc(requests: seq<Request>, answers: seq<bool>, request: Request, answer: bool,
      caller: string)
    requires |requests| == |answers|
    ensures AnswersTo(requests + [request], answers + [answer], caller) ==
            AnswersTo(requests, answers, caller) + (if request.caller == caller then [answer] else [])
  {
    if requests == [] {
      assert requests + [request] == [request] && answers + [answer] == [answer];
    } else {
      assert (requests + [request])[1..] == requests[1..] + [request];
      assert (answers + [answer])[1..] == answers[1..] + [answer];
      AnswersSnoc(requests[1..], answers[1..], request, answer, caller);
    }
  }

  // The window of a caller after its requests.
  function After(limits: Limits, window: Option<Window>, times: seq<int>): Option<Window>
    decreases |times|
  {
    if times == [] then window else After(limits, Some(Admit(limits, window, times[0]).0), times[1..])
  }

  lemma {:induction false} OneMoreTime(limits: Limits, window: Option<Window>, times: seq<int>, now: int)
    ensures Answers(limits, window, times + [now]) ==
            Answers(limits, window, times) + [Admit(limits, After(limits, window, times), now).1]
    ensures After(limits, window, times + [now]) == Some(Admit(limits, After(limits, window, times), now).0)
    decreases |times|
  {
    if times == [] {
      assert times + [now] == [now];
    } else {
      assert (times + [now])[1..] == times[1..] + [now];
      OneMoreTime(limits, Some(Admit(limits, window, times[0]).0), times[1..], now);
    }
  }

  // ---- Which requests are let through.

  // The request that opened the window in force at the i-th one: the first, or the next one at least a window later.
  function Opening(size: int, times: seq<int>, i: nat): (opening: nat)
    requires i < |times|
    ensures opening <= i
  {
    if i == 0 then 0
    else
      var before := Opening(size, times, i - 1);
      if times[i] - times[before] >= size then i else before
  }

  // The window after the i-th request counts what was let through since it was opened, and never what was refused.
  lemma {:induction false} WindowIs(limits: Limits, times: seq<int>, i: nat)
    requires i < |times|
    ensures var opening, size := Opening(limits.windowSize, times, i), i + 1 - Opening(limits.windowSize, times, i);
            After(limits, None, times[..i + 1]) ==
            Some(Window(if size <= PerWindow(limits) then size else PerWindow(limits), times[opening]))
    ensures Answers(limits, None, times[..i + 1])[i] <==>
            var opening := Opening(limits.windowSize, times, i); i == opening || i - opening < limits.limit
  {
    assert times[..i + 1] == times[..i] + [times[i]];
    OneMoreTime(limits, None, times[..i], times[i]);
    if i == 0 {
      assert times[..i] == [];
    } else {
      WindowIs(limits, times, i - 1);
    }
  }

  lemma {:induction false} AnswersConcat(limits: Limits, window: Option<Window>, before: seq<int>, later: seq<int>)
    ensures Answers(limits, window, before + later) ==
            Answers(limits, window, before) + Answers(limits, After(limits, window, before), later)
    decreases |before|
  {
    if before == [] {
      assert before + later == later;
    } else {
      assert (before + later)[1..] == before[1..] + later;
      AnswersConcat(limits, Some(Admit(limits, window, before[0]).0), before[1..], later);
    }
  }

  /**
   * A request is let through exactly when it opens a window or is one of the first ones in its window, as many as the
   * limit. The window opens with the first request at least a window's length after the last opening, whatever was
   * refused between the two.
   */
  lemma AnswersExactly(limits: Limits, times: seq<int>, i: nat)
    requires i < |times|
    ensures Answers(limits, None, times)[i] <==>
            var opening := Opening(limits.windowSize, times, i); i == opening || i - opening < limits.limit
  {
    hide Answers;
    WindowIs(limits, times, i);
    AnswersConcat(limits, None, times[..i + 1], times[i + 1..]);
    assert times[..i + 1] + times[i + 1..] == times;
  }

  /** A refused request changes no later answer. */
  lemma RefusedChangesNothing(limits: Limits, before: seq<int>, now: int, later: seq<int>)
    requires !Answers(limits, None, before + [now])[|before|]
    ensures Answers(limits, None, before + [now] + later) ==
            Answers(limits, None, before) + [false] + Answers(limits, None, before + later)[|before|..]
  {
    hide Answers;
    OneMoreTime(limits, None, before, now);
    AnswersConcat(limits, None, before + [now], later);
    AnswersConcat(limits, None, before, later);
  }

  /** Every caller gets the answers it would get alone: the requests of others change nothing. */
  method Serve(limits: Limits, requests: seq<Request>) returns (answers: seq<bool>)
    ensures |answers| == |requests|
    ensures forall caller :: AnswersTo(requests, answers, caller) == Answers(limits, None, TimesOf(requests, caller))
  {
    var limiter := new FixedWindowRateLimiter(limits);
    answers := [];
    for i := 0 to |requests|
      invariant |answers| == i && limiter.limits == limits
      invariant forall caller ::
        WindowOf(limiter.windows, caller) == After(limits, None, TimesOf(requests[..i], caller))
      invariant forall caller ::
        AnswersTo(requests[..i], answers, caller) == Answers(limits, None, TimesOf(requests[..i], caller))
    {
      var request := requests[i];
      ghost var windows, given := limiter.windows, answers;
      var allowed := limiter.Allow(request.caller, request.now);
      answers := answers + [allowed];
      assert requests[..i + 1] == requests[..i] + [request];
      forall caller
        ensures WindowOf(limiter.windows, caller) == After(limits, None, TimesOf(requests[..i + 1], caller))
        ensures AnswersTo(requests[..i + 1], answers, caller) ==
          Answers(limits, None, TimesOf(requests[..i + 1], caller))
      {
        TimesSnoc(requests[..i], request, caller);
        AnswersSnoc(requests[..i], given, request, allowed, caller);
        if caller != request.caller {
          assert TimesOf(requests[..i], caller) + [] == TimesOf(requests[..i], caller);
        } else {
          OneMoreTime(limits, None, TimesOf(requests[..i], caller), request.now);
        }
      }
    }
    assert requests[..|requests|] == requests;
  }

  // ---- The bound over a run with any number of callers.

  // How many of the answers given from `low` up to but not including `high` let the request through.
  function Passed(times: seq<int>, answers: seq<bool>, low: int, high: int): nat
    requires |times| == |answers|
  {
    if times == [] then 0
    else (if answers[0] && low <= times[0] < high then 1 else 0) + Passed(times[1..], answers[1..], low, high)
  }

  lemma {:induction false} PassedIsAllowed(limits: Limits, window: Option<Window>, times: seq<int>, low: int, high: int)
    ensures Passed(times, Answers(limits, window, times), low, high) == Allowed(limits, window, times, low, high)
    decreases |times|
  {
    if times != [] {
      PassedIsAllowed(limits, Some(Admit(limits, window, times[0]).0), times[1..], low, high);
    }
  }

  predicate ClockRuns(requests: seq<Request>) {
    forall i, j | 0 <= i < j < |requests| :: requests[i].now <= requests[j].now
  }

  lemma {:induction false} TimesRun(requests: seq<Request>, caller: string, floor: int)
    requires ClockRuns(requests) && forall i | 0 <= i < |requests| :: floor <= requests[i].now
    ensures NonDecreasing(TimesOf(requests, caller))
    ensures forall i | 0 <= i < |TimesOf(requests, caller)| :: floor <= TimesOf(requests, caller)[i]
  {
    if requests != [] {
      TimesRun(requests[1..], caller, requests[0].now);
    }
  }

  // Of one caller's requests in the stretch from `low`, no more than the bound are let through.
  predicate WithinBound(limits: Limits, requests: seq<Request>, answers: seq<bool>, caller: string, low: int)
    requires |answers| == |requests|
  {
    var times, given := TimesOf(requests, caller), AnswersTo(requests, answers, caller);
    |given| == |times| && Passed(times, given, low, low + limits.windowSize) <= 2 * PerWindow(limits) - 1
  }

  /** Over every run of the limiter with a clock that does not go back, the bound holds for every caller and stretch. */
  method ServeWithinBound(limits: Limits, requests: seq<Request>) returns (answers: seq<bool>)
    requires ClockRuns(requests)
    ensures |answers| == |requests|
    ensures forall caller, low :: WithinBound(limits, requests, answers, caller, low)
  {
    answers := Serve(limits, requests);
    forall caller, low
      ensures WithinBound(limits, requests, answers, caller, low)
    {
      var times := TimesOf(requests, caller);
      if requests != [] {
        TimesRun(requests, caller, requests[0].now);
      }
      PassedIsAllowed(limits, None, times, low, low + limits.windowSize);
      AtMostTwoWindows(limits, times, low);
    }
  }
}
