/**
 The in-process rate limiter of `app.py` (`_rate_limit`): a sliding window per client, with a sweep
 that forgets idle clients.  Times are those of a monotone clock.
 */
module RateLimiter {
  import opened Prelude

  type Client = nat

  /** The window length and the number of requests it admits. */
  datatype Setting = Setting(limit: nat, window: real)

  datatype State = State(hits: map<Client, seq<real>>, lastPrune: real)

  datatype Decision = Admitted | Refused(retryAfter: int)

  const PRUNE_EVERY: real := 60.0

  function Queue(hits: map<Client, seq<real>>, c: Client): seq<real> {
    if c in hits then hits[c] else []
  }

  predicate IsStale(queue: seq<real>, cutoff: real) {
    queue == [] || queue[|queue| - 1] < cutoff
  }

  function Pruned(s: Setting, st: State, now: real): State {
    if now - st.lastPrune > PRUNE_EVERY then
      State(map c | c in st.hits && !IsStale(st.hits[c], now - s.window) :: st.hits[c], now)
    else st
  }

  /** The queue without the entries at or before the cutoff at its front. */
  function Kept(queue: seq<real>, cutoff: real): seq<real> {
    if queue != [] && queue[0] <= cutoff then Kept(queue[1..], cutoff) else queue
  }

  function Decide(s: Setting, queue: seq<real>, now: real): Decision {
    if |queue| >= s.limit then Refused(if queue == [] then 0 else (queue[0] + s.window - now).Floor + 1) else Admitted
  }

  /** The decision, and the queue that stays, when this much of it is recent. */
  function Settle(s: Setting, p: State, c: Client, queue: seq<real>, now: real): (State, Decision) {
    var d := Decide(s, queue, now);
    (p.(hits := p.hits[c := if d.Admitted? then queue + [now] else queue]), d)
  }

  /** One request of a client that is subject to the limit. */
  function Step(s: Setting, st: State, c: Client, now: real): (State, Decision) {
    var p := Pruned(s, st, now);
    Settle(s, p, c, Kept(Queue(p.hits, c), now - s.window), now)
  }

  class Limiter {
    var hits: map<Client, seq<real>>
    var lastPrune: real
    const s: Setting

    ghost function View(): State
      reads this
    {
      State(hits, lastPrune)
    }

    constructor (s: Setting, now: real)
      ensures this.s == s && View() == State(map[], now)
    {
      this.s, hits, lastPrune := s, map[], now;
    }

    /** The sweep: collects the stale clients, then forgets them. */
    method Prune(now: real)
      modifies this
      ensures View() == Pruned(s, old(View()), now)
    {
      if now - lastPrune <= PRUNE_EVERY {
        return;
      }
      var cutoff := now - s.window;
      var stale := set c | c in hits && IsStale(hits[c], cutoff);
      ghost var before := hits;
      ghost var all := stale;
      while stale != {}
        invariant stale <= all && hits == map c | c in before && c !in all - stale :: before[c]
      {
        var c :| c in stale;
        hits := map k | k in hits && k != c :: hits[k];
        stale := stale - {c};
      }
      lastPrune := now;
    }

    method DropOld(entries: seq<real>, cutoff: real) returns (queue: seq<real>)
      ensures queue == Kept(entries, cutoff)
    {
      queue := entries;
      while queue != [] && queue[0] <= cutoff
        invariant Kept(queue, cutoff) == Kept(entries, cutoff)
      {
        queue := queue[1..];
      }
    }

    /** `_rate_limit` for a request that is neither a preflight nor for a public path. */
    method Request(c: Client, now: real) returns (d: Decision)
      requires s.limit > 0
      modifies this
      ensures View() == Step(s, old(View()), c, now).0
      ensures d == Step(s, old(View()), c, now).1
    {
      Prune(now);
      ghost var p := View();
      var queue := DropOld(Queue(hits, c), now - s.window);
      d := Decide(s, queue, now);
      if |queue| >= s.limit {
        hits := hits[c := queue];
      } else {
        hits := hits[c := queue + [now]];
      }
      assert View() == p.(hits := p.hits[c := if d.Admitted? then queue + [now] else queue]);
    }
  }

  // ---------- whole runs ----------

  datatype Event = Event(client: Client, at: real)

  /** The state after a run, its decisions, and the times at which each client was admitted. */
  datatype Run = Run(state: State, decisions: seq<Decision>, admitted: map<Client, seq<real>>)

  function Extended(s: Setting, r: Run, e: Event): Run {
    var (st, d) := Step(s, r.state, e.client, e.at);
    Run(st, r.decisions + [d],
        if d.Admitted? then r.admitted[e.client := Queue(r.admitted, e.client) + [e.at]] else r.admitted)
  }

  function RunOf(s: Setting, start: real, events: seq<Event>): Run
    decreases |events|
  {
    if events == [] then Run(State(map[], start), [], map[])
    else Extended(s, RunOf(s, start, events[..|events| - 1]), events[|events| - 1])
  }

  predicate Monotone(events: seq<Event>) {
    forall i, j :: 0 <= i < j < |events| ==> events[i].at <= events[j].at
  }

  function Recent(times: seq<real>, cutoff: real): nat
    decreases |times|
  {
    if times == [] then 0
    else Recent(times[..|times| - 1], cutoff) + if times[|times| - 1] > cutoff then 1 else 0
  }

  lemma {:induction false} RecentBoth(a: seq<real>, b: seq<real>, cutoff: real)
    ensures Recent(a + b, cutoff) == Recent(a, cutoff) + Recent(b, cutoff)
    decreases |b|
  {
    if b == [] {
      assert a + b == a;
    } else {
      RecentBoth(a, b[..|b| - 1], cutoff);
      assert (a + b)[..|a + b| - 1] == a + b[..|b| - 1];
    }
  }

  lemma {:induction false} RecentNone(a: seq<real>, cutoff: real)
    requires forall k :: 0 <= k < |a| ==> a[k] <= cutoff
    ensures Recent(a, cutoff) == 0
    decreases |a|
  {
    if a != [] {
      RecentNone(a[..|a| - 1], cutoff);
    }
  }

  lemma {:induction false} RecentAll(a: seq<real>, cutoff: real)
    requires forall k :: 0 <= k < |a| ==> a[k] > cutoff
    ensures Recent(a, cutoff) == |a|
    decreases |a|
  {
    if a != [] {
      RecentAll(a[..|a| - 1], cutoff);
    }
  }

  predicate Sorted(times: seq<real>) {
    forall i, j :: 0 <= i < j < |times| ==> times[i] <= times[j]
  }

  predicate UpTo(times: seq<real>, now: real) {
    forall k :: 0 <= k < |times| ==> times[k] <= now
  }

  /** The queue counts like the list of all admissions for every cutoff that can still come. */
  ghost predicate Represents(times: seq<real>, queue: seq<real>, cutoff: real) {
    forall later: real :: later >= cutoff ==> Recent(queue, later) == Recent(times, later)
  }

  lemma {:induction false} KeptCountsTheSame(queue: seq<real>, cutoff: real, later: real)
    requires cutoff <= later
    ensures Recent(Kept(queue, cutoff), later) == Recent(queue, later)
    decreases |queue|
  {
    if queue != [] && queue[0] <= cutoff {
      KeptCountsTheSame(queue[1..], cutoff, later);
      assert queue == [queue[0]] + queue[1..];
      RecentBoth([queue[0]], queue[1..], later);
    }
  }

  lemma {:induction false} KeptIsRecent(queue: seq<real>, cutoff: real, now: real)
    requires Sorted(queue) && UpTo(queue, now)
    ensures Sorted(Kept(queue, cutoff)) && UpTo(Kept(queue, cutoff), now)
    ensures |Kept(queue, cutoff)| == Recent(Kept(queue, cutoff), cutoff)
    decreases |queue|
  {
    if queue != [] && queue[0] <= cutoff {
      KeptIsRecent(queue[1..], cutoff, now);
    } else {
      RecentAll(queue, cutoff);
    }
  }

  lemma KeepingRepresents(times: seq<real>, queue: seq<real>, cutoff: real)
    requires Represents(times, queue, cutoff)
    ensures Represents(times, Kept(queue, cutoff), cutoff)
  {
    forall later: real | later >= cutoff ensures Recent(Kept(queue, cutoff), later) == Recent(times, later) {
      KeptCountsTheSame(queue, cutoff, later);
    }
  }

  /** The sweep drops only entries no later window can reach. */
  lemma PruningRepresents(s: Setting, st: State, now: real, c: Client, times: seq<real>, before: real)
    requires Represents(times, Queue(st.hits, c), before - s.window) && before <= now && Sorted(Queue(st.hits, c))
    ensures Represents(times, Queue(Pruned(s, st, now).hits, c), now - s.window)
    ensures Queue(Pruned(s, st, now).hits, c) in {Queue(st.hits, c), []}
  {
    var queue := Queue(st.hits, c);
    if Queue(Pruned(s, st, now).hits, c) != queue {
      forall later: real | later >= now - s.window ensures Recent(times, later) == 0 {
        RecentNone(queue, later);
      }
    }
  }

  lemma AppendingRepresents(times: seq<real>, queue: seq<real>, cutoff: real, now: real)
    requires Represents(times, queue, cutoff)
    ensures Represents(times + [now], queue + [now], cutoff)
  {
    forall later: real | later >= cutoff ensures Recent(queue + [now], later) == Recent(times + [now], later) {
      RecentBoth(queue, [now], later);
      RecentBoth(times, [now], later);
    }
  }

  /** What a run keeps about the queue of one client, `now` being the time of the last request. */
  ghost predicate Tracks(s: Setting, times: seq<real>, queue: seq<real>, now: real) {
    Sorted(queue) && UpTo(queue, now) && Represents(times, queue, now - s.window)
  }

  lemma SettlingTracks(s: Setting, p: State, c: Client, queue: seq<real>, now: real, times: seq<real>)
    requires Tracks(s, times, queue, now) && |queue| == Recent(times, now - s.window)
    ensures
      var (st, d) := Settle(s, p, c, queue, now);
      && (d.Admitted? <==> Recent(times, now - s.window) < s.limit)
      && Tracks(s, if d.Admitted? then times + [now] else times, Queue(st.hits, c), now)
  {
    AppendingRepresents(times, queue, now - s.window, now);
  }

  lemma KeptTracks(s: Setting, queue: seq<real>, now: real, times: seq<real>)
    requires Tracks(s, times, queue, now)
    ensures Tracks(s, times, Kept(queue, now - s.window), now)
    ensures |Kept(queue, now - s.window)| == Recent(times, now - s.window)
  {
    KeptIsRecent(queue, now - s.window, now);
    KeepingRepresents(times, queue, now - s.window);
  }

  lemma PruningTracks(s: Setting, st: State, now: real, c: Client, times: seq<real>, before: real)
    requires Tracks(s, times, Queue(st.hits, c), before) && before <= now
    ensures Tracks(s, times, Queue(Pruned(s, st, now).hits, c), now)
  {
    PruningRepresents(s, st, now, c, times, before);
  }

  lemma OwnStep(s: Setting, st: State, c: Client, now: real, times: seq<real>, before: real)
    requires Tracks(s, times, Queue(st.hits, c), before) && before <= now
    ensures
      var (st', d) := Step(s, st, c, now);
      && (d.Admitted? <==> Recent(times, now - s.window) < s.limit)
      && Tracks(s, if d.Admitted? then times + [now] else times, Queue(st'.hits, c), now)
  {
    var p := Pruned(s, st, now);
    PruningTracks(s, st, now, c, times, before);
    KeptTracks(s, Queue(p.hits, c), now, times);
    SettlingTracks(s, p, c, Kept(Queue(p.hits, c), now - s.window), now, times);
  }

  /** The entries of one client after any client's request. */
  lemma StepTracks(s: Setting, st: State, e: Event, c: Client, times: seq<real>, before: real)
    requires Tracks(s, times, Queue(st.hits, c), before) && before <= e.at
    ensures
      var (st', d) := Step(s, st, e.client, e.at);
      Tracks(s, if e.client == c && d.Admitted? then times + [e.at] else times, Queue(st'.hits, c), e.at)
  {
    if e.client == c {
      OwnStep(s, st, c, e.at, times, before);
    } else {
      PruningTracks(s, st, e.at, c, times, before);
    }
  }

  /** The admissions of a client during a run. */
  function Admissions(s: Setting, start: real, events: seq<Event>, c: Client): seq<real> {
    Queue(RunOf(s, start, events).admitted, c)
  }

  lemma OneMoreEvent(s: Setting, start: real, events: seq<Event>, e: Event)
    ensures RunOf(s, start, events + [e]) == Extended(s, RunOf(s, start, events), e)
  {
    assert (events + [e])[..|events|] == events;
  }

  lemma {:induction false} TimesArePast(s: Setting, start: real, events: seq<Event>, c: Client, now: real)
    requires forall i :: 0 <= i < |events| ==> events[i].at <= now
    ensures UpTo(Admissions(s, start, events, c), now)
    decreases |events|
  {
    if events != [] {
      TimesArePast(s, start, events[..|events| - 1], c, now);
    }
  }

  lemma ExtendedTracks(s: Setting, r: Run, e: Event, c: Client, before: real)
    requires Tracks(s, Queue(r.admitted, c), Queue(r.state.hits, c), before) && before <= e.at
    ensures Tracks(s, Queue(Extended(s, r, e).admitted, c), Queue(Extended(s, r, e).state.hits, c), e.at)
  {
    StepTracks(s, r.state, e, c, Queue(r.admitted, c), before);
  }

  lemma {:induction false} RunTracks(s: Setting, start: real, events: seq<Event>, c: Client, now: real)
    requires Monotone(events) && forall i :: 0 <= i < |events| ==> events[i].at <= now
    ensures Tracks(s, Admissions(s, start, events, c), Queue(RunOf(s, start, events).state.hits, c), now)
    decreases |events|
  {
    if events != [] {
      var but, e := events[..|events| - 1], events[|events| - 1];
      RunTracks(s, start, but, c, e.at);
      ExtendedTracks(s, RunOf(s, start, but), e, c, e.at);
    }
  }

  predicate IsNext(events: seq<Event>, e: Event) {
    Monotone(events) && forall i :: 0 <= i < |events| ==> events[i].at <= e.at
  }

  /** The decision on a request that follows a run. */
  function DecisionOn(s: Setting, start: real, events: seq<Event>, e: Event): Decision {
    Step(s, RunOf(s, start, events).state, e.client, e.at).1
  }

  /** A request is admitted exactly when fewer than the limit of its client's admissions lie in the
      window that ends with it. */
  lemma AdmittedExactlyWhen(s: Setting, start: real, events: seq<Event>, e: Event)
    requires IsNext(events, e)
    ensures DecisionOn(s, start, events, e).Admitted?
      <==> Recent(Admissions(s, start, events, e.client), e.at - s.window) < s.limit
  {
    RunTracks(s, start, events, e.client, e.at);
    OwnStep(s, RunOf(s, start, events).state, e.client, e.at, Admissions(s, start, events, e.client), e.at);
  }

  // ---------- consequences ----------

  /** The admissions in the window (from, until]. */
  function InWindow(times: seq<real>, after: real, until: real): nat
    decreases |times|
  {
    if times == [] then 0
    else
      var last := times[|times| - 1];
      InWindow(times[..|times| - 1], after, until) + if after < last <= until then 1 else 0
  }

  lemma {:induction false} WindowIsRecent(times: seq<real>, after: real, until: real)
    requires forall k :: 0 <= k < |times| ==> times[k] <= until
    ensures InWindow(times, after, until) == Recent(times, after)
    decreases |times|
  {
    if times != [] {
      WindowIsRecent(times[..|times| - 1], after, until);
    }
  }

  lemma {:induction false} RecentShrinks(times: seq<real>, low: real, high: real)
    requires low <= high
    ensures Recent(times, high) <= Recent(times, low)
    decreases |times|
  {
    if times != [] {
      RecentShrinks(times[..|times| - 1], low, high);
    }
  }

  lemma AdmissionsGrow(s: Setting, start: real, events: seq<Event>, e: Event, c: Client)
    ensures RunOf(s, start, events + [e]).decisions
         == RunOf(s, start, events).decisions + [DecisionOn(s, start, events, e)]
    ensures Admissions(s, start, events + [e], c)
         == if e.client == c && DecisionOn(s, start, events, e).Admitted?
            then Admissions(s, start, events, c) + [e.at] else Admissions(s, start, events, c)
  {
    OneMoreEvent(s, start, events, e);
  }

  lemma {:induction false} WindowOfBoth(a: seq<real>, t: real, after: real, until: real)
    ensures InWindow(a + [t], after, until) == InWindow(a, after, until) + if after < t <= until then 1 else 0
  {
    assert (a + [t])[..|a|] == a;
  }

  /** An admission inside the window found room in it. */
  lemma AdmissionFits(s: Setting, start: real, events: seq<Event>, e: Event, until: real)
    requires IsNext(events, e) && DecisionOn(s, start, events, e).Admitted? && e.at <= until
    ensures InWindow(Admissions(s, start, events, e.client), until - s.window, until) < s.limit
  {
    var times := Admissions(s, start, events, e.client);
    AdmittedExactlyWhen(s, start, events, e);
    TimesArePast(s, start, events, e.client, e.at);
    WindowIsRecent(times, until - s.window, until);
    RecentShrinks(times, e.at - s.window, until - s.window);
  }

  /** No window of the configured length, wherever it ends, holds more admissions than the limit. */
  lemma {:induction false} NoWindowExceedsTheLimit(s: Setting, start: real, events: seq<Event>, c: Client, until: real)
    requires Monotone(events)
    ensures InWindow(Admissions(s, start, events, c), until - s.window, until) <= s.limit
    decreases |events|
  {
    if events != [] {
      var but, e := events[..|events| - 1], events[|events| - 1];
      assert events == but + [e];
      NoWindowExceedsTheLimit(s, start, but, c, until);
      AdmissionsGrow(s, start, but, e, c);
      WindowOfBoth(Admissions(s, start, but, c), e.at, until - s.window, until);
      if e.client == c && DecisionOn(s, start, but, e).Admitted? && e.at <= until {
        AdmissionFits(s, start, but, e, until);
      }
    }
  }

  lemma SameDecision(s: Setting, start: real, other: real, events: seq<Event>, e: Event)
    requires IsNext(events, e) && Admissions(s, start, events, e.client) == Admissions(s, other, events, e.client)
    ensures DecisionOn(s, start, events, e).Admitted? == DecisionOn(s, other, events, e).Admitted?
  {
    AdmittedExactlyWhen(s, start, events, e);
    AdmittedExactlyWhen(s, other, events, e);
  }

  lemma SameAdmissions(s: Setting, start: real, other: real, events: seq<Event>, e: Event, c: Client)
    requires Admissions(s, start, events, c) == Admissions(s, other, events, c)
    requires DecisionOn(s, start, events, e).Admitted? == DecisionOn(s, other, events, e).Admitted?
    ensures Admissions(s, start, events + [e], c) == Admissions(s, other, events + [e], c)
  {
    AdmissionsGrow(s, start, events, e, c);
    AdmissionsGrow(s, other, events, e, c);
  }

  /** Sweeps never change a decision: two runs whose sweeps fall at different times agree. */
  lemma {:induction false} SweepsNeverMatter(s: Setting, start: real, other: real, events: seq<Event>,
                                             c: Client, next: Event)
    requires IsNext(events, next)
    ensures Admissions(s, start, events, c) == Admissions(s, other, events, c)
    ensures DecisionOn(s, start, events, next).Admitted? == DecisionOn(s, other, events, next).Admitted?
    decreases |events|
  {
    if events != [] {
      var but, e := events[..|events| - 1], events[|events| - 1];
      assert events == but + [e];
      SweepsNeverMatter(s, start, other, but, c, e);
      SameAdmissions(s, start, other, but, e, c);
      SweepsNeverMatter(s, start, other, but, next.client, e);
      SameAdmissions(s, start, other, but, e, next.client);
    }
    SameDecision(s, start, other, events, next);
  }

  // ---------- Retry-After ----------

  lemma {:induction false} RecentIsFull(queue: seq<real>, low: real, high: real)
    requires queue != [] && low < queue[0] <= high && low <= high
    ensures Recent(queue, high) < |queue|
    decreases |queue|
  {
    var t := queue[0];
    assert queue == [t] + queue[1..];
    RecentBoth([t], queue[1..], high);
    RecentBound(queue[1..], high);
    assert Recent([t], high) == 0;
  }

  lemma {:induction false} RecentBound(queue: seq<real>, cutoff: real)
    ensures Recent(queue, cutoff) <= |queue|
    decreases |queue|
  {
    if queue != [] {
      RecentBound(queue[..|queue| - 1], cutoff);
    }
  }

  /** A refused client has exactly the limit of recent admissions. */
  lemma RefusedIsFull(s: Setting, start: real, events: seq<Event>, e: Event)
    requires IsNext(events, e) && DecisionOn(s, start, events, e).Refused?
    ensures Recent(Admissions(s, start, events, e.client), e.at - s.window) == s.limit
  {
    AdmittedExactlyWhen(s, start, events, e);
    NoWindowExceedsTheLimit(s, start, events, e.client, e.at);
    TimesArePast(s, start, events, e.client, e.at);
    WindowIsRecent(Admissions(s, start, events, e.client), e.at - s.window, e.at);
  }

  /** The queue a request looks at: the recent admissions of its client. */
  lemma RequestLooksAt(s: Setting, start: real, events: seq<Event>, e: Event) returns (queue: seq<real>)
    requires IsNext(events, e)
    ensures Represents(Admissions(s, start, events, e.client), queue, e.at - s.window)
    ensures |queue| == Recent(Admissions(s, start, events, e.client), e.at - s.window)
    ensures Sorted(queue) && (queue != [] ==> queue[0] > e.at - s.window)
    ensures DecisionOn(s, start, events, e) == Decide(s, queue, e.at)
  {
    RunTracks(s, start, events, e.client, e.at);
    queue := StepLooksAt(s, RunOf(s, start, events).state, e.client, e.at, Admissions(s, start, events, e.client));
  }

  lemma StepLooksAt(s: Setting, st: State, c: Client, now: real, times: seq<real>) returns (queue: seq<real>)
    requires Tracks(s, times, Queue(st.hits, c), now)
    ensures Represents(times, queue, now - s.window)
    ensures |queue| == Recent(times, now - s.window)
    ensures Sorted(queue) && (queue != [] ==> queue[0] > now - s.window)
    ensures Step(s, st, c, now).1 == Decide(s, queue, now)
  {
    var whole := Queue(Pruned(s, st, now).hits, c);
    PruningTracks(s, st, now, c, times, now);
    KeptTracks(s, whole, now, times);
    KeptStartsRecent(whole, now - s.window);
    queue := Kept(whole, now - s.window);
  }

  /** The queue a refusal looked at: full, recent, and the source of the advertised time. */
  lemma RefusalLooksAt(s: Setting, start: real, events: seq<Event>, e: Event) returns (queue: seq<real>)
    requires s.limit > 0 && IsNext(events, e) && DecisionOn(s, start, events, e).Refused?
    ensures Represents(Admissions(s, start, events, e.client), queue, e.at - s.window)
    ensures s.limit <= |queue| == Recent(Admissions(s, start, events, e.client), e.at - s.window)
    ensures Sorted(queue) && queue[0] > e.at - s.window
    ensures DecisionOn(s, start, events, e).retryAfter == (queue[0] + s.window - e.at).Floor + 1
  {
    queue := RequestLooksAt(s, start, events, e);
  }

  lemma WaitingIsEnough(oldest: real, window: real, now: real, wait: int, instant: real)
    requires wait == (oldest + window - now).Floor + 1 && instant >= now + wait as real
    ensures oldest <= instant - window
  {
  }

  /** Waiting the advertised time is enough: if the client was refused, and was not admitted since,
      a request at least that much later is admitted. */
  lemma RetryAfterIsEnough(s: Setting, start: real, events: seq<Event>, e: Event, later: seq<Event>, again: Event)
    requires s.limit > 0
    requires IsNext(events, e) && DecisionOn(s, start, events, e).Refused?
    requires IsNext(later, again) && again.client == e.client
    requires Admissions(s, start, later, e.client) == Admissions(s, start, events, e.client)
    requires again.at >= e.at + DecisionOn(s, start, events, e).retryAfter as real
    ensures DecisionOn(s, start, later, again).Admitted?
  {
    var queue := RefusalLooksAt(s, start, events, e);
    var cutoff := again.at - s.window;
    WaitingIsEnough(queue[0], s.window, e.at, DecisionOn(s, start, events, e).retryAfter, again.at);
    RecentIsFull(queue, e.at - s.window, cutoff);
    RefusedIsFull(s, start, events, e);
    AdmittedExactlyWhen(s, start, later, again);
  }

  /** The advertised time is at most one second too long: a request more than a second before it is still
      refused. */
  lemma RetryAfterIsTight(s: Setting, start: real, events: seq<Event>, e: Event, later: seq<Event>, again: Event)
    requires s.limit > 0
    requires IsNext(events, e) && DecisionOn(s, start, events, e).Refused?
    requires IsNext(later, again) && again.client == e.client && again.at >= e.at
    requires Admissions(s, start, later, e.client) == Admissions(s, start, events, e.client)
    requires again.at < e.at + DecisionOn(s, start, events, e).retryAfter as real - 1.0
    ensures DecisionOn(s, start, later, again).Refused?
  {
    var queue := RefusalLooksAt(s, start, events, e);
    var cutoff := again.at - s.window;
    StillRecent(queue[0], s.window, e.at, DecisionOn(s, start, events, e).retryAfter, again.at);
    forall k | 0 <= k < |queue| ensures queue[k] > cutoff {
      assert k > 0 ==> queue[0] <= queue[k];
    }
    RecentAll(queue, cutoff);
    AdmittedExactlyWhen(s, start, later, again);
  }

  lemma StillRecent(oldest: real, window: real, now: real, wait: int, instant: real)
    requires wait == (oldest + window - now).Floor + 1 && instant < now + wait as real - 1.0
    ensures oldest > instant - window
  {
  }

  lemma {:induction false} KeptStartsRecent(queue: seq<real>, cutoff: real)
    ensures Kept(queue, cutoff) != [] ==> Kept(queue, cutoff)[0] > cutoff
    decreases |queue|
  {
    if queue != [] && queue[0] <= cutoff {
      KeptStartsRecent(queue[1..], cutoff);
    }
  }
}
