/**
 * Release by `close`, exactly. One thread, the pump, reads frames and runs every `resolve` and every
 * `close`, so that these follow one another; only the calls run beside them.
 */
module IpcRelease {
  import opened Options
  import opened CanonicalEncoder
  import opened BridgeTools
  import opened IpcBridge
  import opened IpcRuns
  import opened IpcSafety
  import opened IpcResults

  // ---- runs of the pump ----

  predicate DeliveriesDone(s: State) { forall d :: 0 <= d < |s.deliveries| ==> s.deliveries[d].stage.Delivered? }

  /** Every closer but c has visited all its slots. */
  predicate ClosersDone(s: State, c: int) { forall k :: 0 <= k < |s.closers| && k != c ==> s.closers[k].pending == [] }

  /** Closer c is all that the pump may be busy with. */
  predicate Alone(s: State, c: int) { DeliveriesDone(s) && ClosersDone(s, c) }

  predicate PumpIdle(s: State) { Alone(s, -1) }

  /** The pump begins something new. */
  predicate Starts(a: Action) { a.Resolve? || a.CloseStart? }

  predicate StoresInto(s: State, a: Action, q: nat) {
    a.ResolveStore? && a.d < |s.deliveries| && s.deliveries[a.d].callSeq == q
  }

  /** A run in which the pump does one thing at a time; if `quiet`, nothing is delivered to call q. */
  ghost predicate PumpRun(su: Setup, s: State, steps: seq<Action>, quiet: bool, q: nat)
    decreases |steps|
  {
    steps == [] ||
    (&& Enabled(su, s, steps[0])
     && (Starts(steps[0]) ==> PumpIdle(s))
     && (quiet ==> !StoresInto(s, steps[0], q))
     && PumpRun(su, Apply(su, s, steps[0]), steps[1..], quiet, q))
  }

  lemma {:induction false} PumpRunPossible(su: Setup, s: State, steps: seq<Action>, quiet: bool, q: nat)
    requires PumpRun(su, s, steps, quiet, q)
    ensures Possible(su, s, steps)
    decreases |steps|
  {
    if steps != [] {
      PumpRunPossible(su, Apply(su, s, steps[0]), steps[1..], quiet, q);
    }
  }

  /** Where a run of the pump leads. */
  ghost predicate Leads(su: Setup, s: State, steps: seq<Action>, t: State, quiet: bool, q: nat) {
    PumpRun(su, s, steps, quiet, q) && Possible(su, s, steps) && Exec(su, s, steps) == t
  }

  lemma LeadsNowhere(su: Setup, s: State, quiet: bool, q: nat)
    ensures Leads(su, s, [], s, quiet, q)
  {
  }

  lemma LeadsBy(su: Setup, s: State, a: Action, rest: seq<Action>, t: State, quiet: bool, q: nat)
    requires Enabled(su, s, a) && (Starts(a) ==> PumpIdle(s)) && (quiet ==> !StoresInto(s, a, q))
    requires Leads(su, Apply(su, s, a), rest, t, quiet, q)
    ensures Leads(su, s, [a] + rest, t, quiet, q)
  {
    assert ([a] + rest)[0] == a && ([a] + rest)[1..] == rest;
  }

  lemma {:induction false} LeadsOn(su: Setup, s: State, a: seq<Action>, t: State, b: seq<Action>, u: State, quiet: bool, q: nat)
    requires Leads(su, s, a, t, quiet, q) && Leads(su, t, b, u, quiet, q)
    ensures Leads(su, s, a + b, u, quiet, q)
    decreases |a|
  {
    if a == [] {
      assert a + b == b;
    } else {
      LeadsOn(su, Apply(su, s, a[0]), a[1..], t, b, u, quiet, q);
      assert [a[0]] + (a[1..] + b) == a + b;
      LeadsBy(su, s, a[0], a[1..] + b, u, quiet, q);
    }
  }

  // ---- one thing at a time ----

  predicate Delivering(s: State, d: int) {
    ClosersDone(s, -1) && forall e :: 0 <= e < |s.deliveries| && e != d ==> s.deliveries[e].stage.Delivered?
  }

  ghost predicate OneThing(s: State) {
    (exists d :: Delivering(s, d)) || (exists c :: Alone(s, c))
  }

  predicate PumpStep(a: Action) {
    a.Resolve? || a.ResolveStore? || a.ResolveSet? || a.CloseStart? || a.CloseCheck? || a.CloseStore? || a.CloseSet?
  }

  /** The calls and the clock leave the pump's work alone. */
  lemma PumpUntouched(su: Setup, s: State, a: Action)
    requires Enabled(su, s, a) && !PumpStep(a)
    ensures Apply(su, s, a).deliveries == s.deliveries && Apply(su, s, a).closers == s.closers
  {
  }

  lemma SameWork(s: State, t: State)
    requires OneThing(s) && t.deliveries == s.deliveries && t.closers == s.closers
    ensures OneThing(t)
  {
    if d :| Delivering(s, d) { assert Delivering(t, d); }
    if c :| Alone(s, c) { assert Alone(t, c); }
  }

  lemma WorkStarts(su: Setup, s: State, a: Action)
    requires PumpIdle(s) && Enabled(su, s, a) && Starts(a)
    ensures OneThing(Apply(su, s, a))
  {
    var t := Apply(su, s, a);
    if a.Resolve? { assert Delivering(t, |s.deliveries|); } else { assert Alone(t, |s.closers|); }
  }

  lemma OneThingStep(su: Setup, s: State, a: Action)
    requires OneThing(s) && Enabled(su, s, a) && (Starts(a) ==> PumpIdle(s))
    ensures OneThing(Apply(su, s, a))
  {
    if !PumpStep(a) {
      PumpUntouched(su, s, a);
      SameWork(s, Apply(su, s, a));
    } else if Starts(a) {
      WorkStarts(su, s, a);
    } else if a.ResolveStore? || a.ResolveSet? {
      DeliveryGoesOn(su, s, a, a.d);
    } else {
      CloserGoesOn(su, s, a, a.c);
    }
  }

  lemma DeliveryGoesOn(su: Setup, s: State, a: Action, d: nat)
    requires OneThing(s) && Enabled(su, s, a) && (a == ResolveStore(d) || a == ResolveSet(d))
    ensures Delivering(Apply(su, s, a), d)
  {
    assert !s.deliveries[d].stage.Delivered?;
    var e :| Delivering(s, e);
  }

  lemma CloserGoesOn(su: Setup, s: State, a: Action, c: nat)
    requires OneThing(s) && Enabled(su, s, a) && (a == CloseCheck(c) || a == CloseStore(c) || a == CloseSet(c))
    ensures Alone(Apply(su, s, a), c)
  {
    BusyCloserAlone(s, c);
  }

  lemma BusyCloserAlone(s: State, c: nat)
    requires OneThing(s) && c < |s.closers| && s.closers[c].pending != []
    ensures Alone(s, c)
  {
    var k :| Alone(s, k);
  }

  lemma {:induction false} OneThingRun(su: Setup, s: State, steps: seq<Action>, quiet: bool, q: nat)
    requires OneThing(s) && PumpRun(su, s, steps, quiet, q) && Possible(su, s, steps)
    ensures OneThing(Exec(su, s, steps))
    decreases |steps|
  {
    if steps != [] {
      OneThingStep(su, s, steps[0]);
      OneThingRun(su, Apply(su, s, steps[0]), steps[1..], quiet, q);
    }
  }

  // ---- when a call can come round to another wait ----

  /** In round `round` at time `now`, an `in_progress` with this delay is slept on and retried. */
  predicate CanRetry(su: Setup, now: int, round: nat, delay: Option<int>) {
    round < MAX_IN_PROGRESS_RETRIES && AfterPause(su.lim, now, round, delay).Sleeping?
  }

  /** Time only takes retries away, and the shortest delay is allowed whenever any is. */
  lemma RetryEarlier(su: Setup, now: int, after: int, round: nat, delay: Option<int>)
    requires now <= after
    ensures CanRetry(su, after, round, delay) ==> CanRetry(su, now, round, delay) && CanRetry(su, now, round, Some(1))
    ensures CanRetry(su, now, round, delay) ==> delay.Some? && delay.value >= 1
  {
  }

  /**
   * The next outcome that the call reads may send it into another round: the one in its slot, or,
   * if more is delivered, the shortest `in_progress` there is.
   */
  predicate Threat(su: Setup, s: State, q: nat, now: int, round: nat, more: bool) {
    if more then CanRetry(su, now, round, Some(1))
    else HoldsInProgress(s, q) && CanRetry(su, now, round, s.bridge.cells[q].outcome.value.retryAfterMs)
  }

  predicate EventOn(s: State, q: nat) { q in s.bridge.cells && s.bridge.cells[q].event }

  /**
   * What a caller can read off the state at the closer's check: the call still has an `in_progress`
   * to consume whose retry is allowed (or, if more is delivered, time and rounds for one).
   */
  predicate Survives(su: Setup, s: State, q: nat, more: bool) {
    && q in s.calls
    && match s.calls[q].pc
       case Sending(r) => (more || EventOn(s, q)) && Threat(su, s, q, s.now, r, more)
       case Waiting(r) => (more || EventOn(s, q)) && Threat(su, s, q, s.now, r, more)
       case Woken(r) => (more || EventOn(s, q)) && Threat(su, s, q, s.now, r, more)
       case Clearing(r, d) => CanRetry(su, s.now, r, d)
       case Dropping(r, d) => more && CanRetry(su, s.now, r, d) && CanRetry(su, s.now + d.value, r + 1, Some(1))
       case Pausing(r, d) =>
         CanRetry(su, s.now, r, d) && (more || EventOn(s, q)) && Threat(su, s, q, s.now + d.value, r + 1, more)
       case Sleeping(r, until) =>
         r < MAX_IN_PROGRESS_RETRIES && (more || EventOn(s, q)) && Threat(su, s, q, Max(s.now, until), r + 1, more)
       case Leaving(_) => false
       case Done(_) => false
  }

  /** The call will leave without waiting on an unset event again. */
  predicate Doomed(su: Setup, s: State, q: nat, more: bool) {
    && q in s.calls
    && match s.calls[q].pc
       case Sending(r) => EventOn(s, q) && !Threat(su, s, q, s.now, r, more)
       case Waiting(r) => EventOn(s, q) && !Threat(su, s, q, s.now, r, more)
       case Woken(r) => EventOn(s, q) && !Threat(su, s, q, s.now, r, more)
       case Clearing(r, d) => !CanRetry(su, s.now, r, d)
       case Dropping(r, d) =>
         !CanRetry(su, s.now, r, d) || (EventOn(s, q) && (more ==> !CanRetry(su, s.now + d.value, r + 1, Some(1))))
       case Pausing(r, d) =>
         !CanRetry(su, s.now, r, d) || (EventOn(s, q) && !Threat(su, s, q, s.now + d.value, r + 1, more))
       case Sleeping(r, until) =>
         r >= MAX_IN_PROGRESS_RETRIES || (EventOn(s, q) && !Threat(su, s, q, Max(s.now, until), r + 1, more))
       case Leaving(_) => true
       case Done(_) => true
  }

  // ---- a doomed call stays doomed ----

  /** What other threads can do to the slot of q: signal it, or replace its outcome. */
  lemma OthersAtSlot(su: Setup, s: State, a: Action, q: nat)
    requires Allocation(su, s) && Enabled(su, s, a) && Owner(a) != q && q in s.calls
    ensures Apply(su, s, a).now >= s.now
    ensures EventOn(s, q) ==> EventOn(Apply(su, s, a), q)
    ensures !StoresInto(s, a, q) && HoldsInProgress(Apply(su, s, a), q) ==>
              HoldsInProgress(s, q) && Apply(su, s, a).bridge.cells[q].outcome == s.bridge.cells[q].outcome
  {
  }

  lemma ThreatEarlier(su: Setup, s: State, t: State, q: nat, now: int, after: int, round: nat, more: bool)
    requires now <= after
    requires !more && HoldsInProgress(t, q) ==>
               HoldsInProgress(s, q) && t.bridge.cells[q].outcome == s.bridge.cells[q].outcome
    ensures Threat(su, t, q, after, round, more) ==> Threat(su, s, q, now, round, more)
  {
    RetryEarlier(su, now, after, round, Some(1));
    if HoldsInProgress(t, q) { RetryEarlier(su, now, after, round, t.bridge.cells[q].outcome.value.retryAfterMs); }
  }

  /** State t is s later: the same call, an event that can only have come on, and no new `in_progress` unless more may come. */
  predicate Later(s: State, t: State, q: nat, more: bool) {
    && q in s.calls && q in t.calls && t.calls[q] == s.calls[q] && s.now <= t.now
    && (EventOn(s, q) ==> EventOn(t, q))
    && (!more && HoldsInProgress(t, q) ==>
          HoldsInProgress(s, q) && t.bridge.cells[q].outcome == s.bridge.cells[q].outcome)
  }

  lemma DoomedReading(su: Setup, s: State, t: State, q: nat, more: bool)
    requires Later(s, t, q, more) && Doomed(su, s, q, more)
    requires s.calls[q].pc.Sending? || s.calls[q].pc.Waiting? || s.calls[q].pc.Woken?
    ensures Doomed(su, t, q, more)
  {
    ThreatEarlier(su, s, t, q, s.now, t.now, s.calls[q].pc.round, more);
  }

  lemma DoomedDropping(su: Setup, s: State, t: State, q: nat, more: bool)
    requires Later(s, t, q, more) && Doomed(su, s, q, more)
    requires s.calls[q].pc.Clearing? || s.calls[q].pc.Dropping?
    ensures Doomed(su, t, q, more)
  {
    var r, d := s.calls[q].pc.round, s.calls[q].pc.delay;
    RetryEarlier(su, s.now, t.now, r, d);
    if d.Some? { RetryEarlier(su, s.now + d.value, t.now + d.value, r + 1, Some(1)); }
  }

  lemma DoomedPausing(su: Setup, s: State, t: State, q: nat, more: bool)
    requires Later(s, t, q, more) && Doomed(su, s, q, more) && s.calls[q].pc.Pausing?
    ensures Doomed(su, t, q, more)
  {
    var r, d := s.calls[q].pc.round, s.calls[q].pc.delay;
    RetryEarlier(su, s.now, t.now, r, d);
    if d.Some? { ThreatEarlier(su, s, t, q, s.now + d.value, t.now + d.value, r + 1, more); }
  }

  lemma DoomedSleeping(su: Setup, s: State, t: State, q: nat, more: bool)
    requires Later(s, t, q, more) && Doomed(su, s, q, more) && s.calls[q].pc.Sleeping?
    ensures Doomed(su, t, q, more)
  {
    var r, until := s.calls[q].pc.round, s.calls[q].pc.until;
    ThreatEarlier(su, s, t, q, Max(s.now, until), Max(t.now, until), r + 1, more);
  }

  lemma DoomedLater(su: Setup, s: State, t: State, q: nat, more: bool)
    requires Later(s, t, q, more) && Doomed(su, s, q, more)
    ensures Doomed(su, t, q, more)
  {
    var pc := s.calls[q].pc;
    if pc.Sending? || pc.Waiting? || pc.Woken? {
      DoomedReading(su, s, t, q, more);
    } else if pc.Clearing? || pc.Dropping? {
      DoomedDropping(su, s, t, q, more);
    } else if pc.Pausing? {
      DoomedPausing(su, s, t, q, more);
    } else if pc.Sleeping? {
      DoomedSleeping(su, s, t, q, more);
    }
  }

  lemma DoomedByOthers(su: Setup, s: State, a: Action, q: nat, more: bool)
    requires Allocation(su, s) && Enabled(su, s, a) && Owner(a) != q && Doomed(su, s, q, more)
    requires !more ==> !StoresInto(s, a, q)
    ensures Doomed(su, Apply(su, s, a), q, more)
  {
    OthersAtSlot(su, s, a, q);
    OthersUntouched(su, s, a, q);
    DoomedLater(su, s, Apply(su, s, a), q, more);
  }

  lemma DoomedByItself(su: Setup, s: State, a: Action, q: nat, more: bool)
    requires Allocation(su, s) && Enabled(su, s, a) && Owner(a) == q && Doomed(su, s, q, more)
    ensures Doomed(su, Apply(su, s, a), q, more)
  {
    if a == Read(q) && HoldsInProgress(s, q) {
      var d, r := s.bridge.cells[q].outcome.value.retryAfterMs, s.calls[q].pc.round;
      RetryEarlier(su, s.now, s.now, r, d);
    }
  }

  lemma DoomedStep(su: Setup, s: State, a: Action, q: nat, more: bool)
    requires Allocation(su, s) && Enabled(su, s, a) && Doomed(su, s, q, more)
    requires !more ==> !StoresInto(s, a, q)
    ensures Doomed(su, Apply(su, s, a), q, more)
  {
    if Owner(a) == q { DoomedByItself(su, s, a, q, more); } else { DoomedByOthers(su, s, a, q, more); }
  }

  // ---- a visit that finds the event unset dooms the call ----

  /** Closer c is at the slot of q, has found or will find its event unset, and the pump does nothing else. */
  predicate Visited(s: State, q: nat, c: nat, n: nat) {
    && Alone(s, c) && c < |s.closers| && |s.closers[c].visited| == n
    && s.closers[c].pending != [] && s.closers[c].pending[0] == q
    && q in s.calls && !s.calls[q].pc.Woken? && !s.calls[q].pc.Clearing?
    && q in s.bridge.cells && !EventOn(s, q)
    && (s.closers[c].visit.Signal? ==> !HoldsInProgress(s, q))
  }

  lemma VisitedByCloser(su: Setup, s: State, a: Action, q: nat, c: nat, n: nat, more: bool)
    requires Allocation(su, s) && Enabled(su, s, a) && Visited(s, q, c, n) && !Survives(su, s, q, more)
    requires a == CloseCheck(c) || a == CloseStore(c) || a == CloseSet(c)
    ensures var t := Apply(su, s, a);
            (Visited(t, q, c, n) && !Survives(su, t, q, more)) || Doomed(su, t, q, more)
  {
  }

  lemma VisitedByCall(su: Setup, s: State, a: Action, q: nat, c: nat, n: nat, more: bool)
    requires Allocation(su, s) && Enabled(su, s, a) && Visited(s, q, c, n) && !Survives(su, s, q, more)
    requires Owner(a) == q
    ensures var t := Apply(su, s, a);
            (Visited(t, q, c, n) && !Survives(su, t, q, more)) || Doomed(su, t, q, more)
  {
  }

  lemma VisitedByRest(su: Setup, s: State, a: Action, q: nat, c: nat, n: nat, more: bool)
    requires Allocation(su, s) && Enabled(su, s, a) && Visited(s, q, c, n) && !Survives(su, s, q, more)
    requires Owner(a) != q && !Starts(a) && a != CloseCheck(c) && a != CloseStore(c) && a != CloseSet(c)
    ensures var t := Apply(su, s, a); Visited(t, q, c, n) && !Survives(su, t, q, more)
  {
    var t := Apply(su, s, a);
    assert !a.ResolveStore? && !a.ResolveSet? && !a.CloseCheck? && !a.CloseStore? && !a.CloseSet?;
    OthersAtSlot(su, s, a, q);
    OthersUntouched(su, s, a, q);
    assert t.closers == s.closers && t.deliveries == s.deliveries && t.bridge.cells[q] == s.bridge.cells[q];
    SurvivesEarlier(su, s, t, q, more);
  }

  lemma SurvivesEarlier(su: Setup, s: State, t: State, q: nat, more: bool)
    requires q in s.calls && q in t.calls && s.calls[q] == t.calls[q] && s.now <= t.now
    requires q in s.bridge.cells && q in t.bridge.cells && s.bridge.cells[q] == t.bridge.cells[q]
    ensures Survives(su, t, q, more) ==> Survives(su, s, q, more)
  {
    match s.calls[q].pc
    case Sending(r) => ThreatEarlier(su, s, t, q, s.now, t.now, r, more);
    case Waiting(r) => ThreatEarlier(su, s, t, q, s.now, t.now, r, more);
    case Woken(r) => ThreatEarlier(su, s, t, q, s.now, t.now, r, more);
    case Clearing(r, d) => RetryEarlier(su, s.now, t.now, r, d);
    case Dropping(r, d) =>
      RetryEarlier(su, s.now, t.now, r, d);
      if d.Some? { RetryEarlier(su, s.now + d.value, t.now + d.value, r + 1, Some(1)); }
    case Pausing(r, d) =>
      RetryEarlier(su, s.now, t.now, r, d);
      if d.Some? { ThreatEarlier(su, s, t, q, s.now + d.value, t.now + d.value, r + 1, more); }
    case Sleeping(r, until) => ThreatEarlier(su, s, t, q, Max(s.now, until), Max(t.now, until), r + 1, more);
    case _ =>
  }

  ghost predicate Hopeless(su: Setup, s: State, q: nat, c: nat, n: nat, more: bool) {
    (Visited(s, q, c, n) && !Survives(su, s, q, more)) || Doomed(su, s, q, more)
  }

  lemma HopelessStep(su: Setup, s: State, a: Action, q: nat, c: nat, n: nat, more: bool)
    requires Allocation(su, s) && Enabled(su, s, a) && Hopeless(su, s, q, c, n, more)
    requires Starts(a) ==> PumpIdle(s)
    requires !more ==> !StoresInto(s, a, q)
    ensures Hopeless(su, Apply(su, s, a), q, c, n, more)
  {
    if Doomed(su, s, q, more) {
      DoomedStep(su, s, a, q, more);
    } else if a == CloseCheck(c) || a == CloseStore(c) || a == CloseSet(c) {
      VisitedByCloser(su, s, a, q, c, n, more);
    } else if Owner(a) == q {
      VisitedByCall(su, s, a, q, c, n, more);
    } else {
      VisitedByRest(su, s, a, q, c, n, more);
    }
  }

  lemma {:induction false} HopelessRun(su: Setup, s: State, steps: seq<Action>, q: nat, c: nat, n: nat, more: bool)
    requires Inv(su, s) && Hopeless(su, s, q, c, n, more)
    requires PumpRun(su, s, steps, !more, q) && Possible(su, s, steps)
    ensures Hopeless(su, Exec(su, s, steps), q, c, n, more)
    decreases |steps|
  {
    if steps != [] {
      HopelessStep(su, s, steps[0], q, c, n, more);
      InvStep(su, s, steps[0]);
      HopelessRun(su, Apply(su, s, steps[0]), steps[1..], q, c, n, more);
    }
  }

  // ---- a surviving call is driven round to another wait ----

  lemma LeadsFirst(su: Setup, s: State, a: Action, t: State, rest: seq<Action>, u: State, q: nat)
    requires Enabled(su, s, a) && Apply(su, s, a) == t && !Starts(a) && !a.ResolveStore?
    requires Leads(su, t, rest, u, true, q)
    ensures Leads(su, s, [a] + rest, u, true, q)
  {
    LeadsBy(su, s, a, rest, u, true, q);
  }

  /** From a read `in_progress` whose retry is allowed: clear, drop, sleep, resend, and wait on an unset event. */
  lemma ComesRound(su: Setup, s: State, q: nat) returns (steps: seq<Action>, end: State)
    requires Allocation(su, s) && q in s.calls && s.calls[q].pc.Clearing?
    requires CanRetry(su, s.now, s.calls[q].pc.round, s.calls[q].pc.delay)
    ensures Leads(su, s, steps, end, true, q) && Blocked(end, q) && end.closers == s.closers
  {
    var r, d := s.calls[q].pc.round, s.calls[q].pc.delay;
    var s1 := Apply(su, s, Clear(q));
    var s2 := Apply(su, s1, Drop(q));
    var s3 := Apply(su, s2, Pause(q));
    assert s3.calls[q].pc == Sleeping(r, s.now + d.value) && s3.now == s.now;
    steps, end := FromSleep(su, s3, q);
    LeadsFirst(su, s2, Pause(q), s3, steps, end, q);
    LeadsFirst(su, s1, Drop(q), s2, [Pause(q)] + steps, end, q);
    LeadsFirst(su, s, Clear(q), s1, [Drop(q)] + ([Pause(q)] + steps), end, q);
    steps := [Clear(q)] + ([Drop(q)] + ([Pause(q)] + steps));
  }

  lemma FromSleep(su: Setup, s: State, q: nat) returns (steps: seq<Action>, end: State)
    requires q in s.calls && s.calls[q].pc.Sleeping? && s.calls[q].pc.round < MAX_IN_PROGRESS_RETRIES
    requires q in s.bridge.cells && !EventOn(s, q)
    ensures Leads(su, s, steps, end, true, q) && Blocked(end, q) && end.closers == s.closers
  {
    var wait := Tick(if s.calls[q].pc.until > s.now then s.calls[q].pc.until - s.now else 0);
    var s1 := Apply(su, s, wait);
    var s2 := Apply(su, s1, Resume(q));
    end := Apply(su, s2, Send(q));
    LeadsNowhere(su, end, true, q);
    LeadsFirst(su, s2, Send(q), end, [], end, q);
    LeadsFirst(su, s1, Resume(q), s2, [Send(q)] + [], end, q);
    LeadsFirst(su, s, wait, s1, [Resume(q)] + ([Send(q)] + []), end, q);
    steps := [wait] + ([Resume(q)] + ([Send(q)] + []));
  }

  /** The call's next own step on the way to reading its slot. */
  lemma SurvivesOn(su: Setup, s: State, q: nat) returns (a: Action)
    requires Allocation(su, s) && Survives(su, s, q, false) && !s.calls[q].pc.Clearing? && !s.calls[q].pc.Sleeping?
    ensures Owner(a) == q && Enabled(su, s, a) && !Starts(a) && !a.ResolveStore?
    ensures var t := Apply(su, s, a);
            Survives(su, t, q, false) && t.closers == s.closers && Rank(t.calls[q].pc) < Rank(s.calls[q].pc)
  {
    a := Next(s, q);
  }

  lemma SurvivesSleep(su: Setup, s: State, q: nat) returns (wait: Action)
    requires Allocation(su, s) && Survives(su, s, q, false) && s.calls[q].pc.Sleeping?
    ensures wait.Tick? && Enabled(su, Apply(su, s, wait), Resume(q))
    ensures var t := Apply(su, Apply(su, s, wait), Resume(q));
            Survives(su, t, q, false) && t.closers == s.closers && Rank(t.calls[q].pc) < Rank(s.calls[q].pc)
  {
    wait := Tick(if s.calls[q].pc.until > s.now then s.calls[q].pc.until - s.now else 0);
  }

  lemma {:induction false} Drive(su: Setup, s: State, q: nat) returns (steps: seq<Action>, end: State)
    requires Allocation(su, s) && Survives(su, s, q, false)
    ensures Leads(su, s, steps, end, true, q) && Blocked(end, q) && end.closers == s.closers
    decreases Rank(s.calls[q].pc) + 7
  {
    if s.calls[q].pc.Clearing? {
      steps, end := ComesRound(su, s, q);
    } else if s.calls[q].pc.Sleeping? {
      var wait := SurvivesSleep(su, s, q);
      var s1 := Apply(su, s, wait);
      var s2 := Apply(su, s1, Resume(q));
      AllocationStep(su, s, wait);
      AllocationStep(su, s1, Resume(q));
      var rest;
      rest, end := Drive(su, s2, q);
      LeadsFirst(su, s1, Resume(q), s2, rest, end, q);
      LeadsFirst(su, s, wait, s1, [Resume(q)] + rest, end, q);
      steps := [wait] + ([Resume(q)] + rest);
    } else {
      var a := SurvivesOn(su, s, q);
      AllocationStep(su, s, a);
      var rest;
      rest, end := Drive(su, Apply(su, s, a), q);
      LeadsFirst(su, s, a, Apply(su, s, a), rest, end, q);
      steps := [a] + rest;
    }
  }

  // ---- the pump finishes the close, then delivers once more ----

  lemma LeadsAny(su: Setup, s: State, steps: seq<Action>, t: State, q: nat)
    requires Leads(su, s, steps, t, true, q)
    ensures Leads(su, s, steps, t, false, q)
  {
    AnyRun(su, s, steps, q);
  }

  lemma {:induction false} AnyRun(su: Setup, s: State, steps: seq<Action>, q: nat)
    requires PumpRun(su, s, steps, true, q)
    ensures PumpRun(su, s, steps, false, q)
    decreases |steps|
  {
    if steps != [] { AnyRun(su, Apply(su, s, steps[0]), steps[1..], q); }
  }

  /** What a close leaves alone: the calls, the clock, the registrations, and every event already set. */
  ghost predicate OnlyReleased(s: State, t: State) {
    && t.calls == s.calls && t.now == s.now && t.deliveries == s.deliveries
    && t.bridge.slots == s.bridge.slots && t.bridge.cells.Keys == s.bridge.cells.Keys
    && t.bridge.taken == s.bridge.taken && t.bridge.nextCallSeq == s.bridge.nextCallSeq
    && forall q: nat :: EventOn(s, q) ==> EventOn(t, q)
  }

  /** One whole visit. */
  lemma VisitOne(su: Setup, s: State, c: nat, q: nat) returns (steps: seq<Action>, end: State)
    requires Visiting(s, c) && s.closers[c].visit.Check?
    ensures Leads(su, s, steps, end, false, q) && OnlyReleased(s, end) && EventOn(end, s.closers[c].pending[0])
    ensures |end.closers| == |s.closers| && forall k :: 0 <= k < |s.closers| && k != c ==> end.closers[k] == s.closers[k]
    ensures end.closers[c].pending == s.closers[c].pending[1..] && end.closers[c].visit.Check?
    ensures |end.closers[c].visited| == |s.closers[c].visited| + 1
  {
    var p := s.closers[c].pending[0];
    var s1 := Apply(su, s, CloseCheck(c));
    if EventOn(s, p) {
      end := s1;
      LeadsNowhere(su, end, false, q);
      LeadsBy(su, s, CloseCheck(c), [], end, false, q);
      steps := [CloseCheck(c)] + [];
    } else {
      var s2 := Apply(su, s1, CloseStore(c));
      end := Apply(su, s2, CloseSet(c));
      LeadsNowhere(su, end, false, q);
      LeadsBy(su, s2, CloseSet(c), [], end, false, q);
      LeadsBy(su, s1, CloseStore(c), [CloseSet(c)] + [], end, false, q);
      LeadsBy(su, s, CloseCheck(c), [CloseStore(c)] + ([CloseSet(c)] + []), end, false, q);
      steps := [CloseCheck(c)] + ([CloseStore(c)] + ([CloseSet(c)] + []));
    }
  }

  /** The rest of a close, uninterrupted. */
  lemma {:induction false} FinishClose(su: Setup, s: State, c: nat, q: nat) returns (steps: seq<Action>, end: State)
    requires c < |s.closers| && s.closers[c].visit.Check? && Alone(s, c)
    requires forall i :: 0 <= i < |s.closers[c].pending| ==> s.closers[c].pending[i] in s.calls && s.closers[c].pending[i] in s.bridge.cells
    ensures Leads(su, s, steps, end, false, q) && OnlyReleased(s, end) && PumpIdle(end)
    ensures s.closers[c].pending != [] ==> EventOn(end, s.closers[c].pending[0])
    ensures c < |end.closers| && |end.closers[c].visited| == |s.closers[c].visited| + |s.closers[c].pending|
    decreases |s.closers[c].pending|
  {
    if s.closers[c].pending == [] {
      steps, end := [], s;
      LeadsNowhere(su, s, false, q);
    } else {
      var first, mid := VisitOne(su, s, c, q);
      var rest;
      rest, end := FinishClose(su, mid, c, q);
      LeadsOn(su, s, first, mid, rest, end, false, q);
      steps := first + rest;
    }
  }

  /** An idle pump delivers a one-millisecond `in_progress` to a registered call. */
  lemma Deliver(su: Setup, s: State, q: nat) returns (steps: seq<Action>, end: State)
    requires PumpIdle(s) && q in s.bridge.slots && q in s.bridge.cells
    ensures Leads(su, s, steps, end, false, q)
    ensures end.calls == s.calls && end.now == s.now && end.closers == s.closers
    ensures end.bridge == s.bridge.(cells := s.bridge.cells[q := Cell(true, Some(InProgress(Some(1))))])
  {
    var o, d := InProgress(Some(1)), |s.deliveries|;
    var s1 := Apply(su, s, Resolve(q, o));
    var s2 := Apply(su, s1, ResolveStore(d));
    end := Apply(su, s2, ResolveSet(d));
    LeadsNowhere(su, end, false, q);
    LeadsBy(su, s2, ResolveSet(d), [], end, false, q);
    LeadsBy(su, s1, ResolveStore(d), [ResolveSet(d)] + [], end, false, q);
    LeadsBy(su, s, Resolve(q, o), [ResolveStore(d)] + ([ResolveSet(d)] + []), end, false, q);
    steps := [Resolve(q, o)] + ([ResolveStore(d)] + ([ResolveSet(d)] + []));
  }

  /** With that in its slot, a call that had a round left survives without further help. */
  lemma DeliverThenDrive(su: Setup, s: State, q: nat) returns (steps: seq<Action>, end: State)
    requires Allocation(su, s) && PumpIdle(s) && q in s.bridge.slots && Survives(su, s, q, true)
    requires !s.calls[q].pc.Clearing? && !s.calls[q].pc.Dropping?
    ensures Leads(su, s, steps, end, false, q) && Blocked(end, q) && end.closers == s.closers
  {
    var first, mid := Deliver(su, s, q);
    AllocationSame(su, s, mid);
    var rest;
    rest, end := Drive(su, mid, q);
    LeadsAny(su, mid, rest, end, q);
    LeadsOn(su, s, first, mid, rest, end, false, q);
    steps := first + rest;
  }

  lemma AllocationSame(su: Setup, s: State, t: State)
    requires Allocation(su, s) && t.calls.Keys == s.calls.Keys && t.bridge.cells.Keys == s.bridge.cells.Keys
    requires t.bridge.taken == s.bridge.taken && t.bridge.nextCallSeq == s.bridge.nextCallSeq
    ensures Allocation(su, t)
  {
  }

  lemma DropThenDeliver(su: Setup, s: State, q: nat) returns (steps: seq<Action>, end: State)
    requires Allocation(su, s) && PumpIdle(s) && q in s.bridge.slots && Survives(su, s, q, true)
    requires !s.calls[q].pc.Clearing?
    ensures Leads(su, s, steps, end, false, q) && Blocked(end, q) && end.closers == s.closers
  {
    if s.calls[q].pc.Dropping? {
      var mid := Apply(su, s, Drop(q));
      AllocationStep(su, s, Drop(q));
      var rest;
      rest, end := DeliverThenDrive(su, mid, q);
      LeadsBy(su, s, Drop(q), rest, end, false, q);
      steps := [Drop(q)] + rest;
    } else {
      steps, end := DeliverThenDrive(su, s, q);
    }
  }

  // ---- the exact condition ----

  /** A run from the closer's check that ends, its visit done, with the call blocked. */
  ghost predicate Outlives(su: Setup, s: State, steps: seq<Action>, q: nat, c: nat, more: bool) {
    && c < |s.closers|
    && PumpRun(su, s, steps, !more, q) && Possible(su, s, steps)
    && c < |Exec(su, s, steps).closers| && |Exec(su, s, steps).closers[c].visited| > |s.closers[c].visited|
    && Blocked(Exec(su, s, steps), q)
  }

  /** Closer c is about to check the slot of q. */
  predicate Checking(s: State, q: nat, c: nat) {
    c < |s.closers| && s.closers[c].visit.Check? && s.closers[c].pending != [] && s.closers[c].pending[0] == q
  }

  lemma SurvivorOutlives(su: Setup, s: State, q: nat, c: nat, more: bool) returns (steps: seq<Action>)
    requires Inv(su, s) && OneThing(s) && Checking(s, q, c) && Survives(su, s, q, more)
    ensures Outlives(su, s, steps, q, c, more)
  {
    BusyCloserAlone(s, c);
    assert CloserHolds(s, s.closers[c]);
    assert EventHeld(s, q);
    if more && !s.calls[q].pc.Clearing? {
      steps := OutlivesByDelivery(su, s, q, c);
    } else {
      steps := OutlivesQuietly(su, s, q, c, more);
    }
  }

  lemma OutlivesQuietly(su: Setup, s: State, q: nat, c: nat, more: bool) returns (steps: seq<Action>)
    requires Allocation(su, s) && Checking(s, q, c) && q in s.bridge.cells && EventOn(s, q)
    requires Survives(su, s, q, false)
    ensures Outlives(su, s, steps, q, c, more)
  {
    var s1 := Apply(su, s, CloseCheck(c));
    AllocationStep(su, s, CloseCheck(c));
    var rest, end := Drive(su, s1, q);
    LeadsFirst(su, s, CloseCheck(c), s1, rest, end, q);
    steps := [CloseCheck(c)] + rest;
    LeadsAny(su, s, steps, end, q);
  }

  lemma OutlivesByDelivery(su: Setup, s: State, q: nat, c: nat) returns (steps: seq<Action>)
    requires Allocation(su, s) && Registration(s) && Alone(s, c) && Checking(s, q, c) && CloserHolds(s, s.closers[c])
    requires Survives(su, s, q, true) && !s.calls[q].pc.Clearing?
    ensures Outlives(su, s, steps, q, c, true)
  {
    var first, mid := FinishClose(su, s, c, q);
    AllocationSame(su, s, mid);
    var rest, end := DropThenDeliver(su, mid, q);
    LeadsOn(su, s, first, mid, rest, end, false, q);
    steps := first + rest;
  }

  /** At a check without hope, the call is doomed or its event is about to be found unset. */
  lemma StartHopeless(su: Setup, s: State, q: nat, c: nat, more: bool)
    requires Allocation(su, s) && Alone(s, c) && Checking(s, q, c) && q in s.calls && EventHeld(s, q)
    requires !Survives(su, s, q, more)
    ensures Hopeless(su, s, q, c, |s.closers[c].visited|, more)
  {
  }

  lemma OutlivingSurvives(su: Setup, s: State, steps: seq<Action>, q: nat, c: nat, more: bool)
    requires Inv(su, s) && OneThing(s) && Checking(s, q, c) && Outlives(su, s, steps, q, c, more)
    ensures Survives(su, s, q, more)
  {
    if !Survives(su, s, q, more) {
      var n := |s.closers[c].visited|;
      BusyCloserAlone(s, c);
      assert CloserHolds(s, s.closers[c]);
      assert EventHeld(s, q);
      StartHopeless(su, s, q, c, more);
      HopelessRun(su, s, steps, q, c, n, more);
      HopelessNotBlocked(su, Exec(su, s, steps), q, c, n, more);
    }
  }

  lemma HopelessNotBlocked(su: Setup, t: State, q: nat, c: nat, n: nat, more: bool)
    requires Hopeless(su, t, q, c, n, more) && c < |t.closers| && |t.closers[c].visited| > n
    ensures !Blocked(t, q)
  {
  }

  /**
   * In every run of the program that reaches a closer's check of a slot: some continuation leaves the
   * call blocked after that visit exactly when the condition holds at the check. With `more` false the
   * continuations deliver nothing more to the call, with `more` true they may.
   */
  lemma CloseExact(su: Setup, before: seq<Action>, q: nat, c: nat, more: bool)
    requires PumpRun(su, INITIAL, before, false, q) && Possible(su, INITIAL, before)
    requires Checking(Exec(su, INITIAL, before), q, c)
    ensures var s := Exec(su, INITIAL, before);
            (exists steps :: Outlives(su, s, steps, q, c, more)) <==> Survives(su, s, q, more)
  {
    var s := Exec(su, INITIAL, before);
    InvInitial(su);
    InvRun(su, INITIAL, before);
    assert Alone(INITIAL, -1);
    OneThingRun(su, INITIAL, before, false, q);
    if Survives(su, s, q, more) {
      var steps := SurvivorOutlives(su, s, q, c, more);
    } else if steps :| Outlives(su, s, steps, q, c, more) {
      OutlivingSurvives(su, s, steps, q, c, more);
    }
  }

  /** A run in which close starts while the first call waits. */
  lemma CloseDuringWait(su: Setup, call: HandlerCall) returns (before: seq<Action>, s: State)
    requires Closed(su.world.heap) && RefOk(su.world.heap, call.args) && GatesPass(su.world, call)
    requires su.lim.maxToolCalls >= 1
    ensures Leads(su, INITIAL, before, s, false, 0) && s.now == 0
    ensures s.calls == map[0 := Call(call, Waiting(0))] && s.bridge.cells == map[0 := Cell(false, None)]
    ensures s.closers == [Closer("run_not_authorized", [0], Check, [])] && s.deliveries == []
  {
    var s1 := Apply(su, INITIAL, Handle(call));
    var s2 := Apply(su, s1, Send(0));
    var stop := CloseStart("run_not_authorized");
    s := Apply(su, s2, stop);
    assert EMPTY.slots + [0] == [0] && EMPTY.taken + [0] == [0];
    LeadsNowhere(su, s, false, 0);
    LeadsBy(su, s2, stop, [], s, false, 0);
    LeadsBy(su, s1, Send(0), [stop] + [], s, false, 0);
    LeadsBy(su, INITIAL, Handle(call), [Send(0)] + ([stop] + []), s, false, 0);
    before := [Handle(call)] + ([Send(0)] + ([stop] + []));
  }

  /**
   * A slot that is empty when close runs is not safe either: close finishes, then an `in_progress` is
   * delivered before the call wakes. Without that delivery the call is released.
   */
  lemma EmptySlotCanSurvive(su: Setup, call: HandlerCall) returns (before: seq<Action>, after: seq<Action>)
    requires Closed(su.world.heap) && RefOk(su.world.heap, call.args) && GatesPass(su.world, call)
    requires su.lim.maxToolCalls >= 1 && CanRetry(su, 0, 0, Some(1))
    ensures PumpRun(su, INITIAL, before, false, 0) && Possible(su, INITIAL, before)
    ensures var s := Exec(su, INITIAL, before);
            && Checking(s, 0, 0) && s.bridge.cells == map[0 := Cell(false, None)]
            && Outlives(su, s, after, 0, 0, true)
            && !Survives(su, s, 0, false)
  {
    var s;
    before, s := CloseDuringWait(su, call);
    InvInitial(su);
    InvRun(su, INITIAL, before);
    assert Alone(s, 0);
    after := SurvivorOutlives(su, s, 0, 0, true);
  }
}
