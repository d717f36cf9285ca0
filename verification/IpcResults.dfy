/** The guarantees of the IPC client over whole runs. */
module IpcResults {
  import opened CanonicalEncoder
  import opened BridgeTools
  import opened IpcBridge
  import opened IpcRuns
  import opened IpcSafety

  // ---- splitting runs ----

  lemma {:induction false} PossibleSnoc(su: Setup, s: State, steps: seq<Action>, a: Action)
    requires Possible(su, s, steps) && Enabled(su, Exec(su, s, steps), a)
    ensures Possible(su, s, steps + [a])
    ensures Exec(su, s, steps + [a]) == Apply(su, Exec(su, s, steps), a)
    decreases |steps|
  {
    if steps == [] {
      assert (steps + [a])[1..] == [];
    } else {
      assert (steps + [a])[1..] == steps[1..] + [a];
      PossibleSnoc(su, Apply(su, s, steps[0]), steps[1..], a);
    }
  }

  // ---- wire discipline ----

  /** Allocated call_seqs are exactly 0..n-1, within both budgets. */
  lemma SeqsAllocated(su: Setup, steps: seq<Action>)
    requires Possible(su, INITIAL, steps)
    ensures var b := Exec(su, INITIAL, steps).bridge;
            && (forall i :: 0 <= i < |b.taken| ==> b.taken[i] == i)
            && (b.taken == [] || (|b.taken| <= su.lim.maxToolCalls && |b.taken| <= su.lim.maxCallSeq + 1))
  {
    InvInitial(su);
    InvRun(su, INITIAL, steps);
  }

  /** After a close no call_seq is ever allocated. */
  lemma {:induction false} ClosedForever(su: Setup, s: State, steps: seq<Action>)
    requires Inv(su, s) && s.bridge.closed && Possible(su, s, steps)
    ensures Exec(su, s, steps).bridge.closed && Exec(su, s, steps).bridge.taken == s.bridge.taken
    decreases |steps|
  {
    if steps != [] {
      AllocationStep(su, s, steps[0]);
      InvStep(su, s, steps[0]);
      ClosedForever(su, Apply(su, s, steps[0]), steps[1..]);
    }
  }

  /** Every line of one call_seq is the same line, there are at most 65 of them, and the handler call
      behind it had the binding's task_id, an allowed name and accepted arguments. */
  lemma WireDiscipline(su: Setup, steps: seq<Action>, i: nat, j: nat)
    requires Possible(su, INITIAL, steps)
    requires i < |Exec(su, INITIAL, steps).wire| && j < |Exec(su, INITIAL, steps).wire|
    requires Exec(su, INITIAL, steps).wire[i].callSeq == Exec(su, INITIAL, steps).wire[j].callSeq
    ensures var t := Exec(su, INITIAL, steps);
            && t.wire[i] == t.wire[j]
            && LineCount(t.wire, t.wire[i].callSeq) <= 65
            && t.wire[i].callSeq in t.calls
            && var origin := t.calls[t.wire[i].callSeq].origin;
               && Closed(su.world.heap) && RefOk(su.world.heap, origin.args)
               && GatesPass(su.world, origin) && t.wire[i].request == RequestOf(origin)
  {
    InvInitial(su);
    InvRun(su, INITIAL, steps);
    var t := Exec(su, INITIAL, steps);
    assert LineOk(t, t.wire[i]) && LineOk(t, t.wire[j]);
    assert OriginOk(su, t.calls[t.wire[i].callSeq]);
    assert CountOk(t.calls[t.wire[i].callSeq].pc, LineCount(t.wire, t.wire[i].callSeq));
  }

  // ---- routing ----

  /** In the run, action i gave o to call q while q was registered. */
  ghost predicate GivenAt(su: Setup, s: State, steps: seq<Action>, i: nat, q: nat, o: Outcome) {
    && i < |steps| && steps[i] == Resolve(q, o)
    && Possible(su, s, steps[..i])
    && q in Exec(su, s, steps[..i]).bridge.slots
  }

  lemma {:induction false} DeliveryOrigin(su: Setup, s: State, steps: seq<Action>, d: nat)
    requires Possible(su, s, steps) && |s.deliveries| <= d < |Exec(su, s, steps).deliveries|
    ensures var given := Exec(su, s, steps).deliveries[d];
            exists i: nat :: GivenAt(su, s, steps, i, given.callSeq, given.outcome)
    decreases |steps|
  {
    var a := steps[0];
    var s1 := Apply(su, s, a);
    var given := Exec(su, s, steps).deliveries[d];
    if d < |s1.deliveries| {
      DeliveryKept(su, s1, steps[1..], d);
      assert steps[..0] == [];
      assert GivenAt(su, s, steps, 0, given.callSeq, given.outcome);
    } else {
      DeliveryOrigin(su, s1, steps[1..], d);
      var i: nat :| GivenAt(su, s1, steps[1..], i, given.callSeq, given.outcome);
      assert steps[..i + 1][0] == a && steps[..i + 1][1..] == steps[1..][..i];
      assert GivenAt(su, s, steps, i + 1, given.callSeq, given.outcome);
    }
  }

  lemma {:induction false} DeliveryKept(su: Setup, s: State, steps: seq<Action>, d: nat)
    requires Possible(su, s, steps) && d < |s.deliveries|
    ensures d < |Exec(su, s, steps).deliveries|
    ensures Exec(su, s, steps).deliveries[d].callSeq == s.deliveries[d].callSeq
    ensures Exec(su, s, steps).deliveries[d].outcome == s.deliveries[d].outcome
    decreases |steps|
  {
    if steps != [] {
      DeliveryKept(su, Apply(su, s, steps[0]), steps[1..], d);
    }
  }

  /** A call that returns a result returns one that `resolve` was given for its own call_seq while
      its slot was registered. */
  lemma ResultRouted(su: Setup, steps: seq<Action>, q: nat)
    requires Possible(su, INITIAL, steps)
    requires q in Exec(su, INITIAL, steps).calls
    requires Exec(su, INITIAL, steps).calls[q].pc.Done? && Exec(su, INITIAL, steps).calls[q].pc.reply.Replied?
    ensures exists i: nat :: GivenAt(su, INITIAL, steps, i, q, Result(Exec(su, INITIAL, steps).calls[q].pc.reply.payload))
  {
    InvInitial(su);
    InvRun(su, INITIAL, steps);
    var t := Exec(su, INITIAL, steps);
    assert PcRouted(t, q, t.calls[q].pc);
    var d :| 0 <= d < |t.deliveries| && t.deliveries[d].callSeq == q && t.deliveries[d].outcome == Result(t.calls[q].pc.reply.payload);
    DeliveryOrigin(su, INITIAL, steps, d);
  }

  /** `resolve` returns True exactly for a live call; otherwise it returns False and changes nothing. */
  lemma ResolveUnknown(su: Setup, steps: seq<Action>, q: nat, o: Outcome)
    requires Possible(su, INITIAL, steps)
    ensures var t := Exec(su, INITIAL, steps);
            && (Finds(t.bridge, q) <==> q in t.calls && !t.calls[q].pc.Done?)
            && (!Finds(t.bridge, q) ==> Apply(su, t, Resolve(q, o)) == t)
  {
    InvInitial(su);
    InvRun(su, INITIAL, steps);
  }

  /** Registered slots are allocated call_seqs, one for each live call. */
  lemma SlotsAreLiveCalls(su: Setup, steps: seq<Action>, q: nat)
    requires Possible(su, INITIAL, steps)
    ensures var t := Exec(su, INITIAL, steps);
            && (q in t.bridge.slots ==> q in t.bridge.taken)
            && (q in t.bridge.slots <==> q in t.calls && !t.calls[q].pc.Done?)
            && NoDup(t.bridge.slots)
  {
    InvInitial(su);
    InvRun(su, INITIAL, steps);
    var t := Exec(su, INITIAL, steps);
    if q in t.bridge.slots { assert t.bridge.taken[q] == q; }
  }

  // ---- every invocation is finite ----

  function Owner(a: Action): int {
    match a
    case Send(q) => q
    case SendFails(q) => q
    case Wake(q) => q
    case TimeOut(q) => q
    case Read(q) => q
    case Clear(q) => q
    case Drop(q) => q
    case Pause(q) => q
    case Resume(q) => q
    case Leave(q) => q
    case _ => -1
  }

  function Rank(pc: Pc): int {
    match pc
    case Sending(r) => 7 * (64 - r) + 8
    case Waiting(r) => 7 * (64 - r) + 7
    case Woken(r) => 7 * (64 - r) + 6
    case Clearing(r, _) => 7 * (64 - r) + 5
    case Dropping(r, _) => 7 * (64 - r) + 4
    case Pausing(r, _) => 7 * (64 - r) + 3
    case Sleeping(r, _) => 7 * (64 - r) + 2
    case Leaving(_) => 1
    case Done(_) => 0
  }

  const LONGEST: int := 7 * 64 + 8

  function RankIn(s: State, q: nat): int { if q in s.calls then Rank(s.calls[q].pc) else LONGEST }

  /** Only its own steps move a call. */
  lemma OthersUntouched(su: Setup, s: State, a: Action, q: nat)
    requires Allocation(su, s) && Enabled(su, s, a) && Owner(a) != q
    ensures q in s.calls ==> q in Apply(su, s, a).calls && Apply(su, s, a).calls[q] == s.calls[q]
    ensures q !in s.calls && q in Apply(su, s, a).calls ==> Apply(su, s, a).calls[q].pc == Sending(0)
  {
  }

  lemma OwnStepDescends(su: Setup, s: State, a: Action, q: nat)
    requires Enabled(su, s, a) && Owner(a) == q && q in s.calls
    requires 0 <= Rank(s.calls[q].pc)
    requires CountOk(s.calls[q].pc, LineCount(s.wire, q))
    ensures q in Apply(su, s, a).calls && Rank(Apply(su, s, a).calls[q].pc) < Rank(s.calls[q].pc)
  {
  }

  lemma RankStep(su: Setup, s: State, a: Action, q: nat)
    requires Inv(su, s) && Enabled(su, s, a)
    ensures 0 <= RankIn(s, q) <= LONGEST
    ensures RankIn(Apply(su, s, a), q) <= RankIn(s, q) - (if Owner(a) == q then 1 else 0)
  {
    if q in s.calls { assert CountOk(s.calls[q].pc, LineCount(s.wire, q)); }
    if Owner(a) == q {
      OwnStepDescends(su, s, a, q);
    } else {
      OthersUntouched(su, s, a, q);
    }
  }

  function OwnSteps(steps: seq<Action>, q: nat): nat {
    if steps == [] then 0 else (if Owner(steps[0]) == q then 1 else 0) + OwnSteps(steps[1..], q)
  }

  lemma {:induction false} OwnStepsRank(su: Setup, s: State, steps: seq<Action>, q: nat)
    requires Inv(su, s) && Possible(su, s, steps)
    ensures OwnSteps(steps, q) <= RankIn(s, q) - RankIn(Exec(su, s, steps), q)
    decreases |steps|
  {
    if steps != [] {
      RankStep(su, s, steps[0], q);
      InvStep(su, s, steps[0]);
      OwnStepsRank(su, Apply(su, s, steps[0]), steps[1..], q);
    }
  }

  /** No invocation takes more than 456 steps, however the other threads run. */
  lemma InvocationFinite(su: Setup, steps: seq<Action>, q: nat)
    requires Possible(su, INITIAL, steps)
    ensures OwnSteps(steps, q) <= 456
  {
    InvInitial(su);
    InvRun(su, INITIAL, steps);
    OwnStepsRank(su, INITIAL, steps, q);
    RankStep(su, Exec(su, INITIAL, steps), Tick(0), q);
  }

  // ---- blocking ----

  predicate Live(s: State, q: nat) { q in s.calls && !s.calls[q].pc.Done? }

  /** In `event.wait` with the event unset. */
  predicate Blocked(s: State, q: nat) {
    q in s.calls && s.calls[q].pc.Waiting? && q in s.bridge.cells && !s.bridge.cells[q].event
  }

  /** The step that a call can take next on its own, if any. */
  function Next(s: State, q: nat): Action
    requires q in s.calls
  {
    match s.calls[q].pc
    case Sending(_) => Send(q)
    case Waiting(_) => if q in s.bridge.cells && s.bridge.cells[q].event then Wake(q) else TimeOut(q)
    case Woken(_) => Read(q)
    case Clearing(_, _) => Clear(q)
    case Dropping(_, _) => Drop(q)
    case Pausing(_, _) => Pause(q)
    case Sleeping(_, _) => Resume(q)
    case Leaving(_) => Leave(q)
    case Done(_) => Tick(0)
  }

  /** A live call can move unless it is blocked or asleep; past the deadline it can always move. */
  lemma LiveCallMoves(su: Setup, steps: seq<Action>, q: nat)
    requires Possible(su, INITIAL, steps)
    requires Live(Exec(su, INITIAL, steps), q)
    ensures var t := Exec(su, INITIAL, steps);
            && (!Blocked(t, q) && !t.calls[q].pc.Sleeping? ==> Enabled(su, t, Next(t, q)))
            && (t.calls[q].pc.Sleeping? && t.now >= t.calls[q].pc.until ==> Enabled(su, t, Next(t, q)))
            && (su.lim.deadline.Some? && t.now >= su.lim.deadline.value ==> Enabled(su, t, Next(t, q)))
            && Owner(Next(t, q)) == q
  {
    InvInitial(su);
    InvRun(su, INITIAL, steps);
    CanMove(su, Exec(su, INITIAL, steps), q);
  }

  lemma CanMove(su: Setup, t: State, q: nat)
    requires Allocation(su, t) && Timely(su, t) && Live(t, q)
    ensures !Blocked(t, q) && !t.calls[q].pc.Sleeping? ==> Enabled(su, t, Next(t, q))
    ensures t.calls[q].pc.Sleeping? && t.now >= t.calls[q].pc.until ==> Enabled(su, t, Next(t, q))
    ensures su.lim.deadline.Some? && t.now >= su.lim.deadline.value ==> Enabled(su, t, Next(t, q))
    ensures Owner(Next(t, q)) == q
  {
  }

  // ---- release by close ----

  /** Once a closer is done with a slot, its call can only be blocked if it has cleared its event
      again since the closer's check. */
  lemma ReleasedUnlessCleared(su: Setup, steps: seq<Action>, c: nat, i: nat)
    requires Possible(su, INITIAL, steps)
    requires c < |Exec(su, INITIAL, steps).closers| && i < |Exec(su, INITIAL, steps).closers[c].visited|
    ensures var t := Exec(su, INITIAL, steps);
            var (q, clears) := t.closers[c].visited[i];
            Blocked(t, q) ==> Clears(t.calls[q].pc) > clears
  {
    InvInitial(su);
    InvRun(su, INITIAL, steps);
    var t := Exec(su, INITIAL, steps);
    assert CloserHolds(t, t.closers[c]);
    assert VisitHolds(t, t.closers[c].visited[i]);
  }

  /** The slot of q holds an `in_progress` that its call has yet to consume: unread, or read and not
      yet cleared. */
  predicate Retrying(s: State, q: nat) {
    && q in s.calls && q in s.bridge.cells
    && var pc := s.calls[q].pc;
       pc.Clearing? || (!pc.Dropping? && !Finished(pc) && HoldsInProgress(s, q))
  }

  /** No delivery stores into q's slot during the run. */
  ghost predicate Quiet(su: Setup, s: State, steps: seq<Action>, q: nat)
    requires Possible(su, s, steps)
    decreases |steps|
  {
    steps != [] ==>
      && !(steps[0].ResolveStore? && s.deliveries[steps[0].d].callSeq == q)
      && Quiet(su, Apply(su, s, steps[0]), steps[1..], q)
  }

  predicate HoldsInProgress(s: State, q: nat) {
    q in s.bridge.cells && s.bridge.cells[q].outcome.Some? && s.bridge.cells[q].outcome.value.InProgress?
  }

  /** Only a delivery puts an `in_progress` into a slot. */
  lemma CellQuiet(su: Setup, s: State, a: Action, q: nat)
    requires Allocation(su, s) && q in s.calls && Enabled(su, s, a)
    requires !(a.ResolveStore? && s.deliveries[a.d].callSeq == q)
    ensures HoldsInProgress(Apply(su, s, a), q) ==> HoldsInProgress(s, q) && a != Drop(q)
  {
  }

  lemma QuietStep(su: Setup, s: State, a: Action, q: nat)
    requires Allocation(su, s) && q in s.calls && Enabled(su, s, a)
    requires !(a.ResolveStore? && s.deliveries[a.d].callSeq == q)
    requires !Retrying(s, q)
    ensures var t := Apply(su, s, a);
            && q in t.calls && !Retrying(t, q)
            && (Finished(t.calls[q].pc) || Clears(t.calls[q].pc) == Clears(s.calls[q].pc))
            && (Finished(s.calls[q].pc) ==> Finished(t.calls[q].pc))
  {
    CellQuiet(su, s, a, q);
    if Owner(a) == q {
      OwnQuietStep(su, s, a, q);
    } else {
      OthersUntouched(su, s, a, q);
    }
  }

  lemma OwnQuietStep(su: Setup, s: State, a: Action, q: nat)
    requires q in s.calls && q in s.bridge.cells && Enabled(su, s, a) && Owner(a) == q && !Retrying(s, q)
    ensures q in Apply(su, s, a).calls
    ensures var pc, pc' := s.calls[q].pc, Apply(su, s, a).calls[q].pc;
            && !pc'.Clearing? && !pc'.Dropping?
            && (pc.Dropping? ==> a == Drop(q))
            && (Finished(pc') || Clears(pc') == Clears(pc))
            && (Finished(pc) ==> Finished(pc'))
  {
  }

  lemma {:induction false} QuietRun(su: Setup, s: State, steps: seq<Action>, q: nat)
    requires Inv(su, s) && q in s.calls && Possible(su, s, steps) && Quiet(su, s, steps, q)
    requires !Retrying(s, q)
    ensures var t := Exec(su, s, steps);
            && Inv(su, t) && q in t.calls
            && (Finished(t.calls[q].pc) || Clears(t.calls[q].pc) == Clears(s.calls[q].pc))
            && (Finished(s.calls[q].pc) ==> Finished(t.calls[q].pc))
    decreases |steps|
  {
    if steps != [] {
      QuietStep(su, s, steps[0], q);
      InvStep(su, s, steps[0]);
      QuietRun(su, Apply(su, s, steps[0]), steps[1..], q);
    }
  }

  /** In any interleaving at all: with no delivery storing into the slot after the closer's check (state s),
      the call survives the visit unreleased only if at the check the slot held an unconsumed `in_progress`. */
  lemma CloseReleases(su: Setup, s: State, steps: seq<Action>, q: nat, c: nat)
    requires Inv(su, s) && q in s.calls && Possible(su, s, steps) && Quiet(su, s, steps, q)
    requires c < |Exec(su, s, steps).closers|
    requires (q, Clears(s.calls[q].pc)) in Exec(su, s, steps).closers[c].visited
    ensures Blocked(Exec(su, s, steps), q) ==> Retrying(s, q)
  {
    if !Retrying(s, q) {
      QuietRun(su, s, steps, q);
      var t := Exec(su, s, steps);
      var k := t.closers[c];
      assert CloserHolds(t, k);
      var i :| 0 <= i < |k.visited| && k.visited[i] == (q, Clears(s.calls[q].pc));
      assert VisitHolds(t, k.visited[i]);
    }
  }
}
