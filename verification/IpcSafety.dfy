/** What holds in every reachable state of every interleaving. */
module IpcSafety {
  import opened CanonicalEncoder
  import opened BridgeTools
  import opened IpcBridge
  import opened IpcRuns

  // ---- allocation ----

  ghost predicate Allocation(su: Setup, s: State) {
    var b := s.bridge;
    && |b.taken| == b.nextCallSeq
    && (forall i :: 0 <= i < |b.taken| ==> b.taken[i] == i)
    && (b.nextCallSeq == 0 || (b.nextCallSeq <= su.lim.maxToolCalls && b.nextCallSeq <= su.lim.maxCallSeq + 1))
    && (forall q: nat :: q in s.calls <==> q < b.nextCallSeq)
    && (forall q: nat :: q in b.cells <==> q < b.nextCallSeq)
  }

  lemma AllocationStep(su: Setup, s: State, step: Action)
    requires Allocation(su, s) && Enabled(su, s, step)
    ensures Allocation(su, Apply(su, s, step))
    ensures s.bridge.taken <= Apply(su, s, step).bridge.taken
    ensures s.bridge.closed ==> Apply(su, s, step).bridge.closed && Apply(su, s, step).bridge.taken == s.bridge.taken
  {
  }

  // ---- registration ----

  /** A slot is registered exactly while its call is live. */
  ghost predicate Registration(s: State) {
    && NoDup(s.bridge.slots)
    && (forall q: nat :: q in s.bridge.slots <==> q in s.calls && !s.calls[q].pc.Done?)
  }

  lemma RegistrationStep(su: Setup, s: State, step: Action)
    requires Allocation(su, s) && Registration(s) && Enabled(su, s, step)
    ensures Registration(Apply(su, s, step))
  {
    match step
    case Leave(q) => WithoutMembers(s.bridge.slots, q);
    case Handle(call) =>
      assert s.bridge.nextCallSeq !in s.calls;
      RegisterOne(s.bridge.slots, s.bridge.nextCallSeq);
    case _ =>
  }

  // ---- routing ----

  /** Some `resolve` gave o for call q while q was registered. */
  ghost predicate Given(s: State, q: nat, o: Outcome) {
    exists d :: 0 <= d < |s.deliveries| && s.deliveries[d].callSeq == q && s.deliveries[d].outcome == o
  }

  ghost predicate FromCloser(s: State, o: Outcome) {
    exists c :: 0 <= c < |s.closers| && o == Refused(s.closers[c].code)
  }

  ghost predicate ReplyRouted(s: State, q: nat, r: Reply) {
    match r
    case Replied(p) => Given(s, q, Result(p))
    case Refusal(code) =>
      code == "effect_unknown" || code == "protocol_error" || Given(s, q, Refused(code)) || FromCloser(s, Refused(code))
    case Raised => true
  }

  ghost predicate PcRouted(s: State, q: nat, pc: Pc) {
    match pc
    case Clearing(_, delay) => Given(s, q, InProgress(delay))
    case Dropping(_, delay) => Given(s, q, InProgress(delay))
    case Pausing(_, delay) => Given(s, q, InProgress(delay))
    case Leaving(r) => ReplyRouted(s, q, r)
    case Done(r) => ReplyRouted(s, q, r)
    case _ => true
  }

  ghost predicate CellRouted(s: State, q: nat, cell: Cell) {
    cell.outcome.Some? ==> Given(s, q, cell.outcome.value) || FromCloser(s, cell.outcome.value)
  }

  ghost predicate Routing(s: State) {
    && (forall q :: q in s.bridge.cells ==> CellRouted(s, q, s.bridge.cells[q]))
    && (forall q :: q in s.calls ==> PcRouted(s, q, s.calls[q].pc))
  }

  /** What was given stays given, and closers are never forgotten. */
  lemma HistoryGrows(su: Setup, s: State, step: Action)
    requires Enabled(su, s, step)
    ensures forall q, o :: Given(s, q, o) ==> Given(Apply(su, s, step), q, o)
    ensures forall o :: FromCloser(s, o) ==> FromCloser(Apply(su, s, step), o)
  {
    var t := Apply(su, s, step);
    assert |t.deliveries| >= |s.deliveries|;
    assert forall d :: 0 <= d < |s.deliveries| ==>
        t.deliveries[d].callSeq == s.deliveries[d].callSeq && t.deliveries[d].outcome == s.deliveries[d].outcome;
    assert |t.closers| >= |s.closers|;
    assert forall c :: 0 <= c < |s.closers| ==> t.closers[c].code == s.closers[c].code;
    forall q, o | Given(s, q, o) ensures Given(t, q, o) {
      var d :| 0 <= d < |s.deliveries| && s.deliveries[d].callSeq == q && s.deliveries[d].outcome == o;
      assert t.deliveries[d].callSeq == q && t.deliveries[d].outcome == o;
    }
    forall o | FromCloser(s, o) ensures FromCloser(t, o) {
      var c :| 0 <= c < |s.closers| && o == Refused(s.closers[c].code);
      assert o == Refused(t.closers[c].code);
    }
  }

  lemma PcRoutedLater(s: State, t: State, q: nat, pc: Pc)
    requires forall o :: Given(s, q, o) ==> Given(t, q, o)
    requires forall o :: FromCloser(s, o) ==> FromCloser(t, o)
    requires PcRouted(s, q, pc)
    ensures PcRouted(t, q, pc)
  {
  }

  lemma RoutingStep(su: Setup, s: State, step: Action)
    requires Allocation(su, s) && Routing(s) && Enabled(su, s, step)
    ensures Routing(Apply(su, s, step))
  {
    var t := Apply(su, s, step);
    HistoryGrows(su, s, step);
    forall q | q in t.bridge.cells ensures CellRouted(t, q, t.bridge.cells[q]) {
      RoutingCell(su, s, step, q);
    }
    forall q | q in t.calls ensures PcRouted(t, q, t.calls[q].pc) {
      RoutingCall(su, s, step, q);
    }
  }

  lemma RoutingCell(su: Setup, s: State, step: Action, q: nat)
    requires Allocation(su, s) && Routing(s) && Enabled(su, s, step)
    requires q in Apply(su, s, step).bridge.cells
    ensures CellRouted(Apply(su, s, step), q, Apply(su, s, step).bridge.cells[q])
  {
    var t := Apply(su, s, step);
    HistoryGrows(su, s, step);
    if q in s.bridge.cells { assert CellRouted(s, q, s.bridge.cells[q]); }
    match step
    case ResolveStore(d) =>
      if q == s.deliveries[d].callSeq {
        assert t.deliveries[d].callSeq == q && t.deliveries[d].outcome == s.deliveries[d].outcome;
        assert Given(t, q, s.deliveries[d].outcome);
      }
    case CloseStore(c) =>
      if q == s.closers[c].pending[0] {
        assert t.closers[c].code == s.closers[c].code;
        assert FromCloser(t, Refused(s.closers[c].code));
      }
    case _ =>
  }

  lemma RoutingCall(su: Setup, s: State, step: Action, q: nat)
    requires Allocation(su, s) && Routing(s) && Enabled(su, s, step)
    requires q in Apply(su, s, step).calls
    ensures PcRouted(Apply(su, s, step), q, Apply(su, s, step).calls[q].pc)
  {
    var t := Apply(su, s, step);
    HistoryGrows(su, s, step);
    if q in s.calls && t.calls[q].pc == s.calls[q].pc {
      PcRoutedLater(s, t, q, s.calls[q].pc);
    } else if q in s.calls {
      assert PcRouted(s, q, s.calls[q].pc);
      if step == Read(q) { assert CellRouted(s, q, s.bridge.cells[q]); }
    }
  }

  // ---- wire discipline ----

  function LineCount(wire: seq<Line>, q: nat): nat {
    if wire == [] then 0
    else LineCount(wire[..|wire| - 1], q) + (if wire[|wire| - 1].callSeq == q then 1 else 0)
  }

  predicate LineOk(s: State, l: Line) {
    l.callSeq in s.calls && l.request == RequestOf(s.calls[l.callSeq].origin)
  }

  /** Lines written by a call that is at this point of its loop. */
  predicate CountOk(pc: Pc, n: nat) {
    match pc
    case Sending(r) => n == r && r <= MAX_IN_PROGRESS_RETRIES
    case Waiting(r) => n == r + 1 && r <= MAX_IN_PROGRESS_RETRIES
    case Woken(r) => n == r + 1 && r <= MAX_IN_PROGRESS_RETRIES
    case Clearing(r, _) => n == r + 1 && r <= MAX_IN_PROGRESS_RETRIES
    case Dropping(r, _) => n == r + 1 && r <= MAX_IN_PROGRESS_RETRIES
    case Pausing(r, _) => n == r + 1 && r <= MAX_IN_PROGRESS_RETRIES
    case Sleeping(r, _) => n == r + 1 && r <= MAX_IN_PROGRESS_RETRIES
    case _ => n <= MAX_IN_PROGRESS_RETRIES + 1
  }

  ghost predicate OriginOk(su: Setup, c: Call) {
    Closed(su.world.heap) && RefOk(su.world.heap, c.origin.args) && GatesPass(su.world, c.origin)
  }

  ghost predicate Wire(su: Setup, s: State) {
    && (forall i :: 0 <= i < |s.wire| ==> LineOk(s, s.wire[i]))
    && (forall q :: q in s.calls ==> CountOk(s.calls[q].pc, LineCount(s.wire, q)))
    && (forall q :: q in s.calls ==> OriginOk(su, s.calls[q]))
  }

  lemma {:induction false} NoLines(wire: seq<Line>, q: nat)
    requires forall i :: 0 <= i < |wire| ==> wire[i].callSeq != q
    ensures LineCount(wire, q) == 0
  {
    if wire != [] { NoLines(wire[..|wire| - 1], q); }
  }

  lemma LineCountSnoc(wire: seq<Line>, l: Line, q: nat)
    ensures LineCount(wire + [l], q) == LineCount(wire, q) + (if l.callSeq == q then 1 else 0)
  {
    assert (wire + [l])[..|wire|] == wire;
  }

  /** Lines already written stay right: calls keep their origin. */
  lemma LinesStay(su: Setup, s: State, step: Action)
    requires Allocation(su, s) && Enabled(su, s, step)
    requires forall i :: 0 <= i < |s.wire| ==> LineOk(s, s.wire[i])
    ensures forall i :: 0 <= i < |s.wire| ==> LineOk(Apply(su, s, step), s.wire[i])
    ensures forall q :: q in s.calls ==> q in Apply(su, s, step).calls && Apply(su, s, step).calls[q].origin == s.calls[q].origin
    ensures Apply(su, s, step).wire ==
            if step.Send? then s.wire + [Line(step.q, RequestOf(s.calls[step.q].origin))] else s.wire
  {
  }

  lemma CountStep(su: Setup, s: State, step: Action, q: nat)
    requires Allocation(su, s) && Enabled(su, s, step)
    requires q in s.calls && CountOk(s.calls[q].pc, LineCount(s.wire, q))
    ensures q in Apply(su, s, step).calls
    ensures CountOk(Apply(su, s, step).calls[q].pc, LineCount(Apply(su, s, step).wire, q))
  {
    if step.Send? {
      LineCountSnoc(s.wire, Line(step.q, RequestOf(s.calls[step.q].origin)), q);
      SendCounts(su, s, step, q, LineCount(s.wire, q));
    } else {
      WireSame(su, s, step);
      PcCounts(su, s, step, q, LineCount(s.wire, q));
    }
  }

  lemma WireSame(su: Setup, s: State, step: Action)
    requires Enabled(su, s, step) && !step.Send?
    ensures Apply(su, s, step).wire == s.wire
  {
  }

  lemma SendCounts(su: Setup, s: State, step: Action, q: nat, n: nat)
    requires Enabled(su, s, step) && step.Send? && q in s.calls && CountOk(s.calls[q].pc, n)
    ensures q in Apply(su, s, step).calls
    ensures CountOk(Apply(su, s, step).calls[q].pc, n + if step.q == q then 1 else 0)
  {
  }

  /** Every other step keeps the count that its call's place in the loop calls for. */
  lemma PcCounts(su: Setup, s: State, step: Action, q: nat, n: nat)
    requires Allocation(su, s) && Enabled(su, s, step) && !step.Send?
    requires q in s.calls && CountOk(s.calls[q].pc, n)
    ensures q in Apply(su, s, step).calls && CountOk(Apply(su, s, step).calls[q].pc, n)
  {
  }

  lemma WireStep(su: Setup, s: State, step: Action)
    requires Allocation(su, s) && Wire(su, s) && Enabled(su, s, step)
    ensures Wire(su, Apply(su, s, step))
  {
    var t := Apply(su, s, step);
    LinesStay(su, s, step);
    forall q | q in t.calls ensures CountOk(t.calls[q].pc, LineCount(t.wire, q)) && OriginOk(su, t.calls[q]) {
      if q in s.calls {
        CountStep(su, s, step, q);
        assert OriginOk(su, s.calls[q]);
      } else {
        NewCallOk(su, s, step, q);
      }
    }
  }

  /** A call just admitted passed the gates and has written nothing. */
  lemma NewCallOk(su: Setup, s: State, step: Action, q: nat)
    requires Allocation(su, s) && Enabled(su, s, step)
    requires forall i :: 0 <= i < |s.wire| ==> LineOk(s, s.wire[i])
    requires q !in s.calls && q in Apply(su, s, step).calls
    ensures var t := Apply(su, s, step); CountOk(t.calls[q].pc, LineCount(t.wire, q)) && OriginOk(su, t.calls[q])
  {
    forall i | 0 <= i < |s.wire| ensures s.wire[i].callSeq != q { assert LineOk(s, s.wire[i]); }
    NoLines(s.wire, q);
  }

  // ---- release by close ----

  /** Since the check that saw `clears`, the call has cleared its event again, or it is on its way out,
      or its event is set. */
  predicate VisitHolds(s: State, visited: (nat, nat)) {
    var (q, clears) := visited;
    q in s.calls && q in s.bridge.cells
    && (Finished(s.calls[q].pc)
        || Clears(s.calls[q].pc) > clears
        || (Clears(s.calls[q].pc) == clears && s.bridge.cells[q].event))
  }

  predicate SeenHolds(s: State, q: nat, clears: nat) {
    q in s.calls && (Finished(s.calls[q].pc) || Clears(s.calls[q].pc) >= clears)
  }

  ghost predicate CloserHolds(s: State, k: Closer) {
    && (forall i :: 0 <= i < |k.pending| ==> k.pending[i] in s.calls)
    && (forall i :: 0 <= i < |k.visited| ==> VisitHolds(s, k.visited[i]))
    && (!k.visit.Check? ==> k.pending != [] && SeenHolds(s, k.pending[0], k.visit.clears))
  }

  /** Between waking and clearing, the event stays set. */
  ghost predicate EventHeld(s: State, q: nat) {
    q in s.calls && q in s.bridge.cells && (s.calls[q].pc.Woken? || s.calls[q].pc.Clearing?) ==> s.bridge.cells[q].event
  }

  ghost predicate Release(s: State) {
    && (forall c :: 0 <= c < |s.closers| ==> CloserHolds(s, s.closers[c]))
    && (forall q: nat :: EventHeld(s, q))
  }

  /** One step never loses what a past visit achieved for call q. */
  lemma CallMoves(su: Setup, s: State, step: Action, q: nat)
    requires Allocation(su, s) && Enabled(su, s, step) && q in s.calls
    ensures var t := Apply(su, s, step);
            && q in t.calls && q in t.bridge.cells && q in s.bridge.cells
            && (Finished(s.calls[q].pc) ==> Finished(t.calls[q].pc))
            && (Finished(t.calls[q].pc) || Clears(t.calls[q].pc) >= Clears(s.calls[q].pc))
            && (s.bridge.cells[q].event && !t.bridge.cells[q].event ==> Clears(t.calls[q].pc) > Clears(s.calls[q].pc))
  {
  }

  lemma ReleaseStep(su: Setup, s: State, step: Action)
    requires Allocation(su, s) && Registration(s) && Release(s) && Enabled(su, s, step)
    ensures Release(Apply(su, s, step))
  {
    var t := Apply(su, s, step);
    forall c | 0 <= c < |t.closers| ensures CloserHolds(t, t.closers[c]) {
      if c < |s.closers| {
        ReleaseCloser(su, s, step, c);
      }
    }
    forall q: nat ensures EventHeld(t, q) { assert EventHeld(s, q); }
  }

  lemma ReleaseCloser(su: Setup, s: State, step: Action, c: nat)
    requires Allocation(su, s) && Release(s) && Enabled(su, s, step) && c < |s.closers|
    ensures CloserHolds(Apply(su, s, step), Apply(su, s, step).closers[c])
  {
    var t := Apply(su, s, step);
    var k := s.closers[c];
    assert CloserHolds(s, k);
    forall i | 0 <= i < |k.visited| ensures VisitHolds(t, k.visited[i]) {
      assert VisitHolds(s, k.visited[i]);
      CallMoves(su, s, step, k.visited[i].0);
    }
    forall i | 0 <= i < |k.pending| ensures k.pending[i] in t.calls {
      CallMoves(su, s, step, k.pending[i]);
    }
    if k.pending != [] { CallMoves(su, s, step, k.pending[0]); }
    var k' := t.closers[c];
    if k'.visited != k.visited {
      assert k'.visited[..|k.visited|] == k.visited;
      assert VisitHolds(t, k'.visited[|k.visited|]);
    }
  }

  // ---- time ----

  /** Nobody sleeps past the deadline. */
  ghost predicate Timely(su: Setup, s: State) {
    su.lim.deadline.Some? ==>
      forall q :: q in s.calls && s.calls[q].pc.Sleeping? ==> s.calls[q].pc.until <= su.lim.deadline.value
  }

  lemma TimelyStep(su: Setup, s: State, step: Action)
    requires Timely(su, s) && Enabled(su, s, step)
    ensures Timely(su, Apply(su, s, step))
  {
  }

  // ---- every run ----

  ghost predicate Inv(su: Setup, s: State) {
    Allocation(su, s) && Registration(s) && Routing(s) && Wire(su, s) && Release(s) && Timely(su, s)
  }

  lemma InvInitial(su: Setup)
    ensures Inv(su, INITIAL)
  {
  }

  lemma InvStep(su: Setup, s: State, step: Action)
    requires Inv(su, s) && Enabled(su, s, step)
    ensures Inv(su, Apply(su, s, step))
  {
    AllocationStep(su, s, step);
    RegistrationStep(su, s, step);
    RoutingStep(su, s, step);
    WireStep(su, s, step);
    ReleaseStep(su, s, step);
    TimelyStep(su, s, step);
  }

  lemma {:induction false} InvRun(su: Setup, s: State, steps: seq<Action>)
    requires Inv(su, s) && Possible(su, s, steps)
    ensures Inv(su, Exec(su, s, steps))
    decreases |steps|
  {
    if steps != [] {
      InvStep(su, s, steps[0]);
      InvRun(su, Apply(su, s, steps[0]), steps[1..]);
    }
  }
}
