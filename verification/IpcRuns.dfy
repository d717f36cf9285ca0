/** Every interleaving of tool calls, deliveries and closers over one bridge. */
module IpcRuns {
  import opened Options
  import opened Utf16
  import opened CanonicalEncoder
  import opened BridgeTools
  import opened IpcBridge

  /** `range(MAX_IN_PROGRESS_RETRIES + 1)` rounds, numbered 0..64. */
  const MAX_IN_PROGRESS_RETRIES: nat := 64

  /** The fields of a `tool.request` line besides the constants and the call_seq. */
  datatype Request = Request(name: Text, args: Ref, observedSessionId: Option<Text>)

  /** What `invoke` hands back, or that it raised. */
  datatype Reply = Replied(payload: Payload) | Refusal(code: string) | Raised

  datatype Pc =
    | Sending(round: nat)                       // about to write the request line
    | Waiting(round: nat)                       // in event.wait
    | Woken(round: nat)                         // the wait returned true, outcome not yet read
    | Clearing(round: nat, delay: Option<int>)  // read in_progress, about to clear the event
    | Dropping(round: nat, delay: Option<int>)  // about to set outcome to None
    | Pausing(round: nat, delay: Option<int>)   // about to decide whether to sleep
    | Sleeping(round: nat, until: int)
    | Leaving(reply: Reply)                     // about to pop the slot
    | Done(reply: Reply)

  /** A live or finished invocation and the handler call that made it. */
  datatype Call = Call(origin: HandlerCall, pc: Pc)

  function RequestOf(c: HandlerCall): Request { Request(c.spec.name, c.args, c.sessionId) }

  datatype Setup = Setup(lim: Limits, world: World)

  datatype Stage = Found | Stored | Delivered

  /** A `resolve` that found its slot registered: it stores the outcome, then sets the event. The
      list of deliveries only grows, so it is also the history of what was given to whom. */
  datatype Delivery = Delivery(callSeq: nat, outcome: Outcome, stage: Stage)

  /** What a closer is doing with the first pending slot; `clears` as seen by its check. */
  datatype Visit = Check | Store(clears: nat) | Signal(clears: nat)

  /** `visited`: the slots done with, each with the clears its call had made at the check. */
  datatype Closer = Closer(code: string, pending: seq<nat>, visit: Visit, visited: seq<(nat, nat)>)

  datatype Line = Line(callSeq: nat, request: Request)

  datatype State = State(
    bridge: Bridge,
    calls: map<nat, Call>,
    deliveries: seq<Delivery>,
    closers: seq<Closer>,
    wire: seq<Line>,
    now: int)

  datatype Action =
    | Handle(call: HandlerCall)
    | Send(q: nat) | SendFails(q: nat) | Wake(q: nat) | TimeOut(q: nat) | Read(q: nat)
    | Clear(q: nat) | Drop(q: nat) | Pause(q: nat) | Resume(q: nat) | Leave(q: nat)
    | Resolve(callSeq: nat, outcome: Outcome) | ResolveStore(d: nat) | ResolveSet(d: nat)
    | CloseStart(code: string) | CloseCheck(c: nat) | CloseStore(c: nat) | CloseSet(c: nat)
    | Tick(ms: nat)

  /** `event.clear()` calls made so far by a call that is still in its loop. */
  function Clears(pc: Pc): nat {
    match pc
    case Sending(r) => r
    case Waiting(r) => r
    case Woken(r) => r
    case Clearing(r, _) => r
    case Dropping(r, _) => r + 1
    case Pausing(r, _) => r + 1
    case Sleeping(r, _) => r + 1
    case Leaving(_) => 0
    case Done(_) => 0
  }

  predicate Finished(pc: Pc) { pc.Leaving? || pc.Done? }

  ghost predicate Enabled(su: Setup, s: State, step: Action) {
    match step
    case Handle(call) => Closed(su.world.heap) && RefOk(su.world.heap, call.args)
    case Send(q) => q in s.calls && s.calls[q].pc.Sending?
    case SendFails(q) => q in s.calls && s.calls[q].pc.Sending?
    case Wake(q) => q in s.calls && s.calls[q].pc.Waiting? && q in s.bridge.cells && s.bridge.cells[q].event
    // A wait that expires may miss an event set at the same moment.
    case TimeOut(q) => q in s.calls && s.calls[q].pc.Waiting? && su.lim.deadline.Some? && s.now >= su.lim.deadline.value
    case Read(q) => q in s.calls && s.calls[q].pc.Woken? && q in s.bridge.cells
    case Clear(q) => q in s.calls && s.calls[q].pc.Clearing? && q in s.bridge.cells
    case Drop(q) => q in s.calls && s.calls[q].pc.Dropping? && q in s.bridge.cells
    case Pause(q) => q in s.calls && s.calls[q].pc.Pausing?
    case Resume(q) => q in s.calls && s.calls[q].pc.Sleeping? && s.now >= s.calls[q].pc.until
    case Leave(q) => q in s.calls && s.calls[q].pc.Leaving?
    case Resolve(_, _) => true
    case ResolveStore(d) => d < |s.deliveries| && s.deliveries[d].stage.Found? && s.deliveries[d].callSeq in s.bridge.cells
    case ResolveSet(d) => d < |s.deliveries| && s.deliveries[d].stage.Stored? && s.deliveries[d].callSeq in s.bridge.cells
    case CloseStart(_) => true
    case CloseCheck(c) => Visiting(s, c) && s.closers[c].visit.Check?
    case CloseStore(c) => Visiting(s, c) && s.closers[c].visit.Store?
    case CloseSet(c) => Visiting(s, c) && s.closers[c].visit.Signal?
    case Tick(_) => true
  }

  predicate Visiting(s: State, c: nat) {
    c < |s.closers| && s.closers[c].pending != [] && s.closers[c].pending[0] in s.bridge.cells
    && s.closers[c].pending[0] in s.calls
  }

  function Goto(s: State, q: nat, pc: Pc): State
    requires q in s.calls
  {
    s.(calls := s.calls[q := s.calls[q].(pc := pc)])
  }

  function AfterRead(round: nat, o: Option<Outcome>): Pc {
    match o
    case Some(Result(p)) => Leaving(Replied(p))
    case Some(Refused(code)) => Leaving(Refusal(code))
    case Some(InProgress(delay)) => Clearing(round, delay)
    case _ => Leaving(Refusal("protocol_error"))
  }

  /** `_sleep_bounded`. */
  function AfterPause(lim: Limits, now: int, round: nat, delay: Option<int>): Pc {
    if delay.None? || delay.value < 1 then Leaving(Refusal("effect_unknown"))
    else if lim.deadline.Some? && delay.value > Max(0, lim.deadline.value - now) then Leaving(Refusal("effect_unknown"))
    else Sleeping(round, now + delay.value)
  }

  function Max(a: int, b: int): int { if a > b then a else b }

  function AfterSleep(round: nat): Pc {
    if round < MAX_IN_PROGRESS_RETRIES then Sending(round + 1) else Leaving(Refusal("effect_unknown"))
  }

  function NextVisit(k: Closer, clears: nat): Closer
    requires k.pending != []
  {
    Closer(k.code, k.pending[1..], Check, k.visited + [(k.pending[0], clears)])
  }

  ghost function Apply(su: Setup, s: State, step: Action): State
    requires Enabled(su, s, step)
  {
    match step
    case Handle(call) =>
      if !GatesPass(su.world, call) then s else
      var a := Decide(su.lim, s.bridge);
      if a.Admitted? then
        s.(bridge := Admit(su.lim, s.bridge), calls := s.calls[a.callSeq := Call(call, Sending(0))])
      else s
    case Send(q) =>
      Goto(s, q, Waiting(s.calls[q].pc.round)).(wire := s.wire + [Line(q, RequestOf(s.calls[q].origin))])
    case SendFails(q) => Goto(s, q, Leaving(Raised))
    case Wake(q) => Goto(s, q, Woken(s.calls[q].pc.round))
    case TimeOut(q) => Goto(s, q, Leaving(Refusal("effect_unknown")))
    case Read(q) => Goto(s, q, AfterRead(s.calls[q].pc.round, s.bridge.cells[q].outcome))
    case Clear(q) =>
      Goto(s, q, Dropping(s.calls[q].pc.round, s.calls[q].pc.delay)).(bridge := SetEvent(s.bridge, q, false))
    case Drop(q) =>
      Goto(s, q, Pausing(s.calls[q].pc.round, s.calls[q].pc.delay)).(bridge := StoreOutcome(s.bridge, q, None))
    case Pause(q) => Goto(s, q, AfterPause(su.lim, s.now, s.calls[q].pc.round, s.calls[q].pc.delay))
    case Resume(q) => Goto(s, q, AfterSleep(s.calls[q].pc.round))
    case Leave(q) => Goto(s, q, Done(s.calls[q].pc.reply)).(bridge := Unregister(s.bridge, q))
    case Resolve(q, o) =>
      if Finds(s.bridge, q) then s.(deliveries := s.deliveries + [Delivery(q, o, Found)]) else s
    case ResolveStore(d) =>
      var q := s.deliveries[d].callSeq;
      s.(bridge := StoreOutcome(s.bridge, q, Some(s.deliveries[d].outcome)),
         deliveries := s.deliveries[d := s.deliveries[d].(stage := Stored)])
    case ResolveSet(d) =>
      s.(bridge := SetEvent(s.bridge, s.deliveries[d].callSeq, true),
         deliveries := s.deliveries[d := s.deliveries[d].(stage := Delivered)])
    case CloseStart(code) =>
      s.(bridge := Close(s.bridge), closers := s.closers + [Closer(code, s.bridge.slots, Check, [])])
    case CloseCheck(c) =>
      var k := s.closers[c];
      var q := k.pending[0];
      var n := Clears(s.calls[q].pc);
      s.(closers := s.closers[c := if s.bridge.cells[q].event then NextVisit(k, n) else k.(visit := Store(n))])
    case CloseStore(c) =>
      var k := s.closers[c];
      s.(bridge := StoreOutcome(s.bridge, k.pending[0], Some(Refused(k.code))),
         closers := s.closers[c := k.(visit := Signal(k.visit.clears))])
    case CloseSet(c) =>
      var k := s.closers[c];
      s.(bridge := SetEvent(s.bridge, k.pending[0], true), closers := s.closers[c := NextVisit(k, k.visit.clears)])
    case Tick(ms) => s.(now := s.now + ms)
  }

  // ---- runs ----

  const INITIAL: State := State(EMPTY, map[], [], [], [], 0)

  ghost predicate Possible(su: Setup, s: State, steps: seq<Action>)
    decreases |steps|
  {
    steps == [] || (Enabled(su, s, steps[0]) && Possible(su, Apply(su, s, steps[0]), steps[1..]))
  }

  ghost function Exec(su: Setup, s: State, steps: seq<Action>): State
    requires Possible(su, s, steps)
    decreases |steps|
  {
    if steps == [] then s else Exec(su, Apply(su, s, steps[0]), steps[1..])
  }
}
