/** What a call hands back, over whole runs: which of its steps settles the reply, and with what. */
module IpcReplies {
  import opened Options
  import opened CanonicalEncoder
  import opened BridgeTools
  import opened IpcBridge
  import opened IpcRuns
  import opened IpcSafety
  import opened IpcResults

  /** What reading a slot answers; an `in_progress` answers nothing. */
  predicate Answers(read: Option<Outcome>, r: Reply) {
    match read
    case Some(Result(payload)) => r == Replied(payload)
    case Some(Refused(code)) => r == Refusal(code)
    case Some(InProgress(_)) => false
    case _ => r == Refusal("protocol_error")
  }

  /** The delay asked for is no usable number of milliseconds, or runs past the deadline. */
  predicate CannotSleep(lim: Limits, now: int, delay: Option<int>) {
    || delay.None?
    || delay.value < 1
    || (lim.deadline.Some? && now + delay.value > lim.deadline.value)
  }

  /** Step a, taken in s, settles that call q ends with r: the wire is down, the wait runs out, an outcome
      other than `in_progress` is read, the retry cannot wait, or the last of 65 rounds is over. */
  predicate Settles(su: Setup, s: State, a: Action, q: nat, r: Reply) {
    match a
    case SendFails(x) => x == q && r == Raised
    case TimeOut(x) => x == q && r == Refusal("effect_unknown")
    case Read(x) => x == q && q in s.bridge.cells && Answers(s.bridge.cells[q].outcome, r)
    case Pause(x) =>
      x == q && q in s.calls && s.calls[q].pc.Pausing? && CannotSleep(su.lim, s.now, s.calls[q].pc.delay)
      && r == Refusal("effect_unknown")
    case Resume(x) =>
      x == q && q in s.calls && s.calls[q].pc.Sleeping? && s.calls[q].pc.round == 64 && r == Refusal("effect_unknown")
    case _ => false
  }

  /** In the run, action i settles r for q. */
  ghost predicate SettledAt(su: Setup, s: State, steps: seq<Action>, i: nat, q: nat, r: Reply) {
    i < |steps| && Possible(su, s, steps[..i]) && Settles(su, Exec(su, s, steps[..i]), steps[i], q, r)
  }

  /** Call q is on its way out, or gone, with reply r. */
  predicate EndsWith(s: State, q: nat, r: Reply) {
    q in s.calls && (s.calls[q].pc == Leaving(r) || s.calls[q].pc == Done(r))
  }

  predicate Ended(s: State, q: nat) { q in s.calls && (s.calls[q].pc.Leaving? || s.calls[q].pc.Done?) }

  // ---- one step ----

  lemma OwnStepSettles(su: Setup, s: State, a: Action, q: nat, r: Reply)
    requires Enabled(su, s, a) && Owner(a) == q && q in s.calls && CountOk(s.calls[q].pc, LineCount(s.wire, q))
    requires !Ended(s, q)
    ensures EndsWith(Apply(su, s, a), q, r) <==> Settles(su, s, a, q, r)
  {
  }

  lemma OwnStepEnded(su: Setup, s: State, a: Action, q: nat, r: Reply)
    requires Enabled(su, s, a) && Owner(a) == q && Ended(s, q)
    ensures EndsWith(Apply(su, s, a), q, r) <==> EndsWith(s, q, r)
    ensures Ended(Apply(su, s, a), q) && !Settles(su, s, a, q, r)
  {
  }

  lemma ForeignStep(su: Setup, s: State, a: Action, q: nat, r: Reply)
    requires Allocation(su, s) && Enabled(su, s, a) && Owner(a) != q
    ensures EndsWith(Apply(su, s, a), q, r) <==> EndsWith(s, q, r)
    ensures Ended(Apply(su, s, a), q) <==> Ended(s, q)
    ensures !Settles(su, s, a, q, r)
  {
    OthersUntouched(su, s, a, q);
  }

  lemma StepSettles(su: Setup, s: State, a: Action, q: nat, r: Reply)
    requires Inv(su, s) && Enabled(su, s, a)
    ensures EndsWith(Apply(su, s, a), q, r) <==> EndsWith(s, q, r) || Settles(su, s, a, q, r)
  {
    if Owner(a) != q {
      ForeignStep(su, s, a, q, r);
    } else if Ended(s, q) {
      OwnStepEnded(su, s, a, q, r);
    } else {
      assert CountOk(s.calls[q].pc, LineCount(s.wire, q));
      OwnStepSettles(su, s, a, q, r);
    }
  }

  // ---- whole runs ----

  ghost predicate Settled(su: Setup, s: State, steps: seq<Action>, q: nat, r: Reply) {
    exists i: nat :: SettledAt(su, s, steps, i, q, r)
  }

  lemma SettledLater(su: Setup, s: State, steps: seq<Action>, i: nat, q: nat, r: Reply)
    requires steps != [] && Enabled(su, s, steps[0])
    ensures SettledAt(su, s, steps, i + 1, q, r) <==> SettledAt(su, Apply(su, s, steps[0]), steps[1..], i, q, r)
  {
    if i < |steps[1..]| { assert steps[..i + 1][0] == steps[0] && steps[..i + 1][1..] == steps[1..][..i]; }
  }

  lemma SettledFirst(su: Setup, s: State, steps: seq<Action>, q: nat, r: Reply)
    requires steps != [] && Enabled(su, s, steps[0])
    ensures Settled(su, s, steps, q, r) <==>
            Settles(su, s, steps[0], q, r) || Settled(su, Apply(su, s, steps[0]), steps[1..], q, r)
  {
    assert steps[..0] == [];
    assert Settles(su, s, steps[0], q, r) <==> SettledAt(su, s, steps, 0, q, r);
    if i: nat :| SettledAt(su, s, steps, i, q, r) {
      if i > 0 {
        var j: nat := i - 1;
        SettledLater(su, s, steps, j, q, r);
      }
    }
    if i: nat :| SettledAt(su, Apply(su, s, steps[0]), steps[1..], i, q, r) { SettledLater(su, s, steps, i, q, r); }
  }

  lemma {:induction false} RunSettles(su: Setup, s: State, steps: seq<Action>, q: nat, r: Reply)
    requires Inv(su, s) && Possible(su, s, steps)
    ensures EndsWith(Exec(su, s, steps), q, r) <==> EndsWith(s, q, r) || Settled(su, s, steps, q, r)
    decreases |steps|
  {
    if steps != [] {
      StepSettles(su, s, steps[0], q, r);
      InvStep(su, s, steps[0]);
      RunSettles(su, Apply(su, s, steps[0]), steps[1..], q, r);
      SettledFirst(su, s, steps, q, r);
    }
  }

  /** In every run a call ends with r exactly when one of its steps settled r. */
  lemma ReplyExactly(su: Setup, steps: seq<Action>, q: nat, r: Reply)
    requires Possible(su, INITIAL, steps)
    ensures EndsWith(Exec(su, INITIAL, steps), q, r) <==> exists i: nat :: SettledAt(su, INITIAL, steps, i, q, r)
  {
    InvInitial(su);
    RunSettles(su, INITIAL, steps, q, r);
  }

  /** What a call reads decides its reply, whatever every thread does afterwards: a result is returned,
      a refusal keeps its code, and what is no outcome is a protocol error. */
  lemma ReadDecides(su: Setup, steps: seq<Action>, i: nat, q: nat, o: Option<Outcome>, r: Reply)
    requires Possible(su, INITIAL, steps) && ReadAt(su, steps, i, q, o) && Answers(o, r)
    ensures EndsWith(Exec(su, INITIAL, steps), q, r)
  {
    assert SettledAt(su, INITIAL, steps, i, q, r);
    ReplyExactly(su, steps, q, r);
  }

  /** A result is returned only by a call that read it. */
  lemma ResultWasRead(su: Setup, steps: seq<Action>, q: nat, payload: Payload)
    requires Possible(su, INITIAL, steps) && EndsWith(Exec(su, INITIAL, steps), q, Replied(payload))
    ensures exists i: nat :: ReadAt(su, steps, i, q, Some(Result(payload)))
  {
    ReplyExactly(su, steps, q, Replied(payload));
    var i: nat :| SettledAt(su, INITIAL, steps, i, q, Replied(payload));
    var o := ReadSettles(su, steps, i, q, Replied(payload));
  }

  /** Only reading an outcome settles a reply other than an exception or `effect_unknown`. */
  lemma ReadSettles(su: Setup, steps: seq<Action>, i: nat, q: nat, r: Reply) returns (o: Option<Outcome>)
    requires SettledAt(su, INITIAL, steps, i, q, r) && r != Raised && r != Refusal("effect_unknown")
    ensures ReadAt(su, steps, i, q, o) && Answers(o, r)
  {
    o := Exec(su, INITIAL, steps[..i]).bridge.cells[q].outcome;
  }

  lemma CodesDiffer()
    ensures "protocol_error" != "effect_unknown"
  {
    assert "protocol_error"[0] == 'p';
  }

  /** A protocol error is returned only by a call that read no outcome it knows, or was refused with that code. */
  lemma ProtocolErrorWasRead(su: Setup, steps: seq<Action>, q: nat)
    requires Possible(su, INITIAL, steps) && EndsWith(Exec(su, INITIAL, steps), q, Refusal("protocol_error"))
    ensures exists i: nat :: || ReadAt(su, steps, i, q, None)
                             || ReadAt(su, steps, i, q, Some(Other))
                             || ReadAt(su, steps, i, q, Some(Refused("protocol_error")))
  {
    ReplyExactly(su, steps, q, Refusal("protocol_error"));
    var i: nat :| SettledAt(su, INITIAL, steps, i, q, Refusal("protocol_error"));
    CodesDiffer();
    var o := ReadSettles(su, steps, i, q, Refusal("protocol_error"));
  }

  /** In the run, action i is the call reading o from its slot. */
  ghost predicate ReadAt(su: Setup, steps: seq<Action>, i: nat, q: nat, o: Option<Outcome>) {
    && i < |steps| && steps[i] == Read(q) && Possible(su, INITIAL, steps[..i])
    && q in Exec(su, INITIAL, steps[..i]).bridge.cells
    && Exec(su, INITIAL, steps[..i]).bridge.cells[q].outcome == o
  }

  // ---- an answer gets through ----

  /** A waiting call whose slot is signalled with o returns what o answers, by its own steps. */
  lemma OwnStepsAnswer(su: Setup, s: State, q: nat, o: Outcome, r: Reply)
    requires q in s.calls && s.calls[q].pc.Waiting? && q in s.bridge.cells && s.bridge.cells[q] == Cell(true, Some(o))
    requires Answers(Some(o), r)
    ensures var own := [Wake(q), Read(q), Leave(q)];
            Possible(su, s, own) && q in Exec(su, s, own).calls && Exec(su, s, own).calls[q].pc == Done(r)
  {
    var s1 := Apply(su, s, Wake(q));
    var s2 := Apply(su, s1, Read(q));
    PossibleCons(su, s2, [], Leave(q));
    PossibleCons(su, s1, [Leave(q)], Read(q));
    PossibleCons(su, s, [Read(q), Leave(q)], Wake(q));
  }

  lemma PossibleCons(su: Setup, s: State, rest: seq<Action>, a: Action)
    requires Enabled(su, s, a) && Possible(su, Apply(su, s, a), rest)
    ensures Possible(su, s, [a] + rest) && Exec(su, s, [a] + rest) == Exec(su, Apply(su, s, a), rest)
  {
    assert ([a] + rest)[1..] == rest;
  }

  /** In every run, a call that waits can still be answered: a delivery for it is found registered, and the
      call then returns exactly what was delivered. */
  lemma WaitingCallAnswered(su: Setup, steps: seq<Action>, q: nat, o: Outcome, r: Reply)
    requires Possible(su, INITIAL, steps)
    requires q in Exec(su, INITIAL, steps).calls && Exec(su, INITIAL, steps).calls[q].pc.Waiting?
    requires Answers(Some(o), r)
    ensures var t, d := Exec(su, INITIAL, steps), |Exec(su, INITIAL, steps).deliveries|;
            var more := [Resolve(q, o)] + ([ResolveStore(d)] + ([ResolveSet(d)] + [Wake(q), Read(q), Leave(q)]));
            Possible(su, t, more) && q in Exec(su, t, more).calls && Exec(su, t, more).calls[q].pc == Done(r)
  {
    InvInitial(su);
    InvRun(su, INITIAL, steps);
    var t := Exec(su, INITIAL, steps);
    var d := |t.deliveries|;
    var own := [Wake(q), Read(q), Leave(q)];
    var t1 := Apply(su, t, Resolve(q, o));
    DeliverySteps(su, t, q, o);
    var t2 := Apply(su, t1, ResolveStore(d));
    OwnStepsAnswer(su, Apply(su, t2, ResolveSet(d)), q, o, r);
    PossibleCons(su, t2, own, ResolveSet(d));
    PossibleCons(su, t1, [ResolveSet(d)] + own, ResolveStore(d));
    PossibleCons(su, t, [ResolveStore(d)] + ([ResolveSet(d)] + own), Resolve(q, o));
  }

  /** The three steps of a delivery to a registered call leave its slot signalled with the outcome. */
  lemma DeliverySteps(su: Setup, t: State, q: nat, o: Outcome)
    requires Finds(t.bridge, q) && q in t.bridge.cells
    ensures var d, t1 := |t.deliveries|, Apply(su, t, Resolve(q, o));
            && Enabled(su, t1, ResolveStore(d))
            && var t2 := Apply(su, t1, ResolveStore(d));
               && Enabled(su, t2, ResolveSet(d))
               && Apply(su, t2, ResolveSet(d)).calls == t.calls
               && q in Apply(su, t2, ResolveSet(d)).bridge.cells
               && Apply(su, t2, ResolveSet(d)).bridge.cells[q] == Cell(true, Some(o))
  {
  }

  // ---- a delivery happens once ----

  function Times(steps: seq<Action>, a: Action): nat {
    if steps == [] then 0 else (if steps[0] == a then 1 else 0) + Times(steps[1..], a)
  }

  predicate NotStored(s: State, d: nat) { d >= |s.deliveries| || s.deliveries[d].stage.Found? }
  predicate NotSignalled(s: State, d: nat) { d >= |s.deliveries| || !s.deliveries[d].stage.Delivered? }

  lemma DeliveryStep(su: Setup, s: State, a: Action, d: nat)
    requires Enabled(su, s, a)
    ensures var t := Apply(su, s, a);
            && (NotStored(t, d) ==> NotStored(s, d) && a != ResolveStore(d))
            && (a == ResolveStore(d) ==> NotStored(s, d))
            && (NotSignalled(t, d) ==> NotSignalled(s, d) && a != ResolveSet(d))
            && (a == ResolveSet(d) ==> NotSignalled(s, d) && !NotStored(s, d))
            && (NotStored(t, d) ==> NotSignalled(t, d))
  {
  }

  /** In every run a call of `resolve` stores its outcome at most once and signals at most once. */
  lemma {:induction false} DeliversOnce(su: Setup, s: State, steps: seq<Action>, d: nat)
    requires Possible(su, s, steps)
    ensures Times(steps, ResolveStore(d)) <= if NotStored(s, d) then 1 else 0
    ensures Times(steps, ResolveSet(d)) <= if NotSignalled(s, d) then 1 else 0
    decreases |steps|
  {
    if steps != [] {
      DeliveryStep(su, s, steps[0], d);
      DeliversOnce(su, Apply(su, s, steps[0]), steps[1..], d);
    }
  }
}
