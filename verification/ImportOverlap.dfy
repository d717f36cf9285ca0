/**
 * Calls of `applyRun` that overlap. The status check and the reading of the entries take no lock, so a
 * call decides by what it read, and its writes reach the rows as they are when it commits.
 */
module ImportOverlap {
  import opened Options
  import opened ImportReview

  // ---- the transaction, working from a read that may be stale ----

  /** `inserted` names, in order, the entry for which each new transaction was inserted. */
  datatype Job = Job(work: Work, inserted: seq<nat>)

  /** The scoped UPDATE sets the patched columns of the row as it now is. */
  function UpdateRow(entries: map<nat, Entry>, scope: Scope, id: nat, patch: Entry -> Entry): Option<map<nat, Entry>> {
    if id in entries && entries[id].scope == scope then Some(entries[id := patch(entries[id])]) else None
  }

  /** The loop body, deciding by the entry as it was read. */
  function ProcessRead(j: Job, e: Entry, scope: Scope, run: nat, policy: Policy): Option<Job> {
    var w := j.work;
    if e.resolved then Some(j.(work := Skipped(w)))
    else match e.status
      case Matched =>
        if e.matched.None? then Some(j.(work := Skipped(w)))
        else
          var txs :- ApplyMatchedTo(w.txs, scope, e, e.matched.value, run);
          var entries :- UpdateRow(w.entries, scope, e.id, (c: Entry) => c.(resolved := true));
          Some(Job(Work(entries, txs, w.nextId, w.totals.(confirmed := w.totals.confirmed + 1)), j.inserted))
      case New =>
        var entries :- UpdateRow(w.entries, scope, e.id,
                                 (c: Entry) => c.(resolved := true, matched := Some(w.nextId), status := Matched));
        Some(Job(Work(entries, w.txs[w.nextId := Created(scope, e, run)], w.nextId + 1,
                      w.totals.(created := w.totals.created + 1)), j.inserted + [e.id]))
      case Candidate =>
        if policy == Accept then
          if e.candidates == [] then Some(j.(work := Skipped(w)))
          else
            var txs :- ApplyMatchedTo(w.txs, scope, e, e.candidates[0], run);
            var entries :- UpdateRow(w.entries, scope, e.id,
                                     (c: Entry) => c.(status := Matched, matched := Some(e.candidates[0]), resolved := true));
            Some(Job(Work(entries, txs, w.nextId, w.totals.(settled := w.totals.settled + 1)), j.inserted))
        else if policy == Reject then
          var entries :- UpdateRow(w.entries, scope, e.id, (c: Entry) => c.(status := Rejected, resolved := true));
          Some(Job(Work(entries, w.txs, w.nextId, w.totals.(settled := w.totals.settled + 1)), j.inserted))
        else Some(j.(work := Skipped(w)))
      case Rejected => Some(j.(work := Skipped(w)))
      case Unknown => Some(j.(work := Skipped(w)))
  }

  /** On a row that has not changed since it was read, this is the loop body of the reference. */
  lemma ReadIsProcess(j: Job, e: Entry, scope: Scope, run: nat, policy: Policy)
    requires e.id in j.work.entries && j.work.entries[e.id] == e
    ensures ProcessRead(j, e, scope, run, policy).Some? <==> Process(j.work, e, scope, run, policy).Some?
    ensures ProcessRead(j, e, scope, run, policy).Some? ==>
              Some(ProcessRead(j, e, scope, run, policy).value.work) == Process(j.work, e, scope, run, policy)
  {
  }

  function ProcessReads(j: Job, ids: seq<nat>, snap: map<nat, Entry>, scope: Scope, run: nat, policy: Policy): Option<Job>
    requires forall id: nat :: id in ids ==> id in snap
    decreases |ids|
  {
    if ids == [] then Some(j)
    else
      var next :- ProcessRead(j, snap[ids[0]], scope, run, policy);
      ProcessReads(next, ids[1..], snap, scope, run, policy)
  }

  /** What no call ever does to an entry: change its identity, or unresolve it. */
  predicate Kept(a: Entry, b: Entry) {
    b == a.(resolved := b.resolved, status := b.status, matched := b.matched) && (a.resolved ==> b.resolved)
  }

  ghost predicate AllKept(a: map<nat, Entry>, b: map<nat, Entry>) {
    b.Keys == a.Keys && forall id: nat :: id in a ==> Kept(a[id], b[id])
  }

  ghost predicate IdsUsed(txs: map<nat, Transacao>, nextId: nat) { forall t: nat :: t in txs ==> t < nextId }

  lemma ReadRow(j: Job, e: Entry, scope: Scope, run: nat, policy: Policy)
    requires e.id in j.work.entries && j.work.entries[e.id].scope == scope
    ensures ProcessRead(j, e, scope, run, policy).None? <==> Blocked(e, j.work.txs, scope, policy)
    ensures ProcessRead(j, e, scope, run, policy).Some? ==>
              var w, next := j.work, ProcessRead(j, e, scope, run, policy).value;
              && e.id in next.work.entries
              && next.work.entries == w.entries[e.id := next.work.entries[e.id]]
              && Kept(w.entries[e.id], next.work.entries[e.id])
              && (Resolves(e, policy) ==> next.work.entries[e.id].resolved)
  {
    ReadBlocked(j, e, scope, run, policy);
    if ProcessRead(j, e, scope, run, policy).Some? { ReadWrites(j, e, scope, run, policy); }
  }

  lemma ReadBlocked(j: Job, e: Entry, scope: Scope, run: nat, policy: Policy)
    requires e.id in j.work.entries && j.work.entries[e.id].scope == scope
    ensures ProcessRead(j, e, scope, run, policy).None? <==> Blocked(e, j.work.txs, scope, policy)
  {
  }

  lemma ReadWrites(j: Job, e: Entry, scope: Scope, run: nat, policy: Policy)
    requires e.id in j.work.entries && j.work.entries[e.id].scope == scope
    requires ProcessRead(j, e, scope, run, policy).Some?
    ensures var w, next := j.work, ProcessRead(j, e, scope, run, policy).value;
            && e.id in next.work.entries
            && next.work.entries == w.entries[e.id := next.work.entries[e.id]]
            && Kept(w.entries[e.id], next.work.entries[e.id])
            && (Resolves(e, policy) ==> next.work.entries[e.id].resolved)
  {
    if !Resolves(e, policy) {
      ReadSkips(j, e, scope, run, policy);
    } else {
      ReadResolves(j, e, scope, run, policy);
    }
  }

  lemma ReadSkips(j: Job, e: Entry, scope: Scope, run: nat, policy: Policy)
    requires !Resolves(e, policy)
    ensures ProcessRead(j, e, scope, run, policy).Some?
    ensures ProcessRead(j, e, scope, run, policy).value.work.entries == j.work.entries
  {
  }

  /** A row that the policy resolves gets its patch and nothing else. */
  lemma ReadResolves(j: Job, e: Entry, scope: Scope, run: nat, policy: Policy)
    requires e.id in j.work.entries && j.work.entries[e.id].scope == scope
    requires ProcessRead(j, e, scope, run, policy).Some? && Resolves(e, policy)
    ensures var row := Patched(j.work.entries[e.id], e, policy, j.work.nextId);
            ProcessRead(j, e, scope, run, policy).value.work.entries == j.work.entries[e.id := row]
  {
  }

  function Patched(row: Entry, e: Entry, policy: Policy, newId: nat): Entry {
    if Creates(e) then row.(resolved := true, matched := Some(newId), status := Matched)
    else if e.status == Matched then row.(resolved := true)
    else if Target(e, policy).Some? then row.(resolved := true, matched := Target(e, policy), status := Matched)
    else row.(resolved := true, status := Rejected)
  }

  lemma ReadInserts(j: Job, e: Entry, scope: Scope, run: nat, policy: Policy)
    requires ProcessRead(j, e, scope, run, policy).Some? && IdsUsed(j.work.txs, j.work.nextId)
    ensures var w, next := j.work, ProcessRead(j, e, scope, run, policy).value;
            && next.inserted == j.inserted + (if Creates(e) then [e.id] else [])
            && next.work.nextId == w.nextId + (if Creates(e) then 1 else 0)
            && next.work.txs.Keys == w.txs.Keys + (if Creates(e) then {w.nextId} else {})
            && IdsUsed(next.work.txs, next.work.nextId)
            && forall t: nat :: t in w.txs ==> TxInScope(next.work.txs, scope, t) == TxInScope(w.txs, scope, t)
  {
  }

  /** The entries of the run that the read shows as new. */
  function Creators(ids: seq<nat>, snap: map<nat, Entry>): seq<nat>
    requires forall id: nat :: id in ids ==> id in snap
  {
    if ids == [] then [] else (if Creates(snap[ids[0]]) then [ids[0]] else []) + Creators(ids[1..], snap)
  }

  ghost predicate ReadyToWrite(j: Job, ids: seq<nat>, snap: map<nat, Entry>, scope: Scope) {
    && Distinct(ids)
    && IdsUsed(j.work.txs, j.work.nextId)
    && forall id: nat :: id in ids ==>
         id in snap && snap[id].id == id && id in j.work.entries && j.work.entries[id].scope == scope
  }

  lemma ReadyAfter(j: Job, ids: seq<nat>, snap: map<nat, Entry>, scope: Scope, run: nat, policy: Policy)
    requires ids != [] && ReadyToWrite(j, ids, snap, scope)
    requires ProcessRead(j, snap[ids[0]], scope, run, policy).Some?
    ensures ReadyToWrite(ProcessRead(j, snap[ids[0]], scope, run, policy).value, ids[1..], snap, scope)
    ensures ids[0] !in ids[1..]
  {
    var e := snap[ids[0]];
    assert ids == [ids[0]] + ids[1..];
    ReadRow(j, e, scope, run, policy);
    ReadInserts(j, e, scope, run, policy);
  }

  /** Entries keep their identity, and those the policy resolves are resolved. */
  lemma {:induction false} WritesKeep(j: Job, ids: seq<nat>, snap: map<nat, Entry>, scope: Scope, run: nat, policy: Policy)
    requires ReadyToWrite(j, ids, snap, scope) && ProcessReads(j, ids, snap, scope, run, policy).Some?
    ensures var end := ProcessReads(j, ids, snap, scope, run, policy).value;
            && AllKept(j.work.entries, end.work.entries)
            && forall id: nat :: id in ids && Resolves(snap[id], policy) ==> id in end.work.entries && end.work.entries[id].resolved
    decreases |ids|
  {
    if ids != [] {
      var e := snap[ids[0]];
      ReadRow(j, e, scope, run, policy);
      ReadyAfter(j, ids, snap, scope, run, policy);
      var next := ProcessRead(j, e, scope, run, policy).value;
      WritesKeep(next, ids[1..], snap, scope, run, policy);
      assert ids == [ids[0]] + ids[1..];
    }
  }

  /** The entries for which transactions were inserted: those read as new, in order. */
  lemma {:induction false} WritesInsert(j: Job, ids: seq<nat>, snap: map<nat, Entry>, scope: Scope, run: nat, policy: Policy)
    requires ReadyToWrite(j, ids, snap, scope) && ProcessReads(j, ids, snap, scope, run, policy).Some?
    ensures ProcessReads(j, ids, snap, scope, run, policy).value.inserted == j.inserted + Creators(ids, snap)
    decreases |ids|
  {
    if ids == [] {
      assert j.inserted + [] == j.inserted;
    } else {
      var e := snap[ids[0]];
      ReadyAfter(j, ids, snap, scope, run, policy);
      ReadInserts(j, e, scope, run, policy);
      WritesInsert(ProcessRead(j, e, scope, run, policy).value, ids[1..], snap, scope, run, policy);
      SumOfThree(j.inserted, if Creates(e) then [ids[0]] else [], Creators(ids[1..], snap));
    }
  }

  lemma SumOfThree(a: seq<nat>, b: seq<nat>, c: seq<nat>)
    ensures a + b + c == a + (b + c)
  {
  }

  /** As many new transactions, under ids not used before. */
  lemma {:induction false} WritesCount(j: Job, ids: seq<nat>, snap: map<nat, Entry>, scope: Scope, run: nat, policy: Policy)
    requires ReadyToWrite(j, ids, snap, scope) && ProcessReads(j, ids, snap, scope, run, policy).Some?
    ensures var end := ProcessReads(j, ids, snap, scope, run, policy).value;
            && IdsUsed(end.work.txs, end.work.nextId) && j.work.nextId <= end.work.nextId
            && |end.work.txs| == |j.work.txs| + |Creators(ids, snap)|
            && forall t: nat :: t in j.work.txs ==> TxInScope(end.work.txs, scope, t) == TxInScope(j.work.txs, scope, t)
    decreases |ids|
  {
    if ids != [] {
      var e := snap[ids[0]];
      ReadyAfter(j, ids, snap, scope, run, policy);
      ReadInserts(j, e, scope, run, policy);
      var next := ProcessRead(j, e, scope, run, policy).value;
      GrowsBy(j.work.txs.Keys, next.work.txs.Keys, j.work.nextId, Creates(e));
      WritesCount(next, ids[1..], snap, scope, run, policy);
    }
  }

  lemma GrowsBy(a: set<nat>, b: set<nat>, x: nat, grows: bool)
    requires b == a + (if grows then {x} else {}) && x !in a
    ensures |b| == |a| + if grows then 1 else 0
  {
  }

  lemma {:induction false} CreatorsOnce(ids: seq<nat>, snap: map<nat, Entry>, id: nat)
    requires Distinct(ids) && forall i: nat :: i in ids ==> i in snap
    ensures multiset(Creators(ids, snap))[id] == if id in ids && Creates(snap[id]) then 1 else 0
  {
    if ids != [] {
      assert ids == [ids[0]] + ids[1..];
      CreatorsOnce(ids[1..], snap, id);
      assert ids[0] !in ids[1..];
    }
  }

  /** A stale call throws exactly when something it read points at a transaction that is not the scope's. */
  lemma {:induction false} WritesThrowIff(j: Job, ids: seq<nat>, snap: map<nat, Entry>, scope: Scope, run: nat, policy: Policy, used: nat)
    requires ReadyToWrite(j, ids, snap, scope)
    requires used <= j.work.nextId
    requires forall id: nat :: id in ids ==> PointersUsed(snap[id], used)
    ensures ProcessReads(j, ids, snap, scope, run, policy).None? <==> AnyBlocked(ids, snap, j.work.txs, scope, policy)
    decreases |ids|
  {
    if ids != [] {
      var e := snap[ids[0]];
      ReadRow(j, e, scope, run, policy);
      assert ids == [ids[0]] + ids[1..];
      if ProcessRead(j, e, scope, run, policy).Some? {
        var next := ProcessRead(j, e, scope, run, policy).value;
        ReadyAfter(j, ids, snap, scope, run, policy);
        ReadInserts(j, e, scope, run, policy);
        WritesThrowIff(next, ids[1..], snap, scope, run, policy, used);
        forall id: nat | id in ids[1..]
          ensures Blocked(snap[id], next.work.txs, scope, policy) <==> Blocked(snap[id], j.work.txs, scope, policy)
        {
          if Target(snap[id], policy).Some? { TargetUsed(snap[id], policy, used); }
        }
      }
    }
  }

  // ---- overlapping calls ----

  /**
   * Where a call stands: `Open` has read the entries, when `from` calls had committed; `Committed` was
   * the `at`-th to commit.
   */
  datatype Phase =
    | Idle
    | Checked
    | Open(snap: map<nat, Entry>, from: nat)
    | Committed(snap: map<nat, Entry>, from: nat, at: nat)
    | Ended

  datatype Party = Party(call: Call, phase: Phase)

  datatype State = State(db: Db, commits: nat, inserted: seq<nat>, parties: seq<Party>)

  /** A call checks the run, reads its entries, and then writes and commits, or fails on the way. */
  datatype Action = Check(i: nat) | Read(i: nat) | Finish(i: nat) | Abort(i: nat)

  function Goto(s: State, i: nat, p: Phase): State
    requires i < |s.parties|
  {
    s.(parties := s.parties[i := s.parties[i].(phase := p)])
  }

  function RunIds(db: Db, snap: map<nat, Entry>, c: Call): seq<nat> {
    ImportReview.Select(db.order, snap, c.scope, c.run)
  }

  function Work0(db: Db, inserted: seq<nat>): Job { Job(Start(db), inserted) }

  function Step(s: State, a: Action): State {
    if a.i >= |s.parties| then s
    else
      var c := s.parties[a.i].call;
      match (a, s.parties[a.i].phase)
      case (Check(i), Idle) =>
        if c.run in s.db.runs && s.db.runs[c.run].scope == c.scope && s.db.runs[c.run].status == PendingReview
        then Goto(s, i, Checked) else Goto(s, i, Ended)
      case (Read(i), Checked) => Goto(s, i, Open(s.db.entries, s.commits))
      case (Finish(i), Open(snap, from)) =>
        var ids := RunIds(s.db, snap, c);
        (match ProcessReads(Work0(s.db, s.inserted), ids, snap, c.scope, c.run, c.policy)
         case None => Goto(s, i, Ended)
         case Some(j) =>
           if c.run !in s.db.runs then Goto(s, i, Ended)
           else State(Commit(s.db, c.run, ids, j.work), s.commits + 1, j.inserted,
                      s.parties[i := Party(c, Committed(snap, from, s.commits + 1))]))
      case (Abort(i), Checked) => Goto(s, i, Ended)
      case (Abort(i), Open(_, _)) => Goto(s, i, Ended)
      case _ => s
  }

  function Exec(s: State, actions: seq<Action>): State
    decreases |actions|
  {
    if actions == [] then s else Exec(Step(s, actions[0]), actions[1..])
  }

  ghost predicate Initial(s: State) {
    && Valid(s.db) && s.commits == 0 && s.inserted == []
    && forall i :: 0 <= i < |s.parties| ==> s.parties[i].phase == Idle
  }

  /** A call that committed and had read the entry as new. */
  predicate ReadNew(p: Party, id: nat) {
    && p.phase.Committed?
    && id in p.phase.snap && InRun(p.phase.snap[id], p.call.scope, p.call.run) && Creates(p.phase.snap[id])
  }

  function Readers(parties: seq<Party>, id: nat): nat {
    if parties == [] then 0 else (if ReadNew(parties[0], id) then 1 else 0) + Readers(parties[1..], id)
  }

  /** Both committed, both had read the entry as new, and each read before the other committed. */
  predicate Overlapped(s: State, i: nat, k: nat, id: nat) {
    && i < k < |s.parties|
    && ReadNew(s.parties[i], id) && ReadNew(s.parties[k], id)
    && s.parties[i].phase.from < s.parties[k].phase.at && s.parties[k].phase.from < s.parties[i].phase.at
  }

  // ---- what every run keeps ----

  ghost predicate DbOk(db: Db) {
    && Distinct(db.order)
    && (forall id: nat :: id in db.order <==> id in db.entries)
    && (forall id: nat :: id in db.entries ==> db.entries[id].id == id)
    && IdsUsed(db.txs, db.nextId)
  }

  predicate HasRead(p: Party) { p.phase.Open? || p.phase.Committed? }

  /** A call read what was there after `from` commits, and rows only move on from there. */
  ghost predicate PartyOk(s: State, p: Party) {
    && (HasRead(p) ==> p.phase.from <= s.commits && AllKept(p.phase.snap, s.db.entries))
    && (p.phase.Committed? ==> p.phase.from < p.phase.at <= s.commits)
    && (forall id: nat :: ReadNew(p, id) ==> id in s.db.entries && s.db.entries[id].resolved)
  }

  /** Whoever reads after a creator of the entry has committed finds it resolved. */
  ghost predicate SeesResolved(p: Party, k: Party) {
    p.phase.Committed? && HasRead(k) && k.phase.from >= p.phase.at ==>
      forall id: nat :: ReadNew(p, id) && id in k.phase.snap ==> k.phase.snap[id].resolved
  }

  ghost predicate Inv(s: State, txs0: nat) {
    && DbOk(s.db)
    && (forall i :: 0 <= i < |s.parties| ==> PartyOk(s, s.parties[i]))
    && (forall i, k :: 0 <= i < |s.parties| && 0 <= k < |s.parties| ==> SeesResolved(s.parties[i], s.parties[k]))
    && (forall id: nat :: multiset(s.inserted)[id] == Readers(s.parties, id))
    && |s.db.txs| == txs0 + |s.inserted|
  }

  lemma AllKeptTransitive(a: map<nat, Entry>, b: map<nat, Entry>, c: map<nat, Entry>)
    requires AllKept(a, b) && AllKept(b, c)
    ensures AllKept(a, c)
  {
    forall id: nat | id in a ensures Kept(a[id], c[id]) {
      assert Kept(a[id], b[id]) && Kept(b[id], c[id]);
    }
  }

  lemma {:induction false} ReadersUpdate(parties: seq<Party>, i: nat, p: Party, id: nat)
    requires i < |parties|
    ensures Readers(parties[i := p], id) ==
            Readers(parties, id) - (if ReadNew(parties[i], id) then 1 else 0) + (if ReadNew(p, id) then 1 else 0)
  {
    if i == 0 {
      assert parties[0 := p][1..] == parties[1..];
    } else {
      assert parties[i := p][1..] == parties[1..][i - 1 := p];
      ReadersUpdate(parties[1..], i - 1, p, id);
    }
  }

  /** A move of one call that commits nothing. */
  lemma QuietMove(s: State, i: nat, p: Phase, txs0: nat)
    requires Inv(s, txs0) && i < |s.parties| && !s.parties[i].phase.Committed? && !p.Committed?
    requires p.Open? ==> p.from == s.commits && p.snap == s.db.entries
    ensures Inv(Goto(s, i, p), txs0)
  {
    var t, party := Goto(s, i, p), s.parties[i].(phase := p);
    forall k | 0 <= k < |t.parties| ensures PartyOk(t, t.parties[k]) {
      assert PartyOk(s, s.parties[k]);
    }
    forall k, l | 0 <= k < |t.parties| && 0 <= l < |t.parties| ensures SeesResolved(t.parties[k], t.parties[l]) {
      assert SeesResolved(s.parties[k], s.parties[l]) && PartyOk(s, s.parties[k]);
    }
    forall id: nat ensures multiset(t.inserted)[id] == Readers(t.parties, id) {
      ReadersUpdate(s.parties, i, party, id);
    }
  }

  /** The read of an open call is fit to be written from. */
  lemma OpenReady(s: State, i: nat, txs0: nat)
    requires Inv(s, txs0) && i < |s.parties| && s.parties[i].phase.Open?
    ensures var c, snap := s.parties[i].call, s.parties[i].phase.snap;
            && ReadyToWrite(Work0(s.db, s.inserted), RunIds(s.db, snap, c), snap, c.scope)
            && forall id: nat :: id in RunIds(s.db, snap, c) <==> id in snap && InRun(snap[id], c.scope, c.run)
  {
    assert PartyOk(s, s.parties[i]);
    var c, snap := s.parties[i].call, s.parties[i].phase.snap;
    forall id: nat | id in RunIds(s.db, snap, c) ensures snap[id].id == id && s.db.entries[id].scope == c.scope {
      assert Kept(snap[id], s.db.entries[id]);
    }
  }

  /** The job that a committing call stores. */
  lemma FinishedJob(s: State, i: nat, txs0: nat) returns (j: Job)
    requires Inv(s, txs0) && i < |s.parties| && s.parties[i].phase.Open?
    requires Step(s, Finish(i)).parties[i].phase.Committed?
    ensures var c, snap, from := s.parties[i].call, s.parties[i].phase.snap, s.parties[i].phase.from;
            var t, ids := Step(s, Finish(i)), RunIds(s.db, snap, c);
            && c.run in s.db.runs
            && ReadyToWrite(Work0(s.db, s.inserted), ids, snap, c.scope)
            && ProcessReads(Work0(s.db, s.inserted), ids, snap, c.scope, c.run, c.policy) == Some(j)
            && t == State(Commit(s.db, c.run, ids, j.work), s.commits + 1, j.inserted,
                          s.parties[i := Party(c, Committed(snap, from, s.commits + 1))])
  {
    OpenReady(s, i, txs0);
    var c, snap := s.parties[i].call, s.parties[i].phase.snap;
    j := ProcessReads(Work0(s.db, s.inserted), RunIds(s.db, snap, c), snap, c.scope, c.run, c.policy).value;
  }

  lemma FinishedEntries(s: State, i: nat, txs0: nat)
    requires Inv(s, txs0) && i < |s.parties| && s.parties[i].phase.Open?
    requires Step(s, Finish(i)).parties[i].phase.Committed?
    ensures var c, snap := s.parties[i].call, s.parties[i].phase.snap;
            var t, ids := Step(s, Finish(i)), RunIds(s.db, snap, c);
            && AllKept(s.db.entries, t.db.entries) && t.db.order == s.db.order
            && forall id: nat :: id in ids && Creates(snap[id]) ==> id in t.db.entries && t.db.entries[id].resolved
  {
    var j := FinishedJob(s, i, txs0);
    var c, snap := s.parties[i].call, s.parties[i].phase.snap;
    WritesKeep(Work0(s.db, s.inserted), RunIds(s.db, snap, c), snap, c.scope, c.run, c.policy);
  }

  lemma FinishedInserts(s: State, i: nat, txs0: nat)
    requires Inv(s, txs0) && i < |s.parties| && s.parties[i].phase.Open?
    requires Step(s, Finish(i)).parties[i].phase.Committed?
    ensures var c, snap := s.parties[i].call, s.parties[i].phase.snap;
            var t, ids := Step(s, Finish(i)), RunIds(s.db, snap, c);
            && (forall id: nat :: id in ids ==> id in snap)
            && t.inserted == s.inserted + Creators(ids, snap)
            && |t.db.txs| == |s.db.txs| + |Creators(ids, snap)|
            && IdsUsed(t.db.txs, t.db.nextId)
  {
    var j := FinishedJob(s, i, txs0);
    var c, snap := s.parties[i].call, s.parties[i].phase.snap;
    WritesInsert(Work0(s.db, s.inserted), RunIds(s.db, snap, c), snap, c.scope, c.run, c.policy);
    WritesCount(Work0(s.db, s.inserted), RunIds(s.db, snap, c), snap, c.scope, c.run, c.policy);
  }

  /** What a commit of an open call does. */
  lemma Finished(s: State, i: nat, txs0: nat)
    requires Inv(s, txs0) && i < |s.parties| && s.parties[i].phase.Open?
    requires Step(s, Finish(i)).parties[i].phase.Committed?
    ensures var c, snap, from := s.parties[i].call, s.parties[i].phase.snap, s.parties[i].phase.from;
            var t, ids := Step(s, Finish(i)), RunIds(s.db, snap, c);
            && t.commits == s.commits + 1 && t.parties == s.parties[i := Party(c, Committed(snap, from, s.commits + 1))]
            && AllKept(s.db.entries, t.db.entries) && DbOk(t.db)
            && (forall id: nat :: id in ids && Creates(snap[id]) ==> id in t.db.entries && t.db.entries[id].resolved)
            && t.inserted == s.inserted + Creators(ids, snap)
            && |t.db.txs| == |s.db.txs| + |Creators(ids, snap)|
  {
    var j := FinishedJob(s, i, txs0);
    FinishedEntries(s, i, txs0);
    FinishedInserts(s, i, txs0);
    DbOkLater(s.db, Step(s, Finish(i)).db);
  }

  lemma DbOkLater(db: Db, next: Db)
    requires DbOk(db) && next.order == db.order && AllKept(db.entries, next.entries) && IdsUsed(next.txs, next.nextId)
    ensures DbOk(next)
  {
    forall id: nat | id in next.entries ensures next.entries[id].id == id {
      assert Kept(db.entries[id], next.entries[id]);
    }
  }

  lemma FinishKeepsInv(s: State, i: nat, txs0: nat)
    requires Inv(s, txs0) && i < |s.parties| && s.parties[i].phase.Open?
    requires Step(s, Finish(i)).parties[i].phase.Committed?
    ensures Inv(Step(s, Finish(i)), txs0)
  {
    var t := Step(s, Finish(i));
    Finished(s, i, txs0);
    forall k | 0 <= k < |t.parties| ensures PartyOk(t, t.parties[k]) {
      FinishParty(s, i, k, txs0);
    }
    forall k, l | 0 <= k < |t.parties| && 0 <= l < |t.parties| ensures SeesResolved(t.parties[k], t.parties[l]) {
      FinishSees(s, i, k, l, txs0);
    }
    forall id: nat ensures multiset(t.inserted)[id] == Readers(t.parties, id) {
      FinishCounts(s, i, id, txs0);
    }
  }

  lemma FinishParty(s: State, i: nat, k: nat, txs0: nat)
    requires Inv(s, txs0) && i < |s.parties| && s.parties[i].phase.Open? && k < |s.parties|
    requires Step(s, Finish(i)).parties[i].phase.Committed?
    ensures var t := Step(s, Finish(i)); |t.parties| == |s.parties| && PartyOk(t, t.parties[k])
  {
    var t := Step(s, Finish(i));
    Finished(s, i, txs0);
    OpenReady(s, i, txs0);
    assert PartyOk(s, s.parties[k]);
    if HasRead(s.parties[k]) { AllKeptTransitive(s.parties[k].phase.snap, s.db.entries, t.db.entries); }
    forall id: nat | ReadNew(t.parties[k], id) ensures id in t.db.entries && t.db.entries[id].resolved {
      if k != i { assert Kept(s.db.entries[id], t.db.entries[id]); }
    }
  }

  lemma FinishSees(s: State, i: nat, k: nat, l: nat, txs0: nat)
    requires Inv(s, txs0) && i < |s.parties| && s.parties[i].phase.Open? && k < |s.parties| && l < |s.parties|
    requires Step(s, Finish(i)).parties[i].phase.Committed?
    ensures var t := Step(s, Finish(i)); |t.parties| == |s.parties| && SeesResolved(t.parties[k], t.parties[l])
  {
    Finished(s, i, txs0);
    assert SeesResolved(s.parties[k], s.parties[l]) && PartyOk(s, s.parties[l]);
  }

  lemma FinishCounts(s: State, i: nat, id: nat, txs0: nat)
    requires Inv(s, txs0) && i < |s.parties| && s.parties[i].phase.Open?
    requires Step(s, Finish(i)).parties[i].phase.Committed?
    ensures var t := Step(s, Finish(i)); multiset(t.inserted)[id] == Readers(t.parties, id)
  {
    var t, c, snap := Step(s, Finish(i)), s.parties[i].call, s.parties[i].phase.snap;
    var ids := RunIds(s.db, snap, c);
    Finished(s, i, txs0);
    OpenReady(s, i, txs0);
    CreatorsOnce(ids, snap, id);
    ReadersUpdate(s.parties, i, t.parties[i], id);
    assert multiset(t.inserted)[id] == multiset(s.inserted)[id] + multiset(Creators(ids, snap))[id];
  }

  lemma StepKeepsInv(s: State, a: Action, txs0: nat)
    requires Inv(s, txs0)
    ensures Inv(Step(s, a), txs0)
  {
    if a.i < |s.parties| {
      var phase := s.parties[a.i].phase;
      match a
      case Check(i) =>
        if phase.Idle? { QuietMove(s, i, Step(s, a).parties[i].phase, txs0); }
      case Read(i) =>
        if phase.Checked? { QuietMove(s, i, Open(s.db.entries, s.commits), txs0); }
      case Abort(i) =>
        if phase.Checked? || phase.Open? { QuietMove(s, i, Ended, txs0); }
      case Finish(i) =>
        if phase.Open? {
          if Step(s, a).parties[i].phase.Committed? { FinishKeepsInv(s, i, txs0); } else { QuietMove(s, i, Ended, txs0); }
        }
    }
  }

  lemma InitialInv(s: State)
    requires Initial(s)
    ensures Inv(s, |s.db.txs|)
  {
    forall id: nat ensures Readers(s.parties, id) == 0 { NoReaders(s.parties, id); }
  }

  lemma {:induction false} NoReaders(parties: seq<Party>, id: nat)
    requires forall i :: 0 <= i < |parties| ==> !parties[i].phase.Committed?
    ensures Readers(parties, id) == 0
  {
    if parties != [] { NoReaders(parties[1..], id); }
  }

  lemma {:induction false} InvRun(s: State, actions: seq<Action>, txs0: nat)
    requires Inv(s, txs0)
    ensures Inv(Exec(s, actions), txs0)
    decreases |actions|
  {
    if actions != [] {
      StepKeepsInv(s, actions[0], txs0);
      InvRun(Step(s, actions[0]), actions[1..], txs0);
    }
  }

  // ---- when an entry is paid for twice ----

  lemma {:induction false} TwoReaders(parties: seq<Party>, id: nat)
    ensures Readers(parties, id) > 0 <==> exists i :: 0 <= i < |parties| && ReadNew(parties[i], id)
    ensures Readers(parties, id) > 1 <==>
            exists i, k :: 0 <= i < k < |parties| && ReadNew(parties[i], id) && ReadNew(parties[k], id)
  {
    if parties != [] {
      var rest := parties[1..];
      TwoReaders(rest, id);
      assert forall i :: 0 <= i < |rest| ==> rest[i] == parties[i + 1];
      if Readers(rest, id) > 1 {
        var i, k :| 0 <= i < k < |rest| && ReadNew(rest[i], id) && ReadNew(rest[k], id);
        assert ReadNew(parties[i + 1], id) && ReadNew(parties[k + 1], id);
      }
      if Readers(rest, id) > 0 {
        var k :| 0 <= k < |rest| && ReadNew(rest[k], id);
        assert ReadNew(parties[k + 1], id);
      }
      if i, k :| 0 <= i < k < |parties| && ReadNew(parties[i], id) && ReadNew(parties[k], id) {
        assert ReadNew(rest[k - 1], id);
        if i > 0 { assert ReadNew(rest[i - 1], id); }
      }
      if i :| 0 <= i < |parties| && ReadNew(parties[i], id) {
        if i > 0 { assert ReadNew(rest[i - 1], id); }
      }
    }
  }

  /** Two calls that both created a transaction for an entry had overlapped. */
  lemma CreatorsOverlap(s: State, i: nat, k: nat, id: nat, txs0: nat)
    requires Inv(s, txs0) && i < k < |s.parties| && ReadNew(s.parties[i], id) && ReadNew(s.parties[k], id)
    ensures Overlapped(s, i, k, id)
  {
    assert SeesResolved(s.parties[i], s.parties[k]) && SeesResolved(s.parties[k], s.parties[i]);
  }

  /**
   * Over any interleaving of any calls: an entry gets at most one transaction exactly when no two
   * committed calls that had read it as new overlapped, each reading before the other committed.
   */
  lemma AtMostOnceIff(s0: State, actions: seq<Action>, id: nat)
    requires Initial(s0)
    ensures var s := Exec(s0, actions);
            multiset(s.inserted)[id] <= 1 <==> !exists i: nat, k: nat :: Overlapped(s, i, k, id)
  {
    var s := Exec(s0, actions);
    InitialInv(s0);
    InvRun(s0, actions, |s0.db.txs|);
    TwoReaders(s.parties, id);
    if Readers(s.parties, id) > 1 {
      var i, k :| 0 <= i < k < |s.parties| && ReadNew(s.parties[i], id) && ReadNew(s.parties[k], id);
      CreatorsOverlap(s, i, k, id, |s0.db.txs|);
    }
  }

  /** Each insert is one transaction: the table grows by as many as were inserted for all entries. */
  lemma InsertsCounted(s0: State, actions: seq<Action>)
    requires Initial(s0)
    ensures var s := Exec(s0, actions); |s.db.txs| == |s0.db.txs| + |s.inserted|
  {
    InitialInv(s0);
    InvRun(s0, actions, |s0.db.txs|);
  }

  /** An open call whose read points nowhere out of scope commits, and leaves every transaction where it was. */
  lemma CommitsUnblocked(s: State, i: nat, used: nat, txs0: nat)
    requires Inv(s, txs0) && i < |s.parties| && s.parties[i].phase.Open? && s.parties[i].call.run in s.db.runs
    requires used <= s.db.nextId && forall id: nat :: id in s.parties[i].phase.snap ==> PointersUsed(s.parties[i].phase.snap[id], used)
    requires var c, snap := s.parties[i].call, s.parties[i].phase.snap;
             forall id: nat :: id in snap && InRun(snap[id], c.scope, c.run) ==> !Blocked(snap[id], s.db.txs, c.scope, c.policy)
    ensures var t, c := Step(s, Finish(i)), s.parties[i].call;
            && t.parties[i].phase.Committed? && t.db.runs.Keys == s.db.runs.Keys && s.db.nextId <= t.db.nextId
            && forall x: nat :: x in s.db.txs ==> TxInScope(t.db.txs, c.scope, x) == TxInScope(s.db.txs, c.scope, x)
  {
    var c, snap := s.parties[i].call, s.parties[i].phase.snap;
    var ids := RunIds(s.db, snap, c);
    OpenReady(s, i, txs0);
    WritesThrowIff(Work0(s.db, s.inserted), ids, snap, c.scope, c.run, c.policy, used);
    WritesCount(Work0(s.db, s.inserted), ids, snap, c.scope, c.run, c.policy);
  }

  function Twice(db: Db, scope: Scope, run: nat, p: Policy, q: Policy, phase: Phase): State {
    State(db, 0, [], [Party(Call(scope, run, p), phase), Party(Call(scope, run, q), phase)])
  }

  ghost predicate BothOpen(s: State, db: Db, scope: Scope, run: nat, p: Policy, q: Policy) {
    && Valid(db) && s == Twice(db, scope, run, p, q, Open(db.entries, 0)) && Inv(s, |db.txs|)
    && Applicable(db, scope, run) && !CrossScope(db, scope, run, p) && !CrossScope(db, scope, run, q)
  }

  lemma FirstCommits(s: State, db: Db, scope: Scope, run: nat, p: Policy, q: Policy)
    requires BothOpen(s, db, scope, run, p, q)
    ensures var t := Step(s, Finish(0));
            && Inv(t, |db.txs|) && t.commits == 1 && run in t.db.runs && db.nextId <= t.db.nextId
            && t.parties == [Party(Call(scope, run, p), Committed(db.entries, 0, 1)),
                             Party(Call(scope, run, q), Open(db.entries, 0))]
            && forall x: nat :: x in db.txs ==> TxInScope(t.db.txs, scope, x) == TxInScope(db.txs, scope, x)
  {
    CommitsUnblocked(s, 0, db.nextId, |db.txs|);
    Finished(s, 0, |db.txs|);
    StepKeepsInv(s, Finish(0), |db.txs|);
  }

  lemma StillUnblocked(db: Db, txs: map<nat, Transacao>, scope: Scope, run: nat, q: Policy, id: nat)
    requires !CrossScope(db, scope, run, q) && id in db.entries && InRun(db.entries[id], scope, run)
    requires forall x: nat :: x in db.txs ==> TxInScope(txs, scope, x) == TxInScope(db.txs, scope, x)
    ensures !Blocked(db.entries[id], txs, scope, q)
  {
    assert !Blocked(db.entries[id], db.txs, scope, q);
  }

  lemma SecondCommits(s: State, db: Db, scope: Scope, run: nat, p: Policy, q: Policy)
    requires Valid(db) && !CrossScope(db, scope, run, q)
    requires Inv(s, |db.txs|) && s.commits == 1 && run in s.db.runs && db.nextId <= s.db.nextId
    requires s.parties == [Party(Call(scope, run, p), Committed(db.entries, 0, 1)),
                           Party(Call(scope, run, q), Open(db.entries, 0))]
    requires forall x: nat :: x in db.txs ==> TxInScope(s.db.txs, scope, x) == TxInScope(db.txs, scope, x)
    ensures var t := Step(s, Finish(1));
            && Inv(t, |db.txs|)
            && t.parties == [Party(Call(scope, run, p), Committed(db.entries, 0, 1)),
                             Party(Call(scope, run, q), Committed(db.entries, 0, 2))]
  {
    forall id: nat | id in db.entries && InRun(db.entries[id], scope, run) ensures !Blocked(db.entries[id], s.db.txs, scope, q) {
      StillUnblocked(db, s.db.txs, scope, run, q, id);
    }
    CommitsUnblocked(s, 1, db.nextId, |db.txs|);
    Finished(s, 1, |db.txs|);
    StepKeepsInv(s, Finish(1), |db.txs|);
  }

  /** The six steps of two calls that overlap. */
  const OVERLAP: seq<Action> := [Check(0), Check(1), Read(0), Read(1), Finish(0), Finish(1)]

  lemma ExecOverlap(db: Db, scope: Scope, run: nat, p: Policy, q: Policy)
    requires Applicable(db, scope, run)
    ensures var s4 := Twice(db, scope, run, p, q, Open(db.entries, 0));
            && Exec(Twice(db, scope, run, p, q, Idle), OVERLAP) == Step(Step(s4, Finish(0)), Finish(1))
            && Exec(Twice(db, scope, run, p, q, Idle), OVERLAP[..4]) == s4
  {
    BothRead(db, scope, run, p, q);
    assert OVERLAP[..4] == [Check(0), Check(1), Read(0), Read(1)];
    assert OVERLAP[..4] + [Finish(0), Finish(1)] == OVERLAP;
    ExecAppend(Twice(db, scope, run, p, q, Idle), OVERLAP[..4], [Finish(0), Finish(1)]);
    ExecTwo(Twice(db, scope, run, p, q, Open(db.entries, 0)), Finish(0), Finish(1));
  }

  /**
   * The overlap is real: on any run that one call alone would apply, two calls that both read before
   * either commits insert two transactions for every new entry.
   */
  lemma OverlapDoubles(db: Db, scope: Scope, run: nat, p: Policy, q: Policy, id: nat)
    requires Valid(db) && Applicable(db, scope, run) && !CrossScope(db, scope, run, p) && !CrossScope(db, scope, run, q)
    requires id in db.entries && InRun(db.entries[id], scope, run) && Creates(db.entries[id])
    ensures var s0 := Twice(db, scope, run, p, q, Idle);
            var s := Exec(s0, OVERLAP);
            Initial(s0) && Overlapped(s, 0, 1, id) && multiset(s.inserted)[id] == 2
  {
    var s0, s4 := Twice(db, scope, run, p, q, Idle), Twice(db, scope, run, p, q, Open(db.entries, 0));
    InitialInv(s0);
    ExecOverlap(db, scope, run, p, q);
    InvRun(s0, OVERLAP[..4], |db.txs|);
    FirstCommits(s4, db, scope, run, p, q);
    SecondCommits(Step(s4, Finish(0)), db, scope, run, p, q);
    var t := Step(Step(s4, Finish(0)), Finish(1));
    ReadersOfTwo(t.parties[0], t.parties[1], id);
  }

  lemma ReadersOfTwo(a: Party, b: Party, id: nat)
    requires ReadNew(a, id) && ReadNew(b, id)
    ensures Readers([a, b], id) == 2
  {
    assert [a, b][1..] == [b] && [b][1..] == [];
    assert Readers([b], id) == 1;
  }

  lemma ExecTwo(s: State, a: Action, b: Action)
    ensures Exec(s, [a, b]) == Step(Step(s, a), b)
  {
    assert [a, b][1..] == [b] && [b][1..] == [];
    assert Exec(Step(s, a), [b]) == Step(Step(s, a), b);
  }

  lemma {:induction false} ExecAppend(s: State, a: seq<Action>, b: seq<Action>)
    ensures Exec(s, a + b) == Exec(Exec(s, a), b)
    decreases |a|
  {
    if a == [] {
      assert a + b == b;
    } else {
      assert (a + b)[1..] == a[1..] + b;
      ExecAppend(Step(s, a[0]), a[1..], b);
    }
  }

  lemma BothRead(db: Db, scope: Scope, run: nat, p: Policy, q: Policy)
    requires Applicable(db, scope, run)
    ensures Exec(Twice(db, scope, run, p, q, Idle), [Check(0), Check(1), Read(0), Read(1)]) ==
            Twice(db, scope, run, p, q, Open(db.entries, 0))
  {
    var s0, s2 := Twice(db, scope, run, p, q, Idle), Twice(db, scope, run, p, q, Checked);
    assert Step(Step(s0, Check(0)), Check(1)) == s2;
    assert Step(Step(s2, Read(0)), Read(1)) == Twice(db, scope, run, p, q, Open(db.entries, 0));
    assert [Check(0), Check(1)] + [Read(0), Read(1)] == [Check(0), Check(1), Read(0), Read(1)];
    ExecAppend(s0, [Check(0), Check(1)], [Read(0), Read(1)]);
    ExecTwo(s0, Check(0), Check(1));
    ExecTwo(s2, Read(0), Read(1));
  }

  // ---- one call by itself ----

  /** On rows unchanged since they were read, the whole loop is the reference's. */
  lemma {:induction false} ReadsAreProcessAll(j: Job, ids: seq<nat>, snap: map<nat, Entry>, scope: Scope, run: nat, policy: Policy)
    requires Ready(j.work, ids, snap, scope)
    ensures ProcessReads(j, ids, snap, scope, run, policy).Some? <==> ProcessAll(j.work, ids, snap, scope, run, policy).Some?
    ensures ProcessReads(j, ids, snap, scope, run, policy).Some? ==>
              Some(ProcessReads(j, ids, snap, scope, run, policy).value.work) == ProcessAll(j.work, ids, snap, scope, run, policy)
    decreases |ids|
  {
    if ids != [] {
      var e := snap[ids[0]];
      ProcessOne(j.work, ids, snap, scope, run, policy);
      ReadIsProcess(j, e, scope, run, policy);
      if ProcessRead(j, e, scope, run, policy).Some? {
        ReadsAreProcessAll(ProcessRead(j, e, scope, run, policy).value, ids[1..], snap, scope, run, policy);
      }
    }
  }

  lemma ExecThree(s: State, a: Action, b: Action, c: Action)
    ensures Exec(s, [a, b, c]) == Step(Step(Step(s, a), b), c)
  {
    assert [a] + [b, c] == [a, b, c];
    ExecAppend(s, [a], [b, c]);
    ExecTwo(Step(s, a), b, c);
    assert [a][1..] == [];
  }

  /** Between any other calls' steps, a call whose three steps follow each other is the reference call: it
      commits what that commits, or ends with nothing changed where that throws. */
  lemma UndisturbedIsApply(s: State, i: nat)
    requires Valid(s.db) && i < |s.parties| && s.parties[i].phase == Idle
    ensures var c, end := s.parties[i].call, Exec(s, [Check(i), Read(i), Finish(i)]);
            && end.db == Apply(s.db, c.scope, c.run, c.policy).0
            && |end.parties| == |s.parties| && (forall k :: 0 <= k < |s.parties| && k != i ==> end.parties[k] == s.parties[k])
            && if Apply(s.db, c.scope, c.run, c.policy).1.Done?
               then end.commits == s.commits + 1
                    && end.parties[i] == Party(c, Committed(s.db.entries, s.commits, s.commits + 1))
               else end.commits == s.commits && end.inserted == s.inserted && end.parties[i] == Party(c, Ended)
  {
    var c := s.parties[i].call;
    ExecThree(s, Check(i), Read(i), Finish(i));
    if Applicable(s.db, c.scope, c.run) {
      var read := Goto(Goto(s, i, Checked), i, Open(s.db.entries, s.commits));
      assert Step(Step(s, Check(i)), Read(i)) == read;
      FreshFinish(read, i);
    } else {
      assert Step(s, Check(i)) == Goto(s, i, Ended);
    }
  }

  /** Finishing on the rows as they were read is the reference call. */
  lemma FreshFinish(s: State, i: nat)
    requires Valid(s.db) && i < |s.parties| && s.parties[i].phase == Open(s.db.entries, s.commits)
    requires Applicable(s.db, s.parties[i].call.scope, s.parties[i].call.run)
    ensures var c, end := s.parties[i].call, Step(s, Finish(i));
            && end.db == Apply(s.db, c.scope, c.run, c.policy).0
            && if Apply(s.db, c.scope, c.run, c.policy).1.Done?
               then end.commits == s.commits + 1
                    && end.parties == s.parties[i := Party(c, Committed(s.db.entries, s.commits, s.commits + 1))]
               else end == Goto(s, i, Ended)
  {
    var c := s.parties[i].call;
    StartReady(s.db, c.scope, c.run);
    ReadsAreProcessAll(Work0(s.db, s.inserted), RunIds(s.db, s.db.entries, c), s.db.entries, c.scope, c.run, c.policy);
  }

  /** A call that fails after its check, or once it ended, changes nothing. */
  lemma FailureLeavesNothing(s: State, a: Action)
    requires a.i < |s.parties|
    requires s.parties[a.i].phase.Ended? || (a.Abort? && (s.parties[a.i].phase.Checked? || s.parties[a.i].phase.Open?))
    ensures var c := s.parties[a.i].call; Step(s, a) == s.(parties := s.parties[a.i := Party(c, Ended)])
  {
  }
}
