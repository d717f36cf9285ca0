/** Applying a reconciliation run: one transaction over entries, transactions and the run's status. */
module ImportReview {
  import opened Options

  datatype Scope = Scope(tenant: string, agent: string)
  datatype Oper = Credit | Debit
  datatype EntryStatus = Matched | New | Candidate | Rejected | Unknown
  datatype RunStatus = PendingReview | Aplicado | OtherStatus
  datatype TxStatus = Recebida | Paga | Prevista
  datatype Policy = Accept | Reject | Skip

  datatype Run = Run(id: nat, scope: Scope, status: RunStatus)

  datatype Entry = Entry(id: nat, run: nat, scope: Scope, status: EntryStatus, matched: Option<nat>,
                         candidates: seq<nat>, resolved: bool, oper: Oper, day: int, value: int,
                         fitid: Option<string>)

  datatype Transacao = Transacao(scope: Scope, income: bool, value: int, day: int, paid: Option<int>,
                                 status: TxStatus, fitid: Option<string>, importRun: Option<nat>)

  datatype Totals = Totals(confirmed: nat, created: nat, settled: nat, skipped: nat)

  function Sum(t: Totals): nat { t.confirmed + t.created + t.settled + t.skipped }

  datatype Error =
    | RunNotInScope
    | RunNotPending(status: RunStatus)
    | CrossScopeWrite

  datatype Outcome<T> = Done(value: T) | Thrown(error: Error)

  /** `order` is the order in which the database returns entries; ids below `nextId` are used up. */
  datatype Db = Db(runs: map<nat, Run>, entries: map<nat, Entry>, order: seq<nat>, txs: map<nat, Transacao>, nextId: nat)

  predicate Distinct(ids: seq<nat>) { forall i, j :: 0 <= i < j < |ids| ==> ids[i] != ids[j] }

  predicate PointersUsed(e: Entry, nextId: nat) {
    (e.matched.Some? ==> e.matched.value < nextId) && forall c :: c in e.candidates ==> c < nextId
  }

  /** Primary keys, and generated ids that no row mentions yet. */
  ghost predicate Valid(db: Db) {
    && (forall id: nat :: id in db.runs ==> db.runs[id].id == id)
    && (forall id: nat :: id in db.entries ==> db.entries[id].id == id && PointersUsed(db.entries[id], db.nextId))
    && Distinct(db.order)
    && (forall id: nat :: id in db.order <==> id in db.entries)
    && (forall id: nat :: id in db.txs ==> id < db.nextId)
  }

  // ---- one entry ----

  datatype Work = Work(entries: map<nat, Entry>, txs: map<nat, Transacao>, nextId: nat, totals: Totals)

  function StatusOf(o: Oper): TxStatus { if o == Credit then Recebida else Paga }

  predicate TxInScope(txs: map<nat, Transacao>, scope: Scope, id: nat) { id in txs && txs[id].scope == scope }

  function Confirmed(t: Transacao, e: Entry, run: nat): Transacao {
    t.(paid := Some(e.day), status := StatusOf(e.oper), fitid := e.fitid, importRun := Some(run))
  }

  /** `applyMatchedTo`; None when the scoped UPDATE matches no row. */
  function ApplyMatchedTo(txs: map<nat, Transacao>, scope: Scope, e: Entry, id: nat, run: nat): Option<map<nat, Transacao>> {
    if TxInScope(txs, scope, id)
    then Some(txs[id := Confirmed(txs[id], e, run)])
    else None
  }

  /** `updateEntryInScope`. */
  function UpdateEntry(entries: map<nat, Entry>, scope: Scope, id: nat, next: Entry): Option<map<nat, Entry>> {
    if id in entries && entries[id].scope == scope then Some(entries[id := next]) else None
  }

  function Created(scope: Scope, e: Entry, run: nat): Transacao {
    Transacao(scope, e.oper == Credit, e.value, e.day, Some(e.day), StatusOf(e.oper), e.fitid, Some(run))
  }

  function Skipped(w: Work): Work { w.(totals := w.totals.(skipped := w.totals.skipped + 1)) }

  /** The loop body of `applyRun`; None when it throws. */
  function Process(w: Work, e: Entry, scope: Scope, run: nat, policy: Policy): Option<Work> {
    if e.resolved then Some(Skipped(w))
    else match e.status
      case Matched =>
        if e.matched.None? then Some(Skipped(w))
        else
          var txs :- ApplyMatchedTo(w.txs, scope, e, e.matched.value, run);
          var entries :- UpdateEntry(w.entries, scope, e.id, e.(resolved := true));
          Some(Work(entries, txs, w.nextId, w.totals.(confirmed := w.totals.confirmed + 1)))
      case New =>
        var entries :- UpdateEntry(w.entries, scope, e.id,
                                   e.(resolved := true, matched := Some(w.nextId), status := Matched));
        Some(Work(entries, w.txs[w.nextId := Created(scope, e, run)], w.nextId + 1,
                  w.totals.(created := w.totals.created + 1)))
      case Candidate =>
        if policy == Accept then
          if e.candidates == [] then Some(Skipped(w))
          else
            var txs :- ApplyMatchedTo(w.txs, scope, e, e.candidates[0], run);
            var entries :- UpdateEntry(w.entries, scope, e.id,
                                       e.(status := Matched, matched := Some(e.candidates[0]), resolved := true));
            Some(Work(entries, txs, w.nextId, w.totals.(settled := w.totals.settled + 1)))
        else if policy == Reject then
          var entries :- UpdateEntry(w.entries, scope, e.id, e.(status := Rejected, resolved := true));
          Some(Work(entries, w.txs, w.nextId, w.totals.(settled := w.totals.settled + 1)))
        else Some(Skipped(w))
      case Rejected => Some(Skipped(w))
      case Unknown => Some(Skipped(w))
  }

  function ProcessAll(w: Work, ids: seq<nat>, snap: map<nat, Entry>, scope: Scope, run: nat, policy: Policy): Option<Work>
    requires forall id: nat :: id in ids ==> id in snap
    decreases |ids|
  {
    if ids == [] then Some(w)
    else
      var next :- Process(w, snap[ids[0]], scope, run, policy);
      ProcessAll(next, ids[1..], snap, scope, run, policy)
  }

  predicate InRun(e: Entry, scope: Scope, run: nat) { e.run == run && e.scope == scope }

  function Select(order: seq<nat>, entries: map<nat, Entry>, scope: Scope, run: nat): (ids: seq<nat>)
    ensures forall id: nat :: id in ids <==> id in order && id in entries && InRun(entries[id], scope, run)
    ensures Distinct(order) ==> Distinct(ids)
  {
    if order == [] then []
    else
      var rest := Select(order[1..], entries, scope, run);
      if order[0] in entries && InRun(entries[order[0]], scope, run) then [order[0]] + rest else rest
  }

  /** The run is `aplicado` only when every entry of it is resolved. */
  function Commit(db: Db, run: nat, ids: seq<nat>, w: Work): Db
    requires run in db.runs
  {
    var open := exists id: nat :: id in ids && id in w.entries && !w.entries[id].resolved;
    Db(db.runs[run := db.runs[run].(status := if open then PendingReview else Aplicado)],
       w.entries, db.order, w.txs, w.nextId)
  }

  /** `applyRun`: the database after the call and what the call returns or throws. */
  function Apply(db: Db, scope: Scope, run: nat, policy: Policy): (Db, Outcome<Totals>) {
    if run !in db.runs || db.runs[run].scope != scope then (db, Thrown(RunNotInScope))
    else if db.runs[run].status != PendingReview then (db, Thrown(RunNotPending(db.runs[run].status)))
    else
      var ids := Select(db.order, db.entries, scope, run);
      match ProcessAll(Work(db.entries, db.txs, db.nextId, Totals(0, 0, 0, 0)), ids, db.entries, scope, run, policy)
      case None => (db, Thrown(CrossScopeWrite))
      case Some(w) =>
        (Commit(db, run, ids, w), Done(w.totals))
  }

  // ---- what each entry asks for, read off the entry alone ----

  /** The existing transaction an entry confirms. */
  function Target(e: Entry, policy: Policy): Option<nat> {
    if e.resolved then None
    else if e.status == Matched then e.matched
    else if e.status == Candidate && policy == Accept && e.candidates != [] then Some(e.candidates[0])
    else None
  }

  predicate Creates(e: Entry) { !e.resolved && e.status == New }

  predicate Resolves(e: Entry, policy: Policy) {
    || Target(e, policy).Some?
    || Creates(e)
    || (!e.resolved && e.status == Candidate && policy == Reject)
  }

  /** An entry is settled for good, and never otherwise altered. */
  predicate Settled(e: Entry, next: Entry, policy: Policy) {
    if !Resolves(e, policy) then next == e
    else
      && next == e.(resolved := true, status := next.status, matched := next.matched)
      && next.status == (if e.status == Candidate && policy == Reject then Rejected else Matched)
      && (if Creates(e) then next.matched.Some?
          else next.matched == if Target(e, policy).Some? then Target(e, policy) else e.matched)
  }

  predicate Blocked(e: Entry, txs: map<nat, Transacao>, scope: Scope, policy: Policy) {
    Target(e, policy).Some? && !TxInScope(txs, scope, Target(e, policy).value)
  }

  /** The entries still to be processed are as the snapshot has them. */
  ghost predicate Ready(w: Work, ids: seq<nat>, snap: map<nat, Entry>, scope: Scope) {
    && Distinct(ids)
    && (forall id: nat :: id in ids ==> id in snap && snap[id].id == id && snap[id].scope == scope)
    && (forall id: nat :: id in ids ==> id in w.entries && w.entries[id] == snap[id] && PointersUsed(snap[id], w.nextId))
    && (forall id: nat :: id in w.txs ==> id < w.nextId)
  }

  lemma TargetUsed(e: Entry, policy: Policy, nextId: nat)
    requires PointersUsed(e, nextId) && Target(e, policy).Some?
    ensures Target(e, policy).value < nextId
  {
    if e.candidates != [] { assert e.candidates[0] in e.candidates; }
  }

  lemma ProcessEffect(w: Work, e: Entry, scope: Scope, run: nat, policy: Policy)
    requires e.id in w.entries && w.entries[e.id] == e && e.scope == scope
    ensures Process(w, e, scope, run, policy).None? <==> Blocked(e, w.txs, scope, policy)
    ensures Process(w, e, scope, run, policy).Some? ==>
              var next := Process(w, e, scope, run, policy).value;
              && e.id in next.entries
              && next.entries == w.entries[e.id := next.entries[e.id]]
              && Settled(e, next.entries[e.id], policy)
              && Sum(next.totals) == Sum(w.totals) + 1
              && next.totals.created == w.totals.created + (if Creates(e) then 1 else 0)
  {
  }

  lemma ProcessOne(w: Work, ids: seq<nat>, snap: map<nat, Entry>, scope: Scope, run: nat, policy: Policy)
    requires ids != [] && Ready(w, ids, snap, scope)
    ensures var e := snap[ids[0]];
            && e.id == ids[0] && e.id in w.entries && w.entries[e.id] == e && e.scope == scope
            && (Process(w, e, scope, run, policy).None? <==> Blocked(e, w.txs, scope, policy))
    ensures Process(w, snap[ids[0]], scope, run, policy).Some? ==>
              var e, next := snap[ids[0]], Process(w, snap[ids[0]], scope, run, policy).value;
              && Ready(next, ids[1..], snap, scope)
              && next.entries == w.entries[e.id := next.entries[e.id]]
              && Settled(e, next.entries[e.id], policy)
              && Sum(next.totals) == Sum(w.totals) + 1
              && next.totals.created == w.totals.created + (if Creates(e) then 1 else 0)
  {
    var e := snap[ids[0]];
    assert ids == [ids[0]] + ids[1..];
    assert ids[0] !in ids[1..];
    ProcessEffect(w, e, scope, run, policy);
    if Process(w, e, scope, run, policy).Some? { ProcessTxs(w, e, scope, run, policy, 0); }
  }

  /** What one processed entry does to the transactions. */
  lemma ProcessTxs(w: Work, e: Entry, scope: Scope, run: nat, policy: Policy, id: nat)
    requires Process(w, e, scope, run, policy).Some? && forall t: nat :: t in w.txs ==> t < w.nextId
    ensures var next := Process(w, e, scope, run, policy).value;
            && next.nextId == w.nextId + (if Creates(e) then 1 else 0)
            && next.txs.Keys == w.txs.Keys + (if Creates(e) then {w.nextId} else {})
            && (id in w.txs ==> TxInScope(next.txs, scope, id) == TxInScope(w.txs, scope, id))
            && (id in w.txs && Target(e, policy) != Some(id) ==> next.txs[id] == w.txs[id])
            && (id in w.txs && w.txs[id].scope != scope ==> next.txs[id] == w.txs[id])
            && (Creates(e) && id == w.nextId ==> next.txs[id] == Created(scope, e, run))
  {
  }

  ghost predicate AnyBlocked(ids: seq<nat>, snap: map<nat, Entry>, txs: map<nat, Transacao>, scope: Scope, policy: Policy)
    requires forall id: nat :: id in ids ==> id in snap
  {
    exists id: nat :: id in ids && Blocked(snap[id], txs, scope, policy)
  }

  /** The loop throws exactly when some entry points outside the scope, wherever it stands. */
  lemma {:induction false} ThrowsIffBlocked(w: Work, ids: seq<nat>, snap: map<nat, Entry>, scope: Scope, run: nat, policy: Policy)
    requires Ready(w, ids, snap, scope)
    ensures ProcessAll(w, ids, snap, scope, run, policy).None? <==> AnyBlocked(ids, snap, w.txs, scope, policy)
    decreases |ids|
  {
    if ids != [] {
      var e := snap[ids[0]];
      ProcessOne(w, ids, snap, scope, run, policy);
      assert ids == [ids[0]] + ids[1..];
      if Process(w, e, scope, run, policy).Some? {
        var next := Process(w, e, scope, run, policy).value;
        ThrowsIffBlocked(next, ids[1..], snap, scope, run, policy);
        forall id: nat | id in ids[1..]
          ensures Blocked(snap[id], next.txs, scope, policy) <==> Blocked(snap[id], w.txs, scope, policy)
        {
          var target := Target(snap[id], policy);
          if target.Some? {
            TargetUsed(snap[id], policy, w.nextId);
            ProcessTxs(w, e, scope, run, policy, target.value);
          }
        }
      }
    }
  }

  /** Every processed entry is settled by the policy; no other entry changes; the totals add up. */
  lemma {:induction false} EntriesSettled(w: Work, ids: seq<nat>, snap: map<nat, Entry>, scope: Scope, run: nat, policy: Policy)
    requires Ready(w, ids, snap, scope) && ProcessAll(w, ids, snap, scope, run, policy).Some?
    ensures var end := ProcessAll(w, ids, snap, scope, run, policy).value;
            && end.entries.Keys == w.entries.Keys
            && (forall id: nat :: id in w.entries && id !in ids ==> end.entries[id] == w.entries[id])
            && (forall id: nat :: id in ids ==> id in end.entries && Settled(snap[id], end.entries[id], policy))
            && Sum(end.totals) == Sum(w.totals) + |ids|
    decreases |ids|
  {
    if ids != [] {
      ProcessOne(w, ids, snap, scope, run, policy);
      var next := Process(w, snap[ids[0]], scope, run, policy).value;
      assert ids == [ids[0]] + ids[1..];
      assert ids[0] !in ids[1..];
      EntriesSettled(next, ids[1..], snap, scope, run, policy);
    }
  }

  function CountCreates(ids: seq<nat>, snap: map<nat, Entry>): nat
    requires forall id: nat :: id in ids ==> id in snap
  {
    if ids == [] then 0 else (if Creates(snap[ids[0]]) then 1 else 0) + CountCreates(ids[1..], snap)
  }

  ghost predicate Targeted(ids: seq<nat>, snap: map<nat, Entry>, policy: Policy, t: nat)
    requires forall id: nat :: id in ids ==> id in snap
  {
    exists id: nat :: id in ids && Target(snap[id], policy) == Some(t)
  }

  /** One transaction per new entry, under fresh ids; the rest change only where an entry points, in scope. */
  lemma {:induction false} TransactionsKept(w: Work, ids: seq<nat>, snap: map<nat, Entry>, scope: Scope, run: nat, policy: Policy, t: nat)
    requires Ready(w, ids, snap, scope) && ProcessAll(w, ids, snap, scope, run, policy).Some?
    ensures var end := ProcessAll(w, ids, snap, scope, run, policy).value;
            && (forall id: nat :: id in end.txs ==> id < end.nextId)
            && end.nextId == w.nextId + CountCreates(ids, snap)
            && end.totals.created == w.totals.created + CountCreates(ids, snap)
            && |end.txs| == |w.txs| + CountCreates(ids, snap)
            && (t in w.txs ==> t in end.txs)
            && (t in w.txs && w.txs[t].scope != scope ==> end.txs[t] == w.txs[t])
            && (t in w.txs && !Targeted(ids, snap, policy, t) ==> end.txs[t] == w.txs[t])
    decreases |ids|
  {
    if ids != [] {
      var e := snap[ids[0]];
      ProcessOne(w, ids, snap, scope, run, policy);
      ProcessTxs(w, e, scope, run, policy, t);
      var next := Process(w, e, scope, run, policy).value;
      assert ids == [ids[0]] + ids[1..];
      TransactionsKept(next, ids[1..], snap, scope, run, policy, t);
      assert w.nextId !in w.txs.Keys;
      assert |next.txs.Keys| == |w.txs.Keys| + if Creates(e) then 1 else 0;
      assert Target(e, policy) == Some(t) ==> Targeted(ids, snap, policy, t);
      assert Targeted(ids[1..], snap, policy, t) ==> Targeted(ids, snap, policy, t);
    }
  }

  lemma {:induction false} CreatedSurvives(w: Work, ids: seq<nat>, snap: map<nat, Entry>, scope: Scope, run: nat, policy: Policy, t: nat)
    requires Ready(w, ids, snap, scope) && ProcessAll(w, ids, snap, scope, run, policy).Some?
    requires t in w.txs && forall id: nat :: id in ids ==> Target(snap[id], policy) != Some(t)
    ensures var end := ProcessAll(w, ids, snap, scope, run, policy).value; t in end.txs && end.txs[t] == w.txs[t]
  {
    TransactionsKept(w, ids, snap, scope, run, policy, t);
  }

  /** An existing transaction ends as one of the entries that point at it confirms it. */
  ghost predicate ConfirmedBySome(ids: seq<nat>, snap: map<nat, Entry>, policy: Policy, run: nat, t: nat, was: Transacao, next: Transacao)
    requires forall id: nat :: id in ids ==> id in snap
  {
    exists id: nat :: id in ids && Target(snap[id], policy) == Some(t) && next == Confirmed(was, snap[id], run)
  }

  lemma ConfirmedNow(w: Work, e: Entry, scope: Scope, run: nat, policy: Policy, t: nat)
    requires Process(w, e, scope, run, policy).Some? && t in w.txs && t < w.nextId
    ensures var next := Process(w, e, scope, run, policy).value;
            && t in next.txs
            && next.txs[t] == if Target(e, policy) == Some(t) then Confirmed(w.txs[t], e, run) else w.txs[t]
  {
  }

  lemma ConfirmedTwice(t: Transacao, e: Entry, f: Entry, run: nat)
    ensures Confirmed(Confirmed(t, e, run), f, run) == Confirmed(t, f, run)
  {
  }

  lemma {:induction false} TargetsConfirmed(w: Work, ids: seq<nat>, snap: map<nat, Entry>, scope: Scope, run: nat, policy: Policy, t: nat)
    requires Ready(w, ids, snap, scope) && ProcessAll(w, ids, snap, scope, run, policy).Some?
    requires t in w.txs && Targeted(ids, snap, policy, t)
    ensures var end := ProcessAll(w, ids, snap, scope, run, policy).value;
            t in end.txs && ConfirmedBySome(ids, snap, policy, run, t, w.txs[t], end.txs[t])
    decreases |ids|
  {
    var e := snap[ids[0]];
    ProcessOne(w, ids, snap, scope, run, policy);
    ConfirmedNow(w, e, scope, run, policy, t);
    var next := Process(w, e, scope, run, policy).value;
    assert ids == [ids[0]] + ids[1..];
    if Targeted(ids[1..], snap, policy, t) {
      TargetsConfirmed(next, ids[1..], snap, scope, run, policy, t);
      var last := ProcessAll(next, ids[1..], snap, scope, run, policy).value.txs[t];
      var id := SomeConfirms(ids[1..], snap, policy, run, t, next.txs[t], last);
      ConfirmedTwice(w.txs[t], e, snap[id], run);
      assert id in ids;
    } else {
      TransactionsKept(next, ids[1..], snap, scope, run, policy, t);
      assert Target(e, policy) == Some(t);
    }
  }

  lemma SomeConfirms(ids: seq<nat>, snap: map<nat, Entry>, policy: Policy, run: nat, t: nat, was: Transacao, next: Transacao)
      returns (id: nat)
    requires forall id: nat :: id in ids ==> id in snap
    requires ConfirmedBySome(ids, snap, policy, run, t, was, next)
    ensures id in ids && Target(snap[id], policy) == Some(t) && next == Confirmed(was, snap[id], run)
  {
    id :| id in ids && Target(snap[id], policy) == Some(t) && next == Confirmed(was, snap[id], run);
  }

  /** The p-th entry, if new, ends up matched with a transaction of its own, which carries its data. */
  lemma {:induction false} CreatedLinked(w: Work, ids: seq<nat>, snap: map<nat, Entry>, scope: Scope, run: nat, policy: Policy, p: nat)
    requires Ready(w, ids, snap, scope) && ProcessAll(w, ids, snap, scope, run, policy).Some?
    requires p < |ids| && Creates(snap[ids[p]])
    ensures var end, k := ProcessAll(w, ids, snap, scope, run, policy).value, w.nextId + CountCreates(ids[..p], snap);
            && ids[p] in end.entries && end.entries[ids[p]].matched == Some(k)
            && k in end.txs && end.txs[k] == Created(scope, snap[ids[p]], run)
    decreases |ids|
  {
    var e := snap[ids[0]];
    ProcessOne(w, ids, snap, scope, run, policy);
    var next := Process(w, e, scope, run, policy).value;
    assert ids == [ids[0]] + ids[1..];
    ProcessTxs(w, e, scope, run, policy, w.nextId);
    if p == 0 {
      EntriesSettled(next, ids[1..], snap, scope, run, policy);
      forall id: nat | id in ids[1..] ensures Target(snap[id], policy) != Some(w.nextId) {
        if Target(snap[id], policy).Some? { TargetUsed(snap[id], policy, w.nextId); }
      }
      CreatedSurvives(next, ids[1..], snap, scope, run, policy, w.nextId);
    } else {
      CreatedLinked(next, ids[1..], snap, scope, run, policy, p - 1);
      assert ids[..p][0] == ids[0] && ids[..p][1..] == ids[1..][..p - 1];
    }
  }

  // ---- one call ----

  function Start(db: Db): Work { Work(db.entries, db.txs, db.nextId, Totals(0, 0, 0, 0)) }

  lemma StartReady(db: Db, scope: Scope, run: nat)
    requires Valid(db)
    ensures Ready(Start(db), Select(db.order, db.entries, scope, run), db.entries, scope)
  {
  }

  ghost predicate Applicable(db: Db, scope: Scope, run: nat) {
    run in db.runs && db.runs[run].scope == scope && db.runs[run].status == PendingReview
  }

  /** Some unresolved entry of the run points at a transaction that is not the scope's. */
  ghost predicate CrossScope(db: Db, scope: Scope, run: nat, policy: Policy) {
    exists id: nat :: id in db.entries && InRun(db.entries[id], scope, run) && Blocked(db.entries[id], db.txs, scope, policy)
  }

  /** A call commits exactly when the run is pending in scope and no entry points out of it; else nothing changes. */
  lemma AllOrNothing(db: Db, scope: Scope, run: nat, policy: Policy)
    requires Valid(db)
    ensures Apply(db, scope, run, policy).1.Done? <==> Applicable(db, scope, run) && !CrossScope(db, scope, run, policy)
    ensures Apply(db, scope, run, policy).1.Thrown? ==> Apply(db, scope, run, policy).0 == db
    ensures Apply(db, scope, run, policy).1.Thrown? ==>
              Apply(db, scope, run, policy).1.error ==
                if run !in db.runs || db.runs[run].scope != scope then RunNotInScope
                else if db.runs[run].status != PendingReview then RunNotPending(db.runs[run].status)
                else CrossScopeWrite
  {
    StartReady(db, scope, run);
    var ids := Select(db.order, db.entries, scope, run);
    ThrowsIffBlocked(Start(db), ids, db.entries, scope, run, policy);
    if CrossScope(db, scope, run, policy) {
      var id: nat :| id in db.entries && InRun(db.entries[id], scope, run) && Blocked(db.entries[id], db.txs, scope, policy);
      assert id in ids;
    }
  }

  /** The work that a commit stores. */
  lemma CommitWork(db: Db, scope: Scope, run: nat, policy: Policy) returns (w: Work)
    requires Valid(db) && Apply(db, scope, run, policy).1.Done?
    ensures var ids := Select(db.order, db.entries, scope, run);
            && run in db.runs && Ready(Start(db), ids, db.entries, scope)
            && ProcessAll(Start(db), ids, db.entries, scope, run, policy) == Some(w)
            && Apply(db, scope, run, policy) == (Commit(db, run, ids, w), Done(w.totals))
  {
    StartReady(db, scope, run);
    w := ProcessAll(Start(db), Select(db.order, db.entries, scope, run), db.entries, scope, run, policy).value;
  }

  /** Which entries a commit settles, and that it counts each entry of the run once. */
  lemma CommitSettles(db: Db, scope: Scope, run: nat, policy: Policy)
    requires Valid(db) && Apply(db, scope, run, policy).1.Done?
    ensures var next := Apply(db, scope, run, policy).0;
            && next.entries.Keys == db.entries.Keys
            && (forall id: nat :: id in db.entries ==>
                  if InRun(db.entries[id], scope, run) then Settled(db.entries[id], next.entries[id], policy)
                  else next.entries[id] == db.entries[id])
    ensures Sum(Apply(db, scope, run, policy).1.value) == |Select(db.order, db.entries, scope, run)|
  {
    var w := CommitWork(db, scope, run, policy);
    EntriesSettled(Start(db), Select(db.order, db.entries, scope, run), db.entries, scope, run, policy);
  }

  /** Every transaction keeps an id already generated. */
  lemma CommitIds(db: Db, scope: Scope, run: nat, policy: Policy)
    requires Valid(db) && Apply(db, scope, run, policy).1.Done?
    ensures var next := Apply(db, scope, run, policy).0; forall id: nat :: id in next.txs ==> id < next.nextId
  {
    var w := CommitWork(db, scope, run, policy);
    TransactionsKept(Start(db), Select(db.order, db.entries, scope, run), db.entries, scope, run, policy, 0);
  }

  lemma CommitRuns(db: Db, scope: Scope, run: nat, policy: Policy)
    requires Valid(db) && Apply(db, scope, run, policy).1.Done?
    ensures var next := Apply(db, scope, run, policy).0;
            next.order == db.order && forall id: nat :: id in next.runs ==> next.runs[id].id == id
  {
    var w := CommitWork(db, scope, run, policy);
  }

  /** Keys stay keys, and no row mentions an id not yet generated. */
  lemma CommitValid(db: Db, scope: Scope, run: nat, policy: Policy)
    requires Valid(db) && Apply(db, scope, run, policy).1.Done?
    ensures Valid(Apply(db, scope, run, policy).0) && Apply(db, scope, run, policy).0.order == db.order
  {
    var next := Apply(db, scope, run, policy).0;
    CommitSettles(db, scope, run, policy);
    CommitIds(db, scope, run, policy);
    CommitRuns(db, scope, run, policy);
    assert forall id: nat :: id in next.entries <==> id in db.entries.Keys;
    forall id: nat | id in next.entries ensures next.entries[id].id == id && PointersUsed(next.entries[id], next.nextId) {
      CommitPointers(db, scope, run, policy, id);
    }
  }

  /** Only the run's status moves, and it is `aplicado` exactly when every entry of the run is resolved. */
  lemma CommitStatus(db: Db, scope: Scope, run: nat, policy: Policy)
    requires Valid(db) && Apply(db, scope, run, policy).1.Done?
    ensures var next := Apply(db, scope, run, policy).0;
            && run in db.runs && run in next.runs
            && next.runs == db.runs[run := db.runs[run].(status := next.runs[run].status)]
            && (next.runs[run].status == Aplicado <==>
                  forall id: nat :: id in next.entries && InRun(next.entries[id], scope, run) ==> next.entries[id].resolved)
            && (next.runs[run].status != Aplicado ==> next.runs[run].status == PendingReview)
  {
    var w := CommitWork(db, scope, run, policy);
    var next := Apply(db, scope, run, policy).0;
    CommitSettles(db, scope, run, policy);
    forall id: nat | id in next.entries
      ensures InRun(next.entries[id], scope, run) <==> id in Select(db.order, db.entries, scope, run)
    {
      CommitPointers(db, scope, run, policy, id);
    }
  }

  /** What a commit does to entries and runs, out of scope and in it. */
  lemma CommitEntries(db: Db, scope: Scope, run: nat, policy: Policy)
    requires Valid(db) && Apply(db, scope, run, policy).1.Done?
    ensures var next := Apply(db, scope, run, policy).0;
            && Valid(next) && next.order == db.order && next.entries.Keys == db.entries.Keys
            && run in db.runs && run in next.runs
            && next.runs == db.runs[run := db.runs[run].(status := next.runs[run].status)]
            && (forall id: nat :: id in db.entries ==>
                  if InRun(db.entries[id], scope, run) then Settled(db.entries[id], next.entries[id], policy)
                  else next.entries[id] == db.entries[id])
            && (next.runs[run].status == Aplicado <==>
                  forall id: nat :: id in next.entries && InRun(next.entries[id], scope, run) ==> next.entries[id].resolved)
            && (next.runs[run].status != Aplicado ==> next.runs[run].status == PendingReview)
    ensures Sum(Apply(db, scope, run, policy).1.value) == |Select(db.order, db.entries, scope, run)|
  {
    CommitSettles(db, scope, run, policy);
    CommitValid(db, scope, run, policy);
    CommitStatus(db, scope, run, policy);
  }

  lemma CommitPointers(db: Db, scope: Scope, run: nat, policy: Policy, id: nat)
    requires Valid(db) && Apply(db, scope, run, policy).1.Done? && id in db.entries
    ensures var next := Apply(db, scope, run, policy).0;
            && id in next.entries && next.entries[id].id == id && PointersUsed(next.entries[id], next.nextId)
            && next.entries[id].run == db.entries[id].run && next.entries[id].scope == db.entries[id].scope
  {
    StartReady(db, scope, run);
    var ids := Select(db.order, db.entries, scope, run);
    var e, next := db.entries[id], Apply(db, scope, run, policy).0;
    EntriesSettled(Start(db), ids, db.entries, scope, run, policy);
    TransactionsKept(Start(db), ids, db.entries, scope, run, policy, 0);
    assert PointersUsed(e, db.nextId);
    if id in ids {
      if Creates(e) {
        var p :| 0 <= p < |ids| && ids[p] == id;
        CreatedLinked(Start(db), ids, db.entries, scope, run, policy, p);
      } else if Target(e, policy).Some? {
        TargetUsed(e, policy, db.nextId);
      }
    }
  }

  // ---- sequences of calls ----

  datatype Call = Call(scope: Scope, run: nat, policy: Policy)

  function After(db: Db, c: Call): Db { Apply(db, c.scope, c.run, c.policy).0 }

  function Play(db: Db, calls: seq<Call>): Db
    decreases |calls|
  {
    if calls == [] then db else Play(After(db, calls[0]), calls[1..])
  }

  lemma AfterValid(db: Db, c: Call)
    requires Valid(db)
    ensures Valid(After(db, c)) && After(db, c).order == db.order
  {
    if Apply(db, c.scope, c.run, c.policy).1.Done? {
      CommitValid(db, c.scope, c.run, c.policy);
    } else {
      AllOrNothing(db, c.scope, c.run, c.policy);
    }
  }

  /** Applying the same policy once more changes no entry, no transaction and no id. */
  lemma RepeatChangesNothing(db: Db, c: Call)
    requires Valid(db)
    ensures var once, twice := After(db, c), After(After(db, c), c);
            twice.entries == once.entries && twice.txs == once.txs && twice.nextId == once.nextId
  {
    AfterValid(db, c);
    if Apply(db, c.scope, c.run, c.policy).1.Done? {
      forall id: nat | id in After(db, c).entries && InRun(After(db, c).entries[id], c.scope, c.run)
        ensures !Resolves(After(db, c).entries[id], c.policy)
      {
        FinalAfterCommit(db, c, id);
      }
      NothingLeft(After(db, c), c);
    }
  }

  lemma NothingLeft(db: Db, c: Call)
    requires forall id: nat :: id in db.entries && InRun(db.entries[id], c.scope, c.run) ==> !Resolves(db.entries[id], c.policy)
    ensures After(db, c).entries == db.entries && After(db, c).txs == db.txs && After(db, c).nextId == db.nextId
  {
    NothingToDo(Start(db), Select(db.order, db.entries, c.scope, c.run), db.entries, c.scope, c.run, c.policy);
  }

  lemma FinalAfterCommit(db: Db, c: Call, id: nat)
    requires Valid(db) && Apply(db, c.scope, c.run, c.policy).1.Done?
    requires id in After(db, c).entries && InRun(After(db, c).entries[id], c.scope, c.run)
    ensures !Resolves(After(db, c).entries[id], c.policy)
  {
    CommitSettles(db, c.scope, c.run, c.policy);
    CommitPointers(db, c.scope, c.run, c.policy, id);
    SettledIsFinal(db.entries[id], After(db, c).entries[id], c.policy);
  }

  lemma SettledIsFinal(e: Entry, next: Entry, policy: Policy)
    requires Settled(e, next, policy)
    ensures !Resolves(next, policy)
  {
  }

  lemma {:induction false} NothingToDo(w: Work, ids: seq<nat>, snap: map<nat, Entry>, scope: Scope, run: nat, policy: Policy)
    requires forall id: nat :: id in ids ==> id in snap && !Resolves(snap[id], policy)
    ensures ProcessAll(w, ids, snap, scope, run, policy).Some?
    ensures var end := ProcessAll(w, ids, snap, scope, run, policy).value;
            end.entries == w.entries && end.txs == w.txs && end.nextId == w.nextId
    decreases |ids|
  {
    if ids != [] {
      assert ids[0] in ids;
      assert Process(w, snap[ids[0]], scope, run, policy) == Some(Skipped(w));
      NothingToDo(Skipped(w), ids[1..], snap, scope, run, policy);
    }
  }

  /** New entries not yet turned into a transaction. */
  function Owed(order: seq<nat>, entries: map<nat, Entry>): nat {
    if order == [] then 0
    else (if order[0] in entries && Creates(entries[order[0]]) then 1 else 0) + Owed(order[1..], entries)
  }

  lemma {:induction false} OwedSplit(order: seq<nat>, entries: map<nat, Entry>, next: map<nat, Entry>, scope: Scope, run: nat, policy: Policy)
    requires next.Keys == entries.Keys
    requires forall id: nat :: id in entries ==>
               if InRun(entries[id], scope, run) then Settled(entries[id], next[id], policy) else next[id] == entries[id]
    ensures Owed(order, entries) == Owed(order, next) + CountCreates(Select(order, entries, scope, run), entries)
  {
    if order != [] {
      OwedSplit(order[1..], entries, next, scope, run, policy);
      var rest := Select(order[1..], entries, scope, run);
      if order[0] in entries && InRun(entries[order[0]], scope, run) {
        assert Settled(entries[order[0]], next[order[0]], policy);
        assert ([order[0]] + rest)[1..] == rest;
      }
    }
  }

  /** Every transaction a call inserts pays for one new entry, and each is paid for once. */
  lemma CallConserves(db: Db, c: Call)
    requires Valid(db)
    ensures |After(db, c).txs| + Owed(db.order, After(db, c).entries) == |db.txs| + Owed(db.order, db.entries)
  {
    if Apply(db, c.scope, c.run, c.policy).1.Done? {
      StartReady(db, c.scope, c.run);
      CommitSettles(db, c.scope, c.run, c.policy);
      TransactionsKept(Start(db), Select(db.order, db.entries, c.scope, c.run), db.entries, c.scope, c.run, c.policy, 0);
      OwedSplit(db.order, db.entries, After(db, c).entries, c.scope, c.run, c.policy);
    }
  }

  lemma {:induction false} SequenceConserves(db: Db, calls: seq<Call>)
    requires Valid(db)
    ensures |Play(db, calls).txs| + Owed(db.order, Play(db, calls).entries) == |db.txs| + Owed(db.order, db.entries)
    decreases |calls|
  {
    if calls != [] {
      CallConserves(db, calls[0]);
      AfterValid(db, calls[0]);
      SequenceConserves(After(db, calls[0]), calls[1..]);
    }
  }

  /** How many transactions the calls insert for entry id. */
  function CreatedFor(db: Db, calls: seq<Call>, id: nat): nat
    decreases |calls|
  {
    if calls == [] then 0
    else
      var c := calls[0];
      (if && Apply(db, c.scope, c.run, c.policy).1.Done?
          && id in db.entries && InRun(db.entries[id], c.scope, c.run) && Creates(db.entries[id]) then 1 else 0)
      + CreatedFor(After(db, c), calls[1..], id)
  }

  /** Over any calls a new entry creates at most one transaction, and any other entry none. */
  lemma {:induction false} CreatedAtMostOnce(db: Db, calls: seq<Call>, id: nat)
    requires Valid(db)
    ensures CreatedFor(db, calls, id) <= if id in db.entries && Creates(db.entries[id]) then 1 else 0
    decreases |calls|
  {
    if calls != [] {
      var c := calls[0];
      AfterValid(db, c);
      CreatedAtMostOnce(After(db, c), calls[1..], id);
      if Apply(db, c.scope, c.run, c.policy).1.Done? {
        CommitSettles(db, c.scope, c.run, c.policy);
      }
    }
  }

  /** What a commit does to a transaction that was there, in scope or out of it. */
  lemma CommitTransactions(db: Db, scope: Scope, run: nat, policy: Policy, t: nat)
    requires Valid(db) && Apply(db, scope, run, policy).1.Done? && t in db.txs
    ensures var next := Apply(db, scope, run, policy).0;
            && t in next.txs
            && (db.txs[t].scope != scope ==> next.txs[t] == db.txs[t])
            && (next.txs[t] == db.txs[t] || ConfirmedByRun(db, scope, run, policy, t, next.txs[t]))
    ensures TargetedByRun(db, scope, run, policy, t) ==>
              ConfirmedByRun(db, scope, run, policy, t, Apply(db, scope, run, policy).0.txs[t])
  {
    StartReady(db, scope, run);
    var ids := Select(db.order, db.entries, scope, run);
    TransactionsKept(Start(db), ids, db.entries, scope, run, policy, t);
    if Targeted(ids, db.entries, policy, t) { TargetsConfirmed(Start(db), ids, db.entries, scope, run, policy, t); }
  }

  ghost predicate TargetedByRun(db: Db, scope: Scope, run: nat, policy: Policy, t: nat) {
    exists id: nat :: id in db.entries && InRun(db.entries[id], scope, run) && Target(db.entries[id], policy) == Some(t)
  }

  ghost predicate ConfirmedByRun(db: Db, scope: Scope, run: nat, policy: Policy, t: nat, next: Transacao)
    requires t in db.txs
  {
    exists id: nat :: && id in db.entries && InRun(db.entries[id], scope, run)
                      && Target(db.entries[id], policy) == Some(t) && next == Confirmed(db.txs[t], db.entries[id], run)
  }

  // ---- the rows that a commit writes, field by field ----

  /** Income for a credit and an expense for a debit, settled on the day of the entry, with its origin. */
  predicate Booked(t: Transacao, e: Entry, scope: Scope, run: nat) {
    && t.scope == scope
    && (t.income <==> e.oper == Credit)
    && t.value == e.value && t.day == e.day && t.paid == Some(e.day)
    && t.status == (if e.oper == Credit then Recebida else Paga)
    && t.fitid == e.fitid && t.importRun == Some(run)
  }

  /** After a commit every unresolved `new` entry of the run is resolved and matched with a transaction
      that was not there before and says what the entry says. */
  lemma NewEntryBooked(db: Db, scope: Scope, run: nat, policy: Policy, id: nat)
    requires Valid(db) && Apply(db, scope, run, policy).1.Done?
    requires id in db.entries && db.entries[id].run == run && db.entries[id].scope == scope
    requires !db.entries[id].resolved && db.entries[id].status == New
    ensures var next := Apply(db, scope, run, policy).0;
            && id in next.entries && next.entries[id].resolved && next.entries[id].matched.Some?
            && var k := next.entries[id].matched.value;
               k !in db.txs && k in next.txs && Booked(next.txs[k], db.entries[id], scope, run)
  {
    var w := CommitWork(db, scope, run, policy);
    var ids := Select(db.order, db.entries, scope, run);
    var p :| 0 <= p < |ids| && ids[p] == id;
    CreatedLinked(Start(db), ids, db.entries, scope, run, policy, p);
    CommitSettles(db, scope, run, policy);
    CreatedFields(scope, db.entries[id], run);
  }

  lemma CreatedFields(scope: Scope, e: Entry, run: nat)
    ensures Booked(Created(scope, e, run), e, scope, run)
  {
  }

  /** Confirming touches only how and when a transaction was settled, and where that came from. */
  predicate ConfirmedFrom(next: Transacao, was: Transacao, e: Entry, run: nat) {
    && next.scope == was.scope && next.income == was.income && next.value == was.value && next.day == was.day
    && next.paid == Some(e.day)
    && next.status == (if e.oper == Credit then Recebida else Paga)
    && next.fitid == e.fitid && next.importRun == Some(run)
  }

  /** The entry is unresolved, in the run, and matched with t, or its first candidate is t and the policy accepts. */
  predicate PointsAt(e: Entry, scope: Scope, run: nat, policy: Policy, t: nat) {
    && e.run == run && e.scope == scope && !e.resolved
    && (|| (e.status == Matched && e.matched == Some(t))
        || (e.status == Candidate && policy == Accept && |e.candidates| > 0 && e.candidates[0] == t))
  }

  ghost predicate Pointed(db: Db, scope: Scope, run: nat, policy: Policy, t: nat) {
    exists id: nat :: id in db.entries && PointsAt(db.entries[id], scope, run, policy, t)
  }

  ghost predicate ConfirmedByPointer(db: Db, scope: Scope, run: nat, policy: Policy, t: nat, next: Transacao)
    requires t in db.txs
  {
    exists id: nat :: && id in db.entries && PointsAt(db.entries[id], scope, run, policy, t)
                      && ConfirmedFrom(next, db.txs[t], db.entries[id], run)
  }

  lemma PointsIsTarget(e: Entry, scope: Scope, run: nat, policy: Policy, t: nat)
    ensures PointsAt(e, scope, run, policy, t) <==> InRun(e, scope, run) && Target(e, policy) == Some(t)
  {
  }

  lemma PointedIsTargeted(db: Db, scope: Scope, run: nat, policy: Policy, t: nat)
    ensures Pointed(db, scope, run, policy, t) <==> TargetedByRun(db, scope, run, policy, t)
  {
    forall id: nat | id in db.entries
      ensures PointsAt(db.entries[id], scope, run, policy, t) <==>
              InRun(db.entries[id], scope, run) && Target(db.entries[id], policy) == Some(t)
    {
      PointsIsTarget(db.entries[id], scope, run, policy, t);
    }
  }

  lemma ConfirmedFields(t: Transacao, e: Entry, run: nat)
    ensures ConfirmedFrom(Confirmed(t, e, run), t, e, run)
  {
  }

  lemma ConfirmerPoints(db: Db, scope: Scope, run: nat, policy: Policy, t: nat, next: Transacao)
    requires t in db.txs && ConfirmedByRun(db, scope, run, policy, t, next)
    ensures ConfirmedByPointer(db, scope, run, policy, t, next)
  {
    var id: nat :| && id in db.entries && InRun(db.entries[id], scope, run)
                   && Target(db.entries[id], policy) == Some(t) && next == Confirmed(db.txs[t], db.entries[id], run);
    PointsIsTarget(db.entries[id], scope, run, policy, t);
    ConfirmedFields(db.txs[t], db.entries[id], run);
  }

  /** A call that commits was not blocked by any entry. */
  lemma PointedInScope(db: Db, scope: Scope, run: nat, policy: Policy, t: nat)
    requires Valid(db) && Apply(db, scope, run, policy).1.Done? && t in db.txs && Pointed(db, scope, run, policy, t)
    ensures db.txs[t].scope == scope
  {
    AllOrNothing(db, scope, run, policy);
    var id: nat :| id in db.entries && PointsAt(db.entries[id], scope, run, policy, t);
    PointsIsTarget(db.entries[id], scope, run, policy, t);
    assert !Blocked(db.entries[id], db.txs, scope, policy);
  }

  /** After a commit an existing transaction that some entry of the run points at is in the scope and
      confirmed from one such entry, and every other one is as it was. */
  lemma TargetsSettled(db: Db, scope: Scope, run: nat, policy: Policy, t: nat)
    requires Valid(db) && Apply(db, scope, run, policy).1.Done? && t in db.txs
    ensures t in Apply(db, scope, run, policy).0.txs
    ensures Pointed(db, scope, run, policy, t) ==>
              && db.txs[t].scope == scope
              && ConfirmedByPointer(db, scope, run, policy, t, Apply(db, scope, run, policy).0.txs[t])
    ensures !Pointed(db, scope, run, policy, t) ==> Apply(db, scope, run, policy).0.txs[t] == db.txs[t]
  {
    CommitTransactions(db, scope, run, policy, t);
    PointedIsTargeted(db, scope, run, policy, t);
    if Pointed(db, scope, run, policy, t) {
      PointedInScope(db, scope, run, policy, t);
      ConfirmerPoints(db, scope, run, policy, t, Apply(db, scope, run, policy).0.txs[t]);
    } else {
      Unpointed(db, scope, run, policy, t, Apply(db, scope, run, policy).0.txs[t]);
    }
  }

  lemma Unpointed(db: Db, scope: Scope, run: nat, policy: Policy, t: nat, next: Transacao)
    requires t in db.txs && !TargetedByRun(db, scope, run, policy, t)
    ensures !ConfirmedByRun(db, scope, run, policy, t, next)
  {
  }

  // ---- what the call reports ----

  /** How many of the entries are of one kind. */
  function CountOf(ids: seq<nat>, snap: map<nat, Entry>, kind: Entry -> bool): nat {
    if ids == [] then 0
    else (if ids[0] in snap && kind(snap[ids[0]]) then 1 else 0) + CountOf(ids[1..], snap, kind)
  }

  function Confirms(): Entry -> bool { (e: Entry) => !e.resolved && e.status == Matched && e.matched.Some? }

  function Inserts(): Entry -> bool { (e: Entry) => !e.resolved && e.status == New }

  function SettlesCandidate(policy: Policy): Entry -> bool {
    (e: Entry) => && !e.resolved && e.status == Candidate
                  && (policy == Reject || (policy == Accept && |e.candidates| > 0))
  }

  lemma ProcessCounts(w: Work, e: Entry, scope: Scope, run: nat, policy: Policy)
    requires Process(w, e, scope, run, policy).Some?
    ensures var was, next := w.totals, Process(w, e, scope, run, policy).value.totals;
            && next.confirmed == was.confirmed + (if Confirms()(e) then 1 else 0)
            && next.created == was.created + (if Inserts()(e) then 1 else 0)
            && next.settled == was.settled + (if SettlesCandidate(policy)(e) then 1 else 0)
            && (next.skipped > was.skipped <==> !Confirms()(e) && !Inserts()(e) && !SettlesCandidate(policy)(e))
            && was.skipped <= next.skipped <= was.skipped + 1
  {
  }

  lemma {:induction false} AllCounts(w: Work, ids: seq<nat>, snap: map<nat, Entry>, scope: Scope, run: nat, policy: Policy)
    requires forall id: nat :: id in ids ==> id in snap
    requires ProcessAll(w, ids, snap, scope, run, policy).Some?
    ensures var was, end := w.totals, ProcessAll(w, ids, snap, scope, run, policy).value.totals;
            && end.confirmed == was.confirmed + CountOf(ids, snap, Confirms())
            && end.created == was.created + CountOf(ids, snap, Inserts())
            && end.settled == was.settled + CountOf(ids, snap, SettlesCandidate(policy))
            && Sum(end) == Sum(was) + |ids|
    decreases |ids|
  {
    if ids != [] {
      assert ids[0] in ids;
      ProcessCounts(w, snap[ids[0]], scope, run, policy);
      AllCounts(Process(w, snap[ids[0]], scope, run, policy).value, ids[1..], snap, scope, run, policy);
    }
  }

  /** The totals of a committed call: matched entries with a target, new entries, candidates that the policy
      settles, and the rest of the run's entries as skipped. */
  lemma TotalsExact(db: Db, scope: Scope, run: nat, policy: Policy)
    requires Valid(db) && Apply(db, scope, run, policy).1.Done?
    ensures var totals, ids := Apply(db, scope, run, policy).1.value, Select(db.order, db.entries, scope, run);
            && totals.confirmed == CountOf(ids, db.entries, Confirms())
            && totals.created == CountOf(ids, db.entries, Inserts())
            && totals.settled == CountOf(ids, db.entries, SettlesCandidate(policy))
            && totals.skipped == |ids| - totals.confirmed - totals.created - totals.settled
  {
    var w := CommitWork(db, scope, run, policy);
    AllCounts(Start(db), Select(db.order, db.entries, scope, run), db.entries, scope, run, policy);
  }

  // ---- the program ----

  class Database {
    var db: Db

    constructor (db: Db)
      ensures this.db == db
    {
      this.db := db;
    }

    /** The loop inside the transaction. */
    method ProcessEntries(ids: seq<nat>, snap: map<nat, Entry>, w0: Work, scope: Scope, run: nat, policy: Policy)
        returns (r: Option<Work>)
      requires forall id: nat :: id in ids ==> id in snap
      ensures r == ProcessAll(w0, ids, snap, scope, run, policy)
    {
      var w, i := w0, 0;
      assert ids[0..] == ids;
      while i < |ids|
        invariant 0 <= i <= |ids|
        invariant ProcessAll(w0, ids, snap, scope, run, policy) == ProcessAll(w, ids[i..], snap, scope, run, policy)
      {
        assert ids[i..][1..] == ids[i + 1..] && ids[i..][0] == ids[i];
        var next := Process(w, snap[ids[i]], scope, run, policy);
        if next.None? { return None; }
        w, i := next.value, i + 1;
      }
      r := Some(w);
    }

    /** `applyRun`. */
    method ApplyRun(scope: Scope, run: nat, policy: Policy) returns (r: Outcome<Totals>)
      requires Valid(db)
      modifies this
      ensures Valid(db)
      ensures (db, r) == Apply(old(db), scope, run, policy)
    {
      AfterValid(db, Call(scope, run, policy));
      if run !in db.runs || db.runs[run].scope != scope { return Thrown(RunNotInScope); }
      if db.runs[run].status != PendingReview { return Thrown(RunNotPending(db.runs[run].status)); }
      var ids := Select(db.order, db.entries, scope, run);
      var w := ProcessEntries(ids, db.entries, Start(db), scope, run, policy);
      if w.None? { return Thrown(CrossScopeWrite); }
      db := Commit(db, run, ids, w.value);
      r := Done(w.value.totals);
    }
  }
}
