/**
 * Several rebuild runs at once over one database: every interleaving of connecting, trying the
 * session-level advisory lock (which may fail), paging, committing or aborting a batch, unlocking and releasing.
 */
module EmbeddingRuns {
  import opened Embeddings

  datatype Phase =
    | Idle
    | Connected(conn: nat)
    | Holding(conn: nat)
    | Working(conn: nat, page: seq<MemoryRow>)
    | Unlocking(conn: nat)
    | Closing(conn: nat)
    | Finished

  datatype Run = Run(scope: Scope, limit: nat, updated: nat, phase: Phase)

  /** A session-level lock counts how often its session took it. */
  datatype Lock = Lock(conn: nat, times: nat)

  datatype State = State(db: seq<Row>, runs: seq<Run>, locks: map<int, Lock>)

  datatype Action =
    | Connect(run: nat, conn: nat)
    | TryLock(run: nat)
    | LockFails(run: nat)
    | Page(run: nat)
    | Commit(run: nat, vecs: seq<Vector>)
    | Abort(run: nat)
    | Unlock(run: nat, works: bool)
    | Release(run: nat)

  predicate OnConn(r: Run, c: nat) {
    match r.phase
    case Connected(d) => c == d
    case Holding(d) => c == d
    case Working(d, _) => c == d
    case Unlocking(d) => c == d
    case Closing(d) => c == d
    case Idle => false
    case Finished => false
  }

  /** Between a successful try and the unlock. */
  predicate PastLock(r: Run) { r.phase.Holding? || r.phase.Working? || r.phase.Unlocking? }

  function KeyOf(s: Scope, hash: string -> int): int { hash(s.tenant + "::" + s.agent) }

  function Goto(st: State, i: nat, p: Phase): State
    requires i < |st.runs|
  {
    st.(runs := st.runs[i := st.runs[i].(phase := p)])
  }

  predicate ConnIdle(st: State, c: nat) { forall i :: 0 <= i < |st.runs| ==> !OnConn(st.runs[i], c) }

  /** One step; an action that is not the run's next one changes nothing. */
  function Step(st: State, a: Action, dim: nat, hash: string -> int): State {
    if a.run >= |st.runs| then st
    else
      var i, r := a.run, st.runs[a.run];
      match (a, r.phase)
      case (Connect(_, c), Idle) => if ConnIdle(st, c) then Goto(st, i, Connected(c)) else st
      case (TryLock(_), Connected(c)) =>
        var key := KeyOf(r.scope, hash);
        if key !in st.locks then Goto(st, i, Holding(c)).(locks := st.locks[key := Lock(c, 1)])
        else if st.locks[key].conn == c
        then Goto(st, i, Holding(c)).(locks := st.locks[key := Lock(c, st.locks[key].times + 1)])
        else Goto(st, i, Closing(c))
      case (LockFails(_), Connected(c)) => Goto(st, i, Closing(c))
      case (Page(_), Holding(c)) =>
        var pending := Pending(st.db, r.scope, dim);
        var page := pending[..Least(r.limit, |pending|)];
        if page == [] then Goto(st, i, Unlocking(c)) else Goto(st, i, Working(c, page))
      case (Commit(_, vecs), Working(c, page)) =>
        if |vecs| != |page| || !AllDim(vecs, dim) then Goto(st, i, Unlocking(c))
        else State(Written(st.db, page, vecs),
                   st.runs[i := r.(updated := r.updated + CountPresent(st.db, page), phase := Holding(c))],
                   st.locks)
      case (Abort(_), Working(c, _)) => Goto(st, i, Unlocking(c))
      case (Abort(_), Holding(c)) => Goto(st, i, Unlocking(c))
      case (Unlock(_, works), Unlocking(c)) =>
        var key := KeyOf(r.scope, hash);
        if !works || key !in st.locks then Goto(st, i, Closing(c))
        else if st.locks[key].times <= 1 then Goto(st, i, Closing(c)).(locks := st.locks - {key})
        else Goto(st, i, Closing(c)).(locks := st.locks[key := Lock(st.locks[key].conn, st.locks[key].times - 1)])
      case (Release(_), Closing(c)) => Goto(st, i, Finished)
      case _ => st
  }

  function Exec(st: State, actions: seq<Action>, dim: nat, hash: string -> int): State
    decreases |actions|
  {
    if actions == [] then st else Exec(Step(st, actions[0], dim, hash), actions[1..], dim, hash)
  }

  ghost predicate Initial(st: State) {
    && DistinctIds(st.db)
    && st.locks == map[]
    && forall i :: 0 <= i < |st.runs| ==> st.runs[i].phase == Idle && st.runs[i].updated == 0
  }

  // ---- the invariant ----

  ghost predicate SeparateConns(st: State) {
    forall i, j, c: nat :: 0 <= i < j < |st.runs| && OnConn(st.runs[i], c) ==> !OnConn(st.runs[j], c)
  }

  ghost predicate HoldsItsLock(st: State, r: Run, hash: string -> int) {
    var key := KeyOf(r.scope, hash);
    key in st.locks && OnConn(r, st.locks[key].conn)
  }

  ghost predicate LocksHeld(st: State, hash: string -> int) {
    forall i :: 0 <= i < |st.runs| && PastLock(st.runs[i]) ==> HoldsItsLock(st, st.runs[i], hash)
  }

  /** The page a run sent to the provider is still the oldest of what is pending. */
  ghost predicate PageFresh(st: State, r: Run, dim: nat) {
    r.phase.Working? ==>
      && |r.phase.page| <= |Pending(st.db, r.scope, dim)|
      && r.phase.page == Pending(st.db, r.scope, dim)[..|r.phase.page|]
  }

  ghost predicate PagesFresh(st: State, dim: nat) {
    forall i :: 0 <= i < |st.runs| ==> PageFresh(st, st.runs[i], dim)
  }

  ghost predicate Inv(st: State, dim: nat, hash: string -> int) {
    DistinctIds(st.db) && SeparateConns(st) && LocksHeld(st, hash) && PagesFresh(st, dim)
  }

  /** At most one run per lock key, hence per tuple, is past the lock. */
  lemma MutualExclusion(st: State, i: nat, j: nat, dim: nat, hash: string -> int)
    requires Inv(st, dim, hash) && i < |st.runs| && j < |st.runs|
    requires PastLock(st.runs[i]) && PastLock(st.runs[j])
    requires KeyOf(st.runs[i].scope, hash) == KeyOf(st.runs[j].scope, hash)
    ensures i == j
  {
    var c := st.locks[KeyOf(st.runs[i].scope, hash)].conn;
    assert HoldsItsLock(st, st.runs[i], hash) && HoldsItsLock(st, st.runs[j], hash);
    assert OnConn(st.runs[i], c) && OnConn(st.runs[j], c);
  }

  lemma DifferentKeys(st: State, i: nat, j: nat, dim: nat, hash: string -> int)
    requires Inv(st, dim, hash) && i < |st.runs| && j < |st.runs| && i != j
    requires PastLock(st.runs[i]) && PastLock(st.runs[j])
    ensures KeyOf(st.runs[i].scope, hash) != KeyOf(st.runs[j].scope, hash)
  {
    if KeyOf(st.runs[i].scope, hash) == KeyOf(st.runs[j].scope, hash) { MutualExclusion(st, i, j, dim, hash); }
  }

  /** A move that neither writes rows nor touches another run's lock. */
  lemma MoveKeepsInv(st: State, next: State, i: nat, dim: nat, hash: string -> int)
    requires Inv(st, dim, hash) && i < |st.runs| == |next.runs| && next.db == st.db
    requires forall j :: 0 <= j < |st.runs| && j != i ==> next.runs[j] == st.runs[j]
    requires forall j, c: nat :: 0 <= j < |st.runs| && j != i && OnConn(next.runs[i], c) ==> !OnConn(st.runs[j], c)
    requires PastLock(next.runs[i]) ==> HoldsItsLock(next, next.runs[i], hash)
    requires forall j :: 0 <= j < |st.runs| && j != i && PastLock(st.runs[j]) ==> HoldsItsLock(next, st.runs[j], hash)
    requires PageFresh(next, next.runs[i], dim)
    ensures Inv(next, dim, hash)
  {
    forall j | 0 <= j < |next.runs| ensures PageFresh(next, next.runs[j], dim) {
      if j != i { assert PageFresh(st, st.runs[j], dim); }
    }
  }

  lemma TryLockKeepsInv(st: State, i: nat, dim: nat, hash: string -> int)
    requires Inv(st, dim, hash) && i < |st.runs| && st.runs[i].phase.Connected?
    ensures Inv(Step(st, TryLock(i), dim, hash), dim, hash)
  {
    var next, key := Step(st, TryLock(i), dim, hash), KeyOf(st.runs[i].scope, hash);
    var c := st.runs[i].phase.conn;
    assert OnConn(st.runs[i], c);
    forall j | 0 <= j < |st.runs| && j != i && PastLock(st.runs[j]) ensures HoldsItsLock(next, st.runs[j], hash) {
      assert HoldsItsLock(st, st.runs[j], hash);
    }
    MoveKeepsInv(st, next, i, dim, hash);
  }

  lemma UnlockKeepsInv(st: State, i: nat, works: bool, dim: nat, hash: string -> int)
    requires Inv(st, dim, hash) && i < |st.runs| && st.runs[i].phase.Unlocking?
    ensures Inv(Step(st, Unlock(i, works), dim, hash), dim, hash)
  {
    var next, key := Step(st, Unlock(i, works), dim, hash), KeyOf(st.runs[i].scope, hash);
    var c := st.runs[i].phase.conn;
    assert OnConn(st.runs[i], c);
    forall j | 0 <= j < |st.runs| && j != i && PastLock(st.runs[j]) ensures HoldsItsLock(next, st.runs[j], hash) {
      assert HoldsItsLock(st, st.runs[j], hash);
      DifferentKeys(st, i, j, dim, hash);
    }
    MoveKeepsInv(st, next, i, dim, hash);
  }

  ghost predicate Commits(st: State, a: Action, dim: nat) {
    && a.Commit? && a.run < |st.runs| && st.runs[a.run].phase.Working?
    && |a.vecs| == |st.runs[a.run].phase.page| && AllDim(a.vecs, dim)
  }

  /** A commit matches every row of its page and is the fill of the reference. */
  lemma CommitIsFill(st: State, a: Action, dim: nat, hash: string -> int)
    requires Inv(st, dim, hash) && Commits(st, a, dim)
    ensures Step(st, a, dim, hash).db == Fill(st.db, st.runs[a.run].scope, dim, a.vecs)
    ensures Step(st, a, dim, hash).runs[a.run].updated == st.runs[a.run].updated + |a.vecs|
  {
    var r := st.runs[a.run];
    assert PageFresh(st, r, dim);
    PageWritten(st.db, r.scope, dim, a.vecs);
    PageAllPresent(st.db, r.scope, dim, |a.vecs|);
  }

  lemma CommitKeepsInv(st: State, a: Action, dim: nat, hash: string -> int)
    requires Inv(st, dim, hash) && Commits(st, a, dim)
    ensures Inv(Step(st, a, dim, hash), dim, hash)
  {
    var next, i := Step(st, a, dim, hash), a.run;
    var scope, c := st.runs[i].scope, st.runs[i].phase.conn;
    CommitIsFill(st, a, dim, hash);
    FillKeepsIds(st.db, scope, dim, a.vecs);
    assert OnConn(st.runs[i], c);
    forall j | 0 <= j < |next.runs| && PastLock(next.runs[j]) ensures HoldsItsLock(next, next.runs[j], hash) {
      assert HoldsItsLock(st, st.runs[j], hash);
    }
    forall j | 0 <= j < |next.runs| ensures PageFresh(next, next.runs[j], dim) {
      if next.runs[j].phase.Working? {
        assert PageFresh(st, st.runs[j], dim);
        if st.runs[j].scope == scope {
          MutualExclusion(st, i, j, dim, hash);
        } else {
          FillPendingOther(st.db, scope, st.runs[j].scope, dim, a.vecs);
        }
      }
    }
  }

  lemma QuietKeepsInv(st: State, i: nat, p: Phase, dim: nat, hash: string -> int)
    requires Inv(st, dim, hash) && i < |st.runs|
    requires forall c: nat :: OnConn(st.runs[i].(phase := p), c) ==>
               OnConn(st.runs[i], c) || ConnIdle(st, c)
    requires PastLock(st.runs[i].(phase := p)) ==>
               PastLock(st.runs[i]) && forall c: nat :: OnConn(st.runs[i], c) ==> OnConn(st.runs[i].(phase := p), c)
    requires PageFresh(st, st.runs[i].(phase := p), dim)
    ensures Inv(Goto(st, i, p), dim, hash)
  {
    var next := Goto(st, i, p);
    forall j | 0 <= j < |st.runs| && PastLock(st.runs[j]) ensures HoldsItsLock(st, st.runs[j], hash) {
    }
    forall j, c: nat | 0 <= j < |st.runs| && j != i && OnConn(next.runs[i], c) ensures !OnConn(st.runs[j], c) {
      assert i < j || j < i;
    }
    MoveKeepsInv(st, next, i, dim, hash);
  }

  lemma StepKeepsInv(st: State, a: Action, dim: nat, hash: string -> int)
    requires Inv(st, dim, hash)
    ensures Inv(Step(st, a, dim, hash), dim, hash)
  {
    if a.run < |st.runs| {
      var i, r := a.run, st.runs[a.run];
      match (a, r.phase)
      case (Connect(_, c), Idle) => if ConnIdle(st, c) { QuietKeepsInv(st, i, Connected(c), dim, hash); }
      case (TryLock(_), Connected(_)) => TryLockKeepsInv(st, i, dim, hash);
      case (LockFails(_), Connected(c)) => QuietKeepsInv(st, i, Closing(c), dim, hash);
      case (Page(_), Holding(c)) =>
        var pending := Pending(st.db, r.scope, dim);
        var page := pending[..Least(r.limit, |pending|)];
        QuietKeepsInv(st, i, if page == [] then Unlocking(c) else Working(c, page), dim, hash);
      case (Commit(_, _), Working(c, _)) =>
        if Commits(st, a, dim) { CommitKeepsInv(st, a, dim, hash); }
        else { QuietKeepsInv(st, i, Unlocking(c), dim, hash); }
      case (Abort(_), Working(c, _)) => QuietKeepsInv(st, i, Unlocking(c), dim, hash);
      case (Abort(_), Holding(c)) => QuietKeepsInv(st, i, Unlocking(c), dim, hash);
      case (Unlock(_, works), Unlocking(_)) => UnlockKeepsInv(st, i, works, dim, hash);
      case (Release(_), Closing(_)) => QuietKeepsInv(st, i, Finished, dim, hash);
      case _ =>
    }
  }

  lemma {:induction false} InvRun(st: State, actions: seq<Action>, dim: nat, hash: string -> int)
    requires Inv(st, dim, hash)
    ensures Inv(Exec(st, actions, dim, hash), dim, hash)
    decreases |actions|
  {
    if actions != [] {
      StepKeepsInv(st, actions[0], dim, hash);
      InvRun(Step(st, actions[0], dim, hash), actions[1..], dim, hash);
    }
  }

  lemma InitialInv(st: State, dim: nat, hash: string -> int)
    requires Initial(st)
    ensures Inv(st, dim, hash)
  {
  }

  // ---- main results ----

  /**
   * In every interleaving, whether unlocks work or not: at most one run per tuple is past the lock,
   * and each page in work is still pending, so no row is paid for twice.
   */
  lemma OnePerTuple(st0: State, actions: seq<Action>, i: nat, j: nat, dim: nat, hash: string -> int)
    requires Initial(st0)
    requires var st := Exec(st0, actions, dim, hash);
             i < |st.runs| && j < |st.runs| && PastLock(st.runs[i]) && PastLock(st.runs[j])
             && st.runs[i].scope == st.runs[j].scope
    ensures i == j
    ensures PageFresh(Exec(st0, actions, dim, hash), Exec(st0, actions, dim, hash).runs[i], dim)
  {
    InitialInv(st0, dim, hash);
    InvRun(st0, actions, dim, hash);
    MutualExclusion(Exec(st0, actions, dim, hash), i, j, dim, hash);
  }

  /** The vectors all runs of a tuple have written. */
  function WrittenFor(runs: seq<Run>, s: Scope): nat {
    if runs == [] then 0
    else (if runs[0].scope == s then runs[0].updated else 0) + WrittenFor(runs[1..], s)
  }

  lemma {:induction false} WrittenForUpdate(runs: seq<Run>, i: nat, r: Run, s: Scope)
    requires i < |runs| && r.scope == runs[i].scope && r.updated >= runs[i].updated
    ensures WrittenFor(runs[i := r], s) ==
            WrittenFor(runs, s) + if r.scope == s then r.updated - runs[i].updated else 0
  {
    if i == 0 {
      assert runs[0 := r][1..] == runs[1..];
    } else {
      assert runs[i := r][1..] == runs[1..][i - 1 := r];
      WrittenForUpdate(runs[1..], i - 1, r, s);
    }
  }

  lemma StepConserves(st: State, a: Action, s: Scope, dim: nat, hash: string -> int)
    requires Inv(st, dim, hash)
    ensures var next := Step(st, a, dim, hash);
            WrittenFor(next.runs, s) + |Pending(next.db, s, dim)| == WrittenFor(st.runs, s) + |Pending(st.db, s, dim)|
  {
    var next := Step(st, a, dim, hash);
    if a.run < |st.runs| {
      var i, scope := a.run, st.runs[a.run].scope;
      if Commits(st, a, dim) {
        CommitIsFill(st, a, dim, hash);
        assert PageFresh(st, st.runs[i], dim);
        if scope == s { FillPending(st.db, s, dim, a.vecs); } else { FillPendingOther(st.db, scope, s, dim, a.vecs); }
      }
      assert next.runs == st.runs[i := next.runs[i]];
      WrittenForUpdate(st.runs, i, next.runs[i], s);
    }
  }

  /** Over any interleaved runs, every vector written for a tuple removed one row from its backlog. */
  lemma {:induction false} BacklogConserved(st: State, actions: seq<Action>, s: Scope, dim: nat, hash: string -> int)
    requires Inv(st, dim, hash)
    ensures var end := Exec(st, actions, dim, hash);
            WrittenFor(end.runs, s) + |Pending(end.db, s, dim)| == WrittenFor(st.runs, s) + |Pending(st.db, s, dim)|
    decreases |actions|
  {
    if actions != [] {
      StepConserves(st, actions[0], s, dim, hash);
      StepKeepsInv(st, actions[0], dim, hash);
      BacklogConserved(Step(st, actions[0], dim, hash), actions[1..], s, dim, hash);
    }
  }

  // ---- release ----

  /** Every lock belongs to one run that is past it. */
  ghost predicate LocksOwned(st: State, hash: string -> int) {
    forall key :: key in st.locks ==> st.locks[key].times == 1 && Owned(st, key, hash)
  }

  ghost predicate Owned(st: State, key: int, hash: string -> int) {
    exists i :: 0 <= i < |st.runs| && PastLock(st.runs[i]) && KeyOf(st.runs[i].scope, hash) == key
  }

  predicate UnlocksWork(actions: seq<Action>) {
    forall i :: 0 <= i < |actions| && actions[i].Unlock? ==> actions[i].works
  }

  lemma OwnedCarries(st: State, next: State, key: int, i: nat, hash: string -> int)
    requires i < |st.runs| == |next.runs| && Owned(st, key, hash)
    requires forall j :: 0 <= j < |st.runs| && j != i ==> next.runs[j] == st.runs[j]
    requires next.runs[i].scope == st.runs[i].scope
    requires PastLock(st.runs[i]) && KeyOf(st.runs[i].scope, hash) == key ==> PastLock(next.runs[i])
    ensures Owned(next, key, hash)
  {
    var j :| 0 <= j < |st.runs| && PastLock(st.runs[j]) && KeyOf(st.runs[j].scope, hash) == key;
    assert PastLock(next.runs[j]);
  }

  lemma StepKeepsOwned(st: State, a: Action, dim: nat, hash: string -> int)
    requires Inv(st, dim, hash) && LocksOwned(st, hash)
    requires a.Unlock? ==> a.works
    ensures LocksOwned(Step(st, a, dim, hash), hash)
  {
    var next := Step(st, a, dim, hash);
    if a.run < |st.runs| && next != st {
      var i, mine := a.run, KeyOf(st.runs[a.run].scope, hash);
      forall key | key in next.locks ensures next.locks[key].times == 1 && Owned(next, key, hash) {
        if a.TryLock? && key == mine && PastLock(next.runs[i]) {
          if key in st.locks { ReentryImpossible(st, i, dim, hash); }
          assert PastLock(next.runs[i]) && KeyOf(next.runs[i].scope, hash) == key;
        } else {
          assert st.locks[key].times == 1 && Owned(st, key, hash);
          if PastLock(st.runs[i]) { assert HoldsItsLock(st, st.runs[i], hash); }
          OwnedCarries(st, next, key, i, hash);
        }
      }
    }
  }

  /** While every lock has an owner, no fresh connection finds its own lock already taken. */
  lemma ReentryImpossible(st: State, i: nat, dim: nat, hash: string -> int)
    requires Inv(st, dim, hash) && LocksOwned(st, hash)
    requires i < |st.runs| && st.runs[i].phase.Connected? && KeyOf(st.runs[i].scope, hash) in st.locks
    ensures st.locks[KeyOf(st.runs[i].scope, hash)].conn != st.runs[i].phase.conn
  {
    var key := KeyOf(st.runs[i].scope, hash);
    assert Owned(st, key, hash);
    var j :| 0 <= j < |st.runs| && PastLock(st.runs[j]) && KeyOf(st.runs[j].scope, hash) == key;
    assert HoldsItsLock(st, st.runs[j], hash);
    assert OnConn(st.runs[i], st.runs[i].phase.conn);
    assert i < j || j < i;
  }

  lemma {:induction false} OwnedRun(st: State, actions: seq<Action>, dim: nat, hash: string -> int)
    requires Inv(st, dim, hash) && LocksOwned(st, hash) && UnlocksWork(actions)
    ensures LocksOwned(Exec(st, actions, dim, hash), hash)
    decreases |actions|
  {
    if actions != [] {
      assert actions[0].Unlock? ==> actions[0].works;
      StepKeepsInv(st, actions[0], dim, hash);
      StepKeepsOwned(st, actions[0], dim, hash);
      OwnedRun(Step(st, actions[0], dim, hash), actions[1..], dim, hash);
    }
  }

  /** While unlocking works, a key is locked only as long as a run on it is between lock and unlock. */
  lemma ReleasedOnEveryExit(st0: State, actions: seq<Action>, key: int, dim: nat, hash: string -> int)
    requires Initial(st0) && UnlocksWork(actions)
    ensures var st := Exec(st0, actions, dim, hash); key in st.locks <==> Owned(st, key, hash)
  {
    var st := Exec(st0, actions, dim, hash);
    InitialInv(st0, dim, hash);
    InvRun(st0, actions, dim, hash);
    OwnedRun(st0, actions, dim, hash);
    if Owned(st, key, hash) {
      var i :| 0 <= i < |st.runs| && PastLock(st.runs[i]) && KeyOf(st.runs[i].scope, hash) == key;
      assert HoldsItsLock(st, st.runs[i], hash);
    }
  }

  // ---- what a run does past the lock ----

  function Zeros(n: nat): (v: Vector)
    ensures |v| == n
  {
    seq(n, _ => 0.0)
  }

  lemma AllZeros(n: nat, dim: nat)
    ensures AllDim(seq(n, _ => Zeros(dim)), dim)
  {
    AllDimAt(seq(n, _ => Zeros(dim)), dim);
  }

  /** After the page query of a run with rows left it works on the oldest of them, and any vectors of the
      right dimension can be committed. */
  lemma PageThenCommit(st: State, i: nat, dim: nat, hash: string -> int) returns (vecs: seq<Vector>)
    requires Inv(st, dim, hash) && i < |st.runs| && st.runs[i].phase.Holding? && st.runs[i].limit > 0
    requires Pending(st.db, st.runs[i].scope, dim) != []
    ensures var r, worked := st.runs[i], Step(st, Page(i), dim, hash);
            && Commits(worked, Commit(i, vecs), dim) && Inv(worked, dim, hash)
            && var next := Step(worked, Commit(i, vecs), dim, hash);
               && Inv(next, dim, hash) && |next.runs| == |st.runs| && next.locks == st.locks
               && next.runs[i].phase == r.phase && next.runs[i].limit == r.limit && next.runs[i].scope == r.scope
               && (forall j :: 0 <= j < |st.runs| && j != i ==> next.runs[j] == st.runs[j])
               && AllDim(vecs, dim) && next.db == Fill(st.db, r.scope, dim, vecs)
               && |Pending(next.db, r.scope, dim)| < |Pending(st.db, r.scope, dim)|
  {
    var pending := Pending(st.db, st.runs[i].scope, dim);
    vecs := seq(Least(st.runs[i].limit, |pending|), _ => Zeros(dim));
    AllZeros(|vecs|, dim);
    StepKeepsInv(st, Page(i), dim, hash);
    var worked := Step(st, Page(i), dim, hash);
    CommitIsFill(worked, Commit(i, vecs), dim, hash);
    StepKeepsInv(worked, Commit(i, vecs), dim, hash);
    FillPending(st.db, st.runs[i].scope, dim, vecs);
  }

  lemma Cons(st: State, a: Action, rest: seq<Action>, dim: nat, hash: string -> int)
    ensures Exec(st, [a] + rest, dim, hash) == Exec(Step(st, a, dim, hash), rest, dim, hash)
  {
    assert ([a] + rest)[1..] == rest;
  }

  /** An empty page ends the run and gives the lock back. */
  lemma LastPage(st: State, i: nat, dim: nat, hash: string -> int)
    requires Inv(st, dim, hash) && LocksOwned(st, hash) && i < |st.runs| && st.runs[i].phase.Holding?
    requires Pending(st.db, st.runs[i].scope, dim) == []
    ensures var end := Exec(st, [Page(i)] + ([Unlock(i, true)] + ([Release(i)] + [])), dim, hash);
            && |end.runs| == |st.runs| && end.runs[i].phase == Finished && end.db == st.db
            && KeyOf(st.runs[i].scope, hash) !in end.locks
            && (forall j :: 0 <= j < |st.runs| && j != i ==> end.runs[j] == st.runs[j])
  {
    assert HoldsItsLock(st, st.runs[i], hash);
    var s1 := Step(st, Page(i), dim, hash);
    var s2 := Step(s1, Unlock(i, true), dim, hash);
    Cons(st, Page(i), [Unlock(i, true)] + ([Release(i)] + []), dim, hash);
    Cons(s1, Unlock(i, true), [Release(i)] + [], dim, hash);
    Cons(s2, Release(i), [], dim, hash);
  }

  lemma {:induction false} CanComplete(st: State, i: nat, dim: nat, hash: string -> int) returns (own: seq<Action>)
    requires Inv(st, dim, hash) && LocksOwned(st, hash)
    requires i < |st.runs| && st.runs[i].phase.Holding? && st.runs[i].limit > 0
    ensures var end := Exec(st, own, dim, hash);
            && |end.runs| == |st.runs| && end.runs[i].phase == Finished
            && (forall j :: 0 <= j < |st.runs| && j != i ==> end.runs[j] == st.runs[j])
            && Rebuilt(end.db, st.runs[i].scope, dim) && OnlyStaleChanged(st.db, end.db, st.runs[i].scope, dim)
            && KeyOf(st.runs[i].scope, hash) !in end.locks
    decreases |Pending(st.db, st.runs[i].scope, dim)|
  {
    if Pending(st.db, st.runs[i].scope, dim) == [] {
      own := [Page(i)] + ([Unlock(i, true)] + ([Release(i)] + []));
      LastPage(st, i, dim, hash);
      PendingCounted(st.db, st.runs[i].scope, dim);
    } else {
      var vecs := PageThenCommit(st, i, dim, hash);
      var worked := Step(st, Page(i), dim, hash);
      var next := Step(worked, Commit(i, vecs), dim, hash);
      OwnedWhenSame(st, next, hash);
      var rest := CanComplete(next, i, dim, hash);
      own := [Page(i)] + ([Commit(i, vecs)] + rest);
      Cons(st, Page(i), [Commit(i, vecs)] + rest, dim, hash);
      Cons(worked, Commit(i, vecs), rest, dim, hash);
      FillChanges(st.db, st.runs[i].scope, dim, vecs);
      ChangesChain(st.db, next.db, Exec(st, own, dim, hash).db, st.runs[i].scope, dim);
    }
  }

  /** In every interleaving in which unlocks work, once a run holds its lock its own steps can finish it: then
      every row of its tuple has the dimension, nothing else changed, and its key is free again. */
  lemma HolderCanComplete(st0: State, actions: seq<Action>, i: nat, dim: nat, hash: string -> int) returns (own: seq<Action>)
    requires Initial(st0) && UnlocksWork(actions)
    requires var st := Exec(st0, actions, dim, hash);
             i < |st.runs| && st.runs[i].phase.Holding? && st.runs[i].limit > 0
    ensures var st, end := Exec(st0, actions, dim, hash), Exec(Exec(st0, actions, dim, hash), own, dim, hash);
            && |end.runs| == |st.runs| && end.runs[i].phase == Finished
            && (forall j :: 0 <= j < |st.runs| && j != i ==> end.runs[j] == st.runs[j])
            && Rebuilt(end.db, st.runs[i].scope, dim) && OnlyStaleChanged(st.db, end.db, st.runs[i].scope, dim)
            && KeyOf(st.runs[i].scope, hash) !in end.locks
  {
    InitialInv(st0, dim, hash);
    InvRun(st0, actions, dim, hash);
    OwnedRun(st0, actions, dim, hash);
    own := CanComplete(Exec(st0, actions, dim, hash), i, dim, hash);
  }

  lemma OwnedWhenSame(st: State, next: State, hash: string -> int)
    requires LocksOwned(st, hash) && next.locks == st.locks && |next.runs| == |st.runs|
    requires forall j :: 0 <= j < |st.runs| ==> next.runs[j].scope == st.runs[j].scope && next.runs[j].phase == st.runs[j].phase
    ensures LocksOwned(next, hash)
  {
    forall key | key in next.locks ensures Owned(next, key, hash) {
      assert Owned(st, key, hash);
      var j :| 0 <= j < |st.runs| && PastLock(st.runs[j]) && KeyOf(st.runs[j].scope, hash) == key;
      assert PastLock(next.runs[j]) && KeyOf(next.runs[j].scope, hash) == key;
    }
  }

  lemma ChangesChain(a: seq<Row>, b: seq<Row>, c: seq<Row>, s: Scope, dim: nat)
    requires OnlyStaleChanged(a, b, s, dim) && OnlyStaleChanged(b, c, s, dim)
    ensures OnlyStaleChanged(a, c, s, dim)
  {
  }

  // ---- how a run starts, is refused and fails ----

  lemma TwoSteps(st: State, a: Action, b: Action, dim: nat, hash: string -> int)
    ensures Exec(st, [a, b], dim, hash) == Step(Step(st, a, dim, hash), b, dim, hash)
  {
    assert [a] + ([b] + []) == [a, b];
    Cons(st, a, [b] + [], dim, hash);
    Cons(Step(st, a, dim, hash), b, [], dim, hash);
  }

  lemma ThreeSteps(st: State, a: Action, b: Action, c: Action, dim: nat, hash: string -> int)
    ensures Exec(st, [a, b, c], dim, hash) == Step(Step(Step(st, a, dim, hash), b, dim, hash), c, dim, hash)
  {
    assert [a] + ([b, c] + []) == [a, b, c] && [b, c] + [] == [b, c];
    Cons(st, a, [b, c] + [], dim, hash);
    TwoSteps(Step(st, a, dim, hash), b, c, dim, hash);
  }

  /** A run on an idle connection gets its lock when no other connection has it, the connection's own leftover
      lock included; otherwise it ends, and changes nothing. */
  lemma StartOrRefuse(st: State, i: nat, c: nat, dim: nat, hash: string -> int)
    requires i < |st.runs| && st.runs[i].phase == Idle && ConnIdle(st, c)
    ensures var key := KeyOf(st.runs[i].scope, hash);
            if key !in st.locks || st.locks[key].conn == c
            then Exec(st, [Connect(i, c), TryLock(i)], dim, hash) ==
                 State(st.db, st.runs[i := st.runs[i].(phase := Holding(c))], st.locks[key := Lock(c, Times(st, key) + 1)])
            else Exec(st, [Connect(i, c), TryLock(i), Release(i)], dim, hash) ==
                 st.(runs := st.runs[i := st.runs[i].(phase := Finished)])
  {
    TwoSteps(st, Connect(i, c), TryLock(i), dim, hash);
    ThreeSteps(st, Connect(i, c), TryLock(i), Release(i), dim, hash);
  }

  /** A try that fails ends the run and changes nothing. */
  lemma FailedTryEnds(st: State, i: nat, c: nat, dim: nat, hash: string -> int)
    requires i < |st.runs| && st.runs[i].phase == Connected(c)
    ensures Exec(st, [LockFails(i), Release(i)], dim, hash) == st.(runs := st.runs[i := st.runs[i].(phase := Finished)])
  {
    TwoSteps(st, LockFails(i), Release(i), dim, hash);
  }

  /** The run fails at its page query or in its batch. */
  predicate Fails(st: State, a: Action, i: nat, dim: nat) {
    && i < |st.runs| && a.run == i
    && (|| (a.Abort? && (st.runs[i].phase.Holding? || st.runs[i].phase.Working?))
        || (a.Commit? && st.runs[i].phase.Working? && (|a.vecs| != |st.runs[i].phase.page| || !AllDim(a.vecs, dim))))
  }

  function ConnOf(r: Run): nat
    requires PastLock(r)
  {
    match r.phase
    case Holding(c) => c
    case Working(c, _) => c
    case Unlocking(c) => c
  }

  lemma FailedStep(st: State, a: Action, i: nat, dim: nat, hash: string -> int)
    requires Fails(st, a, i, dim)
    ensures Step(st, a, dim, hash) == Goto(st, i, Unlocking(ConnOf(st.runs[i])))
  {
  }

  lemma UnlockThenRelease(st: State, i: nat, c: nat, works: bool, dim: nat, hash: string -> int)
    requires i < |st.runs| && st.runs[i].phase == Unlocking(c) && KeyOf(st.runs[i].scope, hash) in st.locks
    ensures var key, end := KeyOf(st.runs[i].scope, hash), Step(Step(st, Unlock(i, works), dim, hash), Release(i), dim, hash);
            && end.db == st.db && end.runs == st.runs[i := st.runs[i].(phase := Finished)]
            && end.locks == if !works then st.locks
                            else if st.locks[key].times > 1 then st.locks[key := Lock(st.locks[key].conn, st.locks[key].times - 1)]
                            else st.locks - {key}
  {
  }

  /** A run that fails past the lock writes nothing, gives the lock back once if unlocking works, and ends. */
  lemma FailureEnds(st: State, a: Action, i: nat, works: bool, dim: nat, hash: string -> int)
    requires Inv(st, dim, hash) && Fails(st, a, i, dim)
    ensures var key, end := KeyOf(st.runs[i].scope, hash), Exec(st, [a, Unlock(i, works), Release(i)], dim, hash);
            && end.db == st.db && end.runs == st.runs[i := st.runs[i].(phase := Finished)]
            && key in st.locks
            && end.locks == if !works then st.locks
                            else if st.locks[key].times > 1 then st.locks[key := Lock(st.locks[key].conn, st.locks[key].times - 1)]
                            else st.locks - {key}
  {
    var c := ConnOf(st.runs[i]);
    assert HoldsItsLock(st, st.runs[i], hash);
    ThreeSteps(st, a, Unlock(i, works), Release(i), dim, hash);
    FailedStep(st, a, i, dim, hash);
    UnlockThenRelease(Goto(st, i, Unlocking(c)), i, c, works, dim, hash);
  }

  // ---- the lock counts its holder ----

  function Times(st: State, key: int): nat { if key in st.locks then st.locks[key].times else 0 }

  /** The step takes the key once more: a try that got past the lock. */
  predicate Takes(st: State, a: Action, key: int, dim: nat, hash: string -> int) {
    && a.TryLock? && a.run < |st.runs| && st.runs[a.run].phase.Connected?
    && KeyOf(st.runs[a.run].scope, hash) == key && PastLock(Step(st, a, dim, hash).runs[a.run])
  }

  /** The step gives it back once: an unlock that works. */
  predicate Gives(st: State, a: Action, key: int, hash: string -> int) {
    && a.Unlock? && a.works && a.run < |st.runs| && st.runs[a.run].phase.Unlocking?
    && KeyOf(st.runs[a.run].scope, hash) == key
  }

  function NetTakes(st: State, actions: seq<Action>, key: int, dim: nat, hash: string -> int): int
    decreases |actions|
  {
    if actions == [] then 0
    else (if Takes(st, actions[0], key, dim, hash) then 1 else 0)
         - (if Gives(st, actions[0], key, hash) then 1 else 0)
         + NetTakes(Step(st, actions[0], dim, hash), actions[1..], key, dim, hash)
  }

  ghost predicate TimesPositive(st: State) { forall key :: key in st.locks ==> st.locks[key].times >= 1 }

  lemma StepTimes(st: State, a: Action, key: int, dim: nat, hash: string -> int)
    requires Inv(st, dim, hash) && TimesPositive(st)
    ensures TimesPositive(Step(st, a, dim, hash))
    ensures Times(Step(st, a, dim, hash), key) ==
            Times(st, key) + (if Takes(st, a, key, dim, hash) then 1 else 0) - (if Gives(st, a, key, hash) then 1 else 0)
  {
    if a.run < |st.runs| && PastLock(st.runs[a.run]) { assert HoldsItsLock(st, st.runs[a.run], hash); }
  }

  /** In every interleaving a key is held as often as it was taken and not given back, whatever unlocks failed:
      it is free exactly when the two are even. */
  lemma {:induction false} LockBalance(st: State, actions: seq<Action>, key: int, dim: nat, hash: string -> int)
    requires Inv(st, dim, hash) && TimesPositive(st)
    ensures var end := Exec(st, actions, dim, hash);
            && Times(end, key) == Times(st, key) + NetTakes(st, actions, key, dim, hash)
            && (key !in end.locks <==> Times(st, key) + NetTakes(st, actions, key, dim, hash) == 0)
    decreases |actions|
  {
    if actions != [] {
      StepTimes(st, actions[0], key, dim, hash);
      StepKeepsInv(st, actions[0], dim, hash);
      LockBalance(Step(st, actions[0], dim, hash), actions[1..], key, dim, hash);
    }
  }
}
