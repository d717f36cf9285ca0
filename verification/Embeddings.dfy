/** Rebuilding the embeddings of one (tenant, agent) tuple in atomic batches. */
module Embeddings {
  import opened Options

  datatype Scope = Scope(tenant: string, agent: string)

  type Vector = seq<real>

  datatype Row = Row(id: nat, scope: Scope, text: string, embedding: Option<Vector>)

  /** What the paging query returns and the provider is asked about. */
  datatype MemoryRow = MemoryRow(id: nat, scope: Scope, text: string)

  predicate DistinctIds(db: seq<Row>) {
    forall i, j :: 0 <= i < j < |db| ==> db[i].id != db[j].id
  }

  predicate IsPending(r: Row, s: Scope, dim: nat) {
    r.scope == s && (r.embedding.None? || |r.embedding.value| != dim)
  }

  function Mark(r: Row, s: Scope, dim: nat): seq<MemoryRow> {
    if IsPending(r, s, dim) then [MemoryRow(r.id, r.scope, r.text)] else []
  }

  /** The re-detection predicate, oldest row first. */
  function Pending(db: seq<Row>, s: Scope, dim: nat): seq<MemoryRow> {
    if db == [] then []
    else Mark(db[0], s, dim) + Pending(db[1..], s, dim)
  }

  predicate Matches(r: Row, m: MemoryRow) { r.id == m.id && r.scope == m.scope }

  predicate Present(db: seq<Row>, m: MemoryRow) { exists i :: 0 <= i < |db| && Matches(db[i], m) }

  /** The UPDATE, which pins id, tenant and agent. */
  function Update(db: seq<Row>, m: MemoryRow, v: Vector): seq<Row> {
    if db == [] then []
    else [if Matches(db[0], m) then db[0].(embedding := Some(v)) else db[0]] + Update(db[1..], m, v)
  }

  function Written(db: seq<Row>, batch: seq<MemoryRow>, vecs: seq<Vector>): seq<Row>
    requires |batch| == |vecs|
    decreases |batch|
  {
    if batch == [] then db else Written(Update(db, batch[0], vecs[0]), batch[1..], vecs[1..])
  }

  function CountPresent(db: seq<Row>, batch: seq<MemoryRow>): nat {
    if batch == [] then 0 else (if Present(db, batch[0]) then 1 else 0) + CountPresent(db, batch[1..])
  }

  /** The reference: vectors go, in order, to the pending rows of the tuple, and to nothing else. */
  function Fill(db: seq<Row>, s: Scope, dim: nat, vecs: seq<Vector>): seq<Row> {
    if db == [] || vecs == [] then db
    else if IsPending(db[0], s, dim) then [db[0].(embedding := Some(vecs[0]))] + Fill(db[1..], s, dim, vecs[1..])
    else [db[0]] + Fill(db[1..], s, dim, vecs)
  }

  predicate AllDim(vecs: seq<Vector>, dim: nat) {
    vecs == [] || (|vecs[0]| == dim && AllDim(vecs[1..], dim))
  }

  lemma {:induction false} AllDimAt(vecs: seq<Vector>, dim: nat)
    ensures AllDim(vecs, dim) <==> forall i :: 0 <= i < |vecs| ==> |vecs[i]| == dim
  {
    if vecs != [] {
      AllDimAt(vecs[1..], dim);
      assert forall i :: 0 < i < |vecs| ==> vecs[i] == vecs[1..][i - 1];
    }
  }

  lemma {:induction false} AllDimAppend(a: seq<Vector>, b: seq<Vector>, dim: nat)
    requires AllDim(a, dim) && AllDim(b, dim)
    ensures AllDim(a + b, dim)
  {
    if a == [] {
      assert a + b == b;
    } else {
      assert (a + b)[1..] == a[1..] + b;
      AllDimAppend(a[1..], b, dim);
    }
  }

  // ---- laws of the reference ----

  lemma {:induction false} FillNone(db: seq<Row>, s: Scope, dim: nat, vecs: seq<Vector>)
    requires vecs == [] || Pending(db, s, dim) == []
    ensures Fill(db, s, dim, vecs) == db
  {
    if db != [] && vecs != [] {
      FillNone(db[1..], s, dim, vecs);
    }
  }

  /** What was pending first no longer is; nothing becomes pending. */
  lemma PendingCons(r: Row, rest: seq<Row>, s: Scope, dim: nat)
    ensures Pending([r] + rest, s, dim) == Mark(r, s, dim) + Pending(rest, s, dim)
  {
    assert ([r] + rest)[1..] == rest;
  }

  lemma DropHead<T>(x: T, rest: seq<T>, n: nat)
    requires n <= |rest|
    ensures ([x] + rest)[n + 1..] == rest[n..]
  {
  }

  lemma {:induction false} FillPending(db: seq<Row>, s: Scope, dim: nat, vecs: seq<Vector>)
    requires AllDim(vecs, dim) && |vecs| <= |Pending(db, s, dim)|
    ensures Pending(Fill(db, s, dim, vecs), s, dim) == Pending(db, s, dim)[|vecs|..]
  {
    if db != [] && vecs != [] {
      var rest := Pending(db[1..], s, dim);
      if IsPending(db[0], s, dim) {
        FillPending(db[1..], s, dim, vecs[1..]);
        PendingCons(db[0].(embedding := Some(vecs[0])), Fill(db[1..], s, dim, vecs[1..]), s, dim);
        DropHead(MemoryRow(db[0].id, db[0].scope, db[0].text), rest, |vecs| - 1);
      } else {
        FillPending(db[1..], s, dim, vecs);
        PendingCons(db[0], Fill(db[1..], s, dim, vecs), s, dim);
      }
    }
  }

  lemma {:induction false} FillPendingOther(db: seq<Row>, s: Scope, other: Scope, dim: nat, vecs: seq<Vector>)
    requires s != other
    ensures Pending(Fill(db, s, dim, vecs), other, dim) == Pending(db, other, dim)
  {
    if db != [] && vecs != [] {
      var next := Fill(db, s, dim, vecs);
      if IsPending(db[0], s, dim) {
        FillPendingOther(db[1..], s, other, dim, vecs[1..]);
        assert next[1..] == Fill(db[1..], s, dim, vecs[1..]);
      } else {
        FillPendingOther(db[1..], s, other, dim, vecs);
        assert next[1..] == Fill(db[1..], s, dim, vecs);
      }
    }
  }

  /** A run stopped between batches and started again ends where one run would have. */
  lemma {:induction false} FillAppend(db: seq<Row>, s: Scope, dim: nat, a: seq<Vector>, b: seq<Vector>)
    requires AllDim(a, dim)
    ensures Fill(Fill(db, s, dim, a), s, dim, b) == Fill(db, s, dim, a + b)
  {
    if a == [] {
      assert a + b == b;
    } else if b == [] {
      assert a + b == a;
    } else if db != [] {
      var next := Fill(db, s, dim, a);
      if IsPending(db[0], s, dim) {
        FillAppend(db[1..], s, dim, a[1..], b);
        assert (a + b)[1..] == a[1..] + b && a[0] in a;
        assert next[1..] == Fill(db[1..], s, dim, a[1..]);
      } else {
        FillAppend(db[1..], s, dim, a, b);
        assert next[1..] == Fill(db[1..], s, dim, a);
      }
    }
  }

  /**
   * Row by row: the k-th pending row of the tuple holds the k-th vector, every other row of
   * every tuple is what it was, and only the embedding of a row ever changes.
   */
  lemma {:induction false} FillExact(db: seq<Row>, s: Scope, dim: nat, vecs: seq<Vector>, i: nat)
    requires i < |db|
    ensures |Fill(db, s, dim, vecs)| == |db|
    ensures Fill(db, s, dim, vecs)[i] ==
            (var rank := |Pending(db[..i], s, dim)|;
             if IsPending(db[i], s, dim) && rank < |vecs| then db[i].(embedding := Some(vecs[rank])) else db[i])
  {
    if i > 0 {
      assert db[..i][1..] == db[1..][..i - 1] && db[..i][0] == db[0];
      FillExact(db[1..], s, dim, if vecs != [] && IsPending(db[0], s, dim) then vecs[1..] else vecs, i - 1);
    } else if |db| > 1 {
      FillExact(db[1..], s, dim, if vecs != [] && IsPending(db[0], s, dim) then vecs[1..] else vecs, 0);
    }
  }

  lemma FillKeepsIds(db: seq<Row>, s: Scope, dim: nat, vecs: seq<Vector>)
    ensures |Fill(db, s, dim, vecs)| == |db|
    ensures DistinctIds(db) ==> DistinctIds(Fill(db, s, dim, vecs))
    ensures forall m :: Present(Fill(db, s, dim, vecs), m) <==> Present(db, m)
  {
    var next := Fill(db, s, dim, vecs);
    if db == [] { return; }
    forall i | 0 <= i < |db| ensures |next| == |db| && next[i].id == db[i].id && next[i].scope == db[i].scope {
      FillExact(db, s, dim, vecs, i);
    }
    FillExact(db, s, dim, vecs, 0);
    forall m ensures Present(next, m) <==> Present(db, m) {
      if i :| 0 <= i < |db| && Matches(db[i], m) {
        assert Matches(next[i], m);
      }
    }
  }

  // ---- what a rebuild is for, read off the rows alone ----

  /** Every row of the tuple has a vector of the wanted dimension. */
  predicate Rebuilt(db: seq<Row>, s: Scope, dim: nat) {
    forall i :: 0 <= i < |db| && db[i].scope == s ==> db[i].embedding.Some? && |db[i].embedding.value| == dim
  }

  /** The rows of the tuple without a vector, or with one of another dimension. */
  function CountStale(db: seq<Row>, s: Scope, dim: nat): nat {
    if db == [] then 0
    else (if db[0].scope == s && !(db[0].embedding.Some? && |db[0].embedding.value| == dim) then 1 else 0)
         + CountStale(db[1..], s, dim)
  }

  /** Nothing but an embedding changes, and that only in a row of the tuple whose embedding was missing or of
      another dimension; it then has the wanted one. */
  predicate OnlyStaleChanged(was: seq<Row>, next: seq<Row>, s: Scope, dim: nat) {
    && |next| == |was|
    && forall i :: 0 <= i < |was| && next[i] != was[i] ==>
         && next[i] == was[i].(embedding := next[i].embedding)
         && was[i].scope == s
         && (was[i].embedding.None? || |was[i].embedding.value| != dim)
         && next[i].embedding.Some? && |next[i].embedding.value| == dim
  }

  lemma {:induction false} PendingCounted(db: seq<Row>, s: Scope, dim: nat)
    ensures |Pending(db, s, dim)| == CountStale(db, s, dim)
    ensures Pending(db, s, dim) == [] ==> Rebuilt(db, s, dim)
  {
    if db != [] {
      PendingCounted(db[1..], s, dim);
      assert forall i :: 0 < i < |db| ==> db[i] == db[1..][i - 1];
    }
  }

  lemma FillChanges(db: seq<Row>, s: Scope, dim: nat, vecs: seq<Vector>)
    requires AllDim(vecs, dim)
    ensures OnlyStaleChanged(db, Fill(db, s, dim, vecs), s, dim)
  {
    FillKeepsIds(db, s, dim, vecs);
    AllDimAt(vecs, dim);
    forall i | 0 <= i < |db| && Fill(db, s, dim, vecs)[i] != db[i]
      ensures var next := Fill(db, s, dim, vecs)[i];
              && next == db[i].(embedding := next.embedding)
              && db[i].scope == s
              && (db[i].embedding.None? || |db[i].embedding.value| != dim)
              && next.embedding.Some? && |next.embedding.value| == dim
    {
      FillExact(db, s, dim, vecs, i);
    }
  }

  // ---- a page written row by row is a fill ----

  lemma {:induction false} UpdateAbsent(db: seq<Row>, m: MemoryRow, v: Vector)
    requires forall i :: 0 <= i < |db| ==> !Matches(db[i], m)
    ensures Update(db, m, v) == db
  {
    if db != [] {
      UpdateAbsent(db[1..], m, v);
    }
  }

  lemma {:induction false} PendingPresent(db: seq<Row>, s: Scope, dim: nat, m: MemoryRow)
    requires m in Pending(db, s, dim)
    ensures Present(db, m) && m.scope == s
  {
    if IsPending(db[0], s, dim) && m == MemoryRow(db[0].id, db[0].scope, db[0].text) {
      assert Matches(db[0], m);
    } else {
      PendingPresent(db[1..], s, dim, m);
      var i :| 0 <= i < |db[1..]| && Matches(db[1..][i], m);
      assert Matches(db[i + 1], m);
    }
  }

  lemma {:induction false} UpdateFirst(db: seq<Row>, s: Scope, dim: nat, v: Vector)
    requires DistinctIds(db) && Pending(db, s, dim) != []
    ensures Update(db, Pending(db, s, dim)[0], v) == Fill(db, s, dim, [v])
  {
    if IsPending(db[0], s, dim) {
      FirstOnly(db, s, dim, v);
    } else {
      var m := Pending(db, s, dim)[0];
      UpdateFirst(db[1..], s, dim, v);
      PendingPresent(db[1..], s, dim, m);
      var i :| 0 <= i < |db[1..]| && Matches(db[1..][i], m);
      assert db[i + 1].id == m.id;
    }
  }

  lemma FirstOnly(db: seq<Row>, s: Scope, dim: nat, v: Vector)
    requires DistinctIds(db) && db != [] && IsPending(db[0], s, dim)
    ensures Update(db, Pending(db, s, dim)[0], v) == Fill(db, s, dim, [v])
  {
    var m := MemoryRow(db[0].id, db[0].scope, db[0].text);
    assert Pending(db, s, dim)[0] == m;
    UpdateAbsent(db[1..], m, v);
    FillNone(db[1..], s, dim, []);
    assert [v][1..] == [];
  }

  lemma {:induction false} PageWritten(db: seq<Row>, s: Scope, dim: nat, vecs: seq<Vector>)
    requires DistinctIds(db) && AllDim(vecs, dim) && |vecs| <= |Pending(db, s, dim)|
    ensures Written(db, Pending(db, s, dim)[..|vecs|], vecs) == Fill(db, s, dim, vecs)
    decreases |vecs|
  {
    if vecs == [] {
      FillNone(db, s, dim, vecs);
    } else {
      var page := Pending(db, s, dim)[..|vecs|];
      var next := Fill(db, s, dim, [vecs[0]]);
      assert AllDim([vecs[0]], dim);
      UpdateFirst(db, s, dim, vecs[0]);
      FillPending(db, s, dim, [vecs[0]]);
      FillKeepsIds(db, s, dim, [vecs[0]]);
      PageWritten(next, s, dim, vecs[1..]);
      assert Pending(next, s, dim)[..|vecs[1..]|] == page[1..];
      FillAppend(db, s, dim, [vecs[0]], vecs[1..]);
      assert [vecs[0]] + vecs[1..] == vecs;
    }
  }

  lemma {:induction false} AllPresent(db: seq<Row>, batch: seq<MemoryRow>)
    requires forall m :: m in batch ==> Present(db, m)
    ensures CountPresent(db, batch) == |batch|
  {
    if batch != [] {
      AllPresent(db, batch[1..]);
    }
  }

  lemma PageAllPresent(db: seq<Row>, s: Scope, dim: nat, k: nat)
    requires k <= |Pending(db, s, dim)|
    ensures CountPresent(db, Pending(db, s, dim)[..k]) == k
  {
    forall m | m in Pending(db, s, dim)[..k] ensures Present(db, m) {
      PendingPresent(db, s, dim, m);
    }
    AllPresent(db, Pending(db, s, dim)[..k]);
  }

  lemma {:induction false} UpdateKeepsPresence(db: seq<Row>, m: MemoryRow, v: Vector)
    ensures |Update(db, m, v)| == |db|
    ensures forall i :: 0 <= i < |db| ==> Update(db, m, v)[i].id == db[i].id && Update(db, m, v)[i].scope == db[i].scope
    ensures forall o :: Present(Update(db, m, v), o) <==> Present(db, o)
  {
    if db != [] {
      UpdateKeepsPresence(db[1..], m, v);
      var next := Update(db, m, v);
      forall i | 0 <= i < |db| ensures next[i].id == db[i].id && next[i].scope == db[i].scope {
        if i > 0 { assert next[i] == Update(db[1..], m, v)[i - 1]; }
      }
      forall o ensures Present(next, o) <==> Present(db, o) {
        if i :| 0 <= i < |db| && Matches(db[i], o) { assert Matches(next[i], o); }
      }
    }
  }

  lemma {:induction false} WrittenSnoc(db: seq<Row>, batch: seq<MemoryRow>, vecs: seq<Vector>)
    requires |batch| == |vecs| > 0
    ensures var k := |batch| - 1;
            Written(db, batch, vecs) == Update(Written(db, batch[..k], vecs[..k]), batch[k], vecs[k])
    decreases |batch|
  {
    var k := |batch| - 1;
    if k > 0 {
      assert batch[1..][..k - 1] == batch[..k][1..] && vecs[1..][..k - 1] == vecs[..k][1..];
      WrittenSnoc(Update(db, batch[0], vecs[0]), batch[1..], vecs[1..]);
    }
  }

  lemma {:induction false} CountSnoc(db: seq<Row>, batch: seq<MemoryRow>)
    requires batch != []
    ensures var k := |batch| - 1;
            CountPresent(db, batch) == CountPresent(db, batch[..k]) + if Present(db, batch[k]) then 1 else 0
  {
    var k := |batch| - 1;
    if k > 0 {
      assert batch[1..][..k - 1] == batch[..k][1..];
      CountSnoc(db, batch[1..]);
    }
  }

  // ---- the provider, the database, and what can go wrong in one batch ----

  /**
   * One batch's outside world: whether the page query fails, the provider's answer, the UPDATE the
   * database fails on, and whether the COMMIT fails.
   */
  datatype Reply = Reply(pageFails: bool, embedded: Option<seq<Option<Vector>>>, failsAt: Option<nat>, commitFails: bool)

  datatype Invalid = Invalid(id: nat, missing: bool, gotDim: nat)

  datatype Error =
    | ConcurrentRun
    | ProviderFailed
    | Cardinality(expected: nat, got: nat)
    | Dimension(invalid: seq<Invalid>)
    | DatabaseFailed

  predicate IsInvalid(v: Option<Vector>, dim: nat) { v.None? || |v.value| != dim }

  function Invalids(batch: seq<MemoryRow>, embs: seq<Option<Vector>>, dim: nat): seq<Invalid>
    requires |batch| == |embs|
  {
    if batch == [] then []
    else (if IsInvalid(embs[0], dim)
          then [Invalid(batch[0].id, embs[0].None?, if embs[0].None? then 0 else |embs[0].value|)] else [])
         + Invalids(batch[1..], embs[1..], dim)
  }

  /** Each bad vector is reported with its row, whether it was missing, and its length, and nothing else is. */
  lemma {:induction false} InvalidsExact(batch: seq<MemoryRow>, embs: seq<Option<Vector>>, dim: nat, bad: Invalid)
    requires |batch| == |embs|
    ensures bad in Invalids(batch, embs, dim) <==> exists i :: 0 <= i < |batch| && Reports(bad, batch[i], embs[i], dim)
  {
    if batch != [] {
      InvalidsExact(batch[1..], embs[1..], dim, bad);
      assert forall i :: 0 < i < |batch| ==> batch[i] == batch[1..][i - 1] && embs[i] == embs[1..][i - 1];
      if i :| 0 <= i < |batch[1..]| && Reports(bad, batch[1..][i], embs[1..][i], dim) {
        assert Reports(bad, batch[i + 1], embs[i + 1], dim);
      }
      if i :| 0 <= i < |batch| && Reports(bad, batch[i], embs[i], dim) {
        if i > 0 { assert Reports(bad, batch[1..][i - 1], embs[1..][i - 1], dim); }
      }
    }
  }

  predicate Reports(bad: Invalid, m: MemoryRow, v: Option<Vector>, dim: nat) {
    && bad.id == m.id
    && (bad.missing <==> v.None?)
    && bad.gotDim == (if v.Some? then |v.value| else 0)
    && (v.Some? ==> |v.value| != dim)
  }

  lemma {:induction false} InvalidsSnoc(batch: seq<MemoryRow>, embs: seq<Option<Vector>>, dim: nat)
    requires |batch| == |embs| > 0
    ensures var k := |batch| - 1;
            Invalids(batch, embs, dim) == Invalids(batch[..k], embs[..k], dim) + Invalids([batch[k]], [embs[k]], dim)
  {
    var k := |batch| - 1;
    if k > 0 {
      assert batch[1..][..k - 1] == batch[..k][1..] && embs[1..][..k - 1] == embs[..k][1..];
      InvalidsSnoc(batch[1..], embs[1..], dim);
    } else {
      assert batch == [batch[0]] && embs == [embs[0]];
    }
  }

  lemma {:induction false} NoInvalidIffAllGood(batch: seq<MemoryRow>, embs: seq<Option<Vector>>, dim: nat)
    requires |batch| == |embs|
    ensures Invalids(batch, embs, dim) == [] <==> forall i :: 0 <= i < |embs| ==> !IsInvalid(embs[i], dim)
  {
    if batch != [] {
      NoInvalidIffAllGood(batch[1..], embs[1..], dim);
      assert forall i :: 0 < i < |embs| ==> embs[i] == embs[1..][i - 1];
    }
  }

  function Unwrap(embs: seq<Option<Vector>>): (r: seq<Vector>)
    requires forall i :: 0 <= i < |embs| ==> embs[i].Some?
    ensures |r| == |embs| && forall i :: 0 <= i < |embs| ==> r[i] == embs[i].value
  {
    if embs == [] then [] else [embs[0].value] + Unwrap(embs[1..])
  }

  /** Which error a batch ends in, if any. */
  function Fault(reply: Reply, batch: seq<MemoryRow>, dim: nat): Option<Error> {
    if reply.embedded.None? then Some(ProviderFailed)
    else
      var embs := reply.embedded.value;
      if |embs| != |batch| then Some(Cardinality(|batch|, |embs|))
      else if Invalids(batch, embs, dim) != [] then Some(Dimension(Invalids(batch, embs, dim)))
      else if reply.failsAt.Some? && reply.failsAt.value < |batch| then Some(DatabaseFailed)
      else None
  }

  /** The provider's vectors, when the batch has exactly one good vector per row. */
  ghost predicate Good(reply: Reply, size: nat, dim: nat) {
    && reply.embedded.Some?
    && |reply.embedded.value| == size
    && (forall i :: 0 <= i < size ==> !IsInvalid(reply.embedded.value[i], dim))
    && (reply.failsAt.Some? ==> reply.failsAt.value >= size)
  }

  lemma FaultFreeIffGood(reply: Reply, batch: seq<MemoryRow>, dim: nat)
    ensures Fault(reply, batch, dim).None? <==> Good(reply, |batch|, dim)
  {
    if reply.embedded.Some? && |reply.embedded.value| == |batch| {
      NoInvalidIffAllGood(batch, reply.embedded.value, dim);
    }
  }

  function VectorsOf(reply: Reply): seq<Vector> {
    if reply.embedded.Some? && (forall i :: 0 <= i < |reply.embedded.value| ==> reply.embedded.value[i].Some?)
    then Unwrap(reply.embedded.value) else []
  }

  /** Everything the provider delivered in the first n batches. */
  function Delivered(replies: nat -> Reply, n: nat): seq<Vector> {
    if n == 0 then [] else Delivered(replies, n - 1) + VectorsOf(replies(n - 1))
  }

  function Least(a: nat, b: nat): nat { if a < b then a else b }

  /** The rows after the vectors `sent` have gone, in order, to what was pending at first. */
  ghost predicate Reached(rows0: seq<Row>, rows: seq<Row>, s: Scope, dim: nat, sent: seq<Vector>) {
    && DistinctIds(rows)
    && AllDim(sent, dim)
    && |sent| <= |Pending(rows0, s, dim)|
    && rows == Fill(rows0, s, dim, sent)
    && Pending(rows, s, dim) == Pending(rows0, s, dim)[|sent|..]
  }

  lemma DropTwice<T>(x: seq<T>, a: nat, b: nat)
    requires a + b <= |x|
    ensures x[a..][b..] == x[a + b..]
  {
  }

  lemma Advance(rows0: seq<Row>, rows: seq<Row>, s: Scope, dim: nat, sent: seq<Vector>, vecs: seq<Vector>)
    requires Reached(rows0, rows, s, dim, sent) && AllDim(vecs, dim) && |vecs| <= |Pending(rows, s, dim)|
    ensures Reached(rows0, Fill(rows, s, dim, vecs), s, dim, sent + vecs)
  {
    AllDimAppend(sent, vecs, dim);
    FillAppend(rows0, s, dim, sent, vecs);
    FillPending(rows, s, dim, vecs);
    FillKeepsIds(rows, s, dim, vecs);
    DropTwice(Pending(rows0, s, dim), |sent|, |vecs|);
  }

  /** What reaching that point says of the rows themselves. */
  lemma ReachedMeans(rows0: seq<Row>, rows: seq<Row>, s: Scope, dim: nat, sent: seq<Vector>)
    requires Reached(rows0, rows, s, dim, sent)
    ensures OnlyStaleChanged(rows0, rows, s, dim)
    ensures Pending(rows, s, dim) == [] ==> Rebuilt(rows, s, dim)
    ensures |Pending(rows0, s, dim)| == CountStale(rows0, s, dim)
  {
    FillChanges(rows0, s, dim, sent);
    PendingCounted(rows, s, dim);
    PendingCounted(rows0, s, dim);
  }

  function FirstPage(rows: seq<Row>, s: Scope, dim: nat, limit: nat): seq<MemoryRow> {
    Pending(rows, s, dim)[..Least(limit, |Pending(rows, s, dim)|)]
  }

  /** Which error a batch's transaction ends in, if any. */
  function TransactionFault(reply: Reply, page: seq<MemoryRow>, dim: nat): Option<Error> {
    if Fault(reply, page, dim).Some? then Fault(reply, page, dim)
    else if reply.commitFails then Some(DatabaseFailed) else None
  }

  /** The error is the one the page query, or the page and the provider's answer to it, call for. */
  ghost predicate StoppedBy(rows: seq<Row>, s: Scope, dim: nat, limit: nat, reply: Reply, error: Error) {
    if reply.pageFails then error == DatabaseFailed
    else FirstPage(rows, s, dim, limit) != [] && TransactionFault(reply, FirstPage(rows, s, dim, limit), dim) == Some(error)
  }

  /** How many rows n batches take. */
  function Taken(n: nat, limit: nat, all: nat): (r: nat)
    ensures r <= all
  {
    if n == 0 then 0 else Taken(n - 1, limit, all) + Least(limit, all - Taken(n - 1, limit, all))
  }

  lemma {:induction false} TakenIs(n: nat, limit: nat, all: nat)
    ensures Taken(n, limit, all) == Least(n * limit, all)
  {
    if n > 0 {
      TakenIs(n - 1, limit, all);
      assert n * limit == (n - 1) * limit + limit;
    }
  }

  datatype Outcome<T> = Done(value: T) | Thrown(error: Error)
  datatype BatchResult = BatchResult(updated: nat, skipped: nat)
  datatype Summary = Summary(updated: nat, skipped: nat, processed: nat, pendingInScope: nat)

  class Table {
    var rows: seq<Row>
    /** The advisory-lock keys that other sessions hold. */
    var locks: set<int>

    constructor (rows: seq<Row>, locks: set<int>)
      ensures this.rows == rows && this.locks == locks
    {
      this.rows, this.locks := rows, locks;
    }

    /** Phase one of `rebuildBatch`: every bad vector of the batch, before anything is written. */
    method Scan(batch: seq<MemoryRow>, embs: seq<Option<Vector>>, dim: nat) returns (invalid: seq<Invalid>)
      requires |batch| == |embs|
      ensures invalid == Invalids(batch, embs, dim)
    {
      invalid := [];
      for i := 0 to |batch|
        invariant invalid == Invalids(batch[..i], embs[..i], dim)
      {
        InvalidsSnoc(batch[..i + 1], embs[..i + 1], dim);
        assert batch[..i + 1][..i] == batch[..i] && embs[..i + 1][..i] == embs[..i];
        if IsInvalid(embs[i], dim) {
          invalid := invalid + [Invalid(batch[i].id, embs[i].None?, if embs[i].None? then 0 else |embs[i].value|)];
        }
      }
      assert batch[..|batch|] == batch && embs[..|batch|] == embs;
    }

    /**
     * `rebuildBatch`. The batch may be stale: a row that no longer matches is skipped. A provider
     * fault leaves every row as it was even before any rollback.
     */
    method RebuildBatch(reply: Reply, batch: seq<MemoryRow>, dim: nat) returns (r: Outcome<BatchResult>)
      modifies this`rows
      ensures batch == [] ==> r == Done(BatchResult(0, 0)) && rows == old(rows)
      ensures batch != [] ==> (r.Thrown? <==> Fault(reply, batch, dim).Some?)
      ensures r.Thrown? ==> Some(r.error) == Fault(reply, batch, dim)
      ensures batch != [] && reply.embedded.None? ==> r == Thrown(ProviderFailed)
      ensures batch != [] && reply.embedded.Some? && |reply.embedded.value| != |batch| ==>
                r == Thrown(Cardinality(|batch|, |reply.embedded.value|))
      ensures r.Thrown? && r.error.Dimension? ==>
                && reply.embedded.Some? && |reply.embedded.value| == |batch|
                && r.error.invalid == Invalids(batch, reply.embedded.value, dim) != []
      ensures r.Thrown? ==> !r.error.ConcurrentRun? && (r.error.DatabaseFailed? ==> reply.failsAt.Some? && reply.failsAt.value < |batch|)
      ensures r.Thrown? && r.error != DatabaseFailed ==> rows == old(rows)
      ensures r.Done? && batch != [] ==> |VectorsOf(reply)| == |batch| && AllDim(VectorsOf(reply), dim)
      ensures r.Done? && batch != [] ==> rows == Written(old(rows), batch, VectorsOf(reply))
      ensures r.Done? ==> r.value.updated == CountPresent(old(rows), batch)
      ensures r.Done? ==> r.value.updated + r.value.skipped == |batch|
    {
      if batch == [] { return Done(BatchResult(0, 0)); }
      if reply.embedded.None? { return Thrown(ProviderFailed); }
      var embs := reply.embedded.value;
      if |embs| != |batch| { return Thrown(Cardinality(|batch|, |embs|)); }
      var invalid := Scan(batch, embs, dim);
      if invalid != [] { return Thrown(Dimension(invalid)); }
      NoInvalidIffAllGood(batch, embs, dim);
      AllDimAt(VectorsOf(reply), dim);
      r := Mutate(batch, VectorsOf(reply), reply.failsAt);
    }

    /** Phase two: the UPDATEs, row by row, until the database fails on one. */
    method Mutate(batch: seq<MemoryRow>, vecs: seq<Vector>, failsAt: Option<nat>) returns (r: Outcome<BatchResult>)
      requires |vecs| == |batch|
      modifies this`rows
      ensures r.Thrown? <==> failsAt.Some? && failsAt.value < |batch|
      ensures r.Thrown? ==> r.error == DatabaseFailed
      ensures r.Done? ==> rows == Written(old(rows), batch, vecs)
      ensures r.Done? ==> r.value.updated == CountPresent(old(rows), batch)
      ensures r.Done? ==> r.value.updated + r.value.skipped == |batch|
    {
      var updated, skipped := 0, 0;
      var i := 0;
      while i < |batch|
        invariant 0 <= i <= |batch|
        invariant rows == Written(old(rows), batch[..i], vecs[..i])
        invariant updated == CountPresent(old(rows), batch[..i]) && updated + skipped == i
        invariant forall m :: Present(rows, m) <==> Present(old(rows), m)
        invariant failsAt.Some? ==> i <= failsAt.value
      {
        if failsAt == Some(i) { return Thrown(DatabaseFailed); }
        WrittenSnoc(old(rows), batch[..i + 1], vecs[..i + 1]);
        CountSnoc(old(rows), batch[..i + 1]);
        assert batch[..i + 1][..i] == batch[..i] && vecs[..i + 1][..i] == vecs[..i];
        UpdateKeepsPresence(rows, batch[i], vecs[i]);
        if Present(rows, batch[i]) { updated := updated + 1; } else { skipped := skipped + 1; }
        rows := Update(rows, batch[i], vecs[i]);
        i := i + 1;
      }
      assert batch[..|batch|] == batch && vecs[..|batch|] == vecs;
      r := Done(BatchResult(updated, skipped));
    }

    /** The per-batch transaction: a batch that throws leaves nothing behind. */
    method Transaction(reply: Reply, s: Scope, dim: nat, limit: nat, ghost rows0: seq<Row>, ghost sent: seq<Vector>)
        returns (r: Outcome<BatchResult>)
      requires Reached(rows0, rows, s, dim, sent)
      requires FirstPage(rows, s, dim, limit) != [] && !reply.pageFails
      modifies this`rows
      ensures r.Done? <==> Good(reply, Least(limit, |old(Pending(rows, s, dim))|), dim) && !reply.commitFails
      ensures r.Thrown? ==> rows == old(rows)
      ensures r.Thrown? ==> StoppedBy(rows, s, dim, limit, reply, r.error)
      ensures Good(reply, Least(limit, |old(Pending(rows, s, dim))|), dim) && reply.commitFails ==> r == Thrown(DatabaseFailed)
      ensures r.Done? ==> rows == Fill(old(rows), s, dim, VectorsOf(reply))
      ensures r.Done? ==> Reached(rows0, rows, s, dim, sent + VectorsOf(reply))
      ensures r.Done? ==> |VectorsOf(reply)| == Least(limit, |old(Pending(rows, s, dim))|)
      ensures r.Done? ==> r.value == BatchResult(|VectorsOf(reply)|, 0)
    {
      var page := FirstPage(rows, s, dim, limit);
      var before := rows;
      r := RebuildBatch(reply, page, dim);
      FaultFreeIffGood(reply, page, dim);
      if r.Done? && reply.commitFails { r := Thrown(DatabaseFailed); }
      if r.Thrown? {
        rows := before;
      } else {
        PageWritten(before, s, dim, VectorsOf(reply));
        PageAllPresent(before, s, dim, |page|);
        Advance(rows0, before, s, dim, sent, VectorsOf(reply));
      }
    }

    /** One turn of the paging loop: the page query, and the transaction if the page is not empty. */
    method OnePage(s: Scope, dim: nat, limit: nat, reply: Reply, ghost rows0: seq<Row>, ghost sent: seq<Vector>)
        returns (r: Outcome<BatchResult>, size: nat)
      requires Reached(rows0, rows, s, dim, sent)
      modifies this`rows
      ensures r.Thrown? ==> rows == old(rows) && StoppedBy(rows, s, dim, limit, reply, r.error)
      ensures r.Done? ==> size == Least(limit, |Pending(rows0, s, dim)| - |sent|) && r.value == BatchResult(size, 0)
      ensures r.Done? && size == 0 ==> rows == old(rows) && (limit > 0 ==> Pending(rows, s, dim) == [])
      ensures r.Done? && size > 0 ==> |VectorsOf(reply)| == size && Reached(rows0, rows, s, dim, sent + VectorsOf(reply))
    {
      size := |FirstPage(rows, s, dim, limit)|;
      if reply.pageFails { return Thrown(DatabaseFailed), size; }
      if size == 0 { return Done(BatchResult(0, 0)), 0; }
      r := Transaction(reply, s, dim, limit, rows0, sent);
    }

    /** The paging loop, under the lock. */
    method Pages(s: Scope, ghost key: int, dim: nat, limit: nat, replies: nat -> Reply)
        returns (r: Outcome<Summary>, batches: nat)
      requires DistinctIds(rows) && key in locks
      modifies this`rows
      ensures Reached(old(rows), rows, s, dim, Delivered(replies, batches))
      ensures |Delivered(replies, batches)| == Taken(batches, limit, |old(Pending(rows, s, dim))|)
      ensures r.Done? ==>
                var n := |Delivered(replies, batches)|; r.value == Summary(n, 0, n, |old(Pending(rows, s, dim))|)
      ensures r.Done? && limit > 0 ==> Pending(rows, s, dim) == []
      ensures r.Thrown? ==> StoppedBy(rows, s, dim, limit, replies(batches), r.error)
      ensures OnlyStaleChanged(old(rows), rows, s, dim)
      ensures r.Done? ==> r.value.pendingInScope == CountStale(old(rows), s, dim)
      ensures r.Done? && limit > 0 ==> Rebuilt(rows, s, dim) && r.value.processed == CountStale(old(rows), s, dim)
    {
      r, batches := PageLoop(s, key, dim, limit, replies);
      ReachedMeans(old(rows), rows, s, dim, Delivered(replies, batches));
    }

    method PageLoop(s: Scope, ghost key: int, dim: nat, limit: nat, replies: nat -> Reply)
        returns (r: Outcome<Summary>, batches: nat)
      requires DistinctIds(rows) && key in locks
      modifies this`rows
      ensures Reached(old(rows), rows, s, dim, Delivered(replies, batches))
      ensures |Delivered(replies, batches)| == Taken(batches, limit, |old(Pending(rows, s, dim))|)
      ensures r.Done? ==>
                var n := |Delivered(replies, batches)|; r.value == Summary(n, 0, n, |old(Pending(rows, s, dim))|)
      ensures r.Done? && limit > 0 ==> Pending(rows, s, dim) == []
      ensures r.Thrown? ==> StoppedBy(rows, s, dim, limit, replies(batches), r.error)
    {
      batches := 0;
      var pendingInScope := |Pending(rows, s, dim)|;
      var updated, skipped, processed := 0, 0, 0;
      FillNone(rows, s, dim, []);
      while true
        invariant Reached(old(rows), rows, s, dim, Delivered(replies, batches))
        invariant updated == processed == |Delivered(replies, batches)| && skipped == 0
        invariant processed == Taken(batches, limit, pendingInScope)
        decreases pendingInScope - processed
      {
        var batch, size := OnePage(s, dim, limit, replies(batches), old(rows), Delivered(replies, batches));
        if batch.Thrown? { return Thrown(batch.error), batches; }
        if size == 0 { break; }
        updated, skipped := updated + batch.value.updated, skipped + batch.value.skipped;
        processed := processed + size;
        batches := batches + 1;
      }
      r := Done(Summary(updated, skipped, processed, pendingInScope));
    }

    /**
     * `rebuildEmbeddingsForTuple` with no other writer. Whatever it ends in, the rows are the old
     * ones filled with the vectors of a whole number of complete batches, and the lock is free.
     */
    method Rebuild(s: Scope, key: int, dim: nat, limit: nat, dryRun: bool, lockFails: bool, countFails: bool, replies: nat -> Reply)
        returns (r: Outcome<Summary>, batches: nat)
      requires DistinctIds(rows)
      modifies this
      ensures locks == old(locks)
      ensures Reached(old(rows), rows, s, dim, Delivered(replies, batches))
      ensures |Delivered(replies, batches)| == Least(batches * limit, |old(Pending(rows, s, dim))|)
      ensures lockFails ==> r == Thrown(DatabaseFailed) && batches == 0
      ensures !lockFails && key in old(locks) ==> r == Thrown(ConcurrentRun) && batches == 0
      ensures !lockFails && key !in old(locks) && countFails ==> r == Thrown(DatabaseFailed) && batches == 0
      ensures !lockFails && key !in old(locks) && !countFails && dryRun ==>
                r == Done(Summary(0, 0, 0, |old(Pending(rows, s, dim))|)) && batches == 0
      ensures r.Done? && !dryRun ==>
                var n := |Delivered(replies, batches)|; r.value == Summary(n, 0, n, |old(Pending(rows, s, dim))|)
      ensures r.Done? && !dryRun && limit > 0 ==>
                Pending(rows, s, dim) == [] && r.value.processed == |old(Pending(rows, s, dim))|
      ensures r.Thrown? && !lockFails && key !in old(locks) && !countFails ==>
                StoppedBy(rows, s, dim, limit, replies(batches), r.error)
      ensures OnlyStaleChanged(old(rows), rows, s, dim)
      ensures r.Done? ==> r.value.pendingInScope == CountStale(old(rows), s, dim)
      ensures r.Done? && !dryRun && limit > 0 ==> Rebuilt(rows, s, dim) && r.value.processed == CountStale(old(rows), s, dim)
    {
      FillNone(rows, s, dim, []);
      PendingCounted(rows, s, dim);
      TakenIs(0, limit, |Pending(rows, s, dim)|);
      batches := 0;
      if lockFails { return Thrown(DatabaseFailed), 0; }
      if key in locks { return Thrown(ConcurrentRun), 0; }
      locks := locks + {key};
      if countFails {
        r := Thrown(DatabaseFailed);
      } else if dryRun {
        r := Done(Summary(0, 0, 0, |Pending(rows, s, dim)|));
      } else {
        ghost var all := |Pending(rows, s, dim)|;
        r, batches := Pages(s, key, dim, limit, replies);
        TakenIs(batches, limit, all);
      }
      locks := locks - {key};
    }
  }
}
