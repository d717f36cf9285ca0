/** The resumable backfill of turns from historic inbound messages, in batches. */
module Backfill {
  import opened Options

  /** One row of `mensagens`: `pair` stands for its (tenant, agent). */
  datatype Message = Message(id: nat, pair: nat, inbound: bool, processedAt: Option<int>)

  datatype Turn = LegacyProcessed(completedAt: int) | Received

  /** What the old projection lets one infer about a message's turn. */
  function TurnOf(m: Message): Turn {
    match m.processedAt
    case Some(at) => LegacyProcessed(at)
    case None => Received
  }

  predicate DistinctIds(ms: seq<Message>) {
    forall i, j :: 0 <= i < j < |ms| ==> ms[i].id != ms[j].id
  }

  function Ids(ms: seq<Message>): set<nat> { set m | m in ms :: m.id }

  predicate IsPending(m: Message, done: set<nat>, pair: nat) {
    m.pair == pair && m.inbound && m.id !in done
  }

  /** The inbound messages of a pair with no turn yet, oldest first. */
  function Pending(ms: seq<Message>, done: set<nat>, pair: nat): seq<Message> {
    if ms == [] then []
    else (if IsPending(ms[0], done, pair) then [ms[0]] else []) + Pending(ms[1..], done, pair)
  }

  /** Everything a run may create turns for, pair after pair. */
  function Queue(pairs: seq<nat>, ms: seq<Message>, done: set<nat>): seq<Message> {
    if pairs == [] then []
    else Pending(ms, done, pairs[0]) + Queue(pairs[1..], ms, done)
  }

  function Adopt(turns: map<nat, Turn>, ms: seq<Message>): map<nat, Turn>
    decreases |ms|
  {
    if ms == [] then turns
    else Adopt(turns[ms[0].id := TurnOf(ms[0])], ms[1..])
  }

  function Least(a: nat, b: nat): nat { if a < b then a else b }

  /** How many turns a run creates: the ceiling counts only when it is positive. */
  function Quota(maxTotal: nat, pending: nat): nat {
    if maxTotal == 0 then pending else Least(maxTotal, pending)
  }

  /** The turns after one run. */
  function After(pairs: seq<nat>, ms: seq<Message>, turns: map<nat, Turn>, maxTotal: nat): map<nat, Turn> {
    var queue := Queue(pairs, ms, turns.Keys);
    Adopt(turns, queue[..Quota(maxTotal, |queue|)])
  }

  // ---- adopting a prefix removes exactly that prefix ----

  lemma {:induction false} AdoptKeys(turns: map<nat, Turn>, ms: seq<Message>)
    ensures Adopt(turns, ms).Keys == turns.Keys + Ids(ms)
    decreases |ms|
  {
    if ms != [] {
      assert ms == [ms[0]] + ms[1..];
      AdoptKeys(turns[ms[0].id := TurnOf(ms[0])], ms[1..]);
    }
  }

  lemma {:induction false} AdoptAppend(turns: map<nat, Turn>, a: seq<Message>, b: seq<Message>)
    ensures Adopt(turns, a + b) == Adopt(Adopt(turns, a), b)
    decreases |a|
  {
    if a == [] {
      assert a + b == b;
    } else {
      assert (a + b)[0] == a[0] && (a + b)[1..] == a[1..] + b;
      AdoptAppend(turns[a[0].id := TurnOf(a[0])], a[1..], b);
    }
  }

  /** Every adopted message has the turn its projection implies; no other entry changes. */
  lemma {:induction false} AdoptExact(turns: map<nat, Turn>, ms: seq<Message>, id: nat)
    requires DistinctIds(ms)
    ensures forall m :: m in ms && m.id == id ==> id in Adopt(turns, ms) && Adopt(turns, ms)[id] == TurnOf(m)
    ensures id in turns && id !in Ids(ms) ==> id in Adopt(turns, ms) && Adopt(turns, ms)[id] == turns[id]
    decreases |ms|
  {
    if ms != [] {
      var next := turns[ms[0].id := TurnOf(ms[0])];
      AdoptExact(next, ms[1..], id);
      assert ms == [ms[0]] + ms[1..];
      if ms[0].id == id {
        assert id !in Ids(ms[1..]);
      }
    }
  }

  lemma {:induction false} PendingMembers(ms: seq<Message>, done: set<nat>, pair: nat)
    requires DistinctIds(ms)
    ensures forall m :: m in Pending(ms, done, pair) <==> m in ms && IsPending(m, done, pair)
    ensures DistinctIds(Pending(ms, done, pair))
  {
    if ms != [] {
      PendingMembers(ms[1..], done, pair);
      var rest := Pending(ms[1..], done, pair);
      assert ms == [ms[0]] + ms[1..];
      forall m | m in rest ensures m.id != ms[0].id {
        var i :| 0 <= i < |ms[1..]| && ms[1..][i] == m;
        assert ms[i + 1] == m;
      }
    }
  }

  lemma {:induction false} PendingAgree(ms: seq<Message>, one: set<nat>, two: set<nat>, pair: nat)
    requires forall m :: m in ms && m.pair == pair ==> (m.id in one <==> m.id in two)
    ensures Pending(ms, one, pair) == Pending(ms, two, pair)
  {
    if ms != [] {
      PendingAgree(ms[1..], one, two, pair);
    }
  }

  lemma {:induction false} PendingAfterPrefix(ms: seq<Message>, done: set<nat>, pair: nat, k: nat)
    requires DistinctIds(ms) && k <= |Pending(ms, done, pair)|
    ensures Pending(ms, done + Ids(Pending(ms, done, pair)[..k]), pair) == Pending(ms, done, pair)[k..]
    decreases |ms|
  {
    if ms != [] {
      var all := Pending(ms, done, pair);
      var rest := Pending(ms[1..], done, pair);
      var now := done + Ids(all[..k]);
      PendingMembers(ms[1..], done, pair);
      if !IsPending(ms[0], done, pair) {
        assert all == rest;
        PendingAfterPrefix(ms[1..], done, pair, k);
      } else if k == 0 {
        assert now == done;
        assert all[0..] == all;
      } else {
        PendingAfterPrefix(ms[1..], done, pair, k - 1);
        assert all[..k] == [ms[0]] + rest[..k - 1];
        assert all[k..] == rest[k - 1..];
        var earlier := done + Ids(rest[..k - 1]);
        assert now == earlier + {ms[0].id};
        PendingAgree(ms[1..], now, earlier, pair);
      }
    }
  }

  lemma SameIdSame(ms: seq<Message>, a: Message, b: Message)
    requires DistinctIds(ms) && a in ms && b in ms && a.id == b.id
    ensures a == b
  {
  }

  /** Work on one pair never changes what another has pending. */
  lemma PendingOfOther(ms: seq<Message>, done: set<nat>, taken: seq<Message>, pair: nat)
    requires DistinctIds(ms)
    requires forall t :: t in taken ==> t in ms && t.pair != pair
    ensures Pending(ms, done + Ids(taken), pair) == Pending(ms, done, pair)
  {
    forall m | m in ms && m.pair == pair ensures m.id !in Ids(taken) {
      if t :| t in taken && t.id == m.id {
        SameIdSame(ms, t, m);
      }
    }
    PendingAgree(ms, done + Ids(taken), done, pair);
  }

  lemma {:induction false} QueueOfOthers(pairs: seq<nat>, ms: seq<Message>, done: set<nat>, taken: seq<Message>)
    requires DistinctIds(ms)
    requires forall t :: t in taken ==> t in ms && t.pair !in pairs
    ensures Queue(pairs, ms, done + Ids(taken)) == Queue(pairs, ms, done)
  {
    if pairs != [] {
      PendingOfOther(ms, done, taken, pairs[0]);
      QueueOfOthers(pairs[1..], ms, done, taken);
    }
  }

  predicate DistinctPairs(pairs: seq<nat>) {
    forall i, j :: 0 <= i < j < |pairs| ==> pairs[i] != pairs[j]
  }

  lemma {:induction false} QueueMembers(pairs: seq<nat>, ms: seq<Message>, done: set<nat>)
    requires DistinctIds(ms) && DistinctPairs(pairs)
    ensures forall m :: m in Queue(pairs, ms, done) <==> m in ms && m.pair in pairs && m.inbound && m.id !in done
    ensures DistinctIds(Queue(pairs, ms, done))
  {
    if pairs != [] {
      var first := Pending(ms, done, pairs[0]);
      var rest := Queue(pairs[1..], ms, done);
      PendingMembers(ms, done, pairs[0]);
      QueueMembers(pairs[1..], ms, done);
      assert pairs == [pairs[0]] + pairs[1..];
      forall a, b | a in first && b in rest ensures a.id != b.id {
        if a.id == b.id { SameIdSame(ms, a, b); }
      }
    }
  }

  /** The first pair's messages and the others' are of different pairs. */
  lemma FirstAndRest(pairs: seq<nat>, ms: seq<Message>, done: set<nat>)
    requires DistinctIds(ms) && DistinctPairs(pairs) && pairs != []
    ensures forall t :: t in Pending(ms, done, pairs[0]) ==> t in ms && t.pair !in pairs[1..]
    ensures forall t :: t in Queue(pairs[1..], ms, done) ==> t in ms && t.pair != pairs[0]
  {
    PendingMembers(ms, done, pairs[0]);
    QueueMembers(pairs[1..], ms, done);
    assert pairs[0] !in pairs[1..];
  }

  /** After any prefix of the queue has its turns, what is left is the rest of the queue. */
  lemma {:induction false} QueueAfterPrefix(pairs: seq<nat>, ms: seq<Message>, done: set<nat>, k: nat)
    requires DistinctIds(ms) && DistinctPairs(pairs) && k <= |Queue(pairs, ms, done)|
    ensures Queue(pairs, ms, done + Ids(Queue(pairs, ms, done)[..k])) == Queue(pairs, ms, done)[k..]
    decreases |pairs|
  {
    if pairs != [] {
      var first := Pending(ms, done, pairs[0]);
      var rest := Queue(pairs[1..], ms, done);
      var queue := first + rest;
      FirstAndRest(pairs, ms, done);
      if k <= |first| {
        assert queue[..k] == first[..k] && queue[k..] == first[k..] + rest;
        assert forall t :: t in first[..k] ==> t in first;
        PendingAfterPrefix(ms, done, pairs[0], k);
        QueueOfOthers(pairs[1..], ms, done, first[..k]);
      } else {
        var j := k - |first|;
        assert queue[..k] == first + rest[..j] && queue[k..] == rest[j..];
        assert forall t :: t in rest[..j] ==> t in rest;
        var now := done + Ids(rest[..j]);
        assert done + Ids(queue[..k]) == now + Ids(first);
        PendingAfterPrefix(ms, done, pairs[0], |first|);
        assert first[..|first|] == first && first[|first|..] == [];
        PendingOfOther(ms, done + Ids(first), rest[..j], pairs[0]);
        assert done + Ids(first) + Ids(rest[..j]) == now + Ids(first);
        QueueAfterPrefix(pairs[1..], ms, done, j);
        QueueOfOthers(pairs[1..], ms, now, first);
      }
    }
  }

  // ---- what a maintainer is promised about batches and runs ----

  /**
   * One batch of at most `limit`: the pair's oldest pending messages go, the rest stays pending, no other
   * pair notices, every turn there was stays, and each new one is the turn its message implies.
   */
  lemma OneBatch(ms: seq<Message>, turns: map<nat, Turn>, pair: nat, limit: nat, other: nat, m: Message)
    requires DistinctIds(ms) && other != pair && m in ms
    ensures var queue := Pending(ms, turns.Keys, pair);
            var batch := queue[..Least(limit, |queue|)];
            var next := Adopt(turns, batch);
            && Pending(ms, next.Keys, pair) == queue[|batch|..]
            && Pending(ms, next.Keys, other) == Pending(ms, turns.Keys, other)
            && (m.id in turns ==> m.id in next && next[m.id] == turns[m.id])
            && (m in batch ==> m.id in next)
            && (m.id !in turns && m.id in next ==>
                  m in batch && next[m.id] == if m.processedAt.Some? then LegacyProcessed(m.processedAt.value) else Received)
  {
    var queue := Pending(ms, turns.Keys, pair);
    var batch := queue[..Least(limit, |queue|)];
    PendingMembers(ms, turns.Keys, pair);
    AdoptKeys(turns, batch);
    PendingAfterPrefix(ms, turns.Keys, pair, |batch|);
    assert forall t :: t in batch ==> t in queue;
    PendingOfOther(ms, turns.Keys, batch, other);
    AdoptExact(turns, batch, m.id);
    if b :| b in batch && b.id == m.id { SameIdSame(ms, b, m); }
  }

  /** A run with ceiling a and then one with ceiling b leave what one run with a + b leaves. */
  lemma RunThenRun(pairs: seq<nat>, ms: seq<Message>, turns: map<nat, Turn>, a: nat, b: nat)
    requires DistinctIds(ms) && DistinctPairs(pairs) && a > 0 && b > 0
    ensures After(pairs, ms, After(pairs, ms, turns, a), b) == After(pairs, ms, turns, a + b)
  {
    var queue := Queue(pairs, ms, turns.Keys);
    var k := Least(a, |queue|);
    var first := Adopt(turns, queue[..k]);
    AfterQueue(pairs, ms, turns, queue, a);
    Interrupted(pairs, ms, turns, k);
    AfterQueue(pairs, ms, first, queue[k..], b);
    AfterQueue(pairs, ms, turns, queue, a + b);
    AdoptTwice(turns, queue, k, Least(b, |queue| - k));
  }

  /** A run, given what it finds pending. */
  lemma AfterQueue(pairs: seq<nat>, ms: seq<Message>, turns: map<nat, Turn>, queue: seq<Message>, maxTotal: nat)
    requires queue == Queue(pairs, ms, turns.Keys)
    ensures After(pairs, ms, turns, maxTotal) == Adopt(turns, queue[..Quota(maxTotal, |queue|)])
  {
  }

  lemma AdoptTwice(turns: map<nat, Turn>, queue: seq<Message>, k: nat, l: nat)
    requires k + l <= |queue|
    ensures Adopt(Adopt(turns, queue[..k]), queue[k..][..l]) == Adopt(turns, queue[..k + l])
  {
    assert queue[..k] + queue[k..][..l] == queue[..k + l];
    AdoptAppend(turns, queue[..k], queue[k..][..l]);
  }

  lemma Interrupted(pairs: seq<nat>, ms: seq<Message>, turns: map<nat, Turn>, k: nat)
    requires DistinctIds(ms) && DistinctPairs(pairs) && k <= |Queue(pairs, ms, turns.Keys)|
    ensures Queue(pairs, ms, Adopt(turns, Queue(pairs, ms, turns.Keys)[..k]).Keys) == Queue(pairs, ms, turns.Keys)[k..]
  {
    AdoptKeys(turns, Queue(pairs, ms, turns.Keys)[..k]);
    QueueAfterPrefix(pairs, ms, turns.Keys, k);
  }

  /** Killed after any number of created turns and started again, a run ends where it would have ended. */
  lemma Resumable(pairs: seq<nat>, ms: seq<Message>, turns: map<nat, Turn>, k: nat)
    requires DistinctIds(ms) && DistinctPairs(pairs) && k <= |Queue(pairs, ms, turns.Keys)|
    ensures After(pairs, ms, Adopt(turns, Queue(pairs, ms, turns.Keys)[..k]), 0) == After(pairs, ms, turns, 0)
  {
    var queue := Queue(pairs, ms, turns.Keys);
    Interrupted(pairs, ms, turns, k);
    AfterQueue(pairs, ms, Adopt(turns, queue[..k]), queue[k..], 0);
    AfterQueue(pairs, ms, turns, queue, 0);
    AdoptTwice(turns, queue, k, |queue| - k);
  }

  /** A run after a complete one finds nothing to do. */
  lemma RerunCreatesNone(pairs: seq<nat>, ms: seq<Message>, turns: map<nat, Turn>)
    requires DistinctIds(ms) && DistinctPairs(pairs)
    ensures Queue(pairs, ms, After(pairs, ms, turns, 0).Keys) == []
  {
    Interrupted(pairs, ms, turns, |Queue(pairs, ms, turns.Keys)|);
  }

  /** A complete run gives every inbound message a turn, keeps the turns there were and adds no other. */
  lemma CompleteRun(pairs: seq<nat>, ms: seq<Message>, turns: map<nat, Turn>, m: Message)
    requires DistinctIds(ms) && DistinctPairs(pairs)
    requires m in ms && m.pair in pairs
    ensures m.id in After(pairs, ms, turns, 0) <==> m.inbound || m.id in turns
    ensures m.id in turns ==> After(pairs, ms, turns, 0)[m.id] == turns[m.id]
    ensures m.inbound && m.id !in turns ==>
              After(pairs, ms, turns, 0)[m.id] == if m.processedAt.Some? then LegacyProcessed(m.processedAt.value) else Received
  {
    var queue := Queue(pairs, ms, turns.Keys);
    QueueMembers(pairs, ms, turns.Keys);
    assert queue[..|queue|] == queue;
    AdoptKeys(turns, queue);
    AdoptExact(turns, queue, m.id);
    if q :| q in queue && q.id == m.id { SameIdSame(ms, q, m); }
  }

  // ---- the program ----

  function WithPending(pairs: seq<nat>, ms: seq<Message>, done: set<nat>): seq<nat> {
    if pairs == [] then []
    else (if Pending(ms, done, pairs[0]) != [] then [pairs[0]] else []) + WithPending(pairs[1..], ms, done)
  }

  lemma {:induction false} ListingLosesNothing(pairs: seq<nat>, ms: seq<Message>, done: set<nat>)
    requires DistinctPairs(pairs)
    ensures Queue(WithPending(pairs, ms, done), ms, done) == Queue(pairs, ms, done)
    ensures forall p :: p in WithPending(pairs, ms, done) ==> p in pairs
    ensures DistinctPairs(WithPending(pairs, ms, done))
  {
    if pairs != [] {
      ListingLosesNothing(pairs[1..], ms, done);
      var rest := WithPending(pairs[1..], ms, done);
      if Pending(ms, done, pairs[0]) != [] {
        assert ([pairs[0]] + rest)[1..] == rest;
        assert pairs[0] !in rest;
      } else {
        assert [] + rest == rest;
        assert [] + Queue(pairs[1..], ms, done) == Queue(pairs[1..], ms, done);
      }
    }
  }

  lemma {:induction false} QueueAppend(a: seq<nat>, b: seq<nat>, ms: seq<Message>, done: set<nat>)
    ensures Queue(a + b, ms, done) == Queue(a, ms, done) + Queue(b, ms, done)
  {
    if a == [] {
      assert a + b == b;
    } else {
      assert (a + b)[0] == a[0] && (a + b)[1..] == a[1..] + b;
      QueueAppend(a[1..], b, ms, done);
    }
  }

  /** The queue up to pair i, that pair, and what follows. */
  lemma SplitQueue(pairs: seq<nat>, i: nat, ms: seq<Message>, done: set<nat>)
    requires i < |pairs|
    ensures Queue(pairs, ms, done) ==
            Queue(pairs[..i], ms, done) + Pending(ms, done, pairs[i]) + Queue(pairs[i + 1..], ms, done)
    ensures Queue(pairs[..i + 1], ms, done) == Queue(pairs[..i], ms, done) + Pending(ms, done, pairs[i])
  {
    assert pairs == pairs[..i] + pairs[i..] && pairs[..i + 1] == pairs[..i] + [pairs[i]];
    assert pairs[i..][0] == pairs[i] && pairs[i..][1..] == pairs[i + 1..];
    QueueAppend(pairs[..i], pairs[i..], ms, done);
    QueueAppend(pairs[..i], [pairs[i]], ms, done);
    assert Queue([pairs[i]], ms, done) == Pending(ms, done, pairs[i]) + Queue([], ms, done);
  }

  /** What pair i still has pending once everything before it and j of its own have turns. */
  lemma PendingInside(pairs: seq<nat>, i: nat, j: nat, ms: seq<Message>, done: set<nat>)
    requires DistinctIds(ms) && DistinctPairs(pairs) && i < |pairs| && j <= |Pending(ms, done, pairs[i])|
    ensures Pending(ms, done + Ids(Queue(pairs[..i], ms, done) + Pending(ms, done, pairs[i])[..j]), pairs[i])
            == Pending(ms, done, pairs[i])[j..]
  {
    var before := Queue(pairs[..i], ms, done);
    var own := Pending(ms, done, pairs[i])[..j];
    QueueMembers(pairs[..i], ms, done);
    assert pairs[i] !in pairs[..i];
    PendingAfterPrefix(ms, done, pairs[i], j);
    PendingOfOther(ms, done + Ids(own), before, pairs[i]);
    assert done + Ids(own) + Ids(before) == done + Ids(before + own);
  }

  /** Where a run stands while it works on pair i, j of whose messages have turns. */
  ghost predicate Inside(pairs: seq<nat>, i: nat, j: nat, created: nat, ms: seq<Message>, done: set<nat>)
  {
    && i < |pairs|
    && j <= |Pending(ms, done, pairs[i])|
    && created == |Queue(pairs[..i], ms, done)| + j
    && created <= |Queue(pairs, ms, done)|
    && Queue(pairs, ms, done)[..created] == Queue(pairs[..i], ms, done) + Pending(ms, done, pairs[i])[..j]
  }

  lemma Extend<T>(before: seq<T>, own: seq<T>, rest: seq<T>, j: nat, k: nat)
    requires j + k <= |own|
    ensures var queue := before + own + rest;
            && queue[..|before| + j] == before + own[..j]
            && queue[..|before| + j + k] == before + own[..j + k]
            && queue[..|before| + j] + own[j..][..k] == queue[..|before| + j + k]
  {
    assert own[..j] + own[j..][..k] == own[..j + k];
  }

  /** A batch of k more turns extends the prefix of the queue by exactly k. */
  lemma BatchStep(pairs: seq<nat>, i: nat, j: nat, created: nat, ms: seq<Message>, t0: map<nat, Turn>,
                  turns: map<nat, Turn>, k: nat)
    requires DistinctIds(ms) && DistinctPairs(pairs)
    requires Inside(pairs, i, j, created, ms, t0.Keys)
    requires turns == Adopt(t0, Queue(pairs, ms, t0.Keys)[..created])
    requires k <= |Pending(ms, t0.Keys, pairs[i])| - j
    ensures Inside(pairs, i, j + k, created + k, ms, t0.Keys)
    ensures k <= |Pending(ms, turns.Keys, pairs[i])|
    ensures Adopt(turns, Pending(ms, turns.Keys, pairs[i])[..k]) == Adopt(t0, Queue(pairs, ms, t0.Keys)[..created + k])
  {
    var queue, own := Queue(pairs, ms, t0.Keys), Pending(ms, t0.Keys, pairs[i]);
    SplitQueue(pairs, i, ms, t0.Keys);
    Extend(Queue(pairs[..i], ms, t0.Keys), own, Queue(pairs[i + 1..], ms, t0.Keys), j, k);
    LeftInside(pairs, i, j, created, ms, t0, turns);
    AdoptAppend(t0, queue[..created], own[j..][..k]);
  }

  /** What the pair has left. */
  lemma LeftInside(pairs: seq<nat>, i: nat, j: nat, created: nat, ms: seq<Message>, t0: map<nat, Turn>, turns: map<nat, Turn>)
    requires DistinctIds(ms) && DistinctPairs(pairs)
    requires Inside(pairs, i, j, created, ms, t0.Keys)
    requires turns == Adopt(t0, Queue(pairs, ms, t0.Keys)[..created])
    ensures Pending(ms, turns.Keys, pairs[i]) == Pending(ms, t0.Keys, pairs[i])[j..]
  {
    PendingInside(pairs, i, j, ms, t0.Keys);
    AdoptKeys(t0, Queue(pairs, ms, t0.Keys)[..created]);
  }

  /** How many turns a batch of at most `limit` adds. */
  function BatchSize(ms: seq<Message>, done: set<nat>, pair: nat, limit: nat): nat {
    Least(limit, |Pending(ms, done, pair)|)
  }

  /** The next batch, wherever it stops. */
  lemma NextStep(pairs: seq<nat>, i: nat, j: nat, created: nat, ms: seq<Message>, t0: map<nat, Turn>,
                 turns: map<nat, Turn>, limit: nat)
    requires DistinctIds(ms) && DistinctPairs(pairs)
    requires Inside(pairs, i, j, created, ms, t0.Keys)
    requires turns == Adopt(t0, Queue(pairs, ms, t0.Keys)[..created])
    ensures var k := BatchSize(ms, turns.Keys, pairs[i], limit);
            && Inside(pairs, i, j + k, created + k, ms, t0.Keys)
            && Adopt(turns, Pending(ms, turns.Keys, pairs[i])[..k]) == Adopt(t0, Queue(pairs, ms, t0.Keys)[..created + k])
  {
    LeftInside(pairs, i, j, created, ms, t0, turns);
    BatchStep(pairs, i, j, created, ms, t0, turns, BatchSize(ms, turns.Keys, pairs[i], limit));
  }

  /** A batch that may create something and creates nothing found the pair exhausted. */
  lemma Exhausted(pairs: seq<nat>, i: nat, j: nat, created: nat, ms: seq<Message>, t0: map<nat, Turn>,
                  turns: map<nat, Turn>, limit: nat)
    requires DistinctIds(ms) && DistinctPairs(pairs)
    requires Inside(pairs, i, j, created, ms, t0.Keys)
    requires turns == Adopt(t0, Queue(pairs, ms, t0.Keys)[..created])
    requires limit > 0 && BatchSize(ms, turns.Keys, pairs[i], limit) == 0
    ensures j == |Pending(ms, t0.Keys, pairs[i])|
  {
    LeftInside(pairs, i, j, created, ms, t0, turns);
  }

  /** Entering pair i, and leaving it once its batches create nothing more. */
  lemma EnterAndLeave(pairs: seq<nat>, i: nat, created: nat, ms: seq<Message>, done: set<nat>)
    requires i < |pairs|
    ensures created == |Queue(pairs[..i], ms, done)| ==> Inside(pairs, i, 0, created, ms, done)
    ensures Inside(pairs, i, |Pending(ms, done, pairs[i])|, created, ms, done)
            ==> created == |Queue(pairs[..i + 1], ms, done)|
  {
    SplitQueue(pairs, i, ms, done);
    var before := Queue(pairs[..i], ms, done);
    assert Queue(pairs, ms, done)[..|before|] == before + Pending(ms, done, pairs[i])[..0];
  }

  class Store {
    const messages: seq<Message>
    /** The order in which the database lists pairs. */
    const pairs: seq<nat>
    var turns: map<nat, Turn>

    ghost predicate Valid() { DistinctIds(messages) && DistinctPairs(pairs) }

    ghost function Waiting(): seq<Message> reads this { Queue(pairs, messages, turns.Keys) }

    constructor (messages: seq<Message>, pairs: seq<nat>, turns: map<nat, Turn>)
      requires DistinctIds(messages) && DistinctPairs(pairs)
      ensures Valid() && this.messages == messages && this.pairs == pairs && this.turns == turns
    {
      this.messages, this.pairs, this.turns := messages, pairs, turns;
    }

    /** One short transaction: turns for the oldest `limit` messages still without one. */
    method Batch(pair: nat, limit: nat) returns (created: nat)
      modifies this
      ensures created == Least(limit, |old(Pending(messages, turns.Keys, pair))|)
      ensures turns == Adopt(old(turns), old(Pending(messages, turns.Keys, pair))[..created])
    {
      var candidates := Pending(messages, turns.Keys, pair);
      created := Least(limit, |candidates|);
      turns := Adopt(turns, candidates[..created]);
    }

    /** The turns so far are those of the first `created` messages of the queue. */
    ghost predicate Standing(listing: seq<nat>, t0: map<nat, Turn>, created: nat, maxTotal: nat)
      reads this
    {
      && Valid()
      && DistinctPairs(listing)
      && created <= |Queue(listing, messages, t0.Keys)|
      && turns == Adopt(t0, Queue(listing, messages, t0.Keys)[..created])
      && (maxTotal > 0 ==> created <= maxTotal)
    }

    /** One pass of the inner loop, for pair i with j of its messages done. */
    method NextBatch(listing: seq<nat>, i: nat, limit: nat, maxTotal: nat, created: nat, ghost j: nat, ghost t0: map<nat, Turn>)
        returns (batch: nat)
      requires i < |listing| && Standing(listing, t0, created, maxTotal)
      requires maxTotal > 0 ==> created + limit <= maxTotal
      requires limit > 0 ==> Inside(listing, i, j, created, messages, t0.Keys)
      modifies this
      ensures Standing(listing, t0, created + batch, maxTotal)
      ensures limit == 0 ==> batch == 0
      ensures limit > 0 ==> Inside(listing, i, j + batch, created + batch, messages, t0.Keys)
      ensures limit > 0 && batch == 0 ==> j == |Pending(messages, t0.Keys, listing[i])|
    {
      if limit == 0 { return 0; }  // LIMIT 0 selects nothing
      NextStep(listing, i, j, created, messages, t0, turns, limit);
      if BatchSize(messages, turns.Keys, listing[i], limit) == 0 {
        Exhausted(listing, i, j, created, messages, t0, turns, limit);
      }
      batch := Batch(listing[i], limit);
    }

    /** The inner loop: batches for one pair until one creates nothing or the ceiling is met. */
    method RunPair(listing: seq<nat>, i: nat, batchSize: nat, maxTotal: nat, created0: nat, ghost t0: map<nat, Turn>)
        returns (created: nat)
      requires i < |listing| && Standing(listing, t0, created0, maxTotal)
      requires batchSize > 0 ==> created0 == |Queue(listing[..i], messages, t0.Keys)|
      modifies this
      ensures Standing(listing, t0, created, maxTotal)
      ensures batchSize == 0 ==> created == created0
      ensures batchSize > 0 && (maxTotal == 0 || created < maxTotal)
              ==> created == |Queue(listing[..i + 1], messages, t0.Keys)|
    {
      created := created0;
      ghost var j := 0;
      EnterAndLeave(listing, i, created, messages, t0.Keys);
      while maxTotal == 0 || created < maxTotal
        invariant Standing(listing, t0, created, maxTotal)
        invariant batchSize == 0 ==> created == created0
        invariant batchSize > 0 ==> Inside(listing, i, j, created, messages, t0.Keys)
        decreases |Queue(listing, messages, t0.Keys)| - created
      {
        var limit := if maxTotal > 0 then Least(batchSize, maxTotal - created) else batchSize;
        var batch := NextBatch(listing, i, limit, maxTotal, created, j, t0);
        if batch == 0 { break; }
        created, j := created + batch, j + batch;
      }
      EnterAndLeave(listing, i, created, messages, t0.Keys);
    }

    /** `runBackfill`. The batch size appears in no clause but the one that switches the run off. */
    method Run(batchSize: nat, maxTotal: nat, dryRun: bool) returns (created: nat)
      requires Valid()
      modifies this
      ensures Valid()
      ensures dryRun || batchSize == 0 ==> created == 0 && turns == old(turns)
      ensures !dryRun && batchSize > 0 ==> created == Quota(maxTotal, |old(Waiting())|)
      ensures !dryRun && batchSize > 0 ==> turns == After(pairs, messages, old(turns), maxTotal)
    {
      var listing := WithPending(pairs, messages, turns.Keys);
      created := 0;
      ghost var t0 := turns;
      ListingLosesNothing(pairs, messages, turns.Keys);
      if listing == [] || dryRun { return; }
      var i := 0;
      while i < |listing|
        invariant 0 <= i <= |listing|
        invariant Standing(listing, t0, created, maxTotal)
        invariant batchSize == 0 ==> created == 0
        invariant batchSize > 0 ==> created == |Queue(listing[..i], messages, t0.Keys)|
      {
        created := RunPair(listing, i, batchSize, maxTotal, created, t0);
        if maxTotal > 0 && created >= maxTotal { break; }
        i := i + 1;
      }
      assert listing[..|listing|] == listing;
    }
  }
}
