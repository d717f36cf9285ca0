/** The IPC client of the worker: the shared state and its atomic blocks. A block under the lock is
    one operation; `event.clear()`, `outcome = None` and the two halves of a delivery are not. */
module IpcBridge {
  import opened Options

  type Payload = nat

  /** The outcome of a `tool.result` frame. `InProgress(None)`: the delay is not a usable integer. */
  datatype Outcome =
    | Result(payload: Payload)
    | Refused(code: string)
    | InProgress(retryAfterMs: Option<int>)
    | Other

  /** One `_Slot`: its event flag and the outcome left in it. */
  datatype Cell = Cell(event: bool, outcome: Option<Outcome>)

  datatype Limits = Limits(maxToolCalls: int, maxCallSeq: nat, deadline: Option<int>)

  /** `taken` is `_allocated`; `slots` lists the registered call_seqs in insertion order; `cells` keeps every slot object,
      which outlives its registration. */
  datatype Bridge = Bridge(closed: bool, nextCallSeq: nat, taken: seq<nat>, slots: seq<nat>, cells: map<nat, Cell>)

  const EMPTY: Bridge := Bridge(false, 0, [], [], map[])

  datatype Admission = Unavailable | Exhausted | Admitted(callSeq: nat)

  function Decide(lim: Limits, b: Bridge): Admission {
    if b.closed then Unavailable
    else if |b.taken| >= lim.maxToolCalls then Exhausted
    else if b.nextCallSeq > lim.maxCallSeq then Exhausted
    else Admitted(b.nextCallSeq)
  }

  function Admit(lim: Limits, b: Bridge): Bridge {
    match Decide(lim, b)
    case Admitted(q) =>
      b.(nextCallSeq := b.nextCallSeq + 1, taken := b.taken + [q], slots := b.slots + [q],
         cells := b.cells[q := Cell(false, None)])
    case _ => b
  }

  function Without(slots: seq<nat>, q: nat): seq<nat> {
    if slots == [] then []
    else if slots[0] == q then Without(slots[1..], q) else [slots[0]] + Without(slots[1..], q)
  }

  predicate NoDup(slots: seq<nat>) { forall i, j :: 0 <= i < j < |slots| ==> slots[i] != slots[j] }

  lemma {:induction false} WithoutMembers(slots: seq<nat>, q: nat)
    ensures forall x :: x in Without(slots, q) <==> x in slots && x != q
    ensures NoDup(slots) ==> NoDup(Without(slots, q))
  {
    if slots != [] {
      WithoutMembers(slots[1..], q);
      var rest := Without(slots[1..], q);
      assert slots == [slots[0]] + slots[1..];
      if NoDup(slots) {
        assert NoDup(slots[1..]);
        assert slots[0] !in slots[1..];
        var r := Without(slots, q);
        forall i, j | 0 <= i < j < |r| ensures r[i] != r[j] {
          if slots[0] != q {
            assert r == [slots[0]] + rest;
            if i == 0 { assert r[j] in rest; } else { assert r[i] == rest[i - 1] && r[j] == rest[j - 1]; }
          }
        }
      }
    }
  }

  lemma RegisterOne(slots: seq<nat>, q: nat)
    requires NoDup(slots) && q !in slots
    ensures NoDup(slots + [q]) && forall x :: x in slots + [q] <==> x in slots || x == q
  {
  }

  /** What stands before and after q stays, in order. */
  lemma {:induction false} WithoutKeeps(a: seq<nat>, q: nat, b: seq<nat>)
    requires q !in a && q !in b
    ensures Without(a + [q] + b, q) == a + b
  {
    if a == [] {
      assert ([] + [q] + b)[1..] == b;
      WithoutAbsent(b, q);
    } else {
      assert (a + [q] + b)[1..] == a[1..] + [q] + b;
      WithoutKeeps(a[1..], q, b);
      assert [a[0]] + (a[1..] + b) == a + b;
    }
  }

  lemma {:induction false} WithoutAbsent(slots: seq<nat>, q: nat)
    requires q !in slots
    ensures Without(slots, q) == slots
  {
    if slots != [] { WithoutAbsent(slots[1..], q); }
  }

  function Unregister(b: Bridge, q: nat): Bridge { b.(slots := Without(b.slots, q)) }

  /** What the locked block of `resolve` looks up. */
  predicate Finds(b: Bridge, q: nat) { q in b.slots }

  function Close(b: Bridge): Bridge { b.(closed := true) }

  function StoreOutcome(b: Bridge, q: nat, o: Option<Outcome>): Bridge
    requires q in b.cells
  {
    b.(cells := b.cells[q := b.cells[q].(outcome := o)])
  }

  function SetEvent(b: Bridge, q: nat, on: bool): Bridge
    requires q in b.cells
  {
    b.(cells := b.cells[q := b.cells[q].(event := on)])
  }

  /** The object that the threads share; each method is one atomic block of the source. */
  class Client {
    const limits: Limits
    var closed: bool
    var nextCallSeq: nat
    var taken: seq<nat>
    var slots: seq<nat>
    var cells: map<nat, Cell>

    function View(): Bridge
      reads this
    {
      Bridge(closed, nextCallSeq, taken, slots, cells)
    }

    /** Every registered call has its slot object, once. */
    ghost predicate Valid()
      reads this
    {
      && NoDup(slots)
      && (forall q: nat :: q in slots ==> q in cells && q < nextCallSeq)
    }

    constructor (limits: Limits)
      ensures Valid() && this.limits == limits && View() == EMPTY
    {
      this.limits := limits;
      closed := false;
      nextCallSeq := 0;
      taken := [];
      slots := [];
      cells := map[];
    }

    /** The locked block of `invoke`. */
    method Register() returns (a: Admission)
      requires Valid()
      modifies this
      ensures Valid()
      ensures a == Decide(limits, old(View())) && View() == Admit(limits, old(View()))
      ensures a == Unavailable <==> old(closed)
      ensures a == Exhausted <==>
                !old(closed) && (|old(taken)| >= limits.maxToolCalls || old(nextCallSeq) > limits.maxCallSeq)
      ensures !a.Admitted? ==> View() == old(View())
      ensures a.Admitted? ==>
                && a.callSeq == old(nextCallSeq) && a.callSeq !in old(slots)
                && !closed && nextCallSeq == old(nextCallSeq) + 1 && taken == old(taken) + [a.callSeq]
                && slots == old(slots) + [a.callSeq] && cells == old(cells)[a.callSeq := Cell(false, None)]
    {
      if closed { return Unavailable; }
      if |taken| >= limits.maxToolCalls { return Exhausted; }
      if nextCallSeq > limits.maxCallSeq { return Exhausted; }
      var callSeq := nextCallSeq;
      RegisterOne(slots, callSeq);
      nextCallSeq := nextCallSeq + 1;
      taken := taken + [callSeq];
      cells := cells[callSeq := Cell(false, None)];
      slots := slots + [callSeq];
      return Admitted(callSeq);
    }

    /** The `finally` of `invoke`: only q goes, and the others keep their order. */
    method Pop(q: nat)
      requires Valid()
      modifies this
      ensures Valid() && View() == Unregister(old(View()), q)
      ensures forall p: nat :: p in slots <==> p in old(slots) && p != q
      ensures forall a, b :: old(slots) == a + [q] + b && q !in a && q !in b ==> slots == a + b
    {
      WithoutMembers(slots, q);
      forall a, b | slots == a + [q] + b && q !in a && q !in b ensures Without(slots, q) == a + b {
        WithoutKeeps(a, q, b);
      }
      slots := Without(slots, q);
    }

    /** The locked block of `resolve`: is the call still registered? */
    method Lookup(q: nat) returns (found: bool)
      ensures found <==> Finds(View(), q)
    {
      found := q in slots;
    }

    method Store(q: nat, o: Option<Outcome>)
      requires q in cells
      modifies this
      ensures View() == StoreOutcome(old(View()), q, o)
    {
      cells := cells[q := cells[q].(outcome := o)];
    }

    method Signal(q: nat, on: bool)
      requires q in cells
      modifies this
      ensures View() == SetEvent(old(View()), q, on)
    {
      cells := cells[q := cells[q].(event := on)];
    }

    /** The locked block of `close`: the slots that it will visit. */
    method MarkClosed() returns (pending: seq<nat>)
      modifies this
      ensures View() == Close(old(View())) && pending == old(slots)
    {
      closed := true;
      pending := slots;
    }

    /** `resolve`, with no call stepping in between: a registered call's slot holds the outcome, signalled. */
    method Resolve(q: nat, o: Outcome) returns (found: bool)
      requires Valid()
      modifies this
      ensures Valid()
      ensures found <==> q in old(slots)
      ensures !found ==> View() == old(View())
      ensures found ==> q in cells && cells == old(cells)[q := Cell(true, Some(o))]
      ensures closed == old(closed) && nextCallSeq == old(nextCallSeq) && taken == old(taken) && slots == old(slots)
    {
      found := Lookup(q);
      if !found { return; }
      Store(q, Some(o));
      Signal(q, true);
    }

    /**
     * `close`, with no call stepping in between: every registered slot ends signalled, those that were
     * not yet with the refusal, and no slot with an unread outcome loses it.
     */
    method CloseAll(code: string)
      requires Valid()
      modifies this
      ensures Valid() && closed && Decide(limits, View()) == Unavailable
      ensures nextCallSeq == old(nextCallSeq) && taken == old(taken) && slots == old(slots)
      ensures cells.Keys == old(cells).Keys
      ensures forall q: nat :: q in cells ==>
                cells[q] == if q in slots && !old(cells)[q].event then Cell(true, Some(Refused(code))) else old(cells)[q]
    {
      var pending := MarkClosed();
      for i := 0 to |pending|
        invariant Valid() && closed && slots == old(slots) == pending
        invariant nextCallSeq == old(nextCallSeq) && taken == old(taken)
        invariant cells.Keys == old(cells).Keys
        invariant forall q: nat :: q in cells ==>
                    cells[q] == if q in pending[..i] && !old(cells)[q].event then Cell(true, Some(Refused(code))) else old(cells)[q]
      {
        assert pending[i] !in pending[..i];
        assert pending[..i + 1] == pending[..i] + [pending[i]];
        if !cells[pending[i]].event {
          Store(pending[i], Some(Refused(code)));
          Signal(pending[i], true);
        }
      }
      assert pending[..|pending|] == pending;
    }
  }
}
