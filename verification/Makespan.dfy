/** List scheduling on a FIFO gate: loads, the semaphore it models, monotonicity and Graham's bounds. */
module Makespan {

  // ---- the schedule ----

  /** The first index of the least of f[0..j]. */
  function MinIndex(f: seq<real>, j: nat): (i: nat)
    requires 0 < j <= |f|
    ensures i < j && forall k :: 0 <= k < j ==> f[i] <= f[k]
  {
    if j == 1 then 0 else var i := MinIndex(f, j - 1); if f[j - 1] < f[i] then j - 1 else i
  }

  function Place(f: seq<real>, d: real): (g: seq<real>)
    requires f != []
    ensures |g| == |f|
  {
    var i := MinIndex(f, |f|);
    f[i := f[i] + d]
  }

  function Schedule(f: seq<real>, ds: seq<real>): (g: seq<real>)
    requires f != []
    ensures |g| == |f|
    decreases |ds|
  {
    if ds == [] then f else Schedule(Place(f, ds[0]), ds[1..])
  }

  function MaxOf(f: seq<real>): (m: real)
    requires f != []
    ensures m in f && forall k :: 0 <= k < |f| ==> f[k] <= m
  {
    if |f| == 1 then f[0] else
    var m := MaxOf(f[1..]);
    assert f == [f[0]] + f[1..];
    assert forall k :: 0 < k < |f| ==> f[k] == f[1..][k - 1];
    if m < f[0] then f[0] else m
  }

  function Width(permits: int): nat { if permits > 1 then permits else 1 }

  function Idle(m: nat): (f: seq<real>)
    ensures |f| == m
  {
    seq(m, _ => 0.0)
  }

  /** `gateMakespan`. */
  function Gate(ds: seq<real>, permits: int): real {
    if ds == [] then 0.0 else MaxOf(Schedule(Idle(Width(permits)), ds))
  }

  lemma {:induction false} ScheduleSnoc(f: seq<real>, ds: seq<real>, d: real)
    requires f != []
    ensures Schedule(f, ds + [d]) == Place(Schedule(f, ds), d)
    decreases |ds|
  {
    if ds == [] {
      assert (ds + [d])[1..] == [];
    } else {
      assert (ds + [d])[1..] == ds[1..] + [d];
      ScheduleSnoc(Place(f, ds[0]), ds[1..], d);
    }
  }

  /** The inner loop: the first permit that comes free. */
  method LeastLoaded(finish: array<real>) returns (i: nat)
    requires finish.Length > 0
    ensures i == MinIndex(finish[..], finish.Length)
  {
    i := 0;
    for j := 1 to finish.Length
      invariant i == MinIndex(finish[..], j)
    {
      if finish[j] < finish[i] { i := j; }
    }
  }

  /** `Math.max(...finish)`. */
  method Greatest(finish: array<real>) returns (m: real)
    requires finish.Length > 0
    ensures m == MaxOf(finish[..])
  {
    m := finish[0];
    var at := 0;
    for j := 1 to finish.Length
      invariant 0 <= at < finish.Length && m == finish[at]
      invariant forall k :: 0 <= k < j ==> finish[k] <= m
    {
      if m < finish[j] { m, at := finish[j], j; }
    }
    assert finish[..][at] == m;
    MaxUnique(finish[..], m);
  }

  method GateMakespan(durations: seq<real>, permits: int) returns (makespan: real)
    ensures makespan == Gate(durations, permits)
  {
    if |durations| == 0 { return 0.0; }
    ghost var idle := Idle(Width(permits));
    var finish := new real[if permits > 1 then permits else 1](_ => 0.0);
    assert finish[..] == idle;
    for t := 0 to |durations|
      invariant finish[..] == Schedule(idle, durations[..t])
    {
      var i := LeastLoaded(finish);
      ghost var before := finish[..];
      assert durations[..t + 1] == durations[..t] + [durations[t]];
      ScheduleSnoc(idle, durations[..t], durations[t]);
      finish[i] := finish[i] + durations[t];
      assert finish[..] == Place(before, durations[t]);
    }
    assert durations[..|durations|] == durations;
    makespan := Greatest(finish);
  }

  lemma MaxUnique(f: seq<real>, m: real)
    requires f != [] && m in f && forall k :: 0 <= k < |f| ==> f[k] <= m
    ensures m == MaxOf(f)
  {
  }

  // ---- sorted loads ----

  predicate Sorted(s: seq<real>) { forall i, j :: 0 <= i < j < |s| ==> s[i] <= s[j] }

  function Insert(s: seq<real>, x: real): (r: seq<real>)
    ensures |r| == |s| + 1
  {
    if s == [] || x <= s[0] then [x] + s else [s[0]] + Insert(s[1..], x)
  }

  lemma {:induction false} InsertMultiset(s: seq<real>, x: real)
    ensures multiset(Insert(s, x)) == multiset(s) + multiset{x}
  {
    if s != [] && x > s[0] {
      InsertMultiset(s[1..], x);
      assert s == [s[0]] + s[1..];
    }
  }

  /** Sorted loads: the least one takes the task. */
  function Take(s: seq<real>, d: real): (r: seq<real>)
    requires s != []
    ensures |r| == |s|
  {
    Insert(s[1..], s[0] + d)
  }

  function TakeAll(s: seq<real>, ds: seq<real>): (r: seq<real>)
    requires s != []
    ensures |r| == |s|
    decreases |ds|
  {
    if ds == [] then s else TakeAll(Take(s, ds[0]), ds[1..])
  }

  lemma {:induction false} InsertSorted(s: seq<real>, x: real)
    requires Sorted(s)
    ensures Sorted(Insert(s, x))
    ensures Insert(s, x)[0] == if s == [] || x <= s[0] then x else s[0]
  {
    if s != [] && x > s[0] {
      InsertSorted(s[1..], x);
      var t := Insert(s[1..], x);
      assert s[1..] != [] ==> s[0] <= s[1..][0];
      assert forall k :: 0 <= k < |t| ==> t[0] <= t[k];
    }
  }

  predicate Below(a: seq<real>, b: seq<real>) {
    |a| == |b| && forall i :: 0 <= i < |a| ==> a[i] <= b[i]
  }

  lemma InsertHead(s: seq<real>)
    requires s != [] && Sorted(s)
    ensures Insert(s[1..], s[0]) == s
  {
    assert s == [s[0]] + s[1..];
  }

  /** Sorted load vectors keep their order when the lower one takes the shorter task. */
  lemma BelowCons(p: real, a: seq<real>, q: real, b: seq<real>)
    ensures Below([p] + a, [q] + b) <==> p <= q && Below(a, b)
  {
    if Below([p] + a, [q] + b) {
      assert ([p] + a)[0] <= ([q] + b)[0];
      forall i | 0 <= i < |a| ensures a[i] <= b[i] {
        assert ([p] + a)[i + 1] == a[i] && ([q] + b)[i + 1] == b[i];
      }
    }
  }

  lemma {:induction false} InsertBelow(a: seq<real>, b: seq<real>, x: real, y: real)
    requires Sorted(a) && Sorted(b) && Below(a, b) && x <= y
    ensures Below(Insert(a, x), Insert(b, y))
  {
    if a == [] {
      BelowCons(x, [], y, []);
    } else {
      var p, q, r, t := a[0], b[0], a[1..], b[1..];
      BelowCons(p, r, q, t);
      assert a == [p] + r && b == [q] + t;
      if x <= p && y <= q {
        BelowCons(x, a, y, b);
      } else if x <= p {
        InsertHead(a);
        InsertBelow(r, t, p, y);
        BelowCons(x, Insert(r, p), q, Insert(t, y));
      } else if y <= q {
        InsertHead(b);
        InsertBelow(r, t, x, q);
        BelowCons(p, Insert(r, x), y, Insert(t, q));
      } else {
        InsertBelow(r, t, x, y);
        BelowCons(p, Insert(r, x), q, Insert(t, y));
      }
    }
  }

  lemma TakeBelow(a: seq<real>, b: seq<real>, x: real, y: real)
    requires a != [] && Sorted(a) && Sorted(b) && Below(a, b) && x <= y
    ensures Sorted(Take(a, x)) && Sorted(Take(b, y)) && Below(Take(a, x), Take(b, y))
  {
    InsertBelow(a[1..], b[1..], a[0] + x, b[0] + y);
    InsertSorted(a[1..], a[0] + x);
    InsertSorted(b[1..], b[0] + y);
  }

  /** One more task never lowers a load. */
  lemma TakeRaises(s: seq<real>, x: real)
    requires s != [] && Sorted(s) && x >= 0.0
    ensures Below(s, Take(s, x))
  {
    InsertHead(s);
    InsertBelow(s[1..], s[1..], s[0], s[0] + x);
  }

  // ---- the array of the source and the sorted loads agree ----

  lemma LeastIsFirst(f: seq<real>, s: seq<real>)
    requires f != [] && multiset(f) == multiset(s) && Sorted(s)
    ensures |s| == |f| && s[0] == f[MinIndex(f, |f|)]
  {
    assert |multiset(f)| == |multiset(s)|;
    var i := MinIndex(f, |f|);
    assert f[i] in multiset(s) && s[0] in multiset(f);
    var k :| 0 <= k < |f| && f[k] == s[0];
    var j :| 0 <= j < |s| && s[j] == f[i];
  }

  lemma UpdateMultiset<T>(f: seq<T>, i: nat, x: T)
    requires i < |f|
    ensures multiset(f[i := x]) == multiset(f) - multiset{f[i]} + multiset{x}
  {
  }

  lemma TailMultiset<T>(s: seq<T>)
    requires s != []
    ensures multiset(s[1..]) == multiset(s) - multiset{s[0]}
  {
    assert s == [s[0]] + s[1..];
  }

  /** Replacing one member on both sides. */
  lemma SwapMember<T>(f: seq<T>, i: nat, s: seq<T>, t: seq<T>, x: T)
    requires i < |f| && s != [] && multiset(f) == multiset(s) && f[i] == s[0]
    requires multiset(t) == multiset(s[1..]) + multiset{x}
    ensures multiset(f[i := x]) == multiset(t)
  {
    UpdateMultiset(f, i, x);
    TailMultiset(s);
  }

  lemma TakeSorted(s: seq<real>, d: real)
    requires s != [] && Sorted(s)
    ensures Sorted(Take(s, d))
  {
    assert Sorted(s[1..]);
    InsertSorted(s[1..], s[0] + d);
  }

  lemma PlaceTake(f: seq<real>, s: seq<real>, d: real)
    requires f != [] && multiset(f) == multiset(s) && Sorted(s)
    ensures |s| == |f| && multiset(Place(f, d)) == multiset(Take(s, d)) && Sorted(Take(s, d))
  {
    LeastIsFirst(f, s);
    var i, x := MinIndex(f, |f|), s[0] + d;
    assert Place(f, d) == f[i := x] && Take(s, d) == Insert(s[1..], x);
    InsertMultiset(s[1..], x);
    SwapMember(f, i, s, Insert(s[1..], x), x);
    TakeSorted(s, d);
  }

  lemma {:induction false} ScheduleTakeAll(f: seq<real>, s: seq<real>, ds: seq<real>)
    requires f != [] && multiset(f) == multiset(s) && Sorted(s)
    ensures |s| == |f| && multiset(Schedule(f, ds)) == multiset(TakeAll(s, ds)) && Sorted(TakeAll(s, ds))
    decreases |ds|
  {
    LeastIsFirst(f, s);
    if ds != [] {
      PlaceTake(f, s, ds[0]);
      ScheduleTakeAll(Place(f, ds[0]), Take(s, ds[0]), ds[1..]);
    }
  }

  lemma MaxIsLast(f: seq<real>, s: seq<real>)
    requires f != [] && multiset(f) == multiset(s) && Sorted(s)
    ensures |s| == |f| && MaxOf(f) == s[|s| - 1]
  {
    LeastIsFirst(f, s);
    var m := s[|s| - 1];
    assert m in multiset(f);
    forall k | 0 <= k < |f| ensures f[k] <= m {
      assert f[k] in multiset(s);
      var j :| 0 <= j < |s| && s[j] == f[k];
    }
    MaxUnique(f, m);
  }

  /** The makespan is the greatest sorted load. */
  lemma GateIsTakeAll(ds: seq<real>, permits: int)
    ensures var s := TakeAll(Idle(Width(permits)), ds);
            Sorted(s) && Gate(ds, permits) == s[|s| - 1]
  {
    var f := Idle(Width(permits));
    ScheduleTakeAll(f, f, ds);
    MaxIsLast(Schedule(f, ds), TakeAll(f, ds));
  }

  // ---- monotonicity ----

  /** es is ds with tasks lengthened and non-negative tasks inserted anywhere. */
  ghost predicate Grown(ds: seq<real>, es: seq<real>)
    decreases |es|
  {
    if es == [] then ds == []
    else (ds != [] && ds[0] <= es[0] && Grown(ds[1..], es[1..])) || (es[0] >= 0.0 && Grown(ds, es[1..]))
  }

  lemma {:induction false} TakeAllGrown(s: seq<real>, t: seq<real>, ds: seq<real>, es: seq<real>)
    requires s != [] && Sorted(s) && Sorted(t) && Below(s, t) && Grown(ds, es)
    ensures Below(TakeAll(s, ds), TakeAll(t, es))
    decreases |es|
  {
    if es != [] {
      if ds != [] && ds[0] <= es[0] && Grown(ds[1..], es[1..]) {
        TakeBelow(s, t, ds[0], es[0]);
        TakeAllGrown(Take(s, ds[0]), Take(t, es[0]), ds[1..], es[1..]);
      } else {
        TakeRaises(t, es[0]);
        InsertSorted(t[1..], t[0] + es[0]);
        TakeAllGrown(s, Take(t, es[0]), ds, es[1..]);
      }
    }
  }

  /** Lengthening tasks and inserting tasks never lowers the makespan. */
  lemma GateMonotone(ds: seq<real>, es: seq<real>, permits: int)
    requires Grown(ds, es)
    ensures Gate(ds, permits) <= Gate(es, permits)
  {
    var s := Idle(Width(permits));
    GateIsTakeAll(ds, permits);
    GateIsTakeAll(es, permits);
    TakeAllGrown(s, s, ds, es);
  }

  lemma {:induction false} GrownRefl(ds: seq<real>)
    ensures Grown(ds, ds)
  {
    if ds != [] { GrownRefl(ds[1..]); }
  }

  lemma {:induction false} GrownByLengthening(ds: seq<real>, i: nat, d: real)
    requires i < |ds| && ds[i] <= d
    ensures Grown(ds, ds[i := d])
  {
    if i == 0 {
      GrownRefl(ds[1..]);
    } else {
      GrownByLengthening(ds[1..], i - 1, d);
      assert ds[i := d][1..] == ds[1..][i - 1 := d];
    }
  }

  lemma {:induction false} GrownByInserting(ds: seq<real>, i: nat, d: real)
    requires i <= |ds| && d >= 0.0
    ensures Grown(ds, ds[..i] + [d] + ds[i..])
  {
    var es := ds[..i] + [d] + ds[i..];
    if i == 0 {
      assert es[1..] == ds;
      GrownRefl(ds);
    } else {
      GrownByInserting(ds[1..], i - 1, d);
      assert es[1..] == ds[1..][..i - 1] + [d] + ds[1..][i - 1..];
    }
  }

  lemma LengtheningNeverLowers(ds: seq<real>, i: nat, d: real, permits: int)
    requires i < |ds| && ds[i] <= d
    ensures Gate(ds, permits) <= Gate(ds[i := d], permits)
  {
    GrownByLengthening(ds, i, d);
    GateMonotone(ds, ds[i := d], permits);
  }

  lemma InsertingNeverLowers(ds: seq<real>, i: nat, d: real, permits: int)
    requires i <= |ds| && d >= 0.0
    ensures Gate(ds, permits) <= Gate(ds[..i] + [d] + ds[i..], permits)
  {
    GrownByInserting(ds, i, d);
    GateMonotone(ds, ds[..i] + [d] + ds[i..], permits);
  }

  // ---- the semaphore ----

  /** A FIFO semaphore: the clock, the free permits, the finish times of the running tasks in order,
      and the durations still waiting. */
  datatype Semaphore = Semaphore(clock: real, free: nat, running: seq<real>, waiting: seq<real>)

  /** When the last permit comes back: the head of the queue starts whenever a permit is free,
      otherwise time passes to the next release. */
  function RunOut(s: Semaphore): real
    requires s.waiting != [] ==> s.free > 0 || s.running != []
    decreases |s.waiting|, |s.running|
  {
    if s.waiting != [] && s.free > 0 then
      RunOut(Semaphore(s.clock, s.free - 1, Insert(s.running, s.clock + s.waiting[0]), s.waiting[1..]))
    else if s.running != [] then
      RunOut(Semaphore(s.running[0], s.free + 1, s.running[1..], s.waiting))
    else s.clock
  }

  function Copies(n: nat, x: real): (s: seq<real>)
    ensures |s| == n
  {
    seq(n, _ => x)
  }

  predicate NonNegative(ds: seq<real>) { forall i :: 0 <= i < |ds| ==> ds[i] >= 0.0 }

  predicate FromClock(clock: real, running: seq<real>) {
    Sorted(running) && forall i :: 0 <= i < |running| ==> clock <= running[i]
  }

  lemma CopiesCons(n: nat, c: real, r: seq<real>)
    ensures Copies(n + 1, c) + r == [c] + (Copies(n, c) + r) == Copies(n, c) + ([c] + r)
  {
  }

  lemma InsertCons(c: real, r: seq<real>, x: real)
    ensures c < x ==> Insert([c] + r, x) == [c] + Insert(r, x)
    ensures x <= c ==> Insert([c] + r, x) == [x] + ([c] + r)
  {
    assert ([c] + r)[1..] == r;
  }

  lemma {:induction false} InsertPastCopies(n: nat, c: real, r: seq<real>, x: real)
    requires c <= x && FromClock(c, r)
    ensures Insert(Copies(n, c) + r, x) == Copies(n, c) + Insert(r, x)
  {
    if n == 0 {
      assert Copies(0, c) + r == r;
      assert Copies(0, c) + Insert(r, x) == Insert(r, x);
    } else {
      CopiesCons(n - 1, c, r);
      InsertCons(c, Copies(n - 1, c) + r, x);
      if x == c {
        AtClock(c, r);
        CopiesCons(n, c, r);
      } else {
        InsertPastCopies(n - 1, c, r, x);
        CopiesCons(n - 1, c, Insert(r, x));
      }
    }
  }

  lemma AtClock(c: real, r: seq<real>)
    requires FromClock(c, r)
    ensures Insert(r, c) == [c] + r
  {
  }

  lemma {:induction false} DrainsToLast(clock: real, free: nat, running: seq<real>)
    requires FromClock(clock, running)
    ensures RunOut(Semaphore(clock, free, running, [])) == if running == [] then clock else running[|running| - 1]
    decreases |running|
  {
    if running != [] {
      DrainsToLast(running[0], free + 1, running[1..]);
    }
  }

  /** The head of the queue starts on a free permit. */
  lemma StartTask(n: nat, clock: real, running: seq<real>, d: real)
    requires d >= 0.0 && FromClock(clock, running)
    ensures FromClock(clock, Insert(running, clock + d))
    ensures Take(Copies(n + 1, clock) + running, d) == Copies(n, clock) + Insert(running, clock + d)
  {
    var loads := Copies(n + 1, clock) + running;
    InsertFromClock(clock, running, clock + d);
    assert loads[0] == clock && loads[1..] == Copies(n, clock) + running;
    InsertPastCopies(n, clock, running, clock + d);
  }

  function Loads(s: Semaphore): seq<real> { Copies(s.free, s.clock) + s.running }

  ghost predicate Running(s: Semaphore) {
    s.free + |s.running| > 0 && FromClock(s.clock, s.running) && NonNegative(s.waiting)
  }

  function Started(s: Semaphore): Semaphore
    requires s.waiting != [] && s.free > 0
  {
    Semaphore(s.clock, s.free - 1, Insert(s.running, s.clock + s.waiting[0]), s.waiting[1..])
  }

  function Released(s: Semaphore): Semaphore
    requires s.running != [] && s.free == 0
  {
    Semaphore(s.running[0], 1, s.running[1..], s.waiting)
  }

  lemma AfterStart(s: Semaphore)
    requires Running(s) && s.waiting != [] && s.free > 0
    ensures Running(Started(s)) && TakeAll(Loads(Started(s)), Started(s).waiting) == TakeAll(Loads(s), s.waiting)
  {
    StartTask(s.free - 1, s.clock, s.running, s.waiting[0]);
  }

  lemma AfterRelease(s: Semaphore)
    requires Running(s) && s.running != [] && s.free == 0
    ensures Running(Released(s)) && Loads(Released(s)) == Loads(s)
  {
  }

  lemma {:induction false} RunOutIsTakeAll(s: Semaphore)
    requires Running(s)
    ensures var loads := TakeAll(Loads(s), s.waiting); RunOut(s) == loads[|loads| - 1]
    decreases |s.waiting|, |s.running|
  {
    if s.waiting == [] {
      DrainsToLast(s.clock, s.free, s.running);
    } else if s.free > 0 {
      AfterStart(s);
      RunOutIsTakeAll(Started(s));
    } else {
      AfterRelease(s);
      RunOutIsTakeAll(Released(s));
    }
  }

  lemma InsertFromClock(clock: real, running: seq<real>, x: real)
    requires FromClock(clock, running) && clock <= x
    ensures FromClock(clock, Insert(running, x))
  {
    InsertSorted(running, x);
  }

  /** `gateMakespan` is the finish time of the FIFO semaphore run. */
  lemma GateIsSemaphore(ds: seq<real>, permits: int)
    requires NonNegative(ds)
    ensures Gate(ds, permits) == RunOut(Semaphore(0.0, Width(permits), [], ds))
  {
    var m := Width(permits);
    GateIsTakeAll(ds, permits);
    RunOutIsTakeAll(Semaphore(0.0, m, [], ds));
    assert Copies(m, 0.0) + [] == Idle(m);
  }

  // ---- Graham's bounds ----

  function Sum(s: seq<real>): real { if s == [] then 0.0 else s[0] + Sum(s[1..]) }

  lemma {:induction false} SumUpdate(s: seq<real>, i: nat, x: real)
    requires i < |s|
    ensures Sum(s[i := x]) == Sum(s) - s[i] + x
  {
    if i == 0 {
      assert s[0 := x][1..] == s[1..];
    } else {
      SumUpdate(s[1..], i - 1, x);
      assert s[i := x][1..] == s[1..][i - 1 := x];
    }
  }

  /** n * x, by addition. */
  function Times(n: nat, x: real): real { if n == 0 then 0.0 else x + Times(n - 1, x) }

  lemma TimesIsProduct(n: nat, x: real)
    ensures Times(n, x) == n as real * x
  {
    if n > 0 {
      TimesIsProduct(n - 1, x);
      assert n as real * x == (n - 1) as real * x + x;
    }
  }

  lemma TimesMono(n: nat, x: real, y: real)
    requires x <= y
    ensures Times(n, x) <= Times(n, y)
  {
  }

  lemma {:induction false} TimesAdd(n: nat, x: real, y: real)
    ensures Times(n, x + y) == Times(n, x) + Times(n, y)
  {
    if n > 0 { TimesAdd(n - 1, x, y); }
  }

  lemma {:induction false} SumBounds(s: seq<real>, lo: real, hi: real)
    requires forall i :: 0 <= i < |s| ==> lo <= s[i] <= hi
    ensures Times(|s|, lo) <= Sum(s) <= Times(|s|, hi)
  {
    if s != [] { SumBounds(s[1..], lo, hi); }
  }

  /** Every load ended with a task that started on a least load: m * load <= work + (m - 1) * longest. */
  ghost predicate Balanced(f: seq<real>, work: real, longest: real) {
    && f != [] && Sum(f) == work && longest >= 0.0
    && forall i :: 0 <= i < |f| ==> f[i] >= 0.0 && Times(|f|, f[i]) <= work + Times(|f| - 1, longest)
  }

  lemma PlaceBalanced(f: seq<real>, d: real, work: real, longest: real)
    requires Balanced(f, work, longest) && 0.0 <= d <= longest
    ensures Balanced(Place(f, d), work + d, longest)
  {
    var i := MinIndex(f, |f|);
    var g := Place(f, d);
    SumUpdate(f, i, f[i] + d);
    forall k | 0 <= k < |g| ensures g[k] >= 0.0 && Times(|g|, g[k]) <= work + d + Times(|g| - 1, longest) {
      if k == i {
        SumBounds(f, f[i], MaxOf(f));
        TimesAdd(|f|, f[i], d);
        TimesMono(|f| - 1, d, longest);
      }
    }
  }

  predicate Within(ds: seq<real>, top: real) { forall i :: 0 <= i < |ds| ==> ds[i] <= top }

  lemma PlacedBelow(g: seq<real>, h: seq<real>, d: real)
    requires Below(g, h) && h != [] && exists i :: 0 <= i < |g| && g[i] >= d
    ensures d <= MaxOf(h)
  {
    var k :| 0 <= k < |g| && g[k] >= d;
    assert h[k] >= g[k];
  }

  lemma WithinCons(ds: seq<real>, top: real)
    requires ds != []
    ensures Within(ds, top) <==> ds[0] <= top && Within(ds[1..], top)
  {
    assert forall i :: 0 < i < |ds| ==> ds[i] == ds[1..][i - 1];
  }

  lemma BelowTransitive(a: seq<real>, b: seq<real>, c: seq<real>)
    requires Below(a, b) && Below(b, c)
    ensures Below(a, c)
  {
  }

  lemma {:induction false} ScheduleBalanced(f: seq<real>, ds: seq<real>, work: real, longest: real)
    requires Balanced(f, work, longest)
    requires NonNegative(ds) && Within(ds, longest)
    ensures Balanced(Schedule(f, ds), work + Sum(ds), longest)
    decreases |ds|
  {
    if ds != [] {
      PlaceBalanced(f, ds[0], work, longest);
      ScheduleBalanced(Place(f, ds[0]), ds[1..], work + ds[0], longest);
    }
  }

  lemma PlaceRaises(f: seq<real>, d: real)
    requires f != [] && NonNegative(f) && d >= 0.0
    ensures Below(f, Place(f, d)) && NonNegative(Place(f, d))
    ensures exists i :: 0 <= i < |f| && Place(f, d)[i] >= d
  {
    var i := MinIndex(f, |f|);
    assert Place(f, d)[i] >= d;
  }

  /** Loads only grow, and the greatest is at least every task. */
  lemma {:induction false} ScheduleReaches(f: seq<real>, ds: seq<real>)
    requires f != [] && NonNegative(f) && NonNegative(ds)
    ensures Below(f, Schedule(f, ds)) && Within(ds, MaxOf(Schedule(f, ds)))
    decreases |ds|
  {
    if ds != [] {
      var g, h := Place(f, ds[0]), Schedule(f, ds);
      PlaceRaises(f, ds[0]);
      ScheduleReaches(g, ds[1..]);
      BelowTransitive(f, g, h);
      PlacedBelow(g, h, ds[0]);
      WithinCons(ds, MaxOf(h));
    }
  }

  lemma IdleBalanced(m: nat, longest: real)
    requires m > 0 && longest >= 0.0
    ensures Balanced(Idle(m), 0.0, longest)
  {
    SumBounds(Idle(m), 0.0, 0.0);
    TimesIsProduct(m, 0.0);
    TimesMono(m - 1, 0.0, longest);
    TimesIsProduct(m - 1, 0.0);
  }

  lemma GrahamByAddition(ds: seq<real>, permits: int)
    requires ds != [] && NonNegative(ds)
    ensures var m := Width(permits);
            && MaxOf(ds) <= Gate(ds, permits)
            && Sum(ds) <= Times(m, Gate(ds, permits)) <= Sum(ds) + Times(m - 1, MaxOf(ds))
  {
    var m := Width(permits);
    IdleBalanced(m, MaxOf(ds));
    ScheduleBalanced(Idle(m), ds, 0.0, MaxOf(ds));
    ScheduleReaches(Idle(m), ds);
    var f := Schedule(Idle(m), ds);
    SumBounds(f, 0.0, MaxOf(f));
  }

  /** max(longest, sum/m) <= top <= sum/m + (1 - 1/m) * longest. */
  predicate WithinGraham(m: nat, sum: real, longest: real, top: real)
    requires m > 0
  {
    longest <= top && sum / m as real <= top <= sum / m as real + (1.0 - 1.0 / m as real) * longest
  }

  lemma FromTimes(n: nat, sum: real, top: real, longest: real)
    requires n > 0 && longest <= top && sum <= Times(n, top) <= sum + Times(n - 1, longest)
    ensures WithinGraham(n, sum, longest, top)
  {
    TimesIsProduct(n, top);
    TimesIsProduct(n - 1, longest);
    DivideThrough(n, sum, top, longest);
  }

  /** Graham's bounds on the makespan of any non-negative reads. */
  lemma GrahamBounds(ds: seq<real>, permits: int)
    requires ds != [] && NonNegative(ds)
    ensures WithinGraham(Width(permits), Sum(ds), MaxOf(ds), Gate(ds, permits))
  {
    GrahamByAddition(ds, permits);
    FromTimes(Width(permits), Sum(ds), Gate(ds, permits), MaxOf(ds));
  }

  lemma DivideThrough(n: nat, sum: real, top: real, longest: real)
    requires n > 0
    requires sum <= n as real * top <= sum + (n - 1) as real * longest
    ensures sum / n as real <= top <= sum / n as real + (1.0 - 1.0 / n as real) * longest
  {
    var m := n as real;
    var q := sum / m;
    assert q * m == sum;
    assert m * (top - q) >= 0.0;
    var r := 1.0 / m;
    assert r * m == 1.0;
    assert m * (q + (1.0 - r) * longest) == sum + (m - 1.0) * longest by {
      assert m * ((1.0 - r) * longest) == (m - m * r) * longest;
    }
    assert m * (q + (1.0 - r) * longest - top) >= 0.0;
  }
}
