/** `mergeTwoPairs`: fusing two pairs of reads, and when that can only help. */
module Fusion {
  import opened Makespan

  datatype Read = Read(section: string, ms: real)

  function Ms(rs: seq<Read>): (ds: seq<real>)
    ensures |ds| == |rs|
  {
    seq(|rs|, i requires 0 <= i < |rs| => rs[i].ms)
  }

  /** `findIndex`: the first read of the section, or -1. */
  function Find(rs: seq<Read>, section: string): (i: int)
    ensures -1 <= i < |rs|
    ensures i >= 0 ==> rs[i].section == section && forall k :: 0 <= k < i ==> rs[k].section != section
    ensures i < 0 ==> forall k :: 0 <= k < |rs| ==> rs[k].section != section
  {
    if rs == [] then -1
    else if rs[0].section == section then 0
    else
      var i := Find(rs[1..], section);
      assert forall k :: 0 < k < |rs| ==> rs[k] == rs[1..][k - 1];
      if i < 0 then -1 else i + 1
  }

  function Drop(rs: seq<Read>, k: nat): seq<Read>
    requires k < |rs|
  {
    rs[..k] + rs[k + 1..]
  }

  function Min(a: int, b: int): int { if a < b then a else b }
  function Max(a: int, b: int): int { if a > b then a else b }
  function Longer(a: real, b: real): real { if a > b then a else b }

  /** One turn of the loop: the fused read stays where the first of the two was. */
  function Fuse(rs: seq<Read>, a: string, b: string): seq<Read>
    requires a != b
  {
    var ia, ib := Find(rs, a), Find(rs, b);
    if ia < 0 || ib < 0 then rs
    else
      var keep, drop := Min(ia, ib), Max(ia, ib);
      Drop(rs[keep := rs[keep].(ms := Longer(rs[ia].ms, rs[ib].ms))], drop)
  }

  function Merged(rs: seq<Read>): seq<real> {
    Ms(Fuse(Fuse(rs, "capabilities", "gaps"), "facts", "rules"))
  }

  method FindIndex(rs: seq<Read>, section: string) returns (i: int)
    ensures i == Find(rs, section)
  {
    i := 0;
    while i < |rs|
      invariant 0 <= i <= |rs|
      invariant forall k :: 0 <= k < i ==> rs[k].section != section
    {
      if rs[i].section == section { return; }
      i := i + 1;
    }
    i := -1;
  }

  /** The body of the loop over the pairs. */
  method FusePair(remaining: seq<Read>, a: string, b: string) returns (out: seq<Read>)
    requires a != b
    ensures out == Fuse(remaining, a, b)
  {
    var ia := FindIndex(remaining, a);
    var ib := FindIndex(remaining, b);
    if ia == -1 || ib == -1 { return remaining; }
    var keep := if ia < ib then ia else ib;
    var drop := if ia > ib then ia else ib;
    var fused := if remaining[ia].ms > remaining[ib].ms then remaining[ia].ms else remaining[ib].ms;
    out := remaining[keep := remaining[keep].(ms := fused)];
    out := out[..drop] + out[drop + 1..];
  }

  method MergeTwoPairs(listed: seq<Read>) returns (ms: seq<real>)
    ensures ms == Merged(listed)
  {
    var merges := [("capabilities", "gaps"), ("facts", "rules")];
    assert "capabilities"[0] == 'c' && "gaps"[0] == 'g' && "facts"[0] == 'f' && "rules"[0] == 'r';
    var remaining := listed;
    for p := 0 to 2
      invariant p == 0 ==> remaining == listed
      invariant p == 1 ==> remaining == Fuse(listed, "capabilities", "gaps")
      invariant p == 2 ==> Ms(remaining) == Merged(listed)
    {
      remaining := FusePair(remaining, merges[p].0, merges[p].1);
    }
    ms := Ms(remaining);
  }

  // ---- when fusion cannot hurt ----

  /** The earlier-listed read of the pair is at least as long as the later, or the pair is incomplete. */
  predicate EarlierLonger(rs: seq<Read>, a: string, b: string) {
    var ia, ib := Find(rs, a), Find(rs, b);
    ia < 0 || ib < 0 || ia == ib || rs[Min(ia, ib)].ms >= rs[Max(ia, ib)].ms
  }

  predicate AllNonNegative(rs: seq<Read>) { forall i :: 0 <= i < |rs| ==> rs[i].ms >= 0.0 }

  lemma FindUnique(rs: seq<Read>, section: string, i: int)
    requires -1 <= i < |rs|
    requires i >= 0 ==> rs[i].section == section && forall k :: 0 <= k < i ==> rs[k].section != section
    requires i < 0 ==> forall k :: 0 <= k < |rs| ==> rs[k].section != section
    ensures Find(rs, section) == i
  {
    var j := Find(rs, section);
  }

  /** Dropping a read of another section moves the first read of this one by at most one. */
  lemma FindAfterDrop(rs: seq<Read>, k: nat, section: string)
    requires k < |rs| && rs[k].section != section
    ensures Find(Drop(rs, k), section) == Shifted(Find(rs, section), k)
  {
    var i := Find(rs, section);
    var ds := Drop(rs, k);
    assert forall j :: 0 <= j < |ds| ==> ds[j] == rs[if j < k then j else j + 1];
    FindUnique(ds, section, Shifted(i, k));
  }

  /** Under the condition, fusing is just dropping the later read. */
  lemma FuseDrops(rs: seq<Read>, a: string, b: string)
    requires a != b && EarlierLonger(rs, a, b)
    ensures var ia, ib := Find(rs, a), Find(rs, b);
            Fuse(rs, a, b) == if ia < 0 || ib < 0 then rs else Drop(rs, Max(ia, ib))
  {
    var ia, ib := Find(rs, a), Find(rs, b);
    if ia >= 0 && ib >= 0 {
      var keep := Min(ia, ib);
      assert rs[keep := rs[keep].(ms := Longer(rs[ia].ms, rs[ib].ms))] == rs;
    }
  }

  lemma DropNeverRaises(rs: seq<Read>, k: nat, permits: int)
    requires k < |rs| && rs[k].ms >= 0.0
    ensures Gate(Ms(Drop(rs, k)), permits) <= Gate(Ms(rs), permits)
  {
    var ds := Ms(Drop(rs, k));
    assert ds[..k] + [rs[k].ms] + ds[k..] == Ms(rs);
    InsertingNeverLowers(ds, k, rs[k].ms, permits);
  }

  lemma FuseNeverRaises(rs: seq<Read>, a: string, b: string, permits: int)
    requires a != b && EarlierLonger(rs, a, b) && AllNonNegative(rs)
    ensures Gate(Ms(Fuse(rs, a, b)), permits) <= Gate(Ms(rs), permits)
    ensures AllNonNegative(Fuse(rs, a, b))
  {
    FuseDrops(rs, a, b);
    var ia, ib := Find(rs, a), Find(rs, b);
    if ia >= 0 && ib >= 0 { DropNeverRaises(rs, Max(ia, ib), permits); }
  }

  function Shifted(i: int, k: int): int { if i > k then i - 1 else i }

  lemma DropAt(rs: seq<Read>, k: nat, i: nat)
    requires k < |rs| && i < |rs| && i != k
    ensures 0 <= Shifted(i, k) < |Drop(rs, k)| && Drop(rs, k)[Shifted(i, k)] == rs[i]
  {
  }

  lemma ShiftedOrder(i: int, j: int, k: int)
    requires i != k && j != k
    ensures Min(Shifted(i, k), Shifted(j, k)) == Shifted(Min(i, j), k)
    ensures Max(Shifted(i, k), Shifted(j, k)) == Shifted(Max(i, j), k)
  {
  }

  lemma DropKeepsPair(rs: seq<Read>, k: nat, c: string, d: string)
    requires k < |rs| && rs[k].section != c && rs[k].section != d && EarlierLonger(rs, c, d)
    ensures EarlierLonger(Drop(rs, k), c, d)
  {
    var i, j := Find(rs, c), Find(rs, d);
    FindAfterDrop(rs, k, c);
    FindAfterDrop(rs, k, d);
    if i >= 0 && j >= 0 {
      ShiftedOrder(i, j, k);
      DropAt(rs, k, Min(i, j));
      DropAt(rs, k, Max(i, j));
    }
  }

  lemma FuseKeepsOtherPair(rs: seq<Read>, a: string, b: string, c: string, d: string)
    requires a != b && c != d && {a, b} !! {c, d}
    requires EarlierLonger(rs, a, b) && EarlierLonger(rs, c, d)
    ensures EarlierLonger(Fuse(rs, a, b), c, d)
  {
    FuseDrops(rs, a, b);
    var ia, ib := Find(rs, a), Find(rs, b);
    if ia >= 0 && ib >= 0 {
      assert rs[Max(ia, ib)].section == a || rs[Max(ia, ib)].section == b;
      assert a !in {c, d} && b !in {c, d};
      DropKeepsPair(rs, Max(ia, ib), c, d);
    }
  }

  /** Merging the two pairs never raises the makespan when in each pair the earlier-listed read is at
      least as long as the later. */
  lemma MergeNeverRaises(rs: seq<Read>, permits: int)
    requires AllNonNegative(rs)
    requires EarlierLonger(rs, "capabilities", "gaps") && EarlierLonger(rs, "facts", "rules")
    ensures Gate(Merged(rs), permits) <= Gate(Ms(rs), permits)
  {
    var first := Fuse(rs, "capabilities", "gaps");
    assert "capabilities"[0] == 'c' && "gaps"[0] == 'g' && "facts"[0] == 'f' && "rules"[0] == 'r';
    FuseNeverRaises(rs, "capabilities", "gaps", permits);
    FuseKeepsOtherPair(rs, "capabilities", "gaps", "facts", "rules");
    FuseNeverRaises(first, "facts", "rules", permits);
  }

  // ---- on one permit fusing is always safe ----

  lemma {:induction false} SumAppend(a: seq<real>, b: seq<real>)
    ensures Sum(a + b) == Sum(a) + Sum(b)
  {
    if a == [] {
      assert a + b == b;
    } else {
      assert (a + b)[1..] == a[1..] + b;
      SumAppend(a[1..], b);
    }
  }

  lemma SumDrop(rs: seq<Read>, k: nat)
    requires k < |rs|
    ensures Sum(Ms(Drop(rs, k))) == Sum(Ms(rs)) - rs[k].ms
  {
    var a, b := Ms(rs[..k]), Ms(rs[k + 1..]);
    assert Ms(Drop(rs, k)) == a + b && Ms(rs) == a + ([rs[k].ms] + b);
    assert ([rs[k].ms] + b)[1..] == b;
    SumAppend(a, b);
    SumAppend(a, [rs[k].ms] + b);
  }

  lemma FuseSum(rs: seq<Read>, a: string, b: string)
    requires a != b && AllNonNegative(rs)
    ensures Sum(Ms(Fuse(rs, a, b))) <= Sum(Ms(rs)) && AllNonNegative(Fuse(rs, a, b))
  {
    var ia, ib := Find(rs, a), Find(rs, b);
    if ia >= 0 && ib >= 0 {
      var keep, drop, longer := Min(ia, ib), Max(ia, ib), Longer(rs[ia].ms, rs[ib].ms);
      var kept := rs[keep := rs[keep].(ms := longer)];
      assert Ms(kept) == Ms(rs)[keep := longer];
      SumUpdate(Ms(rs), keep, longer);
      SumDrop(kept, drop);
    }
  }

  lemma {:induction false} TakeAllOnOne(load: real, ds: seq<real>)
    ensures TakeAll([load], ds) == [load + Sum(ds)]
    decreases |ds|
  {
    if ds != [] {
      assert [load][1..] == [] && Take([load], ds[0]) == [load + ds[0]];
      TakeAllOnOne(load + ds[0], ds[1..]);
    }
  }

  lemma OnePermitSums(ds: seq<real>, permits: int)
    requires permits <= 1
    ensures Gate(ds, permits) == Sum(ds)
  {
    GateIsTakeAll(ds, permits);
    assert Idle(Width(permits)) == [0.0];
    TakeAllOnOne(0.0, ds);
  }

  lemma OnePermitSafe(rs: seq<Read>, permits: int)
    requires permits <= 1 && AllNonNegative(rs)
    ensures Gate(Merged(rs), permits) <= Gate(Ms(rs), permits)
  {
    Sections();
    FuseSum(rs, "capabilities", "gaps");
    FuseSum(Fuse(rs, "capabilities", "gaps"), "facts", "rules");
    OnePermitSums(Ms(rs), permits);
    OnePermitSums(Merged(rs), permits);
  }

  lemma Sections()
    ensures "capabilities"[0] == 'c' && "gaps"[0] == 'g' && "facts"[0] == 'f' && "rules"[0] == 'r'
    ensures "soul"[0] == 's' && "memory"[0] == 'm'
  {
  }

  // ---- on more, the condition is exact ----

  lemma {:induction false} TakeAllAppend(s: seq<real>, a: seq<real>, b: seq<real>)
    requires s != []
    ensures TakeAll(s, a + b) == TakeAll(TakeAll(s, a), b)
    decreases |a|
  {
    if a == [] {
      assert a + b == b;
    } else {
      assert (a + b)[1..] == a[1..] + b;
      TakeAllAppend(Take(s, a[0]), a[1..], b);
    }
  }

  lemma TakeAllParts(s: seq<real>, a: seq<real>, b: seq<real>, c: seq<real>, d: seq<real>)
    requires s != []
    ensures TakeAll(s, a + (b + (c + d))) == TakeAll(TakeAll(TakeAll(TakeAll(s, a), b), c), d)
  {
    TakeAllAppend(s, a, b + (c + d));
    TakeAllAppend(TakeAll(s, a), b, c + d);
    TakeAllAppend(TakeAll(TakeAll(s, a), b), c, d);
  }

  lemma TakeOne(s: seq<real>, d: real)
    requires s != []
    ensures TakeAll(s, [d]) == Take(s, d)
  {
    assert [d][1..] == [];
  }

  /** One pad takes a free permit. */
  lemma CopiesTail(k: nat, c: real, r: seq<real>)
    ensures (Copies(k + 1, c) + r)[0] == c && (Copies(k + 1, c) + r)[1..] == Copies(k, c) + r
  {
  }

  lemma PadsFromClock(x: real, j: nat, y: real)
    requires 0.0 <= x <= y
    ensures FromClock(0.0, [x] + Copies(j, y))
  {
  }

  lemma TakePad(k: nat, x: real, j: nat, y: real)
    requires 0.0 <= x <= y
    ensures Take(Copies(k + 1, 0.0) + ([x] + Copies(j, y)), y) == Copies(k, 0.0) + ([x] + Copies(j + 1, y))
  {
    CopiesTail(k, 0.0, [x] + Copies(j, y));
    PadsFromClock(x, j, y);
    InsertPastCopies(k, 0.0, [x] + Copies(j, y), y);
    InsertPad(x, j, y);
  }

  /** Pads of length y fill the free permits beside a load x. */
  lemma {:induction false} TakePads(k: nat, x: real, j: nat, y: real)
    requires 0.0 <= x <= y
    ensures TakeAll(Copies(k, 0.0) + ([x] + Copies(j, y)), Copies(k, y)) == [x] + Copies(j + k, y)
    decreases k
  {
    if k == 0 {
      assert Copies(0, 0.0) + ([x] + Copies(j, y)) == [x] + Copies(j, y);
    } else {
      TakePad(k - 1, x, j, y);
      TakePads(k - 1, x, j + 1, y);
      TakeAllCons(Copies(k, 0.0) + ([x] + Copies(j, y)), y, k);
    }
  }

  lemma TakeAllCons(s: seq<real>, y: real, k: nat)
    requires s != [] && k > 0
    ensures TakeAll(s, Copies(k, y)) == TakeAll(Take(s, y), Copies(k - 1, y))
  {
    assert Copies(k, y)[0] == y && Copies(k, y)[1..] == Copies(k - 1, y);
  }

  lemma InsertPad(x: real, j: nat, y: real)
    requires x <= y
    ensures Insert([x] + Copies(j, y), y) == [x] + Copies(j + 1, y)
  {
    InsertCons(x, Copies(j, y), y);
    if x < y { AtClock(y, Copies(j, y)); }
    assert [y] + Copies(j, y) == Copies(j + 1, y);
    assert x == y ==> [y] + ([x] + Copies(j, y)) == [x] + Copies(j + 1, y);
  }

  /** One more task under the top load. */
  lemma TailStep(s: seq<real>, top: real, d: real, room: real)
    requires |s| >= 2 && Sorted(s) && s[|s| - 1] == top && s[|s| - 2] <= room <= top && s[0] + d <= room
    ensures Sorted(Take(s, d)) && Take(s, d)[|s| - 1] == top && Take(s, d)[|s| - 2] <= room
  {
    assert Sorted(s[1..]);
    InsertUnder(s[1..], top, s[0] + d, room);
    InsertSorted(s[1..], s[0] + d);
  }

  /** A top load that the rest cannot reach stays on top. */
  lemma {:induction false} TailHidden(s: seq<real>, top: real, ds: seq<real>)
    requires |s| >= 2 && Sorted(s) && s[|s| - 1] == top && NonNegative(ds)
    requires s[|s| - 2] + Sum(ds) <= top
    ensures TakeAll(s, ds)[|s| - 1] == top
    decreases |ds|
  {
    if ds != [] {
      SumNonNegative(ds[1..]);
      assert s[0] <= s[|s| - 2];
      TailStep(s, top, ds[0], top - Sum(ds[1..]));
      TailHidden(Take(s, ds[0]), top, ds[1..]);
    }
  }

  lemma {:induction false} SumNonNegative(ds: seq<real>)
    requires NonNegative(ds)
    ensures Sum(ds) >= 0.0
  {
    if ds != [] { SumNonNegative(ds[1..]); }
  }

  lemma {:induction false} InsertUnder(s: seq<real>, top: real, x: real, room: real)
    requires s != [] && Sorted(s) && s[|s| - 1] == top && x <= room <= top
    requires |s| >= 2 ==> s[|s| - 2] <= room
    ensures Insert(s, x)[|s|] == top && Insert(s, x)[|s| - 1] <= room
  {
    if x > s[0] && |s| >= 2 { InsertUnder(s[1..], top, x, room); }
  }

  lemma TakeFirst(m: nat, x: real)
    requires m > 0 && x >= 0.0
    ensures TakeAll(Idle(m), [x]) == Copies(m - 1, 0.0) + ([x] + Copies(0, x))
  {
    assert Idle(m)[0] == 0.0 && Idle(m)[1..] == Copies(m - 1, 0.0) + [];
    InsertPastCopies(m - 1, 0.0, [], x);
    TakeOne(Idle(m), x);
    assert [x] + Copies(0, x) == [x];
  }

  lemma TakeLong(k: nat, x: real, y: real, g: real)
    requires x <= y <= x + g
    ensures TakeAll([x] + Copies(k, y), [g]) == Copies(k, y) + [x + g]
  {
    var full := [x] + Copies(k, y);
    assert full[0] == x && full[1..] == Copies(k, y) + [];
    InsertPastCopies(k, y, [], x + g);
    TakeOne(full, g);
  }

  /** A first task x, pads y on the other permits, a long task g, and a tail that g outlasts. */
  lemma FirstTaskDecides(x: real, y: real, g: real, tail: seq<real>, permits: int)
    requires 0.0 <= x <= y && permits >= 2 && NonNegative(tail) && y + Sum(tail) <= x + g
    ensures Gate([x] + (Copies(permits - 1, y) + ([g] + tail)), permits) == x + g
  {
    var k: nat := permits - 1;
    SumNonNegative(tail);
    TakeFirst(permits, x);
    assert Copies(0, x) == Copies(0, y);
    TakePads(k, x, 0, y);
    TakeLong(k, x, y, g);
    TailHidden(Copies(k, y) + [x + g], x + g, tail);
    TakeAllParts(Idle(permits), [x], Copies(k, y), [g], tail);
    GateIsTakeAll([x] + (Copies(k, y) + ([g] + tail)), permits);
  }

  /** A first read of the section, pads on every other permit, a long read, and a tail. */
  function Witness(section: string, x: real, pad: real, permits: nat, g: real, tail: seq<Read>): seq<Read>
    requires permits >= 2
  {
    [Read(section, x)] + (seq(permits - 1, _ => Read("soul", pad)) + ([Read("memory", g)] + tail))
  }

  lemma WitnessMs(section: string, x: real, pad: real, permits: nat, g: real, tail: seq<Read>)
    requires permits >= 2
    ensures Ms(Witness(section, x, pad, permits, g, tail)) == [x] + (Copies(permits - 1, pad) + ([g] + Ms(tail)))
  {
  }

  lemma WitnessAt(section: string, x: real, pad: real, permits: nat, g: real, tail: seq<Read>)
    requires permits >= 2
    ensures var rs := Witness(section, x, pad, permits, g, tail);
            && |rs| == permits + 1 + |tail| && rs[0] == Read(section, x)
            && (forall i :: 1 <= i < permits ==> rs[i] == Read("soul", pad))
            && rs[permits] == Read("memory", g)
            && forall i :: 0 <= i < |tail| ==> rs[permits + 1 + i] == tail[i]
  {
  }

  /** Sections are found at the front or in the tail. */
  lemma WitnessFind(section: string, x: real, pad: real, permits: nat, g: real, tail: seq<Read>, wanted: string)
    requires permits >= 2 && wanted != "soul" && wanted != "memory"
    ensures Find(Witness(section, x, pad, permits, g, tail), wanted) ==
            if wanted == section then 0 else if Find(tail, wanted) < 0 then -1 else permits + 1 + Find(tail, wanted)
  {
    var rs, j := Witness(section, x, pad, permits, g, tail), Find(tail, wanted);
    WitnessAt(section, x, pad, permits, g, tail);
    var i := if wanted == section then 0 else if j < 0 then -1 else permits + 1 + j;
    forall k | 0 <= k < (if i < 0 then |rs| else i) ensures rs[k].section != wanted {
      if k > permits { assert rs[k] == tail[k - permits - 1]; }
    }
    FindUnique(rs, wanted, i);
  }

  /** What fusing does, once both reads are found. */
  lemma FuseFound(rs: seq<Read>, a: string, b: string, keep: nat, drop: nat)
    requires a != b && keep < drop < |rs|
    requires (Find(rs, a) == keep && Find(rs, b) == drop) || (Find(rs, b) == keep && Find(rs, a) == drop)
    ensures Fuse(rs, a, b) == Drop(rs[keep := rs[keep].(ms := Longer(rs[keep].ms, rs[drop].ms))], drop)
  {
  }

  lemma DropFromTail(a: string, x: real, longer: real, pad: real, permits: nat, g: real, gone: Read, rest: seq<Read>)
    requires permits >= 2
    ensures var rs := Witness(a, x, pad, permits, g, [gone] + rest);
            && |rs| > permits + 1 && rs[0] == Read(a, x) && rs[permits + 1] == gone
            && Drop(rs[0 := Read(a, longer)], permits + 1) == Witness(a, longer, pad, permits, g, rest)
  {
  }

  /** Fusing the front read with the first of the tail lengthens the front and drops the other. */
  lemma FuseFront(a: string, x: real, pad: real, permits: nat, g: real, b: string, y: real, rest: seq<Read>)
    requires permits >= 2 && a != b && a != "soul" && a != "memory" && b != "soul" && b != "memory"
    ensures Fuse(Witness(a, x, pad, permits, g, [Read(b, y)] + rest), a, b) ==
            Witness(a, Longer(x, y), pad, permits, g, rest)
  {
    var tail := [Read(b, y)] + rest;
    FindUnique(tail, b, 0);
    WitnessFind(a, x, pad, permits, g, tail, a);
    WitnessFind(a, x, pad, permits, g, tail, b);
    DropFromTail(a, x, Longer(x, y), pad, permits, g, Read(b, y), rest);
    FuseFound(Witness(a, x, pad, permits, g, tail), a, b, 0, permits + 1);
  }

  lemma DropLast(a: string, x: real, pad: real, permits: nat, g: real, before: seq<Read>, kept: Read, longer: Read, gone: Read)
    requires permits >= 2
    ensures var rs, n := Witness(a, x, pad, permits, g, before + [kept, gone]), permits + 1 + |before|;
            && |rs| == n + 2 && rs[n] == kept && rs[n + 1] == gone
            && Drop(rs[n := longer], n + 1) == Witness(a, x, pad, permits, g, before + [longer])
  {
  }

  lemma {:induction false} FindPast(before: seq<Read>, rest: seq<Read>, section: string)
    requires Find(before, section) < 0 && Find(rest, section) >= 0
    ensures Find(before + rest, section) == |before| + Find(rest, section)
  {
    if before == [] {
      assert before + rest == rest;
    } else {
      assert (before + rest)[0] == before[0] && (before + rest)[1..] == before[1..] + rest;
      FindPast(before[1..], rest, section);
    }
  }

  lemma FindOfTwo(c: string, z: real, d: string, w: real)
    requires c != d
    ensures Find([Read(c, z), Read(d, w)], c) == 0 && Find([Read(c, z), Read(d, w)], d) == 1
  {
    FindUnique([Read(c, z), Read(d, w)], d, 1);
  }

  lemma FindLastTwo(before: seq<Read>, c: string, z: real, d: string, w: real)
    requires c != d && Find(before, c) < 0 && Find(before, d) < 0
    ensures Find(before + [Read(c, z), Read(d, w)], c) == |before|
    ensures Find(before + [Read(c, z), Read(d, w)], d) == |before| + 1
  {
    FindOfTwo(c, z, d, w);
    FindPast(before, [Read(c, z), Read(d, w)], c);
    FindPast(before, [Read(c, z), Read(d, w)], d);
  }

  lemma WitnessLastTwo(a: string, x: real, pad: real, permits: nat, g: real, before: seq<Read>, c: string, z: real, d: string, w: real)
    requires permits >= 2 && c != d && a != c && a != d && c != "soul" && c != "memory" && d != "soul" && d != "memory"
    requires Find(before, c) < 0 && Find(before, d) < 0
    ensures var rs := Witness(a, x, pad, permits, g, before + [Read(c, z), Read(d, w)]);
            Find(rs, c) == permits + 1 + |before| && Find(rs, d) == permits + 2 + |before|
  {
    var tail := before + [Read(c, z), Read(d, w)];
    FindLastTwo(before, c, z, d, w);
    WitnessFind(a, x, pad, permits, g, tail, c);
    WitnessFind(a, x, pad, permits, g, tail, d);
  }

  /** Fusing two reads that both stand in the tail, side by side. */
  lemma FuseTail(a: string, x: real, pad: real, permits: nat, g: real, before: seq<Read>, c: string, z: real, d: string, w: real)
    requires permits >= 2 && c != d && a != c && a != d && c != "soul" && c != "memory" && d != "soul" && d != "memory"
    requires Find(before, c) < 0 && Find(before, d) < 0
    ensures Fuse(Witness(a, x, pad, permits, g, before + [Read(c, z), Read(d, w)]), c, d) ==
            Witness(a, x, pad, permits, g, before + [Read(c, Longer(z, w))])
  {
    var tail, n := before + [Read(c, z), Read(d, w)], |before|;
    WitnessLastTwo(a, x, pad, permits, g, before, c, z, d, w);
    DropLast(a, x, pad, permits, g, before, Read(c, z), Read(c, Longer(z, w)), Read(d, w));
    FuseFound(Witness(a, x, pad, permits, g, tail), c, d, permits + 1 + n, permits + 2 + n);
  }

  /** Lists whose first reads of a and b last x and y in list order. */
  predicate IsPair(rs: seq<Read>, a: string, b: string, x: real, y: real) {
    var ia, ib := Find(rs, a), Find(rs, b);
    ia >= 0 && ib >= 0 && ia != ib && rs[Min(ia, ib)].ms == x && rs[Max(ia, ib)].ms == y
  }

  predicate PairsAre(rs: seq<Read>, x: real, y: real, z: real, w: real) {
    AllNonNegative(rs) && IsPair(rs, "capabilities", "gaps", x, y) && IsPair(rs, "facts", "rules", z, w)
  }

  predicate OnePairIs(rs: seq<Read>, x: real, y: real) {
    AllNonNegative(rs) && IsPair(rs, "capabilities", "gaps", x, y) && (Find(rs, "facts") < 0 || Find(rs, "rules") < 0)
  }

  predicate OtherPairIs(rs: seq<Read>, z: real, w: real) {
    AllNonNegative(rs) && IsPair(rs, "facts", "rules", z, w) && (Find(rs, "capabilities") < 0 || Find(rs, "gaps") < 0)
  }

  predicate Safe(rs: seq<Read>, permits: int) { Gate(Merged(rs), permits) <= Gate(Ms(rs), permits) }

  /** When the front read grows, so does the makespan. */
  lemma FrontDecides(a: string, x: real, y: real, permits: nat, g: real, tail: seq<Read>, fused: seq<Read>)
    requires permits >= 2 && 0.0 <= x < y && AllNonNegative(tail) && AllNonNegative(fused)
    requires y + Sum(Ms(tail)) <= x + g && Sum(Ms(fused)) <= g
    ensures Gate(Ms(Witness(a, x, y, permits, g, tail)), permits) < Gate(Ms(Witness(a, y, y, permits, g, fused)), permits)
  {
    WitnessMs(a, x, y, permits, g, tail);
    WitnessMs(a, y, y, permits, g, fused);
    FirstTaskDecides(x, y, g, Ms(tail), permits);
    FirstTaskDecides(y, y, g, Ms(fused), permits);
  }

  lemma FirstPairMerged(x: real, y: real, z: real, w: real, permits: nat, g: real)
    requires permits >= 2 && x <= y
    ensures Merged(Witness("capabilities", x, y, permits, g, [Read("gaps", y), Read("facts", z), Read("rules", w)])) ==
            Ms(Witness("capabilities", y, y, permits, g, [Read("facts", Longer(z, w))]))
  {
    Sections();
    var others, one := [Read("facts", z), Read("rules", w)], [Read("facts", Longer(z, w))];
    assert [Read("gaps", y)] + others == [Read("gaps", y), Read("facts", z), Read("rules", w)];
    FuseFront("capabilities", x, y, permits, g, "gaps", y, others);
    assert [] + others == others && [] + one == one;
    FuseTail("capabilities", y, y, permits, g, [], "facts", z, "rules", w);
  }

  /** Not a section that a witness uses for padding. */
  predicate NotPadding(section: string) { section != "soul" && section != "memory" }

  /** The tail of a witness with three reads of different sections. */
  lemma ThreeFound(a: string, x: real, pad: real, permits: nat, g: real, r0: Read, r1: Read, r2: Read)
    requires permits >= 2
    requires NotPadding(a) && NotPadding(r0.section) && NotPadding(r1.section) && NotPadding(r2.section)
    requires a != r0.section && a != r1.section && a != r2.section
    requires r0.section != r1.section && r0.section != r2.section && r1.section != r2.section
    ensures var rs := Witness(a, x, pad, permits, g, [r0, r1, r2]);
            && |rs| == permits + 4 && rs[0].ms == x
            && Find(rs, a) == 0 && Find(rs, r0.section) == permits + 1 && rs[permits + 1] == r0
            && Find(rs, r1.section) == permits + 2 && rs[permits + 2] == r1
            && Find(rs, r2.section) == permits + 3 && rs[permits + 3] == r2
  {
    var tail := [r0, r1, r2];
    FindUnique(tail, r0.section, 0);
    FindUnique(tail, r1.section, 1);
    FindUnique(tail, r2.section, 2);
    WitnessFind(a, x, pad, permits, g, tail, a);
    WitnessFind(a, x, pad, permits, g, tail, r0.section);
    WitnessFind(a, x, pad, permits, g, tail, r1.section);
    WitnessFind(a, x, pad, permits, g, tail, r2.section);
    WitnessAt(a, x, pad, permits, g, tail);
  }

  lemma WitnessNonNegative(a: string, x: real, pad: real, permits: nat, g: real, tail: seq<Read>)
    requires permits >= 2 && x >= 0.0 && pad >= 0.0 && g >= 0.0 && AllNonNegative(tail)
    ensures AllNonNegative(Witness(a, x, pad, permits, g, tail))
  {
    WitnessAt(a, x, pad, permits, g, tail);
    var rs := Witness(a, x, pad, permits, g, tail);
    forall i | 0 <= i < |rs| ensures rs[i].ms >= 0.0 {
      if i > permits { assert rs[i] == tail[i - permits - 1]; }
    }
  }

  lemma FirstPairListed(x: real, y: real, z: real, w: real, permits: nat, g: real)
    requires permits >= 2 && 0.0 <= x <= y && z >= 0.0 && w >= 0.0 && g >= 0.0
    ensures PairsAre(Witness("capabilities", x, y, permits, g, [Read("gaps", y), Read("facts", z), Read("rules", w)]), x, y, z, w)
  {
    Sections();
    ThreeFound("capabilities", x, y, permits, g, Read("gaps", y), Read("facts", z), Read("rules", w));
    WitnessNonNegative("capabilities", x, y, permits, g, [Read("gaps", y), Read("facts", z), Read("rules", w)]);
  }

  /** A list on which fusing capabilities and gaps raises the makespan, whatever the other pair lasts. */
  lemma FirstPairUnsafe(x: real, y: real, z: real, w: real, permits: nat) returns (rs: seq<Read>)
    requires permits >= 2 && 0.0 <= x < y && z >= 0.0 && w >= 0.0
    ensures PairsAre(rs, x, y, z, w) && !Safe(rs, permits)
  {
    var g := y + y + z + w;
    var tail, one := [Read("gaps", y), Read("facts", z), Read("rules", w)], [Read("facts", Longer(z, w))];
    rs := Witness("capabilities", x, y, permits, g, tail);
    assert Ms(tail) == [y, z, w] && Ms(one) == [Longer(z, w)];
    SumOfThree(y, z, w);
    SumOfOne(Longer(z, w));
    FrontDecides("capabilities", x, y, permits, g, tail, one);
    FirstPairMerged(x, y, z, w, permits, g);
    FirstPairListed(x, y, z, w, permits, g);
  }

  lemma SumOfOne(a: real)
    ensures Sum([a]) == a
  {
    assert [a][1..] == [];
  }

  lemma SumOfThree(a: real, b: real, c: real)
    ensures Sum([a, b, c]) == a + b + c
  {
    assert [a, b, c][1..] == [b, c] && [b, c][1..] == [c];
    SumOfOne(c);
  }

  lemma SecondPairMerged(x: real, y: real, z: real, w: real, permits: nat, g: real)
    requires permits >= 2 && z <= w
    ensures Merged(Witness("facts", z, w, permits, g, [Read("rules", w), Read("capabilities", x), Read("gaps", y)])) ==
            Ms(Witness("facts", w, w, permits, g, [Read("capabilities", Longer(x, y))]))
  {
    Sections();
    var rules, both, one := [Read("rules", w)], [Read("capabilities", x), Read("gaps", y)], [Read("capabilities", Longer(x, y))];
    assert rules + both == [Read("rules", w), Read("capabilities", x), Read("gaps", y)];
    FindUnique(rules, "capabilities", -1);
    FindUnique(rules, "gaps", -1);
    FuseTail("facts", z, w, permits, g, rules, "capabilities", x, "gaps", y);
    FuseFront("facts", z, w, permits, g, "rules", w, one);
  }

  lemma SecondPairListed(x: real, y: real, z: real, w: real, permits: nat, g: real)
    requires permits >= 2 && 0.0 <= z <= w && x >= 0.0 && y >= 0.0 && g >= 0.0
    ensures PairsAre(Witness("facts", z, w, permits, g, [Read("rules", w), Read("capabilities", x), Read("gaps", y)]), x, y, z, w)
  {
    Sections();
    ThreeFound("facts", z, w, permits, g, Read("rules", w), Read("capabilities", x), Read("gaps", y));
    WitnessNonNegative("facts", z, w, permits, g, [Read("rules", w), Read("capabilities", x), Read("gaps", y)]);
  }

  /** And one on which fusing facts and rules does. */
  lemma SecondPairUnsafe(x: real, y: real, z: real, w: real, permits: nat) returns (rs: seq<Read>)
    requires permits >= 2 && 0.0 <= z < w && x >= 0.0 && y >= 0.0
    ensures PairsAre(rs, x, y, z, w) && !Safe(rs, permits)
  {
    var g := w + w + x + y;
    var tail, one := [Read("rules", w), Read("capabilities", x), Read("gaps", y)], [Read("capabilities", Longer(x, y))];
    rs := Witness("facts", z, w, permits, g, tail);
    assert Ms(tail) == [w, x, y] && Ms(one) == [Longer(x, y)];
    SumOfThree(w, x, y);
    SumOfOne(Longer(x, y));
    FrontDecides("facts", z, w, permits, g, tail, one);
    SecondPairMerged(x, y, z, w, permits, g);
    SecondPairListed(x, y, z, w, permits, g);
  }

  /** One on which only capabilities and gaps fuse. */
  lemma OnlyPairUnsafe(x: real, y: real, permits: nat) returns (rs: seq<Read>)
    requires permits >= 2 && 0.0 <= x < y
    ensures OnePairIs(rs, x, y) && !Safe(rs, permits)
  {
    var g := y + y;
    var tail := [Read("gaps", y)];
    rs := Witness("capabilities", x, y, permits, g, tail);
    Sections();
    assert tail + [] == tail;
    FuseFront("capabilities", x, y, permits, g, "gaps", y, []);
    WitnessFind("capabilities", y, y, permits, g, [], "facts");
    assert Ms(tail) == [y];
    SumOfOne(y);
    FrontDecides("capabilities", x, y, permits, g, tail, []);
    FindUnique(tail, "gaps", 0);
    FindUnique(tail, "facts", -1);
    WitnessFind("capabilities", x, y, permits, g, tail, "capabilities");
    WitnessFind("capabilities", x, y, permits, g, tail, "gaps");
    WitnessFind("capabilities", x, y, permits, g, tail, "facts");
    WitnessAt("capabilities", x, y, permits, g, tail);
    WitnessNonNegative("capabilities", x, y, permits, g, tail);
  }

  /**
   * With both pairs present, lasting x, y and z, w in list order: merging is safe in every list, for this
   * number of permits, exactly when there is one permit or each earlier-listed read is the longer.
   */
  lemma FusionSafeIff(x: real, y: real, z: real, w: real, permits: int)
    requires x >= 0.0 && y >= 0.0 && z >= 0.0 && w >= 0.0
    ensures (forall rs :: PairsAre(rs, x, y, z, w) ==> Safe(rs, permits)) <==> permits <= 1 || (x >= y && z >= w)
  {
    if permits <= 1 {
      forall rs | PairsAre(rs, x, y, z, w) ensures Safe(rs, permits) { OnePermitSafe(rs, permits); }
    } else if x < y {
      var rs := FirstPairUnsafe(x, y, z, w, permits);
    } else if z < w {
      var rs := SecondPairUnsafe(x, y, z, w, permits);
    } else {
      forall rs | PairsAre(rs, x, y, z, w) ensures Safe(rs, permits) { MergeNeverRaises(rs, permits); }
    }
  }

  /** The same when only capabilities and gaps are both listed. */
  lemma OnePairSafeIff(x: real, y: real, permits: int)
    requires x >= 0.0 && y >= 0.0
    ensures (forall rs :: OnePairIs(rs, x, y) ==> Safe(rs, permits)) <==> permits <= 1 || x >= y
  {
    if permits <= 1 {
      forall rs | OnePairIs(rs, x, y) ensures Safe(rs, permits) { OnePermitSafe(rs, permits); }
    } else if x < y {
      var rs := OnlyPairUnsafe(x, y, permits);
    } else {
      forall rs | OnePairIs(rs, x, y) ensures Safe(rs, permits) { MergeNeverRaises(rs, permits); }
    }
  }

  /** A list on which only facts and rules fuse. */
  lemma OnlyOtherUnsafe(z: real, w: real, permits: nat) returns (rs: seq<Read>)
    requires permits >= 2 && 0.0 <= z < w
    ensures OtherPairIs(rs, z, w) && !Safe(rs, permits)
  {
    var g := w + w;
    var tail := [Read("rules", w)];
    rs := Witness("facts", z, w, permits, g, tail);
    Sections();
    FindUnique(tail, "rules", 0);
    FindUnique(tail, "capabilities", -1);
    WitnessFind("facts", z, w, permits, g, tail, "facts");
    WitnessFind("facts", z, w, permits, g, tail, "rules");
    WitnessFind("facts", z, w, permits, g, tail, "capabilities");
    assert tail + [] == tail;
    FuseFront("facts", z, w, permits, g, "rules", w, []);
    assert Ms(tail) == [w];
    SumOfOne(w);
    FrontDecides("facts", z, w, permits, g, tail, []);
    WitnessAt("facts", z, w, permits, g, tail);
    WitnessNonNegative("facts", z, w, permits, g, tail);
  }

  /** And when only facts and rules are. */
  lemma OtherPairSafeIff(z: real, w: real, permits: int)
    requires z >= 0.0 && w >= 0.0
    ensures (forall rs :: OtherPairIs(rs, z, w) ==> Safe(rs, permits)) <==> permits <= 1 || z >= w
  {
    if permits <= 1 {
      forall rs | OtherPairIs(rs, z, w) ensures Safe(rs, permits) { OnePermitSafe(rs, permits); }
    } else if z < w {
      var rs := OnlyOtherUnsafe(z, w, permits);
    } else {
      forall rs | OtherPairIs(rs, z, w) ensures Safe(rs, permits) { MergeNeverRaises(rs, permits); }
    }
  }
}
