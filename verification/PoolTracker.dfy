/** `createPoolSaturationTracker`: the online account of pool samples against the whole trace. */
module PoolTracker {
  import opened Options

  datatype Event = Sample(at: real, saturated: bool) | Stop(at: real)

  datatype Phase = Phase(samples: nat, saturated: nat)

  const NEVER_DRAINED := -1.0

  datatype Account = Account(
    samples: nat, saturated: nat, maxStreak: real, maxGap: real,
    firstAt: Option<real>, lastAt: real, lastDrainedAt: real, stoppedAt: Option<real>,
    load: Phase, drain: Phase, drainedAfter: real)

  datatype Summary = Summary(
    samples: nat, saturated: nat, maxStreak: real, span: real, maxGap: real,
    load: Phase, drain: Phase, drainedAfter: real)

  function Larger(a: real, b: real): real { if b > a then b else a }

  function Begin(start: real): Account {
    Account(0, 0, 0.0, 0.0, None, start, start, None, Phase(0, 0), Phase(0, 0), NEVER_DRAINED)
  }

  function Bump(p: Phase, saturated: bool): Phase {
    Phase(p.samples + 1, p.saturated + if saturated then 1 else 0)
  }

  function Observe(a: Account, at: real, saturated: bool): Account {
    var drains := a.stoppedAt.Some? && at > a.stoppedAt.value;
    a.(samples := a.samples + 1,
       saturated := a.saturated + if saturated then 1 else 0,
       firstAt := if a.firstAt.None? then Some(at) else a.firstAt,
       maxGap := Larger(a.maxGap, at - a.lastAt),
       lastAt := at,
       load := if drains then a.load else Bump(a.load, saturated),
       drain := if drains then Bump(a.drain, saturated) else a.drain,
       maxStreak := if saturated then Larger(a.maxStreak, at - a.lastDrainedAt) else a.maxStreak,
       lastDrainedAt := if saturated then a.lastDrainedAt else at,
       drainedAfter := if !saturated && drains && a.drainedAfter == NEVER_DRAINED then at - a.stoppedAt.value
                       else a.drainedAfter)
  }

  function MarkStopped(a: Account, at: real): Account {
    if a.stoppedAt.None? then a.(stoppedAt := Some(at)) else a
  }

  function Summarize(a: Account, end: real): Summary {
    var tail := end - a.lastAt;
    Summary(a.samples, a.saturated, a.maxStreak,
            if a.firstAt.None? then 0.0 else a.lastAt - a.firstAt.value,
            Larger(a.maxGap, if tail > 0.0 then tail else 0.0),
            a.load, a.drain, a.drainedAfter)
  }

  function Next(a: Account, e: Event): Account {
    if e.Sample? then Observe(a, e.at, e.saturated) else MarkStopped(a, e.at)
  }

  /** The account after a trace of calls. */
  function Track(start: real, trace: seq<Event>): Account {
    if trace == [] then Begin(start) else Next(Track(start, trace[..|trace| - 1]), trace[|trace| - 1])
  }

  lemma TrackSnoc(start: real, trace: seq<Event>, e: Event)
    ensures Track(start, trace + [e]) == Next(Track(start, trace), e)
  {
    assert (trace + [e])[..|trace|] == trace;
  }

  /** The closure of the source: its captured variables are fields. */
  class Tracker {
    var samples: nat
    var saturatedSamples: nat
    var maxStreak: real
    var maxGap: real
    var firstAt: Option<real>
    var lastAt: real
    var lastDrainedAt: real
    var producerStoppedAt: Option<real>
    var load: Phase
    var drain: Phase
    var drainedAfterMs: real
    /** When it began, and the calls so far. */
    ghost var start: real
    ghost var trace: seq<Event>

    ghost predicate Valid()
      reads this
    {
      View() == Track(start, trace)
    }

    function View(): Account
      reads this
    {
      Account(samples, saturatedSamples, maxStreak, maxGap, firstAt, lastAt, lastDrainedAt, producerStoppedAt,
              load, drain, drainedAfterMs)
    }

    constructor (startedAt: real)
      ensures Valid() && start == startedAt && trace == []
      ensures View() == Begin(startedAt)
    {
      start, trace := startedAt, [];
      samples, saturatedSamples := 0, 0;
      maxStreak, maxGap := 0.0, 0.0;
      firstAt, lastAt, lastDrainedAt := None, startedAt, startedAt;
      producerStoppedAt := None;
      load, drain := Phase(0, 0), Phase(0, 0);
      drainedAfterMs := NEVER_DRAINED;
    }

    method Observe(at: real, saturated: bool)
      requires Valid()
      modifies this
      ensures Valid() && start == old(start) && trace == old(trace) + [Sample(at, saturated)]
      ensures View() == Next(old(View()), Sample(at, saturated))
    {
      Tally(at, saturated);
      TrackSnoc(start, trace, Sample(at, saturated));
      trace := trace + [Sample(at, saturated)];
    }

    method Tally(at: real, saturated: bool)
      modifies this`samples, this`saturatedSamples, this`maxStreak, this`maxGap, this`firstAt, this`lastAt
      modifies this`lastDrainedAt, this`load, this`drain, this`drainedAfterMs
      ensures View() == Next(old(View()), Sample(at, saturated))
    {
      samples := samples + 1;
      if firstAt.None? { firstAt := Some(at); }
      var gap := at - lastAt;
      if gap > maxGap { maxGap := gap; }
      lastAt := at;
      var drains := producerStoppedAt.Some? && at > producerStoppedAt.value;
      CountIn(drains, saturated);
      if saturated {
        saturatedSamples := saturatedSamples + 1;
        var streak := at - lastDrainedAt;
        if streak > maxStreak { maxStreak := streak; }
      } else {
        lastDrainedAt := at;
        if drains && drainedAfterMs == NEVER_DRAINED {
          drainedAfterMs := at - producerStoppedAt.value;
        }
      }
    }

    /** `phase.samples++`, and `phase.saturated_samples++` of a saturated one. */
    method CountIn(drains: bool, saturated: bool)
      modifies this`load, this`drain
      ensures load == (if drains then old(load) else Bump(old(load), saturated))
      ensures drain == (if drains then Bump(old(drain), saturated) else old(drain))
    {
      if drains {
        drain := Bump(drain, saturated);
      } else {
        load := Bump(load, saturated);
      }
    }

    method MarkProducerStopped(at: real)
      requires Valid()
      modifies this
      ensures Valid() && start == old(start) && trace == old(trace) + [Stop(at)]
      ensures View() == Next(old(View()), Stop(at))
    {
      TrackSnoc(start, trace, Stop(at));
      trace := trace + [Stop(at)];
      if producerStoppedAt.None? { producerStoppedAt := Some(at); }
    }

    /** `summary`: what every field of it says about the samples and the stop, for calls in time order. */
    method GetSummary(endedAt: real) returns (s: Summary)
      requires Valid()
      ensures s == Summarize(View(), endedAt)
      ensures s.samples == |Samples(trace)| && s.saturated == Count(Samples(trace), IsSaturated())
      ensures s.span == SpanOf(Samples(trace))
      ensures Ordered(start, trace) ==> PhasesTell(trace, s)
      ensures Ordered(start, trace) ==> LongestStreak(s.maxStreak, start, Samples(trace)) && StreakTells(Samples(trace), s)
      ensures Ordered(start, trace) ==> DrainAgrees(trace, s.drainedAfter)
      ensures Ordered(start, trace) && EndsBy(start, trace, endedAt) ==> LargestOf(s.maxGap, start, Samples(trace), endedAt)
    {
      SummaryCounts(start, trace, endedAt);
      if Ordered(start, trace) { SummaryTells(start, trace, endedAt); }
      var tail := endedAt - lastAt;
      var span := 0.0;
      if firstAt.Some? { span := lastAt - firstAt.value; }
      var trailing := if tail > 0.0 then tail else 0.0;
      s := Summary(samples, saturatedSamples, maxStreak, span, if trailing > maxGap then trailing else maxGap,
                   load, drain, drainedAfterMs);
    }
  }

  // ---- the same quantities, read off the whole trace ----

  /** The samples of the trace, in order. */
  function Samples(trace: seq<Event>): (ss: seq<(real, bool)>) {
    if trace == [] then []
    else
      var e := trace[|trace| - 1];
      Samples(trace[..|trace| - 1]) + (if e.Sample? then [(e.at, e.saturated)] else [])
  }

  /** When the producer stopped: the first stop. */
  function StopTime(trace: seq<Event>): Option<real> {
    if trace == [] then None
    else
      var t := StopTime(trace[..|trace| - 1]);
      if t.None? && trace[|trace| - 1].Stop? then Some(trace[|trace| - 1].at) else t
  }

  function Count(ss: seq<(real, bool)>, p: ((real, bool)) -> bool): nat {
    if ss == [] then 0 else Count(ss[..|ss| - 1], p) + if p(ss[|ss| - 1]) then 1 else 0
  }

  /** Points in time with a sample or a mark, in order from the start. */
  predicate Ordered(start: real, trace: seq<Event>) {
    && (forall i :: 0 <= i < |trace| ==> start <= trace[i].at)
    && (forall i, j :: 0 <= i < j < |trace| ==> trace[i].at <= trace[j].at)
  }

  function Before(start: real, ss: seq<(real, bool)>, i: nat): real
    requires i <= |ss|
  {
    if i == 0 then start else ss[i - 1].0
  }

  /** The blind interval that ends with sample i (with `end` after the last sample). */
  function Gap(start: real, ss: seq<(real, bool)>, end: real, i: nat): real
    requires i <= |ss|
  {
    (if i < |ss| then ss[i].0 else end) - Before(start, ss, i)
  }

  /** The last instant before sample j at which the pool is known not to be saturated. */
  function LastDrained(start: real, ss: seq<(real, bool)>, j: nat): real
    requires j <= |ss|
  {
    if j == 0 then start else if !ss[j - 1].1 then ss[j - 1].0 else LastDrained(start, ss, j - 1)
  }

  predicate Saturated(ss: seq<(real, bool)>, i: nat, j: nat) {
    i <= j < |ss| && forall k :: i <= k <= j ==> ss[k].1
  }

  predicate DrainedAfterStop(ss: seq<(real, bool)>, stop: Option<real>, i: nat) {
    i < |ss| && !ss[i].1 && stop.Some? && ss[i].0 > stop.value
  }

  // ---- the online account agrees ----

  lemma SamplesSnoc(trace: seq<Event>, e: Event)
    ensures Samples(trace + [e]) == if e.Sample? then Samples(trace) + [(e.at, e.saturated)] else Samples(trace)
    ensures StopTime(trace + [e]) == if StopTime(trace).None? && e.Stop? then Some(e.at) else StopTime(trace)
  {
    assert (trace + [e])[..|trace|] == trace;
    assert Samples(trace) + [] == Samples(trace);
  }

  lemma {:induction false} SamplesWithin(trace: seq<Event>, lo: real, hi: real)
    requires forall i :: 0 <= i < |trace| ==> lo <= trace[i].at <= hi
    ensures forall i :: 0 <= i < |Samples(trace)| ==> lo <= Samples(trace)[i].0 <= hi
    ensures StopTime(trace).Some? ==> lo <= StopTime(trace).value <= hi
  {
    if trace != [] { SamplesWithin(trace[..|trace| - 1], lo, hi); }
  }

  predicate Rising(start: real, ss: seq<(real, bool)>) {
    && (forall i :: 0 <= i < |ss| ==> start <= ss[i].0)
    && (forall i, j :: 0 <= i < j < |ss| ==> ss[i].0 <= ss[j].0)
  }

  lemma RisingSnoc(start: real, ss: seq<(real, bool)>, s: (real, bool))
    requires Rising(start, ss) && start <= s.0 && forall i :: 0 <= i < |ss| ==> ss[i].0 <= s.0
    ensures Rising(start, ss + [s])
  {
  }

  /** The samples of an ordered trace are in time order, up to its last instant. */
  lemma {:induction false} SamplesOrdered(start: real, trace: seq<Event>)
    requires Ordered(start, trace)
    ensures Rising(start, Samples(trace))
    ensures trace != [] ==> forall i :: 0 <= i < |Samples(trace)| ==> Samples(trace)[i].0 <= trace[|trace| - 1].at
  {
    if trace != [] {
      var init, e := trace[..|trace| - 1], trace[|trace| - 1];
      assert Ordered(start, init);
      SamplesOrdered(start, init);
      SamplesWithin(init, start, e.at);
      SamplesWithin(trace, start, e.at);
      if e.Sample? { RisingSnoc(start, Samples(init), (e.at, e.saturated)); }
    }
  }

  function IsDrain(stop: Option<real>): ((real, bool)) -> bool {
    (s: (real, bool)) => stop.Some? && s.0 > stop.value
  }

  function IsSaturatedDrain(stop: Option<real>): ((real, bool)) -> bool {
    (s: (real, bool)) => s.1 && stop.Some? && s.0 > stop.value
  }

  function IsSaturated(): ((real, bool)) -> bool { (s: (real, bool)) => s.1 }

  ghost predicate CountsAgree(trace: seq<Event>, a: Account) {
    var ss := Samples(trace);
    && a.stoppedAt == StopTime(trace)
    && a.samples == |ss| && a.saturated == Count(ss, IsSaturated())
    && a.drain.samples == Count(ss, IsDrain(StopTime(trace)))
    && a.drain.saturated == Count(ss, IsSaturatedDrain(StopTime(trace)))
    && a.load.samples + a.drain.samples == a.samples
    && a.load.saturated + a.drain.saturated == a.saturated
  }

  lemma {:induction false} NoDrainBefore(ss: seq<(real, bool)>, stop: real)
    requires forall i :: 0 <= i < |ss| ==> ss[i].0 <= stop
    ensures Count(ss, IsDrain(Some(stop))) == 0 && Count(ss, IsSaturatedDrain(Some(stop))) == 0
  {
    if ss != [] { NoDrainBefore(ss[..|ss| - 1], stop); }
  }

  lemma {:induction false} NoDrainUnstopped(ss: seq<(real, bool)>)
    ensures Count(ss, IsDrain(None)) == 0 && Count(ss, IsSaturatedDrain(None)) == 0
  {
    if ss != [] { NoDrainUnstopped(ss[..|ss| - 1]); }
  }

  lemma CountSnoc(ss: seq<(real, bool)>, s: (real, bool), p: ((real, bool)) -> bool)
    ensures Count(ss + [s], p) == Count(ss, p) + if p(s) then 1 else 0
  {
    assert (ss + [s])[..|ss|] == ss;
  }

  lemma CountsObserved(init: seq<Event>, a: Account, e: Event)
    requires e.Sample? && CountsAgree(init, a)
    ensures CountsAgree(init + [e], Observe(a, e.at, e.saturated))
  {
    SamplesSnoc(init, e);
    CountSnoc(Samples(init), (e.at, e.saturated), IsSaturated());
    CountSnoc(Samples(init), (e.at, e.saturated), IsDrain(StopTime(init)));
    CountSnoc(Samples(init), (e.at, e.saturated), IsSaturatedDrain(StopTime(init)));
  }

  lemma CountsMarked(init: seq<Event>, a: Account, e: Event)
    requires e.Stop? && CountsAgree(init, a)
    requires forall i :: 0 <= i < |Samples(init)| ==> Samples(init)[i].0 <= e.at
    ensures CountsAgree(init + [e], MarkStopped(a, e.at))
  {
    SamplesSnoc(init, e);
    if StopTime(init).None? {
      NoDrainUnstopped(Samples(init));
      NoDrainBefore(Samples(init), e.at);
    }
  }

  lemma {:induction false} CountsTracked(start: real, trace: seq<Event>)
    requires Ordered(start, trace)
    ensures CountsAgree(trace, Track(start, trace))
  {
    if trace != [] {
      var init, e := trace[..|trace| - 1], trace[|trace| - 1];
      assert Ordered(start, init);
      CountsTracked(start, init);
      if e.Sample? {
        CountsObserved(init, Track(start, init), e);
      } else {
        SamplesWithin(init, start, e.at);
        CountsMarked(init, Track(start, init), e);
      }
      assert trace == init + [e];
    }
  }

  /** Gaps and streaks so far: bounds that are attained. */
  ghost predicate ExtremesAgree(start: real, trace: seq<Event>, a: Account) {
    var ss := Samples(trace);
    && a.lastAt == Before(start, ss, |ss|)
    && a.lastDrainedAt == LastDrained(start, ss, |ss|)
    && a.firstAt == (if ss == [] then None else Some(ss[0].0))
    && GapsAgree(start, ss, a.maxGap)
    && StreaksAgree(start, ss, a.maxStreak)
  }

  ghost predicate GapsAgree(start: real, ss: seq<(real, bool)>, g: real) {
    && g >= 0.0
    && (forall i :: 0 <= i < |ss| ==> Gap(start, ss, 0.0, i) <= g)
    && (g == 0.0 || exists i :: 0 <= i < |ss| && Gap(start, ss, 0.0, i) == g)
  }

  ghost predicate StreaksAgree(start: real, ss: seq<(real, bool)>, m: real) {
    && m >= 0.0
    && (forall j :: 0 <= j < |ss| && ss[j].1 ==> ss[j].0 - LastDrained(start, ss, j) <= m)
    && (m == 0.0 || exists j :: 0 <= j < |ss| && ss[j].1 && ss[j].0 - LastDrained(start, ss, j) == m)
  }

  lemma GapsSnoc(start: real, ss: seq<(real, bool)>, s: (real, bool), g: real)
    requires GapsAgree(start, ss, g)
    ensures GapsAgree(start, ss + [s], Larger(g, s.0 - Before(start, ss, |ss|)))
  {
    var n, tt := |ss|, ss + [s];
    assert forall i :: 0 <= i < n ==> Gap(start, tt, 0.0, i) == Gap(start, ss, 0.0, i);
    assert Gap(start, tt, 0.0, n) == s.0 - Before(start, ss, n);
    if g != 0.0 {
      var i :| 0 <= i < n && Gap(start, ss, 0.0, i) == g;
      assert Gap(start, tt, 0.0, i) == g;
    }
  }

  lemma StreaksSnoc(start: real, ss: seq<(real, bool)>, s: (real, bool), m: real)
    requires StreaksAgree(start, ss, m)
    ensures StreaksAgree(start, ss + [s], if s.1 then Larger(m, s.0 - LastDrained(start, ss, |ss|)) else m)
  {
    var n, tt := |ss|, ss + [s];
    forall j | 0 <= j <= n ensures LastDrained(start, tt, j) == LastDrained(start, ss, j) {
      LastDrainedPrefix(start, ss, s, j);
    }
    if m != 0.0 {
      var j :| 0 <= j < n && ss[j].1 && ss[j].0 - LastDrained(start, ss, j) == m;
      assert tt[j].1 && tt[j].0 - LastDrained(start, tt, j) == m;
    }
    if s.1 { assert tt[n].1 && tt[n].0 - LastDrained(start, tt, n) == s.0 - LastDrained(start, ss, n); }
  }

  lemma {:induction false} LastDrainedPrefix(start: real, ss: seq<(real, bool)>, s: (real, bool), j: nat)
    requires j <= |ss|
    ensures LastDrained(start, ss + [s], j) == LastDrained(start, ss, j)
  {
    if j > 0 { LastDrainedPrefix(start, ss, s, j - 1); }
  }

  lemma {:induction false} ExtremesTracked(start: real, trace: seq<Event>)
    ensures ExtremesAgree(start, trace, Track(start, trace))
  {
    if trace != [] {
      var init, e := trace[..|trace| - 1], trace[|trace| - 1];
      assert trace == init + [e];
      ExtremesTracked(start, init);
      SamplesSnoc(init, e);
      if e.Sample? { ExtremesObserved(start, init, Track(start, init), e); }
    }
  }

  lemma ExtremesObserved(start: real, init: seq<Event>, a: Account, e: Event)
    requires e.Sample? && ExtremesAgree(start, init, a)
    ensures ExtremesAgree(start, init + [e], Observe(a, e.at, e.saturated))
  {
    SamplesSnoc(init, e);
    var ss, sample := Samples(init), (e.at, e.saturated);
    GapsSnoc(start, ss, sample, a.maxGap);
    StreaksSnoc(start, ss, sample, a.maxStreak);
    LastDrainedPrefix(start, ss, sample, |ss|);
  }

  // ---- main results ----

  /** Load and drain partition the samples by the instant the producer stopped. */
  ghost predicate PhasesTell(trace: seq<Event>, s: Summary) {
    && s.drain.samples == Count(Samples(trace), IsDrain(StopTime(trace)))
    && s.drain.saturated == Count(Samples(trace), IsSaturatedDrain(StopTime(trace)))
    && s.load.samples + s.drain.samples == s.samples
    && s.load.saturated + s.drain.saturated == s.saturated
  }

  lemma PhasesPartition(start: real, trace: seq<Event>, end: real)
    requires Ordered(start, trace)
    ensures PhasesTell(trace, Summarize(Track(start, trace), end))
  {
    CountsTracked(start, trace);
  }

  /** From the first sample to the last. */
  function SpanOf(ss: seq<(real, bool)>): real { if ss == [] then 0.0 else ss[|ss| - 1].0 - ss[0].0 }

  /** Counts and span, whatever the order of the calls. */
  lemma SummaryCounts(start: real, trace: seq<Event>, end: real)
    ensures var s := Summarize(Track(start, trace), end);
            && s.samples == |Samples(trace)| && s.saturated == Count(Samples(trace), IsSaturated())
            && s.span == SpanOf(Samples(trace))
  {
    SamplesCounted(start, trace);
    ExtremesTracked(start, trace);
  }

  lemma {:induction false} SamplesCounted(start: real, trace: seq<Event>)
    ensures Track(start, trace).samples == |Samples(trace)|
    ensures Track(start, trace).saturated == Count(Samples(trace), IsSaturated())
  {
    if trace != [] {
      var init, e := trace[..|trace| - 1], trace[|trace| - 1];
      SamplesCounted(start, init);
      assert trace == init + [e];
      SamplesSnoc(init, e);
      if e.Sample? { CountSnoc(Samples(init), (e.at, e.saturated), IsSaturated()); }
    }
  }

  predicate LargestOf(g: real, start: real, ss: seq<(real, bool)>, end: real) {
    && (forall i :: 0 <= i <= |ss| ==> Gap(start, ss, end, i) <= g)
    && (exists i :: 0 <= i <= |ss| && Gap(start, ss, end, i) == g)
  }

  predicate EndsBy(start: real, trace: seq<Event>, end: real) {
    start <= end && (trace != [] ==> trace[|trace| - 1].at <= end)
  }

  /** `max_gap_ms` is the largest interval among the start, the samples and the end. */
  lemma LargestGap(start: real, trace: seq<Event>, end: real)
    requires Ordered(start, trace) && EndsBy(start, trace, end)
    ensures LargestOf(Summarize(Track(start, trace), end).maxGap, start, Samples(trace), end)
  {
    ExtremesTracked(start, trace);
    SamplesOrdered(start, trace);
    LargestWithEnd(start, trace, Track(start, trace), end);
  }

  lemma LargestWithEnd(start: real, trace: seq<Event>, a: Account, end: real)
    requires ExtremesAgree(start, trace, a) && Rising(start, Samples(trace)) && a.lastAt <= end
    ensures LargestOf(Summarize(a, end).maxGap, start, Samples(trace), end)
  {
    var ss := Samples(trace);
    assert forall i :: 0 <= i < |ss| ==> Gap(start, ss, end, i) == Gap(start, ss, 0.0, i);
    assert Gap(start, ss, end, |ss|) == end - a.lastAt;
    if Summarize(a, end).maxGap == end - a.lastAt {
      assert Gap(start, ss, end, |ss|) == Summarize(a, end).maxGap;
    } else {
      var i :| 0 <= i < |ss| && Gap(start, ss, 0.0, i) == a.maxGap;
      assert Gap(start, ss, end, i) == Summarize(a, end).maxGap;
    }
  }

  lemma {:induction false} LastDrainedBeforeRun(start: real, ss: seq<(real, bool)>, i: nat, j: nat)
    requires Saturated(ss, i, j)
    requires Rising(start, ss)
    ensures LastDrained(start, ss, j) == LastDrained(start, ss, i) <= ss[i].0
  {
    if i < j {
      LastDrainedBeforeRun(start, ss, i, j - 1);
    } else {
      LastDrainedEarlier(start, ss, i);
    }
  }

  lemma {:induction false} LastDrainedEarlier(start: real, ss: seq<(real, bool)>, i: nat)
    requires i < |ss|
    requires Rising(start, ss)
    ensures LastDrained(start, ss, i) <= ss[i].0
  {
    if i > 0 && ss[i - 1].1 { LastDrainedEarlier(start, ss, i - 1); }
  }

  /** The longest time from an instant known not to be saturated to a later saturated sample with no drained
      one between; 0 without saturated samples. */
  ghost predicate LongestStreak(m: real, start: real, ss: seq<(real, bool)>) {
    && (forall j :: 0 <= j < |ss| && ss[j].1 ==> ss[j].0 - LastDrained(start, ss, j) <= m)
    && (if forall j :: 0 <= j < |ss| ==> !ss[j].1 then m == 0.0
        else exists j :: 0 <= j < |ss| && ss[j].1 && ss[j].0 - LastDrained(start, ss, j) == m)
  }

  /** `max_streak_ms` is that longest time. */
  lemma StreakIsLongest(start: real, trace: seq<Event>, end: real)
    requires Ordered(start, trace)
    ensures LongestStreak(Summarize(Track(start, trace), end).maxStreak, start, Samples(trace))
  {
    ExtremesTracked(start, trace);
    SamplesOrdered(start, trace);
    var ss, m := Samples(trace), Track(start, trace).maxStreak;
    if j :| 0 <= j < |ss| && ss[j].1 {
      LastDrainedEarlier(start, ss, j);
      assert m == 0.0 ==> ss[j].0 - LastDrained(start, ss, j) == m;
    }
  }

  /** `max_streak_ms` is never below the span of a saturated run. */
  lemma StreakCoversRuns(start: real, trace: seq<Event>, end: real, i: nat, j: nat)
    requires Ordered(start, trace) && Saturated(Samples(trace), i, j)
    ensures Samples(trace)[j].0 - Samples(trace)[i].0 <= Summarize(Track(start, trace), end).maxStreak
  {
    ExtremesTracked(start, trace);
    SamplesOrdered(start, trace);
    LastDrainedBeforeRun(start, Samples(trace), i, j);
  }

  /** The run that ends with saturated sample j starts right after its last drained instant. */
  lemma {:induction false} RunStart(start: real, ss: seq<(real, bool)>, j: nat) returns (i: nat)
    requires j < |ss| && ss[j].1
    ensures Saturated(ss, i, j) && LastDrained(start, ss, j) == Before(start, ss, i)
  {
    if j > 0 && ss[j - 1].1 {
      i := RunStart(start, ss, j - 1);
    } else {
      i := j;
    }
  }

  /** Samples i..j are a saturated run whose span is within `slack` of `streak`. */
  predicate RunWithin(ss: seq<(real, bool)>, i: nat, j: nat, streak: real, slack: real) {
    Saturated(ss, i, j) && streak <= ss[j].0 - ss[i].0 + slack
  }

  /** No saturated run is longer than `max_streak_ms`, which exceeds the longest one by at most `max_gap_ms`
      and is 0 when there is none. */
  ghost predicate StreakTells(ss: seq<(real, bool)>, s: Summary) {
    && (forall i: nat, j: nat :: Saturated(ss, i, j) ==> ss[j].0 - ss[i].0 <= s.maxStreak)
    && (if forall j :: 0 <= j < |ss| ==> !ss[j].1 then s.maxStreak == 0.0
        else SomeRunWithin(ss, s.maxStreak, s.maxGap))
  }

  ghost predicate SomeRunWithin(ss: seq<(real, bool)>, streak: real, slack: real) {
    exists i: nat, j: nat :: RunWithin(ss, i, j, streak, slack)
  }

  lemma StreakExceedsByGap(start: real, trace: seq<Event>, end: real)
    requires Ordered(start, trace)
    ensures StreakTells(Samples(trace), Summarize(Track(start, trace), end))
  {
    StreakIsLongest(start, trace, end);
    var s, ss := Summarize(Track(start, trace), end), Samples(trace);
    forall i: nat, j: nat | Saturated(ss, i, j) ensures ss[j].0 - ss[i].0 <= s.maxStreak {
      StreakCoversRuns(start, trace, end, i, j);
    }
    if j: nat :| j < |ss| && ss[j].1 {
      RunNearStreak(start, trace, end);
    }
  }

  lemma RunNearStreak(start: real, trace: seq<Event>, end: real)
    requires Ordered(start, trace)
    requires LongestStreak(Summarize(Track(start, trace), end).maxStreak, start, Samples(trace))
    requires exists j :: 0 <= j < |Samples(trace)| && Samples(trace)[j].1
    ensures var s := Summarize(Track(start, trace), end); SomeRunWithin(Samples(trace), s.maxStreak, s.maxGap)
  {
    ExtremesTracked(start, trace);
    var s, ss := Summarize(Track(start, trace), end), Samples(trace);
    var j: nat :| j < |ss| && ss[j].1 && ss[j].0 - LastDrained(start, ss, j) == s.maxStreak;
    var i := RunStart(start, ss, j);
    assert ss[i].0 - Before(start, ss, i) == Gap(start, ss, 0.0, i) <= s.maxGap;
    assert RunWithin(ss, i, j, s.maxStreak, s.maxGap);
  }

  ghost predicate DrainAgrees(trace: seq<Event>, drainedAfter: real) {
    var ss, stop := Samples(trace), StopTime(trace);
    if exists i: nat :: DrainedAfterStop(ss, stop, i) then
      exists i: nat :: DrainedAfterStop(ss, stop, i) && drainedAfter == ss[i].0 - stop.value
                  && forall k: nat :: k < i ==> !DrainedAfterStop(ss, stop, k)
    else drainedAfter == -1.0
  }

  /** `drained_after_ms` is the delay from the stop to the first drained sample after it, and -1
      exactly when there is none. */
  lemma DrainedAfter(start: real, trace: seq<Event>, end: real)
    requires Ordered(start, trace)
    ensures DrainAgrees(trace, Summarize(Track(start, trace), end).drainedAfter)
    ensures Summarize(Track(start, trace), end).drainedAfter == -1.0 <==>
            !exists i: nat :: DrainedAfterStop(Samples(trace), StopTime(trace), i)
  {
    DrainTracked(start, trace);
  }

  lemma {:induction false} DrainTracked(start: real, trace: seq<Event>)
    requires Ordered(start, trace)
    ensures DrainAgrees(trace, Track(start, trace).drainedAfter)
    ensures Track(start, trace).drainedAfter == NEVER_DRAINED <==>
            !exists i: nat :: DrainedAfterStop(Samples(trace), StopTime(trace), i)
  {
    if trace != [] {
      var init, e := trace[..|trace| - 1], trace[|trace| - 1];
      assert trace == init + [e];
      assert Ordered(start, init);
      DrainTracked(start, init);
      StopTracked(start, init);
      NoneLater(start, init, e);
      if e.Sample? {
        DrainObserved(init, e, Track(start, init));
      } else {
        DrainMarked(init, e, Track(start, init));
      }
    }
  }

  lemma StopTracked(start: real, trace: seq<Event>)
    requires Ordered(start, trace)
    ensures Track(start, trace).stoppedAt == StopTime(trace)
  {
    CountsTracked(start, trace);
  }

  lemma NoneLater(start: real, init: seq<Event>, e: Event)
    requires Ordered(start, init + [e])
    ensures forall i :: 0 <= i < |Samples(init)| ==> Samples(init)[i].0 <= e.at
  {
    assert (init + [e])[|init|] == e && forall i :: 0 <= i < |init| ==> (init + [e])[i] == init[i];
    SamplesWithin(init, start, e.at);
  }

  lemma DrainMarked(init: seq<Event>, e: Event, a: Account)
    requires e.Stop? && DrainAgrees(init, a.drainedAfter)
    requires forall i :: 0 <= i < |Samples(init)| ==> Samples(init)[i].0 <= e.at
    requires a.drainedAfter == NEVER_DRAINED <==> !exists i: nat :: DrainedAfterStop(Samples(init), StopTime(init), i)
    ensures DrainAgrees(init + [e], a.drainedAfter)
    ensures a.drainedAfter == NEVER_DRAINED <==>
            !exists i: nat :: DrainedAfterStop(Samples(init + [e]), StopTime(init + [e]), i)
  {
    SamplesSnoc(init, e);
    var ss, stop, stop' := Samples(init), StopTime(init), StopTime(init + [e]);
    forall i: nat ensures DrainedAfterStop(ss, stop', i) <==> DrainedAfterStop(ss, stop, i) {
    }
  }

  lemma DrainObserved(init: seq<Event>, e: Event, a: Account)
    requires e.Sample? && a.stoppedAt == StopTime(init) && DrainAgrees(init, a.drainedAfter)
    ensures DrainAgrees(init + [e], Observe(a, e.at, e.saturated).drainedAfter)
    ensures Observe(a, e.at, e.saturated).drainedAfter == NEVER_DRAINED <==>
            !exists i: nat :: DrainedAfterStop(Samples(init + [e]), StopTime(init + [e]), i)
  {
    SamplesSnoc(init, e);
    var ss, stop := Samples(init), StopTime(init);
    var tt := ss + [(e.at, e.saturated)];
    forall i: nat ensures DrainedAfterStop(tt, stop, i) <==> DrainedAfterStop(ss, stop, i) || (i == |ss| && DrainedAfterStop(tt, stop, i)) {
      if i < |ss| { assert tt[i] == ss[i]; }
    }
    if exists i: nat :: DrainedAfterStop(ss, stop, i) {
      var i: nat :| DrainedAfterStop(ss, stop, i) && a.drainedAfter == ss[i].0 - stop.value
               && forall k: nat :: k < i ==> !DrainedAfterStop(ss, stop, k);
      assert DrainedAfterStop(tt, stop, i) && a.drainedAfter == tt[i].0 - stop.value;
    } else if !e.saturated && stop.Some? && e.at > stop.value {
      assert DrainedAfterStop(tt, stop, |ss|);
    }
  }

  /** All that the summary of calls in time order says. */
  lemma SummaryTells(start: real, trace: seq<Event>, end: real)
    requires Ordered(start, trace)
    ensures var s := Summarize(Track(start, trace), end);
            && PhasesTell(trace, s)
            && LongestStreak(s.maxStreak, start, Samples(trace)) && StreakTells(Samples(trace), s)
            && DrainAgrees(trace, s.drainedAfter)
            && (EndsBy(start, trace, end) ==> LargestOf(s.maxGap, start, Samples(trace), end))
  {
    PhasesPartition(start, trace, end);
    StreakIsLongest(start, trace, end);
    StreakExceedsByGap(start, trace, end);
    DrainedAfter(start, trace, end);
    if EndsBy(start, trace, end) { LargestGap(start, trace, end); }
  }
}
