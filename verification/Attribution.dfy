/** Decomposing the slow tail into phases and causes. */
module Attribution {
  import opened Basics
  import opened Domain
  import opened Codes
  import opened Quantiles
  import opened Windows

  /** A ratio of two counts or durations; the source divides them as doubles. */
  datatype Ratio = Ratio(part: int, whole: int)

  datatype PhaseTotal = PhaseTotal(phase: Phase, total: int)

  datatype PhaseContribution = PhaseContribution(phase: Phase, total: int, share: Ratio, dominant: bool)

  datatype TailCause = TailCause(category: TailCauseCategory, attribution: Attribution, confidence: Ratio, excess: int)

  function CauseOfPhase(p: Phase): TailCauseCategory {
    match p
    case AdmissionWait => Queueing
    case QueueWait => Queueing
    case BatchWait => Batching
    case ModelLoad => ColdResidency
    case EngineWarmup => ColdResidency
    case StateFetch => ModelOrStateLoad
    case Transfer => TransferCause
    case MemoryReclaim => MemoryPressure
    case Execution => ExecutionVariance
    case Prefill => ExecutionVariance
    case Decode => ExecutionVariance
    case BackendWait => ExecutionVariance
    case PreemptionWait => Preemption
    case RecoveryWait => Recovery
    case RetryDelay => RetryCause
    case Publication => PublicationDelay
    case OtherPhase => UnknownCause
    case UnlistedPhase(_) => UnknownCause
  }

  // ---- one sample ------------------------------------------------------------------

  function PhaseSum(phases: seq<PhaseLatency>): int {
    if phases == [] then 0 else PhaseSum(phases[..|phases| - 1]) + phases[|phases| - 1].duration
  }

  /** What ingestion establishes about a sample. */
  ghost predicate Reconciled(s: TailSample) {
    && s.latency >= 0
    && (forall i :: 0 <= i < |s.phases| ==> s.phases[i].duration >= 0)
    && PhaseSum(s.phases) <= s.latency
  }

  function LongestPhase(phases: seq<PhaseLatency>): (r: PhaseLatency)
    requires phases != []
  {
    if |phases| == 1 then phases[0]
    else
      var best, last := LongestPhase(phases[..|phases| - 1]), phases[|phases| - 1];
      if last.duration > best.duration then last else best
  }

  function DominantPhase(s: TailSample): Phase {
    if s.phases == [] then OtherPhase else LongestPhase(s.phases).phase
  }

  /** The dominant phase of a sample is the first longest one in the order the source
      reported them. */
  lemma {:induction false} LongestIsFirst(phases: seq<PhaseLatency>) returns (i: nat)
    requires phases != []
    ensures i < |phases| && phases[i] == LongestPhase(phases)
    ensures forall j :: 0 <= j < |phases| ==> phases[j].duration <= phases[i].duration
    ensures forall j :: 0 <= j < i ==> phases[j].duration < phases[i].duration
  {
    if |phases| == 1 {
      i := 0;
    } else {
      var init := phases[..|phases| - 1];
      i := LongestIsFirst(init);
      if phases[|phases| - 1].duration > init[i].duration {
        i := |phases| - 1;
      }
      forall j | 0 <= j < |phases| ensures phases[j].duration <= phases[i].duration {
        assert j < |init| ==> init[j] == phases[j];
      }
      forall j | 0 <= j < i ensures phases[j].duration < phases[i].duration {
        assert init[j] == phases[j];
      }
    }
  }

  predicate Longest(phases: seq<PhaseLatency>, i: int) {
    0 <= i < |phases| && forall j :: 0 <= j < |phases| ==> phases[j].duration <= phases[i].duration
  }

  predicate FirstLongest(phases: seq<PhaseLatency>, i: int) {
    Longest(phases, i) && forall j :: 0 <= j < i ==> phases[j].duration < phases[i].duration
  }

  /** The dominant phase is the smallest in phase order among the longest if and only if the
      one of them that was reported first is. */
  lemma PhaseOrderIff(s: TailSample)
    requires s.phases != []
    ensures (forall j :: Longest(s.phases, j) ==> PhaseCode(DominantPhase(s)) <= PhaseCode(s.phases[j].phase))
      <==> (forall i, j :: FirstLongest(s.phases, i) && Longest(s.phases, j) ==>
              PhaseCode(s.phases[i].phase) <= PhaseCode(s.phases[j].phase))
  {
    hide PhaseCode;
    var first := LongestIsFirst(s.phases);
    assert FirstLongest(s.phases, first);
    forall i | FirstLongest(s.phases, i) ensures i == first {
      assert s.phases[i].duration == s.phases[first].duration;
    }
  }

  /** The comment in the source promises ties by phase order; the code takes report order. */
  lemma TiesFollowReportOrder()
    ensures DominantPhase(TailSample(9, 1, 0, [PhaseLatency(Execution, 4), PhaseLatency(QueueWait, 4)], 0, 0, 0, 0))
      == Execution
    ensures PhaseCode(QueueWait) < PhaseCode(Execution)
  {
    var phases := [PhaseLatency(Execution, 4), PhaseLatency(QueueWait, 4)];
    assert phases[..1] == [PhaseLatency(Execution, 4)];
  }

  // ---- the tail bucket -------------------------------------------------------------

  function AtOrAbove(cutoff: int): TailSample -> bool {
    (s: TailSample) => s.latency >= cutoff
  }

  function InsertSlow(x: TailSample, rest: seq<TailSample>): seq<TailSample> {
    if rest == [] || x.latency >= rest[0].latency then [x] + rest
    else [rest[0]] + InsertSlow(x, rest[1..])
  }

  /** A stable sort, slowest first. */
  function SlowestFirst(s: seq<TailSample>): seq<TailSample> {
    if s == [] then [] else InsertSlow(s[0], SlowestFirst(s[1..]))
  }

  const FALLBACK_TAIL := 64

  function SlowHandful(s: seq<TailSample>): seq<TailSample> {
    var sorted := SlowestFirst(s);
    if |sorted| <= FALLBACK_TAIL then sorted else sorted[..FALLBACK_TAIL]
  }

  function TailBucket(samples: seq<TailSample>, cutoff: int): seq<TailSample> {
    var above := if cutoff > 0 then Filter(AtOrAbove(cutoff), samples) else [];
    if above == [] then SlowHandful(samples) else above
  }

  lemma {:induction false} InsertSlowElements(x: TailSample, rest: seq<TailSample>)
    ensures multiset(InsertSlow(x, rest)) == multiset(rest) + multiset{x}
  {
    if rest == [] || x.latency >= rest[0].latency {
    } else {
      InsertSlowElements(x, rest[1..]);
      assert rest == [rest[0]] + rest[1..];
    }
  }

  lemma {:induction false} SlowestFirstElements(s: seq<TailSample>)
    ensures multiset(SlowestFirst(s)) == multiset(s)
    ensures |SlowestFirst(s)| == |s|
  {
    if s != [] {
      SlowestFirstElements(s[1..]);
      InsertSlowElements(s[0], SlowestFirst(s[1..]));
      assert s == [s[0]] + s[1..];
      assert |multiset(SlowestFirst(s))| == |multiset(s)|;
    }
  }

  predicate Descending(s: seq<TailSample>) {
    forall i, j :: 0 <= i < j < |s| ==> s[i].latency >= s[j].latency
  }

  lemma {:induction false} InsertSlowOrder(x: TailSample, rest: seq<TailSample>)
    requires Descending(rest)
    ensures Descending(InsertSlow(x, rest))
  {
    if rest != [] && x.latency < rest[0].latency {
      var tail := InsertSlow(x, rest[1..]);
      InsertSlowOrder(x, rest[1..]);
      InsertSlowElements(x, rest[1..]);
      forall i | 0 <= i < |tail| ensures rest[0].latency >= tail[i].latency {
        assert tail[i] in multiset(rest[1..]) + multiset{x};
      }
    }
  }

  lemma {:induction false} SlowestFirstOrder(s: seq<TailSample>)
    ensures Descending(SlowestFirst(s))
  {
    if s != [] {
      SlowestFirstOrder(s[1..]);
      InsertSlowOrder(s[0], SlowestFirst(s[1..]));
    }
  }

  /** When nothing reaches the cutoff, the bucket is the slowest 64 samples, or all of them if
      there are fewer: no sample left out is slower than one taken. */
  lemma FallbackTakesSlowest(samples: seq<TailSample>, cutoff: int) returns (others: seq<TailSample>)
    requires cutoff <= 0 || forall s :: s in samples ==> s.latency < cutoff
    ensures var tail := TailBucket(samples, cutoff);
      && |tail| == (if |samples| <= 64 then |samples| else 64)
      && multiset(tail) + multiset(others) == multiset(samples)
      && forall x, y :: x in tail && y in others ==> x.latency >= y.latency
  {
    SlowestFirstElements(samples);
    SlowestFirstOrder(samples);
    var sorted := SlowestFirst(samples);
    if cutoff > 0 {
      FilterNone(AtOrAbove(cutoff), samples);
    }
    others := if |sorted| <= FALLBACK_TAIL then [] else sorted[FALLBACK_TAIL..];
    assert |sorted| > FALLBACK_TAIL ==> sorted == sorted[..FALLBACK_TAIL] + sorted[FALLBACK_TAIL..];
  }

  lemma TailBucketMembers(samples: seq<TailSample>, cutoff: int)
    ensures forall s :: s in TailBucket(samples, cutoff) ==> s in samples
    ensures samples != [] ==> TailBucket(samples, cutoff) != []
  {
    FilterMembers(AtOrAbove(cutoff), samples);
    SlowestFirstElements(samples);
    forall s | s in SlowHandful(samples) ensures s in samples {
      assert s in SlowestFirst(samples);
      assert s in multiset(SlowestFirst(samples));
    }
  }

  lemma {:induction false} CountAbove(samples: seq<TailSample>, cutoff: int)
    ensures |Filter(AtOrAbove(cutoff), samples)| == |samples| - CountAtMost(Latencies(samples), cutoff - 1)
  {
    if samples != [] {
      assert Latencies(samples)[1..] == Latencies(samples[1..]);
      CountAbove(samples[1..], cutoff);
    }
  }

  /** The bucket the decomposition works on matches the quantile: it is non-empty, holds
      exactly the samples at or above the observed value, and has room for every sample
      from the rank upwards. */
  lemma BucketMatchesQuantile(samples: seq<TailSample>, p: real)
    requires samples != [] && ExactQuantile(Sort(Latencies(samples)), p).value > 0
    ensures var observed := ExactQuantile(Sort(Latencies(samples)), p).value;
      var bucket := TailBucket(samples, observed);
      && (forall s :: s in bucket <==> s in samples && s.latency >= observed)
      && |bucket| == |samples| - CountAtMost(Latencies(samples), observed - 1)
      && |bucket| >= |samples| - Rank(p, |samples|) + 1 >= 1
  {
    var l := Latencies(samples);
    SortSorts(l);
    var observed := ExactQuantile(Sort(l), p).value;
    QuantileTail(l, p);
    CountAbove(samples, observed);
    FilterMembers(AtOrAbove(observed), samples);
  }

  // ---- phase totals ----------------------------------------------------------------

  /** Adds a phase into an ordered list of totals, the std::map keyed by phase. */
  function AddPhase(t: seq<PhaseTotal>, ph: PhaseLatency): seq<PhaseTotal> {
    if t == [] || PhaseCode(ph.phase) < PhaseCode(t[0].phase) then [PhaseTotal(ph.phase, ph.duration)] + t
    else if ph.phase == t[0].phase then [PhaseTotal(ph.phase, t[0].total + ph.duration)] + t[1..]
    else [t[0]] + AddPhase(t[1..], ph)
  }

  function PhasesInto(t: seq<PhaseTotal>, phases: seq<PhaseLatency>): seq<PhaseTotal> {
    if phases == [] then t
    else AddPhase(PhasesInto(t, phases[..|phases| - 1]), phases[|phases| - 1])
  }

  function TotalsOf(tail: seq<TailSample>): seq<PhaseTotal> {
    if tail == [] then []
    else PhasesInto(TotalsOf(tail[..|tail| - 1]), tail[|tail| - 1].phases)
  }

  function TotalLatency(tail: seq<TailSample>): int {
    if tail == [] then 0 else TotalLatency(tail[..|tail| - 1]) + tail[|tail| - 1].latency
  }

  function SumTotals(t: seq<PhaseTotal>): int {
    if t == [] then 0 else t[0].total + SumTotals(t[1..])
  }

  predicate OrderedTotals(t: seq<PhaseTotal>) {
    forall i, j :: 0 <= i < j < |t| ==> PhaseCode(t[i].phase) < PhaseCode(t[j].phase)
  }

  predicate NonNegative(t: seq<PhaseTotal>) {
    forall i :: 0 <= i < |t| ==> t[i].total >= 0
  }

  function TotalFor(t: seq<PhaseTotal>, p: Phase): int {
    if t == [] then 0 else (if t[0].phase == p then t[0].total else 0) + TotalFor(t[1..], p)
  }

  function PhaseTime(phases: seq<PhaseLatency>, p: Phase): int {
    if phases == [] then 0
    else
      var last := phases[|phases| - 1];
      PhaseTime(phases[..|phases| - 1], p) + (if last.phase == p then last.duration else 0)
  }

  function TailPhaseTime(tail: seq<TailSample>, p: Phase): int {
    if tail == [] then 0 else TailPhaseTime(tail[..|tail| - 1], p) + PhaseTime(tail[|tail| - 1].phases, p)
  }

  lemma {:induction false} AddPhaseOrder(t: seq<PhaseTotal>, ph: PhaseLatency)
    requires OrderedTotals(t)
    ensures OrderedTotals(AddPhase(t, ph))
    ensures forall i :: 0 <= i < |AddPhase(t, ph)| ==>
      AddPhase(t, ph)[i].phase == ph.phase || AddPhase(t, ph)[i] in t
  {
    if t == [] || PhaseCode(ph.phase) < PhaseCode(t[0].phase) {
    } else if ph.phase == t[0].phase {
    } else {
      AddPhaseOrder(t[1..], ph);
      var tail := AddPhase(t[1..], ph);
      PhaseCodes(ph.phase, 0);
      PhaseCodes(t[0].phase, 0);
      forall i | 0 <= i < |tail| ensures PhaseCode(t[0].phase) < PhaseCode(tail[i].phase) {
        assert tail[i].phase == ph.phase || tail[i] in t[1..];
      }
    }
  }

  lemma {:induction false} AddPhaseFacts(t: seq<PhaseTotal>, ph: PhaseLatency, p: Phase)
    ensures SumTotals(AddPhase(t, ph)) == SumTotals(t) + ph.duration
    ensures TotalFor(AddPhase(t, ph), p) == TotalFor(t, p) + (if ph.phase == p then ph.duration else 0)
    ensures NonNegative(t) && ph.duration >= 0 ==> NonNegative(AddPhase(t, ph))
  {
    if t == [] || PhaseCode(ph.phase) < PhaseCode(t[0].phase) {
    } else if ph.phase == t[0].phase {
    } else {
      AddPhaseFacts(t[1..], ph, p);
    }
  }

  lemma {:induction false} PhasesIntoFacts(t: seq<PhaseTotal>, phases: seq<PhaseLatency>, p: Phase)
    requires OrderedTotals(t)
    ensures OrderedTotals(PhasesInto(t, phases))
    ensures SumTotals(PhasesInto(t, phases)) == SumTotals(t) + PhaseSum(phases)
    ensures TotalFor(PhasesInto(t, phases), p) == TotalFor(t, p) + PhaseTime(phases, p)
    ensures NonNegative(t) && (forall i :: 0 <= i < |phases| ==> phases[i].duration >= 0) ==>
      NonNegative(PhasesInto(t, phases))
  {
    if phases != [] {
      PhasesIntoFacts(t, phases[..|phases| - 1], p);
      AddPhaseOrder(PhasesInto(t, phases[..|phases| - 1]), phases[|phases| - 1]);
      AddPhaseFacts(PhasesInto(t, phases[..|phases| - 1]), phases[|phases| - 1], p);
    }
  }

  /** The accounting is exact: each total is the time the tail spent in that phase, and on
      reconciled samples the totals together are at most the tail's total latency. */
  lemma {:induction false} TotalsAccount(tail: seq<TailSample>, p: Phase)
    ensures OrderedTotals(TotalsOf(tail))
    ensures TotalFor(TotalsOf(tail), p) == TailPhaseTime(tail, p)
    ensures (forall i :: 0 <= i < |tail| ==> Reconciled(tail[i])) ==>
      NonNegative(TotalsOf(tail)) && SumTotals(TotalsOf(tail)) <= TotalLatency(tail)
  {
    if tail != [] {
      TotalsAccount(tail[..|tail| - 1], p);
      PhasesIntoFacts(TotalsOf(tail[..|tail| - 1]), tail[|tail| - 1].phases, p);
    }
  }

  // ---- dominant phase, contributions, causes ---------------------------------------

  function Dominant(t: seq<PhaseTotal>): PhaseTotal {
    if t == [] then PhaseTotal(OtherPhase, -1)
    else
      var best, kv := Dominant(t[..|t| - 1]), t[|t| - 1];
      if kv.total > best.total || (kv.total == best.total && PhaseCode(kv.phase) < PhaseCode(best.phase)) then kv
      else best
  }

  /** The dominant total is the largest, and among equals the one with the smallest code. */
  lemma {:induction false} DominantIsCanonical(t: seq<PhaseTotal>) returns (k: nat)
    requires t != [] && OrderedTotals(t) && NonNegative(t)
    ensures k < |t| && Dominant(t) == t[k]
    ensures forall i :: 0 <= i < |t| ==> t[i].total <= t[k].total
    ensures forall i :: 0 <= i < |t| && t[i].total == t[k].total ==> PhaseCode(t[k].phase) <= PhaseCode(t[i].phase)
  {
    var last := |t| - 1;
    var init := t[..last];
    k := last;
    if init != [] {
      var best := DominantIsCanonical(init);
      assert forall i :: 0 <= i < last ==> init[i] == t[i];
      if t[last].total <= t[best].total {
        k := best;
      }
    }
  }

  function Contributions(t: seq<PhaseTotal>, dominant: Phase, whole: int): seq<PhaseContribution> {
    if t == [] then []
    else
      var before, kv := Contributions(t[..|t| - 1], dominant, whole), t[|t| - 1];
      if kv.total <= 0 then before
      else before + [PhaseContribution(kv.phase, kv.total, Ratio(kv.total, whole), kv.phase == dominant)]
  }

  /** share >= 0.20, for a share of a positive whole. */
  predicate AtLeastAFifth(part: int, whole: int) {
    whole > 0 && 5 * part >= whole
  }

  function Associated(t: seq<PhaseTotal>, dominant: Phase, whole: int): seq<TailCause> {
    if t == [] then []
    else
      var before, kv := Associated(t[..|t| - 1], dominant, whole), t[|t| - 1];
      if kv.phase == dominant || !AtLeastAFifth(kv.total, whole) then before
      else before + [TailCause(CauseOfPhase(kv.phase), AssociatedContributor, Ratio(kv.total, whole), kv.total)]
  }

  function Matching(tail: seq<TailSample>, dominant: Phase): nat {
    if tail == [] then 0
    else Matching(tail[..|tail| - 1], dominant) + (if DominantPhase(tail[|tail| - 1]) == dominant then 1 else 0)
  }

  datatype Decomposition = Decomposition(contributions: seq<PhaseContribution>, causes: seq<TailCause>)

  const NO_PHASE_EVIDENCE := TailCause(UnknownCause, UnknownAttribution, Ratio(0, 1), 0)

  function Decompose(samples: seq<TailSample>, cutoff: int): Decomposition {
    if samples == [] then Decomposition([], [])
    else
      var tail := TailBucket(samples, cutoff);
      var t, whole := TotalsOf(tail), TotalLatency(tail);
      var d := Dominant(t);
      Decomposition(
        if whole > 0 then Contributions(t, d.phase, whole) else [],
        if t == [] then [NO_PHASE_EVIDENCE]
        else [TailCause(CauseOfPhase(d.phase), DominantContributor, Ratio(Matching(tail, d.phase), |tail|),
                        if d.total < 0 then 0 else d.total)]
             + Associated(t, d.phase, whole))
  }

  function ContributedTime(c: seq<PhaseContribution>): int {
    if c == [] then 0 else ContributedTime(c[..|c| - 1]) + c[|c| - 1].total
  }

  lemma {:induction false} SumSnoc(t: seq<PhaseTotal>)
    requires t != []
    ensures SumTotals(t) == SumTotals(t[..|t| - 1]) + t[|t| - 1].total
  {
    if |t| > 1 {
      SumSnoc(t[1..]);
      assert t[1..][..|t| - 2] == t[..|t| - 1][1..];
    }
  }

  lemma {:induction false} ContributionsSum(t: seq<PhaseTotal>, dominant: Phase, whole: int)
    requires NonNegative(t)
    ensures ContributedTime(Contributions(t, dominant, whole)) == SumTotals(t)
    ensures forall c :: c in Contributions(t, dominant, whole) ==> c.total > 0 && c.share == Ratio(c.total, whole)
  {
    if t != [] {
      var init := t[..|t| - 1];
      ContributionsSum(init, dominant, whole);
      SumSnoc(t);
      var before := Contributions(init, dominant, whole);
      assert forall x :: (before + [x])[..|before|] == before;
    }
  }

  function SumOthers(t: seq<PhaseTotal>, dominant: Phase): int {
    if t == [] then 0
    else SumOthers(t[..|t| - 1], dominant) + (if t[|t| - 1].phase == dominant then 0 else t[|t| - 1].total)
  }

  lemma {:induction false} OthersSplit(t: seq<PhaseTotal>, d: PhaseTotal)
    requires OrderedTotals(t)
    ensures d in t ==> SumTotals(t) == SumOthers(t, d.phase) + d.total
    ensures (forall x :: x in t ==> x.phase != d.phase) ==> SumTotals(t) == SumOthers(t, d.phase)
  {
    hide PhaseCode;
    if t != [] {
      var init, last := t[..|t| - 1], t[|t| - 1];
      SumSnoc(t);
      OthersSplit(init, d);
      assert t == init + [last];
      forall x | x in init ensures x.phase != last.phase {
        var i :| 0 <= i < |init| && init[i] == x;
        assert PhaseCode(t[i].phase) < PhaseCode(t[|t| - 1].phase);
      }
    }
  }

  lemma {:induction false} AssociatedWeight(t: seq<PhaseTotal>, d: PhaseTotal, whole: int)
    requires NonNegative(t) && whole >= 0 && (forall i :: 0 <= i < |t| ==> t[i].total <= d.total)
    ensures 5 * SumOthers(t, d.phase) >= |Associated(t, d.phase, whole)| * whole
    ensures Associated(t, d.phase, whole) != [] ==> whole > 0 && 5 * d.total >= whole
    ensures forall c :: c in Associated(t, d.phase, whole) ==> c.attribution.AssociatedContributor?
  {
    if t != [] {
      var init, last := t[..|t| - 1], t[|t| - 1];
      AssociatedWeight(init, d, whole);
      var k := |Associated(init, d.phase, whole)|;
      assert (k + 1) * whole == k * whole + whole;
    }
  }

  /** With one fifth each and the dominant phase at least as large, there is room for at
      most four associated causes. */
  lemma AtMostFourAssociated(t: seq<PhaseTotal>, whole: int)
    requires t != [] && OrderedTotals(t) && NonNegative(t) && SumTotals(t) <= whole
    ensures |Associated(t, Dominant(t).phase, whole)| <= 4
  {
    var d := Dominant(t);
    var _ := DominantIsCanonical(t);
    OthersSplit(t, d);
    SumNonNegative(t);
    AssociatedWeight(t, d, whole);
    var k := |Associated(t, d.phase, whole)|;
    if k > 4 {
      MulMonotone(5, k, whole);
    }
  }

  lemma {:induction false} SumNonNegative(t: seq<PhaseTotal>)
    requires NonNegative(t)
    ensures SumTotals(t) >= 0
  {
    if t != [] {
      SumNonNegative(t[1..]);
    }
  }

  /** On reconciled samples the shares are positive, add up to at most the whole, and at
      most five causes are named: one dominant (or unknown) and at most four associated. */
  lemma AttributionBounded(samples: seq<TailSample>, cutoff: int)
    requires forall s :: s in samples ==> Reconciled(s)
    ensures var d := Decompose(samples, cutoff);
      var whole := TotalLatency(TailBucket(samples, cutoff));
      && 0 <= ContributedTime(d.contributions) <= whole
      && (forall c :: c in d.contributions ==> c.total > 0 && c.share == Ratio(c.total, whole))
      && |d.causes| <= 5
      && (samples != [] ==> d.causes != [] && !d.causes[0].attribution.AssociatedContributor?)
      && forall i :: 1 <= i < |d.causes| ==> d.causes[i].attribution.AssociatedContributor?
  {
    var tail := TailBucket(samples, cutoff);
    TailBucketMembers(samples, cutoff);
    var t, whole := TotalsOf(tail), TotalLatency(tail);
    TotalsAccount(tail, OtherPhase);
    SumNonNegative(t);
    if samples == [] {
      SlowestFirstElements(samples);
      FilterMembers(AtOrAbove(cutoff), samples);
    } else {
      ContributionsSum(t, Dominant(t).phase, whole);
      if t != [] {
        AtMostFourAssociated(t, whole);
        var _ := DominantIsCanonical(t);
        AssociatedWeight(t, Dominant(t), whole);
      }
    }
  }

  // ---- the procedure ---------------------------------------------------------------

  method DominantPhaseOf(s: TailSample) returns (best: Phase)
    ensures best == DominantPhase(s)
  {
    if |s.phases| == 0 {
      return OtherPhase;
    }
    best := s.phases[0].phase;
    var bestDuration := s.phases[0].duration;
    for i := 1 to |s.phases|
      invariant PhaseLatency(best, bestDuration) == LongestPhase(s.phases[..i])
    {
      assert s.phases[..i + 1][..i] == s.phases[..i];
      if s.phases[i].duration > bestDuration {
        bestDuration := s.phases[i].duration;
        best := s.phases[i].phase;
      }
    }
    assert s.phases[..|s.phases|] == s.phases;
  }

  method PhaseTotals(tail: seq<TailSample>) returns (totals: seq<PhaseTotal>, totalLatency: int)
    ensures totals == TotalsOf(tail) && totalLatency == TotalLatency(tail)
  {
    totals, totalLatency := [], 0;
    for i := 0 to |tail|
      invariant totals == TotalsOf(tail[..i]) && totalLatency == TotalLatency(tail[..i])
    {
      ghost var before := totals;
      assert tail[..i + 1][..i] == tail[..i];
      totalLatency := totalLatency + tail[i].latency;
      var phases := tail[i].phases;
      for j := 0 to |phases|
        invariant totals == PhasesInto(before, phases[..j])
      {
        assert phases[..j + 1][..j] == phases[..j];
        totals := AddPhase(totals, phases[j]);
      }
      assert phases[..|phases|] == phases;
    }
    assert tail[..|tail|] == tail;
  }

  method FindDominant(totals: seq<PhaseTotal>) returns (dominant: Phase, dominantNs: int)
    ensures PhaseTotal(dominant, dominantNs) == Dominant(totals)
  {
    dominant, dominantNs := OtherPhase, -1;
    for i := 0 to |totals|
      invariant PhaseTotal(dominant, dominantNs) == Dominant(totals[..i])
    {
      assert totals[..i + 1][..i] == totals[..i];
      var kv := totals[i];
      if kv.total > dominantNs || (kv.total == dominantNs && PhaseCode(kv.phase) < PhaseCode(dominant)) {
        dominantNs, dominant := kv.total, kv.phase;
      }
    }
    assert totals[..|totals|] == totals;
  }

  method ContributionsOf(totals: seq<PhaseTotal>, dominant: Phase, totalLatency: int)
    returns (out: seq<PhaseContribution>)
    ensures out == Contributions(totals, dominant, totalLatency)
  {
    out := [];
    for i := 0 to |totals|
      invariant out == Contributions(totals[..i], dominant, totalLatency)
    {
      assert totals[..i + 1][..i] == totals[..i];
      var kv := totals[i];
      if kv.total > 0 {
        out := out + [PhaseContribution(kv.phase, kv.total, Ratio(kv.total, totalLatency), kv.phase == dominant)];
      }
    }
    assert totals[..|totals|] == totals;
  }

  method CountMatching(tail: seq<TailSample>, dominant: Phase) returns (matching: nat)
    ensures matching == Matching(tail, dominant)
  {
    matching := 0;
    for i := 0 to |tail|
      invariant matching == Matching(tail[..i], dominant)
    {
      assert tail[..i + 1][..i] == tail[..i];
      var dp := DominantPhaseOf(tail[i]);
      if dp == dominant {
        matching := matching + 1;
      }
    }
    assert tail[..|tail|] == tail;
  }

  method AssociatedCauses(totals: seq<PhaseTotal>, dominant: Phase, totalLatency: int) returns (causes: seq<TailCause>)
    ensures causes == Associated(totals, dominant, totalLatency)
  {
    causes := [];
    for i := 0 to |totals|
      invariant causes == Associated(totals[..i], dominant, totalLatency)
    {
      assert totals[..i + 1][..i] == totals[..i];
      var kv := totals[i];
      if kv.phase != dominant && AtLeastAFifth(kv.total, totalLatency) {
        causes := causes
          + [TailCause(CauseOfPhase(kv.phase), AssociatedContributor, Ratio(kv.total, totalLatency), kv.total)];
      }
    }
    assert totals[..|totals|] == totals;
  }

  method DecomposeTail(w: ObservationWindow, now: int, cutoff: int)
    returns (contributions: seq<PhaseContribution>, causes: seq<TailCause>)
    modifies w
    ensures w.State() == PruneWindow(old(w.State()), now)
    ensures Decomposition(contributions, causes) == Decompose(w.samples, cutoff)
  {
    contributions, causes := [], [];
    var samples := w.SamplesPruned(now);
    if samples == [] {
      return;
    }
    var tail := if cutoff > 0 then Filter(AtOrAbove(cutoff), samples) else [];
    if tail == [] {
      tail := SlowHandful(samples);
    }
    var totals, totalLatency := PhaseTotals(tail);
    var dominant, dominantNs := FindDominant(totals);
    if totalLatency > 0 {
      contributions := ContributionsOf(totals, dominant, totalLatency);
    }
    if totals == [] {
      causes := [NO_PHASE_EVIDENCE];
      return;
    }
    var matching := CountMatching(tail, dominant);
    var associated := AssociatedCauses(totals, dominant, totalLatency);
    causes := [TailCause(CauseOfPhase(dominant), DominantContributor, Ratio(matching, |tail|),
                         if dominantNs < 0 then 0 else dominantNs)] + associated;
  }
}
