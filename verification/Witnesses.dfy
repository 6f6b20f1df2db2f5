/** Governors, reached by calls from a new one, on which the promises that do not always hold
    fail. */
module Witnesses {
  import opened Basics
  import opened Domain
  import opened Codes
  import opened Codecs
  import opened Quantiles
  import opened Windows
  import opened WindowRuns
  import opened Schedules
  import opened Attribution
  import opened Selection
  import opened StateFiles
  import opened Transitions
  import opened WindowTraces
  import opened Evidence
  import opened Revalidation
  import opened Classes
  import opened Hysteresis
  import opened BindingObjective
  import opened DecisionOrder
  import opened Interventions

  // ---- a small governor --------------------------------------------------------------------

  /** The patterns of 50.0 and 0.9. */
  const FIFTY: Bits := 0x4049_0000_0000_0000
  const NINE_TENTHS: Bits := 0x3FEC_CCCC_CCCC_CCCD

  function Decoded(b: Bits): real {
    if b == FIFTY then 50.0 else if b == NINE_TENTHS then 0.9 else 0.0
  }

  const CONFIG := Config(1, 1, 1, 1, Decoded)
  const WINDOW := WindowConfig(RollingTime, 1000, 0, 0)
  const FIRST := Objective(1, 1, FIFTY, 100, WINDOW, 1, 0, true, NINE_TENTHS, 0, None, 0, true)
  const SECOND := FIRST.(id := 2)

  function Setup(objectives: seq<Objective>): seq<Call> {
    [RegisterWorkerCall(1, 1), SetPolicyCall(Policy(1, 1, objectives))]
  }

  /** The objectives are judged on the median, against 100 and, for recovery, 90. */
  function Governor(objectives: seq<Objective>): GovState {
    InitialState(CONFIG, 1).(pol := Policy(1, 1, objectives), boots := map[1 := 1])
  }

  lemma SetUp(objectives: seq<Objective>)
    ensures Run(InitialState(CONFIG, 1), Setup(objectives)) == Governor(objectives)
  {
    hide Run, LoadFile, AfterLifecycle, AfterEvidence;
    TwoCalls(InitialState(CONFIG, 1), RegisterWorkerCall(1, 1), SetPolicyCall(Policy(1, 1, objectives)));
  }

  /** A completed request that spent one unit queueing, and the sample it becomes. */
  function Request(id: nat, latency: int, at: int): RequestLatency {
    RequestLatency(id, 0, 1, 1, 1, 1, 1, at - 1, at, at, at, latency, RequestSuccess, 0, [PhaseLatency(QueueWait, 1)],
      0)
  }

  function Queued(latency: int, at: int): TailSample {
    TailSample(latency, at, at - 1, [PhaseLatency(QueueWait, 1)], 0, 1, 1, 0)
  }

  /** Has the settings of the governor as it was set up. */
  ghost predicate Alike(s: GovState, objectives: seq<Objective>) {
    && s.cfg == CONFIG && s.epoch == 1 && s.pol == Policy(1, 1, objectives) && s.facts == DEFAULT_FACTS
    && s.boots == map[1 := 1] && !s.shuttingDown
  }

  predicate OneOrBoth(objectives: seq<Objective>) {
    objectives == [FIRST] || objectives == [FIRST, SECOND] || objectives == [SECOND, FIRST]
  }

  lemma Admitted(s: GovState, objectives: seq<Objective>, id: nat, latency: int, at: int)
    requires Alike(s, objectives) && id !in s.seen && latency >= 1 && at >= 1
    ensures IngestVerdict(s, Request(id, latency, at)) == Success
    ensures SampleOf(Request(id, latency, at)) == Queued(latency, at)
  {
    OnePhaseFits(PhaseLatency(QueueWait, 1), latency);
  }

  lemma OnePhaseFits(ph: PhaseLatency, total: int)
    requires 0 <= ph.duration <= total
    ensures PhasesFit([ph], total)
  {
    assert [ph][..0] == [] && PhaseSum([]) == 0 && PhaseSum([ph]) == ph.duration;
    assert PhasesFit([], total);
  }

  lemma EnabledOnce(objectives: seq<Objective>, o: Objective)
    requires OneOrBoth(objectives) && o in objectives
    ensures EnabledWith(objectives, o.id) == 1
  {
    var n := |objectives|;
    assert objectives[..1][..0] == [] && EnabledWith([], o.id) == 0;
    assert objectives[..1] == [objectives[0]];
    if n == 2 {
      assert objectives[..2 - 1] == objectives[..1];
    }
  }

  /** An accepted request enters the objective's window and touches neither its state nor its
      streak. */
  lemma Ingested(s: GovState, objectives: seq<Objective>, o: Objective, id: nat, latency: int, at: int)
    requires Alike(s, objectives) && OneOrBoth(objectives) && o in objectives
    requires id !in s.seen && latency >= 1 && at >= 1
    ensures var t := Next(s, IngestCall(Request(id, latency, at)));
      && t == s.(windows := t.windows, seen := s.seen[id := 0], reval := t.reval) && Alike(t, objectives)
      && At(t, WindowKey(o.id, 0)) == InsertSample(At(s, WindowKey(o.id, 0)), Queued(latency, at))
      && LastOf(t, o.id) == LastOf(s, o.id) && !GetOr(t.reval, o.id, false)
  {
    hide IngestInto, IngestVerdict, SampleOf, At, RunOps, Hits, InsertSample, LastOf;
    var key, x := WindowKey(o.id, 0), Queued(latency, at);
    Admitted(s, objectives, id, latency, at);
    IngestIntoAt(s, objectives, x, key);
    HitsCount(objectives, key, x);
    EnabledOnce(objectives, o);
    RepeatMore(At(s, key), InsertOp(x), 0);
    IngestKeepsLast(s, Request(id, latency, at));
    SameLast(s, Ingest(s, Request(id, latency, at)).0, o.id);
    IngestIntoFlag(s, objectives, x, o.id);
    SameWindow(IngestInto(s, objectives, x), Next(s, IngestCall(Request(id, latency, at))), key);
  }

  lemma SameLast(s: GovState, t: GovState, objective: nat)
    requires t.lastState == s.lastState && t.streak == s.streak
    ensures LastOf(t, objective) == LastOf(s, objective)
  {
  }

  lemma SameWindow(s: GovState, t: GovState, key: WindowKey)
    requires t.windows == s.windows && t.pol == s.pol
    ensures At(t, key) == At(s, key)
  {
  }

  lemma Evaluates(s: GovState, now: int)
    requires Alike(s, [FIRST])
    ensures Evaluated(s, 1) == Some(FIRST)
    ensures Next(s, EvaluateCall(1, now)) == EvaluateObjective(s, FIRST, now).0
  {
    hide EvaluateObjective;
  }

  lemma AfterEvaluation(s: GovState, now: int)
    requires Alike(s, [FIRST]) && !GetOr(s.reval, 1, false)
    ensures var t := Next(s, EvaluateCall(1, now));
      && Alike(t, [FIRST]) && t.seen == s.seen && !GetOr(t.reval, 1, false)
      && At(t, WindowKey(1, 0)) == SortWindow(At(s, WindowKey(1, 0)), now)
      && LastOf(t, 1) == AfterEvent(LastOf(s, 1).0, LastOf(s, 1).1, EventOf(s, FIRST, now))
  {
    hide Next, Assess, EventOf, AfterEvent, LastOf, At, SortWindow, StateOf, SufficiencyOf, EvaluatedWindow;
    Evaluates(s, now);
    EvaluationEvent(s, FIRST, now);
    EvaluateObjectiveAt(s, FIRST, now, WindowKey(1, 0));
  }

  // ---- what a window with at most one live sample says ---------------------------------------

  /** The objective's window shows these samples. */
  predicate Shows(s: GovState, o: Objective, now: int, samples: seq<TailSample>) {
    && (o == FIRST || o == SECOND) && s.cfg.read(FIFTY) == 50.0 && s.cfg.read(NINE_TENTHS) == 0.9
    && !GetOr(s.reval, o.id, false)
    && SortWindow(At(s, WindowKey(o.id, 0)), now) == Window(WINDOW, samples, Latencies(samples), false)
  }

  lemma Threshold(s: GovState, o: Objective)
    requires (o == FIRST || o == SECOND) && s.cfg.read(FIFTY) == 50.0 && s.cfg.read(NINE_TENTHS) == 0.9
    ensures RecoveryThreshold(s.cfg, o) == 90 && EffectiveMinSamples(s.cfg, o) == 1
  {
    assert 100 as real * 0.9 == 90.0;
  }

  lemma MedianOfOne(v: int)
    ensures ExactQuantile([v], 50.0) == Some(v)
  {
  }

  lemma OneSample(s: GovState, o: Objective, now: int, x: TailSample)
    requires Shows(s, o, now, [x])
    ensures EventOf(s, o, now) == Judged(Reading(x.latency, 100, 90))
    ensures Assess(s, o, now).state
      == Judge(GetOr(s.lastState, o.id, Healthy), GetOr(s.streak, o.id, 0), x.latency, 100, 90).0
    ensures Assess(s, o, now).choice == Select(Decompose([x], x.latency).causes, x.latency, 90, s.facts)
    ensures Assess(s, o, now).objective == o.id
  {
    hide SortWindow, Decompose, Select, ExactQuantile, Judge, ReportedSet, CurrentAuthority, RecoveryThreshold,
      EffectiveMinSamples;
    Threshold(s, o);
    assert Latencies([x]) == [x.latency];
    assert EvaluatedWindow(s, o, now) == Window(WINDOW, [x], [x.latency], false);
    MedianOfOne(x.latency);
  }

  lemma NoSample(s: GovState, o: Objective, now: int)
    requires Shows(s, o, now, [])
    ensures EventOf(s, o, now) == Bypass(InsufficientEvidence)
  {
    hide SortWindow, ExactQuantile, Judge, RecoveryThreshold, EffectiveMinSamples;
    Threshold(s, o);
    assert EvaluatedWindow(s, o, now) == Window(WINDOW, [], [], false);
  }

  lemma SortOne(v: int)
    ensures Sort([v]) == [v]
  {
    assert [v][1..] == [];
  }

  lemma ShowsOne(w: Window, now: int, x: TailSample)
    requires w.cfg == WINDOW && w.dirty && w.samples == [x] && x.captured >= now - 1000
    ensures SortWindow(w, now) == Window(WINDOW, [x], Latencies([x]), false)
  {
    FilterAll(NotBefore(now - 1000), [x]);
    assert Latencies([x]) == [x.latency];
    SortOne(x.latency);
  }

  lemma ShowsSecond(w: Window, now: int, gone: TailSample, x: TailSample)
    requires w.cfg == WINDOW && w.dirty && w.samples == [gone, x] && gone.captured < now - 1000 <= x.captured
    ensures SortWindow(w, now) == Window(WINDOW, [x], Latencies([x]), false)
  {
    var keep := NotBefore(now - 1000);
    FilterNone(keep, [gone]);
    FilterAll(keep, [x]);
    FilterAppend(keep, [gone], [x]);
    assert [gone] + [x] == [gone, x];
    assert Latencies([x]) == [x.latency];
    SortOne(x.latency);
  }

  lemma ShowsNone(w: Window, now: int, gone: TailSample)
    requires w.cfg == WINDOW && w.samples == [gone] && gone.captured < now - 1000
    ensures SortWindow(w, now) == Window(WINDOW, [], [], false)
  {
    FilterNone(NotBefore(now - 1000), [gone]);
    assert Latencies([]) == [] && Sort([]) == [];
  }

  // ---- hysteresis --------------------------------------------------------------------------

  const BAD := Queued(150, 500)
  const GOOD := Queued(1, 2000)
  const INGEST_BAD := IngestCall(Request(1, 150, 500))
  const INGEST_GOOD := IngestCall(Request(2, 1, 2000))

  lemma NewWindowAt(objectives: seq<Objective>, o: Objective)
    requires OneOrBoth(objectives) && o in objectives
    ensures At(Governor(objectives), WindowKey(o.id, 0)) == NewWindow(WINDOW)
    ensures LastOf(Governor(objectives), o.id) == (Healthy, 0) && Alike(Governor(objectives), objectives)
  {
    assert FindObjective(objectives, o.id).Some?;
  }

  /** The state after a slow request was judged. */
  ghost predicate Breached(s: GovState) {
    && Alike(s, [FIRST]) && LastOf(s, 1) == (Violating, 0) && s.seen == map[1 := 0] && !GetOr(s.reval, 1, false)
    && At(s, WindowKey(1, 0)) == Window(WINDOW, [BAD], [150], false)
  }

  lemma BreachReached()
    ensures Breached(Run(InitialState(CONFIG, 1), Setup([FIRST]) + [INGEST_BAD, EvaluateCall(1, 500)]))
  {
    hide Run, Next, Alike, At, LastOf, EventOf, SortWindow;
    var s := Governor([FIRST]);
    SetUp([FIRST]);
    RunOn(InitialState(CONFIG, 1), Setup([FIRST]), [INGEST_BAD, EvaluateCall(1, 500)]);
    TwoCalls(s, INGEST_BAD, EvaluateCall(1, 500));
    NewWindowAt([FIRST], FIRST);
    Ingested(s, [FIRST], FIRST, 1, 150, 500);
    var t := Next(s, INGEST_BAD);
    ShowsOne(At(t, WindowKey(1, 0)), 500, BAD);
    assert Latencies([BAD]) == [150];
    ReadsPlain(t);
    OneSample(t, FIRST, 500, BAD);
    AfterEvaluation(t, 500);
  }

  lemma ReadsPlain(s: GovState)
    requires Alike(s, [FIRST])
    ensures s.cfg.read(FIFTY) == 50.0 && s.cfg.read(NINE_TENTHS) == 0.9 && s.pol.objectives == [FIRST]
  {
  }

  /** A good request that the window shows alone is judged as such. */
  lemma GoodJudged(s: GovState)
    requires Alike(s, [FIRST]) && 2 !in s.seen
    requires SortWindow(InsertSample(At(s, WindowKey(1, 0)), GOOD), 2000)
      == Window(WINDOW, [GOOD], Latencies([GOOD]), false)
    ensures LastOf(Next(Next(s, INGEST_GOOD), EvaluateCall(1, 2000)), 1)
      == Judge(LastOf(s, 1).0, LastOf(s, 1).1, 1, 100, 90)
  {
    hide Next, Alike, At, LastOf, EventOf, SortWindow, InsertSample, Judge, Latencies;
    Ingested(s, [FIRST], FIRST, 2, 1, 2000);
    var t := Next(s, INGEST_GOOD);
    ReadsPlain(t);
    OneSample(t, FIRST, 2000, GOOD);
    AfterEvaluation(t, 2000);
  }

  /** A good reading right after the breach. */
  lemma DirectRecovery(s: GovState)
    requires Breached(s)
    ensures LastOf(Next(Next(s, INGEST_GOOD), EvaluateCall(1, 2000)), 1).0 == Recovering
  {
    hide Next, Alike, At, LastOf, SortWindow;
    assert [BAD] + [GOOD] == [BAD, GOOD];
    ShowsSecond(InsertSample(At(s, WindowKey(1, 0)), GOOD), 2000, BAD, GOOD);
    GoodJudged(s);
  }

  /** The state after an evaluation that found no sample any more. */
  ghost predicate Bypassed(s: GovState) {
    && Alike(s, [FIRST]) && LastOf(s, 1) == (InsufficientEvidence, 0) && s.seen == map[1 := 0]
    && !GetOr(s.reval, 1, false) && At(s, WindowKey(1, 0)) == Window(WINDOW, [], [], false)
  }

  lemma BypassReached(s: GovState)
    requires Breached(s)
    ensures Bypassed(Next(s, EvaluateCall(1, 2000)))
  {
    hide Next, Alike, At, LastOf, EventOf, SortWindow;
    ShowsNone(At(s, WindowKey(1, 0)), 2000, BAD);
    ReadsPlain(s);
    assert Latencies([]) == [];
    NoSample(s, FIRST, 2000);
    AfterEvaluation(s, 2000);
  }

  /** A good reading after such an evaluation. */
  lemma BypassedRecovery(s: GovState)
    requires Bypassed(s)
    ensures LastOf(Next(Next(s, INGEST_GOOD), EvaluateCall(1, 2000)), 1).0 == Healthy
  {
    hide Next, Alike, At, LastOf, SortWindow;
    assert [] + [GOOD] == [GOOD];
    ShowsOne(InsertSample(At(s, WindowKey(1, 0)), GOOD), 2000, GOOD);
    GoodJudged(s);
  }

  /** From a new governor: a slow request is judged VIOLATING; later one good reading gives
      RECOVERING, but HEALTHY if the objective was evaluated once in between, after the slow
      sample had expired. */
  lemma StaleEvaluationSkipsHysteresis()
    ensures var breach := Run(InitialState(CONFIG, 1), Setup([FIRST]) + [INGEST_BAD, EvaluateCall(1, 500)]);
      && LastOf(breach, 1).0 == Violating
      && LastOf(Run(breach, [INGEST_GOOD, EvaluateCall(1, 2000)]), 1).0 == Recovering
      && LastOf(Run(breach, [EvaluateCall(1, 2000), INGEST_GOOD, EvaluateCall(1, 2000)]), 1).0 == Healthy
  {
    hide Run, Next, Alike, At, LastOf;
    var breach := Run(InitialState(CONFIG, 1), Setup([FIRST]) + [INGEST_BAD, EvaluateCall(1, 500)]);
    BreachReached();
    TwoCalls(breach, INGEST_GOOD, EvaluateCall(1, 2000));
    ThreeCalls(breach, EvaluateCall(1, 2000), INGEST_GOOD, EvaluateCall(1, 2000));
    DirectRecovery(breach);
    BypassReached(breach);
    BypassedRecovery(Next(breach, EvaluateCall(1, 2000)));
  }

  // ---- the order of the policy ---------------------------------------------------------------

  /** Two objectives, alike but for their ids, after one request. */
  function Pair(objectives: seq<Objective>, latency: int): GovState {
    Run(InitialState(CONFIG, 1), Setup(objectives) + [IngestCall(Request(1, latency, 500))])
  }

  lemma PairAssessed(objectives: seq<Objective>, o: Objective, latency: int)
    requires |objectives| == 2 && OneOrBoth(objectives) && o in objectives && latency >= 1
    ensures var s := Pair(objectives, latency);
      && s.pol.objectives == objectives && !s.shuttingDown
      && Assess(s, o, 500).state == Judge(Healthy, 0, latency, 100, 90).0 && Assess(s, o, 500).objective == o.id
  {
    hide Run, Next, At, LastOf, EventOf, SortWindow, Assess, Judge;
    var s, x := Governor(objectives), Queued(latency, 500);
    SetUp(objectives);
    OneMoreCall(InitialState(CONFIG, 1), Setup(objectives), IngestCall(Request(1, latency, 500)));
    NewWindowAt(objectives, o);
    Ingested(s, objectives, o, 1, latency, 500);
    var t := Next(s, IngestCall(Request(1, latency, 500)));
    assert [] + [x] == [x];
    ShowsOne(At(t, WindowKey(o.id, 0)), 500, x);
    OneSample(t, o, 500, x);
    LastIsHealthy(t, o.id);
  }

  lemma LastIsHealthy(s: GovState, objective: nat)
    ensures LastOf(s, objective) == (GetOr(s.lastState, objective, Healthy), GetOr(s.streak, objective, 0))
  {
  }

  lemma AssessPair(s: GovState, o: Objective, other: Objective)
    requires o.enabled && other.enabled
    ensures AssessEnabled(s, [o, other], 500) == [Assess(s, o, 500), Assess(s, other, 500)]
  {
    hide Assess;
    assert [o][..0] == [] && AssessEnabled(s, [o], 500) == [Assess(s, o, 500)];
    assert [o, other][..1] == [o];
  }

  /** What a decision reports about two such objectives, none of them violated. */
  lemma FirstReported(o: Objective, other: Objective, latency: int)
    requires ((o == FIRST && other == SECOND) || (o == SECOND && other == FIRST)) && 1 <= latency < 100
    ensures var d := Decide(Pair([o, other], latency), 500).1;
      d.Ok? && d.value.evaluation.Some? && d.value.evaluation.value.objective == o.id
    ensures var b := Binding([o, other], EvaluateAll(Pair([o, other], latency), 500).1);
      if latency > 90 then b.Some? && b.value.objective == o.id else b.None?
    ensures ClearCut(Pair([o, other], latency), 500) <==> latency <= 90
  {
    hide Assess, EvaluateAll, Binding, AssessEnabled, Pair, Decide, Concluded;
    var p, s := [o, other], Pair([o, other], latency);
    PairAssessed(p, o, latency);
    PairAssessed(p, other, latency);
    AssessPair(s, o, other);
    BindingFromAssessments(s, 500);
    DecisionFromAssessments(s, 500);
    var xs, b := AssessEnabled(s, p, 500), Binding(p, EvaluateAll(s, 500).1);
    FirstIrrelevant(s, ErasedOption(b), FirstOf(xs), FirstOf(xs), 500);
    assert xs[0] == Assess(s, o, 500) && xs[1] == Assess(s, other, 500) && xs[0] in xs && xs[1] in xs;
    forall i | 0 <= i < |xs| ensures !Degrading(xs[i]) && xs[i].state == xs[0].state {
      assert i == 0 || i == 1;
    }
    FirstAtRiskExists(xs);
  }

  /** Two objectives at risk: the first of them in the policy binds, so that swapping them changes
      what a decision acts on. */
  lemma OrderDecidesAtRisk()
    ensures var a := Binding([FIRST, SECOND], EvaluateAll(Pair([FIRST, SECOND], 95), 500).1);
      a.Some? && a.value.objective == 1
    ensures var b := Binding([SECOND, FIRST], EvaluateAll(Pair([SECOND, FIRST], 95), 500).1);
      b.Some? && b.value.objective == 2
    ensures !ClearCut(Pair([FIRST, SECOND], 95), 500)
  {
    hide EvaluateAll, Binding, Pair;
    FirstReported(FIRST, SECOND, 95);
    FirstReported(SECOND, FIRST, 95);
  }

  /** Two healthy objectives: nothing binds in either order, yet the decision reports the one that
      the policy lists first. */
  lemma OrderShowsWhenHealthy()
    ensures ClearCut(Pair([FIRST, SECOND], 1), 500)
    ensures var a := Decide(Pair([FIRST, SECOND], 1), 500).1;
      a.Ok? && a.value.evaluation.Some? && a.value.evaluation.value.objective == 1
    ensures var b := Decide(Pair([SECOND, FIRST], 1), 500).1;
      b.Ok? && b.value.evaluation.Some? && b.value.evaluation.value.objective == 2
  {
    hide Decide, Pair;
    FirstReported(FIRST, SECOND, 1);
    FirstReported(SECOND, FIRST, 1);
  }

  // ---- one class pushing out another -----------------------------------------------------------

  /** An objective with room for one sample per window. */
  const COUNTED := FIRST.(window := WindowConfig(RollingCount, 0, 1, 0))

  function OfOneClass(id: nat): Call {
    IngestCall(Request(id, 10, 500).(requestClass := id))
  }

  function SampleOfOne(id: nat): TailSample {
    Queued(10, 500).(requestClass := id)
  }

  const CROSSED := [OfOneClass(1), OfOneClass(2)]

  lemma OneClassAdmitted(s: GovState, id: nat)
    requires Alike(s, [COUNTED]) && id !in s.seen
    ensures IngestVerdict(s, OfOneClass(id).ev) == Success && SampleOf(OfOneClass(id).ev) == SampleOfOne(id)
  {
    OnePhaseFits(PhaseLatency(QueueWait, 1), 10);
  }

  lemma OneClassInserted(s: GovState, id: nat)
    requires Alike(s, [COUNTED]) && id !in s.seen
    ensures Alike(Next(s, OfOneClass(id)), [COUNTED]) && Next(s, OfOneClass(id)).seen == s.seen[id := 0]
    ensures WindowOps(s, OfOneClass(id), WindowKey(1, 0)) == [InsertOp(SampleOfOne(id))]
  {
    hide IngestInto, At, RunOps, Hits, IngestVerdict, SampleOf;
    var x := SampleOfOne(id);
    OneClassAdmitted(s, id);
    IngestIntoAt(s, [COUNTED], x, WindowKey(1, 0));
    HitsCount([COUNTED], WindowKey(1, 0), x);
    assert [COUNTED][..0] == [] && EnabledWith([COUNTED], 1) == 1;
    assert Repeat(InsertOp(x), 1) == [InsertOp(x)];
  }

  lemma TwoInserts(s: GovState, a: Call, b: Call, key: WindowKey, x: TailSample, y: TailSample)
    requires a.IngestCall? && b.IngestCall? && x.latency >= 0 && y.latency >= 0
    requires WindowOps(s, a, key) == [InsertOp(x)] && WindowOps(Next(s, a), b, key) == [InsertOp(y)]
    ensures History(Trace(s, [a, b], key)) == [x, y]
  {
    hide Next, WindowOps;
    OneCall(s, a);
    assert [a, b][..1] == [a] && [a][..0] == [];
    assert Trace(s, [a], key) == [InsertOp(x)];
    assert Trace(s, [a, b], key) == [InsertOp(x), InsertOp(y)];
    assert [InsertOp(x), InsertOp(y)][..1] == [InsertOp(x)] && [InsertOp(x)][..0] == [];
    assert History([InsertOp(x)]) == [x];
  }

  lemma CrossedHistory()
    ensures History(Trace(Governor([COUNTED]), CROSSED, WindowKey(1, 0))) == [SampleOfOne(1), SampleOfOne(2)]
  {
    hide Next, WindowOps, Alike, Trace, History, Governor;
    var s := Governor([COUNTED]);
    CountedSettings();
    OneClassInserted(s, 1);
    OneClassInserted(Next(s, OfOneClass(1)), 2);
    TwoInserts(s, OfOneClass(1), OfOneClass(2), WindowKey(1, 0), SampleOfOne(1), SampleOfOne(2));
  }

  lemma CountedSettings()
    ensures Alike(Governor([COUNTED]), [COUNTED]) && Governor([COUNTED]).seen == map[]
  {
  }

  /** A sample of class 1 and then one of class 2: the window of class 1 retains a sample that the
      window of all classes does not. */
  lemma ClassesCross()
    ensures !Isolated(Run(InitialState(CONFIG, 1), Setup([COUNTED]) + CROSSED), 1, 1, 500)
  {
    hide Run, Isolated, Trace, History;
    var s, h := Governor([COUNTED]), [SampleOfOne(1), SampleOfOne(2)];
    SetUp([COUNTED]);
    RunOn(InitialState(CONFIG, 1), Setup([COUNTED]), CROSSED);
    CrossedHistory();
    ShareCapReads(COUNTED.window, 500, h, 1);
    assert WindowConfigFor(s.pol.objectives, 1) == COUNTED.window;
    RetainedIsolationIff(s, CROSSED, 1, 1, 500);
    assert Cap(COUNTED.window) == Some(1) && Unexpired(COUNTED.window, 500, h) == h;
    assert h[0].requestClass == 1 && h[1].requestClass == 2;
  }

  // ---- three ways to lose a terminal status -------------------------------------------------

  const PLAIN := Governor([FIRST])

  /** A proposal by hand, with the authority of the moment. */
  function ByHand(id: nat): Intervention {
    Intervention(id, 0, Escalate, Proposed, UnknownCause, 0, CurrentAuthority(PLAIN, FIRST), 1, 1, 0, Feasible, 0, 0, 0)
  }

  /** It gets the id 1 either way: as the next one, or because the caller asks for it. */
  function Granted(id: nat): Intervention {
    ByHand(id).(id := 1, generation := if id == 0 then 2 else 1, status := Authorized, proposedAt := 500)
  }

  function Pending(id: nat): GovState {
    PLAIN.(interventions := map[1 := Granted(id)], lastIntervention := map[1 := 500], nextInt := if id == 0 then 2
      else 1)
  }

  function Settled(id: nat): GovState {
    Pending(id).(interventions := map[1 := Granted(id).(status := Effective)], outcomes := map[1 := WasEffective])
  }

  const RECORD := RecordOutcomeCall(1, WasEffective)

  lemma FindFirst()
    ensures FindObjective([FIRST], 1) == Some(FIRST)
  {
  }

  lemma PendingReached(id: nat)
    requires id <= 1
    ensures Run(InitialState(CONFIG, 1), Setup([FIRST]) + [AuthorizeCall(ByHand(id), 500)]) == Pending(id)
  {
    hide Run, AfterEvidence, AfterSettings;
    SetUp([FIRST]);
    OneMoreCall(InitialState(CONFIG, 1), Setup([FIRST]), AuthorizeCall(ByHand(id), 500));
    FindFirst();
  }

  lemma SettledNext(id: nat)
    ensures Next(Pending(id), RECORD) == Settled(id)
  {
    hide AfterEvidence, AfterSettings, Authorize, Dispatch, Acknowledge, Cancel, Supersede;
  }

  /** Everything up to a recorded outcome, by calls on a new governor. */
  lemma SettledReached(id: nat)
    requires id <= 1
    ensures Run(InitialState(CONFIG, 1), Setup([FIRST]) + [AuthorizeCall(ByHand(id), 500), RECORD]) == Settled(id)
  {
    hide Run, Next, Pending, Settled;
    var c := AuthorizeCall(ByHand(id), 500);
    PendingReached(id);
    SettledNext(id);
    OneMoreCall(InitialState(CONFIG, 1), Setup([FIRST]) + [c], RECORD);
    assert (Setup([FIRST]) + [c]) + [RECORD] == Setup([FIRST]) + [c, RECORD];
  }

  /** A caller that proposes the id again. */
  lemma AuthorizeOverwrites()
    ensures Settled(0).interventions[1].status == Effective
    ensures Next(Settled(0), AuthorizeCall(ByHand(1), 500)).interventions[1].status == Authorized
  {
    hide AfterEvidence, AfterSettings;
    FindFirst();
  }

  /** The governor whose next id a caller had chosen, once a slow request has come in. */
  function Slow(): GovState {
    Next(Settled(1), INGEST_BAD)
  }

  lemma QueueingCause()
    ensures DominantCause(Decompose([BAD], 150).causes) == Queueing
  {
    var x, ph := BAD, PhaseLatency(QueueWait, 1);
    FilterAll(AtOrAbove(150), [x]);
    assert [x][..0] == [] && x.phases == [ph] && [ph][..0] == [];
    assert PhasesInto([], [ph]) == AddPhase([], ph);
    assert TotalsOf([x]) == [PhaseTotal(QueueWait, 1)];
    assert [PhaseTotal(QueueWait, 1)][..0] == [];
    assert Dominant([PhaseTotal(QueueWait, 1)]) == PhaseTotal(QueueWait, 1);
  }

  lemma SomethingSelected()
    ensures Select(Decompose([BAD], 150).causes, 150, 90, DEFAULT_FACTS).selected != NoAction
  {
    hide Decompose, Choose;
    QueueingCause();
    CandidatesAct(Queueing);
    SelectionIsOptimal(CandidatesForCause(Queueing), DEFAULT_FACTS, 60);
    assert BoundQueueWait in CandidatesForCause(Queueing) && InfeasibilityOf(BoundQueueWait, DEFAULT_FACTS) == Feasible;
  }

  lemma SlowIngested()
    ensures var s := Slow();
      && Alike(s, [FIRST]) && s == Settled(1).(windows := s.windows, seen := s.seen, reval := s.reval)
      && !GetOr(s.reval, 1, false) && At(s, WindowKey(1, 0)) == Window(WINDOW, [BAD], [], true)
  {
    hide Next, LastOf;
    assert At(Settled(1), WindowKey(1, 0)) == NewWindow(WINDOW);
    Ingested(Settled(1), [FIRST], FIRST, 1, 150, 500);
    assert [] + [BAD] == [BAD];
  }

  lemma SlowAssessed()
    ensures var ev := Assess(Slow(), FIRST, 500);
      ev.state == Violating && ev.selected != NoAction && ev.objective == 1
  {
    hide Slow, EventOf, Decompose, Select, SortWindow, Assess, At;
    SlowIngested();
    ShowsOne(At(Slow(), WindowKey(1, 0)), 500, BAD);
    OneSample(Slow(), FIRST, 500, BAD);
    SomethingSelected();
    SelectedAsChosen(Slow(), FIRST);
  }

  lemma SelectedAsChosen(s: GovState, o: Objective)
    ensures var ev := Assess(s, o, 500); ev.selected == ActionFor(ev.state, ev.choice) && ev.objective == o.id
  {
    hide Decompose, Select, SortWindow, ReportedSet, StateOf, SufficiencyOf, ObservedValue, CurrentAuthority;
  }

  lemma AssessOnly(s: GovState)
    ensures AssessEnabled(s, [FIRST], 500) == [Assess(s, FIRST, 500)]
  {
    hide Assess;
    assert [FIRST][..0] == [];
  }

  /** A decision, where the next id is the one that the caller had chosen. */
  lemma DecideOverwrites()
    ensures 1 in Slow().interventions && Slow().interventions[1].status == Effective
    ensures Overwrites(Slow(), DecideCall(500), 1) && !StatusKept(Slow(), Next(Slow(), DecideCall(500)), 1)
  {
    hide Slow, Assess, EvaluateAll, Binding, Next, Erase, At;
    SlowIngested();
    FindFirst();
    SlowAssessed();
    AssessOnly(Slow());
    BindingFromAssessments(Slow(), 500);
    var b := Binding([FIRST], EvaluateAll(Slow(), 500).1);
    assert Degrading(AssessEnabled(Slow(), [FIRST], 500)[0]);
    ErasedAlike(b.value);
    TerminalChangesIff(Slow(), DecideCall(500), 1);
  }

  lemma ErasedAlike(ev: Evaluation)
    ensures Erase(ev).selected == ev.selected && Erase(ev).objective == ev.objective
  {
  }

  // ---- a file of the small governor ----------------------------------------------------------

  function Width(fs: seq<Field>): nat {
    if fs == [] then 0 else fs[0].width + Width(fs[1..])
  }

  lemma {:induction false} WidthOfBytes(fs: seq<Field>)
    ensures |Bytes(fs)| == Width(fs)
  {
    hide LittleEndian;
    if fs != [] {
      WidthOfBytes(fs[1..]);
    }
  }

  lemma WidthFirst(f: Field, rest: seq<Field>)
    ensures Width([f] + rest) == f.width + Width(rest)
  {
    assert ([f] + rest)[1..] == rest;
  }

  lemma InterventionWidth(i: Intervention, rest: seq<Field>)
    ensures Width(InterventionFields(i, rest)) == 89 + Width(rest)
  {
    hide Width, TypeCode, LifecycleCode, CauseCode, ReasonCode;
    forall f: Field, more: seq<Field> ensures Width([f] + more) == f.width + Width(more) {
      WidthFirst(f, more);
    }
    assert Width(EstimateFields(i, rest)) == 37 + Width(rest);
    assert Width(TargetFields(i, EstimateFields(i, rest))) == 28 + 37 + Width(rest);
  }

  lemma ObjectiveWidth(o: Objective, rest: seq<Field>)
    requires o.classScope.None?
    ensures Width(ObjectiveFields(o, rest)) == 99 + Width(rest)
  {
    hide Width, ModeCode;
    forall f: Field, more: seq<Field> ensures Width([f] + more) == f.width + Width(more) {
      WidthFirst(f, more);
    }
    var f1 := [U32(o.priority)] + ([U8(Flag(o.enabled))] + rest);
    assert Width(ScopeFields(o.classScope, f1)) == 6 + Width(rest);
    var f2 := ScopeFields(o.classScope, f1);
    assert Width(LimitFields(o, f2)) == 33 + Width(f2);
    var f3 := LimitFields(o, f2);
    assert Width(WindowFields(o.window, f3)) == 28 + Width(f3);
  }

  lemma PolicyWidth(epoch: nat, pol: Policy, rest: seq<Field>)
    requires |pol.objectives| == 1 && pol.objectives[0].classScope.None?
    ensures Width(PolicyPart(epoch, pol, rest)) == 127 + Width(rest)
  {
    hide Width, ObjectiveFields;
    var o := pol.objectives[0];
    assert pol.objectives[1..] == [];
    var f4 := ObjectiveFields(o, rest);
    assert WriteMany(ObjectiveFields, pol.objectives, rest) == f4;
    ObjectiveWidth(o, rest);
    var f3 := [U32(1)] + f4;
    var f2 := [U64(pol.generation)] + f3;
    WidthFirst(U32(1), f4);
    WidthFirst(U64(pol.generation), f3);
    WidthFirst(U64(pol.id), f2);
    WidthFirst(U64(epoch), [U64(pol.id)] + f2);
  }

  lemma TableWidths(d: Durable)
    requires |d.interventions| == 1 && d.outcomes == map[] && d.reval == map[]
    ensures Width(InterventionPart(d.interventions, OutcomePart(d.outcomes, RevalPart(d.reval, CounterFields(d)))))
      == 117
  {
    hide Width, InterventionFields;
    var f3 := CounterFields(d);
    NoWidth();
    WidthFirst(U64(d.nextInt), []);
    WidthFirst(U64(d.nextEval), [U64(d.nextInt)] + []);
    var f2 := RevalPart(d.reval, f3);
    WidthFirst(U32(0), f3);
    var f1 := OutcomePart(d.outcomes, f2);
    WidthFirst(U32(0), f2);
    var xs := Values(Entries(d.interventions));
    assert |xs| == 1 && WriteMany(InterventionFields, xs[1..], f1) == f1;
    InterventionWidth(xs[0], f1);
    WidthFirst(U32(1), InterventionFields(xs[0], f1));
  }

  lemma SmallFile(epoch: nat, d: Durable)
    requires |d.pol.objectives| == 1 && d.pol.objectives[0].classScope.None?
    requires |d.interventions| == 1 && d.outcomes == map[] && d.reval == map[]
    ensures |Save(epoch, d)| == 264
  {
    hide Width, InterventionPart, OutcomePart, RevalPart, PolicyPart, Framed, Bytes;
    TableWidths(d);
    PolicyWidth(epoch, d.pol,
      InterventionPart(d.interventions, OutcomePart(d.outcomes, RevalPart(d.reval, CounterFields(d)))));
    WidthOfBytes(BodyFields(epoch, d));
    FramedIntact(Bytes(BodyFields(epoch, d)));
  }

  lemma NoWidth()
    ensures Width([]) == 0
  {
  }

  /** A state that saving and loading take as it is. */
  ghost predicate Fits(s: GovState) {
    SavedBy(s, SaveFile(s)) && WithinLimits(DurableOf(s)) && |SaveFile(s)| <= MAX_FILE
  }

  lemma PendingFits()
    ensures Fits(Pending(0))
  {
    hide Save;
    assert Pending(0).interventions.Keys == {1};
    SmallFile(Pending(0).epoch, DurableOf(Pending(0)));
  }

  /** The file of the pending intervention, loaded once the outcome has come in: the intervention
      is authorised again. */
  lemma LoadOverwrites()
    ensures Next(Pending(0), RECORD) == Settled(0) && Settled(0).interventions[1].status == Effective
    ensures Proper(Pending(0), RECORD) && Proper(Settled(0), LoadCall(SaveFile(Pending(0))))
    ensures var t := Next(Settled(0), LoadCall(SaveFile(Pending(0))));
      1 in t.interventions && t.interventions[1].status == Authorized
  {
    hide Proper, SaveFile, Next;
    BothProper();
    SettledNext(0);
    LoadsBack(Settled(0));
  }

  lemma BothProper()
    ensures Proper(Pending(0), RECORD) && Proper(Settled(0), LoadCall(SaveFile(Pending(0))))
  {
    hide SavedBy, SaveFile;
    PendingFits();
    assert SavedBy(Pending(0), SaveFile(Pending(0))) && KeepsIdsBelow(Settled(0), Pending(0));
  }

  lemma LoadsBack(s: GovState)
    ensures var t := Next(s, LoadCall(SaveFile(Pending(0))));
      1 in t.interventions && t.interventions[1].status == Authorized
  {
    hide Save, Load, Representable, Restored, Marked;
    PendingFits();
    LoadOfSave(s, Pending(0));
  }

  // ---- a next id lost in a refused load ----------------------------------------------------------

  /** One objective more than a file may hold flags. */
  function Many(n: nat): seq<Objective> {
    if n == 0 then [] else Many(n - 1) + [FIRST.(id := n)]
  }

  const CROWD := MAX_REVALIDATIONS + 1

  const CROWDING := [SetPolicyCall(Policy(1, 1, Many(CROWD))), AdvanceEpochCall, SetPolicyCall(Policy(1, 1, [FIRST]))]

  /** A settled governor that an advance of the epoch left with more flags than a load takes. */
  function Crowded(): GovState {
    Settled(0).(epoch := 2, reval := Marked(map[], Many(CROWD)))
  }

  lemma CrowdedNext()
    ensures Run(Settled(0), CROWDING) == Crowded()
  {
    hide Run, Marked, Many, AfterEvidence, AfterLifecycle;
    ThreeCalls(Settled(0), CROWDING[0], CROWDING[1], CROWDING[2]);
  }

  lemma CrowdedReached()
    ensures Run(InitialState(CONFIG, 1), Setup([FIRST]) + [AuthorizeCall(ByHand(0), 500), RECORD] + CROWDING)
      == Crowded()
  {
    hide Run, Settled, Crowded;
    SettledReached(0);
    CrowdedNext();
    RunOn(InitialState(CONFIG, 1), Setup([FIRST]) + [AuthorizeCall(ByHand(0), 500), RECORD], CROWDING);
  }

  lemma {:induction false} ManyFlags(n: nat)
    ensures |Marked(map[], Many(n))| == n
    ensures forall k :: k in Marked(map[], Many(n)) ==> 0 < k <= n
  {
    if n > 0 {
      ManyFlags(n - 1);
      assert Many(n)[..|Many(n)| - 1] == Many(n - 1);
    }
  }

  lemma {:induction false} FlagsWidth(es: seq<(int, bool)>, rest: seq<Field>)
    ensures Width(WriteMany(RevalFields, es, rest)) == 9 * |es| + Width(rest)
  {
    hide Width;
    if es != [] {
      var more := WriteMany(RevalFields, es[1..], rest);
      FlagsWidth(es[1..], rest);
      WidthFirst(U8(Flag(es[0].1)), more);
      WidthFirst(U64(es[0].0), [U8(Flag(es[0].1))] + more);
    }
  }

  lemma CrowdedTables(d: Durable)
    requires |d.interventions| == 1 && |d.outcomes| == 1
    ensures Width(InterventionPart(d.interventions, OutcomePart(d.outcomes, RevalPart(d.reval, CounterFields(d)))))
      == 129 + 9 * |d.reval|
  {
    hide Width, InterventionFields, OutcomeCode;
    var f3 := CounterFields(d);
    NoWidth();
    WidthFirst(U64(d.nextInt), []);
    WidthFirst(U64(d.nextEval), [U64(d.nextInt)] + []);
    FlagsWidth(Entries(d.reval), f3);
    WidthFirst(U32(|d.reval|), WriteMany(RevalFields, Entries(d.reval), f3));
    var f2 := RevalPart(d.reval, f3);
    var o := Entries(d.outcomes)[0];
    assert WriteMany(OutcomeFields, Entries(d.outcomes)[1..], f2) == f2;
    WidthFirst(U32(OutcomeCode(o.1)), f2);
    WidthFirst(U64(o.0), [U32(OutcomeCode(o.1))] + f2);
    WidthFirst(U32(1), OutcomeFields(o, f2));
    var f1 := OutcomePart(d.outcomes, f2);
    var xs := Values(Entries(d.interventions));
    assert |xs| == 1 && WriteMany(InterventionFields, xs[1..], f1) == f1;
    InterventionWidth(xs[0], f1);
    WidthFirst(U32(1), InterventionFields(xs[0], f1));
  }

  lemma CrowdedFile(epoch: nat, d: Durable)
    requires |d.pol.objectives| == 1 && d.pol.objectives[0].classScope.None?
    requires |d.interventions| == 1 && |d.outcomes| == 1
    ensures |Save(epoch, d)| == 276 + 9 * |d.reval|
  {
    hide Width, InterventionPart, OutcomePart, RevalPart, PolicyPart, Framed, Bytes;
    CrowdedTables(d);
    PolicyWidth(epoch, d.pol,
      InterventionPart(d.interventions, OutcomePart(d.outcomes, RevalPart(d.reval, CounterFields(d)))));
    WidthOfBytes(BodyFields(epoch, d));
    FramedIntact(Bytes(BodyFields(epoch, d)));
  }

  lemma CrowdedFlags()
    ensures |Crowded().reval| == CROWD && forall k :: k in Crowded().reval ==> U64Range(k)
  {
    hide Marked, Many;
    ManyFlags(CROWD);
  }

  lemma CrowdedTablesSmall()
    ensures |Crowded().interventions| == 1 && |Crowded().outcomes| == 1
  {
    hide Marked, Many;
    assert Crowded().interventions.Keys == {1} && Crowded().outcomes.Keys == {1};
  }

  lemma CrowdedSize()
    ensures |SaveFile(Crowded())| == 276 + 9 * CROWD
  {
    hide Save, Marked, Many;
    CrowdedFlags();
    CrowdedTablesSmall();
    CrowdedFile(2, DurableOf(Crowded()));
  }

  lemma CrowdedRepresentable()
    ensures Representable(2, DurableOf(Crowded()))
  {
    hide Marked, Many;
    CrowdedFlags();
    CrowdedTablesSmall();
  }

  lemma CrowdedSane()
    ensures Sane(Crowded())
  {
    hide Marked, Many;
  }

  /** The governor that a refused load of that file leaves behind. */
  function Refused(): GovState {
    LoadFile(InitialState(CONFIG, 1), SaveFile(Crowded())).0
  }

  lemma RefusedLoad()
    ensures LoadFile(InitialState(CONFIG, 1), SaveFile(Crowded())).1 == PersistenceCorrupt
    ensures Refused() == InitialState(CONFIG, 1).(pol := Policy(1, 1, [FIRST]), reval := Marked(map[], [FIRST]),
      interventions := AllRecovered(Settled(0).interventions), outcomes := Settled(0).outcomes)
  {
    hide Load, Save, Marked, Many, Representable, AllRecovered, Settled;
    SettledSettings();
    CrowdedFlags();
    CrowdedTablesSmall();
    CrowdedSize();
    CrowdedRepresentable();
    SavedLoads(DurableOf(InitialState(CONFIG, 1)), 2, DurableOf(Crowded()));
  }

  lemma SettledSettings()
    ensures Settled(0).pol == Policy(1, 1, [FIRST])
  {
  }

  /** The load is refused over the flags, after the interventions were installed and before the
      next id was read: the ids are not below the next one any more, and the next authorisation that
      leaves its id to the governor writes over a terminal intervention. */
  lemma RefusedLoadOverwrites()
    ensures Sane(Crowded()) && LoadFile(InitialState(CONFIG, 1), SaveFile(Crowded())).1 == PersistenceCorrupt
    ensures 1 in Refused().interventions && Refused().interventions[1].status == Effective
    ensures Refused().nextInt == 1 && !Sane(Refused())
    ensures var t := Next(Refused(), AuthorizeCall(ByHand(0), 500));
      1 in t.interventions && t.interventions[1].status == Authorized
  {
    hide Crowded, Refused, LoadFile, SaveFile, Next, AuthorizeVerdict;
    CrowdedSane();
    RefusedLoad();
    assert 1 in Refused().interventions && !(1 < Refused().nextInt);
    RefusedVerdict(Refused());
    AuthorizedNext(Refused());
  }

  lemma RefusedVerdict(s: GovState)
    requires s.cfg == CONFIG && s.epoch == 1 && s.pol == Policy(1, 1, [FIRST]) && s.facts == DEFAULT_FACTS
    requires s.gens == PLAIN.gens && !s.shuttingDown && s.lastIntervention == map[]
    ensures AuthorizeVerdict(s, ByHand(0), 500) == Success
  {
    FindFirst();
  }

  lemma AuthorizedNext(s: GovState)
    requires AuthorizeVerdict(s, ByHand(0), 500) == Success
    ensures var t := Next(s, AuthorizeCall(ByHand(0), 500));
      s.nextInt in t.interventions && t.interventions[s.nextInt].status == Authorized
  {
    hide AuthorizeVerdict;
    AuthorizeEntry(s, ByHand(0), 500);
  }

  // ---- a cooldown lost in a restart ------------------------------------------------------------

  const RESTED := FIRST.(coolDown := 100)

  function RestedByHand(): Intervention {
    ByHand(0).(authority := CurrentAuthority(Governor([RESTED]), RESTED))
  }

  /** A governor whose objective has just used up its cooldown of 100. */
  function Waiting(): GovState {
    Governor([RESTED]).(
      interventions := map[1 := RestedByHand().(id := 1, generation := 2, status := Authorized, proposedAt := 500)],
      lastIntervention := map[1 := 500], nextInt := 2)
  }

  lemma FindRested()
    ensures FindObjective([RESTED], 1) == Some(RESTED)
  {
  }

  lemma WaitingReached()
    ensures Run(InitialState(CONFIG, 1), Setup([RESTED]) + [AuthorizeCall(RestedByHand(), 500)]) == Waiting()
  {
    hide Run, AfterEvidence, AfterSettings;
    SetUp([RESTED]);
    OneMoreCall(InitialState(CONFIG, 1), Setup([RESTED]), AuthorizeCall(RestedByHand(), 500));
    FindRested();
  }

  lemma WaitingFits()
    ensures Fits(Waiting())
  {
    hide Save;
    assert Waiting().interventions.Keys == {1};
    SmallFile(Waiting().epoch, DurableOf(Waiting()));
  }

  lemma RestedVerdict(s: GovState, now: int)
    requires s.cfg == CONFIG && s.epoch == 1 && s.pol == Policy(1, 1, [RESTED]) && s.facts == DEFAULT_FACTS
    requires s.gens == PLAIN.gens && !s.shuttingDown
    ensures AuthorizeVerdict(s, RestedByHand(), now) == if CooldownActive(s, RESTED, now) then InvalidInput else Success
  {
    hide CooldownActive;
    FindRested();
  }

  /** One unit after an authorisation the governor refuses another one; a new governor that loads
      its file grants it. */
  lemma CooldownLost()
    ensures AuthorizeVerdict(Waiting(), RestedByHand(), 501) == InvalidInput
    ensures var t := LoadFile(InitialState(CONFIG, 1), SaveFile(Waiting())).0;
      AuthorizeVerdict(t, RestedByHand(), 501) == Success
  {
    hide SaveFile, Load, Representable, Marked, AllRecovered, AuthorizeVerdict;
    WaitingFits();
    LoadOfSave(InitialState(CONFIG, 1), Waiting());
    RestedVerdict(Waiting(), 501);
    RestedVerdict(LoadFile(InitialState(CONFIG, 1), SaveFile(Waiting())).0, 501);
  }
}
