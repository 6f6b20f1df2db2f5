/** The governor as a state machine: what every public call does to its state. */
module Transitions {
  import opened Basics
  import opened Domain
  import opened Quantiles
  import opened Windows
  import opened Attribution
  import opened Selection
  import opened StateFiles

  /** Fixed identity of a governor, and how it reads a persisted floating-point pattern. */
  datatype Config = Config(service: nat, serviceGeneration: nat, workload: nat, workloadGeneration: nat,
    read: Bits -> real)

  datatype Generations = Generations(queue: nat, batch: nat, resource: nat, recovery: nat, topology: nat, engine: nat)

  datatype WindowKey = WindowKey(objective: nat, requestClass: nat)

  datatype Evaluation = Evaluation(
    id: nat, generation: nat, objective: nat, objectiveGeneration: nat, percentile: Bits,
    state: TailState, sufficiency: Sufficiency,
    target: int, recovered: int, observed: int,
    percentiles: PercentileSet, sampleCount: nat, minRequired: nat,
    windowBegin: int, windowEnd: int, latestCapture: int,
    decomposition: Decomposition, choice: Choice, selected: InterventionType,
    authority: Authority, revalidationRequired: bool)

  datatype GovState = GovState(
    cfg: Config, epoch: nat, pol: Policy, facts: Facts, gens: Generations,
    boots: map<int, nat>, windows: map<WindowKey, Window>, seen: map<int, nat>,
    interventions: map<int, Intervention>, lastIntervention: map<int, int>,
    lastState: map<int, TailState>, streak: map<int, nat>, reval: map<int, bool>,
    outcomes: map<int, PostOutcome>, evaluations: seq<Evaluation>,
    shuttingDown: bool, nextEval: nat, nextInt: nat)

  datatype Decision = Decision(
    evaluation: Option<Evaluation>, wouldAct: bool, intervention: Option<Intervention>,
    rejected: seq<Rejected>, infeasible: seq<Rejected>)

  const DEFAULT_FACTS := Facts(true, false, true, true, true, true, true, true, 1.0, 1.0, 1.0, 1.0, 1.0)

  function InitialState(cfg: Config, epoch: nat): GovState {
    GovState(cfg, epoch, Policy(0, 0, []), DEFAULT_FACTS, Generations(0, 0, 0, 0, 0, 0),
             map[], map[], map[], map[], map[], map[], map[], map[], map[], [], false, 1, 1)
  }

  // ---- small queries -------------------------------------------------------------------

  function EffectiveMinSamples(cfg: Config, o: Objective): nat {
    if o.minSamples > 0 then o.minSamples else DerivedMinSamples(cfg.read(o.percentile))
  }

  function RecoveryThreshold(cfg: Config, o: Objective): int {
    var fraction := cfg.read(o.recoveryFraction);
    if fraction <= 0.0 then o.target
    else
      var r := Trunc(o.target as real * fraction);
      if r < 0 then 0 else r
  }

  function WindowConfigFor(objectives: seq<Objective>, id: nat): WindowConfig {
    match FindObjective(objectives, id)
    case None => DEFAULT_WINDOW
    case Some(o) => o.window
  }

  function EnsuredWindow(s: GovState, objective: nat, requestClass: nat): Window {
    var key := WindowKey(objective, requestClass);
    if key in s.windows then s.windows[key] else NewWindow(WindowConfigFor(s.pol.objectives, objective))
  }

  function CurrentAuthority(s: GovState, o: Objective): Authority {
    Authority(s.epoch, s.cfg.service, s.cfg.serviceGeneration, s.cfg.workload, s.cfg.workloadGeneration,
              s.pol.id, s.pol.generation, o.id, o.generation,
              Some(s.gens.queue), Some(s.gens.batch), Some(s.gens.resource), None, Some(s.gens.engine),
              Some(s.gens.recovery), Some(s.gens.topology))
  }

  // ---- ingestion -----------------------------------------------------------------------

  function TotalOf(ev: RequestLatency): Result<int, StatusCode> {
    if ev.total > 0 then Ok(ev.total) else ev.ResolvedTotal()
  }

  /** Every phase is non-negative and no partial sum exceeds the total. */
  predicate PhasesFit(phases: seq<PhaseLatency>, total: int) {
    phases == [] ||
    (&& PhasesFit(phases[..|phases| - 1], total)
     && phases[|phases| - 1].duration >= 0
     && PhaseSum(phases) <= total)
  }

  function IngestVerdict(s: GovState, ev: RequestLatency): StatusCode {
    if s.shuttingDown then ShuttingDown
    else if ev.epoch != s.epoch then StaleAuthority
    else if ev.serviceGeneration != s.cfg.serviceGeneration then StaleAuthority
    else if ev.workloadGeneration != s.cfg.workloadGeneration then StaleAuthority
    else if ev.worker !in s.boots || s.boots[ev.worker] != ev.workerBoot then StaleAuthority
    else if !ev.IsAuthoritativeCompletion() then InvalidInput
    else if ev.requestId in s.seen then InvalidInput
    else match TotalOf(ev)
      case Err(code) => code
      case Ok(total) => if PhasesFit(ev.phases, total) then Success else InvalidInput
  }

  function SampleOf(ev: RequestLatency): TailSample
    requires TotalOf(ev).Ok?
  {
    TailSample(TotalOf(ev).value, if ev.captured > 0 then ev.captured else ev.completion, ev.arrival, ev.phases,
               ev.requestClass, ev.workerBoot, ev.epoch, ev.retryCount)
  }

  function InsertAt(s: GovState, objective: nat, requestClass: nat, sample: TailSample): GovState {
    s.(windows := s.windows[WindowKey(objective, requestClass) :=
                            InsertSample(EnsuredWindow(s, objective, requestClass), sample)])
  }

  function IngestOne(s: GovState, o: Objective, sample: TailSample): GovState {
    if !o.enabled then s
    else
      var s1 := InsertAt(s, o.id, 0, sample);
      var s2 := if sample.requestClass != 0 then InsertAt(s1, o.id, sample.requestClass, sample) else s1;
      s2.(reval := s2.reval[o.id := false])
  }

  function IngestInto(s: GovState, objectives: seq<Objective>, sample: TailSample): GovState {
    if objectives == [] then s
    else IngestOne(IngestInto(s, objectives[..|objectives| - 1], sample), objectives[|objectives| - 1], sample)
  }

  function Ingest(s: GovState, ev: RequestLatency): (GovState, StatusCode) {
    var verdict := IngestVerdict(s, ev);
    if verdict != Success then (s, verdict)
    else
      var filled := IngestInto(s, s.pol.objectives, SampleOf(ev));
      (filled.(seen := filled.seen[ev.requestId := ev.evidenceGeneration]), Success)
  }

  // ---- evaluation ----------------------------------------------------------------------

  predicate Degraded(t: TailState) {
    t.Violating? || t.Severe? || t.AtRisk? || t.Recovering?
  }

  /** The classification of a sufficient observation, with hysteresis. */
  function Judge(prev: TailState, streak: nat, v: int, target: int, recovered: int): (TailState, nat) {
    if v >= target then (if v >= 2 * target then Severe else Violating, 0)
    else if v > recovered then (AtRisk, 0)
    else if Degraded(prev) then (if streak + 1 >= 2 then Healthy else Recovering, streak + 1)
    else (Healthy, 0)
  }

  function EvaluatedWindow(s: GovState, o: Objective, now: int): Window {
    SortWindow(EnsuredWindow(s, o.id, o.Scope()), now)
  }

  /** The observed quantile, when there are enough samples. */
  function Observe(s: GovState, o: Objective, w: Window): Option<int> {
    if |w.sorted| >= EffectiveMinSamples(s.cfg, o) then ExactQuantile(w.sorted, s.cfg.read(o.percentile)) else None
  }

  predicate IsStale(o: Objective, latest: int, now: int) {
    o.freshness > 0 && latest > 0 && now - latest > o.freshness
  }

  function SufficiencyOf(s: GovState, o: Objective, w: Window, now: int): Sufficiency {
    if GetOr(s.reval, o.id, false) then StaleEvidence
    else if IsStale(o, LatestCaptured(w.samples), now) then StaleEvidence
    else if |w.sorted| == 0 || Observe(s, o, w).None? then InsufficientSamples
    else Sufficient
  }

  function ObservedValue(s: GovState, o: Objective, w: Window): int {
    match Observe(s, o, w)
    case None => 0
    case Some(v) => v
  }

  /** The new state of an objective and its recovery streak. */
  function StateOf(s: GovState, o: Objective, w: Window, now: int): (TailState, nat) {
    var streak := GetOr(s.streak, o.id, 0);
    if GetOr(s.reval, o.id, false) then (RevalidationRequired, streak)
    else match SufficiencyOf(s, o, w, now)
      case Sufficient =>
        Judge(GetOr(s.lastState, o.id, Healthy), streak, ObservedValue(s, o, w), o.target, RecoveryThreshold(s.cfg, o))
      case StaleEvidence => (TailState.Stale, streak)
      case _ => (InsufficientEvidence, streak)
  }

  function ActionFor(state: TailState, choice: Choice): InterventionType {
    if state.Violating? || state.Severe? || state.AtRisk? then choice.selected else NoAction
  }

  /** The percentiles an evaluation carries; it has no p99 of its own. */
  function ReportedSet(sorted: seq<int>): PercentileSet {
    ComputeSet(sorted).(p99 := None)
  }

  /** Everything an evaluation reports except its own identity. */
  function Assess(s: GovState, o: Objective, now: int): Evaluation {
    var w := EvaluatedWindow(s, o, now);
    var observed := ObservedValue(s, o, w);
    var recovered := RecoveryThreshold(s.cfg, o);
    var decomposition := Decompose(w.samples, observed);
    var choice := Select(decomposition.causes, observed, recovered, s.facts);
    var state := StateOf(s, o, w, now).0;
    Evaluation(0, 0, o.id, o.generation, o.percentile, state, SufficiencyOf(s, o, w, now),
               o.target, recovered, observed, ReportedSet(w.sorted), |w.samples|, EffectiveMinSamples(s.cfg, o),
               now - o.window.duration, now, LatestCaptured(w.samples),
               decomposition, choice, ActionFor(state, choice),
               CurrentAuthority(s, o), GetOr(s.reval, o.id, false))
  }

  function EvaluateObjective(s: GovState, o: Objective, now: int): (GovState, Evaluation) {
    var w := EvaluatedWindow(s, o, now);
    var (state, streak) := StateOf(s, o, w, now);
    var ev := Assess(s, o, now).(id := s.nextEval, generation := s.nextEval + 1);
    (s.(windows := s.windows[WindowKey(o.id, o.Scope()) := w],
        reval := s.reval[o.id := GetOr(s.reval, o.id, false)],
        lastState := s.lastState[o.id := state],
        streak := if SufficiencyOf(s, o, w, now).Sufficient? then s.streak[o.id := streak] else s.streak,
        evaluations := s.evaluations + [ev],
        nextEval := s.nextEval + 1), ev)
  }

  function Evaluate(s: GovState, id: nat, now: int): (GovState, Result<Evaluation, StatusCode>) {
    if s.shuttingDown then (s, Err(ShuttingDown))
    else match FindObjective(s.pol.objectives, id)
      case None => (s, Err(InvalidInput))
      case Some(o) =>
        if !o.enabled then (s, Err(ObjectiveInactive))
        else
          var (next, ev) := EvaluateObjective(s, o, now);
          (next, Ok(ev))
  }

  function EvaluateMany(s: GovState, objectives: seq<Objective>, now: int): (GovState, seq<Evaluation>) {
    if objectives == [] then (s, [])
    else
      var (before, evs) := EvaluateMany(s, objectives[..|objectives| - 1], now);
      var o := objectives[|objectives| - 1];
      if !o.enabled then (before, evs)
      else
        var (next, r) := Evaluate(before, o.id, now);
        (next, match r case Ok(ev) => evs + [ev] case Err(_) => evs)
  }

  function EvaluateAll(s: GovState, now: int): (GovState, seq<Evaluation>) {
    EvaluateMany(s, s.pol.objectives, now)
  }

  // ---- decision ------------------------------------------------------------------------

  function PriorityOf(objectives: seq<Objective>, id: nat): int {
    if objectives == [] then 0
    else if objectives[|objectives| - 1].id == id then objectives[|objectives| - 1].priority
    else PriorityOf(objectives[..|objectives| - 1], id)
  }

  predicate Degrading(ev: Evaluation) {
    ev.state.Violating? || ev.state.Severe?
  }

  function ExcessOf(ev: Evaluation): int {
    ev.observed - ev.recovered
  }

  /** The candidate replaces the binding evaluation. */
  predicate Outranks(objectives: seq<Objective>, a: Evaluation, b: Evaluation) {
    || ExcessOf(a) > ExcessOf(b)
    || (ExcessOf(a) == ExcessOf(b)
        && (|| PriorityOf(objectives, a.objective) > PriorityOf(objectives, b.objective)
            || (PriorityOf(objectives, a.objective) == PriorityOf(objectives, b.objective)
              && a.objective < b.objective)))
  }

  function BindingViolation(objectives: seq<Objective>, evs: seq<Evaluation>): Option<Evaluation> {
    if evs == [] then None
    else
      var bind, ev := BindingViolation(objectives, evs[..|evs| - 1]), evs[|evs| - 1];
      if !Degrading(ev) then bind
      else if bind.None? || Outranks(objectives, ev, bind.value) then Some(ev)
      else bind
  }

  function FirstAtRisk(evs: seq<Evaluation>): Option<Evaluation> {
    if evs == [] then None
    else if evs[0].state.AtRisk? then Some(evs[0])
    else FirstAtRisk(evs[1..])
  }

  function Binding(objectives: seq<Objective>, evs: seq<Evaluation>): Option<Evaluation> {
    var bind := BindingViolation(objectives, evs);
    if bind.Some? then bind else FirstAtRisk(evs)
  }

  function LastDominantCause(causes: seq<TailCause>): TailCauseCategory {
    if causes == [] then UnknownCause
    else if causes[|causes| - 1].attribution.DominantContributor? then causes[|causes| - 1].category
    else LastDominantCause(causes[..|causes| - 1])
  }

  /** The pattern of 1.0 - 0.3, the confidence of a modelled estimate. */
  const MODELLED_CONFIDENCE: Bits := 0x3FE6_6666_6666_6666
  const EXPIRY: int := 5_000_000_000

  function Proposal(s: GovState, bind: Evaluation, now: int): Intervention {
    var scope := match FindObjective(s.pol.objectives, bind.objective) case None => 0 case Some(o) => o.Scope();
    Intervention(0, 0, bind.selected, Proposed, LastDominantCause(bind.decomposition.causes), scope, bind.authority,
                 bind.objective, bind.objectiveGeneration, bind.choice.expectedReduction, Feasible,
                 MODELLED_CONFIDENCE, now, now + EXPIRY)
  }

  function WithReason(none: bool, rejected: seq<Rejected>): seq<Rejected> {
    if rejected == [] then []
    else
      var before, last := WithReason(none, rejected[..|rejected| - 1]), rejected[|rejected| - 1];
      if last.reason.Feasible? == none then before + [last] else before
  }

  /** The choice made on evaluations that were just taken. */
  function DecideOn(s: GovState, evs: seq<Evaluation>, now: int): (GovState, Decision) {
    match Binding(s.pol.objectives, evs)
    case None => (s, Decision(if evs == [] then None else Some(evs[0]), false, None, [], []))
    case Some(bind) =>
      var (next, result) :=
        if bind.selected != NoAction && bind.sufficiency.Sufficient? then Authorize(s, Proposal(s, bind, now), now)
        else (s, Err(InvalidInput));
      (next, Decision(Some(bind), result.Ok?, match result case Ok(i) => Some(i) case Err(_) => None,
                      WithReason(true, bind.choice.rejected), WithReason(false, bind.choice.rejected)))
  }

  function Decide(s: GovState, now: int): (GovState, Result<Decision, StatusCode>) {
    if s.shuttingDown then (s, Err(ShuttingDown))
    else
      var (after, evs) := EvaluateAll(s, now);
      var (next, d) := DecideOn(after, evs, now);
      (next, Ok(d))
  }

  // ---- intervention lifecycle ----------------------------------------------------------

  predicate CooldownActive(s: GovState, o: Objective, now: int) {
    o.id in s.lastIntervention && o.coolDown > 0 && now - s.lastIntervention[o.id] < o.coolDown
  }

  function AuthorizeVerdict(s: GovState, prop: Intervention, now: int): StatusCode {
    if s.shuttingDown then ShuttingDown
    else if prop.kind == NoAction then InvalidInput
    else if prop.status != Proposed then InvalidInput
    else match FindObjective(s.pol.objectives, prop.objective)
      case None => ObjectiveInactive
      case Some(o) =>
        if !o.enabled then ObjectiveInactive
        else if !Same(prop.authority, CurrentAuthority(s, o)) then StaleAuthority
        else if InfeasibilityOf(prop.kind, s.facts) != Feasible then InterventionInfeasible
        else if CooldownActive(s, o, now) then InvalidInput
        else Success
  }

  function Authorize(s: GovState, prop: Intervention, now: int): (GovState, Result<Intervention, StatusCode>) {
    var verdict := AuthorizeVerdict(s, prop, now);
    if verdict != Success then (s, Err(verdict))
    else
      var id := if prop.id == 0 then s.nextInt else prop.id;
      var nextInt := if prop.id == 0 then s.nextInt + 1 else s.nextInt;
      var out := prop.(status := Authorized, id := id,
                       generation := if prop.generation == 0 then nextInt else prop.generation, proposedAt := now);
      (s.(nextInt := nextInt, interventions := s.interventions[id := out],
          lastIntervention := s.lastIntervention[prop.objective := now]), Ok(out))
  }

  function WithStatus(s: GovState, id: int, status: InterventionStatus): GovState
    requires id in s.interventions
  {
    s.(interventions := s.interventions[id := s.interventions[id].(status := status)])
  }

  function Dispatch(s: GovState, id: int): (GovState, Result<Intervention, StatusCode>) {
    if s.shuttingDown then (s, Err(ShuttingDown))
    else if id !in s.interventions then (s, Err(InvalidInput))
    else
      var i := s.interventions[id];
      if i.status != Authorized then (s, Err(InvalidInput))
      else match FindObjective(s.pol.objectives, i.objective)
        case None => (WithStatus(s, id, Failed), Err(ObjectiveInactive))
        case Some(o) =>
          if !o.enabled then (WithStatus(s, id, Failed), Err(ObjectiveInactive))
          else if !Same(i.authority, CurrentAuthority(s, o)) then (WithStatus(s, id, Superseded), Err(StaleAuthority))
          else if InfeasibilityOf(i.kind, s.facts) != Feasible then
            (WithStatus(s, id, Failed), Err(InterventionInfeasible))
          else (WithStatus(s, id, Dispatched), Ok(i.(status := Dispatched)))
  }

  function Acknowledge(s: GovState, id: int): (GovState, StatusCode) {
    if id !in s.interventions then (s, InvalidInput)
    else if s.interventions[id].status != Dispatched then (s, InvalidInput)
    else (WithStatus(s, id, Acknowledged), Success)
  }

  /** The terminal status an outcome leads to; an unlisted one leaves the status alone. */
  function StatusAfter(outcome: PostOutcome, before: InterventionStatus): InterventionStatus {
    match outcome
    case WasEffective => Effective
    case PartiallyEffective => Ineffective
    case WasIneffective => Ineffective
    case WorsenedTail => Ineffective
    case CreatedSecondaryViolation => Failed
    case InsufficientPostActionEvidence => StatusUnknown
    case OutcomeUnknown => StatusUnknown
    case UnlistedOutcome(_) => before
  }

  function RecordOutcome(s: GovState, id: int, outcome: PostOutcome): (GovState, PostOutcome) {
    if id !in s.interventions || IsTerminal(s.interventions[id].status) then (s, OutcomeUnknown)
    else
      var next := WithStatus(s, id, StatusAfter(outcome, s.interventions[id].status));
      (next.(outcomes := next.outcomes[id := outcome]), outcome)
  }

  function Cancel(s: GovState, id: int): (GovState, StatusCode) {
    if id !in s.interventions then (s, InvalidInput)
    else
      var status := s.interventions[id].status;
      if IsTerminal(status) then (s, Success)
      else if status.Proposed? || status.Authorized? || status.Dispatched? then (WithStatus(s, id, Cancelled), Success)
      else (s, InvalidInput)
  }

  function Supersede(s: GovState, id: int): (GovState, StatusCode) {
    if id !in s.interventions then (s, InvalidInput)
    else if IsTerminal(s.interventions[id].status) then (s, Success)
    else (WithStatus(s, id, Superseded), Success)
  }

  // ---- epoch, policy, persistence --------------------------------------------------------

  function AdvanceEpoch(s: GovState): GovState {
    s.(epoch := s.epoch + 1, reval := Marked(s.reval, s.pol.objectives), windows := map[], seen := map[])
  }

  function DurableOf(s: GovState): Durable {
    Durable(s.pol, s.interventions, s.outcomes, s.reval, s.nextEval, s.nextInt)
  }

  function WithDurable(s: GovState, d: Durable): GovState {
    s.(pol := d.pol, interventions := d.interventions, outcomes := d.outcomes, reval := d.reval,
       nextEval := d.nextEval, nextInt := d.nextInt)
  }

  function SaveFile(s: GovState): seq<bv8> {
    Save(s.epoch, DurableOf(s))
  }

  function LoadFile(s: GovState, file: seq<bv8>): (GovState, StatusCode) {
    var (d, status) := Load(DurableOf(s), file);
    (WithDurable(s, d), status)
  }

  // ---- calls and runs --------------------------------------------------------------------

  datatype Call =
    | RegisterWorkerCall(worker: nat, boot: nat)
    | UnregisterWorkerCall(worker: nat)
    | SetPolicyCall(policy: Policy)
    | AdvanceEpochCall
    | SetGenerationsCall(gens: Generations)
    | SetFactsCall(facts: Facts)
    | IngestCall(ev: RequestLatency)
    | EvaluateCall(objective: nat, now: int)
    | EvaluateAllCall(now: int)
    | DecideCall(now: int)
    | AuthorizeCall(prop: Intervention, now: int)
    | DispatchCall(id: int)
    | AcknowledgeCall(id: int)
    | RecordOutcomeCall(id: int, outcome: PostOutcome)
    | CancelCall(id: int)
    | SupersedeCall(id: int)
    | LoadCall(file: seq<bv8>)
    | ShutdownCall

  predicate IsLifecycleCall(c: Call) {
    c.AuthorizeCall? || c.DispatchCall? || c.AcknowledgeCall? || c.RecordOutcomeCall? || c.CancelCall?
      || c.SupersedeCall?
  }

  predicate IsEvidenceCall(c: Call) {
    c.IngestCall? || c.EvaluateCall? || c.EvaluateAllCall? || c.DecideCall?
  }

  function AfterLifecycle(s: GovState, c: Call): GovState
    requires IsLifecycleCall(c)
  {
    match c
    case AuthorizeCall(prop, now) => Authorize(s, prop, now).0
    case DispatchCall(id) => Dispatch(s, id).0
    case AcknowledgeCall(id) => Acknowledge(s, id).0
    case RecordOutcomeCall(id, outcome) => RecordOutcome(s, id, outcome).0
    case CancelCall(id) => Cancel(s, id).0
    case SupersedeCall(id) => Supersede(s, id).0
  }

  /** evaluate_all on a governor that is shutting down returns nothing and changes nothing. */
  function AfterEvidence(s: GovState, c: Call): GovState
    requires IsEvidenceCall(c)
  {
    match c
    case IngestCall(ev) => Ingest(s, ev).0
    case EvaluateCall(objective, now) => Evaluate(s, objective, now).0
    case EvaluateAllCall(now) => EvaluateAll(s, now).0
    case DecideCall(now) => Decide(s, now).0
  }

  function AfterSettings(s: GovState, c: Call): GovState
    requires !IsLifecycleCall(c) && !IsEvidenceCall(c)
  {
    match c
    case RegisterWorkerCall(worker, boot) => if s.shuttingDown then s else s.(boots := s.boots[worker := boot])
    case UnregisterWorkerCall(worker) => s.(boots := s.boots - {worker})
    case SetPolicyCall(policy) => s.(pol := policy)
    case AdvanceEpochCall => AdvanceEpoch(s)
    case SetGenerationsCall(gens) => s.(gens := gens)
    case SetFactsCall(facts) => s.(facts := facts)
    case LoadCall(file) => LoadFile(s, file).0
    case ShutdownCall => s.(shuttingDown := true)
  }

  function Next(s: GovState, c: Call): GovState {
    if IsLifecycleCall(c) then AfterLifecycle(s, c)
    else if IsEvidenceCall(c) then AfterEvidence(s, c)
    else AfterSettings(s, c)
  }

  function Run(s: GovState, calls: seq<Call>): GovState {
    if calls == [] then s else Next(Run(s, calls[..|calls| - 1]), calls[|calls| - 1])
  }
}
