/** Which interventions the facts allow, told kind by kind, and what follows for everything that is
    selected, authorised, dispatched and rejected. */
module Feasibility {
  import opened Basics
  import opened Domain
  import opened Codes
  import opened Attribution
  import opened Selection
  import opened Transitions
  import opened WindowRuns
  import opened WindowTraces
  import opened Interventions
  import opened Admission

  // ---- what each kind needs --------------------------------------------------------------------

  predicate WarmsEngine(kind: InterventionType) {
    kind.WarmResidency? || kind.PromoteWarmEngine?
  }

  predicate ChangesBatch(kind: InterventionType) {
    kind.ReduceBatchSize? || kind.SplitBatch? || kind.DisableBatchForClass?
  }

  predicate TurnsAway(kind: InterventionType) {
    kind.ShedLoad? || kind.DeferLowPriority?
  }

  /** The facts hold what the kind of intervention needs. */
  predicate Supports(f: Facts, kind: InterventionType) {
    && (kind.PreemptLowerPriority? ==> f.preemptibleWork && f.preemptionBudget > 0.0)
    && (WarmsEngine(kind) ==> f.warmEngineReady && f.residencyBudget > 0.0)
    && (kind.PinResidency? ==> f.engineAvailable && f.residencyBudget > 0.0)
    && (kind.ReserveCapacity? ==> f.capacityAvailable)
    && (kind.Failover? ==> f.failoverCandidate && f.failoverBudget > 0.0)
    && (kind.ChangePlacement? ==> f.targetCompatible)
    && (ChangesBatch(kind) ==> f.batchAboveMin && f.batchBudget > 0.0)
    && (TurnsAway(kind) ==> !f.protectedTraffic && f.sheddingBudget > 0.0)
  }

  /** The kind's budget is used up. */
  predicate OverBudget(f: Facts, kind: InterventionType) {
    || (kind.PreemptLowerPriority? && f.preemptionBudget <= 0.0)
    || ((WarmsEngine(kind) || kind.PinResidency?) && f.residencyBudget <= 0.0)
    || (kind.Failover? && f.failoverBudget <= 0.0)
    || (ChangesBatch(kind) && f.batchBudget <= 0.0)
    || (TurnsAway(kind) && f.sheddingBudget <= 0.0)
  }

  /** Something other than a budget stands against the kind. */
  predicate Blocked(f: Facts, kind: InterventionType) {
    || (kind.PreemptLowerPriority? && !f.preemptibleWork)
    || (WarmsEngine(kind) && !f.warmEngineReady) || (kind.PinResidency? && !f.engineAvailable)
    || (kind.ReserveCapacity? && !f.capacityAvailable)
    || (kind.Failover? && !f.failoverCandidate)
    || (kind.ChangePlacement? && !f.targetCompatible)
    || (ChangesBatch(kind) && !f.batchAboveMin)
    || (TurnsAway(kind) && f.protectedTraffic)
  }

  /** The reason is the one that the facts give against the kind; a used up budget is named only when
      nothing else stands against it. */
  predicate Explains(f: Facts, kind: InterventionType, reason: Infeasibility) {
    match reason
    case Feasible => Supports(f, kind)
    case NonPreemptible => kind.PreemptLowerPriority? && !f.preemptibleWork
    case EngineUnavailable =>
      (WarmsEngine(kind) && !f.warmEngineReady) || (kind.PinResidency? && !f.engineAvailable)
    case CapacityUnavailable => kind.ReserveCapacity? && !f.capacityAvailable
    case IncompatibleTarget => kind.ChangePlacement? && !f.targetCompatible
    case NoFailoverCandidate => kind.Failover? && !f.failoverCandidate
    case BelowMinBatch => ChangesBatch(kind) && !f.batchAboveMin
    case ProtectedTraffic => TurnsAway(kind) && f.protectedTraffic
    case ExceedsHardEconomy => OverBudget(f, kind) && !Blocked(f, kind)
    case _ => false
  }

  /** Every kind has exactly the one reason that explains it. */
  lemma ReasonIff(f: Facts, kind: InterventionType, reason: Infeasibility)
    ensures InfeasibilityOf(kind, f) == reason <==> Explains(f, kind, reason)
    ensures InfeasibilityOf(kind, f) == Feasible <==> Supports(f, kind)
  {
  }

  // ---- authorisation ---------------------------------------------------------------------------

  /** The authority names everything that is in force now, field by field, and no worker. */
  predicate BuiltNow(s: GovState, o: Objective, a: Authority) {
    && a.epoch == s.epoch && a.service == s.cfg.service && a.serviceGeneration == s.cfg.serviceGeneration
    && a.workload == s.cfg.workload && a.workloadGeneration == s.cfg.workloadGeneration
    && a.policy == s.pol.id && a.policyGeneration == s.pol.generation
    && a.objective == o.id && a.objectiveGeneration == o.generation
    && a.queueGeneration == Some(s.gens.queue) && a.batchGeneration == Some(s.gens.batch)
    && a.resourceGeneration == Some(s.gens.resource) && a.recoveryGeneration == Some(s.gens.recovery)
    && a.topologyGeneration == Some(s.gens.topology) && a.engineIncarnation == Some(s.gens.engine)
    && a.workerBoot == None
  }

  lemma BuiltNowIff(s: GovState, o: Objective, a: Authority)
    ensures a == CurrentAuthority(s, o) <==> BuiltNow(s, o, a)
  {
  }

  /** The objective's cooldown, if it has one, has run out since its last authorisation. */
  predicate CooledDown(s: GovState, o: Objective, now: int) {
    o.id in s.lastIntervention && o.coolDown > 0 ==> now - s.lastIntervention[o.id] >= o.coolDown
  }

  /** What an authorisation asks for apart from the facts and the cooldown. */
  predicate InOrder(s: GovState, prop: Intervention) {
    && !s.shuttingDown && prop.kind != NoAction && prop.status.Proposed?
    && var o := FindObjective(s.pol.objectives, prop.objective);
      o.Some? && o.value.enabled && BuiltNow(s, o.value, prop.authority)
  }

  /** An authorisation succeeds if and only if it is in order, the facts support its kind and the
      cooldown has run out; of the last two, the facts are what it is refused for first. */
  lemma AuthorizeIff(s: GovState, prop: Intervention, now: int)
    ensures var r := Authorize(s, prop, now).1;
      && (r.Ok? <==>
            && InOrder(s, prop) && Supports(s.facts, prop.kind)
            && CooledDown(s, FindObjective(s.pol.objectives, prop.objective).value, now))
      && (r == Err(InterventionInfeasible) <==> InOrder(s, prop) && !Supports(s.facts, prop.kind))
  {
    hide InfeasibilityOf, FindObjective, Same, CurrentAuthority, BuiltNow, Supports;
    ReasonIff(s.facts, prop.kind, Feasible);
    var o := FindObjective(s.pol.objectives, prop.objective);
    if o.Some? {
      BuiltNowIff(s, o.value, prop.authority);
    }
  }

  lemma StatusIs(s: GovState, id: int, status: InterventionStatus)
    requires id in s.interventions
    ensures id in WithStatus(s, id, status).interventions
    ensures WithStatus(s, id, status).interventions[id].status == status
  {
  }

  /** A dispatch succeeds if and only if the intervention is authorised, its objective enabled, its
      authority current and the facts support its kind. Otherwise it ends: an authority that is out
      of date supersedes it, whatever the facts; a missing or disabled objective and, under a current
      authority, the facts make it fail. */
  lemma DispatchIff(s: GovState, id: int)
    requires id in s.interventions && !s.shuttingDown && s.interventions[id].status.Authorized?
    ensures var (t, r) := Dispatch(s, id);
      var i := s.interventions[id];
      var o := FindObjective(s.pol.objectives, i.objective);
      var active := o.Some? && o.value.enabled;
      var current := active && BuiltNow(s, o.value, i.authority);
      && (r.Ok? <==> current && Supports(s.facts, i.kind))
      && (r == Err(ObjectiveInactive) <==> !active)
      && (r == Err(StaleAuthority) <==> active && !current)
      && (r == Err(InterventionInfeasible) <==> current && !Supports(s.facts, i.kind))
      && id in t.interventions
      && (t.interventions[id].status.Dispatched? <==> r.Ok?)
      && (t.interventions[id].status.Superseded? <==> active && !current)
      && (t.interventions[id].status.Failed? <==> !active || (current && !Supports(s.facts, i.kind)))
  {
    hide InfeasibilityOf, FindObjective, Same, CurrentAuthority, BuiltNow, Supports, WithStatus;
    ReasonIff(s.facts, s.interventions[id].kind, Feasible);
    StatusIs(s, id, Failed);
    StatusIs(s, id, Superseded);
    StatusIs(s, id, Dispatched);
    var o := FindObjective(s.pol.objectives, s.interventions[id].objective);
    if o.Some? {
      BuiltNowIff(s, o.value, s.interventions[id].authority);
    }
  }

  /** Any other intervention is refused and nothing changes. */
  lemma DispatchRefused(s: GovState, id: int)
    requires s.shuttingDown || id !in s.interventions || !s.interventions[id].status.Authorized?
    ensures Dispatch(s, id) == (s, Err(if s.shuttingDown then ShuttingDown else InvalidInput))
  {
  }

  // ---- in every run ----------------------------------------------------------------------------

  /** What the documentation rules out, one clause for each thing that cannot be done. */
  predicate NothingRuledOut(f: Facts, kind: InterventionType) {
    && (!f.preemptibleWork ==> !kind.PreemptLowerPriority?)
    && (!f.warmEngineReady ==> !kind.WarmResidency? && !kind.PromoteWarmEngine?)
    && (!f.engineAvailable ==> !kind.PinResidency?)
    && (!f.capacityAvailable ==> !kind.ReserveCapacity?)
    && (!f.targetCompatible ==> !kind.ChangePlacement?)
    && (!f.failoverCandidate ==> !kind.Failover?)
    && (!f.batchAboveMin ==> !kind.ReduceBatchSize? && !kind.SplitBatch? && !kind.DisableBatchForClass?)
    && (f.protectedTraffic ==> !kind.ShedLoad? && !kind.DeferLowPriority?)
    && (f.preemptionBudget <= 0.0 ==> !kind.PreemptLowerPriority?)
    && (f.failoverBudget <= 0.0 ==> !kind.Failover?)
    && (f.batchBudget <= 0.0 ==> !kind.ReduceBatchSize? && !kind.SplitBatch? && !kind.DisableBatchForClass?)
    && (f.residencyBudget <= 0.0 ==> !kind.WarmResidency? && !kind.PinResidency? && !kind.PromoteWarmEngine?)
    && (f.sheddingBudget <= 0.0 ==> !kind.ShedLoad? && !kind.DeferLowPriority?)
  }

  lemma SupportedIsNotRuledOut(f: Facts, kind: InterventionType)
    ensures Supports(f, kind) <==> NothingRuledOut(f, kind)
  {
  }

  /** Before any facts are set, exactly what needs a warm engine or turns traffic away is ruled out. */
  lemma RuledOutAtFirst(kind: InterventionType)
    ensures NothingRuledOut(FactsInForce([]), kind) <==>
      !kind.WarmResidency? && !kind.PromoteWarmEngine? && !kind.ShedLoad? && !kind.DeferLowPriority?
  {
  }

  lemma AuthorizedSupported(s: GovState, c: Call)
    ensures AuthorizedBy(s, c).Some? ==> Supports(s.facts, AuthorizedBy(s, c).value.kind)
  {
    hide Authorize, Decide, Supports, InOrder;
    match c {
      case AuthorizeCall(prop, now) =>
        AuthorizeIff(s, prop, now);
        AuthorizedKind(s, prop, now);
      case DecideCall(now) => DecidedSupported(s, now);
      case _ =>
    }
  }

  lemma AuthorizedKind(s: GovState, prop: Intervention, now: int)
    ensures var r := Authorize(s, prop, now).1; r.Ok? ==> r.value.kind == prop.kind
  {
    hide AuthorizeVerdict;
  }

  lemma DecidedSupported(s: GovState, now: int)
    ensures AuthorizedBy(s, DecideCall(now)).Some? ==> Supports(s.facts, AuthorizedBy(s, DecideCall(now)).value.kind)
  {
    hide Binding, Supports, EvaluateMany, WithReason, Authorize, Proposal, At, RunOps;
    if !s.shuttingDown {
      var (after, evs) := EvaluateAll(s, now);
      EvaluateManyAt(s, s.pol.objectives, now, WindowKey(0, 0));
      FenceSettings(s, after);
      var b := Binding(s.pol.objectives, evs);
      if b.Some? {
        AuthorizeIff(after, Proposal(after, b.value, now), now);
        AuthorizedKind(after, Proposal(after, b.value, now), now);
      }
    }
  }

  /** In every run of a new governor, nothing that the facts set last rule out is authorised,
      requested or decided, or dispatched. */
  lemma NothingRuledOutInRuns(cfg: Config, epoch: nat, calls: seq<Call>, c: Call, id: int)
    ensures var t, f := Run(InitialState(cfg, epoch), calls), FactsInForce(calls);
      && (AuthorizedBy(t, c).Some? ==> NothingRuledOut(f, AuthorizedBy(t, c).value.kind))
      && (Dispatch(t, id).1.Ok? ==> id in t.interventions && NothingRuledOut(f, t.interventions[id].kind))
  {
    hide Run, AuthorizedBy, Dispatch, Supports, NothingRuledOut, BuiltNow;
    var t, f := Run(InitialState(cfg, epoch), calls), FactsInForce(calls);
    SettingsInRuns(cfg, epoch, calls);
    AuthorizedSupported(t, c);
    if AuthorizedBy(t, c).Some? {
      SupportedIsNotRuledOut(f, AuthorizedBy(t, c).value.kind);
    }
    if id in t.interventions {
      SupportedIsNotRuledOut(f, t.interventions[id].kind);
    }
    DispatchOnlyAuthorized(t, id);
    if Dispatch(t, id).1.Ok? {
      DispatchIff(t, id);
    }
  }

  lemma DispatchOnlyAuthorized(s: GovState, id: int)
    ensures Dispatch(s, id).1.Ok? ==>
      id in s.interventions && !s.shuttingDown && s.interventions[id].status.Authorized?
  {
    hide InfeasibilityOf, FindObjective, Same, CurrentAuthority;
  }

  // ---- selection by preference -------------------------------------------------------------------

  /** What is preferred against each cause, most promising first. */
  function Preferred(cause: TailCauseCategory): seq<InterventionType> {
    match cause
    case Queueing => [BoundQueueWait, QueueShape, LimitQueueDepth, QueueReprioritize]
    case Batching => [SplitBatch, ReduceBatchSize, DisableBatchForClass]
    case ColdResidency => [WarmResidency, PromoteWarmEngine, PinResidency]
    case ModelOrStateLoad => [WarmResidency, PromoteWarmEngine, ChangePlacement]
    case TransferCause => [ReserveBandwidth, ChangePlacement, DeferLowPriority]
    case MemoryPressure => [ReserveCapacity, DeferLowPriority, ReclaimMemory]
    case ResourceContention => [PromoteWarmEngine, ReserveCapacity, ChangePlacement]
    case ExecutionVariance => [WarmResidency, ReserveCapacity, ChangePlacement]
    case Preemption => [PreemptLowerPriority]
    case Recovery => [Failover, AccelerateRecovery, ReplanRecovery]
    case RetryCause => [ReserveCapacity, DeferLowPriority, Escalate]
    case BackendStall => [AccelerateRecovery, ChangePlacement]
    case PublicationDelay => [Escalate, ManualInterventionRequired]
    case CapacityShortage => [ReserveCapacity, ShedLoad, DeferLowPriority]
    case PriorityInversion => [PreemptLowerPriority, QueueReprioritize, DeferLowPriority]
    case UnknownCause => []
    case UnlistedCause(_) => []
  }

  function FirstSupported(kinds: seq<InterventionType>, f: Facts): InterventionType {
    if kinds == [] then NoAction
    else if Supports(f, kinds[0]) then kinds[0]
    else FirstSupported(kinds[1..], f)
  }

  lemma {:induction false} FirstSupportedAt(kinds: seq<InterventionType>, f: Facts) returns (k: nat)
    ensures k <= |kinds| && forall i :: 0 <= i < k ==> !Supports(f, kinds[i])
    ensures FirstSupported(kinds, f) == if k < |kinds| then kinds[k] else NoAction
    ensures k < |kinds| ==> Supports(f, kinds[k])
  {
    hide Supports;
    if kinds == [] || Supports(f, kinds[0]) {
      k := 0;
    } else {
      var rest := FirstSupportedAt(kinds[1..], f);
      k := rest + 1;
      forall i | 0 <= i < k ensures !Supports(f, kinds[i]) {
        assert i > 0 ==> kinds[1..][i - 1] == kinds[i];
      }
    }
  }

  predicate InPreference(kinds: seq<InterventionType>, excess: nat) {
    forall i, j :: 0 <= i < j < |kinds| ==> RanksBefore(kinds[i], kinds[j], excess)
  }

  lemma PreferenceHolds(cause: TailCauseCategory, excess: nat)
    requires excess > 0
    ensures InPreference(Preferred(cause), excess)
  {
    hide TypeCode;
    TypeOrder();
  }

  lemma PreferredCandidates(cause: TailCauseCategory)
    ensures forall t :: t in Preferred(cause) <==> t in CandidatesForCause(cause)
  {
  }

  lemma TypeOrder()
    ensures TypeCode(ReserveBandwidth) < TypeCode(ChangePlacement)
    ensures TypeCode(DeferLowPriority) < TypeCode(ReclaimMemory)
    ensures TypeCode(PromoteWarmEngine) < TypeCode(ReserveCapacity)
  {
  }

  lemma NotAfter(kinds: seq<InterventionType>, k: nat, j: nat, excess: nat)
    requires InPreference(kinds, excess) && k < |kinds| && j < |kinds| && !RanksBefore(kinds[k], kinds[j], excess)
    ensures j <= k
  {
    hide RanksBefore;
  }

  lemma SelectedFirst(kinds: seq<InterventionType>, candidates: seq<InterventionType>, f: Facts, excess: nat)
    requires NoAction !in candidates && InPreference(kinds, excess)
    requires forall t :: t in kinds <==> t in candidates
    ensures Choose(candidates, f, excess).selected == FirstSupported(kinds, f)
  {
    hide Supports, InfeasibilityOf, Choose, RanksBefore;
    SelectionIsOptimal(candidates, f, excess);
    var k := FirstSupportedAt(kinds, f);
    var c := Choose(candidates, f, excess).selected;
    forall t ensures Supports(f, t) <==> InfeasibilityOf(t, f) == Feasible {
      ReasonIff(f, t, Feasible);
    }
    if k < |kinds| {
      assert kinds[k] in candidates;
      var j :| 0 <= j < |kinds| && kinds[j] == c;
      NotAfter(kinds, k, j, excess);
    } else {
      forall t | t in candidates ensures !Supports(f, t) {
        var i :| 0 <= i < |kinds| && kinds[i] == t;
      }
    }
  }

  /** Above the recovery threshold, the first kind that the facts support is selected, in the fixed
      order of preference against the dominant cause; none if they support none. */
  lemma SelectedByPreference(causes: seq<TailCause>, observed: int, recovered: int, f: Facts)
    requires observed > recovered
    ensures Select(causes, observed, recovered, f).selected == FirstSupported(Preferred(DominantCause(causes)), f)
  {
    hide Choose, Preferred, FirstSupported, CandidatesForCause, RanksBefore;
    var cause := DominantCause(causes);
    CandidatesAct(cause);
    PreferenceHolds(cause, Excess(observed, recovered));
    PreferredCandidates(cause);
    SelectedFirst(Preferred(cause), CandidatesForCause(cause), f, Excess(observed, recovered));
  }

  /** The part of the excess that a kind is expected to remove, in tenths. */
  lemma ExpectedShare(kind: InterventionType)
    ensures EffectTenths(kind) == 8 <==>
      kind.BoundQueueWait? || kind.SplitBatch? || kind.WarmResidency? || kind.Failover?
    ensures EffectTenths(kind) == 7 <==>
      kind.QueueShape? || kind.PromoteWarmEngine? || kind.ReserveCapacity? || kind.PreemptLowerPriority?
        || kind.AccelerateRecovery?
    ensures EffectTenths(kind) == 6 <==>
      kind.LimitQueueDepth? || kind.ReduceBatchSize? || kind.ReserveBandwidth? || kind.ChangePlacement?
        || kind.ReplanRecovery?
    ensures EffectTenths(kind) == 5 <==>
      kind.QueueReprioritize? || kind.DisableBatchForClass? || kind.PinResidency? || kind.ShedLoad?
    ensures EffectTenths(kind) == 4 <==> kind.DeferLowPriority? || kind.ReclaimMemory?
    ensures EffectTenths(kind) == 3 <==> kind.Escalate?
    ensures EffectTenths(kind) == 2 <==> kind.ManualInterventionRequired?
    ensures EffectTenths(kind) == 0 <==> kind.NoAction? || kind.UnlistedType?
  {
  }

  /** What is selected is expected to remove its share of the excess over the recovery threshold,
      rounded down; nothing is expected of doing nothing. */
  lemma ExpectedReductionIs(causes: seq<TailCause>, observed: int, recovered: int, f: Facts)
    ensures var c := Select(causes, observed, recovered, f);
      var whole := EffectTenths(c.selected) * (if observed > recovered then observed - recovered else 0);
      10 * c.expectedReduction <= whole < 10 * c.expectedReduction + 10
  {
    hide CandidatesForCause, InfeasibilityOf, Filter, FirstHardConstraint, DominantCause, Reject, Ranked;
    var candidates, excess := CandidatesForCause(DominantCause(causes)), Excess(observed, recovered);
    var ranked := Ranked(Filter(IsFeasible(f), candidates), excess);
    if ranked != [] {
      DivBounds(EffectTenths(ranked[0]) * excess, 10);
    }
  }

  /** A reason that no choice among alternatives can work around. */
  predicate IsHard(reason: Infeasibility) {
    || reason.NonPreemptible? || reason.EngineUnavailable? || reason.CapacityUnavailable?
    || reason.NoFailoverCandidate? || reason.ProtectedTraffic? || reason.ViolatesHardSlo? || reason.ExceedsHardEconomy?
  }

  lemma {:induction false} FirstHardIs(rejected: seq<Rejected>) returns (k: nat)
    ensures k <= |rejected| && forall i :: 0 <= i < k ==> !IsHard(rejected[i].reason)
    ensures FirstHardConstraint(rejected) == if k < |rejected| then Some(rejected[k].reason) else None
    ensures k < |rejected| ==> IsHard(rejected[k].reason)
    decreases |rejected|
  {
    if rejected == [] {
      k := 0;
    } else {
      var init := rejected[..|rejected| - 1];
      k := FirstHardIs(init);
      assert forall i :: 0 <= i < |init| ==> init[i] == rejected[i];
      if k == |init| && !IsHard(rejected[k].reason) {
        k := k + 1;
      }
    }
  }

  // ---- the alternatives of a decision ------------------------------------------------------------

  lemma {:induction false} WithReasonIs(none: bool, rejected: seq<Rejected>)
    ensures WithReason(none, rejected) == Filter((r: Rejected) => r.reason.Feasible? == none, rejected)
    ensures forall r :: r in WithReason(none, rejected) <==> r in rejected && r.reason.Feasible? == none
    decreases |rejected|
  {
    var keep := (r: Rejected) => r.reason.Feasible? == none;
    if rejected != [] {
      var init, last := rejected[..|rejected| - 1], rejected[|rejected| - 1];
      WithReasonIs(none, init);
      FilterAppend(keep, init, [last]);
      assert rejected == init + [last];
      assert Filter(keep, [last]) == if keep(last) then [last] else [];
      assert Filter(keep, init) == WithReason(none, init);
    }
    FilterMembers(keep, rejected);
  }

  /** A decision's lists split what its binding evaluation rejected: as infeasible exactly the
      alternatives that the facts do not support, each with the reason that explains it, and as
      rejected exactly the others. */
  lemma AlternativesIff(causes: seq<TailCause>, observed: int, recovered: int, f: Facts, r: Rejected)
    ensures var rejected := Select(causes, observed, recovered, f).rejected;
      && (r in WithReason(false, rejected) <==> r in rejected && !Supports(f, r.kind))
      && (r in WithReason(true, rejected) <==> r in rejected && Supports(f, r.kind))
      && (r in rejected ==> Explains(f, r.kind, r.reason) && r.kind in CandidatesForCause(DominantCause(causes)))
  {
    hide Choose, CandidatesForCause, InfeasibilityOf, EffectTenths, DominantCause, Supports, Explains, Filter, Types,
      RanksBefore;
    var candidates := CandidatesForCause(DominantCause(causes));
    var c := Choose(candidates, f, Excess(observed, recovered));
    CandidatesAct(DominantCause(causes));
    SelectionIsOptimal(candidates, f, Excess(observed, recovered));
    WithReasonIs(false, c.rejected);
    WithReasonIs(true, c.rejected);
    if r in c.rejected {
      ReasonIff(f, r.kind, r.reason);
      ReasonIff(f, r.kind, Feasible);
      KindListed(c.rejected, r);
      assert r.kind in multiset(candidates);
    }
  }

  lemma KindListed(rejected: seq<Rejected>, r: Rejected)
    requires r in rejected
    ensures r.kind in multiset(Types(rejected))
  {
    var i :| 0 <= i < |rejected| && rejected[i] == r;
    assert Types(rejected)[i] == r.kind;
  }
}
