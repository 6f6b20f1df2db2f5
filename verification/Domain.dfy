/** The records and enumerations that travel between the parts of the governor.
    A C++ enum class is an int, so a value read from a file or a socket can lie outside
    the listed constants; the `Unlisted` constructors carry such values. */
module Domain {
  import opened Basics

  type int32 = x: int | -0x8000_0000 <= x < 0x8000_0000

  /** A persisted floating-point number, as its 64-bit pattern. */
  type Bits = x: int | 0 <= x < 0x1_0000_0000_0000_0000

  /** How a window forgets. */
  datatype WindowMode =
    | RollingTime
    | RollingCount
    | Tumbling
    | FixedRecent
    | UnlistedMode(code: OutsideMode)

  type OutsideMode = c: int32 | c < 0 || c >= 4 witness 4

  /** Latency phases; the order of the constructors is the order of the codes. */
  datatype Phase =
    | AdmissionWait
    | QueueWait
    | BatchWait
    | Prefill
    | Decode
    | Execution
    | Transfer
    | StateFetch
    | ModelLoad
    | EngineWarmup
    | MemoryReclaim
    | PreemptionWait
    | RecoveryWait
    | RetryDelay
    | BackendWait
    | Publication
    | OtherPhase
    | UnlistedPhase(code: OutsidePhase)

  type OutsidePhase = c: int32 | c < 0 || c >= 17 witness 17

  /** Final status of a request. */
  datatype RequestStatus =
    | RequestSuccess
    | RequestFailed
    | RequestTimeout
    | RequestCancelled
    | RequestAmbiguous
    | UnlistedRequest(code: OutsideRequest)

  type OutsideRequest = c: int32 | c < 0 || c >= 5 witness 5

  /** Typed causes of a slow tail. */
  datatype TailCauseCategory =
    | Queueing
    | Batching
    | ColdResidency
    | ModelOrStateLoad
    | TransferCause
    | MemoryPressure
    | ResourceContention
    | ExecutionVariance
    | Preemption
    | Recovery
    | RetryCause
    | BackendStall
    | PublicationDelay
    | CapacityShortage
    | PriorityInversion
    | UnknownCause
    | UnlistedCause(code: OutsideCause)

  type OutsideCause = c: int32 | c < 0 || c >= 16 witness 16

  /** Intervention classes. */
  datatype InterventionType =
    | NoAction
    | QueueReprioritize
    | QueueShape
    | LimitQueueDepth
    | BoundQueueWait
    | ReduceBatchSize
    | SplitBatch
    | DisableBatchForClass
    | WarmResidency
    | PinResidency
    | PromoteWarmEngine
    | ReserveCapacity
    | ReserveBandwidth
    | PreemptLowerPriority
    | DeferLowPriority
    | ShedLoad
    | ReclaimMemory
    | ChangePlacement
    | AccelerateRecovery
    | ReplanRecovery
    | Failover
    | Escalate
    | ManualInterventionRequired
    | UnlistedType(code: OutsideType)

  type OutsideType = c: int32 | c < 0 || c >= 23 witness 23

  /** Intervention lifecycle. */
  datatype InterventionStatus =
    | Proposed
    | Authorized
    | Dispatched
    | Acknowledged
    | Effective
    | Ineffective
    | Failed
    | Cancelled
    | Superseded
    | Expired
    | StatusUnknown
    | UnlistedStatus(code: OutsideStatus)

  type OutsideStatus = c: int32 | c < 0 || c >= 11 witness 11

  /** Post-action verification outcomes. */
  datatype PostOutcome =
    | WasEffective
    | PartiallyEffective
    | WasIneffective
    | WorsenedTail
    | CreatedSecondaryViolation
    | InsufficientPostActionEvidence
    | OutcomeUnknown
    | UnlistedOutcome(code: OutsideOutcome)

  type OutsideOutcome = c: int32 | c < 0 || c >= 7 witness 7

  /** Why an intervention cannot be taken. */
  datatype Infeasibility =
    | Feasible
    | NonPreemptible
    | EngineUnavailable
    | CapacityUnavailable
    | IncompatibleTarget
    | NoFailoverCandidate
    | BelowMinBatch
    | ProtectedTraffic
    | ViolatesHardSlo
    | ExceedsHardEconomy
    | StaleAuthorityReason
    | ShuttingDownReason
    | UnlistedReason(code: OutsideReason)

  type OutsideReason = c: int32 | c < 0 || c >= 12 witness 12

  datatype TailState =
    | Healthy | Elevated | AtRisk | Violating | Severe | Recovering
    | InsufficientEvidence | RevalidationRequired | Stale | UnknownState

  datatype Sufficiency = Sufficient | InsufficientSamples | InsufficientWindow | StaleEvidence | UnknownSufficiency

  datatype StatusCode =
    | Success | InvalidInput | NoEvidence | StaleAuthority | ObjectiveInactive
    | InterventionInfeasible | PersistenceCorrupt | ShuttingDown

  datatype Attribution = DominantContributor | AssociatedContributor | UnknownAttribution

  // ---- evidence ----------------------------------------------------------------

  datatype PhaseLatency = PhaseLatency(phase: Phase, duration: int)

  datatype RequestLatency = RequestLatency(
    requestId: nat, requestClass: nat,
    worker: nat, workerBoot: nat, epoch: nat,
    serviceGeneration: nat, workloadGeneration: nat,
    arrival: int, completion: int, publication: int, captured: int,
    total: int, status: RequestStatus, retryCount: nat,
    phases: seq<PhaseLatency>, evidenceGeneration: nat)
  {
    predicate HasPublication() {
      publication > 0
    }

    predicate IsAuthoritativeCompletion() {
      status == RequestSuccess && HasPublication() && publication >= completion
    }

    /** The total rebuilt from the lifecycle timestamps. */
    function ResolvedTotal(): Result<int, StatusCode> {
      if HasPublication() && publication >= arrival then Ok(publication - arrival)
      else if completion >= arrival then Ok(completion - arrival)
      else Err(InvalidInput)
    }
  }

  datatype TailSample = TailSample(
    latency: int, captured: int, arrival: int, phases: seq<PhaseLatency>,
    requestClass: nat, workerBoot: nat, epoch: nat, retryCount: nat)

  // ---- objectives and policies -------------------------------------------------

  datatype WindowConfig = WindowConfig(mode: WindowMode, duration: int, fixedCount: nat, maxSamples: nat)

  const DEFAULT_WINDOW := WindowConfig(RollingTime, 5_000_000_000, 1000, 1_000_000)

  datatype Objective = Objective(
    id: nat, generation: nat, percentile: Bits, target: int, window: WindowConfig,
    minSamples: nat, freshness: int, hard: bool, recoveryFraction: Bits,
    coolDown: int, classScope: Option<nat>, priority: int, enabled: bool)
  {
    /** The request class whose window the objective is judged on; 0 holds every class. */
    function Scope(): nat {
      match classScope
      case None => 0
      case Some(c) => c
    }
  }

  datatype Policy = Policy(id: nat, generation: nat, objectives: seq<Objective>)

  /** The first objective that carries an id. */
  function FindObjective(objectives: seq<Objective>, id: nat): (r: Option<Objective>)
    ensures r.Some? ==> r.value in objectives && r.value.id == id
    ensures r.None? ==> forall o :: o in objectives ==> o.id != id
  {
    if objectives == [] then None
    else if objectives[0].id == id then Some(objectives[0])
    else FindObjective(objectives[1..], id)
  }

  predicate DistinctIds(objectives: seq<Objective>) {
    forall i, j :: 0 <= i < j < |objectives| ==> objectives[i].id != objectives[j].id
  }

  lemma {:induction false} FindDistinct(objectives: seq<Objective>, i: nat)
    requires DistinctIds(objectives) && i < |objectives|
    ensures FindObjective(objectives, objectives[i].id) == Some(objectives[i])
  {
    if i > 0 {
      FindDistinct(objectives[1..], i - 1);
    }
  }

  // ---- authority and interventions ---------------------------------------------

  /** The generations an evaluation or an intervention was built against. */
  datatype Authority = Authority(
    epoch: nat, service: nat, serviceGeneration: nat, workload: nat, workloadGeneration: nat,
    policy: nat, policyGeneration: nat, objective: nat, objectiveGeneration: nat,
    queueGeneration: Option<nat>, batchGeneration: Option<nat>, resourceGeneration: Option<nat>,
    workerBoot: Option<nat>, engineIncarnation: Option<nat>,
    recoveryGeneration: Option<nat>, topologyGeneration: Option<nat>)

  const NO_AUTHORITY := Authority(0, 0, 0, 0, 0, 0, 0, 0, 0, None, None, None, None, None, None, None)

  /** The comparison leaves no field out. */
  predicate Same(a: Authority, b: Authority)
    ensures Same(a, b) <==> a == b
  {
    && a.epoch == b.epoch
    && a.service == b.service
    && a.serviceGeneration == b.serviceGeneration
    && a.workload == b.workload
    && a.workloadGeneration == b.workloadGeneration
    && a.policy == b.policy
    && a.policyGeneration == b.policyGeneration
    && a.objective == b.objective
    && a.objectiveGeneration == b.objectiveGeneration
    && a.queueGeneration == b.queueGeneration
    && a.batchGeneration == b.batchGeneration
    && a.resourceGeneration == b.resourceGeneration
    && a.workerBoot == b.workerBoot
    && a.engineIncarnation == b.engineIncarnation
    && a.recoveryGeneration == b.recoveryGeneration
    && a.topologyGeneration == b.topologyGeneration
  }

  datatype Intervention = Intervention(
    id: nat, generation: nat, kind: InterventionType, status: InterventionStatus,
    cause: TailCauseCategory, targetClass: nat, authority: Authority,
    objective: nat, objectiveGeneration: nat, effect: int,
    feasibility: Infeasibility, confidence: Bits, proposedAt: int, expiryAt: int)

  predicate IsTerminal(s: InterventionStatus) {
    s.Effective? || s.Ineffective? || s.Failed? || s.Cancelled? || s.Superseded? || s.Expired? || s.StatusUnknown?
  }

  /** The facts that decide which interventions are feasible. */
  datatype Facts = Facts(
    engineAvailable: bool, warmEngineReady: bool, capacityAvailable: bool, preemptibleWork: bool,
    failoverCandidate: bool, targetCompatible: bool, batchAboveMin: bool, protectedTraffic: bool,
    preemptionBudget: real, failoverBudget: real, batchBudget: real, residencyBudget: real, sheddingBudget: real)
}
