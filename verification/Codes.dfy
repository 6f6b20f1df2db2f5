/** The integer code of every enumerator, as static_cast moves it into a file or a frame
    and back. */
module Codes {
  import opened Domain

  const MODES: seq<WindowMode> := [
    RollingTime, RollingCount, Tumbling, FixedRecent]

  function ModeOf(code: int32): WindowMode {
    if 0 <= code < 4 then MODES[code] else UnlistedMode(code)
  }

  function ModeCode(x: WindowMode): int32 {
    match x
    case RollingTime => 0
    case RollingCount => 1
    case Tumbling => 2
    case FixedRecent => 3
    case UnlistedMode(code) => code
  }

  lemma ModeCodes(x: WindowMode, code: int32)
    ensures ModeOf(ModeCode(x)) == x
    ensures ModeCode(ModeOf(code)) == code
  {
    assert 0 <= code < 4 ==> ModeCode(MODES[code]) == code;
  }

  const PHASES: seq<Phase> := [
    AdmissionWait, QueueWait, BatchWait, Prefill, Decode, Execution, Transfer, StateFetch, ModelLoad,
    EngineWarmup, MemoryReclaim, PreemptionWait, RecoveryWait, RetryDelay, BackendWait, Publication,
    OtherPhase]

  function PhaseOf(code: int32): Phase {
    if 0 <= code < 17 then PHASES[code] else UnlistedPhase(code)
  }

  function PhaseCode(x: Phase): int32 {
    match x
    case AdmissionWait => 0
    case QueueWait => 1
    case BatchWait => 2
    case Prefill => 3
    case Decode => 4
    case Execution => 5
    case Transfer => 6
    case StateFetch => 7
    case ModelLoad => 8
    case EngineWarmup => 9
    case MemoryReclaim => 10
    case PreemptionWait => 11
    case RecoveryWait => 12
    case RetryDelay => 13
    case BackendWait => 14
    case Publication => 15
    case OtherPhase => 16
    case UnlistedPhase(code) => code
  }

  lemma PhaseCodes(x: Phase, code: int32)
    ensures PhaseOf(PhaseCode(x)) == x
    ensures PhaseCode(PhaseOf(code)) == code
  {
    assert 0 <= code < 17 ==> PhaseCode(PHASES[code]) == code;
  }

  const REQUESTS: seq<RequestStatus> := [
    RequestSuccess, RequestFailed, RequestTimeout, RequestCancelled, RequestAmbiguous]

  function RequestOf(code: int32): RequestStatus {
    if 0 <= code < 5 then REQUESTS[code] else UnlistedRequest(code)
  }

  function RequestCode(x: RequestStatus): int32 {
    match x
    case RequestSuccess => 0
    case RequestFailed => 1
    case RequestTimeout => 2
    case RequestCancelled => 3
    case RequestAmbiguous => 4
    case UnlistedRequest(code) => code
  }

  lemma RequestCodes(x: RequestStatus, code: int32)
    ensures RequestOf(RequestCode(x)) == x
    ensures RequestCode(RequestOf(code)) == code
  {
    assert 0 <= code < 5 ==> RequestCode(REQUESTS[code]) == code;
  }

  const CAUSES: seq<TailCauseCategory> := [
    Queueing, Batching, ColdResidency, ModelOrStateLoad, TransferCause, MemoryPressure, ResourceContention,
    ExecutionVariance, Preemption, Recovery, RetryCause, BackendStall, PublicationDelay, CapacityShortage,
    PriorityInversion, UnknownCause]

  function CauseOf(code: int32): TailCauseCategory {
    if 0 <= code < 16 then CAUSES[code] else UnlistedCause(code)
  }

  function CauseCode(x: TailCauseCategory): int32 {
    match x
    case Queueing => 0
    case Batching => 1
    case ColdResidency => 2
    case ModelOrStateLoad => 3
    case TransferCause => 4
    case MemoryPressure => 5
    case ResourceContention => 6
    case ExecutionVariance => 7
    case Preemption => 8
    case Recovery => 9
    case RetryCause => 10
    case BackendStall => 11
    case PublicationDelay => 12
    case CapacityShortage => 13
    case PriorityInversion => 14
    case UnknownCause => 15
    case UnlistedCause(code) => code
  }

  lemma CauseCodes(x: TailCauseCategory, code: int32)
    ensures CauseOf(CauseCode(x)) == x
    ensures CauseCode(CauseOf(code)) == code
  {
    assert 0 <= code < 16 ==> CauseCode(CAUSES[code]) == code;
  }

  const TYPES: seq<InterventionType> := [
    NoAction, QueueReprioritize, QueueShape, LimitQueueDepth, BoundQueueWait, ReduceBatchSize, SplitBatch,
    DisableBatchForClass, WarmResidency, PinResidency, PromoteWarmEngine, ReserveCapacity, ReserveBandwidth,
    PreemptLowerPriority, DeferLowPriority, ShedLoad, ReclaimMemory, ChangePlacement, AccelerateRecovery,
    ReplanRecovery, Failover, Escalate, ManualInterventionRequired]

  function TypeOf(code: int32): InterventionType {
    if 0 <= code < 23 then TYPES[code] else UnlistedType(code)
  }

  function TypeCode(x: InterventionType): int32 {
    match x
    case NoAction => 0
    case QueueReprioritize => 1
    case QueueShape => 2
    case LimitQueueDepth => 3
    case BoundQueueWait => 4
    case ReduceBatchSize => 5
    case SplitBatch => 6
    case DisableBatchForClass => 7
    case WarmResidency => 8
    case PinResidency => 9
    case PromoteWarmEngine => 10
    case ReserveCapacity => 11
    case ReserveBandwidth => 12
    case PreemptLowerPriority => 13
    case DeferLowPriority => 14
    case ShedLoad => 15
    case ReclaimMemory => 16
    case ChangePlacement => 17
    case AccelerateRecovery => 18
    case ReplanRecovery => 19
    case Failover => 20
    case Escalate => 21
    case ManualInterventionRequired => 22
    case UnlistedType(code) => code
  }

  lemma TypeAtCode(x: InterventionType)
    ensures TypeOf(TypeCode(x)) == x
  {
  }

  lemma CodeOfType(code: int32)
    ensures TypeCode(TypeOf(code)) == code
  {
    assert 0 <= code < 23 ==> TypeCode(TYPES[code]) == code;
  }

  lemma TypeCodes(x: InterventionType, code: int32)
    ensures TypeOf(TypeCode(x)) == x
    ensures TypeCode(TypeOf(code)) == code
  {
    hide TypeOf, TypeCode;
    TypeAtCode(x);
    CodeOfType(code);
  }

  const LIFECYCLE: seq<InterventionStatus> := [
    Proposed, Authorized, Dispatched, Acknowledged, Effective, Ineffective, Failed, Cancelled, Superseded,
    Expired, StatusUnknown]

  function LifecycleOf(code: int32): InterventionStatus {
    if 0 <= code < 11 then LIFECYCLE[code] else UnlistedStatus(code)
  }

  function LifecycleCode(x: InterventionStatus): int32 {
    match x
    case Proposed => 0
    case Authorized => 1
    case Dispatched => 2
    case Acknowledged => 3
    case Effective => 4
    case Ineffective => 5
    case Failed => 6
    case Cancelled => 7
    case Superseded => 8
    case Expired => 9
    case StatusUnknown => 10
    case UnlistedStatus(code) => code
  }

  lemma LifecycleCodes(x: InterventionStatus, code: int32)
    ensures LifecycleOf(LifecycleCode(x)) == x
    ensures LifecycleCode(LifecycleOf(code)) == code
  {
    assert 0 <= code < 11 ==> LifecycleCode(LIFECYCLE[code]) == code;
  }

  const OUTCOMES: seq<PostOutcome> := [
    WasEffective, PartiallyEffective, WasIneffective, WorsenedTail, CreatedSecondaryViolation,
    InsufficientPostActionEvidence, OutcomeUnknown]

  function OutcomeOf(code: int32): PostOutcome {
    if 0 <= code < 7 then OUTCOMES[code] else UnlistedOutcome(code)
  }

  function OutcomeCode(x: PostOutcome): int32 {
    match x
    case WasEffective => 0
    case PartiallyEffective => 1
    case WasIneffective => 2
    case WorsenedTail => 3
    case CreatedSecondaryViolation => 4
    case InsufficientPostActionEvidence => 5
    case OutcomeUnknown => 6
    case UnlistedOutcome(code) => code
  }

  lemma OutcomeCodes(x: PostOutcome, code: int32)
    ensures OutcomeOf(OutcomeCode(x)) == x
    ensures OutcomeCode(OutcomeOf(code)) == code
  {
    assert 0 <= code < 7 ==> OutcomeCode(OUTCOMES[code]) == code;
  }

  const REASONS: seq<Infeasibility> := [
    Feasible, NonPreemptible, EngineUnavailable, CapacityUnavailable, IncompatibleTarget,
    NoFailoverCandidate, BelowMinBatch, ProtectedTraffic, ViolatesHardSlo, ExceedsHardEconomy,
    StaleAuthorityReason, ShuttingDownReason]

  function ReasonOf(code: int32): Infeasibility {
    if 0 <= code < 12 then REASONS[code] else UnlistedReason(code)
  }

  function ReasonCode(x: Infeasibility): int32 {
    match x
    case Feasible => 0
    case NonPreemptible => 1
    case EngineUnavailable => 2
    case CapacityUnavailable => 3
    case IncompatibleTarget => 4
    case NoFailoverCandidate => 5
    case BelowMinBatch => 6
    case ProtectedTraffic => 7
    case ViolatesHardSlo => 8
    case ExceedsHardEconomy => 9
    case StaleAuthorityReason => 10
    case ShuttingDownReason => 11
    case UnlistedReason(code) => code
  }

  lemma ReasonCodes(x: Infeasibility, code: int32)
    ensures ReasonOf(ReasonCode(x)) == x
    ensures ReasonCode(ReasonOf(code)) == code
  {
    assert 0 <= code < 12 ==> ReasonCode(REASONS[code]) == code;
  }

  /** Every enumeration and its codes convert both ways without loss, listed or not. */
  lemma EveryCode(code: int32, mode: WindowMode, phase: Phase, request: RequestStatus, cause: TailCauseCategory,
                  kind: InterventionType, status: InterventionStatus, outcome: PostOutcome, reason: Infeasibility)
    ensures ModeCode(ModeOf(code)) == PhaseCode(PhaseOf(code)) == RequestCode(RequestOf(code))
      == CauseCode(CauseOf(code)) == code
    ensures TypeCode(TypeOf(code)) == LifecycleCode(LifecycleOf(code)) == OutcomeCode(OutcomeOf(code)) == code
    ensures ReasonCode(ReasonOf(code)) == code
    ensures ModeOf(ModeCode(mode)) == mode && PhaseOf(PhaseCode(phase)) == phase
      && RequestOf(RequestCode(request)) == request
    ensures CauseOf(CauseCode(cause)) == cause && TypeOf(TypeCode(kind)) == kind
      && LifecycleOf(LifecycleCode(status)) == status
    ensures OutcomeOf(OutcomeCode(outcome)) == outcome && ReasonOf(ReasonCode(reason)) == reason
  {
    hide ModeCode, ModeOf, PhaseCode, PhaseOf, RequestCode, RequestOf, CauseCode, CauseOf, TypeCode, TypeOf,
      LifecycleCode, LifecycleOf, OutcomeCode, OutcomeOf, ReasonCode, ReasonOf;
    ModeCodes(mode, code);
    PhaseCodes(phase, code);
    RequestCodes(request, code);
    CauseCodes(cause, code);
    TypeCodes(kind, code);
    LifecycleCodes(status, code);
    OutcomeCodes(outcome, code);
    ReasonCodes(reason, code);
  }
}
