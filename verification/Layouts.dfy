/** The bytes on disk and on the wire: magic numbers, codes, and the place of every field. */
module Layouts {
  import opened Basics
  import opened Domain
  import opened Codes
  import opened Checksums
  import opened Codecs
  import opened StateFiles
  import opened Frames
  import opened LatencyMessages

  // ---- codes -----------------------------------------------------------------------------------

  /** The listed enumerators are numbered from zero; whatever lies outside is its own code. */
  lemma ListedCodes(code: int32)
    ensures code < 0 || code >= 4 ==> ModeOf(code) == UnlistedMode(code)
    ensures 0 <= code < 4 ==> ModeOf(code) == [RollingTime, RollingCount, Tumbling, FixedRecent][code]
    ensures 0 <= code < 17 ==> PhaseOf(code) == [
      AdmissionWait, QueueWait, BatchWait, Prefill, Decode, Execution, Transfer, StateFetch, ModelLoad, EngineWarmup,
      MemoryReclaim, PreemptionWait, RecoveryWait, RetryDelay, BackendWait, Publication, OtherPhase][code]
    ensures 0 <= code < 5 ==> RequestOf(code) == [
      RequestSuccess, RequestFailed, RequestTimeout, RequestCancelled, RequestAmbiguous][code]
    ensures 0 <= code < 16 ==> CauseOf(code) == [
      Queueing, Batching, ColdResidency, ModelOrStateLoad, TransferCause, MemoryPressure, ResourceContention,
      ExecutionVariance, Preemption, Recovery, RetryCause, BackendStall, PublicationDelay, CapacityShortage,
      PriorityInversion, UnknownCause][code]
    ensures 0 <= code < 23 ==> TypeOf(code) == [
      NoAction, QueueReprioritize, QueueShape, LimitQueueDepth, BoundQueueWait, ReduceBatchSize, SplitBatch,
      DisableBatchForClass, WarmResidency, PinResidency, PromoteWarmEngine, ReserveCapacity, ReserveBandwidth,
      PreemptLowerPriority, DeferLowPriority, ShedLoad, ReclaimMemory, ChangePlacement, AccelerateRecovery,
      ReplanRecovery, Failover, Escalate, ManualInterventionRequired][code]
    ensures 0 <= code < 11 ==> LifecycleOf(code) == [
      Proposed, Authorized, Dispatched, Acknowledged, Effective, Ineffective, Failed, Cancelled, Superseded, Expired,
      StatusUnknown][code]
    ensures 0 <= code < 7 ==> OutcomeOf(code) == [
      WasEffective, PartiallyEffective, WasIneffective, WorsenedTail, CreatedSecondaryViolation,
      InsufficientPostActionEvidence, OutcomeUnknown][code]
    ensures 0 <= code < 12 ==> ReasonOf(code) == [
      Feasible, NonPreemptible, EngineUnavailable, CapacityUnavailable, IncompatibleTarget, NoFailoverCandidate,
      BelowMinBatch, ProtectedTraffic, ViolatesHardSlo, ExceedsHardEconomy, StaleAuthorityReason,
      ShuttingDownReason][code]
  {
  }

  // ---- fields in front of fields -----------------------------------------------------------------

  lemma First(f: Field, rest: seq<Field>)
    ensures Bytes([f] + rest) == LittleEndian(f.value, f.width) + Bytes(rest)
  {
    assert ([f] + rest)[1..] == rest;
  }

  lemma AllFirst()
    ensures forall f: Field, rest: seq<Field> :: Bytes([f] + rest) == LittleEndian(f.value, f.width) + Bytes(rest)
  {
    forall f: Field, rest: seq<Field> ensures Bytes([f] + rest) == LittleEndian(f.value, f.width) + Bytes(rest) {
      First(f, rest);
    }
  }

  function Word8(v: int): seq<byte> {
    LittleEndian(v, 8)
  }

  function Word4(v: int): seq<byte> {
    LittleEndian(v, 4)
  }

  function Yes(b: bool): seq<byte> {
    if b then [1] else [0]
  }

  lemma YesByte(b: bool)
    ensures LittleEndian(Flag(b), 1) == Yes(b)
  {
    ByteValue(Flag(b));
    assert LittleEndian(Flag(b), 1)[0] as int == Flag(b);
    assert LittleEndian(Flag(b) / 256, 0) == [];
  }

  // ---- the state file ----------------------------------------------------------------------------

  function ScopeBytes(scope: Option<nat>): seq<byte> {
    match scope
    case None => [0]
    case Some(c) => [1] + Word8(c)
  }

  lemma ScopeLayout(scope: Option<nat>, rest: seq<Field>)
    ensures Bytes(ScopeFields(scope, rest)) == ScopeBytes(scope) + Bytes(rest)
  {
    YesByte(scope.Some?);
    match scope {
      case None => First(U8(0), rest);
      case Some(c) =>
        First(U8(1), [U64(c)] + rest);
        First(U64(c), rest);
        assert [1] + (Word8(c) + Bytes(rest)) == ([1] + Word8(c)) + Bytes(rest);
    }
  }

  /** An objective in the file, byte by byte. */
  lemma ObjectiveLayout(o: Objective, rest: seq<Field>)
    ensures Bytes(ObjectiveFields(o, rest)) ==
      Word8(o.id) + (Word8(o.generation) + (Word8(o.percentile) + (Word8(o.target)
      + (Word4(ModeCode(o.window.mode)) + (Word8(o.window.duration) + (Word8(o.window.maxSamples)
      + (Word8(o.window.fixedCount) + (Word8(o.minSamples) + (Word8(o.freshness) + (Yes(o.hard)
      + (Word8(o.recoveryFraction) + (Word8(o.coolDown) + (ScopeBytes(o.classScope)
      + (Word4(o.priority) + (Yes(o.enabled) + Bytes(rest))))))))))))))))
  {
    hide Bytes, LittleEndian, Yes, ModeCode, ScopeFields, ScopeBytes;
    AllFirst();
    YesByte(o.hard);
    YesByte(o.enabled);
    ScopeLayout(o.classScope, [U32(o.priority)] + ([U8(Flag(o.enabled))] + rest));
  }

  /** An intervention in the file: everything but the authority it was built against. */
  lemma InterventionLayout(i: Intervention, rest: seq<Field>)
    ensures Bytes(InterventionFields(i, rest)) ==
      Word8(i.id) + (Word8(i.generation) + (Word4(TypeCode(i.kind)) + (Word4(LifecycleCode(i.status))
      + (Word8(i.objective) + (Word8(i.objectiveGeneration) + (Word4(CauseCode(i.cause)) + (Word8(i.targetClass)
      + (Word8(i.proposedAt) + (Word8(i.expiryAt) + (Word8(i.effect) + (Yes(i.feasibility != Feasible)
      + (Word4(ReasonCode(i.feasibility)) + (Word8(i.confidence) + Bytes(rest))))))))))))))
  {
    hide Bytes, LittleEndian, Yes, TypeCode, LifecycleCode, CauseCode, ReasonCode;
    AllFirst();
    YesByte(i.feasibility != Feasible);
  }

  /** The policy at the head of the body. */
  lemma PolicyLayout(epoch: nat, pol: Policy, rest: seq<Field>)
    ensures Bytes(PolicyPart(epoch, pol, rest)) ==
      Word8(epoch) + (Word8(pol.id) + (Word8(pol.generation) + (Word4(|pol.objectives|)
      + Bytes(WriteMany(ObjectiveFields, pol.objectives, rest)))))
  {
    hide Bytes, LittleEndian, WriteMany;
    AllFirst();
  }

  /** The tables behind it, each with its count, and the two counters at the end. */
  lemma TablesLayout(d: Durable, rest: seq<Field>, id: nat, outcome: PostOutcome, flag: bool)
    ensures Bytes(InterventionPart(d.interventions, rest))
      == Word4(|d.interventions|) + Bytes(WriteMany(InterventionFields, Values(Entries(d.interventions)), rest))
    ensures Bytes(OutcomePart(d.outcomes, rest))
      == Word4(|d.outcomes|) + Bytes(WriteMany(OutcomeFields, Entries(d.outcomes), rest))
    ensures Bytes(RevalPart(d.reval, rest))
      == Word4(|d.reval|) + Bytes(WriteMany(RevalFields, Entries(d.reval), rest))
    ensures Bytes(OutcomeFields((id, outcome), rest)) == Word8(id) + (Word4(OutcomeCode(outcome)) + Bytes(rest))
    ensures Bytes(RevalFields((id, flag), rest)) == Word8(id) + (Yes(flag) + Bytes(rest))
    ensures Bytes(CounterFields(d)) == Word8(d.nextEval) + (Word8(d.nextInt) + [])
  {
    hide LittleEndian, WriteMany, Yes, OutcomeCode;
    AllFirst();
    YesByte(flag);
  }

  /** The header of a file: the characters VOGT, version 1, the length of the body and its
      checksum. */
  lemma HeaderLayout(epoch: nat, d: Durable)
    ensures var body := Bytes(BodyFields(epoch, d));
      Save(epoch, d) == [0x56, 0x4F, 0x47, 0x54] + [1, 0, 0, 0] + Word8(|body|) + CrcBytes(Crc(body)) + body
  {
    hide Bytes, BodyFields, Crc, CrcBytes;
    FourBytesOf(MAGIC, [0x56, 0x4F, 0x47, 0x54]);
    FourBytesOf(VERSION, [1, 0, 0, 0]);
  }

  lemma FourBytesOf(v: int, b: seq<byte>)
    requires |b| == 4
    requires v == b[0] as int + 256 * (b[1] as int) + 65536 * (b[2] as int) + 16777216 * (b[3] as int)
    ensures LittleEndian(v, 4) == b
  {
    Powers();
    UnsignedFour(b);
    UnsignedBound(b);
    LittleEndianValue(v, 4);
    UnsignedInjective(LittleEndian(v, 4), b);
  }

  lemma UnsignedFour(b: seq<byte>)
    requires |b| == 4
    ensures Unsigned(b) == b[0] as int + 256 * (b[1] as int) + 65536 * (b[2] as int) + 16777216 * (b[3] as int)
  {
    assert Unsigned(b[1..]) == b[1] as int + 256 * Unsigned(b[1..][1..]);
    assert b[1..][1..] == b[2..];
    assert Unsigned(b[2..]) == b[2] as int + 256 * Unsigned(b[2..][1..]);
    assert b[2..][1..] == b[3..];
    assert Unsigned(b[3..]) == b[3] as int + 256 * Unsigned(b[3..][1..]);
    assert b[3..][1..] == [];
  }

  /** The limits of a load in numbers. */
  lemma LoadLimits(before: Durable, epoch: nat, d: Durable)
    requires Representable(epoch, d)
    ensures Load(before, Save(epoch, d)).1 == Success <==>
      && |d.pol.objectives| <= 8192 && |d.interventions| <= 100_000 && |d.outcomes| <= 100_000 && |d.reval| <= 8192
      && |Save(epoch, d)| <= 268_435_456
  {
    hide Load, Save, Representable, Restored;
    RoundTrip(before, epoch, d);
  }

  // ---- frames and messages -----------------------------------------------------------------------

  /** The header of a frame: the characters NVGT, version 1 in two bytes, the length of the payload and
      its checksum. */
  lemma FrameLayout(payload: seq<byte>)
    ensures FrameOf(payload) ==
      [0x4E, 0x56, 0x47, 0x54] + [1, 0] + Word4(|payload|) + CrcBytes(Crc(payload)) + payload
  {
    hide Crc, CrcBytes;
    FourBytesOf(FRAME_MAGIC, [0x4E, 0x56, 0x47, 0x54]);
    TwoBytesOfOne();
  }

  lemma TwoBytesOfOne()
    ensures LittleEndian(FRAME_VERSION, 2) == [1, 0]
  {
    var b: seq<byte> := [1, 0];
    Powers();
    LittleEndianValue(1, 2);
    assert b[1..] == [0] && b[1..][1..] == [];
    UnsignedInjective(LittleEndian(1, 2), b);
  }

  /** A latency message, byte by byte. */
  lemma MessageLayout(r: RequestLatency)
    ensures Serialize(r) ==
      LittleEndian(2, 1) + (Word8(r.requestId) + (Word8(r.requestClass) + (Word8(r.worker) + (Word8(r.workerBoot)
      + (Word8(r.epoch) + (Word8(r.serviceGeneration) + (Word8(r.workloadGeneration) + (Word8(r.arrival)
      + (Word8(r.completion) + (Word8(r.publication) + (Word8(r.captured) + (Word8(r.total)
      + (Word4(RequestCode(r.status)) + (Word4(r.retryCount) + (Word4(|r.phases|)
      + Bytes(WriteMany(PhaseFields, r.phases, [])))))))))))))))))
  {
    hide Bytes, LittleEndian, WriteMany, RequestCode;
    AllFirst();
  }

  lemma PhaseLayout(p: PhaseLatency, rest: seq<Field>)
    ensures Bytes(PhaseFields(p, rest)) == Word4(PhaseCode(p.phase)) + (Word8(p.duration) + Bytes(rest))
  {
    hide Bytes, LittleEndian, PhaseCode;
    AllFirst();
  }

  lemma PayloadAnnounced(payload: seq<byte>, rest: seq<byte>)
    requires U32Range(|payload|)
    ensures var s := FrameOf(payload) + rest;
      |s| >= 14 && Unsigned(s[6..10]) == |payload| && Unsigned(s[..14][6..10]) == |payload|
  {
    FourPieces(LittleEndian(FRAME_MAGIC, 4), LittleEndian(FRAME_VERSION, 2), LittleEndian(|payload|, 4),
      CrcBytes(Crc(payload)), payload + rest);
    Powers();
    LittleEndianValue(|payload|, 4);
    assert FrameOf(payload) + rest == FrameHeader(payload) + (payload + rest);
  }

  /** A frame is taken exactly up to half a mebibyte of payload. */
  lemma FrameLimit(payload: seq<byte>, rest: seq<byte>)
    requires U32Range(|payload|)
    ensures ParseFrame(FrameOf(payload) + rest).Some? <==> |payload| <= 524_288
  {
    hide Unsigned, Crc, CrcOf, FrameOf;
    PayloadAnnounced(payload, rest);
    if |payload| <= MAX_FRAME {
      ParseOwnFrame(payload, rest);
    }
  }

  /** A message is taken exactly up to 64 phases. */
  lemma MessageLimit(r: RequestLatency, into: RequestLatency)
    requires Transmittable(r) && into.phases == []
    ensures Deserialize(Serialize(r), into).1 <==> |r.phases| <= 64
  {
    hide Deserialize, Serialize, Transmittable;
    LatencyRoundTrip(r, into);
  }
}
