/** The versioned, checksummed state file. */
module StateFiles {
  import opened Basics
  import opened Domain
  import opened Codes
  import opened Checksums
  import opened Codecs

  /** The part of the governor's state that a file replaces. */
  datatype Durable = Durable(
    pol: Policy, interventions: map<int, Intervention>, outcomes: map<int, PostOutcome>,
    reval: map<int, bool>, nextEval: nat, nextInt: nat)

  const MAGIC := 0x5447_4F56
  const VERSION := 1
  const MAX_FILE := 256 * 1024 * 1024
  const HEADER := 20
  const MAX_OBJECTIVES := 8192
  const MAX_INTERVENTIONS := 100_000
  const MAX_OUTCOMES := 100_000
  const MAX_REVALIDATIONS := 8192

  // ---- what a file says --------------------------------------------------------------

  function Flag(b: bool): int {
    if b then 1 else 0
  }

  function WindowFields(w: WindowConfig, rest: seq<Field>): seq<Field> {
    [U32(ModeCode(w.mode))] + ([U64(w.duration)] + ([U64(w.maxSamples)] + ([U64(w.fixedCount)] + rest)))
  }

  function ScopeFields(scope: Option<nat>, rest: seq<Field>): seq<Field> {
    [U8(Flag(scope.Some?))] + (match scope case None => rest case Some(c) => [U64(c)] + rest)
  }

  function LimitFields(o: Objective, rest: seq<Field>): seq<Field> {
    [U64(o.minSamples)] + ([U64(o.freshness)] + ([U8(Flag(o.hard))]
      + ([U64(o.recoveryFraction)] + ([U64(o.coolDown)] + rest))))
  }

  function ObjectiveFields(o: Objective, rest: seq<Field>): seq<Field> {
    [U64(o.id)] + ([U64(o.generation)] + ([U64(o.percentile)] + ([U64(o.target)]
      + WindowFields(o.window, LimitFields(o,
          ScopeFields(o.classScope, [U32(o.priority)] + ([U8(Flag(o.enabled))] + rest)))))))
  }

  function TargetFields(i: Intervention, rest: seq<Field>): seq<Field> {
    [U64(i.objective)] + ([U64(i.objectiveGeneration)] + ([U32(CauseCode(i.cause))] + ([U64(i.targetClass)] + rest)))
  }

  function EstimateFields(i: Intervention, rest: seq<Field>): seq<Field> {
    [U64(i.proposedAt)] + ([U64(i.expiryAt)] + ([U64(i.effect)] + ([U8(Flag(i.feasibility != Feasible))]
      + ([U32(ReasonCode(i.feasibility))] + ([U64(i.confidence)] + rest)))))
  }

  function InterventionFields(i: Intervention, rest: seq<Field>): seq<Field> {
    [U64(i.id)] + ([U64(i.generation)] + ([U32(TypeCode(i.kind))] + ([U32(LifecycleCode(i.status))]
      + TargetFields(i, EstimateFields(i, rest)))))
  }

  function OutcomeFields(o: (int, PostOutcome), rest: seq<Field>): seq<Field> {
    [U64(o.0)] + ([U32(OutcomeCode(o.1))] + rest)
  }

  function RevalFields(r: (int, bool), rest: seq<Field>): seq<Field> {
    [U64(r.0)] + ([U8(Flag(r.1))] + rest)
  }

  function Values<V>(entries: seq<(int, V)>): (r: seq<V>)
    ensures |r| == |entries| && forall i :: 0 <= i < |r| ==> r[i] == entries[i].1
  {
    seq(|entries|, i requires 0 <= i < |entries| => entries[i].1)
  }

  function KeysOf<V>(m: map<int, V>): (keys: seq<int>)
    ensures forall k :: k in keys <==> k in m
    ensures |keys| == |m|
  {
    AscendingMembers(m.Keys);
    assert |m.Keys| == |m|;
    Ascending(m.Keys)
  }

  function KeySet<V(==)>(entries: seq<(int, V)>): set<int> {
    set e | e in entries :: e.0
  }

  /** A map's entries in the order of its keys. */
  function Entries<V(==)>(m: map<int, V>): (r: seq<(int, V)>)
    ensures |r| == |m|
    ensures forall i :: 0 <= i < |r| ==> r[i].0 in m && m[r[i].0] == r[i].1
    ensures KeySet(r) == m.Keys
  {
    var keys := KeysOf(m);
    var r := seq(|keys|, i requires 0 <= i < |keys| => (keys[i], m[keys[i]]));
    assert forall i :: 0 <= i < |keys| ==> r[i] in r && r[i].0 == keys[i];
    r
  }

  /** ... which is ascending. */
  lemma EntriesAscending<V>(m: map<int, V>)
    ensures forall i, j :: 0 <= i < j < |Entries(m)| ==> Entries(m)[i].0 < Entries(m)[j].0
  {
    var keys := KeysOf(m);
    AscendingOrder(m.Keys);
    forall i, j | 0 <= i < j < |Entries(m)| ensures Entries(m)[i].0 < Entries(m)[j].0 {
      assert Entries(m)[i].0 == keys[i] && Entries(m)[j].0 == keys[j];
    }
  }

  function RevalPart(m: map<int, bool>, rest: seq<Field>): seq<Field> {
    [U32(|m|)] + WriteMany(RevalFields, Entries(m), rest)
  }

  function OutcomePart(m: map<int, PostOutcome>, rest: seq<Field>): seq<Field> {
    [U32(|m|)] + WriteMany(OutcomeFields, Entries(m), rest)
  }

  function InterventionPart(m: map<int, Intervention>, rest: seq<Field>): seq<Field> {
    [U32(|m|)] + WriteMany(InterventionFields, Values(Entries(m)), rest)
  }

  function PolicyPart(epoch: nat, pol: Policy, rest: seq<Field>): seq<Field> {
    [U64(epoch)] + ([U64(pol.id)] + ([U64(pol.generation)] + ([U32(|pol.objectives|)]
      + WriteMany(ObjectiveFields, pol.objectives, rest))))
  }

  function CounterFields(d: Durable): seq<Field> {
    [U64(d.nextEval)] + ([U64(d.nextInt)] + [])
  }

  /** Everything a save writes after the header. */
  function BodyFields(epoch: nat, d: Durable): seq<Field> {
    PolicyPart(epoch, d.pol,
      InterventionPart(d.interventions,
        OutcomePart(d.outcomes,
          RevalPart(d.reval, CounterFields(d)))))
  }

  function Framed(body: seq<byte>): seq<byte> {
    LittleEndian(MAGIC, 4) + LittleEndian(VERSION, 4) + LittleEndian(|body|, 8) + CrcBytes(Crc(body)) + body
  }

  function Save(epoch: nat, d: Durable): seq<byte> {
    Framed(Bytes(BodyFields(epoch, d)))
  }

  // ---- what loading does ---------------------------------------------------------------

  /** The checks made before anything is changed. */
  predicate IntactFrame(file: seq<byte>) {
    && HEADER <= |file| <= MAX_FILE
    && Unsigned(file[..4]) == MAGIC
    && Unsigned(file[4..8]) == VERSION
    && Unsigned(file[8..16]) <= MAX_FILE
    && HEADER + Unsigned(file[8..16]) == |file|
    && CrcOf(file[16..20]) == Crc(file[20..])
  }

  function ReadCode(c: Cursor): (int32, Cursor) {
    var (u, next) := Read(c, 4);
    ReadBound(c, 4);
    Powers();
    (Signed(u, 4), next)
  }

  function ReadBits(c: Cursor): (Bits, Cursor) {
    var (u, next) := Read(c, 8);
    ReadBound(c, 8);
    Powers();
    (u, next)
  }

  function ReadWindow(c0: Cursor): (WindowConfig, Cursor) {
    var (mode, c1) := ReadCode(c0);
    var (duration, c2) := ReadSigned(c1, 8);
    var (maxSamples, c3) := Read(c2, 8);
    var (fixedCount, c4) := Read(c3, 8);
    (WindowConfig(ModeOf(mode), duration, fixedCount, maxSamples), c4)
  }

  function ReadScope(c0: Cursor): (Option<nat>, Cursor) {
    var (present, c1) := Read(c0, 1);
    if present == 0 then (None, c1)
    else
      var (c, c2) := Read(c1, 8);
      (Some(c), c2)
  }

  datatype Limits = Limits(minSamples: nat, freshness: int, hard: bool, recoveryFraction: Bits, coolDown: int)

  function ReadLimits(c0: Cursor): (Limits, Cursor) {
    var (minSamples, c1) := Read(c0, 8);
    var (freshness, c2) := ReadSigned(c1, 8);
    var (hard, c3) := Read(c2, 1);
    var (recoveryFraction, c4) := ReadBits(c3);
    var (coolDown, c5) := ReadSigned(c4, 8);
    (Limits(minSamples, freshness, hard != 0, recoveryFraction, coolDown), c5)
  }

  function ReadObjective(c0: Cursor): (Objective, Cursor) {
    var (id, c1) := Read(c0, 8);
    var (generation, c2) := Read(c1, 8);
    var (percentile, c3) := ReadBits(c2);
    var (target, c4) := ReadSigned(c3, 8);
    var (window, c5) := ReadWindow(c4);
    var (l, c6) := ReadLimits(c5);
    var (classScope, c7) := ReadScope(c6);
    var (priority, c8) := ReadSigned(c7, 4);
    var (enabled, c9) := Read(c8, 1);
    (Objective(id, generation, percentile, target, window, l.minSamples, l.freshness, l.hard,
               l.recoveryFraction, l.coolDown, classScope, priority, enabled != 0), c9)
  }

  datatype Target = Target(objective: nat, generation: nat, cause: TailCauseCategory, requestClass: nat)

  function ReadTarget(c0: Cursor): (Target, Cursor) {
    var (objective, c1) := Read(c0, 8);
    var (generation, c2) := Read(c1, 8);
    var (cause, c3) := ReadCode(c2);
    var (requestClass, c4) := Read(c3, 8);
    (Target(objective, generation, CauseOf(cause), requestClass), c4)
  }

  datatype Estimate = Estimate(proposedAt: int, expiryAt: int, effect: int, feasibility: Infeasibility,
    confidence: Bits)

  function ReadEstimate(c0: Cursor): (Estimate, Cursor) {
    var (proposedAt, c1) := ReadSigned(c0, 8);
    var (expiryAt, c2) := ReadSigned(c1, 8);
    var (effect, c3) := ReadSigned(c2, 8);
    var (_, c4) := Read(c3, 1);
    var (feasibility, c5) := ReadCode(c4);
    var (confidence, c6) := ReadBits(c5);
    (Estimate(proposedAt, expiryAt, effect, ReasonOf(feasibility), confidence), c6)
  }

  function ReadIntervention(c0: Cursor): (Intervention, Cursor) {
    var (id, c1) := Read(c0, 8);
    var (generation, c2) := Read(c1, 8);
    var (kind, c3) := ReadCode(c2);
    var (status, c4) := ReadCode(c3);
    var (t, c5) := ReadTarget(c4);
    var (e, c6) := ReadEstimate(c5);
    (Intervention(id, generation, TypeOf(kind), LifecycleOf(status), t.cause, t.requestClass, NO_AUTHORITY,
                  t.objective, t.generation, e.effect, e.feasibility, e.confidence, e.proposedAt, e.expiryAt), c6)
  }

  function ReadOutcome(c: Cursor): ((int, PostOutcome), Cursor) {
    var (id, c1) := Read(c, 8);
    var (outcome, c2) := ReadCode(c1);
    ((id, OutcomeOf(outcome)), c2)
  }

  /** Whatever flag the file holds, a recovered observation must be revalidated. */
  function ReadReval(c: Cursor): ((int, bool), Cursor) {
    var (id, c1) := Read(c, 8);
    var (_, c2) := Read(c1, 1);
    ((id, true), c2)
  }

  /** Map insertion in order, later entries winning. */
  function Inserted<V>(m: map<int, V>, entries: seq<(int, V)>): map<int, V> {
    if entries == [] then m
    else Inserted(m, entries[..|entries| - 1])[entries[|entries| - 1].0 := entries[|entries| - 1].1]
  }

  function ById(i: Intervention): (int, Intervention) {
    (i.id, i)
  }

  function Marked(reval: map<int, bool>, objectives: seq<Objective>): map<int, bool> {
    if objectives == [] then reval
    else Marked(reval, objectives[..|objectives| - 1])[objectives[|objectives| - 1].id := true]
  }

  // The parts of a load return the state they leave, the verdict, and what is left to read.

  function LoadCounters(d: Durable, c: Cursor): (Durable, StatusCode, Cursor) {
    var (nextEval, c1) := Read(c, 8);
    var (nextInt, c2) := Read(c1, 8);
    (d.(nextEval := nextEval, nextInt := nextInt), if c2.ok then Success else PersistenceCorrupt, c2)
  }

  function LoadRevals(d: Durable, c: Cursor): (Durable, StatusCode, Cursor) {
    var (n, c1) := Read(c, 4);
    if n > MAX_REVALIDATIONS then (d, PersistenceCorrupt, c1)
    else
      var (entries, c2) := ReadMany(ReadReval, c1, n, []);
      LoadCounters(d.(reval := Inserted(d.reval, entries)), c2)
  }

  function LoadOutcomes(d: Durable, c: Cursor): (Durable, StatusCode, Cursor) {
    var (n, c1) := Read(c, 4);
    if n > MAX_OUTCOMES then (d, PersistenceCorrupt, c1)
    else
      var (entries, c2) := ReadMany(ReadOutcome, c1, n, []);
      LoadRevals(d.(outcomes := Inserted(map[], entries)), c2)
  }

  function LoadInterventions(d: Durable, c: Cursor): (Durable, StatusCode, Cursor) {
    var (n, c1) := Read(c, 4);
    if n > MAX_INTERVENTIONS then (d, PersistenceCorrupt, c1)
    else
      var (read, c2) := ReadMany(ReadIntervention, c1, n, []);
      LoadOutcomes(d.(interventions := Inserted(map[], Map(ById, read))), c2)
  }

  function LoadBody(d: Durable, body: seq<byte>): (Durable, StatusCode, Cursor) {
    var (_, c1) := Read(Cursor(body, true), 8);
    var (id, c2) := Read(c1, 8);
    var (generation, c3) := Read(c2, 8);
    var (n, c4) := Read(c3, 4);
    if n > MAX_OBJECTIVES then (d, PersistenceCorrupt, c4)
    else
      var (objectives, c5) := ReadMany(ReadObjective, c4, n, []);
      var marked := d.(reval := Marked(d.reval, objectives));
      if !c5.ok then (marked, PersistenceCorrupt, c5)
      else LoadInterventions(marked.(pol := Policy(id, generation, objectives)), c5)
  }

  /** The frame is checked first; a body that loads need not be used up. */
  function Load(d: Durable, file: seq<byte>): (Durable, StatusCode) {
    if IntactFrame(file) then
      var (after, status, _) := LoadBody(d, file[20..]);
      (after, status)
    else (d, PersistenceCorrupt)
  }

  // ---- corruption ----------------------------------------------------------------------

  /** Two files that differ only inside the header, or only inside at most four
      consecutive bytes of the body. */
  ghost predicate AlteredHeader(a: seq<byte>, b: seq<byte>) {
    |a| == |b| >= HEADER && a != b && a[HEADER..] == b[HEADER..]
  }

  ghost predicate AlteredBurst(a: seq<byte>, b: seq<byte>, at: nat, n: nat) {
    && |a| == |b| && a != b
    && HEADER <= at <= at + n <= |a| && n <= 4
    && a[..at] == b[..at] && a[at + n..] == b[at + n..]
  }

  lemma {:induction false} UnsignedInjective(a: seq<byte>, b: seq<byte>)
    requires |a| == |b| && Unsigned(a) == Unsigned(b)
    ensures a == b
  {
    if a != [] {
      SameByte(a[0], b[0], Unsigned(a[1..]), Unsigned(b[1..]));
      UnsignedInjective(a[1..], b[1..]);
      SameHeadAndTail(a, b);
    }
  }

  lemma SameByte(a: byte, b: byte, u: nat, v: nat)
    requires a as int + 256 * u == b as int + 256 * v
    ensures a == b && u == v
  {
  }

  lemma HeaderDetected(file: seq<byte>, bad: seq<byte>)
    requires IntactFrame(file) && AlteredHeader(file, bad)
    ensures !IntactFrame(bad)
  {
    if IntactFrame(bad) {
      UnsignedInjective(file[..4], bad[..4]);
      UnsignedInjective(file[4..8], bad[4..8]);
      UnsignedInjective(file[8..16], bad[8..16]);
      CrcOfInjective(file[16..20], bad[16..20]);
      SamePieces(file, bad);
    }
  }

  lemma SamePieces(a: seq<byte>, b: seq<byte>)
    requires |a| == |b| >= HEADER && a[..4] == b[..4] && a[4..8] == b[4..8]
    requires a[8..16] == b[8..16] && a[16..20] == b[16..20] && a[20..] == b[20..]
    ensures a == b
  {
    assert a == a[..4] + a[4..8] + a[8..16] + a[16..20] + a[20..];
    assert b == b[..4] + b[4..8] + b[8..16] + b[16..20] + b[20..];
  }

  lemma BurstInBodyDetected(file: seq<byte>, bad: seq<byte>, at: nat, n: nat)
    requires IntactFrame(file) && AlteredBurst(file, bad, at, n)
    ensures !IntactFrame(bad)
  {
    hide Crc, CrcOf, Unsigned;
    assert file[16..20] == file[..at][16..20] && bad[16..20] == bad[..at][16..20];
    var before, after := file[20..at], file[at + n..];
    assert before == file[..at][20..] && bad[20..at] == bad[..at][20..];
    assert file[20..] == before + file[at..at + n] + after;
    assert bad[20..] == before + bad[at..at + n] + after;
    assert file == file[..at] + file[at..at + n] + after;
    assert bad == bad[..at] + bad[at..at + n] + after;
    BurstDetected(before, file[at..at + n], bad[at..at + n], after);
  }

  /** Any other length under the same header is noticed by the length field. */
  lemma ResizedDetected(file: seq<byte>, bad: seq<byte>)
    requires IntactFrame(file) && |file| != |bad|
    requires file <= bad || bad <= file
    ensures !IntactFrame(bad)
  {
    if |file| >= 16 && |bad| >= 16 {
      assert file[8..16] == bad[8..16];
    }
  }

  /** Corruption is always rejected, and nothing is changed: altering the header in any way,
      altering up to four consecutive body bytes (so any single byte of the file), cutting
      the file short, or appending to it. */
  lemma CorruptionRejected(d: Durable, file: seq<byte>, bad: seq<byte>)
    requires IntactFrame(file)
    requires || AlteredHeader(file, bad)
             || (exists at, n :: AlteredBurst(file, bad, at, n))
             || (|file| != |bad| && (file <= bad || bad <= file))
    ensures Load(d, bad) == (d, PersistenceCorrupt)
  {
    if AlteredHeader(file, bad) {
      HeaderDetected(file, bad);
    } else if |file| != |bad| {
      ResizedDetected(file, bad);
    } else {
      var at, n :| AlteredBurst(file, bad, at, n);
      BurstInBodyDetected(file, bad, at, n);
    }
  }

  lemma SingleByteRejected(d: Durable, file: seq<byte>, at: nat, b: byte)
    requires IntactFrame(file) && at < |file| && file[at] != b
    ensures Load(d, file[at := b]) == (d, PersistenceCorrupt)
  {
    var bad := file[at := b];
    if at < HEADER {
      assert AlteredHeader(file, bad);
    } else {
      assert AlteredBurst(file, bad, at, 1);
    }
    CorruptionRejected(d, file, bad);
  }

  // ---- round trip ----------------------------------------------------------------------

  predicate ObjectiveInRange(o: Objective) {
    && U64Range(o.id) && U64Range(o.generation) && I64Range(o.target) && I64Range(o.window.duration)
    && U64Range(o.window.maxSamples) && U64Range(o.window.fixedCount) && U64Range(o.minSamples)
    && I64Range(o.freshness) && I64Range(o.coolDown) && I32Range(o.priority)
    && (o.classScope.Some? ==> U64Range(o.classScope.value))
  }

  predicate InterventionInRange(i: Intervention) {
    && U64Range(i.id) && U64Range(i.generation) && U64Range(i.objective) && U64Range(i.objectiveGeneration)
    && U64Range(i.targetClass) && I64Range(i.proposedAt) && I64Range(i.expiryAt) && I64Range(i.effect)
  }

  /** What every state of the source satisfies: values fit their types, and interventions
      are stored under their own id. */
  ghost predicate Representable(epoch: nat, d: Durable) {
    && U64Range(epoch) && U64Range(d.pol.id) && U64Range(d.pol.generation)
    && (forall o :: o in d.pol.objectives ==> ObjectiveInRange(o))
    && (forall k :: k in d.interventions ==> d.interventions[k].id == k && InterventionInRange(d.interventions[k]))
    && (forall k :: k in d.outcomes ==> U64Range(k))
    && (forall k :: k in d.reval ==> U64Range(k))
    && U64Range(d.nextEval) && U64Range(d.nextInt)
    && |d.pol.objectives| < 0x1_0000_0000 && |d.interventions| < 0x1_0000_0000
    && |d.outcomes| < 0x1_0000_0000 && |d.reval| < 0x1_0000_0000
  }

  predicate WithinLimits(d: Durable) {
    && |d.pol.objectives| <= MAX_OBJECTIVES && |d.interventions| <= MAX_INTERVENTIONS
    && |d.outcomes| <= MAX_OUTCOMES && |d.reval| <= MAX_REVALIDATIONS
  }

  /** An intervention as it comes back: everything but the authority it was built against. */
  function Recovered(i: Intervention): Intervention {
    i.(authority := NO_AUTHORITY)
  }

  lemma ReadCodeField(v: int32, rest: seq<Field>)
    ensures ReadCode(Cursor(Bytes([U32(v)] + rest), true)) == (v, Cursor(Bytes(rest), true))
  {
    ReadI32(v, rest);
  }

  lemma WindowBack(w: WindowConfig, rest: seq<Field>)
    requires I64Range(w.duration) && U64Range(w.maxSamples) && U64Range(w.fixedCount)
    ensures ReadWindow(Cursor(Bytes(WindowFields(w, rest)), true)) == (w, Cursor(Bytes(rest), true))
  {
    var f3 := [U64(w.fixedCount)] + rest;
    var f2 := [U64(w.maxSamples)] + f3;
    var f1 := [U64(w.duration)] + f2;
    ModeCodes(w.mode, 0);
    ReadCodeField(ModeCode(w.mode), f1);
    ReadI64(w.duration, f2);
    ReadU64(w.maxSamples, f3);
    ReadU64(w.fixedCount, rest);
  }

  lemma ScopeBack(scope: Option<nat>, rest: seq<Field>)
    requires scope.Some? ==> U64Range(scope.value)
    ensures ReadScope(Cursor(Bytes(ScopeFields(scope, rest)), true)) == (scope, Cursor(Bytes(rest), true))
  {
    match scope
    case None => ReadU8(0, rest);
    case Some(c) =>
      ReadU8(1, [U64(c)] + rest);
      ReadU64(c, rest);
  }

  lemma LimitsBack(o: Objective, rest: seq<Field>)
    requires ObjectiveInRange(o)
    ensures ReadLimits(Cursor(Bytes(LimitFields(o, rest)), true))
      == (Limits(o.minSamples, o.freshness, o.hard, o.recoveryFraction, o.coolDown), Cursor(Bytes(rest), true))
  {
    var f4 := [U64(o.coolDown)] + rest;
    var f3 := [U64(o.recoveryFraction)] + f4;
    var f2 := [U8(Flag(o.hard))] + f3;
    var f1 := [U64(o.freshness)] + f2;
    ReadU64(o.minSamples, f1);
    ReadI64(o.freshness, f2);
    ReadU8(Flag(o.hard), f3);
    ReadU64(o.recoveryFraction, f4);
    ReadI64(o.coolDown, rest);
  }

  lemma ObjectiveBack(o: Objective, rest: seq<Field>)
    requires ObjectiveInRange(o)
    ensures ReadObjective(Cursor(Bytes(ObjectiveFields(o, rest)), true)) == (o, Cursor(Bytes(rest), true))
  {
    var f8 := [U8(Flag(o.enabled))] + rest;
    var f7 := [U32(o.priority)] + f8;
    var f6 := ScopeFields(o.classScope, f7);
    var f5 := LimitFields(o, f6);
    var f4 := WindowFields(o.window, f5);
    var f3 := [U64(o.target)] + f4;
    var f2 := [U64(o.percentile)] + f3;
    var f1 := [U64(o.generation)] + f2;
    ReadU64(o.id, f1);
    ReadU64(o.generation, f2);
    ReadU64(o.percentile, f3);
    ReadI64(o.target, f4);
    WindowBack(o.window, f5);
    LimitsBack(o, f6);
    ScopeBack(o.classScope, f7);
    ReadI32(o.priority, f8);
    ReadU8(Flag(o.enabled), rest);
  }

  lemma TargetBack(i: Intervention, rest: seq<Field>)
    requires InterventionInRange(i)
    ensures ReadTarget(Cursor(Bytes(TargetFields(i, rest)), true))
      == (Target(i.objective, i.objectiveGeneration, i.cause, i.targetClass), Cursor(Bytes(rest), true))
  {
    var f3 := [U64(i.targetClass)] + rest;
    var f2 := [U32(CauseCode(i.cause))] + f3;
    var f1 := [U64(i.objectiveGeneration)] + f2;
    CauseCodes(i.cause, 0);
    ReadU64(i.objective, f1);
    ReadU64(i.objectiveGeneration, f2);
    ReadCodeField(CauseCode(i.cause), f3);
    ReadU64(i.targetClass, rest);
  }

  lemma EstimateBack(i: Intervention, rest: seq<Field>)
    requires InterventionInRange(i)
    ensures ReadEstimate(Cursor(Bytes(EstimateFields(i, rest)), true))
      == (Estimate(i.proposedAt, i.expiryAt, i.effect, i.feasibility, i.confidence), Cursor(Bytes(rest), true))
  {
    var f5 := [U64(i.confidence)] + rest;
    var f4 := [U32(ReasonCode(i.feasibility))] + f5;
    var f3 := [U8(Flag(i.feasibility != Feasible))] + f4;
    var f2 := [U64(i.effect)] + f3;
    var f1 := [U64(i.expiryAt)] + f2;
    ReasonCodes(i.feasibility, 0);
    ReadI64(i.proposedAt, f1);
    ReadI64(i.expiryAt, f2);
    ReadI64(i.effect, f3);
    ReadU8(Flag(i.feasibility != Feasible), f4);
    ReadCodeField(ReasonCode(i.feasibility), f5);
    ReadU64(i.confidence, rest);
  }

  lemma InterventionBack(i: Intervention, rest: seq<Field>)
    requires InterventionInRange(i)
    ensures ReadIntervention(Cursor(Bytes(InterventionFields(i, rest)), true))
      == (Recovered(i), Cursor(Bytes(rest), true))
  {
    var f5 := EstimateFields(i, rest);
    var f4 := TargetFields(i, f5);
    var f3 := [U32(LifecycleCode(i.status))] + f4;
    var f2 := [U32(TypeCode(i.kind))] + f3;
    var f1 := [U64(i.generation)] + f2;
    TypeCodes(i.kind, 0);
    LifecycleCodes(i.status, 0);
    ReadU64(i.id, f1);
    ReadU64(i.generation, f2);
    ReadCodeField(TypeCode(i.kind), f3);
    ReadCodeField(LifecycleCode(i.status), f4);
    TargetBack(i, f5);
    EstimateBack(i, rest);
  }

  lemma OutcomeBack(o: (int, PostOutcome), rest: seq<Field>)
    requires U64Range(o.0)
    ensures ReadOutcome(Cursor(Bytes(OutcomeFields(o, rest)), true)) == (o, Cursor(Bytes(rest), true))
  {
    OutcomeCodes(o.1, 0);
    ReadU64(o.0, [U32(OutcomeCode(o.1))] + rest);
    ReadCodeField(OutcomeCode(o.1), rest);
  }

  function Unchanged<T>(x: T): T {
    x
  }

  function Raised(r: (int, bool)): (int, bool) {
    (r.0, true)
  }

  lemma RevalBack(r: (int, bool), rest: seq<Field>)
    requires U64Range(r.0)
    ensures ReadReval(Cursor(Bytes(RevalFields(r, rest)), true)) == (Raised(r), Cursor(Bytes(rest), true))
  {
    ReadU64(r.0, [U8(Flag(r.1))] + rest);
    ReadU8(Flag(r.1), rest);
  }

  lemma SameKeys<V, W>(a: seq<(int, V)>, b: seq<(int, W)>)
    requires |a| == |b| && forall i :: 0 <= i < |a| ==> a[i].0 == b[i].0
    ensures KeySet(a) == KeySet(b)
  {
    forall k ensures k in KeySet(a) <==> k in KeySet(b) {
      if k in KeySet(a) {
        var i :| 0 <= i < |a| && a[i].0 == k;
        assert b[i] in b;
      }
      if k in KeySet(b) {
        var i :| 0 <= i < |b| && b[i].0 == k;
        assert a[i] in a;
      }
    }
  }

  lemma {:induction false} InsertedFrom<V>(m: map<int, V>, entries: seq<(int, V)>, f: map<int, V>)
    requires forall i :: 0 <= i < |entries| ==> entries[i].0 in f && f[entries[i].0] == entries[i].1
    ensures Inserted(m, entries).Keys == m.Keys + KeySet(entries)
    ensures forall k :: k in Inserted(m, entries) ==>
      Inserted(m, entries)[k] == if k in KeySet(entries) then f[k] else m[k]
  {
    if entries != [] {
      var init, last := entries[..|entries| - 1], entries[|entries| - 1];
      InsertedFrom(m, init, f);
      assert entries == init + [last];
      assert KeySet(entries) == KeySet(init) + {last.0};
    }
  }

  /** Inserting entries that list exactly the map f overwrites with f. */
  lemma InsertedListing<V>(m: map<int, V>, entries: seq<(int, V)>, f: map<int, V>)
    requires forall i :: 0 <= i < |entries| ==> entries[i].0 in f && f[entries[i].0] == entries[i].1
    requires KeySet(entries) == f.Keys
    ensures Inserted(m, entries) == m + f
  {
    InsertedFrom(m, entries, f);
    var r := Inserted(m, entries);
    assert r.Keys == (m + f).Keys;
    forall k | k in r ensures r[k] == (m + f)[k] {
      assert k in KeySet(entries) <==> k in f;
    }
  }

  function AllTrue(m: map<int, bool>): map<int, bool> {
    map k | k in m :: true
  }

  function AllRecovered(m: map<int, Intervention>): map<int, Intervention> {
    map k | k in m :: Recovered(m[k])
  }

  /** What a load of a saved state leaves behind, over whatever was there before. */
  function Restored(before: Durable, d: Durable): Durable {
    Durable(d.pol, AllRecovered(d.interventions), d.outcomes,
            Marked(before.reval, d.pol.objectives) + AllTrue(d.reval), d.nextEval, d.nextInt)
  }

  /** What loading the tables of a saved state makes of the state before. */
  function TablesLoaded(before: Durable, d: Durable): (Durable, StatusCode) {
    if |d.interventions| > MAX_INTERVENTIONS then (before, PersistenceCorrupt)
    else
      var first := before.(interventions := AllRecovered(d.interventions));
      if |d.outcomes| > MAX_OUTCOMES then (first, PersistenceCorrupt)
      else
        var second := first.(outcomes := d.outcomes);
        if |d.reval| > MAX_REVALIDATIONS then (second, PersistenceCorrupt)
        else (second.(reval := second.reval + AllTrue(d.reval), nextEval := d.nextEval, nextInt := d.nextInt), Success)
  }

  /** What loading a saved state makes of the state before, beyond the limits too. */
  function StateLoaded(before: Durable, d: Durable): (Durable, StatusCode) {
    if |d.pol.objectives| > MAX_OBJECTIVES then (before, PersistenceCorrupt)
    else TablesLoaded(before.(reval := Marked(before.reval, d.pol.objectives), pol := d.pol), d)
  }

  lemma CountersBack(d: Durable, s: Durable)
    requires U64Range(s.nextEval) && U64Range(s.nextInt)
    ensures LoadCounters(d, Cursor(Bytes(CounterFields(s)), true))
      == (d.(nextEval := s.nextEval, nextInt := s.nextInt), Success, Cursor([], true))
  {
    ReadU64(s.nextEval, [U64(s.nextInt)] + []);
    ReadU64(s.nextInt, []);
  }

  lemma RevalsReadBack(m: map<int, bool>)
    requires forall k :: k in m ==> U64Range(k)
    ensures ReadsBack(ReadReval, RevalFields, Raised, Entries(m))
  {
    forall x, rest | x in Entries(m)
      ensures ReadReval(Cursor(Bytes(RevalFields(x, rest)), true)) == (Raised(x), Cursor(Bytes(rest), true)) {
      RevalBack(x, rest);
    }
  }

  lemma RevalsInserted(reval: map<int, bool>, m: map<int, bool>)
    ensures Inserted(reval, Map(Raised, Entries(m))) == reval + AllTrue(m)
  {
    SameKeys(Map(Raised, Entries(m)), Entries(m));
    InsertedListing(reval, Map(Raised, Entries(m)), AllTrue(m));
  }

  lemma RevalPartBack(d: Durable, m: map<int, bool>, rest: seq<Field>)
    requires U32Range(|m|) && (forall k :: k in m ==> U64Range(k))
    ensures var r := LoadRevals(d, Cursor(Bytes(RevalPart(m, rest)), true));
      if |m| > MAX_REVALIDATIONS then r.0 == d && r.1 == PersistenceCorrupt && r.2.ok
      else r == LoadCounters(d.(reval := d.reval + AllTrue(m)), Cursor(Bytes(rest), true))
  {
    var es := Entries(m);
    ReadU32(|m|, WriteMany(RevalFields, es, rest));
    RevalsReadBack(m);
    ReadAllBack(ReadReval, RevalFields, Raised, es, rest);
    RevalsInserted(d.reval, m);
  }

  lemma OutcomesReadBack(m: map<int, PostOutcome>)
    requires forall k :: k in m ==> U64Range(k)
    ensures ReadsBack(ReadOutcome, OutcomeFields, Unchanged, Entries(m))
  {
    forall x, rest | x in Entries(m)
      ensures ReadOutcome(Cursor(Bytes(OutcomeFields(x, rest)), true)) == (Unchanged(x), Cursor(Bytes(rest), true)) {
      OutcomeBack(x, rest);
    }
  }

  lemma OutcomesInserted(m: map<int, PostOutcome>)
    ensures Inserted(map[], Map(Unchanged, Entries(m))) == m
  {
    assert Map(Unchanged, Entries(m)) == Entries(m);
    InsertedNew(Entries(m), m);
  }

  lemma OutcomePartBack(d: Durable, m: map<int, PostOutcome>, rest: seq<Field>)
    requires U32Range(|m|) && (forall k :: k in m ==> U64Range(k))
    ensures var r := LoadOutcomes(d, Cursor(Bytes(OutcomePart(m, rest)), true));
      if |m| > MAX_OUTCOMES then r.0 == d && r.1 == PersistenceCorrupt && r.2.ok
      else r == LoadRevals(d.(outcomes := m), Cursor(Bytes(rest), true))
  {
    var es := Entries(m);
    ReadU32(|m|, WriteMany(OutcomeFields, es, rest));
    OutcomesReadBack(m);
    ReadAllBack(ReadOutcome, OutcomeFields, Unchanged, es, rest);
    OutcomesInserted(m);
  }

  lemma EntryInRange(m: map<int, Intervention>, i: nat)
    requires i < |m| && forall k :: k in m ==> InterventionInRange(m[k])
    ensures InterventionInRange(Values(Entries(m))[i])
  {
    var k := Entries(m)[i].0;
    assert k in m && InterventionInRange(m[k]);
    assert m[k] == Values(Entries(m))[i];
  }

  lemma InterventionsReadBack(m: map<int, Intervention>)
    requires forall k :: k in m ==> InterventionInRange(m[k])
    ensures ReadsBack(ReadIntervention, InterventionFields, Recovered, Values(Entries(m)))
  {
    var xs := Values(Entries(m));
    forall x, rest | x in xs
      ensures ReadIntervention(Cursor(Bytes(InterventionFields(x, rest)), true))
        == (Recovered(x), Cursor(Bytes(rest), true)) {
      var i :| 0 <= i < |xs| && xs[i] == x;
      EntryInRange(m, i);
      InterventionBack(x, rest);
    }
  }

  function ByKey(e: (int, Intervention)): (int, Intervention) {
    (e.0, Recovered(e.1))
  }

  lemma RecoveredEntry(m: map<int, Intervention>, i: nat)
    requires i < |m| && forall k :: k in m ==> m[k].id == k
    ensures Map(ById, Map(Recovered, Values(Entries(m))))[i] == ByKey(Entries(m)[i])
  {
    var e := Entries(m)[i];
    assert e.0 in m && m[e.0] == e.1;
    assert m[e.0].id == e.0;
    assert Values(Entries(m))[i] == e.1;
    assert Map(Recovered, Values(Entries(m)))[i] == Recovered(e.1);
  }

  lemma RecoveredEntries(m: map<int, Intervention>)
    requires forall k :: k in m ==> m[k].id == k
    ensures Map(ById, Map(Recovered, Values(Entries(m)))) == Map(ByKey, Entries(m))
  {
    hide ById, Recovered, ByKey;
    forall i | 0 <= i < |m|
      ensures Map(ById, Map(Recovered, Values(Entries(m))))[i] == Map(ByKey, Entries(m))[i] {
      RecoveredEntry(m, i);
    }
  }

  lemma InterventionsInserted(m: map<int, Intervention>)
    requires forall k :: k in m ==> m[k].id == k
    ensures Inserted(map[], Map(ById, Map(Recovered, Values(Entries(m))))) == AllRecovered(m)
  {
    RecoveredEntries(m);
    EntriesInserted(m);
  }

  lemma EntryListed(m: map<int, Intervention>, i: nat)
    requires i < |m|
    ensures var e := Map(ByKey, Entries(m))[i];
      e.0 == Entries(m)[i].0 && e.0 in AllRecovered(m) && AllRecovered(m)[e.0] == e.1
  {
    hide Recovered;
    var e := Entries(m)[i];
    assert e.0 in m && m[e.0] == e.1;
  }

  lemma InsertedNew<V>(entries: seq<(int, V)>, f: map<int, V>)
    requires forall i :: 0 <= i < |entries| ==> entries[i].0 in f && f[entries[i].0] == entries[i].1
    requires KeySet(entries) == f.Keys
    ensures Inserted(map[], entries) == f
  {
    hide KeySet, Inserted;
    InsertedFrom(map[], entries, f);
    var r := Inserted(map[], entries);
    assert r.Keys == f.Keys;
    forall k | k in r ensures k in f && r[k] == f[k] {
      assert k in KeySet(entries);
    }
  }

  lemma EntriesInserted(m: map<int, Intervention>)
    ensures Inserted(map[], Map(ByKey, Entries(m))) == AllRecovered(m)
  {
    hide Recovered, AllRecovered, ByKey, KeySet, Inserted;
    var back, f := Map(ByKey, Entries(m)), AllRecovered(m);
    forall i | 0 <= i < |back|
      ensures back[i].0 == Entries(m)[i].0 && back[i].0 in f && f[back[i].0] == back[i].1 {
      EntryListed(m, i);
    }
    SameKeys(back, Entries(m));
    RecoveredKeys(m);
    InsertedNew(back, f);
  }

  lemma RecoveredKeys(m: map<int, Intervention>)
    ensures AllRecovered(m).Keys == m.Keys
  {
    hide Recovered;
  }

  lemma InterventionPartBack(d: Durable, m: map<int, Intervention>, rest: seq<Field>)
    requires U32Range(|m|) && (forall k :: k in m ==> m[k].id == k && InterventionInRange(m[k]))
    ensures var r := LoadInterventions(d, Cursor(Bytes(InterventionPart(m, rest)), true));
      if |m| > MAX_INTERVENTIONS then r.0 == d && r.1 == PersistenceCorrupt && r.2.ok
      else r == LoadOutcomes(d.(interventions := AllRecovered(m)), Cursor(Bytes(rest), true))
  {
    var xs := Values(Entries(m));
    ReadU32(|m|, WriteMany(InterventionFields, xs, rest));
    InterventionsReadBack(m);
    ReadAllBack(ReadIntervention, InterventionFields, Recovered, xs, rest);
    InterventionsInserted(m);
  }

  lemma ObjectivesReadBack(objectives: seq<Objective>)
    requires forall o :: o in objectives ==> ObjectiveInRange(o)
    ensures ReadsBack(ReadObjective, ObjectiveFields, Unchanged, objectives)
    ensures Map(Unchanged, objectives) == objectives
  {
    forall x, rest | x in objectives
      ensures ReadObjective(Cursor(Bytes(ObjectiveFields(x, rest)), true))
        == (Unchanged(x), Cursor(Bytes(rest), true)) {
      ObjectiveBack(x, rest);
    }
  }

  lemma PolicyPartBack(d: Durable, epoch: nat, pol: Policy, rest: seq<Field>)
    requires U64Range(epoch) && U64Range(pol.id) && U64Range(pol.generation) && U32Range(|pol.objectives|)
    requires forall o :: o in pol.objectives ==> ObjectiveInRange(o)
    ensures var r := LoadBody(d, Bytes(PolicyPart(epoch, pol, rest)));
      if |pol.objectives| > MAX_OBJECTIVES then r.0 == d && r.1 == PersistenceCorrupt && r.2.ok
      else r == LoadInterventions(d.(reval := Marked(d.reval, pol.objectives), pol := pol), Cursor(Bytes(rest), true))
  {
    var f4 := WriteMany(ObjectiveFields, pol.objectives, rest);
    var f3 := [U32(|pol.objectives|)] + f4;
    var f2 := [U64(pol.generation)] + f3;
    var f1 := [U64(pol.id)] + f2;
    ReadU64(epoch, f1);
    ReadU64(pol.id, f2);
    ReadU64(pol.generation, f3);
    ReadU32(|pol.objectives|, f4);
    ObjectivesReadBack(pol.objectives);
    ReadAllBack(ReadObjective, ObjectiveFields, Unchanged, pol.objectives, rest);
  }

  lemma TablesBack(before: Durable, d: Durable)
    requires U32Range(|d.interventions|) && U32Range(|d.outcomes|) && U32Range(|d.reval|)
    requires forall k :: k in d.interventions ==> d.interventions[k].id == k && InterventionInRange(d.interventions[k])
    requires (forall k :: k in d.outcomes ==> U64Range(k)) && (forall k :: k in d.reval ==> U64Range(k))
    requires U64Range(d.nextEval) && U64Range(d.nextInt)
    ensures var f1 := OutcomePart(d.outcomes, RevalPart(d.reval, CounterFields(d)));
      var r := LoadInterventions(before, Cursor(Bytes(InterventionPart(d.interventions, f1)), true));
      && (r.0, r.1) == TablesLoaded(before, d)
      && r.2.ok && (r.1 == Success ==> r.2.rest == [])
  {
    hide LoadInterventions, LoadOutcomes, LoadRevals, LoadCounters, Bytes, InterventionPart, OutcomePart, RevalPart,
      CounterFields;
    var f3 := CounterFields(d);
    var f2 := RevalPart(d.reval, f3);
    var first := before.(interventions := AllRecovered(d.interventions));
    var second := first.(outcomes := d.outcomes);
    InterventionPartBack(before, d.interventions, OutcomePart(d.outcomes, f2));
    OutcomePartBack(first, d.outcomes, f2);
    RevalPartBack(second, d.reval, f3);
    CountersBack(second.(reval := second.reval + AllTrue(d.reval)), d);
  }

  lemma FivePieces(a: seq<byte>, b: seq<byte>, c: seq<byte>, d: seq<byte>, e: seq<byte>)
    requires |a| == 4 && |b| == 4 && |c| == 8 && |d| == 4
    ensures var f := a + b + c + d + e;
      f[..4] == a && f[4..8] == b && f[8..16] == c && f[16..20] == d && f[20..] == e
  {
  }

  lemma FramedIntact(body: seq<byte>)
    ensures IntactFrame(Framed(body)) <==> |body| <= MAX_FILE - HEADER
    ensures Framed(body)[20..] == body && |Framed(body)| == HEADER + |body|
  {
    FivePieces(LittleEndian(MAGIC, 4), LittleEndian(VERSION, 4), LittleEndian(|body|, 8), CrcBytes(Crc(body)), body);
    Powers();
    LittleEndianValue(MAGIC, 4);
    LittleEndianValue(VERSION, 4);
    CrcRoundTrip(Crc(body));
    if |body| <= MAX_FILE {
      LittleEndianValue(|body|, 8);
    }
  }

  /** The body of a saved state is read without running short, and to its end unless a count
      stops the load. */
  lemma BodyBack(before: Durable, epoch: nat, d: Durable)
    requires Representable(epoch, d)
    ensures var r := LoadBody(before, Bytes(BodyFields(epoch, d)));
      && (r.0, r.1) == StateLoaded(before, d)
      && r.2.ok && (r.1 == Success ==> r.2.rest == [])
  {
    hide LoadBody, LoadInterventions, PolicyPart, InterventionPart, OutcomePart, RevalPart, Marked, TablesLoaded, Bytes;
    var f1 := OutcomePart(d.outcomes, RevalPart(d.reval, CounterFields(d)));
    PolicyPartBack(before, epoch, d.pol, InterventionPart(d.interventions, f1));
    TablesBack(before.(reval := Marked(before.reval, d.pol.objectives), pol := d.pol), d);
  }

  /** What a load makes of a saved file, beyond the limits too. */
  lemma SavedLoads(before: Durable, epoch: nat, d: Durable)
    requires Representable(epoch, d)
    ensures Load(before, Save(epoch, d))
      == if |Save(epoch, d)| <= MAX_FILE then StateLoaded(before, d) else (before, PersistenceCorrupt)
  {
    hide LoadBody, BodyFields, Bytes, Framed, IntactFrame, StateLoaded;
    FramedIntact(Bytes(BodyFields(epoch, d)));
    BodyBack(before, epoch, d);
  }

  /** The round trip: a saved state loads if and only if its counts and its size respect
      the limits that loading enforces and saving does not; then every persisted field comes
      back, whatever the loading governor held before. */
  lemma RoundTrip(before: Durable, epoch: nat, d: Durable)
    requires Representable(epoch, d)
    ensures Load(before, Save(epoch, d)).1 == Success <==> WithinLimits(d) && |Save(epoch, d)| <= MAX_FILE
    ensures WithinLimits(d) && |Save(epoch, d)| <= MAX_FILE ==>
      Load(before, Save(epoch, d)) == (Restored(before, d), Success)
  {
    hide Load, Save, Marked;
    SavedLoads(before, epoch, d);
  }

  /** A load uses up the body of every state it accepts. */
  lemma BodyUsedUp(before: Durable, epoch: nat, d: Durable)
    requires Representable(epoch, d) && WithinLimits(d)
    ensures LoadBody(before, Bytes(BodyFields(epoch, d))) == (Restored(before, d), Success, Cursor([], true))
  {
    hide LoadBody, BodyFields, Bytes, Marked;
    BodyBack(before, epoch, d);
  }

  // ---- revalidation ------------------------------------------------------------------------

  /** After a successful load every objective of the policy, and everything the file listed,
      must be revalidated. */
  lemma {:induction false} MarkedAll(reval: map<int, bool>, objectives: seq<Objective>)
    ensures forall o :: o in objectives ==> o.id in Marked(reval, objectives) && Marked(reval, objectives)[o.id]
    ensures forall k :: k in reval ==> k in Marked(reval, objectives)
    ensures forall k :: k in Marked(reval, objectives) && (forall o :: o in objectives ==> o.id != k) ==>
      k in reval && Marked(reval, objectives)[k] == reval[k]
  {
    if objectives != [] {
      var init, last := objectives[..|objectives| - 1], objectives[|objectives| - 1];
      MarkedAll(reval, init);
      assert objectives == init + [last];
      assert forall o :: o in init ==> o in objectives;
      assert last in objectives;
    }
  }

  lemma RestoredNeedsRevalidation(before: Durable, d: Durable)
    ensures forall o :: o in d.pol.objectives ==> o.id in Restored(before, d).reval && Restored(before, d).reval[o.id]
    ensures forall k :: k in d.reval ==> k in Restored(before, d).reval && Restored(before, d).reval[k]
  {
    MarkedAll(before.reval, d.pol.objectives);
  }
}
