/** The latency message: completed-request evidence as it travels between processes. */
module LatencyMessages {
  import opened Basics
  import opened Domain
  import opened Codes
  import opened Checksums
  import opened Codecs
  import opened StateFiles
  import opened StateFileIO

  const LATENCY_TAG := 2
  const MAX_PHASES := 64

  function PhaseFields(p: PhaseLatency, rest: seq<Field>): seq<Field> {
    [U32(PhaseCode(p.phase))] + ([U64(p.duration)] + rest)
  }

  function IdFields(r: RequestLatency, rest: seq<Field>): seq<Field> {
    [U64(r.requestId)] + ([U64(r.requestClass)] + ([U64(r.worker)] + ([U64(r.workerBoot)] + ([U64(r.epoch)]
      + ([U64(r.serviceGeneration)] + ([U64(r.workloadGeneration)] + rest))))))
  }

  function TimeFields(r: RequestLatency, rest: seq<Field>): seq<Field> {
    [U64(r.arrival)] + ([U64(r.completion)] + ([U64(r.publication)] + ([U64(r.captured)] + ([U64(r.total)] + rest))))
  }

  function StatusFields(r: RequestLatency, rest: seq<Field>): seq<Field> {
    [U32(RequestCode(r.status))] + ([U32(r.retryCount)] + ([U32(|r.phases|)] + rest))
  }

  function BodyOf(r: RequestLatency): seq<Field> {
    IdFields(r, TimeFields(r, StatusFields(r, WriteMany(PhaseFields, r.phases, []))))
  }

  /** The message: a tag byte and the fields. */
  function Serialize(r: RequestLatency): seq<byte> {
    Bytes([U8(LATENCY_TAG)] + BodyOf(r))
  }

  // ---- reading -----------------------------------------------------------------------------

  function ReadIds(into: RequestLatency, c0: Cursor): (RequestLatency, Cursor) {
    var (requestId, c1) := Read(c0, 8);
    var (requestClass, c2) := Read(c1, 8);
    var (worker, c3) := Read(c2, 8);
    var (workerBoot, c4) := Read(c3, 8);
    var (epoch, c5) := Read(c4, 8);
    var (serviceGeneration, c6) := Read(c5, 8);
    var (workloadGeneration, c7) := Read(c6, 8);
    (into.(requestId := requestId, requestClass := requestClass, worker := worker, workerBoot := workerBoot,
           epoch := epoch, serviceGeneration := serviceGeneration, workloadGeneration := workloadGeneration), c7)
  }

  function ReadTimes(into: RequestLatency, c0: Cursor): (RequestLatency, Cursor) {
    var (arrival, c1) := ReadSigned(c0, 8);
    var (completion, c2) := ReadSigned(c1, 8);
    var (publication, c3) := ReadSigned(c2, 8);
    var (captured, c4) := ReadSigned(c3, 8);
    var (total, c5) := ReadSigned(c4, 8);
    (into.(arrival := arrival, completion := completion, publication := publication, captured := captured,
      total := total), c5)
  }

  function ReadStatus(into: RequestLatency, c0: Cursor): (RequestLatency, nat, Cursor) {
    var (status, c1) := ReadCode(c0);
    var (retryCount, c2) := Read(c1, 4);
    var (nphase, c3) := Read(c2, 4);
    (into.(status := RequestOf(status), retryCount := retryCount), nphase, c3)
  }

  function ReadPhase(c0: Cursor): (PhaseLatency, Cursor) {
    var (phase, c1) := ReadCode(c0);
    var (duration, c2) := ReadSigned(c1, 8);
    (PhaseLatency(PhaseOf(phase), duration), c2)
  }

  /** Everything after the tag byte; phases are appended to those already there. */
  function ReadBody(into: RequestLatency, c: Cursor): (RequestLatency, bool) {
    var (r1, c1) := ReadIds(into, c);
    var (r2, c2) := ReadTimes(r1, c1);
    var (r3, nphase, c3) := ReadStatus(r2, c2);
    if nphase > MAX_PHASES then (r3, false)
    else
      var (phases, c4) := ReadMany(ReadPhase, c3, nphase, r3.phases);
      (r3.(phases := phases), c4.ok)
  }

  function Deserialize(body: seq<byte>, into: RequestLatency): (RequestLatency, bool) {
    ReadBody(into, Cursor(if body == [] then [] else body[1..], true))
  }

  // ---- round trip --------------------------------------------------------------------------

  predicate Transmittable(r: RequestLatency) {
    && U64Range(r.requestId) && U64Range(r.requestClass) && U64Range(r.worker) && U64Range(r.workerBoot)
      && U64Range(r.epoch)
    && U64Range(r.serviceGeneration) && U64Range(r.workloadGeneration)
    && I64Range(r.arrival) && I64Range(r.completion) && I64Range(r.publication) && I64Range(r.captured)
      && I64Range(r.total)
    && U32Range(r.retryCount) && U32Range(|r.phases|)
    && forall i :: 0 <= i < |r.phases| ==> I64Range(r.phases[i].duration)
  }

  lemma IdsBack(r: RequestLatency, into: RequestLatency, rest: seq<Field>)
    requires Transmittable(r)
    ensures ReadIds(into, Cursor(Bytes(IdFields(r, rest)), true))
      == (into.(requestId := r.requestId, requestClass := r.requestClass, worker := r.worker,
                workerBoot := r.workerBoot, epoch := r.epoch, serviceGeneration := r.serviceGeneration,
                workloadGeneration := r.workloadGeneration),
          Cursor(Bytes(rest), true))
  {
    hide Read, Bytes;
    var f6 := [U64(r.workloadGeneration)] + rest;
    var f5 := [U64(r.serviceGeneration)] + f6;
    var f4 := [U64(r.epoch)] + f5;
    var f3 := [U64(r.workerBoot)] + f4;
    var f2 := [U64(r.worker)] + f3;
    var f1 := [U64(r.requestClass)] + f2;
    ReadU64(r.requestId, f1);
    ReadU64(r.requestClass, f2);
    ReadU64(r.worker, f3);
    ReadU64(r.workerBoot, f4);
    ReadU64(r.epoch, f5);
    ReadU64(r.serviceGeneration, f6);
    ReadU64(r.workloadGeneration, rest);
  }

  lemma TimesBack(r: RequestLatency, into: RequestLatency, rest: seq<Field>)
    requires Transmittable(r)
    ensures ReadTimes(into, Cursor(Bytes(TimeFields(r, rest)), true))
      == (into.(arrival := r.arrival, completion := r.completion, publication := r.publication, captured := r.captured,
        total := r.total),
          Cursor(Bytes(rest), true))
  {
    hide ReadSigned, Bytes;
    var f4 := [U64(r.total)] + rest;
    var f3 := [U64(r.captured)] + f4;
    var f2 := [U64(r.publication)] + f3;
    var f1 := [U64(r.completion)] + f2;
    ReadI64(r.arrival, f1);
    ReadI64(r.completion, f2);
    ReadI64(r.publication, f3);
    ReadI64(r.captured, f4);
    ReadI64(r.total, rest);
  }

  lemma StatusBack(r: RequestLatency, into: RequestLatency, rest: seq<Field>)
    requires Transmittable(r)
    ensures ReadStatus(into, Cursor(Bytes(StatusFields(r, rest)), true))
      == (into.(status := r.status, retryCount := r.retryCount), |r.phases|, Cursor(Bytes(rest), true))
  {
    hide Read, ReadCode, Bytes;
    var f2 := [U32(|r.phases|)] + rest;
    var f1 := [U32(r.retryCount)] + f2;
    RequestCodes(r.status, 0);
    ReadCodeField(RequestCode(r.status), f1);
    ReadU32(r.retryCount, f2);
    ReadU32(|r.phases|, rest);
  }

  lemma PhaseBack(p: PhaseLatency, rest: seq<Field>)
    requires I64Range(p.duration)
    ensures ReadPhase(Cursor(Bytes(PhaseFields(p, rest)), true)) == (p, Cursor(Bytes(rest), true))
  {
    hide ReadSigned, ReadCode, Bytes;
    PhaseCodes(p.phase, 0);
    ReadCodeField(PhaseCode(p.phase), [U64(p.duration)] + rest);
    ReadI64(p.duration, rest);
  }

  lemma PhasesBack(phases: seq<PhaseLatency>)
    requires forall i :: 0 <= i < |phases| ==> I64Range(phases[i].duration)
    ensures ReadMany(ReadPhase, Cursor(Bytes(WriteMany(PhaseFields, phases, [])), true), |phases|, [])
      == (phases, Cursor([], true))
  {
    hide ReadPhase, PhaseFields;
    forall x, rest | x in phases
      ensures ReadPhase(Cursor(Bytes(PhaseFields(x, rest)), true)) == (Unchanged(x), Cursor(Bytes(rest), true)) {
      PhaseBack(x, rest);
    }
    ReadAllBack(ReadPhase, PhaseFields, Unchanged, phases, []);
    assert Map(Unchanged, phases) == phases;
  }

  lemma TagFirst(body: seq<Field>)
    ensures Bytes([U8(LATENCY_TAG)] + body) != [] && Bytes([U8(LATENCY_TAG)] + body)[1..] == Bytes(body)
  {
    assert ([U8(LATENCY_TAG)] + body)[1..] == body;
  }

  /** Deserialization inverts serialization on every transmitted field, exactly for messages
      of at most 64 phases; longer ones are refused. The evidence generation does not
      travel. */
  lemma LatencyRoundTrip(r: RequestLatency, into: RequestLatency)
    requires Transmittable(r) && into.phases == []
    ensures Deserialize(Serialize(r), into).1 <==> |r.phases| <= MAX_PHASES
    ensures |r.phases| <= MAX_PHASES ==>
      Deserialize(Serialize(r), into).0 == r.(evidenceGeneration := into.evidenceGeneration)
  {
    hide Bytes, ReadIds, ReadTimes, ReadStatus, IdFields, TimeFields, StatusFields, WriteMany, ReadMany;
    var f3 := WriteMany(PhaseFields, r.phases, []);
    var f2 := StatusFields(r, f3);
    var f1 := TimeFields(r, f2);
    TagFirst(BodyOf(r));
    IdsBack(r, into, f1);
    var r1 := ReadIds(into, Cursor(Bytes(IdFields(r, f1)), true)).0;
    TimesBack(r, r1, f2);
    var r2 := ReadTimes(r1, Cursor(Bytes(f1), true)).0;
    StatusBack(r, r2, f3);
    PhasesBack(r.phases);
  }

  // ---- the procedures ----------------------------------------------------------------------

  method SerializeLatency(r: RequestLatency) returns (message: seq<byte>)
    ensures message == Serialize(r)
  {
    hide Bytes;
    var w := new Writer();
    ghost var f3 := WriteMany(PhaseFields, r.phases, []);
    ghost var f2 := StatusFields(r, f3);
    ghost var f1 := TimeFields(r, f2);
    w.Put(LATENCY_TAG, 1, BodyOf(r));
    PutIds(w, r, f1);
    PutTimes(w, r, f2);
    PutStatus(w, r, f3);
    var phases := r.phases;
    for i := 0 to |phases|
      invariant w.Valid()
      invariant w.fields + WriteMany(PhaseFields, phases[i..], []) == [] + ([U8(LATENCY_TAG)] + BodyOf(r))
    {
      ghost var g := WriteMany(PhaseFields, phases[i + 1..], []);
      assert phases[i..][1..] == phases[i + 1..];
      w.Put(PhaseCode(phases[i].phase), 4, [U64(phases[i].duration)] + g);
      w.Put(phases[i].duration, 8, g);
    }
    assert w.fields + [] == w.fields;
    assert [] + ([U8(LATENCY_TAG)] + BodyOf(r)) == [U8(LATENCY_TAG)] + BodyOf(r);
    message := w.buf;
  }

  method PutIds(w: Writer, r: RequestLatency, ghost rest: seq<Field>)
    requires w.Valid()
    modifies w
    ensures w.Valid() && w.fields + rest == old(w.fields) + IdFields(r, rest)
  {
    ghost var f6 := [U64(r.workloadGeneration)] + rest;
    ghost var f5 := [U64(r.serviceGeneration)] + f6;
    ghost var f4 := [U64(r.epoch)] + f5;
    ghost var f3 := [U64(r.workerBoot)] + f4;
    ghost var f2 := [U64(r.worker)] + f3;
    ghost var f1 := [U64(r.requestClass)] + f2;
    w.Put(r.requestId, 8, f1);
    w.Put(r.requestClass, 8, f2);
    w.Put(r.worker, 8, f3);
    w.Put(r.workerBoot, 8, f4);
    w.Put(r.epoch, 8, f5);
    w.Put(r.serviceGeneration, 8, f6);
    w.Put(r.workloadGeneration, 8, rest);
  }

  method PutTimes(w: Writer, r: RequestLatency, ghost rest: seq<Field>)
    requires w.Valid()
    modifies w
    ensures w.Valid() && w.fields + rest == old(w.fields) + TimeFields(r, rest)
  {
    ghost var f4 := [U64(r.total)] + rest;
    ghost var f3 := [U64(r.captured)] + f4;
    ghost var f2 := [U64(r.publication)] + f3;
    ghost var f1 := [U64(r.completion)] + f2;
    w.Put(r.arrival, 8, f1);
    w.Put(r.completion, 8, f2);
    w.Put(r.publication, 8, f3);
    w.Put(r.captured, 8, f4);
    w.Put(r.total, 8, rest);
  }

  method PutStatus(w: Writer, r: RequestLatency, ghost rest: seq<Field>)
    requires w.Valid()
    modifies w
    ensures w.Valid() && w.fields + rest == old(w.fields) + StatusFields(r, rest)
  {
    ghost var f2 := [U32(|r.phases|)] + rest;
    ghost var f1 := [U32(r.retryCount)] + f2;
    w.Put(RequestCode(r.status), 4, f1);
    w.Put(r.retryCount, 4, f2);
    w.Put(|r.phases|, 4, rest);
  }

  method GetIds(r: Reader, into: RequestLatency) returns (m: RequestLatency)
    requires r.Valid()
    modifies r
    ensures r.Valid() && (m, r.View()) == ReadIds(into, old(r.View()))
  {
    hide Read;
    var requestId := r.Get(8);
    var requestClass := r.Get(8);
    var worker := r.Get(8);
    var workerBoot := r.Get(8);
    var epoch := r.Get(8);
    var serviceGeneration := r.Get(8);
    var workloadGeneration := r.Get(8);
    m := into.(requestId := requestId, requestClass := requestClass, worker := worker, workerBoot := workerBoot,
               epoch := epoch, serviceGeneration := serviceGeneration, workloadGeneration := workloadGeneration);
  }

  method GetTimes(r: Reader, into: RequestLatency) returns (m: RequestLatency)
    requires r.Valid()
    modifies r
    ensures r.Valid() && (m, r.View()) == ReadTimes(into, old(r.View()))
  {
    hide Read, ReadSigned;
    var arrival := r.GetSigned(8);
    var completion := r.GetSigned(8);
    var publication := r.GetSigned(8);
    var captured := r.GetSigned(8);
    var total := r.GetSigned(8);
    m := into.(arrival := arrival, completion := completion, publication := publication, captured := captured,
      total := total);
  }

  method GetStatus(r: Reader, into: RequestLatency) returns (m: RequestLatency, nphase: nat)
    requires r.Valid()
    modifies r
    ensures r.Valid() && (m, nphase, r.View()) == ReadStatus(into, old(r.View()))
  {
    hide Read, ReadCode;
    var status := GetCode(r);
    var retryCount := r.Get(4);
    nphase := r.Get(4);
    m := into.(status := RequestOf(status), retryCount := retryCount);
  }

  method GetPhase(r: Reader) returns (p: PhaseLatency)
    requires r.Valid()
    modifies r
    ensures r.Valid() && (p, r.View()) == ReadPhase(old(r.View()))
  {
    hide Read, ReadSigned, ReadCode;
    var phase := GetCode(r);
    var duration := r.GetSigned(8);
    p := PhaseLatency(PhaseOf(phase), duration);
  }

  method GetPhases(r: Reader, n: nat, already: seq<PhaseLatency>) returns (phases: seq<PhaseLatency>)
    requires r.Valid()
    modifies r
    ensures r.Valid() && (phases, r.View()) == ReadMany(ReadPhase, old(r.View()), n, already)
  {
    hide ReadPhase;
    phases := already;
    for i := 0 to n
      invariant r.Valid()
      invariant ReadMany(ReadPhase, r.View(), n - i, phases) == ReadMany(ReadPhase, old(r.View()), n, already)
    {
      var p := GetPhase(r);
      phases := phases + [p];
    }
  }

  /** Reads a message into a record; an unreadable one leaves it partly filled. */
  method DeserializeLatency(body: seq<byte>, into: RequestLatency) returns (m: RequestLatency, ok: bool)
    ensures (m, ok) == Deserialize(body, into)
  {
    hide Read, ReadIds, ReadTimes, ReadStatus, ReadPhase, ReadMany;
    var r := new Reader(body, if |body| == 0 then 0 else 1);
    assert r.View().rest == if body == [] then [] else body[1..];
    m := GetIds(r, into);
    m := GetTimes(r, m);
    var nphase;
    m, nphase := GetStatus(r, m);
    if nphase > MAX_PHASES {
      return m, false;
    }
    var phases := GetPhases(r, nphase, m.phases);
    m, ok := m.(phases := phases), r.ok;
  }
}
