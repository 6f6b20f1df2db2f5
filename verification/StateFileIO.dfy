/** Saving and loading as the source performs them: a writer that appends, a reader that
    advances, and loops over the tables. */
module StateFileIO {
  import opened Basics
  import opened Domain
  import opened Codes
  import opened Checksums
  import opened Codecs
  import opened StateFiles

  // ---- saving ----------------------------------------------------------------------------

  method PutWindow(w: Writer, c: WindowConfig, ghost rest: seq<Field>)
    requires w.Valid()
    modifies w
    ensures w.Valid() && w.fields + rest == old(w.fields) + WindowFields(c, rest)
  {
    ghost var f3 := [U64(c.fixedCount)] + rest;
    ghost var f2 := [U64(c.maxSamples)] + f3;
    ghost var f1 := [U64(c.duration)] + f2;
    w.Put(ModeCode(c.mode), 4, f1);
    w.Put(c.duration, 8, f2);
    w.Put(c.maxSamples, 8, f3);
    w.Put(c.fixedCount, 8, rest);
  }

  method PutLimits(w: Writer, o: Objective, ghost rest: seq<Field>)
    requires w.Valid()
    modifies w
    ensures w.Valid() && w.fields + rest == old(w.fields) + LimitFields(o, rest)
  {
    ghost var f4 := [U64(o.coolDown)] + rest;
    ghost var f3 := [U64(o.recoveryFraction)] + f4;
    ghost var f2 := [U8(Flag(o.hard))] + f3;
    ghost var f1 := [U64(o.freshness)] + f2;
    w.Put(o.minSamples, 8, f1);
    w.Put(o.freshness, 8, f2);
    w.Put(Flag(o.hard), 1, f3);
    w.Put(o.recoveryFraction, 8, f4);
    w.Put(o.coolDown, 8, rest);
  }

  method PutScope(w: Writer, scope: Option<nat>, ghost rest: seq<Field>)
    requires w.Valid()
    modifies w
    ensures w.Valid() && w.fields + rest == old(w.fields) + ScopeFields(scope, rest)
  {
    match scope
    case None => w.Put(0, 1, rest);
    case Some(c) =>
      w.Put(1, 1, [U64(c)] + rest);
      w.Put(c, 8, rest);
  }

  method PutObjective(w: Writer, o: Objective, ghost rest: seq<Field>)
    requires w.Valid()
    modifies w
    ensures w.Valid() && w.fields + rest == old(w.fields) + ObjectiveFields(o, rest)
  {
    hide WindowFields, LimitFields, ScopeFields;
    ghost var f8 := [U8(Flag(o.enabled))] + rest;
    ghost var f7 := [U32(o.priority)] + f8;
    ghost var f6 := ScopeFields(o.classScope, f7);
    ghost var f5 := LimitFields(o, f6);
    ghost var f4 := WindowFields(o.window, f5);
    ghost var f3 := [U64(o.target)] + f4;
    ghost var f2 := [U64(o.percentile)] + f3;
    ghost var f1 := [U64(o.generation)] + f2;
    w.Put(o.id, 8, f1);
    w.Put(o.generation, 8, f2);
    w.Put(o.percentile, 8, f3);
    w.Put(o.target, 8, f4);
    PutWindow(w, o.window, f5);
    PutLimits(w, o, f6);
    PutScope(w, o.classScope, f7);
    w.Put(o.priority, 4, f8);
    w.Put(Flag(o.enabled), 1, rest);
  }

  method PutTarget(w: Writer, i: Intervention, ghost rest: seq<Field>)
    requires w.Valid()
    modifies w
    ensures w.Valid() && w.fields + rest == old(w.fields) + TargetFields(i, rest)
  {
    ghost var f3 := [U64(i.targetClass)] + rest;
    ghost var f2 := [U32(CauseCode(i.cause))] + f3;
    ghost var f1 := [U64(i.objectiveGeneration)] + f2;
    w.Put(i.objective, 8, f1);
    w.Put(i.objectiveGeneration, 8, f2);
    w.Put(CauseCode(i.cause), 4, f3);
    w.Put(i.targetClass, 8, rest);
  }

  method PutEstimate(w: Writer, i: Intervention, ghost rest: seq<Field>)
    requires w.Valid()
    modifies w
    ensures w.Valid() && w.fields + rest == old(w.fields) + EstimateFields(i, rest)
  {
    ghost var f5 := [U64(i.confidence)] + rest;
    ghost var f4 := [U32(ReasonCode(i.feasibility))] + f5;
    ghost var f3 := [U8(Flag(i.feasibility != Feasible))] + f4;
    ghost var f2 := [U64(i.effect)] + f3;
    ghost var f1 := [U64(i.expiryAt)] + f2;
    w.Put(i.proposedAt, 8, f1);
    w.Put(i.expiryAt, 8, f2);
    w.Put(i.effect, 8, f3);
    w.Put(Flag(i.feasibility != Feasible), 1, f4);
    w.Put(ReasonCode(i.feasibility), 4, f5);
    w.Put(i.confidence, 8, rest);
  }

  method PutIntervention(w: Writer, i: Intervention, ghost rest: seq<Field>)
    requires w.Valid()
    modifies w
    ensures w.Valid() && w.fields + rest == old(w.fields) + InterventionFields(i, rest)
  {
    hide TargetFields, EstimateFields, TypeCode, LifecycleCode;
    ghost var f5 := EstimateFields(i, rest);
    ghost var f4 := TargetFields(i, f5);
    ghost var f3 := [U32(LifecycleCode(i.status))] + f4;
    ghost var f2 := [U32(TypeCode(i.kind))] + f3;
    ghost var f1 := [U64(i.generation)] + f2;
    w.Put(i.id, 8, f1);
    w.Put(i.generation, 8, f2);
    w.Put(TypeCode(i.kind), 4, f3);
    w.Put(LifecycleCode(i.status), 4, f4);
    PutTarget(w, i, f5);
    PutEstimate(w, i, rest);
  }

  method PutPolicy(w: Writer, epoch: nat, pol: Policy, ghost rest: seq<Field>)
    requires w.Valid()
    modifies w
    ensures w.Valid() && w.fields + rest == old(w.fields) + PolicyPart(epoch, pol, rest)
  {
    hide ObjectiveFields;
    var objectives := pol.objectives;
    ghost var f4 := WriteMany(ObjectiveFields, objectives, rest);
    ghost var f3 := [U32(|objectives|)] + f4;
    ghost var f2 := [U64(pol.generation)] + f3;
    ghost var f1 := [U64(pol.id)] + f2;
    w.Put(epoch, 8, f1);
    w.Put(pol.id, 8, f2);
    w.Put(pol.generation, 8, f3);
    w.Put(|objectives|, 4, f4);
    for i := 0 to |objectives|
      invariant w.Valid()
      invariant w.fields + WriteMany(ObjectiveFields, objectives[i..], rest) == old(w.fields) + ([U64(epoch)] + f1)
    {
      PutObjective(w, objectives[i], WriteMany(ObjectiveFields, objectives[i + 1..], rest));
      assert objectives[i..][1..] == objectives[i + 1..];
    }
  }

  method PutInterventions(w: Writer, m: map<int, Intervention>, ghost rest: seq<Field>)
    requires w.Valid()
    modifies w
    ensures w.Valid() && w.fields + rest == old(w.fields) + InterventionPart(m, rest)
  {
    hide InterventionFields;
    var xs := Values(Entries(m));
    ghost var f := WriteMany(InterventionFields, xs, rest);
    w.Put(|m|, 4, f);
    for i := 0 to |xs|
      invariant w.Valid()
      invariant w.fields + WriteMany(InterventionFields, xs[i..], rest) == old(w.fields) + ([U32(|m|)] + f)
    {
      PutIntervention(w, xs[i], WriteMany(InterventionFields, xs[i + 1..], rest));
      assert xs[i..][1..] == xs[i + 1..];
    }
  }

  method PutOutcomes(w: Writer, m: map<int, PostOutcome>, ghost rest: seq<Field>)
    requires w.Valid()
    modifies w
    ensures w.Valid() && w.fields + rest == old(w.fields) + OutcomePart(m, rest)
  {
    var xs := Entries(m);
    ghost var f := WriteMany(OutcomeFields, xs, rest);
    w.Put(|m|, 4, f);
    for i := 0 to |xs|
      invariant w.Valid()
      invariant w.fields + WriteMany(OutcomeFields, xs[i..], rest) == old(w.fields) + ([U32(|m|)] + f)
    {
      ghost var g := WriteMany(OutcomeFields, xs[i + 1..], rest);
      assert xs[i..][1..] == xs[i + 1..];
      w.Put(xs[i].0, 8, [U32(OutcomeCode(xs[i].1))] + g);
      w.Put(OutcomeCode(xs[i].1), 4, g);
    }
  }

  method PutRevals(w: Writer, m: map<int, bool>, ghost rest: seq<Field>)
    requires w.Valid()
    modifies w
    ensures w.Valid() && w.fields + rest == old(w.fields) + RevalPart(m, rest)
  {
    var xs := Entries(m);
    ghost var f := WriteMany(RevalFields, xs, rest);
    w.Put(|m|, 4, f);
    for i := 0 to |xs|
      invariant w.Valid()
      invariant w.fields + WriteMany(RevalFields, xs[i..], rest) == old(w.fields) + ([U32(|m|)] + f)
    {
      ghost var g := WriteMany(RevalFields, xs[i + 1..], rest);
      assert xs[i..][1..] == xs[i + 1..];
      w.Put(xs[i].0, 8, [U8(Flag(xs[i].1))] + g);
      w.Put(Flag(xs[i].1), 1, g);
    }
  }

  /** The bytes that a save writes. */
  method SaveState(epoch: nat, d: Durable) returns (file: seq<byte>)
    ensures file == Save(epoch, d)
  {
    hide PolicyPart, InterventionPart, OutcomePart, RevalPart, Bytes, LittleEndian, Crc;
    var w := new Writer();
    ghost var f4 := CounterFields(d);
    ghost var f3 := RevalPart(d.reval, f4);
    ghost var f2 := OutcomePart(d.outcomes, f3);
    ghost var f1 := InterventionPart(d.interventions, f2);
    PutPolicy(w, epoch, d.pol, f1);
    PutInterventions(w, d.interventions, f2);
    PutOutcomes(w, d.outcomes, f3);
    PutRevals(w, d.reval, f4);
    w.Put(d.nextEval, 8, [U64(d.nextInt)] + []);
    w.Put(d.nextInt, 8, []);
    assert w.fields == BodyFields(epoch, d) by {
      assert w.fields + [] == w.fields;
      assert [] + BodyFields(epoch, d) == BodyFields(epoch, d);
    }
    var crc := Crc32(w.buf);
    file := LittleEndian(MAGIC, 4) + LittleEndian(VERSION, 4) + LittleEndian(|w.buf|, 8) + CrcBytes(crc) + w.buf;
  }

  // ---- loading ---------------------------------------------------------------------------

  method GetCode(r: Reader) returns (code: int32)
    requires r.Valid()
    modifies r
    ensures r.Valid() && (code, r.View()) == ReadCode(old(r.View()))
  {
    var u := r.Get(4);
    ReadBound(old(r.View()), 4);
    Powers();
    code := Signed(u, 4);
  }

  method GetBits(r: Reader) returns (bits: Bits)
    requires r.Valid()
    modifies r
    ensures r.Valid() && (bits, r.View()) == ReadBits(old(r.View()))
  {
    ReadBound(r.View(), 8);
    Powers();
    var u := r.Get(8);
    bits := u;
  }

  method GetWindow(r: Reader) returns (w: WindowConfig)
    requires r.Valid()
    modifies r
    ensures r.Valid() && (w, r.View()) == ReadWindow(old(r.View()))
  {
    hide Read, ReadSigned, ReadCode;
    var mode := GetCode(r);
    var duration := r.GetSigned(8);
    var maxSamples := r.Get(8);
    var fixedCount := r.Get(8);
    w := WindowConfig(ModeOf(mode), duration, fixedCount, maxSamples);
  }

  method GetScope(r: Reader) returns (scope: Option<nat>)
    requires r.Valid()
    modifies r
    ensures r.Valid() && (scope, r.View()) == ReadScope(old(r.View()))
  {
    hide Read;
    scope := None;
    var present := r.Get(1);
    if present != 0 {
      var c := r.Get(8);
      scope := Some(c);
    }
  }

  method GetLimits(r: Reader) returns (l: Limits)
    requires r.Valid()
    modifies r
    ensures r.Valid() && (l, r.View()) == ReadLimits(old(r.View()))
  {
    hide Read, ReadSigned, ReadBits;
    var minSamples := r.Get(8);
    var freshness := r.GetSigned(8);
    var hard := r.Get(1);
    var recoveryFraction := GetBits(r);
    var coolDown := r.GetSigned(8);
    l := Limits(minSamples, freshness, hard != 0, recoveryFraction, coolDown);
  }

  method GetObjective(r: Reader) returns (o: Objective)
    requires r.Valid()
    modifies r
    ensures r.Valid() && (o, r.View()) == ReadObjective(old(r.View()))
  {
    hide Read, ReadSigned, ReadBits, ReadWindow, ReadLimits, ReadScope;
    var id := r.Get(8);
    var generation := r.Get(8);
    var percentile := GetBits(r);
    var target := r.GetSigned(8);
    var window := GetWindow(r);
    var l := GetLimits(r);
    var classScope := GetScope(r);
    var priority := r.GetSigned(4);
    var enabled := r.Get(1);
    o := Objective(id, generation, percentile, target, window, l.minSamples, l.freshness, l.hard,
                   l.recoveryFraction, l.coolDown, classScope, priority, enabled != 0);
  }

  method GetTarget(r: Reader) returns (t: Target)
    requires r.Valid()
    modifies r
    ensures r.Valid() && (t, r.View()) == ReadTarget(old(r.View()))
  {
    hide Read, ReadCode;
    var objective := r.Get(8);
    var generation := r.Get(8);
    var cause := GetCode(r);
    var requestClass := r.Get(8);
    t := Target(objective, generation, CauseOf(cause), requestClass);
  }

  method GetEstimate(r: Reader) returns (e: Estimate)
    requires r.Valid()
    modifies r
    ensures r.Valid() && (e, r.View()) == ReadEstimate(old(r.View()))
  {
    hide Read, ReadSigned, ReadCode, ReadBits;
    var proposedAt := r.GetSigned(8);
    var expiryAt := r.GetSigned(8);
    var effect := r.GetSigned(8);
    var _ := r.Get(1);
    var feasibility := GetCode(r);
    var confidence := GetBits(r);
    e := Estimate(proposedAt, expiryAt, effect, ReasonOf(feasibility), confidence);
  }

  method GetIntervention(r: Reader) returns (i: Intervention)
    requires r.Valid()
    modifies r
    ensures r.Valid() && (i, r.View()) == ReadIntervention(old(r.View()))
  {
    hide Read, ReadCode, ReadTarget, ReadEstimate;
    var id := r.Get(8);
    var generation := r.Get(8);
    var kind := GetCode(r);
    var status := GetCode(r);
    var t := GetTarget(r);
    var e := GetEstimate(r);
    i := Intervention(id, generation, TypeOf(kind), LifecycleOf(status), t.cause, t.requestClass, NO_AUTHORITY,
                      t.objective, t.generation, e.effect, e.feasibility, e.confidence, e.proposedAt, e.expiryAt);
  }

  method GetObjectives(r: Reader, n: nat, reval: map<int, bool>)
    returns (objectives: seq<Objective>, marked: map<int, bool>)
    requires r.Valid()
    modifies r
    ensures r.Valid() && (objectives, r.View()) == ReadMany(ReadObjective, old(r.View()), n, [])
    ensures marked == Marked(reval, objectives)
  {
    hide ReadObjective;
    objectives, marked := [], reval;
    for i := 0 to n
      invariant r.Valid()
      invariant ReadMany(ReadObjective, r.View(), n - i, objectives) == ReadMany(ReadObjective, old(r.View()), n, [])
      invariant marked == Marked(reval, objectives)
    {
      var o := GetObjective(r);
      assert (objectives + [o])[..|objectives|] == objectives;
      objectives := objectives + [o];
      marked := marked[o.id := true];
    }
  }

  method GetInterventions(r: Reader, n: nat) returns (m: map<int, Intervention>)
    requires r.Valid()
    modifies r
    ensures r.Valid()
    ensures var (read, next) := ReadMany(ReadIntervention, old(r.View()), n, []);
      m == Inserted(map[], Map(ById, read)) && r.View() == next
  {
    hide ReadIntervention;
    m := map[];
    ghost var read := [];
    for i := 0 to n
      invariant r.Valid()
      invariant ReadMany(ReadIntervention, r.View(), n - i, read) == ReadMany(ReadIntervention, old(r.View()), n, [])
      invariant m == Inserted(map[], Map(ById, read))
    {
      var inv := GetIntervention(r);
      assert Map(ById, read + [inv])[..|read|] == Map(ById, read);
      read := read + [inv];
      m := m[inv.id := inv];
    }
  }

  method GetOutcomes(r: Reader, n: nat) returns (m: map<int, PostOutcome>)
    requires r.Valid()
    modifies r
    ensures r.Valid()
    ensures var (entries, next) := ReadMany(ReadOutcome, old(r.View()), n, []);
      m == Inserted(map[], entries) && r.View() == next
  {
    hide Read, ReadCode;
    m := map[];
    ghost var entries: seq<(int, PostOutcome)> := [];
    for i := 0 to n
      invariant r.Valid()
      invariant ReadMany(ReadOutcome, r.View(), n - i, entries) == ReadMany(ReadOutcome, old(r.View()), n, [])
      invariant m == Inserted(map[], entries)
    {
      ghost var c := r.View();
      var id := r.Get(8);
      var code := GetCode(r);
      ghost var e: (int, PostOutcome) := (id, OutcomeOf(code));
      assert ReadOutcome(c) == (e, r.View());
      assert (entries + [e])[..|entries|] == entries;
      entries := entries + [e];
      m := m[id := OutcomeOf(code)];
    }
  }

  method GetRevals(r: Reader, n: nat, reval: map<int, bool>) returns (m: map<int, bool>)
    requires r.Valid()
    modifies r
    ensures r.Valid()
    ensures var (entries, next) := ReadMany(ReadReval, old(r.View()), n, []);
      m == Inserted(reval, entries) && r.View() == next
  {
    hide Read;
    m := reval;
    ghost var entries: seq<(int, bool)> := [];
    for i := 0 to n
      invariant r.Valid()
      invariant ReadMany(ReadReval, r.View(), n - i, entries) == ReadMany(ReadReval, old(r.View()), n, [])
      invariant m == Inserted(reval, entries)
    {
      ghost var c := r.View();
      var id := r.Get(8);
      var _ := r.Get(1);
      ghost var e: (int, bool) := (id, true);
      assert ReadReval(c) == (e, r.View());
      assert (entries + [e])[..|entries|] == entries;
      entries := entries + [e];
      m := m[id := true];
    }
  }

  method LoadTables(d: Durable, r: Reader) returns (after: Durable, status: StatusCode)
    requires r.Valid()
    modifies r
    ensures r.Valid() && (after, status, r.View()) == LoadInterventions(d, old(r.View()))
  {
    hide Read, ReadMany, Inserted;
    after := d;
    var nInt := r.Get(4);
    if nInt > MAX_INTERVENTIONS {
      return after, PersistenceCorrupt;
    }
    var interventions := GetInterventions(r, nInt);
    after := after.(interventions := interventions);
    var nOut := r.Get(4);
    if nOut > MAX_OUTCOMES {
      return after, PersistenceCorrupt;
    }
    var outcomes := GetOutcomes(r, nOut);
    after := after.(outcomes := outcomes);
    var nReval := r.Get(4);
    if nReval > MAX_REVALIDATIONS {
      return after, PersistenceCorrupt;
    }
    var reval := GetRevals(r, nReval, after.reval);
    after := after.(reval := reval);
    var nextEval := r.Get(8);
    var nextInt := r.Get(8);
    after := after.(nextEval := nextEval, nextInt := nextInt);
    status := if r.ok then Success else PersistenceCorrupt;
  }

  method LoadFields(d: Durable, body: seq<byte>) returns (after: Durable, status: StatusCode)
    ensures after == LoadBody(d, body).0 && status == LoadBody(d, body).1
  {
    hide Read, ReadMany, Marked, LoadInterventions;
    var r := new Reader(body, 0);
    assert body[0..] == body;
    var _ := r.Get(8);
    var id := r.Get(8);
    var generation := r.Get(8);
    var nObj := r.Get(4);
    if nObj > MAX_OBJECTIVES {
      return d, PersistenceCorrupt;
    }
    var objectives, reval := GetObjectives(r, nObj, d.reval);
    after := d.(reval := reval);
    if !r.ok {
      return after, PersistenceCorrupt;
    }
    after, status := LoadTables(after.(pol := Policy(id, generation, objectives)), r);
  }

  /** What a load makes of a file; on an error the state reached so far stays. */
  method LoadState(d: Durable, file: seq<byte>) returns (after: Durable, status: StatusCode)
    ensures (after, status) == Load(d, file)
  {
    hide LoadBody, Crc, Unsigned;
    if |file| < HEADER || |file| > MAX_FILE {
      return d, PersistenceCorrupt;
    }
    if Unsigned(file[..4]) != MAGIC || Unsigned(file[4..8]) != VERSION {
      return d, PersistenceCorrupt;
    }
    var bodyLen := Unsigned(file[8..16]);
    if bodyLen > MAX_FILE || HEADER + bodyLen != |file| {
      return d, PersistenceCorrupt;
    }
    var crc := Crc32(file[20..]);
    if CrcOf(file[16..20]) != crc {
      return d, PersistenceCorrupt;
    }
    after, status := LoadFields(d, file[20..]);
  }
}
