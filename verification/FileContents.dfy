/** What a state file holds, read independently of the state it is loaded into: loads install
    exactly that, bytes behind it make no difference, and it tells which refused loads change
    nothing. */
module FileContents {
  import opened Basics
  import opened Domain
  import opened Checksums
  import opened Codecs
  import opened StateFiles

  /** As far as a load gets: the objectives it marks, the policy and tables it installs, the
      flags it raises, the counters, and whether every read found enough bytes. */
  datatype Contents = Contents(
    listed: seq<Objective>, policy: Option<Policy>,
    interventions: Option<map<int, Intervention>>, outcomes: Option<map<int, PostOutcome>>,
    flags: seq<(int, bool)>, counters: Option<(nat, nat)>, complete: bool)

  const NOTHING := Contents([], None, None, None, [], None, false)

  function CountersIn(c: Cursor): Contents {
    var (nextEval, c1) := Read(c, 8);
    var (nextInt, c2) := Read(c1, 8);
    NOTHING.(counters := Some((nextEval, nextInt)), complete := c2.ok)
  }

  function FlagsIn(c: Cursor): Contents {
    var (n, c1) := Read(c, 4);
    if n > MAX_REVALIDATIONS then NOTHING
    else
      var (entries, c2) := ReadMany(ReadReval, c1, n, []);
      CountersIn(c2).(flags := entries)
  }

  function OutcomesIn(c: Cursor): Contents {
    var (n, c1) := Read(c, 4);
    if n > MAX_OUTCOMES then NOTHING
    else
      var (entries, c2) := ReadMany(ReadOutcome, c1, n, []);
      FlagsIn(c2).(outcomes := Some(Inserted(map[], entries)))
  }

  function InterventionsIn(c: Cursor): Contents {
    var (n, c1) := Read(c, 4);
    if n > MAX_INTERVENTIONS then NOTHING
    else
      var (read, c2) := ReadMany(ReadIntervention, c1, n, []);
      OutcomesIn(c2).(interventions := Some(Inserted(map[], Map(ById, read))))
  }

  function BodyIn(body: seq<byte>): Contents {
    var (_, c1) := Read(Cursor(body, true), 8);
    var (id, c2) := Read(c1, 8);
    var (generation, c3) := Read(c2, 8);
    var (n, c4) := Read(c3, 4);
    if n > MAX_OBJECTIVES then NOTHING
    else
      var (objectives, c5) := ReadMany(ReadObjective, c4, n, []);
      if !c5.ok then NOTHING.(listed := objectives)
      else InterventionsIn(c5).(listed := objectives, policy := Some(Policy(id, generation, objectives)))
  }

  function ContentsOf(file: seq<byte>): Contents {
    if IntactFrame(file) then BodyIn(file[20..]) else NOTHING
  }

  function OrElse<T>(o: Option<T>, default: T): T {
    match o
    case None => default
    case Some(x) => x
  }

  /** The contents put over a state. */
  function Install(d: Durable, k: Contents): Durable {
    Durable(OrElse(k.policy, d.pol), OrElse(k.interventions, d.interventions), OrElse(k.outcomes, d.outcomes),
            Inserted(Marked(d.reval, k.listed), k.flags),
            OrElse(k.counters, (d.nextEval, d.nextInt)).0, OrElse(k.counters, (d.nextEval, d.nextInt)).1)
  }

  function StatusFor(k: Contents): StatusCode {
    if k.complete then Success else PersistenceCorrupt
  }

  // ---- loads install the contents ------------------------------------------------------------

  lemma CountersInstall(d: Durable, c: Cursor)
    ensures var r := LoadCounters(d, c); r.0 == Install(d, CountersIn(c)) && r.1 == StatusFor(CountersIn(c))
  {
    hide Read;
  }

  lemma FlagsInstall(d: Durable, c: Cursor)
    ensures var r := LoadRevals(d, c); r.0 == Install(d, FlagsIn(c)) && r.1 == StatusFor(FlagsIn(c))
  {
    hide Read, ReadMany, LoadCounters;
    var (n, c1) := Read(c, 4);
    if n <= MAX_REVALIDATIONS {
      var (entries, c2) := ReadMany(ReadReval, c1, n, []);
      CountersInstall(d.(reval := Inserted(d.reval, entries)), c2);
    }
  }

  lemma OutcomesInstall(d: Durable, c: Cursor)
    ensures var r := LoadOutcomes(d, c); r.0 == Install(d, OutcomesIn(c)) && r.1 == StatusFor(OutcomesIn(c))
    ensures OutcomesIn(c).listed == [] && OutcomesIn(c).policy.None? && OutcomesIn(c).interventions.None?
  {
    hide Read, ReadMany, Marked, LoadRevals, CountersIn;
    NoneMarked(d.reval);
    var (n, c1) := Read(c, 4);
    if n <= MAX_OUTCOMES {
      var (entries, c2) := ReadMany(ReadOutcome, c1, n, []);
      FlagsInstall(d.(outcomes := Inserted(map[], entries)), c2);
      FlagsOnly(c2);
    }
  }

  lemma FlagsOnly(c: Cursor)
    ensures var k := FlagsIn(c); k.listed == [] && k.policy.None? && k.interventions.None? && k.outcomes.None?
    ensures FlagsIn(c).complete ==> FlagsIn(c).counters.Some?
  {
    hide Read, ReadMany;
  }

  lemma InterventionsInstall(d: Durable, c: Cursor)
    ensures var r := LoadInterventions(d, c);
      r.0 == Install(d, InterventionsIn(c)) && r.1 == StatusFor(InterventionsIn(c))
    ensures InterventionsIn(c).listed == [] && InterventionsIn(c).policy.None?
    ensures InterventionsIn(c).complete ==> InterventionsIn(c).interventions.Some?
  {
    hide Read, ReadMany, Marked, LoadOutcomes, OutcomesIn;
    NoneMarked(d.reval);
    var (n, c1) := Read(c, 4);
    if n <= MAX_INTERVENTIONS {
      var (read, c2) := ReadMany(ReadIntervention, c1, n, []);
      OutcomesInstall(d.(interventions := Inserted(map[], Map(ById, read))), c2);
    }
  }

  lemma BodyInstalls(d: Durable, body: seq<byte>)
    ensures var r := LoadBody(d, body); r.0 == Install(d, BodyIn(body)) && r.1 == StatusFor(BodyIn(body))
    ensures var k := BodyIn(body);
      && (k.policy.None? ==> k == NOTHING.(listed := k.listed))
      && (k.policy.Some? ==> k.policy.value.objectives == k.listed)
      && (k.complete ==> k.policy.Some? && k.interventions.Some?)
  {
    hide Read, ReadMany, LoadInterventions, InterventionsIn, Marked;
    var (_, c1) := Read(Cursor(body, true), 8);
    var (id, c2) := Read(c1, 8);
    var (generation, c3) := Read(c2, 8);
    var (n, c4) := Read(c3, 4);
    if n <= MAX_OBJECTIVES {
      var (objectives, c5) := ReadMany(ReadObjective, c4, n, []);
      var marked := d.(reval := Marked(d.reval, objectives), pol := Policy(id, generation, objectives));
      InterventionsInstall(marked, c5);
      NoneMarked(marked.reval);
    }
    NoneMarked(d.reval);
  }

  lemma NoneMarked(reval: map<int, bool>)
    ensures Marked(reval, []) == reval
  {
  }

  /** A load, accepted or refused, does to any state what the file alone determines. */
  lemma LoadInstalls(d: Durable, file: seq<byte>)
    ensures Load(d, file) == (Install(d, ContentsOf(file)), StatusFor(ContentsOf(file)))
    ensures var k := ContentsOf(file);
      && (k.policy.None? ==> k == NOTHING.(listed := k.listed))
      && (k.policy.Some? ==> k.policy.value.objectives == k.listed)
      && (k.complete ==> k.policy.Some? && k.interventions.Some?)
  {
    hide LoadBody, BodyIn, IntactFrame, Inserted;
    if IntactFrame(file) {
      LongEnough(file);
      BodyInstalls(d, file[20..]);
    } else {
      NothingInstalled(d);
    }
  }

  lemma LongEnough(file: seq<byte>)
    ensures IntactFrame(file) ==> |file| >= 20
  {
  }

  lemma NothingInstalled(d: Durable)
    ensures Install(d, NOTHING) == d
  {
    NoneMarked(d.reval);
  }

  // ---- refused loads -------------------------------------------------------------------------

  /** A load changes no state at all if and only if the file lists no objective it could mark and
      holds no policy it could install. */
  lemma ChangesNothingIff(file: seq<byte>)
    ensures (forall d :: Load(d, file).0 == d) <==> ContentsOf(file).listed == [] && ContentsOf(file).policy.None?
  {
    hide Load, ContentsOf, Inserted, Marked;
    var k := ContentsOf(file);
    var empty := Durable(Policy(0, 0, []), map[], map[], map[], 0, 0);
    LoadInstalls(empty, file);
    if k.listed == [] && k.policy.None? {
      forall d ensures Load(d, file).0 == d {
        LoadInstalls(d, file);
        NothingInstalled(d);
      }
    } else if k.policy.Some? {
      var other := empty.(pol := Policy(k.policy.value.id + 1, 0, []));
      LoadInstalls(other, file);
      assert Load(other, file).0 != other;
    } else {
      MarkedAll(map[], k.listed);
      assert k.listed[0] in k.listed;
      NoneInserted(Marked(map[], k.listed));
      assert Load(empty, file).0 != empty;
    }
  }

  lemma NoneInserted(m: map<int, bool>)
    ensures Inserted(m, []) == m
  {
  }

  /** The file of a saved state changes nothing when it is loaded if and only if it is too large
      or lists too many objectives; every other excess is refused after the policy and some of the
      tables are installed. */
  lemma SavedChangesNothingIff(epoch: nat, d: Durable)
    requires Representable(epoch, d)
    ensures (forall before :: Load(before, Save(epoch, d)).0 == before)
      <==> |Save(epoch, d)| > MAX_FILE || |d.pol.objectives| > MAX_OBJECTIVES
  {
    hide Load, Save, Marked;
    forall before ensures |Save(epoch, d)| > MAX_FILE || |d.pol.objectives| > MAX_OBJECTIVES ==>
      Load(before, Save(epoch, d)).0 == before {
      SavedLoads(before, epoch, d);
    }
    var other := d.(pol := Policy(d.pol.id + 1, 0, []));
    SavedLoads(other, epoch, d);
  }

  // ---- what follows a body -------------------------------------------------------------------

  /** The cursor with bytes behind what it has left. */
  function Then(c: Cursor, x: seq<byte>): Cursor {
    c.(rest := c.rest + x)
  }

  /** A read that did not run short does the same with bytes behind, and leaves them. */
  ghost predicate Steady<T(!new)>(read: Cursor -> (T, Cursor)) {
    forall c, x :: SteadyAt(read, c, x)
  }

  ghost predicate SteadyAt<T>(read: Cursor -> (T, Cursor), c: Cursor, x: seq<byte>) {
    read(c).1.ok ==> c.ok && read(Then(c, x)) == (read(c).0, Then(read(c).1, x))
  }

  lemma ReadThen(c: Cursor, width: nat, x: seq<byte>)
    requires Read(c, width).1.ok
    ensures c.ok && Read(Then(c, x), width) == (Read(c, width).0, Then(Read(c, width).1, x))
  {
    hide Unsigned;
    if |c.rest| >= width {
      assert (c.rest + x)[..width] == c.rest[..width];
      assert (c.rest + x)[width..] == c.rest[width..] + x;
    }
  }

  lemma SignedThen(c: Cursor, width: nat, x: seq<byte>)
    requires width > 0 && ReadSigned(c, width).1.ok
    ensures c.ok && ReadSigned(Then(c, x), width) == (ReadSigned(c, width).0, Then(ReadSigned(c, width).1, x))
  {
    hide Read;
    ReadThen(c, width, x);
  }

  lemma CodeThen(c: Cursor, x: seq<byte>)
    requires ReadCode(c).1.ok
    ensures c.ok && ReadCode(Then(c, x)) == (ReadCode(c).0, Then(ReadCode(c).1, x))
  {
    hide Read;
    ReadThen(c, 4, x);
  }

  lemma BitsThen(c: Cursor, x: seq<byte>)
    requires ReadBits(c).1.ok
    ensures c.ok && ReadBits(Then(c, x)) == (ReadBits(c).0, Then(ReadBits(c).1, x))
  {
    hide Read;
    ReadThen(c, 8, x);
  }

  lemma WindowThen(c0: Cursor, x: seq<byte>)
    requires ReadWindow(c0).1.ok
    ensures c0.ok && ReadWindow(Then(c0, x)) == (ReadWindow(c0).0, Then(ReadWindow(c0).1, x))
  {
    hide Read, ReadSigned, ReadCode, Then;
    var c1 := ReadCode(c0).1;
    var c2 := ReadSigned(c1, 8).1;
    var c3 := Read(c2, 8).1;
    ReadThen(c3, 8, x);
    ReadThen(c2, 8, x);
    SignedThen(c1, 8, x);
    CodeThen(c0, x);
  }

  lemma ScopeThen(c0: Cursor, x: seq<byte>)
    requires ReadScope(c0).1.ok
    ensures c0.ok && ReadScope(Then(c0, x)) == (ReadScope(c0).0, Then(ReadScope(c0).1, x))
  {
    hide Read, Then;
    var (present, c1) := Read(c0, 1);
    if present != 0 {
      ReadThen(c1, 8, x);
    }
    ReadThen(c0, 1, x);
  }

  lemma LimitsThen(c0: Cursor, x: seq<byte>)
    requires ReadLimits(c0).1.ok
    ensures c0.ok && ReadLimits(Then(c0, x)) == (ReadLimits(c0).0, Then(ReadLimits(c0).1, x))
  {
    hide Read, ReadSigned, ReadBits, Then;
    var c1 := Read(c0, 8).1;
    var c2 := ReadSigned(c1, 8).1;
    var c3 := Read(c2, 1).1;
    var c4 := ReadBits(c3).1;
    SignedThen(c4, 8, x);
    BitsThen(c3, x);
    ReadThen(c2, 1, x);
    SignedThen(c1, 8, x);
    ReadThen(c0, 8, x);
  }

  lemma ObjectiveThen(c0: Cursor, x: seq<byte>)
    requires ReadObjective(c0).1.ok
    ensures c0.ok && ReadObjective(Then(c0, x)) == (ReadObjective(c0).0, Then(ReadObjective(c0).1, x))
  {
    hide Read, ReadSigned, ReadBits, ReadWindow, ReadLimits, ReadScope, Then;
    var c1 := Read(c0, 8).1;
    var c2 := Read(c1, 8).1;
    var c3 := ReadBits(c2).1;
    var c4 := ReadSigned(c3, 8).1;
    var c5 := ReadWindow(c4).1;
    var c6 := ReadLimits(c5).1;
    var c7 := ReadScope(c6).1;
    var c8 := ReadSigned(c7, 4).1;
    ReadThen(c8, 1, x);
    SignedThen(c7, 4, x);
    ScopeThen(c6, x);
    LimitsThen(c5, x);
    WindowThen(c4, x);
    SignedThen(c3, 8, x);
    BitsThen(c2, x);
    ReadThen(c1, 8, x);
    ReadThen(c0, 8, x);
  }

  lemma TargetThen(c0: Cursor, x: seq<byte>)
    requires ReadTarget(c0).1.ok
    ensures c0.ok && ReadTarget(Then(c0, x)) == (ReadTarget(c0).0, Then(ReadTarget(c0).1, x))
  {
    hide Read, ReadCode, Then;
    var c1 := Read(c0, 8).1;
    var c2 := Read(c1, 8).1;
    var c3 := ReadCode(c2).1;
    ReadThen(c3, 8, x);
    CodeThen(c2, x);
    ReadThen(c1, 8, x);
    ReadThen(c0, 8, x);
  }

  lemma EstimateThen(c0: Cursor, x: seq<byte>)
    requires ReadEstimate(c0).1.ok
    ensures c0.ok && ReadEstimate(Then(c0, x)) == (ReadEstimate(c0).0, Then(ReadEstimate(c0).1, x))
  {
    hide Read, ReadSigned, ReadCode, ReadBits, Then;
    var c1 := ReadSigned(c0, 8).1;
    var c2 := ReadSigned(c1, 8).1;
    var c3 := ReadSigned(c2, 8).1;
    var c4 := Read(c3, 1).1;
    var c5 := ReadCode(c4).1;
    BitsThen(c5, x);
    CodeThen(c4, x);
    ReadThen(c3, 1, x);
    SignedThen(c2, 8, x);
    SignedThen(c1, 8, x);
    SignedThen(c0, 8, x);
  }

  lemma InterventionThen(c0: Cursor, x: seq<byte>)
    requires ReadIntervention(c0).1.ok
    ensures c0.ok && ReadIntervention(Then(c0, x)) == (ReadIntervention(c0).0, Then(ReadIntervention(c0).1, x))
  {
    hide Read, ReadCode, ReadTarget, ReadEstimate, Then;
    var c1 := Read(c0, 8).1;
    var c2 := Read(c1, 8).1;
    var c3 := ReadCode(c2).1;
    var c4 := ReadCode(c3).1;
    var c5 := ReadTarget(c4).1;
    EstimateThen(c5, x);
    TargetThen(c4, x);
    CodeThen(c3, x);
    CodeThen(c2, x);
    ReadThen(c1, 8, x);
    ReadThen(c0, 8, x);
  }

  lemma PairsSteady()
    ensures Steady(ReadOutcome) && Steady(ReadReval)
  {
    hide Read, ReadCode, Then;
    forall c, x ensures SteadyAt(ReadOutcome, c, x) {
      if ReadOutcome(c).1.ok {
        CodeThen(Read(c, 8).1, x);
        ReadThen(c, 8, x);
      }
    }
    forall c, x ensures SteadyAt(ReadReval, c, x) {
      if ReadReval(c).1.ok {
        ReadThen(Read(c, 8).1, 1, x);
        ReadThen(c, 8, x);
      }
    }
  }

  lemma RecordsSteady()
    ensures Steady(ReadObjective) && Steady(ReadIntervention)
  {
    hide ReadObjective, ReadIntervention, Then;
    forall c, x ensures SteadyAt(ReadObjective, c, x) {
      if ReadObjective(c).1.ok {
        ObjectiveThen(c, x);
      }
    }
    forall c, x ensures SteadyAt(ReadIntervention, c, x) {
      if ReadIntervention(c).1.ok {
        InterventionThen(c, x);
      }
    }
  }

  lemma {:induction false} ManyThen<T(!new)>(read: Cursor -> (T, Cursor), c: Cursor, n: nat, acc: seq<T>, x: seq<byte>)
    requires Steady(read) && ReadMany(read, c, n, acc).1.ok
    ensures c.ok
    ensures ReadMany(read, Then(c, x), n, acc) == (ReadMany(read, c, n, acc).0, Then(ReadMany(read, c, n, acc).1, x))
    decreases n
  {
    hide Then;
    if n > 0 {
      var (v, next) := read(c);
      ManyThen(read, next, n - 1, acc + [v], x);
      assert SteadyAt(read, c, x);
    }
  }

  lemma CountersThen(d: Durable, c: Cursor, x: seq<byte>)
    requires LoadCounters(d, c).2.ok
    ensures c.ok
    ensures var r := LoadCounters(d, c); LoadCounters(d, Then(c, x)) == (r.0, r.1, Then(r.2, x))
  {
    hide Read;
    ReadThen(Read(c, 8).1, 8, x);
    ReadThen(c, 8, x);
  }

  lemma RevalsThen(d: Durable, c: Cursor, x: seq<byte>)
    requires LoadRevals(d, c).2.ok
    ensures c.ok
    ensures var r := LoadRevals(d, c); LoadRevals(d, Then(c, x)) == (r.0, r.1, Then(r.2, x))
  {
    hide Read, ReadMany, LoadCounters, Then, Inserted, Steady;
    PairsSteady();
    var (n, c1) := Read(c, 4);
    if n <= MAX_REVALIDATIONS {
      var (entries, c2) := ReadMany(ReadReval, c1, n, []);
      CountersThen(d.(reval := Inserted(d.reval, entries)), c2, x);
      ManyThen(ReadReval, c1, n, [], x);
    }
    ReadThen(c, 4, x);
  }

  lemma OutcomesThen(d: Durable, c: Cursor, x: seq<byte>)
    requires LoadOutcomes(d, c).2.ok
    ensures c.ok
    ensures var r := LoadOutcomes(d, c); LoadOutcomes(d, Then(c, x)) == (r.0, r.1, Then(r.2, x))
  {
    hide Read, ReadMany, LoadRevals, Then, Inserted, Steady;
    PairsSteady();
    var (n, c1) := Read(c, 4);
    if n <= MAX_OUTCOMES {
      var (entries, c2) := ReadMany(ReadOutcome, c1, n, []);
      RevalsThen(d.(outcomes := Inserted(map[], entries)), c2, x);
      ManyThen(ReadOutcome, c1, n, [], x);
    }
    ReadThen(c, 4, x);
  }

  lemma InterventionsThen(d: Durable, c: Cursor, x: seq<byte>)
    requires LoadInterventions(d, c).2.ok
    ensures c.ok
    ensures var r := LoadInterventions(d, c); LoadInterventions(d, Then(c, x)) == (r.0, r.1, Then(r.2, x))
  {
    hide Read, ReadMany, LoadOutcomes, Then, Inserted, Steady;
    RecordsSteady();
    var (n, c1) := Read(c, 4);
    if n <= MAX_INTERVENTIONS {
      var (read, c2) := ReadMany(ReadIntervention, c1, n, []);
      OutcomesThen(d.(interventions := Inserted(map[], Map(ById, read))), c2, x);
      ManyThen(ReadIntervention, c1, n, [], x);
    }
    ReadThen(c, 4, x);
  }

  /** Bytes behind a body that the load does not run short of are left unread and change
      nothing. */
  lemma BodyThen(d: Durable, body: seq<byte>, x: seq<byte>)
    requires LoadBody(d, body).2.ok
    ensures var r := LoadBody(d, body); LoadBody(d, body + x) == (r.0, r.1, Then(r.2, x))
  {
    hide Read, ReadMany, LoadInterventions, Then, Marked, Steady;
    RecordsSteady();
    var start := Cursor(body, true);
    var c1 := Read(start, 8).1;
    var (id, c2) := Read(c1, 8);
    var (generation, c3) := Read(c2, 8);
    var (n, c4) := Read(c3, 4);
    if n <= MAX_OBJECTIVES {
      var (objectives, c5) := ReadMany(ReadObjective, c4, n, []);
      if c5.ok {
        InterventionsThen(d.(reval := Marked(d.reval, objectives), pol := Policy(id, generation, objectives)), c5, x);
        StaysOk(c5, x);
      }
      ManyThen(ReadObjective, c4, n, [], x);
    }
    ReadThen(c3, 4, x);
    ReadThen(c2, 8, x);
    ReadThen(c1, 8, x);
    ReadThen(start, 8, x);
    StartThen(body, x);
  }

  lemma StaysOk(c: Cursor, x: seq<byte>)
    ensures Then(c, x).ok == c.ok
  {
  }

  lemma StartThen(body: seq<byte>, x: seq<byte>)
    ensures Then(Cursor(body, true), x) == Cursor(body + x, true)
  {
  }

  /** Neither an accepted load nor the load of a saved state, whatever count refuses it, runs
      short. */
  lemma NotShort(d: Durable, body: seq<byte>)
    ensures LoadBody(d, body).1 == Success ==> LoadBody(d, body).2.ok
    ensures forall epoch, s | Representable(epoch, s) && body == Bytes(BodyFields(epoch, s)) :: LoadBody(d, body).2.ok
  {
    hide LoadBody, Bytes, BodyFields, Representable;
    AcceptedIsOk(d, body);
    forall epoch, s | Representable(epoch, s) && body == Bytes(BodyFields(epoch, s)) ensures LoadBody(d, body).2.ok {
      BodyBack(d, epoch, s);
    }
  }

  lemma AcceptedIsOk(d: Durable, body: seq<byte>)
    ensures LoadBody(d, body).1 == Success ==> LoadBody(d, body).2.ok
  {
    hide Read, ReadMany, Inserted, Marked;
  }

  /** Bytes behind a body, with a frame that announces them, are never looked at unless the load
      runs short without them. */
  lemma SurplusIgnored(d: Durable, body: seq<byte>, x: seq<byte>)
    requires |body + x| <= MAX_FILE - HEADER && LoadBody(d, body).2.ok
    ensures Load(d, Framed(body + x)) == Load(d, Framed(body))
    ensures LoadBody(d, body + x).2 == Cursor(LoadBody(d, body).2.rest + x, true)
  {
    hide LoadBody, Framed, IntactFrame;
    FramedIntact(body);
    FramedIntact(body + x);
    BodyThen(d, body, x);
  }

  // ---- the interventions a file holds --------------------------------------------------------

  /** The intervention table that a file makes a load install, if the load gets that far. */
  function StoredInterventions(file: seq<byte>): Option<map<int, Intervention>> {
    ContentsOf(file).interventions
  }

  /** What a saved file holds is what was saved, even when a later count makes a load fail. */
  lemma StoredBySave(epoch: nat, d: Durable)
    requires Representable(epoch, d) && |Save(epoch, d)| <= MAX_FILE
    requires |d.pol.objectives| <= MAX_OBJECTIVES && |d.interventions| <= MAX_INTERVENTIONS
    ensures StoredInterventions(Save(epoch, d)) == Some(AllRecovered(d.interventions))
  {
    hide Load, Save, ContentsOf, Marked, Inserted;
    var zero := Intervention(0, 0, NoAction, Proposed, UnknownCause, 0, NO_AUTHORITY, 0, 0, 0, Feasible, 0, 0, 0);
    var with, without := d.(interventions := map[0 := zero]), d.(interventions := map[]);
    SavedLoads(with, epoch, d);
    SavedLoads(without, epoch, d);
    LoadInstalls(with, Save(epoch, d));
    LoadInstalls(without, Save(epoch, d));
    assert 0 in with.interventions && 0 !in without.interventions;
  }
}
