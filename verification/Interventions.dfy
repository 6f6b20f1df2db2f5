/** The intervention lifecycle over whole runs: fencing, absorbing statuses, the outcome log,
    and the pace of authorisations. */
module Interventions {
  import opened Basics
  import opened Domain
  import opened Codecs
  import opened WindowRuns
  import opened Selection
  import opened StateFiles
  import opened FileContents
  import opened Transitions
  import opened WindowTraces
  import opened Evidence
  import opened BindingObjective

  /** The intervention a call authorises, if it does. */
  function AuthorizedBy(s: GovState, c: Call): Option<Intervention> {
    match c
    case AuthorizeCall(prop, now) =>
      (match Authorize(s, prop, now).1 case Ok(i) => Some(i) case Err(_) => None)
    case DecideCall(now) =>
      (match Decide(s, now).1 case Ok(d) => d.intervention case Err(_) => None)
    case _ => None
  }

  /** The call's effect on the intervention table, when it authorises at most: nothing, or
      one new entry together with its objective's time. */
  ghost predicate Records(s: GovState, t: GovState, made: Option<Intervention>, now: int) {
    match made
    case None => t.interventions == s.interventions && t.lastIntervention == s.lastIntervention
      && t.nextInt == s.nextInt
    case Some(i) =>
      && t.interventions == s.interventions[i.id := i] && t.lastIntervention == s.lastIntervention[i.objective := now]
      && s.nextInt <= t.nextInt <= s.nextInt + 1 && i.status == Authorized
      && i.authority.epoch == s.epoch
  }

  lemma AuthorizeRecords(s: GovState, prop: Intervention, now: int)
    ensures var (t, r) := Authorize(s, prop, now);
      && Records(s, t, match r case Ok(i) => Some(i) case Err(_) => None, now)
      && t.outcomes == s.outcomes && t.epoch == s.epoch
      && (r.Ok? ==> if prop.id == 0 then r.value.id == s.nextInt && t.nextInt == s.nextInt + 1
                    else r.value.id == prop.id && t.nextInt == s.nextInt)
      && (r.Ok? ==> r.value.objective == prop.objective && AuthorizeVerdict(s, prop, now) == Success)
  {
    hide InfeasibilityOf, FindObjective, CooldownActive;
  }

  lemma DecideOnRecords(s: GovState, evs: seq<Evaluation>, now: int)
    ensures var (t, d) := DecideOn(s, evs, now);
      && Records(s, t, d.intervention, now) && t.outcomes == s.outcomes && t.epoch == s.epoch
      && (d.intervention.Some? ==>
            && d.intervention.value.id == s.nextInt && t.nextInt == s.nextInt + 1
            && exists prop: Intervention ::
                 prop.objective == d.intervention.value.objective && AuthorizeVerdict(s, prop, now) == Success)
  {
    hide Authorize, AuthorizeVerdict, Binding, WithReason, LastDominantCause, FindObjective;
    match Binding(s.pol.objectives, evs)
    case None =>
    case Some(bind) =>
      AuthorizeRecords(s, Proposal(s, bind, now), now);
  }

  lemma DecideRecords(s: GovState, now: int)
    ensures var (t, r) := Decide(s, now);
      var made := AuthorizedBy(s, DecideCall(now));
      && Records(s, t, made, now) && t.outcomes == s.outcomes && t.epoch == s.epoch
      && (made.Some? ==>
            && made.value.id == s.nextInt && t.nextInt == s.nextInt + 1
            && exists prop: Intervention ::
                 prop.objective == made.value.objective && AuthorizeVerdict(s, prop, now) == Success)
  {
    hide DecideOn, EvaluateMany, At, RunOps, AuthorizeVerdict;
    if !s.shuttingDown {
      var (after, evs) := EvaluateAll(s, now);
      EvaluateManyAt(s, s.pol.objectives, now, WindowKey(0, 0));
      DecideOnRecords(after, evs, now);
      RecordsBefore(s, after, DecideOn(after, evs, now).0, DecideOn(after, evs, now).1.intervention, now);
      forall prop: Intervention ensures AuthorizeVerdict(after, prop, now) == AuthorizeVerdict(s, prop, now) {
        VerdictBefore(s, after, prop, now);
      }
    }
  }

  lemma RecordsBefore(s: GovState, mid: GovState, t: GovState, made: Option<Intervention>, now: int)
    requires SameFence(s, mid) && Records(mid, t, made, now)
    ensures Records(s, t, made, now)
  {
  }

  lemma VerdictBefore(s: GovState, mid: GovState, prop: Intervention, now: int)
    requires SameFence(s, mid)
    ensures AuthorizeVerdict(mid, prop, now) == AuthorizeVerdict(s, prop, now)
  {
    hide InfeasibilityOf, FindObjective;
  }

  /** Ingestion and evaluation leave the intervention tables alone. */
  lemma EvidenceKeepsTables(s: GovState, c: Call)
    requires c.IngestCall? || c.EvaluateCall? || c.EvaluateAllCall?
    ensures var t := Next(s, c);
      && t.interventions == s.interventions && t.lastIntervention == s.lastIntervention && t.nextInt == s.nextInt
      && t.outcomes == s.outcomes && t.epoch == s.epoch
  {
    hide Ingest, Evaluate, EvaluateMany, Decide, At, RunOps, SameFence;
    match c {
      case IngestCall(ev) => IngestKeepsTables(s, ev);
      case EvaluateCall(id, now) =>
        EvaluateAt(s, id, now, WindowKey(0, 0));
        FenceTables(s, Next(s, c));
      case EvaluateAllCall(now) =>
        EvaluateManyAt(s, s.pol.objectives, now, WindowKey(0, 0));
        FenceTables(s, Next(s, c));
    }
  }

  lemma FenceTables(s: GovState, t: GovState)
    requires SameFence(s, t)
    ensures t.interventions == s.interventions && t.lastIntervention == s.lastIntervention && t.nextInt == s.nextInt
    ensures t.outcomes == s.outcomes && t.epoch == s.epoch
  {
  }

  lemma IngestKeepsTables(s: GovState, ev: RequestLatency)
    ensures var t := Ingest(s, ev).0;
      && t.interventions == s.interventions && t.lastIntervention == s.lastIntervention && t.nextInt == s.nextInt
      && t.outcomes == s.outcomes && t.epoch == s.epoch
  {
    hide IngestInto, IngestVerdict, SampleOf, RunOps, At;
    VerdictMeans(s, ev);
    if IngestVerdict(s, ev) == Success {
      IngestIntoAt(s, s.pol.objectives, SampleOf(ev), WindowKey(0, 0));
    }
  }

  // ---- fencing ---------------------------------------------------------------------------

  /** An authority that no current authority can equal, now or later. */
  predicate Outdated(epoch: nat, a: Authority) {
    a.epoch < epoch || a.queueGeneration.None?
  }

  ghost predicate Fenced(s: GovState, id: int) {
    id in s.interventions ==> Outdated(s.epoch, s.interventions[id].authority)
  }

  /** Changing a status changes no authority. */
  ghost predicate SameAuthorities(s: GovState, t: GovState) {
    && t.epoch == s.epoch && t.lastIntervention == s.lastIntervention
    && t.interventions.Keys == s.interventions.Keys
    && forall id :: id in s.interventions ==> t.interventions[id].authority == s.interventions[id].authority
  }

  lemma StatusAuthorities(s: GovState, id: int, status: InterventionStatus)
    requires id in s.interventions
    ensures SameAuthorities(s, WithStatus(s, id, status)) && SameAuthorities(s, s)
  {
  }

  lemma LifecycleAuthorities(s: GovState, c: Call)
    requires c.DispatchCall? || c.AcknowledgeCall? || c.RecordOutcomeCall? || c.CancelCall? || c.SupersedeCall?
    ensures SameAuthorities(s, Next(s, c))
  {
    hide WithStatus, InfeasibilityOf, FindObjective, Same, CurrentAuthority;
    if c.id in s.interventions {
      forall status ensures SameAuthorities(s, WithStatus(s, c.id, status)) {
        StatusAuthorities(s, c.id, status);
      }
      if c.RecordOutcomeCall? {
        StatusAuthorities(s, c.id, StatusAfter(c.outcome, s.interventions[c.id].status));
      }
    }
  }

  ghost predicate WithoutAuthority(xs: seq<Intervention>) {
    forall i :: 0 <= i < |xs| ==> xs[i].authority == NO_AUTHORITY
  }

  /** Recovered interventions come back without authority. */
  lemma {:induction false} ReadWithoutAuthority(c: Cursor, n: nat, acc: seq<Intervention>)
    requires WithoutAuthority(acc)
    ensures WithoutAuthority(ReadMany(ReadIntervention, c, n, acc).0)
    decreases n
  {
    hide ReadIntervention;
    if n > 0 {
      var (x, next) := ReadIntervention(c);
      RecoveredHasNoAuthority(c);
      ReadWithoutAuthority(next, n - 1, acc + [x]);
      assert ReadMany(ReadIntervention, c, n, acc) == ReadMany(ReadIntervention, next, n - 1, acc + [x]);
    }
  }

  lemma RecoveredHasNoAuthority(c: Cursor)
    ensures ReadIntervention(c).0.authority == NO_AUTHORITY
  {
    hide Read, ReadCode, ReadTarget, ReadEstimate;
  }

  lemma {:induction false} InsertedAuthorities(xs: seq<Intervention>)
    requires WithoutAuthority(xs)
    ensures forall k :: k in Inserted(map[], Map(ById, xs)) ==>
      Inserted(map[], Map(ById, xs))[k].authority == NO_AUTHORITY
  {
    if xs != [] {
      InsertedAuthorities(xs[..|xs| - 1]);
      assert Map(ById, xs)[..|xs| - 1] == Map(ById, xs[..|xs| - 1]);
    }
  }

  lemma TableWithoutAuthority(c: Cursor)
    ensures var k := InterventionsIn(c);
      k.interventions.Some? ==> forall id :: id in k.interventions.value ==>
        k.interventions.value[id].authority == NO_AUTHORITY
  {
    hide Read, ReadMany, Inserted, OutcomesIn, WithoutAuthority;
    NoneWithout();
    var (n, c1) := Read(c, 4);
    if n <= MAX_INTERVENTIONS {
      ReadWithoutAuthority(c1, n, []);
      InsertedAuthorities(ReadMany(ReadIntervention, c1, n, []).0);
    }
  }

  lemma NoneWithout()
    ensures WithoutAuthority([])
  {
  }

  lemma BodyWithoutAuthority(body: seq<bv8>)
    ensures var k := BodyIn(body);
      k.interventions.Some? ==> forall id :: id in k.interventions.value ==>
        k.interventions.value[id].authority == NO_AUTHORITY
  {
    hide Read, ReadMany, InterventionsIn;
    var (n, c4) := Read(Read(Read(Read(Cursor(body, true), 8).1, 8).1, 8).1, 4);
    TableWithoutAuthority(ReadMany(ReadObjective, c4, n, []).1);
  }

  /** Nothing that a file holds carries any authority. */
  lemma StoredWithoutAuthority(file: seq<bv8>)
    ensures StoredInterventions(file).Some? ==>
      forall id :: id in StoredInterventions(file).value ==>
        StoredInterventions(file).value[id].authority == NO_AUTHORITY
  {
    hide BodyIn, IntactFrame;
    LongEnough(file);
    if IntactFrame(file) {
      BodyWithoutAuthority(file[20..]);
    }
  }

  /** A load keeps the intervention table or replaces it by one without authority. */
  lemma LoadRecovers(s: GovState, file: seq<bv8>)
    ensures var t := LoadFile(s, file).0;
      && t.epoch == s.epoch
      && (StoredInterventions(file).None? ==> t.interventions == s.interventions)
      && (StoredInterventions(file).Some? ==> forall id :: id in t.interventions ==>
        t.interventions[id].authority == NO_AUTHORITY)
    ensures LoadFile(s, file).1 == Success ==> StoredInterventions(file).Some?
  {
    hide Load, ContentsOf, Marked, Inserted;
    LoadInstalls(DurableOf(s), file);
    StoredWithoutAuthority(file);
  }

  /** Fencing lasts through every call that does not authorise the id anew. */
  lemma FencedStep(s: GovState, c: Call, id: int)
    requires Fenced(s, id)
    requires AuthorizedBy(s, c).Some? ==> AuthorizedBy(s, c).value.id != id
    ensures Fenced(Next(s, c), id)
  {
    hide Authorize, Dispatch, Acknowledge, RecordOutcome, Cancel, Supersede, Ingest, Evaluate, EvaluateAll, Decide,
      LoadFile, Marked;
    if c.AuthorizeCall? {
      AuthorizeRecords(s, c.prop, c.now);
    } else if c.DecideCall? {
      DecideRecords(s, c.now);
    } else if IsLifecycleCall(c) {
      LifecycleAuthorities(s, c);
    } else if IsEvidenceCall(c) {
      EvidenceKeepsTables(s, c);
    } else if c.LoadCall? {
      LoadRecovers(s, c.file);
    }
  }

  /** No call of the run authorises the id. */
  ghost predicate NeverAuthorized(s: GovState, calls: seq<Call>, id: int) {
    calls == [] ||
    var init, c := calls[..|calls| - 1], calls[|calls| - 1];
    && NeverAuthorized(s, init, id)
    && (AuthorizedBy(Run(s, init), c).Some? ==> AuthorizedBy(Run(s, init), c).value.id != id)
  }

  lemma OutdatedNeverDispatches(s: GovState, id: int)
    requires Fenced(s, id)
    ensures Dispatch(s, id).1.Err?
  {
    hide InfeasibilityOf, FindObjective;
  }

  lemma {:induction false} FencedRun(s: GovState, calls: seq<Call>, id: int)
    requires Fenced(s, id) && NeverAuthorized(s, calls, id)
    ensures Fenced(Run(s, calls), id) && Dispatch(Run(s, calls), id).1.Err?
    decreases |calls|
  {
    hide Next, Run, Dispatch, AuthorizedBy, Fenced;
    RunNone(s);
    if calls != [] {
      var init, c := calls[..|calls| - 1], calls[|calls| - 1];
      UnfoldRun(s, calls);
      FencedRun(s, init, id);
      FencedStep(Run(s, init), c, id);
    }
    OutdatedNeverDispatches(Run(s, calls), id);
  }

  ghost predicate EpochsBounded(s: GovState) {
    forall id :: id in s.interventions ==> s.interventions[id].authority.epoch <= s.epoch
  }

  lemma EpochsStep(s: GovState, c: Call)
    requires EpochsBounded(s)
    ensures EpochsBounded(Next(s, c))
  {
    hide Authorize, Dispatch, Acknowledge, RecordOutcome, Cancel, Supersede, Ingest, Evaluate, EvaluateAll, Decide,
      LoadFile, Marked;
    if c.AuthorizeCall? {
      AuthorizeRecords(s, c.prop, c.now);
    } else if c.DecideCall? {
      DecideRecords(s, c.now);
    } else if IsLifecycleCall(c) {
      LifecycleAuthorities(s, c);
    } else if IsEvidenceCall(c) {
      EvidenceKeepsTables(s, c);
    } else if c.LoadCall? {
      LoadRecovers(s, c.file);
    }
  }

  lemma {:induction false} EpochsRun(s: GovState, calls: seq<Call>)
    requires EpochsBounded(s)
    ensures EpochsBounded(Run(s, calls))
    decreases |calls|
  {
    hide Next, Run, EpochsBounded;
    RunNone(s);
    if calls != [] {
      UnfoldRun(s, calls);
      EpochsRun(s, calls[..|calls| - 1]);
      EpochsStep(Run(s, calls[..|calls| - 1]), calls[|calls| - 1]);
    }
  }

  lemma AdvanceFences(s: GovState, id: int)
    requires EpochsBounded(s)
    ensures Fenced(Next(s, AdvanceEpochCall), id)
  {
    hide Marked;
  }

  /** An intervention recorded before an advance of the epoch is never dispatched after it,
      however the run continues, unless it is authorised anew. */
  lemma FencedByAdvance(s: GovState, calls: seq<Call>, more: seq<Call>, id: int)
    requires EpochsBounded(s)
    requires NeverAuthorized(Next(Run(s, calls), AdvanceEpochCall), more, id)
    ensures Dispatch(Run(Next(Run(s, calls), AdvanceEpochCall), more), id).1.Err?
  {
    hide Next, Run, Dispatch, Fenced, EpochsBounded, NeverAuthorized;
    EpochsRun(s, calls);
    AdvanceFences(Run(s, calls), id);
    FencedRun(Next(Run(s, calls), AdvanceEpochCall), more, id);
  }

  /** An intervention recovered by a load is never dispatched, however the run continues, unless
      it is authorised anew. It takes no success: a load that is refused after it installed the
      file's interventions fences them too. */
  lemma FencedByLoad(s: GovState, file: seq<bv8>, more: seq<Call>, id: int)
    ensures StoredInterventions(file).Some? && NeverAuthorized(LoadFile(s, file).0, more, id) ==>
      Dispatch(Run(LoadFile(s, file).0, more), id).1.Err?
    ensures LoadFile(s, file).1 == Success ==> StoredInterventions(file).Some?
  {
    hide LoadFile, Run, Dispatch, NeverAuthorized, StoredInterventions;
    LoadRecovers(s, file);
    if StoredInterventions(file).Some? && NeverAuthorized(LoadFile(s, file).0, more, id) {
      FencedRun(LoadFile(s, file).0, more, id);
    }
  }

  /** A dispatch succeeds if and only if the intervention is authorised, its objective is
      still enabled, its authority is the current one and the facts still support it; then
      only its status changes. */
  lemma DispatchIsCurrent(s: GovState, id: int)
    ensures Dispatch(s, id).1.Ok? <==>
      && !s.shuttingDown && id in s.interventions && s.interventions[id].status == Authorized
      && var i, o := s.interventions[id], FindObjective(s.pol.objectives, s.interventions[id].objective);
        && o.Some? && o.value.enabled && i.authority == CurrentAuthority(s, o.value)
        && InfeasibilityOf(i.kind, s.facts) == Feasible
    ensures Dispatch(s, id).1.Ok? ==> Dispatch(s, id).0 == WithStatus(s, id, Dispatched)
  {
    hide InfeasibilityOf, FindObjective;
  }

  // ---- lifecycle ---------------------------------------------------------------------------

  /** The moves that a status may make. */
  predicate LegalMove(a: InterventionStatus, b: InterventionStatus) {
    || a == b
    || (&& !IsTerminal(a)
        && match b
           case Proposed => false
           case Authorized => false
           case Expired => false
           case UnlistedStatus(_) => false
           case Dispatched => a.Authorized?
           case Acknowledged => a.Dispatched?
           case Cancelled => a.Proposed? || a.Authorized? || a.Dispatched?
           case _ => true)
  }

  /** The status that an outcome stands for. */
  predicate Settles(outcome: PostOutcome, status: InterventionStatus) {
    && (status.Effective? <==> outcome.WasEffective?)
    && (status.Ineffective? <==> outcome.PartiallyEffective? || outcome.WasIneffective? || outcome.WorsenedTail?)
    && (status.Failed? <==> outcome.CreatedSecondaryViolation?)
    && (status.StatusUnknown? <==> outcome.InsufficientPostActionEvidence? || outcome.OutcomeUnknown?)
    && !outcome.UnlistedOutcome?
  }

  /** Ids below the next one, and an outcome log that agrees with the statuses. */
  ghost predicate Sane(s: GovState) {
    && s.nextInt >= 1
    && (forall id :: id in s.interventions ==> 0 < id < s.nextInt && s.interventions[id].id == id)
    && (forall id :: id in s.outcomes ==> id in s.interventions && Settles(s.outcomes[id], s.interventions[id].status))
  }

  /** The state's file is not refused before its interventions are installed. */
  predicate InstallsInterventions(t: GovState) {
    |SaveFile(t)| <= MAX_FILE && |t.pol.objectives| <= MAX_OBJECTIVES && |t.interventions| <= MAX_INTERVENTIONS
  }

  /** The file of a sane governor, with however many entries in its tables. */
  ghost predicate SavedBy(t: GovState, file: seq<bv8>) {
    Sane(t) && Representable(t.epoch, DurableOf(t)) && file == SaveFile(t)
  }

  /** Loading what t saves is refused before its interventions are installed, or gets as far as
      its next id, or leaves a next id that its interventions do not reach anyway. */
  predicate KeepsIdsBelow(s: GovState, t: GovState) {
    || !InstallsInterventions(t)
    || |t.reval| <= MAX_REVALIDATIONS
    || forall id :: id in t.interventions ==> id < s.nextInt
  }

  /** What a call needs in order to keep a sane state sane: an id chosen by the caller lies below
      the next one and has no outcome yet, an unlisted outcome finds nothing to settle, and a file
      fails the frame check or was saved by a sane governor and keeps the ids below the next one. */
  ghost predicate Proper(s: GovState, c: Call) {
    match c
    case AuthorizeCall(prop, now) =>
      prop.id != 0 && AuthorizeVerdict(s, prop, now) == Success ==> prop.id < s.nextInt && prop.id !in s.outcomes
    case RecordOutcomeCall(id, outcome) =>
      outcome.UnlistedOutcome? && id in s.interventions ==> IsTerminal(s.interventions[id].status)
    case LoadCall(file) => !IntactFrame(file) || exists t :: SavedBy(t, file) && KeepsIdsBelow(s, t)
    case _ => true
  }

  ghost predicate ProperAlong(s: GovState, calls: seq<Call>) {
    calls == [] || (ProperAlong(s, calls[..|calls| - 1]) && Proper(Run(s, calls[..|calls| - 1]), calls[|calls| - 1]))
  }

  lemma RecordedSaneIff(s: GovState, t: GovState, i: Intervention, now: int)
    requires Sane(s) && Records(s, t, Some(i), now) && t.outcomes == s.outcomes && i.id > 0
    ensures Sane(t) <==> i.id < t.nextInt && i.id !in s.outcomes
  {
    hide StatusAfter;
    if i.id in s.outcomes {
      assert !IsTerminal(t.interventions[i.id].status);
    }
  }

  lemma AuthorizedSaneIff(s: GovState, prop: Intervention, now: int)
    requires Sane(s)
    ensures Sane(Authorize(s, prop, now).0) <==> Proper(s, AuthorizeCall(prop, now))
  {
    hide Authorize, AuthorizeVerdict, StatusAfter;
    AuthorizeRecords(s, prop, now);
    AuthorizeEntry(s, prop, now);
    var (t, r) := Authorize(s, prop, now);
    if r.Ok? {
      assert prop.id == 0 ==> s.nextInt !in s.outcomes;
      RecordedSaneIff(s, t, r.value, now);
    } else {
      SameSanity(s, t);
    }
  }

  lemma OutcomeSaneIff(s: GovState, id: int, outcome: PostOutcome)
    requires Sane(s)
    ensures Sane(RecordOutcome(s, id, outcome).0) <==> Proper(s, RecordOutcomeCall(id, outcome))
  {
    hide Sane, Moved, StatusAfter;
    if Proper(s, RecordOutcomeCall(id, outcome)) {
      OutcomeMoved(s, id, outcome);
      MovedSane(s, RecordOutcome(s, id, outcome).0);
    } else {
      UnsettledOutcome(s, id, outcome);
    }
  }

  /** An unlisted outcome is logged for an intervention that goes on. */
  lemma UnsettledOutcome(s: GovState, id: int, outcome: PostOutcome)
    requires id in s.interventions && outcome.UnlistedOutcome? && !IsTerminal(s.interventions[id].status)
    ensures !Sane(RecordOutcome(s, id, outcome).0)
  {
    var t := RecordOutcome(s, id, outcome).0;
    assert id in t.outcomes && !IsTerminal(t.interventions[id].status);
  }

  /** A status moves legally and its intervention is otherwise untouched; the log gains at
      most the entry that made it terminal. */
  ghost predicate Moved(s: GovState, t: GovState) {
    && t.nextInt == s.nextInt
    && t.interventions.Keys == s.interventions.Keys
    && (forall id :: id in s.interventions ==>
          && t.interventions[id] == s.interventions[id].(status := t.interventions[id].status)
          && LegalMove(s.interventions[id].status, t.interventions[id].status))
    && (forall id :: id in t.outcomes ==>
          || (id in s.outcomes && t.outcomes[id] == s.outcomes[id])
          || (&& id in s.interventions && !t.outcomes[id].UnlistedOutcome?
              && t.interventions[id].status == StatusAfter(t.outcomes[id], s.interventions[id].status)))
  }

  lemma StatusStandsFor(outcome: PostOutcome, before: InterventionStatus)
    ensures outcome.UnlistedOutcome? ==> StatusAfter(outcome, before) == before
    ensures !outcome.UnlistedOutcome? ==> Settles(outcome, StatusAfter(outcome, before))
  {
  }

  lemma SettledStays(outcome: PostOutcome, a: InterventionStatus, b: InterventionStatus)
    requires Settles(outcome, a) && LegalMove(a, b)
    ensures a == b
  {
  }

  lemma MovedSane(s: GovState, t: GovState)
    requires Sane(s) && Moved(s, t)
    ensures Sane(t)
  {
    hide StatusAfter, Settles, LegalMove;
    forall id | id in t.outcomes
      ensures id in t.interventions && Settles(t.outcomes[id], t.interventions[id].status) {
      if id in s.outcomes && t.outcomes[id] == s.outcomes[id] {
        SettledStays(t.outcomes[id], s.interventions[id].status, t.interventions[id].status);
      } else {
        StatusStandsFor(t.outcomes[id], s.interventions[id].status);
      }
    }
  }

  lemma StatusMoved(s: GovState, id: int, status: InterventionStatus)
    requires id in s.interventions && LegalMove(s.interventions[id].status, status)
    ensures Moved(s, WithStatus(s, id, status))
  {
    hide StatusAfter;
  }

  lemma MovedSelf(s: GovState)
    ensures Moved(s, s)
  {
    hide StatusAfter;
  }

  lemma OutcomeLegal(a: InterventionStatus, outcome: PostOutcome)
    requires !IsTerminal(a) && !outcome.UnlistedOutcome?
    ensures LegalMove(a, StatusAfter(outcome, a)) && IsTerminal(StatusAfter(outcome, a))
    ensures forall b :: StatusAfter(outcome, b) == StatusAfter(outcome, a)
  {
  }

  lemma OutcomeMoved(s: GovState, id: int, outcome: PostOutcome)
    requires Proper(s, RecordOutcomeCall(id, outcome))
    ensures Moved(s, RecordOutcome(s, id, outcome).0)
  {
    hide WithStatus, StatusAfter, LegalMove, Moved;
    MovedSelf(s);
    if id in s.interventions && !IsTerminal(s.interventions[id].status) {
      OutcomeLegal(s.interventions[id].status, outcome);
      StatusMoved(s, id, StatusAfter(outcome, s.interventions[id].status));
      LoggedMoved(s, id, outcome);
    }
  }

  lemma LoggedMoved(s: GovState, id: int, outcome: PostOutcome)
    requires id in s.interventions && !outcome.UnlistedOutcome?
    requires Moved(s, WithStatus(s, id, StatusAfter(outcome, s.interventions[id].status)))
    ensures var t := WithStatus(s, id, StatusAfter(outcome, s.interventions[id].status));
      Moved(s, t.(outcomes := t.outcomes[id := outcome]))
  {
    hide LegalMove, StatusAfter;
  }

  lemma DispatchMoved(s: GovState, id: int)
    ensures Moved(s, Dispatch(s, id).0)
  {
    hide InfeasibilityOf, FindObjective, Same, CurrentAuthority, WithStatus, Moved;
    MovedSelf(s);
    if id in s.interventions && s.interventions[id].status == Authorized {
      StatusMoved(s, id, Failed);
      StatusMoved(s, id, Superseded);
      StatusMoved(s, id, Dispatched);
    }
  }

  /** Lifecycle calls move statuses only along the lifecycle. */
  lemma StatusesMoveLegally(s: GovState, c: Call)
    requires IsLifecycleCall(c) && !c.AuthorizeCall? && Proper(s, c)
    ensures Moved(s, Next(s, c))
  {
    hide Dispatch, RecordOutcome, WithStatus, Moved, Authorize;
    MovedSelf(s);
    match c {
      case AuthorizeCall(_, _) =>
      case DispatchCall(id) => DispatchMoved(s, id);
      case RecordOutcomeCall(id, outcome) => OutcomeMoved(s, id, outcome);
      case AcknowledgeCall(id) =>
        if id in s.interventions && s.interventions[id].status == Dispatched { StatusMoved(s, id, Acknowledged); }
      case CancelCall(id) =>
        if id in s.interventions && LegalMove(s.interventions[id].status, Cancelled) { StatusMoved(s, id, Cancelled); }
      case SupersedeCall(id) =>
        if id in s.interventions && !IsTerminal(s.interventions[id].status) { StatusMoved(s, id, Superseded); }
    }
  }

  /** A load of a saved state that brings its interventions along brings their outcomes too;
      only the flags that come after them can hold up the counters. */
  lemma TablesSane(s: GovState, before: Durable, t: GovState)
    requires Sane(t) && before.nextInt == s.nextInt >= 1 && |t.interventions| <= MAX_INTERVENTIONS
    ensures Sane(WithDurable(s, TablesLoaded(before, DurableOf(t)).0)) <==>
      |t.reval| <= MAX_REVALIDATIONS || forall id :: id in t.interventions ==> id < s.nextInt
  {
    hide StatusAfter;
    FewerOutcomes(t);
    var u := WithDurable(s, TablesLoaded(before, DurableOf(t)).0);
    assert u.interventions == AllRecovered(t.interventions) && u.outcomes == t.outcomes;
    assert u.interventions.Keys == t.interventions.Keys;
  }

  /** A sane log is no larger than the table. */
  lemma FewerOutcomes(t: GovState)
    requires Sane(t)
    ensures |t.outcomes| <= |t.interventions|
  {
    hide StatusAfter;
    forall id | id in t.outcomes.Keys ensures id in t.interventions.Keys {
      assert id in t.outcomes;
    }
    FewerKeys(t.outcomes, t.interventions);
  }

  /** Exactly which saved states keep the promises of the lifecycle when they are loaded. Once its
      interventions are installed, they need not have held before. */
  lemma LoadSaneIff(s: GovState, t: GovState)
    requires Sane(t) && Representable(t.epoch, DurableOf(t))
    requires s.nextInt >= 1 && (InstallsInterventions(t) || Sane(s))
    ensures Sane(LoadFile(s, SaveFile(t)).0) <==> KeepsIdsBelow(s, t)
  {
    hide Sane, Load, Save, Marked, TablesLoaded, Representable;
    SavedLoads(DurableOf(s), t.epoch, DurableOf(t));
    var before := DurableOf(s);
    if |SaveFile(t)| <= MAX_FILE && |t.pol.objectives| <= MAX_OBJECTIVES {
      before := before.(reval := Marked(before.reval, t.pol.objectives), pol := t.pol);
      if |t.interventions| <= MAX_INTERVENTIONS {
        TablesSane(s, before, t);
      } else {
        TooManyInstalled(before, DurableOf(t));
        SameSanity(s, WithDurable(s, before));
      }
    } else {
      SameDurable(s);
    }
  }

  lemma SanePositive(s: GovState)
    ensures Sane(s) ==> s.nextInt >= 1
  {
  }

  lemma TooManyInstalled(before: Durable, d: Durable)
    ensures |d.interventions| > MAX_INTERVENTIONS ==> TablesLoaded(before, d).0 == before
  {
  }

  lemma SameSanity(s: GovState, t: GovState)
    requires t.interventions == s.interventions && t.outcomes == s.outcomes && t.nextInt == s.nextInt
    ensures Sane(t) <==> Sane(s)
  {
  }

  /** Everything the lifecycle promises survives a save and a load: the same interventions,
      statuses, outcomes and counter. */
  lemma LoadOfSave(s: GovState, t: GovState)
    requires Representable(t.epoch, DurableOf(t)) && WithinLimits(DurableOf(t)) && |SaveFile(t)| <= MAX_FILE
    ensures var (u, status) := LoadFile(s, SaveFile(t));
      && status == Success && u == WithDurable(s, Restored(DurableOf(s), DurableOf(t)))
      && u.interventions.Keys == t.interventions.Keys && u.outcomes == t.outcomes && u.nextInt == t.nextInt
      && forall id :: id in t.interventions ==> u.interventions[id] == Recovered(t.interventions[id])
  {
    hide Load, Save, Marked;
    RoundTrip(DurableOf(s), t.epoch, DurableOf(t));
  }

  lemma LoadedSaneIff(s: GovState, file: seq<bv8>)
    requires Sane(s) && (IntactFrame(file) ==> exists t :: SavedBy(t, file))
    ensures Sane(LoadFile(s, file).0) <==> Proper(s, LoadCall(file))
  {
    hide Sane, SaveFile, LoadBody, Representable, IntactFrame, KeepsIdsBelow;
    if IntactFrame(file) {
      SanePositive(s);
      forall t | SavedBy(t, file) ensures Sane(LoadFile(s, file).0) <==> KeepsIdsBelow(s, t) {
        LoadSaneIff(s, t);
      }
    } else {
      assert LoadFile(s, file).0 == WithDurable(s, DurableOf(s));
      SameDurable(s);
    }
  }

  lemma SameDurable(s: GovState)
    ensures WithDurable(s, DurableOf(s)) == s
  {
  }

  /** Exactly which calls keep a sane state sane, for files that fail the frame check or that some
      sane governor saved. */
  lemma SaneStepIff(s: GovState, c: Call)
    requires Sane(s) && (c.LoadCall? && IntactFrame(c.file) ==> exists t :: SavedBy(t, c.file))
    ensures Sane(Next(s, c)) <==> Proper(s, c)
  {
    hide Authorize, Dispatch, Acknowledge, RecordOutcome, Cancel, Supersede, Ingest, Evaluate, EvaluateAll, Decide,
      LoadFile, Sane, SavedBy, KeepsIdsBelow, AuthorizeVerdict;
    match c {
      case AuthorizeCall(prop, now) => AuthorizedSaneIff(s, prop, now);
      case RecordOutcomeCall(id, outcome) => OutcomeSaneIff(s, id, outcome);
      case DecideCall(now) => DecidedSane(s, now);
      case LoadCall(file) => LoadedSaneIff(s, file);
      case _ => OthersKeepSane(s, c);
    }
  }

  lemma OthersKeepSane(s: GovState, c: Call)
    requires Sane(s) && !c.AuthorizeCall? && !c.RecordOutcomeCall? && !c.DecideCall? && !c.LoadCall?
    ensures Sane(Next(s, c))
  {
    hide Authorize, Dispatch, Acknowledge, RecordOutcome, Cancel, Supersede, Ingest, Evaluate, EvaluateAll, Decide,
      LoadFile, Marked, Sane, Moved;
    if IsLifecycleCall(c) {
      StatusesMoveLegally(s, c);
      MovedSane(s, Next(s, c));
    } else {
      if IsEvidenceCall(c) {
        EvidenceKeepsTables(s, c);
      }
      SameSanity(s, Next(s, c));
    }
  }

  lemma DecidedSane(s: GovState, now: int)
    requires Sane(s)
    ensures Sane(Decide(s, now).0)
  {
    hide Decide, AuthorizedBy, StatusAfter;
    DecideRecords(s, now);
    var made := AuthorizedBy(s, DecideCall(now));
    if made.Some? {
      assert s.nextInt !in s.outcomes;
      RecordedSaneIff(s, Decide(s, now).0, made.value, now);
    } else {
      SameSanity(s, Decide(s, now).0);
    }
  }

  /** A proper call other than a load moves statuses only along the lifecycle, but for the
      intervention that it authorises. */
  lemma ProperMoves(s: GovState, c: Call, id: int)
    requires Proper(s, c) && !c.LoadCall? && id in s.interventions
    requires AuthorizedBy(s, c).Some? ==> AuthorizedBy(s, c).value.id != id
    ensures id in Next(s, c).interventions
    ensures LegalMove(s.interventions[id].status, Next(s, c).interventions[id].status)
  {
    hide Authorize, Dispatch, Acknowledge, RecordOutcome, Cancel, Supersede, Ingest, Evaluate, EvaluateAll, Decide,
      Marked, StatusAfter, AuthorizeVerdict;
    if c.AuthorizeCall? {
      AuthorizeRecords(s, c.prop, c.now);
    } else if c.DecideCall? {
      DecideRecords(s, c.now);
    } else if IsLifecycleCall(c) {
      StatusesMoveLegally(s, c);
    } else if IsEvidenceCall(c) {
      EvidenceKeepsTables(s, c);
    }
  }

  /** In every run of proper calls: all ids stay below the next one, and every entry of the outcome
      log agrees with the terminal status of its intervention, across saves and loads too. */
  lemma {:induction false} SaneInRuns(s: GovState, calls: seq<Call>)
    requires Sane(s) && ProperAlong(s, calls)
    ensures Sane(Run(s, calls))
    decreases |calls|
  {
    hide Next, Run, Sane, Proper;
    RunNone(s);
    if calls != [] {
      var init, c := calls[..|calls| - 1], calls[|calls| - 1];
      UnfoldRun(s, calls);
      SaneInRuns(s, init);
      ProperLoadSaved(Run(s, init), c);
      SaneStepIff(Run(s, init), c);
    }
  }

  lemma ProperLoadSaved(s: GovState, c: Call)
    requires Proper(s, c)
    ensures c.LoadCall? && IntactFrame(c.file) ==> exists t :: SavedBy(t, c.file)
  {
    hide SavedBy, IntactFrame, KeepsIdsBelow, AuthorizeVerdict;
  }

  /** ... and so in every such run of a new governor, whose records are never from a future
      epoch in any run. */
  lemma SaneFromStart(cfg: Config, epoch: nat, calls: seq<Call>)
    ensures EpochsBounded(Run(InitialState(cfg, epoch), calls))
    ensures ProperAlong(InitialState(cfg, epoch), calls) ==> Sane(Run(InitialState(cfg, epoch), calls))
  {
    hide Run, ProperAlong;
    EpochsRun(InitialState(cfg, epoch), calls);
    if ProperAlong(InitialState(cfg, epoch), calls) {
      SaneInRuns(InitialState(cfg, epoch), calls);
    }
  }

  lemma OtherStatusKept(s: GovState, at: int, status: InterventionStatus, id: int)
    requires at in s.interventions && id in s.interventions && at != id
    ensures id in WithStatus(s, at, status).interventions
      && WithStatus(s, at, status).interventions[id] == s.interventions[id]
  {
  }

  lemma LifecycleKeepsTerminal(s: GovState, c: Call, id: int)
    requires c.DispatchCall? || c.AcknowledgeCall? || c.RecordOutcomeCall? || c.CancelCall? || c.SupersedeCall?
    requires id in s.interventions && IsTerminal(s.interventions[id].status)
    ensures id in Next(s, c).interventions && Next(s, c).interventions[id] == s.interventions[id]
  {
    hide WithStatus, InfeasibilityOf, FindObjective, Same, CurrentAuthority, StatusAfter;
    if c.id in s.interventions && c.id != id {
      forall status ensures id in WithStatus(s, c.id, status).interventions
        && WithStatus(s, c.id, status).interventions[id] == s.interventions[id] {
        OtherStatusKept(s, c.id, status, id);
      }
      if c.RecordOutcomeCall? {
        OtherStatusKept(s, c.id, StatusAfter(c.outcome, s.interventions[c.id].status), id);
      }
    }
  }

  /** The intervention has the status it had. */
  predicate StatusKept(s: GovState, t: GovState, id: int)
    requires id in s.interventions
  {
    id in t.interventions && t.interventions[id].status == s.interventions[id].status
  }

  /** The call is no load, or a load of a file that holds the intervention in that status or
      installs no interventions at all. */
  predicate LoadKeeps(c: Call, id: int, status: InterventionStatus) {
    c.LoadCall? ==>
      match StoredInterventions(c.file)
      case None => true
      case Some(m) => id in m && m[id].status == status
  }

  /** A decision taken now finds a binding objective with an intervention to take and no
      cooldown in its way. */
  predicate DecisionActs(s: GovState, now: int) {
    !s.shuttingDown &&
    var bind := Binding(s.pol.objectives, EvaluateAll(s, now).1);
    bind.Some? && bind.value.selected != NoAction &&
    var o := FindObjective(s.pol.objectives, bind.value.objective);
    o.Some? && !CooldownActive(s, o.value, now)
  }

  /** The calls that write over an intervention: an authorisation that succeeds and is given
      its id, a decision that acts when it is the next id, and a load of a file without it or
      with another status. */
  predicate Overwrites(s: GovState, c: Call, id: int)
    requires id in s.interventions
  {
    match c
    case AuthorizeCall(prop, now) =>
      AuthorizeVerdict(s, prop, now) == Success && id == (if prop.id == 0 then s.nextInt else prop.id)
    case DecideCall(now) => id == s.nextInt && DecisionActs(s, now)
    case LoadCall(_) => !LoadKeeps(c, id, s.interventions[id].status)
    case _ => false
  }

  lemma AuthorizeEntry(s: GovState, prop: Intervention, now: int)
    ensures var (t, r) := Authorize(s, prop, now);
      && (r.Ok? <==> AuthorizeVerdict(s, prop, now) == Success)
      && (r.Err? ==> t.interventions == s.interventions)
      && (r.Ok? ==> r.value.status == Authorized && r.value.id == (if prop.id == 0 then s.nextInt else prop.id)
                    && t.interventions == s.interventions[r.value.id := r.value])
  {
    hide AuthorizeVerdict;
  }

  lemma AuthorizeOverwritesIff(s: GovState, prop: Intervention, now: int, id: int)
    requires id in s.interventions && IsTerminal(s.interventions[id].status)
    ensures StatusKept(s, Authorize(s, prop, now).0, id) <==> !Overwrites(s, AuthorizeCall(prop, now), id)
  {
    hide Authorize, AuthorizeVerdict;
    AuthorizeEntry(s, prop, now);
  }

  lemma DecisionActsIff(s: GovState, now: int)
    ensures AuthorizedBy(s, DecideCall(now)).Some? <==> DecisionActs(s, now)
  {
    hide EvaluateMany, Binding, At, RunOps, WithReason, Authorize, Proposal;
    if !s.shuttingDown {
      OnlyCooldownStopsDecision(s, now);
      EvaluateManyAt(s, s.pol.objectives, now, WindowKey(0, 0));
    }
  }

  lemma DecideOverwritesIff(s: GovState, now: int, id: int)
    requires id in s.interventions && IsTerminal(s.interventions[id].status)
    ensures StatusKept(s, Decide(s, now).0, id) <==> !Overwrites(s, DecideCall(now), id)
  {
    hide Decide, DecisionActs, AuthorizedBy;
    DecideRecords(s, now);
    DecisionActsIff(s, now);
  }

  lemma LoadOverwritesIff(s: GovState, file: seq<bv8>, id: int)
    requires id in s.interventions
    ensures StatusKept(s, LoadFile(s, file).0, id) <==> !Overwrites(s, LoadCall(file), id)
  {
    hide Load, ContentsOf, Marked, Inserted;
    LoadInstalls(DurableOf(s), file);
  }

  /** Whatever ids callers choose and whatever files they load, a call changes a terminal status
      if and only if it writes over that very intervention. */
  lemma TerminalChangesIff(s: GovState, c: Call, id: int)
    requires id in s.interventions && IsTerminal(s.interventions[id].status)
    ensures !StatusKept(s, Next(s, c), id) <==> Overwrites(s, c, id)
  {
    hide Authorize, Dispatch, Acknowledge, RecordOutcome, Cancel, Supersede, Ingest, Evaluate, EvaluateAll, Decide,
      LoadFile, Marked, Overwrites;
    KindsThatOverwrite(s, c, id);
    if c.AuthorizeCall? {
      AuthorizeOverwritesIff(s, c.prop, c.now, id);
    } else if c.DecideCall? {
      DecideOverwritesIff(s, c.now, id);
    } else if IsLifecycleCall(c) {
      LifecycleKeepsTerminal(s, c, id);
    } else if IsEvidenceCall(c) {
      EvidenceKeepsTables(s, c);
    } else if c.LoadCall? {
      LoadOverwritesIff(s, c.file, id);
    }
  }

  lemma KindsThatOverwrite(s: GovState, c: Call, id: int)
    requires id in s.interventions
    ensures Overwrites(s, c, id) ==> c.AuthorizeCall? || c.DecideCall? || c.LoadCall?
  {
    hide AuthorizeVerdict, DecisionActs, LoadKeeps;
  }

  /** For the file of a saved state, be the load accepted or refused once the interventions are
      installed: it changes the status exactly when the saved state has no such intervention or has
      it in another status. */
  lemma LoadOfSaveKeepsIff(s: GovState, t: GovState, id: int)
    requires id in s.interventions && Representable(t.epoch, DurableOf(t)) && InstallsInterventions(t)
    ensures StatusKept(s, Next(s, LoadCall(SaveFile(t))), id) <==>
      id in t.interventions && t.interventions[id].status == s.interventions[id].status
  {
    hide Save, Load, StoredInterventions, Representable;
    StoredBySave(t.epoch, DurableOf(t));
    LoadOverwritesIff(s, SaveFile(t), id);
  }

  /** Every file that is loaded on the way holds the intervention in that status or installs no
      interventions, and no caller asks for its id. */
  ghost predicate Respected(calls: seq<Call>, id: int, status: InterventionStatus) {
    forall i :: 0 <= i < |calls| ==> LoadKeeps(calls[i], id, status) && !Claims(calls[i], id)
  }

  predicate Claims(c: Call, id: int) {
    c.AuthorizeCall? && c.prop.id != 0 && c.prop.id == id
  }

  /** In runs of proper calls a terminal status is absorbing, as long as every file that is loaded
      on the way holds it too and no caller asks for the intervention's id again. */
  lemma {:induction false} TerminalAbsorbs(s: GovState, calls: seq<Call>, id: int)
    requires Sane(s) && id in s.interventions && IsTerminal(s.interventions[id].status)
    requires ProperAlong(s, calls) && Respected(calls, id, s.interventions[id].status)
    ensures StatusKept(s, Run(s, calls), id)
    decreases |calls|
  {
    hide Next, Run, Sane, Proper, LoadKeeps;
    RunNone(s);
    if calls != [] {
      var init, c := calls[..|calls| - 1], calls[|calls| - 1];
      UnfoldRun(s, calls);
      assert LoadKeeps(c, id, s.interventions[id].status) && !Claims(c, id);
      TerminalAbsorbs(s, init, id);
      SaneInRuns(s, init);
      AbsorbStep(Run(s, init), c, id);
    }
  }

  lemma AbsorbStep(s: GovState, c: Call, id: int)
    requires Sane(s) && id in s.interventions && IsTerminal(s.interventions[id].status)
    requires LoadKeeps(c, id, s.interventions[id].status) && !Claims(c, id)
    ensures StatusKept(s, Next(s, c), id)
  {
    hide Next, StoredInterventions, AuthorizeVerdict, DecisionActs, StatusAfter;
    TerminalChangesIff(s, c, id);
  }

  // ---- cooldown ------------------------------------------------------------------------------

  /** The time of the authorisation that a call makes for an objective. */
  function AuthorizedAt(s: GovState, c: Call, objective: nat): seq<int> {
    var made := AuthorizedBy(s, c);
    if made.Some? && made.value.objective == objective then
      (match c case AuthorizeCall(_, now) => [now] case DecideCall(now) => [now] case _ => [])
    else []
  }

  function AuthTimes(s: GovState, calls: seq<Call>, objective: nat): seq<int> {
    if calls == [] then []
    else
      var init, c := calls[..|calls| - 1], calls[|calls| - 1];
      AuthTimes(s, init, objective) + AuthorizedAt(Run(s, init), c, objective)
  }

  ghost predicate CooldownIs(s: GovState, objective: nat, cooldown: int) {
    FindObjective(s.pol.objectives, objective).Some? ==>
      FindObjective(s.pol.objectives, objective).value.coolDown == cooldown
  }

  ghost predicate CooldownAlong(s: GovState, calls: seq<Call>, objective: nat, cooldown: int) {
    && CooldownIs(Run(s, calls), objective, cooldown)
    && (calls != [] ==> CooldownAlong(s, calls[..|calls| - 1], objective, cooldown))
  }

  predicate Spaced(ts: seq<int>, gap: int) {
    forall i, j :: 0 <= i < j < |ts| ==> ts[j] - ts[i] >= gap
  }

  /** The table of last authorisations agrees with the times so far. */
  ghost predicate LastIs(s: GovState, objective: nat, ts: seq<int>) {
    if ts == [] then objective !in s.lastIntervention
    else objective in s.lastIntervention && s.lastIntervention[objective] == ts[|ts| - 1]
  }

  lemma VerdictRespectsCooldown(s: GovState, prop: Intervention, now: int, cooldown: int)
    requires AuthorizeVerdict(s, prop, now) == Success && CooldownIs(s, prop.objective, cooldown) && cooldown > 0
    ensures prop.objective in s.lastIntervention ==> now - s.lastIntervention[prop.objective] >= cooldown
  {
    hide InfeasibilityOf, FindObjective, Same;
  }

  lemma TimesStep(s: GovState, c: Call, objective: nat, cooldown: int, ts: seq<int>)
    requires LastIs(s, objective, ts) && CooldownIs(s, objective, cooldown) && cooldown > 0
    ensures var at := AuthorizedAt(s, c, objective);
      && LastIs(Next(s, c), objective, ts + at) && |at| <= 1
      && (at != [] && ts != [] ==> at[0] - ts[|ts| - 1] >= cooldown)
  {
    hide Authorize, Dispatch, Acknowledge, RecordOutcome, Cancel, Supersede, Ingest, Evaluate, EvaluateAll, Decide,
      LoadFile, Marked, AuthorizeVerdict, CooldownIs;
    assert ts + [] == ts;
    if c.AuthorizeCall? {
      AuthorizeRecords(s, c.prop, c.now);
      if AuthorizedAt(s, c, objective) != [] {
        VerdictRespectsCooldown(s, c.prop, c.now, cooldown);
      }
    } else if c.DecideCall? {
      DecideRecords(s, c.now);
      if AuthorizedAt(s, c, objective) != [] {
        var prop: Intervention :| prop.objective == AuthorizedBy(s, c).value.objective
          && AuthorizeVerdict(s, prop, c.now) == Success;
        VerdictRespectsCooldown(s, prop, c.now, cooldown);
      }
    } else if IsLifecycleCall(c) {
      LifecycleAuthorities(s, c);
    } else if IsEvidenceCall(c) {
      EvidenceKeepsTables(s, c);
    } else if c.LoadCall? {
      LoadKeepsTimes(s, c.file);
    }
  }

  lemma LoadKeepsTimes(s: GovState, file: seq<bv8>)
    ensures var t := LoadFile(s, file).0;
      t.lastIntervention == s.lastIntervention && t.shuttingDown == s.shuttingDown
  {
    hide Load;
  }

  lemma SpacedMore(ts: seq<int>, at: seq<int>, gap: int)
    requires Spaced(ts, gap) && gap > 0 && |at| <= 1 && (at != [] && ts != [] ==> at[0] - ts[|ts| - 1] >= gap)
    ensures Spaced(ts + at, gap)
  {
    var all := ts + at;
    forall i, j | 0 <= i < j < |all| ensures all[j] - all[i] >= gap {
      if j == |ts| && i < |ts| - 1 {
        assert ts[|ts| - 1] - ts[i] >= gap;
      }
    }
  }

  lemma {:induction false} AuthorizationsSpaced(s: GovState, calls: seq<Call>, objective: nat, cooldown: int)
    requires objective !in s.lastIntervention && cooldown > 0 && CooldownAlong(s, calls, objective, cooldown)
    ensures Spaced(AuthTimes(s, calls, objective), cooldown)
    ensures LastIs(Run(s, calls), objective, AuthTimes(s, calls, objective))
    decreases |calls|
  {
    hide Next, Run, AuthorizedAt, LastIs, CooldownIs, Spaced;
    RunNone(s);
    EmptyTimes(s, objective, cooldown);
    if calls != [] {
      var init, c := calls[..|calls| - 1], calls[|calls| - 1];
      UnfoldRun(s, calls);
      AuthorizationsSpaced(s, init, objective, cooldown);
      TimesStep(Run(s, init), c, objective, cooldown, AuthTimes(s, init, objective));
      SpacedMore(AuthTimes(s, init, objective), AuthorizedAt(Run(s, init), c, objective), cooldown);
    }
  }

  lemma EmptyTimes(s: GovState, objective: nat, gap: int)
    requires objective !in s.lastIntervention
    ensures LastIs(s, objective, []) && Spaced([], gap)
  {
  }

  function Within(start: int, to: int): int -> bool {
    (t: int) => start <= t <= to
  }

  lemma {:induction false} FilterSpaced(keep: int -> bool, ts: seq<int>, gap: int)
    requires Spaced(ts, gap)
    ensures Spaced(Filter(keep, ts), gap)
  {
    if ts != [] {
      var rest := Filter(keep, ts[1..]);
      FilterSpaced(keep, ts[1..], gap);
      FilterMembers(keep, ts[1..]);
      forall j | 0 <= j < |rest| ensures rest[j] - ts[0] >= gap {
        assert rest[j] in rest;
        var i :| 0 <= i < |ts[1..]| && ts[1..][i] == rest[j];
      }
    }
  }

  lemma {:induction false} SpacedSpan(ts: seq<int>, gap: int)
    requires Spaced(ts, gap) && ts != []
    ensures (|ts| - 1) * gap <= ts[|ts| - 1] - ts[0]
  {
    if |ts| > 1 {
      SpacedSpan(ts[1..], gap);
      assert (|ts| - 1) * gap == (|ts| - 2) * gap + gap;
    }
  }

  lemma SpacedCount(ts: seq<int>, gap: int, start: int, length: nat)
    requires Spaced(ts, gap) && gap > 0
    ensures |Filter(Within(start, start + length), ts)| <= length / gap + 1
  {
    var inside := Filter(Within(start, start + length), ts);
    FilterSpaced(Within(start, start + length), ts, gap);
    FilterMembers(Within(start, start + length), ts);
    if inside != [] {
      SpacedSpan(inside, gap);
      assert inside[0] in inside && inside[|inside| - 1] in inside;
      DivBounds(length, gap);
      Quotients(|inside| - 1, length / gap, gap);
    }
  }

  /** The cooldown bounds the pace: with a fixed positive cooldown C, no time interval of
      length T holds more than T/C + 1 successful authorisations for one objective, whether
      they were requested or decided, and whatever else happened. */
  lemma AuthorizationRate(s: GovState, calls: seq<Call>, objective: nat, cooldown: int, start: int, length: nat)
    requires objective !in s.lastIntervention && cooldown > 0 && CooldownAlong(s, calls, objective, cooldown)
    ensures |Filter(Within(start, start + length), AuthTimes(s, calls, objective))| <= length / cooldown + 1
  {
    hide AuthTimes, CooldownAlong, Spaced, LastIs;
    AuthorizationsSpaced(s, calls, objective, cooldown);
    SpacedCount(AuthTimes(s, calls, objective), cooldown, start, length);
  }
}
