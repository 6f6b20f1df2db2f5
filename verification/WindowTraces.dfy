/** Which window operations a run of the governor performs on each of its windows. Every
    window of a governor is the window that these operations produce, so what holds of
    window runs holds inside the governor. */
module WindowTraces {
  import opened Basics
  import opened Domain
  import opened Windows
  import opened WindowRuns
  import opened Selection
  import opened StateFiles
  import opened Transitions

  function Repeat(op: WindowOp, n: nat): (r: seq<WindowOp>)
    ensures |r| == n && forall i :: 0 <= i < n ==> r[i] == op
  {
    seq(n, i => op)
  }

  /** How often ingesting a sample inserts it into a window. */
  function Hits(objectives: seq<Objective>, key: WindowKey, sample: TailSample): nat {
    if objectives == [] then 0
    else
      var o := objectives[|objectives| - 1];
      Hits(objectives[..|objectives| - 1], key, sample)
      + (if o.enabled && o.id == key.objective
        && (key.requestClass == 0 || key.requestClass == sample.requestClass) then 1 else 0)
  }

  /** The objective an evaluation by id judges, if it gets that far. */
  function Evaluated(s: GovState, id: nat): Option<Objective> {
    var found := FindObjective(s.pol.objectives, id);
    if s.shuttingDown || found.None? || !found.value.enabled then None else found
  }

  function SortsFor(s: GovState, id: nat, key: WindowKey): nat {
    var o := Evaluated(s, id);
    if o.Some? && key == WindowKey(o.value.id, o.value.Scope()) then 1 else 0
  }

  function Sorts(s: GovState, objectives: seq<Objective>, key: WindowKey): nat {
    if objectives == [] then 0
    else
      var o := objectives[|objectives| - 1];
      Sorts(s, objectives[..|objectives| - 1], key) + (if o.enabled then SortsFor(s, o.id, key) else 0)
  }

  function WindowOps(s: GovState, c: Call, key: WindowKey): seq<WindowOp> {
    match c
    case IngestCall(ev) =>
      if IngestVerdict(s, ev) == Success then Repeat(InsertOp(SampleOf(ev)), Hits(s.pol.objectives, key, SampleOf(ev)))
      else []
    case EvaluateCall(id, now) => Repeat(SortedOp(now), SortsFor(s, id, key))
    case EvaluateAllCall(now) => Repeat(SortedOp(now), Sorts(s, s.pol.objectives, key))
    case DecideCall(now) => Repeat(SortedOp(now), Sorts(s, s.pol.objectives, key))
    case _ => []
  }

  /** All operations on a window since the last advance of the epoch. */
  function Trace(s: GovState, calls: seq<Call>, key: WindowKey): seq<WindowOp> {
    if calls == [] then []
    else
      var init, c := calls[..|calls| - 1], calls[|calls| - 1];
      if c.AdvanceEpochCall? then [] else Trace(s, init, key) + WindowOps(Run(s, init), c, key)
  }

  function At(s: GovState, key: WindowKey): Window {
    EnsuredWindow(s, key.objective, key.requestClass)
  }

  // ---- one call --------------------------------------------------------------------------

  lemma {:induction false} RunOpsAppend(w: Window, a: seq<WindowOp>, b: seq<WindowOp>)
    ensures RunOps(w, a + b) == RunOps(RunOps(w, a), b)
    decreases |b|
  {
    if b == [] {
      assert a + b == a;
    } else {
      assert (a + b)[..|a + b| - 1] == a + b[..|b| - 1];
      RunOpsAppend(w, a, b[..|b| - 1]);
    }
  }

  lemma RepeatMore(w: Window, op: WindowOp, n: nat)
    ensures RunOps(w, Repeat(op, n + 1)) == Apply(RunOps(w, Repeat(op, n)), op)
    ensures RunOps(w, Repeat(op, 0)) == w
  {
    assert Repeat(op, n + 1)[..n] == Repeat(op, n);
  }

  lemma InsertAtAt(s: GovState, objective: nat, requestClass: nat, sample: TailSample, key: WindowKey)
    ensures var next := InsertAt(s, objective, requestClass, sample);
      && At(next, key)
        == (if key == WindowKey(objective, requestClass) then InsertSample(At(s, key), sample) else At(s, key))
      && (key in next.windows <==> key in s.windows || key == WindowKey(objective, requestClass))
      && next == s.(windows := next.windows)
  {
    hide InsertSample, WindowConfigFor;
  }

  ghost predicate IngestOnly(s: GovState, t: GovState) {
    t == s.(windows := t.windows, reval := t.reval)
  }

  lemma IngestOneAt(s: GovState, o: Objective, sample: TailSample, key: WindowKey)
    ensures var hit := o.enabled && o.id == key.objective
      && (key.requestClass == 0 || key.requestClass == sample.requestClass);
      var next := IngestOne(s, o, sample);
      && At(next, key) == (if hit then InsertSample(At(s, key), sample) else At(s, key))
      && (key in next.windows <==> key in s.windows || hit)
      && IngestOnly(s, next)
  {
    hide InsertAt, InsertSample, WindowConfigFor;
    if o.enabled {
      var s1 := InsertAt(s, o.id, 0, sample);
      InsertAtAt(s, o.id, 0, sample, key);
      InsertAtAt(s1, o.id, sample.requestClass, sample, key);
    }
  }

  lemma {:induction false} IngestIntoAt(s: GovState, objectives: seq<Objective>, sample: TailSample, key: WindowKey)
    ensures var next := IngestInto(s, objectives, sample);
      && At(next, key) == RunOps(At(s, key), Repeat(InsertOp(sample), Hits(objectives, key, sample)))
      && (key in next.windows <==> key in s.windows || Hits(objectives, key, sample) > 0)
      && IngestOnly(s, next)
  {
    hide IngestOne, At, RunOps;
    if objectives == [] {
      RepeatMore(At(s, key), InsertOp(sample), 0);
    } else {
      var init, o := objectives[..|objectives| - 1], objectives[|objectives| - 1];
      IngestIntoAt(s, init, sample, key);
      IngestOneAt(IngestInto(s, init, sample), o, sample, key);
      RepeatMore(At(s, key), InsertOp(sample), Hits(init, key, sample));
    }
  }

  /** An evaluation leaves the policy, the epoch, the identities, the evidence log and the
      interventions alone. */
  ghost predicate SameFence(s: GovState, t: GovState) {
    t == s.(windows := t.windows, reval := t.reval, lastState := t.lastState, streak := t.streak,
            evaluations := t.evaluations, nextEval := t.nextEval)
  }

  lemma EvaluateObjectiveAt(s: GovState, o: Objective, now: int, key: WindowKey)
    ensures var next := EvaluateObjective(s, o, now).0;
      && At(next, key) == (if key == WindowKey(o.id, o.Scope()) then SortWindow(At(s, key), now) else At(s, key))
      && (key in next.windows <==> key in s.windows || key == WindowKey(o.id, o.Scope()))
      && SameFence(s, next)
  {
    hide Assess, StateOf, SufficiencyOf, SortWindow, WindowConfigFor;
  }

  lemma EvaluateAt(s: GovState, id: nat, now: int, key: WindowKey)
    ensures var next := Evaluate(s, id, now).0;
      && At(next, key) == RunOps(At(s, key), Repeat(SortedOp(now), SortsFor(s, id, key)))
      && (key in next.windows <==> key in s.windows || SortsFor(s, id, key) > 0)
      && SameFence(s, next)
  {
    hide EvaluateObjective, SortWindow, RunOps, At;
    RepeatMore(At(s, key), SortedOp(now), 0);
    if Evaluated(s, id).Some? {
      EvaluateObjectiveAt(s, Evaluated(s, id).value, now, key);
    }
  }

  lemma SortsForSame(s: GovState, t: GovState, id: nat, key: WindowKey)
    requires SameFence(s, t)
    ensures SortsFor(t, id, key) == SortsFor(s, id, key)
  {
  }

  lemma {:induction false} EvaluateManyAt(s: GovState, objectives: seq<Objective>, now: int, key: WindowKey)
    ensures var next := EvaluateMany(s, objectives, now).0;
      && At(next, key) == RunOps(At(s, key), Repeat(SortedOp(now), Sorts(s, objectives, key)))
      && (key in next.windows <==> key in s.windows || Sorts(s, objectives, key) > 0)
      && SameFence(s, next)
  {
    hide Evaluate, SortsFor, At, RunOps;
    RepeatMore(At(s, key), SortedOp(now), 0);
    if objectives != [] {
      var init, o := objectives[..|objectives| - 1], objectives[|objectives| - 1];
      EvaluateManyAt(s, init, now, key);
      if o.enabled {
        var mid := EvaluateMany(s, init, now).0;
        EvaluateAt(mid, o.id, now, key);
        SortsForSame(s, mid, o.id, key);
        SortsAtMostOne(s, o.id, key);
        RepeatMore(At(mid, key), SortedOp(now), 0);
        RepeatMore(At(s, key), SortedOp(now), Sorts(s, init, key));
        FenceChain(s, mid, Evaluate(mid, o.id, now).0);
      }
    }
  }

  lemma SortsAtMostOne(s: GovState, id: nat, key: WindowKey)
    ensures SortsFor(s, id, key) <= 1
  {
  }

  lemma FenceChain(s: GovState, t: GovState, u: GovState)
    requires SameFence(s, t) && SameFence(t, u)
    ensures SameFence(s, u)
  {
  }

  lemma AuthorizeKeeps(s: GovState, prop: Intervention, now: int)
    ensures var next := Authorize(s, prop, now).0;
      next == s.(nextInt := next.nextInt, interventions := next.interventions,
        lastIntervention := next.lastIntervention)
  {
  }

  lemma DecideOnKeeps(s: GovState, evs: seq<Evaluation>, now: int)
    ensures var next := DecideOn(s, evs, now).0;
      next == s.(nextInt := next.nextInt, interventions := next.interventions,
        lastIntervention := next.lastIntervention)
  {
    hide Authorize, Binding, Proposal, WithReason;
    match Binding(s.pol.objectives, evs)
    case None =>
    case Some(bind) => AuthorizeKeeps(s, Proposal(s, bind, now), now);
  }

  lemma DecideAt(s: GovState, now: int, key: WindowKey)
    ensures var next := Decide(s, now).0;
      && At(next, key) == RunOps(At(s, key), Repeat(SortedOp(now), Sorts(s, s.pol.objectives, key)))
      && (key in next.windows <==> key in s.windows || Sorts(s, s.pol.objectives, key) > 0)
  {
    hide DecideOn, EvaluateMany;
    EvaluateManyAt(s, s.pol.objectives, now, key);
    var (after, evs) := EvaluateAll(s, now);
    DecideOnKeeps(after, evs, now);
    if s.shuttingDown {
      NoSorts(s, s.pol.objectives, key);
      RepeatMore(At(s, key), SortedOp(now), 0);
    }
  }

  lemma {:induction false} NoSorts(s: GovState, objectives: seq<Objective>, key: WindowKey)
    requires s.shuttingDown
    ensures Sorts(s, objectives, key) == 0
  {
    if objectives != [] {
      NoSorts(s, objectives[..|objectives| - 1], key);
    }
  }

  /** Every call but an advance of the epoch performs exactly these operations. */
  lemma StepOps(s: GovState, c: Call, key: WindowKey)
    requires !c.AdvanceEpochCall?
    ensures key in Next(s, c).windows <==> key in s.windows || WindowOps(s, c, key) != []
    ensures key in Next(s, c).windows ==> Next(s, c).windows[key] == RunOps(At(s, key), WindowOps(s, c, key))
  {
    hide AfterLifecycle, AfterSettings, Ingest, Evaluate, EvaluateMany, Decide, OnlyInterventions, Hits, Sorts,
      SortsFor, RunOps, At;
    AtCases(Next(s, c), key);
    AtCases(s, key);
    SamePlace(s, Next(s, c), key);
    RepeatNone(At(s, key));
    if IsLifecycleCall(c) {
      LifecycleKeeps(s, c);
      OnlyKeeps(s, Next(s, c));
    } else if IsEvidenceCall(c) {
      match c {
        case IngestCall(ev) => IngestAt(s, ev, key);
        case EvaluateCall(id, now) => EvaluateAt(s, id, now, key);
        case EvaluateAllCall(now) => EvaluateManyAt(s, s.pol.objectives, now, key);
        case DecideCall(now) => DecideAt(s, now, key);
      }
    } else {
      SettingsKeep(s, c);
    }
  }

  lemma SamePlace(s: GovState, t: GovState, key: WindowKey)
    ensures key in s.windows && t.windows == s.windows ==> At(t, key) == At(s, key)
  {
  }

  lemma RepeatNone(w: Window)
    ensures RunOps(w, []) == w
  {
  }

  lemma IngestAt(s: GovState, ev: RequestLatency, key: WindowKey)
    ensures var next := Ingest(s, ev).0;
      var ops := WindowOps(s, IngestCall(ev), key);
      && At(next, key) == RunOps(At(s, key), ops)
      && (key in next.windows <==> key in s.windows || ops != [])
  {
    hide IngestInto, IngestVerdict, SampleOf;
    RepeatNone(At(s, key));
    if IngestVerdict(s, ev) == Success {
      VerdictMeans(s, ev);
      IngestIntoAt(s, s.pol.objectives, SampleOf(ev), key);
    }
  }

  lemma VerdictMeans(s: GovState, ev: RequestLatency)
    ensures IngestVerdict(s, ev) == Success ==> TotalOf(ev).Ok?
  {
  }

  /** The calls of the intervention lifecycle change interventions and nothing else. */
  ghost predicate OnlyInterventions(s: GovState, t: GovState) {
    t == s.(interventions := t.interventions, outcomes := t.outcomes, lastIntervention := t.lastIntervention,
      nextInt := t.nextInt)
  }

  lemma StatusKeeps(s: GovState, id: int, status: InterventionStatus)
    requires id in s.interventions
    ensures OnlyInterventions(s, WithStatus(s, id, status))
  {
  }

  lemma DispatchKeeps(s: GovState, id: int)
    ensures OnlyInterventions(s, Dispatch(s, id).0)
  {
    hide InfeasibilityOf, CurrentAuthority, Same, FindObjective, WithStatus, OnlyInterventions;
    SameKeeps(s);
    if id in s.interventions {
      StatusKeeps(s, id, Failed);
      StatusKeeps(s, id, Superseded);
      StatusKeeps(s, id, Dispatched);
    }
  }

  lemma SameKeeps(s: GovState)
    ensures OnlyInterventions(s, s)
  {
  }

  lemma OutcomeKeeps(s: GovState, id: int, outcome: PostOutcome)
    ensures OnlyInterventions(s, RecordOutcome(s, id, outcome).0)
  {
    hide StatusAfter;
  }

  lemma LifecycleKeeps(s: GovState, c: Call)
    requires IsLifecycleCall(c)
    ensures OnlyInterventions(s, Next(s, c))
  {
    hide Authorize, Dispatch, RecordOutcome, WithStatus, OnlyInterventions;
    SameKeeps(s);
    match c {
      case AuthorizeCall(prop, now) => AuthorizeOnly(s, prop, now);
      case DispatchCall(id) => DispatchKeeps(s, id);
      case RecordOutcomeCall(id, outcome) => OutcomeKeeps(s, id, outcome);
      case AcknowledgeCall(id) => if id in s.interventions { StatusKeeps(s, id, Acknowledged); }
      case CancelCall(id) => if id in s.interventions { StatusKeeps(s, id, Cancelled); }
      case SupersedeCall(id) => if id in s.interventions { StatusKeeps(s, id, Superseded); }
      case _ =>
    }
  }

  lemma AuthorizeOnly(s: GovState, prop: Intervention, now: int)
    ensures OnlyInterventions(s, Authorize(s, prop, now).0)
  {
    hide AuthorizeVerdict;
  }

  lemma LoadKeeps(s: GovState, file: seq<bv8>)
    ensures SameWindows(s, LoadFile(s, file).0)
  {
    hide Load;
  }

  /** The policy, the identities and the facts that authority is checked against. */
  ghost predicate SameSettings(s: GovState, t: GovState) {
    && t.cfg == s.cfg && t.epoch == s.epoch && t.pol == s.pol && t.facts == s.facts && t.gens == s.gens
    && t.boots == s.boots && t.shuttingDown == s.shuttingDown
  }

  lemma FenceSettings(s: GovState, t: GovState)
    requires SameFence(s, t)
    ensures SameSettings(s, t)
  {
  }

  lemma OnlySettings(s: GovState, t: GovState)
    requires OnlyInterventions(s, t)
    ensures SameSettings(s, t)
  {
  }

  lemma IngestSettings(s: GovState, ev: RequestLatency)
    ensures SameSettings(s, Ingest(s, ev).0)
  {
    hide IngestInto, IngestVerdict, SampleOf, RunOps, At;
    VerdictMeans(s, ev);
    if IngestVerdict(s, ev) == Success {
      IngestIntoAt(s, s.pol.objectives, SampleOf(ev), WindowKey(0, 0));
    }
  }

  lemma DecideSettings(s: GovState, now: int)
    ensures SameSettings(s, Decide(s, now).0)
  {
    hide DecideOn, EvaluateMany, At, RunOps;
    EvaluateManyAt(s, s.pol.objectives, now, WindowKey(0, 0));
    DecideOnKeeps(EvaluateAll(s, now).0, EvaluateAll(s, now).1, now);
  }

  /** Evidence and lifecycle calls change none of the settings. */
  lemma CallsKeepSettings(s: GovState, c: Call)
    requires IsLifecycleCall(c) || IsEvidenceCall(c)
    ensures SameSettings(s, Next(s, c))
  {
    hide AfterLifecycle, AfterSettings, Ingest, Evaluate, EvaluateMany, Decide, SameFence, OnlyInterventions,
      SameSettings, At, RunOps;
    var key := WindowKey(0, 0);
    if IsLifecycleCall(c) {
      LifecycleKeeps(s, c);
      OnlySettings(s, Next(s, c));
    } else {
      match c {
        case IngestCall(ev) => IngestSettings(s, ev);
        case EvaluateCall(id, now) =>
          EvaluateAt(s, id, now, key);
          FenceSettings(s, Next(s, c));
        case EvaluateAllCall(now) =>
          EvaluateManyAt(s, s.pol.objectives, now, key);
          FenceSettings(s, Next(s, c));
        case DecideCall(now) => DecideSettings(s, now);
      }
    }
  }

  /** The remaining calls leave windows and accepted requests alone, and only the advance
      of the epoch clears them. */
  lemma SettingsKeep(s: GovState, c: Call)
    requires !IsLifecycleCall(c) && !IsEvidenceCall(c) && !c.AdvanceEpochCall?
    ensures SameWindows(s, Next(s, c))
  {
    hide LoadFile;
    if c.LoadCall? {
      LoadKeeps(s, c.file);
    }
  }

  lemma OnlyKeeps(s: GovState, t: GovState)
    requires OnlyInterventions(s, t)
    ensures SameWindows(s, t)
  {
  }

  ghost predicate SameWindows(s: GovState, t: GovState) {
    t.windows == s.windows && t.seen == s.seen && t.epoch == s.epoch && t.cfg == s.cfg
  }

  // ---- whole runs ------------------------------------------------------------------------

  /** In every run from a governor without windows, each window is what its trace makes of
      an empty window, and a window that does not exist was never touched. */
  lemma {:induction false} WindowsFollowTraces(s: GovState, calls: seq<Call>, key: WindowKey)
    requires s.windows == map[]
    ensures var t := Run(s, calls);
      && (key in t.windows ==> t.windows[key] == RunOps(NewWindow(t.windows[key].cfg), Trace(s, calls, key)))
      && (key !in t.windows ==> Trace(s, calls, key) == [])
    decreases |calls|
  {
    if calls != [] {
      hide Next, WindowOps, RunOps;
      var init, c := calls[..|calls| - 1], calls[|calls| - 1];
      var before := Run(s, init);
      WindowsFollowTraces(s, init, key);
      if c.AdvanceEpochCall? {
        AdvanceClears(before);
      } else {
        StepOps(before, c, key);
        var ops := WindowOps(before, c, key);
        var base := At(before, key);
        RunOpsAppend(NewWindow(base.cfg), Trace(s, init, key), ops);
        RunKeepsConfig(base, ops);
        RepeatNone(NewWindow(base.cfg));
        AtCases(before, key);
      }
    }
  }

  lemma AdvanceClears(s: GovState)
    ensures Next(s, AdvanceEpochCall).windows == map[] && Next(s, AdvanceEpochCall).seen == map[]
    ensures Next(s, AdvanceEpochCall).epoch == s.epoch + 1 && Next(s, AdvanceEpochCall).cfg == s.cfg
  {
  }

  lemma AtCases(s: GovState, key: WindowKey)
    ensures key in s.windows ==> At(s, key) == s.windows[key]
    ensures key !in s.windows ==> At(s, key) == NewWindow(At(s, key).cfg)
  {
  }
}
