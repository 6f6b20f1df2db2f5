/** Decisions told from the assessments of the single objectives: which one binds, and what is
    recorded for it. */
module Decisions {
  import opened Basics
  import opened Domain
  import opened Attribution
  import opened Selection
  import opened Transitions
  import opened WindowRuns
  import opened WindowTraces
  import opened BindingObjective
  import opened Interventions
  import opened Feasibility

  // ---- what binds --------------------------------------------------------------------------------

  predicate IsViolation(ev: Evaluation) {
    ev.state.Violating? || ev.state.Severe?
  }

  /** The objective at i, assessed as a, does not give way to the one at j, assessed as c: a violation
      binds over anything else; among violations the larger excess over the recovery threshold binds,
      then the higher priority, then the smaller id; without any the first objective at risk binds. */
  ghost predicate HoldsAgainst(p: seq<Objective>, i: nat, a: Evaluation, j: nat, c: Evaluation)
    requires i < |p| && j < |p|
  {
    && (IsViolation(c) ==>
          && IsViolation(a)
          && var x, y := a.observed - a.recovered, c.observed - c.recovered;
            || x > y
            || (x == y && p[i].priority > p[j].priority)
            || (x == y && p[i].priority == p[j].priority && p[i].id <= p[j].id))
    && (c.state.AtRisk? ==> IsViolation(a) || i <= j)
  }

  /** The objective at i binds. */
  ghost predicate BindsAt(s: GovState, now: int, i: nat)
    requires i < |s.pol.objectives|
  {
    var p := s.pol.objectives;
    var a := Assess(s, p[i], now);
    && p[i].enabled && (IsViolation(a) || a.state.AtRisk?)
    && forall j :: 0 <= j < |p| && p[j].enabled ==> HoldsAgainst(p, i, a, j, Assess(s, p[j], now))
  }

  lemma {:induction false} FirstAtRiskAppend(a: seq<Evaluation>, b: seq<Evaluation>)
    ensures FirstAtRisk(a + b) == if FirstAtRisk(a).Some? then FirstAtRisk(a) else FirstAtRisk(b)
  {
    if a == [] {
      assert a + b == b;
    } else {
      assert (a + b)[0] == a[0] && (a + b)[1..] == a[1..] + b;
      FirstAtRiskAppend(a[1..], b);
    }
  }

  lemma {:induction false} FirstAtRiskAt(s: GovState, p: seq<Objective>, now: int) returns (i: nat)
    requires FirstAtRisk(AssessEnabled(s, p, now)).Some?
    ensures i < |p| && p[i].enabled && Some(Assess(s, p[i], now)) == FirstAtRisk(AssessEnabled(s, p, now))
    ensures Assess(s, p[i], now).state.AtRisk?
    ensures forall j :: 0 <= j < i && p[j].enabled ==> !Assess(s, p[j], now).state.AtRisk?
    decreases |p|
  {
    hide Assess;
    var init, o := p[..|p| - 1], p[|p| - 1];
    var last := if o.enabled then [Assess(s, o, now)] else [];
    FirstAtRiskAppend(AssessEnabled(s, init, now), last);
    if FirstAtRisk(AssessEnabled(s, init, now)).Some? {
      i := FirstAtRiskAt(s, init, now);
      assert forall j :: 0 <= j <= i ==> init[j] == p[j];
    } else {
      i := |p| - 1;
      forall j | 0 <= j < i && p[j].enabled ensures !Assess(s, p[j], now).state.AtRisk? {
        AssessedMembers(s, init, now);
        assert init[j].enabled && Assess(s, init[j], now) in AssessEnabled(s, init, now);
        NoneAtRiskIn(AssessEnabled(s, init, now), Assess(s, init[j], now));
      }
    }
  }

  lemma NoneAtRiskIn(evs: seq<Evaluation>, ev: Evaluation)
    requires FirstAtRisk(evs).None? && ev in evs
    ensures !ev.state.AtRisk?
  {
    FirstAtRiskExists(evs);
    var i :| 0 <= i < |evs| && evs[i] == ev;
  }

  lemma OutranksMeans(p: seq<Objective>, i: nat, a: Evaluation, j: nat, c: Evaluation)
    requires DistinctIds(p) && i < |p| && j < |p| && a.objective == p[i].id && c.objective == p[j].id
    requires !Outranks(p, c, a)
    ensures var x, y := a.observed - a.recovered, c.observed - c.recovered;
      x > y || (x == y && (p[i].priority > p[j].priority || (p[i].priority == p[j].priority && p[i].id <= p[j].id)))
  {
    hide PriorityOf;
    PriorityFound(p, i);
    PriorityFound(p, j);
  }

  lemma ViolationBindsAt(s: GovState, now: int, b: Evaluation) returns (i: nat)
    requires DistinctIds(s.pol.objectives)
    requires Binds(s.pol.objectives, AssessEnabled(s, s.pol.objectives, now), b)
    ensures i < |s.pol.objectives| && b == Assess(s, s.pol.objectives[i], now) && BindsAt(s, now, i)
  {
    hide Assess, AssessEnabled, Outranks;
    var p := s.pol.objectives;
    AssessedMembers(s, p, now);
    i :| 0 <= i < |p| && p[i].enabled && b == Assess(s, p[i], now);
    AssessHasNoId(s, p[i], now);
    forall j | 0 <= j < |p| && p[j].enabled ensures HoldsAgainst(p, i, b, j, Assess(s, p[j], now)) {
      var c := Assess(s, p[j], now);
      AssessHasNoId(s, p[j], now);
      assert c in AssessEnabled(s, p, now);
      if IsViolation(c) {
        assert Degrading(c);
        OutranksMeans(p, i, b, j, c);
      }
    }
  }

  lemma RiskBindsAt(s: GovState, now: int) returns (i: nat)
    requires !Violated(AssessEnabled(s, s.pol.objectives, now))
    requires FirstAtRisk(AssessEnabled(s, s.pol.objectives, now)).Some?
    ensures i < |s.pol.objectives| && BindsAt(s, now, i)
    ensures Some(Assess(s, s.pol.objectives[i], now)) == FirstAtRisk(AssessEnabled(s, s.pol.objectives, now))
  {
    hide Assess, AssessEnabled, FirstAtRisk;
    var p := s.pol.objectives;
    i := FirstAtRiskAt(s, p, now);
    forall j | 0 <= j < |p| && p[j].enabled
      ensures HoldsAgainst(p, i, Assess(s, p[i], now), j, Assess(s, p[j], now)) {
      NotViolated(s, p, now, j);
    }
  }

  lemma NotViolated(s: GovState, p: seq<Objective>, now: int, j: nat)
    requires !Violated(AssessEnabled(s, p, now)) && j < |p| && p[j].enabled
    ensures !IsViolation(Assess(s, p[j], now))
  {
    hide Assess, AssessEnabled;
    AssessedMembers(s, p, now);
    var x := Assess(s, p[j], now);
    assert x in AssessEnabled(s, p, now);
    var k :| 0 <= k < |AssessEnabled(s, p, now)| && AssessEnabled(s, p, now)[k] == x;
    assert !Degrading(AssessEnabled(s, p, now)[k]);
  }

  /** With distinct ids, a decision binds on something if and only if some enabled objective is violated
      or at risk, and then, up to evaluation ids, on the assessment of the objective that holds against
      all others. */
  lemma BindingIff(s: GovState, now: int) returns (i: nat)
    requires DistinctIds(s.pol.objectives) && !s.shuttingDown
    ensures var p := s.pol.objectives;
      var b := Binding(p, EvaluateAll(s, now).1);
      && (b.Some? <==> exists j :: 0 <= j < |p| && p[j].enabled && NeedsAction(Assess(s, p[j], now)))
      && (b.Some? ==> i < |p| && BindsAt(s, now, i) && Erase(b.value) == Assess(s, p[i], now))
  {
    hide Assess, AssessEnabled, EvaluateAll, Binding, Erase, Violated, FirstAtRisk, BindsAt, Binds;
    var p := s.pol.objectives;
    var xs, b := AssessEnabled(s, p, now), Binding(p, EvaluateAll(s, now).1);
    BindingFromAssessments(s, now);
    i := 0;
    if Violated(xs) {
      i := ViolationBindsAt(s, now, Erase(b.value));
      BoundNeedsAction(s, now, i);
    } else if FirstAtRisk(xs).Some? {
      i := RiskBindsAt(s, now);
      BoundNeedsAction(s, now, i);
    } else {
      forall j | 0 <= j < |p| && p[j].enabled ensures !NeedsAction(Assess(s, p[j], now)) {
        NotViolated(s, p, now, j);
        AssessedMembers(s, p, now);
        assert Assess(s, p[j], now) in xs;
        NoneAtRiskIn(xs, Assess(s, p[j], now));
      }
    }
  }

  predicate NeedsAction(ev: Evaluation) {
    ev.state.Violating? || ev.state.Severe? || ev.state.AtRisk?
  }

  lemma BoundNeedsAction(s: GovState, now: int, i: nat)
    requires i < |s.pol.objectives| && BindsAt(s, now, i)
    ensures s.pol.objectives[i].enabled && NeedsAction(Assess(s, s.pol.objectives[i], now))
  {
    hide Assess, HoldsAgainst;
  }

  // ---- what is recorded ----------------------------------------------------------------------------

  /** The objective's class, or all of them. */
  function TargetClass(o: Objective): nat {
    match o.classScope
    case None => 0
    case Some(c) => c
  }

  /** What a decision records: the selected kind under the current authority for the binding objective
      and its class, expected to reduce what was estimated, proposed now and expiring five seconds
      later, with the next id. */
  lemma DecisionRecords(s: GovState, now: int)
    ensures AuthorizedBy(s, DecideCall(now)).Some? ==>
      var b := Binding(s.pol.objectives, EvaluateAll(s, now).1);
      var i := AuthorizedBy(s, DecideCall(now)).value;
      && b.Some? && i.kind == b.value.selected != NoAction && i.status.Authorized?
      && i.id == s.nextInt && i.generation == s.nextInt + 1
      && i.objective == b.value.objective && i.objectiveGeneration == b.value.objectiveGeneration
      && var o := FindObjective(s.pol.objectives, i.objective);
        && o.Some? && o.value.enabled && BuiltNow(s, o.value, i.authority) && i.targetClass == TargetClass(o.value)
        && Supports(s.facts, i.kind) && CooledDown(s, o.value, now)
        && i.effect == b.value.choice.expectedReduction && i.proposedAt == now && i.expiryAt == now + 5_000_000_000
        && i.cause == LastDominantCause(b.value.decomposition.causes) && i.feasibility == Feasible
        && i.confidence == 0x3FE6_6666_6666_6666
  {
    hide EvaluateMany, Binding, WithReason, LastDominantCause, Supports, BuiltNow, At, RunOps, Authorize;
    if !s.shuttingDown {
      var (after, evs) := EvaluateAll(s, now);
      EvaluateManyAt(s, s.pol.objectives, now, WindowKey(0, 0));
      FenceSettings(s, after);
      var b := Binding(s.pol.objectives, evs);
      if b.Some? {
        AuthorizeIff(after, Proposal(after, b.value, now), now);
        RecordedAs(after, Proposal(after, b.value, now), now);
        BuiltAlike(s, after);
      }
    }
  }

  /** A decision records something if and only if something binds, an intervention was selected for it,
      and the objective's cooldown has run out. */
  lemma DecisionActsExactly(s: GovState, now: int)
    ensures AuthorizedBy(s, DecideCall(now)).Some? <==>
      && !s.shuttingDown
      && var b := Binding(s.pol.objectives, EvaluateAll(s, now).1);
        && b.Some? && b.value.selected != NoAction
        && var o := FindObjective(s.pol.objectives, b.value.objective);
          o.Some? && CooledDown(s, o.value, now)
  {
    hide EvaluateAll, Binding, AuthorizedBy;
    DecisionActsIff(s, now);
  }

  lemma RecordedAs(s: GovState, prop: Intervention, now: int)
    ensures var r := Authorize(s, prop, now).1;
      r.Ok? ==>
        && r.value.kind == prop.kind && r.value.status.Authorized? && r.value.authority == prop.authority
        && r.value.objective == prop.objective && r.value.objectiveGeneration == prop.objectiveGeneration
        && r.value.targetClass == prop.targetClass && r.value.cause == prop.cause && r.value.effect == prop.effect
        && r.value.feasibility == prop.feasibility && r.value.confidence == prop.confidence
        && r.value.expiryAt == prop.expiryAt && r.value.proposedAt == now
        && r.value.id == (if prop.id == 0 then s.nextInt else prop.id)
        && r.value.generation == (if prop.generation != 0 then prop.generation
                                  else if prop.id == 0 then s.nextInt + 1 else s.nextInt)
  {
    hide AuthorizeVerdict;
  }

  lemma BuiltAlike(s: GovState, t: GovState)
    requires SameSettings(s, t)
    ensures forall o: Objective, a: Authority :: BuiltNow(t, o, a) <==> BuiltNow(s, o, a)
  {
  }

  /** A list of causes that leads with a dominant one and goes on with associated ones is attributed to
      the first, whichever end it is searched from. */
  lemma {:induction false} DominantEitherEnd(causes: seq<TailCause>)
    requires causes != [] && causes[0].attribution.DominantContributor?
    requires forall i :: 1 <= i < |causes| ==> causes[i].attribution.AssociatedContributor?
    ensures DominantCause(causes) == causes[0].category == LastDominantCause(causes)
    decreases |causes|
  {
    if |causes| > 1 {
      DominantEitherEnd(causes[..|causes| - 1]);
    }
  }
}
