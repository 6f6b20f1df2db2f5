/** The whole of a decision against the order of the policy: what it reports, what it acts on and
    what it records. */
module DecisionOrder {
  import opened Basics
  import opened Domain
  import opened Selection
  import opened Transitions
  import opened WindowRuns
  import opened WindowTraces
  import opened BindingObjective

  function ErasedOption(ev: Option<Evaluation>): Option<Evaluation> {
    match ev
    case None => None
    case Some(x) => Some(Erase(x))
  }

  /** A decision without evaluation ids. */
  function EraseDecision(d: Decision): Decision {
    d.(evaluation := ErasedOption(d.evaluation))
  }

  function FirstOf(xs: seq<Evaluation>): Option<Evaluation> {
    if xs == [] then None else Some(xs[0])
  }

  // ---- a decision from what binds ------------------------------------------------------------

  /** The authorisation that a binding evaluation leads to. */
  function Outcome(s: GovState, b: Evaluation, now: int): Option<Intervention> {
    if b.selected != NoAction && b.sufficiency.Sufficient? then
      match Authorize(s, Proposal(s, b, now), now).1
      case Ok(i) => Some(i)
      case Err(_) => None
    else None
  }

  /** What is decided, given what binds and what was evaluated first. */
  function Concluded(s: GovState, bind: Option<Evaluation>, first: Option<Evaluation>, now: int): Decision {
    match bind
    case None => Decision(first, false, None, [], [])
    case Some(b) =>
      var made := Outcome(s, b, now);
      Decision(Some(b), made.Some?, made, WithReason(true, b.choice.rejected), WithReason(false, b.choice.rejected))
  }

  /** Two states that authorisation cannot tell apart. */
  ghost predicate AuthorizeAlike(s: GovState, t: GovState, objective: nat) {
    && t.cfg == s.cfg && t.epoch == s.epoch && t.facts == s.facts && t.gens == s.gens
    && t.shuttingDown == s.shuttingDown && t.lastIntervention == s.lastIntervention && t.nextInt == s.nextInt
    && t.pol.id == s.pol.id && t.pol.generation == s.pol.generation
    && FindObjective(t.pol.objectives, objective) == FindObjective(s.pol.objectives, objective)
  }

  lemma VerdictAlike(s: GovState, t: GovState, prop: Intervention, now: int)
    requires AuthorizeAlike(s, t, prop.objective)
    ensures AuthorizeVerdict(t, prop, now) == AuthorizeVerdict(s, prop, now)
  {
    hide FindObjective, InfeasibilityOf;
  }

  lemma OutcomeAlike(s: GovState, t: GovState, b: Evaluation, now: int)
    requires AuthorizeAlike(s, t, b.objective)
    ensures Outcome(t, b, now) == Outcome(s, b, now)
  {
    hide FindObjective, AuthorizeVerdict, LastDominantCause;
    assert Proposal(t, b, now) == Proposal(s, b, now);
    VerdictAlike(s, t, Proposal(s, b, now), now);
  }

  lemma DecideConcludes(s: GovState, now: int)
    requires !s.shuttingDown
    ensures var evs := EvaluateAll(s, now).1;
      Decide(s, now).1 == Ok(Concluded(s, Binding(s.pol.objectives, evs), FirstOf(evs), now))
  {
    hide EvaluateMany, Binding, At, RunOps, WithReason, Authorize, Proposal, FindObjective;
    var (after, evs) := EvaluateAll(s, now);
    EvaluateManyAt(s, s.pol.objectives, now, WindowKey(0, 0));
    var bind := Binding(s.pol.objectives, evs);
    if bind.Some? {
      OutcomeAlike(s, after, bind.value, now);
    }
  }

  lemma ErasedOutcome(s: GovState, b: Evaluation, now: int)
    ensures Outcome(s, Erase(b), now) == Outcome(s, b, now)
  {
    hide Authorize, FindObjective, LastDominantCause;
    assert Proposal(s, Erase(b), now) == Proposal(s, b, now);
  }

  lemma ConcludedErased(s: GovState, bind: Option<Evaluation>, first: Option<Evaluation>, now: int)
    ensures EraseDecision(Concluded(s, bind, first, now)) == Concluded(s, ErasedOption(bind), ErasedOption(first), now)
  {
    hide Outcome, WithReason;
    if bind.Some? {
      ErasedOutcome(s, bind.value, now);
    }
  }

  lemma ConcludedReordered(
    s: GovState, objectives: seq<Objective>, bind: Option<Evaluation>, first: Option<Evaluation>, now: int)
    requires Reordered(s.pol.objectives, objectives)
    ensures Concluded(WithOrder(s, objectives), bind, first, now) == Concluded(s, bind, first, now)
  {
    hide Outcome, WithReason, FindObjective, Reordered;
    if bind.Some? {
      FindReordered(s.pol.objectives, objectives, bind.value.objective);
      OutcomeAlike(s, WithOrder(s, objectives), bind.value, now);
    }
  }

  /** Up to evaluation ids, a decision is concluded from the assessments. */
  lemma DecisionFromAssessments(s: GovState, now: int)
    requires DistinctIds(s.pol.objectives) && !s.shuttingDown
    ensures var xs, b := AssessEnabled(s, s.pol.objectives, now), Binding(s.pol.objectives, EvaluateAll(s, now).1);
      Decide(s, now).1.Ok? && EraseDecision(Decide(s, now).1.value) == Concluded(s, ErasedOption(b), FirstOf(xs), now)
  {
    hide Decide, EvaluateMany, Assess, AssessEnabled, Erase, Binding, Concluded;
    var p, evs := s.pol.objectives, EvaluateAll(s, now).1;
    ListedAll(s);
    EvaluationsCommute(s, p, now);
    DecideConcludes(s, now);
    ConcludedErased(s, Binding(p, evs), FirstOf(evs), now);
    FirstMapped(evs);
  }

  lemma FirstMapped(evs: seq<Evaluation>)
    ensures FirstOf(Map(Erase, evs)) == ErasedOption(FirstOf(evs))
  {
    hide Erase;
  }

  // ---- when the order makes no difference ----------------------------------------------------

  /** Both orders decide alike, up to evaluation ids. */
  ghost predicate SameDecision(s: GovState, objectives: seq<Objective>, now: int) {
    var a, b := Decide(s, now).1, Decide(WithOrder(s, objectives), now).1;
    a.Ok? && b.Ok? && EraseDecision(a.value) == EraseDecision(b.value)
  }

  predicate AnyAtRisk(xs: seq<Evaluation>) {
    exists i :: 0 <= i < |xs| && xs[i].state.AtRisk?
  }

  /** Some enabled objective is violated, or exactly one is at risk, or none is and at most one is
      enabled. */
  ghost predicate OneToReport(s: GovState, now: int) {
    var xs := AssessEnabled(s, s.pol.objectives, now);
    || Violated(xs)
    || (AnyAtRisk(xs) && forall x, y :: x in xs && y in xs && x.state.AtRisk? && y.state.AtRisk? ==> x == y)
    || (!AnyAtRisk(xs) && |xs| <= 1)
  }

  lemma RiskOnly(s: GovState, now: int)
    requires OneToReport(s, now)
    ensures ClearCut(s, now)
  {
    hide AssessEnabled, Violated;
    var xs := AssessEnabled(s, s.pol.objectives, now);
    if !AnyAtRisk(xs) {
      NoneAtRisk(xs);
    }
  }

  lemma NoneAtRisk(xs: seq<Evaluation>)
    requires !AnyAtRisk(xs)
    ensures forall x :: x in xs ==> !x.state.AtRisk?
    ensures FirstAtRisk(xs).None?
  {
    FirstAtRiskExists(xs);
  }

  lemma SameFirst(xs: seq<Evaluation>, ys: seq<Evaluation>)
    requires |xs| <= 1 && forall x :: x in xs <==> x in ys
    ensures FirstOf(xs) == FirstOf(ys)
  {
    if xs != [] {
      assert xs[0] in ys;
    }
    if ys != [] {
      assert ys[0] in xs;
    }
  }

  lemma SameDecisionWhenOne(s: GovState, objectives: seq<Objective>, now: int)
    requires Reordered(s.pol.objectives, objectives) && !s.shuttingDown && OneToReport(s, now)
    ensures SameDecision(s, objectives, now)
  {
    hide Decide, EvaluateAll, Assess, AssessEnabled, Erase, Binding, Concluded, Violated, ClearCut, Binds;
    var t, p := WithOrder(s, objectives), s.pol.objectives;
    var xs, ys := AssessEnabled(s, p, now), AssessEnabled(t, objectives, now);
    var a, b := Binding(p, EvaluateAll(s, now).1), Binding(objectives, EvaluateAll(t, now).1);
    RiskOnly(s, now);
    SameBindingWhenClear(s, objectives, now);
    BindingFromAssessments(s, now);
    DecisionFromAssessments(s, now);
    DecisionFromAssessments(t, now);
    ConcludedReordered(s, objectives, ErasedOption(b), FirstOf(ys), now);
    SameAssessments(s, objectives, now);
    if a.None? {
      FirstAtRiskExists(xs);
      SameFirst(xs, ys);
      FirstIrrelevant(s, ErasedOption(b), FirstOf(xs), FirstOf(ys), now);
    } else {
      FirstIrrelevant(s, ErasedOption(b), FirstOf(xs), FirstOf(ys), now);
    }
  }

  lemma FirstIrrelevant(s: GovState, bind: Option<Evaluation>, f: Option<Evaluation>, g: Option<Evaluation>, now: int)
    requires bind.Some? || f == g
    ensures Concluded(s, bind, f, now) == Concluded(s, bind, g, now)
    ensures Concluded(s, bind, f, now).evaluation == (if bind.Some? then bind else f)
  {
    hide Outcome;
  }

  /** What a decision reports when the policy lists an objective first that is at risk, or any
      enabled one when none is. */
  lemma FrontReported(s: GovState, i: nat, now: int)
    requires DistinctIds(s.pol.objectives) && !s.shuttingDown && i < |s.pol.objectives|
    requires !Violated(AssessEnabled(s, s.pol.objectives, now)) && s.pol.objectives[i].enabled
    requires Assess(s, s.pol.objectives[i], now).state.AtRisk? || !AnyAtRisk(AssessEnabled(s, s.pol.objectives, now))
    ensures var d := Decide(WithOrder(s, ToFront(s.pol.objectives, i)), now).1;
      d.Ok? && EraseDecision(d.value).evaluation == Some(Assess(s, s.pol.objectives[i], now))
  {
    hide Decide, EvaluateAll, Assess, Erase, Binding, Concluded, Violated, ToFront, FirstAtRisk;
    var p, q := s.pol.objectives, ToFront(s.pol.objectives, i);
    var t := WithOrder(s, q);
    assert t.pol.objectives == q;
    FrontReordered(p, i);
    DecisionFromAssessments(t, now);
    var b := Binding(q, EvaluateAll(t, now).1);
    var ys := AssessEnabled(t, q, now);
    FirstIrrelevant(t, ErasedOption(b), FirstOf(ys), FirstOf(ys), now);
    if Assess(s, p[i], now).state.AtRisk? {
      FrontBinds(s, i, now);
    } else {
      FrontFirst(s, i, now);
    }
  }

  lemma FrontFirst(s: GovState, i: nat, now: int)
    requires DistinctIds(s.pol.objectives) && !s.shuttingDown && i < |s.pol.objectives|
    requires !Violated(AssessEnabled(s, s.pol.objectives, now)) && s.pol.objectives[i].enabled
    requires !AnyAtRisk(AssessEnabled(s, s.pol.objectives, now))
    ensures var q := ToFront(s.pol.objectives, i);
      && Binding(q, EvaluateAll(WithOrder(s, q), now).1).None?
      && FirstOf(AssessEnabled(WithOrder(s, q), q, now)) == Some(Assess(s, s.pol.objectives[i], now))
  {
    hide EvaluateAll, Assess, Erase, Binding, Violated, ToFront, FirstAtRisk;
    var p, q := s.pol.objectives, ToFront(s.pol.objectives, i);
    var t := WithOrder(s, q);
    assert t.pol.objectives == q;
    FrontReordered(p, i);
    SameAssessments(s, q, now);
    var xs, ys := AssessEnabled(s, p, now), AssessEnabled(t, q, now);
    SameDegrading(xs, ys);
    SameRisk(xs, ys);
    NoneAtRisk(ys);
    BindingFromAssessments(t, now);
    AssessReordered(s, q, p[i], now);
    FrontHead(t, p, i, now);
  }

  lemma SameRisk(xs: seq<Evaluation>, ys: seq<Evaluation>)
    requires forall x :: x in xs <==> x in ys
    ensures AnyAtRisk(xs) <==> AnyAtRisk(ys)
  {
    if i :| 0 <= i < |xs| && xs[i].state.AtRisk? {
      assert xs[i] in ys;
    }
    if i :| 0 <= i < |ys| && ys[i].state.AtRisk? {
      assert ys[i] in xs;
    }
  }

  lemma FrontHead(t: GovState, p: seq<Objective>, i: nat, now: int)
    requires i < |p| && p[i].enabled
    ensures FirstOf(AssessEnabled(t, ToFront(p, i), now)) == Some(Assess(t, p[i], now))
  {
    hide Assess;
    AssessFirst(t, p[i], p[..i] + p[i + 1..], now);
  }

  /** Two assessments come from two enabled objectives. */
  lemma {:induction false} TwoEnabled(s: GovState, p: seq<Objective>, now: int) returns (i: nat, j: nat)
    requires |AssessEnabled(s, p, now)| >= 2
    ensures i < j < |p| && p[i].enabled && p[j].enabled
  {
    hide Assess;
    var init := p[..|p| - 1];
    if |AssessEnabled(s, init, now)| >= 2 {
      i, j := TwoEnabled(s, init, now);
    } else {
      i := OneEnabled(s, init, now);
      j := |p| - 1;
    }
  }

  lemma {:induction false} OneEnabled(s: GovState, p: seq<Objective>, now: int) returns (i: nat)
    requires |AssessEnabled(s, p, now)| >= 1
    ensures i < |p| && p[i].enabled
  {
    hide Assess;
    i := |p| - 1;
    if !p[i].enabled {
      i := OneEnabled(s, p[..|p| - 1], now);
    }
  }

  /** Listing either of two objectives first makes a difference. */
  lemma TwoReports(s: GovState, i: nat, j: nat, now: int)
    requires DistinctIds(s.pol.objectives) && !s.shuttingDown && i < |s.pol.objectives| && j < |s.pol.objectives|
    requires s.pol.objectives[i].id != s.pol.objectives[j].id
    requires !Violated(AssessEnabled(s, s.pol.objectives, now))
    requires s.pol.objectives[i].enabled && s.pol.objectives[j].enabled
    requires !AnyAtRisk(AssessEnabled(s, s.pol.objectives, now))
      || (Assess(s, s.pol.objectives[i], now).state.AtRisk? && Assess(s, s.pol.objectives[j], now).state.AtRisk?)
    ensures exists q :: Reordered(s.pol.objectives, q) && !SameDecision(s, q, now)
  {
    hide Decide, Assess, AssessEnabled, Violated, Reordered, ToFront, EraseDecision, AnyAtRisk;
    var p := s.pol.objectives;
    FrontReordered(p, i);
    FrontReordered(p, j);
    FrontReported(s, i, now);
    FrontReported(s, j, now);
    AssessHasNoId(s, p[i], now);
    AssessHasNoId(s, p[j], now);
    assert !SameDecision(s, ToFront(p, i), now) || !SameDecision(s, ToFront(p, j), now);
  }

  /** With distinct ids, the order of the policy's objectives makes no difference to a decision, up
      to evaluation ids, if and only if some enabled objective is violated, or exactly one is at
      risk, or none is and at most one is enabled. */
  lemma DecisionOrderIff(s: GovState, now: int)
    requires DistinctIds(s.pol.objectives) && !s.shuttingDown
    ensures (forall q :: Reordered(s.pol.objectives, q) ==> SameDecision(s, q, now)) <==> OneToReport(s, now)
  {
    hide Decide, Assess, AssessEnabled, Violated, Reordered, SameDecision, AnyAtRisk;
    var p := s.pol.objectives;
    var xs := AssessEnabled(s, p, now);
    if OneToReport(s, now) {
      forall q | Reordered(p, q) ensures SameDecision(s, q, now) {
        SameDecisionWhenOne(s, q, now);
      }
    } else if AnyAtRisk(xs) {
      var x, y :| x in xs && y in xs && x.state.AtRisk? && y.state.AtRisk? && x != y;
      AssessedMembers(s, p, now);
      var i :| 0 <= i < |p| && p[i].enabled && x == Assess(s, p[i], now);
      var j :| 0 <= j < |p| && p[j].enabled && y == Assess(s, p[j], now);
      TwoReports(s, i, j, now);
    } else {
      var i, j := TwoEnabled(s, p, now);
      TwoReports(s, i, j, now);
    }
  }
}
