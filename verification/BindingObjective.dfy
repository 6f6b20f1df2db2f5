/** Decisions: which objective binds, exactly when the order of the policy can change that, and
    that only a cooldown can stop a decided intervention. */
module BindingObjective {
  import opened Basics
  import opened Domain
  import opened Windows
  import opened WindowRuns
  import opened Attribution
  import opened Selection
  import opened Transitions
  import opened WindowTraces
  import opened Evidence

  /** An evaluation without its own identity. */
  function Erase(ev: Evaluation): Evaluation {
    ev.(id := 0, generation := 0)
  }

  // ---- the fold --------------------------------------------------------------------------

  /** b binds: it is a violation, and no violation outranks it. */
  ghost predicate Binds(objectives: seq<Objective>, evs: seq<Evaluation>, b: Evaluation) {
    && b in evs && Degrading(b)
    && forall ev :: ev in evs && Degrading(ev) ==> !Outranks(objectives, ev, b)
  }

  lemma OutranksOrder(objectives: seq<Objective>, a: Evaluation, b: Evaluation, c: Evaluation)
    ensures !Outranks(objectives, a, a)
    ensures Outranks(objectives, a, b) && !Outranks(objectives, c, b) ==> !Outranks(objectives, c, a)
    ensures a.objective != b.objective ==> Outranks(objectives, a, b) || Outranks(objectives, b, a)
  {
    hide PriorityOf;
  }

  lemma {:induction false} BindingIsMaximum(objectives: seq<Objective>, evs: seq<Evaluation>)
    ensures BindingViolation(objectives, evs).Some? <==> exists i :: 0 <= i < |evs| && Degrading(evs[i])
    ensures BindingViolation(objectives, evs).Some? ==> Binds(objectives, evs, BindingViolation(objectives, evs).value)
    decreases |evs|
  {
    hide Outranks, Degrading;
    if evs != [] {
      var init, last := evs[..|evs| - 1], evs[|evs| - 1];
      assert evs == init + [last];
      BindingIsMaximum(objectives, init);
      OutranksOrder(objectives, last, last, last);
      if BindingViolation(objectives, init).Some? {
        var b := BindingViolation(objectives, init).value;
        forall ev | ev in init && Degrading(ev)
          ensures Outranks(objectives, last, b) ==> !Outranks(objectives, ev, last) {
          OutranksOrder(objectives, last, b, ev);
        }
        assert b in evs;
      } else {
        forall ev | ev in init ensures !Degrading(ev) {
          var i :| 0 <= i < |init| && init[i] == ev;
        }
      }
      if Degrading(last) {
        assert Degrading(evs[|evs| - 1]);
      } else {
        forall i | 0 <= i < |evs| && Degrading(evs[i]) ensures i < |init| && init[i] == evs[i] {
          assert i != |evs| - 1;
        }
      }
    }
  }

  /** With distinct objectives there is one binding evaluation. */
  lemma BindingIsUnique(objectives: seq<Objective>, evs: seq<Evaluation>, a: Evaluation, b: Evaluation)
    requires Binds(objectives, evs, a) && Binds(objectives, evs, b)
    ensures a.objective == b.objective
  {
    hide Outranks, Degrading;
    OutranksOrder(objectives, a, b, a);
  }

  // ---- evaluations commute ------------------------------------------------------------------

  /** Two states that an assessment of the objective cannot tell apart. */
  ghost predicate AgreeOn(s: GovState, t: GovState, id: nat) {
    && SameSettings(s, t)
    && (forall c: nat :: At(t, WindowKey(id, c)) == At(s, WindowKey(id, c)))
    && GetOr(t.reval, id, false) == GetOr(s.reval, id, false)
    && GetOr(t.lastState, id, Healthy) == GetOr(s.lastState, id, Healthy)
    && GetOr(t.streak, id, 0) == GetOr(s.streak, id, 0)
  }

  lemma AgreeAssess(s: GovState, t: GovState, o: Objective, now: int)
    requires AgreeOn(s, t, o.id)
    ensures Assess(t, o, now) == Assess(s, o, now)
  {
    hide SortWindow, Decompose, Select, ReportedSet, Judge, IsStale, RecoveryThreshold, EffectiveMinSamples,
      SameSettings;
    assert At(t, WindowKey(o.id, o.Scope())) == At(s, WindowKey(o.id, o.Scope()));
    SettingsAssess(s, t, o);
    assert EvaluatedWindow(t, o, now) == EvaluatedWindow(s, o, now);
    SettingsObserve(s, t, o, EvaluatedWindow(s, o, now));
  }

  lemma SettingsAssess(s: GovState, t: GovState, o: Objective)
    requires SameSettings(s, t)
    ensures CurrentAuthority(t, o) == CurrentAuthority(s, o) && t.facts == s.facts && t.cfg == s.cfg
  {
  }

  lemma SettingsObserve(s: GovState, t: GovState, o: Objective, w: Window)
    requires t.cfg == s.cfg
    ensures Observe(t, o, w) == Observe(s, o, w)
  {
  }

  lemma OtherEvaluationAgrees(s: GovState, o: Objective, now: int, id: nat)
    requires o.id != id
    ensures AgreeOn(s, EvaluateObjective(s, o, now).0, id)
  {
    hide Assess, StateOf, SufficiencyOf, SortWindow, At, SameSettings;
    var next := EvaluateObjective(s, o, now).0;
    forall c: nat ensures At(next, WindowKey(id, c)) == At(s, WindowKey(id, c)) {
      EvaluateObjectiveAt(s, o, now, WindowKey(id, c));
    }
    EvaluateObjectiveAt(s, o, now, WindowKey(id, 0));
    FenceSettings(s, next);
  }

  lemma AgreeChain(s: GovState, t: GovState, u: GovState, id: nat)
    requires AgreeOn(s, t, id) && AgreeOn(t, u, id)
    ensures AgreeOn(s, u, id)
  {
    hide At;
  }

  lemma AgreeSelf(s: GovState, id: nat)
    ensures AgreeOn(s, s, id)
  {
    hide At;
  }

  function AssessEnabled(s: GovState, objectives: seq<Objective>, now: int): seq<Evaluation> {
    if objectives == [] then []
    else AssessEnabled(s, objectives[..|objectives| - 1], now)
         + (if objectives[|objectives| - 1].enabled then [Assess(s, objectives[|objectives| - 1], now)] else [])
  }

  ghost predicate Listed(s: GovState, objectives: seq<Objective>) {
    forall i :: 0 <= i < |objectives| ==> FindObjective(s.pol.objectives, objectives[i].id) == Some(objectives[i])
  }

  lemma {:induction false} UntouchedAgrees(s: GovState, objectives: seq<Objective>, now: int, id: nat)
    requires Listed(s, objectives) && !s.shuttingDown
    requires forall i :: 0 <= i < |objectives| ==> objectives[i].id != id
    ensures AgreeOn(s, EvaluateMany(s, objectives, now).0, id)
  {
    hide Evaluate, AgreeOn, EvaluateObjective, At, RunOps;
    AgreeSelf(s, id);
    if objectives != [] {
      var init, o := objectives[..|objectives| - 1], objectives[|objectives| - 1];
      UntouchedAgrees(s, init, now, id);
      if o.enabled {
        var mid := EvaluateMany(s, init, now).0;
        EvaluateManyAt(s, init, now, WindowKey(id, 0));
        FenceSettings(s, mid);
        EvaluateKnown(mid, o, now);
        OtherEvaluationAgrees(mid, o, now, id);
        AgreeChain(s, mid, Evaluate(mid, o.id, now).0, id);
      }
    }
  }

  lemma EvaluateKnown(s: GovState, o: Objective, now: int)
    requires FindObjective(s.pol.objectives, o.id) == Some(o) && o.enabled && !s.shuttingDown
    ensures Evaluate(s, o.id, now) == (EvaluateObjective(s, o, now).0, Ok(EvaluateObjective(s, o, now).1))
    ensures Erase(EvaluateObjective(s, o, now).1) == Assess(s, o, now)
  {
    hide Assess, StateOf, SufficiencyOf, SortWindow;
    AssessHasNoId(s, o, now);
  }

  lemma AssessHasNoId(s: GovState, o: Objective, now: int)
    ensures Assess(s, o, now).id == 0 && Assess(s, o, now).generation == 0
    ensures Assess(s, o, now).objective == o.id
  {
  }

  /** With distinct ids, evaluating the objectives one after the other reports what each of
      them would have reported alone in the state before; only the evaluation ids tell the
      order. */
  lemma {:induction false} EvaluationsCommute(s: GovState, objectives: seq<Objective>, now: int)
    requires DistinctIds(objectives) && Listed(s, objectives) && !s.shuttingDown
    ensures Map(Erase, EvaluateMany(s, objectives, now).1) == AssessEnabled(s, objectives, now)
  {
    hide Evaluate, EvaluateObjective, Assess, Erase, AgreeOn, At, RunOps;
    if objectives != [] {
      var init, o := objectives[..|objectives| - 1], objectives[|objectives| - 1];
      EvaluationsCommute(s, init, now);
      if o.enabled {
        var (mid, evs) := EvaluateMany(s, init, now);
        EvaluateManyAt(s, init, now, WindowKey(0, 0));
        FenceSettings(s, mid);
        EvaluateKnown(mid, o, now);
        UntouchedAgrees(s, init, now, o.id);
        AgreeAssess(s, mid, o, now);
        var ev := EvaluateObjective(mid, o, now).1;
        assert Map(Erase, evs + [ev]) == Map(Erase, evs) + [Erase(ev)];
      }
    }
  }

  lemma {:induction false} AssessedMembers(s: GovState, objectives: seq<Objective>, now: int)
    ensures forall x :: x in AssessEnabled(s, objectives, now) <==>
      exists i :: 0 <= i < |objectives| && objectives[i].enabled && x == Assess(s, objectives[i], now)
  {
    hide Assess;
    if objectives != [] {
      var init, o := objectives[..|objectives| - 1], objectives[|objectives| - 1];
      AssessedMembers(s, init, now);
      forall x | x in AssessEnabled(s, objectives, now)
        ensures exists i :: 0 <= i < |objectives| && objectives[i].enabled && x == Assess(s, objectives[i], now) {
        if x in AssessEnabled(s, init, now) {
          var i :| 0 <= i < |init| && init[i].enabled && x == Assess(s, init[i], now);
          assert objectives[i] == init[i];
        } else {
          assert objectives[|objectives| - 1].enabled && x == Assess(s, objectives[|objectives| - 1], now);
        }
      }
      forall i | 0 <= i < |objectives| && objectives[i].enabled
        ensures Assess(s, objectives[i], now) in AssessEnabled(s, objectives, now) {
        if i < |init| {
          assert init[i] == objectives[i];
        }
      }
    }
  }

  // ---- order of the policy -------------------------------------------------------------------

  /** The same objectives, in another order. */
  ghost predicate Reordered(p: seq<Objective>, q: seq<Objective>) {
    DistinctIds(p) && DistinctIds(q) && forall o :: o in p <==> o in q
  }

  lemma ListedAll(s: GovState)
    requires DistinctIds(s.pol.objectives)
    ensures Listed(s, s.pol.objectives)
  {
    forall i | 0 <= i < |s.pol.objectives|
      ensures FindObjective(s.pol.objectives, s.pol.objectives[i].id) == Some(s.pol.objectives[i]) {
      FindDistinct(s.pol.objectives, i);
    }
  }

  lemma FindReordered(p: seq<Objective>, q: seq<Objective>, id: nat)
    requires Reordered(p, q)
    ensures FindObjective(p, id) == FindObjective(q, id)
  {
    if FindObjective(p, id).Some? {
      var o := FindObjective(p, id).value;
      assert o in q;
      var i :| 0 <= i < |q| && q[i] == o;
      FindDistinct(q, i);
    }
  }

  lemma {:induction false} PriorityFound(p: seq<Objective>, i: nat)
    requires DistinctIds(p) && i < |p|
    ensures PriorityOf(p, p[i].id) == p[i].priority
  {
    if i < |p| - 1 {
      PriorityFound(p[..|p| - 1], i);
    }
  }

  lemma {:induction false} PriorityAbsent(p: seq<Objective>, id: nat)
    requires forall i :: 0 <= i < |p| ==> p[i].id != id
    ensures PriorityOf(p, id) == 0
  {
    if p != [] {
      PriorityAbsent(p[..|p| - 1], id);
    }
  }

  lemma PriorityReordered(p: seq<Objective>, q: seq<Objective>, id: nat)
    requires Reordered(p, q)
    ensures PriorityOf(p, id) == PriorityOf(q, id)
  {
    if i :| 0 <= i < |p| && p[i].id == id {
      assert p[i] in q;
      var j :| 0 <= j < |q| && q[j] == p[i];
      PriorityFound(p, i);
      PriorityFound(q, j);
    } else {
      forall j | 0 <= j < |q| ensures q[j].id != id {
        assert q[j] in p;
      }
      PriorityAbsent(p, id);
      PriorityAbsent(q, id);
    }
  }

  lemma AssessReordered(s: GovState, objectives: seq<Objective>, o: Objective, now: int)
    requires Reordered(s.pol.objectives, objectives)
    ensures Assess(s.(pol := s.pol.(objectives := objectives)), o, now) == Assess(s, o, now)
  {
    hide SortWindow, Decompose, Select, ReportedSet, Judge, IsStale, RecoveryThreshold, EffectiveMinSamples,
      WindowConfigFor;
    var t := s.(pol := s.pol.(objectives := objectives));
    ConfigReordered(s, objectives, o.id);
    assert EnsuredWindow(t, o.id, o.Scope()) == EnsuredWindow(s, o.id, o.Scope());
    assert EvaluatedWindow(t, o, now) == EvaluatedWindow(s, o, now);
    SettingsObserve(s, t, o, EvaluatedWindow(s, o, now));
  }

  lemma ConfigReordered(s: GovState, objectives: seq<Objective>, id: nat)
    requires Reordered(s.pol.objectives, objectives)
    ensures WindowConfigFor(objectives, id) == WindowConfigFor(s.pol.objectives, id)
  {
    FindReordered(s.pol.objectives, objectives, id);
  }

  lemma OutranksErased(objectives: seq<Objective>, a: Evaluation, b: Evaluation)
    ensures Outranks(objectives, Erase(a), Erase(b)) == Outranks(objectives, a, b)
    ensures Degrading(Erase(a)) == Degrading(a)
  {
    hide PriorityOf;
  }

  lemma OutranksReordered(p: seq<Objective>, q: seq<Objective>, a: Evaluation, b: Evaluation)
    requires Reordered(p, q)
    ensures Outranks(p, a, b) == Outranks(q, a, b)
  {
    hide PriorityOf, Reordered;
    PriorityReordered(p, q, a.objective);
    PriorityReordered(p, q, b.objective);
  }

  lemma BindsErased(objectives: seq<Objective>, evs: seq<Evaluation>, b: Evaluation)
    requires Binds(objectives, evs, b)
    ensures Binds(objectives, Map(Erase, evs), Erase(b))
  {
    hide Outranks, Degrading, Erase;
    var xs := Map(Erase, evs);
    var k :| 0 <= k < |evs| && evs[k] == b;
    assert xs[k] == Erase(b);
    OutranksErased(objectives, b, b);
    forall x | x in xs && Degrading(x) ensures !Outranks(objectives, x, Erase(b)) {
      var i :| 0 <= i < |xs| && xs[i] == x;
      OutranksErased(objectives, evs[i], b);
      assert evs[i] in evs;
    }
  }

  lemma BindsTransfer(p: seq<Objective>, q: seq<Objective>, xs: seq<Evaluation>, ys: seq<Evaluation>, b: Evaluation)
    requires Reordered(p, q) && Binds(p, xs, b) && forall x :: x in xs <==> x in ys
    ensures Binds(q, ys, b)
  {
    hide Outranks, Degrading, Reordered;
    forall y | y in ys && Degrading(y) ensures !Outranks(q, y, b) {
      OutranksReordered(p, q, y, b);
      assert y in xs;
    }
  }

  /** The violations that evaluating the whole policy in a state brings up, without ids. */
  lemma BindingOfState(s: GovState, now: int)
    requires DistinctIds(s.pol.objectives) && !s.shuttingDown
    ensures var b := BindingViolation(s.pol.objectives, EvaluateAll(s, now).1);
      && (b.Some? ==> Binds(s.pol.objectives, AssessEnabled(s, s.pol.objectives, now), Erase(b.value)))
      && (b.None? ==> forall x :: x in AssessEnabled(s, s.pol.objectives, now) ==> !Degrading(x))
  {
    hide EvaluateMany, Assess, Erase, Degrading, Outranks, Binds;
    var evs := EvaluateAll(s, now).1;
    ListedAll(s);
    EvaluationsCommute(s, s.pol.objectives, now);
    BindingIsMaximum(s.pol.objectives, evs);
    var b := BindingViolation(s.pol.objectives, evs);
    if b.Some? {
      BindsErased(s.pol.objectives, evs, b.value);
    } else {
      var xs := Map(Erase, evs);
      forall x | x in xs ensures !Degrading(x) {
        var i :| 0 <= i < |xs| && xs[i] == x;
        OutranksErased(s.pol.objectives, evs[i], evs[i]);
      }
    }
  }

  lemma AssessedToo(s: GovState, p: seq<Objective>, t: GovState, q: seq<Objective>, now: int, x: Evaluation)
    requires forall o :: o in p ==> o in q
    requires forall o :: o in p ==> Assess(t, o, now) == Assess(s, o, now)
    requires x in AssessEnabled(s, p, now)
    ensures x in AssessEnabled(t, q, now)
  {
    hide Assess, AssessEnabled;
    AssessedMembers(s, p, now);
    AssessedMembers(t, q, now);
    var i :| 0 <= i < |p| && p[i].enabled && x == Assess(s, p[i], now);
    assert p[i] in p;
    var j :| 0 <= j < |q| && q[j] == p[i];
    assert q[j].enabled && x == Assess(t, q[j], now);
  }

  lemma SameAssessments(s: GovState, objectives: seq<Objective>, now: int)
    requires Reordered(s.pol.objectives, objectives)
    ensures forall x :: x in AssessEnabled(s, s.pol.objectives, now) <==>
      x in AssessEnabled(s.(pol := s.pol.(objectives := objectives)), objectives, now)
  {
    hide Assess, AssessEnabled;
    var t, p := s.(pol := s.pol.(objectives := objectives)), s.pol.objectives;
    forall o ensures Assess(t, o, now) == Assess(s, o, now) {
      AssessReordered(s, objectives, o, now);
    }
    forall x ensures x in AssessEnabled(s, p, now) <==> x in AssessEnabled(t, objectives, now) {
      if x in AssessEnabled(s, p, now) {
        AssessedToo(s, p, t, objectives, now, x);
      }
      if x in AssessEnabled(t, objectives, now) {
        AssessedToo(t, objectives, s, p, now, x);
      }
    }
  }

  lemma OneAssessment(s: GovState, objectives: seq<Objective>, now: int, a: Evaluation, b: Evaluation)
    requires DistinctIds(objectives) && a in AssessEnabled(s, objectives, now) && b in AssessEnabled(s, objectives, now)
    requires a.objective == b.objective
    ensures a == b
  {
    hide Assess;
    AssessedMembers(s, objectives, now);
    var i :| 0 <= i < |objectives| && objectives[i].enabled && a == Assess(s, objectives[i], now);
    var j :| 0 <= j < |objectives| && objectives[j].enabled && b == Assess(s, objectives[j], now);
    AssessHasNoId(s, objectives[i], now);
    AssessHasNoId(s, objectives[j], now);
  }

  /** The binding violation is canonical: putting the policy's objectives in another order
      changes neither whether a violation binds nor, apart from evaluation ids, which one. */
  lemma BindingIgnoresOrder(s: GovState, objectives: seq<Objective>, now: int)
    requires Reordered(s.pol.objectives, objectives) && !s.shuttingDown
    ensures var t := s.(pol := s.pol.(objectives := objectives));
      var a := BindingViolation(s.pol.objectives, EvaluateAll(s, now).1);
      var b := BindingViolation(objectives, EvaluateAll(t, now).1);
      && (a.Some? <==> b.Some?)
      && (a.Some? ==> Erase(a.value) == Erase(b.value))
  {
    hide EvaluateAll, AssessEnabled, Erase, Degrading, Outranks, BindingViolation;
    var t, p := s.(pol := s.pol.(objectives := objectives)), s.pol.objectives;
    var a := BindingViolation(p, EvaluateAll(s, now).1);
    var b := BindingViolation(objectives, EvaluateAll(t, now).1);
    BindingOfState(s, now);
    BindingOfState(t, now);
    SameAssessments(s, objectives, now);
    if a.Some? && b.Some? {
      BindsTransfer(p, objectives, AssessEnabled(s, p, now), AssessEnabled(t, objectives, now), Erase(a.value));
      BindingIsUnique(objectives, AssessEnabled(t, objectives, now), Erase(a.value), Erase(b.value));
      OneAssessment(t, objectives, now, Erase(a.value), Erase(b.value));
    }
  }

  // ---- the fallback, which follows the policy's order ----------------------------------------

  lemma {:induction false} FirstErased(evs: seq<Evaluation>)
    ensures FirstAtRisk(evs).Some? <==> FirstAtRisk(Map(Erase, evs)).Some?
    ensures FirstAtRisk(evs).Some? ==> Erase(FirstAtRisk(evs).value) == FirstAtRisk(Map(Erase, evs)).value
  {
    if evs != [] {
      FirstErased(evs[1..]);
      assert Map(Erase, evs)[1..] == Map(Erase, evs[1..]);
    }
  }

  lemma {:induction false} FirstAtRiskExists(evs: seq<Evaluation>)
    ensures FirstAtRisk(evs).Some? <==> exists i :: 0 <= i < |evs| && evs[i].state.AtRisk?
    ensures FirstAtRisk(evs).Some? ==> FirstAtRisk(evs).value in evs && FirstAtRisk(evs).value.state.AtRisk?
  {
    if evs != [] {
      FirstAtRiskExists(evs[1..]);
      if i :| 0 <= i < |evs| && evs[i].state.AtRisk? {
        assert i > 0 ==> evs[1..][i - 1] == evs[i];
      }
    }
  }

  predicate Violated(xs: seq<Evaluation>) {
    exists i :: 0 <= i < |xs| && Degrading(xs[i])
  }

  /** The binding evaluation without its ids, from assessments alone. */
  ghost predicate BindsFrom(objectives: seq<Objective>, xs: seq<Evaluation>, b: Option<Evaluation>) {
    if Violated(xs) then b.Some? && Binds(objectives, xs, Erase(b.value))
    else (b.Some? <==> FirstAtRisk(xs).Some?) && (b.Some? ==> Erase(b.value) == FirstAtRisk(xs).value)
  }

  lemma BindingFromAssessments(s: GovState, now: int)
    requires DistinctIds(s.pol.objectives) && !s.shuttingDown
    ensures BindsFrom(s.pol.objectives, AssessEnabled(s, s.pol.objectives, now),
      Binding(s.pol.objectives, EvaluateAll(s, now).1))
  {
    hide EvaluateMany, Assess, AssessEnabled, Erase, Degrading, Outranks, Binds, BindingViolation;
    var p, evs := s.pol.objectives, EvaluateAll(s, now).1;
    ListedAll(s);
    EvaluationsCommute(s, p, now);
    BindingOfState(s, now);
    FirstErased(evs);
    var xs := AssessEnabled(s, p, now);
    var violation := BindingViolation(p, evs);
    if violation.Some? {
      DegradingMember(p, xs, Erase(violation.value));
    } else {
      forall i | 0 <= i < |xs| ensures !Degrading(xs[i]) {
        assert xs[i] in xs;
      }
    }
  }

  lemma DegradingMember(objectives: seq<Objective>, xs: seq<Evaluation>, b: Evaluation)
    requires Binds(objectives, xs, b)
    ensures Violated(xs)
  {
    var i :| 0 <= i < |xs| && xs[i] == b;
    assert Degrading(xs[i]);
  }

  /** The policy with its objectives in another order. */
  function WithOrder(s: GovState, objectives: seq<Objective>): GovState {
    s.(pol := s.pol.(objectives := objectives))
  }

  /** Both orders bind the same evaluation, up to evaluation ids, or none. */
  ghost predicate SameBinding(s: GovState, objectives: seq<Objective>, now: int) {
    var a := Binding(s.pol.objectives, EvaluateAll(s, now).1);
    var b := Binding(objectives, EvaluateAll(WithOrder(s, objectives), now).1);
    (a.Some? <==> b.Some?) && (a.Some? ==> Erase(a.value) == Erase(b.value))
  }

  /** Some enabled objective is violated, or at most one is at risk. */
  ghost predicate ClearCut(s: GovState, now: int) {
    var xs := AssessEnabled(s, s.pol.objectives, now);
    || Violated(xs)
    || (forall x, y :: x in xs && y in xs && x.state.AtRisk? && y.state.AtRisk? ==> x == y)
  }

  lemma SameBindingWhenClear(s: GovState, objectives: seq<Objective>, now: int)
    requires Reordered(s.pol.objectives, objectives) && !s.shuttingDown && ClearCut(s, now)
    ensures SameBinding(s, objectives, now)
  {
    hide EvaluateAll, AssessEnabled, Erase, Degrading, Outranks, BindingViolation, Binding, FirstAtRisk, Violated;
    var t, p := WithOrder(s, objectives), s.pol.objectives;
    var xs, ys := AssessEnabled(s, p, now), AssessEnabled(t, objectives, now);
    var a, b := Binding(p, EvaluateAll(s, now).1), Binding(objectives, EvaluateAll(t, now).1);
    BindingFromAssessments(s, now);
    BindingFromAssessments(t, now);
    SameAssessments(s, objectives, now);
    SameDegrading(xs, ys);
    if Violated(xs) {
      BindsTransfer(p, objectives, xs, ys, Erase(a.value));
      BindingIsUnique(objectives, ys, Erase(a.value), Erase(b.value));
      OneAssessment(t, objectives, now, Erase(a.value), Erase(b.value));
    } else {
      SameAtRisk(xs, ys);
    }
  }

  lemma SameDegrading(xs: seq<Evaluation>, ys: seq<Evaluation>)
    requires forall x :: x in xs <==> x in ys
    ensures Violated(xs) <==> Violated(ys)
  {
    hide Degrading;
    if i :| 0 <= i < |xs| && Degrading(xs[i]) {
      assert xs[i] in ys;
    }
    if i :| 0 <= i < |ys| && Degrading(ys[i]) {
      assert ys[i] in xs;
    }
  }

  lemma SameAtRisk(xs: seq<Evaluation>, ys: seq<Evaluation>)
    requires forall x :: x in xs <==> x in ys
    requires forall x, y :: x in xs && y in xs && x.state.AtRisk? && y.state.AtRisk? ==> x == y
    ensures FirstAtRisk(xs) == FirstAtRisk(ys)
  {
    FirstAtRiskExists(xs);
    FirstAtRiskExists(ys);
    if i :| 0 <= i < |xs| && xs[i].state.AtRisk? {
      assert xs[i] in ys;
    }
    if i :| 0 <= i < |ys| && ys[i].state.AtRisk? {
      assert ys[i] in xs;
    }
  }

  lemma {:induction false} AssessFirst(s: GovState, o: Objective, rest: seq<Objective>, now: int)
    ensures AssessEnabled(s, [o] + rest, now)
      == (if o.enabled then [Assess(s, o, now)] else []) + AssessEnabled(s, rest, now)
  {
    hide Assess;
    if rest == [] {
      assert [o] + rest == [o];
      assert ([o] + rest)[..0] == [];
    } else {
      AssessFirst(s, o, rest[..|rest| - 1], now);
      assert ([o] + rest)[..|rest|] == [o] + rest[..|rest| - 1];
    }
  }

  function ToFront(p: seq<Objective>, i: nat): seq<Objective>
    requires i < |p|
  {
    [p[i]] + (p[..i] + p[i + 1..])
  }

  lemma FrontReordered(p: seq<Objective>, i: nat)
    requires DistinctIds(p) && i < |p|
    ensures Reordered(p, ToFront(p, i))
  {
    var q := ToFront(p, i);
    forall j | 0 <= j < |q| ensures q[j] == p[if j == 0 then i else if j <= i then j - 1 else j] {
    }
    forall j | 0 <= j < |p| ensures p[j] == q[if j == i then 0 else if j < i then j + 1 else j] {
    }
    forall o ensures o in p <==> o in q {
      if o in p {
        var j :| 0 <= j < |p| && p[j] == o;
        assert q[if j == i then 0 else if j < i then j + 1 else j] == o;
      }
    }
  }

  /** An objective at risk that the policy lists first binds, if nothing is violated. */
  lemma FrontBinds(s: GovState, i: nat, now: int)
    requires DistinctIds(s.pol.objectives) && !s.shuttingDown && i < |s.pol.objectives|
    requires !Violated(AssessEnabled(s, s.pol.objectives, now))
    requires s.pol.objectives[i].enabled && Assess(s, s.pol.objectives[i], now).state.AtRisk?
    ensures var q := ToFront(s.pol.objectives, i);
      var b := Binding(q, EvaluateAll(WithOrder(s, q), now).1);
      b.Some? && Erase(b.value) == Assess(s, s.pol.objectives[i], now)
  {
    hide EvaluateAll, Assess, Erase, Degrading, Binding, ToFront, FirstAtRisk, Violated;
    var p, q := s.pol.objectives, ToFront(s.pol.objectives, i);
    var t := WithOrder(s, q);
    assert t.pol.objectives == q;
    FrontReordered(p, i);
    SameAssessments(s, q, now);
    var xs, ys := AssessEnabled(s, p, now), AssessEnabled(t, q, now);
    SameDegrading(xs, ys);
    AssessReordered(s, q, p[i], now);
    FrontAssessed(t, p, i, now);
    BindingFromAssessments(t, now);
    FallbackBinds(q, ys, Binding(q, EvaluateAll(t, now).1), Assess(t, p[i], now));
  }

  lemma FallbackBinds(objectives: seq<Objective>, xs: seq<Evaluation>, b: Option<Evaluation>, x: Evaluation)
    requires BindsFrom(objectives, xs, b) && !Violated(xs) && FirstAtRisk(xs) == Some(x)
    ensures b.Some? && Erase(b.value) == x
  {
    hide Degrading, Erase, FirstAtRisk, Violated;
  }

  lemma AtRiskAhead(x: Evaluation, rest: seq<Evaluation>)
    requires x.state.AtRisk?
    ensures FirstAtRisk([x] + rest) == Some(x)
  {
    assert ([x] + rest)[0] == x;
  }

  lemma FrontAssessed(t: GovState, p: seq<Objective>, i: nat, now: int)
    requires i < |p| && p[i].enabled && Assess(t, p[i], now).state.AtRisk?
    ensures FirstAtRisk(AssessEnabled(t, ToFront(p, i), now)) == Some(Assess(t, p[i], now))
  {
    hide Assess, AssessEnabled;
    var rest := p[..i] + p[i + 1..];
    AssessFirst(t, p[i], rest, now);
    AtRiskAhead(Assess(t, p[i], now), AssessEnabled(t, rest, now));
  }

  /** The order of the policy's objectives makes no difference to what a decision binds on if
      and only if some enabled objective is violated or at most one is at risk. */
  lemma OrderIrrelevantIff(s: GovState, now: int)
    requires DistinctIds(s.pol.objectives) && !s.shuttingDown
    ensures (forall q :: Reordered(s.pol.objectives, q) ==> SameBinding(s, q, now)) <==> ClearCut(s, now)
  {
    hide EvaluateAll, Assess, AssessEnabled, Erase, Degrading, Binding, Reordered, ToFront, Violated;
    var p := s.pol.objectives;
    if ClearCut(s, now) {
      forall q | Reordered(p, q) ensures SameBinding(s, q, now) {
        SameBindingWhenClear(s, q, now);
      }
    } else {
      var xs := AssessEnabled(s, p, now);
      var x, y :| x in xs && y in xs && x.state.AtRisk? && y.state.AtRisk? && x != y;
      AssessedMembers(s, p, now);
      var i :| 0 <= i < |p| && p[i].enabled && x == Assess(s, p[i], now);
      var j :| 0 <= j < |p| && p[j].enabled && y == Assess(s, p[j], now);
      FrontReordered(p, i);
      FrontReordered(p, j);
      FrontBinds(s, i, now);
      FrontBinds(s, j, now);
      assert !SameBinding(s, ToFront(p, i), now) || !SameBinding(s, ToFront(p, j), now);
    }
  }

  // ---- only a cooldown stops a decision --------------------------------------------------------

  /** What a just-taken evaluation guarantees to authorization. */
  ghost predicate Actionable(s: GovState, ev: Evaluation) {
    var found := FindObjective(s.pol.objectives, ev.objective);
    && found.Some? && found.value.enabled
    && ev.authority == CurrentAuthority(s, found.value)
    && (CallsForAction(ev) ==> ev.sufficiency.Sufficient?)
    && (ev.selected != NoAction ==> CallsForAction(ev) && InfeasibilityOf(ev.selected, s.facts) == Feasible)
  }

  lemma ActionableStays(s: GovState, t: GovState, ev: Evaluation)
    requires Actionable(s, ev) && SameSettings(s, t)
    ensures Actionable(t, ev)
  {
    hide FindObjective, InfeasibilityOf;
  }

  lemma SelectedIsFeasible(causes: seq<TailCause>, observed: int, recovered: int, f: Facts)
    ensures var c := Select(causes, observed, recovered, f);
      c.selected != NoAction ==> InfeasibilityOf(c.selected, f) == Feasible
  {
    hide Choose, CandidatesForCause, InfeasibilityOf, EffectTenths;
    CandidatesAct(DominantCause(causes));
    SelectionIsOptimal(CandidatesForCause(DominantCause(causes)), f, Excess(observed, recovered));
  }

  lemma AssessmentActionable(s: GovState, o: Objective, now: int, id: nat, generation: nat)
    requires FindObjective(s.pol.objectives, o.id) == Some(o) && o.enabled
    ensures Actionable(s, Assess(s, o, now).(id := id, generation := generation))
  {
    hide SortWindow, Decompose, Select, ReportedSet, Observe, IsStale, InfeasibilityOf, RecoveryThreshold,
      CurrentAuthority;
    var w := EvaluatedWindow(s, o, now);
    var observed := ObservedValue(s, o, w);
    SelectedIsFeasible(Decompose(w.samples, observed).causes, observed, RecoveryThreshold(s.cfg, o), s.facts);
  }

  lemma {:induction false} EvaluationsActionable(s: GovState, objectives: seq<Objective>, now: int)
    ensures forall i :: 0 <= i < |EvaluateMany(s, objectives, now).1| ==>
      Actionable(s, EvaluateMany(s, objectives, now).1[i])
  {
    hide Evaluate, Actionable, At, RunOps, SameSettings;
    if objectives != [] {
      var init, o := objectives[..|objectives| - 1], objectives[|objectives| - 1];
      EvaluationsActionable(s, init, now);
      if o.enabled {
        var mid := EvaluateMany(s, init, now).0;
        EvaluateManyAt(s, init, now, WindowKey(0, 0));
        FenceSettings(s, mid);
        SettingsBack(s, mid);
        var r := Evaluate(mid, o.id, now).1;
        if r.Ok? {
          EvaluateActionable(mid, o.id, now);
          ActionableStays(mid, s, r.value);
        }
      }
    }
  }

  lemma SettingsBack(s: GovState, t: GovState)
    requires SameSettings(s, t)
    ensures SameSettings(t, s)
  {
  }

  lemma EvaluateActionable(s: GovState, id: nat, now: int)
    requires Evaluate(s, id, now).1.Ok?
    ensures Actionable(s, Evaluate(s, id, now).1.value)
  {
    hide Assess, StateOf, SufficiencyOf, SortWindow, Actionable;
    var o := Evaluated(s, id).value;
    AssessmentActionable(s, o, now, s.nextEval, s.nextEval + 1);
  }

  lemma BindingMember(objectives: seq<Objective>, evs: seq<Evaluation>)
    ensures Binding(objectives, evs).Some? ==>
      Binding(objectives, evs).value in evs && CallsForAction(Binding(objectives, evs).value)
  {
    hide Outranks;
    BindingIsMaximum(objectives, evs);
    FirstAtRiskExists(evs);
  }

  /** Once a decision has a binding evaluation with an intervention to take, it acts if and
      only if the objective's cooldown is not active; and then the intervention it records is
      authorised under the current authority. */
  lemma OnlyCooldownStopsDecision(s: GovState, now: int)
    requires !s.shuttingDown
    ensures var (after, evs) := EvaluateAll(s, now);
      var b := Binding(s.pol.objectives, evs);
      b.Some? && b.value.selected != NoAction ==>
        var o := FindObjective(s.pol.objectives, b.value.objective);
        var d := Decide(s, now).1.value;
        && o.Some?
        && (d.wouldAct <==> !CooldownActive(after, o.value, now))
        && (!d.wouldAct ==> Decide(s, now).0 == after && d.intervention == None)
        && (d.wouldAct ==>
              && d.intervention.Some?
              && d.intervention.value.status == Authorized && d.intervention.value.kind == b.value.selected
              && d.intervention.value.authority == CurrentAuthority(s, o.value)
              && d.intervention.value.id in Decide(s, now).0.interventions
              && Decide(s, now).0.interventions[d.intervention.value.id] == d.intervention.value)
  {
    hide EvaluateMany, Binding, Actionable, CooldownActive, At, RunOps, WithReason;
    var (after, evs) := EvaluateAll(s, now);
    var b := Binding(s.pol.objectives, evs);
    EvaluateManyAt(s, s.pol.objectives, now, WindowKey(0, 0));
    FenceSettings(s, after);
    BindingMember(s.pol.objectives, evs);
    if b.Some? && b.value.selected != NoAction {
      EvaluationsActionable(s, s.pol.objectives, now);
      var i :| 0 <= i < |evs| && evs[i] == b.value;
      ProposalVerdict(s, after, b.value, now);
    }
  }

  lemma ProposalVerdict(s: GovState, after: GovState, b: Evaluation, now: int)
    requires SameSettings(s, after) && !s.shuttingDown && Actionable(s, b) && b.selected != NoAction
    ensures var o := FindObjective(s.pol.objectives, b.objective);
      && o.Some? && b.sufficiency.Sufficient? && b.authority == CurrentAuthority(s, o.value)
      && AuthorizeVerdict(after, Proposal(after, b, now), now)
         == if CooldownActive(after, o.value, now) then InvalidInput else Success
  {
    hide FindObjective, InfeasibilityOf, LastDominantCause, CooldownActive;
  }
}
