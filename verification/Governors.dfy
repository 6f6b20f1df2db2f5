/** The governor as the source builds it: an object whose tables and windows its public calls
    update in place. Every method is proved to do what the state machine says. */
module Governors {
  import opened Basics
  import opened Domain
  import opened Quantiles
  import opened Windows
  import opened Attribution
  import opened Selection
  import opened StateFiles
  import opened StateFileIO
  import opened Transitions

  class TailGovernor {
    const cfg: Config
    var epoch: nat
    var pol: Policy
    var facts: Facts
    var gens: Generations
    var boots: map<int, nat>
    var windows: map<WindowKey, ObservationWindow>
    var seen: map<int, nat>
    var interventions: map<int, Intervention>
    var lastIntervention: map<int, int>
    var lastState: map<int, TailState>
    var streak: map<int, nat>
    var reval: map<int, bool>
    var outcomes: map<int, PostOutcome>
    var evaluations: seq<Evaluation>
    var shuttingDown: bool
    var nextEval: nat
    var nextInt: nat

    /** No two keys share a window. */
    ghost predicate Valid()
      reads this`windows
    {
      forall j, k :: j in windows && k in windows && j != k ==> windows[j] != windows[k]
    }

    ghost function Views(): map<WindowKey, Window>
      reads this`windows, windows.Values
    {
      map k | k in windows :: windows[k].State()
    }

    ghost function State(): GovState
      reads this, windows.Values
    {
      GovState(cfg, epoch, pol, facts, gens, boots, Views(), seen, interventions, lastIntervention,
               lastState, streak, reval, outcomes, evaluations, shuttingDown, nextEval, nextInt)
    }

    lemma PolicyInForce()
      requires Valid()
      ensures State().pol == pol
    {
    }

    constructor (cfg: Config, epoch: nat)
      ensures Valid() && State() == InitialState(cfg, epoch) && windows == map[]
    {
      this.cfg, this.epoch := cfg, epoch;
      pol, facts, gens := Policy(0, 0, []), DEFAULT_FACTS, Generations(0, 0, 0, 0, 0, 0);
      boots, windows, seen, interventions := map[], map[], map[], map[];
      lastIntervention, lastState, streak, reval := map[], map[], map[], map[];
      outcomes, evaluations, shuttingDown, nextEval, nextInt := map[], [], false, 1, 1;
    }

    // ---- settings ------------------------------------------------------------------------

    method RegisterWorker(worker: nat, boot: nat) returns (status: StatusCode)
      requires Valid()
      modifies this`boots
      ensures Valid()
        && State() == (if shuttingDown then old(State()) else old(State()).(boots := old(boots)[worker := boot]))
      ensures status == (if shuttingDown then ShuttingDown else Success)
    {
      if shuttingDown {
        return ShuttingDown;
      }
      boots := boots[worker := boot];
      return Success;
    }

    method UnregisterWorker(worker: nat) returns (status: StatusCode)
      requires Valid()
      modifies this`boots
      ensures Valid() && State() == old(State()).(boots := old(boots) - {worker}) && status == Success
    {
      boots := boots - {worker};
      return Success;
    }

    method SetPolicy(policy: Policy)
      requires Valid()
      modifies this`pol
      ensures Valid() && State() == old(State()).(pol := policy)
    {
      pol := policy;
    }

    method SetGenerations(gens: Generations)
      requires Valid()
      modifies this`gens
      ensures Valid() && State() == old(State()).(gens := gens)
    {
      this.gens := gens;
    }

    method SetResourceFacts(facts: Facts)
      requires Valid()
      modifies this`facts
      ensures Valid() && State() == old(State()).(facts := facts)
    {
      this.facts := facts;
    }

    method AdvanceEpoch()
      requires Valid()
      modifies this`epoch, this`reval, this`windows, this`seen
      ensures Valid() && State() == Transitions.AdvanceEpoch(old(State())) && windows == map[]
    {
      hide Marked, Views, Valid;
      epoch := epoch + 1;
      reval := MarkAll(pol.objectives, reval);
      ForgetEvidence();
    }

    method ForgetEvidence()
      requires Valid()
      modifies this`windows, this`seen
      ensures Valid() && windows == map[]
      ensures State() == old(State()).(windows := map[], seen := map[])
    {
      windows, seen := map[], map[];
    }

    method BeginShutdown()
      requires Valid()
      modifies this`shuttingDown
      ensures Valid() && State() == old(State()).(shuttingDown := true)
    {
      shuttingDown := true;
    }

    // ---- evidence ------------------------------------------------------------------------

    method EnsureWindow(objective: nat, requestClass: nat) returns (w: ObservationWindow)
      requires Valid()
      modifies this`windows
      ensures Valid() && fresh(windows.Values - old(windows.Values))
      ensures WindowKey(objective, requestClass) in windows && w == windows[WindowKey(objective, requestClass)]
      ensures fresh(w) || w in old(windows.Values)
      ensures w.State() == EnsuredWindow(old(State()), objective, requestClass)
      ensures Views() == old(Views())[WindowKey(objective, requestClass) := w.State()]
      ensures State() == old(State()).(windows := Views())
    {
      hide FindObjective, Views, Valid;
      var key := WindowKey(objective, requestClass);
      if key in windows {
        ViewOf(key);
        return windows[key];
      }
      NoViewOf(key);
      var config := DEFAULT_WINDOW;
      match FindObjective(pol.objectives, objective) {
        case None =>
        case Some(o) => config := o.window;
      }
      w := AddWindow(key, config);
    }

    lemma ViewOf(key: WindowKey)
      requires Valid() && key in windows
      ensures windows[key] in windows.Values && key in Views() && Views()[key] == windows[key].State()
      ensures Views() == Views()[key := windows[key].State()]
    {
    }

    lemma NoViewOf(key: WindowKey)
      requires Valid() && key !in windows
      ensures key !in Views()
    {
    }

    method AddWindow(key: WindowKey, config: WindowConfig) returns (w: ObservationWindow)
      requires Valid() && key !in windows
      modifies this`windows
      ensures Valid() && fresh(windows.Values - old(windows.Values)) && fresh(w)
      ensures key in windows && w == windows[key] && w.State() == NewWindow(config)
      ensures Views() == old(Views())[key := w.State()]
    {
      w := new ObservationWindow(config);
      windows := windows[key := w];
    }

    method InsertInto(objective: nat, requestClass: nat, sample: TailSample)
      requires Valid()
      modifies this`windows, windows.Values
      ensures Valid() && fresh(windows.Values - old(windows.Values))
      ensures State() == InsertAt(old(State()), objective, requestClass, sample)
    {
      hide WindowConfigFor, FindObjective, Views, Valid, EnsuredWindow, InsertSample;
      var _ := EnsureWindow(objective, requestClass);
      InsertInKey(WindowKey(objective, requestClass), sample);
    }

    method InsertInKey(key: WindowKey, sample: TailSample)
      requires Valid() && key in windows
      modifies windows[key]
      ensures Valid()
      ensures State() == old(State()).(windows := old(Views())[key := InsertSample(old(windows[key].State()), sample)])
    {
      var _ := windows[key].Insert(sample);
    }

    method IngestFor(o: Objective, sample: TailSample)
      requires Valid()
      modifies this`windows, this`reval, windows.Values
      ensures Valid() && fresh(windows.Values - old(windows.Values))
      ensures State() == IngestOne(old(State()), o, sample)
    {
      hide Views, Valid, InsertAt;
      if o.enabled {
        InsertInto(o.id, 0, sample);
        if sample.requestClass != 0 {
          InsertInto(o.id, sample.requestClass, sample);
        }
        reval := reval[o.id := false];
      }
    }

    method IngestSample(sample: TailSample)
      requires Valid()
      modifies this`windows, this`reval, windows.Values
      ensures Valid() && fresh(windows.Values - old(windows.Values))
      ensures State() == IngestInto(old(State()), pol.objectives, sample)
    {
      hide Views, Valid, IngestOne;
      ghost var s := State();
      for i := 0 to |pol.objectives|
        invariant Valid() && fresh(windows.Values - old(windows.Values))
        invariant State() == IngestInto(s, pol.objectives[..i], sample)
      {
        assert pol.objectives[..i + 1][..i] == pol.objectives[..i];
        IngestFor(pol.objectives[i], sample);
      }
      assert pol.objectives[..|pol.objectives|] == pol.objectives;
    }

    /** The checks of ingestion, in their order; an accepted completion comes back with its
        total. */
    method Admit(ev: RequestLatency) returns (verdict: StatusCode, total: int)
      requires Valid()
      ensures verdict == IngestVerdict(State(), ev)
      ensures verdict == Success ==> TotalOf(ev) == Ok(total)
    {
      hide Views, Valid, PhasesFit;
      total := 0;
      if shuttingDown {
        return ShuttingDown, total;
      }
      if ev.epoch != epoch {
        return StaleAuthority, total;
      }
      if ev.serviceGeneration != cfg.serviceGeneration {
        return StaleAuthority, total;
      }
      if ev.workloadGeneration != cfg.workloadGeneration {
        return StaleAuthority, total;
      }
      if ev.worker !in boots {
        return StaleAuthority, total;
      }
      if boots[ev.worker] != ev.workerBoot {
        return StaleAuthority, total;
      }
      if !ev.IsAuthoritativeCompletion() {
        return InvalidInput, total;
      }
      if ev.requestId in seen {
        return InvalidInput, total;
      }
      var resolved := if ev.total > 0 then Ok(ev.total) else ev.ResolvedTotal();
      if resolved.Err? {
        return resolved.error, total;
      }
      total := resolved.value;
      var fit := Reconcile(ev.phases, total);
      verdict := if fit then Success else InvalidInput;
    }

    method Ingest(ev: RequestLatency) returns (status: StatusCode)
      requires Valid()
      modifies this`windows, this`reval, this`seen, windows.Values
      ensures Valid() && fresh(windows.Values - old(windows.Values))
      ensures var next := Transitions.Ingest(old(State()), ev); State() == next.0 && status == next.1
    {
      hide Views, Valid, IngestInto, IngestVerdict, TotalOf;
      var verdict, total := Admit(ev);
      if verdict != Success {
        return verdict;
      }
      var sample := TailSample(total, if ev.captured > 0 then ev.captured else ev.completion, ev.arrival, ev.phases,
                               ev.requestClass, ev.workerBoot, ev.epoch, ev.retryCount);
      IngestSample(sample);
      seen := seen[ev.requestId := ev.evidenceGeneration];
      return Success;
    }

    method SortInKey(key: WindowKey, now: int) returns (sorted: seq<int>)
      requires Valid() && key in windows
      modifies windows[key]
      ensures Valid() && Views() == old(Views())[key := SortWindow(old(windows[key].State()), now)]
      ensures windows[key].State() == SortWindow(old(windows[key].State()), now) && sorted == windows[key].sorted
    {
      sorted := windows[key].Sorted(now);
    }

    method DecomposeInKey(key: WindowKey, now: int, cutoff: int) returns (d: Decomposition)
      requires Valid() && key in windows
      requires PruneWindow(windows[key].State(), now) == windows[key].State()
      modifies windows[key]
      ensures Valid() && Views() == old(Views()) && windows[key].State() == old(windows[key].State())
      ensures d == Decompose(windows[key].samples, cutoff)
    {
      hide PruneWindow, Decompose;
      var contributions, causes := DecomposeTail(windows[key], now, cutoff);
      d := Decomposition(contributions, causes);
    }

    /** Moves an objective to its new state. */
    method Classify(o: Objective, sufficiency: Sufficiency, observed: int, recovered: int) returns (state: TailState)
      requires o.id in reval
      modifies this`lastState, this`streak
      ensures var judged := Judge(GetOr(old(lastState), o.id, Healthy), GetOr(old(streak), o.id, 0), observed, o.target,
        recovered);
        state == (if reval[o.id] then RevalidationRequired
                  else if sufficiency.StaleEvidence? then TailState.Stale
                  else if sufficiency.InsufficientSamples? then InsufficientEvidence
                  else judged.0)
        && streak == (if reval[o.id] || sufficiency.StaleEvidence? || sufficiency.InsufficientSamples? then old(streak)
                      else old(streak)[o.id := judged.1])
      ensures lastState == old(lastState)[o.id := state]
    {
      var prev := GetOr(lastState, o.id, Healthy);
      if reval[o.id] {
        state := RevalidationRequired;
      } else if sufficiency.StaleEvidence? {
        state := TailState.Stale;
      } else if sufficiency.InsufficientSamples? {
        state := InsufficientEvidence;
      } else {
        var degraded := prev == Violating || prev == Severe || prev == AtRisk || prev == Recovering;
        var run := GetOr(streak, o.id, 0);
        if observed >= o.target {
          run := 0;
          state := if observed >= 2 * o.target then Severe else Violating;
        } else if observed > recovered {
          run := 0;
          state := AtRisk;
        } else if degraded {
          run := run + 1;
          state := if run >= 2 then Healthy else Recovering;
        } else {
          run := 0;
          state := Healthy;
        }
        streak := streak[o.id := run];
      }
      lastState := lastState[o.id := state];
    }

    /** Brings the objective's window up to date. */
    method Prepare(o: Objective, now: int) returns (sorted: seq<int>)
      requires Valid()
      modifies this`windows, this`reval, windows.Values
      ensures Valid() && fresh(windows.Values - old(windows.Values))
      ensures Views() == old(Views())[KeyOf(o) := EvaluatedWindow(old(State()), o, now)]
      ensures reval == old(reval)[o.id := GetOr(old(reval), o.id, false)]
      ensures KeyOf(o) in windows && windows[KeyOf(o)].State() == EvaluatedWindow(old(State()), o, now)
      ensures fresh(windows[KeyOf(o)]) || windows[KeyOf(o)] in old(windows.Values)
      ensures sorted == windows[KeyOf(o)].sorted
    {
      hide State, Views, Valid, EnsuredWindow, SortWindow;
      var _ := EnsureWindow(o.id, o.Scope());
      sorted := SortInKey(KeyOf(o), now);
      reval := reval[o.id := GetOr(reval, o.id, false)];
    }

    /** Takes the measurements, classifies, attributes and selects. */
    method Judged(o: Objective, sorted: seq<int>, now: int) returns (ev: Evaluation)
      requires Valid() && KeyOf(o) in windows && o.id in reval && sorted == windows[KeyOf(o)].sorted
      requires PruneWindow(windows[KeyOf(o)].State(), now) == windows[KeyOf(o)].State()
      requires EvaluatedWindow(State(), o, now) == windows[KeyOf(o)].State()
      modifies windows[KeyOf(o)], this`lastState, this`streak
      ensures Valid() && Views() == old(Views())
      ensures ev == Assess(old(State()), o, now).(id := nextEval, generation := nextEval + 1)
      ensures lastState
        == old(lastState)[o.id := StateOf(old(State()), o, EvaluatedWindow(old(State()), o, now), now).0]
      ensures streak == StreakAfter(old(State()), o, now)
    {
      hide Views, Valid, Decompose, Select, ReportedSet, LatestCaptured, Judge, EvaluatedWindow, RecoveryThreshold,
        EffectiveMinSamples, PruneWindow, SufficiencyOf, ObservedValue, CurrentAuthority;
      ghost var s, w := State(), windows[KeyOf(o)].State();
      var latest := windows[KeyOf(o)].LatestCapturedNs();
      var authority := CurrentAuthorityOf(o);
      var recovered, required := RecoveryThreshold(cfg, o), EffectiveMinSamples(cfg, o);
      var observed, sufficiency := Measure(cfg, reval[o.id], o, sorted, latest, now);
      Measured(s, o, w, now);
      var state := Classify(o, sufficiency, observed, recovered);
      var decomposition := DecomposeInKey(KeyOf(o), now, observed);
      var choice := SelectIntervention(decomposition.causes, observed, recovered, facts);
      ev := Evaluation(nextEval, nextEval + 1, o.id, o.generation, o.percentile, state, sufficiency,
                       o.target, recovered, observed, ReportedSet(sorted),
                       |windows[KeyOf(o)].samples|, required, now - o.window.duration, now, latest, decomposition,
                       choice, ActionFor(state, choice), authority, reval[o.id]);
    }

    method Reclassify(o: Objective, sorted: seq<int>, now: int) returns (ev: Evaluation)
      requires Valid() && KeyOf(o) in windows && o.id in reval && sorted == windows[KeyOf(o)].sorted
      requires PruneWindow(windows[KeyOf(o)].State(), now) == windows[KeyOf(o)].State()
      requires EvaluatedWindow(State(), o, now) == windows[KeyOf(o)].State()
      modifies windows[KeyOf(o)], this`lastState, this`streak
      ensures Valid()
      ensures ev == Assess(old(State()), o, now).(id := nextEval, generation := nextEval + 1)
      ensures State() == old(State()).(
        lastState := old(lastState)[o.id := StateOf(old(State()), o, EvaluatedWindow(old(State()), o, now), now).0],
        streak := StreakAfter(old(State()), o, now))
    {
      hide Views, Valid, Assess, EvaluatedWindow, StateOf, PruneWindow, StreakAfter;
      ev := Judged(o, sorted, now);
    }

    method Record(ev: Evaluation)
      requires Valid()
      modifies this`evaluations, this`nextEval
      ensures Valid() && State() == old(State()).(evaluations := old(evaluations) + [ev], nextEval := old(nextEval) + 1)
    {
      hide Views, Valid;
      evaluations := evaluations + [ev];
      nextEval := nextEval + 1;
    }

    method PrepareAndJudge(o: Objective, now: int) returns (ev: Evaluation)
      requires Valid()
      modifies this`windows, this`reval, this`lastState, this`streak, windows.Values
      ensures Valid() && fresh(windows.Values - old(windows.Values))
      ensures ev == Assess(old(State()), o, now).(id := nextEval, generation := nextEval + 1)
      ensures State() == Reclassified(old(State()), o, now)
    {
      hide Views, Valid, Assess, EvaluatedWindow, StateOf, PruneWindow, StreakAfter;
      ghost var s := State();
      PreparedAssess(s, o, now);
      var sorted := Prepare(o, now);
      assert State() == Prepared(s, o, now);
      ev := Reclassify(o, sorted, now);
    }

    /** Judges an enabled objective. */
    method EvaluateActive(o: Objective, now: int) returns (ev: Evaluation)
      requires Valid()
      modifies this`windows, this`reval, this`lastState, this`streak, this`evaluations, this`nextEval, windows.Values
      ensures Valid() && fresh(windows.Values - old(windows.Values))
      ensures var next := EvaluateObjective(old(State()), o, now); State() == next.0 && ev == next.1
    {
      hide Views, Valid, Assess, EvaluateObjective, Reclassified;
      EvaluatesTo(State(), o, now);
      ev := PrepareAndJudge(o, now);
      Record(ev);
    }

    method CurrentAuthorityOf(o: Objective) returns (a: Authority)
      ensures a == CurrentAuthority(State(), o)
    {
      a := NO_AUTHORITY.(epoch := epoch, service := cfg.service, serviceGeneration := cfg.serviceGeneration);
      a := a.(workload := cfg.workload, workloadGeneration := cfg.workloadGeneration);
      a := a.(policy := pol.id, policyGeneration := pol.generation, objective := o.id,
        objectiveGeneration := o.generation);
      a := a.(queueGeneration := Some(gens.queue), batchGeneration := Some(gens.batch),
        resourceGeneration := Some(gens.resource));
      a := a.(recoveryGeneration := Some(gens.recovery), topologyGeneration := Some(gens.topology));
      a := a.(engineIncarnation := Some(gens.engine));
    }

    method Evaluate(id: nat, now: int) returns (r: Result<Evaluation, StatusCode>)
      requires Valid()
      modifies this`windows, this`reval, this`lastState, this`streak, this`evaluations, this`nextEval, windows.Values
      ensures Valid() && fresh(windows.Values - old(windows.Values))
      ensures var next := Transitions.Evaluate(old(State()), id, now); State() == next.0 && r == next.1
    {
      hide Views, Valid, EvaluateObjective;
      if shuttingDown {
        return Err(ShuttingDown);
      }
      match FindObjective(pol.objectives, id) {
        case None => return Err(InvalidInput);
        case Some(o) =>
          if !o.enabled {
            return Err(ObjectiveInactive);
          }
          var ev := EvaluateActive(o, now);
          r := Ok(ev);
      }
    }

    /** Evaluates one more objective, if it is enabled. */
    method EvaluateNext(o: Objective, now: int, evs: seq<Evaluation>) returns (all: seq<Evaluation>)
      requires Valid()
      modifies this`windows, this`reval, this`lastState, this`streak, this`evaluations, this`nextEval, windows.Values
      ensures Valid() && fresh(windows.Values - old(windows.Values))
      ensures var next := EvaluatedNext(old(State()), o, now, evs); State() == next.0 && all == next.1
    {
      hide Views, Valid, Transitions.Evaluate;
      all := evs;
      if o.enabled {
        var r := Evaluate(o.id, now);
        if r.Ok? {
          all := all + [r.value];
        }
      }
    }

    method EvaluateAll(now: int) returns (evs: seq<Evaluation>)
      requires Valid()
      modifies this`windows, this`reval, this`lastState, this`streak, this`evaluations, this`nextEval, windows.Values
      ensures Valid() && fresh(windows.Values - old(windows.Values))
      ensures var next := Transitions.EvaluateAll(old(State()), now); State() == next.0 && evs == next.1
    {
      hide EvaluatedNext, EvaluateMany, State, Views, Valid;
      ghost var s := State();
      PolicyInForce();
      EvaluatedNone(s, now);
      evs := [];
      for i := 0 to |pol.objectives|
        invariant Valid() && fresh(windows.Values - old(windows.Values))
        invariant var next := EvaluateMany(s, pol.objectives[..i], now); State() == next.0 && evs == next.1
      {
        EvaluatedOneMore(s, pol.objectives, i, now);
        evs := EvaluateNext(pol.objectives[i], now, evs);
      }
      assert pol.objectives[..|pol.objectives|] == pol.objectives;
    }

    // ---- decision ------------------------------------------------------------------------

    method Decide(now: int) returns (r: Result<Decision, StatusCode>)
      requires Valid()
      modifies this`windows, this`reval, this`lastState, this`streak, this`evaluations, this`nextEval, windows.Values
      modifies this`nextInt, this`interventions, this`lastIntervention
      ensures Valid() && fresh(windows.Values - old(windows.Values))
      ensures var next := Transitions.Decide(old(State()), now); State() == next.0 && r == next.1
    {
      hide Views, Valid, Transitions.EvaluateAll, DecideOn;
      if shuttingDown {
        return Err(ShuttingDown);
      }
      var evs := EvaluateAll(now);
      var d := Choose(evs, now);
      r := Ok(d);
    }

    /** The decision on evaluations just taken. */
    method Choose(evs: seq<Evaluation>, now: int) returns (d: Decision)
      requires Valid()
      modifies this`nextInt, this`interventions, this`lastIntervention
      ensures Valid()
      ensures var next := DecideOn(old(State()), evs, now); State() == next.0 && d == next.1
    {
      hide Views, Valid, Acted, BindingViolation, FirstAtRisk, WithReason;
      var bind := WorstViolation(pol.objectives, evs);
      if bind.None? {
        bind := EarliestAtRisk(evs);
      }
      assert bind == Binding(pol.objectives, evs);
      if bind.None? {
        return Decision(if |evs| == 0 then None else Some(evs[0]), false, None, [], []);
      }
      var act, intervention := Act(bind.value, now);
      var rejected, infeasible := Alternatives(bind.value.choice.rejected);
      d := Decision(bind, act, intervention, rejected, infeasible);
      DecidesTo(old(State()), evs, now);
    }

    /** Proposes and authorizes what the binding evaluation selected. */
    method Act(bind: Evaluation, now: int) returns (act: bool, intervention: Option<Intervention>)
      requires Valid()
      modifies this`nextInt, this`interventions, this`lastIntervention
      ensures Valid()
      ensures var next := Acted(old(State()), bind, now);
        State() == next.0 && act == next.1.Ok? && intervention == Granted(next.1)
    {
      hide Views, Valid, Transitions.Authorize, LastDominantCause;
      act, intervention := false, None;
      if bind.selected != NoAction && bind.sufficiency.Sufficient? {
        var targetClass := 0;
        match FindObjective(pol.objectives, bind.objective) {
          case None =>
          case Some(o) => targetClass := o.Scope();
        }
        var cause := TargetCause(bind.decomposition.causes);
        var prop := Intervention(0, 0, bind.selected, Proposed, cause, targetClass, bind.authority, bind.objective,
                                 bind.objectiveGeneration, bind.choice.expectedReduction, Feasible, MODELLED_CONFIDENCE,
                                 now, now + EXPIRY);
        assert prop == Proposal(State(), bind, now);
        var ar := Authorize(prop, now);
        if ar.Ok? {
          act, intervention := true, Some(ar.value);
        }
      }
    }

    // ---- intervention lifecycle ----------------------------------------------------------

    /** The checks of authorisation, in their order. */
    method Clear(proposed: Intervention, now: int) returns (verdict: StatusCode)
      requires Valid()
      ensures verdict == AuthorizeVerdict(State(), proposed, now)
    {
      hide Views, Valid, InfeasibilityOf, CurrentAuthority;
      if shuttingDown {
        return ShuttingDown;
      }
      if proposed.kind == NoAction {
        return InvalidInput;
      }
      if proposed.status != Proposed {
        return InvalidInput;
      }
      var found := FindObjective(pol.objectives, proposed.objective);
      if found.None? || !found.value.enabled {
        return ObjectiveInactive;
      }
      var current := CurrentAuthorityOf(found.value);
      if !Same(proposed.authority, current) {
        return StaleAuthority;
      }
      if InfeasibilityOf(proposed.kind, facts) != Feasible {
        return InterventionInfeasible;
      }
      if proposed.objective in lastIntervention && found.value.coolDown > 0 {
        var elapsed := now - lastIntervention[proposed.objective];
        if elapsed < found.value.coolDown {
          return InvalidInput;
        }
      }
      return Success;
    }

    method Authorize(proposed: Intervention, now: int) returns (r: Result<Intervention, StatusCode>)
      requires Valid()
      modifies this`nextInt, this`interventions, this`lastIntervention
      ensures Valid() && var next := Transitions.Authorize(old(State()), proposed, now);
        State() == next.0 && r == next.1
    {
      hide Views, Valid, AuthorizeVerdict;
      var verdict := Clear(proposed, now);
      if verdict != Success {
        return Err(verdict);
      }
      var out := proposed.(status := Authorized);
      var next := nextInt;
      if out.id == 0 {
        out := out.(id := next);
        next := next + 1;
      }
      if out.generation == 0 {
        out := out.(generation := next);
      }
      out := out.(proposedAt := now);
      Enter(out, next, now);
      r := Ok(out);
    }

    method Enter(i: Intervention, next: nat, now: int)
      requires Valid()
      modifies this`nextInt, this`interventions, this`lastIntervention
      ensures Valid() && State() == old(State()).(nextInt := next, interventions := old(interventions)[i.id := i],
                                                  lastIntervention := old(lastIntervention)[i.objective := now])
    {
      hide Views, Valid;
      nextInt := next;
      interventions := interventions[i.id := i];
      lastIntervention := lastIntervention[i.objective := now];
    }

    method SetStatus(id: int, status: InterventionStatus)
      requires Valid() && id in interventions
      modifies this`interventions
      ensures Valid() && State() == WithStatus(old(State()), id, status)
    {
      interventions := interventions[id := interventions[id].(status := status)];
    }

    method Dispatch(id: int) returns (r: Result<Intervention, StatusCode>)
      requires Valid()
      modifies this`interventions
      ensures Valid() && var next := Transitions.Dispatch(old(State()), id); State() == next.0 && r == next.1
    {
      hide Views, Valid, InfeasibilityOf, CurrentAuthority;
      if shuttingDown {
        return Err(ShuttingDown);
      }
      if id !in interventions {
        return Err(InvalidInput);
      }
      if interventions[id].status != Authorized {
        return Err(InvalidInput);
      }
      var found := FindObjective(pol.objectives, interventions[id].objective);
      if found.None? || !found.value.enabled {
        SetStatus(id, Failed);
        return Err(ObjectiveInactive);
      }
      var current := CurrentAuthorityOf(found.value);
      if !Same(interventions[id].authority, current) {
        SetStatus(id, Superseded);
        return Err(StaleAuthority);
      }
      if InfeasibilityOf(interventions[id].kind, facts) != Feasible {
        SetStatus(id, Failed);
        return Err(InterventionInfeasible);
      }
      SetStatus(id, Dispatched);
      r := Ok(interventions[id]);
    }

    method Acknowledge(id: int) returns (status: StatusCode)
      requires Valid()
      modifies this`interventions
      ensures Valid() && var next := Transitions.Acknowledge(old(State()), id); State() == next.0 && status == next.1
    {
      if id !in interventions {
        return InvalidInput;
      }
      if interventions[id].status != Dispatched {
        return InvalidInput;
      }
      SetStatus(id, Acknowledged);
      return Success;
    }

    method RecordOutcome(id: int, outcome: PostOutcome) returns (recorded: PostOutcome)
      requires Valid()
      modifies this`interventions, this`outcomes
      ensures Valid() && var next := Transitions.RecordOutcome(old(State()), id, outcome);
        State() == next.0 && recorded == next.1
    {
      hide Views, Valid;
      if id !in interventions {
        return OutcomeUnknown;
      }
      if IsTerminal(interventions[id].status) {
        return OutcomeUnknown;
      }
      match outcome {
        case WasEffective => SetStatus(id, Effective);
        case PartiallyEffective => SetStatus(id, Ineffective);
        case WasIneffective => SetStatus(id, Ineffective);
        case WorsenedTail => SetStatus(id, Ineffective);
        case CreatedSecondaryViolation => SetStatus(id, Failed);
        case InsufficientPostActionEvidence => SetStatus(id, StatusUnknown);
        case OutcomeUnknown => SetStatus(id, StatusUnknown);
        case UnlistedOutcome(_) => SetStatus(id, interventions[id].status);
      }
      outcomes := outcomes[id := outcome];
      return outcome;
    }

    method Cancel(id: int) returns (status: StatusCode)
      requires Valid()
      modifies this`interventions
      ensures Valid() && var next := Transitions.Cancel(old(State()), id); State() == next.0 && status == next.1
    {
      if id !in interventions {
        return InvalidInput;
      }
      var before := interventions[id].status;
      if IsTerminal(before) {
        return Success;
      }
      if before == Proposed || before == Authorized || before == Dispatched {
        SetStatus(id, Cancelled);
        return Success;
      }
      return InvalidInput;
    }

    method Supersede(id: int) returns (status: StatusCode)
      requires Valid()
      modifies this`interventions
      ensures Valid() && var next := Transitions.Supersede(old(State()), id); State() == next.0 && status == next.1
    {
      if id !in interventions {
        return InvalidInput;
      }
      if IsTerminal(interventions[id].status) {
        return Success;
      }
      SetStatus(id, Superseded);
      return Success;
    }

    // ---- persistence -----------------------------------------------------------------------

    method Save() returns (file: seq<bv8>)
      ensures file == SaveFile(State())
    {
      hide StateFiles.Save;
      file := SaveState(epoch, Durable(pol, interventions, outcomes, reval, nextEval, nextInt));
    }

    method Load(file: seq<bv8>) returns (status: StatusCode)
      requires Valid()
      modifies this`pol, this`interventions, this`outcomes, this`reval, this`nextEval, this`nextInt
      ensures Valid() && var next := LoadFile(old(State()), file); State() == next.0 && status == next.1
    {
      hide Views, Valid, StateFiles.Load;
      var d;
      d, status := LoadState(Durable(pol, interventions, outcomes, reval, nextEval, nextInt), file);
      Restore(d);
    }

    method Restore(d: Durable)
      requires Valid()
      modifies this`pol, this`interventions, this`outcomes, this`reval, this`nextEval, this`nextInt
      ensures Valid() && State() == WithDurable(old(State()), d)
    {
      hide Views, Valid;
      SetPolicy(d.pol);
      RestoreTables(d);
      nextEval, nextInt := d.nextEval, d.nextInt;
    }

    method RestoreTables(d: Durable)
      requires Valid()
      modifies this`interventions, this`outcomes, this`reval
      ensures Valid()
      ensures State() == old(State()).(interventions := d.interventions, outcomes := d.outcomes, reval := d.reval)
    {
      hide Views, Valid;
      interventions, outcomes, reval := d.interventions, d.outcomes, d.reval;
    }
  }

  // ---- loops of the calls ------------------------------------------------------------------

  method MarkAll(objectives: seq<Objective>, reval: map<int, bool>) returns (marked: map<int, bool>)
    ensures marked == Marked(reval, objectives)
  {
    marked := reval;
    for i := 0 to |objectives|
      invariant marked == Marked(reval, objectives[..i])
    {
      assert objectives[..i + 1][..i] == objectives[..i];
      marked := marked[objectives[i].id := true];
    }
    assert objectives[..|objectives|] == objectives;
  }

  lemma {:induction false} FittingPrefix(phases: seq<PhaseLatency>, total: int, k: nat)
    requires k <= |phases| && PhasesFit(phases, total)
    ensures PhasesFit(phases[..k], total)
  {
    if k == |phases| {
      assert phases[..k] == phases;
    } else {
      FittingPrefix(phases[..|phases| - 1], total, k);
      assert phases[..|phases| - 1][..k] == phases[..k];
    }
  }

  /** Accepts the phases of a completion exactly when each is non-negative and no partial sum
      exceeds the total. */
  method Reconcile(phases: seq<PhaseLatency>, total: int) returns (fit: bool)
    ensures fit == PhasesFit(phases, total)
  {
    var phaseSum := 0;
    for i := 0 to |phases|
      invariant phaseSum == PhaseSum(phases[..i]) && PhasesFit(phases[..i], total)
    {
      assert phases[..i + 1][..i] == phases[..i];
      if phases[i].duration < 0 {
        if PhasesFit(phases, total) {
          FittingPrefix(phases, total, i + 1);
        }
        return false;
      }
      phaseSum := phaseSum + phases[i].duration;
      if phaseSum > total {
        if PhasesFit(phases, total) {
          FittingPrefix(phases, total, i + 1);
        }
        return false;
      }
    }
    assert phases[..|phases|] == phases;
    return true;
  }

  /** What the sorted window says about an objective. */
  method Measure(cfg: Config, revalidation: bool, o: Objective, sorted: seq<int>, latest: int, now: int)
    returns (observed: int, sufficiency: Sufficiency)
    ensures (observed, sufficiency) == Measurement(cfg, revalidation, o, sorted, latest, now)
  {
    hide ExactQuantile, EffectiveMinSamples;
    var age := if latest == 0 then 0 else now - latest;
    var stale := o.freshness > 0 && latest > 0 && age > o.freshness;
    observed := 0;
    var enough := |sorted| >= EffectiveMinSamples(cfg, o);
    if enough {
      match ExactQuantile(sorted, cfg.read(o.percentile)) {
        case None => enough := false;
        case Some(q) => observed := q;
      }
    }
    if revalidation {
      sufficiency := StaleEvidence;
    } else if stale {
      sufficiency := StaleEvidence;
    } else if |sorted| == 0 || !enough {
      sufficiency := InsufficientSamples;
    } else {
      sufficiency := Sufficient;
    }
  }

  ghost function Measurement(cfg: Config, revalidation: bool, o: Objective, sorted: seq<int>, latest: int, now: int)
    : (int, Sufficiency)
  {
    var q := if |sorted| >= EffectiveMinSamples(cfg, o) then ExactQuantile(sorted, cfg.read(o.percentile)) else None;
    (match q case None => 0 case Some(v) => v,
     if revalidation || IsStale(o, latest, now) then StaleEvidence
     else if |sorted| == 0 || q.None? then InsufficientSamples
     else Sufficient)
  }

  lemma Measured(s: GovState, o: Objective, w: Window, now: int)
    ensures Measurement(s.cfg, GetOr(s.reval, o.id, false), o, w.sorted, LatestCaptured(w.samples), now)
      == (ObservedValue(s, o, w), SufficiencyOf(s, o, w, now))
    ensures var e := SufficiencyOf(s, o, w, now); e.Sufficient? || e.StaleEvidence? || e.InsufficientSamples?
    ensures GetOr(s.reval, o.id, false) ==> SufficiencyOf(s, o, w, now).StaleEvidence?
  {
    hide ExactQuantile, EffectiveMinSamples, LatestCaptured;
  }

  ghost function EvaluatedNext(s: GovState, o: Objective, now: int, evs: seq<Evaluation>): (GovState, seq<Evaluation>) {
    if !o.enabled then (s, evs)
    else
      var (next, r) := Evaluate(s, o.id, now);
      (next, match r case Ok(ev) => evs + [ev] case Err(_) => evs)
  }

  lemma EvaluatedNone(s: GovState, now: int)
    ensures EvaluateMany(s, [], now).0 == s && EvaluateMany(s, [], now).1 == []
  {
  }

  lemma EvaluatedOneMore(s: GovState, objectives: seq<Objective>, i: nat, now: int)
    requires i < |objectives|
    ensures var before := EvaluateMany(s, objectives[..i], now);
      EvaluateMany(s, objectives[..i + 1], now) == EvaluatedNext(before.0, objectives[i], now, before.1)
  {
    hide Evaluate;
    assert objectives[..i + 1][..i] == objectives[..i];
  }

  function KeyOf(o: Objective): WindowKey {
    WindowKey(o.id, o.Scope())
  }

  /** The state once an evaluation has brought the objective's window up to date. */
  ghost function Prepared(s: GovState, o: Objective, now: int): GovState {
    s.(windows := s.windows[KeyOf(o) := EvaluatedWindow(s, o, now)],
      reval := s.reval[o.id := GetOr(s.reval, o.id, false)])
  }

  ghost function StreakAfter(s: GovState, o: Objective, now: int): map<int, nat> {
    var w := EvaluatedWindow(s, o, now);
    if SufficiencyOf(s, o, w, now).Sufficient? then s.streak[o.id := StateOf(s, o, w, now).1] else s.streak
  }

  ghost function Reclassified(s: GovState, o: Objective, now: int): GovState {
    Prepared(s, o, now).(lastState := s.lastState[o.id := StateOf(s, o, EvaluatedWindow(s, o, now), now).0],
                         streak := StreakAfter(s, o, now))
  }

  lemma EvaluatesTo(s: GovState, o: Objective, now: int)
    ensures var ev := Assess(s, o, now).(id := s.nextEval, generation := s.nextEval + 1);
      var next := EvaluateObjective(s, o, now);
      && next.0 == Reclassified(s, o, now).(evaluations := s.evaluations + [ev], nextEval := s.nextEval + 1)
      && next.1 == ev
  {
    hide Assess, EvaluatedWindow, StateOf, SufficiencyOf;
  }

  lemma SortedIsPruned(w: Window, now: int)
    ensures PruneWindow(SortWindow(w, now), now) == SortWindow(w, now) == SortWindow(SortWindow(w, now), now)
  {
    PruneIdempotent(w.cfg, now, w.samples);
  }

  /** Bringing the window up to date first changes nothing that an evaluation reports. */
  lemma PreparedAssess(s: GovState, o: Objective, now: int)
    ensures var w, next := EvaluatedWindow(s, o, now), Prepared(s, o, now);
      && PruneWindow(w, now) == w == EvaluatedWindow(next, o, now)
      && Assess(next, o, now) == Assess(s, o, now)
      && StateOf(next, o, w, now) == StateOf(s, o, w, now)
      && StreakAfter(next, o, now) == StreakAfter(s, o, now)
  {
    hide Decompose, Select, ReportedSet, LatestCaptured, Judge, RecoveryThreshold, EffectiveMinSamples, PruneWindow,
      SortWindow, ExactQuantile, WindowConfigFor, FindObjective;
    SortedIsPruned(EnsuredWindow(s, o.id, o.Scope()), now);
  }

  ghost function Acted(s: GovState, bind: Evaluation, now: int): (GovState, Result<Intervention, StatusCode>) {
    if bind.selected != NoAction && bind.sufficiency.Sufficient? then
      Transitions.Authorize(s, Proposal(s, bind, now), now)
    else (s, Err(InvalidInput))
  }

  function Granted(r: Result<Intervention, StatusCode>): Option<Intervention> {
    match r
    case Ok(i) => Some(i)
    case Err(_) => None
  }

  lemma DecidesTo(s: GovState, evs: seq<Evaluation>, now: int)
    ensures var d, bind := DecideOn(s, evs, now), Binding(s.pol.objectives, evs);
      bind.Some? ==>
        var next := Acted(s, bind.value, now);
        && d.0 == next.0
        && d.1 == Decision(bind, next.1.Ok?, Granted(next.1), WithReason(true, bind.value.choice.rejected),
                           WithReason(false, bind.value.choice.rejected))
  {
    hide Binding, WithReason, Transitions.Authorize, Proposal;
  }

  method Priorities(objectives: seq<Objective>, a: nat, b: nat) returns (p1: int, p2: int)
    ensures p1 == PriorityOf(objectives, a) && p2 == PriorityOf(objectives, b)
  {
    p1, p2 := 0, 0;
    for i := 0 to |objectives|
      invariant p1 == PriorityOf(objectives[..i], a) && p2 == PriorityOf(objectives[..i], b)
    {
      assert objectives[..i + 1][..i] == objectives[..i];
      if objectives[i].id == a {
        p1 := objectives[i].priority;
      }
      if objectives[i].id == b {
        p2 := objectives[i].priority;
      }
    }
    assert objectives[..|objectives|] == objectives;
  }

  method WorstViolation(objectives: seq<Objective>, evs: seq<Evaluation>) returns (bind: Option<Evaluation>)
    ensures bind == BindingViolation(objectives, evs)
  {
    bind := None;
    for i := 0 to |evs|
      invariant bind == BindingViolation(objectives, evs[..i])
    {
      assert evs[..i + 1][..i] == evs[..i];
      var ev := evs[i];
      if ev.state.Violating? || ev.state.Severe? {
        if bind.None? {
          bind := Some(ev);
        } else {
          var e, be := ev.observed - ev.recovered, bind.value.observed - bind.value.recovered;
          if e > be {
            bind := Some(ev);
          } else if e == be {
            var p1, p2 := Priorities(objectives, ev.objective, bind.value.objective);
            if p1 > p2 {
              bind := Some(ev);
            } else if p1 == p2 && ev.objective < bind.value.objective {
              bind := Some(ev);
            }
          }
        }
      }
    }
    assert evs[..|evs|] == evs;
  }

  method EarliestAtRisk(evs: seq<Evaluation>) returns (bind: Option<Evaluation>)
    ensures bind == FirstAtRisk(evs)
  {
    bind := None;
    for i := 0 to |evs|
      invariant bind.None? ==> FirstAtRisk(evs) == FirstAtRisk(evs[i..])
      invariant bind.Some? ==> FirstAtRisk(evs) == bind
    {
      if evs[i].state.AtRisk? && bind.None? {
        bind := Some(evs[i]);
      }
    }
  }

  method TargetCause(causes: seq<TailCause>) returns (cause: TailCauseCategory)
    ensures cause == LastDominantCause(causes)
  {
    cause := UnknownCause;
    for i := 0 to |causes|
      invariant cause == LastDominantCause(causes[..i])
    {
      assert causes[..i + 1][..i] == causes[..i];
      if causes[i].attribution.DominantContributor? {
        cause := causes[i].category;
      }
    }
    assert causes[..|causes|] == causes;
  }

  method Alternatives(all: seq<Rejected>) returns (rejected: seq<Rejected>, infeasible: seq<Rejected>)
    ensures rejected == WithReason(true, all) && infeasible == WithReason(false, all)
  {
    rejected, infeasible := [], [];
    for i := 0 to |all|
      invariant rejected == WithReason(true, all[..i]) && infeasible == WithReason(false, all[..i])
    {
      assert all[..i + 1][..i] == all[..i];
      if all[i].reason != Feasible {
        infeasible := infeasible + [all[i]];
      } else {
        rejected := rejected + [all[i]];
      }
    }
    assert all[..|all|] == all;
  }
}
