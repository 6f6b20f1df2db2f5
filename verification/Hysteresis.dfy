/** Recovery is not declared on one good reading: what the last state and the recovery streak
    of an objective are in every run. */
module Hysteresis {
  import opened Basics
  import opened Domain
  import opened Windows
  import opened StateFiles
  import opened Transitions
  import opened WindowRuns
  import opened WindowTraces
  import opened Evidence

  /** A sufficient observation together with the thresholds it is judged by. */
  datatype Reading = Reading(v: int, target: int, recovered: int)

  predicate Good(r: Reading) {
    r.v < r.target && r.v <= r.recovered
  }

  /** One evaluation of an objective: judged, or decided without looking at the value. */
  datatype Event = Judged(r: Reading) | Bypass(state: TailState)

  function AfterEvent(prev: TailState, streak: nat, e: Event): (TailState, nat) {
    match e
    case Judged(r) => Judge(prev, streak, r.v, r.target, r.recovered)
    case Bypass(state) => (state, streak)
  }

  function AfterEvents(prev: TailState, streak: nat, es: seq<Event>): (TailState, nat) {
    if es == [] then (prev, streak)
    else
      var (p, k) := AfterEvents(prev, streak, es[..|es| - 1]);
      AfterEvent(p, k, es[|es| - 1])
  }

  /** In breach: degraded, and not on the way back. */
  predicate InBreach(t: TailState) {
    t.Violating? || t.Severe? || t.AtRisk?
  }

  predicate Coherent(prev: TailState, streak: nat) {
    && (InBreach(prev) ==> streak == 0)
    && (prev.Recovering? ==> streak == 1)
    && streak <= 2
  }

  predicate Bypasses(e: Event) {
    e.Bypass? ==> !Degraded(e.state)
  }

  lemma {:induction false} CoherentKept(prev: TailState, streak: nat, es: seq<Event>)
    requires Coherent(prev, streak) && forall i :: 0 <= i < |es| ==> Bypasses(es[i])
    ensures Coherent(AfterEvents(prev, streak, es).0, AfterEvents(prev, streak, es).1)
  {
    if es != [] {
      CoherentKept(prev, streak, es[..|es| - 1]);
      assert Bypasses(es[|es| - 1]);
    }
  }

  /** The verdict on a reading that is not good. */
  function Breach(r: Reading): TailState {
    if r.v >= 2 * r.target && r.v >= r.target then Severe else if r.v >= r.target then Violating else AtRisk
  }

  /** An evaluation that puts a good reading behind the breach: a good one, or one that did not
      look at the value at all. */
  predicate Relieves(e: Event) {
    match e
    case Judged(r) => Good(r)
    case Bypass(_) => true
  }

  /** The state that evaluations after a breach lead to, read off the last two of them. */
  function Outcome(es: seq<Event>): TailState
    requires es != []
  {
    var n := |es|;
    match es[n - 1]
    case Bypass(state) => state
    case Judged(r) =>
      if !Good(r) then Breach(r)
      else if n >= 2 && Relieves(es[n - 2]) then Healthy
      else Recovering
  }

  /** After a breach the state is a function of the last two evaluations. A good reading is
      HEALTHY exactly when the evaluation before it was good as well or was not judged, and
      RECOVERING exactly when it follows a breach directly. */
  lemma {:induction false} RecoveryNeedsTwoReadings(prev: TailState, streak: nat, es: seq<Event>)
    requires InBreach(prev) && Coherent(prev, streak) && es != []
    requires forall i :: 0 <= i < |es| ==> Bypasses(es[i])
    ensures AfterEvents(prev, streak, es).0 == Outcome(es)
    ensures Coherent(AfterEvents(prev, streak, es).0, AfterEvents(prev, streak, es).1)
  {
    var init := es[..|es| - 1];
    CoherentKept(prev, streak, init);
    if init == [] {
      assert AfterEvents(prev, streak, init) == (prev, streak);
    } else {
      RecoveryNeedsTwoReadings(prev, streak, init);
      assert Bypasses(init[|init| - 1]) && init[|init| - 1] == es[|es| - 2];
    }
  }

  /** RECOVERING never repeats. */
  lemma RecoveringNeverRepeats(streak: nat, r: Reading)
    requires Coherent(Recovering, streak)
    ensures !Judge(Recovering, streak, r.v, r.target, r.recovered).0.Recovering?
  {
  }

  /** One good reading alone is called HEALTHY exactly when the state it is judged against is
      not a breach. */
  lemma OneGoodReading(prev: TailState, streak: nat, r: Reading)
    requires Coherent(prev, streak) && Good(r)
    ensures Judge(prev, streak, r.v, r.target, r.recovered).0 == Healthy <==> !InBreach(prev)
  {
  }

  // ---- the governor's evaluations as events ------------------------------------------------

  function EventOf(s: GovState, o: Objective, now: int): Event {
    var w := EvaluatedWindow(s, o, now);
    if SufficiencyOf(s, o, w, now).Sufficient?
    then Judged(Reading(ObservedValue(s, o, w), o.target, RecoveryThreshold(s.cfg, o)))
    else Bypass(StateOf(s, o, w, now).0)
  }

  function EventsFor(s: GovState, id: nat, now: int, objective: nat): seq<Event> {
    if id == objective && Evaluated(s, id).Some? then [EventOf(s, Evaluated(s, id).value, now)] else []
  }

  function EventsMany(s: GovState, objectives: seq<Objective>, now: int, objective: nat): seq<Event> {
    if objectives == [] then []
    else
      var init, o := objectives[..|objectives| - 1], objectives[|objectives| - 1];
      EventsMany(s, init, now, objective)
      + (if o.enabled then EventsFor(EvaluateMany(s, init, now).0, o.id, now, objective) else [])
  }

  function CallEvents(s: GovState, c: Call, objective: nat): seq<Event> {
    match c
    case EvaluateCall(id, now) => EventsFor(s, id, now, objective)
    case EvaluateAllCall(now) => EventsMany(s, s.pol.objectives, now, objective)
    case DecideCall(now) => if s.shuttingDown then [] else EventsMany(s, s.pol.objectives, now, objective)
    case _ => []
  }

  function RunEvents(s: GovState, calls: seq<Call>, objective: nat): seq<Event> {
    if calls == [] then []
    else
      var init, c := calls[..|calls| - 1], calls[|calls| - 1];
      RunEvents(s, init, objective) + CallEvents(Run(s, init), c, objective)
  }

  function LastOf(s: GovState, objective: nat): (TailState, nat) {
    (GetOr(s.lastState, objective, Healthy), GetOr(s.streak, objective, 0))
  }

  /** The events account for the objective's state from one governor state to another. */
  ghost predicate Accounts(s: GovState, t: GovState, objective: nat, es: seq<Event>) {
    && LastOf(t, objective) == AfterEvents(LastOf(s, objective).0, LastOf(s, objective).1, es)
    && forall i :: 0 <= i < |es| ==> Bypasses(es[i])
  }

  lemma {:induction false} AfterAppend(prev: TailState, streak: nat, a: seq<Event>, b: seq<Event>)
    ensures var (p, k) := AfterEvents(prev, streak, a); AfterEvents(prev, streak, a + b) == AfterEvents(p, k, b)
    decreases |b|
  {
    if b == [] {
      assert a + b == a;
    } else {
      assert (a + b)[..|a + b| - 1] == a + b[..|b| - 1];
      AfterAppend(prev, streak, a, b[..|b| - 1]);
    }
  }

  lemma AccountsNothing(s: GovState, t: GovState, objective: nat)
    requires t.lastState == s.lastState && t.streak == s.streak
    ensures Accounts(s, t, objective, [])
  {
  }

  lemma AccountsChain(s: GovState, t: GovState, u: GovState, objective: nat, a: seq<Event>, b: seq<Event>)
    requires Accounts(s, t, objective, a) && Accounts(t, u, objective, b)
    ensures Accounts(s, u, objective, a + b)
  {
    AfterAppend(LastOf(s, objective).0, LastOf(s, objective).1, a, b);
  }

  lemma EvaluationEvent(s: GovState, o: Objective, now: int)
    ensures var next := EvaluateObjective(s, o, now).0;
      && LastOf(next, o.id) == AfterEvent(LastOf(s, o.id).0, LastOf(s, o.id).1, EventOf(s, o, now))
      && Bypasses(EventOf(s, o, now))
      && (forall k: nat :: k != o.id ==> LastOf(next, k) == LastOf(s, k))
  {
    hide Assess, SortWindow, Observe, RecoveryThreshold, Judge, IsStale;
  }

  lemma EvaluateEvents(s: GovState, id: nat, now: int, objective: nat)
    ensures Accounts(s, Evaluate(s, id, now).0, objective, EventsFor(s, id, now, objective))
  {
    hide EvaluateObjective, EventOf, LastOf, AfterEvent, Bypasses;
    AfterNone(LastOf(s, objective).0, LastOf(s, objective).1);
    if Evaluated(s, id).Some? {
      var o := Evaluated(s, id).value;
      EvaluationEvent(s, o, now);
      AfterOne(LastOf(s, id).0, LastOf(s, id).1, EventOf(s, o, now));
    }
  }

  lemma AfterNone(prev: TailState, streak: nat)
    ensures AfterEvents(prev, streak, []) == (prev, streak)
  {
  }

  lemma AfterOne(prev: TailState, streak: nat, e: Event)
    ensures AfterEvents(prev, streak, [e]) == AfterEvent(prev, streak, e)
  {
    assert [e][..0] == [];
  }

  lemma {:induction false} EvaluateManyEvents(s: GovState, objectives: seq<Objective>, now: int, objective: nat)
    ensures Accounts(s, EvaluateMany(s, objectives, now).0, objective, EventsMany(s, objectives, now, objective))
  {
    hide Evaluate, EventsFor, Accounts;
    AccountsNothing(s, s, objective);
    if objectives != [] {
      var init, o := objectives[..|objectives| - 1], objectives[|objectives| - 1];
      EvaluateManyEvents(s, init, now, objective);
      var mid := EvaluateMany(s, init, now).0;
      if o.enabled {
        EvaluateEvents(mid, o.id, now, objective);
        AccountsChain(s, mid, Evaluate(mid, o.id, now).0, objective, EventsMany(s, init, now, objective),
          EventsFor(mid, o.id, now, objective));
      } else {
        assert EventsMany(s, init, now, objective) + [] == EventsMany(s, init, now, objective);
      }
    }
  }

  lemma DecideEvents(s: GovState, now: int, objective: nat)
    ensures Accounts(s, Decide(s, now).0, objective, CallEvents(s, DecideCall(now), objective))
  {
    hide DecideOn, EvaluateMany, EventsMany;
    AccountsNothing(s, s, objective);
    EvaluateManyEvents(s, s.pol.objectives, now, objective);
    DecideOnKeeps(EvaluateAll(s, now).0, EvaluateAll(s, now).1, now);
  }

  lemma OtherCallsKeepLast(s: GovState, c: Call)
    requires !c.EvaluateCall? && !c.EvaluateAllCall? && !c.DecideCall?
    ensures Next(s, c).lastState == s.lastState && Next(s, c).streak == s.streak
  {
    hide AfterLifecycle, Ingest, LoadFile;
    if IsLifecycleCall(c) {
      LifecycleKeeps(s, c);
    } else if c.IngestCall? {
      IngestKeepsLast(s, c.ev);
    } else if c.LoadCall? {
      LoadKeepsLast(s, c.file);
    }
  }

  lemma IngestKeepsLast(s: GovState, ev: RequestLatency)
    ensures Ingest(s, ev).0.lastState == s.lastState && Ingest(s, ev).0.streak == s.streak
  {
    hide IngestInto, IngestVerdict, SampleOf, RunOps, At;
    VerdictMeans(s, ev);
    if IngestVerdict(s, ev) == Success {
      IngestIntoAt(s, s.pol.objectives, SampleOf(ev), WindowKey(0, 0));
    }
  }

  lemma LoadKeepsLast(s: GovState, file: seq<bv8>)
    ensures LoadFile(s, file).0.lastState == s.lastState && LoadFile(s, file).0.streak == s.streak
  {
    hide Load;
  }

  lemma CallAccounts(s: GovState, c: Call, objective: nat)
    ensures Accounts(s, Next(s, c), objective, CallEvents(s, c, objective))
  {
    hide AfterLifecycle, AfterSettings, Ingest, Evaluate, EvaluateMany, Decide, EventsMany, EventsFor, Accounts;
    if c.EvaluateCall? {
      EvaluateEvents(s, c.objective, c.now, objective);
    } else if c.EvaluateAllCall? {
      EvaluateManyEvents(s, s.pol.objectives, c.now, objective);
    } else if c.DecideCall? {
      DecideEvents(s, c.now, objective);
    } else {
      OtherCallsKeepLast(s, c);
      AccountsNothing(s, Next(s, c), objective);
    }
  }

  /** In every run the last state and the streak of an objective are what its evaluations,
      in order, make of them; nothing else moves them. */
  lemma {:induction false} StateFollowsEvents(s: GovState, calls: seq<Call>, objective: nat)
    ensures Accounts(s, Run(s, calls), objective, RunEvents(s, calls, objective))
    decreases |calls|
  {
    hide Next, CallEvents, Accounts, Run;
    RunNone(s);
    if calls == [] {
      AccountsNothing(s, s, objective);
    } else {
      var init, c := calls[..|calls| - 1], calls[|calls| - 1];
      UnfoldRun(s, calls);
      StateFollowsEvents(s, init, objective);
      CallAccounts(Run(s, init), c, objective);
      AccountsChain(s, Run(s, init), Next(Run(s, init), c), objective, RunEvents(s, init, objective),
        CallEvents(Run(s, init), c, objective));
    }
  }

  /** In every reachable state: a breach has streak 0, RECOVERING has streak 1, and no streak
      exceeds 2. */
  lemma CoherentInRuns(s: GovState, calls: seq<Call>, objective: nat)
    requires Coherent(LastOf(s, objective).0, LastOf(s, objective).1)
    ensures Coherent(LastOf(Run(s, calls), objective).0, LastOf(Run(s, calls), objective).1)
  {
    hide Run, LastOf, Coherent;
    StateFollowsEvents(s, calls, objective);
    CoherentKept(LastOf(s, objective).0, LastOf(s, objective).1, RunEvents(s, calls, objective));
  }

  /** ... and so in every run of a new governor. */
  lemma CoherentFromStart(cfg: Config, epoch: nat, calls: seq<Call>, objective: nat)
    ensures Coherent(LastOf(Run(InitialState(cfg, epoch), calls), objective).0,
                     LastOf(Run(InitialState(cfg, epoch), calls), objective).1)
  {
    hide Run;
    CoherentInRuns(InitialState(cfg, epoch), calls, objective);
  }

  /** From any reachable breach, however the run goes on: the objective's last two evaluations
      decide its state. */
  lemma RecoveryInRuns(s: GovState, calls: seq<Call>, more: seq<Call>, objective: nat)
    requires Coherent(LastOf(s, objective).0, LastOf(s, objective).1)
    requires InBreach(LastOf(Run(s, calls), objective).0)
    requires RunEvents(Run(s, calls), more, objective) != []
    ensures LastOf(Run(Run(s, calls), more), objective).0 == Outcome(RunEvents(Run(s, calls), more, objective))
  {
    hide Run, LastOf, Coherent, Outcome, RunEvents, InBreach;
    var t := Run(s, calls);
    CoherentInRuns(s, calls, objective);
    StateFollowsEvents(t, more, objective);
    RecoveryNeedsTwoReadings(LastOf(t, objective).0, LastOf(t, objective).1, RunEvents(t, more, objective));
  }
}
