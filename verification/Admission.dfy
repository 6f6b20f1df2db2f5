/** Which completions are accepted, told by the calls of the run alone: the worker's boot is the last
    one registered, the epoch is the number of advances, and the request is new since the last of
    them. */
module Admission {
  import opened Basics
  import opened Domain
  import opened Attribution
  import opened StateFiles
  import opened Transitions
  import opened WindowTraces
  import opened Evidence

  // ---- the settings of a run -------------------------------------------------------------------

  predicate ShutDown(calls: seq<Call>) {
    exists i :: 0 <= i < |calls| && calls[i].ShutdownCall?
  }

  /** The boot that a worker registered last, if it has not been unregistered since; registrations
      after the shutdown do not count. */
  function BootOf(calls: seq<Call>, worker: nat): Option<nat> {
    if calls == [] then None
    else
      var before := calls[..|calls| - 1];
      match calls[|calls| - 1]
      case RegisterWorkerCall(w, boot) =>
        if w == worker && !ShutDown(before) then Some(boot) else BootOf(before, worker)
      case UnregisterWorkerCall(w) => if w == worker then None else BootOf(before, worker)
      case _ => BootOf(before, worker)
  }

  function Advances(calls: seq<Call>): nat {
    if calls == [] then 0
    else Advances(calls[..|calls| - 1]) + (if calls[|calls| - 1].AdvanceEpochCall? then 1 else 0)
  }

  /** The facts that were set last. */
  function FactsInForce(calls: seq<Call>): Facts {
    if calls == [] then DEFAULT_FACTS
    else match calls[|calls| - 1]
      case SetFactsCall(facts) => facts
      case _ => FactsInForce(calls[..|calls| - 1])
  }

  ghost predicate BootsAre(boots: map<int, nat>, calls: seq<Call>) {
    forall worker: nat :: BootOf(calls, worker) == if worker in boots then Some(boots[worker]) else None
  }

  /** What a call does to the settings. */
  lemma SettingsStep(s: GovState, c: Call)
    ensures var t := Next(s, c);
      && t.cfg == s.cfg
      && t.epoch == s.epoch + (if c.AdvanceEpochCall? then 1 else 0)
      && t.shuttingDown == (s.shuttingDown || c.ShutdownCall?)
      && t.facts == (match c case SetFactsCall(facts) => facts case _ => s.facts)
      && t.gens == (match c case SetGenerationsCall(gens) => gens case _ => s.gens)
      && (!c.LoadCall? ==> t.pol == match c case SetPolicyCall(policy) => policy case _ => s.pol)
      && t.boots == (match c
                     case RegisterWorkerCall(worker, boot) =>
                       if s.shuttingDown then s.boots else s.boots[worker := boot]
                     case UnregisterWorkerCall(worker) => s.boots - {worker}
                     case _ => s.boots)
  {
    hide AfterLifecycle, AfterEvidence, Load;
    if IsLifecycleCall(c) || IsEvidenceCall(c) {
      CallsKeepSettings(s, c);
    }
  }

  /** The settings in any run of a new governor. */
  lemma {:induction false} SettingsInRuns(cfg: Config, epoch: nat, calls: seq<Call>)
    ensures var t := Run(InitialState(cfg, epoch), calls);
      && t.cfg == cfg && t.epoch == epoch + Advances(calls) && t.facts == FactsInForce(calls)
      && (t.shuttingDown <==> ShutDown(calls)) && BootsAre(t.boots, calls)
    decreases |calls|
  {
    hide Next, Run, ShutDown;
    RunNone(InitialState(cfg, epoch));
    if calls == [] {
      NotShutDown();
    } else {
      var init, c := calls[..|calls| - 1], calls[|calls| - 1];
      UnfoldRun(InitialState(cfg, epoch), calls);
      SettingsInRuns(cfg, epoch, init);
      SettingsStep(Run(InitialState(cfg, epoch), init), c);
      ShutDownMore(calls);
    }
  }

  lemma NotShutDown()
    ensures !ShutDown([])
  {
  }

  lemma ShutDownMore(calls: seq<Call>)
    requires calls != []
    ensures ShutDown(calls) <==> ShutDown(calls[..|calls| - 1]) || calls[|calls| - 1].ShutdownCall?
  {
    var init := calls[..|calls| - 1];
    if i :| 0 <= i < |init| && init[i].ShutdownCall? {
      assert calls[i].ShutdownCall?;
    }
    if i :| 0 <= i < |calls| && calls[i].ShutdownCall? && i < |init| {
      assert init[i].ShutdownCall?;
    }
  }

  // ---- the completion itself -------------------------------------------------------------------

  function Durations(phases: seq<PhaseLatency>): (r: seq<int>)
    ensures |r| == |phases| && forall i :: 0 <= i < |r| ==> r[i] == phases[i].duration
  {
    seq(|phases|, i requires 0 <= i < |phases| => phases[i].duration)
  }

  function Sum(xs: seq<int>): int {
    if xs == [] then 0 else xs[0] + Sum(xs[1..])
  }

  lemma {:induction false} SumMore(xs: seq<int>, x: int)
    ensures Sum(xs + [x]) == Sum(xs) + x
  {
    if xs == [] {
      assert xs + [x] == [x] && [x][1..] == [];
    } else {
      assert (xs + [x])[1..] == xs[1..] + [x];
      SumMore(xs[1..], x);
    }
  }

  lemma {:induction false} PhaseSumIsSum(phases: seq<PhaseLatency>)
    ensures PhaseSum(phases) == Sum(Durations(phases))
  {
    if phases != [] {
      var init := phases[..|phases| - 1];
      PhaseSumIsSum(init);
      SumMore(Durations(init), phases[|phases| - 1].duration);
      assert Durations(phases) == Durations(init) + [phases[|phases| - 1].duration];
    }
  }

  /** No phase is negative and together they take no longer than the whole. */
  predicate Reconciles(phases: seq<PhaseLatency>, total: int) {
    (forall i :: 0 <= i < |phases| ==> phases[i].duration >= 0) && Sum(Durations(phases)) <= total
  }

  lemma {:induction false} PhasesFitIff(phases: seq<PhaseLatency>, total: int)
    requires total >= 0
    ensures PhasesFit(phases, total) <==> Reconciles(phases, total)
    decreases |phases|
  {
    if phases != [] {
      var init, last := phases[..|phases| - 1], phases[|phases| - 1];
      PhasesFitIff(init, total);
      PhaseSumIsSum(init);
      PhaseSumIsSum(phases);
      if Reconciles(phases, total) {
        forall i | 0 <= i < |init| ensures init[i].duration >= 0 {
          assert phases[i].duration >= 0;
        }
      } else if PhasesFit(phases, total) {
        forall i | 0 <= i < |phases| ensures phases[i].duration >= 0 {
          assert i < |init| ==> init[i] == phases[i];
        }
      }
    }
  }

  /** The time from arrival to publication, unless the completion brings a total of its own. */
  predicate TakesTime(ev: RequestLatency, total: int) {
    if ev.total > 0 then total == ev.total else ev.publication >= ev.arrival && total == ev.publication - ev.arrival
  }

  /** A completion that counts as evidence: successful, published, not before it completed, and with
      phases that reconcile with the time it took. */
  ghost predicate Sound(ev: RequestLatency) {
    && ev.status.RequestSuccess? && ev.publication > 0 && ev.publication >= ev.completion
    && exists total :: TakesTime(ev, total) && Reconciles(ev.phases, total)
  }

  lemma SoundIff(ev: RequestLatency)
    ensures Sound(ev) <==>
      && ev.IsAuthoritativeCompletion() && TotalOf(ev).Ok? && PhasesFit(ev.phases, TotalOf(ev).value)
    ensures Sound(ev) ==> TakesTime(ev, TotalOf(ev).value) && TotalOf(ev).value >= 0
  {
    hide PhasesFit, Reconciles;
    if TotalOf(ev).Ok? {
      PhasesFitIff(ev.phases, TotalOf(ev).value);
    }
    if ev.IsAuthoritativeCompletion() && TotalOf(ev).Ok? && PhasesFit(ev.phases, TotalOf(ev).value) {
      assert TakesTime(ev, TotalOf(ev).value);
    }
  }

  /** The completion carries the generations in force and its worker's boot. */
  predicate CurrentIn(s: GovState, ev: RequestLatency) {
    && ev.epoch == s.epoch
    && ev.serviceGeneration == s.cfg.serviceGeneration && ev.workloadGeneration == s.cfg.workloadGeneration
    && ev.worker in s.boots && s.boots[ev.worker] == ev.workerBoot
  }

  /** The verdict on a completion, each answer exactly. */
  lemma VerdictIff(s: GovState, ev: RequestLatency)
    ensures var verdict := IngestVerdict(s, ev);
      && (verdict == ShuttingDown <==> s.shuttingDown)
      && (verdict == StaleAuthority <==> !s.shuttingDown && !CurrentIn(s, ev))
      && (verdict == Success <==> !s.shuttingDown && CurrentIn(s, ev) && Sound(ev) && ev.requestId !in s.seen)
      && (verdict == InvalidInput <==>
            !s.shuttingDown && CurrentIn(s, ev) && (!Sound(ev) || ev.requestId in s.seen))
  {
    hide Sound, PhasesFit;
    SoundIff(ev);
  }

  // ---- what a run accepts ----------------------------------------------------------------------

  /** The generations and the boot that a run has put in force. */
  ghost predicate CurrentAfter(cfg: Config, epoch: nat, calls: seq<Call>, ev: RequestLatency) {
    && ev.epoch == epoch + Advances(calls)
    && ev.serviceGeneration == cfg.serviceGeneration && ev.workloadGeneration == cfg.workloadGeneration
    && BootOf(calls, ev.worker) == Some(ev.workerBoot)
  }

  /** In every run of a new governor, a completion is accepted if and only if the governor is not
      shut down, the completion carries the current generations and the boot that its worker
      registered last, it is sound, and no completion of the same request was accepted since the last
      advance of the epoch. */
  lemma AcceptedIff(cfg: Config, epoch: nat, calls: seq<Call>, ev: RequestLatency)
    ensures var s := InitialState(cfg, epoch);
      var status := Ingest(Run(s, calls), ev).1;
      && (status == Success <==>
            && !ShutDown(calls) && CurrentAfter(cfg, epoch, calls, ev) && Sound(ev)
            && ev.requestId !in Ids(Accepted(s, calls)))
      && (status == ShuttingDown <==> ShutDown(calls))
      && (status == StaleAuthority <==> !ShutDown(calls) && !CurrentAfter(cfg, epoch, calls, ev))
  {
    hide Run, Sound, ShutDown, IngestInto, IngestVerdict, Ids, BootOf, SampleOf;
    var s := InitialState(cfg, epoch);
    SettingsInRuns(cfg, epoch, calls);
    SeenIsAccepted(s, calls);
    VerdictIff(Run(s, calls), ev);
    StatusIsVerdict(Run(s, calls), ev);
    assert ev.requestId in Run(s, calls).seen <==> ev.requestId in Run(s, calls).seen.Keys;
  }

  lemma StatusIsVerdict(s: GovState, ev: RequestLatency)
    ensures Ingest(s, ev).1 == IngestVerdict(s, ev)
  {
    hide IngestInto, IngestVerdict, SampleOf;
    VerdictMeans(s, ev);
  }

  /** The sample that an accepted completion leaves behind. */
  predicate LeavesSample(ev: RequestLatency, x: TailSample) {
    && TakesTime(ev, x.latency) && x.captured == (if ev.captured > 0 then ev.captured else ev.completion)
    && x.arrival == ev.arrival && x.phases == ev.phases && x.requestClass == ev.requestClass
    && x.workerBoot == ev.workerBoot && x.epoch == ev.epoch && x.retryCount == ev.retryCount
  }

  lemma SampleIsLeft(s: GovState, ev: RequestLatency)
    requires IngestVerdict(s, ev) == Success
    ensures TotalOf(ev).Ok? && LeavesSample(ev, SampleOf(ev))
  {
    hide PhasesFit;
    VerdictIff(s, ev);
    SoundIff(ev);
  }

  /** The call at i accepted the completion, and no advance followed. */
  ghost predicate AcceptedAt(s: GovState, calls: seq<Call>, i: int, ev: RequestLatency) {
    && 0 <= i < |calls| && calls[i] == IngestCall(ev) && IngestVerdict(Run(s, calls[..i]), ev) == Success
    && forall j :: i < j < |calls| ==> !calls[j].AdvanceEpochCall?
  }

  lemma {:induction false} AcceptedSomewhere(s: GovState, calls: seq<Call>, ev: RequestLatency)
    requires ev in Accepted(s, calls)
    ensures exists i :: AcceptedAt(s, calls, i, ev)
  {
    hide IngestVerdict, Run;
    var n := |calls| - 1;
    var init, c := calls[..n], calls[n];
    if c.IngestCall? && IngestVerdict(Run(s, init), c.ev) == Success && c.ev == ev {
      assert AcceptedAt(s, calls, n, ev);
    } else {
      AcceptedSomewhere(s, init, ev);
      var i :| AcceptedAt(s, init, i, ev);
      assert init[..i] == calls[..i] && init[i] == calls[i];
      forall j | i < j < |calls| ensures !calls[j].AdvanceEpochCall? {
        assert j < n ==> calls[j] == init[j];
      }
      assert AcceptedAt(s, calls, i, ev);
    }
  }

  /** In every reachable state each retained sample is what some sound completion left behind, whose
      worker had registered that very boot last when the completion was accepted, with no advance of
      the epoch since. */
  lemma RetainedFromRegistered(cfg: Config, epoch: nat, calls: seq<Call>, key: WindowKey, x: TailSample)
    requires key in Run(InitialState(cfg, epoch), calls).windows
    requires x in Run(InitialState(cfg, epoch), calls).windows[key].samples
    ensures exists i, ev :: (
      && AcceptedAt(InitialState(cfg, epoch), calls, i, ev) && Sound(ev) && LeavesSample(ev, x)
      && BootOf(calls[..i], ev.worker) == Some(x.workerBoot))
  {
    hide Run, Sound, IngestVerdict, SampleOf, TotalOf, BootOf, ShutDown, Reconciled, TakesTime;
    var s := InitialState(cfg, epoch);
    EvidenceIsCurrent(s, calls, key);
    var ev :| ev in Accepted(s, calls) && TotalOf(ev).Ok? && x == SampleOf(ev);
    AcceptedSomewhere(s, calls, ev);
    var i :| AcceptedAt(s, calls, i, ev);
    SettingsInRuns(cfg, epoch, calls[..i]);
    VerdictIff(Run(s, calls[..i]), ev);
    SampleIsLeft(Run(s, calls[..i]), ev);
  }
}
