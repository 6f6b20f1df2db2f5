/** What an evaluation says, told by the samples it sees and the objective's own numbers: when the
    evidence is stale or too little, and which state a sufficient observation leads to. */
module Judgement {
  import opened Basics
  import opened Domain
  import opened Quantiles
  import opened Windows
  import opened Attribution
  import opened Selection
  import opened StateFiles
  import opened Transitions
  import opened WindowRuns
  import opened WindowTraces
  import opened Evidence
  import opened Retention
  import opened Feasibility

  // ---- sufficiency -----------------------------------------------------------------------------

  /** Freshness is asked for, some sample says when it was captured, and every sample was captured
      longer ago than that. */
  predicate AllTooOld(o: Objective, samples: seq<TailSample>, now: int) {
    && o.freshness > 0
    && (exists i :: 0 <= i < |samples| && samples[i].captured > 0)
    && (forall i :: 0 <= i < |samples| ==> samples[i].captured < now - o.freshness)
  }

  lemma StaleIffTooOld(o: Objective, samples: seq<TailSample>, now: int)
    ensures IsStale(o, LatestCaptured(samples), now) <==> AllTooOld(o, samples, now)
  {
    if samples != [] {
      LatestIsMax(samples);
      var m :| 0 <= m < |samples| && samples[m].captured == LatestCaptured(samples);
      if AllTooOld(o, samples, now) {
        assert samples[m].captured < now - o.freshness;
      }
    }
  }

  /** As many samples as the objective asks for, or else as its percentile needs. */
  function Required(s: GovState, o: Objective): nat {
    if o.minSamples != 0 then o.minSamples else DerivedMinSamples(s.cfg.read(o.percentile))
  }

  /** Enough samples that are not all too old, and no demand for revalidation. */
  ghost predicate IsJudged(s: GovState, o: Objective, now: int) {
    var seen := EvaluatedWindow(s, o, now).samples;
    && !GetOr(s.reval, o.id, false) && !AllTooOld(o, seen, now)
    && |seen| >= Required(s, o) && seen != []
  }

  /** The recovery threshold: the fraction of the target, rounded down and never negative, or the
      target itself without a fraction. */
  ghost predicate Recovers(target: int, fraction: real, r: int) {
    if fraction <= 0.0 then r == target
    else if target <= 0 then r == 0
    else r >= 0 && r as real <= target as real * fraction < (r + 1) as real
  }

  lemma RecoversAt(s: GovState, o: Objective)
    ensures Recovers(o.target, s.cfg.read(o.recoveryFraction), RecoveryThreshold(s.cfg, o))
  {
    var fraction := s.cfg.read(o.recoveryFraction);
    if fraction > 0.0 && o.target <= 0 {
      assert o.target as real * fraction <= 0.0;
    }
    if fraction > 0.0 && o.target > 0 {
      assert o.target as real * fraction >= 0.0;
    }
  }

  lemma SeenCounts(s: GovState, o: Objective, now: int)
    requires CacheAgrees(At(s, WindowKey(o.id, o.Scope())))
    ensures |EvaluatedWindow(s, o, now).sorted| == |EvaluatedWindow(s, o, now).samples|
  {
    var w := At(s, WindowKey(o.id, o.Scope()));
    SortedView(w, now);
    SortSorts(Latencies(Pruned(w.cfg, now, w.samples)));
  }

  /** The three verdicts on the evidence, each exactly. */
  lemma SufficiencyIff(s: GovState, o: Objective, now: int)
    requires CacheAgrees(At(s, WindowKey(o.id, o.Scope())))
    ensures var ev, seen := Assess(s, o, now), EvaluatedWindow(s, o, now).samples;
      var stale := GetOr(s.reval, o.id, false) || AllTooOld(o, seen, now);
      && (ev.sufficiency.StaleEvidence? <==> stale)
      && (ev.sufficiency.InsufficientSamples? <==> !stale && (seen == [] || |seen| < Required(s, o)))
      && (ev.sufficiency.Sufficient? <==> IsJudged(s, o, now))
      && ev.sampleCount == |seen| && ev.minRequired == Required(s, o)
  {
    hide SortWindow, Decompose, Select, ReportedSet, Judge, RecoveryThreshold, IsStale, AllTooOld, CurrentAuthority,
      CacheAgrees;
    SeenCounts(s, o, now);
    StaleIffTooOld(o, EvaluatedWindow(s, o, now).samples, now);
  }

  /** The state an evaluation reports, exactly: unjudged ones by the evidence, judged ones by the
      observed value against the target, twice the target and the recovery threshold; and what is
      chosen against the dominant cause is selected in SEVERE, VIOLATING and AT_RISK only. */
  lemma StateIff(s: GovState, o: Objective, now: int)
    requires CacheAgrees(At(s, WindowKey(o.id, o.Scope())))
    ensures var ev, seen := Assess(s, o, now), EvaluatedWindow(s, o, now).samples;
      var flagged, judged := GetOr(s.reval, o.id, false), IsJudged(s, o, now);
      var v, r := ev.observed, ev.recovered;
      && Recovers(o.target, s.cfg.read(o.recoveryFraction), r) && ev.target == o.target
      && (ev.state.RevalidationRequired? <==> flagged)
      && (ev.state.Stale? <==> !flagged && AllTooOld(o, seen, now))
      && (ev.state.InsufficientEvidence? <==> !flagged && !judged && !AllTooOld(o, seen, now))
      && (ev.state.Severe? <==> judged && v >= o.target && v >= 2 * o.target)
      && (ev.state.Violating? <==> judged && o.target <= v < 2 * o.target)
      && (ev.state.AtRisk? <==> judged && r < v < o.target)
      && (ev.state.Healthy? || ev.state.Recovering? <==> judged && v < o.target && v <= r)
      && ev.choice == Select(ev.decomposition.causes, v, r, s.facts)
      && ev.selected
         == if ev.state.Severe? || ev.state.Violating? || ev.state.AtRisk? then ev.choice.selected else NoAction
  {
    hide SortWindow, Decompose, Select, ReportedSet, IsStale, AllTooOld, RecoveryThreshold, IsJudged, Recovers,
      CurrentAuthority, CacheAgrees, Required, Observe, LatestCaptured;
    SufficiencyIff(s, o, now);
    FlagOrAge(s, o, now);
    RecoversAt(s, o);
  }

  lemma FlagOrAge(s: GovState, o: Objective, now: int)
    ensures IsJudged(s, o, now) ==>
      !GetOr(s.reval, o.id, false) && !AllTooOld(o, EvaluatedWindow(s, o, now).samples, now)
  {
    hide AllTooOld, SortWindow;
  }

  /** HEALTHY and RECOVERING are told apart by where the objective comes from. */
  lemma RecoveringIff(s: GovState, o: Objective, now: int)
    requires CacheAgrees(At(s, WindowKey(o.id, o.Scope())))
    ensures var ev := Assess(s, o, now);
      var before := GetOr(s.lastState, o.id, Healthy);
      ev.state.Recovering? <==>
        && IsJudged(s, o, now) && ev.observed < o.target && ev.observed <= ev.recovered
        && (before.Violating? || before.Severe? || before.AtRisk? || before.Recovering?)
        && GetOr(s.streak, o.id, 0) == 0
  {
    hide SortWindow, Decompose, Select, ReportedSet, IsStale, RecoveryThreshold, IsJudged, CurrentAuthority,
      CacheAgrees, Observe, LatestCaptured;
    SufficiencyIff(s, o, now);
  }

  /** The value an evaluation observes is the counting quantile whenever there are enough samples, stale
      or not, and 0 otherwise. */
  lemma ObservedIs(s: GovState, o: Objective, now: int)
    requires CacheAgrees(At(s, WindowKey(o.id, o.Scope()))) && 0.0 < s.cfg.read(o.percentile) <= 100.0
    ensures var seen, ev := EvaluatedWindow(s, o, now).samples, Assess(s, o, now);
      if seen != [] && |seen| >= Required(s, o) then IsQuantile(Latencies(seen), s.cfg.read(o.percentile), ev.observed)
      else ev.observed == 0
  {
    hide SortWindow, Decompose, Select, ReportedSet, Judge, RecoveryThreshold, IsStale, CurrentAuthority, Sort,
      IsQuantile, DerivedMinSamples, CacheAgrees, LatestCaptured;
    var w, seen := At(s, WindowKey(o.id, o.Scope())), EvaluatedWindow(s, o, now).samples;
    SortedView(w, now);
    SortSorts(Latencies(seen));
    if seen != [] {
      QuantileCounts(Latencies(seen), s.cfg.read(o.percentile));
    }
  }

  /** What else an evaluation reports. */
  lemma ReportIs(s: GovState, o: Objective, now: int)
    ensures var seen, ev := EvaluatedWindow(s, o, now).samples, Assess(s, o, now);
      && ev.objective == o.id && ev.objectiveGeneration == o.generation && ev.percentile == o.percentile
      && ev.windowBegin == now - o.window.duration && ev.windowEnd == now
      && (if seen == [] then ev.latestCapture == 0
          else
            && (exists i :: 0 <= i < |seen| && seen[i].captured == ev.latestCapture)
            && (forall j :: 0 <= j < |seen| ==> seen[j].captured <= ev.latestCapture))
      && ev.decomposition == Decompose(seen, ev.observed)
      && ev.revalidationRequired == GetOr(s.reval, o.id, false)
      && BuiltNow(s, o, ev.authority)
  {
    hide SortWindow, Decompose, Select, ReportedSet, Judge, RecoveryThreshold, IsStale, Observe, CurrentAuthority,
      BuiltNow, LatestCaptured;
    var seen := EvaluatedWindow(s, o, now).samples;
    BuiltNowIff(s, o, CurrentAuthority(s, o));
    NoneCaptured();
    if seen != [] {
      LatestIsMax(seen);
    }
  }

  lemma NoneCaptured()
    ensures LatestCaptured([]) == 0
  {
  }

  /** An evaluation is refused exactly in shutdown, for an unknown objective and for a disabled one; and
      then nothing changes. Otherwise it reports the assessment under the next id, and logs it. */
  lemma EvaluateIff(s: GovState, id: nat, now: int)
    ensures var (t, r) := Evaluate(s, id, now);
      var o := FindObjective(s.pol.objectives, id);
      && (r == Err(ShuttingDown) <==> s.shuttingDown)
      && (r == Err(InvalidInput) <==> !s.shuttingDown && o.None?)
      && (r == Err(ObjectiveInactive) <==> !s.shuttingDown && o.Some? && !o.value.enabled)
      && (r.Err? ==> t == s)
      && (r.Ok? <==> !s.shuttingDown && o.Some? && o.value.enabled)
      && (r.Ok? ==>
            && r.value == Assess(s, o.value, now).(id := s.nextEval, generation := s.nextEval + 1)
            && t.evaluations == s.evaluations + [r.value] && t.nextEval == s.nextEval + 1)
  {
    hide Assess, StateOf, SufficiencyOf, EvaluatedWindow;
  }

  /** The percentiles an evaluation reports are the counting quantiles of what it sees: the median from
      one sample on, the 95th from 20, the 99.9th from 1000, and never a 99th. */
  lemma ReportedIff(s: GovState, o: Objective, now: int)
    requires CacheAgrees(At(s, WindowKey(o.id, o.Scope())))
    ensures var seen, q := EvaluatedWindow(s, o, now).samples, Assess(s, o, now).percentiles;
      && (q.p50.Some? <==> |seen| >= 1) && (q.p95.Some? <==> |seen| >= 20) && (q.p999.Some? <==> |seen| >= 1000)
      && q.p99.None?
      && (q.p50.Some? ==> IsQuantile(Latencies(seen), 50.0, q.p50.value))
      && (q.p95.Some? ==> IsQuantile(Latencies(seen), 95.0, q.p95.value))
      && (q.p999.Some? ==> IsQuantile(Latencies(seen), P999_AS_DOUBLE, q.p999.value))
  {
    hide SortWindow, Decompose, Select, Judge, RecoveryThreshold, IsStale, CurrentAuthority, Observe, Sort, IsQuantile,
      DerivedMinSamples, CacheAgrees, LatestCaptured;
    var w, seen := At(s, WindowKey(o.id, o.Scope())), EvaluatedWindow(s, o, now).samples;
    SortedView(w, now);
    SortSorts(Latencies(seen));
    DocumentedMinimums();
    StoredP999IsNotExact();
    if seen != [] {
      QuantileCounts(Latencies(seen), 50.0);
      QuantileCounts(Latencies(seen), 95.0);
      QuantileCounts(Latencies(seen), P999_AS_DOUBLE);
    }
  }

  // ---- in every run ----------------------------------------------------------------------------

  /** In every run: what an evaluation says about the samples it sees. */
  lemma VerdictInRuns(s: GovState, calls: seq<Call>, o: Objective, now: int)
    requires Unused(s)
    ensures var t := Run(s, calls);
      var ev, seen := Assess(t, o, now), EvaluatedWindow(t, o, now).samples;
      var flagged := GetOr(t.reval, o.id, false);
      && (ev.sufficiency.StaleEvidence? <==> flagged || AllTooOld(o, seen, now))
      && (ev.sufficiency.Sufficient? <==> IsJudged(t, o, now))
      && (ev.state.Stale? <==> !flagged && AllTooOld(o, seen, now))
      && (ev.state.Severe? <==> IsJudged(t, o, now) && ev.observed >= o.target && ev.observed >= 2 * o.target)
      && (ev.state.Violating? <==> IsJudged(t, o, now) && o.target <= ev.observed < 2 * o.target)
      && (ev.state.AtRisk? <==> IsJudged(t, o, now) && ev.recovered < ev.observed < o.target)
  {
    hide Run, Assess, EvaluatedWindow, AllTooOld, IsJudged, CacheAgrees, Recovers;
    CacheInRuns(s, calls, WindowKey(o.id, o.Scope()));
    SufficiencyIff(Run(s, calls), o, now);
    StateIff(Run(s, calls), o, now);
  }

  /** In every run a judged evaluation rests on fresh evidence: some completion accepted since the
      last advance was captured within the freshness asked for, unless no sample that it sees says
      when it was captured. */
  lemma JudgedIsFresh(s: GovState, calls: seq<Call>, o: Objective, now: int)
    requires Unused(s) && o.freshness > 0
    ensures var t := Run(s, calls);
      Assess(t, o, now).sufficiency.Sufficient? ==>
        || (exists ev :: ev in Accepted(s, calls) && TotalOf(ev).Ok? && SampleOf(ev).captured >= now - o.freshness)
        || (forall x :: x in EvaluatedWindow(t, o, now).samples ==> x.captured <= 0)
  {
    hide Run, Assess, TotalOf, SampleOf, Reconciled, SortWindow, CacheAgrees;
    var t, key := Run(s, calls), WindowKey(o.id, o.Scope());
    CacheInRuns(s, calls, key);
    SufficiencyIff(t, o, now);
    var seen := EvaluatedWindow(t, o, now).samples;
    if Assess(t, o, now).sufficiency.Sufficient? && exists x :: x in seen && x.captured > 0 {
      var x :| x in seen && x.captured > 0;
      var j :| 0 <= j < |seen| && seen[j] == x;
      var i :| 0 <= i < |seen| && seen[i].captured >= now - o.freshness;
      SeenIsAcceptedSample(s, calls, o, now, seen[i]);
    }
  }

  lemma SeenIsAcceptedSample(s: GovState, calls: seq<Call>, o: Objective, now: int, x: TailSample)
    requires Unused(s) && x in EvaluatedWindow(Run(s, calls), o, now).samples
    ensures exists ev :: ev in Accepted(s, calls) && TotalOf(ev).Ok? && x == SampleOf(ev)
  {
    hide Run, TotalOf, SampleOf, Reconciled, SortWindow, YoungEnough;
    var t, key := Run(s, calls), WindowKey(o.id, o.Scope());
    EvaluationSeesYoung(t, o, now, x);
    AtCases(t, key);
    EvidenceIsCurrent(s, calls, key);
  }

  // ---- the log of evaluations --------------------------------------------------------------------

  /** The log numbers the evaluations from one on. */
  ghost predicate Numbered(s: GovState) {
    && s.nextEval == |s.evaluations| + 1
    && forall i :: 0 <= i < |s.evaluations| ==>
      s.evaluations[i].id == i + 1 && s.evaluations[i].generation == i + 2
  }

  lemma EvaluateNumbered(s: GovState, id: nat, now: int)
    requires Numbered(s)
    ensures Numbered(Evaluate(s, id, now).0)
  {
    hide Assess, Evaluate;
    EvaluateIff(s, id, now);
  }

  lemma {:induction false} EvaluateManyNumbered(s: GovState, objectives: seq<Objective>, now: int)
    requires Numbered(s)
    ensures Numbered(EvaluateMany(s, objectives, now).0)
  {
    hide Evaluate, Numbered;
    if objectives != [] {
      EvaluateManyNumbered(s, objectives[..|objectives| - 1], now);
      EvaluateNumbered(EvaluateMany(s, objectives[..|objectives| - 1], now).0, objectives[|objectives| - 1].id, now);
    }
  }

  lemma SameNumbers(s: GovState, t: GovState)
    requires Numbered(s) && t.evaluations == s.evaluations && t.nextEval == s.nextEval
    ensures Numbered(t)
  {
  }

  lemma NumberedStep(s: GovState, c: Call)
    requires Numbered(s) && !c.LoadCall?
    ensures Numbered(Next(s, c))
  {
    hide AfterLifecycle, Ingest, Evaluate, EvaluateMany, DecideOn, Marked, Numbered, At, RunOps;
    if IsLifecycleCall(c) {
      LifecycleKeeps(s, c);
      SameNumbers(s, Next(s, c));
    } else if c.IngestCall? {
      IngestKeepsNumbers(s, c.ev);
      SameNumbers(s, Next(s, c));
    } else if c.EvaluateCall? {
      EvaluateNumbered(s, c.objective, c.now);
    } else if c.EvaluateAllCall? || c.DecideCall? {
      EvaluateManyNumbered(s, s.pol.objectives, c.now);
      if c.DecideCall? && !s.shuttingDown {
        var (after, evs) := EvaluateAll(s, c.now);
        DecideOnKeeps(after, evs, c.now);
        SameNumbers(after, DecideOn(after, evs, c.now).0);
      }
    } else {
      SameNumbers(s, Next(s, c));
    }
  }

  lemma IngestKeepsNumbers(s: GovState, ev: RequestLatency)
    ensures Ingest(s, ev).0.evaluations == s.evaluations && Ingest(s, ev).0.nextEval == s.nextEval
  {
    hide IngestInto, IngestVerdict, SampleOf, RunOps, At;
    VerdictMeans(s, ev);
    if IngestVerdict(s, ev) == Success {
      IngestIntoAt(s, s.pol.objectives, SampleOf(ev), WindowKey(0, 0));
    }
  }

  /** In every run of a new governor without loads the log holds the evaluations under the ids one, two,
      three and on, so that no id is given twice. */
  lemma {:induction false} EvaluationLogInRuns(cfg: Config, epoch: nat, calls: seq<Call>)
    requires forall i :: 0 <= i < |calls| ==> !calls[i].LoadCall?
    ensures Numbered(Run(InitialState(cfg, epoch), calls))
    decreases |calls|
  {
    hide Next, Run, Numbered;
    RunNone(InitialState(cfg, epoch));
    if calls == [] {
      NumberedAtFirst(cfg, epoch);
    } else {
      UnfoldRun(InitialState(cfg, epoch), calls);
      EvaluationLogInRuns(cfg, epoch, calls[..|calls| - 1]);
      NumberedStep(Run(InitialState(cfg, epoch), calls[..|calls| - 1]), calls[|calls| - 1]);
    }
  }

  lemma NumberedAtFirst(cfg: Config, epoch: nat)
    ensures Numbered(InitialState(cfg, epoch))
  {
  }
}
