/** What the governor's evidence is worth, in every run: it is current, it was accepted by
    ingestion, it reconciles, and it is counted once. */
module Evidence {
  import opened Basics
  import opened Domain
  import opened Quantiles
  import opened Windows
  import opened WindowRuns
  import opened Schedules
  import opened Attribution
  import opened Selection
  import opened Transitions
  import opened WindowTraces

  /** The completions accepted since the last advance of the epoch. */
  function Accepted(s: GovState, calls: seq<Call>): seq<RequestLatency> {
    if calls == [] then []
    else
      var init, c := calls[..|calls| - 1], calls[|calls| - 1];
      if c.AdvanceEpochCall? then []
      else if c.IngestCall? && IngestVerdict(Run(s, init), c.ev) == Success then Accepted(s, init) + [c.ev]
      else Accepted(s, init)
  }

  function Ids(evs: seq<RequestLatency>): set<int> {
    set ev | ev in evs :: ev.requestId
  }

  /** A governor without windows and without accepted requests, as constructed. */
  ghost predicate Unused(s: GovState) {
    s.windows == map[] && s.seen == map[]
  }

  predicate EnabledDistinct(objectives: seq<Objective>) {
    forall i, j :: 0 <= i < j < |objectives| && objectives[i].enabled && objectives[j].enabled ==>
      objectives[i].id != objectives[j].id
  }

  /** Every policy in force along the run has distinct enabled objectives. */
  ghost predicate DistinctAlong(s: GovState, calls: seq<Call>) {
    && EnabledDistinct(Run(s, calls).pol.objectives)
    && (calls != [] ==> DistinctAlong(s, calls[..|calls| - 1]))
  }

  // ---- accepted requests -------------------------------------------------------------------

  lemma SeenUnchanged(s: GovState, c: Call)
    requires !c.AdvanceEpochCall?
    ensures Next(s, c).epoch == s.epoch && Next(s, c).cfg == s.cfg
    ensures Next(s, c).seen ==
      if c.IngestCall? && IngestVerdict(s, c.ev) == Success then s.seen[c.ev.requestId := c.ev.evidenceGeneration]
        else s.seen
  {
    hide AfterLifecycle, AfterSettings, Ingest, Evaluate, EvaluateMany, Decide, OnlyInterventions, IngestVerdict, At,
      RunOps;
    var key := WindowKey(0, 0);
    if IsLifecycleCall(c) {
      LifecycleKeeps(s, c);
      OnlyKeeps(s, Next(s, c));
    } else if IsEvidenceCall(c) {
      match c {
        case IngestCall(ev) => IngestSeen(s, ev);
        case EvaluateCall(id, now) => EvaluateAt(s, id, now, key);
        case EvaluateAllCall(now) => EvaluateManyAt(s, s.pol.objectives, now, key);
        case DecideCall(now) => DecideSeen(s, now);
      }
    } else {
      SettingsKeep(s, c);
    }
  }

  lemma IngestSeen(s: GovState, ev: RequestLatency)
    ensures Ingest(s, ev).0.epoch == s.epoch && Ingest(s, ev).0.cfg == s.cfg
    ensures Ingest(s, ev).0.seen ==
      if IngestVerdict(s, ev) == Success then s.seen[ev.requestId := ev.evidenceGeneration] else s.seen
  {
    hide IngestInto, IngestVerdict, SampleOf, RunOps, At;
    if IngestVerdict(s, ev) == Success {
      VerdictMeans(s, ev);
      IngestIntoAt(s, s.pol.objectives, SampleOf(ev), WindowKey(0, 0));
    }
  }

  lemma DecideSeen(s: GovState, now: int)
    ensures Decide(s, now).0.epoch == s.epoch && Decide(s, now).0.cfg == s.cfg && Decide(s, now).0.seen == s.seen
  {
    hide DecideOn, EvaluateMany, At, RunOps;
    EvaluateManyAt(s, s.pol.objectives, now, WindowKey(0, 0));
    DecideOnKeeps(EvaluateAll(s, now).0, EvaluateAll(s, now).1, now);
  }

  /** The governor's log of requests holds exactly the ids accepted since the last advance
      of the epoch, and no id was accepted twice. */
  lemma {:induction false} SeenIsAccepted(s: GovState, calls: seq<Call>)
    requires Unused(s)
    ensures Run(s, calls).seen.Keys == Ids(Accepted(s, calls))
    ensures |Accepted(s, calls)| == |Ids(Accepted(s, calls))|
    decreases |calls|
  {
    if calls != [] {
      hide Next, IngestVerdict, Run, Ids;
      UnfoldRun(s, calls);
      NoIds();
      var init, c := calls[..|calls| - 1], calls[|calls| - 1];
      var before := Run(s, init);
      SeenIsAccepted(s, init);
      if c.AdvanceEpochCall? {
        AdvanceClears(before);
      } else {
        SeenUnchanged(before, c);
        if c.IngestCall? && IngestVerdict(before, c.ev) == Success {
          NotSeenYet(before, c.ev);
          OneMoreId(before.seen, Accepted(s, init), c.ev);
        }
      }
    }
  }

  lemma {:induction false} ConfigKept(s: GovState, calls: seq<Call>)
    ensures Run(s, calls).cfg == s.cfg
    decreases |calls|
  {
    hide Next, Run;
    RunNone(s);
    if calls != [] {
      var init, c := calls[..|calls| - 1], calls[|calls| - 1];
      UnfoldRun(s, calls);
      ConfigKept(s, init);
      if c.AdvanceEpochCall? {
        AdvanceClears(Run(s, init));
      } else {
        SeenUnchanged(Run(s, init), c);
      }
    }
  }

  lemma RunNone(s: GovState)
    ensures Run(s, []) == s
  {
  }

  lemma UnfoldRun(s: GovState, calls: seq<Call>)
    requires calls != []
    ensures Run(s, calls) == Next(Run(s, calls[..|calls| - 1]), calls[|calls| - 1])
  {
  }

  lemma OneCall(s: GovState, a: Call)
    ensures Run(s, [a]) == Next(s, a)
  {
    hide Next;
    assert [a][..0] == [];
  }

  lemma OneMoreCall(s: GovState, calls: seq<Call>, c: Call)
    ensures Run(s, calls + [c]) == Next(Run(s, calls), c)
  {
    hide Next;
    assert (calls + [c])[..|calls|] == calls;
  }

  lemma {:induction false} RunOn(s: GovState, calls: seq<Call>, more: seq<Call>)
    ensures Run(s, calls + more) == Run(Run(s, calls), more)
    decreases |more|
  {
    hide Next;
    if more == [] {
      assert calls + more == calls;
    } else {
      var init, c := more[..|more| - 1], more[|more| - 1];
      assert calls + more == (calls + init) + [c] && more == init + [c];
      RunOn(s, calls, init);
      OneMoreCall(s, calls + init, c);
      OneMoreCall(Run(s, calls), init, c);
    }
  }

  lemma TwoCalls(s: GovState, a: Call, b: Call)
    ensures Run(s, [a, b]) == Next(Next(s, a), b)
  {
    hide Next;
    OneCall(s, a);
    OneMoreCall(s, [a], b);
    assert [a] + [b] == [a, b];
  }

  lemma ThreeCalls(s: GovState, a: Call, b: Call, c: Call)
    ensures Run(s, [a, b, c]) == Next(Next(Next(s, a), b), c)
  {
    hide Next;
    TwoCalls(s, a, b);
    OneMoreCall(s, [a, b], c);
    assert [a, b] + [c] == [a, b, c];
  }

  lemma NoIds()
    ensures Ids([]) == {}
  {
  }

  lemma OneMoreId(seen: map<int, nat>, evs: seq<RequestLatency>, ev: RequestLatency)
    requires seen.Keys == Ids(evs) && |evs| == |Ids(evs)| && ev.requestId !in seen
    ensures seen[ev.requestId := ev.evidenceGeneration].Keys == Ids(evs + [ev])
    ensures |evs + [ev]| == |Ids(evs + [ev])|
  {
    assert Ids(evs + [ev]) == Ids(evs) + {ev.requestId};
  }

  lemma NotSeenYet(s: GovState, ev: RequestLatency)
    requires IngestVerdict(s, ev) == Success
    ensures ev.requestId !in s.seen && ev.epoch == s.epoch
  {
  }

  lemma {:induction false} PartialSums(phases: seq<PhaseLatency>, total: int)
    requires PhasesFit(phases, total)
    ensures forall i :: 0 <= i < |phases| ==> phases[i].duration >= 0
    ensures phases != [] ==> PhaseSum(phases) <= total
  {
    if phases != [] {
      PartialSums(phases[..|phases| - 1], total);
    }
  }

  /** Ingestion establishes what attribution relies on. */
  lemma AcceptedReconciles(s: GovState, ev: RequestLatency)
    requires IngestVerdict(s, ev) == Success
    ensures TotalOf(ev).Ok? && Reconciled(SampleOf(ev)) && SampleOf(ev).epoch == s.epoch
  {
    PartialSums(ev.phases, TotalOf(ev).value);
  }

  // ---- what the windows hold ---------------------------------------------------------------

  lemma {:induction false} HistoryAppend(a: seq<WindowOp>, b: seq<WindowOp>)
    requires forall i :: 0 <= i < |b| ==> !b[i].ClearOp?
    ensures History(a + b) == History(a) + History(b)
    decreases |b|
  {
    if b == [] {
      assert a + b == a;
    } else {
      assert (a + b)[..|a + b| - 1] == a + b[..|b| - 1];
      HistoryAppend(a, b[..|b| - 1]);
    }
  }

  lemma {:induction false} HistoryRepeat(op: WindowOp, n: nat)
    requires !op.ClearOp?
    ensures |History(Repeat(op, n))| == if op.InsertOp? && op.sample.latency >= 0 then n else 0
    ensures forall x :: x in History(Repeat(op, n)) ==> op.InsertOp? && x == op.sample
    decreases n
  {
    if n > 0 {
      assert Repeat(op, n)[..n - 1] == Repeat(op, n - 1);
      HistoryRepeat(op, n - 1);
    }
  }

  lemma NoClears(s: GovState, c: Call, key: WindowKey)
    ensures forall i :: 0 <= i < |WindowOps(s, c, key)| ==> !WindowOps(s, c, key)[i].ClearOp?
  {
    hide Hits, Sorts, SortsFor, IngestVerdict;
    VerdictMeansFor(s, c);
  }

  lemma VerdictMeansFor(s: GovState, c: Call)
    ensures c.IngestCall? && IngestVerdict(s, c.ev) == Success ==> TotalOf(c.ev).Ok?
  {
  }

  /** The insertions of one call: the sample of an accepted completion, as often as it hits
      the window. */
  lemma CallHistory(s: GovState, c: Call, key: WindowKey)
    ensures var h := History(WindowOps(s, c, key));
      if c.IngestCall? && IngestVerdict(s, c.ev) == Success
      then TotalOf(c.ev).Ok? && |h| == Hits(s.pol.objectives, key, SampleOf(c.ev)) && forall x :: x in h ==>
        x == SampleOf(c.ev)
      else h == []
  {
    hide Hits, Sorts, SortsFor, IngestVerdict, History;
    EmptyHistory();
    match c {
      case IngestCall(ev) =>
        if IngestVerdict(s, ev) == Success {
          AcceptedReconciles(s, ev);
          HistoryRepeat(InsertOp(SampleOf(ev)), Hits(s.pol.objectives, key, SampleOf(ev)));
        }
      case EvaluateCall(id, now) => HistoryRepeat(SortedOp(now), SortsFor(s, id, key));
      case EvaluateAllCall(now) => HistoryRepeat(SortedOp(now), Sorts(s, s.pol.objectives, key));
      case DecideCall(now) => HistoryRepeat(SortedOp(now), Sorts(s, s.pol.objectives, key));
      case _ =>
    }
  }

  lemma EmptyHistory()
    ensures History([]) == []
  {
  }

  /** Everything ever inserted into a window since the last advance is the sample of a
      completion accepted since then; it carries the current epoch and it reconciles. */
  lemma {:induction false} HistoryIsAccepted(s: GovState, calls: seq<Call>, key: WindowKey)
    ensures forall x :: x in History(Trace(s, calls, key)) ==>
      Reconciled(x) && x.epoch == Run(s, calls).epoch
      && exists ev :: ev in Accepted(s, calls) && TotalOf(ev).Ok? && x == SampleOf(ev)
    decreases |calls|
  {
    if calls == [] {
      EmptyHistory();
    } else {
      var init, c := calls[..|calls| - 1], calls[|calls| - 1];
      var before := Run(s, init);
      if c.AdvanceEpochCall? {
        EmptyHistory();
      } else {
        hide Next, WindowOps, History, IngestVerdict, SampleOf, TotalOf, Reconciled;
        HistoryIsAccepted(s, init, key);
        NoClears(before, c, key);
        HistoryAppend(Trace(s, init, key), WindowOps(before, c, key));
        CallHistory(before, c, key);
        SeenUnchanged(before, c);
        forall x | x in History(Trace(s, calls, key))
          ensures Reconciled(x) && x.epoch == Run(s, calls).epoch
            && exists ev :: ev in Accepted(s, calls) && TotalOf(ev).Ok? && x == SampleOf(ev) {
          if x in History(Trace(s, init, key)) {
            var ev :| ev in Accepted(s, init) && TotalOf(ev).Ok? && x == SampleOf(ev);
            assert ev in Accepted(s, calls);
          } else {
            AcceptedReconciles(before, c.ev);
            assert x == SampleOf(c.ev) && c.ev in Accepted(s, calls);
          }
        }
      }
    }
  }

  lemma {:induction false} FilterShrinks<T>(keep: T -> bool, s: seq<T>)
    ensures multiset(Filter(keep, s)) <= multiset(s)
  {
    if s != [] {
      FilterShrinks(keep, s[1..]);
      assert s == [s[0]] + s[1..];
    }
  }

  lemma KeepLastShrinks<T>(s: seq<T>, n: nat)
    ensures multiset(KeepLast(s, n)) <= multiset(s)
  {
    if |s| > n {
      assert s == s[..|s| - n] + s[|s| - n..];
    }
  }

  lemma PrunedShrinks(cfg: WindowConfig, now: int, s: seq<TailSample>)
    ensures multiset(Pruned(cfg, now, s)) <= multiset(s)
  {
    match Cutoff(cfg, now) {
      case None =>
      case Some(cutoff) => FilterShrinks(NotBefore(cutoff), s);
    }
    match CountCap(cfg) {
      case None =>
      case Some(n) => KeepLastShrinks(Unexpired(cfg, now, s), n);
    }
  }

  /** A window retains nothing that was not inserted, and nothing more often than it was. */
  lemma {:induction false} RetainedFromHistory(cfg: WindowConfig, ops: seq<WindowOp>)
    ensures multiset(RunOps(NewWindow(cfg), ops).samples) <= multiset(History(ops))
    ensures RunOps(NewWindow(cfg), ops).cfg == cfg
    decreases |ops|
  {
    if ops != [] {
      var init, op := ops[..|ops| - 1], ops[|ops| - 1];
      var w := RunOps(NewWindow(cfg), init);
      RetainedFromHistory(cfg, init);
      match op {
        case ClearOp =>
        case InsertOp(x) => KeepLastShrinks(w.samples + [x], cfg.maxSamples);
        case PruneOp(now) => PrunedShrinks(cfg, now, w.samples);
        case SortedOp(now) => PrunedShrinks(cfg, now, w.samples);
      }
    }
  }

  lemma SubBags<T>(a: seq<T>, b: seq<T>)
    requires multiset(a) <= multiset(b)
    ensures |a| <= |b| && forall x :: x in a ==> x in b
  {
    assert |multiset(a)| + |multiset(b) - multiset(a)| == |multiset(b)|;
    forall x | x in a ensures x in b {
      assert x in multiset(a);
    }
  }

  /** Evidence is current: in every reachable state each retained sample carries the
      current epoch, reconciles, and comes from a completion that ingestion accepted since
      the last advance of the epoch. */
  lemma EvidenceIsCurrent(s: GovState, calls: seq<Call>, key: WindowKey)
    requires Unused(s)
    ensures var t := Run(s, calls);
      key in t.windows ==> forall x :: x in t.windows[key].samples ==>
        Reconciled(x) && x.epoch == t.epoch
        && exists ev :: ev in Accepted(s, calls) && TotalOf(ev).Ok? && x == SampleOf(ev)
  {
    hide Run, History, Reconciled, RunOps, TotalOf, SampleOf;
    var t := Run(s, calls);
    WindowsFollowTraces(s, calls, key);
    HistoryIsAccepted(s, calls, key);
    if key in t.windows {
      RetainedFromHistory(t.windows[key].cfg, Trace(s, calls, key));
      SubBags(t.windows[key].samples, History(Trace(s, calls, key)));
    }
  }

  // ---- counted once ------------------------------------------------------------------------

  function EnabledWith(objectives: seq<Objective>, id: nat): nat {
    if objectives == [] then 0
    else EnabledWith(objectives[..|objectives| - 1], id)
         + (if objectives[|objectives| - 1].enabled && objectives[|objectives| - 1].id == id then 1 else 0)
  }

  lemma {:induction false} HitsCount(objectives: seq<Objective>, key: WindowKey, x: TailSample)
    ensures Hits(objectives, key, x)
      == if key.requestClass == 0 || key.requestClass == x.requestClass then EnabledWith(objectives, key.objective)
        else 0
  {
    if objectives != [] {
      HitsCount(objectives[..|objectives| - 1], key, x);
    }
  }

  lemma {:induction false} DistinctMeansOne(objectives: seq<Objective>, id: nat)
    requires EnabledDistinct(objectives)
    ensures EnabledWith(objectives, id) <= 1
    ensures (forall i :: 0 <= i < |objectives| && objectives[i].enabled ==> objectives[i].id != id) ==>
      EnabledWith(objectives, id) == 0
  {
    if objectives != [] {
      DistinctMeansOne(objectives[..|objectives| - 1], id);
    }
  }

  lemma {:induction false} PresentCounts(objectives: seq<Objective>, i: nat)
    requires i < |objectives| && objectives[i].enabled
    ensures EnabledWith(objectives, objectives[i].id) >= 1
  {
    if i < |objectives| - 1 {
      PresentCounts(objectives[..|objectives| - 1], i);
    }
  }

  lemma {:induction false} TwiceCounts(objectives: seq<Objective>, i: nat, j: nat)
    requires i < j < |objectives| && objectives[i].enabled && objectives[j].enabled
      && objectives[i].id == objectives[j].id
    ensures EnabledWith(objectives, objectives[i].id) >= 2
  {
    var init := objectives[..|objectives| - 1];
    if j < |objectives| - 1 {
      TwiceCounts(init, i, j);
    } else {
      PresentCounts(init, i);
    }
  }

  /** A policy enters every accepted sample at most once into every window if and only if
      its enabled objectives have distinct ids. */
  lemma CountedOnceIff(objectives: seq<Objective>)
    ensures (forall key: WindowKey, x: TailSample :: Hits(objectives, key, x) <= 1) <==> EnabledDistinct(objectives)
  {
    if EnabledDistinct(objectives) {
      forall key: WindowKey, x: TailSample ensures Hits(objectives, key, x) <= 1 {
        HitsCount(objectives, key, x);
        DistinctMeansOne(objectives, key.objective);
      }
    } else {
      var i, j :| 0 <= i < j < |objectives| && objectives[i].enabled && objectives[j].enabled
        && objectives[i].id == objectives[j].id;
      var key, x := WindowKey(objectives[i].id, 0), TailSample(0, 0, 0, [], 0, 0, 0, 0);
      TwiceCounts(objectives, i, j);
      HitsCount(objectives, key, x);
      assert Hits(objectives, key, x) > 1;
    }
  }

  lemma {:induction false} HistoryBounded(s: GovState, calls: seq<Call>, key: WindowKey)
    requires DistinctAlong(s, calls)
    ensures |History(Trace(s, calls, key))| <= |Accepted(s, calls)|
    decreases |calls|
  {
    if calls == [] {
      EmptyHistory();
    } else {
      var init, c := calls[..|calls| - 1], calls[|calls| - 1];
      var before := Run(s, init);
      HistoryBounded(s, init, key);
      if c.AdvanceEpochCall? {
        EmptyHistory();
      } else {
        hide Next, WindowOps, History, IngestVerdict, Hits, Run, EnabledDistinct;
        NoClears(before, c, key);
        HistoryAppend(Trace(s, init, key), WindowOps(before, c, key));
        CallHistory(before, c, key);
        assert EnabledDistinct(before.pol.objectives);
        CountedOnceIff(before.pol.objectives);
      }
    }
  }

  /** A sufficient evaluation rests on enough distinct requests, all accepted since the
      last advance of the epoch. */
  lemma SufficientMeansDistinctRequests(s: GovState, calls: seq<Call>, o: Objective, now: int)
    requires Unused(s) && DistinctAlong(s, calls)
    ensures Assess(Run(s, calls), o, now).sufficiency.Sufficient? ==>
      |Ids(Accepted(s, calls))| >= Assess(Run(s, calls), o, now).minRequired >= 1
  {
    hide Run, History, RunOps, Decompose, Select, ReportedSet;
    var t, key := Run(s, calls), WindowKey(o.id, o.Scope());
    WindowsFollowTraces(s, calls, key);
    HistoryBounded(s, calls, key);
    SeenIsAccepted(s, calls);
    AtCases(t, key);
    var w := At(t, key);
    if key in t.windows {
      RetainedFromHistory(w.cfg, Trace(s, calls, key));
      SubBags(w.samples, History(Trace(s, calls, key)));
    }
    SortedLength(s, calls, key, now);
  }

  lemma CacheInRuns(s: GovState, calls: seq<Call>, key: WindowKey)
    requires Unused(s)
    ensures CacheAgrees(At(Run(s, calls), key))
  {
    hide Run, RunOps, CacheAgrees;
    var t := Run(s, calls);
    WindowsFollowTraces(s, calls, key);
    AtCases(t, key);
    CacheAlongRun(At(t, key).cfg, Trace(s, calls, key));
    CacheAlongRun(At(t, key).cfg, []);
    RepeatNone(NewWindow(At(t, key).cfg));
  }

  lemma SortedLength(s: GovState, calls: seq<Call>, key: WindowKey, now: int)
    requires Unused(s)
    ensures |SortWindow(At(Run(s, calls), key), now).sorted| <= |At(Run(s, calls), key).samples|
  {
    hide Run;
    var w := At(Run(s, calls), key);
    CacheInRuns(s, calls, key);
    SortedView(w, now);
    SortSorts(Latencies(Pruned(w.cfg, now, w.samples)));
    PruningDrops(w.cfg, now, w.samples);
  }

  // ---- the reported numbers ------------------------------------------------------------------

  /** In every reachable state, a sufficient evaluation observes the counting quantile of the
      samples left by pruning; those same samples are what the tail is decomposed from, and
      the bucket it works on is exactly the samples at or above the observed value. */
  lemma EvaluationObservesQuantile(s: GovState, calls: seq<Call>, o: Objective, now: int)
    requires Unused(s) && 0.0 < s.cfg.read(o.percentile) <= 100.0
    ensures var t := Run(s, calls);
      var ev, w := Assess(t, o, now), EvaluatedWindow(t, o, now);
      ev.sufficiency.Sufficient? ==>
        && w.samples == Pruned(w.cfg, now, At(t, WindowKey(o.id, o.Scope())).samples) && w.samples != []
        && PruneWindow(w, now) == w
        && IsQuantile(Latencies(w.samples), s.cfg.read(o.percentile), ev.observed)
        && ev.decomposition == Decompose(w.samples, ev.observed)
        && (ev.observed > 0 ==>
              var bucket := TailBucket(w.samples, ev.observed);
              && bucket != []
              && (forall x :: x in bucket <==> x in w.samples && x.latency >= ev.observed)
              && |bucket| >= |w.samples| - Rank(s.cfg.read(o.percentile), |w.samples|) + 1)
  {
    hide Run, Decompose, Select, ReportedSet, Filter, TailBucket, Sort, Rank, IsQuantile, Pruned;
    var t, key, p := Run(s, calls), WindowKey(o.id, o.Scope()), s.cfg.read(o.percentile);
    var w := EvaluatedWindow(t, o, now);
    ConfigKept(s, calls);
    CacheInRuns(s, calls, key);
    SortedView(At(t, key), now);
    SortSorts(Latencies(w.samples));
    if Assess(t, o, now).sufficiency.Sufficient? {
      assert w.samples != [];
      QuantileCounts(Latencies(w.samples), p);
      if Assess(t, o, now).observed > 0 {
        BucketMatchesQuantile(w.samples, p);
      }
    }
  }

  /** In every reachable state the attribution of an evaluation is bounded: positive shares
      that add up to at most the tail's total latency, and at most five causes. */
  lemma AttributionInRuns(s: GovState, calls: seq<Call>, o: Objective, now: int)
    requires Unused(s)
    ensures var t := Run(s, calls);
      var ev, w := Assess(t, o, now), EvaluatedWindow(t, o, now);
      && 0 <= ContributedTime(ev.decomposition.contributions) <= TotalLatency(TailBucket(w.samples, ev.observed))
      && (forall c :: c in ev.decomposition.contributions ==>
            c.total > 0 && c.share == Ratio(c.total, TotalLatency(TailBucket(w.samples, ev.observed))))
      && |ev.decomposition.causes| <= 5
      && forall i :: 1 <= i < |ev.decomposition.causes| ==>
        ev.decomposition.causes[i].attribution.AssociatedContributor?
  {
    hide Run, Decompose, Select, ReportedSet, Filter, TailBucket, Reconciled, TotalOf, SampleOf, ContributedTime,
      TotalLatency;
    var t, key := Run(s, calls), WindowKey(o.id, o.Scope());
    EvidenceIsCurrent(s, calls, key);
    AtCases(t, key);
    var w := EvaluatedWindow(t, o, now);
    PruningDrops(At(t, key).cfg, now, At(t, key).samples);
    AttributionBounded(w.samples, Assess(t, o, now).observed);
  }

  // ---- clocks --------------------------------------------------------------------------------

  /** The clock readings of a run never decrease and end at most at `now`. */
  ghost predicate ClockOrdered(calls: seq<Call>, now: int) {
    calls == [] ||
    var c := calls[|calls| - 1];
    if c.EvaluateCall? || c.EvaluateAllCall? || c.DecideCall? || c.AuthorizeCall?
    then c.now <= now && ClockOrdered(calls[..|calls| - 1], c.now)
    else ClockOrdered(calls[..|calls| - 1], now)
  }

  lemma {:induction false} ClockRepeat(ops: seq<WindowOp>, at: int, n: nat, now: int)
    requires ClockRuns(ops, at) && at <= now
    ensures ClockRuns(ops + Repeat(SortedOp(at), n), now)
    decreases n
  {
    if n == 0 {
      assert ops + Repeat(SortedOp(at), 0) == ops;
      ClockLater(ops, at, now);
    } else {
      assert (ops + Repeat(SortedOp(at), n))[..|ops| + n - 1] == ops + Repeat(SortedOp(at), n - 1);
      ClockRepeat(ops, at, n - 1, at);
    }
  }

  lemma {:induction false} ClockInserts(ops: seq<WindowOp>, x: TailSample, n: nat, now: int)
    requires ClockRuns(ops, now)
    ensures ClockRuns(ops + Repeat(InsertOp(x), n), now)
    decreases n
  {
    if n == 0 {
      assert ops + Repeat(InsertOp(x), 0) == ops;
    } else {
      assert (ops + Repeat(InsertOp(x), n))[..|ops| + n - 1] == ops + Repeat(InsertOp(x), n - 1);
      ClockInserts(ops, x, n - 1, now);
    }
  }

  lemma {:induction false} TraceClock(s: GovState, calls: seq<Call>, key: WindowKey, now: int)
    requires ClockOrdered(calls, now)
    ensures ClockRuns(Trace(s, calls, key), now)
    decreases |calls|
  {
    if calls != [] {
      hide Next, Run, Hits, Sorts, SortsFor, IngestVerdict, SampleOf;
      var init, c := calls[..|calls| - 1], calls[|calls| - 1];
      var before := Run(s, init);
      var ops := Trace(s, init, key);
      match c {
        case AdvanceEpochCall =>
        case IngestCall(ev) =>
          TraceClock(s, init, key, now);
          VerdictMeans(before, ev);
          if IngestVerdict(before, ev) == Success {
            ClockInserts(ops, SampleOf(ev), Hits(before.pol.objectives, key, SampleOf(ev)), now);
          } else {
            assert ops + [] == ops;
          }
        case EvaluateCall(id, at) =>
          TraceClock(s, init, key, at);
          ClockRepeat(ops, at, SortsFor(before, id, key), now);
        case EvaluateAllCall(at) =>
          TraceClock(s, init, key, at);
          ClockRepeat(ops, at, Sorts(before, before.pol.objectives, key), now);
        case DecideCall(at) =>
          TraceClock(s, init, key, at);
          ClockRepeat(ops, at, Sorts(before, before.pol.objectives, key), now);
        case AuthorizeCall(_, at) =>
          TraceClock(s, init, key, at);
          ClockLater(ops, at, now);
          assert ops + [] == ops;
        case _ =>
          TraceClock(s, init, key, now);
          assert ops + [] == ops;
      }
    }
  }

  /** Across the whole governor: with a clock that never runs backwards, what an evaluation
      sees is the longest admissible suffix of everything that was ever ingested for its window
      since the last advance of the epoch, whenever that history reads as a batch. */
  lemma EvaluationSeesWholeHistory(s: GovState, calls: seq<Call>, o: Objective, now: int)
    requires Unused(s) && ClockOrdered(calls, now)
    requires var key := WindowKey(o.id, o.Scope());
      var w := At(Run(s, calls), key);
      ReadsAsBatch(w.cfg, now, History(Trace(s, calls, key)))
    ensures var key := WindowKey(o.id, o.Scope());
      LongestAdmissible(At(Run(s, calls), key).cfg, now, History(Trace(s, calls, key)),
        EvaluatedWindow(Run(s, calls), o, now).samples)
  {
    hide Run, RunOps, LongestAdmissible, ReadsAsBatch, History;
    var t, key := Run(s, calls), WindowKey(o.id, o.Scope());
    var w := At(t, key);
    WindowsFollowTraces(s, calls, key);
    AtCases(t, key);
    RepeatNone(NewWindow(w.cfg));
    TraceClock(s, calls, key, now);
    BatchShown(w.cfg, History(Trace(s, calls, key)), Trace(s, calls, key), now);
  }

  // ---- nothing to act on -----------------------------------------------------------------------

  /** No window holds a sample. */
  ghost predicate Bare(s: GovState) {
    forall key: WindowKey :: At(s, key).samples == [] && CacheAgrees(At(s, key))
  }

  predicate CallsForAction(ev: Evaluation) {
    ev.state.Violating? || ev.state.Severe? || ev.state.AtRisk?
  }

  lemma SortedEmpty(w: Window, now: int)
    requires w.samples == [] && CacheAgrees(w)
    ensures SortWindow(w, now).samples == [] && CacheAgrees(SortWindow(w, now)) && SortWindow(w, now).sorted == []
  {
    SortedView(w, now);
    PruningDrops(w.cfg, now, w.samples);
    CacheKept(w, TailSample(0, 0, 0, [], 0, 0, 0, 0), now);
    SortSorts(Latencies([]));
  }

  lemma BareEvaluation(s: GovState, id: nat, now: int)
    requires Bare(s)
    ensures Bare(Evaluate(s, id, now).0)
    ensures Evaluate(s, id, now).1.Ok? ==> !CallsForAction(Evaluate(s, id, now).1.value)
  {
    hide SortWindow, CacheAgrees, Decompose, Select, ReportedSet, RunOps;
    var next := Evaluate(s, id, now).0;
    forall key: WindowKey ensures At(next, key).samples == [] && CacheAgrees(At(next, key)) {
      EvaluateAt(s, id, now, key);
      SortsAtMostOne(s, id, key);
      RepeatMore(At(s, key), SortedOp(now), 0);
      SortedEmpty(At(s, key), now);
    }
    if Evaluated(s, id).Some? {
      var o := Evaluated(s, id).value;
      SortedEmpty(At(s, WindowKey(o.id, o.Scope())), now);
      BareAssessment(s, o, now);
    }
  }

  lemma BareAssessment(s: GovState, o: Objective, now: int)
    requires EvaluatedWindow(s, o, now).sorted == []
    ensures !CallsForAction(Assess(s, o, now))
  {
    hide SortWindow, Decompose, Select, ReportedSet, Judge;
  }

  lemma {:induction false} BareEvaluations(s: GovState, objectives: seq<Objective>, now: int)
    requires Bare(s)
    ensures Bare(EvaluateMany(s, objectives, now).0)
    ensures forall i :: 0 <= i < |EvaluateMany(s, objectives, now).1| ==>
      !CallsForAction(EvaluateMany(s, objectives, now).1[i])
  {
    hide Evaluate, Bare, CallsForAction;
    if objectives != [] {
      var init, o := objectives[..|objectives| - 1], objectives[|objectives| - 1];
      BareEvaluations(s, init, now);
      BareEvaluation(EvaluateMany(s, init, now).0, o.id, now);
    }
  }

  lemma {:induction false} NothingBinds(objectives: seq<Objective>, evs: seq<Evaluation>)
    requires forall i :: 0 <= i < |evs| ==> !CallsForAction(evs[i])
    ensures BindingViolation(objectives, evs) == None
    decreases |evs|
  {
    if evs != [] {
      NothingBinds(objectives, evs[..|evs| - 1]);
    }
  }

  lemma {:induction false} NothingAtRisk(evs: seq<Evaluation>)
    requires forall i :: 0 <= i < |evs| ==> !CallsForAction(evs[i])
    ensures FirstAtRisk(evs) == None
  {
    if evs != [] {
      NothingAtRisk(evs[1..]);
    }
  }

  lemma NoMembers(samples: seq<TailSample>)
    ensures (forall x :: x !in samples) ==> samples == []
  {
    if samples != [] {
      assert samples[0] in samples;
    }
  }

  lemma BareRun(s: GovState, calls: seq<Call>)
    requires Unused(s) && Accepted(s, calls) == []
    ensures Bare(Run(s, calls))
  {
    hide Run, RunOps, CacheAgrees, At, History;
    var t := Run(s, calls);
    forall key: WindowKey ensures At(t, key).samples == [] && CacheAgrees(At(t, key)) {
      CacheInRuns(s, calls, key);
      WindowsFollowTraces(s, calls, key);
      AtCases(t, key);
      HistoryIsAccepted(s, calls, key);
      if key in t.windows {
        RetainedFromHistory(t.windows[key].cfg, Trace(s, calls, key));
        SubBags(t.windows[key].samples, History(Trace(s, calls, key)));
        NoMembers(t.windows[key].samples);
      }
    }
  }

  /** After an advance of the epoch, until some completion is accepted, a decision acts on
      nothing and authorises nothing, whatever else was called in between. */
  lemma NoActionWithoutEvidence(s: GovState, calls: seq<Call>, now: int)
    requires Unused(s) && Accepted(s, calls) == []
    ensures var t := Run(s, calls);
      var (next, r) := Decide(t, now);
      && next.interventions == t.interventions && next.lastIntervention == t.lastIntervention
      && (r.Ok? ==> !r.value.wouldAct && r.value.intervention == None)
  {
    hide Run, Evaluate, EvaluateMany, Bare, Accepted, Authorize, Proposal, At, RunOps, CallsForAction;
    var t := Run(s, calls);
    BareRun(s, calls);
    BareEvaluations(t, t.pol.objectives, now);
    var (after, evs) := EvaluateAll(t, now);
    EvaluateManyAt(t, t.pol.objectives, now, WindowKey(0, 0));
    NothingBinds(t.pol.objectives, evs);
    NothingAtRisk(evs);
  }
}
