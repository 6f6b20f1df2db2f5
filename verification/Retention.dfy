/** What each window mode retains, told by the clock and the captures alone, and what an
    evaluation therefore sees of the accepted completions. */
module Retention {
  import opened Basics
  import opened Domain
  import opened Windows
  import opened WindowRuns
  import opened Schedules
  import opened Transitions
  import opened WindowTraces
  import opened Evidence
  import opened Classes

  // ---- one prune -----------------------------------------------------------------------------

  /** The k-th multiple of the interval d bounds the bucket of the clock: the bucket that the clock
      is in starts there, or, before the origin of the clock, ends there. */
  predicate BucketAt(k: int, d: int, now: int) {
    if now >= 0 then k * d <= now < k * d + d else k * d - d < now <= k * d
  }

  /** The mode keeps a sample captured then, as far as its age goes. */
  ghost predicate YoungEnough(cfg: WindowConfig, now: int, captured: int) {
    match cfg.mode
    case RollingTime => now - captured <= cfg.duration
    case FixedRecent => now - captured <= cfg.duration
    case Tumbling => cfg.duration > 0 ==> forall k :: BucketAt(k, cfg.duration, now) ==> captured >= k * cfg.duration
    case RollingCount => true
    case UnlistedMode(_) => true
  }

  lemma OneBucket(d: int, now: int)
    requires d > 0
    ensures BucketAt(TruncDiv(now, d), d, now)
    ensures forall k :: BucketAt(k, d, now) ==> k == TruncDiv(now, d)
  {
    if now >= 0 {
      DivBounds(now, d);
    } else {
      DivBounds(-now, d);
      NegatedProduct((-now) / d, d);
    }
    forall k | BucketAt(k, d, now) ensures k == TruncDiv(now, d) {
      CloseMultiples(k, TruncDiv(now, d), d);
    }
  }

  lemma NegatedProduct(q: int, d: int)
    ensures (-q) * d == -(q * d)
  {
  }

  lemma CloseMultiples(j: int, k: int, d: int)
    requires d > 0 && -d < j * d - k * d < d
    ensures j == k
  {
    assert j * d - k * d == (j - k) * d;
    if j > k {
      MulMonotone(1, j - k, d);
    } else if j < k {
      MulMonotone(1, k - j, d);
      NegatedProduct(k - j, d);
    }
  }

  lemma AgeIff(cfg: WindowConfig, now: int, x: TailSample)
    ensures YoungEnough(cfg, now, x.captured) <==> !IsExpired(cfg, now, x)
  {
    if cfg.mode.Tumbling? && cfg.duration > 0 {
      OneBucket(cfg.duration, now);
    }
  }

  lemma {:induction false} FilterSame<T(!new)>(p: T -> bool, q: T -> bool, s: seq<T>)
    requires forall x :: x in s ==> p(x) == q(x)
    ensures Filter(p, s) == Filter(q, s)
  {
    if s != [] {
      FilterSame(p, q, s[1..]);
    }
  }

  /** Pruning by the definition of each mode: ROLLING_TIME keeps what was captured at most the
      duration ago, FIXED_RECENT the newest of these, ROLLING_COUNT the newest, and TUMBLING what
      was captured from the start of the clock's bucket on; without an interval it keeps
      everything, and so does an unlisted mode. */
  lemma PruningByMode(cfg: WindowConfig, now: int, samples: seq<TailSample>)
    ensures var n := |samples| - cfg.fixedCount;
      cfg.mode.RollingCount? ==> Pruned(cfg, now, samples) == if n > 0 then samples[n..] else samples
    ensures cfg.mode.RollingTime? ==>
      Pruned(cfg, now, samples) == Filter((x: TailSample) => now - x.captured <= cfg.duration, samples)
    ensures var recent := Filter((x: TailSample) => now - x.captured <= cfg.duration, samples);
      var n := |recent| - cfg.fixedCount;
      cfg.mode.FixedRecent? ==> Pruned(cfg, now, samples) == if n > 0 then recent[n..] else recent
    ensures cfg.mode.Tumbling? && cfg.duration > 0 ==> exists k :: BucketAt(k, cfg.duration, now)
    ensures cfg.mode.Tumbling? && cfg.duration > 0 ==>
      forall k :: BucketAt(k, cfg.duration, now) ==>
        Pruned(cfg, now, samples) == Filter((x: TailSample) => x.captured >= k * cfg.duration, samples)
    ensures (cfg.mode.Tumbling? && cfg.duration <= 0) || cfg.mode.UnlistedMode? ==> Pruned(cfg, now, samples) == samples
  {
    hide Filter;
    if cfg.mode.RollingTime? || cfg.mode.FixedRecent? {
      FilterSame(NotBefore(now - cfg.duration), (x: TailSample) => now - x.captured <= cfg.duration, samples);
    } else if cfg.mode.Tumbling? && cfg.duration > 0 {
      OneBucket(cfg.duration, now);
      forall k | BucketAt(k, cfg.duration, now)
        ensures Pruned(cfg, now, samples) == Filter((x: TailSample) => x.captured >= k * cfg.duration, samples) {
        FilterSame(NotBefore(k * cfg.duration), (x: TailSample) => x.captured >= k * cfg.duration, samples);
      }
    }
  }

  // ---- what an evaluation sees -----------------------------------------------------------------

  /** Of the samples in its window an evaluation sees exactly those young enough for the mode, or
      the newest of them where the mode counts. */
  lemma EvaluationSeesYoung(s: GovState, o: Objective, now: int, x: TailSample)
    ensures var w := At(s, WindowKey(o.id, o.Scope()));
      var seen := EvaluatedWindow(s, o, now).samples;
      && (x in seen ==> x in w.samples && YoungEnough(w.cfg, now, x.captured))
      && (x in w.samples && YoungEnough(w.cfg, now, x.captured) && x !in seen ==>
            (w.cfg.mode.FixedRecent? || w.cfg.mode.RollingCount?) && |seen| == w.cfg.fixedCount)
  {
    hide Unexpired, YoungEnough, IsExpired;
    var w := At(s, WindowKey(o.id, o.Scope()));
    AgeIff(w.cfg, now, x);
    UnexpiredMembers(w.cfg, now, w.samples, x);
  }

  lemma UnexpiredMembers(cfg: WindowConfig, now: int, samples: seq<TailSample>, x: TailSample)
    ensures x in Unexpired(cfg, now, samples) <==> x in samples && !IsExpired(cfg, now, x)
  {
    if Cutoff(cfg, now).Some? {
      FilterMembers(NotBefore(Cutoff(cfg, now).value), samples);
    }
  }

  /** Under a fixed policy that window forgets by the objective's own settings. */
  lemma EvaluationUsesOwnWindow(s: GovState, calls: seq<Call>, o: Objective)
    requires s.windows == map[] && FixedPolicy(calls) && FindObjective(s.pol.objectives, o.id) == Some(o)
    ensures At(Run(s, calls), WindowKey(o.id, o.Scope())).cfg == o.window
  {
    hide Run, At, FindObjective;
    ConfigInRuns(s, calls, WindowKey(o.id, o.Scope()));
  }

  // ---- everything accepted is ingested -----------------------------------------------------------

  /** Every policy in force along the run has one enabled objective with the id. */
  ghost predicate EnabledOnceAlong(s: GovState, calls: seq<Call>, id: nat) {
    && EnabledWith(Run(s, calls).pol.objectives, id) == 1
    && (calls != [] ==> EnabledOnceAlong(s, calls[..|calls| - 1], id))
  }

  /** The samples of the completions, one by one. */
  ghost predicate SampledFrom(samples: seq<TailSample>, evs: seq<RequestLatency>) {
    && |samples| == |evs|
    && forall i :: 0 <= i < |evs| ==> TotalOf(evs[i]).Ok? && samples[i] == SampleOf(evs[i])
  }

  lemma CallSampled(s: GovState, c: Call, id: nat)
    requires EnabledWith(s.pol.objectives, id) == 1
    ensures SampledFrom(History(WindowOps(s, c, WindowKey(id, 0))),
      if c.IngestCall? && IngestVerdict(s, c.ev) == Success then [c.ev] else [])
  {
    hide History, Hits, Sorts, SortsFor, IngestVerdict, SampleOf;
    CallHistory(s, c, WindowKey(id, 0));
    if c.IngestCall? && IngestVerdict(s, c.ev) == Success {
      HitsCount(s.pol.objectives, WindowKey(id, 0), SampleOf(c.ev));
      var h := History(WindowOps(s, c, WindowKey(id, 0)));
      assert h[0] in h;
    }
  }

  lemma SampledAppend(a: seq<TailSample>, b: seq<TailSample>, u: seq<RequestLatency>, v: seq<RequestLatency>)
    requires SampledFrom(a, u) && SampledFrom(b, v)
    ensures SampledFrom(a + b, u + v)
  {
    hide SampleOf, TotalOf;
  }

  /** What was ingested for an objective since the last advance is the sample of every completion
      accepted since then, in order and once each. */
  lemma {:induction false} HistoryIsAllAccepted(s: GovState, calls: seq<Call>, id: nat)
    requires EnabledOnceAlong(s, calls, id)
    ensures SampledFrom(History(Trace(s, calls, WindowKey(id, 0))), Accepted(s, calls))
    decreases |calls|
  {
    hide History, WindowOps, Run, Next, IngestVerdict, SampledFrom;
    EmptyHistory();
    NoneSampled();
    if calls != [] {
      var init, c := calls[..|calls| - 1], calls[|calls| - 1];
      if !c.AdvanceEpochCall? {
        var before, key := Run(s, init), WindowKey(id, 0);
        HistoryIsAllAccepted(s, init, id);
        OnceBefore(s, calls, id);
        NoClears(before, c, key);
        HistoryAppend(Trace(s, init, key), WindowOps(before, c, key));
        CallSampled(before, c, id);
        SampledAppend(History(Trace(s, init, key)), History(WindowOps(before, c, key)), Accepted(s, init),
          if c.IngestCall? && IngestVerdict(before, c.ev) == Success then [c.ev] else []);
        assert Accepted(s, init) + [] == Accepted(s, init);
      }
    }
  }

  lemma OnceBefore(s: GovState, calls: seq<Call>, id: nat)
    requires EnabledOnceAlong(s, calls, id) && calls != []
    ensures EnabledWith(Run(s, calls[..|calls| - 1]).pol.objectives, id) == 1
  {
    hide Run;
  }

  lemma NoneSampled()
    ensures SampledFrom([], [])
  {
  }

  /** The completion is accepted evidence for the objective's class. */
  predicate OfScope(o: Objective, ev: RequestLatency) {
    o.Scope() == 0 || ev.requestClass == o.Scope()
  }

  lemma ScopedSamples(all: seq<TailSample>, evs: seq<RequestLatency>, o: Objective, x: TailSample)
    requires SampledFrom(all, evs)
    ensures x in all && (o.Scope() == 0 || x.requestClass == o.Scope()) <==>
      exists ev :: ev in evs && OfScope(o, ev) && TotalOf(ev).Ok? && x == SampleOf(ev)
  {
    hide TotalOf;
    if x in all && (o.Scope() == 0 || x.requestClass == o.Scope()) {
      var i :| 0 <= i < |all| && all[i] == x;
      assert evs[i] in evs && OfScope(o, evs[i]);
    }
    if ev :| ev in evs && OfScope(o, ev) && TotalOf(ev).Ok? && x == SampleOf(ev) {
      var i :| 0 <= i < |evs| && evs[i] == ev;
      assert all[i] == x;
    }
  }

  lemma ScopedHistory(s: GovState, calls: seq<Call>, o: Objective, x: TailSample)
    requires EnabledOnceAlong(s, calls, o.id)
    ensures x in History(Trace(s, calls, WindowKey(o.id, o.Scope()))) <==>
      exists ev :: ev in Accepted(s, calls) && OfScope(o, ev) && TotalOf(ev).Ok? && x == SampleOf(ev)
  {
    hide History, Run, EnabledOnceAlong, TotalOf, SampleOf, OfScope, Trace, Accepted, SampledFrom;
    var all := History(Trace(s, calls, WindowKey(o.id, 0)));
    HistoryIsAllAccepted(s, calls, o.id);
    ScopedSamples(all, Accepted(s, calls), o, x);
    if o.Scope() != 0 {
      HistoryIsolation(s, calls, o.id, o.Scope());
      FilterMembers(OfClass(o.Scope()), all);
    }
  }

  /** In every run with a clock that never runs backwards, as long as no count bound is exceeded:
      an evaluation sees the sample of a completion exactly if the completion was accepted since
      the last advance, is of the objective's class, and is young enough for the mode. */
  lemma EvaluationSeesAccepted(s: GovState, calls: seq<Call>, o: Objective, now: int, x: TailSample)
    requires Unused(s) && ClockOrdered(calls, now) && EnabledOnceAlong(s, calls, o.id)
    requires var key := WindowKey(o.id, o.Scope());
      BoundsUnreached(At(Run(s, calls), key).cfg, History(Trace(s, calls, key)))
    ensures x in EvaluatedWindow(Run(s, calls), o, now).samples <==>
      && (exists ev :: ev in Accepted(s, calls) && OfScope(o, ev) && TotalOf(ev).Ok? && x == SampleOf(ev))
      && YoungEnough(At(Run(s, calls), WindowKey(o.id, o.Scope())).cfg, now, x.captured)
  {
    hide Run, RunOps, History, Unexpired, YoungEnough, IsExpired, BoundsUnreached, Pruned, EnabledOnceAlong, SampleOf,
      TotalOf;
    var t, key := Run(s, calls), WindowKey(o.id, o.Scope());
    var w := At(t, key);
    WindowsFollowTraces(s, calls, key);
    AtCases(t, key);
    RepeatNone(NewWindow(w.cfg));
    TraceClock(s, calls, key, now);
    UncappedTimeIsFilter(w.cfg, Trace(s, calls, key), now);
    ScopedHistory(s, calls, o, x);
    AgeIff(w.cfg, now, x);
    UnexpiredMembers(w.cfg, now, History(Trace(s, calls, key)), x);
  }

  /** ... and beyond the bounds, where the smaller one commutes with expiry, the newest of those
      that are young enough, as many as the bound allows. */
  lemma EvaluationSeesNewest(s: GovState, calls: seq<Call>, o: Objective, now: int)
    requires Unused(s) && ClockOrdered(calls, now)
    requires var key := WindowKey(o.id, o.Scope());
      CapReads(At(Run(s, calls), key).cfg, now, History(Trace(s, calls, key)))
    ensures var key := WindowKey(o.id, o.Scope());
      var cfg := At(Run(s, calls), key).cfg;
      var young := Filter((x: TailSample) => YoungEnough(cfg, now, x.captured), History(Trace(s, calls, key)));
      EvaluatedWindow(Run(s, calls), o, now).samples == KeepSome(Cap(cfg), young)
  {
    hide Run, RunOps, History, Unexpired, YoungEnough, CapReads, Pruned, Filter;
    var t, key := Run(s, calls), WindowKey(o.id, o.Scope());
    var w := At(t, key);
    WindowsFollowTraces(s, calls, key);
    AtCases(t, key);
    RepeatNone(NewWindow(w.cfg));
    TraceClock(s, calls, key, now);
    CappedExpiry(w.cfg, Trace(s, calls, key), now);
    UnexpiredIsYoung(w.cfg, now, History(Trace(s, calls, key)));
  }

  lemma UnexpiredIsYoung(cfg: WindowConfig, now: int, samples: seq<TailSample>)
    ensures Unexpired(cfg, now, samples) == Filter((x: TailSample) => YoungEnough(cfg, now, x.captured), samples)
  {
    hide Filter, YoungEnough, IsExpired;
    var young := (x: TailSample) => YoungEnough(cfg, now, x.captured);
    forall x ensures young(x) <==> !IsExpired(cfg, now, x) {
      AgeIff(cfg, now, x);
    }
    KeptIsUnexpired(cfg, now, samples, young);
  }

  lemma KeptIsUnexpired(cfg: WindowConfig, now: int, samples: seq<TailSample>, young: TailSample -> bool)
    requires forall x :: young(x) <==> !IsExpired(cfg, now, x)
    ensures Unexpired(cfg, now, samples) == Filter(young, samples)
  {
    hide Filter;
    if Cutoff(cfg, now).Some? {
      FilterSame(NotBefore(Cutoff(cfg, now).value), young, samples);
    } else {
      FilterEverything(young, samples);
    }
  }

  lemma FilterEverything<T(!new)>(keep: T -> bool, s: seq<T>)
    requires forall x :: keep(x)
    ensures Filter(keep, s) == s
  {
    FilterAll(keep, s);
  }
}
