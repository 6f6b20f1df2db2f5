/** Request classes do not leak into each other: the window of one class is the class's share
    of the window of all classes. */
module Classes {
  import opened Basics
  import opened Domain
  import opened Windows
  import opened WindowRuns
  import opened Schedules
  import opened Transitions
  import opened WindowTraces
  import opened Evidence

  function OfClass(c: nat): TailSample -> bool {
    (x: TailSample) => x.requestClass == c
  }

  lemma CallIsolation(s: GovState, call: Call, o: nat, c: nat)
    requires c != 0
    ensures History(WindowOps(s, call, WindowKey(o, c)))
      == Filter(OfClass(c), History(WindowOps(s, call, WindowKey(o, 0))))
  {
    hide History, Hits, Sorts, SortsFor, IngestVerdict, SampleOf;
    CallHistory(s, call, WindowKey(o, c));
    CallHistory(s, call, WindowKey(o, 0));
    EmptyHistory();
    if call.IngestCall? && IngestVerdict(s, call.ev) == Success {
      var x := SampleOf(call.ev);
      HitsCount(s.pol.objectives, WindowKey(o, c), x);
      HitsCount(s.pol.objectives, WindowKey(o, 0), x);
      var all := History(WindowOps(s, call, WindowKey(o, 0)));
      if x.requestClass == c {
        FilterAll(OfClass(c), all);
      } else {
        FilterMembers(OfClass(c), all);
        NoMembers(Filter(OfClass(c), all));
      }
    }
  }

  /** In every run, what was ever inserted for a class is the class's subsequence of what was
      inserted for all classes. */
  lemma {:induction false} HistoryIsolation(s: GovState, calls: seq<Call>, o: nat, c: nat)
    requires c != 0
    ensures History(Trace(s, calls, WindowKey(o, c))) == Filter(OfClass(c), History(Trace(s, calls, WindowKey(o, 0))))
    decreases |calls|
  {
    hide History, WindowOps, Run, Next, OfClass;
    EmptyHistory();
    if calls != [] {
      var init, call := calls[..|calls| - 1], calls[|calls| - 1];
      if !call.AdvanceEpochCall? {
        var before, all, one := Run(s, init), WindowKey(o, 0), WindowKey(o, c);
        HistoryIsolation(s, init, o, c);
        CallIsolation(before, call, o, c);
        NoClears(before, call, all);
        NoClears(before, call, one);
        HistoryAppend(Trace(s, init, all), WindowOps(before, call, all));
        HistoryAppend(Trace(s, init, one), WindowOps(before, call, one));
        FilterAppend(OfClass(c), History(Trace(s, init, all)), History(WindowOps(before, call, all)));
      }
    }
  }

  predicate FixedPolicy(calls: seq<Call>) {
    forall i :: 0 <= i < |calls| ==> !calls[i].SetPolicyCall? && !calls[i].LoadCall?
  }

  lemma PolicyKept(s: GovState, c: Call)
    requires !c.SetPolicyCall? && !c.LoadCall?
    ensures Next(s, c).pol == s.pol
  {
    hide AfterLifecycle, AfterEvidence;
    if IsLifecycleCall(c) || IsEvidenceCall(c) {
      CallsKeepSettings(s, c);
    }
  }

  lemma AtConfig(s: GovState, key: WindowKey)
    ensures key !in s.windows ==> At(s, key).cfg == WindowConfigFor(s.pol.objectives, key.objective)
    ensures key in s.windows ==> At(s, key).cfg == s.windows[key].cfg
  {
  }

  /** Under a fixed policy every window keeps its objective's configuration. */
  lemma {:induction false} ConfigInRuns(s: GovState, calls: seq<Call>, key: WindowKey)
    requires s.windows == map[] && FixedPolicy(calls)
    ensures Run(s, calls).pol == s.pol
    ensures At(Run(s, calls), key).cfg == WindowConfigFor(s.pol.objectives, key.objective)
    decreases |calls|
  {
    hide Next, Run, At, WindowOps, RunOps, WindowConfigFor;
    RunNone(s);
    AtConfig(Run(s, calls), key);
    if calls != [] {
      var init, c := calls[..|calls| - 1], calls[|calls| - 1];
      var before := Run(s, init);
      UnfoldRun(s, calls);
      ConfigInRuns(s, init, key);
      PolicyKept(before, c);
      if c.AdvanceEpochCall? {
        AdvanceClears(before);
      } else {
        StepOps(before, c, key);
        RunKeepsConfig(At(before, key), WindowOps(before, c, key));
      }
    }
  }

  // ---- what is retained ------------------------------------------------------------------------

  /** With the last n of the samples kept: no sample of the class is pushed out, or all that are
      kept are of the class. */
  predicate ShareSettled(u: seq<TailSample>, c: nat, n: nat) {
    || (forall i :: 0 <= i < |u| - n ==> u[i].requestClass != c)
    || (forall i :: 0 <= i < |u| && |u| - n <= i ==> u[i].requestClass == c)
  }

  lemma ShareOfLast(u: seq<TailSample>, c: nat, n: nat)
    ensures KeepLast(Filter(OfClass(c), u), n) == Filter(OfClass(c), KeepLast(u, n)) <==> ShareSettled(u, c, n)
  {
    hide KeepLast, OfClass, Filter;
    FilterMembers(OfClass(c), u);
    if |u| <= n {
      KeepAll(u, n);
      KeepAll(Filter(OfClass(c), u), n);
    } else {
      var a, b := u[..|u| - n], u[|u| - n..];
      assert u == a + b;
      KeepTail(u, n);
      FilterAppend(OfClass(c), a, b);
      NoneOfClass(a, c);
      AllOfClass(b, c);
      KeepSecond(Filter(OfClass(c), a), Filter(OfClass(c), b), n);
      ShareInParts(a, b, c);
    }
  }

  lemma ShareInParts(a: seq<TailSample>, b: seq<TailSample>, c: nat)
    ensures ShareSettled(a + b, c, |b|) <==>
      (forall i :: 0 <= i < |a| ==> a[i].requestClass != c) || forall i :: 0 <= i < |b| ==> b[i].requestClass == c
  {
    assert forall i :: 0 <= i < |a| ==> (a + b)[i] == a[i];
    assert forall i :: 0 <= i < |b| ==> (a + b)[|a| + i] == b[i];
    assert forall i :: |a| <= i < |a + b| ==> (a + b)[i] == b[i - |a|];
  }

  lemma NoneOfClass(x: seq<TailSample>, c: nat)
    ensures Filter(OfClass(c), x) == [] <==> forall i :: 0 <= i < |x| ==> x[i].requestClass != c
  {
    FilterMembers(OfClass(c), x);
    if i :| 0 <= i < |x| && x[i].requestClass == c {
      assert x[i] in Filter(OfClass(c), x);
    } else {
      FilterNone(OfClass(c), x);
    }
  }

  lemma AllOfClass(x: seq<TailSample>, c: nat)
    ensures |Filter(OfClass(c), x)| <= |x|
    ensures |Filter(OfClass(c), x)| == |x| <==> forall i :: 0 <= i < |x| ==> x[i].requestClass == c
  {
    FilterMembers(OfClass(c), x);
    FilterFull(OfClass(c), x);
  }

  /** Expired samples that come first in a history come first in each class's share of it. */
  lemma {:induction false} ShareExpiredFirst(cfg: WindowConfig, now: int, h: seq<TailSample>, c: nat)
    requires ExpiredFirst(cfg, now, h)
    ensures ExpiredFirst(cfg, now, Filter(OfClass(c), h))
  {
    hide IsExpired;
    if h != [] {
      var rest := Filter(OfClass(c), h[1..]);
      ShareExpiredFirst(cfg, now, h[1..], c);
      FilterMembers(OfClass(c), h[1..]);
      forall j | 0 <= j < |rest| && IsExpired(cfg, now, rest[j]) ensures IsExpired(cfg, now, h[0]) {
        assert rest[j] in h[1..];
        var i :| 0 <= i < |h[1..]| && h[1..][i] == rest[j];
        assert h[i + 1] == rest[j];
      }
    }
  }

  /** Both commute with expiry when the bound is not exceeded or the expired samples come
      first. */
  lemma ShareCapReads(cfg: WindowConfig, now: int, h: seq<TailSample>, c: nat)
    requires BoundsUnreached(cfg, h) || ExpiredFirst(cfg, now, h)
    ensures CapReads(cfg, now, h) && CapReads(cfg, now, Filter(OfClass(c), h))
  {
    hide CapReads, ExpiredFirst, OfClass, Filter;
    CapReadsWhen(cfg, now, h);
    CapReadsWhen(cfg, now, Filter(OfClass(c), h));
    FilterMembers(OfClass(c), h);
    if ExpiredFirst(cfg, now, h) {
      ShareExpiredFirst(cfg, now, h, c);
    }
  }

  lemma PrunedIsExpiry(s: GovState, calls: seq<Call>, key: WindowKey, now: int)
    requires Unused(s) && FixedPolicy(calls) && ClockOrdered(calls, now)
    requires CapReads(WindowConfigFor(s.pol.objectives, key.objective), now, History(Trace(s, calls, key)))
    ensures var cfg := WindowConfigFor(s.pol.objectives, key.objective);
      var w := At(Run(s, calls), key);
      w.cfg == cfg
      && Pruned(cfg, now, w.samples) == KeepSome(Cap(cfg), Unexpired(cfg, now, History(Trace(s, calls, key))))
  {
    hide Run, At, RunOps, Pruned, Unexpired, History, WindowConfigFor, CapReads, KeepSome;
    var t := Run(s, calls);
    ConfigInRuns(s, calls, key);
    WindowsFollowTraces(s, calls, key);
    AtCases(t, key);
    RepeatNone(NewWindow(At(t, key).cfg));
    TraceClock(s, calls, key, now);
    CappedExpiry(At(t, key).cfg, Trace(s, calls, key), now);
  }

  /** What is retained for the class, against its share of what is retained for all classes. */
  ghost predicate Isolated(s: GovState, o: nat, c: nat, now: int) {
    var all, one := At(s, WindowKey(o, 0)), At(s, WindowKey(o, c));
    Pruned(one.cfg, now, one.samples) == Filter(OfClass(c), Pruned(all.cfg, now, all.samples))
  }

  /** Under a fixed policy and a clock that never runs backwards, where the smaller count bound
      commutes with expiry on what was ingested for the objective and for the class: pruning both
      windows at the same time leaves for the class exactly its share of what it leaves for all
      classes if and only if that bound pushes no unexpired sample of the class out, or leaves only
      samples of the class. */
  lemma RetainedIsolationIff(s: GovState, calls: seq<Call>, o: nat, c: nat, now: int)
    requires Unused(s) && FixedPolicy(calls) && ClockOrdered(calls, now) && c != 0
    requires var cfg, h := WindowConfigFor(s.pol.objectives, o), History(Trace(s, calls, WindowKey(o, 0)));
      CapReads(cfg, now, h) && CapReads(cfg, now, Filter(OfClass(c), h))
    ensures var cfg, h := WindowConfigFor(s.pol.objectives, o), History(Trace(s, calls, WindowKey(o, 0)));
      Isolated(Run(s, calls), o, c, now)
      <==> (Cap(cfg).Some? ==> ShareSettled(Unexpired(cfg, now, h), c, Cap(cfg).value))
  {
    hide Run, At, RunOps, Pruned, History, WindowConfigFor, OfClass, Filter, CapReads, KeepLast, Cap, ShareSettled;
    var cfg, h := WindowConfigFor(s.pol.objectives, o), History(Trace(s, calls, WindowKey(o, 0)));
    HistoryIsolation(s, calls, o, c);
    PrunedIsExpiry(s, calls, WindowKey(o, 0), now);
    PrunedIsExpiry(s, calls, WindowKey(o, c), now);
    if Cutoff(cfg, now).Some? {
      FilterSwap(NotBefore(Cutoff(cfg, now).value), OfClass(c), h);
    }
    if Cap(cfg).Some? {
      ShareOfLast(Unexpired(cfg, now, h), c, Cap(cfg).value);
    }
  }

  /** ... and so as long as what was ingested for the objective exceeds none of its window's count
      bounds. */
  lemma RetainedIsolation(s: GovState, calls: seq<Call>, o: nat, c: nat, now: int)
    requires Unused(s) && FixedPolicy(calls) && ClockOrdered(calls, now) && c != 0
    requires BoundsUnreached(WindowConfigFor(s.pol.objectives, o), History(Trace(s, calls, WindowKey(o, 0))))
    ensures Isolated(Run(s, calls), o, c, now)
  {
    hide Run, Isolated, History, WindowConfigFor, ExpiredFirst, Unexpired, IsExpired, CapReads, OfClass;
    ShareCapReads(WindowConfigFor(s.pol.objectives, o), now, History(Trace(s, calls, WindowKey(o, 0))), c);
    RetainedIsolationIff(s, calls, o, c, now);
    UnexpiredFacts(WindowConfigFor(s.pol.objectives, o), now, History(Trace(s, calls, WindowKey(o, 0))));
  }
}
