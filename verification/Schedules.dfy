/** When a window is pruned, and what that does to what it shows. A schedule interleaves one
    insertion history with prunes and sorted reads; the caps and the expiry of a window need
    not commute, so schedules can differ. Every schedule shows something between two extremes
    that both occur, which settles exactly when all schedules agree and exactly when all of
    them show the batch reading of the history. */
module Schedules {
  import opened Basics
  import opened Domain
  import opened Quantiles
  import opened Windows
  import opened WindowRuns

  /** What the window shows at a time after its operations. */
  function Shown(cfg: WindowConfig, ops: seq<WindowOp>, now: int): seq<TailSample> {
    Pruned(cfg, now, RunOps(NewWindow(cfg), ops).samples)
  }

  /** The operations insert the history and read no clock later than the time. */
  ghost predicate IsSchedule(ops: seq<WindowOp>, h: seq<TailSample>, now: int) {
    ClockRuns(ops, now) && History(ops) == h
  }

  // ---- suffixes ----------------------------------------------------------------------------

  predicate IsSuffix<T(==)>(a: seq<T>, b: seq<T>) {
    |a| <= |b| && b[|b| - |a|..] == a
  }

  function KeepSome<T>(n: Option<nat>, x: seq<T>): seq<T> {
    match n
    case None => x
    case Some(k) => KeepLast(x, k)
  }

  lemma SuffixChain<T>(a: seq<T>, b: seq<T>, c: seq<T>)
    requires IsSuffix(a, b) && IsSuffix(b, c)
    ensures IsSuffix(a, c)
  {
    assert c[|c| - |b|..][|b| - |a|..] == c[|c| - |a|..];
  }

  lemma SuffixInto<T>(a: seq<T>, x: seq<T>, n: nat)
    requires IsSuffix(a, x) && |a| <= n
    ensures IsSuffix(a, KeepLast(x, n))
  {
    if |x| > n {
      assert x[|x| - n..][n - |a|..] == x[|x| - |a|..];
    }
  }

  lemma SuffixAppend<T>(a: seq<T>, b: seq<T>, c: seq<T>)
    requires IsSuffix(a, b)
    ensures IsSuffix(a + c, b + c)
  {
    assert (b + c)[|b| - |a|..] == b[|b| - |a|..] + c;
  }

  lemma SuffixKeep<T>(a: seq<T>, b: seq<T>, n: nat)
    requires IsSuffix(a, b)
    ensures IsSuffix(KeepLast(a, n), KeepLast(b, n)) && IsSuffix(KeepLast(b, n), b)
  {
    assert |a| > n ==> b[|b| - |a|..][|a| - n..] == b[|b| - n..];
    SuffixInto(KeepLast(a, n), b, n);
  }

  lemma SuffixBoth<T>(a: seq<T>, b: seq<T>)
    requires IsSuffix(a, b) && IsSuffix(b, a)
    ensures a == b
  {
  }

  lemma KeepTwice<T>(x: seq<T>, m: nat, n: nat)
    ensures KeepLast(KeepLast(x, m), n) == KeepLast(x, if m < n then m else n)
  {
    if |x| > m > n {
      assert x[|x| - m..][m - n..] == x[|x| - n..];
    }
  }

  lemma KeepSnoc<T>(x: seq<T>, s: T, n: nat)
    requires n > 0
    ensures KeepLast(x + [s], n) == KeepLast(x, n - 1) + [s]
  {
  }

  lemma KeepAppend<T>(x: seq<T>, y: seq<T>, m: nat, n: nat)
    requires m >= n || m + |y| >= n
    ensures KeepLast(KeepLast(x, m) + y, n) == KeepLast(x + y, n)
  {
    if |x| > m {
      assert x[|x| - m..] + y == (x + y)[|x| - m..];
      KeepTwice(x + y, m + |y|, n);
    }
  }

  // ---- expiry ------------------------------------------------------------------------------

  predicate IsExpired(cfg: WindowConfig, now: int, s: TailSample) {
    Cutoff(cfg, now).Some? && s.captured < Cutoff(cfg, now).value
  }

  lemma UnexpiredAppend(cfg: WindowConfig, now: int, a: seq<TailSample>, b: seq<TailSample>)
    ensures Unexpired(cfg, now, a + b) == Unexpired(cfg, now, a) + Unexpired(cfg, now, b)
  {
    hide Filter;
    if Cutoff(cfg, now).Some? {
      FilterAppend(NotBefore(Cutoff(cfg, now).value), a, b);
    }
  }

  lemma UnexpiredFacts(cfg: WindowConfig, now: int, x: seq<TailSample>)
    ensures |Unexpired(cfg, now, x)| <= |x|
    ensures |Unexpired(cfg, now, x)| == |x| <==> forall i :: 0 <= i < |x| ==> !IsExpired(cfg, now, x[i])
    ensures |Unexpired(cfg, now, x)| == |x| ==> Unexpired(cfg, now, x) == x
    ensures Unexpired(cfg, now, x) == [] <==> forall i :: 0 <= i < |x| ==> IsExpired(cfg, now, x[i])
    ensures forall i :: 0 <= i < |Unexpired(cfg, now, x)| ==> !IsExpired(cfg, now, Unexpired(cfg, now, x)[i])
  {
    hide Filter;
    if Cutoff(cfg, now).Some? {
      var keep := NotBefore(Cutoff(cfg, now).value);
      FilterMembers(keep, x);
      FilterFull(keep, x);
      var y := Filter(keep, x);
      assert forall i :: 0 <= i < |y| ==> y[i] in y;
      assert forall i :: 0 <= i < |x| ==> x[i] in x && (keep(x[i]) ==> x[i] in y);
      if forall i :: 0 <= i < |x| ==> !IsExpired(cfg, now, x[i]) {
        FilterAll(keep, x);
      }
      if forall i :: 0 <= i < |x| ==> IsExpired(cfg, now, x[i]) {
        FilterNone(keep, x);
      }
    } else {
      assert x != [] ==> !IsExpired(cfg, now, x[0]);
    }
  }

  lemma UnexpiredSuffix(cfg: WindowConfig, now: int, a: seq<TailSample>, b: seq<TailSample>)
    requires IsSuffix(a, b)
    ensures IsSuffix(Unexpired(cfg, now, a), Unexpired(cfg, now, b))
  {
    hide Unexpired;
    assert b == b[..|b| - |a|] + a;
    UnexpiredAppend(cfg, now, b[..|b| - |a|], a);
  }

  lemma UnexpiredLater(cfg: WindowConfig, t: int, now: int, x: seq<TailSample>)
    requires t <= now
    ensures Unexpired(cfg, now, Unexpired(cfg, t, x)) == Unexpired(cfg, now, x)
  {
    hide Filter;
    CutoffMonotone(cfg, t, now);
    if Cutoff(cfg, now).Some? {
      FilterWeaker(NotBefore(Cutoff(cfg, now).value), NotBefore(Cutoff(cfg, t).value), x);
    }
  }

  // ---- the two extremes ----------------------------------------------------------------------

  /** The smaller of the two count bounds. */
  function Cap(cfg: WindowConfig): Option<nat> {
    if cfg.maxSamples == 0 then CountCap(cfg)
    else if CountCap(cfg).Some? && CountCap(cfg).value < cfg.maxSamples then CountCap(cfg)
    else Some(cfg.maxSamples)
  }

  /** Caps first, expiry after: what survives every schedule. */
  function Poorest(cfg: WindowConfig, now: int, h: seq<TailSample>): seq<TailSample> {
    Unexpired(cfg, now, KeepSome(Cap(cfg), h))
  }

  /** Expiry as early as possible; the hard bound still acts on each insertion. */
  function Eager(cfg: WindowConfig, now: int, h: seq<TailSample>): seq<TailSample> {
    if cfg.maxSamples == 0 then Unexpired(cfg, now, h)
    else if h == [] then []
    else KeepLast(Unexpired(cfg, now, h[..|h| - 1]), cfg.maxSamples - 1) + Unexpired(cfg, now, [h[|h| - 1]])
  }

  function Richest(cfg: WindowConfig, now: int, h: seq<TailSample>): seq<TailSample> {
    KeepSome(CountCap(cfg), Eager(cfg, now, h))
  }

  lemma EagerSuffix(cfg: WindowConfig, now: int, h: seq<TailSample>)
    ensures IsSuffix(Eager(cfg, now, h), Unexpired(cfg, now, h))
    ensures cfg.maxSamples > 0 ==>
      KeepLast(Eager(cfg, now, h), cfg.maxSamples - 1) == KeepLast(Unexpired(cfg, now, h), cfg.maxSamples - 1)
  {
    hide Unexpired, KeepLast;
    if cfg.maxSamples > 0 {
      if h == [] {
        UnexpiredFacts(cfg, now, h);
      } else {
        var init, last := h[..|h| - 1], [h[|h| - 1]];
        var u, v := Unexpired(cfg, now, init), Unexpired(cfg, now, last);
        assert h == init + last;
        UnexpiredAppend(cfg, now, init, last);
        SuffixKeep(u, u, cfg.maxSamples - 1);
        SuffixAppend(KeepLast(u, cfg.maxSamples - 1), u, v);
        KeepAppend(u, v, cfg.maxSamples - 1, cfg.maxSamples - 1);
      }
    }
  }

  /** Every schedule shows at least the poorest reading ... */
  lemma {:induction false} KeepsPoorest(cfg: WindowConfig, ops: seq<WindowOp>, now: int, n: nat)
    requires ClockRuns(ops, now) && (Cap(cfg).Some? ==> n <= Cap(cfg).value)
    ensures IsSuffix(Unexpired(cfg, now, KeepLast(History(ops), n)),
                     Unexpired(cfg, now, KeepLast(RunOps(NewWindow(cfg), ops).samples, n)))
    decreases |ops|
  {
    hide Unexpired, KeepLast;
    if ops != [] {
      var init, op := ops[..|ops| - 1], ops[|ops| - 1];
      var h, w := History(init), RunOps(NewWindow(cfg), init).samples;
      RunKeepsConfig(NewWindow(cfg), init);
      match op {
        case ClearOp =>
        case InsertOp(s) =>
          KeepsPoorest(cfg, init, now, if n == 0 then 0 else n - 1);
          if s.latency >= 0 {
            InsertedPoorest(cfg, now, h, w, s, n);
          } else {
            KeepsPoorest(cfg, init, now, n);
          }
        case PruneOp(at) =>
          ClockLater(init, at, now);
          KeepsPoorest(cfg, init, now, n);
          PrunedPoorest(cfg, now, h, w, at, n);
        case SortedOp(at) =>
          ClockLater(init, at, now);
          KeepsPoorest(cfg, init, now, n);
          PrunedPoorest(cfg, now, h, w, at, n);
      }
    }
  }

  lemma InsertedPoorest(cfg: WindowConfig, now: int, h: seq<TailSample>, w: seq<TailSample>, s: TailSample, n: nat)
    requires Cap(cfg).Some? ==> n <= Cap(cfg).value
    requires n > 0 ==> IsSuffix(Unexpired(cfg, now, KeepLast(h, n - 1)), Unexpired(cfg, now, KeepLast(w, n - 1)))
    ensures IsSuffix(Unexpired(cfg, now, KeepLast(h + [s], n)), Unexpired(cfg, now, KeepLast(Trimmed(cfg, w + [s]), n)))
  {
    hide Unexpired;
    if n == 0 {
      assert KeepLast(h + [s], 0) == [];
      assert KeepLast(Trimmed(cfg, w + [s]), 0) == [];
    } else {
      hide KeepLast;
      KeepTwice(w + [s], cfg.maxSamples, n);
      KeepSnoc(h, s, n);
      KeepSnoc(w, s, n);
      UnexpiredAppend(cfg, now, KeepLast(h, n - 1), [s]);
      UnexpiredAppend(cfg, now, KeepLast(w, n - 1), [s]);
      SuffixAppend(Unexpired(cfg, now, KeepLast(h, n - 1)), Unexpired(cfg, now, KeepLast(w, n - 1)),
        Unexpired(cfg, now, [s]));
    }
  }

  lemma PrunedPoorest(cfg: WindowConfig, now: int, h: seq<TailSample>, w: seq<TailSample>, at: int, n: nat)
    requires at <= now && (Cap(cfg).Some? ==> n <= Cap(cfg).value)
    requires IsSuffix(Unexpired(cfg, now, KeepLast(h, n)), Unexpired(cfg, now, KeepLast(w, n)))
    ensures IsSuffix(Unexpired(cfg, now, KeepLast(h, n)), Unexpired(cfg, now, KeepLast(Pruned(cfg, at, w), n)))
  {
    hide Unexpired, KeepLast, IsSuffix;
    var before, kept := KeepLast(w, n), Unexpired(cfg, at, w);
    KeptLast(w, n);
    UnexpiredSuffix(cfg, at, before, w);
    UnexpiredFacts(cfg, at, before);
    SuffixInto(Unexpired(cfg, at, before), kept, n);
    UnexpiredSuffix(cfg, now, Unexpired(cfg, at, before), KeepLast(kept, n));
    UnexpiredLater(cfg, at, now, before);
    if CountCap(cfg).Some? {
      KeepTwice(kept, CountCap(cfg).value, n);
    }
    SuffixChain(Unexpired(cfg, now, KeepLast(h, n)), Unexpired(cfg, now, before),
      Unexpired(cfg, now, KeepLast(kept, n)));
  }

  lemma KeptLast<T>(x: seq<T>, n: nat)
    ensures IsSuffix(KeepLast(x, n), x) && |KeepLast(x, n)| <= n
  {
  }

  /** ... and at most the richest one. */
  lemma {:induction false} WithinRichest(cfg: WindowConfig, ops: seq<WindowOp>, now: int)
    requires ClockRuns(ops, now)
    ensures IsSuffix(Unexpired(cfg, now, RunOps(NewWindow(cfg), ops).samples), Eager(cfg, now, History(ops)))
    decreases |ops|
  {
    hide Unexpired, KeepLast, Eager;
    if ops == [] {
      UnexpiredFacts(cfg, now, []);
    } else {
      var init, op := ops[..|ops| - 1], ops[|ops| - 1];
      var h, w := History(init), RunOps(NewWindow(cfg), init).samples;
      RunKeepsConfig(NewWindow(cfg), init);
      match op {
        case ClearOp => UnexpiredFacts(cfg, now, []);
        case InsertOp(s) =>
          WithinRichest(cfg, init, now);
          if s.latency >= 0 {
            InsertedRichest(cfg, now, h, w, s);
          }
        case PruneOp(at) =>
          ClockLater(init, at, now);
          WithinRichest(cfg, init, now);
          PrunedRichest(cfg, now, h, w, at);
        case SortedOp(at) =>
          ClockLater(init, at, now);
          WithinRichest(cfg, init, now);
          PrunedRichest(cfg, now, h, w, at);
      }
    }
  }

  lemma InsertedRichest(cfg: WindowConfig, now: int, h: seq<TailSample>, w: seq<TailSample>, s: TailSample)
    requires IsSuffix(Unexpired(cfg, now, w), Eager(cfg, now, h))
    ensures IsSuffix(Unexpired(cfg, now, Trimmed(cfg, w + [s])), Eager(cfg, now, h + [s]))
  {
    hide Unexpired, KeepLast, IsSuffix;
    EagerSuffix(cfg, now, h);
    var u, v := Unexpired(cfg, now, w), Unexpired(cfg, now, h);
    SuffixChain(u, Eager(cfg, now, h), v);
    if cfg.maxSamples == 0 {
      UnexpiredAppend(cfg, now, w, [s]);
      UnexpiredAppend(cfg, now, h, [s]);
      SuffixAppend(u, v, Unexpired(cfg, now, [s]));
    } else {
      var n := cfg.maxSamples - 1;
      var kept := KeepLast(w, n);
      KeepSnoc(w, s, cfg.maxSamples);
      UnexpiredAppend(cfg, now, kept, [s]);
      KeptLast(w, n);
      UnexpiredFacts(cfg, now, kept);
      UnexpiredSuffix(cfg, now, kept, w);
      SuffixChain(Unexpired(cfg, now, kept), u, v);
      SuffixInto(Unexpired(cfg, now, kept), v, n);
      SuffixAppend(Unexpired(cfg, now, kept), KeepLast(v, n), Unexpired(cfg, now, [s]));
      assert (h + [s])[..|h|] == h;
    }
  }

  lemma PrunedRichest(cfg: WindowConfig, now: int, h: seq<TailSample>, w: seq<TailSample>, at: int)
    requires at <= now && IsSuffix(Unexpired(cfg, now, w), Eager(cfg, now, h))
    ensures IsSuffix(Unexpired(cfg, now, Pruned(cfg, at, w)), Eager(cfg, now, h))
  {
    hide Unexpired, KeepLast, Eager, IsSuffix;
    var kept := Unexpired(cfg, at, w);
    UnexpiredLater(cfg, at, now, w);
    if CountCap(cfg).Some? {
      KeptLast(kept, CountCap(cfg).value);
      UnexpiredSuffix(cfg, now, KeepLast(kept, CountCap(cfg).value), kept);
      SuffixChain(Unexpired(cfg, now, Pruned(cfg, at, w)), Unexpired(cfg, now, kept), Eager(cfg, now, h));
    }
  }

  /** Whatever the schedule, what the window shows lies between the two readings of its
      history. */
  lemma ShownBetween(cfg: WindowConfig, ops: seq<WindowOp>, now: int)
    requires ClockRuns(ops, now)
    ensures IsSuffix(Poorest(cfg, now, History(ops)), Shown(cfg, ops, now))
    ensures IsSuffix(Shown(cfg, ops, now), Richest(cfg, now, History(ops)))
  {
    hide Unexpired, KeepLast, Eager, IsSuffix, RunOps;
    var h, w := History(ops), RunOps(NewWindow(cfg), ops).samples;
    WithinRichest(cfg, ops, now);
    if CountCap(cfg).Some? {
      SuffixKeep(Unexpired(cfg, now, w), Eager(cfg, now, h), CountCap(cfg).value);
    }
    var n := if Cap(cfg).Some? then Cap(cfg).value else |h| + |w|;
    KeepsPoorest(cfg, ops, now, n);
    assert Cap(cfg).None? ==> KeepLast(h, n) == h by {
      KeepAll(h, |h| + |w|);
    }
    KeptLast(w, n);
    KeptLast(h, n);
    UnexpiredFacts(cfg, now, KeepLast(h, n));
    UnexpiredSuffix(cfg, now, KeepLast(w, n), w);
    SuffixChain(Poorest(cfg, now, h), Unexpired(cfg, now, KeepLast(w, n)), Unexpired(cfg, now, w));
    if CountCap(cfg).Some? {
      SuffixInto(Poorest(cfg, now, h), Unexpired(cfg, now, w), CountCap(cfg).value);
    }
  }

  lemma KeepAll<T>(x: seq<T>, n: nat)
    requires |x| <= n
    ensures KeepLast(x, n) == x
  {
  }

  // ---- both extremes occur -------------------------------------------------------------------

  /** The history inserted without a prune. */
  function Inserts(h: seq<TailSample>): seq<WindowOp> {
    if h == [] then [] else Inserts(h[..|h| - 1]) + [InsertOp(h[|h| - 1])]
  }

  /** The history inserted with a prune at one time after each insertion. */
  function Pruning(h: seq<TailSample>, now: int): seq<WindowOp> {
    if h == [] then [] else Pruning(h[..|h| - 1], now) + [InsertOp(h[|h| - 1])] + [PruneOp(now)]
  }

  predicate Insertable(h: seq<TailSample>) {
    forall i :: 0 <= i < |h| ==> h[i].latency >= 0
  }

  lemma RunSnoc(w: Window, ops: seq<WindowOp>, op: WindowOp)
    ensures RunOps(w, ops + [op]) == Apply(RunOps(w, ops), op)
    ensures op.InsertOp? && op.sample.latency >= 0 ==> History(ops + [op]) == History(ops) + [op.sample]
    ensures op.PruneOp? ==> History(ops + [op]) == History(ops)
    ensures op.PruneOp? ==> forall now :: ClockRuns(ops + [op], now) <==> op.now <= now && ClockRuns(ops, op.now)
    ensures op.InsertOp? ==> forall now :: ClockRuns(ops + [op], now) <==> ClockRuns(ops, now)
  {
    assert (ops + [op])[..|ops|] == ops;
  }

  lemma {:induction false} InsertsRun(cfg: WindowConfig, h: seq<TailSample>)
    requires Insertable(h)
    ensures History(Inserts(h)) == h && forall now :: ClockRuns(Inserts(h), now)
    ensures RunOps(NewWindow(cfg), Inserts(h)).samples == Trimmed(cfg, h)
  {
    hide KeepLast;
    if h == [] {
      KeepAll(h, cfg.maxSamples);
    } else {
      var init, s := h[..|h| - 1], h[|h| - 1];
      assert h == init + [s];
      InsertsRun(cfg, init);
      RunSnoc(NewWindow(cfg), Inserts(init), InsertOp(s));
      RunKeepsConfig(NewWindow(cfg), Inserts(init));
      if cfg.maxSamples > 0 {
        KeepAppend(init, [s], cfg.maxSamples, cfg.maxSamples);
      }
    }
  }

  /** A time at which none of the samples has expired. */
  function BeforeExpiry(duration: int, x: seq<TailSample>, now: int): (t: int)
    ensures t <= now && forall i :: 0 <= i < |x| ==> x[i].captured >= t - duration
  {
    if x == [] then now
    else
      var t, last := BeforeExpiry(duration, x[..|x| - 1], now), x[|x| - 1].captured + duration;
      if last < t then last else t
  }

  lemma BeforeExpiryKeeps(cfg: WindowConfig, x: seq<TailSample>, now: int) returns (t: int)
    requires CountCap(cfg).Some?
    ensures t <= now && NoneExpired(cfg, t, x)
  {
    t := BeforeExpiry(cfg.duration, x, now);
  }

  lemma CappedThenExpired(cfg: WindowConfig, h: seq<TailSample>, t: int, now: int)
    requires CountCap(cfg).Some? && NoneExpired(cfg, t, Trimmed(cfg, h))
    ensures Pruned(cfg, now, Pruned(cfg, t, Trimmed(cfg, h))) == Poorest(cfg, now, h)
  {
    hide Unexpired, KeepLast, IsExpired;
    var x, n := Trimmed(cfg, h), CountCap(cfg).value;
    UnexpiredFacts(cfg, t, x);
    KeepTwice(h, cfg.maxSamples, n);
    KeptLast(x, n);
    UnexpiredFacts(cfg, now, KeepLast(x, n));
    KeepAll(Unexpired(cfg, now, KeepLast(x, n)), n);
  }

  lemma PoorestOccurs(cfg: WindowConfig, h: seq<TailSample>, now: int) returns (ops: seq<WindowOp>)
    requires Insertable(h)
    ensures IsSchedule(ops, h, now) && Shown(cfg, ops, now) == Poorest(cfg, now, h)
  {
    hide Unexpired, KeepLast, RunOps, Trimmed, Pruned, NoneExpired, Poorest;
    ops := Inserts(h);
    InsertsRun(cfg, h);
    if CountCap(cfg).Some? {
      var t := BeforeExpiryKeeps(cfg, Trimmed(cfg, h), now);
      RunSnoc(NewWindow(cfg), ops, PruneOp(t));
      RunKeepsConfig(NewWindow(cfg), ops);
      CappedThenExpired(cfg, h, t, now);
      ops := ops + [PruneOp(t)];
    } else {
      TrimmedThenExpired(cfg, h, now);
    }
  }

  lemma TrimmedThenExpired(cfg: WindowConfig, h: seq<TailSample>, now: int)
    requires CountCap(cfg).None?
    ensures Pruned(cfg, now, Trimmed(cfg, h)) == Poorest(cfg, now, h)
  {
    hide Unexpired, KeepLast;
  }

  lemma {:induction false} PruningRun(cfg: WindowConfig, h: seq<TailSample>, now: int)
    requires Insertable(h) && cfg.maxSamples > 0
    ensures IsSchedule(Pruning(h, now), h, now)
    ensures RunOps(NewWindow(cfg), Pruning(h, now)).samples == Richest(cfg, now, h)
  {
    hide Unexpired, KeepLast, RunOps, Eager;
    if h == [] {
      EagerEmpty(cfg, now);
    } else {
      var init, s := h[..|h| - 1], h[|h| - 1];
      assert h == init + [s];
      PruningRun(cfg, init, now);
      var ops, w := Pruning(init, now), NewWindow(cfg);
      RunSnoc(w, ops, InsertOp(s));
      RunSnoc(w, ops + [InsertOp(s)], PruneOp(now));
      RunKeepsConfig(w, ops);
      PruningStep(cfg, init, s, now);
    }
  }

  lemma EagerEmpty(cfg: WindowConfig, now: int)
    ensures Richest(cfg, now, []) == [] && RunOps(NewWindow(cfg), []).samples == []
  {
    UnexpiredFacts(cfg, now, []);
  }

  lemma PruningStep(cfg: WindowConfig, init: seq<TailSample>, s: TailSample, now: int)
    requires cfg.maxSamples > 0
    ensures Pruned(cfg, now, Trimmed(cfg, Richest(cfg, now, init) + [s])) == Richest(cfg, now, init + [s])
  {
    hide Unexpired, KeepLast, Eager;
    var n, e, u := cfg.maxSamples - 1, Eager(cfg, now, init), Unexpired(cfg, now, init);
    var v := Unexpired(cfg, now, [s]);
    var kept := KeepSome(CountCap(cfg), e);
    RichestUnexpired(cfg, now, init);
    KeepSnoc(kept, s, cfg.maxSamples);
    KeptLast(kept, n);
    UnexpiredAppend(cfg, now, KeepLast(kept, n), [s]);
    StillUnexpired(cfg, now, KeepLast(kept, n), kept);
    EagerSuffix(cfg, now, init);
    EagerSnoc(cfg, now, init, s);
    if CountCap(cfg).Some? {
      var f := CountCap(cfg).value;
      KeepTwice(e, f, n);
      KeepTwice(u, f, n);
      KeepTwice(e, n, f);
      KeepTwice(u, n, f);
      if f < n {
        KeepAppend(u, v, f, f);
        KeepAppend(u, v, n, f);
      }
    }
  }

  lemma EagerSnoc(cfg: WindowConfig, now: int, init: seq<TailSample>, s: TailSample)
    requires cfg.maxSamples > 0
    ensures Eager(cfg, now, init + [s])
      == KeepLast(Unexpired(cfg, now, init), cfg.maxSamples - 1) + Unexpired(cfg, now, [s])
  {
    hide Unexpired, KeepLast;
    assert (init + [s])[..|init|] == init;
  }

  predicate NoneExpired(cfg: WindowConfig, now: int, x: seq<TailSample>) {
    forall i :: 0 <= i < |x| ==> !IsExpired(cfg, now, x[i])
  }

  lemma StillUnexpired(cfg: WindowConfig, now: int, a: seq<TailSample>, b: seq<TailSample>)
    requires IsSuffix(a, b) && NoneExpired(cfg, now, b)
    ensures NoneExpired(cfg, now, a) && Unexpired(cfg, now, a) == a
  {
    hide Unexpired, IsExpired;
    assert forall i :: 0 <= i < |a| ==> a[i] == b[|b| - |a| + i];
    UnexpiredFacts(cfg, now, a);
  }

  lemma RichestUnexpired(cfg: WindowConfig, now: int, h: seq<TailSample>)
    ensures NoneExpired(cfg, now, Richest(cfg, now, h)) && IsSuffix(Richest(cfg, now, h), Unexpired(cfg, now, h))
  {
    hide Unexpired, KeepLast, Eager, IsExpired;
    var e := Eager(cfg, now, h);
    EagerSuffix(cfg, now, h);
    UnexpiredFacts(cfg, now, h);
    StillUnexpired(cfg, now, e, Unexpired(cfg, now, h));
    if CountCap(cfg).Some? {
      KeptLast(e, CountCap(cfg).value);
      StillUnexpired(cfg, now, KeepLast(e, CountCap(cfg).value), e);
      SuffixChain(KeepLast(e, CountCap(cfg).value), e, Unexpired(cfg, now, h));
    }
  }

  lemma RichestOccurs(cfg: WindowConfig, h: seq<TailSample>, now: int) returns (ops: seq<WindowOp>)
    requires Insertable(h)
    ensures IsSchedule(ops, h, now) && Shown(cfg, ops, now) == Richest(cfg, now, h)
  {
    hide Unexpired, KeepLast, RunOps;
    if cfg.maxSamples == 0 {
      ops := Inserts(h);
      InsertsRun(cfg, h);
    } else {
      ops := Pruning(h, now);
      PruningRun(cfg, h, now);
      var r := Richest(cfg, now, h);
      RichestUnexpired(cfg, now, h);
      UnexpiredFacts(cfg, now, r);
      if CountCap(cfg).Some? {
        KeepTwice(Eager(cfg, now, h), CountCap(cfg).value, CountCap(cfg).value);
      }
    }
  }

  // ---- when all schedules agree --------------------------------------------------------------

  ghost predicate ScheduleFree(cfg: WindowConfig, h: seq<TailSample>, now: int) {
    forall a, b :: IsSchedule(a, h, now) && IsSchedule(b, h, now) ==> Shown(cfg, a, now) == Shown(cfg, b, now)
  }

  /** The samples that a cap pushes out have all expired, or none of those it leaves has. */
  predicate CapSettled(cfg: WindowConfig, now: int, x: seq<TailSample>, n: nat) {
    || |x| <= n
    || (forall i :: 0 <= i < |x| - n ==> IsExpired(cfg, now, x[i]))
    || (forall i :: |x| - n <= i < |x| ==> !IsExpired(cfg, now, x[i]))
  }

  /** The cap that decides: the pruning cap on the whole history if it is the smaller one,
      else the hard bound, which makes room before the newest sample enters. */
  predicate CapsSettled(cfg: WindowConfig, now: int, h: seq<TailSample>) {
    if Cap(cfg).None? || h == [] then true
    else if Cap(cfg) == CountCap(cfg) && (cfg.maxSamples == 0 || CountCap(cfg).value < cfg.maxSamples)
    then CapSettled(cfg, now, h, CountCap(cfg).value)
    else CapSettled(cfg, now, h[..|h| - 1], cfg.maxSamples - 1)
  }

  lemma TailFresh(cfg: WindowConfig, now: int, x: seq<TailSample>, k: nat)
    requires k <= |x|
    ensures |Unexpired(cfg, now, x[k..])| == |x| - k <==> forall i :: k <= i < |x| ==> !IsExpired(cfg, now, x[i])
  {
    hide Unexpired, IsExpired;
    var b := x[k..];
    UnexpiredFacts(cfg, now, b);
    forall i | k <= i < |x| ensures x[i] == b[i - k] {
    }
    forall i | 0 <= i < |b| ensures b[i] == x[k + i] {
    }
  }

  lemma HeadExpired(cfg: WindowConfig, now: int, x: seq<TailSample>, k: nat)
    requires k <= |x|
    ensures Unexpired(cfg, now, x[..k]) == [] <==> forall i :: 0 <= i < k ==> IsExpired(cfg, now, x[i])
  {
    hide Unexpired, IsExpired;
    UnexpiredFacts(cfg, now, x[..k]);
    assert forall i :: 0 <= i < k ==> x[..k][i] == x[i];
  }

  /** The last n of two lists in a row are the second list, of at most n, exactly if it has n or
      the first is empty. */
  lemma KeepSecond<T>(u: seq<T>, v: seq<T>, n: nat)
    requires |v| <= n
    ensures KeepLast(u + v, n) == v <==> u == [] || |v| == n
  {
    if u == [] {
      assert u + v == v;
    }
  }

  lemma CapCommutes(cfg: WindowConfig, now: int, x: seq<TailSample>, n: nat)
    ensures KeepLast(Unexpired(cfg, now, x), n) == Unexpired(cfg, now, KeepLast(x, n)) <==> CapSettled(cfg, now, x, n)
  {
    hide Unexpired, IsExpired, KeepLast;
    UnexpiredFacts(cfg, now, x);
    if |x| <= n {
      KeepAll(x, n);
      KeepAll(Unexpired(cfg, now, x), n);
    } else {
      var k := |x| - n;
      var a, b := x[..k], x[k..];
      assert x == a + b;
      KeepTail(x, n);
      UnexpiredAppend(cfg, now, a, b);
      UnexpiredFacts(cfg, now, b);
      HeadExpired(cfg, now, x, k);
      TailFresh(cfg, now, x, k);
      KeepSecond(Unexpired(cfg, now, a), Unexpired(cfg, now, b), n);
    }
  }

  lemma KeepTail<T>(x: seq<T>, n: nat)
    requires |x| > n
    ensures KeepLast(x, n) == x[|x| - n..]
  {
  }

  lemma PruningCapAgrees(cfg: WindowConfig, now: int, h: seq<TailSample>)
    requires h != [] && CountCap(cfg).Some? && (cfg.maxSamples == 0 || CountCap(cfg).value < cfg.maxSamples)
    ensures Poorest(cfg, now, h) == Richest(cfg, now, h) <==> CapSettled(cfg, now, h, CountCap(cfg).value)
  {
    hide Unexpired, KeepLast, IsExpired, CapSettled;
    var f := CountCap(cfg).value;
    CapCommutes(cfg, now, h, f);
    if cfg.maxSamples > 0 {
      var init, last := h[..|h| - 1], [h[|h| - 1]];
      assert h == init + last;
      UnexpiredAppend(cfg, now, init, last);
      KeepAppend(Unexpired(cfg, now, init), Unexpired(cfg, now, last), cfg.maxSamples - 1, f);
    }
  }

  lemma HardBoundAgrees(cfg: WindowConfig, now: int, h: seq<TailSample>)
    requires h != [] && cfg.maxSamples > 0 && (CountCap(cfg).Some? ==> CountCap(cfg).value >= cfg.maxSamples)
    ensures Poorest(cfg, now, h) == Richest(cfg, now, h) <==> CapSettled(cfg, now, h[..|h| - 1], cfg.maxSamples - 1)
  {
    hide Unexpired, KeepLast, IsExpired, CapSettled;
    var n, init, last := cfg.maxSamples - 1, h[..|h| - 1], [h[|h| - 1]];
    var u, v := Unexpired(cfg, now, init), Unexpired(cfg, now, last);
    assert h == init + last;
    CapCommutes(cfg, now, init, n);
    KeepSnoc(init, h[|h| - 1], cfg.maxSamples);
    UnexpiredAppend(cfg, now, KeepLast(init, n), last);
    UnexpiredFacts(cfg, now, last);
    KeptLast(u, n);
    if CountCap(cfg).Some? {
      KeepAll(KeepLast(u, n) + v, CountCap(cfg).value);
    }
    SameFront(Unexpired(cfg, now, KeepLast(init, n)), KeepLast(u, n), v);
  }

  lemma ExtremesAgree(cfg: WindowConfig, now: int, h: seq<TailSample>)
    ensures Poorest(cfg, now, h) == Richest(cfg, now, h) <==> CapsSettled(cfg, now, h)
  {
    hide Unexpired, KeepLast, IsExpired, CapSettled, Eager;
    if h == [] {
      EagerEmpty(cfg, now);
      UnexpiredFacts(cfg, now, []);
      if Cap(cfg).Some? {
        KeepAll(h, Cap(cfg).value);
      }
    } else if Cap(cfg).None? {
      EagerUncapped(cfg, now, h);
    } else if CountCap(cfg).Some? && (cfg.maxSamples == 0 || CountCap(cfg).value < cfg.maxSamples) {
      PruningCapAgrees(cfg, now, h);
    } else {
      HardBoundAgrees(cfg, now, h);
    }
  }

  lemma EagerUncapped(cfg: WindowConfig, now: int, h: seq<TailSample>)
    requires cfg.maxSamples == 0
    ensures Eager(cfg, now, h) == Unexpired(cfg, now, h)
  {
  }

  lemma SameFront<T>(a: seq<T>, b: seq<T>, c: seq<T>)
    ensures a + c == b + c <==> a == b
  {
    if a + c == b + c {
      assert a == (a + c)[..|a|] && b == (b + c)[..|a|];
    }
  }

  /** For every configuration and every history: what a window shows is independent of when it
      was pruned before if and only if the samples that the deciding cap pushes out have all
      expired or those it leaves are all unexpired. */
  lemma ScheduleFreeIff(cfg: WindowConfig, h: seq<TailSample>, now: int)
    requires Insertable(h)
    ensures ScheduleFree(cfg, h, now) <==> CapsSettled(cfg, now, h)
  {
    hide Poorest, Richest, Shown, CapsSettled, IsSchedule;
    ExtremesAgree(cfg, now, h);
    var poor := PoorestOccurs(cfg, h, now);
    var rich := RichestOccurs(cfg, h, now);
    if CapsSettled(cfg, now, h) {
      forall ops | IsSchedule(ops, h, now) ensures Shown(cfg, ops, now) == Poorest(cfg, now, h) {
        SettledShows(cfg, h, ops, now);
      }
    }
  }

  lemma SettledShows(cfg: WindowConfig, h: seq<TailSample>, ops: seq<WindowOp>, now: int)
    requires IsSchedule(ops, h, now) && CapsSettled(cfg, now, h)
    ensures Shown(cfg, ops, now) == Poorest(cfg, now, h)
  {
    hide Poorest, Richest, Shown, CapsSettled;
    ExtremesAgree(cfg, now, h);
    ShownBetween(cfg, ops, now);
    SuffixBoth(Shown(cfg, ops, now), Poorest(cfg, now, h));
  }

  // ---- when all schedules show the batch reading ---------------------------------------------

  /** What a window may show at a time: within the bounds, and nothing expired. */
  predicate Admissible(cfg: WindowConfig, now: int, samples: seq<TailSample>) {
    && (cfg.maxSamples > 0 ==> |samples| <= cfg.maxSamples)
    && (CountCap(cfg).Some? ==> |samples| <= CountCap(cfg).value)
    && (Cutoff(cfg, now).Some? ==> forall i :: 0 <= i < |samples| ==> samples[i].captured >= Cutoff(cfg, now).value)
  }

  /** `shown` is the longest suffix of the history that may be shown. */
  ghost predicate LongestAdmissible(cfg: WindowConfig, now: int, history: seq<TailSample>, shown: seq<TailSample>) {
    exists k :: 0 <= k <= |history|
      && shown == history[k..]
      && Admissible(cfg, now, history[k..])
      && forall j :: 0 <= j < k ==> !Admissible(cfg, now, history[j..])
  }

  ghost predicate ShowsBatch(cfg: WindowConfig, h: seq<TailSample>, now: int) {
    forall ops :: IsSchedule(ops, h, now) ==> LongestAdmissible(cfg, now, h, Shown(cfg, ops, now))
  }

  /** No expired sample follows an unexpired one. */
  predicate ExpiredFirst(cfg: WindowConfig, now: int, h: seq<TailSample>) {
    forall i, j :: 0 <= i < j < |h| && IsExpired(cfg, now, h[j]) ==> IsExpired(cfg, now, h[i])
  }

  /** The newest samples fill the smaller bound and none of them has expired. */
  predicate FreshlyFull(cfg: WindowConfig, now: int, h: seq<TailSample>) {
    Cap(cfg).Some? && |h| >= Cap(cfg).value && forall i :: |h| - Cap(cfg).value <= i < |h| ==>
      !IsExpired(cfg, now, h[i])
  }

  /** What the history and the configuration have to satisfy; nothing here is about a run. */
  predicate ReadsAsBatch(cfg: WindowConfig, now: int, h: seq<TailSample>) {
    ExpiredFirst(cfg, now, h) || FreshlyFull(cfg, now, h) || cfg.maxSamples == 1
  }

  lemma AdmissibleMeans(cfg: WindowConfig, now: int, x: seq<TailSample>)
    ensures Admissible(cfg, now, x) <==> NoneExpired(cfg, now, x) && (Cap(cfg).Some? ==> |x| <= Cap(cfg).value)
  {
  }

  lemma SuffixLongest(cfg: WindowConfig, now: int, h: seq<TailSample>, k: nat)
    requires k <= |h| && NoneExpired(cfg, now, h[k..]) && (Cap(cfg).Some? ==> |h| - k <= Cap(cfg).value)
    requires k == 0 || IsExpired(cfg, now, h[k - 1]) || Cap(cfg) == Some(|h| - k)
    ensures LongestAdmissible(cfg, now, h, h[k..])
  {
    hide IsExpired, Admissible;
    AdmissibleMeans(cfg, now, h[k..]);
    forall j | 0 <= j < k ensures !Admissible(cfg, now, h[j..]) {
      AdmissibleMeans(cfg, now, h[j..]);
      assert h[j..][k - 1 - j] == h[k - 1];
    }
  }

  lemma RichestWithinCap(cfg: WindowConfig, now: int, h: seq<TailSample>)
    ensures Cap(cfg).Some? ==> |Richest(cfg, now, h)| <= Cap(cfg).value
  {
    hide Unexpired, KeepLast;
    if cfg.maxSamples > 0 && h != [] {
      KeptLast(Unexpired(cfg, now, h[..|h| - 1]), cfg.maxSamples - 1);
      UnexpiredFacts(cfg, now, [h[|h| - 1]]);
    }
    if CountCap(cfg).Some? {
      KeptLast(Eager(cfg, now, h), CountCap(cfg).value);
    }
  }

  /** The first position from which nothing has expired. */
  lemma {:induction false} FreshFrom(cfg: WindowConfig, now: int, h: seq<TailSample>) returns (p: nat)
    ensures p <= |h| && NoneExpired(cfg, now, h[p..]) && (p > 0 ==> IsExpired(cfg, now, h[p - 1]))
  {
    hide IsExpired;
    if h == [] || IsExpired(cfg, now, h[|h| - 1]) {
      p := |h|;
    } else {
      p := FreshFrom(cfg, now, h[..|h| - 1]);
      assert h[p..] == h[..|h| - 1][p..] + [h[|h| - 1]];
    }
  }

  /** The batch reading lies within the poorest one, and is shown by every schedule. */
  lemma BatchShown(cfg: WindowConfig, h: seq<TailSample>, ops: seq<WindowOp>, now: int)
    requires IsSchedule(ops, h, now) && ReadsAsBatch(cfg, now, h)
    ensures LongestAdmissible(cfg, now, h, Shown(cfg, ops, now))
  {
    hide Unexpired, KeepLast, IsExpired, Shown, LongestAdmissible, Richest, Poorest, IsSuffix, ReadsAsBatch;
    var p := FreshFrom(cfg, now, h);
    var m := if Cap(cfg).Some? && |h| - p > Cap(cfg).value then |h| - Cap(cfg).value else p;
    var batch, shown := h[m..], Shown(cfg, ops, now);
    TailSuffix(h, p, m);
    StillUnexpired(cfg, now, batch, h[p..]);
    SuffixLongest(cfg, now, h, m);
    ShownBetween(cfg, ops, now);
    BatchPoorest(cfg, now, h, m);
    SuffixChain(batch, Poorest(cfg, now, h), shown);
    RichestWithinCap(cfg, now, h);
    RichestUnexpired(cfg, now, h);
    BatchLargest(cfg, now, h, p, m, shown);
    SameLength(batch, shown);
  }

  lemma SameLength<T>(a: seq<T>, b: seq<T>)
    requires IsSuffix(a, b) && |b| <= |a|
    ensures a == b
  {
  }

  lemma BatchPoorest(cfg: WindowConfig, now: int, h: seq<TailSample>, m: nat)
    requires m <= |h| && NoneExpired(cfg, now, h[m..]) && (Cap(cfg).Some? ==> |h| - m <= Cap(cfg).value)
    ensures IsSuffix(h[m..], Poorest(cfg, now, h))
  {
    hide Unexpired, KeepLast, IsExpired;
    UnexpiredFacts(cfg, now, h[m..]);
    if Cap(cfg).Some? {
      SuffixInto(h[m..], h, Cap(cfg).value);
    }
    UnexpiredSuffix(cfg, now, h[m..], KeepSome(Cap(cfg), h));
  }

  lemma TailSuffix<T>(h: seq<T>, p: nat, m: nat)
    requires p <= m <= |h|
    ensures IsSuffix(h[m..], h[p..])
  {
    assert h[p..][m - p..] == h[m..];
  }

  lemma BatchLargest(cfg: WindowConfig, now: int, h: seq<TailSample>, p: nat, m: nat, shown: seq<TailSample>)
    requires p <= m <= |h| && NoneExpired(cfg, now, h[p..]) && (p > 0 ==> IsExpired(cfg, now, h[p - 1]))
    requires m == if Cap(cfg).Some? && |h| - p > Cap(cfg).value then |h| - Cap(cfg).value else p
    requires ReadsAsBatch(cfg, now, h)
    requires IsSuffix(shown, Richest(cfg, now, h)) && IsSuffix(Richest(cfg, now, h), Unexpired(cfg, now, h))
    requires Cap(cfg).Some? ==> |Richest(cfg, now, h)| <= Cap(cfg).value
    ensures |shown| <= |h| - m
  {
    hide Unexpired, KeepLast, IsExpired, IsSuffix, Richest, ExpiredFirst, FreshlyFull, NoneExpired;
    SuffixLengths(shown, Richest(cfg, now, h));
    SuffixLengths(Richest(cfg, now, h), Unexpired(cfg, now, h));
    if m == p {
      if ExpiredFirst(cfg, now, h) {
        OnlyTailUnexpired(cfg, now, h, p);
      } else if FreshlyFull(cfg, now, h) {
        FullFromThere(cfg, now, h, p);
      } else if p == |h| && p > 0 {
        OneSampleWindow(cfg, now, h);
      } else if p == |h| {
        UnexpiredFacts(cfg, now, h);
      } else {
        OneSampleCap(cfg);
      }
    }
  }

  lemma OneSampleCap(cfg: WindowConfig)
    requires cfg.maxSamples == 1
    ensures Cap(cfg).Some? && Cap(cfg).value <= 1
  {
  }

  lemma OnlyTailUnexpired(cfg: WindowConfig, now: int, h: seq<TailSample>, p: nat)
    requires p <= |h| && ExpiredFirst(cfg, now, h) && (p > 0 ==> IsExpired(cfg, now, h[p - 1]))
    ensures |Unexpired(cfg, now, h)| <= |h| - p
  {
    hide Unexpired, IsExpired;
    assert h == h[..p] + h[p..];
    UnexpiredAppend(cfg, now, h[..p], h[p..]);
    UnexpiredFacts(cfg, now, h[..p]);
    UnexpiredFacts(cfg, now, h[p..]);
  }

  lemma FullFromThere(cfg: WindowConfig, now: int, h: seq<TailSample>, p: nat)
    requires p <= |h| && FreshlyFull(cfg, now, h) && (p > 0 ==> IsExpired(cfg, now, h[p - 1]))
    ensures Cap(cfg).Some? && Cap(cfg).value <= |h| - p
  {
    hide IsExpired;
  }

  lemma SuffixLengths<T>(a: seq<T>, b: seq<T>)
    requires IsSuffix(a, b)
    ensures |a| <= |b|
  {
  }

  lemma OneSampleWindow(cfg: WindowConfig, now: int, h: seq<TailSample>)
    requires cfg.maxSamples == 1 && h != [] && IsExpired(cfg, now, h[|h| - 1])
    ensures Richest(cfg, now, h) == []
  {
    hide Unexpired, IsExpired;
    UnexpiredFacts(cfg, now, [h[|h| - 1]]);
  }

  lemma RichestUnlessSettled(cfg: WindowConfig, now: int, h: seq<TailSample>, k: nat)
    requires k <= |h| && Richest(cfg, now, h) == h[k..] && !ExpiredFirst(cfg, now, h)
    ensures FreshlyFull(cfg, now, h) || cfg.maxSamples == 1
  {
    hide Unexpired, KeepLast, IsExpired, Eager;
    RichestUnexpired(cfg, now, h);
    assert forall i :: k <= i < |h| ==> h[i] == h[k..][i - k];
    var i, j :| 0 <= i < j < |h| && IsExpired(cfg, now, h[j]) && !IsExpired(cfg, now, h[i]);
    assert j < k;
    RichestLength(cfg, now, h, i, k);
  }

  /** With an unexpired sample left out, the richest reading is as long as the cap allows. */
  lemma RichestLength(cfg: WindowConfig, now: int, h: seq<TailSample>, i: nat, k: nat)
    requires i + 1 < k <= |h| && !IsExpired(cfg, now, h[i])
    requires Richest(cfg, now, h) == h[k..] && NoneExpired(cfg, now, h[k..])
    ensures Cap(cfg) == Some(|h| - k) || cfg.maxSamples == 1
  {
    hide Unexpired, KeepLast, IsExpired;
    var init, last := h[..|h| - 1], [h[|h| - 1]];
    var u, v := Unexpired(cfg, now, init), Unexpired(cfg, now, last);
    assert h == init + last;
    UnexpiredAppend(cfg, now, init, last);
    assert h == h[..k] + h[k..];
    UnexpiredAppend(cfg, now, h[..k], h[k..]);
    UnexpiredFacts(cfg, now, h[k..]);
    UnexpiredFacts(cfg, now, h[..k]);
    UnexpiredFacts(cfg, now, init);
    UnexpiredFacts(cfg, now, last);
    assert h[..k][i] == h[i] && init[i] == h[i];
    KeptLength(u, if cfg.maxSamples > 0 then cfg.maxSamples - 1 else 0);
    if CountCap(cfg).Some? {
      KeptLength(Eager(cfg, now, h), CountCap(cfg).value);
    }
  }

  lemma KeptLength<T>(x: seq<T>, n: nat)
    ensures |KeepLast(x, n)| == if |x| > n then n else |x|
  {
  }

  /** For every configuration and every history: all schedules show the longest suffix of the
      history that the bounds and the cutoff allow if and only if no expired sample follows an
      unexpired one, or the newest samples fill the smaller bound unexpired, or the window
      holds a single sample. */
  lemma BatchIff(cfg: WindowConfig, h: seq<TailSample>, now: int)
    requires Insertable(h)
    ensures ShowsBatch(cfg, h, now) <==> ReadsAsBatch(cfg, now, h)
  {
    hide Shown, IsSchedule, Richest, ExpiredFirst, FreshlyFull, Admissible;
    if ReadsAsBatch(cfg, now, h) {
      forall ops | IsSchedule(ops, h, now) ensures LongestAdmissible(cfg, now, h, Shown(cfg, ops, now)) {
        BatchShown(cfg, h, ops, now);
      }
    }
    if ShowsBatch(cfg, h, now) {
      var rich := RichestOccurs(cfg, h, now);
      var k :| 0 <= k <= |h| && Shown(cfg, rich, now) == h[k..];
      if !ExpiredFirst(cfg, now, h) {
        RichestUnlessSettled(cfg, now, h, k);
      }
    }
  }

  // ---- histories that are always fine ---------------------------------------------------------

  predicate CapturesOrdered(samples: seq<TailSample>) {
    forall i, j :: 0 <= i < j < |samples| ==> samples[i].captured <= samples[j].captured
  }

  lemma OrderedReads(cfg: WindowConfig, now: int, h: seq<TailSample>)
    requires cfg.mode.RollingCount? || CapturesOrdered(h)
    ensures ReadsAsBatch(cfg, now, h)
  {
  }

  /** Lazy pruning refines the batch reading: with captures in order, or with no expiry,
      however inserts, prunes and sorted reads were interleaved before, pruning now leaves
      exactly the longest suffix of the whole insertion history that the bounds and the cutoff
      allow. */
  lemma LazyPruningIsBatch(cfg: WindowConfig, ops: seq<WindowOp>, now: int)
    requires ClockRuns(ops, now)
    requires cfg.mode.RollingCount? || CapturesOrdered(History(ops))
    ensures LongestAdmissible(cfg, now, History(ops), Pruned(cfg, now, RunOps(NewWindow(cfg), ops).samples))
  {
    hide LongestAdmissible, Pruned, RunOps, ReadsAsBatch;
    OrderedReads(cfg, now, History(ops));
    BatchShown(cfg, History(ops), ops, now);
  }

  predicate BoundsUnreached(cfg: WindowConfig, h: seq<TailSample>) {
    Cap(cfg).Some? ==> |h| <= Cap(cfg).value
  }

  /** The smaller count bound commutes with expiry on the history. */
  predicate CapReads(cfg: WindowConfig, now: int, h: seq<TailSample>) {
    Cap(cfg).Some? ==> CapSettled(cfg, now, h, Cap(cfg).value)
  }

  /** It does as long as it is not exceeded, and when no expired sample follows an unexpired
      one. */
  lemma CapReadsWhen(cfg: WindowConfig, now: int, h: seq<TailSample>)
    ensures BoundsUnreached(cfg, h) || ExpiredFirst(cfg, now, h) ==> CapReads(cfg, now, h)
  {
    hide IsExpired;
  }

  /** Then pruning leaves the newest of the unexpired samples, as many as that bound allows,
      whatever was pruned before. */
  lemma CappedExpiry(cfg: WindowConfig, ops: seq<WindowOp>, now: int)
    requires ClockRuns(ops, now) && CapReads(cfg, now, History(ops))
    ensures Pruned(cfg, now, RunOps(NewWindow(cfg), ops).samples)
      == KeepSome(Cap(cfg), Unexpired(cfg, now, History(ops)))
    ensures RunOps(NewWindow(cfg), ops).cfg == cfg
  {
    hide Unexpired, RunOps, Pruned, Richest, Cap, KeepLast, IsSuffix, CapSettled;
    var h, shown := History(ops), Shown(cfg, ops, now);
    var u := Unexpired(cfg, now, h);
    RunKeepsConfig(NewWindow(cfg), ops);
    ShownBetween(cfg, ops, now);
    RichestUnexpired(cfg, now, h);
    SuffixChain(shown, Richest(cfg, now, h), u);
    if Cap(cfg).Some? {
      RichestWithinCap(cfg, now, h);
      SuffixShorter(shown, Richest(cfg, now, h));
      SuffixInto(shown, u, Cap(cfg).value);
      CapCommutes(cfg, now, h, Cap(cfg).value);
    }
    SuffixBoth(shown, KeepSome(Cap(cfg), u));
  }

  lemma SuffixShorter<T>(a: seq<T>, b: seq<T>)
    requires IsSuffix(a, b)
    ensures |a| <= |b|
  {
  }

  /** As long as no count bound is exceeded, captures may come in any order: pruning is
      filtering the whole history. */
  lemma UncappedTimeIsFilter(cfg: WindowConfig, ops: seq<WindowOp>, now: int)
    requires ClockRuns(ops, now) && BoundsUnreached(cfg, History(ops))
    ensures Pruned(cfg, now, RunOps(NewWindow(cfg), ops).samples) == Unexpired(cfg, now, History(ops))
    ensures RunOps(NewWindow(cfg), ops).cfg == cfg
  {
    hide Unexpired, RunOps, Pruned, ExpiredFirst, CapReads, History;
    CapReadsWhen(cfg, now, History(ops));
    CappedExpiry(cfg, ops, now);
    UnexpiredFacts(cfg, now, History(ops));
  }

  // ---- histories that are not ------------------------------------------------------------------

  const FIRST_IN := TailSample(1, 10, 0, [], 0, 0, 0, 0)
  const LATE_IN := TailSample(1, 4, 0, [], 0, 0, 0, 0)

  /** FIXED_RECENT, room for one: a late sample pushes the fresh one out only if a prune ran
      before the late one expired. */
  lemma FixedRecentNeedsOrder()
    ensures !ScheduleFree(WindowConfig(FixedRecent, 10, 1, 0), [FIRST_IN, LATE_IN], 15)
    ensures ScheduleFree(WindowConfig(FixedRecent, 10, 2, 0), [FIRST_IN, LATE_IN], 15)
  {
    var h := [FIRST_IN, LATE_IN];
    assert !IsExpired(WindowConfig(FixedRecent, 10, 1, 0), 15, h[0])
      && IsExpired(WindowConfig(FixedRecent, 10, 1, 0), 15, h[1]);
    ScheduleFreeIff(WindowConfig(FixedRecent, 10, 1, 0), h, 15);
    ScheduleFreeIff(WindowConfig(FixedRecent, 10, 2, 0), h, 15);
  }

  const FRESH_AT_100 := TailSample(1, 100, 0, [], 0, 0, 0, 0)
  const STALE_AT_1 := TailSample(1, 1, 0, [], 0, 0, 0, 0)

  /** The hard bound does the same to ROLLING_TIME: the third insertion pushes out the first
      sample unless a prune removed the expired second one before. */
  lemma HardBoundNeedsOrder()
    ensures var cfg, h := WindowConfig(RollingTime, 10, 0, 2), [FRESH_AT_100, STALE_AT_1, FRESH_AT_100];
      !ScheduleFree(cfg, h, 105) && !ShowsBatch(cfg, h, 105)
  {
    var cfg, h := WindowConfig(RollingTime, 10, 0, 2), [FRESH_AT_100, STALE_AT_1, FRESH_AT_100];
    assert !IsExpired(cfg, 105, h[0]) && IsExpired(cfg, 105, h[1]) && h[..2][0] == h[0] && h[..2][1] == h[1];
    ScheduleFreeIff(cfg, h, 105);
    BatchIff(cfg, h, 105);
  }

  /** The cached quantile is the quantile of the longest admissible suffix of everything that
      was ever inserted, whenever the history reads as a batch. */
  lemma QuantileOfHistory(cfg: WindowConfig, ops: seq<WindowOp>, now: int, p: real)
    requires ClockRuns(ops, now) && 0.0 < p <= 100.0 && ReadsAsBatch(cfg, now, History(ops))
    ensures var q := ExactQuantile(SortWindow(RunOps(NewWindow(cfg), ops), now).sorted, p);
      exists shown :: LongestAdmissible(cfg, now, History(ops), shown)
        && (if shown == [] then q.None? else q.Some? && IsQuantile(Latencies(shown), p, q.value))
  {
    hide LongestAdmissible, ReadsAsBatch, RunOps;
    BatchShown(cfg, History(ops), ops, now);
    RunKeepsConfig(NewWindow(cfg), ops);
    CachedQuantile(cfg, ops, now, p);
    assert LongestAdmissible(cfg, now, History(ops), Shown(cfg, ops, now));
  }
}
