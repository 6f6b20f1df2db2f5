/** Whole runs of a window: its operations, its insertion history, and quantiles read through
    the cache. */
module WindowRuns {
  import opened Basics
  import opened Domain
  import opened Quantiles
  import opened Windows

  datatype WindowOp =
    | InsertOp(sample: TailSample)
    | PruneOp(now: int)
    | SortedOp(now: int)
    | ClearOp

  function Apply(w: Window, op: WindowOp): Window {
    match op
    case InsertOp(s) => InsertSample(w, s)
    case PruneOp(now) => PruneWindow(w, now)
    case SortedOp(now) => SortWindow(w, now)
    case ClearOp => w.(samples := [], dirty := true)
  }

  function RunOps(w: Window, ops: seq<WindowOp>): Window {
    if ops == [] then w else Apply(RunOps(w, ops[..|ops| - 1]), ops[|ops| - 1])
  }

  /** Every sample accepted since the last clear, oldest first, nothing forgotten. */
  function History(ops: seq<WindowOp>): seq<TailSample> {
    if ops == [] then []
    else
      var before, op := History(ops[..|ops| - 1]), ops[|ops| - 1];
      if op.ClearOp? then []
      else if op.InsertOp? && op.sample.latency >= 0 then before + [op.sample]
      else before
  }

  /** The clock readings passed to the window never decrease and end at most at `now`. */
  ghost predicate ClockRuns(ops: seq<WindowOp>, now: int) {
    ops == [] ||
    var op := ops[|ops| - 1];
    if op.PruneOp? || op.SortedOp? then op.now <= now && ClockRuns(ops[..|ops| - 1], op.now)
    else ClockRuns(ops[..|ops| - 1], now)
  }

  lemma CutoffMonotone(cfg: WindowConfig, t: int, now: int)
    requires t <= now
    ensures Cutoff(cfg, t).Some? <==> Cutoff(cfg, now).Some?
    ensures Cutoff(cfg, t).Some? ==> Cutoff(cfg, t).value <= Cutoff(cfg, now).value
  {
    if cfg.mode.Tumbling? && cfg.duration > 0 {
      TruncDivMonotone(t, now, cfg.duration);
    }
  }

  lemma {:induction false} RunKeepsConfig(w: Window, ops: seq<WindowOp>)
    ensures RunOps(w, ops).cfg == w.cfg
    decreases |ops|
  {
    if ops != [] {
      RunKeepsConfig(w, ops[..|ops| - 1]);
    }
  }

  lemma {:induction false} ClockLater(ops: seq<WindowOp>, t: int, now: int)
    requires ClockRuns(ops, t) && t <= now
    ensures ClockRuns(ops, now)
    decreases |ops|
  {
    if ops != [] {
      var op := ops[|ops| - 1];
      if !(op.PruneOp? || op.SortedOp?) {
        ClockLater(ops[..|ops| - 1], t, now);
      }
    }
  }

  lemma {:induction false} CacheAlongRun(cfg: WindowConfig, ops: seq<WindowOp>)
    ensures CacheAgrees(RunOps(NewWindow(cfg), ops))
    decreases |ops|
  {
    if ops != [] {
      var init, op := ops[..|ops| - 1], ops[|ops| - 1];
      CacheAlongRun(cfg, init);
      match op {
        case ClearOp =>
        case InsertOp(s) => CacheKept(RunOps(NewWindow(cfg), init), s, 0);
        case PruneOp(at) => CacheKept(RunOps(NewWindow(cfg), init), TailSample(0, 0, 0, [], 0, 0, 0, 0), at);
        case SortedOp(at) => CacheKept(RunOps(NewWindow(cfg), init), TailSample(0, 0, 0, [], 0, 0, 0, 0), at);
      }
    }
  }

  /** The quantile read through the lazily rebuilt cache, after any run, is the counting
      quantile of the samples the window shows. */
  lemma CachedQuantile(cfg: WindowConfig, ops: seq<WindowOp>, now: int, p: real)
    requires 0.0 < p <= 100.0
    ensures var w := RunOps(NewWindow(cfg), ops);
      var shown := Latencies(Pruned(w.cfg, now, w.samples));
      var q := ExactQuantile(SortWindow(w, now).sorted, p);
      if shown == [] then q.None? else q.Some? && IsQuantile(shown, p, q.value)
  {
    var w := RunOps(NewWindow(cfg), ops);
    CacheAlongRun(cfg, ops);
    SortedView(w, now);
    var shown := Latencies(Pruned(w.cfg, now, w.samples));
    SortSorts(shown);
    if shown != [] {
      QuantileCounts(shown, p);
    }
  }
}
