/** The bounded observation window: how samples enter, expire, and are sorted lazily. */
module Windows {
  import opened Basics
  import opened Domain
  import opened Quantiles

  // ---- the window as a value -----------------------------------------------------

  datatype Window = Window(cfg: WindowConfig, samples: seq<TailSample>, sorted: seq<int>, dirty: bool)

  function NewWindow(cfg: WindowConfig): Window {
    Window(cfg, [], [], false)
  }

  function Latencies(samples: seq<TailSample>): (r: seq<int>)
    ensures |r| == |samples| && forall i :: 0 <= i < |r| ==> r[i] == samples[i].latency
  {
    seq(|samples|, i requires 0 <= i < |samples| => samples[i].latency)
  }

  function NotBefore(cutoff: int): TailSample -> bool {
    (s: TailSample) => s.captured >= cutoff
  }

  function KeepLast<T>(s: seq<T>, n: nat): seq<T> {
    if |s| > n then s[|s| - n..] else s
  }

  /** The hard bound applied on insertion; 0 means none. */
  function Trimmed(cfg: WindowConfig, samples: seq<TailSample>): seq<TailSample> {
    if cfg.maxSamples > 0 then KeepLast(samples, cfg.maxSamples) else samples
  }

  /** The capture time below which a sample has expired. */
  function Cutoff(cfg: WindowConfig, now: int): Option<int> {
    match cfg.mode
    case RollingTime => Some(now - cfg.duration)
    case FixedRecent => Some(now - cfg.duration)
    case Tumbling => if cfg.duration <= 0 then None else Some(TruncDiv(now, cfg.duration) * cfg.duration)
    case RollingCount => None
    case UnlistedMode(_) => None
  }

  /** The count cap that pruning applies. */
  function CountCap(cfg: WindowConfig): Option<nat> {
    if cfg.mode.FixedRecent? || cfg.mode.RollingCount? then Some(cfg.fixedCount) else None
  }

  function Unexpired(cfg: WindowConfig, now: int, samples: seq<TailSample>): seq<TailSample> {
    match Cutoff(cfg, now)
    case None => samples
    case Some(cutoff) => Filter(NotBefore(cutoff), samples)
  }

  function Pruned(cfg: WindowConfig, now: int, samples: seq<TailSample>): seq<TailSample> {
    match CountCap(cfg)
    case None => Unexpired(cfg, now, samples)
    case Some(n) => KeepLast(Unexpired(cfg, now, samples), n)
  }

  function InsertSample(w: Window, s: TailSample): Window {
    if s.latency < 0 then w else w.(samples := Trimmed(w.cfg, w.samples + [s]), dirty := true)
  }

  function PruneWindow(w: Window, now: int): Window {
    var kept := Pruned(w.cfg, now, w.samples);
    w.(samples := kept, dirty := w.dirty || |kept| != |w.samples|)
  }

  function SortWindow(w: Window, now: int): Window {
    var p := PruneWindow(w, now);
    if p.dirty then p.(sorted := Sort(Latencies(p.samples)), dirty := false) else p
  }

  /** A clean cache is the sorted arrangement of the retained latencies. */
  ghost predicate CacheAgrees(w: Window) {
    !w.dirty ==> w.sorted == Sort(Latencies(w.samples))
  }

  function LatestCaptured(samples: seq<TailSample>): int {
    if samples == [] then 0
    else if |samples| == 1 then samples[0].captured
    else
      var last, before := samples[|samples| - 1].captured, LatestCaptured(samples[..|samples| - 1]);
      if last > before then last else before
  }

  // ---- facts about pruning -------------------------------------------------------

  lemma PruningDrops(cfg: WindowConfig, now: int, samples: seq<TailSample>)
    ensures |Pruned(cfg, now, samples)| <= |samples|
    ensures |Pruned(cfg, now, samples)| == |samples| ==> Pruned(cfg, now, samples) == samples
    ensures forall s :: s in Pruned(cfg, now, samples) ==> s in samples
  {
    match Cutoff(cfg, now)
    case None =>
    case Some(cutoff) =>
      FilterMembers(NotBefore(cutoff), samples);
      FilterFull(NotBefore(cutoff), samples);
  }

  lemma NothingToPrune(cfg: WindowConfig, now: int)
    ensures Pruned(cfg, now, []) == []
  {
    PruningDrops(cfg, now, []);
  }

  lemma {:induction false} FilterFull(keep: TailSample -> bool, s: seq<TailSample>)
    ensures |Filter(keep, s)| == |s| ==> Filter(keep, s) == s
  {
    if s != [] {
      FilterFull(keep, s[1..]);
      FilterMembers(keep, s[1..]);
    }
  }

  /** Pruning twice at one time is pruning once. */
  lemma PruneIdempotent(cfg: WindowConfig, now: int, samples: seq<TailSample>)
    ensures Pruned(cfg, now, Pruned(cfg, now, samples)) == Pruned(cfg, now, samples)
  {
    match Cutoff(cfg, now)
    case None =>
    case Some(cutoff) =>
      var kept := Pruned(cfg, now, samples);
      FilterMembers(NotBefore(cutoff), samples);
      FilterAll(NotBefore(cutoff), kept);
  }

  lemma CacheKept(w: Window, s: TailSample, now: int)
    requires CacheAgrees(w)
    ensures CacheAgrees(InsertSample(w, s))
    ensures CacheAgrees(PruneWindow(w, now))
    ensures CacheAgrees(SortWindow(w, now)) && !SortWindow(w, now).dirty
  {
    PruningDrops(w.cfg, now, w.samples);
  }

  /** What a caller of `sorted` reads: the cache is current, it holds exactly the latencies
      of the samples left by pruning, and a second prune at the same time does nothing. */
  lemma SortedView(w: Window, now: int)
    requires CacheAgrees(w)
    ensures var v := SortWindow(w, now);
      && v.samples == Pruned(w.cfg, now, w.samples)
      && v.sorted == Sort(Latencies(v.samples))
      && SortedInts(v.sorted) && multiset(v.sorted) == multiset(Latencies(v.samples))
      && PruneWindow(v, now) == v
  {
    CacheKept(w, TailSample(0, 0, 0, [], 0, 0, 0, 0), now);
    PruneIdempotent(w.cfg, now, w.samples);
    SortSorts(Latencies(Pruned(w.cfg, now, w.samples)));
  }

  lemma {:induction false} LatestIsMax(samples: seq<TailSample>)
    requires samples != []
    ensures exists i :: 0 <= i < |samples| && samples[i].captured == LatestCaptured(samples)
    ensures forall i :: 0 <= i < |samples| ==> samples[i].captured <= LatestCaptured(samples)
  {
    if |samples| == 1 {
      assert samples[0].captured == LatestCaptured(samples);
    } else {
      var init := samples[..|samples| - 1];
      LatestIsMax(init);
      var i :| 0 <= i < |init| && init[i].captured == LatestCaptured(init);
      assert samples[i].captured == LatestCaptured(init);
      assert samples[|samples| - 1].captured <= LatestCaptured(samples);
      forall j | 0 <= j < |samples| ensures samples[j].captured <= LatestCaptured(samples) {
        if j < |init| {
          assert init[j].captured <= LatestCaptured(init);
        }
      }
    }
  }

  // ---- the window as an object ---------------------------------------------------

  class ObservationWindow {
    const cfg: WindowConfig
    var samples: seq<TailSample>
    var sorted: seq<int>
    var dirty: bool

    function State(): Window
      reads this
    {
      Window(cfg, samples, sorted, dirty)
    }

    constructor (cfg: WindowConfig)
      ensures State() == NewWindow(cfg)
    {
      this.cfg := cfg;
      samples, sorted, dirty := [], [], false;
    }

    method Insert(s: TailSample) returns (status: StatusCode)
      modifies this
      ensures State() == InsertSample(old(State()), s)
      ensures status == (if s.latency < 0 then InvalidInput else Success)
    {
      if s.latency < 0 {
        return InvalidInput;
      }
      samples := samples + [s];
      if |samples| > cfg.maxSamples && cfg.maxSamples > 0 {
        var excess := |samples| - cfg.maxSamples;
        samples := samples[excess..];
      }
      dirty := true;
      return Success;
    }

    method Prune(now: int) returns (removed: nat)
      modifies this
      ensures State() == PruneWindow(old(State()), now)
      ensures removed == |old(samples)| - |samples|
    {
      hide Pruned;
      if |samples| == 0 {
        NothingToPrune(cfg, now);
        return 0;
      }
      PruningDrops(cfg, now, samples);
      var kept := Retained(now);
      removed := |samples| - |kept|;
      samples := kept;
      if removed != 0 {
        dirty := true;
      }
    }

    /** What the mode retains of the samples. */
    method Retained(now: int) returns (kept: seq<TailSample>)
      ensures kept == Pruned(cfg, now, samples)
    {
      hide Filter, TruncDiv;
      kept := samples;
      match cfg.mode {
        case RollingTime =>
          kept := Filter(NotBefore(now - cfg.duration), kept);
        case FixedRecent =>
          kept := Filter(NotBefore(now - cfg.duration), kept);
          if |kept| > cfg.fixedCount {
            kept := kept[|kept| - cfg.fixedCount..];
          }
        case RollingCount =>
          if |kept| > cfg.fixedCount {
            kept := kept[|kept| - cfg.fixedCount..];
          }
        case Tumbling =>
          var interval := cfg.duration;
          if interval > 0 {
            var bucket := TruncDiv(now, interval) * interval;
            kept := Filter(NotBefore(bucket), kept);
          }
        case UnlistedMode(_) =>
      }
    }

    method Sorted(now: int) returns (values: seq<int>)
      modifies this
      ensures State() == SortWindow(old(State()), now)
      ensures values == sorted
    {
      var _ := Prune(now);
      if dirty {
        RebuildSorted();
      }
      values := sorted;
    }

    method SamplesPruned(now: int) returns (values: seq<TailSample>)
      modifies this
      ensures State() == PruneWindow(old(State()), now)
      ensures values == samples
    {
      var _ := Prune(now);
      values := samples;
    }

    method RebuildSorted()
      modifies this
      ensures State() == old(State()).(sorted := Sort(Latencies(samples)), dirty := false)
    {
      var copied: seq<int> := [];
      for i := 0 to |samples|
        invariant copied == Latencies(samples[..i])
      {
        copied := copied + [samples[i].latency];
      }
      assert samples[..|samples|] == samples;
      sorted := Sort(copied);
      dirty := false;
    }

    method LatestCapturedNs() returns (m: int)
      ensures m == LatestCaptured(samples)
    {
      if |samples| == 0 {
        return 0;
      }
      m := samples[0].captured;
      for i := 1 to |samples|
        invariant m == LatestCaptured(samples[..i])
      {
        assert samples[..i + 1][..i] == samples[..i];
        if samples[i].captured > m {
          m := samples[i].captured;
        }
      }
      assert samples[..|samples|] == samples;
    }

    method Percentile(p: real, minSamples: nat, now: int) returns (r: Result<(int, Sufficiency), StatusCode>)
      modifies this
      ensures State() == SortWindow(old(State()), now)
      ensures |sorted| >= minSamples && sorted != [] ==> r == Ok((ExactQuantile(sorted, p).value, Sufficient))
      ensures |sorted| >= minSamples && sorted == [] ==> r == Err(NoEvidence)
      ensures |sorted| < minSamples ==>
        r == Ok((if sorted == [] then 0 else sorted[|sorted| - 1], InsufficientSamples))
    {
      var values := Sorted(now);
      if |values| < minSamples {
        return Ok((if values == [] then 0 else values[|values| - 1], InsufficientSamples));
      }
      match ExactQuantile(values, p) {
        case None => r := Err(NoEvidence);
        case Some(q) => r := Ok((q, Sufficient));
      }
    }
  }
}
