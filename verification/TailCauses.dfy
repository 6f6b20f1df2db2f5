/** Which phases and causes a decomposition names, told by the time the tail spent in each phase. */
module TailCauses {
  import opened Basics
  import opened Domain
  import opened Codes
  import opened Attribution

  // ---- from phases to causes -------------------------------------------------------------------

  /** The phases behind each cause; the other causes have none. */
  lemma CauseIff(p: Phase)
    ensures CauseOfPhase(p).Queueing? <==> p.AdmissionWait? || p.QueueWait?
    ensures CauseOfPhase(p).Batching? <==> p.BatchWait?
    ensures CauseOfPhase(p).ColdResidency? <==> p.ModelLoad? || p.EngineWarmup?
    ensures CauseOfPhase(p).ModelOrStateLoad? <==> p.StateFetch?
    ensures CauseOfPhase(p).TransferCause? <==> p.Transfer?
    ensures CauseOfPhase(p).MemoryPressure? <==> p.MemoryReclaim?
    ensures CauseOfPhase(p).ExecutionVariance? <==> p.Execution? || p.Prefill? || p.Decode? || p.BackendWait?
    ensures CauseOfPhase(p).Preemption? <==> p.PreemptionWait?
    ensures CauseOfPhase(p).Recovery? <==> p.RecoveryWait?
    ensures CauseOfPhase(p).RetryCause? <==> p.RetryDelay?
    ensures CauseOfPhase(p).PublicationDelay? <==> p.Publication?
    ensures CauseOfPhase(p).UnknownCause? <==> p.OtherPhase? || p.UnlistedPhase?
  {
  }

  // ---- totals and phases -------------------------------------------------------------------------

  lemma {:induction false} NoTotal(t: seq<PhaseTotal>, p: Phase)
    requires forall i :: 0 <= i < |t| ==> t[i].phase != p
    ensures TotalFor(t, p) == 0
  {
    if t != [] {
      NoTotal(t[1..], p);
    }
  }

  /** In ordered totals a phase's entry is its total. */
  lemma {:induction false} TotalOfEntry(t: seq<PhaseTotal>, i: nat)
    requires OrderedTotals(t) && i < |t|
    ensures TotalFor(t, t[i].phase) == t[i].total
  {
    hide PhaseCode;
    if i == 0 {
      forall j | 0 <= j < |t[1..]| ensures t[1..][j].phase != t[0].phase {
        assert PhaseCode(t[0].phase) < PhaseCode(t[j + 1].phase);
      }
      NoTotal(t[1..], t[0].phase);
    } else {
      assert PhaseCode(t[0].phase) < PhaseCode(t[i].phase);
      TotalOfEntry(t[1..], i - 1);
    }
  }

  lemma {:induction false} EntryAt(t: seq<PhaseTotal>, p: Phase) returns (i: nat)
    requires TotalFor(t, p) != 0
    ensures i < |t| && t[i].phase == p
  {
    if t[0].phase == p {
      i := 0;
    } else {
      var rest := EntryAt(t[1..], p);
      i := rest + 1;
    }
  }

  lemma EntryOfTotal(t: seq<PhaseTotal>, p: Phase) returns (i: nat)
    requires TotalFor(t, p) != 0 && OrderedTotals(t)
    ensures i < |t| && t[i] == PhaseTotal(p, TotalFor(t, p))
  {
    i := EntryAt(t, p);
    TotalOfEntry(t, i);
  }

  predicate EntryAssociates(x: PhaseTotal, dominant: Phase, whole: int, c: TailCause) {
    && x.phase != dominant && whole > 0 && 5 * x.total >= whole
    && c == TailCause(CauseOfPhase(x.phase), AssociatedContributor, Ratio(x.total, whole), x.total)
  }

  lemma {:induction false} AssociatedIff(t: seq<PhaseTotal>, dominant: Phase, whole: int, c: TailCause)
    ensures c in Associated(t, dominant, whole) <==>
      exists i :: 0 <= i < |t| && EntryAssociates(t[i], dominant, whole, c)
    decreases |t|
  {
    hide CauseOfPhase;
    if t != [] {
      var init := t[..|t| - 1];
      AssociatedIff(init, dominant, whole, c);
      assert forall i :: 0 <= i < |init| ==> init[i] == t[i];
    }
  }

  lemma {:induction false} ContributionIff(t: seq<PhaseTotal>, dominant: Phase, whole: int, c: PhaseContribution)
    ensures c in Contributions(t, dominant, whole) <==>
      exists i :: 0 <= i < |t| && t[i].total > 0
        && c == PhaseContribution(t[i].phase, t[i].total, Ratio(t[i].total, whole), t[i].phase == dominant)
    decreases |t|
  {
    if t != [] {
      var init := t[..|t| - 1];
      ContributionIff(init, dominant, whole, c);
      assert forall i :: 0 <= i < |init| ==> init[i] == t[i];
    }
  }

  // ---- the decomposition -------------------------------------------------------------------------

  /** The tail spends the most time in the phase, and in no phase of a smaller code as much. */
  ghost predicate LeadsTail(tail: seq<TailSample>, p: Phase) {
    forall q :: NoLessThan(tail, p, q)
  }

  predicate NoLessThan(tail: seq<TailSample>, p: Phase, q: Phase) {
    var a, b := TailPhaseTime(tail, p), TailPhaseTime(tail, q);
    a > b || (a == b && (a == 0 || PhaseCode(p) <= PhaseCode(q)))
  }

  lemma DominantLeads(tail: seq<TailSample>)
    requires forall i :: 0 <= i < |tail| ==> Reconciled(tail[i])
    requires TotalsOf(tail) != []
    ensures var d := Dominant(TotalsOf(tail));
      d.total == TailPhaseTime(tail, d.phase) && d.total >= 0 && LeadsTail(tail, d.phase)
  {
    hide PhaseCode, Reconciled, TotalsOf;
    var t := TotalsOf(tail);
    TotalsAccount(tail, OtherPhase);
    var k := DominantIsCanonical(t);
    TotalsAccount(tail, t[k].phase);
    TotalOfEntry(t, k);
    forall q ensures NoLessThan(tail, t[k].phase, q) {
      TotalsAccount(tail, q);
      if TotalFor(t, q) != 0 {
        var i := EntryOfTotal(t, q);
      }
    }
  }

  /** The contributions are exactly the phases in which the tail spent any time, each with that time
      as its total and its share of the whole; the one flagged as dominant is the phase in which it
      spent the most, of the smallest code among equals. */
  lemma ContributionsNamed(samples: seq<TailSample>, cutoff: int, c: PhaseContribution)
    requires samples != [] && forall s :: s in samples ==> Reconciled(s)
    ensures var tail := TailBucket(samples, cutoff);
      var whole, time := TotalLatency(tail), TailPhaseTime(tail, c.phase);
      c in Decompose(samples, cutoff).contributions <==>
        && whole > 0 && time > 0 && c.total == time && c.share == Ratio(time, whole)
        && (c.dominant <==> LeadsTail(tail, c.phase))
  {
    hide PhaseCode, Reconciled, TotalsOf, Contributions, Dominant, Associated, TailBucket, TotalLatency, LeadsTail;
    var tail := TailBucket(samples, cutoff);
    var t, whole := TotalsOf(tail), TotalLatency(tail);
    TailBucketMembers(samples, cutoff);
    TotalsAccount(tail, c.phase);
    ContributionIff(t, Dominant(t).phase, whole, c);
    if t == [] {
      NoTotal(t, c.phase);
    } else {
      DominantLeads(tail);
      if TailPhaseTime(tail, c.phase) > 0 {
        LeadIsUnique(tail, Dominant(t).phase, c.phase);
      }
    }
    if TotalFor(t, c.phase) > 0 {
      var i := EntryOfTotal(t, c.phase);
    }
    forall i | 0 <= i < |t| ensures t[i].total == TotalFor(t, t[i].phase) {
      TotalOfEntry(t, i);
    }
  }

  lemma LeadIsUnique(tail: seq<TailSample>, d: Phase, p: Phase)
    requires LeadsTail(tail, d) && TailPhaseTime(tail, p) > 0
    ensures LeadsTail(tail, p) <==> p == d
  {
    hide PhaseCode, PhaseOf, TailPhaseTime;
    PhaseCodes(d, 0);
    PhaseCodes(p, 0);
    assert NoLessThan(tail, d, p);
    if LeadsTail(tail, p) {
      assert NoLessThan(tail, p, d);
    }
  }

  /** A cause for each phase other than the leading one that took at least a fifth of the whole. */
  ghost predicate Associates(tail: seq<TailSample>, d: Phase, c: TailCause) {
    exists q :: AssociatesPhase(tail, d, q, c)
  }

  predicate AssociatesPhase(tail: seq<TailSample>, d: Phase, q: Phase, c: TailCause) {
    var whole, time := TotalLatency(tail), TailPhaseTime(tail, q);
    && q != d && whole > 0 && 5 * time >= whole
    && c == TailCause(CauseOfPhase(q), AssociatedContributor, Ratio(time, whole), time)
  }

  lemma AssociatedNamed(tail: seq<TailSample>, d: Phase, c: TailCause)
    ensures c in Associated(TotalsOf(tail), d, TotalLatency(tail)) <==> Associates(tail, d, c)
  {
    hide PhaseCode, TotalsOf, Associated, TotalLatency, CauseOfPhase, Reconciled;
    var t, whole := TotalsOf(tail), TotalLatency(tail);
    TotalsAccount(tail, OtherPhase);
    AssociatedIff(t, d, whole, c);
    if i :| 0 <= i < |t| && EntryAssociates(t[i], d, whole, c) {
      TotalsAccount(tail, t[i].phase);
      TotalOfEntry(t, i);
      assert AssociatesPhase(tail, d, t[i].phase, c);
    }
    if q :| AssociatesPhase(tail, d, q, c) {
      TotalsAccount(tail, q);
      var i := EntryOfTotal(t, q);
      assert EntryAssociates(t[i], d, whole, c);
    }
  }

  /** The sample's first longest phase, or OTHER without any phase. */
  ghost predicate LedBy(x: TailSample, d: Phase) {
    if x.phases == [] then d.OtherPhase? else exists i :: FirstLongest(x.phases, i) && x.phases[i].phase == d
  }

  lemma LedByDominant(x: TailSample, d: Phase)
    ensures LedBy(x, d) <==> DominantPhase(x) == d
  {
    if x.phases != [] {
      var first := LongestIsFirst(x.phases);
      assert FirstLongest(x.phases, first);
      forall i | FirstLongest(x.phases, i) ensures i == first {
        assert x.phases[i].duration == x.phases[first].duration;
      }
    }
  }

  /** The confidence in the leading phase counts the samples of the tail that it leads. */
  lemma {:induction false} MatchingCounts(tail: seq<TailSample>, d: Phase)
    ensures Matching(tail, d) == |Filter((x: TailSample) => LedBy(x, d), tail)|
    decreases |tail|
  {
    hide LedBy, DominantPhase;
    if tail != [] {
      var init, last := tail[..|tail| - 1], tail[|tail| - 1];
      var led := (x: TailSample) => LedBy(x, d);
      MatchingCounts(init, d);
      LedByDominant(last, d);
      FilterAppend(led, init, [last]);
      assert tail == init + [last];
      assert Filter(led, [last]) == if led(last) then [last] else [];
    }
  }

  /** There is no phase to name exactly if no sample of the tail brings any. */
  lemma {:induction false} NoPhasesIff(tail: seq<TailSample>)
    ensures TotalsOf(tail) == [] <==> forall i :: 0 <= i < |tail| ==> tail[i].phases == []
    decreases |tail|
  {
    if tail != [] {
      var init, last := tail[..|tail| - 1], tail[|tail| - 1];
      NoPhasesIff(init);
      PhasesIntoNone(TotalsOf(init), last.phases);
      if forall i :: 0 <= i < |init| ==> init[i].phases == [] {
        assert forall i :: 0 <= i < |tail| - 1 ==> tail[i] == init[i];
      } else {
        var i :| 0 <= i < |init| && init[i].phases != [];
        assert tail[i].phases != [];
      }
    }
  }

  lemma {:induction false} PhasesIntoNone(t: seq<PhaseTotal>, phases: seq<PhaseLatency>)
    ensures PhasesInto(t, phases) == [] <==> t == [] && phases == []
  {
    if phases != [] {
      PhasesIntoNone(t, phases[..|phases| - 1]);
    }
  }
  /** The causes: first that of the phase in which the tail spent the most, and then exactly those of
      the other phases that took at least a fifth of the whole; without any phase it is unknown. */
  lemma CausesNamed(samples: seq<TailSample>, cutoff: int) returns (d: Phase)
    requires samples != [] && forall s :: s in samples ==> Reconciled(s)
    ensures var tail, causes := TailBucket(samples, cutoff), Decompose(samples, cutoff).causes;
      && causes != []
      && (if forall i :: 0 <= i < |tail| ==> tail[i].phases == [] then
            causes == [TailCause(UnknownCause, UnknownAttribution, Ratio(0, 1), 0)]
          else
            && LeadsTail(tail, d) && causes[0].attribution.DominantContributor?
            && causes[0].category == CauseOfPhase(d) && causes[0].excess == TailPhaseTime(tail, d)
            && causes[0].confidence == Ratio(Matching(tail, d), |tail|)
            && forall c :: c in causes[1..] <==> Associates(tail, d, c))
  {
    hide Reconciled, TotalsOf, Contributions, Dominant, Associated, TailBucket, TotalLatency, LeadsTail, CauseOfPhase,
      Associates, TailPhaseTime;
    var tail := TailBucket(samples, cutoff);
    TailBucketMembers(samples, cutoff);
    var t := TotalsOf(tail);
    d := Dominant(t).phase;
    NoPhasesIff(tail);
    if t != [] {
      DominantLeads(tail);
      forall c ensures c in Associated(t, d, TotalLatency(tail)) <==> Associates(tail, d, c) {
        AssociatedNamed(tail, d, c);
      }
      var causes := Decompose(samples, cutoff).causes;
      assert causes[1..] == Associated(t, d, TotalLatency(tail));
    }
  }
}
