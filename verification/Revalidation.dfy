/** Revalidation: observations from before a restart or an advance of the epoch are never
    judged until fresh evidence arrives. */
module Revalidation {
  import opened Basics
  import opened Domain
  import opened Windows
  import opened Attribution
  import opened Selection
  import opened Codecs
  import opened StateFiles
  import opened FileContents
  import opened Transitions
  import opened WindowTraces
  import opened Evidence

  predicate Flagged(reval: map<int, bool>, id: nat) {
    GetOr(reval, id, false)
  }

  /** The call enters fresh evidence for the objective. */
  predicate Freshens(s: GovState, c: Call, id: nat) {
    c.IngestCall? && IngestVerdict(s, c.ev) == Success && EnabledWith(s.pol.objectives, id) > 0
  }

  // ---- what sets and clears the flag -----------------------------------------------------

  lemma {:induction false} IngestIntoFlag(s: GovState, objectives: seq<Objective>, sample: TailSample, id: nat)
    ensures Flagged(IngestInto(s, objectives, sample).reval, id)
      == (EnabledWith(objectives, id) == 0 && Flagged(s.reval, id))
  {
    hide InsertAt;
    if objectives != [] {
      IngestIntoFlag(s, objectives[..|objectives| - 1], sample, id);
      InsertAtFlag(IngestInto(s, objectives[..|objectives| - 1], sample), objectives[|objectives| - 1], sample);
    }
  }

  lemma InsertAtFlag(s: GovState, o: Objective, sample: TailSample)
    ensures IngestOne(s, o, sample).reval == if o.enabled then s.reval[o.id := false] else s.reval
  {
    hide InsertAt;
    InsertAtKeeps(s, o.id, 0, sample);
    InsertAtKeeps(InsertAt(s, o.id, 0, sample), o.id, sample.requestClass, sample);
  }

  lemma InsertAtKeeps(s: GovState, objective: nat, requestClass: nat, sample: TailSample)
    ensures InsertAt(s, objective, requestClass, sample).reval == s.reval
  {
    hide EnsuredWindow, InsertSample;
  }

  lemma IngestFlag(s: GovState, ev: RequestLatency, id: nat)
    ensures Flagged(Ingest(s, ev).0.reval, id) == (!Freshens(s, IngestCall(ev), id) && Flagged(s.reval, id))
  {
    hide IngestInto, IngestVerdict;
    VerdictMeans(s, ev);
    if IngestVerdict(s, ev) == Success {
      IngestIntoFlag(s, s.pol.objectives, SampleOf(ev), id);
    }
  }

  lemma EvaluateFlag(s: GovState, id: nat, now: int, k: nat)
    ensures Flagged(Evaluate(s, id, now).0.reval, k) == Flagged(s.reval, k)
  {
    hide Assess, EvaluatedWindow, StateOf, SufficiencyOf;
  }

  lemma {:induction false} EvaluateManyFlag(s: GovState, objectives: seq<Objective>, now: int, k: nat)
    ensures Flagged(EvaluateMany(s, objectives, now).0.reval, k) == Flagged(s.reval, k)
  {
    hide Evaluate;
    if objectives != [] {
      EvaluateManyFlag(s, objectives[..|objectives| - 1], now, k);
      EvaluateFlag(EvaluateMany(s, objectives[..|objectives| - 1], now).0, objectives[|objectives| - 1].id, now, k);
    }
  }

  lemma DecideFlag(s: GovState, now: int, k: nat)
    ensures Flagged(Decide(s, now).0.reval, k) == Flagged(s.reval, k)
  {
    hide EvaluateMany, DecideOn;
    EvaluateManyFlag(s, s.pol.objectives, now, k);
    var (after, evs) := EvaluateAll(s, now);
    DecideOnKeeps(after, evs, now);
  }

  lemma {:induction false} MarkedFlag(reval: map<int, bool>, objectives: seq<Objective>, id: nat)
    ensures Flagged(Marked(reval, objectives), id)
      == (Flagged(reval, id) || exists i :: 0 <= i < |objectives| && objectives[i].id == id)
  {
    if objectives != [] {
      var init := objectives[..|objectives| - 1];
      MarkedFlag(reval, init, id);
      if i :| 0 <= i < |init| && init[i].id == id {
        assert objectives[i].id == id;
      }
    }
  }

  ghost predicate AllRaise(entries: seq<(int, bool)>) {
    forall i :: 0 <= i < |entries| ==> entries[i].1
  }

  lemma {:induction false} ReadRaised(c: Cursor, n: nat, acc: seq<(int, bool)>)
    requires AllRaise(acc)
    ensures AllRaise(ReadMany(ReadReval, c, n, acc).0)
    decreases n
  {
    hide Read;
    if n > 0 {
      var (x, next) := ReadReval(c);
      ReadRaised(next, n - 1, acc + [x]);
      assert ReadMany(ReadReval, c, n, acc) == ReadMany(ReadReval, next, n - 1, acc + [x]);
    }
  }

  lemma {:induction false} InsertedFlag(reval: map<int, bool>, entries: seq<(int, bool)>, id: nat)
    requires AllRaise(entries)
    ensures Flagged(Inserted(reval, entries), id) ==
      (Flagged(reval, id) || exists i :: 0 <= i < |entries| && entries[i].0 == id)
  {
    if entries != [] {
      var init := entries[..|entries| - 1];
      InsertedFlag(reval, init, id);
      if i :| 0 <= i < |init| && init[i].0 == id {
        assert entries[i].0 == id;
      }
    }
  }

  lemma FlagsRaise(c: Cursor)
    ensures AllRaise(FlagsIn(c).flags)
  {
    hide Read, ReadMany;
    var (n, c1) := Read(c, 4);
    if n <= MAX_REVALIDATIONS {
      ReadRaised(c1, n, []);
    }
  }

  lemma OutcomesRaise(c: Cursor)
    ensures AllRaise(OutcomesIn(c).flags)
  {
    hide Read, ReadMany, FlagsIn;
    var (n, c1) := Read(c, 4);
    FlagsRaise(ReadMany(ReadOutcome, c1, n, []).1);
  }

  lemma InterventionsRaise(c: Cursor)
    ensures AllRaise(InterventionsIn(c).flags)
  {
    hide Read, ReadMany, OutcomesIn;
    var (n, c1) := Read(c, 4);
    OutcomesRaise(ReadMany(ReadIntervention, c1, n, []).1);
  }

  lemma BodyRaises(body: seq<bv8>)
    ensures AllRaise(BodyIn(body).flags)
  {
    hide Read, ReadMany, InterventionsIn;
    var (n, c4) := Read(Read(Read(Read(Cursor(body, true), 8).1, 8).1, 8).1, 4);
    InterventionsRaise(ReadMany(ReadObjective, c4, n, []).1);
  }

  lemma ContentsRaise(file: seq<bv8>)
    ensures AllRaise(ContentsOf(file).flags)
  {
    hide BodyIn, IntactFrame;
    LongEnough(file);
    if IntactFrame(file) {
      BodyRaises(file[20..]);
    }
  }

  /** The file names the objective, in its policy or among its flags. */
  predicate Raises(file: seq<bv8>, id: nat) {
    var k := ContentsOf(file);
    || (exists i :: 0 <= i < |k.listed| && k.listed[i].id == id)
    || (exists i :: 0 <= i < |k.flags| && k.flags[i].0 == id)
  }

  lemma LoadFlag(s: GovState, file: seq<bv8>, id: nat)
    ensures Flagged(LoadFile(s, file).0.reval, id) == (Flagged(s.reval, id) || Raises(file, id))
  {
    hide Load, ContentsOf, AllRaise, Flagged, Inserted, Marked;
    LoadInstalls(DurableOf(s), file);
    ContentsRaise(file);
    MarkedFlag(s.reval, ContentsOf(file).listed, id);
    InsertedFlag(Marked(s.reval, ContentsOf(file).listed), ContentsOf(file).flags, id);
  }

  /** A load that succeeds, or that changes the policy at all, raises the flag of every objective
      of the policy in force afterwards. */
  lemma PolicyRaised(s: GovState, file: seq<bv8>, id: nat)
    ensures var (t, status) := LoadFile(s, file);
      (status == Success || t.pol != s.pol) && FindObjective(t.pol.objectives, id).Some? ==> Raises(file, id)
  {
    hide Load, ContentsOf, Inserted, Marked;
    LoadInstalls(DurableOf(s), file);
    var k := ContentsOf(file);
    var t := LoadFile(s, file).0;
    if k.policy.Some? && FindObjective(t.pol.objectives, id).Some? {
      var o := FindObjective(t.pol.objectives, id).value;
      var i :| 0 <= i < |k.listed| && k.listed[i] == o;
      assert k.listed[i].id == id;
    }
  }

  /** The flag of an objective is raised by an advance of the epoch on a policy that names it and
      by a load of a file that names it, accepted or refused; it is lowered by accepted evidence
      for it, and otherwise left alone. */
  lemma FlagStep(s: GovState, c: Call, id: nat)
    ensures var before, after := Flagged(s.reval, id), Flagged(Next(s, c).reval, id);
      if c.LoadCall? then after == (before || Raises(c.file, id))
      else if c.AdvanceEpochCall? then
        after == (before || exists i :: 0 <= i < |s.pol.objectives| && s.pol.objectives[i].id == id)
      else after == (before && !Freshens(s, c, id))
  {
    hide Ingest, Evaluate, EvaluateMany, Decide, LoadFile, Marked, Raises, Freshens, AfterLifecycle, Flagged,
      IngestVerdict, EnabledWith;
    if IsLifecycleCall(c) {
      LifecycleKeeps(s, c);
      NotIngest(s, c, id);
    } else if c.IngestCall? {
      IngestFlag(s, c.ev, id);
    } else if IsEvidenceCall(c) {
      NotIngest(s, c, id);
      if c.EvaluateCall? {
        EvaluateFlag(s, c.objective, c.now, id);
      } else if c.EvaluateAllCall? {
        EvaluateManyFlag(s, s.pol.objectives, c.now, id);
      } else {
        DecideFlag(s, c.now, id);
      }
    } else if c.LoadCall? {
      LoadFlag(s, c.file, id);
    } else {
      MarkedFlag(s.reval, s.pol.objectives, id);
      NotIngest(s, c, id);
    }
  }

  lemma NotIngest(s: GovState, c: Call, id: nat)
    requires !c.IngestCall?
    ensures !Freshens(s, c, id)
  {
  }

  // ---- until fresh evidence arrives --------------------------------------------------------

  /** No call of the run enters fresh evidence for the objective. */
  ghost predicate NeverFreshened(s: GovState, calls: seq<Call>, id: nat) {
    calls == [] ||
    var init, c := calls[..|calls| - 1], calls[|calls| - 1];
    NeverFreshened(s, init, id) && !Freshens(Run(s, init), c, id)
  }

  lemma {:induction false} FlagStays(s: GovState, calls: seq<Call>, id: nat)
    requires Flagged(s.reval, id) && NeverFreshened(s, calls, id)
    ensures Flagged(Run(s, calls).reval, id)
    decreases |calls|
  {
    hide Next, Run, Flagged, Freshens;
    RunNone(s);
    if calls != [] {
      UnfoldRun(s, calls);
      FlagStays(s, calls[..|calls| - 1], id);
      FlagStep(Run(s, calls[..|calls| - 1]), calls[|calls| - 1], id);
    }
  }

  /** What an evaluation of a flagged objective reports: no judgement and no action. */
  predicate Withheld(ev: Evaluation) {
    && ev.revalidationRequired && ev.state == RevalidationRequired
    && ev.sufficiency == StaleEvidence && ev.selected == NoAction
  }

  lemma FlaggedIsWithheld(s: GovState, o: Objective, now: int)
    ensures Flagged(s.reval, o.id) <==> Withheld(Assess(s, o, now))
    ensures Flagged(s.reval, o.id) <==> Assess(s, o, now).state == RevalidationRequired
  {
    hide Decompose, Select, ReportedSet, EvaluatedWindow, RecoveryThreshold, EffectiveMinSamples, CurrentAuthority,
      Observe, IsStale;
  }

  /** After a load, accepted or refused, every objective that the file names is withheld, whatever
      windows the governor still holds and however the run continues, until fresh evidence for it
      is accepted. If the load succeeds or changes the policy, that is every objective of the
      policy in force. */
  lemma RestartWithholds(s: GovState, file: seq<bv8>, calls: seq<Call>, o: Objective, now: int)
    ensures var (t, status) := LoadFile(s, file);
      && (Raises(file, o.id) && NeverFreshened(t, calls, o.id) ==> Withheld(Assess(Run(t, calls), o, now)))
      && ((status == Success || t.pol != s.pol) && FindObjective(t.pol.objectives, o.id).Some? ==> Raises(file, o.id))
  {
    hide LoadFile, Run, Flagged, NeverFreshened, Withheld, Assess, Raises;
    var t := LoadFile(s, file).0;
    LoadFlag(s, file, o.id);
    PolicyRaised(s, file, o.id);
    if Flagged(t.reval, o.id) && NeverFreshened(t, calls, o.id) {
      FlagStays(t, calls, o.id);
      FlaggedIsWithheld(Run(t, calls), o, now);
    }
  }

  /** The same after an advance of the epoch. */
  lemma AdvanceWithholds(s: GovState, calls: seq<Call>, o: Objective, now: int)
    requires o in s.pol.objectives
    ensures var t := Next(s, AdvanceEpochCall);
      NeverFreshened(t, calls, o.id) ==> Withheld(Assess(Run(t, calls), o, now))
  {
    hide Run, Flagged, NeverFreshened, Withheld, Assess, Next;
    var t := Next(s, AdvanceEpochCall);
    var i :| 0 <= i < |s.pol.objectives| && s.pol.objectives[i] == o;
    assert s.pol.objectives[i].id == o.id;
    FlagStep(s, AdvanceEpochCall, o.id);
    if NeverFreshened(t, calls, o.id) {
      FlagStays(t, calls, o.id);
      FlaggedIsWithheld(Run(t, calls), o, now);
    }
  }

  /** Fresh evidence ends it: after an accepted completion no enabled objective is withheld. */
  lemma EvidenceReleases(s: GovState, ev: RequestLatency, o: Objective, now: int)
    requires o in s.pol.objectives && o.enabled && IngestVerdict(s, ev) == Success
    ensures !Withheld(Assess(Next(s, IngestCall(ev)), o, now))
  {
    hide Next, Flagged, Withheld, Assess, IngestVerdict;
    var i :| 0 <= i < |s.pol.objectives| && s.pol.objectives[i] == o;
    PresentCounts(s.pol.objectives, i);
    FlagStep(s, IngestCall(ev), o.id);
    FlaggedIsWithheld(Next(s, IngestCall(ev)), o, now);
  }
}
