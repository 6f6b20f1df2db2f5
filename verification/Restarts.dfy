/** What lasts across a restart, when another governor loads what this one saved: terminal
    statuses and the pace of authorisations. */
module Restarts {
  import opened Basics
  import opened Domain
  import opened Selection
  import opened StateFiles
  import opened Transitions
  import opened Evidence
  import opened Interventions

  // ---- an authorisation that is granted ------------------------------------------------------

  /** A policy with one objective, and the one proposal for it that no facts rule out. */
  function Only(objective: nat, cooldown: int): Objective {
    Objective(objective, 1, 0, 0, DEFAULT_WINDOW, 1, 0, true, 0, cooldown, None, 0, true)
  }

  function OnlyPolicy(objective: nat, cooldown: int): Call {
    SetPolicyCall(Policy(0, 0, [Only(objective, cooldown)]))
  }

  function Escalation(s: GovState, o: Objective): Intervention {
    Intervention(0, 0, Escalate, Proposed, UnknownCause, 0, CurrentAuthority(s, o), o.id, o.generation, 0, Feasible,
      0, 0, 0)
  }

  lemma EscalationPasses(s: GovState, o: Objective, now: int)
    requires !s.shuttingDown && s.pol.objectives == [o] && o.enabled && !CooldownActive(s, o, now)
    ensures AuthorizeVerdict(s, Escalation(s, o), now) == Success
    ensures AuthorizedBy(s, AuthorizeCall(Escalation(s, o), now)).Some?
    ensures AuthorizedBy(s, AuthorizeCall(Escalation(s, o), now)).value.objective == o.id
  {
    hide InfeasibilityOf, CooldownActive;
    assert FindObjective(s.pol.objectives, o.id) == Some(o);
    AlwaysFeasible(s.facts);
    AuthorizeEntry(s, Escalation(s, o), now);
  }

  lemma AlwaysFeasible(f: Facts)
    ensures InfeasibilityOf(Escalate, f) == Feasible
  {
  }

  // ---- terminal statuses, whatever the ids -----------------------------------------------------

  /** Calls that load no file and do not ask for the id. */
  predicate LeftAlone(calls: seq<Call>, id: int) {
    forall i :: 0 <= i < |calls| ==> !calls[i].LoadCall? && !Claims(calls[i], id)
  }

  lemma NextIdGrows(s: GovState, c: Call)
    requires !c.LoadCall?
    ensures s.nextInt <= Next(s, c).nextInt
  {
    hide Authorize, Dispatch, Acknowledge, RecordOutcome, Cancel, Supersede, Ingest, Evaluate, EvaluateAll, Decide,
      Marked, WithStatus;
    if c.AuthorizeCall? {
      AuthorizeRecords(s, c.prop, c.now);
    } else if c.DecideCall? {
      DecideRecords(s, c.now);
    } else if IsLifecycleCall(c) {
      LifecycleKeepsNext(s, c);
    } else if IsEvidenceCall(c) {
      EvidenceKeepsTables(s, c);
    }
  }

  lemma StatusKeepsNext(s: GovState, id: int, status: InterventionStatus)
    requires id in s.interventions
    ensures WithStatus(s, id, status).nextInt == s.nextInt
  {
  }

  lemma LifecycleKeepsNext(s: GovState, c: Call)
    requires c.DispatchCall? || c.AcknowledgeCall? || c.RecordOutcomeCall? || c.CancelCall? || c.SupersedeCall?
    ensures Next(s, c).nextInt == s.nextInt
  {
    hide WithStatus, InfeasibilityOf, FindObjective, Same, CurrentAuthority, StatusAfter;
    if c.id in s.interventions {
      forall status ensures WithStatus(s, c.id, status).nextInt == s.nextInt {
        StatusKeepsNext(s, c.id, status);
      }
      if c.RecordOutcomeCall? {
        StatusKeepsNext(s, c.id, StatusAfter(c.outcome, s.interventions[c.id].status));
      }
    }
  }

  /** Below the next id an intervention is never written over. */
  lemma {:induction false} BelowIsKept(s: GovState, calls: seq<Call>, id: int)
    requires id in s.interventions && IsTerminal(s.interventions[id].status) && id < s.nextInt && LeftAlone(calls, id)
    ensures StatusKept(s, Run(s, calls), id) && id < Run(s, calls).nextInt
    decreases |calls|
  {
    hide Next, Run, DecisionActs, AuthorizeVerdict;
    RunNone(s);
    if calls != [] {
      var init, c := calls[..|calls| - 1], calls[|calls| - 1];
      UnfoldRun(s, calls);
      BelowIsKept(s, init, id);
      NextIdGrows(Run(s, init), c);
      TerminalChangesIff(Run(s, init), c, id);
    }
  }

  /** As many authorisations as asked for. */
  function Escalations(prop: Intervention, n: nat): seq<Call> {
    if n == 0 then [] else Escalations(prop, n - 1) + [AuthorizeCall(prop, 0)]
  }

  lemma {:induction false} EscalationsAreGranted(s: GovState, o: Objective, n: nat)
    requires !s.shuttingDown && s.pol.objectives == [o] && o.enabled && o.coolDown == 0
    ensures var t := Run(s, Escalations(Escalation(s, o), n));
      && !t.shuttingDown && t.pol == s.pol && Escalation(t, o) == Escalation(s, o) && t.nextInt == s.nextInt + n
      && (n > 0 ==> t.nextInt - 1 in t.interventions && t.interventions[t.nextInt - 1].status == Authorized)
  {
    hide Next, Run, AuthorizeVerdict;
    RunNone(s);
    if n > 0 {
      var prop := Escalation(s, o);
      var t := Run(s, Escalations(prop, n - 1));
      EscalationsAreGranted(s, o, n - 1);
      OneMoreCall(s, Escalations(prop, n - 1), AuthorizeCall(prop, 0));
      EscalationPasses(t, o, 0);
      OneGranted(t, prop);
    }
  }

  lemma {:induction false} EscalationsClaimNothing(prop: Intervention, n: nat, id: int)
    requires prop.id == 0
    ensures LeftAlone(Escalations(prop, n), id)
  {
    if n > 0 {
      EscalationsClaimNothing(prop, n - 1, id);
    }
  }

  lemma OneGranted(s: GovState, prop: Intervention)
    requires AuthorizeVerdict(s, prop, 0) == Success && prop.id == 0
    ensures var t := Next(s, AuthorizeCall(prop, 0));
      && t == s.(interventions := t.interventions, lastIntervention := t.lastIntervention, nextInt := s.nextInt + 1)
      && s.nextInt in t.interventions && t.interventions[s.nextInt].status == Authorized
  {
    hide AuthorizeVerdict;
  }

  /** In any state, however it came about: a terminal status lasts through every further call that
      loads nothing and does not ask for its id if and only if the next id has passed it. */
  lemma TerminalStaysIff(s: GovState, id: int)
    requires id in s.interventions && IsTerminal(s.interventions[id].status) && !s.shuttingDown
    ensures (forall more :: LeftAlone(more, id) ==> StatusKept(s, Run(s, more), id)) <==> id < s.nextInt
  {
    hide Run, Next;
    if id < s.nextInt {
      forall more | LeftAlone(more, id) ensures StatusKept(s, Run(s, more), id) {
        BelowIsKept(s, more, id);
      }
    } else {
      var o := Only(0, 0);
      var u := Next(s, OnlyPolicy(0, 0));
      var more := Escalations(Escalation(u, o), id - s.nextInt + 1);
      OnlySet(s, 0, 0);
      EscalationsAreGranted(u, o, id - s.nextInt + 1);
      EscalationsClaimNothing(Escalation(u, o), id - s.nextInt + 1, id);
      RunOn(s, [OnlyPolicy(0, 0)], more);
      OneCall(s, OnlyPolicy(0, 0));
      assert LeftAlone([OnlyPolicy(0, 0)] + more, id);
      assert !StatusKept(s, Run(s, [OnlyPolicy(0, 0)] + more), id);
    }
  }

  lemma OnlySet(s: GovState, objective: nat, cooldown: int)
    ensures Next(s, OnlyPolicy(objective, cooldown)) == s.(pol := Policy(0, 0, [Only(objective, cooldown)]))
  {
    hide AfterEvidence, AfterLifecycle;
  }

  // ---- terminal statuses across a restart ------------------------------------------------------

  /** What a load that installs the interventions of a saved state makes of them and of the next
      id. */
  lemma InstalledBySave(s: GovState, t: GovState)
    requires Sane(t) && Representable(t.epoch, DurableOf(t)) && InstallsInterventions(t)
    ensures var u := LoadFile(s, SaveFile(t)).0;
      && u.interventions == AllRecovered(t.interventions)
      && u.nextInt == (if |t.reval| <= MAX_REVALIDATIONS then t.nextInt else s.nextInt)
      && u.shuttingDown == s.shuttingDown
  {
    hide Sane, Load, Save, Marked, Representable, AllRecovered;
    FewerOutcomes(t);
    SavedLoads(DurableOf(s), t.epoch, DurableOf(t));
  }

  /** A terminal intervention of a sane governor is restored as such by a load that gets as far as
      the interventions; there it lasts, whatever is called next, if and only if the load is not
      refused over the flags or the restarted governor's next id had passed it. */
  lemma RestartKeepsTerminalIff(t: GovState, restarted: GovState, id: int)
    requires Sane(t) && id in t.interventions && IsTerminal(t.interventions[id].status)
    requires Representable(t.epoch, DurableOf(t)) && InstallsInterventions(t) && !restarted.shuttingDown
    ensures var u := LoadFile(restarted, SaveFile(t)).0;
      && StatusKept(t, u, id)
      && ((forall more :: LeftAlone(more, id) ==> StatusKept(t, Run(u, more), id))
          <==> |t.reval| <= MAX_REVALIDATIONS || id < restarted.nextInt)
  {
    hide LoadFile, Run, Representable, InstallsInterventions, LeftAlone;
    InstalledBySave(restarted, t);
    TerminalStaysIff(LoadFile(restarted, SaveFile(t)).0, id);
  }

  /** A status that a run made terminal stays so in a governor that loads what was saved, and on
      from there. */
  lemma TerminalAcrossRestart(s: GovState, calls: seq<Call>, restarted: GovState, more: seq<Call>, id: int)
    requires Sane(s) && id in s.interventions && IsTerminal(s.interventions[id].status)
    requires ProperAlong(s, calls) && Respected(calls, id, s.interventions[id].status)
    requires var t := Run(s, calls);
      && Representable(t.epoch, DurableOf(t)) && InstallsInterventions(t)
      && restarted.nextInt >= 1 && KeepsIdsBelow(restarted, t)
    requires ProperAlong(LoadFile(restarted, SaveFile(Run(s, calls))).0, more)
    requires Respected(more, id, s.interventions[id].status)
    ensures StatusKept(s, Run(LoadFile(restarted, SaveFile(Run(s, calls))).0, more), id)
  {
    hide Run, Sane, LoadFile, SaveFile, Representable, Respected, ProperAlong, KeepsIdsBelow, InstallsInterventions;
    var t := Run(s, calls);
    TerminalAbsorbs(s, calls, id);
    SaneInRuns(s, calls);
    InstalledBySave(restarted, t);
    LoadSaneIff(restarted, t);
    TerminalAbsorbs(LoadFile(restarted, SaveFile(t)).0, more, id);
  }

  // ---- the cooldown across a restart -----------------------------------------------------------

  /** No authorisation or decision is called for before the start. */
  predicate ActsFrom(calls: seq<Call>, start: int) {
    forall i :: 0 <= i < |calls| ==> calls[i].AuthorizeCall? || calls[i].DecideCall? ==> calls[i].now >= start
  }

  lemma {:induction false} TimesFrom(s: GovState, calls: seq<Call>, objective: nat, start: int)
    requires ActsFrom(calls, start)
    ensures forall i :: 0 <= i < |AuthTimes(s, calls, objective)| ==> AuthTimes(s, calls, objective)[i] >= start
    decreases |calls|
  {
    hide Run, AuthorizedBy;
    if calls != [] {
      TimesFrom(s, calls[..|calls| - 1], objective, start);
    }
  }

  lemma SpacedJoin(a: seq<int>, b: seq<int>, gap: int)
    requires Spaced(a, gap) && Spaced(b, gap) && gap > 0
    ensures Spaced(a + b, gap) <==> a == [] || b == [] || b[0] - a[|a| - 1] >= gap
  {
    var ts := a + b;
    if a != [] && b != [] {
      assert ts[|a| - 1] == a[|a| - 1] && ts[|a|] == b[0];
      if b[0] - a[|a| - 1] >= gap {
        forall i, j | 0 <= i < j < |ts| ensures ts[j] - ts[i] >= gap {
          if i < |a| <= j {
            assert i < |a| - 1 ==> a[|a| - 1] - a[i] >= gap;
            assert j > |a| ==> b[j - |a|] - b[0] >= gap;
          }
        }
      }
    }
  }

  /** Enough time has passed since the last of the times. */
  predicate Rested(ts: seq<int>, start: int, cooldown: int) {
    ts == [] || start - ts[|ts| - 1] >= cooldown
  }

  lemma TimesOfTwo(s: GovState, a: Call, b: Call, objective: nat)
    ensures AuthTimes(s, [a, b], objective) == AuthorizedAt(s, a, objective) + AuthorizedAt(Next(s, a), b, objective)
  {
    hide Next, AuthorizedAt;
    RunNone(s);
    OneCall(s, a);
    assert [a, b][..1] == [a] && [a][..0] == [];
    assert AuthTimes(s, [a], objective) == AuthorizedAt(s, a, objective);
  }

  lemma CooldownOfTwo(s: GovState, a: Call, b: Call, objective: nat, cooldown: int)
    requires CooldownIs(s, objective, cooldown) && CooldownIs(Next(s, a), objective, cooldown)
    requires CooldownIs(Next(Next(s, a), b), objective, cooldown)
    ensures CooldownAlong(s, [a, b], objective, cooldown)
  {
    hide Next, CooldownIs, Run;
    RunNone(s);
    OneCall(s, a);
    TwoCalls(s, a, b);
    assert [a, b][..1] == [a] && [a][..0] == [];
    assert CooldownAlong(s, [a], objective, cooldown);
  }

  lemma GrantedAtOnce(s: GovState, objective: nat, cooldown: int, start: int)
    requires !s.shuttingDown && objective !in s.lastIntervention && CooldownIs(s, objective, cooldown)
    ensures exists more :: (
      ActsFrom(more, start) && CooldownAlong(s, more, objective, cooldown) && AuthTimes(s, more, objective) == [start])
  {
    hide Next, AuthorizedBy, CurrentAuthority, AuthorizeVerdict, Run, AuthTimes, CooldownAlong, CooldownIs;
    var o, u := Only(objective, cooldown), Next(s, OnlyPolicy(objective, cooldown));
    var a, b := OnlyPolicy(objective, cooldown), AuthorizeCall(Escalation(u, o), start);
    OnlySet(s, objective, cooldown);
    EscalationPasses(u, o, start);
    OnlyCooldown(u, o, b, start);
    TimesOfTwo(s, a, b, objective);
    PolicyAuthorizesNothing(s, a);
    CooldownOfTwo(s, a, b, objective, cooldown);
    assert ActsFrom([a, b], start);
  }

  lemma PolicyAuthorizesNothing(s: GovState, c: Call)
    requires c.SetPolicyCall?
    ensures AuthorizedBy(s, c).None?
  {
  }

  lemma OnlyCooldown(s: GovState, o: Objective, c: Call, start: int)
    requires s.pol.objectives == [o] && c.AuthorizeCall?
    ensures CooldownIs(s, o.id, o.coolDown) && CooldownIs(Next(s, c), o.id, o.coolDown)
  {
    hide AuthorizeVerdict;
    assert FindObjective([o], o.id) == Some(o);
  }

  /** The time of the last authorisation is not persisted: a governor that loads another one's
      file starts without a cooldown. With nothing asked for before the start, the cooldown is sure
      to hold across such a restart if and only if the start comes a cooldown after the last
      authorisation before it. */
  lemma CooldownAcrossRestartIff(
    s: GovState, calls: seq<Call>, loader: GovState, file: seq<bv8>, objective: nat, cooldown: int, start: int)
    requires objective !in s.lastIntervention && cooldown > 0 && CooldownAlong(s, calls, objective, cooldown)
    requires objective !in loader.lastIntervention && !loader.shuttingDown
    requires CooldownIs(LoadFile(loader, file).0, objective, cooldown)
    ensures var before, r := AuthTimes(s, calls, objective), LoadFile(loader, file).0;
      (forall more :: ActsFrom(more, start) && CooldownAlong(r, more, objective, cooldown) ==>
        Spaced(before + AuthTimes(r, more, objective), cooldown))
      <==> Rested(before, start, cooldown)
  {
    hide LoadFile, AuthTimes, CooldownAlong, Run, LastIs, ActsFrom;
    var before, r := AuthTimes(s, calls, objective), LoadFile(loader, file).0;
    LoadKeepsTimes(loader, file);
    AuthorizationsSpaced(s, calls, objective, cooldown);
    if Rested(before, start, cooldown) {
      forall more | ActsFrom(more, start) && CooldownAlong(r, more, objective, cooldown)
        ensures Spaced(before + AuthTimes(r, more, objective), cooldown) {
        SpacedAcross(before, r, more, objective, cooldown, start);
      }
    } else {
      GrantedAtOnce(r, objective, cooldown, start);
      var more :| ActsFrom(more, start) && CooldownAlong(r, more, objective, cooldown)
        && AuthTimes(r, more, objective) == [start];
      AuthorizationsSpaced(r, more, objective, cooldown);
      SpacedJoin(before, [start], cooldown);
    }
  }

  lemma SpacedAcross(before: seq<int>, r: GovState, more: seq<Call>, objective: nat, cooldown: int, start: int)
    requires Spaced(before, cooldown) && cooldown > 0 && Rested(before, start, cooldown)
    requires objective !in r.lastIntervention && CooldownAlong(r, more, objective, cooldown) && ActsFrom(more, start)
    ensures Spaced(before + AuthTimes(r, more, objective), cooldown)
  {
    hide AuthTimes, CooldownAlong, LastIs, Spaced, ActsFrom;
    AuthorizationsSpaced(r, more, objective, cooldown);
    TimesFrom(r, more, objective, start);
    SpacedJoin(before, AuthTimes(r, more, objective), cooldown);
  }

  /** Under that condition the pace stays bounded across the restart: no interval of length T
      holds more than T/C + 1 authorisations of both governors together. */
  lemma RateAcrossRestart(
    s: GovState, calls: seq<Call>, loader: GovState, file: seq<bv8>, more: seq<Call>, objective: nat, cooldown: int,
    start: int, from: int, length: nat)
    requires objective !in s.lastIntervention && cooldown > 0 && CooldownAlong(s, calls, objective, cooldown)
    requires objective !in loader.lastIntervention && ActsFrom(more, start)
    requires CooldownAlong(LoadFile(loader, file).0, more, objective, cooldown)
    requires Rested(AuthTimes(s, calls, objective), start, cooldown)
    ensures var all := AuthTimes(s, calls, objective) + AuthTimes(LoadFile(loader, file).0, more, objective);
      |Filter(Within(from, from + length), all)| <= length / cooldown + 1
  {
    hide LoadFile, AuthTimes, CooldownAlong, Run, LastIs, ActsFrom, Spaced, Within;
    LoadKeepsTimes(loader, file);
    AuthorizationsSpaced(s, calls, objective, cooldown);
    SpacedAcross(AuthTimes(s, calls, objective), LoadFile(loader, file).0, more, objective, cooldown, start);
    SpacedCount(AuthTimes(s, calls, objective) + AuthTimes(LoadFile(loader, file).0, more, objective), cooldown, from,
      length);
  }
}
