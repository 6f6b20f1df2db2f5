/** The calls on a single intervention, answer by answer and status by status, and what the outcome
    log says about the statuses in every run. */
module Lifecycle {
  import opened Domain
  import opened StateFiles
  import opened Transitions
  import opened Interventions

  // ---- the calls -------------------------------------------------------------------------------

  /** Nothing but the intervention's status changes. */
  ghost predicate OnlyStatus(s: GovState, t: GovState, id: int, status: InterventionStatus) {
    && id in s.interventions
    && t == s.(interventions := s.interventions[id := s.interventions[id].(status := status)])
  }

  /** Still under way. */
  predicate UnderWay(status: InterventionStatus) {
    status.Proposed? || status.Authorized? || status.Dispatched? || status.Acknowledged? || status.UnlistedStatus?
  }

  lemma TerminalIff(status: InterventionStatus)
    ensures IsTerminal(status) <==> !UnderWay(status)
  {
  }

  /** An acknowledgement is accepted exactly for a dispatched intervention. */
  lemma AcknowledgeIff(s: GovState, id: int)
    ensures var (t, status) := Acknowledge(s, id);
      if id in s.interventions && s.interventions[id].status.Dispatched?
      then status == Success && OnlyStatus(s, t, id, Acknowledged)
      else status == InvalidInput && t == s
  {
  }

  /** A cancellation ends an intervention that is proposed, authorised or dispatched, accepts one that
      has ended without touching it, and refuses one that is acknowledged, of an unlisted status or
      unknown. */
  lemma CancelIff(s: GovState, id: int)
    ensures var (t, status) := Cancel(s, id);
      if id !in s.interventions then status == InvalidInput && t == s
      else
        var before := s.interventions[id].status;
        if before.Proposed? || before.Authorized? || before.Dispatched?
        then status == Success && OnlyStatus(s, t, id, Cancelled)
        else t == s && status == if before.Acknowledged? || before.UnlistedStatus? then InvalidInput else Success
  {
  }

  /** A superseding call ends every intervention that is under way. */
  lemma SupersedeIff(s: GovState, id: int)
    ensures var (t, status) := Supersede(s, id);
      if id !in s.interventions then status == InvalidInput && t == s
      else
        && status == Success
        && (if UnderWay(s.interventions[id].status) then OnlyStatus(s, t, id, Superseded) else t == s)
  {
  }

  /** Recording an outcome for an intervention that is under way logs it and, if it is a listed one,
      leads to the status that it stands for; anything else is left alone. */
  lemma RecordOutcomeIff(s: GovState, id: int, outcome: PostOutcome)
    ensures var (t, r) := RecordOutcome(s, id, outcome);
      if id in s.interventions && UnderWay(s.interventions[id].status) then
        && r == outcome && t.outcomes == s.outcomes[id := outcome] && id in t.interventions
        && OnlyStatus(s, t.(outcomes := s.outcomes), id, t.interventions[id].status)
        && (if outcome.UnlistedOutcome? then t.interventions[id].status == s.interventions[id].status
            else Settles(outcome, t.interventions[id].status))
      else t == s && r == OutcomeUnknown
  {
    hide Settles, WithStatus, StatusAfter;
    if id in s.interventions && UnderWay(s.interventions[id].status) {
      var status := StatusAfter(outcome, s.interventions[id].status);
      StatusStandsFor(outcome, s.interventions[id].status);
      StatusWritten(s, id, status);
    }
  }

  lemma StatusWritten(s: GovState, id: int, status: InterventionStatus)
    requires id in s.interventions
    ensures OnlyStatus(s, WithStatus(s, id, status), id, status)
    ensures WithStatus(s, id, status).outcomes == s.outcomes
  {
  }

  // ---- the outcome log ---------------------------------------------------------------------------

  /** For every logged intervention, outcome and status say the same. */
  ghost predicate LogTellsStatus(s: GovState) {
    forall id :: id in s.outcomes ==>
      && id in s.interventions
      && var status, outcome := s.interventions[id].status, s.outcomes[id];
        && (status.Effective? <==> outcome.WasEffective?)
        && (status.Ineffective? <==> outcome.PartiallyEffective? || outcome.WasIneffective? || outcome.WorsenedTail?)
        && (status.Failed? <==> outcome.CreatedSecondaryViolation?)
        && (status.StatusUnknown? <==> outcome.InsufficientPostActionEvidence? || outcome.OutcomeUnknown?)
        && (status.Effective? || status.Ineffective? || status.Failed? || status.StatusUnknown?)
  }

  lemma SaneLog(s: GovState)
    requires Sane(s)
    ensures LogTellsStatus(s)
  {
  }

  /** In every run of proper calls on a new governor, loads included: an intervention that is logged is
      EFFECTIVE exactly if its outcome is, INEFFECTIVE exactly for a partial, a missing or a worsening
      effect, FAILED exactly for a secondary violation, and unknown exactly for an unknown outcome or
      too little evidence. */
  lemma LogInRuns(cfg: Config, epoch: nat, calls: seq<Call>)
    requires ProperAlong(InitialState(cfg, epoch), calls)
    ensures LogTellsStatus(Run(InitialState(cfg, epoch), calls))
  {
    hide Run, ProperAlong, Sane, LogTellsStatus, EpochsBounded;
    SaneFromStart(cfg, epoch, calls);
    SaneLog(Run(InitialState(cfg, epoch), calls));
  }

  /** ... and in every governor that loads what such a run saved, if the file keeps the ids below the
      next one, and on from there. */
  lemma LogAcrossRestart(cfg: Config, epoch: nat, calls: seq<Call>, restarted: GovState, more: seq<Call>)
    requires ProperAlong(InitialState(cfg, epoch), calls)
    requires var t := Run(InitialState(cfg, epoch), calls);
      && Representable(t.epoch, DurableOf(t)) && InstallsInterventions(t)
      && restarted.nextInt >= 1 && KeepsIdsBelow(restarted, t)
    requires ProperAlong(LoadFile(restarted, SaveFile(Run(InitialState(cfg, epoch), calls))).0, more)
    ensures LogTellsStatus(Run(LoadFile(restarted, SaveFile(Run(InitialState(cfg, epoch), calls))).0, more))
  {
    hide Run, ProperAlong, Sane, LogTellsStatus, EpochsBounded, LoadFile, SaveFile, Representable, KeepsIdsBelow,
      InstallsInterventions;
    var t := Run(InitialState(cfg, epoch), calls);
    SaneFromStart(cfg, epoch, calls);
    LoadSaneIff(restarted, t);
    SaneInRuns(LoadFile(restarted, SaveFile(t)).0, more);
    SaneLog(Run(LoadFile(restarted, SaveFile(t)).0, more));
  }
}
