/** Any sequence of public calls on a governor object takes it where the state machine's run
    goes, so everything proved of runs holds of the object. */
module GovernorRuns {
  import opened Transitions
  import opened Governors

  method PerformLifecycle(g: TailGovernor, c: Call)
    requires g.Valid() && IsLifecycleCall(c)
    modifies g, g.windows.Values
    ensures g.Valid() && g.windows == old(g.windows) && g.State() == AfterLifecycle(old(g.State()), c)
  {
    hide Transitions.Authorize, Transitions.Dispatch, Transitions.Acknowledge, Transitions.RecordOutcome,
      Transitions.Cancel, Transitions.Supersede;
    match c
    case AuthorizeCall(prop, now) => var _ := g.Authorize(prop, now);
    case DispatchCall(id) => var _ := g.Dispatch(id);
    case AcknowledgeCall(id) => var _ := g.Acknowledge(id);
    case RecordOutcomeCall(id, outcome) => var _ := g.RecordOutcome(id, outcome);
    case CancelCall(id) => var _ := g.Cancel(id);
    case SupersedeCall(id) => var _ := g.Supersede(id);
  }

  method PerformEvidence(g: TailGovernor, c: Call)
    requires g.Valid() && IsEvidenceCall(c)
    modifies g, g.windows.Values
    ensures g.Valid() && fresh(g.windows.Values - old(g.windows.Values))
      && g.State() == AfterEvidence(old(g.State()), c)
  {
    hide Transitions.Ingest, Transitions.Evaluate, Transitions.EvaluateAll, Transitions.Decide;
    match c
    case IngestCall(ev) => var _ := g.Ingest(ev);
    case EvaluateCall(objective, now) => var _ := g.Evaluate(objective, now);
    case EvaluateAllCall(now) => var _ := g.EvaluateAll(now);
    case DecideCall(now) => var _ := g.Decide(now);
  }

  method PerformSettings(g: TailGovernor, c: Call)
    requires g.Valid() && !IsLifecycleCall(c) && !IsEvidenceCall(c)
    modifies g, g.windows.Values
    ensures g.Valid() && fresh(g.windows.Values - old(g.windows.Values))
      && g.State() == AfterSettings(old(g.State()), c)
  {
    hide Transitions.AdvanceEpoch, LoadFile, TailGovernor.Views, TailGovernor.Valid;
    match c
    case RegisterWorkerCall(worker, boot) => var _ := g.RegisterWorker(worker, boot);
    case UnregisterWorkerCall(worker) => var _ := g.UnregisterWorker(worker);
    case SetPolicyCall(policy) => g.SetPolicy(policy);
    case AdvanceEpochCall => g.AdvanceEpoch();
    case SetGenerationsCall(gens) => g.SetGenerations(gens);
    case SetFactsCall(facts) => g.SetResourceFacts(facts);
    case LoadCall(file) => var _ := g.Load(file);
    case ShutdownCall => g.BeginShutdown();
  }

  method Perform(g: TailGovernor, c: Call)
    requires g.Valid()
    modifies g, g.windows.Values
    ensures g.Valid() && fresh(g.windows.Values - old(g.windows.Values)) && g.State() == Next(old(g.State()), c)
  {
    hide AfterLifecycle, AfterEvidence, AfterSettings;
    if IsLifecycleCall(c) {
      PerformLifecycle(g, c);
    } else if IsEvidenceCall(c) {
      PerformEvidence(g, c);
    } else {
      PerformSettings(g, c);
    }
  }

  /** The object refines the state machine on every run. */
  method PerformAll(g: TailGovernor, calls: seq<Call>)
    requires g.Valid()
    modifies g, g.windows.Values
    ensures g.Valid() && fresh(g.windows.Values - old(g.windows.Values)) && g.State() == Run(old(g.State()), calls)
  {
    hide Next;
    ghost var s := g.State();
    for i := 0 to |calls|
      invariant g.Valid() && fresh(g.windows.Values - old(g.windows.Values))
      invariant g.State() == Run(s, calls[..i])
    {
      assert calls[..i + 1][..i] == calls[..i];
      Perform(g, calls[i]);
    }
    assert calls[..|calls|] == calls;
  }
}
