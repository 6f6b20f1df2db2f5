/** Choosing an intervention for a tail cause. */
module Selection {
  import opened Basics
  import opened Domain
  import opened Codes
  import opened Attribution

  datatype Rejected = Rejected(kind: InterventionType, reason: Infeasibility)

  datatype Choice = Choice(
    selected: InterventionType, rejected: seq<Rejected>,
    hardConstraint: Option<Infeasibility>, expectedReduction: int)

  function InfeasibilityOf(t: InterventionType, f: Facts): Infeasibility {
    match t
    case PreemptLowerPriority =>
      if !f.preemptibleWork then NonPreemptible
      else if f.preemptionBudget <= 0.0 then ExceedsHardEconomy else Feasible
    case WarmResidency => WarmFeasibility(f)
    case PromoteWarmEngine => WarmFeasibility(f)
    case PinResidency =>
      if !f.engineAvailable then EngineUnavailable
      else if f.residencyBudget <= 0.0 then ExceedsHardEconomy else Feasible
    case ReserveCapacity =>
      if !f.capacityAvailable then CapacityUnavailable else Feasible
    case Failover =>
      if !f.failoverCandidate then NoFailoverCandidate
      else if f.failoverBudget <= 0.0 then ExceedsHardEconomy else Feasible
    case ChangePlacement =>
      if !f.targetCompatible then IncompatibleTarget else Feasible
    case ReduceBatchSize => BatchFeasibility(f)
    case SplitBatch => BatchFeasibility(f)
    case DisableBatchForClass => BatchFeasibility(f)
    case ShedLoad => SheddingFeasibility(f)
    case DeferLowPriority => SheddingFeasibility(f)
    case _ => Feasible
  }

  function WarmFeasibility(f: Facts): Infeasibility {
    if !f.warmEngineReady then EngineUnavailable
    else if f.residencyBudget <= 0.0 then ExceedsHardEconomy else Feasible
  }

  function BatchFeasibility(f: Facts): Infeasibility {
    if !f.batchAboveMin then BelowMinBatch
    else if f.batchBudget <= 0.0 then ExceedsHardEconomy else Feasible
  }

  function SheddingFeasibility(f: Facts): Infeasibility {
    if f.protectedTraffic then ProtectedTraffic
    else if f.sheddingBudget <= 0.0 then ExceedsHardEconomy else Feasible
  }

  /** The modelled effect factor, in tenths. */
  function EffectTenths(t: InterventionType): nat {
    match t
    case BoundQueueWait => 8
    case QueueShape => 7
    case LimitQueueDepth => 6
    case QueueReprioritize => 5
    case SplitBatch => 8
    case ReduceBatchSize => 6
    case DisableBatchForClass => 5
    case WarmResidency => 8
    case PinResidency => 5
    case PromoteWarmEngine => 7
    case ReserveCapacity => 7
    case ReserveBandwidth => 6
    case PreemptLowerPriority => 7
    case DeferLowPriority => 4
    case ShedLoad => 5
    case ReclaimMemory => 4
    case ChangePlacement => 6
    case AccelerateRecovery => 7
    case ReplanRecovery => 6
    case Failover => 8
    case Escalate => 3
    case ManualInterventionRequired => 2
    case _ => 0
  }

  function CandidatesForCause(c: TailCauseCategory): seq<InterventionType> {
    match c
    case Queueing => [BoundQueueWait, QueueShape, LimitQueueDepth, QueueReprioritize]
    case Batching => [SplitBatch, ReduceBatchSize, DisableBatchForClass]
    case ColdResidency => [WarmResidency, PinResidency, PromoteWarmEngine]
    case ModelOrStateLoad => [WarmResidency, PromoteWarmEngine, ChangePlacement]
    case TransferCause => [ReserveBandwidth, ChangePlacement, DeferLowPriority]
    case MemoryPressure => [ReclaimMemory, DeferLowPriority, ReserveCapacity]
    case ResourceContention => [ReserveCapacity, ChangePlacement, PromoteWarmEngine]
    case ExecutionVariance => [ChangePlacement, ReserveCapacity, WarmResidency]
    case Preemption => [PreemptLowerPriority]
    case Recovery => [AccelerateRecovery, ReplanRecovery, Failover]
    case RetryCause => [DeferLowPriority, ReserveCapacity, Escalate]
    case BackendStall => [ChangePlacement, AccelerateRecovery]
    case PublicationDelay => [Escalate, ManualInterventionRequired]
    case CapacityShortage => [ReserveCapacity, ShedLoad, DeferLowPriority]
    case PriorityInversion => [QueueReprioritize, DeferLowPriority, PreemptLowerPriority]
    case UnknownCause => []
    case UnlistedCause(_) => []
  }

  function DominantCause(causes: seq<TailCause>): TailCauseCategory {
    if causes == [] then UnknownCause
    else if causes[0].attribution.DominantContributor? then causes[0].category
    else DominantCause(causes[1..])
  }

  /** Ranked strictly before: larger effect, then smaller type. */
  predicate RanksBefore(a: InterventionType, b: InterventionType, excess: nat) {
    || EffectTenths(a) * excess > EffectTenths(b) * excess
    || (EffectTenths(a) * excess == EffectTenths(b) * excess && TypeCode(a) < TypeCode(b))
  }

  function IsFeasible(f: Facts): InterventionType -> bool {
    (t: InterventionType) => InfeasibilityOf(t, f) == Feasible
  }

  function IsInfeasible(f: Facts): InterventionType -> bool {
    (t: InterventionType) => InfeasibilityOf(t, f) != Feasible
  }

  function Reject(types: seq<InterventionType>, f: Facts): (r: seq<Rejected>)
    ensures |r| == |types|
    ensures forall i :: 0 <= i < |r| ==> r[i] == Rejected(types[i], InfeasibilityOf(types[i], f))
  {
    seq(|types|, i requires 0 <= i < |types| => Rejected(types[i], InfeasibilityOf(types[i], f)))
  }

  function Types(rejected: seq<Rejected>): (r: seq<InterventionType>)
    ensures |r| == |rejected| && forall i :: 0 <= i < |r| ==> r[i] == rejected[i].kind
  {
    seq(|rejected|, i requires 0 <= i < |rejected| => rejected[i].kind)
  }

  predicate IsHardConstraint(r: Infeasibility) {
    r.ViolatesHardSlo? || r.ExceedsHardEconomy? || r.ProtectedTraffic? || r.NonPreemptible? ||
    r.EngineUnavailable? || r.CapacityUnavailable? || r.NoFailoverCandidate?
  }

  function FirstHardConstraint(rejected: seq<Rejected>): Option<Infeasibility> {
    if rejected == [] then None
    else
      var before, last := FirstHardConstraint(rejected[..|rejected| - 1]), rejected[|rejected| - 1];
      if before.Some? then before else if IsHardConstraint(last.reason) then Some(last.reason) else None
  }

  function InsertRanked(x: InterventionType, l: seq<InterventionType>, excess: nat): seq<InterventionType> {
    if l == [] || !RanksBefore(l[0], x, excess) then [x] + l
    else [l[0]] + InsertRanked(x, l[1..], excess)
  }

  function Ranked(s: seq<InterventionType>, excess: nat): seq<InterventionType> {
    if s == [] then [] else InsertRanked(s[0], Ranked(s[1..], excess), excess)
  }

  function Excess(observed: int, recovered: int): nat {
    if observed - recovered < 0 then 0 else observed - recovered
  }

  function Choose(candidates: seq<InterventionType>, f: Facts, excess: nat): Choice {
    var infeasible := Reject(Filter(IsInfeasible(f), candidates), f);
    var ranked := Ranked(Filter(IsFeasible(f), candidates), excess);
    var hard := FirstHardConstraint(infeasible);
    if ranked == [] then Choice(NoAction, infeasible, hard, 0)
    else Choice(ranked[0], infeasible + Reject(ranked[1..], f), hard, EffectTenths(ranked[0]) * excess / 10)
  }

  function Select(causes: seq<TailCause>, observed: int, recovered: int, f: Facts): Choice {
    Choose(CandidatesForCause(DominantCause(causes)), f, Excess(observed, recovered))
  }

  // ---- what the choice means -------------------------------------------------------

  lemma {:induction false} InsertRankedMembers(x: InterventionType, l: seq<InterventionType>, excess: nat)
    ensures multiset(InsertRanked(x, l, excess)) == multiset(l) + multiset{x}
    ensures forall y :: y in InsertRanked(x, l, excess) <==> y == x || y in l
  {
    if l == [] || !RanksBefore(l[0], x, excess) {
    } else {
      InsertRankedMembers(x, l[1..], excess);
      assert l == [l[0]] + l[1..];
    }
  }

  lemma {:induction false} RankedMembers(s: seq<InterventionType>, excess: nat)
    ensures multiset(Ranked(s, excess)) == multiset(s) && |Ranked(s, excess)| == |s|
    ensures forall y :: y in Ranked(s, excess) <==> y in s
  {
    if s != [] {
      RankedMembers(s[1..], excess);
      InsertRankedMembers(s[0], Ranked(s[1..], excess), excess);
      assert s == [s[0]] + s[1..];
      assert |multiset(Ranked(s, excess))| == |multiset(s)|;
    }
  }

  /** The head of the ranking is beaten by nothing. */
  lemma {:induction false} RankedHead(s: seq<InterventionType>, excess: nat)
    ensures |Ranked(s, excess)| == |s|
    ensures forall y :: y in s ==> !RanksBefore(y, Ranked(s, excess)[0], excess)
  {
    RankedMembers(s, excess);
    if s != [] {
      var tail := Ranked(s[1..], excess);
      RankedHead(s[1..], excess);
      RankedMembers(s[1..], excess);
      var head := Ranked(s, excess)[0];
      forall y | y in s ensures !RanksBefore(y, head, excess) {
        assert y == s[0] || y in s[1..];
      }
    }
  }

  lemma {:induction false} FeasibilitySplits(s: seq<InterventionType>, f: Facts)
    ensures multiset(Filter(IsFeasible(f), s)) + multiset(Filter(IsInfeasible(f), s)) == multiset(s)
  {
    hide InfeasibilityOf;
    if s != [] {
      FeasibilitySplits(s[1..], f);
      assert s == [s[0]] + s[1..];
    }
  }

  lemma RejectedParts(a: seq<InterventionType>, b: seq<InterventionType>, f: Facts)
    ensures Types(Reject(a, f) + Reject(b, f)) == a + b
    ensures forall r :: r in Reject(a, f) + Reject(b, f) ==> r.reason == InfeasibilityOf(r.kind, f)
  {
  }

  lemma HeadAndRest(s: seq<InterventionType>)
    requires s != []
    ensures multiset(s) == multiset{s[0]} + multiset(s[1..])
  {
    assert s == [s[0]] + s[1..];
  }

  lemma ChoiceSplits(candidates: seq<InterventionType>, f: Facts, excess: nat)
    ensures var c := Choose(candidates, f, excess);
      && (forall r :: r in c.rejected ==> r.reason == InfeasibilityOf(r.kind, f))
      && multiset(Types(c.rejected))
         + (if Filter(IsFeasible(f), candidates) == [] then multiset{} else multiset{c.selected})
         == multiset(candidates)
  {
    hide InfeasibilityOf, RanksBefore;
    var good, bad := Filter(IsFeasible(f), candidates), Filter(IsInfeasible(f), candidates);
    var ranked := Ranked(good, excess);
    FeasibilitySplits(candidates, f);
    RankedMembers(good, excess);
    if ranked == [] {
      RejectedParts(bad, [], f);
      assert Reject(bad, f) + Reject([], f) == Reject(bad, f) && bad + [] == bad;
    } else {
      RejectedParts(bad, ranked[1..], f);
      HeadAndRest(ranked);
    }
  }

  lemma ChoiceIsBest(candidates: seq<InterventionType>, f: Facts, excess: nat)
    requires NoAction !in candidates
    ensures var c := Choose(candidates, f, excess).selected;
      && (Filter(IsFeasible(f), candidates) == [] ==> c == NoAction)
      && (Filter(IsFeasible(f), candidates) != [] ==>
            && c in candidates && c != NoAction && InfeasibilityOf(c, f) == Feasible
            && forall t :: t in candidates && InfeasibilityOf(t, f) == Feasible ==> !RanksBefore(t, c, excess))
  {
    var good := Filter(IsFeasible(f), candidates);
    FilterMembers(IsFeasible(f), candidates);
    RankedMembers(good, excess);
    RankedHead(good, excess);
    if good != [] {
      assert Ranked(good, excess)[0] in good;
      forall t | t in candidates && InfeasibilityOf(t, f) == Feasible
        ensures !RanksBefore(t, Ranked(good, excess)[0], excess) {
        assert IsFeasible(f)(t) && t in good;
      }
    }
  }

  /** The candidates split exactly into the selected one and the rejected ones, each
      rejected one with its own reason; the selected one is the feasible maximum by effect
      and then by smallest type, and NO_ACTION means that no candidate is feasible. */
  lemma SelectionIsOptimal(candidates: seq<InterventionType>, f: Facts, excess: nat)
    requires NoAction !in candidates
    ensures var c := Choose(candidates, f, excess);
      && (forall r :: r in c.rejected ==> r.reason == InfeasibilityOf(r.kind, f))
      && (c.selected == NoAction <==> forall t :: t in candidates ==> InfeasibilityOf(t, f) != Feasible)
      && (c.selected == NoAction ==> multiset(Types(c.rejected)) == multiset(candidates))
      && (c.selected != NoAction ==>
            && multiset(Types(c.rejected)) + multiset{c.selected} == multiset(candidates)
            && c.selected in candidates && InfeasibilityOf(c.selected, f) == Feasible
            && forall t :: t in candidates && InfeasibilityOf(t, f) == Feasible ==> !RanksBefore(t, c.selected, excess))
  {
    ChoiceSplits(candidates, f, excess);
    ChoiceIsBest(candidates, f, excess);
    FilterMembers(IsFeasible(f), candidates);
    if Filter(IsFeasible(f), candidates) == [] {
      forall t | t in candidates ensures InfeasibilityOf(t, f) != Feasible {
        assert IsFeasible(f)(t) ==> t in Filter(IsFeasible(f), candidates);
      }
    }
  }

  lemma RanksTotal(a: InterventionType, b: InterventionType, excess: nat)
    ensures a == b || RanksBefore(a, b, excess) || RanksBefore(b, a, excess)
  {
    TypeCodes(a, 0);
    TypeCodes(b, 0);
  }

  /** The selected intervention does not depend on the order of the candidates. */
  lemma SelectionIgnoresOrder(c: seq<InterventionType>, d: seq<InterventionType>, f: Facts, excess: nat)
    requires NoAction !in c && multiset(c) == multiset(d)
    ensures Choose(c, f, excess).selected == Choose(d, f, excess).selected
  {
    forall t ensures t in c <==> t in d {
      assert t in multiset(c) <==> t in multiset(d);
    }
    SelectionIsOptimal(c, f, excess);
    SelectionIsOptimal(d, f, excess);
    RanksTotal(Choose(c, f, excess).selected, Choose(d, f, excess).selected, excess);
  }

  lemma CandidatesAct(c: TailCauseCategory)
    ensures NoAction !in CandidatesForCause(c)
    ensures |CandidatesForCause(c)| <= 4
  {
  }

  // ---- the procedure ---------------------------------------------------------------

  method FindDominantCause(causes: seq<TailCause>) returns (cause: TailCauseCategory)
    ensures cause == DominantCause(causes)
  {
    cause := UnknownCause;
    for k := 0 to |causes|
      invariant DominantCause(causes) == DominantCause(causes[k..])
    {
      if causes[k].attribution.DominantContributor? {
        return causes[k].category;
      }
    }
  }

  lemma ScreenStep(s: seq<InterventionType>, t: InterventionType, f: Facts)
    ensures InfeasibilityOf(t, f) == Feasible ==>
      && Filter(IsFeasible(f), s + [t]) == Filter(IsFeasible(f), s) + [t]
      && Filter(IsInfeasible(f), s + [t]) == Filter(IsInfeasible(f), s)
    ensures InfeasibilityOf(t, f) != Feasible ==>
      && Filter(IsFeasible(f), s + [t]) == Filter(IsFeasible(f), s)
      && Reject(Filter(IsInfeasible(f), s + [t]), f)
         == Reject(Filter(IsInfeasible(f), s), f) + [Rejected(t, InfeasibilityOf(t, f))]
  {
    FilterAppend(IsFeasible(f), s, [t]);
    FilterAppend(IsInfeasible(f), s, [t]);
    assert Filter(IsFeasible(f), [t]) == if IsFeasible(f)(t) then [t] else [];
    assert Filter(IsInfeasible(f), [t]) == if IsInfeasible(f)(t) then [t] else [];
  }

  method Screen(candidates: seq<InterventionType>, facts: Facts)
    returns (feasible: seq<InterventionType>, rejected: seq<Rejected>, hard: Option<Infeasibility>)
    ensures feasible == Filter(IsFeasible(facts), candidates)
    ensures rejected == Reject(Filter(IsInfeasible(facts), candidates), facts)
    ensures hard == FirstHardConstraint(rejected)
  {
    hide InfeasibilityOf, IsHardConstraint;
    feasible, rejected, hard := [], [], None;
    for i := 0 to |candidates|
      invariant feasible == Filter(IsFeasible(facts), candidates[..i])
      invariant rejected == Reject(Filter(IsInfeasible(facts), candidates[..i]), facts)
      invariant hard == FirstHardConstraint(rejected)
    {
      var t := candidates[i];
      var reason := InfeasibilityOf(t, facts);
      assert candidates[..i + 1] == candidates[..i] + [t];
      ScreenStep(candidates[..i], t, facts);
      if reason != Feasible {
        ghost var before := rejected;
        rejected := rejected + [Rejected(t, reason)];
        assert rejected[..|rejected| - 1] == before;
        if hard.None? && IsHardConstraint(reason) {
          hard := Some(reason);
        }
      } else {
        feasible := feasible + [t];
      }
    }
    assert candidates[..|candidates|] == candidates;
  }

  method RejectRest(ranked: seq<InterventionType>, ghost facts: Facts) returns (rejected: seq<Rejected>)
    requires ranked != []
    requires forall i :: 0 <= i < |ranked| ==> InfeasibilityOf(ranked[i], facts) == Feasible
    ensures rejected == Reject(ranked[1..], facts)
  {
    rejected := [];
    for i := 1 to |ranked|
      invariant rejected == Reject(ranked[1..i], facts)
    {
      rejected := rejected + [Rejected(ranked[i], Feasible)];
    }
    assert ranked[1..|ranked|] == ranked[1..];
  }

  lemma RankedFeasible(candidates: seq<InterventionType>, ranked: seq<InterventionType>, facts: Facts, excess: nat)
    requires ranked == Ranked(Filter(IsFeasible(facts), candidates), excess)
    ensures forall i :: 0 <= i < |ranked| ==> InfeasibilityOf(ranked[i], facts) == Feasible
  {
    hide Ranked, Filter, InfeasibilityOf;
    var feasible := Filter(IsFeasible(facts), candidates);
    RankedMembers(feasible, excess);
    FilterMembers(IsFeasible(facts), candidates);
    forall i | 0 <= i < |ranked| ensures InfeasibilityOf(ranked[i], facts) == Feasible {
      assert ranked[i] in ranked;
    }
  }

  method SelectIntervention(causes: seq<TailCause>, observed: int, recovered: int, facts: Facts)
    returns (choice: Choice)
    ensures choice == Select(causes, observed, recovered, facts)
  {
    hide Ranked, Filter, InfeasibilityOf, EffectTenths, CandidatesForCause, DominantCause, Reject, FirstHardConstraint;
    var cause := FindDominantCause(causes);
    var candidates := CandidatesForCause(cause);
    var excess: nat := if observed - recovered < 0 then 0 else observed - recovered;
    var feasible, rejected, hard := Screen(candidates, facts);
    var ranked := Ranked(feasible, excess);
    if |ranked| > 0 {
      RankedFeasible(candidates, ranked, facts, excess);
      var rest := RejectRest(ranked, facts);
      choice := Choice(ranked[0], rejected + rest, hard, EffectTenths(ranked[0]) * excess / 10);
    } else {
      choice := Choice(NoAction, rejected, hard, 0);
    }
  }
}
