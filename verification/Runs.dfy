// Runs of the control plane: reconciles interleaved with whatever the cluster and its users do.
module Runs {
  import opened Options
  import opened ControlPlane
  import opened ControlPlaneSteps
  import opened RolloutVerdict
  import Remediation

  datatype Step = Sync | Observe | Act(e: Effect, now: int) | UpdateStatus | Environment

  /** What happens outside the controller, while time passes. Users may edit the spec and mark machines for
      deletion; machines get nodes and fall ill; the objects behind them change; hooks are dropped; and
      machines that are being deleted go away. */
  predicate Outside(s: State, s': State) {
    && s.now <= s'.now
    && s'.kcp == s.kcp.(replicas := s'.kcp.replicas, strategy := s'.kcp.strategy, spec := s'.kcp.spec)
    && s'.machines.Keys <= s.machines.Keys
    && (forall n | n in s.machines && n !in s'.machines :: s.machines[n].deleting)
    && (forall n | n in s'.machines :: LeftByOthers(s.machines[n], s'.machines[n]))
  }

  /** What nobody but the controller changes. */
  predicate LeftByOthers(m: Machine, m': Machine) {
    && m'.created == m.created && m'.failureDomain == m.failureDomain && m'.deleting == m.deleting
    && m'.agentHealthy == m.agentHealthy && m'.etcdHealthy == m.etcdHealthy
    && m'.remediationFor == m.remediationFor && (m'.hook ==> m.hook)
  }

  ghost predicate Next(s: State, step: Step, s': State) {
    match step
    case Sync => Synced(s, s')
    case Observe => Observed(s, s')
    case Act(e, now) => Acted(s, e, now, s')
    case UpdateStatus => StatusUpdated(s, s')
    case Environment => Outside(s, s')
  }

  ghost predicate NextAt(run: seq<State>, steps: seq<Step>, i: nat)
    requires |run| == |steps| + 1 && i < |steps|
  {
    Next(run[i], steps[i], run[i + 1])
  }

  ghost predicate IsRun(run: seq<State>, steps: seq<Step>) {
    |run| == |steps| + 1 && forall i | 0 <= i < |steps| :: NextAt(run, steps, i)
  }

  // ---- run invariants --------------------------------------------------------------------------------------

  ghost predicate AtMostOne(names: set<string>) { forall m, n | m in names && n in names :: m == n }

  predicate NoConditions(m: Machine) { m.agentHealthy == CondMissing && m.etcdHealthy == CondMissing }

  /** At most one machine is being deleted, and an uninitialised control plane has at most one machine,
      of which no condition is known. */
  ghost predicate Safe(s: State) {
    && AtMostOne(Deleting(s.machines))
    && (!s.kcp.initialized ==> AtMostOne(s.machines.Keys) && forall n | n in s.machines :: NoConditions(s.machines[n]))
  }

  lemma SafeStep(s: State, step: Step, s': State)
    requires Safe(s) && Next(s, step, s')
    ensures Safe(s')
  {
    match step
    case Sync =>
      assert Deleting(s'.machines) == Deleting(s.machines);
    case Observe =>
      assert Deleting(s'.machines) == Deleting(s.machines);
    case UpdateStatus =>
    case Environment =>
      assert Deleting(s'.machines) <= Deleting(s.machines);
    case Act(e, now) => SafeAct(s, e, now, s');
  }

  lemma SafeAct(s: State, e: Effect, now: int, s': State)
    requires Safe(s) && Acted(s, e, now, s')
    ensures Safe(s')
  {
    match e
    case Nothing =>
    case Leftover =>
    case Hooked(name) =>
      assert Deleting(s'.machines) == Deleting(s.machines);
    case Grown(name) =>
      assert Deleting(s'.machines) == Deleting(s.machines);
      assert !s.kcp.initialized ==> s.machines == map[];
    case Shrunk(name) =>
      assert Deleting(s'.machines) == {name};
    case Remediated(name, data) =>
      assert Deleting(s'.machines) <= Deleting(s.machines) + {name};
      assert !s.kcp.initialized ==> s.machines.Keys == {name};
  }

  lemma {:induction false} AlwaysSafe(run: seq<State>, steps: seq<Step>, i: nat)
    requires IsRun(run, steps) && i < |run|
    requires run[0].machines == map[]
    ensures |Deleting(run[i].machines)| <= 1
    ensures !run[i].kcp.initialized ==> |run[i].machines| <= 1
    ensures Safe(run[i])
  {
    if i > 0 {
      AlwaysSafe(run, steps, i - 1);
      assert NextAt(run, steps, i - 1);
      SafeStep(run[i - 1], steps[i - 1], run[i]);
    }
    AtMostOneSize(Deleting(run[i].machines));
    if !run[i].kcp.initialized {
      AtMostOneSize(run[i].machines.Keys);
    }
  }

  lemma AtMostOneSize(names: set<string>)
    requires AtMostOne(names)
    ensures |names| <= 1
  {
    if names != {} {
      var n :| n in names;
      assert names == {n};
    }
  }

  /** Surge: while replicas stay fixed there is never more than one machine above them, except those
      there were at the start. */
  lemma {:induction false} Surge(run: seq<State>, steps: seq<Step>, i: nat)
    requires IsRun(run, steps) && i < |run|
    requires forall j | 0 <= j < |run| :: run[j].kcp.replicas == run[0].kcp.replicas
    ensures |run[i].machines| <= Remediation.Max(|run[0].machines|, run[0].kcp.replicas + 1)
  {
    if i > 0 {
      Surge(run, steps, i - 1);
      assert NextAt(run, steps, i - 1);
      var s, s' := run[i - 1], run[i];
      if steps[i - 1] == Environment {
        SubsetSize(s'.machines.Keys, s.machines.Keys);
      } else if steps[i - 1].Act? && steps[i - 1].e.Grown? {
        assert s'.machines.Keys == s.machines.Keys + {steps[i - 1].e.name};
      } else {
        assert s'.machines.Keys == s.machines.Keys;
      }
      assert |s'.machines| == |s'.machines.Keys| && |s.machines| == |s.machines.Keys|;
    }
  }

  lemma {:induction false} SubsetSize(a: set<string>, b: set<string>)
    requires a <= b
    ensures |a| <= |b|
  {
    if a != {} {
      var x :| x in a;
      SubsetSize(a - {x}, b - {x});
    }
  }

  /** An initialised control plane with a live machine never loses its last one, as long as it is to have
      any. */
  lemma {:induction false} OneAlwaysRemains(run: seq<State>, steps: seq<Step>, i: nat)
    requires IsRun(run, steps) && i < |run|
    requires run[0].kcp.initialized && Active(run[0].machines) != {}
    requires forall j | 0 <= j < |run| :: run[j].kcp.replicas >= 1
    ensures run[i].kcp.initialized && Active(run[i].machines) != {}
  {
    if i > 0 {
      OneAlwaysRemains(run, steps, i - 1);
      assert NextAt(run, steps, i - 1);
      ActiveRemains(run[i - 1], steps[i - 1], run[i]);
    }
  }

  lemma ActiveRemains(s: State, step: Step, s': State)
    requires Next(s, step, s') && s.kcp.initialized && Active(s.machines) != {} && s.kcp.replicas >= 1
    ensures s'.kcp.initialized && Active(s'.machines) != {}
  {
    var n :| n in Active(s.machines);
    if step.Act? && (step.e.Shrunk? || step.e.Remediated?) {
      assert |s.machines.Keys| == |s.machines| > 1;
      assert Deleting(s.machines) == {};
      var other := Another(s.machines.Keys, step.e.name);
      assert other !in Deleting(s.machines);
      assert other in Active(s'.machines);
    } else {
      assert n in Active(s'.machines);
    }
  }

  lemma Another(names: set<string>, n: string) returns (other: string)
    requires |names| > 1
    ensures other in names && other != n
  {
    if names <= {n} {
      SubsetSize(names, {n});
    }
    other :| other in names && other != n;
  }

  // ---- rollout and scaling come to an end ------------------------------------------------------------------

  /** Live machines that are outdated or marked for deletion. */
  function Unwanted(s: State): set<string> {
    set n | n in s.machines && !s.machines[n].deleting && (n in NeedingRollout(s) || s.machines[n].deleteAnnotated)
  }

  /** The number of live machines to reach first: one more than replicas while a rollout lasts. */
  function Target(s: State): nat { s.kcp.replicas + if NeedingRollout(s) != {} then 1 else 0 }

  function Distance(x: nat, y: nat): nat { if x < y then y - x else x - y }

  /** What is left to do. */
  function Rank(s: State): nat {
    4 * |Unwanted(s)| + 2 * Distance(|Active(s.machines)|, Target(s)) + |Deleting(s.machines)|
  }

  /** Exactly the replicas asked for, none of them outdated or going away. */
  ghost predicate Done(s: State) {
    |s.machines| == s.kcp.replicas && NeedingRollout(s) == {} && Deleting(s.machines) == {}
  }

  /** Deletions have completed and every machine is known to be healthy. */
  ghost predicate AllWell(s: State) { s.machines == map[] || Stable(s, {}) }

  /** A spec under which rollouts end: it names a version, unless no machine is wanted at all, and its
      template neither marks machines for deletion nor changes what their objects were cloned from. */
  predicate Orderly(kcp: Kcp) {
    && (kcp.spec.version != "" || kcp.replicas == 0)
    && KeepsOrigin(kcp.spec.template) && !kcp.spec.template.deleteMachine
  }

  /** A step of a run in which the spec stays as it is, nobody but the controllers changes the objects
      behind machines, no machine falls ill, and reconciles do what the state calls for. */
  ghost predicate SteadyNext(s: State, step: Step, s': State) {
    && Next(s, step, s')
    && Orderly(s.kcp) && Unhealthy(s.machines) == {}
    && (step.Act? ==> Decided(s, step.e))
    && (step.Environment? ==>
          && s'.kcp == s.kcp
          && forall n | n in s'.machines ::
               && Maintained(s.machines[n], s.kcp.spec.template, s'.machines[n])
               && s'.machines[n].deleteAnnotated == s.machines[n].deleteAnnotated)
  }

  /** ... and the rollout deadline does not pass. */
  ghost predicate CalmNext(s: State, step: Step, s': State) { SteadyNext(s, step, s') && !DeadlinePasses(s, s') }

  predicate DeadlinePasses(s: State, s': State) { !NoDeadlinePasses(s.kcp.spec, s.now, s'.now) }

  ghost predicate CalmAt(run: seq<State>, steps: seq<Step>, i: nat)
    requires |run| == |steps| + 1 && i < |steps|
  {
    CalmNext(run[i], steps[i], run[i + 1])
  }

  ghost predicate SteadyAt(run: seq<State>, steps: seq<Step>, i: nat)
    requires |run| == |steps| + 1 && i < |steps|
  {
    SteadyNext(run[i], steps[i], run[i + 1])
  }

  ghost predicate IsSteadyRun(run: seq<State>, steps: seq<Step>) {
    |run| == |steps| + 1 && forall i | 0 <= i < |steps| :: SteadyAt(run, steps, i)
  }

  ghost predicate IsCalmRun(run: seq<State>, steps: seq<Step>) {
    |run| == |steps| + 1 && forall i | 0 <= i < |steps| :: CalmAt(run, steps, i)
  }

  /** A machine was created, deleted, or has gone. */
  predicate Effective(s: State, step: Step, s': State) {
    (step.Act? && (step.e.Grown? || step.e.Shrunk?)) || s'.machines.Keys != s.machines.Keys
  }

  lemma RankFalls(s: State, step: Step, s': State)
    requires CalmNext(s, step, s')
    ensures Rank(s') <= Rank(s)
    ensures Effective(s, step, s') ==> Rank(s') < Rank(s)
  {
    if step.Act? && step.e.Grown? {
      RankOfGrown(s, step.e.name, s');
    } else if step.Act? && step.e.Shrunk? {
      RankOfShrunk(s, step.e.name, s');
    } else {
      SameSelectors(s, step, s');
      FewerDeleting(s, s');
    }
  }

  lemma FewerDeleting(s: State, s': State)
    requires Deleting(s'.machines) <= Deleting(s.machines) && s'.machines.Keys <= s.machines.Keys
    requires forall n | n in s.machines.Keys - s'.machines.Keys ::
              n in Deleting(s.machines) && n !in Deleting(s'.machines)
    ensures |Deleting(s'.machines)| <= |Deleting(s.machines)|
    ensures s'.machines.Keys != s.machines.Keys ==> |Deleting(s'.machines)| < |Deleting(s.machines)|
  {
    SubsetSize(Deleting(s'.machines), Deleting(s.machines));
    var gone := s.machines.Keys - s'.machines.Keys;
    assert s'.machines.Keys == s.machines.Keys - gone;
    if gone != {} {
      var n :| n in gone;
      SubsetSize(Deleting(s'.machines), Deleting(s.machines) - {n});
    }
  }

  lemma SameSelectors(s: State, step: Step, s': State)
    requires CalmNext(s, step, s') && !(step.Act? && (step.e.Grown? || step.e.Shrunk?))
    ensures Unwanted(s') == Unwanted(s) && Active(s'.machines) == Active(s.machines)
    ensures NeedingRollout(s') == NeedingRollout(s)
    ensures Deleting(s'.machines) <= Deleting(s.machines) && s'.kcp.replicas == s.kcp.replicas
    ensures s'.machines.Keys <= s.machines.Keys
    ensures forall n | n in s.machines.Keys - s'.machines.Keys ::
              n in Deleting(s.machines) && n !in Deleting(s'.machines)
  {
    if step.Act? && step.e.Remediated? {
      assert false;
    }
    forall n | n in s'.machines ensures SameMachine(s, s', n) {
      SameVerdict(s, step, s', n);
    }
    assert forall n | n in s.machines && n !in s'.machines :: s.machines[n].deleting;
    FewerMachines(s, s');
  }

  predicate SameMachine(s: State, s': State, n: string)
    requires n in s'.machines
  {
    && n in s.machines && s'.machines[n].deleting == s.machines[n].deleting
    && s'.machines[n].deleteAnnotated == s.machines[n].deleteAnnotated
    && (Outdated(s'.machines[n], s'.kcp.spec, s'.now) <==> Outdated(s.machines[n], s.kcp.spec, s.now))
  }

  lemma FewerMachines(s: State, s': State)
    requires forall n | n in s'.machines :: SameMachine(s, s', n)
    requires forall n | n in s.machines && n !in s'.machines :: s.machines[n].deleting
    ensures Unwanted(s') == Unwanted(s) && Active(s'.machines) == Active(s.machines)
             && NeedingRollout(s') == NeedingRollout(s)
    ensures Deleting(s'.machines) <= Deleting(s.machines) && s'.machines.Keys <= s.machines.Keys
  {
  }

  lemma SameVerdict(s: State, step: Step, s': State, n: string)
    requires CalmNext(s, step, s') && !(step.Act? && (step.e.Grown? || step.e.Shrunk? || step.e.Remediated?))
             && n in s'.machines
    ensures SameMachine(s, s', n)
  {
  }

  lemma RankOfGrown(s: State, name: string, s': State)
    requires MayGrow(s) && Creates(s, name, s') && Orderly(s.kcp)
    ensures Rank(s') < Rank(s)
  {
    GrownSelectors(s, name, s');
    OneCloser(s, name, s');
  }

  lemma OneCloser(s: State, name: string, s': State)
    requires Unwanted(s') == Unwanted(s) && NeedingRollout(s') == NeedingRollout(s)
    requires Deleting(s'.machines) == Deleting(s.machines) && s'.kcp.replicas == s.kcp.replicas
    requires name !in Active(s.machines) && Active(s'.machines) == Active(s.machines) + {name}
    requires |Active(s.machines)| < Target(s)
    ensures Rank(s') < Rank(s)
  {
    assert |Active(s'.machines)| == |Active(s.machines)| + 1;
  }

  /** The new machine is not outdated, because it is created from the spec, which names a version. */
  lemma GrownSelectors(s: State, name: string, s': State)
    requires MayGrow(s) && Creates(s, name, s') && Orderly(s.kcp)
    ensures Unwanted(s') == Unwanted(s) && NeedingRollout(s') == NeedingRollout(s)
    ensures Deleting(s'.machines) == Deleting(s.machines)
    ensures name !in Active(s.machines) && Active(s'.machines) == Active(s.machines) + {name}
    ensures |Active(s.machines)| < Target(s) && s'.kcp.replicas == s.kcp.replicas
  {
    GrowthIsWanted(s);
    FreshMachine(s'.machines[name], s);
    SameVerdicts(s, s', name);
  }

  lemma GrowthIsWanted(s: State)
    requires MayGrow(s)
    ensures s.kcp.replicas > 0 && Deleting(s.machines) == {} && Active(s.machines) == s.machines.Keys
    ensures |Active(s.machines)| == |s.machines|
  {
    if NeedingRollout(s) != {} {
      var n :| n in NeedingRollout(s);
      assert n in s.machines.Keys;
    }
    assert forall n | n in s.machines :: n !in Deleting(s.machines);
    assert Active(s.machines) == s.machines.Keys;
    assert |s.machines| == |s.machines.Keys|;
  }

  lemma SameVerdicts(s: State, s': State, name: string)
    requires name !in s.machines && name in s'.machines && s'.machines == s.machines[name := s'.machines[name]]
    requires s'.kcp.spec == s.kcp.spec && s'.now == s.now
    requires !s'.machines[name].deleting && !s'.machines[name].deleteAnnotated
    requires !Outdated(s'.machines[name], s'.kcp.spec, s'.now)
    ensures NeedingRollout(s') == NeedingRollout(s) && Unwanted(s') == Unwanted(s)
    ensures Deleting(s'.machines) == Deleting(s.machines) && Active(s'.machines) == Active(s.machines) + {name}
  {
  }

  lemma RankOfShrunk(s: State, name: string, s': State)
    requires name in s.machines && Acted(s, Shrunk(name), 0, s')
    ensures Rank(s') < Rank(s)
  {
    ShrunkSelectors(s, name, s');
    assert |Active(s'.machines)| == |Active(s.machines)| - 1;
    assert name in Unwanted(s) ==> |Unwanted(s')| == |Unwanted(s)| - 1;
  }

  lemma ShrunkSelectors(s: State, name: string, s': State)
    requires name in s.machines && Acted(s, Shrunk(name), 0, s')
    ensures Unwanted(s') == Unwanted(s) - {name}
    ensures NeedingRollout(s') == NeedingRollout(s) - {name}
    ensures Deleting(s.machines) == {} && Deleting(s'.machines) == {name}
    ensures name in Active(s.machines) && Active(s'.machines) == Active(s.machines) - {name}
    ensures |Active(s.machines)| == |s.machines| > s.kcp.replicas == s'.kcp.replicas
    ensures name !in Unwanted(s) ==> NeedingRollout(s) == {}
  {
    var ms, ms' := s.machines, s'.machines;
    assert name !in Deleting(ms);
    forall n | n in ms ensures n !in Deleting(ms) {
    }
    assert Active(ms) == ms.Keys;
    assert |ms| == |ms.Keys|;
    if name !in Unwanted(s) {
      assert name !in Annotated(ms, NeedingRollout(s)) && name !in Annotated(ms, ms.Keys) && name !in NeedingRollout(s);
    }
  }

  function EffectiveSteps(run: seq<State>, steps: seq<Step>, n: nat): nat
    requires |run| == |steps| + 1 && n <= |steps|
  {
    if n == 0 then 0
    else EffectiveSteps(run, steps, n - 1) + if Effective(run[n - 1], steps[n - 1], run[n]) then 1 else 0
  }

  /** A calm run creates, deletes and loses machines at most Rank times. */
  lemma EffectiveStepsAreBounded(run: seq<State>, steps: seq<Step>, n: nat)
    requires IsCalmRun(run, steps) && n <= |steps|
    ensures EffectiveSteps(run, steps, n) + Rank(run[n]) <= Rank(run[0])
  {
    forall i | 0 <= i < n ensures RankPays(run, steps, i) {
      assert CalmAt(run, steps, i);
      RankFalls(run[i], steps[i], run[i + 1]);
    }
    SumOfFalls(run, steps, n);
  }

  ghost predicate RankPays(run: seq<State>, steps: seq<Step>, i: nat)
    requires |run| == |steps| + 1 && i < |steps|
  {
    Rank(run[i + 1]) + (if Effective(run[i], steps[i], run[i + 1]) then 1 else 0) <= Rank(run[i])
  }

  lemma {:induction false} SumOfFalls(run: seq<State>, steps: seq<Step>, n: nat)
    requires |run| == |steps| + 1 && n <= |steps|
    requires forall i | 0 <= i < n :: RankPays(run, steps, i)
    ensures EffectiveSteps(run, steps, n) + Rank(run[n]) <= Rank(run[0])
  {
    if n > 0 {
      SumOfFalls(run, steps, n - 1);
      assert RankPays(run, steps, n - 1);
    }
  }

  /** A reconcile that finds the machines settled does something exactly when the work is not done. */
  lemma SettledReconcile(s: State, e: Effect)
    requires AllWell(s) && Decided(s, e)
    ensures Done(s) <==> e == Nothing
    ensures Done(s) <==> !(e.Grown? || e.Shrunk?)
    ensures e.Grown? <==>
            |s.machines| < s.kcp.replicas || (|s.machines| == s.kcp.replicas && NeedingRollout(s) != {})
    ensures e.Shrunk? <==> |s.machines| > s.kcp.replicas
  {
  }

  lemma DoneStays(s: State, step: Step, s': State)
    requires CalmNext(s, step, s') && Done(s)
    ensures Done(s')
  {
    if step.Act? && (step.e.Grown? || step.e.Shrunk?) {
      assert false;
    } else {
      SameSelectors(s, step, s');
      assert forall n | n in s.machines.Keys :: n in s'.machines.Keys || n in s.machines.Keys - s'.machines.Keys;
      assert s'.machines.Keys == s.machines.Keys;
      assert |s'.machines| == |s'.machines.Keys| && |s.machines| == |s.machines.Keys|;
    }
  }

  /** How many reconciles of the run found the machines settled. */
  ghost function SettledReconciles(run: seq<State>, steps: seq<Step>, n: nat): nat
    requires |run| == |steps| + 1 && n <= |steps|
  {
    if n == 0 then 0
    else SettledReconciles(run, steps, n - 1) +
         if steps[n - 1].Act? && AllWell(run[n - 1]) then 1 else 0
  }

  /** The state after the last step, among the first n, in which the rollout deadline passed; 0 if it never
      did. */
  function LastPassing(run: seq<State>, n: nat): (p: nat)
    requires n < |run|
    ensures p <= n
  {
    if n == 0 || DeadlinePasses(run[n - 1], run[n]) then n else LastPassing(run, n - 1)
  }

  /** In a steady run it passes at most once. */
  lemma DeadlinePassesOnce(run: seq<State>, steps: seq<Step>, i: nat, j: nat)
    requires IsSteadyRun(run, steps) && i < j < |steps|
    ensures !(DeadlinePasses(run[i], run[i + 1]) && DeadlinePasses(run[j], run[j + 1]))
  {
    TimeGoesOn(run, steps, i, i + 1);
    TimeGoesOn(run, steps, i + 1, j);
  }

  lemma {:induction false} TimeGoesOn(run: seq<State>, steps: seq<Step>, i: nat, j: nat)
    requires IsSteadyRun(run, steps) && i <= j < |run|
    ensures run[i].now <= run[j].now && run[j].kcp.spec == run[i].kcp.spec
  {
    if i < j {
      TimeGoesOn(run, steps, i, j - 1);
      assert SteadyAt(run, steps, j - 1);
    }
  }

  lemma {:induction false} CalmFrom(run: seq<State>, steps: seq<Step>, n: nat)
    requires IsSteadyRun(run, steps) && n <= |steps|
    ensures forall i | LastPassing(run, n) <= i < n :: CalmAt(run, steps, i)
  {
    if n > 0 && LastPassing(run, n) < n {
      CalmFrom(run, steps, n - 1);
      assert SteadyAt(run, steps, n - 1);
    }
  }

  /** Rollout and scaling terminate: once more reconciles than Rank, taken when the deadline last passed,
      have found the machines settled, the control plane has exactly its replicas, all up to date. */
  lemma RolloutTerminates(run: seq<State>, steps: seq<Step>)
    requires IsSteadyRun(run, steps)
    requires var p := LastPassing(run, |steps|); SettledReconciles(run[p..], steps[p..], |steps| - p) > Rank(run[p])
    ensures Done(run[|steps|])
  {
    var p := LastPassing(run, |steps|);
    CalmFrom(run, steps, |steps|);
    forall i | 0 <= i < |steps| - p ensures CalmAt(run[p..], steps[p..], i) {
      assert CalmAt(run, steps, p + i);
    }
    CalmRolloutTerminates(run[p..], steps[p..]);
  }

  lemma CalmRolloutTerminates(run: seq<State>, steps: seq<Step>)
    requires IsCalmRun(run, steps)
    requires SettledReconciles(run, steps, |steps|) > Rank(run[0])
    ensures Done(run[|steps|])
  {
    if !Done(run[|steps|]) {
      EachSettledCounts(run, steps, |steps|);
      EffectiveStepsAreBounded(run, steps, |steps|);
    }
  }

  lemma {:induction false} EachSettledCounts(run: seq<State>, steps: seq<Step>, n: nat)
    requires IsCalmRun(run, steps) && n <= |steps| && !Done(run[n])
    ensures SettledReconciles(run, steps, n) <= EffectiveSteps(run, steps, n)
  {
    if n > 0 {
      assert CalmAt(run, steps, n - 1);
      if Done(run[n - 1]) {
        DoneStays(run[n - 1], steps[n - 1], run[n]);
      }
      EachSettledCounts(run, steps, n - 1);
      if steps[n - 1].Act? && AllWell(run[n - 1]) {
        SettledIsEffective(run[n - 1], steps[n - 1], run[n]);
      }
    }
  }

  lemma SettledIsEffective(s: State, step: Step, s': State)
    requires CalmNext(s, step, s') && !Done(s) && step.Act? && AllWell(s)
    ensures Effective(s, step, s')
  {
    SettledReconcile(s, step.e);
  }

  /** Without a version, and with machines wanted, that never happens: every machine is outdated the moment
      it exists, so a settled reconcile always creates or deletes one. */
  lemma NeverDone(s: State, e: Effect)
    requires s.kcp.spec.version == "" && s.kcp.replicas > 0
    ensures !Done(s)
    ensures AllWell(s) && Decided(s, e) ==> e.Grown? || e.Shrunk?
  {
    NoVersion(s);
    if |s.machines| == s.kcp.replicas && Deleting(s.machines) == {} {
      var n :| n in s.machines;
      assert n !in Deleting(s.machines);
      assert n in NeedingRollout(s);
    }
    if AllWell(s) && Decided(s, e) {
      SettledReconcile(s, e);
    }
  }

  // ---- the record of a remediation -------------------------------------------------------------------------

  /** The remediation whose record is pending after the first n steps. */
  function Source(steps: seq<Step>, n: nat): (r: Option<nat>)
    requires n <= |steps|
    ensures r.Some? ==> r.value < n && steps[r.value].Act? && steps[r.value].e.Remediated?
  {
    if n == 0 then None
    else match steps[n - 1]
         case Act(Remediated(_, _), _) => Some(n - 1)
         case Act(Grown(_), _) => None
         case _ => Source(steps, n - 1)
  }

  /** What is pending is the record of that remediation, and no remediation starts while one is. */
  lemma {:induction false} PendingIsSource(run: seq<State>, steps: seq<Step>, n: nat)
    requires IsRun(run, steps) && n <= |steps| && run[0].kcp.pending.Absent?
    ensures run[n].kcp.pending ==
            match Source(steps, n) case None => Absent case Some(i) => Remediation.Marshal(steps[i].e.data)
    ensures n < |steps| && steps[n].Act? && steps[n].e.Remediated? ==> Source(steps, n).None?
  {
    if n > 0 {
      PendingIsSource(run, steps, n - 1);
      assert NextAt(run, steps, n - 1);
    }
    if n < |steps| {
      assert NextAt(run, steps, n);
    }
  }

  /** Step n created the machine. */
  predicate CreatesAt(steps: seq<Step>, n: nat, name: string) {
    n < |steps| && steps[n].Act? && steps[n].e == Grown(name)
  }

  /** A machine is created with the record of the remediation pending then, or with none; and no two
      machines are created with the record of the same remediation. */
  lemma RecordReachesOneMachine(run: seq<State>, steps: seq<Step>, g: nat, h: nat, m: string, n: string)
    requires IsRun(run, steps) && run[0].kcp.pending.Absent?
    requires CreatesAt(steps, g, m) && CreatesAt(steps, h, n) && g < h
    ensures m in run[g + 1].machines
    ensures run[g].kcp.spec.template.record.Absent? ==>
              run[g + 1].machines[m].remediationFor ==
              match Source(steps, g) case None => Absent case Some(i) => Remediation.Marshal(steps[i].e.data)
    ensures Source(steps, g).None? || Source(steps, g) != Source(steps, h)
  {
    PendingIsSource(run, steps, g);
    assert NextAt(run, steps, g);
    SourceAfter(steps, g, h);
  }

  /** After a creation the pending record, if any, is that of a later remediation. */
  lemma {:induction false} SourceAfter(steps: seq<Step>, g: nat, h: nat)
    requires g < h <= |steps| && steps[g].Act? && steps[g].e.Grown?
    ensures Source(steps, h).Some? ==> Source(steps, h).value > g
  {
    if h > g + 1 {
      SourceAfter(steps, g, h - 1);
    }
  }

  /** The template has no such record of its own. */
  ghost predicate NoTemplateRecord(run: seq<State>) {
    forall i | 0 <= i < |run| :: run[i].kcp.spec.template.record.Absent?
  }

  /** Updates in place included, a machine carries its record unchanged for as long as it exists. */
  lemma {:induction false} RecordIsKept(run: seq<State>, steps: seq<Step>, name: string, i: nat, j: nat)
    requires IsRun(run, steps) && i <= j < |run|
    requires forall k | i <= k <= j :: name in run[k].machines
    requires NoTemplateRecord(run)
    ensures run[j].machines[name].remediationFor == run[i].machines[name].remediationFor
  {
    if i < j {
      RecordIsKept(run, steps, name, i, j - 1);
      assert NextAt(run, steps, j - 1);
    }
  }

  /** Remediation j is of the machine that was created, at step g, with the record of remediation i. */
  ghost predicate Replaces(run: seq<State>, steps: seq<Step>, i: nat, g: nat, j: nat)
    requires |run| == |steps| + 1
  {
    && i < g < j < |steps|
    && steps[j].Act? && steps[j].e.Remediated? && CreatesAt(steps, g, steps[j].e.name)
    && Source(steps, g) == Some(i)
    && forall k | g < k <= j :: steps[j].e.name in run[k].machines
  }

  /** ... and that machine failed soon enough for this to count as a retry. */
  ghost predicate RetriedAt(run: seq<State>, steps: seq<Step>, strategy: Option<Strategy>, i: nat, j: nat)
    requires |run| == |steps| + 1
  {
    && (exists g: nat :: Replaces(run, steps, i, g, j))
    && Remediation.IsRetry(Remediation.Marshal(steps[i].e.data).data, strategy, steps[j].now)
  }

  predicate RemediatesAt(steps: seq<Step>, i: nat) { i < |steps| && steps[i].Act? && steps[i].e.Remediated? }

  /** Remediations chain[0], chain[1], ... of the run, each failing the replacement of the one before. */
  ghost predicate IsRetrySequence(run: seq<State>, steps: seq<Step>, strategy: Option<Strategy>, chain: seq<nat>)
    requires |run| == |steps| + 1
  {
    && chain != [] && (forall t | 0 <= t < |chain| :: RemediatesAt(steps, chain[t]))
    && steps[chain[0]].e.data.retryCount == 0
    && forall t | 0 <= t < |chain| - 1 :: RetriedAt(run, steps, strategy, chain[t], chain[t + 1])
  }

  /** In a run with a fixed strategy such a sequence counts 0, 1, 2, ... and, with a non-negative limit,
      has at most MaxRetry + 1 remediations; each comes no earlier than its predecessor's recorded time
      plus the retry period. */
  lemma RetriesAreBounded(run: seq<State>, steps: seq<Step>, strategy: Option<Strategy>, chain: seq<nat>, t: nat)
    requires IsRun(run, steps) && run[0].kcp.pending.Absent?
    requires NoTemplateRecord(run) && forall k | 0 <= k < |run| :: run[k].kcp.strategy == strategy
    requires IsRetrySequence(run, steps, strategy, chain) && t < |chain|
    ensures steps[chain[t]].e.data.retryCount == t
    ensures strategy.Some? && strategy.value.maxRetry.Some? && strategy.value.maxRetry.value >= 0 ==>
              |chain| <= strategy.value.maxRetry.value + 1
    ensures t > 0 ==>
              var last := steps[chain[t - 1]].e.data;
              last.timestamp.Some?
                && last.timestamp.value / SECOND * SECOND
                   + (match strategy case Some(Strategy(_, period, _)) => period case None => 0) <= steps[chain[t]].now
  {
    var data := ChainOfRun(run, steps, strategy, chain);
    Remediation.RetryChain(strategy, data, t);
    Remediation.RetryChain(strategy, data, |chain| - 1);
  }

  lemma ChainOfRun(run: seq<State>, steps: seq<Step>, strategy: Option<Strategy>, chain: seq<nat>)
    returns (data: seq<RemediationData>)
    requires IsRun(run, steps) && run[0].kcp.pending.Absent?
    requires NoTemplateRecord(run) && forall k | 0 <= k < |run| :: run[k].kcp.strategy == strategy
    requires IsRetrySequence(run, steps, strategy, chain)
    ensures |data| == |chain| && Remediation.IsChain(strategy, data)
    ensures forall t | 0 <= t < |chain| ::
              data[t] == steps[chain[t]].e.data && data[t].timestamp == Some(steps[chain[t]].now)
  {
    data := seq(|chain|, t requires 0 <= t < |chain| => steps[chain[t]].e.data);
    forall t | 0 <= t < |data| ensures data[t].timestamp == Some(steps[chain[t]].now) {
      assert NextAt(run, steps, chain[t]);
    }
    forall t | 0 <= t < |data| - 1 ensures Remediation.IsLink(strategy, data[t], data[t + 1]) {
      LinkInRun(run, steps, strategy, chain[t], chain[t + 1]);
    }
  }

  lemma LinkInRun(run: seq<State>, steps: seq<Step>, strategy: Option<Strategy>, i: nat, j: nat)
    requires IsRun(run, steps) && run[0].kcp.pending.Absent?
    requires NoTemplateRecord(run) && forall k | 0 <= k < |run| :: run[k].kcp.strategy == strategy
    requires RetriedAt(run, steps, strategy, i, j)
    ensures Remediation.IsLink(strategy, steps[i].e.data, steps[j].e.data)
  {
    var g: nat :| Replaces(run, steps, i, g, j);
    var name := steps[j].e.name;
    PendingIsSource(run, steps, g);
    assert NextAt(run, steps, g);
    RecordIsKept(run, steps, name, g + 1, j);
    assert NextAt(run, steps, j);
  }
}
