// The handshake around the pre-terminate hook: a control plane machine that is being deleted keeps its
// hook until its etcd member is out of the way.
module HookHandshake {
  import opened Calls
  import opened Options
  import opened ControlPlane
  import opened ControlPlaneSteps
  import Runs
  import Etcd
  import Reconciler
  import Remediation

  // The control plane object the cluster refers to.
  datatype ControlPlaneRef = NoRef | NotFound | Found(deleting: bool)

  // What a pass over one machine looks at; `asked` are the machines for which the hook is due.
  datatype View = View(machines: Machines, nodes: seq<Etcd.Node>, clusterDeleting: bool,
                       controlPlane: ControlPlaneRef, asked: set<string>)

  datatype Cause = NoControlPlaneNodes | NilNodeRef | ClusterIsBeingDeleted | ControlPlaneIsBeingDeleted

  datatype Check = Needed | NotNeeded(cause: Cause) | CheckFailed

  predicate RemovalNeeded(v: View, m: Machine) {
    !v.clusterDeleting && m.nodeRef.Some? && v.controlPlane != Found(true) && Active(v.machines) != {}
  }

  /** No control plane node of that name is without the mark that its member was removed. */
  ghost predicate NodeGoneOrRemoved(nodes: seq<Etcd.Node>, name: string) {
    forall n | n in nodes && n.name == name :: n.removed
  }

  /** The machine may lose its hook. */
  ghost predicate Justified(v: View, name: string)
    requires name in v.machines
  {
    RemovalNeeded(v, v.machines[name]) ==> NodeGoneOrRemoved(v.nodes, v.machines[name].nodeRef.value)
  }

  ghost predicate Due(v: View, name: string) {
    name in v.machines && v.machines[name].deleting && v.machines[name].hook && name in v.asked
  }

  function WithoutHook(v: View, name: string): View
    requires name in v.machines
  {
    v.(machines := v.machines[name := v.machines[name].(hook := false)])
  }

  /** What one pass over a machine may do: drop its hook when justified, or else ask for the removal of
      its etcd member, which takes at least two control plane nodes. */
  ghost predicate Passed(v: View, name: string, v': View) {
    || v' == v
    || (Due(v, name) && Justified(v, name) && v' == WithoutHook(v, name))
    || (Due(v, name) && !Justified(v, name) && |v.nodes| >= 2 && v' == v.(nodes := v'.nodes)
        && Etcd.RequestedRemoval(v.nodes, v.machines[name].nodeRef.value, v'.nodes))
  }

  /** What a pass without an error leaves of a machine whose hook is due: the hook is gone, when cluster or
      control plane are going away, the machine has no node, no machine stays, or its node is gone or marked;
      otherwise its node, and nothing else, carries the removal request. */
  ghost predicate Released(v: View, name: string, v': View)
    requires name in v.machines
  {
    var m := v.machines[name];
    if v.clusterDeleting || v.controlPlane == Found(true) || m.nodeRef.None?
       || (forall n | n in v.machines :: v.machines[n].deleting)
       || (forall node | node in v.nodes && node.name == m.nodeRef.value :: node.removed)
    then v' == v.(machines := v.machines[name := m.(hook := false)])
    else v' == v.(nodes := v'.nodes) && |v'.nodes| == |v.nodes| && forall i | 0 <= i < |v.nodes| ::
           v'.nodes[i] == if v.nodes[i].name == m.nodeRef.value then Etcd.Node(v.nodes[i].name, true, false)
                          else v.nodes[i]
  }

  class MachineReconciler {
    const reliable: bool          // no call to the API server fails
    const workload: Etcd.Workload
    var machines: Machines
    var clusterDeleting: bool
    var controlPlane: ControlPlaneRef
    var asked: set<string>

    constructor (reliable: bool, workload: Etcd.Workload, machines: Machines, clusterDeleting: bool,
                 controlPlane: ControlPlaneRef, asked: set<string>)
      ensures this.reliable == reliable && this.workload == workload
      ensures Seen() == View(machines, workload.nodes, clusterDeleting, controlPlane, asked)
    {
      this.reliable, this.workload, this.machines := reliable, workload, machines;
      this.clusterDeleting, this.controlPlane, this.asked := clusterDeleting, controlPlane, asked;
    }

    function Seen(): View
      reads this, workload
    {
      View(machines, workload.nodes, clusterDeleting, controlPlane, asked)
    }

    /** A pass that ends without an error drops a hook that is due when that is justified, and otherwise has
        written the removal request on the machine's node. With fewer than two control plane nodes a removal
        that is needed is an error, and with reliable servers the only one. */
    method Reconcile(name: string) returns (err: bool)
      requires workload.Valid()
      modifies this`machines, workload`nodes
      ensures workload.Valid()
      ensures Passed(old(Seen()), name, Seen())
      ensures !err && old(Due(Seen(), name)) ==> (!machines[name].hook <==> old(Justified(Seen(), name)))
      ensures !err && old(Due(Seen(), name) && !Justified(Seen(), name)) ==>
                Etcd.RequestedRemoval(old(workload.nodes), machines[name].nodeRef.value, workload.nodes)
      ensures if name in old(machines) && old(machines)[name].deleting && old(machines)[name].hook && name in asked
              then !err ==> Released(old(Seen()), name, Seen())
              else Seen() == old(Seen())
      ensures old(Due(Seen(), name) && RemovalNeeded(Seen(), machines[name])) && |workload.nodes| < 2 ==> err
      ensures reliable && workload.reliable ==>
                (err <==> old(Due(Seen(), name) && RemovalNeeded(Seen(), machines[name])) && |workload.nodes| < 2)
    {
      var getFails := ApiFails(reliable);
      if getFails {
        return true;
      }
      if name !in machines || !machines[name].deleting {
        return false;
      }
      if !machines[name].hook || name !in asked {
        return false;
      }
      err := Release(name);
    }

    /** The hook is due. */
    method Release(name: string) returns (err: bool)
      requires workload.Valid() && Due(Seen(), name)
      modifies this`machines, workload`nodes
      ensures workload.Valid()
      ensures Passed(old(Seen()), name, Seen())
      ensures !err ==> Released(old(Seen()), name, Seen())
      ensures !err ==> (!machines[name].hook <==> old(Justified(Seen(), name)))
      ensures !err && old(!Justified(Seen(), name)) ==>
                Etcd.RequestedRemoval(old(workload.nodes), machines[name].nodeRef.value, workload.nodes)
      ensures old(RemovalNeeded(Seen(), machines[name])) && |workload.nodes| < 2 ==> err
      ensures reliable && workload.reliable ==>
                (err <==> old(RemovalNeeded(Seen(), machines[name])) && |workload.nodes| < 2)
    {
      var m := machines[name];
      var clusterFails := ApiFails(reliable);
      if clusterFails {
        return true;
      }
      var check := IsRemoveEtcdMemberNeeded(m);
      if check.CheckFailed? {
        return true;
      }
      if check.Needed? {
        var etcdRemoved := workload.RemoveMemberForNode(m.nodeRef.value);
        if etcdRemoved.None? {
          return true;
        }
        if !etcdRemoved.value {
          StillThere(old(workload.nodes), m.nodeRef.value, workload.nodes);
          return false;
        }
      }
      err := ApiFails(reliable);
      if !err {
        machines := machines[name := m.(hook := false)];
      }
    }

    method IsRemoveEtcdMemberNeeded(m: Machine) returns (r: Check)
      ensures r.Needed? ==> RemovalNeeded(Seen(), m)
      ensures r.NotNeeded? ==> !RemovalNeeded(Seen(), m)
      ensures r == NotNeeded(ClusterIsBeingDeleted) <==> clusterDeleting
      ensures r == NotNeeded(NilNodeRef) <==> !clusterDeleting && m.nodeRef.None?
      ensures r == NotNeeded(ControlPlaneIsBeingDeleted) ==> controlPlane == Found(true)
      ensures r == NotNeeded(NoControlPlaneNodes) ==> Active(machines) == {} && controlPlane != Found(true)
      ensures reliable ==> !r.CheckFailed?
      ensures r.Needed? ==>
                && !clusterDeleting && m.nodeRef.Some? && controlPlane != Found(true)
                && exists n | n in machines :: !machines[n].deleting
      ensures r.NotNeeded? ==>
                || clusterDeleting || m.nodeRef.None? || controlPlane == Found(true)
                || forall n | n in machines :: machines[n].deleting
    {
      if clusterDeleting {
        return NotNeeded(ClusterIsBeingDeleted);
      }
      if m.nodeRef.None? {
        return NotNeeded(NilNodeRef);
      }
      if !controlPlane.NoRef? {
        var getFails := ApiFails(reliable);
        if controlPlane.Found? {
          if getFails {
            return CheckFailed;
          }
          if controlPlane.deleting {
            return NotNeeded(ControlPlaneIsBeingDeleted);
          }
        }
      }
      var listFails := ApiFails(reliable);
      if listFails {
        return CheckFailed;
      }
      if Active(machines) != {} {
        var n :| n in Active(machines);
      } else {
        assert forall n | n in machines :: n !in Active(machines);
      }
      return if |Active(machines)| == 0 then NotNeeded(NoControlPlaneNodes) else Needed;
    }
  }

  lemma StillThere(before: seq<Etcd.Node>, name: string, after: seq<Etcd.Node>)
    requires Etcd.RequestedRemoval(before, name, after)
    ensures !NodeGoneOrRemoved(before, name)
  {
  }

  // ---- runs of both controllers ------------------------------------------------------------------------

  datatype World = World(state: State, nodes: seq<Etcd.Node>, members: seq<Etcd.Member>, leader: nat,
                         clusterDeleting: bool, controlPlane: ControlPlaneRef, asked: set<string>)
  {
    function Seen(): View { View(state.machines, nodes, clusterDeleting, controlPlane, asked) }
  }

  // A step of the control plane controller on its objects, its reconciliation of the etcd members, a pass
  // of the machine controller, and anything else.
  datatype Step = Controller(step: Runs.Step) | Members | Pass(name: string) | Elsewhere

  /** A machine object stays while it has its hook, and nobody else takes the hook off. */
  ghost predicate RespectsHooks(ms: Machines, ms': Machines) {
    forall n | n in ms && ms[n].hook :: n in ms' && ms'[n].hook
  }

  /** Remediating a machine of an initialised control plane with managed etcd. */
  predicate RemediatesMember(w: World, step: Step) {
    && step.Controller? && step.step.Act? && step.step.e.Remediated?
    && w.state.kcp.initialized && w.state.kcp.etcdManaged
  }

  ghost predicate Next(w: World, step: Step, w': World) {
    match step
    case Controller(s) =>
      && !s.Environment? && Runs.Next(w.state, s, w'.state) && w' == w.(state := w'.state, leader := w'.leader)
      && (RemediatesMember(w, step) && s.e.name in w.state.machines ==>
            Reconciler.EtcdSafe(w.state.machines, s.e.name, w.members, w'.leader))
    case Members =>
      && Reconciler.MembersReconciled(w.state, w.members, w'.members)
      && w' == w.(members := w'.members, leader := w'.leader)
    case Pass(name) =>
      && Passed(w.Seen(), name, w'.Seen())
      && w' == w.(state := w.state.(machines := w'.state.machines), nodes := w'.nodes)
    case Elsewhere => Runs.Outside(w.state, w'.state) && RespectsHooks(w.state.machines, w'.state.machines)
  }

  ghost predicate NextAt(run: seq<World>, steps: seq<Step>, i: nat)
    requires |run| == |steps| + 1 && i < |steps|
  {
    Next(run[i], steps[i], run[i + 1])
  }

  ghost predicate IsRun(run: seq<World>, steps: seq<Step>) {
    |run| == |steps| + 1 && forall i | 0 <= i < |steps| :: NextAt(run, steps, i)
  }

  lemma Extend(run: seq<World>, steps: seq<Step>, step: Step, w': World)
    requires IsRun(run, steps) && Next(run[|steps|], step, w')
    ensures IsRun(run + [w'], steps + [step])
  {
    forall i | 0 <= i < |steps| + 1 ensures NextAt(run + [w'], steps + [step], i) {
      assert i < |steps| ==> NextAt(run, steps, i);
    }
  }

  function States(run: seq<World>): seq<State> { seq(|run|, i requires 0 <= i < |run| => run[i].state) }

  function ControllerSteps(steps: seq<Step>): seq<Runs.Step> {
    seq(|steps|, i requires 0 <= i < |steps| => if steps[i].Controller? then steps[i].step else Runs.Environment)
  }

  /** To the control plane controller the machine controller is part of the environment: what holds of
      its runs holds of the runs of both. */
  lemma RunsOfBoth(run: seq<World>, steps: seq<Step>)
    requires IsRun(run, steps)
    ensures Runs.IsRun(States(run), ControllerSteps(steps))
  {
    forall i | 0 <= i < |steps| ensures Runs.NextAt(States(run), ControllerSteps(steps), i) {
      assert NextAt(run, steps, i);
    }
  }

  /** Step i deletes the machine by scaling down, or by remediating an initialised control plane, with
      managed etcd. */
  ghost predicate DeletesAt(run: seq<World>, steps: seq<Step>, i: nat, name: string)
    requires |run| == |steps| + 1
  {
    && i < |steps| && run[i].state.kcp.etcdManaged && steps[i].Controller? && steps[i].step.Act?
    && (steps[i].step.e == Shrunk(name)
        || (steps[i].step.e.Remediated? && steps[i].step.e.name == name && run[i].state.kcp.initialized))
  }

  /** Step k drops the hook of the machine, after being asked to, at a moment that justifies it. */
  ghost predicate DropsAt(run: seq<World>, steps: seq<Step>, k: nat, name: string)
    requires |run| == |steps| + 1
  {
    && k < |steps| && steps[k] == Pass(name)
    && Due(run[k].Seen(), name) && Justified(run[k].Seen(), name)
    && run[k + 1].Seen() == WithoutHook(run[k].Seen(), name)
  }

  /** A machine deleted like that carries the hook from then on, until a pass over it finds that its node
      is gone or marked as removed, or that its member need not be removed. */
  lemma {:induction false} HookOutlastsMember(run: seq<World>, steps: seq<Step>, i: nat, name: string, j: nat)
    requires IsRun(run, steps) && DeletesAt(run, steps, i, name) && i < j < |run|
    ensures || (name in run[j].state.machines && run[j].state.machines[name].deleting
             && run[j].state.machines[name].hook)
            || exists k | i < k < j :: DropsAt(run, steps, k, name)
  {
    assert NextAt(run, steps, j - 1);
    if j > i + 1 {
      HookOutlastsMember(run, steps, i, name, j - 1);
      if forall k | i < k < j - 1 :: !DropsAt(run, steps, k, name) {
        HookStep(run[j - 1], steps[j - 1], run[j], name);
        assert DropsAt(run, steps, j - 1, name) || run[j].state.machines[name].hook;
      }
    }
  }

  lemma HookStep(w: World, step: Step, w': World, name: string)
    requires Next(w, step, w')
    requires name in w.state.machines && w.state.machines[name].deleting && w.state.machines[name].hook
    ensures name in w'.state.machines && w'.state.machines[name].deleting
    ensures w'.state.machines[name].hook || (
              step == Pass(name) && Due(w.Seen(), name) && Justified(w.Seen(), name)
                && w'.Seen() == WithoutHook(w.Seen(), name))
  {
  }

  // ---- etcd quorum over runs -----------------------------------------------------------------------------

  /** Nothing new fails at step k, and if it is not one of the controllers', it takes at most one member
      away: the target's, or one that no machine hosts. */
  ghost predicate GentleAt(run: seq<World>, steps: seq<Step>, k: nat, target: Option<string>)
    requires |run| == |steps| + 1 && k < |steps|
  {
    && Remediation.NoNewFailures(run[k].state.machines, run[k + 1].state.machines, target)
    && (steps[k].Elsewhere? ==>
          Remediation.Removal(run[k].state.machines, Remediation.NameList(run[k].members), target,
                              Remediation.NameList(run[k + 1].members)))
  }

  ghost predicate Majority(w: World, target: Option<string>) {
    Reconciler.MajorityBut(w.state.machines, w.members, target)
  }

  /** From the remediation of a machine on, the members other than its own keep a strict healthy majority,
      through every later reconciliation of members; and once its own member is gone, those left have one. */
  lemma QuorumThroughRemovals(run: seq<World>, steps: seq<Step>, i: nat, j: nat)
    requires IsRun(run, steps) && i < j <= |steps|
    requires RemediatesMember(run[i], steps[i])
    requires steps[i].step.e.name in run[i].state.machines && DistinctNodeRefs(run[i].state.machines)
    requires forall k | i <= k < j :: GentleAt(run, steps, k, run[i].state.machines[steps[i].step.e.name].nodeRef)
    ensures var target := run[i].state.machines[steps[i].step.e.name].nodeRef;
            && Majority(run[j], target)
            && (target.None? || target.value !in Remediation.NameList(run[j].members) ==> Majority(run[j], None))
  {
    var target := run[i].state.machines[steps[i].step.e.name].nodeRef;
    assert Majority(run[i], target) by {
      assert NextAt(run, steps, i);
    }
    MajorityThrough(run, steps, i, j, target);
    if target.None? || target.value !in Remediation.NameList(run[j].members) {
      MajorityOfAll(run[j], target);
    }
  }

  lemma {:induction false} MajorityThrough(run: seq<World>, steps: seq<Step>, i: nat, j: nat, target: Option<string>)
    requires IsRun(run, steps) && i <= j <= |steps| && Majority(run[i], target)
    requires forall k | i <= k < j :: GentleAt(run, steps, k, target)
    ensures Majority(run[j], target)
  {
    if i < j {
      MajorityThrough(run, steps, i, j - 1, target);
      assert NextAt(run, steps, j - 1) && GentleAt(run, steps, j - 1, target);
      MajorityKept(run[j - 1], steps[j - 1], run[j], target);
    }
  }

  lemma MajorityOfAll(w: World, target: Option<string>)
    requires Majority(w, target) && (target.None? || target.value !in Remediation.NameList(w.members))
    ensures Majority(w, None)
  {
    Remediation.OthersOfAbsent(Remediation.NameList(w.members), None);
    Remediation.OthersOfAbsent(Remediation.NameList(w.members), target);
  }

  lemma MajorityKept(w: World, step: Step, w': World, target: Option<string>)
    requires Next(w, step, w') && Majority(w, target)
    requires Remediation.NoNewFailures(w.state.machines, w'.state.machines, target)
    requires step.Elsewhere? ==>
               Remediation.Removal(w.state.machines, Remediation.NameList(w.members), target,
                                   Remediation.NameList(w'.members))
    ensures Majority(w', target)
  {
    var names := Remediation.NameList(w'.members);
    match step {
      case Members => Reconciler.ReconciledMembers(w.state, w.members, w'.members, target);
      case Elsewhere =>
        Remediation.RemovalKeepsMajority(w.state.machines, Remediation.NameList(w.members), target, names);
      case Controller(_) =>
      case Pass(_) =>
    }
    Remediation.MoreHealthy(w.state.machines, w'.state.machines, names, target);
  }
}
