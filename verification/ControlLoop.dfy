// The controllers at work: what they really do forms runs.
module ControlLoop {
  import opened ControlPlane
  import opened ControlPlaneSteps
  import opened HookHandshake
  import Etcd
  import Reconciler
  import Runs

  /** What a reconcile that starts in w promises, of the world it ends in. */
  ghost predicate Reconciled(w: World, t: Reconciler.Trace, at: int, last: World) {
    && Synced(w.state, t.synced) && Observed(t.synced, t.seen)
    && Acted(t.seen, t.e, at, t.acted) && StatusUpdated(t.acted, last.state)
    && Reconciler.MembersReconciled(t.seen, w.members, last.members)
    && last == w.(state := last.state, members := last.members, leader := last.leader)
    && (t.e.Remediated? && t.seen.kcp.initialized && t.seen.kcp.etcdManaged ==>
          t.e.name in t.seen.machines && Reconciler.EtcdSafe(t.seen.machines, t.e.name, last.members, last.leader))
  }

  function Links(w: World, t: Reconciler.Trace, last: World): seq<World> {
    var seen := w.(state := t.seen);
    [w.(state := t.synced), seen, seen.(members := last.members), last.(state := t.acted), last]
  }

  function LinkSteps(t: Reconciler.Trace, at: int): seq<Step> {
    [Controller(Runs.Sync), Controller(Runs.Observe), Members, Controller(Runs.Act(t.e, at)),
     Controller(Runs.UpdateStatus)]
  }

  lemma FirstLinks(w: World, t: Reconciler.Trace, at: int, last: World)
    requires Reconciled(w, t, at, last)
    ensures Next(w, LinkSteps(t, at)[0], Links(w, t, last)[0])
    ensures Next(Links(w, t, last)[0], LinkSteps(t, at)[1], Links(w, t, last)[1])
    ensures Next(Links(w, t, last)[1], LinkSteps(t, at)[2], Links(w, t, last)[2])
  {
  }

  lemma LastLinks(w: World, t: Reconciler.Trace, at: int, last: World)
    requires Reconciled(w, t, at, last)
    ensures Next(Links(w, t, last)[2], LinkSteps(t, at)[3], Links(w, t, last)[3])
    ensures Next(Links(w, t, last)[3], LinkSteps(t, at)[4], Links(w, t, last)[4])
  {
  }

  /** One reconcile is five steps. */
  lemma RoundIsRun(run: seq<World>, steps: seq<Step>, t: Reconciler.Trace, at: int, last: World)
    requires IsRun(run, steps) && Reconciled(run[|steps|], t, at, last)
    ensures IsRun(run + Links(run[|steps|], t, last), steps + LinkSteps(t, at))
  {
    var ws, xs := Links(run[|steps|], t, last), LinkSteps(t, at);
    FirstLinks(run[|steps|], t, at, last);
    LastLinks(run[|steps|], t, at, last);
    forall i | 0 <= i < |steps| + 5 ensures NextAt(run + ws, steps + xs, i) {
      assert i < |steps| ==> NextAt(run, steps, i);
      var k := i - |steps|;
      assert i > |steps| ==> (run + ws)[i] == ws[k - 1] && (run + ws)[i + 1] == ws[k] && (steps + xs)[i] == xs[k];
      assert i == |steps| ==> (run + ws)[i] == run[i] && (run + ws)[i + 1] == ws[0] && (steps + xs)[i] == xs[0];
    }
  }

  // The cluster both controllers work on.
  class Cluster {
    const controller: Reconciler.KThreesControlPlaneReconciler
    const workload: Etcd.Workload
    var clusterDeleting: bool
    var controlPlane: ControlPlaneRef
    var asked: set<string>

    constructor (controller: Reconciler.KThreesControlPlaneReconciler)
      requires controller.workload.Valid()
      ensures this.controller == controller && Valid()
      ensures World() == HookHandshake.World(
          controller.State(), controller.workload.nodes, controller.workload.members, controller.workload.leader,
          false, NoRef, {})
    {
      this.controller, this.workload := controller, controller.workload;
      clusterDeleting, controlPlane, asked := false, NoRef, {};
    }

    ghost predicate Valid()
      reads this, controller, workload
    {
      controller.workload == workload && workload.Valid()
    }

    function World(): World
      reads this, controller, workload
    {
      HookHandshake.World(controller.State(), workload.nodes, workload.members, workload.leader,
                          clusterDeleting, controlPlane, asked)
    }

    /** Whatever the cluster and its users do meanwhile, short of taking hooks off. */
    method Interfere()
      requires Valid()
      modifies this, controller, workload
      ensures Valid() && Next(old(World()), Elsewhere, World())
    {
      var s: State := *;
      if Runs.Outside(controller.State(), s)
         && forall n | n in controller.machines && controller.machines[n].hook ::
              n in s.machines && s.machines[n].hook
      {
        controller.machines, controller.kcp, controller.infra := s.machines, s.kcp, s.infra;
        controller.configs, controller.now := s.configs, s.now;
      }
      var nodes: seq<Etcd.Node>, members: seq<Etcd.Member>, leader: nat := *, *, *;
      if Etcd.DistinctNames(nodes) && Etcd.DistinctIDs(members) {
        workload.nodes, workload.members, workload.leader := nodes, members, leader;
      }
      clusterDeleting, controlPlane, asked := *, *, *;
    }

    /** A pass of the machine controller, on the machines as they are. */
    method PassOver(name: string)
      requires Valid()
      modifies controller, workload
      ensures Valid() && Next(old(World()), Pass(name), World())
    {
      var machineController :=
        new MachineReconciler(controller.reliable, workload, controller.machines, clusterDeleting, controlPlane, asked);
      var err := machineController.Reconcile(name);
      controller.machines := machineController.machines;
    }

    /** A reconcile of the control plane, at any time and with any report. */
    method Reconcile() returns (ghost t: Reconciler.Trace, ghost at: int)
      requires Valid()
      modifies controller, workload
      ensures Valid() && Reconciled(old(World()), t, at, World())
    {
      var premises: Reconciler.Premises, now: int, report: Reconciler.Report := *, *, *;
      var domains: set<string>, failureDomain: string := *, *;
      var err;
      err, t := controller.Reconcile(premises, now, report, domains, failureDomain);
      at := now;
    }

    /** A reconcile of the control plane, as five steps. */
    method ReconcileOnce(ghost run: seq<World>, ghost steps: seq<Step>)
      returns (ghost run': seq<World>, ghost steps': seq<Step>)
      requires Valid() && IsRun(run, steps) && run[|steps|] == World()
      modifies controller, workload
      ensures Valid() && IsRun(run', steps') && run <= run' && run'[|steps'|] == World()
    {
      ghost var w0 := World();
      ghost var t, at := Reconcile();
      RoundIsRun(run, steps, t, at, World());
      run', steps' := run + Links(w0, t, World()), steps + LinkSteps(t, at);
    }

    /** Any number of reconciles and passes in any order, at any times and with any reports, with
        interference between them, starting from no machines: a run, in which at most one machine is ever
        being deleted and an uninitialised control plane has at most one machine. */
    method Run(rounds: nat) returns (ghost run: seq<World>, ghost steps: seq<Step>)
      requires Valid() && controller.machines == map[]
      modifies this, controller, workload
      ensures Valid()
      ensures IsRun(run, steps) && run[0] == old(World()) && run[|steps|] == World()
      ensures |Deleting(controller.machines)| <= 1 && (!controller.kcp.initialized ==> |controller.machines| <= 1)
    {
      run, steps := [World()], [];
      for i := 0 to rounds
        invariant Valid()
        invariant IsRun(run, steps) && run[0] == old(World()) && run[|steps|] == World()
      {
        var choice: nat, name: string := *, *;
        if choice == 0 {
          ghost var run', steps' := ReconcileOnce(run, steps);
          run, steps := run', steps';
        } else if choice == 1 {
          PassOver(name);
          Extend(run, steps, Pass(name), World());
          run, steps := run + [World()], steps + [Pass(name)];
        } else {
          Interfere();
          Extend(run, steps, Elsewhere, World());
          run, steps := run + [World()], steps + [Elsewhere];
        }
      }
      RunsOfBoth(run, steps);
      Runs.AlwaysSafe(States(run), ControllerSteps(steps), |steps|);
    }
  }
}
