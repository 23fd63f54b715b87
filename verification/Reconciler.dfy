// The control plane reconciler.
module Reconciler {
  import opened Calls
  import opened Options
  import opened ControlPlane
  import opened ControlPlaneSteps
  import Remediation
  import EtcdConditions
  import HealthConditions
  import Etcd
  import RolloutVerdict

  // What the workload cluster reports during one conditions pass.
  datatype Report = Report(
    agents: Option<seq<HealthConditions.NodeInfo>>,
    nodes: Option<seq<string>>,
    answers: map<string, EtcdConditions.Answer>,
    servingSecret: bool)          // k3s has uploaded its serving secret

  // What a reconcile looks at before it does anything. The KCP object has a cluster if it is read and owned.
  datatype Premises = Premises(
    hasCluster: bool, paused: bool, infrastructureReady: bool, finalizer: bool,
    endpointSet: bool, adoptable: bool, allOwned: bool)
  {
    predicate Met(): (met: bool)
      ensures met <==>
              hasCluster && !paused && infrastructureReady && finalizer && endpointSet && !adoptable && allOwned
    {
      Admitted() && finalizer && endpointSet && !adoptable && allOwned
    }

    predicate Admitted() { hasCluster && !paused && infrastructureReady }
  }

  // The states a reconcile goes through, and its effect.
  datatype Trace = Trace(synced: State, seen: State, passed: bool, e: Effect, acted: State)

  function Idle(s: State): Trace { Trace(s, s, false, Nothing, s) }

  datatype Ref = Infra(name: string) | Config(name: string)

  /** A generated name that no object has. */
  method GenerateName(used: set<string>) returns (name: string)
    ensures name !in used
  {
    name := "";
    var todo := used;
    while todo != {}
      invariant forall u | u in used - todo :: |u| < |name| + 1
      decreases todo
    {
      var u :| u in todo;
      todo := todo - {u};
      if |u| > |name| {
        name := u;
      }
    }
    name := name + "x";
    assert forall u | u in used :: |u| < |name|;
  }

  // ---- etcd, as the controller deals with it -----------------------------------------------------------

  /** The etcd side of a remediation that deletes a machine of an initialised control plane: enough
      healthy members remain, and the leader is not the member that goes. */
  ghost predicate EtcdSafe(ms: Machines, name: string, members: seq<Etcd.Member>, leader: nat)
    requires name in ms
  {
    && (DistinctNodeRefs(ms) ==> MajorityBut(ms, members, ms[name].nodeRef))
    && (DistinctNodeRefs(ms) && Etcd.DistinctNodes(members) && ms[name].nodeRef.Some? ==>
          !Etcd.LeaderOn(members, leader, ms[name].nodeRef.value))
  }

  /** If the member of the machine led, that of the newest machine of `among` leads now; otherwise the leader
      is the same. */
  ghost predicate LeadershipMoved(ms: Machines, among: set<string>, name: string, members: seq<Etcd.Member>,
                                  leader: nat, leader': nat)
    requires name in ms && among <= ms.Keys
  {
    if ms[name].nodeRef.None? then leader' == leader
    else Etcd.DistinctNodes(members) ==>
      if Etcd.LeaderOn(members, leader, ms[name].nodeRef.value)
      then exists n | n in among ::
             IsExtreme(ms, among, true, n) && ms[n].nodeRef.Some?
             && Etcd.LeaderOn(members, leader', ms[n].nodeRef.value)
      else leader' == leader
  }

  /** So the member of a machine that is scaled down leads afterwards exactly when it led before and the
      machine is the newest; where only others are considered, it does not lead. */
  lemma LeadershipKeptExactly(ms: Machines, among: set<string>, name: string, members: seq<Etcd.Member>,
                              leader: nat, leader': nat)
    requires name in ms && among <= ms.Keys && ms[name].nodeRef.Some?
    requires DistinctNodeRefs(ms) && Etcd.DistinctNodes(members) && Etcd.DistinctIDs(members)
    requires LeadershipMoved(ms, among, name, members, leader, leader')
    ensures Etcd.LeaderOn(members, leader', ms[name].nodeRef.value) <==>
            Etcd.LeaderOn(members, leader, ms[name].nodeRef.value) && IsExtreme(ms, among, true, name)
  {
    if Etcd.LeaderOn(members, leader, ms[name].nodeRef.value) {
      var n :| n in among && IsExtreme(ms, among, true, n) && ms[n].nodeRef.Some?
               && Etcd.LeaderOn(members, leader', ms[n].nodeRef.value);
      if Etcd.LeaderOn(members, leader', ms[name].nodeRef.value) {
        Etcd.OneNode(members, leader', ms[n].nodeRef.value, ms[name].nodeRef.value);
      }
      if name in among {
        OlderIsStrict(ms, name, n);
      }
    }
  }

  /** The members other than the one of the node have a strict healthy majority. */
  ghost predicate MajorityBut(ms: Machines, members: seq<Etcd.Member>, node: Option<string>) {
    Remediation.HealthyMajority(ms, Remediation.Others(Remediation.NameList(members), node))
  }

  /** Why an initialised control plane keeps an unhealthy machine for now: it has no other one; a healthy
      machine has no node yet, or a machine is being deleted; or, where etcd is managed, the members other
      than the machine's have no strict healthy majority, or no healthy machine could take over leadership. */
  ghost predicate HeldBack(s: State, members: seq<Etcd.Member>, name: string)
    requires name in s.machines
  {
    s.kcp.initialized &&
    (|| |s.machines| <= 1
     || (exists n | n in s.machines :: !s.machines[n].unhealthy && s.machines[n].nodeRef.None?)
     || (exists n | n in s.machines :: s.machines[n].deleting)
     || (s.kcp.etcdManaged
         && (DistinctNodeRefs(s.machines) ==> !MajorityBut(s.machines, members, s.machines[name].nodeRef)))
     || (s.kcp.etcdManaged && forall n | n in s.machines :: s.machines[n].unhealthy))
  }

  /** Why the machine to be remediated is not remediated now. */
  ghost predicate MustWait(s: State, members: seq<Etcd.Member>, name: string, now: int)
    requires name in s.machines
  {
    || s.machines[name].deleting || !s.kcp.pending.Absent?
    || Remediation.VerdictOn(name, s.machines[name].remediationFor, s.kcp.strategy, now).Wait?
    || HeldBack(s, members, name)
  }

  /** No machine is unhealthy, or the one whose turn it is must wait. */
  ghost predicate NoneToRemediate(s: State, members: seq<Etcd.Member>, now: int) {
    || (forall n | n in s.machines :: !s.machines[n].unhealthy)
    || exists n | n in s.machines :: IsRemediationTarget(s.machines, n) && MustWait(s, members, n, now)
  }

  /** So a machine that fails for the first time, all others being fine, is not left alone. */
  lemma FirstFailureIsDue(s: State, members: seq<Etcd.Member>, name: string, now: int)
    requires name in s.machines && s.machines[name].unhealthy && !s.machines[name].deleting
    requires forall n | n in s.machines && n != name ::
               !s.machines[n].unhealthy && s.machines[n].nodeRef.Some? && !s.machines[n].deleting
    requires |s.machines| > 1 && s.machines[name].remediationFor.Absent? && s.kcp.pending.Absent?
    requires s.kcp.etcdManaged ==>
               DistinctNodeRefs(s.machines) && MajorityBut(s.machines, members, s.machines[name].nodeRef)
    ensures !NoneToRemediate(s, members, now)
  {
    forall n | n in s.machines && IsRemediationTarget(s.machines, n) ensures !MustWait(s, members, n, now) {
      assert n in Unhealthy(s.machines) && n == name;
      var other := OtherMachine(s.machines, name);
    }
  }

  lemma OtherMachine(ms: Machines, name: string) returns (other: string)
    requires |ms| > 1 && name in ms
    ensures other in ms && other != name
  {
    var rest := ms.Keys - {name};
    assert ms.Keys == rest + {name} && |ms| == |ms.Keys|;
    other :| other in rest;
  }

  /** The action is the one called for, and the machine chosen for scaling down is the one to select, or waits
      because deleting it is not safe yet. */
  ghost predicate DecidedOn(s: State, domains: set<string>, e: Effect) {
    && Decided(s, e)
    && (e.Shrunk? ==> IsSelected(s.machines, NeedingRollout(s), domains, e.name))
    && (WantsShrink(s) && !WantsGrow(s) && e == Nothing ==> exists n | n in s.machines ::
          IsSelected(s.machines, NeedingRollout(s), domains, n) && !Stable(s, {n}))
  }

  /** A machine that has been created is in the failure domain given. */
  predicate Placed(s: State, e: Effect, failureDomain: string) {
    e.Grown? ==> e.name in s.machines && s.machines[e.name].failureDomain == failureDomain
  }

  ghost predicate ListsNodes(nodeNames: seq<string>, ms: Machines) {
    forall node :: node in nodeNames <==> node in NodeRefs(ms)
  }

  /** The members have been reconciled with the nodes of the machines, or left alone. */
  ghost predicate MembersReconciled(s: State, members: seq<Etcd.Member>, members': seq<Etcd.Member>) {
    members' == members
    || (s.kcp.etcdManaged && !HasProvisioning(s.machines) && exists nodeNames, removed ::
          ListsNodes(nodeNames, s.machines) && Etcd.Purged(members, nodeNames, removed, members'))
  }

  /** The member is unstarted, or on the node of a machine. */
  predicate Belongs(m: Etcd.Member, ms: Machines) {
    Etcd.NodeNameFromMember(m) == "" || Etcd.NodeNameFromMember(m) in NodeRefs(ms)
  }

  /** Exactly those members are left. */
  ghost predicate OnlyBelonging(ms: Machines, members: seq<Etcd.Member>, members': seq<Etcd.Member>) {
    forall m :: m in members' <==>
      m in members && (Etcd.NodeNameFromMember(m) == "" || Etcd.NodeNameFromMember(m) in NodeRefs(ms))
  }

  /** That keeps the members on the nodes of machines, and every healthy majority, and does nothing while all
      members are on such nodes. */
  lemma ReconciledMembers(s: State, members: seq<Etcd.Member>, members': seq<Etcd.Member>, target: Option<string>)
    requires MembersReconciled(s, members, members')
    ensures forall m | m in members' :: m in members
    ensures forall m | m in members && Belongs(m, s.machines) :: m in members'
    ensures MajorityBut(s.machines, members, target) ==> MajorityBut(s.machines, members', target)
    ensures Etcd.Names(members) <= NodeRefs(s.machines) ==> members' == members
  {
    if members' != members {
      var nodeNames, removed :| ListsNodes(nodeNames, s.machines) && Etcd.Purged(members, nodeNames, removed, members');
      forall m | m in members && Belongs(m, s.machines) ensures m in members'
      {
        Etcd.KeptMembers(members, nodeNames, m);
        Etcd.KeptMembers(members', nodeNames, m);
      }
      if MajorityBut(s.machines, members, target) {
        Remediation.PurgeKeepsMajority(s.machines, members, nodeNames, removed, members', target);
      }
      if Etcd.Names(members) <= NodeRefs(s.machines) {
        NoneStaleAmong(s.machines, members, nodeNames);
        Etcd.NothingPurged(members, nodeNames, removed, members');
      }
    }
  }

  lemma NoneStaleAmong(ms: Machines, members: seq<Etcd.Member>, nodeNames: seq<string>)
    requires ListsNodes(nodeNames, ms) && Etcd.Names(members) <= NodeRefs(ms)
    ensures Etcd.NoneStale(members, nodeNames)
  {
  }

  /** Reconciling etcd members has nothing to do, or waits. */
  predicate SkipsMembers(s: State) {
    !s.kcp.etcdManaged || |s.machines| == 0 || HasProvisioning(s.machines) || s.kcp.etcdClusterHealthy == CondTrue
  }

  /** The report gives the member lists that are really there. */
  ghost predicate Truthful(report: Report, members: seq<Etcd.Member>) {
    forall node | node in report.answers && report.answers[node].Listed? :: report.answers[node].members == members
  }

  /** The machines with the agent conditions of `after`, and all else as before. */
  function OnlyAgents(before: Machines, after: Machines): Machines
    requires before.Keys <= after.Keys
  {
    map n | n in before :: before[n].(agentHealthy := after[n].agentHealthy)
  }

  /** The agents' pass comes first, and the etcd pass leaves its conditions alone. */
  lemma BothPasses(before: Machines, mid: Machines, after: Machines)
    requires HealthConditions.SameButAgent(before, mid) && EtcdConditions.SameButEtcd(mid, after)
    ensures after.Keys == before.Keys && OnlyAgents(before, after) == mid
    ensures forall n | n in before ::
              after[n] == before[n].(agentHealthy := after[n].agentHealthy, etcdHealthy := after[n].etcdHealthy)
  {
    forall n | n in before ensures after[n].agentHealthy == mid[n].agentHealthy {
      assert after[n] == mid[n].(etcdHealthy := after[n].etcdHealthy);
    }
  }

  /** The conditions are those that follow from the report. */
  ghost predicate Taken(report: Report, before: Machines, kcp: Kcp, after: Machines, kcp': Kcp) {
    && before.Keys == after.Keys
    && HealthConditions.AgentsUpdated(before, kcp.componentsHealthy, report.agents,
                                      OnlyAgents(before, after), kcp'.componentsHealthy)
    && exists members, clusterID ::
         EtcdConditions.EtcdUpdated(OnlyAgents(before, after), kcp.etcdClusterHealthy, report.nodes, report.answers,
                                    after, kcp'.etcdClusterHealthy, members, clusterID)
  }

  lemma TakenInTurn(report: Report, before: Machines, kcp: Kcp, mid: Machines, after: Machines, kcp': Kcp,
                    members: Option<seq<Etcd.Member>>, clusterID: Option<nat>)
    requires HealthConditions.AgentsUpdated(before, kcp.componentsHealthy, report.agents, mid, kcp'.componentsHealthy)
    requires EtcdConditions.EtcdUpdated(mid, kcp.etcdClusterHealthy, report.nodes, report.answers,
                                        after, kcp'.etcdClusterHealthy, members, clusterID)
    ensures Taken(report, before, kcp, after, kcp')
  {
    BothPasses(before, mid, after);
  }

  ghost predicate ReportTaken(report: Report, s: State, s': State) {
    Taken(report, s.machines, s.kcp, s'.machines, s'.kcp)
  }

  /** Everything that a reconcile without an error has done: updated all machines in place, taken in the report
      once the control plane is initialised, and, unless it remediated a machine, found none to remediate
      and done what the state calls for. */
  ghost predicate Accomplished(s: State, t: Trace, at: int, report: Report, domains: set<string>,
                               members': seq<Etcd.Member>)
  {
    && AllUpdated(s, t.synced)
    && (t.synced.kcp.initialized ==> t.passed && ReportTaken(report, t.synced, t.seen))
    && (!t.e.Remediated? ==> DecidedOn(t.seen, domains, t.e) && NoneToRemediate(t.seen, members', at))
  }

  /** The conditions pass has listed the nodes and had truthful answers, and has found the etcd cluster
      healthy with all machines provisioned. */
  ghost predicate FoundHealthy(report: Report, t: Trace, members: seq<Etcd.Member>) {
    && t.passed && t.seen.kcp.etcdClusterHealthy == CondTrue && !HasProvisioning(t.seen.machines)
    && report.nodes.Some? && Truthful(report, members)
  }

  function InSeconds(t: int): (created: int)
    ensures t < (created + 1) * SECOND
  {
    t / SECOND
  }

  lemma StampedLater(now: int, later: nat)
    ensures NotBefore(InSeconds(now + later), now)
  {
  }

  /** Adding the hook and then, unless that fails, deleting the machine. */
  lemma HookedAndDeleted(s: State, name: string, e: Effect, s': State)
    requires s.kcp.etcdManaged && name in s.machines && !s.machines[name].deleting && MayShrink(s, name)
    requires e == Hooked(name) || e == Shrunk(name)
    requires var hooked := s.machines[name := s.machines[name].(hook := true)];
             s' == s.(machines := if e.Hooked? then hooked else hooked[name := hooked[name].(deleting := true)])
    ensures Acted(s, e, 0, s')
  {
  }

  /** Scaling down moves leadership to the newest of all machines. */
  ghost predicate MovedToNewest(ms: Machines, name: string, members: seq<Etcd.Member>, leader: nat, leader': nat)
    requires name in ms
  {
    LeadershipMoved(ms, ms.Keys, name, members, leader, leader')
  }

  /** Remediation moves leadership to the newest healthy machine. */
  ghost predicate MovedToHealthy(ms: Machines, name: string, members: seq<Etcd.Member>, leader: nat, leader': nat)
    requires name in ms
  {
    LeadershipMoved(ms, Healthy(ms), name, members, leader, leader')
  }

  lemma SameNodeRefs(s: State, synced: State, seen: State)
    requires Synced(s, synced) && Observed(synced, seen)
    ensures NodeRefs(seen.machines) == NodeRefs(s.machines)
    ensures HasProvisioning(seen.machines) <==> HasProvisioning(s.machines)
  {
    forall n | n in s.machines ensures seen.machines[n].nodeRef == s.machines[n].nodeRef {
      assert synced.machines[n].nodeRef == s.machines[n].nodeRef;
    }
    NodeRefsFrom(s.machines, seen.machines);
  }

  lemma NodeRefsFrom(ms: Machines, ms': Machines)
    requires ms'.Keys == ms.Keys && forall n | n in ms :: ms'[n].nodeRef == ms[n].nodeRef
    ensures NodeRefs(ms') == NodeRefs(ms) && (HasProvisioning(ms') <==> HasProvisioning(ms))
  {
  }

  class KThreesControlPlaneReconciler {
    const reliable: bool          // no call to the API server fails
    const cleansUp: bool          // no call that cleans up after a failed creation fails
    const picksCandidate: bool    // PickMost names the domain of a candidate
    const workload: Etcd.Workload
    var machines: Machines
    var kcp: Kcp
    var infra: set<string>
    var configs: set<string>
    var now: int                  // the time of the current reconcile

    constructor (reliable: bool, cleansUp: bool, picksCandidate: bool, workload: Etcd.Workload, kcp: Kcp, now: int)
      ensures this.reliable == reliable && this.cleansUp == cleansUp
      ensures this.picksCandidate == picksCandidate && this.workload == workload
      ensures State() == ControlPlane.State(map[], kcp, {}, {}, now)
    {
      this.reliable, this.cleansUp, this.picksCandidate, this.workload := reliable, cleansUp, picksCandidate, workload;
      this.kcp, this.now := kcp, now;
      machines, infra, configs := map[], {}, {};
    }

    function State(): State
      reads this
    {
      ControlPlane.State(machines, kcp, infra, configs, now)
    }

    /** The etcd leader is on a listed node, and the members are exactly those on the nodes of the machines,
        which all have one. */
    ghost predicate EtcdInOrder()
      reads this, workload
    {
      workload.LeaderListed() && !HasProvisioning(machines) && Etcd.Names(workload.members) == NodeRefs(machines)
    }

    lemma InOrder(name: string)
      requires EtcdInOrder() && name in machines
      ensures machines[name].nodeRef.Some? && Etcd.FirstFor(workload.members, machines[name].nodeRef.value).Some?
    {
      assert machines[name].nodeRef.value in NodeRefs(machines);
    }

    // ---- updating machines in place --------------------------------------------------------------------

    /** Updates the machines that stay, one after the other, until a call fails. */
    method SyncMachines() returns (err: bool)
      modifies this`machines
      ensures Synced(old(State()), State())
      ensures !err ==> AllUpdated(old(State()), State())
      ensures reliable ==> !err
    {
      var todo := machines.Keys;
      while todo != {}
        invariant todo <= machines.Keys && machines.Keys == old(machines).Keys
        invariant forall n | n in machines ::
                    machines[n] == if n in todo || old(machines)[n].deleting then old(machines)[n]
                                   else Updated(old(machines)[n], kcp.spec.template)
        decreases todo
      {
        var n :| n in todo;
        todo := todo - {n};
        if machines[n].deleting {
          continue;
        }
        err := SyncMachine(n);
        if err {
          SomeSynced(old(State()), State());
          return;
        }
      }
      AllSynced(old(State()), State());
      err := false;
    }

    /** Updates one machine and then its infrastructure object. */
    method SyncMachine(name: string) returns (err: bool)
      requires name in machines
      modifies this`machines
      ensures name in machines && machines == old(machines)[name := machines[name]]
      ensures Touched(old(machines)[name], kcp.spec.template, machines[name])
      ensures !err ==> machines[name] == Updated(old(machines)[name], kcp.spec.template)
      ensures reliable ==> !err
    {
      err := UpdateMachine(name);
      if !err && machines[name].infra.Some? {
        err := UpdateExternalObject(name);
      }
    }

    method UpdateMachine(name: string) returns (err: bool)
      requires name in machines
      modifies this`machines
      ensures machines == if err then old(machines)
                          else old(machines)[name := UpdatedMachine(old(machines)[name], kcp.spec.template)]
      ensures reliable ==> !err
    {
      var updated := RolloutVerdict.ComputeDesiredMachine(kcp, machines[name].failureDomain, Some(machines[name]));
      err := ApiFails(reliable);
      if !err {
        machines := machines[name := updated];
      }
    }

    /** Applies the annotations of the template to the infrastructure object of a machine. */
    method UpdateExternalObject(name: string) returns (err: bool)
      requires name in machines && machines[name].infra.Some?
      modifies this`machines
      ensures machines == if err then old(machines)
                          else old(machines)[name := UpdatedInfra(old(machines)[name], kcp.spec.template)]
      ensures reliable ==> !err
    {
      err := ApiFails(reliable);
      if !err {
        var annotations := RolloutVerdict.CopyAnnotations(machines[name].infra.value, kcp.spec.template.others);
        machines := machines[name := machines[name].(infra := Some(annotations))];
      }
    }

    // ---- creating a machine ------------------------------------------------------------------------

    /** All or nothing, unless the clean-up fails too. */
    method CloneConfigsAndGenerateMachine(failureDomain: string)
      returns (err: bool, name: string)
      modifies this
      ensures !err ==> Creates(old(State()), name, State()) && machines[name].failureDomain == failureDomain
      ensures err && cleansUp ==> State() == old(State())
      ensures err ==> Acted(old(State()), Leftover, 0, State())
      ensures reliable ==> !err
    {
      name := GenerateName(machines.Keys);
      var machine := RolloutVerdict.ComputeDesiredMachine(kcp, failureDomain, None);
      var infraRef, cloned := CloneInfrastructure();
      if infraRef.None? {
        err := true;
        return;
      }
      var configRef, config := GenerateKThreesConfig();
      machine := machine.(infra := Some(cloned), config := ConfigFound(config));
      err := configRef.None?;
      if !err {
        err := CreateMachine(name, machine);
      }
      if err {
        RefsOf(infraRef, configRef);
        var _ := CleanupFromGeneration([infraRef, configRef]);
      }
    }

    method CloneInfrastructure() returns (ref: Option<Ref>, cloned: Annotations)
      modifies this`infra
      ensures ref.None? ==> infra == old(infra)
      ensures ref.Some? ==> ref.value.Infra? && ref.value.name !in old(infra) && infra == old(infra) + {ref.value.name}
      ensures CLONED_FROM_NAME in cloned && cloned[CLONED_FROM_NAME] == kcp.spec.infraName
      ensures CLONED_FROM_GROUP_KIND in cloned && cloned[CLONED_FROM_GROUP_KIND] == kcp.spec.infraGroupKind
      ensures reliable ==> ref.Some?
    {
      var own: Annotations := *;
      cloned := RolloutVerdict.CreateFromTemplate(own, kcp.spec);
      ref := None;
      var err := ApiFails(reliable);
      if !err {
        var name := GenerateName(infra);
        ref, infra := Some(Infra(name)), infra + {name};
      }
    }

    /** The bootstrap config of a new machine has the config of the spec. */
    method GenerateKThreesConfig() returns (ref: Option<Ref>, config: ConfigSpec)
      modifies this`configs
      ensures config == kcp.spec.config
      ensures ref.None? ==> configs == old(configs)
      ensures ref.Some? ==>
                ref.value.Config? && ref.value.name !in old(configs) && configs == old(configs) + {ref.value.name}
      ensures reliable ==> ref.Some?
    {
      ref, config := None, kcp.spec.config;
      var err := ApiFails(reliable);
      if !err {
        var name := GenerateName(configs);
        ref, configs := Some(Config(name)), configs + {name};
      }
    }

    /** The API server stamps the machine with the time, in whole seconds. */
    method CreateMachine(name: string, machine: Machine) returns (err: bool)
      modifies this`machines, this`kcp
      ensures err ==> State() == old(State())
      ensures !err ==>
                && name in machines && machines == old(machines)[name := machine.(created := machines[name].created)]
                && NotBefore(machines[name].created, now)
                && kcp == old(kcp).(pending := Absent)
      ensures reliable ==> !err
    {
      err := ApiFails(reliable);
      if !err {
        var later: nat := *;
        var created := InSeconds(now + later);
        machines := machines[name := machine.(created := created)];
        kcp := kcp.(pending := Absent);
        StampedLater(now, later);
      }
    }

    function InfraOf(refs: seq<Option<Ref>>): set<string> {
      set r | r in refs && r.Some? && r.value.Infra? :: r.value.name
    }

    function ConfigsOf(refs: seq<Option<Ref>>): set<string> {
      set r | r in refs && r.Some? && r.value.Config? :: r.value.name
    }

    lemma RefsOf(infraRef: Option<Ref>, configRef: Option<Ref>)
      requires infraRef.Some? && infraRef.value.Infra? && (configRef.Some? ==> configRef.value.Config?)
      ensures InfraOf([infraRef, configRef]) == {infraRef.value.name}
      ensures ConfigsOf([infraRef, configRef]) == if configRef.Some? then {configRef.value.name} else {}
    {
      assert [infraRef, configRef][0] == infraRef && [infraRef, configRef][1] == configRef;
    }

    method CleanupFromGeneration(refs: seq<Option<Ref>>) returns (err: bool)
      modifies this`infra, this`configs
      ensures old(infra) - InfraOf(refs) <= infra <= old(infra)
      ensures old(configs) - ConfigsOf(refs) <= configs <= old(configs)
      ensures !err ==> infra == old(infra) - InfraOf(refs) && configs == old(configs) - ConfigsOf(refs)
      ensures cleansUp ==> !err
    {
      err := false;
      for i := 0 to |refs|
        invariant old(infra) - InfraOf(refs[..i]) <= infra <= old(infra)
        invariant old(configs) - ConfigsOf(refs[..i]) <= configs <= old(configs)
        invariant cleansUp ==> !err
        invariant !err ==> infra == old(infra) - InfraOf(refs[..i]) && configs == old(configs) - ConfigsOf(refs[..i])
      {
        assert refs[..i + 1] == refs[..i] + [refs[i]];
        if refs[i].None? {
          continue;
        }
        var getFails := ApiFails(cleansUp);
        var deleteFails := ApiFails(cleansUp);
        if getFails || deleteFails {
          err := true;
          continue;
        }
        match refs[i].value {
          case Infra(name) => infra := infra - {name};
          case Config(name) => configs := configs - {name};
        }
      }
      assert refs[..|refs|] == refs;
    }

    // ---- scaling -------------------------------------------------------------------------------------

    method InitializeControlPlane(failureDomain: string) returns (err: bool, ghost e: Effect)
      requires InitialCreation(State())
      modifies this
      ensures !e.Remediated? && Acted(old(State()), e, 0, State())
      ensures !err ==> e.Grown?
      ensures Placed(State(), e, failureDomain)
      ensures err && cleansUp ==> State() == old(State())
      ensures reliable ==> !err
    {
      var readFails := ApiFails(reliable);
      if readFails || |machines| > 0 {
        return true, Nothing;
      }
      var name;
      err, name := CloneConfigsAndGenerateMachine(failureDomain);
      e := if err then Leftover else Grown(name);
    }

    method ScaleUpControlPlane(failureDomain: string) returns (err: bool, ghost e: Effect)
      requires WantsGrow(State()) && machines != map[]
      modifies this
      ensures !e.Remediated? && Acted(old(State()), e, 0, State())
      ensures !err ==> Decided(old(State()), e)
      ensures Placed(State(), e, failureDomain)
      ensures err && cleansUp ==> State() == old(State())
      ensures reliable ==> !err
    {
      var pass := PreflightChecks(State(), {});
      if !pass {
        return false, Nothing;
      }
      var name;
      err, name := CloneConfigsAndGenerateMachine(failureDomain);
      e := if err then Leftover else Grown(name);
    }

    method ScaleDownControlPlane(outdated: set<string>, domains: set<string>) returns (err: bool, ghost e: Effect)
      requires WantsShrink(State()) && !WantsGrow(State()) && outdated == NeedingRollout(State())
      requires workload.Valid()
      modifies this`machines, workload`leader
      ensures workload.Valid()
      ensures !e.Remediated? && Acted(old(State()), e, 0, State())
      ensures !err ==> DecidedOn(old(State()), domains, e)
      ensures reliable && picksCandidate && (kcp.etcdManaged ==> workload.reliable && old(EtcdInOrder())) ==> !err
      ensures e.Shrunk? && kcp.etcdManaged ==>
                MovedToNewest(old(machines), e.name, workload.members, old(workload.leader), workload.leader)
    {
      var selected := SelectMachineForScaleDown(machines, outdated, domains, picksCandidate);
      if selected.None? {
        return true, Nothing;
      }
      var name := selected.value;
      var pass := PreflightChecks(State(), {name});
      if !pass {
        return false, Nothing;
      }
      assert name !in Deleting(machines);
      if kcp.etcdManaged {
        err, e := HandOverAndDelete(name);
        return;
      }
      err := DeleteMachine(name);
      e := if err then Nothing else Shrunk(name);
    }

    method HandOverAndDelete(name: string) returns (err: bool, ghost e: Effect)
      requires workload.Valid() && kcp.etcdManaged
      requires MayShrink(State(), name) && name in machines && !machines[name].deleting
      modifies this`machines, workload`leader
      ensures workload.Valid()
      ensures !e.Remediated? && Acted(old(State()), e, 0, State())
      ensures if e.Shrunk? then e == Shrunk(name) else err
      ensures e.Shrunk? ==>
                MovedToNewest(old(machines), name, workload.members, old(workload.leader), workload.leader)
      ensures reliable && workload.reliable && old(EtcdInOrder()) ==> !err
    {
      err := HandOverEtcd(name);
      if err {
        return true, Nothing;
      }
      err := DeleteMachine(name);
      e := if err then Hooked(name) else Shrunk(name);
      HookedAndDeleted(old(State()), name, e, State());
    }

    method HandOverEtcd(name: string) returns (err: bool)
      requires workload.Valid() && name in machines
      modifies this`machines, workload`leader
      ensures workload.Valid()
      ensures machines == if err then old(machines) else old(machines)[name := old(machines)[name].(hook := true)]
      ensures !err ==> MovedToNewest(old(machines), name, workload.members, old(workload.leader), workload.leader)
      ensures reliable && workload.reliable && old(EtcdInOrder()) ==> !err
    {
      err := MoveLeadershipToNewest(name);
      if !err {
        err := AddHook(name);
      }
    }

    /** The leader stays where it is when the machine that goes is the newest itself. */
    method MoveLeadershipToNewest(name: string) returns (err: bool)
      requires workload.Valid() && name in machines
      modifies workload`leader
      ensures workload.Valid()
      ensures !err ==> MovedToNewest(machines, name, workload.members, old(workload.leader), workload.leader)
      ensures workload.reliable && old(EtcdInOrder()) ==> !err
    {
      var candidate := Extreme(machines, machines.Keys, true);
      if EtcdInOrder() {
        InOrder(candidate.value);
      }
      err := workload.ForwardEtcdLeadership(machines[name].nodeRef, Some(machines[candidate.value].nodeRef));
    }

    method DeleteMachine(name: string) returns (err: bool)
      requires name in machines
      modifies this`machines
      ensures machines == if err then old(machines) else old(machines)[name := old(machines)[name].(deleting := true)]
      ensures reliable ==> !err
    {
      err := ApiFails(reliable);
      if !err {
        machines := machines[name := machines[name].(deleting := true)];
      }
    }

    method AddHook(name: string) returns (err: bool)
      requires name in machines
      modifies this`machines
      ensures machines == if err then old(machines) else old(machines)[name := old(machines)[name].(hook := true)]
      ensures reliable ==> !err
    {
      err := ApiFails(reliable);
      if !err {
        machines := machines[name := machines[name].(hook := true)];
      }
    }

    // ---- remediation -----------------------------------------------------------------------------------

    /** The machine is patched at the end in any case, so there can be an error although it is remediated. */
    method ReconcileUnhealthyMachines(now: int) returns (stop: bool, err: bool, ghost e: Effect)
      requires workload.Valid()
      modifies this`machines, this`kcp, workload`leader
      ensures workload.Valid()
      ensures Acted(old(State()), e, now, State())
      ensures stop <==> e.Remediated?
      ensures !stop && !err ==> e == Nothing && workload.leader == old(workload.leader)
      ensures !stop && !err ==> NoneToRemediate(old(State()), workload.members, now)
      ensures e.Remediated? ==> IsRemediationTarget(old(machines), e.name)
      ensures e.Remediated? && DistinctNodeRefs(old(machines)) ==>
                !MustWait(old(State()), workload.members, e.name, now)
      ensures e.Remediated? && old(kcp).initialized && old(kcp).etcdManaged ==>
                EtcdSafe(old(machines), e.name, workload.members, workload.leader)
      ensures e.Remediated? && old(kcp).initialized && old(kcp).etcdManaged ==>
                MovedToHealthy(old(machines), e.name, workload.members, old(workload.leader), workload.leader)
      ensures (reliable && NoneCorrupt(old(machines))
               && (kcp.etcdManaged ==> workload.reliable && old(EtcdInOrder()))) ==> !err
    {
      stop, e := false, Nothing;
      err := CleanUpRecovered();
      if err {
        return;
      }
      var target := MachineToBeRemediated(machines);
      if target.None? || machines[target.value].deleting || !kcp.pending.Absent? {
        return;
      }
      stop, err, e := AttemptRemediation(target.value, now);
      var patchFails := ApiFails(reliable);
      err := err || patchFails;
    }

    /** Patches the machines that have recovered. */
    method CleanUpRecovered() returns (err: bool)
      ensures reliable ==> !err
    {
      err := ApiFails(reliable);
    }

    method AttemptRemediation(name: string, now: int) returns (stop: bool, err: bool, ghost e: Effect)
      requires workload.Valid() && name in machines && machines[name].unhealthy && !machines[name].deleting
      requires kcp.pending.Absent?
      modifies this`machines, this`kcp, workload`leader
      ensures workload.Valid()
      ensures Acted(old(State()), e, now, State())
      ensures stop <==> e.Remediated?
      ensures !stop && !err ==> e == Nothing && workload.leader == old(workload.leader)
      ensures !stop && !err ==> MustWait(old(State()), workload.members, name, now)
      ensures e.Remediated? ==> !err && e.name == name
      ensures e.Remediated? && DistinctNodeRefs(old(machines)) ==> !MustWait(old(State()), workload.members, name, now)
      ensures e.Remediated? && old(kcp).initialized && old(kcp).etcdManaged ==>
                EtcdSafe(old(machines), e.name, workload.members, workload.leader)
      ensures e.Remediated? && old(kcp).initialized && old(kcp).etcdManaged ==>
                MovedToHealthy(old(machines), e.name, workload.members, old(workload.leader), workload.leader)
      ensures (reliable && NoneCorrupt(old(machines))
               && (kcp.etcdManaged ==> workload.reliable && old(EtcdInOrder()))) ==> !err
    {
      stop, err, e := false, false, Nothing;
      var verdict := Remediation.CheckRetryLimits(name, machines[name].remediationFor, kcp.strategy, now);
      if verdict.Failed? {
        return false, true, Nothing;
      }
      if verdict.Wait? {
        return;
      }
      var proceed;
      proceed, err := ClearedForRemoval(name);
      if err || !proceed {
        return;
      }
      stop, e := Remediate(name, verdict.data, now);
      err := !stop;
    }

    /** Adds the hook where etcd is managed, deletes the machine and records the remediation. */
    method Remediate(name: string, data: RemediationData, now: int) returns (done: bool, ghost e: Effect)
      requires name in machines && MayRemediate(State(), name)
      requires Remediation.Permitted(name, machines[name].remediationFor, kcp.strategy, now, data)
      modifies this`machines, this`kcp
      ensures Acted(old(State()), e, now, State())
      ensures if done then e == Remediated(name, data) else !e.Remediated?
      ensures reliable ==> done
    {
      var managed := kcp.initialized && kcp.etcdManaged;
      if managed {
        var hookFails := AddHook(name);
        if hookFails {
          return false, Nothing;
        }
      }
      var deleteFails := DeleteMachine(name);
      if deleteFails {
        return false, if managed then Hooked(name) else Nothing;
      }
      kcp := kcp.(pending := Remediation.Marshal(data));
      return true, Remediated(name, data);
    }

    /** The checks that apply once the control plane is initialised. */
    method ClearedForRemoval(name: string) returns (proceed: bool, err: bool)
      requires workload.Valid() && name in machines && machines[name].unhealthy && !machines[name].deleting
      requires kcp.pending.Absent?
      modifies workload`leader
      ensures workload.Valid()
      ensures proceed ==> MayRemediate(State(), name)
      ensures !proceed && !err ==> HeldBack(State(), workload.members, name) && workload.leader == old(workload.leader)
      ensures proceed && !err && DistinctNodeRefs(machines) ==> !HeldBack(State(), workload.members, name)
      ensures proceed && !err && kcp.initialized && kcp.etcdManaged ==>
                && EtcdSafe(machines, name, workload.members, workload.leader)
                && MovedToHealthy(machines, name, workload.members, old(workload.leader), workload.leader)
      ensures reliable && (kcp.etcdManaged ==> workload.reliable && old(EtcdInOrder())) ==> !err
    {
      if !kcp.initialized {
        return true, false;
      }
      assert forall n | n in machines && machines[n].deleting :: n in Deleting(machines);
      if |machines| <= 1
         || (exists n | n in machines :: !machines[n].unhealthy && machines[n].nodeRef.None?)
         || Deleting(machines) != {} {
        return false, false;
      }
      if !kcp.etcdManaged {
        err := ApiFails(reliable);
        return !err, err;
      }
      proceed, err := PrepareEtcdForRemoval(name);
    }

    /** Checks quorum and moves leadership to the newest healthy machine. */
    method PrepareEtcdForRemoval(name: string) returns (proceed: bool, err: bool)
      requires workload.Valid() && name in machines && machines[name].unhealthy
      modifies workload`leader
      ensures workload.Valid()
      ensures proceed && !err ==>
                && EtcdSafe(machines, name, workload.members, workload.leader)
                && MovedToHealthy(machines, name, workload.members, old(workload.leader), workload.leader)
                && Healthy(machines) != {}
      ensures !proceed && !err ==>
                && workload.leader == old(workload.leader)
                && ((DistinctNodeRefs(machines) ==> !MajorityBut(machines, workload.members, machines[name].nodeRef))
                    || forall n | n in machines :: machines[n].unhealthy)
      ensures workload.reliable && old(EtcdInOrder()) ==> !err
    {
      proceed, err := false, false;
      var members := workload.EtcdMembers();
      if members.None? {
        return false, true;
      }
      assert members.value == Remediation.NameList(workload.members);
      var safe := Remediation.CanSafelyRemoveEtcdMember(members.value, machines, machines[name].nodeRef);
      if !safe {
        return;
      }
      var candidate := Extreme(machines, Healthy(machines), true);
      if candidate.None? {
        assert forall n | n in machines :: n !in Healthy(machines);
        return;
      }
      assert candidate.value in Healthy(machines);
      if EtcdInOrder() {
        InOrder(candidate.value);
      }
      err := workload.ForwardEtcdLeadership(machines[name].nodeRef, Some(machines[candidate.value].nodeRef));
      proceed := !err;
      if proceed && machines[name].nodeRef.Some? && DistinctNodeRefs(machines)
         && Etcd.DistinctNodes(workload.members)
      {
        LeadershipKeptExactly(machines, Healthy(machines), name, workload.members,
                              old(workload.leader), workload.leader);
      }
    }

    // ---- etcd members ------------------------------------------------------------------------------------

    /** Skips the call when the last conditions pass found the etcd cluster healthy. While all members are
        on the nodes of machines nothing is removed either way, and the only error is one of connecting. */
    method ReconcileEtcdMembers() returns (err: bool, ghost connected: bool)
      requires workload.Valid()
      modifies workload`members, workload`leader
      ensures workload.Valid()
      ensures MembersReconciled(State(), old(workload.members), workload.members)
      ensures forall t: Option<string> :: MajorityBut(machines, old(workload.members), t) ==>
                MajorityBut(machines, workload.members, t)
      ensures |workload.nodes| < 2 ==> workload.members == old(workload.members)
      ensures SkipsMembers(State()) ==>
                !err && workload.members == old(workload.members) && workload.leader == old(workload.leader)
      ensures (!kcp.etcdManaged || machines == map[] || kcp.etcdClusterHealthy == CondTrue
               || (exists n | n in machines :: machines[n].nodeRef.None?)) ==> SkipsMembers(State())
      ensures !connected ==> workload.members == old(workload.members) && workload.leader == old(workload.leader)
      ensures Etcd.Names(old(workload.members)) <= NodeRefs(machines) ==>
                && workload.members == old(workload.members) && workload.leader == old(workload.leader)
                && (err <==> !SkipsMembers(State()) && !connected)
      ensures workload.reliable && !SkipsMembers(State()) ==> connected
      ensures (workload.reliable && kcp.etcdManaged && machines != map[] && kcp.etcdClusterHealthy != CondTrue
               && (forall n | n in machines :: machines[n].nodeRef.Some?) && |workload.nodes| >= 2) ==>
                !err && OnlyBelonging(machines, old(workload.members), workload.members)
    {
      connected := false;
      if !kcp.etcdManaged || |machines| == 0 {
        return false, connected;
      }
      var nodeNames: seq<string> := [];
      var todo := machines.Keys;
      while todo != {}
        invariant todo <= machines.Keys
        invariant forall n | n in machines && n !in todo ::
                    machines[n].nodeRef.Some? && machines[n].nodeRef.value in nodeNames
        invariant forall node | node in nodeNames :: node in NodeRefs(machines)
        decreases todo
      {
        var n :| n in todo;
        todo := todo - {n};
        if machines[n].nodeRef.None? {
          return false, connected;
        }
        nodeNames := nodeNames + [machines[n].nodeRef.value];
      }
      if kcp.etcdClusterHealthy == CondTrue {
        return false, connected;
      }
      var connectFails := ApiFails(workload.reliable);
      if connectFails {
        return true, connected;
      }
      connected := true;
      assert ListsNodes(nodeNames, machines);
      ghost var before := workload.members;
      if Etcd.Names(before) <= NodeRefs(machines) {
        NoneStaleAmong(machines, before, nodeNames);
      }
      var removed;
      ghost var answered;
      removed, err, answered := workload.ReconcileEtcdMembers(nodeNames);
      if workload.members == Etcd.Kept(before, nodeNames) {
        forall m ensures m in workload.members <==> m in before && Belongs(m, machines) {
          Etcd.KeptMembers(before, nodeNames, m);
        }
      }
      forall t: Option<string> | MajorityBut(machines, before, t) ensures MajorityBut(machines, workload.members, t) {
        ReconciledMembers(State(), before, workload.members, t);
      }
    }

    // ---- one reconcile -------------------------------------------------------------------------------------

    /** The conditions pass; there is nobody to ask before the control plane is initialised. When it is
        performed with truthful answers, and finds the etcd cluster healthy with all machines provisioned, the
        members are exactly those on the nodes of machines, unless no node was listed. */
    method ReconcileControlPlaneConditions(report: Report) returns (err: bool, ghost passed: bool)
      modifies this`machines, this`kcp
      ensures Observed(old(State()), State())
      ensures reliable ==> !err
      ensures passed && kcp.etcdClusterHealthy == CondTrue && !HasProvisioning(machines)
                && report.nodes.Some? && Truthful(report, workload.members) ==>
                  report.nodes.value == [] || Etcd.Names(workload.members) == NodeRefs(machines)
      ensures !passed ==> State() == old(State())
      ensures passed ==> ReportTaken(report, old(State()), State())
      ensures !err && kcp.initialized ==> passed
    {
      passed := false;
      if !kcp.initialized {
        return false, passed;
      }
      var connectFails := ApiFails(reliable);
      if connectFails {
        return true, passed;
      }
      ghost var members;
      machines, kcp, members := Inspect(machines, kcp, report);
      passed := true;
      err := ApiFails(reliable);
    }

    static method Inspect(before: Machines, kcp: Kcp, report: Report)
      returns (after: Machines, kcp': Kcp, ghost members: Option<seq<Etcd.Member>>)
      ensures after.Keys == before.Keys
      ensures forall n | n in before ::
                after[n] == before[n].(agentHealthy := after[n].agentHealthy, etcdHealthy := after[n].etcdHealthy)
      ensures kcp' == kcp.(componentsHealthy := kcp'.componentsHealthy, etcdClusterHealthy := kcp'.etcdClusterHealthy)
      ensures members.Some? ==> EtcdConditions.Listed(members.value) in report.answers.Values
      ensures Taken(report, before, kcp, after, kcp')
      ensures kcp'.etcdClusterHealthy == CondTrue && !HasProvisioning(after) && report.nodes.Some?
               && report.nodes.value != [] ==>
                members.Some? && Etcd.Names(members.value) == NodeRefs(after)
    {
      var ms, components := InspectAgents(before, kcp.componentsHealthy, report);
      var etcd, listed;
      ghost var clusterID;
      after, etcd, listed, clusterID := InspectMembers(ms, kcp.etcdClusterHealthy, report);
      members := listed;
      BothPasses(before, ms, after);
      EtcdConditions.SameHosts(ms, after);
      kcp' := kcp.(componentsHealthy := components, etcdClusterHealthy := etcd);
      TakenInTurn(report, before, kcp, ms, after, kcp', listed, clusterID);
    }

    static method InspectAgents(ms: Machines, current: Cond, report: Report) returns (ms': Machines, healthy: Cond)
      ensures HealthConditions.SameButAgent(ms, ms')
      ensures HealthConditions.AgentsUpdated(ms, current, report.agents, ms', healthy)
    {
      var complete;
      ghost var k;
      ms', healthy, complete, k := HealthConditions.UpdateAgentConditions(ms, current, report.agents);
    }

    static method InspectMembers(ms: Machines, current: Cond, report: Report)
      returns (ms': Machines, healthy: Cond, members: Option<seq<Etcd.Member>>, ghost clusterID: Option<nat>)
      ensures EtcdConditions.SameButEtcd(ms, ms')
      ensures EtcdConditions.EtcdUpdated(ms, current, report.nodes, report.answers, ms', healthy, members, clusterID)
      ensures members.Some? ==> EtcdConditions.Listed(members.value) in report.answers.Values
      ensures healthy == CondTrue && !HasProvisioning(ms) && report.nodes.Some? && report.nodes.value != [] ==>
                members.Some? && Etcd.Names(members.value) == NodeRefs(ms)
    {
      var known;
      ms', healthy, members, known :=
        EtcdConditions.UpdateManagedEtcdConditions(ms, current, report.nodes, report.answers);
      clusterID := known;
      if members.Some? {
        ghost var node :| node in report.nodes.value
                          && EtcdConditions.AnswerOf(node, report.answers) == EtcdConditions.Listed(members.value);
        assert report.answers[node] == EtcdConditions.Listed(members.value);
      }
    }

    /** Reads the configs of the machines and filters. */
    method MachinesNeedingRollout() returns (needRollout: set<string>)
      ensures needRollout == NeedingRollout(State())
    {
      var read := RolloutVerdict.GetKThreesConfigs(machines);
      needRollout := RolloutVerdict.MachinesNeedingRollout(State(), read);
    }

    method UpgradeControlPlane(needRollout: set<string>, domains: set<string>, failureDomain: string)
      returns (err: bool, ghost e: Effect)
      requires workload.Valid() && needRollout == NeedingRollout(State()) && needRollout != {}
      modifies this, workload`leader
      ensures workload.Valid()
      ensures !e.Remediated? && Acted(old(State()), e, 0, State())
      ensures !err ==> DecidedOn(old(State()), domains, e)
      ensures Placed(State(), e, failureDomain)
      ensures (reliable && picksCandidate
               && (old(kcp).etcdManaged ==> workload.reliable && old(EtcdInOrder()))) ==> !err
    {
      assert machines != map[];
      if |machines| <= kcp.replicas {
        err, e := ScaleUpControlPlane(failureDomain);
      } else {
        err, e := ScaleDownControlPlane(needRollout, domains);
      }
    }

    /** Rollout takes precedence over scaling. */
    method ReconcileReplicas(domains: set<string>, failureDomain: string) returns (err: bool, ghost e: Effect)
      requires workload.Valid()
      modifies this, workload`leader
      ensures workload.Valid()
      ensures !e.Remediated? && Acted(old(State()), e, 0, State())
      ensures !err ==> DecidedOn(old(State()), domains, e)
      ensures Placed(State(), e, failureDomain)
      ensures (reliable && picksCandidate
               && (old(kcp).etcdManaged ==> workload.reliable && old(EtcdInOrder()))) ==> !err
    {
      var needRollout := MachinesNeedingRollout();
      if needRollout != {} {
        err, e := UpgradeControlPlane(needRollout, domains, failureDomain);
        return;
      }
      var numMachines, desiredReplicas := |machines|, kcp.replicas;
      if numMachines < desiredReplicas && numMachines == 0 {
        err, e := InitializeControlPlane(failureDomain);
      } else if numMachines < desiredReplicas {
        err, e := ScaleUpControlPlane(failureDomain);
      } else if numMachines > desiredReplicas {
        err, e := ScaleDownControlPlane({}, domains);
      } else {
        err, e := false, Nothing;
      }
    }

    /** Members first, then remediation, then rollout and scaling. */
    method Act(at: int, domains: set<string>, failureDomain: string) returns (err: bool, ghost e: Effect)
      requires workload.Valid()
      modifies this, workload`members, workload`leader
      ensures workload.Valid()
      ensures Acted(old(State()), e, at, State())
      ensures !err && !e.Remediated? ==>
                DecidedOn(old(State()), domains, e) && NoneToRemediate(old(State()), workload.members, at)
      ensures e.Remediated? ==> IsRemediationTarget(old(machines), e.name)
      ensures Placed(State(), e, failureDomain)
      ensures MembersReconciled(old(State()), old(workload.members), workload.members)
      ensures SkipsMembers(old(State())) ==> workload.members == old(workload.members)
      ensures !err && workload.reliable && |workload.nodes| >= 2 && !SkipsMembers(old(State())) ==>
                OnlyBelonging(old(machines), old(workload.members), workload.members)
      ensures e.Remediated? && old(kcp).initialized && old(kcp).etcdManaged ==>
                EtcdSafe(old(machines), e.name, workload.members, workload.leader)
      ensures (reliable && picksCandidate && NoneCorrupt(old(machines))
               && (old(kcp).etcdManaged ==> workload.reliable && old(EtcdInOrder()))) ==> !err
    {
      e := Nothing;
      ghost var connected;
      err, connected := ReconcileEtcdMembers();
      if err {
        return;
      }
      var stop;
      stop, err, e := ReconcileUnhealthyMachines(at);
      if err || stop {
        return;
      }
      err, e := ReconcileReplicas(domains, failureDomain);
    }

    /** One reconcile. If its premises are met it updates machines in place, which takes the state to
        t.synced; the conditions pass takes it to t.seen; members are reconciled; at most one action takes
        the state to t.acted, at time `at`; and the status update ends it. Without an error, and unless a
        machine was remediated, the action is the one that t.seen calls for. When the pass found the etcd
        cluster healthy, leaving the members alone loses nothing: they are exactly those on the machines'
        nodes, or no node was listed. */
    method Reconcile(premises: Premises, at: int, report: Report, domains: set<string>, failureDomain: string)
      returns (err: bool, ghost t: Trace)
      requires workload.Valid()
      modifies this, workload`members, workload`leader
      ensures workload.Valid()
      ensures Synced(old(State()), t.synced) && Observed(t.synced, t.seen)
      ensures Acted(t.seen, t.e, at, t.acted) && StatusUpdated(t.acted, State())
      ensures t.e.Remediated? && t.seen.kcp.initialized && t.seen.kcp.etcdManaged ==>
                EtcdSafe(t.seen.machines, t.e.name, workload.members, workload.leader)
      ensures !premises.Met() ==> t.acted == old(State()) && t.e == Nothing && workload.members == old(workload.members)
      ensures !err && premises.Met() ==> Accomplished(old(State()), t, at, report, domains, workload.members)
      ensures (!err && premises.Met() && workload.reliable && |workload.nodes| >= 2 && !SkipsMembers(t.seen)) ==>
                OnlyBelonging(t.seen.machines, old(workload.members), workload.members)
      ensures t.e.Remediated? ==> IsRemediationTarget(t.seen.machines, t.e.name)
      ensures Placed(t.acted, t.e, failureDomain)
      ensures MembersReconciled(t.seen, old(workload.members), workload.members)
      ensures FoundHealthy(report, t, old(workload.members)) ==>
                && workload.members == old(workload.members)
                && (report.nodes.value == [] || Etcd.Names(workload.members) == NodeRefs(t.seen.machines))
      ensures (reliable && picksCandidate && AllReadable(old(State()))
               && (old(kcp).etcdManaged ==> workload.reliable && old(EtcdInOrder()))) ==> !err
      ensures !err && premises.Admitted() && premises.finalizer && reliable && workload.reliable ==>
                (kcp.initialized <==> t.acted.kcp.initialized || report.servingSecret)
    {
      err := false;
      if premises.Admitted() {
        err := ApiFails(reliable);
      }
      if err || !premises.Admitted() || !premises.finalizer {
        t := Idle(State());
        return;
      }
      err, t := ReconcileNormal(premises, at, report, domains, failureDomain);
      ghost var reached;
      var updateFails;
      updateFails, reached := UpdateStatus(report.servingSecret);
      err := err || updateFails;
    }

    /** Everything but the status update. */
    method ReconcileNormal(premises: Premises, at: int, report: Report, domains: set<string>, failureDomain: string)
      returns (err: bool, ghost t: Trace)
      requires workload.Valid() && premises.Admitted() && premises.finalizer
      modifies this, workload`members, workload`leader
      ensures workload.Valid()
      ensures Synced(old(State()), t.synced) && Observed(t.synced, t.seen)
      ensures Acted(t.seen, t.e, at, t.acted) && t.acted == State()
      ensures t.e.Remediated? && t.seen.kcp.initialized && t.seen.kcp.etcdManaged ==>
                EtcdSafe(t.seen.machines, t.e.name, workload.members, workload.leader)
      ensures !premises.Met() ==> t.acted == old(State()) && t.e == Nothing && workload.members == old(workload.members)
      ensures !err && premises.Met() ==> Accomplished(old(State()), t, at, report, domains, workload.members)
      ensures (!err && premises.Met() && workload.reliable && |workload.nodes| >= 2 && !SkipsMembers(t.seen)) ==>
                OnlyBelonging(t.seen.machines, old(workload.members), workload.members)
      ensures t.e.Remediated? ==> IsRemediationTarget(t.seen.machines, t.e.name)
      ensures Placed(t.acted, t.e, failureDomain)
      ensures MembersReconciled(t.seen, old(workload.members), workload.members)
      ensures FoundHealthy(report, t, old(workload.members)) ==>
                && workload.members == old(workload.members)
                && (report.nodes.value == [] || Etcd.Names(workload.members) == NodeRefs(t.seen.machines))
      ensures AllReadable(old(State())) ==> AllReadable(State())
      ensures (reliable && picksCandidate && AllReadable(old(State()))
               && (old(kcp).etcdManaged ==> workload.reliable && old(EtcdInOrder()))) ==> !err
    {
      t := Idle(State());
      err := ApiFails(reliable);
      if err || !premises.endpointSet {
        return;
      }
      err := ApiFails(reliable);
      if err || premises.adoptable || !premises.allOwned {
        return;
      }
      ghost var before := State();
      err, t := ReconcileMachines(at, report, domains, failureDomain);
      RecordsStayReadable(before, t.synced, t.seen);
      RecordsStayReadableAfter(t.seen, t.e, at, t.acted);
    }

    /** Ends every reconcile. That the workload cluster cannot be reached is no error; that a record in use
        cannot be decoded is one. */
    method UpdateStatus(hasServingSecret: bool) returns (err: bool, ghost reached: bool)
      modifies this`kcp
      ensures reached ==> (kcp.initialized <==> old(kcp).initialized || hasServingSecret)
      ensures reliable && workload.reliable ==> reached
      ensures StatusUpdated(old(State()), State())
      ensures !reached ==> State() == old(State())
      ensures reached ==> (err <==> kcp.pending.Corrupt? || (kcp.pending.Absent? && !NoneCorrupt(machines)))
      ensures reliable && !reached ==> !err
    {
      reached := false;
      err := ApiFails(reliable);
      if err {
        return;
      }
      var connectFails := ApiFails(workload.reliable);
      if connectFails {
        return;
      }
      reached := true;
      if hasServingSecret {
        kcp := kcp.(initialized := true);
      }
      match kcp.pending {
        case Corrupt => err := true;
        case Record(_) =>
        case Absent => err := exists n | n in machines :: machines[n].remediationFor.Corrupt?;
      }
    }

    /** The part of a reconcile that deals with the machines. */
    method ReconcileMachines(at: int, report: Report, domains: set<string>, failureDomain: string)
      returns (err: bool, ghost t: Trace)
      requires workload.Valid()
      modifies this, workload`members, workload`leader
      ensures workload.Valid()
      ensures Synced(old(State()), t.synced) && Observed(t.synced, t.seen) && Acted(t.seen, t.e, at, t.acted)
      ensures t.acted == State()
      ensures t.e.Remediated? && t.seen.kcp.initialized && t.seen.kcp.etcdManaged ==>
                EtcdSafe(t.seen.machines, t.e.name, workload.members, workload.leader)
      ensures !err ==> Accomplished(old(State()), t, at, report, domains, workload.members)
      ensures !err && workload.reliable && |workload.nodes| >= 2 && !SkipsMembers(t.seen) ==>
                OnlyBelonging(t.seen.machines, old(workload.members), workload.members)
      ensures t.e.Remediated? ==> IsRemediationTarget(t.seen.machines, t.e.name)
      ensures Placed(t.acted, t.e, failureDomain)
      ensures MembersReconciled(t.seen, old(workload.members), workload.members)
      ensures FoundHealthy(report, t, old(workload.members)) ==>
                && workload.members == old(workload.members)
                && (report.nodes.value == [] || Etcd.Names(workload.members) == NodeRefs(t.seen.machines))
      ensures (reliable && picksCandidate && AllReadable(old(State()))
               && (old(kcp).etcdManaged ==> workload.reliable && old(EtcdInOrder()))) ==> !err
    {
      ghost var before := State();
      err, t := SyncAndInspect(report);
      if err {
        return;
      }
      RecordsStayReadable(before, t.synced, t.seen);
      SameNodeRefs(before, t.synced, t.seen);
      ghost var e;
      err, e := Act(at, domains, failureDomain);
      t := t.(e := e, acted := State());
    }

    /** What comes before the action. */
    method SyncAndInspect(report: Report) returns (err: bool, ghost t: Trace)
      modifies this`machines, this`kcp
      ensures Synced(old(State()), t.synced) && Observed(t.synced, t.seen)
      ensures t.e == Nothing && t.acted == t.seen == State()
      ensures !err ==> AllUpdated(old(State()), t.synced) && (t.synced.kcp.initialized ==> t.passed)
      ensures t.passed ==> ReportTaken(report, t.synced, t.seen)
      ensures FoundHealthy(report, t, workload.members) ==>
                report.nodes.value == [] || Etcd.Names(workload.members) == NodeRefs(t.seen.machines)
      ensures reliable ==> !err
    {
      t := Idle(State());
      err := ApiFails(reliable);
      if err {
        return;
      }
      err := SyncMachines();
      t := Idle(State());
      if err {
        return;
      }
      ghost var passed;
      err, passed := ReconcileControlPlaneConditions(report);
      t := t.(seen := State(), passed := passed, acted := State());
    }
  }

  // ---- leadership when scaling down --------------------------------------------------------------------

  /** The newest of two machines is marked for deletion and hosts the etcd leader. Scaling down may delete
      it, and then leadership has stayed on its member. */
  lemma LeaderScaledDown(s: State, members: seq<Etcd.Member>, leader': nat)
    requires s.machines.Keys == {"a", "b"} && s.kcp.replicas == 1 && s.kcp.etcdManaged
    requires s.machines["a"].created < s.machines["b"].created && s.machines["b"].deleteAnnotated
    requires !s.machines["a"].deleteAnnotated && NeedingRollout(s) == {}
    requires Stable(s, {}) && s.machines["a"].nodeRef == Some("a") && s.machines["b"].nodeRef == Some("b")
    requires members == [Etcd.Member(1, "a-1", 7, []), Etcd.Member(2, "b-1", 7, [])]
    ensures MayShrink(s, "b")
    ensures MovedToNewest(s.machines, "b", members, 2, leader') ==> Etcd.LeaderOn(members, leader', "b")
  {
    OnlyAnnotatedMayShrink(s, "a", "b");
    Etcd.NodeNameRoundTrip(members[0], "a", "1");
    Etcd.NodeNameRoundTrip(members[1], "b", "1");
    NewestOfTwoKeepsLeadership(s.machines, "a", "b", members, leader');
  }

  lemma NewestOfTwoKeepsLeadership(ms: Machines, a: string, b: string, members: seq<Etcd.Member>, leader': nat)
    requires a != b && ms.Keys == {a, b} && ms[a].created < ms[b].created
    requires ms[a].nodeRef == Some(a) && ms[b].nodeRef == Some(b) && |members| == 2 && members[0].id != members[1].id
    requires Etcd.NodeNameFromMember(members[0]) == a && Etcd.NodeNameFromMember(members[1]) == b
    ensures MovedToNewest(ms, b, members, members[1].id, leader') ==> Etcd.LeaderOn(members, leader', b)
  {
    if MovedToNewest(ms, b, members, members[1].id, leader') {
      assert members[1] in members;
      LeadershipKeptExactly(ms, ms.Keys, b, members, members[1].id, leader');
    }
  }

  lemma OnlyAnnotatedMayShrink(s: State, a: string, b: string)
    requires a != b && s.machines.Keys == {a, b} && s.kcp.replicas == 1
    requires !s.machines[a].deleteAnnotated && s.machines[b].deleteAnnotated && NeedingRollout(s) == {} && Stable(s, {})
    ensures MayShrink(s, b)
  {
    assert Annotated(s.machines, s.machines.Keys) == {b};
    assert |s.machines| == |{a, b}| == 2;
  }
}
