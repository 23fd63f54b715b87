// The pass that turns etcd member lists into health conditions of machines and of the control plane.
module EtcdConditions {
  import opened Options
  import opened ControlPlane
  import Etcd
  import HealthConditions
  import Remediation

  // What asking the etcd member of one node gives.
  datatype Answer = NoConnection | StatusErrors | NoMemberList | Listed(members: seq<Etcd.Member>)

  /** Only the etcd health of machines may differ. */
  ghost predicate SameButEtcd(before: Machines, after: Machines) {
    && before.Keys == after.Keys
    && forall n | n in before :: after[n] == before[n].(etcdHealthy := after[n].etcdHealthy)
  }

  lemma SameHosts(before: Machines, after: Machines)
    requires SameButEtcd(before, after)
    ensures NodeRefs(after) == NodeRefs(before) && (HasProvisioning(after) <==> HasProvisioning(before))
  {
  }

  function SetEtcd(ms: Machines, n: string, c: Cond): Machines
    requires n in ms
  {
    ms[n := ms[n].(etcdHealthy := c)]
  }

  function SetAll(ms: Machines, c: Cond): Machines { map n | n in ms :: ms[n].(etcdHealthy := c) }

  function EtcdHealth(ms: Machines): map<string, Cond> { map n | n in ms :: ms[n].etcdHealthy }

  predicate MemberEqual(a: seq<Etcd.Member>, b: seq<Etcd.Member>) { Etcd.Names(a) == Etcd.Names(b) }

  /** A provisioned machine whose node has no member. */
  predicate Memberless(m: Machine, members: seq<Etcd.Member>) {
    m.nodeRef.Some? && m.nodeRef.value !in Etcd.Names(members)
  }

  function Marked(m: Machine, members: seq<Etcd.Member>): Machine {
    if Memberless(m, members) then m.(etcdHealthy := CondFalse) else m
  }

  /** Such machines are marked unhealthy. */
  method MarkMissingMembers(ms: Machines, members: seq<Etcd.Member>) returns (ms': Machines)
    ensures ms'.Keys == ms.Keys && forall n | n in ms :: ms'[n] == Marked(ms[n], members)
    ensures forall n | n in ms :: ms'[n].etcdHealthy ==
              if ms[n].nodeRef.Some? && forall m | m in members :: Etcd.NodeNameFromMember(m) != ms[n].nodeRef.value
              then CondFalse else ms[n].etcdHealthy
  {
    ms' := ms;
    var todo := ms.Keys;
    while todo != {}
      invariant todo <= ms.Keys && ms'.Keys == ms.Keys
      invariant forall n | n in ms :: ms'[n] == if n in todo then ms[n] else Marked(ms[n], members)
      decreases todo
    {
      var n :| n in todo;
      todo := todo - {n};
      if ms[n].nodeRef.None? {
        continue;
      }
      var member := Etcd.MemberForName(members, ms[n].nodeRef.value);
      if member.None? {
        ms' := SetEtcd(ms', n, CondFalse);
      }
    }
  }

  /** The node names of members that no machine hosts. */
  method UnhostedMembers(ms: Machines, members: seq<Etcd.Member>) returns (errors: seq<string>)
    ensures errors == [] <==> Etcd.Names(members) <= NodeRefs(ms)
  {
    errors := [];
    for i := 0 to |members|
      invariant errors == [] <==> forall j | 0 <= j < i :: Etcd.NodeNameFromMember(members[j]) in NodeRefs(ms)
    {
      var name := Etcd.NodeNameFromMember(members[i]);
      var machine := Remediation.MachineForNode(ms, name);
      if machine.None? {
        errors := errors + [name];
      }
    }
    if errors != [] {
      var j :| 0 <= j < |members| && Etcd.NodeNameFromMember(members[j]) !in NodeRefs(ms);
      assert Etcd.NodeNameFromMember(members[j]) in Etcd.Names(members);
    }
  }

  /** Without a member list nothing is compared. */
  method CompareMachinesAndMembers(ms: Machines, members: Option<seq<Etcd.Member>>, kcpErrors: seq<string>)
    returns (ms': Machines, errors: seq<string>)
    ensures ms'.Keys == ms.Keys
    ensures forall n | n in ms :: ms'[n] == Compared(ms[n], members)
    ensures members.None? ==> ms' == ms
    ensures errors == [] <==> kcpErrors == [] && (members.Some? ==> Etcd.Names(members.value) <= NodeRefs(ms))
  {
    ms', errors := ms, kcpErrors;
    if members.Some? {
      ms' := MarkMissingMembers(ms, members.value);
      var unhosted := UnhostedMembers(ms, members.value);
      errors := errors + unhosted;
    }
  }

  // ---- the nodes, one after the other ----------------------------------------------------------------------

  predicate Hosts(node: string, m: Machine) { m.nodeRef == Some(node) }

  /** The node gives the member list that is known, and its own member in it has no alarm. */
  predicate Agrees(node: string, answer: Answer, members: Option<seq<Etcd.Member>>) {
    && answer.Listed? && members.Some? && MemberEqual(members.value, answer.members)
    && var member := Etcd.FirstFor(answer.members, node);
       member.Some? && forall alarm | alarm in member.value.alarms :: alarm == Etcd.AlarmOK
  }

  function ClusterOf(node: string, answer: Answer): nat
    requires answer.Listed? && Etcd.FirstFor(answer.members, node).Some?
  {
    Etcd.FirstFor(answer.members, node).value.clusterID
  }

  /** ... and its member belongs to the etcd cluster that is known. */
  predicate Fine(node: string, answer: Answer, members: Option<seq<Etcd.Member>>, clusterID: Option<nat>) {
    Agrees(node, answer, members) && clusterID == Some(ClusterOf(node, answer))
  }

  /** Checks one node against what is known so far: the first member list, and the cluster of the first
      node that agrees with it. */
  method CheckNode(node: string, answer: Answer, members: Option<seq<Etcd.Member>>, clusterID: Option<nat>)
    returns (fine: bool, members': Option<seq<Etcd.Member>>, clusterID': Option<nat>)
    ensures members' == if members.None? && answer.Listed? then Some(answer.members) else members
    ensures clusterID' == if clusterID.None? && Agrees(node, answer, members')
                          then Some(ClusterOf(node, answer)) else clusterID
    ensures fine <==> Fine(node, answer, members', clusterID')
    ensures fine <==>
              && answer.Listed? && members'.Some? && Etcd.Names(members'.value) == Etcd.Names(answer.members)
              && var own := Etcd.FirstFor(answer.members, node);
                 && own.Some? && clusterID' == Some(own.value.clusterID)
                 && forall alarm | alarm in own.value.alarms :: alarm == Etcd.AlarmOK
  {
    fine, members', clusterID' := false, members, clusterID;
    if !answer.Listed? {
      return;
    }
    if members'.None? {
      members' := Some(answer.members);
    }
    if !MemberEqual(members'.value, answer.members) {
      return;
    }
    var member := Etcd.MemberForName(answer.members, node);
    if member.None? {
      return;
    }
    if exists alarm | alarm in member.value.alarms :: alarm != Etcd.AlarmOK {
      return;
    }
    if clusterID'.None? {
      clusterID' := Some(member.value.clusterID);
    }
    fine := clusterID'.value == member.value.clusterID;
  }

  function AnswerOf(node: string, answers: map<string, Answer>): Answer {
    if node in answers then answers[node] else NoConnection
  }

  /** What a node says of a machine it hosts, given the member list and the cluster. */
  function Says(node: string, answers: map<string, Answer>, members: Option<seq<Etcd.Member>>, clusterID: Option<nat>,
                m: Machine): Cond
  {
    if !m.deleting && Fine(node, AnswerOf(node, answers), members, clusterID) then CondTrue else CondFalse
  }

  /** One node's share of the pass. */
  method InspectNode(ms: Machines, node: string, answers: map<string, Answer>,
                     members: Option<seq<Etcd.Member>>, clusterID: Option<nat>)
    returns (ms': Machines, orphan: bool, members': Option<seq<Etcd.Member>>, clusterID': Option<nat>,
             ghost host: Option<string>)
    ensures host.None? ==> node !in NodeRefs(ms) && ms' == ms && (orphan <==> !HasProvisioning(ms))
    ensures host.Some? ==>
              && host.value in ms && Hosts(node, ms[host.value]) && node in NodeRefs(ms) && !orphan
              && ms' == SetEtcd(ms, host.value, Says(node, answers, members', clusterID', ms[host.value]))
    ensures host.Some? ==>
              (ms'[host.value].etcdHealthy == CondTrue <==>
               !ms[host.value].deleting && Fine(node, AnswerOf(node, answers), members', clusterID'))
              && ms'[host.value].etcdHealthy in {CondTrue, CondFalse}
    ensures if host.None? || ms[host.value].deleting then members' == members && clusterID' == clusterID
            else Learnt(node, AnswerOf(node, answers), members, clusterID, members', clusterID')
  {
    var machine := Remediation.MachineForNode(ms, node);
    host := machine;
    if machine.None? {
      return ms, !HasProvisioning(ms), members, clusterID, host;
    }
    if ms[machine.value].deleting {
      return SetEtcd(ms, machine.value, CondFalse), false, members, clusterID, host;
    }
    var fine;
    fine, members', clusterID' := CheckNode(node, AnswerOf(node, answers), members, clusterID);
    ms', orphan := SetEtcd(ms, machine.value, if fine then CondTrue else CondFalse), false;
  }

  /** What is known after checking a node. */
  ghost predicate Learnt(node: string, answer: Answer, members: Option<seq<Etcd.Member>>, clusterID: Option<nat>,
                         members': Option<seq<Etcd.Member>>, clusterID': Option<nat>)
  {
    && members' == (if members.None? && answer.Listed? then Some(answer.members) else members)
    && clusterID' == (if clusterID.None? && Agrees(node, answer, members')
                      then Some(ClusterOf(node, answer)) else clusterID)
  }

  /** Every live machine's node among the first k that listed members has been taken into account. */
  ghost predicate Known(ms: Machines, nodes: seq<string>, k: nat, answers: map<string, Answer>,
                        members: Option<seq<Etcd.Member>>, clusterID: Option<nat>)
    requires k <= |nodes|
  {
    forall j, n | 0 <= j < k && n in ms && Hosts(nodes[j], ms[n]) && !ms[n].deleting ::
         && (AnswerOf(nodes[j], answers).Listed? ==> members.Some?)
         && (Agrees(nodes[j], AnswerOf(nodes[j], answers), members) ==> clusterID.Some?)
  }

  type Voice = (string, Machine) -> Cond

  function Speaking(answers: map<string, Answer>, members: Option<seq<Etcd.Member>>, clusterID: Option<nat>): Voice {
    (node, m) => Says(node, answers, members, clusterID, m)
  }

  /** The machine has been inspected as far as the first k nodes go. */
  ghost predicate Inspected(nodes: seq<string>, k: nat, says: Voice, m: Machine, after: Cond)
    requires k <= |nodes|
  {
    && (forall j | 0 <= j < k && Hosts(nodes[j], m) :: after == says(nodes[j], m))
    && ((forall j | 0 <= j < k :: !Hosts(nodes[j], m)) ==> after == m.etcdHealthy)
  }

  ghost predicate AllInspected(ms: Machines, nodes: seq<string>, k: nat, says: Voice, ms': Machines)
    requires k <= |nodes|
  {
    SameButEtcd(ms, ms') && forall n | n in ms :: Inspected(nodes, k, says, ms[n], ms'[n].etcdHealthy)
  }

  ghost predicate DistinctNames(nodes: seq<string>) { forall i, j | 0 <= i < j < |nodes| :: nodes[i] != nodes[j] }

  ghost predicate AllHosted(ms: Machines, nodes: seq<string>, k: nat)
    requires k <= |nodes|
  {
    forall j | 0 <= j < k :: nodes[j] in NodeRefs(ms)
  }

  /** Every machine has what its node says, as far as the first k nodes go. */
  ghost predicate Heard(ms: Machines, nodes: seq<string>, k: nat, answers: map<string, Answer>,
                        members: Option<seq<Etcd.Member>>, clusterID: Option<nat>, ms': Machines)
    requires k <= |nodes|
  {
    DistinctNodeRefs(ms) && DistinctNames(nodes) ==>
      && Known(ms, nodes, k, answers, members, clusterID)
      && AllInspected(ms, nodes, k, Speaking(answers, members, clusterID), ms')
  }

  /** How far the pass has come after k nodes. */
  ghost predicate Progress(ms: Machines, nodes: seq<string>, k: nat, answers: map<string, Answer>,
                           members: Option<seq<Etcd.Member>>, ms': Machines, errors: bool)
    requires k <= |nodes|
  {
    && SameButEtcd(ms, ms')
    && (members.Some? ==> exists node | node in nodes :: AnswerOf(node, answers) == Listed(members.value))
    && (errors <==> !HasProvisioning(ms) && !AllHosted(ms, nodes, k))
    && (members.None? && k > 0 && !HasProvisioning(ms) && !errors ==> SomeFalse(ms'))
  }

  ghost predicate SomeFalse(ms: Machines) { exists n | n in ms :: ms[n].etcdHealthy == CondFalse }

  /** The loop over the control plane nodes. Every machine has what its node says, by one member list and
      one etcd cluster. */
  method InspectNodes(ms: Machines, nodes: seq<string>, answers: map<string, Answer>)
    returns (ms': Machines, members: Option<seq<Etcd.Member>>, clusterID: Option<nat>, kcpErrors: seq<string>)
    ensures Progress(ms, nodes, |nodes|, answers, members, ms', kcpErrors != [])
    ensures Heard(ms, nodes, |nodes|, answers, members, clusterID, ms')
    ensures nodes == [] ==> ms' == ms && members.None?
  {
    ms', members, clusterID, kcpErrors := ms, None, None, [];
    for i := 0 to |nodes|
      invariant Progress(ms, nodes, i, answers, members, ms', kcpErrors != [])
      invariant Heard(ms, nodes, i, answers, members, clusterID, ms')
      invariant i == 0 ==> ms' == ms && members.None?
    {
      var orphan;
      ms', orphan, members, clusterID := VisitNode(ms, nodes, i, answers, ms', members, clusterID, kcpErrors != []);
      if orphan {
        kcpErrors := kcpErrors + [nodes[i]];
      }
    }
  }

  /** The body of the loop. */
  method VisitNode(ghost ms: Machines, nodes: seq<string>, i: nat, answers: map<string, Answer>, now: Machines,
                   members: Option<seq<Etcd.Member>>, clusterID: Option<nat>, ghost errors: bool)
    returns (ms': Machines, orphan: bool, members': Option<seq<Etcd.Member>>, clusterID': Option<nat>)
    requires i < |nodes| && Progress(ms, nodes, i, answers, members, now, errors)
    requires Heard(ms, nodes, i, answers, members, clusterID, now)
    ensures Progress(ms, nodes, i + 1, answers, members', ms', errors || orphan)
    ensures Heard(ms, nodes, i + 1, answers, members', clusterID', ms')
  {
    ghost var host;
    ms', orphan, members', clusterID', host := InspectNode(now, nodes[i], answers, members, clusterID);
    if host.None? {
      Unhosted(ms, now, nodes, i, answers, members, errors);
      NothingHeard(ms, now, nodes, i, answers, members, clusterID);
    } else {
      ghost var said := Says(nodes[i], answers, members', clusterID', now[host.value]);
      HostedBy(ms, now, nodes, i, answers, members, members', errors, host.value, said);
      HeardFrom(ms, now, nodes, i, answers, members, clusterID, members', clusterID', host.value);
    }
  }

  lemma Unhosted(ms: Machines, now: Machines, nodes: seq<string>, i: nat, answers: map<string, Answer>,
                 members: Option<seq<Etcd.Member>>, errors: bool)
    requires i < |nodes| && nodes[i] !in NodeRefs(now) && Progress(ms, nodes, i, answers, members, now, errors)
    ensures Progress(ms, nodes, i + 1, answers, members, now, errors || !HasProvisioning(now))
  {
  }

  lemma NothingHeard(ms: Machines, now: Machines, nodes: seq<string>, i: nat, answers: map<string, Answer>,
                     members: Option<seq<Etcd.Member>>, clusterID: Option<nat>)
    requires i < |nodes| && nodes[i] !in NodeRefs(now) && SameButEtcd(ms, now)
    requires Heard(ms, nodes, i, answers, members, clusterID, now)
    ensures Heard(ms, nodes, i + 1, answers, members, clusterID, now)
  {
  }

  lemma HostedBy(ms: Machines, before: Machines, nodes: seq<string>, i: nat, answers: map<string, Answer>,
                 members: Option<seq<Etcd.Member>>, members': Option<seq<Etcd.Member>>, errors: bool, n: string,
                 c: Cond)
    requires i < |nodes| && n in before && Hosts(nodes[i], before[n])
    requires Progress(ms, nodes, i, answers, members, before, errors)
    requires members' == members || (members'.Some? && AnswerOf(nodes[i], answers) == Listed(members'.value))
    requires members'.None? ==> c == CondFalse
    ensures Progress(ms, nodes, i + 1, answers, members', SetEtcd(before, n, c), errors)
  {
    SameHosts(ms, before);
    assert nodes[i] in NodeRefs(ms);
    assert c == CondFalse ==> SetEtcd(before, n, c)[n].etcdHealthy == CondFalse;
  }

  lemma HeardFrom(ms: Machines, before: Machines, nodes: seq<string>, i: nat, answers: map<string, Answer>,
                  members: Option<seq<Etcd.Member>>, clusterID: Option<nat>,
                  members': Option<seq<Etcd.Member>>, clusterID': Option<nat>, n: string)
    requires i < |nodes| && SameButEtcd(ms, before) && n in before && Hosts(nodes[i], before[n])
    requires Heard(ms, nodes, i, answers, members, clusterID, before)
    requires if before[n].deleting then members' == members && clusterID' == clusterID
             else Learnt(nodes[i], AnswerOf(nodes[i], answers), members, clusterID, members', clusterID')
    ensures var after := SetEtcd(before, n, Says(nodes[i], answers, members', clusterID', before[n]));
            Heard(ms, nodes, i + 1, answers, members', clusterID', after)
  {
    if DistinctNodeRefs(ms) && DistinctNames(nodes) {
      StillKnown(ms, nodes, i, answers, members, clusterID, members', clusterID', n);
      OneMoreInspected(ms, before, nodes, i, Speaking(answers, members, clusterID),
                       Speaking(answers, members', clusterID'), n);
    }
  }

  /** What is learnt does not change what the nodes before have said. */
  lemma StillKnown(ms: Machines, nodes: seq<string>, i: nat, answers: map<string, Answer>,
                   members: Option<seq<Etcd.Member>>, clusterID: Option<nat>,
                   members': Option<seq<Etcd.Member>>, clusterID': Option<nat>, n: string)
    requires i < |nodes| && Known(ms, nodes, i, answers, members, clusterID)
    requires DistinctNodeRefs(ms) && n in ms && Hosts(nodes[i], ms[n])
    requires if ms[n].deleting then members' == members && clusterID' == clusterID
             else Learnt(nodes[i], AnswerOf(nodes[i], answers), members, clusterID, members', clusterID')
    ensures Known(ms, nodes, i + 1, answers, members', clusterID')
    ensures forall j, k | 0 <= j < i && k in ms && Hosts(nodes[j], ms[k]) ::
              Says(nodes[j], answers, members', clusterID', ms[k]) == Says(nodes[j], answers, members, clusterID, ms[k])
  {
  }

  lemma OneMoreInspected(ms: Machines, before: Machines, nodes: seq<string>, i: nat, says: Voice, says': Voice,
                         n: string)
    requires i < |nodes| && AllInspected(ms, nodes, i, says, before) && n in ms && Hosts(nodes[i], ms[n])
    requires DistinctNodeRefs(ms) && DistinctNames(nodes)
    requires says'(nodes[i], before[n]) == says'(nodes[i], ms[n])
    requires forall j, k | 0 <= j < i && k in ms && Hosts(nodes[j], ms[k]) ::
              says'(nodes[j], ms[k]) == says(nodes[j], ms[k])
    ensures AllInspected(ms, nodes, i + 1, says', SetEtcd(before, n, says'(nodes[i], before[n])))
  {
    var after := SetEtcd(before, n, says'(nodes[i], before[n]));
    forall k | k in ms ensures Inspected(nodes, i + 1, says', ms[k], after[k].etcdHealthy) {
      assert Inspected(nodes, i, says, ms[k], before[k].etcdHealthy);
      if k == n {
        assert forall j | 0 <= j < i :: !Hosts(nodes[j], ms[n]);
      } else {
        assert !Hosts(nodes[i], ms[k]);
      }
    }
  }

  /** The condition of a machine after the whole pass. */
  ghost predicate Concluded(nodes: seq<string>, members: Option<seq<Etcd.Member>>, says: Voice, m: Machine,
                            after: Cond)
  {
    if members.Some? && Memberless(m, members.value) then after == CondFalse
    else Inspected(nodes, |nodes|, says, m, after)
  }

  /** There is a node that no machine hosts though none is provisioning, or a member on no machine's node. */
  ghost predicate Mismatch(ms: Machines, nodes: seq<string>, members: Option<seq<Etcd.Member>>) {
    || (!HasProvisioning(ms) && !AllHosted(ms, nodes, |nodes|))
    || (members.Some? && !(Etcd.Names(members.value) <= NodeRefs(ms)))
  }

  /** What the whole pass makes of the machines and of the verdict on the etcd cluster, the member list and
      the cluster it has come to know being these. */
  ghost predicate EtcdUpdated(ms: Machines, current: Cond, nodes: Option<seq<string>>, answers: map<string, Answer>,
                              ms': Machines, healthy: Cond,
                              members: Option<seq<Etcd.Member>>, clusterID: Option<nat>)
  {
    && SameButEtcd(ms, ms')
    && (nodes.None? ==> healthy == CondUnknown && forall n | n in ms :: ms'[n].etcdHealthy == CondUnknown)
    && (nodes.Some? ==>
          healthy == HealthConditions.Aggregate(EtcdHealth(ms').Values, Mismatch(ms, nodes.value, members), current))
    && (nodes.Some? && DistinctNodeRefs(ms) && DistinctNames(nodes.value) ==>
          && Known(ms, nodes.value, |nodes.value|, answers, members, clusterID)
          && AllConcluded(ms, nodes.value, members, Speaking(answers, members, clusterID), ms'))
  }

  /** The whole pass. Every machine has what its node says, by one member list and one etcd cluster; one
      whose node has no member is unhealthy. When the pass marks the etcd cluster healthy after reading at
      least one member list, the nodes of the members are exactly those of the machines. With all machines
      provisioned it can mark it healthy without reading a list only when no control plane node was
      listed; it then does so on conditions left by earlier passes. */
  method UpdateManagedEtcdConditions(ms: Machines, current: Cond, nodes: Option<seq<string>>,
                                     answers: map<string, Answer>)
    returns (ms': Machines, healthy: Cond, members: Option<seq<Etcd.Member>>, clusterID: Option<nat>)
    ensures SameButEtcd(ms, ms')
    ensures nodes.Some? && DistinctNodeRefs(ms) && DistinctNames(nodes.value) ==>
              AllConcluded(ms, nodes.value, members, Speaking(answers, members, clusterID), ms')
    ensures members.Some? ==>
              nodes.Some? && exists node | node in nodes.value :: AnswerOf(node, answers) == Listed(members.value)
    ensures healthy == CondTrue && members.Some? ==> Etcd.Names(members.value) == NodeRefs(ms)
    ensures healthy == CondTrue && nodes.Some? ==> !SomeFalse(ms')
    ensures healthy == CondTrue && nodes.Some? && !HasProvisioning(ms) ==> (members.None? <==> nodes.value == [])
    ensures (nodes == Some([]) && !SomeFalse(ms) && exists n | n in ms :: ms[n].etcdHealthy == CondTrue) ==>
              healthy == CondTrue && members.None?
    ensures nodes.None? ==> healthy == CondUnknown && members.None? && ms' == SetAll(ms, CondUnknown)
    ensures EtcdUpdated(ms, current, nodes, answers, ms', healthy, members, clusterID)
  {
    if nodes.None? {
      return SetAll(ms, CondUnknown), CondUnknown, None, None;
    }
    ms', healthy, members, clusterID := UpdateFromNodes(ms, current, nodes.value, answers);
  }

  /** The pass, once the nodes are listed. */
  method UpdateFromNodes(ms: Machines, current: Cond, nodes: seq<string>, answers: map<string, Answer>)
    returns (ms': Machines, healthy: Cond, members: Option<seq<Etcd.Member>>, clusterID: Option<nat>)
    ensures EtcdUpdated(ms, current, Some(nodes), answers, ms', healthy, members, clusterID)
    ensures members.Some? ==> exists node | node in nodes :: AnswerOf(node, answers) == Listed(members.value)
    ensures healthy == CondTrue && members.Some? ==> Etcd.Names(members.value) == NodeRefs(ms)
    ensures healthy == CondTrue ==> !SomeFalse(ms')
    ensures healthy == CondTrue && !HasProvisioning(ms) ==> (members.None? <==> nodes == [])
    ensures nodes == [] ==> members.None? && ms' == ms
    ensures (nodes == [] && !SomeFalse(ms) && exists n | n in ms :: ms[n].etcdHealthy == CondTrue) ==>
              healthy == CondTrue
  {
    var inspected, kcpErrors;
    inspected, members, clusterID, kcpErrors := InspectNodes(ms, nodes, answers);
    ms', healthy := CompareAndAggregate(inspected, members, kcpErrors, current);
    SameHosts(ms, inspected);
    MissingMarked(ms, inspected, members, ms');
    HeardConcluded(ms, inspected, nodes, answers, members, clusterID, ms');
  }

  lemma HeardConcluded(ms: Machines, mid: Machines, nodes: seq<string>, answers: map<string, Answer>,
                       members: Option<seq<Etcd.Member>>, clusterID: Option<nat>, ms': Machines)
    requires Heard(ms, nodes, |nodes|, answers, members, clusterID, mid) && ms'.Keys == mid.Keys == ms.Keys
    requires forall n | n in mid :: ms'[n] == Compared(mid[n], members)
    ensures DistinctNodeRefs(ms) && DistinctNames(nodes) ==>
              && Known(ms, nodes, |nodes|, answers, members, clusterID)
              && AllConcluded(ms, nodes, members, Speaking(answers, members, clusterID), ms')
  {
    if DistinctNodeRefs(ms) && DistinctNames(nodes) {
      MissingConcluded(ms, mid, nodes, members, Speaking(answers, members, clusterID), ms');
    }
  }

  /** The end of the pass, after the nodes have been inspected. */
  method CompareAndAggregate(mid: Machines, members: Option<seq<Etcd.Member>>, kcpErrors: seq<string>, current: Cond)
    returns (ms': Machines, healthy: Cond)
    ensures ms'.Keys == mid.Keys && forall n | n in mid :: ms'[n] == Compared(mid[n], members)
    ensures members.None? ==> ms' == mid
    ensures var errors := kcpErrors != [] || (members.Some? && !(Etcd.Names(members.value) <= NodeRefs(mid)));
            healthy == HealthConditions.Aggregate(EtcdHealth(ms').Values, errors, current)
    ensures healthy == CondTrue ==> kcpErrors == [] && !SomeFalse(ms')
    ensures healthy == CondTrue && members.Some? ==> Etcd.Names(members.value) == NodeRefs(mid)
    ensures (kcpErrors == [] && members.None? && !SomeFalse(mid)
             && exists n | n in mid :: mid[n].etcdHealthy == CondTrue) ==> healthy == CondTrue
  {
    var errors;
    ms', errors := CompareMachinesAndMembers(mid, members, kcpErrors);
    healthy := AggregateEtcd(ms', errors, current);
    if healthy == CondTrue && members.Some? {
      MembersMatch(mid, members.value, ms');
    }
  }

  /** With no machine marked, every machine's node has a member. */
  lemma MembersMatch(mid: Machines, members: seq<Etcd.Member>, ms': Machines)
    requires ms'.Keys == mid.Keys && forall n | n in mid :: ms'[n] == Marked(mid[n], members)
    requires !SomeFalse(ms') && Etcd.Names(members) <= NodeRefs(mid)
    ensures Etcd.Names(members) == NodeRefs(mid)
  {
  }

  /** All machines have the conditions of Concluded. */
  ghost predicate AllConcluded(ms: Machines, nodes: seq<string>, members: Option<seq<Etcd.Member>>, says: Voice,
                               ms': Machines)
    requires ms'.Keys == ms.Keys
  {
    forall n | n in ms :: Concluded(nodes, members, says, ms[n], ms'[n].etcdHealthy)
  }

  /** A machine, after comparing with the members. */
  function Compared(m: Machine, members: Option<seq<Etcd.Member>>): Machine {
    if members.Some? then Marked(m, members.value) else m
  }

  lemma MissingMarked(ms: Machines, mid: Machines, members: Option<seq<Etcd.Member>>, ms': Machines)
    requires SameButEtcd(ms, mid) && ms'.Keys == mid.Keys && forall n | n in mid :: ms'[n] == Compared(mid[n], members)
    ensures SameButEtcd(ms, ms') && (SomeFalse(mid) ==> SomeFalse(ms'))
  {
  }

  lemma MissingConcluded(ms: Machines, mid: Machines, nodes: seq<string>, members: Option<seq<Etcd.Member>>,
                         says: Voice, ms': Machines)
    requires AllInspected(ms, nodes, |nodes|, says, mid)
    requires ms'.Keys == mid.Keys && forall n | n in mid :: ms'[n] == Compared(mid[n], members)
    ensures AllConcluded(ms, nodes, members, says, ms')
  {
  }

  method AggregateEtcd(ms: Machines, kcpErrors: seq<string>, current: Cond) returns (c: Cond)
    ensures c == HealthConditions.Aggregate(EtcdHealth(ms).Values, kcpErrors != [], current)
    ensures c == CondTrue ==> kcpErrors == [] && !SomeFalse(ms)
    ensures (kcpErrors == [] && !SomeFalse(ms) && exists n | n in ms :: ms[n].etcdHealthy == CondTrue) ==> c == CondTrue
  {
    c := HealthConditions.AggregateFromMachines(EtcdHealth(ms), kcpErrors, current);
    assert forall n | n in ms :: EtcdHealth(ms)[n] in EtcdHealth(ms).Values;
  }

  /** Machines that a pass marks healthy have members of one and the same etcd cluster. */
  lemma OneCluster(nodes: seq<string>, answers: map<string, Answer>, members: Option<seq<Etcd.Member>>,
                   clusterID: Option<nat>,
                   i: nat, m: Machine, a: Cond, j: nat, n: Machine, b: Cond)
    requires Concluded(nodes, members, Speaking(answers, members, clusterID), m, a)
    requires Concluded(nodes, members, Speaking(answers, members, clusterID), n, b)
    requires i < |nodes| && Hosts(nodes[i], m) && a == CondTrue && j < |nodes| && Hosts(nodes[j], n) && b == CondTrue
    ensures AnswerOf(nodes[i], answers).Listed? && AnswerOf(nodes[j], answers).Listed?
    ensures Etcd.FirstFor(AnswerOf(nodes[i], answers).members, nodes[i]).Some?
    ensures Etcd.FirstFor(AnswerOf(nodes[j], answers).members, nodes[j]).Some?
    ensures ClusterOf(nodes[i], AnswerOf(nodes[i], answers)) == ClusterOf(nodes[j], AnswerOf(nodes[j], answers))
  {
    assert Says(nodes[i], answers, members, clusterID, m) == a && Says(nodes[j], answers, members, clusterID, n) == b;
  }

  /** So the early return taken on a healthy etcd cluster skips a call that would remove nothing: none of
      the members read is stale with respect to the nodes of the machines. */
  lemma FastPathSkipsNothing(ms: Machines, members: seq<Etcd.Member>, nodeNames: seq<string>)
    requires Etcd.Names(members) == NodeRefs(ms)
    requires forall node | node in NodeRefs(ms) :: node in nodeNames
    ensures Etcd.NoneStale(members, nodeNames) && Etcd.Kept(members, nodeNames) == members
  {
    forall m | m in members ensures Etcd.NodeNameFromMember(m) in nodeNames {
      assert Etcd.NodeNameFromMember(m) in Etcd.Names(members);
    }
    Etcd.NothingStale(members, nodeNames);
  }
}
