// Health conditions: how those of machines add up, and the pass that sets those of the k3s agents.
module HealthConditions {
  import opened Options
  import opened ControlPlane
  import Remediation

  /** What the reports of machines add up to. */
  function Aggregate(reports: set<Cond>, errors: bool, current: Cond): Cond {
    if errors || CondFalse in reports then CondFalse
    else if CondTrue in reports then CondTrue
    else if CondUnknown in reports then CondUnknown
    else current
  }

  /** True reports are given up for false ones and for errors; unknown ones do not count against them. */
  method AggregateFromMachines(conds: map<string, Cond>, kcpErrors: seq<string>, current: Cond) returns (c: Cond)
    ensures c == Aggregate(conds.Values, kcpErrors != [], current)
    ensures c == CondFalse && current != CondFalse ==> kcpErrors != [] || CondFalse in conds.Values
    ensures kcpErrors != [] || CondFalse in conds.Values ==> c == CondFalse
    ensures kcpErrors == [] && CondFalse !in conds.Values && CondTrue in conds.Values ==> c == CondTrue
    ensures kcpErrors == [] && CondFalse !in conds.Values && CondTrue !in conds.Values ==>
              c == if CondUnknown in conds.Values then CondUnknown else current
  {
    var withTrue, withFalse, withUnknown: set<string> := {}, {}, {};
    var todo := conds.Keys;
    while todo != {}
      invariant todo <= conds.Keys
      invariant withTrue == set n | n in conds && n !in todo && conds[n] == CondTrue
      invariant withFalse == set n | n in conds && n !in todo && conds[n] == CondFalse
      invariant withUnknown == set n | n in conds && n !in todo && conds[n] == CondUnknown
      decreases todo
    {
      var n :| n in todo;
      todo := todo - {n};
      match conds[n] {
        case CondTrue => withTrue := withTrue + {n};
        case CondFalse => withFalse := withFalse + {n};
        case CondUnknown => withUnknown := withUnknown + {n};
        case CondMissing =>
      }
    }
    Reporting(conds, CondTrue, withTrue);
    Reporting(conds, CondFalse, withFalse);
    Reporting(conds, CondUnknown, withUnknown);
    if withFalse != {} || kcpErrors != [] {
      return CondFalse;
    }
    if withTrue != {} {
      return CondTrue;
    }
    if withUnknown != {} {
      return CondUnknown;
    }
    return current;
  }

  lemma Reporting(conds: map<string, Cond>, c: Cond, names: set<string>)
    requires names == set n | n in conds && conds[n] == c
    ensures names == {} <==> c !in conds.Values
  {
    if c in conds.Values {
      var n :| n in conds && conds[n] == c;
      assert n in names;
    }
  }

  // ---- agents --------------------------------------------------------------------------------------------

  // A listed control plane node, and what reading it once more gives.
  datatype NodeInfo = NodeInfo(name: string, unreachable: bool, status: NodeStatus)

  datatype NodeStatus = NodeMissing | GetFailed | Found(ready: bool)

  ghost predicate DistinctNodes(nodes: seq<NodeInfo>) {
    forall i, j | 0 <= i < j < |nodes| :: nodes[i].name != nodes[j].name
  }

  ghost predicate SameButAgent(before: Machines, after: Machines) {
    && before.Keys == after.Keys
    && forall n | n in before :: after[n] == before[n].(agentHealthy := after[n].agentHealthy)
  }

  function SetAgent(ms: Machines, n: string, c: Cond): Machines
    requires n in ms
  {
    ms[n := ms[n].(agentHealthy := c)]
  }

  function AgentHealth(ms: Machines): map<string, Cond> { map n | n in ms :: ms[n].agentHealthy }

  /** What a node says of the agent on its machine. A node that is not ready says nothing. */
  function AgentSays(node: NodeInfo, m: Machine): Cond {
    if m.deleting then CondFalse
    else if node.unreachable then CondUnknown
    else match node.status
         case NodeMissing => CondFalse
         case GetFailed => CondUnknown
         case Found(ready) => if ready then CondTrue else m.agentHealthy
  }

  /** The loop over the nodes ends early when a node that is needed cannot be read. */
  predicate Ends(node: NodeInfo, m: Machine) { !m.deleting && !node.unreachable && !node.status.Found? }

  predicate HostsAgent(node: NodeInfo, m: Machine) { m.nodeRef == Some(node.name) }

  predicate Listed(nodes: seq<NodeInfo>, m: Machine) { exists j | 0 <= j < |nodes| :: HostsAgent(nodes[j], m) }

  /** The machine has been inspected as far as the first k nodes go. */
  ghost predicate AgentInspected(nodes: seq<NodeInfo>, k: nat, m: Machine, after: Cond)
    requires k <= |nodes|
  {
    && (forall j | 0 <= j < k && HostsAgent(nodes[j], m) :: after == AgentSays(nodes[j], m))
    && ((forall j | 0 <= j < k :: !HostsAgent(nodes[j], m)) ==> after == m.agentHealthy)
  }

  ghost predicate AllAgentsInspected(ms: Machines, nodes: seq<NodeInfo>, k: nat, ms': Machines)
    requires k <= |nodes|
  {
    SameButAgent(ms, ms') && forall n | n in ms :: AgentInspected(nodes, k, ms[n], ms'[n].agentHealthy)
  }

  /** A machine is to be read through this node, which cannot be read. */
  ghost predicate EndedAt(ms: Machines, node: NodeInfo) {
    exists n | n in ms :: HostsAgent(node, ms[n]) && Ends(node, ms[n])
  }

  /** None of the first k nodes is like that. */
  ghost predicate Readable(ms: Machines, nodes: seq<NodeInfo>, k: nat)
    requires k <= |nodes|
  {
    k == 0 || (Readable(ms, nodes, k - 1) && !EndedAt(ms, nodes[k - 1]))
  }

  lemma {:induction false} UnreadableFrom(ms: Machines, nodes: seq<NodeInfo>, j: nat, k: nat)
    requires j < k <= |nodes| && EndedAt(ms, nodes[j])
    ensures !Readable(ms, nodes, k)
  {
    if j < k - 1 {
      UnreadableFrom(ms, nodes, j, k - 1);
    }
  }

  ghost predicate AllNodesHosted(ms: Machines, nodes: seq<NodeInfo>, k: nat)
    requires k <= |nodes|
  {
    forall j | 0 <= j < k :: nodes[j].name in NodeRefs(ms)
  }

  /** One node's share of the pass. */
  method InspectAgent(ms: Machines, node: NodeInfo)
    returns (ms': Machines, orphan: bool, ends: bool, ghost host: Option<string>)
    ensures host.None? ==> node.name !in NodeRefs(ms) && ms' == ms && !ends && (orphan <==> !HasProvisioning(ms))
    ensures host.Some? ==>
              && host.value in ms && HostsAgent(node, ms[host.value]) && node.name in NodeRefs(ms)
              && ms' == SetAgent(ms, host.value, AgentSays(node, ms[host.value])) && !orphan
              && (ends <==> Ends(node, ms[host.value]))
    ensures host.Some? ==>
              var m, c := ms[host.value], ms'[host.value].agentHealthy;
              if m.deleting then c == CondFalse && !ends
              else if node.unreachable then c == CondUnknown && !ends
              else match node.status
                   case NodeMissing => c == CondFalse && ends
                   case GetFailed => c == CondUnknown && ends
                   case Found(ready) => c == (if ready then CondTrue else m.agentHealthy) && !ends
  {
    var machine := Remediation.MachineForNode(ms, node.name);
    host := machine;
    if machine.None? {
      return ms, !HasProvisioning(ms), false, host;
    }
    var n := machine.value;
    ms' := SetAgent(ms, n, AgentSays(node, ms[n]));
    return ms', false, Ends(node, ms[n]), host;
  }

  /** The names of those of the first k nodes that no machine hosts; none while a machine is provisioning. */
  function Orphans(ms: Machines, nodes: seq<NodeInfo>, k: nat): seq<string>
    requires k <= |nodes|
  {
    if k == 0 then []
    else if HasProvisioning(ms) || nodes[k - 1].name in NodeRefs(ms) then Orphans(ms, nodes, k - 1)
    else Orphans(ms, nodes, k - 1) + [nodes[k - 1].name]
  }

  lemma {:induction false} NoOrphans(ms: Machines, nodes: seq<NodeInfo>, k: nat)
    requires k <= |nodes|
    ensures Orphans(ms, nodes, k) == [] <==> HasProvisioning(ms) || AllNodesHosted(ms, nodes, k)
  {
    if k > 0 {
      NoOrphans(ms, nodes, k - 1);
    }
  }

  /** How far the pass has come after k nodes, none of which ended it. */
  ghost predicate AgentProgress(ms: Machines, nodes: seq<NodeInfo>, k: nat, ms': Machines, errors: seq<string>)
    requires k <= |nodes|
  {
    SameButAgent(ms, ms') && errors == Orphans(ms, nodes, k)
  }

  /** Every machine has what its node says, as far as the first k nodes go. */
  ghost predicate AgentsHeard(ms: Machines, nodes: seq<NodeInfo>, k: nat, ms': Machines)
    requires k <= |nodes|
  {
    DistinctNodeRefs(ms) && DistinctNodes(nodes) ==> AllAgentsInspected(ms, nodes, k, ms')
  }

  method InspectAgents(ms: Machines, nodes: seq<NodeInfo>)
    returns (ms': Machines, kcpErrors: seq<string>, complete: bool, ghost k: nat)
    ensures k <= |nodes| && AgentProgress(ms, nodes, k, ms', kcpErrors) && AgentsHeard(ms, nodes, k, ms')
    ensures if complete then k == |nodes| else k > 0 && EndedAt(ms, nodes[k - 1])
    ensures DistinctNodeRefs(ms) ==> (complete <==> Readable(ms, nodes, |nodes|))
  {
    ms', kcpErrors := ms, [];
    for i := 0 to |nodes|
      invariant AgentProgress(ms, nodes, i, ms', kcpErrors) && AgentsHeard(ms, nodes, i, ms')
      invariant DistinctNodeRefs(ms) ==> Readable(ms, nodes, i)
    {
      var ends;
      ms', kcpErrors, ends := VisitAgent(ms, nodes, i, ms', kcpErrors);
      if ends {
        UnreadableFrom(ms, nodes, i, |nodes|);
        return ms', kcpErrors, false, i + 1;
      }
    }
    return ms', kcpErrors, true, |nodes|;
  }

  /** The body of the loop. */
  method VisitAgent(ghost ms: Machines, nodes: seq<NodeInfo>, i: nat, now: Machines, errors: seq<string>)
    returns (ms': Machines, errors': seq<string>, ends: bool)
    requires i < |nodes| && AgentProgress(ms, nodes, i, now, errors) && AgentsHeard(ms, nodes, i, now)
    ensures AgentProgress(ms, nodes, i + 1, ms', errors') && AgentsHeard(ms, nodes, i + 1, ms')
    ensures ends ==> EndedAt(ms, nodes[i])
    ensures DistinctNodeRefs(ms) && !ends ==> !EndedAt(ms, nodes[i])
  {
    var orphan;
    ghost var host;
    ms', orphan, ends, host := InspectAgent(now, nodes[i]);
    errors' := if orphan then errors + [nodes[i].name] else errors;
    if host.None? {
      NoAgentHeard(ms, now, nodes, i, errors);
    } else {
      AgentHeard(ms, now, nodes, i, errors, host.value);
      OnlyHost(ms, now, nodes[i], host.value);
    }
  }

  lemma SameNodeRefs(ms: Machines, ms': Machines)
    requires SameButAgent(ms, ms')
    ensures NodeRefs(ms') == NodeRefs(ms) && (HasProvisioning(ms') <==> HasProvisioning(ms))
  {
  }

  lemma NoAgentHeard(ms: Machines, now: Machines, nodes: seq<NodeInfo>, i: nat, errors: seq<string>)
    requires i < |nodes| && nodes[i].name !in NodeRefs(now)
    requires AgentProgress(ms, nodes, i, now, errors) && AgentsHeard(ms, nodes, i, now)
    ensures AgentsHeard(ms, nodes, i + 1, now)
    ensures AgentProgress(ms, nodes, i + 1, now, if HasProvisioning(now) then errors else errors + [nodes[i].name])
    ensures !EndedAt(ms, nodes[i])
  {
    SameNodeRefs(ms, now);
    forall n | n in ms ensures !HostsAgent(nodes[i], ms[n]) {
      assert ms[n].nodeRef.Some? ==> ms[n].nodeRef.value in NodeRefs(ms);
    }
  }

  lemma AgentHeard(ms: Machines, before: Machines, nodes: seq<NodeInfo>, i: nat, errors: seq<string>, n: string)
    requires i < |nodes| && n in before && HostsAgent(nodes[i], before[n])
    requires AgentProgress(ms, nodes, i, before, errors) && AgentsHeard(ms, nodes, i, before)
    ensures var after := SetAgent(before, n, AgentSays(nodes[i], before[n]));
            AgentProgress(ms, nodes, i + 1, after, errors) && AgentsHeard(ms, nodes, i + 1, after)
  {
    SameNodeRefs(ms, before);
    assert nodes[i].name in NodeRefs(ms);
    if DistinctNodeRefs(ms) && DistinctNodes(nodes) {
      OneMoreAgent(ms, before, nodes, i, n);
    }
  }

  lemma OnlyHost(ms: Machines, before: Machines, node: NodeInfo, n: string)
    requires SameButAgent(ms, before) && n in before && HostsAgent(node, before[n])
    ensures Ends(node, before[n]) ==> EndedAt(ms, node)
    ensures DistinctNodeRefs(ms) && !Ends(node, before[n]) ==> !EndedAt(ms, node)
  {
  }

  lemma OneMoreAgent(ms: Machines, before: Machines, nodes: seq<NodeInfo>, i: nat, n: string)
    requires i < |nodes| && AllAgentsInspected(ms, nodes, i, before) && n in ms && HostsAgent(nodes[i], ms[n])
    requires DistinctNodeRefs(ms) && DistinctNodes(nodes)
    ensures AllAgentsInspected(ms, nodes, i + 1, SetAgent(before, n, AgentSays(nodes[i], before[n])))
  {
    var after := SetAgent(before, n, AgentSays(nodes[i], before[n]));
    forall k | k in ms ensures AgentInspected(nodes, i + 1, ms[k], after[k].agentHealthy) {
      AgentInspectedOnce(nodes, i, ms[k], before[k].agentHealthy);
    }
  }

  lemma AgentInspectedOnce(nodes: seq<NodeInfo>, i: nat, m: Machine, before: Cond)
    requires i < |nodes| && DistinctNodes(nodes) && AgentInspected(nodes, i, m, before)
    ensures !HostsAgent(nodes[i], m) ==> AgentInspected(nodes, i + 1, m, before)
    ensures HostsAgent(nodes[i], m) ==>
              AgentInspected(nodes, i + 1, m, AgentSays(nodes[i], m)) && before == m.agentHealthy
  {
  }

  function MarkedMissing(m: Machine, nodes: seq<NodeInfo>): Machine {
    if m.nodeRef.Some? && !Listed(nodes, m) then m.(agentHealthy := CondFalse) else m
  }

  /** Provisioned machines without a listed node are marked unhealthy. */
  method MarkMissingNodes(ms: Machines, nodes: seq<NodeInfo>) returns (ms': Machines)
    ensures ms'.Keys == ms.Keys && forall n | n in ms :: ms'[n] == MarkedMissing(ms[n], nodes)
    ensures forall n | n in ms :: ms'[n].agentHealthy ==
              if ms[n].nodeRef.Some? && forall j | 0 <= j < |nodes| :: nodes[j].name != ms[n].nodeRef.value
              then CondFalse else ms[n].agentHealthy
  {
    ms' := ms;
    var todo := ms.Keys;
    while todo != {}
      invariant todo <= ms.Keys && ms'.Keys == ms.Keys
      invariant forall n | n in ms :: ms'[n] == if n in todo then ms[n] else MarkedMissing(ms[n], nodes)
      decreases todo
    {
      var n :| n in todo;
      todo := todo - {n};
      if ms[n].nodeRef.None? {
        continue;
      }
      var found := HasNode(nodes, ms[n]);
      if !found {
        ms' := SetAgent(ms', n, CondFalse);
      }
    }
  }

  method HasNode(nodes: seq<NodeInfo>, m: Machine) returns (found: bool)
    ensures found <==> Listed(nodes, m)
  {
    for i := 0 to |nodes|
      invariant forall j | 0 <= j < i :: !HostsAgent(nodes[j], m)
    {
      if HostsAgent(nodes[i], m) {
        return true;
      }
    }
    return false;
  }

  /** What a pass that is not cut short makes of the condition of a machine. */
  ghost predicate AgentConcluded(nodes: seq<NodeInfo>, m: Machine, after: Cond) {
    && (m.nodeRef.None? ==> after == m.agentHealthy)
    && (forall j | 0 <= j < |nodes| && HostsAgent(nodes[j], m) :: after == AgentSays(nodes[j], m))
    && (m.nodeRef.Some? && !Listed(nodes, m) ==> after == CondFalse)
  }

  ghost predicate AllAgentsConcluded(ms: Machines, nodes: seq<NodeInfo>, ms': Machines)
    requires SameButAgent(ms, ms')
  {
    forall n | n in ms :: AgentConcluded(nodes, ms[n], ms'[n].agentHealthy)
  }

  lemma MissingConcluded(ms: Machines, mid: Machines, nodes: seq<NodeInfo>, ms': Machines)
    requires AllAgentsInspected(ms, nodes, |nodes|, mid)
    requires ms'.Keys == mid.Keys && forall n | n in mid :: ms'[n] == MarkedMissing(mid[n], nodes)
    ensures SameButAgent(ms, ms') && AllAgentsConcluded(ms, nodes, ms')
  {
    forall n | n in ms ensures AgentConcluded(nodes, ms[n], ms'[n].agentHealthy) {
      assert AgentInspected(nodes, |nodes|, ms[n], mid[n].agentHealthy);
      assert forall j | 0 <= j < |nodes| :: HostsAgent(nodes[j], mid[n]) <==> HostsAgent(nodes[j], ms[n]);
      assert Listed(nodes, mid[n]) <==> Listed(nodes, ms[n]);
    }
  }

  /** What the whole pass makes of the machines and of the condition of the control plane. */
  ghost predicate AgentsUpdated(ms: Machines, current: Cond, nodes: Option<seq<NodeInfo>>, ms': Machines, healthy: Cond)
  {
    && SameButAgent(ms, ms')
    && (nodes.None? ==> healthy == CondUnknown && forall n | n in ms :: ms'[n].agentHealthy == CondUnknown)
    && (nodes.Some? && DistinctNodeRefs(ms) && DistinctNodes(nodes.value) ==>
          if Readable(ms, nodes.value, |nodes.value|)
          then && AllAgentsConcluded(ms, nodes.value, ms')
               && healthy == Aggregate(AgentHealth(ms').Values, Orphans(ms, nodes.value, |nodes.value|) != [], current)
          else healthy == current && exists k | 0 < k <= |nodes.value| ::
                 AllAgentsInspected(ms, nodes.value, k, ms') && EndedAt(ms, nodes.value[k - 1]))
  }

  /** The whole pass. It is cut short at the first machine whose node cannot be read. Then the machines
      hosted by the nodes up to there have what those say, all others stay as they were, missing nodes are
      not marked, and the condition of the control plane is not touched. */
  method UpdateAgentConditions(ms: Machines, current: Cond, nodes: Option<seq<NodeInfo>>)
    returns (ms': Machines, healthy: Cond, complete: bool, ghost k: nat)
    ensures SameButAgent(ms, ms')
    ensures nodes.None? ==> healthy == CondUnknown && forall n | n in ms :: ms'[n].agentHealthy == CondUnknown
    ensures nodes.Some? && DistinctNodeRefs(ms) ==> (complete <==> Readable(ms, nodes.value, |nodes.value|))
    ensures nodes.Some? && complete && DistinctNodeRefs(ms) && DistinctNodes(nodes.value) ==>
              AllAgentsConcluded(ms, nodes.value, ms')
    ensures nodes.Some? && complete ==>
              healthy == Aggregate(AgentHealth(ms').Values, Orphans(ms, nodes.value, |nodes.value|) != [], current)
    ensures nodes.Some? && !complete ==> healthy == current && 0 < k <= |nodes.value|
    ensures nodes.Some? && !complete && DistinctNodeRefs(ms) && DistinctNodes(nodes.value) ==>
              && AllAgentsInspected(ms, nodes.value, k, ms')
              && EndedAt(ms, nodes.value[k - 1])
    ensures AgentsUpdated(ms, current, nodes, ms', healthy)
  {
    if nodes.None? {
      ms' := map n | n in ms :: ms[n].(agentHealthy := CondUnknown);
      return ms', CondUnknown, true, 0;
    }
    var inspected, kcpErrors;
    inspected, kcpErrors, complete, k := InspectAgents(ms, nodes.value);
    if !complete {
      return inspected, current, false, k;
    }
    ms' := MarkMissingNodes(inspected, nodes.value);
    if DistinctNodeRefs(ms) && DistinctNodes(nodes.value) {
      MissingConcluded(ms, inspected, nodes.value, ms');
    }
    StillSameButAgent(ms, inspected, nodes.value, ms');
    healthy := AggregateFromMachines(AgentHealth(ms'), kcpErrors, current);
  }

  lemma StillSameButAgent(ms: Machines, mid: Machines, nodes: seq<NodeInfo>, ms': Machines)
    requires SameButAgent(ms, mid)
    requires ms'.Keys == mid.Keys && forall n | n in mid :: ms'[n] == MarkedMissing(mid[n], nodes)
    ensures SameButAgent(ms, ms')
  {
  }

  // ---- does a true condition mean a ready node? ------------------------------------------------------------

  /** The machine has a listed node that is reachable and ready. */
  predicate HasReadyNode(nodes: seq<NodeInfo>, m: Machine) {
    exists j | 0 <= j < |nodes| :: HostsAgent(nodes[j], m) && !nodes[j].unreachable && nodes[j].status == Found(true)
  }

  /** Nothing the pass sees would change the condition: there is no node yet, or it is reachable and not
      ready, on a machine that stays. */
  predicate LeftAsItWas(nodes: seq<NodeInfo>, m: Machine) {
    || m.nodeRef.None?
    || (!m.deleting && exists j | 0 <= j < |nodes| ::
          HostsAgent(nodes[j], m) && !nodes[j].unreachable && nodes[j].status == Found(false))
  }

  /** After a complete pass a true condition means a ready node, except on a machine whose condition was
      true before and is left as it was. */
  lemma HealthMeansReadyExactly(nodes: seq<NodeInfo>, m: Machine, after: Cond)
    requires DistinctNodes(nodes) && AgentConcluded(nodes, m, after)
    ensures (after == CondTrue ==> HasReadyNode(nodes, m)) <==> !(m.agentHealthy == CondTrue && LeftAsItWas(nodes, m))
  {
  }

  /** A node that stopped being ready: its machine stays healthy, and so does the control plane. */
  method HealthOutlivesNode(m: Machine) returns (ms': Machines, healthy: Cond)
    requires m.nodeRef == Some("node") && !m.deleting && m.agentHealthy == CondTrue
    ensures ms' == map["machine" := m] && healthy == CondTrue
  {
    var complete;
    ghost var k;
    var ms := map["machine" := m];
    var nodes := [NodeInfo("node", false, Found(false))];
    ms', healthy, complete, k := UpdateAgentConditions(ms, CondTrue, Some(nodes));
    assert HostsAgent(nodes[0], ms["machine"]) && "node" in NodeRefs(ms);
    assert Orphans(ms, nodes, 1) == Orphans(ms, nodes, 0) == [];
    assert !EndedAt(ms, nodes[0]) && Readable(ms, nodes, 0);
    assert ms'["machine"] == m && AgentHealth(ms')["machine"] == CondTrue && AgentHealth(ms').Values == {CondTrue};
  }
}
