// What one reconcile of the control plane may do to the cluster, and what it must do.
module ControlPlaneSteps {
  import opened Options
  import opened ControlPlane
  import Remediation

  datatype Effect =
    | Nothing
    | Leftover                                     // objects of a failed creation stay behind
    | Hooked(name: string)                         // the hook was added but the deletion failed
    | Grown(name: string)
    | Shrunk(name: string)
    | Remediated(name: string, data: RemediationData)

  /** The conditions pass: only health conditions change, and none before initialisation. */
  ghost predicate Observed(s: State, s': State) {
    && s' == s.(machines := s'.machines, kcp := s.kcp.(componentsHealthy := s'.kcp.componentsHealthy,
                                                       etcdClusterHealthy := s'.kcp.etcdClusterHealthy))
    && s'.machines.Keys == s.machines.Keys
    && (forall n | n in s.machines ::
          s'.machines[n] == s.machines[n].(agentHealthy := s'.machines[n].agentHealthy,
                                           etcdHealthy := s'.machines[n].etcdHealthy))
    && (!s.kcp.initialized ==> s' == s)
  }

  // ---- updates in place ------------------------------------------------------------------------------

  /** A machine to which the annotations of the template have been applied. */
  function UpdatedMachine(m: Machine, template: Template): Machine {
    m.(deleteAnnotated := m.deleteAnnotated || template.deleteMachine,
       serverConfig := if template.serverConfig.Some? then template.serverConfig else m.serverConfig,
       remediationFor := if template.record.Absent? then m.remediationFor else template.record)
  }

  /** A machine whose infrastructure object has had them applied. */
  function UpdatedInfra(m: Machine, template: Template): Machine {
    if m.infra.Some? then m.(infra := Some(m.infra.value + template.others)) else m
  }

  function Updated(m: Machine, template: Template): Machine { UpdatedInfra(UpdatedMachine(m, template), template) }

  predicate Touched(m: Machine, template: Template, m': Machine) {
    m' == m || m' == UpdatedMachine(m, template) || m' == Updated(m, template)
  }

  /** The machines not being deleted, or some of them, have been updated in place. */
  ghost predicate Synced(s: State, s': State) {
    && s' == s.(machines := s'.machines)
    && s'.machines.Keys == s.machines.Keys
    && forall n | n in s.machines ::
         if s.machines[n].deleting then s'.machines[n] == s.machines[n]
         else Touched(s.machines[n], s.kcp.spec.template, s'.machines[n])
  }

  /** Every machine not being deleted has the annotations of the template, and so has its infrastructure
      object; no other machine has changed. */
  ghost predicate AllUpdated(s: State, s': State) {
    && s'.machines.Keys == s.machines.Keys
    && forall n | n in s.machines ::
         var m, m', template := s.machines[n], s'.machines[n], s.kcp.spec.template;
         if m.deleting then m' == m
         else m' == m.(deleteAnnotated := m.deleteAnnotated || template.deleteMachine,
                       serverConfig := if template.serverConfig.Some? then template.serverConfig else m.serverConfig,
                       remediationFor := if template.record.Absent? then m.remediationFor else template.record,
                       infra := if m.infra.Some? then Some(m.infra.value + template.others) else None)
  }

  lemma AllSynced(s: State, s': State)
    requires s' == s.(machines := s'.machines) && s'.machines.Keys == s.machines.Keys
    requires forall n | n in s.machines ::
               s'.machines[n] == if s.machines[n].deleting then s.machines[n]
                                 else Updated(s.machines[n], s.kcp.spec.template)
    ensures Synced(s, s') && AllUpdated(s, s')
  {
  }

  lemma SomeSynced(s: State, s': State)
    requires s' == s.(machines := s'.machines) && s'.machines.Keys == s.machines.Keys
    requires forall n | n in s.machines ::
               || s'.machines[n] == s.machines[n]
               || (!s.machines[n].deleting && Touched(s.machines[n], s.kcp.spec.template, s'.machines[n]))
    ensures Synced(s, s')
  {
  }

  /** A template that leaves alone what infrastructure objects say they were cloned from. */
  predicate KeepsOrigin(template: Template) {
    CLONED_FROM_NAME !in template.others && CLONED_FROM_GROUP_KIND !in template.others
  }

  /** Every record that a reconcile may meet can be decoded. */
  ghost predicate AllReadable(s: State) {
    NoneCorrupt(s.machines) && !s.kcp.spec.template.record.Corrupt? && !s.kcp.pending.Corrupt?
  }

  lemma RecordsStayReadable(s: State, synced: State, seen: State)
    requires Synced(s, synced) && Observed(synced, seen)
    ensures AllReadable(s) ==> AllReadable(seen)
  {
  }

  lemma RecordsStayReadableAfter(s: State, e: Effect, now: int, s': State)
    requires Acted(s, e, now, s')
    ensures AllReadable(s) ==> AllReadable(s')
  {
  }

  // ---- creation and deletion -------------------------------------------------------------------------

  /** The objects behind a machine just created from the spec. */
  predicate CreatedFrom(m: Machine, spec: Spec) {
    && m.version == spec.version && m.config == ConfigFound(spec.config)
    && m.infra.Some? && CLONED_FROM_NAME in m.infra.value && CLONED_FROM_GROUP_KIND in m.infra.value
    && m.infra.value[CLONED_FROM_NAME] == spec.infraName
    && m.infra.value[CLONED_FROM_GROUP_KIND] == spec.infraGroupKind
  }

  /** The time stamp, in whole seconds, is that of a moment no earlier than `now`. */
  predicate NotBefore(created: int, now: int) { now < (created + 1) * SECOND }

  /** A machine created no earlier than s.now, up to the second, from the spec, with the record of the
      pending remediation unless the template has one of its own. */
  predicate IsNew(m: Machine, s: State) {
    && NotBefore(m.created, s.now)
    && CreatedFrom(m, s.kcp.spec)
    && !m.deleting && m.nodeRef.None? && !m.unhealthy && !m.hook
    && m.agentHealthy == CondMissing && m.etcdHealthy == CondMissing
    && m.deleteAnnotated == s.kcp.spec.template.deleteMachine
    && m.serverConfig == (if s.kcp.spec.template.serverConfig.Some? then s.kcp.spec.template.serverConfig
                          else Some(s.kcp.spec.serverConfig))
    && m.remediationFor == (if s.kcp.spec.template.record.Absent? then s.kcp.pending else s.kcp.spec.template.record)
  }

  ghost predicate OneMore(before: set<string>, after: set<string>) {
    exists x :: x !in before && after == before + {x}
  }

  /** One infrastructure object, one config and one machine are added, and the record of the pending
      remediation moves from the KCP object to that machine. */
  ghost predicate Creates(s: State, name: string, s': State) {
    && name !in s.machines && name in s'.machines
    && s'.machines == s.machines[name := s'.machines[name]]
    && IsNew(s'.machines[name], s)
    && s'.kcp == s.kcp.(pending := Absent) && s'.now == s.now
    && OneMore(s.infra, s'.infra) && OneMore(s.configs, s'.configs)
  }

  function WithMachine(s: State, name: string, m: Machine): State { s.(machines := s.machines[name := m]) }

  predicate InitialCreation(s: State) { s.machines == map[] && s.kcp.replicas > 0 }

  /** Scaling up is called for: too few machines, or a rollout without a surge machine yet. */
  predicate WantsGrow(s: State) {
    var n := |s.machines|;
    if NeedingRollout(s) != {} then n <= s.kcp.replicas else n < s.kcp.replicas
  }

  predicate WantsShrink(s: State) { |s.machines| > s.kcp.replicas }

  ghost predicate MayGrow(s: State) {
    WantsGrow(s) && (InitialCreation(s) || (s.machines != map[] && Stable(s, {})))
  }

  ghost predicate MayShrink(s: State, name: string) {
    && WantsShrink(s) && Stable(s, {name})
    && name in ScaleDownCandidates(s.machines, NeedingRollout(s))
  }

  ghost predicate MayRemediate(s: State, name: string) {
    && name in Unhealthy(s.machines) && !s.machines[name].deleting && s.kcp.pending.Absent?
    && (s.kcp.initialized ==>
          && |s.machines| > 1 && Deleting(s.machines) == {}
          && forall n | n in s.machines && !s.machines[n].unhealthy :: s.machines[n].nodeRef.Some?)
  }

  ghost predicate Acted(s: State, e: Effect, now: int, s': State) {
    match e
    case Nothing => s' == s
    case Leftover =>
      s' == s.(infra := s'.infra, configs := s'.configs) && s.infra <= s'.infra && s.configs <= s'.configs
    case Hooked(name) =>
      && name in s.machines && !s.machines[name].deleting
      && s' == WithMachine(s, name, s.machines[name].(hook := true))
    case Grown(name) => MayGrow(s) && Creates(s, name, s')
    case Shrunk(name) =>
      && name in s.machines && MayShrink(s, name)
      && var m := s.machines[name].(deleting := true, hook := s.machines[name].hook || s.kcp.etcdManaged);
         s' == WithMachine(s, name, m)
    case Remediated(name, data) =>
      && name in s.machines && MayRemediate(s, name)
      && Remediation.Permitted(name, s.machines[name].remediationFor, s.kcp.strategy, now, data)
      && var m := s.machines[name].(deleting := true,
                                    hook := s.machines[name].hook || (s.kcp.initialized && s.kcp.etcdManaged));
         s' == WithMachine(s, name, m).(kcp := s.kcp.(pending := Remediation.Marshal(data)))
  }

  /** What a reconcile that returns without error, and did not remediate, has done. */
  ghost predicate Decided(s: State, e: Effect) {
    if WantsGrow(s) then (if MayGrow(s) then e.Grown? else e == Nothing)
    else if WantsShrink(s) then
      || e.Shrunk?
      || (e == Nothing && exists n | n in ScaleDownCandidates(s.machines, NeedingRollout(s)) :: !Stable(s, {n}))
    else e == Nothing
  }

  /** At the end of a reconcile the KCP may be found initialised; it never goes back. */
  ghost predicate StatusUpdated(s: State, s': State) {
    s' == s || s' == s.(kcp := s.kcp.(initialized := true))
  }
}
