// Which machines a rollout selects, and that the controllers' own updates never change the selection.
module RolloutVerdict {
  import opened ControlPlane
  import opened ControlPlaneSteps
  import opened Options

  // A bootstrap config as it was read, which comparing it changes in place.
  class KThreesConfig {
    var spec: ConfigSpec

    constructor (spec: ConfigSpec)
      ensures this.spec == spec
    {
      this.spec := spec;
    }
  }

  // ---- the filters ---------------------------------------------------------------------------------------

  /** The configs that were found, up to the version. */
  ghost predicate Configs(ms: Machines, configs: map<string, KThreesConfig>)
    reads configs.Values
  {
    forall n | n in ms ::
      && (n in configs <==> ms[n].config.ConfigFound?)
      && (n in configs ==> SameButVersion(configs[n].spec, ms[n].config.spec))
  }

  /** Compares with the versions blanked, that of the config in place. */
  method MatchesKThreesBootstrapConfig(ms: Machines, name: string, configs: map<string, KThreesConfig>, spec: Spec)
    returns (matches: bool)
    requires name in ms && Configs(ms, configs)
    modifies configs.Values
    ensures matches <==> MatchesConfig(ms[name].config, spec)
    ensures matches <==> (ms[name].config.ConfigFound? ==> ms[name].config.spec.rest == spec.config.rest)
    ensures Configs(ms, configs)
  {
    if ms[name].config.NoConfigRef? || name !in configs {
      return true;
    }
    var machineConfig := configs[name];
    var kcpConfig := spec.config.(version := "");
    machineConfig.spec := machineConfig.spec.(version := "");
    return machineConfig.spec == kcpConfig;
  }

  method MatchesKCPConfiguration(ms: Machines, name: string, configs: map<string, KThreesConfig>, spec: Spec)
    returns (matches: bool)
    requires name in ms && Configs(ms, configs)
    modifies configs.Values
    ensures matches <==>
              && MatchesKubernetesVersion(ms[name], spec)
              && MatchesConfig(ms[name].config, spec)
              && MatchesTemplateClonedFrom(ms[name].infra, spec)
    ensures Configs(ms, configs)
  {
    if !MatchesKubernetesVersion(ms[name], spec) {
      return false;
    }
    matches := MatchesKThreesBootstrapConfig(ms, name, configs, spec);
    if matches {
      matches := MatchesTemplateClonedFrom(ms[name].infra, spec);
    }
  }

  /** The verdict in terms of machine and spec: a rollout deadline after the machine's creation has passed, or
      its version is missing or differs, or a config that was found differs in more than the version, or an
      infrastructure object that was found says that it was cloned from something else. */
  lemma OutdatedExactly(m: Machine, spec: Spec, now: int)
    ensures Outdated(m, spec, now) <==>
            || (spec.rolloutAfter.Some? && m.created < spec.rolloutAfter.value
                && spec.rolloutAfter.value * 1_000_000_000 < now)
            || m.version == "" || m.version != spec.version
            || (m.config.ConfigFound? && m.config.spec.rest != spec.config.rest)
            || (m.infra.Some? && "cluster.x-k8s.io/cloned-from-name" in m.infra.value
                && "cluster.x-k8s.io/cloned-from-groupkind" in m.infra.value
                && (m.infra.value["cluster.x-k8s.io/cloned-from-name"] != spec.infraName
                    || m.infra.value["cluster.x-k8s.io/cloned-from-groupkind"] != spec.infraGroupKind))
  {
  }

  /** Exactly the live machines with that verdict are selected. Configs stay fit for the next call: blanking
      versions does not change what is selected. */
  method MachinesNeedingRollout(s: State, configs: map<string, KThreesConfig>) returns (selected: set<string>)
    requires Configs(s.machines, configs)
    modifies configs.Values
    ensures selected == NeedingRollout(s)
    ensures forall n :: n in selected <==>
              n in s.machines && !s.machines[n].deleting && Outdated(s.machines[n], s.kcp.spec, s.now)
    ensures Configs(s.machines, configs)
  {
    selected := {};
    var todo := s.machines.Keys;
    while todo != {}
      invariant todo <= s.machines.Keys && Configs(s.machines, configs)
      invariant selected == NeedingRollout(s) - todo
      decreases todo
    {
      var n :| n in todo;
      todo := todo - {n};
      if s.machines[n].deleting {
        continue;
      }
      var outdated := ShouldRolloutAfter(s.machines[n], s.kcp.spec, s.now);
      if !outdated {
        var matches := MatchesKCPConfiguration(s.machines, n, configs, s.kcp.spec);
        outdated := !matches;
      }
      if outdated {
        selected := selected + {n};
      }
    }
  }

  /** Reads the configs of the machines. */
  method GetKThreesConfigs(ms: Machines) returns (configs: map<string, KThreesConfig>)
    ensures Configs(ms, configs) && fresh(configs.Values)
  {
    configs := map[];
    var todo := ms.Keys;
    while todo != {}
      invariant todo <= ms.Keys
      invariant forall n | n in configs :: n in ms && n !in todo && fresh(configs[n])
      invariant forall n | n in ms && n !in todo ::
          && (n in configs <==> ms[n].config.ConfigFound?)
          && (n in configs ==> configs[n].spec == ms[n].config.spec)
      decreases todo
    {
      var n :| n in todo;
      todo := todo - {n};
      if ms[n].config.ConfigFound? {
        var config := new KThreesConfig(ms[n].config.spec);
        configs := configs[n := config];
      }
    }
  }

  // ---- creating and updating -------------------------------------------------------------------------------

  method CopyAnnotations(onto: Annotations, from: Annotations) returns (r: Annotations)
    ensures r == onto + from
  {
    r := onto;
    var todo := from.Keys;
    while todo != {}
      invariant todo <= from.Keys
      invariant r == onto + map k | k in from && k !in todo :: from[k]
      decreases todo
    {
      var k :| k in todo;
      todo := todo - {k};
      r := r[k := from[k]];
    }
  }

  /** The infrastructure object cloned from a template object with annotations of its own. */
  method CreateFromTemplate(own: Annotations, spec: Spec) returns (r: Annotations)
    ensures CLONED_FROM_NAME in r && r[CLONED_FROM_NAME] == spec.infraName
    ensures CLONED_FROM_GROUP_KIND in r && r[CLONED_FROM_GROUP_KIND] == spec.infraGroupKind
    ensures forall k | k in own && k != CLONED_FROM_NAME && k != CLONED_FROM_GROUP_KIND :: k in r && r[k] == own[k]
  {
    r := own[CLONED_FROM_NAME := spec.infraName];
    r := r[CLONED_FROM_GROUP_KIND := spec.infraGroupKind];
  }

  /** The machine as the controller wants it. A new machine takes over the record of the pending
      remediation; an existing one keeps its version, its references and what it carries, as far as the
      template has no such annotation. */
  method ComputeDesiredMachine(kcp: Kcp, failureDomain: string, existing: Option<Machine>) returns (m: Machine)
    ensures var template := kcp.spec.template;
            match existing
            case Some(e) =>
              && m == UpdatedMachine(e, template).(failureDomain := failureDomain)
              && m == e.(failureDomain := failureDomain,
                         deleteAnnotated := e.deleteAnnotated || template.deleteMachine,
                         serverConfig := if template.serverConfig.Some? then template.serverConfig else e.serverConfig,
                         remediationFor := if template.record.Absent? then e.remediationFor else template.record)
            case None =>
              m == Machine(0, kcp.spec.version, None, NoConfigRef, failureDomain, false, template.deleteMachine,
                           if template.serverConfig.Some? then template.serverConfig else Some(kcp.spec.serverConfig),
                           None, false, CondMissing, CondMissing, false,
                           if template.record.Absent? then kcp.pending else template.record)
  {
    var version, serverConfig, record;
    if existing.None? {
      version := kcp.spec.version;
      serverConfig := Some(kcp.spec.serverConfig);
      record := kcp.pending;
    } else {
      version := existing.value.version;
      serverConfig := existing.value.serverConfig;
      record := existing.value.remediationFor;
    }
    m := Machine(0, version, None, NoConfigRef, failureDomain, false, false, serverConfig,
                 None, false, CondMissing, CondMissing, false, record);
    if kcp.spec.template.serverConfig.Some? {
      m := m.(serverConfig := kcp.spec.template.serverConfig);
    }
    if !kcp.spec.template.record.Absent? {
      m := m.(remediationFor := kcp.spec.template.record);
    }
    if kcp.spec.template.deleteMachine {
      m := m.(deleteAnnotated := true);
    }
    if existing.Some? {
      // Applying the machine leaves alone what others own.
      m := existing.value.(failureDomain := m.failureDomain, version := m.version, serverConfig := m.serverConfig,
                           remediationFor := m.remediationFor,
                           deleteAnnotated := existing.value.deleteAnnotated || m.deleteAnnotated);
    }
  }

  /** The bootstrap controller completes the config of a machine. */
  method ReconcileTopLevelObjectSettings(m: Machine) returns (m': Machine)
    ensures m' == m || (m.config.ConfigFound? && m' == m.(config := m'.config) && m'.config.ConfigFound?)
    ensures forall template: Template :: Maintained(m, template, m')
    ensures m.config.ConfigFound? ==>
              && m'.config.spec.rest == m.config.spec.rest
              && m'.config.spec.version == (if m.config.spec.version == "" then m.version else m.config.spec.version)
  {
    m' := m;
    if m.config.ConfigFound? && m.config.spec.version == "" {
      m' := m.(config := ConfigFound(m.config.spec.(version := m.version)));
    }
  }

  // ---- the verdict over time ---------------------------------------------------------------------------------

  /** Of what decides about a rollout, at most this has changed: the config's version was filled in and the
      annotations of the template were applied to the infrastructure object. */
  predicate Maintained(m: Machine, template: Template, m': Machine) {
    && m'.created == m.created && m'.version == m.version
    && (m'.infra == m.infra || (m.infra.Some? && m'.infra == Some(m.infra.value + template.others)))
    && (m'.config == m.config
        || (m.config.ConfigFound? && m'.config.ConfigFound? && SameButVersion(m.config.spec, m'.config.spec)))
  }

  /** Every update by the controllers is of that kind. */
  lemma TouchedIsMaintained(m: Machine, template: Template, m': Machine)
    requires Touched(m, template, m')
    ensures Maintained(m, template, m')
  {
  }

  lemma VerdictStays(m: Machine, spec: Spec, m': Machine, now: int)
    requires Maintained(m, spec.template, m') && KeepsOrigin(spec.template)
    ensures Outdated(m', spec, now) <==> Outdated(m, spec, now)
  {
  }

  ghost predicate MaintainedAt(history: seq<Machine>, template: Template, i: nat)
    requires i + 1 < |history|
  {
    Maintained(history[i], template, history[i + 1])
  }

  /** What a look at the machine sees when its infrastructure object, or its config, is not found. */
  function Seen(m: Machine, infraFound: bool, configFound: bool): Machine {
    m.(infra := if infraFound then m.infra else None,
       config := if configFound || m.config.NoConfigRef? then m.config else ConfigNotFound)
  }

  /** While the spec is fixed no update by the controllers changes the verdict on any machine, in either
      direction, whether its objects are found or not. */
  lemma {:induction false} VerdictIsStable(history: seq<Machine>, spec: Spec, i: nat,
                                           infraFound: bool, configFound: bool, now: int)
    requires i < |history| && KeepsOrigin(spec.template)
    requires forall j | 0 <= j < |history| - 1 :: MaintainedAt(history, spec.template, j)
    ensures Outdated(Seen(history[i], infraFound, configFound), spec, now) <==>
            Outdated(Seen(history[0], infraFound, configFound), spec, now)
  {
    if i > 0 {
      VerdictIsStable(history, spec, i - 1, infraFound, configFound, now);
      assert MaintainedAt(history, spec.template, i - 1);
      VerdictStays(Seen(history[i - 1], infraFound, configFound), spec, Seen(history[i], infraFound, configFound), now);
    }
  }

  /** A machine that a reconcile has created is selected for rollout, at any later time, exactly when the
      spec names no version, or the rollout deadline lies after the machine's creation and has passed. */
  lemma CreatedMachineIsUpToDate(s: State, name: string, s': State, history: seq<Machine>, i: nat,
                                 infraFound: bool, configFound: bool, now: int)
    requires Creates(s, name, s') && i < |history| && history[0] == s'.machines[name]
    requires KeepsOrigin(s.kcp.spec.template)
    requires forall j | 0 <= j < |history| - 1 :: MaintainedAt(history, s.kcp.spec.template, j)
    ensures Outdated(Seen(history[i], infraFound, configFound), s.kcp.spec, now) <==>
            s.kcp.spec.version == "" || ShouldRolloutAfter(history[0], s.kcp.spec, now)
  {
    VerdictIsStable(history, s.kcp.spec, i, infraFound, configFound, now);
  }

  /** In particular it is not selected by the reconcile that creates it, if the spec names a version: a
      deadline that has passed then is not after its creation. */
  lemma FreshMachine(m: Machine, s: State)
    requires IsNew(m, s)
    ensures Outdated(m, s.kcp.spec, s.now) <==> s.kcp.spec.version == ""
  {
  }

  /** A deadline two seconds after its creation makes it outdated three seconds after. */
  lemma FutureDeadline(m: Machine, s: State)
    requires IsNew(m, s) && s.kcp.spec.version != "" && s.kcp.spec.rolloutAfter == Some(m.created + 2)
    ensures !Outdated(m, s.kcp.spec, s.now)
    ensures Outdated(m, s.kcp.spec, (m.created + 3) * SECOND)
  {
  }

  /** Without a version every machine is outdated. */
  lemma NoVersion(s: State)
    requires s.kcp.spec.version == ""
    ensures NeedingRollout(s) == Active(s.machines)
  {
  }

  /** No rollout deadline passes between the two times. */
  predicate NoDeadlinePasses(spec: Spec, now: int, later: int) {
    spec.rolloutAfter.Some? ==> !(now <= spec.rolloutAfter.value * SECOND < later)
  }
}
