// The control plane as the controller sees it: owned machines, the KCP object, and the selectors and
// checks that decide whether to scale.
module ControlPlane {
  import opened Options

  datatype Cond = CondMissing | CondTrue | CondFalse | CondUnknown

  // Times and durations are in nanoseconds.
  const SECOND: int := 1_000_000_000

  // What is recorded about a remediation; None is the zero timestamp.
  datatype RemediationData = RemediationData(machine: string, timestamp: Option<int>, retryCount: int)

  // The annotation holding that record: absent, not decodable, or a record.
  datatype Annotation = Absent | Corrupt | Record(data: RemediationData)

  type Annotations = map<string, string>

  // A bootstrap config: its version, and everything else as one opaque value.
  datatype ConfigSpec = ConfigSpec(version: string, rest: string)

  // What a machine's reference to its bootstrap config leads to.
  datatype ConfigRef = NoConfigRef | ConfigNotFound | ConfigFound(spec: ConfigSpec)

  // The annotations of the machine template: those under keys that the controllers use, and the others.
  datatype Template = Template(record: Annotation, serverConfig: Option<string>, deleteMachine: bool,
                               others: Annotations)

  // The part of the KCP spec that machines are created from and compared with. The rollout deadline is in
  // whole seconds, like creation times.
  datatype Spec = Spec(
    version: string,
    config: ConfigSpec,
    serverConfig: string,
    infraName: string,
    infraGroupKind: string,
    rolloutAfter: Option<int>,
    template: Template)

  datatype Machine = Machine(
    created: int,                // in whole seconds
    version: string,
    infra: Option<Annotations>,  // annotations of the infrastructure object, if it is found
    config: ConfigRef,
    failureDomain: string,
    deleting: bool,
    deleteAnnotated: bool,       // carries the user's delete-this-machine annotation
    serverConfig: Option<string>,
    nodeRef: Option<string>,
    unhealthy: bool,             // marked by the machine health check
    agentHealthy: Cond,
    etcdHealthy: Cond,
    hook: bool,                  // carries the pre-terminate hook
    remediationFor: Annotation)

  type Machines = map<string, Machine>

  datatype Strategy = Strategy(maxRetry: Option<int>, retryPeriod: int, minHealthyPeriod: Option<int>)

  datatype Kcp = Kcp(
    replicas: nat,
    initialized: bool,
    pending: Annotation,         // remediation in progress
    etcdManaged: bool,
    strategy: Option<Strategy>,
    componentsHealthy: Cond,
    etcdClusterHealthy: Cond,
    spec: Spec)

  // The API objects, and the time at which they are looked at.
  datatype State = State(machines: Machines, kcp: Kcp, infra: set<string>, configs: set<string>, now: int)

  // ---- which machines are outdated -------------------------------------------------------------------

  const CLONED_FROM_NAME := "cluster.x-k8s.io/cloned-from-name"
  const CLONED_FROM_GROUP_KIND := "cluster.x-k8s.io/cloned-from-groupkind"

  predicate MatchesKubernetesVersion(m: Machine, spec: Spec) { m.version != "" && m.version == spec.version }

  predicate SameButVersion(a: ConfigSpec, b: ConfigSpec) { a.rest == b.rest }

  /** A config that is not referenced, or was not found, matches. */
  predicate MatchesConfig(config: ConfigRef, spec: Spec) {
    config.ConfigFound? ==> SameButVersion(config.spec, spec.config)
  }

  /** An infrastructure object that was not found, or does not say what it was cloned from, matches. */
  predicate MatchesTemplateClonedFrom(infra: Option<Annotations>, spec: Spec) {
    infra.Some? && CLONED_FROM_NAME in infra.value && CLONED_FROM_GROUP_KIND in infra.value ==>
      infra.value[CLONED_FROM_NAME] == spec.infraName && infra.value[CLONED_FROM_GROUP_KIND] == spec.infraGroupKind
  }

  /** The deadline is over and the machine was created before it; none is the zero time, before anything. */
  predicate ShouldRolloutAfter(m: Machine, spec: Spec, now: int) {
    spec.rolloutAfter.Some? && m.created < spec.rolloutAfter.value && spec.rolloutAfter.value * SECOND < now
  }

  predicate Outdated(m: Machine, spec: Spec, now: int) {
    || ShouldRolloutAfter(m, spec, now)
    || !MatchesKubernetesVersion(m, spec)
    || !MatchesConfig(m.config, spec)
    || !MatchesTemplateClonedFrom(m.infra, spec)
  }

  // ---- selectors -----------------------------------------------------------------------------------

  function Deleting(ms: Machines): set<string> { set n | n in ms && ms[n].deleting }

  function Active(ms: Machines): set<string> { set n | n in ms && !ms[n].deleting }

  function NeedingRollout(s: State): set<string> {
    set n | n in s.machines && !s.machines[n].deleting && Outdated(s.machines[n], s.kcp.spec, s.now)
  }

  function Unhealthy(ms: Machines): set<string> { set n | n in ms && ms[n].unhealthy }

  function Healthy(ms: Machines): set<string> { set n | n in ms && !ms[n].unhealthy }

  function Annotated(ms: Machines, among: set<string>): set<string> {
    set n | n in among && n in ms && ms[n].deleteAnnotated
  }

  function NodeRefs(ms: Machines): set<string> { set n | n in ms && ms[n].nodeRef.Some? :: ms[n].nodeRef.value }

  /** hasProvisioningMachine: some machine has no node yet. */
  predicate HasProvisioning(ms: Machines) { exists n | n in ms :: ms[n].nodeRef.None? }

  ghost predicate DistinctNodeRefs(ms: Machines) {
    forall m, n | m in ms && n in ms && m != n && ms[m].nodeRef.Some? :: ms[m].nodeRef != ms[n].nodeRef
  }

  /** Every machine's remediation record, if any, can be decoded. */
  ghost predicate NoneCorrupt(ms: Machines) { forall n | n in ms :: !ms[n].remediationFor.Corrupt? }

  /** The machines among which scale-down chooses: annotated outdated ones first, then annotated ones,
      then outdated ones, then all. */
  function ScaleDownCandidates(ms: Machines, outdated: set<string>): set<string> {
    if Annotated(ms, outdated) != {} then Annotated(ms, outdated)
    else if Annotated(ms, ms.Keys) != {} then Annotated(ms, ms.Keys)
    else if outdated != {} then outdated
    else ms.Keys
  }

  /** Machines are ordered by creation time, and by name where that is the same. */
  predicate Older(ms: Machines, m: string, n: string)
    requires m in ms && n in ms
  {
    ms[m].created < ms[n].created || (ms[m].created == ms[n].created && Before(m, n))
  }

  predicate Before(a: string, b: string) {
    b != [] && (a == [] || a[0] < b[0] || (a[0] == b[0] && Before(a[1..], b[1..])))
  }

  lemma {:induction false} BeforeIsTotal(a: string, b: string)
    ensures Before(a, b) || a == b || Before(b, a)
    ensures !(Before(a, b) && Before(b, a))
  {
    if a != [] && b != [] && a[0] == b[0] {
      BeforeIsTotal(a[1..], b[1..]);
      assert a[1..] == b[1..] ==> a == [a[0]] + a[1..] == b;
    }
  }

  lemma {:induction false} BeforeIsTransitive(a: string, b: string, c: string)
    requires Before(a, b) && Before(b, c)
    ensures Before(a, c)
  {
    if a != [] && a[0] == b[0] == c[0] {
      BeforeIsTransitive(a[1..], b[1..], c[1..]);
    }
  }

  lemma OlderIsStrict(ms: Machines, m: string, n: string)
    requires m in ms && n in ms
    ensures Older(ms, m, n) || m == n || Older(ms, n, m)
    ensures !(Older(ms, m, n) && Older(ms, n, m))
  {
    BeforeIsTotal(m, n);
  }

  lemma OlderIsTransitive(ms: Machines, k: string, m: string, n: string)
    requires k in ms && m in ms && n in ms && Older(ms, k, m) && Older(ms, m, n)
    ensures Older(ms, k, n)
  {
    if ms[k].created == ms[n].created {
      BeforeIsTransitive(k, m, n);
    }
  }

  /** The machine is the first, or the last, of `among`. */
  ghost predicate IsExtreme(ms: Machines, among: set<string>, newest: bool, r: string)
    requires among <= ms.Keys
  {
    r in among && forall n | n in among && n != r :: if newest then Older(ms, n, r) else Older(ms, r, n)
  }

  /** Newest and Oldest of a set of machines. */
  method Extreme(ms: Machines, among: set<string>, newest: bool) returns (r: Option<string>)
    requires among <= ms.Keys
    ensures r.None? <==> among == {}
    ensures r.Some? ==> IsExtreme(ms, among, newest, r.value)
    ensures r.Some? ==> forall n | n in among ::
                if newest then ms[n].created <= ms[r.value].created else ms[r.value].created <= ms[n].created
  {
    r := None;
    var todo := among;
    while todo != {}
      invariant todo <= among
      invariant r.None? ==> todo == among
      invariant r.Some? ==> IsExtreme(ms, among - todo, newest, r.value)
      decreases todo
    {
      var n :| n in todo;
      ghost var seen := among - todo;
      todo := todo - {n};
      if r.None? {
        r := Some(n);
      } else {
        OlderIsStrict(ms, r.value, n);
        ExtremeOfMore(ms, seen, newest, r.value, n);
        assert among - todo == seen + {n};
        if if newest then Older(ms, r.value, n) else Older(ms, n, r.value) {
          r := Some(n);
        }
      }
    }
  }

  lemma ExtremeOfMore(ms: Machines, seen: set<string>, newest: bool, r: string, n: string)
    requires seen <= ms.Keys && n in ms && n !in seen && IsExtreme(ms, seen, newest, r)
    ensures (if newest then Older(ms, r, n) else Older(ms, n, r)) ==> IsExtreme(ms, seen + {n}, newest, n)
    ensures (if newest then Older(ms, n, r) else Older(ms, r, n)) ==> IsExtreme(ms, seen + {n}, newest, r)
  {
    if if newest then Older(ms, r, n) else Older(ms, n, r) {
      forall k | k in seen ensures if newest then Older(ms, k, n) else Older(ms, n, k) {
        if k != r {
          if newest { OlderIsTransitive(ms, k, r, n); } else { OlderIsTransitive(ms, n, r, k); }
        }
      }
    }
  }

  /** The oldest unhealthy machine without a node, else the oldest unhealthy one. */
  ghost predicate IsRemediationTarget(ms: Machines, r: string) {
    var unprovisioned := set n | n in Unhealthy(ms) && ms[n].nodeRef.None?;
    IsExtreme(ms, if unprovisioned != {} then unprovisioned else Unhealthy(ms), false, r)
  }

  method MachineToBeRemediated(ms: Machines) returns (r: Option<string>)
    ensures r.None? <==> forall n | n in ms :: !ms[n].unhealthy
    ensures r.Some? ==> IsRemediationTarget(ms, r.value)
    ensures r.Some? ==> r.value in ms && ms[r.value].unhealthy && forall n | n in ms && ms[n].unhealthy ::
                if ms[n].nodeRef.None? then ms[r.value].nodeRef.None? && ms[r.value].created <= ms[n].created
                else ms[r.value].nodeRef.Some? ==> ms[r.value].created <= ms[n].created
  {
    var unprovisioned := set n | n in Unhealthy(ms) && ms[n].nodeRef.None?;
    assert forall n | n in ms && ms[n].unhealthy :: n in Unhealthy(ms) && (ms[n].nodeRef.None? ==> n in unprovisioned);
    r := Extreme(ms, unprovisioned, false);
    if r.None? {
      r := Extreme(ms, Unhealthy(ms), false);
    }
  }

  // ---- selecting a machine to delete -------------------------------------------------------------------

  /** PickMost, of which nothing is known, unless it is said to name the domain of a candidate. */
  method PickMost(ms: Machines, candidates: set<string>, namesCandidate: bool) returns (domain: string)
    requires candidates <= ms.Keys
    ensures namesCandidate && candidates != {} ==> exists n | n in candidates :: ms[n].failureDomain == domain
  {
    domain := *;
    if namesCandidate && candidates != {} {
      var n :| n in candidates;
      domain := ms[n].failureDomain;
    }
  }

  function InDomain(ms: Machines, among: set<string>, domain: string): set<string> {
    set n | n in among && n in ms && ms[n].failureDomain == domain
  }

  function OutsideDomains(ms: Machines, among: set<string>, domains: set<string>): set<string> {
    set n | n in among && n in ms && ms[n].failureDomain !in domains
  }

  /** The machine is a candidate and the oldest of them in its failure domain, which is that of the oldest
      candidate outside the known domains, if there is one. */
  ghost predicate IsSelected(ms: Machines, outdated: set<string>, domains: set<string>, r: string)
    requires outdated <= ms.Keys
  {
    var candidates := ScaleDownCandidates(ms, outdated);
    && r in candidates && candidates <= ms.Keys
    && IsExtreme(ms, InDomain(ms, candidates, ms[r].failureDomain), false, r)
    && (OutsideDomains(ms, candidates, domains) != {} ==>
          IsExtreme(ms, OutsideDomains(ms, candidates, domains), false, r))
  }

  /** The precedence: an annotated outdated machine as long as there is one, else an annotated one, else an
      outdated one; of machines alike in that and in their failure domain, one created first. */
  lemma SelectionPrecedence(ms: Machines, outdated: set<string>, domains: set<string>, r: string)
    requires outdated <= ms.Keys && IsSelected(ms, outdated, domains, r)
    ensures (exists n | n in outdated :: ms[n].deleteAnnotated) ==> r in outdated && ms[r].deleteAnnotated
    ensures (exists n | n in ms :: ms[n].deleteAnnotated) ==> ms[r].deleteAnnotated
    ensures outdated != {} && (forall n | n in ms :: !ms[n].deleteAnnotated) ==> r in outdated
    ensures forall n | n in ms && ms[n].failureDomain == ms[r].failureDomain
              && ms[n].deleteAnnotated == ms[r].deleteAnnotated && (n in outdated <==> r in outdated) ::
                ms[r].created <= ms[n].created
  {
    var annotated := Annotated(ms, outdated);
    assert forall n | n in outdated && ms[n].deleteAnnotated :: n in annotated;
    assert forall n | n in ms && ms[n].deleteAnnotated :: n in Annotated(ms, ms.Keys);
    assert Annotated(ms, ms.Keys) == {} ==> annotated == {};
    forall n | n in ms && ms[n].failureDomain == ms[r].failureDomain
      && ms[n].deleteAnnotated == ms[r].deleteAnnotated && (n in outdated <==> r in outdated)
      ensures ms[r].created <= ms[n].created
    {
      assert n in InDomain(ms, ScaleDownCandidates(ms, outdated), ms[r].failureDomain);
    }
  }

  /** The oldest candidate of the chosen failure domain: that of the oldest candidate outside the known
      domains, else the one PickMost names. */
  method SelectMachineForScaleDown(ms: Machines, outdated: set<string>, domains: set<string>, namesCandidate: bool)
    returns (r: Option<string>)
    requires outdated <= ms.Keys
    ensures r.Some? ==> IsSelected(ms, outdated, domains, r.value)
    ensures OutsideDomains(ms, ScaleDownCandidates(ms, outdated), domains) != {} ==> r.Some?
    ensures namesCandidate && ms.Keys != {} ==> r.Some?
  {
    var candidates := ScaleDownCandidates(ms, outdated);
    assert candidates <= ms.Keys && (ms.Keys != {} ==> candidates != {});
    var stray := Extreme(ms, OutsideDomains(ms, candidates, domains), false);
    var domain;
    if stray.Some? {
      domain := ms[stray.value].failureDomain;
      assert stray.value in InDomain(ms, candidates, domain);
    } else {
      domain := PickMost(ms, candidates, namesCandidate);
      if namesCandidate && candidates != {} {
        var n :| n in candidates && ms[n].failureDomain == domain;
        assert n in InDomain(ms, candidates, domain);
      }
    }
    r := Extreme(ms, InDomain(ms, candidates, domain), false);
    if stray.Some? {
      StrayIsChosen(ms, candidates, domains, stray.value, r.value);
    }
  }

  lemma StrayIsChosen(ms: Machines, candidates: set<string>, domains: set<string>, stray: string, r: string)
    requires candidates <= ms.Keys
    requires IsExtreme(ms, OutsideDomains(ms, candidates, domains), false, stray)
    requires IsExtreme(ms, InDomain(ms, candidates, ms[stray].failureDomain), false, r)
    ensures r == stray
  {
    assert stray in InDomain(ms, candidates, ms[stray].failureDomain);
    assert r in OutsideDomains(ms, candidates, domains);
    OlderIsStrict(ms, r, stray);
  }

  // ---- preflight checks ------------------------------------------------------------------------------

  predicate ConditionsTrue(m: Machine, etcdManaged: bool) {
    m.agentHealthy == CondTrue && (etcdManaged ==> m.etcdHealthy == CondTrue)
  }

  /** Nothing is being deleted and every machine not excluded has its health conditions true. */
  ghost predicate Stable(s: State, excluded: set<string>) {
    && Deleting(s.machines) == {}
    && forall n | n in s.machines && n !in excluded :: ConditionsTrue(s.machines[n], s.kcp.etcdManaged)
  }

  method PreflightChecks(s: State, excluded: set<string>) returns (pass: bool)
    ensures pass <==> s.machines == map[] || Stable(s, excluded)
    ensures pass ==> forall n | n in s.machines && n !in excluded ::
                && !s.machines[n].deleting && s.machines[n].agentHealthy == CondTrue
                && (s.kcp.etcdManaged ==> s.machines[n].etcdHealthy == CondTrue)
    ensures !pass ==> exists n | n in s.machines ::
                || s.machines[n].deleting
                || (n !in excluded && (s.machines[n].agentHealthy != CondTrue
                                       || (s.kcp.etcdManaged && s.machines[n].etcdHealthy != CondTrue)))
  {
    if |s.machines| == 0 {
      return true;
    }
    if Deleting(s.machines) != {} {
      var n :| n in Deleting(s.machines);
      return false;
    }
    assert forall n | n in s.machines :: n !in Deleting(s.machines);
    var errors := 0;
    var todo := s.machines.Keys;
    while todo != {}
      invariant todo <= s.machines.Keys && errors >= 0
      invariant errors == 0 <==> forall n | n in s.machines && n !in todo && n !in excluded ::
                                   ConditionsTrue(s.machines[n], s.kcp.etcdManaged)
      decreases todo
    {
      var n :| n in todo;
      todo := todo - {n};
      if n in excluded {
        continue;
      }
      if s.machines[n].agentHealthy != CondTrue {
        errors := errors + 1;
      }
      if s.kcp.etcdManaged && s.machines[n].etcdHealthy != CondTrue {
        errors := errors + 1;
      }
    }
    return errors == 0;
  }
}
