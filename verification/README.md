# The k3s control plane provider: a verified model

This project models the parts of the Cluster API provider for k3s that decide what happens to a control
plane, and proves what they keep. The methods follow the Go functions branch by branch; the lemmas speak
about every run that such methods, other controllers and users can form.

- **The control plane controller** (`ControlPlane`, `ControlPlaneSteps`, `Reconciler`, `Remediation`,
  `HealthConditions`, `EtcdConditions`, `Etcd`). One reconcile is a conditions pass, the reconciliation of etcd members,
  remediation, then rollout or scaling. `Reconciler` holds the object whose methods perform it, on owned
  machines, the KThreesControlPlane object, infrastructure objects and bootstrap configs. `Acted` says what
  a reconcile may do, `Accomplished` what one without an error has done.
- **What a rollout selects** (`RolloutVerdict`). Whether a machine is outdated is computed, from its version,
  its config, its infrastructure object, its creation time and the spec, everywhere in the project.
- **Runs** (`Runs`, `HookHandshake`, `ControlLoop`). Reconciles are interleaved with anything the cluster
  and its users do: time passes, nodes appear, machines fall ill, the spec is edited, machines that are
  being deleted go away. `HookHandshake` adds the machine controller and the etcd members; `ControlLoop`
  performs the methods of both controllers and shows that they form such runs.
- **Server side apply helpers** (`ContractPath`, `JsonTree`, `FilterIntent`, `PathFilters`,
  `ManagedFields`, `SsaPatch`). `FilterIntent` prunes maps in the heap, visits their fields in any order,
  and builds paths by an append that writes into backing arrays shared by siblings; the result is the tree
  that pruning with pure paths gives.
- **Create-if-absent protocols** (`InitLock`, `InitBootstrap`, `Certificates`): the init lock, one API call
  at a time and one reconcile at a time, and the generation of CA secrets.

## What the code does not do

Some properties one might expect are false of the code. Each has a concrete case, and the condition under
which it holds, as an equivalence.

- The init lock excludes other machines only if deletions are safer than "nobody deletes the holder": a
  machine that read the holder's name may find that machine gone later and break what has become another
  machine's lock (`BreakingAnotherMachinesLock`). A deletion is unsafe if and only if it lets two machines
  past the lock (`UnsafeExactly`).
- Two machines may have stored init secrets (`TwoStoredSecrets`); only one has them published. A second
  one can follow if and only if an existing machine was left with a secret that is stored but not published
  (`StoredTwiceExactly`).
- Without a version in the spec every machine is outdated and rollouts never end (`NeverDone`). With one
  they do (`RolloutTerminates`). A rollout deadline that passes starts one more, but under a fixed spec that
  happens at most once (`DeadlinePassesOnce`).
- A machine created from the current spec is selected for rollout later if the spec's rollout deadline lies
  after its creation (`FutureDeadline`); `CreatedMachineIsUpToDate` is an equivalence.
- `MaxRetry` limits anything if and only if the retry period is shorter than the minimum healthy period
  (`LimitMattersExactly`; `LimitIgnored` is a case).
- Scaling down hands etcd leadership to the newest machine (`LeadershipMoved`). The machine that goes keeps
  the leader if and only if it had it and is that machine (`LeadershipKeptExactly`, `LeaderScaledDown`).
  Remediation cannot do that, since its candidate is healthy.
- A true agent condition does not mean a ready node: a machine found healthy once stays so while its node is
  reachable but not ready (`HealthOutlivesNode`). `HealthMeansReadyExactly` says when it does. A node that
  cannot be read ends the pass: machines hosted by later nodes stay as they were (`UpdateAgentConditions`).
- A conditions pass can mark the etcd cluster healthy without having read a member list, when no control
  plane node was listed; the early return of the member reconciliation then rests on older conditions
  (`UpdateManagedEtcdConditions`).
- A cached apply is skipped although it would change the object, when the version it is sent for is an old
  one (`StaleRun`): it makes no difference if and only if the fields and the ownership it is about have
  not been touched since (`StaleHit`).
- `DropManagedFields` rewrites the ownership documents one after the other, in place, so an entry that
  cannot be decoded leaves the ones before it rewritten, and no others, although an error is returned
  (`HalfDropped`).

## Assumptions

- An API call that fails has no effect, except that removing an etcd member may have happened. Generated
  names are fresh. Reads of machines, config maps and the KCP object are current; reads of secrets may lag.
  The API server stamps a machine with whole seconds of a moment after the reconcile began.
- The patch of the KCP object that ends a reconcile succeeds, and nobody else changes the remediation
  annotations or the health conditions of machines. The KCP object is not being deleted.
- Cluster API keeps a machine object until its hook is gone. Only this controller deletes control plane
  machines.
- For the termination of rollouts: the spec is fixed, names a version (unless no replicas are wanted), and
  its template neither marks machines for deletion nor sets the annotations that say what an infrastructure
  object was cloned from; the latter is also assumed where verdicts are said to be stable. For the
  conservation of records: the template has no remediation record of its own.
- The admission webhooks have defaulted the config in a KCP object just as they default bootstrap configs
  (controlplane/api/v1beta2/kthreescontrolplane_webhook.go:81-87), so that a new machine's config equals the
  one in the spec.
- The hash in the request cache is injective. One field manager applies, and an apply changes nothing
  exactly when the object carries the intent and the manager owns exactly what the intent claims.
- Library functions are modelled by what they promise: oldest and newest (by creation time, then name), the
  rollout deadline, JSON; `PickMost` may name any domain.
- A server called reliable lets no call fail; a reliable workload cluster also connects through every node,
  and a reliable store of secrets is not written by others meanwhile. Contracts say what happens then,
  besides what holds whatever fails.
- Bootstrap reconciles are steps of their own in `InitBootstrap`, as with the controller's default
  concurrency of one (bootstrap/main.go:68).

## Model

| member | source | states |
|---|---|---|
| ControlPlane.Extreme | controlplane/controllers/remediation.go:298-304 | the oldest or newest machine of a set, by creation time and then name |
| ControlPlane.MachineToBeRemediated | controlplane/controllers/remediation.go:298-304 | the oldest unhealthy machine without a node if there is one, else the oldest unhealthy one; none exactly when none is unhealthy |
| ControlPlane.SelectMachineForScaleDown | controlplane/controllers/scale.go:246-257 | a candidate, the oldest of its failure domain; machines outside the known domains come first, oldest first |
| ControlPlane.SelectionPrecedence | controlplane/controllers/scale.go:246-257 | the machine chosen is annotated and outdated if there is such a one, else annotated if there is one, else outdated if there is one; of those alike in that and in their domain none was created before it |
| ControlPlane.PreflightChecks | controlplane/controllers/scale.go:177-244 | passes exactly when there are no machines, or none is being deleted and every machine not excluded has its health conditions true |
| Remediation.CheckRetryLimits | controlplane/controllers/remediation.go:311-405 | in the strategy's own fields: fails exactly on an undecodable record; restarts at 0 without a record or once the minimum healthy period, an hour by default, has passed since the last; before that waits exactly while the retry period lasts or the limit is reached, and else goes on with the count plus one |
| Remediation.RetryChain | controlplane/controllers/remediation.go:311-405 | along any chain of retries the counts are 0, 1, 2, ...; each comes no sooner after the last, in whole seconds, than the strategy's retry period and sooner than its minimum healthy period; with a non-negative limit there are at most MaxRetry + 1 |
| Remediation.MissingTimestamp | controlplane/controllers/remediation.go:343-367 | a record without a timestamp starts a new sequence whenever the healthy or the retry period is not negative, and exactly when the healthy period is at most twice the longer one |
| Remediation.LimitMattersExactly | controlplane/controllers/remediation.go:359-404 | changing MaxRetry changes some verdict if and only if the retry period is shorter than the healthy period |
| Remediation.LimitIgnored | controlplane/controllers/remediation.go:359-404 | with a retry period of the healthy period and one retry allowed, every failure an hour after the last remediation is let through as the first |
| Remediation.CanSafelyRemoveEtcdMember | controlplane/controllers/remediation.go:432-511 | true exactly when the members other than the target's have a strict healthy majority, counted one by one; equivalently t >= 1 and at most (t - 1) / 2 of them are unhealthy |
| Remediation.PurgeKeepsMajority | pkg/k3s/workload_cluster_etcd.go:77-97 | whatever reconciling etcd members removes, every healthy majority of members other than one stays |
| Remediation.MachineForNode | pkg/k3s/workload_cluster.go:599-648 | a machine with that node reference, or none exactly when no machine has it |
| Etcd.LastDash | pkg/etcd/util/util.go:29-38 | the position of the last dash |
| Etcd.NodeNameRoundTrip | pkg/etcd/util/util.go:29-38 | the node name read from node, dash and dashless suffix is the node, dashes in the node's own name included |
| Etcd.MemberForName | pkg/etcd/util/util.go:41-48 | the first member of the node |
| Etcd.KeptMembers | pkg/k3s/workload_cluster_etcd.go:77-97 | the members to keep are exactly the unstarted ones and those of listed nodes |
| Etcd.Workload.ForFirstAvailableNode | pkg/k3s/etcd_client_generator.go:104-130 | a client through one of the nodes, knowing the leader; through the first if every node connects |
| Etcd.Workload.ForLeader | pkg/k3s/etcd_client_generator.go:133-204 | a client through the node of the leader's own member; found, when all calls succeed, exactly if that node is listed |
| Etcd.Workload.ReconcileEtcdMembers | pkg/k3s/workload_cluster_etcd.go:45-55 | never removes a member whose node name is empty or listed, whatever fails; without an error, and if some node answered, exactly the members to keep remain, in order; that is so whenever all calls succeed and there are two nodes; nothing happens when none is stale or fewer than two nodes exist |
| Etcd.Workload.ReconcileEtcdMember | pkg/k3s/workload_cluster_etcd.go:57-99 | the same for one listed node, also when several members share a node name |
| Etcd.Workload.RemoveMemberForNonExistingNode | pkg/k3s/workload_cluster_etcd.go:111-150 | removes at most members of that node name and, without an error, at least one if there was any; refuses with fewer than two nodes |
| Etcd.Workload.RemoveMemberForNode | pkg/k3s/workload_cluster_etcd.go:152-190 | done only when the node is gone or marked; otherwise writes the request on that node alone; refuses with fewer than two nodes, and, when all calls succeed, only then |
| Etcd.Workload.ForwardEtcdLeadership | pkg/k3s/workload_cluster_etcd.go:193-238 | without an error the candidate's member leads now if that of the machine's node led before, and otherwise the leader is the same; no error when all calls succeed, the leader is on a listed node and the candidate has a member |
| Etcd.Workload.EtcdMembers | pkg/k3s/workload_cluster_etcd.go:247-273 | the node names of the current members, in order |
| HealthConditions.AggregateFromMachines | pkg/k3s/workload_cluster.go:341-394 | false exactly on an error or a false report, else true on any true report although others are unknown or missing, else unknown, else unchanged |
| HealthConditions.InspectAgents | pkg/k3s/workload_cluster.go:204-290 | node references and names being distinct, each machine has what its node says if that node was reached, and otherwise what it had; the errors are exactly the nodes reached that no machine hosts, in order; completes exactly when every node to be read can be read, else ends at one that cannot |
| HealthConditions.MarkMissingNodes | pkg/k3s/workload_cluster.go:292-315 | exactly the provisioned machines without a listed node are marked false |
| HealthConditions.UpdateAgentConditions | pkg/k3s/workload_cluster.go:178-328 | complete exactly when every node to be read can be read; then every machine has what its node says, false without one, and unprovisioned ones what they had, and the control plane what these add up to; cut short, the machines of the nodes up to there have what those say, all others what they had, and the control plane too |
| HealthConditions.HealthMeansReadyExactly | pkg/k3s/workload_cluster.go:281-289 | after a complete pass a true condition means a reachable, ready node exactly if the condition was not both true before and left as it was |
| HealthConditions.HealthOutlivesNode | pkg/k3s/workload_cluster.go:281-289 | a pass over a healthy machine whose node is not ready any more leaves it and the control plane healthy |
| EtcdConditions.MarkMissingMembers | pkg/k3s/workload_cluster.go:599-648 | exactly the provisioned machines whose node has no member are marked false |
| EtcdConditions.CompareMachinesAndMembers | pkg/k3s/workload_cluster.go:599-648 | does that, and reports an error exactly for a member on no machine's node; nothing without a member list |
| EtcdConditions.CheckNode | pkg/k3s/workload_cluster.go:465-530 | fine exactly when the node lists the known members, its own among them, without alarm and of the known cluster; the first list, and the cluster of the first node that agrees, become the known ones |
| EtcdConditions.InspectNode | pkg/k3s/workload_cluster.go:458-536 | the machine hosted by the node is marked true exactly when it is live and that check is fine, false otherwise; a node without a machine is an error exactly when no machine is provisioning |
| EtcdConditions.InspectNodes | pkg/k3s/workload_cluster.go:430-537 | every machine has what its node says by one member list and one cluster, and otherwise what it had; errors exactly for nodes without a machine |
| EtcdConditions.UpdateManagedEtcdConditions | pkg/k3s/workload_cluster.go:403-552 | the condition of every machine, memberless ones being false, and of the cluster, what these and mismatches of nodes and members add up to; marked healthy after reading a member list, the member nodes are exactly the machine nodes; marked healthy with all machines provisioned, a list was read exactly if a node was listed |
| EtcdConditions.OneCluster | pkg/k3s/workload_cluster.go:516-528 | machines marked true have members of one and the same etcd cluster |
| EtcdConditions.FastPathSkipsNothing | controlplane/controllers/kthreescontrolplane_controller.go:853-867 | members on exactly the machines' nodes leave a member reconciliation nothing to remove |
| Reconciler.ReconciledMembers | controlplane/controllers/kthreescontrolplane_controller.go:840-885 | reconciling members keeps those on machines' nodes and every healthy majority, and does nothing while all are on such nodes |
| Reconciler.KThreesControlPlaneReconciler.SyncMachines | controlplane/controllers/kthreescontrolplane_controller.go:717-808 | only machines that stay are updated; without an error all of them have the template's annotations on them and on their infrastructure objects, and nothing else has changed |
| Reconciler.KThreesControlPlaneReconciler.UpdateMachine | controlplane/controllers/scale.go:404-424 | version, references and what the machine carries stay, as far as the template has no such annotation |
| Reconciler.KThreesControlPlaneReconciler.UpdateExternalObject | controlplane/controllers/scale.go:374-392 | the template's annotations are laid over those of the infrastructure object |
| Reconciler.KThreesControlPlaneReconciler.CloneConfigsAndGenerateMachine | controlplane/controllers/scale.go:259-316 | all or nothing: one infrastructure object, one config and one machine created from the spec in the failure domain given, which takes over the pending record; or, clean-up succeeding, no change at all |
| Reconciler.KThreesControlPlaneReconciler.CreateMachine | controlplane/controllers/scale.go:394-402 | the machine is added, stamped no earlier than the reconcile, and the pending record cleared, or neither |
| Reconciler.KThreesControlPlaneReconciler.GenerateKThreesConfig | controlplane/controllers/scale.go:341-371 | one new config, holding that of the spec, or none |
| Reconciler.KThreesControlPlaneReconciler.CleanupFromGeneration | controlplane/controllers/scale.go:318-339 | removes nothing but the given objects, and all of them without an error |
| Reconciler.KThreesControlPlaneReconciler.InitializeControlPlane | controlplane/controllers/scale.go:53-80 | creates the first machine, or fails leaving at most objects of a failed creation |
| Reconciler.KThreesControlPlaneReconciler.ScaleUpControlPlane | controlplane/controllers/scale.go:82-101 | creates a machine exactly when the preflight checks pass and no call fails |
| Reconciler.KThreesControlPlaneReconciler.ScaleDownControlPlane | controlplane/controllers/scale.go:103-167 | deletes the machine to be selected, with its hook set before where etcd is managed, or waits because others are not healthy or one is being deleted; if its member led, that of the newest machine leads now, else the leader is the same; no error on reliable servers with etcd in order |
| Reconciler.KThreesControlPlaneReconciler.HandOverAndDelete | controlplane/controllers/scale.go:130-163 | leadership, hook, deletion in this order; a failure leaves at most the hook; the same about leadership |
| Reconciler.KThreesControlPlaneReconciler.HandOverEtcd | controlplane/controllers/scale.go:130-155 | the hook is added and leadership handed over, or an error reported and no machine changed |
| Reconciler.KThreesControlPlaneReconciler.MoveLeadershipToNewest | controlplane/controllers/scale.go:130-141 | the newest machine's member leads afterwards if the machine's member led, and otherwise the leader is the same |
| Reconciler.LeadershipKeptExactly | controlplane/controllers/scale.go:130-141 | so, node names being distinct, the member of a machine leads after scaling it down exactly when it led and the machine is the newest, and never after remediating it |
| Reconciler.LeaderScaledDown | controlplane/controllers/scale.go:130-163 | a state in which scaling down may delete the newest machine, and leadership stays on its member |
| Reconciler.KThreesControlPlaneReconciler.ReconcileUnhealthyMachines | controlplane/controllers/remediation.go:46-294 | without an error the machine whose turn it is (the oldest unhealthy one without a node, else the oldest) is deleted and its record pending, or it must wait, for one of the listed reasons: it or another is being deleted, a record is pending, the retry limits, no other machine, a healthy one without a node, no healthy etcd majority without it, no healthy candidate; with managed etcd the newest healthy machine's member leads if that of the machine led; no error on reliable servers with readable records and etcd in order |
| Reconciler.FirstFailureIsDue | controlplane/controllers/remediation.go:92-262 | a machine that fails for the first time, all others being healthy, with nodes and not going away, and etcd keeping its majority, does not have to wait |
| Reconciler.KThreesControlPlaneReconciler.Remediate | controlplane/controllers/remediation.go:246-293 | hook, deletion and record together, or no deletion and no record |
| Reconciler.KThreesControlPlaneReconciler.ClearedForRemoval | controlplane/controllers/remediation.go:143-221 | cleared exactly when none of the reasons for an initialised control plane to keep a machine holds |
| Reconciler.KThreesControlPlaneReconciler.PrepareEtcdForRemoval | controlplane/controllers/remediation.go:185-244 | lets the removal go on exactly with a healthy majority of the others and a healthy candidate; then the newest healthy machine leads if the machine led, and else the leader is the same |
| Reconciler.KThreesControlPlaneReconciler.ReconcileEtcdMembers | controlplane/controllers/kthreescontrolplane_controller.go:840-885 | removes only members on no machine's node, and keeps every healthy majority; on a reliable workload cluster with two nodes exactly those are removed, unless there is a reason to return early; while all members are on machines' nodes it changes nothing, and errs exactly when it does not return early and cannot connect; with fewer than two nodes it removes nothing |
| Reconciler.KThreesControlPlaneReconciler.ReconcileControlPlaneConditions | controlplane/controllers/kthreescontrolplane_controller.go:811-834 | changes health conditions only, and none before initialisation; afterwards those of all machines and of the control plane are the ones that follow from the report, or there is an error; with truthful answers and all machines provisioned, a healthy verdict means members on exactly the machines' nodes, or that no node was listed |
| Reconciler.KThreesControlPlaneReconciler.MachinesNeedingRollout | pkg/k3s/control_plane.go:306-322 | exactly the live machines that are outdated |
| Reconciler.KThreesControlPlaneReconciler.UpgradeControlPlane | controlplane/controllers/kthreescontrolplane_controller.go:887-935 | surges first, then deletes outdated machines |
| Reconciler.KThreesControlPlaneReconciler.ReconcileReplicas | controlplane/controllers/kthreescontrolplane_controller.go:575-612 | without an error, the action that the number of machines and the rollout call for |
| Reconciler.KThreesControlPlaneReconciler.Act | controlplane/controllers/kthreescontrolplane_controller.go:563-612 | members, remediation, rollout and scaling come to at most one change of the machines; without an error it is the one that is due |
| Reconciler.KThreesControlPlaneReconciler.ReconcileMachines | controlplane/controllers/kthreescontrolplane_controller.go:533-612 | updates in place of all machines, a conditions pass, members, and one action: without an error a remediation, or, none being due, what the state calls for |
| Reconciler.KThreesControlPlaneReconciler.ReconcileNormal | controlplane/controllers/kthreescontrolplane_controller.go:478-533 | that, or nothing while the endpoint is missing, a machine could be adopted, or one is not owned |
| Reconciler.KThreesControlPlaneReconciler.Reconcile | controlplane/controllers/kthreescontrolplane_controller.go:89-196 | a whole reconcile: the same if all its premises are met, followed by the status update; when the conditions pass finds etcd healthy from truthful answers, the members are those on machines' nodes, or no node was listed, so the member reconciliation it skips would remove nothing; on reliable servers, with records that can be decoded and etcd, if managed, in order, it does not fail |
| Reconciler.KThreesControlPlaneReconciler.UpdateStatus | controlplane/controllers/kthreescontrolplane_controller.go:363-470 | finds the control plane initialised exactly by the serving secret, once the workload cluster is reached; then an error exactly when the pending record, or without one a machine's, cannot be decoded; an unreachable one is no error |
| ControlLoop.RoundIsRun | controlplane/controllers/kthreescontrolplane_controller.go:478-612 | what a reconcile promises makes five steps of a run |
| ControlLoop.Cluster.Run | controlplane/controllers/kthreescontrolplane_controller.go:478-612 | any number of reconciles and machine passes, with interference in between, form a run, after which at most one machine is being deleted and an uninitialised control plane has at most one machine |
| Runs.SafeAct | controlplane/controllers/remediation.go:95-181 | every action keeps: at most one machine is being deleted, and an uninitialised control plane has at most one machine, without conditions |
| Runs.AlwaysSafe | controlplane/controllers/scale.go:182-228 | so does every run from no machines, at every moment |
| Runs.Surge | controlplane/controllers/kthreescontrolplane_controller.go:595-612 | with fixed replicas there are never more machines than at the start or one above replicas |
| Runs.OneAlwaysRemains | controlplane/controllers/remediation.go:150-181 | an initialised control plane with a live machine, and at least one replica to have, always has a live machine |
| Runs.RankFalls | controlplane/controllers/kthreescontrolplane_controller.go:575-612 | without failures, and while no rollout deadline passes, no step raises the rank, and each creation, deletion or disappearance lowers it |
| Runs.EffectiveStepsAreBounded | controlplane/controllers/kthreescontrolplane_controller.go:930-934 | so a calm run has at most as many of them as its first rank |
| Runs.SettledReconcile | controlplane/controllers/kthreescontrolplane_controller.go:575-612 | a reconcile that finds all machines healthy and none going creates one exactly when there are too few, or as many as asked for and one is outdated, deletes one exactly when there are too many, and does nothing exactly when there are the replicas asked for, all up to date |
| Runs.DoneStays | pkg/k3s/control_plane.go:306-322 | that state is kept by every calm step |
| Runs.RolloutTerminates | controlplane/controllers/scale.go:246-257 | rollout and scaling end under a spec with a version, whether its rollout deadline passes or not: after more settled reconciles than the rank when it passed, exactly the replicas exist, all up to date |
| Runs.NeverDone | pkg/machinefilters/machine_filters.go:75-85 | without a version, and with replicas to have, they never do: every settled reconcile creates or deletes a machine |
| Runs.PendingIsSource | controlplane/controllers/remediation.go:281-293 | the pending record is that of the last remediation not yet followed by a creation, and no remediation starts while there is one |
| Runs.RecordReachesOneMachine | controlplane/controllers/scale.go:447-449 | a created machine carries the pending record or none, and no record reaches two machines |
| Runs.RecordIsKept | controlplane/controllers/scale.go:463-467 | through updates in place and everything else, a machine keeps its record as long as it exists |
| Runs.RetriesAreBounded | controlplane/controllers/remediation.go:369-404 | in every run with a fixed strategy, remediations that each retry the replacement of the one before count 0, 1, 2, ..., are at most MaxRetry + 1, and keep the retry period |
| HookHandshake.MachineReconciler.Reconcile | controlplane/controllers/machine_controller.go:77-164 | without an error a due hook is dropped exactly when that is justified, and otherwise the removal is requested on the machine's node; a needed removal with fewer than two nodes is an error, and on reliable servers the only one; nothing is touched without a due hook |
| HookHandshake.MachineReconciler.IsRemoveEtcdMemberNeeded | controlplane/controllers/machine_controller.go:169-220 | needed or not, with the cause, or a failed check |
| HookHandshake.RunsOfBoth | controlplane/controllers/machine_controller.go:77-164 | runs of both controllers are runs of the control plane controller, so its invariants hold of them |
| HookHandshake.HookOutlastsMember | controlplane/controllers/machine_controller.go:92-161 | a machine deleted by scaling down, or by remediating an initialised control plane, with managed etcd, has its hook until a pass finds its node gone or marked, or the removal not needed |
| HookHandshake.QuorumThroughRemovals | controlplane/controllers/remediation.go:453-510 | in every run, from a remediation on and with no new failures, the members other than the target's keep a strict healthy majority through every member reconciliation, and the whole membership has one once the target's member is gone |
| RolloutVerdict.MatchesKThreesBootstrapConfig | pkg/machinefilters/machine_filters.go:88-117 | a config that is found matches exactly if all but its version equals the one in the spec; versions are blanked and nothing else |
| RolloutVerdict.MatchesKCPConfiguration | pkg/machinefilters/machine_filters.go:36-42 | version, config and template match; objects that are missing count as matching |
| RolloutVerdict.MachinesNeedingRollout | pkg/k3s/control_plane.go:306-322 | exactly the live machines that are outdated; the configs stay fit for the next call although their versions are blanked |
| RolloutVerdict.OutdatedExactly | pkg/machinefilters/machine_filters.go:36-117 | outdated exactly if a deadline after its creation has passed, its version is missing or not that of the spec, a config that is found differs in more than the version, or an infrastructure object that is found says it was cloned from another template |
| RolloutVerdict.CreateFromTemplate | controlplane/controllers/scale.go:277-288 | the clone names what it was cloned from, whatever the template object carried |
| RolloutVerdict.ComputeDesiredMachine | controlplane/controllers/scale.go:426-511 | an existing machine keeps its version, record and server configuration, and a new one takes those of spec and KCP object, exactly as far as the template has no such annotation |
| RolloutVerdict.ReconcileTopLevelObjectSettings | bootstrap/controllers/kthreesconfig_controller.go:598-606 | fills in the version of a config that has none, and changes nothing else |
| RolloutVerdict.VerdictIsStable | controlplane/controllers/scale.go:374-424 | while the spec is fixed, updates of machine, infrastructure object and config, and the version filled in by the bootstrap controller, change no verdict in either direction |
| RolloutVerdict.CreatedMachineIsUpToDate | bootstrap/controllers/kthreesconfig_controller.go:598-606 | a machine that a reconcile created is selected, at any later time, exactly when the spec has no version or a deadline after its creation has passed |
| RolloutVerdict.FreshMachine | controlplane/controllers/scale.go:426-511 | the reconcile that creates a machine does not find it outdated, exactly when the spec names a version |
| ContractPath.Append | pkg/util/contract/types.go:35-37 | the path extended by one element, written into the shared array while there is capacity; the parent path is unchanged |
| ContractPath.IsParentOf | pkg/util/contract/types.go:40-50 | strict prefix |
| ContractPath.Equal | pkg/util/contract/types.go:53-63 | equality |
| ContractPath.Overlaps | pkg/util/contract/types.go:66-68 | one path is a prefix of the other |
| ContractPath.IsPathAllowed | pkg/util/ssa/filterintent.go:115-127 | comparable with an allowed path |
| ContractPath.IsPathIgnored | pkg/util/ssa/filterintent.go:138-147 | equal to an ignored path |
| JsonTree.PruneKeepsUnfilteredLeaves | pkg/util/ssa/filterintent.go:65-99 | pruning keeps exactly the leaves none of whose non-empty prefixes is filtered, with their values |
| JsonTree.LeavesDetermineMap | pkg/util/ssa/filterintent.go:65-99 | maps with the same leaves are equal, so no map is left newly empty and the statement above is complete |
| JsonTree.PruneIdempotent | pkg/util/ssa/filterintent.go:65-99 | pruning twice is pruning once |
| FilterIntent.Filter | pkg/util/ssa/filterintent.go:65-99 | the in-place prune over shared path arrays leaves exactly the pure prune, in any order of fields, and returns true exactly when a direct field was deleted |
| FilterIntent.VisitField | pkg/util/ssa/filterintent.go:71-97 | one iteration makes one field what the pure prune makes of it, leaves the others, and leaves the parent path as it was |
| FilterIntent.Decode | pkg/util/ssa/patch.go:129-159 | fresh maps without sharing that represent the value |
| FilterIntent.Encode | pkg/util/ssa/patch.go:129-159 | reads back the value the maps represent |
| PathFilters.FilterObject | pkg/util/ssa/filterintent.go:38-57 | allowed paths first, then ignored ones, in place |
| PathFilters.FilterObjectLeaves | pkg/util/ssa/filterintent.go:38-57 | the leaves kept are those comparable with an allowed path and not at or below an ignored one |
| PathFilters.PrepareModified | pkg/util/ssa/patch.go:129-159 | decodes, filters and encodes an intent |
| PathFilters.PreparedLeaves | pkg/util/ssa/patch.go:129-159 | of an intent there remain apiVersion, kind, spec and seven metadata fields; status never |
| ManagedFields.HasFieldsManagedBy | pkg/util/ssa/managedfields.go:172-180 | some entry has that manager |
| ManagedFields.DropFromDocument | pkg/util/ssa/managedfields.go:64-84 | an ownership document without the given paths |
| ManagedFields.DroppedLeaves | pkg/util/ssa/managedfields.go:64-84 | exactly the ownership leaves at or below the paths are gone |
| ManagedFields.Object.DropManagedFields | pkg/util/ssa/managedfields.go:46-96 | unless the new manager owns an entry, exactly the documents of the "manager"/Update entries before the first that is no JSON object (or null) are rewritten; an error exactly for such an entry or a failed patch |
| ManagedFields.HalfDropped | pkg/util/ssa/managedfields.go:46-96 | two entries of which the first is rewritten although the call fails on the second |
| ManagedFields.Object.CleanUpManagedFieldsForSSAAdoption | pkg/util/ssa/managedfields.go:112-169 | drops those entries, keeps the others in order and seeds one for the new manager, once |
| SsaPatch.Patch | pkg/util/ssa/patch.go:64-126 | the cache stays sound and learns exactly the requests without effect; a request that is not cached is merged; the objects end as an uncached apply leaves them exactly when the request was not cached or nobody touched what it is about since the original |
| SsaPatch.StaleHit | pkg/util/ssa/patch.go:84-100 | on a hit, skipping the request makes no difference exactly when the fields and the ownership it is about are the same in the two versions |
| SsaPatch.StaleRun | pkg/util/ssa/patch.go:84-100 | a run in which they are not, and the cached request is skipped |
| SsaPatch.OverlayIsLawful | pkg/util/ssa/patch.go:102-108 | laying the intent over the object is an apply of the assumed kind |
| SsaPatch.Traffic | pkg/util/ssa/cache.go:82-97 | the cache is sound in every sequence of patches, other writes, deletions and expiry |
| Certificates.Lookup | pkg/secret/certificates.go:108-133 | whatever it finds is what is stored |
| Certificates.GenerateMissing | pkg/secret/certificates.go:154-165 | generates for the missing ones only, except the etcd client purpose |
| Certificates.SaveGenerated | pkg/secret/certificates.go:167-179 | creates what was generated; a lost race is an error |
| Certificates.LookupOrGenerate | pkg/secret/certificates.go:181-198 | interleaved with any other runs and lagging reads, success means holding exactly the stored pair for every purpose, save that the etcd client pair may be missing; undisturbed it fails only on a stored pair that cannot be used or a missing external one |
| Certificates.ManyRuns | pkg/secret/certificates.go:68-94 | any number of runs, each with certificates of its own and others' runs and lagging reads in between: all that succeed hold, for every purpose, the same pair, and at the end it is still the one stored; undisturbed all succeed |
| InitLock.StepKeepsInvariant | pkg/locking/control_plane_init_mutex.go:51-139 | every single Get, Create or Delete keeps the lock with those past Lock |
| InitLock.MutualExclusion | pkg/locking/control_plane_init_mutex.go:51-139 | in every interleaving with safe deletions at most one machine is past Lock and not past Unlock, and the config map names it |
| InitLock.UnsafeExactly | pkg/locking/control_plane_init_mutex.go:51-139 | after every such run, a deletion is unsafe if and only if, without further unsafe ones, two machines can get past Lock |
| InitLock.BreakingAnotherMachinesLock | pkg/locking/control_plane_init_mutex.go:68-86 | a run, deleting no holder, in which two machines are |
| InitBootstrap.Controller.Lock | pkg/locking/control_plane_init_mutex.go:51-110 | takes a free lock or finds its own; otherwise at most breaks that of a machine that is gone; when no call fails, does exactly that |
| InitBootstrap.Controller.Unlock | pkg/locking/control_plane_init_mutex.go:113-139 | true means that the lock is free; so it is when no call fails |
| InitBootstrap.Controller.HandleClusterNotInitialized | bootstrap/controllers/kthreesconfig_controller.go:421-538 | stores data only under the lock; when no call fails the data are stored and published, or, the work having failed, the lock is free again |
| InitBootstrap.Controller.StoreBootstrapData | bootstrap/controllers/kthreesconfig_controller.go:556-596 | without an error the machine's secret is stored, nobody else's config changes, and under the lock no second machine becomes published |
| InitBootstrap.Controller.Reconcile | bootstrap/controllers/kthreesconfig_controller.go:178-205 | the same in a whole reconcile; nothing for configs that are ready or whose machine is gone |
| InitBootstrap.OnePublished | bootstrap/controllers/kthreesconfig_controller.go:443-454 | with machines deleted at any time, at most one existing machine ever has published init data |
| InitBootstrap.TwoStoredSecrets | bootstrap/controllers/kthreesconfig_controller.go:443-454 | a run after which two machines have stored init secrets |
| InitBootstrap.OneStored | bootstrap/controllers/kthreesconfig_controller.go:443-454 | a run in which no status patch fails after a store never has two |
| InitBootstrap.StoredTwiceExactly | bootstrap/controllers/kthreesconfig_controller.go:443-454 | after every run, two existing machines can come to have stored secrets, no further patch failing, if and only if one has a secret stored but not published |
| InitBootstrap.LockAlone | pkg/locking/control_plane_init_mutex.go:51-110 | the single calls of the interleaved model, run alone, do exactly what Lock promises |
| InitBootstrap.UnlockAlone | pkg/locking/control_plane_init_mutex.go:113-139 | and those that release the lock exactly what Unlock promises |
| InitBootstrap.AloneWithoutFailures | pkg/locking/control_plane_init_mutex.go:51-139 | without failures: a free or own lock is held, one of an existing machine stays, any other is broken, and Unlock releases it |

## Left out

- ForFirstAvailableNode: any of the nodes may be the one that connects; the map of etcd proxy pods that decides which, dialling, TLS and gRPC are not modelled.
- ReconcileUnhealthyMachines: the conditions and messages that explain a decision, and their removal from recovered machines, are not modelled; failures of the patches that write them are.
- SelectMachineForScaleDown: which known failure domain counts as the one with most machines is left to the library.
- SyncMachines: labels, ownership of managed fields and the annotations of bootstrap configs are not modelled.
- UpdateMachine: annotations that a template had once and has no more, which an apply takes off, stay.
- UpdateExternalObject: the same of the annotations of the infrastructure object; its labels are not modelled.
- OverlayIsLawful: lists are opaque, and fields that an intent no longer claims stay; it is one lawful apply among others.
- IsRemoveEtcdMemberNeeded: the list of active machines is read as it is, not from a cache that lags.
- MutualExclusion: reads by the lock are current; a stale cached read of the config map or a machine is not modelled.
- InitBootstrap.Controller.Reconcile: restoring a ready status that was lost although the machine names its secret (the pivot case) is not part of it.
- Leftover objects: the names of objects left by a failed clean-up are not tracked further.
- Deletion of the whole control plane (reconcileDelete), adoption of machines, status replica counts, kubeconfig and token secrets, external references.
- ClusterStatus, failure domains for scaling up, CoreDNS, requeue times, events, logging.
- Generation of keys and certificates, cloud-init files and k3s configuration; API types, conversions and deep copies.
- Updates and deletions of CA secrets, and certificates supplied as files.
- A failed KCP patch between deletion and record, and several workers breaking a stale init lock in whole reconciles.
