// When a machine may be remediated: retry limits and etcd quorum.
module Remediation {
  import opened Options
  import opened ControlPlane
  import Etcd

  const DEFAULT_MIN_HEALTHY_PERIOD: int := 3600 * SECOND

  // ---- retry limits ------------------------------------------------------------------------------------

  datatype Verdict = Failed | Wait(data: RemediationData) | Proceed(data: RemediationData)

  function MinHealthyPeriod(strategy: Option<Strategy>): int {
    if strategy.Some? && strategy.value.minHealthyPeriod.Some? then strategy.value.minHealthyPeriod.value
    else DEFAULT_MIN_HEALTHY_PERIOD
  }

  function RetryPeriod(strategy: Option<Strategy>): int {
    if strategy.Some? then strategy.value.retryPeriod else 0
  }

  function Max(x: int, y: int): int { if x < y then y else x }

  /** When the remediation recorded in `last` happened; without a timestamp, long enough ago. */
  function LastTime(last: RemediationData, strategy: Option<Strategy>, now: int): int {
    match last.timestamp
    case Some(t) => t
    case None => now - 2 * Max(MinHealthyPeriod(strategy), RetryPeriod(strategy))
  }

  /** The failure is one of the replacement made by `last`: it comes within the minimum healthy period. */
  predicate IsRetry(last: RemediationData, strategy: Option<Strategy>, now: int) {
    LastTime(last, strategy, now) + MinHealthyPeriod(strategy) > now
  }

  predicate RetryAllowed(last: RemediationData, strategy: Option<Strategy>, now: int) {
    && LastTime(last, strategy, now) + RetryPeriod(strategy) <= now
    && (strategy.Some? && strategy.value.maxRetry.Some? ==> last.retryCount < strategy.value.maxRetry.value)
  }

  /** What the retry limits decide. */
  function VerdictOn(name: string, annotation: Annotation, strategy: Option<Strategy>, now: int): Verdict {
    match annotation
    case Corrupt => Failed
    case Absent => Proceed(RemediationData(name, Some(now), 0))
    case Record(last) =>
      if !IsRetry(last, strategy, now) then Proceed(RemediationData(name, Some(now), 0))
      else if RetryAllowed(last, strategy, now) then Proceed(RemediationData(name, Some(now), last.retryCount + 1))
      else Wait(RemediationData(name, Some(now), last.retryCount))
  }

  /** The verdict in terms of the strategy. A record that cannot be decoded is an error, and none starts a
      sequence. With one, the failure starts a new sequence once the minimum healthy period, an hour by
      default, has passed since; before that it waits for the retry period to pass and for the limit to
      allow one more, or goes on counting. */
  method CheckRetryLimits(name: string, annotation: Annotation, strategy: Option<Strategy>, now: int)
    returns (v: Verdict)
    ensures v == VerdictOn(name, annotation, strategy, now)
    ensures annotation.Corrupt? ==> v == Failed
    ensures annotation.Absent? ==> v == Proceed(RemediationData(name, Some(now), 0))
    ensures annotation.Record? ==>
              var last := annotation.data;
              var healthy := match strategy case Some(Strategy(_, _, Some(period))) => period case _ => 3600 * SECOND;
              var retry := match strategy case Some(Strategy(_, period, _)) => period case None => 0;
              var since := match last.timestamp
                           case Some(t) => t
                           case None => now - 2 * if healthy < retry then retry else healthy;
              v == if since + healthy <= now then Proceed(RemediationData(name, Some(now), 0))
                   else if since + retry > now || (strategy.Some? && strategy.value.maxRetry.Some?
                                                   && last.retryCount >= strategy.value.maxRetry.value)
                     then Wait(RemediationData(name, Some(now), last.retryCount))
                   else Proceed(RemediationData(name, Some(now), last.retryCount + 1))
  {
    if annotation.Corrupt? {
      return Failed;
    }
    var data := RemediationData(name, Some(now), 0);
    if annotation.Absent? {
      return Proceed(data);
    }
    var last := annotation.data;
    var minHealthyPeriod := DEFAULT_MIN_HEALTHY_PERIOD;
    if strategy.Some? && strategy.value.minHealthyPeriod.Some? {
      minHealthyPeriod := strategy.value.minHealthyPeriod.value;
    }
    var retryPeriod := 0;
    if strategy.Some? {
      retryPeriod := strategy.value.retryPeriod;
    }
    var lastTime := now - 2 * Max(minHealthyPeriod, retryPeriod);
    if last.timestamp.Some? {
      lastTime := last.timestamp.value;
    }
    if !(lastTime + minHealthyPeriod > now) {
      return Proceed(data);
    }
    data := data.(retryCount := last.retryCount);
    if lastTime + retryPeriod > now {
      return Wait(data);
    }
    if strategy.Some? && strategy.value.maxRetry.Some? {
      if data.retryCount >= strategy.value.maxRetry.value {
        return Wait(data);
      }
    }
    data := data.(retryCount := data.retryCount + 1);
    return Proceed(data);
  }

  /** The annotation keeps whole seconds only. */
  function Marshal(data: RemediationData): Annotation {
    match data.timestamp
    case Some(t) => Record(data.(timestamp := Some(t - t % SECOND)))
    case None => Record(data)
  }

  /** What CheckRetryLimits lets through for a machine carrying `annotation`. */
  ghost predicate Permitted(name: string, annotation: Annotation, strategy: Option<Strategy>, now: int,
                            data: RemediationData)
  {
    VerdictOn(name, annotation, strategy, now) == Proceed(data)
  }

  /** A chain: remediation i + 1 is of the replacement made by remediation i, failing as a retry. */
  ghost predicate IsChain(strategy: Option<Strategy>, chain: seq<RemediationData>) {
    && chain != [] && chain[0].timestamp.Some? && chain[0].retryCount == 0
    && forall i | 0 <= i < |chain| - 1 :: IsLink(strategy, chain[i], chain[i + 1])
  }

  ghost predicate IsLink(strategy: Option<Strategy>, last: RemediationData, next: RemediationData) {
    && next.timestamp.Some?
    && Permitted(next.machine, Marshal(last), strategy, next.timestamp.value, next)
    && IsRetry(Marshal(last).data, strategy, next.timestamp.value)
  }

  /** A chain counts 0, 1, 2, ...; each retry comes no sooner after its predecessor, in whole seconds, than
      the strategy's retry period, and sooner than the minimum healthy period; and with a non-negative limit
      the chain has at most MaxRetry + 1 remediations. */
  lemma {:induction false} RetryChain(strategy: Option<Strategy>, chain: seq<RemediationData>, i: nat)
    requires IsChain(strategy, chain) && i < |chain|
    ensures chain[i].retryCount == i && chain[i].timestamp.Some?
    ensures i > 0 ==>
              && chain[i - 1].timestamp.Some?
              && var last := chain[i - 1].timestamp.value / SECOND * SECOND;
                 && last + (match strategy case Some(Strategy(_, period, _)) => period case None => 0)
                    <= chain[i].timestamp.value
                 && chain[i].timestamp.value < last +
                    match strategy case Some(Strategy(_, _, Some(period))) => period case _ => 3600 * SECOND
    ensures strategy.Some? && strategy.value.maxRetry.Some? && strategy.value.maxRetry.value >= 0 ==>
              i <= strategy.value.maxRetry.value
  {
    if i > 0 {
      RetryChain(strategy, chain, i - 1);
      assert IsLink(strategy, chain[i - 1], chain[i - 1 + 1]);
    }
  }

  /** A record without a timestamp starts a new sequence exactly when the healthy period is at most
      twice the longer period; non-negative periods always are. */
  lemma MissingTimestamp(last: RemediationData, strategy: Strategy, healthy: int, now: int)
    requires last.timestamp.None? && strategy.minHealthyPeriod == Some(healthy)
    ensures IsRetry(last, Some(strategy), now) <==> healthy > 2 * healthy && healthy > 2 * strategy.retryPeriod
    ensures healthy >= 0 || strategy.retryPeriod >= 0 ==> !IsRetry(last, Some(strategy), now)
    ensures !IsRetry(last, None, now)
  {
  }

  function Limited(strategy: Strategy, maxRetry: Option<int>): Option<Strategy> {
    Some(strategy.(maxRetry := maxRetry))
  }

  /** Some failure gets a different verdict under another limit. */
  ghost predicate LimitMatters(strategy: Strategy) {
    exists name, annotation, now, k, l ::
      VerdictOn(name, annotation, Limited(strategy, k), now) != VerdictOn(name, annotation, Limited(strategy, l), now)
  }

  /** MaxRetry limits anything exactly when the retry period is shorter than the healthy period. */
  lemma LimitMattersExactly(strategy: Strategy)
    ensures LimitMatters(strategy) <==>
            strategy.retryPeriod <
            if strategy.minHealthyPeriod.Some? then strategy.minHealthyPeriod.value else 3600 * SECOND
  {
    if RetryPeriod(Some(strategy)) < MinHealthyPeriod(Some(strategy)) {
      var last, now := Record(RemediationData("", Some(0), 0)), RetryPeriod(Some(strategy));
      assert VerdictOn("", last, Limited(strategy, None), now) != VerdictOn("", last, Limited(strategy, Some(0)), now);
    }
  }

  /** An hour between retries with the default healthy period of an hour: one retry allowed, and still
      every one of any number of failures is let through, each as the first of a new sequence. */
  lemma LimitIgnored(name: string, last: RemediationData, now: int)
    requires last.timestamp.Some? && last.timestamp.value + 3600 * SECOND <= now
    ensures VerdictOn(name, Record(last), Some(Strategy(Some(1), 3600 * SECOND, None)), now) ==
            Proceed(RemediationData(name, Some(now), 0))
  {
  }

  // ---- etcd quorum -------------------------------------------------------------------------------------

  /** A machine hosts the member and reports its etcd health true. */
  ghost predicate HealthyMember(ms: Machines, member: string) {
    exists n | n in ms :: ms[n].nodeRef == Some(member) && ms[n].etcdHealthy == CondTrue
  }

  /** The members other than the target's, and the healthy ones among them. */
  ghost function Others(members: seq<string>, target: Option<string>): seq<string> {
    if members == [] then []
    else (if target == Some(members[0]) then [] else [members[0]]) + Others(members[1..], target)
  }

  ghost function CountHealthy(ms: Machines, members: seq<string>): nat {
    if members == [] then 0
    else (if HealthyMember(ms, members[0]) then 1 else 0) + CountHealthy(ms, members[1..])
  }

  /** The positions of the members other than the target's, and of those on a node of a machine that reports
      its etcd health true. */
  ghost function Left(members: seq<string>, target: Option<string>): set<int> {
    set i | 0 <= i < |members| && target != Some(members[i])
  }

  ghost function HealthyLeft(ms: Machines, members: seq<string>, target: Option<string>): set<int> {
    set i | 0 <= i < |members| && target != Some(members[i])
            && exists n | n in ms :: ms[n].nodeRef == Some(members[i]) && ms[n].etcdHealthy == CondTrue
  }

  /** A strict majority of the members is healthy. */
  ghost predicate HealthyMajority(ms: Machines, members: seq<string>) {
    2 * CountHealthy(ms, members) > |members|
  }

  method MachineForNode(ms: Machines, node: string) returns (r: Option<string>)
    ensures r.Some? ==> r.value in ms && ms[r.value].nodeRef == Some(node)
    ensures r.None? ==> node !in NodeRefs(ms)
  {
    r := None;
    var todo := ms.Keys;
    while todo != {}
      invariant todo <= ms.Keys
      invariant forall n | n in ms && n !in todo :: ms[n].nodeRef != Some(node)
      decreases todo
    {
      var n :| n in todo;
      todo := todo - {n};
      if ms[n].nodeRef == Some(node) {
        return Some(n);
      }
    }
  }

  /** True exactly when the members left after removing the target's keep a strict healthy majority,
      equivalently when there is one left and at most (t - 1) / 2 of the t left are unhealthy. */
  method CanSafelyRemoveEtcdMember(members: seq<string>, ms: Machines, target: Option<string>) returns (safe: bool)
    ensures DistinctNodeRefs(ms) ==>
              (safe <==> 2 * |HealthyLeft(ms, members, target)| > |Left(members, target)|)
    ensures DistinctNodeRefs(ms) ==> (safe <==> HealthyMajority(ms, Others(members, target)))
    ensures DistinctNodeRefs(ms) ==>
              var t := |Others(members, target)|;
              (safe <==> t >= 1 && t - CountHealthy(ms, Others(members, target)) <= (t - 1) / 2)
  {
    var targetTotalMembers, targetUnhealthyMembers := 0, 0;
    for i := 0 to |members|
      invariant targetTotalMembers == |Others(members[..i], target)|
      invariant DistinctNodeRefs(ms) ==>
          targetUnhealthyMembers == targetTotalMembers - CountHealthy(ms, Others(members[..i], target))
    {
      OthersAppend(members[..i], members[i], target);
      HealthyAppend(ms, Others(members[..i], target), members[i]);
      assert members[..i + 1] == members[..i] + [members[i]];
      if target == Some(members[i]) {
        assert Others(members[..i + 1], target) == Others(members[..i], target);
        continue;
      }
      targetTotalMembers := targetTotalMembers + 1;
      var machine := MachineForNode(ms, members[i]);
      if machine.None? {
        assert !HealthyMember(ms, members[i]);
        targetUnhealthyMembers := targetUnhealthyMembers + 1;
        continue;
      }
      assert DistinctNodeRefs(ms) ==>
          (HealthyMember(ms, members[i]) <==> ms[machine.value].etcdHealthy == CondTrue);
      if ms[machine.value].etcdHealthy != CondTrue {
        targetUnhealthyMembers := targetUnhealthyMembers + 1;
        continue;
      }
    }
    assert members[..|members|] == members;
    CountedByIndex(ms, members, target);
    var targetQuorum := targetTotalMembers / 2 + 1;
    safe := targetTotalMembers - targetUnhealthyMembers >= targetQuorum;
  }

  /** The counts, without recursion. */
  lemma {:induction false} CountedByIndex(ms: Machines, members: seq<string>, target: Option<string>)
    ensures |Left(members, target)| == |Others(members, target)|
    ensures |HealthyLeft(ms, members, target)| == CountHealthy(ms, Others(members, target))
  {
    if members != [] {
      var k := |members| - 1;
      var init, m := members[..k], members[k];
      CountedByIndex(ms, init, target);
      assert members == init + [m];
      LeftOfMore(ms, init, m, target);
      OthersOfMore(ms, init, m, target);
      assert k !in Left(init, target) && k !in HealthyLeft(ms, init, target);
    }
  }

  lemma OthersOfMore(ms: Machines, members: seq<string>, m: string, target: Option<string>)
    ensures |Others(members + [m], target)| == |Others(members, target)| + if target != Some(m) then 1 else 0
    ensures CountHealthy(ms, Others(members + [m], target)) ==
            CountHealthy(ms, Others(members, target)) + if target != Some(m) && HealthyMember(ms, m) then 1 else 0
  {
    OthersAppend(members, m, target);
    HealthyAppend(ms, Others(members, target), m);
    if target == Some(m) {
      assert Others(members + [m], target) == Others(members, target);
    }
  }

  lemma LeftOfMore(ms: Machines, members: seq<string>, m: string, target: Option<string>)
    ensures Left(members + [m], target) == Left(members, target) + if target != Some(m) then {|members|} else {}
    ensures HealthyLeft(ms, members + [m], target) ==
            HealthyLeft(ms, members, target) + if target != Some(m) && HealthyMember(ms, m) then {|members|} else {}
  {
  }

  lemma {:induction false} OthersAppend(members: seq<string>, m: string, target: Option<string>)
    ensures Others(members + [m], target) == Others(members, target) + if target == Some(m) then [] else [m]
  {
    if members != [] {
      OthersAppend(members[1..], m, target);
      assert (members + [m])[1..] == members[1..] + [m];
    }
  }

  lemma {:induction false} HealthyAppend(ms: Machines, members: seq<string>, m: string)
    ensures CountHealthy(ms, members + [m]) == CountHealthy(ms, members) + if HealthyMember(ms, m) then 1 else 0
  {
    if members != [] {
      HealthyAppend(ms, members[1..], m);
      assert (members + [m])[1..] == members[1..] + [m];
    }
  }

  // ---- quorum over the removals that follow --------------------------------------------------------------

  /** No machine's etcd health gets worse and no node reference of a healthy machine goes away. */
  ghost predicate NoNewFailures(before: Machines, after: Machines, target: Option<string>) {
    forall member | HealthyMember(before, member) && target != Some(member) :: HealthyMember(after, member)
  }

  /** One later change of the membership, if any: a member that no machine hosts is removed, or the
      target's. */
  ghost predicate Removal(ms: Machines, members: seq<string>, target: Option<string>, members': seq<string>) {
    members' == members || exists i | 0 <= i < |members| ::
      && members' == members[..i] + members[i + 1..]
      && (target == Some(members[i]) || members[i] !in NodeRefs(ms))
  }

  lemma RemovalKeepsMajority(ms: Machines, members: seq<string>, target: Option<string>, members': seq<string>)
    requires HealthyMajority(ms, Others(members, target)) && Removal(ms, members, target, members')
    ensures HealthyMajority(ms, Others(members', target))
  {
    if members' != members {
      var i :| 0 <= i < |members| && members' == members[..i] + members[i + 1..]
               && (target == Some(members[i]) || members[i] !in NodeRefs(ms));
      RemovalAtKeepsMajority(ms, members, target, i);
    }
  }

  lemma RemovalAtKeepsMajority(ms: Machines, members: seq<string>, target: Option<string>, i: nat)
    requires HealthyMajority(ms, Others(members, target))
    requires i < |members| && (target == Some(members[i]) || members[i] !in NodeRefs(ms))
    ensures HealthyMajority(ms, Others(members[..i] + members[i + 1..], target))
  {
    assert members == members[..i] + [members[i]] + members[i + 1..];
    RemoveAt(ms, members[..i], members[i], members[i + 1..], target);
    assert !HealthyMember(ms, members[i]) || target == Some(members[i]);
  }

  lemma {:induction false} RemoveAt(ms: Machines, a: seq<string>, m: string, b: seq<string>, target: Option<string>)
    ensures var counts := if target == Some(m) then 0 else 1;
            var healthy := if target != Some(m) && HealthyMember(ms, m) then 1 else 0;
            && |Others(a + [m] + b, target)| == |Others(a + b, target)| + counts
            && CountHealthy(ms, Others(a + [m] + b, target)) == CountHealthy(ms, Others(a + b, target)) + healthy
  {
    if a == [] {
      assert a + [m] + b == [m] + b && a + b == b && ([m] + b)[1..] == b;
      assert Others([m] + b, target) == (if target == Some(m) then [] else [m]) + Others(b, target);
      assert target == Some(m) ==> Others([m] + b, target) == Others(b, target);
    } else {
      RemoveAt(ms, a[1..], m, b, target);
      assert (a + [m] + b)[1..] == a[1..] + [m] + b && (a + b)[1..] == a[1..] + b;
      KeepHead(ms, a + [m] + b, target);
      KeepHead(ms, a + b, target);
    }
  }

  /** How the first member counts. */
  lemma KeepHead(ms: Machines, members: seq<string>, target: Option<string>)
    requires members != []
    ensures var rest := Others(members[1..], target);
            && (target == Some(members[0]) ==> Others(members, target) == rest)
            && (target != Some(members[0]) ==>
                  && |Others(members, target)| == |rest| + 1
                  && CountHealthy(ms, Others(members, target)) ==
                     CountHealthy(ms, rest) + if HealthyMember(ms, members[0]) then 1 else 0)
  {
  }

  lemma {:induction false} MoreHealthy(before: Machines, after: Machines, members: seq<string>, target: Option<string>)
    requires NoNewFailures(before, after, target)
    ensures CountHealthy(before, Others(members, target)) <= CountHealthy(after, Others(members, target))
  {
    if members != [] {
      MoreHealthy(before, after, members[1..], target);
      KeepHead(before, members, target);
      KeepHead(after, members, target);
    }
  }

  lemma {:induction false} OthersOfAbsent(members: seq<string>, target: Option<string>)
    requires target.None? || target.value !in members
    ensures Others(members, target) == members
  {
    if members != [] {
      OthersOfAbsent(members[1..], target);
    }
  }

  function NameList(members: seq<Etcd.Member>): (names: seq<string>)
    ensures |names| == |members|
    ensures forall i | 0 <= i < |members| :: names[i] == Etcd.NodeNameFromMember(members[i])
  {
    if members == [] then [] else [Etcd.NodeNameFromMember(members[0])] + NameList(members[1..])
  }

  /** How many members there are besides the one of the node. */
  lemma {:induction false} OthersLength(members: seq<Etcd.Member>, target: Option<string>)
    ensures |Others(NameList(members), target)| == Etcd.CountBut(members, target)
  {
    if members != [] {
      OthersLength(members[1..], target);
      assert NameList(members)[1..] == NameList(members[1..]);
    }
  }

  /** Only members to be kept can be healthy, when the listed nodes include those of all machines. */
  lemma {:induction false} HealthyAreKept(ms: Machines, members: seq<Etcd.Member>, nodeNames: seq<string>,
                                          target: Option<string>)
    requires forall node | node in NodeRefs(ms) :: node in nodeNames
    ensures CountHealthy(ms, Others(NameList(Etcd.Kept(members, nodeNames)), target)) ==
            CountHealthy(ms, Others(NameList(members), target))
  {
    if members != [] {
      var rest := Etcd.Kept(members[1..], nodeNames);
      HealthyAreKept(ms, members[1..], nodeNames, target);
      assert NameList(members)[1..] == NameList(members[1..]);
      KeepHead(ms, NameList(members), target);
      var name := Etcd.NodeNameFromMember(members[0]);
      if Etcd.StaleName(name, nodeNames) {
        assert Etcd.Kept(members, nodeNames) == rest;
        assert !HealthyMember(ms, name);
      } else {
        assert Etcd.Kept(members, nodeNames) == [members[0]] + rest;
        assert NameList([members[0]] + rest)[1..] == NameList(rest);
        KeepHead(ms, NameList([members[0]] + rest), target);
      }
    }
  }

  /** Reconciling the etcd members against nodes that include those of all machines preserves every
      healthy majority, whatever fails on the way. */
  lemma PurgeKeepsMajority(ms: Machines, before: seq<Etcd.Member>, nodeNames: seq<string>, removed: seq<string>,
                           after: seq<Etcd.Member>, target: Option<string>)
    requires forall node | node in NodeRefs(ms) :: node in nodeNames
    requires Etcd.Purged(before, nodeNames, removed, after)
    requires HealthyMajority(ms, Others(NameList(before), target))
    ensures HealthyMajority(ms, Others(NameList(after), target))
  {
    HealthyAreKept(ms, before, nodeNames, target);
    HealthyAreKept(ms, after, nodeNames, target);
    OthersLength(before, target);
    OthersLength(after, target);
  }
}
