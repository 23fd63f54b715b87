// The workload cluster as the controllers see it: control plane nodes, etcd members, the leader.
module Etcd {
  import opened Calls
  import opened Options

  datatype Alarm = AlarmOK | AlarmNoSpace | AlarmCorrupt

  datatype Member = Member(id: nat, name: string, clusterID: nat, alarms: seq<Alarm>)

  // A control plane node, with the annotations that ask k3s to drop its member and report it done.
  datatype Node = Node(name: string, removeRequested: bool, removed: bool)

  datatype Client = Client(node: string, leaderID: nat)

  // ---- members and node names ------------------------------------------------------------------

  /** The position of the last dash, or -1. */
  function LastDash(s: string): (i: int)
    ensures -1 <= i < |s|
    ensures i >= 0 ==> s[i] == '-'
    ensures forall j | i < j < |s| :: s[j] != '-'
  {
    if s == "" then -1
    else if s[|s| - 1] == '-' then |s| - 1
    else LastDash(s[..|s| - 1])
  }

  function NodeNameFromMember(m: Member): string {
    var i := LastDash(m.name);
    if i == -1 then m.name else m.name[..i]
  }

  /** k3s names a member after its node, a dash and a suffix without dashes. */
  lemma NodeNameRoundTrip(m: Member, node: string, suffix: string)
    requires m.name == node + "-" + suffix && '-' !in suffix
    ensures NodeNameFromMember(m) == node
  {
    assert m.name[|node|] == '-';
    assert forall j | |node| < j < |m.name| :: m.name[j] == suffix[j - |node| - 1];
  }

  /** The first member of the node. */
  method MemberForName(members: seq<Member>, name: string) returns (r: Option<Member>)
    ensures r == FirstFor(members, name)
  {
    for i := 0 to |members|
      invariant FirstFor(members, name) == FirstFor(members[i..], name)
    {
      if NodeNameFromMember(members[i]) == name {
        return Some(members[i]);
      }
    }
    return None;
  }

  function FirstFor(members: seq<Member>, name: string): (r: Option<Member>)
    ensures r.Some? ==> r.value in members && NodeNameFromMember(r.value) == name
    ensures r.None? ==> forall m | m in members :: NodeNameFromMember(m) != name
  {
    if members == [] then None
    else if NodeNameFromMember(members[0]) == name then Some(members[0])
    else FirstFor(members[1..], name)
  }

  /** FirstFor finds the first. */
  lemma {:induction false} FirstIsFirst(members: seq<Member>, i: nat)
    requires i < |members|
    requires forall j | 0 <= j < i :: NodeNameFromMember(members[j]) != NodeNameFromMember(members[i])
    ensures FirstFor(members, NodeNameFromMember(members[i])) == Some(members[i])
  {
    if i > 0 {
      assert NodeNameFromMember(members[0]) != NodeNameFromMember(members[i]);
      FirstIsFirst(members[1..], i - 1);
    }
  }

  function Names(members: seq<Member>): set<string> { set m | m in members :: NodeNameFromMember(m) }

  predicate DistinctIDs(members: seq<Member>) {
    forall i, j | 0 <= i < j < |members| :: members[i].id != members[j].id
  }

  ghost predicate DistinctNodes(members: seq<Member>) {
    forall i, j | 0 <= i < j < |members| :: NodeNameFromMember(members[i]) != NodeNameFromMember(members[j])
  }

  predicate DistinctNames(nodes: seq<Node>) {
    forall i, j | 0 <= i < j < |nodes| :: nodes[i].name != nodes[j].name
  }

  // ---- members without a node ------------------------------------------------------------------

  /** A started member whose node is not listed. */
  predicate StaleName(name: string, nodeNames: seq<string>) { name != "" && name !in nodeNames }

  /** The members that reconciling against nodeNames must leave, in order. */
  function Kept(members: seq<Member>, nodeNames: seq<string>): seq<Member> {
    if members == [] then []
    else
      (if StaleName(NodeNameFromMember(members[0]), nodeNames) then [] else [members[0]])
      + Kept(members[1..], nodeNames)
  }

  /** Kept holds exactly the unstarted members and those of listed nodes. */
  lemma {:induction false} KeptMembers(members: seq<Member>, nodeNames: seq<string>, m: Member)
    ensures m in Kept(members, nodeNames) <==>
            m in members && (NodeNameFromMember(m) == "" || NodeNameFromMember(m) in nodeNames)
  {
    if members != [] {
      KeptMembers(members[1..], nodeNames, m);
    }
  }

  function Count(members: seq<Member>, name: string): nat {
    if members == [] then 0
    else (if NodeNameFromMember(members[0]) == name then 1 else 0) + Count(members[1..], name)
  }

  lemma {:induction false} CountPositive(members: seq<Member>, m: Member)
    requires m in members
    ensures Count(members, NodeNameFromMember(m)) > 0
  {
    if members[0] != m {
      CountPositive(members[1..], m);
    }
  }

  /** The number of members that are not the one of this node. */
  function CountBut(members: seq<Member>, node: Option<string>): nat {
    if members == [] then 0
    else (if node == Some(NodeNameFromMember(members[0])) then 0 else 1) + CountBut(members[1..], node)
  }

  function Without(members: seq<Member>, id: nat): seq<Member> {
    if members == [] then []
    else if members[0].id == id then members[1..]
    else [members[0]] + Without(members[1..], id)
  }

  /** Removing one stale member by its id keeps all the others and lowers its own count only. */
  lemma {:induction false} RemoveOne(members: seq<Member>, m: Member, nodeNames: seq<string>, name: string)
    requires m in members && DistinctIDs(members)
    ensures DistinctIDs(Without(members, m.id))
    ensures forall x | x in Without(members, m.id) :: x in members
    ensures Count(Without(members, m.id), name) ==
            Count(members, name) - if NodeNameFromMember(m) == name then 1 else 0
    ensures StaleName(NodeNameFromMember(m), nodeNames) ==>
            Kept(Without(members, m.id), nodeNames) == Kept(members, nodeNames)
  {
    if members[0].id == m.id {
      assert m == members[0];
    } else {
      var rest := Without(members[1..], m.id);
      RemoveOne(members[1..], m, nodeNames, name);
      assert Without(members, m.id) == [members[0]] + rest;
      forall i | 0 <= i < |rest| ensures rest[i].id != members[0].id {
        assert rest[i] in members[1..];
      }
    }
  }

  lemma {:induction false} FewerBut(members: seq<Member>, id: nat, node: Option<string>)
    ensures CountBut(Without(members, id), node) <= CountBut(members, node)
  {
    if members != [] && members[0].id != id {
      FewerBut(members[1..], id, node);
      assert Without(members, id)[1..] == Without(members[1..], id);
    }
  }

  ghost predicate NoneStale(members: seq<Member>, nodeNames: seq<string>) {
    forall m | m in members :: !StaleName(NodeNameFromMember(m), nodeNames)
  }

  lemma {:induction false} NothingStale(members: seq<Member>, nodeNames: seq<string>)
    requires NoneStale(members, nodeNames)
    ensures Kept(members, nodeNames) == members
  {
    if members != [] {
      NothingStale(members[1..], nodeNames);
    }
  }

  /** From `before` to `after` at most members with one of the `removed` names went, and those names are
      stale ones of members there were. */
  ghost predicate Purged(before: seq<Member>, nodeNames: seq<string>, removed: seq<string>, after: seq<Member>) {
    && Kept(after, nodeNames) == Kept(before, nodeNames)
    && (forall m | m in after :: m in before)
    && (forall m | m in before && m !in after :: NodeNameFromMember(m) in removed)
    && (forall name | name in removed :: StaleName(name, nodeNames) && name in Names(before))
    && (removed == [] ==> after == before)
    && (forall node :: CountBut(after, node) <= CountBut(before, node))
  }

  lemma PurgedThen(a: seq<Member>, b: seq<Member>, c: seq<Member>, nodeNames: seq<string>, r: seq<string>,
                   q: seq<string>)
    requires Purged(a, nodeNames, r, b) && Purged(b, nodeNames, q, c)
    ensures Purged(a, nodeNames, r + q, c)
  {
    FewerNames(a, b);
    forall m | m in a && m !in c ensures NodeNameFromMember(m) in r + q {
      assert m in b || NodeNameFromMember(m) in r;
    }
    forall node ensures CountBut(c, node) <= CountBut(a, node) {
      assert CountBut(c, node) <= CountBut(b, node) <= CountBut(a, node);
    }
  }

  lemma FewerNames(members: seq<Member>, fewer: seq<Member>)
    requires forall m | m in fewer :: m in members
    ensures Names(fewer) <= Names(members)
  {
  }

  lemma PurgedMore(a: seq<Member>, b: seq<Member>, c: seq<Member>, nodeNames: seq<string>, r: seq<string>, name: string)
    requires Purged(a, nodeNames, r, b)
    requires StaleName(name, nodeNames) && name in Names(a)
    requires Kept(c, nodeNames) == Kept(b, nodeNames) && forall m | m in c :: m in b
    requires forall m | m in b && m !in c :: NodeNameFromMember(m) == name
    requires forall node :: CountBut(c, node) <= CountBut(b, node)
    ensures Purged(a, nodeNames, r + [name], c)
  {
  }

  lemma NothingPurged(before: seq<Member>, nodeNames: seq<string>, removed: seq<string>, after: seq<Member>)
    requires Purged(before, nodeNames, removed, after) && NoneStale(before, nodeNames)
    ensures after == before && removed == []
  {
    forall m | m in before ensures NodeNameFromMember(m) !in removed {
    }
    assert removed != [] ==> removed[0] in removed && removed[0] in Names(before);
  }

  lemma {:induction false} NoCount(members: seq<Member>, name: string)
    requires forall m | m in members :: NodeNameFromMember(m) != name
    ensures Count(members, name) == 0
  {
    if members != [] {
      NoCount(members[1..], name);
    }
  }

  lemma {:induction false} OthersStay(members: seq<Member>, m: Member)
    requires m in members && DistinctIDs(members)
    ensures forall x | x in members && x != m :: x in Without(members, m.id)
  {
    if members[0].id != m.id {
      OthersStay(members[1..], m);
    } else {
      assert m == members[0];
    }
  }

  // ---- leadership --------------------------------------------------------------------------------

  ghost predicate LeaderOn(members: seq<Member>, leader: nat, node: string) {
    exists m | m in members :: m.id == leader && NodeNameFromMember(m) == node
  }

  /** With distinct ids the leader is on one node only. */
  lemma OneNode(members: seq<Member>, leader: nat, a: string, b: string)
    requires DistinctIDs(members) && LeaderOn(members, leader, a) && LeaderOn(members, leader, b)
    ensures a == b
  {
  }

  /** With distinct node names the first member of a node is its only one. */
  lemma SoleMember(members: seq<Member>, leader: nat, node: string)
    requires DistinctNodes(members) && DistinctIDs(members)
    ensures LeaderOn(members, leader, node) <==>
            FirstFor(members, node).Some? && FirstFor(members, node).value.id == leader
  {
  }

  method MemberWithID(members: seq<Member>, id: nat) returns (r: Option<Member>)
    ensures r.Some? ==> r.value in members && r.value.id == id
    ensures r.None? ==> forall m | m in members :: m.id != id
  {
    for i := 0 to |members|
      invariant forall j | 0 <= j < i :: members[j].id != id
    {
      if members[i].id == id {
        return Some(members[i]);
      }
    }
    return None;
  }

  method NodeNames(nodes: seq<Node>) returns (names: seq<string>)
    ensures |names| == |nodes| && forall i | 0 <= i < |nodes| :: names[i] == nodes[i].name
  {
    names := [];
    for i := 0 to |nodes|
      invariant |names| == i && forall j | 0 <= j < i :: names[j] == nodes[j].name
    {
      names := names + [nodes[i].name];
    }
  }

  /** The node carries the remove request now, and nothing else changed. */
  ghost predicate RequestedRemoval(before: seq<Node>, name: string, after: seq<Node>) {
    exists i | 0 <= i < |before| ::
      && before[i].name == name && !before[i].removed
      && after == before[i := before[i].(removeRequested := true)]
  }

  // ---- the workload cluster ------------------------------------------------------------------------

  /** Of no stale name are there more members than among those still to come. */
  ghost predicate NoMoreThan(members: seq<Member>, rest: seq<Member>, nodeNames: seq<string>) {
    forall name :: StaleName(name, nodeNames) ==> Count(members, name) <= Count(rest, name)
  }

  lemma PassedOver(members: seq<Member>, rest: seq<Member>, nodeNames: seq<string>)
    requires rest != [] && NoMoreThan(members, rest, nodeNames) && !StaleName(NodeNameFromMember(rest[0]), nodeNames)
    ensures NoMoreThan(members, rest[1..], nodeNames)
  {
  }

  lemma OneRemoved(before: seq<Member>, members: seq<Member>, rest: seq<Member>, nodeNames: seq<string>)
    requires rest != [] && NoMoreThan(before, rest, nodeNames)
    requires forall other :: Count(members, other) <= Count(before, other)
    requires var name := NodeNameFromMember(rest[0]);
             Count(members, name) == 0 || Count(members, name) < Count(before, name)
    ensures NoMoreThan(members, rest[1..], nodeNames)
  {
    forall name | StaleName(name, nodeNames) ensures Count(members, name) <= Count(rest[1..], name) {
      assert Count(members, name) <= Count(before, name) <= Count(rest, name);
    }
  }

  lemma NoneStaleLeft(members: seq<Member>, nodeNames: seq<string>)
    requires NoMoreThan(members, [], nodeNames)
    ensures NoneStale(members, nodeNames)
  {
    forall m | m in members ensures !StaleName(NodeNameFromMember(m), nodeNames) {
      CountPositive(members, m);
    }
  }

  class Workload {
    const reliable: bool     // no call fails, and every node connects
    var nodes: seq<Node>
    var members: seq<Member>
    var leader: nat

    ghost predicate Valid()
      reads this
    {
      DistinctIDs(members) && DistinctNames(nodes)
    }

    /** The leader's member is on a control plane node. */
    ghost predicate LeaderListed()
      reads this
    {
      exists n | n in nodes :: LeaderOn(members, leader, n.name)
    }

    method ControlPlaneNodes() returns (r: Option<seq<Node>>)
      ensures r.Some? ==> r.value == nodes
      ensures reliable ==> r.Some?
    {
      var fails := ApiFails(reliable);
      r := if fails then None else Some(nodes);
    }

    /** A client for the first node of the list that connects. */
    method ForFirstAvailableNode(nodeNames: seq<string>) returns (client: Option<Client>)
      ensures client.Some? ==> client.value.node in nodeNames && client.value.leaderID == leader
      ensures reliable && nodeNames != [] ==> client.Some? && client.value.node == nodeNames[0]
    {
      for i := 0 to |nodeNames|
        invariant reliable ==> i == 0
      {
        var fails := ApiFails(reliable);
        if !fails {
          return Some(Client(nodeNames[i], leader));
        }
      }
      return None;
    }

    method ListMembers(client: Client) returns (r: Option<seq<Member>>)
      ensures r.Some? ==> r.value == members
      ensures reliable ==> r.Some?
    {
      var fails := ApiFails(reliable);
      r := if fails then None else Some(members);
    }

    /** A client connected through the node of the leader's own member. */
    method ForLeader(nodeNames: seq<string>) returns (client: Option<Client>)
      requires Valid()
      ensures client.Some? ==>
                && client.value.leaderID == leader && client.value.node in nodeNames
                && LeaderOn(members, leader, client.value.node)
      ensures reliable ==> (client.Some? <==> exists node | node in nodeNames :: LeaderOn(members, leader, node))
    {
      for i := 0 to |nodeNames|
        invariant reliable ==> i == 0
      {
        var probe := ForFirstAvailableNode([nodeNames[i]]);
        if probe.None? {
          continue;
        }
        var listed := ListMembers(probe.value);
        if listed.None? {
          continue;
        }
        var leaderMember := MemberWithID(listed.value, probe.value.leaderID);
        if leaderMember.None? {
          return None;
        }
        var node := NodeNameFromMember(leaderMember.value);
        if node !in nodeNames {
          return None;
        }
        client := ForFirstAvailableNode([node]);
        return;
      }
      return None;
    }

    /** May have removed the member even when it reports an error. Losing its leader, etcd elects
        another member. */
    method RemoveMember(client: Client, id: nat) returns (err: bool)
      modifies this`members, this`leader
      ensures members == old(members) || members == Without(old(members), id)
      ensures !err ==> members == Without(old(members), id)
      ensures reliable ==> !err
    {
      err := ApiFails(reliable);
      var removed := *;
      if !err || removed {
        members := Without(members, id);
        if leader == id {
          leader := *;
        }
      }
    }

    method MoveLeader(client: Client, id: nat) returns (err: bool)
      modifies this`leader
      ensures leader == if err then old(leader) else id
      ensures reliable ==> !err
    {
      err := ApiFails(reliable);
      if !err {
        leader := id;
      }
    }

    /** Removes the members whose node is not listed, asking each listed node in turn. */
    method ReconcileEtcdMembers(nodeNames: seq<string>)
      returns (removedMembers: seq<string>, err: bool, ghost answered: bool)
      requires Valid()
      modifies this`members, this`leader
      ensures Valid()
      ensures Purged(old(members), nodeNames, removedMembers, members)
      ensures !err && answered ==> members == Kept(old(members), nodeNames)
      ensures |nodes| < 2 ==> members == old(members)
      ensures NoneStale(old(members), nodeNames) ==>
                members == old(members) && leader == old(leader) && removedMembers == [] && !err
      ensures reliable && nodeNames != [] ==>
                if |nodes| < 2 then err <==> !NoneStale(old(members), nodeNames)
                else !err && members == Kept(old(members), nodeNames)
    {
      removedMembers, err, answered := [], false, false;
      for i := 0 to |nodeNames|
        invariant Valid()
        invariant Purged(old(members), nodeNames, removedMembers, members)
        invariant !err && answered ==> NoneStale(members, nodeNames)
        invariant |nodes| < 2 ==> members == old(members)
        invariant removedMembers == [] ==> !err && leader == old(leader)
        invariant reliable && |nodes| >= 2 ==> !err
        invariant reliable && i > 0 ==> answered && (|nodes| < 2 && !NoneStale(members, nodeNames) ==> err)
      {
        ghost var before, was := members, removedMembers;
        var removed, failed, replied := ReconcileEtcdMember(nodeNames, nodeNames[i]);
        PurgedThen(old(members), before, members, nodeNames, was, removed);
        if NoneStale(before, nodeNames) {
          NothingPurged(before, nodeNames, removed, members);
        }
        removedMembers, err, answered := removedMembers + removed, err || failed, answered || replied;
      }
      if !err && answered {
        NothingStale(members, nodeNames);
      }
      if NoneStale(old(members), nodeNames) {
        NothingPurged(old(members), nodeNames, removedMembers, members);
      }
    }

    method ReconcileEtcdMember(nodeNames: seq<string>, nodeName: string)
      returns (removedMembers: seq<string>, err: bool, ghost answered: bool)
      requires Valid()
      modifies this`members, this`leader
      ensures Valid()
      ensures Purged(old(members), nodeNames, removedMembers, members)
      ensures !err && answered ==> NoneStale(members, nodeNames)
      ensures |nodes| < 2 ==> members == old(members)
      ensures removedMembers == [] ==> !err && leader == old(leader)
      ensures reliable && |nodes| >= 2 ==> !err
      ensures reliable ==> answered && (|nodes| < 2 && !NoneStale(members, nodeNames) ==> err)
    {
      removedMembers, err, answered := [], false, false;
      var client := ForFirstAvailableNode([nodeName]);
      if client.None? {
        return;
      }
      var r := ListMembers(client.value);
      if r.None? {
        return;
      }
      var listed := r.value;
      answered := true;
      for i := 0 to |listed|
        invariant Valid()
        invariant Purged(old(members), nodeNames, removedMembers, members)
        invariant !err ==> NoMoreThan(members, listed[i..], nodeNames)
        invariant |nodes| < 2 ==> members == old(members)
        invariant removedMembers == [] ==> !err && leader == old(leader)
        invariant reliable && |nodes| >= 2 ==> !err
      {
        var name := NodeNameFromMember(listed[i]);
        assert listed[i..][1..] == listed[i + 1..];
        if name == "" || name in nodeNames {
          if !err {
            PassedOver(members, listed[i..], nodeNames);
          }
          continue;
        }
        ghost var before := members;
        var failed := RemoveMemberForNonExistingNode(name, nodeNames);
        PurgedMore(old(members), before, members, nodeNames, removedMembers, name);
        if !err && !failed {
          OneRemoved(before, members, listed[i..], nodeNames);
        }
        removedMembers, err := removedMembers + [name], err || failed;
      }
      if !err {
        NoneStaleLeft(members, nodeNames);
      }
    }

    method RemoveMemberForNonExistingNode(name: string, ghost nodeNames: seq<string>) returns (err: bool)
      requires Valid() && StaleName(name, nodeNames)
      modifies this`members, this`leader
      ensures Valid()
      ensures Kept(members, nodeNames) == Kept(old(members), nodeNames)
      ensures forall m | m in members :: m in old(members)
      ensures forall m | m in old(members) && m !in members :: NodeNameFromMember(m) == name
      ensures forall other :: Count(members, other) <= Count(old(members), other)
      ensures forall node :: CountBut(members, node) <= CountBut(old(members), node)
      ensures !err ==> Count(members, name) == 0 || Count(members, name) < Count(old(members), name)
      ensures |nodes| < 2 ==> err && members == old(members)
      ensures reliable && |nodes| >= 2 ==> !err
    {
      var listed := ControlPlaneNodes();
      if listed.None? || |listed.value| < 2 {
        return true;
      }
      var remaining: seq<string> := [];
      for i := 0 to |nodes|
        invariant forall j | 0 <= j < i && nodes[j].name != name :: remaining != []
      {
        if nodes[i].name != name {
          remaining := remaining + [nodes[i].name];
        }
      }
      assert nodes[0].name != name || nodes[1].name != name;
      var client := ForFirstAvailableNode(remaining);
      if client.None? {
        return true;
      }
      var current := ListMembers(client.value);
      if current.None? {
        return true;
      }
      var member := MemberForName(current.value, name);
      if member.None? {
        NoCount(members, name);
        return false;
      }
      forall other ensures Count(Without(members, member.value.id), other) ==
          Count(members, other) - if name == other then 1 else 0
      {
        RemoveOne(members, member.value, nodeNames, other);
      }
      forall node ensures CountBut(Without(members, member.value.id), node) <= CountBut(members, node) {
        FewerBut(members, member.value.id, node);
      }
      RemoveOne(members, member.value, nodeNames, name);
      OthersStay(members, member.value);
      err := RemoveMember(client.value, member.value.id);
    }

    /** Asks k3s to drop the member of a node that is going away; true once that is done. */
    method RemoveMemberForNode(name: string) returns (r: Option<bool>)
      requires Valid()
      modifies this`nodes
      ensures Valid()
      ensures r == Some(true) ==> nodes == old(nodes) && forall n | n in nodes && n.name == name :: n.removed
      ensures r == Some(false) ==> RequestedRemoval(old(nodes), name, nodes)
      ensures r == Some(false) ==> |nodes| == |old(nodes)| && forall i | 0 <= i < |nodes| ::
                  if old(nodes)[i].name == name then nodes[i] == Node(name, true, false) else nodes[i] == old(nodes)[i]
      ensures r == None ==> nodes == old(nodes)
      ensures |nodes| < 2 ==> r == None
      ensures reliable && |nodes| >= 2 ==> r.Some?
    {
      var listed := ControlPlaneNodes();
      if listed.None? || |listed.value| < 2 {
        return None;
      }
      var found := -1;
      for i := 0 to |nodes|
        invariant -1 <= found < i && (found >= 0 ==> nodes[found].name == name)
        invariant found == -1 ==> forall j | 0 <= j < i :: nodes[j].name != name
      {
        if nodes[i].name == name {
          found := i;
        }
      }
      if found == -1 || nodes[found].removed {
        return Some(true);
      }
      var fails := ApiFails(reliable);
      if fails {
        return None;
      }
      nodes := nodes[found := nodes[found].(removeRequested := true)];
      return Some(false);
    }

    /** Moves leadership from the node of a machine, if it is there, to the node of a candidate. The machine
        and the candidate are given by their node references; no candidate at all is None. */
    method ForwardEtcdLeadership(machine: Option<string>, candidate: Option<Option<string>>) returns (err: bool)
      requires Valid()
      modifies this`leader
      ensures machine.None? ==> !err && leader == old(leader)
      ensures err ==> leader == old(leader)
      ensures !err && machine.Some? && DistinctNodes(members) ==>
                if LeaderOn(members, old(leader), machine.value)
                then candidate.Some? && candidate.value.Some? && LeaderOn(members, leader, candidate.value.value)
                else leader == old(leader)
      ensures (reliable && machine.Some? && candidate.Some? && candidate.value.Some? && old(LeaderListed())
               && FirstFor(members, candidate.value.value).Some?) ==> !err
    {
      if machine.None? {
        return false;
      }
      if candidate.None? || candidate.value.None? {
        return true;
      }
      var listed := ControlPlaneNodes();
      if listed.None? {
        return true;
      }
      var nodeNames := NodeNames(listed.value);
      var client := ForLeader(nodeNames);
      if client.None? {
        return true;
      }
      var current := ListMembers(client.value);
      if current.None? {
        return true;
      }
      var currentMember := MemberForName(current.value, machine.value);
      if currentMember.None? || currentMember.value.id != client.value.leaderID {
        if DistinctNodes(members) {
          SoleMember(members, leader, machine.value);
        }
        return false;
      }
      var nextLeader := MemberForName(current.value, candidate.value.value);
      if nextLeader.None? {
        return true;
      }
      if DistinctNodes(members) {
        SoleMember(members, nextLeader.value.id, candidate.value.value);
      }
      err := MoveLeader(client.value, nextLeader.value.id);
    }

    /** The node names of the current members, read through the leader. */
    method EtcdMembers() returns (r: Option<seq<string>>)
      requires Valid()
      ensures reliable && LeaderListed() ==> r.Some?
      ensures r.Some? ==> |r.value| == |members|
      ensures r.Some? ==> forall i | 0 <= i < |members| :: r.value[i] == NodeNameFromMember(members[i])
    {
      var listed := ControlPlaneNodes();
      if listed.None? {
        return None;
      }
      var nodeNames := NodeNames(listed.value);
      var client := ForLeader(nodeNames);
      if client.None? {
        return None;
      }
      var current := ListMembers(client.value);
      if current.None? {
        return None;
      }
      var names: seq<string> := [];
      for i := 0 to |current.value|
        invariant |names| == i && forall j | 0 <= j < i :: names[j] == NodeNameFromMember(current.value[j])
      {
        names := names + [NodeNameFromMember(current.value[i])];
      }
      return Some(names);
    }
  }
}
