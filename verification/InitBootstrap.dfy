// The bootstrap controller before the cluster is initialised: whole reconciles, one at a time.
module InitBootstrap {
  import opened Calls
  import InitLock
  import opened Options

  // A machine's bootstrap config: is its init secret stored, is its status ready (published).
  datatype Config = Config(stored: bool, ready: bool)

  // Configs are kept under the name of the machine that owns them.
  datatype Bootstrap = Bootstrap(server: InitLock.Server, configs: map<string, Config>)

  // ---- what the methods promise ---------------------------------------------------------------

  ghost predicate LockSpec(s: InitLock.Server, me: string, locked: bool, s': InitLock.Server) {
    if locked then
      (s.holder == None || s.holder == Some(me)) && s' == s.(holder := Some(me))
    else
      || s' == s
      || (s.holder.Some? && s.holder.value != me && s.holder.value !in s.machines && s' == s.(holder := None))
  }

  ghost predicate UnlockSpec(s: InitLock.Server, unlocked: bool, s': InitLock.Server) {
    (s' == s || s' == s.(holder := None)) && (unlocked ==> s'.holder == None)
  }

  /** One reconcile of the config owned by machine `me`. */
  ghost predicate ReconcileSpec(b: Bootstrap, me: string, b': Bootstrap) {
    if me !in b.server.machines || me !in b.configs || b.configs[me].ready then b' == b
    else
      || (LockSpec(b.server, me, false, b'.server) && b'.configs == b.configs)
      || exists held :: LockSpec(b.server, me, true, held)
           && (  || (exists ok :: UnlockSpec(held, ok, b'.server) && b'.configs == b.configs)
                 || (exists patched :: b' == Bootstrap(held, b.configs[me := Config(true, patched)])))
  }

  /** What a reconcile does when no call fails: under the lock, the config is stored and published and the lock
      kept, or, the work having failed, the lock is free again; without it, only a lock whose holder is
      gone is broken. */
  ghost predicate Handled(b: Bootstrap, me: string, workFails: bool, b': Bootstrap) {
    var holder := b.server.holder;
    b' == if holder == None || holder == Some(me) then
            if workFails then b.(server := b.server.(holder := None))
            else Bootstrap(b.server.(holder := Some(me)), b.configs[me := Config(true, true)])
          else if holder.value in b.server.machines then b
          else b.(server := b.server.(holder := None))
  }

  // ---- the controller ---------------------------------------------------------------------------

  class Controller {
    const reliable: bool          // no call to the API server fails
    var holder: Option<string>
    var machines: set<string>
    var configs: map<string, Config>

    function State(): Bootstrap
      reads this
    {
      Bootstrap(InitLock.Server(holder, machines), configs)
    }

    /** Takes the lock, finds it already taken by this machine, or breaks the lock of a machine that
        no longer exists (and waits for the next attempt). */
    method Lock(me: string) returns (locked: bool)
      modifies this`holder
      ensures LockSpec(old(State()).server, me, locked, State().server)
      ensures reliable && old(holder) in {None, Some(me)} ==> locked && holder == Some(me)
      ensures reliable && old(holder).Some? && old(holder).value != me ==>
                !locked && holder == if old(holder).value in machines then old(holder) else None
    {
      var getFails := ApiFails(reliable);
      var createFails := ApiFails(reliable);
      if getFails {
        return false;
      }
      if holder.Some? {
        if holder.value == me {
          return true;
        }
        var machineGetFails := ApiFails(reliable);
        if !machineGetFails && holder.value !in machines {
          var _ := Unlock();
        }
        return false;
      }
      if createFails || holder != None {
        return false;
      }
      holder := Some(me);
      return true;
    }

    method Unlock() returns (unlocked: bool)
      modifies this`holder
      ensures UnlockSpec(old(State()).server, unlocked, State().server)
      ensures reliable ==> unlocked
    {
      var getFails := ApiFails(reliable);
      var deleteFails := ApiFails(reliable);
      if getFails {
        return false;
      }
      if holder == None {
        return true;
      }
      if deleteFails {
        return false;
      }
      holder := None;
      return true;
    }

    /** storeBootstrapData, with the status patch that follows at the end of the reconcile. Without an error
        the secret is stored, published or not; nobody else's config changes; and under the lock no second
        machine gets published. */
    method StoreBootstrapData(me: string) returns (err: bool)
      requires me in configs
      modifies this`configs
      ensures configs.Keys == old(configs).Keys
      ensures forall m | m in configs && m != me :: configs[m] == old(configs)[m]
      ensures if err then configs[me] == old(configs)[me] else configs[me].stored
      ensures holder == Some(me) && old(PublishedHolds(State())) ==> PublishedHolds(State())
      ensures reliable ==> !err && configs[me].ready
    {
      err := ApiFails(reliable);
      if !err {
        var patchFails := ApiFails(reliable);
        configs := configs[me := Config(true, !patchFails)];
      }
    }

    /** Any error after the lock was taken releases it again: that of the work done under the lock, or of
        storing its result. */
    method HandleClusterNotInitialized(me: string, workFails: bool)
      requires me in machines && me in configs && !configs[me].ready
      modifies this`holder, this`configs
      ensures ReconcileSpec(old(State()), me, State())
      ensures reliable ==> Handled(old(State()), me, workFails, State())
    {
      var locked := Lock(me);
      if !locked {
        return;
      }
      ghost var held := State().server;
      var err := workFails;
      if !err {
        err := StoreBootstrapData(me);
        assert configs == old(configs)[me := configs[me]];
      }
      if err {
        var ok := Unlock();
      }
    }

    method Reconcile(me: string, workFails: bool)
      modifies this`holder, this`configs
      ensures ReconcileSpec(old(State()), me, State())
      ensures reliable && me in machines && me in old(configs) && !old(configs)[me].ready ==>
                Handled(old(State()), me, workFails, State())
    {
      if me !in machines || me !in configs || configs[me].ready {
        return;
      }
      HandleClusterNotInitialized(me, workFails);
    }
  }

  // ---- every run ----------------------------------------------------------------------------------

  datatype Action = Reconciled(me: string) | Created(name: string) | Deleted(name: string)

  ghost predicate Step(b: Bootstrap, a: Action, b': Bootstrap) {
    match a
    case Reconciled(me) => ReconcileSpec(b, me, b')
    case Created(name) =>
      && name !in b.configs
      && b' == Bootstrap(b.server.(machines := b.server.machines + {name}), b.configs[name := Config(false, false)])
    case Deleted(name) => b' == b.(server := b.server.(machines := b.server.machines - {name}))
  }

  ghost predicate IsRun(run: seq<Bootstrap>, actions: seq<Action>) {
    && |run| == |actions| + 1 && run[0] == Bootstrap(InitLock.Server(None, {}), map[])
    && forall i | 0 <= i < |actions| :: Step(run[i], actions[i], run[i + 1])
  }

  /** A published machine that still exists holds the lock; nothing is published that is not stored. */
  ghost predicate PublishedHolds(b: Bootstrap) {
    && b.server.machines <= b.configs.Keys
    && (forall m | m in b.configs && b.configs[m].ready :: b.configs[m].stored)
    && forall m | m in b.server.machines && b.configs[m].ready :: b.server.holder == Some(m)
  }

  lemma {:induction false} RunKeepsInvariant(run: seq<Bootstrap>, actions: seq<Action>, n: nat)
    requires IsRun(run, actions) && n < |run|
    ensures PublishedHolds(run[n])
  {
    if n > 0 {
      RunKeepsInvariant(run, actions, n - 1);
      assert Step(run[n - 1], actions[n - 1], run[n]);
    }
  }

  /** With machines deleted at any time, at most one existing machine ever has published init data. */
  lemma OnePublished(run: seq<Bootstrap>, actions: seq<Action>, n: nat, a: string, b: string)
    requires IsRun(run, actions) && n < |run|
    requires a in run[n].server.machines && b in run[n].server.machines
    requires a in run[n].configs && run[n].configs[a].ready
    requires b in run[n].configs && run[n].configs[b].ready
    ensures a == b
  {
    RunKeepsInvariant(run, actions, n);
  }

  /** The same does not hold of the secrets. A stores its secret but its status patch fails; its next
      reconcile fails and releases the lock; B then stores a second one. */
  lemma TwoStoredSecrets() returns (run: seq<Bootstrap>, actions: seq<Action>)
    ensures IsRun(run, actions)
    ensures {"A", "B"} <= run[|actions|].server.machines
    ensures {"A", "B"} <= run[|actions|].configs.Keys
    ensures run[|actions|].configs["A"].stored && run[|actions|].configs["B"].stored
  {
    var blank, unpatched := Config(false, false), Config(true, false);
    var b0 := Bootstrap(InitLock.Server(None, {}), map[]);
    var b1 := Bootstrap(InitLock.Server(None, {} + {"A"}), map["A" := blank]);
    var b2 := Bootstrap(InitLock.Server(None, {} + {"A"} + {"B"}), map["A" := blank, "B" := blank]);
    var b3 := Bootstrap(b2.server.(holder := Some("A")), b2.configs["A" := unpatched]);
    var b4 := Bootstrap(b2.server, b3.configs);
    var b5 := Bootstrap(b2.server.(holder := Some("B")), b4.configs["B" := unpatched]);
    assert ReconcileSpec(b2, "A", b3) by {
      assert LockSpec(b2.server, "A", true, b3.server);
    }
    assert ReconcileSpec(b3, "A", b4) by {
      assert LockSpec(b3.server, "A", true, b3.server);
      assert UnlockSpec(b3.server, true, b4.server);
    }
    assert ReconcileSpec(b4, "B", b5) by {
      assert LockSpec(b4.server, "B", true, b5.server);
    }
    run := [b0, b1, b2, b3, b4, b5];
    actions := [Created("A"), Created("B"), Reconciled("A"), Reconciled("A"), Reconciled("B")];
  }

  // ---- when at most one machine has stored its secret ------------------------------------------------

  /** No status patch has failed after a secret was stored. */
  ghost predicate PatchesSucceed(b: Bootstrap, b': Bootstrap) {
    forall m | m in b'.configs && b'.configs[m] == Config(true, false) ::
        m in b.configs && b.configs[m] == Config(true, false)
  }

  /** No existing machine is left with a secret that is stored but not published. */
  ghost predicate Clean(b: Bootstrap) {
    forall m | m in b.server.machines && m in b.configs && b.configs[m].stored :: b.configs[m].ready
  }

  ghost predicate TwoStored(b: Bootstrap) {
    exists x, y | x in b.server.machines && y in b.server.machines && x in b.configs && y in b.configs && x != y ::
      b.configs[x].stored && b.configs[y].stored
  }

  ghost predicate GoodStep(b: Bootstrap, a: Action, b': Bootstrap) { Step(b, a, b') && PatchesSucceed(b, b') }

  /** In k steps, no patch failing. */
  ghost predicate Leads(b: Bootstrap, b': Bootstrap, k: nat)
    decreases k
  {
    if k == 0 then b' == b
    else exists a, c :: GoodStep(b, a, c) && Leads(c, b', k - 1)
  }

  ghost predicate Reaches(b: Bootstrap, b': Bootstrap) { exists k: nat :: Leads(b, b', k) }

  lemma CleanStep(b: Bootstrap, a: Action, b': Bootstrap)
    requires PublishedHolds(b) && GoodStep(b, a, b')
    ensures PublishedHolds(b') && (Clean(b) ==> Clean(b'))
  {
  }

  lemma {:induction false} CleanStays(b: Bootstrap, b': Bootstrap, k: nat)
    requires PublishedHolds(b) && Clean(b) && Leads(b, b', k)
    ensures PublishedHolds(b') && Clean(b')
    decreases k
  {
    if k > 0 {
      var a, c :| GoodStep(b, a, c) && Leads(c, b', k - 1);
      CleanStep(b, a, c);
      CleanStays(c, b', k - 1);
    }
  }

  /** After any run: some existing machine has a secret stored but not published, if and only if, no further
      patch failing, two existing machines can have stored secrets. */
  lemma StoredTwiceExactly(run: seq<Bootstrap>, actions: seq<Action>, n: nat)
    requires IsRun(run, actions) && n < |run|
    ensures !Clean(run[n]) <==> exists b :: Reaches(run[n], b) && TwoStored(b)
  {
    RunKeepsInvariant(run, actions, n);
    if Clean(run[n]) {
      forall b | Reaches(run[n], b) ensures !TwoStored(b) {
        var k: nat :| Leads(run[n], b, k);
        CleanStays(run[n], b, k);
      }
    } else {
      var m :| m in run[n].server.machines && m in run[n].configs && run[n].configs[m] == Config(true, false);
      var b := SecondSecret(run[n], m);
    }
  }

  /** In particular a run in which no patch fails never has two. */
  lemma {:induction false} OneStored(run: seq<Bootstrap>, actions: seq<Action>, n: nat)
    requires IsRun(run, actions) && n < |run|
    requires forall i | 0 <= i < |actions| :: PatchesSucceed(run[i], run[i + 1])
    ensures Clean(run[n]) && !TwoStored(run[n])
  {
    RunKeepsInvariant(run, actions, n);
    if n > 0 {
      OneStored(run, actions, n - 1);
      assert Step(run[n - 1], actions[n - 1], run[n - 1 + 1]) && PatchesSucceed(run[n - 1], run[n - 1 + 1]);
    }
  }

  lemma Prefix(b: Bootstrap, a: Action, c: Bootstrap, d: Bootstrap)
    requires GoodStep(b, a, c) && Reaches(c, d)
    ensures Reaches(b, d)
  {
    var k: nat :| Leads(c, d, k);
    assert Leads(b, d, k + 1);
  }

  lemma Stay(b: Bootstrap)
    ensures Reaches(b, b)
  {
    assert Leads(b, b, 0);
  }

  /** While machine a has a secret that is not published, a second one can follow. */
  lemma SecondSecret(b: Bootstrap, a: string) returns (d: Bootstrap)
    requires PublishedHolds(b) && a in b.server.machines && a in b.configs && b.configs[a] == Config(true, false)
    ensures Reaches(b, d) && TwoStored(d)
  {
    if b.server.holder == None {
      d := StoredByNew(b, a);
    } else if b.server.holder == Some(a) {
      var c := b.(server := b.server.(holder := None));
      assert ReconcileSpec(b, a, c) by {
        assert LockSpec(b.server, a, true, b.server) && UnlockSpec(b.server, true, c.server);
      }
      d := StoredByNew(c, a);
      Prefix(b, Reconciled(a), c, d);
    } else {
      d := StoredDespite(b, a, b.server.holder.value);
    }
  }

  lemma NewMachine(b: Bootstrap) returns (c: Bootstrap, x: string)
    ensures GoodStep(b, Created(x), c) && c.server.holder == b.server.holder && c.server.holder != Some(x)
    ensures x !in b.configs && x in c.server.machines && x in c.configs && !c.configs[x].ready
    ensures forall m | m in b.server.machines :: m in c.server.machines
    ensures forall m | m in b.configs :: m in c.configs && c.configs[m] == b.configs[m]
    ensures c.server.machines == b.server.machines + {x}
  {
    x := InitLock.Fresh(b.configs.Keys + if b.server.holder.Some? then {b.server.holder.value} else {});
    c := Bootstrap(b.server.(machines := b.server.machines + {x}), b.configs[x := Config(false, false)]);
  }

  /** With the lock free, a new machine stores its secret. */
  lemma StoredByNew(b: Bootstrap, a: string) returns (d: Bootstrap)
    requires PublishedHolds(b) && a in b.server.machines && a in b.configs && b.configs[a] == Config(true, false)
    requires b.server.holder == None
    ensures Reaches(b, d) && TwoStored(d)
  {
    var c, x := NewMachine(b);
    d := StoredBy(c, a, x);
    Prefix(b, Created(x), c, d);
  }

  lemma StoredBy(b: Bootstrap, a: string, x: string) returns (d: Bootstrap)
    requires a in b.server.machines && a in b.configs && b.configs[a].stored && a != x
    requires x in b.server.machines && x in b.configs && !b.configs[x].ready
    requires b.server.holder == None || b.server.holder == Some(x)
    ensures Reaches(b, d) && TwoStored(d)
  {
    d := Bootstrap(b.server.(holder := Some(x)), b.configs[x := Config(true, true)]);
    assert ReconcileSpec(b, x, d) by {
      assert LockSpec(b.server, x, true, d.server);
    }
    Stay(d);
    Prefix(b, Reconciled(x), d, d);
    assert d.configs[a].stored && d.configs[x].stored;
  }

  /** With the lock held by another machine: it has stored its secret, or does so; or it is gone, and a new
      machine breaks the lock. */
  lemma StoredDespite(b: Bootstrap, a: string, h: string) returns (d: Bootstrap)
    requires PublishedHolds(b) && a in b.server.machines && a in b.configs && b.configs[a] == Config(true, false)
    requires b.server.holder == Some(h) && h != a
    ensures Reaches(b, d) && TwoStored(d)
  {
    if h in b.server.machines {
      if b.configs[h].stored {
        d := b;
        Stay(b);
      } else {
        d := StoredBy(b, a, h);
      }
    } else {
      d := StoredAfterBreaking(b, a, h);
    }
  }

  lemma StoredAfterBreaking(b: Bootstrap, a: string, h: string) returns (d: Bootstrap)
    requires PublishedHolds(b) && a in b.server.machines && a in b.configs && b.configs[a] == Config(true, false)
    requires b.server.holder == Some(h) && h !in b.server.machines
    ensures Reaches(b, d) && TwoStored(d)
  {
    var c, x := NewMachine(b);
    var c' := c.(server := c.server.(holder := None));
    BrokenBy(c, x, h, c');
    d := StoredBy(c', a, x);
    Prefix(c, Reconciled(x), c', d);
    Prefix(b, Created(x), c, d);
  }

  lemma BrokenBy(b: Bootstrap, x: string, h: string, b': Bootstrap)
    requires x in b.server.machines && x in b.configs && !b.configs[x].ready
    requires b.server.holder == Some(h) && h !in b.server.machines && h != x
             && b' == b.(server := b.server.(holder := None))
    ensures GoodStep(b, Reconciled(x), b')
  {
  }

  // ---- the calls of the interleaved model, run without interruption ------------------------------

  /** Runs API calls until Lock has returned. */
  ghost function Alone(pc: InitLock.Pc, me: string, s: InitLock.Server, fails: seq<bool>)
    : (InitLock.Pc, InitLock.Server)
    decreases |fails|
  {
    if fails == [] || pc.Held? || pc.Returned? then (pc, s)
    else var (pc', s') := InitLock.Call(pc, me, s, fails[0]); Alone(pc', me, s', fails[1..])
  }

  /** Without failures Lock takes a free lock and finds its own, and does nothing to that of an existing
      machine; and Unlock releases whichever there is. */
  lemma AloneWithoutFailures(me: string, s: InitLock.Server)
    ensures s.holder == None || s.holder == Some(me) ==> Returns(me, s, NO_FAILURES, true, s.(holder := Some(me)))
    ensures s.holder.Some? && s.holder.value != me ==>
              Returns(me, s, NO_FAILURES, false, if s.holder.value in s.machines then s else s.(holder := None))
    ensures Alone(InitLock.UnlockStart, me, s, [false, false]) == (InitLock.Returned(false), s.(holder := None))
  {
    AloneSteps(me, s, NO_FAILURES);
    UnlockSteps(me, s, false, false);
  }

  const NO_FAILURES := [false, false, false, false]

  lemma UnlockSteps(me: string, s: InitLock.Server, f: bool, g: bool)
    ensures Alone(InitLock.UnlockStart, me, s, [f, g]) ==
            (InitLock.Returned(false), if f || g then s else s.(holder := None))
  {
    var (pc1, s1) := InitLock.Call(InitLock.UnlockStart, me, s, f);
    assert [f, g][1..] == [g] && [g][1..] == [];
    assert Alone(InitLock.UnlockStart, me, s, [f, g]) == Alone(pc1, me, s1, [g]);
    if !pc1.Returned? {
      var (pc2, s2) := InitLock.Call(pc1, me, s1, g);
      assert Alone(pc1, me, s1, [g]) == Alone(pc2, me, s2, []);
    }
  }

  /** Run alone, the interleaved calls that release the lock do exactly what Unlock promises. */
  lemma UnlockAlone(me: string, s: InitLock.Server, s': InitLock.Server)
    ensures UnlockSpec(s, false, s') <==>
            exists f, g :: Alone(InitLock.UnlockStart, me, s, [f, g]) == (InitLock.Returned(false), s')
  {
    UnlockSteps(me, s, false, false);
    UnlockSteps(me, s, true, true);
    forall f, g | Alone(InitLock.UnlockStart, me, s, [f, g]) == (InitLock.Returned(false), s')
      ensures UnlockSpec(s, false, s')
    {
      UnlockSteps(me, s, f, g);
    }
  }

  lemma AloneSteps(me: string, s: InitLock.Server, f: seq<bool>)
    requires |f| == 4
    ensures var (pc1, s1) := InitLock.Call(InitLock.Start, me, s, f[0]);
            var (pc2, s2) := if pc1.Held? || pc1.Returned? then (pc1, s1) else InitLock.Call(pc1, me, s1, f[1]);
            var (pc3, s3) := if pc2.Held? || pc2.Returned? then (pc2, s2) else InitLock.Call(pc2, me, s2, f[2]);
            var (pc4, s4) := if pc3.Held? || pc3.Returned? then (pc3, s3) else InitLock.Call(pc3, me, s3, f[3]);
            Alone(InitLock.Start, me, s, f) == (pc4, s4)
  {
    var (pc1, s1) := InitLock.Call(InitLock.Start, me, s, f[0]);
    var (pc2, s2) := if pc1.Held? || pc1.Returned? then (pc1, s1) else InitLock.Call(pc1, me, s1, f[1]);
    var (pc3, s3) := if pc2.Held? || pc2.Returned? then (pc2, s2) else InitLock.Call(pc2, me, s2, f[2]);
    var (pc4, s4) := if pc3.Held? || pc3.Returned? then (pc3, s3) else InitLock.Call(pc3, me, s3, f[3]);
    assert Alone(pc3, me, s3, f[3..]) == Alone(pc4, me, s4, []);
    assert Alone(pc2, me, s2, f[2..]) == Alone(pc3, me, s3, f[2..][1..]) && f[2..][1..] == f[3..];
    assert Alone(pc1, me, s1, f[1..]) == Alone(pc2, me, s2, f[1..][1..]) && f[1..][1..] == f[2..];
  }

  /** With these calls failing, Lock returns this and leaves that. */
  ghost predicate Returns(me: string, s: InitLock.Server, f: seq<bool>, locked: bool, s': InitLock.Server) {
    |f| == 4 && Alone(InitLock.Start, me, s, f) == (if locked then InitLock.Held else InitLock.Returned(false), s')
  }

  /** Run alone, the interleaved calls of one machine do exactly what Lock promises. */
  lemma LockAlone(me: string, s: InitLock.Server, locked: bool, s': InitLock.Server)
    ensures LockSpec(s, me, locked, s') <==> exists f: seq<bool> :: Returns(me, s, f, locked, s')
  {
    var fine, failing := [false, false, false, false], [true, true, true, true];
    AloneSteps(me, s, fine);
    AloneSteps(me, s, failing);
    if LockSpec(s, me, locked, s') {
      if !locked && s' == s {
        assert Returns(me, s, failing, locked, s');
      } else {
        assert Returns(me, s, fine, locked, s');
      }
    }
    forall f: seq<bool> | Returns(me, s, f, locked, s')
      ensures LockSpec(s, me, locked, s')
    {
      AloneSteps(me, s, f);
    }
  }
}
