// The init lock: a config map naming the machine allowed to initialise the cluster.
module InitLock {
  import opened Options

  // What the lock touches: the config map (the machine it names) and the machines that exist.
  datatype Server = Server(holder: Option<string>, machines: set<string>)

  // ---- one machine's reconcile, one API call at a time --------------------------------------

  // Where a reconcile is. Lock runs through the first five, Unlock through the last two.
  datatype Pc =
    | Start
    | SawNone
    | SawHolder(h: string)
    | BreakStart
    | BreakFound
    | Held
    | UnlockStart
    | UnlockFound
    | Returned(locked: bool)

  /** The next API call of machine `me`, which may fail without effect. Unlock is the same code
      whether it breaks a stale lock or releases one's own. */
  function Call(pc: Pc, me: string, s: Server, fails: bool): (Pc, Server) {
    match pc
    case Start =>
      if fails then (Returned(false), s)
      else if s.holder == None then (SawNone, s)
      else if s.holder.value == me then (Held, s)
      else (SawHolder(s.holder.value), s)
    case SawNone =>
      if fails || s.holder != None then (Returned(false), s) else (Held, s.(holder := Some(me)))
    case SawHolder(h) =>
      if fails || h in s.machines then (Returned(false), s) else (BreakStart, s)
    case BreakStart =>
      if fails || s.holder == None then (Returned(false), s) else (BreakFound, s)
    case BreakFound =>
      if fails then (Returned(false), s) else (Returned(false), s.(holder := None))
    case UnlockStart =>
      if fails || s.holder == None then (Returned(false), s) else (UnlockFound, s)
    case UnlockFound =>
      if fails then (Returned(false), s) else (Returned(false), s.(holder := None))
    case Held => (Held, s)
    case Returned(_) => (Start, s)
  }

  // ---- any number of machines, interleaved ---------------------------------------------------

  datatype World = World(server: Server, pcs: map<string, Pc>)

  datatype Action =
    | ApiCall(me: string, fails: bool)
    | WorkFails(me: string)
    | MachineCreated(name: string)
    | MachineDeleted(name: string)

  /** Past a successful Lock and not past the Unlock. A machine whose work succeeds stays here. */
  predicate InSection(pc: Pc) { pc.Held? || pc.UnlockStart? || pc.UnlockFound? }

  /** A reconcile starts only while the machine owning the config exists. */
  predicate Enabled(w: World, a: Action) {
    match a
    case ApiCall(me, _) => me in w.pcs && !w.pcs[me].Held? && (w.pcs[me] == Start ==> me in w.server.machines)
    case WorkFails(me) => me in w.pcs && w.pcs[me].Held?
    case MachineCreated(name) => name !in w.server.machines && name !in w.pcs
    case MachineDeleted(name) => true
  }

  function Do(w: World, a: Action): World
    requires Enabled(w, a)
  {
    match a
    case ApiCall(me, fails) => var (pc, server) := Call(w.pcs[me], me, w.server, fails); World(server, w.pcs[me := pc])
    case WorkFails(me) => w.(pcs := w.pcs[me := UnlockStart])
    case MachineCreated(name) => World(w.server.(machines := w.server.machines + {name}), w.pcs[name := Start])
    case MachineDeleted(name) => w.(server := w.server.(machines := w.server.machines - {name}))
  }

  ghost predicate Step(w: World, a: Action, w': World) { Enabled(w, a) && w' == Do(w, a) }

  /** A machine is deleted neither while it holds the lock, nor while it is about to take it, nor while
      somebody who read that it holds the lock is about to ask whether it still exists. */
  ghost predicate SafeDeletion(w: World, a: Action) {
    a.MachineDeleted? ==>
      && w.server.holder != Some(a.name)
      && (a.name in w.pcs ==> !w.pcs[a.name].SawNone?)
      && forall m | m in w.pcs :: w.pcs[m] != SawHolder(a.name)
  }

  ghost predicate Initial(w: World) {
    && w.server.holder == None
    && w.pcs.Keys == w.server.machines
    && forall m | m in w.pcs :: w.pcs[m] == Start
  }

  ghost predicate IsRun(run: seq<World>, actions: seq<Action>) {
    && |run| == |actions| + 1 && Initial(run[0])
    && forall i | 0 <= i < |actions| :: Step(run[i], actions[i], run[i + 1])
  }

  ghost predicate Invariant(w: World) {
    && (forall m | m in w.pcs && InSection(w.pcs[m]) :: w.server.holder == Some(m))
    && (forall m | m in w.pcs && w.pcs[m].SawHolder? :: w.pcs[m].h in w.server.machines)
    && (forall m | m in w.pcs :: !w.pcs[m].BreakStart? && !w.pcs[m].BreakFound?)
    && (forall m | m in w.pcs && w.pcs[m].SawNone? :: m in w.server.machines)
    && (forall m | m in w.pcs && (w.pcs[m].SawNone? || w.pcs[m].SawHolder?) :: w.server.holder != Some(m))
    && (w.server.holder.Some? ==> w.server.holder.value in w.server.machines)
    && w.server.machines <= w.pcs.Keys
  }

  lemma StepKeepsInvariant(w: World, a: Action, w': World)
    requires Invariant(w) && Step(w, a, w') && SafeDeletion(w, a)
    ensures Invariant(w')
  {
  }

  lemma {:induction false} RunKeepsInvariant(run: seq<World>, actions: seq<Action>, n: nat)
    requires IsRun(run, actions) && n < |run|
    requires forall i | 0 <= i < |actions| :: SafeDeletion(run[i], actions[i])
    ensures Invariant(run[n])
  {
    if n > 0 {
      RunKeepsInvariant(run, actions, n - 1);
      StepKeepsInvariant(run[n - 1], actions[n - 1], run[n]);
    }
  }

  /** Mutual exclusion: in every run with safe deletions at most one machine is past a successful Lock
      and not past its Unlock, and the config map names it. */
  lemma MutualExclusion(run: seq<World>, actions: seq<Action>, n: nat, a: string, b: string)
    requires IsRun(run, actions) && n < |run|
    requires forall i | 0 <= i < |actions| :: SafeDeletion(run[i], actions[i])
    requires a in run[n].pcs && InSection(run[n].pcs[a])
    ensures run[n].server.holder == Some(a)
    ensures b in run[n].pcs && InSection(run[n].pcs[b]) ==> a == b
  {
    RunKeepsInvariant(run, actions, n);
  }

  // ---- deletions must be exactly that safe -----------------------------------------------------------

  /** The actions can follow one another from w, without an unsafe deletion. */
  ghost predicate Continues(w: World, actions: seq<Action>)
    decreases |actions|
  {
    actions != [] ==>
      Enabled(w, actions[0]) && SafeDeletion(w, actions[0]) && Continues(Do(w, actions[0]), actions[1..])
  }

  ghost function After(w: World, actions: seq<Action>): World
    requires Continues(w, actions)
    decreases |actions|
  {
    if actions == [] then w else After(Do(w, actions[0]), actions[1..])
  }

  ghost predicate Reaches(w: World, w': World) { exists actions :: Continues(w, actions) && After(w, actions) == w' }

  ghost predicate TwoInSection(w: World) {
    exists a, b | a in w.pcs && b in w.pcs && a != b :: InSection(w.pcs[a]) && InSection(w.pcs[b])
  }

  /** Without any further unsafe deletion two machines can get past Lock. */
  ghost predicate Breakable(w: World) { exists w' :: Reaches(w, w') && TwoInSection(w') }

  /** Mutual exclusion tolerates exactly the safe deletions: after a run in which all deletions were safe,
      the next one is unsafe if and only if it lets two machines past Lock. */
  lemma UnsafeExactly(run: seq<World>, actions: seq<Action>, n: nat, a: string)
    requires IsRun(run, actions) && n < |run|
    requires forall i | 0 <= i < |actions| :: SafeDeletion(run[i], actions[i])
    ensures !SafeDeletion(run[n], MachineDeleted(a)) <==> Breakable(Do(run[n], MachineDeleted(a)))
  {
    RunKeepsInvariant(run, actions, n);
    var w, w' := run[n], Do(run[n], MachineDeleted(a));
    if SafeDeletion(w, MachineDeleted(a)) {
      StepKeepsInvariant(w, MachineDeleted(a), w');
      forall v | Reaches(w', v) ensures !TwoInSection(v) {
        var xs :| Continues(w', xs) && After(w', xs) == v;
        ContinuesSafely(w', xs);
      }
    } else if w.server.holder == Some(a) {
      StaleHolder(w', a);
    } else if a in w.pcs && w.pcs[a].SawNone? {
      AboutToTake(w, a);
    } else {
      var m :| m in w.pcs && w.pcs[m] == SawHolder(a);
      AboutToBreak(w, a, m);
    }
  }

  lemma {:induction false} ContinuesSafely(w: World, actions: seq<Action>)
    requires Invariant(w) && Continues(w, actions)
    ensures Invariant(After(w, actions))
    decreases |actions|
  {
    if actions != [] {
      StepKeepsInvariant(w, actions[0], Do(w, actions[0]));
      ContinuesSafely(Do(w, actions[0]), actions[1..]);
    }
  }

  lemma {:induction false} Joined(w: World, xs: seq<Action>, ys: seq<Action>)
    requires Continues(w, xs) && Continues(After(w, xs), ys)
    ensures Continues(w, xs + ys) && After(w, xs + ys) == After(After(w, xs), ys)
    decreases |xs|
  {
    if xs == [] {
      assert xs + ys == ys;
    } else {
      Joined(Do(w, xs[0]), xs[1..], ys);
      assert (xs + ys)[1..] == xs[1..] + ys;
    }
  }

  lemma Then(u: World, v: World, w: World)
    requires Reaches(u, v) && Reaches(v, w)
    ensures Reaches(u, w)
  {
    var xs :| Continues(u, xs) && After(u, xs) == v;
    var ys :| Continues(v, ys) && After(v, ys) == w;
    Joined(u, xs, ys);
  }

  lemma Stay(w: World)
    ensures Reaches(w, w)
  {
    assert Continues(w, []) && After(w, []) == w;
  }

  /** One more action at the end. */
  lemma Next(start: World, w: World, a: Action) returns (w': World)
    requires Reaches(start, w) && Enabled(w, a) && !a.MachineDeleted?
    ensures w' == Do(w, a) && Reaches(start, w')
  {
    w' := Do(w, a);
    assert Continues(w', []) && After(w', []) == w';
    assert [a][0] == a && [a][1..] == [];
    assert Continues(w, [a]) && After(w, [a]) == w';
    Then(start, w, w');
  }

  /** Nothing but machine x, the lock and the set of machines differs. */
  ghost predicate OthersSame(w: World, x: string, w': World) {
    w.pcs.Keys <= w'.pcs.Keys && w.server.machines <= w'.server.machines
    && forall m | m in w.pcs && m != x :: w'.pcs[m] == w.pcs[m]
  }

  /** A machine that has just returned takes the free lock. */
  lemma Enter(start: World, w: World, x: string) returns (w': World)
    requires Reaches(start, w) && x in w.pcs && w.pcs[x].Returned? && x in w.server.machines && w.server.holder == None
    ensures Reaches(start, w') && OthersSame(w, x, w') && x in w'.pcs && w'.pcs[x] == Held
             && w'.server.holder == Some(x)
    ensures w'.server.machines == w.server.machines
  {
    w' := Next(start, w, ApiCall(x, false));
    w' := Next(start, w', ApiCall(x, false));
    w' := Next(start, w', ApiCall(x, false));
  }

  lemma Create(start: World, w: World) returns (w': World, x: string)
    requires Reaches(start, w)
    ensures Reaches(start, w') && OthersSame(w, x, w') && w'.server.holder == w.server.holder
    ensures x !in w.pcs && x !in w.server.machines && w.server.holder != Some(x)
    ensures w'.server.machines == w.server.machines + {x} && x in w'.pcs && w'.pcs[x] == Start
  {
    x := Fresh(w.pcs.Keys + w.server.machines + if w.server.holder.Some? then {w.server.holder.value} else {});
    w' := Next(start, w, MachineCreated(x));
  }

  lemma {:induction false} Fresh(used: set<string>) returns (x: string)
    ensures x !in used
  {
    var bound := Bound(used);
    x := seq(bound, i => 'x');
  }

  lemma {:induction false} Bound(used: set<string>) returns (bound: nat)
    ensures forall u | u in used :: |u| < bound
  {
    bound := 0;
    if used != {} {
      var u :| u in used;
      var rest := Bound(used - {u});
      bound := rest + |u| + 1;
    }
  }

  /** A new machine finds that the holder is gone, and is about to break the lock. */
  lemma GoToBreak(start: World, w: World, a: string) returns (w': World, x: string)
    requires Reaches(start, w) && w.server.holder == Some(a) && a !in w.server.machines
    ensures Reaches(start, w') && OthersSame(w, x, w') && w'.server.holder == Some(a) && a !in w'.server.machines
    ensures x !in w.pcs && x in w'.pcs && w'.pcs[x] == BreakStart && x in w'.server.machines
  {
    w', x := Create(start, w);
    w' := Next(start, w', ApiCall(x, false));
    w' := Next(start, w', ApiCall(x, false));
  }

  /** It breaks whatever lock there is by then. */
  lemma Break(start: World, w: World, x: string) returns (w': World)
    requires Reaches(start, w) && x in w.pcs && w.pcs[x] == BreakStart && w.server.holder != None
    ensures Reaches(start, w') && OthersSame(w, x, w') && w'.server.holder == None
    ensures x in w'.pcs && w'.pcs[x].Returned? && w'.server.machines == w.server.machines
  {
    w' := Next(start, w, ApiCall(x, false));
    w' := Next(start, w', ApiCall(x, false));
  }

  /** Two new machines go to break the lock of a holder that is gone. One does, and takes it; then the
      other breaks that one, and takes it too. */
  lemma StaleHolder(w: World, a: string)
    requires w.server.holder == Some(a) && a !in w.server.machines
    ensures Breakable(w)
  {
    Stay(w);
    var w1, x := GoToBreak(w, w, a);
    var w2, y := GoToBreak(w, w1, a);
    var w3 := Break(w, w2, y);
    var w4 := Enter(w, w3, y);
    var w5 := Break(w, w4, x);
    var w6 := Enter(w, w5, x);
    assert InSection(w6.pcs[x]) && InSection(w6.pcs[y]);
  }

  /** The holder takes its lock again. */
  lemma Relock(start: World, w: World, b: string) returns (w': World)
    requires Reaches(start, w) && w.server.holder == Some(b) && b in w.server.machines && b in w.pcs
    requires InSection(w.pcs[b]) || w.pcs[b].Start? || w.pcs[b].Returned? || w.pcs[b].SawNone? || w.pcs[b].SawHolder?
    ensures Reaches(start, w') && OthersSame(w, b, w') && w'.server == w.server && b in w'.pcs && InSection(w'.pcs[b])
  {
    w' := w;
    if !InSection(w.pcs[b]) {
      if w'.pcs[b].SawNone? || w'.pcs[b].SawHolder? {
        w' := Next(start, w', ApiCall(b, true));
      }
      if w'.pcs[b].Returned? {
        w' := Next(start, w', ApiCall(b, false));
      }
      w' := Next(start, w', ApiCall(b, false));
    }
  }

  /** A machine past Lock fails and releases the lock. */
  lemma Release(start: World, w: World, b: string) returns (w': World)
    requires Reaches(start, w) && b in w.pcs && InSection(w.pcs[b]) && w.server.holder == Some(b)
    ensures Reaches(start, w') && OthersSame(w, b, w') && w'.server == w.server.(holder := None)
  {
    w' := w;
    if w'.pcs[b].Held? {
      w' := Next(start, w', WorkFails(b));
    }
    if w'.pcs[b].UnlockStart? {
      w' := Next(start, w', ApiCall(b, false));
    }
    w' := Next(start, w', ApiCall(b, false));
  }

  /** The machine deleted had found no lock and goes on to take it. */
  lemma AboutToTake(w: World, a: string)
    requires Invariant(w) && a in w.pcs && w.pcs[a].SawNone? && w.server.holder != Some(a)
    ensures Breakable(Do(w, MachineDeleted(a)))
  {
    var start := Do(w, MachineDeleted(a));
    Stay(start);
    var w1 := start;
    if start.server.holder.Some? {
      var b := start.server.holder.value;
      w1 := Relock(start, start, b);
      w1 := Release(start, w1, b);
    }
    var w2 := Next(start, w1, ApiCall(a, false));
    StaleHolder(w2, a);
    var w3 :| Reaches(w2, w3) && TwoInSection(w3);
    Then(start, w2, w3);
  }

  /** A machine that had read the name of the one deleted breaks the lock of another one. */
  lemma AboutToBreak(w: World, a: string, m: string)
    requires Invariant(w) && m in w.pcs && w.pcs[m] == SawHolder(a) && w.server.holder != Some(a)
    ensures Breakable(Do(w, MachineDeleted(a)))
  {
    var start := Do(w, MachineDeleted(a));
    Stay(start);
    var w1 := Next(start, start, ApiCall(m, false));
    var w2, b;
    if w1.server.holder.Some? {
      b := w1.server.holder.value;
      w2 := Relock(start, w1, b);
    } else {
      w2, b := Create(start, w1);
      w2 := Next(start, w2, ApiCall(b, true));
      w2 := Enter(start, w2, b);
    }
    var w3 := Break(start, w2, m);
    var w4, z := Create(start, w3);
    w4 := Next(start, w4, ApiCall(z, true));
    w4 := Enter(start, w4, z);
    assert InSection(w4.pcs[b]) && InSection(w4.pcs[z]);
  }

  // ---- that nobody deletes a holder is not enough --------------------------------------------------------

  ghost predicate NoHolderDeleted(run: seq<World>, actions: seq<Action>)
    requires |run| == |actions| + 1
  {
    forall i | 0 <= i < |actions| && actions[i].MachineDeleted? :: run[i].server.holder != Some(actions[i].name)
  }

  lemma Extend(run: seq<World>, actions: seq<Action>, a: Action) returns (run': seq<World>, actions': seq<Action>)
    requires IsRun(run, actions) && NoHolderDeleted(run, actions)
    requires Enabled(run[|actions|], a) && (a.MachineDeleted? ==> run[|actions|].server.holder != Some(a.name))
    ensures IsRun(run', actions') && NoHolderDeleted(run', actions')
    ensures |actions'| == |actions| + 1 && run'[|actions'|] == Do(run[|actions|], a)
  {
    run', actions' := run + [Do(run[|actions|], a)], actions + [a];
  }

  ghost predicate At(w: World, holder: Option<string>, machines: set<string>, a: Pc, b: Pc, c: Pc, d: Pc) {
    w == World(Server(holder, machines), map["A" := a, "B" := b, "C" := c, "D" := d])
  }

  /** B reads that A holds the lock; A fails, releases it and is deleted; C takes the lock; B now finds A
      gone and breaks what has become C's lock; D takes it as well. */
  lemma BreakingAnotherMachinesLock() returns (run: seq<World>, actions: seq<Action>)
    ensures IsRun(run, actions) && NoHolderDeleted(run, actions)
    ensures TwoInSection(run[|actions|])
  {
    run, actions := HolderRead();
    run, actions := LockReleased(run, actions);
    run, actions := HolderDeleted(run, actions);
    run, actions := Extend(run, actions, ApiCall("B", false));
    run, actions := Extend(run, actions, ApiCall("B", false));
    run, actions := Extend(run, actions, ApiCall("B", false));
    run, actions := Extend(run, actions, ApiCall("D", false));
    run, actions := Extend(run, actions, ApiCall("D", false));
    assert InSection(run[|actions|].pcs["C"]) && InSection(run[|actions|].pcs["D"]);
  }

  lemma HolderRead() returns (run: seq<World>, actions: seq<Action>)
    ensures IsRun(run, actions) && NoHolderDeleted(run, actions)
    ensures At(run[|actions|], Some("A"), {"A", "B", "C", "D"}, Held, SawHolder("A"), Start, Start)
  {
    run := [World(Server(None, {"A", "B", "C", "D"}), map["A" := Start, "B" := Start, "C" := Start, "D" := Start])];
    actions := [];
    run, actions := Extend(run, actions, ApiCall("A", false));
    run, actions := Extend(run, actions, ApiCall("A", false));
    run, actions := Extend(run, actions, ApiCall("B", false));
  }

  lemma LockReleased(run0: seq<World>, actions0: seq<Action>) returns (run: seq<World>, actions: seq<Action>)
    requires IsRun(run0, actions0) && NoHolderDeleted(run0, actions0)
    requires At(run0[|actions0|], Some("A"), {"A", "B", "C", "D"}, Held, SawHolder("A"), Start, Start)
    ensures IsRun(run, actions) && NoHolderDeleted(run, actions)
    ensures At(run[|actions|], None, {"A", "B", "C", "D"}, Returned(false), SawHolder("A"), Start, Start)
  {
    run, actions := Extend(run0, actions0, WorkFails("A"));
    run, actions := Extend(run, actions, ApiCall("A", false));
    run, actions := Extend(run, actions, ApiCall("A", false));
  }

  lemma HolderDeleted(run0: seq<World>, actions0: seq<Action>) returns (run: seq<World>, actions: seq<Action>)
    requires IsRun(run0, actions0) && NoHolderDeleted(run0, actions0)
    requires At(run0[|actions0|], None, {"A", "B", "C", "D"}, Returned(false), SawHolder("A"), Start, Start)
    ensures IsRun(run, actions) && NoHolderDeleted(run, actions)
    ensures At(run[|actions|], Some("C"), {"B", "C", "D"}, Returned(false), SawHolder("A"), Held, Start)
  {
    run, actions := Extend(run0, actions0, ApiCall("C", false));
    run, actions := Extend(run, actions, ApiCall("C", false));
    run, actions := Extend(run, actions, MachineDeleted("A"));
    assert {"A", "B", "C", "D"} - {"A"} == {"B", "C", "D"};
  }
}
