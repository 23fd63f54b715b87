// Nested maps as values, and what pruning them means.
module JsonTree {
  import opened ContractPath
  import opened Options

  // A non-map JSON value (scalars and lists are opaque) or a map.
  datatype Tree = Leaf(v: string) | Node(fields: map<string, Tree>)

  const EMPTY: Tree := Node(map[])

  predicate IsLeaf(t: Tree) { t.Leaf? || t == EMPTY }

  function At(t: Tree, q: Path): Option<Tree>
    decreases |q|
  {
    if q == [] then Some(t)
    else if t.Node? && q[0] in t.fields then At(t.fields[q[0]], q[1..])
    else None
  }

  /** The leaf that t holds at q: a non-map value or an empty map. */
  function LeafAt(t: Tree, q: Path): Option<Tree> {
    match At(t, q)
    case Some(x) => if IsLeaf(x) then Some(x) else None
    case None => None
  }

  /** No non-empty prefix of q, seen from the path p, is filtered. */
  ghost predicate Unfiltered(p: Path, q: Path, f: Filter) {
    forall n | 0 < n <= |q| :: !f(p + q[..n])
  }

  /** The tree FilterIntent leaves behind when it is called on t at path p. */
  ghost function Prune(t: Tree, p: Path, f: Filter): Tree
    decreases t, 0
  {
    match t
    case Leaf(_) => t
    case Node(fields) =>
      Node(map k | k in fields && Survives(fields[k], p + [k], f) :: Prune(fields[k], p + [k], f))
  }

  /** A field is dropped when it is filtered, or when pruning empties a map that was not empty. */
  ghost predicate Survives(t: Tree, p: Path, f: Filter)
    decreases t, 1
  {
    !f(p) && (IsLeaf(t) || Prune(t, p, f) != EMPTY)
  }

  ghost predicate SameLeaves(a: Tree, b: Tree) {
    forall q: Path | q != [] :: LeafAt(a, q) == LeafAt(b, q)
  }

  // ---- what pruning keeps -------------------------------------------------------------------

  /** Below the root, pruning keeps exactly the leaves none of whose prefixes is filtered, with
      their values; in particular it leaves no map newly empty. */
  lemma {:induction false} PruneKeepsUnfilteredLeaves(t: Tree, p: Path, f: Filter, q: Path)
    requires q != []
    ensures LeafAt(Prune(t, p, f), q) == if Unfiltered(p, q, f) then LeafAt(t, q) else None
    decreases |q|
  {
    if t.Node? && q[0] in t.fields {
      var x, rest := t.fields[q[0]], q[1..];
      UnfilteredStep(p, q, f);
      assert IsLeaf(x) ==> Prune(x, p + [q[0]], f) == x;
      if rest != [] {
        PruneKeepsUnfilteredLeaves(x, p + [q[0]], f, rest);
      } else {
        assert At(t, q) == At(x, []) == Some(x);
        var pruned := Prune(t, p, f);
        if q[0] in pruned.fields {
          assert At(pruned, q) == At(pruned.fields[q[0]], []);
        }
      }
    }
  }

  lemma UnfilteredStep(p: Path, q: Path, f: Filter)
    requires q != []
    ensures Unfiltered(p, q, f) <==> !f(p + [q[0]]) && Unfiltered(p + [q[0]], q[1..], f)
  {
    assert q[..1] == [q[0]];
    forall n | 0 < n <= |q| - 1
      ensures p + q[..n + 1] == p + [q[0]] + q[1..][..n]
    {
      assert q[..n + 1] == [q[0]] + q[1..][..n];
    }
    if !f(p + [q[0]]) && Unfiltered(p + [q[0]], q[1..], f) {
      forall n | 0 < n <= |q| ensures !f(p + q[..n]) {
        if n > 1 {
          assert p + q[..n] == p + [q[0]] + q[1..][..n - 1];
        }
      }
    }
    if Unfiltered(p, q, f) {
      assert !f(p + q[..1]);
    }
  }

  /** Every map has a leaf somewhere below it, unless it is a leaf itself. */
  lemma {:induction false} SomeLeaf(t: Tree) returns (q: Path)
    ensures LeafAt(t, q).Some?
    decreases t
  {
    if IsLeaf(t) {
      q := [];
    } else {
      var k :| k in t.fields;
      var r := SomeLeaf(t.fields[k]);
      q := [k] + r;
      assert q[1..] == r;
    }
  }

  /** Leaves determine a map, so the theorem above pins Prune down completely. */
  lemma {:induction false} LeavesDetermineMap(a: Tree, b: Tree)
    requires a.Node? && b.Node? && SameLeaves(a, b)
    ensures a == b
    decreases a
  {
    SubsetOfFields(a, b);
    SubsetOfFields(b, a);
    forall k | k in a.fields ensures a.fields[k] == b.fields[k] {
      var x, y := a.fields[k], b.fields[k];
      forall q: Path ensures LeafAt(x, q) == LeafAt(y, q) {
        assert ([k] + q)[1..] == q;
        assert LeafAt(a, [k] + q) == LeafAt(b, [k] + q);
      }
      assert LeafAt(x, []) == LeafAt(y, []);
      if !IsLeaf(x) {
        LeavesDetermineMap(x, y);
      }
    }
  }

  lemma SubsetOfFields(a: Tree, b: Tree)
    requires a.Node? && b.Node? && SameLeaves(a, b)
    ensures a.fields.Keys <= b.fields.Keys
  {
    forall k | k in a.fields ensures k in b.fields {
      var r := SomeLeaf(a.fields[k]);
      assert ([k] + r)[1..] == r;
      assert LeafAt(a, [k] + r) == LeafAt(b, [k] + r);
    }
  }

  /** Pruning again changes nothing. */
  lemma PruneIdempotent(t: Tree, p: Path, f: Filter)
    ensures Prune(Prune(t, p, f), p, f) == Prune(t, p, f)
  {
    if t.Node? {
      var once := Prune(t, p, f);
      forall q: Path | q != [] ensures LeafAt(Prune(once, p, f), q) == LeafAt(once, q) {
        PruneKeepsUnfilteredLeaves(t, p, f, q);
        PruneKeepsUnfilteredLeaves(once, p, f, q);
      }
      LeavesDetermineMap(Prune(once, p, f), once);
    }
  }
}
