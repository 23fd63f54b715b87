// FilterIntent: the in-place prune of nested Go maps, with paths built by append.
module FilterIntent {
  import opened ContractPath
  import opened JsonTree

  /** A Go map[string]interface{}: shared by reference, changed in place. */
  class GoMap {
    var entries: map<string, Value>

    constructor (entries: map<string, Value>)
      ensures this.entries == entries
    {
      this.entries := entries;
    }
  }

  datatype Value = Scalar(v: string) | Object(m: GoMap)

  /** Ghost picture of a value: which map object sits at which place, and which objects a map owns. */
  datatype Shape = SLeaf(v: string) | SNode(obj: GoMap, kids: map<string, Shape>, owned: set<GoMap>)

  ghost function Objects(s: Shape): set<GoMap> { if s.SLeaf? then {} else s.owned }

  /** Decoded JSON has no sharing: every map object occurs at one place only. */
  ghost predicate Unshared(s: Shape)
    decreases s
  {
    s.SNode? ==>
      && s.obj in s.owned
      && (forall k | k in s.kids ::
            s.obj !in Objects(s.kids[k]) && Objects(s.kids[k]) <= s.owned && Unshared(s.kids[k]))
      && (forall j, k | j in s.kids && k in s.kids && j != k :: Objects(s.kids[j]) !! Objects(s.kids[k]))
  }

  ghost predicate Represents(v: Value, s: Shape)
    requires Unshared(s)
    reads Objects(s)
    decreases s
  {
    match s
    case SLeaf(x) => v == Scalar(x)
    case SNode(obj, kids, _) =>
      && v == Object(obj)
      && obj.entries.Keys == kids.Keys
      && forall k | k in kids :: Represents(obj.entries[k], kids[k])
  }

  ghost function TreeOf(s: Shape): Tree
    decreases s
  {
    match s
    case SLeaf(x) => Leaf(x)
    case SNode(_, kids, _) => Node(map k | k in kids :: TreeOf(kids[k]))
  }

  /** Prunes the map behind `value` in place. The path argument is a slice whose backing array is
      shared with its siblings, and fields are visited in any order. The value left behind is the
      pruned tree computed from the pure path, and the result says whether a direct field went. */
  method Filter(value: Value, path: Slice, f: ContractPath.Filter, ghost s: Shape)
    returns (gotDeletions: bool, ghost after: Shape)
    requires Unshared(s) && Represents(value, s) && path.Valid()
    modifies Objects(s), path.buf
    ensures path.Contents() == old(path.Contents())
    ensures Objects(after) == Objects(s) && Unshared(after) && Represents(value, after)
    ensures TreeOf(after) == Prune(TreeOf(s), old(path.Contents()), f)
    ensures after.SNode? <==> s.SNode?
    ensures after.SNode? ==> after.kids.Keys <= s.kids.Keys
    ensures gotDeletions <==> after.SNode? && after.kids.Keys != s.kids.Keys
    decreases s, 0
  {
    gotDeletions, after := false, s;
    if value.Scalar? {
      return;
    }
    var fields := value.m.entries.Keys;
    while fields != {}
      invariant fields <= s.kids.Keys
      invariant path.Contents() == old(path.Contents())
      invariant after.SNode? && Objects(after) == Objects(s) && Unshared(after) && Represents(value, after)
      invariant after.kids.Keys <= s.kids.Keys
      invariant forall k | k in fields :: k in after.kids && after.kids[k] == s.kids[k]
      invariant VisitedBut(s, fields, after, old(path.Contents()), f)
      invariant gotDeletions <==> after.kids.Keys != s.kids.Keys
      decreases fields
    {
      var field :| field in fields;
      fields := fields - {field};
      ghost var before := after;
      var deleted;
      deleted, after := VisitField(value.m, field, path, f, after, after.kids[field]);
      gotDeletions := gotDeletions || deleted;
      VisitedCarries(s, field, fields, before, after, old(path.Contents()), f);
    }
    AllVisited(s, after, old(path.Contents()), f);
  }

  /** Field k of the map holds what pruning makes of the tree that was there. */
  ghost predicate Visited(was: Tree, k: string, now: Shape, p: Path, f: ContractPath.Filter)
    requires now.SNode?
  {
    && (k in now.kids <==> Survives(was, p + [k], f))
    && (k in now.kids ==> TreeOf(now.kids[k]) == Prune(was, p + [k], f))
  }

  ghost predicate VisitedBut(s: Shape, fields: set<string>, now: Shape, p: Path, f: ContractPath.Filter)
    requires s.SNode? && now.SNode?
  {
    forall k | k in s.kids && k !in fields :: Visited(TreeOf(s.kids[k]), k, now, p, f)
  }

  lemma VisitedCarries(s: Shape, field: string, fields: set<string>, before: Shape, now: Shape,
                       p: Path, f: ContractPath.Filter)
    requires s.SNode? && before.SNode? && now.SNode? && field in s.kids
    requires VisitedBut(s, fields + {field}, before, p, f)
    requires Visited(TreeOf(s.kids[field]), field, now, p, f)
    requires now.kids.Keys - {field} == before.kids.Keys - {field}
    requires forall k | k in now.kids && k in before.kids && k != field :: now.kids[k] == before.kids[k]
    ensures VisitedBut(s, fields, now, p, f)
  {
    forall k | k in s.kids && k !in fields ensures Visited(TreeOf(s.kids[k]), k, now, p, f) {
      if k != field {
        assert Visited(TreeOf(s.kids[k]), k, before, p, f);
        assert k in now.kids.Keys - {field} <==> k in before.kids.Keys - {field};
      }
    }
  }

  /** Once every field has been visited the map is the pruned one. */
  lemma AllVisited(s: Shape, now: Shape, p: Path, f: ContractPath.Filter)
    requires s.SNode? && now.SNode? && now.kids.Keys <= s.kids.Keys
    requires VisitedBut(s, {}, now, p, f)
    ensures TreeOf(now) == Prune(TreeOf(s), p, f)
  {
  }

  /** The body of the loop over the fields of one map. */
  method VisitField(node: GoMap, field: string, path: Slice, f: ContractPath.Filter,
                    ghost s: Shape, ghost kid: Shape)
    returns (deleted: bool, ghost after: Shape)
    requires Unshared(s) && Represents(Object(node), s) && path.Valid()
    requires field in s.kids && kid == s.kids[field]
    modifies Objects(s), path.buf
    ensures path.Contents() == old(path.Contents())
    ensures after.SNode? && Objects(after) == Objects(s) && Unshared(after) && Represents(Object(node), after)
    ensures after.kids.Keys == if deleted then s.kids.Keys - {field} else s.kids.Keys
    ensures forall k | k in after.kids && k != field :: after.kids[k] == s.kids[k]
    ensures Visited(TreeOf(kid), field, after, old(path.Contents()), f)
    decreases kid, 2
  {
    var fieldPath := Append(path, field);
    ghost var p := path.Contents();
    deleted := f(fieldPath.Contents());
    after := s;
    if !deleted {
      deleted, after := FilterField(node, field, fieldPath, f, s, kid);
      assert fieldPath.buf == path.buf ==> path.Contents() == (p + [field])[..path.len];
    }
    if deleted {
      after := DeleteField(node, field, after);
    }
  }

  /** Recurses into one field and says whether that emptied it. */
  method FilterField(node: GoMap, field: string, fieldPath: Slice, f: ContractPath.Filter,
                     ghost s: Shape, ghost kid: Shape)
    returns (emptied: bool, ghost after: Shape)
    requires Unshared(s) && Represents(Object(node), s) && fieldPath.Valid()
    requires field in s.kids && kid == s.kids[field]
    modifies Objects(kid), fieldPath.buf
    ensures fieldPath.Contents() == old(fieldPath.Contents())
    ensures after.SNode? && field in after.kids && after == s.(kids := s.kids[field := after.kids[field]])
    ensures Unshared(after) && Represents(Object(node), after)
    ensures TreeOf(after.kids[field]) == Prune(TreeOf(kid), old(fieldPath.Contents()), f)
    ensures emptied <==> !IsLeaf(TreeOf(kid)) && TreeOf(after.kids[field]) == EMPTY
    decreases kid, 1
  {
    var value := node.entries[field];
    var nested, pruned := Filter(value, fieldPath, f, kid);
    after := s.(kids := s.kids[field := pruned]);
    StillUnshared(s, field, pruned);
    forall k | k in after.kids ensures Represents(node.entries[k], after.kids[k]) {
      assert k != field ==> Objects(s.kids[k]) !! Objects(kid);
    }
    emptied := nested && value.Object? && value.m.entries == map[];
    EmptiedShape(kid, pruned);
  }

  lemma StillUnshared(s: Shape, field: string, pruned: Shape)
    requires Unshared(s) && s.SNode? && field in s.kids
    requires Unshared(pruned) && Objects(pruned) == Objects(s.kids[field])
    ensures Unshared(s.(kids := s.kids[field := pruned]))
  {
  }

  lemma EmptiedShape(was: Shape, now: Shape)
    requires was.SNode? <==> now.SNode?
    requires now.SNode? ==> now.kids.Keys <= was.kids.Keys
    ensures now.SNode? && now.kids.Keys != was.kids.Keys && now.kids.Keys == {} <==>
            !IsLeaf(TreeOf(was)) && TreeOf(now) == EMPTY
  {
    if was.SNode? {
      assert TreeOf(was).fields.Keys == was.kids.Keys && TreeOf(now).fields.Keys == now.kids.Keys;
    }
  }

  /** Go's delete(value, field). */
  method DeleteField(node: GoMap, field: string, ghost s: Shape) returns (ghost after: Shape)
    requires Unshared(s) && Represents(Object(node), s) && field in s.kids
    modifies node
    ensures after == s.(kids := s.kids - {field})
    ensures Unshared(after) && Represents(Object(node), after)
  {
    node.entries := node.entries - {field};
    after := s.(kids := s.kids - {field});
  }

  /** json.Unmarshal into nested maps: fresh, unshared map objects. */
  method Decode(t: Tree) returns (value: Value, ghost s: Shape)
    ensures Unshared(s) && Represents(value, s) && TreeOf(s) == t
    ensures fresh(Objects(s))
    decreases t
  {
    if t.Leaf? {
      return Scalar(t.v), SLeaf(t.v);
    }
    var entries: map<string, Value>, fields := map[], t.fields.Keys;
    ghost var kids: map<string, Shape>, owned: set<GoMap> := map[], {};
    while fields != {}
      invariant fields <= t.fields.Keys && entries.Keys == kids.Keys == t.fields.Keys - fields
      invariant fresh(owned)
      invariant forall k | k in kids ::
          && Unshared(kids[k]) && Objects(kids[k]) <= owned
          && Represents(entries[k], kids[k]) && TreeOf(kids[k]) == t.fields[k]
      invariant forall j, k | j in kids && k in kids && j != k :: Objects(kids[j]) !! Objects(kids[k])
      decreases fields
    {
      var field :| field in fields;
      fields := fields - {field};
      var v, kid := Decode(t.fields[field]);
      entries := entries[field := v];
      kids := kids[field := kid];
      owned := owned + Objects(kid);
    }
    var node := new GoMap(entries);
    value, s := Object(node), SNode(node, kids, owned + {node});
  }

  /** json.Marshal: reads the value the maps represent now. */
  method Encode(value: Value, ghost s: Shape) returns (t: Tree)
    requires Unshared(s) && Represents(value, s)
    ensures t == TreeOf(s)
    decreases s
  {
    if value.Scalar? {
      return Leaf(value.v);
    }
    var done: map<string, Tree>, fields := map[], value.m.entries.Keys;
    while fields != {}
      invariant fields <= s.kids.Keys && done.Keys == s.kids.Keys - fields
      invariant forall k | k in done :: done[k] == TreeOf(s.kids[k])
      decreases fields
    {
      var field :| field in fields;
      fields := fields - {field};
      var encoded := Encode(value.m.entries[field], s.kids[field]);
      done := done[field := encoded];
    }
    t := Node(done);
  }
}
