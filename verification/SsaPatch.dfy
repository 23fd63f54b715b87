// Server side apply behind a cache of requests known to change nothing.
module SsaPatch {
  import opened Calls
  import opened JsonTree
  import opened Options
  import ContractPath
  import PathFilters

  // One version of an object: resource versions are issued once, by the server.
  datatype Versioned = Versioned(rv: nat, obj: Tree)

  // Group, kind, namespace and name of an object, the version that was read, and the filtered
  // intent: the cache key (its hash is taken to be injective).
  datatype Identifier = Identifier(key: string, rv: nat, intent: Tree)

  // ---- when an apply changes nothing ---------------------------------------------------------------------

  /** The object has every field of the intent, with its value. */
  predicate Carries(obj: Tree, intent: Tree) {
    match intent
    case Leaf(_) => obj == intent
    case Node(fields) => obj.Node? && forall k | k in fields :: k in obj.fields && Carries(obj.fields[k], fields[k])
  }

  /** The two objects do not differ in the fields of the intent. */
  predicate SameFields(intent: Tree, a: Tree, b: Tree) {
    match intent
    case Leaf(_) => a == b
    case Node(fields) =>
      if !a.Node? || !b.Node? then a == b
      else forall k | k in fields ::
             (k in a.fields <==> k in b.fields) && (k in a.fields ==> SameFields(fields[k], a.fields[k], b.fields[k]))
  }

  lemma {:induction false} CarriedAlike(intent: Tree, a: Tree, b: Tree)
    requires Carries(a, intent)
    ensures Carries(b, intent) <==> SameFields(intent, a, b)
    decreases intent
  {
    if intent.Node? && b.Node? {
      forall k | k in intent.fields && k in b.fields
        ensures Carries(b.fields[k], intent.fields[k]) <==> SameFields(intent.fields[k], a.fields[k], b.fields[k])
      {
        CarriedAlike(intent.fields[k], a.fields[k], b.fields[k]);
      }
    }
  }

  /** What the field manager owns of an object, and what it comes to own by an intent. */
  datatype Ownership = Ownership(owned: Tree -> Tree, claimed: Tree -> Tree)

  /** An apply changes nothing exactly when the object carries the intent and the manager owns exactly what
      the intent claims. */
  ghost predicate Lawful(apply: (Tree, Tree) -> Tree, o: Ownership) {
    forall obj, intent :: apply(obj, intent) == obj <==> Carries(obj, intent) && o.owned(obj) == o.claimed(intent)
  }

  /** Between the two versions nobody has changed a field of the intent, or what the manager owns. */
  ghost predicate Untouched(intent: Tree, before: Tree, now: Tree, o: Ownership) {
    SameFields(intent, before, now) && o.owned(now) == o.owned(before)
  }

  /** The fields of the intent laid over the object: a lawful apply, when ownership plays no part. */
  function Overlay(obj: Tree, intent: Tree): Tree
    decreases intent
  {
    if obj.Leaf? || intent.Leaf? then intent
    else Node(map k | k in obj.fields.Keys + intent.fields.Keys ::
      if k !in intent.fields then obj.fields[k]
      else if k !in obj.fields then intent.fields[k]
      else Overlay(obj.fields[k], intent.fields[k]))
  }

  const NO_OWNERSHIP: Ownership := Ownership(t => EMPTY, t => EMPTY)

  lemma OverlayIsLawful()
    ensures Lawful(Overlay, NO_OWNERSHIP)
  {
    forall obj, intent ensures Overlay(obj, intent) == obj <==> Carries(obj, intent) {
      OverlayChangesNothing(obj, intent);
    }
  }

  lemma {:induction false} OverlayChangesNothing(obj: Tree, intent: Tree)
    ensures Overlay(obj, intent) == obj <==> Carries(obj, intent)
    decreases intent
  {
    if obj.Node? && intent.Node? {
      forall k | k in obj.fields && k in intent.fields
        ensures Overlay(obj.fields[k], intent.fields[k]) == obj.fields[k] <==> Carries(obj.fields[k], intent.fields[k])
      {
        OverlayChangesNothing(obj.fields[k], intent.fields[k]);
      }
      var laid := Overlay(obj, intent);
      if laid == obj {
        assert forall k | k in intent.fields :: k in laid.fields;
        assert forall k | k in intent.fields :: laid.fields[k] == Overlay(obj.fields[k], intent.fields[k]);
      }
      if Carries(obj, intent) {
        assert laid.fields == obj.fields;
      }
    }
  }

  // ---- server and cache --------------------------------------------------------------------------------------

  /** The objects of the API server. `apply` is the merge of one field manager's forced apply. */
  class Server {
    const reliable: bool          // no call fails
    const apply: (Tree, Tree) -> Tree
    var objects: map<string, Versioned>
    var lastRv: nat
    ghost var history: map<(string, nat), Tree>

    constructor (reliable: bool, apply: (Tree, Tree) -> Tree)
      ensures Valid() && this.reliable == reliable && this.apply == apply && objects == map[]
    {
      this.reliable := reliable;
      this.apply, objects, lastRv, history := apply, map[], 0, map[];
    }

    ghost predicate Valid()
      reads this
    {
      && (forall k | k in objects ::
            && objects[k].rv <= lastRv
            && (k, objects[k].rv) in history && history[(k, objects[k].rv)] == objects[k].obj)
      && forall k, rv | (k, rv) in history :: rv <= lastRv
    }

    /** What an apply request makes of the objects. */
    function Applied(key: string, intent: Tree): map<string, Versioned>
      requires key in objects
      reads this
    {
      var merged := apply(objects[key].obj, intent);
      if merged == objects[key].obj then objects else objects[key := Versioned(lastRv + 1, merged)]
    }

    method Apply(key: string, intent: Tree) returns (err: bool, result: Versioned)
      requires Valid() && key in objects
      modifies this
      ensures Valid() && Extends(old(history), history)
      ensures err ==> objects == old(objects)
      ensures !err ==> objects == old(Applied(key, intent)) && result == objects[key]
      ensures !err ==> result.obj == apply(old(objects[key]).obj, intent) && objects == old(objects)[key := result]
      ensures reliable ==> !err
      ensures !err ==> (result.rv <= old(lastRv) <==> apply(old(objects[key]).obj, intent) == old(objects[key]).obj)
    {
      result := objects[key];
      err := ApiFails(reliable);
      if !err {
        var merged := apply(result.obj, intent);
        if merged != result.obj {
          Write(key, merged);
          result := objects[key];
        }
      }
    }

    /** Any other writer. */
    method Write(key: string, obj: Tree)
      requires Valid()
      modifies this
      ensures Valid() && Extends(old(history), history)
      ensures lastRv == old(lastRv) + 1 && objects == old(objects)[key := Versioned(lastRv, obj)]
    {
      lastRv := lastRv + 1;
      objects := objects[key := Versioned(lastRv, obj)];
      history := history[(key, lastRv) := obj];
    }

    method Delete(key: string)
      requires Valid()
      modifies this
      ensures Valid() && history == old(history) && objects == old(objects) - {key} && lastRv == old(lastRv)
    {
      objects := objects - {key};
    }
  }

  ghost predicate Extends<K, V>(before: map<K, V>, after: map<K, V>) {
    forall k | k in before :: k in after && after[k] == before[k]
  }

  class Cache {
    var keys: set<Identifier>

    constructor ()
      ensures keys == {}
    {
      keys := {};
    }

    /** Entries expire at any time. */
    method Expire(expired: set<Identifier>)
      modifies this
      ensures keys == old(keys) - expired
    {
      keys := keys - expired;
    }
  }

  /** Every cached request changes nothing when it meets the object version it names. */
  ghost predicate Sound(keys: set<Identifier>, history: map<(string, nat), Tree>, apply: (Tree, Tree) -> Tree) {
    forall id | id in keys ::
      (id.key, id.rv) in history && apply(history[(id.key, id.rv)], id.intent) == history[(id.key, id.rv)]
  }

  /** Patch with the caching proxy. `original` is some version that was read earlier. The cache stays
      sound, and the objects end as an uncached apply leaves them exactly when the request was not cached,
      or nobody has touched what it is about since `original`; so always when `original` is current. */
  method Patch(server: Server, cache: Cache, key: string, original: Versioned, modified: Tree, ghost o: Ownership)
    returns (err: bool, result: Versioned)
    requires server.Valid() && key in server.objects
    requires (key, original.rv) in server.history && server.history[(key, original.rv)] == original.obj
    requires Sound(cache.keys, server.history, server.apply) && Lawful(server.apply, o)
    modifies server, cache
    ensures server.Valid() && Extends(old(server.history), server.history)
    ensures Sound(cache.keys, server.history, server.apply)
    ensures var intent := PathFilters.Prepared(modified);
            var id := Identifier(key, original.rv, intent);
            && (id in old(cache.keys) ==> !err && server.objects == old(server.objects) && result == original)
            && (err ==> server.objects == old(server.objects) && !server.reliable)
            && (!err && id !in old(cache.keys) ==>
                  && result.obj == server.apply(old(server.objects[key]).obj, intent)
                  && server.objects == old(server.objects)[key := result])
            && (!err ==>
                  (server.objects == old(server.Applied(key, intent)) <==>
                   id !in old(cache.keys) || Untouched(intent, original.obj, old(server.objects[key]).obj, o)))
            && cache.keys == old(cache.keys) + if !err && result.rv == original.rv then {id} else {}
    ensures !err && original == old(server.objects[key]) ==> result == server.objects[key]
    ensures !err && original == old(server.objects[key]) ==>
              server.objects == old(server.Applied(key, PathFilters.Prepared(modified)))
  {
    var intent := PathFilters.PrepareModified(modified);
    var id := Identifier(key, original.rv, intent);
    if id in cache.keys {
      StaleHit(server, cache.keys, key, original, intent, o);
      return false, original;
    }
    err, result := server.Apply(key, intent);
    if !err && original.rv == result.rv {
      cache.keys := cache.keys + {id};
    }
  }

  /** On a hit, skipping the request makes no difference exactly when the fields and the ownership that it
      is about have not been touched since `original`. */
  lemma StaleHit(server: Server, keys: set<Identifier>, key: string, original: Versioned, intent: Tree, o: Ownership)
    requires server.Valid() && key in server.objects && Lawful(server.apply, o)
    requires Sound(keys, server.history, server.apply) && Identifier(key, original.rv, intent) in keys
    requires (key, original.rv) in server.history && server.history[(key, original.rv)] == original.obj
    ensures server.Applied(key, intent) == server.objects <==>
            Untouched(intent, original.obj, server.objects[key].obj, o)
  {
    var current := server.objects[key].obj;
    assert server.apply(original.obj, intent) == original.obj;
    CarriedAlike(intent, original.obj, current);
    assert server.apply(current, intent) == current <==>
           Carries(current, intent) && o.owned(current) == o.claimed(intent);
    if server.apply(current, intent) != current {
      assert server.Applied(key, intent)[key].rv != server.objects[key].rv;
    }
  }

  /** A run in which that matters: the request is cached, somebody else changes its field, and the request is
      repeated with the old version. The change stands, which an apply would have undone. */
  method StaleRun() returns (server: Server, err: bool)
    ensures !err && "object" in server.objects && server.objects["object"].obj == Node(map["spec" := Leaf("theirs")])
    ensures var ours := PathFilters.Prepared(Node(map["spec" := Leaf("ours")]));
            server.apply(server.objects["object"].obj, ours) != server.objects["object"].obj
  {
    OverlayIsLawful();
    server := new Server(true, Overlay);
    var cache := new Cache();
    var ours, theirs := Node(map["spec" := Leaf("ours")]), Node(map["spec" := Leaf("theirs")]);
    SpecIsPrepared(ours);
    server.Write("object", ours);
    var original, result := server.objects["object"], server.objects["object"];
    OverlayChangesNothing(ours, ours);
    err, result := Patch(server, cache, "object", original, ours, NO_OWNERSHIP);
    server.Write("object", theirs);
    assert Identifier("object", original.rv, ours) in cache.keys;
    err, result := Patch(server, cache, "object", original, ours, NO_OWNERSHIP);
    OverlayChangesNothing(theirs, ours);
  }

  lemma SpecIsPrepared(t: Tree)
    requires t.Node? && t.fields.Keys == {"spec"}
    ensures PathFilters.Prepared(t) == t
  {
    forall q: ContractPath.Path | q != [] ensures LeafAt(PathFilters.Prepared(t), q) == LeafAt(t, q) {
      PathFilters.PreparedLeaves(t, q);
      assert q[0] != "spec" ==> At(t, q) == None;
    }
    LeavesDetermineMap(PathFilters.Prepared(t), t);
  }

  /** While the server only moves forward, and the cache only loses entries, soundness carries on. */
  lemma SoundForever(keys: set<Identifier>, keys': set<Identifier>,
                                   history: map<(string, nat), Tree>, history': map<(string, nat), Tree>,
                                   apply: (Tree, Tree) -> Tree)
    requires Sound(keys, history, apply) && keys' <= keys && Extends(history, history')
    ensures Sound(keys', history', apply)
  {
  }

  /** One client's patches of objects it has read, among writes and deletions by others and expiry of the
      cache, in any order: the cache is sound all along. */
  method Traffic(server: Server, cache: Cache, rounds: nat, ghost o: Ownership)
    requires server.Valid() && cache.keys == {} && Lawful(server.apply, o)
    modifies server, cache
    ensures server.Valid() && Extends(old(server.history), server.history)
    ensures Sound(cache.keys, server.history, server.apply)
  {
    var read: set<(string, Versioned)> := {};
    for i := 0 to rounds
      invariant server.Valid() && Extends(old(server.history), server.history)
      invariant Sound(cache.keys, server.history, server.apply)
      invariant forall r | r in read :: (r.0, r.1.rv) in server.history && server.history[(r.0, r.1.rv)] == r.1.obj
    {
      ghost var keys, history := cache.keys, server.history;
      var choice: nat, key: string, obj: Tree := *, *, *;
      if choice == 0 {
        server.Write(key, obj);
      } else if choice == 1 {
        server.Delete(key);
      } else if choice == 2 {
        var expired: set<Identifier> := *;
        cache.Expire(expired);
      } else if key in server.objects {
        if choice == 3 {
          read := read + {(key, server.objects[key])};
        } else {
          var original: Versioned := *;
          if (key, original) in read {
            var err, result := Patch(server, cache, key, original, obj, o);
            continue;
          }
        }
      }
      SoundForever(keys, cache.keys, history, server.history, server.apply);
    }
  }
}
