// Filtering an intent by allowed and ignored paths.
module PathFilters {
  import opened ContractPath
  import opened JsonTree
  import opened Options
  import FilterIntent

  ghost function FilteredObject(t: Tree, allowed: seq<Path>, ignored: seq<Path>): Tree {
    var kept := if allowed == [] then t else Prune(t, [], NotAllowedFilter(allowed));
    if ignored == [] then kept else Prune(kept, [], IgnoredFilter(ignored))
  }

  method FilterObject(value: FilterIntent.Value, allowed: seq<Path>, ignored: seq<Path>,
                      ghost s: FilterIntent.Shape)
    returns (ghost after: FilterIntent.Shape)
    requires FilterIntent.Unshared(s) && FilterIntent.Represents(value, s)
    modifies FilterIntent.Objects(s)
    ensures FilterIntent.Objects(after) == FilterIntent.Objects(s)
    ensures FilterIntent.Unshared(after) && FilterIntent.Represents(value, after)
    ensures FilterIntent.TreeOf(after) == FilteredObject(FilterIntent.TreeOf(s), allowed, ignored)
  {
    after := s;
    var root := new string[0];
    if |allowed| > 0 {
      var _, kept := FilterIntent.Filter(value, Slice(root, 0), NotAllowedFilter(allowed), after);
      after := kept;
    }
    if |ignored| > 0 {
      var _, kept := FilterIntent.Filter(value, Slice(root, 0), IgnoredFilter(ignored), after);
      after := kept;
    }
  }

  ghost predicate AtOrBelow(paths: seq<Path>, q: Path) {
    exists p | p in paths :: p != [] && p <= q
  }

  /** The leaves kept are those comparable with an allowed path and not at or below an ignored one. */
  lemma FilterObjectLeaves(t: Tree, allowed: seq<Path>, ignored: seq<Path>, q: Path)
    requires q != []
    ensures LeafAt(FilteredObject(t, allowed, ignored), q) ==
            if (allowed == [] || Allowed(allowed, q)) && !AtOrBelow(ignored, q) then LeafAt(t, q) else None
  {
    var kept := if allowed == [] then t else Prune(t, [], NotAllowedFilter(allowed));
    PruneKeepsUnfilteredLeaves(t, [], NotAllowedFilter(allowed), q);
    AllowedPrefixes(allowed, q);
    PruneKeepsUnfilteredLeaves(kept, [], IgnoredFilter(ignored), q);
    IgnoredPrefixes(ignored, q);
  }

  lemma AllowedPrefixes(allowed: seq<Path>, q: Path)
    requires q != []
    ensures Unfiltered([], q, NotAllowedFilter(allowed)) <==> Allowed(allowed, q)
  {
    if Allowed(allowed, q) {
      var a :| a in allowed && Comparable(q, a);
      forall n | 0 < n <= |q| ensures Comparable([] + q[..n], a) {
        assert [] + q[..n] == q[..n];
        assert q[..n] <= q;
      }
    }
    if Unfiltered([], q, NotAllowedFilter(allowed)) {
      assert [] + q[..|q|] == q;
      assert !NotAllowedFilter(allowed)([] + q[..|q|]);
    }
  }

  lemma IgnoredPrefixes(ignored: seq<Path>, q: Path)
    ensures Unfiltered([], q, IgnoredFilter(ignored)) <==> !AtOrBelow(ignored, q)
  {
    if AtOrBelow(ignored, q) {
      var p :| p in ignored && p != [] && p <= q;
      assert [] + q[..|p|] == p;
    }
    if !Unfiltered([], q, IgnoredFilter(ignored)) {
      var n :| 0 < n <= |q| && IgnoredFilter(ignored)([] + q[..n]);
      assert [] + q[..n] == q[..n] && q[..n] <= q;
    }
  }

  // The paths an intent may hold: identity, labels, annotations, finalizers, owners and spec.
  const INTENT_PATHS: seq<Path> := [
    ["apiVersion"], ["kind"],
    ["metadata", "name"], ["metadata", "namespace"], ["metadata", "uid"],
    ["metadata", "labels"], ["metadata", "annotations"], ["metadata", "finalizers"],
    ["metadata", "ownerReferences"], ["spec"]]

  const METADATA_FIELDS: set<string> :=
    {"name", "namespace", "uid", "labels", "annotations", "finalizers", "ownerReferences"}

  ghost function Prepared(t: Tree): Tree { FilteredObject(t, INTENT_PATHS, []) }

  method PrepareModified(t: Tree) returns (intent: Tree)
    ensures intent == Prepared(t)
  {
    var value, s := FilterIntent.Decode(t);
    var kept := FilterObject(value, INTENT_PATHS, [], s);
    intent := FilterIntent.Encode(value, kept);
  }

  /** Of the prepared intent, everything under apiVersion, kind and spec stays, of metadata only the seven
      fields above, and anything else (status in particular) goes. */
  lemma PreparedLeaves(t: Tree, q: Path)
    requires q != []
    ensures LeafAt(Prepared(t), q) ==
            if HasOpinion(q) then LeafAt(t, q) else None
  {
    FilterObjectLeaves(t, INTENT_PATHS, [], q);
    IntentPathsAllow(q);
  }

  predicate HasOpinion(q: Path)
    requires q != []
  {
    q[0] in {"apiVersion", "kind", "spec"} || (q[0] == "metadata" && (|q| == 1 || q[1] in METADATA_FIELDS))
  }

  lemma IntentPathsAllow(q: Path)
    requires q != []
    ensures Allowed(INTENT_PATHS, q) <==> HasOpinion(q)
  {
    if Allowed(INTENT_PATHS, q) {
      var a :| a in INTENT_PATHS && Comparable(q, a);
      IntentPathShape(a);
      assert a[0] == q[0];
    }
    if HasOpinion(q) {
      IntentPathMembers();
      if q[0] != "metadata" {
        assert Comparable(q, [q[0]]);
      } else if |q| == 1 {
        assert Comparable(q, ["metadata", "name"]);
      } else {
        assert Comparable(q, ["metadata", q[1]]);
      }
    }
  }

  lemma IntentPathShape(a: Path)
    requires a in INTENT_PATHS
    ensures a != [] && HasOpinion(a)
    ensures a[0] == "metadata" <==> |a| == 2
    ensures |a| <= 2
  {
  }

  lemma IntentPathMembers()
    ensures forall k | k in {"apiVersion", "kind", "spec"} :: [k] in INTENT_PATHS
    ensures forall k | k in METADATA_FIELDS :: ["metadata", k] in INTENT_PATHS
  {
  }
}
