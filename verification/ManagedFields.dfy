// One-time clean-up of managedFields entries before an object is handled with server side apply.
module ManagedFields {
  import opened ContractPath
  import opened JsonTree
  import opened Options
  import FilterIntent
  import PathFilters

  const CLASSIC_MANAGER := "manager"

  datatype Operation = Update | Apply

  /** The raw ownership document of an entry, held by pointer; None when it is not valid JSON. */
  class FieldsV1 {
    var raw: Option<Tree>

    constructor (raw: Option<Tree>)
      ensures this.raw == raw
    {
      this.raw := raw;
    }
  }

  datatype Entry = Entry(manager: string, operation: Operation, fields: FieldsV1)

  // The literal null. It is read as a map without fields, and written as null again.
  const NULL: Tree := Leaf("null")

  /** The document can be read into a map. */
  predicate Decodable(raw: Option<Tree>) { raw.Some? && (raw.value.Node? || raw.value == NULL) }

  predicate Classic(e: Entry) { e.manager == CLASSIC_MANAGER && e.operation == Update }

  ghost predicate Distinct(entries: seq<Entry>) {
    forall i, j | 0 <= i < j < |entries| :: entries[i].fields != entries[j].fields
  }

  ghost function Documents(entries: seq<Entry>): set<FieldsV1> { set e | e in entries :: e.fields }

  ghost predicate Owns(entries: seq<Entry>, manager: string) {
    exists e | e in entries :: e.manager == manager
  }

  method HasFieldsManagedBy(entries: seq<Entry>, manager: string) returns (b: bool)
    ensures b <==> Owns(entries, manager)
  {
    for i := 0 to |entries|
      invariant forall j | 0 <= j < i :: entries[j].manager != manager
    {
      if entries[i].manager == manager {
        return true;
      }
    }
    return false;
  }

  /** The documents of the "manager"/Update entries can be decoded, up to the one at i. */
  ghost predicate DecodableTo(entries: seq<Entry>, i: int)
    requires i < |entries|
    reads Documents(entries)
  {
    forall j | 0 <= j <= i && Classic(entries[j]) :: Decodable(entries[j].fields.raw)
  }

  /** What dropping the ownership of paths leaves of a document. */
  ghost function Dropped(t: Tree, paths: seq<Path>): Tree { Prune(t, [], IgnoredFilter(paths)) }

  /** Exactly the ownership leaves at or below one of the paths go. */
  lemma DroppedLeaves(t: Tree, paths: seq<Path>, q: Path)
    requires q != []
    ensures LeafAt(Dropped(t, paths), q) == if PathFilters.AtOrBelow(paths, q) then None else LeafAt(t, q)
  {
    PruneKeepsUnfilteredLeaves(t, [], IgnoredFilter(paths), q);
    PathFilters.IgnoredPrefixes(paths, q);
  }

  method DropFromDocument(document: Tree, paths: seq<Path>) returns (pruned: Tree)
    ensures pruned == Dropped(document, paths)
  {
    var value, s := FilterIntent.Decode(document);
    var root := new string[0];
    var _, kept := FilterIntent.Filter(value, Slice(root, 0), IgnoredFilter(paths), s);
    pruned := FilterIntent.Encode(value, kept);
  }

  class Object {
    var managedFields: seq<Entry>

    constructor (managedFields: seq<Entry>)
      ensures this.managedFields == managedFields
    {
      this.managedFields := managedFields;
    }

    /** Rewrites the documents of the "manager"/Update entries, in order, up to the first that cannot be
        decoded, and then patches the object. The loop works on copies of the entries, which point to the
        same documents as the entries on the object, so what was rewritten stays so after an error. The
        list itself never changes. */
    method DropManagedFields(ssaManager: string, paths: seq<Path>, patchOk: bool) returns (err: bool)
      requires Distinct(managedFields)
      modifies this, Documents(managedFields)
      ensures managedFields == old(managedFields)
      ensures forall i | 0 <= i < |managedFields| ::
                managedFields[i].fields.raw ==
                if !Owns(managedFields, ssaManager) && managedFields[i].manager == "manager"
                   && managedFields[i].operation == Update && old(DecodableTo(managedFields, i))
                then Some(Dropped(old(managedFields[i].fields.raw).value, paths)) else old(managedFields[i].fields.raw)
      ensures err <==>
              !Owns(managedFields, ssaManager) && (old(!DecodableTo(managedFields, |managedFields| - 1)) || !patchOk)
      ensures patchOk && err ==> exists e | e in managedFields ::
                && e.manager == "manager" && e.operation == Update
                && (old(e.fields.raw).None? || (old(e.fields.raw).value.Leaf? && old(e.fields.raw).value.v != "null"))
      ensures !err && !Owns(managedFields, ssaManager) ==>
                forall e | e in managedFields && e.manager == "manager" && e.operation == Update ::
                  old(e.fields.raw).Some? && (old(e.fields.raw).value.Node? || old(e.fields.raw).value == Leaf("null"))
    {
      var owned := HasFieldsManagedBy(managedFields, ssaManager);
      if owned {
        return false;
      }
      var rewritten: seq<Entry> := [];
      for i := 0 to |managedFields|
        invariant managedFields == old(managedFields) && rewritten == managedFields[..i]
        invariant old(DecodableTo(managedFields, i - 1))
        invariant forall j | 0 <= j < |managedFields| ::
            managedFields[j].fields.raw ==
            if j < i && Classic(managedFields[j])
            then Some(Dropped(old(managedFields[j].fields.raw).value, paths)) else old(managedFields[j].fields.raw)
      {
        var e := managedFields[i];
        if Classic(e) {
          if !Decodable(e.fields.raw) {
            return true;
          }
          var pruned := DropFromDocument(e.fields.raw.value, paths);
          e.fields.raw := Some(pruned);
        }
        rewritten := rewritten + [e];
      }
      managedFields := rewritten;
      err := !patchOk;
    }

    /** Drops the "manager"/Update entries and seeds one for ssaManager, once: from then on
        ssaManager owns an entry, so neither this method nor the one above does anything. */
    method CleanUpManagedFieldsForSSAAdoption(ssaManager: string, patchOk: bool) returns (err: bool)
      modifies this
      ensures Owns(managedFields, ssaManager)
      ensures old(Owns(managedFields, ssaManager)) ==> !err && managedFields == old(managedFields)
      ensures !old(Owns(managedFields, ssaManager)) ==>
                && err == !patchOk
                && |managedFields| > 0 && managedFields[..|managedFields| - 1] == WithoutClassic(old(managedFields))
                && (forall e :: e in managedFields[..|managedFields| - 1] <==>
                      e in old(managedFields) && !(e.manager == "manager" && e.operation == Update))
                && var seed := managedFields[|managedFields| - 1];
                   seed.manager == ssaManager && seed.operation == Apply && seed.fields.raw == Some(SEED)
    {
      var owned := HasFieldsManagedBy(managedFields, ssaManager);
      if owned {
        return false;
      }
      var kept := RemoveClassic(managedFields);
      var document := new FieldsV1(Some(SEED));
      ghost var before := managedFields;
      managedFields := kept + [Entry(ssaManager, Apply, document)];
      forall e ensures e in kept <==> e in before && !Classic(e) {
        WithoutClassicMembers(before, e);
      }
      assert managedFields[..|managedFields| - 1] == kept;
      err := !patchOk;
      assert managedFields[|managedFields| - 1].manager == ssaManager;
    }
  }

  method RemoveClassic(entries: seq<Entry>) returns (kept: seq<Entry>)
    ensures kept == WithoutClassic(entries)
  {
    kept := [];
    for i := 0 to |entries|
      invariant kept == WithoutClassic(entries[..i])
    {
      assert entries[..i + 1][..i] == entries[..i];
      if !Classic(entries[i]) {
        kept := kept + [entries[i]];
      }
    }
    assert entries[..|entries|] == entries;
  }

  const SEED: Tree := Node(map["f:metadata" := Node(map["f:name" := EMPTY])])

  function WithoutClassic(entries: seq<Entry>): (kept: seq<Entry>) {
    if entries == [] then []
    else
      var last := |entries| - 1;
      WithoutClassic(entries[..last]) + if Classic(entries[last]) then [] else [entries[last]]
  }

  lemma {:induction false} WithoutClassicMembers(entries: seq<Entry>, e: Entry)
    ensures e in WithoutClassic(entries) <==> e in entries && !Classic(e)
  {
    if entries != [] {
      var last := |entries| - 1;
      WithoutClassicMembers(entries[..last], e);
      assert entries == entries[..last] + [entries[last]];
    }
  }

  /** Two "manager"/Update entries, of which the second cannot be decoded: the call fails, and the first
      has lost the ownership of its labels. */
  method HalfDropped(ssaManager: string) returns (o: Object, err: bool)
    requires ssaManager != CLASSIC_MANAGER
    ensures err && |o.managedFields| == 2
    ensures o.managedFields[0].fields.raw == Some(EMPTY) && o.managedFields[1].fields.raw == None
  {
    var labels := new FieldsV1(Some(Node(map["f:metadata" := Node(map["f:labels" := EMPTY])])));
    var broken := new FieldsV1(None);
    o := new Object([Entry(CLASSIC_MANAGER, Update, labels), Entry(CLASSIC_MANAGER, Update, broken)]);
    var paths: seq<Path> := [["f:metadata", "f:labels"]];
    LabelsDropped(paths);
    err := o.DropManagedFields(ssaManager, paths, true);
  }

  lemma LabelsDropped(paths: seq<Path>)
    requires paths == [["f:metadata", "f:labels"]]
    ensures Dropped(Node(map["f:metadata" := Node(map["f:labels" := EMPTY])]), paths) == EMPTY
  {
    var f := IgnoredFilter(paths);
    var inner := Node(map["f:labels" := EMPTY]);
    assert ["f:metadata"] + ["f:labels"] == paths[0];
    assert f(["f:metadata"] + ["f:labels"]);
    assert Prune(inner, ["f:metadata"], f) == EMPTY;
    assert "f:labels" in inner.fields;
    assert [] + ["f:metadata"] == ["f:metadata"];
    assert !Survives(inner, [] + ["f:metadata"], f);
    var t := Node(map["f:metadata" := inner]);
    assert Prune(t, [], f).fields == map[];
  }
}
