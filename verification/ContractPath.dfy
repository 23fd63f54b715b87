// Field paths of unstructured objects, and the Go slices that carry them.
module ContractPath {

  type Path = seq<string>

  // The decision a filter takes about one field path.
  type Filter = Path -> bool

  /** A Go []string: a window of length `len` on a backing array whose length is the capacity. */
  datatype Slice = Slice(buf: array<string>, len: nat) {
    ghost predicate Valid() { len <= buf.Length }

    function Contents(): Path
      requires Valid()
      reads buf
    {
      buf[..len]
    }
  }

  /** Go's append(p, k): while there is capacity it writes into the shared backing array, so two
      siblings appended to one parent overwrite each other; otherwise it moves to a larger array. */
  method Append(p: Slice, k: string) returns (r: Slice)
    requires p.Valid()
    modifies p.buf
    ensures r.Valid() && r.len == p.len + 1 && r.Contents() == old(p.Contents()) + [k]
    ensures p.Contents() == old(p.Contents())
    ensures r.buf == p.buf || fresh(r.buf)
  {
    if p.len < p.buf.Length {
      p.buf[p.len] := k;
      r := Slice(p.buf, p.len + 1);
    } else {
      var capacity: nat :| p.len < capacity;
      var grown := new string[capacity](i => "");
      for i := 0 to p.len
        invariant grown[..i] == p.buf[..i]
        invariant p.Contents() == old(p.Contents())
      {
        grown[i] := p.buf[i];
      }
      grown[p.len] := k;
      r := Slice(grown, p.len + 1);
      assert r.Contents() == grown[..p.len] + [k];
    }
  }

  /** True when one path is a prefix of the other, or they are equal. */
  predicate Comparable(p: Path, q: Path) { p <= q || q <= p }

  method IsParentOf(p: Path, other: Path) returns (b: bool)
    ensures b <==> p < other
  {
    if |p| >= |other| {
      return false;
    }
    for i := 0 to |p|
      invariant p[..i] == other[..i]
    {
      if p[i] != other[i] {
        return false;
      }
    }
    return true;
  }

  method Equal(p: Path, other: Path) returns (b: bool)
    ensures b <==> p == other
  {
    if |p| != |other| {
      return false;
    }
    for i := 0 to |p|
      invariant p[..i] == other[..i]
    {
      if p[i] != other[i] {
        return false;
      }
    }
    return true;
  }

  method Overlaps(p: Path, other: Path) returns (b: bool)
    ensures b <==> Comparable(p, other)
    ensures b <==> p <= other || other <= p
  {
    b := Equal(other, p);
    if !b {
      b := IsParentOf(other, p);
    }
    if !b {
      b := IsParentOf(p, other);
    }
  }

  predicate Allowed(allowed: seq<Path>, path: Path) {
    exists a | a in allowed :: Comparable(path, a)
  }

  method IsPathAllowed(allowed: seq<Path>, path: Path) returns (b: bool)
    ensures b <==> Allowed(allowed, path)
    ensures b <==> exists i | 0 <= i < |allowed| :: path <= allowed[i] || allowed[i] <= path
  {
    for i := 0 to |allowed|
      invariant forall j | 0 <= j < i :: !Comparable(path, allowed[j])
    {
      var overlaps := Overlaps(path, allowed[i]);
      if overlaps {
        return true;
      }
    }
    return false;
  }

  method IsPathIgnored(ignored: seq<Path>, path: Path) returns (b: bool)
    ensures b <==> path in ignored
  {
    for i := 0 to |ignored|
      invariant path !in ignored[..i]
    {
      var equal := Equal(path, ignored[i]);
      if equal {
        return true;
      }
    }
    return false;
  }

  function NotAllowedFilter(allowed: seq<Path>): Filter { path => !Allowed(allowed, path) }

  function IgnoredFilter(ignored: seq<Path>): Filter { path => path in ignored }
}
