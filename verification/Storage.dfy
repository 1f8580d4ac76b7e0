/** The bucket tree of storage/bbolt_impl.go. A tree of nested buckets is the
    finite map from each bucket path and each leaf path to what is there; every
    proper prefix of a present path is a bucket, and the root holds only
    buckets. A bolt transaction works on its own copy and commits all of it or
    nothing. */
module Storage {
  import opened Strings
  import opened Entities

  type Path = seq<string>

  datatype Node = Dir | Leaf(entity: Entity)

  type Tree = map<Path, Node>

  datatype Error =
    | NotFound | NoSuchBucket                     // code NOT_FOUND
    | NoParentBucket | EmptyLeaf | EmptyNode      // code INVALID_ARGUMENT
    | IncompatibleValue                           // bolt: bucket where a value is meant, or the reverse
    | Unsupported | Undecodable

  datatype Result<+T> = Ok(value: T) | Err(error: Error)

  ghost predicate WellFormed(t: Tree) {
    && (forall p :: p in t ==> |p| >= 1 && forall i :: 0 <= i < |p| ==> p[i] != "")
    && (forall p, n :: p in t && 1 <= n < |p| ==> p[..n] in t && t[p[..n]] == Dir)
    && (forall p :: p in t && |p| == 1 ==> t[p] == Dir)
  }

  /** errors.Is compares codes, so each of these matches the other. */
  predicate IsNotFound(e: Error) {
    e == NotFound || e == NoSuchBucket
  }

  // ----- Keys -----

  datatype SplitKey = SplitKey(nodes: Path, leaf: string)

  /** KeySplitter: the segments before the last '/', and the last segment. */
  function KeySplitter(s: string): SplitKey {
    var arr := Split(s, '/');
    SplitKey(arr[..|arr| - 1], arr[|arr| - 1])
  }

  predicate IsSpace(c: char) {
    || '\t' <= c <= '\r' || c == ' ' || c == '\U{0085}' || c == '\U{00A0}' || c == '\U{1680}'
    || '\U{2000}' <= c <= '\U{200A}' || c == '\U{2028}' || c == '\U{2029}' || c == '\U{202F}'
    || c == '\U{205F}' || c == '\U{3000}'
  }

  predicate IsEmptyLeaf(leaf: string) {
    forall i :: 0 <= i < |leaf| ==> IsSpace(leaf[i])
  }

  function FullPath(key: string): Path {
    Split(key, '/')
  }

  lemma SplitterIsFullPath(key: string)
    ensures FullPath(key) == KeySplitter(key).nodes + [KeySplitter(key).leaf]
  {
    var arr := Split(key, '/');
    assert arr == arr[..|arr| - 1] + [arr[|arr| - 1]];
  }

  /** A key every storage operation accepts: a parent, no empty segment and a
      leaf that is not blank. */
  predicate ValidKey(key: string) {
    var k := KeySplitter(key);
    |k.nodes| >= 1 && !IsEmptyLeaf(k.leaf) && forall i :: 0 <= i < |k.nodes| ==> k.nodes[i] != ""
  }

  function At(t: Tree, p: Path): Option<Node> {
    if p in t then Some(t[p]) else None
  }

  // ----- What each storage operation does to the tree -----

  /** Walk to bucket `nodes`, creating what is missing from position i on. */
  function EnsureDirs(t: Tree, nodes: Path, i: nat): Result<Tree>
    requires i <= |nodes|
    decreases |nodes| - i
  {
    if i == |nodes| then Ok(t)
    else if nodes[i] == "" then Err(EmptyNode)
    else
      var p := nodes[..i + 1];
      if p !in t then EnsureDirs(t[p := Dir], nodes, i + 1)
      else if t[p] == Dir then EnsureDirs(t, nodes, i + 1)
      else Err(IncompatibleValue)
  }

  /** Walk to bucket `nodes` without creating. A missing bucket is noticed one
      segment later, after that segment's own test for emptiness. */
  function FindDirs(t: Tree, nodes: Path, i: nat): Option<Error>
    requires i <= |nodes|
    decreases |nodes| - i
  {
    if i == |nodes| then None
    else if nodes[i] == "" then Some(EmptyNode)
    else if nodes[..i + 1] in t && t[nodes[..i + 1]] == Dir then FindDirs(t, nodes, i + 1)
    else if i + 1 < |nodes| && nodes[i + 1] == "" then Some(EmptyNode)
    else Some(NoSuchBucket)
  }

  /** locateBucket's verdict on the key alone. */
  function KeyFault(key: string): Option<Error> {
    var k := KeySplitter(key);
    if |k.nodes| == 0 then Some(NoParentBucket)
    else if IsEmptyLeaf(k.leaf) then Some(EmptyLeaf)
    else None
  }

  function GetTree(t: Tree, key: string, dir: bool): Result<Entity> {
    if KeyFault(key).Some? then Err(KeyFault(key).value)
    else
      var lost := FindDirs(t, KeySplitter(key).nodes, 0);
      var p := FullPath(key);
      if lost.Some? then Err(lost.value)
      else if dir then
        if p in t && t[p] == Dir then Ok(Entity(NoFingerprint, key, "", 0, 0, 0)) else Err(NoSuchBucket)
      else if p in t && t[p].Leaf? then Ok(t[p].entity)
      else Err(NotFound)
  }

  function SetTree(t: Tree, key: string, e: Entity, dir: bool): Result<Tree> {
    if KeyFault(key).Some? then Err(KeyFault(key).value)
    else
      var r := EnsureDirs(t, KeySplitter(key).nodes, 0);
      var p := FullPath(key);
      if r.Err? then r
      else if dir then
        if p in r.value && r.value[p].Leaf? then Err(IncompatibleValue) else Ok(r.value[p := Dir])
      else
        if p in r.value && r.value[p] == Dir then Err(IncompatibleValue) else Ok(r.value[p := Leaf(e)])
  }

  function Without(t: Tree, p: Path): Tree {
    map q | q in t && !(p <= q) :: t[q]
  }

  function UnsetTree(t: Tree, key: string, dir: bool): Result<Tree> {
    if KeyFault(key).Some? then Err(KeyFault(key).value)
    else
      var lost := FindDirs(t, KeySplitter(key).nodes, 0);
      var p := FullPath(key);
      if lost.Some? then (if IsNotFound(lost.value) then Ok(t) else Err(lost.value))
      else if p !in t then Ok(t)
      else if t[p].Dir? != dir then Err(IncompatibleValue)
      else if dir then Ok(Without(t, p))
      else Ok(t - {p})
  }

  // ----- Meaning of the walks -----

  /** The walk finds a bucket at the first j segments of `nodes`. */
  predicate DirAt(t: Tree, nodes: Path, j: nat)
    requires 1 <= j <= |nodes|
  {
    nodes[j - 1] != "" && nodes[..j] in t && t[nodes[..j]] == Dir
  }

  /** The walk finds a bucket there or may create one. */
  predicate OpenAt(t: Tree, nodes: Path, j: nat)
    requires 1 <= j <= |nodes|
  {
    nodes[j - 1] != "" && (nodes[..j] in t ==> t[nodes[..j]] == Dir)
  }

  lemma {:induction false} FindDirsMeaning(t: Tree, nodes: Path, i: nat)
    requires i <= |nodes|
    ensures FindDirs(t, nodes, i).None? <==> forall j :: i < j <= |nodes| ==> DirAt(t, nodes, j)
    decreases |nodes| - i
  {
    if i < |nodes| {
      FindDirsMeaning(t, nodes, i + 1);
      assert DirAt(t, nodes, i + 1) || FindDirs(t, nodes, i).Some?;
    }
  }

  /** The tree after a successful walk: `nodes` and its prefixes are buckets,
      everything else is untouched; and the walk fails exactly at an empty
      segment or a leaf in the way. */
  lemma {:induction false} EnsureDirsMeaning(t: Tree, nodes: Path, i: nat)
    requires i <= |nodes|
    ensures var r := EnsureDirs(t, nodes, i);
            && (r.Ok? <==> forall j :: i < j <= |nodes| ==> OpenAt(t, nodes, j))
            && (r.Ok? ==> forall q :: At(r.value, q) == if i < |q| && q <= nodes then Some(Dir) else At(t, q))
    decreases |nodes| - i
  {
    if i < |nodes| {
      var p := nodes[..i + 1];
      assert OpenAt(t, nodes, i + 1) || EnsureDirs(t, nodes, i).Err?;
      if OpenAt(t, nodes, i + 1) {
        var t' := if p in t then t else t[p := Dir];
        EnsureDirsMeaning(t', nodes, i + 1);
        assert forall j :: i + 1 < j <= |nodes| ==> OpenAt(t', nodes, j) == OpenAt(t, nodes, j);
        forall q: Path
          ensures (if i + 1 < |q| && q <= nodes then Some(Dir) else At(t', q))
               == (if i < |q| && q <= nodes then Some(Dir) else At(t, q))
        {
          if |q| == i + 1 && q <= nodes {
            assert q == p;
          }
        }
      }
    } else {
      assert forall q: Path :: q <= nodes ==> |q| <= |nodes|;
    }
  }
}
