/** Replicated commands (applyMutateLogEntry) and their meaning path by path. */
module Commands {
  import opened Strings
  import opened Entities
  import opened Storage

  datatype Op = SET | UNSET | OP_UNKNOWN

  datatype Command = Command(requestId: nat, op: Op, key: string, isDir: bool, value: Entity)

  datatype Outcome = Applied(tree: Tree, last: Option<Entity>) | Rejected(error: Error)

  /** Load the previous value, then set or unset. A failed transaction leaves
      the tree as it was. */
  function Mutate(t: Tree, c: Command): Outcome {
    var got := GetTree(t, c.key, c.isDir);
    if got.Err? && !IsNotFound(got.error) then Rejected(got.error)
    else if c.op == OP_UNKNOWN then Rejected(Unsupported)
    else
      var r := if c.op == SET then SetTree(t, c.key, c.value, c.isDir) else UnsetTree(t, c.key, c.isDir);
      if r.Err? then Rejected(r.error)
      else Applied(r.value, if got.Ok? then Some(got.value) else None)
  }

  // ----- Meaning -----

  /** What one command does to one path, whatever the tree. */
  datatype Effect = Write(node: Node) | Erase | Keep {
    function On(before: Option<Node>): Option<Node> {
      match this
      case Write(n) => Some(n)
      case Erase => None
      case Keep => before
    }
  }

  function EffectOn(c: Command, p: Path): Effect {
    var k := FullPath(c.key);
    if c.op == SET then
      if p == k then Write(if c.isDir then Dir else Leaf(c.value))
      else if 1 <= |p| && p <= k then Write(Dir)
      else Keep
    else if c.op == UNSET && (if c.isDir then k <= p else p == k) then Erase
    else Keep
  }

  /** Every accepted command is the same pointwise update of the tree, and the
      tree stays well formed. */
  lemma MutateIsPointwise(t: Tree, c: Command)
    requires WellFormed(t)
    requires Mutate(t, c).Applied?
    ensures WellFormed(Mutate(t, c).tree)
    ensures forall p :: At(Mutate(t, c).tree, p) == EffectOn(c, p).On(At(t, p))
  {
    var t' := Mutate(t, c).tree;
    if c.op == SET {
      SetIsPointwise(t, c);
    } else {
      UnsetIsPointwise(t, c);
    }
  }

  lemma AncestorPresent(t: Tree, p: Path, k: Path)
    requires WellFormed(t) && p in t && 1 <= |k| && k <= p
    ensures k in t && (k != p ==> t[k] == Dir)
  {
    assert k == p[..|k|];
    if |k| == |p| {
      assert k == p;
    }
  }

  lemma PrefixOfParent(nodes: Path, leaf: string, p: Path)
    ensures p <= nodes <==> p <= nodes + [leaf] && p != nodes + [leaf]
  {
    var k := nodes + [leaf];
    if p <= k && p != k {
      assert |p| < |k|;
      assert p == k[..|p|] == nodes[..|p|];
    }
  }

  lemma SetIsPointwise(t: Tree, c: Command)
    requires WellFormed(t)
    requires c.op == SET && Mutate(t, c).Applied?
    ensures WellFormed(Mutate(t, c).tree)
    ensures forall p :: At(Mutate(t, c).tree, p) == EffectOn(c, p).On(At(t, p))
  {
    var nodes, leaf, k := KeySplitter(c.key).nodes, KeySplitter(c.key).leaf, FullPath(c.key);
    var t' := Mutate(t, c).tree;
    SplitterIsFullPath(c.key);
    EnsureDirsMeaning(t, nodes, 0);
    forall p
      ensures At(t', p) == EffectOn(c, p).On(At(t, p))
    {
      PrefixOfParent(nodes, leaf, p);
    }
    forall i | 0 <= i < |k|
      ensures k[i] != ""
    {
      if i < |nodes| {
        assert OpenAt(t, nodes, i + 1);
      }
    }
    PointwiseSetIsWellFormed(t, t', c);
  }

  lemma PointwiseSetIsWellFormed(t: Tree, t': Tree, c: Command)
    requires WellFormed(t) && c.op == SET && |FullPath(c.key)| >= 2
    requires forall i :: 0 <= i < |FullPath(c.key)| ==> FullPath(c.key)[i] != ""
    requires FullPath(c.key) in t ==> t[FullPath(c.key)].Dir? == c.isDir
    requires forall p :: At(t', p) == EffectOn(c, p).On(At(t, p))
    ensures WellFormed(t')
  {
    var k := FullPath(c.key);
    forall p | p in t'
      ensures |p| >= 1 && (forall i :: 0 <= i < |p| ==> p[i] != "") && (|p| == 1 ==> t'[p] == Dir)
    {
      assert At(t', p) == EffectOn(c, p).On(At(t, p));
      if p <= k {
        assert forall i :: 0 <= i < |p| ==> p[i] == k[i];
      }
    }
    forall p, n | p in t' && 1 <= n < |p|
      ensures p[..n] in t' && t'[p[..n]] == Dir
    {
      var q := p[..n];
      assert At(t', p) == EffectOn(c, p).On(At(t, p));
      assert At(t', q) == EffectOn(c, q).On(At(t, q));
      if p <= k {
        assert q == k[..n];
      } else {
        assert q in t && t[q] == Dir;
      }
    }
  }

  lemma UnsetIsPointwise(t: Tree, c: Command)
    requires WellFormed(t)
    requires c.op == UNSET && Mutate(t, c).Applied?
    ensures WellFormed(Mutate(t, c).tree)
    ensures forall p :: At(Mutate(t, c).tree, p) == EffectOn(c, p).On(At(t, p))
  {
    var nodes, k := KeySplitter(c.key).nodes, FullPath(c.key);
    SplitterIsFullPath(c.key);
    FindDirsMeaning(t, nodes, 0);
    if FindDirs(t, nodes, 0).Some? {
      var j :| 0 < j <= |nodes| && !DirAt(t, nodes, j);
      forall p | k <= p
        ensures p !in t
      {
        assert p[j - 1] == nodes[j - 1] && p[..j] == nodes[..j];
      }
    } else if k !in t {
      forall p | k <= p
        ensures p !in t
      {
        if p in t {
          AncestorPresent(t, p, k);
        }
      }
    }
  }

  /** Nothing in the tree contradicts the kind the command gives to its paths. */
  ghost predicate Fits(t: Tree, c: Command) {
    var k := FullPath(c.key);
    && (k in t ==> t[k].Dir? == c.isDir)
    && (c.op == SET ==> forall p :: p in t && p <= k && p != k ==> t[p] == Dir)
  }

  /** With a valid key, a command is accepted exactly when it fits. */
  lemma AcceptedIffFits(t: Tree, c: Command)
    requires WellFormed(t) && ValidKey(c.key) && c.op != OP_UNKNOWN
    ensures Mutate(t, c).Applied? <==> Fits(t, c)
  {
    if c.op == SET {
      SetAcceptedIffFits(t, c);
    } else {
      var nodes, k := KeySplitter(c.key).nodes, FullPath(c.key);
      FindDirsMeaning(t, nodes, 0);
      FindDirsNeverEmpty(t, nodes, 0);
      if k in t {
        SplitterIsFullPath(c.key);
        forall j | 0 < j <= |nodes| ensures DirAt(t, nodes, j) {
          assert nodes[..j] == k[..j];
        }
      }
    }
  }

  lemma SetAcceptedIffFits(t: Tree, c: Command)
    requires WellFormed(t) && ValidKey(c.key) && c.op == SET
    ensures Mutate(t, c).Applied? <==> Fits(t, c)
  {
    var nodes, leaf, k := KeySplitter(c.key).nodes, KeySplitter(c.key).leaf, FullPath(c.key);
    SplitterIsFullPath(c.key);
    FindDirsNeverEmpty(t, nodes, 0);
    EnsureDirsMeaning(t, nodes, 0);
    PrefixOfParent(nodes, leaf, k);
    if Fits(t, c) {
      forall j | 0 < j <= |nodes| ensures OpenAt(t, nodes, j) {
        PrefixOfParent(nodes, leaf, nodes[..j]);
      }
    } else if k in t ==> t[k].Dir? == c.isDir {
      var p :| p in t && p <= k && p != k && t[p] != Dir;
      PrefixOfParent(nodes, leaf, p);
      assert p == nodes[..|p|] && !OpenAt(t, nodes, |p|);
    }
  }

  lemma {:induction false} FindDirsNeverEmpty(t: Tree, nodes: Path, i: nat)
    requires i <= |nodes| && forall j :: 0 <= j < |nodes| ==> nodes[j] != ""
    ensures FindDirs(t, nodes, i).Some? ==> FindDirs(t, nodes, i).value == NoSuchBucket
    decreases |nodes| - i
  {
    if i < |nodes| {
      FindDirsNeverEmpty(t, nodes, i + 1);
    }
  }
}
