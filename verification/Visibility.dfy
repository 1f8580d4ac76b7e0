/** Timed visibility: what GetKV and Range show of a key over every schema log
    (raft_impl.go, GetKV, Range, probeRemoveExpired). */
module Visibility {
  import opened Strings
  import opened Entities
  import opened Storage
  import opened Commands
  import opened Paging
  import opened Ranges
  import opened Convergence

  /** raftNodeImpl.GetKV: an expired record reads as not found. */
  function GetVisible(t: Tree, key: string, now: int): Option<Entity> {
    match GetTree(t, key, false)
    case Ok(e) => if EntityExpired(e, now) then None else Some(Tick(e, now))
    case Err(_) => None
  }

  /** The pages of a Range over the key's parent directory hold the entry. */
  ghost predicate RangeLists(pages: seq<RangeResult>, key: string, e: Entity) {
    Child(KeySplitter(key).leaf, Leaf(e), false) in AllItems(pages)
  }

  lemma GetFindsLeaf(t: Tree, key: string)
    requires WellFormed(t) && ValidKey(key)
    ensures var n := At(t, FullPath(key));
            var got := GetTree(t, key, false);
            && (got.Ok? <==> n.Some? && n.value.Leaf?)
            && (got.Ok? ==> n.value.entity == got.value)
  {
    var nodes, p := KeySplitter(key).nodes, FullPath(key);
    SplitterIsFullPath(key);
    FindDirsMeaning(t, nodes, 0);
    if p in t {
      forall j | 0 < j <= |nodes| ensures DirAt(t, nodes, j) {
        assert p[..j] == nodes[..j];
      }
    }
  }

  lemma RangeFindsLeaf(t: Tree, key: string, e: Entity, limit: nat, now: int, pages: seq<RangeResult>)
    requires WellFormed(t) && ValidKey(key) && Rangeable(ParentKey(key)) && limit >= 1
    requires Follows(t, ParentKey(key), "", limit, now, pages)
    ensures var n := At(t, FullPath(key));
            RangeLists(pages, key, e) <==>
            n.Some? && n.value.Leaf? && !EntityExpired(n.value.entity, now) && e == Tick(n.value.entity, now)
  {
    var nodes, leaf := KeySplitter(key).nodes, KeySplitter(key).leaf;
    var c := Child(leaf, Leaf(e), false);
    SplitterIsFullPath(key);
    ParentIsRangeable(key);
    RangeEnumerates(t, ParentKey(key), limit, now, pages);
    if FullPath(key) in t {
      assert FullPath(key)[..|nodes|] == nodes;
    }
    assert c in AllItems(pages) <==> At(t, nodes) == Some(Dir) && Listed(t, nodes, c, now);
  }

  /** The last effect of a log on a path, seen as a record that is alive. */
  predicate LiveWrite(eff: Effect, now: int) {
    eff.Write? && eff.node.Leaf? && !EntityExpired(eff.node.entity, now)
  }

  /** Over every log a key is visible exactly when the last command that touched it
      wrote a record not expired yet. */
  lemma VisibleIffLastWriteAlive(log: seq<Command>, key: string, now: int)
    requires SchemaLog(log) && ValidKey(key)
    ensures var t, eff := Replay(map[], log), LastEffect(log, FullPath(key));
            GetVisible(t, key, now) == if LiveWrite(eff, now) then Some(Tick(eff.node.entity, now)) else None
  {
    EmptyIsWellFormed();
    ReplayIsLastEffect(map[], log, log);
    var t, p := Replay(map[], log), FullPath(key);
    assert At(t, p) == LastEffect(log, p).On(None);
    GetFindsLeaf(t, key);
  }

  /** The pages of a Range over the parent directory, of any size, list a key
      exactly when GetKV returns it, and with the same record. */
  lemma RangeAgreesWithGet(log: seq<Command>, key: string, e: Entity, limit: nat, now: int, pages: seq<RangeResult>)
    requires SchemaLog(log) && ValidKey(key) && Rangeable(ParentKey(key)) && limit >= 1
    requires Follows(Replay(map[], log), ParentKey(key), "", limit, now, pages)
    ensures RangeLists(pages, key, e) <==> GetVisible(Replay(map[], log), key, now) == Some(e)
  {
    EmptyIsWellFormed();
    ReplayIsLastEffect(map[], log, log);
    GetFindsLeaf(Replay(map[], log), key);
    RangeFindsLeaf(Replay(map[], log), key, e, limit, now, pages);
  }

  lemma {:induction false} LastEffectErases(after: seq<Command>, p: Path)
    requires forall c :: c in after ==> !EffectOn(c, p).Write?
    ensures LastEffect(after, p) == if exists c :: c in after && EffectOn(c, p) == Erase then Erase else Keep
  {
    if after != [] {
      assert after == [after[0]] + after[1..];
      LastEffectErases(after[1..], p);
    }
  }

  /** A record written and not overwritten since is visible exactly while it is not
      expired and no later command removed it. The removal of an expired record is
      such a command, and it is proposed without naming the record it is about:
      applied late, it takes the new record away. */
  lemma WrittenVisibleIff(before: seq<Command>, w: Command, after: seq<Command>, t: int)
    requires SchemaLog(before + [w] + after) && ValidKey(w.key) && w.op == SET && !w.isDir
    requires forall c :: c in after ==> !EffectOn(c, FullPath(w.key)).Write?
    ensures var got := GetVisible(Replay(map[], before + [w] + after), w.key, t);
            && (got.Some? <==> !EntityExpired(w.value, t) && forall c :: c in after ==> EffectOn(c, FullPath(w.key)) != Erase)
            && (got.Some? ==> got.value.val == w.value.val)
  {
    var p := FullPath(w.key);
    VisibleIffLastWriteAlive(before + [w] + after, w.key, t);
    LastEffectSplits(before + [w], after, p);
    LastEffectSplits(before, [w], p);
    LastEffectErases(after, p);
    assert LastEffect([w], p) == EffectOn(w, p);
  }

  /** So a key written with TTL T > 0 at time u and not written since is visible at
      t >= u exactly when t - u < T and no later command removed it. */
  lemma WriteVisibleIff(before: seq<Command>, w: Command, after: seq<Command>, val: Bytes, ttl: int, created: int, u: int, t: int)
    requires SchemaLog(before + [w] + after) && ValidKey(w.key)
    requires w.op == SET && !w.isDir && w.value == NewEntityWithCreated(w.key, val, ttl, created, u)
    requires 0 < ttl < TWO_31 && 0 <= t - u < TWO_31
    requires forall c :: c in after ==> !EffectOn(c, FullPath(w.key)).Write?
    ensures GetVisible(Replay(map[], before + [w] + after), w.key, t).Some? <==>
            t - u < ttl && forall c :: c in after ==> EffectOn(c, FullPath(w.key)) != Erase
    ensures var got := GetVisible(Replay(map[], before + [w] + after), w.key, t); got.Some? ==> got.value.val == val
  {
    WrittenVisibleIff(before, w, after, t);
    VisibleWhileYoung(w.key, val, ttl, created, u, t);
  }

  /** A late removal: the record of u1 has expired when the removal is proposed,
      the key is rewritten, and the removal is applied after that. The new record
      is then visible at no time, however young. */
  lemma LateRemovalTakesNewRecord(log: seq<Command>, w: Command, removal: Command, now: int)
    requires SchemaLog(log + [w] + [removal]) && ValidKey(w.key)
    requires removal.op == UNSET && !removal.isDir && removal.key == w.key
    ensures GetVisible(Replay(map[], log + [w] + [removal]), w.key, now) == None
  {
    var p := FullPath(w.key);
    VisibleIffLastWriteAlive(log + [w] + [removal], w.key, now);
    LastEffectSplits(log + [w], [removal], p);
    assert LastEffect([removal], p) == EffectOn(removal, p);
  }

  /** A read of a directory succeeds exactly where there is one, and tells no
      more than its key. */
  lemma GetFindsDirectory(t: Tree, key: string)
    requires WellFormed(t) && ValidKey(key)
    ensures var got := GetTree(t, key, true);
            && (got.Ok? <==> At(t, FullPath(key)) == Some(Dir))
            && (got.Ok? ==> got.value.key == key && got.value.val == "")
  {
    var nodes, p := KeySplitter(key).nodes, FullPath(key);
    SplitterIsFullPath(key);
    FindDirsMeaning(t, nodes, 0);
    if p in t {
      forall j | 0 < j <= |nodes| ensures DirAt(t, nodes, j) {
        assert p[..j] == nodes[..j];
      }
    }
  }

  /** A key without a parent, with a blank last segment or with an empty segment
      before it names nothing: reads fail, writes are rejected, and removals
      change nothing. */
  lemma InvalidKeyIsInert(t: Tree, c: Command, dir: bool)
    requires WellFormed(t) && !ValidKey(c.key)
    ensures GetTree(t, c.key, dir).Err?
    ensures c.op == SET ==> Mutate(t, c).Rejected?
    ensures Mutate(t, c).Applied? ==> Mutate(t, c).tree == t
  {
    if KeyFault(c.key).None? {
      var nodes := KeySplitter(c.key).nodes;
      FindDirsMeaning(t, nodes, 0);
      var i :| 0 <= i < |nodes| && nodes[i] == "";
      assert !DirAt(t, nodes, i + 1);
      EnsureDirsMeaning(t, nodes, 0);
      assert !OpenAt(t, nodes, i + 1);
    }
  }
}
