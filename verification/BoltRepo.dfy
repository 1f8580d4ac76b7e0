/** The storage repository as an object: each operation is one bolt
    transaction on the tree (bbolt_impl.go). */
module BoltRepo {
  import opened Strings
  import opened Entities
  import opened Storage
  import opened Paging

  class Repository {
    var root: Tree

    constructor ()
      ensures root == map[]
    {
      root := map[];
    }

    /** locateBucket inside a transaction on `tx`: the parent bucket's path and
        the leaf, and the transaction's tree with the buckets it created. */
    static method LocateBucket(tx: Tree, key: string, create: bool)
      returns (r: Result<Path>, leaf: string, tx': Tree)
      ensures leaf == KeySplitter(key).leaf
      ensures r.Ok? ==> r.value == KeySplitter(key).nodes
      ensures KeyFault(key).Some? ==> r == Err(KeyFault(key).value) && tx' == tx
      ensures KeyFault(key).None? && create ==>
                match EnsureDirs(tx, KeySplitter(key).nodes, 0)
                case Ok(t) => r.Ok? && tx' == t
                case Err(e) => r == Err(e)
      ensures KeyFault(key).None? && !create ==>
                && tx' == tx
                && match FindDirs(tx, KeySplitter(key).nodes, 0)
                   case None => r.Ok?
                   case Some(e) => r == Err(e)
    {
      var k := KeySplitter(key);
      var nodes := k.nodes;
      leaf := k.leaf;
      tx' := tx;
      if |nodes| == 0 {
        return Err(NoParentBucket), leaf, tx';
      }
      if IsEmptyLeaf(leaf) {
        return Err(EmptyLeaf), leaf, tx';
      }
      var found := true;
      var idx := 0;
      while idx < |nodes|
        invariant 0 <= idx <= |nodes|
        invariant create ==> found && EnsureDirs(tx, nodes, 0) == EnsureDirs(tx', nodes, idx)
        invariant !create ==> tx' == tx
        invariant !create && found ==> FindDirs(tx, nodes, 0) == FindDirs(tx, nodes, idx)
        invariant !found ==> idx > 0
        invariant !found ==> FindDirs(tx, nodes, 0) == Some(if idx < |nodes| && nodes[idx] == "" then EmptyNode else NoSuchBucket)
      {
        if nodes[idx] == "" {
          return Err(EmptyNode), leaf, tx';
        }
        if !found {
          break;
        }
        var p := nodes[..idx + 1];
        if p in tx' && tx'[p] == Dir {
          // the bucket is there
        } else if create {
          if p in tx' {
            return Err(IncompatibleValue), leaf, tx';
          }
          tx' := tx'[p := Dir];
        } else {
          found := false;
        }
        idx := idx + 1;
      }
      if !found {
        return Err(NoSuchBucket), leaf, tx';
      }
      return Ok(nodes), leaf, tx';
    }

    method GetKV(key: string, dir: bool) returns (r: Result<Entity>)
      ensures r == GetTree(root, key, dir)
    {
      var buk, leaf, tx := LocateBucket(root, key, false);
      if buk.Err? {
        return Err(buk.error);
      }
      SplitterIsFullPath(key);
      var p := buk.value + [leaf];
      if dir {
        if p in tx && tx[p] == Dir {
          return Ok(Entity(NoFingerprint, key, "", 0, 0, 0));
        }
        return Err(NoSuchBucket);
      }
      if p in tx && tx[p].Leaf? {
        return Ok(tx[p].entity);
      }
      return Err(NotFound);
    }

    /** Commits the whole new tree or, on any error, nothing. */
    method SetKV(key: string, val: Entity, dir: bool) returns (r: Option<Error>)
      modifies this
      ensures match SetTree(old(root), key, val, dir)
              case Ok(t) => r == None && root == t
              case Err(e) => r == Some(e) && root == old(root)
    {
      var buk, leaf, tx := LocateBucket(root, key, true);
      if buk.Err? {
        return Some(buk.error);
      }
      SplitterIsFullPath(key);
      var p := buk.value + [leaf];
      if dir {
        if p in tx && tx[p].Leaf? {
          return Some(IncompatibleValue);
        }
        root := tx[p := Dir];
      } else {
        if p in tx && tx[p] == Dir {
          return Some(IncompatibleValue);
        }
        root := tx[p := Leaf(val)];
      }
      return None;
    }

    method UnsetKV(key: string, dir: bool) returns (r: Option<Error>)
      modifies this
      ensures match UnsetTree(old(root), key, dir)
              case Ok(t) => r == None && root == t
              case Err(e) => r == Some(e) && root == old(root)
    {
      var buk, leaf, tx := LocateBucket(root, key, false);
      if buk.Err? {
        return if IsNotFound(buk.error) then None else Some(buk.error);
      }
      SplitterIsFullPath(key);
      var p := buk.value + [leaf];
      if p !in tx {
        return None;
      }
      if tx[p].Dir? != dir {
        return Some(IncompatibleValue);
      }
      root := if dir then Without(tx, p) else tx - {p};
      return None;
    }

    /** The cursor loop of Range, from where the cursor was placed. */
    static method CursorLoop(from: seq<Child>, limit: nat)
      returns (k: nat, items: seq<Child>, expired: seq<string>)
      ensures k == Walked(from, limit) && k <= |from|
      ensures items == Live(from[..k]) && expired == DeadKeys(from[..k])
    {
      k, items, expired := 0, [], [];
      var count: nat := 0;
      while k < |from| && count < limit
        invariant k <= |from| && count <= limit
        invariant Walked(from, limit) == k + Walked(from[k..], limit - count)
        invariant items == Live(from[..k])
        invariant expired == DeadKeys(from[..k])
      {
        PageStep(from, k, limit - count);
        if from[k].dead {
          expired := expired + [StoredKey(from[k])];
        } else {
          items := items + [from[k]];
          count := count + 1;
        }
        k := k + 1;
      }
    }

    method Range(key: string, seek: string, limit: nat, now: int) returns (r: RangeResult)
      ensures r == RangeTree(root, key, seek, limit, now)
    {
      var dir := RangeDir(root, key);
      if dir.None? {
        return RangeResult([], false, "", []);
      }
      var kids := Listing(root, dir.value, now);
      var from := kids[SeekIndex(kids, seek)..];
      var k, items, expired := CursorLoop(from, limit);
      r := RangeResult(items, k < |from|, if k < |from| then from[k].name else "", expired);
    }
  }
}
