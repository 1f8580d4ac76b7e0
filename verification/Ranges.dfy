/** What Range reads for a key (bbolt_impl.go, Range; raft_impl.go, Range): which
    directory, and all of its live entries over the pages a caller follows. */
module Ranges {
  import opened Strings
  import opened Entities
  import opened Storage
  import opened Commands
  import opened Paging

  // ----- The directory -----

  /** Directories a Range can be asked for: a key every operation accepts, or the
      name of a top-level bucket. */
  predicate Rangeable(key: string) {
    ValidKey(key) || Free(key, '/')
  }

  /** Range reads the directory at the key's own path, and nothing if there is none. */
  lemma RangeReadsKey(t: Tree, key: string)
    requires WellFormed(t) && Rangeable(key)
    ensures RangeDir(t, key) == if At(t, FullPath(key)) == Some(Dir) then Some(FullPath(key)) else None
    ensures Free(key, '/') ==> FullPath(key) == [key]
  {
    if Free(key, '/') {
      SplitOfFree(key, '/');
    } else {
      var nodes, p := KeySplitter(key).nodes, FullPath(key);
      SplitterIsFullPath(key);
      FindDirsMeaning(t, nodes, 0);
      FindDirsNeverEmpty(t, nodes, 0);
      if p in t {
        forall j | 0 < j <= |nodes| ensures DirAt(t, nodes, j) {
          assert p[..j] == nodes[..j];
        }
      }
    }
  }

  // ----- All pages -----

  /** The pages a caller gets from a seek key on by feeding NextSeekKey back. */
  ghost predicate Follows(t: Tree, key: string, seek: string, limit: nat, now: int, pages: seq<RangeResult>)
    decreases |pages|
  {
    && pages != []
    && pages[0] == RangeTree(t, key, seek, limit, now)
    && if pages[0].hasMore then Follows(t, key, pages[0].nextSeekKey, limit, now, pages[1..]) else |pages| == 1
  }

  lemma {:induction false} FollowsIsChain(t: Tree, key: string, kids: seq<Child>, seek: string, limit: nat, now: int, pages: seq<RangeResult>)
    requires InCursorOrder(kids) && limit >= 1
    requires RangeDir(t, key).Some? && kids == Listing(t, RangeDir(t, key).value, now)
    ensures Follows(t, key, seek, limit, now, pages) <==> pages == Chain(kids, seek, limit)
    decreases |kids| - SeekIndex(kids, seek)
  {
    var p := Page(kids, seek, limit);
    assert RangeTree(t, key, seek, limit, now) == p;
    if p.hasMore {
      ChainAdvances(kids, seek, limit);
      if pages != [] && pages[0] == p {
        FollowsIsChain(t, key, kids, p.nextSeekKey, limit, now, pages[1..]);
      }
      ConsIff(p, Chain(kids, p.nextSeekKey, limit), pages);
    }
  }

  lemma ConsIff(p: RangeResult, rest: seq<RangeResult>, pages: seq<RangeResult>)
    ensures pages == [p] + rest <==> pages != [] && pages[0] == p && pages[1..] == rest
  {
    assert ([p] + rest)[1..] == rest;
    if pages != [] && pages[0] == p {
      assert pages == [p] + pages[1..];
    }
  }

  /** An entry of the directory that is listed at `now`. */
  predicate Listed(t: Tree, dir: Path, c: Child, now: int) {
    dir + [c.name] in t && c == ChildAt(t, dir, c.name, now) && !c.dead
  }

  /** For every well-formed store, directory and page size: such pages exist, and
      together they hold, in byte order and once each, exactly the entries at
      FullPath(key) + [name] that are not expired records; none if FullPath(key) is
      no directory. All pages but the last are full. */
  lemma RangeEnumerates(t: Tree, key: string, limit: nat, now: int, pages: seq<RangeResult>)
    requires WellFormed(t) && Rangeable(key) && limit >= 1 && Follows(t, key, "", limit, now, pages)
    ensures InCursorOrder(AllItems(pages)) && AllButLastFull(pages, limit)
    ensures forall c :: c in AllItems(pages) <==> At(t, FullPath(key)) == Some(Dir) && Listed(t, FullPath(key), c, now)
  {
    var dir := FullPath(key);
    RangeReadsKey(t, key);
    if At(t, dir) == Some(Dir) {
      ListingMeaning(t, dir, now);
      var kids := Listing(t, dir, now);
      FollowsIsChain(t, key, Listing(t, dir, now), "", limit, now, pages);
      ChainEnumerates(kids, "", limit);
      SeekFromStart(kids);
      assert kids[0..] == kids;
      LiveIsOrdered(kids);
      forall c ensures c in AllItems(pages) <==> Listed(t, dir, c, now) {
        LiveMembers(kids, c);
      }
    } else {
      assert pages[1..] == [];
    }
  }

  lemma PagesExist(t: Tree, key: string, limit: nat, now: int) returns (pages: seq<RangeResult>)
    requires WellFormed(t) && Rangeable(key) && limit >= 1
    ensures Follows(t, key, "", limit, now, pages)
  {
    var dir := FullPath(key);
    RangeReadsKey(t, key);
    if At(t, dir) == Some(Dir) {
      ListingMeaning(t, dir, now);
      pages := Chain(Listing(t, dir, now), "", limit);
      FollowsIsChain(t, key, Listing(t, dir, now), "", limit, now, pages);
    } else {
      pages := [RangeTree(t, key, "", limit, now)];
    }
  }

  // ----- The parent of a key -----

  function ParentKey(key: string): string {
    Join(KeySplitter(key).nodes, '/')
  }

  /** Only a blank segment keeps a parent directory from being read. */
  lemma ParentIsRangeable(key: string)
    requires ValidKey(key)
    ensures var nodes := KeySplitter(key).nodes;
            && FullPath(ParentKey(key)) == nodes
            && (Rangeable(ParentKey(key)) <==> |nodes| == 1 || !IsEmptyLeaf(nodes[|nodes| - 1]))
  {
    var nodes := KeySplitter(key).nodes;
    SplitUndoesJoin(nodes, '/');
    var parent := ParentKey(key);
    SplitterIsFullPath(parent);
    assert KeySplitter(parent).nodes == nodes[..|nodes| - 1] && KeySplitter(parent).leaf == nodes[|nodes| - 1];
    if |nodes| == 1 {
      assert parent == nodes[0];
    } else if Free(parent, '/') {
      SplitOfFree(parent, '/');
    }
  }

  /** A record of the directory that is expired at `now`, by the key it was
      written with. */
  ghost predicate ExpiredUnder(t: Tree, dir: Path, key: string, now: int) {
    exists name :: dir + [name] in t && t[dir + [name]].Leaf?
                   && EntityExpired(t[dir + [name]].entity, now) && t[dir + [name]].entity.key == key
  }

  lemma {:induction false} DeadMembers(kids: seq<Child>, key: string)
    ensures key in DeadKeys(kids) <==> exists c :: c in kids && c.dead && StoredKey(c) == key
  {
    if kids != [] {
      DeadMembers(kids[1..], key);
      assert kids == [kids[0]] + kids[1..];
    }
  }

  lemma DeadIsExpired(t: Tree, dir: Path, key: string, now: int)
    requires WellFormed(t)
    ensures key in DeadKeys(Listing(t, dir, now)) <==> ExpiredUnder(t, dir, key, now)
  {
    var kids := Listing(t, dir, now);
    ListingMeaning(t, dir, now);
    DeadMembers(kids, key);
    if key in DeadKeys(kids) {
      var c :| c in kids && c.dead && StoredKey(c) == key;
      assert dir + [c.name] in t && c == ChildAt(t, dir, c.name, now);
    }
    if ExpiredUnder(t, dir, key, now) {
      var name :| dir + [name] in t && t[dir + [name]].Leaf?
                  && EntityExpired(t[dir + [name]].entity, now) && t[dir + [name]].entity.key == key;
      var c := ChildAt(t, dir, name, now);
      assert c in kids && c.dead && StoredKey(c) == key;
    }
  }

  /** The keys the pages report as expired, which Range then proposes to remove,
      are exactly those of the directory's expired records. */
  lemma RangeReportsExpired(t: Tree, key: string, limit: nat, now: int, pages: seq<RangeResult>, expired: string)
    requires WellFormed(t) && Rangeable(key) && limit >= 1 && Follows(t, key, "", limit, now, pages)
    ensures expired in AllExpired(pages) <==> At(t, FullPath(key)) == Some(Dir) && ExpiredUnder(t, FullPath(key), expired, now)
  {
    var dir := FullPath(key);
    RangeReadsKey(t, key);
    if At(t, dir) == Some(Dir) {
      ListingMeaning(t, dir, now);
      var kids := Listing(t, dir, now);
      FollowsIsChain(t, key, kids, "", limit, now, pages);
      ChainEnumerates(kids, "", limit);
      SeekFromStart(kids);
      assert kids[0..] == kids;
      DeadIsExpired(t, dir, expired, now);
    } else {
      assert pages[1..] == [];
    }
  }
}
