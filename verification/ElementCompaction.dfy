/** Compaction of one element's own directory: although the cursor meets v10
      before v2, what is removed is decided by the numbers. */
module ElementCompaction {
  import opened Strings
  import opened Entities
  import opened Storage
  import opened Paging
  import opened Compaction
  import opened Elements
  import opened ElementHistory

  function VersionName(n: nat): string {
    "v" + Itoa(n)
  }

  /** The entry of version n, never expiring. */
  ghost predicate Holds(c: Child, s: State, n: nat) {
    && n in s.versions && c.name == VersionName(n) && !c.dead
    && c.node.Leaf? && c.node.entity.createdAt == s.versions[n].createdAt
  }

  /** The element's directory as its operations leave it: the metadata record
      comes first, then one record per stored version, here of the numbers
      `nums` in the order the cursor meets them. */
  ghost predicate DirectoryOf(s: State, kids: seq<Child>, nums: seq<nat>) {
    && InCursorOrder(kids) && |kids| == 1 + |nums| && kids[0].name == "metadata"
    && (forall i :: 0 <= i < |nums| ==> Holds(kids[1 + i], s, nums[i]))
    && (forall n :: n in s.versions ==> n in nums)
  }

  lemma NameInjective(m: nat, n: nat)
    requires VersionName(m) == VersionName(n)
    ensures m == n
  {
    assert VersionName(m)[1..] == Itoa(m) && VersionName(n)[1..] == Itoa(n);
    ItoaInjective(m, n);
  }

  /** v10 comes before v2 in the directory. */
  lemma CursorOrderIsNotNumeric()
    ensures Less(VersionName(10), VersionName(2))
  {
    assert Itoa(10) == "10" && Itoa(2) == "2";
    var a, b := VersionName(10), VersionName(2);
    assert a[1..] == "10" && b[1..] == "2";
    assert Less("10", "2");
  }

  lemma ReadsItsVersion(root: string, s: State, c: Child, n: nat)
    requires Holds(c, s, n) && 1 <= n < TWO_31
    ensures Read(root, c) == Some(CompactVersion(root + "/" + VersionName(n), n, s.versions[n].createdAt))
  {
    VersionRoundTrip(root, n);
  }

  lemma {:induction false} AllLive(kids: seq<Child>)
    requires forall i :: 0 <= i < |kids| ==> !kids[i].dead
    ensures Live(kids) == kids
  {
    if kids != [] {
      AllLive(kids[1..]);
      assert kids == [kids[0]] + kids[1..];
    }
  }

  lemma VersionsAfterV(n: nat)
    ensures Leq("v", VersionName(n)) && !Leq("v", "metadata")
  {
    assert VersionName(n)[1..] == Itoa(n) && "v"[1..] == "";
  }

  /** Seeking to "v" skips exactly the metadata record. */
  lemma SeekSkipsMetadata(s: State, kids: seq<Child>, nums: seq<nat>)
    requires DirectoryOf(s, kids, nums)
    ensures From(kids, "v") == kids[1..]
  {
    VersionsAfterV(0);
    var at := SeekIndex(kids, "v");
    assert at >= 1;
    if at > 1 {
      assert Holds(kids[1 + 0], s, nums[0]);
      VersionsAfterV(nums[0]);
    }
    forall i | 0 <= i < |kids[1..]| ensures !kids[1..][i].dead {
      assert Holds(kids[1 + i], s, nums[i]);
    }
    AllLive(kids[1..]);
  }

  lemma NumsDistinct(s: State, kids: seq<Child>, nums: seq<nat>)
    requires DirectoryOf(s, kids, nums)
    ensures forall i, j :: 0 <= i < j < |nums| ==> nums[i] != nums[j]
  {
    forall i, j | 0 <= i < j < |nums| ensures nums[i] != nums[j] {
      assert Holds(kids[1 + i], s, nums[i]) && Holds(kids[1 + j], s, nums[j]);
      LessTrichotomy(kids[1 + i].name, kids[1 + j].name);
    }
  }

  /** What the load makes of a stored version. */
  function Stored(root: string, s: State, n: nat): CompactVersion
    requires n in s.versions
  {
    CompactVersion(root + "/" + VersionName(n), n, s.versions[n].createdAt)
  }

  /** What the load of such a directory is. */
  ghost predicate LoadOf(root: string, s: State, nums: seq<nat>, vs: seq<CompactVersion>) {
    |vs| == |nums| &&
    forall i :: 0 <= i < |vs| ==> nums[i] in s.versions && vs[i] == Stored(root, s, nums[i])
  }

  lemma {:induction false} ParsedAll<T>(items: seq<Child>, read: Child -> Option<T>, want: seq<T>, dir: string)
    requires |items| == |want| && forall i :: 0 <= i < |items| ==> read(items[i]) == Some(want[i])
    ensures Parsed(items, read) == want && Unparsed(items, read, dir) == []
  {
    if items != [] {
      var k := |items| - 1;
      assert forall i :: 0 <= i < k ==> items[..k][i] == items[i] && want[..k][i] == want[i];
      ParsedAll(items[..k], read, want[..k], dir);
      assert want == want[..k] + [want[k]];
    }
  }

  lemma ReaderFinds(root: string, s: State, c: Child, n: nat)
    requires Holds(c, s, n) && 1 <= n < TWO_31
    ensures n in s.versions && Reader(root)(c) == Some(Stored(root, s, n))
  {
    ReadsItsVersion(root, s, c, n);
  }

  lemma ParsedIsLoad(root: string, s: State, items: seq<Child>, nums: seq<nat>)
    requires |items| == |nums| && forall i :: 0 <= i < |items| ==> Holds(items[i], s, nums[i]) && 1 <= nums[i] < TWO_31
    ensures LoadOf(root, s, nums, Parsed(items, Reader(root))) && Unparsed(items, Reader(root), root) == []
  {
    var read := Reader(root);
    forall i | 0 <= i < |nums| ensures nums[i] in s.versions && read(items[i]) == Some(Stored(root, s, nums[i])) {
      ReaderFinds(root, s, items[i], nums[i]);
    }
    var want := seq(|nums|, i requires 0 <= i < |nums| && nums[i] in s.versions => Stored(root, s, nums[i]));
    ParsedAll(items, read, want, root);
  }

  /** The paged load finds exactly the stored versions, and nothing fails to parse. */
  lemma LoadFindsVersions(root: string, s: State, kids: seq<Child>, nums: seq<nat>)
    requires Inv(s) && DirectoryOf(s, kids, nums)
    ensures LoadOf(root, s, nums, Parsed(From(kids, "v"), Reader(root))) && Unparsed(From(kids, "v"), Reader(root), root) == []
  {
    SeekSkipsMetadata(s, kids, nums);
    forall i | 0 <= i < |nums| ensures Holds(kids[1..][i], s, nums[i]) && 1 <= nums[i] < TWO_31 {
      assert Holds(kids[1 + i], s, nums[i]);
    }
    ParsedIsLoad(root, s, kids[1..], nums);
  }

  // ----- Rank -----

  /** Stored versions numerically above n. */
  function Above(s: State, n: int): set<nat> {
    set m | m in s.versions && m > n
  }

  lemma LastNotLoaded(vs: seq<CompactVersion>)
    requires vs != [] && forall i, j :: 0 <= i < j < |vs| ==> vs[i].version != vs[j].version
    ensures !Loaded(vs[..|vs| - 1], vs[|vs| - 1].version)
  {
  }

  lemma {:induction false} GreaterCounts(vs: seq<CompactVersion>, n: int, big: set<nat>)
    requires forall i, j :: 0 <= i < j < |vs| ==> vs[i].version != vs[j].version
    requires forall m :: m in big <==> m > n && Loaded(vs, m)
    requires forall i :: 0 <= i < |vs| ==> vs[i].version >= 0
    ensures Greater(vs, n) == |big|
  {
    if vs == [] {
      assert big == {};
    } else {
      var rest, last := vs[..|vs| - 1], vs[|vs| - 1];
      var fewer := if last.version > n then big - {last.version} else big;
      forall m ensures m in fewer <==> m > n && Loaded(rest, m) {
        LoadedAppend(rest, last, m);
        LastNotLoaded(vs);
        assert vs == rest + [last];
      }
      GreaterCounts(rest, n, fewer);
      assert last.version > n ==> Loaded(vs, last.version);
    }
  }

  lemma RankIsCount(root: string, s: State, nums: seq<nat>, vs: seq<CompactVersion>, n: int)
    requires LoadOf(root, s, nums, vs) && (forall m :: m in s.versions ==> m in nums)
    requires forall i, j :: 0 <= i < j < |nums| ==> nums[i] != nums[j]
    ensures Greater(vs, n) == |Above(s, n)|
    ensures forall m: nat :: Loaded(vs, m) <==> m in s.versions
  {
    forall m: nat ensures Loaded(vs, m) <==> m in s.versions {
      if m in s.versions {
        var i :| 0 <= i < |nums| && nums[i] == m;
        assert vs[i].version == m;
      }
    }
    GreaterCounts(vs, n, Above(s, n));
  }

  lemma YoungIsRecent(root: string, s: State, nums: seq<nat>, vs: seq<CompactVersion>, cutoff: int, n: nat)
    requires LoadOf(root, s, nums, vs) && n in s.versions && Loaded(vs, n)
    ensures Young(vs, cutoff, n) <==> s.versions[n].createdAt >= cutoff
  {
    var i :| 0 <= i < |vs| && vs[i].version == n;
  }

  /** Compaction with successful deletes removes precisely the versions that are
      not in use, not the draft, older than the cutoff and outside the keepCount
      numerically greatest. */
  lemma CompactionIsExact(root: string, s: State, kids: seq<Child>, nums: seq<nat>, keepCount: int, cutoff: int, keep: set<int>, n: nat)
    requires Inv(s) && s.md.Some? && DirectoryOf(s, kids, nums) && n in s.versions
    requires forall v :: v in keep <==> Retained(s.md.value.using, s.md.value.unpublished, Parsed(From(kids, "v"), Reader(root)), keepCount, cutoff, v)
    ensures root + "/" + VersionName(n) in Outdated(Parsed(From(kids, "v"), Reader(root)), keep)
            <==> !Protected(s.md.value, n) && s.versions[n].createdAt < cutoff && |Above(s, n)| >= keepCount
  {
    LoadFindsVersions(root, s, kids, nums);
    NumsDistinct(s, kids, nums);
    ExactFor(root, s, nums, Parsed(From(kids, "v"), Reader(root)), keepCount, cutoff, keep, n);
  }

  lemma ExactFor(root: string, s: State, nums: seq<nat>, vs: seq<CompactVersion>, keepCount: int, cutoff: int, keep: set<int>, n: nat)
    requires s.md.Some? && LoadOf(root, s, nums, vs) && n in s.versions
    requires (forall m :: m in s.versions ==> m in nums) && (forall i, j :: 0 <= i < j < |nums| ==> nums[i] != nums[j])
    requires forall v :: v in keep <==> Retained(s.md.value.using, s.md.value.unpublished, vs, keepCount, cutoff, v)
    ensures root + "/" + VersionName(n) in Outdated(vs, keep)
            <==> !Protected(s.md.value, n) && s.versions[n].createdAt < cutoff && |Above(s, n)| >= keepCount
  {
    RankIsCount(root, s, nums, vs, n);
    YoungIsRecent(root, s, nums, vs, cutoff, n);
    OutdatedMembers(root, vs, keep, n);
  }

  lemma {:induction false} OutdatedMembers(root: string, vs: seq<CompactVersion>, keep: set<int>, n: nat)
    requires forall i :: 0 <= i < |vs| ==> vs[i].version >= 0 && vs[i].key == root + "/" + VersionName(vs[i].version)
    ensures root + "/" + VersionName(n) in Outdated(vs, keep) <==> Loaded(vs, n) && n !in keep
  {
    if vs != [] {
      var rest, last := vs[..|vs| - 1], vs[|vs| - 1];
      assert vs == rest + [last];
      OutdatedMembers(root, rest, keep, n);
      LoadedAppend(rest, last, n);
      if root + "/" + VersionName(n) == last.key {
        SameKeySameVersion(root, n, last.version);
      }
    }
  }

  lemma SameKeySameVersion(root: string, m: nat, n: nat)
    requires root + "/" + VersionName(m) == root + "/" + VersionName(n)
    ensures m == n
  {
    var p := root + "/";
    assert (p + VersionName(m))[|p|..] == VersionName(m) && (p + VersionName(n))[|p|..] == VersionName(n);
    NameInjective(m, n);
  }

  // ----- What the element is afterwards -----

  /** The operations directory of the element: one record per entry of its log, in
      cursor order, each decoding to its time. */
  ghost predicate LogOf(s: State, kids: seq<Child>, decode: Child -> Option<int>) {
    && |kids| == |s.ops|
    && forall i :: 0 <= i < |kids| ==> kids[i].name == Itoa(s.ops[i].operatedAt) && !kids[i].dead && decode(kids[i]) == Some(s.ops[i].operatedAt)
  }

  function OpKey(dir: string, o: Operation): string {
    dir + "/" + Itoa(o.operatedAt)
  }

  /** The log entries whose keys are not deleted. */
  function Left(ops: seq<Operation>, dir: string, deleted: seq<string>): seq<Operation> {
    if ops == [] then []
    else if OpKey(dir, ops[0]) in deleted then Left(ops[1..], dir, deleted)
    else [ops[0]] + Left(ops[1..], dir, deleted)
  }

  /** The element without the deleted keys. */
  function WithoutKeys(s: State, root: string, dir: string, versions: seq<string>, operations: seq<string>): State {
    s.(versions := map n | n in s.versions && root + "/" + VersionName(n) !in versions :: s.versions[n],
       ops := Left(s.ops, dir, operations))
  }

  lemma OpKeyInjective(dir: string, a: Operation, b: Operation)
    requires OpKey(dir, a) == OpKey(dir, b)
    ensures a.operatedAt == b.operatedAt
  {
    var p := dir + "/";
    assert (p + Itoa(a.operatedAt))[|p|..] == Itoa(a.operatedAt) && (p + Itoa(b.operatedAt))[|p|..] == Itoa(b.operatedAt);
    ItoaInjective(a.operatedAt, b.operatedAt);
  }

  function Load(ops: seq<Operation>, dir: string): seq<CompactOperation> {
    seq(|ops|, i requires 0 <= i < |ops| => CompactOperation(OpKey(dir, ops[i]), ops[i].operatedAt))
  }

  lemma LoadFindsLog(s: State, kids: seq<Child>, dir: string, decode: Child -> Option<int>)
    requires LogOf(s, kids, decode)
    ensures Parsed(From(kids, ""), OperationReader(dir, decode)) == Load(s.ops, dir)
    ensures Unparsed(From(kids, ""), OperationReader(dir, decode), dir) == []
  {
    SeekFromStart(kids);
    assert kids[0..] == kids;
    AllLive(kids);
    ParsedAll(kids, OperationReader(dir, decode), Load(s.ops, dir), dir);
  }

  lemma {:induction false} OldMembers(ops: seq<CompactOperation>, cutoff: int, key: string)
    ensures key in OldOperations(ops, cutoff) <==> exists i :: 0 <= i < |ops| && ops[i].key == key && ops[i].operatedAt < cutoff
  {
    if ops != [] {
      var n := |ops| - 1;
      OldMembers(ops[..n], cutoff, key);
      if i :| 0 <= i < |ops| && ops[i].key == key && ops[i].operatedAt < cutoff {
        if i < n { assert ops[..n][i] == ops[i]; }
      }
      if i :| 0 <= i < |ops[..n]| && ops[..n][i].key == key && ops[..n][i].operatedAt < cutoff {
        assert ops[i] == ops[..n][i];
      }
    }
  }

  lemma OldIffBefore(ops: seq<Operation>, dir: string, cutoff: int, i: nat)
    requires i < |ops|
    ensures OpKey(dir, ops[i]) in OldOperations(Load(ops, dir), cutoff) <==> ops[i].operatedAt < cutoff
  {
    var load, key := Load(ops, dir), OpKey(dir, ops[i]);
    OldMembers(load, cutoff, key);
    assert load[i].key == key;
    if j :| 0 <= j < |load| && load[j].key == key && load[j].operatedAt < cutoff {
      OpKeyInjective(dir, ops[i], ops[j]);
    }
  }

  lemma {:induction false} LeftIsRecent(ops: seq<Operation>, dir: string, deleted: seq<string>, cutoff: int)
    requires forall i :: 0 <= i < |ops| ==> (OpKey(dir, ops[i]) in deleted <==> ops[i].operatedAt < cutoff)
    ensures Left(ops, dir, deleted) == Recent(ops, cutoff)
  {
    if ops != [] {
      assert OpKey(dir, ops[0]) in deleted <==> ops[0].operatedAt < cutoff;
      LeftIsRecent(ops[1..], dir, deleted, cutoff);
    }
  }

  lemma {:induction false} ChosenAll(keys: seq<string>, pick: string -> bool)
    requires forall k :: pick(k)
    ensures Chosen(keys, pick) == keys
  {
    if keys != [] {
      ChosenAll(keys[..|keys| - 1], pick);
      assert keys == keys[..|keys| - 1] + [keys[|keys| - 1]];
    }
  }

  /** The versions the policy keeps of an element. */
  ghost function KeptBy(s: State, keepCount: int, cutoff: int): set<nat> {
    set n | n in s.versions && (s.versions[n].createdAt >= cutoff || |Above(s, n)| < keepCount)
  }

  /** compactElementHistory on an element's own directories, with every delete
      successful, is the element's compaction: nothing fails, and what is left is
      what the lifecycle makes of Compact with the policy's versions and cutoff. */
  method CompactElement(s: State, d: Directories, ghost nums: seq<nat>, policy: Policy, now: int, nowNano: int) returns (r: Response)
    requires Inv(s) && s.md.Some? && DirectoryOf(s, d.kids, nums) && LogOf(s, d.opKids, d.decode) && InCursorOrder(d.opKids)
    requires 0 <= now <= MAX_INT64 && 0 <= nowNano <= MAX_INT64
    requires IsInt64(policy.keepVersionSeconds) && IsInt64(policy.keepOperationSeconds)
    ensures var kept := KeptBy(s, policy.keepCount, SafeRetentionCutoff(now, policy.keepVersionSeconds, 1));
            var opCutoff := SafeRetentionCutoff(nowNano, policy.keepOperationSeconds, SECOND);
            && r.failedKeys == []
            && WithoutKeys(s, d.root, d.opDir, r.deletedVersions, r.deletedOperations) == After(s, Compact(kept, opCutoff))
  {
    var always := (key: string) => true;
    var done, keep := CompactElementHistory(Reads(true, true, true), d, s.md.value.using, s.md.value.unpublished, policy, now, nowNano, always);
    r := done.value;
    ghost var opCutoff := SafeRetentionCutoff(nowNano, policy.keepOperationSeconds, SECOND);
    ChosenAll(Outdated(VersionsIn(d), keep), always);
    ChosenAll(OldOperations(OperationsIn(d), opCutoff), always);
    NothingFails(s, d, nums, keep, opCutoff);
    assert |r.failedKeys| == 0;
    LeftIsCompacted(s, d, nums, policy.keepCount, SafeRetentionCutoff(now, policy.keepVersionSeconds, 1), opCutoff, keep);
  }

  lemma NothingFails(s: State, d: Directories, nums: seq<nat>, keep: set<int>, opCutoff: int)
    requires Inv(s) && DirectoryOf(s, d.kids, nums) && LogOf(s, d.opKids, d.decode)
    ensures |From(d.kids, "v")| == |Survivors(VersionsIn(d), keep)| + |Outdated(VersionsIn(d), keep)|
    ensures |From(d.opKids, "")| == |Recents(OperationsIn(d), opCutoff)| + |OldOperations(OperationsIn(d), opCutoff)|
  {
    OutdatedPartition(VersionsIn(d), keep);
    OldPartition(OperationsIn(d), opCutoff);
    NothingUnread(s, d, nums);
  }

  lemma LeftIsCompacted(s: State, d: Directories, nums: seq<nat>, keepCount: int, cutoff: int, opCutoff: int, keep: set<int>)
    requires Inv(s) && s.md.Some? && DirectoryOf(s, d.kids, nums) && LogOf(s, d.opKids, d.decode)
    requires KeepsExactly(keep, s.md.value.using, s.md.value.unpublished, VersionsIn(d), keepCount, cutoff)
    ensures WithoutKeys(s, d.root, d.opDir, Outdated(VersionsIn(d), keep), OldOperations(OperationsIn(d), opCutoff))
            == After(s, Compact(KeptBy(s, keepCount, cutoff), opCutoff))
  {
    VersionsLeft(s, d, nums, keepCount, cutoff, keep, Outdated(VersionsIn(d), keep));
    OperationsLeft(s, d, opCutoff, OldOperations(OperationsIn(d), opCutoff));
  }

  lemma NothingUnread(s: State, d: Directories, nums: seq<nat>)
    requires Inv(s) && DirectoryOf(s, d.kids, nums) && LogOf(s, d.opKids, d.decode)
    ensures |VersionsIn(d)| == |From(d.kids, "v")| && |OperationsIn(d)| == |From(d.opKids, "")|
  {
    LoadFindsVersions(d.root, s, d.kids, nums);
    LoadFindsLog(s, d.opKids, d.opDir, d.decode);
    ParsedPartition(From(d.kids, "v"), Reader(d.root), d.root);
    ParsedPartition(From(d.opKids, ""), OperationReader(d.opDir, d.decode), d.opDir);
  }

  lemma VersionsLeft(s: State, d: Directories, nums: seq<nat>, keepCount: int, cutoff: int, keep: set<int>, deleted: seq<string>)
    requires Inv(s) && s.md.Some? && DirectoryOf(s, d.kids, nums)
    requires KeepsExactly(keep, s.md.value.using, s.md.value.unpublished, VersionsIn(d), keepCount, cutoff)
    requires deleted == Outdated(VersionsIn(d), keep)
    ensures forall n :: n in s.versions ==>
              (d.root + "/" + VersionName(n) !in deleted <==> n in KeptBy(s, keepCount, cutoff) || Protected(s.md.value, n))
  {
    forall n | n in s.versions
      ensures d.root + "/" + VersionName(n) !in deleted <==> n in KeptBy(s, keepCount, cutoff) || Protected(s.md.value, n)
    {
      CompactionIsExact(d.root, s, d.kids, nums, keepCount, cutoff, keep, n);
    }
  }

  lemma OperationsLeft(s: State, d: Directories, cutoff: int, deleted: seq<string>)
    requires LogOf(s, d.opKids, d.decode) && deleted == OldOperations(OperationsIn(d), cutoff)
    ensures Left(s.ops, d.opDir, deleted) == Recent(s.ops, cutoff)
  {
    LoadFindsLog(s, d.opKids, d.opDir, d.decode);
    forall i | 0 <= i < |s.ops| ensures OpKey(d.opDir, s.ops[i]) in deleted <==> s.ops[i].operatedAt < cutoff {
      OldIffBefore(s.ops, d.opDir, cutoff, i);
    }
    LeftIsRecent(s.ops, d.opDir, deleted, cutoff);
  }

  // ----- A store that holds the element lists it so -----

  /** A leaf that never expires. */
  predicate Lasting(t: Tree, p: Path) {
    p in t && t[p].Leaf? && t[p].entity.ttl == NEVER_EXPIRED
  }

  /** The store holds under `dir` the element's metadata, its versions and nothing
      else. */
  ghost predicate StoredAt(t: Tree, dir: Path, s: State) {
    && Lasting(t, dir + ["metadata"])
    && (forall n :: n in s.versions ==> Lasting(t, dir + [VersionName(n)]) && t[dir + [VersionName(n)]].entity.createdAt == s.versions[n].createdAt)
    && (forall name :: dir + [name] in t ==> name == "metadata" || IsVersion(s, name))
  }

  ghost predicate IsVersion(s: State, name: string) {
    exists n :: n in s.versions && name == VersionName(n)
  }

  lemma MetadataFirst(n: nat)
    ensures Less("metadata", VersionName(n)) && !Less(VersionName(n), "metadata") && "metadata" != VersionName(n)
  {
    assert "metadata"[0] == 'm' && VersionName(n)[0] == 'v';
  }

  lemma KidsOf(t: Tree, dir: Path, s: State, now: int, i: nat)
    requires WellFormed(t) && StoredAt(t, dir, s) && i < |Listing(t, dir, now)|
    ensures var c := Listing(t, dir, now)[i]; c.name == "metadata" || IsVersion(s, c.name)
    ensures forall n :: n in s.versions && Listing(t, dir, now)[i].name == VersionName(n) ==> Holds(Listing(t, dir, now)[i], s, n)
  {
    ListingMeaning(t, dir, now);
    var c := Listing(t, dir, now)[i];
    assert c in Listing(t, dir, now);
    forall n | n in s.versions && c.name == VersionName(n) ensures Holds(c, s, n) {
      assert Lasting(t, dir + [VersionName(n)]);
    }
  }

  lemma MetadataIsFirst(t: Tree, dir: Path, s: State, now: int)
    requires WellFormed(t) && StoredAt(t, dir, s)
    ensures var kids := Listing(t, dir, now); |kids| >= 1 && kids[0].name == "metadata" && InCursorOrder(kids)
  {
    ListingMeaning(t, dir, now);
    var kids := Listing(t, dir, now);
    var c := ChildAt(t, dir, "metadata", now);
    assert c in kids && c.name == "metadata";
    var i :| 0 <= i < |kids| && kids[i] == c;
    KidsOf(t, dir, s, now, 0);
    if kids[0].name != "metadata" {
      var n :| n in s.versions && kids[0].name == VersionName(n);
      MetadataFirst(n);
    }
  }

  ghost predicate HoldsSome(c: Child, s: State) {
    exists n :: Holds(c, s, n)
  }

  lemma {:induction false} Number(kids: seq<Child>, s: State) returns (nums: seq<nat>)
    requires forall i :: 0 <= i < |kids| ==> HoldsSome(kids[i], s)
    ensures |nums| == |kids| && forall i :: 0 <= i < |kids| ==> Holds(kids[i], s, nums[i])
  {
    if kids == [] {
      nums := [];
    } else {
      var k := |kids| - 1;
      nums := Number(kids[..k], s);
      var n :| Holds(kids[k], s, n);
      forall i | 0 <= i < k ensures Holds(kids[i], s, nums[i]) {
        assert kids[..k][i] == kids[i];
      }
      nums := nums + [n];
    }
  }

  lemma LaterKidsHold(t: Tree, dir: Path, s: State, now: int, i: nat)
    requires WellFormed(t) && StoredAt(t, dir, s) && 1 <= i < |Listing(t, dir, now)|
    ensures HoldsSome(Listing(t, dir, now)[i], s)
  {
    var kids := Listing(t, dir, now);
    MetadataIsFirst(t, dir, s, now);
    KidsOf(t, dir, s, now, i);
    LessTrichotomy(kids[0].name, kids[i].name);
    var n :| n in s.versions && kids[i].name == VersionName(n);
    assert Holds(kids[i], s, n);
  }

  ghost predicate HasName(kids: seq<Child>, name: string) {
    exists i :: 0 <= i < |kids| && kids[i].name == name
  }

  lemma NameListed(t: Tree, dir: Path, now: int, name: string)
    requires WellFormed(t) && dir + [name] in t
    ensures HasName(Listing(t, dir, now), name)
  {
    ListingMeaning(t, dir, now);
    var c := ChildAt(t, dir, name, now);
    assert c in Listing(t, dir, now) && c.name == name;
  }

  /** Every well-formed store that holds an element lists its directory as the
      compaction finds it. */
  lemma StoreListsElement(t: Tree, dir: Path, s: State, now: int) returns (nums: seq<nat>)
    requires WellFormed(t) && StoredAt(t, dir, s)
    ensures DirectoryOf(s, Listing(t, dir, now), nums)
  {
    var kids := Listing(t, dir, now);
    MetadataIsFirst(t, dir, s, now);
    forall i | 1 <= i < |kids| ensures HoldsSome(kids[i], s) {
      LaterKidsHold(t, dir, s, now, i);
    }
    forall n | n in s.versions ensures HasName(kids, VersionName(n)) {
      assert Lasting(t, dir + [VersionName(n)]);
      NameListed(t, dir, now, VersionName(n));
    }
    nums := Numbered(kids, s);
  }

  lemma Numbered(kids: seq<Child>, s: State) returns (nums: seq<nat>)
    requires InCursorOrder(kids) && |kids| >= 1 && kids[0].name == "metadata"
    requires forall i :: 1 <= i < |kids| ==> HoldsSome(kids[i], s)
    requires forall n :: n in s.versions ==> HasName(kids, VersionName(n))
    ensures DirectoryOf(s, kids, nums)
  {
    nums := Number(kids[1..], s);
    forall i | 0 <= i < |nums| ensures Holds(kids[1 + i], s, nums[i]) {
      assert kids[1..][i] == kids[1 + i];
    }
    forall n | n in s.versions ensures n in nums {
      var i :| 0 <= i < |kids| && kids[i].name == VersionName(n);
      MetadataFirst(n);
      assert Holds(kids[1 + (i - 1)], s, nums[i - 1]);
      NameInjective(n, nums[i - 1]);
    }
  }

  function OpNames(ops: seq<Operation>): seq<string> {
    seq(|ops|, i requires 0 <= i < |ops| => Itoa(ops[i].operatedAt))
  }

  /** The record of one log entry, decoding to its time. */
  predicate EntryStored(t: Tree, dir: Path, o: Operation, now: int, decode: Child -> Option<int>) {
    var name := Itoa(o.operatedAt);
    Lasting(t, dir + [name]) && decode(ChildAt(t, dir, name, now)) == Some(o.operatedAt)
  }

  /** The store holds under `dir` the element's log and nothing else. */
  ghost predicate LogStoredAt(t: Tree, dir: Path, s: State, now: int, decode: Child -> Option<int>) {
    && (forall i :: 0 <= i < |s.ops| ==> EntryStored(t, dir, s.ops[i], now, decode))
    && (forall name :: dir + [name] in t ==> name in OpNames(s.ops))
  }

  function NamesOf(kids: seq<Child>): seq<string> {
    seq(|kids|, i requires 0 <= i < |kids| => kids[i].name)
  }

  /** Two ascending lists with the same members are the same list. */
  lemma {:induction false} AscendingSame(a: seq<string>, b: seq<string>)
    requires Ascending(a) && Ascending(b) && forall x :: x in a <==> x in b
    ensures a == b
  {
    if a != [] {
      assert a[0] in b;
    }
    if b != [] {
      assert b[0] in a;
    }
    if a != [] {
      LessTrichotomy(a[0], b[0]);
      var i :| 0 <= i < |b| && b[i] == a[0];
      var j :| 0 <= j < |a| && a[j] == b[0];
      assert a[0] == b[0];
      forall x ensures x in a[1..] <==> x in b[1..] {
        TailHas(a, x);
        TailHas(b, x);
      }
      AscendingSame(a[1..], b[1..]);
      assert a == [a[0]] + a[1..] && b == [b[0]] + b[1..];
    }
  }

  lemma TailHas(a: seq<string>, x: string)
    requires Ascending(a) && a != []
    ensures x in a[1..] <==> x in a && x != a[0]
  {
    assert a == [a[0]] + a[1..];
    if x in a[1..] {
      var i :| 0 <= i < |a[1..]| && a[1..][i] == x;
      LessTrichotomy(a[0], a[i + 1]);
    }
  }

  /** Every well-formed store that holds the log of an element lists it in the order
      of the log. */
  lemma StoreListsLog(t: Tree, dir: Path, s: State, now: int, decode: Child -> Option<int>)
    requires WellFormed(t) && LogStoredAt(t, dir, s, now, decode) && InKeyOrder(s.ops)
    ensures LogOf(s, Listing(t, dir, now), decode)
  {
    ListingMeaning(t, dir, now);
    var kids := Listing(t, dir, now);
    var names := NamesOf(kids);
    forall x ensures x in names <==> x in OpNames(s.ops) {
      NamesListed(t, dir, s, now, decode, x);
    }
    AscendingSame(names, OpNames(s.ops));
    forall i | 0 <= i < |kids|
      ensures kids[i].name == Itoa(s.ops[i].operatedAt) && !kids[i].dead && decode(kids[i]) == Some(s.ops[i].operatedAt)
    {
      assert names[i] == OpNames(s.ops)[i];
      assert kids[i] in kids && EntryStored(t, dir, s.ops[i], now, decode);
    }
  }

  lemma NamesListed(t: Tree, dir: Path, s: State, now: int, decode: Child -> Option<int>, x: string)
    requires WellFormed(t) && LogStoredAt(t, dir, s, now, decode)
    ensures x in NamesOf(Listing(t, dir, now)) <==> x in OpNames(s.ops)
  {
    if x in OpNames(s.ops) {
      var i :| 0 <= i < |s.ops| && Itoa(s.ops[i].operatedAt) == x;
      assert EntryStored(t, dir, s.ops[i], now, decode);
      NameListed(t, dir, now, x);
      HasNameIsMember(Listing(t, dir, now), x);
    }
    if x in NamesOf(Listing(t, dir, now)) {
      ListedIsStored(t, dir, now, x);
    }
  }

  lemma HasNameIsMember(kids: seq<Child>, x: string)
    ensures HasName(kids, x) <==> x in NamesOf(kids)
  {
    if i :| 0 <= i < |kids| && kids[i].name == x {
      assert NamesOf(kids)[i] == x;
    }
  }

  lemma ListedIsStored(t: Tree, dir: Path, now: int, x: string)
    requires WellFormed(t) && x in NamesOf(Listing(t, dir, now))
    ensures dir + [x] in t
  {
    ListingMeaning(t, dir, now);
    var kids := Listing(t, dir, now);
    var i :| 0 <= i < |kids| && kids[i].name == x;
    assert kids[i] in kids;
  }
}
