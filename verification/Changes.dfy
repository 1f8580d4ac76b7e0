/** The change stream the apply loop emits (raft_impl.go, applyMutateLogEntry,
    buildChange and emitChange). */
module Changes {
  import opened Strings
  import opened Entities
  import opened Storage
  import opened Commands
  import opened BoltRepo

  datatype ChangeOp = ChangeSet | ChangeUnset

  datatype Change = Change(op: ChangeOp, key: string, last: Option<Entity>, current: Option<Entity>)

  datatype Event = KVChange(change: Change) | DirectoryChange(topic: string, change: Change)

  /** A write that leaves the fingerprint as it was is not announced. */
  function BuildChange(c: Command, last: Option<Entity>): Option<Change> {
    if c.op == SET && last.Some? && last.value.fingerprint == c.value.fingerprint then None
    else Some(Change(if c.op == UNSET then ChangeUnset else ChangeSet, c.key, last,
                     if c.op == SET then Some(c.value) else None))
  }

  function ParentDirectoryChanges(change: Change): seq<Event> {
    var nodes := KeySplitter(change.key).nodes;
    if nodes == [] then [] else [DirectoryChange(Join(nodes, '/'), change)]
  }

  function Emit(c: Command, last: Option<Entity>): seq<Event> {
    match BuildChange(c, last)
    case None => []
    case Some(ch) => [KVChange(ch)] + ParentDirectoryChanges(ch)
  }

  /** The apply loop's handling of one command. */
  class Applier {
    const kvstore: Repository
    var changeC: seq<Event>

    constructor (kvstore: Repository)
      ensures this.kvstore == kvstore && changeC == []
    {
      this.kvstore := kvstore;
      changeC := [];
    }

    /** One command: the store and the stream move together, or neither does. */
    method ApplyMutateLogEntry(cmd: Command) returns (err: Option<Error>)
      modifies this, kvstore
      ensures match Mutate(old(kvstore.root), cmd)
              case Applied(t, last) => err == None && kvstore.root == t && changeC == old(changeC) + Emit(cmd, last)
              case Rejected(e) => err == Some(e) && kvstore.root == old(kvstore.root) && changeC == old(changeC)
    {
      var got := kvstore.GetKV(cmd.key, cmd.isDir);
      if got.Err? && !IsNotFound(got.error) {
        return Some(got.error);
      }
      var last := if got.Ok? then Some(got.value) else None;
      match cmd.op {
        case SET => err := kvstore.SetKV(cmd.key, cmd.value, cmd.isDir);
        case UNSET => err := kvstore.UnsetKV(cmd.key, cmd.isDir);
        case OP_UNKNOWN => err := Some(Unsupported);
      }
      if err.Some? {
        return;
      }
      var change := BuildChange(cmd, last);
      if change.None? {
        return;
      }
      changeC := changeC + [KVChange(change.value)] + ParentDirectoryChanges(change.value);
    }
  }

  // ----- Completeness -----

  /** A record carries the fingerprint of its own value. */
  predicate Honest(e: Entity) {
    e.fingerprint == Md5(e.val)
  }

  predicate HonestCommand(c: Command) {
    c.op == SET ==> Honest(c.value)
  }

  ghost predicate HonestTree(t: Tree) {
    forall p :: p in t && t[p].Leaf? ==> Honest(t[p].entity)
  }

  function LeafValues(t: Tree): map<Path, Bytes> {
    map p | p in t && t[p].Leaf? :: t[p].entity.val
  }

  /** What a watcher does with one KV change; `dir` is the command's flag. */
  function Follow(values: map<Path, Bytes>, change: Change, dir: bool): map<Path, Bytes> {
    var k := FullPath(change.key);
    match change.op
    case ChangeUnset => map p | p in values && !(k <= p) :: values[p]
    case ChangeSet => if dir || change.current.None? then values else values[k := change.current.value.val]
  }

  function FollowCommand(values: map<Path, Bytes>, c: Command, last: Option<Entity>): map<Path, Bytes> {
    match BuildChange(c, last)
    case None => values
    case Some(ch) => Follow(values, ch, c.isDir)
  }

  /** What acceptance says about the tree before: nothing of the other kind is
      in the way, and `last` is what was at the key. */
  ghost predicate Accepted(t: Tree, c: Command, last: Option<Entity>) {
    var k := FullPath(c.key);
    && (k in t ==> t[k].Dir? == c.isDir)
    && (last.Some? ==> if c.isDir then last.value.fingerprint == NoFingerprint else At(t, k) == Some(Leaf(last.value)))
    && (forall p :: p in t && c.op == SET && p <= k && p != k ==> t[p] == Dir)
    && (forall p :: p in t && !c.isDir && k <= p ==> p == k)
  }

  lemma AppliedMeansAccepted(t: Tree, c: Command)
    requires WellFormed(t) && Mutate(t, c).Applied?
    ensures Accepted(t, c, Mutate(t, c).last)
  {
    var k := FullPath(c.key);
    KindMatches(t, c);
    forall p | p in t && c.op == SET && p <= k && p != k ensures t[p] == Dir {
      PrefixNotLeaf(t, c, p);
    }
    forall p | p in t && !c.isDir && k <= p ensures p == k {
      AncestorPresent(t, p, k);
    }
  }

  lemma KindMatches(t: Tree, c: Command)
    requires WellFormed(t) && Mutate(t, c).Applied?
    ensures FullPath(c.key) in t ==> t[FullPath(c.key)].Dir? == c.isDir
  {
    var nodes, leaf, k := KeySplitter(c.key).nodes, KeySplitter(c.key).leaf, FullPath(c.key);
    if k in t {
      SplitterIsFullPath(c.key);
      FindDirsMeaning(t, nodes, 0);
      forall j | 0 < j <= |nodes| ensures DirAt(t, nodes, j) {
        assert nodes[..j] == k[..j] && nodes[j - 1] == k[j - 1];
      }
      EnsureDirsMeaning(t, nodes, 0);
      PrefixOfParent(nodes, leaf, k);
    }
  }

  lemma PrefixNotLeaf(t: Tree, c: Command, p: Path)
    requires WellFormed(t) && c.op == SET && Mutate(t, c).Applied?
    requires p in t && p <= FullPath(c.key) && p != FullPath(c.key)
    ensures t[p] == Dir
  {
    var nodes, leaf := KeySplitter(c.key).nodes, KeySplitter(c.key).leaf;
    SplitterIsFullPath(c.key);
    PrefixOfParent(nodes, leaf, p);
    EnsureDirsMeaning(t, nodes, 0);
    assert OpenAt(t, nodes, |p|) && nodes[..|p|] == p;
  }

  /** Following the announced change, or none if it was suppressed, gives the
      leaf values of the store after the command. */
  lemma ChangeFollows(t: Tree, c: Command, last: Option<Entity>, t': Tree)
    requires HonestTree(t) && HonestCommand(c) && c.op != OP_UNKNOWN && Accepted(t, c, last)
    requires forall p :: At(t', p) == EffectOn(c, p).On(At(t, p))
    ensures LeafValues(t') == FollowCommand(LeafValues(t), c, last) && HonestTree(t')
  {
    var got := FollowCommand(LeafValues(t), c, last);
    forall p
      ensures p in LeafValues(t') <==> p in got
      ensures p in got ==> LeafValues(t')[p] == got[p]
      ensures p in t' && t'[p].Leaf? ==> Honest(t'[p].entity)
    {
      assert At(t', p) == EffectOn(c, p).On(At(t, p));
    }
  }

  lemma OneChangeFollows(t: Tree, c: Command)
    requires WellFormed(t) && HonestTree(t) && HonestCommand(c) && Mutate(t, c).Applied?
    ensures WellFormed(Mutate(t, c).tree) && HonestTree(Mutate(t, c).tree)
    ensures LeafValues(Mutate(t, c).tree) == FollowCommand(LeafValues(t), c, Mutate(t, c).last)
  {
    MutateIsPointwise(t, c);
    AppliedMeansAccepted(t, c);
    ChangeFollows(t, c, Mutate(t, c).last, Mutate(t, c).tree);
  }

  /** A command is announced with the operation, the key, the record it replaced and
      the one it wrote; it is kept back if and only if it sets a leaf over a record
      of the same fingerprint, that is of the same value. */
  lemma AnnouncedIff(t: Tree, c: Command)
    requires WellFormed(t) && HonestTree(t) && ValidKey(c.key) && c.op != OP_UNKNOWN && HonestCommand(c) && Mutate(t, c).Applied?
    ensures var was := At(t, FullPath(c.key));
            var ch := BuildChange(c, Mutate(t, c).last);
            && (ch.None? <==> c.op == SET && !c.isDir && was.Some? && was.value.Leaf? && was.value.entity.val == c.value.val)
            && (ch.Some? ==> && ch.value.key == c.key
                             && ch.value.op == (if c.op == SET then ChangeSet else ChangeUnset)
                             && ch.value.current == (if c.op == SET then Some(c.value) else None)
                             && (!c.isDir ==> ch.value.last == if was.Some? && was.value.Leaf? then Some(was.value.entity) else None))
  {
    LastIs(t, c);
  }

  /** The previous value is what the path held, of the command's kind. */
  lemma LastIs(t: Tree, c: Command)
    requires WellFormed(t) && ValidKey(c.key) && Mutate(t, c).Applied?
    ensures var was, last := At(t, FullPath(c.key)), Mutate(t, c).last;
            && (!c.isDir ==> last == if was.Some? && was.value.Leaf? then Some(was.value.entity) else None)
            && (c.isDir ==> (last.Some? <==> was == Some(Dir)) && (last.Some? ==> last.value.fingerprint == NoFingerprint))
  {
    var nodes, p := KeySplitter(c.key).nodes, FullPath(c.key);
    SplitterIsFullPath(c.key);
    FindDirsMeaning(t, nodes, 0);
    if p in t {
      forall j | 0 < j <= |nodes| ensures DirAt(t, nodes, j) {
        assert p[..j] == nodes[..j];
      }
    }
  }

  /** The store after a run of commands, up to the first rejected one. */
  function RunCommands(t: Tree, cmds: seq<Command>): Tree
    decreases |cmds|
  {
    if cmds == [] || Mutate(t, cmds[0]).Rejected? then t
    else RunCommands(Mutate(t, cmds[0]).tree, cmds[1..])
  }

  /** The stream of the same run, with each command's dir flag beside its events. */
  function Stream(t: Tree, cmds: seq<Command>): seq<(Event, bool)>
    decreases |cmds|
  {
    if cmds == [] || Mutate(t, cmds[0]).Rejected? then []
    else Tagged(Emit(cmds[0], Mutate(t, cmds[0]).last), cmds[0].isDir) + Stream(Mutate(t, cmds[0]).tree, cmds[1..])
  }

  function Tagged(events: seq<Event>, dir: bool): seq<(Event, bool)> {
    seq(|events|, i requires 0 <= i < |events| => (events[i], dir))
  }

  /** A watcher of KV changes over a whole stream. */
  function FollowAll(values: map<Path, Bytes>, stream: seq<(Event, bool)>): map<Path, Bytes>
    decreases |stream|
  {
    if stream == [] then values
    else FollowAll(if stream[0].0.KVChange? then Follow(values, stream[0].0.change, stream[0].1) else values, stream[1..])
  }

  /** Every KV change is followed by exactly one directory change, addressed to
      its parent path and carrying the same change. */
  ghost predicate Paired(stream: seq<(Event, bool)>) {
    stream == [] ||
    (|stream| >= 2 && stream[0].0.KVChange?
     && stream[1].0 == DirectoryChange(Join(KeySplitter(stream[0].0.change.key).nodes, '/'), stream[0].0.change)
     && Paired(stream[2..]))
  }

  lemma EmitShape(t: Tree, c: Command)
    requires Mutate(t, c).Applied?
    ensures var last := Mutate(t, c).last;
            match BuildChange(c, last)
            case None => Emit(c, last) == []
            case Some(ch) =>
              && ch.key == c.key
              && Emit(c, last) == [KVChange(ch), DirectoryChange(Join(KeySplitter(c.key).nodes, '/'), ch)]
  {
  }

  /** The change stream is complete: following it from the initial leaf values
      reproduces those of the store after the same commands. */
  lemma {:induction false} StreamIsComplete(t: Tree, cmds: seq<Command>)
    requires WellFormed(t) && HonestTree(t) && forall c :: c in cmds ==> HonestCommand(c)
    ensures FollowAll(LeafValues(t), Stream(t, cmds)) == LeafValues(RunCommands(t, cmds))
    ensures Paired(Stream(t, cmds))
    decreases |cmds|
  {
    if cmds != [] && Mutate(t, cmds[0]).Applied? {
      var c := cmds[0];
      var t', last := Mutate(t, c).tree, Mutate(t, c).last;
      OneChangeFollows(t, c);
      StreamIsComplete(t', cmds[1..]);
      StreamHead(t, cmds);
      StreamStep(LeafValues(t), BuildChange(c, last), c, Stream(t', cmds[1..]), Stream(t, cmds));
    }
  }

  lemma StreamHead(t: Tree, cmds: seq<Command>)
    requires cmds != [] && Mutate(t, cmds[0]).Applied?
    ensures var c, r := cmds[0], Mutate(t, cmds[0]);
            var rest := Stream(r.tree, cmds[1..]);
            match BuildChange(c, r.last)
            case None => Stream(t, cmds) == rest
            case Some(ch) =>
              && ch.key == c.key
              && Stream(t, cmds) == [(KVChange(ch), c.isDir),
                   (DirectoryChange(Join(KeySplitter(c.key).nodes, '/'), ch), c.isDir)] + rest
  {
    EmitShape(t, cmds[0]);
    var c, r := cmds[0], Mutate(t, cmds[0]);
    var e := Emit(c, r.last);
    assert Stream(t, cmds) == Tagged(e, c.isDir) + Stream(r.tree, cmds[1..]);
    if BuildChange(c, r.last).Some? {
      assert Tagged(e, c.isDir) == [(e[0], c.isDir), (e[1], c.isDir)];
    } else {
      assert Tagged(e, c.isDir) == [];
    }
  }

  lemma StreamStep(values: map<Path, Bytes>, change: Option<Change>, c: Command, rest: seq<(Event, bool)>, all: seq<(Event, bool)>)
    requires Paired(rest)
    requires change.None? ==> all == rest
    requires change.Some? ==> change.value.key == c.key
    requires change.Some? ==> all == [(KVChange(change.value), c.isDir),
               (DirectoryChange(Join(KeySplitter(c.key).nodes, '/'), change.value), c.isDir)] + rest
    ensures Paired(all)
    ensures FollowAll(values, all) == FollowAll(if change.None? then values else Follow(values, change.value, c.isDir), rest)
  {
    if change.Some? {
      assert all[2..] == rest && all[1..][1..] == rest;
    }
  }
}
