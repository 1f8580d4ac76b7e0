/** The commands that requests put into the log (raft_impl.go, SetKV, UnsetKV,
    GetKV, Range, probeRemoveExpired), and when a log of requests on schema keys
    uses every path in one role. Request ids play no part here and are 0. */
module RequestLog {
  import opened Strings
  import opened Entities
  import opened Storage
  import opened Commands
  import opened Convergence
  import opened Visibility
  import opened Changes
  import opened KeySchema
  import opened RaftNode
  import opened Replication
  import opened Recovery

  /** A request on a key of the schema, in its role; `Sweep` is the removal that a
      Range proposes for an expired entry it met. */
  datatype Request =
    | Set(key: StoreKey, val: Bytes, ttl: int, overwrite: bool, now: int)
    | Unset(key: StoreKey)
    | Get(key: StoreKey, now: int)
    | Sweep(path: Path, now: int)

  predicate OnSegments(r: Request) {
    r.Sweep? || Segments(r.key)
  }

  const NIL := Entity(NoFingerprint, "", "", 0, 0, 0)

  /** probeRemoveExpired: the record's own key, always as a leaf. */
  function Removal(e: Entity): Command {
    Command(0, UNSET, e.key, false, NIL)
  }

  /** What a request, prepared on the store t, puts into the log. */
  function CommandsOf(t: Tree, r: Request): seq<Command> {
    match r
    case Set(k, val, ttl, overwrite, now) =>
      var got := GetTree(t, Print(k), IsDirectory(k));
      var last := if got.Ok? then Some(got.value) else None;
      (match PrepareSet(last, Print(k), val, ttl, overwrite, now)
       case Exists => []
       case Propose(probe, e) =>
         (if probe && last.Some? then [Removal(last.value)] else []) + [Command(0, SET, Print(k), IsDirectory(k), e)])
    case Unset(k) => [Command(0, UNSET, Print(k), IsDirectory(k), NIL)]
    case Get(k, now) =>
      var got := GetTree(t, Print(k), false);
      if got.Ok? && EntityExpired(got.value, now) then [Removal(got.value)] else []
    case Sweep(p, now) =>
      if p in t && t[p].Leaf? && EntityExpired(t[p].entity, now) then [Removal(t[p].entity)] else []
  }

  // ----- One request -----

  /** The record a directory reads back as is expired exactly at these times: all of
      the years 1970 to 2038, for instance. */
  predicate TakenForExpired(now: int) {
    Int32(now) >= 0 || Int32(now) == -TWO_31
  }

  lemma DirectoryExpiredIff(key: string, now: int)
    ensures EntityExpired(Entity(NoFingerprint, key, "", 0, 0, 0), now) <==> TakenForExpired(now)
  {
    var a := Int32(now);
    if a > -TWO_31 {
      assert Int32(0 - a) == 0 - a;
    } else {
      assert TWO_31 % TWO_32 == TWO_31;
      assert Int32(TWO_31) == -TWO_31;
    }
  }

  /** A Set of a directory that is there and is taken for expired. */
  predicate ResetsDirectory(t: Tree, r: Request) {
    r.Set? && IsDirectory(r.key) && GetTree(t, Print(r.key), true).Ok? && TakenForExpired(r.now)
  }

  /** The leaf records carry the keys they are stored under. */
  ghost predicate SchemaLeaf(e: Entity) {
    exists k :: Segments(k) && !IsDirectory(k) && e.key == Print(k)
  }

  ghost predicate Keyed(t: Tree) {
    forall p :: p in t && t[p].Leaf? ==> SchemaLeaf(t[p].entity)
  }

  lemma RemovalKeepsRole(e: Entity)
    requires SchemaLeaf(e)
    ensures FromSchema(Removal(e))
  {
    var k :| Segments(k) && !IsDirectory(k) && e.key == Print(k);
  }

  lemma InRole(k: StoreKey, c: Command)
    requires Segments(k) && c.key == Print(k) && c.op != OP_UNKNOWN
    ensures FromSchema(c) <==> c.isDir == IsDirectory(k)
  {
    if FromSchema(c) {
      var k' :| Segments(k') && c.key == Print(k') && c.isDir == IsDirectory(k');
      PrintSplits(k);
      PrintSplits(k');
      RoleDecidedByPath(k, []);
      RoleDecidedByPath(k', []);
    }
  }

  /** For every schema key, store and clock: the commands of a request keep their
      roles if and only if it does not set a directory that exists and is taken
      for expired. */
  lemma RolesKeptIff(t: Tree, r: Request)
    requires Keyed(t) && OnSegments(r)
    ensures (forall c :: c in CommandsOf(t, r) ==> FromSchema(c)) <==> !ResetsDirectory(t, r)
  {
    match r
    case Set(k, val, ttl, overwrite, now) => SetRoles(t, r);
    case Unset(k) => InRole(k, Command(0, UNSET, Print(k), IsDirectory(k), NIL));
    case Get(k, now) =>
      var got := GetTree(t, Print(k), false);
      if got.Ok? {
        RemovalKeepsRole(got.value);
      }
    case Sweep(p, now) =>
      if p in t && t[p].Leaf? {
        RemovalKeepsRole(t[p].entity);
      }
  }

  lemma SetRoles(t: Tree, r: Request)
    requires Keyed(t) && r.Set? && Segments(r.key)
    ensures (forall c :: c in CommandsOf(t, r) ==> FromSchema(c)) <==> !ResetsDirectory(t, r)
  {
    var k := r.key;
    var got := GetTree(t, Print(k), IsDirectory(k));
    var last := if got.Ok? then Some(got.value) else None;
    var p := PrepareSet(last, Print(k), r.val, r.ttl, r.overwrite, r.now);
    if p.Propose? {
      InRole(k, Command(0, SET, Print(k), IsDirectory(k), p.entity));
    }
    if got.Ok? && IsDirectory(k) {
      DirectoryExpiredIff(Print(k), r.now);
      InRole(k, Removal(got.value));
      if p.Propose? && p.probe {
        assert Removal(got.value) in CommandsOf(t, r);
      }
    } else if got.Ok? {
      RemovalKeepsRole(got.value);
    }
  }

  // ----- What a request asks for -----

  /** A Set of a leaf proposes exactly one write, of the record asked for, unless
      without overwrite a live record is there; before it the removal of the record
      there, exactly when that is expired. */
  lemma SetAsks(t: Tree, r: Request)
    requires WellFormed(t) && r.Set? && Segments(r.key) && !IsDirectory(r.key)
    ensures var was := At(t, FullPath(Print(r.key)));
            var there := was.Some? && was.value.Leaf?;
            var stale := there && EntityExpired(was.value.entity, r.now);
            var cs := CommandsOf(t, r);
            if there && !stale && !r.overwrite then cs == []
            else
              && |cs| == (if stale then 2 else 1)
              && (stale ==> IsRemoval(cs[0], was.value.entity.key))
              && IsWrite(cs[|cs| - 1], Print(r.key), r.val, r.ttl, r.now)
  {
    SchemaKeyIsValid(r.key);
    GetFindsLeaf(t, Print(r.key));
    var got := GetTree(t, Print(r.key), false);
    var last := if got.Ok? then Some(got.value) else None;
    var p := PrepareSet(last, Print(r.key), r.val, r.ttl, r.overwrite, r.now);
    if p.Propose? {
      ProposedIs(last, Print(r.key), r.val, r.ttl, r.overwrite, r.now, r.now);
      forall at ensures Lives(p.entity, r.ttl, r.now, at) {
        ProposedIs(last, Print(r.key), r.val, r.ttl, r.overwrite, r.now, at);
      }
    }
  }

  predicate IsRemoval(c: Command, key: string) {
    c.op == UNSET && c.key == key && !c.isDir
  }

  /** Visible from u on exactly for its TTL, for ever with none. */
  predicate Lives(e: Entity, ttl: int, u: int, t: int) {
    && (0 < ttl < TWO_31 && 0 <= t - u < TWO_31 ==> (!EntityExpired(e, t) <==> t - u < ttl))
    && (ttl == 0 ==> !EntityExpired(e, t))
  }

  ghost predicate IsWrite(c: Command, key: string, val: Bytes, ttl: int, u: int) {
    && c.op == SET && c.key == key && !c.isDir
    && c.value.key == key && c.value.val == val && Honest(c.value)
    && forall t :: Lives(c.value, ttl, u, t)
  }

  /** An Unset proposes one removal of its key in its role. */
  lemma UnsetAsks(t: Tree, k: StoreKey)
    ensures var cs := CommandsOf(t, Unset(k));
            |cs| == 1 && cs[0].op == UNSET && cs[0].key == Print(k) && cs[0].isDir == IsDirectory(k)
  {
  }

  /** A Get, or a Range that meets a record, proposes its removal exactly when it is
      expired, and nothing else. */
  lemma ReadsAsk(t: Tree, k: StoreKey, now: int)
    requires WellFormed(t) && Segments(k)
    ensures var p := FullPath(Print(k));
            var was := At(t, p);
            var stale := was.Some? && was.value.Leaf? && EntityExpired(was.value.entity, now);
            && CommandsOf(t, Sweep(p, now)) == CommandsOf(t, Get(k, now))
            && (if stale then |CommandsOf(t, Get(k, now))| == 1 && IsRemoval(CommandsOf(t, Get(k, now))[0], was.value.entity.key)
                else CommandsOf(t, Get(k, now)) == [])
  {
    SchemaKeyIsValid(k);
    GetFindsLeaf(t, Print(k));
  }

  /** Every command of a request is one the change stream is complete for. */
  lemma CommandsAreHonest(t: Tree, r: Request)
    ensures forall c :: c in CommandsOf(t, r) ==> HonestCommand(c)
  {
    if r.Set? {
      var got := GetTree(t, Print(r.key), IsDirectory(r.key));
      var last := if got.Ok? then Some(got.value) else None;
      if PrepareSet(last, Print(r.key), r.val, r.ttl, r.overwrite, r.now).Propose? {
        ProposedIs(last, Print(r.key), r.val, r.ttl, r.overwrite, r.now, 0);
      }
    }
  }

  /** Timed visibility of what SetKV was asked for: the value of a Set with TTL T at
      time u, proposed as w and not overwritten since, is visible at t >= u exactly
      when t - u < T and no later command removed it; without a TTL exactly when no
      later command removed it. */
  lemma RequestVisibleIff(store: Tree, r: Request, before: seq<Command>, w: Command, after: seq<Command>, t: int)
    requires WellFormed(store) && r.Set? && Segments(r.key) && !IsDirectory(r.key)
    requires w in CommandsOf(store, r) && w.op == SET && SchemaLog(before + [w] + after)
    requires (0 < r.ttl < TWO_31 && 0 <= t - r.now < TWO_31) || r.ttl == 0
    requires forall c :: c in after ==> !EffectOn(c, FullPath(w.key)).Write?
    ensures var got := GetVisible(Replay(map[], before + [w] + after), Print(r.key), t);
            && (got.Some? <==> (r.ttl == 0 || t - r.now < r.ttl) && forall c :: c in after ==> EffectOn(c, FullPath(w.key)) != Erase)
            && (got.Some? ==> got.value.val == r.val)
  {
    SetAsks(store, r);
    assert IsWrite(w, Print(r.key), r.val, r.ttl, r.now);
    assert Lives(w.value, r.ttl, r.now, t);
    SchemaKeyIsValid(r.key);
    WrittenVisibleIff(before, w, after, t);
  }

  // ----- Logs of requests -----

  /** A request prepared on the store after the first `at` commands of the log. */
  datatype Asked = Asked(at: nat, request: Request)

  function Part(log: seq<Command>, n: nat): (part: seq<Command>)
    ensures forall c :: c in part ==> c in log
  {
    if n <= |log| then log[..n] else log
  }

  function StoreAt(log: seq<Command>, n: nat): Tree {
    Replay(map[], Part(log, n))
  }

  function LogOf(asked: seq<Asked>): seq<Command> {
    if asked == [] then []
    else
      var before, a := LogOf(asked[..|asked| - 1]), asked[|asked| - 1];
      before + CommandsOf(StoreAt(before, a.at), a.request)
  }

  /** The request resets a directory of the store it is prepared on. */
  predicate ResetsAfter(prev: seq<Asked>, a: Asked) {
    ResetsDirectory(StoreAt(LogOf(prev), a.at), a.request)
  }

  /** No request of the run does. */
  predicate NoResets(asked: seq<Asked>) {
    asked == [] || (NoResets(asked[..|asked| - 1]) && !ResetsAfter(asked[..|asked| - 1], asked[|asked| - 1]))
  }

  /** A written leaf carries its own key. */
  predicate Own(c: Command) {
    c.op == SET && !c.isDir ==> c.value.key == c.key
  }

  ghost predicate InRoles(log: seq<Command>) {
    forall c :: c in log ==> FromSchema(c) && Own(c)
  }

  lemma PartIsSchema(part: seq<Command>, log: seq<Command>)
    requires SchemaLog(log) && forall c :: c in part ==> c in log
    ensures SchemaLog(part)
  {
  }

  lemma {:induction false} EffectComesFrom(log: seq<Command>, p: Path)
    requires LastEffect(log, p) != Keep
    ensures exists c :: c in log && EffectOn(c, p) == LastEffect(log, p)
  {
    if LastEffect(log[1..], p) != Keep {
      EffectComesFrom(log[1..], p);
      var c :| c in log[1..] && EffectOn(c, p) == LastEffect(log[1..], p);
      assert c in log;
    } else {
      assert log[0] in log;
    }
  }

  lemma LeafIsKeyed(part: seq<Command>, p: Path, e: Entity)
    requires InRoles(part) && LastEffect(part, p) == Write(Leaf(e))
    ensures SchemaLeaf(e)
  {
    EffectComesFrom(part, p);
    var c :| c in part && EffectOn(c, p) == Write(Leaf(e));
    var k :| Segments(k) && c.key == Print(k) && c.isDir == IsDirectory(k);
  }

  /** The store of a log in its roles: made of it, and with keyed leaves. */
  lemma StoreIsKeyed(log: seq<Command>, n: nat)
    requires SchemaLog(log) && InRoles(log)
    ensures WellFormed(StoreAt(log, n)) && MadeOf(StoreAt(log, n), log) && Keyed(StoreAt(log, n))
  {
    EmptyIsWellFormed();
    ReplayIsLastEffect(map[], Part(log, n), log);
    EndsInKeyed(Part(log, n), StoreAt(log, n));
  }

  lemma EndsInKeyed(part: seq<Command>, t: Tree)
    requires InRoles(part) && EndsIn(map[], part, t)
    ensures Keyed(t)
  {
    forall p | p in t && t[p].Leaf? ensures SchemaLeaf(t[p].entity) {
      assert At(t, p) == LastEffect(part, p).On(At(map[], p));
      LeafIsKeyed(part, p, t[p].entity);
    }
  }

  lemma CommandsAreOwn(t: Tree, r: Request)
    ensures forall c :: c in CommandsOf(t, r) ==> Own(c)
  {
  }

  /** A reset on a store made of the log brings both roles into it. */
  lemma ResetClashes(t: Tree, r: Request, before: seq<Command>)
    requires WellFormed(t) && MadeOf(t, before) && OnSegments(r) && ResetsDirectory(t, r)
    ensures !SchemaLog(before + CommandsOf(t, r))
  {
    var k := r.key;
    var got := GetTree(t, Print(k), true);
    DirectoryExpiredIff(Print(k), r.now);
    var c, p := Removal(got.value), FullPath(Print(k));
    assert c in CommandsOf(t, r);
    assert UsedAsLeaf(c, p) && Justified(Dir, p, before);
    var d :| d in before && UsedAsDir(d, p);
    assert d in before + CommandsOf(t, r) && c in before + CommandsOf(t, r);
  }

  /** Over every run of requests, each prepared on the store after any part of the
      log: the log uses every path in one role if and only if no request resets a
      directory. */
  lemma {:induction false} RequestLogIff(asked: seq<Asked>)
    requires forall a :: a in asked ==> OnSegments(a.request)
    ensures SchemaLog(LogOf(asked)) <==> NoResets(asked)
    ensures SchemaLog(LogOf(asked)) ==> InRoles(LogOf(asked))
  {
    if asked != [] {
      var m := |asked| - 1;
      RequestLogIff(asked[..m]);
      RequestStep(asked[..m], asked[m]);
    }
  }

  lemma RequestStep(prev: seq<Asked>, a: Asked)
    requires OnSegments(a.request) && (SchemaLog(LogOf(prev)) ==> InRoles(LogOf(prev)))
    ensures var before := LogOf(prev);
            var all := before + CommandsOf(StoreAt(before, a.at), a.request);
            && (SchemaLog(all) <==> SchemaLog(before) && !ResetsDirectory(StoreAt(before, a.at), a.request))
            && (SchemaLog(all) ==> InRoles(all))
  {
    var before := LogOf(prev);
    var t := StoreAt(before, a.at);
    var all := before + CommandsOf(t, a.request);
    if SchemaLog(all) {
      PartIsSchema(before, all);
    }
    if SchemaLog(before) {
      StoreIsKeyed(before, a.at);
      RolesKeptIff(t, a.request);
      CommandsAreOwn(t, a.request);
      if ResetsDirectory(t, a.request) {
        ResetClashes(t, a.request, before);
      } else {
        assert InRoles(all);
        SchemaKeysNeverClash(all);
      }
    }
  }

  /** The change stream of any run of requests is complete. */
  lemma {:induction false} RequestsAreHonest(asked: seq<Asked>)
    ensures forall c :: c in LogOf(asked) ==> HonestCommand(c)
  {
    if asked != [] {
      var n := |asked| - 1;
      RequestsAreHonest(asked[..n]);
      CommandsAreHonest(StoreAt(LogOf(asked[..n]), asked[n].at), asked[n].request);
    }
  }

  lemma RequestStreamIsComplete(asked: seq<Asked>)
    ensures FollowAll(map[], Stream(map[], LogOf(asked))) == LeafValues(RunCommands(map[], LogOf(asked)))
  {
    RequestsAreHonest(asked);
    EmptyIsWellFormed();
    assert LeafValues(map[]) == map[];
    StreamIsComplete(map[], LogOf(asked));
  }

  // ----- What a reset does -----

  /** The removal of a directory as a leaf is rejected, and an error ends the apply
      loop: the fold is halted from that entry on, in this life and in every
      replay, so the log is none that recovery covers. */
  lemma ResetHalts(log: seq<Entry>, i: nat, c: Command)
    requires i < |log| && log[i] == Data(Mutation(c)) && c.op == UNSET && !c.isDir
    requires !Fold(log, i).halted && GetTree(Fold(log, i).tree, c.key, true).Ok?
    ensures forall n :: i < n <= |log| ==> Fold(log, n) == Machine(Fold(log, i).tree, true)
    ensures !SchemaEntries(log)
  {
    var t := Fold(log, i).tree;
    DirectoryIsNoLeaf(t, c);
    HaltsOn(log, i);
    if SchemaEntries(log) {
      FoldIsReplay(log, i + 1);
    }
  }

  lemma DirectoryIsNoLeaf(t: Tree, c: Command)
    requires c.op == UNSET && !c.isDir && GetTree(t, c.key, true).Ok?
    ensures Mutate(t, c) == Rejected(IncompatibleValue)
  {
  }

  lemma HaltsOn(log: seq<Entry>, i: nat)
    requires i < |log| && log[i].Data? && log[i].payload.Mutation?
    requires !Fold(log, i).halted && Mutate(Fold(log, i).tree, log[i].payload.cmd).Rejected?
    ensures forall n :: i < n <= |log| ==> Fold(log, n) == Machine(Fold(log, i).tree, true)
  {
    assert Fold(log, i + 1) == Machine(Fold(log, i).tree, true);
    forall n | i < n <= |log| ensures Fold(log, n) == Machine(Fold(log, i).tree, true) {
      FoldStaysHalted(log, i + 1, n);
    }
  }

  function Entries(log: seq<Command>): seq<Entry> {
    seq(|log|, i requires 0 <= i < |log| => Data(Mutation(log[i])))
  }

  function CreateEnvironment(app: string, env: string, now: int): Request {
    Set(EnvDir(app, env), "", 0, false, now)
  }

  /** CreateEnvironment of an environment that exists: after the second call the log
      is no schema log and its fold is halted at the second entry, for every app and
      env. */
  lemma CreateEnvironmentTwice(app: string, env: string, first: int, second: int)
    requires Segment(app) && Segment(env) && TakenForExpired(second)
    ensures var asked := [Asked(0, CreateEnvironment(app, env, first))] + [Asked(1, CreateEnvironment(app, env, second))];
            && !SchemaLog(LogOf(asked))
            && |LogOf(asked)| == 3 && forall n :: 2 <= n <= 3 ==> Fold(Entries(LogOf(asked)), n).halted
  {
    var k := EnvDir(app, env);
    var r1, r2 := CreateEnvironment(app, env, first), CreateEnvironment(app, env, second);
    var one := [Asked(0, r1)];
    var asked := one + [Asked(1, r2)];
    var c := FirstCreate(k, r1);
    OneAsked(r1, c);
    SecondResets(one, r2, c);
    RequestLogIff(asked);
    HaltsAtSecond(k, c, Apply(map[], c), r2, LogOf(asked));
  }

  lemma SecondResets(one: seq<Asked>, r: Request, c: Command)
    requires LogOf(one) == [c] && ResetsDirectory(Apply(map[], c), r)
    ensures LogOf(one + [Asked(1, r)]) == [c] + CommandsOf(Apply(map[], c), r) && !NoResets(one + [Asked(1, r)])
  {
    OneStore(c);
    TwoAsked(one, Asked(1, r));
    assert (one + [Asked(1, r)])[..|one|] == one;
    assert ResetsAfter(one, Asked(1, r));
  }

  lemma OneAsked(r: Request, c: Command)
    requires CommandsOf(map[], r) == [c]
    ensures LogOf([Asked(0, r)]) == [c]
  {
    var one := [Asked(0, r)];
    assert one[..0] == [] && LogOf([]) == [];
    assert Part([], 0) == [];
  }

  lemma TwoAsked(prev: seq<Asked>, a: Asked)
    ensures LogOf(prev + [a]) == LogOf(prev) + CommandsOf(StoreAt(LogOf(prev), a.at), a.request)
  {
    assert (prev + [a])[..|prev|] == prev;
  }

  lemma OneStore(c: Command)
    ensures StoreAt([c], 1) == Apply(map[], c)
  {
    assert Part([c], 1) == [c] + [];
    FirstOf(map[], c, []);
  }

  lemma FirstCreate(k: StoreKey, r: Request) returns (c: Command)
    requires Segments(k) && IsDirectory(k) && r.Set? && r.key == k
    ensures CommandsOf(map[], r) == [c] && c.op == SET && c.isDir && c.key == Print(k)
    ensures Mutate(map[], c).Applied? && GetTree(Apply(map[], c), Print(k), true).Ok?
  {
    SchemaKeyIsValid(k);
    NothingThere(Print(k), true);
    c := Command(0, SET, Print(k), true, PrepareSet(None, Print(k), r.val, r.ttl, r.overwrite, r.now).entity);
    SetDirectoryFromEmpty(c);
  }

  lemma NothingThere(key: string, dir: bool)
    requires ValidKey(key)
    ensures GetTree(map[], key, dir).Err?
  {
    var nodes := KeySplitter(key).nodes;
    FindDirsMeaning(map[], nodes, 0);
    assert !DirAt(map[], nodes, 1);
  }

  lemma SetDirectoryFromEmpty(c: Command)
    requires ValidKey(c.key) && c.op == SET && c.isDir
    ensures Mutate(map[], c).Applied? && GetTree(Apply(map[], c), c.key, true).Ok?
  {
    EmptyIsWellFormed();
    AcceptedIffFits(map[], c);
    MutateIsPointwise(map[], c);
    DirectoryReadsBack(Apply(map[], c), c.key);
  }

  lemma DirectoryReadsBack(t: Tree, key: string)
    requires WellFormed(t) && ValidKey(key) && At(t, FullPath(key)) == Some(Dir)
    ensures GetTree(t, key, true).Ok?
  {
    var nodes, p := KeySplitter(key).nodes, FullPath(key);
    SplitterIsFullPath(key);
    FindDirsMeaning(t, nodes, 0);
    forall j | 0 < j <= |nodes| ensures DirAt(t, nodes, j) {
      assert p[..j] == nodes[..j];
    }
  }

  lemma HaltsAtSecond(k: StoreKey, c: Command, t: Tree, r: Request, log: seq<Command>)
    requires Mutate(map[], c).Applied? && t == Apply(map[], c) && r.Set? && r.key == k && IsDirectory(k)
    requires GetTree(t, Print(k), true).Ok? && TakenForExpired(r.now) && !r.overwrite
    requires log == [c] + CommandsOf(t, r)
    ensures |log| == 3 && forall n :: 2 <= n <= 3 ==> Fold(Entries(log), n).halted
  {
    DirectoryExpiredIff(Print(k), r.now);
    var es := Entries(log);
    assert es[0] == Data(Mutation(c)) && es[1] == Data(Mutation(Removal(GetTree(t, Print(k), true).value)));
    assert Fold(es, 0) == Machine(map[], false);
    assert Fold(es, 1) == Machine(t, false);
    ResetHalts(es, 1, log[1]);
  }
}
