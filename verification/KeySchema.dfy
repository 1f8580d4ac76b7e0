/** The key printers of concept/key_generator.go and the paths they print. */
module KeySchema {
  import opened Strings
  import opened Storage
  import opened Commands
  import opened Convergence

  const ELT_PREFIX := "cassem/elements"
  const APP_PREFIX := "cassem/apps"
  const OP_PREFIX := "cassem/operations"
  const INS_PREFIX := "cassem/instances"
  const AGENT_PREFIX := "cassem/agents"

  function Joint(keys: seq<string>): string {
    Join(keys, '/')
  }

  function GenElementKey(app: string, env: string, key: string): string { Joint([ELT_PREFIX, app, env, key]) }
  function GenAppKey(app: string): string { Joint([APP_PREFIX, app]) }
  function GenAppElementKey(app: string): string { Joint([ELT_PREFIX, app]) }
  function GenAppElementEnvKey(app: string, env: string): string { Joint([ELT_PREFIX, app, env]) }
  function WithVersion(key: string, version: nat): string { Joint([key, "v" + Itoa(version)]) }
  function WithMetadataSuffix(key: string): string { key + "/metadata" }
  function GenAppOperationKey(app: string): string { Joint([OP_PREFIX, app]) }
  function GenAppEnvOperationKey(app: string, env: string): string { Joint([OP_PREFIX, app, env]) }
  function GenElementOperationKeyPrefix(app: string, env: string, key: string): string { Joint([OP_PREFIX, app, env, key]) }
  function GenElementOperationDirKey(app: string, env: string, key: string): string {
    Joint([GenElementOperationKeyPrefix(app, env, key), "operations"])
  }
  function GenElementOperationKey(app: string, env: string, key: string, operatedAt: nat): string {
    Joint([GenElementOperationDirKey(app, env, key), Itoa(operatedAt)])
  }
  function GenInstanceNormalKey(insId: string): string { Joint([INS_PREFIX, "normalized", insId]) }
  function GenInstanceReversedKeyWithInsId(app: string, env: string, key: string, insId: string): string {
    Joint([INS_PREFIX, "reversed", app + "@@@" + env + "@@@" + key, insId])
  }
  function WithAgentPrefix(agentId: string): string { Joint([AGENT_PREFIX, agentId]) }

  /** Every key the coordinators, the retention collector and the members of the
      cluster write or delete, with the role they give it. A token is kept under
      the encoded name of its owner. */
  datatype StoreKey =
    | Metadata(app: string, env: string, key: string)
    | Version(app: string, env: string, key: string, version: nat)
    | Operation(app: string, env: string, key: string, operatedAt: nat)
    | App(app: string)
    | Instance(insId: string)
    | Watcher(app: string, env: string, key: string, insId: string)
    | Agent(agentId: string)
    | ElementDir(app: string, env: string, key: string)
    | EnvDir(app: string, env: string)
    | AppDir(app: string)
    | OperationsOfElement(app: string, env: string, key: string)
    | OperationsOfEnv(app: string, env: string)
    | OperationsOfApp(app: string)
    | Policy
    | User(account: string)
    | Token(owner: string, id: string)
    | RetentionState(which: string)
    | RetentionFailure(name: string)
    | Member(nodeId: nat)

  function Print(k: StoreKey): string {
    match k
    case Metadata(a, e, x) => WithMetadataSuffix(GenElementKey(a, e, x))
    case Version(a, e, x, v) => WithVersion(GenElementKey(a, e, x), v)
    case Operation(a, e, x, t) => GenElementOperationKey(a, e, x, t)
    case App(a) => GenAppKey(a)
    case Instance(i) => GenInstanceNormalKey(i)
    case Watcher(a, e, x, i) => GenInstanceReversedKeyWithInsId(a, e, x, i)
    case Agent(i) => WithAgentPrefix(i)
    case ElementDir(a, e, x) => GenElementKey(a, e, x)
    case EnvDir(a, e) => GenAppElementEnvKey(a, e)
    case AppDir(a) => GenAppElementKey(a)
    case OperationsOfElement(a, e, x) => GenElementOperationKeyPrefix(a, e, x)
    case OperationsOfEnv(a, e) => GenAppEnvOperationKey(a, e)
    case OperationsOfApp(a) => GenAppOperationKey(a)
    case _ => Joint(["cassem/" + SystemKind(k)] + SystemTail(k))
  }

  predicate IsSystem(k: StoreKey) {
    k.Policy? || k.User? || k.Token? || k.RetentionState? || k.RetentionFailure? || k.Member?
  }

  /** The access control, retention and cluster keys: cassem, a kind and a tail. */
  function SystemKind(k: StoreKey): string {
    if k.Policy? || k.User? || k.Token? then "acl"
    else if k.Member? then "cluster"
    else "gc"
  }

  function SystemTail(k: StoreKey): seq<string> {
    match k
    case Policy => ["policy"]
    case User(a) => ["users", a]
    case Token(o, i) => ["tokens", o, i]
    case RetentionState(w) => ["retention", w]
    case RetentionFailure(n) => ["retention", "failures", n]
    case Member(n) => ["members", Itoa(n)]
    case _ => []
  }

  predicate IsDirectory(k: StoreKey) {
    k.ElementDir? || k.EnvDir? || k.AppDir? || k.OperationsOfElement? || k.OperationsOfEnv? || k.OperationsOfApp?
  }

  function PathOf(k: StoreKey): Path {
    match k
    case Metadata(a, e, x) => ["cassem", "elements", a, e, x, "metadata"]
    case Version(a, e, x, v) => ["cassem", "elements", a, e, x, "v" + Itoa(v)]
    case Operation(a, e, x, t) => ["cassem", "operations", a, e, x, "operations", Itoa(t)]
    case App(a) => ["cassem", "apps", a]
    case Instance(i) => ["cassem", "instances", "normalized", i]
    case Watcher(a, e, x, i) => ["cassem", "instances", "reversed", a + "@@@" + e + "@@@" + x, i]
    case Agent(i) => ["cassem", "agents", i]
    case ElementDir(a, e, x) => ["cassem", "elements", a, e, x]
    case EnvDir(a, e) => ["cassem", "elements", a, e]
    case AppDir(a) => ["cassem", "elements", a]
    case OperationsOfElement(a, e, x) => ["cassem", "operations", a, e, x]
    case OperationsOfEnv(a, e) => ["cassem", "operations", a, e]
    case OperationsOfApp(a) => ["cassem", "operations", a]
    case _ => ["cassem", SystemKind(k)] + SystemTail(k)
  }

  /** A usable segment: not blank and without '/'. */
  predicate Segment(s: string) {
    Free(s, '/') && !IsEmptyLeaf(s)
  }

  predicate Segments(k: StoreKey) {
    match k
    case Metadata(a, e, x) => Segment(a) && Segment(e) && Segment(x)
    case Version(a, e, x, _) => Segment(a) && Segment(e) && Segment(x)
    case Operation(a, e, x, _) => Segment(a) && Segment(e) && Segment(x)
    case App(a) => Segment(a)
    case Instance(i) => Segment(i)
    case Watcher(a, e, x, i) => Segment(a) && Segment(e) && Segment(x) && Segment(i)
    case Agent(i) => Segment(i)
    case ElementDir(a, e, x) => Segment(a) && Segment(e) && Segment(x)
    case EnvDir(a, e) => Segment(a) && Segment(e)
    case AppDir(a) => Segment(a)
    case OperationsOfElement(a, e, x) => Segment(a) && Segment(e) && Segment(x)
    case OperationsOfEnv(a, e) => Segment(a) && Segment(e)
    case OperationsOfApp(a) => Segment(a)
    case Policy => true
    case User(a) => Segment(a)
    case Token(o, i) => Segment(o) && Segment(i)
    case RetentionState(w) => w == "cursor" || w == "latest"
    case RetentionFailure(n) => Segment(n)
    case Member(_) => true
  }

  /** The schema's own verdict on a path: its second segment and its length. */
  predicate DirectoryPath(p: Path) {
    if |p| <= 2 then true
    else if p[1] == "elements" then |p| <= 5
    else if p[1] == "operations" then |p| <= 6
    else if p[1] == "instances" then |p| == 3 || (|p| == 4 && p[2] == "reversed")
    else if p[1] == "acl" then (|p| == 3 && p[2] != "policy") || (|p| == 4 && p[2] == "tokens")
    else if p[1] == "gc" then |p| == 3 || (|p| == 4 && p[3] == "failures")
    else if p[1] == "cluster" then |p| == 3
    else false
  }

  // ----- Printing and splitting -----

  lemma JointSplits(root: string, kind: string, rest: seq<string>)
    requires Free(root, '/') && Free(kind, '/') && |rest| >= 1
    requires forall i :: 0 <= i < |rest| ==> Free(rest[i], '/')
    ensures FullPath(Joint([root + "/" + kind] + rest)) == [root, kind] + rest
  {
    var parts := [kind] + rest;
    assert ([root + "/" + kind] + rest)[1..] == rest && parts[1..] == rest;
    SplitUndoesJoin(parts, '/');
    SplitPrepend(root, Joint(parts), '/');
    assert Joint([root + "/" + kind] + rest) == root + ['/'] + Joint(parts);
    assert [root] + parts == [root, kind] + rest;
  }

  /** Adding one more segment to a printed key adds it to the path. */
  lemma {:induction false} SplitAppend(key: string, last: string)
    requires Free(last, '/')
    ensures FullPath(Joint([key, last])) == FullPath(key) + [last]
    ensures Joint([key, last]) == key + "/" + last
  {
    assert [key, last][1..] == [last];
    var s := key + "/" + last;
    assert Join([last], '/') == last;
    assert Joint([key, last]) == s;
    if key == "" {
      assert s[1..] == last;
      SplitOfFree(last, '/');
    } else {
      SplitAppend(key[1..], last);
      assert [key[1..], last][1..] == [last];
      assert s[1..] == key[1..] + "/" + last;
      var r := Split(key[1..], '/');
      assert Split(s[1..], '/') == r + [last];
    }
  }

  lemma DigitsAreSegments(n: nat)
    ensures Segment(Itoa(n)) && Segment("v" + Itoa(n))
  {
    var s := Itoa(n);
    assert IsDigit(s[0]) && !IsSpace(s[0]);
    var t := "v" + s;
    assert !IsSpace(t[0]);
    forall i | 0 <= i < |t| ensures t[i] != '/' {
      if i > 0 {
        assert t[i] == s[i - 1];
      }
    }
  }

  lemma PrefixSplits(prefix: string, kind: string, rest: seq<string>)
    requires prefix == "cassem/" + kind && Free(kind, '/') && |rest| >= 1
    requires forall i :: 0 <= i < |rest| ==> Free(rest[i], '/')
    ensures FullPath(Joint([prefix] + rest)) == ["cassem", kind] + rest
  {
    assert prefix == "cassem" + "/" + kind;
    JointSplits("cassem", kind, rest);
  }

  lemma ElementSplits(app: string, env: string, key: string)
    requires Segment(app) && Segment(env) && Segment(key)
    ensures FullPath(GenElementKey(app, env, key)) == ["cassem", "elements", app, env, key]
    ensures FullPath(GenElementOperationKeyPrefix(app, env, key)) == ["cassem", "operations", app, env, key]
  {
    PrefixSplits(ELT_PREFIX, "elements", [app, env, key]);
    PrefixSplits(OP_PREFIX, "operations", [app, env, key]);
    assert [ELT_PREFIX] + [app, env, key] == [ELT_PREFIX, app, env, key];
    assert [OP_PREFIX] + [app, env, key] == [OP_PREFIX, app, env, key];
  }

  lemma OperationSplits(app: string, env: string, key: string, operatedAt: nat)
    requires Segment(app) && Segment(env) && Segment(key)
    ensures FullPath(GenElementOperationKey(app, env, key, operatedAt))
         == ["cassem", "operations", app, env, key, "operations", Itoa(operatedAt)]
  {
    ElementSplits(app, env, key);
    SplitAppend(GenElementOperationKeyPrefix(app, env, key), "operations");
    DigitsAreSegments(operatedAt);
    SplitAppend(GenElementOperationDirKey(app, env, key), Itoa(operatedAt));
  }

  lemma TwoSplits(prefix: string, kind: string, app: string, env: string)
    requires prefix == "cassem/" + kind && Free(kind, '/') && Segment(app) && Segment(env)
    ensures FullPath(Joint([prefix, app])) == ["cassem", kind, app]
    ensures FullPath(Joint([prefix, app, env])) == ["cassem", kind, app, env]
  {
    PrefixSplits(prefix, kind, [app]);
    PrefixSplits(prefix, kind, [app, env]);
    assert [prefix] + [app] == [prefix, app] && [prefix] + [app, env] == [prefix, app, env];
  }

  lemma DirectorySplits(k: StoreKey)
    requires Segments(k) && IsDirectory(k)
    ensures FullPath(Print(k)) == PathOf(k)
  {
    match k
    case ElementDir(a, e, x) => ElementSplits(a, e, x);
    case EnvDir(a, e) => TwoSplits(ELT_PREFIX, "elements", a, e);
    case AppDir(a) => TwoSplits(ELT_PREFIX, "elements", a, a);
    case OperationsOfElement(a, e, x) => ElementSplits(a, e, x);
    case OperationsOfEnv(a, e) => TwoSplits(OP_PREFIX, "operations", a, e);
    case OperationsOfApp(a) => TwoSplits(OP_PREFIX, "operations", a, a);
  }

  lemma RegistrySplits(k: StoreKey)
    requires Segments(k) && (k.App? || k.Instance? || k.Watcher? || k.Agent?)
    ensures FullPath(Print(k)) == PathOf(k)
  {
    match k
    case App(a) =>
      PrefixSplits(APP_PREFIX, "apps", [a]);
      assert [APP_PREFIX] + [a] == [APP_PREFIX, a];
    case Instance(i) =>
      PrefixSplits(INS_PREFIX, "instances", ["normalized", i]);
      assert [INS_PREFIX] + ["normalized", i] == [INS_PREFIX, "normalized", i];
    case Watcher(a, e, x, i) =>
      var w := a + "@@@" + e + "@@@" + x;
      PrefixSplits(INS_PREFIX, "instances", ["reversed", w, i]);
      assert [INS_PREFIX] + ["reversed", w, i] == [INS_PREFIX, "reversed", w, i];
    case Agent(i) =>
      PrefixSplits(AGENT_PREFIX, "agents", [i]);
      assert [AGENT_PREFIX] + [i] == [AGENT_PREFIX, i];
  }

  lemma SystemSplits(k: StoreKey)
    requires Segments(k) && IsSystem(k)
    ensures FullPath(Print(k)) == PathOf(k)
  {
    if k.Member? {
      DigitsAreSegments(k.nodeId);
    }
    PrefixSplits("cassem/" + SystemKind(k), SystemKind(k), SystemTail(k));
  }

  lemma RecordSplits(k: StoreKey)
    requires Segments(k) && (k.Metadata? || k.Version? || k.Operation?)
    ensures FullPath(Print(k)) == PathOf(k)
  {
    match k
    case Metadata(a, e, x) =>
      ElementSplits(a, e, x);
      SplitAppend(GenElementKey(a, e, x), "metadata");
      assert Print(k) == GenElementKey(a, e, x) + "/" + "metadata";
    case Version(a, e, x, v) =>
      ElementSplits(a, e, x);
      DigitsAreSegments(v);
      SplitAppend(GenElementKey(a, e, x), "v" + Itoa(v));
    case Operation(a, e, x, t) => OperationSplits(a, e, x, t);
  }

  /** Every printed key splits back into the path the schema means. */
  lemma PrintSplits(k: StoreKey)
    requires Segments(k)
    ensures FullPath(Print(k)) == PathOf(k)
  {
    if IsDirectory(k) {
      DirectorySplits(k);
    } else if k.App? || k.Instance? || k.Watcher? || k.Agent? {
      RegistrySplits(k);
    } else if IsSystem(k) {
      SystemSplits(k);
    } else {
      RecordSplits(k);
    }
  }

  // ----- The schema keeps directories and leaves apart -----

  /** A command on a printed key, used in its role. */
  ghost predicate FromSchema(c: Command) {
    c.op != OP_UNKNOWN && exists k :: Segments(k) && c.key == Print(k) && c.isDir == IsDirectory(k)
  }

  lemma RoleDecidedByPath(k: StoreKey, p: Path)
    requires Segments(k)
    ensures DirectoryPath(PathOf(k)) == IsDirectory(k)
    ensures p <= PathOf(k) && p != PathOf(k) ==> DirectoryPath(p)
  {
    var q := PathOf(k);
    if p <= q && p != q {
      assert |p| < |q|;
      assert |p| > 1 ==> p[1] == q[1];
      assert |p| > 2 ==> p[2] == q[2];
      assert |p| > 3 ==> p[3] == q[3];
    }
  }

  lemma ValidFromPath(key: string, q: Path)
    requires FullPath(key) == q && |q| >= 2 && !IsEmptyLeaf(q[|q| - 1])
    requires forall i :: 0 <= i < |q| ==> q[i] != ""
    ensures ValidKey(key)
  {
    SplitterIsFullPath(key);
  }

  lemma PathIsUsable(k: StoreKey)
    requires Segments(k)
    ensures |PathOf(k)| >= 3 && !IsEmptyLeaf(PathOf(k)[|PathOf(k)| - 1])
  {
    if k.Version? {
      DigitsAreSegments(k.version);
    } else if k.Operation? {
      DigitsAreSegments(k.operatedAt);
    } else if k.Member? {
      DigitsAreSegments(k.nodeId);
    } else if k.Metadata? {
      assert !IsSpace("metadata"[0]);
    } else if k.Policy? {
      assert !IsSpace("policy"[0]);
    } else if k.RetentionState? {
      assert !IsSpace("cursor"[0]) && !IsSpace("latest"[0]);
    }
  }

  lemma PathHasNoGap(k: StoreKey)
    requires Segments(k)
    ensures forall i :: 0 <= i < |PathOf(k)| ==> PathOf(k)[i] != ""
  {
    if k.Operation? {
      DigitsAreSegments(k.operatedAt);
    } else if k.Member? {
      DigitsAreSegments(k.nodeId);
    }
  }

  lemma SchemaKeyIsValid(k: StoreKey)
    requires Segments(k)
    ensures ValidKey(Print(k))
  {
    PrintSplits(k);
    PathIsUsable(k);
    PathHasNoGap(k);
    ValidFromPath(Print(k), PathOf(k));
  }

  /** Any log of commands on slash-free schema keys that use each key in its role is
      one that restart convergence covers. Which requests put only such commands
      into the log is the subject of RequestLog. */
  lemma SchemaKeysNeverClash(log: seq<Command>)
    requires forall c :: c in log ==> FromSchema(c)
    ensures SchemaLog(log)
  {
    forall c | c in log
      ensures ValidKey(c.key) && c.op != OP_UNKNOWN
    {
      var k :| Segments(k) && c.key == Print(k) && c.isDir == IsDirectory(k);
      SchemaKeyIsValid(k);
    }
    forall c, p | c in log
      ensures UsedAsDir(c, p) ==> DirectoryPath(p)
      ensures UsedAsLeaf(c, p) ==> !DirectoryPath(p)
    {
      var k :| Segments(k) && c.key == Print(k) && c.isDir == IsDirectory(k);
      PrintSplits(k);
      RoleDecidedByPath(k, p);
      RoleDecidedByPath(k, FullPath(c.key));
    }
  }

  /** With a slash in an element key the roles do collide: element "x/metadata"
      makes a directory of the metadata record of element "x". */
  lemma SlashInKeyClashes(app: string, env: string)
    requires Segment(app) && Segment(env)
    ensures FullPath(Print(ElementDir(app, env, "x/metadata"))) == FullPath(Print(Metadata(app, env, "x")))
  {
    assert !IsSpace("x"[0]);
    assert Segment("x");
    ElementSplits(app, env, "x");
    SplitAppend(GenElementKey(app, env, "x"), "metadata");
    var metadata := "x/metadata";
    PrintedElement(app, env, metadata);
    PrintedElement(app, env, "x");
    assert GenElementKey(app, env, metadata) == GenElementKey(app, env, "x") + "/metadata";
  }

  lemma JoinCons(head: string, rest: seq<string>)
    requires |rest| >= 1
    ensures Joint([head] + rest) == head + "/" + Joint(rest)
  {
    assert ([head] + rest)[1..] == rest;
  }

  lemma PrintedElement(app: string, env: string, key: string)
    ensures GenElementKey(app, env, key) == ELT_PREFIX + "/" + (app + "/" + (env + "/" + key))
  {
    JoinCons(env, [key]);
    JoinCons(app, [env, key]);
    JoinCons(ELT_PREFIX, [app, env, key]);
    assert [env] + [key] == [env, key] && [app] + [env, key] == [app, env, key];
    assert [ELT_PREFIX] + [app, env, key] == [ELT_PREFIX, app, env, key];
  }
}
