/** Restart: the committed log is replayed onto a store that already holds the
    effects of some of it (node.go, replayWAL and serveChannels). */
module Convergence {
  import opened Strings
  import opened Storage
  import opened Commands

  predicate UsedAsDir(c: Command, p: Path) {
    var k := FullPath(c.key);
    (c.isDir && p == k) || (c.op == SET && 1 <= |p| && p <= k && p != k)
  }

  predicate UsedAsLeaf(c: Command, p: Path) {
    !c.isDir && p == FullPath(c.key)
  }

  /** No path serves both as a directory and as a leaf, and every command is one
      the storage can carry out. */
  ghost predicate SchemaLog(log: seq<Command>) {
    && (forall c :: c in log ==> ValidKey(c.key) && c.op != OP_UNKNOWN)
    && (forall c, d, p :: c in log && d in log ==> !(UsedAsDir(c, p) && UsedAsLeaf(d, p)))
  }

  function Apply(t: Tree, c: Command): Tree {
    var r := Mutate(t, c);
    if r.Applied? then r.tree else t
  }

  function Replay(t: Tree, log: seq<Command>): Tree
    decreases |log|
  {
    if log == [] then t else Replay(Apply(t, log[0]), log[1..])
  }

  predicate AllAccepted(t: Tree, log: seq<Command>)
    decreases |log|
  {
    log == [] || (Mutate(t, log[0]).Applied? && AllAccepted(Apply(t, log[0]), log[1..]))
  }

  /** A command of the log puts a node of this kind at this path. */
  ghost predicate Justified(n: Node, p: Path, log: seq<Command>) {
    exists c :: c in log && if n == Dir then UsedAsDir(c, p) else UsedAsLeaf(c, p)
  }

  /** Everything in the tree is there because of some command of the log. */
  ghost predicate MadeOf(t: Tree, log: seq<Command>) {
    forall p :: p in t ==> Justified(t[p], p, log)
  }

  /** What a whole log does to one path: its last command that touches it. */
  function LastEffect(log: seq<Command>, p: Path): Effect {
    if log == [] then Keep
    else
      var rest := LastEffect(log[1..], p);
      if rest == Keep then EffectOn(log[0], p) else rest
  }

  lemma {:induction false} LastEffectSplits(a: seq<Command>, b: seq<Command>, p: Path)
    ensures LastEffect(a + b, p) == if LastEffect(b, p) == Keep then LastEffect(a, p) else LastEffect(b, p)
  {
    if a == [] {
      assert a + b == b;
    } else {
      LastEffectSplits(a[1..], b, p);
      assert (a + b)[1..] == a[1..] + b;
    }
  }

  // ----- One command -----

  lemma NoSuchClash(log: seq<Command>, n: Node, p: Path, c: Command)
    requires SchemaLog(log) && Justified(n, p, log) && c in log
    ensures n == Dir ==> !UsedAsLeaf(c, p)
    ensures n != Dir ==> !UsedAsDir(c, p)
  {
  }

  lemma SchemaAccepts(t: Tree, log: seq<Command>, c: Command)
    requires SchemaLog(log) && c in log && WellFormed(t) && MadeOf(t, log)
    ensures Mutate(t, c).Applied?
  {
    var k := FullPath(c.key);
    if k in t {
      NoSuchClash(log, t[k], k, c);
    }
    forall p | c.op == SET && p in t && p <= k && p != k
      ensures t[p] == Dir
    {
      NoSuchClash(log, t[p], p, c);
    }
    AcceptedIffFits(t, c);
  }

  /** t' is t with the command's effect at every path. */
  ghost predicate Updates(t: Tree, c: Command, t': Tree) {
    forall p :: At(t', p) == EffectOn(c, p).On(At(t, p))
  }

  lemma UpdateStaysMadeOf(t: Tree, log: seq<Command>, c: Command, t': Tree)
    requires c in log && MadeOf(t, log) && Updates(t, c, t')
    ensures MadeOf(t', log)
  {
    forall p | p in t'
      ensures Justified(t'[p], p, log)
    {
      assert At(t', p) == EffectOn(c, p).On(At(t, p));
      if EffectOn(c, p).Write? {
        assert if t'[p] == Dir then UsedAsDir(c, p) else UsedAsLeaf(c, p);
      }
    }
  }

  lemma ApplyInSchema(t: Tree, log: seq<Command>, c: Command)
    requires SchemaLog(log) && c in log && WellFormed(t) && MadeOf(t, log)
    ensures Mutate(t, c).Applied?
    ensures WellFormed(Apply(t, c)) && MadeOf(Apply(t, c), log) && Updates(t, c, Apply(t, c))
  {
    SchemaAccepts(t, log, c);
    MutateIsPointwise(t, c);
    UpdateStaysMadeOf(t, log, c, Apply(t, c));
  }

  // ----- Whole logs -----

  ghost predicate EndsIn(t: Tree, part: seq<Command>, t': Tree) {
    forall p :: At(t', p) == LastEffect(part, p).On(At(t, p))
  }

  lemma EndsInStep(t: Tree, part: seq<Command>, mid: Tree, t': Tree)
    requires part != [] && Updates(t, part[0], mid) && EndsIn(mid, part[1..], t')
    ensures EndsIn(t, part, t')
  {
    forall p
      ensures At(t', p) == LastEffect(part, p).On(At(t, p))
    {
      assert At(mid, p) == EffectOn(part[0], p).On(At(t, p));
      assert At(t', p) == LastEffect(part[1..], p).On(At(mid, p));
    }
  }

  /** Replaying part of a schema log onto anything made of it never fails, and
      ends, path by path, in the last effect. */
  lemma {:induction false} ReplayIsLastEffect(t: Tree, part: seq<Command>, log: seq<Command>)
    requires SchemaLog(log) && (forall c :: c in part ==> c in log) && WellFormed(t) && MadeOf(t, log)
    ensures AllAccepted(t, part)
    ensures WellFormed(Replay(t, part)) && MadeOf(Replay(t, part), log)
    ensures EndsIn(t, part, Replay(t, part))
    decreases |part|
  {
    if part != [] {
      ApplyInSchema(t, log, part[0]);
      ReplayIsLastEffect(Apply(t, part[0]), part[1..], log);
      EndsInStep(t, part, Apply(t, part[0]), Replay(t, part));
    }
  }

  lemma {:induction false} TouchedHasEffect(log: seq<Command>, c: Command, p: Path)
    requires c in log && c.op != OP_UNKNOWN && (UsedAsDir(c, p) || UsedAsLeaf(c, p))
    ensures LastEffect(log, p) != Keep
  {
    if log[0] != c {
      TouchedHasEffect(log[1..], c, p);
    } else {
      assert EffectOn(c, p) != Keep;
    }
  }

  lemma SameEverywhere(a: Tree, b: Tree)
    requires forall p :: At(a, p) == At(b, p)
    ensures a == b
  {
    forall p ensures p in a <==> p in b {
      assert At(a, p) == At(b, p);
    }
    forall p | p in a ensures a[p] == b[p] {
      assert At(a, p) == At(b, p);
    }
  }

  lemma EndsInSame(x: Tree, log: seq<Command>, a: Tree, b: Tree)
    requires SchemaLog(log) && MadeOf(x, log) && EndsIn(x, log, a) && EndsIn(map[], log, b)
    ensures a == b
  {
    forall p
      ensures At(a, p) == At(b, p)
    {
      assert At(a, p) == LastEffect(log, p).On(At(x, p));
      assert At(b, p) == LastEffect(log, p).On(At(map[], p));
      if p in x {
        var c :| c in log && if x[p] == Dir then UsedAsDir(c, p) else UsedAsLeaf(c, p);
        TouchedHasEffect(log, c, p);
      }
    }
    SameEverywhere(a, b);
  }

  /** Restart convergence: whatever of the log the store already held, replaying
      the whole log gives the tree of applying it once from empty. */
  lemma ReplayConverges(x: Tree, log: seq<Command>)
    requires SchemaLog(log) && WellFormed(x) && MadeOf(x, log)
    ensures AllAccepted(x, log)
    ensures Replay(x, log) == Replay(map[], log)
  {
    ReplayIsLastEffect(x, log, log);
    EmptyIsWellFormed();
    ReplayIsLastEffect(map[], log, log);
    EndsInSame(x, log, Replay(x, log), Replay(map[], log));
  }

  /** The store after any number of interrupted replays: the i-th run got
      through the first cuts[i] commands. */
  function AfterCrashes(t: Tree, log: seq<Command>, cuts: seq<nat>): Tree
    requires forall i :: 0 <= i < |cuts| ==> cuts[i] <= |log|
    decreases |cuts|
  {
    if cuts == [] then t else AfterCrashes(Replay(t, log[..cuts[0]]), log, cuts[1..])
  }

  lemma {:induction false} CrashesStayMadeOf(t: Tree, log: seq<Command>, cuts: seq<nat>)
    requires SchemaLog(log) && WellFormed(t) && MadeOf(t, log)
    requires forall i :: 0 <= i < |cuts| ==> cuts[i] <= |log|
    ensures WellFormed(AfterCrashes(t, log, cuts)) && MadeOf(AfterCrashes(t, log, cuts), log)
    decreases |cuts|
  {
    if cuts != [] {
      ReplayIsLastEffect(t, log[..cuts[0]], log);
      CrashesStayMadeOf(Replay(t, log[..cuts[0]]), log, cuts[1..]);
    }
  }

  lemma CrashesConverge(log: seq<Command>, cuts: seq<nat>)
    requires SchemaLog(log)
    requires forall i :: 0 <= i < |cuts| ==> cuts[i] <= |log|
    ensures Replay(AfterCrashes(map[], log, cuts), log) == Replay(map[], log)
  {
    CrashesStayMadeOf(map[], log, cuts);
    ReplayConverges(AfterCrashes(map[], log, cuts), log);
  }

  // ----- When a log can be replayed, schema or not -----

  ghost predicate Sensible(log: seq<Command>) {
    forall c :: c in log ==> ValidKey(c.key) && c.op != OP_UNKNOWN
  }

  /** What command j meets of the store x: no path of x that the commands before it
      leave alone is of the other kind than the one it uses. */
  ghost predicate Meets(x: Tree, log: seq<Command>, j: nat)
    requires j < |log|
  {
    forall p :: p in x && LastEffect(log[..j], p) == Keep ==>
                !(x[p].Leaf? && UsedAsDir(log[j], p)) && !(x[p] == Dir && UsedAsLeaf(log[j], p))
  }

  /** The store after j commands from x, beside the one from empty. */
  ghost predicate Tracks(x: Tree, log: seq<Command>, j: nat, t: Tree, e: Tree)
    requires j <= |log|
  {
    && WellFormed(t) && WellFormed(e)
    && forall p :: At(t, p) == LastEffect(log[..j], p).On(At(x, p)) && At(e, p) == LastEffect(log[..j], p).On(None)
  }

  lemma LastEffectSnoc(log: seq<Command>, j: nat, p: Path)
    requires j < |log|
    ensures var now := EffectOn(log[j], p);
            LastEffect(log[..j + 1], p) == if now == Keep then LastEffect(log[..j], p) else now
  {
    assert log[..j + 1] == log[..j] + [log[j]];
    LastEffectSplits(log[..j], [log[j]], p);
    assert [log[j]][1..] == [];
  }

  /** Fitting, path by path. */
  predicate FitsAt(t: Tree, c: Command, p: Path) {
    p in t ==> !(t[p].Leaf? && UsedAsDir(c, p)) && !(t[p] == Dir && UsedAsLeaf(c, p))
  }

  lemma FitsIsEverywhere(t: Tree, c: Command)
    requires WellFormed(t)
    ensures Fits(t, c) <==> forall p :: FitsAt(t, c, p)
  {
    var k := FullPath(c.key);
    if Fits(t, c) {
      forall p ensures FitsAt(t, c, p) {
      }
    }
    if forall p :: FitsAt(t, c, p) {
      assert FitsAt(t, c, k);
      forall p | p in t && p <= k && p != k && c.op == SET ensures t[p] == Dir {
        assert FitsAt(t, c, p);
      }
    }
  }

  /** A command the log from empty carries out fits the tracked store exactly when
      it meets nothing of the other kind in x. */
  lemma FitsIffMeets(x: Tree, log: seq<Command>, j: nat, t: Tree, e: Tree)
    requires j < |log| && Tracks(x, log, j, t, e) && Fits(e, log[j])
    ensures Fits(t, log[j]) <==> Meets(x, log, j)
  {
    var c := log[j];
    FitsIsEverywhere(t, c);
    FitsIsEverywhere(e, c);
    forall p ensures FitsAt(t, c, p) <==> (p in x && LastEffect(log[..j], p) == Keep ==> FitsAt(x, c, p)) {
      assert FitsAt(e, c, p);
      assert At(t, p) == LastEffect(log[..j], p).On(At(x, p)) && At(e, p) == LastEffect(log[..j], p).On(None);
    }
    if Meets(x, log, j) {
      forall p ensures FitsAt(t, c, p) {
      }
    }
    if forall p :: FitsAt(t, c, p) {
      forall p | p in x && LastEffect(log[..j], p) == Keep
        ensures !(x[p].Leaf? && UsedAsDir(c, p)) && !(x[p] == Dir && UsedAsLeaf(c, p))
      {
        assert FitsAt(t, c, p);
      }
    }
  }

  lemma TracksNext(x: Tree, log: seq<Command>, j: nat, t: Tree, e: Tree)
    requires j < |log| && Tracks(x, log, j, t, e) && Mutate(t, log[j]).Applied? && Mutate(e, log[j]).Applied?
    ensures Tracks(x, log, j + 1, Apply(t, log[j]), Apply(e, log[j]))
  {
    MutateIsPointwise(t, log[j]);
    MutateIsPointwise(e, log[j]);
    forall p
      ensures At(Apply(t, log[j]), p) == LastEffect(log[..j + 1], p).On(At(x, p))
      ensures At(Apply(e, log[j]), p) == LastEffect(log[..j + 1], p).On(None)
    {
      LastEffectSnoc(log, j, p);
    }
  }

  lemma AcceptedIffMeets(x: Tree, log: seq<Command>, j: nat, t: Tree, e: Tree)
    requires Sensible(log) && j < |log| && Tracks(x, log, j, t, e) && Mutate(e, log[j]).Applied?
    ensures Mutate(t, log[j]).Applied? <==> Meets(x, log, j)
    ensures Meets(x, log, j) ==> Tracks(x, log, j + 1, Apply(t, log[j]), Apply(e, log[j]))
  {
    assert log[j] in log;
    AcceptedIffFits(e, log[j]);
    AcceptedIffFits(t, log[j]);
    FitsIffMeets(x, log, j, t, e);
    if Meets(x, log, j) {
      TracksNext(x, log, j, t, e);
    }
  }

  lemma TailOf(t: Tree, log: seq<Command>, j: nat)
    requires j < |log|
    ensures AllAccepted(t, log[j..]) <==> Mutate(t, log[j]).Applied? && AllAccepted(Apply(t, log[j]), log[j + 1..])
    ensures Replay(t, log[j..]) == Replay(Apply(t, log[j]), log[j + 1..])
  {
    assert log[j..] == [log[j]] + log[j + 1..];
    FirstOf(t, log[j], log[j + 1..]);
  }

  /** The commands from j on meet nothing of the other kind. */
  ghost predicate AllMeet(x: Tree, log: seq<Command>, j: nat) {
    forall i :: j <= i < |log| ==> Meets(x, log, i)
  }

  lemma AllMeetStep(x: Tree, log: seq<Command>, j: nat)
    requires j < |log|
    ensures AllMeet(x, log, j) <==> Meets(x, log, j) && AllMeet(x, log, j + 1)
  {
  }

  lemma {:induction false} AcceptedFrom(x: Tree, log: seq<Command>, j: nat, t: Tree, e: Tree)
    requires Sensible(log) && j <= |log| && Tracks(x, log, j, t, e) && AllAccepted(e, log[j..])
    ensures AllAccepted(t, log[j..]) <==> AllMeet(x, log, j)
    decreases |log| - j
  {
    if j < |log| {
      TailOf(e, log, j);
      TailOf(t, log, j);
      AcceptedIffMeets(x, log, j, t, e);
      AllMeetStep(x, log, j);
      if Meets(x, log, j) {
        AcceptedFrom(x, log, j + 1, Apply(t, log[j]), Apply(e, log[j]));
      }
    } else {
      assert log[j..] == [];
    }
  }

  lemma {:induction false} TrackedToEnd(x: Tree, log: seq<Command>, j: nat, t: Tree, e: Tree)
    requires Sensible(log) && j <= |log| && Tracks(x, log, j, t, e) && AllAccepted(e, log[j..]) && AllAccepted(t, log[j..])
    ensures Tracks(x, log, |log|, Replay(t, log[j..]), Replay(e, log[j..]))
    decreases |log| - j
  {
    if j < |log| {
      TailOf(e, log, j);
      TailOf(t, log, j);
      TracksNext(x, log, j, t, e);
      TrackedToEnd(x, log, j + 1, Apply(t, log[j]), Apply(e, log[j]));
    } else {
      assert log[j..] == [];
    }
  }

  lemma TracksFromStart(x: Tree, log: seq<Command>)
    requires WellFormed(x)
    ensures Tracks(x, log, 0, x, map[])
  {
    EmptyIsWellFormed();
    assert log[..0] == [];
  }

  /** Exactly when a log that runs from empty runs on a store x: no command of it
      meets a path of x of the other kind that the log has not touched before. */
  lemma AcceptedOnIff(x: Tree, log: seq<Command>)
    requires Sensible(log) && WellFormed(x) && AllAccepted(map[], log)
    ensures AllAccepted(x, log) <==> AllMeet(x, log, 0)
  {
    TracksFromStart(x, log);
    assert log[0..] == log;
    AcceptedFrom(x, log, 0, x, map[]);
  }

  /** Restart convergence without the schema: replaying the whole log onto the store
      left by its first n commands carries out every command if and only if none
      meets such a path, and then it gives the tree of applying the log once. */
  lemma RestartConvergesIff(log: seq<Command>, n: nat)
    requires Sensible(log) && AllAccepted(map[], log) && n <= |log|
    ensures var x := Replay(map[], log[..n]);
            && (AllAccepted(x, log) <==> AllMeet(x, log, 0))
            && (AllAccepted(x, log) ==> Replay(x, log) == Replay(map[], log))
  {
    var x := Replay(map[], log[..n]);
    PrefixTracks(log, n);
    AcceptedOnIff(x, log);
    if AllAccepted(x, log) {
      TracksFromStart(x, log);
      assert log[0..] == log && log[..|log|] == log;
      TrackedToEnd(x, log, 0, x, map[]);
      SameFromPrefix(log, n, x, Replay(x, log), Replay(map[], log));
    }
  }

  lemma SameFromPrefix(log: seq<Command>, n: nat, x: Tree, a: Tree, b: Tree)
    requires n <= |log| && Tracks(x, log, |log|, a, b)
    requires forall p :: At(x, p) == LastEffect(log[..n], p).On(None)
    ensures a == b
  {
    assert log[..|log|] == log;
    forall p ensures At(a, p) == At(b, p) {
      assert log == log[..n] + log[n..];
      LastEffectSplits(log[..n], log[n..], p);
    }
    SameEverywhere(a, b);
  }

  /** A prefix of an accepted log leads to its last effects. */
  lemma {:induction false} PrefixTracks(log: seq<Command>, n: nat)
    requires Sensible(log) && AllAccepted(map[], log) && n <= |log|
    ensures WellFormed(Replay(map[], log[..n])) && AllAccepted(map[], log[..n])
    ensures forall p :: At(Replay(map[], log[..n]), p) == LastEffect(log[..n], p).On(None)
  {
    AcceptedPrefix(map[], log, n);
    var part := log[..n];
    EmptyIsWellFormed();
    TracksFromStart(map[], part);
    assert part[0..] == part && part[..|part|] == part;
    TrackedToEnd(map[], part, 0, map[], map[]);
  }

  lemma {:induction false} AcceptedPrefix(t: Tree, log: seq<Command>, n: nat)
    requires AllAccepted(t, log) && n <= |log|
    ensures AllAccepted(t, log[..n])
    decreases |log|
  {
    if n > 0 {
      assert log[..n][0] == log[0] && log[..n][1..] == log[1..][..n - 1];
      AcceptedPrefix(Apply(t, log[0]), log[1..], n - 1);
    }
  }

  lemma FirstOf(t: Tree, c: Command, rest: seq<Command>)
    ensures AllAccepted(t, [c] + rest) <==> Mutate(t, c).Applied? && AllAccepted(Apply(t, c), rest)
    ensures Replay(t, [c] + rest) == Replay(Apply(t, c), rest)
  {
    assert ([c] + rest)[1..] == rest;
  }

  /** The counterexample, on every path: a log that runs, sets k as a leaf in its
      first command and leaves it as a directory cannot be replayed onto its own
      result. */
  lemma ClashBreaksRestart(log: seq<Command>, k: Path)
    requires Sensible(log) && AllAccepted(map[], log) && log != []
    requires UsedAsLeaf(log[0], k) && LastEffect(log, k) == Write(Dir)
    ensures !AllAccepted(Replay(map[], log), log)
  {
    PrefixTracks(log, |log|);
    assert log[..|log|] == log && log[..0] == [];
    var x := Replay(map[], log);
    assert At(x, k) == Some(Dir);
    AcceptedOnIff(x, log);
    assert !Meets(x, log, 0);
  }

  /** Such logs exist, for every path and child: set the leaf, unset it, set the
      child. */
  lemma LeafThenDirectoryRuns(k: Path, x: string, c0: Command, c1: Command, c2: Command)
    requires |k| >= 2 && FullPath(c0.key) == k && FullPath(c1.key) == k && FullPath(c2.key) == k + [x]
    requires ValidKey(c0.key) && ValidKey(c1.key) && ValidKey(c2.key)
    requires c0.op == SET && c1.op == UNSET && c2.op == SET && !c0.isDir && !c1.isDir && !c2.isDir
    ensures var log := [c0] + ([c1] + ([c2] + []));
            AllAccepted(map[], log) && UsedAsLeaf(log[0], k) && LastEffect(log, k) == Write(Dir)
  {
    SetThenUnset(k, c0, c1);
    var t0 := Apply(map[], c0);
    var t1 := Apply(t0, c1);
    assert k <= k + [x] && k != k + [x];
    AcceptedIffFits(t1, c2);
    var last := [c2] + [];
    FirstOf(map[], c0, [c1] + last);
    FirstOf(t0, c1, last);
    FirstOf(t1, c2, []);
    LastEffectSplits([c0], [c1] + last, k);
    LastEffectSplits([c1], last, k);
    assert LastEffect(last, k) == EffectOn(c2, k);
  }

  /** Setting and unsetting a leaf from empty leaves its parents. */
  lemma SetThenUnset(k: Path, c0: Command, c1: Command)
    requires |k| >= 2 && FullPath(c0.key) == k && FullPath(c1.key) == k && ValidKey(c0.key) && ValidKey(c1.key)
    requires c0.op == SET && c1.op == UNSET && !c0.isDir && !c1.isDir
    ensures var t0 := Apply(map[], c0);
            var t1 := Apply(t0, c1);
            && Mutate(map[], c0).Applied? && Mutate(t0, c1).Applied? && WellFormed(t1)
            && forall p :: p in t1 ==> t1[p] == Dir && p <= k && p != k
  {
    var t0 := Apply(map[], c0);
    var t1 := Apply(t0, c1);
    EmptyIsWellFormed();
    AcceptedIffFits(map[], c0);
    MutateIsPointwise(map[], c0);
    assert At(t0, k) == EffectOn(c0, k).On(At(map[], k));
    AcceptedIffFits(t0, c1);
    MutateIsPointwise(t0, c1);
    forall p | p in t1 ensures t1[p] == Dir && p <= k && p != k {
      assert At(t1, p) == EffectOn(c1, p).On(At(t0, p));
      assert At(t0, p) == EffectOn(c0, p).On(At(map[], p));
    }
  }

  lemma EmptyIsWellFormed()
    ensures WellFormed(map[])
  {
  }
}
