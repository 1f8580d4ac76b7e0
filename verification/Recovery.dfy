/** Runs of the replicated store across crashes and restarts: what the racy
    snapshot loses, and exactly which runs recover. */
module Recovery {
  import opened Strings
  import opened Storage
  import opened Commands
  import opened Convergence
  import opened RaftNode
  import opened Replication

  lemma RunSnoc(log: seq<Entry>, cap: nat, s: State, ls: seq<Label>, l: Label)
    ensures Run(log, cap, s, ls + [l]) == Next(log, cap, Run(log, cap, s, ls), l)
  {
    assert (ls + [l])[..|ls + [l]| - 1] == ls;
  }

  /** A data entry is handed over, an empty one follows, and the snapshot due after
      that is triggered while the first is still to be applied; then a crash. */
  function RacyLabels(): seq<Label> {
    [Ready(None, 0, 1)] + [RaftStep] + [RaftStep] + [Ready(None, 1, 2)] + [RaftStep] + [RaftStep] + [Crash]
  }

  lemma RacyRun(log: seq<Entry>)
    requires |log| == 2 && log[0].Data? && log[1] == Empty
    ensures var s := Run(log, 1, Init(), RacyLabels());
            s.applied == 2 && s.apply == Idle && s.raft == Selecting && s.tree == map[]
  {
    RacyHandsOver(log);
    RacyTakes(log);
    var l3 := [Ready(None, 0, 1)] + [RaftStep] + [RaftStep];
    var l4 := l3 + [Ready(None, 1, 2)];
    RunSnoc(log, 1, Init(), l3, Ready(None, 1, 2));
    RunSnoc(log, 1, Init(), l4, RaftStep);
    RunSnoc(log, 1, Init(), l4 + [RaftStep], RaftStep);
    RunSnoc(log, 1, Init(), l4 + [RaftStep] + [RaftStep], Crash);
  }

  function Handed(): State {
    State(1, 0, Selecting, Running(0, [1]), map[], 0, None, [1], [], {})
  }

  lemma RacyHandsOver(log: seq<Entry>)
    requires |log| == 2 && log[0].Data? && log[1] == Empty
    ensures Run(log, 1, Init(), [Ready(None, 0, 1)] + [RaftStep] + [RaftStep]) == Handed()
  {
    assert DataIndices(log, 0, 1) == [1];
    var l1 := [Ready(None, 0, 1)];
    assert [] + l1 == l1;
    RunSnoc(log, 1, Init(), [], Ready(None, 0, 1));
    RunSnoc(log, 1, Init(), l1, RaftStep);
    RunSnoc(log, 1, Init(), l1 + [RaftStep], RaftStep);
    var s2 := Next(log, 1, Next(log, 1, Init(), Ready(None, 0, 1)), RaftStep);
    assert s2 == Handed().(raft := Triggering(true));
  }

  lemma RacyTakes(log: seq<Entry>)
    requires |log| == 2 && log[0].Data? && log[1] == Empty
    ensures var s := OnCrash(Next(log, 1, Next(log, 1, Next(log, 1, Handed(), Ready(None, 1, 2)), RaftStep), RaftStep));
            s.applied == 2 && s.apply == Idle && s.raft == Selecting && s.tree == map[]
  {
    assert DataIndices(log, 1, 2) == [];
    var s4 := Next(log, 1, Handed(), Ready(None, 1, 2));
    assert s4.raft == Publishing(1, 2);
    var s5 := Next(log, 1, s4, RaftStep);
    assert s5.raft == Triggering(false) && s5.applied == 2 && s5.tree == map[] && s5.saved == None;
    var s6 := Next(log, 1, s5, RaftStep);
    assert s6.saved == Some(Snapshot(2, map[], 2));
  }

  /** The trigger does not wait when its batch carried no data. For every write of
      a leaf: the snapshot at index 2 is taken before entry 1 is applied, and the
      restart from it loses the committed write for good. */
  lemma RacySnapshotLosesWrite(c: Command)
    requires ValidKey(c.key) && c.op == SET && !c.isDir
    ensures var log := [Data(Mutation(c)), Empty];
            var s := Run(log, 1, Init(), RacyLabels());
            && s.applied == |log| && s.apply == Idle && s.raft == Selecting
            && s.tree == map[] && At(Fold(log, |log|).tree, FullPath(c.key)) == Some(Leaf(c.value))
  {
    var log := [Data(Mutation(c)), Empty];
    RacyRun(log);
    SetFromEmpty(c);
    assert Fold(log, 0) == Machine(map[], false);
    assert Fold(log, 1) == Machine(Mutate(map[], c).tree, false);
    assert Fold(log, 2) == Fold(log, 1);
  }

  lemma SetFromEmpty(c: Command)
    requires ValidKey(c.key) && c.op == SET && !c.isDir
    ensures Mutate(map[], c).Applied? && At(Mutate(map[], c).tree, FullPath(c.key)) == Some(Leaf(c.value))
  {
    EmptyIsWellFormed();
    AcceptedIffFits(map[], c);
    MutateIsPointwise(map[], c);
    var p := FullPath(c.key);
    assert At(Mutate(map[], c).tree, p) == EffectOn(c, p).On(At(map[], p));
  }

  // ----- Commands of the log -----

  function Cmds(log: seq<Entry>, a: nat, b: nat): seq<Command>
    requires b <= |log|
    decreases b - a
  {
    if a >= b then []
    else if log[a].Data? && log[a].payload.Mutation? then [log[a].payload.cmd] + Cmds(log, a + 1, b)
    else Cmds(log, a + 1, b)
  }

  /** A log in which everything decodes and no path has two roles. */
  ghost predicate SchemaEntries(log: seq<Entry>) {
    (forall e :: e in log ==> e != Data(Garbage)) && SchemaLog(Cmds(log, 0, |log|))
  }

  lemma {:induction false} CmdsAppend(log: seq<Entry>, a: nat, m: nat, b: nat)
    requires a <= m <= b <= |log|
    ensures Cmds(log, a, b) == Cmds(log, a, m) + Cmds(log, m, b)
    decreases m - a
  {
    if a < m {
      CmdsAppend(log, a + 1, m, b);
    }
  }

  lemma {:induction false} ReplayAppend(t: Tree, a: seq<Command>, b: seq<Command>)
    ensures Replay(t, a + b) == Replay(Replay(t, a), b)
    decreases |a|
  {
    if a == [] {
      assert a + b == b;
    } else {
      AppendOne(t, a, b);
      ReplayAppend(Apply(t, a[0]), a[1..], b);
    }
  }

  lemma AppendOne(t: Tree, a: seq<Command>, b: seq<Command>)
    requires a != []
    ensures Replay(t, a + b) == Replay(Apply(t, a[0]), a[1..] + b)
    ensures Replay(t, a) == Replay(Apply(t, a[0]), a[1..])
  {
    assert (a + b)[0] == a[0] && (a + b)[1..] == a[1..] + b;
  }

  lemma PrefixIsSchema(log: seq<Entry>, a: nat, b: nat)
    requires SchemaEntries(log) && a <= b <= |log|
    ensures SchemaLog(Cmds(log, a, b))
    ensures forall c :: c in Cmds(log, a, b) ==> c in Cmds(log, 0, |log|) && c in Cmds(log, 0, b)
  {
    CmdsAppend(log, 0, b, |log|);
    CmdsAppend(log, 0, a, b);
  }

  /** Without data there is no command, and each index adds its own. */
  lemma {:induction false} CmdsOfDataless(log: seq<Entry>, a: nat, b: nat)
    requires b <= |log| && DataIndices(log, a, b) == []
    ensures Cmds(log, a, b) == []
    decreases b - a
  {
    if a < b {
      CmdsOfDataless(log, a + 1, b);
    }
  }

  lemma CommandApplies(t: Tree, log: seq<Command>, c: Command)
    requires SchemaLog(log) && c in log && WellFormed(t) && MadeOf(t, log)
    ensures ApplyPayload(Machine(t, false), Mutation(c)) == Machine(Apply(t, c), false)
    ensures WellFormed(Apply(t, c)) && MadeOf(Apply(t, c), log)
  {
    ApplyInSchema(t, log, c);
  }

  /** For such a log the reference never halts and is the replay of its commands. */
  lemma {:induction false} FoldIsReplay(log: seq<Entry>, n: nat)
    requires SchemaEntries(log) && n <= |log|
    ensures Fold(log, n) == Machine(Replay(map[], Cmds(log, 0, n)), false)
    ensures WellFormed(Fold(log, n).tree) && MadeOf(Fold(log, n).tree, Cmds(log, 0, n))
  {
    if n == 0 {
      EmptyIsWellFormed();
    } else {
      FoldIsReplay(log, n - 1);
      PrefixIsSchema(log, 0, n);
      CmdsAppend(log, 0, n - 1, n);
      var before, one := Cmds(log, 0, n - 1), Cmds(log, n - 1, n);
      ReplayAppend(map[], before, one);
      MadeOfGrows(Fold(log, n - 1).tree, before, Cmds(log, 0, n));
      assert log[n - 1] in log;
      if log[n - 1].Data? && log[n - 1].payload.Mutation? {
        FoldCommand(log, n, log[n - 1].payload.cmd, Replay(map[], before), Cmds(log, 0, n));
      } else {
        assert one == [];
      }
    }
  }

  /** One command of the log, on both sides. */
  lemma FoldCommand(log: seq<Entry>, n: nat, c: Command, t: Tree, cmds: seq<Command>)
    requires 1 <= n <= |log| && log[n - 1] == Data(Mutation(c)) && Fold(log, n - 1) == Machine(t, false)
    requires SchemaLog(cmds) && c in cmds && WellFormed(t) && MadeOf(t, cmds)
    ensures Fold(log, n) == Machine(Replay(t, Cmds(log, n - 1, n)), false)
    ensures WellFormed(Fold(log, n).tree) && MadeOf(Fold(log, n).tree, cmds)
  {
    assert Cmds(log, n - 1, n) == [c] + [];
    FirstOf(t, c, []);
    CommandApplies(t, cmds, c);
  }

  lemma MadeOfGrows(t: Tree, small: seq<Command>, big: seq<Command>)
    requires MadeOf(t, small) && forall c :: c in small ==> c in big
    ensures MadeOf(t, big)
  {
    forall p | p in t ensures Justified(t[p], p, big) {
      assert Justified(t[p], p, small);
    }
  }

  // ----- Recovering -----

  /** A store that stands at index `pos` of the log but may hold effects up to
      `newest`: replaying from pos reaches the reference at newest and beyond. */
  ghost predicate Recovers(log: seq<Entry>, t: Tree, pos: nat, newest: nat)
    requires pos <= |log| && newest <= |log|
  {
    && WellFormed(t)
    && MadeOf(t, Cmds(log, 0, newest))
    && forall q :: pos <= q <= |log| && newest <= q ==> Replay(t, Cmds(log, pos, q)) == Fold(log, q).tree
  }

  /** The reference itself recovers from its own index. */
  lemma FoldRecovers(log: seq<Entry>, n: nat)
    requires SchemaEntries(log) && n <= |log|
    ensures Recovers(log, Fold(log, n).tree, n, n)
  {
    FoldIsReplay(log, n);
    forall q | n <= q <= |log|
      ensures Replay(Fold(log, n).tree, Cmds(log, n, q)) == Fold(log, q).tree
    {
      FoldIsReplay(log, q);
      CmdsAppend(log, 0, n, q);
      ReplayAppend(map[], Cmds(log, 0, n), Cmds(log, n, q));
    }
  }

  /** Restart without a snapshot: start over at index 0 on the store as it is. */
  lemma RestartRecovers(log: seq<Entry>, t: Tree, pos: nat, newest: nat)
    requires SchemaEntries(log) && pos <= |log| && newest <= |log| && Recovers(log, t, pos, newest)
    ensures Recovers(log, t, 0, newest)
  {
    forall q | newest <= q <= |log|
      ensures Replay(t, Cmds(log, 0, q)) == Fold(log, q).tree
    {
      PrefixIsSchema(log, 0, q);
      PrefixIsSchema(log, newest, q);
      CmdsAppend(log, 0, newest, q);
      MadeOfGrows(t, Cmds(log, 0, newest), Cmds(log, 0, q));
      ReplayConverges(t, Cmds(log, 0, q));
      FoldIsReplay(log, q);
    }
  }

  /** Passing entries without data. */
  lemma SkipRecovers(log: seq<Entry>, t: Tree, pos: nat, to: nat, newest: nat)
    requires pos <= to <= |log| && newest <= |log| && Recovers(log, t, pos, newest) && DataIndices(log, pos, to) == []
    ensures Recovers(log, t, to, newest)
  {
    CmdsOfDataless(log, pos, to);
    forall q | to <= q <= |log| && newest <= q
      ensures Replay(t, Cmds(log, to, q)) == Fold(log, q).tree
    {
      CmdsAppend(log, pos, to, q);
      assert Cmds(log, pos, q) == Cmds(log, to, q);
      assert Replay(t, Cmds(log, pos, q)) == Fold(log, q).tree;
    }
  }

  /** A greater claim about what the store may hold is weaker. */
  lemma WeakerRecovers(log: seq<Entry>, t: Tree, pos: nat, newest: nat, more: nat)
    requires pos <= |log| && newest <= more <= |log| && Recovers(log, t, pos, newest)
    ensures Recovers(log, t, pos, more)
  {
    CmdsAppend(log, 0, newest, more);
    MadeOfGrows(t, Cmds(log, 0, newest), Cmds(log, 0, more));
  }

  /** Applying the next command succeeds and moves on. */
  lemma MutationRecovers(log: seq<Entry>, t: Tree, i: nat, more: nat, c: Command)
    requires SchemaEntries(log) && 1 <= i <= more <= |log| && Cmds(log, i - 1, i) == [c]
    requires Recovers(log, t, i - 1, more)
    ensures ApplyPayload(Machine(t, false), Mutation(c)) == Machine(Apply(t, c), false)
    ensures Recovers(log, Apply(t, c), i, more)
  {
    PrefixIsSchema(log, 0, more);
    CmdsAppend(log, 0, i - 1, i);
    CmdsAppend(log, 0, i, more);
    CommandApplies(t, Cmds(log, 0, more), c);
    forall q | i <= q <= |log| && more <= q
      ensures Replay(Apply(t, c), Cmds(log, i, q)) == Fold(log, q).tree
    {
      CmdsAppend(log, i - 1, i, q);
      FirstOf(t, c, Cmds(log, i, q));
      assert Replay(t, Cmds(log, i - 1, q)) == Fold(log, q).tree;
    }
  }

  lemma OtherRecovers(log: seq<Entry>, t: Tree, i: nat, more: nat)
    requires 1 <= i <= more <= |log| && Cmds(log, i - 1, i) == []
    requires Recovers(log, t, i - 1, more)
    ensures Recovers(log, t, i, more)
  {
    forall q | i <= q <= |log| && more <= q
      ensures Replay(t, Cmds(log, i, q)) == Fold(log, q).tree
    {
      CmdsAppend(log, i - 1, i, q);
      assert Cmds(log, i - 1, q) == Cmds(log, i, q);
      assert Replay(t, Cmds(log, i - 1, q)) == Fold(log, q).tree;
    }
  }

  lemma OneCommand(log: seq<Entry>, i: nat)
    requires 1 <= i <= |log|
    ensures Cmds(log, i - 1, i) == if log[i - 1].Data? && log[i - 1].payload.Mutation? then [log[i - 1].payload.cmd] else []
  {
    assert Cmds(log, i, i) == [];
  }

  lemma ApplyRecovers(log: seq<Entry>, t: Tree, i: nat, newest: nat, m: Machine)
    requires SchemaEntries(log) && 1 <= i <= |log| && newest <= |log| && log[i - 1].Data?
    requires Recovers(log, t, i - 1, newest)
    requires m == ApplyPayload(Machine(t, false), log[i - 1].payload)
    ensures !m.halted && Recovers(log, m.tree, i, Max(newest, i))
  {
    var p, more := log[i - 1].payload, Max(newest, i);
    WeakerRecovers(log, t, i - 1, newest, more);
    OneCommand(log, i);
    if p.Mutation? {
      MutationRecovers(log, t, i, more, p.cmd);
      assert m == Machine(Apply(t, p.cmd), false);
    } else {
      OtherRecovers(log, t, i, more);
      assert m == Machine(t, false) by {
        assert log[i - 1] in log;
      }
    }
  }

  // ----- Every run, with any number of crashes -----

  ghost predicate SnapshotRecovers(log: seq<Entry>, f: Snapshot) {
    f.index <= |log| && f.newest <= |log| && Recovers(log, f.tree, f.index, f.newest)
  }

  ghost predicate StoreRecovers(log: seq<Entry>, s: State)
    requires s.applied <= |log| && s.newest <= |log|
    requires s.saved.Some? ==> SnapshotRecovers(log, s.saved.value)
  {
    match s.apply
    case Idle => Recovers(log, s.tree, s.applied, s.newest) || (Ahead(s) && Recovers(log, s.tree, s.saved.value.index, s.newest))
    case Running(from, _) => from <= s.applied && Recovers(log, s.tree, from, s.newest)
    case Dead => false
    case Loading => s.saved.Some? && DataIndices(log, s.saved.value.index, s.applied) == []
  }

  ghost predicate Recovering(log: seq<Entry>, s: State) {
    && Indices(log, s) && s.newest <= |log|
    && (s.saved.Some? ==> SnapshotRecovers(log, s.saved.value))
    && AheadOnlyInstalling(log, s)
    && StoreRecovers(log, s)
    && WellFormed(s.tree) && MadeOf(s.tree, Cmds(log, 0, s.newest))
    && (s.raft.Installing? ==> s.raft.snap.newest == s.raft.snap.index)
    && (s.apply.Loading? && s.saved.Some? ==> s.saved.value.newest <= Max(s.newest, s.saved.value.index))
  }

  lemma ReadyKeepsRecovering(log: seq<Entry>, s: State, snap: Option<nat>, a: nat, b: nat)
    requires SchemaEntries(log) && Recovering(log, s)
    ensures Recovering(log, OnReady(log, s, snap, a, b))
  {
    var t := OnReady(log, s, snap, a, b);
    if snap.Some? && snap.value <= |log| {
      FoldRecovers(log, snap.value);
    }
    if t.saved != s.saved && s.apply.Loading? && t.saved.value.index <= s.applied {
      DataIndicesAppend(log, s.saved.value.index, t.saved.value.index, s.applied);
    }
  }

  lemma PublishKeepsRecovering(log: seq<Entry>, s: State)
    requires s.raft.Publishing? && Recovering(log, s)
    ensures Recovering(log, OnPublish(log, s))
  {
    PublishKeepsIndices(log, s);
    var t := OnPublish(log, s);
    if t.applied != s.applied && DataIndices(log, s.applied, t.applied) == [] {
      match s.apply
      case Idle => SkipRecovers(log, s.tree, s.applied, t.applied, s.newest);
      case Running(from, _) =>
      case Loading => DataIndicesAppend(log, s.saved.value.index, s.applied, t.applied);
    }
  }

  // ----- Snapshots taken while the apply loop has work left -----

  /** The commands after `from` up to `applied`, still to be applied, have their last
      effects in the store already, on every path that no command after `applied`
      and up to `more` touches. */
  ghost predicate PendingSettled(log: seq<Entry>, t: Tree, from: nat, applied: nat, more: nat)
    requires applied <= |log| && more <= |log|
  {
    forall p :: LastEffect(Cmds(log, applied, more), p) == Keep ==> LastEffect(Cmds(log, from, applied), p).On(At(t, p)) == At(t, p)
  }

  /** The snapshot still to be loaded brings nothing new to those paths. */
  ghost predicate LoadSettled(log: seq<Entry>, t: Tree, loaded: Tree, applied: nat, more: nat)
    requires applied <= |log| && more <= |log|
  {
    forall p :: LastEffect(Cmds(log, applied, more), p) == Keep ==> At(loaded, p) == At(t, p)
  }

  /** What the apply loop still has to do changes nothing. */
  ghost predicate Settled(log: seq<Entry>, s: State)
    requires s.applied <= |log| && s.newest <= |log|
  {
    match s.apply
    case Running(from, _) => PendingSettled(log, s.tree, from, s.applied, Max(s.newest, s.applied))
    case Loading => s.saved.Some? && LoadSettled(log, s.tree, s.saved.value.tree, s.applied, Max(s.newest, s.applied))
    case _ => true
  }

  /** Reaching the reference once is reaching it from then on. */
  lemma RecoversAtOnce(log: seq<Entry>, t: Tree, pos: nat, more: nat)
    requires SchemaEntries(log) && pos <= more <= |log| && WellFormed(t) && MadeOf(t, Cmds(log, 0, more))
    ensures Recovers(log, t, pos, more) <==> Replay(t, Cmds(log, pos, more)) == Fold(log, more).tree
  {
    if Replay(t, Cmds(log, pos, more)) == Fold(log, more).tree {
      FoldRecovers(log, more);
      forall q | pos <= q <= |log| && more <= q ensures Replay(t, Cmds(log, pos, q)) == Fold(log, q).tree {
        CmdsAppend(log, pos, more, q);
        ReplayAppend(t, Cmds(log, pos, more), Cmds(log, more, q));
      }
    }
  }

  lemma SameIffSamePaths(a: Tree, b: Tree)
    ensures a == b <==> forall p :: At(a, p) == At(b, p)
  {
    if forall p :: At(a, p) == At(b, p) {
      SameEverywhere(a, b);
    }
  }

  /** A store that recovers from `from` recovers from `applied` if and only if what
      is pending in between is settled. */
  lemma RecoversIffPendingSettled(log: seq<Entry>, t: Tree, from: nat, applied: nat, newest: nat)
    requires SchemaEntries(log) && from <= applied <= |log| && newest <= |log| && Recovers(log, t, from, newest)
    ensures var more := Max(newest, applied);
            Recovers(log, t, applied, more) <==> PendingSettled(log, t, from, applied, more)
  {
    var more := Max(newest, applied);
    var all, pending, after := Cmds(log, 0, more), Cmds(log, from, applied), Cmds(log, applied, more);
    PrefixIsSchema(log, 0, more);
    PrefixIsSchema(log, from, more);
    PrefixIsSchema(log, applied, more);
    WeakerRecovers(log, t, from, newest, more);
    CmdsAppend(log, from, applied, more);
    RecoversAtOnce(log, t, applied, more);
    ReplayIsLastEffect(t, after, all);
    ReplayIsLastEffect(t, pending + after, all);
    PendingPaths(t, Replay(t, after), Replay(t, pending + after), pending, after);
  }

  lemma PendingPaths(t: Tree, a: Tree, b: Tree, pending: seq<Command>, after: seq<Command>)
    requires EndsIn(t, after, a) && EndsIn(t, pending + after, b)
    ensures a == b <==> forall p :: LastEffect(after, p) == Keep ==> LastEffect(pending, p).On(At(t, p)) == At(t, p)
  {
    SameIffSamePaths(a, b);
    forall p ensures At(a, p) == At(b, p) <==> (LastEffect(after, p) == Keep ==> LastEffect(pending, p).On(At(t, p)) == At(t, p)) {
      LastEffectSplits(pending, after, p);
    }
  }

  /** A store about to be replaced by a snapshot recovers from `applied` if and only
      if the snapshot brings nothing new. */
  lemma RecoversIffLoadSettled(log: seq<Entry>, t: Tree, f: Snapshot, applied: nat, newest: nat)
    requires SchemaEntries(log) && f.index <= applied <= |log| && newest <= |log| && SnapshotRecovers(log, f)
    requires DataIndices(log, f.index, applied) == [] && f.newest <= Max(newest, applied)
    requires WellFormed(t) && MadeOf(t, Cmds(log, 0, newest))
    ensures var more := Max(newest, applied);
            Recovers(log, t, applied, more) <==> LoadSettled(log, t, f.tree, applied, more)
  {
    var more := Max(newest, applied);
    var all, after := Cmds(log, 0, more), Cmds(log, applied, more);
    PrefixIsSchema(log, 0, more);
    PrefixIsSchema(log, applied, more);
    SkipRecovers(log, f.tree, f.index, applied, f.newest);
    WeakerRecovers(log, f.tree, applied, f.newest, more);
    CmdsAppend(log, 0, newest, more);
    MadeOfGrows(t, Cmds(log, 0, newest), all);
    RecoversAtOnce(log, t, applied, more);
    RecoversAtOnce(log, f.tree, applied, more);
    ReplayIsLastEffect(t, after, all);
    ReplayIsLastEffect(f.tree, after, all);
    LoadedPaths(t, f.tree, Replay(t, after), Replay(f.tree, after), after);
  }

  lemma LoadedPaths(t: Tree, loaded: Tree, a: Tree, b: Tree, after: seq<Command>)
    requires EndsIn(t, after, a) && EndsIn(loaded, after, b)
    ensures a == b <==> forall p :: LastEffect(after, p) == Keep ==> At(loaded, p) == At(t, p)
  {
    SameIffSamePaths(a, b);
    forall p ensures At(a, p) == At(b, p) <==> (LastEffect(after, p) == Keep ==> At(loaded, p) == At(t, p)) {
    }
  }

  /** The trigger takes a snapshot in this step. */
  predicate Takes(cap: nat, s: State) {
    s.raft.Triggering? && s.applied - s.snapIndex > cap && !(s.raft.wait && s.apply.Running?)
  }

  /** In every state in which the trigger takes a snapshot, the store recovers from
      appliedIndex if and only if it is settled. */
  lemma TriggeredRecoversIff(log: seq<Entry>, cap: nat, s: State)
    requires SchemaEntries(log) && Recovering(log, s) && Takes(cap, s)
    ensures Recovers(log, s.tree, s.applied, Max(s.newest, s.applied)) <==> Settled(log, s)
  {
    match s.apply
    case Idle => WeakerRecovers(log, s.tree, s.applied, s.newest, Max(s.newest, s.applied));
    case Running(from, _) => RecoversIffPendingSettled(log, s.tree, from, s.applied, s.newest);
    case Loading => RecoversIffLoadSettled(log, s.tree, s.saved.value, s.applied, s.newest);
  }

  /** In every such state, with the apply loop idle, at work or about to load: the
      snapshot taken is the fold of the log up to its index if and only if what the
      apply loop still has to do changes nothing; when the step is not racy it has
      nothing to do. (`newest <= applied`: no replay of a longer log is in
      progress.) */
  lemma TriggeredSnapshotExactIff(log: seq<Entry>, cap: nat, s: State)
    requires SchemaEntries(log) && Recovering(log, s) && Takes(cap, s) && s.newest <= s.applied
    ensures OnTrigger(cap, s).saved == Some(Snapshot(s.applied, s.tree, s.applied))
    ensures s.tree == Fold(log, s.applied).tree <==> Settled(log, s)
    ensures !Racy(cap, s) ==> s.apply == Idle
  {
    TriggeredRecoversIff(log, cap, s);
    CmdsAppend(log, 0, s.newest, s.applied);
    MadeOfGrows(s.tree, Cmds(log, 0, s.newest), Cmds(log, 0, s.applied));
    RecoversAtOnce(log, s.tree, s.applied, s.applied);
    assert Cmds(log, s.applied, s.applied) == [];
  }

  /** Over all states: a trigger keeps what recovery needs if and only if it is
      not racy or the store is settled. */
  lemma TriggerKeepsRecoveringIff(log: seq<Entry>, cap: nat, s: State)
    requires SchemaEntries(log) && Recovering(log, s) && s.raft.Triggering?
    ensures Recovering(log, OnTrigger(cap, s)) <==> (Racy(cap, s) ==> Settled(log, s))
  {
    if Takes(cap, s) {
      TriggeredRecoversIff(log, cap, s);
      var t := OnTrigger(cap, s);
      assert t.saved == Some(Snapshot(s.applied, s.tree, Max(s.newest, s.applied)));
      if Settled(log, s) {
        TakenKeepsRecovering(log, s, t);
      }
    }
  }

  lemma TakenKeepsRecovering(log: seq<Entry>, s: State, t: State)
    requires Recovering(log, s) && s.raft.Triggering? && s.snapIndex < s.applied
    requires t == s.(saved := Some(Snapshot(s.applied, s.tree, Max(s.newest, s.applied))), snapIndex := s.applied, raft := Selecting)
    requires Recovers(log, s.tree, s.applied, Max(s.newest, s.applied))
    ensures Recovering(log, t)
  {
    if s.apply.Loading? {
      assert DataIndices(log, s.applied, s.applied) == [];
    }
  }

  /** The store just before the next entry of the batch. */
  lemma NextEntryRecovers(log: seq<Entry>, s: State)
    requires Recovering(log, s) && s.apply.Running? && s.apply.todo != []
    ensures var i := s.apply.todo[0];
            && 1 <= i <= s.applied <= |log| && s.newest <= |log| && log[i - 1].Data?
            && Recovers(log, s.tree, i - 1, s.newest)
  {
    DataIndicesHead(log, s.apply.from, s.applied);
    SkipRecovers(log, s.tree, s.apply.from, s.apply.todo[0] - 1, s.newest);
  }

  lemma OnApplyIs(log: seq<Entry>, s: State, i: nat, m: Machine)
    requires s.apply.Running? && s.apply.todo != [] && s.apply.todo[0] == i && 1 <= i <= |log| && log[i - 1].Data?
    requires m == ApplyPayload(Machine(s.tree, false), log[i - 1].payload) && !m.halted
    ensures OnApply(log, s) == s.(tree := m.tree, newest := Max(s.newest, i), performed := s.performed + [i],
                                  apply := Running(i, s.apply.todo[1..]))
  {
  }

  lemma RunningKeepsRecovering(log: seq<Entry>, s: State)
    requires SchemaEntries(log) && Recovering(log, s) && s.apply.Running? && s.apply.todo != []
    ensures Recovering(log, OnApply(log, s))
  {
    var i := s.apply.todo[0];
    NextEntryRecovers(log, s);
    var m := ApplyPayload(Machine(s.tree, false), log[i - 1].payload);
    ApplyRecovers(log, s.tree, i, s.newest, m);
    OnApplyIs(log, s, i, m);
    ApplyKeepsIndices(log, s);
    AppliedIsRecovering(log, s, OnApply(log, s), i);
  }

  lemma AppliedIsRecovering(log: seq<Entry>, s: State, s': State, i: nat)
    requires Recovering(log, s) && Indices(log, s') && s'.apply.Running? && s'.apply.from == i <= s.applied
    requires s' == s.(tree := s'.tree, newest := Max(s.newest, i), performed := s'.performed, apply := s'.apply)
    requires Recovers(log, s'.tree, i, s'.newest)
    ensures Recovering(log, s')
  {
  }

  lemma ApplyKeepsRecovering(log: seq<Entry>, s: State)
    requires SchemaEntries(log) && Recovering(log, s)
    ensures Recovering(log, OnApply(log, s))
  {
    if s.apply.Running? && s.apply.todo != [] {
      RunningKeepsRecovering(log, s);
    } else {
      ApplyKeepsIndices(log, s);
      if s.apply.Running? {
        SkipRecovers(log, s.tree, s.apply.from, s.applied, s.newest);
      } else if s.apply.Loading? && !Ahead(s) {
        SkipRecovers(log, s.saved.value.tree, s.saved.value.index, s.applied, s.saved.value.newest);
      }
    }
  }

  lemma CrashKeepsRecovering(log: seq<Entry>, s: State)
    requires SchemaEntries(log) && Recovering(log, s)
    ensures Recovering(log, OnCrash(s))
  {
    if s.saved.None? {
      var pos := if s.apply.Running? then s.apply.from else s.applied;
      RestartRecovers(log, s.tree, pos, s.newest);
    }
  }

  /** A step that does no harm: a racy trigger only on a settled store. */
  ghost predicate Harmless(log: seq<Entry>, cap: nat, s: State, l: Label) {
    l == RaftStep && Racy(cap, s) && s.applied <= |log| && s.newest <= |log| ==> Settled(log, s)
  }

  lemma NextKeepsRecoveringIff(log: seq<Entry>, cap: nat, s: State, l: Label)
    requires SchemaEntries(log) && Recovering(log, s)
    ensures Recovering(log, Next(log, cap, s, l)) <==> Harmless(log, cap, s, l)
  {
    match l
    case Ready(snap, a, b) => ReadyKeepsRecovering(log, s, snap, a, b);
    case ApplyStep => ApplyKeepsRecovering(log, s);
    case Stop =>
    case Crash => CrashKeepsRecovering(log, s);
    case RaftStep =>
      match s.raft
      case Selecting =>
      case Stopped =>
      case Installing(_, _, _) => InstallKeepsIndices(log, s);
      case Publishing(_, _) => PublishKeepsRecovering(log, s);
      case Triggering(_) => TriggerKeepsRecoveringIff(log, cap, s);
  }

  ghost predicate HarmlessRun(log: seq<Entry>, cap: nat, ls: seq<Label>) {
    forall n :: 0 <= n < |ls| ==> Harmless(log, cap, Run(log, cap, Init(), ls[..n]), ls[n])
  }

  lemma RunNext(log: seq<Entry>, cap: nat, ls: seq<Label>, n: nat)
    requires n < |ls|
    ensures Run(log, cap, Init(), ls[..n + 1]) == Next(log, cap, Run(log, cap, Init(), ls[..n]), ls[n])
  {
    assert ls[..n + 1][..n] == ls[..n];
  }

  lemma InitRecovers(log: seq<Entry>)
    requires SchemaEntries(log)
    ensures Recovering(log, Init())
  {
    FoldRecovers(log, 0);
    assert Fold(log, 0) == Machine(map[], false);
  }

  lemma {:induction false} HarmlessRunRecovers(log: seq<Entry>, cap: nat, ls: seq<Label>, n: nat)
    requires SchemaEntries(log) && HarmlessRun(log, cap, ls) && n <= |ls|
    ensures Recovering(log, Run(log, cap, Init(), ls[..n]))
  {
    if n == 0 {
      InitRecovers(log);
    } else {
      HarmlessRunRecovers(log, cap, ls, n - 1);
      RunNext(log, cap, ls, n - 1);
      assert Harmless(log, cap, Run(log, cap, Init(), ls[..n - 1]), ls[n - 1]);
      NextKeepsRecoveringIff(log, cap, Run(log, cap, Init(), ls[..n - 1]), ls[n - 1]);
    }
  }

  /** Over all runs with crashes at any point, for every log without clashing
      roles: every state can recover if and only if no snapshot is triggered
      racily on a store that is not settled. */
  lemma AlwaysRecoversIff(log: seq<Entry>, cap: nat, ls: seq<Label>)
    requires SchemaEntries(log)
    ensures (forall n :: 0 <= n <= |ls| ==> Recovering(log, Run(log, cap, Init(), ls[..n]))) <==> HarmlessRun(log, cap, ls)
  {
    if HarmlessRun(log, cap, ls) {
      forall n | 0 <= n <= |ls| ensures Recovering(log, Run(log, cap, Init(), ls[..n])) {
        HarmlessRunRecovers(log, cap, ls, n);
      }
    }
    if forall n :: 0 <= n <= |ls| ==> Recovering(log, Run(log, cap, Init(), ls[..n])) {
      forall n | 0 <= n < |ls| ensures Harmless(log, cap, Run(log, cap, Init(), ls[..n]), ls[n]) {
        RunNext(log, cap, ls, n);
        assert Recovering(log, Run(log, cap, Init(), ls[..n])) && Recovering(log, Run(log, cap, Init(), ls[..n + 1]));
        NextKeepsRecoveringIff(log, cap, Run(log, cap, Init(), ls[..n]), ls[n]);
      }
    }
  }

  /** Over every such run: the apply loop never stops on an error, and as soon as
      the replay has passed everything the store ever held, the store is the fold
      of the log up to appliedIndex. */
  lemma EveryRunRecovers(log: seq<Entry>, cap: nat, ls: seq<Label>)
    requires SchemaEntries(log) && HarmlessRun(log, cap, ls)
    ensures var s := Run(log, cap, Init(), ls);
            && Recovering(log, s) && s.apply != Dead
            && (s.apply == Idle && !Ahead(s) && s.newest <= s.applied ==> s.tree == Fold(log, s.applied).tree)
  {
    HarmlessRunRecovers(log, cap, ls, |ls|);
    assert ls[..|ls|] == ls;
    var s := Run(log, cap, Init(), ls);
    assert s.applied <= |log| && Cmds(log, s.applied, s.applied) == [];
  }
}
