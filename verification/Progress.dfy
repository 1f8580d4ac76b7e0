/** The steps of the raft loop are what the node's methods compute (node.go,
    publishEntries, publishSnapshot, maybeTriggerSnapshot), and they make progress:
    from every live state the whole log can be reached. */
module Progress {
  import opened Strings
  import opened Storage
  import opened RaftNode
  import opened Replication
  import opened Recovery

  // ----- The publish step -----

  function IndicesOf(ents: seq<Indexed>): seq<nat> {
    seq(|ents|, i requires 0 <= i < |ents| => ents[i].index)
  }

  /** What of a delivered slice is new to the node. */
  function NewIn(log: seq<Entry>, s: State): seq<Indexed>
    requires s.raft.Publishing? && s.raft.b <= |log|
  {
    Newer(Slice(log, s.raft.a, s.raft.b), s.applied)
  }

  /** publishEntries stops the loop: a gap before the slice, or a new entry that
      removes this node. */
  predicate Stops(log: seq<Entry>, s: State)
    requires s.raft.Publishing? && s.raft.b <= |log|
  {
    (s.raft.a < s.raft.b && s.raft.a > s.applied) || RemovesSelf(NewIn(log, s))
  }

  lemma NewInIs(log: seq<Entry>, s: State)
    requires s.raft.Publishing? && s.raft.a <= s.raft.b <= |log|
    ensures var lo := Max(s.raft.a, s.applied);
            && (RemovesSelf(NewIn(log, s)) <==> RemovesSelfBetween(log, lo, s.raft.b))
            && IndicesOf(Payloads(NewIn(log, s))) == DataIndices(log, lo, s.raft.b)
            && (NewIn(log, s) == [] <==> lo >= s.raft.b)
  {
    var lo := Max(s.raft.a, s.applied);
    NewerOfSlice(log, s.raft.a, s.raft.b, s.applied);
    PayloadsOfSlice(log, lo, s.raft.b);
  }

  /** The publish step, for every slice and state, in terms of what the node's methods
      do with the slice: it stops exactly when they do; it waits exactly when there
      is data and the apply loop is busy; otherwise it hands over the indices of the
      new data entries and moves to the last new index. */
  lemma PublishExactly(log: seq<Entry>, s: State)
    requires s.raft.Publishing? && s.raft.a <= s.raft.b <= |log|
    ensures var t, more, data := OnPublish(log, s), NewIn(log, s), IndicesOf(Payloads(NewIn(log, s)));
            if Stops(log, s) then t == s.(raft := Stopped)
            else if data != [] && s.apply != Idle then t == s
            else
              && t.applied == (if more == [] then s.applied else s.raft.b)
              && t.handed == s.handed + data
              && t.raft == Triggering(data != [])
              && t.apply == (if data == [] then s.apply else Running(s.applied, data))
              && t.tree == s.tree && t.snapIndex == s.snapIndex && t.saved == s.saved && t.newest == s.newest
  {
    NewInIs(log, s);
    var t := OnPublish(log, s);
    assert s.handed + [] == s.handed;
  }

  lemma {:induction false} SliceIsContiguous(log: seq<Entry>, a: nat, b: nat)
    requires a <= b <= |log| < TWO_64
    ensures |Slice(log, a, b)| == b - a && Contiguous(Slice(log, a, b))
    ensures a < b ==> Slice(log, a, b)[0].index == a + 1
    ensures forall i :: 0 <= i < b - a ==> Slice(log, a, b)[i].index == a + 1 + i
    decreases b - a
  {
    if a < b {
      SliceIsContiguous(log, a + 1, b);
    }
  }

  /** The node itself, run on the slice, ends where the step ends. */
  method PublishOnNode(node: RaftNode.Node, log: seq<Entry>, s: State) returns (data: seq<Indexed>, stopped: bool)
    requires node.Valid() && node.appliedIndex == s.applied && node.snapshotIndex == s.snapIndex
    requires s.raft.Publishing? && s.raft.a <= s.raft.b <= |log| && |log| + 1 < TWO_64 && s.applied <= |log| && s.apply == Idle
    modifies node
    ensures var t := OnPublish(log, s);
            && node.Valid() && node.appliedIndex == t.applied && node.snapshotIndex == t.snapIndex
            && (stopped <==> t.raft == Stopped)
            && (!stopped ==> t.handed == s.handed + IndicesOf(data))
  {
    PublishExactly(log, s);
    NewInIs(log, s);
    SliceIsContiguous(log, s.raft.a, s.raft.b);
    var ents := Slice(log, s.raft.a, s.raft.b);
    var fatal, newer := node.EntriesToApply(ents);
    if fatal {
      return [], true;
    }
    NewerOfSlice(log, s.raft.a, s.raft.b, s.applied);
    SliceIsContiguous(log, if s.raft.b < Max(s.raft.a, s.applied) then s.raft.b else Max(s.raft.a, s.applied), s.raft.b);
    var ok;
    data, ok := node.PublishEntries(newer, false);
    return data, !ok;
  }

  // ----- The install and the trigger step -----

  /** The install step against publishSnapshot: the same panic, the same load, the
      same indices. */
  method InstallOnNode(node: RaftNode.Node, s: State) returns (panic: bool, load: bool)
    requires node.Valid() && node.appliedIndex == s.applied && node.snapshotIndex == s.snapIndex
    requires s.raft.Installing? && s.raft.snap.index < TWO_64 && s.apply == Idle
    modifies node
    ensures var t := OnInstall(s);
            && node.Valid() && node.appliedIndex == t.applied && node.snapshotIndex == t.snapIndex
            && (panic <==> t.raft == Stopped) && (load <==> t.apply == Loading)
            && (load ==> t.applied == s.raft.snap.index && t.raft == Publishing(s.raft.a, s.raft.b) && t.tree == s.tree)
            && (forall i :: i in t.skipped <==> i in s.skipped || (load && s.applied < i <= s.raft.snap.index))
  {
    panic, load := node.PublishSnapshot(Some(s.raft.snap.index));
  }

  /** The trigger step against maybeTriggerSnapshot, the wait being over: a snapshot
      of the store as it is, at appliedIndex, exactly past the threshold. */
  method TriggerOnNode(node: RaftNode.Node, s: State) returns (taken: Option<(nat, Tree)>)
    requires node.Valid() && node.appliedIndex == s.applied && node.snapshotIndex == s.snapIndex
    requires s.raft.Triggering? && !(s.raft.wait && s.apply.Running?)
    requires s.saved.Some? ==> s.saved.value.index <= s.snapIndex
    modifies node
    ensures var t := OnTrigger(node.snapCount, s);
            && node.Valid() && node.appliedIndex == t.applied && node.snapshotIndex == t.snapIndex && t.raft == Selecting
            && t.tree == s.tree && t.apply == s.apply && t.handed == s.handed
            && (taken.Some? <==> t.saved != s.saved)
            && (taken.Some? ==> t.saved.Some? && taken.value == (t.saved.value.index, t.saved.value.tree) == (s.applied, s.tree))
  {
    var compactIndex;
    taken, compactIndex := node.MaybeTriggerSnapshot(s.raft.wait, false, s.tree);
  }

  // ----- Progress -----

  /** Nothing that was delivered makes the loop stop. */
  predicate Live(s: State) {
    && s.raft != Stopped
    && (s.raft.Installing? ==> s.raft.snap.index > s.applied && s.raft.a <= s.raft.b && (s.raft.a == s.raft.b || s.raft.a <= s.raft.snap.index))
    && (s.raft.Publishing? ==> s.raft.a <= s.raft.b && (s.raft.a == s.raft.b || s.raft.a <= s.applied))
  }

  /** No entry removes this node. */
  ghost predicate Stays(log: seq<Entry>) {
    forall e :: e in log ==> e != ConfChange(true)
  }

  lemma {:induction false} RunAppend(log: seq<Entry>, cap: nat, s: State, a: seq<Label>, b: seq<Label>)
    ensures Run(log, cap, s, a + b) == Run(log, cap, Run(log, cap, s, a), b)
  {
    if b == [] {
      assert a + b == a;
    } else {
      var n := |b| - 1;
      RunAppend(log, cap, s, a, b[..n]);
      RunSnoc(log, cap, s, a + b[..n], b[n]);
      RunSnoc(log, cap, Run(log, cap, s, a), b[..n], b[n]);
      assert a + b == (a + b[..n]) + [b[n]] && b == b[..n] + [b[n]];
    }
  }

  lemma RunOne(log: seq<Entry>, cap: nat, s: State, l: Label)
    ensures Run(log, cap, s, [l]) == Next(log, cap, s, l)
  {
    RunSnoc(log, cap, s, [], l);
    assert [] + [l] == [l];
  }

  /** The raft loop's side of a state. */
  predicate SameRaft(s: State, t: State) {
    t.raft == s.raft && t.applied == s.applied && t.snapIndex == s.snapIndex && t.saved == s.saved && t.handed == s.handed
  }

  /** The apply loop can always finish what it has. */
  lemma {:induction false} ApplyFinishes(log: seq<Entry>, cap: nat, s: State) returns (ls: seq<Label>)
    requires SchemaEntries(log) && Recovering(log, s)
    ensures var t := Run(log, cap, s, ls); Recovering(log, t) && t.apply == Idle && SameRaft(s, t)
    decreases if s.apply.Running? then |s.apply.todo| + 1 else if s.apply.Loading? then 1 else 0
  {
    if s.apply == Idle {
      ls := [];
    } else {
      ApplyKeepsRecovering(log, s);
      RunOne(log, cap, s, ApplyStep);
      var next := OnApply(log, s);
      ApplyStepsOn(log, s);
      var rest := ApplyFinishes(log, cap, next);
      RunAppend(log, cap, s, [ApplyStep], rest);
      ls := [ApplyStep] + rest;
    }
  }

  lemma ApplyStepsOn(log: seq<Entry>, s: State)
    requires SchemaEntries(log) && Recovering(log, s) && s.apply != Idle
    ensures var t := OnApply(log, s);
            && SameRaft(s, t)
            && (t.apply == Idle || (s.apply.Running? && t.apply.Running? && |t.apply.todo| < |s.apply.todo|))
  {
    if s.apply.Running? && s.apply.todo != [] {
      var i := s.apply.todo[0];
      NextEntryRecovers(log, s);
      var m := ApplyPayload(Machine(s.tree, false), log[i - 1].payload);
      ApplyRecovers(log, s.tree, i, s.newest, m);
      OnApplyIs(log, s, i, m);
    }
  }

  /** Rest: nothing is under way. */
  predicate AtRest(s: State) {
    s.raft == Selecting && s.apply == Idle
  }

  function Rank(pc: RaftPc): nat {
    match pc
    case Installing(_, _, _) => 3
    case Publishing(_, _) => 2
    case Triggering(_) => 1
    case _ => 0
  }

  lemma RaftStepsOn(log: seq<Entry>, cap: nat, s: State)
    requires SchemaEntries(log) && Stays(log) && Recovering(log, s) && Live(s) && s.apply == Idle && s.raft != Selecting
    ensures var t := Next(log, cap, s, RaftStep);
            Recovering(log, t) && Live(t) && Rank(t.raft) < Rank(s.raft) && s.applied <= t.applied
  {
    NextKeepsRecoveringIff(log, cap, s, RaftStep);
    if s.raft.Publishing? {
      PublishExactly(log, s);
      NewInIs(log, s);
      NothingRemoves(log, s);
    }
  }

  lemma NothingRemoves(log: seq<Entry>, s: State)
    requires Stays(log) && s.raft.Publishing? && s.raft.b <= |log|
    ensures !RemovesSelfBetween(log, Max(s.raft.a, s.applied), s.raft.b)
  {
    forall i | 0 <= i < |log| ensures log[i] != ConfChange(true) {
      assert log[i] in log;
    }
  }

  /** Everything under way comes to rest. */
  lemma {:induction false} ComesToRest(log: seq<Entry>, cap: nat, s: State) returns (ls: seq<Label>)
    requires SchemaEntries(log) && Stays(log) && Recovering(log, s) && Live(s)
    ensures var t := Run(log, cap, s, ls); Recovering(log, t) && AtRest(t) && s.applied <= t.applied
    decreases Rank(s.raft)
  {
    ls := ApplyFinishes(log, cap, s);
    var t := Run(log, cap, s, ls);
    if t.raft != Selecting {
      RaftStepsOn(log, cap, t);
      var u := Next(log, cap, t, RaftStep);
      var rest := ComesToRest(log, cap, u);
      RunOne(log, cap, t, RaftStep);
      RunAppend(log, cap, t, [RaftStep], rest);
      RunAppend(log, cap, s, ls, [RaftStep] + rest);
      ls := ls + ([RaftStep] + rest);
    }
  }

  /** From rest, one delivery of the rest of the log brings the store to the end. */
  lemma ReachesEnd(log: seq<Entry>, cap: nat, s: State) returns (ls: seq<Label>)
    requires SchemaEntries(log) && Stays(log) && Recovering(log, s) && AtRest(s)
    ensures var t := Run(log, cap, s, ls);
            t.applied == |log| && t.apply == Idle && Recovering(log, t) && t.tree == Fold(log, |log|).tree
  {
    var ready := Ready(None, s.applied, |log|);
    var u := Next(log, cap, s, ready);
    assert u == s.(raft := Publishing(s.applied, |log|));
    ReadyKeepsRecovering(log, s, None, s.applied, |log|);
    var v := Next(log, cap, u, RaftStep);
    RaftStepsOn(log, cap, u);
    PublishExactly(log, u);
    NewInIs(log, u);
    NothingRemoves(log, u);
    assert v.applied == |log|;
    var rest := ApplyFinishes(log, cap, v);
    RunOne(log, cap, s, ready);
    RunOne(log, cap, u, RaftStep);
    RunAppend(log, cap, u, [RaftStep], rest);
    RunAppend(log, cap, s, [ready], [RaftStep] + rest);
    ls := [ready] + ([RaftStep] + rest);
    EndIsFold(log, Run(log, cap, s, ls));
  }

  lemma EndIsFold(log: seq<Entry>, t: State)
    requires Recovering(log, t) && t.apply == Idle && t.applied == |log|
    ensures t.tree == Fold(log, |log|).tree
  {
    assert Cmds(log, |log|, |log|) == [];
    assert Recovers(log, t.tree, |log|, t.newest);
  }

  /** Progress: from every live state that can recover, of a log without clashing
      roles and without this node's removal, some schedule applies the whole log and
      leaves its fold in the store. */
  lemma WholeLogIsReached(log: seq<Entry>, cap: nat, s: State) returns (ls: seq<Label>)
    requires SchemaEntries(log) && Stays(log) && Recovering(log, s) && Live(s)
    ensures var t := Run(log, cap, s, ls);
            t.applied == |log| && t.apply == Idle && t.tree == Fold(log, |log|).tree
  {
    var first := ComesToRest(log, cap, s);
    var t := Run(log, cap, s, first);
    var second := ReachesEnd(log, cap, t);
    RunAppend(log, cap, s, first, second);
    ls := first + second;
  }

  /** So it is after every run, crashes included, in which no snapshot was triggered
      racily before effects that were not there yet. */
  lemma EveryRunCanFinish(log: seq<Entry>, cap: nat, ls: seq<Label>) returns (more: seq<Label>)
    requires SchemaEntries(log) && Stays(log) && HarmlessRun(log, cap, ls) && Live(Run(log, cap, Init(), ls))
    ensures var t := Run(log, cap, Init(), ls + more);
            t.applied == |log| && t.apply == Idle && t.tree == Fold(log, |log|).tree
  {
    EveryRunRecovers(log, cap, ls);
    more := WholeLogIsReached(log, cap, Run(log, cap, Init(), ls));
    RunAppend(log, cap, Init(), ls, more);
  }

  /** An installed snapshot arrives: from rest, the snapshot at i brings the indices
      and the store to i. */
  lemma SnapshotIsReached(log: seq<Entry>, cap: nat, s: State, i: nat) returns (ls: seq<Label>)
    requires SchemaEntries(log) && Recovering(log, s) && AtRest(s) && s.applied < i <= |log|
    requires s.saved.Some? ==> s.saved.value.index < i
    ensures var t := Run(log, cap, s, ls);
            t.applied == t.snapIndex == i && t.apply == Idle && t.tree == Fold(log, i).tree
  {
    var ready := Ready(Some(i), i, i);
    FoldIsReplay(log, i);
    var f := Snapshot(i, Fold(log, i).tree, i);
    var u := Next(log, cap, s, ready);
    assert u == s.(saved := Some(f), raft := Installing(f, i, i));
    var v := Next(log, cap, u, RaftStep);
    assert v.apply == Loading && v.saved == Some(f) && v.applied == i;
    var w := Next(log, cap, v, ApplyStep);
    RunOne(log, cap, s, ready);
    RunOne(log, cap, u, RaftStep);
    RunOne(log, cap, v, ApplyStep);
    RunAppend(log, cap, u, [RaftStep], [ApplyStep]);
    RunAppend(log, cap, s, [ready], [RaftStep] + [ApplyStep]);
    ls := [ready] + ([RaftStep] + [ApplyStep]);
  }

  // ----- Crashes -----

  lemma {:induction false} SnapshotsNeverAge(log: seq<Entry>, cap: nat, s: State, ls: seq<Label>)
    requires s.saved.Some?
    ensures var t := Run(log, cap, s, ls); t.saved.Some? && t.saved.value.index >= s.saved.value.index
  {
    if ls != [] {
      SnapshotsNeverAge(log, cap, s, ls[..|ls| - 1]);
      StepKeepsNewest(log, cap, Run(log, cap, s, ls[..|ls| - 1]), ls[|ls| - 1]);
    }
  }

  lemma StepKeepsNewest(log: seq<Entry>, cap: nat, s: State, l: Label)
    requires s.saved.Some?
    ensures var t := Next(log, cap, s, l); t.saved.Some? && t.saved.value.index >= s.saved.value.index
  {
  }

  /** A node that comes back stands at its newest snapshot with that snapshot's
      store, and without one at index 0 with the store it had written; whatever
      snapshot it ever had, it never comes back before it. */
  lemma CrashKeepsStore(log: seq<Entry>, cap: nat, before: seq<Label>, after: seq<Label>)
    ensures var s, t := Run(log, cap, Init(), before), Run(log, cap, Init(), before + after);
            var back := Run(log, cap, Init(), before + after + [Crash]);
            && (t.saved.None? ==> back.applied == 0 && back.tree == t.tree)
            && (t.saved.Some? ==> back.applied == t.saved.value.index && back.tree == t.saved.value.tree)
            && (s.saved.Some? ==> back.applied >= s.saved.value.index)
  {
    var s := Run(log, cap, Init(), before);
    RunAppend(log, cap, Init(), before, after);
    if s.saved.Some? {
      SnapshotsNeverAge(log, cap, s, after);
    }
    var all := before + after;
    assert (all + [Crash])[..|all|] == all;
  }
}
