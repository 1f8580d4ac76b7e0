/** The raft loop and the apply loop as two interleaved step machines
    (node.go, serveChannels; raft_impl.go, applyCommits) over one committed log.
    The commit channel is unbuffered: a batch changes hands only while the
    apply loop is idle. */
module Replication {
  import opened Strings
  import opened Storage
  import opened Commands
  import opened RaftNode

  // ----- The reference: apply the log in order, stop for good at the first error -----

  datatype Machine = Machine(tree: Tree, halted: bool)

  function ApplyPayload(m: Machine, p: Payload): Machine {
    if m.halted then m
    else
      match p
      case Garbage => m.(halted := true)
      case OtherAction => m
      case Mutation(c) =>
        var r := Mutate(m.tree, c);
        if r.Applied? then m.(tree := r.tree) else m.(halted := true)
  }

  /** The machine after the first n entries of the log. */
  function Fold(log: seq<Entry>, n: nat): Machine
    requires n <= |log|
  {
    if n == 0 then Machine(map[], false)
    else if log[n - 1].Data? then ApplyPayload(Fold(log, n - 1), log[n - 1].payload)
    else Fold(log, n - 1)
  }

  /** Indices of the data entries after a, up to b. */
  function DataIndices(log: seq<Entry>, a: nat, b: nat): seq<nat>
    requires b <= |log|
    decreases b - a
  {
    if a >= b then []
    else if log[a].Data? then [a + 1] + DataIndices(log, a + 1, b)
    else DataIndices(log, a + 1, b)
  }

  predicate RemovesSelfBetween(log: seq<Entry>, a: nat, b: nat)
    requires b <= |log|
  {
    exists i :: a <= i < b && log[i] == ConfChange(true)
  }

  // ----- States -----

  /** `newest` is the greatest log index whose effect may be in the tree. */
  datatype Snapshot = Snapshot(index: nat, tree: Tree, newest: nat)

  datatype RaftPc =
    | Selecting
    | Installing(snap: Snapshot, a: nat, b: nat)   // about to send nil on commitC
    | Publishing(a: nat, b: nat)                   // log[a..b] as CommittedEntries
    | Triggering(wait: bool)                       // maybeTriggerSnapshot; wait: applyDoneC != nil
    | Stopped

  datatype ApplyPc =
    | Idle
    | Running(from: nat, todo: seq<nat>)           // all of log[..from] is applied; todo is left of the batch
    | Loading                                      // received nil
    | Dead                                         // returned after an error

  datatype State = State(applied: nat, snapIndex: nat, raft: RaftPc, apply: ApplyPc, tree: Tree, newest: nat,
                         saved: Option<Snapshot>, handed: seq<nat>, performed: seq<nat>, skipped: set<nat>)

  function Init(): State {
    State(0, 0, Selecting, Idle, map[], 0, None, [], [], {})
  }

  /** One scheduling choice. Ready carries what raft delivers: the index of a
      snapshot to install, if any, and the committed slice log[a..b]. */
  datatype Label = Ready(snap: Option<nat>, a: nat, b: nat) | RaftStep | ApplyStep | Stop | Crash

  function Max(a: nat, b: nat): nat {
    if a < b then b else a
  }

  /** The snapshotter loads the file with the greatest index. */
  function Newest(saved: Option<Snapshot>, snap: Snapshot): Option<Snapshot> {
    if saved.Some? && saved.value.index >= snap.index then saved else Some(snap)
  }

  function Between(a: nat, b: nat): (r: set<nat>)
    ensures forall i :: i in r <==> a < i <= b
  {
    if b <= a then {} else Between(a, b - 1) + {b}
  }

  // ----- Steps: a step that is not enabled leaves the state as it is -----

  function OnReady(log: seq<Entry>, s: State, snap: Option<nat>, a: nat, b: nat): State {
    if s.raft != Selecting || a > b || b > |log| then s
    else if snap.None? then s.(raft := Publishing(a, b))
    else if snap.value > |log| || Fold(log, snap.value).halted then s
    else
      var f := Snapshot(snap.value, Fold(log, snap.value).tree, snap.value);
      s.(saved := Newest(s.saved, f), raft := Installing(f, a, b))
  }

  function OnInstall(s: State): State
    requires s.raft.Installing?
  {
    var f := s.raft.snap;
    if f.index <= s.applied then s.(raft := Stopped)
    else if s.apply != Idle then s
    else s.(apply := Loading, applied := f.index, snapIndex := f.index,
            skipped := s.skipped + Between(s.applied, f.index), raft := Publishing(s.raft.a, s.raft.b))
  }

  function OnPublish(log: seq<Entry>, s: State): State
    requires s.raft.Publishing?
  {
    var lo := Max(s.raft.a, s.applied);
    var b := s.raft.b;
    if b > |log| || s.raft.a > s.applied then s.(raft := if s.raft.a >= b then Triggering(false) else Stopped)
    else if lo >= b then s.(raft := Triggering(false))
    else if RemovesSelfBetween(log, lo, b) then s.(raft := Stopped)
    else
      var data := DataIndices(log, lo, b);
      if data == [] then s.(applied := b, raft := Triggering(false))
      else if s.apply != Idle then s
      else s.(apply := Running(lo, data), applied := b, handed := s.handed + data, raft := Triggering(true))
  }

  function OnTrigger(cap: nat, s: State): State
    requires s.raft.Triggering?
  {
    if s.applied - s.snapIndex <= cap then s.(raft := Selecting)
    else if s.raft.wait && s.apply.Running? then s
    else s.(saved := Newest(s.saved, Snapshot(s.applied, s.tree, Max(s.newest, s.applied))),
            snapIndex := s.applied, raft := Selecting)
  }

  function OnApply(log: seq<Entry>, s: State): State {
    match s.apply
    case Idle => s
    case Dead => s
    case Loading =>
      if s.saved.None? then s.(apply := Idle)
      else s.(tree := s.saved.value.tree, newest := s.saved.value.newest, apply := Idle)
    case Running(_, todo) =>
      if todo == [] then s.(apply := Idle)
      else
        var i := todo[0];
        if !(1 <= i <= |log| && log[i - 1].Data?) then s
        else
          var m := ApplyPayload(Machine(s.tree, false), log[i - 1].payload);
          if m.halted then s.(apply := Dead)
          else s.(tree := m.tree, newest := Max(s.newest, i), performed := s.performed + [i],
                  apply := Running(i, todo[1..]))
  }

  /** The process dies and starts again: the database file survives, and is
      replaced by the newest snapshot if there is one. */
  function OnCrash(s: State): State {
    var base := if s.saved.Some? then s.saved.value else Snapshot(0, s.tree, s.newest);
    State(base.index, base.index, Selecting, Idle, base.tree, base.newest, s.saved, [], [], Between(0, base.index))
  }

  function Next(log: seq<Entry>, cap: nat, s: State, l: Label): State {
    match l
    case Ready(snap, a, b) => OnReady(log, s, snap, a, b)
    case ApplyStep => OnApply(log, s)
    case Stop => s.(raft := Stopped)
    case Crash => OnCrash(s)
    case RaftStep =>
      match s.raft
      case Selecting => s
      case Stopped => s
      case Installing(_, _, _) => OnInstall(s)
      case Publishing(_, _) => OnPublish(log, s)
      case Triggering(_) => OnTrigger(cap, s)
  }

  function Run(log: seq<Entry>, cap: nat, s: State, ls: seq<Label>): State {
    if ls == [] then s else Next(log, cap, Run(log, cap, s, ls[..|ls| - 1]), ls[|ls| - 1])
  }

  /** The snapshot trigger does not wait although the apply loop has work left:
      the batch it follows carried no data. */
  predicate Racy(cap: nat, s: State) {
    s.raft == Triggering(false) && s.applied - s.snapIndex > cap && (s.apply.Running? || s.apply.Loading?)
  }

  /** No snapshot is triggered in a racy state along the run. */
  predicate Quiet(log: seq<Entry>, cap: nat, s: State, ls: seq<Label>) {
    ls == [] ||
    (var before := Run(log, cap, s, ls[..|ls| - 1]);
     Quiet(log, cap, s, ls[..|ls| - 1]) && !(ls[|ls| - 1] == RaftStep && Racy(cap, before)))
  }

  // ----- Data indices -----

  ghost predicate Increasing(s: seq<nat>) {
    forall i, j :: 0 <= i < j < |s| ==> s[i] < s[j]
  }

  lemma {:induction false} DataIndicesMeaning(log: seq<Entry>, a: nat, b: nat)
    requires b <= |log|
    ensures Increasing(DataIndices(log, a, b))
    ensures forall i :: i in DataIndices(log, a, b) <==> a < i <= b && log[i - 1].Data?
    decreases b - a
  {
    if a < b {
      DataIndicesMeaning(log, a + 1, b);
      var rest := DataIndices(log, a + 1, b);
      assert forall k :: 0 <= k < |rest| ==> rest[k] in rest;
      forall i ensures i in DataIndices(log, a, b) <==> a < i <= b && log[i - 1].Data? {
        if log[a].Data? {
          assert i in [a + 1] + rest <==> i == a + 1 || i in rest;
        }
      }
    }
  }

  /** The next data entry of a batch, and what is left after it. */
  lemma {:induction false} DataIndicesHead(log: seq<Entry>, a: nat, b: nat)
    requires b <= |log| && DataIndices(log, a, b) != []
    ensures var d := DataIndices(log, a, b);
            && a < d[0] <= b && log[d[0] - 1].Data?
            && DataIndices(log, a, d[0] - 1) == []
            && d[1..] == DataIndices(log, d[0], b)
    decreases b - a
  {
    var d := DataIndices(log, a, b);
    if !log[a].Data? {
      DataIndicesHead(log, a + 1, b);
      assert DataIndices(log, a, d[0] - 1) == DataIndices(log, a + 1, d[0] - 1);
    }
  }

  lemma {:induction false} DataIndicesAppend(log: seq<Entry>, a: nat, m: nat, b: nat)
    requires a <= m <= b <= |log|
    ensures DataIndices(log, a, b) == DataIndices(log, a, m) + DataIndices(log, m, b)
    decreases m - a
  {
    if a < m {
      DataIndicesAppend(log, a + 1, m, b);
    }
  }

  /** Entries without data leave the machine alone. */
  lemma {:induction false} FoldSkips(log: seq<Entry>, a: nat, b: nat)
    requires a <= b <= |log| && DataIndices(log, a, b) == []
    ensures Fold(log, b) == Fold(log, a)
  {
    if a < b {
      DataIndicesAppend(log, a, b - 1, b);
      assert DataIndices(log, b - 1, b) == [];
      FoldSkips(log, a, b - 1);
    }
  }

  /** Once halted, for good. */
  lemma {:induction false} FoldStaysHalted(log: seq<Entry>, a: nat, b: nat)
    requires a <= b <= |log| && Fold(log, a).halted
    ensures Fold(log, b) == Fold(log, a)
  {
    if a < b {
      FoldStaysHalted(log, a, b - 1);
    }
  }

  // ----- The steps above are the node's methods on a slice of the log -----

  /** log[a..b] as raft delivers it. */
  function Slice(log: seq<Entry>, a: nat, b: nat): seq<Indexed>
    requires b <= |log|
    decreases b - a
  {
    if a >= b then [] else [Indexed(a + 1, log[a])] + Slice(log, a + 1, b)
  }

  /** EntriesToApply keeps the part of the slice that OnPublish works on. */
  lemma {:induction false} NewerOfSlice(log: seq<Entry>, a: nat, b: nat, applied: nat)
    requires a <= b <= |log|
    ensures Newer(Slice(log, a, b), applied) == Slice(log, Max(a, applied), b)
    decreases b - a
  {
    if a < b {
      NewerOfSlice(log, a + 1, b, applied);
      assert Slice(log, a, b)[1..] == Slice(log, a + 1, b);
    }
  }

  /** PublishEntries collects exactly the data indices, and stops exactly at a
      change that removes this node. */
  lemma {:induction false} PayloadsOfSlice(log: seq<Entry>, a: nat, b: nat)
    requires b <= |log|
    ensures |Payloads(Slice(log, a, b))| == |DataIndices(log, a, b)|
    ensures forall k :: 0 <= k < |DataIndices(log, a, b)| ==> Payloads(Slice(log, a, b))[k].index == DataIndices(log, a, b)[k]
    ensures RemovesSelf(Slice(log, a, b)) <==> RemovesSelfBetween(log, a, b)
    decreases b - a
  {
    if a < b {
      PayloadsOfSlice(log, a + 1, b);
      var s, rest := Slice(log, a, b), Slice(log, a + 1, b);
      assert s[1..] == rest;
      if RemovesSelf(rest) {
        var i :| 0 <= i < |rest| && rest[i].entry == ConfChange(true);
        assert s[i + 1] == rest[i];
      }
      if RemovesSelf(s) && log[a] != ConfChange(true) {
        var i :| 0 <= i < |s| && s[i].entry == ConfChange(true);
        assert rest[i - 1] == s[i];
      }
      if log[a] == ConfChange(true) {
        assert s[0].entry == ConfChange(true);
      }
    }
  }

  // ----- Each entry is handed over once, in order -----

  ghost predicate HandedOnce(log: seq<Entry>, s: State)
    requires s.applied <= |log|
  {
    && Increasing(s.handed)
    && (forall i :: i in s.handed ==> 1 <= i <= s.applied && log[i - 1].Data? && i !in s.skipped)
    && (forall i :: i in s.skipped ==> 1 <= i <= s.applied)
    && (forall i :: 1 <= i <= s.applied && log[i - 1].Data? ==> i in s.handed || i in s.skipped)
  }

  /** What of it the apply loop has carried out. */
  ghost predicate InStep(log: seq<Entry>, s: State)
    requires s.applied <= |log|
  {
    match s.apply
    case Idle => s.performed == s.handed
    case Loading => s.performed == s.handed
    case Dead => s.performed <= s.handed
    case Running(from, todo) =>
      from <= s.applied && s.performed + todo == s.handed && todo == DataIndices(log, from, s.applied)
  }

  ghost predicate Indices(log: seq<Entry>, s: State) {
    && s.snapIndex <= s.applied <= |log|
    && (s.raft.Installing? ==> s.raft.snap.index <= |log| && s.raft.b <= |log|)
    && (s.raft.Publishing? ==> s.raft.b <= |log|)
    && HandedOnce(log, s)
    && InStep(log, s)
  }

  lemma InstallKeepsIndices(log: seq<Entry>, s: State)
    requires s.raft.Installing? && Indices(log, s)
    ensures Indices(log, OnInstall(s))
  {
  }

  lemma PublishKeepsIndices(log: seq<Entry>, s: State)
    requires s.raft.Publishing? && Indices(log, s)
    ensures Indices(log, OnPublish(log, s))
  {
    var t := OnPublish(log, s);
    var lo := Max(s.raft.a, s.applied);
    if t.applied != s.applied {
      assert lo == s.applied && t.applied == s.raft.b;
      DataIndicesMeaning(log, lo, t.applied);
      var d := DataIndices(log, lo, t.applied);
      if s.apply.Running? && d == [] {
        DataIndicesAppend(log, s.apply.from, s.applied, t.applied);
      }
      assert d == [] ==> t.handed == s.handed;
      assert t.handed == s.handed + d;
      assert forall k :: 0 <= k < |d| ==> d[k] in d;
      assert forall k :: 0 <= k < |s.handed| ==> s.handed[k] in s.handed;
      assert Increasing(t.handed);
      forall i | i in t.handed ensures i in s.handed || i in d {
      }
    }
  }

  lemma ApplyKeepsIndices(log: seq<Entry>, s: State)
    requires Indices(log, s)
    ensures Indices(log, OnApply(log, s))
  {
    if s.apply.Running? && s.apply.todo != [] {
      DataIndicesHead(log, s.apply.from, s.applied);
      var todo := s.apply.todo;
      assert todo == [todo[0]] + todo[1..];
      assert (s.performed + [todo[0]]) + todo[1..] == s.performed + todo;
    }
  }

  /** Over every interleaving of one process lifetime, with overlapping and
      repeated batches and installed snapshots: every data entry up to
      appliedIndex is handed to the apply loop exactly once and in index order
      or is covered by an installed snapshot, and appliedIndex never decreases. */
  lemma {:induction false} ExactlyOnceInOrder(log: seq<Entry>, cap: nat, ls: seq<Label>)
    requires Crash !in ls
    ensures Indices(log, Run(log, cap, Init(), ls))
    ensures ls != [] ==> Run(log, cap, Init(), ls[..|ls| - 1]).applied <= Run(log, cap, Init(), ls).applied
  {
    if ls != [] {
      var before := ls[..|ls| - 1];
      assert forall l :: l in before ==> l in ls;
      ExactlyOnceInOrder(log, cap, before);
      var s, l := Run(log, cap, Init(), before), ls[|ls| - 1];
      assert l in ls;
      NextKeepsIndices(log, cap, s, l);
    }
  }

  lemma NextKeepsIndices(log: seq<Entry>, cap: nat, s: State, l: Label)
    requires Indices(log, s) && l != Crash
    ensures Indices(log, Next(log, cap, s, l)) && s.applied <= Next(log, cap, s, l).applied
  {
    match l
    case Ready(snap, a, b) =>
    case ApplyStep => ApplyKeepsIndices(log, s);
    case Stop =>
    case RaftStep =>
      match s.raft
      case Selecting =>
      case Stopped =>
      case Installing(_, _, _) => InstallKeepsIndices(log, s);
      case Publishing(_, _) => PublishKeepsIndices(log, s);
      case Triggering(_) =>
  }

  // ----- The store is the fold of what was applied -----

  /** A snapshot has been saved that the raft loop has not announced yet. */
  predicate Ahead(s: State) {
    s.saved.Some? && s.saved.value.index > s.applied
  }

  ghost predicate SavedExact(log: seq<Entry>, s: State) {
    s.saved.Some? ==> s.saved.value.index <= |log| && s.saved.value.tree == Fold(log, s.saved.value.index).tree
  }

  /** Where the store stands in the log. While a newer snapshot is saved but
      not announced, an earlier nil may already have loaded it. */
  ghost predicate StoreIsFold(log: seq<Entry>, s: State)
    requires s.applied <= |log| && SavedExact(log, s)
  {
    match s.apply
    case Idle =>
      || Fold(log, s.applied) == Machine(s.tree, false)
      || (Ahead(s) && Fold(log, s.saved.value.index) == Machine(s.tree, false))
    case Running(from, _) => from <= s.applied && Fold(log, from) == Machine(s.tree, false)
    case Dead => Fold(log, s.applied) == Machine(s.tree, true)
    case Loading =>
      && s.saved.Some? && !Fold(log, s.saved.value.index).halted
      && DataIndices(log, s.saved.value.index, s.applied) == []
  }

  /** Only an install in progress is ahead, and it is the saved snapshot. */
  ghost predicate AheadOnlyInstalling(log: seq<Entry>, s: State) {
    && (s.saved.Some? && s.saved.value.index > s.snapIndex ==> s.raft.Installing? || s.raft.Stopped?)
    && (s.raft == Triggering(true) ==> !s.apply.Loading?)
    && (Ahead(s) && s.saved.value.index <= |log| ==> !Fold(log, s.saved.value.index).halted)
    && (s.raft.Installing? && s.raft.snap.index > s.applied ==> s.saved == Some(s.raft.snap))
    && (s.raft.Installing? && Ahead(s) ==> s.saved == Some(s.raft.snap))
  }

  ghost predicate Consistent(log: seq<Entry>, s: State) {
    Indices(log, s) && SavedExact(log, s) && StoreIsFold(log, s) && AheadOnlyInstalling(log, s)
  }

  lemma ReadyKeepsConsistent(log: seq<Entry>, s: State, snap: Option<nat>, a: nat, b: nat)
    requires Consistent(log, s)
    ensures Consistent(log, OnReady(log, s, snap, a, b))
  {
    var t := OnReady(log, s, snap, a, b);
    if t.saved != s.saved && s.apply.Loading? && t.saved.value.index <= s.applied {
      DataIndicesAppend(log, s.saved.value.index, t.saved.value.index, s.applied);
    }
  }

  lemma PublishKeepsConsistent(log: seq<Entry>, s: State)
    requires s.raft.Publishing? && Consistent(log, s)
    ensures Consistent(log, OnPublish(log, s))
  {
    PublishKeepsIndices(log, s);
    var t := OnPublish(log, s);
    if t.applied != s.applied && DataIndices(log, s.applied, t.applied) == [] {
      match s.apply
      case Idle => FoldSkips(log, s.applied, t.applied);
      case Running(from, _) =>
      case Dead => FoldStaysHalted(log, s.applied, t.applied);
      case Loading => DataIndicesAppend(log, s.saved.value.index, s.applied, t.applied);
    }
  }

  lemma TriggerKeepsConsistent(log: seq<Entry>, cap: nat, s: State)
    requires s.raft.Triggering? && Consistent(log, s) && !Racy(cap, s)
    ensures Consistent(log, OnTrigger(cap, s))
  {
  }

  lemma ApplyKeepsConsistent(log: seq<Entry>, s: State)
    requires Consistent(log, s)
    ensures Consistent(log, OnApply(log, s))
  {
    ApplyKeepsIndices(log, s);
    match s.apply
    case Idle =>
    case Dead =>
    case Loading =>
      if !Ahead(s) {
        FoldSkips(log, s.saved.value.index, s.applied);
      }
    case Running(from, todo) =>
      if todo == [] {
        FoldSkips(log, from, s.applied);
      } else {
        DataIndicesHead(log, from, s.applied);
        FoldSkips(log, from, todo[0] - 1);
        assert Fold(log, todo[0]) == ApplyPayload(Machine(s.tree, false), log[todo[0] - 1].payload);
        if Fold(log, todo[0]).halted {
          FoldStaysHalted(log, todo[0], s.applied);
        }
      }
  }

  lemma NextKeepsConsistent(log: seq<Entry>, cap: nat, s: State, l: Label)
    requires Consistent(log, s) && l != Crash && !(l == RaftStep && Racy(cap, s))
    ensures Consistent(log, Next(log, cap, s, l))
  {
    NextKeepsIndices(log, cap, s, l);
    match l
    case Ready(snap, a, b) => ReadyKeepsConsistent(log, s, snap, a, b);
    case ApplyStep => ApplyKeepsConsistent(log, s);
    case Stop =>
    case RaftStep =>
      match s.raft
      case Selecting =>
      case Stopped =>
      case Installing(_, _, _) =>
      case Publishing(_, _) => PublishKeepsConsistent(log, s);
      case Triggering(_) => TriggerKeepsConsistent(log, cap, s);
  }

  /** Over every quiet interleaving of one lifetime, for every log: the store is
      the fold of the entries applied so far (stopped for good at the first
      error), and every saved snapshot is the fold of the log up to its index. */
  lemma {:induction false} StoreFollowsLog(log: seq<Entry>, cap: nat, ls: seq<Label>)
    requires Crash !in ls && Quiet(log, cap, Init(), ls)
    ensures Consistent(log, Run(log, cap, Init(), ls))
  {
    if ls != [] {
      var before := ls[..|ls| - 1];
      assert forall l :: l in before ==> l in ls;
      StoreFollowsLog(log, cap, before);
      assert ls[|ls| - 1] in ls;
      NextKeepsConsistent(log, cap, Run(log, cap, Init(), before), ls[|ls| - 1]);
    } else {
      assert Fold(log, 0) == Machine(map[], false);
    }
  }
}
