/** The operation log of an element (coord/coordinator_kv_w.go,
    saveElementOperation): key order is time order, and the log is a history. */
module ElementHistory {
  import opened Strings
  import opened Entities
  import opened Elements

  lemma RunSnoc(actions: seq<Action>, a: Action)
    ensures Run(EMPTY, actions + [a]) == After(Run(EMPTY, actions), a)
  {
    assert (actions + [a])[..|actions + [a]| - 1] == actions;
  }

  // ----- Key order is time order -----

  lemma {:induction false} LessAtLastDigit(p: string, q: string, x: char, y: char)
    requires |p| == |q|
    ensures Less(p + [x], q + [y]) <==> Less(p, q) || (p == q && x < y)
  {
    if |p| == 0 {
      assert (p + [x])[1..] == "" && (q + [y])[1..] == "";
    } else {
      LessAtLastDigit(p[1..], q[1..], x, y);
      assert (p + [x])[1..] == p[1..] + [x] && (q + [y])[1..] == q[1..] + [y];
      assert p == q <==> p[0] == q[0] && p[1..] == q[1..] by {
        assert p == [p[0]] + p[1..] && q == [q[0]] + q[1..];
      }
    }
  }

  /** Numerals of one length compare as numbers. */
  lemma {:induction false} NumeralOrder(a: nat, b: nat)
    requires a < b && |Itoa(a)| == |Itoa(b)|
    ensures Less(Itoa(a), Itoa(b))
    decreases b
  {
    if b >= 10 {
      assert a >= 10;
      var p, q := Itoa(a / 10), Itoa(b / 10);
      LessAtLastDigit(p, q, Digit(a % 10), Digit(b % 10));
      if a / 10 < b / 10 {
        NumeralOrder(a / 10, b / 10);
      }
    } else {
      LessAtLastDigit("", "", Digit(a), Digit(b));
      assert "" + [Digit(a)] == Itoa(a) && "" + [Digit(b)] == Itoa(b);
    }
  }

  /** All operations are earlier than t and have timestamps of `len` digits. */
  ghost predicate Paced(ops: seq<Operation>, t: nat, len: nat) {
    && (forall i :: 0 <= i < |ops| ==> ops[i].operatedAt < t && |Itoa(ops[i].operatedAt)| == len)
    && (forall i, j :: 0 <= i < j < |ops| ==> ops[i].operatedAt < ops[j].operatedAt)
  }

  /** A later timestamp of the same length goes last. */
  lemma {:induction false} InsertLast(ops: seq<Operation>, o: Operation, len: nat)
    requires Paced(ops, o.operatedAt, len) && |Itoa(o.operatedAt)| == len
    ensures InsertOp(ops, o) == Some(ops + [o])
  {
    if ops != [] {
      NumeralOrder(ops[0].operatedAt, o.operatedAt);
      LessTrichotomy(Itoa(o.operatedAt), Itoa(ops[0].operatedAt));
      InsertLast(ops[1..], o, len);
      assert ops + [o] == [ops[0]] + (ops[1..] + [o]);
    } else {
      assert ops + [o] == [o];
    }
  }

  // ----- The operation log is a faithful history -----

  predicate Stamped(a: Action) {
    a.Create? || a.Update? || a.Publish? || a.Rollback?
  }

  /** Timestamps along the run strictly increase and have one length. */
  ghost predicate Timed(actions: seq<Action>, len: nat) {
    && (forall i :: 0 <= i < |actions| && Stamped(actions[i]) ==> |Itoa(actions[i].at)| == len)
    && (forall i, j :: 0 <= i < j < |actions| && Stamped(actions[i]) && Stamped(actions[j]) ==> actions[i].at < actions[j].at)
  }

  /** Read from the end, the entries of one kind hand over from each to the next
      and finish at `end`; a complete log also starts from 0. */
  ghost predicate Chain(ops: seq<Operation>, kind: OpKind, end: int, complete: bool) {
    if ops == [] then complete ==> end == 0
    else
      var o, rest := ops[|ops| - 1], ops[..|ops| - 1];
      if o.kind == kind then o.current == end && (kind == SetOp ==> o.current == o.last + 1) && Chain(rest, kind, o.last, complete)
      else Chain(rest, kind, end, complete)
  }

  function Latest(s: State): int { if s.md.None? then 0 else s.md.value.latest }
  function Using(s: State): int { if s.md.None? then 0 else s.md.value.using }

  ghost predicate Faithful(s: State, complete: bool) {
    Chain(s.ops, SetOp, Latest(s), complete) && Chain(s.ops, PublishOp, Using(s), complete)
  }

  lemma ChainSnoc(ops: seq<Operation>, o: Operation, kind: OpKind, end: int, complete: bool)
    requires Chain(ops, kind, if o.kind == kind then o.last else end, complete)
    requires o.kind == kind ==> o.current == end && (kind == SetOp ==> o.current == o.last + 1)
    ensures Chain(ops + [o], kind, end, complete)
  {
    assert (ops + [o])[..|ops + [o]| - 1] == ops;
  }

  /** What is left of a chain when a prefix is cut off is a chain to the same end. */
  lemma {:induction false} ChainSuffix(ops: seq<Operation>, k: nat, kind: OpKind, end: int, complete: bool)
    requires k <= |ops| && Chain(ops, kind, end, complete)
    ensures Chain(ops[k..], kind, end, false)
  {
    if k < |ops| {
      var o, rest := ops[|ops| - 1], ops[..|ops| - 1];
      ChainSuffix(rest, k, kind, if o.kind == kind then o.last else end, complete);
      assert ops[k..][..|ops[k..]| - 1] == rest[k..];
    }
  }

  /** Age-based removal cuts off a prefix. */
  lemma {:induction false} RecentIsSuffix(ops: seq<Operation>, cutoff: int) returns (k: nat)
    requires forall i, j :: 0 <= i < j < |ops| ==> ops[i].operatedAt < ops[j].operatedAt
    ensures k <= |ops| && Recent(ops, cutoff) == ops[k..]
  {
    if ops == [] {
      k := 0;
    } else if ops[0].operatedAt >= cutoff {
      RecentKeepsAll(ops, cutoff);
      k := 0;
    } else {
      k := RecentIsSuffix(ops[1..], cutoff);
      k := k + 1;
    }
  }

  lemma {:induction false} RecentKeepsAll(ops: seq<Operation>, cutoff: int)
    requires forall i :: 0 <= i < |ops| ==> ops[i].operatedAt >= cutoff
    ensures Recent(ops, cutoff) == ops
  {
    if ops != [] {
      RecentKeepsAll(ops[1..], cutoff);
      assert ops == [ops[0]] + ops[1..];
    }
  }

  /** The directory as it was, or with one more entry of this time at the end. */
  ghost predicate AtMostOneMore(ops: seq<Operation>, ops': seq<Operation>, at: nat) {
    ops' == ops || (|ops'| == |ops| + 1 && ops'[..|ops|] == ops && ops'[|ops|].operatedAt == at)
  }

  /** The entry a completed operation writes. */
  function Entry(s: State, t: State, a: Action): Operation
    requires Stamped(a)
  {
    if a.Create? || a.Update? then Operation(SetOp, Latest(s), Latest(t), a.at)
    else Operation(PublishOp, Using(s), Using(t), a.at)
  }

  ghost predicate WroteEntry(s: State, t: State, a: Action)
    requires Stamped(a)
  {
    var o := Entry(s, t, a);
    t == s ||
    (&& t.ops == s.ops + [o]
     && (o.kind == SetOp ==> Latest(t) == Latest(s) + 1 && Using(t) == Using(s))
     && (o.kind == PublishOp ==> Latest(t) == Latest(s)))
  }

  lemma StampedWritesEntry(s: State, a: Action, len: nat)
    requires Inv(s) && Stamped(a) && Paced(s.ops, a.at, len) && |Itoa(a.at)| == len
    ensures WroteEntry(s, After(s, a), a)
  {
    var t := After(s, a);
    if t != s {
      InsertLast(s.ops, Entry(s, t, a), len);
    }
  }

  lemma StepIsFaithful(s: State, a: Action, len: nat, complete: bool)
    requires Inv(s) && Faithful(s, complete)
    requires Stamped(a) ==> Paced(s.ops, a.at, len) && |Itoa(a.at)| == len
    requires a.Compact? ==> !complete && forall i, j :: 0 <= i < j < |s.ops| ==> s.ops[i].operatedAt < s.ops[j].operatedAt
    ensures Faithful(After(s, a), complete)
    ensures Stamped(a) ==> AtMostOneMore(s.ops, After(s, a).ops, a.at)
  {
    if a.Compact? {
      CompactIsFaithful(s, a, complete);
    } else if Stamped(a) {
      StampedWritesEntry(s, a, len);
      EntryIsFaithful(s, After(s, a), a, complete);
    }
  }

  lemma CompactIsFaithful(s: State, a: Action, complete: bool)
    requires a.Compact? && Faithful(s, complete) && !complete
    requires forall i, j :: 0 <= i < j < |s.ops| ==> s.ops[i].operatedAt < s.ops[j].operatedAt
    ensures Faithful(After(s, a), false)
  {
    var k := RecentIsSuffix(s.ops, a.opCutoff);
    ChainSuffix(s.ops, k, SetOp, Latest(s), complete);
    ChainSuffix(s.ops, k, PublishOp, Using(s), complete);
  }

  lemma EntryIsFaithful(s: State, t: State, a: Action, complete: bool)
    requires Stamped(a) && Faithful(s, complete) && WroteEntry(s, t, a)
    ensures Faithful(t, complete) && AtMostOneMore(s.ops, t.ops, a.at)
  {
    if t != s {
      var o := Entry(s, t, a);
      ChainSnoc(s.ops, o, SetOp, Latest(t), complete);
      ChainSnoc(s.ops, o, PublishOp, Using(t), complete);
    }
  }

  lemma RecentIsPaced(ops: seq<Operation>, cutoff: int, t: nat, len: nat)
    requires Paced(ops, t, len)
    ensures Paced(Recent(ops, cutoff), t, len)
  {
    var k := RecentIsSuffix(ops, cutoff);
    assert forall i :: 0 <= i < |ops[k..]| ==> ops[k..][i] == ops[k + i];
  }

  lemma OneMoreIsPaced(ops: seq<Operation>, ops': seq<Operation>, at: nat, t: nat, len: nat)
    requires Paced(ops, at, len) && AtMostOneMore(ops, ops', at) && at < t && |Itoa(at)| == len
    ensures Paced(ops', t, len)
  {
    if ops' != ops {
      assert ops' == ops + [ops'[|ops|]];
    }
  }

  lemma StepIsPaced(s: State, a: Action, len: nat, t: nat)
    requires Inv(s) && Faithful(s, false) && Paced(s.ops, if Stamped(a) then a.at else t, len)
    requires Stamped(a) ==> a.at < t && |Itoa(a.at)| == len
    ensures Paced(After(s, a).ops, t, len)
  {
    if Stamped(a) {
      StepIsFaithful(s, a, len, false);
      OneMoreIsPaced(s.ops, After(s, a).ops, a.at, t, len);
    } else if a.Compact? {
      RecentIsPaced(s.ops, a.opCutoff, t, len);
    }
  }

  lemma {:induction false} ChainWeakens(ops: seq<Operation>, kind: OpKind, end: int, complete: bool)
    requires Chain(ops, kind, end, complete)
    ensures Chain(ops, kind, end, false)
  {
    ChainSuffix(ops, 0, kind, end, complete);
    assert ops[0..] == ops;
  }

  lemma FaithfulWeakens(s: State, complete: bool)
    requires Faithful(s, complete)
    ensures Faithful(s, false)
  {
    ChainWeakens(s.ops, SetOp, Latest(s), complete);
    ChainWeakens(s.ops, PublishOp, Using(s), complete);
  }

  ghost predicate Uncompacted(actions: seq<Action>) {
    forall a :: a in actions ==> !a.Compact?
  }

  lemma HistoryStep(s: State, a: Action, len: nat, t: nat, before: bool, complete: bool)
    requires Inv(s) && Faithful(s, before) && Paced(s.ops, if Stamped(a) then a.at else t, len)
    requires Stamped(a) ==> a.at < t && |Itoa(a.at)| == len
    requires complete ==> before && !a.Compact?
    ensures Faithful(After(s, a), complete) && Paced(After(s, a).ops, t, len)
  {
    FaithfulWeakens(s, before);
    StepIsFaithful(s, a, len, complete);
    StepIsPaced(s, a, len, t);
  }

  /** With strictly increasing timestamps of one length, the directory in key
      order is the history: SET entries count up to latest, PUBLISH entries
      hand over to the version in use, from 0 if nothing was compacted, and
      compaction leaves contiguous chains to the same ends. */
  lemma {:induction false} HistoryIsFaithful(actions: seq<Action>, len: nat, t: nat)
    requires Timed(actions, len)
    requires forall i :: 0 <= i < |actions| && Stamped(actions[i]) ==> actions[i].at < t
    ensures Faithful(Run(EMPTY, actions), Uncompacted(actions))
    ensures Paced(Run(EMPTY, actions).ops, t, len)
  {
    if actions != [] {
      var prev, a := actions[..|actions| - 1], actions[|actions| - 1];
      HistoryIsFaithful(prev, len, if Stamped(a) then a.at else t);
      EveryRunIsCoherent(prev);
      assert forall x :: x in prev ==> x in actions;
      assert a in actions;
      HistoryStep(Run(EMPTY, prev), a, len, t, Uncompacted(prev), Uncompacted(actions));
    }
  }

  // ----- The log is in key order, whatever its times -----

  ghost predicate InKeyOrder(ops: seq<Operation>) {
    forall i, j :: 0 <= i < j < |ops| ==> Before(ops[i], ops[j])
  }

  /** In such a log an entry is refused exactly when its time is taken. */
  lemma {:induction false} RefusedIffTaken(ops: seq<Operation>, o: Operation)
    requires InKeyOrder(ops)
    ensures InsertOp(ops, o).None? <==> exists i :: 0 <= i < |ops| && ops[i].operatedAt == o.operatedAt
  {
    InsertMeans(ops, o);
    if i :| 0 <= i < |ops| && ops[i].operatedAt == o.operatedAt {
      if i > 0 {
        LessTrichotomy(Itoa(o.operatedAt), Itoa(ops[0].operatedAt));
        assert Before(ops[0], ops[i]) && ops[1..][i - 1] == ops[i];
        RefusedIffTaken(ops[1..], o);
      }
    }
  }

  lemma {:induction false} InsertKeepsOrder(ops: seq<Operation>, o: Operation)
    requires InKeyOrder(ops) && InsertOp(ops, o).Some?
    ensures InKeyOrder(InsertOp(ops, o).value)
    ensures forall x :: x in InsertOp(ops, o).value <==> x in ops || x == o
  {
    if ops != [] {
      assert ops == [ops[0]] + ops[1..];
      LessTrichotomy(Itoa(o.operatedAt), Itoa(ops[0].operatedAt));
      if Itoa(o.operatedAt) == Itoa(ops[0].operatedAt) {
        ItoaInjective(o.operatedAt, ops[0].operatedAt);
      }
      if Before(o, ops[0]) {
        forall j | 0 <= j < |ops| ensures Before(o, ops[j]) {
          if j > 0 {
            LessTransitive(Itoa(o.operatedAt), Itoa(ops[0].operatedAt), Itoa(ops[j].operatedAt));
          }
        }
      } else {
        InsertKeepsOrder(ops[1..], o);
        var rest := InsertOp(ops[1..], o).value;
        forall j | 0 <= j < |rest| ensures Before(ops[0], rest[j]) {
          assert rest[j] in rest;
        }
      }
    }
  }

  lemma {:induction false} RecentKeepsOrder(ops: seq<Operation>, cutoff: int)
    requires InKeyOrder(ops)
    ensures InKeyOrder(Recent(ops, cutoff)) && forall x :: x in Recent(ops, cutoff) ==> x in ops
  {
    if ops != [] {
      assert ops == [ops[0]] + ops[1..];
      RecentKeepsOrder(ops[1..], cutoff);
      var rest := Recent(ops[1..], cutoff);
      forall j | 0 <= j < |rest| ensures Before(ops[0], rest[j]) {
        assert rest[j] in rest;
      }
    }
  }

  lemma LoggedKeepsOrder(s: State, kind: OpKind, last: int, current: int, at: nat)
    requires InKeyOrder(s.ops)
    ensures InKeyOrder(Logged(s, kind, last, current, at).ops)
  {
    var o := Operation(kind, last, current, at);
    if InsertOp(s.ops, o).Some? {
      InsertKeepsOrder(s.ops, o);
    }
  }

  lemma StoppedKeepsOrder(s: State, a: Action, writes: nat)
    requires InKeyOrder(s.ops)
    ensures InKeyOrder(Stopped(s, a, writes).ops)
  {
    var t := Stopped(s, a, writes);
    if Starts(s, a) && writes > 0 && t.ops != s.ops {
      match a
      case Create(_, _, at) => LoggedKeepsOrder(s, SetOp, 0, 1, at);
      case Update(_, _, at) => LoggedKeepsOrder(s, SetOp, s.md.value.latest, Int32(s.md.value.latest + 1), at);
      case Publish(v, _, at) => LoggedKeepsOrder(s, PublishOp, s.md.value.using, s.versions[PublishTarget(s.md.value, v)].version, at);
      case Rollback(v, at) => LoggedKeepsOrder(s, PublishOp, s.md.value.using, s.versions[v].version, at);
      case Delete =>
      case Compact(_, cutoff) => RecentKeepsOrder(s.ops, cutoff);
    }
  }

  /** Over every run of operations, stopped ones included, the log is in key order. */
  lemma {:induction false} EveryLogIsInKeyOrder(steps: seq<(Action, nat)>)
    ensures InKeyOrder(RunStopped(EMPTY, steps).ops)
  {
    if steps != [] {
      var n := |steps| - 1;
      EveryLogIsInKeyOrder(steps[..n]);
      StoppedKeepsOrder(RunStopped(EMPTY, steps[..n]), steps[n].0, steps[n].1);
    }
  }
}
