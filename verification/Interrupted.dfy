/** Elements after operations that stopped half way, and what a rollback brings
    into use (coord/coordinator_kv_w.go). A step is an operation and the number
    of its writes that went through. */
module Interrupted {
  import opened Strings
  import opened Entities
  import opened Elements
  import opened ElementHistory

  // ----- An update that lost its metadata write -----

  /** A version record above `latest`, the next one an update would write. */
  predicate OrphanAt(t: State, latest: int) {
    t.md.Some? && t.md.value.latest == latest && 0 <= latest && latest + 1 < TWO_31 && latest + 1 in t.versions
  }

  /** The steps that take the orphan away: deleting the element, or a compaction
      that keeps neither its number nor it as the version in use. */
  predicate TakesOrphan(t: State, a: Action, writes: nat, latest: nat) {
    && writes >= 1
    && (a.Delete? || (a.Compact? && t.md.Some? && latest + 1 !in a.kept && !Protected(t.md.value, latest + 1)))
  }

  lemma StoppedUpdateLeavesOrphan(s: State, a: Action)
    requires Inv(s) && a.Update? && Starts(s, a)
    ensures OrphanAt(Stopped(s, a, 1), s.md.value.latest)
  {
  }

  /** One step leaves the orphan in place if and only if it is none of those. */
  lemma OrphanStaysIff(t: State, a: Action, writes: nat, latest: nat)
    requires OrphanAt(t, latest)
    ensures OrphanAt(Stopped(t, a, writes), latest) <==> !TakesOrphan(t, a, writes, latest)
    ensures a.Update? ==> Stopped(t, a, writes) == t
  {
    if a.Publish? && Starts(t, a) {
      var v := PublishTarget(t.md.value, a.version);
      assert latest + 1 in Save(t.versions, v, t.versions[v].version, t.versions[v].raw, true, a.now);
    }
  }

  /** Over every run from an orphan on, complete or stopped operations alike: no
      update changes anything until a step takes the orphan away. */
  lemma {:induction false} OrphanBlocksUpdates(t: State, latest: nat, steps: seq<(Action, nat)>, a: Action, writes: nat)
    requires OrphanAt(t, latest) && a.Update?
    requires forall n :: 0 <= n < |steps| ==> !TakesOrphan(RunStopped(t, steps[..n]), steps[n].0, steps[n].1, latest)
    ensures OrphanAt(RunStopped(t, steps), latest)
    ensures Stopped(RunStopped(t, steps), a, writes) == RunStopped(t, steps)
  {
    if steps != [] {
      var k := |steps| - 1;
      forall n | 0 <= n < k ensures !TakesOrphan(RunStopped(t, steps[..k][..n]), steps[..k][n].0, steps[..k][n].1, latest) {
        assert steps[..k][..n] == steps[..n];
      }
      OrphanBlocksUpdates(t, latest, steps[..k], a, writes);
      OrphanStaysIff(RunStopped(t, steps[..k]), steps[k].0, steps[k].1, latest);
    }
    OrphanStaysIff(RunStopped(t, steps), a, writes, latest);
  }

  /** A compaction that drops the orphan heals the element: the invariant holds
      again and the next update gets to its writes. */
  lemma CompactionHeals(s: State, a: Action, kept: set<nat>, cutoff: int, next: Action)
    requires Inv(s) && a.Update? && Starts(s, a) && s.md.value.latest + 1 !in kept && next.Update?
    ensures var r := After(Stopped(s, a, 1), Compact(kept, cutoff));
            Inv(r) && Starts(r, next)
  {
    var v := s.md.value.latest + 1;
    var t := Stopped(s, a, 1);
    assert t == s.(versions := Save(s.versions, v, v, a.raw, false, a.now));
    var r := After(t, Compact(kept, cutoff));
    assert r.md == s.md && v !in r.versions;
    assert forall n :: n in r.versions ==> n in s.versions && r.versions[n] == s.versions[n];
  }

  /** Publishing the orphan instead, with however many writes, puts a version in
      use that lies above latest. */
  lemma PublishedOrphanIsAboveLatest(s: State, a: Action, now: int, at: nat, writes: nat)
    requires Inv(s) && a.Update? && Starts(s, a) && writes >= 1
    ensures var v := s.md.value.latest + 1;
            var r := Stopped(Stopped(s, a, 1), Publish(v, now, at), writes);
            r.md.Some? && r.md.value.using == v > r.md.value.latest && !Inv(r)
  {
  }

  // ----- A create that lost its version write -----

  /** Until the element is deleted no operation changes anything. */
  lemma {:induction false} HalfCreatedIsStuck(s: State, a: Action, steps: seq<(Action, nat)>)
    requires Inv(s) && a.Create? && Starts(s, a)
    requires forall n :: 0 <= n < |steps| ==> !(steps[n].0.Delete? && steps[n].1 >= 1)
    ensures RunStopped(Stopped(s, a, 1), steps) == Stopped(s, a, 1)
    ensures Stopped(Stopped(s, a, 1), Delete, 1) == EMPTY
  {
    if steps != [] {
      HalfCreatedIsStuck(s, a, steps[..|steps| - 1]);
    }
  }

  // ----- Whether the version in use was published -----

  predicate InUsePublished(s: State) {
    s.md.None? || s.md.value.using == 0 ||
    (s.md.value.using > 0 && s.md.value.using in s.versions && s.versions[s.md.value.using].published)
  }

  /** A step that brings a version into use brings a published one: a rollback to
      a published version, a publish that gets to set the flag or finds it set. */
  predicate ServesPublished(s: State, a: Action, writes: nat) {
    && (a.Rollback? && Starts(s, a) && writes >= 1 ==> s.versions[a.version].published)
    && (a.Publish? && Starts(s, a) && writes == 1 ==> s.versions[PublishTarget(s.md.value, a.version)].published)
  }

  predicate Numbered(s: State) {
    forall n :: n in s.versions ==> s.versions[n].version == n
  }

  lemma StoppedKeepsNumbers(s: State, a: Action, writes: nat)
    requires Numbered(s)
    ensures Numbered(Stopped(s, a, writes))
  {
  }

  lemma ServesPublishedIff(s: State, a: Action, writes: nat)
    requires Numbered(s) && InUsePublished(s)
    ensures InUsePublished(Stopped(s, a, writes)) <==> ServesPublished(s, a, writes)
  {
    if a.Publish? && Starts(s, a) && writes >= 1 {
      var v := PublishTarget(s.md.value, a.version);
      var t := Stopped(s, a, writes);
      assert t.md.Some? && t.md.value.using == v;
    }
  }

  /** For every version: the one in use after a rollback is the target, published
      if and only if the target was. Rollback itself does not ask. */
  lemma RollbackServesItsTarget(s: State, v: nat, at: nat, writes: nat)
    requires Inv(s) && Starts(s, Rollback(v, at)) && writes >= 1
    ensures var t := Stopped(s, Rollback(v, at), writes);
            t.md.Some? && t.md.value.using == v && (InUsePublished(t) <==> s.versions[v].published)
  {
  }

  lemma {:induction false} NumberedRun(steps: seq<(Action, nat)>)
    ensures Numbered(RunStopped(EMPTY, steps))
  {
    if steps != [] {
      NumberedRun(steps[..|steps| - 1]);
      StoppedKeepsNumbers(RunStopped(EMPTY, steps[..|steps| - 1]), steps[|steps| - 1].0, steps[|steps| - 1].1);
    }
  }

  /** Over every run, stopped operations included: the version in use is always
      a published one if and only if every step serves a published version. */
  lemma AlwaysPublishedIff(steps: seq<(Action, nat)>)
    ensures (forall n :: 0 <= n <= |steps| ==> InUsePublished(RunStopped(EMPTY, steps[..n])))
            <==> forall n :: 0 <= n < |steps| ==> ServesPublished(RunStopped(EMPTY, steps[..n]), steps[n].0, steps[n].1)
  {
    if forall n :: 0 <= n <= |steps| ==> InUsePublished(RunStopped(EMPTY, steps[..n])) {
      forall n | 0 <= n < |steps| ensures ServesPublished(RunStopped(EMPTY, steps[..n]), steps[n].0, steps[n].1) {
        assert InUsePublished(RunStopped(EMPTY, steps[..n])) && InUsePublished(RunStopped(EMPTY, steps[..n + 1]));
        RunStoppedStep(EMPTY, steps, n);
        NumberedRun(steps[..n]);
        ServesPublishedIff(RunStopped(EMPTY, steps[..n]), steps[n].0, steps[n].1);
      }
    }
    if forall n :: 0 <= n < |steps| ==> ServesPublished(RunStopped(EMPTY, steps[..n]), steps[n].0, steps[n].1) {
      forall n | 0 <= n <= |steps| ensures InUsePublished(RunStopped(EMPTY, steps[..n])) {
        ServingRunIsPublished(steps, n);
      }
    }
  }

  lemma {:induction false} ServingRunIsPublished(steps: seq<(Action, nat)>, n: nat)
    requires n <= |steps|
    requires forall m :: 0 <= m < |steps| ==> ServesPublished(RunStopped(EMPTY, steps[..m]), steps[m].0, steps[m].1)
    ensures InUsePublished(RunStopped(EMPTY, steps[..n]))
  {
    if n > 0 {
      ServingRunIsPublished(steps, n - 1);
      RunStoppedStep(EMPTY, steps, n - 1);
      NumberedRun(steps[..n - 1]);
      ServesPublishedIff(RunStopped(EMPTY, steps[..n - 1]), steps[n - 1].0, steps[n - 1].1);
    }
  }

  // ----- Such a rollback target is reachable -----

  lemma UpdateDone(s: State, m: Metadata, raw: Bytes, now: int, at: nat, next: nat, len: nat)
    requires Inv(s) && s.md == Some(m) && m.unpublished == 0 && m.latest + 1 < TWO_31
    requires Paced(s.ops, at, len) && |Itoa(at)| == len && at < next
    ensures var t := After(s, Update(raw, now, at));
            && t.md == Some(m.(latest := m.latest + 1, unpublished := m.latest + 1))
            && t.versions == s.versions[m.latest + 1 := Element(m.latest + 1, raw, false, now)]
            && Inv(t) && Paced(t.ops, next, len)
  {
    var v := m.latest + 1;
    LogGrows(s.ops, Operation(SetOp, m.latest, v, at), next, len);
    SaveMeans(s.versions, v, v, raw, false, now);
    CompleteKeepsInv(s, Update(raw, now, at));
    assert Starts(s, Update(raw, now, at));
    assert After(s, Update(raw, now, at)).ops == s.ops + [Operation(SetOp, m.latest, v, at)];
  }

  lemma LogGrows(ops: seq<Operation>, o: Operation, next: nat, len: nat)
    requires Paced(ops, o.operatedAt, len) && |Itoa(o.operatedAt)| == len && o.operatedAt < next
    ensures InsertOp(ops, o) == Some(ops + [o]) && Paced(ops + [o], next, len)
  {
    InsertLast(ops, o, len);
  }

  lemma PublishDone(s: State, m: Metadata, v: nat, now: int, at: nat, next: nat, len: nat)
    requires Inv(s) && s.md == Some(m) && v in s.versions && Paced(s.ops, at, len) && |Itoa(at)| == len && at < next
    ensures var t := After(s, Publish(v, now, at));
            && t.md == Some(m.(using := v, fingerprint := Md5(s.versions[v].raw), unpublished := 0))
            && t.versions == s.versions[v := s.versions[v].(published := true)]
            && Inv(t) && Paced(t.ops, next, len)
  {
    LogGrows(s.ops, Operation(PublishOp, m.using, v, at), next, len);
    SaveMeans(s.versions, v, v, s.versions[v].raw, true, now);
    CompleteKeepsInv(s, Publish(v, now, at));
  }

  /** Increasing times of one length, from the given one on. */
  ghost predicate Times(at: seq<nat>, n: nat, len: nat) {
    && |at| == n && (forall i :: 0 <= i < n ==> |Itoa(at[i])| == len)
    && (forall i, j :: 0 <= i < j < n ==> at[i] < at[j])
  }

  /** Draft and then republish `u`, which passes the draft over. */
  lemma PassOver(s: State, m: Metadata, raw: Bytes, u: nat, now: int, at: seq<nat>, len: nat)
    requires Inv(s) && s.md == Some(m) && m.unpublished == 0 && m.latest + 1 < TWO_31
    requires u in s.versions && Times(at, 3, len) && Paced(s.ops, at[0], len)
    ensures var v := m.latest + 1;
            var t := After(After(s, Update(raw, now, at[0])), Publish(u, now, at[1]));
            && t.md.Some? && t.md.value.unpublished == 0 && t.md.value.latest == v
            && v in t.versions && !t.versions[v].published && u in t.versions
            && Inv(t) && Paced(t.ops, at[2], len)
  {
    UpdateDone(s, m, raw, now, at[0], at[1], len);
    var mid := After(s, Update(raw, now, at[0]));
    PublishDone(mid, mid.md.value, u, now, at[1], at[2], len);
  }

  /** Draft and publish the next version, which leaves the others as they are. */
  lemma Advance(s: State, m: Metadata, raw: Bytes, now: int, at: seq<nat>, len: nat)
    requires Inv(s) && s.md == Some(m) && m.unpublished == 0 && m.latest + 1 < TWO_31
    requires Times(at, 3, len) && Paced(s.ops, at[0], len)
    ensures var t := After(After(s, Update(raw, now, at[0])), Publish(m.latest + 1, now, at[1]));
            && t.md.Some? && t.md.value.using == m.latest + 1
            && forall n :: n in s.versions ==> n in t.versions && t.versions[n] == s.versions[n]
  {
    UpdateDone(s, m, raw, now, at[0], at[1], len);
    var mid := After(s, Update(raw, now, at[0]));
    PublishDone(mid, mid.md.value, m.latest + 1, now, at[1], at[2], len);
  }

  /** From any state with a stored version u and no draft, at any later times of one
      length: draft v, publish u again, draft and publish the next one. Version v
      can then be rolled back to, and was never published. */
  lemma PassedOverDraft(s: State, t: State, u: nat, v: nat, raw: Bytes, raw': Bytes, now: int, at: seq<nat>, len: nat)
    requires Inv(s) && s.md.Some? && s.md.value.unpublished == 0 && v == s.md.value.latest + 1 && v + 1 < TWO_31
    requires u in s.versions && Times(at, 5, len) && Paced(s.ops, at[0], len)
    requires t == After(After(s, Update(raw, now, at[0])), Publish(u, now, at[1]))
    ensures var end := After(After(t, Update(raw', now, at[2])), Publish(v + 1, now, at[3]));
            Starts(end, Rollback(v, at[4])) && !end.versions[v].published
  {
    PassOver(s, s.md.value, raw, u, now, at[..3], len);
    Advance(t, t.md.value, raw', now, at[2..], len);
  }

  /** Such a state is reached: create an element and publish it. */
  lemma FirstPublish(raw: Bytes, now: int, at: seq<nat>, len: nat)
    requires Times(at, 3, len)
    ensures var s := After(After(EMPTY, Create(raw, now, at[0])), Publish(1, now, at[1]));
            && Inv(s) && s.md.Some? && s.md.value.unpublished == 0 && s.md.value.latest == 1
            && 1 in s.versions && Paced(s.ops, at[2], len)
  {
    var s := After(EMPTY, Create(raw, now, at[0]));
    InsertLast([], Operation(SetOp, 0, 1, at[0]), len);
    CompleteKeepsInv(EMPTY, Create(raw, now, at[0]));
    PublishDone(s, s.md.value, 1, now, at[1], at[2], len);
  }
}
