/** The life of one element (coord/coordinator_kv_w.go): its metadata record,
    its version records and its operation log, each operation a series of
    separate key writes. */
module Elements {
  import opened Strings
  import opened Entities

  datatype Metadata = Metadata(latest: int, unpublished: int, using: int, fingerprint: Fingerprint)

  datatype Element = Element(version: int, raw: Bytes, published: bool, createdAt: int)

  datatype OpKind = SetOp | PublishOp

  datatype Operation = Operation(kind: OpKind, last: int, current: int, operatedAt: nat)

  /** The element's keys: the metadata record, the version record under each
      "v<n>", and the operations directory in cursor order. */
  datatype State = State(md: Option<Metadata>, versions: map<nat, Element>, ops: seq<Operation>)

  const EMPTY := State(None, map[], [])

  // ----- The operations directory -----

  predicate Before(a: Operation, b: Operation) {
    Less(Itoa(a.operatedAt), Itoa(b.operatedAt))
  }

  /** Writing a new key puts it where byte order says; an existing key is refused. */
  function InsertOp(ops: seq<Operation>, o: Operation): Option<seq<Operation>> {
    if ops == [] then Some([o])
    else if ops[0].operatedAt == o.operatedAt then None
    else if Before(o, ops[0]) then Some([o] + ops)
    else
      match InsertOp(ops[1..], o)
      case None => None
      case Some(rest) => Some([ops[0]] + rest)
  }

  /** An entry is refused only when its time is taken, and otherwise added. */
  lemma {:induction false} InsertMeans(ops: seq<Operation>, o: Operation)
    ensures InsertOp(ops, o).None? ==> exists i :: 0 <= i < |ops| && ops[i].operatedAt == o.operatedAt
    ensures InsertOp(ops, o).Some? ==> multiset(InsertOp(ops, o).value) == multiset(ops) + multiset{o}
  {
    if ops != [] {
      assert ops == [ops[0]] + ops[1..];
      InsertMeans(ops[1..], o);
      if InsertOp(ops[1..], o).None? && InsertOp(ops, o).None? && ops[0].operatedAt != o.operatedAt {
        var i :| 0 <= i < |ops[1..]| && ops[1..][i].operatedAt == o.operatedAt;
        assert ops[i + 1].operatedAt == o.operatedAt;
      }
    }
  }

  // ----- Writing a version record -----

  /** What the KV store holds of a version: saveRaw never sets a TTL. */
  function Record(e: Element): Entity {
    NewEntityWithCreated("", e.raw, 0, e.createdAt, e.createdAt)
  }

  /** saveRaw on a version key: the creation time is what SetKV makes of the
      record already there. */
  function Save(versions: map<nat, Element>, n: nat, version: int, raw: Bytes, published: bool, now: int): map<nat, Element> {
    var last := if n in versions then Some(Record(versions[n])) else None;
    versions[n := Element(version, raw, published, PrepareSet(last, "", raw, 0, true, now).entity.createdAt)]
  }

  /** The record saved is the one asked for, and age is measured from creation:
      saving again keeps the creation time. */
  lemma SaveMeans(versions: map<nat, Element>, n: nat, version: int, raw: Bytes, published: bool, now: int)
    ensures Save(versions, n, version, raw, published, now) ==
            versions[n := Element(version, raw, published, if n in versions then versions[n].createdAt else now)]
  {
    if n in versions {
      OverwriteKeepsCreatedAt(Record(versions[n]), "", raw, 0, now);
    }
  }

  // ----- Completed operations -----

  datatype Action =
    | Create(raw: Bytes, now: int, at: nat)
    | Update(raw: Bytes, now: int, at: nat)
    | Publish(version: nat, now: int, at: nat)
    | Rollback(version: nat, at: nat)
    | Delete
    | Compact(kept: set<nat>, opCutoff: int)

  /** Publishing version 0 means the draft, if there is one. */
  function PublishTarget(md: Metadata, version: nat): int {
    if version == 0 && md.unpublished != 0 then md.unpublished else version
  }

  /** Whether an operation gets past its checks to its first write. */
  predicate Starts(s: State, a: Action) {
    match a
    case Create(_, _, _) => s.md.None?
    case Update(_, _, _) =>
      s.md.Some? && s.md.value.unpublished == 0 &&
      (var v := Int32(s.md.value.latest + 1); v >= 1 && v !in s.versions)
    case Publish(version, _, _) =>
      s.md.Some? && (var v := PublishTarget(s.md.value, version); v > 0 && v in s.versions)
    case Rollback(version, _) =>
      s.md.Some? && version > 0 && version in s.versions && s.md.value.using > Int32(version)
    case Delete => true
    case Compact(_, _) => s.md.Some?
  }

  function WithOp(s: State, kind: OpKind, last: int, current: int, at: nat): Option<State> {
    match InsertOp(s.ops, Operation(kind, last, current, at))
    case None => None
    case Some(ops) => Some(s.(ops := ops))
  }

  /** The effect of an operation all of whose writes succeed. */
  function Complete(s: State, a: Action): Option<State> {
    if a.Publish? && s.md.Some? && PublishTarget(s.md.value, a.version) == 0 then Some(s)
    else if !Starts(s, a) then None
    else match a
      case Create(raw, now, at) =>
        if 1 in s.versions then None
        else WithOp(State(Some(Metadata(1, 1, 0, NoFingerprint)), Save(s.versions, 1, 1, raw, false, now), s.ops), SetOp, 0, 1, at)
      case Update(raw, now, at) =>
        var m := s.md.value;
        var v := Int32(m.latest + 1);
        WithOp(State(Some(m.(latest := v, unpublished := v)), Save(s.versions, v, v, raw, false, now), s.ops), SetOp, m.latest, v, at)
      case Publish(version, now, at) =>
        var m := s.md.value;
        var v := PublishTarget(m, version);
        var e := s.versions[v];
        WithOp(State(Some(m.(using := e.version, fingerprint := Md5(e.raw), unpublished := 0)),
                     Save(s.versions, v, e.version, e.raw, true, now), s.ops), PublishOp, m.using, e.version, at)
      case Rollback(version, at) =>
        var m, e := s.md.value, s.versions[version];
        WithOp(s.(md := Some(m.(using := e.version, fingerprint := Md5(e.raw)))), PublishOp, m.using, e.version, at)
      case Delete => Some(EMPTY)
      case Compact(kept, opCutoff) =>
        Some(s.(versions := map n | n in s.versions && (n in kept || Protected(s.md.value, n)) :: s.versions[n],
                ops := Recent(s.ops, opCutoff)))
  }

  /** Compaction always keeps the version in use and the draft. */
  predicate Protected(md: Metadata, n: nat) {
    n > 0 && (n == md.using || n == md.unpublished)
  }

  function Recent(ops: seq<Operation>, cutoff: int): seq<Operation> {
    if ops == [] then []
    else if ops[0].operatedAt >= cutoff then [ops[0]] + Recent(ops[1..], cutoff)
    else Recent(ops[1..], cutoff)
  }

  /** A run of completed operations: one that does not complete is left out. */
  function After(s: State, a: Action): State {
    match Complete(s, a)
    case None => s
    case Some(t) => t
  }

  function Run(s: State, actions: seq<Action>): State {
    if actions == [] then s else After(Run(s, actions[..|actions| - 1]), actions[|actions| - 1])
  }

  // ----- Operations that stop after some of their writes -----

  /** The log entry as the last write: nothing happens if its key exists. */
  function Logged(s: State, kind: OpKind, last: int, current: int, at: nat): State {
    match WithOp(s, kind, last, current, at)
    case None => s
    case Some(t) => t
  }

  /** What an operation leaves when its first `writes` writes go through. */
  function Stopped(s: State, a: Action, writes: nat): State {
    if !Starts(s, a) || writes == 0 then s
    else match a
      case Create(raw, now, at) =>
        var first := s.(md := Some(Metadata(1, 1, 0, NoFingerprint)));
        if writes == 1 || 1 in s.versions then first
        else
          var second := first.(versions := Save(s.versions, 1, 1, raw, false, now));
          if writes == 2 then second else Logged(second, SetOp, 0, 1, at)
      case Update(raw, now, at) =>
        var m := s.md.value;
        var v := Int32(m.latest + 1);
        var first := s.(versions := Save(s.versions, v, v, raw, false, now));
        if writes == 1 then first
        else
          var second := first.(md := Some(m.(latest := v, unpublished := v)));
          if writes == 2 then second else Logged(second, SetOp, m.latest, v, at)
      case Publish(version, now, at) =>
        var m := s.md.value;
        var v := PublishTarget(m, version);
        var e := s.versions[v];
        var first := s.(md := Some(m.(using := e.version, fingerprint := Md5(e.raw), unpublished := 0)));
        if writes == 1 then first
        else
          var second := first.(versions := Save(s.versions, v, e.version, e.raw, true, now));
          if writes == 2 then second else Logged(second, PublishOp, m.using, e.version, at)
      case Rollback(version, at) =>
        var m, e := s.md.value, s.versions[version];
        var first := s.(md := Some(m.(using := e.version, fingerprint := Md5(e.raw))));
        if writes == 1 then first else Logged(first, PublishOp, m.using, e.version, at)
      case Delete => if writes == 1 then State(None, map[], s.ops) else EMPTY
      case Compact(_, _) => After(s, a)
  }

  /** With every write, what is left is the completed operation. */
  lemma AllWritesComplete(s: State, a: Action, writes: nat)
    requires Complete(s, a).Some? && writes >= 3
    ensures Stopped(s, a, writes) == Complete(s, a).value
  {
  }

  function RunStopped(s: State, steps: seq<(Action, nat)>): State {
    if steps == [] then s
    else var n := |steps| - 1; Stopped(RunStopped(s, steps[..n]), steps[n].0, steps[n].1)
  }

  // ----- The operations as the code carries them out -----

  datatype Reply = Done | NothingToPublish | Refused | WriteFailed

  class Keys {
    var md: Option<Metadata>
    var versions: map<nat, Element>
    var ops: seq<Operation>

    constructor ()
      ensures View() == EMPTY
    {
      md, versions, ops := None, map[], [];
    }

    function View(): State
      reads this
    {
      State(md, versions, ops)
    }

    /** saveElementOperation: a write that never overwrites. */
    method SaveOperation(kind: OpKind, last: int, current: int, at: nat, ok: bool) returns (r: Reply)
      modifies this`ops
      ensures match InsertOp(old(ops), Operation(kind, last, current, at))
              case Some(dir) => if ok then r == Done && ops == dir else r == WriteFailed && ops == old(ops)
              case None => r == WriteFailed && ops == old(ops)
      ensures r == Done ==> multiset(ops) == multiset(old(ops)) + multiset{Operation(kind, last, current, at)}
    {
      InsertMeans(ops, Operation(kind, last, current, at));
      var dir := InsertOp(ops, Operation(kind, last, current, at));
      if dir.None? || !ok {
        return WriteFailed;
      }
      ops := dir.value;
      return Done;
    }

    /** Metadata first, then version 1, then the log; `writes` of them succeed.
        Done means the whole operation took effect. */
    method CreateElement(raw: Bytes, now: int, at: nat, writes: nat) returns (r: Reply)
      modifies this
      ensures View() == Stopped(old(View()), Create(raw, now, at), writes)
      ensures r == Done <==> writes >= 3 && Complete(old(View()), Create(raw, now, at)).Some?
      ensures r == Done ==> Complete(old(View()), Create(raw, now, at)) == Some(View())
      ensures r == Refused <==> old(md).Some?
      ensures r == Done ==> md == Some(Metadata(1, 1, 0, NoFingerprint)) && versions == old(versions)[1 := Element(1, raw, false, now)]
      ensures r == Done ==> multiset(ops) == multiset(old(ops)) + multiset{Operation(SetOp, 0, 1, at)}
    {
      if md.Some? {
        return Refused;
      }
      if writes == 0 {
        return WriteFailed;
      }
      md := Some(Metadata(1, 1, 0, NoFingerprint));
      if 1 in versions || writes == 1 {
        return WriteFailed;
      }
      versions := Save(versions, 1, 1, raw, false, now);
      r := SaveOperation(SetOp, 0, 1, at, writes >= 3);
    }

    /** Version record first, then metadata, then the log. */
    method UpdateElement(raw: Bytes, now: int, at: nat, writes: nat) returns (r: Reply)
      modifies this
      ensures View() == Stopped(old(View()), Update(raw, now, at), writes)
      ensures r == Done <==> writes >= 3 && Complete(old(View()), Update(raw, now, at)).Some?
      ensures r == Done ==> Complete(old(View()), Update(raw, now, at)) == Some(View())
      ensures r == Refused <==> !Starts(old(View()), Update(raw, now, at))
      ensures r == Done ==> old(md).Some? && old(md).value.unpublished == 0
      ensures r == Done ==> var m, v := old(md).value, Int32(old(md).value.latest + 1);
                            && v >= 1 && v !in old(versions)
                            && md == Some(m.(latest := v, unpublished := v))
                            && versions == old(versions)[v := Element(v, raw, false, now)]
                            && multiset(ops) == multiset(old(ops)) + multiset{Operation(SetOp, m.latest, v, at)}
    {
      if md.None? || md.value.unpublished != 0 {
        return Refused;
      }
      var lastVersion := md.value.latest;
      var version := Int32(lastVersion + 1);
      if version < 1 || version in versions {
        return Refused;
      }
      if writes == 0 {
        return WriteFailed;
      }
      SaveMeans(versions, version, version, raw, false, now);
      versions := Save(versions, version, version, raw, false, now);
      if writes == 1 {
        return WriteFailed;
      }
      md := Some(md.value.(latest := version, unpublished := version));
      r := SaveOperation(SetOp, lastVersion, version, at, writes >= 3);
    }

    /** Metadata first, then the published flag, then the log. */
    method PublishElementVersion(publishVersion: nat, now: int, at: nat, writes: nat) returns (r: Reply)
      modifies this
      ensures View() == Stopped(old(View()), Publish(publishVersion, now, at), writes)
      ensures r == Done || r == NothingToPublish ==> Complete(old(View()), Publish(publishVersion, now, at)) == Some(View())
      ensures writes >= 3 && Complete(old(View()), Publish(publishVersion, now, at)).Some? ==> r == Done || r == NothingToPublish
      ensures r == NothingToPublish || r == Refused <==> !Starts(old(View()), Publish(publishVersion, now, at))
      ensures r == Done ==> old(md).Some? && var m := old(md).value;
                            var v := if publishVersion == 0 then m.unpublished else publishVersion;
                            && v > 0 && v in old(versions)
                            && var e := old(versions)[v];
                            && md == Some(m.(using := e.version, fingerprint := Md5(e.raw), unpublished := 0))
                            && versions == old(versions)[v := e.(published := true)]
                            && multiset(ops) == multiset(old(ops)) + multiset{Operation(PublishOp, m.using, e.version, at)}
    {
      if md.None? {
        return Refused;
      }
      var m := md.value;
      var v := if publishVersion == 0 && m.unpublished != 0 then m.unpublished else publishVersion;
      if v == 0 {
        return NothingToPublish;
      }
      if v < 0 || v !in versions {
        return Refused;
      }
      var publish := versions[v];
      if writes == 0 {
        return WriteFailed;
      }
      md := Some(m.(using := publish.version, fingerprint := Md5(publish.raw), unpublished := 0));
      if writes == 1 {
        return WriteFailed;
      }
      versions := Save(versions, v, publish.version, publish.raw, true, now);
      r := SaveOperation(PublishOp, m.using, publish.version, at, writes >= 3);
    }

    /** Metadata first, then the log. */
    method RollbackElementVersion(rollbackVersion: nat, at: nat, writes: nat) returns (r: Reply)
      modifies this
      ensures View() == Stopped(old(View()), Rollback(rollbackVersion, at), writes)
      ensures r == Done <==> writes >= 2 && Complete(old(View()), Rollback(rollbackVersion, at)).Some?
      ensures r == Done ==> Complete(old(View()), Rollback(rollbackVersion, at)) == Some(View())
      ensures r == Refused <==> !Starts(old(View()), Rollback(rollbackVersion, at))
      ensures r == Done ==> && old(md).Some? && rollbackVersion > 0 && rollbackVersion in old(versions)
                            && var m, e := old(md).value, old(versions)[rollbackVersion];
                            && m.using > Int32(rollbackVersion) && versions == old(versions)
                            && md == Some(m.(using := e.version, fingerprint := Md5(e.raw)))
                            && multiset(ops) == multiset(old(ops)) + multiset{Operation(PublishOp, m.using, e.version, at)}
    {
      if md.None? || rollbackVersion == 0 || rollbackVersion !in versions {
        return Refused;
      }
      var rollback := versions[rollbackVersion];
      if md.value.using <= Int32(rollbackVersion) {
        return Refused;
      }
      var lastUsing := md.value.using;
      if writes == 0 {
        return WriteFailed;
      }
      md := Some(md.value.(using := rollback.version, fingerprint := Md5(rollback.raw)));
      r := SaveOperation(PublishOp, lastUsing, rollback.version, at, writes >= 2);
    }

    /** Both directories are removed, each by one command. */
    method DeleteElement(writes: nat) returns (r: Reply)
      modifies this
      ensures View() == Stopped(old(View()), Delete, writes)
      ensures r == Done <==> writes >= 2
      ensures r == Done ==> View() == EMPTY
    {
      if writes == 0 {
        return WriteFailed;
      }
      md, versions := None, map[];
      if writes == 1 {
        return WriteFailed;
      }
      ops := [];
      return Done;
    }
  }

  // ----- What every reachable state keeps -----

  ghost predicate Coherent(m: Metadata, versions: map<nat, Element>) {
    && 1 <= m.latest < TWO_31
    && (forall n :: n in versions ==> 1 <= n <= m.latest && versions[n].version == n)
    && (m.unpublished == 0 || (m.unpublished == m.latest && m.unpublished in versions))
    && (m.using == 0 || (m.using > 0 && m.using in versions))
    && m.fingerprint == if m.using == 0 then NoFingerprint else if m.using > 0 && m.using in versions then Md5(versions[m.using].raw) else NoFingerprint
  }

  ghost predicate Inv(s: State) {
    match s.md
    case None => s.versions == map[] && s.ops == []
    case Some(m) => Coherent(m, s.versions)
  }

  /** While a version stays stored its bytes and its creation time do not
      change, and published stays published. */
  ghost predicate RawStable(s: State, t: State) {
    forall n :: n in s.versions && n in t.versions ==>
      && t.versions[n].raw == s.versions[n].raw
      && t.versions[n].createdAt == s.versions[n].createdAt
      && (s.versions[n].published ==> t.versions[n].published)
  }

  /** The one place where stopping does harm: between the two writes that a
      version and its metadata, or an element and its log, need. */
  predicate Breaks(s: State, a: Action, writes: nat) {
    writes == 1 && Starts(s, a) && (a.Create? || a.Update? || (a.Delete? && s.ops != []))
  }

  /** An operation stopped after any number of writes keeps the invariant if and
      only if it is not a create or an update stopped after its first write, nor
      a delete stopped after its first write with a log to delete. It never
      changes a stored version's bytes or creation time. */
  lemma StoppedKeepsInvIff(s: State, a: Action, writes: nat)
    requires Inv(s)
    ensures Inv(Stopped(s, a, writes)) <==> !Breaks(s, a, writes)
    ensures RawStable(s, Stopped(s, a, writes))
  {
    if Starts(s, a) && writes > 0 {
      match a
      case Create(_, _, _) => CreateStopped(s, a, writes);
      case Update(_, _, _) => UpdateStopped(s, a, writes);
      case Publish(_, _, _) => PublishStopped(s, a, writes);
      case Rollback(_, _) => RollbackStopped(s, a, writes);
      case Delete =>
      case Compact(_, _) => CompactKeepsInv(s, a);
    }
  }

  lemma CreateStopped(s: State, a: Action, writes: nat)
    requires Inv(s) && a.Create? && Starts(s, a) && writes > 0
    ensures Inv(Stopped(s, a, writes)) <==> writes != 1
    ensures RawStable(s, Stopped(s, a, writes))
  {
  }

  lemma UpdateStopped(s: State, a: Action, writes: nat)
    requires Inv(s) && a.Update? && Starts(s, a) && writes > 0
    ensures Inv(Stopped(s, a, writes)) <==> writes != 1
    ensures RawStable(s, Stopped(s, a, writes))
  {
    var v := Int32(s.md.value.latest + 1);
    assert v == s.md.value.latest + 1;
    var t := Stopped(s, a, writes);
    assert v in t.versions && t.versions == Save(s.versions, v, v, a.raw, false, a.now);
    assert t.md.Some? && t.md.value.latest == if writes == 1 then v - 1 else v;
  }

  lemma PublishStopped(s: State, a: Action, writes: nat)
    requires Inv(s) && a.Publish? && Starts(s, a) && writes > 0
    ensures Inv(Stopped(s, a, writes)) && RawStable(s, Stopped(s, a, writes))
  {
    var v := PublishTarget(s.md.value, a.version);
    var e := s.versions[v];
    SaveMeans(s.versions, v, e.version, e.raw, true, a.now);
    var t := Stopped(s, a, writes);
    assert t.md == Some(s.md.value.(using := e.version, fingerprint := Md5(e.raw), unpublished := 0));
    assert t.versions == s.versions || t.versions == Save(s.versions, v, e.version, e.raw, true, a.now);
  }

  lemma RollbackStopped(s: State, a: Action, writes: nat)
    requires Inv(s) && a.Rollback? && Starts(s, a) && writes > 0
    ensures Inv(Stopped(s, a, writes)) && RawStable(s, Stopped(s, a, writes))
  {
  }

  lemma CompactKeepsInv(s: State, a: Action)
    requires Inv(s) && a.Compact?
    ensures Inv(After(s, a)) && RawStable(s, After(s, a))
  {
  }

  lemma CompleteKeepsInv(s: State, a: Action)
    requires Inv(s)
    ensures Inv(After(s, a)) && RawStable(s, After(s, a))
  {
    if Complete(s, a).Some? {
      AllWritesComplete(s, a, 3);
      StoppedKeepsInvIff(s, a, 3);
    }
  }

  /** Over every run of operations that may stop after any of their writes: all
      states keep the invariant if and only if no step stops at such a place. */
  lemma EveryRunIsCoherentIff(steps: seq<(Action, nat)>)
    ensures (forall n :: 0 <= n <= |steps| ==> Inv(RunStopped(EMPTY, steps[..n])))
            <==> forall n :: 0 <= n < |steps| ==> !Breaks(RunStopped(EMPTY, steps[..n]), steps[n].0, steps[n].1)
  {
    if forall n :: 0 <= n <= |steps| ==> Inv(RunStopped(EMPTY, steps[..n])) {
      forall n | 0 <= n < |steps| ensures !Breaks(RunStopped(EMPTY, steps[..n]), steps[n].0, steps[n].1) {
        RunStoppedStep(EMPTY, steps, n);
        assert Inv(RunStopped(EMPTY, steps[..n])) && Inv(RunStopped(EMPTY, steps[..n + 1]));
        StoppedKeepsInvIff(RunStopped(EMPTY, steps[..n]), steps[n].0, steps[n].1);
      }
    }
    if forall n :: 0 <= n < |steps| ==> !Breaks(RunStopped(EMPTY, steps[..n]), steps[n].0, steps[n].1) {
      forall n | 0 <= n <= |steps| ensures Inv(RunStopped(EMPTY, steps[..n])) {
        UnbrokenRunIsCoherent(steps, n);
      }
    }
  }

  lemma RunStoppedStep(s: State, steps: seq<(Action, nat)>, n: nat)
    requires n < |steps|
    ensures RunStopped(s, steps[..n + 1]) == Stopped(RunStopped(s, steps[..n]), steps[n].0, steps[n].1)
  {
    assert steps[..n + 1][..n] == steps[..n];
  }

  lemma {:induction false} UnbrokenRunIsCoherent(steps: seq<(Action, nat)>, n: nat)
    requires n <= |steps|
    requires forall m :: 0 <= m < |steps| ==> !Breaks(RunStopped(EMPTY, steps[..m]), steps[m].0, steps[m].1)
    ensures Inv(RunStopped(EMPTY, steps[..n]))
  {
    if n > 0 {
      UnbrokenRunIsCoherent(steps, n - 1);
      RunStoppedStep(EMPTY, steps, n - 1);
      StoppedKeepsInvIff(RunStopped(EMPTY, steps[..n - 1]), steps[n - 1].0, steps[n - 1].1);
    }
  }

  // ----- What each operation does, in terms of the request and the old state -----

  /** A create acts exactly on an element that is not there, and stores the bytes it
      was given as version 1, a draft. */
  lemma CreateMeans(s: State, raw: Bytes, now: int, at: nat, writes: nat)
    requires Inv(s)
    ensures var t := Stopped(s, Create(raw, now, at), writes);
            && (t != s <==> s.md.None? && writes >= 1)
            && (t != s ==> t.md == Some(Metadata(1, 1, 0, NoFingerprint))
                           && t.versions == (if writes == 1 then map[] else map[1 := Element(1, raw, false, now)])
                           && t.ops == (if writes >= 3 then [Operation(SetOp, 0, 1, at)] else []))
  {
    SaveMeans(s.versions, 1, 1, raw, false, now);
  }

  /** An update acts exactly on an element without a draft and with a number left,
      and stores the bytes it was given as the next version, the new draft. */
  lemma UpdateMeans(s: State, raw: Bytes, now: int, at: nat, writes: nat)
    requires Inv(s)
    ensures var t := Stopped(s, Update(raw, now, at), writes);
            && (t != s <==> s.md.Some? && s.md.value.unpublished == 0 && s.md.value.latest + 1 < TWO_31 && writes >= 1)
            && (t != s ==> var m, v := s.md.value, s.md.value.latest + 1;
                           && t.versions == s.versions[v := Element(v, raw, false, now)]
                           && t.md == if writes == 1 then s.md else Some(m.(latest := v, unpublished := v)))
  {
    if s.md.Some? {
      var v := s.md.value.latest + 1;
      if v < TWO_31 {
        SaveMeans(s.versions, v, v, raw, false, now);
        assert v !in s.versions;
      } else {
        assert Int32(v) < 1;
      }
    }
  }

  /** A publish acts exactly when the version asked for is stored, where 0 asks for
      the draft; it brings that version into use, ends the draft and, from the
      second write on, marks the version published. */
  lemma PublishMeans(s: State, version: nat, now: int, at: nat, writes: nat)
    requires Inv(s) && s.md.Some?
    ensures var t := Stopped(s, Publish(version, now, at), writes);
            var m := s.md.value;
            var v := if version == 0 then m.unpublished else version;
            if v in s.versions && writes >= 1 then
              && t.md == Some(m.(using := v, fingerprint := Md5(s.versions[v].raw), unpublished := 0))
              && t.versions == if writes == 1 then s.versions else s.versions[v := s.versions[v].(published := true)]
            else t == s
  {
    var v := if version == 0 then s.md.value.unpublished else version;
    if v in s.versions {
      SaveMeans(s.versions, v, v, s.versions[v].raw, true, now);
    }
  }

  /** A rollback acts exactly when its target is stored, positive and below the
      version in use; so it never serves a draft above that, and it changes no
      version. This holds in every state, interrupted ones included, for every
      target an int32 can hold; coherent states store no other. */
  lemma RollbackMeans(s: State, version: nat, at: nat, writes: nat)
    ensures var t := Stopped(s, Rollback(version, at), writes);
            && t.versions == s.versions
            && (version < TWO_31 ==>
                  if writes >= 1 && s.md.Some? && version in s.versions && 0 < version < s.md.value.using
                  then t.md == Some(s.md.value.(using := s.versions[version].version, fingerprint := Md5(s.versions[version].raw)))
                  else t == s)
            && (Inv(s) ==> (t != s <==> writes >= 1 && s.md.Some? && version in s.versions && version < s.md.value.using))
            && (Inv(s) && t != s ==> t.md == Some(s.md.value.(using := version, fingerprint := Md5(s.versions[version].raw))))
  {
  }

  /** A delete takes the element's directory first and its log second. */
  lemma DeleteMeans(s: State, writes: nat)
    ensures var t := Stopped(s, Delete, writes);
            t == if writes == 0 then s else State(None, map[], if writes == 1 then s.ops else [])
  {
  }

  /** Every state reachable by completed operations, in any order. */
  lemma {:induction false} EveryRunIsCoherent(actions: seq<Action>)
    ensures Inv(Run(EMPTY, actions))
    ensures actions != [] ==> RawStable(Run(EMPTY, actions[..|actions| - 1]), Run(EMPTY, actions))
  {
    if actions != [] {
      EveryRunIsCoherent(actions[..|actions| - 1]);
      CompleteKeepsInv(Run(EMPTY, actions[..|actions| - 1]), actions[|actions| - 1]);
    }
  }
}
