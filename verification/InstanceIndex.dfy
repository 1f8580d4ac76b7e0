/** The cluster-wide registry of client instances (coordinator_ins_hybrid.go):
    a forward record per instance and a reverse record per watched element and
    instance, each written by its own KV call with a TTL of 120 seconds. Every
    KV call may fail, and a call that reports failure may still have been
    applied. */
module InstanceIndex {
  import opened Strings
  import opened Entities
  import opened Storage
  import opened Paging
  import W = Watch

  datatype Instance = Instance(id: string, watching: seq<W.Watching>)

  const TTL: int := 120
  const LIMIT: nat := 100

  /** One KV write: whether it reports success, whether it took effect, and the
      time it did. */
  datatype Io = Io(ok: bool, applied: bool, at: int)

  datatype Forward = Forward(ins: Instance, at: int)

  /** The live part of the store: forward records by instance id, and reverse
      records, with their write times, by watch name and instance id. */
  datatype State = State(forward: map<string, Forward>, reverse: map<string, map<string, int>>)

  /** The last segment but one of a reverse key. */
  function WatchName(app: string, env: string, key: string): string {
    app + "@@@" + env + "@@@" + key
  }

  /** For identifiers without '@' a reverse name stands for one triple only. */
  lemma WatchNameInjective(a: seq<string>, b: seq<string>)
    requires |a| == 3 && |b| == 3
    requires forall i :: 0 <= i < 3 ==> Free(a[i], '@') && Free(b[i], '@')
    requires WatchName(a[0], a[1], a[2]) == WatchName(b[0], b[1], b[2])
    ensures a == b
  {
    WatchNameSplits(a);
    WatchNameSplits(b);
  }

  lemma WatchNameSplits(a: seq<string>)
    requires |a| == 3 && forall i :: 0 <= i < 3 ==> Free(a[i], '@')
    ensures Split(WatchName(a[0], a[1], a[2]), '@') == [a[0], "", "", a[1], "", "", a[2]]
  {
    var last := [a[2]];
    var mid := [a[1], "", ""] + last;
    var all := [a[0], "", ""] + mid;
    JoinSeparated(a[1], last);
    JoinSeparated(a[0], mid);
    assert a[0] + "@@@" + (a[1] + "@@@" + a[2]) == WatchName(a[0], a[1], a[2]);
    SplitUndoesJoin(all, '@');
  }

  lemma JoinSeparated(x: string, rest: seq<string>)
    requires rest != []
    ensures Join([x, "", ""] + rest, '@') == x + "@@@" + Join(rest, '@')
  {
    var two, one := ["", ""] + rest, [""] + rest;
    assert ([x, "", ""] + rest)[1..] == two && two[1..] == one && one[1..] == rest;
    assert Join(one, '@') == "@" + Join(rest, '@');
    assert Join(two, '@') == "@" + ("@" + Join(rest, '@'));
    assert x + "@" + ("@" + ("@" + Join(rest, '@'))) == x + "@@@" + Join(rest, '@');
  }

  function BlockNames(app: string, env: string, keys: seq<string>): (r: seq<string>)
    ensures forall x :: x in r <==> exists k :: k in keys && x == WatchName(app, env, k)
  {
    if keys == [] then []
    else
      var n := |keys| - 1;
      assert keys == keys[..n] + [keys[n]];
      BlockNames(app, env, keys[..n]) + [WatchName(app, env, keys[n])]
  }

  function NamesOf(watching: seq<W.Watching>): seq<string> {
    if watching == [] then []
    else
      var n := |watching| - 1;
      NamesOf(watching[..n]) + BlockNames(watching[n].app, watching[n].env, watching[n].keys)
  }

  predicate Alive(at: int, now: int) {
    now - at < TTL
  }

  /** Both kinds of record are written with a TTL of 120, so at any later time
      of the next 68 years they are visible exactly while they are alive. */
  lemma AliveIsVisible(key: string, val: Bytes, created: int, at: int, now: int)
    requires 0 <= now - at < TWO_31
    ensures Alive(at, now) <==> !EntityExpired(NewEntityWithCreated(key, val, TTL, created, at), now)
  {
    VisibleWhileYoung(key, val, TTL, created, at, now);
  }

  // ----- Writing and deleting -----

  function ReverseAt(s: State, name: string): map<string, int> {
    if name in s.reverse then s.reverse[name] else map[]
  }

  function PutReverse(s: State, name: string, id: string, io: Io): State {
    if io.applied then s.(reverse := s.reverse[name := ReverseAt(s, name)[id := io.at]]) else s
  }

  function CutReverse(s: State, name: string, id: string, io: Io): State {
    if io.applied then s.(reverse := s.reverse[name := ReverseAt(s, name) - {id}]) else s
  }

  function PutAll(s: State, names: seq<string>, id: string, io: nat -> Io): State {
    if names == [] then s
    else var n := |names| - 1; PutReverse(PutAll(s, names[..n], id, io), names[n], id, io(n + 1))
  }

  function CutAll(s: State, names: seq<string>, id: string, io: nat -> Io): State {
    if names == [] then s
    else var n := |names| - 1; CutReverse(CutAll(s, names[..n], id, io), names[n], id, io(n + 1))
  }

  /** setInstanceInfo: the forward record first; reverse records are attempted
      only when that reports success, and then all of them. */
  function Written(s: State, ins: Instance, io: nat -> Io): State {
    var first := if io(0).applied then s.(forward := s.forward[ins.id := Forward(ins, io(0).at)]) else s;
    if io(0).ok then PutAll(first, NamesOf(ins.watching), ins.id, io) else first
  }

  /** UnregisterInstance, reading at `now`: it stops when the forward record is
      not visible, and deletes the reverse records that record lists. */
  function Unregistered(s: State, id: string, now: int, io: nat -> Io): State {
    if id !in s.forward || !Alive(s.forward[id].at, now) then s
    else
      var first := if io(0).applied then s.(forward := s.forward - {id}) else s;
      if io(0).ok then CutAll(first, NamesOf(s.forward[id].ins.watching), id, io) else first
  }

  // ----- Reading -----

  /** The reverse bucket of a name as the cursor meets it. */
  function Watchers(s: State, name: string, now: int): seq<Child> {
    var ids := InOrder(ReverseAt(s, name).Keys);
    seq(|ids|, i requires 0 <= i < |ids| =>
      assert ids[i] in ids;
      Child(ids[i], Dir, !Alive(ReverseAt(s, name)[ids[i]], now)))
  }

  function Registered(s: State, ids: seq<Child>, now: int): seq<Instance> {
    if ids == [] then []
    else
      var n := |ids| - 1;
      var id := ids[n].name;
      Registered(s, ids[..n], now) + if id in s.forward && Alive(s.forward[id].at, now) then [s.forward[id].ins] else []
  }

  /** GetInstancesByElement: one Range page of at most 100, then the forward
      records of its ids; ids without a visible forward record are skipped. */
  function InstancesBy(s: State, name: string, now: int): seq<Instance> {
    Registered(s, Page(Watchers(s, name, now), "", LIMIT).items, now)
  }

  // ----- What reading returns -----

  predicate Watches(s: State, name: string, id: string, now: int) {
    id in ReverseAt(s, name) && Alive(ReverseAt(s, name)[id], now)
  }

  predicate Present(s: State, id: string, now: int) {
    id in s.forward && Alive(s.forward[id].at, now)
  }

  lemma WatchersMeaning(s: State, name: string, now: int, c: Child)
    ensures c in Live(Watchers(s, name, now)) <==> c == Child(c.name, Dir, false) && Watches(s, name, c.name, now)
  {
    var ids := InOrder(ReverseAt(s, name).Keys);
    var kids := Watchers(s, name, now);
    LiveMembers(kids, c);
    if c in kids {
      var i :| 0 <= i < |kids| && kids[i] == c;
      assert ids[i] in ids;
    }
    if c.name in ReverseAt(s, name) {
      assert c.name in ids;
      var i :| 0 <= i < |ids| && ids[i] == c.name;
      assert kids[i] == Child(c.name, Dir, !Alive(ReverseAt(s, name)[c.name], now));
      assert kids[i] in kids;
    }
  }

  /** The page holds only live watchers, and all of them when they are at most
      100. */
  lemma PageMeaning(s: State, name: string, now: int, id: string)
    ensures var items, live := Page(Watchers(s, name, now), "", LIMIT).items, Live(Watchers(s, name, now));
            && (Child(id, Dir, false) in items ==> Watches(s, name, id, now))
            && (|live| <= LIMIT && Watches(s, name, id, now) ==> Child(id, Dir, false) in items)
            && (forall c <- items :: c == Child(c.name, Dir, false))
  {
    var kids := Watchers(s, name, now);
    SeekFromStart(kids);
    assert kids[0..] == kids;
    var n := Walked(kids, LIMIT);
    PageIsFull(kids, LIMIT);
    PageSplits(kids, n);
    WatchersMeaning(s, name, now, Child(id, Dir, false));
    forall c <- Live(kids[..n]) ensures c == Child(c.name, Dir, false) {
      assert c in Live(kids);
      WatchersMeaning(s, name, now, c);
    }
    FullHasAll(Live(kids[..n]), Live(kids[n..]), Live(kids), n == |kids|);
    if n == |kids| { assert kids[n..] == []; }
  }

  lemma FullHasAll(page: seq<Child>, rest: seq<Child>, all: seq<Child>, last: bool)
    requires all == page + rest
    requires last ==> rest == []
    requires !last ==> |page| == LIMIT
    ensures |all| <= LIMIT ==> page == all
    ensures forall c <- page :: c in all
  {
  }

  lemma {:induction false} RegisteredMeaning(s: State, ids: seq<Child>, now: int, r: Instance)
    ensures r in Registered(s, ids, now) <==>
            exists c :: c in ids && Present(s, c.name, now) && s.forward[c.name].ins == r
  {
    if ids != [] {
      var n := |ids| - 1;
      assert ids == ids[..n] + [ids[n]];
      RegisteredMeaning(s, ids[..n], now, r);
    }
  }

  ghost predicate Consistent(s: State) {
    forall id <- s.forward :: s.forward[id].ins.id == id
  }

  /** An instance is returned only when both of its records are alive, and then
      always if the element has at most 100 live watchers. */
  lemma ReturnedIff(s: State, name: string, now: int, id: string)
    requires Consistent(s)
    ensures var r := InstancesBy(s, name, now);
            && (forall x <- r :: Present(s, x.id, now) && s.forward[x.id].ins == x && Watches(s, name, x.id, now))
            && (|Live(Watchers(s, name, now))| <= LIMIT && Present(s, id, now) && Watches(s, name, id, now) ==>
                  s.forward[id].ins in r)
  {
    var items := Page(Watchers(s, name, now), "", LIMIT).items;
    forall x <- InstancesBy(s, name, now)
      ensures Present(s, x.id, now) && s.forward[x.id].ins == x && Watches(s, name, x.id, now)
    {
      RegisteredMeaning(s, items, now, x);
      var c :| c in items && Present(s, c.name, now) && s.forward[c.name].ins == x;
      PageMeaning(s, name, now, c.name);
    }
    PageMeaning(s, name, now, id);
    if |Live(Watchers(s, name, now))| <= LIMIT && Present(s, id, now) && Watches(s, name, id, now) {
      RegisteredMeaning(s, items, now, s.forward[id].ins);
      assert Child(id, Dir, false).name == id;
    }
  }

  ghost predicate Rising(kids: seq<Child>) {
    forall i, j :: 0 <= i < j < |kids| ==> Less(kids[i].name, kids[j].name)
  }

  lemma {:induction false} LiveRising(kids: seq<Child>)
    requires Rising(kids)
    ensures Rising(Live(kids))
  {
    if kids != [] {
      var rest := Live(kids[1..]);
      LiveRising(kids[1..]);
      forall j | 0 <= j < |rest| ensures Less(kids[0].name, rest[j].name) {
        LiveMembers(kids[1..], rest[j]);
        var k :| 0 <= k < |kids[1..]| && kids[1..][k] == rest[j];
        assert kids[k + 1] == rest[j];
      }
    }
  }

  /** The ids in the order they are returned. */
  function IdsOf(r: seq<Instance>): seq<string> {
    seq(|r|, i requires 0 <= i < |r| => r[i].id)
  }

  lemma {:induction false} RegisteredRising(s: State, ids: seq<Child>, now: int)
    requires Consistent(s) && Rising(ids)
    ensures Ascending(IdsOf(Registered(s, ids, now)))
  {
    if ids != [] {
      var n := |ids| - 1;
      RegisteredRising(s, ids[..n], now);
      var before := Registered(s, ids[..n], now);
      forall i | 0 <= i < |before| ensures Less(before[i].id, ids[n].name) {
        RegisteredMeaning(s, ids[..n], now, before[i]);
        var c :| c in ids[..n] && Present(s, c.name, now) && s.forward[c.name].ins == before[i];
        var k :| 0 <= k < n && ids[..n][k] == c;
        assert ids[k] == c;
      }
      if Present(s, ids[n].name, now) {
        AscendingSnoc(IdsOf(before), ids[n].name);
        assert IdsOf(Registered(s, ids, now)) == IdsOf(before) + [ids[n].name];
      } else {
        assert Registered(s, ids, now) == before;
      }
    }
  }

  lemma AscendingSnoc(names: seq<string>, last: string)
    requires Ascending(names) && forall i :: 0 <= i < |names| ==> Less(names[i], last)
    ensures Ascending(names + [last])
  {
  }

  /** Nobody is returned twice: the ids come in byte order. */
  lemma ReturnedOnce(s: State, name: string, now: int)
    requires Consistent(s)
    ensures Ascending(IdsOf(InstancesBy(s, name, now)))
  {
    var kids := Watchers(s, name, now);
    SeekFromStart(kids);
    assert kids[0..] == kids;
    LiveRising(kids[..Walked(kids, LIMIT)]);
    RegisteredRising(s, Page(kids, "", LIMIT).items, now);
  }

  // ----- The operations -----

  lemma NamesStep(watching: seq<W.Watching>, i: nat)
    requires i < |watching|
    ensures NamesOf(watching[..i + 1]) ==
            NamesOf(watching[..i]) + BlockNames(watching[i].app, watching[i].env, watching[i].keys)
  {
    assert watching[..i + 1][..i] == watching[..i];
  }

  lemma BlockStep(names: seq<string>, w: W.Watching, j: nat)
    requires j < |w.keys|
    ensures names + BlockNames(w.app, w.env, w.keys[..j + 1]) ==
            (names + BlockNames(w.app, w.env, w.keys[..j])) + [WatchName(w.app, w.env, w.keys[j])]
  {
    assert w.keys[..j + 1][..j] == w.keys[..j];
  }

  function All(put: bool, s: State, names: seq<string>, id: string, io: nat -> Io): State {
    if put then PutAll(s, names, id, io) else CutAll(s, names, id, io)
  }

  lemma AllStep(put: bool, s: State, names: seq<string>, name: string, id: string, io: nat -> Io)
    ensures var before, last := All(put, s, names, id, io), io(|names| + 1);
            All(put, s, names + [name], id, io) ==
            if put then PutReverse(before, name, id, last) else CutReverse(before, name, id, last)
  {
    assert (names + [name])[..|names|] == names;
  }

  // ----- What the operations leave -----

  /** The reverse names of an instance are those of the keys it watches. */
  lemma {:induction false} NamesMeaning(watching: seq<W.Watching>, x: string)
    ensures x in NamesOf(watching) <==>
            exists i, k :: 0 <= i < |watching| && k in watching[i].keys && x == WatchName(watching[i].app, watching[i].env, k)
  {
    if watching != [] {
      var n := |watching| - 1;
      NamesMeaning(watching[..n], x);
      assert forall i :: 0 <= i < n ==> watching[..n][i] == watching[i];
    }
  }

  function ReverseOf(s: State, name: string, id: string): Option<int> {
    if id in ReverseAt(s, name) then Some(ReverseAt(s, name)[id]) else None
  }

  /** The last call on a name that took effect. */
  function LastCall(names: seq<string>, name: string, io: nat -> Io): (j: int)
    ensures -1 <= j < |names|
    ensures j >= 0 ==> names[j] == name && io(j + 1).applied
    ensures forall k :: j < k < |names| && names[k] == name ==> !io(k + 1).applied
  {
    if names == [] then -1
    else
      var n := |names| - 1;
      if names[n] == name && io(n + 1).applied then n else LastCall(names[..n], name, io)
  }

  lemma LastCallSnoc(names: seq<string>, at: string, name: string, io: nat -> Io)
    ensures LastCall(names + [at], name, io) == if at == name && io(|names| + 1).applied then |names| else LastCall(names, name, io)
  {
    assert (names + [at])[..|names|] == names;
  }

  lemma {:induction false} AllMeans(put: bool, s: State, names: seq<string>, id: string, io: nat -> Io, name: string, x: string)
    ensures var t, j := All(put, s, names, id, io), LastCall(names, name, io);
            && t.forward == s.forward
            && ReverseOf(t, name, x) ==
               if x == id && j >= 0 then (if put then Some(io(j + 1).at) else None) else ReverseOf(s, name, x)
  {
    if names != [] {
      var n := |names| - 1;
      var init, at := names[..n], names[n];
      assert names == init + [at];
      AllMeans(put, s, init, id, io, name, x);
      LastCallSnoc(init, at, name, io);
      AllStep(put, s, init, at, id, io);
      OneMeans(put, All(put, s, init, id, io), at, id, io(n + 1), name, x);
    }
  }

  lemma OneMeans(put: bool, s: State, at: string, id: string, io: Io, name: string, x: string)
    ensures var t := if put then PutReverse(s, at, id, io) else CutReverse(s, at, id, io);
            && t.forward == s.forward
            && ReverseOf(t, name, x) ==
               if x == id && name == at && io.applied then (if put then Some(io.at) else None) else ReverseOf(s, name, x)
  {
  }

  /** Record by record: a write leaves the instance and the times of its last
      effective calls, on its own records only; an unregistration leaves none of
      the records its calls removed. */
  lemma WrittenMeans(s: State, ins: Instance, io: nat -> Io, name: string, x: string)
    requires io(0).ok && io(0).applied
    ensures var t, j := Written(s, ins, io), LastCall(NamesOf(ins.watching), name, io);
            && t.forward == s.forward[ins.id := Forward(ins, io(0).at)]
            && ReverseOf(t, name, x) == if x == ins.id && j >= 0 then Some(io(j + 1).at) else ReverseOf(s, name, x)
  {
    AllMeans(true, s.(forward := s.forward[ins.id := Forward(ins, io(0).at)]), NamesOf(ins.watching), ins.id, io, name, x);
  }

  lemma UnregisteredMeans(s: State, id: string, now: int, io: nat -> Io, name: string, x: string)
    requires Present(s, id, now) && io(0).ok && io(0).applied
    ensures var t, j := Unregistered(s, id, now, io), LastCall(NamesOf(s.forward[id].ins.watching), name, io);
            && t.forward == s.forward - {id}
            && ReverseOf(t, name, x) == if x == id && j >= 0 then None else ReverseOf(s, name, x)
  {
    AllMeans(false, s.(forward := s.forward - {id}), NamesOf(s.forward[id].ins.watching), id, io, name, x);
  }

  /** Every call of an operation takes effect and reports it, within the TTL. */
  ghost predicate Succeeds(io: nat -> Io, n: nat, now: int) {
    forall j :: 0 <= j <= n ==> io(j).ok && io(j).applied && Alive(io(j).at, now)
  }

  lemma CallIsFound(names: seq<string>, name: string, io: nat -> Io, now: int)
    requires Succeeds(io, |names|, now) && name in names
    ensures LastCall(names, name, io) >= 0 && Alive(io(LastCall(names, name, io) + 1).at, now)
  {
    var k :| 0 <= k < |names| && names[k] == name;
    assert io(k + 1).applied;
  }

  /** A successful write makes the instance found under each key it watches, as
      long as that has at most 100 live watchers; */
  lemma WrittenIsFound(s: State, ins: Instance, io: nat -> Io, now: int, i: nat, key: string)
    requires Consistent(s) && Succeeds(io, |NamesOf(ins.watching)|, now)
    requires i < |ins.watching| && key in ins.watching[i].keys
    ensures var t, name := Written(s, ins, io), WatchName(ins.watching[i].app, ins.watching[i].env, key);
            |Live(Watchers(t, name, now))| <= LIMIT ==> ins in InstancesBy(t, name, now)
  {
    var t, name := Written(s, ins, io), WatchName(ins.watching[i].app, ins.watching[i].env, key);
    var names := NamesOf(ins.watching);
    NamesMeaning(ins.watching, name);
    assert io(0).ok && io(0).applied;
    WrittenMeans(s, ins, io, name, ins.id);
    CallIsFound(names, name, io, now);
    assert Watches(t, name, ins.id, now);
    ReturnedIff(t, name, now, ins.id);
  }

  /** and a successful unregistration leaves it found nowhere, and no reverse
      record of it under a key it watched. */
  lemma UnregisteredIsGone(s: State, id: string, now: int, io: nat -> Io, later: int, name: string)
    requires Consistent(s) && Present(s, id, now) && Succeeds(io, |NamesOf(s.forward[id].ins.watching)|, now)
    ensures var t := Unregistered(s, id, now, io);
            && (forall x <- InstancesBy(t, name, later) :: x.id != id)
            && (name in NamesOf(s.forward[id].ins.watching) ==> ReverseOf(t, name, id) == None)
  {
    assert io(0).ok && io(0).applied;
    UnregisteredMeans(s, id, now, io, name, id);
    ReturnedIff(Unregistered(s, id, now, io), name, later, id);
    if name in NamesOf(s.forward[id].ins.watching) {
      CallIsFound(NamesOf(s.forward[id].ins.watching), name, io, now);
    }
  }

  // ----- The object -----

  /** io answers every call of an operation: its errors are collected. */
  ghost predicate AllOk(io: nat -> Io, n: nat) {
    forall j :: 0 <= j < n ==> io(j).ok
  }

  class InstanceHybrid {
    var forward: map<string, Forward>
    var reverse: map<string, map<string, int>>

    ghost function Abstract(): State
      reads this
    {
      State(forward, reverse)
    }

    method SetInstanceInfo(ins: Instance, io: nat -> Io) returns (ok: bool)
      modifies this
      ensures Abstract() == Written(old(Abstract()), ins, io)
      ensures ok <==> AllOk(io, |NamesOf(ins.watching)| + 1)
    {
      if io(0).applied {
        forward := forward[ins.id := Forward(ins, io(0).at)];
      }
      if !io(0).ok {
        return false;
      }
      ok := Loop(ins.watching, ins.id, io, true);
    }

    /** `read` is the outcome of reading the forward record at `now`. */
    method UnregisterInstance(id: string, now: int, read: bool, io: nat -> Io) returns (ok: bool)
      modifies this
      ensures Abstract() == if read then Unregistered(old(Abstract()), id, now, io) else old(Abstract())
      ensures ok <==> read && (Present(old(Abstract()), id, now) ==>
                                 AllOk(io, |NamesOf(old(forward)[id].ins.watching)| + 1))
    {
      if !read {
        return false;
      }
      if id !in forward || !Alive(forward[id].at, now) {
        return true;
      }
      var ins := forward[id].ins;
      if io(0).applied {
        forward := forward - {id};
      }
      if !io(0).ok {
        return false;
      }
      ok := Loop(ins.watching, id, io, false);
    }

    /** `range` and `details` are the outcomes of the two reads. */
    method GetInstancesByElement(app: string, env: string, key: string, now: int, range: bool, details: bool)
      returns (r: Option<(seq<Instance>, bool, string)>)
      ensures var page := Page(Watchers(Abstract(), WatchName(app, env, key), now), "", LIMIT);
              && (r.Some? <==> range && (details || page.items == []))
              && (r.Some? ==> r.value == (InstancesBy(Abstract(), WatchName(app, env, key), now), page.hasMore, page.nextSeekKey))
    {
      if !range {
        return None;
      }
      var page := Page(Watchers(State(forward, reverse), WatchName(app, env, key), now), "", LIMIT);
      var items := page.items;
      if items != [] && !details {
        return None;
      }
      var found := [];
      for i := 0 to |items|
        invariant found == Registered(Abstract(), items[..i], now)
      {
        assert items[..i + 1][..i] == items[..i];
        var id := items[i].name;
        if id in forward && Alive(forward[id].at, now) {
          found := found + [forward[id].ins];
        }
      }
      assert items[..|items|] == items;
      return Some((found, page.hasMore, page.nextSeekKey));
    }

    /** The nested loop over the watched keys, writing or deleting one reverse
        record each and collecting the errors. */
    method Loop(watching: seq<W.Watching>, id: string, io: nat -> Io, put: bool) returns (ok: bool)
      requires io(0).ok
      modifies this`reverse
      ensures Abstract() == All(put, old(Abstract()), NamesOf(watching), id, io)
      ensures ok <==> AllOk(io, |NamesOf(watching)| + 1)
    {
      ok := true;
      ghost var names := [];
      var n := 0;
      for i := 0 to |watching|
        invariant names == NamesOf(watching[..i]) && n == |names|
        invariant Abstract() == All(put, old(Abstract()), names, id, io)
        invariant ok <==> AllOk(io, n + 1)
      {
        NamesStep(watching, i);
        n, ok := Block(watching[i], id, io, put, n, ok, old(Abstract()), names);
        names := names + BlockNames(watching[i].app, watching[i].env, watching[i].keys);
      }
      assert watching[..|watching|] == watching;
    }

    /** The inner loop: the keys of one watched app and env, after `names`. */
    method Block(w: W.Watching, id: string, io: nat -> Io, put: bool, done: nat, before: bool,
                 ghost start: State, ghost names: seq<string>) returns (n: nat, ok: bool)
      requires Abstract() == All(put, start, names, id, io) && done == |names|
      requires before <==> AllOk(io, done + 1)
      modifies this`reverse
      ensures var all := names + BlockNames(w.app, w.env, w.keys);
              Abstract() == All(put, start, all, id, io) && n == |all|
      ensures ok <==> AllOk(io, n + 1)
    {
      n, ok := done, before;
      ghost var all := names;
      for j := 0 to |w.keys|
        invariant all == names + BlockNames(w.app, w.env, w.keys[..j]) && n == |all|
        invariant Abstract() == All(put, start, all, id, io)
        invariant ok <==> AllOk(io, n + 1)
      {
        var name := WatchName(w.app, w.env, w.keys[j]);
        BlockStep(names, w, j);
        AllStep(put, start, all, name, id, io);
        n := n + 1;
        One(name, id, io(n), put);
        ok := ok && io(n).ok;
        all := all + [name];
      }
      assert w.keys[..|w.keys|] == w.keys;
    }

    /** One KV call on a reverse record. */
    method One(name: string, id: string, io: Io, put: bool)
      modifies this`reverse
      ensures Abstract() == if put then PutReverse(old(Abstract()), name, id, io) else CutReverse(old(Abstract()), name, id, io)
    {
      var here := if name in reverse then reverse[name] else map[];
      if io.applied {
        reverse := reverse[name := if put then here[id := io.at] else here - {id}];
      }
    }
  }
}
