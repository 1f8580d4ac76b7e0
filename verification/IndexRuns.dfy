/** Every run over the instance index: writes and unregistrations are series of KV
    calls that interleave, and the KV store removes records it finds expired. Such
    a removal is proposed by the read that saw the record expired and is applied at
    any later time, on whatever record is there then (raft_impl.go,
    probeRemoveExpired and Range). */
module IndexRuns {
  import opened Strings
  import opened Paging
  import opened InstanceIndex

  datatype Key = ForwardKey(id: string) | ReverseKey(name: string, id: string)

  /** What was applied to the store so far. */
  datatype Event = Wrote(key: Key, ins: Instance, at: int) | Removed(key: Key)

  /** A call in progress, and which of its KV calls is next: 0 is the forward
      record, j the j-th reverse record. */
  datatype Job = Writing(ins: Instance, next: nat) | Removing(id: string, names: seq<string>, next: nat)

  datatype Store = Store(index: State, jobs: map<nat, Job>, reaps: multiset<Key>, log: seq<Event>)

  datatype Label =
    | Begin(pid: nat, ins: Instance)                      // setInstanceInfo
    | BeginUnregister(pid: nat, id: string, now: int)     // UnregisterInstance, up to its read
    | Call(pid: nat, io: Io)                              // the next KV call of a job
    | Spot(key: Key, now: int)                            // a read meets the record, expired
    | Reap(key: Key)                                      // a proposed removal is applied

  const NOTHING := Store(State(map[], map[]), map[], multiset{}, [])

  // ----- Steps -----

  function WrittenAt(s: State, k: Key): Option<int> {
    match k
    case ForwardKey(id) => if id in s.forward then Some(s.forward[id].at) else None
    case ReverseKey(name, id) => if id in ReverseAt(s, name) then Some(ReverseAt(s, name)[id]) else None
  }

  function Put(s: Store, k: Key, ins: Instance, at: int): Store {
    var index := match k
                 case ForwardKey(id) => s.index.(forward := s.index.forward[id := Forward(ins, at)])
                 case ReverseKey(name, id) => PutReverse(s.index, name, id, Io(true, true, at));
    s.(index := index, log := s.log + [Wrote(k, ins, at)])
  }

  function Cut(s: Store, k: Key): Store {
    var index := match k
                 case ForwardKey(id) => s.index.(forward := s.index.forward - {id})
                 case ReverseKey(name, id) => CutReverse(s.index, name, id, Io(true, true, 0));
    s.(index := index, log := s.log + [Removed(k)])
  }

  function NamesIn(job: Job): seq<string> {
    match job
    case Writing(ins, _) => NamesOf(ins.watching)
    case Removing(_, names, _) => names
  }

  function IdOf(job: Job): string {
    match job
    case Writing(ins, _) => ins.id
    case Removing(id, _, _) => id
  }

  predicate InRange(job: Job) {
    job.next <= |NamesIn(job)|
  }

  /** The key of the job's next KV call. */
  function KeyOf(job: Job): Key
    requires InRange(job)
  {
    if job.next == 0 then ForwardKey(IdOf(job)) else ReverseKey(NamesIn(job)[job.next - 1], IdOf(job))
  }

  /** A failed forward call ends the job; otherwise every reverse key is tried. */
  function Advance(jobs: map<nat, Job>, pid: nat, ok: bool): map<nat, Job>
    requires pid in jobs
  {
    var job := jobs[pid];
    if job.next >= |NamesIn(job)| || (job.next == 0 && !ok) then jobs - {pid}
    else jobs[pid := job.(next := job.next + 1)]
  }

  function Next(s: Store, l: Label): Store {
    match l
    case Begin(pid, ins) => if pid in s.jobs then s else s.(jobs := s.jobs[pid := Writing(ins, 0)])
    case BeginUnregister(pid, id, now) =>
      if pid in s.jobs || !Present(s.index, id, now) then s
      else s.(jobs := s.jobs[pid := Removing(id, NamesOf(s.index.forward[id].ins.watching), 0)])
    case Call(pid, io) =>
      if pid !in s.jobs || !InRange(s.jobs[pid]) then s
      else
        var job := s.jobs[pid];
        var done := if !io.applied then s
                    else if job.Writing? then Put(s, KeyOf(job), job.ins, io.at)
                    else Cut(s, KeyOf(job));
        done.(jobs := Advance(s.jobs, pid, io.ok))
    case Spot(k, now) =>
      if WrittenAt(s.index, k).Some? && !Alive(WrittenAt(s.index, k).value, now) then s.(reaps := s.reaps + multiset{k}) else s
    case Reap(k) =>
      if k in s.reaps then Cut(s.(reaps := s.reaps - multiset{k}), k) else s
  }

  function Run(s: Store, ls: seq<Label>): Store {
    if ls == [] then s else Next(Run(s, ls[..|ls| - 1]), ls[|ls| - 1])
  }

  // ----- The store is what was applied last -----

  function LastOn(log: seq<Event>, k: Key): Option<Event> {
    if log == [] then None
    else if log[|log| - 1].key == k then Some(log[|log| - 1])
    else LastOn(log[..|log| - 1], k)
  }

  lemma LastOnSnoc(log: seq<Event>, e: Event, k: Key)
    ensures LastOn(log + [e], k) == if e.key == k then Some(e) else LastOn(log, k)
  {
    assert (log + [e])[..|log|] == log;
  }

  /** The record a key holds is the one its last event wrote. */
  ghost predicate Matches(s: Store, k: Key) {
    match LastOn(s.log, k)
    case Some(Wrote(_, ins, at)) =>
      WrittenAt(s.index, k) == Some(at) && (k.ForwardKey? ==> s.index.forward[k.id] == Forward(ins, at))
    case _ => WrittenAt(s.index, k).None?
  }

  /** A write is of the instance that the key names, and of a watch it listed. */
  ghost predicate Genuine(e: Event) {
    e.Wrote? ==> e.ins.id == e.key.id && (e.key.ReverseKey? ==> e.key.name in NamesOf(e.ins.watching))
  }

  ghost predicate Follows(s: Store) {
    && (forall k :: Matches(s, k))
    && (forall e :: e in s.log ==> Genuine(e))
    && Consistent(s.index)
  }

  lemma PutFollows(s: Store, k: Key, ins: Instance, at: int)
    requires Follows(s) && Genuine(Wrote(k, ins, at))
    ensures Follows(Put(s, k, ins, at))
  {
    var t := Put(s, k, ins, at);
    forall k' ensures Matches(t, k') {
      LastOnSnoc(s.log, Wrote(k, ins, at), k');
      assert Matches(s, k');
    }
  }

  lemma CutFollows(s: Store, k: Key)
    requires Follows(s)
    ensures Follows(Cut(s, k))
  {
    var t := Cut(s, k);
    forall k' ensures Matches(t, k') {
      LastOnSnoc(s.log, Removed(k), k');
      assert Matches(s, k');
    }
  }

  lemma SameStoreFollows(s: Store, t: Store)
    requires Follows(s) && t.index == s.index && t.log == s.log
    ensures Follows(t)
  {
    forall k ensures Matches(t, k) {
      assert Matches(s, k);
    }
  }

  lemma NextFollows(s: Store, l: Label)
    requires Follows(s)
    ensures Follows(Next(s, l))
  {
    match l
    case Call(pid, io) =>
      if pid in s.jobs && InRange(s.jobs[pid]) {
        var job := s.jobs[pid];
        if io.applied && job.Writing? {
          PutFollows(s, KeyOf(job), job.ins, io.at);
          SameStoreFollows(Put(s, KeyOf(job), job.ins, io.at), Next(s, l));
        } else if io.applied {
          CutFollows(s, KeyOf(job));
          SameStoreFollows(Cut(s, KeyOf(job)), Next(s, l));
        } else {
          SameStoreFollows(s, Next(s, l));
        }
      }
    case Reap(k) =>
      if k in s.reaps {
        SameStoreFollows(s, s.(reaps := s.reaps - multiset{k}));
        CutFollows(s.(reaps := s.reaps - multiset{k}), k);
      }
    case _ => SameStoreFollows(s, Next(s, l));
  }

  /** Over every interleaving of writes, unregistrations, failures and removals:
      each key holds what the last call applied to it left. */
  lemma {:induction false} RunFollows(ls: seq<Label>)
    ensures Follows(Run(NOTHING, ls))
  {
    if ls != [] {
      RunFollows(ls[..|ls| - 1]);
      NextFollows(Run(NOTHING, ls[..|ls| - 1]), ls[|ls| - 1]);
    }
  }

  // ----- Sound and complete -----

  /** The last event on the key is a write less than 120 seconds old. */
  ghost predicate Standing(log: seq<Event>, k: Key, now: int) {
    var e := LastOn(log, k); e.Some? && e.value.Wrote? && Alive(e.value.at, now)
  }

  lemma {:induction false} LastOnIsMember(log: seq<Event>, k: Key)
    ensures LastOn(log, k).Some? ==> LastOn(log, k).value in log && LastOn(log, k).value.key == k
  {
    if log != [] {
      LastOnIsMember(log[..|log| - 1], k);
    }
  }

  lemma StandingMeans(s: Store, name: string, id: string, now: int)
    requires Follows(s)
    ensures Standing(s.log, ForwardKey(id), now) <==> Present(s.index, id, now)
    ensures Standing(s.log, ReverseKey(name, id), now) <==> Watches(s.index, name, id, now)
  {
    assert Matches(s, ForwardKey(id)) && Matches(s, ReverseKey(name, id));
  }

  /** Sound, over every run: whoever is returned is registered as its last write
      left it, and was written with that watch, both within the last 120 seconds
      and not removed since. */
  lemma IndexIsSound(ls: seq<Label>, name: string, now: int, x: Instance)
    requires x in InstancesBy(Run(NOTHING, ls).index, name, now)
    ensures var f := LastOn(Run(NOTHING, ls).log, ForwardKey(x.id));
            f.Some? && f.value.Wrote? && f.value.ins == x && now - f.value.at < 120
    ensures var r := LastOn(Run(NOTHING, ls).log, ReverseKey(name, x.id));
            r.Some? && r.value.Wrote? && r.value.ins.id == x.id && name in NamesOf(r.value.ins.watching) && now - r.value.at < 120
  {
    var s := Run(NOTHING, ls);
    RunFollows(ls);
    ReturnedIff(s.index, name, now, x.id);
    StandingMeans(s, name, x.id, now);
    assert Matches(s, ForwardKey(x.id));
    LastOnIsMember(s.log, ReverseKey(name, x.id));
    assert Genuine(LastOn(s.log, ReverseKey(name, x.id)).value);
  }

  ghost predicate Returned(s: Store, name: string, id: string, now: int) {
    exists x :: x in InstancesBy(s.index, name, now) && x.id == id
  }

  /** Complete, over every run, while at most 100 watchers are live: an instance is
      returned if and only if on both of its keys the last event is a write less
      than 120 seconds old. */
  lemma ReturnedIffStanding(ls: seq<Label>, name: string, id: string, now: int)
    requires |Live(Watchers(Run(NOTHING, ls).index, name, now))| <= LIMIT
    ensures var s := Run(NOTHING, ls);
            Returned(s, name, id, now) <==> Standing(s.log, ForwardKey(id), now) && Standing(s.log, ReverseKey(name, id), now)
  {
    var s := Run(NOTHING, ls);
    RunFollows(ls);
    ReturnedIff(s.index, name, now, id);
    StandingMeans(s, name, id, now);
    if Present(s.index, id, now) && Watches(s.index, name, id, now) {
      assert s.index.forward[id].ins in InstancesBy(s.index, name, now) && s.index.forward[id].ins.id == id;
    }
  }

  /** From position n on, what was written was written less than 120 seconds ago. */
  ghost predicate YoungFrom(log: seq<Event>, n: nat, now: int) {
    forall m :: n <= m < |log| && log[m].Wrote? ==> Alive(log[m].at, now)
  }

  lemma {:induction false} StandingIff(log: seq<Event>, n: nat, k: Key, now: int)
    requires n < |log| && log[n].Wrote? && log[n].key == k && YoungFrom(log, n, now)
    ensures Standing(log, k, now) <==> LastOn(log, k) != Some(Removed(k))
  {
    var last := |log| - 1;
    if n < last && log[last].key != k {
      assert log[..last][n] == log[n];
      StandingIff(log[..last], n, k, now);
    }
  }

  /** In particular an instance whose two records were written, at positions n and
      m, less than 120 seconds ago: it is returned if and only if neither key has
      been removed after its last write. */
  lemma IndexIsComplete(ls: seq<Label>, name: string, id: string, now: int, n: nat, m: nat)
    requires var log := Run(NOTHING, ls).log;
             && n < |log| && log[n].Wrote? && log[n].key == ForwardKey(id) && YoungFrom(log, n, now)
             && m < |log| && log[m].Wrote? && log[m].key == ReverseKey(name, id) && YoungFrom(log, m, now)
    requires |Live(Watchers(Run(NOTHING, ls).index, name, now))| <= LIMIT
    ensures var s := Run(NOTHING, ls);
            Returned(s, name, id, now) <==>
            LastOn(s.log, ForwardKey(id)) != Some(Removed(ForwardKey(id))) &&
            LastOn(s.log, ReverseKey(name, id)) != Some(Removed(ReverseKey(name, id)))
  {
    ReturnedIffStanding(ls, name, id, now);
    StandingIff(Run(NOTHING, ls).log, n, ForwardKey(id), now);
    StandingIff(Run(NOTHING, ls).log, m, ReverseKey(name, id), now);
  }

  // ----- Where a later removal can come from -----

  /** Both records stand, no removal of them is on its way and nobody is
      unregistering the instance. */
  ghost predicate Safe(s: Store, name: string, id: string, now: int) {
    && Follows(s) && Standing(s.log, ForwardKey(id), now) && Standing(s.log, ReverseKey(name, id), now)
    && ForwardKey(id) !in s.reaps && ReverseKey(name, id) !in s.reaps
    && forall pid <- s.jobs :: s.jobs[pid].Removing? ==> s.jobs[pid].id != id
  }

  /** Time goes up to `now`, and nobody begins to unregister the instance. */
  predicate Undisturbed(l: Label, id: string, now: int) {
    match l
    case Spot(_, t) => t <= now
    case BeginUnregister(_, x, _) => x != id
    case Call(_, io) => Alive(io.at, now)
    case _ => true
  }

  lemma CallKeepsSafe(s: Store, pid: nat, io: Io, name: string, id: string, now: int)
    requires Safe(s, name, id, now) && Alive(io.at, now)
    ensures Safe(Next(s, Call(pid, io)), name, id, now)
  {
    NextFollows(s, Call(pid, io));
    if pid in s.jobs && InRange(s.jobs[pid]) && io.applied {
      var job := s.jobs[pid];
      var e := if job.Writing? then Wrote(KeyOf(job), job.ins, io.at) else Removed(KeyOf(job));
      LastOnSnoc(s.log, e, ForwardKey(id));
      LastOnSnoc(s.log, e, ReverseKey(name, id));
    }
  }

  lemma StepKeepsSafe(s: Store, l: Label, name: string, id: string, now: int)
    requires Safe(s, name, id, now) && Undisturbed(l, id, now)
    ensures Safe(Next(s, l), name, id, now)
  {
    NextFollows(s, l);
    match l
    case Call(pid, io) => CallKeepsSafe(s, pid, io, name, id, now);
    case Spot(k, t) => assert Matches(s, k);
    case Reap(k) =>
      LastOnSnoc(s.log, Removed(k), ForwardKey(id));
      LastOnSnoc(s.log, Removed(k), ReverseKey(name, id));
    case _ =>
  }

  /** A record that is alive is not spotted, so only a removal proposed before the
      write can take it: from a state in which none is on its way, the instance
      stays returned whatever else happens, until it expires or is unregistered. */
  lemma {:induction false} SafeStaysReturned(s: Store, ls: seq<Label>, name: string, id: string, now: int)
    requires Safe(s, name, id, now)
    requires forall n :: 0 <= n < |ls| ==> Undisturbed(ls[n], id, now)
    ensures Safe(Run(s, ls), name, id, now)
    ensures |Live(Watchers(Run(s, ls).index, name, now))| <= LIMIT ==> Returned(Run(s, ls), name, id, now)
  {
    var t := Run(s, ls);
    if ls != [] {
      SafeStaysReturned(s, ls[..|ls| - 1], name, id, now);
      StepKeepsSafe(Run(s, ls[..|ls| - 1]), ls[|ls| - 1], name, id, now);
    }
    StandingMeans(t, name, id, now);
    ReturnedIff(t.index, name, now, id);
    assert t.index.forward[id].ins.id == id;
  }

  /** The failing run: the records of a first write expire and are spotted, the
      instance renews with every call successful, and the removal of one of them
      is applied after that. One second later the instance is not returned. */
  lemma LateReapHidesInstance(id: string, app: string, env: string, key: string)
    ensures var ins := Instance(id, [W.Watching(app, env, [key])]);
            var name := WatchName(app, env, key);
            var s := Run(NOTHING, LateReap(ins, name));
            && s.log == LateLog(ins, name) + [Removed(ReverseKey(name, id))]
            && !Returned(s, name, id, 121)
  {
    var ins := Instance(id, [W.Watching(app, env, [key])]);
    var name := WatchName(app, env, key);
    OneName(app, env, key);
    LateReapLog(ins, name);
    var ls, k := LateReap(ins, name), ReverseKey(name, id);
    LastOnSnoc(LateLog(ins, name), Removed(k), k);
    if Returned(Run(NOTHING, ls), name, id, 121) {
      var x :| x in InstancesBy(Run(NOTHING, ls).index, name, 121) && x.id == id;
      IndexIsSound(ls, name, 121, x);
    }
  }

  function LateLog(ins: Instance, name: string): seq<Event> {
    [Wrote(ForwardKey(ins.id), ins, 0)] + [Wrote(ReverseKey(name, ins.id), ins, 0)]
    + [Wrote(ForwardKey(ins.id), ins, 120)] + [Wrote(ReverseKey(name, ins.id), ins, 120)]
  }

  /** Whatever is expired can be seen as such and removed. */
  lemma ExpiredIsReaped(s: Store, k: Key, now: int)
    requires WrittenAt(s.index, k).Some? && !Alive(WrittenAt(s.index, k).value, now)
    ensures WrittenAt(Next(Next(s, Spot(k, now)), Reap(k)).index, k) == None
  {
  }

  lemma LateReapLog(ins: Instance, name: string)
    requires NamesOf(ins.watching) == [name]
    ensures Run(NOTHING, LateReap(ins, name)).log == LateLog(ins, name) + [Removed(ReverseKey(name, ins.id))]
  {
    var k := ReverseKey(name, ins.id);
    var s1 := FullWrite(NOTHING, 0, ins, 0);
    OneWrite(NOTHING, 0, ins, name, 0);
    var s2 := Next(s1, Spot(k, 120));
    assert s2 == s1.(reaps := multiset{k});
    OneWrite(s2, 1, ins, name, 120);
    RunLateReap(ins, name);
    assert [] + [Wrote(ForwardKey(ins.id), ins, 0)] == [Wrote(ForwardKey(ins.id), ins, 0)];
  }

  function OkAt(at: int): Io {
    Io(true, true, at)
  }

  function LateReap(ins: Instance, name: string): seq<Label> {
    [Begin(0, ins)] + [Call(0, OkAt(0))] + [Call(0, OkAt(0))] + [Spot(ReverseKey(name, ins.id), 120)]
    + [Begin(1, ins)] + [Call(1, OkAt(120))] + [Call(1, OkAt(120))] + [Reap(ReverseKey(name, ins.id))]
  }

  /** A write of one watch with both calls successful. */
  function FullWrite(s: Store, pid: nat, ins: Instance, at: int): Store {
    Next(Next(Next(s, Begin(pid, ins)), Call(pid, OkAt(at))), Call(pid, OkAt(at)))
  }

  lemma RunSnoc(s: Store, ls: seq<Label>, l: Label)
    ensures Run(s, ls + [l]) == Next(Run(s, ls), l)
  {
    assert (ls + [l])[..|ls|] == ls;
  }

  lemma RunLateReap(ins: Instance, name: string)
    ensures var k := ReverseKey(name, ins.id);
            Run(NOTHING, LateReap(ins, name)) == Next(FullWrite(Next(FullWrite(NOTHING, 0, ins, 0), Spot(k, 120)), 1, ins, 120), Reap(k))
  {
    var k := ReverseKey(name, ins.id);
    var l1 := [Begin(0, ins)];
    var l2 := l1 + [Call(0, OkAt(0))];
    var l3 := l2 + [Call(0, OkAt(0))];
    var l4 := l3 + [Spot(k, 120)];
    var l5 := l4 + [Begin(1, ins)];
    var l6 := l5 + [Call(1, OkAt(120))];
    var l7 := l6 + [Call(1, OkAt(120))];
    assert [] + [Begin(0, ins)] == l1;
    RunSnoc(NOTHING, [], Begin(0, ins));
    RunSnoc(NOTHING, l1, Call(0, OkAt(0)));
    RunSnoc(NOTHING, l2, Call(0, OkAt(0)));
    RunSnoc(NOTHING, l3, Spot(k, 120));
    RunSnoc(NOTHING, l4, Begin(1, ins));
    RunSnoc(NOTHING, l5, Call(1, OkAt(120)));
    RunSnoc(NOTHING, l6, Call(1, OkAt(120)));
    RunSnoc(NOTHING, l7, Reap(k));
  }

  lemma OneName(app: string, env: string, key: string)
    ensures NamesOf([W.Watching(app, env, [key])]) == [WatchName(app, env, key)]
  {
    var w := [W.Watching(app, env, [key])];
    assert w[..0] == [] && NamesOf([]) == [];
    assert [key][..0] == [] && BlockNames(app, env, []) == [];
    assert BlockNames(app, env, [key]) == [] + [WatchName(app, env, key)];
  }

  lemma OneWrite(s: Store, pid: nat, ins: Instance, name: string, at: int)
    requires pid !in s.jobs && NamesOf(ins.watching) == [name]
    ensures var t := FullWrite(s, pid, ins, at);
            && t.jobs == s.jobs && t.reaps == s.reaps
            && t.log == s.log + [Wrote(ForwardKey(ins.id), ins, at)] + [Wrote(ReverseKey(name, ins.id), ins, at)]
            && WrittenAt(t.index, ReverseKey(name, ins.id)) == Some(at)
  {
    var s1 := Next(s, Begin(pid, ins));
    var s2 := Next(s1, Call(pid, OkAt(at)));
    assert s2.jobs == s.jobs[pid := Writing(ins, 1)];
  }

  // ----- After unregistering -----

  lemma {:induction false} LogGrows(s: Store, ls: seq<Label>)
    ensures |s.log| <= |Run(s, ls).log| && Run(s, ls).log[..|s.log|] == s.log
  {
    if ls != [] {
      LogGrows(s, ls[..|ls| - 1]);
    }
  }

  lemma {:induction false} FollowsOn(s: Store, ls: seq<Label>)
    requires Follows(s)
    ensures Follows(Run(s, ls))
  {
    if ls != [] {
      FollowsOn(s, ls[..|ls| - 1]);
      NextFollows(Run(s, ls[..|ls| - 1]), ls[|ls| - 1]);
    }
  }

  /** The log from position n on holds no write of the key. */
  ghost predicate UnwrittenFrom(log: seq<Event>, n: nat, k: Key) {
    forall m :: n <= m < |log| ==> !(log[m].Wrote? && log[m].key == k)
  }

  lemma {:induction false} StillGone(log: seq<Event>, n: nat, k: Key, now: int, t: int)
    requires n <= |log| && UnwrittenFrom(log, n, k) && !Standing(log[..n], k, now) && now <= t
    ensures !Standing(log, k, t)
  {
    if n < |log| {
      var last := |log| - 1;
      assert log[..last][..n] == log[..n];
      StillGone(log[..last], n, k, now, t);
    } else {
      assert log[..n] == log;
    }
  }

  /** An unregistration finds no visible record, or its first call removes it; in
      both cases the instance is not returned for any element from then on, over
      every run, until its forward record is written again. */
  lemma GoneUntilWritten(s: Store, ls: seq<Label>, name: string, id: string, now: int, t: int)
    requires Follows(s) && !Present(s.index, id, now) && now <= t
    requires UnwrittenFrom(Run(s, ls).log, |s.log|, ForwardKey(id))
    ensures !Returned(Run(s, ls), name, id, t)
  {
    var r := Run(s, ls);
    FollowsOn(s, ls);
    LogGrows(s, ls);
    StandingMeans(s, name, id, now);
    StillGone(r.log, |s.log|, ForwardKey(id), now, t);
    StandingMeans(r, name, id, t);
    ReturnedIff(r.index, name, t, id);
  }

  lemma UnregisterRemoves(s: Store, pid: nat, io: Io, now: int)
    requires pid in s.jobs && s.jobs[pid].Removing? && s.jobs[pid].next == 0 && io.applied
    ensures !Present(Next(s, Call(pid, io)).index, s.jobs[pid].id, now)
  {
  }

  // ----- A job on its own is the operation of the sequential model -----

  function Calls(pid: nat, io: nat -> Io, n: nat): seq<Label> {
    if n == 0 then [] else Calls(pid, io, n - 1) + [Call(pid, io(n - 1))]
  }

  /** The job after n of its calls, all reported successful at first. */
  function At(job: Job, n: nat): Job {
    job.(next := n)
  }

  /** The index after the forward call of a job. */
  function FirstCall(s: State, job: Job, io: Io): State {
    if !io.applied then s
    else match job
      case Writing(ins, _) => s.(forward := s.forward[ins.id := Forward(ins, io.at)])
      case Removing(id, _, _) => s.(forward := s.forward - {id})
  }

  lemma FirstStep(s: Store, pid: nat, io: Io)
    requires pid in s.jobs && s.jobs[pid].next == 0
    ensures Next(s, Call(pid, io)).index == FirstCall(s.index, s.jobs[pid], io)
    ensures Next(s, Call(pid, io)).jobs == Advance(s.jobs, pid, io.ok)
  {
  }

  lemma LaterStep(s: Store, pid: nat, io: Io)
    requires pid in s.jobs && 1 <= s.jobs[pid].next <= |NamesIn(s.jobs[pid])|
    ensures var job := s.jobs[pid];
            var name := NamesIn(job)[job.next - 1];
            Next(s, Call(pid, io)).index == if job.Writing? then PutReverse(s.index, name, job.ins.id, io) else CutReverse(s.index, name, job.id, io)
    ensures Next(s, Call(pid, io)).jobs == Advance(s.jobs, pid, io.ok)
  {
  }

  /** What n calls of a job leave, one after the other. */
  ghost predicate Did(s: Store, t: Store, pid: nat, job: Job, io: nat -> Io, n: nat) {
    && 1 <= n <= |NamesIn(job)| + 1
    && t.index == All(job.Writing?, FirstCall(s.index, job, io(0)), NamesIn(job)[..n - 1], IdOf(job), io)
    && t.jobs == if n == |NamesIn(job)| + 1 then s.jobs - {pid} else s.jobs[pid := At(job, n)]
  }

  lemma DidNext(s: Store, t: Store, pid: nat, job: Job, io: nat -> Io, n: nat)
    requires pid in s.jobs && Did(s, t, pid, job, io, n) && n <= |NamesIn(job)|
    ensures Did(s, Next(t, Call(pid, io(n))), pid, job, io, n + 1)
  {
    var names := NamesIn(job);
    LaterStep(t, pid, io(n));
    AllStep(job.Writing?, FirstCall(s.index, job, io(0)), names[..n - 1], names[n - 1], IdOf(job), io);
    assert names[..n] == names[..n - 1] + [names[n - 1]];
    assert t.jobs[pid] == At(job, n);
    assert s.jobs[pid := At(job, n)] - {pid} == s.jobs - {pid};
  }

  function Perform(s: Store, pid: nat, io: nat -> Io, n: nat): Store {
    if n == 0 then s else Next(Perform(s, pid, io, n - 1), Call(pid, io(n - 1)))
  }

  lemma {:induction false} PerformIsRun(s: Store, pid: nat, io: nat -> Io, n: nat)
    ensures Run(s, Calls(pid, io, n)) == Perform(s, pid, io, n)
  {
    if n > 0 {
      PerformIsRun(s, pid, io, n - 1);
      RunSnoc(s, Calls(pid, io, n - 1), Call(pid, io(n - 1)));
    }
  }

  lemma {:induction false} CallsAlone(s: Store, pid: nat, job: Job, io: nat -> Io, n: nat)
    requires pid in s.jobs && s.jobs[pid] == job && job.next == 0 && io(0).ok && 1 <= n <= |NamesIn(job)| + 1
    ensures Did(s, Perform(s, pid, io, n), pid, job, io, n)
  {
    if n == 1 {
      FirstStep(s, pid, io(0));
      assert Perform(s, pid, io, 0) == s;
      assert NamesIn(job)[..0] == [];
    } else {
      CallsAlone(s, pid, job, io, n - 1);
      DidNext(s, Perform(s, pid, io, n - 1), pid, job, io, n - 1);
    }
  }

  /** setInstanceInfo and UnregisterInstance without interruption are what their
      methods compute. */
  lemma WriteAlone(s: Store, pid: nat, ins: Instance, io: nat -> Io)
    requires pid !in s.jobs && io(0).ok
    ensures Run(Next(s, Begin(pid, ins)), Calls(pid, io, |NamesOf(ins.watching)| + 1)).index == Written(s.index, ins, io)
  {
    var names := NamesOf(ins.watching);
    CallsAlone(Next(s, Begin(pid, ins)), pid, Writing(ins, 0), io, |names| + 1);
    PerformIsRun(Next(s, Begin(pid, ins)), pid, io, |names| + 1);
    assert names[..|names|] == names;
  }

  lemma UnregisterAlone(s: Store, pid: nat, id: string, now: int, io: nat -> Io)
    requires pid !in s.jobs && io(0).ok && Present(s.index, id, now)
    ensures Run(Next(s, BeginUnregister(pid, id, now)), Calls(pid, io, |NamesOf(s.index.forward[id].ins.watching)| + 1)).index
            == Unregistered(s.index, id, now, io)
  {
    var names := NamesOf(s.index.forward[id].ins.watching);
    CallsAlone(Next(s, BeginUnregister(pid, id, now)), pid, Removing(id, names, 0), io, |names| + 1);
    PerformIsRun(Next(s, BeginUnregister(pid, id, now)), pid, io, |names| + 1);
    assert names[..|names|] == names;
  }
}
