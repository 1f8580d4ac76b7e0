/** Acknowledgement of proposals (raft_impl.go, registerPending, resolvePending,
    failAllPending, waitPending) as steps of concurrent threads: what happens
    under pendingMu is one step, and the send and the close that follow outside
    the lock are one step each. */
module Acks {
  import opened Strings

  /** What is sent on a request's channel: nil or an error, and the log index
      that produced it (None: shutdown). */
  datatype Ack = Ack(ok: bool, index: Option<nat>)

  /** A channel of capacity 1. */
  datatype Chan = Chan(buf: seq<Ack>, sends: nat, closes: nat)

  /** A thread that took a channel out of the map and still has to send on it,
      or has sent and still has to close it. */
  datatype Task = ToSend(id: nat, ack: Ack) | ToClose(id: nat)

  /** A replicated command as the acknowledgement sees it: its request id and
      whether the storage carries it out. */
  datatype LogCmd = LogCmd(id: nat, ok: bool)

  datatype State = State(lastId: nat, pending: set<nat>, chans: map<nat, Chan>, tasks: multiset<Task>,
                         applied: nat, dead: bool, returned: map<nat, Ack>, panicked: bool)

  function Init(): State {
    State(0, {}, map[], multiset{}, 0, false, map[], false)
  }

  datatype Label = Register | Cleanup(id: nat) | ApplyNext | FailAll | Work(task: Task) | Receive(id: nat)

  /** resolvePending up to the unlock. */
  function Take(s: State, id: nat, ack: Ack): State {
    if id == 0 || id !in s.pending then s
    else s.(pending := s.pending - {id}, tasks := s.tasks + multiset{ToSend(id, ack)})
  }

  /** failAllPending owes every pending channel the shutdown error. */
  function Failures(pending: set<nat>): (r: set<Task>)
    ensures forall t :: t in r <==> t.ToSend? && t.ack == Ack(false, None) && t.id in pending
  {
    set id | id in pending :: ToSend(id, Ack(false, None))
  }

  predicate Blocked(s: State, task: Task) {
    task.ToSend? && task.id in s.chans && |s.chans[task.id].buf| >= 1
  }

  function DoWork(s: State, task: Task): State {
    if task !in s.tasks || task.id !in s.chans || Blocked(s, task) then s
    else
      var c := s.chans[task.id];
      var rest := s.tasks - multiset{task};
      if c.closes > 0 then s.(panicked := true)
      else
        match task
        case ToSend(id, ack) =>
          s.(tasks := rest + multiset{ToClose(id)}, chans := s.chans[id := Chan(c.buf + [ack], c.sends + 1, c.closes)])
        case ToClose(id) =>
          s.(tasks := rest, chans := s.chans[id := c.(closes := c.closes + 1)])
  }

  /** One entry applied and resolved; an error ends the apply loop. */
  function Resolve(s: State, id: nat, ok: bool): State {
    Take(s.(applied := s.applied + 1, dead := !ok), id, Ack(ok, Some(s.applied)))
  }

  /** registerPending: the next id with a channel of its own. */
  function Open(s: State): State {
    var id := s.lastId + 1;
    s.(lastId := id, pending := s.pending + {id}, chans := s.chans[id := Chan([], 0, 0)])
  }

  function Next(log: seq<LogCmd>, s: State, l: Label): State {
    match l
    case Register => Open(s)
    case Cleanup(id) => s.(pending := s.pending - {id})
    case ApplyNext =>
      if s.dead || s.applied >= |log| then s else Resolve(s, log[s.applied].id, log[s.applied].ok)
    case FailAll =>
      s.(pending := {}, tasks := s.tasks + multiset(Failures(s.pending)))
    case Work(task) => DoWork(s, task)
    case Receive(id) =>
      if id in s.chans && id !in s.returned && s.chans[id].buf != [] then
        s.(returned := s.returned[id := s.chans[id].buf[0]], chans := s.chans[id := s.chans[id].(buf := s.chans[id].buf[1..])])
      else s
  }

  function Run(log: seq<LogCmd>, ls: seq<Label>): State {
    if ls == [] then Init() else Next(log, Run(log, ls[..|ls| - 1]), ls[|ls| - 1])
  }

  // ----- Every channel is sent to at most once and closed at most once -----

  /** An acknowledgement of success comes from an entry with that id, applied and
      carried out. */
  predicate Grounded(log: seq<LogCmd>, s: State, id: nat, ack: Ack) {
    ack.ok ==> ack.index.Some? && ack.index.value < s.applied <= |log| && log[ack.index.value] == LogCmd(id, true)
  }

  ghost predicate TaskFits(log: seq<LogCmd>, s: State, t: Task) {
    && s.tasks[t] == 1 && t.id in s.chans && t.id !in s.pending
    && s.chans[t.id].closes == 0
    && (t.ToSend? ==> s.chans[t.id].sends == 0 && s.chans[t.id].buf == [] && Grounded(log, s, t.id, t.ack))
    && (t.ToClose? ==> s.chans[t.id].sends == 1)
  }

  ghost predicate ChanFits(log: seq<LogCmd>, s: State, id: nat)
    requires id in s.chans
  {
    var c := s.chans[id];
    && 1 <= id <= s.lastId && c.sends <= 1 && c.closes <= 1 && |c.buf| <= c.sends
    && (id in s.pending ==> c.sends == 0 && c.closes == 0)
    && (forall a :: a in c.buf ==> Grounded(log, s, id, a))
  }

  ghost predicate Inv(log: seq<LogCmd>, s: State) {
    && !s.panicked && s.applied <= |log|
    && (forall id :: id in s.pending ==> id in s.chans)
    && (forall id :: id in s.chans ==> ChanFits(log, s, id))
    && (forall t :: t in s.tasks ==> TaskFits(log, s, t))
    && (forall t, u :: t in s.tasks && u in s.tasks && t.id == u.id ==> t == u)
    && (forall id :: id in s.returned ==> Grounded(log, s, id, s.returned[id]))
  }

  lemma OpenKeepsInv(log: seq<LogCmd>, s: State)
    requires Inv(log, s)
    ensures Inv(log, Open(s))
  {
    var s' := Open(s);
    forall i | i in s.chans ensures i != s'.lastId && ChanFits(log, s', i) {
      assert ChanFits(log, s, i);
    }
    forall t | t in s'.tasks ensures TaskFits(log, s', t) {
      assert TaskFits(log, s, t);
    }
  }

  lemma TakeKeepsInv(log: seq<LogCmd>, s: State, id: nat, ack: Ack)
    requires Inv(log, s) && Grounded(log, s, id, ack)
    ensures Inv(log, Take(s, id, ack))
  {
    var s' := Take(s, id, ack);
    if s' != s {
      forall t | t in s.tasks ensures t.id != id {
        assert TaskFits(log, s, t);
      }
      assert ToSend(id, ack) !in s.tasks;
      forall t | t in s'.tasks ensures TaskFits(log, s', t) {
        if t in s.tasks {
          assert TaskFits(log, s, t);
        } else {
          assert ChanFits(log, s, id);
        }
      }
      forall i | i in s'.chans ensures ChanFits(log, s', i) {
        assert ChanFits(log, s, i);
      }
    }
  }

  lemma AdvanceKeepsInv(log: seq<LogCmd>, s: State, m: State)
    requires Inv(log, s) && s.applied < |log| && m == s.(applied := s.applied + 1, dead := m.dead)
    ensures Inv(log, m)
  {
    forall i | i in m.chans ensures ChanFits(log, m, i) {
      assert ChanFits(log, s, i);
    }
    forall t | t in m.tasks ensures TaskFits(log, m, t) {
      assert TaskFits(log, s, t);
    }
  }

  lemma ApplyKeepsInv(log: seq<LogCmd>, s: State)
    requires Inv(log, s)
    ensures Inv(log, Next(log, s, ApplyNext))
  {
    if !s.dead && s.applied < |log| {
      var e := log[s.applied];
      var m := s.(applied := s.applied + 1, dead := !e.ok);
      var ack := Ack(e.ok, Some(s.applied));
      AdvanceKeepsInv(log, s, m);
      assert Grounded(log, m, e.id, ack);
      TakeKeepsInv(log, m, e.id, ack);
    }
  }

  lemma FailAllTasks(log: seq<LogCmd>, s: State, t: Task)
    requires Inv(log, s) && t in Next(log, s, FailAll).tasks
    ensures t.id in s.chans && Next(log, s, FailAll).tasks[t] == 1
    ensures if t.id in s.pending then t == ToSend(t.id, Ack(false, None)) else t in s.tasks
  {
    var failed := Failures(s.pending);
    assert Next(log, s, FailAll).tasks[t] == s.tasks[t] + multiset(failed)[t];
    if t in s.tasks {
      assert TaskFits(log, s, t);
      assert t !in failed;
    } else {
      assert t in failed;
    }
  }

  lemma ReplacedTasksKeepInv(log: seq<LogCmd>, s: State, s': State)
    requires Inv(log, s) && s' == s.(pending := {}, tasks := s'.tasks)
    requires forall t :: t in s'.tasks ==> t.id in s.chans && s'.tasks[t] == 1
    requires forall t :: t in s'.tasks ==> if t.id in s.pending then t == ToSend(t.id, Ack(false, None)) else t in s.tasks
    ensures Inv(log, s')
  {
    forall t | t in s'.tasks ensures TaskFits(log, s', t) {
      assert ChanFits(log, s, t.id);
      if t in s.tasks {
        assert TaskFits(log, s, t);
      }
    }
    forall i | i in s'.chans ensures ChanFits(log, s', i) {
      assert ChanFits(log, s, i);
    }
  }

  lemma FailAllKeepsInv(log: seq<LogCmd>, s: State)
    requires Inv(log, s)
    ensures Inv(log, Next(log, s, FailAll))
  {
    var s' := Next(log, s, FailAll);
    forall t | t in s'.tasks
      ensures t.id in s.chans && s'.tasks[t] == 1
      ensures if t.id in s.pending then t == ToSend(t.id, Ack(false, None)) else t in s.tasks
    {
      FailAllTasks(log, s, t);
    }
    ReplacedTasksKeepInv(log, s, s');
  }

  /** A thread's work on its channel changes that channel and its own task. */
  lemma SendKeepsInv(log: seq<LogCmd>, s: State, task: Task)
    requires Inv(log, s) && task in s.tasks && task.ToSend?
    ensures Inv(log, DoWork(s, task)) && !Blocked(s, task)
  {
    assert TaskFits(log, s, task) && ChanFits(log, s, task.id);
    var s', done := DoWork(s, task), ToClose(task.id);
    assert s'.tasks == s.tasks - multiset{task} + multiset{done};
    assert done !in s.tasks;
    forall t | t in s'.tasks ensures TaskFits(log, s', t) && (t == done || (t in s.tasks && t.id != task.id)) {
      if t != done {
        assert s'.tasks[t] == s.tasks[t] - multiset{task}[t];
        assert TaskFits(log, s, t);
      }
    }
    forall i | i in s'.chans ensures ChanFits(log, s', i) {
      assert ChanFits(log, s, i);
    }
  }

  lemma CloseKeepsInv(log: seq<LogCmd>, s: State, task: Task)
    requires Inv(log, s) && task in s.tasks && task.ToClose?
    ensures Inv(log, DoWork(s, task))
  {
    assert TaskFits(log, s, task) && ChanFits(log, s, task.id);
    var s' := DoWork(s, task);
    assert s'.tasks == s.tasks - multiset{task};
    forall t | t in s'.tasks ensures TaskFits(log, s', t) {
      assert s'.tasks[t] == s.tasks[t] - multiset{task}[t];
      assert TaskFits(log, s, t) && t.id != task.id;
    }
    forall i | i in s'.chans ensures ChanFits(log, s', i) {
      assert ChanFits(log, s, i);
    }
  }

  lemma WorkKeepsInv(log: seq<LogCmd>, s: State, task: Task)
    requires Inv(log, s)
    ensures Inv(log, DoWork(s, task)) && (task in s.tasks ==> !Blocked(s, task))
  {
    if task in s.tasks {
      if task.ToSend? {
        SendKeepsInv(log, s, task);
      } else {
        CloseKeepsInv(log, s, task);
      }
    }
  }

  /** Receiving takes the acknowledgement out of its channel. */
  lemma ReceiveKeepsInv(log: seq<LogCmd>, s: State, id: nat)
    requires Inv(log, s)
    ensures Inv(log, Next(log, s, Receive(id)))
  {
    if id in s.chans && id !in s.returned && s.chans[id].buf != [] {
      var c := s.chans[id];
      assert ChanFits(log, s, id) && c.buf[0] in c.buf;
      TakenOutKeepsInv(log, s, id, c.(buf := c.buf[1..]));
    }
  }

  lemma TakenOutKeepsInv(log: seq<LogCmd>, s: State, id: nat, c: Chan)
    requires Inv(log, s) && id in s.chans && s.chans[id].buf != [] && c == s.chans[id].(buf := s.chans[id].buf[1..])
    requires Grounded(log, s, id, s.chans[id].buf[0])
    ensures Inv(log, s.(returned := s.returned[id := s.chans[id].buf[0]], chans := s.chans[id := c]))
  {
    var s' := s.(returned := s.returned[id := s.chans[id].buf[0]], chans := s.chans[id := c]);
    forall t | t in s'.tasks ensures TaskFits(log, s', t) {
      assert TaskFits(log, s, t);
    }
    forall i | i in s'.chans ensures ChanFits(log, s', i) {
      assert ChanFits(log, s, i);
    }
  }

  lemma CleanupKeepsInv(log: seq<LogCmd>, s: State, id: nat)
    requires Inv(log, s)
    ensures Inv(log, Next(log, s, Cleanup(id)))
  {
    var s' := Next(log, s, Cleanup(id));
    forall t | t in s'.tasks ensures TaskFits(log, s', t) {
      assert TaskFits(log, s, t);
    }
    forall i | i in s'.chans ensures ChanFits(log, s', i) {
      assert ChanFits(log, s, i);
    }
  }

  /** Over every interleaving: no thread sends on or closes a closed channel, no
      channel is sent to or closed twice, no sender ever blocks, and a request
      returns nil only if an entry with its id was applied without error. */
  lemma {:induction false} AcksAreSafe(log: seq<LogCmd>, ls: seq<Label>)
    ensures Inv(log, Run(log, ls))
    ensures forall t :: t in Run(log, ls).tasks ==> !Blocked(Run(log, ls), t)
  {
    if ls != [] {
      var s, l := Run(log, ls[..|ls| - 1]), ls[|ls| - 1];
      AcksAreSafe(log, ls[..|ls| - 1]);
      match l {
        case Register => OpenKeepsInv(log, s);
        case Cleanup(id) => CleanupKeepsInv(log, s, id);
        case ApplyNext => ApplyKeepsInv(log, s);
        case FailAll => FailAllKeepsInv(log, s);
        case Work(task) => WorkKeepsInv(log, s, task);
        case Receive(id) => ReceiveKeepsInv(log, s, id);
      }
    }
    var r := Run(log, ls);
    forall t | t in r.tasks ensures !Blocked(r, t) {
      WorkKeepsInv(log, r, t);
    }
  }

  /** Only the last entry applied can have been rejected, and only when the loop
      has ended. */
  ghost predicate CarriedOut(log: seq<LogCmd>, applied: nat, dead: bool) {
    && applied <= |log| && (dead ==> applied >= 1 && !log[applied - 1].ok)
    && forall i :: 0 <= i < applied ==> log[i].ok || (dead && i == applied - 1)
  }

  lemma NextAppliesOne(log: seq<LogCmd>, s: State, l: Label)
    ensures var s' := Next(log, s, l);
            if l.ApplyNext? && !s.dead && s.applied < |log| then s'.applied == s.applied + 1 && s'.dead == !log[s.applied].ok
            else s'.applied == s.applied && s'.dead == s.dead
  {
  }

  lemma {:induction false} AppliedWereCarriedOut(log: seq<LogCmd>, ls: seq<Label>)
    ensures CarriedOut(log, Run(log, ls).applied, Run(log, ls).dead)
  {
    if ls != [] {
      AppliedWereCarriedOut(log, ls[..|ls| - 1]);
      NextAppliesOne(log, Run(log, ls[..|ls| - 1]), ls[|ls| - 1]);
    }
  }

  lemma {:induction false} ReturnedWasRegistered(log: seq<LogCmd>, ls: seq<Label>, id: nat)
    requires id in Run(log, ls).returned
    ensures id in Run(log, ls).chans && id >= 1
  {
    AcksAreSafe(log, ls);
    ReturnedWasSent(log, ls, id);
    assert ChanFits(log, Run(log, ls), id);
  }

  /** What a nil always means: an entry with the request's id was applied, and it
      and everything before it was carried out. */
  lemma NilIsGrounded(log: seq<LogCmd>, ls: seq<Label>, id: nat)
    requires id in Run(log, ls).returned && Run(log, ls).returned[id].ok
    ensures NilReads(log, Run(log, ls), id)
  {
    AcksAreSafe(log, ls);
    AppliedWereCarriedOut(log, ls);
    ReturnedWasRegistered(log, ls, id);
    NilInState(log, Run(log, ls), id);
  }

  ghost predicate NilReads(log: seq<LogCmd>, s: State, id: nat)
    requires id in s.returned
  {
    && id >= 1 && s.returned[id].index.Some?
    && var i := s.returned[id].index.value;
    && i < s.applied <= |log| && log[i].id == id
    && forall j :: 0 <= j <= i ==> log[j].ok
  }

  lemma NilInState(log: seq<LogCmd>, s: State, id: nat)
    requires Inv(log, s) && CarriedOut(log, s.applied, s.dead) && id >= 1 && id in s.returned && s.returned[id].ok
    ensures NilReads(log, s, id)
  {
    assert Grounded(log, s, id, s.returned[id]);
  }

  // ----- Every request is answered -----

  lemma RunTwice(log: seq<LogCmd>, ls: seq<Label>, a: Label, b: Label)
    ensures Run(log, ls + [a, b]) == Next(log, Next(log, Run(log, ls), a), b)
  {
    var one, two := ls + [a], ls + [a, b];
    assert one[..|ls|] == ls && two[..|one|] == one;
  }

  /** What the invariant says of one request. */
  ghost predicate IdFits(s: State, id: nat) {
    && (id in s.pending ==> id >= 1)
    && (id in s.chans ==> id <= s.lastId && |s.chans[id].buf| <= s.chans[id].sends)
    && forall ack :: ToSend(id, ack) in s.tasks ==> id in s.chans && s.chans[id].closes == 0 && s.chans[id].buf == []
  }

  lemma IdFitsRun(log: seq<LogCmd>, ls: seq<Label>, id: nat)
    ensures IdFits(Run(log, ls), id)
  {
    AcksAreSafe(log, ls);
    IdFitsInv(log, Run(log, ls), id);
  }

  lemma IdFitsInv(log: seq<LogCmd>, s: State, id: nat)
    requires Inv(log, s)
    ensures IdFits(s, id)
  {
    if id in s.chans {
      assert ChanFits(log, s, id);
    }
    forall ack | ToSend(id, ack) in s.tasks ensures id in s.chans && s.chans[id].closes == 0 && s.chans[id].buf == [] {
      assert TaskFits(log, s, ToSend(id, ack));
    }
  }

  /** Who has received was sent to, so no pending request has. */
  lemma {:induction false} ReturnedWasSent(log: seq<LogCmd>, ls: seq<Label>, id: nat)
    requires id in Run(log, ls).returned
    ensures id in Run(log, ls).chans && Run(log, ls).chans[id].sends >= 1
  {
    if ls != [] {
      var before := ls[..|ls| - 1];
      IdFitsRun(log, before, id);
      if id in Run(log, before).returned {
        ReturnedWasSent(log, before, id);
      } else {
        ReturnedGrows(log, Run(log, before), ls[|ls| - 1], id);
      }
      SendsGrow(log, Run(log, before), ls[|ls| - 1], id);
    }
  }

  /** What a step leaves as it was: applying and failing touch no channel, and
      work on a channel touches nothing of the callers. */
  lemma WorkFrame(s: State, task: Task, id: nat)
    ensures var s' := DoWork(s, task);
            && s'.returned == s.returned && s'.lastId == s.lastId
            && (id in s.chans ==> id in s'.chans && s'.chans[id].sends >= s.chans[id].sends)
  {
  }

  lemma ApplyFrame(log: seq<LogCmd>, s: State)
    ensures var s' := Next(log, s, ApplyNext);
            s'.returned == s.returned && s'.lastId == s.lastId && s'.chans == s.chans
  {
  }

  lemma ReturnedGrows(log: seq<LogCmd>, s: State, l: Label, id: nat)
    requires id in Next(log, s, l).returned && id !in s.returned
    ensures id in s.chans && s.chans[id].buf != []
  {
    match l {
      case Work(task) => WorkFrame(s, task, id);
      case ApplyNext => ApplyFrame(log, s);
      case _ =>
    }
  }

  lemma SendsGrow(log: seq<LogCmd>, s: State, l: Label, id: nat)
    requires id in s.chans && id <= s.lastId
    ensures id in Next(log, s, l).chans && Next(log, s, l).chans[id].sends >= s.chans[id].sends
  {
    match l {
      case Work(task) => WorkFrame(s, task, id);
      case ApplyNext => ApplyFrame(log, s);
      case _ =>
    }
  }

  /** A request whose answer is owed gets it: one send and one receive away. */
  lemma OwedIsReceived(log: seq<LogCmd>, s: State, id: nat, ack: Ack)
    requires IdFits(s, id) && ToSend(id, ack) in s.tasks && id !in s.returned
    ensures var r := Next(log, Next(log, s, Work(ToSend(id, ack))), Receive(id)).returned;
            id in r && r[id] == ack
  {
    assert DoWork(s, ToSend(id, ack)).chans[id].buf == [ack];
  }

  /** The answer that a step owes a pending request. */
  lemma ResolveOwes(log: seq<LogCmd>, s: State)
    requires !s.dead && s.applied < |log| && log[s.applied].id in s.pending && log[s.applied].id != 0
    ensures ToSend(log[s.applied].id, Ack(log[s.applied].ok, Some(s.applied))) in Next(log, s, ApplyNext).tasks
  {
  }

  lemma FailAllOwes(log: seq<LogCmd>, s: State, id: nat)
    requires id in s.pending
    ensures ToSend(id, Ack(false, None)) in Next(log, s, FailAll).tasks
  {
    assert ToSend(id, Ack(false, None)) in Failures(s.pending);
  }

  /** Over every run: a request pending when its entry is applied is owed the
      outcome of that entry, an error if it was rejected, and receives it. */
  lemma AppliedIsAnswered(log: seq<LogCmd>, ls: seq<Label>)
    requires var s := Run(log, ls); !s.dead && s.applied < |log| && log[s.applied].id in s.pending
    ensures var s := Run(log, ls);
            var id, ack := log[s.applied].id, Ack(log[s.applied].ok, Some(s.applied));
            && ToSend(id, ack) in Run(log, ls + [ApplyNext]).tasks
            && var r := Run(log, ls + [ApplyNext] + [Work(ToSend(id, ack)), Receive(id)]).returned;
            id in r && r[id] == ack
  {
    var s := Run(log, ls);
    var id, ack := log[s.applied].id, Ack(log[s.applied].ok, Some(s.applied));
    PendingIsNew(log, ls, id);
    ResolveOwes(log, s);
    Answered(log, ls, ApplyNext, id, ack);
  }

  /** Over every run: a request pending at shutdown is owed the shutdown error
      and receives it. */
  lemma ShutdownIsAnswered(log: seq<LogCmd>, ls: seq<Label>, id: nat)
    requires id in Run(log, ls).pending
    ensures var ack := Ack(false, None);
            && ToSend(id, ack) in Run(log, ls + [FailAll]).tasks
            && var r := Run(log, ls + [FailAll] + [Work(ToSend(id, ack)), Receive(id)]).returned;
            id in r && r[id] == ack
  {
    PendingIsNew(log, ls, id);
    FailAllOwes(log, Run(log, ls), id);
    Answered(log, ls, FailAll, id, Ack(false, None));
  }

  lemma PendingIsNew(log: seq<LogCmd>, ls: seq<Label>, id: nat)
    requires id in Run(log, ls).pending
    ensures id >= 1 && id !in Run(log, ls).returned
  {
    AcksAreSafe(log, ls);
    assert ChanFits(log, Run(log, ls), id);
    if id in Run(log, ls).returned {
      ReturnedWasSent(log, ls, id);
    }
  }

  lemma Answered(log: seq<LogCmd>, ls: seq<Label>, l: Label, id: nat, ack: Ack)
    requires (l.ApplyNext? || l.FailAll?) && id !in Run(log, ls).returned
    requires ToSend(id, ack) in Next(log, Run(log, ls), l).tasks
    ensures ToSend(id, ack) in Run(log, ls + [l]).tasks
    ensures var r := Run(log, ls + [l] + [Work(ToSend(id, ack)), Receive(id)]).returned;
            id in r && r[id] == ack
  {
    assert (ls + [l])[..|ls|] == ls;
    IdFitsRun(log, ls + [l], id);
    OwedIsReceived(log, Run(log, ls + [l]), id, ack);
    RunTwice(log, ls + [l], Work(ToSend(id, ack)), Receive(id));
  }

  /** Where the answer of a request is: still to come, owed, in its channel or
      received. */
  ghost predicate Tracked(s: State, id: nat) {
    || id in s.pending || (exists ack :: ToSend(id, ack) in s.tasks)
    || (id in s.chans && s.chans[id].buf != []) || id in s.returned
  }

  lemma WorkKeepsTracked(s: State, task: Task, id: nat)
    requires IdFits(s, id) && Tracked(s, id)
    ensures Tracked(DoWork(s, task), id)
  {
    if exists ack :: ToSend(id, ack) in s.tasks {
      var ack :| ToSend(id, ack) in s.tasks;
      if task == ToSend(id, ack) {
        assert DoWork(s, task).chans[id].buf == [ack];
      } else {
        assert ToSend(id, ack) in DoWork(s, task).tasks;
      }
    }
  }

  lemma ApplyKeepsTracked(log: seq<LogCmd>, s: State, id: nat)
    requires IdFits(s, id) && Tracked(s, id)
    ensures Tracked(Next(log, s, ApplyNext), id)
  {
    var s' := Next(log, s, ApplyNext);
    if exists ack :: ToSend(id, ack) in s.tasks {
      var ack :| ToSend(id, ack) in s.tasks;
      assert ToSend(id, ack) in s'.tasks;
    } else if id in s.pending && id !in s'.pending {
      ResolveOwes(log, s);
    }
  }

  lemma StepKeepsTracked(log: seq<LogCmd>, s: State, l: Label, id: nat)
    requires IdFits(s, id) && Tracked(s, id) && l != Cleanup(id)
    ensures Tracked(Next(log, s, l), id)
  {
    if l.Work? {
      WorkKeepsTracked(s, l.task, id);
    } else if l.ApplyNext? {
      ApplyKeepsTracked(log, s, id);
    } else if exists ack :: ToSend(id, ack) in s.tasks {
      var ack :| ToSend(id, ack) in s.tasks;
      assert ToSend(id, ack) in Next(log, s, l).tasks;
    } else if id in s.pending && l.FailAll? {
      FailAllOwes(log, s, id);
    }
  }

  lemma RegisterTracks(log: seq<LogCmd>, s: State, l: Label, id: nat)
    requires s.lastId < id <= Next(log, s, l).lastId
    ensures Tracked(Next(log, s, l), id)
  {
    match l {
      case Work(task) => WorkFrame(s, task, id);
      case ApplyNext => ApplyFrame(log, s);
      case _ =>
    }
  }

  /** Over every interleaving no request is forgotten: unless its own caller gave
      up, the answer of a registered request is still to come, owed to it, in its
      channel or received. */
  lemma {:induction false} NoRequestIsForgotten(log: seq<LogCmd>, ls: seq<Label>, id: nat)
    requires Cleanup(id) !in ls && 1 <= id <= Run(log, ls).lastId
    ensures Tracked(Run(log, ls), id)
  {
    if ls != [] {
      var s, l := Run(log, ls[..|ls| - 1]), ls[|ls| - 1];
      IdFitsRun(log, ls[..|ls| - 1], id);
      if id <= s.lastId {
        NoRequestIsForgotten(log, ls[..|ls| - 1], id);
        StepKeepsTracked(log, s, l, id);
      } else {
        RegisterTracks(log, s, l, id);
      }
    }
  }

  /** A request whose caller gave up: not pending, nothing owed, nothing sent. */
  ghost predicate GivenUp(s: State, id: nat) {
    && id <= s.lastId && id !in s.pending && id !in s.returned && (forall t :: t in s.tasks ==> t.id != id)
    && (id in s.chans ==> s.chans[id].buf == [])
  }

  lemma WorkKeepsGivenUp(s: State, task: Task, id: nat)
    requires GivenUp(s, id)
    ensures GivenUp(DoWork(s, task), id)
  {
    var s' := DoWork(s, task);
    forall t | t in s'.tasks ensures t.id != id {
      assert t in s.tasks || (task in s.tasks && t.id == task.id);
    }
  }

  lemma StepKeepsGivenUp(log: seq<LogCmd>, s: State, l: Label, id: nat)
    requires GivenUp(s, id)
    ensures GivenUp(Next(log, s, l), id)
  {
    match l {
      case Work(task) => WorkKeepsGivenUp(s, task, id);
      case _ =>
    }
  }

  /** Over every run: giving up on a pending request takes it out of the map, and
      whatever happens afterwards it receives nothing. */
  lemma {:induction false} GivenUpIsNeverAnswered(log: seq<LogCmd>, ls: seq<Label>, id: nat, more: seq<Label>)
    requires id in Run(log, ls).pending
    ensures GivenUp(Run(log, ls + [Cleanup(id)] + more), id)
    decreases |more|
  {
    var from := ls + [Cleanup(id)];
    if more == [] {
      assert from[..|ls|] == ls && from + more == from;
      AcksAreSafe(log, ls);
      PendingIsNew(log, ls, id);
      CleanupGivesUp(log, Run(log, ls), id);
    } else {
      var n := |more| - 1;
      GivenUpIsNeverAnswered(log, ls, id, more[..n]);
      assert (from + more)[..|from + more| - 1] == from + more[..n];
      StepKeepsGivenUp(log, Run(log, from + more[..n]), more[n], id);
    }
  }

  lemma CleanupGivesUp(log: seq<LogCmd>, s: State, id: nat)
    requires Inv(log, s) && id in s.pending && id !in s.returned
    ensures GivenUp(Next(log, s, Cleanup(id)), id)
  {
    assert ChanFits(log, s, id);
    forall t | t in s.tasks ensures t.id != id {
      assert TaskFits(log, s, t);
    }
  }
}
