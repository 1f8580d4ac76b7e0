/** Requests and the commands they stand for (raft_impl.go, SetKV, UnsetKV,
    propose, applyMutateLogEntry): the acknowledgement protocol run over a log of
    commands and the store that carries them out. */
module Requests {
  import opened Strings
  import opened Storage
  import opened Commands
  import opened Convergence
  import opened Acks

  /** The committed log this process applies, and the store it starts from. */
  datatype World = World(base: Tree, log: seq<Command>)

  /** The store after the first n entries. */
  function TreeAt(w: World, n: nat): Tree
    requires n <= |w.log|
  {
    if n == 0 then w.base else Apply(TreeAt(w, n - 1), w.log[n - 1])
  }

  /** The storage carries out entry i where the log has it. */
  predicate Accepted(w: World, i: nat)
    requires i < |w.log|
  {
    Mutate(TreeAt(w, i), w.log[i]).Applied?
  }

  /** The process: its acknowledgements, its store, and the command each request
      handed to raft. */
  datatype Process = Process(acks: Acks.State, tree: Tree, proposed: map<nat, Command>)

  datatype Step = Protocol(ack: Acks.Label) | Propose(id: nat, cmd: Command)

  function Begin(w: World): Process {
    Process(Acks.Init(), w.base, map[])
  }

  function After(w: World, p: Process, l: Step): Process {
    match l
    case Propose(id, cmd) =>
      if id in p.acks.chans && id !in p.proposed && cmd.requestId == id then p.(proposed := p.proposed[id := cmd]) else p
    case Protocol(ack) =>
      if !ack.ApplyNext? then p.(acks := Acks.Next([], p.acks, ack))
      else if p.acks.dead || p.acks.applied >= |w.log| then p
      else
        var c := w.log[p.acks.applied];
        Process(Resolve(p.acks, c.requestId, Mutate(p.tree, c).Applied?), Apply(p.tree, c), p.proposed)
  }

  function Execute(w: World, steps: seq<Step>): Process {
    if steps == [] then Begin(w) else After(w, Execute(w, steps[..|steps| - 1]), steps[|steps| - 1])
  }

  // ----- The protocol sees only ids and outcomes -----

  function Outcomes(w: World): seq<LogCmd> {
    seq(|w.log|, i requires 0 <= i < |w.log| => LogCmd(w.log[i].requestId, Accepted(w, i)))
  }

  function Labels(steps: seq<Step>): seq<Acks.Label> {
    if steps == [] then []
    else
      var n := |steps| - 1;
      Labels(steps[..n]) + if steps[n].Protocol? then [steps[n].ack] else []
  }

  lemma {:induction false} ExecuteFollowsProtocol(w: World, steps: seq<Step>)
    ensures var p := Execute(w, steps);
            && p.acks == Acks.Run(Outcomes(w), Labels(steps))
            && p.acks.applied <= |w.log| && p.tree == TreeAt(w, p.acks.applied)
            && forall id :: id in p.proposed ==> p.proposed[id].requestId == id
  {
    if steps != [] {
      var n := |steps| - 1;
      ExecuteFollowsProtocol(w, steps[..n]);
      AppliedWereCarriedOut(Outcomes(w), Labels(steps));
      AfterFollowsProtocol(w, Execute(w, steps[..n]), steps[n]);
      if steps[n].Protocol? {
        var before := Labels(steps[..n]);
        assert (before + [steps[n].ack])[..|before|] == before;
      } else {
        assert Labels(steps) == Labels(steps[..n]);
      }
    }
  }

  lemma AfterFollowsProtocol(w: World, p: Process, l: Step)
    requires p.acks.applied <= |w.log| && p.tree == TreeAt(w, p.acks.applied)
    ensures var q := After(w, p, l);
            && q.acks == (if l.Protocol? then Acks.Next(Outcomes(w), p.acks, l.ack) else p.acks)
            && (q.acks.applied <= |w.log| ==> q.tree == TreeAt(w, q.acks.applied))
  {
    if l.Protocol? && l.ack.ApplyNext? {
      ApplyFollowsProtocol(w, p);
    } else if l.Protocol? {
      NextAppliesOne(Outcomes(w), p.acks, l.ack);
      OthersIgnoreLog(Outcomes(w), p.acks, l.ack);
    }
  }

  lemma OthersIgnoreLog(log: seq<LogCmd>, s: Acks.State, l: Acks.Label)
    requires !l.ApplyNext?
    ensures Acks.Next([], s, l) == Acks.Next(log, s, l)
  {
  }

  lemma ResolveIs(log: seq<LogCmd>, s: Acks.State, id: nat, ok: bool)
    requires !s.dead && s.applied < |log| && log[s.applied] == LogCmd(id, ok)
    ensures Acks.Next(log, s, ApplyNext) == Resolve(s, id, ok)
  {
  }

  lemma AppliesNext(w: World, p: Process, n: nat)
    requires n == p.acks.applied < |w.log| && !p.acks.dead && p.tree == TreeAt(w, n)
    ensures After(w, p, Protocol(ApplyNext)) == Process(Resolve(p.acks, w.log[n].requestId, Accepted(w, n)), TreeAt(w, n + 1), p.proposed)
  {
  }

  lemma ApplyFollowsProtocol(w: World, p: Process)
    requires p.acks.applied <= |w.log| && p.tree == TreeAt(w, p.acks.applied)
    ensures var q := After(w, p, Protocol(ApplyNext));
            && q.acks == Acks.Next(Outcomes(w), p.acks, ApplyNext)
            && q.acks.applied <= |w.log| && q.tree == TreeAt(w, q.acks.applied)
  {
    var n := p.acks.applied;
    NextAppliesOne(Outcomes(w), p.acks, ApplyNext);
    if !p.acks.dead && n < |w.log| {
      AppliesNext(w, p, n);
      ResolveIs(Outcomes(w), p.acks, w.log[n].requestId, Accepted(w, n));
    }
  }

  // ----- Which command a nil stands for -----

  /** At most one position of the log carries the id. */
  predicate UniqueId(log: seq<Command>, id: nat) {
    forall i, j :: 0 <= i < |log| && 0 <= j < |log| && log[i].requestId == id && log[j].requestId == id ==> i == j
  }

  /** What a nil always means: an entry with the request's id was applied, and the
      storage carried it out and everything before it. */
  lemma NilMeansCarriedOut(w: World, steps: seq<Step>, id: nat)
    requires id in Execute(w, steps).acks.returned && Execute(w, steps).acks.returned[id].ok
    ensures var p := Execute(w, steps);
            && id >= 1 && p.acks.returned[id].index.Some?
            && var i := p.acks.returned[id].index.value;
            && i < p.acks.applied <= |w.log| && w.log[i].requestId == id
            && forall j :: 0 <= j <= i ==> Accepted(w, j)
  {
    ExecuteFollowsProtocol(w, steps);
    NilIsGrounded(Outcomes(w), Labels(steps), id);
    assert NilReads(Outcomes(w), Execute(w, steps).acks, id);
    var i := Execute(w, steps).acks.returned[id].index.value;
    forall j | 0 <= j <= i ensures Accepted(w, j) {
      assert Outcomes(w)[j].ok;
    }
  }

  /** If the id is unique in the log and the request's command was committed, nil
      means that this very command was applied and the storage carried it out. */
  lemma NilMeansOwnApplied(w: World, steps: seq<Step>, id: nat)
    requires var p := Execute(w, steps);
             id in p.acks.returned && p.acks.returned[id].ok && id in p.proposed && p.proposed[id] in w.log
    requires UniqueId(w.log, id)
    ensures var p := Execute(w, steps);
            exists i :: 0 <= i < p.acks.applied <= |w.log| && w.log[i] == p.proposed[id] && Accepted(w, i)
  {
    NilMeansCarriedOut(w, steps, id);
    ExecuteFollowsProtocol(w, steps);
    var p := Execute(w, steps);
    var j :| 0 <= j < |w.log| && w.log[j] == p.proposed[id];
    assert p.acks.returned[id].index.value == j;
  }

  ghost predicate Acknowledges(w: World, steps: seq<Step>, i: nat, cmd: Command) {
    var p, id := Execute(w, steps), cmd.requestId;
    id in p.acks.returned && p.acks.returned[id] == Ack(true, Some(i)) && id in p.proposed && p.proposed[id] == cmd
  }

  /** Request ids are a per-process counter, so nothing but the number decides:
      for every log, entry i can acknowledge a request for the command `cmd` with
      success if and only if it carries the same id and the log is carried out up
      to it. Whether the two commands are the same plays no part. */
  lemma AcknowledgedByIff(w: World, i: nat, cmd: Command)
    ensures (exists steps :: Acknowledges(w, steps, i, cmd))
            <==> i < |w.log| && w.log[i].requestId == cmd.requestId >= 1 && forall j :: 0 <= j <= i ==> Accepted(w, j)
  {
    if steps :| Acknowledges(w, steps, i, cmd) {
      NilMeansCarriedOut(w, steps, cmd.requestId);
    }
    if i < |w.log| && w.log[i].requestId == cmd.requestId >= 1 && forall j :: 0 <= j <= i ==> Accepted(w, j) {
      ForeignCommandAcknowledges(w, i, cmd);
    }
  }

  // ----- The run that lets entry i acknowledge a request for any command -----

  function Times(l: Acks.Label, n: nat): seq<Step> {
    if n == 0 then [] else Times(l, n - 1) + [Protocol(l)]
  }

  function AckRun(i: nat, cmd: Command): seq<Step> {
    var id := cmd.requestId;
    Times(ApplyNext, i) + Times(Register, id) + [Propose(id, cmd)] + [Protocol(ApplyNext)]
    + [Protocol(Work(ToSend(id, Ack(true, Some(i)))))] + [Protocol(Receive(id))]
  }

  lemma ExecuteSnoc(w: World, steps: seq<Step>, l: Step)
    ensures Execute(w, steps + [l]) == After(w, Execute(w, steps), l)
  {
    assert (steps + [l])[..|steps|] == steps;
  }

  /** Applied n entries, nothing else done. */
  function Applied(w: World, n: nat): Process
    requires n <= |w.log|
  {
    Process(Acks.Init().(applied := n), TreeAt(w, n), map[])
  }

  lemma {:induction false} AppliesFirst(w: World, n: nat)
    requires n <= |w.log| && forall j :: 0 <= j < n ==> Accepted(w, j)
    ensures Execute(w, Times(ApplyNext, n)) == Applied(w, n)
  {
    if n > 0 {
      AppliesFirst(w, n - 1);
      ExecuteSnoc(w, Times(ApplyNext, n - 1), Protocol(ApplyNext));
      AppliesOne(w, n - 1);
    }
  }

  lemma AppliesOne(w: World, n: nat)
    requires n < |w.log| && Accepted(w, n)
    ensures After(w, Applied(w, n), Protocol(ApplyNext)) == Applied(w, n + 1)
  {
    var c := w.log[n];
    assert Mutate(TreeAt(w, n), c).Applied?;
    assert TreeAt(w, n + 1) == Apply(TreeAt(w, n), c);
    assert Resolve(Acks.Init().(applied := n), c.requestId, true) == Acks.Init().(applied := n + 1);
  }

  /** `id` is the last request registered, and nobody has answered anything. */
  ghost predicate Waiting(a: Acks.State, id: nat) {
    && a.lastId == id && (id >= 1 ==> id in a.pending && id in a.chans && a.chans[id] == Chan([], 0, 0))
    && a.tasks == multiset{} && a.returned == map[] && !a.panicked && !a.dead
  }

  /** q is p with requests up to `id` registered. */
  ghost predicate RegisteredTo(p: Process, q: Process, id: nat) {
    Waiting(q.acks, id) && q.acks.applied == p.acks.applied && q.tree == p.tree && q.proposed == p.proposed
  }

  lemma RegistersOne(w: World, p: Process, q: Process, id: nat)
    requires RegisteredTo(p, q, id)
    ensures RegisteredTo(p, After(w, q, Protocol(Register)), id + 1)
  {
  }

  lemma TimesNext(steps: seq<Step>, l: Acks.Label, n: nat)
    ensures steps + Times(l, n + 1) == (steps + Times(l, n)) + [Protocol(l)]
  {
  }

  lemma {:induction false} RegistersNext(w: World, steps: seq<Step>, p: Process, id: nat)
    requires p == Execute(w, steps) && Waiting(p.acks, 0)
    ensures RegisteredTo(p, Execute(w, steps + Times(Register, id)), id)
  {
    if id == 0 {
      assert steps + Times(Register, 0) == steps;
    } else {
      RegistersNext(w, steps, p, id - 1);
      var before := steps + Times(Register, id - 1);
      TimesNext(steps, Register, id - 1);
      ExecuteSnoc(w, before, Protocol(Register));
      RegistersOne(w, p, Execute(w, before), id - 1);
    }
  }

  /** A waiting request whose id is resolved with success: sent and received. */
  lemma ResolvedIsReceived(a: Acks.State, id: nat)
    requires Waiting(a, id) && id >= 1
    ensures var ack := Ack(true, Some(a.applied));
            var sent := Acks.Next([], Resolve(a, id, true), Work(ToSend(id, ack)));
            var got := Acks.Next([], sent, Receive(id));
            id in got.returned && got.returned[id] == ack
  {
    var ack := Ack(true, Some(a.applied));
    var taken := Resolve(a, id, true);
    assert ToSend(id, ack) in taken.tasks && taken.chans[id] == Chan([], 0, 0);
    var sent := Acks.Next([], taken, Work(ToSend(id, ack)));
    assert sent.chans[id].buf == [ack];
  }

  lemma AcknowledgedNext(w: World, p: Process, i: nat, cmd: Command)
    requires i < |w.log| && Accepted(w, i) && cmd.requestId == w.log[i].requestId >= 1
    requires Waiting(p.acks, cmd.requestId) && p.tree == TreeAt(w, i) && p.acks.applied == i && p.proposed == map[]
    ensures var id := cmd.requestId;
            var q := After(w, After(w, p, Propose(id, cmd)), Protocol(ApplyNext));
            q.acks == Resolve(p.acks, id, true) && q.proposed == map[id := cmd]
  {
  }

  /** In particular by a command another process, or an earlier life of this one,
      proposed under the same number. */
  lemma ForeignCommandAcknowledges(w: World, i: nat, cmd: Command)
    requires i < |w.log| && w.log[i].requestId == cmd.requestId >= 1 && forall j :: 0 <= j <= i ==> Accepted(w, j)
    ensures Acknowledges(w, AckRun(i, cmd), i, cmd)
  {
    var id := cmd.requestId;
    var work := Protocol(Work(ToSend(id, Ack(true, Some(i)))));
    AppliesFirst(w, i);
    var l0 := Times(ApplyNext, i);
    RegistersNext(w, l0, Execute(w, l0), id);
    var l1 := l0 + Times(Register, id);
    var p := Execute(w, l1);
    AcknowledgedNext(w, p, i, cmd);
    ResolvedIsReceived(p.acks, id);
    var l2 := l1 + [Propose(id, cmd)];
    var l3 := l2 + [Protocol(ApplyNext)];
    ExecuteSnoc(w, l1, Propose(id, cmd));
    ExecuteSnoc(w, l2, Protocol(ApplyNext));
    ExecuteSnoc(w, l3, work);
    ExecuteSnoc(w, l3 + [work], Protocol(Receive(id)));
  }
}
