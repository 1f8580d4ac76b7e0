/** Index bookkeeping of the raft loop (raftimpl/node.go) with its uint64
    arithmetic, as an object whose methods update appliedIndex and
    snapshotIndex. */
module RaftNode {
  import opened Strings
  import opened Commands

  const TWO_64 := 0x1_0000_0000_0000_0000

  /** uint64 arithmetic. */
  function U64(x: int): (r: nat)
    ensures r < TWO_64
    ensures 0 <= x < TWO_64 ==> r == x
  {
    x % TWO_64
  }

  /** What an EntryNormal carries once decoded. */
  datatype Payload = Garbage | OtherAction | Mutation(cmd: Command)

  datatype Entry = Empty | ConfChange(removesSelf: bool) | Data(payload: Payload)

  datatype Indexed = Indexed(index: nat, entry: Entry)

  /** A batch as raft hands it over: consecutive indices from 1 up. */
  ghost predicate Contiguous(ents: seq<Indexed>) {
    forall i :: 0 <= i < |ents| ==> 1 <= ents[0].index && ents[i].index == ents[0].index + i < TWO_64
  }

  /** The entries a batch adds to what was applied. */
  function Newer(ents: seq<Indexed>, applied: nat): seq<Indexed> {
    if ents == [] then []
    else if ents[0].index > applied then [ents[0]] + Newer(ents[1..], applied)
    else Newer(ents[1..], applied)
  }

  function Payloads(ents: seq<Indexed>): seq<Indexed> {
    if ents == [] then []
    else if ents[0].entry.Data? then [ents[0]] + Payloads(ents[1..])
    else Payloads(ents[1..])
  }

  predicate RemovesSelf(ents: seq<Indexed>) {
    exists i :: 0 <= i < |ents| && ents[i].entry == ConfChange(true)
  }

  lemma {:induction false} NewerIsSuffix(ents: seq<Indexed>, applied: nat, k: nat)
    requires k <= |ents|
    requires forall i :: 0 <= i < k ==> ents[i].index <= applied
    requires forall i :: k <= i < |ents| ==> ents[i].index > applied
    ensures Newer(ents, applied) == ents[k..]
  {
    if ents != [] {
      if k == 0 {
        NewerIsSuffix(ents[1..], applied, 0);
        assert ents == [ents[0]] + ents[1..];
      } else {
        assert ents[0].index <= applied;
        NewerIsSuffix(ents[1..], applied, k - 1);
        assert ents[1..][k - 1..] == ents[k..];
      }
    }
  }

  lemma {:induction false} PayloadsStep(ents: seq<Indexed>, i: nat)
    requires i < |ents|
    ensures Payloads(ents[..i + 1])
         == if ents[i].entry.Data? then Payloads(ents[..i]) + [ents[i]] else Payloads(ents[..i])
    decreases |ents|
  {
    var a := ents[..i + 1];
    if i == 0 {
      assert a[1..] == [] && ents[..0] == [];
    } else {
      PayloadsStep(ents[1..], i - 1);
      assert a[1..] == ents[1..][..i] && ents[..i][1..] == ents[1..][..i - 1];
    }
  }

  class Node {
    var appliedIndex: nat
    var snapshotIndex: nat
    const snapCount: nat

    ghost predicate Valid()
      reads this
    {
      snapshotIndex <= appliedIndex < TWO_64 && 1 <= snapCount < TWO_64
    }

    constructor (snapCount: nat, index: nat)
      requires snapCount < TWO_64 && index < TWO_64
      ensures Valid() && appliedIndex == snapshotIndex == index
      ensures this.snapCount == if snapCount == 0 then 10000 else snapCount
    {
      this.snapCount := if snapCount == 0 then 10000 else snapCount;
      appliedIndex, snapshotIndex := index, index;
    }

    /** The slice starts at appliedIndex - firstIdx + 1 computed modulo 2^64,
        which is zero when the batch starts at appliedIndex + 1; it is exactly
        the entries not applied yet. `fatal` is log.Fatalf. */
    method EntriesToApply(ents: seq<Indexed>) returns (fatal: bool, nents: seq<Indexed>)
      requires Valid() && Contiguous(ents)
      ensures fatal <==> ents != [] && ents[0].index > U64(appliedIndex + 1)
      ensures !fatal ==> nents == Newer(ents, appliedIndex)
    {
      if |ents| == 0 {
        return false, ents;
      }
      var firstIdx := ents[0].index;
      if firstIdx > U64(appliedIndex + 1) {
        return true, [];
      }
      fatal, nents := false, [];
      var skip := U64(U64(appliedIndex - firstIdx) + 1);
      assert skip == appliedIndex + 1 - firstIdx;
      if skip < |ents| {
        nents := ents[skip..];
        NewerIsSuffix(ents, appliedIndex, skip);
      } else {
        NewerIsSuffix(ents, appliedIndex, |ents|);
      }
    }

    /** Collects the data of a batch and, once it is sent, moves appliedIndex to
        the batch's last index. `stopped` is the outcome of the send's select. */
    method PublishEntries(ents: seq<Indexed>, stopped: bool) returns (data: seq<Indexed>, ok: bool)
      requires Valid() && Contiguous(ents) && (ents != [] ==> ents[0].index > appliedIndex)
      modifies this`appliedIndex
      ensures Valid()
      ensures ok <==> !RemovesSelf(ents) && !(stopped && Payloads(ents) != [])
      ensures ok ==> data == Payloads(ents)
      ensures appliedIndex == if ok && ents != [] then ents[|ents| - 1].index else old(appliedIndex)
    {
      data := [];
      if |ents| == 0 {
        return data, true;
      }
      var i := 0;
      while i < |ents|
        invariant 0 <= i <= |ents|
        invariant data == Payloads(ents[..i])
        invariant !RemovesSelf(ents[..i])
        invariant appliedIndex == old(appliedIndex)
      {
        PayloadsStep(ents, i);
        assert ents[..i + 1] == ents[..i] + [ents[i]];
        match ents[i].entry {
          case Empty =>
          case ConfChange(self) =>
            if self {
              return data, false;
            }
          case Data(_) =>
            data := data + [ents[i]];
        }
        i := i + 1;
      }
      assert ents[..i] == ents;
      if |data| > 0 && stopped {
        return data, false;
      }
      appliedIndex := ents[|ents| - 1].index;
      return data, true;
    }

    /** Tells the apply loop to load an installed snapshot (the nil sent on
        commitC) and moves both indices to it; an empty snapshot is nothing, an
        old one a panic. */
    method PublishSnapshot(snapshot: Option<nat>) returns (panic: bool, load: bool)
      requires Valid() && (snapshot.Some? ==> snapshot.value < TWO_64)
      modifies this`appliedIndex, this`snapshotIndex
      ensures Valid()
      ensures panic <==> snapshot.Some? && snapshot.value <= old(appliedIndex)
      ensures load <==> snapshot.Some? && !panic
      ensures if load then appliedIndex == snapshotIndex == snapshot.value
              else appliedIndex == old(appliedIndex) && snapshotIndex == old(snapshotIndex)
    {
      if snapshot.None? {
        return false, false;
      }
      if snapshot.value <= appliedIndex {
        return true, false;
      }
      appliedIndex, snapshotIndex := snapshot.value, snapshot.value;
      return false, true;
    }

    /** Takes a snapshot at appliedIndex when it is due. With `wait` the step waits
        for the batch to be applied, or ends because the node stops; `data` is the
        store as it is then. The log is compacted to 10000 entries before it. */
    method MaybeTriggerSnapshot<T>(wait: bool, stopped: bool, data: T) returns (taken: Option<(nat, T)>, compactIndex: nat)
      requires Valid()
      modifies this`snapshotIndex
      ensures Valid()
      ensures taken.Some? <==> appliedIndex - old(snapshotIndex) > snapCount && !(wait && stopped)
      ensures taken.Some? ==> taken.value == (appliedIndex, data)
      ensures taken.Some? && appliedIndex > CATCH_UP ==> appliedIndex - compactIndex == CATCH_UP
      ensures taken.Some? && appliedIndex <= CATCH_UP ==> compactIndex == 1
      ensures snapshotIndex == if taken.Some? then appliedIndex else old(snapshotIndex)
    {
      if U64(appliedIndex - snapshotIndex) <= snapCount {
        return None, 0;
      }
      if wait && stopped {
        return None, 0;
      }
      taken := Some((appliedIndex, data));
      compactIndex := if appliedIndex > CATCH_UP then appliedIndex - CATCH_UP else 1;
      snapshotIndex := appliedIndex;
    }
  }

  /** snapshotCatchUpEntriesN */
  const CATCH_UP: nat := 10000
}
