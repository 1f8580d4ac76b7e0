/** What SetKV reads before it proposes (raft_impl.go, SetKV), and what becomes
    of the proposal when it is applied. */
module Proposals {
  import opened Strings
  import opened Entities
  import opened Storage
  import opened Commands
  import opened Convergence
  import opened Visibility

  /** SetKV of a leaf on a store: the record to propose, or a refusal. */
  function PrepareOn(t: Tree, key: string, val: Bytes, ttl: int, overwrite: bool, now: int): Prepared {
    var got := GetTree(t, key, false);
    PrepareSet(if got.Ok? then Some(got.value) else None, key, val, ttl, overwrite, now)
  }

  /** The existence check is made before proposing and not repeated at apply: of
      two requests without overwrite that both pass it on one store, both are
      applied and the later replaces the earlier. The later is refused if and
      only if it is prepared after the earlier was applied and while that record
      is alive. */
  lemma NonOverwriteRace(t: Tree, first: Command, second: Command, val: Bytes, ttl: int, now: int)
    requires WellFormed(t) && ValidKey(first.key)
    requires first.op == SET && !first.isDir && Mutate(t, first).Applied?
    requires second.op == SET && !second.isDir && second.key == first.key
    requires var p := PrepareOn(t, first.key, val, ttl, false, now); p.Propose? && second.value == p.entity
    ensures var both := Apply(Apply(t, first), second);
            && Mutate(Apply(t, first), second).Applied?
            && At(both, FullPath(first.key)) == Some(Leaf(second.value))
    ensures PrepareOn(Apply(t, first), first.key, val, ttl, false, now).Exists? <==> !EntityExpired(first.value, now)
  {
    var p := FullPath(first.key);
    var t1 := Apply(t, first);
    MutateIsPointwise(t, first);
    assert At(t1, p) == EffectOn(first, p).On(At(t, p));
    AcceptedIffFits(t, first);
    forall q | q in t1 && q <= p && q != p && 1 <= |q| ensures t1[q] == Dir {
      assert At(t1, q) == EffectOn(first, q).On(At(t, q));
    }
    AcceptedIffFits(t1, second);
    MutateIsPointwise(t1, second);
    assert At(Apply(t1, second), p) == EffectOn(second, p).On(At(t1, p));
    GetFindsLeaf(t1, first.key);
  }
}
