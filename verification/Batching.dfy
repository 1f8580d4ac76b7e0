/** The admin's per-agent delivery loop (agent_pool.go): items are collected
    into batches by a ticker and a counter, and every batch is split into one
    request per set of target instances. */
module Batching {
  import opened Strings

  /** agentDispatchItem: an element and the instances it is addressed to. */
  datatype Item<E> = Item(elem: E, instanceIds: seq<string>)

  // ----- The select loop -----

  const MAX_SIZE: nat := 100
  const MAX_WAITS: nat := 10

  /** What the select statement yields; Closed is a receive from the closed
      channel, which ends the loop. */
  datatype Event<E> = Arrive(item: Item<E>) | Tick | Closed

  datatype Loop<E> = Loop(batch: seq<Item<E>>, waitTimes: nat, delivered: seq<seq<Item<E>>>, quit: bool)

  function Start<E>(): Loop<E> {
    Loop([], 0, [], false)
  }

  function Flush<E>(l: Loop<E>): Loop<E> {
    Loop([], 0, l.delivered + [l.batch], l.quit)
  }

  function React<E>(l: Loop<E>, ev: Event<E>): Loop<E> {
    if l.quit then l
    else match ev
      case Closed => l.(quit := true)
      case Tick => if l.batch == [] then l else Flush(l)
      case Arrive(item) =>
        var more := l.(batch := l.batch + [item], waitTimes := l.waitTimes + 1);
        if |more.batch| >= MAX_SIZE || more.waitTimes >= MAX_WAITS then Flush(more) else more
  }

  function RunLoop<E>(events: seq<Event<E>>): Loop<E> {
    if events == [] then Start() else React(RunLoop(events[..|events| - 1]), events[|events| - 1])
  }

  /** The items taken from the channel before it was seen closed. */
  function Taken<E>(events: seq<Event<E>>): seq<Item<E>> {
    if events == [] then []
    else
      var n := |events| - 1;
      Taken(events[..n]) + if events[n].Arrive? && !RunLoop(events[..n]).quit then [events[n].item] else []
  }

  function Concat<T>(parts: seq<seq<T>>): seq<T> {
    if parts == [] then [] else Concat(parts[..|parts| - 1]) + parts[|parts| - 1]
  }

  ghost predicate BatchSized<E>(parts: seq<seq<Item<E>>>) {
    forall b <- parts :: 1 <= |b| <= MAX_WAITS
  }

  /** The delivered batches and the pending one are the items taken, cut into
      pieces of one to ten; the counter is the length of the pending batch. */
  ghost predicate Holds<E>(l: Loop<E>, taken: seq<Item<E>>) {
    && Concat(l.delivered) + l.batch == taken
    && BatchSized(l.delivered)
    && l.waitTimes == |l.batch| < MAX_WAITS
  }

  /** Over any sequence of arrivals and ticks nothing taken is lost, repeated or
      reordered: the batches handed to delivery and the pending one are the items
      taken, cut into pieces of one to ten. The counter always equals the length
      of the pending batch, so a batch never reaches the size limit of 100. */
  lemma {:induction false} EveryItemInOneBatch<E>(events: seq<Event<E>>)
    ensures Holds(RunLoop(events), Taken(events))
  {
    if events != [] {
      var n := |events| - 1;
      EveryItemInOneBatch(events[..n]);
      ReactKeepsItems(RunLoop(events[..n]), events[n], Taken(events[..n]));
    }
  }

  lemma ReactKeepsItems<E>(l: Loop<E>, ev: Event<E>, taken: seq<Item<E>>)
    requires Holds(l, taken)
    ensures Holds(React(l, ev), taken + if ev.Arrive? && !l.quit then [ev.item] else [])
  {
    if !l.quit && ev.Arrive? {
      var more := l.(batch := l.batch + [ev.item], waitTimes := l.waitTimes + 1);
      assert Concat(l.delivered) + more.batch == taken + [ev.item];
      if more.waitTimes >= MAX_WAITS {
        FlushKeepsItems(more, taken + [ev.item]);
      }
    } else {
      assert taken + [] == taken;
      if ev.Tick? && l.batch != [] {
        FlushKeepsItems(l, taken);
      }
    }
  }

  lemma FlushKeepsItems<E>(l: Loop<E>, taken: seq<Item<E>>)
    requires Concat(l.delivered) + l.batch == taken && BatchSized(l.delivered) && 1 <= |l.batch| <= MAX_WAITS
    ensures Holds(Flush(l), taken)
  {
    assert (l.delivered + [l.batch])[..|l.delivered|] == l.delivered;
    assert taken + [] == taken;
  }

  /** A tick hands everything taken so far to delivery. */
  lemma TickDeliversAll<E>(events: seq<Event<E>>)
    requires !RunLoop(events).quit
    ensures Concat(RunLoop(events + [Tick]).delivered) == Taken(events)
  {
    var after := events + [Tick];
    assert after[..|events|] == events;
    EveryItemInOneBatch(events);
    EveryItemInOneBatch(after);
  }

  /** When a batch leaves: on a tick with anything pending, and on the arrival of
      the tenth item; so a batch of fewer than ten leaves only on a tick. */
  lemma BatchLeavesIff<E>(events: seq<Event<E>>, ev: Event<E>)
    ensures var l, after := RunLoop(events), RunLoop(events + [ev]);
            && (after.delivered != l.delivered <==> !l.quit && ((ev.Tick? && l.batch != []) || (ev.Arrive? && |l.batch| == 9)))
            && (after.delivered != l.delivered ==> after.delivered == l.delivered + [l.batch + if ev.Arrive? then [ev.item] else []])
            && (|after.delivered| > |l.delivered| && |after.delivered[|l.delivered|]| < 10 ==> ev.Tick?)
  {
    assert (events + [ev])[..|events|] == events;
    EveryItemInOneBatch(events);
    var l := RunLoop(events);
    assert ev.Tick? ==> l.batch + [] == l.batch;
  }

  /** Closing the channel drops the pending batch: what is never delivered is
      exactly the items taken since the last delivery, and nothing is dropped if
      and only if the close follows a delivery with no arrival in between. */
  lemma {:induction false} CloseDropsPending<E>(events: seq<Event<E>>, later: seq<Event<E>>)
    requires !RunLoop(events).quit
    ensures var l := RunLoop(events + [Closed] + later);
            && l.quit && Taken(events) == Concat(l.delivered) + RunLoop(events).batch
            && (Concat(l.delivered) == Taken(events) <==> RunLoop(events).batch == [])
  {
    EveryItemInOneBatch(events);
    var closed := events + [Closed];
    assert closed[..|events|] == events;
    QuitIsFinal(closed, later);
    if RunLoop(events).batch != [] {
      assert |Concat(RunLoop(events).delivered)| < |Taken(events)|;
    }
  }

  lemma {:induction false} QuitIsFinal<E>(events: seq<Event<E>>, later: seq<Event<E>>)
    requires RunLoop(events).quit
    ensures RunLoop(events + later) == RunLoop(events)
  {
    if later == [] {
      assert events + later == events;
    } else {
      var n := |later| - 1;
      QuitIsFinal(events, later[..n]);
      assert (events + later)[..|events + later| - 1] == events + later[..n];
    }
  }

  // ----- Grouping by target set -----

  function Insert(x: string, s: seq<string>): (r: seq<string>)
    ensures multiset(r) == multiset(s) + multiset{x}
  {
    if s == [] then [x]
    else if Leq(x, s[0]) then [x] + s
    else
      assert s == [s[0]] + s[1..];
      [s[0]] + Insert(x, s[1..])
  }

  /** sort.Strings on a copy. */
  function Sort(s: seq<string>): (r: seq<string>)
    ensures multiset(r) == multiset(s)
  {
    if s == [] then [] else
      assert s == [s[0]] + s[1..];
      Insert(s[0], Sort(s[1..]))
  }

  ghost predicate Sorted(s: seq<string>) {
    s == [] || ((forall x <- s[1..] :: Leq(s[0], x)) && Sorted(s[1..]))
  }

  lemma {:induction false} InsertKeepsSorted(x: string, s: seq<string>)
    requires Sorted(s)
    ensures Sorted(Insert(x, s))
  {
    if s != [] {
      assert s == [s[0]] + s[1..];
      if Leq(x, s[0]) {
        assert ([x] + s)[1..] == s;
        forall y <- s ensures Leq(x, y) {
          if y != s[0] {
            assert y in s[1..];
            LeqTransitive(x, s[0], y);
          }
        }
      } else {
        InsertKeepsSorted(x, s[1..]);
        LessTrichotomy(x, s[0]);
        var rest := Insert(x, s[1..]);
        assert Insert(x, s)[1..] == rest;
        forall y <- rest ensures Leq(s[0], y) {
          assert y in multiset(rest);
          if y != x {
            assert y in multiset(s[1..]);
          }
        }
      }
    }
  }

  lemma {:induction false} SortSorts(s: seq<string>)
    ensures Sorted(Sort(s))
  {
    if s != [] {
      SortSorts(s[1..]);
      InsertKeepsSorted(s[0], Sort(s[1..]));
    }
  }

  lemma HeadAndTail(a: seq<string>)
    requires a != []
    ensures a == [a[0]] + a[1..] && a[0] in multiset(a)
    ensures multiset(a[1..]) == multiset(a) - multiset{a[0]}
  {
    assert a == [a[0]] + a[1..];
  }

  lemma HeadIsLeast(a: seq<string>, x: string)
    requires Sorted(a) && a != []
    ensures x in multiset(a) ==> Leq(a[0], x)
  {
    assert a == [a[0]] + a[1..];
  }

  lemma {:induction false} SortedUnique(a: seq<string>, b: seq<string>)
    requires Sorted(a) && Sorted(b) && multiset(a) == multiset(b)
    ensures a == b
  {
    assert |multiset(a)| == |a| && |multiset(b)| == |b|;
    if a != [] {
      HeadIsLeast(a, b[0]);
      HeadIsLeast(b, a[0]);
      LessTrichotomy(a[0], b[0]);
      HeadAndTail(a);
      HeadAndTail(b);
      SortedUnique(a[1..], b[1..]);
    }
  }

  function NormalizeInstanceIds(ids: seq<string>): string {
    if |ids| == 0 then "" else Join(Sort(ids), ',')
  }

  /** Instance ids the group key can tell apart: not empty and without comma. */
  ghost predicate Plain(ids: seq<string>) {
    forall id <- ids :: id != "" && Free(id, ',')
  }

  lemma JoinNotEmpty(ids: seq<string>)
    requires ids != [] && Plain(ids)
    ensures Join(ids, ',') != ""
  {
    assert ids[0] in ids;
  }

  /** Two target lists get the same group key exactly when they name the same
      instances equally often. */
  lemma SameKeyIffSameTargets(a: seq<string>, b: seq<string>)
    requires Plain(a) && Plain(b)
    ensures NormalizeInstanceIds(a) == NormalizeInstanceIds(b) <==> multiset(a) == multiset(b)
  {
    SortSorts(a);
    SortSorts(b);
    assert |multiset(a)| == |a| && |multiset(b)| == |b|;
    SortKeepsPlain(a);
    SortKeepsPlain(b);
    if multiset(a) == multiset(b) {
      SortedUnique(Sort(a), Sort(b));
    }
    if NormalizeInstanceIds(a) == NormalizeInstanceIds(b) {
      if b != [] {
        JoinNotEmpty(Sort(b));
      }
      if a != [] {
        JoinNotEmpty(Sort(a));
      }
      if a != [] && b != [] {
        SplitUndoesJoin(Sort(a), ',');
        SplitUndoesJoin(Sort(b), ',');
      }
    }
  }

  lemma SortKeepsPlain(ids: seq<string>)
    requires Plain(ids)
    ensures Plain(Sort(ids)) && |Sort(ids)| == |ids|
    ensures forall i :: 0 <= i < |Sort(ids)| ==> Free(Sort(ids)[i], ',')
  {
    assert |multiset(Sort(ids))| == |multiset(ids)|;
    forall id <- Sort(ids) ensures id != "" && Free(id, ',') {
      assert id in multiset(Sort(ids)) && id in multiset(ids);
      assert id in ids;
    }
  }

  /** Outside plain ids the key is lossy: an id holding a comma falls together
      with two ids, and an empty id with no target at all. */
  lemma OtherKeysCollide(a: string, b: string)
    requires Leq(a, b)
    ensures NormalizeInstanceIds([a + "," + b]) == NormalizeInstanceIds([a, b])
    ensures NormalizeInstanceIds([""]) == NormalizeInstanceIds([])
  {
    assert [a, b][1..] == [b] && [b][1..] == [] && [a + "," + b][1..] == [];
    assert Sort([b]) == [b];
    assert Sort([a, b]) == [a, b];
    assert Join([a, b], ',') == a + "," + b;
    assert Sort([""]) == [""] by {
      assert [""][1..] == [];
    }
  }

  datatype Request<E> = Request(elems: seq<E>, instanceIds: seq<string>)

  /** The elements of the items with this group key, in order. */
  function Group<E>(batch: seq<Item<E>>, key: string): seq<E> {
    if batch == [] then []
    else
      var n := |batch| - 1;
      Group(batch[..n], key) + if NormalizeInstanceIds(batch[n].instanceIds) == key then [batch[n].elem] else []
  }

  /** The group keys that occur in a batch. */
  function KeysOf<E>(batch: seq<Item<E>>): set<string> {
    if batch == [] then {}
    else KeysOf(batch[..|batch| - 1]) + {NormalizeInstanceIds(batch[|batch| - 1].instanceIds)}
  }

  /** The targets of the first item with this group key. */
  function FirstTargets<E>(batch: seq<Item<E>>, key: string): seq<string> {
    if batch == [] then []
    else
      var n := |batch| - 1;
      if key in KeysOf(batch[..n]) then FirstTargets(batch[..n], key) else batch[n].instanceIds
  }

  /** One request per group key in the batch, holding the elements with that key
      in order and the targets of its first item. */
  ghost predicate Partitions<E>(grouped: map<string, Request<E>>, batch: seq<Item<E>>) {
    grouped == map key | key in KeysOf(batch) :: Request(Group(batch, key), FirstTargets(batch, key))
  }

  /** The first loop of delivery. */
  method Delivery<E>(batch: seq<Item<E>>) returns (grouped: map<string, Request<E>>)
    ensures Partitions(grouped, batch)
  {
    grouped := map[];
    ghost var done := [];
    for i := 0 to |batch|
      invariant done == batch[..i]
      invariant Partitions(grouped, done)
    {
      grouped := AddItem(grouped, batch[i], done);
      done := done + [batch[i]];
    }
    assert done == batch;
  }

  /** The loop body: the item joins the request of its key, or starts one. */
  method AddItem<E>(grouped: map<string, Request<E>>, item: Item<E>, ghost done: seq<Item<E>>) returns (next: map<string, Request<E>>)
    requires Partitions(grouped, done)
    ensures Partitions(next, done + [item])
  {
    var key := NormalizeInstanceIds(item.instanceIds);
    var req := if key in grouped then grouped[key] else Request([], item.instanceIds);
    next := grouped[key := req.(elems := req.elems + [item.elem])];
    PartitionStep(grouped, done, item, key, req, next);
  }

  lemma StepAt<E>(batch: seq<Item<E>>, item: Item<E>, key: string)
    ensures var all, own := batch + [item], key == NormalizeInstanceIds(item.instanceIds);
            && (key in KeysOf(all) <==> key in KeysOf(batch) || own)
            && Group(all, key) == Group(batch, key) + (if own then [item.elem] else [])
            && (key in KeysOf(all) ==> FirstTargets(all, key) == if key in KeysOf(batch) then FirstTargets(batch, key) else item.instanceIds)
  {
    assert (batch + [item])[..|batch|] == batch;
  }

  lemma PartitionStep<E>(grouped: map<string, Request<E>>, batch: seq<Item<E>>, item: Item<E>,
                         key: string, req: Request<E>, next: map<string, Request<E>>)
    requires Partitions(grouped, batch) && key == NormalizeInstanceIds(item.instanceIds)
    requires req == if key in grouped then grouped[key] else Request([], item.instanceIds)
    requires next == grouped[key := req.(elems := req.elems + [item.elem])]
    ensures Partitions(next, batch + [item])
  {
    var all := batch + [item];
    if key !in grouped {
      NoGroup(batch, key);
    }
    forall k ensures k in next <==> k in KeysOf(all) {
      StepAt(batch, item, k);
    }
    forall k | k in next ensures next[k] == Request(Group(all, k), FirstTargets(all, k)) {
      StepAt(batch, item, k);
    }
  }

  /** A request is addressed to the targets its key stands for. */
  lemma {:induction false} TargetsHaveKey<E>(batch: seq<Item<E>>, key: string)
    requires key in KeysOf(batch)
    ensures NormalizeInstanceIds(FirstTargets(batch, key)) == key
  {
    var n := |batch| - 1;
    if key in KeysOf(batch[..n]) {
      TargetsHaveKey(batch[..n], key);
    }
  }

  lemma {:induction false} NoGroup<E>(batch: seq<Item<E>>, key: string)
    requires key !in KeysOf(batch)
    ensures Group(batch, key) == []
  {
    if batch != [] {
      NoGroup(batch[..|batch| - 1], key);
    }
  }

  /** The elements of a batch addressed to these targets, in order. */
  function AddressedTo<E>(batch: seq<Item<E>>, targets: multiset<string>): seq<E> {
    if batch == [] then []
    else
      var n := |batch| - 1;
      AddressedTo(batch[..n], targets) + if multiset(batch[n].instanceIds) == targets then [batch[n].elem] else []
  }

  ghost predicate AllPlain<E>(batch: seq<Item<E>>) {
    forall i :: 0 <= i < |batch| ==> Plain(batch[i].instanceIds)
  }

  /** For plain ids the requests are the stable partition of the batch by target
      multiset: the group of a target list is exactly the elements addressed to
      it, in arrival order. */
  lemma {:induction false} StablePartition<E>(batch: seq<Item<E>>, ids: seq<string>)
    requires AllPlain(batch) && Plain(ids)
    ensures Group(batch, NormalizeInstanceIds(ids)) == AddressedTo(batch, multiset(ids))
  {
    if batch != [] {
      var n := |batch| - 1;
      forall i | 0 <= i < n ensures Plain(batch[..n][i].instanceIds) {
        assert batch[..n][i] == batch[i];
      }
      StablePartition(batch[..n], ids);
      SameKeyIffSameTargets(batch[n].instanceIds, ids);
    }
  }

  /** No element of a batch is left out: there is a request for the key of every
      item, and it holds the item's element. */
  lemma {:induction false} EveryItemIsRequested<E>(batch: seq<Item<E>>, i: nat, key: string)
    requires i < |batch| && key == NormalizeInstanceIds(batch[i].instanceIds)
    ensures key in KeysOf(batch) && batch[i].elem in Group(batch, key)
  {
    var before, last := batch[..|batch| - 1], batch[|batch| - 1];
    assert batch == before + [last];
    StepAt(before, last, key);
    if i < |before| {
      EveryItemIsRequested(before, i, key);
    }
  }

  /** And there is no request but for the key of an item. */
  lemma {:induction false} EveryRequestHasItem<E>(batch: seq<Item<E>>, key: string) returns (i: nat)
    requires key in KeysOf(batch)
    ensures i < |batch| && NormalizeInstanceIds(batch[i].instanceIds) == key
  {
    i := |batch| - 1;
    if NormalizeInstanceIds(batch[i].instanceIds) != key {
      i := EveryRequestHasItem(batch[..i], key);
    }
  }

  // ----- The node's delivery goroutine -----

  class DeliveryLoop<E> {
    var batch: seq<Item<E>>
    var waitTimes: nat
    var delivered: seq<seq<Item<E>>>

    ghost function Abstract(quit: bool): Loop<E>
      reads this
    {
      Loop(batch, waitTimes, delivered, quit)
    }

    constructor ()
      ensures Abstract(false) == Start()
    {
      batch, waitTimes, delivered := [], 0, [];
    }

    /** reset, after delivery(batch). */
    method DeliverAndReset()
      modifies this
      ensures Abstract(false) == Flush(old(Abstract(false)))
    {
      delivered := delivered + [batch];
      waitTimes := 0;
      batch := [];
    }

    /** The loop from its start until the channel is closed or the events end. */
    method Consume(events: seq<Event<E>>) returns (quit: bool)
      requires Abstract(false) == Start()
      modifies this
      ensures Abstract(quit) == RunLoop(events)
      ensures Concat(delivered) + batch == Taken(events) && BatchSized(delivered) && |batch| < MAX_WAITS
    {
      quit := false;
      var n := 0;
      while n < |events| && !quit
        invariant n <= |events| && Abstract(quit) == RunLoop(events[..n])
      {
        assert events[..n + 1][..n] == events[..n];
        match events[n] {
          case Closed => quit := true;
          case Tick =>
            if |batch| != 0 {
              DeliverAndReset();
            }
          case Arrive(item) =>
            batch := batch + [item];
            waitTimes := waitTimes + 1;
            if |batch| >= MAX_SIZE || waitTimes >= MAX_WAITS {
              DeliverAndReset();
            }
        }
        n := n + 1;
      }
      assert events[..n] + events[n..] == events;
      if quit { QuitIsFinal(events[..n], events[n..]); } else { assert events[..n] == events; }
      EveryItemInOneBatch(events);
    }
  }
}
