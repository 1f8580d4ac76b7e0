/** The agent's element cache (domain_cache.go): a pool of values nested by
    app, env and key, kept in agreement with an LRU-K over joined keys. */
module AgentCache {
  import opened Strings
  import opened LruK

  datatype Triple = Triple(app: string, env: string, key: string)

  const AT := '@'

  function GenKey(t: Triple): string {
    t.app + [AT] + t.env + [AT] + t.key
  }

  function ParseKey(k: string): Option<Triple> {
    var parts := Split(k, AT);
    if |parts| == 3 then Some(Triple(parts[0], parts[1], parts[2])) else None
  }

  predicate AtFree(t: Triple) {
    Free(t.app, AT) && Free(t.env, AT) && Free(t.key, AT)
  }

  lemma {:induction false} SplitCounts(s: string, c: char)
    ensures |Split(s, c)| == multiset(s)[c] + 1
  {
    if s != "" {
      assert s == [s[0]] + s[1..];
      SplitCounts(s[1..], c);
    }
  }

  lemma ParseMeaning(k: string, t: Triple)
    ensures ParseKey(k) == Some(t) <==> AtFree(t) && GenKey(t) == k
  {
    var parts := Split(k, AT);
    JoinUndoesSplit(k, AT);
    if |parts| == 3 {
      JoinThree(parts);
    }
    if AtFree(t) && GenKey(t) == k {
      var three := [t.app, t.env, t.key];
      JoinThree(three);
      SplitUndoesJoin(three, AT);
    }
  }

  lemma JoinThree(parts: seq<string>)
    requires |parts| == 3
    ensures Join(parts, AT) == GenKey(Triple(parts[0], parts[1], parts[2]))
  {
    assert Join(parts[1..], AT) == parts[1] + [AT] + Join(parts[1..][1..], AT);
    assert parts[1..][1..] == [parts[2]];
    var x, y, z := parts[0], parts[1], parts[2];
    assert x + [AT] + (y + [AT] + z) == x + [AT] + y + [AT] + z;
  }

  /** A joined key parses exactly when none of the three identifiers holds the
      separator, and then back to the same identifiers. */
  lemma ParseUndoesGen(t: Triple)
    ensures ParseKey(GenKey(t)).Some? <==> AtFree(t)
    ensures AtFree(t) ==> ParseKey(GenKey(t)) == Some(t)
  {
    ParseMeaning(GenKey(t), t);
    SplitCounts(GenKey(t), AT);
    assert multiset(GenKey(t))[AT] == multiset(t.app)[AT] + multiset(t.env)[AT] + multiset(t.key)[AT] + 2;
  }

  lemma GenKeyInjective(t: Triple, u: Triple)
    requires AtFree(t) && GenKey(t) == GenKey(u)
    ensures t == u
  {
    ParseUndoesGen(t);
    ParseUndoesGen(u);
  }

  // ----- The nested pool -----

  /** A cached value and the time it was stored, in nanoseconds. */
  datatype Item<E> = Item(val: E, dirtyTime: int)

  type Pool<E> = map<string, map<string, map<string, Item<E>>>>

  const FRESH_FOR := 10 * 1_000_000_000

  function At<E>(pool: Pool<E>, t: Triple): Option<Item<E>> {
    if t.app in pool && t.env in pool[t.app] && t.key in pool[t.app][t.env]
    then Some(pool[t.app][t.env][t.key]) else None
  }

  function PoolSet<E>(pool: Pool<E>, t: Triple, item: Item<E>): (r: Pool<E>)
    ensures forall u :: At(r, u) == if u == t then Some(item) else At(pool, u)
  {
    var envs := if t.app in pool then pool[t.app] else map[];
    var elems := if t.env in envs then envs[t.env] else map[];
    pool[t.app := envs[t.env := elems[t.key := item]]]
  }

  function PoolUnset<E>(pool: Pool<E>, t: Triple): (r: Pool<E>)
    ensures forall u :: At(r, u) == if u == t then None else At(pool, u)
  {
    if t.app in pool && t.env in pool[t.app] then
      pool[t.app := pool[t.app][t.env := pool[t.app][t.env] - {t.key}]]
    else pool
  }

  function EvictFrom<E>(pool: Pool<E>, k: string): Pool<E> {
    match ParseKey(k)
    case Some(t) => PoolUnset(pool, t)
    case None => pool
  }

  /** elemPool.query: a value older than ten seconds is not served. */
  function Served<E>(pool: Pool<E>, t: Triple, now: int): Option<E> {
    match At(pool, t)
    case Some(item) => if now - item.dirtyTime > FRESH_FOR then None else Some(item.val)
    case None => None
  }

  // ----- Runs of Set and Query -----

  datatype State<E> = State(lists: Lists<string, ()>, pool: Pool<E>)

  datatype Call<E> = Set(t: Triple, elem: E, now: int) | Query(t: Triple, now: int)

  function ToOp<E>(call: Call<E>): Op<string, ()> {
    match call
    case Set(t, _, _) => Op.Put(GenKey(t), ())
    case Query(t, _) => Op.Get(GenKey(t))
  }

  function StepCall<E>(p: Params, s: State<E>, call: Call<E>): State<E> {
    var lists := StepLists(p, s.lists, ToOp(call));
    if call.Query? then s.(lists := lists)
    else
      var out := Departures(p, s.lists, ToOp(call));
      var pool := if out != [] then EvictFrom(s.pool, out[0].key) else s.pool;
      State(lists, if Has(lists.cache, GenKey(call.t)) then PoolSet(pool, call.t, Item(call.elem, call.now)) else pool)
  }

  function RunCalls<E>(p: Params, calls: seq<Call<E>>): State<E> {
    if calls == [] then State(Lists([], []), map[])
    else StepCall(p, RunCalls(p, calls[..|calls| - 1]), calls[|calls| - 1])
  }

  function QueryResult<E>(s: State<E>, t: Triple, now: int): Option<E> {
    if Has(s.lists.cache, GenKey(t)) then Served(s.pool, t, now) else None
  }

  /** The latest Set of a triple in a history. */
  function LastSet<E>(calls: seq<Call<E>>, t: Triple): Option<Item<E>> {
    if calls == [] then None
    else
      var c := calls[|calls| - 1];
      if c.Set? && c.t == t then Some(Item(c.elem, c.now)) else LastSet(calls[..|calls| - 1], t)
  }

  function Ops<E>(calls: seq<Call<E>>): seq<Op<string, ()>> {
    if calls == [] then [] else Ops(calls[..|calls| - 1]) + [ToOp(calls[|calls| - 1])]
  }

  /** Recency and admission in the cache are those of the LRU-K run over the
      joined keys. */
  lemma {:induction false} CacheFollowsLruK<E>(p: Params, calls: seq<Call<E>>)
    ensures RunCalls(p, calls).lists == LruK.Run(p, Ops(calls))
  {
    if calls != [] {
      var n := |calls| - 1;
      CacheFollowsLruK(p, calls[..n]);
      RunStep(p, Ops(calls[..n]), ToOp(calls[n]));
    }
  }

  /** The pool holds a value for exactly the cached triples, and it is the one
      of the latest Set. */
  ghost predicate Agrees<E>(s: State<E>, calls: seq<Call<E>>) {
    && (forall t :: At(s.pool, t) == if AtFree(t) && Has(s.lists.cache, GenKey(t)) then LastSet(calls, t) else None)
    && (forall t :: Has(s.lists.cache, GenKey(t)) ==> AtFree(t) && LastSet(calls, t).Some?)
    && (forall k :: Has(s.lists.cache, k) ==> ParseKey(k).Some?)
  }

  ghost predicate AllAtFree<E>(calls: seq<Call<E>>) {
    forall i :: 0 <= i < |calls| ==> AtFree(calls[i].t)
  }

  lemma {:induction false} EveryRunAgrees<E>(p: Params, calls: seq<Call<E>>)
    requires ValidParams(p) && AllAtFree(calls)
    ensures Sound(p, RunCalls(p, calls).lists)
    ensures Agrees(RunCalls(p, calls), calls)
  {
    CacheFollowsLruK(p, calls);
    EveryRunIsFaithful(p, Ops(calls));
    if calls != [] {
      var n := |calls| - 1;
      EveryRunAgrees(p, calls[..n]);
      StepAgrees(p, RunCalls(p, calls[..n]), calls);
    }
  }

  /** What a step does to the keys of the cache. */
  lemma StepKeys<E>(p: Params, s: State<E>, call: Call<E>, k: string)
    requires ValidParams(p) && Sound(p, s.lists)
    ensures var out := Departures(p, s.lists, ToOp(call));
            var after := StepCall(p, s, call).lists.cache;
            && Has(after, k) == (
              if call.Set? && k == GenKey(call.t) then Has(s.lists.cache, k) || Admits(p, s.lists, k)
              else Has(s.lists.cache, k) && (out == [] || k != out[0].key))
            && (out != [] ==> |out| == 1 && Has(s.lists.cache, out[0].key))
            && (call.Query? ==> out == [])
            && (out != [] ==> out[0].key != GenKey(call.t))
  {
    var op := ToOp(call);
    CacheView(p, s.lists, op);
    StepDepartures(p, s.lists, op);
    var out := Departures(p, s.lists, op);
    if out != [] {
      Front(out[0], []);
      assert [out[0]] + [] == out;
      assert out[0].key in View(out);
    }
  }

  lemma StepAgrees<E>(p: Params, s: State<E>, calls: seq<Call<E>>)
    requires ValidParams(p) && Sound(p, s.lists)
    requires calls != [] && AtFree(calls[|calls| - 1].t)
    requires Agrees(s, calls[..|calls| - 1])
    ensures Agrees(StepCall(p, s, calls[|calls| - 1]), calls)
  {
    var call := calls[|calls| - 1];
    var after := StepCall(p, s, call);
    var out := Departures(p, s.lists, ToOp(call));
    ParseUndoesGen(call.t);
    forall k ensures Has(after.lists.cache, k) ==> ParseKey(k).Some? {
      StepKeys(p, s, call, k);
    }
    forall t
      ensures At(after.pool, t) == if AtFree(t) && Has(after.lists.cache, GenKey(t)) then LastSet(calls, t) else None
      ensures Has(after.lists.cache, GenKey(t)) ==> AtFree(t) && LastSet(calls, t).Some?
    {
      StepKeys(p, s, call, GenKey(t));
      ParseUndoesGen(t);
      if GenKey(t) == GenKey(call.t) {
        GenKeyInjective(call.t, t);
      }
      if out != [] {
        ParseMeaning(out[0].key, t);
        assert ParseKey(out[0].key).Some?;
      }
    }
  }

  /** No other triple set in the history has the joined key of t. */
  ghost predicate OwnsKey<E>(calls: seq<Call<E>>, t: Triple) {
    forall i :: 0 <= i < |calls| && calls[i].Set? && GenKey(calls[i].t) == GenKey(t) ==> calls[i].t == t
  }

  /** While t's key is cached, the pool holds its latest Set. */
  ghost predicate HoldsLatest<E>(s: State<E>, calls: seq<Call<E>>, t: Triple) {
    Has(s.lists.cache, GenKey(t)) ==> LastSet(calls, t).Some? && At(s.pool, t) == LastSet(calls, t)
  }

  lemma StepHoldsLatest<E>(p: Params, s: State<E>, calls: seq<Call<E>>, t: Triple)
    requires ValidParams(p) && Sound(p, s.lists) && calls != []
    requires HoldsLatest(s, calls[..|calls| - 1], t) && OwnsKey(calls, t)
    ensures HoldsLatest(StepCall(p, s, calls[|calls| - 1]), calls, t)
  {
    var call := calls[|calls| - 1];
    StepKeys(p, s, call, GenKey(t));
    var out := Departures(p, s.lists, ToOp(call));
    if out != [] {
      ParseMeaning(out[0].key, t);
    }
  }

  lemma {:induction false} EveryRunHoldsLatest<E>(p: Params, calls: seq<Call<E>>, t: Triple)
    requires ValidParams(p) && OwnsKey(calls, t)
    ensures HoldsLatest(RunCalls(p, calls), calls, t)
  {
    if calls != [] {
      var n := |calls| - 1;
      EveryRunHoldsLatest(p, calls[..n], t);
      CacheFollowsLruK(p, calls[..n]);
      EveryRunIsFaithful(p, Ops(calls[..n]));
      StepHoldsLatest(p, RunCalls(p, calls[..n]), calls, t);
    }
  }

  /** A Query is a hit exactly when the triple's key is cached and the triple's
      latest Set is at most ten seconds old, and then it returns that Set. */
  ghost predicate ServesLatest<E>(p: Params, calls: seq<Call<E>>, t: Triple, now: int) {
    var r, last := QueryResult(RunCalls(p, calls), t, now), LastSet(calls, t);
    && (r.Some? <==> Has(LruK.Run(p, Ops(calls)).cache, GenKey(t)) && last.Some? && now - last.value.dirtyTime <= FRESH_FOR)
    && (r.Some? ==> r.value == last.value.val)
  }

  /** So it is in every history in which no other triple set has t's joined key,
      whether the identifiers hold '@' or not. */
  lemma QueryServesLatestSet<E>(p: Params, calls: seq<Call<E>>, t: Triple, now: int)
    requires ValidParams(p) && OwnsKey(calls, t)
    ensures ServesLatest(p, calls, t, now)
  {
    EveryRunHoldsLatest(p, calls, t);
    CacheFollowsLruK(p, calls);
  }

  // ----- When two triples share a joined key -----

  lemma RunCallsStep<E>(p: Params, calls: seq<Call<E>>, call: Call<E>)
    ensures RunCalls(p, calls + [call]) == StepCall(p, RunCalls(p, calls), call)
  {
    assert (calls + [call])[..|calls|] == calls;
  }

  /** Two Sets of a key the lists do not know cache it, in a cache of one place:
      the first enters it in history, the second admits it. */
  lemma TwoSetsAdmit<E>(s: State<E>, t: Triple, e: E)
    requires s.lists.history == [] && |s.lists.cache| <= 1
    requires s.lists.cache != [] ==> s.lists.cache[0].key != GenKey(t)
    ensures var once := StepCall(Params(2, 1, 2), s, Set(t, e, 0));
            && once == State(Lists(s.lists.cache, [Element(GenKey(t), Seen((), 1))]), s.pool)
            && Admitted(s, once, t, e)
  {
    var p, k := Params(2, 1, 2), GenKey(t);
    var l := s.lists;
    if l.cache != [] { assert l.cache == [l.cache[0]] + []; Front(l.cache[0], []); }
    assert !Has(l.cache, k) && !Has(l.history, k);
    var mid := Lists(l.cache, [Element(k, Seen((), 1))]);
    assert StepLists(p, l, Op.Put(k, ())) == mid;
    AdmitOne(State(mid, s.pool), t, e);
  }

  ghost predicate Admitted<E>(s: State<E>, once: State<E>, t: Triple, e: E) {
    StepCall(Params(2, 1, 2), once, Set(t, e, 0)) ==
    State(Lists([Element(GenKey(t), ())], []),
          PoolSet(if s.lists.cache != [] then EvictFrom(s.pool, s.lists.cache[0].key) else s.pool, t, Item(e, 0)))
  }

  lemma AdmitOne<E>(s: State<E>, t: Triple, e: E)
    requires s.lists.history == [Element(GenKey(t), Seen((), 1))] && |s.lists.cache| <= 1
    requires s.lists.cache != [] ==> s.lists.cache[0].key != GenKey(t)
    ensures Admitted(s, s, t, e)
  {
    var p, k := Params(2, 1, 2), GenKey(t);
    var l := s.lists;
    if l.cache != [] { assert l.cache == [l.cache[0]] + []; Front(l.cache[0], []); }
    var h := l.history[0];
    Front(h, []);
    assert l.history == [h] + [];
    assert Admits(p, l, k);
    assert Trim(l.cache, 1) == [];
    assert Unlink(l.history, k) == [];
    Front(Element(k, ()), []);
    var after := StepLists(p, l, Op.Put(k, ()));
    assert after == Lists([Element(k, ())], []);
    assert Has(after.cache, k);
  }

  /** Two Sets, from a state of one cached key that is not this one. */
  lemma Replaced<E>(s: State<E>, t: Triple, e: E, k: string)
    requires s.lists == Lists([Element(k, ())], []) && k != GenKey(t)
    ensures var twice := StepCall(Params(2, 1, 2), StepCall(Params(2, 1, 2), s, Set(t, e, 0)), Set(t, e, 0));
            twice == State(Lists([Element(GenKey(t), ())], []), PoolSet(EvictFrom(s.pool, k), t, Item(e, 0)))
  {
    TwoSetsAdmit(s, t, e);
  }

  lemma TwoCalls<E>(p: Params, calls: seq<Call<E>>, a: Call<E>, b: Call<E>)
    ensures RunCalls(p, calls + [a, b]) == StepCall(p, StepCall(p, RunCalls(p, calls), a), b)
  {
    var one := calls + [a];
    assert calls + [a, b] == one + [b];
    RunCallsStep(p, calls, a);
    RunCallsStep(p, one, b);
  }

  /** Two triples that share a joined key break the promise: after an eviction
      that could not be parsed, a Query serves an element older than the latest
      Set of its own triple. */
  lemma CollidingTriplesServeStale<E>(t: Triple, u: Triple, other: Triple, first: E, second: E)
    requires t != u && GenKey(t) == GenKey(u) && GenKey(other) != GenKey(t)
    ensures var c, d := Set(t, first, 0), Set(other, first, 0);
            var calls := [c, c] + [d, d] + [Set(t, second, 0), Set(u, first, 0)];
            && QueryResult(RunCalls(Params(2, 1, 2), calls), t, 0) == Some(first)
            && LastSet(calls, t) == Some(Item(second, 0))
  {
    var p, k := Params(2, 1, 2), GenKey(t);
    var c, d, e, f := Set(t, first, 0), Set(other, first, 0), Set(t, second, 0), Set(u, first, 0);
    assert ParseKey(k).None? by {
      ParseUndoesGen(t);
      if AtFree(t) { GenKeyInjective(t, u); }
    }
    var s0 := RunCalls<E>(p, []);
    TwoCalls(p, [], c, c);
    assert [] + [c, c] == [c, c];
    TwoSetsAdmit(s0, t, first);
    var s2 := RunCalls(p, [c, c]);
    assert s2 == State(Lists([Element(k, ())], []), PoolSet(s0.pool, t, Item(first, 0)));
    TwoCalls(p, [c, c], d, d);
    Replaced(s2, other, first, k);
    var s4 := RunCalls(p, [c, c] + [d, d]);
    assert At(s4.pool, t) == Some(Item(first, 0));
    TwoCalls(p, [c, c] + [d, d], e, f);
    LastOne(s4, t, u, other, first, second);
    LastSets([c, c] + [d, d], e, f);
  }

  lemma LastSets<E>(calls: seq<Call<E>>, a: Call<E>, b: Call<E>)
    requires a.Set? && b.t != a.t
    ensures LastSet(calls + [a, b], a.t) == Some(Item(a.elem, a.now))
  {
    assert (calls + [a, b])[..|calls| + 1] == calls + [a];
    assert (calls + [a])[..|calls|] == calls;
  }

  lemma LastOne<E>(s: State<E>, t: Triple, u: Triple, other: Triple, first: E, second: E)
    requires GenKey(t) == GenKey(u) && t != u && GenKey(other) != GenKey(t)
    requires s.lists == Lists([Element(GenKey(other), ())], [])
    requires At(s.pool, t) == Some(Item(first, 0))
    ensures var p := Params(2, 1, 2);
            QueryResult(StepCall(p, StepCall(p, s, Set(t, second, 0)), Set(u, first, 0)), t, 0) == Some(first)
  {
    TwoSetsAdmit(s, t, second);
    var once := StepCall(Params(2, 1, 2), s, Set(t, second, 0));
    AdmitOne(once, u, first);
    Front(Element(GenKey(u), ()), []);
    assert [Element(GenKey(u), ())] + [] == [Element(GenKey(u), ())];
    ParseMeaning(GenKey(other), t);
  }

  ghost predicate SetsWithin<E>(calls: seq<Call<E>>, triples: set<Triple>) {
    forall i :: 0 <= i < |calls| && calls[i].Set? ==> calls[i].t in triples
  }

  /** For the triples an agent serves, t among them and one with another key: every
      history of them serves the latest Set of t at all times if and only if no
      other of them has the joined key of t. */
  lemma ServesLatestIff<E>(triples: set<Triple>, t: Triple, other: Triple, first: E, second: E)
    requires t in triples && other in triples && GenKey(other) != GenKey(t) && first != second
    ensures (forall p, calls: seq<Call<E>>, now :: ValidParams(p) && SetsWithin(calls, triples) ==> ServesLatest(p, calls, t, now))
            <==> forall u :: u in triples && GenKey(u) == GenKey(t) ==> u == t
  {
    if forall u :: u in triples && GenKey(u) == GenKey(t) ==> u == t {
      forall p, calls: seq<Call<E>>, now | ValidParams(p) && SetsWithin(calls, triples) ensures ServesLatest(p, calls, t, now) {
        QueryServesLatestSet(p, calls, t, now);
      }
    }
    if u :| u in triples && GenKey(u) == GenKey(t) && u != t {
      CollisionFound(triples, t, u, other, first, second);
    }
  }

  lemma CollisionFound<E>(triples: set<Triple>, t: Triple, u: Triple, other: Triple, first: E, second: E)
    requires t in triples && u in triples && other in triples && first != second
    requires t != u && GenKey(t) == GenKey(u) && GenKey(other) != GenKey(t)
    ensures exists calls: seq<Call<E>> :: SetsWithin(calls, triples) && !ServesLatest(Params(2, 1, 2), calls, t, 0)
  {
    CollidingTriplesServeStale(t, u, other, first, second);
    var c, d := Set(t, first, 0), Set(other, first, 0);
    var calls := [c, c] + [d, d] + [Set(t, second, 0), Set(u, first, 0)];
    assert SetsWithin(calls, triples);
  }

  // ----- The object -----

  class AppPool<E> {
    const cp: LRU<string, ()>
    var pool: Pool<E>

    ghost predicate Valid()
      reads this, cp
    {
      cp.Valid() && ValidParams(cp.Capacities())
    }

    ghost function Abstract(): State<E>
      reads this, cp
    {
      State(cp.Contents(), pool)
    }

    /** NewCache: an LRU-2 whose history size is computed from size - 1, which
        wraps for size 0; a cache of size 0 has no room to admit anything. */
    constructor (size: nat)
      requires size < UINT
      ensures cp.Valid() && Abstract() == RunCalls(cp.Capacities(), [])
      ensures cp.Capacities() == Params(2, size, HistoryRoom(size, (size + UINT - 1) % UINT))
      ensures size >= 1 <==> Valid()
      ensures fresh(cp)
    {
      cp := new LRU(2, size, (size + UINT - 1) % UINT);
      pool := map[];
    }

    method Query(t: Triple, now: int) returns (r: Option<E>)
      requires Valid()
      modifies cp
      ensures Valid() && cp.Capacities() == old(cp.Capacities())
      ensures Abstract() == StepCall(old(cp.Capacities()), old(Abstract()), Call.Query(t, now))
      ensures r == QueryResult(old(Abstract()), t, now)
    {
      var hit := cp.Get(GenKey(t));
      if hit.None? {
        return None;
      }
      if t.app !in pool || t.env !in pool[t.app] || t.key !in pool[t.app][t.env] {
        return None;
      }
      var item := pool[t.app][t.env][t.key];
      return if now - item.dirtyTime > FRESH_FOR then None else Some(item.val);
    }

    /** Set runs the eviction callback for what the LRU let go, then stores the
        element if its key is cached. */
    method Set(t: Triple, elem: E, now: int)
      requires Valid()
      modifies this, cp
      ensures Valid() && cp.Capacities() == old(cp.Capacities())
      ensures Abstract() == StepCall(old(cp.Capacities()), old(Abstract()), Call.Set(t, elem, now))
    {
      var before := |cp.evictions|;
      var cached, _ := cp.Put(GenKey(t), ());
      if before < |cp.evictions| {
        EvictCallback(cp.evictions[before].key);
      }
      if cached {
        pool := PoolSet(pool, t, Item(elem, now));
      }
    }

    method EvictCallback(k: string)
      modifies this`pool
      ensures pool == EvictFrom(old(pool), k)
    {
      var t := ParseKey(k);
      if t.Some? {
        pool := PoolUnset(pool, t.value);
      }
    }
  }
}
