/** The agent's LRU-K replacement policy (lru/k.go): two recency lists, two
    index maps and two counters of remaining room. A list is a sequence, front
    first; a list element is known by its key, and its mutable content is kept
    both in the list and under the key in the index map. */
module LruK {
  import opened Strings

  datatype Element<K, T> = Element(key: K, body: T)

  /** What the history keeps of a key that is not cached yet. */
  datatype Seen<V> = Seen(value: V, visited: nat)

  // ----- Recency lists -----

  /** What a list holds, whatever its order. */
  function View<K(==), T>(s: seq<Element<K, T>>): map<K, T> {
    if s == [] then map[] else View(s[1..])[s[0].key := s[0].body]
  }

  predicate Has<K(==), T>(s: seq<Element<K, T>>, key: K) {
    key in View(s)
  }

  ghost predicate Distinct<K, T>(s: seq<Element<K, T>>) {
    s == [] || (!Has(s[1..], s[0].key) && Distinct(s[1..]))
  }

  /** Front is most recent: `when` falls strictly from front to back. */
  ghost predicate Falling<K, T>(s: seq<Element<K, T>>, when: K -> int) {
    s == [] || ((forall key <- View(s[1..]) :: when(key) < when(s[0].key)) && Falling(s[1..], when))
  }

  /** list.Remove of the element of this key. */
  function Unlink<K(==), T>(s: seq<Element<K, T>>, key: K): seq<Element<K, T>> {
    if s == [] then []
    else if s[0].key == key then s[1..]
    else [s[0]] + Unlink(s[1..], key)
  }

  lemma {:induction false} UnlinkMeaning<K, T>(s: seq<Element<K, T>>, key: K)
    requires Distinct(s)
    ensures Distinct(Unlink(s, key)) && View(Unlink(s, key)) == View(s) - {key}
    ensures |Unlink(s, key)| == |s| - if Has(s, key) then 1 else 0
  {
    if s != [] && s[0].key != key {
      UnlinkMeaning(s[1..], key);
      assert Unlink(s, key)[1..] == Unlink(s[1..], key);
    }
  }

  lemma {:induction false} UnlinkAbsent<K, T>(s: seq<Element<K, T>>, key: K)
    requires !Has(s, key)
    ensures Unlink(s, key) == s
  {
    if s != [] {
      UnlinkAbsent(s[1..], key);
    }
  }

  lemma {:induction false} UnlinkKeepsOrder<K, T>(s: seq<Element<K, T>>, key: K, when: K -> int)
    requires Distinct(s) && Falling(s, when)
    ensures Falling(Unlink(s, key), when)
  {
    if s != [] && s[0].key != key {
      UnlinkKeepsOrder(s[1..], key, when);
      UnlinkMeaning(s[1..], key);
      assert Unlink(s, key)[1..] == Unlink(s[1..], key);
    }
  }

  /** The back of a list is unlinked by dropping the last position; in a list
      that falls by `when` it is the element `when` is least for. */
  lemma {:induction false} Back<K, T>(s: seq<Element<K, T>>)
    requires Distinct(s) && s != []
    ensures var e := s[|s| - 1]; Unlink(s, e.key) == s[..|s| - 1] && Has(s, e.key) && View(s)[e.key] == e.body
  {
    if |s| > 1 {
      Back(s[1..]);
      assert s[..|s| - 1] == [s[0]] + s[1..][..|s| - 2];
    }
  }

  lemma {:induction false} BackIsLeast<K, T>(s: seq<Element<K, T>>, when: K -> int)
    requires Distinct(s) && s != [] && Falling(s, when)
    ensures forall key <- View(s) :: key == s[|s| - 1].key || when(s[|s| - 1].key) < when(key)
  {
    if |s| > 1 {
      BackIsLeast(s[1..], when);
      Back(s[1..]);
    }
  }

  /** PushFront removes the back first when there is no room left. */
  function Trim<E>(s: seq<E>, room: nat): seq<E> {
    if s != [] && |s| >= room then s[..|s| - 1] else s
  }

  /** The key that Trim drops. */
  function Dropped<K, T>(s: seq<Element<K, T>>, room: nat): set<K> {
    if s != [] && |s| >= room then {s[|s| - 1].key} else {}
  }

  lemma TrimMeaning<K, T>(s: seq<Element<K, T>>, room: nat)
    requires Distinct(s) && |s| <= room && room >= 1
    ensures Distinct(Trim(s, room)) && |Trim(s, room)| < room
    ensures View(Trim(s, room)) == View(s) - Dropped(s, room)
    ensures Dropped(s, room) <= View(s).Keys
  {
    if s != [] {
      Back(s);
      UnlinkMeaning(s, s[|s| - 1].key);
    }
  }

  lemma TrimKeepsOrder<K, T>(s: seq<Element<K, T>>, room: nat, when: K -> int)
    requires Distinct(s) && Falling(s, when)
    ensures Falling(Trim(s, room), when)
  {
    if s != [] {
      Back(s);
      UnlinkKeepsOrder(s, s[|s| - 1].key, when);
    }
  }

  lemma Front<K, T>(e: Element<K, T>, s: seq<Element<K, T>>)
    ensures View([e] + s) == View(s)[e.key := e.body]
    ensures Distinct([e] + s) <==> !Has(s, e.key) && Distinct(s)
  {
    assert ([e] + s)[1..] == s;
  }

  lemma FrontKeepsOrder<K, T>(e: Element<K, T>, s: seq<Element<K, T>>, when: K -> int)
    requires Falling(s, when) && forall key <- View(s) :: when(key) < when(e.key)
    ensures Falling([e] + s, when)
  {
    assert ([e] + s)[1..] == s;
  }

  /** Only the times of the listed keys matter. */
  lemma {:induction false} Reorder<K, T>(s: seq<Element<K, T>>, was: K -> int, now: K -> int)
    requires Falling(s, was)
    requires forall key <- View(s) :: now(key) == was(key)
    ensures Falling(s, now)
  {
    if s != [] {
      assert forall key <- View(s[1..]) :: key in View(s);
      Reorder(s[1..], was, now);
    }
  }

  // ----- What Put, Get and Remove do to the two lists -----

  datatype Params = Params(k: nat, size: nat, hSize: nat)

  datatype Lists<K, V> = Lists(cache: seq<Element<K, V>>, history: seq<Element<K, Seen<V>>>)

  datatype Op<K, V> = Put(key: K, value: V) | Get(key: K) | Remove(key: K)

  predicate Admits<K(==), V>(p: Params, l: Lists<K, V>, key: K) {
    !Has(l.cache, key) && Has(l.history, key) && View(l.history)[key].visited + 1 >= p.k
  }

  function PutLists<K(==), V>(p: Params, l: Lists<K, V>, key: K, value: V): Lists<K, V> {
    if Has(l.cache, key) then
      l.(cache := [Element(key, value)] + Unlink(l.cache, key))
    else if Admits(p, l, key) then
      Lists([Element(key, value)] + Trim(l.cache, p.size), Unlink(l.history, key))
    else if Has(l.history, key) then
      var seen := View(l.history)[key];
      l.(history := [Element(key, seen.(visited := seen.visited + 1))] + Unlink(l.history, key))
    else
      l.(history := [Element(key, Seen(value, 1))] + Trim(l.history, p.hSize))
  }

  function StepLists<K(==), V>(p: Params, l: Lists<K, V>, op: Op<K, V>): Lists<K, V> {
    match op
    case Put(key, value) => PutLists(p, l, key, value)
    case Get(key) =>
      if Has(l.cache, key) then l.(cache := [Element(key, View(l.cache)[key])] + Unlink(l.cache, key)) else l
    case Remove(key) => l.(cache := Unlink(l.cache, key))
  }

  /** The elements onEvict is called with, in order. */
  function Departures<K(==), V>(p: Params, l: Lists<K, V>, op: Op<K, V>): seq<Element<K, V>> {
    match op
    case Put(key, _) =>
      if Admits(p, l, key) && |l.cache| >= p.size && l.cache != [] then [l.cache[|l.cache| - 1]] else []
    case Get(_) => []
    case Remove(key) => if Has(l.cache, key) then [Element(key, View(l.cache)[key])] else []
  }

  predicate ValidParams(p: Params) {
    p.k >= 2 && p.size >= 1 && p.hSize >= 1
  }

  ghost predicate Sound<K, V>(p: Params, l: Lists<K, V>) {
    && Distinct(l.cache) && |l.cache| <= p.size
    && Distinct(l.history) && |l.history| <= p.hSize
    && View(l.cache).Keys !! View(l.history).Keys
    && (forall key <- View(l.history) :: 1 <= View(l.history)[key].visited < p.k)
  }

  /** What a step leaves in the cache, as a map. */
  function CachedAfter<K(==), V>(p: Params, l: Lists<K, V>, op: Op<K, V>): map<K, V> {
    var cache := View(l.cache);
    match op
    case Remove(key) => cache - {key}
    case Get(_) => cache
    case Put(key, value) =>
      if key in cache then cache[key := value]
      else if Admits(p, l, key) then (cache - Dropped(l.cache, p.size))[key := value]
      else cache
  }

  /** What a step leaves in the history, as a map. */
  function SeenAfter<K(==), V>(p: Params, l: Lists<K, V>, op: Op<K, V>): map<K, Seen<V>> {
    var seen := View(l.history);
    if !op.Put? || Has(l.cache, op.key) then seen
    else if Admits(p, l, op.key) then seen - {op.key}
    else if op.key in seen then seen[op.key := seen[op.key].(visited := seen[op.key].visited + 1)]
    else (seen - Dropped(l.history, p.hSize))[op.key := Seen(op.value, 1)]
  }

  lemma CacheView<K, V>(p: Params, l: Lists<K, V>, op: Op<K, V>)
    requires ValidParams(p) && Distinct(l.cache) && |l.cache| <= p.size
    ensures var after := StepLists(p, l, op).cache;
            View(after) == CachedAfter(p, l, op) && Distinct(after) && |after| <= p.size
  {
    var cache := View(l.cache);
    UnlinkMeaning(l.cache, op.key);
    if op.key in cache && !op.Remove? {
      var value := if op.Put? then op.value else cache[op.key];
      Front(Element(op.key, value), Unlink(l.cache, op.key));
      assert (cache - {op.key})[op.key := value] == cache[op.key := value];
      assert cache[op.key := cache[op.key]] == cache;
    } else if op.Put? && Admits(p, l, op.key) {
      TrimMeaning(l.cache, p.size);
      Front(Element(op.key, op.value), Trim(l.cache, p.size));
    }
  }

  lemma HistoryView<K, V>(p: Params, l: Lists<K, V>, op: Op<K, V>)
    requires ValidParams(p) && Distinct(l.history) && |l.history| <= p.hSize
    ensures var after := StepLists(p, l, op).history;
            View(after) == SeenAfter(p, l, op) && Distinct(after) && |after| <= p.hSize
  {
    if op.Put? && !Has(l.cache, op.key) {
      var history := View(l.history);
      UnlinkMeaning(l.history, op.key);
      if Admits(p, l, op.key) {
      } else if op.key in history {
        var seen := history[op.key].(visited := history[op.key].visited + 1);
        Front(Element(op.key, seen), Unlink(l.history, op.key));
        assert (history - {op.key})[op.key := seen] == history[op.key := seen];
      } else {
        TrimMeaning(l.history, p.hSize);
        Front(Element(op.key, Seen(op.value, 1)), Trim(l.history, p.hSize));
      }
    }
  }

  lemma StepViews<K, V>(p: Params, l: Lists<K, V>, op: Op<K, V>)
    requires ValidParams(p) && Sound(p, l)
    ensures var after := StepLists(p, l, op);
            && View(after.cache) == CachedAfter(p, l, op) && Distinct(after.cache) && |after.cache| <= p.size
            && View(after.history) == SeenAfter(p, l, op) && Distinct(after.history) && |after.history| <= p.hSize
  {
    CacheView(p, l, op);
    HistoryView(p, l, op);
  }

  /** Every operation keeps the two lists sound. */
  lemma StepKeepsSound<K, V>(p: Params, l: Lists<K, V>, op: Op<K, V>)
    requires ValidParams(p) && Sound(p, l)
    ensures Sound(p, StepLists(p, l, op))
  {
    StepViews(p, l, op);
  }

  // ----- Reference: what a run of operations says about a key -----

  function Run<K(==), V>(p: Params, ops: seq<Op<K, V>>): Lists<K, V> {
    if ops == [] then Lists([], [])
    else StepLists(p, Run(p, ops[..|ops| - 1]), ops[|ops| - 1])
  }

  lemma RunStep<K, V>(p: Params, ops: seq<Op<K, V>>, op: Op<K, V>)
    ensures Run(p, ops + [op]) == StepLists(p, Run(p, ops), op)
  {
    assert (ops + [op])[..|ops|] == ops;
  }

  /** Position of the last Put or Get of a key, -1 without one. */
  function LastTouch<K(==), V>(ops: seq<Op<K, V>>, key: K): (i: int)
    ensures -1 <= i < |ops|
    ensures i >= 0 ==> ops[i].key == key && !ops[i].Remove?
    ensures forall j :: i < j < |ops| ==> ops[j].key != key || ops[j].Remove?
  {
    if ops == [] then -1
    else
      var n := |ops| - 1;
      if ops[n].key == key && !ops[n].Remove? then n else LastTouch(ops[..n], key)
  }

  /** Position of the last Put of a key, -1 without one. */
  function LastPut<K(==), V>(ops: seq<Op<K, V>>, key: K): (i: int)
    ensures -1 <= i < |ops|
    ensures i >= 0 ==> ops[i].key == key && ops[i].Put?
    ensures forall j :: i < j < |ops| ==> ops[j].key != key || !ops[j].Put?
  {
    if ops == [] then -1
    else
      var n := |ops| - 1;
      if ops[n].key == key && ops[n].Put? then n else LastPut(ops[..n], key)
  }

  lemma LastStep<K, V>(ops: seq<Op<K, V>>, op: Op<K, V>, key: K)
    ensures LastTouch(ops + [op], key) == if op.key == key && !op.Remove? then |ops| else LastTouch(ops, key)
    ensures LastPut(ops + [op], key) == if op.key == key && op.Put? then |ops| else LastPut(ops, key)
  {
    assert (ops + [op])[..|ops|] == ops;
  }

  /** How many Puts of a key the run holds since the key entered history. */
  function PutsSinceEntry<K(==), V>(p: Params, ops: seq<Op<K, V>>, key: K): nat {
    if ops == [] || !Has(Run(p, ops).history, key) then 0
    else
      var n := |ops| - 1;
      PutsSinceEntry(p, ops[..n], key) + if ops[n].key == key && ops[n].Put? then 1 else 0
  }

  lemma PutsStep<K, V>(p: Params, ops: seq<Op<K, V>>, op: Op<K, V>, key: K)
    ensures PutsSinceEntry(p, ops + [op], key) ==
            if !Has(Run(p, ops + [op]).history, key) then 0
            else PutsSinceEntry(p, ops, key) + if op.key == key && op.Put? then 1 else 0
    ensures !Has(Run(p, ops).history, key) ==> PutsSinceEntry(p, ops, key) == 0
  {
    assert (ops + [op])[..|ops|] == ops;
  }

  ghost predicate ValuesAre<K, V>(cached: map<K, V>, ops: seq<Op<K, V>>) {
    forall key <- cached :: LastPut(ops, key) >= 0 && ops[LastPut(ops, key)].value == cached[key]
  }

  ghost predicate CountsAre<K, V>(p: Params, seen: map<K, Seen<V>>, ops: seq<Op<K, V>>) {
    forall key <- seen :: seen[key].visited == PutsSinceEntry(p, ops, key)
  }

  /** The lists are what the run says: recency of use orders the cache, recency
      of Put orders the history, every cached value is the last one put and
      every history count is the number of Puts since entry. */
  ghost predicate Faithful<K, V>(p: Params, ops: seq<Op<K, V>>) {
    var l := Run(p, ops);
    && Sound(p, l)
    && Falling(l.cache, key => LastTouch(ops, key))
    && Falling(l.history, key => LastPut(ops, key))
    && ValuesAre(View(l.cache), ops)
    && CountsAre(p, View(l.history), ops)
  }

  lemma {:induction false} EveryRunIsFaithful<K, V>(p: Params, ops: seq<Op<K, V>>)
    requires ValidParams(p)
    ensures Faithful(p, ops)
  {
    if ops != [] {
      var n := |ops| - 1;
      EveryRunIsFaithful(p, ops[..n]);
      assert ops == ops[..n] + [ops[n]];
      RunStep(p, ops[..n], ops[n]);
      StepKeepsSound(p, Run(p, ops[..n]), ops[n]);
      CacheOrderStep(p, ops[..n], ops[n]);
      HistoryOrderStep(p, ops[..n], ops[n]);
      ValuesStep(p, ops[..n], ops[n]);
      CountsStep(p, ops[..n], ops[n]);
    }
  }

  /** Moving a key to the front at the latest time keeps a list falling. */
  lemma Touched<K, T>(s: seq<Element<K, T>>, e: Element<K, T>, room: nat, was: K -> int, now: K -> int)
    requires Distinct(s) && |s| <= room && room >= 1 && Falling(s, was)
    requires forall key <- View(s) :: key != e.key ==> now(key) == was(key)
    requires forall key <- View(s) :: was(key) < now(e.key)
    ensures Falling([e] + Unlink(s, e.key), now)
    ensures !Has(s, e.key) ==> Falling([e] + Trim(s, room), now)
  {
    UnlinkMeaning(s, e.key);
    UnlinkKeepsOrder(s, e.key, was);
    Reorder(Unlink(s, e.key), was, now);
    FrontKeepsOrder(e, Unlink(s, e.key), now);
    if !Has(s, e.key) {
      TrimMeaning(s, room);
      TrimKeepsOrder(s, room, was);
      Reorder(Trim(s, room), was, now);
      FrontKeepsOrder(e, Trim(s, room), now);
    }
  }

  lemma CacheOrderStep<K, V>(p: Params, ops: seq<Op<K, V>>, op: Op<K, V>)
    requires ValidParams(p) && Faithful(p, ops)
    ensures Falling(StepLists(p, Run(p, ops), op).cache, key => LastTouch(ops + [op], key))
  {
    var cache := Run(p, ops).cache;
    var was := (key: K) => LastTouch(ops, key);
    var now := (key: K) => LastTouch(ops + [op], key);
    forall key: K ensures now(key) == if op.key == key && !op.Remove? then |ops| else was(key) {
      LastStep(ops, op, key);
    }
    var after := StepLists(p, Run(p, ops), op).cache;
    if op.Remove? {
      UnlinkKeepsOrder(cache, op.key, was);
      Reorder(after, was, now);
    } else if Has(cache, op.key) || (op.Put? && Admits(p, Run(p, ops), op.key)) {
      Touched(cache, after[0], p.size, was, now);
    } else {
      Reorder(cache, was, now);
    }
  }

  lemma HistoryOrderStep<K, V>(p: Params, ops: seq<Op<K, V>>, op: Op<K, V>)
    requires ValidParams(p) && Faithful(p, ops)
    ensures Falling(StepLists(p, Run(p, ops), op).history, key => LastPut(ops + [op], key))
  {
    var l := Run(p, ops);
    var was := (key: K) => LastPut(ops, key);
    var now := (key: K) => LastPut(ops + [op], key);
    forall key: K ensures now(key) == if op.key == key && op.Put? then |ops| else was(key) {
      LastStep(ops, op, key);
    }
    var after := StepLists(p, l, op).history;
    if !op.Put? || Has(l.cache, op.key) {
      Reorder(l.history, was, now);
    } else if Admits(p, l, op.key) {
      UnlinkMeaning(l.history, op.key);
      UnlinkKeepsOrder(l.history, op.key, was);
      Reorder(after, was, now);
    } else {
      Touched(l.history, after[0], p.hSize, was, now);
    }
  }

  lemma ValuesStep<K, V>(p: Params, ops: seq<Op<K, V>>, op: Op<K, V>)
    requires ValidParams(p) && Faithful(p, ops)
    ensures ValuesAre(View(StepLists(p, Run(p, ops), op).cache), ops + [op])
  {
    StepViews(p, Run(p, ops), op);
    forall key: K ensures LastPut(ops + [op], key) == if op.key == key && op.Put? then |ops| else LastPut(ops, key) {
      LastStep(ops, op, key);
    }
  }

  lemma CountsStep<K, V>(p: Params, ops: seq<Op<K, V>>, op: Op<K, V>)
    requires ValidParams(p) && Faithful(p, ops)
    ensures CountsAre(p, View(StepLists(p, Run(p, ops), op).history), ops + [op])
  {
    StepViews(p, Run(p, ops), op);
    RunStep(p, ops, op);
    forall key <- View(StepLists(p, Run(p, ops), op).history)
      ensures View(StepLists(p, Run(p, ops), op).history)[key].visited == PutsSinceEntry(p, ops + [op], key)
    {
      PutsStep(p, ops, op, key);
    }
  }

  // ----- Admission, victims and callbacks over every run -----

  /** A key that is not cached enters the cache exactly on its K-th Put since it
      entered history. */
  lemma AdmittedOnKthPut<K, V>(p: Params, ops: seq<Op<K, V>>, key: K, value: V)
    requires ValidParams(p)
    requires !Has(Run(p, ops).cache, key)
    ensures Has(Run(p, ops + [Put(key, value)]).cache, key) <==> PutsSinceEntry(p, ops, key) + 1 == p.k
  {
    EveryRunIsFaithful(p, ops);
    RunStep(p, ops, Put(key, value));
    StepViews(p, Run(p, ops), Put(key, value));
    PutsStep(p, ops, Put(key, value), key);
  }

  /** Nothing but a Put of the key itself admits it. */
  lemma OnlyOwnPutAdmits<K, V>(p: Params, ops: seq<Op<K, V>>, op: Op<K, V>, key: K)
    requires ValidParams(p)
    requires !Has(Run(p, ops).cache, key) && Has(Run(p, ops + [op]).cache, key)
    ensures op.Put? && op.key == key
  {
    EveryRunIsFaithful(p, ops);
    RunStep(p, ops, op);
    StepViews(p, Run(p, ops), op);
  }

  /** A key leaves the cache in a step exactly when onEvict is called with it in
      that step, once and with its current value. */
  lemma StepDepartures<K, V>(p: Params, l: Lists<K, V>, op: Op<K, V>)
    requires ValidParams(p) && Sound(p, l)
    ensures var out := View(Departures(p, l, op));
            && out.Keys == View(l.cache).Keys - View(StepLists(p, l, op).cache).Keys
            && forall key <- out :: out[key] == View(l.cache)[key]
  {
    CacheView(p, l, op);
    var out := Departures(p, l, op);
    if out != [] {
      Front(out[0], []);
      assert [out[0]] + [] == out;
    }
    if op.Put? && l.cache != [] {
      Back(l.cache);
    }
  }

  lemma DeparturesAreExact<K, V>(p: Params, ops: seq<Op<K, V>>, op: Op<K, V>)
    requires ValidParams(p)
    ensures var before, after, out := Run(p, ops).cache, Run(p, ops + [op]).cache, Departures(p, Run(p, ops), op);
            && |out| <= 1
            && View(out).Keys == View(before).Keys - View(after).Keys
            && forall key <- View(out) :: View(out)[key] == View(before)[key]
  {
    EveryRunIsFaithful(p, ops);
    RunStep(p, ops, op);
    StepDepartures(p, Run(p, ops), op);
  }

  /** A Put that makes room takes the least recently touched key of a full
      cache. */
  lemma VictimIsLeastTouched<K, V>(p: Params, ops: seq<Op<K, V>>, key: K, value: V)
    requires ValidParams(p)
    requires Departures(p, Run(p, ops), Put(key, value)) != []
    ensures var cache, victim := Run(p, ops).cache, Departures(p, Run(p, ops), Put(key, value))[0].key;
            |cache| == p.size && Has(cache, victim) && LeastTouched(ops, View(cache).Keys, victim)
  {
    EveryRunIsFaithful(p, ops);
    var cache := Run(p, ops).cache;
    Back(cache);
    BackIsLeast(cache, key => LastTouch(ops, key));
  }

  ghost predicate LeastTouched<K, V>(ops: seq<Op<K, V>>, cached: set<K>, victim: K) {
    forall key <- cached :: key == victim || LastTouch(ops, victim) < LastTouch(ops, key)
  }

  function Admissions<K(==), V>(p: Params, ops: seq<Op<K, V>>, key: K): nat {
    if ops == [] then 0
    else
      var n := |ops| - 1;
      Admissions(p, ops[..n], key)
      + if !Has(Run(p, ops[..n]).cache, key) && Has(Run(p, ops).cache, key) then 1 else 0
  }

  /** How often onEvict was called with a key over a run. */
  function Callbacks<K(==), V>(p: Params, ops: seq<Op<K, V>>, key: K): nat {
    if ops == [] then 0
    else
      var n := |ops| - 1;
      Callbacks(p, ops[..n], key) + if Has(Departures(p, Run(p, ops[..n]), ops[n]), key) then 1 else 0
  }

  /** onEvict fires exactly once per stay in the cache: over any run, calls and
      the present stay add up to the admissions. */
  lemma {:induction false} OneCallbackPerStay<K, V>(p: Params, ops: seq<Op<K, V>>, key: K)
    requires ValidParams(p)
    ensures Admissions(p, ops, key) == Callbacks(p, ops, key) + if Has(Run(p, ops).cache, key) then 1 else 0
  {
    if ops != [] {
      var n := |ops| - 1;
      OneCallbackPerStay(p, ops[..n], key);
      assert ops == ops[..n] + [ops[n]];
      DeparturesAreExact(p, ops[..n], ops[n]);
    }
  }

  // ----- The object -----

  const UINT: nat := 0x1_0000_0000_0000_0000

  /** NewLRUK gives a history that is smaller than the cache this size, in
      machine arithmetic: it is never resized to nothing, and while the product
      fits the history has at least the room of the cache. */
  function HistoryRoom(size: nat, hSize: nat): (r: nat)
    requires size < UINT
    ensures size >= 1 ==> r >= 1
    ensures hSize >= size ==> r == hSize
    ensures var enlarged := match size % 3 case 0 => size case 1 => 2 * size case _ => 3 * size;
            hSize < size && enlarged < UINT ==> r == enlarged >= size
  {
    if hSize < size then
      assert size >= 1 ==> size * (size % 3 + 1) % UINT >= 1 by {
        assert size % 3 == 1 ==> size * 2 != UINT;
      }
      size * (size % 3 + 1) % UINT
    else hSize
  }

  /** An index map holds exactly the elements of its list, each once. */
  ghost predicate Indexes<K, T>(m: map<K, T>, s: seq<Element<K, T>>) {
    Distinct(s) && m == View(s)
  }

  lemma Unlinked<K, T>(m: map<K, T>, s: seq<Element<K, T>>, key: K)
    requires Indexes(m, s)
    ensures Indexes(m - {key}, Unlink(s, key))
    ensures |Unlink(s, key)| == |s| - if key in m then 1 else 0
  {
    UnlinkMeaning(s, key);
  }

  lemma Pushed<K, T>(m: map<K, T>, s: seq<Element<K, T>>, key: K, body: T)
    requires Indexes(m, s) && key !in m
    ensures Indexes(m[key := body], [Element(key, body)] + s)
  {
    Front(Element(key, body), s);
  }

  /** MoveToFront of an element whose content is replaced. */
  lemma Moved<K, T>(m: map<K, T>, s: seq<Element<K, T>>, key: K, body: T)
    requires Indexes(m, s) && key in m
    ensures Indexes(m[key := body], [Element(key, body)] + Unlink(s, key))
    ensures |[Element(key, body)] + Unlink(s, key)| == |s|
  {
    Unlinked(m, s, key);
    Pushed(m - {key}, Unlink(s, key), key, body);
    assert (m - {key})[key := body] == m[key := body];
  }

  lemma PutKeeps<K, V>(p: Params, l: Lists<K, V>, key: K, value: V)
    requires ValidParams(p) && Sound(p, l)
    ensures Sound(p, PutLists(p, l, key, value))
    ensures Has(PutLists(p, l, key, value).cache, key) <==> Has(l.cache, key) || Admits(p, l, key)
  {
    StepKeepsSound(p, l, Put(key, value));
    CacheView(p, l, Put(key, value));
  }

  class LRU<K(==), V> {
    const k: nat
    var hSize: nat
    var history: seq<Element<K, Seen<V>>>
    var historyItems: map<K, Seen<V>>
    var size: nat
    var cache: seq<Element<K, V>>
    var cacheItems: map<K, V>
    /** The calls made to onEvict so far. */
    var evictions: seq<Element<K, V>>

    /** The accounting: what is left and what is used add up to a capacity. */
    ghost function Capacities(): Params
      reads this
    {
      Params(k, size + |cache|, hSize + |history|)
    }

    ghost function Contents(): Lists<K, V>
      reads this
    {
      Lists(cache, history)
    }

    ghost predicate Valid()
      reads this
    {
      && Indexes(cacheItems, cache)
      && Indexes(historyItems, history)
      && Sound(Capacities(), Contents())
    }

    /** NewLRUK after its check of k. */
    constructor (k: nat, size: nat, hSize: nat)
      requires k >= 2 && size < UINT && hSize < UINT
      ensures Valid() && Contents() == Lists([], []) && evictions == []
      ensures Capacities() == Params(k, size, HistoryRoom(size, hSize))
      ensures size >= 1 ==> ValidParams(Capacities())
    {
      this.k := k;
      this.size := size;
      this.hSize := HistoryRoom(size, hSize);
      history, historyItems, cache, cacheItems, evictions := [], map[], [], map[], [];
    }

    method RemoveElement(key: K)
      requires Indexes(cacheItems, cache) && key in cacheItems
      modifies this`size, this`cache, this`cacheItems, this`evictions
      ensures size == old(size) + 1
      ensures cache == Unlink(old(cache), key) && cacheItems == old(cacheItems) - {key}
      ensures Indexes(cacheItems, cache) && |cache| == |old(cache)| - 1
      ensures evictions == old(evictions) + [Element(key, old(cacheItems)[key])]
    {
      Unlinked(cacheItems, cache, key);
      size := size + 1;
      var value := cacheItems[key];
      cache := Unlink(cache, key);
      cacheItems := cacheItems - {key};
      evictions := evictions + [Element(key, value)];
    }

    /** addElement; with no room left and an empty list the source dereferences
        the nil returned by Back. */
    method AddElement(key: K, value: V) returns (evicted: bool)
      requires Indexes(cacheItems, cache) && key !in cacheItems
      requires size + |cache| >= 1
      modifies this`size, this`cache, this`cacheItems, this`evictions
      ensures cache == [Element(key, value)] + Trim(old(cache), old(size) + |old(cache)|)
      ensures Indexes(cacheItems, cache) && size + |cache| == old(size) + |old(cache)|
      ensures evicted <==> old(size) == 0
      ensures evictions == old(evictions) + if evicted then [old(cache)[|old(cache)| - 1]] else []
    {
      evicted := false;
      if size == 0 {
        evicted := true;
        Back(cache);
        RemoveElement(cache[|cache| - 1].key);
      }
      Pushed(cacheItems, cache, key, value);
      size := size - 1;
      cache := [Element(key, value)] + cache;
      cacheItems := cacheItems[key := value];
    }

    method RemoveHistoryElement(key: K)
      requires Indexes(historyItems, history) && key in historyItems
      modifies this`hSize, this`history, this`historyItems
      ensures hSize == old(hSize) + 1
      ensures history == Unlink(old(history), key) && historyItems == old(historyItems) - {key}
      ensures Indexes(historyItems, history) && |history| == |old(history)| - 1
    {
      Unlinked(historyItems, history, key);
      hSize := hSize + 1;
      history := Unlink(history, key);
      historyItems := historyItems - {key};
    }

    method AddHistoryElement(key: K, seen: Seen<V>)
      requires Indexes(historyItems, history) && key !in historyItems
      requires hSize + |history| >= 1
      modifies this`hSize, this`history, this`historyItems
      ensures history == [Element(key, seen)] + Trim(old(history), old(hSize) + |old(history)|)
      ensures Indexes(historyItems, history) && hSize + |history| == old(hSize) + |old(history)|
    {
      if hSize == 0 {
        Back(history);
        RemoveHistoryElement(history[|history| - 1].key);
      }
      Pushed(historyItems, history, key, seen);
      hSize := hSize - 1;
      history := [Element(key, seen)] + history;
      historyItems := historyItems[key := seen];
    }

    /** Put refines PutLists; `cached` says the key is cached now, `evicted` that
        another key left to make room. */
    method Put(key: K, value: V) returns (cached: bool, evicted: bool)
      requires Valid() && ValidParams(Capacities())
      modifies this
      ensures Valid() && Capacities() == old(Capacities())
      ensures Contents() == PutLists(old(Capacities()), old(Contents()), key, value)
      ensures evictions == old(evictions) + Departures(old(Capacities()), old(Contents()), Op.Put(key, value))
      ensures cached <==> Has(cache, key)
      ensures evicted <==> Departures(old(Capacities()), old(Contents()), Op.Put(key, value)) != []
    {
      ghost var p, l := Capacities(), Contents();
      PutKeeps(p, l, key, value);
      cached, evicted := false, false;
      if key in cacheItems {
        Moved(cacheItems, cache, key, value);
        cacheItems := cacheItems[key := value];
        cache := [Element(key, value)] + Unlink(cache, key);
        cached := true;
      } else if key in historyItems {
        var seen := historyItems[key].(visited := historyItems[key].visited + 1);
        if seen.visited >= k {
          RemoveHistoryElement(key);
          evicted := AddElement(key, value);
          cached := true;
        } else {
          Moved(historyItems, history, key, seen);
          historyItems := historyItems[key := seen];
          history := [Element(key, seen)] + Unlink(history, key);
        }
      } else {
        AddHistoryElement(key, Seen(value, 1));
      }
      assert Capacities() == p;
      assert Contents() == PutLists(p, l, key, value);
    }

    method Get(key: K) returns (r: Option<V>)
      requires Valid()
      modifies this
      ensures Valid() && Capacities() == old(Capacities()) && evictions == old(evictions)
      ensures Contents() == StepLists(old(Capacities()), old(Contents()), Op.Get(key))
      ensures r == if Has(old(cache), key) then Some(View(old(cache))[key]) else None
    {
      if key !in cacheItems {
        return None;
      }
      var value := cacheItems[key];
      Moved(cacheItems, cache, key, value);
      assert cacheItems[key := value] == cacheItems;
      cache := [Element(key, value)] + Unlink(cache, key);
      return Some(value);
    }

    method Remove(key: K) returns (removed: bool)
      requires Valid()
      modifies this
      ensures Valid() && Capacities() == old(Capacities())
      ensures Contents() == StepLists(old(Capacities()), old(Contents()), Op.Remove(key))
      ensures evictions == old(evictions) + Departures(old(Capacities()), old(Contents()), Op.Remove(key))
      ensures removed <==> Has(old(cache), key)
    {
      if key in cacheItems {
        RemoveElement(key);
        return true;
      }
      UnlinkAbsent(cache, key);
      return false;
    }

    /** Keys lists the cached keys, back of the list first. */
    method Keys() returns (keys: seq<K>)
      ensures |keys| == |cache|
      ensures forall i :: 0 <= i < |keys| ==> keys[i] == cache[|cache| - 1 - i].key
    {
      keys := [];
      var i := |cache|;
      while i > 0
        invariant 0 <= i <= |cache| && |keys| == |cache| - i
        invariant forall j :: 0 <= j < |keys| ==> keys[j] == cache[|cache| - 1 - j].key
      {
        i := i - 1;
        keys := keys + [cache[i].key];
      }
    }

    /** Purge calls onEvict once for every cached element but gives no room
        back: the capacities shrink by what was held, so the accounting survives
        exactly when both lists were empty. */
    method Purge()
      requires Valid()
      modifies this
      ensures Valid() && Contents() == Lists([], [])
      ensures multiset(evictions) == multiset(old(evictions)) + multiset(old(cache))
      ensures old(Capacities()) == Params(k, Capacities().size + |old(cache)|, Capacities().hSize + |old(history)|)
      ensures Capacities() == old(Capacities()) <==> old(Contents()) == Lists([], [])
    {
      PurgeItems();
      cache := [];
      while historyItems != map[]
        modifies this`historyItems
        decreases |historyItems|
      {
        var key :| key in historyItems;
        historyItems := historyItems - {key};
      }
      history := [];
    }

    /** The loop of Purge that empties cacheItems. */
    method PurgeItems()
      requires Indexes(cacheItems, cache)
      modifies this`cacheItems, this`evictions
      ensures cacheItems == map[]
      ensures multiset(evictions) == multiset(old(evictions)) + multiset(cache)
    {
      ghost var left := cache;
      while cacheItems != map[]
        invariant Indexes(cacheItems, left)
        invariant multiset(evictions) + multiset(left) == multiset(old(evictions)) + multiset(cache)
        decreases |cacheItems|
      {
        var key :| key in cacheItems;
        Unlinked(cacheItems, left, key);
        UnlinkTakesOne(left, key);
        evictions := evictions + [Element(key, cacheItems[key])];
        left := Unlink(left, key);
        cacheItems := cacheItems - {key};
      }
    }
  }

  lemma {:induction false} UnlinkTakesOne<K, T>(s: seq<Element<K, T>>, key: K)
    requires Distinct(s) && Has(s, key)
    ensures multiset(s) == multiset{Element(key, View(s)[key])} + multiset(Unlink(s, key))
  {
    assert s == [s[0]] + s[1..];
    if s[0].key != key {
      UnlinkTakesOne(s[1..], key);
    }
  }
}
