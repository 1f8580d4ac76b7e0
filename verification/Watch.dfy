/** Watch and dispatch in the agent (domain_instance.go, app_grpc.go). Every
    pool operation runs under the pool's lock, so an interleaving is a sequence
    of whole operations and of receives by the watch streams. */
module Watch {
  import opened Strings

  /** An element as the watch path sees it. */
  datatype Elem = Elem(app: string, env: string, key: string, raw: string)

  /** A buffered channel; `closes` counts calls of close. */
  datatype Chan = Chan(buf: seq<Elem>, closes: nat)

  /** instanceNode: its channel, as a position, and the keys it was created with. */
  datatype Node = Node(ch: nat, keys: seq<string>)

  const SIZE_BUF_ELEM: nat := 10

  function WatchingKey(app: string, env: string, key: string): string {
    Join([app, env, key], '-')
  }

  /** The joined key is lossy: a separator may move between two parts. */
  lemma WatchingKeysCollide(app: string, x: string, env: string, key: string)
    ensures WatchingKey(app + "-" + x, env, key) == WatchingKey(app, x + "-" + env, key)
  {
    JoinThree(app + "-" + x, env, key);
    JoinThree(app, x + "-" + env, key);
  }

  lemma JoinThree(a: string, b: string, c: string)
    ensures WatchingKey(a, b, c) == a + "-" + b + "-" + c
  {
    assert [a, b, c][1..] == [b, c] && [b, c][1..] == [c];
    assert Join([b, c], '-') == b + "-" + c;
    assert a + "-" + (b + "-" + c) == a + "-" + b + "-" + c;
  }

  // ----- The pool as a value -----

  datatype Pool = Pool(instances: map<string, Node>, watchingSet: map<string, set<string>>,
                       chans: seq<Chan>, panicked: bool)

  function Empty(): Pool {
    Pool(map[], map[], [], false)
  }

  function Watchers(w: map<string, set<string>>, key: string): set<string> {
    if key in w then w[key] else {}
  }

  function AddWatcher(w: map<string, set<string>>, ins: string, keys: seq<string>): (r: map<string, set<string>>)
    ensures forall k :: Watchers(r, k) == Watchers(w, k) + if k in keys then {ins} else {}
  {
    if keys == [] then w
    else
      var n := |keys| - 1;
      assert keys == keys[..n] + [keys[n]];
      var r := AddWatcher(w, ins, keys[..n]);
      r[keys[n] := Watchers(r, keys[n]) + {ins}]
  }

  lemma AddWatcherStep(w: map<string, set<string>>, ins: string, keys: seq<string>, i: nat)
    requires i < |keys|
    ensures var r := AddWatcher(w, ins, keys[..i]);
            AddWatcher(w, ins, keys[..i + 1]) == r[keys[i] := Watchers(r, keys[i]) + {ins}]
  {
    assert keys[..i + 1][..i] == keys[..i];
  }

  function DropWatcher(w: map<string, set<string>>, ins: string, keys: seq<string>): (r: map<string, set<string>>)
    ensures forall k :: Watchers(r, k) == Watchers(w, k) - if k in keys then {ins} else {}
  {
    if keys == [] then w
    else
      var n := |keys| - 1;
      assert keys == keys[..n] + [keys[n]];
      var r := DropWatcher(w, ins, keys[..n]);
      if keys[n] in r then r[keys[n] := r[keys[n]] - {ins}] else r
  }

  function Registered(p: Pool, ins: string, keys: seq<string>): Pool {
    var q := if ins in p.instances then p
             else p.(chans := p.chans + [Chan([], 0)], instances := p.instances[ins := Node(|p.chans|, keys)]);
    q.(watchingSet := AddWatcher(q.watchingSet, ins, keys))
  }

  /** close panics on a closed channel. */
  function Close(p: Pool, ch: nat): Pool {
    if ch >= |p.chans| || p.chans[ch].closes > 0 then p.(panicked := true)
    else p.(chans := p.chans[ch := p.chans[ch].(closes := 1)])
  }

  function Unregistered(p: Pool, ins: string): Pool {
    if ins !in p.instances then p
    else
      var node := p.instances[ins];
      Close(p, node.ch).(watchingSet := DropWatcher(p.watchingSet, ins, node.keys), instances := p.instances - {ins})
  }

  function Offer(buf: seq<Elem>, e: Elem): seq<Elem> {
    if |buf| < SIZE_BUF_ELEM then buf + [e] else buf
  }

  /** push: a send that never blocks; it panics on a closed channel. */
  function Pushed(p: Pool, ins: string, e: Elem): Pool {
    if ins !in p.instances then p
    else
      var ch := p.instances[ins].ch;
      if ch >= |p.chans| || p.chans[ch].closes > 0 then p.(panicked := true)
      else p.(chans := p.chans[ch := p.chans[ch].(buf := Offer(p.chans[ch].buf, e))])
  }

  function Received(p: Pool, ch: nat): Pool {
    if ch < |p.chans| && p.chans[ch].buf != [] then
      p.(chans := p.chans[ch := p.chans[ch].(buf := p.chans[ch].buf[1..])])
    else p
  }

  // ----- Every interleaving -----

  datatype Step = Register(ins: string, keys: seq<string>) | Unregister(ins: string)
                | Push(ins: string, e: Elem) | Receive(ch: nat)

  function Next(p: Pool, s: Step): Pool {
    match s
    case Register(ins, keys) => Registered(p, ins, keys)
    case Unregister(ins) => Unregistered(p, ins)
    case Push(ins, e) => Pushed(p, ins, e)
    case Receive(ch) => Received(p, ch)
  }

  function Run(steps: seq<Step>): Pool {
    if steps == [] then Empty() else Next(Run(steps[..|steps| - 1]), steps[|steps| - 1])
  }

  /** Registered instances own distinct open channels. */
  ghost predicate Sound(p: Pool) {
    && !p.panicked
    && (forall i <- p.instances :: p.instances[i].ch < |p.chans| && p.chans[p.instances[i].ch].closes == 0)
    && (forall i <- p.instances, j <- p.instances :: i != j ==> p.instances[i].ch != p.instances[j].ch)
    && (forall c :: 0 <= c < |p.chans| ==> p.chans[c].closes <= 1 && |p.chans[c].buf| <= SIZE_BUF_ELEM)
  }

  lemma UnregisterKeepsSound(p: Pool, ins: string)
    requires Sound(p)
    ensures Sound(Unregistered(p, ins))
  {
    var q := Unregistered(p, ins);
    if ins in p.instances {
      forall i <- q.instances ensures q.instances[i].ch < |q.chans| && q.chans[q.instances[i].ch].closes == 0 {
        assert i in p.instances && i != ins;
      }
    }
  }

  lemma RegisterKeepsSound(p: Pool, ins: string, keys: seq<string>)
    requires Sound(p)
    ensures Sound(Registered(p, ins, keys))
  {
  }

  lemma NextKeepsSound(p: Pool, s: Step)
    requires Sound(p)
    ensures Sound(Next(p, s))
  {
    match s
    case Register(ins, keys) => RegisterKeepsSound(p, ins, keys);
    case Unregister(ins) => UnregisterKeepsSound(p, ins);
    case Push(ins, e) =>
    case Receive(ch) =>
  }

  /** No interleaving of register, unregister, push and receive sends on a closed
      channel or closes one twice. */
  lemma {:induction false} NeverSendsOnClosed(steps: seq<Step>)
    ensures Sound(Run(steps))
  {
    if steps != [] {
      NeverSendsOnClosed(steps[..|steps| - 1]);
      NextKeepsSound(Run(steps[..|steps| - 1]), steps[|steps| - 1]);
    }
  }

  // ----- Channels are first in, first out -----

  function Waiting(p: Pool, ch: nat): seq<Elem> {
    if ch < |p.chans| then p.chans[ch].buf else []
  }

  /** What a step puts into a channel, and what it takes out of it. */
  function PutInto(p: Pool, s: Step, ch: nat): seq<Elem> {
    if s.Push? && s.ins in p.instances && p.instances[s.ins].ch == ch && |Waiting(p, ch)| < SIZE_BUF_ELEM then [s.e] else []
  }

  function TakenOut(p: Pool, s: Step, ch: nat): seq<Elem> {
    if s == Receive(ch) && Waiting(p, ch) != [] then [Waiting(p, ch)[0]] else []
  }

  function Accepted(steps: seq<Step>, ch: nat): seq<Elem> {
    if steps == [] then []
    else var n := |steps| - 1; Accepted(steps[..n], ch) + PutInto(Run(steps[..n]), steps[n], ch)
  }

  function Delivered(steps: seq<Step>, ch: nat): seq<Elem> {
    if steps == [] then []
    else var n := |steps| - 1; Delivered(steps[..n], ch) + TakenOut(Run(steps[..n]), steps[n], ch)
  }

  lemma NextIsFifo(p: Pool, s: Step, ch: nat)
    requires Sound(p)
    ensures Waiting(p, ch) + PutInto(p, s, ch) == TakenOut(p, s, ch) + Waiting(Next(p, s), ch)
  {
    var was, now := Waiting(p, ch), Waiting(Next(p, s), ch);
    if s == Receive(ch) && was != [] {
      assert now == was[1..] && was == [was[0]] + was[1..];
    } else if PutInto(p, s, ch) != [] {
      assert now == was + [s.e];
    } else {
      assert now == was && was + [] == [] + was;
    }
  }

  lemma Regroup(acc: seq<Elem>, out: seq<Elem>, was: seq<Elem>, put: seq<Elem>, taken: seq<Elem>, now: seq<Elem>)
    requires acc == out + was && was + put == taken + now
    ensures acc + put == (out + taken) + now
  {
    assert (out + was) + put == out + (was + put);
    assert out + (taken + now) == (out + taken) + now;
  }

  /** Over every run: what was received from a channel and what waits in it is what
      was put into it, in order, also after it was closed. */
  lemma {:induction false} ChannelsAreFifo(steps: seq<Step>, ch: nat)
    ensures Accepted(steps, ch) == Delivered(steps, ch) + Waiting(Run(steps), ch)
  {
    if steps != [] {
      var n := |steps| - 1;
      var p := Run(steps[..n]);
      ChannelsAreFifo(steps[..n], ch);
      NeverSendsOnClosed(steps[..n]);
      NextIsFifo(p, steps[n], ch);
      Regroup(Accepted(steps[..n], ch), Delivered(steps[..n], ch), Waiting(p, ch), PutInto(p, steps[n], ch), TakenOut(p, steps[n], ch),
              Waiting(Run(steps), ch));
    }
  }

  // ----- The index against the history -----

  predicate IsRegistered(steps: seq<Step>, ins: string) {
    if steps == [] then false
    else
      var s := steps[|steps| - 1];
      if s.Register? && s.ins == ins then true
      else if s.Unregister? && s.ins == ins then false
      else IsRegistered(steps[..|steps| - 1], ins)
  }

  /** The keys an instance asked for since it was last unregistered. */
  function Asked(steps: seq<Step>, ins: string): set<string> {
    if steps == [] then {}
    else
      var s, before := steps[|steps| - 1], Asked(steps[..|steps| - 1], ins);
      if s.Register? && s.ins == ins then before + set k | k in s.keys
      else if s.Unregister? && s.ins == ins then {}
      else before
  }

  /** The keys of the Register that created the instance's present node. */
  function FirstAsked(steps: seq<Step>, ins: string): seq<string> {
    if steps == [] then []
    else
      var s, rest := steps[|steps| - 1], steps[..|steps| - 1];
      if s.Register? && s.ins == ins && !IsRegistered(rest, ins) then s.keys
      else FirstAsked(rest, ins)
  }

  /** No Register of a known instance asks for a key its first one did not. */
  ghost predicate Tidy(steps: seq<Step>) {
    forall n :: 0 <= n < |steps| ==> TidyAt(steps, n)
  }

  ghost predicate TidyAt(steps: seq<Step>, n: nat)
    requires n < |steps|
  {
    steps[n].Register? && IsRegistered(steps[..n], steps[n].ins) ==>
      forall k <- steps[n].keys :: k in FirstAsked(steps[..n], steps[n].ins)
  }

  /** The index never misses a registered watcher: over every run, the instances
      are those whose last Register or Unregister is a Register, and each is
      listed under every key it asked for since. */
  lemma {:induction false} IndexNeverMisses(steps: seq<Step>, ins: string)
    ensures ins in Run(steps).instances <==> IsRegistered(steps, ins)
    ensures IsRegistered(steps, ins) ==> Run(steps).instances[ins].keys == FirstAsked(steps, ins)
    ensures forall k <- Asked(steps, ins) :: ins in Watchers(Run(steps).watchingSet, k)
  {
    if steps != [] {
      IndexNeverMisses(steps[..|steps| - 1], ins);
    }
  }

  /** What a step does to one instance's place under one key. */
  lemma WatchersStep(p: Pool, s: Step, ins: string, k: string)
    ensures ins in Watchers(Next(p, s).watchingSet, k) <==>
            if s.Register? && s.ins == ins then k in s.keys || ins in Watchers(p.watchingSet, k)
            else if s.Unregister? && s.ins == ins && ins in p.instances then
              k !in p.instances[ins].keys && ins in Watchers(p.watchingSet, k)
            else ins in Watchers(p.watchingSet, k)
  {
  }

  lemma TidyPrefix(steps: seq<Step>, n: nat)
    requires Tidy(steps) && n <= |steps|
    ensures Tidy(steps[..n])
  {
    forall m | 0 <= m < n ensures TidyAt(steps[..n], m) {
      assert steps[..n][..m] == steps[..m];
      assert TidyAt(steps, m);
    }
  }

  /** In a tidy run the index is exact. */
  lemma {:induction false} TidyIndexIsExact(steps: seq<Step>, ins: string, k: string)
    requires Tidy(steps)
    ensures ins in Watchers(Run(steps).watchingSet, k) <==> k in Asked(steps, ins)
    ensures k in Asked(steps, ins) ==> IsRegistered(steps, ins) && k in FirstAsked(steps, ins)
  {
    if steps != [] {
      var n := |steps| - 1;
      var rest := steps[..n];
      TidyPrefix(steps, n);
      TidyIndexIsExact(rest, ins, k);
      IndexNeverMisses(rest, ins);
      WatchersStep(Run(rest), steps[n], ins, k);
      assert TidyAt(steps, n);
    }
  }

  /** The first Register of a known instance that asks for a new key leaves the
      instance listed under that key after it is unregistered. */
  lemma UntidyRegisterLeaks(steps: seq<Step>, ins: string, keys: seq<string>, k: string)
    requires IsRegistered(steps, ins) && k in keys && k !in FirstAsked(steps, ins)
    ensures var after := steps + [Register(ins, keys)] + [Unregister(ins)];
            && !IsRegistered(after, ins) && Asked(after, ins) == {}
            && ins !in Run(after).instances && ins in Watchers(Run(after).watchingSet, k)
  {
    var first := steps + [Register(ins, keys)];
    var after := first + [Unregister(ins)];
    assert first[..|steps|] == steps && after[..|first|] == first;
    IndexNeverMisses(first, ins);
    assert k in Asked(first, ins);
    assert FirstAsked(first, ins) == FirstAsked(steps, ins);
    assert Run(after) == Unregistered(Run(first), ins);
  }

  /** After any part of the run, unregistering the instance leaves it listed
      nowhere. */
  ghost predicate NeverLeaks(steps: seq<Step>) {
    forall n, ins, k :: 0 <= n <= |steps| ==> !ListedAfter(steps[..n], ins, k)
  }

  predicate ListedAfter(steps: seq<Step>, ins: string, k: string) {
    ins in Watchers(Run(steps + [Unregister(ins)]).watchingSet, k)
  }

  lemma TidyDoesNotLeak(steps: seq<Step>, ins: string, k: string)
    requires Tidy(steps)
    ensures !ListedAfter(steps, ins, k)
  {
    var all := steps + [Unregister(ins)];
    assert all[..|steps|] == steps;
    TidyIndexIsExact(steps, ins, k);
    IndexNeverMisses(steps, ins);
    WatchersStep(Run(steps), Unregister(ins), ins, k);
  }

  lemma UntidyLeaks(steps: seq<Step>, n: nat) returns (k: string)
    requires n < |steps| && !TidyAt(steps, n)
    ensures ListedAfter(steps[..n + 1], steps[n].ins, k)
  {
    var s := steps[n];
    k :| k in s.keys && k !in FirstAsked(steps[..n], s.ins);
    UntidyRegisterLeaks(steps[..n], s.ins, s.keys, k);
    assert steps[..n + 1] == steps[..n] + [Register(s.ins, s.keys)];
  }

  /** For every run: no unregistration after any part of it leaves the instance
      listed if and only if no register of a known instance asks for a key its
      first one did not. */
  lemma NeverLeaksIffTidy(steps: seq<Step>)
    ensures NeverLeaks(steps) <==> Tidy(steps)
  {
    if Tidy(steps) {
      forall n, ins, k | 0 <= n <= |steps| ensures !ListedAfter(steps[..n], ins, k) {
        TidyPrefix(steps, n);
        TidyDoesNotLeak(steps[..n], ins, k);
      }
    }
    if n :| 0 <= n < |steps| && !TidyAt(steps, n) {
      var k := UntidyLeaks(steps, n);
      assert !NeverLeaks(steps);
    }
  }

  // ----- Watch: the request and its stream -----

  datatype Watching = Watching(app: string, env: string, keys: seq<string>)

  datatype ElementKey = ElementKey(app: string, env: string, key: string)

  function KeyOf(e: Elem): ElementKey {
    ElementKey(e.app, e.env, e.key)
  }

  /** The exact triples a request names. */
  ghost predicate Names(req: seq<Watching>, k: ElementKey) {
    exists i :: 0 <= i < |req| && req[i].app == k.app && req[i].env == k.env && k.key in req[i].keys
  }

  /** Watch fills its `allowed` map with exactly the named triples. */
  method Allowed(req: seq<Watching>) returns (allowed: set<ElementKey>)
    ensures forall k :: k in allowed <==> Names(req, k)
  {
    allowed := {};
    for i := 0 to |req|
      invariant forall k :: k in allowed <==> Names(req[..i], k)
    {
      ghost var before := allowed;
      var w := req[i];
      for j := 0 to |w.keys|
        invariant forall k :: k in allowed <==>
                              k in before || (k.app == w.app && k.env == w.env && k.key in w.keys[..j])
      {
        assert w.keys[..j + 1] == w.keys[..j] + [w.keys[j]];
        allowed := allowed + {ElementKey(w.app, w.env, w.keys[j])};
      }
      assert w.keys[..|w.keys|] == w.keys;
      forall k ensures k in allowed <==> Names(req[..i + 1], k) {
        NamesStep(req, i, k);
      }
    }
    assert req[..|req|] == req;
  }

  lemma NamesStep(req: seq<Watching>, i: nat, k: ElementKey)
    requires i < |req|
    ensures Names(req[..i + 1], k) <==>
            Names(req[..i], k) || (req[i].app == k.app && req[i].env == k.env && k.key in req[i].keys)
  {
    assert req[..i + 1] == req[..i] + [req[i]];
    if Names(req[..i], k) {
      var j :| 0 <= j < |req[..i]| && req[..i][j].app == k.app && req[..i][j].env == k.env && k.key in req[..i][j].keys;
      assert req[..i + 1][j] == req[..i][j];
    }
    if Names(req[..i + 1], k) {
      var j :| 0 <= j < |req[..i + 1]| && req[..i + 1][j].app == k.app && req[..i + 1][j].env == k.env
               && k.key in req[..i + 1][j].keys;
      if j < i { assert req[..i][j] == req[..i + 1][j]; }
    }
    if req[i].app == k.app && req[i].env == k.env && k.key in req[i].keys {
      assert req[..i + 1][i] == req[i];
    }
  }

  /** The elements of a stream that a request names, in order. */
  ghost function Matching(req: seq<Watching>, elems: seq<Elem>): seq<Elem> {
    if elems == [] then []
    else
      var n := |elems| - 1;
      Matching(req, elems[..n]) + if Names(req, KeyOf(elems[n])) then [elems[n]] else []
  }

  lemma MatchingStep(req: seq<Watching>, elems: seq<Elem>, e: Elem)
    ensures Matching(req, elems + [e]) == Matching(req, elems) + if Names(req, KeyOf(e)) then [e] else []
  {
    assert (elems + [e])[..|elems|] == elems;
  }

  /** The loop of Watch over what its channel yields, `ok(i)` telling whether
      authorizing and sending the i-th element succeeds: the client gets exactly
      the named elements received before the first failure. */
  method Stream(req: seq<Watching>, elems: seq<Elem>, ok: nat -> bool) returns (sent: seq<Elem>, n: nat)
    ensures n <= |elems| && sent == Matching(req, elems[..n])
    ensures forall i :: 0 <= i < n && Names(req, KeyOf(elems[i])) ==> ok(i)
    ensures n < |elems| ==> Names(req, KeyOf(elems[n])) && !ok(n)
  {
    var allowed := Allowed(req);
    sent, n := [], 0;
    ghost var done := [];
    while n < |elems|
      invariant n <= |elems| && done == elems[..n] && sent == Matching(req, done)
      invariant forall i :: 0 <= i < n && Names(req, KeyOf(elems[i])) ==> ok(i)
    {
      var e := elems[n];
      MatchingStep(req, done, e);
      if KeyOf(e) in allowed {
        if !ok(n) {
          return;
        }
        sent := sent + [e];
      }
      done := done + [e];
      n := n + 1;
    }
  }

  // ----- The pool object and Dispatch -----

  function WatchedKey(e: Elem): string {
    WatchingKey(e.app, e.env, e.key)
  }

  /** Dispatch offers an element to an instance listed under its joined key, and
      with a target list only to a listed target. */
  predicate Targeted(p: Pool, targets: set<string>, ins: string, e: Elem) {
    ins in Watchers(p.watchingSet, WatchedKey(e)) && (targets == {} || ins in targets)
  }

  function OfferAll(p: Pool, targets: set<string>, ins: string, buf: seq<Elem>, elems: seq<Elem>): seq<Elem> {
    if elems == [] then buf
    else
      var n := |elems| - 1;
      var before := OfferAll(p, targets, ins, buf, elems[..n]);
      if Targeted(p, targets, ins, elems[n]) then Offer(before, elems[n]) else before
  }

  /** What waits in the channel of a registered instance. */
  function Mailbox(p: Pool, ins: string): seq<Elem> {
    if ins in p.instances && p.instances[ins].ch < |p.chans| then p.chans[p.instances[ins].ch].buf else []
  }

  predicate Joined(app: string, env: string, watchingKeys: seq<string>, keys: seq<string>) {
    && |keys| == |watchingKeys|
    && forall i :: 0 <= i < |keys| ==> keys[i] == WatchingKey(app, env, watchingKeys[i])
  }

  class InstancePool {
    var instances: map<string, Node>
    var watchingSet: map<string, set<string>>
    var chans: seq<Chan>

    ghost function Abstract(): Pool
      reads this
    {
      Pool(instances, watchingSet, chans, false)
    }

    constructor ()
      ensures Abstract() == Empty()
    {
      instances, watchingSet, chans := map[], map[], [];
    }

    method Register(ins: string, app: string, env: string, watchingKeys: seq<string>) returns (ch: nat)
      requires Sound(Abstract())
      modifies this
      ensures exists keys: seq<string> :: Joined(app, env, watchingKeys, keys) && Abstract() == Registered(old(Abstract()), ins, keys)
      ensures Sound(Abstract()) && ins in instances && ch == instances[ins].ch
    {
      var keys := [];
      for i := 0 to |watchingKeys|
        invariant |keys| == i && Joined(app, env, watchingKeys[..i], keys)
        invariant Abstract() == old(Abstract())
      {
        keys := keys + [WatchingKey(app, env, watchingKeys[i])];
      }
      assert watchingKeys[..|watchingKeys|] == watchingKeys;
      ch := RegisterKeys(ins, keys);
    }

    method RegisterKeys(ins: string, keys: seq<string>) returns (ch: nat)
      requires Sound(Abstract())
      modifies this
      ensures Abstract() == Registered(old(Abstract()), ins, keys)
      ensures Sound(Abstract()) && ins in instances && ch == instances[ins].ch
    {
      NextKeepsSound(Abstract(), Step.Register(ins, keys));
      ghost var target := Registered(Abstract(), ins, keys);
      if ins !in instances {
        instances := instances[ins := Node(|chans|, keys)];
        chans := chans + [Chan([], 0)];
      }
      AddWatchers(ins, keys);
      assert Abstract() == target;
      return instances[ins].ch;
    }

    /** The loop of register over the keys. */
    method AddWatchers(ins: string, keys: seq<string>)
      modifies this`watchingSet
      ensures watchingSet == AddWatcher(old(watchingSet), ins, keys)
    {
      for i := 0 to |keys|
        invariant watchingSet == AddWatcher(old(watchingSet), ins, keys[..i])
      {
        AddWatcherStep(old(watchingSet), ins, keys, i);
        if keys[i] !in watchingSet {
          watchingSet := watchingSet[keys[i] := {}];
        }
        watchingSet := watchingSet[keys[i] := watchingSet[keys[i]] + {ins}];
      }
      assert keys[..|keys|] == keys;
    }

    method Unregister(ins: string)
      requires Sound(Abstract())
      modifies this
      ensures Abstract() == Unregistered(old(Abstract()), ins)
      ensures Sound(Abstract())
    {
      NextKeepsSound(Abstract(), Step.Unregister(ins));
      if ins !in instances {
        return;
      }
      var node := instances[ins];
      for i := 0 to |node.keys|
        invariant watchingSet == DropWatcher(old(watchingSet), ins, node.keys[..i])
        invariant instances == old(instances) && chans == old(chans)
      {
        assert node.keys[..i + 1][..i] == node.keys[..i];
        var key := node.keys[i];
        if key in watchingSet {
          watchingSet := watchingSet[key := watchingSet[key] - {ins}];
        }
      }
      assert node.keys[..|node.keys|] == node.keys;
      chans := chans[node.ch := chans[node.ch].(closes := chans[node.ch].closes + 1)];
      instances := instances - {ins};
    }

    method Notify(ins: string, e: Elem)
      requires Sound(Abstract())
      modifies this`chans
      ensures Abstract() == Pushed(old(Abstract()), ins, e)
      ensures Sound(Abstract())
    {
      NextKeepsSound(Abstract(), Step.Push(ins, e));
      if ins in instances {
        var ch := instances[ins].ch;
        if |chans[ch].buf| < SIZE_BUF_ELEM {
          chans := chans[ch := chans[ch].(buf := chans[ch].buf + [e])];
        }
      }
    }

    /** Offers one element to a set of instances, in whatever order they come. */
    method NotifyAll(insIds: set<string>, e: Elem)
      requires Sound(Abstract())
      modifies this`chans
      ensures Sound(Abstract())
      ensures forall i <- instances :: Mailbox(Abstract(), i) ==
                if i in insIds then Offer(Mailbox(old(Abstract()), i), e) else Mailbox(old(Abstract()), i)
    {
      var todo := insIds;
      while todo != {}
        invariant todo <= insIds && Sound(Abstract())
        invariant forall i <- instances :: Mailbox(Abstract(), i) ==
                    if i in insIds - todo then Offer(Mailbox(old(Abstract()), i), e) else Mailbox(old(Abstract()), i)
        decreases |todo|
      {
        var ins :| ins in todo;
        Notify(ins, e);
        todo := todo - {ins};
      }
    }

    /** Dispatch with no other operation in between: an instance is offered, in
        order, exactly the elements listed for it, and with targets only when it
        is one of them. */
    method Dispatch(elems: seq<Elem>, targets: set<string>)
      requires Sound(Abstract())
      modifies this`chans
      ensures Sound(Abstract())
      ensures forall i <- instances :: Mailbox(Abstract(), i) ==
                OfferAll(old(Abstract()), targets, i, Mailbox(old(Abstract()), i), elems)
    {
      for n := 0 to |elems|
        invariant Sound(Abstract())
        invariant forall i <- instances :: Mailbox(Abstract(), i) ==
                    OfferAll(old(Abstract()), targets, i, Mailbox(old(Abstract()), i), elems[..n])
      {
        assert elems[..n + 1][..n] == elems[..n];
        var key := WatchedKey(elems[n]);
        var insIds := if key in watchingSet then watchingSet[key] else {};
        if targets != {} {
          insIds := set i | i in insIds && i in targets;
        }
        NotifyAll(insIds, elems[n]);
      }
      assert elems[..|elems|] == elems;
    }
  }

  /** The joined keys of everything a request names. */
  ghost predicate Asks(req: seq<Watching>, keys: set<string>) {
    forall i, k :: 0 <= i < |req| && k in req[i].keys ==> WatchingKey(req[i].app, req[i].env, k) in keys
  }

  /** Delivery is exact although joined keys collide: whatever happened before,
      for an instance that registered all of its request and has room, one
      dispatched element adds to what its stream sends exactly when the request
      names the element's own triple and the dispatch addresses the instance. */
  lemma DeliveredIffWatched(steps: seq<Step>, ins: string, req: seq<Watching>, e: Elem, targets: set<string>)
    requires IsRegistered(steps, ins) && Asks(req, Asked(steps, ins))
    requires |Mailbox(Run(steps), ins)| < SIZE_BUF_ELEM
    ensures var p := Run(steps);
            var box := Mailbox(p, ins);
            Matching(req, OfferAll(p, targets, ins, box, [e])) ==
            Matching(req, box) + if Names(req, KeyOf(e)) && (targets == {} || ins in targets) then [e] else []
  {
    var p := Run(steps);
    var box := Mailbox(p, ins);
    IndexNeverMisses(steps, ins);
    MatchingStep(req, box, e);
    assert [e][..0] == [];
    assert OfferAll(p, targets, ins, box, []) == box;
    if Names(req, KeyOf(e)) {
      var i :| 0 <= i < |req| && req[i].app == e.app && req[i].env == e.env && e.key in req[i].keys;
      assert WatchedKey(e) in Asked(steps, ins);
    }
  }

  /** The elements of a dispatch that the index lists for an instance and that are
      addressed to it, in order. */
  function Offered(p: Pool, targets: set<string>, ins: string, elems: seq<Elem>): seq<Elem> {
    if elems == [] then []
    else (if Targeted(p, targets, ins, elems[0]) then [elems[0]] else []) + Offered(p, targets, ins, elems[1..])
  }

  function FirstTen(s: seq<Elem>): seq<Elem> {
    if |s| <= SIZE_BUF_ELEM then s else s[..SIZE_BUF_ELEM]
  }

  lemma {:induction false} OfferedSnoc(p: Pool, targets: set<string>, ins: string, elems: seq<Elem>, e: Elem)
    ensures Offered(p, targets, ins, elems + [e]) == Offered(p, targets, ins, elems) + if Targeted(p, targets, ins, e) then [e] else []
  {
    if elems == [] {
      assert [] + [e] == [e] && [e][1..] == [];
    } else {
      OfferedSnoc(p, targets, ins, elems[1..], e);
      assert (elems + [e])[1..] == elems[1..] + [e];
    }
  }

  /** A dispatch fills the channel in order, with every element listed for the
      instance, until ten wait in it. */
  lemma {:induction false} DispatchFills(p: Pool, targets: set<string>, ins: string, box: seq<Elem>, elems: seq<Elem>)
    requires |box| <= SIZE_BUF_ELEM
    ensures OfferAll(p, targets, ins, box, elems) == FirstTen(box + Offered(p, targets, ins, elems))
  {
    if elems == [] {
      assert box + [] == box;
    } else {
      var n := |elems| - 1;
      DispatchFills(p, targets, ins, box, elems[..n]);
      OfferedSnoc(p, targets, ins, elems[..n], elems[n]);
      assert elems[..n] + [elems[n]] == elems;
      var before := Offered(p, targets, ins, elems[..n]);
      assert box + (before + [elems[n]]) == (box + before) + [elems[n]];
    }
  }

  /** The elements of a list that a request names and a dispatch addresses to the
      instance, in order. */
  ghost function Wanted(req: seq<Watching>, targets: set<string>, ins: string, elems: seq<Elem>): seq<Elem> {
    if elems == [] then []
    else (if Names(req, KeyOf(elems[0])) && (targets == {} || ins in targets) then [elems[0]] else []) + Wanted(req, targets, ins, elems[1..])
  }

  lemma {:induction false} MatchingAppend(req: seq<Watching>, a: seq<Elem>, b: seq<Elem>)
    ensures Matching(req, a + b) == Matching(req, a) + Matching(req, b)
  {
    if b == [] {
      assert a + b == a;
    } else {
      var front, last := b[..|b| - 1], b[|b| - 1];
      MatchingAppend(req, a, front);
      assert b == front + [last] && a + b == (a + front) + [last];
      MatchingStep(req, a + front, last);
      MatchingStep(req, front, last);
      var m := if Names(req, KeyOf(last)) then [last] else [];
      assert (Matching(req, a) + Matching(req, front)) + m == Matching(req, a) + (Matching(req, front) + m);
    }
  }

  /** What the stream sends of the offered elements is what is wanted: the index
      lists at least every named element, and the filter drops the others. */
  lemma {:induction false} OfferedMatches(steps: seq<Step>, ins: string, req: seq<Watching>, elems: seq<Elem>, targets: set<string>)
    requires IsRegistered(steps, ins) && Asks(req, Asked(steps, ins))
    ensures Matching(req, Offered(Run(steps), targets, ins, elems)) == Wanted(req, targets, ins, elems)
  {
    if elems != [] {
      var p, e, rest := Run(steps), elems[0], Offered(Run(steps), targets, ins, elems[1..]);
      OfferedMatches(steps, ins, req, elems[1..], targets);
      IndexNeverMisses(steps, ins);
      if Names(req, KeyOf(e)) {
        var i :| 0 <= i < |req| && req[i].app == e.app && req[i].env == e.env && e.key in req[i].keys;
        assert WatchedKey(e) in Asked(steps, ins);
      }
      MatchingAppend(req, if Targeted(p, targets, ins, e) then [e] else [], rest);
      MatchingStep(req, [], e);
      assert [] + [e] == [e] && Matching(req, []) == [];
    }
  }

  /** A dispatch of any list, whatever happened before and although joined keys
      collide: for an instance that registered all of its request, what its stream
      sends grows, while there is room for the offered elements, by exactly the
      elements that the request names and the dispatch addresses to it, in order;
      without room by those among the first that fit. */
  lemma DispatchDelivers(steps: seq<Step>, ins: string, req: seq<Watching>, elems: seq<Elem>, targets: set<string>)
    requires IsRegistered(steps, ins) && Asks(req, Asked(steps, ins))
    ensures var p := Run(steps);
            var box := Mailbox(p, ins);
            var all := box + Offered(p, targets, ins, elems);
            var after := OfferAll(p, targets, ins, box, elems);
            && after == FirstTen(all)
            && Matching(req, all) == Matching(req, box) + Wanted(req, targets, ins, elems)
            && (|box| + |elems| <= SIZE_BUF_ELEM ==> Matching(req, after) == Matching(req, box) + Wanted(req, targets, ins, elems))
  {
    NeverSendsOnClosed(steps);
    var p := Run(steps);
    var box := Mailbox(p, ins);
    DispatchFills(p, targets, ins, box, elems);
    OfferedMatches(steps, ins, req, elems, targets);
    MatchingAppend(req, box, Offered(p, targets, ins, elems));
    OfferedBound(p, targets, ins, elems);
  }

  lemma {:induction false} OfferedBound(p: Pool, targets: set<string>, ins: string, elems: seq<Elem>)
    ensures |Offered(p, targets, ins, elems)| <= |elems|
  {
    if elems != [] {
      OfferedBound(p, targets, ins, elems[1..]);
    }
  }

  /** A targeted dispatch leaves every other instance's channel as it was. */
  lemma {:induction false} OnlyTargetsReached(p: Pool, targets: set<string>, ins: string, buf: seq<Elem>, elems: seq<Elem>)
    requires targets != {} && ins !in targets
    ensures OfferAll(p, targets, ins, buf, elems) == buf
  {
    if elems != [] {
      OnlyTargetsReached(p, targets, ins, buf, elems[..|elems| - 1]);
    }
  }
}
