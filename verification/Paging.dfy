/** Directory listings in cursor order, Range pages and chains of pages
    (bbolt_impl.go, Range). */
module Paging {
  import opened Strings
  import opened Entities
  import opened Storage

  /** One entry of a bucket as Range sees it at a given time: a leaf carries
      the TTL it has left, and whether that is none. */
  datatype Child = Child(name: string, node: Node, dead: bool)

  datatype RangeResult = RangeResult(items: seq<Child>, hasMore: bool, nextSeekKey: string, expiredKeys: seq<string>)

  ghost predicate InCursorOrder(kids: seq<Child>) {
    && (forall i :: 0 <= i < |kids| ==> kids[i].name != "")
    && (forall i, j :: 0 <= i < j < |kids| ==> Less(kids[i].name, kids[j].name))
  }

  function Live(kids: seq<Child>): seq<Child> {
    if kids == [] then []
    else if kids[0].dead then Live(kids[1..])
    else [kids[0]] + Live(kids[1..])
  }

  /** An expired entry is reported by the key its record carries. */
  function StoredKey(c: Child): string {
    if c.node.Leaf? then c.node.entity.key else c.name
  }

  function DeadKeys(kids: seq<Child>): seq<string> {
    if kids == [] then []
    else if kids[0].dead then [StoredKey(kids[0])] + DeadKeys(kids[1..])
    else DeadKeys(kids[1..])
  }

  /** Where the cursor lands: the first entry at or after `seek`. */
  function SeekIndex(kids: seq<Child>, seek: string): (i: nat)
    ensures i <= |kids|
    ensures forall j :: 0 <= j < i ==> !Leq(seek, kids[j].name)
    ensures i < |kids| ==> Leq(seek, kids[i].name)
  {
    if kids == [] || Leq(seek, kids[0].name) then 0 else 1 + SeekIndex(kids[1..], seek)
  }

  /** How many entries one page walks over: up to and including the one that
      fills it. */
  function Walked(kids: seq<Child>, limit: nat): (n: nat)
    ensures n <= |kids|
  {
    if kids == [] || limit == 0 then 0
    else 1 + Walked(kids[1..], if kids[0].dead then limit else limit - 1)
  }

  function Page(kids: seq<Child>, seek: string, limit: nat): RangeResult {
    var from := kids[SeekIndex(kids, seek)..];
    var n := Walked(from, limit);
    RangeResult(Live(from[..n]), n < |from|, if n < |from| then from[n].name else "", DeadKeys(from[..n]))
  }

  // ----- One page -----

  lemma {:induction false} LiveAppend(a: seq<Child>, b: seq<Child>)
    ensures Live(a + b) == Live(a) + Live(b)
  {
    if a == [] {
      assert a + b == b;
    } else {
      LiveAppend(a[1..], b);
      assert (a + b)[0] == a[0] && (a + b)[1..] == a[1..] + b;
      if !a[0].dead {
        assert [a[0]] + (Live(a[1..]) + Live(b)) == ([a[0]] + Live(a[1..])) + Live(b);
      }
    }
  }

  lemma {:induction false} LiveMembers(kids: seq<Child>, c: Child)
    ensures c in Live(kids) <==> c in kids && !c.dead
  {
    if kids != [] {
      assert kids == [kids[0]] + kids[1..];
      LiveMembers(kids[1..], c);
    }
  }

  lemma {:induction false} LiveIsOrdered(kids: seq<Child>)
    requires InCursorOrder(kids)
    ensures InCursorOrder(Live(kids))
    ensures forall c :: c in Live(kids) ==> c in kids
  {
    if kids != [] {
      LiveIsOrdered(kids[1..]);
      var rest := Live(kids[1..]);
      forall i | 0 <= i < |rest| ensures Less(kids[0].name, rest[i].name) {
        assert rest[i] in kids[1..];
      }
    }
  }

  lemma {:induction false} DeadAppend(a: seq<Child>, b: seq<Child>)
    ensures DeadKeys(a + b) == DeadKeys(a) + DeadKeys(b)
  {
    if a == [] {
      assert a + b == b;
    } else {
      DeadAppend(a[1..], b);
      assert (a + b)[1..] == a[1..] + b;
    }
  }

  /** One turn of the cursor loop. */
  lemma PageStep(from: seq<Child>, k: nat, room: nat)
    requires k < |from| && room >= 1
    ensures Live(from[..k + 1]) == if from[k].dead then Live(from[..k]) else Live(from[..k]) + [from[k]]
    ensures DeadKeys(from[..k + 1]) == if from[k].dead then DeadKeys(from[..k]) + [StoredKey(from[k])] else DeadKeys(from[..k])
    ensures Walked(from[k..], room) == 1 + Walked(from[k + 1..], if from[k].dead then room else room - 1)
  {
    assert from[..k + 1] == from[..k] + [from[k]];
    assert from[k..][1..] == from[k + 1..];
    LiveAppend(from[..k], [from[k]]);
    DeadAppend(from[..k], [from[k]]);
    assert Live([from[k]]) == if from[k].dead then [] else [from[k]];
    assert DeadKeys([from[k]]) == if from[k].dead then [StoredKey(from[k])] else [];
  }

  /** A page is full unless it is the last; a page with room always advances. */
  lemma {:induction false} PageIsFull(kids: seq<Child>, limit: nat)
    ensures var n := Walked(kids, limit);
            && |Live(kids[..n])| <= limit
            && (n < |kids| ==> |Live(kids[..n])| == limit)
            && (limit >= 1 && kids != [] ==> n >= 1)
  {
    if kids != [] && limit != 0 {
      var rest := if kids[0].dead then limit else limit - 1;
      PageIsFull(kids[1..], rest);
      var n := Walked(kids, limit);
      assert kids[..n] == [kids[0]] + kids[1..][..n - 1];
      LiveAppend([kids[0]], kids[1..][..n - 1]);
      assert [kids[0]][1..] == [];
    }
  }

  lemma {:induction false} SeekFindsName(kids: seq<Child>, i: nat)
    requires InCursorOrder(kids) && i < |kids|
    ensures SeekIndex(kids, kids[i].name) == i
  {
    var s := SeekIndex(kids, kids[i].name);
    if s < i {
      LessTrichotomy(kids[s].name, kids[i].name);
    }
  }

  lemma SeekFromStart(kids: seq<Child>)
    ensures SeekIndex(kids, "") == 0
  {
    if kids != [] {
      assert Leq("", kids[0].name);
    }
  }

  // ----- Chains of pages -----

  /** All pages a caller gets by feeding NextSeekKey back until HasMore is
      false; at least one step per page when limit >= 1. */
  ghost function Chain(kids: seq<Child>, seek: string, limit: nat): (pages: seq<RangeResult>)
    requires InCursorOrder(kids) && limit >= 1
    decreases |kids| - SeekIndex(kids, seek)
  {
    var p := Page(kids, seek, limit);
    if !p.hasMore then [p]
    else
      ChainAdvances(kids, seek, limit);
      [p] + Chain(kids, p.nextSeekKey, limit)
  }

  /** The next page starts right after the last entry this one walked over. */
  lemma ChainAdvances(kids: seq<Child>, seek: string, limit: nat)
    requires InCursorOrder(kids) && limit >= 1 && Page(kids, seek, limit).hasMore
    ensures var i := SeekIndex(kids, seek);
            && SeekIndex(kids, Page(kids, seek, limit).nextSeekKey) == i + Walked(kids[i..], limit)
            && Walked(kids[i..], limit) >= 1
            && Page(kids, seek, limit).nextSeekKey != ""
  {
    var i := SeekIndex(kids, seek);
    var n := Walked(kids[i..], limit);
    PageIsFull(kids[i..], limit);
    assert kids[i..][n] == kids[i + n];
    SeekFindsName(kids, i + n);
  }

  /** The live entries of a directory from a seek key on. */
  function From(kids: seq<Child>, seek: string): seq<Child> {
    Live(kids[SeekIndex(kids, seek)..])
  }

  /** One page cuts the directory in two: what it holds, live and expired, and
      what its next seek key leads to. */
  lemma PageCut(kids: seq<Child>, seek: string, limit: nat)
    requires InCursorOrder(kids) && limit >= 1
    ensures var p, from := Page(kids, seek, limit), kids[SeekIndex(kids, seek)..];
            var rest := if p.hasMore then kids[SeekIndex(kids, p.nextSeekKey)..] else [];
            && Live(from) == p.items + Live(rest) && DeadKeys(from) == p.expiredKeys + DeadKeys(rest)
            && |p.items| <= limit && (p.hasMore ==> |p.items| == limit)
  {
    var from := kids[SeekIndex(kids, seek)..];
    PageIsFull(from, limit);
    PageSplits(from, Walked(from, limit));
    RestAfterPage(kids, seek, limit);
  }

  /** What the next seek key leads to is what the page has not walked over. */
  lemma RestAfterPage(kids: seq<Child>, seek: string, limit: nat)
    requires InCursorOrder(kids) && limit >= 1
    ensures var p, from := Page(kids, seek, limit), kids[SeekIndex(kids, seek)..];
            from[Walked(from, limit)..] == if p.hasMore then kids[SeekIndex(kids, p.nextSeekKey)..] else []
  {
    var i := SeekIndex(kids, seek);
    var from := kids[i..];
    var n := Walked(from, limit);
    assert from[n..] == kids[i + n..];
    if n < |from| {
      ChainAdvances(kids, seek, limit);
    }
  }

  /** The live entries from a seek key on: those of its page, then those from
      the page's next seek key on. */
  lemma PageThenRest(kids: seq<Child>, seek: string, limit: nat, page: RangeResult)
    requires InCursorOrder(kids) && limit >= 1 && page == Page(kids, seek, limit)
    ensures From(kids, seek) == page.items + if page.hasMore then From(kids, page.nextSeekKey) else []
  {
    PageCut(kids, seek, limit);
  }

  /** Moving one page from what is left to what is done. */
  lemma Advance<T>(done: seq<T>, left: seq<T>, page: seq<T>, later: seq<T>, all: seq<T>)
    requires done + left == all && left == page + later
    ensures (done + page) + later == all
    ensures later == [] ==> done + page == all
  {
  }

  /** One Range call of a caller that pages through a directory: what it gets,
      what is left for the next call, and that the next call is further on. */
  method FetchPage(kids: seq<Child>, seek: string, limit: nat) returns (page: RangeResult)
    requires InCursorOrder(kids) && limit >= 1
    ensures From(kids, seek) == page.items + if page.hasMore then From(kids, page.nextSeekKey) else []
    ensures page.hasMore ==> page.nextSeekKey != "" && page.items != []
    ensures page.hasMore ==> SeekIndex(kids, seek) < SeekIndex(kids, page.nextSeekKey)
  {
    page := Page(kids, seek, limit);
    PageThenRest(kids, seek, limit, page);
    if page.hasMore {
      ChainAdvances(kids, seek, limit);
      PageIsFull(kids[SeekIndex(kids, seek)..], limit);
    }
  }

  ghost function AllItems(pages: seq<RangeResult>): seq<Child> {
    if pages == [] then [] else pages[0].items + AllItems(pages[1..])
  }

  ghost function AllExpired(pages: seq<RangeResult>): seq<string> {
    if pages == [] then [] else pages[0].expiredKeys + AllExpired(pages[1..])
  }

  /** A chain of pages enumerates every live entry from the seek key on exactly
      once and in order, every expired one in ExpiredKeys, and all pages but
      the last are full. */
  lemma {:induction false} ChainEnumerates(kids: seq<Child>, seek: string, limit: nat)
    requires InCursorOrder(kids) && limit >= 1
    ensures var pages := Chain(kids, seek, limit);
            var from := kids[SeekIndex(kids, seek)..];
            && AllItems(pages) == Live(from)
            && AllExpired(pages) == DeadKeys(from)
            && AllButLastFull(pages, limit)
    decreases |kids| - SeekIndex(kids, seek)
  {
    var p := Page(kids, seek, limit);
    PageCut(kids, seek, limit);
    if p.hasMore {
      ChainAdvances(kids, seek, limit);
      ChainEnumerates(kids, p.nextSeekKey, limit);
      PagesCons(p, Chain(kids, p.nextSeekKey, limit));
    } else {
      PagesCons(p, []);
    }
  }

  lemma PagesCons(p: RangeResult, later: seq<RangeResult>)
    ensures AllItems([p] + later) == p.items + AllItems(later)
    ensures AllExpired([p] + later) == p.expiredKeys + AllExpired(later)
    ensures ([p] + later)[1..] == later
  {
  }

  ghost predicate AllButLastFull(pages: seq<RangeResult>, limit: nat) {
    && |pages| >= 1
    && |pages[0].items| <= limit
    && pages[0].hasMore == (|pages| > 1)
    && (|pages| > 1 ==> |pages[0].items| == limit && AllButLastFull(pages[1..], limit))
  }

  lemma PageSplits(from: seq<Child>, n: nat)
    requires n <= |from|
    ensures Live(from) == Live(from[..n]) + Live(from[n..])
    ensures DeadKeys(from) == DeadKeys(from[..n]) + DeadKeys(from[n..])
  {
    assert from == from[..n] + from[n..];
    LiveAppend(from[..n], from[n..]);
    DeadAppend(from[..n], from[n..]);
  }

  // ----- The listing of a bucket -----

  predicate IsMinimum(s: set<string>, m: string) {
    m in s && forall x :: x in s ==> Leq(m, x)
  }

  lemma {:induction false} MinimumExists(s: set<string>) returns (m: string)
    requires s != {}
    ensures IsMinimum(s, m)
  {
    var a :| a in s;
    if s == {a} {
      m := a;
    } else {
      var b := MinimumExists(s - {a});
      LessTrichotomy(a, b);
      m := if Less(a, b) then a else b;
      forall x | x in s ensures Leq(m, x) {
        if x != a {
          assert Leq(b, x);
          LeqTransitive(m, b, x);
        }
      }
    }
  }

  lemma MinimumUnique(a: string, b: string)
    requires Leq(a, b) && Leq(b, a)
    ensures a == b
  {
    LessTrichotomy(a, b);
  }

  lemma MinimumIsUnique(s: set<string>)
    requires s != {}
    ensures exists m :: IsMinimum(s, m)
    ensures forall a, b :: IsMinimum(s, a) && IsMinimum(s, b) ==> a == b
  {
    var m := MinimumExists(s);
    forall a, b | IsMinimum(s, a) && IsMinimum(s, b) ensures a == b {
      MinimumUnique(a, b);
    }
  }

  /** The names of a finite set in byte order. */
  function InOrder(s: set<string>): (r: seq<string>)
    ensures Ascending(r)
    ensures forall x :: x in r <==> x in s
  {
    if s == {} then []
    else
      MinimumIsUnique(s);
      var m :| m in s && IsMinimum(s, m);
      var rest := InOrder(s - {m});
      assert forall i :: 0 <= i < |rest| ==> rest[i] in s - {m};
      [m] + rest
  }

  function ChildNames(t: Tree, dir: Path): set<string> {
    set p | p in t && |p| == |dir| + 1 && dir <= p :: p[|dir|]
  }

  lemma ChildNamesMeaning(t: Tree, dir: Path, name: string)
    ensures name in ChildNames(t, dir) <==> dir + [name] in t
  {
    if dir + [name] in t {
      var p := dir + [name];
      assert p[|dir|] == name && dir <= p;
    }
    if name in ChildNames(t, dir) {
      var p :| p in t && |p| == |dir| + 1 && dir <= p && p[|dir|] == name;
      assert p == dir + [name];
    }
  }

  /** The entry `name` of `dir` as Range sees it at `now`. */
  function ChildAt(t: Tree, dir: Path, name: string, now: int): Child
    requires dir + [name] in t
  {
    match t[dir + [name]]
    case Dir => Child(name, Dir, false)
    case Leaf(e) => Child(name, Leaf(Tick(e, now)), EntityExpired(e, now))
  }

  function Listing(t: Tree, dir: Path, now: int): seq<Child> {
    var names := InOrder(ChildNames(t, dir));
    seq(|names|, i requires 0 <= i < |names| =>
      ChildNamesMeaning(t, dir, names[i]);
      ChildAt(t, dir, names[i], now))
  }

  /** The cursor meets exactly the direct children of the bucket, in byte order. */
  lemma ListingMeaning(t: Tree, dir: Path, now: int)
    requires WellFormed(t)
    ensures InCursorOrder(Listing(t, dir, now))
    ensures forall c :: c in Listing(t, dir, now) <==> dir + [c.name] in t && c == ChildAt(t, dir, c.name, now)
  {
    var names := InOrder(ChildNames(t, dir));
    var kids := Listing(t, dir, now);
    forall i | 0 <= i < |kids| ensures kids[i].name == names[i] != "" {
      ChildNamesMeaning(t, dir, names[i]);
      var p := dir + [names[i]];
      assert p[|dir|] != "";
    }
    forall c | c in kids ensures dir + [c.name] in t && c == ChildAt(t, dir, c.name, now) {
      var i :| 0 <= i < |kids| && kids[i] == c;
      ChildNamesMeaning(t, dir, names[i]);
    }
    forall c: Child | dir + [c.name] in t && c == ChildAt(t, dir, c.name, now) ensures c in kids {
      ChildNamesMeaning(t, dir, c.name);
      var i :| 0 <= i < |names| && names[i] == c.name;
      assert kids[i] == c;
    }
  }

  /** The bucket Range reads. An INVALID_ARGUMENT from locateBucket makes it
      look up the whole key as a top-level bucket. */
  function RangeDir(t: Tree, key: string): Option<Path> {
    var lost := if KeyFault(key).Some? then KeyFault(key) else FindDirs(t, KeySplitter(key).nodes, 0);
    if lost.Some? && IsNotFound(lost.value) then None
    else
      var p := if lost.Some? then [key] else FullPath(key);
      if p in t && t[p] == Dir then Some(p) else None
  }

  /** raftNodeImpl.Range: a directory that is not there reads as empty. */
  function RangeTree(t: Tree, key: string, seek: string, limit: nat, now: int): RangeResult {
    var dir := RangeDir(t, key);
    if dir.None? then RangeResult([], false, "", [])
    else Page(Listing(t, dir.value, now), seek, limit)
  }
}
