/** What the retention scan goes through, as a flat list: exactly the elements
    at or after the cursor, in lexicographic order; and what a run of it leaves
    for the next one. */
module ScanOrder {
  import opened Strings
  import opened Storage
  import opened Paging
  import opened RetentionGC
  import opened Entities
  import opened Commands
  import opened Convergence
  import opened KeySchema

  predicate RefLess(a: Ref, b: Ref) {
    Less(a.app, b.app) || (a.app == b.app && (Less(a.env, b.env) || (a.env == b.env && Less(a.key, b.key))))
  }

  predicate AtOrAfter(r: Ref, c: Cursor) {
    Less(c.app, r.app) || (r.app == c.app && (Less(c.env, r.env) || (r.env == c.env && Leq(c.element, r.key))))
  }

  /** The directory has a live entry of this name. */
  ghost predicate HasLive(s: Source, root: DirKey, name: string) {
    exists c :: c in s.dirs(root) && !c.dead && c.name == name
  }

  /** The element is stored: its app, its environment and itself are listed. */
  ghost predicate Stored(s: Source, r: Ref) {
    HasLive(s, Apps, r.app) && HasLive(s, Envs(r.app), r.env) && HasLive(s, Elements(r.app, r.env), r.key)
  }

  ghost predicate AscendingRefs(refs: seq<Ref>) {
    forall i, j :: 0 <= i < j < |refs| ==> RefLess(refs[i], refs[j])
  }

  // ----- Order -----

  lemma RefLessAsymmetric(a: Ref, b: Ref)
    ensures !(RefLess(a, b) && RefLess(b, a)) && !RefLess(a, a)
  {
    LessTrichotomy(a.app, b.app);
    LessTrichotomy(a.env, b.env);
    LessTrichotomy(a.key, b.key);
    LessTrichotomy(a.app, a.app);
    LessTrichotomy(a.env, a.env);
    LessTrichotomy(a.key, a.key);
  }

  lemma {:induction false} HeadIsLeast(a: seq<Ref>, b: seq<Ref>)
    requires AscendingRefs(a) && AscendingRefs(b) && (forall r :: r in a <==> r in b) && a != [] && b != []
    ensures a[0] == b[0]
  {
    if a[0] != b[0] {
      assert a[0] in b && b[0] in a;
      var i :| 0 <= i < |b| && b[i] == a[0];
      var j :| 0 <= j < |a| && a[j] == b[0];
      assert RefLess(b[0], b[i]) && RefLess(a[0], a[j]);
      RefLessAsymmetric(a[0], b[0]);
    }
  }

  lemma TailMembers(a: seq<Ref>, r: Ref)
    requires AscendingRefs(a) && a != []
    ensures r in a[1..] <==> r in a && r != a[0]
  {
    if r in a[1..] {
      var i :| 0 <= i < |a[1..]| && a[1..][i] == r;
      assert a[i + 1] == r;
      RefLessAsymmetric(a[0], r);
    }
  }

  /** An ascending list is determined by its members. */
  lemma {:induction false} AscendingUnique(a: seq<Ref>, b: seq<Ref>)
    requires AscendingRefs(a) && AscendingRefs(b) && forall r :: r in a <==> r in b
    ensures a == b
  {
    assert a != [] ==> a[0] in b;
    assert b != [] ==> b[0] in a;
    if a != [] && b != [] {
      HeadIsLeast(a, b);
      forall r ensures r in a[1..] <==> r in b[1..] {
        TailMembers(a, r);
        TailMembers(b, r);
      }
      AscendingUnique(a[1..], b[1..]);
      assert a == [a[0]] + a[1..] && b == [b[0]] + b[1..];
    }
  }

  // ----- Members of the scan list -----

  lemma SeekMembers(kids: seq<Child>, seek: string, c: Child)
    requires InCursorOrder(kids)
    ensures c in kids[SeekIndex(kids, seek)..] <==> c in kids && Leq(seek, c.name)
  {
    var n := SeekIndex(kids, seek);
    if c in kids && Leq(seek, c.name) {
      var i :| 0 <= i < |kids| && kids[i] == c;
      assert i >= n;
      assert kids[n..][i - n] == c;
    }
    if c in kids[n..] {
      var i :| 0 <= i < |kids[n..]| && kids[n..][i] == c;
      assert kids[n + i] == c;
      if i > 0 {
        LeqTransitive(seek, kids[n].name, c.name);
      }
    }
  }

  lemma FromMembers(s: Source, root: DirKey, seek: string, c: Child)
    requires Ordered(s)
    ensures c in Rest(s, root, seek) <==> c in s.dirs(root) && !c.dead && Leq(seek, c.name)
  {
    var kids := s.dirs(root);
    SeekMembers(kids, seek, c);
    LiveMembers(kids[SeekIndex(kids, seek)..], c);
  }

  lemma {:induction false} ConcatMembers(items: seq<Child>, f: Child -> seq<Ref>, r: Ref)
    ensures r in Concat(items, f) <==> exists c :: c in items && r in f(c)
  {
    if items != [] {
      ConcatMembers(items[1..], f, r);
      assert forall c :: c in items <==> c == items[0] || c in items[1..];
    }
  }

  lemma EnvMembers(s: Source, app: string, env: string, seek: string, r: Ref)
    requires Ordered(s)
    ensures r in RefsOfEnv(s, app, env, seek)
            <==> r.app == app && r.env == env && HasLive(s, Elements(app, env), r.key) && Leq(seek, r.key)
  {
    var items := Rest(s, Elements(app, env), seek);
    ConcatMembers(items, Element(app, env), r);
    if r in RefsOfEnv(s, app, env, seek) {
      var c :| c in items && r in Element(app, env)(c);
      FromMembers(s, Elements(app, env), seek, c);
    }
    if r.app == app && r.env == env && HasLive(s, Elements(app, env), r.key) && Leq(seek, r.key) {
      var c :| c in s.dirs(Elements(app, env)) && !c.dead && c.name == r.key;
      FromMembers(s, Elements(app, env), seek, c);
      assert r in Element(app, env)(c);
    }
  }

  ghost predicate InApp(s: Source, app: string, cur: Cursor, r: Ref) {
    && r.app == app
    && HasLive(s, Envs(app), r.env) && Leq(cur.env, r.env)
    && HasLive(s, Elements(app, r.env), r.key) && Leq(ElementSeek(cur, app, r.env), r.key)
  }

  lemma AppMembers(s: Source, app: string, cur: Cursor, r: Ref)
    requires Ordered(s)
    ensures r in RefsOfApp(s, app, cur) <==> InApp(s, app, cur, r)
  {
    var items, f := Rest(s, Envs(app), cur.env), Environment(s, app, cur);
    ConcatMembers(items, f, r);
    if r in RefsOfApp(s, app, cur) {
      var c :| c in items && r in f(c);
      FromMembers(s, Envs(app), cur.env, c);
      EnvMembers(s, app, c.name, ElementSeek(cur, app, c.name), r);
    }
    EnvMembers(s, app, r.env, ElementSeek(cur, app, r.env), r);
    if InApp(s, app, cur, r) {
      var c :| c in s.dirs(Envs(app)) && !c.dead && c.name == r.env;
      FromMembers(s, Envs(app), cur.env, c);
      assert r in f(c);
    }
  }

  /** The seek keys of the three levels together are the cursor comparison. */
  lemma SeeksMeanAtOrAfter(c: Cursor, r: Ref)
    ensures var cur := EnvCursor(c, r.app);
            AtOrAfter(r, c) <==> Leq(c.app, r.app) && Leq(cur.env, r.env) && Leq(ElementSeek(cur, r.app, r.env), r.key)
  {
    assert Leq("", r.env) && Leq("", r.key);
    LessTrichotomy(c.app, r.app);
    LessTrichotomy(c.env, r.env);
  }

  lemma AppsMembers(s: Source, c: Cursor, r: Ref)
    requires Ordered(s)
    ensures r in ScanList(s, c) <==> HasLive(s, Apps, r.app) && Leq(c.app, r.app) && InApp(s, r.app, EnvCursor(c, r.app), r)
  {
    var items, f := Rest(s, Apps, c.app), Application(s, c);
    ConcatMembers(items, f, r);
    if r in ScanList(s, c) {
      var a :| a in items && r in f(a);
      FromMembers(s, Apps, c.app, a);
      ApplicationAt(s, c, a);
      AppMembers(s, a.name, EnvCursor(c, a.name), r);
    }
    if HasLive(s, Apps, r.app) && Leq(c.app, r.app) && InApp(s, r.app, EnvCursor(c, r.app), r) {
      var a :| a in s.dirs(Apps) && !a.dead && a.name == r.app;
      FromMembers(s, Apps, c.app, a);
      ApplicationAt(s, c, a);
      AppMembers(s, r.app, EnvCursor(c, r.app), r);
    }
  }

  /** The scan from any cursor goes through exactly the stored elements at or
      after it, even if the cursor's app or environment is gone. */
  lemma ScanMembers(s: Source, c: Cursor, r: Ref)
    requires Ordered(s)
    ensures r in ScanList(s, c) <==> Stored(s, r) && AtOrAfter(r, c)
  {
    AppsMembers(s, c, r);
    SeeksMeanAtOrAfter(c, r);
  }

  // ----- Order of the scan list -----

  /** Lists that ascend one by one and from each to the next ascend together. */
  lemma {:induction false} ConcatAscending(items: seq<Child>, f: Child -> seq<Ref>)
    requires forall i :: 0 <= i < |items| ==> AscendingRefs(f(items[i]))
    requires forall i, j, x, y :: 0 <= i < j < |items| && x in f(items[i]) && y in f(items[j]) ==> RefLess(x, y)
    ensures AscendingRefs(Concat(items, f))
  {
    if items != [] {
      var tail := items[1..];
      forall i, j, x, y | 0 <= i < j < |tail| && x in f(tail[i]) && y in f(tail[j]) ensures RefLess(x, y) {
        assert tail[i] == items[i + 1] && tail[j] == items[j + 1];
      }
      ConcatAscending(tail, f);
      var head, rest := f(items[0]), Concat(tail, f);
      forall i, j | 0 <= i < |head| && 0 <= j < |rest| ensures RefLess(head[i], rest[j]) {
        ConcatMembers(tail, f, rest[j]);
        assert rest[j] in rest;
        var c :| c in tail && rest[j] in f(c);
        var k :| 0 <= k < |tail| && tail[k] == c;
        assert items[k + 1] == c && head[i] in f(items[0]);
      }
      var all := head + rest;
      forall i, j | 0 <= i < j < |all| ensures RefLess(all[i], all[j]) {
        if j < |head| {
        } else if i < |head| {
          assert all[j] == rest[j - |head|];
        } else {
          assert all[i] == rest[i - |head|] && all[j] == rest[j - |head|];
        }
      }
    }
  }

  lemma EnvAscending(s: Source, app: string, env: string, seek: string)
    requires Ordered(s)
    ensures AscendingRefs(RefsOfEnv(s, app, env, seek))
  {
    FromIsAscending(s, Elements(app, env), seek);
    ConcatAscending(Rest(s, Elements(app, env), seek), Element(app, env));
  }

  lemma AppAscending(s: Source, app: string, cur: Cursor)
    requires Ordered(s)
    ensures AscendingRefs(RefsOfApp(s, app, cur))
  {
    var items, f := Rest(s, Envs(app), cur.env), Environment(s, app, cur);
    FromIsAscending(s, Envs(app), cur.env);
    forall i | 0 <= i < |items| ensures AscendingRefs(f(items[i])) {
      EnvAscending(s, app, items[i].name, ElementSeek(cur, app, items[i].name));
    }
    forall i, j, x, y | 0 <= i < j < |items| && x in f(items[i]) && y in f(items[j]) ensures RefLess(x, y) {
      EnvMembers(s, app, items[i].name, ElementSeek(cur, app, items[i].name), x);
      EnvMembers(s, app, items[j].name, ElementSeek(cur, app, items[j].name), y);
    }
    ConcatAscending(items, f);
  }

  lemma ScanAscending(s: Source, c: Cursor)
    requires Ordered(s)
    ensures AscendingRefs(ScanList(s, c))
  {
    var items, f := Rest(s, Apps, c.app), Application(s, c);
    FromIsAscending(s, Apps, c.app);
    forall i | 0 <= i < |items| ensures AscendingRefs(f(items[i])) {
      AppAscending(s, items[i].name, EnvCursor(c, items[i].name));
    }
    forall i, j, x, y | 0 <= i < j < |items| && x in f(items[i]) && y in f(items[j]) ensures RefLess(x, y) {
      AppMembers(s, items[i].name, EnvCursor(c, items[i].name), x);
      AppMembers(s, items[j].name, EnvCursor(c, items[j].name), y);
    }
    ConcatAscending(items, f);
  }

  // ----- Resuming -----

  /** The cursor persisted after visiting `r`. */
  function After(r: Ref): Cursor {
    Cursor(r.app, r.env, r.key + [NUL])
  }

  lemma AfterIsNext(r: Ref, x: Ref)
    ensures AtOrAfter(x, After(r)) <==> RefLess(r, x)
  {
    SuccessorIsNext(r.key, x.key);
  }

  lemma AtOrAfterUpward(r: Ref, x: Ref, c: Cursor)
    requires AtOrAfter(r, c) && RefLess(r, x)
    ensures AtOrAfter(x, c)
  {
    if Less(c.app, r.app) && Less(r.app, x.app) {
      LessTransitive(c.app, r.app, x.app);
    } else if c.app == r.app == x.app {
      if Less(c.env, r.env) && Less(r.env, x.env) {
        LessTransitive(c.env, r.env, x.env);
      } else if c.env == r.env == x.env {
        LeqTransitive(c.element, r.key, x.key);
      }
    }
  }

  /** In an ascending list the members after position k - 1 are the greater ones. */
  lemma RestMembers(all: seq<Ref>, k: nat, x: Ref)
    requires AscendingRefs(all) && 1 <= k <= |all|
    ensures x in all[k..] <==> x in all && RefLess(all[k - 1], x)
  {
    if x in all[k..] {
      var i :| 0 <= i < |all[k..]| && all[k..][i] == x;
      assert all[k + i] == x;
    }
    if x in all && RefLess(all[k - 1], x) {
      var i :| 0 <= i < |all| && all[i] == x;
      RefLessAsymmetric(all[k - 1], x);
      assert i >= k;
      assert all[k..][i - k] == x;
    }
  }

  lemma ResumedMembers(s: Source, c: Cursor, r: Ref, x: Ref)
    requires Ordered(s) && r in ScanList(s, c)
    ensures x in ScanList(s, After(r)) <==> x in ScanList(s, c) && RefLess(r, x)
  {
    ScanMembers(s, After(r), x);
    ScanMembers(s, c, x);
    ScanMembers(s, c, r);
    AfterIsNext(r, x);
    if RefLess(r, x) {
      AtOrAfterUpward(r, x, c);
    }
  }

  /** A scan resumed after the k-th element goes through exactly the rest. */
  lemma ScanResumes(s: Source, c: Cursor, k: nat)
    requires Ordered(s) && 1 <= k <= |ScanList(s, c)|
    ensures ScanList(s, After(ScanList(s, c)[k - 1])) == ScanList(s, c)[k..]
  {
    var all := ScanList(s, c);
    ResumeIn(s, c, all, k, all[k - 1], ScanList(s, After(all[k - 1])));
  }

  lemma ResumeIn(s: Source, c: Cursor, all: seq<Ref>, k: nat, r: Ref, resumed: seq<Ref>)
    requires Ordered(s) && all == ScanList(s, c) && 1 <= k <= |all| && r == all[k - 1] && resumed == ScanList(s, After(r))
    ensures resumed == all[k..]
  {
    ScanAscending(s, c);
    ScanAscending(s, After(r));
    forall x ensures x in resumed <==> x in all[k..] {
      ResumedMembers(s, c, r, x);
      RestMembers(all, k, x);
    }
    AscendingUnique(resumed, all[k..]);
  }

  // ----- Runs of the collector -----

  datatype Verdict = Cleaned | Partial | Failed

  datatype Summary = Summary(scanned: nat, cleaned: nat, partial: nat, failed: nat)

  /** One run from cursor c over what is stored from there on, when every read
      succeeds: what it visits and the cursor it persists. */
  function RunSpec(all: seq<Ref>, c: Cursor, max: nat): (seq<Ref>, Cursor) {
    if |all| <= max then (all, START)
    else (all[..max], if max == 0 then c else After(all[max - 1]))
  }

  function Count(visited: seq<Ref>, verdict: Ref -> Verdict, v: Verdict): nat {
    if visited == [] then 0
    else (if verdict(visited[|visited| - 1]) == v then 1 else 0) + Count(visited[..|visited| - 1], verdict, v)
  }

  class Collector {
    /** The cursor record; what cannot be decoded or is not valid reads as START. */
    var cursor: Cursor

    constructor ()
      ensures cursor == START
    {
      cursor := START;
    }

    /** Whether anything is left at or after a cursor, and whether that is known. */
    static method HasElementAtOrAfterCursor(s: Source, c: Cursor) returns (found: bool, known: bool)
      requires Ordered(s)
      ensures known && found ==> ScanList(s, c) != []
      ensures known && !found ==> ScanList(s, c) == []
      ensures NoErrors(s) ==> known
    {
      var probe := new Scanner(1);
      var reachedEnd := probe.ScanElements(s, c);
      if |probe.visited| != 0 {
        return true, true;
      }
      return false, reachedEnd;
    }

    /** One run: visits a stretch of what is stored from the cursor on, at most
        `max` elements, compacts each, and persists where to go on. A failed
        read cuts the run short but never loses or repeats an element. */
    method RunOnce(s: Source, max: nat, verdict: Ref -> Verdict, persisted: bool) returns (summary: Summary, visited: seq<Ref>)
      requires Ordered(s)
      modifies this
      ensures max == 0 ==> visited == [] && cursor == old(cursor)
      ensures |visited| <= max && visited <= ScanList(s, LoadCursor(old(cursor)))
      ensures summary == Summary(|visited|, Count(visited, verdict, Cleaned), Count(visited, verdict, Partial), Count(visited, verdict, Failed))
      ensures max > 0 && persisted ==>
                || (cursor == START && visited == ScanList(s, LoadCursor(old(cursor))))
                || ScanList(s, cursor) == ScanList(s, LoadCursor(old(cursor)))[|visited|..]
      ensures max > 0 && persisted && NoErrors(s) ==> (visited, cursor) == RunSpec(ScanList(s, LoadCursor(old(cursor))), LoadCursor(old(cursor)), max)
      ensures !persisted ==> cursor == old(cursor)
    {
      visited := [];
      summary := Summary(0, 0, 0, 0);
      if max == 0 {
        return;
      }
      var start := LoadCursor(cursor);
      ghost var all := ScanList(s, start);
      var scanner := new Scanner(max);
      var reachedEnd := scanner.ScanElements(s, start);
      visited := scanner.visited;
      assert [] + all == all;
      summary := Tally(visited, verdict);
      var next := if visited == [] then start else After(visited[|visited| - 1]);
      if visited != [] {
        ScanResumes(s, start, |visited|);
      } else {
        assert all[0..] == all;
      }
      if !reachedEnd && |visited| == max {
        var found, known := HasElementAtOrAfterCursor(s, next);
        reachedEnd := known && !found;
      }
      if reachedEnd {
        next := START;
      }
      if persisted {
        cursor := next;
      }
    }
  }

  /** loadCursor: a cursor that is not valid starts over. */
  function LoadCursor(c: Cursor): Cursor {
    if ValidCursor(c) then c else START
  }

  /** A record that is no position starts the cycle over: an environment without
      its app, an element without its environment, or a full position with a
      slash in one of its parts. */
  lemma UnusableStartsOver(c: Cursor)
    ensures LoadCursor(c) == c || LoadCursor(c) == START
    ensures c.element != "" && (c.env == "" || c.app == "") ==> LoadCursor(c) == START
    ensures c.env != "" && (c.app == "" || '/' in c.app + c.env + c.element) ==> LoadCursor(c) == START
  {
  }

  /** The counters the visit callback keeps. */
  method Tally(visited: seq<Ref>, verdict: Ref -> Verdict) returns (m: Summary)
    ensures m == Summary(|visited|, Count(visited, verdict, Cleaned), Count(visited, verdict, Partial), Count(visited, verdict, Failed))
  {
    m := Summary(0, 0, 0, 0);
    var i := 0;
    while i < |visited|
      invariant 0 <= i <= |visited|
      invariant m == Summary(i, Count(visited[..i], verdict, Cleaned), Count(visited[..i], verdict, Partial), Count(visited[..i], verdict, Failed))
    {
      assert visited[..i + 1][..i] == visited[..i];
      match verdict(visited[i]) {
        case Cleaned => m := m.(scanned := m.scanned + 1, cleaned := m.cleaned + 1);
        case Partial => m := m.(scanned := m.scanned + 1, partial := m.partial + 1);
        case Failed => m := m.(scanned := m.scanned + 1, failed := m.failed + 1);
      }
      i := i + 1;
    }
    assert visited[..i] == visited;
  }

  /** Every scanned element is counted once. */
  lemma {:induction false} CountsAddUp(visited: seq<Ref>, verdict: Ref -> Verdict)
    ensures |visited| == Count(visited, verdict, Cleaned) + Count(visited, verdict, Partial) + Count(visited, verdict, Failed)
  {
    if visited != [] {
      CountsAddUp(visited[..|visited| - 1], verdict);
    }
  }

  /** A cursor the collector persists reads back as it is. */
  lemma PersistedCursorIsValid(s: Source, c: Cursor, r: Ref)
    requires Ordered(s) && r in ScanList(s, c)
    ensures ValidCursor(After(r)) && LoadCursor(After(r)) == After(r)
  {
    ScanMembers(s, c, r);
    var a :| a in s.dirs(Apps) && !a.dead && a.name == r.app;
    var e :| e in s.dirs(Envs(r.app)) && !e.dead && e.name == r.env;
    var k :| k in s.dirs(Elements(r.app, r.env)) && !k.dead && k.name == r.key;
    NonEmptyName(s, Apps, a);
    NonEmptyName(s, Envs(r.app), e);
  }

  lemma NonEmptyName(s: Source, root: DirKey, c: Child)
    requires Ordered(s) && c in s.dirs(root)
    ensures c.name != "" && Free(c.name, '/')
  {
    var kids := s.dirs(root);
    assert InCursorOrder(kids);
    var i :| 0 <= i < |kids| && kids[i] == c;
  }

  /** A run that fills its budget leaves exactly the rest to the next. */
  lemma RunLeavesRest(s: Source, c: Cursor, max: nat, all: seq<Ref>)
    requires Ordered(s) && 1 <= max < |all| && all == ScanList(s, c)
    ensures ScanList(s, RunSpec(all, c, max).1) == all[max..]
  {
    ScanResumes(s, c, max);
  }

  /** What successive runs visit from a cursor until it is reset, where `all` is
      what is stored from there on. */
  ghost function Cycle(s: Source, c: Cursor, max: nat, all: seq<Ref>): seq<seq<Ref>>
    requires Ordered(s) && max >= 1 && all == ScanList(s, c)
    decreases |all|
  {
    if |all| <= max then [RunSpec(all, c, max).0]
    else
      RunLeavesRest(s, c, max, all);
      [RunSpec(all, c, max).0] + Cycle(s, RunSpec(all, c, max).1, max, all[max..])
  }

  ghost function Flatten(runs: seq<seq<Ref>>): seq<Ref> {
    if runs == [] then [] else runs[0] + Flatten(runs[1..])
  }

  lemma FlattenCons(head: seq<Ref>, runs: seq<seq<Ref>>)
    ensures Flatten([head] + runs) == head + Flatten(runs)
  {
    assert ([head] + runs)[1..] == runs;
  }

  /** Over an unchanged store and without read errors, the runs of one cycle
      together visit exactly the flat list from the cursor on, once each and in
      order, at most `max` per run. */
  lemma {:induction false} CycleVisitsAll(s: Source, c: Cursor, max: nat, all: seq<Ref>)
    requires Ordered(s) && max >= 1 && all == ScanList(s, c)
    ensures Flatten(Cycle(s, c, max, all)) == all
    ensures forall i :: 0 <= i < |Cycle(s, c, max, all)| ==> |Cycle(s, c, max, all)[i]| <= max
    decreases |all|
  {
    var (visited, next) := RunSpec(all, c, max);
    if |all| <= max {
      FlattenCons(all, []);
      assert [all] + [] == [all];
    } else {
      RunLeavesRest(s, c, max, all);
      CycleVisitsAll(s, next, max, all[max..]);
      var rest := Cycle(s, next, max, all[max..]);
      FlattenCons(visited, rest);
      assert all == all[..max] + all[max..];
      assert Cycle(s, c, max, all) == [visited] + rest;
    }
  }

  /** A cycle from the start visits every stored element. */
  lemma CycleIsComplete(s: Source, max: nat, r: Ref)
    requires Ordered(s) && max >= 1
    ensures r in Flatten(Cycle(s, START, max, ScanList(s, START))) <==> Stored(s, r)
  {
    CycleVisitsAll(s, START, max, ScanList(s, START));
    ScanMembers(s, START, r);
    if Stored(s, r) {
      var a :| a in s.dirs(Apps) && !a.dead && a.name == r.app;
      NonEmptyName(s, Apps, a);
    }
  }

  // ----- The source of a store -----

  /** What a run finds in a store at `now`. */
  function TreeSource(t: Tree, now: int, readable: (DirKey, string) -> bool, pageSize: nat): Source {
    Source((key: DirKey) => Listing(t, FullPath(key.Print()), now), readable, pageSize)
  }

  ghost predicate SlashFree(t: Tree) {
    forall p, i :: p in t && 0 <= i < |p| ==> Free(p[i], '/')
  }

  /** Paths come from splitting keys at '/', so no segment ever holds one. */
  lemma ApplyKeepsSlashFree(t: Tree, c: Command)
    requires WellFormed(t) && SlashFree(t)
    ensures WellFormed(Apply(t, c)) && SlashFree(Apply(t, c))
  {
    if Mutate(t, c).Applied? {
      MutateIsPointwise(t, c);
      var t' := Apply(t, c);
      forall p, i | p in t' && 0 <= i < |p| ensures Free(p[i], '/') {
        assert At(t', p) == EffectOn(c, p).On(At(t, p));
        if p !in t {
          assert p[i] == FullPath(c.key)[i];
        }
      }
    }
  }

  lemma {:induction false} ReplayIsSlashFree(t: Tree, log: seq<Command>)
    requires WellFormed(t) && SlashFree(t)
    ensures WellFormed(Replay(t, log)) && SlashFree(Replay(t, log))
    decreases |log|
  {
    if log != [] {
      ApplyKeepsSlashFree(t, log[0]);
      ReplayIsSlashFree(Apply(t, log[0]), log[1..]);
    }
  }

  /** Every store a log leads to gives the scan what it relies on: each directory
      in cursor order, with names that a cursor can hold. */
  lemma EveryStoreIsOrdered(log: seq<Command>, now: int, readable: (DirKey, string) -> bool, pageSize: nat)
    requires pageSize >= 1
    ensures Ordered(TreeSource(Replay(map[], log), now, readable, pageSize))
  {
    EmptyIsWellFormed();
    ReplayIsSlashFree(map[], log);
    SourceIsOrdered(Replay(map[], log), now, readable, pageSize);
  }

  lemma SourceIsOrdered(t: Tree, now: int, readable: (DirKey, string) -> bool, pageSize: nat)
    requires WellFormed(t) && SlashFree(t) && pageSize >= 1
    ensures Ordered(TreeSource(t, now, readable, pageSize))
  {
    var s := TreeSource(t, now, readable, pageSize);
    forall key ensures InCursorOrder(s.dirs(key)) && forall c :: c in s.dirs(key) ==> Free(c.name, '/') {
      var dir := FullPath(key.Print());
      ListingMeaning(t, dir, now);
      forall c | c in s.dirs(key) ensures Free(c.name, '/') {
        assert (dir + [c.name])[|dir|] == c.name;
      }
    }
  }

  /** A name is live in one of the scan's directories exactly when its path is in
      the store and is no expired record. */
  lemma StoredInTree(t: Tree, now: int, readable: (DirKey, string) -> bool, pageSize: nat, key: DirKey, name: string)
    requires WellFormed(t)
    ensures HasLive(TreeSource(t, now, readable, pageSize), key, name) <==>
            var p := FullPath(key.Print()) + [name];
            p in t && (t[p].Leaf? ==> !EntityExpired(t[p].entity, now))
  {
    var dir := FullPath(key.Print());
    ListingMeaning(t, dir, now);
    if dir + [name] in t {
      var c := ChildAt(t, dir, name, now);
      assert c in Listing(t, dir, now) && c.name == name;
    }
  }

  /** A path holds a directory or a record that is not expired. */
  predicate LiveAt(t: Tree, p: Path, now: int) {
    p in t && (t[p].Leaf? ==> !EntityExpired(t[p].entity, now))
  }

  /** The directories of the scan are those of the schema. */
  lemma AppsPath(a: string)
    requires Segment(a)
    ensures FullPath(Apps.Print()) + [a] == PathOf(App(a))
  {
    PrintSplits(App(a));
    SplitAppend(APP_PREFIX, a);
  }

  lemma EnvsPath(a: string, e: string)
    requires Segment(a) && Segment(e)
    ensures FullPath(Envs(a).Print()) + [e] == PathOf(EnvDir(a, e))
  {
    PrintSplits(AppDir(a));
  }

  lemma ElementsPath(a: string, e: string, x: string)
    requires Segment(a) && Segment(e) && Segment(x)
    ensures FullPath(Elements(a, e).Print()) == PathOf(EnvDir(a, e))
    ensures PathOf(EnvDir(a, e)) + [x] == PathOf(ElementDir(a, e, x))
  {
    PrintSplits(EnvDir(a, e));
  }

  lemma MetadataPath(a: string, e: string, x: string)
    ensures PathOf(Metadata(a, e, x)) == PathOf(ElementDir(a, e, x)) + ["metadata"]
    ensures |PathOf(ElementDir(a, e, x))| == 5
  {
  }

  /** What lies above something stored is a directory, and those never expire. */
  lemma ParentIsLive(t: Tree, dir: Path, name: string, now: int)
    requires WellFormed(t) && dir + [name] in t && |dir| >= 1
    ensures dir in t && t[dir] == Dir && LiveAt(t, dir, now)
  {
    assert (dir + [name])[..|dir|] == dir;
  }

  lemma ListedIff(t: Tree, now: int, s: Source, r: Ref, app: Path, env: Path, element: Path)
    requires WellFormed(t) && s == TreeSource(t, now, s.readable, s.pageSize)
    requires app == FullPath(Apps.Print()) + [r.app] && env == FullPath(Envs(r.app).Print()) + [r.env]
    requires FullPath(Elements(r.app, r.env).Print()) == env && element == env + [r.key]
    ensures Stored(s, r) <==> LiveAt(t, app, now) && LiveAt(t, element, now)
  {
    StoredInTree(t, now, s.readable, s.pageSize, Apps, r.app);
    StoredInTree(t, now, s.readable, s.pageSize, Envs(r.app), r.env);
    StoredInTree(t, now, s.readable, s.pageSize, Elements(r.app, r.env), r.key);
    if element in t {
      ParentIsLive(t, env, r.key, now);
    }
  }

  /** What a scan of a store from the start meets: exactly the elements of a
      listed app that have anything stored under their own directory. */
  lemma ScannedIff(t: Tree, now: int, s: Source, r: Ref)
    requires WellFormed(t) && SlashFree(t) && s.pageSize >= 1 && s == TreeSource(t, now, s.readable, s.pageSize)
    requires Segment(r.app) && Segment(r.env) && Segment(r.key)
    ensures r in ScanList(s, START)
            <==> LiveAt(t, PathOf(App(r.app)), now) && LiveAt(t, PathOf(ElementDir(r.app, r.env, r.key)), now)
  {
    SourceIsOrdered(t, now, s.readable, s.pageSize);
    ScanMembers(s, START, r);
    AppsPath(r.app);
    EnvsPath(r.app, r.env);
    ElementsPath(r.app, r.env, r.key);
    ListedIff(t, now, s, r, PathOf(App(r.app)), PathOf(EnvDir(r.app, r.env)), PathOf(ElementDir(r.app, r.env, r.key)));
  }

  /** An element with its metadata stored and its app listed is always met. */
  lemma ElementIsScanned(t: Tree, now: int, s: Source, r: Ref)
    requires WellFormed(t) && SlashFree(t) && s.pageSize >= 1 && s == TreeSource(t, now, s.readable, s.pageSize)
    requires Segment(r.app) && Segment(r.env) && Segment(r.key)
    requires LiveAt(t, PathOf(App(r.app)), now) && PathOf(Metadata(r.app, r.env, r.key)) in t
    ensures r in ScanList(s, START)
  {
    ScannedIff(t, now, s, r);
    MetadataPath(r.app, r.env, r.key);
    ParentIsLive(t, PathOf(ElementDir(r.app, r.env, r.key)), "metadata", now);
  }
}
