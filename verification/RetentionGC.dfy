/** The resumable scan of the retention collector (adm/retention_gc.go): apps,
    then environments, then elements, page by page from a persisted cursor. */
module RetentionGC {
  import opened Strings
  import opened Paging
  import opened KeySchema

  datatype Ref = Ref(app: string, env: string, key: string)

  datatype Cursor = Cursor(app: string, env: string, element: string)

  const START := Cursor("", "", "")

  predicate ValidCursor(c: Cursor) {
    if c.app == "" then c.env == "" && c.element == ""
    else if c.env == "" then c.element == ""
    else Free(c.app, '/') && Free(c.env, '/') && Free(c.element, '/')
  }

  /** The directories a scan reads, by the key each is stored under. */
  datatype DirKey = Apps | Envs(app: string) | Elements(app: string, env: string) {
    function Print(): string {
      match this
      case Apps => APP_PREFIX
      case Envs(a) => GenAppElementKey(a)
      case Elements(a, e) => GenAppElementEnvKey(a, e)
    }
  }

  /** The store during one run: the listing of each directory, empty when there
      is no such directory, and which page reads succeed. */
  datatype Source = Source(dirs: DirKey -> seq<Child>, readable: (DirKey, string) -> bool, pageSize: nat)

  ghost predicate Ordered(s: Source) {
    && s.pageSize >= 1
    && forall key :: InCursorOrder(s.dirs(key)) && forall c :: c in s.dirs(key) ==> Free(c.name, '/')
  }

  ghost predicate NoErrors(s: Source) {
    forall key, seek :: s.readable(key, seek)
  }

  // ----- The list a scan from a cursor goes through -----

  /** The live entries of a directory from a seek key on. */
  function Rest(s: Source, root: DirKey, seek: string): seq<Child> {
    From(s.dirs(root), seek)
  }

  function Concat(items: seq<Child>, f: Child -> seq<Ref>): seq<Ref> {
    if items == [] then [] else f(items[0]) + Concat(items[1..], f)
  }

  function Element(app: string, env: string): Child -> seq<Ref> {
    (c: Child) => [Ref(app, env, c.name)]
  }

  function RefsOfEnv(s: Source, app: string, env: string, seek: string): seq<Ref> {
    Concat(Rest(s, Elements(app, env), seek), Element(app, env))
  }

  function ElementSeek(c: Cursor, app: string, env: string): string {
    if app == c.app && env == c.env then c.element else ""
  }

  function Environment(s: Source, app: string, cursor: Cursor): Child -> seq<Ref> {
    (c: Child) => RefsOfEnv(s, app, c.name, ElementSeek(cursor, app, c.name))
  }

  function RefsOfApp(s: Source, app: string, c: Cursor): seq<Ref> {
    Concat(Rest(s, Envs(app), c.env), Environment(s, app, c))
  }

  function EnvCursor(c: Cursor, app: string): Cursor {
    if app == c.app then c else START
  }

  function Application(s: Source, cursor: Cursor): Child -> seq<Ref> {
    (c: Child) => RefsOfApp(s, c.name, EnvCursor(cursor, c.name))
  }

  function ScanList(s: Source, c: Cursor): seq<Ref> {
    Concat(Rest(s, Apps, c.app), Application(s, c))
  }

  lemma {:induction false} ConcatAppend(a: seq<Child>, b: seq<Child>, f: Child -> seq<Ref>)
    ensures Concat(a + b, f) == Concat(a, f) + Concat(b, f)
  {
    if a == [] {
      assert a + b == b;
    } else {
      ConcatAppend(a[1..], b, f);
      assert (a + b)[0] == a[0] && (a + b)[1..] == a[1..] + b;
      assert f(a[0]) + (Concat(a[1..], f) + Concat(b, f)) == (f(a[0]) + Concat(a[1..], f)) + Concat(b, f);
    }
  }

  lemma ConcatStep(items: seq<Child>, i: nat, f: Child -> seq<Ref>)
    requires i < |items|
    ensures Concat(items[i..], f) == f(items[i]) + Concat(items[i + 1..], f)
  {
    assert items[i..][1..] == items[i + 1..];
  }

  // ----- Order within a directory -----

  ghost predicate AscendingFrom(items: seq<Child>, seek: string) {
    && (forall i :: 0 <= i < |items| ==> Leq(seek, items[i].name) && items[i].name != "" && Free(items[i].name, '/'))
    && (forall i, j :: 0 <= i < j < |items| ==> Less(items[i].name, items[j].name))
  }

  lemma FromIsAscending(s: Source, root: DirKey, seek: string)
    requires Ordered(s)
    ensures AscendingFrom(Rest(s, root, seek), seek)
  {
    var kids := s.dirs(root);
    var i := SeekIndex(kids, seek);
    var tail := kids[i..];
    LiveIsOrdered(tail);
    var items := Rest(s, root, seek);
    forall j | 0 <= j < |items| ensures Leq(seek, items[j].name) && Free(items[j].name, '/') {
      assert items[j] in tail;
      var m :| 0 <= m < |tail| && tail[m] == items[j];
      assert kids[i + m] == items[j] && items[j] in kids;
      if m > 0 {
        LeqTransitive(seek, kids[i].name, kids[i + m].name);
      }
    }
  }

  /** Only the first entry of the list can be the one the seek key names. */
  ghost predicate OnlyFirst(items: seq<Child>, seek: string) {
    forall j :: 1 <= j < |items| ==> items[j].name != seek
  }

  ghost predicate Avoids(items: seq<Child>, seek: string) {
    forall j :: 0 <= j < |items| ==> items[j].name != seek
  }

  lemma FromOnlyFirst(s: Source, root: DirKey, seek: string)
    requires Ordered(s)
    ensures OnlyFirst(Rest(s, root, seek), seek)
  {
    FromIsAscending(s, root, seek);
    var items := Rest(s, root, seek);
    forall k | 1 <= k < |items| ensures items[k].name != seek {
      LeqTransitive(seek, items[0].name, items[k].name);
      LessTrichotomy(seek, items[k].name);
    }
  }

  /** Whether the cursor still applies to what is left of a directory, as the
      scan keeps track of it in its active cursor. */
  ghost predicate Tracks(active: Cursor, cursor: Cursor, left: seq<Child>, seek: string) {
    OnlyFirst(left, seek) && (active == cursor || (active == START && Avoids(left, seek)))
  }

  lemma TracksPage(active: Cursor, cursor: Cursor, items: seq<Child>, later: seq<Child>, seek: string)
    requires Tracks(active, cursor, items + later, seek)
    ensures Tracks(active, cursor, items, seek)
    ensures items != [] ==> Tracks(START, cursor, later, seek)
  {
    var left := items + later;
    assert forall j :: 0 <= j < |items| ==> items[j] == left[j];
    assert forall j :: 0 <= j < |later| ==> later[j] == left[|items| + j];
  }

  lemma EnvironmentAt(s: Source, app: string, cursor: Cursor, c: Child)
    ensures Environment(s, app, cursor)(c) == RefsOfEnv(s, app, c.name, ElementSeek(cursor, app, c.name))
  {
  }

  lemma ApplicationAt(s: Source, cursor: Cursor, c: Child)
    ensures Application(s, cursor)(c) == RefsOfApp(s, c.name, EnvCursor(cursor, c.name))
  {
  }

  // ----- The scan as the code runs it -----

  /** How far a scan that had `before` behind it got through `list`: complete
      with room to spare, or stopped by a full budget or a failed read. */
  ghost predicate Progress(before: seq<Ref>, after: seq<Ref>, list: seq<Ref>, max: nat, done: bool, clean: bool) {
    && |before| <= |after| <= |before + list| && after == (before + list)[..|after|]
    && |after| <= max
    && (done ==> |after| == |before + list| && |after| < max)
    && (!done && clean ==> |after| == max)
  }

  /** A step that completed `part` of what was left. */
  lemma ProgressOn(start: seq<Ref>, list: seq<Ref>, before: seq<Ref>, part: seq<Ref>, rest: seq<Ref>, after: seq<Ref>, max: nat, done: bool, clean: bool)
    requires before + (part + rest) == start + list && |start| <= |before|
    requires Progress(before, after, part, max, done, clean)
    ensures done ==> after + rest == start + list && |start| <= |after| < max
    ensures !done ==> Progress(start, after, list, max, false, clean)
  {
    assert before + (part + rest) == (before + part) + rest;
    assert (start + list)[..|after|] == (before + part)[..|after|];
  }

  /** rangeLeavesPageWithError: one page of a directory, or an error. */
  method ReadPage(s: Source, root: DirKey, seek: string) returns (ok: bool, page: RangeResult)
    requires Ordered(s)
    ensures ok <==> s.readable(root, seek)
    ensures ok ==> Rest(s, root, seek) == page.items + if page.hasMore then Rest(s, root, page.nextSeekKey) else []
    ensures ok && page.hasMore ==> page.nextSeekKey != "" && page.items != []
    ensures ok && page.hasMore ==> SeekIndex(s.dirs(root), seek) < SeekIndex(s.dirs(root), page.nextSeekKey)
  {
    page := FetchPage(s.dirs(root), seek, s.pageSize);
    ok := s.readable(root, seek);
  }

  class Scanner {
    var visited: seq<Ref>
    const max: nat

    constructor (max: nat)
      ensures visited == [] && this.max == max
    {
      visited := [];
      this.max := max;
    }

    /** The visit callback: goes on while the budget has room. */
    method Visit(ref: Ref) returns (goOn: bool)
      modifies this`visited
      ensures visited == old(visited) + [ref]
      ensures goOn <==> |visited| < max
    {
      visited := visited + [ref];
      goOn := |visited| < max;
    }

    /** One page of element keys. */
    method VisitPage(app: string, env: string, items: seq<Child>) returns (done: bool)
      requires |visited| < max
      modifies this`visited
      ensures Progress(old(visited), visited, Concat(items, Element(app, env)), max, done, true)
    {
      ghost var f := Element(app, env);
      var i := 0;
      assert items[0..] == items;
      while i < |items|
        invariant 0 <= i <= |items|
        invariant visited + Concat(items[i..], f) == old(visited) + Concat(items, f)
        invariant |old(visited)| <= |visited| < max
      {
        ConcatStep(items, i, f);
        ghost var before := visited;
        var goOn := Visit(Ref(app, env, items[i].name));
        ProgressOn(old(visited), Concat(items, f), before, [Ref(app, env, items[i].name)], Concat(items[i + 1..], f), visited, max, goOn, true);
        if !goOn {
          return false;
        }
        i := i + 1;
      }
      return true;
    }

    method ScanElementKeys(s: Source, app: string, env: string, elementSeek: string) returns (done: bool)
      requires Ordered(s) && |visited| < max
      modifies this`visited
      ensures Progress(old(visited), visited, RefsOfEnv(s, app, env, elementSeek), max, done, NoErrors(s))
    {
      var root := Elements(app, env);
      var seek := elementSeek;
      ghost var f := Element(app, env);
      ghost var list := Concat(Rest(s, root, seek), f);
      while true
        invariant |old(visited)| <= |visited| < max
        invariant visited + Concat(Rest(s, root, seek), f) == old(visited) + list
        decreases |s.dirs(root)| - SeekIndex(s.dirs(root), seek)
      {
        var ok, page := ReadPage(s, root, seek);
        if !ok {
          return false;
        }
        ghost var later := if page.hasMore then Rest(s, root, page.nextSeekKey) else [];
        ConcatAppend(page.items, later, f);
        ghost var before := visited;
        var goOn := VisitPage(app, env, page.items);
        ProgressOn(old(visited), list, before, Concat(page.items, f), Concat(later, f), visited, max, goOn, true);
        if !goOn {
          return false;
        }
        if !page.hasMore {
          return true;
        }
        if page.nextSeekKey == "" {
          return false;
        }
        seek := page.nextSeekKey;
      }
    }

    /** One page of environments. */
    method VisitEnvPage(s: Source, app: string, items: seq<Child>, active: Cursor, ghost cursor: Cursor) returns (done: bool)
      requires Ordered(s) && |visited| < max && Tracks(active, cursor, items, cursor.env)
      modifies this`visited
      ensures Progress(old(visited), visited, Concat(items, Environment(s, app, cursor)), max, done, NoErrors(s))
    {
      ghost var f := Environment(s, app, cursor);
      var active' := active;
      var i := 0;
      assert items[0..] == items;
      while i < |items|
        invariant 0 <= i <= |items|
        invariant visited + Concat(items[i..], f) == old(visited) + Concat(items, f)
        invariant |old(visited)| <= |visited| < max
        invariant active' == cursor || (active' == START && forall j :: i <= j < |items| ==> items[j].name != cursor.env)
      {
        ConcatStep(items, i, f);
        EnvironmentAt(s, app, cursor, items[i]);
        var env := items[i].name;
        var elementSeek := "";
        if app == active'.app && env == active'.env {
          elementSeek := active'.element;
        }
        ghost var before := visited;
        done := ScanElementKeys(s, app, env, elementSeek);
        ProgressOn(old(visited), Concat(items, f), before, f(items[i]), Concat(items[i + 1..], f), visited, max, done, NoErrors(s));
        i := i + 1;
        if !done {
          return;
        }
        if app == active'.app && env == active'.env {
          active' := START;
        }
      }
      done := true;
    }

    method ScanEnvs(s: Source, app: string, envSeek: string, cursor: Cursor) returns (done: bool)
      requires Ordered(s) && |visited| < max && envSeek == cursor.env
      modifies this`visited
      ensures Progress(old(visited), visited, RefsOfApp(s, app, cursor), max, done, NoErrors(s))
    {
      var root := Envs(app);
      var seek, active := envSeek, cursor;
      ghost var f := Environment(s, app, cursor);
      ghost var list := Concat(Rest(s, root, seek), f);
      FromOnlyFirst(s, root, seek);
      while true
        invariant |old(visited)| <= |visited| < max
        invariant visited + Concat(Rest(s, root, seek), f) == old(visited) + list
        invariant Tracks(active, cursor, Rest(s, root, seek), cursor.env)
        decreases |s.dirs(root)| - SeekIndex(s.dirs(root), seek)
      {
        var ok, page := ReadPage(s, root, seek);
        if !ok {
          return false;
        }
        ghost var later := if page.hasMore then Rest(s, root, page.nextSeekKey) else [];
        ConcatAppend(page.items, later, f);
        TracksPage(active, cursor, page.items, later, cursor.env);
        ghost var before := visited;
        done := VisitEnvPage(s, app, page.items, active, cursor);
        ProgressOn(old(visited), list, before, Concat(page.items, f), Concat(later, f), visited, max, done, NoErrors(s));
        if !done {
          return false;
        }
        if !page.hasMore {
          return true;
        }
        if page.nextSeekKey == "" {
          return false;
        }
        seek, active := page.nextSeekKey, START;
      }
    }

    /** One page of applications. */
    method VisitAppPage(s: Source, items: seq<Child>, active: Cursor, ghost cursor: Cursor) returns (done: bool)
      requires Ordered(s) && |visited| < max && Tracks(active, cursor, items, cursor.app)
      modifies this`visited
      ensures Progress(old(visited), visited, Concat(items, Application(s, cursor)), max, done, NoErrors(s))
    {
      ghost var f := Application(s, cursor);
      var active' := active;
      var i := 0;
      assert items[0..] == items;
      while i < |items|
        invariant 0 <= i <= |items|
        invariant visited + Concat(items[i..], f) == old(visited) + Concat(items, f)
        invariant |old(visited)| <= |visited| < max
        invariant active' == cursor || (active' == START && forall j :: i <= j < |items| ==> items[j].name != cursor.app)
      {
        ConcatStep(items, i, f);
        ApplicationAt(s, cursor, items[i]);
        var app := items[i].name;
        var envCursor := START;
        if app == active'.app {
          envCursor := active';
        }
        ghost var before := visited;
        done := ScanEnvs(s, app, envCursor.env, envCursor);
        ProgressOn(old(visited), Concat(items, f), before, f(items[i]), Concat(items[i + 1..], f), visited, max, done, NoErrors(s));
        i := i + 1;
        if !done {
          return;
        }
        if app == active'.app {
          active' := START;
        }
      }
      done := true;
    }

    /** The whole scan from a cursor: it goes through ScanList(s, cursor). */
    method ScanElements(s: Source, cursor: Cursor) returns (done: bool)
      requires Ordered(s) && |visited| < max
      modifies this`visited
      ensures Progress(old(visited), visited, ScanList(s, cursor), max, done, NoErrors(s))
    {
      var seek, active := cursor.app, cursor;
      ghost var f := Application(s, cursor);
      ghost var list := Concat(Rest(s, Apps, seek), f);
      FromOnlyFirst(s, Apps, seek);
      while true
        invariant |old(visited)| <= |visited| < max
        invariant visited + Concat(Rest(s, Apps, seek), f) == old(visited) + list
        invariant Tracks(active, cursor, Rest(s, Apps, seek), cursor.app)
        decreases |s.dirs(Apps)| - SeekIndex(s.dirs(Apps), seek)
      {
        var ok, page := ReadPage(s, Apps, seek);
        if !ok {
          return false;
        }
        ghost var later := if page.hasMore then Rest(s, Apps, page.nextSeekKey) else [];
        ConcatAppend(page.items, later, f);
        TracksPage(active, cursor, page.items, later, cursor.app);
        ghost var before := visited;
        done := VisitAppPage(s, page.items, active, cursor);
        ProgressOn(old(visited), list, before, Concat(page.items, f), Concat(later, f), visited, max, done, NoErrors(s));
        if !done {
          return false;
        }
        if !page.hasMore {
          return true;
        }
        if page.nextSeekKey == "" {
          return false;
        }
        seek, active := page.nextSeekKey, START;
      }
    }
  }
}
