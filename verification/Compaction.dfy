/** History compaction (kv/retention_compact.go): which versions and operations
    of an element are kept, and what deleting the others leaves. */
module Compaction {
  import opened Strings
  import opened Entities
  import opened Paging
  import opened KeySchema

  // ----- Keys -----

  /** strconv.ParseInt(s, 10, 32). */
  function ParseInt32(s: string): Option<int> {
    var neg := s != "" && s[0] == '-';
    var digits := if s != "" && (s[0] == '-' || s[0] == '+') then s[1..] else s;
    if digits == "" || !AllDigits(digits) then None
    else
      var n: int := Digits(digits);
      if neg then (if n <= TWO_31 then Some(-n) else None)
      else if n < TWO_31 then Some(n) else None
  }

  function TrimPrefix(s: string, prefix: string): string {
    if prefix <= s then s[|prefix|..] else s
  }

  function VersionFromStorageKey(root: string, key: string): Option<int> {
    var leaf := TrimPrefix(key, root + "/");
    if leaf == "" || leaf[0] != 'v' || '/' in leaf then None
    else
      var v := ParseInt32(leaf[1..]);
      if v.None? || v.value <= 0 then None else v
  }

  /** Parsing undoes WithVersion for every version an int32 can hold. */
  lemma VersionRoundTrip(root: string, v: nat)
    requires 1 <= v < TWO_31
    ensures VersionFromStorageKey(root, WithVersion(root, v)) == Some(v)
    ensures WithVersion(root, v) == root + "/" + ("v" + Itoa(v))
  {
    var leaf := "v" + Itoa(v);
    DigitsAreSegments(v);
    SplitAppend(root, leaf);
    var key := root + "/" + leaf;
    assert TrimPrefix(key, root + "/") == leaf by {
      assert root + "/" <= key && key[|root + "/"|..] == leaf;
    }
    NumeralParses(v);
    assert leaf[1..] == Itoa(v);
  }

  lemma NumeralParses(v: nat)
    requires v < TWO_31
    ensures ParseInt32(Itoa(v)) == Some(v)
  {
    DigitsUndoesItoa(v);
  }

  /** Parsing is not the inverse of printing: padded names parse as well. */
  lemma PaddedNameParses(root: string)
    ensures VersionFromStorageKey(root, root + "/v01") == Some(1)
    ensures root + "/v01" != WithVersion(root, 1)
  {
    var key := root + "/v01";
    assert root + "/" <= key && key[|root + "/"|..] == "v01";
    assert "v01"[1..] == "01";
    assert "01"[..1] == "0" && "0"[..0] == "";
    assert Digits("01") == 1;
    VersionRoundTrip(root, 1);
    assert Itoa(1) == "1";
    assert |WithVersion(root, 1)| == |root| + 3;
  }

  /** A numeral of v: its decimal digits, padded with zeros. */
  ghost predicate NumeralOf(s: string, v: nat) {
    && |s| >= |Itoa(v)| && s[|s| - |Itoa(v)|..] == Itoa(v)
    && forall i :: 0 <= i < |s| - |Itoa(v)| ==> s[i] == '0'
  }

  lemma {:induction false} DigitsIff(s: string, v: nat)
    requires v >= 1
    ensures AllDigits(s) && Digits(s) == v <==> NumeralOf(s, v)
  {
    if s != "" {
      var n := |s| - 1;
      var init, d := s[..n], s[n];
      assert AllDigits(s) <==> AllDigits(init) && IsDigit(d) by {
        assert forall i :: 0 <= i < n ==> init[i] == s[i];
      }
      if v < 10 {
        assert Itoa(v) == [Digit(v)] && s[n..] == [d];
        if AllDigits(init) {
          ZeroIff(init);
        }
      } else {
        DigitsIff(init, v / 10);
        NumeralSnoc(init, d, s, v);
      }
    }
  }

  lemma {:induction false} ZeroIff(s: string)
    requires AllDigits(s)
    ensures Digits(s) == 0 <==> forall i :: 0 <= i < |s| ==> s[i] == '0'
  {
    if s != "" {
      ZeroIff(s[..|s| - 1]);
    }
  }

  lemma NumeralSnoc(init: string, d: char, s: string, v: nat)
    requires v >= 10 && s == init + [d]
    ensures NumeralOf(s, v) <==> NumeralOf(init, v / 10) && d == Digit(v % 10)
  {
    var a, b := Itoa(v / 10), Digit(v % 10);
    assert Itoa(v) == a + [b];
    if |init| >= |a| {
      var k := |init| - |a|;
      assert s[k..] == init[k..] + [d];
      assert forall i :: 0 <= i < k ==> s[i] == init[i];
      assert init[k..] + [d] == a + [b] <==> init[k..] == a && d == b by {
        assert (init[k..] + [d])[..|a|] == init[k..] && (a + [b])[..|a|] == a;
        assert (init[k..] + [d])[|a|] == d && (a + [b])[|a|] == b;
      }
    }
  }

  /** Which names of an element's directory are read as versions: a 'v', at most
      a plus sign, and a numeral of a positive int32, which is the version. */
  lemma VersionParsesIff(root: string, name: string, v: int)
    ensures VersionFromStorageKey(root, root + "/" + name) == Some(v)
            <==> && 1 <= v < TWO_31 && |name| >= 1 && name[0] == 'v'
                 && (NumeralOf(name[1..], v) || (|name| >= 2 && name[1] == '+' && NumeralOf(name[2..], v)))
  {
    var key := root + "/" + name;
    assert root + "/" <= key && key[|root + "/"|..] == name;
    if |name| >= 1 && 1 <= v < TWO_31 {
      var s := name[1..];
      assert |s| >= 1 ==> s[1..] == name[2..];
      NumeralIsDigits(s, v);
      NumeralIsDigits(name[if |name| >= 2 then 2 else 1..], v);
      SignedParses(s, v);
      if name[0] == 'v' {
        SlashFreeNumeral(name, v);
      }
    }
  }

  lemma NumeralIsDigits(s: string, v: nat)
    requires v >= 1
    ensures NumeralOf(s, v) ==> AllDigits(s) && s != ""
  {
    DigitsIff(s, v);
  }

  lemma SignedParses(s: string, v: nat)
    requires 1 <= v < TWO_31
    ensures ParseInt32(s) == Some(v) <==> NumeralOf(s, v) || (|s| >= 1 && s[0] == '+' && NumeralOf(s[1..], v))
  {
    DigitsIff(s, v);
    if |s| >= 1 {
      DigitsIff(s[1..], v);
    }
  }

  lemma SlashFreeNumeral(name: string, v: nat)
    requires 1 <= v < TWO_31 && |name| >= 1 && name[0] == 'v'
    ensures ParseInt32(name[1..]).Some? ==> '/' !in name
  {
  }

  // ----- Cutoffs -----

  const MAX_INT64 := 0x7FFF_FFFF_FFFF_FFFF

  /** The cutoff is max(0, now - keep * unit), with no step leaving int64. */
  function SafeRetentionCutoff(now: int, keepSeconds: int, unit: int): (r: int)
    requires 0 <= now <= MAX_INT64 && -MAX_INT64 - 1 <= keepSeconds <= MAX_INT64 && 1 <= unit <= MAX_INT64
    ensures keepSeconds > 0 ==> r == if now - keepSeconds * unit > 0 then now - keepSeconds * unit else 0
    ensures keepSeconds <= 0 ==> r == now
    ensures 0 <= r <= now
  {
    if keepSeconds <= 0 then now
    else if keepSeconds > MAX_INT64 / unit then
      ProductOverflows(keepSeconds, unit);
      0
    else
      ProductFits(keepSeconds, unit);
      var retention := keepSeconds * unit;
      if retention > now then 0 else now - retention
  }

  lemma DivBounds(m: int, unit: int)
    requires 1 <= unit
    ensures (m / unit) * unit <= m < (m / unit + 1) * unit
  {
    assert m == (m / unit) * unit + m % unit;
    assert (m / unit + 1) * unit == (m / unit) * unit + unit;
  }

  lemma MulMonotone(a: int, b: int, unit: int)
    requires a <= b && 0 <= unit
    ensures a * unit <= b * unit
  {
    assert (b - a) * unit >= 0;
    assert b * unit == a * unit + (b - a) * unit;
  }

  lemma ProductOverflows(k: int, unit: int)
    requires 1 <= unit && k > MAX_INT64 / unit
    ensures k * unit > MAX_INT64
  {
    DivBounds(MAX_INT64, unit);
    MulMonotone(MAX_INT64 / unit + 1, k, unit);
  }

  lemma ProductFits(k: int, unit: int)
    requires 1 <= unit && 0 < k <= MAX_INT64 / unit
    ensures 0 < k * unit <= MAX_INT64
  {
    DivBounds(MAX_INT64, unit);
    MulMonotone(k, MAX_INT64 / unit, unit);
    MulMonotone(1, k, unit);
  }

  // ----- Loading -----

  datatype CompactVersion = CompactVersion(key: string, version: int, createdAt: int)

  function CreatedAt(c: Child): int {
    if c.node.Leaf? then c.node.entity.createdAt else 0
  }

  /** What the load makes of one entry of the element's directory. */
  function Read(root: string, c: Child): Option<CompactVersion> {
    var key := root + "/" + c.name;
    match VersionFromStorageKey(root, key)
    case None => None
    case Some(v) => Some(CompactVersion(key, v, CreatedAt(c)))
  }

  function Reader(root: string): Child -> Option<CompactVersion> {
    (c: Child) => Read(root, c)
  }

  /** The entries that read as records, in cursor order, and the keys of the others. */
  function Parsed<T>(items: seq<Child>, read: Child -> Option<T>): seq<T> {
    if items == [] then []
    else
      var rest, last := Parsed(items[..|items| - 1], read), read(items[|items| - 1]);
      if last.Some? then rest + [last.value] else rest
  }

  function Unparsed<T>(items: seq<Child>, read: Child -> Option<T>, dir: string): seq<string> {
    if items == [] then []
    else
      var rest, last := Unparsed(items[..|items| - 1], read, dir), items[|items| - 1];
      if read(last).Some? then rest else rest + [dir + "/" + last.name]
  }

  lemma {:induction false} ParsedPartition<T>(items: seq<Child>, read: Child -> Option<T>, dir: string)
    ensures |Parsed(items, read)| + |Unparsed(items, read, dir)| == |items|
  {
    if items != [] {
      ParsedPartition(items[..|items| - 1], read, dir);
    }
  }

  /** One page of a scan. */
  method LoadPage<T>(items: seq<Child>, read: Child -> Option<T>, dir: string, ghost done: seq<Child>, records: seq<T>, failed: seq<string>)
    returns (records': seq<T>, failed': seq<string>)
    requires records == Parsed(done, read) && failed == Unparsed(done, read, dir)
    ensures records' == Parsed(done + items, read) && failed' == Unparsed(done + items, read, dir)
  {
    records', failed' := records, failed;
    var i := 0;
    ghost var seen := done;
    while i < |items|
      invariant 0 <= i <= |items| && seen == done + items[..i]
      invariant records' == Parsed(seen, read) && failed' == Unparsed(seen, read, dir)
    {
      ghost var more := seen + [items[i]];
      assert more[..|more| - 1] == seen && more == done + items[..i + 1];
      var v := read(items[i]);
      if v.None? {
        failed' := failed' + [dir + "/" + items[i].name];
      } else {
        records' := records' + [v.value];
      }
      seen := more;
      i := i + 1;
    }
    assert items[..i] == items;
  }

  /** The paged load meets every live entry from the seek key on exactly once,
      whatever the page size. */
  method LoadFrom<T>(kids: seq<Child>, dir: string, start: string, read: Child -> Option<T>, pageSize: nat)
    returns (records: seq<T>, failed: seq<string>)
    requires InCursorOrder(kids) && pageSize >= 1
    ensures records == Parsed(From(kids, start), read) && failed == Unparsed(From(kids, start), read, dir)
  {
    records, failed := [], [];
    var seek := start;
    ghost var done, all := [], From(kids, start);
    while true
      invariant records == Parsed(done, read) && failed == Unparsed(done, read, dir)
      invariant done + From(kids, seek) == all
      decreases |kids| - SeekIndex(kids, seek)
    {
      var page := FetchPage(kids, seek, pageSize);
      ghost var later := if page.hasMore then From(kids, page.nextSeekKey) else [];
      Advance(done, From(kids, seek), page.items, later, all);
      records, failed := LoadPage(page.items, read, dir, done, records, failed);
      done := done + page.items;
      if !page.hasMore {
        return;
      }
      if page.nextSeekKey == "" {
        return;
      }
      seek := page.nextSeekKey;
    }
  }

  method LoadCompactVersions(kids: seq<Child>, root: string, pageSize: nat) returns (versions: seq<CompactVersion>, failed: seq<string>)
    requires InCursorOrder(kids) && pageSize >= 1
    ensures versions == Parsed(From(kids, "v"), Reader(root)) && failed == Unparsed(From(kids, "v"), Reader(root), root)
  {
    versions, failed := LoadFrom(kids, root, "v", Reader(root), pageSize);
  }

  datatype CompactOperation = CompactOperation(key: string, operatedAt: int)

  /** An entry of the operations directory: its key, and the time in its record
      if that decodes. */
  function OperationReader(dir: string, decode: Child -> Option<int>): Child -> Option<CompactOperation> {
    (c: Child) => match decode(c)
                  case None => None
                  case Some(at) => Some(CompactOperation(dir + "/" + c.name, at))
  }

  method LoadCompactOperations(kids: seq<Child>, dir: string, decode: Child -> Option<int>, pageSize: nat)
    returns (operations: seq<CompactOperation>, failed: seq<string>)
    requires InCursorOrder(kids) && pageSize >= 1
    ensures operations == Parsed(From(kids, ""), OperationReader(dir, decode))
    ensures failed == Unparsed(From(kids, ""), OperationReader(dir, decode), dir)
  {
    operations, failed := LoadFrom(kids, dir, "", OperationReader(dir, decode), pageSize);
  }

  // ----- Retaining -----

  /** How many loaded entries have a greater version. */
  function Greater(vs: seq<CompactVersion>, v: int): nat {
    if vs == [] then 0 else (if vs[|vs| - 1].version > v then 1 else 0) + Greater(vs[..|vs| - 1], v)
  }

  predicate Pinned(using: int, unpublished: int, v: int) {
    v > 0 && (v == using || v == unpublished)
  }

  ghost predicate Young(vs: seq<CompactVersion>, cutoff: int, v: int) {
    exists i :: 0 <= i < |vs| && vs[i].version == v && vs[i].createdAt >= cutoff
  }

  ghost predicate Loaded(vs: seq<CompactVersion>, v: int) {
    exists i :: 0 <= i < |vs| && vs[i].version == v
  }

  /** The retention rule: in use, the draft, young enough, or among the keepCount
      numerically greatest. */
  ghost predicate Retained(using: int, unpublished: int, vs: seq<CompactVersion>, keepCount: int, cutoff: int, v: int) {
    Pinned(using, unpublished, v) || Young(vs, cutoff, v) || (Loaded(vs, v) && Greater(vs, v) < keepCount)
  }

  ghost predicate Descending(vs: seq<CompactVersion>) {
    forall i, j :: 0 <= i < j < |vs| ==> vs[i].version >= vs[j].version
  }

  lemma {:induction false} GreaterAppend(a: seq<CompactVersion>, b: seq<CompactVersion>, v: int)
    ensures Greater(a + b, v) == Greater(a, v) + Greater(b, v)
  {
    if b == [] {
      assert a + b == a;
    } else {
      GreaterAppend(a, b[..|b| - 1], v);
      assert (a + b)[..|a + b| - 1] == a + b[..|b| - 1];
    }
  }

  /** Insertion into a descending list. */
  method Insert(sorted: seq<CompactVersion>, x: CompactVersion) returns (r: seq<CompactVersion>)
    requires Descending(sorted)
    ensures Descending(r) && |r| == |sorted| + 1
    ensures forall v :: Loaded(r, v) <==> Loaded(sorted, v) || v == x.version
    ensures forall v :: Greater(r, v) == Greater(sorted, v) + if x.version > v then 1 else 0
  {
    var i := 0;
    while i < |sorted| && sorted[i].version >= x.version
      invariant 0 <= i <= |sorted|
      invariant forall j :: 0 <= j < i ==> sorted[j].version >= x.version
    {
      i := i + 1;
    }
    r := sorted[..i] + [x] + sorted[i..];
    forall v ensures Loaded(r, v) <==> Loaded(sorted, v) || v == x.version {
      InsertKeepsLoaded(sorted, x, i, r, v);
    }
    forall v ensures Greater(r, v) == Greater(sorted, v) + if x.version > v then 1 else 0 {
      InsertKeepsGreater(sorted, x, i, r, v);
    }
  }

  lemma InsertKeepsLoaded(sorted: seq<CompactVersion>, x: CompactVersion, i: nat, r: seq<CompactVersion>, v: int)
    requires i <= |sorted| && r == sorted[..i] + [x] + sorted[i..]
    ensures Loaded(r, v) <==> Loaded(sorted, v) || v == x.version
  {
    if Loaded(sorted, v) {
      var j :| 0 <= j < |sorted| && sorted[j].version == v;
      assert r[if j < i then j else j + 1] == sorted[j];
    }
    if v == x.version {
      assert r[i] == x;
    }
    if Loaded(r, v) && v != x.version {
      var j :| 0 <= j < |r| && r[j].version == v;
      assert r[j] == sorted[if j < i then j else j - 1];
    }
  }

  lemma InsertKeepsGreater(sorted: seq<CompactVersion>, x: CompactVersion, i: nat, r: seq<CompactVersion>, v: int)
    requires i <= |sorted| && r == sorted[..i] + [x] + sorted[i..]
    ensures Greater(r, v) == Greater(sorted, v) + if x.version > v then 1 else 0
  {
    assert sorted == sorted[..i] + sorted[i..];
    GreaterAppend(sorted[..i], [x], v);
    GreaterAppend(sorted[..i] + [x], sorted[i..], v);
    GreaterAppend(sorted[..i], sorted[i..], v);
    assert [x][..0] == [];
  }

  /** sort.Slice on a copy, greatest version first. */
  method SortDescending(vs: seq<CompactVersion>) returns (sorted: seq<CompactVersion>)
    ensures Descending(sorted) && |sorted| == |vs|
    ensures forall v :: Loaded(sorted, v) <==> Loaded(vs, v)
    ensures forall v :: Greater(sorted, v) == Greater(vs, v)
  {
    sorted := [];
    var i := 0;
    while i < |vs|
      invariant 0 <= i <= |vs|
      invariant Descending(sorted) && |sorted| == i
      invariant forall v :: Loaded(sorted, v) <==> Loaded(vs[..i], v)
      invariant forall v :: Greater(sorted, v) == Greater(vs[..i], v)
    {
      ghost var before := vs[..i];
      assert vs[..i + 1] == before + [vs[i]];
      forall v ensures Loaded(vs[..i + 1], v) <==> Loaded(before, v) || v == vs[i].version {
        LoadedAppend(before, vs[i], v);
      }
      assert forall v :: Greater(vs[..i + 1], v) == Greater(before, v) + if vs[i].version > v then 1 else 0 by {
        assert vs[..i + 1][..i] == before;
      }
      sorted := Insert(sorted, vs[i]);
      i := i + 1;
    }
    assert vs[..i] == vs;
  }

  lemma LoadedAppend(vs: seq<CompactVersion>, x: CompactVersion, v: int)
    ensures Loaded(vs + [x], v) <==> Loaded(vs, v) || v == x.version
  {
    if Loaded(vs, v) {
      var i :| 0 <= i < |vs| && vs[i].version == v;
      assert (vs + [x])[i] == vs[i];
    }
    if v == x.version {
      assert (vs + [x])[|vs|] == x;
    }
  }

  /** In a descending list a version is among the first k entries exactly when
      fewer than k entries are greater. */
  lemma {:induction false} TopIffFewGreater(s: seq<CompactVersion>, k: nat, v: int)
    requires Descending(s) && k <= |s|
    ensures Loaded(s[..k], v) <==> Loaded(s, v) && Greater(s, v) < k
  {
    if Loaded(s[..k], v) {
      var i :| 0 <= i < k && s[..k][i].version == v;
      assert s[i].version == v;
      NoneGreater(s[i..], v);
      assert s == s[..i] + s[i..];
      GreaterAppend(s[..i], s[i..], v);
      GreaterBound(s[..i], v);
    } else if Loaded(s, v) {
      var i :| 0 <= i < |s| && s[i].version == v;
      PrefixLoaded(s, k, i);
      forall j | 0 <= j < k ensures s[..k][j].version > v {
        assert s[j].version >= s[i].version && s[..k][j] == s[j];
      }
      AllGreater(s[..k], v);
      assert s == s[..k] + s[k..];
      GreaterAppend(s[..k], s[k..], v);
    }
  }

  lemma PrefixLoaded(s: seq<CompactVersion>, k: nat, i: nat)
    requires i < |s| && k <= |s|
    ensures i < k ==> Loaded(s[..k], s[i].version)
  {
    assert i < k ==> s[..k][i] == s[i];
  }

  lemma {:induction false} NoneGreater(s: seq<CompactVersion>, v: int)
    requires forall i :: 0 <= i < |s| ==> s[i].version <= v
    ensures Greater(s, v) == 0
  {
    if s != [] {
      NoneGreater(s[..|s| - 1], v);
    }
  }

  lemma {:induction false} AllGreater(s: seq<CompactVersion>, v: int)
    requires forall i :: 0 <= i < |s| ==> s[i].version > v
    ensures Greater(s, v) == |s|
  {
    if s != [] {
      AllGreater(s[..|s| - 1], v);
    }
  }

  lemma {:induction false} GreaterBound(s: seq<CompactVersion>, v: int)
    ensures Greater(s, v) <= |s|
  {
    if s != [] {
      GreaterBound(s[..|s| - 1], v);
    }
  }

  /** The set the code builds is the retention rule. */
  method RetainedVersionSet(using: int, unpublished: int, vs: seq<CompactVersion>, keepCount: int, cutoff: int) returns (keep: set<int>)
    ensures forall v :: v in keep <==> Retained(using, unpublished, vs, keepCount, cutoff, v)
  {
    var count := if keepCount < 0 then 0 else keepCount;
    keep := {};
    if using > 0 {
      keep := keep + {using};
    }
    if unpublished > 0 {
      keep := keep + {unpublished};
    }
    var i := 0;
    while i < |vs|
      invariant 0 <= i <= |vs|
      invariant forall v :: v in keep <==> Pinned(using, unpublished, v) || Young(vs[..i], cutoff, v)
    {
      forall v ensures Young(vs[..i + 1], cutoff, v) <==> Young(vs[..i], cutoff, v) || (v == vs[i].version && vs[i].createdAt >= cutoff) {
        YoungStep(vs, i, cutoff, v);
      }
      if vs[i].createdAt >= cutoff {
        keep := keep + {vs[i].version};
      }
      i := i + 1;
    }
    assert vs[..i] == vs;
    var sorted := SortDescending(vs);
    var top := if count < |sorted| then count else |sorted|;
    var k := 0;
    while k < top
      invariant 0 <= k <= top
      invariant forall v :: v in keep <==> Pinned(using, unpublished, v) || Young(vs, cutoff, v) || Loaded(sorted[..k], v)
    {
      assert sorted[..k + 1] == sorted[..k] + [sorted[k]];
      forall v ensures Loaded(sorted[..k + 1], v) <==> Loaded(sorted[..k], v) || v == sorted[k].version {
        LoadedAppend(sorted[..k], sorted[k], v);
      }
      keep := keep + {sorted[k].version};
      k := k + 1;
    }
    forall v ensures Loaded(sorted[..top], v) <==> Loaded(vs, v) && Greater(vs, v) < keepCount {
      TopIffFewGreater(sorted, top, v);
      GreaterBelow(sorted, v);
    }
  }

  lemma YoungStep(vs: seq<CompactVersion>, i: nat, cutoff: int, v: int)
    requires i < |vs|
    ensures Young(vs[..i + 1], cutoff, v) <==> Young(vs[..i], cutoff, v) || (v == vs[i].version && vs[i].createdAt >= cutoff)
  {
    if Young(vs[..i], cutoff, v) {
      var j :| 0 <= j < i && vs[..i][j].version == v && vs[..i][j].createdAt >= cutoff;
      assert vs[..i + 1][j] == vs[..i][j];
    }
    if v == vs[i].version && vs[i].createdAt >= cutoff {
      assert vs[..i + 1][i] == vs[i];
    }
    if Young(vs[..i + 1], cutoff, v) {
      var j :| 0 <= j < i + 1 && vs[..i + 1][j].version == v && vs[..i + 1][j].createdAt >= cutoff;
      if j < i {
        assert vs[..i][j] == vs[..i + 1][j];
      }
    }
  }

  /** A loaded version is not greater than itself. */
  lemma GreaterBelow(s: seq<CompactVersion>, v: int)
    ensures Loaded(s, v) ==> Greater(s, v) < |s|
  {
    if Loaded(s, v) {
      var i :| 0 <= i < |s| && s[i].version == v;
      assert s == (s[..i] + [s[i]]) + s[i + 1..];
      GreaterAppend(s[..i] + [s[i]], s[i + 1..], v);
      GreaterAppend(s[..i], [s[i]], v);
      GreaterBound(s[..i], v);
      GreaterBound(s[i + 1..], v);
      assert [s[i]][..0] == [];
      assert Greater([s[i]], v) == 0;
    }
  }

  // ----- Deleting -----

  /** Keys of a list of candidates: to delete and deletable, or failing. */
  function Chosen(keys: seq<string>, pick: string -> bool): seq<string> {
    if keys == [] then []
    else
      var rest, last := Chosen(keys[..|keys| - 1], pick), keys[|keys| - 1];
      if pick(last) then rest + [last] else rest
  }

  function Outdated(vs: seq<CompactVersion>, keep: set<int>): seq<string> {
    if vs == [] then []
    else
      var rest, last := Outdated(vs[..|vs| - 1], keep), vs[|vs| - 1];
      if last.version in keep then rest else rest + [last.key]
  }

  function Survivors(vs: seq<CompactVersion>, keep: set<int>): seq<CompactVersion> {
    if vs == [] then []
    else
      var rest, last := Survivors(vs[..|vs| - 1], keep), vs[|vs| - 1];
      if last.version in keep then rest + [last] else rest
  }

  function OldOperations(ops: seq<CompactOperation>, cutoff: int): seq<string> {
    if ops == [] then []
    else
      var rest, last := OldOperations(ops[..|ops| - 1], cutoff), ops[|ops| - 1];
      if last.operatedAt >= cutoff then rest else rest + [last.key]
  }

  lemma {:induction false} ChosenPartition(keys: seq<string>, pick: string -> bool)
    ensures |Chosen(keys, pick)| + |Chosen(keys, x => !pick(x))| == |keys|
  {
    if keys != [] {
      ChosenPartition(keys[..|keys| - 1], pick);
    }
  }

  lemma {:induction false} OutdatedPartition(vs: seq<CompactVersion>, keep: set<int>)
    ensures |Survivors(vs, keep)| + |Outdated(vs, keep)| == |vs|
  {
    if vs != [] {
      OutdatedPartition(vs[..|vs| - 1], keep);
    }
  }

  function Recents(ops: seq<CompactOperation>, cutoff: int): seq<CompactOperation> {
    if ops == [] then []
    else
      var rest, last := Recents(ops[..|ops| - 1], cutoff), ops[|ops| - 1];
      if last.operatedAt >= cutoff then rest + [last] else rest
  }

  lemma {:induction false} OldPartition(ops: seq<CompactOperation>, cutoff: int)
    ensures |Recents(ops, cutoff)| + |OldOperations(ops, cutoff)| == |ops|
    ensures OldOperations(Recents(ops, cutoff), cutoff) == []
  {
    if ops != [] {
      OldPartition(ops[..|ops| - 1], cutoff);
      var rest, last := Recents(ops[..|ops| - 1], cutoff), ops[|ops| - 1];
      assert (rest + [last])[..|rest|] == rest;
    }
  }

  /** The delete loop over versions; a delete that fails is reported and skipped. */
  method DeleteVersions(vs: seq<CompactVersion>, keep: set<int>, deletable: string -> bool) returns (deleted: seq<string>, failed: seq<string>)
    ensures deleted == Chosen(Outdated(vs, keep), deletable)
    ensures failed == Chosen(Outdated(vs, keep), x => !deletable(x))
    ensures |vs| == |Survivors(vs, keep)| + |deleted| + |failed|
  {
    deleted, failed := [], [];
    ghost var cannot := (x: string) => !deletable(x);
    var i := 0;
    while i < |vs|
      invariant 0 <= i <= |vs|
      invariant deleted == Chosen(Outdated(vs[..i], keep), deletable)
      invariant failed == Chosen(Outdated(vs[..i], keep), cannot)
    {
      assert vs[..i + 1][..i] == vs[..i];
      if vs[i].version !in keep {
        ghost var out := Outdated(vs[..i], keep);
        assert (out + [vs[i].key])[..|out|] == out;
        if deletable(vs[i].key) {
          deleted := deleted + [vs[i].key];
        } else {
          failed := failed + [vs[i].key];
        }
      }
      i := i + 1;
    }
    assert vs[..i] == vs;
    OutdatedPartition(vs, keep);
    ChosenPartition(Outdated(vs, keep), deletable);
  }

  lemma ChosenSnoc(keys: seq<string>, key: string, pick: string -> bool)
    ensures Chosen(keys + [key], pick) == Chosen(keys, pick) + if pick(key) then [key] else []
  {
    assert (keys + [key])[..|keys|] == keys;
  }

  lemma OldSnoc(ops: seq<CompactOperation>, o: CompactOperation, cutoff: int)
    ensures OldOperations(ops + [o], cutoff) == OldOperations(ops, cutoff) + if o.operatedAt >= cutoff then [] else [o.key]
  {
    assert (ops + [o])[..|ops|] == ops;
  }

  method DeleteOperations(ops: seq<CompactOperation>, cutoff: int, deletable: string -> bool) returns (deleted: seq<string>, failed: seq<string>)
    ensures deleted == Chosen(OldOperations(ops, cutoff), deletable)
    ensures failed == Chosen(OldOperations(ops, cutoff), x => !deletable(x))
    ensures |ops| == |Recents(ops, cutoff)| + |deleted| + |failed|
  {
    deleted, failed := [], [];
    ghost var cannot := (x: string) => !deletable(x);
    ghost var seen, late := [], [];
    for i := 0 to |ops|
      invariant seen == ops[..i] && late == OldOperations(seen, cutoff)
      invariant deleted == Chosen(late, deletable) && failed == Chosen(late, cannot)
    {
      var o := ops[i];
      OldSnoc(seen, o, cutoff);
      ChosenSnoc(late, o.key, deletable);
      ChosenSnoc(late, o.key, cannot);
      seen := seen + [o];
      if o.operatedAt < cutoff {
        if deletable(o.key) {
          deleted := deleted + [o.key];
        } else {
          failed := failed + [o.key];
        }
        late := late + [o.key];
      }
    }
    assert seen == ops;
    OperationsPartition(ops, cutoff, deletable);
  }

  lemma OperationsPartition(ops: seq<CompactOperation>, cutoff: int, deletable: string -> bool)
    ensures |ops| == |Recents(ops, cutoff)| + |Chosen(OldOperations(ops, cutoff), deletable)|
                     + |Chosen(OldOperations(ops, cutoff), x => !deletable(x))|
  {
    OldPartition(ops, cutoff);
    ChosenPartition(OldOperations(ops, cutoff), deletable);
  }

  // ----- Exact and safe -----

  lemma {:induction false} SurvivorsMembers(vs: seq<CompactVersion>, keep: set<int>, x: CompactVersion)
    ensures x in Survivors(vs, keep) <==> x in vs && x.version in keep
  {
    if vs != [] {
      SurvivorsMembers(vs[..|vs| - 1], keep, x);
      assert vs == vs[..|vs| - 1] + [vs[|vs| - 1]];
    }
  }

  lemma {:induction false} SurvivorsFewerGreater(vs: seq<CompactVersion>, keep: set<int>, v: int)
    ensures Greater(Survivors(vs, keep), v) <= Greater(vs, v)
  {
    if vs != [] {
      var rest, last := Survivors(vs[..|vs| - 1], keep), vs[|vs| - 1];
      SurvivorsFewerGreater(vs[..|vs| - 1], keep, v);
      GreaterAppend(rest, [last], v);
      assert [last][..0] == [];
    }
  }

  /** Compacting again with the same policy and cutoff deletes nothing: every
      survivor is retained in its own right among the survivors. */
  lemma SecondRunDeletesNothing(using: int, unpublished: int, vs: seq<CompactVersion>, keepCount: int, cutoff: int, keep: set<int>, x: CompactVersion)
    requires forall v :: v in keep <==> Retained(using, unpublished, vs, keepCount, cutoff, v)
    requires x in Survivors(vs, keep)
    ensures Retained(using, unpublished, Survivors(vs, keep), keepCount, cutoff, x.version)
  {
    var left := Survivors(vs, keep);
    SurvivorsMembers(vs, keep, x);
    var i :| 0 <= i < |left| && left[i] == x;
    if Young(vs, cutoff, x.version) {
      var j :| 0 <= j < |vs| && vs[j].version == x.version && vs[j].createdAt >= cutoff;
      SurvivorsMembers(vs, keep, vs[j]);
      var k :| 0 <= k < |left| && left[k] == vs[j];
      assert Young(left, cutoff, x.version);
    } else if !Pinned(using, unpublished, x.version) {
      SurvivorsFewerGreater(vs, keep, x.version);
      assert Loaded(left, x.version);
    }
  }

  // ----- The whole operation -----

  const SECOND: int := 1_000_000_000

  datatype Policy = Policy(keepCount: int, keepVersionSeconds: int, keepOperationSeconds: int, pageSize: int)

  predicate IsInt64(x: int) {
    -MAX_INT64 - 1 <= x <= MAX_INT64
  }

  /** The directories of one element as the operation finds them. */
  datatype Directories = Directories(root: string, kids: seq<Child>, opDir: string, opKids: seq<Child>, decode: Child -> Option<int>)

  /** CompactElementHistoryResp, with the keys behind its counts. */
  datatype Response = Response(scannedVersions: nat, scannedOperations: nat,
                               deletedVersions: seq<string>, deletedOperations: seq<string>, failedKeys: seq<string>)

  function VersionsIn(d: Directories): seq<CompactVersion> {
    Parsed(From(d.kids, "v"), Reader(d.root))
  }

  function OperationsIn(d: Directories): seq<CompactOperation> {
    Parsed(From(d.opKids, ""), OperationReader(d.opDir, d.decode))
  }

  ghost predicate KeepsExactly(keep: set<int>, using: int, unpublished: int, vs: seq<CompactVersion>, keepCount: int, cutoff: int) {
    forall v :: v in keep <==> Retained(using, unpublished, vs, keepCount, cutoff, v)
  }

  /** Which of the reads succeed: the metadata record, and all pages of the version
      and of the operations directory. */
  datatype Reads = Reads(metadata: bool, versions: bool, operations: bool)

  /** compactElementHistory after its argument checks: read the metadata, load both
      directories, compute the cutoffs and the retained set, delete what is left
      over. A failed read ends it before any delete; otherwise every scanned entry
      is retained, deleted or reported as failed. */
  method CompactElementHistory(read: Reads, d: Directories, using: int, unpublished: int, policy: Policy, now: int, nowNano: int,
                               deletable: string -> bool)
    returns (r: Option<Response>, keep: set<int>)
    requires InCursorOrder(d.kids) && InCursorOrder(d.opKids)
    requires 0 <= now <= MAX_INT64 && 0 <= nowNano <= MAX_INT64
    requires IsInt64(policy.keepVersionSeconds) && IsInt64(policy.keepOperationSeconds)
    ensures r.Some? <==> read == Reads(true, true, true)
    ensures r.Some? ==> KeepsExactly(keep, using, unpublished, VersionsIn(d), policy.keepCount, SafeRetentionCutoff(now, policy.keepVersionSeconds, 1))
    ensures r.Some? ==> Compacts(d, r.value, keep, SafeRetentionCutoff(nowNano, policy.keepOperationSeconds, SECOND), deletable)
  {
    keep := {};
    if !read.metadata {
      return None, keep;
    }
    var pageSize: nat := if policy.pageSize <= 0 then 100 else policy.pageSize;
    if !read.versions {
      return None, keep;
    }
    var versions, lostVersions := LoadCompactVersions(d.kids, d.root, pageSize);
    if !read.operations {
      return None, keep;
    }
    var operations, lostOperations := LoadCompactOperations(d.opKids, d.opDir, d.decode, pageSize);
    keep := RetainedVersionSet(using, unpublished, versions, policy.keepCount, SafeRetentionCutoff(now, policy.keepVersionSeconds, 1));
    var deletedVersions, failedVersions := DeleteVersions(versions, keep, deletable);
    var deletedOperations, failedOperations :=
      DeleteOperations(operations, SafeRetentionCutoff(nowNano, policy.keepOperationSeconds, SECOND), deletable);
    ParsedPartition(From(d.kids, "v"), Reader(d.root), d.root);
    ParsedPartition(From(d.opKids, ""), OperationReader(d.opDir, d.decode), d.opDir);
    r := Some(Response(|versions| + |lostVersions|, |operations| + |lostOperations|, deletedVersions, deletedOperations,
                       lostVersions + lostOperations + failedVersions + failedOperations));
  }

  /** What the operation deletes, and that it accounts for every scanned entry. */
  ghost predicate Compacts(d: Directories, r: Response, keep: set<int>, opCutoff: int, deletable: string -> bool) {
    && r.deletedVersions == Chosen(Outdated(VersionsIn(d), keep), deletable)
    && r.deletedOperations == Chosen(OldOperations(OperationsIn(d), opCutoff), deletable)
    && multiset(r.failedKeys) == multiset(Unparsed(From(d.kids, "v"), Reader(d.root), d.root))
                                 + multiset(Unparsed(From(d.opKids, ""), OperationReader(d.opDir, d.decode), d.opDir))
                                 + multiset(Chosen(Outdated(VersionsIn(d), keep), x => !deletable(x)))
                                 + multiset(Chosen(OldOperations(OperationsIn(d), opCutoff), x => !deletable(x)))
    && r.scannedVersions == |From(d.kids, "v")| && r.scannedOperations == |From(d.opKids, "")|
    && r.scannedVersions + r.scannedOperations ==
       |Survivors(VersionsIn(d), keep)| + |Recents(OperationsIn(d), opCutoff)|
       + |r.deletedVersions| + |r.deletedOperations| + |r.failedKeys|
  }
}
