/** Filtered search layered over Range pages (coordinator_kv_r.go, GetElements
    and GetApps). The case-folded substring test is the parameter `matches`. */
module Search {
  import opened Paging

  datatype SearchPage = SearchPage(keys: seq<string>, hasMore: bool, nextSeek: string)

  /** Names of the matching entries, in order. */
  function Hits(items: seq<Child>, matches: Child -> bool): seq<string> {
    if items == [] then []
    else if matches(items[0]) then [items[0].name] + Hits(items[1..], matches)
    else Hits(items[1..], matches)
  }

  /** The matches from `seek` on. */
  function Remaining(kids: seq<Child>, matches: Child -> bool, seek: string): seq<string> {
    Hits(From(kids, seek), matches)
  }

  /** The reference: filter the whole directory first, then cut one page. */
  function FilterThenPage(kids: seq<Child>, matches: Child -> bool, seek: string, limit: nat): SearchPage {
    CutPage(Remaining(kids, matches, seek), limit)
  }

  function CutPage(hits: seq<string>, limit: nat): SearchPage {
    if |hits| <= limit then SearchPage(hits, false, "")
    else SearchPage(hits[..limit], true, hits[limit])
  }

  lemma {:induction false} HitsAppend(a: seq<Child>, b: seq<Child>, matches: Child -> bool)
    ensures Hits(a + b, matches) == Hits(a, matches) + Hits(b, matches)
  {
    if a == [] {
      assert a + b == b;
    } else {
      HitsAppend(a[1..], b, matches);
      assert (a + b)[0] == a[0] && (a + b)[1..] == a[1..] + b;
      assert [a[0].name] + (Hits(a[1..], matches) + Hits(b, matches)) == ([a[0].name] + Hits(a[1..], matches)) + Hits(b, matches);
    }
  }

  lemma HitsStep(items: seq<Child>, j: nat, matches: Child -> bool)
    requires j < |items|
    ensures Hits(items[..j + 1], matches)
         == if matches(items[j]) then Hits(items[..j], matches) + [items[j].name] else Hits(items[..j], matches)
  {
    assert items[..j + 1] == items[..j] + [items[j]];
    HitsAppend(items[..j], [items[j]], matches);
    assert Hits([items[j]], matches) == if matches(items[j]) then [items[j].name] else [];
  }

  /** The inner loop: collect matches from one page and stop one past the limit. */
  method CollectPage(items: seq<Child>, matches: Child -> bool, before: seq<string>, limit: nat) returns (matched: seq<string>)
    requires |before| <= limit
    ensures var all := before + Hits(items, matches);
            matched == if |all| <= limit then all else all[..limit + 1]
  {
    matched := before;
    var j := 0;
    while j < |items|
      invariant 0 <= j <= |items|
      invariant matched == before + Hits(items[..j], matches)
      invariant |matched| <= limit
    {
      HitsStep(items, j, matches);
      if matches(items[j]) {
        matched := matched + [items[j].name];
        if |matched| > limit {
          assert items == items[..j + 1] + items[j + 1..];
          HitsAppend(items[..j + 1], items[j + 1..], matches);
          return;
        }
      }
      j := j + 1;
    }
    assert items[..j] == items;
  }

  lemma CutEarly(before: seq<string>, page: seq<string>, rest: seq<string>, all: seq<string>, limit: nat)
    requires |before + page| > limit && (before + page) + rest == all
    ensures var m := (before + page)[..limit + 1];
            CutPage(all, limit) == SearchPage(m[..limit], true, m[limit])
  {
    assert (before + page)[..limit + 1][..limit] == all[..limit];
  }

  /** The search loop gives exactly the filtered page, and terminates because
      each Range page advances. */
  method GetElements(kids: seq<Child>, matches: Child -> bool, seek: string, limit: nat) returns (r: SearchPage)
    requires InCursorOrder(kids) && limit >= 1
    ensures r == FilterThenPage(kids, matches, seek, limit)
  {
    ghost var all := Remaining(kids, matches, seek);
    var matched: seq<string> := [];
    var nextSeek := seek;
    while |matched| <= limit
      invariant |matched| <= limit
      invariant all == matched + Remaining(kids, matches, nextSeek)
      decreases |kids| - SeekIndex(kids, nextSeek)
    {
      var page := FetchPage(kids, nextSeek, limit);
      ghost var later := if page.hasMore then From(kids, page.nextSeekKey) else [];
      HitsAppend(page.items, later, matches);
      ghost var before, found, rest := matched, Hits(page.items, matches), Hits(later, matches);
      Advance(before, Remaining(kids, matches, nextSeek), found, rest, all);
      matched := CollectPage(page.items, matches, matched, limit);
      if |matched| > limit {
        CutEarly(before, found, rest, all, limit);
        r := SearchPage(matched[..limit], true, matched[limit]);
        return;
      }
      if !page.hasMore {
        r := SearchPage(matched, false, "");
        return;
      }
      nextSeek := page.nextSeekKey;
    }
  }

  // ----- Following NextSeek -----

  /** A matching live entry sits at one place in the listing, and the matches
      from there on are the matches from it on. */
  lemma {:induction false} HitPosition(kids: seq<Child>, matches: Child -> bool, i: nat, h: nat) returns (j: nat)
    requires InCursorOrder(kids) && i <= |kids|
    requires h < |Hits(Live(kids[i..]), matches)|
    ensures i <= j < |kids| && kids[j].name == Hits(Live(kids[i..]), matches)[h]
    ensures Hits(Live(kids[j..]), matches) == Hits(Live(kids[i..]), matches)[h..]
    decreases |kids| - i
  {
    assert i < |kids|;
    assert kids[i..][0] == kids[i] && kids[i..][1..] == kids[i + 1..];
    if kids[i].dead {
      j := HitPosition(kids, matches, i + 1, h);
    } else {
      assert Live(kids[i..])[1..] == Live(kids[i + 1..]);
      if !matches(kids[i]) {
        j := HitPosition(kids, matches, i + 1, h);
      } else if h == 0 {
        j := i;
      } else {
        j := HitPosition(kids, matches, i + 1, h - 1);
      }
    }
  }

  /** The continuation of a full page is the rest of the filtered list: nothing
      is lost or repeated at the page edge. */
  lemma NextSeekContinues(kids: seq<Child>, matches: Child -> bool, seek: string, limit: nat)
    requires InCursorOrder(kids) && limit >= 1
    requires FilterThenPage(kids, matches, seek, limit).hasMore
    ensures var i, i' := SeekIndex(kids, seek), SeekIndex(kids, FilterThenPage(kids, matches, seek, limit).nextSeek);
            && i < i'
            && Remaining(kids, matches, FilterThenPage(kids, matches, seek, limit).nextSeek) == Remaining(kids, matches, seek)[limit..]
  {
    var i := SeekIndex(kids, seek);
    var j := HitPosition(kids, matches, i, limit);
    SeekFindsName(kids, j);
    assert |Hits(Live(kids[j..]), matches)| < |Hits(Live(kids[i..]), matches)|;
  }

  /** The keys of all pages a caller gets by following NextSeek. */
  ghost function SearchChain(kids: seq<Child>, matches: Child -> bool, seek: string, limit: nat): seq<seq<string>>
    requires InCursorOrder(kids) && limit >= 1
    decreases |kids| - SeekIndex(kids, seek)
  {
    var p := FilterThenPage(kids, matches, seek, limit);
    if !p.hasMore then [p.keys]
    else
      NextSeekContinues(kids, matches, seek, limit);
      [p.keys] + SearchChain(kids, matches, p.nextSeek, limit)
  }

  ghost function Flatten(pages: seq<seq<string>>): seq<string> {
    if pages == [] then [] else pages[0] + Flatten(pages[1..])
  }

  lemma FlattenCons(head: seq<string>, pages: seq<seq<string>>)
    ensures Flatten([head] + pages) == head + Flatten(pages)
  {
    assert ([head] + pages)[1..] == pages;
  }

  /** Every page but the last holds exactly `limit` keys. */
  ghost predicate FullButLast(pages: seq<seq<string>>, limit: nat) {
    && |pages| >= 1
    && |pages[|pages| - 1]| <= limit
    && forall i :: 0 <= i < |pages| - 1 ==> |pages[i]| == limit
  }

  lemma FullButLastCons(head: seq<string>, pages: seq<seq<string>>, limit: nat)
    requires |head| == limit && FullButLast(pages, limit)
    ensures FullButLast([head] + pages, limit)
  {
  }

  lemma CutInTwo(hits: seq<string>, limit: nat)
    requires limit <= |hits|
    ensures hits == hits[..limit] + hits[limit..]
  {
  }

  /** Page by page the search yields exactly the matching keys, in order. */
  lemma {:induction false} SearchEnumerates(kids: seq<Child>, matches: Child -> bool, seek: string, limit: nat)
    requires InCursorOrder(kids) && limit >= 1
    ensures var pages := SearchChain(kids, matches, seek, limit);
            Flatten(pages) == Remaining(kids, matches, seek) && FullButLast(pages, limit)
    decreases |kids| - SeekIndex(kids, seek)
  {
    var p := FilterThenPage(kids, matches, seek, limit);
    if p.hasMore {
      NextSeekContinues(kids, matches, seek, limit);
      SearchEnumerates(kids, matches, p.nextSeek, limit);
      var rest := SearchChain(kids, matches, p.nextSeek, limit);
      FlattenCons(p.keys, rest);
      FullButLastCons(p.keys, rest, limit);
      CutInTwo(Remaining(kids, matches, seek), limit);
    } else {
      FlattenCons(p.keys, []);
      assert [p.keys] + [] == [p.keys];
    }
  }
}
