/**
 The keyset walk over a workspace's chunks: page after page, each starting behind the last id of the
 page before, over a table that other writers change between the pages.

 Ids are compared only by their order in the database's collation, so an id is modelled by its rank
 among the finitely many ids that ever occur in a run.
 */
module ChunkWalk {
  import opened Basics

  type ChunkId = nat

  datatype Chunk = Chunk(tenant: string, workspace: string, sourceId: string, embeddingModel: Option<string>)

  type Table = map<ChunkId, Chunk>

  datatype Scope = Scope(tenant: string, workspace: string)

  predicate Matches(table: Table, scope: Scope, id: ChunkId, afterId: Option<ChunkId>) {
    && id in table && table[id].tenant == scope.tenant && table[id].workspace == scope.workspace
    && (afterId.Some? ==> id > afterId.value)
  }

  /** The ids a query matches. */
  function Matching(table: Table, scope: Scope, afterId: Option<ChunkId>): set<ChunkId> {
    set id | id in table && Matches(table, scope, id, afterId)
  }

  ghost predicate Ascending(ids: seq<ChunkId>) {
    forall i, j :: 0 <= i < j < |ids| ==> ids[i] < ids[j]
  }

  /** `page` is the `limit` smallest of `ids`, in order. */
  ghost predicate IsPage(page: seq<ChunkId>, ids: set<ChunkId>, limit: nat) {
    && Ascending(page) && |page| == Min(limit, |ids|)
    && (forall id :: id in page ==> id in ids)
    && (forall id, p :: id in ids && id !in page && p in page ==> p < id)
  }

  class ChunkRepository {
    var chunks: Table

    /** `ORDER BY id LIMIT limit`. */
    method ListForWorkspace(scope: Scope, afterId: Option<ChunkId>, limit: nat) returns (page: seq<ChunkId>)
      ensures IsPage(page, Matching(chunks, scope, afterId), limit)
      ensures forall id :: id in page ==>
                && id in chunks && chunks[id].tenant == scope.tenant && chunks[id].workspace == scope.workspace
                && (afterId.Some? ==> id > afterId.value)
      ensures forall id :: id in chunks && id !in page && (afterId.Some? ==> id > afterId.value) ==>
                chunks[id].tenant == scope.tenant && chunks[id].workspace == scope.workspace ==>
                  |page| == limit && forall p :: p in page ==> p < id
    {
      var all := Matching(chunks, scope, afterId);
      var rest := all;
      page := [];
      while |page| < limit && rest != {}
        invariant rest <= all && |page| + |rest| == |all| && |page| <= limit
        invariant Ascending(page)
        invariant forall id :: id in all <==> id in rest || id in page
        invariant forall id :: id in rest ==> id !in page
        invariant forall id, p :: id in rest && p in page ==> p < id
        decreases rest
      {
        var least := Least(rest);
        AscendingConcat(page, [least]);
        page, rest := page + [least], rest - {least};
      }
    }

    method Least(ids: set<ChunkId>) returns (least: ChunkId)
      requires ids != {}
      ensures least in ids && forall id :: id in ids ==> least <= id
    {
      var rest := ids;
      least :| least in rest;
      rest := rest - {least};
      while rest != {}
        invariant rest <= ids && least in ids
        invariant forall id :: id in ids ==> id in rest || least <= id
        decreases rest
      {
        var id :| id in rest;
        least := if id < least then id else least;
        rest := rest - {id};
      }
    }

    method CountForWorkspace(scope: Scope) returns (count: nat)
      ensures count == |Matching(chunks, scope, None)|
    {
      count := |Matching(chunks, scope, None)|;
    }

    /** Delete the chunks of a source, insert the new ones; a taken id refuses the whole transaction. */
    method ReplaceForSource(sourceId: string, rows: Table) returns (inserted: Option<nat>)
      modifies this
      ensures inserted.Some? <==> forall id :: id in rows && id in old(chunks) ==> old(chunks)[id].sourceId == sourceId
      ensures inserted.Some? ==> inserted.value == |rows| && chunks == ReplaceSource(old(chunks), sourceId, rows)
      ensures inserted.None? ==> chunks == old(chunks)
      ensures inserted.Some? ==>
                && (forall id :: id in rows ==> id in chunks && chunks[id] == rows[id])
                && (forall id :: id in old(chunks) && old(chunks)[id].sourceId != sourceId ==>
                      id in chunks && chunks[id] == old(chunks)[id])
                && (forall id :: id in chunks ==> id in rows || (id in old(chunks) && old(chunks)[id].sourceId != sourceId))
    {
      var left := map id | id in chunks && chunks[id].sourceId != sourceId :: chunks[id];
      if exists id :: id in rows && id in left {
        return None;
      }
      chunks := left + rows;
      inserted := Some(|rows|);
    }
  }

  function ReplaceSource(table: Table, sourceId: string, rows: Table): Table {
    (map id | id in table && table[id].sourceId != sourceId :: table[id]) + rows
  }

  // ---------------------------------------------------------------------------------------------
  // The walk
  // ---------------------------------------------------------------------------------------------

  /** The last id of a page, or the cursor if the page is empty. */
  function Cursor(cursor: Option<ChunkId>, page: seq<ChunkId>): Option<ChunkId> {
    if |page| == 0 then cursor else Some(page[|page| - 1])
  }

  /** Page `k` is what the query answers on the table as it is at that moment. */
  ghost predicate Walk(tables: seq<Table>, scope: Scope, from: Option<ChunkId>, limit: nat, pages: seq<seq<ChunkId>>)
    decreases |pages|
  {
    && |pages| == |tables|
    && (|pages| == 0
        || (&& IsPage(pages[0], Matching(tables[0], scope, from), limit)
            && Walk(tables[1..], scope, Cursor(from, pages[0]), limit, pages[1..])))
  }

  function Visited(pages: seq<seq<ChunkId>>): seq<ChunkId> {
    if |pages| == 0 then [] else pages[0] + Visited(pages[1..])
  }

  /** The walk has reached the end: its last page was not full. */
  predicate Ended(pages: seq<seq<ChunkId>>, limit: nat) {
    |pages| > 0 && |pages[|pages| - 1]| < limit
  }

  /** Everything visited lies behind the start, in strictly ascending order, each id once. */
  lemma {:induction false} VisitsAscend(tables: seq<Table>, scope: Scope, from: Option<ChunkId>, limit: nat, pages: seq<seq<ChunkId>>)
    requires Walk(tables, scope, from, limit, pages)
    ensures Ascending(Visited(pages))
    ensures from.Some? ==> forall id :: id in Visited(pages) ==> id > from.value
    decreases |pages|
  {
    if |pages| > 0 {
      VisitsAscend(tables[1..], scope, Cursor(from, pages[0]), limit, pages[1..]);
      var page, rest := pages[0], Visited(pages[1..]);
      forall p | p in page && from.Some? ensures p > from.value {
        assert p in Matching(tables[0], scope, from);
      }
      if |page| > 0 {
        var last := page[|page| - 1];
        forall i | 0 <= i < |page| ensures page[i] <= last { }
        assert last in page && forall id :: id in rest ==> id > last;
        AscendingConcat(page, rest);
      }
    }
  }

  lemma AscendingConcat(a: seq<ChunkId>, b: seq<ChunkId>)
    requires Ascending(a) && Ascending(b)
    requires forall x, y :: x in a && y in b ==> x < y
    ensures Ascending(a + b)
  {
    forall i, j | 0 <= i < j < |a + b| ensures (a + b)[i] < (a + b)[j] {
      if i < |a| && |a| <= j { assert a[i] in a && b[j - |a|] in b; }
    }
  }

  /** A chunk behind the start that is there at every page read is visited before the walk ends. */
  lemma {:induction false} StableChunksVisited(tables: seq<Table>, scope: Scope, from: Option<ChunkId>, limit: nat,
                                              pages: seq<seq<ChunkId>>, id: ChunkId)
    requires Walk(tables, scope, from, limit, pages) && Ended(pages, limit)
    requires forall k :: 0 <= k < |tables| ==> Matches(tables[k], scope, id, from)
    ensures id in Visited(pages)
    decreases |pages|
  {
    var page := pages[0];
    assert id in Matching(tables[0], scope, from);
    if id !in page {
      assert forall p :: p in page ==> p < id;
      if |pages| == 1 {
        FullOrAll(page, Matching(tables[0], scope, from), limit);
      } else {
        var next := Cursor(from, page);
        assert |page| > 0 ==> page[|page| - 1] in page;
        forall k | 0 <= k < |tables[1..]| ensures Matches(tables[1..][k], scope, id, next) {
          assert Matches(tables[k + 1], scope, id, from);
        }
        assert pages[1..][|pages[1..]| - 1] == pages[|pages| - 1];
        StableChunksVisited(tables[1..], scope, next, limit, pages[1..], id);
      }
    }
  }

  function AsSet(ids: seq<ChunkId>): set<ChunkId> {
    set id | id in ids
  }

  lemma {:induction false} AscendingHasNoRepeats(ids: seq<ChunkId>)
    requires Ascending(ids)
    ensures |AsSet(ids)| == |ids|
  {
    if |ids| > 0 {
      var init, last := ids[..|ids| - 1], ids[|ids| - 1];
      AscendingHasNoRepeats(init);
      assert AsSet(ids) == AsSet(init) + {last};
      assert last !in AsSet(init);
    }
  }

  /** A page that is not full holds every match. */
  lemma FullOrAll(page: seq<ChunkId>, ids: set<ChunkId>, limit: nat)
    requires IsPage(page, ids, limit) && |page| < limit
    ensures forall id :: id in ids ==> id in page
  {
    AscendingHasNoRepeats(page);
    SubsetIsNoLarger(AsSet(page), ids);
  }

  /** What lies behind a page is what the page left out. */
  lemma BehindPage(table: Table, scope: Scope, from: Option<ChunkId>, limit: nat, page: seq<ChunkId>)
    requires IsPage(page, Matching(table, scope, from), limit)
    ensures Matching(table, scope, Cursor(from, page)) == Matching(table, scope, from) - AsSet(page)
    ensures |Matching(table, scope, Cursor(from, page))| == |Matching(table, scope, from)| - |page|
  {
    var all, behind := Matching(table, scope, from), Matching(table, scope, Cursor(from, page));
    AscendingHasNoRepeats(page);
    if |page| == 0 {
      assert behind == all - AsSet(page);
    } else {
      var last := page[|page| - 1];
      assert last in page;
      forall id | id in page ensures id <= last && id in all {
        var i :| 0 <= i < |page| && page[i] == id;
      }
      assert behind == all - AsSet(page);
    }
    assert AsSet(page) <= all;
  }

  /** Two pages in a row on one table are one longer page. */
  lemma PagesConcat(table: Table, scope: Scope, from: Option<ChunkId>, a: nat, first: seq<ChunkId>, b: nat, second: seq<ChunkId>)
    requires IsPage(first, Matching(table, scope, from), a)
    requires IsPage(second, Matching(table, scope, Cursor(from, first)), b)
    ensures IsPage(first + second, Matching(table, scope, from), a + b)
  {
    BehindPage(table, scope, from, a, first);
    var all, behind := Matching(table, scope, from), Matching(table, scope, Cursor(from, first));
    forall x, y | x in first && y in second ensures x < y {
      assert y in behind;
    }
    AscendingConcat(first, second);
    forall id, p | id in all && id !in first + second && p in first + second ensures p < id {
      assert id in behind;
    }
  }

  /**
   On a table that does not change, n pages are together the first n * limit chunks; the walk has
   therefore seen everything exactly when it has read ceil(count / limit) pages, and the next one is
   empty.
   */
  lemma {:induction false} StableWalk(tables: seq<Table>, table: Table, scope: Scope, from: Option<ChunkId>, limit: nat,
                                     pages: seq<seq<ChunkId>>)
    requires Walk(tables, scope, from, limit, pages)
    requires forall k :: 0 <= k < |tables| ==> tables[k] == table
    ensures IsPage(Visited(pages), Matching(table, scope, from), |pages| * limit)
    decreases |pages|
  {
    if |pages| > 0 {
      var seen := |pages[1..]| * limit;
      assert seen + limit == |pages| * limit;
      assert tables[0] == table;
      StableWalk(tables[1..], table, scope, Cursor(from, pages[0]), limit, pages[1..]);
      PagesConcat(table, scope, from, limit, pages[0], seen, Visited(pages[1..]));
    }
  }

  lemma StableWalkIsFullScanIff(tables: seq<Table>, table: Table, scope: Scope, from: Option<ChunkId>, limit: nat,
                                pages: seq<seq<ChunkId>>, count: nat)
    requires Walk(tables, scope, from, limit, pages) && limit > 0
    requires forall k :: 0 <= k < |tables| ==> tables[k] == table
    requires count == |Matching(table, scope, from)|
    ensures IsPage(Visited(pages), Matching(table, scope, from), count) <==> |pages| >= (count + limit - 1) / limit
  {
    StableWalk(tables, table, scope, from, limit, pages);
    CeilingBound(count, limit, |pages|);
  }

  function CursorAfter(from: Option<ChunkId>, pages: seq<seq<ChunkId>>): Option<ChunkId>
    decreases |pages|
  {
    if |pages| == 0 then from else CursorAfter(Cursor(from, pages[0]), pages[1..])
  }

  /** A walk stopped anywhere and restarted from its saved cursor is the same walk. */
  lemma {:induction false} RestartContinues(tables: seq<Table>, scope: Scope, from: Option<ChunkId>, limit: nat,
                                           pages: seq<seq<ChunkId>>, n: nat)
    requires |pages| == |tables| && n <= |pages|
    ensures Walk(tables, scope, from, limit, pages)
            <==> Walk(tables[..n], scope, from, limit, pages[..n])
                 && Walk(tables[n..], scope, CursorAfter(from, pages[..n]), limit, pages[n..])
    ensures Visited(pages) == Visited(pages[..n]) + Visited(pages[n..])
    decreases |pages|
  {
    if n == 0 {
      assert tables[0..] == tables && pages[0..] == pages;
    } else {
      RestartContinues(tables[1..], scope, Cursor(from, pages[0]), limit, pages[1..], n - 1);
      assert tables[..n][1..] == tables[1..][..n - 1] && pages[..n][1..] == pages[1..][..n - 1];
      assert tables[n..] == tables[1..][n - 1..] && pages[n..] == pages[1..][n - 1..];
    }
  }

  /** The walk without its last page, and what that page adds. */
  lemma LastPage(tables: seq<Table>, table: Table, scope: Scope, from: Option<ChunkId>, limit: nat,
                 pages: seq<seq<ChunkId>>, n: nat)
    requires Walk(tables, scope, from, limit, pages) && |pages| == n + 1
    requires forall k :: 0 <= k < |tables| ==> tables[k] == table
    ensures |Visited(pages)| == |Visited(pages[..n])| + |pages[n]|
    ensures IsPage(Visited(pages[..n]), Matching(table, scope, from), n * limit)
  {
    RestartContinues(tables, scope, from, limit, pages, n);
    StableWalk(tables[..n], table, scope, from, limit, pages[..n]);
    assert Visited(pages[n..]) == pages[n] + Visited(pages[n..][1..]);
  }

  /** Up to `before` ids and then `limit` more: the last page is short if they pass the count. */
  lemma ShortPageIff(seen: nat, size: nat, before: nat, limit: nat, count: nat)
    requires limit > 0 && seen == Min(before, count) && seen + size == Min(before + limit, count)
    ensures size < limit <==> before + limit > count
  {
  }

  lemma NextMultiple(n: nat, limit: nat)
    ensures (n + 1) * limit == n * limit + limit
  {
  }

  lemma LastPageIsShortIff(tables: seq<Table>, table: Table, scope: Scope, from: Option<ChunkId>, limit: nat,
                           pages: seq<seq<ChunkId>>, n: nat)
    requires Walk(tables, scope, from, limit, pages) && limit > 0 && |pages| == n + 1
    requires forall k :: 0 <= k < |tables| ==> tables[k] == table
    ensures |pages[n]| < limit <==> (n + 1) * limit > |Matching(table, scope, from)|
  {
    StableWalk(tables, table, scope, from, limit, pages);
    LastPage(tables, table, scope, from, limit, pages, n);
    NextMultiple(n, limit);
    ShortPageIff(|Visited(pages[..n])|, |pages[n]|, n * limit, limit, |Matching(table, scope, from)|);
  }

  /** Over a table that does not change, the walk ends with page count / limit + 1 and not before. */
  lemma StableWalkEndsIff(tables: seq<Table>, table: Table, scope: Scope, from: Option<ChunkId>, limit: nat,
                          pages: seq<seq<ChunkId>>, count: nat)
    requires Walk(tables, scope, from, limit, pages) && limit > 0 && |pages| > 0
    requires forall k :: 0 <= k < |tables| ==> tables[k] == table
    requires count == |Matching(table, scope, from)|
    ensures Ended(pages, limit) <==> |pages| >= count / limit + 1
  {
    LastPageIsShortIff(tables, table, scope, from, limit, pages, |pages| - 1);
    FloorBound(count, limit, |pages|);
  }

  /** A finished walk over such a table has visited exactly what `CountForWorkspace` counts. */
  lemma EndedWalkVisitsCount(tables: seq<Table>, table: Table, scope: Scope, limit: nat, pages: seq<seq<ChunkId>>)
    requires Walk(tables, scope, None, limit, pages) && limit > 0 && Ended(pages, limit)
    requires forall k :: 0 <= k < |tables| ==> tables[k] == table
    ensures |Visited(pages)| == |Matching(table, scope, None)|
    ensures AsSet(Visited(pages)) == Matching(table, scope, None)
  {
    var all := Matching(table, scope, None);
    StableWalk(tables, table, scope, None, limit, pages);
    LastPageIsShortIff(tables, table, scope, None, limit, pages, |pages| - 1);
    AscendingHasNoRepeats(Visited(pages));
    SubsetIsNoLarger(AsSet(Visited(pages)), all);
  }
}
