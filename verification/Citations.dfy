/**
 Citations: which knowledge item a chunk is shown under, and which sources an item stands on.  Both
 look only at the current version of an item.
 */
module Citations {
  import opened Basics

  datatype Item = Item(currentVersion: nat, updatedAt: int)

  datatype Version = Version(itemId: string, version: nat, status: string, domain: string, jurisdiction: string, tags: seq<string>)

  datatype Citation = Citation(versionId: string, chunkId: Option<string>, sourceId: string, tenant: string, workspace: string)

  datatype Db = Db(items: map<string, Item>, versions: map<string, Version>, citations: map<string, Citation>)

  datatype KnowledgeLink = KnowledgeLink(itemId: string, version: nat, status: string, domain: string, jurisdiction: string, tags: seq<string>)

  /** One row of the join, with the id of the citation it comes from. */
  datatype JoinRow = JoinRow(citationId: string, chunkId: string, link: KnowledgeLink, updatedAt: int)

  /** The citation belongs to the current version of an item. */
  predicate Live(db: Db, citationId: string) {
    && citationId in db.citations
    && (var versionId := db.citations[citationId].versionId;
        && versionId in db.versions
        && db.versions[versionId].itemId in db.items
        && db.versions[versionId].version == db.items[db.versions[versionId].itemId].currentVersion)
  }

  function VersionOf(db: Db, citationId: string): Version
    requires Live(db, citationId)
  {
    db.versions[db.citations[citationId].versionId]
  }

  function LinkOf(v: Version): KnowledgeLink {
    KnowledgeLink(v.itemId, v.version, v.status, v.domain, v.jurisdiction, v.tags)
  }

  function UpdatedAt(db: Db, citationId: string): int
    requires Live(db, citationId)
  {
    db.items[VersionOf(db, citationId).itemId].updatedAt
  }

  /** The citation is live and of this chunk. */
  predicate Cites(db: Db, citationId: string, chunkId: string) {
    Live(db, citationId) && db.citations[citationId].chunkId == Some(chunkId)
  }

  /** The citations a lookup asks about. */
  function Wanted(db: Db, chunkIds: seq<string>): set<string> {
    set c | c in db.citations && Live(db, c) && db.citations[c].chunkId.Some? && db.citations[c].chunkId.value in chunkIds
  }

  /** A live citation joined to its version and item. */
  function RowFor(db: Db, citationId: string): JoinRow
    requires Live(db, citationId) && db.citations[citationId].chunkId.Some?
  {
    JoinRow(citationId, db.citations[citationId].chunkId.value, LinkOf(VersionOf(db, citationId)), UpdatedAt(db, citationId))
  }

  ghost predicate Descending(rows: seq<JoinRow>) {
    forall i, j :: 0 <= i < j < |rows| ==> rows[i].updatedAt >= rows[j].updatedAt
  }

  ghost predicate OncePerCitation(rows: seq<JoinRow>) {
    forall i, j :: 0 <= i < j < |rows| ==> rows[i].citationId != rows[j].citationId
  }

  /** The rows are those of these citations, each once, the most recently updated item first; ties in any order. */
  ghost predicate Answers(db: Db, citations: set<string>, rows: seq<JoinRow>)
    requires forall c :: c in citations ==> Live(db, c) && db.citations[c].chunkId.Some?
  {
    && (forall row :: row in rows ==> row.citationId in citations && row == RowFor(db, row.citationId))
    && (forall c :: c in citations ==> RowFor(db, c) in rows)
    && OncePerCitation(rows)
    && Descending(rows)
  }

  class KnowledgeRepository {
    var db: Db

    /** The SELECT: collect the join, keeping it in order. */
    method SelectLinks(chunkIds: seq<string>) returns (rows: seq<JoinRow>)
      ensures Answers(db, Wanted(db, chunkIds), rows)
    {
      rows := [];
      var todo := Wanted(db, chunkIds);
      while todo != {}
        invariant todo <= Wanted(db, chunkIds) && Answers(db, Wanted(db, chunkIds) - todo, rows)
        decreases todo
      {
        var c :| c in todo;
        InsertKeeps(rows, RowFor(db, c));
        InsertKeepsOnce(rows, RowFor(db, c));
        rows := InsertRow(rows, RowFor(db, c));
        todo := todo - {c};
      }
      assert Wanted(db, chunkIds) - {} == Wanted(db, chunkIds);
    }

    method LookupPublishedCitationsForChunks(chunkIds: seq<string>) returns (resolved: map<string, KnowledgeLink>)
      ensures IsLookup(db, chunkIds, resolved)
      ensures forall chunkId :: chunkId in resolved ==>
                chunkId in chunkIds && exists c :: IsCurrentLink(db, c, chunkId, resolved[chunkId])
      ensures forall c, chunkId, link :: chunkId in chunkIds && IsCurrentLink(db, c, chunkId, link) ==>
                && chunkId in resolved && resolved[chunkId].itemId in db.items
                && db.items[resolved[chunkId].itemId].updatedAt >= db.items[link.itemId].updatedAt
    {
      if chunkIds == [] {
        return map[];
      }
      var rows := SelectLinks(chunkIds);
      resolved := FirstLinks(rows);
      FirstRowsAreLookup(db, chunkIds, rows, resolved);
      LookupByColumns(db, chunkIds, resolved);
    }

    /** The loop over the result: the first row of a chunk wins. */
    method FirstLinks(rows: seq<JoinRow>) returns (resolved: map<string, KnowledgeLink>)
      ensures FirstRows(rows, |rows|, resolved)
    {
      resolved := map[];
      for n := 0 to |rows|
        invariant FirstRows(rows, n, resolved)
      {
        var row := rows[n];
        if row.chunkId !in resolved {
          assert FirstIndex(rows, row.chunkId) == n;
          resolved := resolved[row.chunkId := row.link];
        }
      }
    }

    /** The second query: one row for each citation it joins, in no particular order. */
    method SelectSourceIds(itemIds: seq<string>, tenant: string, workspace: string) returns (rows: seq<string>)
      ensures forall source :: source in rows <==> exists c :: Supports(db, c, source, itemIds, tenant, workspace)
      ensures |rows| == |Supporting(db, itemIds, tenant, workspace)|
    {
      rows := [];
      var all := Supporting(db, itemIds, tenant, workspace);
      var todo := all;
      while todo != {}
        invariant todo <= all && |rows| + |todo| == |all|
        invariant forall source :: source in rows <==> exists c :: c in all - todo && db.citations[c].sourceId == source
        decreases todo
      {
        var c :| c in todo;
        rows, todo := rows + [db.citations[c].sourceId], todo - {c};
      }
      forall source ensures source in rows <==> exists c :: Supports(db, c, source, itemIds, tenant, workspace) {
        if c :| Supports(db, c, source, itemIds, tenant, workspace) { assert c in all - todo; }
        if c :| c in all - todo && db.citations[c].sourceId == source {
          assert Supports(db, c, source, itemIds, tenant, workspace);
        }
      }
    }

    /** The set comprehension over its rows. */
    method ResolveSourceIdsForItems(itemIds: seq<string>, tenant: string, workspace: string) returns (sources: set<string>)
      ensures AreSources(db, itemIds, tenant, workspace, sources)
    {
      sources := {};
      if itemIds == [] {
        return;
      }
      var rows := SelectSourceIds(itemIds, tenant, workspace);
      for n := 0 to |rows|
        invariant forall source :: source in sources <==> source in rows[..n]
      {
        assert rows[..n + 1] == rows[..n] + [rows[n]];
        sources := sources + {rows[n]};
      }
      assert rows[..|rows|] == rows;
    }
  }

  /** A live citation of one of the items, inside the scope, of this source. */
  predicate Supports(db: Db, citationId: string, source: string, itemIds: seq<string>, tenant: string, workspace: string) {
    && Live(db, citationId) && VersionOf(db, citationId).itemId in itemIds
    && db.citations[citationId].tenant == tenant && db.citations[citationId].workspace == workspace
    && db.citations[citationId].sourceId == source
  }

  /** By columns: some item of the list has a current version that the citation is of. */
  lemma SupportsIff(db: Db, c: string, source: string, itemIds: seq<string>, tenant: string, workspace: string)
    ensures Supports(db, c, source, itemIds, tenant, workspace)
            <==> c in db.citations && exists itemId, version ::
                   && itemId in itemIds && itemId in db.items && version in db.versions
                   && db.versions[version].itemId == itemId && db.versions[version].version == db.items[itemId].currentVersion
                   && db.citations[c] == Citation(version, db.citations[c].chunkId, source, tenant, workspace)
  {
    if c in db.citations && db.citations[c].versionId in db.versions {
      var version := db.citations[c].versionId;
      var itemId := db.versions[version].itemId;
      assert Supports(db, c, source, itemIds, tenant, workspace) ==>
          itemId in itemIds && db.citations[c] == Citation(version, db.citations[c].chunkId, source, tenant, workspace);
    }
  }

  function Supporting(db: Db, itemIds: seq<string>, tenant: string, workspace: string): set<string> {
    set c | c in db.citations && Supports(db, c, db.citations[c].sourceId, itemIds, tenant, workspace)
  }

  /** Exactly the sources that the current versions of the items cite inside the scope. */
  ghost predicate AreSources(db: Db, itemIds: seq<string>, tenant: string, workspace: string, sources: set<string>) {
    forall source :: source in sources <==> exists c :: Supports(db, c, source, itemIds, tenant, workspace)
  }

  function InsertRow(rows: seq<JoinRow>, row: JoinRow): seq<JoinRow> {
    if |rows| == 0 || rows[0].updatedAt <= row.updatedAt then [row] + rows else [rows[0]] + InsertRow(rows[1..], row)
  }

  lemma {:induction false} InsertKeeps(rows: seq<JoinRow>, row: JoinRow)
    requires Descending(rows)
    ensures forall x :: x in InsertRow(rows, row) <==> x in rows || x == row
    ensures Descending(InsertRow(rows, row))
  {
    if |rows| > 0 && rows[0].updatedAt > row.updatedAt {
      InsertKeeps(rows[1..], row);
      var below := InsertRow(rows[1..], row);
      assert rows == [rows[0]] + rows[1..];
      forall x | x in rows[1..] ensures x.updatedAt <= rows[0].updatedAt {
        var i :| 0 <= i < |rows[1..]| && rows[1..][i] == x;
        assert rows[i + 1] == x;
      }
    }
  }

  lemma {:induction false} InsertKeepsOnce(rows: seq<JoinRow>, row: JoinRow)
    requires OncePerCitation(rows) && Descending(rows) && forall x :: x in rows ==> x.citationId != row.citationId
    ensures OncePerCitation(InsertRow(rows, row))
  {
    if |rows| > 0 && rows[0].updatedAt > row.updatedAt {
      assert rows == [rows[0]] + rows[1..];
      InsertKeepsOnce(rows[1..], row);
      InsertKeeps(rows[1..], row);
      forall x | x in rows[1..] ensures x.citationId != rows[0].citationId {
        var i :| 0 <= i < |rows[1..]| && rows[1..][i] == x;
        assert rows[i + 1] == x;
      }
    }
  }

  /** The citation is live, of this chunk, and no other such citation is of a later-updated item. */
  ghost predicate Newest(db: Db, citationId: string, chunkId: string) {
    && Cites(db, citationId, chunkId)
    && forall c :: Cites(db, c, chunkId) ==> UpdatedAt(db, c) <= UpdatedAt(db, citationId)
  }

  /** The position of the first row about a chunk, or the number of rows. */
  function FirstIndex(rows: seq<JoinRow>, chunkId: string): (i: nat)
    ensures i <= |rows|
    ensures i < |rows| ==> rows[i].chunkId == chunkId
    ensures forall k :: 0 <= k < i ==> rows[k].chunkId != chunkId
  {
    if |rows| == 0 || rows[0].chunkId == chunkId then 0 else 1 + FirstIndex(rows[1..], chunkId)
  }

  /** Each chunk of the first `n` rows, with the link of the first row about it. */
  ghost predicate FirstRows(rows: seq<JoinRow>, n: nat, resolved: map<string, KnowledgeLink>)
    requires n <= |rows|
  {
    forall chunkId ::
      && (chunkId in resolved <==> FirstIndex(rows, chunkId) < n)
      && (chunkId in resolved ==> resolved[chunkId] == rows[FirstIndex(rows, chunkId)].link)
  }

  lemma FoundIsNewest(db: Db, chunkIds: seq<string>, rows: seq<JoinRow>, resolved: map<string, KnowledgeLink>, chunkId: string)
      returns (c: string)
    requires Answers(db, Wanted(db, chunkIds), rows) && FirstRows(rows, |rows|, resolved) && chunkId in resolved
    ensures chunkId in chunkIds && Newest(db, c, chunkId) && resolved[chunkId] == LinkOf(VersionOf(db, c))
  {
    FirstIsNewest(db, chunkIds, rows, chunkId);
    c := rows[FirstIndex(rows, chunkId)].citationId;
  }

  lemma CitedIsFound(db: Db, chunkIds: seq<string>, rows: seq<JoinRow>, chunkId: string, c: string)
    requires Answers(db, Wanted(db, chunkIds), rows) && chunkId in chunkIds && Cites(db, c, chunkId)
    ensures FirstIndex(rows, chunkId) < |rows|
  {
    assert RowFor(db, c) in rows;
    var j :| 0 <= j < |rows| && rows[j] == RowFor(db, c);
  }

  lemma FirstRowsAreLookup(db: Db, chunkIds: seq<string>, rows: seq<JoinRow>, resolved: map<string, KnowledgeLink>)
    requires Answers(db, Wanted(db, chunkIds), rows) && FirstRows(rows, |rows|, resolved)
    ensures IsLookup(db, chunkIds, resolved)
  {
    forall chunkId | chunkId in resolved
      ensures chunkId in chunkIds
      ensures exists c :: Newest(db, c, chunkId) && resolved[chunkId] == LinkOf(VersionOf(db, c))
    {
      var c := FoundIsNewest(db, chunkIds, rows, resolved, chunkId);
      assert Newest(db, c, chunkId);
    }
    forall chunkId, c | chunkId in chunkIds && Cites(db, c, chunkId) ensures chunkId in resolved {
      CitedIsFound(db, chunkIds, rows, chunkId, c);
    }
  }

  lemma FirstIsNewest(db: Db, chunkIds: seq<string>, rows: seq<JoinRow>, chunkId: string)
    requires Answers(db, Wanted(db, chunkIds), rows) && FirstIndex(rows, chunkId) < |rows|
    ensures var row := rows[FirstIndex(rows, chunkId)];
            chunkId in chunkIds && Newest(db, row.citationId, chunkId) && row.link == LinkOf(VersionOf(db, row.citationId))
  {
    var i := FirstIndex(rows, chunkId);
    assert rows[i] in rows;
    forall c | Cites(db, c, chunkId) ensures UpdatedAt(db, c) <= UpdatedAt(db, rows[i].citationId) {
      NoneIsNewer(db, chunkIds, rows, chunkId, c);
    }
  }

  lemma NoneIsNewer(db: Db, chunkIds: seq<string>, rows: seq<JoinRow>, chunkId: string, c: string)
    requires Answers(db, Wanted(db, chunkIds), rows) && FirstIndex(rows, chunkId) < |rows|
    requires chunkId in chunkIds && Cites(db, c, chunkId)
    ensures UpdatedAt(db, c) <= rows[FirstIndex(rows, chunkId)].updatedAt
  {
    assert RowFor(db, c) in rows;
    var j :| 0 <= j < |rows| && rows[j] == RowFor(db, c);
  }

  /** What the lookup promises: the cited chunks among those asked for, each under a newest item. */
  ghost predicate IsLookup(db: Db, chunkIds: seq<string>, resolved: map<string, KnowledgeLink>) {
    && (forall chunkId :: chunkId in resolved <==> chunkId in chunkIds && exists c :: Cites(db, c, chunkId))
    && (forall chunkId :: chunkId in resolved ==>
          exists c :: Newest(db, c, chunkId) && resolved[chunkId] == LinkOf(VersionOf(db, c)))
  }

  /** By columns: citation `c` is of this chunk, and the link is that of its version, the current one of its item. */
  predicate IsCurrentLink(db: Db, c: string, chunkId: string, link: KnowledgeLink) {
    && c in db.citations && db.citations[c].chunkId == Some(chunkId)
    && db.citations[c].versionId in db.versions
    && (var v := db.versions[db.citations[c].versionId];
        && v.itemId in db.items && v.version == db.items[v.itemId].currentVersion
        && link.itemId == v.itemId && link.version == v.version && link.status == v.status
        && link.domain == v.domain && link.jurisdiction == v.jurisdiction && link.tags == v.tags)
  }

  lemma CurrentLinkIs(db: Db, c: string, chunkId: string, link: KnowledgeLink)
    ensures IsCurrentLink(db, c, chunkId, link) <==> Cites(db, c, chunkId) && link == LinkOf(VersionOf(db, c))
  {
  }

  lemma LookupByColumns(db: Db, chunkIds: seq<string>, resolved: map<string, KnowledgeLink>)
    requires IsLookup(db, chunkIds, resolved)
    ensures forall chunkId :: chunkId in resolved ==>
              chunkId in chunkIds && exists c :: IsCurrentLink(db, c, chunkId, resolved[chunkId])
    ensures forall c, chunkId, link :: chunkId in chunkIds && IsCurrentLink(db, c, chunkId, link) ==>
              && chunkId in resolved && resolved[chunkId].itemId in db.items
              && db.items[resolved[chunkId].itemId].updatedAt >= db.items[link.itemId].updatedAt
  {
    forall chunkId | chunkId in resolved ensures exists c :: IsCurrentLink(db, c, chunkId, resolved[chunkId]) {
      var c :| Newest(db, c, chunkId) && resolved[chunkId] == LinkOf(VersionOf(db, c));
      CurrentLinkIs(db, c, chunkId, resolved[chunkId]);
    }
    forall c, chunkId, link | chunkId in chunkIds && IsCurrentLink(db, c, chunkId, link)
      ensures chunkId in resolved && resolved[chunkId].itemId in db.items
      ensures db.items[resolved[chunkId].itemId].updatedAt >= db.items[link.itemId].updatedAt
    {
      CurrentLinkIs(db, c, chunkId, link);
      var newest :| Newest(db, newest, chunkId) && resolved[chunkId] == LinkOf(VersionOf(db, newest));
      assert UpdatedAt(db, c) <= UpdatedAt(db, newest);
    }
  }

  /** All citations are of one workspace. */
  predicate OneScope(db: Db, tenant: string, workspace: string) {
    forall c :: c in db.citations ==> db.citations[c].tenant == tenant && db.citations[c].workspace == workspace
  }

  /**
   Within one scope the two queries agree: the link of a chunk rests on a live citation of that chunk
   whose source is among the sources resolved for the linked item.
   */
  lemma LinkedSourcesAreResolved(db: Db, tenant: string, workspace: string, chunkIds: seq<string>,
                                 resolved: map<string, KnowledgeLink>, chunkId: string, sources: set<string>)
    requires OneScope(db, tenant, workspace) && IsLookup(db, chunkIds, resolved) && chunkId in resolved
    requires AreSources(db, [resolved[chunkId].itemId], tenant, workspace, sources)
    ensures exists c :: Cites(db, c, chunkId) && LinkOf(VersionOf(db, c)) == resolved[chunkId]
              && db.citations[c].sourceId in sources
  {
    var c :| Newest(db, c, chunkId) && resolved[chunkId] == LinkOf(VersionOf(db, c));
    assert Cites(db, c, chunkId);
    assert Supports(db, c, db.citations[c].sourceId, [resolved[chunkId].itemId], tenant, workspace);
  }

  /** UNIQUE (knowledge_item_id, version). */
  predicate VersionsUnique(db: Db) {
    forall v, w ::
      (v in db.versions && w in db.versions
       && db.versions[v].itemId == db.versions[w].itemId && db.versions[v].version == db.versions[w].version)
      ==> v == w
  }

  /** Where no two items were updated at the same time, the lookup has one answer only. */
  lemma LookupIsDetermined(db: Db, chunkIds: seq<string>, a: map<string, KnowledgeLink>, b: map<string, KnowledgeLink>)
    requires VersionsUnique(db)
    requires forall i, j :: i in db.items && j in db.items && db.items[i].updatedAt == db.items[j].updatedAt ==> i == j
    requires IsLookup(db, chunkIds, a) && IsLookup(db, chunkIds, b)
    ensures a == b
  {
    forall chunkId | chunkId in a ensures chunkId in b && a[chunkId] == b[chunkId] {
      var c :| Newest(db, c, chunkId) && a[chunkId] == LinkOf(VersionOf(db, c));
      var d :| Newest(db, d, chunkId) && b[chunkId] == LinkOf(VersionOf(db, d));
      NewestAgree(db, chunkId, c, d);
    }
    assert a.Keys == b.Keys;
  }

  lemma NewestAgree(db: Db, chunkId: string, c: string, d: string)
    requires VersionsUnique(db)
    requires forall i, j :: i in db.items && j in db.items && db.items[i].updatedAt == db.items[j].updatedAt ==> i == j
    requires Newest(db, c, chunkId) && Newest(db, d, chunkId)
    ensures VersionOf(db, c) == VersionOf(db, d)
  {
    assert UpdatedAt(db, c) == UpdatedAt(db, d);
  }
}
