/**
 The scope purge: delete the rows of one workspace, table by table, in an order in which no foreign-key
 cascade ever fires.
 */
module ScopePurge {
  import opened Basics

  /** The purged tables, and the sources they may refer to. */
  datatype Table =
    | Citations | Relations | Versions | Items | Candidates
    | Turns | Conversations | JobEvents | Jobs | CostEvents | Chunks | Sources

  datatype Id = Id(table: Table, key: string)

  datatype OnDelete = Cascade | SetNull

  datatype Reference = Reference(column: string, table: Table, onDelete: OnDelete)

  /** The declared foreign keys of each table. */
  function ForeignKeys(t: Table): set<Reference> {
    match t
    case Citations => {Reference("knowledge_version_id", Versions, Cascade),
                       Reference("chunk_id", Chunks, SetNull),
                       Reference("source_id", Sources, Cascade)}
    case Relations => {Reference("from_item_id", Items, Cascade), Reference("to_item_id", Items, Cascade)}
    case Versions => {Reference("knowledge_item_id", Items, Cascade)}
    case Candidates => {Reference("source_id", Sources, Cascade)}
    case Turns => {Reference("conversation_id", Conversations, Cascade)}
    case JobEvents => {Reference("job_id", Jobs, Cascade)}
    case Chunks => {Reference("source_id", Sources, Cascade)}
    case Items | Conversations | Jobs | CostEvents | Sources => {}
  }

  /** A row: its scope, and the values of its foreign-key columns; an absent column is NULL. */
  datatype Row = Row(tenant: string, workspace: string, refs: map<string, string>)

  type Db = map<Id, Row>

  datatype Scope = Scope(tenant: string, workspace: string)

  predicate InScope(row: Row, scope: Scope) {
    row.tenant == scope.tenant && row.workspace == scope.workspace
  }

  /** Rows that refer, by a cascading foreign key, to one of `gone`. */
  function Dependants(db: Db, gone: set<Id>): set<Id> {
    set id | id in db && exists fk :: fk in ForeignKeys(id.table) && fk.onDelete.Cascade?
                                   && fk.column in db[id].refs && Id(fk.table, db[id].refs[fk.column]) in gone
  }

  /** ON DELETE SET NULL: the columns of a row that refer to one of `gone` are cleared. */
  function Cleared(id: Id, row: Row, gone: set<Id>): Row {
    var lost := set fk | fk in ForeignKeys(id.table) && fk.onDelete.SetNull? && fk.column in row.refs
                      && Id(fk.table, row.refs[fk.column]) in gone :: fk.column;
    row.(refs := row.refs - lost)
  }

  /** The rows left by the DELETE itself, before any cascade. */
  function Left(db: Db, gone: set<Id>): Db {
    map id | id in db && id !in gone :: Cleared(id, db[id], gone)
  }

  /** What a DELETE of the rows `gone` does: they go, references are cleared, and cascades follow. */
  function DeleteRows(db: Db, gone: set<Id>): Db
    requires gone <= db.Keys
    decreases |db|
  {
    var left := Left(db, gone);
    var next := Dependants(left, gone);
    if gone == {} || next == {} then left
    else
      SmallerWithout(db, gone, left);
      DeleteRows(left, next)
  }

  lemma SmallerWithout(db: Db, gone: set<Id>, left: Db)
    requires left.Keys == db.Keys - gone && gone <= db.Keys && gone != {}
    ensures |left| < |db|
  {
    assert db.Keys == left.Keys + gone;
  }

  function ScopeRows(db: Db, table: Table, scope: Scope): set<Id> {
    set id | id in db && id.table == table && InScope(db[id], scope)
  }

  const PURGE_ORDER: seq<Table> :=
    [Citations, Relations, Versions, Items, Candidates, Turns, Conversations, JobEvents, Jobs, CostEvents, Chunks]

  /** The DELETE statements of an order, one after the other. */
  function PurgeAll(db: Db, scope: Scope, order: seq<Table>): Db {
    if |order| == 0 then db
    else
      var before := PurgeAll(db, scope, order[..|order| - 1]);
      DeleteRows(before, ScopeRows(before, order[|order| - 1], scope))
  }

  /** The row counts those statements report: rows matched by the WHERE clause, not rows cascaded to. */
  function Reported(db: Db, scope: Scope, order: seq<Table>): seq<nat> {
    if |order| == 0 then []
    else
      var init := order[..|order| - 1];
      Reported(db, scope, init) + [|ScopeRows(PurgeAll(db, scope, init), order[|order| - 1], scope)|]
  }

  class ScopePurgeRepository {
    var db: Db

    /** The loop over the tables, inside one transaction. */
    method PurgeTables(scope: Scope, order: seq<Table>) returns (counts: seq<nat>)
      modifies this
      ensures db == PurgeAll(old(db), scope, order) && counts == Reported(old(db), scope, order)
    {
      counts := [];
      for i := 0 to |order|
        invariant db == PurgeAll(old(db), scope, order[..i]) && counts == Reported(old(db), scope, order[..i])
      {
        assert order[..i + 1][..i] == order[..i];
        var gone := ScopeRows(db, order[i], scope);
        db := DeleteRows(db, gone);
        counts := counts + [|gone|];
      }
      assert order[..|order|] == order;
    }

    /** None is the ValueError for a missing scope key. */
    method PurgeScope(tenant: string, workspace: string) returns (counts: Option<seq<nat>>)
      modifies this
      ensures tenant == "" || workspace == "" ==> counts == None && db == old(db)
      ensures tenant != "" && workspace != "" ==>
                && db == PurgeAll(old(db), Scope(tenant, workspace), PURGE_ORDER)
                && counts == Some(Reported(old(db), Scope(tenant, workspace), PURGE_ORDER))
      ensures counts.Some? ==>
                forall id :: id in db && db[id].tenant == tenant && db[id].workspace == workspace ==> id.table == Sources
      ensures counts.Some? && ScopeClosed(old(db)) ==>
                && db.Keys <= old(db).Keys
                && (forall id :: id in old(db) && id !in db ==>
                      id.table != Sources && old(db)[id].tenant == tenant && old(db)[id].workspace == workspace)
                && (forall id :: id in db ==> db[id] == old(db)[id])
                && |counts.value| == 11 && Sum(counts.value) == |old(db)| - |db|
    {
      if tenant == "" || workspace == "" {
        return None;
      }
      PurgeMeans(db, Scope(tenant, workspace));
      var reported := PurgeTables(Scope(tenant, workspace), PURGE_ORDER);
      counts := Some(reported);
    }
  }

  // ---------------------------------------------------------------------------------------------
  // In the purge order no cascade fires
  // ---------------------------------------------------------------------------------------------

  /** Foreign keys stay inside a scope. */
  ghost predicate ScopeClosed(db: Db) {
    forall id, fk :: id in db && fk in ForeignKeys(id.table) && fk.column in db[id].refs ==>
      var target := Id(fk.table, db[id].refs[fk.column]);
      target in db ==> db[target].tenant == db[id].tenant && db[target].workspace == db[id].workspace
  }

  /** Every table that refers to a listed table is listed before it. */
  predicate ChildrenFirst(order: seq<Table>) {
    && (forall i, j :: 0 <= i < j < |order| ==> order[i] != order[j])
    && (forall t, fk, j :: 0 <= j < |order| && fk in ForeignKeys(t) && fk.table == order[j] ==> t in order[..j])
  }

  /** A row of the scope in one of the listed tables. */
  predicate Doomed(db: Db, id: Id, scope: Scope, tables: seq<Table>) {
    id in db && id.table in tables && InScope(db[id], scope)
  }

  /** Exactly the rows of the scope in the listed tables are gone; all others are as they were. */
  function Without(db: Db, scope: Scope, tables: seq<Table>): Db {
    map id | id in db && !Doomed(db, id, scope, tables) :: db[id]
  }

  /** No row that is to stay refers to a row that is to go. */
  ghost predicate Detached(db: Db, scope: Scope, tables: seq<Table>) {
    forall id, fk :: id in db && !Doomed(db, id, scope, tables) && fk in ForeignKeys(id.table) && fk.column in db[id].refs ==>
      !Doomed(db, Id(fk.table, db[id].refs[fk.column]), scope, tables)
  }

  /** Foreign keys that stay inside their scopes are enough for that. */
  lemma ScopeClosedIsDetached(db: Db, scope: Scope, order: seq<Table>)
    requires ScopeClosed(db) && ChildrenFirst(order)
    ensures Detached(db, scope, order)
  {
    forall id, fk | id in db && fk in ForeignKeys(id.table) && fk.column in db[id].refs
                    && Doomed(db, Id(fk.table, db[id].refs[fk.column]), scope, order)
      ensures Doomed(db, id, scope, order)
    {
      var j :| 0 <= j < |order| && order[j] == fk.table;
      assert id.table in order[..j];
    }
  }

  /** A DELETE nobody refers to removes just its rows. */
  lemma NobodyRefers(db: Db, gone: set<Id>)
    requires gone <= db.Keys
    requires forall id, fk :: id in db && id !in gone && fk in ForeignKeys(id.table) && fk.column in db[id].refs ==>
               Id(fk.table, db[id].refs[fk.column]) !in gone
    ensures DeleteRows(db, gone) == map id | id in db && id !in gone :: db[id]
    ensures Dependants(Left(db, gone), gone) == {}
  {
    var left := Left(db, gone);
    forall id | id in left ensures left[id] == db[id] {
      var lost := set fk | fk in ForeignKeys(id.table) && fk.onDelete.SetNull? && fk.column in db[id].refs
                        && Id(fk.table, db[id].refs[fk.column]) in gone :: fk.column;
      assert lost == {};
      assert db[id].refs - {} == db[id].refs;
    }
    assert left == map id | id in db && id !in gone :: db[id];
  }

  /** One statement of a purge in a good order. */
  lemma StepIsExact(db: Db, scope: Scope, order: seq<Table>, i: nat)
    requires Detached(db, scope, order) && ChildrenFirst(order) && i < |order|
    ensures
      var before := Without(db, scope, order[..i]);
      var gone := ScopeRows(before, order[i], scope);
      && gone == ScopeRows(db, order[i], scope)
      && DeleteRows(before, gone) == Without(db, scope, order[..i + 1])
      && Dependants(Left(before, gone), gone) == {}
  {
    var before := Without(db, scope, order[..i]);
    var gone := ScopeRows(before, order[i], scope);
    forall id, fk | id in before && id !in gone && fk in ForeignKeys(id.table) && fk.column in before[id].refs
      ensures Id(fk.table, before[id].refs[fk.column]) !in gone
    {
      if fk.table == order[i] {
        assert id.table in order[..i];
        assert !Doomed(db, id, scope, order);
      }
    }
    NobodyRefers(before, gone);
    assert order[..i + 1] == order[..i] + [order[i]];
  }

  lemma {:induction false} PurgeIsExact(db: Db, scope: Scope, order: seq<Table>, i: nat)
    requires Detached(db, scope, order) && ChildrenFirst(order) && i <= |order|
    ensures PurgeAll(db, scope, order[..i]) == Without(db, scope, order[..i])
    decreases i
  {
    if i == 0 {
      assert Without(db, scope, []) == db;
    } else {
      PurgeIsExact(db, scope, order, i - 1);
      StepIsExact(db, scope, order, i - 1);
      assert order[..i][..i - 1] == order[..i - 1];
    }
  }

  /** Each statement reports the rows its table had to begin with. */
  lemma ReportStep(db: Db, scope: Scope, order: seq<Table>, i: nat)
    requires Detached(db, scope, order) && ChildrenFirst(order) && i < |order|
    ensures Reported(db, scope, order[..i + 1])
            == Reported(db, scope, order[..i]) + [|ScopeRows(db, order[i], scope)|]
  {
    PurgeIsExact(db, scope, order, i);
    StepIsExact(db, scope, order, i);
    assert order[..i + 1][..i] == order[..i];
  }

  /** These are the sizes of the first tables' parts of the scope. */
  ghost predicate ExactCounts(counts: seq<nat>, db: Db, scope: Scope, order: seq<Table>) {
    |counts| <= |order| && forall k :: 0 <= k < |counts| ==> counts[k] == |ScopeRows(db, order[k], scope)|
  }

  lemma ExactSnoc(counts: seq<nat>, db: Db, scope: Scope, order: seq<Table>)
    requires ExactCounts(counts, db, scope, order) && |counts| < |order|
    ensures ExactCounts(counts + [|ScopeRows(db, order[|counts|], scope)|], db, scope, order)
  {
  }

  lemma {:induction false} ReportIsExact(db: Db, scope: Scope, order: seq<Table>, i: nat)
    requires Detached(db, scope, order) && ChildrenFirst(order) && i <= |order|
    ensures |Reported(db, scope, order[..i])| == i && ExactCounts(Reported(db, scope, order[..i]), db, scope, order)
    decreases i
  {
    if i > 0 {
      ReportIsExact(db, scope, order, i - 1);
      ReportStep(db, scope, order, i - 1);
      ExactSnoc(Reported(db, scope, order[..i - 1]), db, scope, order);
    }
  }

  function Sum(counts: seq<nat>): nat {
    if |counts| == 0 then 0 else Sum(counts[..|counts| - 1]) + counts[|counts| - 1]
  }

  lemma StepCounts(db: Db, scope: Scope, order: seq<Table>, i: nat)
    requires i < |order| && order[i] !in order[..i]
    ensures |Without(db, scope, order[..i])| == |Without(db, scope, order[..i + 1])| + |ScopeRows(db, order[i], scope)|
  {
    var before, after := Without(db, scope, order[..i]), Without(db, scope, order[..i + 1]);
    assert order[..i + 1] == order[..i] + [order[i]];
    assert before.Keys == after.Keys + ScopeRows(db, order[i], scope);
  }

  lemma {:induction false} CountsAddUp(db: Db, scope: Scope, order: seq<Table>, counts: seq<nat>)
    requires |counts| <= |order| && forall i, j :: 0 <= i < j < |order| ==> order[i] != order[j]
    requires ExactCounts(counts, db, scope, order)
    ensures Sum(counts) + |Without(db, scope, order[..|counts|])| == |db|
    decreases |counts|
  {
    if |counts| == 0 {
      assert Without(db, scope, []) == db;
    } else {
      CountsAddUp(db, scope, order, counts[..|counts| - 1]);
      StepCounts(db, scope, order, |counts| - 1);
    }
  }

  /** Where a child table stands in the order, and that its parents come later. */
  lemma ChildIsListedFirst(t: Table, fk: Reference, j: nat)
    requires j < |PURGE_ORDER| && fk in ForeignKeys(t) && fk.table == PURGE_ORDER[j]
    ensures t in PURGE_ORDER[..j]
  {
    var o := PURGE_ORDER;
    var i := match t
      case Citations => 0
      case Relations => 1
      case Versions => 2
      case Turns => 5
      case _ => 7;
    assert i < j && o[..j][i] == o[i] == t;
  }

  lemma PurgeOrderIsChildrenFirst()
    ensures ChildrenFirst(PURGE_ORDER)
  {
    forall t, fk, j | 0 <= j < |PURGE_ORDER| && fk in ForeignKeys(t) && fk.table == PURGE_ORDER[j] ensures t in PURGE_ORDER[..j] {
      ChildIsListedFirst(t, fk, j);
    }
  }

  /**
   The purge, in the order above or any other that lists children first: no row of the scope is left in
   its tables, every other row of the database is untouched, the reported counts are those of the
   tables and add up to the rows removed, and a second purge reports zeros.
   */
  lemma PurgeRemovesExactlyTheScope(db: Db, scope: Scope, order: seq<Table>)
    requires Detached(db, scope, order) && ChildrenFirst(order)
    ensures
      var after, counts := PurgeAll(db, scope, order), Reported(db, scope, order);
      && after == Without(db, scope, order)
      && |counts| == |order| == |Reported(after, scope, order)|
      && (forall k :: 0 <= k < |order| ==> counts[k] == |ScopeRows(db, order[k], scope)|)
      && Sum(counts) == |db| - |after|
      && (forall k :: 0 <= k < |order| ==> Reported(after, scope, order)[k] == 0)
  {
    assert order[..|order|] == order;
    PurgeIsExact(db, scope, order, |order|);
    ReportIsExact(db, scope, order, |order|);
    CountsAddUp(db, scope, order, Reported(db, scope, order));
    var after := Without(db, scope, order);
    ReportIsExact(after, scope, order, |order|);
    forall k | 0 <= k < |order| ensures ScopeRows(after, order[k], scope) == {} {
      assert order[k] in order;
    }
  }

  /** Rows only go, and columns are only cleared. */
  ghost predicate Shrinks(before: Db, after: Db) {
    after.Keys <= before.Keys
    && forall id, column :: id in after && column in after[id].refs ==>
         column in before[id].refs && after[id].refs[column] == before[id].refs[column]
  }

  /** No reference is left dangling that was not dangling before. */
  ghost predicate NoneDangles(before: Db, after: Db) {
    forall id, fk :: id in after && fk in ForeignKeys(id.table) && fk.column in after[id].refs ==>
      Id(fk.table, after[id].refs[fk.column]) in before ==> Id(fk.table, after[id].refs[fk.column]) in after
  }

  /** After the DELETE itself only rows that the cascade takes still refer to a deleted row. */
  lemma LeftRefers(db: Db, gone: set<Id>, id: Id, fk: Reference)
    requires id in Left(db, gone) && fk in ForeignKeys(id.table) && fk.column in Left(db, gone)[id].refs
    requires Id(fk.table, Left(db, gone)[id].refs[fk.column]) in gone
    ensures id in Dependants(Left(db, gone), gone)
  {
  }

  lemma LeftShrinks(db: Db, gone: set<Id>)
    ensures Shrinks(db, Left(db, gone))
  {
  }

  lemma ShrinksTransitive(a: Db, b: Db, c: Db)
    requires Shrinks(a, b) && Shrinks(b, c)
    ensures Shrinks(a, c)
  {
  }

  /** Whatever is deleted, the engine keeps the references whole. */
  lemma {:induction false} DeleteKeepsReferences(db: Db, gone: set<Id>)
    requires gone <= db.Keys
    ensures Shrinks(db, DeleteRows(db, gone)) && NoneDangles(db, DeleteRows(db, gone))
    ensures DeleteRows(db, gone).Keys !! gone
    decreases |db|
  {
    var left := Left(db, gone);
    var next := Dependants(left, gone);
    var after := DeleteRows(db, gone);
    LeftShrinks(db, gone);
    if gone != {} && next != {} {
      SmallerWithout(db, gone, left);
      DeleteKeepsReferences(left, next);
      ShrinksTransitive(db, left, after);
    }
    forall id, fk | id in after && fk in ForeignKeys(id.table) && fk.column in after[id].refs
                    && Id(fk.table, after[id].refs[fk.column]) in db
      ensures Id(fk.table, after[id].refs[fk.column]) in after
    {
      if Id(fk.table, after[id].refs[fk.column]) in gone {
        LeftRefers(db, gone, id, fk);
      }
    }
  }

  lemma NoneDanglesTransitive(a: Db, b: Db, c: Db)
    requires Shrinks(b, c) && NoneDangles(a, b) && NoneDangles(b, c)
    ensures NoneDangles(a, c)
  {
    forall id, fk | id in c && fk in ForeignKeys(id.table) && fk.column in c[id].refs
                    && Id(fk.table, c[id].refs[fk.column]) in a
      ensures Id(fk.table, c[id].refs[fk.column]) in c
    {
      assert Id(fk.table, b[id].refs[fk.column]) in b;
    }
  }

  /** Any purge, in any order, over any foreign keys, leaves no reference dangling. */
  lemma {:induction false} PurgeKeepsReferences(db: Db, scope: Scope, order: seq<Table>)
    ensures Shrinks(db, PurgeAll(db, scope, order)) && NoneDangles(db, PurgeAll(db, scope, order))
  {
    if |order| > 0 {
      var before := PurgeAll(db, scope, order[..|order| - 1]);
      var gone := ScopeRows(before, order[|order| - 1], scope);
      PurgeKeepsReferences(db, scope, order[..|order| - 1]);
      DeleteKeepsReferences(before, gone);
      ShrinksTransitive(db, before, DeleteRows(before, gone));
      NoneDanglesTransitive(db, before, DeleteRows(before, gone));
    }
  }

  /**
   The purge removes exactly the rows of the scope, and changes no other, if and only if no row that is
   to stay refers to one of them.
   */
  lemma PurgeIsExactIff(db: Db, scope: Scope, order: seq<Table>)
    requires ChildrenFirst(order)
    ensures PurgeAll(db, scope, order) == Without(db, scope, order) <==> Detached(db, scope, order)
  {
    if Detached(db, scope, order) {
      assert order[..|order|] == order;
      PurgeIsExact(db, scope, order, |order|);
    }
    if PurgeAll(db, scope, order) == Without(db, scope, order) {
      PurgeKeepsReferences(db, scope, order);
      ExactMeansDetached(db, scope, order);
    }
  }

  lemma ExactMeansDetached(db: Db, scope: Scope, order: seq<Table>)
    requires NoneDangles(db, Without(db, scope, order))
    ensures Detached(db, scope, order)
  {
    forall id, fk | id in db && !Doomed(db, id, scope, order) && fk in ForeignKeys(id.table) && fk.column in db[id].refs
      ensures !Doomed(db, Id(fk.table, db[id].refs[fk.column]), scope, order)
    {
      assert id in Without(db, scope, order);
    }
  }

  /** Surviving rows keep their scope and their cascading references. */
  ghost predicate KeepsRows(before: Db, after: Db) {
    && after.Keys <= before.Keys
    && (forall id :: id in after ==> after[id].tenant == before[id].tenant && after[id].workspace == before[id].workspace)
    && (forall id, fk :: id in after && fk in ForeignKeys(id.table) && fk.onDelete.Cascade? && fk.column in before[id].refs ==>
          fk.column in after[id].refs && after[id].refs[fk.column] == before[id].refs[fk.column])
  }

  lemma LeftKeepsRows(db: Db, gone: set<Id>)
    ensures KeepsRows(db, Left(db, gone))
  {
    forall id, fk | id in db && fk in ForeignKeys(id.table) ensures
      forall other :: other in ForeignKeys(id.table) && other.column == fk.column ==> other == fk
    {
      OneColumnPerKey(id.table, fk);
    }
  }

  lemma KeepsRowsTransitive(a: Db, b: Db, c: Db)
    requires KeepsRows(a, b) && KeepsRows(b, c)
    ensures KeepsRows(a, c)
  {
  }

  lemma {:induction false} DeleteKeepsRows(db: Db, gone: set<Id>)
    requires gone <= db.Keys
    ensures KeepsRows(db, DeleteRows(db, gone))
    decreases |db|
  {
    var left := Left(db, gone);
    var next := Dependants(left, gone);
    LeftKeepsRows(db, gone);
    if gone != {} && next != {} {
      SmallerWithout(db, gone, left);
      DeleteKeepsRows(left, next);
      KeepsRowsTransitive(db, left, DeleteRows(left, next));
    }
  }

  lemma StatementEmpties(before: Db, scope: Scope, init: seq<Table>, last: Table)
    requires forall id :: !Doomed(before, id, scope, init)
    ensures var after := DeleteRows(before, ScopeRows(before, last, scope));
            KeepsRows(before, after) && forall id :: !Doomed(after, id, scope, init + [last])
  {
    var gone := ScopeRows(before, last, scope);
    DeleteKeepsRows(before, gone);
    DeleteKeepsReferences(before, gone);
    forall id ensures !Doomed(DeleteRows(before, gone), id, scope, init + [last]) {
      assert !Doomed(before, id, scope, init);
    }
  }

  /** In any order and over any foreign keys, no row of the scope is left in the purged tables. */
  lemma {:induction false} PurgeEmptiesScope(db: Db, scope: Scope, order: seq<Table>)
    ensures KeepsRows(db, PurgeAll(db, scope, order))
    ensures forall id :: !Doomed(PurgeAll(db, scope, order), id, scope, order)
  {
    if |order| > 0 {
      var init, last := order[..|order| - 1], order[|order| - 1];
      var before := PurgeAll(db, scope, init);
      PurgeEmptiesScope(db, scope, init);
      StatementEmpties(before, scope, init, last);
      KeepsRowsTransitive(db, before, DeleteRows(before, ScopeRows(before, last, scope)));
      assert order == init + [last];
    }
  }

  /** The schema: which table refers to which, and that only a citation's chunk is optional. */
  lemma SchemaIs(child: Table, parent: Table)
    ensures (exists fk :: fk in ForeignKeys(child) && fk.table == parent)
            <==> (child, parent) in {(Citations, Versions), (Citations, Chunks), (Citations, Sources), (Relations, Items),
                                     (Versions, Items), (Candidates, Sources), (Turns, Conversations), (JobEvents, Jobs),
                                     (Chunks, Sources)}
    ensures forall fk :: fk in ForeignKeys(child) ==> (fk.onDelete == SetNull <==> fk.column == "chunk_id")
  {
    match child
    case Citations =>
      assert Reference("knowledge_version_id", Versions, Cascade) in ForeignKeys(child);
      assert Reference("chunk_id", Chunks, SetNull) in ForeignKeys(child);
      assert Reference("source_id", Sources, Cascade) in ForeignKeys(child);
    case Relations => assert Reference("from_item_id", Items, Cascade) in ForeignKeys(child);
    case Versions => assert Reference("knowledge_item_id", Items, Cascade) in ForeignKeys(child);
    case Turns => assert Reference("conversation_id", Conversations, Cascade) in ForeignKeys(child);
    case JobEvents => assert Reference("job_id", Jobs, Cascade) in ForeignKeys(child);
    case Candidates | Chunks => assert Reference("source_id", Sources, Cascade) in ForeignKeys(child);
    case _ =>
  }

  /** The order names every table but the sources. */
  lemma OrderIsComplete(t: Table)
    ensures t in PURGE_ORDER <==> t != Sources
  {
    var o := PURGE_ORDER;
    assert o[0] == Citations && o[1] == Relations && o[2] == Versions && o[3] == Items && o[4] == Candidates && o[5] == Turns;
    assert o[6] == Conversations && o[7] == JobEvents && o[8] == Jobs && o[9] == CostEvents && o[10] == Chunks;
  }

  lemma DoomedMeans(db: Db, scope: Scope)
    ensures forall id :: Doomed(db, id, scope, PURGE_ORDER)
              <==> id in db && id.table != Sources && db[id].tenant == scope.tenant && db[id].workspace == scope.workspace
  {
    forall id: Id ensures id.table in PURGE_ORDER <==> id.table != Sources {
      OrderIsComplete(id.table);
    }
  }

  /** The purge by its columns, without the order. */
  lemma PurgeMeans(db: Db, scope: Scope)
    ensures
      var after, counts := PurgeAll(db, scope, PURGE_ORDER), Reported(db, scope, PURGE_ORDER);
      && (forall id :: id in after && after[id].tenant == scope.tenant && after[id].workspace == scope.workspace ==>
            id.table == Sources)
      && (ScopeClosed(db) ==>
            && after.Keys <= db.Keys
            && (forall id :: id in db && id !in after ==>
                  id.table != Sources && db[id].tenant == scope.tenant && db[id].workspace == scope.workspace)
            && (forall id :: id in after ==> after[id] == db[id])
            && |counts| == 11 && Sum(counts) == |db| - |after|)
  {
    PurgeEmptiesScope(db, scope, PURGE_ORDER);
    DoomedMeans(PurgeAll(db, scope, PURGE_ORDER), scope);
    if ScopeClosed(db) {
      ClosedPurgeMeans(db, scope);
    }
  }

  lemma ClosedPurgeMeans(db: Db, scope: Scope)
    requires ScopeClosed(db)
    ensures
      var after, counts := PurgeAll(db, scope, PURGE_ORDER), Reported(db, scope, PURGE_ORDER);
      && after.Keys <= db.Keys
      && (forall id :: id in db && id !in after ==>
            id.table != Sources && db[id].tenant == scope.tenant && db[id].workspace == scope.workspace)
      && (forall id :: id in after ==> after[id] == db[id])
      && |counts| == 11 && Sum(counts) == |db| - |after|
  {
    PurgeOrderIsChildrenFirst();
    ScopeClosedIsDetached(db, scope, PURGE_ORDER);
    PurgeRemovesExactlyTheScope(db, scope, PURGE_ORDER);
    DoomedMeans(db, scope);
  }

  /**
   What happens to a row that refers to a purged one, whatever its own scope: through a cascading
   foreign key it is deleted, through any other its column is cleared.
   */
  lemma PurgeTakesReferrers(db: Db, scope: Scope, order: seq<Table>, id: Id, fk: Reference)
    requires id in db && fk in ForeignKeys(id.table) && fk.column in db[id].refs
    requires Doomed(db, Id(fk.table, db[id].refs[fk.column]), scope, order)
    ensures var after := PurgeAll(db, scope, order);
            if fk.onDelete.Cascade? then id !in after else id in after ==> fk.column !in after[id].refs
  {
    var after, target := PurgeAll(db, scope, order), Id(fk.table, db[id].refs[fk.column]);
    PurgeEmptiesScope(db, scope, order);
    PurgeKeepsReferences(db, scope, order);
    assert !Doomed(after, target, scope, order);
    assert target !in after;
  }

  /** So a purge of one workspace that covers the items, as the purge above does, can delete a row of another. */
  lemma PurgeReachesAnotherScope(scope: Scope, other: Scope, order: seq<Table>)
    requires scope != other && Items in order
    ensures exists db, id ::
              && id in db && InScope(db[id], other)
              && id !in PurgeAll(db, scope, order)
  {
    var item, version := Id(Items, "i"), Id(Versions, "v");
    var fk := Reference("knowledge_item_id", Items, Cascade);
    var db: Db := map[item := Row(scope.tenant, scope.workspace, map[]),
                      version := Row(other.tenant, other.workspace, map[fk.column := "i"])];
    PurgeTakesReferrers(db, scope, order, version, fk);
  }

  /**
   The order matters: deleting the rows of a parent table while a child table still has one takes the
   child along, and the statement reports the parent alone.
   */
  lemma ParentFirstCascades(child: Table, fk: Reference, scope: Scope)
    requires fk in ForeignKeys(child) && fk.onDelete.Cascade? && fk.table != child
    ensures exists db ::
              && ScopeClosed(db) && |db| == 2
              && |ScopeRows(db, fk.table, scope)| == 1
              && DeleteRows(db, ScopeRows(db, fk.table, scope)) == map[]
  {
    var parent, dependant := Id(fk.table, "p"), Id(child, "c");
    var row := Row(scope.tenant, scope.workspace, map[fk.column := "p"]);
    var db: Db := map[parent := Row(scope.tenant, scope.workspace, map[]), dependant := row];
    TwoRows(db, parent, dependant, scope);
    DependantGoesToo(db, parent, dependant, row, fk);
  }

  lemma TwoRows(db: Db, parent: Id, dependant: Id, scope: Scope)
    requires db.Keys == {parent, dependant} && parent.table != dependant.table
    requires InScope(db[parent], scope) && InScope(db[dependant], scope)
    ensures ScopeClosed(db) && |db| == 2 && ScopeRows(db, parent.table, scope) == {parent}
  {
    OneScopeIsClosed(db, scope);
    assert |db| == |db.Keys|;
  }

  lemma OneScopeIsClosed(db: Db, scope: Scope)
    requires forall id :: id in db ==> InScope(db[id], scope)
    ensures ScopeClosed(db)
  {
  }

  lemma DependantGoesToo(db: Db, parent: Id, dependant: Id, row: Row, fk: Reference)
    requires db.Keys == {parent, dependant} && parent != dependant && db[dependant] == row
    requires fk in ForeignKeys(dependant.table) && fk.onDelete.Cascade? && fk.table == parent.table
    requires row.refs == map[fk.column := parent.key]
    ensures DeleteRows(db, {parent}) == map[]
  {
    var left := Left(db, {parent});
    OneColumnPerKey(dependant.table, fk);
    assert left.Keys == {dependant} && left[dependant].refs == row.refs;
    assert Dependants(left, {parent}) == {dependant};
    var empty := Left(left, {dependant});
    assert empty == map[] && Dependants(empty, {dependant}) == {};
  }

  /** No column carries two foreign keys. */
  lemma OneColumnPerKey(t: Table, fk: Reference)
    requires fk in ForeignKeys(t)
    ensures forall other :: other in ForeignKeys(t) && other.column == fk.column ==> other == fk
  {
  }
}
