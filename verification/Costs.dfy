/**
 Cost reports: the events of a scope and window, grouped by the requested columns, and summed.

 Costs are whole micro-dollars, as the column has six decimals.
 */
module Costs {
  import opened Basics

  datatype Event = Event(
    tenant: string,
    workspace: string,
    agentName: string,
    model: string,
    day: string,         // the UTC date of `occurredAt`
    occurredAt: int,
    inputTokens: int,
    outputTokens: int,
    totalTokens: int,
    cost: int)

  /** An empty string or a None does not restrict. */
  datatype Filter = Filter(tenant: string, workspace: string, since: Option<int>, until: Option<int>)

  predicate Passes(f: Filter, e: Event) {
    && (f.tenant != "" ==> e.tenant == f.tenant)
    && (f.workspace != "" ==> e.workspace == f.workspace)
    && (f.since.Some? ==> e.occurredAt >= f.since.value)
    && (f.until.Some? ==> e.occurredAt <= f.until.value)
  }

  function Selected(events: seq<Event>, f: Filter): seq<Event> {
    if |events| == 0 then []
    else
      var init, e := Selected(events[..|events| - 1], f), events[|events| - 1];
      if Passes(f, e) then init + [e] else init
  }

  lemma PassesIff(f: Filter, e: Event)
    ensures Passes(f, e)
            <==> && (f.tenant == "" || e.tenant == f.tenant) && (f.workspace == "" || e.workspace == f.workspace)
                 && (f.since == None || f.since.value <= e.occurredAt) && (f.until == None || e.occurredAt <= f.until.value)
  {
  }

  /** Exactly the events that pass are selected, each as often as it was recorded. */
  lemma {:induction false} SelectedIff(events: seq<Event>, f: Filter, e: Event)
    ensures multiset(Selected(events, f))[e] == if Passes(f, e) then multiset(events)[e] else 0
  {
    if |events| > 0 {
      var init, last := events[..|events| - 1], events[|events| - 1];
      SelectedIff(init, f, e);
      assert events == init + [last];
      assert multiset(events) == multiset(init) + multiset([last]);
    }
  }

  /** By columns: the events of the scope and window. */
  lemma SelectedByColumns(events: seq<Event>, f: Filter, e: Event)
    ensures multiset(Selected(events, f))[e]
            == if && (f.tenant == "" || e.tenant == f.tenant) && (f.workspace == "" || e.workspace == f.workspace)
                  && (f.since == None || f.since.value <= e.occurredAt) && (f.until == None || e.occurredAt <= f.until.value)
               then multiset(events)[e] else 0
  {
    PassesIff(f, e);
    SelectedIff(events, f, e);
  }

  datatype Column = Model | AgentName | Date

  function ColumnOf(name: string): Option<Column> {
    if name == "model" then Some(Model)
    else if name == "agent_name" then Some(AgentName)
    else if name == "date" then Some(Date)
    else None
  }

  function Known(groupBy: seq<string>): seq<Column> {
    if |groupBy| == 0 then []
    else
      var rest := Known(groupBy[1..]);
      match ColumnOf(groupBy[0]) case Some(c) => [c] + rest case None => rest
  }

  /** Unknown names are dropped, repeated ones kept; with none left the report is by date. */
  function Columns(groupBy: seq<string>): seq<Column> {
    if Known(groupBy) == [] then [Date] else Known(groupBy)
  }

  function Value(e: Event, c: Column): string {
    match c
    case Model => e.model
    case AgentName => e.agentName
    case Date => e.day
  }

  function KeyOf(e: Event, columns: seq<Column>): (key: seq<string>)
    ensures |key| == |columns|
  {
    if |columns| == 0 then [] else [Value(e, columns[0])] + KeyOf(e, columns[1..])
  }

  datatype Totals = Totals(inputTokens: int, outputTokens: int, totalTokens: int, cost: int, calls: nat)

  const ZERO := Totals(0, 0, 0, 0, 0)

  function Plus(a: Totals, b: Totals): Totals {
    Totals(a.inputTokens + b.inputTokens, a.outputTokens + b.outputTokens, a.totalTokens + b.totalTokens,
           a.cost + b.cost, a.calls + b.calls)
  }

  function One(e: Event): Totals {
    Totals(e.inputTokens, e.outputTokens, e.totalTokens, e.cost, 1)
  }

  lemma {:induction false} KnownAppends(a: seq<string>, b: seq<string>)
    ensures Known(a + b) == Known(a) + Known(b)
    decreases |a|
  {
    if |a| == 0 {
      assert a + b == b;
    } else {
      assert (a + b)[1..] == a[1..] + b;
      KnownAppends(a[1..], b);
    }
  }

  lemma {:induction false} KeyAppends(e: Event, a: seq<Column>, b: seq<Column>)
    ensures KeyOf(e, a + b) == KeyOf(e, a) + KeyOf(e, b)
    decreases |a|
  {
    if |a| == 0 {
      assert a + b == b;
    } else {
      assert (a + b)[1..] == a[1..] + b;
      KeyAppends(e, a[1..], b);
    }
  }

  /** The part of the key that one requested name contributes: a column's value, or nothing. */
  lemma KeyOfName(e: Event, name: string)
    ensures KeyOf(e, Known([name]))
            == if name == "model" then [e.model] else if name == "agent_name" then [e.agentName]
               else if name == "date" then [e.day] else []
  {
    assert Known([name]) == match ColumnOf(name) case Some(c) => [c] case None => [];
    assert forall c :: KeyOf(e, [c]) == [Value(e, c)] by {
      forall c ensures KeyOf(e, [c]) == [Value(e, c)] { assert [c][1..] == []; }
    }
  }

  /** The key follows the requested names in order; with no known name among them it is the day. */
  lemma KeyFollowsNames(e: Event, before: seq<string>, name: string)
    ensures KeyOf(e, Known(before + [name])) == KeyOf(e, Known(before)) + KeyOf(e, Known([name]))
    ensures KeyOf(e, Columns(before)) == if KeyOf(e, Known(before)) == [] then [e.day] else KeyOf(e, Known(before))
  {
    KnownAppends(before, [name]);
    KeyAppends(e, Known(before), Known([name]));
    assert [Date][1..] == [];
  }

  type Choice = seq<string> -> bool

  /** The sums over the events whose key is chosen. */
  function TotalWhere(events: seq<Event>, columns: seq<Column>, chosen: Choice): Totals {
    if |events| == 0 then ZERO
    else
      var init, e := TotalWhere(events[..|events| - 1], columns, chosen), events[|events| - 1];
      if chosen(KeyOf(e, columns)) then Plus(init, One(e)) else init
  }

  function Only(key: seq<string>): Choice {
    k => k == key
  }

  function Everything(): Choice {
    _ => true
  }

  datatype Row = Row(key: seq<string>, totals: Totals)

  function SumWhere(rows: seq<Row>, chosen: Choice): Totals {
    if |rows| == 0 then ZERO
    else
      var init, row := SumWhere(rows[..|rows| - 1], chosen), rows[|rows| - 1];
      if chosen(row.key) then Plus(init, row.totals) else init
  }

  ghost predicate Occurs(events: seq<Event>, columns: seq<Column>, key: seq<string>) {
    exists e :: e in events && KeyOf(e, columns) == key
  }

  ghost predicate HasRow(rows: seq<Row>, key: seq<string>) {
    exists i :: 0 <= i < |rows| && rows[i].key == key
  }

  ghost predicate DistinctKeys(rows: seq<Row>) {
    forall i, j :: 0 <= i < j < |rows| ==> rows[i].key != rows[j].key
  }

  /** There are rows for exactly the keys that occur. */
  ghost predicate Covers(rows: seq<Row>, events: seq<Event>, columns: seq<Column>) {
    forall key :: HasRow(rows, key) <==> Occurs(events, columns, key)
  }

  ghost predicate Summed(rows: seq<Row>, events: seq<Event>, columns: seq<Column>) {
    forall i :: 0 <= i < |rows| ==> rows[i].totals == TotalWhere(events, columns, Only(rows[i].key))
  }

  /** GROUP BY: one row for each key that occurs, with the sums of its events. */
  ghost predicate IsReport(rows: seq<Row>, events: seq<Event>, columns: seq<Column>) {
    DistinctKeys(rows) && Covers(rows, events, columns) && Summed(rows, events, columns)
  }

  class CostRepository {
    var events: seq<Event>

    /** `aggregate`; the rows come in no particular order here. */
    method Aggregate(groupBy: seq<string>, f: Filter) returns (rows: seq<Row>)
      ensures IsReport(rows, Selected(events, f), Columns(groupBy))
    {
      var columns, selected := Columns(groupBy), Selected(events, f);
      rows := [];
      for n := 0 to |selected|
        invariant IsReport(rows, selected[..n], columns)
      {
        assert selected[..n + 1][..n] == selected[..n];
        rows := Count(rows, selected[n], columns, selected[..n]);
        assert selected[..n + 1] == selected[..n] + [selected[n]];
      }
      assert selected[..|selected|] == selected;
    }

    /** One more event: its row grows, or begins. */
    method Count(rows: seq<Row>, e: Event, columns: seq<Column>, ghost before: seq<Event>) returns (more: seq<Row>)
      requires IsReport(rows, before, columns)
      ensures IsReport(more, before + [e], columns)
    {
      var key := KeyOf(e, columns);
      var i := 0;
      while i < |rows| && rows[i].key != key
        invariant 0 <= i <= |rows| && forall k :: 0 <= k < i ==> rows[k].key != key
      {
        i := i + 1;
      }
      if i < |rows| {
        more := rows[i := Row(key, Plus(rows[i].totals, One(e)))];
        ReportGrows(rows, i, e, columns, before);
      } else {
        more := rows + [Row(key, One(e))];
        ReportBegins(rows, e, columns, before);
      }
    }

    /** The controller's running totals over the rows. */
    method Report(groupBy: seq<string>, f: Filter) returns (rows: seq<Row>, totalCost: int, totalCalls: nat)
      ensures IsReport(rows, Selected(events, f), Columns(groupBy))
      ensures totalCost == TotalWhere(Selected(events, f), Columns(groupBy), Everything()).cost
      ensures totalCalls == |Selected(events, f)|
    {
      rows := Aggregate(groupBy, f);
      totalCost, totalCalls := 0, 0;
      for n := 0 to |rows|
        invariant totalCost == SumWhere(rows[..n], Everything()).cost
        invariant totalCalls == SumWhere(rows[..n], Everything()).calls
      {
        assert rows[..n + 1][..n] == rows[..n];
        totalCost, totalCalls := totalCost + rows[n].totals.cost, totalCalls + rows[n].totals.calls;
      }
      assert rows[..|rows|] == rows;
      MergingRows(rows, Selected(events, f), Columns(groupBy), Everything());
      CallsAreEvents(Selected(events, f), Columns(groupBy));
    }
  }

  /** What the sums are: nothing of no events, the columns of one event, and column by column of two lists. */
  lemma {:induction false} TotalsAreColumnSums(a: seq<Event>, e: Event, b: seq<Event>, columns: seq<Column>, chosen: Choice)
    ensures TotalWhere([], columns, chosen) == Totals(0, 0, 0, 0, 0)
    ensures TotalWhere([e], columns, chosen)
            == if chosen(KeyOf(e, columns)) then Totals(e.inputTokens, e.outputTokens, e.totalTokens, e.cost, 1)
               else Totals(0, 0, 0, 0, 0)
    ensures var (x, y, z) := (TotalWhere(a, columns, chosen), TotalWhere(b, columns, chosen), TotalWhere(a + b, columns, chosen));
            && z.inputTokens == x.inputTokens + y.inputTokens && z.outputTokens == x.outputTokens + y.outputTokens
            && z.totalTokens == x.totalTokens + y.totalTokens && z.cost == x.cost + y.cost && z.calls == x.calls + y.calls
    decreases |b|
  {
    assert [e][..0] == [] && [e] == [] + [e];
    TotalSnoc([], e, columns, chosen);
    if |b| == 0 {
      assert a + b == a;
    } else {
      var init, last := b[..|b| - 1], b[|b| - 1];
      TotalsAreColumnSums(a, e, init, columns, chosen);
      assert a + b == (a + init) + [last] && b == init + [last];
      TotalSnoc(a + init, last, columns, chosen);
      TotalSnoc(init, last, columns, chosen);
    }
  }

  lemma TotalSnoc(events: seq<Event>, e: Event, columns: seq<Column>, chosen: Choice)
    ensures TotalWhere(events + [e], columns, chosen)
            == if chosen(KeyOf(e, columns)) then Plus(TotalWhere(events, columns, chosen), One(e))
               else TotalWhere(events, columns, chosen)
  {
    assert (events + [e])[..|events|] == events;
  }

  lemma OccursSnoc(events: seq<Event>, e: Event, columns: seq<Column>, key: seq<string>)
    ensures Occurs(events + [e], columns, key) <==> Occurs(events, columns, key) || KeyOf(e, columns) == key
  {
    if Occurs(events, columns, key) {
      var x :| x in events && KeyOf(x, columns) == key;
      assert x in events + [e];
    }
    assert e in events + [e];
  }

  lemma HasRowUpdate(rows: seq<Row>, i: nat, totals: Totals, key: seq<string>)
    requires i < |rows|
    ensures HasRow(rows[i := Row(rows[i].key, totals)], key) <==> HasRow(rows, key)
  {
    var more := rows[i := Row(rows[i].key, totals)];
    assert forall k :: 0 <= k < |rows| ==> more[k].key == rows[k].key;
  }

  lemma HasRowSnoc(rows: seq<Row>, row: Row, key: seq<string>)
    ensures HasRow(rows + [row], key) <==> HasRow(rows, key) || row.key == key
  {
    var more := rows + [row];
    assert more[|rows|] == row;
    if HasRow(rows, key) {
      var i :| 0 <= i < |rows| && rows[i].key == key;
      assert more[i] == rows[i];
    }
  }

  lemma ReportGrows(rows: seq<Row>, i: nat, e: Event, columns: seq<Column>, events: seq<Event>)
    requires IsReport(rows, events, columns) && i < |rows| && rows[i].key == KeyOf(e, columns)
    ensures IsReport(rows[i := Row(rows[i].key, Plus(rows[i].totals, One(e)))], events + [e], columns)
  {
    var more := rows[i := Row(rows[i].key, Plus(rows[i].totals, One(e)))];
    assert DistinctKeys(more);
    assert Covers(more, events + [e], columns) by {
      assert HasRow(rows, rows[i].key);
      forall key ensures HasRow(more, key) <==> Occurs(events + [e], columns, key) {
        HasRowUpdate(rows, i, Plus(rows[i].totals, One(e)), key);
        OccursSnoc(events, e, columns, key);
      }
    }
    SummedGrows(rows, i, e, columns, events);
  }

  lemma SummedGrows(rows: seq<Row>, i: nat, e: Event, columns: seq<Column>, events: seq<Event>)
    requires DistinctKeys(rows) && Summed(rows, events, columns) && i < |rows| && rows[i].key == KeyOf(e, columns)
    ensures Summed(rows[i := Row(rows[i].key, Plus(rows[i].totals, One(e)))], events + [e], columns)
  {
    var more := rows[i := Row(rows[i].key, Plus(rows[i].totals, One(e)))];
    forall k | 0 <= k < |more| ensures more[k].totals == TotalWhere(events + [e], columns, Only(more[k].key)) {
      TotalSnoc(events, e, columns, Only(rows[k].key));
    }
  }

  lemma ReportBegins(rows: seq<Row>, e: Event, columns: seq<Column>, events: seq<Event>)
    requires IsReport(rows, events, columns) && forall k :: 0 <= k < |rows| ==> rows[k].key != KeyOf(e, columns)
    ensures IsReport(rows + [Row(KeyOf(e, columns), One(e))], events + [e], columns)
  {
    var row := Row(KeyOf(e, columns), One(e));
    assert DistinctKeys(rows + [row]);
    assert !HasRow(rows, row.key);
    assert Covers(rows + [row], events + [e], columns) by {
      forall key ensures HasRow(rows + [row], key) <==> Occurs(events + [e], columns, key) {
        HasRowSnoc(rows, row, key);
        OccursSnoc(events, e, columns, key);
      }
    }
    SummedBegins(rows, e, columns, events);
  }

  lemma SummedBegins(rows: seq<Row>, e: Event, columns: seq<Column>, events: seq<Event>)
    requires Summed(rows, events, columns) && forall k :: 0 <= k < |rows| ==> rows[k].key != KeyOf(e, columns)
    requires !Occurs(events, columns, KeyOf(e, columns))
    ensures Summed(rows + [Row(KeyOf(e, columns), One(e))], events + [e], columns)
  {
    var more := rows + [Row(KeyOf(e, columns), One(e))];
    forall k | 0 <= k < |more| ensures more[k].totals == TotalWhere(events + [e], columns, Only(more[k].key)) {
      TotalSnoc(events, e, columns, Only(more[k].key));
      if k == |rows| { NoneChosen(events, columns, Only(KeyOf(e, columns))); }
    }
  }

  lemma {:induction false} NoneChosen(events: seq<Event>, columns: seq<Column>, chosen: Choice)
    requires forall e :: e in events ==> !chosen(KeyOf(e, columns))
    ensures TotalWhere(events, columns, chosen) == ZERO
  {
    if |events| > 0 {
      assert events[|events| - 1] in events;
      NoneChosen(events[..|events| - 1], columns, chosen);
    }
  }

  // ---------------------------------------------------------------------------------------------
  // Conservation and coarsening
  // ---------------------------------------------------------------------------------------------

  /** The events with another key. */
  function Others(events: seq<Event>, columns: seq<Column>, key: seq<string>): seq<Event> {
    if |events| == 0 then []
    else
      var init, e := Others(events[..|events| - 1], columns, key), events[|events| - 1];
      if KeyOf(e, columns) == key then init else init + [e]
  }

  lemma {:induction false} OthersAre(events: seq<Event>, columns: seq<Column>, key: seq<string>)
    ensures forall e :: e in Others(events, columns, key) <==> e in events && KeyOf(e, columns) != key
  {
    if |events| > 0 {
      OthersAre(events[..|events| - 1], columns, key);
      assert events == events[..|events| - 1] + [events[|events| - 1]];
    }
  }

  /** `total` is `rest`, plus the part set aside if it is chosen. */
  predicate Splits(total: Totals, rest: Totals, aside: Totals, asideChosen: bool) {
    total == Plus(rest, if asideChosen then aside else ZERO)
  }

  lemma SplitZero(asideChosen: bool)
    ensures Splits(ZERO, ZERO, ZERO, asideChosen)
  {
    PlusZero(ZERO);
    assert (if asideChosen then ZERO else ZERO) == ZERO;
  }

  lemma SplitGrows(total: Totals, rest: Totals, aside: Totals, asideChosen: bool, one: Totals)
    requires Splits(total, rest, aside, asideChosen)
    ensures Splits(Plus(total, one), Plus(rest, one), aside, asideChosen)
    ensures asideChosen ==> Splits(Plus(total, one), rest, Plus(aside, one), asideChosen)
    ensures !asideChosen ==> Splits(total, rest, Plus(aside, one), asideChosen)
  {
  }

  lemma OthersSnoc(events: seq<Event>, e: Event, columns: seq<Column>, key: seq<string>)
    ensures Others(events + [e], columns, key)
            == if KeyOf(e, columns) == key then Others(events, columns, key) else Others(events, columns, key) + [e]
  {
    assert (events + [e])[..|events|] == events;
  }

  lemma SplitSnoc(events: seq<Event>, e: Event, columns: seq<Column>, key: seq<string>, chosen: Choice)
    requires Splits(TotalWhere(events, columns, chosen), TotalWhere(Others(events, columns, key), columns, chosen),
                    TotalWhere(events, columns, Only(key)), chosen(key))
    ensures Splits(TotalWhere(events + [e], columns, chosen), TotalWhere(Others(events + [e], columns, key), columns, chosen),
                   TotalWhere(events + [e], columns, Only(key)), chosen(key))
  {
    TotalSnoc(events, e, columns, chosen);
    TotalSnoc(events, e, columns, Only(key));
    OthersSnoc(events, e, columns, key);
    TotalSnoc(Others(events, columns, key), e, columns, chosen);
    SplitGrows(TotalWhere(events, columns, chosen), TotalWhere(Others(events, columns, key), columns, chosen),
               TotalWhere(events, columns, Only(key)), chosen(key), One(e));
  }

  /** Setting one key aside splits every total. */
  lemma {:induction false} TotalSplits(events: seq<Event>, columns: seq<Column>, key: seq<string>, chosen: Choice)
    ensures Splits(TotalWhere(events, columns, chosen), TotalWhere(Others(events, columns, key), columns, chosen),
                   TotalWhere(events, columns, Only(key)), chosen(key))
  {
    if |events| == 0 {
      assert events == [];
      SplitZero(chosen(key));
    } else {
      var init, e := events[..|events| - 1], events[|events| - 1];
      assert events == init + [e];
      TotalSplits(init, columns, key, chosen);
      SplitSnoc(init, e, columns, key, chosen);
    }
  }

  lemma OccursOthers(events: seq<Event>, columns: seq<Column>, aside: seq<string>, key: seq<string>)
    ensures Occurs(Others(events, columns, aside), columns, key) <==> Occurs(events, columns, key) && key != aside
  {
    OthersAre(events, columns, aside);
    if Occurs(events, columns, key) && key != aside {
      var e :| e in events && KeyOf(e, columns) == key;
      assert e in Others(events, columns, aside);
    }
  }

  lemma SummedAside(rows: seq<Row>, events: seq<Event>, columns: seq<Column>)
    requires DistinctKeys(rows) && Summed(rows, events, columns) && |rows| > 0
    ensures Summed(rows[..|rows| - 1], Others(events, columns, rows[|rows| - 1].key), columns)
  {
    var init, key := rows[..|rows| - 1], rows[|rows| - 1].key;
    var rest := Others(events, columns, key);
    forall i | 0 <= i < |init| ensures init[i].totals == TotalWhere(rest, columns, Only(init[i].key)) {
      TotalSplits(events, columns, key, Only(init[i].key));
      PlusZero(TotalWhere(rest, columns, Only(init[i].key)));
    }
  }

  /** Without its last row a report is a report of the other events. */
  lemma LastRowAside(rows: seq<Row>, events: seq<Event>, columns: seq<Column>)
    requires IsReport(rows, events, columns) && |rows| > 0
    ensures IsReport(rows[..|rows| - 1], Others(events, columns, rows[|rows| - 1].key), columns)
  {
    var init, last := rows[..|rows| - 1], rows[|rows| - 1];
    assert init + [last] == rows;
    assert Covers(init, Others(events, columns, last.key), columns) by {
      assert !HasRow(init, last.key);
      forall key ensures HasRow(init, key) <==> Occurs(Others(events, columns, last.key), columns, key) {
        HasRowSnoc(init, last, key);
        OccursOthers(events, columns, last.key, key);
      }
    }
    SummedAside(rows, events, columns);
  }

  lemma PlusZero(a: Totals)
    ensures Plus(a, ZERO) == a
  {
  }

  /**
   For any choice of keys, adding up the chosen rows gives the sums over the events with a chosen key:
   nothing is lost, counted twice or put under another key.
   */
  lemma {:induction false} MergingRows(rows: seq<Row>, events: seq<Event>, columns: seq<Column>, chosen: Choice)
    requires IsReport(rows, events, columns)
    ensures SumWhere(rows, chosen) == TotalWhere(events, columns, chosen)
    decreases |rows|
  {
    if |rows| == 0 {
      NothingToReport(events, columns);
    } else {
      LastRowAside(rows, events, columns);
      MergingRows(rows[..|rows| - 1], Others(events, columns, rows[|rows| - 1].key), columns, chosen);
      MergeLastRow(rows, events, columns, chosen);
    }
  }

  lemma NothingToReport(events: seq<Event>, columns: seq<Column>)
    requires IsReport([], events, columns)
    ensures events == []
  {
    assert |events| > 0 ==> Occurs(events, columns, KeyOf(events[0], columns));
  }

  /** Adding the last row to the sum of the others. */
  lemma MergeLastRow(rows: seq<Row>, events: seq<Event>, columns: seq<Column>, chosen: Choice)
    requires |rows| > 0
    requires rows[|rows| - 1].totals == TotalWhere(events, columns, Only(rows[|rows| - 1].key))
    requires SumWhere(rows[..|rows| - 1], chosen) == TotalWhere(Others(events, columns, rows[|rows| - 1].key), columns, chosen)
    ensures SumWhere(rows, chosen) == TotalWhere(events, columns, chosen)
  {
    var key := rows[|rows| - 1].key;
    TotalSplits(events, columns, key, chosen);
    PlusZero(TotalWhere(Others(events, columns, key), columns, chosen));
  }

  lemma {:induction false} CallsAreEvents(events: seq<Event>, columns: seq<Column>)
    ensures TotalWhere(events, columns, Everything()).calls == |events|
  {
    if |events| > 0 { CallsAreEvents(events[..|events| - 1], columns); }
  }

  /** The overall sums do not depend on the grouping. */
  lemma {:induction false} GrandTotal(events: seq<Event>, a: seq<Column>, b: seq<Column>)
    ensures TotalWhere(events, a, Everything()) == TotalWhere(events, b, Everything())
  {
    if |events| > 0 { GrandTotal(events[..|events| - 1], a, b); }
  }

  /** Whatever names are asked for, every report of a scope and window sums to the same cost and calls. */
  lemma ReportsConserve(events: seq<Event>, f: Filter, a: seq<string>, rowsA: seq<Row>, b: seq<string>, rowsB: seq<Row>)
    requires IsReport(rowsA, Selected(events, f), Columns(a)) && IsReport(rowsB, Selected(events, f), Columns(b))
    ensures SumWhere(rowsA, Everything()) == SumWhere(rowsB, Everything())
    ensures SumWhere(rowsA, Everything()).calls == |Selected(events, f)|
  {
    MergingRows(rowsA, Selected(events, f), Columns(a), Everything());
    MergingRows(rowsB, Selected(events, f), Columns(b), Everything());
    GrandTotal(Selected(events, f), Columns(a), Columns(b));
    CallsAreEvents(Selected(events, f), Columns(a));
  }

  /** The part of a key that some column contributes. */
  function Part(key: seq<string>, columns: seq<Column>, c: Column): string
    requires |key| == |columns| && c in columns
  {
    if columns[0] == c then key[0] else Part(key[1..], columns[1..], c)
  }

  /** A finer key, cut down to coarser columns. */
  function CutDown(key: seq<string>, fine: seq<Column>, coarse: seq<Column>): seq<string>
    requires |key| == |fine| && forall c :: c in coarse ==> c in fine
  {
    if |coarse| == 0 then [] else [Part(key, fine, coarse[0])] + CutDown(key, fine, coarse[1..])
  }

  lemma {:induction false} PartOfKey(e: Event, columns: seq<Column>, c: Column)
    requires c in columns
    ensures Part(KeyOf(e, columns), columns, c) == Value(e, c)
  {
    if columns[0] != c {
      assert KeyOf(e, columns)[1..] == KeyOf(e, columns[1..]);
      PartOfKey(e, columns[1..], c);
    }
  }

  lemma {:induction false} CutDownOfKey(e: Event, fine: seq<Column>, coarse: seq<Column>)
    requires forall c :: c in coarse ==> c in fine
    ensures CutDown(KeyOf(e, fine), fine, coarse) == KeyOf(e, coarse)
  {
    if |coarse| > 0 {
      PartOfKey(e, fine, coarse[0]);
      CutDownOfKey(e, fine, coarse[1..]);
    }
  }

  /** The rows of a fine report that fall into one group of a coarser one. */
  ghost function Into(fine: seq<Column>, coarse: seq<Column>, group: seq<string>): Choice
    requires forall c :: c in coarse ==> c in fine
  {
    key => |key| == |fine| && CutDown(key, fine, coarse) == group
  }

  lemma {:induction false} SameEventsChosen(events: seq<Event>, fine: seq<Column>, coarse: seq<Column>, group: seq<string>)
    requires forall c :: c in coarse ==> c in fine
    ensures TotalWhere(events, fine, Into(fine, coarse, group)) == TotalWhere(events, coarse, Only(group))
  {
    if |events| > 0 {
      CutDownOfKey(events[|events| - 1], fine, coarse);
      SameEventsChosen(events[..|events| - 1], fine, coarse, group);
    }
  }

  /**
   Coarsening: merging the rows of a finer report gives every row of the coarser one, in all its sums,
   and nothing for a group the coarser one does not have.
   */
  lemma MergingGivesCoarser(events: seq<Event>, fine: seq<Column>, coarse: seq<Column>, fineRows: seq<Row>, coarseRows: seq<Row>)
    requires forall c :: c in coarse ==> c in fine
    requires IsReport(fineRows, events, fine) && IsReport(coarseRows, events, coarse)
    ensures forall i :: 0 <= i < |coarseRows| ==>
              SumWhere(fineRows, Into(fine, coarse, coarseRows[i].key)) == coarseRows[i].totals
    ensures forall group :: !HasRow(coarseRows, group) ==> SumWhere(fineRows, Into(fine, coarse, group)) == ZERO
  {
    forall group
      ensures SumWhere(fineRows, Into(fine, coarse, group)) == TotalWhere(events, coarse, Only(group))
      ensures !HasRow(coarseRows, group) ==> TotalWhere(events, coarse, Only(group)) == ZERO
    {
      MergingRows(fineRows, events, fine, Into(fine, coarse, group));
      SameEventsChosen(events, fine, coarse, group);
      if !HasRow(coarseRows, group) {
        assert !Occurs(events, coarse, group);
        NoneChosen(events, coarse, Only(group));
      }
    }
  }
}
