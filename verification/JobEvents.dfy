/**
 Progress events of an ingest job: the append-only table, the log of each job in it, and the
 cursor-paged read, whose pages are cuts of the log.
 */
module JobEvents {
  import opened Basics

  datatype Event = Event(
    id: nat,
    tenant: string,
    workspace: string,
    jobId: string,
    stage: string,
    message: Option<string>,
    payload: string)

  type Events = seq<Event>

  /** The keys every scoped read of the table carries. */
  datatype Scope = Scope(jobId: string, tenant: string, workspace: string)

  predicate InScope(e: Event, scope: Scope) {
    e.jobId == scope.jobId && e.tenant == scope.tenant && e.workspace == scope.workspace
  }

  /** Ids come from an autoincrement column: positive, and growing in table order. */
  ghost predicate Ordered(events: Events) {
    && (forall i :: 0 <= i < |events| ==> events[i].id > 0)
    && (forall i, j :: 0 <= i < j < |events| ==> events[i].id < events[j].id)
  }

  /** The log of one job. */
  function JobLog(events: Events, scope: Scope): Events {
    if |events| == 0 then []
    else
      var init := JobLog(events[..|events| - 1], scope);
      var e := events[|events| - 1];
      if InScope(e, scope) then init + [e] else init
  }

  predicate Beyond(e: Event, scope: Scope, afterId: Option<int>) {
    InScope(e, scope) && (afterId.Some? ==> e.id > afterId.value)
  }

  /** `SELECT ... WHERE` the scope matches and, with a cursor, the id is greater, in id order. */
  function Select(events: Events, scope: Scope, afterId: Option<int>): Events {
    if |events| == 0 then []
    else
      var init := Select(events[..|events| - 1], scope, afterId);
      var e := events[|events| - 1];
      if Beyond(e, scope, afterId) then init + [e] else init
  }

  /** How many events of a log the cursor has passed. */
  function Passed(log: Events, cursor: Option<int>): (n: nat)
    ensures n <= |log|
  {
    if |log| == 0 || cursor.None? || log[0].id > cursor.value then 0
    else 1 + Passed(log[1..], cursor)
  }

  /** What one page holds, said of the job's log rather than of the table. */
  function Page(log: Events, cursor: Option<int>, limit: nat): Events {
    log[Passed(log, cursor)..Min(Passed(log, cursor) + limit, |log|)]
  }

  /** `x or "default"`: an empty string stands for None too. */
  function OrDefault(key: string): string {
    if key == "" then "default" else key
  }

  /** The new event ends the table and the log of its scope; no other log changes. */
  ghost predicate AppendedTo(rows: Events, before: Events, e: Event, scope: Scope) {
    && InScope(e, scope) && rows == before + [e]
    && JobLog(rows, scope) == JobLog(before, scope) + [e]
    && forall other :: other != scope ==> JobLog(rows, other) == JobLog(before, other)
  }

  class EventTable {
    var rows: Events

    ghost predicate Valid()
      reads this
    {
      Ordered(rows)
    }

    constructor ()
      ensures Valid() && rows == []
    {
      rows := [];
    }

    method AppendEvent(jobId: string, tenant: string, workspace: string, stage: string, message: Option<string>,
                       payload: string) returns (e: Event)
      requires Valid()
      modifies this
      ensures Valid()
      ensures var scope := Scope(jobId, OrDefault(tenant), OrDefault(workspace));
              AppendedTo(rows, old(rows), e, scope)
      ensures e.stage == stage && e.message == message && e.payload == payload
    {
      var next := if |rows| == 0 then 1 else rows[|rows| - 1].id + 1;
      e := Event(next, OrDefault(tenant), OrDefault(workspace), jobId, stage, message, payload);
      OrderedSnoc(rows, e);
      SnocAppends(rows, e, Scope(jobId, OrDefault(tenant), OrDefault(workspace)));
      rows := rows + [e];
    }

    /** The query filters the whole table; its page is nevertheless a cut of the job's log. */
    method ListEvents(scope: Scope, afterId: Option<int>, limit: nat) returns (page: Events)
      requires Valid()
      ensures page == Page(JobLog(rows, scope), afterId, limit)
      ensures IsPage(page, rows, scope, afterId, limit)
    {
      var selected := Select(rows, scope, afterId);
      page := selected[..Min(limit, |selected|)];
      SelectIsCut(rows, scope, afterId);
      PageMeans(rows, scope, afterId, limit);
    }
  }

  lemma OrderedSnoc(before: Events, e: Event)
    requires Ordered(before) && e.id > 0 && (|before| > 0 ==> before[|before| - 1].id < e.id)
    ensures Ordered(before + [e])
  {
  }

  lemma SnocAppends(before: Events, e: Event, scope: Scope)
    requires InScope(e, scope)
    ensures AppendedTo(before + [e], before, e, scope)
  {
    assert (before + [e])[..|before|] == before;
  }

  lemma {:induction false} LogFacts(events: Events, scope: Scope)
    requires Ordered(events)
    ensures Ordered(JobLog(events, scope))
    ensures forall e :: e in JobLog(events, scope) <==> e in events && InScope(e, scope)
  {
    if |events| > 0 {
      var init, e := events[..|events| - 1], events[|events| - 1];
      LogFacts(init, scope);
      assert events == init + [e];
      forall x | x in JobLog(init, scope) ensures x.id < e.id {
        assert x in init;
      }
    }
  }

  /** In an ordered log the cursor splits the events by id. */
  lemma {:induction false} PassedCuts(log: Events, cursor: Option<int>)
    requires Ordered(log)
    ensures forall i :: 0 <= i < |log| ==> (i < Passed(log, cursor) <==> cursor.Some? && log[i].id <= cursor.value)
  {
    if |log| > 0 && cursor.Some? && log[0].id <= cursor.value {
      PassedCuts(log[1..], cursor);
      forall i | 0 < i < |log| ensures i < Passed(log, cursor) <==> log[i].id <= cursor.value {
        assert log[1..][i - 1] == log[i];
      }
    }
  }

  lemma PassedUnique(log: Events, cursor: Option<int>, n: nat)
    requires Ordered(log) && n <= |log|
    requires n > 0 ==> cursor.Some? && log[n - 1].id <= cursor.value
    requires n < |log| && cursor.Some? ==> cursor.value < log[n].id
    ensures Passed(log, cursor) == n
  {
    PassedCuts(log, cursor);
    if n < |log| { assert !(n < Passed(log, cursor)); }
    if n > 0 { assert n - 1 < Passed(log, cursor); }
  }

  /** A cursor stops at the same place in an earlier state of the log, or at its end. */
  lemma {:induction false} PassedInPrefix(part: Events, log: Events, cursor: Option<int>)
    requires part <= log
    ensures Passed(part, cursor) == Min(Passed(log, cursor), |part|)
  {
    if |part| > 0 && cursor.Some? && log[0].id <= cursor.value {
      PassedInPrefix(part[1..], log[1..], cursor);
    }
  }

  lemma PassedSnoc(log: Events, e: Event, cursor: Option<int>)
    requires Ordered(log) && (Ordered(log + [e]))
    ensures Passed(log + [e], cursor)
            == if cursor.Some? && e.id <= cursor.value then |log| + 1 else Passed(log, cursor)
  {
    var longer := log + [e];
    PassedCuts(log, cursor);
    PassedCuts(longer, cursor);
    assert longer[|log|] == e;
    var n := Passed(log, cursor);
    if n < |log| { assert longer[n] == log[n]; }
    if n > 0 { assert longer[n - 1] == log[n - 1]; }
    if cursor.Some? && e.id <= cursor.value {
      PassedUnique(longer, cursor, |log| + 1);
    } else {
      PassedUnique(longer, cursor, n);
    }
  }

  lemma {:induction false} SelectIsCut(events: Events, scope: Scope, afterId: Option<int>)
    requires Ordered(events)
    ensures Select(events, scope, afterId) == JobLog(events, scope)[Passed(JobLog(events, scope), afterId)..]
  {
    if |events| > 0 {
      var init, e := events[..|events| - 1], events[|events| - 1];
      SelectIsCut(init, scope, afterId);
      LogFacts(init, scope);
      LogFacts(events, scope);
      if InScope(e, scope) {
        var log := JobLog(init, scope);
        if |log| > 0 { assert log[|log| - 1] in init; }
        CutSnoc(log, e, afterId);
      }
    }
  }

  lemma PageIsBeyond(log: Events, cursor: Option<int>, limit: nat, e: Event)
    requires Ordered(log) && e in Page(log, cursor, limit)
    ensures e in log && (cursor.Some? ==> e.id > cursor.value)
  {
    PassedCuts(log, cursor);
    var n, page := Passed(log, cursor), Page(log, cursor, limit);
    var i :| 0 <= i < |page| && page[i] == e;
    assert log[n + i] == e;
  }

  /** What lies beyond the cursor and not on the page lies behind a full page. */
  lemma BehindPage(log: Events, cursor: Option<int>, limit: nat, e: Event)
    requires Ordered(log) && e in log && e !in Page(log, cursor, limit) && (cursor.Some? ==> e.id > cursor.value)
    ensures |Page(log, cursor, limit)| == limit
    ensures forall k :: 0 <= k < limit ==> Page(log, cursor, limit)[k].id < e.id
  {
    PassedCuts(log, cursor);
    var n, page := Passed(log, cursor), Page(log, cursor, limit);
    var i :| 0 <= i < |log| && log[i] == e;
    assert i >= n;
    assert log[n..n + |page|] == page;
    assert i >= n + |page|;
    forall k | 0 <= k < |page| ensures page[k].id < e.id {
      assert page[k] == log[n + k];
    }
  }

  /** The page is in id order, holds events of the scope beyond the cursor, and leaves out only later ones. */
  ghost predicate IsPage(page: Events, events: Events, scope: Scope, afterId: Option<int>, limit: nat) {
    && Ordered(page) && |page| <= limit
    && (forall e :: e in page ==>
          && e in events && e.jobId == scope.jobId && e.tenant == scope.tenant && e.workspace == scope.workspace
          && (afterId.Some? ==> e.id > afterId.value))
    && (forall e :: e in events && InScope(e, scope) && (afterId.Some? ==> e.id > afterId.value) && e !in page ==>
          |page| == limit && forall k :: 0 <= k < limit ==> page[k].id < e.id)
  }

  lemma PageMeans(events: Events, scope: Scope, afterId: Option<int>, limit: nat)
    requires Ordered(events)
    ensures IsPage(Page(JobLog(events, scope), afterId, limit), events, scope, afterId, limit)
  {
    LogFacts(events, scope);
    PageIsSound(events, JobLog(events, scope), scope, afterId, limit);
    PageIsComplete(events, JobLog(events, scope), scope, afterId, limit);
  }

  lemma PageIsSound(events: Events, log: Events, scope: Scope, afterId: Option<int>, limit: nat)
    requires Ordered(log) && forall e :: e in log ==> e in events && InScope(e, scope)
    ensures forall e :: e in Page(log, afterId, limit) ==> e in events && InScope(e, scope) && (afterId.Some? ==> e.id > afterId.value)
  {
    forall e | e in Page(log, afterId, limit) ensures e in log && (afterId.Some? ==> e.id > afterId.value) {
      PageIsBeyond(log, afterId, limit, e);
    }
  }

  lemma PageIsComplete(events: Events, log: Events, scope: Scope, afterId: Option<int>, limit: nat)
    requires Ordered(log) && forall e :: e in events && InScope(e, scope) ==> e in log
    ensures var page := Page(log, afterId, limit);
            forall e :: e in events && InScope(e, scope) && (afterId.Some? ==> e.id > afterId.value) && e !in page ==>
              |page| == limit && forall k :: 0 <= k < limit ==> page[k].id < e.id
  {
    forall e | e in events && InScope(e, scope) && (afterId.Some? ==> e.id > afterId.value) && e !in Page(log, afterId, limit)
      ensures |Page(log, afterId, limit)| == limit
      ensures forall k :: 0 <= k < limit ==> Page(log, afterId, limit)[k].id < e.id
    {
      BehindPage(log, afterId, limit, e);
    }
  }

  /** Appending one event to a log appends it to what lies beyond the cursor, or to nothing. */
  lemma CutSnoc(log: Events, e: Event, cursor: Option<int>)
    requires Ordered(log) && Ordered(log + [e])
    requires |log| > 0 ==> log[|log| - 1].id < e.id
    ensures (log + [e])[Passed(log + [e], cursor)..]
            == if cursor.Some? && e.id <= cursor.value then [] else log[Passed(log, cursor)..] + [e]
    ensures cursor.Some? && e.id <= cursor.value ==> log[Passed(log, cursor)..] == []
  {
    PassedSnoc(log, e, cursor);
    if cursor.Some? && e.id <= cursor.value {
      PassedUnique(log, cursor, |log|);
    }
  }

  lemma {:induction false} LogOfPrefix(part: Events, whole: Events, scope: Scope)
    requires part <= whole
    ensures JobLog(part, scope) <= JobLog(whole, scope)
    decreases |whole|
  {
    if |part| < |whole| {
      LogOfPrefix(part, whole[..|whole| - 1], scope);
    } else {
      assert part == whole;
    }
  }
}
