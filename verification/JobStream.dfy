/**
 The job stream: a polling loop that sends a job's log as frames, and clients that lose the
 connection after any frame and come back.

 The database is shared, so every read of the loop may see a different moment.  A poll is the pair of
 reads one iteration makes; all that is assumed of it is that the table it sees is an initial segment
 of the table as it will finally be (rows are only appended, and become visible in id order).
 */
module JobStream {
  import opened Basics
  import opened JobEvents
  import Jobs = IngestJobs
  import Text

  datatype Frame =
    | Opening(id: string, status: Jobs.Status, attempts: nat)
    | Progress(event: Event)
    | Closing(id: string, status: Jobs.Status, sourceId: Option<string>,
              errorCode: Option<string>, errorMessage: Option<string>)

  /** One iteration of the loop: the event table at the first read, the job row at the second. */
  datatype Poll = Poll(events: Events, job: Option<Jobs.Job>)

  function ResolveResumeCursor(afterId: int, lastEventId: Option<string>): (cursor: Option<int>)
    ensures afterId > 0 ==> cursor == Some(afterId)
    ensures cursor.Some? ==> cursor.value > 0
  {
    if afterId > 0 then Some(afterId)
    else if lastEventId.Some? && lastEventId.value != "" then
      match Text.ParseInt(Text.Strip(lastEventId.value))
      case None => None
      case Some(parsed) => if parsed > 0 then Some(parsed) else None
    else None
  }

  function ProgressFrames(page: Events): seq<Frame> {
    if |page| == 0 then [] else ProgressFrames(page[..|page| - 1]) + [Progress(page[|page| - 1])]
  }

  function Snapshot(scope: Scope, job: Option<Jobs.Job>): seq<Frame> {
    if job.None? then [] else [Opening(scope.jobId, job.value.status, job.value.attempts)]
  }

  function ClosingFrame(scope: Scope, job: Jobs.Job): Frame {
    Closing(scope.jobId, job.status, job.sourceId, job.errorCode, job.errorMessage)
  }

  /** `cursor = event.id` for every event of the page. */
  function Advance(cursor: Option<int>, page: Events): Option<int> {
    if |page| == 0 then cursor else Some(page[|page| - 1].id)
  }

  predicate Ends(poll: Poll) {
    poll.job.None? || Jobs.Terminal(poll.job.value)
  }

  /** The frames after the snapshot, for the moments the loop happens to look at. */
  function Body(scope: Scope, cursor: Option<int>, polls: seq<Poll>, limit: nat): seq<Frame>
    decreases |polls|, 0
  {
    if |polls| == 0 then []
    else
      var page := Page(JobLog(polls[0].events, scope), cursor, limit);
      ProgressFrames(page) + Tail(scope, Advance(cursor, page), polls[0], polls[1..], limit)
  }

  /** What follows a page: nothing if the job is gone, one last frame if it is finished, or the rest. */
  function Tail(scope: Scope, cursor: Option<int>, poll: Poll, later: seq<Poll>, limit: nat): seq<Frame>
    decreases |later|, 1
  {
    if poll.job.None? then []
    else if Jobs.Terminal(poll.job.value) then [ClosingFrame(scope, poll.job.value)]
    else Body(scope, cursor, later, limit)
  }

  function Stream(scope: Scope, resumeFrom: Option<int>, first: Option<Jobs.Job>, polls: seq<Poll>, limit: nat): seq<Frame> {
    Snapshot(scope, first) + Body(scope, resumeFrom, polls, limit)
  }

  /** The inner loop: one frame per event, the cursor following. */
  method SendPage(events: Events, from: Option<int>) returns (frames: seq<Frame>, cursor: Option<int>)
    ensures frames == ProgressFrames(events) && cursor == Advance(from, events)
  {
    cursor, frames := from, [];
    var k := 0;
    while k < |events|
      invariant 0 <= k <= |events|
      invariant cursor == Advance(from, events[..k])
      invariant frames == ProgressFrames(events[..k])
    {
      cursor := Some(events[k].id);
      frames := frames + [Progress(events[k])];
      assert events[..k + 1][..k] == events[..k];
      k := k + 1;
    }
    assert events[..k] == events;
  }

  lemma BodyUnrolls(frames: seq<Frame>, scope: Scope, cursor: Option<int>, polls: seq<Poll>, n: nat, limit: nat)
    requires n < |polls|
    ensures var page := Page(JobLog(polls[n].events, scope), cursor, limit);
            frames + Body(scope, cursor, polls[n..], limit)
            == (frames + ProgressFrames(page)) + Tail(scope, Advance(cursor, page), polls[n], polls[n + 1..], limit)
  {
    assert polls[n..][1..] == polls[n + 1..];
  }

  /** The generator; `polls` is what its queries answer, and it stops early when they run out. */
  method StreamJob(scope: Scope, resumeFrom: Option<int>, first: Option<Jobs.Job>, polls: seq<Poll>, limit: nat)
      returns (frames: seq<Frame>)
    ensures frames == Stream(scope, resumeFrom, first, polls, limit)
    ensures OpensOnce(frames, scope, first)
    ensures ClosesOnce(frames, scope, polls)
  {
    StreamOpensOnce(scope, resumeFrom, first, polls, limit);
    StreamClosesOnce(scope, resumeFrom, first, polls, limit);
    var cursor := resumeFrom;
    frames := Snapshot(scope, first);
    var n := 0;
    while n < |polls|
      invariant 0 <= n <= |polls|
      invariant frames + Body(scope, cursor, polls[n..], limit) == Stream(scope, resumeFrom, first, polls, limit)
    {
      var poll := polls[n];
      BodyUnrolls(frames, scope, cursor, polls, n, limit);
      var sent, next := SendPage(Page(JobLog(poll.events, scope), cursor, limit), cursor);
      frames, cursor := frames + sent, next;
      if poll.job.None? {
        return;
      }
      if Jobs.Terminal(poll.job.value) {
        frames := frames + [ClosingFrame(scope, poll.job.value)];
        return;
      }
      n := n + 1;
    }
  }

  // ---------------------------------------------------------------------------------------------
  // The status frames
  // ---------------------------------------------------------------------------------------------

  /** The snapshot comes first, exactly if the job exists, and nowhere else. */
  ghost predicate OpensOnce(frames: seq<Frame>, scope: Scope, first: Option<Jobs.Job>) {
    && (first.Some? ==> |frames| > 0 && frames[0] == Opening(scope.jobId, first.value.status, first.value.attempts))
    && (forall k :: 0 <= k < |frames| && frames[k].Opening? ==> k == 0 && first.Some?)
  }

  /** The first poll that finds the job finished or gone, or the number of polls. */
  function FirstEnd(polls: seq<Poll>): (n: nat)
    ensures n <= |polls|
    ensures forall k :: 0 <= k < n ==> polls[k].job.Some? && polls[k].job.value.status in {Jobs.Queued, Jobs.Running}
    ensures n < |polls| ==> polls[n].job.None? || polls[n].job.value.status in {Jobs.Succeeded, Jobs.Failed}
  {
    if |polls| == 0 || Ends(polls[0]) then 0 else 1 + FirstEnd(polls[1..])
  }

  /**
   If the loop ends on a finished job, the last frame says how the job ended, and it is the only one of
   its kind; otherwise there is none.
   */
  ghost predicate ClosesOnce(frames: seq<Frame>, scope: Scope, polls: seq<Poll>) {
    var end := FirstEnd(polls);
    if end < |polls| && polls[end].job.Some? then
      var job := polls[end].job.value;
      && |frames| > 0
      && frames[|frames| - 1] == Closing(scope.jobId, job.status, job.sourceId, job.errorCode, job.errorMessage)
      && forall k :: 0 <= k < |frames| - 1 ==> !frames[k].Closing?
    else
      forall k :: 0 <= k < |frames| ==> !frames[k].Closing?
  }

  lemma {:induction false} OnlyProgress(page: Events)
    ensures forall k :: 0 <= k < |ProgressFrames(page)| ==> ProgressFrames(page)[k].Progress?
  {
    if |page| > 0 { OnlyProgress(page[..|page| - 1]); }
  }

  lemma {:induction false} BodyNeverOpens(scope: Scope, cursor: Option<int>, polls: seq<Poll>, limit: nat)
    ensures forall k :: 0 <= k < |Body(scope, cursor, polls, limit)| ==> !Body(scope, cursor, polls, limit)[k].Opening?
    decreases |polls|
  {
    if |polls| > 0 {
      var page := Page(JobLog(polls[0].events, scope), cursor, limit);
      var tail := Tail(scope, Advance(cursor, page), polls[0], polls[1..], limit);
      OnlyProgress(page);
      BodyNeverOpens(scope, Advance(cursor, page), polls[1..], limit);
      assert Body(scope, cursor, polls, limit) == ProgressFrames(page) + tail;
      if !Ends(polls[0]) { assert tail == Body(scope, Advance(cursor, page), polls[1..], limit); }
    }
  }

  lemma StreamOpensOnce(scope: Scope, resumeFrom: Option<int>, first: Option<Jobs.Job>, polls: seq<Poll>, limit: nat)
    ensures OpensOnce(Stream(scope, resumeFrom, first, polls, limit), scope, first)
  {
    BodyNeverOpens(scope, resumeFrom, polls, limit);
  }

  /** Frames that do not close may be put in front. */
  lemma ClosesOnceBehind(front: seq<Frame>, frames: seq<Frame>, scope: Scope, polls: seq<Poll>)
    requires ClosesOnce(frames, scope, polls) && forall k :: 0 <= k < |front| ==> !front[k].Closing?
    ensures ClosesOnce(front + frames, scope, polls)
  {
  }

  lemma {:induction false} BodyClosesOnce(scope: Scope, cursor: Option<int>, polls: seq<Poll>, limit: nat)
    ensures ClosesOnce(Body(scope, cursor, polls, limit), scope, polls)
    decreases |polls|
  {
    if |polls| > 0 {
      var page := Page(JobLog(polls[0].events, scope), cursor, limit);
      var tail := Tail(scope, Advance(cursor, page), polls[0], polls[1..], limit);
      OnlyProgress(page);
      if !Ends(polls[0]) {
        BodyClosesOnce(scope, Advance(cursor, page), polls[1..], limit);
        assert ClosesOnce(tail, scope, polls);
      }
      ClosesOnceBehind(ProgressFrames(page), tail, scope, polls);
    }
  }

  lemma StreamClosesOnce(scope: Scope, resumeFrom: Option<int>, first: Option<Jobs.Job>, polls: seq<Poll>, limit: nat)
    ensures ClosesOnce(Stream(scope, resumeFrom, first, polls, limit), scope, polls)
  {
    BodyClosesOnce(scope, resumeFrom, polls, limit);
    ClosesOnceBehind(Snapshot(scope, first), Body(scope, resumeFrom, polls, limit), scope, polls);
  }

  // ---------------------------------------------------------------------------------------------
  // The events
  // ---------------------------------------------------------------------------------------------

  /** The events a client reads out of a sequence of frames. */
  function Delivered(frames: seq<Frame>): Events {
    if |frames| == 0 then []
    else if frames[0].Progress? then [frames[0].event] + Delivered(frames[1..])
    else Delivered(frames[1..])
  }

  lemma {:induction false} DeliveredAppends(a: seq<Frame>, b: seq<Frame>)
    ensures Delivered(a + b) == Delivered(a) + Delivered(b)
  {
    if |a| == 0 {
      assert a + b == b;
    } else {
      assert (a + b)[1..] == a[1..] + b;
      DeliveredAppends(a[1..], b);
    }
  }

  lemma {:induction false} DeliveredProgress(page: Events)
    ensures Delivered(ProgressFrames(page)) == page
  {
    if |page| > 0 {
      DeliveredProgress(page[..|page| - 1]);
      DeliveredAppends(ProgressFrames(page[..|page| - 1]), [Progress(page[|page| - 1])]);
    }
  }

  // ---------------------------------------------------------------------------------------------
  // One connection sends a segment of the log
  // ---------------------------------------------------------------------------------------------

  /** Every poll saw some initial segment of the table. */
  ghost predicate Sees(polls: seq<Poll>, table: Events) {
    forall i :: 0 <= i < |polls| ==> polls[i].events <= table
  }

  /** Where the segment ends that a page adds to the `n` events sent so far. */
  function PageEnd(n: nat, seen: nat, limit: nat): nat {
    if seen <= n then n else Min(n + limit, seen)
  }

  /** A page read from an earlier table is the segment of the whole log that starts at the cursor. */
  lemma PageIsSegment(part: Events, table: Events, scope: Scope, cursor: Option<int>, limit: nat) returns (m: nat)
    requires Ordered(table) && part <= table
    ensures
      var log := JobLog(table, scope);
      var n := Passed(log, cursor);
      var page := Page(JobLog(part, scope), cursor, limit);
      && n <= m <= |log| && page == log[n..m]
      && m == PageEnd(n, |JobLog(part, scope)|, limit)
      && Passed(log, Advance(cursor, page)) == m
  {
    LogFacts(table, scope);
    LogOfPrefix(part, table, scope);
    m := PageOfPart(JobLog(part, scope), JobLog(table, scope), cursor, limit);
  }

  lemma PageOfPart(seen: Events, log: Events, cursor: Option<int>, limit: nat) returns (m: nat)
    requires Ordered(log) && seen <= log
    ensures
      var n := Passed(log, cursor);
      var page := Page(seen, cursor, limit);
      && n <= m <= |log| && page == log[n..m]
      && m == PageEnd(n, |seen|, limit)
      && Passed(log, Advance(cursor, page)) == m
  {
    var n, page := Passed(log, cursor), Page(seen, cursor, limit);
    m := PageEnd(n, |seen|, limit);
    PassedInPrefix(seen, log, cursor);
    if n < m {
      assert page == seen[n..m] == log[n..m];
      PassedUnique(log, Some(log[m - 1].id), m);
    } else {
      assert page == [] == log[n..m];
    }
  }

  /** What one iteration delivers, and what is left to the later ones. */
  lemma BodyDelivers(scope: Scope, cursor: Option<int>, polls: seq<Poll>, limit: nat)
    requires |polls| > 0
    ensures var page := Page(JobLog(polls[0].events, scope), cursor, limit);
            Delivered(Body(scope, cursor, polls, limit))
            == page + if Ends(polls[0]) then [] else Delivered(Body(scope, Advance(cursor, page), polls[1..], limit))
  {
    var page := Page(JobLog(polls[0].events, scope), cursor, limit);
    DeliveredProgress(page);
    DeliveredAppends(ProgressFrames(page), Tail(scope, Advance(cursor, page), polls[0], polls[1..], limit));
  }

  lemma {:induction false} BodySendsSegment(scope: Scope, cursor: Option<int>, polls: seq<Poll>, limit: nat, table: Events)
      returns (m: nat)
    requires Ordered(table) && Sees(polls, table)
    ensures var log := JobLog(table, scope);
            Passed(log, cursor) <= m <= |log|
            && Delivered(Body(scope, cursor, polls, limit)) == log[Passed(log, cursor)..m]
    decreases |polls|
  {
    m := Passed(JobLog(table, scope), cursor);
    if |polls| > 0 {
      var page := Page(JobLog(polls[0].events, scope), cursor, limit);
      m := PageIsSegment(polls[0].events, table, scope, cursor, limit);
      BodyDelivers(scope, cursor, polls, limit);
      if !Ends(polls[0]) {
        var end := BodySendsSegment(scope, Advance(cursor, page), polls[1..], limit, table);
        JoinSegments(page, Delivered(Body(scope, Advance(cursor, page), polls[1..], limit)), JobLog(table, scope),
                     Passed(JobLog(table, scope), cursor), m, end);
        m := end;
      }
    }
  }

  lemma JoinSegments<T>(x: seq<T>, y: seq<T>, log: seq<T>, a: nat, b: nat, c: nat)
    requires a <= b <= c <= |log| && x == log[a..b] && y == log[b..c]
    ensures x + y == log[a..c]
  {
  }

  lemma WholeIff<T>(s: seq<T>, n: nat)
    requires n <= |s|
    ensures s[..n] == s <==> n == |s|
  {
  }

  lemma InitialPart<T>(x: seq<T>, y: seq<T>, whole: seq<T>)
    requires x + y == whole
    ensures x == whole[..|x|]
  {
  }

  lemma StreamSendsSegment(scope: Scope, cursor: Option<int>, first: Option<Jobs.Job>, polls: seq<Poll>,
                           limit: nat, table: Events, cut: nat) returns (m: nat)
    requires Ordered(table) && Sees(polls, table)
    requires cut <= |Stream(scope, cursor, first, polls, limit)|
    ensures var log := JobLog(table, scope);
            Passed(log, cursor) <= m <= |log|
            && Delivered(Stream(scope, cursor, first, polls, limit)[..cut]) == log[Passed(log, cursor)..m]
  {
    var log := JobLog(table, scope);
    var end := BodySendsSegment(scope, cursor, polls, limit, table);
    DeliveredAppends(Snapshot(scope, first), Body(scope, cursor, polls, limit));
    m := CutDelivers(Stream(scope, cursor, first, polls, limit), cut, log, Passed(log, cursor), end);
  }

  /** Frames cut off anywhere deliver an initial part of what they would have delivered. */
  lemma CutDelivers(frames: seq<Frame>, cut: nat, log: Events, start: nat, end: nat) returns (m: nat)
    requires cut <= |frames| && start <= end <= |log| && Delivered(frames) == log[start..end]
    ensures start <= m <= end && Delivered(frames[..cut]) == log[start..m]
  {
    assert frames == frames[..cut] + frames[cut..];
    DeliveredAppends(frames[..cut], frames[cut..]);
    InitialPart(Delivered(frames[..cut]), Delivered(frames[cut..]), log[start..end]);
    m := start + |Delivered(frames[..cut])|;
  }

  // ---------------------------------------------------------------------------------------------
  // Exactly-once resume
  // ---------------------------------------------------------------------------------------------

  /**
   How a returning client names the last event it saw: in the URL, where the header is then ignored
   whatever it says, or in the Last-Event-ID header alone.
   */
  datatype Channel = ByQuery(ignoredHeader: Option<string>) | ByHeader

  /** A connection: what the server saw during it, and how many frames arrived before it was lost. */
  datatype Connection = Connection(first: Option<Jobs.Job>, polls: seq<Poll>, arrived: nat, channel: Channel)

  function ResumeFrom(received: Events, channel: Channel): Option<int> {
    if |received| == 0 then ResolveResumeCursor(0, None)
    else
      var last := received[|received| - 1].id;
      match channel
      case ByQuery(header) => ResolveResumeCursor(last, header)
      case ByHeader => ResolveResumeCursor(0, Some(Text.Decimal(last)))
  }

  /** The events that arrive on one connection of a client that has `received` so far. */
  function Arrives(scope: Scope, received: Events, c: Connection, limit: nat): Events {
    var frames := Stream(scope, ResumeFrom(received, c.channel), c.first, c.polls, limit);
    Delivered(frames[..Min(c.arrived, |frames|)])
  }

  /** Everything a client has received after these connections. */
  function Session(scope: Scope, received: Events, connections: seq<Connection>, limit: nat): Events
    decreases |connections|
  {
    if |connections| == 0 then received
    else Session(scope, received + Arrives(scope, received, connections[0], limit), connections[1..], limit)
  }

  lemma ResumeFindsLast(received: Events, channel: Channel)
    requires |received| > 0 && received[|received| - 1].id > 0
    ensures ResumeFrom(received, channel) == Some(received[|received| - 1].id)
  {
    HeaderNamesEvent(received[|received| - 1].id);
  }

  /** A printed id survives the header: stripping, parsing and the positivity test give it back. */
  lemma HeaderNamesEvent(id: nat)
    requires id > 0
    ensures ResolveResumeCursor(0, Some(Text.Decimal(id))) == Some(id)
  {
    Text.DecimalIsDigits(id);
    Text.StripKeeps(Text.Decimal(id));
    Text.ParseIntOfDecimal(id);
  }

  /** A client that has an initial segment of the log resumes right behind it, by either channel. */
  lemma ResumesBehind(scope: Scope, received: Events, channel: Channel, table: Events)
    requires Ordered(table) && received <= JobLog(table, scope)
    ensures Passed(JobLog(table, scope), ResumeFrom(received, channel)) == |received|
  {
    LogFacts(table, scope);
    if |received| > 0 { ResumeFindsLast(received, channel); }
    PassedUnique(JobLog(table, scope), ResumeFrom(received, channel), |received|);
  }

  lemma ArrivesSegment(scope: Scope, received: Events, c: Connection, limit: nat, table: Events) returns (m: nat)
    requires Ordered(table) && Sees(c.polls, table)
    ensures var log := JobLog(table, scope);
            var start := Passed(log, ResumeFrom(received, c.channel));
            start <= m <= |log| && Arrives(scope, received, c, limit) == log[start..m]
  {
    var cursor := ResumeFrom(received, c.channel);
    var frames := Stream(scope, cursor, c.first, c.polls, limit);
    m := StreamSendsSegment(scope, cursor, c.first, c.polls, limit, table, Min(c.arrived, |frames|));
  }

  lemma PrefixExtends<T>(part: seq<T>, more: seq<T>, whole: seq<T>, m: nat)
    requires part <= whole && |part| <= m <= |whole| && more == whole[|part|..m]
    ensures part + more == whole[..m]
  {
  }

  /** One more connection extends the initial segment a client has. */
  lemma ArrivalsExtend(scope: Scope, received: Events, c: Connection, limit: nat, table: Events)
    requires Ordered(table) && received <= JobLog(table, scope) && Sees(c.polls, table)
    ensures received + Arrives(scope, received, c, limit) <= JobLog(table, scope)
  {
    ResumesBehind(scope, received, c.channel, table);
    var m := ArrivesSegment(scope, received, c, limit, table);
    PrefixExtends(received, Arrives(scope, received, c, limit), JobLog(table, scope), m);
  }

  /**
   Exactly-once resume: over any number of connections, each lost after any frame, with events being
   appended at any time, what a client has received is an initial segment of the job's log.
   */
  lemma {:induction false} SessionReceivesPrefix(scope: Scope, received: Events, connections: seq<Connection>,
                                                limit: nat, table: Events)
    requires Ordered(table) && received <= JobLog(table, scope)
    requires forall i :: 0 <= i < |connections| ==> Sees(connections[i].polls, table)
    ensures Session(scope, received, connections, limit) <= JobLog(table, scope)
    decreases |connections|
  {
    if |connections| > 0 {
      ArrivalsExtend(scope, received, connections[0], limit, table);
      SessionReceivesPrefix(scope, received + Arrives(scope, received, connections[0], limit), connections[1..], limit, table);
    }
  }

  /** With both channels in play the URL wins, so they must agree or the URL must be silent. */
  lemma OneChannel(afterId: int, last: nat)
    requires last > 0
    ensures ResolveResumeCursor(afterId, Some(Text.Decimal(last))) == Some(last) <==> afterId <= 0 || afterId == last
  {
    HeaderNamesEvent(last);
    if afterId <= 0 {
      assert ResolveResumeCursor(afterId, Some(Text.Decimal(last))) == ResolveResumeCursor(0, Some(Text.Decimal(last)));
    }
  }

  /**
   A stale after_id left in the URL replays: however far the client has come, the next connection
   starts again behind the event the URL names.
   */
  lemma StaleAfterIdReplays(scope: Scope, table: Events, received: Events, stale: nat, job: Option<Jobs.Job>, limit: nat)
    requires Ordered(table) && limit > 0 && received <= JobLog(table, scope)
    requires stale + 1 < |received|
    ensures
      var cursor := ResolveResumeCursor(received[stale].id, Some(Text.Decimal(received[|received| - 1].id)));
      var again := Delivered(Body(scope, cursor, [Poll(table, job)], limit));
      |again| > 0 && again[0] == received[stale + 1]
  {
    var log := JobLog(table, scope);
    LogFacts(table, scope);
    var cursor := Some(log[stale].id);
    PassedUnique(log, cursor, stale + 1);
    var page := Page(log, cursor, limit);
    assert page[0] == log[stale + 1];
    BodyDelivers(scope, cursor, [Poll(table, job)], limit);
  }

  // ---------------------------------------------------------------------------------------------
  // Completeness at close
  // ---------------------------------------------------------------------------------------------

  ghost predicate KeepGoing(polls: seq<Poll>) {
    forall i :: 0 <= i < |polls| ==> !Ends(polls[i])
  }

  lemma {:induction false} BodyOfLast(scope: Scope, cursor: Option<int>, earlier: seq<Poll>, last: Poll, limit: nat,
                                      table: Events) returns (n: nat)
    requires Ordered(table) && Sees(earlier, table) && KeepGoing(earlier)
    requires last.job.Some? && Jobs.Terminal(last.job.value) && last.events <= table
    ensures var log := JobLog(table, scope);
            var m := PageEnd(n, |JobLog(last.events, scope)|, limit);
            && Passed(log, cursor) <= n <= m <= |log|
            && Delivered(Body(scope, cursor, earlier, limit)) == log[Passed(log, cursor)..n]
            && Delivered(Body(scope, cursor, earlier + [last], limit)) == log[Passed(log, cursor)..m]
    decreases |earlier|
  {
    var log, all := JobLog(table, scope), earlier + [last];
    n := Passed(log, cursor);
    if |earlier| == 0 {
      assert all == [last];
      var m := PageIsSegment(last.events, table, scope, cursor, limit);
      BodyDelivers(scope, cursor, all, limit);
    } else {
      var page := Page(JobLog(earlier[0].events, scope), cursor, limit);
      var k := PageIsSegment(earlier[0].events, table, scope, cursor, limit);
      var start, next := n, Advance(cursor, page);
      n := BodyOfLast(scope, next, earlier[1..], last, limit, table);
      assert all[0] == earlier[0] && all[1..] == earlier[1..] + [last] && !Ends(earlier[0]);
      BodyDelivers(scope, cursor, earlier, limit);
      JoinSegments(page, Delivered(Body(scope, next, earlier[1..], limit)), log, start, k, n);
      BodyDelivers(scope, cursor, all, limit);
      JoinSegments(page, Delivered(Body(scope, next, all[1..], limit)), log, start, k,
                   PageEnd(n, |JobLog(last.events, scope)|, limit));
    }
  }

  /**
   When the loop ends on a terminal status it has sent the whole log, as it stands at that status
   read, exactly when what was left at the last event read fitted one page and nothing was appended
   between the two reads.
   */
  lemma CompleteAtCloseIff(scope: Scope, cursor: Option<int>, earlier: seq<Poll>, last: Poll, limit: nat,
                           atStatusRead: Events)
    requires Ordered(atStatusRead) && Sees(earlier, last.events) && last.events <= atStatusRead
    requires KeepGoing(earlier) && last.job.Some? && Jobs.Terminal(last.job.value)
    requires Passed(JobLog(atStatusRead, scope), cursor) <= |JobLog(last.events, scope)|
    ensures
      var log, seen := JobLog(atStatusRead, scope), JobLog(last.events, scope);
      var start := Passed(log, cursor);
      var left := |seen| - start - |Delivered(Body(scope, cursor, earlier, limit))|;
      && left >= 0
      && (Delivered(Body(scope, cursor, earlier + [last], limit)) == log[start..]
          <==> left <= limit && seen == log)
  {
    var log, seen := JobLog(atStatusRead, scope), JobLog(last.events, scope);
    LogOfPrefix(last.events, atStatusRead, scope);
    forall i | 0 <= i < |earlier| ensures earlier[i].events <= atStatusRead { }
    var n := BodyOfLast(scope, cursor, earlier, last, limit, atStatusRead);
    SentWasSeen(scope, cursor, earlier, limit, last.events, atStatusRead);
    var m := PageEnd(n, |seen|, limit);
    var sent := Delivered(Body(scope, cursor, earlier + [last], limit));
    assert sent == log[Passed(log, cursor)..m];
    if sent == log[Passed(log, cursor)..] {
      assert |sent| == m - Passed(log, cursor);
    }
  }

  /** With more than a page left at its first event read, a stream to a finished job closes after one page. */
  lemma ClosesAfterOnePage(scope: Scope, cursor: Option<int>, table: Events, job: Jobs.Job, limit: nat)
    requires Ordered(table) && Jobs.Terminal(job)
    requires |JobLog(table, scope)| > Passed(JobLog(table, scope), cursor) + limit
    ensures
      var log := JobLog(table, scope);
      var start := Passed(log, cursor);
      var frames := Stream(scope, cursor, Some(job), [Poll(table, Some(job))], limit);
      && |frames| > 0 && frames[|frames| - 1] == ClosingFrame(scope, job)
      && Delivered(frames) == log[start..start + limit] != log[start..]
  {
    var polls := [Poll(table, Some(job))];
    var page := Page(JobLog(table, scope), cursor, limit);
    assert Tail(scope, Advance(cursor, page), polls[0], polls[1..], limit) == [ClosingFrame(scope, job)];
    BodyDelivers(scope, cursor, polls, limit);
    DeliveredAppends(Snapshot(scope, Some(job)), Body(scope, cursor, polls, limit));
  }

  lemma {:induction false} AllInScope(events: Events, scope: Scope)
    requires forall e :: e in events ==> InScope(e, scope)
    ensures JobLog(events, scope) == events
  {
    if |events| > 0 {
      AllInScope(events[..|events| - 1], scope);
    }
  }

  /** It does happen, whatever the page size: a log of one event more than a page is cut short at close. */
  lemma StreamCanCloseShort(scope: Scope, job: Jobs.Job, limit: nat)
    requires Jobs.Terminal(job)
    ensures exists table :: Ordered(table) &&
              var frames := Stream(scope, None, Some(job), [Poll(table, Some(job))], limit);
              && |frames| > 0 && frames[|frames| - 1] == ClosingFrame(scope, job)
              && Delivered(frames) != JobLog(table, scope)
  {
    var table := seq(limit + 1, i requires i >= 0 => Event(i + 1, scope.tenant, scope.workspace, scope.jobId, "stage", None, "{}"));
    AllInScope(table, scope);
    assert Ordered(table);
    ClosesAfterOnePage(scope, None, table, job, limit);
    assert JobLog(table, scope)[0..] == JobLog(table, scope);
  }

  /** What the earlier polls sent was already in the table they all saw part of. */
  lemma SentWasSeen(scope: Scope, cursor: Option<int>, earlier: seq<Poll>, limit: nat, seenTable: Events, table: Events)
    requires Ordered(table) && seenTable <= table && Sees(earlier, seenTable)
    requires Passed(JobLog(table, scope), cursor) <= |JobLog(seenTable, scope)|
    ensures Passed(JobLog(table, scope), cursor) + |Delivered(Body(scope, cursor, earlier, limit))|
            <= |JobLog(seenTable, scope)|
  {
    var log, seen := JobLog(table, scope), JobLog(seenTable, scope);
    LogFacts(table, scope);
    LogOfPrefix(seenTable, table, scope);
    PassedInPrefix(seen, log, cursor);
    var m := BodySendsSegment(scope, cursor, earlier, limit, seenTable);
  }

  /** A connection to a finished job whose log has stopped growing, left open until it closes. */
  ghost predicate Drains(c: Connection, table: Events) {
    && |c.polls| == 1 && c.polls[0].events == table
    && c.polls[0].job.Some? && Jobs.Terminal(c.polls[0].job.value)
    && c.arrived >= |table| + 2  // a snapshot, the events, a closing frame
  }

  lemma {:induction false} LogIsNoLonger(events: Events, scope: Scope)
    ensures |JobLog(events, scope)| <= |events|
  {
    if |events| > 0 { LogIsNoLonger(events[..|events| - 1], scope); }
  }

  lemma {:induction false} OneFrameEach(page: Events)
    ensures |ProgressFrames(page)| == |page|
  {
    if |page| > 0 { OneFrameEach(page[..|page| - 1]); }
  }

  /** All its frames arrive, and they deliver one page. */
  lemma DrainFrames(scope: Scope, cursor: Option<int>, c: Connection, limit: nat, table: Events)
    requires Drains(c, table)
    ensures var frames := Stream(scope, cursor, c.first, c.polls, limit);
            |frames| <= c.arrived && Delivered(frames) == Page(JobLog(table, scope), cursor, limit)
  {
    var page := Page(JobLog(table, scope), cursor, limit);
    var body := Body(scope, cursor, c.polls, limit);
    OneFrameEach(page);
    LogIsNoLonger(table, scope);
    assert body == ProgressFrames(page) + Tail(scope, Advance(cursor, page), c.polls[0], c.polls[1..], limit);
    BodyDelivers(scope, cursor, c.polls, limit);
    DeliveredAppends(Snapshot(scope, c.first), body);
  }

  lemma ReconnectDelivers(scope: Scope, n: nat, c: Connection, limit: nat, table: Events)
    requires Ordered(table) && n <= |JobLog(table, scope)| && Drains(c, table)
    ensures
      var log := JobLog(table, scope);
      log[..n] + Arrives(scope, log[..n], c, limit) == log[..Min(n + limit, |log|)]
  {
    var log := JobLog(table, scope);
    ResumesBehind(scope, log[..n], c.channel, table);
    ArrivesPage(scope, log[..n], c, limit, table);
    PrefixExtends(log[..n], Page(log, ResumeFrom(log[..n], c.channel), limit), log, Min(n + limit, |log|));
  }

  lemma ArrivesPage(scope: Scope, received: Events, c: Connection, limit: nat, table: Events)
    requires Drains(c, table)
    ensures Arrives(scope, received, c, limit) == Page(JobLog(table, scope), ResumeFrom(received, c.channel), limit)
  {
    var frames := Stream(scope, ResumeFrom(received, c.channel), c.first, c.polls, limit);
    DrainFrames(scope, ResumeFrom(received, c.channel), c, limit, table);
    assert frames[..|frames|] == frames;
  }

  /** How far `k` pages reach. */
  function Reach(n: nat, k: nat, limit: nat, total: nat): (end: nat)
    requires n <= total
    ensures n <= end <= total
  {
    Min(n + k * limit, total)
  }

  ghost predicate AllDrain(connections: seq<Connection>, table: Events) {
    forall i :: 0 <= i < |connections| ==> Drains(connections[i], table)
  }

  lemma ReachStep(n: nat, k: nat, limit: nat, total: nat)
    requires n <= total && k > 0
    ensures Reach(n, k, limit, total) == Reach(Min(n + limit, total), k - 1, limit, total)
  {
    assert k * limit == limit + (k - 1) * limit;
  }

  lemma NoSession(scope: Scope, received: Events, connections: seq<Connection>, limit: nat, total: nat)
    requires |connections| == 0 && |received| <= total
    ensures Session(scope, received, connections, limit) == received
    ensures |Session(scope, received, connections, limit)| == Reach(|received|, |connections|, limit, total)
  {
  }

  /** The session with one connection less, from one page further on. */
  lemma SessionStep(scope: Scope, received: Events, connections: seq<Connection>, limit: nat, more: Events, total: nat)
    requires |connections| > 0 && received + Arrives(scope, received, connections[0], limit) == more
    requires |received| <= total && |more| == Min(|received| + limit, total)
    requires |Session(scope, more, connections[1..], limit)| == Reach(|more|, |connections[1..]|, limit, total)
    ensures Session(scope, received, connections, limit) == Session(scope, more, connections[1..], limit)
    ensures |Session(scope, received, connections, limit)| == Reach(|received|, |connections|, limit, total)
  {
    ReachStep(|received|, |connections|, limit, total);
  }

  /** Whatever initial part of the log a client has, the connection brings it one page more. */
  ghost predicate BringsPage(scope: Scope, c: Connection, limit: nat, log: Events) {
    forall n :: 0 <= n <= |log| ==> log[..n] + Arrives(scope, log[..n], c, limit) == log[..Min(n + limit, |log|)]
  }

  ghost predicate AllBringPage(scope: Scope, connections: seq<Connection>, limit: nat, log: Events) {
    forall i :: 0 <= i < |connections| ==> BringsPage(scope, connections[i], limit, log)
  }

  lemma AllBringPageFirst(scope: Scope, received: Events, connections: seq<Connection>, limit: nat, log: Events)
    requires AllBringPage(scope, connections, limit, log) && |connections| > 0 && received <= log
    ensures AllBringPage(scope, connections[1..], limit, log)
    ensures received + Arrives(scope, received, connections[0], limit) == log[..Min(|received| + limit, |log|)]
  {
    assert received == log[..|received|];
    assert BringsPage(scope, connections[0], limit, log);
  }

  lemma {:induction false} PagesReach(scope: Scope, received: Events, connections: seq<Connection>, limit: nat, log: Events)
    requires AllBringPage(scope, connections, limit, log) && received <= log
    ensures Session(scope, received, connections, limit) <= log
    ensures |Session(scope, received, connections, limit)| == Reach(|received|, |connections|, limit, |log|)
    decreases |connections|
  {
    if |connections| > 0 {
      var more := log[..Min(|received| + limit, |log|)];
      AllBringPageFirst(scope, received, connections, limit, log);
      PagesReach(scope, more, connections[1..], limit, log);
      SessionStep(scope, received, connections, limit, more, |log|);
    } else {
      NoSession(scope, received, connections, limit, |log|);
    }
  }

  /** Each connection to a finished job moves the client on by one page. */
  lemma ReconnectsDrain(scope: Scope, n: nat, connections: seq<Connection>, limit: nat, table: Events)
    requires Ordered(table) && n <= |JobLog(table, scope)| && AllDrain(connections, table)
    ensures var log := JobLog(table, scope);
            Session(scope, log[..n], connections, limit) == log[..Reach(n, |connections|, limit, |log|)]
  {
    var log := JobLog(table, scope);
    forall i, k | 0 <= i < |connections| && 0 <= k <= |log|
      ensures log[..k] + Arrives(scope, log[..k], connections[i], limit) == log[..Min(k + limit, |log|)]
    {
      ReconnectDelivers(scope, k, connections[i], limit, table);
    }
    PagesReach(scope, log[..n], connections, limit, log);
  }

  /** Hence they deliver the rest of a log exactly when their pages together have room for it. */
  lemma ReconnectsCompleteIff(scope: Scope, n: nat, connections: seq<Connection>, limit: nat, table: Events)
    requires Ordered(table) && n <= |JobLog(table, scope)|
    requires AllDrain(connections, table)
    ensures Session(scope, JobLog(table, scope)[..n], connections, limit) == JobLog(table, scope)
            <==> |connections| * limit >= |JobLog(table, scope)| - n
  {
    var log := JobLog(table, scope);
    ReconnectsDrain(scope, n, connections, limit, table);
    WholeIff(log, Reach(n, |connections|, limit, |log|));
  }

  /** That is, when there are at least ceil(remaining / limit) of them. */
  lemma ReconnectsNeeded(scope: Scope, n: nat, connections: seq<Connection>, limit: nat, table: Events, remaining: nat)
    requires Ordered(table) && |JobLog(table, scope)| == n + remaining && limit > 0
    requires AllDrain(connections, table)
    ensures Session(scope, JobLog(table, scope)[..n], connections, limit) == JobLog(table, scope)
            <==> |connections| >= (remaining + limit - 1) / limit
  {
    ReconnectsCompleteIff(scope, n, connections, limit, table);
    CeilingBound(remaining, limit, |connections|);
  }
}
