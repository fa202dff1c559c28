/**
 The job stream end to end: events in the table, frames of the loop, characters on the wire, messages
 of an EventSource that reconnects with the Last-Event-ID header, or of the SDK.
 */
module JobWire {
  import opened Basics
  import opened JobEvents
  import opened JobStream
  import Jobs = IngestJobs
  import Text
  import Sse

  /** `json` stands for `json.dumps` of the payload of a frame. */
  function ToWire(f: Frame, json: Frame -> string): Sse.Frame {
    match f
    case Progress(e) => Sse.Frame("event", Some(e.id), json(f))
    case Opening(_, _, _) => Sse.Frame("status", None, json(f))
    case Closing(_, _, _, _, _) => Sse.Frame("status", None, json(f))
  }

  function AllToWire(frames: seq<Frame>, json: Frame -> string): (wire: seq<Sse.Frame>)
    ensures |wire| == |frames|
  {
    if |frames| == 0 then [] else [ToWire(frames[0], json)] + AllToWire(frames[1..], json)
  }

  /** The characters of each kind of frame. */
  lemma WireText(f: Frame, json: Frame -> string)
    ensures Sse.Print(ToWire(f, json))
            == if f.Progress?
               then "event: event" + "\n" + ("id: " + Text.Decimal(f.event.id)) + "\n" + ("data: " + json(f)) + "\n\n"
               else "event: status" + "\n" + ("data: " + json(f)) + "\n\n"
  {
    var data := "data: " + json(f);
    if f.Progress? {
      var id := "id: " + Text.Decimal(f.event.id);
      assert "event: " + "event" == "event: event";
      assert Sse.FrameLines(ToWire(f, json)) == ["event: event", id, data, ""];
      TextOfFour("event: event", id, data);
    } else {
      assert "event: " + "status" == "event: status";
      assert Sse.FrameLines(ToWire(f, json)) == ["event: status", data, ""];
      TextOfThree("event: status", data);
    }
  }

  lemma TextOfThree(a: string, b: string)
    ensures Sse.Terminated([a, b, ""]) == a + "\n" + b + "\n\n"
  {
    assert [a, b, ""][1..] == [b, ""] && [b, ""][1..] == [""] && [""][1..] == [];
    assert Sse.Terminated([""]) == "\n";
    assert Sse.Terminated([b, ""]) == b + "\n" + "\n";
    assert b + "\n" + "\n" == b + "\n\n";
  }

  lemma TextOfFour(a: string, b: string, c: string)
    ensures Sse.Terminated([a, b, c, ""]) == a + "\n" + b + "\n" + c + "\n\n"
  {
    assert [a, b, c, ""][1..] == [b, c, ""];
    TextOfThree(b, c);
  }

  ghost predicate Prints(json: Frame -> string) {
    forall f :: Sse.JsonObject(json(f))
  }

  /** The messages a progress listener gets. */
  function ProgressOnly(messages: seq<Sse.Message>): seq<Sse.Message> {
    if |messages| == 0 then []
    else if messages[0].event == "event" then [messages[0]] + ProgressOnly(messages[1..])
    else ProgressOnly(messages[1..])
  }

  /** What the log looks like to such a listener. */
  function Announced(events: Events, json: Frame -> string): seq<Sse.Message> {
    if |events| == 0 then []
    else [Sse.Message("event", json(Progress(events[0])))] + Announced(events[1..], json)
  }

  /** One connection, broken off after some number of characters. */
  datatype Connection = Connection(first: Option<Jobs.Job>, polls: seq<Poll>, arrived: nat)

  /** An empty last event ID is not sent. */
  function Header(lastId: string): Option<string> {
    if lastId == "" then None else Some(lastId)
  }

  function Frames(scope: Scope, lastId: string, c: Connection, limit: nat): seq<Frame> {
    Stream(scope, ResolveResumeCursor(0, Header(lastId)), c.first, c.polls, limit)
  }

  function Arrived(scope: Scope, lastId: string, c: Connection, limit: nat, json: Frame -> string): string {
    var text := Sse.PrintAll(AllToWire(Frames(scope, lastId, c, limit), json));
    text[..Min(c.arrived, |text|)]
  }

  /**
   With which ID buffer a user agent starts to read a new connection: the empty one of section 9.2.6 of
   the HTML Living Standard, or, as browsers do, the last event ID it has.
   */
  datatype Agent = Literal | Carrying

  function Read(text: string, agent: Agent, lastId: string): Sse.Html {
    Sse.ReadHtml(text, if agent.Carrying? then lastId else "", lastId)
  }

  /** What the listener has received over all connections, the last event ID carried along. */
  function Listen(scope: Scope, agent: Agent, lastId: string, connections: seq<Connection>, limit: nat, json: Frame -> string): seq<Sse.Message>
    decreases |connections|
  {
    if |connections| == 0 then []
    else
      var read := Read(Arrived(scope, lastId, connections[0], limit, json), agent, lastId);
      ProgressOnly(read.out) + Listen(scope, agent, read.lastId, connections[1..], limit, json)
  }

  /** The frames that arrive whole on a connection. */
  function ReadFrames(scope: Scope, lastId: string, c: Connection, limit: nat, json: Frame -> string): seq<Frame> {
    var frames := Frames(scope, lastId, c, limit);
    frames[..Sse.Whole(AllToWire(frames, json), |Arrived(scope, lastId, c, limit, json)|)]
  }

  /** A literal reader knew where to resume, and then read frames of which none had an id line. */
  predicate Forgets(scope: Scope, agent: Agent, lastId: string, c: Connection, limit: nat, json: Frame -> string) {
    var frames := ReadFrames(scope, lastId, c, limit, json);
    agent.Literal? && lastId != "" && |frames| > 0 && Delivered(frames) == []
  }

  /** Some connection forgets, and anything is received after it. */
  predicate Replays(scope: Scope, agent: Agent, lastId: string, connections: seq<Connection>, limit: nat, json: Frame -> string)
    decreases |connections|
  {
    |connections| > 0
    && if Forgets(scope, agent, lastId, connections[0], limit, json)
       then Listen(scope, agent, "", connections[1..], limit, json) != []
       else
         var read := Read(Arrived(scope, lastId, connections[0], limit, json), agent, lastId);
         Replays(scope, agent, read.lastId, connections[1..], limit, json)
  }

  lemma {:induction false} WireIsPrintable(frames: seq<Frame>, json: Frame -> string)
    requires Prints(json)
    ensures Sse.AllPrintable(AllToWire(frames, json))
  {
    if |frames| > 0 {
      WireIsPrintable(frames[1..], json);
      var f := ToWire(frames[0], json);
      Sse.JsonFramesArePrintable(f.event, f.id, f.data);
    }
  }

  lemma {:induction false} WireOfPrefix(frames: seq<Frame>, k: nat, json: Frame -> string)
    requires k <= |frames|
    ensures AllToWire(frames, json)[..k] == AllToWire(frames[..k], json)
  {
    if k > 0 {
      assert frames[..k][1..] == frames[1..][..k - 1];
      WireOfPrefix(frames[1..], k - 1, json);
    }
  }

  lemma {:induction false} ListenerSeesEvents(frames: seq<Frame>, json: Frame -> string)
    ensures ProgressOnly(Sse.Messages(AllToWire(frames, json))) == Announced(Delivered(frames), json)
  {
    if |frames| > 0 { ListenerSeesEvents(frames[1..], json); }
  }

  /** The last event ID names the last event delivered. */
  function IdAfter(events: Events, before: string): string {
    if |events| == 0 then before else Text.Decimal(events[|events| - 1].id)
  }

  lemma {:induction false} LastIdNamesLastEvent(frames: seq<Frame>, before: string, json: Frame -> string)
    ensures Sse.LastId(AllToWire(frames, json), before) == IdAfter(Delivered(frames), before)
  {
    if |frames| > 0 {
      var f := ToWire(frames[0], json);
      LastIdNamesLastEvent(frames[1..], if f.id.None? then before else Text.Decimal(f.id.value), json);
    }
  }

  lemma {:induction false} AnnouncedAppends(a: Events, b: Events, json: Frame -> string)
    ensures Announced(a + b, json) == Announced(a, json) + Announced(b, json)
  {
    if |a| == 0 {
      assert a + b == b;
    } else {
      assert (a + b)[1..] == a[1..] + b;
      AnnouncedAppends(a[1..], b, json);
    }
  }

  /** Which last event ID the frames that arrived leave behind. */
  lemma IdOfRead(frames: seq<Frame>, json: Frame -> string, idBuffer: string, lastId: string)
    ensures Sse.IdAfter(AllToWire(frames, json), idBuffer, lastId)
            == if |frames| == 0 then lastId else IdAfter(Delivered(frames), idBuffer)
  {
    LastIdNamesLastEvent(frames, idBuffer, json);
  }

  /** What one connection tells a listener, by the frames that arrive whole. */
  lemma ConnectionReads(scope: Scope, agent: Agent, lastId: string, c: Connection, limit: nat, json: Frame -> string)
    requires Prints(json)
    ensures
      var read := Read(Arrived(scope, lastId, c, limit, json), agent, lastId);
      var events := Delivered(ReadFrames(scope, lastId, c, limit, json));
      && ProgressOnly(read.out) == Announced(events, json)
      && read.lastId == if Forgets(scope, agent, lastId, c, limit, json) then "" else IdAfter(events, lastId)
  {
    var frames := Frames(scope, lastId, c, limit);
    var wire := AllToWire(frames, json);
    var arrived := Min(c.arrived, |Sse.PrintAll(wire)|);
    var k := Sse.Whole(wire, arrived);
    var idBuffer := if agent.Carrying? then lastId else "";
    WireIsPrintable(frames, json);
    Sse.TruncatedRoundTrip(wire, arrived, idBuffer, lastId);
    WireOfPrefix(frames, k, json);
    ListenerSeesEvents(frames[..k], json);
    IdOfRead(frames[..k], json, idBuffer, lastId);
  }

  /** One connection, from the text that arrived back to a segment of the log. */
  lemma ConnectionReadsSegment(scope: Scope, agent: Agent, n: nat, c: Connection, limit: nat, json: Frame -> string, table: Events)
      returns (m: nat)
    requires Ordered(table) && Sees(c.polls, table) && Prints(json) && n <= |JobLog(table, scope)|
    ensures
      var log := JobLog(table, scope);
      var lastId := IdAfter(log[..n], "");
      var read := Read(Arrived(scope, lastId, c, limit, json), agent, lastId);
      && n <= m <= |log|
      && ProgressOnly(read.out) == Announced(log[n..m], json)
      && (if Forgets(scope, agent, lastId, c, limit, json) then m == n && read.lastId == ""
          else read.lastId == IdAfter(log[..m], ""))
  {
    var log := JobLog(table, scope);
    var lastId := IdAfter(log[..n], "");
    LogFacts(table, scope);
    HeaderResumesAt(log, n);
    var k := |ReadFrames(scope, lastId, c, limit, json)|;
    m := StreamSendsSegment(scope, ResolveResumeCursor(0, Header(lastId)), c.first, c.polls, limit, table, k);
    ConnectionReads(scope, agent, lastId, c, limit, json);
    assert Delivered(ReadFrames(scope, lastId, c, limit, json)) == log[n..m];
    IdAfterSegment(log, n, m);
  }

  lemma IdAfterSegment(log: Events, n: nat, m: nat)
    requires n <= m <= |log|
    ensures IdAfter(log[n..m], IdAfter(log[..n], "")) == IdAfter(log[..m], "")
  {
  }

  lemma HeaderIsSent(id: nat)
    requires id > 0
    ensures ResolveResumeCursor(0, Header(Text.Decimal(id))) == Some(id)
  {
    Text.DecimalIsDigits(id);
    HeaderNamesEvent(id);
  }

  lemma HeaderResumesAt(log: Events, n: nat)
    requires Ordered(log) && n <= |log|
    ensures Passed(log, ResolveResumeCursor(0, Header(IdAfter(log[..n], "")))) == n
  {
    HeaderResumesBehind(log, log[..n]);
  }

  lemma HeaderResumesBehind(log: Events, part: Events)
    requires Ordered(log) && part <= log
    ensures Passed(log, ResolveResumeCursor(0, Header(IdAfter(part, "")))) == |part|
  {
    if |part| == 0 {
      PassedBehind(log, part, None);
    } else {
      HeaderIsSent(part[|part| - 1].id);
      PassedBehind(log, part, Some(part[|part| - 1].id));
    }
  }

  lemma PassedBehind(log: Events, part: Events, cursor: Option<int>)
    requires Ordered(log) && part <= log && cursor == if |part| == 0 then None else Some(part[|part| - 1].id)
    ensures Passed(log, cursor) == |part|
  {
    PassedUnique(log, cursor, |part|);
  }

  lemma ListenStep(scope: Scope, agent: Agent, n: nat, connections: seq<Connection>, limit: nat, json: Frame -> string, table: Events)
      returns (k: nat)
    requires Ordered(table) && Prints(json) && n <= |JobLog(table, scope)|
    requires |connections| > 0 && Sees(connections[0].polls, table)
    ensures n <= k <= |JobLog(table, scope)|
    ensures var log := JobLog(table, scope);
            var lastId := IdAfter(log[..n], "");
            var forgets := Forgets(scope, agent, lastId, connections[0], limit, json);
            var next := if forgets then "" else IdAfter(log[..k], "");
            && (forgets ==> k == n > 0)
            && Listen(scope, agent, lastId, connections, limit, json)
               == Announced(log[n..k], json) + Listen(scope, agent, next, connections[1..], limit, json)
            && (Replays(scope, agent, lastId, connections, limit, json)
                <==> if forgets then Listen(scope, agent, next, connections[1..], limit, json) != []
                     else Replays(scope, agent, next, connections[1..], limit, json))
  {
    k := ConnectionReadsSegment(scope, agent, n, connections[0], limit, json, table);
  }

  lemma {:induction false} ListenerReadsSegment(scope: Scope, agent: Agent, n: nat, connections: seq<Connection>, limit: nat,
                                               json: Frame -> string, table: Events) returns (m: nat)
    requires Ordered(table) && Prints(json) && n <= |JobLog(table, scope)|
    requires forall i :: 0 <= i < |connections| ==> Sees(connections[i].polls, table)
    requires !Replays(scope, agent, IdAfter(JobLog(table, scope)[..n], ""), connections, limit, json)
    ensures n <= m <= |JobLog(table, scope)|
    ensures var log := JobLog(table, scope);
            Listen(scope, agent, IdAfter(log[..n], ""), connections, limit, json) == Announced(log[n..m], json)
    decreases |connections|
  {
    m := n;
    if |connections| > 0 {
      var log := JobLog(table, scope);
      var k := ListenStep(scope, agent, n, connections, limit, json, table);
      if !Forgets(scope, agent, IdAfter(log[..n], ""), connections[0], limit, json) {
        m := ListenerReadsSegment(scope, agent, k, connections[1..], limit, json, table);
        JoinSegments(log[n..k], log[k..m], log, n, k, m);
        AnnouncedAppends(log[n..k], log[k..m], json);
      }
    }
  }

  lemma {:induction false} CarryingNeverReplays(scope: Scope, lastId: string, connections: seq<Connection>, limit: nat, json: Frame -> string)
    ensures !Replays(scope, Carrying, lastId, connections, limit, json)
    decreases |connections|
  {
    if |connections| > 0 {
      var read := Read(Arrived(scope, lastId, connections[0], limit, json), Carrying, lastId);
      CarryingNeverReplays(scope, read.lastId, connections[1..], limit, json);
    }
  }

  /**
   End to end for browsers: whatever the moments the server looked at the table, and after whatever
   character each connection broke, the progress messages an EventSource has read are those of an
   initial segment of the job's log, each exactly once and in order.
   */
  lemma ListenerReadsPrefix(scope: Scope, connections: seq<Connection>, limit: nat, json: Frame -> string, table: Events)
      returns (m: nat)
    requires Ordered(table) && Prints(json)
    requires forall i :: 0 <= i < |connections| ==> Sees(connections[i].polls, table)
    ensures m <= |JobLog(table, scope)|
    ensures Listen(scope, Carrying, "", connections, limit, json) == Announced(JobLog(table, scope)[..m], json)
  {
    CarryingNeverReplays(scope, "", connections, limit, json);
    m := ListenerReadsSegment(scope, Carrying, 0, connections, limit, json, table);
  }

  // ---------------------------------------------------------------------------------------------
  // An agent that takes the standard literally
  // ---------------------------------------------------------------------------------------------

  /** From no last event ID, whatever is received starts again with the first event of the log. */
  lemma {:induction false} ListensFromTheStart(scope: Scope, agent: Agent, connections: seq<Connection>, limit: nat,
                                              json: Frame -> string, table: Events)
    requires Ordered(table) && Prints(json)
    requires forall i :: 0 <= i < |connections| ==> Sees(connections[i].polls, table)
    ensures var heard := Listen(scope, agent, "", connections, limit, json);
            |heard| > 0 ==> |JobLog(table, scope)| > 0 && heard[0] == Sse.Message("event", json(Progress(JobLog(table, scope)[0])))
    decreases |connections|
  {
    if |connections| > 0 {
      var log := JobLog(table, scope);
      var k := ListenStep(scope, agent, 0, connections, limit, json, table);
      if k == 0 {
        ListensFromTheStart(scope, agent, connections[1..], limit, json, table);
      }
    }
  }

  /** If the rest is not what follows position `k`, the whole is not what follows position `n`. */
  lemma AnnouncedTail(log: Events, n: nat, k: nat, m: nat, json: Frame -> string, rest: seq<Sse.Message>)
    requires n <= k <= |log| && n <= m <= |log| && (k <= m ==> rest != Announced(log[k..m], json))
    ensures Announced(log[n..k], json) + rest != Announced(log[n..m], json)
  {
    var head, whole := Announced(log[n..k], json), Announced(log[n..m], json);
    AnnouncedIsOneEach(log[n..k], json);
    AnnouncedIsOneEach(log[n..m], json);
    if k <= m {
      assert log[n..m] == log[n..k] + log[k..m];
      AnnouncedAppends(log[n..k], log[k..m], json);
      assert (head + rest)[|head|..] == rest && whole[|head|..] == Announced(log[k..m], json);
    } else {
      assert |head + rest| > |whole|;
    }
  }

  /** A message of the first event is not what a client that has `n` events may receive next. */
  lemma FirstIsNotNext(log: Events, n: nat, m: nat, json: Frame -> string, idIn: string -> int, heard: seq<Sse.Message>)
    requires Ordered(log) && 0 < n <= m <= |log| && Finds(idIn, json)
    requires |heard| > 0 && heard[0] == Sse.Message("event", json(Progress(log[0])))
    ensures heard != Announced(log[n..m], json)
  {
    AnnouncedIsOneEach(log[n..m], json);
    if n < m {
      assert idIn(json(Progress(log[0]))) == log[0].id < log[n].id == idIn(json(Progress(log[n])));
      assert Announced(log[n..m], json)[0].data == json(Progress(log[n]));
    }
  }

  /** One connection on: if what is heard after it is not what follows `k`, the whole is not what follows `n`. */
  lemma ListenTail(scope: Scope, agent: Agent, n: nat, k: nat, connections: seq<Connection>, next: string, limit: nat,
                   json: Frame -> string, log: Events, m: nat)
    requires n <= k <= |log| && n <= m <= |log| && |connections| > 0
    requires Listen(scope, agent, IdAfter(log[..n], ""), connections, limit, json)
             == Announced(log[n..k], json) + Listen(scope, agent, next, connections[1..], limit, json)
    requires k <= m ==> Listen(scope, agent, next, connections[1..], limit, json) != Announced(log[k..m], json)
    ensures Listen(scope, agent, IdAfter(log[..n], ""), connections, limit, json) != Announced(log[n..m], json)
  {
    AnnouncedTail(log, n, k, m, json, Listen(scope, agent, next, connections[1..], limit, json));
  }

  /** After a forgotten id what is heard starts again, so it is not what follows `n`. */
  lemma ForgettingShows(scope: Scope, agent: Agent, n: nat, connections: seq<Connection>, limit: nat,
                        json: Frame -> string, idIn: string -> int, table: Events, m: nat)
    requires Ordered(table) && Prints(json) && Finds(idIn, json) && 0 < n <= m <= |JobLog(table, scope)|
    requires |connections| > 0 && forall i :: 0 <= i < |connections| ==> Sees(connections[i].polls, table)
    requires var log := JobLog(table, scope);
             Listen(scope, agent, IdAfter(log[..n], ""), connections, limit, json)
             == Announced(log[n..n], json) + Listen(scope, agent, "", connections[1..], limit, json)
    requires Listen(scope, agent, "", connections[1..], limit, json) != []
    ensures var log := JobLog(table, scope);
            Listen(scope, agent, IdAfter(log[..n], ""), connections, limit, json) != Announced(log[n..m], json)
  {
    var log, heard := JobLog(table, scope), Listen(scope, agent, "", connections[1..], limit, json);
    LogFacts(table, scope);
    ListensFromTheStart(scope, agent, connections[1..], limit, json, table);
    FirstIsNotNext(log, n, m, json, idIn, heard);
    ListenTail(scope, agent, n, n, connections, "", limit, json, log, m);
  }

  lemma {:induction false} ReplayShows(scope: Scope, agent: Agent, n: nat, connections: seq<Connection>, limit: nat,
                                      json: Frame -> string, idIn: string -> int, table: Events, m: nat)
    requires Ordered(table) && Prints(json) && Finds(idIn, json) && n <= m <= |JobLog(table, scope)|
    requires forall i :: 0 <= i < |connections| ==> Sees(connections[i].polls, table)
    requires Replays(scope, agent, IdAfter(JobLog(table, scope)[..n], ""), connections, limit, json)
    ensures var log := JobLog(table, scope);
            Listen(scope, agent, IdAfter(log[..n], ""), connections, limit, json) != Announced(log[n..m], json)
    decreases |connections|
  {
    var log := JobLog(table, scope);
    var k := ListenStep(scope, agent, n, connections, limit, json, table);
    if Forgets(scope, agent, IdAfter(log[..n], ""), connections[0], limit, json) {
      ForgettingShows(scope, agent, n, connections, limit, json, idIn, table, m);
    } else {
      if k <= m {
        ReplayShows(scope, agent, k, connections[1..], limit, json, idIn, table, m);
      }
      ListenTail(scope, agent, n, k, connections, IdAfter(log[..k], ""), limit, json, log, m);
    }
  }

  /**
   For any agent: what was received is an initial segment of the log, each event once and in order, if
   and only if no connection, made after an event was received, ended with only frames without an id
   read, and was followed by one that received anything.
   */
  lemma ListenerReadsPrefixIff(scope: Scope, agent: Agent, connections: seq<Connection>, limit: nat, json: Frame -> string,
                               idIn: string -> int, table: Events)
    requires Ordered(table) && Prints(json) && Finds(idIn, json)
    requires forall i :: 0 <= i < |connections| ==> Sees(connections[i].polls, table)
    ensures (exists m: nat :: m <= |JobLog(table, scope)|
              && Listen(scope, agent, "", connections, limit, json) == Announced(JobLog(table, scope)[..m], json))
            <==> !Replays(scope, agent, "", connections, limit, json)
  {
    var log := JobLog(table, scope);
    assert forall m :: 0 <= m <= |log| ==> log[0..m] == log[..m];
    if Replays(scope, agent, "", connections, limit, json) {
      forall m: nat | m <= |log| ensures Listen(scope, agent, "", connections, limit, json) != Announced(log[..m], json) {
        ReplayShows(scope, agent, 0, connections, limit, json, idIn, table, m);
      }
    } else {
      var m := ListenerReadsSegment(scope, agent, 0, connections, limit, json, table);
      assert Listen(scope, agent, "", connections, limit, json) == Announced(log[..m], json);
    }
  }

  /** It does happen: a connection lost right behind its snapshot makes a literal agent forget. */
  lemma SnapshotAloneForgets(scope: Scope, lastId: string, job: Jobs.Job, arrived: nat, limit: nat, json: Frame -> string)
    requires lastId != ""
    requires arrived >= |Sse.Print(ToWire(Opening(scope.jobId, job.status, job.attempts), json))|
    ensures Forgets(scope, Literal, lastId, Connection.Connection(Some(job), [], arrived), limit, json)
  {
    var c, opening := Connection.Connection(Some(job), [], arrived), Opening(scope.jobId, job.status, job.attempts);
    var frames := Frames(scope, lastId, c, limit);
    assert frames == [opening];
    var wire := AllToWire(frames, json);
    assert wire == [ToWire(opening, json)] && wire[1..] == [];
    assert Sse.PrintAll(wire) == Sse.Print(ToWire(opening, json));
    Sse.WholeOfAll(wire);
    assert ReadFrames(scope, lastId, c, limit, json) == [opening];
    assert [opening][1..] == [];
  }

  // ---------------------------------------------------------------------------------------------
  // The same for the SDK, whose caller takes the id out of the payload and passes it as after_id
  // ---------------------------------------------------------------------------------------------

  /** Decoding the payload of an event frame finds the event's id. */
  ghost predicate Finds(idIn: string -> int, json: Frame -> string) {
    forall e: Event :: idIn(json(Progress(e))) == e.id
  }

  /** The `after_id` of the next connection: 0, or the id in the last event frame received. */
  function AfterId(received: seq<Sse.Message>, idIn: string -> int): int {
    if |received| == 0 then 0 else idIn(received[|received| - 1].data)
  }

  function SdkArrived(scope: Scope, afterId: int, c: Connection, limit: nat, json: Frame -> string): string {
    var text := Sse.PrintAll(AllToWire(Stream(scope, ResolveResumeCursor(afterId, None), c.first, c.polls, limit), json));
    text[..Min(c.arrived, |text|)]
  }

  function SdkSession(scope: Scope, received: seq<Sse.Message>, connections: seq<Connection>, limit: nat,
                      json: Frame -> string, idIn: string -> int): seq<Sse.Message>
    decreases |connections|
  {
    if |connections| == 0 then received
    else
      var text := SdkArrived(scope, AfterId(received, idIn), connections[0], limit, json);
      SdkSession(scope, received + ProgressOnly(Sse.ReadSdk(text)), connections[1..], limit, json, idIn)
  }

  lemma {:induction false} AnnouncedIsOneEach(events: Events, json: Frame -> string)
    ensures |Announced(events, json)| == |events|
    ensures forall i :: 0 <= i < |events| ==> Announced(events, json)[i].data == json(Progress(events[i]))
  {
    if |events| > 0 { AnnouncedIsOneEach(events[1..], json); }
  }

  /** The id in the payload resumes where the log was left. */
  lemma PayloadResumesAt(log: Events, n: nat, json: Frame -> string, idIn: string -> int)
    requires Ordered(log) && n <= |log| && Finds(idIn, json)
    ensures Passed(log, ResolveResumeCursor(AfterId(Announced(log[..n], json), idIn), None)) == n
  {
    AnnouncedIsOneEach(log[..n], json);
    if n > 0 {
      assert AfterId(Announced(log[..n], json), idIn) == idIn(json(Progress(log[n - 1]))) == log[n - 1].id;
    }
    PassedUnique(log, if n == 0 then None else Some(log[n - 1].id), n);
  }

  lemma SdkConnectionReadsSegment(scope: Scope, n: nat, c: Connection, limit: nat, json: Frame -> string,
                                  idIn: string -> int, table: Events) returns (m: nat)
    requires Ordered(table) && Sees(c.polls, table) && Prints(json) && Finds(idIn, json)
    requires n <= |JobLog(table, scope)|
    ensures n <= m <= |JobLog(table, scope)|
    ensures var log := JobLog(table, scope);
            ProgressOnly(Sse.ReadSdk(SdkArrived(scope, AfterId(Announced(log[..n], json), idIn), c, limit, json)))
            == Announced(log[n..m], json)
  {
    var log := JobLog(table, scope);
    var cursor := ResolveResumeCursor(AfterId(Announced(log[..n], json), idIn), None);
    var frames := Stream(scope, cursor, c.first, c.polls, limit);
    var wire := AllToWire(frames, json);
    var arrived := Min(c.arrived, |Sse.PrintAll(wire)|);
    var k := Sse.Whole(wire, arrived);
    WireIsPrintable(frames, json);
    Sse.TruncatedRoundTrip(wire, arrived, "", "");
    WireOfPrefix(frames, k, json);
    ListenerSeesEvents(frames[..k], json);
    LogFacts(table, scope);
    PayloadResumesAt(log, n, json, idIn);
    m := StreamSendsSegment(scope, cursor, c.first, c.polls, limit, table, k);
  }

  lemma SdkStep(scope: Scope, n: nat, connections: seq<Connection>, limit: nat, json: Frame -> string,
                idIn: string -> int, table: Events) returns (m: nat)
    requires Ordered(table) && Prints(json) && Finds(idIn, json) && n <= |JobLog(table, scope)|
    requires |connections| > 0 && Sees(connections[0].polls, table)
    ensures n <= m <= |JobLog(table, scope)|
    ensures var log := JobLog(table, scope);
            SdkSession(scope, Announced(log[..n], json), connections, limit, json, idIn)
            == SdkSession(scope, Announced(log[..m], json), connections[1..], limit, json, idIn)
  {
    var log := JobLog(table, scope);
    m := SdkConnectionReadsSegment(scope, n, connections[0], limit, json, idIn, table);
    JoinSegments(log[..n], log[n..m], log, 0, n, m);
    AnnouncedAppends(log[..n], log[n..m], json);
  }

  /** End to end for the SDK: an initial segment of the log, each event once and in order. */
  lemma {:induction false} SdkSessionReadsPrefix(scope: Scope, n: nat, connections: seq<Connection>, limit: nat,
                                                json: Frame -> string, idIn: string -> int, table: Events) returns (m: nat)
    requires Ordered(table) && Prints(json) && Finds(idIn, json) && n <= |JobLog(table, scope)|
    requires forall i :: 0 <= i < |connections| ==> Sees(connections[i].polls, table)
    ensures n <= m <= |JobLog(table, scope)|
    ensures SdkSession(scope, Announced(JobLog(table, scope)[..n], json), connections, limit, json, idIn)
            == Announced(JobLog(table, scope)[..m], json)
    decreases |connections|
  {
    if |connections| == 0 {
      m := n;
    } else {
      var k := SdkStep(scope, n, connections, limit, json, idIn, table);
      m := SdkSessionReadsPrefix(scope, k, connections[1..], limit, json, idIn, table);
    }
  }
}
