/**
 The answer stream in its default mode: an engine on a worker thread reports every turn, the event
 loop carries each report into a queue, and the response generator drains the queue until the answer
 task is done, then closes with one terminal frame.

 The engine and the event loop act whenever the generator is suspended.  A schedule says what they do
 at each suspension and whether the wait for the queue times out; it is a parameter, so what is
 proved holds of every interleaving.
 */
module AnswerStream {
  import opened Basics

  type Report = string

  /** How the answer task ends; an answer may still fail to be serialised. */
  datatype Outcome = Answered(text: string) | Unserialisable(message: string) | Raised(message: string)

  datatype Frame = Status(report: Report) | Final(text: string) | Error(message: string)

  /** Entries of the event loop's callback queue, run first in, first out. */
  datatype Callback = Put(report: Report) | Complete(outcome: Outcome)

  datatype Action =
    | OnTurn(report: Report)     // the worker thread calls `call_soon_threadsafe(queue.put_nowait, ...)`
    | EngineEnds(outcome: Outcome)  // the worker thread is done; its completion is scheduled the same way
    | RunCallback                // the event loop runs the next callback

  /**
   `posted` are all reports so far, `owed` those posted before the engine ended (or so far, while it
   has not).
   */
  datatype World = World(
    callbacks: seq<Callback>,
    queue: seq<Report>,
    task: Option<Outcome>,
    ended: bool,
    posted: seq<Report>,
    owed: seq<Report>)

  const START := World([], [], None, false, [], [])

  function Act(w: World, action: Action): World {
    match action
    case OnTurn(report) =>
      var posted := w.posted + [report];
      w.(callbacks := w.callbacks + [Put(report)], posted := posted, owed := if w.ended then w.owed else posted)
    case EngineEnds(outcome) =>
      if w.ended then w else w.(callbacks := w.callbacks + [Complete(outcome)], ended := true)
    case RunCallback =>
      if |w.callbacks| == 0 then w
      else
        match w.callbacks[0]
        case Put(report) => w.(callbacks := w.callbacks[1..], queue := w.queue + [report])
        case Complete(outcome) => w.(callbacks := w.callbacks[1..], task := Some(outcome))
  }

  function ActAll(w: World, actions: seq<Action>): World
    decreases |actions|
  {
    if |actions| == 0 then w else ActAll(Act(w, actions[0]), actions[1..])
  }

  /** The reports among some callbacks. */
  function Puts(callbacks: seq<Callback>): seq<Report> {
    if |callbacks| == 0 then []
    else if callbacks[0].Put? then [callbacks[0].report] + Puts(callbacks[1..])
    else Puts(callbacks[1..])
  }

  /** Those scheduled before the completion. */
  function PutsBeforeEnd(callbacks: seq<Callback>): seq<Report> {
    if |callbacks| == 0 || callbacks[0].Complete? then []
    else [callbacks[0].report] + PutsBeforeEnd(callbacks[1..])
  }

  function Completions(callbacks: seq<Callback>): nat {
    if |callbacks| == 0 then 0 else Completions(callbacks[1..]) + if callbacks[0].Complete? then 1 else 0
  }

  /** Nothing is lost or reordered between the worker thread and the reports already sent. */
  ghost predicate InFlight(w: World, sent: seq<Report>) {
    && w.posted == sent + (w.queue + Puts(w.callbacks))
    && (!w.ended ==> w.owed == w.posted && w.task.None? && Completions(w.callbacks) == 0)
    && (w.ended && w.task.None? ==>
          Completions(w.callbacks) == 1 && w.owed == sent + (w.queue + PutsBeforeEnd(w.callbacks)))
    && (w.task.Some? ==> w.ended && Completions(w.callbacks) == 0 && w.owed <= sent + w.queue)
  }

  lemma {:induction false} PutsSnoc(callbacks: seq<Callback>, c: Callback)
    ensures Puts(callbacks + [c]) == Puts(callbacks) + if c.Put? then [c.report] else []
    ensures PutsBeforeEnd(callbacks + [c])
            == if Completions(callbacks) > 0 then PutsBeforeEnd(callbacks) else Puts(callbacks + [c])
    ensures Completions(callbacks + [c]) == Completions(callbacks) + if c.Complete? then 1 else 0
  {
    var longer := callbacks + [c];
    if |callbacks| == 0 {
      assert longer[1..] == [];
    } else {
      assert longer[1..] == callbacks[1..] + [c];
      PutsSnoc(callbacks[1..], c);
    }
  }

  /** Whatever the world does, nothing in flight is lost, and a finished task stays as it is. */
  lemma ActKeepsInFlight(w: World, action: Action, sent: seq<Report>)
    requires InFlight(w, sent)
    ensures InFlight(Act(w, action), sent)
    ensures w.task.Some? ==> Act(w, action).task == w.task
  {
    match action
    case OnTurn(report) =>
      PutsSnoc(w.callbacks, Put(report));
      assert sent + (w.queue + (Puts(w.callbacks) + [report])) == sent + (w.queue + Puts(w.callbacks)) + [report];
    case EngineEnds(outcome) =>
      PutsSnoc(w.callbacks, Complete(outcome));
    case RunCallback =>
      if |w.callbacks| > 0 && w.callbacks[0].Put? {
        var r := w.callbacks[0].report;
        assert (w.queue + [r]) + Puts(w.callbacks[1..]) == w.queue + Puts(w.callbacks);
        assert (w.queue + [r]) + PutsBeforeEnd(w.callbacks[1..]) == w.queue + PutsBeforeEnd(w.callbacks);
        assert sent + (w.queue + [r]) == (sent + w.queue) + [r];
      }
  }

  lemma {:induction false} ActAllKeepsInFlight(w: World, actions: seq<Action>, sent: seq<Report>)
    requires InFlight(w, sent)
    ensures InFlight(ActAll(w, actions), sent)
    ensures w.task.Some? ==> ActAll(w, actions).task == w.task
    decreases |actions|
  {
    if |actions| > 0 {
      ActKeepsInFlight(w, actions[0], sent);
      ActAllKeepsInFlight(Act(w, actions[0]), actions[1..], sent);
    }
  }

  /** Taking one report off the queue and sending it. */
  lemma SendKeepsInFlight(w: World, sent: seq<Report>)
    requires InFlight(w, sent) && |w.queue| > 0
    ensures InFlight(w.(queue := w.queue[1..]), sent + [w.queue[0]])
  {
    var r, rest := w.queue[0], w.queue[1..];
    assert w.queue == [r] + rest;
    assert (sent + [r]) + (rest + Puts(w.callbacks)) == sent + (w.queue + Puts(w.callbacks));
    assert (sent + [r]) + (rest + PutsBeforeEnd(w.callbacks)) == sent + (w.queue + PutsBeforeEnd(w.callbacks));
    assert (sent + [r]) + rest == sent + w.queue;
  }

  function Statuses(reports: seq<Report>): seq<Frame> {
    if |reports| == 0 then [] else Statuses(reports[..|reports| - 1]) + [Status(reports[|reports| - 1])]
  }

  lemma {:induction false} StatusesAre(reports: seq<Report>)
    ensures |Statuses(reports)| == |reports|
    ensures forall k :: 0 <= k < |reports| ==> Statuses(reports)[k] == Status(reports[k])
  {
    if |reports| > 0 { StatusesAre(reports[..|reports| - 1]); }
  }

  /** The one terminal frame: the answer, or an error for anything raised on the way to it. */
  function Terminal(outcome: Outcome): Frame {
    match outcome
    case Answered(text) => Final(text)
    case Unserialisable(message) => Error(message)
    case Raised(message) => Error(message)
  }

  /** One suspension of the generator: what happens meanwhile, and whether a wait then times out. */
  datatype Pause = Pause(actions: seq<Action>, timesOut: bool)

  function Actions(pauses: seq<Pause>): seq<Action> {
    if |pauses| == 0 then [] else Actions(pauses[..|pauses| - 1]) + pauses[|pauses| - 1].actions
  }

  /** The same world, but for what the generator has taken off the queue. */
  predicate SameOutside(w: World, v: World) {
    w == v.(queue := w.queue)
  }

  lemma {:induction false} ActAllOutside(w: World, v: World, actions: seq<Action>)
    requires SameOutside(w, v)
    ensures SameOutside(ActAll(w, actions), ActAll(v, actions))
    decreases |actions|
  {
    if |actions| > 0 {
      ActAllOutside(Act(w, actions[0]), Act(v, actions[0]), actions[1..]);
    }
  }

  lemma {:induction false} ActAllAppends(w: World, a: seq<Action>, b: seq<Action>)
    ensures ActAll(w, a + b) == ActAll(ActAll(w, a), b)
    decreases |a|
  {
    if |a| == 0 {
      assert a + b == b;
    } else {
      assert (a + b)[1..] == a[1..] + b;
      ActAllAppends(Act(w, a[0]), a[1..], b);
    }
  }

  /** What holds between any two statements of the generator. */
  ghost predicate Consistent(schedule: seq<Pause>, used: nat, world: World, sent: seq<Report>) {
    && used <= |schedule|
    && SameOutside(world, ActAll(START, Actions(schedule[..used])))
    && InFlight(world, sent)
  }

  /** The generator is suspended: the world it sees moves on as the world outside does. */
  method Suspend(schedule: seq<Pause>, used: nat, world: World, ghost sent: seq<Report>) returns (next: World)
    requires Consistent(schedule, used, world, sent) && used < |schedule|
    ensures Consistent(schedule, used + 1, next, sent)
    ensures world.task.Some? ==> next.task == world.task
  {
    next := ActAll(world, schedule[used].actions);
    ActAllKeepsInFlight(world, schedule[used].actions, sent);
    ActAllOutside(world, ActAll(START, Actions(schedule[..used])), schedule[used].actions);
    ActAllAppends(START, Actions(schedule[..used]), schedule[used].actions);
    assert schedule[..used + 1][..used] == schedule[..used];
  }

  /** `queue.get`: the head of the queue, and the world without it. */
  method Take(schedule: seq<Pause>, used: nat, world: World, sent: seq<Report>) returns (report: Report, next: World)
    requires Consistent(schedule, used, world, sent) && |world.queue| > 0
    ensures Consistent(schedule, used, next, sent + [report]) && next.task == world.task
    ensures Statuses(sent + [report]) == Statuses(sent) + [Status(report)]
  {
    SendKeepsInFlight(world, sent);
    report, next := world.queue[0], world.(queue := world.queue[1..]);
    assert (sent + [report])[..|sent|] == sent;
  }

  lemma ClosedHasAll(schedule: seq<Pause>, used: nat, world: World, sent: seq<Report>)
    requires Consistent(schedule, used, world, sent)
    ensures sent <= world.posted
    ensures world.task.Some? && |world.queue| == 0 ==> world.owed <= sent
  {
  }

  /** The first loop: until the task is done, wait for the queue, but never longer than the timeout. */
  method DrainWhileRunning(schedule: seq<Pause>) returns (out: seq<Frame>, sent: seq<Report>, world: World, used: nat)
    ensures Consistent(schedule, used, world, sent) && out == Statuses(sent)
    ensures world.task.None? ==> used == |schedule|
  {
    out, sent, world, used := [], [], START, 0;
    while world.task.None? && used < |schedule|
      invariant Consistent(schedule, used, world, sent) && out == Statuses(sent)
      decreases |schedule| - used
    {
      var timesOut := schedule[used].timesOut;
      world := Suspend(schedule, used, world, sent);  // in wait_for(queue.get(), timeout=0.1)
      used := used + 1;
      if timesOut || |world.queue| == 0 {
        continue;
      }
      var report;
      report, world := Take(schedule, used, world, sent);
      out, sent := out + [Status(report)], sent + [report];
      if used < |schedule| {
        world := Suspend(schedule, used, world, sent);  // at the yield
        used := used + 1;
      }
    }
  }

  /** The second loop: flush what is still queued; the consumer may go away at every yield. */
  method Flush(schedule: seq<Pause>, used0: nat, world0: World, sent0: seq<Report>)
      returns (out: seq<Frame>, sent: seq<Report>, world: World, used: nat, flushed: bool)
    requires Consistent(schedule, used0, world0, sent0) && world0.task.Some?
    ensures Consistent(schedule, used, world, sent) && out == Statuses(sent) && world.task == world0.task
    ensures flushed ==> |world.queue| == 0
    ensures !flushed ==> used == |schedule|
  {
    out, sent, world, used, flushed := Statuses(sent0), sent0, world0, used0, true;
    while |world.queue| > 0
      invariant Consistent(schedule, used, world, sent) && out == Statuses(sent) && world.task == world0.task
      decreases |schedule| - used
    {
      var report;
      report, world := Take(schedule, used, world, sent);
      out, sent := out + [Status(report)], sent + [report];
      if used == |schedule| {
        flushed := false;
        return;
      }
      world := Suspend(schedule, used, world, sent);  // at the yield
      used := used + 1;
    }
  }

  /**
   The generator, together with the world as it leaves it and the number of pauses it lived through.
   If the schedule runs out first, the client went away and the stream is not closed.  What was sent is
   an initial segment of the reports, in posting order; a closed stream has sent every report posted
   before the engine ended, which is every report if it reports only while it runs, then exactly one
   terminal frame.
   */
  method StreamAnswer(schedule: seq<Pause>) returns (out: seq<Frame>, closed: bool, sent: seq<Report>, world: World, used: nat)
    ensures used <= |schedule| && SameOutside(world, ActAll(START, Actions(schedule[..used])))
    ensures sent <= world.posted
    ensures !closed ==> used == |schedule| && out == Statuses(sent)
    ensures closed ==> world.task.Some? && out == Statuses(sent) + [Terminal(world.task.value)]
    ensures closed ==> world.owed <= sent
    ensures closed && ReportsThenEnds(Actions(schedule[..used])) ==>
              out == Statuses(world.posted) + [Terminal(world.task.value)]
    ensures |out| == |sent| + if closed then 1 else 0
    ensures forall k :: 0 <= k < |sent| ==> out[k] == Status(sent[k])
    ensures closed ==>
              match world.task.value
              case Answered(text) => out[|sent|] == Final(text)
              case Unserialisable(message) => out[|sent|] == Error(message)
              case Raised(message) => out[|sent|] == Error(message)
  {
    closed := false;
    out, sent, world, used := DrainWhileRunning(schedule);
    if world.task.Some? {
      out, sent, world, used, closed := Flush(schedule, used, world, sent);
      if closed {
        out := out + [Terminal(world.task.value)];
      }
    }
    StatusesAre(sent);
    ClosedHasAll(schedule, used, world, sent);
    if closed && ReportsThenEnds(Actions(schedule[..used])) {
      AllIsOwed(START, Actions(schedule[..used]));
      assert sent == world.posted;
    }
  }

  /** The engine reports only while it runs. */
  predicate ReportsThenEnds(actions: seq<Action>) {
    forall i, j :: 0 <= i < j < |actions| && actions[i].EngineEnds? ==> !actions[j].OnTurn?
  }

  /** The engine is awaited inside the task, so nothing is posted after it ends: then all is owed. */
  lemma {:induction false} AllIsOwed(w: World, actions: seq<Action>)
    requires w.posted == w.owed
    requires ReportsThenEnds(actions)
    requires w.ended ==> forall i :: 0 <= i < |actions| ==> !actions[i].OnTurn?
    ensures ActAll(w, actions).posted == ActAll(w, actions).owed
    decreases |actions|
  {
    if |actions| > 0 {
      forall i, j | 0 <= i < j < |actions[1..]| && actions[1..][i].EngineEnds? ensures !actions[1..][j].OnTurn? {
        assert actions[i + 1].EngineEnds?;
      }
      AllIsOwed(Act(w, actions[0]), actions[1..]);
    }
  }
}
