/**
 The ingest-job table and its lease protocol.

 A worker claims a row with one compare-and-set that also bumps `attempts`; the value it gets back is
 its fencing token, and it passes the token back when it commits.  The first half of this module is
 the repository, one method per database statement.  The second half lets any number of workers,
 sweepers and submitters interleave those statements, records what happened in a history, and proves
 what every run keeps.
 */
module IngestJobs {
  import opened Basics

  type JobId = string

  datatype Status = Queued | Running | Succeeded | Failed

  datatype Job = Job(
    tenant: string,
    workspace: string,
    status: Status,
    attempts: nat,
    startedAt: Option<int>,
    finishedAt: Option<int>,
    sourceId: Option<string>,
    sha256: Option<string>,
    errorCode: Option<string>,
    errorMessage: Option<string>)

  type Jobs = map<JobId, Job>

  /** What a worker reports at the end of a run. */
  datatype Outcome =
    | Success(sourceId: string, sha256: Option<string>)
    | Failure(code: string, message: string)

  predicate Terminal(job: Job) {
    job.status.Succeeded? || job.status.Failed?
  }

  /** The lease of a running row has expired at time `now`. */
  predicate Stale(job: Job, now: int, lease: int) {
    job.status.Running? && job.startedAt.Some? && job.startedAt.value < now - lease
  }

  /** The WHERE clause of the claim; the stale branch exists only for a positive lease. */
  predicate Claimable(job: Job, now: int, lease: Option<int>) {
    || job.status.Queued?
    || (lease.Some? && lease.value > 0 && Stale(job, now, lease.value))
  }

  /** The WHERE clause of a commit; without an expected token only the status is checked. */
  predicate Committable(job: Job, expected: Option<nat>) {
    job.status.Running? && (expected.Some? ==> job.attempts == expected.value)
  }

  function Claimed(job: Job, now: int): Job {
    job.(status := Running, attempts := job.attempts + 1, startedAt := Some(now),
         errorCode := None, errorMessage := None)
  }

  function Demoted(job: Job): Job {
    job.(status := Queued, errorCode := None, errorMessage := None)
  }

  function Finished(job: Job, now: int, outcome: Outcome): Job {
    match outcome
    case Success(source, sha) =>
      job.(status := Succeeded, sourceId := Some(source), sha256 := sha, finishedAt := Some(now))
    case Failure(code, message) =>
      job.(status := Failed, errorCode := Some(code), errorMessage := Some(message), finishedAt := Some(now))
  }

  function StaleIds(jobs: Jobs, now: int, lease: int): set<JobId> {
    set id | id in jobs && Stale(jobs[id], now, lease)
  }

  function DemoteAll(jobs: Jobs, ids: set<JobId>): Jobs {
    map id | id in jobs :: if id in ids then Demoted(jobs[id]) else jobs[id]
  }

  /** What `SELECT ... LIMIT` may return: it has no ORDER BY, so any choice of the right size. */
  predicate Selection(picked: set<JobId>, jobs: Jobs, now: int, lease: int, limit: nat) {
    && picked <= StaleIds(jobs, now, lease)
    && |picked| == Min(limit, |StaleIds(jobs, now, lease)|)
  }

  /** The columns that neither a claim nor a demotion touches. */
  predicate SameButLease(a: Job, b: Job) {
    && a.tenant == b.tenant && a.workspace == b.workspace && a.finishedAt == b.finishedAt
    && a.sourceId == b.sourceId && a.sha256 == b.sha256
  }

  class IngestJobRepository {
    var jobs: Jobs
    var now: int  // the one clock, shared by the database and its clients
    ghost var sweeps: map<nat, set<JobId>>
    ghost var history: History

    /** The state of the machine below; `worker` and `sweeper` say whose step a call is. */
    ghost function AsState(): State
      reads this
    {
      State(jobs, now, sweeps, history)
    }

    method MarkRunning(id: JobId, lease: Option<int>, ghost worker: nat) returns (row: Option<Job>)
      modifies this`jobs, this`history
      ensures AsState() == Apply(old(AsState()), TryClaim(worker, id, lease))
      ensures row.Some? <==> id in old(jobs) && Claimable(old(jobs)[id], now, lease)
      ensures row.Some? ==> jobs == old(jobs)[id := row.value]
      ensures row.Some? ==>
                && row.value.status == Running && row.value.startedAt == Some(now)
                && row.value.attempts == old(jobs)[id].attempts + 1
                && row.value.errorCode == row.value.errorMessage == None
                && SameButLease(row.value, old(jobs)[id])
      ensures row.None? ==> jobs == old(jobs)
    {
      row := None;
      if id in jobs && Claimable(jobs[id], now, lease) {
        jobs := jobs[id := Claimed(jobs[id], now)];
        row := Some(jobs[id]);
        history := history + [Claim(id, jobs[id].attempts, worker)];
      }
    }

    /** The SELECT of the sweep: any `limit` of the stale rows, or all of them if there are fewer. */
    method SelectStuck(lease: int, limit: nat, ghost sweeper: nat) returns (picked: set<JobId>)
      requires lease > 0
      modifies this`sweeps
      ensures Selection(picked, jobs, now, lease, limit)
      ensures AsState() == Apply(old(AsState()), SweepSelect(sweeper, lease, limit, picked))
    {
      var stale := set id | id in jobs && Stale(jobs[id], now, lease);
      assert stale == StaleIds(jobs, now, lease);
      picked := {};
      while |picked| < limit && picked != stale
        invariant picked <= stale
        invariant |picked| <= limit && |picked| <= |stale| && sweeps == old(sweeps)
        decreases stale - picked
      {
        ProperSubsetHasRoom(picked, stale);
        var id :| id in stale - picked;
        picked := picked + {id};
        SubsetIsNoLarger(picked, stale);
      }
      sweeps := sweeps[sweeper := picked];
    }

    /** The UPDATE of the sweep: keyed by id alone, it does not look at the status again. */
    method DemoteByIds(ids: set<JobId>, ghost sweeper: nat)
      requires sweeper in sweeps && sweeps[sweeper] == ids
      modifies this`jobs, this`sweeps, this`history
      ensures AsState() == Apply(old(AsState()), SweepUpdate(sweeper))
      ensures jobs.Keys == old(jobs).Keys
      ensures forall id :: id in jobs && id !in ids ==> jobs[id] == old(jobs)[id]
      ensures forall id :: id in jobs && id in ids ==>
                && jobs[id].status == Queued && jobs[id].errorCode == jobs[id].errorMessage == None
                && jobs[id].attempts == old(jobs)[id].attempts && jobs[id].startedAt == old(jobs)[id].startedAt
                && SameButLease(jobs[id], old(jobs)[id])
    {
      history := history + [Demotion(ids * jobs.Keys)];
      jobs := DemoteAll(jobs, ids);
      sweeps := sweeps - {sweeper};
    }

    /** Both statements with nothing in between; an empty selection skips the second. */
    method ReclaimStuck(lease: int, limit: nat, ghost sweeper: nat) returns (reclaimed: set<JobId>)
      requires sweeper !in sweeps
      modifies this`jobs, this`sweeps, this`history
      ensures lease <= 0 || reclaimed == {} ==> AsState() == old(AsState())
      ensures lease <= 0 ==> reclaimed == {}
      ensures lease > 0 ==> Selection(reclaimed, old(jobs), now, lease, limit)
      ensures reclaimed != {} ==> AsState() == Apply(old(AsState()), Sweep(lease, limit, reclaimed))
    {
      if lease <= 0 {
        return {};
      }
      reclaimed := SelectStuck(lease, limit, sweeper);
      if reclaimed == {} {
        sweeps := sweeps - {sweeper};
      } else {
        DemoteByIds(reclaimed, sweeper);
      }
      assert sweeps == old(sweeps);
    }

    /** `mark_succeeded` and `mark_failed`: the same guarded UPDATE with different columns. */
    method MarkFinished(id: JobId, outcome: Outcome, expectedAttempts: Option<nat>, ghost worker: nat)
        returns (row: Option<Job>)
      modifies this`jobs, this`history
      ensures expectedAttempts.Some? && Claim(id, expectedAttempts.value, worker) in old(history) ==>
                AsState() == Apply(old(AsState()), TryCommit(worker, id, expectedAttempts.value, outcome))
      ensures expectedAttempts.None? ==> AsState() == UnguardedCommit(old(AsState()), worker, id, outcome)
      ensures row.Some? <==> id in old(jobs) && Committable(old(jobs)[id], expectedAttempts)
      ensures row.Some? ==> jobs == old(jobs)[id := row.value]
      ensures row.Some? && outcome.Success? ==>
                row.value == old(jobs)[id].(status := Succeeded, finishedAt := Some(now),
                                            sourceId := Some(outcome.sourceId), sha256 := outcome.sha256)
      ensures row.Some? && outcome.Failure? ==>
                row.value == old(jobs)[id].(status := Failed, finishedAt := Some(now),
                                            errorCode := Some(outcome.code), errorMessage := Some(outcome.message))
      ensures row.None? ==> jobs == old(jobs)
    {
      row := None;
      if id in jobs && Committable(jobs[id], expectedAttempts) {
        jobs := jobs[id := Finished(jobs[id], now, outcome)];
        row := Some(jobs[id]);
        history := history + [Commit(id, jobs[id].attempts, worker, outcome)];
      }
    }
  }

  // ---------------------------------------------------------------------------------------------
  // Interleavings
  // ---------------------------------------------------------------------------------------------

  /** One line of the history.  A demotion names every row that one UPDATE touched. */
  datatype Entry =
    | Claim(id: JobId, token: nat, worker: nat)
    | Demotion(ids: set<JobId>)
    | Commit(id: JobId, token: nat, worker: nat, outcome: Outcome)

  type History = seq<Entry>

  predicate Concerns(entry: Entry, id: JobId) {
    match entry
    case Claim(i, _, _) => i == id
    case Demotion(ids) => id in ids
    case Commit(i, _, _, _) => i == id
  }

  /** The position of the last entry about `id`, or -1. */
  function LastIndex(history: History, id: JobId): (i: int)
    ensures -1 <= i < |history|
    ensures i >= 0 ==> Concerns(history[i], id)
    ensures forall k :: i < k < |history| ==> !Concerns(history[k], id)
  {
    if |history| == 0 then -1
    else if Concerns(history[|history| - 1], id) then |history| - 1
    else LastIndex(history[..|history| - 1], id)
  }

  /** The last thing that happened to `id`. */
  function Last(history: History, id: JobId): Option<Entry> {
    var i := LastIndex(history, id);
    if i < 0 then None else Some(history[i])
  }

  function ClaimCount(history: History, id: JobId): nat {
    if |history| == 0 then 0
    else
      var entry := history[|history| - 1];
      ClaimCount(history[..|history| - 1], id) + if entry.Claim? && entry.id == id then 1 else 0
  }

  /**
   The table, the clock, the sweeps whose SELECT has run but whose UPDATE has not, and the history.
   */
  datatype State = State(jobs: Jobs, now: int, sweeps: map<nat, set<JobId>>, history: History)

  datatype Step =
    | Tick(seconds: nat)
    | Submit(id: JobId, tenant: string, workspace: string)
    | TryClaim(worker: nat, id: JobId, reclaimAfter: Option<int>)
    | TryCommit(worker: nat, id: JobId, token: nat, outcome: Outcome)
    | Sweep(lease: int, limit: nat, picked: set<JobId>)
    | SweepSelect(sweeper: nat, lease: int, limit: nat, picked: set<JobId>)
    | SweepUpdate(sweeper: nat)

  const INITIAL := State(map[], 0, map[], [])

  /** A worker passes only a token that one of its own claims returned. */
  predicate Enabled(s: State, step: Step) {
    match step
    case Tick(_) => true
    case Submit(id, _, _) => id !in s.jobs
    case TryClaim(_, _, _) => true
    case TryCommit(worker, id, token, _) => Claim(id, token, worker) in s.history
    case Sweep(lease, limit, picked) => lease > 0 && Selection(picked, s.jobs, s.now, lease, limit)
    case SweepSelect(_, lease, limit, picked) => lease > 0 && Selection(picked, s.jobs, s.now, lease, limit)
    case SweepUpdate(sweeper) => sweeper in s.sweeps
  }

  function DemoteStep(s: State, ids: set<JobId>): State {
    s.(jobs := DemoteAll(s.jobs, ids), history := s.history + [Demotion(ids * s.jobs.Keys)])
  }

  function Apply(s: State, step: Step): State
    requires Enabled(s, step)
  {
    match step
    case Tick(seconds) => s.(now := s.now + seconds)
    case Submit(id, tenant, workspace) =>
      s.(jobs := s.jobs[id := Job(tenant, workspace, Queued, 0, None, None, None, None, None, None)])
    case TryClaim(worker, id, lease) =>
      if id in s.jobs && Claimable(s.jobs[id], s.now, lease) then
        var row := Claimed(s.jobs[id], s.now);
        s.(jobs := s.jobs[id := row], history := s.history + [Claim(id, row.attempts, worker)])
      else s
    case TryCommit(worker, id, token, outcome) =>
      if id in s.jobs && Committable(s.jobs[id], Some(token)) then
        s.(jobs := s.jobs[id := Finished(s.jobs[id], s.now, outcome)],
           history := s.history + [Commit(id, token, worker, outcome)])
      else s
    case Sweep(_, _, picked) => DemoteStep(s, picked)
    case SweepSelect(sweeper, _, _, picked) => s.(sweeps := s.sweeps[sweeper := picked])
    case SweepUpdate(sweeper) => DemoteStep(s, s.sweeps[sweeper]).(sweeps := s.sweeps - {sweeper})
  }

  /** A commit without the expected token; no step of the protocol, but the repository allows it. */
  function UnguardedCommit(s: State, worker: nat, id: JobId, outcome: Outcome): State {
    if id in s.jobs && Committable(s.jobs[id], None) then
      s.(jobs := s.jobs[id := Finished(s.jobs[id], s.now, outcome)],
         history := s.history + [Commit(id, s.jobs[id].attempts, worker, outcome)])
    else s
  }

  ghost predicate Valid(s: State, steps: seq<Step>)
    decreases |steps|
  {
    |steps| == 0 || (Enabled(s, steps[0]) && Valid(Apply(s, steps[0]), steps[1..]))
  }

  function Exec(s: State, steps: seq<Step>): State
    requires Valid(s, steps)
    decreases |steps|
  {
    if |steps| == 0 then s else Exec(Apply(s, steps[0]), steps[1..])
  }

  /**
   What the history may say next: a claim gets the next token, and a commit is only ever the direct
   successor, for its job, of the claim that handed out its token.
   */
  predicate Admissible(before: History, entry: Entry) {
    match entry
    case Claim(id, token, _) => token == ClaimCount(before, id) + 1
    case Demotion(_) => true
    case Commit(id, token, worker, _) => Last(before, id) == Some(Claim(id, token, worker))
  }

  ghost predicate Lawful(history: History) {
    forall i :: 0 <= i < |history| ==> Admissible(history[..i], history[i])
  }

  /** A finished row shows this outcome. */
  predicate Shows(job: Job, outcome: Outcome) {
    && job.finishedAt.Some?
    && match outcome
       case Success(source, sha) =>
         job.status == Succeeded && job.sourceId == Some(source) && job.sha256 == sha && job.errorCode == job.errorMessage == None
       case Failure(code, message) =>
         job.status == Failed && job.errorCode == Some(code) && job.errorMessage == Some(message)
  }

  /** The status, the token and the outcome of a row are determined by the last entry about it. */
  predicate RowAgrees(job: Job, id: JobId, history: History, now: int) {
    && job.attempts == ClaimCount(history, id)
    && (job.status.Running? ==> job.startedAt.Some? && job.startedAt.value <= now)
    && (!Terminal(job) ==> job.errorCode == job.errorMessage == None)
    && match Last(history, id)
       case None => job.status.Queued?
       case Some(Claim(_, token, _)) => job.status.Running? && job.attempts == token
       case Some(Demotion(_)) => job.status.Queued?
       case Some(Commit(_, token, _, outcome)) => Shows(job, outcome) && job.attempts == token
  }

  ghost predicate Inv(s: State) {
    && Lawful(s.history)
    && (forall id :: Agrees(s.jobs, id, s.history, s.now))
  }

  predicate Agrees(jobs: Jobs, id: JobId, history: History, now: int) {
    if id in jobs then RowAgrees(jobs[id], id, history, now)
    else Last(history, id).None? && ClaimCount(history, id) == 0
  }

  lemma Snoc(history: History, entry: Entry, id: JobId)
    ensures ClaimCount(history + [entry], id)
            == ClaimCount(history, id) + if entry.Claim? && entry.id == id then 1 else 0
    ensures Last(history + [entry], id) == if Concerns(entry, id) then Some(entry) else Last(history, id)
    ensures LastIndex(history + [entry], id)
            == if Concerns(entry, id) then |history| else LastIndex(history, id)
  {
    assert (history + [entry])[..|history|] == history;
  }

  lemma LawfulSnoc(history: History, entry: Entry)
    requires Lawful(history) && Admissible(history, entry)
    ensures Lawful(history + [entry])
  {
    var longer := history + [entry];
    forall i | 0 <= i < |longer| ensures Admissible(longer[..i], longer[i]) {
      assert longer[..i] == history[..i];
      if i == |history| { assert history[..i] == history; }
    }
  }

  lemma LawfulSnocIff(history: History, entry: Entry)
    requires Lawful(history)
    ensures Lawful(history + [entry]) <==> Admissible(history, entry)
  {
    var longer := history + [entry];
    assert longer[..|history|] == history && longer[|history|] == entry;
    if Admissible(history, entry) { LawfulSnoc(history, entry); }
  }

  /** Counts only grow, and a claim inside the window is counted. */
  lemma {:induction false} ClaimCountMonotone(history: History, id: JobId, i: nat, j: nat)
    requires i <= j <= |history|
    ensures ClaimCount(history[..i], id) <= ClaimCount(history[..j], id)
    ensures i < j && history[i].Claim? && history[i].id == id ==>
              ClaimCount(history[..i], id) < ClaimCount(history[..j], id)
    decreases j
  {
    if i < j {
      assert history[..j] == history[..j - 1] + [history[j - 1]];
      Snoc(history[..j - 1], history[j - 1], id);
      ClaimCountMonotone(history, id, i, j - 1);
    }
  }

  /** Successive claims of one job carry strictly increasing tokens. */
  lemma TokensIncrease(history: History, i: nat, j: nat)
    requires Lawful(history)
    requires i < j < |history| && history[i].Claim? && history[j].Claim? && history[i].id == history[j].id
    ensures history[i].token < history[j].token
  {
    assert Admissible(history[..i], history[i]) && Admissible(history[..j], history[j]);
    ClaimCountMonotone(history, history[i].id, i, j);
  }

  /** Position of the claim a commit answers: every entry in between is about other jobs. */
  lemma CommitAnswersClaim(history: History, i: nat) returns (k: nat)
    requires Lawful(history) && i < |history| && history[i].Commit?
    ensures k < i && history[k] == Claim(history[i].id, history[i].token, history[i].worker)
    ensures forall m :: k < m < i ==> !Concerns(history[m], history[i].id)
  {
    assert Admissible(history[..i], history[i]);
    k := LastIndex(history[..i], history[i].id);
    forall m | k < m < i ensures !Concerns(history[m], history[i].id) {
      assert history[..i][m] == history[m];
    }
  }

  /** Fencing: two commits of one job never carry the same token; the later one has the larger. */
  lemma OneCommitPerToken(history: History, i: nat, j: nat)
    requires Lawful(history)
    requires i < j < |history| && history[i].Commit? && history[j].Commit? && history[i].id == history[j].id
    ensures history[i].token < history[j].token
  {
    var ki := CommitAnswersClaim(history, i);
    var kj := CommitAnswersClaim(history, j);
    assert Concerns(history[i], history[j].id);
    TokensIncrease(history, ki, kj);
  }

  lemma DemotionKeepsInv(s: State, ids: set<JobId>)
    requires Inv(s)
    ensures Inv(DemoteStep(s, ids))
  {
    var entry := Demotion(ids * s.jobs.Keys);
    LawfulSnoc(s.history, entry);
    var jobs', history' := DemoteAll(s.jobs, ids), s.history + [entry];
    forall id ensures Agrees(jobs', id, history', s.now) {
      Snoc(s.history, entry, id);
      assert Agrees(s.jobs, id, s.history, s.now);
    }
  }

  /** An entry about one job, with its new row, leaves every other job in agreement. */
  lemma UpdateKeepsInv(s: State, id: JobId, row: Job, entry: Entry)
    requires Inv(s) && id in s.jobs && Admissible(s.history, entry)
    requires forall other :: Concerns(entry, other) <==> other == id
    requires RowAgrees(row, id, s.history + [entry], s.now)
    ensures Inv(s.(jobs := s.jobs[id := row], history := s.history + [entry]))
  {
    LawfulSnoc(s.history, entry);
    var jobs', history' := s.jobs[id := row], s.history + [entry];
    forall other ensures Agrees(jobs', other, history', s.now) {
      Snoc(s.history, entry, other);
      assert Agrees(s.jobs, other, s.history, s.now);
    }
  }

  lemma ClaimKeepsInv(s: State, worker: nat, id: JobId, lease: Option<int>)
    requires Inv(s)
    ensures Inv(Apply(s, TryClaim(worker, id, lease)))
  {
    if id in s.jobs && Claimable(s.jobs[id], s.now, lease) {
      var entry := Claim(id, s.jobs[id].attempts + 1, worker);
      assert Agrees(s.jobs, id, s.history, s.now);
      Snoc(s.history, entry, id);
      UpdateKeepsInv(s, id, Claimed(s.jobs[id], s.now), entry);
    }
  }

  lemma CommitKeepsInv(s: State, worker: nat, id: JobId, token: nat, outcome: Outcome)
    requires Inv(s) && Enabled(s, TryCommit(worker, id, token, outcome))
    ensures Inv(Apply(s, TryCommit(worker, id, token, outcome)))
  {
    CommitLandsIffLatest(s, worker, id, token);
    if Committable(s.jobs[id], Some(token)) {
      var entry := Commit(id, token, worker, outcome);
      assert Agrees(s.jobs, id, s.history, s.now);
      Snoc(s.history, entry, id);
      UpdateKeepsInv(s, id, Finished(s.jobs[id], s.now, outcome), entry);
    }
  }

  lemma StepKeepsInv(s: State, step: Step)
    requires Inv(s) && Enabled(s, step)
    ensures Inv(Apply(s, step))
  {
    match step
    case Tick(_) | Submit(_, _, _) | SweepSelect(_, _, _, _) =>
      var s' := Apply(s, step);
      forall id ensures Agrees(s'.jobs, id, s'.history, s'.now) {
        assert Agrees(s.jobs, id, s.history, s.now);
      }
    case Sweep(_, _, picked) => DemotionKeepsInv(s, picked);
    case SweepUpdate(sweeper) => DemotionKeepsInv(s, s.sweeps[sweeper]);
    case TryClaim(worker, id, lease) => ClaimKeepsInv(s, worker, id, lease);
    case TryCommit(worker, id, token, outcome) => CommitKeepsInv(s, worker, id, token, outcome);
  }

  /**
   A guarded commit lands exactly when the last thing that happened to the job is the committing
   worker's own claim: nobody re-claimed it, nobody demoted it, nobody finished it.
   */
  lemma CommitLandsIffLatest(s: State, worker: nat, id: JobId, token: nat)
    requires Inv(s) && Claim(id, token, worker) in s.history
    ensures id in s.jobs
    ensures Committable(s.jobs[id], Some(token)) <==> Last(s.history, id) == Some(Claim(id, token, worker))
  {
    var mine :| 0 <= mine < |s.history| && s.history[mine] == Claim(id, token, worker);
    var last := LastIndex(s.history, id);
    assert last >= mine && Agrees(s.jobs, id, s.history, s.now);
    if Committable(s.jobs[id], Some(token)) && last != mine {
      assert s.history[last].Claim?;
      TokensIncrease(s.history, mine, last);
    }
  }

  /**
   Without the expected token the guard is only the status, so a commit lands for every past
   claimant as soon as anybody holds the job; the history stays lawful exactly when the caller's own
   claim is the last entry.
   */
  lemma UnguardedCommitLandsForAnyHolder(s: State, worker: nat, id: JobId, token: nat, outcome: Outcome)
    requires Inv(s) && Claim(id, token, worker) in s.history
    ensures id in s.jobs
    ensures Committable(s.jobs[id], None) <==> Last(s.history, id).Some? && Last(s.history, id).value.Claim?
    ensures Committable(s.jobs[id], None) ==>
              var s' := UnguardedCommit(s, worker, id, outcome);
              && s'.jobs[id] == Finished(s.jobs[id], s.now, outcome)
              && (Lawful(s'.history) <==> Last(s.history, id).value == Claim(id, s.jobs[id].attempts, worker))
  {
    CommitLandsIffLatest(s, worker, id, token);
    assert Agrees(s.jobs, id, s.history, s.now);
    if Committable(s.jobs[id], None) {
      LawfulSnocIff(s.history, Commit(id, s.jobs[id].attempts, worker, outcome));
    }
  }

  lemma {:induction false} RunKeepsInv(s: State, steps: seq<Step>)
    requires Inv(s) && Valid(s, steps)
    ensures Inv(Exec(s, steps))
    decreases |steps|
  {
    if |steps| > 0 {
      StepKeepsInv(s, steps[0]);
      RunKeepsInv(Apply(s, steps[0]), steps[1..]);
    }
  }

  /** Everything above holds of every interleaving, with sweeps as one step or as two. */
  lemma Fencing(steps: seq<Step>)
    requires Valid(INITIAL, steps)
    ensures
      var h := Exec(INITIAL, steps).history;
      && (forall i, j :: 0 <= i < j < |h| && h[i].Claim? && h[j].Claim? && h[i].id == h[j].id ==>
            h[i].token < h[j].token)
      && (forall i, j :: 0 <= i < j < |h| && h[i].Commit? && h[j].Commit? && h[i].id == h[j].id ==>
            h[i].token < h[j].token)
      && (forall i :: 0 <= i < |h| && h[i].Commit? ==>
            Last(h[..i], h[i].id) == Some(Claim(h[i].id, h[i].token, h[i].worker)))
  {
    RunKeepsInv(INITIAL, steps);
    var h := Exec(INITIAL, steps).history;
    forall i, j | 0 <= i < j < |h| && h[i].Claim? && h[j].Claim? && h[i].id == h[j].id
      ensures h[i].token < h[j].token
    {
      TokensIncrease(h, i, j);
    }
    forall i, j | 0 <= i < j < |h| && h[i].Commit? && h[j].Commit? && h[i].id == h[j].id
      ensures h[i].token < h[j].token
    {
      OneCommitPerToken(h, i, j);
    }
    forall i | 0 <= i < |h| && h[i].Commit?
      ensures Last(h[..i], h[i].id) == Some(Claim(h[i].id, h[i].token, h[i].worker))
    {
      assert Admissible(h[..i], h[i]);
    }
  }

  // ---------------------------------------------------------------------------------------------
  // Terminal states
  // ---------------------------------------------------------------------------------------------

  /** The one step that can hit a terminal row: an UPDATE whose earlier SELECT had picked it. */
  predicate Hits(s: State, step: Step, id: JobId) {
    step.SweepUpdate? && step.sweeper in s.sweeps && id in s.sweeps[step.sweeper]
  }

  lemma TerminalRowChangesIffHit(s: State, step: Step, id: JobId)
    requires Enabled(s, step) && id in s.jobs && Terminal(s.jobs[id])
    ensures id in Apply(s, step).jobs
    ensures Apply(s, step).jobs[id] == s.jobs[id] <==> !Hits(s, step, id)
  {
  }

  /** No step of the run is an UPDATE that hits `id`. */
  ghost predicate NeverHit(s: State, steps: seq<Step>, id: JobId)
    requires Valid(s, steps)
    decreases |steps|
  {
    |steps| == 0 || (!Hits(s, steps[0], id) && NeverHit(Apply(s, steps[0]), steps[1..], id))
  }

  /** The row is the same after every step of the run. */
  ghost predicate Frozen(s: State, steps: seq<Step>, id: JobId)
    requires Valid(s, steps) && id in s.jobs
    decreases |steps|
  {
    |steps| == 0
    || (var s' := Apply(s, steps[0]);
        id in s'.jobs && s'.jobs[id] == s.jobs[id] && Frozen(s', steps[1..], id))
  }

  /** A finished job keeps its row, outcome included, through a run exactly when the run never hits it. */
  lemma {:induction false} TerminalIsAbsorbingIffNeverHit(s: State, steps: seq<Step>, id: JobId)
    requires Valid(s, steps) && id in s.jobs && Terminal(s.jobs[id])
    ensures Frozen(s, steps, id) <==> NeverHit(s, steps, id)
    decreases |steps|
  {
    if |steps| > 0 {
      TerminalRowChangesIffHit(s, steps[0], id);
      if !Hits(s, steps[0], id) {
        TerminalIsAbsorbingIffNeverHit(Apply(s, steps[0]), steps[1..], id);
      }
    }
  }

  /** After a commit nothing more is recorded about the job. */
  ghost predicate CommitsAreFinal(history: History) {
    forall i, j :: 0 <= i < j < |history| && history[i].Commit? ==> !Concerns(history[j], history[i].id)
  }

  predicate AtomicSweeps(steps: seq<Step>) {
    forall i :: 0 <= i < |steps| ==> !steps[i].SweepUpdate?
  }

  lemma StepKeepsCommitsFinal(s: State, step: Step)
    requires Inv(s) && Enabled(s, step) && !step.SweepUpdate? && CommitsAreFinal(s.history)
    ensures CommitsAreFinal(Apply(s, step).history)
  {
    var h, h' := s.history, Apply(s, step).history;
    if h' != h {
      var entry := h'[|h|];
      assert h' == h + [entry];
      forall i | 0 <= i < |h| && h[i].Commit? ensures !Concerns(entry, h[i].id) {
        var id := h[i].id;
        assert LastIndex(h, id) >= i;
        assert LastIndex(h, id) == i;
        assert Agrees(s.jobs, id, h, s.now) && Terminal(s.jobs[id]);
      }
    }
  }

  /** An UPDATE that names a row which is finished by now. */
  ghost predicate HitsFinished(s: State, step: Step) {
    exists id :: id in s.jobs && Terminal(s.jobs[id]) && Hits(s, step, id)
  }

  lemma {:induction false} HistoryGrows(s: State, steps: seq<Step>)
    requires Valid(s, steps)
    ensures s.history <= Exec(s, steps).history
    decreases |steps|
  {
    if |steps| > 0 { HistoryGrows(Apply(s, steps[0]), steps[1..]); }
  }

  lemma FinalInPrefix(part: History, whole: History)
    requires part <= whole && CommitsAreFinal(whole)
    ensures CommitsAreFinal(part)
  {
    forall i, j | 0 <= i < j < |part| && part[i].Commit? ensures !Concerns(part[j], part[i].id) {
      assert whole[i] == part[i] && whole[j] == part[j];
    }
  }

  /** A finished row was committed, and the commit is the last entry about it. */
  lemma FinishedWasCommitted(s: State, id: JobId)
    requires Inv(s) && id in s.jobs && Terminal(s.jobs[id])
    ensures LastIndex(s.history, id) >= 0 && s.history[LastIndex(s.history, id)].Commit?
  {
    assert Agrees(s.jobs, id, s.history, s.now);
  }

  lemma DemotionKeepsCommitsFinalIff(s: State, ids: set<JobId>)
    requires Inv(s) && CommitsAreFinal(s.history)
    ensures CommitsAreFinal(DemoteStep(s, ids).history)
            <==> forall id :: id in ids && id in s.jobs ==> !Terminal(s.jobs[id])
  {
    var h, entry := s.history, Demotion(ids * s.jobs.Keys);
    var h' := h + [entry];
    if id :| id in ids && id in s.jobs && Terminal(s.jobs[id]) {
      FinishedWasCommitted(s, id);
      assert h'[LastIndex(h, id)].Commit? && Concerns(h'[|h|], id);
    } else {
      forall i | 0 <= i < |h| && h[i].Commit? ensures !Concerns(entry, h[i].id) {
        CommittedIsFinished(s, i);
      }
    }
  }

  /** While commits are final, a committed job is finished. */
  lemma CommittedIsFinished(s: State, i: nat)
    requires Inv(s) && CommitsAreFinal(s.history) && i < |s.history| && s.history[i].Commit?
    ensures s.history[i].id in s.jobs && Terminal(s.jobs[s.history[i].id])
  {
    var id := s.history[i].id;
    assert LastIndex(s.history, id) == i;
    assert Agrees(s.jobs, id, s.history, s.now);
  }

  lemma StepKeepsCommitsFinalIff(s: State, step: Step)
    requires Inv(s) && Enabled(s, step) && CommitsAreFinal(s.history)
    ensures CommitsAreFinal(Apply(s, step).history) <==> !HitsFinished(s, step)
  {
    if step.SweepUpdate? {
      DemotionKeepsCommitsFinalIff(s, s.sweeps[step.sweeper]);
    } else {
      StepKeepsCommitsFinal(s, step);
    }
  }

  /** No step of the run hits a row that is finished at that moment. */
  ghost predicate NeverHitsFinished(s: State, steps: seq<Step>)
    requires Valid(s, steps)
    decreases |steps|
  {
    |steps| == 0 || (!HitsFinished(s, steps[0]) && NeverHitsFinished(Apply(s, steps[0]), steps[1..]))
  }

  /** Commits are final throughout a run exactly when no UPDATE by id names a row that has finished. */
  lemma {:induction false} CommitsAreFinalIff(s: State, steps: seq<Step>)
    requires Inv(s) && CommitsAreFinal(s.history) && Valid(s, steps)
    ensures CommitsAreFinal(Exec(s, steps).history) <==> NeverHitsFinished(s, steps)
    decreases |steps|
  {
    if |steps| > 0 {
      var s' := Apply(s, steps[0]);
      StepKeepsInv(s, steps[0]);
      StepKeepsCommitsFinalIff(s, steps[0]);
      if CommitsAreFinal(s'.history) {
        CommitsAreFinalIff(s', steps[1..]);
      } else {
        HistoryGrows(s', steps[1..]);
        if CommitsAreFinal(Exec(s, steps).history) { FinalInPrefix(s'.history, Exec(s, steps).history); }
      }
    }
  }

  /** Two commits of one job. */
  predicate CommittedTwice(history: History, id: JobId) {
    exists i, j :: 0 <= i < j < |history| && history[i].Commit? && history[j].Commit? && history[i].id == history[j].id == id
  }

  lemma {:induction false} AtomicNeverHits(s: State, steps: seq<Step>)
    requires Valid(s, steps) && AtomicSweeps(steps)
    ensures NeverHitsFinished(s, steps)
    decreases |steps|
  {
    if |steps| > 0 { AtomicNeverHits(Apply(s, steps[0]), steps[1..]); }
  }

  /** With the sweep as one step a job is committed at most once in any run, and not touched afterwards. */
  lemma AtomicSweepCommitsOnce(s: State, steps: seq<Step>)
    requires Inv(s) && CommitsAreFinal(s.history) && Valid(s, steps) && AtomicSweeps(steps)
    ensures CommitsAreFinal(Exec(s, steps).history)
    ensures forall id :: !CommittedTwice(Exec(s, steps).history, id)
  {
    AtomicNeverHits(s, steps);
    CommitsAreFinalIff(s, steps);
  }

  /** A sweeper has selected the job and not yet run its UPDATE. */
  ghost predicate Held(s: State, id: JobId) {
    exists sweeper: nat :: sweeper in s.sweeps && id in s.sweeps[sweeper]
  }

  ghost predicate Settled(s: State, id: JobId) {
    id in s.jobs && Terminal(s.jobs[id]) && !Held(s, id)
  }

  /** A finished row that no sweeper holds stays that way, and nothing more is recorded about it. */
  lemma StepKeepsSettled(s: State, step: Step, id: JobId)
    requires Enabled(s, step) && Settled(s, id)
    ensures Settled(Apply(s, step), id) && LastIndex(Apply(s, step).history, id) == LastIndex(s.history, id)
  {
    SettledIsNotSelected(s, step, id);
    StepLeavesAlone(s, step, id);
  }

  /** No SELECT picks a finished row. */
  lemma SettledIsNotSelected(s: State, step: Step, id: JobId)
    requires Enabled(s, step) && Settled(s, id)
    ensures !Held(Apply(s, step), id)
    ensures !Takes(s, step, id) && !LandsOn(s, step, id)
  {
  }

  lemma {:induction false} SettledStays(s: State, steps: seq<Step>, id: JobId)
    requires Valid(s, steps) && Settled(s, id)
    ensures LastIndex(Exec(s, steps).history, id) == LastIndex(s.history, id)
    decreases |steps|
  {
    if |steps| > 0 {
      StepKeepsSettled(s, steps[0], id);
      SettledStays(Apply(s, steps[0]), steps[1..], id);
    }
  }

  /** The run commits the job: one of the entries it adds to the history says so. */
  ghost predicate Commits(s: State, steps: seq<Step>, id: JobId) {
    && Valid(s, steps)
    && var history := Exec(s, steps).history;
       exists k :: |s.history| <= k < |history| && history[k].Commit? && history[k].id == id
  }

  /** The UPDATE of that sweeper, a claim and a commit. */
  lemma HeldIsRecommitted(s: State, id: JobId, sweeper: nat) returns (steps: seq<Step>)
    requires id in s.jobs && sweeper in s.sweeps && id in s.sweeps[sweeper]
    ensures Commits(s, steps, id)
  {
    var s1 := Apply(s, SweepUpdate(sweeper));
    var s2 := Apply(s1, TryClaim(0, id, None));
    var token := s2.jobs[id].attempts;
    assert s2.history[|s1.history|] == Claim(id, token, 0);
    var last := TryCommit(0, id, token, Failure("", ""));
    var s3 := Apply(s2, last);
    ExecSnoc(s, [], SweepUpdate(sweeper));
    ExecSnoc(s, [] + [SweepUpdate(sweeper)], TryClaim(0, id, None));
    ExecSnoc(s, [] + [SweepUpdate(sweeper)] + [TryClaim(0, id, None)], last);
    steps := [] + [SweepUpdate(sweeper)] + [TryClaim(0, id, None)] + [last];
    assert s3.history[|s2.history|].Commit?;
  }

  /** A finished job can be committed again exactly if a sweeper that selected it has still to run its UPDATE. */
  lemma SecondCommitPossibleIff(s: State, id: JobId)
    requires id in s.jobs && Terminal(s.jobs[id])
    ensures (exists steps :: Commits(s, steps, id)) <==> Held(s, id)
  {
    if Held(s, id) {
      var sweeper: nat :| sweeper in s.sweeps && id in s.sweeps[sweeper];
      var steps := HeldIsRecommitted(s, id, sweeper);
      assert Commits(s, steps, id);
    } else {
      forall steps | Valid(s, steps) ensures !Commits(s, steps, id) {
        SettledStays(s, steps, id);
      }
    }
  }

  lemma SingletonSelection(id: JobId, job: Job, now: int, lease: int, limit: nat)
    requires Stale(job, now, lease) && limit > 0
    ensures Selection({id}, map[id := job], now, lease, limit)
  {
    assert StaleIds(map[id := job], now, lease) == {id};
  }

  /** Runs grow at the end as well as at the front. */
  lemma {:induction false} ExecSnoc(s: State, steps: seq<Step>, step: Step)
    requires Valid(s, steps) && Enabled(Exec(s, steps), step)
    ensures Valid(s, steps + [step]) && Exec(s, steps + [step]) == Apply(Exec(s, steps), step)
    decreases |steps|
  {
    var longer := steps + [step];
    if |steps| == 0 {
      assert longer[1..] == [];
    } else {
      assert longer[1..] == steps[1..] + [step];
      ExecSnoc(Apply(s, steps[0]), steps[1..], step);
    }
  }

  /** Worker 1 has claimed, its lease has run out, and sweeper 9 has selected the row. */
  lemma SelectedWhileHeld() returns (run: seq<Step>, s: State)
    ensures Valid(INITIAL, run) && Exec(INITIAL, run) == s
    ensures s.history == [Claim("job", 1, 1)] && s.sweeps == map[9 := {"job"}]
    ensures s.jobs.Keys == {"job"} && s.jobs["job"].status.Running? && s.jobs["job"].attempts == 1
  {
    run, s := [], INITIAL;
    run, s := Extend(run, s, Submit("job", "t", "w"));
    run, s := Extend(run, s, TryClaim(1, "job", None));
    run, s := Extend(run, s, Tick(100));
    var held := s.jobs["job"];
    assert s == State(map["job" := held], 100, map[], [Claim("job", 1, 1)]);
    SingletonSelection("job", held, 100, 10, 5);
    run, s := Extend(run, s, SweepSelect(9, 10, 5, {"job"}));
  }

  /**
   A commit between the sweep's SELECT and its UPDATE: the finished job goes back to the queue and is
   committed a second time.
   */
  lemma SplitSweepCommitsTwice()
    ensures exists steps :: Valid(INITIAL, steps) && CommittedTwice(Exec(INITIAL, steps).history, "job")
  {
    var run, s := SelectedWhileHeld();
    assert s.history[0] == Claim("job", 1, 1);
    run, s := Extend(run, s, TryCommit(1, "job", 1, Success("source", None)));
    assert s.history[1] == Commit("job", 1, 1, Success("source", None));
    run, s := Extend(run, s, SweepUpdate(9));
    assert s.jobs["job"].status.Queued? && s.jobs["job"].attempts == 1 && |s.history| == 3;
    run, s := Extend(run, s, TryClaim(2, "job", None));
    assert s.history[3] == Claim("job", 2, 2);
    run, s := Extend(run, s, TryCommit(2, "job", 2, Failure("boom", "late")));
    assert s.history[4].Commit? && s.history[1].Commit?;
    assert Exec(INITIAL, run) == s;
  }

  lemma Extend(run: seq<Step>, s: State, step: Step) returns (run': seq<Step>, s': State)
    requires Valid(INITIAL, run) && Exec(INITIAL, run) == s && Enabled(s, step)
    ensures run' == run + [step] && Valid(INITIAL, run')
    ensures s' == Apply(s, step) == Exec(INITIAL, run')
  {
    ExecSnoc(INITIAL, run, step);
    run', s' := run + [step], Apply(s, step);
  }

  /** The lease of worker 1 has run out and worker 2 has claimed the job. */
  lemma Poached() returns (run: seq<Step>, s: State)
    ensures Valid(INITIAL, run) && Exec(INITIAL, run) == s
    ensures s.history == [Claim("job", 1, 1), Claim("job", 2, 2)]
    ensures s.jobs.Keys == {"job"} && s.jobs["job"].status.Running? && s.jobs["job"].attempts == 2
  {
    run, s := [], INITIAL;
    run, s := Extend(run, s, Submit("job", "t", "w"));
    run, s := Extend(run, s, TryClaim(1, "job", Some(10)));
    run, s := Extend(run, s, Tick(100));
    run, s := Extend(run, s, TryClaim(2, "job", Some(10)));
  }

  /**
   Committing without the expected token: the lease of worker 1 is poached by worker 2, and then the
   result of worker 1 finishes the job under the claim of worker 2, who cannot commit any more.
   */
  lemma UnguardedCommitLandsStale(stale: Outcome)
    ensures exists steps ::
              && Valid(INITIAL, steps)
              && (var s := Exec(INITIAL, steps);
                  var s' := UnguardedCommit(s, 1, "job", stale);
                  && Claim("job", 1, 1) in s.history
                  && Last(s.history, "job") == Some(Claim("job", 2, 2))
                  && "job" in s.jobs && !Committable(s.jobs["job"], Some(1)) && Committable(s.jobs["job"], Some(2))
                  && s'.history == s.history + [Commit("job", 2, 1, stale)]
                  && s'.jobs["job"] == Finished(s.jobs["job"], s.now, stale)
                  && !Committable(s'.jobs["job"], Some(2)))
  {
    var run, s := Poached();
    assert s.history == [Claim("job", 1, 1)] + [Claim("job", 2, 2)];
    Snoc([Claim("job", 1, 1)], Claim("job", 2, 2), "job");
    assert s.history[0] == Claim("job", 1, 1);
    assert Exec(INITIAL, run) == s;
  }

  /** In every run a finished job shows exactly the outcome of the last commit about it. */
  lemma FinishedShowsLastCommit(steps: seq<Step>, id: JobId)
    requires Valid(INITIAL, steps) && id in Exec(INITIAL, steps).jobs
    ensures
      var s := Exec(INITIAL, steps);
      var last := Last(s.history, id);
      Terminal(s.jobs[id]) <==> last.Some? && last.value.Commit?
    ensures
      var s := Exec(INITIAL, steps);
      var last := Last(s.history, id);
      last.Some? && last.value.Commit? ==> Shows(s.jobs[id], last.value.outcome)
  {
    RunKeepsInv(INITIAL, steps);
    var s := Exec(INITIAL, steps);
    assert Agrees(s.jobs, id, s.history, s.now);
  }

  // ---------------------------------------------------------------------------------------------
  // A live lease protects the job
  // ---------------------------------------------------------------------------------------------

  /** After a claim the job can be claimed again exactly when the lease has passed, and never without one. */
  lemma LeaseProtectsUntil(s: State, worker: nat, id: JobId, reclaimAfter: Option<int>, later: int, lease: int)
    requires id in s.jobs && Claimable(s.jobs[id], s.now, reclaimAfter)
    ensures
      var s' := Apply(s, TryClaim(worker, id, reclaimAfter));
      && id in s'.jobs
      && !Claimable(s'.jobs[id], later, None)
      && (Claimable(s'.jobs[id], later, Some(lease)) <==> lease > 0 && later > s.now + lease)
      && (lease > 0 ==> (id in StaleIds(s'.jobs, later, lease) <==> later > s.now + lease))
  {
  }

  /** A claim that can poach, and a sweep, waits at least this long. */
  predicate Patient(step: Step, lease: int) {
    match step
    case TryClaim(_, _, reclaimAfter) => reclaimAfter.Some? && reclaimAfter.value > 0 ==> reclaimAfter.value >= lease
    case Sweep(l, _, _) => l >= lease
    case SweepSelect(_, l, _, _) => l >= lease
    case _ => true
  }

  ghost predicate AllPatient(steps: seq<Step>, lease: int) {
    forall i :: 0 <= i < |steps| ==> Patient(steps[i], lease)
  }

  /** The job is held under this claim, taken at time `at`, and no sweeper has selected it. */
  ghost predicate Guarded(s: State, claim: Entry, at: int)
    requires claim.Claim?
  {
    && Inv(s) && claim.id in s.jobs && !Held(s, claim.id)
    && Last(s.history, claim.id) == Some(claim) && s.jobs[claim.id].startedAt == Some(at)
  }

  /** Between two histories the job was committed at most once, under the claim, and otherwise left alone. */
  ghost predicate OnlyOwnCommit(h: History, h': History, claim: Entry)
    requires claim.Claim?
  {
    && h <= h'
    && (forall k :: |h| <= k < |h'| && Concerns(h'[k], claim.id) ==>
          h'[k].Commit? && h'[k].token == claim.token && h'[k].worker == claim.worker)
    && (forall k, l :: |h| <= k < l < |h'| && Concerns(h'[k], claim.id) ==> !Concerns(h'[l], claim.id))
  }

  /** While the lease lasts no claim and no SELECT touches the job. */
  lemma GuardedIsNotTaken(s: State, step: Step, claim: Entry, at: int, lease: int)
    requires claim.Claim? && Guarded(s, claim, at) && Enabled(s, step) && Patient(step, lease) && s.now <= at + lease
    ensures !Takes(s, step, claim.id) && !Held(Apply(s, step), claim.id)
  {
    assert Agrees(s.jobs, claim.id, s.history, s.now);
  }

  /** The step claims the job, or an UPDATE names it. */
  predicate Takes(s: State, step: Step, id: JobId)
    requires id in s.jobs
  {
    match step
    case TryClaim(_, job, reclaimAfter) => job == id && Claimable(s.jobs[id], s.now, reclaimAfter)
    case Sweep(_, _, picked) => id in picked
    case SweepUpdate(_) => Hits(s, step, id)
    case _ => false
  }

  predicate LandsOn(s: State, step: Step, id: JobId)
    requires id in s.jobs
  {
    step.TryCommit? && step.id == id && Committable(s.jobs[id], Some(step.token))
  }

  predicate LeavesAlone(s: State, s': State, id: JobId) {
    && id in s.jobs && id in s'.jobs && s'.jobs[id] == s.jobs[id]
    && LastIndex(s'.history, id) == LastIndex(s.history, id) && Last(s'.history, id) == Last(s.history, id)
  }

  lemma EntryLeavesAlone(s: State, s': State, entry: Entry, id: JobId)
    requires id in s.jobs && id in s'.jobs && s'.jobs[id] == s.jobs[id]
    requires s'.history == s.history + [entry] && !Concerns(entry, id)
    ensures LeavesAlone(s, s', id)
  {
    Snoc(s.history, entry, id);
  }

  /** A step that neither takes the job nor commits it leaves it alone. */
  lemma StepLeavesAlone(s: State, step: Step, id: JobId)
    requires Enabled(s, step) && id in s.jobs && !Takes(s, step, id) && !LandsOn(s, step, id)
    ensures LeavesAlone(s, Apply(s, step), id)
  {
    var s' := Apply(s, step);
    match step
    case TryClaim(worker, job, lease) =>
      if job in s.jobs && Claimable(s.jobs[job], s.now, lease) {
        EntryLeavesAlone(s, s', Claim(job, s.jobs[job].attempts + 1, worker), id);
      }
    case TryCommit(worker, job, token, outcome) =>
      if job in s.jobs && Committable(s.jobs[job], Some(token)) {
        EntryLeavesAlone(s, s', Commit(job, token, worker, outcome), id);
      }
    case Sweep(_, _, picked) => EntryLeavesAlone(s, s', Demotion(picked * s.jobs.Keys), id);
    case SweepUpdate(sweeper) => EntryLeavesAlone(s, s', Demotion(s.sweeps[sweeper] * s.jobs.Keys), id);
    case _ =>
  }

  lemma LandingIsOwnCommit(s: State, step: Step, claim: Entry, at: int)
    requires claim.Claim? && Guarded(s, claim, at) && Enabled(s, step) && LandsOn(s, step, claim.id)
    ensures var s' := Apply(s, step);
            && claim.id in s'.jobs && Terminal(s'.jobs[claim.id])
            && s'.history == s.history + [Commit(claim.id, claim.token, claim.worker, step.outcome)]
  {
    CommitLandsIffLatest(s, step.worker, step.id, step.token);
  }

  /** Only the claimant's own commit changes anything about the job. */
  lemma GuardedStep(s: State, step: Step, claim: Entry, at: int, lease: int)
    requires claim.Claim? && Guarded(s, claim, at) && Enabled(s, step) && Patient(step, lease) && s.now <= at + lease
    ensures
      var s' := Apply(s, step);
      if LandsOn(s, step, claim.id) then
        Settled(s', claim.id) && s'.history == s.history + [Commit(claim.id, claim.token, claim.worker, step.outcome)]
      else
        Guarded(s', claim, at) && LastIndex(s'.history, claim.id) == LastIndex(s.history, claim.id)
  {
    GuardedIsNotTaken(s, step, claim, at, lease);
    if LandsOn(s, step, claim.id) {
      LandingIsOwnCommit(s, step, claim, at);
    } else {
      StepKeepsInv(s, step);
      StepLeavesAlone(s, step, claim.id);
    }
  }

  lemma NothingNew(h: History, h': History, id: JobId)
    requires h <= h' && LastIndex(h', id) == LastIndex(h, id)
    ensures forall k :: |h| <= k < |h'| ==> !Concerns(h'[k], id)
  {
  }

  lemma OwnCommitLater(h: History, h1: History, h': History, claim: Entry)
    requires claim.Claim? && h <= h1 && LastIndex(h1, claim.id) == LastIndex(h, claim.id)
    requires OnlyOwnCommit(h1, h', claim)
    ensures OnlyOwnCommit(h, h', claim)
  {
    NothingNew(h, h1, claim.id);
    forall k | |h| <= k < |h1| ensures !Concerns(h'[k], claim.id) {
      assert h'[k] == h1[k];
    }
  }

  lemma OwnCommitNow(h: History, h': History, claim: Entry, outcome: Outcome)
    requires claim.Claim?
    requires var h1 := h + [Commit(claim.id, claim.token, claim.worker, outcome)];
             h1 <= h' && LastIndex(h', claim.id) == LastIndex(h1, claim.id)
    ensures OnlyOwnCommit(h, h', claim)
  {
    var h1 := h + [Commit(claim.id, claim.token, claim.worker, outcome)];
    NothingNew(h1, h', claim.id);
    assert h'[|h|] == h1[|h|];
  }

  lemma {:induction false} GuardedRun(s: State, steps: seq<Step>, claim: Entry, at: int, lease: int)
    requires claim.Claim? && Guarded(s, claim, at) && Valid(s, steps) && AllPatient(steps, lease)
    requires Exec(s, steps).now <= at + lease
    ensures OnlyOwnCommit(s.history, Exec(s, steps).history, claim)
    decreases |steps|
  {
    if |steps| > 0 {
      var s1, rest := Apply(s, steps[0]), steps[1..];
      ClockAdvances(s, steps);
      ClockAdvances(s1, rest);
      GuardedStep(s, steps[0], claim, at, lease);
      if LandsOn(s, steps[0], claim.id) {
        SettledStays(s1, rest, claim.id);
        HistoryGrows(s1, rest);
        OwnCommitNow(s.history, Exec(s, steps).history, claim, steps[0].outcome);
      } else {
        GuardedRun(s1, rest, claim, at, lease);
        OwnCommitLater(s.history, s1.history, Exec(s, steps).history, claim);
      }
    }
  }

  /**
   A claim gives the job to its worker for the time of the lease: in any run that stays within it, in
   which every claim that could poach and every sweep waits at least that long, and if no sweeper had
   selected the job before, the only thing that can happen to the job is the worker's own commit.
   */
  lemma ClaimHoldsForLease(s: State, worker: nat, id: JobId, reclaimAfter: Option<int>, steps: seq<Step>, lease: int)
    requires Inv(s) && id in s.jobs && Claimable(s.jobs[id], s.now, reclaimAfter) && !Held(s, id)
    requires Valid(Apply(s, TryClaim(worker, id, reclaimAfter)), steps) && AllPatient(steps, lease)
    requires Exec(Apply(s, TryClaim(worker, id, reclaimAfter)), steps).now <= s.now + lease
    ensures
      var s1 := Apply(s, TryClaim(worker, id, reclaimAfter));
      OnlyOwnCommit(s1.history, Exec(s1, steps).history, Claim(id, s.jobs[id].attempts + 1, worker))
  {
    ClaimIsGuarded(s, worker, id, reclaimAfter);
    GuardedRun(Apply(s, TryClaim(worker, id, reclaimAfter)), steps, Claim(id, s.jobs[id].attempts + 1, worker), s.now, lease);
  }

  lemma ClaimIsGuarded(s: State, worker: nat, id: JobId, reclaimAfter: Option<int>)
    requires Inv(s) && id in s.jobs && Claimable(s.jobs[id], s.now, reclaimAfter) && !Held(s, id)
    ensures Guarded(Apply(s, TryClaim(worker, id, reclaimAfter)), Claim(id, s.jobs[id].attempts + 1, worker), s.now)
  {
    StepKeepsInv(s, TryClaim(worker, id, reclaimAfter));
    Snoc(s.history, Claim(id, s.jobs[id].attempts + 1, worker), id);
  }

  /** A sweeper that had selected the job before takes it from its worker at any time. */
  lemma HeldClaimIsDemoted(s: State, id: JobId, sweeper: nat)
    requires id in s.jobs && s.jobs[id].status == Running && sweeper in s.sweeps && id in s.sweeps[sweeper]
    ensures var s' := Apply(s, SweepUpdate(sweeper));
            s'.now == s.now && s'.jobs[id].status == Queued && Last(s'.history, id) == Some(Demotion(s.sweeps[sweeper] * s.jobs.Keys))
  {
    Snoc(s.history, Demotion(s.sweeps[sweeper] * s.jobs.Keys), id);
  }

  // ---------------------------------------------------------------------------------------------
  // No job is lost
  // ---------------------------------------------------------------------------------------------

  /**
   In every reachable state a job that is not finished is queued, inside its lease, or at once visible
   to the sweep and claimable under the same lease; and it is claimable once the lease has passed.
   */
  lemma NoJobIsLost(steps: seq<Step>, id: JobId, lease: int)
    requires Valid(INITIAL, steps) && id in Exec(INITIAL, steps).jobs && lease > 0
    requires !Terminal(Exec(INITIAL, steps).jobs[id])
    ensures
      var s := Exec(INITIAL, steps);
      var job := s.jobs[id];
      && (|| job.status.Queued?
          || (job.status.Running? && job.startedAt.Some? && s.now - lease <= job.startedAt.value <= s.now)
          || (id in StaleIds(s.jobs, s.now, lease) && Claimable(job, s.now, Some(lease))))
      && (forall later :: later > s.now + lease ==> Claimable(job, later, Some(lease)))
      && (Claimable(job, s.now, Some(lease)) <==> job.status.Queued? || id in StaleIds(s.jobs, s.now, lease))
  {
    RunKeepsInv(INITIAL, steps);
    var s := Exec(INITIAL, steps);
    assert Agrees(s.jobs, id, s.history, s.now);
  }

  /** Only sweeps with this lease and limit, one after another. */
  predicate SweepsOnly(steps: seq<Step>, lease: int, limit: nat) {
    forall i :: 0 <= i < |steps| ==> steps[i].Sweep? && steps[i].lease == lease && steps[i].limit == limit
  }

  lemma SweepClearsItsSelection(jobs: Jobs, now: int, lease: int, picked: set<JobId>)
    requires picked <= StaleIds(jobs, now, lease)
    ensures StaleIds(DemoteAll(jobs, picked), now, lease) == StaleIds(jobs, now, lease) - picked
    ensures |StaleIds(DemoteAll(jobs, picked), now, lease)| == |StaleIds(jobs, now, lease)| - |picked|
  {
    var stale := StaleIds(jobs, now, lease);
    assert stale == (stale - picked) + picked;
    assert StaleIds(DemoteAll(jobs, picked), now, lease) == stale - picked;
  }

  lemma DrainArithmetic(k: nat, n: nat, limit: nat)
    requires n > 0
    ensures var left := k - Min(limit, k);
            left - Min((n - 1) * limit, left) == k - Min(n * limit, k)
  {
    assert n * limit == limit + (n - 1) * limit;
  }

  /** Each sweep clears `limit` stale rows, so n sweeps leave max(0, k - n * limit) of k. */
  lemma {:induction false} SweepsDrain(s: State, steps: seq<Step>, lease: int, limit: nat)
    requires Valid(s, steps) && SweepsOnly(steps, lease, limit)
    ensures |StaleIds(Exec(s, steps).jobs, s.now, lease)|
            == |StaleIds(s.jobs, s.now, lease)| - Min(|steps| * limit, |StaleIds(s.jobs, s.now, lease)|)
    decreases |steps|
  {
    if |steps| > 0 {
      SweepClearsItsSelection(s.jobs, s.now, lease, steps[0].picked);
      SweepsDrain(Apply(s, steps[0]), steps[1..], lease, limit);
      DrainArithmetic(|StaleIds(s.jobs, s.now, lease)|, |steps|, limit);
    }
  }

  /** Hence ceil(k / limit) sweeps clear k stale rows, and no smaller number does. */
  lemma SweepsClearIff(s: State, steps: seq<Step>, lease: int, limit: nat, k: nat)
    requires Valid(s, steps) && SweepsOnly(steps, lease, limit)
    requires limit > 0 && k == |StaleIds(s.jobs, s.now, lease)|
    ensures StaleIds(Exec(s, steps).jobs, s.now, lease) == {} <==> |steps| >= (k + limit - 1) / limit
  {
    SweepsDrain(s, steps, lease, limit);
    CeilingBound(k, limit, |steps|);
    var left := StaleIds(Exec(s, steps).jobs, s.now, lease);
    assert |left| == 0 <==> left == {};
  }

  predicate NoClaims(steps: seq<Step>) {
    forall i :: 0 <= i < |steps| ==> !steps[i].TryClaim?
  }

  /** How many of the steps are sweeps with this lease and limit. */
  function SweepCount(steps: seq<Step>, lease: int, limit: nat): nat {
    if |steps| == 0 then 0
    else
      SweepCount(steps[1..], lease, limit)
      + if steps[0].Sweep? && steps[0].lease == lease && steps[0].limit == limit then 1 else 0
  }

  lemma {:induction false} ClockAdvances(s: State, steps: seq<Step>)
    requires Valid(s, steps)
    ensures s.now <= Exec(s, steps).now
    decreases |steps|
  {
    if |steps| > 0 { ClockAdvances(Apply(s, steps[0]), steps[1..]); }
  }

  /** The later the clock, the more rows are stale. */
  lemma StaleGrows(jobs: Jobs, early: int, late: int, lease: int)
    requires early <= late
    ensures StaleIds(jobs, early, lease) <= StaleIds(jobs, late, lease)
  {
  }

  /** Without claims no row becomes stale by any clock that is held still. */
  lemma StepStrandsNone(s: State, step: Step, at: int, lease: int)
    requires Enabled(s, step) && !step.TryClaim?
    ensures StaleIds(Apply(s, step).jobs, at, lease) <= StaleIds(s.jobs, at, lease)
  {
  }

  lemma {:induction false} RunStrandsNone(s: State, steps: seq<Step>, at: int, lease: int)
    requires Valid(s, steps) && NoClaims(steps)
    ensures StaleIds(Exec(s, steps).jobs, at, lease) <= StaleIds(s.jobs, at, lease)
    decreases |steps|
  {
    if |steps| > 0 {
      StepStrandsNone(s, steps[0], at, lease);
      RunStrandsNone(Apply(s, steps[0]), steps[1..], at, lease);
    }
  }

  /** A sweep clears `limit` of the rows that are stale by a later clock, or all that are by an earlier. */
  lemma SweepProgress(s: State, step: Step, early: int, late: int)
    requires Enabled(s, step) && step.Sweep? && early <= s.now <= late
    ensures || StaleIds(Apply(s, step).jobs, early, step.lease) == {}
            || |StaleIds(Apply(s, step).jobs, late, step.lease)| + step.limit == |StaleIds(s.jobs, late, step.lease)|
  {
    var stale := StaleIds(s.jobs, s.now, step.lease);
    StaleGrows(s.jobs, early, s.now, step.lease);
    StaleGrows(s.jobs, s.now, late, step.lease);
    SweepClearsItsSelection(s.jobs, late, step.lease, step.picked);
    if |step.picked| < step.limit {
      SubsetIsNoLarger(step.picked, stale);
      assert StaleIds(Apply(s, step).jobs, early, step.lease) == {};
    }
  }

  /**
   Any run without claims, with the clock moving and with commits, submissions and other sweeps in
   between: either its sweeps have cleared every row stale by an early clock, or each of them has
   cleared `limit` of the rows stale by the late one.
   */
  lemma {:induction false} SweepsDrainRun(s: State, steps: seq<Step>, lease: int, limit: nat, early: int, late: int)
    requires Valid(s, steps) && NoClaims(steps) && early <= s.now && Exec(s, steps).now <= late
    ensures
      var s' := Exec(s, steps);
      || StaleIds(s'.jobs, early, lease) == {}
      || |StaleIds(s'.jobs, late, lease)| + SweepCount(steps, lease, limit) * limit <= |StaleIds(s.jobs, late, lease)|
    decreases |steps|
  {
    if |steps| > 0 {
      var step, s1, n := steps[0], Apply(s, steps[0]), SweepCount(steps[1..], lease, limit);
      ClockAdvances(s1, steps[1..]);
      SweepsDrainRun(s1, steps[1..], lease, limit, early, late);
      RunStrandsNone(s1, steps[1..], early, lease);
      StepStrandsNone(s, step, late, lease);
      SubsetIsNoLarger(StaleIds(s1.jobs, late, lease), StaleIds(s.jobs, late, lease));
      if step.Sweep? && step.lease == lease && step.limit == limit {
        SweepProgress(s, step, early, late);
        assert (n + 1) * limit == n * limit + limit;
      }
    }
  }

  /**
   Hence, if the sweeps of a run without claims have room for all rows that go stale by its end, every
   row that was stale at its beginning has been cleared.
   */
  lemma SweepsClearRun(s: State, steps: seq<Step>, lease: int, limit: nat)
    requires Valid(s, steps) && NoClaims(steps)
    requires SweepCount(steps, lease, limit) * limit >= |StaleIds(s.jobs, Exec(s, steps).now, lease)|
    ensures StaleIds(Exec(s, steps).jobs, s.now, lease) == {}
  {
    var s' := Exec(s, steps);
    ClockAdvances(s, steps);
    SweepsDrainRun(s, steps, lease, limit, s.now, s'.now);
    StaleGrows(s'.jobs, s.now, s'.now, lease);
    if |StaleIds(s'.jobs, s'.now, lease)| == 0 { assert StaleIds(s'.jobs, s'.now, lease) == {}; }
  }
}
