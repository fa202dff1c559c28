/**
 Numbered children: the turns of a conversation and the versions of a knowledge item.

 A writer reads the highest number and inserts the next one later; in between anybody may insert or
 purge.  A unique constraint on (parent, number) and the foreign key to the parent decide which late
 inserts land.
 */
module Numbering {
  import opened Basics

  type ParentId = string

  /** The numbers in use under each parent that exists. */
  type Table = map<ParentId, set<nat>>

  /** Numbers of a parent that does not exist: none. */
  function NumbersOf(table: Table, parent: ParentId): set<nat> {
    if parent in table then table[parent] else {}
  }

  /** `max(...)`, with 0 for SQL's NULL. */
  ghost predicate Highest(numbers: set<nat>, m: nat) {
    (m in numbers || (numbers == {} && m == 0)) && forall n :: n in numbers ==> n <= m
  }

  /** {1..n}. */
  ghost predicate Dense(numbers: set<nat>, n: nat) {
    forall k :: k in numbers <==> 1 <= k <= n
  }

  class NumberedRepository {
    var table: Table

    /** `latest_version_number`. */
    method LatestNumber(parent: ParentId) returns (latest: nat)
      ensures Highest(NumbersOf(table, parent), latest)
    {
      var numbers := NumbersOf(table, parent);
      latest := 0;
      var rest := numbers;
      var seen := false;
      while rest != {}
        invariant rest <= numbers && (seen <==> rest != numbers)
        invariant forall n :: n in numbers ==> n in rest || n <= latest
        invariant if seen then latest in numbers else latest == 0
        decreases rest
      {
        var n :| n in rest;
        latest := if !seen || n > latest then n else latest;
        rest, seen := rest - {n}, true;
      }
    }

    /** `next_turn_index`; the driver of the versions adds 1 to the latest number instead. */
    method NextIndex(parent: ParentId) returns (next: nat)
      ensures next > 0 && Highest(NumbersOf(table, parent), next - 1)
    {
      next := LatestNumber(parent);
      next := next + 1;
    }

    /** An INSERT: refused by the foreign key or by the unique constraint. */
    method Add(parent: ParentId, number: nat) returns (ok: bool)
      modifies this
      ensures ok <==> Accepted(old(table), Pending(parent, number))
      ensures table == Inserted(old(table), Pending(parent, number))
    {
      ok := parent in table && number !in table[parent];
      if ok { table := table[parent := table[parent] + {number}]; }
    }
  }

  // ---------------------------------------------------------------------------------------------
  // Any number of writers
  // ---------------------------------------------------------------------------------------------

  /** A writer between its read and its insert. */
  datatype Pending = Pending(parent: ParentId, number: nat)

  /** `retired` are the ids of purged parents: ids are drawn fresh, so none is ever created again. */
  datatype State = State(table: Table, retired: set<ParentId>, pending: map<nat, Pending>)

  datatype Step =
    | Create(parent: ParentId)
    | Read(writer: nat, parent: ParentId, next: nat)
    | Insert(writer: nat)
    | Purge(parents: set<ParentId>)

  const INITIAL := State(map[], {}, map[])

  ghost predicate Enabled(s: State, step: Step) {
    match step
    case Create(parent) => parent !in s.table && parent !in s.retired
    case Read(_, parent, next) => next > 0 && Highest(NumbersOf(s.table, parent), next - 1)
    case Insert(writer) => writer in s.pending
    case Purge(parents) => true
  }

  /** The foreign key and the unique constraint let an insert through. */
  predicate Accepted(table: Table, p: Pending) {
    p.parent in table && p.number !in table[p.parent]
  }

  /** The table after an attempted insert. */
  function Inserted(table: Table, p: Pending): Table {
    if Accepted(table, p) then table[p.parent := table[p.parent] + {p.number}] else table
  }

  function Apply(s: State, step: Step): State
    requires step.Insert? ==> step.writer in s.pending
  {
    match step
    case Create(parent) => s.(table := s.table[parent := {}])
    case Read(writer, parent, next) => s.(pending := s.pending[writer := Pending(parent, next)])
    case Insert(writer) =>
      s.(table := Inserted(s.table, s.pending[writer]), pending := s.pending - {writer})
    case Purge(parents) => s.(table := s.table - parents, retired := s.retired + (parents * s.table.Keys))
  }

  /** What a pending number can be: not beyond the next free one; purged parents do not matter. */
  ghost predicate PendingOk(s: State, p: Pending) {
    && p.number > 0
    && (p.parent !in s.retired ==> forall n: nat :: Dense(NumbersOf(s.table, p.parent), n) ==> p.number <= n + 1)
  }

  /** Every parent's numbers are {1..n}. */
  ghost predicate Inv(s: State) {
    && (forall parent :: parent in s.table ==> exists n: nat :: Dense(s.table[parent], n))
    && (forall w: nat :: w in s.pending ==> PendingOk(s, s.pending[w]))
    && s.retired !! s.table.Keys
  }

  lemma DenseUnique(numbers: set<nat>, m: nat, n: nat)
    requires Dense(numbers, m) && Dense(numbers, n)
    ensures m == n
  {
    assert m > 0 ==> m in numbers;
    assert n > 0 ==> n in numbers;
  }

  /** On {1..n} the read answers n + 1. */
  lemma NextOfDense(numbers: set<nat>, next: nat, n: nat)
    requires next > 0 && Highest(numbers, next - 1) && Dense(numbers, n)
    ensures next == n + 1
  {
    assert n > 0 ==> n in numbers;
  }

  /** The constraints refuse exactly the stale inserts: those whose number is no longer the next one. */
  lemma AcceptedIffNext(s: State, writer: nat, n: nat)
    requires Inv(s) && writer in s.pending && s.pending[writer].parent in s.table
    requires Dense(s.table[s.pending[writer].parent], n)
    ensures Accepted(s.table, s.pending[writer]) <==> s.pending[writer].number == n + 1
  {
    assert PendingOk(s, s.pending[writer]);
    assert NumbersOf(s.table, s.pending[writer].parent) == s.table[s.pending[writer].parent];
  }

  /** Growing a dense set keeps it dense and every pending number in bounds. */
  lemma InsertKeepsInv(s: State, writer: nat)
    requires Inv(s) && writer in s.pending
    ensures Inv(Apply(s, Insert(writer)))
  {
    var p, s' := s.pending[writer], Apply(s, Insert(writer));
    if Accepted(s.table, p) {
      var n: nat :| Dense(s.table[p.parent], n);
      AcceptedIffNext(s, writer, n);
      assert Dense(s'.table[p.parent], n + 1);
      forall w | w in s'.pending ensures PendingOk(s', s'.pending[w]) {
        var q := s.pending[w];
        assert PendingOk(s, q);
        if q.parent == p.parent {
          assert NumbersOf(s.table, q.parent) == s.table[p.parent];
          forall m: nat | Dense(NumbersOf(s'.table, q.parent), m) ensures q.number <= m + 1 {
            DenseUnique(s'.table[p.parent], m, n + 1);
          }
        } else {
          assert NumbersOf(s'.table, q.parent) == NumbersOf(s.table, q.parent);
        }
      }
    }
  }

  lemma ReadKeepsInv(s: State, writer: nat, parent: ParentId, next: nat)
    requires Inv(s) && Enabled(s, Read(writer, parent, next))
    ensures Inv(Apply(s, Read(writer, parent, next)))
  {
    var s' := Apply(s, Read(writer, parent, next));
    forall n: nat | Dense(NumbersOf(s.table, parent), n) ensures next <= n + 1 {
      NextOfDense(NumbersOf(s.table, parent), next, n);
    }
    forall w | w in s'.pending ensures PendingOk(s', s'.pending[w]) {
      if w != writer { assert PendingOk(s, s.pending[w]); }
    }
  }

  lemma CreateOrPurgeKeepsInv(s: State, step: Step)
    requires Inv(s) && Enabled(s, step) && (step.Create? || step.Purge?)
    ensures Inv(Apply(s, step))
  {
    var s' := Apply(s, step);
    if step.Create? { assert Dense(s'.table[step.parent], 0); }
    forall w | w in s'.pending ensures PendingOk(s', s'.pending[w]) {
      var p := s.pending[w];
      assert PendingOk(s, p);
      if p.parent !in s'.retired {
        assert NumbersOf(s'.table, p.parent) == NumbersOf(s.table, p.parent);
      }
    }
  }

  ghost predicate Valid(s: State, steps: seq<Step>)
    decreases |steps|
  {
    |steps| == 0 || (Enabled(s, steps[0]) && Valid(Apply(s, steps[0]), steps[1..]))
  }

  function Exec(s: State, steps: seq<Step>): State
    requires Valid(s, steps)
    decreases |steps|
  {
    if |steps| == 0 then s else Exec(Apply(s, steps[0]), steps[1..])
  }

  lemma {:induction false} RunKeepsInv(s: State, steps: seq<Step>)
    requires Inv(s) && Valid(s, steps)
    ensures Inv(Exec(s, steps))
    decreases |steps|
  {
    if |steps| > 0 {
      match steps[0] {
        case Insert(writer) => InsertKeepsInv(s, writer);
        case Read(writer, parent, next) => ReadKeepsInv(s, writer, parent, next);
        case _ => CreateOrPurgeKeepsInv(s, steps[0]);
      }
      RunKeepsInv(Apply(s, steps[0]), steps[1..]);
    }
  }

  /**
   With any number of writers, and purges at any moment, the numbers under each parent are always
   {1..n}, and an insert is refused exactly when its parent is gone or its number is stale.
   */
  lemma NumbersStayDense(steps: seq<Step>)
    requires Valid(INITIAL, steps)
    ensures
      var s := Exec(INITIAL, steps);
      && (forall parent :: parent in s.table ==> exists n: nat :: Dense(s.table[parent], n))
      && (forall w :: w in s.pending ==> s.pending[w].number > 0)
      && (forall w :: w in s.pending ==>
            (Accepted(s.table, s.pending[w])
             <==> s.pending[w].parent in s.table && Dense(s.table[s.pending[w].parent], s.pending[w].number - 1)))
  {
    RunKeepsInv(INITIAL, steps);
    var s := Exec(INITIAL, steps);
    forall w | w in s.pending
      ensures s.pending[w].number > 0
      ensures Accepted(s.table, s.pending[w])
              <==> s.pending[w].parent in s.table && Dense(s.table[s.pending[w].parent], s.pending[w].number - 1)
    {
      var p := s.pending[w];
      assert PendingOk(s, p);
      if p.parent in s.table {
        var n: nat :| Dense(s.table[p.parent], n);
        AcceptedIffNext(s, w, n);
        if Dense(s.table[p.parent], p.number - 1) { DenseUnique(s.table[p.parent], n, p.number - 1); }
      }
    }
  }

  /**
   Fresh parent ids are needed: were a purged parent created again, an insert that read before the purge
   would land out of sequence.
   */
  lemma RecreatedParentBreaksDensity(parent: ParentId, writer: nat)
    ensures var read := Apply(State(map[parent := {1}], {}, map[]), Read(writer, parent, 2));
            var purged := Apply(read, Purge({parent}));
            var recreated := purged.(table := purged.table[parent := {}]);
            var late := Apply(recreated, Insert(writer));
            Inv(read) && late.table[parent] == {2} && forall n: nat :: !Dense(late.table[parent], n)
  {
    var s := State(map[parent := {1}], {}, map[]);
    assert Dense({1}, 1);
    assert Highest({1}, 1);
    ReadKeepsInv(s, writer, parent, 2);
    forall n: nat ensures !Dense({2}, n) {
      var two: set<nat> := {2};
      assert 1 !in two && 2 in two;
    }
  }
}
