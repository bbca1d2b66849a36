/** The compensation log of a branch: its rows are inserted on a connection that
    commits every statement, and deleted inside the held business transaction, so
    that after a crash the rows that remain tell which branches are not committed. */
module CompensationLog {
  import opened Wrappers

  type LogId = int
  type BranchId = nat

  /** What survives a crash: the rows of the log table and the branches whose business effect is committed. */
  datatype Durable = Durable(logs: set<LogId>, effects: set<BranchId>)

  function Ids(ids: seq<LogId>): set<LogId> {
    set i <- ids
  }

  predicate Distinct(ids: seq<LogId>) {
    forall i, j | 0 <= i < j < |ids| :: ids[i] != ids[j]
  }

  /** The commit of the held transaction: business effect and deletion in one. */
  function Committed(d: Durable, b: BranchId, ids: seq<LogId>): Durable {
    Durable(d.logs - Ids(ids), d.effects + {b})
  }

  /** The business effect is durable exactly when none of the branch's rows remain. */
  predicate Consistent(d: Durable, b: BranchId, ids: seq<LogId>) {
    b in d.effects <==> d.logs !! Ids(ids)
  }

  // ---- Any number of branches on one database --------------------------------

  datatype Phase =
    | Saving(next: nat)      // inserting its rows
    | SaveFailed             // an insert threw: the branch has no held transaction
    | Holding(deleted: bool) // rows saved, transaction held; deleted: its own delete has run
    | Closed                 // committed, rolled back, or dropped with its connection

  datatype Db = Db(durable: Durable, phases: map<BranchId, Phase>)

  datatype Step =
    | Begin(b: BranchId)
    | Insert(b: BranchId)
    | InsertFails(b: BranchId)
    | Hold(b: BranchId)
    | Delete(b: BranchId)
    | Commit(b: BranchId)
    | Discard(b: BranchId)

  /** The log ids of every branch. */
  type Plan = BranchId -> seq<LogId>

  /** Log ids are not shared between branches. */
  ghost predicate Disjoint(plan: Plan) {
    forall b, c: BranchId | b != c :: Ids(plan(b)) !! Ids(plan(c))
  }

  predicate Enabled(plan: Plan, s: Db, step: Step) {
    if step.Begin? then step.b !in s.phases
    else step.b in s.phases &&
         var p := s.phases[step.b];
         match step
         case Insert(b) => p.Saving? && p.next < |plan(b)|
         case InsertFails(b) => p.Saving? && p.next < |plan(b)|
         case Hold(b) => p.Saving? && p.next == |plan(b)|
         // a delete of no ids is not a statement the database accepts
         case Delete(b) => p == Holding(false) && plan(b) != []
         case Commit(b) => p == Holding(true)
         case Discard(b) => p.Holding?
  }

  function Do(plan: Plan, s: Db, step: Step): Db
    requires Enabled(plan, s, step)
  {
    var b := step.b;
    match step
    case Begin(_) => s.(phases := s.phases[b := Saving(0)])
    case Insert(_) =>
      var i := s.phases[b].next;
      // the id is the primary key
      if plan(b)[i] in s.durable.logs then s.(phases := s.phases[b := SaveFailed])
      else Db(s.durable.(logs := s.durable.logs + {plan(b)[i]}), s.phases[b := Saving(i + 1)])
    case InsertFails(_) => s.(phases := s.phases[b := SaveFailed])
    case Hold(_) => s.(phases := s.phases[b := Holding(false)])
    case Delete(_) => s.(phases := s.phases[b := Holding(true)])
    case Commit(_) => Db(Committed(s.durable, b, plan(b)), s.phases[b := Closed])
    case Discard(_) => s.(phases := s.phases[b := Closed])
  }

  /** A run from a table that holds any rows of others. */
  function Exec(plan: Plan, logs: set<LogId>, steps: seq<Step>): Option<Db> {
    if steps == [] then Some(Db(Durable(logs, {}), map[]))
    else
      var before := Exec(plan, logs, steps[..|steps| - 1]);
      if before.Some? && Enabled(plan, before.value, steps[|steps| - 1])
      then Some(Do(plan, before.value, steps[|steps| - 1]))
      else None
  }

  /** Saving is over and went through. */
  predicate Saved(s: Db, b: BranchId) {
    b in s.phases && (s.phases[b].Holding? || s.phases[b].Closed?)
  }

  /** Before its commit a saved branch has all of its rows, afterwards none. */
  predicate BranchKept(plan: Plan, s: Db, b: BranchId) {
    && (b in s.durable.effects ==> b in s.phases && s.phases[b].Closed? && plan(b) != [] && s.durable.logs !! Ids(plan(b)))
    && (b in s.phases && s.phases[b].Saving? ==>
          s.phases[b].next <= |plan(b)| && forall i | 0 <= i < s.phases[b].next :: plan(b)[i] in s.durable.logs)
    && (Saved(s, b) && b !in s.durable.effects ==> Ids(plan(b)) <= s.durable.logs)
    && (b in s.phases && s.phases[b] == Holding(true) ==> plan(b) != [])
  }

  lemma StepKeepsBranch(plan: Plan, s: Db, step: Step, b: BranchId)
    requires Disjoint(plan) && Enabled(plan, s, step) && BranchKept(plan, s, b)
    ensures BranchKept(plan, Do(plan, s, step), b)
  {
    var t := Do(plan, s, step);
    if step.b == b {
      if step.Hold? {
        forall i <- plan(b) ensures i in s.durable.logs {
          var k :| 0 <= k < |plan(b)| && plan(b)[k] == i;
        }
      }
    } else {
      assert Ids(plan(b)) !! Ids(plan(step.b));
      if b in s.durable.effects && step.Insert? {
        assert plan(step.b)[s.phases[step.b].next] in Ids(plan(step.b));
      }
    }
  }

  lemma {:induction false} RunsKeepBranch(plan: Plan, logs: set<LogId>, steps: seq<Step>, b: BranchId)
    requires Disjoint(plan)
    ensures Exec(plan, logs, steps).Some? ==> BranchKept(plan, Exec(plan, logs, steps).value, b)
  {
    if steps != [] && Exec(plan, logs, steps).Some? {
      RunsKeepBranch(plan, logs, steps[..|steps| - 1], b);
      StepKeepsBranch(plan, Exec(plan, logs, steps[..|steps| - 1]).value, steps[|steps| - 1], b);
    }
  }

  /** Crash consistency, and exactly when it holds: at every point of every run after a branch's
      rows are saved, its effect is durable exactly when none of its rows remain, if and only if
      it has a row at all. A branch without rows is never committed. */
  lemma CrashConsistency(plan: Plan, logs: set<LogId>, steps: seq<Step>, b: BranchId)
    requires Disjoint(plan) && Exec(plan, logs, steps).Some?
    requires Saved(Exec(plan, logs, steps).value, b)
    ensures var d := Exec(plan, logs, steps).value.durable;
            && (Consistent(d, b, plan(b)) <==> plan(b) != [])
            && (plan(b) == [] ==> b !in d.effects)
            && (Ids(plan(b)) <= d.logs || Ids(plan(b)) !! d.logs)
  {
    RunsKeepBranch(plan, logs, steps, b);
    if plan(b) != [] {
      assert plan(b)[0] in Ids(plan(b));
    } else {
      assert Ids(plan(b)) == {};
    }
  }

  /** A branch's commit makes its effect durable and takes its rows away, and touches nothing of the others. */
  predicate MadeDurable(before: Durable, after: Durable, b: BranchId, ids: seq<LogId>) {
    && b in after.effects && (forall x <- after.effects :: x == b || x in before.effects)
    && (forall x <- before.effects :: x in after.effects)
    && (forall i <- ids :: i !in after.logs)
    && (forall i <- after.logs :: i in before.logs)
    && (forall i <- before.logs | i !in ids :: i in after.logs)
  }

  /** In every run, exactly a commit changes what is durable of a branch's effect. */
  lemma CommitIsDurable(plan: Plan, logs: set<LogId>, steps: seq<Step>, step: Step)
    requires Exec(plan, logs, steps).Some? && Enabled(plan, Exec(plan, logs, steps).value, step)
    ensures var s := Exec(plan, logs, steps).value;
            var t := Exec(plan, logs, steps + [step]);
            && t.Some?
            && (step.Commit? ==> MadeDurable(s.durable, t.value.durable, step.b, plan(step.b)))
            && (!step.Commit? ==> t.value.durable.effects == s.durable.effects)
            && (!step.Commit? && !step.Insert? ==> t.value.durable == s.durable)
  {
    Extend(plan, logs, steps, step);
  }

  lemma Extend(plan: Plan, logs: set<LogId>, steps: seq<Step>, step: Step)
    requires Exec(plan, logs, steps).Some? && Enabled(plan, Exec(plan, logs, steps).value, step)
    ensures Exec(plan, logs, steps + [step]) == Some(Do(plan, Exec(plan, logs, steps).value, step))
  {
    assert (steps + [step])[..|steps + [step]| - 1] == steps;
  }

  lemma {:induction false} SavingRun(plan: Plan, logs: set<LogId>, b: BranchId, n: nat) returns (steps: seq<Step>)
    requires n <= |plan(b)| && Distinct(plan(b)) && logs !! Ids(plan(b))
    ensures Exec(plan, logs, steps) == Some(Db(Durable(logs + Ids(plan(b)[..n]), {}), map[b := Saving(n)]))
  {
    if n == 0 {
      assert Exec(plan, logs, []) == Some(Db(Durable(logs, {}), map[]));
      Extend(plan, logs, [], Begin(b));
      steps := [] + [Begin(b)];
      assert logs + Ids(plan(b)[..0]) == logs;
    } else {
      var before := SavingRun(plan, logs, b, n - 1);
      var id := plan(b)[n - 1];
      assert id in Ids(plan(b));
      assert id !in Ids(plan(b)[..n - 1]);
      Extend(plan, logs, before, Insert(b));
      steps := before + [Insert(b)];
      assert plan(b)[..n] == plan(b)[..n - 1] + [id];
      assert logs + Ids(plan(b)[..n - 1]) + {id} == logs + Ids(plan(b)[..n]);
      assert map[b := Saving(n - 1)][b := Saving(n)] == map[b := Saving(n)];
    }
  }

  /** A branch with rows of its own does become durable: save, hold, delete, commit. */
  lemma SomeRunCommits(plan: Plan, logs: set<LogId>, b: BranchId) returns (steps: seq<Step>)
    requires plan(b) != [] && Distinct(plan(b)) && logs !! Ids(plan(b))
    ensures Exec(plan, logs, steps).Some?
    ensures var d := Exec(plan, logs, steps).value.durable; d.effects == {b} && d.logs == logs
  {
    steps := SavingRun(plan, logs, b, |plan(b)|);
    Extend(plan, logs, steps, Hold(b)); steps := steps + [Hold(b)];
    Extend(plan, logs, steps, Delete(b)); steps := steps + [Delete(b)];
    Extend(plan, logs, steps, Step.Commit(b)); steps := steps + [Step.Commit(b)];
    assert plan(b)[..|plan(b)|] == plan(b);
    assert (logs + Ids(plan(b))) - Ids(plan(b)) == logs;
  }

  // ---- The objects -------------------------------------------------------------

  /** The database server, with every durable state it has been in. */
  class Database {
    var durable: Durable
    var history: seq<Durable>

    constructor (durable: Durable)
      ensures this.durable == durable && history == [durable]
    {
      this.durable := durable;
      history := [durable];
    }

    /** One durable change. */
    method Advance(d: Durable)
      modifies this
      ensures durable == d && history == old(history) + [d]
    {
      durable := d;
      history := history + [d];
    }
  }

  /** How a commit request fails: before or after the server has carried it out. */
  datatype CommitFault = NoFault | FailsBefore | FailsAfter

  datatype Faults = Faults(deleteFails: bool, commit: CommitFault, rollbackFails: bool, closeFails: bool)

  /** The held connection of a branch; its uncommitted work is lost with it. */
  class HeldConnection {
    const branch: BranchId
    var open: bool
    var deleted: seq<LogId>

    constructor (branch: BranchId)
      ensures this.branch == branch && open && deleted == []
    {
      this.branch := branch;
      open := true;
      deleted := [];
    }
  }

  datatype SqlOutcome = Done | SqlException

  /** The rows a save inserts before it stops: all of them, or those before the first id already taken. */
  function Inserted(logs: set<LogId>, ids: seq<LogId>): (n: nat)
    ensures n <= |ids|
    decreases ids
  {
    if ids == [] || ids[0] in logs then 0 else 1 + Inserted(logs + {ids[0]}, ids[1..])
  }

  /** A save goes through exactly when the ids are distinct and none is taken. */
  lemma {:induction false} SavesAllIffFresh(logs: set<LogId>, ids: seq<LogId>)
    ensures Inserted(logs, ids) == |ids| <==> Distinct(ids) && logs !! Ids(ids)
    decreases ids
  {
    if ids != [] {
      var rest := ids[1..];
      SavesAllIffFresh(logs + {ids[0]}, rest);
      assert ids == [ids[0]] + rest;
      assert Ids(ids) == {ids[0]} + Ids(rest);
      if Distinct(ids) && logs !! Ids(ids) {
        forall x | x in Ids(rest) ensures x != ids[0] {
          var k :| 0 <= k < |rest| && rest[k] == x;
          assert ids[k + 1] == x;
        }
      }
      if Distinct(rest) && (logs + {ids[0]}) !! Ids(rest) {
        forall i, j | 0 <= i < j < |ids| ensures ids[i] != ids[j] {
          assert ids[j] == rest[j - 1] && ids[j] in Ids(rest);
        }
      }
    }
  }

  /** A save that stops does so at the first id that is taken, or occurs a second time. */
  lemma {:induction false} SaveStopsAtTakenId(logs: set<LogId>, ids: seq<LogId>)
    ensures var n := Inserted(logs, ids);
            && (n < |ids| ==> ids[n] in logs || ids[n] in ids[..n])
            && (forall k | 0 <= k < n :: ids[k] !in logs && ids[k] !in ids[..k])
    decreases ids
  {
    if ids != [] && ids[0] !in logs {
      var rest := ids[1..];
      SaveStopsAtTakenId(logs + {ids[0]}, rest);
      var n := Inserted(logs, ids);
      if n < |ids| {
        assert ids[n] == rest[n - 1] && ids[..n] == [ids[0]] + rest[..n - 1];
      }
      forall k | 0 < k < n ensures ids[k] !in logs && ids[k] !in ids[..k] {
        assert ids[k] == rest[k - 1] && ids[..k] == [ids[0]] + rest[..k - 1];
      }
    }
  }

  /** A step of the machine that inserts does what a save does with the rest of the rows: it goes on if the next is
      inserted, and fails otherwise. */
  lemma InsertFollowsSave(plan: Plan, s: Db, b: BranchId)
    requires Enabled(plan, s, Insert(b))
    ensures var i := s.phases[b].next;
            var inserts := Inserted(s.durable.logs, plan(b)[i..]) > 0;
            var t := Do(plan, s, Insert(b));
            && t.phases[b] == (if inserts then Saving(i + 1) else SaveFailed)
            && t.durable == (if inserts then s.durable.(logs := s.durable.logs + {plan(b)[i]}) else s.durable)
  {
    var rest := plan(b)[s.phases[b].next..];
    assert rest[0] == plan(b)[s.phases[b].next];
  }

  /** saveLog: one insert per row, each committed on its own. */
  method SaveLog(db: Database, ids: seq<LogId>) returns (outcome: SqlOutcome)
    modifies db
    ensures outcome.Done? <==> Distinct(ids) && old(db.durable.logs) !! Ids(ids)
    ensures db.durable == old(db.durable).(logs := old(db.durable).logs + Ids(ids[..Inserted(old(db.durable).logs, ids)]))
    ensures outcome.Done? ==> db.durable.logs == old(db.durable).logs + Ids(ids)
    ensures outcome.Done? ==> forall i <- ids :: i in db.durable.logs
  {
    SavesAllIffFresh(db.durable.logs, ids);
    for i := 0 to |ids|
      invariant db.durable == old(db.durable).(logs := old(db.durable).logs + Ids(ids[..i]))
      invariant Inserted(old(db.durable.logs), ids) == i + Inserted(db.durable.logs, ids[i..])
    {
      if ids[i] in db.durable.logs {
        return SqlException;
      }
      db.Advance(db.durable.(logs := db.durable.logs + {ids[i]}));
      assert ids[i..][1..] == ids[i + 1..];
      assert ids[..i + 1] == ids[..i] + [ids[i]];
    }
    assert ids[..|ids|] == ids;
    return Done;
  }

  /** The delete of the branch's rows, inside its transaction. */
  method DeleteLog(connection: HeldConnection, ids: seq<LogId>, fails: bool) returns (outcome: SqlOutcome)
    modifies connection
    ensures outcome.Done? <==> connection.open && ids != [] && !fails
    ensures connection.open == old(connection.open)
    ensures connection.deleted == if outcome.Done? then ids else old(connection.deleted)
  {
    if !connection.open || ids == [] || fails {
      return SqlException;
    }
    connection.deleted := ids;
    return Done;
  }

  method CommitConnection(db: Database, connection: HeldConnection, fault: CommitFault) returns (outcome: SqlOutcome)
    modifies db, connection
    ensures outcome.Done? <==> old(connection.open) && fault.NoFault?
    ensures connection.open == old(connection.open)
    ensures if old(connection.open) && !fault.FailsBefore?
            then var d := Committed(old(db.durable), connection.branch, old(connection.deleted));
                 db.durable == d && db.history == old(db.history) + [d]
            else db.durable == old(db.durable) && db.history == old(db.history)
    ensures old(connection.open) && !fault.FailsBefore? ==>
              MadeDurable(old(db.durable), db.durable, connection.branch, old(connection.deleted))
  {
    if !connection.open || fault.FailsBefore? {
      return SqlException;
    }
    db.Advance(Committed(db.durable, connection.branch, connection.deleted));
    connection.deleted := [];
    outcome := if fault.FailsAfter? then SqlException else Done;
  }

  /** The held connections of a client, by group id. */
  class JdbcContext {
    var connections: map<string, HeldConnection>

    constructor ()
      ensures connections == map[]
    {
      connections := map[];
    }
  }

  /** The business method's own commit: save the rows, then hold the connection instead of committing. */
  method HoldInsteadOfCommit(db: Database, context: JdbcContext, groupId: string, connection: HeldConnection, ids: seq<LogId>)
    returns (outcome: SqlOutcome)
    modifies db, context
    ensures outcome.Done? <==> Distinct(ids) && old(db.durable.logs) !! Ids(ids)
    ensures context.connections ==
            if outcome.Done? then old(context.connections)[groupId := connection] else old(context.connections)
    ensures db.durable.effects == old(db.durable.effects)
    ensures outcome.Done? ==> Ids(ids) <= db.durable.logs
    ensures outcome.Done? && ids != [] && connection.branch !in old(db.durable.effects) ==>
              Consistent(db.durable, connection.branch, ids)
  {
    outcome := SaveLog(db, ids);
    if outcome.Done? {
      context.connections := context.connections[groupId := connection];
      if ids != [] {
        assert ids[0] in Ids(ids);
      }
    }
  }

  /** The commitor of a held branch. Only a missing connection makes it throw. */
  method Commit(db: Database, context: JdbcContext, groupId: string, ids: seq<LogId>, state: bool, faults: Faults)
    returns (raised: bool)
    modifies db, context.connections.Values
    ensures raised <==> groupId !in context.connections
    // what becomes durable: everything or nothing
    ensures db.durable ==
            if && !raised && old(context.connections[groupId].open) && state && ids != []
               && !faults.deleteFails && !faults.commit.FailsBefore?
            then Committed(old(db.durable), context.connections[groupId].branch, ids) else old(db.durable)
    ensures !raised && old(context.connections[groupId].open) && state && ids != []
            && !faults.deleteFails && !faults.commit.FailsBefore? ==>
              && MadeDurable(old(db.durable), db.durable, context.connections[groupId].branch, ids)
              && context.connections[groupId].branch in db.durable.effects && forall i <- ids :: i !in db.durable.logs
    // and there is no crash point in between at which the rows and the effect disagree
    ensures !raised && ids != [] && Consistent(old(db.durable), context.connections[groupId].branch, ids) ==>
              forall k | |old(db.history)| <= k < |db.history| ::
                Consistent(db.history[k], context.connections[groupId].branch, ids)
    ensures old(db.history) <= db.history
    // the connection is gone afterwards, so a second call changes nothing
    ensures !raised && !faults.closeFails ==> !context.connections[groupId].open
  {
    if groupId !in context.connections {
      return true;
    }
    var connection := context.connections[groupId];
    if state {
      var deleted := DeleteLog(connection, ids, faults.deleteFails);
      if deleted.Done? {
        assert ids[0] in Ids(ids);
        var _ := CommitConnection(db, connection, faults.commit);
      }
      // an exception here is swallowed
    } else if connection.open && !faults.rollbackFails {
      connection.deleted := [];
    }
    if !faults.closeFails {
      // closing drops whatever is not committed
      connection.open, connection.deleted := false, [];
    }
    return false;
  }
}
