/**
 The engine under the application's own connection.  A transaction opens at the first statement
 that changes rows and is committed after the whole start, so a crash, or an abort, undoes
 everything from that statement on; schema statements before it have been durable one by one.
 */
module Transactions {
  import opened Migrations
  import opened Stamps

  // What opens the transaction: an UPDATE, a DELETE or the stamp's INSERT, but no schema statement.
  predicate ChangesRows(op: Op) {
    || op.Stamp?
    || op.stmt.ClearHarvest? || op.stmt.RelabelDuplicates?
    || op.stmt.UnpauseMerged? || op.stmt.CarryOverride? || op.stmt.DeleteWrapped?
  }

  /** How many operations of a start are durable before the transaction opens. */
  function Durable(ops: seq<Op>): (n: nat)
    ensures n <= |ops| && forall i :: 0 <= i < n ==> !ChangesRows(ops[i])
  {
    if ops == [] || ChangesRows(ops[0]) then 0 else 1 + Durable(ops[1..])
  }

  // Where a start that dies after `k` operations is thrown back to.
  function ThrownBack(db: Db, steps: seq<Step>, k: nat): nat {
    var n := Durable(Program(steps, Version(db)));
    if k <= n then k else n
  }

  function TxCrash(db: Db, steps: seq<Step>, k: nat): Db {
    Crash(db, steps, ThrownBack(db, steps, k))
  }

  function TxCrashes(db: Db, steps: seq<Step>, ks: seq<nat>): Db
    decreases |ks|
  {
    if ks == [] then db else TxCrashes(TxCrash(db, steps, ks[0]), steps, ks[1..])
  }

  lemma DurableWithin(step: Step, rest: seq<Op>)
    ensures Durable(StepOps(step) + rest) <= |step.stmts|
    ensures step.stmts == MERGE ==> Durable(StepOps(step) + rest) == 0
  {
    var ops := StepOps(step) + rest;
    assert ops[|step.stmts|] == Stamp(step.number);
    if step.stmts == MERGE {
      assert ops[0] == Sql(UnpauseMerged);
    }
  }

  // A start thrown back to one of its durable statements resumes, and has not moved the stamp.
  lemma {:induction false} ThrownBackResumes(db: Db, steps: seq<Step>, k: nat)
    requires Ordered(steps) && k <= Durable(Program(steps, Version(db)))
    ensures Version(Crash(db, steps, k)) == Version(db)
    ensures Boot(Crash(db, steps, k), steps) == Boot(db, steps)
    decreases |steps|
  {
    var ops := Program(steps, Version(db));
    if k == 0 {
      assert ops[..0] == [];
    } else if steps[0].number <= Version(db) {
      ThrownBackResumes(db, steps[1..], k);
    } else {
      var step, rest := steps[0], Program(steps[1..], Version(db));
      assert step in steps;
      DurableWithin(step, rest);
      StepResumable(db, step.stmts);
      assert ops[..k] == SqlOps(step.stmts[..k]);
      RunSqlOps(db, step.stmts[..k]);
      RunStep(db, step, rest);
      RunStep(Crash(db, steps, k), step, rest);
    }
  }

  /**
   Under the transaction crash-resume holds of every database without exception, the channel
   merge included, and no crash moves the stamp.
   */
  lemma {:induction false} TransactionalResumes(db: Db, steps: seq<Step>, ks: seq<nat>)
    requires Ordered(steps)
    ensures Boot(TxCrashes(db, steps, ks), steps) == Boot(db, steps)
    ensures Version(TxCrashes(db, steps, ks)) == Version(db)
    decreases |ks|
  {
    if ks != [] {
      ThrownBackResumes(db, steps, ThrownBack(db, steps, ks[0]));
      TransactionalResumes(TxCrash(db, steps, ks[0]), steps, ks[1..]);
    }
  }

  // So whatever holds through all crashes holds through these.
  lemma {:induction false} ThrownBackIsACrash(db: Db, steps: seq<Step>, ks: seq<nat>) returns (all: seq<nat>)
    ensures TxCrashes(db, steps, ks) == Crashes(db, steps, all)
    decreases |ks|
  {
    if ks == [] {
      all := [];
    } else {
      var rest := ThrownBackIsACrash(TxCrash(db, steps, ks[0]), steps, ks[1..]);
      all := [ThrownBack(db, steps, ks[0])] + rest;
      assert all[1..] == rest;
    }
  }

  /** The stamp keeps its meaning under the transaction. */
  lemma TransactionalStamp(db: Db, steps: seq<Step>, ks: seq<nat>)
    requires WellFormed(steps) && Applied(db, steps)
    ensures Applied(TxCrashes(db, steps, ks), steps)
  {
    var all := ThrownBackIsACrash(db, steps, ks);
    StampMeansApplied(db, steps, all);
  }
}
