/** The engine as it runs: one connection whose database the statements change in place. */
module MigrationRunner {
  import opened Common
  import opened Migrations

  class Connection {
    var db: Db

    constructor (db: Db)
      ensures this.db == db
    {
      this.db := db;
    }

    /** `apply_migration` (and, for the rename, step 1 itself); `ok` is false where the program exits. */
    method ApplyMigration(stmt: Stmt) returns (ok: bool)
      modifies this
      ensures (if ok then Done(db) else Aborted(db)) == Apply(old(db), stmt)
    {
      var outcome := Apply(db, stmt);
      db := outcome.db;
      ok := outcome.Done?;
    }

    method SetVersion(version: nat)
      modifies this
      ensures db == old(db).(stamp := Some(version))
    {
      db := db.(stamp := Some(version));
    }

    /** `run`: the recorded version is read once, pending steps run in order, each is stamped when done. */
    method Run(steps: seq<Step>) returns (ok: bool)
      requires Ordered(steps)
      modifies this
      ensures (if ok then Done(db) else Aborted(db)) == Boot(old(db), steps)
      ensures ok ==> forall step :: step in steps ==> step.number <= Version(db)
      ensures Version(db) >= old(Version(db))
    {
      var current := Version(db);
      ghost var all := Program(steps, current);
      for i := 0 to |steps|
        invariant RunOps(old(db), all) == RunOps(db, Program(steps[i..], current))
      {
        assert steps[i..][1..] == steps[i + 1..];
        if steps[i].number > current {
          ghost var rest := Program(steps[i + 1..], current);
          RunStep(db, steps[i], rest);
          ok := RunStatements(steps[i].stmts);
          if !ok {
            assert RunOps(old(db), all) == Aborted(db);
            FinalVersion(old(db), steps);
            return;
          }
          SetVersion(steps[i].number);
        }
      }
      ok := true;
      assert steps[|steps|..] == [];
      FinalVersion(old(db), steps);
      HeadReached(old(db), steps);
    }

    method RunStatements(stmts: seq<Stmt>) returns (ok: bool)
      modifies this
      ensures (if ok then Done(db) else Aborted(db)) == RunAll(old(db), stmts)
    {
      for j := 0 to |stmts|
        invariant RunAll(old(db), stmts) == RunAll(db, stmts[j..])
      {
        assert stmts[j..][1..] == stmts[j + 1..];
        ok := ApplyMigration(stmts[j]);
        if !ok {
          return;
        }
      }
      ok := true;
      assert stmts[|stmts|..] == [];
    }
  }

  lemma FinalVersion(db: Db, steps: seq<Step>)
    requires Ordered(steps)
    ensures Version(Boot(db, steps).db) >= Version(db)
  {
    var ops := Program(steps, Version(db));
    assert ops[..|ops|] == ops;
    StampGrows(db, steps, |ops|);
  }
}
