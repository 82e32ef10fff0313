/**
 What the migration engine does to the data of an existing install: the live-execution flag
 that step 1 renames and step 5 would otherwise add afresh, and the partial-close indexes of
 steps 30 and 32.
 */
module LegacyUpgrade {
  import opened Common
  import opened Migrations
  import opened Stamps
  import PartialCloses

  const OFF := Num(0.0)

  // Row `r` of the settings table has a value for exactly the table's columns.
  predicate SettingsRow(db: Db, r: nat) {
    && SETTINGS in db.tables && r in db.tables[SETTINGS].rows
    && db.tables[SETTINGS].rows[r].Keys == db.tables[SETTINGS].columns
  }

  /** The toggle a legacy install must come out with. */
  function ExpectedFlag(db: Db, r: nat): Value
    requires SettingsRow(db, r)
  {
    var row := db.tables[SETTINGS].rows[r];
    if FLAG in row then row[FLAG] else if OLD_FLAG in row then row[OLD_FLAG] else OFF
  }

  // From step 1 on: the new column carries `v`, or both are still missing and `v` is the default.
  ghost predicate FlagSettled(db: Db, r: nat, v: Value) {
    && SettingsRow(db, r)
    && (if FLAG in db.tables[SETTINGS].columns then db.tables[SETTINGS].rows[r][FLAG] == v
        else v == OFF && OLD_FLAG !in db.tables[SETTINGS].columns)
  }

  // Not the rename; never adds the old column, and adds the new one only switched off.
  predicate FlagSafe(stmt: Stmt) {
    && stmt != RenameFlag
    && (stmt.AddColumn? ==> stmt.column != OLD_FLAG)
    && (stmt.AddColumn? && stmt.table == SETTINGS && stmt.column == FLAG ==> stmt.default == OFF)
  }

  predicate AllFlagSafe(ops: seq<Op>) {
    forall i :: 0 <= i < |ops| && ops[i].Sql? ==> FlagSafe(ops[i].stmt)
  }

  lemma OpKeepsFlag(db: Db, op: Op, r: nat, v: Value)
    requires FlagSettled(db, r, v) && (op.Sql? ==> FlagSafe(op.stmt))
    ensures FlagSettled(RunOp(db, op).db, r, v)
  {
  }

  lemma {:induction false} RunKeepsFlag(db: Db, ops: seq<Op>, r: nat, v: Value)
    requires FlagSettled(db, r, v) && AllFlagSafe(ops)
    ensures FlagSettled(RunOps(db, ops).db, r, v)
    decreases |ops|
  {
    if ops != [] {
      OpKeepsFlag(db, ops[0], r, v);
      if RunOp(db, ops[0]).Done? {
        RunKeepsFlag(RunOp(db, ops[0]).db, ops[1..], r, v);
      }
    }
  }

  lemma RenameSettles(db: Db, r: nat)
    requires SettingsRow(db, r)
    ensures FlagSettled(Apply(db, RenameFlag).db, r, ExpectedFlag(db, r))
  {
    var t, after := db.tables[SETTINGS], Apply(db, RenameFlag).db.tables[SETTINGS];
    if OLD_FLAG in t.columns && FLAG !in t.columns {
      assert after.rows[r].Keys == after.columns;
    }
  }

  // The registry as far as the flag is concerned: renamed first, added later, always off.
  predicate FlagRules(steps: seq<Step>) {
    && WellFormed(steps)
    && steps != [] && steps[0] == Step(1, [RenameFlag])
    && (forall i :: 1 <= i < |steps| ==> forall s :: s in steps[i].stmts ==> FlagSafe(s))
    && AddedBySome(steps, (SETTINGS, FLAG))
  }

  lemma {:induction false} ProgramFlagSafe(steps: seq<Step>, current: nat)
    requires forall i :: 0 <= i < |steps| ==> forall s :: s in steps[i].stmts ==> FlagSafe(s)
    ensures AllFlagSafe(Program(steps, current))
  {
    if steps != [] {
      ProgramFlagSafe(steps[1..], current);
      assert forall s :: s in steps[0].stmts ==> FlagSafe(s);
      var ops := StepOps(steps[0]);
      forall i | 0 <= i < |ops| && ops[i].Sql? ensures FlagSafe(ops[i].stmt) {
        assert ops[i].stmt == steps[0].stmts[i];
      }
    }
  }

  // What every crash keeps: before step 1 is stamped the expected value is still to be read
  // off the row, afterwards it is settled.
  ghost predicate FlagPending(db: Db, r: nat, v: Value) {
    if Version(db) == 0 then SettingsRow(db, r) && ExpectedFlag(db, r) == v else FlagSettled(db, r, v)
  }

  lemma FlagAfterCrash(db: Db, steps: seq<Step>, k: nat, r: nat, v: Value)
    requires FlagRules(steps) && FlagPending(db, r, v) && k <= |Program(steps, Version(db))|
    ensures var d := RunOps(db, Program(steps, Version(db))[..k]).db;
            FlagPending(d, r, v) && (k > 0 ==> FlagSettled(d, r, v))
  {
    var rest := Program(steps[1..], Version(db));
    ProgramFlagSafe(steps[1..], Version(db));
    var ops := Program(steps, Version(db));
    if Version(db) > 0 {
      RunKeepsFlag(db, ops[..k], r, v);
    } else if k > 0 {
      assert ops == [Sql(RenameFlag), Stamp(1)] + rest;
      RenameSettles(db, r);
      var renamed := Apply(db, RenameFlag).db;
      assert ops[..k][0] == Sql(RenameFlag);
      RunKeepsFlag(renamed, ops[..k][1..], r, v);
    }
  }

  lemma {:induction false} FlagAfterCrashes(db: Db, steps: seq<Step>, ks: seq<nat>, r: nat, v: Value)
    requires FlagRules(steps) && FlagPending(db, r, v)
    ensures FlagPending(Crashes(db, steps, ks), r, v)
    decreases |ks|
  {
    if ks != [] {
      var ops := Program(steps, Version(db));
      FlagAfterCrash(db, steps, if ks[0] <= |ops| then ks[0] else |ops|, r, v);
      FlagAfterCrashes(Crash(db, steps, ks[0]), steps, ks[1..], r, v);
    }
  }

  /**
   Every unstamped database, through any crashes, comes out with the value its new column held,
   else the value its old column held, else off.
   */
  lemma FlagSurvives(db: Db, steps: seq<Step>, ks: seq<nat>, r: nat)
    requires FlagRules(steps) && Version(db) == 0 && SettingsRow(db, r)
    requires Boot(Crashes(db, steps, ks), steps).Done?
    ensures var final := Boot(Crashes(db, steps, ks), steps).db;
            SettingsRow(final, r) && FLAG in final.tables[SETTINGS].columns
            && final.tables[SETTINGS].rows[r][FLAG] == ExpectedFlag(db, r)
  {
    var d := Crashes(db, steps, ks);
    var ops := Program(steps, Version(d));
    FlagAfterCrashes(db, steps, ks, r, ExpectedFlag(db, r));
    assert ops[..|ops|] == ops;
    FlagAfterCrash(d, steps, |ops|, r, ExpectedFlag(db, r));
    assert Applied(db, steps) by {
      assert forall step :: step in steps ==> step.number > 0;
    }
    ColumnAtHead(db, steps, ks, (SETTINGS, FLAG));
  }

  /** The order is what carries it: adding the column first strands an old install's setting. */
  lemma AddingFirstLosesFlag(db: Db, r: nat)
    requires SettingsRow(db, r) && FLAG !in db.tables[SETTINGS].columns
    ensures var final := RunAll(db, [AddColumn(SETTINGS, FLAG, OFF), RenameFlag]);
            && final.Done? && SETTINGS in final.db.tables && r in final.db.tables[SETTINGS].rows
            && FLAG in final.db.tables[SETTINGS].rows[r]
            && final.db.tables[SETTINGS].rows[r][FLAG] == OFF
  {
    RunPair(db, AddColumn(SETTINGS, FLAG, OFF), RenameFlag);
  }

  /******* The partial-close indexes *******/

  lemma {:induction false} AdditiveKeepsCloses(db: Db, stmts: seq<Stmt>)
    requires AllAdditive(stmts)
    ensures RunAll(db, stmts).db.closes == db.closes
    ensures CLOSES in db.tables ==> CLOSES in RunAll(db, stmts).db.tables
    decreases |stmts|
  {
    if stmts != [] {
      assert Additive(stmts[0]);
    }
    if stmts != [] && Apply(db, stmts[0]).Done? {
      AdditiveKeepsCloses(Apply(db, stmts[0]).db, stmts[1..]);
    }
  }

  /**
   Step 30 builds its UNIQUE index on any partial-close rows, and after any additive steps in
   between step 32's index builds too and guards the same rows.
   */
  lemma IndexesAlwaysBuild(db: Db, between: seq<Stmt>)
    requires CLOSES in db.tables && AllAdditive(between)
    requires RunAll(RunAll(db, NARROW).db, between).Done?
    ensures RunAll(db, NARROW).Done? && RunAll(db, NARROW).db.tpIndex.Some?
    ensures var final := RunAll(RunAll(RunAll(db, NARROW).db, between).db, WIDE);
            && final.Done? && final.db.tpIndex == Some(true)
            && final.db.closes == PartialCloses.Relabelled(db.closes)
            && PartialCloses.UniqueTps(final.db.closes, true)
  {
    RunPair(db, RelabelDuplicates, CreateTpIndex(false));
    PartialCloses.RelabelledIsUnique(db.closes);
    var first := RunAll(db, NARROW).db;
    AdditiveKeepsCloses(first, between);
    var middle := RunAll(first, between).db;
    PartialCloses.NarrowImpliesWide(middle.closes);
    RunPair(middle, DropTpIndex, CreateTpIndex(true));
  }
}
