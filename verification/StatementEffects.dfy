/**
 What each statement does to the database, cell by cell, and what a whole start leaves alone:
 a value that was there before it is there afterwards, and a new column holds its default.
 */
module StatementEffects {
  import opened Common
  import opened Migrations
  import ChannelMerge
  import PartialCloses

  /******* Single statements *******/

  // Everything but the column tables is as before.
  predicate OnlyTables(db: Db, after: Db) {
    && after.closes == db.closes && after.channels == db.channels
    && after.indexes == db.indexes && after.tpIndex == db.tpIndex && after.stamp == db.stamp
  }

  // Everything but table `name` is as before, and it has the same rows.
  predicate OnlyTable(db: Db, after: Db, name: string) {
    && OnlyTables(db, after)
    && name in db.tables && after.tables.Keys == db.tables.Keys
    && (forall t :: t in db.tables && t != name ==> after.tables[t] == db.tables[t])
    && after.tables[name].rows.Keys == db.tables[name].rows.Keys
  }

  /**
   ALTER TABLE ... ADD COLUMN: fails without the table, changes nothing when the column is there,
   and otherwise gives every row the declared default and leaves every other cell alone.
   */
  lemma AddColumnExactly(db: Db, table: string, column: string, default: Value)
    ensures var outcome := Apply(db, AddColumn(table, column, default));
            var after := outcome.db;
            && (outcome.Done? <==> table in db.tables)
            && (outcome.Aborted? || column in db.tables[table].columns ==> after == db)
            && (outcome.Done? && column !in db.tables[table].columns ==>
                  && OnlyTable(db, after, table)
                  && after.tables[table].columns == db.tables[table].columns + {column}
                  && forall r :: r in db.tables[table].rows ==>
                       var old_, new_ := db.tables[table].rows[r], after.tables[table].rows[r];
                       && new_.Keys == old_.Keys + {column} && new_[column] == default
                       && forall c :: c in old_ && c != column ==> new_[c] == old_[c])
  {
  }

  /** CREATE TABLE IF NOT EXISTS: an empty table with its columns, where there was none. */
  lemma CreateTableExactly(db: Db, name: string, columns: set<string>)
    ensures var after := Apply(db, CreateTable(name, columns)).db;
            && Apply(db, CreateTable(name, columns)).Done?
            && (name in db.tables ==> after == db)
            && (name !in db.tables ==>
                  && OnlyTables(db, after) && after.tables.Keys == db.tables.Keys + {name}
                  && (forall t :: t in db.tables ==> after.tables[t] == db.tables[t])
                  && after.tables[name].columns == columns && after.tables[name].rows == map[])
  {
  }

  /** CREATE INDEX IF NOT EXISTS: one more index, on a table that exists. */
  lemma CreateIndexExactly(db: Db, name: string, table: string)
    ensures var outcome := Apply(db, CreateIndex(name, table));
            && (outcome.Done? <==> name in db.indexes || table in db.tables)
            && outcome.db == if outcome.Done? then db.(indexes := db.indexes + {name}) else db
  {
    if name in db.indexes {
      assert db.indexes + {name} == db.indexes;
    }
  }

  /** Step 1's rename: the new column holds what the old one held, row by row, and nothing else moves. */
  lemma RenameExactly(db: Db)
    requires SETTINGS in db.tables
    ensures var before, after := db.tables[SETTINGS], Apply(db, RenameFlag).db.tables[SETTINGS];
            && Apply(db, RenameFlag).Done? && OnlyTable(db, Apply(db, RenameFlag).db, SETTINGS)
            && (OLD_FLAG !in before.columns || FLAG in before.columns ==> after == before)
            && (OLD_FLAG in before.columns && FLAG !in before.columns ==>
                  && after.columns == before.columns - {OLD_FLAG} + {FLAG}
                  && forall r :: r in before.rows ==>
                       && (OLD_FLAG in before.rows[r] ==>
                             FLAG in after.rows[r] && after.rows[r][FLAG] == before.rows[r][OLD_FLAG])
                       && OLD_FLAG !in after.rows[r]
                       && forall c :: c in before.rows[r] && c !in {OLD_FLAG, FLAG} ==>
                            c in after.rows[r] && after.rows[r][c] == before.rows[r][c])
  {
  }

  /** Step 29: a harvest threshold of exactly 1 becomes 0, and no other cell changes. */
  lemma HarvestExactly(db: Db)
    requires TEMPLATES in db.tables && "harvest_pips" in db.tables[TEMPLATES].columns
    ensures var before, after := db.tables[TEMPLATES], Apply(db, ClearHarvest).db.tables[TEMPLATES];
            && Apply(db, ClearHarvest).Done? && OnlyTable(db, Apply(db, ClearHarvest).db, TEMPLATES)
            && after.columns == before.columns
            && forall r :: r in before.rows ==>
                 && after.rows[r].Keys == before.rows[r].Keys
                 && forall c :: c in before.rows[r] ==>
                      after.rows[r][c] == if c == "harvest_pips" && before.rows[r][c] == Num(1.0)
                                          then Num(0.0) else before.rows[r][c]
  {
  }

  /** The statements on the typed tables touch no column table, and the index statements no rows at all. */
  lemma TypedExactly(db: Db, stmt: Stmt)
    requires !Additive(stmt) && stmt != RenameFlag && stmt != ClearHarvest
    ensures var after := Apply(db, stmt).db;
            && after.tables == db.tables && after.indexes == db.indexes && after.stamp == db.stamp
            && (!stmt.RelabelDuplicates? ==> after.closes == db.closes)
            && (stmt !in MERGE ==> after.channels == db.channels)
            && (stmt.CreateTpIndex? && Apply(db, stmt).Done? ==> after.tpIndex.Some?)
            && (stmt.CreateTpIndex? && db.tpIndex.None? && after.tpIndex.Some? ==>
                  after.tpIndex == Some(stmt.wide) && PartialCloses.UniqueTps(db.closes, stmt.wide))
            && (stmt.DropTpIndex? ==> after.tpIndex.None?)
            && (!stmt.CreateTpIndex? && !stmt.DropTpIndex? ==> after.tpIndex == db.tpIndex)
  {
  }

  /******* Whole starts *******/

  // Every row has a value for exactly its table's columns.
  ghost predicate Filled(db: Db) { forall t :: t in db.tables ==> FilledTable(db.tables[t]) }

  ghost predicate FilledTable(t: Table) { forall r :: r in t.rows ==> t.rows[r].Keys == t.columns }

  ghost predicate HasCell(db: Db, table: string, row: nat, column: string) {
    table in db.tables && row in db.tables[table].rows && column in db.tables[table].rows[row]
  }

  ghost function Cell(db: Db, table: string, row: nat, column: string): Value
    requires HasCell(db, table, row, column)
  {
    db.tables[table].rows[row][column]
  }

  // The two steps that are meant to change existing values in the column tables name this one.
  predicate NamedBy(op: Op, table: string, column: string) {
    || (op == Sql(RenameFlag) && table == SETTINGS && column == OLD_FLAG)
    || (op == Sql(ClearHarvest) && table == TEMPLATES && column == "harvest_pips")
  }

  predicate Unnamed(ops: seq<Op>, table: string, column: string) {
    forall i :: 0 <= i < |ops| ==> !NamedBy(ops[i], table, column)
  }

  // The statements that change column tables; what they make of one table.
  predicate Rewrites(op: Op) {
    op.Sql? && (op.stmt.AddColumn? || op.stmt.CreateTable? || op.stmt == RenameFlag || op.stmt == ClearHarvest)
  }

  lemma OthersLeaveTables(db: Db, op: Op)
    requires !Rewrites(op)
    ensures RunOp(db, op).db.tables == db.tables
  {
  }

  lemma FilledStays(t: Table, column: string, default: Value)
    requires FilledTable(t)
    ensures FilledTable(AddedColumn(t, column, default)) && FilledTable(HarvestCleared(t))
    ensures OLD_FLAG in t.columns ==> FilledTable(RenameColumn(t, OLD_FLAG, FLAG))
  {
    if OLD_FLAG in t.columns {
      var after := RenameColumn(t, OLD_FLAG, FLAG);
      forall r | r in after.rows ensures after.rows[r].Keys == after.columns {
        assert after.rows[r].Keys == t.rows[r].Keys - {OLD_FLAG} + {FLAG};
      }
    }
  }

  lemma OpKeepsFilled(db: Db, op: Op)
    requires Filled(db)
    ensures Filled(RunOp(db, op).db)
  {
    if !Rewrites(op) {
      OthersLeaveTables(db, op);
    } else {
      forall t | t in db.tables
        ensures forall c, d :: FilledTable(AddedColumn(db.tables[t], c, d))
        ensures FilledTable(HarvestCleared(db.tables[t]))
        ensures OLD_FLAG in db.tables[t].columns ==> FilledTable(RenameColumn(db.tables[t], OLD_FLAG, FLAG))
      {
        forall c, d ensures FilledTable(AddedColumn(db.tables[t], c, d)) {
          FilledStays(db.tables[t], c, d);
        }
        FilledStays(db.tables[t], "", Null);
      }
    }
  }

  lemma OpKeepsCells(db: Db, op: Op, table: string, row: nat, column: string)
    requires Filled(db) && HasCell(db, table, row, column) && !NamedBy(op, table, column)
    ensures var after := RunOp(db, op).db;
            HasCell(after, table, row, column) && Cell(after, table, row, column) == Cell(db, table, row, column)
  {
    assert FilledTable(db.tables[table]);
    if !Rewrites(op) {
      OthersLeaveTables(db, op);
    } else if op.stmt.AddColumn? {
      AddColumnExactly(db, op.stmt.table, op.stmt.column, op.stmt.default);
    } else if op.stmt.CreateTable? {
      CreateTableExactly(db, op.stmt.table, op.stmt.columns);
    } else if op.stmt == RenameFlag && SETTINGS in db.tables {
      RenameExactly(db);
    } else if TEMPLATES in db.tables && "harvest_pips" in db.tables[TEMPLATES].columns {
      HarvestExactly(db);
    }
  }

  /** A value there before any part of a run is there after it, unless one of those two steps names its column. */
  lemma {:induction false} RunKeepsCells(db: Db, ops: seq<Op>, table: string, row: nat, column: string)
    requires Filled(db) && HasCell(db, table, row, column) && Unnamed(ops, table, column)
    ensures var after := RunOps(db, ops).db;
            && Filled(after) && HasCell(after, table, row, column)
            && Cell(after, table, row, column) == Cell(db, table, row, column)
    decreases |ops|
  {
    if ops != [] {
      OpKeepsCells(db, ops[0], table, row, column);
      OpKeepsFilled(db, ops[0]);
      if RunOp(db, ops[0]).Done? {
        RunKeepsCells(RunOp(db, ops[0]).db, ops[1..], table, row, column);
      }
    }
  }

  lemma {:induction false} RunKeepsFilled(db: Db, ops: seq<Op>)
    requires Filled(db)
    ensures Filled(RunOps(db, ops).db)
    decreases |ops|
  {
    if ops != [] {
      OpKeepsFilled(db, ops[0]);
      if RunOp(db, ops[0]).Done? {
        RunKeepsFilled(RunOp(db, ops[0]).db, ops[1..]);
      }
    }
  }

  // A row and a column that no operation so far has added.
  ghost predicate LacksColumn(db: Db, table: string, row: nat, column: string) {
    table in db.tables && row in db.tables[table].rows && column !in db.tables[table].columns
  }

  // May the operation bring the column about?
  predicate Brings(op: Op, table: string, column: string) {
    || (op.Sql? && op.stmt.AddColumn? && op.stmt.table == table && op.stmt.column == column)
    || (op == Sql(RenameFlag) && table == SETTINGS && column == FLAG)
  }

  lemma {:induction false} RunStillLacks(db: Db, ops: seq<Op>, table: string, row: nat, column: string)
    requires LacksColumn(db, table, row, column)
    requires forall i :: 0 <= i < |ops| ==> !Brings(ops[i], table, column)
    ensures LacksColumn(RunOps(db, ops).db, table, row, column)
    decreases |ops|
  {
    if ops != [] {
      assert !Brings(ops[0], table, column);
      assert LacksColumn(RunOp(db, ops[0]).db, table, row, column);
      if RunOp(db, ops[0]).Done? {
        RunStillLacks(RunOp(db, ops[0]).db, ops[1..], table, row, column);
      }
    }
  }

  /**
   A completed run leaves the declared default in a column that it is the first to add, in every
   row there was, unless a step that names the column comes later.
   */
  lemma NewColumnHoldsDefault(db: Db, ops: seq<Op>, i: nat, table: string, row: nat, column: string, default: Value)
    requires Filled(db) && LacksColumn(db, table, row, column)
    requires i < |ops| && ops[i] == Sql(AddColumn(table, column, default)) && RunOps(db, ops).Done?
    requires forall j :: 0 <= j < i ==> !Brings(ops[j], table, column)
    requires Unnamed(ops[i + 1..], table, column)
    ensures var after := RunOps(db, ops).db;
            HasCell(after, table, row, column) && Cell(after, table, row, column) == default
  {
    var first, rest := ops[..i], ops[i + 1..];
    assert ops == first + ([ops[i]] + rest);
    RunOpsConcat(db, first, [ops[i]] + rest);
    RunStillLacks(db, first, table, row, column);
    RunKeepsFilled(db, first);
    var before := RunOps(db, first).db;
    assert ([ops[i]] + rest)[1..] == rest;
    AddColumnExactly(before, table, column, default);
    var after := RunOp(before, ops[i]).db;
    OpKeepsFilled(before, ops[i]);
    RunKeepsCells(after, rest, table, row, column);
  }

  /** And so does a completed start whose first pending step adds the column. */
  lemma StartFillsDefault(
      db: Db, steps: seq<Step>, p: nat, i: nat, table: string, row: nat, column: string, default: Value)
    requires Filled(db) && LacksColumn(db, table, row, column) && Boot(db, steps).Done?
    requires p < |steps| && steps[p].number > Version(db)
    requires forall q :: 0 <= q < p ==> steps[q].number <= Version(db)
    requires i < |steps[p].stmts| && steps[p].stmts[i] == AddColumn(table, column, default)
    requires forall j :: 0 <= j < i ==> !Brings(Sql(steps[p].stmts[j]), table, column)
    requires !(table == SETTINGS && column == OLD_FLAG) && !(table == TEMPLATES && column == "harvest_pips")
    ensures var after := Boot(db, steps).db;
            HasCell(after, table, row, column) && Cell(after, table, row, column) == default
  {
    var ops := Program(steps, Version(db));
    ProgramFrom(steps, p, Version(db));
    assert forall j :: 0 <= j <= i ==> ops[j] == Sql(steps[p].stmts[j]);
    NewColumnHoldsDefault(db, ops, i, table, row, column, default);
  }

  lemma {:induction false} ProgramFrom(steps: seq<Step>, p: nat, current: nat)
    requires p < |steps| && steps[p].number > current
    requires forall q :: 0 <= q < p ==> steps[q].number <= current
    ensures SqlOps(steps[p].stmts) <= Program(steps, current)
    decreases p
  {
    if p > 0 {
      ProgramFrom(steps[1..], p - 1, current);
    }
  }

  /** A whole start, and any crashes before it, keep every value that those two steps do not name. */
  lemma {:induction false} CrashesKeepCells(
      db: Db, steps: seq<Step>, ks: seq<nat>, table: string, row: nat, column: string)
    requires Filled(db) && HasCell(db, table, row, column)
    requires !(table == SETTINGS && column == OLD_FLAG) && !(table == TEMPLATES && column == "harvest_pips")
    ensures var after := Crashes(db, steps, ks);
            && Filled(after) && HasCell(after, table, row, column)
            && Cell(after, table, row, column) == Cell(db, table, row, column)
    decreases |ks|
  {
    if ks != [] {
      var ops := Program(steps, Version(db));
      RunKeepsCells(db, ops[..if ks[0] <= |ops| then ks[0] else |ops|], table, row, column);
      CrashesKeepCells(Crash(db, steps, ks[0]), steps, ks[1..], table, row, column);
    }
  }

  lemma BootKeepsCells(db: Db, steps: seq<Step>, ks: seq<nat>, table: string, row: nat, column: string)
    requires Filled(db) && HasCell(db, table, row, column)
    requires !(table == SETTINGS && column == OLD_FLAG) && !(table == TEMPLATES && column == "harvest_pips")
    ensures var after := Boot(Crashes(db, steps, ks), steps).db;
            HasCell(after, table, row, column) && Cell(after, table, row, column) == Cell(db, table, row, column)
  {
    var d := Crashes(db, steps, ks);
    CrashesKeepCells(db, steps, ks, table, row, column);
    RunKeepsCells(d, Program(steps, Version(d)), table, row, column);
  }
}
