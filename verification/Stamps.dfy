/**
 What the version stamp promises: in every state that crashes can leave, stamp n means steps
 1..n are applied in full, and a start that completes passes the critical-schema check.
 */
module Stamps {
  import opened Common
  import opened Migrations
  import ChannelMerge
  import PartialCloses

  /******* The effect of a step *******/

  // The flag's table exists and no longer has only the old column.
  predicate Renamed(db: Db) {
    && SETTINGS in db.tables
    && (OLD_FLAG in db.tables[SETTINGS].columns ==> FLAG in db.tables[SETTINGS].columns)
  }

  predicate HarvestIsCleared(db: Db) {
    && TEMPLATES in db.tables && "harvest_pips" in db.tables[TEMPLATES].columns
    && HarvestCleared(db.tables[TEMPLATES]) == db.tables[TEMPLATES]
  }

  predicate Merged(db: Db) { ChannelMerge.DeleteWrapped(db.channels) == db.channels }

  predicate SpecialHolds(db: Db, stmts: seq<Stmt>) {
    && (stmts == [RenameFlag] ==> Renamed(db))
    && (stmts == [ClearHarvest] ==> HarvestIsCleared(db))
    && (stmts == NARROW ==> PartialCloses.UniqueTps(db.closes, false))
    && (stmts == WIDE ==> db.tpIndex == Some(true))
    && (stmts == MERGE ==> Merged(db))
  }

  /** The step is applied: all its tables, columns and indexes exist and its data is as it leaves it. */
  predicate StepHolds(db: Db, step: Step) {
    && (forall s :: s in step.stmts && Additive(s) ==> Holds(db, s))
    && SpecialHolds(db, step.stmts)
  }

  predicate Applied(db: Db, steps: seq<Step>) {
    forall step :: step in steps && step.number <= Version(db) ==> StepHolds(db, step)
  }

  // No step adds the column that step 1 renames away.
  predicate NeverAddsOldFlag(steps: seq<Step>) {
    forall step, s :: step in steps && s in step.stmts && s.AddColumn? ==> s.column != OLD_FLAG
  }

  // One step at most rebuilds the index.
  predicate RebuiltOnce(steps: seq<Step>) {
    forall i, j :: 0 <= i < j < |steps| && steps[i].stmts == WIDE ==> steps[j].stmts != WIDE
  }

  predicate WellFormed(steps: seq<Step>) {
    Ordered(steps) && NeverAddsOldFlag(steps) && RebuiltOnce(steps)
  }

  /******* Nothing that runs later undoes it *******/

  // Operations that cannot undo a step with statements `stmts`.
  predicate Harmless(ops: seq<Op>, stmts: seq<Stmt>) {
    forall i :: 0 <= i < |ops| && ops[i].Sql? ==>
      && (ops[i].stmt.AddColumn? ==> ops[i].stmt.column != OLD_FLAG)
      && (stmts == WIDE ==> ops[i].stmt != DropTpIndex)
  }

  lemma OpKeepsAddition(db: Db, op: Op, kept: Stmt)
    requires Additive(kept) && Holds(db, kept) && (kept.AddColumn? ==> kept.column != OLD_FLAG)
    ensures Holds(RunOp(db, op).db, kept)
  {
  }

  lemma OpKeepsRenamed(db: Db, op: Op)
    requires Renamed(db) && Harmless([op], [RenameFlag])
    ensures Renamed(RunOp(db, op).db)
  {
    assert [op][0] == op;
  }

  lemma OpKeepsHarvest(db: Db, op: Op)
    requires HarvestIsCleared(db)
    ensures HarvestIsCleared(RunOp(db, op).db)
  {
    var t := db.tables[TEMPLATES];
    var after := RunOp(db, op).db.tables[TEMPLATES];
    if op.Sql? && op.stmt.AddColumn? && after != t {
      forall r | r in after.rows ensures HarvestCleared(after).rows[r] == after.rows[r] {
        assert HarvestCleared(t).rows[r] == t.rows[r];
      }
    }
  }

  lemma OpKeepsUnique(db: Db, op: Op)
    requires PartialCloses.UniqueTps(db.closes, false)
    ensures PartialCloses.UniqueTps(RunOp(db, op).db.closes, false)
  {
    PartialCloses.RelabelledIsUnique(db.closes);
  }

  lemma OpKeepsMerged(db: Db, op: Op)
    requires Merged(db)
    ensures Merged(RunOp(db, op).db)
  {
    ChannelMerge.MergedIsStable(db.channels);
  }

  lemma OpKeepsSpecial(db: Db, op: Op, stmts: seq<Stmt>)
    requires SpecialHolds(db, stmts) && Harmless([op], stmts)
    ensures SpecialHolds(RunOp(db, op).db, stmts)
  {
    assert [op][0] == op;
    if stmts == [RenameFlag] {
      OpKeepsRenamed(db, op);
    } else if stmts == [ClearHarvest] {
      OpKeepsHarvest(db, op);
    } else if stmts == NARROW {
      OpKeepsUnique(db, op);
    } else if stmts == MERGE {
      OpKeepsMerged(db, op);
    }
  }

  lemma {:induction false} RunKeepsAddition(db: Db, ops: seq<Op>, kept: Stmt)
    requires Additive(kept) && Holds(db, kept) && (kept.AddColumn? ==> kept.column != OLD_FLAG)
    ensures Holds(RunOps(db, ops).db, kept)
    decreases |ops|
  {
    if ops != [] {
      OpKeepsAddition(db, ops[0], kept);
      if RunOp(db, ops[0]).Done? {
        RunKeepsAddition(RunOp(db, ops[0]).db, ops[1..], kept);
      }
    }
  }

  lemma {:induction false} RunKeepsSpecial(db: Db, ops: seq<Op>, stmts: seq<Stmt>)
    requires SpecialHolds(db, stmts) && Harmless(ops, stmts)
    ensures SpecialHolds(RunOps(db, ops).db, stmts)
    decreases |ops|
  {
    if ops != [] {
      OpKeepsSpecial(db, ops[0], stmts);
      if RunOp(db, ops[0]).Done? {
        RunKeepsSpecial(RunOp(db, ops[0]).db, ops[1..], stmts);
      }
    }
  }

  lemma StepKept(db: Db, ops: seq<Op>, step: Step)
    requires StepHolds(db, step) && Harmless(ops, step.stmts)
    requires forall s :: s in step.stmts && s.AddColumn? ==> s.column != OLD_FLAG
    ensures StepHolds(RunOps(db, ops).db, step)
  {
    forall s | s in step.stmts && Additive(s) ensures Holds(RunOps(db, ops).db, s) {
      RunKeepsAddition(db, ops, s);
    }
    RunKeepsSpecial(db, ops, step.stmts);
  }

  /******* A completed step holds *******/

  lemma SpecialDoneHolds(db: Db, stmts: seq<Stmt>)
    requires Special(stmts) && RunAll(db, stmts).Done?
    ensures SpecialHolds(RunAll(db, stmts).db, stmts)
    ensures forall s :: s in stmts ==> !Additive(s)
  {
    if stmts == [RenameFlag] {
      assert RunAll(db, stmts) == Apply(db, RenameFlag);
    } else if stmts == [ClearHarvest] {
      assert RunAll(db, stmts) == Apply(db, ClearHarvest);
    } else if stmts == NARROW {
      RunPair(db, RelabelDuplicates, CreateTpIndex(false));
      PartialCloses.RelabelledIsUnique(db.closes);
    } else if stmts == WIDE {
      RunPair(db, DropTpIndex, CreateTpIndex(true));
    } else {
      MergeDoneHolds(db);
    }
  }

  lemma MergeDoneHolds(db: Db)
    requires RunAll(db, MERGE).Done?
    ensures Merged(RunAll(db, MERGE).db)
  {
    if CHANNELS in db.tables {
      RunMerge(db);
      ChannelMerge.MergedIsStable(ChannelMerge.Carry(ChannelMerge.Unpause(db.channels)));
    }
  }

  lemma StepDoneHolds(db: Db, step: Step)
    requires AllAdditive(step.stmts) || Special(step.stmts)
    requires RunAll(db, step.stmts).Done?
    ensures StepHolds(RunAll(db, step.stmts).db.(stamp := Some(step.number)), step)
  {
    var after := RunAll(db, step.stmts).db;
    if AllAdditive(step.stmts) {
      forall s | s in step.stmts ensures Holds(after, s) {
        AdditiveRunHolds(db, step.stmts, s);
      }
      AdditiveIsNotSpecial(step.stmts);
    } else {
      SpecialDoneHolds(db, step.stmts);
    }
    StampKeepsStep(after, step, step.number);
  }

  lemma AdditiveIsNotSpecial(stmts: seq<Stmt>)
    requires AllAdditive(stmts)
    ensures !Special(stmts)
  {
    if stmts != [] {
      assert Additive(stmts[0]);
    }
  }

  lemma StampKeepsStep(db: Db, step: Step, n: nat)
    requires StepHolds(db, step)
    ensures StepHolds(db.(stamp := Some(n)), step)
  {
  }

  /******* Every run *******/

  lemma {:induction false} ProgramHarmless(steps: seq<Step>, current: nat, stmts: seq<Stmt>)
    requires Ordered(steps) && NeverAddsOldFlag(steps)
    requires stmts == WIDE ==> forall s :: s in steps ==> s.stmts != WIDE
    ensures Harmless(Program(steps, current), stmts)
  {
    if steps != [] {
      var step := steps[0];
      assert step in steps && forall s :: s in steps[1..] ==> s in steps;
      ProgramHarmless(steps[1..], current, stmts);
      var ops := StepOps(step);
      forall i | 0 <= i < |ops| && ops[i].Sql?
        ensures ops[i].stmt.AddColumn? ==> ops[i].stmt.column != OLD_FLAG
        ensures stmts == WIDE ==> ops[i].stmt != DropTpIndex
      {
        assert ops[i].stmt == step.stmts[i] && step.stmts[i] in step.stmts;
      }
    }
  }

  lemma TailIsWellFormed(steps: seq<Step>)
    requires steps != [] && WellFormed(steps)
    ensures WellFormed(steps[1..])
    ensures steps[0].stmts == WIDE ==> forall s :: s in steps[1..] ==> s.stmts != WIDE
    ensures forall s :: s in steps[0].stmts && s.AddColumn? ==> s.column != OLD_FLAG
    ensures AllAdditive(steps[0].stmts) || Special(steps[0].stmts)
    ensures forall t :: t in steps <==> t == steps[0] || t in steps[1..]
    ensures forall t :: t in steps[1..] ==> t.number > steps[0].number
  {
    assert steps[0] in steps;
    forall i | 1 <= i < |steps| ensures steps[0].stmts == WIDE ==> steps[i].stmts != WIDE {
      assert 0 < i;
    }
  }

  // The first step survives whatever part of the later steps runs.
  lemma FirstStepKept(db: Db, steps: seq<Step>, current: nat, j: nat)
    requires steps != [] && WellFormed(steps) && StepHolds(db, steps[0])
    requires j <= |Program(steps[1..], current)|
    ensures StepHolds(RunOps(db, Program(steps[1..], current)[..j]).db, steps[0])
  {
    TailIsWellFormed(steps);
    ProgramHarmless(steps[1..], current, steps[0].stmts);
    StepKept(db, Program(steps[1..], current)[..j], steps[0]);
  }

  lemma {:induction false} AppliedAfterCrash(db: Db, steps: seq<Step>, k: nat)
    requires WellFormed(steps) && Applied(db, steps)
    requires k <= |Program(steps, Version(db))|
    ensures Applied(RunOps(db, Program(steps, Version(db))[..k]).db, steps)
    decreases |steps|
  {
    var ops := Program(steps, Version(db));
    if steps == [] || k == 0 {
      assert ops[..0] == [];
    } else {
      var step, tail := steps[0], steps[1..];
      TailIsWellFormed(steps);
      if step.number <= Version(db) {
        FirstStepKept(db, steps, Version(db), k);
        AppliedAfterCrash(db, tail, k);
      } else if k <= |step.stmts| {
        assert ops[..k] == SqlOps(step.stmts[..k]);
        RunSqlOps(db, step.stmts[..k]);
      } else {
        AppliedLater(db, steps, k - |step.stmts| - 1);
        assert ops[..k] == StepOps(step) + Program(tail, Version(db))[..k - |step.stmts| - 1];
      }
    }
  }

  // The first step runs to its end, and `j` operations of the later ones after it.
  lemma {:induction false} AppliedLater(db: Db, steps: seq<Step>, j: nat)
    requires WellFormed(steps) && Applied(db, steps)
    requires steps != [] && steps[0].number > Version(db) && j <= |Program(steps[1..], Version(db))|
    ensures Applied(RunOps(db, StepOps(steps[0]) + Program(steps[1..], Version(db))[..j]).db, steps)
    decreases |steps|, 0
  {
    var step, tail := steps[0], steps[1..];
    TailIsWellFormed(steps);
    RunStep(db, step, Program(tail, Version(db))[..j]);
    RunSqlOps(db, step.stmts);
    if RunAll(db, step.stmts).Done? {
      var next := RunAll(db, step.stmts).db.(stamp := Some(step.number));
      StepDoneHolds(db, step);
      FirstStepKept(next, steps, Version(db), j);
      ProgramSkips(tail, Version(db), step.number);
      AppliedAfterCrash(next, tail, j);
    }
  }

  /** In every state any crashes lead to, stamp n means steps 1..n are applied. */
  lemma {:induction false} StampMeansApplied(db: Db, steps: seq<Step>, ks: seq<nat>)
    requires WellFormed(steps) && Applied(db, steps)
    ensures Applied(Crashes(db, steps, ks), steps)
    decreases |ks|
  {
    if ks != [] {
      var ops := Program(steps, Version(db));
      AppliedAfterCrash(db, steps, if ks[0] <= |ops| then ks[0] else |ops|);
      StampMeansApplied(Crash(db, steps, ks[0]), steps, ks[1..]);
    }
  }

  lemma AppliedAtHead(db: Db, steps: seq<Step>)
    requires WellFormed(steps) && Applied(db, steps) && Boot(db, steps).Done?
    ensures forall step :: step in steps ==> StepHolds(Boot(db, steps).db, step)
  {
    var ops := Program(steps, Version(db));
    assert ops[..|ops|] == ops;
    AppliedAfterCrash(db, steps, |ops|);
    HeadReached(db, steps);
  }

  /******* The critical schema *******/

  const CRITICAL: set<(string, string)> := {
    ("vantage_simulated_trades", "trade_id"), ("vantage_simulated_trades", "managed_by"),
    ("vantage_simulated_trades", "order_type"),
    (SETTINGS, "circuit_breaker_enabled"), (SETTINGS, FLAG),
    ("vantage_signals", "signal_id"), ("vantage_signals", "status")}

  predicate HasColumn(db: Db, at: (string, string)) {
    at.0 in db.tables && at.1 in db.tables[at.0].columns
  }

  // `verify_critical_schema` does not abort.  Every critical table has a critical column, so a
  // missing table shows as one.
  predicate Verified(db: Db) {
    forall at :: at in CRITICAL ==> HasColumn(db, at)
  }

  // A column the registry itself adds.
  predicate AddedBySome(steps: seq<Step>, at: (string, string)) {
    exists step, s :: step in steps && s in step.stmts && s.AddColumn? && (s.table, s.column) == at
  }

  /** After any crashes, a start that completes passes the critical-schema check. */
  lemma CompletedRunIsVerified(db: Db, steps: seq<Step>, ks: seq<nat>)
    requires WellFormed(steps) && Applied(db, steps)
    requires forall at :: at in CRITICAL ==> HasColumn(db, at) || AddedBySome(steps, at)
    requires Boot(Crashes(db, steps, ks), steps).Done?
    ensures Verified(Boot(Crashes(db, steps, ks), steps).db)
  {
    forall at | at in CRITICAL
      ensures HasColumn(Boot(Crashes(db, steps, ks), steps).db, at)
    {
      assert at.1 != OLD_FLAG;
      ColumnAtHead(db, steps, ks, at);
    }
  }

  lemma ColumnAtHead(db: Db, steps: seq<Step>, ks: seq<nat>, at: (string, string))
    requires WellFormed(steps) && Applied(db, steps)
    requires (HasColumn(db, at) && at.1 != OLD_FLAG) || AddedBySome(steps, at)
    requires Boot(Crashes(db, steps, ks), steps).Done?
    ensures HasColumn(Boot(Crashes(db, steps, ks), steps).db, at)
  {
    var d := Crashes(db, steps, ks);
    if AddedBySome(steps, at) {
      var step, s :| step in steps && s in step.stmts && s.AddColumn? && (s.table, s.column) == at;
      StampMeansApplied(db, steps, ks);
      AppliedAtHead(d, steps);
      assert Holds(Boot(d, steps).db, s);
    } else {
      CrashesKeepHolds(db, steps, ks, AddColumn(at.0, at.1, Null));
      RunKeepsAddition(d, Program(steps, Version(d)), AddColumn(at.0, at.1, Null));
    }
  }

  lemma {:induction false} CrashesKeepHolds(db: Db, steps: seq<Step>, ks: seq<nat>, kept: Stmt)
    requires Additive(kept) && Holds(db, kept) && (kept.AddColumn? ==> kept.column != OLD_FLAG)
    ensures Holds(Crashes(db, steps, ks), kept)
    decreases |ks|
  {
    if ks != [] {
      var ops := Program(steps, Version(db));
      RunKeepsAddition(db, ops[..if ks[0] <= |ops| then ks[0] else |ops|], kept);
      CrashesKeepHolds(Crash(db, steps, ks[0]), steps, ks[1..], kept);
    }
  }
}
