/**
 The take-profit index between step 30, which builds it, and step 32, which drops it and builds
 it again: when a stamp of 30 or 31 may stand over a database without it.
 */
module IndexGap {
  import opened Common
  import opened Migrations
  import opened MergeReplay
  import opened Transactions
  import PartialCloses

  // Consecutive steps in which step 30 builds the index, 31 only adds and 32 rebuilds the index.
  predicate Rebuilding(steps: seq<Step>) {
    && (forall i :: 0 <= i < |steps| ==> steps[i].number == steps[0].number + i)
    && forall s :: s in steps ==> TpKind(s)
  }

  predicate TpKind(s: Step) {
    && (s.number == 30 ==> s.stmts == NARROW)
    && (s.number == 31 ==> AllAdditive(s.stmts))
    && (s.number == 32 ==> s.stmts == WIDE)
  }

  // The list goes on from the stamp without leaving out a step.
  predicate FollowsOn(db: Db, steps: seq<Step>) {
    steps != [] ==> steps[0].number <= Version(db) + 1
  }

  predicate Between(db: Db) { Version(db) in {30, 31} }

  /** At stamps 30 and 31 the index can be built, and at 30 it has been. */
  predicate Guarded(db: Db) {
    Between(db) ==>
      && CLOSES in db.tables && PartialCloses.UniqueTps(db.closes, false)
      && (Version(db) == 30 ==> db.tpIndex.Some?)
  }

  /** A start that dies after `n` operations dies right after dropping the index. */
  predicate StruckAt(db: Db, ops: seq<Op>, n: nat)
    requires 0 < n <= |ops|
  {
    RunOps(db, ops[..n]).Done? && ops[n - 1] == Sql(DropTpIndex)
  }

  lemma {:induction false} AdditiveKeepsIndex(db: Db, stmts: seq<Stmt>)
    requires AllAdditive(stmts)
    ensures var after := RunAll(db, stmts).db;
            && after.tpIndex == db.tpIndex && after.closes == db.closes
            && (CLOSES in db.tables ==> CLOSES in after.tables)
    decreases |stmts|
  {
    if stmts != [] {
      assert Additive(stmts[0]);
      if Apply(db, stmts[0]).Done? {
        AdditiveKeepsIndex(Apply(db, stmts[0]).db, stmts[1..]);
      }
    }
  }

  // The first `n` statements of the step that is next.
  lemma PartOfStep(db: Db, step: Step, n: nat)
    requires Guarded(db) && Between(db) && step.number == Version(db) + 1 && TpKind(step)
    requires 0 < n <= |step.stmts|
    ensures var part := RunAll(db, step.stmts[..n]);
            && Guarded(part.db) && Version(part.db) == Version(db)
            && (part.db.tpIndex.None? <==> part.Done? && step.stmts[n - 1] == DropTpIndex)
    ensures RunAll(db, step.stmts).Aborted? ==> step.number == 31
  {
    var stmts := step.stmts[..n];
    RunSqlOps(db, stmts);
    if Version(db) == 30 {
      AdditiveKeepsIndex(db, stmts);
      assert step.stmts[n - 1] in step.stmts;
    } else {
      RunPair(db, DropTpIndex, CreateTpIndex(true));
      PartialCloses.NarrowImpliesWide(db.closes);
      assert n == 2 ==> stmts == step.stmts;
    }
  }

  // A whole step that brings the stamp to 30 or 31.
  lemma StepBuilds(db: Db, step: Step)
    requires Guarded(db) && step.number == Version(db) + 1 && TpKind(step) && RunAll(db, step.stmts).Done?
    ensures var next := RunAll(db, step.stmts).db.(stamp := Some(step.number));
            Guarded(next) && (Between(next) ==> next.tpIndex.Some?)
  {
    if step.number == 30 {
      RunPair(db, RelabelDuplicates, CreateTpIndex(false));
      PartialCloses.RelabelledIsUnique(db.closes);
    } else if step.number == 31 {
      AdditiveKeepsIndex(db, step.stmts);
    }
  }

  lemma TailRebuilds(db: Db, steps: seq<Step>)
    requires steps != [] && Rebuilding(steps) && FollowsOn(db, steps)
    ensures Rebuilding(steps[1..]) && TpKind(steps[0])
    ensures steps[0].number <= Version(db) ==> FollowsOn(db, steps[1..])
    ensures forall s :: s in steps[1..] ==> s.number > steps[0].number
  {
    assert steps[0] in steps && forall s :: s in steps[1..] ==> s in steps;
    assert forall i :: 0 <= i < |steps| - 1 ==> steps[1..][i] == steps[i + 1];
  }

  /** One crash: where the stamp ends at 30 or 31, the index is missing iff the crash struck right after the drop. */
  lemma {:induction false} IndexAfter(db: Db, steps: seq<Step>, n: nat)
    requires Rebuilding(steps) && FollowsOn(db, steps) && Guarded(db)
    requires 0 < n <= |Program(steps, Version(db))|
    ensures var ops := Program(steps, Version(db));
            var after := RunOps(db, ops[..n]).db;
            Guarded(after) && (Between(after) ==> (after.tpIndex.None? <==> StruckAt(db, ops, n)))
    decreases |steps|
  {
    var step, tail := steps[0], steps[1..];
    TailRebuilds(db, steps);
    if step.number <= Version(db) {
      IndexAfter(db, tail, n);
    } else if n <= |step.stmts| {
      var ops := Program(steps, Version(db));
      assert ops[..n] == SqlOps(step.stmts[..n]);
      RunSqlOps(db, step.stmts[..n]);
      if Between(db) {
        PartOfStep(db, step, n);
      }
    } else {
      IndexAfterStep(db, steps, n);
    }
  }

  lemma {:induction false} IndexAfterStep(db: Db, steps: seq<Step>, n: nat)
    requires Rebuilding(steps) && FollowsOn(db, steps) && Guarded(db)
    requires steps != [] && steps[0].number > Version(db)
    requires |steps[0].stmts| < n <= |Program(steps, Version(db))|
    ensures var ops := Program(steps, Version(db));
            var after := RunOps(db, ops[..n]).db;
            Guarded(after) && (Between(after) ==> (after.tpIndex.None? <==> StruckAt(db, ops, n)))
    decreases |steps|, 0
  {
    var step, tail := steps[0], steps[1..];
    TailRebuilds(db, steps);
    var ops, rest, j := Program(steps, Version(db)), Program(tail, Version(db)), n - |step.stmts| - 1;
    assert ops[..n] == StepOps(step) + rest[..j];
    RunStep(db, step, rest[..j]);
    RunSqlOps(db, step.stmts);
    if RunAll(db, step.stmts).Done? {
      var next := RunAll(db, step.stmts).db.(stamp := Some(step.number));
      StepBuilds(db, step);
      ProgramSkips(tail, Version(db), step.number);
      if j == 0 {
        assert rest[..0] == [] && ops[n - 1] == Stamp(step.number);
      } else {
        IndexAfter(next, tail, j);
        assert ops[n - 1] == rest[j - 1];
      }
    } else if Between(db) {
      assert step.stmts[..|step.stmts|] == step.stmts;
      PartOfStep(db, step, |step.stmts|);
    }
  }

  /******* Every schedule of crashes *******/

  // How far a start that is to die after `k` operations gets.
  function Reach(db: Db, steps: seq<Step>, k: nat): nat {
    var ops := Program(steps, Version(db));
    if k <= |ops| then k else |ops|
  }

  /** The last crash that executed anything struck right after the index was dropped. */
  predicate LastStruck(db: Db, steps: seq<Step>, ks: seq<nat>)
    decreases |ks|
  {
    if ks == [] then false
    else
      var before, k := Crashes(db, steps, ks[..|ks| - 1]), ks[|ks| - 1];
      if Reach(before, steps, k) == 0 then LastStruck(db, steps, ks[..|ks| - 1])
      else StruckAt(before, Program(steps, Version(before)), Reach(before, steps, k))
  }

  /**
   Whatever the crashes, the index is missing at stamp 30 or 31 iff the last crash that executed
   anything struck right after it was dropped; and that never is at stamp 30.
   */
  lemma {:induction false} IndexMissingExactly(db: Db, steps: seq<Step>, ks: seq<nat>)
    requires Ordered(steps) && Rebuilding(steps) && FollowsOn(db, steps)
    requires Guarded(db) && (Between(db) ==> db.tpIndex.Some?)
    ensures var after := Crashes(db, steps, ks);
            && Guarded(after) && FollowsOn(after, steps)
            && (Between(after) ==> (after.tpIndex.None? <==> LastStruck(db, steps, ks)))
    decreases |ks|
  {
    if ks != [] {
      var init, k := ks[..|ks| - 1], ks[|ks| - 1];
      assert ks == init + [k];
      IndexMissingExactly(db, steps, init);
      CrashesSnoc(db, steps, init, k);
      var before := Crashes(db, steps, init);
      var ops := Program(steps, Version(before));
      StampGrows(before, steps, Reach(before, steps, k));
      if Reach(before, steps, k) > 0 {
        IndexAfter(before, steps, Reach(before, steps, k));
      } else {
        assert ops[..0] == [];
      }
    }
  }

  /******* Under the application's transaction *******/

  // The last crash that executed anything died after one operation.
  predicate LastIsOne(ks: seq<nat>) {
    ks != [] && if ks[|ks| - 1] == 0 then LastIsOne(ks[..|ks| - 1]) else ks[|ks| - 1] == 1
  }

  lemma {:induction false} TxCrashesSnoc(db: Db, steps: seq<Step>, ks: seq<nat>, k: nat)
    ensures TxCrashes(db, steps, ks + [k]) == TxCrash(TxCrashes(db, steps, ks), steps, k)
    decreases |ks|
  {
    if ks == [] {
      assert ks + [k] == [k] && [k][1..] == [];
    } else {
      assert (ks + [k])[1..] == ks[1..] + [k];
      TxCrashesSnoc(TxCrash(db, steps, ks[0]), steps, ks[1..], k);
    }
  }

  // What a start at stamp 31 executes first.
  lemma {:induction false} RebuildIsNext(db: Db, steps: seq<Step>)
    requires Rebuilding(steps) && FollowsOn(db, steps) && Version(db) == 31
    requires exists s :: s in steps && s.number == 32
    ensures var ops := Program(steps, 31);
            |ops| >= 3 && ops[..3] == [Sql(DropTpIndex), Sql(CreateTpIndex(true)), Stamp(32)] && Durable(ops) == 2
    decreases |steps|
  {
    TailRebuilds(db, steps);
    if steps[0].number <= 31 {
      assert forall s :: s in steps <==> s == steps[0] || s in steps[1..];
      RebuildIsNext(db, steps[1..]);
    } else {
      var ops := Program(steps, 31);
      assert ops[..3] == StepOps(steps[0]);
      assert !ChangesRows(ops[0]) && !ChangesRows(ops[1]) && ChangesRows(ops[2]);
      assert ops[1..][1..] == ops[2..];
      assert Durable(ops) == 1 + Durable(ops[1..]) == 2 + Durable(ops[2..]);
    }
  }

  /**
   There the index can only go missing on a database already stamped 31, and it is missing iff
   the last crash that executed anything died after the first operation, the drop.
   */
  lemma {:induction false} TxIndexMissingExactly(db: Db, steps: seq<Step>, ks: seq<nat>)
    requires Ordered(steps) && Rebuilding(steps) && FollowsOn(db, steps)
    requires exists s :: s in steps && s.number == 32
    requires Guarded(db) && Between(db) && db.tpIndex.Some?
    ensures var after := TxCrashes(db, steps, ks);
            && Guarded(after) && Version(after) == Version(db)
            && (after.tpIndex.None? <==> Version(db) == 31 && LastIsOne(ks))
    decreases |ks|
  {
    if ks != [] {
      var init, k := ks[..|ks| - 1], ks[|ks| - 1];
      assert ks == init + [k];
      TxIndexMissingExactly(db, steps, init);
      TxCrashesSnoc(db, steps, init, k);
      TxCrashAt(TxCrashes(db, steps, init), steps, k);
    }
  }

  lemma TxCrashAt(db: Db, steps: seq<Step>, k: nat)
    requires Ordered(steps) && Rebuilding(steps) && FollowsOn(db, steps)
    requires exists s :: s in steps && s.number == 32
    requires Guarded(db) && Between(db)
    ensures var after := TxCrash(db, steps, k);
            && Guarded(after) && Version(after) == Version(db)
            && (after.tpIndex.None? <==> if k == 0 then db.tpIndex.None? else Version(db) == 31 && k == 1)
  {
    var ops, n := Program(steps, Version(db)), ThrownBack(db, steps, k);
    ThrownBackResumes(db, steps, n);
    if n == 0 {
      assert ops[..0] == [];
    } else {
      IndexAfter(db, steps, n);
    }
    if Version(db) == 31 {
      RebuildIsNext(db, steps);
      assert ops[..3][0] == ops[0] && ops[..3][1] == ops[1];
      if k == 1 {
        assert ops[..1] == [ops[0]];
        assert RunOps(db, [ops[0]]).Done?;
      }
    }
  }
}
