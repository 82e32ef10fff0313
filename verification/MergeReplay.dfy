/**
 The one step whose replay can go wrong: how crashes inside the channel merge show in a whole
 run, and exactly when they do not.
 */
module MergeReplay {
  import opened Common
  import opened Migrations
  import ChannelMerge

  /******* The merge step alone *******/

  predicate PendingMerge(db: Db, step: Step) {
    step.stmts == MERGE && step.number > Version(db) && CHANNELS in db.tables
  }

  lemma BootMerge(db: Db, step: Step)
    requires PendingMerge(db, step)
    ensures var c := ChannelMerge.Unpause(db.channels);
            && Crash(db, [step], 2) == db.(channels := ChannelMerge.Carry(c))
            && Boot(db, [step]) == Done(
                 db.(channels := ChannelMerge.DeleteWrapped(ChannelMerge.Carry(c)), stamp := Some(step.number)))
  {
    var ops := StepOps(step) + [];
    assert Program([step], Version(db)) == ops;
    RunMerge(db);
    RunStep(db, step, []);
    assert ops[..2] == SqlOps(MERGE[..2]);
    RunSqlOps(db, MERGE[..2]);
  }

  lemma {:induction false} MergeCrashes(db: Db, step: Step, n: nat)
    requires PendingMerge(db, step) && n >= 1
    ensures Crashes(db, [step], seq(n, _ => 2))
            == db.(channels := ChannelMerge.CarryTimes(ChannelMerge.Unpause(db.channels), n))
  {
    var c, before := ChannelMerge.Unpause(db.channels), seq(n - 1, _ => 2);
    CrashesSnoc(db, [step], before, 2);
    assert seq(n, _ => 2) == before + [2];
    BootMerge(db, step);
    if n == 1 {
      assert ChannelMerge.CarryTimes(c, 1) == ChannelMerge.Carry(ChannelMerge.CarryTimes(c, 0));
    } else {
      MergeCrashes(db, step, n - 1);
      ChannelMerge.UnpauseIdempotent(db.channels);
      ChannelMerge.CarryTimesKeepsUnpaused(c, n - 1);
      BootMerge(db.(channels := ChannelMerge.CarryTimes(c, n - 1)), step);
    }
  }

  lemma {:induction false} CrashesSnoc(db: Db, steps: seq<Step>, ks: seq<nat>, k: nat)
    ensures Crashes(db, steps, ks + [k]) == Crash(Crashes(db, steps, ks), steps, k)
    decreases |ks|
  {
    if ks == [] {
      assert ks + [k] == [k] && [k][1..] == [];
    } else {
      assert (ks + [k])[1..] == ks[1..] + [k];
      CrashesSnoc(Crash(db, steps, ks[0]), steps, ks[1..], k);
    }
  }

  /******* The merge step within a run *******/

  predicate MergeStmt(stmt: Stmt) { stmt in MERGE }

  // No merge statement among these.
  predicate LeavesChannels(ops: seq<Op>) {
    forall i :: 0 <= i < |ops| && ops[i].Sql? ==> !MergeStmt(ops[i].stmt)
  }

  predicate StepsLeaveChannels(steps: seq<Step>) {
    forall s :: s in steps ==> s.stmts != MERGE
  }

  lemma {:induction false} ProgramLeavesChannels(steps: seq<Step>, current: nat)
    requires Ordered(steps) && StepsLeaveChannels(steps)
    ensures LeavesChannels(Program(steps, current))
  {
    if steps != [] {
      assert steps[0] in steps;
      ProgramLeavesChannels(steps[1..], current);
      var ops := StepOps(steps[0]);
      forall i | 0 <= i < |ops| && ops[i].Sql? ensures !MergeStmt(ops[i].stmt) {
        assert ops[i].stmt in steps[0].stmts;
      }
    }
  }

  lemma {:induction false} ChannelsKept(db: Db, ops: seq<Op>)
    requires LeavesChannels(ops)
    ensures RunOps(db, ops).db.channels == db.channels
    ensures CHANNELS in db.tables ==> CHANNELS in RunOps(db, ops).db.tables
    decreases |ops|
  {
    if ops != [] && RunOp(db, ops[0]).Done? {
      ChannelsKept(RunOp(db, ops[0]).db, ops[1..]);
    }
  }

  lemma {:induction false} ProgramConcat(a: seq<Step>, b: seq<Step>, current: nat)
    ensures Program(a + b, current) == Program(a, current) + Program(b, current)
    decreases |a|
  {
    if a == [] {
      assert a + b == b;
    } else {
      assert (a + b)[1..] == a[1..] + b;
      ProgramConcat(a[1..], b, current);
    }
  }

  lemma {:induction false} ProgramDone(steps: seq<Step>, current: nat)
    requires forall s :: s in steps ==> s.number <= current
    ensures Program(steps, current) == []
  {
    if steps != [] {
      assert steps[0] in steps;
      ProgramDone(steps[1..], current);
    }
  }

  lemma {:induction false} VersionBelow(db: Db, steps: seq<Step>, bound: nat)
    requires Ordered(steps) && Version(db) < bound && forall s :: s in steps ==> s.number < bound
    ensures Version(Boot(db, steps).db) < bound
    decreases |steps|
  {
    if steps != [] {
      var step, tail := steps[0], steps[1..];
      assert step in steps;
      if step.number <= Version(db) {
        VersionBelow(db, tail, bound);
      } else {
        RunStep(db, step, Program(tail, Version(db)));
        RunSqlOps(db, step.stmts);
        ProgramSkips(tail, Version(db), step.number);
        if RunAll(db, step.stmts).Done? {
          VersionBelow(RunAll(db, step.stmts).db.(stamp := Some(step.number)), tail, bound);
        }
      }
    }
  }

  // A list of steps with the merge in it.
  datatype Parts = Parts(before: seq<Step>, merge: Step, after: seq<Step>) {
    function All(): seq<Step> { before + [merge] + after }
  }

  predicate Split(p: Parts) {
    && Ordered(p.All()) && p.merge.stmts == MERGE
    && StepsLeaveChannels(p.before) && StepsLeaveChannels(p.after)
  }

  // The merge is next: everything before it has been stamped.
  predicate MergeNext(db: Db, p: Parts) {
    PendingMerge(db, p.merge) && forall s :: s in p.before ==> s.number <= Version(db)
  }

  lemma SplitParts(p: Parts)
    requires Split(p)
    ensures Ordered(p.before) && Ordered(p.after)
    ensures forall s :: s in p.before ==> s.number < p.merge.number
    ensures forall s :: s in p.after ==> s.number > p.merge.number
  {
    var all, n := p.All(), |p.before|;
    assert all[..n] == p.before && all[n] == p.merge && all[n + 1..] == p.after;
    OrderedAround(all, n);
  }

  lemma OrderedAround(steps: seq<Step>, n: nat)
    requires Ordered(steps) && n < |steps|
    ensures Ordered(steps[..n]) && Ordered(steps[n + 1..])
    ensures forall s :: s in steps[..n] ==> s.number < steps[n].number
    ensures forall s :: s in steps[n + 1..] ==> s.number > steps[n].number
  {
    OrderedPart(steps, 0, n);
    OrderedPart(steps, n + 1, |steps|);
    assert steps[0..n] == steps[..n] && steps[n + 1..|steps|] == steps[n + 1..];
  }

  lemma OrderedPart(steps: seq<Step>, i: nat, j: nat)
    requires Ordered(steps) && i <= j <= |steps|
    ensures Ordered(steps[i..j])
  {
    assert forall s :: s in steps[i..j] ==> s in steps;
  }

  lemma ProgramAtMerge(db: Db, p: Parts)
    requires Split(p) && MergeNext(db, p)
    ensures Program(p.All(), Version(db)) == StepOps(p.merge) + Program(p.after, Version(db))
  {
    ProgramConcat(p.before + [p.merge], p.after, Version(db));
    ProgramConcat(p.before, [p.merge], Version(db));
    ProgramDone(p.before, Version(db));
    assert Program([p.merge], Version(db)) == StepOps(p.merge) + Program([], Version(db));
  }

  lemma CrashInMerge(db: Db, p: Parts)
    requires Split(p) && MergeNext(db, p)
    ensures Crash(db, p.All(), 2) == Crash(db, [p.merge], 2)
  {
    ProgramAtMerge(db, p);
    var ops := StepOps(p.merge);
    assert Program([p.merge], Version(db)) == ops + [];
    assert (ops + Program(p.after, Version(db)))[..2] == ops[..2] == (ops + [])[..2];
  }

  lemma {:induction false} CrashesInMerge(db: Db, p: Parts, n: nat)
    requires Split(p) && MergeNext(db, p)
    ensures Crashes(db, p.All(), seq(n, _ => 2)) == Crashes(db, [p.merge], seq(n, _ => 2))
    decreases n
  {
    if n > 0 {
      CrashInMerge(db, p);
      BootMerge(db, p.merge);
      assert seq(n, _ => 2)[1..] == seq(n - 1, _ => 2);
      CrashesInMerge(Crash(db, [p.merge], 2), p, n - 1);
    }
  }

  // Whatever the later steps do, the merged channels are what the run leaves behind.
  lemma MergedChannels(db: Db, p: Parts)
    requires Split(p) && MergeNext(db, p)
    ensures Boot(db, p.All()).db.channels
            == ChannelMerge.DeleteWrapped(ChannelMerge.Carry(ChannelMerge.Unpause(db.channels)))
  {
    SplitParts(p);
    ProgramAtMerge(db, p);
    var rest := Program(p.after, Version(db));
    RunMerge(db);
    RunStep(db, p.merge, rest);
    ProgramLeavesChannels(p.after, Version(db));
    ChannelsKept(RunAll(db, MERGE).db.(stamp := Some(p.merge.number)), rest);
  }

  lemma ReplaysShow(db: Db, p: Parts, n: nat)
    requires Split(p) && MergeNext(db, p) && n >= 1 && ChannelMerge.ReplayShows(db.channels, n)
    ensures Boot(Crashes(db, p.All(), seq(n, _ => 2)), p.All()) != Boot(db, p.All())
  {
    var c := ChannelMerge.Unpause(db.channels);
    ChannelMerge.UnpauseIdempotent(db.channels);
    ChannelMerge.CarryTimesKeepsUnpaused(c, n);
    CrashesInMerge(db, p, n);
    MergeCrashes(db, p.merge, n);
    MergedChannels(db, p);
    MergedChannels(db.(channels := ChannelMerge.CarryTimes(c, n)), p);
  }

  // A run that gets as far as the merge.
  predicate ReachesMerge(db: Db, p: Parts) {
    && CHANNELS in db.tables && Version(db) < p.merge.number
    && Boot(db, p.before).Done?
  }

  lemma CrashBeforeMerge(db: Db, p: Parts) returns (k: nat, at: Db)
    requires Split(p) && ReachesMerge(db, p)
    ensures at == Crash(db, p.All(), k) && MergeNext(at, p)
    ensures at.channels == db.channels
    ensures Boot(at, p.All()) == Boot(db, p.All())
  {
    SplitParts(p);
    var v, all, tail := Version(db), p.All(), [p.merge] + p.after;
    var first := Program(p.before, v);
    k, at := |first|, Boot(db, p.before).db;
    assert all == p.before + tail;
    ProgramConcat(p.before, tail, v);
    assert Program(all, v)[..k] == first;
    ProgramLeavesChannels(p.before, v);
    ChannelsKept(db, first);
    HeadReached(db, p.before);
    VersionBelow(db, p.before, p.merge.number);
    RunOpsConcat(db, first, Program(tail, v));
    assert Boot(db, all) == RunOps(at, Program(tail, v));
    ProgramSkips(tail, v, Version(at));
    ProgramConcat(p.before, tail, Version(at));
    ProgramDone(p.before, Version(at));
    assert Program(all, Version(at)) == Program(tail, v);
  }

  lemma DeepChainBreaks(db: Db, p: Parts) returns (ks: seq<nat>)
    requires Split(p) && ReachesMerge(db, p) && !ChannelMerge.NoDeepChain(db.channels)
    ensures Boot(Crashes(db, p.All(), ks), p.All()) != Boot(db, p.All())
  {
    var k, at := CrashBeforeMerge(db, p);
    var n := ChannelMerge.DeepChainShows(db.channels);
    ReplaysShow(at, p, n);
    var twos := seq(n, _ => 2);
    ks := [k] + twos;
    assert ks[1..] == twos;
  }

  /**
   The condition of `CrashResume` cannot be weakened: in a run that gets as far as the merge,
   every crash schedule resumes to the clean outcome iff no surviving row is two or more
   wrappings away from an override.
   */
  lemma MergeResumesExactly(db: Db, p: Parts)
    requires Split(p) && ReachesMerge(db, p)
    ensures (forall ks: seq<nat> :: Boot(Crashes(db, p.All(), ks), p.All()) == Boot(db, p.All()))
            <==> ChannelMerge.NoDeepChain(db.channels)
  {
    if ChannelMerge.NoDeepChain(db.channels) {
      var all := p.All();
      forall ks: seq<nat> ensures Boot(Crashes(db, all, ks), all) == Boot(db, all) {
        CrashResume(db, all, ks);
      }
    } else {
      var ks := DeepChainBreaks(db, p);
    }
  }
}
