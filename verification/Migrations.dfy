/**
 The schema migration engine: an ordered list of numbered steps, each a list of statements,
 applied fail-closed with the version stamp advanced after every step.  A crash may strike
 after any statement; the next start runs the engine again from the stamp it finds.
 */
module Migrations {
  import opened Common
  import PartialCloses
  import ChannelMerge

  datatype Value = Null | Num(n: real) | Text(s: string)

  datatype Table = Table(columns: set<string>, rows: map<nat, map<string, Value>>)

  // Column names of every table are in `tables`.  The rows of `vantage_partial_closes` and
  // `channel_performance` are kept in typed form in `closes` and `channels`.
  datatype Db = Db(
    tables: map<string, Table>,
    closes: PartialCloses.Closes,
    channels: ChannelMerge.Channels,
    indexes: set<string>,
    tpIndex: Option<bool>,        // idx_partial_close_one_per_tp; true when on the wide key
    stamp: Option<nat>)

  const SETTINGS := "vantage_risk_settings"
  const TEMPLATES := "ea_trade_templates"
  const CLOSES := "vantage_partial_closes"
  const CHANNELS := "channel_performance"
  const OLD_FLAG := "gdc_live_execution"
  const FLAG := "re_live_execution"

  datatype Stmt =
    | AddColumn(table: string, column: string, default: Value)
    | CreateTable(table: string, columns: set<string>)
    | CreateIndex(name: string, table: string)
    | RenameFlag
    | ClearHarvest
    | RelabelDuplicates
    | CreateTpIndex(wide: bool)
    | DropTpIndex
    | UnpauseMerged
    | CarryOverride
    | DeleteWrapped

  datatype Step = Step(number: nat, stmts: seq<Stmt>)

  /** How a statement or a run ends: an abort leaves the database as the failing statement found it. */
  datatype Outcome = Done(db: Db) | Aborted(db: Db)

  /******* Statements *******/

  function RenameColumn(t: Table, from: string, to: string): Table {
    Table(t.columns - {from} + {to},
          map r | r in t.rows ::
            map c | c in t.rows[r].Keys - {from} + (if from in t.rows[r] then {to} else {}) ::
              if c == to && from in t.rows[r] then t.rows[r][from] else t.rows[r][c])
  }

  function AddedColumn(t: Table, column: string, default: Value): Table {
    Table(t.columns + {column}, map r | r in t.rows :: t.rows[r][column := default])
  }

  function HarvestCleared(t: Table): Table {
    t.(rows := map r | r in t.rows ::
         if "harvest_pips" in t.rows[r] && t.rows[r]["harvest_pips"] == Num(1.0)
         then t.rows[r]["harvest_pips" := Num(0.0)] else t.rows[r])
  }

  /** One statement under its step's tolerance: an already-applied error is skipped, any other aborts. */
  function Apply(db: Db, stmt: Stmt): Outcome {
    match stmt
    case AddColumn(table, column, default) =>
      if table !in db.tables then Aborted(db)
      else if column in db.tables[table].columns then Done(db)
      else Done(db.(tables := db.tables[table := AddedColumn(db.tables[table], column, default)]))
    case CreateTable(table, columns) =>
      if table in db.tables then Done(db)
      else Done(db.(tables := db.tables[table := Table(columns, map[])]))
    case CreateIndex(name, table) =>
      if name in db.indexes then Done(db)
      else if table !in db.tables then Aborted(db)
      else Done(db.(indexes := db.indexes + {name}))
    case RenameFlag =>
      if SETTINGS !in db.tables then Aborted(db)
      else if OLD_FLAG !in db.tables[SETTINGS].columns || FLAG in db.tables[SETTINGS].columns then Done(db)
      else Done(db.(tables := db.tables[SETTINGS := RenameColumn(db.tables[SETTINGS], OLD_FLAG, FLAG)]))
    case ClearHarvest =>
      if TEMPLATES !in db.tables || "harvest_pips" !in db.tables[TEMPLATES].columns then Aborted(db)
      else Done(db.(tables := db.tables[TEMPLATES := HarvestCleared(db.tables[TEMPLATES])]))
    case RelabelDuplicates =>
      if CLOSES !in db.tables then Aborted(db)
      else Done(db.(closes := PartialCloses.Relabelled(db.closes)))
    case CreateTpIndex(wide) =>
      if db.tpIndex.Some? then Done(db)
      else if CLOSES !in db.tables || !PartialCloses.UniqueTps(db.closes, wide) then Aborted(db)
      else Done(db.(tpIndex := Some(wide)))
    case DropTpIndex => Done(db.(tpIndex := None))
    case UnpauseMerged =>
      if CHANNELS !in db.tables then Aborted(db)
      else Done(db.(channels := ChannelMerge.Unpause(db.channels)))
    case CarryOverride =>
      if CHANNELS !in db.tables then Aborted(db)
      else Done(db.(channels := ChannelMerge.Carry(db.channels)))
    case DeleteWrapped =>
      if CHANNELS !in db.tables then Aborted(db)
      else Done(db.(channels := ChannelMerge.DeleteWrapped(db.channels)))
  }

  function RunAll(db: Db, stmts: seq<Stmt>): Outcome
    decreases |stmts|
  {
    if stmts == [] then Done(db)
    else match Apply(db, stmts[0])
      case Done(next) => RunAll(next, stmts[1..])
      case Aborted(d) => Aborted(d)
  }

  /**
   What a statement leaves its caller with: an abort changes nothing, an addition is there
   afterwards, and a statement that has been applied may be applied again to no effect.  The
   carried override of the channel merge is the one that may not.
   */
  lemma AppliesOnce(db: Db, stmt: Stmt)
    ensures Apply(db, stmt).Aborted? ==> Apply(db, stmt).db == db
    ensures Apply(db, stmt).Done? && Additive(stmt) ==> Holds(Apply(db, stmt).db, stmt)
    ensures Apply(db, stmt).Done? && stmt != CarryOverride ==> Apply(Apply(db, stmt).db, stmt) == Apply(db, stmt)
  {
    if stmt == ClearHarvest && Apply(db, stmt).Done? {
      var t := db.tables[TEMPLATES];
      assert HarvestCleared(HarvestCleared(t)) == HarvestCleared(t);
    }
    PartialCloses.RelabelIdempotent(db.closes);
    ChannelMerge.UnpauseIdempotent(db.channels);
    ChannelMerge.MergedIsStable(db.channels);
  }

  /******* Runs and crashes *******/

  function Version(db: Db): nat {
    if db.stamp.Some? then db.stamp.value else 0
  }

  // Everything a run executes, in order: the statements of each pending step, then its stamp.
  datatype Op = Sql(stmt: Stmt) | Stamp(number: nat)

  function Program(steps: seq<Step>, current: nat): seq<Op> {
    if steps == [] then []
    else if steps[0].number <= current then Program(steps[1..], current)
    else StepOps(steps[0]) + Program(steps[1..], current)
  }

  function StepOps(step: Step): seq<Op> {
    SqlOps(step.stmts) + [Stamp(step.number)]
  }

  function SqlOps(stmts: seq<Stmt>): seq<Op> {
    seq(|stmts|, i requires 0 <= i < |stmts| => Sql(stmts[i]))
  }

  function RunOp(db: Db, op: Op): Outcome {
    match op
    case Sql(stmt) => Apply(db, stmt)
    case Stamp(number) => Done(db.(stamp := Some(number)))
  }

  function RunOps(db: Db, ops: seq<Op>): Outcome
    decreases |ops|
  {
    if ops == [] then Done(db)
    else match RunOp(db, ops[0])
      case Done(next) => RunOps(next, ops[1..])
      case Aborted(d) => Aborted(d)
  }

  /** One complete start of the engine. */
  function Boot(db: Db, steps: seq<Step>): Outcome {
    RunOps(db, Program(steps, Version(db)))
  }

  /** A start that dies after its first `k` statements and stamps. */
  function Crash(db: Db, steps: seq<Step>, k: nat): Db {
    var ops := Program(steps, Version(db));
    RunOps(db, ops[..if k <= |ops| then k else |ops|]).db
  }

  function Crashes(db: Db, steps: seq<Step>, ks: seq<nat>): Db
    decreases |ks|
  {
    if ks == [] then db else Crashes(Crash(db, steps, ks[0]), steps, ks[1..])
  }

  /******* The registry's rules *******/

  predicate Additive(stmt: Stmt) { stmt.AddColumn? || stmt.CreateTable? || stmt.CreateIndex? }

  predicate AllAdditive(stmts: seq<Stmt>) { forall s :: s in stmts ==> Additive(s) }

  const NARROW := [RelabelDuplicates, CreateTpIndex(false)]
  const WIDE := [DropTpIndex, CreateTpIndex(true)]
  const MERGE := [UnpauseMerged, CarryOverride, DeleteWrapped]

  // The steps that are not lists of ADD COLUMN / CREATE ... IF NOT EXISTS.
  predicate Special(stmts: seq<Stmt>) {
    || stmts == [RenameFlag]
    || stmts == [ClearHarvest]
    || stmts == NARROW || stmts == WIDE || stmts == MERGE
  }

  /** Strictly increasing numbers, every step additive or one of the known special ones. */
  predicate Ordered(steps: seq<Step>) {
    && (forall i, j :: 0 <= i < j < |steps| ==> steps[i].number < steps[j].number)
    && (forall s :: s in steps ==> AllAdditive(s.stmts) || Special(s.stmts))
  }

  /******* Replaying a step *******/

  // Dying anywhere inside the step and running it again ends like running it once.
  ghost predicate Resumable(db: Db, stmts: seq<Stmt>) {
    forall j :: 0 <= j <= |stmts| ==> RunAll(RunAll(db, stmts[..j]).db, stmts) == RunAll(db, stmts)
  }

  // The effect of an additive statement is present.
  predicate Holds(db: Db, stmt: Stmt) {
    match stmt
    case AddColumn(table, column, _) => table in db.tables && column in db.tables[table].columns
    case CreateTable(table, _) => table in db.tables
    case CreateIndex(name, _) => name in db.indexes
    case _ => true
  }

  lemma {:induction false} RunAllConcat(db: Db, a: seq<Stmt>, b: seq<Stmt>)
    ensures RunAll(db, a + b) == match RunAll(db, a) case Done(d) => RunAll(d, b) case Aborted(d) => Aborted(d)
    decreases |a|
  {
    if a == [] {
      assert a + b == b;
    } else {
      assert (a + b)[1..] == a[1..] + b;
      match Apply(db, a[0])
      case Done(next) => RunAllConcat(next, a[1..], b);
      case Aborted(_) =>
    }
  }

  lemma AdditiveKeeps(db: Db, stmt: Stmt, kept: Stmt)
    requires Additive(stmt) && Holds(db, kept)
    ensures Holds(Apply(db, stmt).db, kept)
  {
  }

  lemma {:induction false} AdditiveRunKeeps(db: Db, stmts: seq<Stmt>, kept: Stmt)
    requires AllAdditive(stmts) && Holds(db, kept)
    ensures Holds(RunAll(db, stmts).db, kept)
    decreases |stmts|
  {
    if stmts != [] {
      AdditiveKeeps(db, stmts[0], kept);
      match Apply(db, stmts[0])
      case Done(next) => AdditiveRunKeeps(next, stmts[1..], kept);
      case Aborted(_) =>
    }
  }

  lemma {:induction false} AdditiveRunHolds(db: Db, stmts: seq<Stmt>, s: Stmt)
    requires AllAdditive(stmts) && RunAll(db, stmts).Done? && s in stmts
    ensures Holds(RunAll(db, stmts).db, s)
    decreases |stmts|
  {
    var next := Apply(db, stmts[0]).db;
    if s == stmts[0] {
      AdditiveRunKeeps(next, stmts[1..], s);
    } else {
      AdditiveRunHolds(next, stmts[1..], s);
    }
  }

  lemma {:induction false} HeldRunIsNoOp(db: Db, stmts: seq<Stmt>)
    requires AllAdditive(stmts) && forall s :: s in stmts ==> Holds(db, s)
    ensures RunAll(db, stmts) == Done(db)
  {
    if stmts != [] {
      assert Additive(stmts[0]) && Holds(db, stmts[0]);
      HeldRunIsNoOp(db, stmts[1..]);
    }
  }

  // Running additive statements again from where they stopped, or were stopped, repeats the outcome.
  lemma AdditiveReplay(db: Db, stmts: seq<Stmt>)
    requires AllAdditive(stmts)
    ensures RunAll(RunAll(db, stmts).db, stmts) == RunAll(db, stmts)
  {
    if RunAll(db, stmts).Done? {
      forall s | s in stmts ensures Holds(RunAll(db, stmts).db, s) {
        AdditiveRunHolds(db, stmts, s);
      }
      HeldRunIsNoOp(RunAll(db, stmts).db, stmts);
    } else {
      AbortedReplay(db, stmts);
    }
  }

  lemma {:induction false} AbortedAt(db: Db, stmts: seq<Stmt>) returns (i: nat)
    requires RunAll(db, stmts).Aborted?
    ensures i < |stmts| && RunAll(db, stmts[..i]).Done?
    ensures Apply(RunAll(db, stmts[..i]).db, stmts[i]) == Aborted(RunAll(db, stmts).db)
    ensures RunAll(db, stmts[..i]).db == RunAll(db, stmts).db
    decreases |stmts|
  {
    match Apply(db, stmts[0])
    case Aborted(_) =>
      i := 0;
    case Done(next) =>
      var rest := AbortedAt(next, stmts[1..]);
      i := rest + 1;
      assert stmts[..i][1..] == stmts[1..][..rest];
  }

  lemma AbortedReplay(db: Db, stmts: seq<Stmt>)
    requires AllAdditive(stmts) && RunAll(db, stmts).Aborted?
    ensures RunAll(RunAll(db, stmts).db, stmts) == RunAll(db, stmts)
  {
    var i := AbortedAt(db, stmts);
    var d := RunAll(db, stmts).db;
    forall s | s in stmts[..i] ensures Holds(d, s) {
      AdditiveRunHolds(db, stmts[..i], s);
    }
    HeldRunIsNoOp(d, stmts[..i]);
    assert stmts == stmts[..i] + stmts[i..];
    RunAllConcat(d, stmts[..i], stmts[i..]);
  }

  lemma AdditiveResumable(db: Db, stmts: seq<Stmt>)
    requires AllAdditive(stmts)
    ensures Resumable(db, stmts)
  {
    forall j | 0 <= j <= |stmts|
      ensures RunAll(RunAll(db, stmts[..j]).db, stmts) == RunAll(db, stmts)
    {
      var d := RunAll(db, stmts[..j]).db;
      assert stmts == stmts[..j] + stmts[j..];
      RunAllConcat(db, stmts[..j], stmts[j..]);
      RunAllConcat(d, stmts[..j], stmts[j..]);
      AdditiveReplay(db, stmts[..j]);
    }
  }

  lemma RenameResumable(db: Db)
    ensures Resumable(db, [RenameFlag])
  {
    var stmts := [RenameFlag];
    assert stmts[..0] == [] && stmts[..1] == stmts;
    assert forall d :: RunAll(d, stmts) == Apply(d, RenameFlag);
  }

  lemma ClearHarvestResumable(db: Db)
    ensures Resumable(db, [ClearHarvest])
  {
    var stmts := [ClearHarvest];
    assert stmts[..0] == [] && stmts[..1] == stmts;
    assert forall d :: RunAll(d, stmts) == Apply(d, ClearHarvest);
    var after := Apply(db, ClearHarvest).db;
    if TEMPLATES in db.tables {
      assert HarvestCleared(HarvestCleared(db.tables[TEMPLATES])) == HarvestCleared(db.tables[TEMPLATES]);
    }
  }

  lemma RunPair(db: Db, a: Stmt, b: Stmt)
    ensures RunAll(db, [a, b]) == match Apply(db, a) case Done(d) => Apply(d, b) case Aborted(d) => Aborted(d)
    ensures RunAll(db, [a, b][..1]) == Apply(db, a)
  {
    assert [a, b][1..] == [b] && [a, b][..1] == [a];
    RunAllConcat(db, [a], [b]);
    assert [a] + [b] == [a, b];
  }

  lemma RelabelResumable(db: Db)
    ensures Resumable(db, NARROW)
  {
    var stmts := NARROW;
    assert stmts[..0] == [] && stmts[..2] == stmts;
    PartialCloses.RelabelIdempotent(db.closes);
    var once := Apply(db, RelabelDuplicates).db;
    RunPair(db, RelabelDuplicates, CreateTpIndex(false));
    RunPair(once, RelabelDuplicates, CreateTpIndex(false));
    RunPair(RunAll(db, stmts).db, RelabelDuplicates, CreateTpIndex(false));
  }

  lemma RebuildResumable(db: Db)
    ensures Resumable(db, WIDE)
  {
    var stmts := WIDE;
    assert stmts[..0] == [] && stmts[..2] == stmts;
    RunPair(db, DropTpIndex, CreateTpIndex(true));
    RunPair(Apply(db, DropTpIndex).db, DropTpIndex, CreateTpIndex(true));
    RunPair(RunAll(db, stmts).db, DropTpIndex, CreateTpIndex(true));
  }

  lemma RunMerge(db: Db)
    requires CHANNELS in db.tables
    ensures var stmts := MERGE;
            var c1 := ChannelMerge.Unpause(db.channels);
            && RunAll(db, stmts[..1]) == Done(db.(channels := c1))
            && RunAll(db, stmts[..2]) == Done(db.(channels := ChannelMerge.Carry(c1)))
            && RunAll(db, stmts) == Done(db.(channels := ChannelMerge.DeleteWrapped(ChannelMerge.Carry(c1))))
  {
    var stmts := MERGE;
    assert stmts[..1] == [UnpauseMerged] && stmts[..2] == [UnpauseMerged, CarryOverride];
    assert stmts == [UnpauseMerged, CarryOverride] + [DeleteWrapped];
    RunPair(db, UnpauseMerged, CarryOverride);
    RunAllConcat(db, [UnpauseMerged, CarryOverride], [DeleteWrapped]);
  }

  lemma MergeResumable(db: Db)
    requires ChannelMerge.NoDeepChain(db.channels)
    ensures Resumable(db, MERGE)
  {
    var stmts := MERGE;
    assert stmts[..0] == [] && stmts[..3] == stmts;
    if CHANNELS in db.tables {
      var c1 := ChannelMerge.Unpause(db.channels);
      ChannelMerge.UnpauseIdempotent(db.channels);
      ChannelMerge.CarryKeepsUnpaused(c1);
      ChannelMerge.UnpauseKeepsNoDeepChain(db.channels);
      ChannelMerge.CarryTwice(c1);
      ChannelMerge.MergedIsStable(ChannelMerge.Carry(c1));
      RunMerge(db);
      RunMerge(db.(channels := c1));
      RunMerge(db.(channels := ChannelMerge.Carry(c1)));
      RunMerge(db.(channels := ChannelMerge.DeleteWrapped(ChannelMerge.Carry(c1))));
    } else {
      forall j | 0 <= j <= |stmts| ensures RunAll(db, stmts[..j]).db == db {
        assert j > 0 ==> stmts[..j][0] == UnpauseMerged;
      }
    }
  }

  /** Every kind of step the registry may hold survives a crash at any of its statements. */
  lemma StepResumable(db: Db, stmts: seq<Stmt>)
    requires AllAdditive(stmts) || Special(stmts)
    requires ChannelMerge.NoDeepChain(db.channels) || stmts != MERGE
    ensures Resumable(db, stmts)
  {
    if AllAdditive(stmts) {
      AdditiveResumable(db, stmts);
    } else if stmts == [RenameFlag] {
      RenameResumable(db);
    } else if stmts == [ClearHarvest] {
      ClearHarvestResumable(db);
    } else if stmts == NARROW {
      RelabelResumable(db);
    } else if stmts == WIDE {
      RebuildResumable(db);
    } else {
      MergeResumable(db);
    }
  }

  /******* Crash and resume *******/

  lemma {:induction false} RunOpsConcat(db: Db, a: seq<Op>, b: seq<Op>)
    ensures RunOps(db, a + b) == match RunOps(db, a) case Done(d) => RunOps(d, b) case Aborted(d) => Aborted(d)
    decreases |a|
  {
    if a == [] {
      assert a + b == b;
    } else {
      assert (a + b)[1..] == a[1..] + b;
      match RunOp(db, a[0])
      case Done(next) => RunOpsConcat(next, a[1..], b);
      case Aborted(_) =>
    }
  }

  lemma {:induction false} RunSqlOps(db: Db, stmts: seq<Stmt>)
    ensures RunOps(db, SqlOps(stmts)) == RunAll(db, stmts)
    ensures RunAll(db, stmts).db.stamp == db.stamp
    decreases |stmts|
  {
    if stmts != [] {
      assert SqlOps(stmts)[1..] == SqlOps(stmts[1..]);
      match Apply(db, stmts[0])
      case Done(next) => RunSqlOps(next, stmts[1..]);
      case Aborted(_) =>
    }
  }

  lemma {:induction false} ProgramSkips(steps: seq<Step>, current: nat, later: nat)
    requires forall s :: s in steps ==> s.number > later >= current
    ensures Program(steps, current) == Program(steps, later)
  {
    if steps != [] {
      assert steps[0] in steps;
      ProgramSkips(steps[1..], current, later);
    }
  }

  lemma OpKeepsNoDeepChain(db: Db, op: Op)
    requires ChannelMerge.NoDeepChain(db.channels)
    ensures ChannelMerge.NoDeepChain(RunOp(db, op).db.channels)
  {
    if op == Sql(UnpauseMerged) {
      ChannelMerge.UnpauseKeepsNoDeepChain(db.channels);
    } else if op == Sql(CarryOverride) {
      ChannelMerge.CarryKeepsNoDeepChain(db.channels);
    } else if op == Sql(DeleteWrapped) {
      ChannelMerge.MergedIsStable(db.channels);
    } else {
      assert RunOp(db, op).db.channels == db.channels;
    }
  }

  lemma {:induction false} KeepsNoDeepChain(db: Db, ops: seq<Op>)
    requires ChannelMerge.NoDeepChain(db.channels)
    ensures ChannelMerge.NoDeepChain(RunOps(db, ops).db.channels)
    decreases |ops|
  {
    if ops != [] {
      OpKeepsNoDeepChain(db, ops[0]);
      if RunOp(db, ops[0]).Done? {
        KeepsNoDeepChain(RunOp(db, ops[0]).db, ops[1..]);
      }
    }
  }

  lemma {:induction false} StampGrows(db: Db, steps: seq<Step>, k: nat)
    requires Ordered(steps) && k <= |Program(steps, Version(db))|
    ensures Version(RunOps(db, Program(steps, Version(db))[..k]).db) >= Version(db)
    decreases |steps|
  {
    if steps == [] || k == 0 {
      assert Program(steps, Version(db))[..0] == [];
    } else if steps[0].number <= Version(db) {
      StampGrows(db, steps[1..], k);
    } else {
      var sql, n := SqlOps(steps[0].stmts), steps[0].number;
      var rest := Program(steps[1..], Version(db));
      var ops := StepOps(steps[0]) + rest;
      if k <= |sql| {
        assert ops[..k] == SqlOps(steps[0].stmts[..k]);
        RunSqlOps(db, steps[0].stmts[..k]);
      } else {
        assert ops[..k] == StepOps(steps[0]) + rest[..k - |sql| - 1];
        RunOpsConcat(db, StepOps(steps[0]), rest[..k - |sql| - 1]);
        RunOpsConcat(db, sql, [Stamp(n)]);
        RunSqlOps(db, steps[0].stmts);
        if RunOps(db, StepOps(steps[0])).Done? {
          var next := RunOps(db, StepOps(steps[0])).db;
          ProgramSkips(steps[1..], Version(db), n);
          StampGrows(next, steps[1..], k - |sql| - 1);
        }
      }
    }
  }

  // The engine's continuation after one step's statements: stamp, then the rest.
  function StampAndGoOn(outcome: Outcome, number: nat, rest: seq<Op>): Outcome {
    if outcome.Aborted? then outcome
    else RunOps(outcome.db.(stamp := Some(number)), rest)
  }

  lemma RunStep(db: Db, step: Step, rest: seq<Op>)
    ensures RunOps(db, StepOps(step) + rest) == StampAndGoOn(RunAll(db, step.stmts), step.number, rest)
  {
    RunOpsConcat(db, StepOps(step), rest);
    RunOpsConcat(db, SqlOps(step.stmts), [Stamp(step.number)]);
    RunSqlOps(db, step.stmts);
  }

  /** What crash-resume rests on: the merge step is not pending, or no override sits deep. */
  ghost predicate Resumes(db: Db, steps: seq<Step>) {
    ChannelMerge.NoDeepChain(db.channels) || forall s :: s in steps && s.number > Version(db) ==> s.stmts != MERGE
  }

  lemma ResumesLater(db: Db, steps: seq<Step>, later: Db)
    requires Resumes(db, steps) && Version(later) >= Version(db)
    requires ChannelMerge.NoDeepChain(db.channels) ==> ChannelMerge.NoDeepChain(later.channels)
    ensures Resumes(later, steps) && (steps != [] ==> Resumes(later, steps[1..]))
  {
  }

  lemma KeepsNoDeepChainIf(db: Db, ops: seq<Op>)
    ensures ChannelMerge.NoDeepChain(db.channels) ==> ChannelMerge.NoDeepChain(RunOps(db, ops).db.channels)
  {
    if ChannelMerge.NoDeepChain(db.channels) {
      KeepsNoDeepChain(db, ops);
    }
  }

  lemma {:induction false} CrashOnce(db: Db, steps: seq<Step>, k: nat)
    requires Ordered(steps) && Resumes(db, steps)
    requires k <= |Program(steps, Version(db))|
    ensures Boot(RunOps(db, Program(steps, Version(db))[..k]).db, steps) == Boot(db, steps)
    decreases |steps|
  {
    var ops := Program(steps, Version(db));
    if steps == [] || k == 0 {
      assert ops[..0] == [];
    } else if steps[0].number <= Version(db) {
      ResumesLater(db, steps, db);
      CrashOnce(db, steps[1..], k);
      StampGrows(db, steps, k);
    } else {
      var step, stmts := steps[0], steps[0].stmts;
      var rest := Program(steps[1..], Version(db));
      assert step in steps;
      StepResumable(db, stmts);
      RunStep(db, step, rest);
      if k <= |stmts| {
        assert ops[..k] == SqlOps(stmts[..k]);
        RunSqlOps(db, stmts[..k]);
        RunStep(RunAll(db, stmts[..k]).db, step, rest);
      } else {
        assert ops[..k] == StepOps(step) + rest[..k - |stmts| - 1];
        RunStep(db, step, rest[..k - |stmts| - 1]);
        CrashLater(db, steps, k - |stmts| - 1);
      }
    }
  }

  // The crash comes after the first step has been stamped, or the first step aborts the run.
  lemma {:induction false} CrashLater(db: Db, steps: seq<Step>, k: nat)
    requires Ordered(steps) && Resumes(db, steps)
    requires steps != [] && steps[0].number > Version(db) && k <= |Program(steps[1..], Version(db))|
    ensures Boot(RunOps(db, StepOps(steps[0]) + Program(steps[1..], Version(db))[..k]).db, steps) == Boot(db, steps)
    decreases |steps|, 0
  {
    var step, rest := steps[0], Program(steps[1..], Version(db));
    RunStep(db, step, rest);
    RunStep(db, step, rest[..k]);
    RunSqlOps(db, step.stmts);
    assert step in steps;
    match RunAll(db, step.stmts)
    case Aborted(d) =>
      StepResumable(db, step.stmts);
      assert step.stmts[..|step.stmts|] == step.stmts;
      RunStep(d, step, rest);
    case Done(d) =>
      var next := d.(stamp := Some(step.number));
      KeepsNoDeepChainIf(db, SqlOps(step.stmts));
      ResumesLater(db, steps, next);
      ProgramSkips(steps[1..], Version(db), step.number);
      CrashOnce(next, steps[1..], k);
      StampGrows(next, steps[1..], k);
  }

  /**
   Any number of crashes, each after any statement or stamp, and a final complete start end
   exactly like one uninterrupted start: same schema, rows, indexes and stamp, or the same abort.
   */
  lemma {:induction false} CrashResume(db: Db, steps: seq<Step>, ks: seq<nat>)
    requires Ordered(steps) && Resumes(db, steps)
    ensures Boot(Crashes(db, steps, ks), steps) == Boot(db, steps)
    decreases |ks|
  {
    if ks != [] {
      var ops := Program(steps, Version(db));
      var k := if ks[0] <= |ops| then ks[0] else |ops|;
      CrashOnce(db, steps, k);
      KeepsNoDeepChainIf(db, ops[..k]);
      StampGrows(db, steps, k);
      ResumesLater(db, steps, Crash(db, steps, ks[0]));
      CrashResume(Crash(db, steps, ks[0]), steps, ks[1..]);
    }
  }

  /** The stamp never decreases, whatever the starting database. */
  lemma {:induction false} StampNeverDecreases(db: Db, steps: seq<Step>, ks: seq<nat>)
    requires Ordered(steps)
    ensures Version(Crashes(db, steps, ks)) >= Version(db)
    decreases |ks|
  {
    if ks != [] {
      var ops := Program(steps, Version(db));
      StampGrows(db, steps, if ks[0] <= |ops| then ks[0] else |ops|);
      StampNeverDecreases(Crash(db, steps, ks[0]), steps, ks[1..]);
    }
  }

  /******* Reaching the head *******/

  lemma {:induction false} HeadReached(db: Db, steps: seq<Step>)
    requires Ordered(steps) && Boot(db, steps).Done?
    ensures forall step :: step in steps ==> step.number <= Version(Boot(db, steps).db)
    ensures Version(Boot(db, steps).db) >= Version(db)
    decreases |steps|
  {
    if steps != [] {
      var step, tail := steps[0], steps[1..];
      assert forall t :: t in steps <==> t == step || t in tail;
      if step.number <= Version(db) {
        HeadReached(db, tail);
      } else {
        RunStep(db, step, Program(tail, Version(db)));
        ProgramSkips(tail, Version(db), step.number);
        HeadReached(RunAll(db, step.stmts).db.(stamp := Some(step.number)), tail);
      }
    }
  }
}
