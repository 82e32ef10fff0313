/**
 The registry itself: all 47 numbered steps, and what the engine guarantees for exactly them.
 */
module Registry {
  import opened Migrations
  import opened Stamps
  import opened LegacyUpgrade
  import opened MergeReplay
  import opened Transactions
  import opened IndexGap
  import opened StatementEffects
  import ChannelMerge
  import PartialCloses

  const TRADES := "vantage_simulated_trades"
  const SIGNALS := "vantage_signals"
  const TG_SIGNALS := "vantage_tg_signals"
  const PENDING := "vantage_pending_orders"
  const EMAIL := "email_config"
  const CREDENTIALS := "mt5_credentials"
  const QUALITY := "execution_quality"

  // A step of the common kind.  None touches the rebranded flag but to add it switched off.
  predicate Plain(stmt: Stmt) {
    Additive(stmt) && FlagSafe(stmt)
  }

  type Additions = stmts: seq<Stmt> | forall i :: 0 <= i < |stmts| ==> Plain(stmts[i])

  function Setting(column: string, default: Value): Stmt {
    AddColumn(SETTINGS, column, default)
  }

  function Rung(before: string, n: nat, after: string): (r: Stmt)
    requires before != "" && before[0] !in {OLD_FLAG[0], FLAG[0]}
    ensures Plain(r)
  {
    var column := before + PartialCloses.Decimal(n) + after;
    assert column[0] == before[0];
    AddColumn(TEMPLATES, column, Num(0.0))
  }

  // The same column for `count` numbers from `first` on.
  function Rungs(before: string, first: nat, count: nat, after: string): Additions
    requires before != "" && before[0] !in {OLD_FLAG[0], FLAG[0]}
  {
    var rungs := seq(count, i requires 0 <= i < count => Rung(before, first + i, after));
    assert forall i :: 0 <= i < count ==> rungs[i] == Rung(before, first + i, after);
    rungs
  }

  function Step2(): Additions {
    [AddColumn(TG_SIGNALS, "group_name", Null), Setting("profit_close_usd", Num(0.0)),
     AddColumn(CREDENTIALS, "live_login", Num(0.0)),
     AddColumn(CREDENTIALS, "live_password_enc", Text("")),
     AddColumn(CREDENTIALS, "live_server", Text("")),
     AddColumn(CREDENTIALS, "live_terminal_path", Null), AddColumn(EMAIL, "mailjet_api_key", Text("")),
     AddColumn(EMAIL, "mailjet_secret_key", Text("")), AddColumn(EMAIL, "resend_api_key", Text(""))]
  }

  function Step3(): Additions {
    [AddColumn(SIGNALS, "tp6", Null), AddColumn(SIGNALS, "tp7", Null), AddColumn(SIGNALS, "tp8", Null),
     AddColumn(TRADES, "tp6", Null), AddColumn(TRADES, "tp7", Null), AddColumn(TRADES, "tp8", Null),
     AddColumn(TG_SIGNALS, "tp6", Null), AddColumn(TG_SIGNALS, "tp7", Null),
     AddColumn(TG_SIGNALS, "tp8", Null)]
  }

  function Step4a(): Additions {
    [Setting("display_strategy_id", Text("")), Setting("dpm_enabled", Num(0.0)),
     Setting("dpm_be_trigger_usd", Num(5.0)), Setting("dpm_trail_distance", Num(8.0)),
     Setting("dpm_tp1_partial_pct", Num(50.0)), Setting("ooh_enabled", Num(0.0)),
     Setting("ooh_start_time", Text("22:00"))]
  }

  function Step4b(): Additions {
    [Setting("ooh_end_time", Text("07:00")), Setting("ooh_strategy", Text("conservative")),
     Setting("ooh_date_from", Text("")), Setting("ooh_date_to", Text("")),
     Setting("ooh_date_active", Num(0.0)), Setting("immediate_market_entry", Num(0.0)),
     Setting("exclude_high_risk", Num(0.0))]
  }

  function Step4(): Additions { Step4a() + Step4b() }

  function Step5a(): Additions {
    [AddColumn("dpm_trade_performance", "tg_source", Null),
     AddColumn(EMAIL, "send_provider", Text("resend")), Setting("risk_governor_enabled", Num(0.0)),
     AddColumn(TRADES, "max_tp_hit", Null), Setting("accept_tg_signals", Num(1.0)),
     Setting("sg_live_execution", Num(0.0)), Setting("bo_live_execution", Num(0.0)),
     Setting("unattended_mode", Num(0.0))]
  }

  function Step5b(): Additions {
    [Setting("session_asia_enabled", Num(1.0)), Setting("session_london_enabled", Num(1.0)),
     Setting("session_ny_enabled", Num(1.0)), Setting("circuit_breaker_enabled", Num(0.0)),
     Setting("circuit_breaker_losses", Num(3.0)), Setting("circuit_breaker_cooldown_mins", Num(60.0)),
     Setting("circuit_breaker_active_until", Num(0.0)),
     Setting("circuit_breaker_consec_losses", Num(0.0))]
  }

  function Step5c(): Additions {
    [Setting("trail_stop_sl_pts", Num(5.0)), Setting("sg_claude_eval_enabled", Num(1.0)),
     Setting("bo_claude_eval_enabled", Num(1.0)), Setting("atr_collapse_threshold", Num(0.65)),
     Setting("kelly_sizing_enabled", Num(0.0)), Setting(FLAG, Num(0.0))]
  }

  function Step5(): Additions { Step5a() + Step5b() + Step5c() }

  function Step6(): Additions {
    [AddColumn(CHANNELS, "strategy_override", Null), AddColumn(CHANNELS, "auto_strategy", Num(0.0)),
     CreateTable("channel_strategy_rec", {"source", "strategy", "reasoning", "confidence", "updated_at"})]
  }

  function Step7(): Additions {
    [AddColumn(TRADES, "managed_by", Text("python")), Setting("ea_bridge_enabled", Num(0.0)),
     Setting("hour_blocklist_enabled", Num(0.0))]
  }

  function Step8(): Additions {
    [AddColumn("ai_recovered_signals", "message_type", Text("signal")),
     AddColumn("ai_recovered_signals", "new_stop_loss", Null),
     AddColumn(EMAIL, "orb_report_enabled", Num(1.0)), Setting("orb_auto_execute_enabled", Num(0.0)),
     Setting("orb_lot_size", Num(0.0))]
  }

  function Step9(): Additions {
    [Setting("centralized_signal_gen_enabled", Num(0.0)), AddColumn(TRADES, "tp_open", Num(0.0)),
     CreateTable(PENDING, {"trade_id", "signal_id", "tg_message_id", "channel_name", "direction", "price",
       "stop_loss", "tps_json", "pcts_json", "be_at_pos", "tp_open", "lot_size", "ea_ticket", "status",
       "created_at", "resolved_at"}),
     AddColumn(PENDING, "strategy", Text("limit_runner"))]
  }

  function Step10a(): Additions {
    [CreateTable("logic_keyword_lexicons", {"category", "phrases_json"}),
     CreateTable("logic_keyword_triggers_applied", {"tg_message_id", "trigger_type", "applied_at"}),
     Setting("lk_enable_tp_parsing", Num(1.0)), Setting("lk_enable_sl_parsing", Num(1.0)),
     Setting("lk_enable_close_all_parsing", Num(1.0))]
  }

  function Step10b(): Additions {
    [Setting("lk_enable_risk_free_be_parsing", Num(1.0)), Setting("lk_enable_tp_hit_parsing", Num(1.0)),
     Setting("lk_ignore_media_messages", Num(1.0)), Setting("lk_ignore_forwarded_messages", Num(0.0)),
     Setting("re_use_limit_order", Num(0.0))]
  }

  function Step10(): Additions { Step10a() + Step10b() }

  function Step11(): Additions {
    [AddColumn(TRADES, "order_type", Text("market")), AddColumn(TRADES, "pending_placed_at", Null),
     Setting("lk_entry_realignment", Num(0.0)), Setting("strategy_lot_size_grid", Num(0.0)),
     Setting("global_harvest_enabled", Num(0.0)), Setting("global_harvest_threshold_usd", Num(50.0))]
  }

  function Step12(): Additions {
    Rungs("tp", 1, 8, "_pips") + Rungs("tp", 1, 8, "_pct")
  }

  function Step13(): Additions {
    [Setting("internal_hedge_mode", Text("off")), Setting("internal_net_exposure_max_lots", Num(0.30))]
  }

  function Step14(): Additions {
    [Setting("giveback_guard_enabled", Num(0.0)), Setting("giveback_arm_usd", Num(50.0)),
     Setting("giveback_pct", Num(40.0))]
  }

  function Step15(): Additions {
    [CreateTable("vantage_second_message_holds", {"tg_message_id", "channel_name", "partial_json",
       "levels_json", "first_seen_at", "status"}),
     CreateTable("vantage_closed_market_queue", {"tg_message_id", "channel_name", "source_label",
       "parsed_json", "queued_at", "status"}),
     Setting("lk_enable_mirror_copy", Num(0.0)), Setting("lk_queue_closed_market_limits", Num(0.0)),
     Setting("lk_enable_second_message_tp_sl", Num(0.0)),
     Setting("lk_second_message_match_window_sec", Num(120.0)),
     Setting("re_require_ref_confirmation", Num(0.0)),
     Setting("re_ref_confirmation_window_min", Num(60.0)), Setting("re_learn_from_ref_signals", Num(0.0))]
  }

  function Step16(): Additions {
    [AddColumn(TEMPLATES, "group_tp_action", Num(0.0))]
  }

  function Step17a(): Additions {
    [AddColumn(TEMPLATES, "anchors", Num(1.0)), AddColumn(TEMPLATES, "pendings", Num(1.0)),
     AddColumn(TEMPLATES, "lot_anchor", Num(0.01)), AddColumn(TEMPLATES, "lot_pending", Num(0.01)),
     AddColumn(TEMPLATES, "sl_pips", Num(50.0)), AddColumn(TEMPLATES, "risk_pct", Num(0.0)),
     AddColumn(TEMPLATES, "equity_protect", Num(0.0))]
  }

  function Step17b(): Additions {
    [AddColumn(TEMPLATES, "late_guard_pips", Num(0.0)), AddColumn(TEMPLATES, "anc_shave", Num(1.0)),
     AddColumn(TEMPLATES, "auto_sl", Num(1.0)), AddColumn(TEMPLATES, "partials", Num(1.0)),
     AddColumn(TEMPLATES, "cancel_pending_level", Num(0.0)),
     AddColumn(TEMPLATES, "trail_distance", Num(50.0)), AddColumn(TEMPLATES, "trail_step", Num(10.0))]
  }

  function Step17c(): Additions {
    [AddColumn(TEMPLATES, "trail_activation", Num(100.0)),
     AddColumn(TEMPLATES, "trail_padding", Num(0.0)), AddColumn(TEMPLATES, "max_spread_pips", Num(6.0)),
     AddColumn(TEMPLATES, "slippage", Num(20.0)), AddColumn(TEMPLATES, "harvest_pips", Num(1.0)),
     AddColumn(TEMPLATES, "signal_max_age_sec", Num(10.0))]
  }

  function Step17(): Additions { Step17a() + Step17b() + Step17c() }

  function Step18(): Additions {
    Rungs("tp", 9, 2, "_pips") + Rungs("tp", 9, 2, "_pct")
  }

  function Step19(): Additions {
    Rungs("tp_pen", 1, 10, "_pips") + Rungs("tp_pen", 1, 10, "_pct")
  }

  function Step20a(): Additions {
    [AddColumn(TEMPLATES, "use_dynamic_atr", Num(0.0)), AddColumn(TEMPLATES, "atr_period", Num(14.0)),
     AddColumn(TEMPLATES, "atr_sl_mult", Num(1.5)), AddColumn(TEMPLATES, "atr_tp1_mult", Num(1.5)),
     AddColumn(TEMPLATES, "guard_pips", Num(10.0)), AddColumn(TEMPLATES, "safety_cap_pips", Num(10.0))]
  }

  function Step20b(): Additions {
    [AddColumn(TEMPLATES, "use_emergency_sl", Num(0.0)),
     AddColumn(TEMPLATES, "emergency_sl_mult", Num(2.0)),
     AddColumn(TEMPLATES, "signal_rr_ratio", Num(0.0)),
     AddColumn(TEMPLATES, "tp1_trigger_level", Num(1.0)),
     AddColumn(TEMPLATES, "manual_sl_push_pips", Num(10.0)),
     AddColumn(TEMPLATES, "gold_half_pip_anchor", Num(0.0))]
  }

  function Step20(): Additions { Step20a() + Step20b() }

  function Step21(): Additions {
    [AddColumn(TEMPLATES, "tp_from_telegram", Num(0.0)),
     AddColumn(TEMPLATES, "tp_pen_from_telegram", Num(0.0))]
  }

  function Step22(): Additions {
    [AddColumn(TEMPLATES, "close_full_on_last", Num(1.0))]
  }

  function Step23(): Additions {
    [AddColumn(TEMPLATES, "pending_mode", Text("zone")), AddColumn(TEMPLATES, "sig_guard_pips", Num(0.0))]
  }

  function Step24(): Additions {
    [AddColumn(TRADES, "grid_legs_total", Null), AddColumn(TRADES, "grid_legs_cancelled", Num(0.0))]
  }

  function Step25(): Additions {
    [Setting("lk_fallback_sl_pips", Num(50.0))]
  }

  function Step26(): Additions {
    [AddColumn(TRADES, "initial_sl", Null), AddColumn(TRADES, "initial_risk", Null)]
  }

  function Step27(): Additions {
    Rungs("sl_stage", 1, 3, "_trigger_pips") + Rungs("sl_stage", 1, 3, "_target_pips")
    + Rungs("sl_stage", 1, 3, "_remove_tp")
  }

  function Step28(): Additions {
    [AddColumn(TEMPLATES, "basket_harvest_threshold", Num(0.0))]
  }

  function Step31(): Additions {
    [Setting("trading_clock_offset_min", Null)]
  }

  function Step34(): Additions {
    [Setting("ooh_timezone", Text(""))]
  }

  function Step35(): Additions {
    [Setting("htf_bias_gate_enabled", Num(0.0))]
  }

  function Step36(): Additions {
    [Setting("min_fill_delay_enabled", Num(0.0)), Setting("min_fill_delay_s", Num(300.0))]
  }

  function Step37(): Additions {
    [Setting("resting_revalidation_enabled", Num(1.0))]
  }

  function Step38(): Additions {
    [AddColumn(PENDING, "withdraw_count", Num(0.0))]
  }

  function Step39(): Additions {
    [AddColumn(TEMPLATES, "atr_ladder_scale", Num(0.0))]
  }

  function Step40(): Additions {
    [CreateTable(QUALITY, {"trade_id", "mt5_ticket", "measured_at", "open_time", "direction", "strategy",
       "bucket", "requested_price", "fill_price", "slippage_pts", "spread_open_pts", "spread_close_pts",
       "spread_cost_pts", "cost_pts", "sl_dist", "cost_r", "fill_delay_s", "measured"}),
     CreateIndex("idx_execquality_open", QUALITY)]
  }

  function Step41a(): Additions {
    [Setting("re_atr_barriers_enabled", Num(0.0)), Setting("re_atr_stop_mult", Num(1.2)),
     Setting("re_atr_tp1_mult", Num(1.2)), Setting("entry_trigger_enabled", Num(0.0)),
     Setting("entry_trigger_rejection", Num(0.0)), Setting("entry_trigger_deceleration", Num(0.0)),
     Setting("entry_trigger_max_range_ratio", Num(0.5))]
  }

  function Step41b(): Additions {
    [Setting("meta_label_gate_enabled", Num(0.0)), Setting("meta_label_threshold", Num(0.5)),
     Setting("session_liquidity_gate_enabled", Num(0.0)), Setting("event_tier_gate_enabled", Num(0.0)),
     Setting("vol_target_sizing_enabled", Num(0.0)), Setting("correlated_exposure_cap_lots", Num(0.0)),
     Setting("liquidity_map_levels_enabled", Num(0.0))]
  }

  function Step41(): Additions { Step41a() + Step41b() }

  function Step42(): Additions {
    [AddColumn(QUALITY, "broker_slippage_pts", Null), AddColumn(QUALITY, "entry_drift_pts", Null)]
  }

  function Step43(): Additions {
    [Setting("re_blocked_level_types", Text(""))]
  }

  function Step44(): Additions {
    [Setting("re_ai_tuning_enabled", Num(0.0))]
  }

  function Step45(): Additions {
    [Setting("htf_bias_asian_exempt", Num(0.0))]
  }

  function Step46(): Additions {
    [Setting("re_cme_context_enabled", Num(0.0))]
  }

  function Step47(): Additions {
    [Setting("tg_decision_log_enabled", Num(0.0))]
  }

  /******* The list *******/

  function EarlySteps(): seq<Step> {
    [Step(1, [RenameFlag]), Step(2, Step2()), Step(3, Step3()), Step(4, Step4()), Step(5, Step5()),
     Step(6, Step6()), Step(7, Step7()), Step(8, Step8()), Step(9, Step9()), Step(10, Step10()),
     Step(11, Step11()), Step(12, Step12())]
  }

  // Upstream's own steps, taken over at the merge.
  function UpstreamSteps(): seq<Step> {
    [Step(13, Step13()), Step(14, Step14()), Step(15, Step15()), Step(16, Step16()), Step(17, Step17()),
     Step(18, Step18()), Step(19, Step19()), Step(20, Step20()), Step(21, Step21()), Step(22, Step22()),
     Step(23, Step23()), Step(24, Step24()), Step(25, Step25()), Step(26, Step26()), Step(27, Step27()),
     Step(28, Step28())]
  }

  function LaterSteps(): seq<Step> {
    [Step(29, [ClearHarvest]), Step(30, NARROW), Step(31, Step31()), Step(32, WIDE), Step(33, MERGE),
     Step(34, Step34()), Step(35, Step35()), Step(36, Step36()), Step(37, Step37()), Step(38, Step38())]
  }

  // steps_recent.py, which steps.py appends to its own list.
  function RecentSteps(): seq<Step> {
    [Step(39, Step39()), Step(40, Step40()), Step(41, Step41()), Step(42, Step42()), Step(43, Step43()),
     Step(44, Step44()), Step(45, Step45()), Step(46, Step46()), Step(47, Step47())]
  }

  function Steps(): seq<Step> { EarlySteps() + UpstreamSteps() + LaterSteps() + RecentSteps() }

  /******* The list keeps the rules *******/

  predicate PlainStep(step: Step) { forall i :: 0 <= i < |step.stmts| ==> Plain(step.stmts[i]) }

  // Consecutive steps from number `first` on, all plain but for the odd ones out.
  predicate Numbered(steps: seq<Step>, first: nat, odd: set<nat>) {
    forall i :: 0 <= i < |steps| ==> steps[i].number == first + i && (first + i in odd || PlainStep(steps[i]))
  }

  lemma NumberedConcat(a: seq<Step>, b: seq<Step>, first: nat, odd: set<nat>)
    requires Numbered(a, first, odd) && Numbered(b, first + |a|, odd)
    ensures Numbered(a + b, first, odd)
  {
  }

  const ODD: set<nat> := {1, 29, 30, 32, 33}

  lemma EarlyRules()
    ensures Numbered(EarlySteps(), 1, ODD) && |EarlySteps()| == 12
    ensures EarlySteps()[0] == Step(1, [RenameFlag]) && EarlySteps()[4] == Step(5, Step5())
    ensures EarlySteps()[6] == Step(7, Step7()) && EarlySteps()[10] == Step(11, Step11())
  {
  }

  lemma UpstreamRules()
    ensures Numbered(UpstreamSteps(), 13, ODD) && |UpstreamSteps()| == 16
  {
  }

  lemma LaterRules()
    ensures Numbered(LaterSteps(), 29, ODD) && |LaterSteps()| == 10
    ensures LaterSteps()[0] == Step(29, [ClearHarvest])
    ensures LaterSteps()[1] == Step(30, NARROW)
    ensures LaterSteps()[3] == Step(32, WIDE)
    ensures LaterSteps()[4] == Step(33, MERGE)
  {
  }

  lemma RecentRules()
    ensures Numbered(RecentSteps(), 39, ODD) && |RecentSteps()| == 9
  {
  }

  /** What the results below use of the list: it reads 1..47 in order, and all but five steps only add. */
  predicate Listed(steps: seq<Step>) {
    && |steps| == 47 && Numbered(steps, 1, ODD)
    && steps[0] == Step(1, [RenameFlag]) && steps[28] == Step(29, [ClearHarvest])
    && steps[29] == Step(30, NARROW) && steps[31] == Step(32, WIDE) && steps[32] == Step(33, MERGE)
    && Adds(steps[4], SETTINGS, FLAG) && Adds(steps[4], SETTINGS, "circuit_breaker_enabled")
    && Adds(steps[6], TRADES, "managed_by") && Adds(steps[10], TRADES, "order_type")
  }

  predicate Adds(step: Step, table: string, column: string) {
    exists s :: s in step.stmts && s.AddColumn? && s.table == table && s.column == column
  }

  lemma Assembled(early: seq<Step>, upstream: seq<Step>, later: seq<Step>, recent: seq<Step>,
                  five: Step, seven: Step, eleven: Step)
    requires Numbered(early, 1, ODD) && |early| == 12 && early[0] == Step(1, [RenameFlag])
    requires early[4] == five && Adds(five, SETTINGS, FLAG) && Adds(five, SETTINGS, "circuit_breaker_enabled")
    requires early[6] == seven && Adds(seven, TRADES, "managed_by")
    requires early[10] == eleven && Adds(eleven, TRADES, "order_type")
    requires Numbered(upstream, 13, ODD) && |upstream| == 16
    requires Numbered(later, 29, ODD) && |later| == 10
    requires later[0] == Step(29, [ClearHarvest]) && later[1] == Step(30, NARROW)
    requires later[3] == Step(32, WIDE) && later[4] == Step(33, MERGE)
    requires Numbered(recent, 39, ODD) && |recent| == 9
    ensures Listed(early + upstream + later + recent)
  {
    NumberedConcat(early, upstream, 1, ODD);
    NumberedConcat(early + upstream, later, 1, ODD);
    NumberedConcat(early + upstream + later, recent, 1, ODD);
    var steps := early + upstream + later + recent;
    assert forall i :: 0 <= i < 12 ==> steps[i] == early[i];
    assert forall i :: 0 <= i < 10 ==> steps[28 + i] == later[i];
  }

  lemma Step7Adds()
    ensures Adds(Step(7, Step7()), TRADES, "managed_by")
  {
    AddsAt(Step7(), 0);
  }

  lemma Step11Adds()
    ensures Adds(Step(11, Step11()), TRADES, "order_type")
  {
    AddsAt(Step11(), 0);
  }

  lemma Step5Adds()
    ensures Adds(Step(5, Step5()), SETTINGS, FLAG)
    ensures Adds(Step(5, Step5()), SETTINGS, "circuit_breaker_enabled")
  {
    var a, b, c := |Step5a()|, |Step5b()|, |Step5c()|;
    assert Step5()[a + b + c - 1] == Step5c()[c - 1];
    assert Step5()[a + 3] == Step5b()[3];
    AddsAt(Step5(), a + b + c - 1);
    AddsAt(Step5(), a + 3);
  }

  lemma AddsAt(stmts: seq<Stmt>, i: nat)
    requires i < |stmts| && stmts[i].AddColumn?
    ensures forall n :: Adds(Step(n, stmts), stmts[i].table, stmts[i].column)
  {
    assert stmts[i] in stmts;
  }

  /** The registry is such a list. */
  lemma RegistryIsListed()
    ensures Listed(Steps())
  {
    EarlyRules();
    Step5Adds();
    Step7Adds();
    Step11Adds();
    UpstreamRules();
    LaterRules();
    RecentRules();
    Assembled(EarlySteps(), UpstreamSteps(), LaterSteps(), RecentSteps(),
              Step(5, Step5()), Step(7, Step7()), Step(11, Step11()));
  }

  lemma PlainIsNotSpecial(step: Step)
    requires PlainStep(step)
    ensures AllAdditive(step.stmts) && !Special(step.stmts)
    ensures forall s :: s in step.stmts ==> FlagSafe(s)
  {
    AdditiveIsNotSpecial(step.stmts);
  }

  lemma KnownStep(steps: seq<Step>, i: nat)
    requires Listed(steps) && i < 47
    ensures AllAdditive(steps[i].stmts) || Special(steps[i].stmts)
    ensures i > 0 ==> forall s :: s in steps[i].stmts ==> FlagSafe(s)
    ensures steps[i].stmts == WIDE ==> i == 31
    ensures steps[i].stmts == MERGE ==> i == 32
  {
    assert steps[i].number == 1 + i;
    if i + 1 !in ODD {
      PlainIsNotSpecial(steps[i]);
    } else {
      assert WIDE[0] == DropTpIndex && MERGE[0] == UnpauseMerged && NARROW[0] == RelabelDuplicates;
      assert [RenameFlag][0] == RenameFlag && [ClearHarvest][0] == ClearHarvest;
    }
  }

  lemma ListedIsWellFormed(steps: seq<Step>)
    requires Listed(steps)
    ensures WellFormed(steps) && forall s :: s in steps ==> s.number > 0
  {
    forall i | 0 <= i < 47
      ensures AllAdditive(steps[i].stmts) || Special(steps[i].stmts)
      ensures forall s :: s in steps[i].stmts && s.AddColumn? ==> s.column != OLD_FLAG
      ensures steps[i].stmts == WIDE ==> i == 31
    {
      KnownStep(steps, i);
    }
  }

  lemma AddsBySome(steps: seq<Step>, i: nat, table: string, column: string)
    requires i < |steps| && Adds(steps[i], table, column)
    ensures AddedBySome(steps, (table, column))
  {
    assert steps[i] in steps;
  }

  lemma CriticalColumnsAdded(steps: seq<Step>)
    requires Listed(steps)
    ensures AddedBySome(steps, (SETTINGS, FLAG)) && AddedBySome(steps, (SETTINGS, "circuit_breaker_enabled"))
    ensures AddedBySome(steps, (TRADES, "managed_by")) && AddedBySome(steps, (TRADES, "order_type"))
  {
    AddsBySome(steps, 4, SETTINGS, FLAG);
    AddsBySome(steps, 4, SETTINGS, "circuit_breaker_enabled");
    AddsBySome(steps, 6, TRADES, "managed_by");
    AddsBySome(steps, 10, TRADES, "order_type");
  }

  lemma ListedFlagRules(steps: seq<Step>)
    requires Listed(steps)
    ensures FlagRules(steps)
  {
    ListedIsWellFormed(steps);
    AddsBySome(steps, 4, SETTINGS, FLAG);
    forall i | 1 <= i < 47
      ensures forall s :: s in steps[i].stmts ==> FlagSafe(s)
    {
      KnownStep(steps, i);
    }
  }

  /******* What holds of the registry *******/

  lemma NoOtherMerge(steps: seq<Step>, i: nat, j: nat)
    requires Listed(steps) && i <= j <= 47 && (j <= 32 || i > 32)
    ensures StepsLeaveChannels(steps[i..j])
  {
    forall k | i <= k < j ensures steps[k].stmts != MERGE {
      KnownStep(steps, k);
    }
  }

  lemma SplitAt(steps: seq<Step>, i: nat) returns (p: Parts)
    requires Ordered(steps) && i < |steps| && steps[i].stmts == MERGE
    requires StepsLeaveChannels(steps[..i]) && StepsLeaveChannels(steps[i + 1..])
    ensures p == Parts(steps[..i], steps[i], steps[i + 1..]) && p.All() == steps && Split(p)
  {
    p := Parts(steps[..i], steps[i], steps[i + 1..]);
    assert p.All() == steps;
  }

  lemma ListedSplits(steps: seq<Step>) returns (p: Parts)
    requires Listed(steps)
    ensures p == Parts(steps[..32], Step(33, MERGE), steps[33..]) && p.All() == steps && Split(p)
  {
    ListedIsWellFormed(steps);
    NoOtherMerge(steps, 0, 32);
    NoOtherMerge(steps, 33, 47);
    assert steps[33..] == steps[33..47] && steps[..32] == steps[0..32];
    p := SplitAt(steps, 32);
  }

  /**
   Crash-resume for the registry: whatever the crashes, a complete start ends exactly like one
   clean run, unless step 33 is still pending and an override sits deep in a chain of wrapped
   channels.
   */
  lemma RegistryResumes(steps: seq<Step>, db: Db, ks: seq<nat>)
    requires Listed(steps)
    requires Version(db) >= 33 || ChannelMerge.NoDeepChain(db.channels)
    ensures Boot(Crashes(db, steps, ks), steps) == Boot(db, steps)
  {
    ListedIsWellFormed(steps);
    forall s | s in steps && s.number > 33 ensures s.stmts != MERGE {
      var i :| 0 <= i < 47 && steps[i] == s;
      KnownStep(steps, i);
    }
    CrashResume(db, steps, ks);
  }

  /** And that condition is exact for every database whose run gets as far as step 33. */
  lemma RegistryResumesExactly(steps: seq<Step>, db: Db)
    requires Listed(steps)
    requires CHANNELS in db.tables && Boot(db, steps[..32]).Done?
    ensures (forall ks: seq<nat> :: Boot(Crashes(db, steps, ks), steps) == Boot(db, steps))
            <==> Version(db) >= 33 || ChannelMerge.NoDeepChain(db.channels)
  {
    if Version(db) >= 33 {
      forall ks: seq<nat> ensures Boot(Crashes(db, steps, ks), steps) == Boot(db, steps) {
        RegistryResumes(steps, db, ks);
      }
    } else {
      var p := ListedSplits(steps);
      MergeResumesExactly(db, p);
    }
  }

  lemma ListedRebuilds(steps: seq<Step>, db: Db)
    requires Listed(steps)
    ensures Rebuilding(steps) && FollowsOn(db, steps) && steps[31].number == 32 && steps[31] in steps
  {
    forall s | s in steps ensures TpKind(s) {
      var i :| 0 <= i < 47 && steps[i] == s;
      assert s.number == 1 + i;
      KnownStep(steps, i);
      if i == 30 {
        PlainIsNotSpecial(s);
      }
    }
  }

  /** The step is applied, the index it builds included. */
  predicate FullyApplied(db: Db, step: Step) {
    StepHolds(db, step) && (step.stmts == NARROW ==> db.tpIndex.Some?)
  }

  /**
   From any unstamped database, through any crashes, stamp n means steps 1..n are applied in full,
   with one exception: step 30's index is missing under stamp 31 iff the last crash that executed
   anything struck right after step 32 dropped it.
   */
  lemma RegistryStamp(steps: seq<Step>, db: Db, ks: seq<nat>, n: nat)
    requires Listed(steps) && Version(db) == 0
    requires 1 <= n <= 47 && n <= Version(Crashes(db, steps, ks))
    ensures var after := Crashes(db, steps, ks);
            && StepHolds(after, steps[n - 1])
            && (FullyApplied(after, steps[n - 1]) <==> !(n == 30 && Version(after) == 31 && LastStruck(db, steps, ks)))
  {
    ListedIsWellFormed(steps);
    ListedRebuilds(steps, db);
    StampMeansApplied(db, steps, ks);
    IndexMissingExactly(db, steps, ks);
    assert steps[n - 1] in steps && steps[n - 1].number == n;
    NarrowIsThirty(steps, n);
    if Version(Crashes(db, steps, ks)) >= 32 {
      assert steps[31] in steps && StepHolds(Crashes(db, steps, ks), steps[31]);
    }
  }

  lemma NarrowIsThirty(steps: seq<Step>, n: nat)
    requires Listed(steps) && 1 <= n <= 47
    ensures steps[n - 1].stmts == NARROW <==> n == 30
  {
    assert steps[n - 1].number == n;
    if n !in ODD {
      PlainIsNotSpecial(steps[n - 1]);
    } else {
      assert NARROW[0] == RelabelDuplicates && WIDE[0] == DropTpIndex && MERGE[0] == UnpauseMerged;
      assert [RenameFlag][0] == RenameFlag && [ClearHarvest][0] == ClearHarvest;
    }
  }

  /**
   The same under the application's transaction, from any database whose stamp tells the truth:
   there the index goes missing only on a database already stamped 31.
   */
  lemma RegistryTransactionalStamp(steps: seq<Step>, db: Db, ks: seq<nat>, n: nat)
    requires Listed(steps) && (forall s :: s in steps && s.number <= Version(db) ==> FullyApplied(db, s))
    requires Between(db) ==> CLOSES in db.tables
    requires 1 <= n <= 47 && n <= Version(db)
    ensures var after := TxCrashes(db, steps, ks);
            && Version(after) == Version(db) && StepHolds(after, steps[n - 1])
            && (FullyApplied(after, steps[n - 1]) <==> !(n == 30 && Version(db) == 31 && LastIsOne(ks)))
  {
    ListedIsWellFormed(steps);
    ListedRebuilds(steps, db);
    TransactionalStamp(db, steps, ks);
    TransactionalResumes(db, steps, ks);
    assert steps[n - 1] in steps && steps[n - 1].number == n;
    NarrowIsThirty(steps, n);
    if Between(db) {
      assert steps[29] in steps && steps[29] == Step(30, NARROW) && FullyApplied(db, steps[29]);
      TxIndexMissingExactly(db, steps, ks);
    } else if Version(db) >= 32 {
      assert steps[31] in steps && StepHolds(TxCrashes(db, steps, ks), steps[31]);
    }
  }

  // The columns of the base schema that the registry takes for granted.
  predicate BaseSchema(db: Db) {
    HasColumn(db, (TRADES, "trade_id")) && HasColumn(db, (SIGNALS, "signal_id")) && HasColumn(db, (SIGNALS, "status"))
  }

  lemma CriticalCovered(steps: seq<Step>, db: Db)
    requires Listed(steps) && BaseSchema(db)
    ensures forall at :: at in CRITICAL ==> HasColumn(db, at) || AddedBySome(steps, at)
  {
    CriticalColumnsAdded(steps);
  }

  /** A start of the registry that completes, after any crashes, passes the critical-schema check. */
  lemma RegistryIsVerified(steps: seq<Step>, db: Db, ks: seq<nat>)
    requires Listed(steps) && Version(db) == 0 && BaseSchema(db)
    requires Boot(Crashes(db, steps, ks), steps).Done?
    ensures var final := Boot(Crashes(db, steps, ks), steps).db;
            && Verified(final)
            && HasColumn(final, (TRADES, "trade_id")) && HasColumn(final, (TRADES, "managed_by"))
            && HasColumn(final, (TRADES, "order_type"))
            && HasColumn(final, (SETTINGS, "circuit_breaker_enabled")) && HasColumn(final, (SETTINGS, FLAG))
            && HasColumn(final, (SIGNALS, "signal_id")) && HasColumn(final, (SIGNALS, "status"))
  {
    ListedIsWellFormed(steps);
    CriticalCovered(steps, db);
    CompletedRunIsVerified(db, steps, ks);
  }

  /** Every unstamped install keeps its live-execution switch, or gets it switched off. */
  lemma RegistryKeepsFlag(steps: seq<Step>, db: Db, ks: seq<nat>, r: nat)
    requires Listed(steps) && Version(db) == 0 && SettingsRow(db, r)
    requires Boot(Crashes(db, steps, ks), steps).Done?
    ensures var final := Boot(Crashes(db, steps, ks), steps).db;
            SettingsRow(final, r) && FLAG in final.tables[SETTINGS].columns
            && final.tables[SETTINGS].rows[r][FLAG] == ExpectedFlag(db, r)
  {
    ListedFlagRules(steps);
    FlagSurvives(db, steps, ks, r);
  }

  const SIGNALS_FLAG := "accept_tg_signals"

  lemma Step5Signals()
    ensures var stmts := Step5();
            && |stmts| > 4 && stmts[4] == Setting(SIGNALS_FLAG, Num(1.0))
            && forall j :: 0 <= j < 4 ==> !Brings(Sql(stmts[j]), SETTINGS, SIGNALS_FLAG)
  {
    var stmts := Step5();
    assert forall j :: 0 <= j <= 4 ==> stmts[j] == Step5a()[j];
    assert stmts[2].column[0] != SIGNALS_FLAG[0];
  }

  /** An install upgraded from stamp 4 takes Telegram signals as before: the new switch comes out on. */
  lemma RegistryTakesSignals(steps: seq<Step>, db: Db, ks: seq<nat>, r: nat)
    requires Listed(steps) && steps[4].stmts == Step5()
    requires Version(db) == 4 && ChannelMerge.NoDeepChain(db.channels)
    requires Filled(db) && LacksColumn(db, SETTINGS, r, SIGNALS_FLAG)
    requires Boot(Crashes(db, steps, ks), steps).Done?
    ensures var final := Boot(Crashes(db, steps, ks), steps).db;
            HasCell(final, SETTINGS, r, SIGNALS_FLAG) && Cell(final, SETTINGS, r, SIGNALS_FLAG) == Num(1.0)
  {
    RegistryResumes(steps, db, ks);
    Step5Signals();
    FifthFills(steps, db, r, SIGNALS_FLAG, Num(1.0));
  }

  lemma FifthFills(steps: seq<Step>, db: Db, r: nat, column: string, default: Value)
    requires Listed(steps) && Version(db) == 4 && Boot(db, steps).Done?
    requires Filled(db) && LacksColumn(db, SETTINGS, r, column) && column != OLD_FLAG
    requires |steps[4].stmts| > 4 && steps[4].stmts[4] == Setting(column, default)
    requires forall j :: 0 <= j < 4 ==> !Brings(Sql(steps[4].stmts[j]), SETTINGS, column)
    ensures var final := Boot(db, steps).db;
            HasCell(final, SETTINGS, r, column) && Cell(final, SETTINGS, r, column) == default
  {
    StartFillsDefault(db, steps, 4, 4, SETTINGS, r, column, default);
  }
}
