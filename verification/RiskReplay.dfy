/**
 The risk-policy replay: closed trades, each reduced to an R multiple, are paid out again under
 a sizing policy that may refuse trades for the rest of a losing day.  Money is exact reals.
 */
module RiskReplay {
  import opened Common

  datatype Trade = Trade(day: int, r: real, risk: real, pnl: real)

  datatype Policy = Actual | FixedFractional(riskPct: real, dailyStop: Option<real>)

  datatype State = State(balance: real, day: Option<int>, dayStart: real)

  // p percent of x, and what is left of x without it
  function Pct(x: real, p: real): real { x * p / 100.0 }

  function Keep(x: real, p: real): real { x * (1.0 - p / 100.0) }

  function Payout(r: real, stake: real): real { r * stake }

  function Init(start: real): State { State(start, None, start) }

  predicate HasDailyStop(policy: Policy) { policy.FixedFractional? && policy.dailyStop.Some? }

  // `replay` opens the first day; the policy opens a day itself only when it has a daily stop.
  function Opened(policy: Policy, s: State, t: Trade): State {
    if s.day.None? || (HasDailyStop(policy) && s.day != Some(t.day))
    then s.(day := Some(t.day), dayStart := s.balance) else s
  }

  predicate Refuses(policy: Policy, s: State) {
    HasDailyStop(policy) && s.dayStart - s.balance >= Pct(s.dayStart, policy.dailyStop.value)
  }

  function RiskOf(policy: Policy, s: State, t: Trade): real {
    if policy.Actual? then t.risk else Pct(s.balance, policy.riskPct)
  }

  /** What offering one trade makes: None when it is refused. */
  function Profit(policy: Policy, s: State, t: Trade): Option<real> {
    var o := Opened(policy, s, t);
    if Refuses(policy, o) then None else Some(Payout(t.r, RiskOf(policy, o, t)))
  }

  function Credit(s: State, profit: Option<real>): State {
    if profit.None? then s else s.(balance := s.balance + profit.value)
  }

  function Next(policy: Policy, s: State, t: Trade): State {
    Credit(Opened(policy, s, t), Profit(policy, s, t))
  }

  function After(policy: Policy, start: real, trades: seq<Trade>): State {
    if trades == [] then Init(start)
    else Next(policy, After(policy, start, trades[..|trades| - 1]), trades[|trades| - 1])
  }


  /******* What a run's outcomes add up to, whatever policy produced them *******/

  datatype Outcome = Outcome(day: int, profit: Option<real>)

  function Balance(start: real, outs: seq<Outcome>): real {
    if outs == [] then start
    else
      var last := outs[|outs| - 1];
      Balance(start, outs[..|outs| - 1]) + if last.profit.Some? then last.profit.value else 0.0
  }

  /** The starting balance and the balance after every trade taken. */
  function Visited(start: real, outs: seq<Outcome>): seq<real> {
    if outs == [] then [start]
    else Visited(start, outs[..|outs| - 1]) + if outs[|outs| - 1].profit.None? then [] else [Balance(start, outs)]
  }

  /** What the trades taken on one day made together. */
  function DayTotal(outs: seq<Outcome>, day: int): real {
    if outs == [] then 0.0
    else
      var last := outs[|outs| - 1];
      DayTotal(outs[..|outs| - 1], day) + if last.day == day && last.profit.Some? then last.profit.value else 0.0
  }

  function Refused(outs: seq<Outcome>): nat {
    if outs == [] then 0
    else Refused(outs[..|outs| - 1]) + if outs[|outs| - 1].profit.None? then 1 else 0
  }

  lemma Snoc(start: real, outs: seq<Outcome>, o: Outcome)
    ensures var more := if o.profit.Some? then o.profit.value else 0.0;
            var now := outs + [o];
            && Balance(start, now) == Balance(start, outs) + more
            && Visited(start, now) == Visited(start, outs) + (if o.profit.None? then [] else [Balance(start, now)])
            && Refused(now) == Refused(outs) + (if o.profit.None? then 1 else 0)
            && forall d :: DayTotal(now, d) == DayTotal(outs, d) + if d == o.day then more else 0.0
  {
    assert (outs + [o])[..|outs|] == outs;
  }

  predicate Distinct(days: seq<int>) {
    forall i, j :: 0 <= i < j < |days| ==> days[i] != days[j]
  }

  /** The listed days' totals, added up. */
  function SumTotals(outs: seq<Outcome>, days: seq<int>): real {
    if days == [] then 0.0 else DayTotal(outs, days[0]) + SumTotals(outs, days[1..])
  }

  lemma {:induction false} SumTotalsSnoc(outs: seq<Outcome>, o: Outcome, days: seq<int>)
    requires Distinct(days)
    ensures SumTotals(outs + [o], days)
            == SumTotals(outs, days) + if o.day in days && o.profit.Some? then o.profit.value else 0.0
  {
    if days != [] {
      Snoc(0.0, outs, o);
      SumTotalsSnoc(outs, o, days[1..]);
      assert o.day in days <==> o.day == days[0] || o.day in days[1..];
    }
  }

  lemma {:induction false} NoTotals(days: seq<int>)
    ensures SumTotals([], days) == 0.0
  {
    if days != [] {
      NoTotals(days[1..]);
    }
  }

  /** Nothing is made or lost outside the days: the change in balance is the sum over them, in any order. */
  lemma {:induction false} Conservation(start: real, outs: seq<Outcome>, days: seq<int>)
    requires Distinct(days) && forall i :: 0 <= i < |outs| && outs[i].profit.Some? ==> outs[i].day in days
    ensures Balance(start, outs) - start == SumTotals(outs, days)
  {
    if outs == [] {
      NoTotals(days);
    } else {
      var n := |outs| - 1;
      assert outs == outs[..n] + [outs[n]];
      Conservation(start, outs[..n], days);
      SumTotalsSnoc(outs[..n], outs[n], days);
      Snoc(start, outs[..n], outs[n]);
    }
  }

  /** `fall` is exactly the largest drop from any balance to a later one. */
  ghost predicate LargestFall(balances: seq<real>, fall: real) {
    && (forall i, j :: 0 <= i <= j < |balances| ==> balances[i] - balances[j] <= fall)
    && (exists i, j :: 0 <= i <= j < |balances| && balances[i] - balances[j] == fall)
  }

  ghost predicate Peak(balances: seq<real>, peak: real) {
    peak in balances && forall i :: 0 <= i < |balances| ==> balances[i] <= peak
  }

  lemma NoFallYet(start: real)
    ensures Peak([start], start) && LargestFall([start], 0.0)
  {
    var balances := [start];
    assert 0 <= 0 <= 0 < |balances| && balances[0] - balances[0] == 0.0;
  }

  lemma FallExtends(balances: seq<real>, peak: real, fall: real, b: real)
    requires Peak(balances, peak) && LargestFall(balances, fall)
    ensures var top := if b > peak then b else peak;
            && Peak(balances + [b], top)
            && LargestFall(balances + [b], if top - b > fall then top - b else fall)
  {
    var all, n := balances + [b], |balances|;
    var top := if b > peak then b else peak;
    assert all[n] == b;
    var k :| 0 <= k < n && balances[k] == peak;
    assert all[k] == peak;
    var i, j :| 0 <= i <= j < n && balances[i] - balances[j] == fall;
    assert all[i] - all[j] == fall;
    if b > peak {
      assert all[n] - all[n] == 0.0;
      assert balances[k] - balances[k] <= fall;
    } else {
      assert all[k] - all[n] == top - b;
    }
  }

  /******* The replay loop *******/

  datatype Result = Result(final: real, byDay: map<int, real>, skipped: nat, maxDrawdown: real)

  // The running figures are exact for the outcomes so far.
  ghost predicate Tracks(start: real, outs: seq<Outcome>, peak: real, res: Result) {
    && res.final == Balance(start, outs)
    && Peak(Visited(start, outs), peak)
    && LargestFall(Visited(start, outs), res.maxDrawdown)
    && (forall d :: DayTotal(outs, d) == if d in res.byDay then res.byDay[d] else 0.0)
    && res.skipped == Refused(outs)
  }

  function Outcomes(policy: Policy, start: real, trades: seq<Trade>): seq<Outcome> {
    if trades == [] then []
    else
      var n := |trades| - 1;
      Outcomes(policy, start, trades[..n])
      + [Outcome(trades[n].day, Profit(policy, After(policy, start, trades[..n]), trades[n]))]
  }

  /** `replay`: every figure it reports is exact, for every policy and every list of trades. */
  method Replay(trades: seq<Trade>, policy: Policy, start: real) returns (res: Result)
    ensures res.final == After(policy, start, trades).balance
    ensures var outs := Outcomes(policy, start, trades);
            && (forall d :: DayTotal(outs, d) == if d in res.byDay then res.byDay[d] else 0.0)
            && LargestFall(Visited(start, outs), res.maxDrawdown)
            && res.skipped == Refused(outs)
            && res.final == Balance(start, outs)
  {
    var s, peak := Init(start), start;
    res := Result(start, map[], 0, 0.0);
    NoFallYet(start);
    ghost var outs := [];
    for i := 0 to |trades|
      invariant s == After(policy, start, trades[..i]) && s.balance == res.final
      invariant outs == Outcomes(policy, start, trades[..i])
      invariant Tracks(start, outs, peak, res)
    {
      assert trades[..i + 1][..i] == trades[..i];
      var profit := Profit(policy, s, trades[i]);
      s := Credit(Opened(policy, s, trades[i]), profit);
      peak, res := Record(trades[i].day, profit, peak, res, start, outs);
      outs := outs + [Outcome(trades[i].day, profit)];
    }
    assert trades[..|trades|] == trades;
  }

  /** The bookkeeping half of the loop body. */
  method Record(day: int, profit: Option<real>, peak0: real, res0: Result, ghost start: real, ghost outs: seq<Outcome>)
    returns (peak: real, res: Result)
    requires Tracks(start, outs, peak0, res0)
    ensures Tracks(start, outs + [Outcome(day, profit)], peak, res)
    ensures res.final == res0.final + if profit.Some? then profit.value else 0.0
  {
    peak, res := peak0, res0;
    if profit.None? {
      res := res.(skipped := res.skipped + 1);
      TracksRefusal(start, outs, Outcome(day, profit), peak0, res0);
    } else {
      var balance := res.final + profit.value;
      peak := if balance > peak then balance else peak;
      res := Result(balance,
                    res.byDay[day := (if day in res.byDay then res.byDay[day] else 0.0) + profit.value],
                    res.skipped,
                    if peak - balance > res.maxDrawdown then peak - balance else res.maxDrawdown);
      TracksProfit(start, outs, day, profit.value, peak0, res0, peak, res);
    }
  }

  lemma TracksRefusal(start: real, outs: seq<Outcome>, o: Outcome, peak: real, res: Result)
    requires Tracks(start, outs, peak, res) && o.profit.None?
    ensures Tracks(start, outs + [o], peak, res.(skipped := res.skipped + 1))
  {
    Snoc(start, outs, o);
    assert Visited(start, outs + [o]) == Visited(start, outs);
  }

  lemma TracksProfit(
      start: real, outs: seq<Outcome>, day: int, profit: real, peak0: real, res0: Result, peak: real, res: Result)
    requires Tracks(start, outs, peak0, res0)
    requires var b := res0.final + profit;
             && peak == (if b > peak0 then b else peak0)
             && res == Result(b, res0.byDay[day := (if day in res0.byDay then res0.byDay[day] else 0.0) + profit],
                              res0.skipped,
                              if peak - b > res0.maxDrawdown then peak - b else res0.maxDrawdown)
    ensures Tracks(start, outs + [Outcome(day, Some(profit))], peak, res)
  {
    var now := outs + [Outcome(day, Some(profit))];
    Snoc(start, outs, Outcome(day, Some(profit)));
    FallExtends(Visited(start, outs), peak0, res0.maxDrawdown, res.final);
    assert Visited(start, now) == Visited(start, outs) + [res.final];
    forall d ensures DayTotal(now, d) == if d in res.byDay then res.byDay[d] else 0.0 {
      assert DayTotal(outs, d) == if d in res0.byDay then res0.byDay[d] else 0.0;
    }
  }

  /******* The daily stop *******/

  lemma KeepIsLess(x: real, p: real)
    ensures Keep(x, p) == x - Pct(x, p)
  {
  }

  lemma KeepMonotone(a: real, b: real, p: real)
    requires a >= b && p <= 100.0
    ensures Keep(a, p) >= Keep(b, p)
  {
    var rest := 1.0 - p / 100.0;
    assert a * rest >= b * rest;
  }

  lemma KeepBounds(x: real, p: real)
    requires x >= 0.0 && p >= 0.0
    ensures Keep(x, p) <= x
    ensures p <= 100.0 ==> Keep(x, p) >= 0.0
  {
    var lost := p / 100.0;
    assert x * lost >= 0.0;
    assert Keep(x, p) == x - x * lost;
    if lost <= 1.0 {
      assert x * (1.0 - lost) >= 0.0;
    }
  }

  // One trade never loses more than k times its stake.
  lemma OneLoss(balance: real, r: real, k: real, p: real)
    requires balance >= 0.0 && k >= 0.0 && p >= 0.0 && r >= -k
    ensures balance + Payout(r, Pct(balance, p)) >= Keep(balance, k * p)
  {
    var stake := Pct(balance, p);
    assert stake >= 0.0 by { assert balance * p >= 0.0; }
    assert r * stake >= (-k) * stake;
    assert Keep(balance, k * p) == balance - k * stake;
  }

  /** The lowest balance a day may reach: the daily stop's worth gone, then one full loss of `loss` percent. */
  function Floor(open: real, stop: real, loss: real): real { Keep(Keep(open, stop), loss) }

  lemma TakenAboveFloor(open: real, stop: real, balance: real, r: real, k: real, p: real)
    requires p >= 0.0 && k >= 0.0 && k * p <= 100.0
    requires balance >= 0.0 && r >= -k && open - balance < Pct(open, stop)
    ensures balance + Payout(r, Pct(balance, p)) >= Floor(open, stop, k * p)
  {
    KeepIsLess(open, stop);
    OneLoss(balance, r, k, p);
    KeepMonotone(balance, Keep(open, stop), k * p);
  }

  lemma FloorBelowOpen(open: real, stop: real, loss: real)
    requires open >= 0.0 && stop >= 0.0 && 0.0 <= loss <= 100.0
    ensures Floor(open, stop, loss) <= open
  {
    KeepBounds(open, stop);
    KeepBounds(open, loss);
    KeepMonotone(open, Keep(open, stop), loss);
  }

  lemma StaysPositive(balance: real, r: real, k: real, p: real)
    requires balance >= 0.0 && k >= 0.0 && p >= 0.0 && r >= -k && k * p <= 100.0
    ensures balance + Payout(r, Pct(balance, p)) >= 0.0
  {
    OneLoss(balance, r, k, p);
    assert k * p >= 0.0;
    KeepBounds(balance, k * p);
  }

  // A policy with a daily stop, and the worst loss k in multiples of the risk it is analysed for.
  predicate Guarded(policy: Policy, k: real) {
    && HasDailyStop(policy) && policy.riskPct >= 0.0 && policy.dailyStop.value >= 0.0
    && k >= 0.0 && k * policy.riskPct <= 100.0
  }

  predicate AboveFloor(policy: Policy, k: real, s: State)
    requires HasDailyStop(policy)
  {
    && s.balance >= 0.0 && s.dayStart >= 0.0
    && s.balance >= Floor(s.dayStart, policy.dailyStop.value, k * policy.riskPct)
  }

  lemma OpeningIsAbove(policy: Policy, k: real, s: State)
    requires Guarded(policy, k) && s.balance >= 0.0 && s.dayStart == s.balance
    ensures AboveFloor(policy, k, s)
  {
    assert k * policy.riskPct >= 0.0;
    FloorBelowOpen(s.balance, policy.dailyStop.value, k * policy.riskPct);
  }

  lemma StepStaysAbove(policy: Policy, k: real, s: State, t: Trade)
    requires Guarded(policy, k) && AboveFloor(policy, k, s) && t.r >= -k
    ensures AboveFloor(policy, k, Next(policy, s, t))
  {
    var o := Opened(policy, s, t);
    if o != s {
      OpeningIsAbove(policy, k, o);
    }
    if !Refuses(policy, o) {
      TakenAboveFloor(o.dayStart, policy.dailyStop.value, o.balance, t.r, k, policy.riskPct);
      StaysPositive(o.balance, t.r, k, policy.riskPct);
    }
  }

  predicate Losses(trades: seq<Trade>, k: real) {
    forall i :: 0 <= i < |trades| ==> trades[i].r >= -k
  }

  lemma {:induction false} AlwaysAbove(policy: Policy, start: real, trades: seq<Trade>, k: real)
    requires Guarded(policy, k) && start >= 0.0 && Losses(trades, k)
    ensures AboveFloor(policy, k, After(policy, start, trades))
  {
    if trades == [] {
      OpeningIsAbove(policy, k, Init(start));
    } else {
      var n := |trades| - 1;
      AlwaysAbove(policy, start, trades[..n], k);
      StepStaysAbove(policy, k, After(policy, start, trades[..n]), trades[n]);
    }
  }

  // The first trade of the unbroken run of same-day trades that `i` belongs to.
  function RunStart(trades: seq<Trade>, i: nat): nat
    requires i < |trades|
    ensures RunStart(trades, i) <= i
  {
    if i > 0 && trades[i - 1].day == trades[i].day then RunStart(trades, i - 1) else i
  }

  /** The balance with which the day of trade `i` began. */
  function DayOpen(policy: Policy, start: real, trades: seq<Trade>, i: nat): real
    requires i < |trades|
  {
    After(policy, start, trades[..RunStart(trades, i)]).balance
  }

  lemma AfterStep(policy: Policy, start: real, trades: seq<Trade>, i: nat)
    requires i < |trades|
    ensures After(policy, start, trades[..i + 1]) == Next(policy, After(policy, start, trades[..i]), trades[i])
  {
    assert trades[..i + 1][..i] == trades[..i];
  }

  lemma {:induction false} DayStartIsDayOpen(policy: Policy, start: real, trades: seq<Trade>, i: nat)
    requires HasDailyStop(policy) && i < |trades|
    ensures var o := Opened(policy, After(policy, start, trades[..i]), trades[i]);
            var next := After(policy, start, trades[..i + 1]);
            && o.day == next.day == Some(trades[i].day)
            && o.dayStart == next.dayStart == DayOpen(policy, start, trades, i)
  {
    AfterStep(policy, start, trades, i);
    if i > 0 {
      DayStartIsDayOpen(policy, start, trades, i - 1);
    } else {
      assert trades[..0] == [];
    }
  }

  /**
   A trade is refused iff the day has by then lost s% of the balance it began with; otherwise it
   makes its R times p% of the current balance.
   */
  lemma RefusedExactly(policy: Policy, start: real, trades: seq<Trade>, i: nat)
    requires HasDailyStop(policy) && i < |trades|
    ensures var balance, open := After(policy, start, trades[..i]).balance, DayOpen(policy, start, trades, i);
            Profit(policy, After(policy, start, trades[..i]), trades[i])
            == if open - balance >= Pct(open, policy.dailyStop.value) then None
               else Some(Payout(trades[i].r, Pct(balance, policy.riskPct)))
  {
    DayStartIsDayOpen(policy, start, trades, i);
  }

  /**
   With risk p%, a daily stop of s% and no trade losing more than k times its risk (k p <= 100),
   the balance never falls below dayOpen (1 - s/100) (1 - k p/100), after any trade of any run.
   */
  lemma DailyFloor(policy: Policy, start: real, trades: seq<Trade>, k: real, i: nat)
    requires Guarded(policy, k) && start >= 0.0 && Losses(trades, k) && i < |trades|
    ensures After(policy, start, trades[..i + 1]).balance
            >= Floor(DayOpen(policy, start, trades, i), policy.dailyStop.value, k * policy.riskPct)
  {
    AlwaysAbove(policy, start, trades[..i + 1], k);
    DayStartIsDayOpen(policy, start, trades, i);
  }

  predicate DaySorted(trades: seq<Trade>) {
    forall i, j :: 0 <= i < j < |trades| ==> trades[i].day <= trades[j].day
  }

  lemma RefusalRepeats(policy: Policy, s: State, t: Trade, u: Trade)
    requires Profit(policy, s, t).None? && u.day == t.day
    ensures Next(policy, s, t).balance == s.balance
    ensures Opened(policy, s, t).day == Some(t.day) ==> Profit(policy, Next(policy, s, t), u).None?
  {
  }

  /** In a day-sorted run, once one trade of a day is refused every later trade of that day is. */
  lemma {:induction false} RefusedForTheDay(policy: Policy, start: real, trades: seq<Trade>, i: nat, j: nat)
    requires i <= j < |trades| && DaySorted(trades) && trades[i].day == trades[j].day
    requires Profit(policy, After(policy, start, trades[..i]), trades[i]).None?
    ensures Profit(policy, After(policy, start, trades[..j]), trades[j]).None?
    ensures After(policy, start, trades[..j]).balance == After(policy, start, trades[..i]).balance
    decreases j
  {
    if j > i {
      assert trades[i].day <= trades[j - 1].day <= trades[j].day;
      RefusedForTheDay(policy, start, trades, i, j - 1);
      AfterStep(policy, start, trades, j - 1);
      DayStartIsDayOpen(policy, start, trades, j - 1);
      RefusalRepeats(policy, After(policy, start, trades[..j - 1]), trades[j - 1], trades[j]);
    }
  }

  /******* The other policies *******/

  // A trade as `build_trades` makes it.
  predicate Built(t: Trade) { t.risk > 0.0 && t.r == t.pnl / t.risk }

  function TotalPnl(trades: seq<Trade>): real {
    if trades == [] then 0.0 else TotalPnl(trades[..|trades| - 1]) + trades[|trades| - 1].pnl
  }

  /** The actual policy reproduces the realised P&L of every trade. */
  lemma {:induction false} ActualReproducesPnl(start: real, trades: seq<Trade>)
    requires forall i :: 0 <= i < |trades| ==> Built(trades[i])
    ensures After(Actual, start, trades).balance == start + TotalPnl(trades)
  {
    if trades != [] {
      var t := trades[|trades| - 1];
      assert Built(t);
      assert Payout(t.r, t.risk) == t.pnl;
      ActualReproducesPnl(start, trades[..|trades| - 1]);
    }
  }

  function Factor(riskPct: real, t: Trade): real { 1.0 + t.r * riskPct / 100.0 }

  function Mul(a: real, b: real): real { a * b }

  function Growth(riskPct: real, trades: seq<Trade>): real {
    if trades == [] then 1.0
    else Mul(Growth(riskPct, trades[..|trades| - 1]), Factor(riskPct, trades[|trades| - 1]))
  }

  lemma MulLaws(a: real, b: real, c: real)
    ensures Mul(Mul(a, b), c) == Mul(a, Mul(b, c)) && Mul(Mul(a, b), c) == Mul(Mul(a, c), b)
    ensures Mul(a, 1.0) == a
  {
  }

  lemma OneFactor(policy: Policy, s: State, t: Trade)
    requires policy.FixedFractional? && policy.dailyStop.None?
    ensures Next(policy, s, t).balance == Mul(s.balance, Factor(policy.riskPct, t))
  {
    var f := t.r * policy.riskPct / 100.0;
    assert t.r * (s.balance * policy.riskPct / 100.0) == s.balance * f;
  }

  /** Without a daily stop the balance is compounded trade by trade. */
  lemma {:induction false} CompoundGrowth(riskPct: real, start: real, trades: seq<Trade>)
    ensures After(FixedFractional(riskPct, None), start, trades).balance == Mul(start, Growth(riskPct, trades))
  {
    if trades == [] {
      MulLaws(start, 0.0, 0.0);
    } else {
      var t, before := trades[|trades| - 1], trades[..|trades| - 1];
      var policy := FixedFractional(riskPct, None);
      CompoundGrowth(riskPct, start, before);
      OneFactor(policy, After(policy, start, before), t);
      MulLaws(start, Growth(riskPct, before), Factor(riskPct, t));
    }
  }

  lemma {:induction false} GrowthWithout(riskPct: real, trades: seq<Trade>, j: nat)
    requires j < |trades|
    ensures Growth(riskPct, trades) == Mul(Growth(riskPct, trades[..j] + trades[j + 1..]), Factor(riskPct, trades[j]))
    decreases |trades|
  {
    var n := |trades| - 1;
    var without := trades[..j] + trades[j + 1..];
    if j == n {
      assert without == trades[..n];
    } else {
      GrowthWithout(riskPct, trades[..n], j);
      assert without[..n - 1] == trades[..n][..j] + trades[..n][j + 1..] && without[n - 1] == trades[n];
      MulLaws(Growth(riskPct, without[..n - 1]), Factor(riskPct, trades[j]), Factor(riskPct, trades[n]));
    }
  }

  lemma RemoveAt<T>(s: seq<T>, j: nat)
    requires j < |s|
    ensures multiset(s[..j] + s[j + 1..]) == multiset(s) - multiset{s[j]}
  {
    assert s == s[..j] + [s[j]] + s[j + 1..];
  }

  lemma {:induction false} GrowthOfPermutation(riskPct: real, a: seq<Trade>, b: seq<Trade>)
    requires multiset(a) == multiset(b)
    ensures Growth(riskPct, a) == Growth(riskPct, b)
    decreases |a|
  {
    if a == [] {
      assert |multiset(b)| == |b|;
    } else {
      var n := |a| - 1;
      assert a[n] in multiset(b);
      var j :| 0 <= j < |b| && b[j] == a[n];
      RemoveAt(a, n);
      RemoveAt(b, j);
      assert a[..n] + a[n + 1..] == a[..n];
      GrowthWithout(riskPct, b, j);
      GrowthOfPermutation(riskPct, a[..n], b[..j] + b[j + 1..]);
    }
  }

  /** Without a daily stop the final balance does not depend on the order of the trades. */
  lemma OrderDoesNotMatter(riskPct: real, start: real, a: seq<Trade>, b: seq<Trade>)
    requires multiset(a) == multiset(b)
    ensures After(FixedFractional(riskPct, None), start, a).balance
            == After(FixedFractional(riskPct, None), start, b).balance
  {
    CompoundGrowth(riskPct, start, a);
    CompoundGrowth(riskPct, start, b);
    GrowthOfPermutation(riskPct, a, b);
  }

  function Times(c: real, s: State): State { s.(balance := Mul(c, s.balance), dayStart := Mul(c, s.dayStart)) }

  lemma ScaledPct(c: real, x: real, p: real, r: real)
    ensures Pct(Mul(c, x), p) == Mul(c, Pct(x, p))
    ensures Payout(r, Mul(c, x)) == Mul(c, Payout(r, x))
  {
  }

  lemma ScaledDecision(policy: Policy, s: State, c: real)
    requires HasDailyStop(policy) && c > 0.0
    ensures Refuses(policy, Times(c, s)) <==> Refuses(policy, s)
  {
    var drawdown, limit := s.dayStart - s.balance, Pct(s.dayStart, policy.dailyStop.value);
    ScaledPct(c, s.dayStart, policy.dailyStop.value, 0.0);
    assert Mul(c, s.dayStart) - Mul(c, s.balance) == Mul(c, drawdown);
    assert Mul(c, drawdown) >= Mul(c, limit) <==> drawdown >= limit;
  }

  lemma ScaledNext(policy: Policy, s: State, t: Trade, c: real)
    requires policy.FixedFractional? && c > 0.0
    ensures Next(policy, Times(c, s), t) == Times(c, Next(policy, s, t))
    ensures Profit(policy, Times(c, s), t).None? <==> Profit(policy, s, t).None?
  {
    var o := Opened(policy, s, t);
    assert Opened(policy, Times(c, s), t) == Times(c, o);
    if HasDailyStop(policy) {
      ScaledDecision(policy, o, c);
    }
    var stake := Pct(o.balance, policy.riskPct);
    ScaledPct(c, o.balance, policy.riskPct, 0.0);
    ScaledPct(c, stake, 0.0, t.r);
    assert Mul(c, o.balance) + Mul(c, Payout(t.r, stake)) == Mul(c, o.balance + Payout(t.r, stake));
  }

  /** A fixed-fractional replay scales with the starting balance: every figure times c, the same trades refused. */
  lemma {:induction false} ScalesWithStart(policy: Policy, start: real, c: real, trades: seq<Trade>)
    requires policy.FixedFractional? && c > 0.0
    ensures After(policy, Mul(c, start), trades) == Times(c, After(policy, start, trades))
    ensures Refused(Outcomes(policy, Mul(c, start), trades)) == Refused(Outcomes(policy, start, trades))
  {
    if trades != [] {
      var n := |trades| - 1;
      ScalesWithStart(policy, start, c, trades[..n]);
      ScaledNext(policy, After(policy, start, trades[..n]), trades[n], c);
      OutcomesSnoc(policy, start, trades);
      OutcomesSnoc(policy, Mul(c, start), trades);
    }
  }

  lemma OutcomesSnoc(policy: Policy, start: real, trades: seq<Trade>)
    requires trades != []
    ensures var n := |trades| - 1;
            Refused(Outcomes(policy, start, trades)) == Refused(Outcomes(policy, start, trades[..n]))
            + if Profit(policy, After(policy, start, trades[..n]), trades[n]).None? then 1 else 0
  {
    var n := |trades| - 1;
    Snoc(start, Outcomes(policy, start, trades[..n]),
         Outcome(trades[n].day, Profit(policy, After(policy, start, trades[..n]), trades[n])));
  }
}
