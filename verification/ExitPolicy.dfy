/**
 The trade-path simulator: one trade's candles are walked under a stop, a target and an
 optional move of the stop to breakeven, giving an R multiple.  Prices are exact reals.
 */
module ExitPolicy {
  import opened Common

  datatype Candle = Candle(high: real, low: real, close: real)

  datatype Trade = Trade(entry: real, isBuy: bool, seg: seq<Candle>)

  datatype Rule = Rule(stopPts: real, targetPts: real, breakevenAt: Option<real>)

  /** Why the walk ended: the original stop, the stop moved to entry, the target, or the last close. */
  datatype Exit = Stopped | Scratched | Hit | Expired(move: real)

  // `be_at` of None or 0 switches the move off.
  predicate MovesToEntry(rule: Rule) { rule.breakevenAt.Some? && rule.breakevenAt.value != 0.0 }

  predicate Usable(t: Trade, rule: Rule) { t.seg != [] && rule.stopPts != 0.0 }

  function StopAt(t: Trade, rule: Rule): real {
    if t.isBuy then t.entry - rule.stopPts else t.entry + rule.stopPts
  }

  function TargetAt(t: Trade, rule: Rule): real {
    if t.isBuy then t.entry + rule.targetPts else t.entry - rule.targetPts
  }

  predicate TouchesStop(t: Trade, c: Candle, stop: real) {
    if t.isBuy then c.low <= stop else c.high >= stop
  }

  predicate TouchesTarget(t: Trade, c: Candle, target: real) {
    if t.isBuy then c.high >= target else c.low <= target
  }

  predicate Triggers(t: Trade, c: Candle, rule: Rule) {
    && MovesToEntry(rule)
    && rule.breakevenAt.value <= if t.isBuy then c.high - t.entry else t.entry - c.low
  }

  function Move(t: Trade, close: real): real {
    if t.isBuy then close - t.entry else t.entry - close
  }

  /** The walk over the remaining candles `rest`; within one candle the stop counts before the target. */
  function Walk(t: Trade, rule: Rule, rest: seq<Candle>, stop: real, moved: bool, last: real): Exit {
    if rest == [] then
      if moved && Move(t, last) < 0.0 then Scratched else Expired(Move(t, last))
    else if TouchesStop(t, rest[0], stop) then
      if moved then Scratched else Stopped
    else
      var now := moved || Triggers(t, rest[0], rule);
      if TouchesTarget(t, rest[0], TargetAt(t, rule)) then Hit
      else Walk(t, rule, rest[1..], if now && !moved then t.entry else stop, now, last)
  }

  function ExitOf(t: Trade, rule: Rule): Exit
    requires t.seg != []
  {
    Walk(t, rule, t.seg, StopAt(t, rule), false, t.seg[|t.seg| - 1].close)
  }

  function RMultiple(exit: Exit, rule: Rule): real
    requires rule.stopPts != 0.0
  {
    match exit
    case Stopped => -1.0
    case Scratched => 0.0
    case Hit => rule.targetPts / rule.stopPts
    case Expired(move) => move / rule.stopPts
  }

  /** `simulate`. */
  method Simulate(t: Trade, rule: Rule) returns (r: real)
    requires Usable(t, rule)
    ensures r == RMultiple(ExitOf(t, rule), rule)
  {
    var stop, target, moved := StopAt(t, rule), TargetAt(t, rule), false;
    ghost var last := t.seg[|t.seg| - 1].close;
    for i := 0 to |t.seg|
      invariant ExitOf(t, rule) == Walk(t, rule, t.seg[i..], stop, moved, last)
    {
      var hi, lo := t.seg[i].high, t.seg[i].low;
      assert t.seg[i..][0] == t.seg[i] && t.seg[i..][1..] == t.seg[i + 1..];
      if t.isBuy {
        if lo <= stop {
          return if moved then 0.0 else -1.0;
        }
        if MovesToEntry(rule) && !moved && hi - t.entry >= rule.breakevenAt.value {
          stop, moved := t.entry, true;
        }
        if hi >= target {
          return rule.targetPts / rule.stopPts;
        }
      } else {
        if hi >= stop {
          return if moved then 0.0 else -1.0;
        }
        if MovesToEntry(rule) && !moved && t.entry - lo >= rule.breakevenAt.value {
          stop, moved := t.entry, true;
        }
        if lo <= target {
          return rule.targetPts / rule.stopPts;
        }
      }
    }
    var move := Move(t, t.seg[|t.seg| - 1].close);
    r := if moved && move < 0.0 then 0.0 else move / rule.stopPts;
  }

  /******* Where the walk ends, without walking *******/

  // An earlier candle has moved the stop to entry.
  predicate MovedBefore(t: Trade, rule: Rule, i: nat)
    requires i <= |t.seg|
  {
    exists j :: 0 <= j < i && Triggers(t, t.seg[j], rule)
  }

  function StopInForce(t: Trade, rule: Rule, i: nat): real
    requires i <= |t.seg|
  {
    if MovedBefore(t, rule, i) then t.entry else StopAt(t, rule)
  }

  predicate EndsAt(t: Trade, rule: Rule, i: nat)
    requires i < |t.seg|
  {
    TouchesStop(t, t.seg[i], StopInForce(t, rule, i)) || TouchesTarget(t, t.seg[i], TargetAt(t, rule))
  }

  predicate OpenUntil(t: Trade, rule: Rule, i: nat)
    requires i <= |t.seg|
  {
    forall j :: 0 <= j < i ==> !EndsAt(t, rule, j)
  }

  lemma {:induction false} WalkFrom(t: Trade, rule: Rule, i: nat)
    requires t.seg != [] && i <= |t.seg| && OpenUntil(t, rule, i)
    ensures ExitOf(t, rule)
            == Walk(t, rule, t.seg[i..], StopInForce(t, rule, i), MovedBefore(t, rule, i), t.seg[|t.seg| - 1].close)
  {
    if i == 0 {
      assert t.seg[0..] == t.seg;
    } else {
      WalkFrom(t, rule, i - 1);
      assert !EndsAt(t, rule, i - 1);
      assert t.seg[i - 1..][0] == t.seg[i - 1] && t.seg[i - 1..][1..] == t.seg[i..];
      assert MovedBefore(t, rule, i) <==> MovedBefore(t, rule, i - 1) || Triggers(t, t.seg[i - 1], rule);
    }
  }

  /**
   The exit, candle by candle: the first candle that touches the stop then in force or the
   target decides, the stop before the target; a stop that an earlier candle moved scratches the
   trade.  If no candle does, the last close decides, and a moved stop cuts a loss to nothing.
   */
  lemma ExitExactly(t: Trade, rule: Rule, i: nat)
    requires t.seg != [] && i <= |t.seg| && OpenUntil(t, rule, i)
    ensures i < |t.seg| && EndsAt(t, rule, i) ==>
              ExitOf(t, rule) == if !TouchesStop(t, t.seg[i], StopInForce(t, rule, i)) then Hit
                                 else if MovedBefore(t, rule, i) then Scratched else Stopped
    ensures i == |t.seg| ==>
              var move := Move(t, t.seg[|t.seg| - 1].close);
              ExitOf(t, rule) == if MovedBefore(t, rule, i) && move < 0.0 then Scratched else Expired(move)
  {
    WalkFrom(t, rule, i);
    if i < |t.seg| {
      assert t.seg[i..][0] == t.seg[i];
    } else {
      assert t.seg[i..] == [];
    }
  }

  /******* Breakeven *******/

  function Plain(rule: Rule): Rule { rule.(breakevenAt := None) }

  // Two runs from the same candle: the stop already at entry, and the original stop.
  lemma {:induction false} AfterTheMove(t: Trade, rule: Rule, rest: seq<Candle>, last: real)
    requires rule.stopPts > 0.0
    ensures var moved := Walk(t, rule, rest, t.entry, true, last);
            moved == Scratched || moved == Walk(t, Plain(rule), rest, StopAt(t, rule), false, last)
  {
    if rest != [] && !TouchesStop(t, rest[0], t.entry) {
      AfterTheMove(t, rule, rest[1..], last);
    }
  }

  lemma {:induction false} BeforeTheMove(t: Trade, rule: Rule, rest: seq<Candle>, last: real)
    requires rule.stopPts > 0.0
    ensures var with := Walk(t, rule, rest, StopAt(t, rule), false, last);
            with == Scratched || with == Walk(t, Plain(rule), rest, StopAt(t, rule), false, last)
  {
    if rest != [] && !TouchesStop(t, rest[0], StopAt(t, rule)) {
      if Triggers(t, rest[0], rule) {
        AfterTheMove(t, rule, rest[1..], last);
      } else {
        BeforeTheMove(t, rule, rest[1..], last);
      }
    }
  }

  /** A breakeven move either leaves the trade's R exactly as it was without it or makes it 0. */
  lemma BreakevenKeepsOrScratches(t: Trade, rule: Rule)
    requires t.seg != [] && rule.stopPts > 0.0
    ensures || RMultiple(ExitOf(t, rule), rule) == RMultiple(ExitOf(t, Plain(rule)), Plain(rule))
            || RMultiple(ExitOf(t, rule), rule) == 0.0
  {
    BeforeTheMove(t, rule, t.seg, t.seg[|t.seg| - 1].close);
  }

  ghost predicate KeepsOrScratches(stopPts: real)
    requires stopPts != 0.0
  {
    forall t: Trade, target: real, at: Option<real> :: t.seg != [] ==>
      var rule := Rule(stopPts, target, at);
      var with, without := RMultiple(ExitOf(t, rule), rule), RMultiple(ExitOf(t, Plain(rule)), rule);
      with == without || with == 0.0
  }

  /** It takes a positive stop distance, and nothing else. */
  lemma BreakevenExactly(stopPts: real)
    requires stopPts != 0.0
    ensures KeepsOrScratches(stopPts) <==> stopPts > 0.0
  {
    if stopPts > 0.0 {
      forall t: Trade, target: real, at: Option<real> | t.seg != []
        ensures var rule := Rule(stopPts, target, at);
                var with, without := RMultiple(ExitOf(t, rule), rule), RMultiple(ExitOf(t, Plain(rule)), rule);
                with == without || with == 0.0
      {
        BreakevenKeepsOrScratches(t, Rule(stopPts, target, at));
      }
    } else {
      // A stop above a BUY entry: the first candle clears it, the second falls back through it.
      var up := -stopPts;
      var first, second := Candle(up + 2.0, up + 1.0, up + 1.0), Candle(up / 2.0, up / 2.0, up / 2.0);
      var t, rule := Trade(0.0, true, [first, second]), Rule(stopPts, up + 3.0, Some(1.0));
      assert t.seg[1..] == [second] && [second][1..] == [];
      assert Walk(t, rule, [], 0.0, true, up / 2.0) == Expired(up / 2.0);
      assert Walk(t, rule, [second], 0.0, true, up / 2.0) == Expired(up / 2.0);
      assert ExitOf(t, rule) == Expired(up / 2.0);
      assert Walk(t, Plain(rule), [second], StopAt(t, rule), false, up / 2.0) == Stopped;
      assert ExitOf(t, Plain(rule)) == Stopped;
      assert RMultiple(Expired(up / 2.0), rule) == -0.5;
    }
  }

  /******* Bounds, reflection, monotonicity *******/

  predicate WellFormed(seg: seq<Candle>) {
    forall i :: 0 <= i < |seg| ==> seg[i].low <= seg[i].close <= seg[i].high
  }

  lemma {:induction false} ExpiredInside(t: Trade, rule: Rule, rest: seq<Candle>, stop: real, moved: bool, last: real)
    requires rule.stopPts > 0.0 && rule.targetPts > 0.0 && WellFormed(rest)
    requires stop == if moved then t.entry else StopAt(t, rule)
    requires rest != [] ==> last == rest[|rest| - 1].close
    requires rest == [] ==> -rule.stopPts < Move(t, last) < rule.targetPts
    ensures var exit := Walk(t, rule, rest, stop, moved, last);
            exit.Expired? ==> -rule.stopPts < exit.move < rule.targetPts
  {
    if rest != [] && !TouchesStop(t, rest[0], stop) && !TouchesTarget(t, rest[0], TargetAt(t, rule)) {
      var now := moved || Triggers(t, rest[0], rule);
      ExpiredInside(t, rule, rest[1..], if now && !moved then t.entry else stop, now, last);
    }
  }

  /** For well-formed candles R lies in [-1, target/stop], and is -1 exactly on a stop-out. */
  lemma Bounded(t: Trade, rule: Rule)
    requires t.seg != [] && WellFormed(t.seg) && rule.stopPts > 0.0 && rule.targetPts > 0.0
    ensures var r := RMultiple(ExitOf(t, rule), rule);
            && -1.0 <= r <= rule.targetPts / rule.stopPts
            && (r == -1.0 <==> ExitOf(t, rule) == Stopped)
            && (r == rule.targetPts / rule.stopPts <==> ExitOf(t, rule) == Hit)
  {
    ExpiredInside(t, rule, t.seg, StopAt(t, rule), false, t.seg[|t.seg| - 1].close);
    var s, target := rule.stopPts, rule.targetPts;
    assert target / s > 0.0;
    var exit := ExitOf(t, rule);
    if exit.Expired? {
      DivideBounds(exit.move, s, target);
    }
  }

  lemma DivideBounds(m: real, s: real, target: real)
    requires s > 0.0 && -s < m < target
    ensures -1.0 < m / s < target / s
  {
    assert (m / s) * s == m;
    assert (target / s) * s == target;
  }

  function MirrorCandle(c: Candle, entry: real): Candle {
    Candle(2.0 * entry - c.low, 2.0 * entry - c.high, 2.0 * entry - c.close)
  }

  function MirrorAll(seg: seq<Candle>, entry: real): seq<Candle> {
    seq(|seg|, i requires 0 <= i < |seg| => MirrorCandle(seg[i], entry))
  }

  /** Prices reflected about the entry, BUY and SELL swapped. */
  function Mirror(t: Trade): Trade { Trade(t.entry, !t.isBuy, MirrorAll(t.seg, t.entry)) }

  lemma {:induction false} MirrorWalk(t: Trade, rule: Rule, rest: seq<Candle>, stop: real, moved: bool, last: real)
    ensures Walk(Mirror(t), rule, MirrorAll(rest, t.entry), 2.0 * t.entry - stop, moved, 2.0 * t.entry - last)
            == Walk(t, rule, rest, stop, moved, last)
  {
    if rest != [] {
      assert MirrorAll(rest, t.entry)[1..] == MirrorAll(rest[1..], t.entry);
      var now := moved || Triggers(t, rest[0], rule);
      var next := if now && !moved then t.entry else stop;
      assert 2.0 * t.entry - next == if now && !moved then t.entry else 2.0 * t.entry - stop;
      MirrorWalk(t, rule, rest[1..], next, now, last);
    }
  }

  lemma MirrorSymmetric(t: Trade, rule: Rule)
    requires t.seg != []
    ensures ExitOf(Mirror(t), rule) == ExitOf(t, rule)
  {
    MirrorWalk(t, rule, t.seg, StopAt(t, rule), false, t.seg[|t.seg| - 1].close);
  }

  lemma {:induction false} MovedNeverStopped(t: Trade, rule: Rule, rest: seq<Candle>, stop: real, last: real)
    ensures Walk(t, rule, rest, stop, true, last) != Stopped
  {
    if rest != [] {
      MovedNeverStopped(t, rule, rest[1..], stop, last);
    }
  }

  lemma {:induction false} TighterWalk(t: Trade, wide: Rule, tight: Rule, rest: seq<Candle>, last: real)
    requires tight == wide.(stopPts := tight.stopPts) && tight.stopPts <= wide.stopPts
    requires Walk(t, wide, rest, StopAt(t, wide), false, last) == Stopped
    ensures Walk(t, tight, rest, StopAt(t, tight), false, last) == Stopped
  {
    if !TouchesStop(t, rest[0], StopAt(t, wide)) && !TouchesStop(t, rest[0], StopAt(t, tight)) {
      MovedNeverStopped(t, wide, rest[1..], t.entry, last);
      TighterWalk(t, wide, tight, rest[1..], last);
    }
  }

  /** A stop-out at a wider stop is a stop-out at every tighter one, breakeven rule or not. */
  lemma TighterStopsOut(t: Trade, wide: Rule, tight: Rule)
    requires t.seg != [] && ExitOf(t, wide) == Stopped
    requires tight == wide.(stopPts := tight.stopPts) && tight.stopPts <= wide.stopPts
    ensures ExitOf(t, tight) == Stopped
  {
    TighterWalk(t, wide, tight, t.seg, t.seg[|t.seg| - 1].close);
  }

  lemma {:induction false} NearerWalk(
      t: Trade, far: Rule, near: Rule, rest: seq<Candle>, stop: real, moved: bool, last: real)
    requires near == far.(targetPts := near.targetPts) && near.targetPts <= far.targetPts
    requires Walk(t, far, rest, stop, moved, last) == Hit
    ensures Walk(t, near, rest, stop, moved, last) == Hit
  {
    if !TouchesTarget(t, rest[0], TargetAt(t, near)) {
      var now := moved || Triggers(t, rest[0], far);
      NearerWalk(t, far, near, rest[1..], if now && !moved then t.entry else stop, now, last);
    }
  }

  /** A hit at a wider target is a hit at every nearer one, breakeven rule or not. */
  lemma NearerTargetHit(t: Trade, far: Rule, near: Rule)
    requires t.seg != [] && ExitOf(t, far) == Hit
    requires near == far.(targetPts := near.targetPts) && near.targetPts <= far.targetPts
    ensures ExitOf(t, near) == Hit
  {
    NearerWalk(t, far, near, t.seg, StopAt(t, far), false, t.seg[|t.seg| - 1].close);
  }
}
