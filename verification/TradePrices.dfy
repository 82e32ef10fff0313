/** The simulator's verdicts in prices: stop, target, breakeven distance and R. */
module TradePrices {
  import opened Common
  import opened ExitPolicy

  /******* A BUY *******/

  // Some candle before the `i`th has gone the breakeven distance in favour of a BUY.
  ghost predicate BuyMoved(t: Trade, rule: Rule, i: nat)
    requires i <= |t.seg|
  {
    && rule.breakevenAt.Some? && rule.breakevenAt.value != 0.0
    && exists j :: 0 <= j < i && t.seg[j].high - t.entry >= rule.breakevenAt.value
  }

  ghost function BuyStop(t: Trade, rule: Rule, i: nat): real
    requires i <= |t.seg|
  {
    if BuyMoved(t, rule, i) then t.entry else t.entry - rule.stopPts
  }

  // The first `i` candles stay strictly between stop and target.
  ghost predicate BuyInside(t: Trade, rule: Rule, i: nat)
    requires i <= |t.seg|
  {
    forall j :: 0 <= j < i ==> t.seg[j].low > BuyStop(t, rule, j) && t.seg[j].high < t.entry + rule.targetPts
  }

  lemma BuyIsInside(t: Trade, rule: Rule, i: nat)
    requires t.isBuy && i <= |t.seg|
    ensures BuyMoved(t, rule, i) == MovedBefore(t, rule, i) && BuyStop(t, rule, i) == StopInForce(t, rule, i)
    ensures BuyInside(t, rule, i) == OpenUntil(t, rule, i)
  {
    forall k | 0 <= k <= i ensures BuyMoved(t, rule, k) == MovedBefore(t, rule, k) {
      forall j | 0 <= j < k
        ensures Triggers(t, t.seg[j], rule) <==>
                && rule.breakevenAt.Some? && rule.breakevenAt.value != 0.0
                && t.seg[j].high - t.entry >= rule.breakevenAt.value
      {
      }
    }
    forall j | 0 <= j < i
      ensures !EndsAt(t, rule, j) <==>
              t.seg[j].low > BuyStop(t, rule, j) && t.seg[j].high < t.entry + rule.targetPts
    {
    }
  }

  /** A BUY in prices: where it ends, and with what R. */
  lemma BuyExactly(t: Trade, rule: Rule, i: nat)
    requires t.isBuy && t.seg != [] && rule.stopPts != 0.0 && i <= |t.seg| && BuyInside(t, rule, i)
    ensures i < |t.seg| && t.seg[i].low <= BuyStop(t, rule, i) ==>
              && ExitOf(t, rule) == (if BuyMoved(t, rule, i) then Scratched else Stopped)
              && RMultiple(ExitOf(t, rule), rule) == if BuyMoved(t, rule, i) then 0.0 else -1.0
    ensures i < |t.seg| && t.seg[i].low > BuyStop(t, rule, i) && t.seg[i].high >= t.entry + rule.targetPts ==>
              ExitOf(t, rule) == Hit && RMultiple(ExitOf(t, rule), rule) == rule.targetPts / rule.stopPts
    ensures i == |t.seg| ==>
              var move := t.seg[|t.seg| - 1].close - t.entry;
              && ExitOf(t, rule) == (if BuyMoved(t, rule, i) && move < 0.0 then Scratched else Expired(move))
              && RMultiple(ExitOf(t, rule), rule)
                 == if BuyMoved(t, rule, i) && move < 0.0 then 0.0 else move / rule.stopPts
  {
    BuyIsInside(t, rule, i);
    ExitExactly(t, rule, i);
  }

  // The first candle that leaves the range, or none.
  lemma {:induction false} BuyLeaves(t: Trade, rule: Rule, k: nat) returns (i: nat)
    requires k <= |t.seg| && BuyInside(t, rule, k)
    ensures i <= |t.seg| && BuyInside(t, rule, i)
    ensures i < |t.seg| ==>
              t.seg[i].low <= BuyStop(t, rule, i) || t.seg[i].high >= t.entry + rule.targetPts
    decreases |t.seg| - k
  {
    if k == |t.seg| || t.seg[k].low <= BuyStop(t, rule, k) || t.seg[k].high >= t.entry + rule.targetPts {
      i := k;
    } else {
      i := BuyLeaves(t, rule, k + 1);
    }
  }

  /**
   It hits iff the first candle to leave the range stays clear of the stop then in force and
   reaches the target, and is stopped iff that candle reaches the original stop.
   */
  lemma BuyOutcome(t: Trade, rule: Rule)
    requires t.isBuy && t.seg != [] && rule.stopPts != 0.0
    ensures ExitOf(t, rule) == Hit <==>
            exists i :: 0 <= i < |t.seg| && BuyInside(t, rule, i)
                        && t.seg[i].low > BuyStop(t, rule, i) && t.seg[i].high >= t.entry + rule.targetPts
    ensures ExitOf(t, rule) == Stopped <==>
            exists i :: 0 <= i < |t.seg| && BuyInside(t, rule, i)
                        && !BuyMoved(t, rule, i) && t.seg[i].low <= t.entry - rule.stopPts
  {
    var k := BuyLeaves(t, rule, 0);
    BuyExactly(t, rule, k);
    forall i | 0 <= i < |t.seg| && BuyInside(t, rule, i)
      ensures t.seg[i].low > BuyStop(t, rule, i) && t.seg[i].high >= t.entry + rule.targetPts ==>
                ExitOf(t, rule) == Hit
      ensures t.seg[i].low <= BuyStop(t, rule, i) ==>
                ExitOf(t, rule) == if BuyMoved(t, rule, i) then Scratched else Stopped
    {
      BuyExactly(t, rule, i);
    }
  }

  /******* A SELL *******/

  /** A SELL ends as the BUY whose prices are reflected about the entry. */
  lemma SellByReflection(t: Trade, rule: Rule)
    requires !t.isBuy && t.seg != []
    ensures var m := Mirror(t);
            && m.isBuy && m.entry == t.entry && |m.seg| == |t.seg| && ExitOf(t, rule) == ExitOf(m, rule)
            && forall j :: 0 <= j < |t.seg| ==>
                 && m.seg[j].high == 2.0 * t.entry - t.seg[j].low
                 && m.seg[j].low == 2.0 * t.entry - t.seg[j].high
                 && m.seg[j].close == 2.0 * t.entry - t.seg[j].close
  {
    MirrorSymmetric(t, rule);
  }
}
