/**
 Fetching the candles between two true-UTC instants from a terminal that stamps bars on its own
 shifted clock: bars are fetched by position, their times corrected by an offset measured from
 the live tick, and filtered to the window widened by one bar.
 */
module Candles {
  // `open`: the bar's true UTC opening time.
  datatype Bar = Bar(open: real, price: real)

  datatype Candle = Candle(ts: int, price: real)

  /**
   The terminal at the moment of the call.  Every time it reports is true UTC plus `shift`, and
   its newest tick is `stale` seconds old.
   */
  datatype Terminal = Terminal(bars: seq<Bar>, shift: real, stale: real)

  /** Bars in time order, at least one bar apart, none opening in the future. */
  predicate WellFormed(term: Terminal, now: real, tf: real) {
    && tf > 0.0
    && (forall i :: 0 <= i < |term.bars| - 1 ==> term.bars[i].open + tf <= term.bars[i + 1].open)
    && (forall i :: 0 <= i < |term.bars| ==> term.bars[i].open <= now)
  }

  // Python's int(): towards zero.
  function Truncated(x: real): int { if x >= 0.0 then x.Floor else -((-x).Floor) }

  function RawTime(term: Terminal, bar: Bar): real { bar.open + term.shift }

  function TickTime(term: Terminal, now: real): real { now + term.shift - term.stale }

  function BarsNeeded(now: real, from: real, tf: real): nat
    requires tf > 0.0
  {
    var n := Truncated((now - from) / tf) + 5;
    if n > 5 then n else 5
  }

  // copy_rates_from_pos(0, n): the newest n bars, oldest first.
  function Newest(bars: seq<Bar>, n: nat): seq<Bar> {
    if n <= |bars| then bars[|bars| - n..] else bars
  }

  function TrueTime(term: Terminal, now: real, bar: Bar): real {
    RawTime(term, bar) - (TickTime(term, now) - now)
  }

  predicate InWindow(t: real, from: real, to: real, tf: real) { from - tf <= t <= to + tf }

  function Selected(term: Terminal, bars: seq<Bar>, now: real, from: real, to: real, tf: real): seq<Bar> {
    if bars == [] then []
    else
      Selected(term, bars[..|bars| - 1], now, from, to, tf)
      + if InWindow(TrueTime(term, now, bars[|bars| - 1]), from, to, tf) then [bars[|bars| - 1]] else []
  }

  function Converted(term: Terminal, bars: seq<Bar>, now: real): seq<Candle> {
    seq(|bars|, i requires 0 <= i < |bars| => Candle(Truncated(TrueTime(term, now, bars[i])), bars[i].price))
  }

  /** The bars `_get_candles_range` answers with. */
  function Fetched(term: Terminal, now: real, from: real, to: real, tf: real): seq<Bar>
    requires tf > 0.0
  {
    Selected(term, Newest(term.bars, BarsNeeded(now, from, tf)), now, from, to, tf)
  }

  /** `_get_candles_range`, once connected and with a tick. */
  method GetCandlesRange(term: Terminal, now: real, from: real, to: real, tf: real) returns (result: seq<Candle>)
    requires tf > 0.0
    ensures result == Converted(term, Fetched(term, now, from, to, tf), now)
  {
    var offset := TickTime(term, now) - now;
    var rates := Newest(term.bars, BarsNeeded(now, from, tf));
    result := [];
    for i := 0 to |rates|
      invariant result == Converted(term, Selected(term, rates[..i], now, from, to, tf), now)
    {
      var trueTs := RawTime(term, rates[i]) - offset;
      assert rates[..i + 1][..i] == rates[..i];
      if from - tf <= trueTs && trueTs <= to + tf {
        result := result + [Candle(Truncated(trueTs), rates[i].price)];
      }
    }
    assert rates[..|rates|] == rates;
  }

  /** Each candle carries its bar's price and its true opening time plus the staleness, cut to whole seconds. */
  lemma ConvertedExactly(term: Terminal, bars: seq<Bar>, now: real)
    ensures var result := Converted(term, bars, now);
            && |result| == |bars|
            && forall j :: 0 <= j < |bars| ==>
                 var seconds := bars[j].open + term.stale;
                 && result[j].price == bars[j].price
                 && (seconds >= 0.0 ==> result[j].ts as real <= seconds < result[j].ts as real + 1.0)
                 && (seconds <= 0.0 ==> result[j].ts as real - 1.0 < seconds <= result[j].ts as real)
  {
    forall j | 0 <= j < |bars|
      ensures var seconds, ts := bars[j].open + term.stale, Converted(term, bars, now)[j].ts as real;
              && (seconds >= 0.0 ==> ts <= seconds < ts + 1.0) && (seconds <= 0.0 ==> ts - 1.0 < seconds <= ts)
    {
      assert TrueTime(term, now, bars[j]) == bars[j].open + term.stale;
    }
  }

  ghost predicate InOrder(bars: seq<Bar>) {
    forall i, j :: 0 <= i < j < |bars| ==> bars[i].open < bars[j].open
  }

  /** The selection keeps the bars' order. */
  lemma {:induction false} SelectedInOrder(
      term: Terminal, bars: seq<Bar>, now: real, from: real, to: real, tf: real)
    requires InOrder(bars)
    ensures InOrder(Selected(term, bars, now, from, to, tf))
  {
    if bars != [] {
      var n := |bars| - 1;
      var before := Selected(term, bars[..n], now, from, to, tf);
      SelectedInOrder(term, bars[..n], now, from, to, tf);
      forall i | 0 <= i < |before| ensures before[i].open < bars[n].open {
        SelectedExactly(term, bars[..n], now, from, to, tf, before[i]);
        var k :| 0 <= k < n && bars[..n][k] == before[i];
        assert bars[k] == before[i];
      }
      assert InOrder(before + [bars[n]]);
    }
  }

  /** How many bars are asked for: five more than whole bars fit between the start and now, five at least. */
  lemma CountExactly(now: real, from: real, tf: real)
    requires tf > 0.0
    ensures var bars, n := (now - from) / tf, BarsNeeded(now, from, tf) as real;
            && (bars >= 0.0 ==> n - 5.0 <= bars < n - 4.0)
            && (bars <= 0.0 ==> n == 5.0)
  {
  }

  lemma {:induction false} SelectedExactly(
      term: Terminal, bars: seq<Bar>, now: real, from: real, to: real, tf: real, b: Bar)
    ensures b in Selected(term, bars, now, from, to, tf)
        <==> b in bars && InWindow(TrueTime(term, now, b), from, to, tf)
  {
    if bars != [] {
      var n := |bars| - 1;
      SelectedExactly(term, bars[..n], now, from, to, tf, b);
      assert bars == bars[..n] + [bars[n]];
    }
  }

  // Bars one after another take up at least their number of bar lengths.
  lemma {:induction false} Span(term: Terminal, now: real, tf: real, i: nat, j: nat)
    requires WellFormed(term, now, tf) && i <= j < |term.bars|
    ensures term.bars[i].open + (j - i) as real * tf <= term.bars[j].open
    decreases j
  {
    if i < j {
      Span(term, now, tf, i, j - 1);
      assert (j - i) as real * tf == (j - 1 - i) as real * tf + tf;
    }
  }

  lemma CountFits(gap: real, tf: real, n: nat)
    requires tf > 0.0 && n as real * tf <= gap
    ensures n <= Truncated(gap / tf)
  {
    var q := gap / tf;
    assert q * tf == gap;
    assert (q - n as real) * tf >= 0.0;
    assert q >= n as real;
  }

  /** Fetching by position reaches back far enough: every existing bar opening at or after `from` is fetched. */
  lemma ReachesBack(term: Terminal, now: real, from: real, tf: real, i: nat)
    requires WellFormed(term, now, tf) && i < |term.bars| && from <= term.bars[i].open
    ensures term.bars[i] in Newest(term.bars, BarsNeeded(now, from, tf))
  {
    var n := BarsNeeded(now, from, tf);
    var last := |term.bars| - 1;
    Span(term, now, tf, i, last);
    CountFits(now - from, tf, last - i);
    if n <= |term.bars| {
      assert Newest(term.bars, n)[i - (|term.bars| - n)] == term.bars[i];
    }
  }

  /**
   For any clock shift and any tick up to one bar old, every existing bar that opened in
   [from, to] is returned, and none more than one bar and the staleness outside it.
   */
  lemma FetchIsComplete(term: Terminal, now: real, from: real, to: real, tf: real, i: nat)
    requires WellFormed(term, now, tf) && 0.0 <= term.stale <= tf && i < |term.bars|
    ensures from <= term.bars[i].open <= to ==> term.bars[i] in Fetched(term, now, from, to, tf)
    ensures term.bars[i] in Fetched(term, now, from, to, tf) ==>
              from - tf - term.stale <= term.bars[i].open <= to + tf - term.stale
  {
    var rates := Newest(term.bars, BarsNeeded(now, from, tf));
    SelectedExactly(term, rates, now, from, to, tf, term.bars[i]);
    assert TrueTime(term, now, term.bars[i]) == term.bars[i].open + term.stale;
    if from <= term.bars[i].open <= to {
      ReachesBack(term, now, from, tf, i);
    }
  }

  /** Is every bar of the window returned, for every window and every history? */
  ghost predicate AlwaysComplete(stale: real, tf: real)
    requires tf > 0.0
  {
    forall bars: seq<Bar>, shift: real, now: real, from: real, to: real ::
      WellFormed(Terminal(bars, shift, stale), now, tf) ==>
        forall i :: 0 <= i < |bars| && from <= bars[i].open <= to ==>
          bars[i] in Fetched(Terminal(bars, shift, stale), now, from, to, tf)
  }

  /** Exactly when the tick and this clock are within one bar of each other. */
  lemma CompleteExactly(stale: real, tf: real)
    requires tf > 0.0
    ensures AlwaysComplete(stale, tf) <==> -tf <= stale <= tf
  {
    if -tf <= stale <= tf {
      forall bars: seq<Bar>, shift: real, now: real, from: real, to: real, i: int
        | WellFormed(Terminal(bars, shift, stale), now, tf) && 0 <= i < |bars| && from <= bars[i].open <= to
        ensures bars[i] in Fetched(Terminal(bars, shift, stale), now, from, to, tf)
      {
        var term := Terminal(bars, shift, stale);
        SelectedExactly(term, Newest(bars, BarsNeeded(now, from, tf)), now, from, to, tf, bars[i]);
        ReachesBack(term, now, from, tf, i);
        assert TrueTime(term, now, bars[i]) == bars[i].open + stale;
      }
    } else {
      // A window holding one bar's opening and nothing else.
      var term := Terminal([Bar(0.0, 1.0)], 0.0, stale);
      assert WellFormed(term, 0.0, tf);
      SelectedExactly(term, Newest(term.bars, BarsNeeded(0.0, 0.0, tf)), 0.0, 0.0, 0.0, tf, term.bars[0]);
      assert TrueTime(term, 0.0, term.bars[0]) == stale;
      assert term.bars[0] !in Fetched(term, 0.0, 0.0, 0.0, tf);
    }
  }
}
