/**
 Stop clamping: levels closer to the quote than the broker's minimum distance are padded out to
 it, and every level sent is rounded to two decimals.
 */
module Stops {
  import opened Common

  // Python's round: nearest, ties to even.
  function RoundHalfEven(y: real): int {
    var f := y.Floor;
    var d := y - f as real;
    if d < 0.5 then f else if d > 0.5 then f + 1 else if f % 2 == 0 then f else f + 1
  }

  function Round2(x: real): real { RoundHalfEven(x * 100.0) as real / 100.0 }

  lemma RoundNear(x: real)
    ensures -0.005 <= Round2(x) - x <= 0.005
  {
    var y := x * 100.0;
    assert -0.5 <= RoundHalfEven(y) as real - y <= 0.5;
  }

  lemma RoundWhole(n: int)
    ensures RoundHalfEven(n as real) == n
  {
    assert (n as real).Floor == n;
  }

  lemma RoundIdempotent(x: real)
    ensures Round2(Round2(x)) == Round2(x)
  {
    RoundWhole(RoundHalfEven(x * 100.0));
    assert Round2(x) * 100.0 == RoundHalfEven(x * 100.0) as real;
  }

  lemma RoundMonotone(x: real, y: real)
    requires x <= y
    ensures Round2(x) <= Round2(y)
  {
    var a, b := x * 100.0, y * 100.0;
    assert a <= b && a.Floor <= b.Floor;
    assert RoundHalfEven(a) <= RoundHalfEven(b);
  }

  datatype Quote = Quote(bid: real, ask: real)

  datatype SymbolInfo = SymbolInfo(point: real, stopsLevel: int, freezeLevel: int)

  function Point(info: SymbolInfo): real { if info.point == 0.0 then 0.01 else info.point }

  function MinPoints(info: SymbolInfo): int {
    if info.stopsLevel > info.freezeLevel then info.stopsLevel else info.freezeLevel
  }

  // One point of headroom over the broker's minimum; 0 when the broker declares none.
  function MinDist(info: SymbolInfo): real {
    if MinPoints(info) > 0 then (MinPoints(info) + 1) as real * Point(info) else 0.0
  }

  datatype Side = Below | Above

  // The nearest a level may be on its side of the quote.
  function Edge(side: Side, quote: real, dist: real): real {
    if side == Below then quote - dist else quote + dist
  }

  predicate TooNear(side: Side, level: real, edge: real) {
    if side == Below then level > edge else level < edge
  }

  function Clamp(side: Side, level: real, quote: real, dist: real): real {
    if dist > 0.0 && TooNear(side, level, Edge(side, quote, dist)) then Round2(Edge(side, quote, dist)) else level
  }

  /** The value put into the request; None and 0 both mean no level. */
  function Sent(side: Side, level: Option<real>, quote: real, dist: real): Option<real> {
    if level.None? || level.value == 0.0 then None
    else
      var clamped := Clamp(side, level.value, quote, dist);
      if clamped == 0.0 then None else Some(Round2(clamped))
  }

  datatype Levels = Levels(sl: Option<real>, tp: Option<real>)

  /** `_place_order`: a BUY's stop is measured from the bid and its target from the ask, a SELL's the other way. */
  function PlaceLevels(isBuy: bool, want: Levels, quote: Quote, info: SymbolInfo): Levels {
    var d := MinDist(info);
    if isBuy then Levels(Sent(Below, want.sl, quote.bid, d), Sent(Above, want.tp, quote.ask, d))
    else Levels(Sent(Above, want.sl, quote.ask, d), Sent(Below, want.tp, quote.bid, d))
  }

  /**
   `_modify_position`: both levels are measured from the price the position closes at; a level
   not supplied stays, and nothing is clamped when the terminal gives no quote or no symbol data.
   */
  function ModifyLevels(
      isBuy: bool, want: Levels, quote: Option<Quote>, info: Option<SymbolInfo>, current: Levels): Levels {
    var d := if quote.Some? && info.Some? then MinDist(info.value) else 0.0;
    var price := if quote.None? then 0.0 else if isBuy then quote.value.bid else quote.value.ask;
    var sl := Sent(if isBuy then Below else Above, want.sl, price, d);
    var tp := Sent(if isBuy then Above else Below, want.tp, price, d);
    Levels(if sl.None? then current.sl else sl, if tp.None? then current.tp else tp)
  }

  function Distance(side: Side, level: real, quote: real): real {
    if side == Below then quote - level else level - quote
  }

  // What the broker asks for, in price.
  function Required(info: SymbolInfo): real { MinPoints(info) as real * Point(info) }

  predicate Legal(side: Side, sent: Option<real>, quote: real, info: SymbolInfo) {
    sent.Some? ==> Distance(side, sent.value, quote) >= Required(info)
  }

  /******* What is sent, in prices *******/

  /** round(x, 2): the nearest multiple of 0.01, of two equally near ones the even one. */
  lemma Round2Exactly(x: real, n: int)
    ensures Round2(x) == n as real / 100.0 <==>
            var off := 100.0 * x - n as real;
            -0.5 <= off <= 0.5 && (off == 0.5 || off == -0.5 ==> n % 2 == 0)
  {
    var y, off := x * 100.0, 100.0 * x - n as real;
    if -0.5 <= off <= 0.5 {
      assert y.Floor == n || y.Floor == n - 1;
    }
  }

  /** The least distance: one point more than the larger of the two broker levels, none without either. */
  lemma MinDistExactly(info: SymbolInfo)
    ensures info.stopsLevel <= 0 && info.freezeLevel <= 0 ==> MinDist(info) == 0.0
    ensures var point := if info.point == 0.0 then 0.01 else info.point;
            && (info.stopsLevel > 0 && info.stopsLevel >= info.freezeLevel ==>
                  MinDist(info) == (info.stopsLevel as real + 1.0) * point)
            && (info.freezeLevel > 0 && info.freezeLevel >= info.stopsLevel ==>
                  MinDist(info) == (info.freezeLevel as real + 1.0) * point)
  {
  }

  // Nothing is sent for no level or 0.  A level that stays below `limit` is sent as asked, rounded;
  // one that does not is replaced by the limit, rounded, or by nothing where that is 0.
  predicate SentBelow(asked: Option<real>, limited: bool, limit: real, sent: Option<real>) {
    if asked.None? || asked.value == 0.0 then sent == None
    else if !limited || asked.value <= limit then sent == Some(Round2(asked.value))
    else sent == if Round2(limit) == 0.0 then None else Some(Round2(limit))
  }

  predicate SentAbove(asked: Option<real>, limited: bool, limit: real, sent: Option<real>) {
    if asked.None? || asked.value == 0.0 then sent == None
    else if !limited || asked.value >= limit then sent == Some(Round2(asked.value))
    else sent == if Round2(limit) == 0.0 then None else Some(Round2(limit))
  }

  lemma SentInPrices(asked: Option<real>, quote: real, d: real)
    ensures SentBelow(asked, d > 0.0, quote - d, Sent(Below, asked, quote, d))
    ensures SentAbove(asked, d > 0.0, quote + d, Sent(Above, asked, quote, d))
  {
    RoundIdempotent(quote - d);
    RoundIdempotent(quote + d);
  }

  /** What a new order carries: a level far enough from its quote goes out as asked. */
  lemma PlaceExactly(isBuy: bool, want: Levels, quote: Quote, info: SymbolInfo)
    ensures var sent, d := PlaceLevels(isBuy, want, quote, info), MinDist(info);
            var below, above := quote.bid - d, quote.ask + d;
            if isBuy
            then SentBelow(want.sl, d > 0.0, below, sent.sl) && SentAbove(want.tp, d > 0.0, above, sent.tp)
            else SentAbove(want.sl, d > 0.0, above, sent.sl) && SentBelow(want.tp, d > 0.0, below, sent.tp)
  {
    var d := MinDist(info);
    SentInPrices(want.sl, if isBuy then quote.bid else quote.ask, d);
    SentInPrices(want.tp, if isBuy then quote.ask else quote.bid, d);
  }

  /** What a modify request carries: the same against the price the position closes at, or what the position has. */
  lemma ModifyExactly(isBuy: bool, want: Levels, quote: Option<Quote>, info: Option<SymbolInfo>, current: Levels)
    ensures var sent := ModifyLevels(isBuy, want, quote, info, current);
            var d := if quote.Some? && info.Some? then MinDist(info.value) else 0.0;
            var price := if quote.None? then 0.0 else if isBuy then quote.value.bid else quote.value.ask;
            exists sl: Option<real>, tp: Option<real> ::
              && sent == Levels(if sl.None? then current.sl else sl, if tp.None? then current.tp else tp)
              && if isBuy
                 then SentBelow(want.sl, d > 0.0, price - d, sl) && SentAbove(want.tp, d > 0.0, price + d, tp)
                 else SentAbove(want.sl, d > 0.0, price + d, sl) && SentBelow(want.tp, d > 0.0, price - d, tp)
  {
    var d := if quote.Some? && info.Some? then MinDist(info.value) else 0.0;
    var price := if quote.None? then 0.0 else if isBuy then quote.value.bid else quote.value.ask;
    SentInPrices(want.sl, price, d);
    SentInPrices(want.tp, price, d);
    var sl := Sent(if isBuy then Below else Above, want.sl, price, d);
    var tp := Sent(if isBuy then Above else Below, want.tp, price, d);
    assert if isBuy
           then SentBelow(want.sl, d > 0.0, price - d, sl) && SentAbove(want.tp, d > 0.0, price + d, tp)
           else SentAbove(want.sl, d > 0.0, price + d, sl) && SentBelow(want.tp, d > 0.0, price - d, tp);
  }

  /** A level that is sent lies no further from the one asked for than the limit does, but for the rounding. */
  lemma MovedNoFurther(asked: real, limited: bool, limit: real, sent: real)
    requires asked != 0.0
    ensures SentBelow(Some(asked), limited, limit, Some(sent)) ==>
              sent <= asked + 0.005 && sent >= (if limited && limit < asked then limit else asked) - 0.005
    ensures SentAbove(Some(asked), limited, limit, Some(sent)) ==>
              sent >= asked - 0.005 && sent <= (if limited && limit > asked then limit else asked) + 0.005
  {
    RoundNear(asked);
    RoundNear(limit);
  }

  /** Whatever level is asked for, the level sent keeps the broker's distance after both roundings. */
  lemma SentKeepsDistance(side: Side, level: Option<real>, quote: real, info: SymbolInfo)
    requires MinPoints(info) > 0 && Point(info) >= 0.005
    ensures Legal(side, Sent(side, level, quote, MinDist(info)), quote, info)
  {
    var d := MinDist(info);
    assert d == Required(info) + Point(info) && d > 0.0 by {
      assert (MinPoints(info) + 1) as real * Point(info) == MinPoints(info) as real * Point(info) + Point(info);
      assert MinPoints(info) as real * Point(info) >= 0.0;
    }
    var edge := Edge(side, quote, d);
    RoundNear(edge);
    RoundIdempotent(edge);
    if level.Some? {
      if side == Below && level.value <= edge {
        RoundMonotone(level.value, edge);
      }
      if side == Above && level.value >= edge {
        RoundMonotone(edge, level.value);
      }
    }
  }

  lemma PlaceKeepsDistance(isBuy: bool, want: Levels, quote: Quote, info: SymbolInfo)
    requires MinPoints(info) > 0 && Point(info) >= 0.005
    ensures var sent := PlaceLevels(isBuy, want, quote, info);
            if isBuy then Legal(Below, sent.sl, quote.bid, info) && Legal(Above, sent.tp, quote.ask, info)
            else Legal(Above, sent.sl, quote.ask, info) && Legal(Below, sent.tp, quote.bid, info)
  {
    if isBuy {
      SentKeepsDistance(Below, want.sl, quote.bid, info);
      SentKeepsDistance(Above, want.tp, quote.ask, info);
    } else {
      SentKeepsDistance(Above, want.sl, quote.ask, info);
      SentKeepsDistance(Below, want.tp, quote.bid, info);
    }
  }

  // A level that is asked for, and that clamping does not turn into 0, which means no level.
  predicate Supplied(side: Side, level: Option<real>, quote: real, dist: real) {
    && level.Some? && level.value != 0.0
    && !(dist > 0.0 && TooNear(side, level.value, Edge(side, quote, dist)) && Round2(Edge(side, quote, dist)) == 0.0)
  }

  /** A level reaches the request iff it is supplied so: one padded out to exactly 0 is lost. */
  lemma SentExactly(side: Side, level: Option<real>, quote: real, dist: real)
    ensures Sent(side, level, quote, dist).Some? <==> Supplied(side, level, quote, dist)
  {
  }

  /**
   Every level supplied to a modify request is sent and keeps the distance; otherwise the
   position's own level stays.
   */
  lemma ModifyKeepsDistance(isBuy: bool, want: Levels, quote: Quote, info: SymbolInfo, current: Levels)
    requires MinPoints(info) > 0 && Point(info) >= 0.005
    ensures var sent := ModifyLevels(isBuy, want, Some(quote), Some(info), current);
            var price, d := if isBuy then quote.bid else quote.ask, MinDist(info);
            var slSide, tpSide := if isBuy then Below else Above, if isBuy then Above else Below;
            && (if Supplied(slSide, want.sl, price, d)
                then sent.sl == Sent(slSide, want.sl, price, d) && sent.sl.Some? && Legal(slSide, sent.sl, price, info)
                else sent.sl == current.sl)
            && (if Supplied(tpSide, want.tp, price, d)
                then sent.tp == Sent(tpSide, want.tp, price, d) && sent.tp.Some? && Legal(tpSide, sent.tp, price, info)
                else sent.tp == current.tp)
  {
    var price, d := if isBuy then quote.bid else quote.ask, MinDist(info);
    var slSide, tpSide := if isBuy then Below else Above, if isBuy then Above else Below;
    SentKeepsDistance(slSide, want.sl, price, info);
    SentKeepsDistance(tpSide, want.tp, price, info);
    SentExactly(slSide, want.sl, price, d);
    SentExactly(tpSide, want.tp, price, d);
  }

  // Two multiples of 0.01 on the same side of a value and within half a step of it are one.
  lemma SameCent(a: real, b: real, edge: real)
    requires (edge < Round2(a) <= edge + 0.005 && edge < Round2(b) <= edge + 0.005)
             || (edge - 0.005 <= Round2(a) < edge && edge - 0.005 <= Round2(b) < edge)
    ensures Round2(a) == Round2(b)
  {
    var m, n := RoundHalfEven(a * 100.0), RoundHalfEven(b * 100.0);
    assert (m - n) as real / 100.0 == Round2(a) - Round2(b);
    assert -1.0 < (m - n) as real < 1.0;
  }

  /** Sending a sent level again at the same quote changes nothing. */
  lemma ReclampIsStable(side: Side, level: Option<real>, quote: real, dist: real)
    ensures var sent := Sent(side, level, quote, dist);
            sent.Some? && sent.value != 0.0 ==> Sent(side, sent, quote, dist) == sent
  {
    var sent := Sent(side, level, quote, dist);
    if sent.Some? && sent.value != 0.0 {
      var clamped, edge := Clamp(side, level.value, quote, dist), Edge(side, quote, dist);
      RoundIdempotent(clamped);
      RoundIdempotent(edge);
      if dist > 0.0 && TooNear(side, sent.value, edge) && !TooNear(side, level.value, edge) {
        RoundNear(edge);
        if side == Below {
          RoundMonotone(clamped, edge);
        } else {
          RoundMonotone(edge, clamped);
        }
        SameCent(clamped, edge, edge);
      }
    }
  }

  /** Does every quote and every level asked for on this side give a legal one? */
  ghost predicate AlwaysLegal(side: Side, info: SymbolInfo) {
    forall level: Option<real>, quote: real :: Legal(side, Sent(side, level, quote, MinDist(info)), quote, info)
  }

  /** For a broker that declares a minimum, on either side exactly when a point is at least half a cent. */
  lemma DistanceExactly(side: Side, info: SymbolInfo)
    requires MinPoints(info) > 0 && Point(info) > 0.0
    ensures AlwaysLegal(side, info) <==> Point(info) >= 0.005
  {
    if Point(info) >= 0.005 {
      forall level: Option<real>, quote: real
        ensures Legal(side, Sent(side, level, quote, MinDist(info)), quote, info)
      {
        SentKeepsDistance(side, level, quote, info);
      }
    } else {
      TieComesTooNear(side, info);
    }
  }

  // 1.015 and 1.025 are ties that round to 1.02: half a cent towards a quote above or below.
  lemma TieComesTooNear(side: Side, info: SymbolInfo)
    requires MinPoints(info) > 0 && 0.0 < Point(info) < 0.005
    ensures !AlwaysLegal(side, info)
  {
    var d := MinDist(info);
    assert d == Required(info) + Point(info) && d > 0.0 by {
      assert (MinPoints(info) + 1) as real * Point(info) == MinPoints(info) as real * Point(info) + Point(info);
      assert MinPoints(info) as real * Point(info) >= 0.0;
    }
    var edge := if side == Below then 1.015 else 1.025;
    var quote := if side == Below then edge + d else edge - d;
    assert 101.5.Floor == 101 && 102.5.Floor == 102;
    assert Round2(edge) == 1.02;
    RoundIdempotent(edge);
    assert Edge(side, quote, d) == edge;
    if quote != 0.0 {
      assert Sent(side, Some(quote), quote, d) == Some(1.02);
      assert Distance(side, 1.02, quote) < Required(info);
      assert !Legal(side, Sent(side, Some(quote), quote, d), quote, info);
    } else {
      assert Sent(side, Some(-1.0), quote, d) == Some(1.02);
      assert !Legal(side, Sent(side, Some(-1.0), quote, d), quote, info);
    }
  }
}

/**
 Sending a market order: the same request is tried under three filling modes, and tried again
 only after a reply that says nothing was executed.
 */
module OrderSend {
  import opened Common
  import opened Stops

  const DONE := 10009
  const AUTOTRADING_OFF := 10027

  datatype Filling = Return | Ioc | Fok

  const FILL_MODES := [Return, Ioc, Fok]

  /** What `order_send` gives back: nothing, an exception, or a reply. */
  datatype Reply = Lost | Raised | Answer(retcode: int)

  // The environment's choice for one send: its reply, and whether a deal was executed.
  datatype Response = Response(reply: Reply, executed: bool)

  // _FILL_ERRORS
  predicate Retryable(reply: Reply) { reply.Answer? && reply.retcode in {10018, 10004, 10030} }

  /** The one assumption about the broker: those three codes mean nothing was executed. */
  ghost predicate Honest(respond: nat -> Response) {
    forall n: nat :: Retryable(respond(n).reply) ==> !respond(n).executed
  }

  datatype Result =
    | NotSent(reason: Option<int>)    // a pre-flight check failed
    | Filled
    | Unknown                         // the reply was lost
    | Rejected(code: int)
    | Failed                          // an exception, reported as a plain error

  function Classify(last: Reply): Result {
    match last
    case Lost => Unknown
    case Raised => Failed
    case Answer(retcode) => if retcode == DONE then Filled else Rejected(retcode)
  }

  // The sends of one call: how many, the last reply, and the deals they executed.
  datatype Sends = Sends(count: nat, last: Reply, deals: nat)

  function SendFrom(respond: nat -> Response, n: nat, modes: nat): Sends
    requires modes > 0
    decreases modes
  {
    var r := respond(n);
    var deal := if r.executed then 1 else 0;
    if Retryable(r.reply) && modes > 1 then
      var rest := SendFrom(respond, n + 1, modes - 1);
      Sends(rest.count + 1, rest.last, rest.deals + deal)
    else Sends(1, r.reply, deal)
  }

  /** One call executes at most one deal, and none if it ends on a code that means none. */
  lemma {:induction false} AtMostOneDeal(respond: nat -> Response, n: nat, modes: nat)
    requires modes > 0 && Honest(respond)
    ensures var sends := SendFrom(respond, n, modes);
            sends.deals <= 1 && (Retryable(sends.last) ==> sends.deals == 0)
    decreases modes
  {
    if Retryable(respond(n).reply) && modes > 1 {
      AtMostOneDeal(respond, n + 1, modes - 1);
    }
  }

  /** It never sends again after a reply that might have executed, and tries no mode twice. */
  lemma {:induction false} ResendsOnlyWhenSafe(respond: nat -> Response, n: nat, modes: nat)
    requires modes > 0
    ensures var sends := SendFrom(respond, n, modes);
            && 1 <= sends.count <= modes
            && (forall i :: n <= i < n + sends.count - 1 ==> Retryable(respond(i).reply))
            && sends.last == respond(n + sends.count - 1).reply
            && (sends.count < modes ==> !Retryable(sends.last))
    decreases modes
  {
    if Retryable(respond(n).reply) && modes > 1 {
      ResendsOnlyWhenSafe(respond, n + 1, modes - 1);
    }
  }

  /** Under that assumption the deals of a call are those of its last send. */
  lemma {:induction false} DealsExactly(respond: nat -> Response, n: nat, modes: nat)
    requires modes > 0 && Honest(respond)
    ensures var sends := SendFrom(respond, n, modes);
            sends.deals == if respond(n + sends.count - 1).executed then 1 else 0
    decreases modes
  {
    if Retryable(respond(n).reply) && modes > 1 {
      DealsExactly(respond, n + 1, modes - 1);
    }
  }

  // What the bridge reports of a call that sends.
  function Report(respond: nat -> Response, n: nat): Result {
    Classify(SendFrom(respond, n, 3).last)
  }

  // The last send of the call.
  function LastSend(respond: nat -> Response, n: nat): Response {
    respond(n + SendFrom(respond, n, 3).count - 1)
  }

  // DONE means that the deal was executed.
  ghost predicate DoneIsDone(respond: nat -> Response) {
    forall n: nat :: respond(n).reply == Answer(DONE) ==> respond(n).executed
  }

  /**
   The report tells a deal that happened, a rejection and a lost reply apart: success stands for
   exactly one deal, a rejection with one of the three codes for none.
   */
  lemma ReportIsTruthful(respond: nat -> Response, n: nat)
    requires Honest(respond) && DoneIsDone(respond)
    ensures var report, sends := Report(respond, n), SendFrom(respond, n, 3);
            && (report == Filled ==> sends.deals == 1)
            && (report == Filled <==> LastSend(respond, n).reply == Answer(10009))
            && (report == Unknown <==> LastSend(respond, n).reply == Lost)
            && (report.Rejected? && report.code in {10018, 10004, 10030} ==> sends.deals == 0)
  {
    DealsExactly(respond, n, 3);
    ResendsOnlyWhenSafe(respond, n, 3);
  }

  /** A deal was executed, and the caller is told neither that it was nor that it may have been. */
  predicate HidesADeal(respond: nat -> Response, n: nat) {
    SendFrom(respond, n, 3).deals > 0 && Report(respond, n) !in {Filled, Unknown}
  }

  // A reply other than a lost one, DONE and the three codes.
  predicate Misread(reply: Reply) {
    reply.Raised? || (reply.Answer? && reply.retcode != DONE && !Retryable(reply))
  }

  /**
   A deal is hidden exactly when the last send executed one and answered with an exception or
   with a code that is neither DONE nor one of the three, such as 10010 for a partial fill.
   */
  lemma HiddenDealExactly(respond: nat -> Response, n: nat)
    requires Honest(respond)
    ensures HidesADeal(respond, n) <==> LastSend(respond, n).executed && Misread(LastSend(respond, n).reply)
  {
    DealsExactly(respond, n, 3);
    ResendsOnlyWhenSafe(respond, n, 3);
  }

  /** Two brokers that keep the assumption and hide a deal: one raises, one fills in part. */
  lemma DealsAreHidden()
    ensures exists respond: nat -> Response ::
              Honest(respond) && HidesADeal(respond, 0) && Report(respond, 0) == Failed
    ensures exists respond: nat -> Response ::
              Honest(respond) && DoneIsDone(respond) && HidesADeal(respond, 0) && Report(respond, 0) == Rejected(10010)
  {
    var raises: nat -> Response := n => Response(Raised, true);
    assert Honest(raises);
    assert SendFrom(raises, 0, 3) == Sends(1, Raised, 1);
    var partly: nat -> Response := n => Response(Answer(10010), true);
    assert Honest(partly) && DoneIsDone(partly);
    assert SendFrom(partly, 0, 3) == Sends(1, Answer(10010), 1);
  }

  /** So no call of a broker hides a deal iff it never executes one behind such a reply. */
  lemma NeverHiddenExactly(respond: nat -> Response)
    requires Honest(respond)
    ensures (forall n: nat :: !HidesADeal(respond, n))
            <==> forall n: nat :: respond(n).executed ==> !Misread(respond(n).reply)
  {
    forall n: nat
      ensures HidesADeal(respond, n) ==> exists m: nat :: respond(m).executed && Misread(respond(m).reply)
      ensures respond(n).executed && Misread(respond(n).reply) ==> HidesADeal(respond, n)
    {
      HiddenDealExactly(respond, n);
      if respond(n).executed && Misread(respond(n).reply) {
        assert SendFrom(respond, n, 3).count == 1 && LastSend(respond, n) == respond(n);
      }
    }
  }

  /******* The call itself *******/

  // What the terminal says before the order: None where it answers nothing.
  datatype Market = Market(
    connected: bool, quote: Option<Quote>, info: Option<SymbolInfo>, tradeMode: int, tradeAllowed: Option<bool>)

  datatype Request = Request(isBuy: bool, price: real, levels: Levels, filling: Filling)

  /** None when the order may be sent, else the pre-flight refusal. */
  function Preflight(m: Market): Option<Result> {
    if !m.connected || m.quote.None? || m.info.None? then Some(NotSent(None))
    else if m.tradeMode == 0 || m.tradeMode == 3 then Some(NotSent(None))
    else if m.tradeAllowed == Some(false) then Some(NotSent(Some(AUTOTRADING_OFF)))
    else None
  }

  /** An order goes out iff the terminal is connected and answers, the symbol can be opened and trading is allowed. */
  lemma PreflightExactly(m: Market)
    ensures Preflight(m).None? <==>
            && m.connected && m.quote.Some? && m.info.Some?
            && m.tradeMode != 0 && m.tradeMode != 3 && m.tradeAllowed != Some(false)
    ensures Preflight(m) == Some(NotSent(Some(10027))) <==>
            && m.connected && m.quote.Some? && m.info.Some?
            && m.tradeMode != 0 && m.tradeMode != 3 && m.tradeAllowed == Some(false)
  {
  }

  class Broker {
    const respond: nat -> Response
    var sent: seq<Request>
    var deals: nat

    constructor (respond: nat -> Response)
      ensures this.respond == respond && sent == [] && deals == 0
    {
      this.respond := respond;
      sent, deals := [], 0;
    }

    method OrderSendOnce(request: Request) returns (reply: Reply)
      modifies this
      ensures reply == respond(|old(sent)|).reply
      ensures sent == old(sent) + [request]
      ensures deals == old(deals) + if respond(|old(sent)|).executed then 1 else 0
    {
      var r := respond(|sent|);
      sent := sent + [request];
      deals := deals + if r.executed then 1 else 0;
      reply := r.reply;
    }

    // The loop over the filling modes; `type_filling` is rewritten before every send.
    method SendUnderEachMode(base: Request) returns (reply: Reply)
      modifies this
      ensures var sends := SendFrom(respond, |old(sent)|, 3);
              && reply == sends.last && deals == old(deals) + sends.deals
              && SentAre(old(sent), base, sends.count)
    {
      ghost var first := |sent|;
      reply := Lost;
      var request := base;
      for i := 0 to 3
        invariant SentAre(old(sent), base, i) && request == base.(filling := request.filling)
        invariant i < 3 ==> StillToCome(old(deals), first, i)
        invariant i == 3 ==> deals >= old(deals) && SendFrom(respond, first, 3) == Sends(3, reply, deals - old(deals))
      {
        request := request.(filling := FILL_MODES[i]);
        reply := OrderSendOnce(request);
        if !Retryable(reply) {
          return;
        }
      }
    }

    // RETURN first, then IOC, then FOK.
    static function Mode(i: int): Filling { if i == 0 then Return else if i == 1 then Ioc else Fok }

    // Exactly `n` requests were added, in mode order and otherwise alike.
    ghost predicate SentAre(before: seq<Request>, base: Request, n: nat)
      reads this
    {
      && n <= 3 && |sent| == |before| + n && sent[..|before|] == before
      && forall j :: |before| <= j < |sent| ==> sent[j] == base.(filling := Mode(j - |before|))
    }

    // The whole call is the `i` safe sends made so far and the rest.
    ghost predicate StillToCome(before: nat, first: nat, i: nat)
      requires i < 3
      reads this
    {
      var all, rest := SendFrom(respond, first, 3), SendFrom(respond, first + i, 3 - i);
      all.count == i + rest.count && all.last == rest.last && before + all.deals == deals + rest.deals
    }

    /** `_place_order`. */
    method PlaceOrder(m: Market, isBuy: bool, want: Levels) returns (result: Result)
      modifies this
      ensures Preflight(m).Some? ==> result == Preflight(m).value && sent == old(sent) && deals == old(deals)
      ensures Preflight(m).None? ==>
                var sends := SendFrom(respond, |old(sent)|, 3);
                && result == Classify(sends.last)
                && deals == old(deals) + sends.deals
                && SentAre(old(sent), MakeRequest(m, isBuy, want), sends.count)
      ensures Honest(respond) ==> deals <= old(deals) + 1
    {
      if Preflight(m).Some? {
        return Preflight(m).value;
      }
      if Honest(respond) {
        AtMostOneDeal(respond, |sent|, 3);
      }
      var reply := SendUnderEachMode(MakeRequest(m, isBuy, want));
      result := Classify(reply);
    }
  }

  /** What is sent, field by field: a BUY at the ask, a SELL at the bid, with the levels of `PlaceLevels`. */
  lemma RequestExactly(m: Market, want: Levels)
    requires m.quote.Some? && m.info.Some?
    ensures var buy, sell := MakeRequest(m, true, want), MakeRequest(m, false, want);
            && buy.isBuy && buy.price == m.quote.value.ask
            && buy.levels == PlaceLevels(true, want, m.quote.value, m.info.value)
            && !sell.isBuy && sell.price == m.quote.value.bid
            && sell.levels == PlaceLevels(false, want, m.quote.value, m.info.value)
  {
  }

  function MakeRequest(m: Market, isBuy: bool, want: Levels): Request
    requires m.quote.Some? && m.info.Some?
  {
    Request(isBuy, if isBuy then m.quote.value.ask else m.quote.value.bid,
            PlaceLevels(isBuy, want, m.quote.value, m.info.value), Return)
  }
}
