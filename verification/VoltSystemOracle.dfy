/** The interest-bearing price oracle: linear interpolation inside a period, and compounding
    that anyone may call, late or several times in a row. */
module VoltSystemOracle {
  import opened Evm
  import opened Floors

  const BASIS_POINTS_GRANULARITY: nat := 10_000
  const TIMEFRAME: nat := 2_628_288

  datatype Oracle = Oracle(rate: nat, price: nat, start: nat)

  function CurrentPrice(o: Oracle, now: nat): Result<nat> {
    if o.start >= now then
      Ok(o.price)
    else
      var timeDelta := Min(now - o.start, TIMEFRAME);
      var scaled :- CheckedMul(o.price, o.rate);
      var accrued :- CheckedMul(scaled / BASIS_POINTS_GRANULARITY, timeDelta);
      CheckedAdd(o.price, accrued / TIMEFRAME)
  }

  function CompoundInterest(o: Oracle, now: nat): Result<Oracle> {
    var periodEnd :- CheckedAdd(o.start, TIMEFRAME);
    var _ :- Require(now >= periodEnd, NotPastEndTime);
    var price :- CurrentPrice(o, now);
    Ok(o.(price := price, start := periodEnd))
  }

  // ---------- the price in unbounded arithmetic ----------

  /** The full interest of one period. */
  function Interest(price: nat, rate: nat): nat {
    price * rate / BASIS_POINTS_GRANULARITY
  }

  function Price(o: Oracle, now: nat): nat {
    if o.start >= now then o.price
    else o.price + Interest(o.price, o.rate) * Min(now - o.start, TIMEFRAME) / TIMEFRAME
  }

  /** The price after `k` full periods. */
  function Compounded(price: nat, rate: nat, k: nat): nat {
    if k == 0 then price
    else Compounded(price, rate, k - 1) + Interest(Compounded(price, rate, k - 1), rate)
  }

  /** The interest of the first `elapsed` seconds of a period can be computed in 256 bits. */
  predicate ComputableFor(price: nat, rate: nat, elapsed: nat) {
    && price * rate < U256
    && Interest(price, rate) * elapsed < U256
    && price + Interest(price, rate) * elapsed / TIMEFRAME < U256
  }

  /** A full period's interest can be computed in 256 bits. */
  predicate Computable(price: nat, rate: nat) {
    ComputableFor(price, rate, TIMEFRAME)
  }

  predicate Readable(o: Oracle, now: nat) {
    o.start >= now || ComputableFor(o.price, o.rate, Min(now - o.start, TIMEFRAME))
  }

  lemma ReadIsPrice(o: Oracle, now: nat)
    ensures CurrentPrice(o, now) == if Readable(o, now) then Ok(Price(o, now)) else Revert(Panic)
  {
  }

  /** Compounding succeeds exactly when the period is over and its interest can be computed,
      and then it adds the whole interest of the period, however late it is called. */
  lemma CompoundExactly(o: Oracle, now: nat)
    requires now < U256
    ensures CompoundInterest(o, now).Ok? <==> o.start + TIMEFRAME <= now && Computable(o.price, o.rate)
    ensures CompoundInterest(o, now).Ok? ==>
              CompoundInterest(o, now).value == Oracle(o.rate, Compounded(o.price, o.rate, 1), o.start + TIMEFRAME)
  {
    ReadIsPrice(o, now);
    FloorOfMultiple(Interest(o.price, o.rate), TIMEFRAME);
    assert Compounded(o.price, o.rate, 1) == Compounded(o.price, o.rate, 0) + Interest(o.price, o.rate);
  }

  /** In figures: a period is 2628288 seconds, its interest is rate / 10000 of the price, earned in
      proportion to the time and rounded down; compounding adds all of it and starts the next period. */
  lemma InterestInFigures(o: Oracle, now: nat)
    requires now < U256
    ensures var interest := o.price * o.rate / 10_000;
            var next := CompoundInterest(o, now);
            && (CurrentPrice(o, now).Ok? ==>
                CurrentPrice(o, now).value == o.price + (if now <= o.start then 0
                                                         else if now - o.start < 2_628_288
                                                         then interest * (now - o.start) / 2_628_288
                                                         else interest))
            && (next.Ok? ==> next.value == Oracle(o.rate, o.price + interest, o.start + 2_628_288))
            && (now < o.start + 2_628_288 ==> next.Revert?)
  {
    ReadIsPrice(o, now);
    CompoundExactly(o, now);
    FloorOfMultiple(Interest(o.price, o.rate), TIMEFRAME);
    assert Compounded(o.price, o.rate, 1) == Compounded(o.price, o.rate, 0) + Interest(o.price, o.rate);
  }

  lemma {:induction false} CompoundedFrom(price: nat, rate: nat, k: nat)
    ensures Compounded(Compounded(price, rate, 1), rate, k) == Compounded(price, rate, k + 1)
  {
    if k > 0 {
      CompoundedFrom(price, rate, k - 1);
    }
  }

  // ---------- runs ----------

  /** Time passes, or somebody calls `compoundInterest`, which may revert. */
  datatype Event = Elapse(seconds: nat) | Compound

  datatype World = World(now: nat, oracle: Oracle)

  function Next(w: World, e: Event): World {
    match e
    case Elapse(seconds) => w.(now := w.now + seconds)
    case Compound =>
      match CompoundInterest(w.oracle, w.now)
      case Ok(o) => w.(oracle := o)
      case Revert(_) => w
  }

  function Run(w: World, events: seq<Event>): World
    decreases |events|
  {
    if events == [] then w else Run(Next(w, events[0]), events[1..])
  }

  /** How many of the calls succeeded. */
  function Successes(w: World, events: seq<Event>): nat
    decreases |events|
  {
    if events == [] then 0
    else (if events[0].Compound? && CompoundInterest(w.oracle, w.now).Ok? then 1 else 0)
         + Successes(Next(w, events[0]), events[1..])
  }

  lemma {:induction false} TimeMovesOn(w: World, events: seq<Event>)
    ensures w.now <= Run(w, events).now
    decreases |events|
  {
    if events != [] {
      TimeMovesOn(Next(w, events[0]), events[1..]);
    }
  }

  /** The state depends on the number of successful calls only, never on when they were made:
      after `k` of them the price is compounded `k` times, `k` periods have been closed, and all
      of them are over. */
  lemma {:induction false} ScheduleIndependent(w: World, events: seq<Event>)
    requires Run(w, events).now < U256
    ensures var k := Successes(w, events);
            var o := w.oracle;
            var end := Run(w, events);
            && end.oracle == Oracle(o.rate, Compounded(o.price, o.rate, k), o.start + k * TIMEFRAME)
            && (k > 0 ==> o.start + k * TIMEFRAME <= end.now)
    decreases |events|
  {
    if events != [] {
      var n := Next(w, events[0]);
      TimeMovesOn(w, events);
      TimeMovesOn(n, events[1..]);
      ScheduleIndependent(n, events[1..]);
      if events[0].Compound? {
        CompoundExactly(w.oracle, w.now);
        if CompoundInterest(w.oracle, w.now).Ok? {
          CompoundedFrom(w.oracle.price, w.oracle.rate, Successes(n, events[1..]));
        }
      }
    }
  }

  /** Two schedules that end at the same time with no period left to compound end in the same
      state, whether their callers were early, late or came in batches. */
  lemma CaughtUpSchedulesAgree(w: World, left: seq<Event>, right: seq<Event>)
    requires Run(w, left).now == Run(w, right).now < U256
    requires Run(w, left).now < Run(w, left).oracle.start + TIMEFRAME
    requires Run(w, right).now < Run(w, right).oracle.start + TIMEFRAME
    ensures Run(w, left) == Run(w, right)
  {
    ScheduleIndependent(w, left);
    ScheduleIndependent(w, right);
    assert Successes(w, left) == Successes(w, right);
  }

  /** The periods that are over but not yet compounded. */
  function PeriodsDue(o: Oracle, now: nat): nat {
    if now < o.start then 0 else (now - o.start) / TIMEFRAME
  }

  function Calls(n: nat): seq<Event> {
    seq(n, _ => Compound)
  }

  /** Interest grows with the price, so whatever can be computed later can be computed now. */
  lemma {:induction false} ComputableEarlier(price: nat, rate: nat, k: nat)
    requires Computable(Compounded(price, rate, k), rate)
    ensures Computable(price, rate)
    decreases k
  {
    if k > 0 {
      var p, q := Compounded(price, rate, k - 1), Compounded(price, rate, k);
      MulLe(p, q, rate);
      FloorMonotone(p * rate, q * rate, BASIS_POINTS_GRANULARITY);
      MulLe(Interest(p, rate), Interest(q, rate), TIMEFRAME);
      FloorOfMultiple(Interest(p, rate), TIMEFRAME);
      FloorOfMultiple(Interest(q, rate), TIMEFRAME);
      ComputableEarlier(price, rate, k - 1);
    }
  }

  /** When the interest of the current period cannot be computed any more, no later call
      succeeds: the oracle stands still for good. */
  lemma {:induction false} IncomputableIsFinal(w: World, events: seq<Event>)
    requires Run(w, events).now < U256 && !Computable(w.oracle.price, w.oracle.rate)
    ensures Successes(w, events) == 0 && Run(w, events).oracle == w.oracle
    decreases |events|
  {
    if events != [] {
      TimeMovesOn(w, events);
      CompoundExactly(w.oracle, w.now);
      IncomputableIsFinal(Next(w, events[0]), events[1..]);
    }
  }

  lemma DueDropsByOne(o: Oracle, now: nat)
    requires PeriodsDue(o, now) > 0
    ensures o.start + TIMEFRAME <= now
    ensures PeriodsDue(o.(start := o.start + TIMEFRAME), now) == PeriodsDue(o, now) - 1
  {
    var x := now - o.start;
    FloorBounds(x, TIMEFRAME);
    FloorAtLeast(x / TIMEFRAME - 1, x - TIMEFRAME, TIMEFRAME);
    FloorBelow(x / TIMEFRAME, x - TIMEFRAME, TIMEFRAME);
  }

  /** Catching up: of any number of calls in a row at most as many succeed as periods are due,
      and all of these succeed if and only if the interest of the last of their periods can be
      computed. After as many calls as periods were due, the next one reverts in any case. */
  lemma {:induction false} BatchCatchesUp(w: World, n: nat)
    requires w.now < U256
    ensures var o := w.oracle;
            var k := Min(n, PeriodsDue(o, w.now));
            && Successes(w, Calls(n)) <= k
            && (Successes(w, Calls(n)) == k <==> k == 0 || Computable(Compounded(o.price, o.rate, k - 1), o.rate))
    ensures n >= PeriodsDue(w.oracle, w.now) ==> CompoundInterest(Run(w, Calls(n)).oracle, w.now).Revert?
    decreases n
  {
    var o := w.oracle;
    var due := PeriodsDue(o, w.now);
    var k := Min(n, due);
    CompoundExactly(o, w.now);
    NoneDue(o, w.now);
    if k > 0 && Computable(Compounded(o.price, o.rate, k - 1), o.rate) {
      ComputableEarlier(o.price, o.rate, k - 1);
    }
    if n > 0 {
      var rest := Next(w, Compound);
      assert Calls(n)[0] == Compound && Calls(n)[1..] == Calls(n - 1);
      if due > 0 {
        DueDropsByOne(o, w.now);
        if Computable(o.price, o.rate) {
          BatchCatchesUp(rest, n - 1);
          if k > 1 {
            CompoundedFrom(o.price, o.rate, k - 2);
          }
        } else {
          CallsTakeNoTime(w, n);
          IncomputableIsFinal(w, Calls(n));
        }
      } else {
        BatchCatchesUp(rest, n - 1);
      }
    }
  }

  lemma NoneDue(o: Oracle, now: nat)
    ensures PeriodsDue(o, now) == 0 <==> now < o.start + TIMEFRAME
  {
    if o.start <= now {
      FloorBounds(now - o.start, TIMEFRAME);
    }
  }

  lemma {:induction false} CallsTakeNoTime(w: World, n: nat)
    ensures Run(w, Calls(n)).now == w.now
    decreases n
  {
    if n > 0 {
      assert Calls(n)[0] == Compound && Calls(n)[1..] == Calls(n - 1);
      CallsTakeNoTime(Next(w, Compound), n - 1);
    }
  }

  /** Three periods are due, the price can be read, and one call succeeds; then the interest of
      the second period does not fit, the next call reverts, and the price cannot be read either. */
  lemma CatchingUpCanStop()
    ensures var o := Oracle(BASIS_POINTS_GRANULARITY, U256 / TIMEFRAME - 1, 0);
            var now := 3 * TIMEFRAME;
            && PeriodsDue(o, now) == 3
            && CurrentPrice(o, now).Ok?
            && CompoundInterest(o, now).Ok?
            && CompoundInterest(CompoundInterest(o, now).value, now) == Revert(Panic)
            && CurrentPrice(CompoundInterest(o, now).value, now) == Revert(Panic)
  {
  }

  // ---------- monotonicity ----------

  /** After the end of an uncompounded period every reading is the reading at its end, be it a
      price or a failure; a price is the compounded price. */
  lemma FlatAfterPeriod(o: Oracle, now: nat)
    requires o.start + TIMEFRAME <= now
    ensures CurrentPrice(o, now) == CurrentPrice(o, o.start + TIMEFRAME)
         == if Computable(o.price, o.rate) then Ok(Compounded(o.price, o.rate, 1)) else Revert(Panic)
    ensures Price(o, now) == Compounded(o.price, o.rate, 1)
  {
    ReadIsPrice(o, now);
    ReadIsPrice(o, o.start + TIMEFRAME);
    FloorOfMultiple(Interest(o.price, o.rate), TIMEFRAME);
    assert Compounded(o.price, o.rate, 1) == Compounded(o.price, o.rate, 0) + Interest(o.price, o.rate);
  }

  lemma PriceGrows(o: Oracle, t: nat, u: nat)
    requires t <= u
    ensures o.price <= Price(o, t) <= Price(o, u)
  {
    if o.start < t {
      var interest := Interest(o.price, o.rate);
      var a, b := Min(t - o.start, TIMEFRAME), Min(u - o.start, TIMEFRAME);
      MulLe(a, b, interest);
      FloorMonotone(interest * a, interest * b, TIMEFRAME);
    }
  }

  /** Compounding succeeds only when the price can be read. Exactly at the end of the period the
      reading does not change. Later the new reading survives if and only if the new price earns
      a computable interest for the time since, and then it is not lower. */
  lemma CompoundKeepsPrice(o: Oracle, now: nat)
    requires now < U256 && CompoundInterest(o, now).Ok?
    ensures var n := CompoundInterest(o, now).value;
            var compounded := Compounded(o.price, o.rate, 1);
            var late := now - (o.start + TIMEFRAME);
            && CurrentPrice(o, now) == Ok(compounded)
            && (late == 0 ==> CurrentPrice(n, now) == CurrentPrice(o, now))
            && (late > 0 ==>
                (CurrentPrice(n, now).Ok? <==> ComputableFor(compounded, o.rate, Min(late, TIMEFRAME))))
            && (CurrentPrice(n, now).Ok? ==> CurrentPrice(o, now).value <= CurrentPrice(n, now).value)
            && Price(o, now) <= Price(n, now)
  {
    CompoundExactly(o, now);
    FlatAfterPeriod(o, now);
    var n := CompoundInterest(o, now).value;
    ReadIsPrice(n, now);
    PriceGrows(n, now, now);
  }

  lemma {:induction false} PriceNeverFalls(w: World, events: seq<Event>)
    requires Run(w, events).now < U256
    ensures Price(w.oracle, w.now) <= Price(Run(w, events).oracle, Run(w, events).now)
    decreases |events|
  {
    if events != [] {
      var n := Next(w, events[0]);
      TimeMovesOn(w, events);
      if events[0].Elapse? {
        PriceGrows(w.oracle, w.now, n.now);
      } else if CompoundInterest(w.oracle, w.now).Ok? {
        CompoundKeepsPrice(w.oracle, w.now);
      }
      PriceNeverFalls(n, events[1..]);
    }
  }

  /** Along any run, a later reading is at least an earlier one. */
  lemma ReadNeverFalls(w: World, events: seq<Event>)
    requires Run(w, events).now < U256
    requires CurrentPrice(w.oracle, w.now).Ok?
    requires CurrentPrice(Run(w, events).oracle, Run(w, events).now).Ok?
    ensures CurrentPrice(w.oracle, w.now).value <= CurrentPrice(Run(w, events).oracle, Run(w, events).now).value
  {
    ReadIsPrice(w.oracle, w.now);
    ReadIsPrice(Run(w, events).oracle, Run(w, events).now);
    PriceNeverFalls(w, events);
  }

  // ---------- rounding ----------

  /** How far `k` rounded compoundings fall behind exact compound interest, scaled by 10000^k. */
  function Shortfall(price: nat, rate: nat, k: nat): int {
    price * Pow(BASIS_POINTS_GRANULARITY + rate, k)
    - Pow(BASIS_POINTS_GRANULARITY, k) * Compounded(price, rate, k)
  }

  /** One more period: the old shortfall earns interest and less than one unit is cut off. */
  lemma ShortfallStep(price: nat, rate: nat, k: nat)
    requires k > 0
    ensures var cut := Shortfall(price, rate, k) - (BASIS_POINTS_GRANULARITY + rate) * Shortfall(price, rate, k - 1);
            0 <= cut <= 9999 * Pow(BASIS_POINTS_GRANULARITY, k - 1)
  {
    var p := Compounded(price, rate, k - 1);
    var G := BASIS_POINTS_GRANULARITY;
    var pow := Pow(G, k - 1);
    FloorBounds(p * rate, G);
    var rem := p * rate - Interest(p, rate) * G;
    MulLe(rem, 9999, pow);
    ShortfallAlgebra(price, G, rate, Pow(G + rate, k - 1), pow, p, Interest(p, rate));
    assert rem == (G + rate) * p - G * (p + Interest(p, rate));
  }

  lemma ShortfallAlgebra(price: int, G: int, rate: int, grown: int, pow: int, p: int, interest: int)
    ensures price * ((G + rate) * grown) - G * pow * (p + interest) - (G + rate) * (price * grown - pow * p)
         == pow * ((G + rate) * p - G * (p + interest))
  {
    assert price * ((G + rate) * grown) == (G + rate) * (price * grown);
    assert (G + rate) * (price * grown - pow * p) == (G + rate) * (price * grown) - (G + rate) * (pow * p);
    assert (G + rate) * (pow * p) == pow * ((G + rate) * p);
    assert G * pow * (p + interest) == pow * (G * (p + interest));
  }

  /** The closed-form bound on iterated rounding: the price never exceeds exact compound
      interest, and what it loses is bounded by less than one unit per period with interest. */
  lemma {:induction false} CompoundingRoundsLittle(price: nat, rate: nat, k: nat)
    ensures 0 <= Shortfall(price, rate, k)
    ensures rate * Shortfall(price, rate, k)
         <= 9999 * (Pow(BASIS_POINTS_GRANULARITY + rate, k) - Pow(BASIS_POINTS_GRANULARITY, k))
  {
    if k > 0 {
      var G := BASIS_POINTS_GRANULARITY;
      CompoundingRoundsLittle(price, rate, k - 1);
      ShortfallStep(price, rate, k);
      BoundStep(G, rate, Shortfall(price, rate, k - 1), Shortfall(price, rate, k), Pow(G, k - 1), Pow(G + rate, k - 1));
    }
  }

  lemma BoundStep(G: nat, rate: nat, before: nat, after: int, pow: nat, grown: nat)
    requires rate * before <= 9999 * (grown - pow)
    requires 0 <= after - (G + rate) * before <= 9999 * pow
    ensures 0 <= after
    ensures rate * after <= 9999 * ((G + rate) * grown - G * pow)
  {
    ScaledBefore(G, rate, before, grown, pow);
    RateTimesAfter(rate, (G + rate) * before, after, 9999 * pow);
    MulReorder(rate, 9999, pow);
    MulAdd(pow, G, rate);
    MulCommutes(pow, G + rate);
    MulCommutes(pow, G);
    MulCommutes(pow, rate);
  }

  lemma ScaledBefore(G: nat, rate: nat, before: nat, grown: nat, pow: nat)
    requires rate * before <= 9999 * (grown - pow)
    ensures 0 <= (G + rate) * before
    ensures rate * ((G + rate) * before) <= 9999 * ((G + rate) * grown) - 9999 * ((G + rate) * pow)
  {
    var k := G + rate;
    MulLe(0, before, k);
    MulLe(rate * before, 9999 * (grown - pow), k);
    MulReorder(rate, k, before);
    MulCommutes(rate * before, k);
    MulReorder(k, grown - pow, 9999);
    MulAdd(k, grown - pow, pow);
  }

  lemma RateTimesAfter(rate: nat, base: nat, after: int, cut: nat)
    requires base <= after <= base + cut
    ensures rate * after <= rate * base + rate * cut
  {
    MulLe(after, base + cut, rate);
    MulAdd(rate, base, cut);
  }

  /** Interpolation inside a period is at most two units below the exact linear value. */
  lemma InterpolationRoundsLittle(o: Oracle, now: nat)
    requires o.start < now <= o.start + TIMEFRAME
    ensures var exact := o.price * o.rate * (now - o.start);
            var unit := BASIS_POINTS_GRANULARITY * TIMEFRAME;
            (Price(o, now) - o.price) * unit <= exact < (Price(o, now) - o.price + 2) * unit
  {
    var t := now - o.start;
    var x := o.price * o.rate;
    var G := BASIS_POINTS_GRANULARITY;
    var interest := Interest(o.price, o.rate);
    var delta := interest * t / TIMEFRAME;
    FloorBounds(x, G);
    FloorBounds(interest * t, TIMEFRAME);
    MulLe(interest * G, x, t);
    MulLe(x, interest * G + (G - 1), t);
  }

  // ---------- the contract ----------

  class VoltSystemOracle {
    var oraclePrice: nat
    var periodStartTime: nat
    const monthlyChangeRateBasisPoints: nat

    function View(): Oracle
      reads this
    {
      Oracle(monthlyChangeRateBasisPoints, oraclePrice, periodStartTime)
    }

    constructor (rate: nat, start: nat, price: nat)
      ensures View() == Oracle(rate, price, start)
    {
      monthlyChangeRateBasisPoints := rate;
      periodStartTime := start;
      oraclePrice := price;
    }

    method GetCurrentOraclePrice(now: nat) returns (r: Result<nat>)
      ensures r == CurrentPrice(View(), now)
    {
      r := CurrentPrice(View(), now);
    }

    method Compound(now: nat) returns (r: Result<()>)
      modifies this
      ensures match CompoundInterest(old(View()), now)
              case Ok(o) => r == Ok(()) && View() == o
              case Revert(e) => r == Revert(e) && View() == old(View())
    {
      if periodStartTime + TIMEFRAME >= U256 {
        return Revert(Panic);
      }
      var periodEndTime := periodStartTime + TIMEFRAME;
      if now < periodEndTime {
        return Revert(NotPastEndTime);
      }
      var price := GetCurrentOraclePrice(now);
      if price.Revert? {
        return Revert(price.error);
      }
      oraclePrice := price.value;
      periodStartTime := periodEndTime;
      return Ok(());
    }
  }
}
