/** The PSM's view of its oracle: an optional inversion and a decimal scaling of the price. */
module OracleRef {
  import opened Evm
  import opened Floors
  import opened Decimal
  import VoltSystemOracle

  /** How a price is read; the oracle's own answer is an argument of every reading. */
  datatype Feed = Feed(doInvert: bool, decimalsNormalizer: int)

  const MIN_INT256: int := 0 - INT256_LIMIT

  function Pow10(n: nat): nat {
    Pow(10, n)
  }

  function CheckedPow10(n: nat): Result<nat> {
    if Pow10(n) < U256 then Ok(Pow10(n)) else Revert(Panic)
  }

  /** Two's complement has no negation of its least number. */
  function CheckedNegate(n: int): Result<int> {
    if n == MIN_INT256 then Revert(Panic) else Ok(-n)
  }

  function Invert(price: D256): Result<D256> {
    DivBy(One(), price)
  }

  function Scale(price: D256, normalizer: int): Result<D256> {
    if normalizer < 0 then
      var digits :- CheckedNegate(normalizer);
      var factor :- CheckedPow10(digits);
      Div(price, factor)
    else
      var factor :- CheckedPow10(normalizer);
      Mul(price, factor)
  }

  function ReadOracle(f: Feed, peg: Result<D256>): Result<D256> {
    var raw :- peg;
    var price :- if f.doInvert then Invert(raw) else Ok(raw);
    Scale(price, f.decimalsNormalizer)
  }

  /** Switching the inversion also mirrors the scaling. */
  function SetDoInvert(f: Feed, newDoInvert: bool): Result<Feed> {
    if f.doInvert != newDoInvert then
      var mirrored :- CheckedNegate(f.decimalsNormalizer);
      Ok(Feed(newDoInvert, mirrored))
    else
      Ok(f)
  }

  /** The system oracle as the PSM reads it, through the pass-through contract. */
  function PassThroughRead(o: VoltSystemOracle.Oracle, now: nat): Result<D256> {
    var current :- VoltSystemOracle.CurrentPrice(o, now);
    var scaled :- From(current);
    Div(scaled, BASE)
  }

  // ---------- prices in unbounded arithmetic ----------

  /** 10^36: the square of one, which a price times its reciprocal comes close to. */
  const UNIT: nat := BASE * BASE

  function ScaledDown(price: nat, factor: nat): nat
    requires factor > 0
  {
    price / factor
  }

  function ScaledUp(price: nat, factor: nat): nat {
    price * factor
  }

  /** The price times ten to the normalizer, rounded down. */
  function Scaled(price: nat, normalizer: int): nat {
    if normalizer < 0 then ScaledDown(price, Pow10(-normalizer)) else ScaledUp(price, Pow10(normalizer))
  }

  function QuotedPrice(f: Feed, peg: nat): nat
    requires f.doInvert ==> peg > 0
  {
    Scaled(if f.doInvert then UNIT / peg else peg, f.decimalsNormalizer)
  }

  lemma ReadIsQuoted(f: Feed, peg: Result<D256>)
    requires ReadOracle(f, peg).Ok?
    ensures peg.Ok? && (f.doInvert ==> peg.value.value > 0)
    ensures ReadOracle(f, peg).value.value == QuotedPrice(f, peg.value.value)
  {
  }

  // ---------- readings, digit by digit ----------

  /** The largest power of ten in a word is the 77th. */
  lemma LargestPower(n: nat)
    ensures Pow10(n) < U256 <==> n <= 77
  {
    assert Pow(10, 4) == 10_000;
    PowerOfSum(10, 4, 10_000, 4, 10_000);
    PowerOfSum(10, 8, 100_000_000, 8, 100_000_000);
    PowerOfSum(10, 16, 10_000_000_000_000_000, 16, 10_000_000_000_000_000);
    var x := 10_000_000_000_000_000 * 10_000_000_000_000_000;
    PowerOfSum(10, 32, x, 32, x);
    PowerOfSum(10, 64, x * x, 8, 100_000_000);
    PowerOfSum(10, 72, x * x * 100_000_000, 4, 10_000);
    assert Pow(10, 77) == 10 * Pow(10, 76);
    assert Pow(10, 78) == 10 * Pow(10, 77);
    if n <= 77 {
      PowMonotone(10, n, 77);
    } else {
      PowMonotone(10, 78, n);
    }
  }

  /** The peg is a word, as everything an oracle answers. */
  predicate IsWord(peg: Result<D256>) {
    peg.Ok? ==> peg.value.value < U256
  }

  lemma ScalesExactly(price: D256, normalizer: int)
    requires price.value < U256
    ensures Scale(price, normalizer)
         == if -77 <= normalizer <= 77 && Scaled(price.value, normalizer) < U256
            then Ok(D256(Scaled(price.value, normalizer))) else Revert(Panic)
  {
    if normalizer < 0 {
      LargestPower(-normalizer);
      FloorAntitone(price.value, 1, Pow10(-normalizer));
    } else {
      LargestPower(normalizer);
    }
  }

  lemma InvertsExactly(price: D256)
    ensures Invert(price) == if price.value > 0 then Ok(D256(UNIT / price.value)) else Revert(Panic)
    ensures price.value > 0 ==> UNIT / price.value < U256
  {
    if price.value > 0 {
      FloorAntitone(UNIT, 1, price.value);
    }
  }

  /** The module reads a price exactly when the oracle gives one, it can be inverted, the scaling
      has at most 77 digits, and the scaled price fits a word. */
  lemma ReadsExactly(f: Feed, peg: Result<D256>)
    requires IsWord(peg)
    ensures ReadOracle(f, peg).Ok? <==>
              && peg.Ok? && (f.doInvert ==> peg.value.value > 0)
              && -77 <= f.decimalsNormalizer <= 77 && QuotedPrice(f, peg.value.value) < U256
  {
    if peg.Ok? {
      if f.doInvert {
        InvertsExactly(peg.value);
        if peg.value.value > 0 {
          ScalesExactly(D256(UNIT / peg.value.value), f.decimalsNormalizer);
        }
      } else {
        ScalesExactly(peg.value, f.decimalsNormalizer);
      }
    }
  }

  /** Without scaling the reading is the peg, or 10^36 divided by it. */
  lemma UnscaledReading(peg: D256)
    requires peg.value < U256
    ensures ReadOracle(Feed(false, 0), Ok(peg)) == Ok(peg)
    ensures ReadOracle(Feed(true, 0), Ok(peg))
         == if peg.value == 0 then Revert(Panic)
            else Ok(D256(1_000_000_000_000_000_000_000_000_000_000_000_000 / peg.value))
  {
    assert Pow10(0) == 1;
    InvertsExactly(peg);
  }

  /** Every further digit of a positive scaling multiplies the reading by ten, as long as it fits. */
  lemma EachDigitUp(invert: bool, n: nat, peg: Result<D256>)
    ensures var here, next := ReadOracle(Feed(invert, n), peg), ReadOracle(Feed(invert, n + 1), peg);
            && (next.Ok? <==> here.Ok? && n < 77 && 10 * here.value.value < U256)
            && (next.Ok? ==> next.value.value == 10 * here.value.value)
  {
    LargestPower(n);
    LargestPower(n + 1);
    if peg.Ok? && (invert ==> Invert(peg.value).Ok?) {
      var price := if invert then Invert(peg.value).value.value else peg.value.value;
      MulReorder(price, 10, Pow10(n));
      MulCommutes(price * Pow10(n), 10);
      MulLe(price * Pow10(n), 10 * (price * Pow10(n)), 1);
    }
  }

  /** Every further digit of a negative scaling divides the reading by ten and rounds it down;
      rounding digit by digit is rounding once. */
  lemma EachDigitDown(invert: bool, n: int, peg: Result<D256>)
    requires IsWord(peg) && n <= 0
    ensures var here, next := ReadOracle(Feed(invert, n), peg), ReadOracle(Feed(invert, n - 1), peg);
            && (next.Ok? <==> here.Ok? && -77 < n)
            && (next.Ok? ==> next.value.value == here.value.value / 10)
  {
    LargestPower(-n);
    LargestPower(1 - n);
    if peg.Ok? && (invert ==> peg.value.value > 0) {
      var price := if invert then UNIT / peg.value.value else peg.value.value;
      if invert {
        InvertsExactly(peg.value);
      }
      FloorOfFloor(price, Pow10(-n), 10);
      ScaledWithin(price, n);
      ScaledWithin(price, n - 1);
      ScalesExactly(D256(price), n);
      ScalesExactly(D256(price), n - 1);
    }
  }

  lemma ScaledWithin(price: nat, normalizer: int)
    requires normalizer <= 0
    ensures Scaled(price, normalizer) == price / Pow10(-normalizer) <= price
  {
    FloorAntitone(price, 1, Pow10(-normalizer));
  }

  /** The deployed scaling: twelve digits for an underlying token with six decimals, inverted. */
  lemma DeployedReading(peg: D256)
    requires 0 < peg.value < U256
    ensures ReadOracle(Feed(true, 12), Ok(peg))
         == Ok(D256(1_000_000_000_000_000_000_000_000_000_000_000_000 / peg.value * 1_000_000_000_000))
  {
    assert Pow(10, 4) == 10_000;
    PowerOfSum(10, 4, 10_000, 4, 10_000);
    PowerOfSum(10, 8, 100_000_000, 4, 10_000);
    InvertsExactly(peg);
  }

  lemma PassThroughIsPrice(o: VoltSystemOracle.Oracle, now: nat)
    requires PassThroughRead(o, now).Ok?
    ensures PassThroughRead(o, now).value.value == VoltSystemOracle.Price(o, now)
  {
    VoltSystemOracle.ReadIsPrice(o, now);
    FloorOfMultiple(VoltSystemOracle.Price(o, now), BASE);
  }

  /** The pass-through answers exactly when the oracle does and its price leaves room for eighteen
      more digits; so it stops before the oracle does. */
  lemma PassThroughReadsExactly(o: VoltSystemOracle.Oracle, now: nat)
    ensures PassThroughRead(o, now).Ok? <==>
              VoltSystemOracle.Readable(o, now) && VoltSystemOracle.Price(o, now) * BASE < U256
  {
    VoltSystemOracle.ReadIsPrice(o, now);
  }

  /** A higher peg never gives a lower quote, or, inverted, never a higher one. */
  lemma QuoteFollowsPeg(f: Feed, low: nat, high: nat)
    requires 0 < low <= high
    ensures f.doInvert ==> QuotedPrice(f, high) <= QuotedPrice(f, low)
    ensures !f.doInvert ==> QuotedPrice(f, low) <= QuotedPrice(f, high)
  {
    if f.doInvert {
      FloorAntitone(UNIT, low, high);
      ScaledMonotone(UNIT / high, UNIT / low, f.decimalsNormalizer);
    } else {
      ScaledMonotone(low, high, f.decimalsNormalizer);
    }
  }

  lemma ScaledMonotone(low: nat, high: nat, normalizer: int)
    requires low <= high
    ensures Scaled(low, normalizer) <= Scaled(high, normalizer)
  {
    if normalizer < 0 {
      FloorMonotone(low, high, Pow10(-normalizer));
    } else {
      MulLe(low, high, Pow10(normalizer));
    }
  }

  // ---------- switching the inversion ----------

  /** Switching succeeds exactly when the scaling can be negated; switching back then restores
      the feed. */
  lemma SwitchingTwiceRestores(f: Feed)
    requires MIN_INT256 <= f.decimalsNormalizer <= -MIN_INT256 - 1
    ensures var there := SetDoInvert(f, !f.doInvert);
            && (there.Ok? <==> f.decimalsNormalizer != MIN_INT256)
            && (there.Ok? ==> there.value.doInvert != f.doInvert && SetDoInvert(there.value, f.doInvert) == Ok(f))
    ensures SetDoInvert(f, f.doInvert) == Ok(f)
  {
  }

  /** Switching replaces a quote P by a quote Q that is its reciprocal: P * Q is at most one, and
      when P was not scaled down Q is 10^36 / P, rounded down once. */
  lemma SwitchedQuoteIsReciprocal(f: Feed, peg: D256)
    requires !f.doInvert && SetDoInvert(f, true).Ok?
    requires ReadOracle(f, Ok(peg)).Ok? && ReadOracle(SetDoInvert(f, true).value, Ok(peg)).Ok?
    ensures var P := ReadOracle(f, Ok(peg)).value.value;
            var Q := ReadOracle(SetDoInvert(f, true).value, Ok(peg)).value.value;
            && P * Q <= UNIT
            && (f.decimalsNormalizer >= 0 ==> P > 0 && Q == UNIT / P && UNIT - P < P * Q)
  {
    var n := f.decimalsNormalizer;
    var inverted := SetDoInvert(f, true).value;
    ReadIsQuoted(f, Ok(peg));
    ReadIsQuoted(inverted, Ok(peg));
    var p := peg.value;
    if n >= 0 {
      ScaledUpReciprocal(p, Pow10(n));
    } else {
      ScaledDownReciprocal(p, Pow10(-n));
    }
  }

  lemma ScaledUpReciprocal(p: nat, factor: nat)
    requires p > 0 && factor > 0
    ensures p * factor > 0 && UNIT / p / factor == UNIT / (p * factor)
    ensures UNIT - p * factor < p * factor * (UNIT / p / factor) <= UNIT
  {
    FloorOfFloor(UNIT, p, factor);
    FloorBounds(UNIT, p * factor);
  }

  lemma ScaledDownReciprocal(p: nat, factor: nat)
    requires p > 0 && factor > 0
    ensures p / factor * (UNIT / p * factor) <= UNIT
  {
    FloorBounds(p, factor);
    FloorBounds(UNIT, p);
    ProductWithin(p, factor, p / factor, UNIT / p, UNIT);
  }

  lemma ProductWithin(p: nat, factor: nat, down: nat, inverse: nat, unit: nat)
    requires down * factor <= p && inverse * p <= unit
    ensures down * (inverse * factor) <= unit
  {
    MulReorder(down, inverse, factor);
    MulLe(down * factor, p, inverse);
  }

  // ---------- the contract ----------

  class OracleRef {
    var decimalsNormalizer: int
    var doInvert: bool

    function View(): Feed
      reads this
    {
      Feed(doInvert, decimalsNormalizer)
    }

    /** The given scaling is stored last, whatever the inversion flag did to the initial zero. */
    constructor (normalizer: int, invert: bool)
      ensures View() == Feed(invert, normalizer)
    {
      doInvert := invert;
      decimalsNormalizer := normalizer;
    }

    method UpdateDoInvert(authorized: bool, newDoInvert: bool) returns (r: Result<()>)
      modifies this
      ensures match (if authorized then SetDoInvert(old(View()), newDoInvert) else Revert(Unauthorized))
              case Ok(f) => r == Ok(()) && View() == f
              case Revert(e) => r == Revert(e) && View() == old(View())
    {
      if !authorized {
        return Revert(Unauthorized);
      }
      var oldDoInvert := doInvert;
      doInvert := newDoInvert;
      if oldDoInvert != newDoInvert {
        if decimalsNormalizer == MIN_INT256 {
          doInvert := oldDoInvert;
          return Revert(Panic);
        }
        decimalsNormalizer := -decimalsNormalizer;
      }
      return Ok(());
    }

    method UpdateDecimalsNormalizer(authorized: bool, normalizer: int) returns (r: Result<()>)
      modifies this`decimalsNormalizer
      ensures authorized ==> r == Ok(()) && decimalsNormalizer == normalizer
      ensures !authorized ==> r == Revert(Unauthorized) && decimalsNormalizer == old(decimalsNormalizer)
    {
      if !authorized {
        return Revert(Unauthorized);
      }
      decimalsNormalizer := normalizer;
      return Ok(());
    }
  }
}
