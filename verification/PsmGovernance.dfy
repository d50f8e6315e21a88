/** What governance and deployment set, and what that means for the trades that follow. */
module PsmGovernance {
  import opened Evm
  import opened Ledger
  import opened Floors
  import opened Decimal
  import opened OracleRef
  import opened PsmQuotes
  import opened Token
  import opened PsmSpec
  import opened PsmSafety
  import TokenBucket

  // ---------- trades in figures ----------

  /** What a trade that does not revert pays, in figures: prices have eighteen decimals, fees are
      in units of one 10000th. */
  lemma TradesInFigures(s: Psm, sender: Address, to: Address, amountIn: nat, minOut: nat, peg: Result<D256>, now: nat)
    requires Inv(s, now)
    ensures var price := ReadOracle(s.feed, peg);
            var mint := MintTrade(s, sender, to, amountIn, minOut, peg, now);
            var redeem := RedeemTrade(s, sender, to, amountIn, minOut, peg);
            && (mint.Ok? ==>
                && price.Ok?
                && mint.value.amountOut
                   == price.value.value * amountIn * (10_000 - s.mintFee) / (10_000 * 1_000_000_000_000_000_000))
            && (redeem.Ok? ==>
                && price.Ok? && price.value.value > 0
                && redeem.value.amountOut
                   == amountIn * (10_000 - s.redeemFee) / 10_000 * 1_000_000_000_000_000_000 / price.value.value)
  {
    TradePriceExactly(s, peg);
    MintSettlesExactly(s, sender, to, amountIn, minOut, peg, now);
    RedeemSettlesExactly(s, sender, to, amountIn, minOut, peg, now);
    if TradePrice(s, peg).Ok? {
      MintQuotesExactly(TradePrice(s, peg).value, s.mintFee, amountIn);
      RedeemQuotesExactly(TradePrice(s, peg).value, s.redeemFee, amountIn);
    }
  }

  /** The USDC module as it is deployed, inverted with twelve digits and bounds of 9 * 10^15 and
      10^16 basis points, trades exactly at VOLT prices above 1 and up to 1.111111111111111109. */
  lemma DeployedPriceWindow(s: Psm, peg: D256)
    requires s.feed == Feed(true, 12)
    requires s.range == PriceRange(9_000_000_000_000_000, 10_000_000_000_000_000)
    requires peg.value < U256
    ensures TradePrice(s, Ok(peg)).Ok? <==> 1_000_000_000_000_000_000 < peg.value <= 1_111_111_111_111_111_109
  {
    TradePriceExactly(s, Ok(peg));
    InvertsExactly(peg);
    if peg.value == 0 {
      ReadsExactly(s.feed, Ok(peg));
    } else {
      DeployedReading(peg);
      if 1_111_111_111_111_111_109 < peg.value {
        FloorBelow(900_000_000_000_000_001, UNIT, peg.value);
      } else {
        FloorAtLeast(900_000_000_000_000_001, UNIT, peg.value);
      }
      if peg.value <= BASE {
        FloorAtLeast(BASE, UNIT, peg.value);
      } else {
        FloorBelow(BASE, UNIT, peg.value);
      }
    }
  }

  // ---------- governance ----------

  lemma OnlyGovernanceChanges(s: Psm, setting: Setting, now: nat)
    ensures ChangeSetting(s, false, setting, now) == Revert(Unauthorized)
  {
  }

  /** Fees are at most 300 basis points, the reserves threshold is not zero, the surplus target is not the
      zero address; any combination of pauses is fine. Nothing but the setting changes. */
  lemma SettingsExactly(s: Psm, setting: Setting, now: nat)
    ensures var r := ChangeSetting(s, true, setting, now);
            match setting
            case MintFee(fee) => r == if fee <= 300 then Ok(s.(mintFee := fee)) else Revert(FeeTooHigh)
            case RedeemFee(fee) => r == if fee <= 300 then Ok(s.(redeemFee := fee)) else Revert(FeeTooHigh)
            case ReservesThreshold(threshold) =>
              r == if threshold != 0 then Ok(s.(reservesThreshold := threshold)) else Revert(InvalidThreshold)
            case SurplusTarget(target) =>
              r == if target != ZERO then Ok(s.(surplusTarget := target)) else Revert(ZeroAddress)
            case Pauses(all, minting, redeeming) =>
              r == Ok(s.(paused := all, mintPaused := minting, redeemPaused := redeeming))
            case _ => true
  {
  }

  /** A bound changes exactly if the range stays ordered and fits a word; nothing else changes. */
  lemma BoundsExactly(s: Psm, basisPoints: nat, now: nat)
    requires Bounded(s.range)
    ensures var r := ChangeSetting(s, true, Floor(basisPoints), now);
            && (r.Ok? <==> 0 < basisPoints < s.range.ceiling)
            && (r.Ok? ==> r.value == s.(range := PriceRange(basisPoints, s.range.ceiling)))
    ensures var r := ChangeSetting(s, true, Ceiling(basisPoints), now);
            && (r.Ok? <==> s.range.floor < basisPoints && basisPoints * 1_000_000_000_000_000_000 < U256)
            && (r.Ok? ==> r.value == s.(range := PriceRange(s.range.floor, basisPoints)))
  {
    SettersKeepBounded(s.range, basisPoints);
  }

  /** A new rate is accepted exactly while the buffer answers and up to the maximum. What had accrued
      stays; from then on the new rate applies. */
  lemma RatesExactly(s: Psm, rate: nat, now: nat, later: nat)
    requires Inv(s, now) && now <= later
    ensures var r := ChangeSetting(s, true, RateLimit(rate), now);
            var level := TokenBucket.Level(s.limiter, now);
            && (r.Ok? <==> !TokenBucket.Overflows(s.limiter, now) && rate <= s.limiter.maxRate)
            && (r.Ok? ==>
                && OnlyLimiterChanges(s, r.value, now)
                && TokenBucket.Level(r.value.limiter, later) == Min(level + rate * (later - now), s.limiter.cap))
  {
    TokenBucket.BufferIsLevel(s.limiter, now);
  }

  /** A new cap is accepted exactly while the buffer answers. What had accrued stays, but not above
      the new cap. */
  lemma CapsExactly(s: Psm, cap: nat, now: nat, later: nat)
    requires Inv(s, now) && now <= later
    ensures var r := ChangeSetting(s, true, BufferCap(cap), now);
            var level := TokenBucket.Level(s.limiter, now);
            && (r.Ok? <==> !TokenBucket.Overflows(s.limiter, now))
            && (r.Ok? ==>
                && OnlyLimiterChanges(s, r.value, now)
                && TokenBucket.Level(r.value.limiter, later) == Min(level + s.limiter.rate * (later - now), cap))
  {
    TokenBucket.BufferIsLevel(s.limiter, now);
  }

  predicate OnlyLimiterChanges(s: Psm, t: Psm, now: nat) {
    t == s.(limiter := t.limiter) && t.limiter.maxRate == s.limiter.maxRate && t.limiter.lastUsed <= now
  }

  /** After a change of the mint fee every mint that settles keeps back the new fee, and redemptions
      settle and pay as before. */
  lemma MintFeeTakesEffect(
      s: Psm, fee: nat, sender: Address, to: Address, amountIn: nat, minOut: nat, peg: Result<D256>, now: nat)
    requires Inv(s, now) && fee <= 300
    ensures var t := ChangeSetting(s, true, MintFee(fee), now);
            && t.Ok?
            && var price := ReadOracle(s.feed, peg);
               var mint := MintTrade(t.value, sender, to, amountIn, minOut, peg, now);
               var redeem := RedeemTrade(t.value, sender, to, amountIn, minOut, peg);
               var before := RedeemTrade(s, sender, to, amountIn, minOut, peg);
            && (mint.Ok? ==>
                && price.Ok?
                && mint.value.amountOut
                   == price.value.value * amountIn * (10_000 - fee) / (10_000 * 1_000_000_000_000_000_000))
            && (redeem.Ok? <==> before.Ok?)
            && (redeem.Ok? ==> redeem.value.amountOut == before.value.amountOut)
  {
    var t := s.(mintFee := fee);
    SettingsExactly(s, MintFee(fee), now);
    TradesInFigures(t, sender, to, amountIn, minOut, peg, now);
    RedeemSettlesExactly(s, sender, to, amountIn, minOut, peg, now);
    RedeemSettlesExactly(t, sender, to, amountIn, minOut, peg, now);
  }

  // ---------- deployment ----------

  /** The constructor accepts exactly rates up to ten thousand VOLT per second, a threshold above
      zero, fees of at most 300 basis points, a surplus target and an ordered range, and stores
      each of them where it belongs. Nothing is paused, and the buffer is full. */
  lemma DeploysExactly(q: Parameters, volt: Token, underlying: Token, start: nat, now: nat)
    requires start <= now
    ensures var r := Deploy(q, volt, underlying, start);
            && (r.Ok? <==>
                && q.rate <= 10_000 * 1_000_000_000_000_000_000 && q.reservesThreshold > 0
                && q.mintFee <= 300 && q.redeemFee <= 300 && q.surplusTarget != ZERO
                && 0 < q.floor < q.ceiling && q.ceiling * 1_000_000_000_000_000_000 < U256)
            && (r.Ok? ==>
                var s := r.value;
                && s.self == q.self && s.feed == q.feed && s.isMinter == q.isMinter
                && s.volt == volt && s.underlying == underlying
                && s.mintFee == q.mintFee && s.redeemFee == q.redeemFee
                && s.reservesThreshold == q.reservesThreshold && s.surplusTarget == q.surplusTarget
                && s.range.floor == q.floor && s.range.ceiling == q.ceiling
                && !s.paused && !s.mintPaused && !s.redeemPaused
                && s.limiter.rate == q.rate && s.limiter.maxRate == 10_000 * 1_000_000_000_000_000_000
                && TokenBucket.Buffer(s.limiter, now)
                   == if q.cap + q.rate * (now - start) < U256 then Ok(q.cap) else Revert(Panic))
  {
    InitialRangeIsBounded(q.floor, q.ceiling);
    TokenBucket.NewBucketIsFull(MAX_FEI_LIMIT_PER_SECOND, q.rate, q.cap, false, start, true, q.rate, now);
  }

  /** The first trades with a new module: mints keep back the mint fee and redemptions the
      redemption fee, at the price read from the given feed, and a mint creates at most the cap. */
  lemma FirstTrades(
      q: Parameters, volt: Token, underlying: Token, start: nat,
      sender: Address, to: Address, amountIn: nat, minOut: nat, peg: Result<D256>, now: nat)
    requires q.self != ZERO && Conserved(volt) && Conserved(underlying) && start <= now
    ensures var d := Deploy(q, volt, underlying, start);
            d.Ok? ==>
              var price := ReadOracle(q.feed, peg);
              var mint := MintTrade(d.value, sender, to, amountIn, minOut, peg, now);
              var redeem := RedeemTrade(d.value, sender, to, amountIn, minOut, peg);
              && (mint.Ok? ==>
                  && price.Ok?
                  && mint.value.amountOut
                     == price.value.value * amountIn * (10_000 - q.mintFee) / (10_000 * 1_000_000_000_000_000_000)
                  && mint.value.amountOut <= Get(volt.balances, q.self) + q.cap)
              && (redeem.Ok? ==>
                  && price.Ok? && price.value.value > 0
                  && redeem.value.amountOut
                     == amountIn * (10_000 - q.redeemFee) / 10_000 * 1_000_000_000_000_000_000 / price.value.value)
  {
    if Deploy(q, volt, underlying, start).Ok? {
      var s := Deploy(q, volt, underlying, start).value;
      DeploysExactly(q, volt, underlying, start, now);
      DeployInv(q, volt, underlying, start);
      TradesInFigures(s, sender, to, amountIn, minOut, peg, now);
      MintSettlesExactly(s, sender, to, amountIn, minOut, peg, now);
      TokenBucket.BufferIsLevel(s.limiter, now);
    }
  }

  /** The surplus of a new module goes to its surplus target. */
  lemma FirstAllocation(q: Parameters, volt: Token, underlying: Token, start: nat, who: Address)
    requires q.self != ZERO && Conserved(volt) && Conserved(underlying)
    ensures var d := Deploy(q, volt, underlying, start);
            d.Ok? ==>
              var surplus := Get(underlying.balances, q.self) - q.reservesThreshold;
              var r := AllocateSurplusStep(d.value);
              r.Ok? ==>
                && surplus > 0
                && Get(r.value.underlying.balances, who)
                   == Get(underlying.balances, who) + (if who == q.surplusTarget then surplus else 0)
                                                    - (if who == q.self then surplus else 0)
  {
    var d := Deploy(q, volt, underlying, start);
    if d.Ok? && AllocateSurplusStep(d.value).Ok? {
      AllocationEffect(d.value, AllocateSurplus);
    }
  }
}
