/** What the peg stability module pays: nested floor divisions, and what no trader can get out
    of their rounding. */
module PsmQuotes {
  import opened Evm
  import opened Floors
  import opened Decimal

  const GRANULARITY: nat := 10_000

  function MintAmountOut(price: D256, fee: nat, amountIn: nat): Result<nat> {
    var adjusted :- Mul(price, amountIn);
    var keep :- CheckedSub(GRANULARITY, fee);
    var product :- Mul(adjusted, keep);
    var quotient :- Div(product, GRANULARITY);
    Ok(AsUint256(quotient))
  }

  function RedeemAmountOut(price: D256, fee: nat, amountIn: nat): Result<nat> {
    var keep :- CheckedSub(GRANULARITY, fee);
    var product :- CheckedMul(amountIn, keep);
    var adjusted :- From(product / GRANULARITY);
    var quotient :- DivBy(adjusted, price);
    Ok(AsUint256(quotient))
  }

  // ---------- when there is a quote, and which ----------

  /** A mint is quoted exactly when the fee is at most the whole and both products fit a word. */
  lemma MintQuotesExactly(price: D256, fee: nat, amountIn: nat)
    ensures MintAmountOut(price, fee, amountIn)
         == if fee <= 10_000 && price.value * amountIn < U256 && price.value * amountIn * (10_000 - fee) < U256
            then Ok(price.value * amountIn * (10_000 - fee) / (10_000 * 1_000_000_000_000_000_000))
            else Revert(Panic)
  {
    if fee <= 10_000 {
      MulLe(0, price.value, amountIn);
      MulLe(0, price.value * amountIn, 10_000 - fee);
      FloorOfFloor(price.value * amountIn * (10_000 - fee), 10_000, BASE);
    }
  }

  /** A redemption is quoted exactly when the fee is at most the whole, there is a price, and both
      the amount before the division by 10000 and the net amount with 36 more digits fit a word. */
  lemma RedeemQuotesExactly(price: D256, fee: nat, amountIn: nat)
    ensures RedeemAmountOut(price, fee, amountIn)
         == if fee <= 10_000 && price.value > 0 && amountIn * (10_000 - fee) < U256
               && amountIn * (10_000 - fee) / 10_000 * 1_000_000_000_000_000_000_000_000_000_000_000_000 < U256
            then Ok(amountIn * (10_000 - fee) / 10_000 * 1_000_000_000_000_000_000 / price.value)
            else Revert(Panic)
  {
    if fee <= 10_000 && price.value > 0 {
      MulLe(0, amountIn, 10_000 - fee);
      NetOverPrice(amountIn * (10_000 - fee) / 10_000, price.value);
    }
  }

  /** Of the two factors of 10^18 in a redemption one cancels, so rounding twice is rounding once. */
  lemma NetOverPrice(net: nat, price: nat)
    requires price > 0
    ensures net * BASE * BASE / price / BASE == net * BASE / price
  {
    FloorOfFloor(net * BASE * BASE, price, BASE);
    FloorOfFloor(net * BASE * BASE, BASE, price);
    FloorOfMultiple(net * BASE, BASE);
    MulCommutes(price, BASE);
  }

  // ---------- one floor each ----------

  /** A mint quote is the exact amount after fees, rounded down once. */
  lemma MintRoundsDown(price: D256, fee: nat, amountIn: nat)
    requires MintAmountOut(price, fee, amountIn).Ok?
    ensures fee <= GRANULARITY
    ensures var out := MintAmountOut(price, fee, amountIn).value;
            var exact := price.value * amountIn * (GRANULARITY - fee);
            && out == exact / (BASE * GRANULARITY)
            && out * (BASE * GRANULARITY) <= exact < (out + 1) * (BASE * GRANULARITY)
  {
    var exact := price.value * amountIn * (GRANULARITY - fee);
    FloorOfFloor(exact, GRANULARITY, BASE);
    FloorBounds(exact, GRANULARITY * BASE);
  }

  /** A redeem quote rounds down twice: once for the fee, once for the price. */
  lemma RedeemRoundsDown(price: D256, fee: nat, amountIn: nat)
    requires RedeemAmountOut(price, fee, amountIn).Ok?
    ensures fee <= GRANULARITY && price.value > 0
    ensures var out := RedeemAmountOut(price, fee, amountIn).value;
            var net := amountIn * (GRANULARITY - fee) / GRANULARITY;
            && out == net * BASE / price.value
            && out * price.value <= net * BASE < (out + 1) * price.value
            && net * GRANULARITY <= amountIn * (GRANULARITY - fee)
  {
    var net := amountIn * (GRANULARITY - fee) / GRANULARITY;
    FloorBounds(amountIn * (GRANULARITY - fee), GRANULARITY);
    NetOverPrice(net, price.value);
    FloorBounds(net * BASE, price.value);
  }

  // ---------- value for money ----------

  /** A mint gives at most what was paid is worth. */
  lemma MintWithinPrice(price: D256, fee: nat, amountIn: nat)
    requires MintAmountOut(price, fee, amountIn).Ok?
    ensures MintAmountOut(price, fee, amountIn).value * BASE <= price.value * amountIn
  {
    var out := MintAmountOut(price, fee, amountIn).value;
    MintRoundsDown(price, fee, amountIn);
    MulLe(GRANULARITY - fee, GRANULARITY, price.value * amountIn);
    assert out * (BASE * GRANULARITY) == out * BASE * GRANULARITY;
  }

  /** A redemption pays at most what the VOLT is worth. */
  lemma RedeemWithinPrice(price: D256, fee: nat, amountIn: nat)
    requires RedeemAmountOut(price, fee, amountIn).Ok?
    ensures RedeemAmountOut(price, fee, amountIn).value * price.value <= amountIn * BASE
  {
    RedeemRoundsDown(price, fee, amountIn);
    MulLe(GRANULARITY - fee, GRANULARITY, amountIn);
  }

  /** Minting and redeeming what was minted loses at least both fees. */
  lemma MintThenRedeem(price: D256, mintFee: nat, redeemFee: nat, a: nat)
    requires MintAmountOut(price, mintFee, a).Ok?
    requires RedeemAmountOut(price, redeemFee, MintAmountOut(price, mintFee, a).value).Ok?
    ensures mintFee <= GRANULARITY && redeemFee <= GRANULARITY
    ensures RedeemAmountOut(price, redeemFee, MintAmountOut(price, mintFee, a).value).value * (GRANULARITY * GRANULARITY)
         <= a * (GRANULARITY - mintFee) * (GRANULARITY - redeemFee)
  {
    var v := MintAmountOut(price, mintFee, a).value;
    var u := RedeemAmountOut(price, redeemFee, v).value;
    MintRoundsDown(price, mintFee, a);
    RedeemRoundsDown(price, redeemFee, v);
    RoundTripBound(price.value, GRANULARITY - mintFee, GRANULARITY - redeemFee, a, v,
                   v * (GRANULARITY - redeemFee) / GRANULARITY, u);
  }

  lemma RoundTripBound(p: nat, m: nat, r: nat, a: nat, v: nat, net: nat, u: nat)
    requires p > 0
    requires v * (BASE * GRANULARITY) <= p * a * m
    requires net * GRANULARITY <= v * r
    requires u * p <= net * BASE
    ensures u * (GRANULARITY * GRANULARITY) <= a * m * r
  {
    MulLe(net * GRANULARITY, v * r, BASE * GRANULARITY);
    MulLe(v * (BASE * GRANULARITY), p * a * m, r);
    assert v * r * (BASE * GRANULARITY) == v * (BASE * GRANULARITY) * r;
    assert p * a * m * r == p * (a * m * r) by {
      assert p * a * m == p * (a * m);
      assert p * (a * m) * r == p * (a * m * r);
    }
    assert u * p * (GRANULARITY * GRANULARITY) == p * (u * (GRANULARITY * GRANULARITY));
    if u * (GRANULARITY * GRANULARITY) > a * m * r {
      MulLt(a * m * r, u * (GRANULARITY * GRANULARITY), p);
    }
  }

  /** Redeeming and minting again with the proceeds loses at least both fees, too. */
  lemma RedeemThenMint(price: D256, mintFee: nat, redeemFee: nat, f: nat)
    requires RedeemAmountOut(price, redeemFee, f).Ok?
    requires MintAmountOut(price, mintFee, RedeemAmountOut(price, redeemFee, f).value).Ok?
    ensures mintFee <= GRANULARITY && redeemFee <= GRANULARITY
    ensures MintAmountOut(price, mintFee, RedeemAmountOut(price, redeemFee, f).value).value * (GRANULARITY * GRANULARITY)
         <= f * (GRANULARITY - mintFee) * (GRANULARITY - redeemFee)
  {
    var u := RedeemAmountOut(price, redeemFee, f).value;
    var v := MintAmountOut(price, mintFee, u).value;
    RedeemRoundsDown(price, redeemFee, f);
    MintRoundsDown(price, mintFee, u);
    ReverseTripBound(price.value, GRANULARITY - mintFee, GRANULARITY - redeemFee, f, u,
                     f * (GRANULARITY - redeemFee) / GRANULARITY, v);
  }

  lemma ReverseTripBound(p: nat, m: nat, r: nat, f: nat, u: nat, net: nat, v: nat)
    requires v * (BASE * GRANULARITY) <= p * u * m
    requires net * GRANULARITY <= f * r
    requires u * p <= net * BASE
    ensures v * (GRANULARITY * GRANULARITY) <= f * m * r
  {
    MulLe(u * p, net * BASE, m);
    assert p * u * m == u * p * m;
    assert net * BASE * m == net * m * BASE;
    assert v * GRANULARITY * BASE == v * (BASE * GRANULARITY);
    assert v * GRANULARITY <= net * m;
    MulLe(net * GRANULARITY, f * r, m);
    assert net * m * GRANULARITY == net * GRANULARITY * m;
    assert f * m * r == f * r * m;
  }

  // ---------- splitting ----------

  /** Two smaller mints never give more than one large mint. */
  lemma SplittingMintNeverHelps(price: D256, fee: nat, a: nat, b: nat)
    requires MintAmountOut(price, fee, a).Ok? && MintAmountOut(price, fee, b).Ok?
    requires MintAmountOut(price, fee, a + b).Ok?
    ensures MintAmountOut(price, fee, a).value + MintAmountOut(price, fee, b).value
         <= MintAmountOut(price, fee, a + b).value
  {
    MintRoundsDown(price, fee, a);
    MintRoundsDown(price, fee, b);
    MintRoundsDown(price, fee, a + b);
    SumOfProducts(price.value, a, b, GRANULARITY - fee);
    FloorSuperadditive(price.value * a * (GRANULARITY - fee), price.value * b * (GRANULARITY - fee), BASE * GRANULARITY);
  }

  lemma SumOfProducts(p: nat, a: nat, b: nat, k: nat)
    ensures p * (a + b) * k == p * a * k + p * b * k
  {
    assert p * (a + b) == p * a + p * b;
  }

  /** Two smaller redemptions never pay more than one large redemption. */
  lemma SplittingRedeemNeverHelps(price: D256, fee: nat, a: nat, b: nat)
    requires RedeemAmountOut(price, fee, a).Ok? && RedeemAmountOut(price, fee, b).Ok?
    requires RedeemAmountOut(price, fee, a + b).Ok?
    ensures RedeemAmountOut(price, fee, a).value + RedeemAmountOut(price, fee, b).value
         <= RedeemAmountOut(price, fee, a + b).value
  {
    RedeemRoundsDown(price, fee, a);
    RedeemRoundsDown(price, fee, b);
    RedeemRoundsDown(price, fee, a + b);
    NestedFloorsSuperadditive(a, b, GRANULARITY - fee, price.value);
  }

  lemma NestedFloorsSuperadditive(a: nat, b: nat, keep: nat, p: nat)
    requires p > 0
    ensures a * keep / GRANULARITY * BASE / p + b * keep / GRANULARITY * BASE / p
         <= (a + b) * keep / GRANULARITY * BASE / p
  {
    var x, y, z := a * keep / GRANULARITY, b * keep / GRANULARITY, (a + b) * keep / GRANULARITY;
    assert (a + b) * keep == a * keep + b * keep;
    FloorSuperadditive(a * keep, b * keep, GRANULARITY);
    FloorSuperadditive(x * BASE, y * BASE, p);
    FloorMonotone(x * BASE + y * BASE, z * BASE, p);
  }
}
