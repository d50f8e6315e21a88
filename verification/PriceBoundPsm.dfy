/** The module's contract: fees, flags and bounds in its own fields, and calls into the rate
    limiter, the oracle reference and two token contracts. A call that reverts half-way is
    undone in all of them. */
module PriceBoundPsm {
  import opened Evm
  import opened Ledger
  import opened Decimal
  import opened OracleRef
  import opened PsmQuotes
  import opened Token
  import opened PsmSpec
  import PsmSafety
  import RateLimited

  class PriceBoundPsm {
    const self: Address
    const isMinter: bool
    const limiter: RateLimited.RateLimited
    const oracleRef: OracleRef
    const volt: Erc20
    const underlying: Erc20
    var mintFeeBasisPoints: nat
    var redeemFeeBasisPoints: nat
    var reservesThreshold: nat
    var surplusTarget: Address
    var paused: bool
    var mintPaused: bool
    var redeemPaused: bool
    var floor: nat
    var ceiling: nat

    function View(): Psm
      reads this, limiter, oracleRef, volt, underlying
    {
      Psm(self, mintFeeBasisPoints, redeemFeeBasisPoints, reservesThreshold, surplusTarget,
          paused, mintPaused, redeemPaused, PriceRange(floor, ceiling), oracleRef.View(), limiter.View(), isMinter,
          volt.View(), underlying.View())
    }

    /** The given oracle reference must be the one of the parameters. */
    constructor (q: Parameters, oracleRef: OracleRef, volt: Erc20, underlying: Erc20, now: nat)
      requires volt != underlying && q.feed == oracleRef.View()
      requires Deploy(q, volt.View(), underlying.View(), now).Ok?
      ensures Ok(View()) == Deploy(q, volt.View(), underlying.View(), now)
      ensures this.volt == volt && this.underlying == underlying && this.oracleRef == oracleRef && fresh(this.limiter)
    {
      self, isMinter := q.self, q.isMinter;
      this.limiter := new RateLimited.RateLimited(MAX_FEI_LIMIT_PER_SECOND, q.rate, q.cap, false, now);
      this.oracleRef, this.volt, this.underlying := oracleRef, volt, underlying;
      mintFeeBasisPoints, redeemFeeBasisPoints := q.mintFee, q.redeemFee;
      reservesThreshold, surplusTarget := q.reservesThreshold, q.surplusTarget;
      paused, mintPaused, redeemPaused := false, false, false;
      floor, ceiling := q.floor, q.ceiling;
      new;
      PsmSafety.InitialRangeIsBounded(q.floor, q.ceiling);
    }

    /** A trade either leaves the specified state and pays the specified amount, or reports the
        specified error and leaves everything as it was. */
    ghost predicate Did(r: Result<nat>, before: Psm, expected: Result<Trade>)
      reads this, limiter, oracleRef, volt, underlying
    {
      match expected
      case Ok(t) => r == Ok(t.amountOut) && View() == t.psm
      case Revert(e) => r == Revert(e) && View() == before
    }

    ghost predicate Governed(r: Result<()>, before: Psm, expected: Result<Psm>)
      reads this, limiter, oracleRef, volt, underlying
    {
      match expected
      case Ok(s) => r == Ok(()) && View() == s
      case Revert(e) => r == Revert(e) && View() == before
    }

    // ---------- views ----------

    method GetMaxMintAmountOut(now: nat) returns (r: Result<nat>)
      ensures r == MaxMintAmountOut(View(), now)
    {
      var buffer := limiter.CurrentBuffer(now);
      if buffer.Revert? {
        return Revert(buffer.error);
      }
      r := CheckedAdd(Get(volt.balances, self), buffer.value);
    }

    method GetMintAmountOut(amountIn: nat, peg: Result<D256>) returns (r: Result<nat>)
      ensures var price := TradePrice(View(), peg);
              r == if price.Ok? then MintAmountOut(price.value, mintFeeBasisPoints, amountIn) else Revert(price.error)
    {
      var price := TradePrice(View(), peg);
      if price.Revert? {
        return Revert(price.error);
      }
      r := MintAmountOut(price.value, mintFeeBasisPoints, amountIn);
    }

    method GetRedeemAmountOut(amountIn: nat, peg: Result<D256>) returns (r: Result<nat>)
      ensures var price := TradePrice(View(), peg);
              r == if price.Ok? then RedeemAmountOut(price.value, redeemFeeBasisPoints, amountIn) else Revert(price.error)
    {
      var price := TradePrice(View(), peg);
      if price.Revert? {
        return Revert(price.error);
      }
      r := RedeemAmountOut(price.value, redeemFeeBasisPoints, amountIn);
    }

    // ---------- trades ----------

    method MintVolt(to: Address, amount: nat, now: nat) returns (r: Result<()>)
      requires volt != underlying
      modifies volt, limiter
      ensures match PsmSpec.MintVolt(old(View()), to, amount, now)
              case Ok(s) => r == Ok(()) && View() == s
              case Revert(e) => r == Revert(e)
    {
      var depleted := limiter.Deplete(amount, now);
      if depleted.Revert? {
        return Revert(depleted.error);
      }
      if depleted.value == 0 {
        return Ok(());
      }
      if !isMinter {
        return Revert(NotMinter);
      }
      r := volt.Mint(to, depleted.value);
    }

    method PayOutVolt(to: Address, amountOut: nat, now: nat) returns (r: Result<()>)
      requires volt != underlying
      modifies volt, limiter
      ensures match PsmSpec.PayOutVolt(old(View()), to, amountOut, now)
              case Ok(s) => r == Ok(()) && View() == s
              case Revert(e) => r == Revert(e)
    {
      var amountToTransfer := Min(Get(volt.balances, self), amountOut);
      var amountToMint := amountOut - amountToTransfer;
      if amountToTransfer != 0 {
        r := volt.Transfer(self, to, amountToTransfer);
        if r.Revert? {
          return;
        }
      }
      if amountToMint != 0 {
        r := MintVolt(to, amountToMint, now);
        return;
      }
      return Ok(());
    }

    method SettleMint(sender: Address, to: Address, amountIn: nat, out: nat, now: nat) returns (r: Result<()>)
      requires volt != underlying
      modifies volt, underlying, limiter
      ensures match PsmSpec.SettleMint(old(View()), sender, to, amountIn, out, now)
              case Ok(s) => r == Ok(()) && View() == s
              case Revert(e) => r == Revert(e)
    {
      r := underlying.Transfer(sender, self, amountIn);
      if r.Ok? {
        r := PayOutVolt(to, out, now);
      }
    }

    method Mint(sender: Address, to: Address, amountIn: nat, minAmountOut: nat, peg: Result<D256>, now: nat)
      returns (r: Result<nat>)
      requires volt != underlying
      modifies volt, underlying, limiter
      ensures Did(r, old(View()), MintTrade(old(View()), sender, to, amountIn, minAmountOut, peg, now))
    {
      if paused || mintPaused {
        return Revert(Paused);
      }
      r := GetMintAmountOut(amountIn, peg);
      if r.Revert? {
        return r;
      }
      if r.value < minAmountOut {
        return Revert(NotEnoughOut);
      }
      assert r == MintQuote(View(), amountIn, minAmountOut, peg);
      var savedVolt, savedUnderlying, savedLimiter := volt.View(), underlying.View(), limiter.View();
      var settled := SettleMint(sender, to, amountIn, r.value, now);
      if settled.Revert? {
        volt.Restore(savedVolt);
        underlying.Restore(savedUnderlying);
        limiter.Restore(savedLimiter);
        return Revert(settled.error);
      }
    }

    method SettleRedeem(sender: Address, to: Address, amountIn: nat, out: nat) returns (r: Result<()>)
      requires volt != underlying
      modifies volt, underlying
      ensures match PsmSpec.SettleRedeem(old(View()), sender, to, amountIn, out)
              case Ok(s) => r == Ok(()) && View() == s
              case Revert(e) => r == Revert(e)
    {
      r := volt.Transfer(sender, self, amountIn);
      if r.Ok? {
        r := underlying.Transfer(self, to, out);
      }
    }

    method Redeem(sender: Address, to: Address, amountIn: nat, minAmountOut: nat, peg: Result<D256>)
      returns (r: Result<nat>)
      requires volt != underlying
      modifies volt, underlying
      ensures Did(r, old(View()), RedeemTrade(old(View()), sender, to, amountIn, minAmountOut, peg))
    {
      if paused || redeemPaused {
        return Revert(Paused);
      }
      r := GetRedeemAmountOut(amountIn, peg);
      if r.Revert? {
        return r;
      }
      if r.value < minAmountOut {
        return Revert(NotEnoughOut);
      }
      assert r == RedeemQuote(View(), amountIn, minAmountOut, peg);
      var savedVolt, savedUnderlying := volt.View(), underlying.View();
      var settled := SettleRedeem(sender, to, amountIn, r.value);
      if settled.Revert? {
        volt.Restore(savedVolt);
        underlying.Restore(savedUnderlying);
        return Revert(settled.error);
      }
    }

    // ---------- surplus reserves ----------

    method AllocateSurplus() returns (r: Result<()>)
      requires volt != underlying
      modifies underlying
      ensures Governed(r, old(View()), AllocateSurplusStep(old(View())))
    {
      var surplus := ReservesSurplus(View());
      if surplus.Revert? {
        return Revert(surplus.error);
      }
      if surplus.value <= 0 {
        return Revert(NoSurplus);
      }
      r := underlying.Transfer(self, surplusTarget, surplus.value);
    }

    method Deposit() returns (r: Result<()>)
      requires volt != underlying
      modifies underlying
      ensures Governed(r, old(View()), DepositStep(old(View())))
    {
      var surplus := ReservesSurplus(View());
      if surplus.Revert? {
        return Revert(surplus.error);
      }
      if surplus.value > 0 {
        r := underlying.Transfer(self, surplusTarget, surplus.value);
        return;
      }
      return Ok(());
    }

    // ---------- governance ----------

    method UpdateReservesThreshold(authorized: bool, threshold: nat) returns (r: Result<()>)
      modifies this`reservesThreshold
      ensures Governed(r, old(View()), ChangeSetting(old(View()), authorized, ReservesThreshold(threshold), 0))
    {
      if !authorized {
        return Revert(Unauthorized);
      }
      if threshold == 0 {
        return Revert(InvalidThreshold);
      }
      reservesThreshold := threshold;
      return Ok(());
    }

    method UpdateSurplusTarget(authorized: bool, target: Address) returns (r: Result<()>)
      modifies this`surplusTarget
      ensures Governed(r, old(View()), ChangeSetting(old(View()), authorized, SurplusTarget(target), 0))
    {
      if !authorized {
        return Revert(Unauthorized);
      }
      if target == ZERO {
        return Revert(ZeroAddress);
      }
      surplusTarget := target;
      return Ok(());
    }

    /** The flags behind the functions that pause and unpause everything, minting and redeeming. */
    method UpdatePauses(authorized: bool, all: bool, minting: bool, redeeming: bool) returns (r: Result<()>)
      modifies this`paused, this`mintPaused, this`redeemPaused
      ensures Governed(r, old(View()), ChangeSetting(old(View()), authorized, Pauses(all, minting, redeeming), 0))
    {
      if !authorized {
        return Revert(Unauthorized);
      }
      paused, mintPaused, redeemPaused := all, minting, redeeming;
      return Ok(());
    }

    method UpdateMintFee(authorized: bool, fee: nat) returns (r: Result<()>)
      modifies this`mintFeeBasisPoints
      ensures Governed(r, old(View()), ChangeSetting(old(View()), authorized, MintFee(fee), 0))
    {
      if !authorized {
        return Revert(Unauthorized);
      }
      if fee > MAX_FEE {
        return Revert(FeeTooHigh);
      }
      mintFeeBasisPoints := fee;
      return Ok(());
    }

    method UpdateRedeemFee(authorized: bool, fee: nat) returns (r: Result<()>)
      modifies this`redeemFeeBasisPoints
      ensures Governed(r, old(View()), ChangeSetting(old(View()), authorized, RedeemFee(fee), 0))
    {
      if !authorized {
        return Revert(Unauthorized);
      }
      if fee > MAX_FEE {
        return Revert(FeeTooHigh);
      }
      redeemFeeBasisPoints := fee;
      return Ok(());
    }

    method UpdateFloor(authorized: bool, basisPoints: nat) returns (r: Result<()>)
      modifies this`floor
      ensures Governed(r, old(View()), ChangeSetting(old(View()), authorized, Floor(basisPoints), 0))
    {
      if !authorized {
        return Revert(Unauthorized);
      }
      var range := SetFloorBasisPoints(PriceRange(floor, ceiling), basisPoints);
      if range.Revert? {
        return Revert(range.error);
      }
      floor := basisPoints;
      return Ok(());
    }

    method UpdateCeiling(authorized: bool, basisPoints: nat) returns (r: Result<()>)
      modifies this`ceiling
      ensures Governed(r, old(View()), ChangeSetting(old(View()), authorized, Ceiling(basisPoints), 0))
    {
      if !authorized {
        return Revert(Unauthorized);
      }
      var range := SetCeilingBasisPoints(PriceRange(floor, ceiling), basisPoints);
      if range.Revert? {
        return Revert(range.error);
      }
      ceiling := basisPoints;
      return Ok(());
    }
  }
}
