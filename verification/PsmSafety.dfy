/** What every call keeps, when trades settle and what they pay, and the bounds on their prices. */
module PsmSafety {
  import opened Evm
  import opened Ledger
  import opened Floors
  import opened Decimal
  import opened OracleRef
  import opened PsmQuotes
  import opened Token
  import opened PsmSpec
  import TokenBucket

  // ---------- what every call keeps ----------

  ghost predicate Bounded(r: PriceRange) {
    0 < r.floor < r.ceiling && r.ceiling * BASE < U256
  }

  ghost predicate Inv(s: Psm, now: nat) {
    && s.self != ZERO
    && s.mintFee <= MAX_FEE && s.redeemFee <= MAX_FEE
    && s.reservesThreshold > 0 && s.surplusTarget != ZERO
    && Bounded(s.range)
    && TokenBucket.Valid(s.limiter, now) && !s.limiter.partialAction
    && Conserved(s.volt) && Conserved(s.underlying)
  }

  lemma RatioIsExact(basisPoints: nat)
    ensures Ratio(basisPoints, GRANULARITY)
         == if basisPoints * BASE < U256 then Ok(D256(basisPoints * (BASE / GRANULARITY))) else Revert(Panic)
  {
    FloorOfMultiple(basisPoints * (BASE / GRANULARITY), GRANULARITY);
    assert basisPoints * BASE == basisPoints * (BASE / GRANULARITY) * GRANULARITY;
  }

  /** The constructor accepts exactly the ranges 0 < floor < ceiling that fit a word. */
  lemma InitialRangeIsBounded(floor: nat, ceiling: nat)
    ensures InitialRange(floor, ceiling).Ok? <==> Bounded(PriceRange(floor, ceiling))
    ensures InitialRange(floor, ceiling).Ok? ==> InitialRange(floor, ceiling).value == PriceRange(floor, ceiling)
  {
    RatioIsExact(0);
    RatioIsExact(floor);
    RatioIsExact(ceiling);
  }

  /** The setters accept exactly the ranges that stay bounded. */
  lemma SettersKeepBounded(r: PriceRange, basisPoints: nat)
    requires Bounded(r)
    ensures SetFloorBasisPoints(r, basisPoints).Ok? <==> Bounded(r.(floor := basisPoints))
    ensures SetFloorBasisPoints(r, basisPoints).Ok? ==>
              SetFloorBasisPoints(r, basisPoints).value == r.(floor := basisPoints)
    ensures SetCeilingBasisPoints(r, basisPoints).Ok? <==> Bounded(r.(ceiling := basisPoints))
    ensures SetCeilingBasisPoints(r, basisPoints).Ok? ==>
              SetCeilingBasisPoints(r, basisPoints).value == r.(ceiling := basisPoints)
  {
    RatioIsExact(basisPoints);
    RatioIsExact(r.floor);
    RatioIsExact(r.ceiling);
  }

  // ---------- the effect of a trade on everybody's tokens ----------

  /** `after` is the limiter after using exactly `amount` of its buffer; nothing needs no buffer. */
  predicate PaidFromLimit(before: TokenBucket.Bucket, after: TokenBucket.Bucket, amount: nat, now: nat) {
    if amount == 0 then after == before
    else
      var deplete := TokenBucket.At(now, TokenBucket.Deplete(amount));
      TokenBucket.Used(before, deplete) == Ok(amount) && after == TokenBucket.After(before, deplete)
  }

  lemma PaidLevel(before: TokenBucket.Bucket, after: TokenBucket.Bucket, amount: nat, now: nat)
    requires TokenBucket.Valid(before, now) && !before.partialAction && PaidFromLimit(before, after, amount, now)
    ensures TokenBucket.Valid(after, now) && after.maxRate == before.maxRate && !after.partialAction
    ensures TokenBucket.Level(after, now) + amount == TokenBucket.Level(before, now)
  {
    if amount != 0 {
      TokenBucket.StepIsSimple(before, TokenBucket.Deplete(amount), now);
      TokenBucket.StepPays(before, TokenBucket.Deplete(amount), now);
    }
  }

  lemma MintVoltEffect(s: Psm, to: Address, amount: nat, now: nat)
    requires amount > 0 && MintVolt(s, to, amount, now).Ok? && !s.limiter.partialAction
    ensures var t := MintVolt(s, to, amount, now).value;
            && t == s.(volt := t.volt, limiter := t.limiter)
            && MintToken(s.volt, to, amount) == Ok(t.volt)
            && PaidFromLimit(s.limiter, t.limiter, amount, now)
  {
  }

  /** Held VOLT pays first; the supply grows by the rest, and only that counts against the limit. */
  lemma PayOutEffect(s: Psm, to: Address, out: nat, now: nat)
    requires PayOutVolt(s, to, out, now).Ok? && !s.limiter.partialAction
    ensures var t := PayOutVolt(s, to, out, now).value;
            var fromHeld := Min(Get(s.volt.balances, s.self), out);
            && t == s.(volt := t.volt, limiter := t.limiter)
            && t.volt.supply == s.volt.supply + (out - fromHeld)
            && (forall who :: Get(t.volt.balances, who)
                              == Get(s.volt.balances, who) + Change(s.self, to, fromHeld, who)
                                 + if who == to then out - fromHeld else 0)
            && PaidFromLimit(s.limiter, t.limiter, out - fromHeld, now)
            && (Conserved(s.volt) ==> Conserved(t.volt))
  {
    var fromHeld := Min(Get(s.volt.balances, s.self), out);
    var t := PayOutVolt(s, to, out, now).value;
    var volt := if fromHeld != 0 then TransferToken(s.volt, s.self, to, fromHeld).value else s.volt;
    if out != fromHeld {
      MintVoltEffect(s.(volt := volt), to, out - fromHeld, now);
    }
    assert t.volt == if out != fromHeld then MintToken(volt, to, out - fromHeld).value else volt;
    TwoPartPayment(s.volt, t.volt, s.self, to, fromHeld, out - fromHeld);
  }

  /** `after` is `before` after a transfer of `held` tokens and a mint of `minted` tokens, either of
      which is left out when it is zero. */
  ghost predicate PaidInParts(before: Token, after: Token, src: Address, to: Address, held: nat, minted: nat) {
    && (held != 0 ==> TransferToken(before, src, to, held).Ok?)
    && var mid := if held != 0 then TransferToken(before, src, to, held).value else before;
    && (minted != 0 ==> MintToken(mid, to, minted).Ok?)
    && after == if minted != 0 then MintToken(mid, to, minted).value else mid
  }

  lemma TwoPartPayment(before: Token, after: Token, src: Address, to: Address, held: nat, minted: nat)
    requires PaidInParts(before, after, src, to, held, minted)
    ensures after.supply == before.supply + minted
    ensures forall who :: Get(after.balances, who)
                          == Get(before.balances, who) + Change(src, to, held, who) + if who == to then minted else 0
    ensures Conserved(before) ==> Conserved(after)
  {
    if held != 0 {
      TransferEffect(before, src, to, held);
    }
    if minted != 0 {
      MintEffect(if held != 0 then TransferToken(before, src, to, held).value else before, to, minted);
    }
  }

  ghost predicate MintEffects(s: Psm, t: Psm, sender: Address, to: Address, amountIn: nat, out: nat, now: nat) {
    var fromHeld := Min(Get(s.volt.balances, s.self), out);
    && t == s.(volt := t.volt, limiter := t.limiter, underlying := t.underlying)
    && t.volt.supply == s.volt.supply + (out - fromHeld)
    && t.underlying.supply == s.underlying.supply
    && (forall who :: Get(t.underlying.balances, who)
                      == Get(s.underlying.balances, who) + Change(sender, s.self, amountIn, who))
    && (forall who :: Get(t.volt.balances, who)
                      == Get(s.volt.balances, who) + Change(s.self, to, fromHeld, who)
                         + if who == to then out - fromHeld else 0)
    && PaidFromLimit(s.limiter, t.limiter, out - fromHeld, now)
    && (Conserved(s.volt) ==> Conserved(t.volt))
    && (Conserved(s.underlying) ==> Conserved(t.underlying))
  }

  lemma MintTradeEffect(s: Psm, sender: Address, to: Address, amountIn: nat, minOut: nat, peg: Result<D256>, now: nat)
    requires MintTrade(s, sender, to, amountIn, minOut, peg, now).Ok? && !s.limiter.partialAction
    ensures var t := MintTrade(s, sender, to, amountIn, minOut, peg, now).value;
            && TradePrice(s, peg).Ok?
            && MintAmountOut(TradePrice(s, peg).value, s.mintFee, amountIn) == Ok(t.amountOut)
            && MintEffects(s, t.psm, sender, to, amountIn, t.amountOut, now)
  {
    var out := MintAmountOut(TradePrice(s, peg).value, s.mintFee, amountIn).value;
    TransferEffect(s.underlying, sender, s.self, amountIn);
    PayOutEffect(s.(underlying := TransferToken(s.underlying, sender, s.self, amountIn).value), to, out, now);
  }

  ghost predicate RedeemEffects(s: Psm, t: Psm, sender: Address, to: Address, amountIn: nat, out: nat) {
    && t == s.(volt := t.volt, underlying := t.underlying)
    && t.volt.supply == s.volt.supply
    && t.underlying.supply == s.underlying.supply
    && (forall who :: Get(t.volt.balances, who) == Get(s.volt.balances, who) + Change(sender, s.self, amountIn, who))
    && (forall who :: Get(t.underlying.balances, who)
                      == Get(s.underlying.balances, who) + Change(s.self, to, out, who))
    && (Conserved(s.volt) ==> Conserved(t.volt))
    && (Conserved(s.underlying) ==> Conserved(t.underlying))
  }

  lemma RedeemTradeEffect(s: Psm, sender: Address, to: Address, amountIn: nat, minOut: nat, peg: Result<D256>)
    requires RedeemTrade(s, sender, to, amountIn, minOut, peg).Ok?
    ensures var t := RedeemTrade(s, sender, to, amountIn, minOut, peg).value;
            && TradePrice(s, peg).Ok?
            && RedeemAmountOut(TradePrice(s, peg).value, s.redeemFee, amountIn) == Ok(t.amountOut)
            && RedeemEffects(s, t.psm, sender, to, amountIn, t.amountOut)
  {
    var out := RedeemAmountOut(TradePrice(s, peg).value, s.redeemFee, amountIn).value;
    TransferEffect(s.volt, sender, s.self, amountIn);
    TransferEffect(s.underlying, s.self, to, out);
  }

  lemma LimiterKeepsInv(s: Psm, authorized: bool, rate: nat, cap: nat, now: nat)
    requires Inv(s, now)
    ensures var r := TokenBucket.SetRateLimit(s.limiter, authorized, rate, now);
            r.Ok? ==> Inv(s.(limiter := r.value), now)
    ensures var r := TokenBucket.SetBufferCap(s.limiter, authorized, cap, now);
            r.Ok? ==> Inv(s.(limiter := r.value), now)
  {
    TokenBucket.StepIsSimple(s.limiter, TokenBucket.SetRate(authorized, rate), now);
    TokenBucket.StepIsSimple(s.limiter, TokenBucket.SetCap(authorized, cap), now);
  }

  lemma ChangeKeepsInv(s: Psm, authorized: bool, setting: Setting, now: nat)
    requires Inv(s, now) && ChangeSetting(s, authorized, setting, now).Ok?
    ensures Inv(ChangeSetting(s, authorized, setting, now).value, now)
  {
    match setting
    case Floor(basisPoints) => SettersKeepBounded(s.range, basisPoints);
    case Ceiling(basisPoints) => SettersKeepBounded(s.range, basisPoints);
    case RateLimit(rate) => LimiterKeepsInv(s, authorized, rate, 0, now);
    case BufferCap(cap) => LimiterKeepsInv(s, authorized, 0, cap, now);
    case _ =>
  }

  lemma AllocationEffect(s: Psm, m: Movement)
    requires (m.AllocateSurplus? || m.Deposit?) && MoveTokens(s, m).Ok?
    ensures var t := MoveTokens(s, m).value;
            && t == s.(underlying := t.underlying)
            && (Conserved(s.underlying) ==> Conserved(t.underlying))
            && (forall who :: Get(t.underlying.balances, who)
                              == Get(s.underlying.balances, who)
                                 + Change(s.self, s.surplusTarget, SurplusMoved(s, m), who))
  {
    if SurplusMoved(s, m) > 0 {
      TransferEffect(s.underlying, s.self, s.surplusTarget, SurplusMoved(s, m));
      assert MoveTokens(s, m) == Allocate(s, SurplusMoved(s, m));
    } else {
      assert MoveTokens(s, m) == Ok(s);
    }
  }

  /** `t` is `s` after the movement `m` of tokens. */
  ghost predicate TokensMoved(s: Psm, t: Psm, m: Movement) {
    && t == s.(volt := t.volt, underlying := t.underlying)
    && (Conserved(s.volt) ==> Conserved(t.volt))
    && (Conserved(s.underlying) ==> Conserved(t.underlying))
    && (forall who :: Get(t.volt.balances, who) == Get(s.volt.balances, who) + VoltMoved(m, who))
    && (forall who :: Get(t.underlying.balances, who) == Get(s.underlying.balances, who) + UnderlyingMoved(s, m, who))
  }

  lemma PaymentEffect(s: Psm, m: Movement)
    requires (m.PayVolt? || m.PayUnderlying?) && MoveTokens(s, m).Ok?
    ensures TokensMoved(s, MoveTokens(s, m).value, m)
  {
    if m.PayVolt? {
      TransferEffect(s.volt, m.src, m.dst, m.amount);
    } else {
      TransferEffect(s.underlying, m.src, m.dst, m.amount);
    }
  }

  lemma IssueEffect(s: Psm, m: Movement)
    requires (m.MintElsewhere? || m.BurnVolt?) && MoveTokens(s, m).Ok?
    ensures TokensMoved(s, MoveTokens(s, m).value, m)
  {
    if m.MintElsewhere? {
      MintEffect(s.volt, m.dst, m.amount);
    } else {
      BurnEffect(s.volt, m.src, m.amount);
    }
  }

  /** What a token movement outside of trades does to everybody's tokens. */
  lemma MovementEffect(s: Psm, m: Movement)
    requires MoveTokens(s, m).Ok?
    ensures TokensMoved(s, MoveTokens(s, m).value, m)
  {
    match m
    case PayVolt(_, _, _) => PaymentEffect(s, m);
    case PayUnderlying(_, _, _) => PaymentEffect(s, m);
    case MintElsewhere(_, _, _) => IssueEffect(s, m);
    case BurnVolt(_, _) => IssueEffect(s, m);
    case _ => AllocationEffect(s, m);
  }

  /** When payments, mints elsewhere and burns succeed. */
  lemma MovementSettlesExactly(s: Psm, m: Movement)
    requires Conserved(s.volt) && Conserved(s.underlying)
    ensures match m
            case PayVolt(src, dst, amount) =>
              MoveTokens(s, m).Ok? <==> src != ZERO && dst != ZERO && amount <= Get(s.volt.balances, src)
            case PayUnderlying(src, dst, amount) =>
              MoveTokens(s, m).Ok? <==> src != ZERO && dst != ZERO && amount <= Get(s.underlying.balances, src)
            case MintElsewhere(authorized, dst, amount) =>
              MoveTokens(s, m).Ok? <==> authorized && dst != ZERO && s.volt.supply + amount < U256
            case BurnVolt(src, amount) =>
              MoveTokens(s, m).Ok? <==> src != ZERO && amount <= Get(s.volt.balances, src)
            case _ => true
  {
    match m
    case PayVolt(src, dst, amount) => TransferSucceeds(s.volt, src, dst, amount);
    case PayUnderlying(src, dst, amount) => TransferSucceeds(s.underlying, src, dst, amount);
    case MintElsewhere(_, dst, amount) => MintSucceeds(s.volt, dst, amount);
    case BurnVolt(src, amount) => BurnSucceeds(s.volt, src, amount);
    case _ =>
  }

  function VoltMoved(m: Movement, who: Address): int {
    match m
    case PayVolt(src, dst, amount) => Change(src, dst, amount, who)
    case MintElsewhere(_, dst, amount) => if who == dst then amount else 0
    case BurnVolt(src, amount) => if who == src then 0 - amount as int else 0
    case _ => 0
  }

  function UnderlyingMoved(s: Psm, m: Movement, who: Address): int {
    match m
    case PayUnderlying(src, dst, amount) => Change(src, dst, amount, who)
    case _ => Change(s.self, s.surplusTarget, SurplusMoved(s, m), who)
  }

  /** Fees stay within the maximum, bounds stay ordered, and tokens stay conserved. */
  lemma StepKeepsInv(s: Psm, op: Op, peg: Result<D256>, now: nat)
    requires Inv(s, now)
    ensures Inv(After(s, op, peg, now), now)
  {
    if Step(s, op, peg, now).Ok? {
      match op
      case Mint(sender, to, amountIn, minOut) =>
        MintTradeEffect(s, sender, to, amountIn, minOut, peg, now);
        PaidLevel(s.limiter, After(s, op, peg, now).limiter, NewVolt(s, op, peg, now), now);
      case Redeem(sender, to, amountIn, minOut) => RedeemTradeEffect(s, sender, to, amountIn, minOut, peg);
      case Govern(authorized, setting) => ChangeKeepsInv(s, authorized, setting, now);
      case Move(movement) => MovementEffect(s, movement);
    }
  }

  // ---------- what no call changes ----------

  predicate OnlyTokensMove(s: Psm, t: Psm) {
    t == s.(volt := t.volt, underlying := t.underlying, limiter := t.limiter)
  }

  lemma MintVoltFrame(s: Psm, to: Address, amount: nat, now: nat)
    ensures MintVolt(s, to, amount, now).Ok? ==> OnlyTokensMove(s, MintVolt(s, to, amount, now).value)
  {
  }

  lemma PayOutFrame(s: Psm, to: Address, out: nat, now: nat)
    ensures PayOutVolt(s, to, out, now).Ok? ==> OnlyTokensMove(s, PayOutVolt(s, to, out, now).value)
  {
    var toTransfer := Min(Get(s.volt.balances, s.self), out);
    var volt := if toTransfer != 0 then TransferToken(s.volt, s.self, to, toTransfer) else Ok(s.volt);
    if volt.Ok? {
      MintVoltFrame(s.(volt := volt.value), to, out - toTransfer, now);
    }
  }

  lemma SettleMintFrame(s: Psm, sender: Address, to: Address, amountIn: nat, out: nat, now: nat)
    ensures var r := SettleMint(s, sender, to, amountIn, out, now); r.Ok? ==> OnlyTokensMove(s, r.value)
  {
    var underlying := TransferToken(s.underlying, sender, s.self, amountIn);
    if underlying.Ok? {
      PayOutFrame(s.(underlying := underlying.value), to, out, now);
    }
  }

  /** Trades and token movements change nothing but tokens and limiter. */
  lemma CallFrame(s: Psm, op: Op, peg: Result<D256>, now: nat)
    ensures !op.Govern? ==> OnlyTokensMove(s, After(s, op, peg, now))
  {
    match op
    case Mint(sender, to, amountIn, minOut) =>
      var out := MintQuote(s, amountIn, minOut, peg);
      if out.Ok? {
        SettleMintFrame(s, sender, to, amountIn, out.value, now);
      }
    case Redeem(_, _, _, _) =>
    case Govern(_, _) =>
    case Move(movement) =>
      if MoveTokens(s, movement).Ok? {
        MovementEffect(s, movement);
      }
  }

  lemma ChangeFrame(s: Psm, authorized: bool, setting: Setting, now: nat)
    ensures var r := ChangeSetting(s, authorized, setting, now);
            r.Ok? ==>
              && r.value.self == s.self && r.value.feed == s.feed
              && (r.value.surplusTarget == s.surplusTarget || setting == SurplusTarget(r.value.surplusTarget))
  {
  }

  /** No call moves the module or changes how it reads its oracle, and only governance changes the
      surplus target. */
  lemma WhoChangesWhat(s: Psm, op: Op, peg: Result<D256>, now: nat)
    ensures var t := After(s, op, peg, now);
            && t.feed == s.feed && t.self == s.self
            && (t.surplusTarget == s.surplusTarget || (op.Govern? && op.setting == SurplusTarget(t.surplusTarget)))
  {
    CallFrame(s, op, peg, now);
    match op
    case Govern(authorized, setting) => ChangeFrame(s, authorized, setting, now);
    case _ =>
  }

  // ---------- exact settlement ----------

  /** There is a price exactly when the oracle can be read and lies strictly between the bounds; a
      basis point is 10^14. */
  lemma TradePriceExactly(s: Psm, peg: Result<D256>)
    requires Bounded(s.range)
    ensures var read := ReadOracle(s.feed, peg);
            TradePrice(s, peg)
            == if read.Revert? then Revert(read.error)
               else if s.range.floor * 100_000_000_000_000 < read.value.value < s.range.ceiling * 100_000_000_000_000
               then read
               else Revert(PriceOutOfBounds)
  {
    RatioIsExact(s.range.floor);
    RatioIsExact(s.range.ceiling);
  }

  /** The payout of `out` VOLT: covered by held VOLT, or for the rest by the minter role and a
      rate-limit buffer that answers, as long as the supply stays within 256 bits. */
  predicate Covered(s: Psm, out: nat, now: nat)
    requires s.limiter.lastUsed <= now
  {
    var held := Get(s.volt.balances, s.self);
    out <= held
    || (s.isMinter && !TokenBucket.Overflows(s.limiter, now)
        && out - held <= TokenBucket.Level(s.limiter, now) && s.volt.supply + (out - held) < U256)
  }

  lemma MintVoltSettlesExactly(s: Psm, to: Address, amount: nat, now: nat)
    requires TokenBucket.Valid(s.limiter, now) && !s.limiter.partialAction && Conserved(s.volt) && amount > 0
    ensures MintVolt(s, to, amount, now).Ok? <==>
              && to != ZERO && s.isMinter && !TokenBucket.Overflows(s.limiter, now)
              && amount <= TokenBucket.Level(s.limiter, now) && s.volt.supply + amount < U256
  {
    TokenBucket.BufferIsLevel(s.limiter, now);
    MintSucceeds(s.volt, to, amount);
  }

  lemma PayOutSettlesExactly(s: Psm, to: Address, out: nat, now: nat)
    requires Inv(s, now)
    ensures PayOutVolt(s, to, out, now).Ok? <==> (out == 0 || to != ZERO) && Covered(s, out, now)
  {
    var fromHeld := Min(Get(s.volt.balances, s.self), out);
    TransferSucceeds(s.volt, s.self, to, fromHeld);
    var volt := if fromHeld != 0 then TransferToken(s.volt, s.self, to, fromHeld) else Ok(s.volt);
    if volt.Ok? && out != fromHeld {
      if fromHeld != 0 {
        TransferEffect(s.volt, s.self, to, fromHeld);
      }
      MintVoltSettlesExactly(s.(volt := volt.value), to, out - fromHeld, now);
    }
  }

  /** A mint succeeds exactly when minting is not paused, there is a price, the amount out can be
      computed and is not below the minimum, the caller pays, there is somebody to pay out to, and
      the payout is covered. */
  lemma MintSettlesExactly(
      s: Psm, sender: Address, to: Address, amountIn: nat, minOut: nat, peg: Result<D256>, now: nat)
    requires Inv(s, now)
    ensures var price := TradePrice(s, peg);
            var r := MintTrade(s, sender, to, amountIn, minOut, peg, now);
            && (r.Ok? <==>
                && !s.paused && !s.mintPaused && price.Ok?
                && var out := MintAmountOut(price.value, s.mintFee, amountIn);
                && out.Ok? && minOut <= out.value
                && sender != ZERO && amountIn <= Get(s.underlying.balances, sender)
                && (out.value == 0 || to != ZERO)
                && Covered(s, out.value, now))
            && (r.Ok? ==>
                && MintAmountOut(price.value, s.mintFee, amountIn) == Ok(r.value.amountOut)
                && minOut <= r.value.amountOut)
  {
    var quote := MintQuote(s, amountIn, minOut, peg);
    TransferSucceeds(s.underlying, sender, s.self, amountIn);
    var received := TransferToken(s.underlying, sender, s.self, amountIn);
    if quote.Ok? && received.Ok? {
      TransferEffect(s.underlying, sender, s.self, amountIn);
      PayOutSettlesExactly(s.(underlying := received.value), to, quote.value, now);
    }
  }

  lemma QuoteFitsWord(price: D256, fee: nat, amountIn: nat)
    ensures var out := MintAmountOut(price, fee, amountIn); out.Ok? ==> out.value < U256
  {
    MintQuotesExactly(price, fee, amountIn);
    if fee <= GRANULARITY {
      FloorAntitone(price.value * amountIn * (GRANULARITY - fee), 1, GRANULARITY * BASE);
    }
  }

  /** Minting is open, and `out` is what it pays for `amountIn`, not below the minimum. */
  predicate Offered(s: Psm, amountIn: nat, minOut: nat, out: nat, peg: Result<D256>) {
    && !s.paused && !s.mintPaused && TradePrice(s, peg).Ok?
    && MintAmountOut(TradePrice(s, peg).value, s.mintFee, amountIn) == Ok(out)
    && minOut <= out
  }

  /** What `getMaxMintAmountOut` tells a caller who has the funds. When it answers, it is held VOLT
      plus buffer, and exactly the offered amounts up to the answer settle, given the minter role
      and room in the supply. It fails in exactly two cases: if the buffer overflows, exactly the
      offered amounts that held VOLT covers settle; if only its sum with the held VOLT overflows,
      every offered amount settles, given role and room. */
  lemma MaxMintIsTheLimit(
      s: Psm, sender: Address, to: Address, amountIn: nat, minOut: nat, out: nat, peg: Result<D256>, now: nat)
    requires Inv(s, now)
    requires sender != ZERO && to != ZERO && amountIn <= Get(s.underlying.balances, sender)
    ensures var held := Get(s.volt.balances, s.self);
            var overflows := TokenBucket.Overflows(s.limiter, now);
            var level := TokenBucket.Level(s.limiter, now);
            var most := MaxMintAmountOut(s, now);
            var settles := MintTrade(s, sender, to, amountIn, minOut, peg, now).Ok?;
            var mayMint := s.isMinter && s.volt.supply + out < U256 + held;
            && most == (if !overflows && held + level < U256 then Ok(held + level) else Revert(Panic))
            && (Offered(s, amountIn, minOut, out, peg) ==>
                && (most.Ok? && mayMint ==> (settles <==> out <= most.value))
                && (overflows ==> (settles <==> out <= held))
                && (!overflows && held + level >= U256 && mayMint ==> settles))
  {
    TokenBucket.BufferIsLevel(s.limiter, now);
    if Offered(s, amountIn, minOut, out, peg) {
      QuoteFitsWord(TradePrice(s, peg).value, s.mintFee, amountIn);
      MintSettlesExactly(s, sender, to, amountIn, minOut, peg, now);
    }
  }

  /** The failing case is real: one second after a deployment with the largest cap the limiter has
      overflowed and `getMaxMintAmountOut` reverts, but a mint of one unit out of held VOLT settles. */
  lemma HeldVoltSettlesWithoutBuffer()
    ensures var q := Parameters(1, Feed(false, 0), 0, 0, 1, 4, 9_000, 11_000, 1, U256 - 1, true);
            var volt, underlying := Token(1, map[1 := 1]), Token(1, map[2 := 1]);
            && Conserved(volt) && Conserved(underlying)
            && Deploy(q, volt, underlying, 0).Ok?
            && var s := Deploy(q, volt, underlying, 0).value;
            && MaxMintAmountOut(s, 1) == Revert(Panic)
            && MintTrade(s, 2, 3, 1, 1, Ok(One()), 1).Ok?
  {
    var q := Parameters(1, Feed(false, 0), 0, 0, 1, 4, 9_000, 11_000, 1, U256 - 1, true);
    var volt, underlying := Token(1, map[1 := 1]), Token(1, map[2 := 1]);
    SumUpdate(map[], 1, 1);
    SumUpdate(map[], 2, 1);
    assert map[][1 := 1] == map[1 := 1] && map[][2 := 1] == map[2 := 1];
    InitialRangeIsBounded(9_000, 11_000);
    RatioIsExact(9_000);
    RatioIsExact(11_000);
    var s := Deploy(q, volt, underlying, 0).value;
    assert Inv(s, 1);
    assert Pow10(0) == 1;
    assert ReadOracle(s.feed, Ok(One())) == Ok(One());
    assert MintQuote(s, 1, 1, Ok(One())) == Ok(1);
    MintSettlesExactly(s, 2, 3, 1, 1, Ok(One()), 1);
    TokenBucket.BufferIsLevel(s.limiter, 1);
  }

  /** Payment for a mint of `out` VOLT: the recipient gets exactly that, the module gives up its own
      VOLT first, only the remainder uses up the buffer, and the caller's tokens come in. */
  ghost predicate MintPaid(s: Psm, t: Psm, sender: Address, to: Address, amountIn: nat, out: nat, now: nat) {
    var held := Get(s.volt.balances, s.self);
    var fromHeld := Min(held, out);
    && Get(t.volt.balances, to) == Get(s.volt.balances, to) + out - (if to == s.self then fromHeld else 0)
    && Get(t.volt.balances, s.self) == held - fromHeld + (if to == s.self then out else 0)
    && s.limiter.lastUsed <= now && t.limiter.lastUsed <= now
    && TokenBucket.Level(t.limiter, now) + (out - fromHeld) == TokenBucket.Level(s.limiter, now)
    && Get(t.underlying.balances, s.self)
       == Get(s.underlying.balances, s.self) + (if sender == s.self then 0 else amountIn)
  }

  lemma MintEffectsPay(s: Psm, t: Psm, sender: Address, to: Address, amountIn: nat, out: nat, now: nat)
    requires Inv(s, now) && MintEffects(s, t, sender, to, amountIn, out, now)
    ensures MintPaid(s, t, sender, to, amountIn, out, now)
  {
    PaidLevel(s.limiter, t.limiter, out - Min(Get(s.volt.balances, s.self), out), now);
  }

  /** Every settled mint is paid exactly. */
  lemma MintPaysExactly(s: Psm, sender: Address, to: Address, amountIn: nat, minOut: nat, peg: Result<D256>, now: nat)
    requires Inv(s, now)
    ensures var r := MintTrade(s, sender, to, amountIn, minOut, peg, now);
            r.Ok? ==> MintPaid(s, r.value.psm, sender, to, amountIn, r.value.amountOut, now)
  {
    var r := MintTrade(s, sender, to, amountIn, minOut, peg, now);
    if r.Ok? {
      MintTradeEffect(s, sender, to, amountIn, minOut, peg, now);
      MintEffectsPay(s, r.value.psm, sender, to, amountIn, r.value.amountOut, now);
    }
  }

  /** A redemption succeeds exactly when redeeming is not paused, there is a price, the amount out
      can be computed and is not below the minimum, addresses are not zero, the caller has the VOLT
      and the module has the underlying tokens. */
  lemma RedeemSettlesExactly(
      s: Psm, sender: Address, to: Address, amountIn: nat, minOut: nat, peg: Result<D256>, now: nat)
    requires Inv(s, now)
    ensures var price := TradePrice(s, peg);
            var r := RedeemTrade(s, sender, to, amountIn, minOut, peg);
            && (r.Ok? <==>
                && !s.paused && !s.redeemPaused && price.Ok?
                && var out := RedeemAmountOut(price.value, s.redeemFee, amountIn);
                && out.Ok? && minOut <= out.value
                && sender != ZERO && to != ZERO
                && amountIn <= Get(s.volt.balances, sender) && out.value <= Get(s.underlying.balances, s.self))
            && (r.Ok? ==>
                && RedeemAmountOut(price.value, s.redeemFee, amountIn) == Ok(r.value.amountOut)
                && minOut <= r.value.amountOut)
  {
    var quote := RedeemQuote(s, amountIn, minOut, peg);
    if quote.Ok? {
      TransferSucceeds(s.volt, sender, s.self, amountIn);
      TransferSucceeds(s.underlying, s.self, to, quote.value);
    }
  }

  /** The reasons to refuse a trade, in their order: a pause, the price, the minimum. */
  lemma TradesRefused(s: Psm, sender: Address, to: Address, amountIn: nat, minOut: nat, peg: Result<D256>, now: nat)
    ensures var mint := MintTrade(s, sender, to, amountIn, minOut, peg, now);
            var redeem := RedeemTrade(s, sender, to, amountIn, minOut, peg);
            var price := TradePrice(s, peg);
            && (s.paused || s.mintPaused ==> mint == Revert(Paused))
            && (s.paused || s.redeemPaused ==> redeem == Revert(Paused))
            && (!s.paused && !s.mintPaused && price.Revert? ==> mint == Revert(price.error))
            && (!s.paused && !s.redeemPaused && price.Revert? ==> redeem == Revert(price.error))
            && (!s.paused && !s.mintPaused && price.Ok? ==>
                var out := MintAmountOut(price.value, s.mintFee, amountIn);
                out.Ok? && out.value < minOut ==> mint == Revert(NotEnoughOut))
            && (!s.paused && !s.redeemPaused && price.Ok? ==>
                var out := RedeemAmountOut(price.value, s.redeemFee, amountIn);
                out.Ok? && out.value < minOut ==> redeem == Revert(NotEnoughOut))
  {
  }

  /** Allocation succeeds exactly when there is a surplus of reserves that fits a signed word, and
      brings the reserves down to the threshold; depositing does the same but never minds a deficit. */
  lemma AllocationSettlesExactly(s: Psm, now: nat)
    requires Inv(s, now)
    ensures var held := Get(s.underlying.balances, s.self);
            var fits := held < INT256_LIMIT && s.reservesThreshold < INT256_LIMIT;
            && (AllocateSurplusStep(s).Ok? <==> fits && held > s.reservesThreshold)
            && (DepositStep(s).Ok? <==> fits)
            && (AllocateSurplusStep(s).Ok? ==> DepositStep(s) == AllocateSurplusStep(s))
            && (DepositStep(s).Ok? && s.surplusTarget != s.self ==>
                Get(DepositStep(s).value.underlying.balances, s.self) == Min(held, s.reservesThreshold))
  {
    var held := Get(s.underlying.balances, s.self);
    if held > s.reservesThreshold {
      TransferSucceeds(s.underlying, s.self, s.surplusTarget, held - s.reservesThreshold);
      if TransferToken(s.underlying, s.self, s.surplusTarget, held - s.reservesThreshold).Ok? {
        TransferEffect(s.underlying, s.self, s.surplusTarget, held - s.reservesThreshold);
      }
    }
  }

  // ---------- price bounds ----------

  /** Whatever the oracle says, a trade that does not revert is within the price bounds. */
  lemma TradesWithinBounds(s: Psm, sender: Address, to: Address, amountIn: nat, minOut: nat, peg: Result<D256>, now: nat)
    requires Bounded(s.range)
    ensures var r := MintTrade(s, sender, to, amountIn, minOut, peg, now);
            r.Ok? ==> r.value.amountOut * GRANULARITY <= amountIn * s.range.ceiling
    ensures var r := RedeemTrade(s, sender, to, amountIn, minOut, peg);
            r.Ok? ==> r.value.amountOut * s.range.floor <= amountIn * GRANULARITY
    ensures TradePrice(s, peg).Ok? ==> TradePrice(s, peg).value.value > 0
  {
    RatioIsExact(s.range.floor);
    RatioIsExact(s.range.ceiling);
    if TradePrice(s, peg).Ok? {
      var price := TradePrice(s, peg).value;
      if MintAmountOut(price, s.mintFee, amountIn).Ok? {
        MintBelowCeiling(price, s.mintFee, amountIn, s.range.ceiling);
      }
      if RedeemAmountOut(price, s.redeemFee, amountIn).Ok? {
        RedeemAboveFloor(price, s.redeemFee, amountIn, s.range.floor);
      }
    }
  }

  lemma MintBelowCeiling(price: D256, fee: nat, amountIn: nat, ceiling: nat)
    requires MintAmountOut(price, fee, amountIn).Ok?
    requires price.value < ceiling * (BASE / GRANULARITY)
    ensures MintAmountOut(price, fee, amountIn).value * GRANULARITY <= amountIn * ceiling
  {
    var out := MintAmountOut(price, fee, amountIn).value;
    var step := BASE / GRANULARITY;
    MintWithinPrice(price, fee, amountIn);
    MulLe(price.value, ceiling * step, amountIn);
    assert ceiling * step * amountIn == amountIn * ceiling * step;
    assert out * BASE == out * GRANULARITY * step;
  }

  lemma RedeemAboveFloor(price: D256, fee: nat, amountIn: nat, floor: nat)
    requires RedeemAmountOut(price, fee, amountIn).Ok?
    requires floor * (BASE / GRANULARITY) < price.value
    ensures RedeemAmountOut(price, fee, amountIn).value * floor <= amountIn * GRANULARITY
  {
    var out := RedeemAmountOut(price, fee, amountIn).value;
    var step := BASE / GRANULARITY;
    RedeemWithinPrice(price, fee, amountIn);
    MulLe(floor * step, price.value, out);
    assert out * (floor * step) == out * floor * step;
    assert amountIn * BASE == amountIn * GRANULARITY * step;
  }

  // ---------- reachable states ----------

  lemma {:induction false} RunKeepsInv(s: Psm, calls: seq<Call>, from: nat)
    requires Inv(s, from) && InOrder(calls, from)
    ensures Inv(Run(s, calls), LastTime(calls, from))
    decreases |calls|
  {
    if calls != [] {
      var c := calls[0];
      StepKeepsInv(s, c.op, c.peg, c.time);
      RunKeepsInv(AfterCall(s, c), calls[1..], c.time);
    }
  }

  lemma DeployInv(q: Parameters, volt: Token, underlying: Token, now: nat)
    requires q.self != ZERO && Conserved(volt) && Conserved(underlying)
    requires Deploy(q, volt, underlying, now).Ok?
    ensures Inv(Deploy(q, volt, underlying, now).value, now)
  {
    InitialRangeIsBounded(q.floor, q.ceiling);
  }

  /** In every state a deployed module can reach, the bounds are ordered, the fees are within the
      maximum, and any trade that does not revert is within the bounds and at a price above zero. */
  lemma ReachableTradesWithinBounds(
      q: Parameters, volt: Token, underlying: Token, start: nat, calls: seq<Call>,
      sender: Address, to: Address, amountIn: nat, minOut: nat, peg: Result<D256>, now: nat)
    requires q.self != ZERO && Conserved(volt) && Conserved(underlying) && InOrder(calls, start)
    requires Deploy(q, volt, underlying, start).Ok?
    ensures var s := Run(Deploy(q, volt, underlying, start).value, calls);
            var mint := MintTrade(s, sender, to, amountIn, minOut, peg, now);
            var redeem := RedeemTrade(s, sender, to, amountIn, minOut, peg);
            && 0 < s.range.floor < s.range.ceiling
            && s.mintFee <= MAX_FEE && s.redeemFee <= MAX_FEE
            && (mint.Ok? ==> mint.value.amountOut * GRANULARITY <= amountIn * s.range.ceiling)
            && (redeem.Ok? ==> redeem.value.amountOut * s.range.floor <= amountIn * GRANULARITY)
            && (mint.Ok? || redeem.Ok? ==> TradePrice(s, peg).Ok? && TradePrice(s, peg).value.value > 0)
  {
    DeployInv(q, volt, underlying, start);
    var d := Deploy(q, volt, underlying, start).value;
    RunKeepsInv(d, calls, start);
    TradesWithinBounds(Run(d, calls), sender, to, amountIn, minOut, peg, now);
  }
}
