/** The price-bounded peg stability module as functions on values: pricing guards, settlement
    and governance. */
module PsmSpec {
  import opened Evm
  import opened Ledger
  import opened Decimal
  import opened OracleRef
  import opened PsmQuotes
  import opened Token
  import TokenBucket

  const MAX_FEE: nat := 300

  /** Accepted prices, in basis points; both ends are excluded. */
  datatype PriceRange = PriceRange(floor: nat, ceiling: nat)

  datatype Psm = Psm(
    self: Address,
    mintFee: nat,
    redeemFee: nat,
    reservesThreshold: nat,
    surplusTarget: Address,
    paused: bool,
    mintPaused: bool,
    redeemPaused: bool,
    range: PriceRange,
    feed: Feed,
    limiter: TokenBucket.Bucket,
    isMinter: bool,
    volt: Token,
    underlying: Token)

  /** What governance can change. */
  datatype Setting =
    | MintFee(fee: nat)
    | RedeemFee(fee: nat)
    | ReservesThreshold(threshold: nat)
    | SurplusTarget(target: Address)
    | Floor(basisPoints: nat)
    | Ceiling(basisPoints: nat)
    | Pauses(all: bool, minting: bool, redeeming: bool)
    | RateLimit(rate: nat)
    | BufferCap(cap: nat)

  /** How tokens move outside of trades: surplus reserves leave the module, holders pay each
      other, other minters mint VOLT, and holders burn it. */
  datatype Movement =
    | AllocateSurplus
    | Deposit
    | PayVolt(src: Address, dst: Address, amount: nat)
    | PayUnderlying(src: Address, dst: Address, amount: nat)
    | MintElsewhere(authorized: bool, dst: Address, amount: nat)
    | BurnVolt(src: Address, amount: nat)

  datatype Op =
    | Mint(sender: Address, to: Address, amountIn: nat, minAmountOut: nat)
    | Redeem(sender: Address, to: Address, amountIn: nat, minAmountOut: nat)
    | Govern(authorized: bool, setting: Setting)
    | Move(movement: Movement)

  // ---------- price bounds ----------

  function SetCeilingBasisPoints(r: PriceRange, ceiling: nat): Result<PriceRange> {
    var _ :- Require(ceiling != 0, InvalidBound);
    var high :- Ratio(ceiling, GRANULARITY);
    var low :- Ratio(r.floor, GRANULARITY);
    var _ :- Require(GreaterThan(high, low), InvalidBound);
    Ok(r.(ceiling := ceiling))
  }

  function SetFloorBasisPoints(r: PriceRange, floor: nat): Result<PriceRange> {
    var _ :- Require(floor != 0, InvalidBound);
    var low :- Ratio(floor, GRANULARITY);
    var high :- Ratio(r.ceiling, GRANULARITY);
    var _ :- Require(LessThan(low, high), InvalidBound);
    Ok(r.(floor := floor))
  }

  /** The constructor sets the ceiling over a zero floor, and then the floor. */
  function InitialRange(floor: nat, ceiling: nat): Result<PriceRange> {
    var capped :- SetCeilingBasisPoints(PriceRange(0, 0), ceiling);
    SetFloorBasisPoints(capped, floor)
  }

  function ValidatePriceRange(r: PriceRange, price: D256): Result<()> {
    var low :- Ratio(r.floor, GRANULARITY);
    var _ :- Require(GreaterThan(price, low), PriceOutOfBounds);
    var high :- Ratio(r.ceiling, GRANULARITY);
    Require(LessThan(price, high), PriceOutOfBounds)
  }

  /** The price of a trade: read, inverted, scaled and within bounds. */
  function TradePrice(s: Psm, peg: Result<D256>): Result<D256> {
    var price :- ReadOracle(s.feed, peg);
    var _ :- ValidatePriceRange(s.range, price);
    Ok(price)
  }

  // ---------- trades ----------

  datatype Trade = Trade(psm: Psm, amountOut: nat)

  /** Mints the part of a payout that held VOLT does not cover, out of the rate limit. */
  function MintVolt(s: Psm, to: Address, amount: nat, now: nat): Result<Psm> {
    var depleted :- TokenBucket.DepleteBuffer(s.limiter, amount, now);
    if depleted.used == 0 then
      Ok(s.(limiter := depleted.bucket))
    else
      var _ :- Require(s.isMinter, NotMinter);
      var volt :- MintToken(s.volt, to, depleted.used);
      Ok(s.(limiter := depleted.bucket, volt := volt))
  }

  /** Pays out `amountOut` VOLT: what the module holds first, newly minted VOLT for the rest. */
  function PayOutVolt(s: Psm, to: Address, amountOut: nat, now: nat): Result<Psm> {
    var toTransfer := Min(Get(s.volt.balances, s.self), amountOut);
    var toMint := amountOut - toTransfer;
    var volt :- if toTransfer != 0 then TransferToken(s.volt, s.self, to, toTransfer) else Ok(s.volt);
    if toMint != 0 then MintVolt(s.(volt := volt), to, toMint, now) else Ok(s.(volt := volt))
  }

  /** The guards and the price of a mint, before any token moves. */
  function MintQuote(s: Psm, amountIn: nat, minAmountOut: nat, peg: Result<D256>): Result<nat> {
    var _ :- Require(!s.paused && !s.mintPaused, Paused);
    var price :- TradePrice(s, peg);
    var out :- MintAmountOut(price, s.mintFee, amountIn);
    var _ :- Require(out >= minAmountOut, NotEnoughOut);
    Ok(out)
  }

  function SettleMint(s: Psm, sender: Address, to: Address, amountIn: nat, out: nat, now: nat): Result<Psm> {
    var underlying :- TransferToken(s.underlying, sender, s.self, amountIn);
    PayOutVolt(s.(underlying := underlying), to, out, now)
  }

  function MintTrade(s: Psm, sender: Address, to: Address, amountIn: nat, minAmountOut: nat, peg: Result<D256>, now: nat)
    : Result<Trade>
  {
    var out :- MintQuote(s, amountIn, minAmountOut, peg);
    var settled :- SettleMint(s, sender, to, amountIn, out, now);
    Ok(Trade(settled, out))
  }

  /** The guards and the price of a redemption, before any token moves. */
  function RedeemQuote(s: Psm, amountIn: nat, minAmountOut: nat, peg: Result<D256>): Result<nat> {
    var _ :- Require(!s.paused && !s.redeemPaused, Paused);
    var price :- TradePrice(s, peg);
    var out :- RedeemAmountOut(price, s.redeemFee, amountIn);
    var _ :- Require(out >= minAmountOut, NotEnoughOut);
    Ok(out)
  }

  function SettleRedeem(s: Psm, sender: Address, to: Address, amountIn: nat, out: nat): Result<Psm> {
    var volt :- TransferToken(s.volt, sender, s.self, amountIn);
    var underlying :- TransferToken(s.underlying, s.self, to, out);
    Ok(s.(volt := volt, underlying := underlying))
  }

  function RedeemTrade(s: Psm, sender: Address, to: Address, amountIn: nat, minAmountOut: nat, peg: Result<D256>)
    : Result<Trade>
  {
    var out :- RedeemQuote(s, amountIn, minAmountOut, peg);
    var settled :- SettleRedeem(s, sender, to, amountIn, out);
    Ok(Trade(settled, out))
  }

  function MaxMintAmountOut(s: Psm, now: nat): Result<nat> {
    var buffer :- TokenBucket.Buffer(s.limiter, now);
    CheckedAdd(Get(s.volt.balances, s.self), buffer)
  }

  // ---------- surplus reserves ----------

  function ToInt256(n: nat): Result<int> {
    if n < INT256_LIMIT then Ok(n) else Revert(CastOverflow)
  }

  function ReservesSurplus(s: Psm): Result<int> {
    var held :- ToInt256(Get(s.underlying.balances, s.self));
    var threshold :- ToInt256(s.reservesThreshold);
    Ok(held - threshold)
  }

  function Allocate(s: Psm, amount: nat): Result<Psm> {
    var underlying :- TransferToken(s.underlying, s.self, s.surplusTarget, amount);
    Ok(s.(underlying := underlying))
  }

  /** Sends the surplus to the surplus target; anyone may call this. */
  function AllocateSurplusStep(s: Psm): Result<Psm> {
    var surplus :- ReservesSurplus(s);
    var _ :- Require(surplus > 0, NoSurplus);
    Allocate(s, surplus)
  }

  function DepositStep(s: Psm): Result<Psm> {
    var surplus :- ReservesSurplus(s);
    if surplus > 0 then Allocate(s, surplus) else Ok(s)
  }

  // ---------- all calls ----------

  function Traded(r: Result<Trade>): Result<Psm> {
    match r
    case Ok(t) => Ok(t.psm)
    case Revert(e) => Revert(e)
  }

  function ChangeSetting(s: Psm, authorized: bool, setting: Setting, now: nat): Result<Psm> {
    var _ :- Require(authorized, Unauthorized);
    match setting
    case MintFee(fee) =>
      var _ :- Require(fee <= MAX_FEE, FeeTooHigh);
      Ok(s.(mintFee := fee))
    case RedeemFee(fee) =>
      var _ :- Require(fee <= MAX_FEE, FeeTooHigh);
      Ok(s.(redeemFee := fee))
    case ReservesThreshold(threshold) =>
      var _ :- Require(threshold > 0, InvalidThreshold);
      Ok(s.(reservesThreshold := threshold))
    case SurplusTarget(target) =>
      var _ :- Require(target != ZERO, ZeroAddress);
      Ok(s.(surplusTarget := target))
    case Floor(basisPoints) =>
      var range :- SetFloorBasisPoints(s.range, basisPoints);
      Ok(s.(range := range))
    case Ceiling(basisPoints) =>
      var range :- SetCeilingBasisPoints(s.range, basisPoints);
      Ok(s.(range := range))
    case Pauses(all, minting, redeeming) =>
      Ok(s.(paused := all, mintPaused := minting, redeemPaused := redeeming))
    case RateLimit(rate) =>
      var limiter :- TokenBucket.SetRateLimit(s.limiter, authorized, rate, now);
      Ok(s.(limiter := limiter))
    case BufferCap(cap) =>
      var limiter :- TokenBucket.SetBufferCap(s.limiter, authorized, cap, now);
      Ok(s.(limiter := limiter))
  }

  function MoveTokens(s: Psm, movement: Movement): Result<Psm> {
    match movement
    case AllocateSurplus => AllocateSurplusStep(s)
    case Deposit => DepositStep(s)
    case PayVolt(src, dst, amount) =>
      var volt :- TransferToken(s.volt, src, dst, amount);
      Ok(s.(volt := volt))
    case PayUnderlying(src, dst, amount) =>
      var underlying :- TransferToken(s.underlying, src, dst, amount);
      Ok(s.(underlying := underlying))
    case MintElsewhere(authorized, dst, amount) =>
      var _ :- Require(authorized, NotMinter);
      var volt :- MintToken(s.volt, dst, amount);
      Ok(s.(volt := volt))
    case BurnVolt(src, amount) =>
      var volt :- BurnToken(s.volt, src, amount);
      Ok(s.(volt := volt))
  }

  function Step(s: Psm, op: Op, peg: Result<D256>, now: nat): Result<Psm> {
    match op
    case Mint(sender, to, amountIn, minAmountOut) => Traded(MintTrade(s, sender, to, amountIn, minAmountOut, peg, now))
    case Redeem(sender, to, amountIn, minAmountOut) => Traded(RedeemTrade(s, sender, to, amountIn, minAmountOut, peg))
    case Govern(authorized, setting) => ChangeSetting(s, authorized, setting, now)
    case Move(movement) => MoveTokens(s, movement)
  }

  /** A call that reverts has no effect. */
  function After(s: Psm, op: Op, peg: Result<D256>, now: nat): Psm {
    match Step(s, op, peg, now)
    case Ok(t) => t
    case Revert(_) => s
  }

  /** The VOLT that the module creates in a call. */
  function NewVolt(s: Psm, op: Op, peg: Result<D256>, now: nat): nat {
    match op
    case Mint(sender, to, amountIn, minAmountOut) =>
      (match MintTrade(s, sender, to, amountIn, minAmountOut, peg, now)
       case Ok(t) => t.amountOut - Min(Get(s.volt.balances, s.self), t.amountOut)
       case Revert(_) => 0)
    case _ => 0
  }

  /** The surplus that an allocation transfers. */
  function SurplusMoved(s: Psm, movement: Movement): nat {
    var surplus := Get(s.underlying.balances, s.self) - s.reservesThreshold;
    if (movement.AllocateSurplus? || movement.Deposit?) && surplus > 0 && DepositStep(s).Ok? then surplus else 0
  }

  /** The underlying tokens that leave the module for the surplus target; none do when the module
      is its own target. */
  function Allocated(s: Psm, op: Op): nat {
    if op.Move? && s.surplusTarget != s.self then SurplusMoved(s, op.movement) else 0
  }

  // ---------- deployment ----------

  const MAX_FEI_LIMIT_PER_SECOND: nat := 10_000 * BASE

  datatype Parameters = Parameters(
    self: Address,
    feed: Feed,
    mintFee: nat,
    redeemFee: nat,
    reservesThreshold: nat,
    surplusTarget: Address,
    floor: nat,
    ceiling: nat,
    rate: nat,
    cap: nat,
    isMinter: bool)

  /** A new module: a full rate-limit buffer, no partial mints, and checked parameters. */
  function Deploy(q: Parameters, volt: Token, underlying: Token, now: nat): Result<Psm> {
    var _ :- Require(q.rate <= MAX_FEI_LIMIT_PER_SECOND, RateTooHigh);
    var _ :- Require(q.reservesThreshold > 0, InvalidThreshold);
    var _ :- Require(q.mintFee <= MAX_FEE && q.redeemFee <= MAX_FEE, FeeTooHigh);
    var _ :- Require(q.surplusTarget != ZERO, ZeroAddress);
    var range :- InitialRange(q.floor, q.ceiling);
    Ok(Psm(q.self, q.mintFee, q.redeemFee, q.reservesThreshold, q.surplusTarget, false, false, false, range, q.feed,
           TokenBucket.Full(MAX_FEI_LIMIT_PER_SECOND, q.rate, q.cap, false, now), q.isMinter, volt, underlying))
  }

  // ---------- runs ----------

  /** A call at some time, with what the oracle answers then. */
  datatype Call = Call(op: Op, peg: Result<D256>, time: nat)

  function AfterCall(s: Psm, c: Call): Psm {
    After(s, c.op, c.peg, c.time)
  }

  function Run(s: Psm, calls: seq<Call>): Psm
    decreases |calls|
  {
    if calls == [] then s else Run(AfterCall(s, calls[0]), calls[1..])
  }

  ghost predicate InOrder(calls: seq<Call>, from: nat)
    decreases |calls|
  {
    calls != [] ==> from <= calls[0].time && InOrder(calls[1..], calls[0].time)
  }

  function LastTime(calls: seq<Call>, from: nat): nat {
    if calls == [] then from else calls[|calls| - 1].time
  }

  function TotalNewVolt(s: Psm, calls: seq<Call>): nat
    decreases |calls|
  {
    if calls == [] then 0
    else NewVolt(s, calls[0].op, calls[0].peg, calls[0].time) + TotalNewVolt(AfterCall(s, calls[0]), calls[1..])
  }
}
