/** What the module owns and creates over whole runs: solvency, and the rate limit on new VOLT. */
module PsmSolvency {
  import opened Evm
  import opened Ledger
  import opened Floors
  import opened Decimal
  import opened OracleRef
  import opened PsmQuotes
  import opened Token
  import opened PsmSpec
  import opened PsmSafety
  import TokenBucket

  // ---------- the value of one call ----------

  /** What an account owns, in VOLT, at price `p`. */
  function Wealth(s: Psm, who: Address, p: nat): nat {
    p * Get(s.underlying.balances, who) + BASE * Get(s.volt.balances, who)
  }

  /** The module itself makes no calls and burns nothing. */
  predicate FromOutside(op: Op, self: Address) {
    match op
    case Mint(sender, _, _, _) => sender != self
    case Redeem(sender, _, _, _) => sender != self
    case Move(PayVolt(src, _, _)) => src != self
    case Move(PayUnderlying(src, _, _)) => src != self
    case Move(BurnVolt(src, _)) => src != self
    case _ => true
  }

  /** Trades read price `p`, if they can read a price at all. */
  predicate Reads(f: Feed, peg: Result<D256>, p: nat) {
    ReadOracle(f, peg).Ok? ==> ReadOracle(f, peg).value == D256(p)
  }

  lemma WealthMoves(s: Psm, t: Psm, who: Address, p: nat, underlying: int, volt: int)
    requires Get(t.underlying.balances, who) == Get(s.underlying.balances, who) + underlying
    requires Get(t.volt.balances, who) == Get(s.volt.balances, who) + volt
    ensures Wealth(t, who, p) == Wealth(s, who, p) + p * underlying + BASE * volt
  {
    MulAdd(p, Get(s.underlying.balances, who), underlying);
  }

  /** A change of the price revalues the underlying tokens, and nothing else. */
  lemma Repriced(s: Psm, who: Address, p: nat, q: nat)
    ensures Wealth(s, who, q) == Wealth(s, who, p) + (q - p) * Get(s.underlying.balances, who)
  {
    var held := Get(s.underlying.balances, who);
    MulCommutes(q - p, held);
    MulCommutes(p, held);
    MulCommutes(q, held);
    MulAdd(held, p, q - p);
  }

  /** What the module owns, together with what it allocates in this call, grows at least by the
      worth of the VOLT it creates. */
  ghost predicate ValueKept(s: Psm, op: Op, peg: Result<D256>, now: nat, p: nat) {
    Wealth(s, s.self, p) + BASE * NewVolt(s, op, peg, now)
    <= Wealth(After(s, op, peg, now), s.self, p) + p * Allocated(s, op)
  }

  lemma MintValue(s: Psm, op: Op, peg: Result<D256>, now: nat, p: nat)
    requires op.Mint? && op.sender != s.self && Reads(s.feed, peg, p) && !s.limiter.partialAction
    ensures Wealth(s, s.self, p) + BASE * NewVolt(s, op, peg, now) <= Wealth(After(s, op, peg, now), s.self, p)
  {
    var r := MintTrade(s, op.sender, op.to, op.amountIn, op.minAmountOut, peg, now);
    if r.Ok? {
      MintTradeEffect(s, op.sender, op.to, op.amountIn, op.minAmountOut, peg, now);
      MintWithinPrice(D256(p), s.mintFee, op.amountIn);
      var fromHeld := Min(Get(s.volt.balances, s.self), r.value.amountOut);
      WealthMoves(s, r.value.psm, s.self, p, op.amountIn,
                  (if op.to == s.self then r.value.amountOut else 0) - fromHeld);
    }
  }

  lemma RedeemValue(s: Psm, op: Op, peg: Result<D256>, now: nat, p: nat)
    requires op.Redeem? && op.sender != s.self && Reads(s.feed, peg, p)
    ensures Wealth(s, s.self, p) <= Wealth(After(s, op, peg, now), s.self, p)
  {
    var r := RedeemTrade(s, op.sender, op.to, op.amountIn, op.minAmountOut, peg);
    if r.Ok? {
      RedeemTradeEffect(s, op.sender, op.to, op.amountIn, op.minAmountOut, peg);
      RedeemWithinPrice(D256(p), s.redeemFee, op.amountIn);
      var paid := if op.to == s.self then 0 else r.value.amountOut;
      MulCommutes(p, r.value.amountOut);
      WealthMoves(r.value.psm, s, s.self, p, paid, -(op.amountIn as int));
    }
  }

  lemma MovementValue(s: Psm, op: Op, peg: Result<D256>, now: nat, p: nat)
    requires op.Move? && FromOutside(op, s.self)
    ensures ValueKept(s, op, peg, now, p)
  {
    MulLe(0, Allocated(s, op), p);
    var m := op.movement;
    if MoveTokens(s, m).Ok? {
      MovementEffect(s, m);
      WealthMoves(s, MoveTokens(s, m).value, s.self, p, UnderlyingMoved(s, m, s.self), VoltMoved(m, s.self));
      MulAtLeast(p, UnderlyingMoved(s, m, s.self), Allocated(s, op));
    }
  }

  lemma MintKeepsValue(s: Psm, op: Op, peg: Result<D256>, now: nat, p: nat)
    requires op.Mint? && op.sender != s.self && Reads(s.feed, peg, p) && !s.limiter.partialAction
    ensures ValueKept(s, op, peg, now, p)
  {
    MulLe(0, Allocated(s, op), p);
    MintValue(s, op, peg, now, p);
  }

  lemma RedeemKeepsValue(s: Psm, op: Op, peg: Result<D256>, now: nat, p: nat)
    requires op.Redeem? && op.sender != s.self && Reads(s.feed, peg, p)
    ensures ValueKept(s, op, peg, now, p)
  {
    MulLe(0, Allocated(s, op), p);
    RedeemValue(s, op, peg, now, p);
  }

  lemma ChangeValue(s: Psm, op: Op, peg: Result<D256>, now: nat, p: nat)
    requires op.Govern?
    ensures ValueKept(s, op, peg, now, p)
  {
    ChangeMovesNothing(s, op.authorized, op.setting, now);
  }

  lemma ChangeMovesNothing(s: Psm, authorized: bool, setting: Setting, now: nat)
    ensures var r := ChangeSetting(s, authorized, setting, now);
            r.Ok? ==> r.value.volt == s.volt && r.value.underlying == s.underlying
  {
  }

  lemma StepValue(s: Psm, op: Op, peg: Result<D256>, now: nat, p: nat)
    requires Inv(s, now) && Reads(s.feed, peg, p) && FromOutside(op, s.self)
    ensures ValueKept(s, op, peg, now, p)
  {
    match op
    case Mint(_, _, _, _) => MintKeepsValue(s, op, peg, now, p);
    case Redeem(_, _, _, _) => RedeemKeepsValue(s, op, peg, now, p);
    case Govern(_, _) => ChangeValue(s, op, peg, now, p);
    case Move(_) => MovementValue(s, op, peg, now, p);
  }

  /** A mint raises the supply by exactly the new VOLT, and pays for exactly that out of the buffer. */
  lemma NewVoltEffect(s: Psm, op: Op, peg: Result<D256>, now: nat)
    requires op.Mint? && !s.limiter.partialAction
    ensures var t := After(s, op, peg, now);
            && t.volt.supply == s.volt.supply + NewVolt(s, op, peg, now)
            && PaidFromLimit(s.limiter, t.limiter, NewVolt(s, op, peg, now), now)
  {
    if MintTrade(s, op.sender, op.to, op.amountIn, op.minAmountOut, peg, now).Ok? {
      MintTradeEffect(s, op.sender, op.to, op.amountIn, op.minAmountOut, peg, now);
    }
  }

  lemma MovementSupply(s: Psm, m: Movement)
    requires MoveTokens(s, m).Ok?
    ensures var t := MoveTokens(s, m).value;
            && t.limiter == s.limiter
            && t.volt.supply == s.volt.supply + (if m.MintElsewhere? then m.amount else 0)
                                              - (if m.BurnVolt? then m.amount else 0)
  {
    match m
    case MintElsewhere(_, dst, amount) => MintEffect(s.volt, dst, amount);
    case BurnVolt(src, amount) => BurnEffect(s.volt, src, amount);
    case _ =>
  }

  lemma RedeemSupply(s: Psm, op: Op, peg: Result<D256>, now: nat)
    requires op.Redeem?
    ensures var t := After(s, op, peg, now); t.limiter == s.limiter && t.volt.supply == s.volt.supply
  {
    if RedeemTrade(s, op.sender, op.to, op.amountIn, op.minAmountOut, peg).Ok? {
      RedeemTradeEffect(s, op.sender, op.to, op.amountIn, op.minAmountOut, peg);
    }
  }

  /** A call changes the supply by what the module creates, what others mint, and what is burned. */
  lemma SupplyAccounts(s: Psm, op: Op, peg: Result<D256>, now: nat)
    requires Inv(s, now)
    ensures Step(s, op, peg, now).Ok? ==>
              After(s, op, peg, now).volt.supply == s.volt.supply + NewVolt(s, op, peg, now)
                + (if op.Move? && op.movement.MintElsewhere? then op.movement.amount else 0)
                - (if op.Move? && op.movement.BurnVolt? then op.movement.amount else 0)
  {
    match op
    case Mint(_, _, _, _) => NewVoltEffect(s, op, peg, now);
    case Redeem(_, _, _, _) => RedeemSupply(s, op, peg, now);
    case Govern(authorized, setting) => ChangeMovesNothing(s, authorized, setting, now);
    case Move(m) =>
      if MoveTokens(s, m).Ok? {
        MovementSupply(s, m);
      }
  }

  // ---------- solvency over runs ----------

  /** The price a call reads; a failed reading leaves the last price standing. */
  function PriceRead(f: Feed, c: Call, last: nat): nat {
    if ReadOracle(f, c.peg).Ok? then ReadOracle(f, c.peg).value.value else last
  }

  function LastPrice(f: Feed, calls: seq<Call>, last: nat): nat
    decreases |calls|
  {
    if calls == [] then last else LastPrice(f, calls[1..], PriceRead(f, calls[0], last))
  }

  function Reserves(s: Psm): nat {
    Get(s.underlying.balances, s.self)
  }

  /** What the reserves gain, or lose, by every change of the price on the way. */
  function Revaluation(s: Psm, calls: seq<Call>, last: nat): int
    decreases |calls|
  {
    if calls == [] then 0
    else
      var q := PriceRead(s.feed, calls[0], last);
      (q - last) * Reserves(s) + Revaluation(AfterCall(s, calls[0]), calls[1..], q)
  }

  function Worth(price: nat, amount: nat): nat {
    price * amount
  }

  /** The reserves that were allocated, each at the price of its day. */
  function AllocatedWorth(s: Psm, calls: seq<Call>, last: nat): nat
    decreases |calls|
  {
    if calls == [] then 0
    else
      var q := PriceRead(s.feed, calls[0], last);
      Worth(q, Allocated(s, calls[0].op)) + AllocatedWorth(AfterCall(s, calls[0]), calls[1..], q)
  }

  ghost predicate AllFromOutside(calls: seq<Call>, self: Address) {
    forall c :: c in calls ==> FromOutside(c.op, self)
  }

  lemma CallValue(s: Psm, c: Call, p: nat)
    requires Inv(s, c.time) && FromOutside(c.op, s.self)
    ensures var t := AfterCall(s, c);
            var q := PriceRead(s.feed, c, p);
            && Inv(t, c.time) && t.feed == s.feed && t.self == s.self
            && Wealth(s, s.self, p) + (q - p) * Reserves(s) + BASE * NewVolt(s, c.op, c.peg, c.time)
               <= Wealth(t, s.self, q) + Worth(q, Allocated(s, c.op))
  {
    var q := PriceRead(s.feed, c, p);
    Repriced(s, s.self, p, q);
    StepValue(s, c.op, c.peg, c.time, q);
    WhoChangesWhat(s, c.op, c.peg, c.time);
    StepKeepsInv(s, c.op, c.peg, c.time);
  }

  /** Solvency over any run from outside, whatever the prices do: what the module owns at the end,
      together with the reserves it allocated, is worth at least what it owned at the start, plus
      what the moving price made of its reserves, plus all the VOLT it created. The price alone can
      lower it: no trade, payment, mint or burn elsewhere, and no governance of fees, bounds,
      reserves or the rate limit does. */
  lemma {:induction false} SolventOverRuns(s: Psm, calls: seq<Call>, now: nat, p: nat)
    requires Inv(s, now) && InOrder(calls, now) && AllFromOutside(calls, s.self)
    ensures Wealth(s, s.self, p) + Revaluation(s, calls, p) + BASE * TotalNewVolt(s, calls)
         <= Wealth(Run(s, calls), s.self, LastPrice(s.feed, calls, p)) + AllocatedWorth(s, calls, p)
    decreases |calls|
  {
    if calls != [] {
      CallValue(s, calls[0], p);
      SolventOverRuns(AfterCall(s, calls[0]), calls[1..], calls[0].time, PriceRead(s.feed, calls[0], p));
    }
  }

  // ---------- rising and falling prices ----------

  ghost predicate Rising(f: Feed, calls: seq<Call>, last: nat)
    decreases |calls|
  {
    calls != [] ==>
      last <= PriceRead(f, calls[0], last) && Rising(f, calls[1..], PriceRead(f, calls[0], last))
  }

  ghost predicate Falling(f: Feed, calls: seq<Call>, last: nat)
    decreases |calls|
  {
    calls != [] ==>
      PriceRead(f, calls[0], last) <= last && Falling(f, calls[1..], PriceRead(f, calls[0], last))
  }

  /** The module never holds more than `most` underlying tokens when a call reads the price. */
  ghost predicate ReservesWithin(s: Psm, calls: seq<Call>, most: nat)
    decreases |calls|
  {
    calls != [] ==> Reserves(s) <= most && ReservesWithin(AfterCall(s, calls[0]), calls[1..], most)
  }

  /** A rising price only gains. */
  lemma {:induction false} RisingPricesGain(s: Psm, calls: seq<Call>, p: nat)
    requires Rising(s.feed, calls, p)
    ensures p <= LastPrice(s.feed, calls, p) && 0 <= Revaluation(s, calls, p)
    decreases |calls|
  {
    if calls != [] {
      var c := calls[0];
      var mid := PriceRead(s.feed, c, p);
      WhoChangesWhat(s, c.op, c.peg, c.time);
      RisingPricesGain(AfterCall(s, c), calls[1..], mid);
      MulLe(0, Reserves(s), mid - p);
    }
  }

  /** A falling price loses at most the whole fall on the largest reserves held on the way. */
  lemma {:induction false} FallingPricesLose(s: Psm, calls: seq<Call>, p: nat, most: nat)
    requires Falling(s.feed, calls, p) && ReservesWithin(s, calls, most)
    ensures var q := LastPrice(s.feed, calls, p);
            && q <= p
            && -((p - q) * most) <= Revaluation(s, calls, p) <= 0
    decreases |calls|
  {
    if calls != [] {
      var c := calls[0];
      var mid := PriceRead(s.feed, c, p);
      WhoChangesWhat(s, c.op, c.peg, c.time);
      FallingPricesLose(AfterCall(s, c), calls[1..], mid, most);
      LossOfOneFall(p, mid, LastPrice(s.feed, calls, p), Reserves(s), most);
    }
  }

  lemma LossOfOneFall(p: nat, mid: nat, q: nat, held: nat, most: nat)
    requires q <= mid <= p && held <= most
    ensures -((p - mid) * most) <= (mid - p) * held <= 0
    ensures (p - q) * most == (p - mid) * most + (mid - q) * most
  {
    MulLe(held, most, p - mid);
    MulLe(0, p - mid, held);
    MulAdd(held, p - mid, mid - p);
    MulCommutes(held, p - mid);
    MulCommutes(held, mid - p);
    MulAdd(most, p - mid, mid - q);
    MulCommutes(most, p - mid);
    MulCommutes(most, mid - q);
    MulCommutes(most, p - q);
  }

  /** At a price that stays or rises the module is solvent without any allowance for the price. */
  lemma SolventAtRisingPrices(s: Psm, calls: seq<Call>, now: nat, p: nat)
    requires Inv(s, now) && InOrder(calls, now) && AllFromOutside(calls, s.self) && Rising(s.feed, calls, p)
    ensures var q := LastPrice(s.feed, calls, p);
            Wealth(s, s.self, p) + BASE * TotalNewVolt(s, calls)
            <= Wealth(Run(s, calls), s.self, q) + AllocatedWorth(s, calls, p)
  {
    SolventOverRuns(s, calls, now, p);
    RisingPricesGain(s, calls, p);
  }

  /** At a price that stays or falls the module loses at most the fall of the price on its largest
      reserves. */
  lemma SolventAtFallingPrices(s: Psm, calls: seq<Call>, now: nat, p: nat, most: nat)
    requires Inv(s, now) && InOrder(calls, now) && AllFromOutside(calls, s.self)
    requires Falling(s.feed, calls, p) && ReservesWithin(s, calls, most)
    ensures var q := LastPrice(s.feed, calls, p);
            && q <= p
            && Wealth(s, s.self, p) + BASE * TotalNewVolt(s, calls)
               <= Wealth(Run(s, calls), s.self, q) + AllocatedWorth(s, calls, p) + (p - q) * most
  {
    SolventOverRuns(s, calls, now, p);
    FallingPricesLose(s, calls, p, most);
  }

  // ---------- the rate limit on new VOLT ----------

  /** The calls to the rate limiter that a call to the module makes. */
  function LimiterCalls(s: Psm, c: Call): seq<TokenBucket.Timed> {
    match c.op
    case Mint(_, _, _, _) =>
      var amount := NewVolt(s, c.op, c.peg, c.time);
      if amount == 0 then [] else [TokenBucket.At(c.time, TokenBucket.Deplete(amount))]
    case Govern(authorized, RateLimit(rate)) => [TokenBucket.At(c.time, TokenBucket.SetRate(authorized, rate))]
    case Govern(authorized, BufferCap(cap)) => [TokenBucket.At(c.time, TokenBucket.SetCap(authorized, cap))]
    case _ => []
  }

  function AllLimiterCalls(s: Psm, calls: seq<Call>): seq<TokenBucket.Timed>
    decreases |calls|
  {
    if calls == [] then [] else LimiterCalls(s, calls[0]) + AllLimiterCalls(AfterCall(s, calls[0]), calls[1..])
  }

  /** One call uses exactly the new VOLT of the buffer. */
  lemma LimiterFollows(s: Psm, c: Call)
    requires Inv(s, c.time)
    ensures var l := LimiterCalls(s, c);
            if l == [] then
              AfterCall(s, c).limiter == s.limiter && NewVolt(s, c.op, c.peg, c.time) == 0
            else
              && |l| == 1 && l[0].time == c.time && !l[0].action.Replenish?
              && AfterCall(s, c).limiter == TokenBucket.After(s.limiter, l[0])
              && NewVolt(s, c.op, c.peg, c.time)
                 == (if TokenBucket.Used(s.limiter, l[0]).Ok? then TokenBucket.Used(s.limiter, l[0]).value else 0)
  {
    match c.op
    case Mint(_, _, _, _) => NewVoltEffect(s, c.op, c.peg, c.time);
    case Redeem(_, _, _, _) => RedeemSupply(s, c.op, c.peg, c.time);
    case Govern(_, _) =>
    case Move(m) =>
      if MoveTokens(s, m).Ok? {
        MovementSupply(s, m);
      }
  }

  /** At most one limiter call, followed by the rest of a run. */
  lemma LimiterPrefix(
      b: TokenBucket.Bucket, l: seq<TokenBucket.Timed>, rest: seq<TokenBucket.Timed>, used: nat,
      from: nat, time: nat, to: nat)
    requires |l| <= 1 && from <= time && TokenBucket.Ordered(rest, time, to)
    requires l == [] ==> used == 0
    requires l != [] ==> l[0].time == time && !l[0].action.Replenish?
    requires l != [] ==> used == var r := TokenBucket.Used(b, l[0]); if r.Ok? then r.value else 0
    requires |TokenBucket.Results(TokenBucket.Run(b, l), rest)| == |rest|
    ensures var n := TokenBucket.Run(b, l);
            var results := TokenBucket.Results(b, l + rest);
            && TokenBucket.Ordered(l + rest, from, to)
            && TokenBucket.Run(b, l + rest) == TokenBucket.Run(n, rest)
            && TokenBucket.TotalUsed(results) == used + TokenBucket.TotalUsed(TokenBucket.Results(n, rest))
            && |results| == |l + rest|
            && TokenBucket.TotalReplenished(l + rest, results)
               == TokenBucket.TotalReplenished(rest, TokenBucket.Results(n, rest))
  {
    if l == [] {
      assert l + rest == rest;
    } else {
      assert l == [l[0]] && l[1..] == [] && (l + rest)[1..] == rest;
      TokenBucket.RunStartsWith(b, l[0], rest);
    }
  }

  /** Seen from its rate limiter, a run of the module is a run of the limiter, in which the
      amounts used are the amounts of VOLT created. */
  lemma {:induction false} ModuleRunIsLimiterRun(s: Psm, calls: seq<Call>, from: nat)
    requires Inv(s, from) && InOrder(calls, from)
    ensures var l := AllLimiterCalls(s, calls);
            var results := TokenBucket.Results(s.limiter, l);
            && TokenBucket.Ordered(l, from, LastTime(calls, from))
            && Run(s, calls).limiter == TokenBucket.Run(s.limiter, l)
            && TokenBucket.TotalUsed(results) == TotalNewVolt(s, calls)
            && |results| == |l| && TokenBucket.TotalReplenished(l, results) == 0
    decreases |calls|
  {
    if calls != [] {
      var c := calls[0];
      var t := AfterCall(s, c);
      LimiterFollows(s, c);
      StepKeepsInv(s, c.op, c.peg, c.time);
      ModuleRunIsLimiterRun(t, calls[1..], c.time);
      assert TokenBucket.Run(s.limiter, LimiterCalls(s, c)) == t.limiter;
      LimiterPrefix(s.limiter, LimiterCalls(s, c), AllLimiterCalls(t, calls[1..]),
                    NewVolt(s, c.op, c.peg, c.time), from, c.time, LastTime(calls, from));
    }
  }

  /** Over any run of the module, the VOLT it creates is at most the buffer it started with plus
      the maximum rate for every second, whatever is traded, minted elsewhere or burned, and
      however governance changes the rate limit. */
  lemma NewVoltIsRateLimited(s: Psm, calls: seq<Call>, from: nat)
    requires Inv(s, from) && InOrder(calls, from)
    ensures var end := Run(s, calls);
            var to := LastTime(calls, from);
            && from <= to && end.limiter.lastUsed <= to
            && TotalNewVolt(s, calls) + TokenBucket.Level(end.limiter, to)
               <= TokenBucket.Level(s.limiter, from) + s.limiter.maxRate * (to - from)
  {
    ModuleRunIsLimiterRun(s, calls, from);
    TokenBucket.RateLimitHolds(s.limiter, AllLimiterCalls(s, calls), from, LastTime(calls, from));
  }

  /** Governance sets no buffer cap above `c`. */
  ghost predicate CapsWithin(calls: seq<Call>, c: nat) {
    forall call :: call in calls && call.op.Govern? && call.op.setting.BufferCap? ==> call.op.setting.cap <= c
  }

  lemma {:induction false} LimiterCapsWithin(s: Psm, calls: seq<Call>, c: nat)
    requires CapsWithin(calls, c)
    ensures TokenBucket.CapsWithin(AllLimiterCalls(s, calls), c)
    decreases |calls|
  {
    if calls != [] {
      assert calls[0] in calls;
      LimiterCapsWithin(AfterCall(s, calls[0]), calls[1..], c);
    }
  }

  /** The buffer of a deployed module answers in every reachable state, as long as no cap exceeds
      some `c` that leaves room for 10000 VOLT per second since the deployment. */
  lemma ReachableBufferAnswers(
      q: Parameters, volt: Token, underlying: Token, start: nat, calls: seq<Call>, c: nat)
    requires q.self != ZERO && Conserved(volt) && Conserved(underlying) && InOrder(calls, start)
    requires Deploy(q, volt, underlying, start).Ok?
    requires q.cap <= c && CapsWithin(calls, c)
    requires c + MAX_FEI_LIMIT_PER_SECOND * (LastTime(calls, start) - start) < U256
    ensures var s := Run(Deploy(q, volt, underlying, start).value, calls);
            TokenBucket.Buffer(s.limiter, LastTime(calls, start)).Ok?
  {
    var d := Deploy(q, volt, underlying, start).value;
    var to := LastTime(calls, start);
    DeployInv(q, volt, underlying, start);
    ModuleRunIsLimiterRun(d, calls, start);
    LimiterCapsWithin(d, calls, c);
    TokenBucket.OrderedEnds(AllLimiterCalls(d, calls), start, to);
    TokenBucket.BoundedRunsNeverOverflow(d.limiter, AllLimiterCalls(d, calls), start, to, c);
    TokenBucket.BufferIsLevel(Run(d, calls).limiter, to);
  }
}
