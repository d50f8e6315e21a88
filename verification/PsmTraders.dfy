/** What trading with the module is worth to the traders, alone or in groups. */
module PsmTraders {
  import opened Evm
  import opened Ledger
  import opened Floors
  import opened Decimal
  import opened OracleRef
  import opened PsmQuotes
  import opened Token
  import opened PsmSpec
  import opened PsmSafety
  import opened PsmSolvency

  /** What the accounts of a group own together, in VOLT, at price `p`. */
  ghost function GroupWealth(s: Psm, group: set<Address>, p: nat): nat {
    p * SumOver(s.underlying.balances, group) + BASE * SumOver(s.volt.balances, group)
  }

  /** Nobody outside of the group hands tokens to a member. */
  predicate NoGift(op: Op, group: set<Address>) {
    match op
    case Mint(sender, to, _, _) => to in group ==> sender in group
    case Redeem(sender, to, _, _) => to in group ==> sender in group
    case Govern(_, SurplusTarget(target)) => target !in group
    case Move(PayVolt(src, dst, _)) => dst in group ==> src in group
    case Move(PayUnderlying(src, dst, _)) => dst in group ==> src in group
    case Move(MintElsewhere(_, dst, _)) => dst !in group
    case _ => true
  }

  lemma GroupOfOne(s: Psm, who: Address, p: nat)
    ensures GroupWealth(s, {who}, p) == Wealth(s, who, p)
  {
    SumOverSingle(s.underlying.balances, who);
    SumOverSingle(s.volt.balances, who);
  }

  lemma GroupAtHigherPrice(s: Psm, group: set<Address>, p: nat, q: nat)
    requires p <= q
    ensures GroupWealth(s, group, p) <= GroupWealth(s, group, q)
  {
    MulLe(p, q, SumOver(s.underlying.balances, group));
  }

  lemma GroupMoves(s: Psm, t: Psm, group: set<Address>, p: nat, underlying: int, volt: int)
    requires SumOver(t.underlying.balances, group) == SumOver(s.underlying.balances, group) + underlying
    requires SumOver(t.volt.balances, group) == SumOver(s.volt.balances, group) + volt
    ensures GroupWealth(t, group, p) == GroupWealth(s, group, p) + p * underlying + BASE * volt
  {
    MulAdd(p, SumOver(s.underlying.balances, group), underlying);
  }

  /** `amount` if `who` is a member, and nothing otherwise. */
  function Share(who: Address, group: set<Address>, amount: int): int {
    if who in group then amount else 0
  }

  lemma MintMoves(s: Psm, t: Psm, op: Op, out: nat, now: nat, group: set<Address>)
    requires op.Mint? && s.self !in group && MintEffects(s, t, op.sender, op.to, op.amountIn, out, now)
    ensures SumOver(t.underlying.balances, group)
         == SumOver(s.underlying.balances, group) + Share(op.sender, group, -(op.amountIn as int))
    ensures SumOver(t.volt.balances, group) == SumOver(s.volt.balances, group) + Share(op.to, group, out)
  {
    SumOverChanges(s.underlying.balances, t.underlying.balances, group, op.sender, -(op.amountIn as int), s.self, 0);
    SumOverChanges(s.volt.balances, t.volt.balances, group, op.to, out, s.self, 0);
  }

  lemma MintGains(s: Psm, op: Op, peg: Result<D256>, now: nat, p: nat, group: set<Address>)
    requires op.Mint? && Reads(s.feed, peg, p) && !s.limiter.partialAction
    requires s.self !in group && NoGift(op, group)
    ensures GroupWealth(After(s, op, peg, now), group, p) <= GroupWealth(s, group, p)
  {
    var r := MintTrade(s, op.sender, op.to, op.amountIn, op.minAmountOut, peg, now);
    if r.Ok? {
      var t, out := r.value.psm, r.value.amountOut;
      MintTradeEffect(s, op.sender, op.to, op.amountIn, op.minAmountOut, peg, now);
      MintWithinPrice(D256(p), s.mintFee, op.amountIn);
      MintMoves(s, t, op, out, now, group);
      GroupMoves(t, s, group, p, -Share(op.sender, group, -(op.amountIn as int)), -Share(op.to, group, out));
      MulLe(0, op.amountIn, p);
    }
  }

  lemma RedeemMoves(s: Psm, t: Psm, op: Op, out: nat, group: set<Address>)
    requires op.Redeem? && s.self !in group && RedeemEffects(s, t, op.sender, op.to, op.amountIn, out)
    ensures SumOver(t.volt.balances, group)
         == SumOver(s.volt.balances, group) + Share(op.sender, group, -(op.amountIn as int))
    ensures SumOver(t.underlying.balances, group)
         == SumOver(s.underlying.balances, group) + Share(op.to, group, out)
  {
    SumOverChanges(s.volt.balances, t.volt.balances, group, op.sender, -(op.amountIn as int), s.self, 0);
    SumOverChanges(s.underlying.balances, t.underlying.balances, group, op.to, out, s.self, 0);
  }

  lemma RedeemGains(s: Psm, op: Op, peg: Result<D256>, now: nat, p: nat, group: set<Address>)
    requires op.Redeem? && Reads(s.feed, peg, p)
    requires s.self !in group && NoGift(op, group)
    ensures GroupWealth(After(s, op, peg, now), group, p) <= GroupWealth(s, group, p)
  {
    var r := RedeemTrade(s, op.sender, op.to, op.amountIn, op.minAmountOut, peg);
    if r.Ok? {
      var t, out := r.value.psm, r.value.amountOut;
      RedeemTradeEffect(s, op.sender, op.to, op.amountIn, op.minAmountOut, peg);
      RedeemWithinPrice(D256(p), s.redeemFee, op.amountIn);
      RedeemMoves(s, t, op, out, group);
      GroupMoves(s, t, group, p, Share(op.to, group, out), Share(op.sender, group, -(op.amountIn as int)));
      MulCommutes(p, out);
    }
  }

  /** Outside of trades tokens reach a member from another member only. */
  lemma MovementMoves(s: Psm, t: Psm, m: Movement, group: set<Address>)
    requires TokensMoved(s, t, m) && NoGift(Move(m), group)
    requires s.self !in group && s.surplusTarget !in group
    ensures SumOver(t.volt.balances, group) <= SumOver(s.volt.balances, group)
    ensures SumOver(t.underlying.balances, group) <= SumOver(s.underlying.balances, group)
  {
    var u0, u1, v0, v1 := s.underlying.balances, t.underlying.balances, s.volt.balances, t.volt.balances;
    match m
    case PayVolt(src, dst, amount) =>
      SumOverChanges(v0, v1, group, dst, amount, src, -(amount as int));
      SumOverChanges(u0, u1, group, s.self, 0, s.self, 0);
    case PayUnderlying(src, dst, amount) =>
      SumOverChanges(u0, u1, group, dst, amount, src, -(amount as int));
      SumOverChanges(v0, v1, group, s.self, 0, s.self, 0);
    case BurnVolt(src, amount) =>
      SumOverChanges(v0, v1, group, src, -(amount as int), s.self, 0);
      SumOverChanges(u0, u1, group, s.self, 0, s.self, 0);
    case _ =>
      SumOverChanges(v0, v1, group, s.self, 0, s.self, 0);
      SumOverChanges(u0, u1, group, s.self, 0, s.self, 0);
  }

  lemma MovementGains(s: Psm, m: Movement, p: nat, group: set<Address>)
    requires MoveTokens(s, m).Ok? && NoGift(Move(m), group)
    requires s.self !in group && s.surplusTarget !in group
    ensures GroupWealth(MoveTokens(s, m).value, group, p) <= GroupWealth(s, group, p)
  {
    var t := MoveTokens(s, m).value;
    MovementEffect(s, m);
    MovementMoves(s, t, m, group);
    MulLe(SumOver(t.underlying.balances, group), SumOver(s.underlying.balances, group), p);
  }

  /** One call at price `p`: no group gets richer, except by gifts from outside of it. */
  lemma StepGains(s: Psm, op: Op, peg: Result<D256>, now: nat, p: nat, group: set<Address>)
    requires Inv(s, now) && Reads(s.feed, peg, p)
    requires s.self !in group && s.surplusTarget !in group && NoGift(op, group)
    ensures GroupWealth(After(s, op, peg, now), group, p) <= GroupWealth(s, group, p)
    ensures After(s, op, peg, now).surplusTarget !in group
  {
    WhoChangesWhat(s, op, peg, now);
    match op
    case Mint(_, _, _, _) => MintGains(s, op, peg, now, p, group);
    case Redeem(_, _, _, _) => RedeemGains(s, op, peg, now, p, group);
    case Govern(authorized, setting) => ChangeMovesNothing(s, authorized, setting, now);
    case Move(m) =>
      if MoveTokens(s, m).Ok? {
        MovementGains(s, m, p, group);
      }
  }
}
