/** Every call keeps the votes in the checkpoints equal to the delegated balances, and no
    call touches the votes of an earlier block. */
module VconVotes {
  import opened Evm
  import opened Ledger
  import opened VconSpec

  // ---------- the meaning of votes: a plain sum over balances ----------

  ghost function DelegatedTo(balances: map<Address, nat>, delegates: map<Address, Address>, d: Address)
    : map<Address, nat>
  {
    map a | a in balances && Get(delegates, a) == d :: balances[a]
  }

  /** The balances of all accounts whose delegate is `d`. The zero address collects no votes. */
  ghost function Tally(balances: map<Address, nat>, delegates: map<Address, Address>, d: Address): nat {
    if d == ZERO then 0 else Sum(DelegatedTo(balances, delegates, d))
  }

  lemma TallyAfterBalance(balances: map<Address, nat>, delegates: map<Address, Address>, a: Address, v: nat, d: Address)
    requires d != ZERO
    ensures Tally(balances[a := v], delegates, d)
         == Tally(balances, delegates, d) + if Get(delegates, a) == d then v - Get(balances, a) else 0
  {
    var before := DelegatedTo(balances, delegates, d);
    if Get(delegates, a) == d {
      assert DelegatedTo(balances[a := v], delegates, d) == before[a := v];
      SumUpdate(before, a, v);
    } else {
      assert DelegatedTo(balances[a := v], delegates, d) == before;
    }
  }

  lemma TallyAfterDelegate(
      balances: map<Address, nat>, delegates: map<Address, Address>, a: Address, e: Address, d: Address)
    requires d != ZERO
    ensures Tally(balances, delegates[a := e], d)
         == Tally(balances, delegates, d) + (if e == d then Get(balances, a) else 0)
                                          - (if Get(delegates, a) == d then Get(balances, a) else 0)
  {
    var before := DelegatedTo(balances, delegates, d);
    var after := DelegatedTo(balances, delegates[a := e], d);
    if (e == d) == (Get(delegates, a) == d) {
      assert after == before;
    } else if a !in balances {
      assert after == before;
    } else if e == d {
      SumSplit(after, a);
      assert after - {a} == before;
    } else {
      SumSplit(before, a);
      assert before - {a} == after;
    }
  }

  lemma TallyAtMostSupply(balances: map<Address, nat>, delegates: map<Address, Address>, d: Address)
    ensures Tally(balances, delegates, d) <= Sum(balances)
  {
    SumPart(DelegatedTo(balances, delegates, d), balances);
  }

  ghost function Tallies(balances: map<Address, nat>, delegates: map<Address, Address>, ds: set<Address>)
    : map<Address, nat>
  {
    map d | d in ds :: Tally(balances, delegates, d)
  }

  /** The balances of the accounts that chose a delegate of `ds`. */
  ghost function DelegatedToAny(balances: map<Address, nat>, delegates: map<Address, Address>, ds: set<Address>)
    : map<Address, nat>
  {
    map a | a in balances && Get(delegates, a) in ds :: balances[a]
  }

  lemma DelegatedToAnySplit(
      balances: map<Address, nat>, delegates: map<Address, Address>, ds: set<Address>, d: Address)
    requires d in ds && d != ZERO
    ensures Sum(DelegatedToAny(balances, delegates, ds))
         == Tally(balances, delegates, d) + Sum(DelegatedToAny(balances, delegates, ds - {d}))
  {
    SumParts(DelegatedToAny(balances, delegates, ds),
             DelegatedTo(balances, delegates, d), DelegatedToAny(balances, delegates, ds - {d}));
  }

  /** Every token counts for one delegate only: the votes of a set of delegates add up to the
      balances of the accounts that chose one of them. */
  lemma {:induction false} TalliesAddUp(balances: map<Address, nat>, delegates: map<Address, Address>, ds: set<Address>)
    requires ZERO !in ds
    ensures Sum(Tallies(balances, delegates, ds)) == Sum(DelegatedToAny(balances, delegates, ds))
    decreases |ds|
  {
    if ds == {} {
      assert DelegatedToAny(balances, delegates, ds) == map[];
      assert Tallies(balances, delegates, ds) == map[];
    } else {
      var d :| d in ds;
      TalliesAddUp(balances, delegates, ds - {d});
      SumSplit(Tallies(balances, delegates, ds), d);
      assert Tallies(balances, delegates, ds) - {d} == Tallies(balances, delegates, ds - {d});
      DelegatedToAnySplit(balances, delegates, ds, d);
    }
  }

  // ---------- well-formed checkpoint sequences ----------

  ghost predicate Increasing(cps: seq<Checkpoint>) {
    forall i, j :: 0 <= i < j < |cps| ==> cps[i].fromBlock < cps[j].fromBlock
  }

  /** Checkpoint i was written in block i + 1 at the earliest and by block `now` at the latest. */
  ghost predicate WellFormed(cps: seq<Checkpoint>, now: nat) {
    && Increasing(cps)
    && forall i :: 0 <= i < |cps| ==> i + 1 <= cps[i].fromBlock <= now
  }

  ghost predicate AllWellFormed(s: Vcon, now: nat) {
    forall a :: WellFormed(CheckpointsOf(s, a), now)
  }

  /** Dropping the last checkpoint changes nothing before the block it was written in. */
  lemma VotesAtAppend(cps: seq<Checkpoint>, cp: Checkpoint, b: nat)
    requires b < cp.fromBlock
    ensures VotesAt(cps + [cp], b) == VotesAt(cps, b)
  {
    assert (cps + [cp])[..|cps|] == cps;
  }

  lemma VotesAtOverwrite(cps: seq<Checkpoint>, votes: nat, b: nat)
    requires cps != [] && b < cps[|cps| - 1].fromBlock
    ensures VotesAt(cps[|cps| - 1 := Checkpoint(cps[|cps| - 1].fromBlock, votes)], b) == VotesAt(cps, b)
  {
    var n := |cps| - 1;
    assert cps[n := Checkpoint(cps[n].fromBlock, votes)][..n] == cps[..n];
  }

  lemma VotesAtNow(cps: seq<Checkpoint>, now: nat)
    requires WellFormed(cps, now)
    ensures VotesAt(cps, now) == LastVotes(cps)
  {
  }

  // ---------- the effect of writing and moving votes ----------

  /** No account's votes at any block before `now` changed. */
  ghost predicate PastKept(s: Vcon, t: Vcon, now: nat) {
    forall a: Address, b: nat :: b < now ==> VotesAt(CheckpointsOf(t, a), b) == VotesAt(CheckpointsOf(s, a), b)
  }

  lemma RecordedEffect(cps: seq<Checkpoint>, votes: nat, now: nat)
    requires WellFormed(cps, now) && 1 <= now < U32
    ensures var r := Recorded(cps, votes, now);
            && r.Ok?
            && WellFormed(r.value, now)
            && LastVotes(r.value) == votes
            && forall b: nat :: b < now ==> VotesAt(r.value, b) == VotesAt(cps, b)
  {
    var n := |cps|;
    forall b: nat | b < now
      ensures VotesAt(Recorded(cps, votes, now).value, b) == VotesAt(cps, b)
    {
      if n > 0 && cps[n - 1].fromBlock == now {
        VotesAtOverwrite(cps, votes, b);
      } else {
        VotesAtAppend(cps, Checkpoint(now, votes), b);
      }
    }
  }

  /** `t` is `s` with the current votes of `d` set to `votes` in block `now`. */
  ghost predicate VotesSet(s: Vcon, t: Vcon, d: Address, votes: nat, now: nat) {
    && t == s.(checkpoints := t.checkpoints)
    && AllWellFormed(t, now)
    && PastKept(s, t, now)
    && CurrentVotes(t, d) == votes
    && forall a :: a != d ==> CurrentVotes(t, a) == CurrentVotes(s, a)
  }

  lemma WriteCheckpointEffect(s: Vcon, d: Address, votes: nat, now: nat)
    requires AllWellFormed(s, now) && 1 <= now < U32
    ensures var r := WriteCheckpoint(s, d, votes, now); r.Ok? && VotesSet(s, r.value, d, votes, now)
  {
    RecordedEffect(CheckpointsOf(s, d), votes, now);
    var t := WriteCheckpoint(s, d, votes, now).value;
    assert forall a :: a != d ==> CheckpointsOf(t, a) == CheckpointsOf(s, a);
  }

  /** What moving `amount` votes from `srcRep` to `dstRep` should do to the votes of `d`. */
  function Shift(srcRep: Address, dstRep: Address, amount: nat, d: Address): int {
    if d == ZERO || srcRep == dstRep then 0
    else if d == srcRep then 0 - amount as int
    else if d == dstRep then amount
    else 0
  }

  /** Votes can be recorded in block `now`, or there is nothing to record. */
  predicate CanRecord(srcRep: Address, dstRep: Address, amount: nat, now: nat) {
    now < U32 || srcRep == dstRep || amount == 0
  }

  /** `t` is `s` with `amount` votes moved from `srcRep` to `dstRep` in block `now`. */
  ghost predicate VotesMoved(s: Vcon, t: Vcon, srcRep: Address, dstRep: Address, amount: nat, now: nat) {
    && t == s.(checkpoints := t.checkpoints)
    && AllWellFormed(t, now)
    && PastKept(s, t, now)
    && forall a :: CurrentVotes(t, a) == CurrentVotes(s, a) + Shift(srcRep, dstRep, amount, a)
  }

  lemma VotesSetTwice(s: Vcon, m: Vcon, t: Vcon, srcRep: Address, dstRep: Address, amount: nat, now: nat)
    requires srcRep != dstRep
    requires if srcRep == ZERO then m == s && AllWellFormed(s, now)
             else amount <= CurrentVotes(s, srcRep) && VotesSet(s, m, srcRep, CurrentVotes(s, srcRep) - amount, now)
    requires if dstRep == ZERO then t == m else VotesSet(m, t, dstRep, CurrentVotes(m, dstRep) + amount, now)
    ensures VotesMoved(s, t, srcRep, dstRep, amount, now)
  {
  }

  lemma DebitEffect(s: Vcon, rep: Address, amount: nat, now: nat)
    requires AllWellFormed(s, now) && 1 <= now < U32
    requires rep != ZERO ==> amount <= CurrentVotes(s, rep)
    ensures var r := DebitVotes(s, rep, amount, now);
            r.Ok? && if rep == ZERO then r.value == s
                     else VotesSet(s, r.value, rep, CurrentVotes(s, rep) - amount, now)
  {
    if rep != ZERO {
      var votes := CurrentVotes(s, rep) - amount;
      assert DebitVotes(s, rep, amount, now) == WriteCheckpoint(s, rep, votes, now);
      WriteCheckpointEffect(s, rep, votes, now);
    }
  }

  lemma CreditEffect(s: Vcon, rep: Address, amount: nat, now: nat)
    requires AllWellFormed(s, now) && 1 <= now < U32
    requires rep != ZERO ==> CurrentVotes(s, rep) + amount < U96
    ensures var r := CreditVotes(s, rep, amount, now);
            r.Ok? && if rep == ZERO then r.value == s
                     else VotesSet(s, r.value, rep, CurrentVotes(s, rep) + amount, now)
  {
    if rep != ZERO {
      var votes := CurrentVotes(s, rep) + amount;
      assert CreditVotes(s, rep, amount, now) == WriteCheckpoint(s, rep, votes, now);
      WriteCheckpointEffect(s, rep, votes, now);
    }
  }

  lemma MoveDelegatesEffect(s: Vcon, srcRep: Address, dstRep: Address, amount: nat, now: nat)
    requires AllWellFormed(s, now) && 1 <= now
    requires srcRep != ZERO && srcRep != dstRep ==> amount <= CurrentVotes(s, srcRep)
    requires dstRep != ZERO && srcRep != dstRep ==> CurrentVotes(s, dstRep) + amount < U96
    ensures var r := MoveDelegates(s, srcRep, dstRep, amount, now);
            if CanRecord(srcRep, dstRep, amount, now)
            then r.Ok? && VotesMoved(s, r.value, srcRep, dstRep, amount, now)
            else r == Revert(BlockExceeds32Bits)
  {
    if srcRep != dstRep && amount > 0 {
      if now < U32 {
        DebitEffect(s, srcRep, amount, now);
        var m := DebitVotes(s, srcRep, amount, now).value;
        CreditEffect(m, dstRep, amount, now);
        var t := CreditVotes(m, dstRep, amount, now).value;
        VotesSetTwice(s, m, t, srcRep, dstRep, amount, now);
      }
    }
  }

  // ---------- the invariant and the calls that keep it ----------

  /** Votes are delegated balances, and balances add up to the supply. */
  ghost predicate Accounted(s: Vcon) {
    && Sum(s.balances) == s.totalSupply < U96
    && forall d :: CurrentVotes(s, d) == Tally(s.balances, s.delegates, d)
  }

  ghost predicate Good(s: Vcon, now: nat) {
    && AllWellFormed(s, now)
    && Accounted(s)
  }

  /** `t` is a good successor of `s` within block `now`. */
  ghost predicate GoodSuccessor(s: Vcon, t: Vcon, now: nat) {
    && Good(t, now)
    && PastKept(s, t, now)
  }

  /** If balances and delegations changed so that every tally moved by `Shift`, then
      `MoveDelegates` brings the checkpoints back in line. It neither underflows nor
      overflows; only a block number of 32 bits or more stops it. */
  lemma MoveDelegatesSettles(s: Vcon, changed: Vcon, srcRep: Address, dstRep: Address, amount: nat, now: nat)
    requires Good(s, now) && 1 <= now
    requires changed.checkpoints == s.checkpoints
    requires Sum(changed.balances) == changed.totalSupply < U96
    requires forall d :: d != ZERO ==>
               Tally(changed.balances, changed.delegates, d)
               == Tally(s.balances, s.delegates, d) + Shift(srcRep, dstRep, amount, d)
    ensures var r := MoveDelegates(changed, srcRep, dstRep, amount, now);
            if CanRecord(srcRep, dstRep, amount, now) then
              r.Ok? && r.value == changed.(checkpoints := r.value.checkpoints) && GoodSuccessor(s, r.value, now)
            else
              r == Revert(BlockExceeds32Bits)
  {
    SameCheckpoints(s, changed, now);
    TallyAtMostSupply(changed.balances, changed.delegates, dstRep);
    MoveDelegatesEffect(changed, srcRep, dstRep, amount, now);
    if CanRecord(srcRep, dstRep, amount, now) {
      var t := MoveDelegates(changed, srcRep, dstRep, amount, now).value;
      forall d
        ensures CurrentVotes(t, d) == Tally(t.balances, t.delegates, d)
      {
        assert CurrentVotes(t, d) == CurrentVotes(changed, d) + Shift(srcRep, dstRep, amount, d);
        assert CurrentVotes(s, d) == Tally(s.balances, s.delegates, d);
      }
    }
  }

  /** The votes depend on the checkpoints alone. */
  lemma SameCheckpoints(s: Vcon, t: Vcon, now: nat)
    requires s.checkpoints == t.checkpoints
    ensures AllWellFormed(s, now) == AllWellFormed(t, now)
    ensures PastKept(s, t, now)
    ensures forall a :: CurrentVotes(t, a) == CurrentVotes(s, a)
  {
    assert forall a :: CheckpointsOf(t, a) == CheckpointsOf(s, a);
  }

  /** A mint raises the sum of the balances with the supply, and the tally of one delegate. */
  lemma MintedTallies(
      totalSupply: nat, balances: map<Address, nat>, delegates: map<Address, Address>, dst: Address, amount: nat)
    requires Sum(balances) == totalSupply < U96
    ensures var minted := balances[dst := Get(balances, dst) + amount];
            && (MintBalance(totalSupply, balances, dst, amount).Ok? <==> totalSupply + amount < U96)
            && (totalSupply + amount < U96 ==>
                MintBalance(totalSupply, balances, dst, amount) == Ok((totalSupply + amount, minted)))
            && Sum(minted) == totalSupply + amount
            && forall d :: d != ZERO ==>
                 Tally(minted, delegates, d)
                 == Tally(balances, delegates, d) + Shift(ZERO, Get(delegates, dst), amount, d)
  {
    SumUpdate(balances, dst, 0);
    SumUpdate(balances, dst, Get(balances, dst) + amount);
    forall d | d != ZERO
      ensures Tally(balances[dst := Get(balances, dst) + amount], delegates, d)
           == Tally(balances, delegates, d) + Shift(ZERO, Get(delegates, dst), amount, d)
    {
      TallyAfterBalance(balances, delegates, dst, Get(balances, dst) + amount, d);
    }
  }

  lemma MintEffect(s: Vcon, sender: Address, dst: Address, rawAmount: nat, now: nat)
    requires Good(s, now) && 1 <= now
    ensures var r := MintStep(s, sender, dst, rawAmount, now);
            && (r.Ok? <==>
                && sender == s.minter && dst != ZERO
                && s.totalSupply + rawAmount < U96
                && CanRecord(ZERO, Get(s.delegates, dst), rawAmount, now))
            && (r.Ok? ==>
                && r.value == s.(totalSupply := s.totalSupply + rawAmount,
                                 balances := s.balances[dst := Get(s.balances, dst) + rawAmount],
                                 checkpoints := r.value.checkpoints)
                && GoodSuccessor(s, r.value, now))
  {
    MintedTallies(s.totalSupply, s.balances, s.delegates, dst, rawAmount);
    if s.totalSupply + rawAmount < U96 {
      var minted := s.(totalSupply := s.totalSupply + rawAmount,
                       balances := s.balances[dst := Get(s.balances, dst) + rawAmount]);
      MoveDelegatesSettles(s, minted, ZERO, Get(s.delegates, dst), rawAmount, now);
    }
  }

  /** The balances after moving `amount` tokens; a transfer to oneself changes nothing. */
  function Moved(balances: map<Address, nat>, src: Address, dst: Address, amount: nat): map<Address, nat>
    requires amount <= Get(balances, src)
  {
    if src == dst then balances[src := Get(balances, src)]
    else balances[src := Get(balances, src) - amount][dst := Get(balances, dst) + amount]
  }

  /** Moving tokens conserves their sum and shifts the tallies of the two delegates. */
  lemma MovedTallies(
      balances: map<Address, nat>, delegates: map<Address, Address>, src: Address, dst: Address, amount: nat)
    requires amount <= Get(balances, src)
    requires Sum(balances) < U96
    ensures var moved := Moved(balances, src, dst, amount);
            && MoveBalance(balances, src, dst, amount) == Ok(moved)
            && Sum(moved) == Sum(balances)
            && forall d :: d != ZERO ==>
                 Tally(moved, delegates, d)
                 == Tally(balances, delegates, d) + Shift(Get(delegates, src), Get(delegates, dst), amount, d)
  {
    var srcBalance := Get(balances, src) - amount;
    var debited := balances[src := srcBalance];
    var dstBalance := Get(debited, dst) + amount;
    SumUpdate(balances, src, srcBalance);
    SumUpdate(debited, dst, dstBalance);
    SumUpdate(debited, dst, 0);
    assert debited[dst := dstBalance] == Moved(balances, src, dst, amount);
    forall d | d != ZERO
      ensures Tally(debited[dst := dstBalance], delegates, d)
           == Tally(balances, delegates, d) + Shift(Get(delegates, src), Get(delegates, dst), amount, d)
    {
      TallyAfterBalance(balances, delegates, src, srcBalance, d);
      TallyAfterBalance(debited, delegates, dst, dstBalance, d);
    }
  }

  lemma TransferEffect(s: Vcon, src: Address, dst: Address, amount: nat, now: nat)
    requires Good(s, now) && 1 <= now
    ensures var r := TransferTokens(s, src, dst, amount, now);
            && (r.Ok? <==>
                && src != ZERO && dst != ZERO && amount <= Get(s.balances, src)
                && CanRecord(Get(s.delegates, src), Get(s.delegates, dst), amount, now))
            && (r.Ok? ==>
                && r.value == s.(balances := Moved(s.balances, src, dst, amount), checkpoints := r.value.checkpoints)
                && GoodSuccessor(s, r.value, now))
  {
    if amount <= Get(s.balances, src) {
      MovedTallies(s.balances, s.delegates, src, dst, amount);
      var moved := s.(balances := Moved(s.balances, src, dst, amount));
      MoveDelegatesSettles(s, moved, Get(s.delegates, src), Get(s.delegates, dst), amount, now);
    }
  }

  lemma DelegateEffect(s: Vcon, delegator: Address, delegatee: Address, now: nat)
    requires Good(s, now) && 1 <= now
    ensures var r := DelegateStep(s, delegator, delegatee, now);
            && (r.Ok? <==> CanRecord(Get(s.delegates, delegator), delegatee, Get(s.balances, delegator), now))
            && (r.Ok? ==>
                && r.value == s.(delegates := s.delegates[delegator := delegatee], checkpoints := r.value.checkpoints)
                && GoodSuccessor(s, r.value, now))
  {
    var changed := s.(delegates := s.delegates[delegator := delegatee]);
    forall d | d != ZERO
      ensures Tally(changed.balances, changed.delegates, d)
           == Tally(s.balances, s.delegates, d)
              + Shift(Get(s.delegates, delegator), delegatee, Get(s.balances, delegator), d)
    {
      TallyAfterDelegate(s.balances, s.delegates, delegator, delegatee, d);
    }
    MoveDelegatesSettles(s, changed, Get(s.delegates, delegator), delegatee, Get(s.balances, delegator), now);
  }

  lemma TransferAfterSpending(
      s: Vcon, allowances: map<(Address, Address), nat>, src: Address, dst: Address, amount: nat, now: nat)
    requires Good(s, now) && 1 <= now
    ensures var r := TransferTokens(s.(allowances := allowances), src, dst, amount, now);
            && (r.Ok? <==>
                && src != ZERO && dst != ZERO && amount <= Get(s.balances, src)
                && CanRecord(Get(s.delegates, src), Get(s.delegates, dst), amount, now))
            && (r.Ok? ==>
                && r.value == s.(balances := Moved(s.balances, src, dst, amount),
                                 allowances := allowances, checkpoints := r.value.checkpoints)
                && GoodSuccessor(s, r.value, now))
  {
    var spent := s.(allowances := allowances);
    SameCheckpoints(s, spent, now);
    TransferEffect(spent, src, dst, amount, now);
  }

  lemma TransferFromEffect(s: Vcon, spender: Address, src: Address, dst: Address, rawAmount: nat, now: nat)
    requires Good(s, now) && 1 <= now
    ensures var r := TransferFromStep(s, spender, src, dst, rawAmount, now);
            var allowed := Get(s.allowances, (src, spender));
            var limited := spender != src && allowed != MAX_UINT96;
            && (r.Ok? <==>
                && src != ZERO && dst != ZERO && rawAmount <= Get(s.balances, src)
                && (limited ==> rawAmount <= allowed)
                && CanRecord(Get(s.delegates, src), Get(s.delegates, dst), rawAmount, now))
            && (r.Ok? ==>
                && r.value == s.(balances := Moved(s.balances, src, dst, rawAmount),
                                 allowances := if limited then s.allowances[(src, spender) := allowed - rawAmount]
                                               else s.allowances,
                                 checkpoints := r.value.checkpoints)
                && GoodSuccessor(s, r.value, now))
  {
    var allowed := Get(s.allowances, (src, spender));
    SumUpdate(s.balances, src, 0);
    if spender != src && allowed != MAX_UINT96 {
      if rawAmount <= allowed {
        TransferAfterSpending(s, s.allowances[(src, spender) := allowed - rawAmount], src, dst, rawAmount, now);
      }
    } else {
      TransferEffect(s, src, dst, rawAmount, now);
    }
  }

  /** What approving leaves at each entry of the allowances. */
  lemma ApproveEffect(s: Vcon, owner: Address, spender: Address, rawAmount: nat)
    ensures var r := ApproveStep(s, owner, spender, rawAmount);
            && (r.Ok? <==> rawAmount < U96 || rawAmount == U256 - 1)
            && (r.Ok? ==>
                && r.value == s.(allowances := r.value.allowances)
                && Get(r.value.allowances, (owner, spender)) == Min(rawAmount, U96 - 1)
                && forall k :: k != (owner, spender) ==> Get(r.value.allowances, k) == Get(s.allowances, k))
  {
  }

  /** An approval lets the spender move exactly what was approved, once; an approval of the
      largest 96-bit amount, or of the largest 256-bit amount, is never used up. Other amounts
      of more than 96 bits cannot be approved. */
  lemma ApprovedSpending(s: Vcon, owner: Address, spender: Address, approved: nat, dst: Address, amount: nat, now: nat)
    requires Good(s, now) && 1 <= now && spender != owner
    ensures var approval := ApproveStep(s, owner, spender, approved);
            && (approval.Ok? <==> approved < U96 || approved == U256 - 1)
            && (approval.Ok? ==>
                var r := TransferFromStep(approval.value, spender, owner, dst, amount, now);
                && (r.Ok? <==>
                    && owner != ZERO && dst != ZERO && amount <= Get(s.balances, owner) && amount <= approved
                    && CanRecord(Get(s.delegates, owner), Get(s.delegates, dst), amount, now))
                && (r.Ok? ==>
                    Get(r.value.allowances, (owner, spender))
                    == if approved >= MAX_UINT96 then MAX_UINT96 else approved - amount))
  {
    ApproveEffect(s, owner, spender, approved);
    var approval := ApproveStep(s, owner, spender, approved);
    if approval.Ok? {
      SameCheckpoints(s, approval.value, now);
      SumUpdate(s.balances, owner, 0);
      TransferFromEffect(approval.value, spender, owner, dst, amount, now);
    }
  }

  /** An approval does not touch what anybody else may spend, of this owner or of others. */
  lemma OtherApprovalsStand(
      s: Vcon, owner: Address, spender: Address, approved: nat,
      other: Address, src: Address, dst: Address, amount: nat, now: nat)
    requires Good(s, now) && 1 <= now && (src, other) != (owner, spender)
    ensures var approval := ApproveStep(s, owner, spender, approved);
            approval.Ok? ==>
              var without := TransferFromStep(s, other, src, dst, amount, now);
              var with := TransferFromStep(approval.value, other, src, dst, amount, now);
              && (with.Ok? <==> without.Ok?)
              && (with.Ok? ==>
                  && with.value.balances == without.value.balances
                  && forall k :: k != (owner, spender) ==>
                       Get(with.value.allowances, k) == Get(without.value.allowances, k))
  {
    ApproveEffect(s, owner, spender, approved);
    var approval := ApproveStep(s, owner, spender, approved);
    if approval.Ok? {
      SameCheckpoints(s, approval.value, now);
      TransferFromEffect(s, other, src, dst, amount, now);
      TransferFromEffect(approval.value, other, src, dst, amount, now);
    }
  }

  // ---------- all calls, entry by entry ----------

  /** When a call succeeds. */
  predicate Allowed(s: Vcon, op: Op, now: nat) {
    match op
    case SetMinter(sender, _) => sender == s.minter
    case Mint(sender, dst, amount) =>
      && sender == s.minter && dst != ZERO && s.totalSupply + amount < U96
      && CanRecord(ZERO, Get(s.delegates, dst), amount, now)
    case Approve(_, _, amount) => amount < U96 || amount == U256 - 1
    case Transfer(src, dst, amount) =>
      && src != ZERO && dst != ZERO && amount <= Get(s.balances, src)
      && CanRecord(Get(s.delegates, src), Get(s.delegates, dst), amount, now)
    case TransferFrom(spender, src, dst, amount) =>
      && src != ZERO && dst != ZERO && amount <= Get(s.balances, src)
      && (spender == src || amount <= Get(s.allowances, (src, spender)) || Get(s.allowances, (src, spender)) == U96 - 1)
      && CanRecord(Get(s.delegates, src), Get(s.delegates, dst), amount, now)
    case Delegate(sender, delegatee) =>
      CanRecord(Get(s.delegates, sender), delegatee, Get(s.balances, sender), now)
  }

  /** `amount` tokens moved from `src` to `dst`, and no others. */
  ghost predicate TokensMoved(s: Vcon, t: Vcon, src: Address, dst: Address, amount: nat) {
    forall a :: Get(t.balances, a)
                == Get(s.balances, a) - (if a == src then amount else 0) + (if a == dst then amount else 0)
  }

  /** What a call does to every entry of the storage; the votes follow from it. */
  ghost predicate Performed(s: Vcon, t: Vcon, op: Op) {
    match op
    case SetMinter(_, newMinter) => t == s.(minter := newMinter)
    case Mint(_, dst, amount) =>
      && t == s.(totalSupply := s.totalSupply + amount, balances := t.balances, checkpoints := t.checkpoints)
      && forall a :: Get(t.balances, a) == Get(s.balances, a) + if a == dst then amount else 0
    case Approve(owner, spender, amount) =>
      && t == s.(allowances := t.allowances)
      && forall k :: Get(t.allowances, k)
                     == if k == (owner, spender) then Min(amount, U96 - 1) else Get(s.allowances, k)
    case Transfer(src, dst, amount) =>
      && t == s.(balances := t.balances, checkpoints := t.checkpoints)
      && TokensMoved(s, t, src, dst, amount)
    case TransferFrom(spender, src, dst, amount) =>
      && t == s.(balances := t.balances, allowances := t.allowances, checkpoints := t.checkpoints)
      && TokensMoved(s, t, src, dst, amount)
      && forall k :: Get(t.allowances, k)
                     == Get(s.allowances, k)
                        - if k == (src, spender) && spender != src && Get(s.allowances, k) != U96 - 1 then amount else 0
    case Delegate(delegator, delegatee) =>
      && t == s.(delegates := t.delegates, checkpoints := t.checkpoints)
      && forall a :: Get(t.delegates, a) == if a == delegator then delegatee else Get(s.delegates, a)
  }

  /** What a move of tokens does, entry by entry. */
  lemma MoveExactly(s: Vcon, t: Vcon, src: Address, dst: Address, amount: nat)
    requires amount <= Get(s.balances, src) && t.balances == Moved(s.balances, src, dst, amount)
    ensures TokensMoved(s, t, src, dst, amount)
  {
  }

  lemma TransferExactly(s: Vcon, src: Address, dst: Address, amount: nat, now: nat)
    requires Good(s, now) && 1 <= now
    ensures var op := Transfer(src, dst, amount);
            var r := Step(s, op, now);
            && (r.Ok? <==> Allowed(s, op, now))
            && (r.Ok? ==> Performed(s, r.value, op) && GoodSuccessor(s, r.value, now))
  {
    SumUpdate(s.balances, src, 0);
    TransferEffect(s, src, dst, amount, now);
    var r := Step(s, Transfer(src, dst, amount), now);
    if r.Ok? {
      MoveExactly(s, r.value, src, dst, amount);
    }
  }

  lemma TransferFromExactly(s: Vcon, spender: Address, src: Address, dst: Address, amount: nat, now: nat)
    requires Good(s, now) && 1 <= now
    ensures var op := TransferFrom(spender, src, dst, amount);
            var r := Step(s, op, now);
            && (r.Ok? <==> Allowed(s, op, now))
            && (r.Ok? ==> Performed(s, r.value, op) && GoodSuccessor(s, r.value, now))
  {
    TransferFromEffect(s, spender, src, dst, amount, now);
    var r := Step(s, TransferFrom(spender, src, dst, amount), now);
    if r.Ok? {
      MoveExactly(s, r.value, src, dst, amount);
    }
  }

  /** Each call succeeds exactly when it is allowed, does what it says to every entry, keeps the
      votes in line, and leaves the votes of all earlier blocks alone. */
  lemma StepExactly(s: Vcon, op: Op, now: nat)
    requires Good(s, now) && 1 <= now
    ensures var r := Step(s, op, now);
            && (r.Ok? <==> Allowed(s, op, now))
            && (r.Ok? ==> Performed(s, r.value, op) && GoodSuccessor(s, r.value, now))
  {
    var r := Step(s, op, now);
    match op
    case SetMinter(_, newMinter) => SameCheckpoints(s, s.(minter := newMinter), now);
    case Mint(sender, dst, amount) => MintEffect(s, sender, dst, amount, now);
    case Approve(owner, spender, amount) =>
      ApproveEffect(s, owner, spender, amount);
      if r.Ok? {
        SameCheckpoints(s, r.value, now);
      }
    case Transfer(src, dst, amount) => TransferExactly(s, src, dst, amount, now);
    case TransferFrom(spender, src, dst, amount) => TransferFromExactly(s, spender, src, dst, amount, now);
    case Delegate(delegator, delegatee) => DelegateEffect(s, delegator, delegatee, now);
  }
}
