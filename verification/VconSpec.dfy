/** The Vcon token as a state machine on values: what each call does to the storage, or why
    it reverts. `VconToken` refines these functions on mutable fields. */
module VconSpec {
  import opened Evm
  import opened Ledger

  const INITIAL_SUPPLY: nat := 1_000_000_000_000_000_000_000_000_000
  const MAX_UINT96: nat := U96 - 1

  datatype Checkpoint = Checkpoint(fromBlock: nat, votes: nat)

  /** `checkpoints` maps a delegate to the sequence of its checkpoints, oldest first. */
  datatype Vcon = Vcon(
    totalSupply: nat,
    minter: Address,
    allowances: map<(Address, Address), nat>,
    balances: map<Address, nat>,
    delegates: map<Address, Address>,
    checkpoints: map<Address, seq<Checkpoint>>)

  datatype Op =
    | SetMinter(sender: Address, newMinter: Address)
    | Mint(sender: Address, dst: Address, rawAmount: nat)
    | Approve(sender: Address, spender: Address, rawAmount: nat)
    | Transfer(sender: Address, dst: Address, rawAmount: nat)
    | TransferFrom(sender: Address, src: Address, dst: Address, rawAmount: nat)
    | Delegate(sender: Address, delegatee: Address)

  // ---------- 32 and 96 bit helpers ----------

  function Safe32(n: nat): Result<nat> {
    if n < U32 then Ok(n) else Revert(BlockExceeds32Bits)
  }

  function Safe96(n: nat, error: Error): Result<nat> {
    if n < U96 then Ok(n) else Revert(error)
  }

  /** Checked arithmetic fails before the message of the `require` can be reached. */
  function Add96(a: nat, b: nat): Result<nat> {
    if a + b < U96 then Ok(a + b) else Revert(Panic)
  }

  function Sub96(a: nat, b: nat, error: Error): Result<nat> {
    if b <= a then Ok(a - b) else Revert(error)
  }

  // ---------- reading checkpoints ----------

  function CheckpointsOf(s: Vcon, account: Address): seq<Checkpoint> {
    if account in s.checkpoints then s.checkpoints[account] else []
  }

  function LastVotes(cps: seq<Checkpoint>): nat {
    if cps == [] then 0 else cps[|cps| - 1].votes
  }

  function CurrentVotes(s: Vcon, account: Address): nat {
    LastVotes(CheckpointsOf(s, account))
  }

  /** The naive lookup: the newest checkpoint that is not after block `b`, or zero. */
  function VotesAt(cps: seq<Checkpoint>, b: nat): nat {
    if cps == [] then
      0
    else if cps[|cps| - 1].fromBlock <= b then
      cps[|cps| - 1].votes
    else
      VotesAt(cps[..|cps| - 1], b)
  }

  function PriorVotes(s: Vcon, account: Address, b: nat, blockNumber: nat): Result<nat> {
    if b < blockNumber then Ok(VotesAt(CheckpointsOf(s, account), b)) else Revert(NotYetDetermined)
  }

  // ---------- writing checkpoints ----------

  /** A second write within one block replaces the first. */
  function Recorded(cps: seq<Checkpoint>, votes: nat, block32: nat): Result<seq<Checkpoint>> {
    var n := |cps|;
    if n > 0 && cps[n - 1].fromBlock == block32 then
      Ok(cps[n - 1 := Checkpoint(block32, votes)])
    else if n + 1 < U32 then
      Ok(cps + [Checkpoint(block32, votes)])
    else
      Revert(Panic)
  }

  function WriteCheckpoint(s: Vcon, delegatee: Address, votes: nat, blockNumber: nat): Result<Vcon> {
    var block32 :- Safe32(blockNumber);
    var cps :- Recorded(CheckpointsOf(s, delegatee), votes, block32);
    Ok(s.(checkpoints := s.checkpoints[delegatee := cps]))
  }

  function DebitVotes(s: Vcon, rep: Address, amount: nat, blockNumber: nat): Result<Vcon> {
    if rep == ZERO then
      Ok(s)
    else
      var votes :- Sub96(CurrentVotes(s, rep), amount, VoteUnderflow);
      WriteCheckpoint(s, rep, votes, blockNumber)
  }

  function CreditVotes(s: Vcon, rep: Address, amount: nat, blockNumber: nat): Result<Vcon> {
    if rep == ZERO then
      Ok(s)
    else
      var votes :- Add96(CurrentVotes(s, rep), amount);
      WriteCheckpoint(s, rep, votes, blockNumber)
  }

  function MoveDelegates(s: Vcon, srcRep: Address, dstRep: Address, amount: nat, blockNumber: nat): Result<Vcon> {
    if srcRep != dstRep && amount > 0 then
      var debited :- DebitVotes(s, srcRep, amount, blockNumber);
      CreditVotes(debited, dstRep, amount, blockNumber)
    else
      Ok(s)
  }

  // ---------- calls ----------

  function SetMinterStep(s: Vcon, sender: Address, newMinter: Address): Result<Vcon> {
    var _ :- Require(sender == s.minter, Unauthorized);
    Ok(s.(minter := newMinter))
  }

  /** The new supply and balances of a mint. */
  function MintBalance(totalSupply: nat, balances: map<Address, nat>, dst: Address, amount: nat)
    : Result<(nat, map<Address, nat>)>
  {
    var safeSupply :- Safe96(totalSupply, SupplyExceeds96Bits);
    var supply :- Add96(safeSupply, amount);
    var balance :- Add96(Get(balances, dst), amount);
    Ok((supply, balances[dst := balance]))
  }

  function MintTokens(s: Vcon, dst: Address, amount: nat, blockNumber: nat): Result<Vcon> {
    var minted :- MintBalance(s.totalSupply, s.balances, dst, amount);
    MoveDelegates(s.(totalSupply := minted.0, balances := minted.1), ZERO, Get(s.delegates, dst), amount, blockNumber)
  }

  function MintStep(s: Vcon, sender: Address, dst: Address, rawAmount: nat, blockNumber: nat): Result<Vcon> {
    var _ :- Require(sender == s.minter, Unauthorized);
    var _ :- Require(dst != ZERO, ZeroAddress);
    var amount :- Safe96(rawAmount, AmountExceeds96Bits);
    MintTokens(s, dst, amount, blockNumber)
  }

  function ApproveStep(s: Vcon, sender: Address, spender: Address, rawAmount: nat): Result<Vcon> {
    var amount :- if rawAmount == U256 - 1 then Ok(MAX_UINT96) else Safe96(rawAmount, AmountExceeds96Bits);
    Ok(s.(allowances := s.allowances[(sender, spender) := amount]))
  }

  /** The second write reads the balance the first one left, so a transfer to oneself is neutral. */
  function MoveBalance(balances: map<Address, nat>, src: Address, dst: Address, amount: nat)
    : Result<map<Address, nat>>
  {
    var srcBalance :- Sub96(Get(balances, src), amount, InsufficientBalance);
    var debited := balances[src := srcBalance];
    var dstBalance :- Add96(Get(debited, dst), amount);
    Ok(debited[dst := dstBalance])
  }

  function TransferTokens(s: Vcon, src: Address, dst: Address, amount: nat, blockNumber: nat): Result<Vcon> {
    var _ :- Require(src != ZERO, ZeroAddress);
    var _ :- Require(dst != ZERO, ZeroAddress);
    var balances :- MoveBalance(s.balances, src, dst, amount);
    MoveDelegates(s.(balances := balances), Get(s.delegates, src), Get(s.delegates, dst), amount, blockNumber)
  }

  function TransferStep(s: Vcon, sender: Address, dst: Address, rawAmount: nat, blockNumber: nat): Result<Vcon> {
    var amount :- Safe96(rawAmount, AmountExceeds96Bits);
    TransferTokens(s, sender, dst, amount, blockNumber)
  }

  /** The owner needs no allowance, and the largest allowance is never used up. */
  function SpendAllowance(allowances: map<(Address, Address), nat>, src: Address, spender: Address, amount: nat)
    : Result<map<(Address, Address), nat>>
  {
    var allowed := Get(allowances, (src, spender));
    if spender != src && allowed != MAX_UINT96 then
      var remaining :- Sub96(allowed, amount, AllowanceExceeded);
      Ok(allowances[(src, spender) := remaining])
    else
      Ok(allowances)
  }

  function TransferFromStep(s: Vcon, spender: Address, src: Address, dst: Address, rawAmount: nat, blockNumber: nat)
    : Result<Vcon>
  {
    var amount :- Safe96(rawAmount, AmountExceeds96Bits);
    var allowances :- SpendAllowance(s.allowances, src, spender, amount);
    TransferTokens(s.(allowances := allowances), src, dst, amount, blockNumber)
  }

  function DelegateStep(s: Vcon, delegator: Address, delegatee: Address, blockNumber: nat): Result<Vcon> {
    MoveDelegates(
      s.(delegates := s.delegates[delegator := delegatee]),
      Get(s.delegates, delegator), delegatee, Get(s.balances, delegator), blockNumber)
  }

  function Step(s: Vcon, op: Op, blockNumber: nat): Result<Vcon> {
    match op
    case SetMinter(sender, newMinter) => SetMinterStep(s, sender, newMinter)
    case Mint(sender, dst, rawAmount) => MintStep(s, sender, dst, rawAmount, blockNumber)
    case Approve(sender, spender, rawAmount) => ApproveStep(s, sender, spender, rawAmount)
    case Transfer(sender, dst, rawAmount) => TransferStep(s, sender, dst, rawAmount, blockNumber)
    case TransferFrom(spender, src, dst, rawAmount) => TransferFromStep(s, spender, src, dst, rawAmount, blockNumber)
    case Delegate(sender, delegatee) => DelegateStep(s, sender, delegatee, blockNumber)
  }

  function Initial(account: Address, minter: Address): Vcon {
    Vcon(INITIAL_SUPPLY, minter, map[], map[account := INITIAL_SUPPLY], map[], map[])
  }
}
