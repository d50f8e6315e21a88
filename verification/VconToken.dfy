/** The token contract itself: mappings updated in place, a checkpoint mapping with a separate
    length, a binary search, and calls that undo everything when they revert. Each call is
    proved to do to the storage exactly what `VconSpec` says. */
module VconToken {
  import opened Evm
  import opened Ledger
  import opened VconSpec
  import VconVotes

  /** All mutable storage of the contract, as one value. */
  datatype Storage = Storage(
    totalSupply: nat,
    minter: Address,
    allowances: map<(Address, Address), nat>,
    balances: map<Address, nat>,
    delegates: map<Address, Address>,
    cells: map<(Address, nat), Checkpoint>,
    numCheckpoints: map<Address, nat>)

  function CellAt(cells: map<(Address, nat), Checkpoint>, account: Address, i: nat): Checkpoint {
    if (account, i) in cells then cells[(account, i)] else Checkpoint(0, 0)
  }

  /** The first `n` cells of an account, in order. */
  ghost function Index(cells: map<(Address, nat), Checkpoint>, account: Address, n: nat): seq<Checkpoint> {
    seq(n, i requires 0 <= i < n => CellAt(cells, account, i))
  }

  /** Cells beyond the recorded length do not count. */
  ghost function Abstract(s: Storage): Vcon {
    Vcon(s.totalSupply, s.minter, s.allowances, s.balances, s.delegates,
         map a | a in s.numCheckpoints :: Index(s.cells, a, s.numCheckpoints[a]))
  }

  lemma AbstractIndex(s: Storage, account: Address)
    ensures CheckpointsOf(Abstract(s), account) == Index(s.cells, account, Get(s.numCheckpoints, account))
  {
  }

  /** Writing a cell of one account leaves the other accounts' indexes alone. */
  lemma IndexFrame(cells: map<(Address, nat), Checkpoint>, account: Address, i: nat, cp: Checkpoint, a: Address, n: nat)
    requires a != account || n <= i
    ensures Index(cells[(account, i) := cp], a, n) == Index(cells, a, n)
  {
  }

  /** Overwriting a cell inside an account's index overwrites one abstract checkpoint. */
  lemma OverwriteCell(s: Storage, account: Address, i: nat, cp: Checkpoint)
    requires i < Get(s.numCheckpoints, account)
    ensures var cps := CheckpointsOf(Abstract(s), account);
            && |cps| == Get(s.numCheckpoints, account)
            && Abstract(s.(cells := s.cells[(account, i) := cp]))
               == Abstract(s).(checkpoints := Abstract(s).checkpoints[account := cps[i := cp]])
  {
    var cells := s.cells[(account, i) := cp];
    var n := s.numCheckpoints[account];
    forall a | a in s.numCheckpoints && a != account
      ensures Index(cells, a, s.numCheckpoints[a]) == Index(s.cells, a, s.numCheckpoints[a])
    {
      IndexFrame(s.cells, account, i, cp, a, s.numCheckpoints[a]);
    }
    assert Index(cells, account, n) == Index(s.cells, account, n)[i := cp];
  }

  /** Filling the next cell and raising the length appends one abstract checkpoint. */
  lemma AppendCell(s: Storage, account: Address, cp: Checkpoint)
    ensures var n := Get(s.numCheckpoints, account);
            var cps := CheckpointsOf(Abstract(s), account);
            && |cps| == n
            && Abstract(s.(cells := s.cells[(account, n) := cp], numCheckpoints := s.numCheckpoints[account := n + 1]))
               == Abstract(s).(checkpoints := Abstract(s).checkpoints[account := cps + [cp]])
  {
    var n := Get(s.numCheckpoints, account);
    var cells := s.cells[(account, n) := cp];
    forall a | a in s.numCheckpoints && a != account
      ensures Index(cells, a, s.numCheckpoints[a]) == Index(s.cells, a, s.numCheckpoints[a])
    {
      IndexFrame(s.cells, account, n, cp, a, s.numCheckpoints[a]);
    }
    assert Index(cells, account, n + 1) == Index(s.cells, account, n) + [cp];
  }

  // ---------- the naive search, characterized by positions ----------

  lemma {:induction false} NewestBefore(cps: seq<Checkpoint>, i: nat, b: nat)
    requires VconVotes.Increasing(cps) && i < |cps|
    requires cps[i].fromBlock <= b
    requires i + 1 < |cps| ==> b < cps[i + 1].fromBlock
    ensures VotesAt(cps, b) == cps[i].votes
  {
    if i + 1 < |cps| {
      NewestBefore(cps[..|cps| - 1], i, b);
    }
  }

  lemma {:induction false} NoneBefore(cps: seq<Checkpoint>, b: nat)
    requires VconVotes.Increasing(cps)
    requires cps != [] ==> b < cps[0].fromBlock
    ensures VotesAt(cps, b) == 0
  {
    if |cps| > 0 {
      NoneBefore(cps[..|cps| - 1], b);
    }
  }

  class VconToken {
    var totalSupply: nat
    var minter: Address
    var allowances: map<(Address, Address), nat>
    var balances: map<Address, nat>
    var delegates: map<Address, Address>
    var checkpoints: map<(Address, nat), Checkpoint>
    var numCheckpoints: map<Address, nat>

    function Slots(): Storage
      reads this
    {
      Storage(totalSupply, minter, allowances, balances, delegates, checkpoints, numCheckpoints)
    }

    ghost function View(): Vcon
      reads this
    {
      Abstract(Slots())
    }

    constructor (account: Address, minter: Address)
      ensures View() == Initial(account, minter)
    {
      totalSupply := INITIAL_SUPPLY;
      balances := map[account := INITIAL_SUPPLY];
      this.minter := minter;
      allowances, delegates, checkpoints, numCheckpoints := map[], map[], map[], map[];
      new;
      assert View().checkpoints == map[];
    }

    /** What the runtime does when a call reverts. */
    method Rollback(saved: Storage)
      modifies this
      ensures Slots() == saved
    {
      totalSupply, minter, allowances := saved.totalSupply, saved.minter, saved.allowances;
      balances, delegates := saved.balances, saved.delegates;
      checkpoints, numCheckpoints := saved.cells, saved.numCheckpoints;
    }

    // ---------- views ----------

    method GetCurrentVotes(account: Address) returns (votes: nat)
      ensures votes == CurrentVotes(View(), account)
    {
      var nCheckpoints := Get(numCheckpoints, account);
      votes := if nCheckpoints > 0 then CellAt(checkpoints, account, nCheckpoints - 1).votes else 0;
    }

    /** The binary search terminates on any storage, and on increasing checkpoints it finds
        what the naive search from the newest checkpoint finds. */
    method GetPriorVotes(account: Address, b: nat, blockNumber: nat) returns (r: Result<nat>)
      ensures b >= blockNumber ==> r == Revert(NotYetDetermined)
      ensures b < blockNumber ==> r.Ok?
      ensures VconVotes.Increasing(CheckpointsOf(View(), account)) ==> r == PriorVotes(View(), account, b, blockNumber)
    {
      if b >= blockNumber {
        return Revert(NotYetDetermined);
      }
      ghost var cps := CheckpointsOf(View(), account);
      var nCheckpoints := Get(numCheckpoints, account);
      assert |cps| == nCheckpoints;
      if nCheckpoints == 0 {
        return Ok(0);
      }
      if CellAt(checkpoints, account, nCheckpoints - 1).fromBlock <= b {
        return Ok(CellAt(checkpoints, account, nCheckpoints - 1).votes);
      }
      if CellAt(checkpoints, account, 0).fromBlock > b {
        if VconVotes.Increasing(cps) {
          NoneBefore(cps, b);
        }
        return Ok(0);
      }
      var lower, upper := 0, nCheckpoints - 1;
      while upper > lower
        invariant 0 <= lower <= upper < nCheckpoints
        invariant cps[lower].fromBlock <= b
        invariant upper + 1 < nCheckpoints ==> cps[upper + 1].fromBlock > b
        invariant upper + 1 == nCheckpoints ==> cps[upper].fromBlock > b
        decreases upper - lower
      {
        var center := upper - (upper - lower) / 2;
        var cp := CellAt(checkpoints, account, center);
        assert cp == cps[center];
        if cp.fromBlock == b {
          if VconVotes.Increasing(cps) {
            NewestBefore(cps, center, b);
          }
          return Ok(cp.votes);
        } else if cp.fromBlock < b {
          lower := center;
        } else {
          upper := center - 1;
        }
      }
      if VconVotes.Increasing(cps) {
        NewestBefore(cps, lower, b);
      }
      return Ok(CellAt(checkpoints, account, lower).votes);
    }

    // ---------- internal ----------

    method OverwriteLast(delegatee: Address, cp: Checkpoint)
      requires Get(numCheckpoints, delegatee) > 0
      modifies this`checkpoints
      ensures var cps := CheckpointsOf(old(View()), delegatee);
              && |cps| > 0
              && View() == old(View()).(checkpoints := old(View()).checkpoints[delegatee := cps[|cps| - 1 := cp]])
    {
      var last := Get(numCheckpoints, delegatee) - 1;
      OverwriteCell(Slots(), delegatee, last, cp);
      checkpoints := checkpoints[(delegatee, last) := cp];
    }

    method AppendNext(delegatee: Address, cp: Checkpoint)
      modifies this`checkpoints, this`numCheckpoints
      ensures var cps := CheckpointsOf(old(View()), delegatee);
              View() == old(View()).(checkpoints := old(View()).checkpoints[delegatee := cps + [cp]])
    {
      var next := Get(numCheckpoints, delegatee);
      AppendCell(Slots(), delegatee, cp);
      checkpoints := checkpoints[(delegatee, next) := cp];
      numCheckpoints := numCheckpoints[delegatee := next + 1];
    }

    method WriteCheckpoint(delegatee: Address, nCheckpoints: nat, votes: nat, blockNumber: nat) returns (r: Result<()>)
      requires nCheckpoints == Get(numCheckpoints, delegatee)
      modifies this`checkpoints, this`numCheckpoints
      ensures Did(r, VconSpec.WriteCheckpoint(old(View()), delegatee, votes, blockNumber))
      ensures r.Revert? ==> Slots() == old(Slots())
    {
      if blockNumber >= U32 {
        return Revert(BlockExceeds32Bits);
      }
      AbstractIndex(Slots(), delegatee);
      if nCheckpoints > 0 && CellAt(checkpoints, delegatee, nCheckpoints - 1).fromBlock == blockNumber {
        OverwriteLast(delegatee, Checkpoint(blockNumber, votes));
      } else {
        if nCheckpoints + 1 >= U32 {
          return Revert(Panic);
        }
        AppendNext(delegatee, Checkpoint(blockNumber, votes));
      }
      return Ok(());
    }

    /** A success leaves the specified storage; a failure reports the specified error. */
    ghost predicate Did(r: Result<()>, expected: Result<Vcon>)
      reads this
    {
      match expected
      case Ok(s) => r == Ok(()) && View() == s
      case Revert(e) => r == Revert(e)
    }

    method DebitVotes(rep: Address, amount: nat, blockNumber: nat) returns (r: Result<()>)
      modifies this`checkpoints, this`numCheckpoints
      ensures Did(r, VconSpec.DebitVotes(old(View()), rep, amount, blockNumber))
    {
      if rep == ZERO {
        return Ok(());
      }
      var repNum := Get(numCheckpoints, rep);
      var repOld := GetCurrentVotes(rep);
      if amount > repOld {
        return Revert(VoteUnderflow);
      }
      r := WriteCheckpoint(rep, repNum, repOld - amount, blockNumber);
    }

    method CreditVotes(rep: Address, amount: nat, blockNumber: nat) returns (r: Result<()>)
      modifies this`checkpoints, this`numCheckpoints
      ensures Did(r, VconSpec.CreditVotes(old(View()), rep, amount, blockNumber))
    {
      if rep == ZERO {
        return Ok(());
      }
      var repNum := Get(numCheckpoints, rep);
      var repOld := GetCurrentVotes(rep);
      if repOld + amount >= U96 {
        return Revert(Panic);
      }
      r := WriteCheckpoint(rep, repNum, repOld + amount, blockNumber);
    }

    method MoveDelegates(srcRep: Address, dstRep: Address, amount: nat, blockNumber: nat) returns (r: Result<()>)
      modifies this`checkpoints, this`numCheckpoints
      ensures Did(r, VconSpec.MoveDelegates(old(View()), srcRep, dstRep, amount, blockNumber))
    {
      if srcRep == dstRep || amount == 0 {
        return Ok(());
      }
      r := DebitVotes(srcRep, amount, blockNumber);
      if r.Ok? {
        r := CreditVotes(dstRep, amount, blockNumber);
      }
    }

    /** The balance part of a transfer; the second write reads what the first one left. */
    method MoveBalance(src: Address, dst: Address, amount: nat) returns (r: Result<()>)
      modifies this`balances
      ensures match VconSpec.MoveBalance(old(balances), src, dst, amount)
              case Ok(moved) => r == Ok(()) && balances == moved
              case Revert(e) => r == Revert(e)
    {
      if amount > Get(balances, src) {
        return Revert(InsufficientBalance);
      }
      balances := balances[src := Get(balances, src) - amount];
      if Get(balances, dst) + amount >= U96 {
        return Revert(Panic);
      }
      balances := balances[dst := Get(balances, dst) + amount];
      return Ok(());
    }

    method TransferTokens(src: Address, dst: Address, amount: nat, blockNumber: nat) returns (r: Result<()>)
      modifies this
      ensures Did(r, VconSpec.TransferTokens(old(View()), src, dst, amount, blockNumber))
    {
      if src == ZERO || dst == ZERO {
        return Revert(ZeroAddress);
      }
      r := MoveBalance(src, dst, amount);
      if r.Ok? {
        r := MoveDelegates(Get(delegates, src), Get(delegates, dst), amount, blockNumber);
      }
    }

    method SpendAllowance(src: Address, spender: Address, amount: nat) returns (r: Result<()>)
      modifies this`allowances
      ensures match VconSpec.SpendAllowance(old(allowances), src, spender, amount)
              case Ok(left) => r == Ok(()) && allowances == left
              case Revert(e) => r == Revert(e) && allowances == old(allowances)
    {
      var spenderAllowance := Get(allowances, (src, spender));
      if spender != src && spenderAllowance != MAX_UINT96 {
        if amount > spenderAllowance {
          return Revert(AllowanceExceeded);
        }
        allowances := allowances[(src, spender) := spenderAllowance - amount];
      }
      return Ok(());
    }

    /** The supply and balance part of a mint. */
    method MintBalance(dst: Address, amount: nat) returns (r: Result<()>)
      modifies this`totalSupply, this`balances
      ensures match VconSpec.MintBalance(old(totalSupply), old(balances), dst, amount)
              case Ok(minted) => r == Ok(()) && totalSupply == minted.0 && balances == minted.1
              case Revert(e) => r == Revert(e)
    {
      if totalSupply >= U96 {
        return Revert(SupplyExceeds96Bits);
      }
      if totalSupply + amount >= U96 {
        return Revert(Panic);
      }
      totalSupply := totalSupply + amount;
      if Get(balances, dst) + amount >= U96 {
        return Revert(Panic);
      }
      balances := balances[dst := Get(balances, dst) + amount];
      return Ok(());
    }

    method MintTokens(dst: Address, amount: nat, blockNumber: nat) returns (r: Result<()>)
      modifies this
      ensures Did(r, VconSpec.MintTokens(old(View()), dst, amount, blockNumber))
    {
      r := MintBalance(dst, amount);
      if r.Ok? {
        r := MoveDelegates(ZERO, Get(delegates, dst), amount, blockNumber);
      }
    }

    // ---------- external calls ----------

    // A call either makes the specified step, or reports the specified error and leaves
    // every storage slot as it was.

    method SetMinter(sender: Address, newMinter: Address) returns (r: Result<()>)
      modifies this
      ensures Did(r, SetMinterStep(old(View()), sender, newMinter))
      ensures r.Revert? ==> Slots() == old(Slots())
    {
      if sender != minter {
        return Revert(Unauthorized);
      }
      minter := newMinter;
      return Ok(());
    }

    method Mint(sender: Address, dst: Address, rawAmount: nat, blockNumber: nat) returns (r: Result<()>)
      modifies this
      ensures Did(r, MintStep(old(View()), sender, dst, rawAmount, blockNumber))
      ensures r.Revert? ==> Slots() == old(Slots())
    {
      if sender != minter {
        return Revert(Unauthorized);
      }
      if dst == ZERO {
        return Revert(ZeroAddress);
      }
      if rawAmount >= U96 {
        return Revert(AmountExceeds96Bits);
      }
      var saved := Slots();
      r := MintTokens(dst, rawAmount, blockNumber);
      if r.Revert? {
        Rollback(saved);
      }
    }

    method Approve(sender: Address, spender: Address, rawAmount: nat) returns (r: Result<()>)
      modifies this
      ensures Did(r, ApproveStep(old(View()), sender, spender, rawAmount))
      ensures r.Revert? ==> Slots() == old(Slots())
    {
      var amount := MAX_UINT96;
      if rawAmount != U256 - 1 {
        if rawAmount >= U96 {
          return Revert(AmountExceeds96Bits);
        }
        amount := rawAmount;
      }
      allowances := allowances[(sender, spender) := amount];
      return Ok(());
    }

    method Transfer(sender: Address, dst: Address, rawAmount: nat, blockNumber: nat) returns (r: Result<()>)
      modifies this
      ensures Did(r, TransferStep(old(View()), sender, dst, rawAmount, blockNumber))
      ensures r.Revert? ==> Slots() == old(Slots())
    {
      if rawAmount >= U96 {
        return Revert(AmountExceeds96Bits);
      }
      var saved := Slots();
      r := TransferTokens(sender, dst, rawAmount, blockNumber);
      if r.Revert? {
        Rollback(saved);
      }
    }

    method TransferFrom(spender: Address, src: Address, dst: Address, rawAmount: nat, blockNumber: nat)
      returns (r: Result<()>)
      modifies this
      ensures Did(r, TransferFromStep(old(View()), spender, src, dst, rawAmount, blockNumber))
      ensures r.Revert? ==> Slots() == old(Slots())
    {
      if rawAmount >= U96 {
        return Revert(AmountExceeds96Bits);
      }
      var saved := Slots();
      r := SpendAllowance(src, spender, rawAmount);
      if r.Ok? {
        r := TransferTokens(src, dst, rawAmount, blockNumber);
      }
      if r.Revert? {
        Rollback(saved);
      }
    }

    method Delegate(delegator: Address, delegatee: Address, blockNumber: nat) returns (r: Result<()>)
      modifies this
      ensures Did(r, DelegateStep(old(View()), delegator, delegatee, blockNumber))
      ensures r.Revert? ==> Slots() == old(Slots())
    {
      var saved := Slots();
      var currentDelegate := Get(delegates, delegator);
      delegates := delegates[delegator := delegatee];
      r := MoveDelegates(currentDelegate, delegatee, Get(balances, delegator), blockNumber);
      if r.Revert? {
        Rollback(saved);
      }
    }
  }
}
