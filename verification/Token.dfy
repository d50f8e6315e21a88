/** Standard EIP-20 balances, as far as the peg stability module uses them. Allowances are
    taken to cover every amount. */
module Token {
  import opened Evm
  import opened Ledger

  datatype Token = Token(supply: nat, balances: map<Address, nat>)

  function TransferToken(t: Token, src: Address, dst: Address, amount: nat): Result<Token> {
    var _ :- Require(src != ZERO && dst != ZERO, ZeroAddress);
    var _ :- Require(amount <= Get(t.balances, src), InsufficientBalance);
    var debited := t.balances[src := Get(t.balances, src) - amount];
    var balance :- CheckedAdd(Get(debited, dst), amount);
    Ok(t.(balances := debited[dst := balance]))
  }

  function MintToken(t: Token, dst: Address, amount: nat): Result<Token> {
    var _ :- Require(dst != ZERO, ZeroAddress);
    var supply :- CheckedAdd(t.supply, amount);
    var balance :- CheckedAdd(Get(t.balances, dst), amount);
    Ok(Token(supply, t.balances[dst := balance]))
  }

  function BurnToken(t: Token, src: Address, amount: nat): Result<Token> {
    var _ :- Require(src != ZERO, ZeroAddress);
    var _ :- Require(amount <= Get(t.balances, src), InsufficientBalance);
    var supply :- CheckedSub(t.supply, amount);
    Ok(Token(supply, t.balances[src := Get(t.balances, src) - amount]))
  }

  /** All balances together are the supply, which fits a word. */
  ghost predicate Conserved(t: Token) {
    Sum(t.balances) == t.supply < U256
  }

  function Change(src: Address, dst: Address, amount: nat, who: Address): int {
    (if who == dst then amount else 0) - (if who == src then amount else 0)
  }

  lemma TransferEffect(t: Token, src: Address, dst: Address, amount: nat)
    requires TransferToken(t, src, dst, amount).Ok?
    ensures var u := TransferToken(t, src, dst, amount).value;
            && amount <= Get(t.balances, src)
            && u.supply == t.supply
            && (forall who :: Get(u.balances, who) == Get(t.balances, who) + Change(src, dst, amount, who))
            && (Conserved(t) ==> Conserved(u))
  {
    var debited := t.balances[src := Get(t.balances, src) - amount];
    SumUpdate(t.balances, src, Get(t.balances, src) - amount);
    SumUpdate(debited, dst, Get(debited, dst) + amount);
  }

  lemma TransferSucceeds(t: Token, src: Address, dst: Address, amount: nat)
    requires Conserved(t)
    ensures TransferToken(t, src, dst, amount).Ok? <==>
              src != ZERO && dst != ZERO && amount <= Get(t.balances, src)
  {
    if amount <= Get(t.balances, src) {
      var debited := t.balances[src := Get(t.balances, src) - amount];
      SumUpdate(t.balances, src, Get(t.balances, src) - amount);
      SumUpdate(debited, dst, 0);
    }
  }

  lemma MintEffect(t: Token, dst: Address, amount: nat)
    requires MintToken(t, dst, amount).Ok?
    ensures var u := MintToken(t, dst, amount).value;
            && u.supply == t.supply + amount
            && (forall who :: Get(u.balances, who) == Get(t.balances, who) + if who == dst then amount else 0)
            && (Conserved(t) ==> Conserved(u))
  {
    SumUpdate(t.balances, dst, Get(t.balances, dst) + amount);
  }

  lemma BurnEffect(t: Token, src: Address, amount: nat)
    requires BurnToken(t, src, amount).Ok?
    ensures var u := BurnToken(t, src, amount).value;
            && amount <= Get(t.balances, src)
            && u.supply == t.supply - amount
            && (forall who :: Get(u.balances, who) == Get(t.balances, who) - if who == src then amount else 0)
            && (Conserved(t) ==> Conserved(u))
  {
    SumUpdate(t.balances, src, Get(t.balances, src) - amount);
  }

  lemma BurnSucceeds(t: Token, src: Address, amount: nat)
    requires Conserved(t)
    ensures BurnToken(t, src, amount).Ok? <==> src != ZERO && amount <= Get(t.balances, src)
  {
    SumUpdate(t.balances, src, 0);
  }

  lemma MintSucceeds(t: Token, dst: Address, amount: nat)
    requires Conserved(t)
    ensures MintToken(t, dst, amount).Ok? <==> dst != ZERO && t.supply + amount < U256
  {
    SumUpdate(t.balances, dst, 0);
  }

  class Erc20 {
    var supply: nat
    var balances: map<Address, nat>

    function View(): Token
      reads this
    {
      Token(supply, balances)
    }

    method Restore(saved: Token)
      modifies this
      ensures View() == saved
    {
      supply, balances := saved.supply, saved.balances;
    }

    ghost predicate Did(r: Result<()>, before: Token, expected: Result<Token>)
      reads this
    {
      match expected
      case Ok(t) => r == Ok(()) && View() == t
      case Revert(e) => r == Revert(e) && View() == before
    }

    method Transfer(src: Address, dst: Address, amount: nat) returns (r: Result<()>)
      modifies this
      ensures Did(r, old(View()), TransferToken(old(View()), src, dst, amount))
    {
      if src == ZERO || dst == ZERO {
        return Revert(ZeroAddress);
      }
      if amount > Get(balances, src) {
        return Revert(InsufficientBalance);
      }
      var saved := View();
      balances := balances[src := Get(balances, src) - amount];
      if Get(balances, dst) + amount >= U256 {
        Restore(saved);
        return Revert(Panic);
      }
      balances := balances[dst := Get(balances, dst) + amount];
      return Ok(());
    }

    method Mint(dst: Address, amount: nat) returns (r: Result<()>)
      modifies this
      ensures Did(r, old(View()), MintToken(old(View()), dst, amount))
    {
      if dst == ZERO {
        return Revert(ZeroAddress);
      }
      if supply + amount >= U256 || Get(balances, dst) + amount >= U256 {
        return Revert(Panic);
      }
      supply := supply + amount;
      balances := balances[dst := Get(balances, dst) + amount];
      return Ok(());
    }
  }
}
