/** Whole runs of the token: blocks pass, calls succeed or revert, and the end of every block
    is remembered. The remembered history is what past votes are judged against. */
module VconHistory {
  import opened Evm
  import opened Ledger
  import opened VconSpec
  import opened VconVotes

  /** Who held how much, and who had delegated to whom, when a block ended. */
  datatype Snapshot = Snapshot(balances: map<Address, nat>, delegates: map<Address, Address>)

  /** `past[b]` is the snapshot of block `b`, for every block before the current one. */
  datatype World = World(blockNumber: nat, token: Vcon, past: seq<Snapshot>)

  datatype Event = EndBlock | Call(op: Op)

  /** Deployment in block `blockNumber`; before it nobody held or delegated anything. */
  function Deployed(account: Address, minter: Address, blockNumber: nat): World {
    World(blockNumber, Initial(account, minter), seq(blockNumber, _ => Snapshot(map[], map[])))
  }

  /** A call that reverts has no effect. */
  function Next(w: World, e: Event): World {
    match e
    case EndBlock =>
      World(w.blockNumber + 1, w.token, w.past + [Snapshot(w.token.balances, w.token.delegates)])
    case Call(op) =>
      match Step(w.token, op, w.blockNumber)
      case Ok(token) => w.(token := token)
      case Revert(_) => w
  }

  function Run(w: World, events: seq<Event>): World
    decreases |events|
  {
    if events == [] then w else Run(Next(w, events[0]), events[1..])
  }

  ghost function VotesInBlock(w: World, d: Address, b: nat): nat
    requires b < |w.past|
  {
    Tally(w.past[b].balances, w.past[b].delegates, d)
  }

  ghost predicate Remembers(w: World) {
    && |w.past| == w.blockNumber
    && forall d: Address, b: nat :: b < w.blockNumber ==> VotesAt(CheckpointsOf(w.token, d), b) == VotesInBlock(w, d, b)
  }

  ghost predicate Inv(w: World) {
    && 1 <= w.blockNumber
    && Good(w.token, w.blockNumber)
    && Remembers(w)
  }

  lemma DeployedInv(account: Address, minter: Address, blockNumber: nat)
    requires 1 <= blockNumber
    ensures Inv(Deployed(account, minter, blockNumber))
  {
    var w := Deployed(account, minter, blockNumber);
    SumUpdate(map[], account, INITIAL_SUPPLY);
    assert w.token.balances == map[][account := INITIAL_SUPPLY];
    assert w.token.balances - {account} == map[];
    forall d: Address
      ensures Tally(w.token.balances, w.token.delegates, d) == 0
    {
      assert d != ZERO ==> DelegatedTo(w.token.balances, w.token.delegates, d) == map[];
    }
    forall d: Address, b: nat | b < blockNumber
      ensures VotesInBlock(w, d, b) == 0
    {
      assert d != ZERO ==> DelegatedTo(w.past[b].balances, w.past[b].delegates, d) == map[];
    }
  }

  /** Deployment gives one billion tokens of eighteen decimals to `account`, nobody votes before
      delegating, nobody may spend for others, and only `minter` can mint or hand over minting. */
  lemma DeployedTokens(
      account: Address, minter: Address, start: nat, who: Address, other: Address, dst: Address, amount: nat, now: nat)
    requires 1 <= start <= now
    ensures var s := Deployed(account, minter, start).token;
            var supply := 1_000_000_000 * 1_000_000_000_000_000_000;
            && s.totalSupply == supply
            && Get(s.balances, who) == (if who == account then supply else 0)
            && Get(s.allowances, (who, other)) == 0
            && CurrentVotes(s, who) == 0
            && (SetMinterStep(s, who, other).Ok? <==> who == minter)
            && (MintStep(s, who, dst, amount, now).Ok? <==> who == minter && dst != ZERO && supply + amount < U96)
  {
    DeployedInv(account, minter, start);
    var s := Deployed(account, minter, start).token;
    assert forall a :: CheckpointsOf(s, a) == [];
    MintEffect(s, who, dst, amount, now);
  }

  /** Only the minter can hand over minting; afterwards the new minter alone can mint. */
  lemma MintingIsHandedOver(
      s: Vcon, sender: Address, newMinter: Address, who: Address, dst: Address, amount: nat, now: nat)
    requires Good(s, now) && 1 <= now
    ensures var r := SetMinterStep(s, sender, newMinter);
            && (r.Ok? <==> sender == s.minter)
            && (r.Ok? ==>
                && r.value == s.(minter := newMinter)
                && (MintStep(r.value, who, dst, amount, now).Ok? <==>
                    && who == newMinter && dst != ZERO && s.totalSupply + amount < U96
                    && CanRecord(ZERO, Get(s.delegates, dst), amount, now)))
  {
    var t := s.(minter := newMinter);
    SameCheckpoints(s, t, now);
    MintEffect(t, who, dst, amount, now);
  }

  lemma EndBlockInv(w: World)
    requires Inv(w)
    ensures Inv(Next(w, EndBlock))
  {
    var n := Next(w, EndBlock);
    forall d: Address, b: nat | b < n.blockNumber
      ensures VotesAt(CheckpointsOf(n.token, d), b) == VotesInBlock(n, d, b)
    {
      if b == w.blockNumber {
        assert WellFormed(CheckpointsOf(w.token, d), w.blockNumber);
        VotesAtNow(CheckpointsOf(w.token, d), w.blockNumber);
        assert CurrentVotes(w.token, d) == Tally(w.token.balances, w.token.delegates, d);
      } else {
        assert n.past[b] == w.past[b];
        assert VotesInBlock(n, d, b) == VotesInBlock(w, d, b);
      }
    }
    forall a
      ensures WellFormed(CheckpointsOf(n.token, a), n.blockNumber)
    {
      assert WellFormed(CheckpointsOf(w.token, a), w.blockNumber);
    }
  }

  lemma NextInv(w: World, e: Event)
    requires Inv(w)
    ensures Inv(Next(w, e))
    ensures w.past <= Next(w, e).past
  {
    match e
    case EndBlock => EndBlockInv(w);
    case Call(op) =>
      StepExactly(w.token, op, w.blockNumber);
      var n := Next(w, e);
      assert forall d: Address, b: nat :: b < w.blockNumber ==> VotesInBlock(n, d, b) == VotesInBlock(w, d, b);
  }

  /** Every run keeps the invariant, and only adds to the history. */
  lemma {:induction false} RunInv(w: World, events: seq<Event>)
    requires Inv(w)
    ensures Inv(Run(w, events))
    ensures w.past <= Run(w, events).past
    decreases |events|
  {
    if events != [] {
      NextInv(w, events[0]);
      RunInv(Next(w, events[0]), events[1..]);
    }
  }

  /** In every reachable state `getPriorVotes` answers with the balances that were delegated
      to the account when that block ended, and it answers for exactly the finished blocks. */
  lemma PriorVotesAreHistoricalTally(
      account: Address, minter: Address, start: nat, events: seq<Event>, d: Address, b: nat)
    requires 1 <= start
    ensures var w := Run(Deployed(account, minter, start), events);
            && |w.past| == w.blockNumber
            && PriorVotes(w.token, d, b, w.blockNumber)
               == (if b < w.blockNumber then Ok(VotesInBlock(w, d, b)) else Revert(NotYetDetermined))
            && Increasing(CheckpointsOf(w.token, d))
  {
    DeployedInv(account, minter, start);
    RunInv(Deployed(account, minter, start), events);
    var w := Run(Deployed(account, minter, start), events);
    assert WellFormed(CheckpointsOf(w.token, d), w.blockNumber);
  }

  /** The votes that `getPriorVotes` reports for a set of delegates. */
  ghost function PriorVotesOf(s: Vcon, ds: set<Address>, b: nat): map<Address, nat> {
    map d | d in ds :: VotesAt(CheckpointsOf(s, d), b)
  }

  /** No token votes twice: in every reachable state, all delegates of a set together never had
      more votes in a block than there were tokens at its end. */
  lemma NoTokenVotesTwice(account: Address, minter: Address, start: nat, events: seq<Event>, ds: set<Address>, b: nat)
    requires 1 <= start && ZERO !in ds
    requires b < Run(Deployed(account, minter, start), events).blockNumber
    ensures var w := Run(Deployed(account, minter, start), events);
            b < |w.past| && Sum(PriorVotesOf(w.token, ds, b)) <= Sum(w.past[b].balances)
  {
    DeployedInv(account, minter, start);
    RunInv(Deployed(account, minter, start), events);
    var w := Run(Deployed(account, minter, start), events);
    TalliesAddUp(w.past[b].balances, w.past[b].delegates, ds);
    SumPart(DelegatedToAny(w.past[b].balances, w.past[b].delegates, ds), w.past[b].balances);
    assert forall d :: d in ds ==> VotesAt(CheckpointsOf(w.token, d), b) == VotesInBlock(w, d, b);
    assert PriorVotesOf(w.token, ds, b) == Tallies(w.past[b].balances, w.past[b].delegates, ds);
  }

  /** In every reachable state current votes are the delegated balances, and all balances
      together are the supply, which fits 96 bits. */
  lemma CurrentVotesAreTally(account: Address, minter: Address, start: nat, events: seq<Event>, d: Address)
    requires 1 <= start
    ensures var s := Run(Deployed(account, minter, start), events).token;
            && CurrentVotes(s, d) == Tally(s.balances, s.delegates, d)
            && Sum(s.balances) == s.totalSupply < U96
  {
    DeployedInv(account, minter, start);
    RunInv(Deployed(account, minter, start), events);
  }

  /** Once a block is over, nothing that happens later changes the votes reported for it. */
  lemma PastVotesAreImmutable(
      account: Address, minter: Address, start: nat, before: seq<Event>, after: seq<Event>, d: Address, b: nat)
    requires 1 <= start
    requires b < Run(Deployed(account, minter, start), before).blockNumber
    ensures var w := Run(Deployed(account, minter, start), before);
            var later := Run(w, after);
            PriorVotes(later.token, d, b, later.blockNumber) == PriorVotes(w.token, d, b, w.blockNumber)
  {
    DeployedInv(account, minter, start);
    RunInv(Deployed(account, minter, start), before);
    var w := Run(Deployed(account, minter, start), before);
    RunInv(w, after);
    var later := Run(w, after);
    assert later.past[b] == w.past[b];
    assert VotesInBlock(later, d, b) == VotesInBlock(w, d, b);
  }

  /** In every reachable state each call succeeds exactly when it is allowed, changes exactly the
      entries it should, and leaves current votes that are the delegated balances. */
  lemma CallsExactly(account: Address, minter: Address, start: nat, events: seq<Event>, op: Op)
    requires 1 <= start
    ensures var w := Run(Deployed(account, minter, start), events);
            var r := Step(w.token, op, w.blockNumber);
            && (r.Ok? <==> Allowed(w.token, op, w.blockNumber))
            && (r.Ok? ==>
                && Performed(w.token, r.value, op)
                && forall d :: CurrentVotes(r.value, d) == Tally(r.value.balances, r.value.delegates, d))
  {
    DeployedInv(account, minter, start);
    RunInv(Deployed(account, minter, start), events);
    var w := Run(Deployed(account, minter, start), events);
    StepExactly(w.token, op, w.blockNumber);
  }

  /** In every reachable state a token move succeeds exactly when the addresses are not zero
      and the balance suffices: vote bookkeeping never stands in the way before block 2^32. */
  lemma TransferSucceedsExactly(
      account: Address, minter: Address, start: nat, events: seq<Event>, sender: Address, dst: Address, rawAmount: nat)
    requires 1 <= start
    ensures var w := Run(Deployed(account, minter, start), events);
            var s := w.token;
            Step(s, Transfer(sender, dst, rawAmount), w.blockNumber).Ok? <==>
              && sender != ZERO && dst != ZERO && rawAmount <= Get(s.balances, sender)
              && CanRecord(Get(s.delegates, sender), Get(s.delegates, dst), rawAmount, w.blockNumber)
  {
    CallsExactly(account, minter, start, events, Transfer(sender, dst, rawAmount));
  }
}
