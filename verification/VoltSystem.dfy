/** The oracle and the module together: time passes, anyone compounds, and anyone trades at the
    price of the moment, read through inversion and scaling. */
module VoltSystem {
  import opened Evm
  import opened Ledger
  import opened Floors
  import opened Decimal
  import opened OracleRef
  import opened PsmQuotes
  import opened Token
  import opened PsmSpec
  import opened PsmSafety
  import opened PsmSolvency
  import opened PsmTraders
  import V = VoltSystemOracle

  datatype World = World(now: nat, oracle: V.Oracle, psm: Psm)

  datatype Event =
    | OracleEvent(event: V.Event)
    | PsmCall(op: Op)

  function OracleWorld(w: World): V.World {
    V.World(w.now, w.oracle)
  }

  function Peg(w: World): Result<D256> {
    PassThroughRead(w.oracle, w.now)
  }

  function Next(w: World, e: Event): World {
    match e
    case OracleEvent(event) =>
      var v := V.Next(OracleWorld(w), event);
      World(v.now, v.oracle, w.psm)
    case PsmCall(op) =>
      w.(psm := After(w.psm, op, Peg(w), w.now))
  }

  function Run(w: World, events: seq<Event>): World
    decreases |events|
  {
    if events == [] then w else Run(Next(w, events[0]), events[1..])
  }

  /** The module's price at this moment, in unbounded arithmetic; there is none without an oracle price. */
  function CurrentQuote(w: World): nat {
    var price := V.Price(w.oracle, w.now);
    if price == 0 then 0 else QuotedPrice(w.psm.feed, price)
  }

  ghost predicate SystemInv(w: World) {
    Inv(w.psm, w.now) && V.Price(w.oracle, w.now) > 0
  }

  lemma {:induction false} TimeMovesOn(w: World, events: seq<Event>)
    ensures w.now <= Run(w, events).now
    decreases |events|
  {
    if events != [] {
      TimeMovesOn(Next(w, events[0]), events[1..]);
    }
  }

  /** Whatever happens, the oracle price does not fall and the module keeps its invariant; an
      inverted quote does not rise, and one that is not inverted does not fall. */
  lemma NextQuote(w: World, e: Event)
    requires SystemInv(w) && Next(w, e).now < U256
    ensures SystemInv(Next(w, e)) && Next(w, e).psm.feed == w.psm.feed
    ensures w.psm.feed.doInvert ==> CurrentQuote(Next(w, e)) <= CurrentQuote(w)
    ensures !w.psm.feed.doInvert ==> CurrentQuote(w) <= CurrentQuote(Next(w, e))
    ensures e.PsmCall? ==> CurrentQuote(Next(w, e)) == CurrentQuote(w)
  {
    match e
    case OracleEvent(event) =>
      V.PriceNeverFalls(OracleWorld(w), [event]);
      assert V.Run(OracleWorld(w), [event]) == V.Next(OracleWorld(w), event);
      QuoteFollowsPeg(w.psm.feed, V.Price(w.oracle, w.now), V.Price(Next(w, e).oracle, Next(w, e).now));
    case PsmCall(op) =>
      StepKeepsInv(w.psm, op, Peg(w), w.now);
      WhoChangesWhat(w.psm, op, Peg(w), w.now);
  }

  /** Every trade reads the quote of the moment. */
  lemma TradesReadQuote(w: World)
    requires SystemInv(w)
    ensures Reads(w.psm.feed, Peg(w), CurrentQuote(w))
  {
    if ReadOracle(w.psm.feed, Peg(w)).Ok? {
      ReadIsQuoted(w.psm.feed, Peg(w));
      PassThroughIsPrice(w.oracle, w.now);
    }
  }

  /** The module's price never rises along a run when it is the inverted oracle price. */
  lemma {:induction false} InvertedQuoteNeverRises(w: World, events: seq<Event>)
    requires SystemInv(w) && w.psm.feed.doInvert && Run(w, events).now < U256
    ensures SystemInv(Run(w, events))
    ensures CurrentQuote(Run(w, events)) <= CurrentQuote(w)
    decreases |events|
  {
    if events != [] {
      TimeMovesOn(Next(w, events[0]), events[1..]);
      NextQuote(w, events[0]);
      InvertedQuoteNeverRises(Next(w, events[0]), events[1..]);
    }
  }

  // ---------- solvency with the oracle ----------

  predicate CallsFromOutside(events: seq<Event>, self: Address) {
    forall e :: e in events && e.PsmCall? ==> FromOutside(e.op, self)
  }

  function NewVoltIn(w: World, e: Event): nat {
    if e.PsmCall? then NewVolt(w.psm, e.op, Peg(w), w.now) else 0
  }

  function NewVoltOver(w: World, events: seq<Event>): nat
    decreases |events|
  {
    if events == [] then 0 else NewVoltIn(w, events[0]) + NewVoltOver(Next(w, events[0]), events[1..])
  }

  function AllocatedIn(w: World, e: Event): nat {
    if e.PsmCall? then Worth(CurrentQuote(w), Allocated(w.psm, e.op)) else 0
  }

  /** The reserves that were allocated, each at the quote of its day. */
  function AllocatedOver(w: World, events: seq<Event>): nat
    decreases |events|
  {
    if events == [] then 0 else AllocatedIn(w, events[0]) + AllocatedOver(Next(w, events[0]), events[1..])
  }

  /** What the reserves gain or lose when time or compounding moves the quote. */
  function RevaluationOver(w: World, events: seq<Event>): int
    decreases |events|
  {
    if events == [] then 0
    else
      var n := Next(w, events[0]);
      (CurrentQuote(n) - CurrentQuote(w)) * Reserves(w.psm) + RevaluationOver(n, events[1..])
  }

  function ModuleWealth(w: World): nat {
    Wealth(w.psm, w.psm.self, CurrentQuote(w))
  }

  lemma NextSolvency(w: World, e: Event)
    requires SystemInv(w) && Next(w, e).now < U256
    requires e.PsmCall? ==> FromOutside(e.op, w.psm.self)
    ensures var n := Next(w, e);
            && SystemInv(n) && n.psm.feed == w.psm.feed && n.psm.self == w.psm.self
            && ModuleWealth(w) + (CurrentQuote(n) - CurrentQuote(w)) * Reserves(w.psm) + BASE * NewVoltIn(w, e)
               <= ModuleWealth(n) + AllocatedIn(w, e)
  {
    NextQuote(w, e);
    Repriced(w.psm, w.psm.self, CurrentQuote(w), CurrentQuote(Next(w, e)));
    match e
    case OracleEvent(_) =>
    case PsmCall(op) =>
      TradesReadQuote(w);
      WhoChangesWhat(w.psm, op, Peg(w), w.now);
      StepValue(w.psm, op, Peg(w), w.now, CurrentQuote(w));
  }

  /** Solvency along the whole run of the oracle, inverted or not: what the module owns and what
      it allocated cover what it owned, what the moving quote made of its reserves, and the VOLT
      it created. */
  lemma {:induction false} SolventWithOracle(w: World, events: seq<Event>)
    requires SystemInv(w) && Run(w, events).now < U256 && CallsFromOutside(events, w.psm.self)
    ensures SystemInv(Run(w, events))
    ensures ModuleWealth(w) + RevaluationOver(w, events) + BASE * NewVoltOver(w, events)
         <= ModuleWealth(Run(w, events)) + AllocatedOver(w, events)
    decreases |events|
  {
    if events != [] {
      TimeMovesOn(Next(w, events[0]), events[1..]);
      NextSolvency(w, events[0]);
      SolventWithOracle(Next(w, events[0]), events[1..]);
    }
  }

  /** The module never holds more than `most` underlying tokens along the run. */
  ghost predicate ReservesStayWithin(w: World, events: seq<Event>, most: nat)
    decreases |events|
  {
    Reserves(w.psm) <= most && (events != [] ==> ReservesStayWithin(Next(w, events[0]), events[1..], most))
  }

  /** Without inversion interest only raises the quote, and the reserves gain. */
  lemma {:induction false} InterestGains(w: World, events: seq<Event>)
    requires SystemInv(w) && !w.psm.feed.doInvert && Run(w, events).now < U256
    ensures CurrentQuote(w) <= CurrentQuote(Run(w, events)) && 0 <= RevaluationOver(w, events)
    decreases |events|
  {
    if events != [] {
      var n := Next(w, events[0]);
      TimeMovesOn(n, events[1..]);
      NextQuote(w, events[0]);
      InterestGains(n, events[1..]);
      MulLe(0, Reserves(w.psm), CurrentQuote(n) - CurrentQuote(w));
    }
  }

  /** One event: what it does to the quote, and how the revaluation goes on. */
  lemma InterestStep(w: World, events: seq<Event>)
    requires SystemInv(w) && w.psm.feed.doInvert && events != []
    requires Run(w, events).now < U256
    ensures var n := Next(w, events[0]);
            && SystemInv(n) && n.psm.feed.doInvert
            && Run(n, events[1..]) == Run(w, events)
            && CurrentQuote(n) <= CurrentQuote(w)
            && RevaluationOver(w, events)
               == (CurrentQuote(n) - CurrentQuote(w)) * Reserves(w.psm) + RevaluationOver(n, events[1..])
  {
    TimeMovesOn(Next(w, events[0]), events[1..]);
    NextQuote(w, events[0]);
  }

  /** Inverted, as in the deployed modules, interest lowers the quote, and the reserves lose at
      most the whole fall on the largest amount held. */
  lemma {:induction false} InterestLoses(w: World, events: seq<Event>, most: nat)
    requires SystemInv(w) && w.psm.feed.doInvert && Run(w, events).now < U256
    requires ReservesStayWithin(w, events, most)
    ensures var p, q := CurrentQuote(w), CurrentQuote(Run(w, events));
            q <= p && -((p - q) * most) <= RevaluationOver(w, events) <= 0
    decreases |events|
  {
    hide CurrentQuote;
    if events != [] {
      var n, rest := Next(w, events[0]), events[1..];
      InterestStep(w, events);
      InterestLoses(n, rest, most);
      LossOfOneFall(CurrentQuote(w), CurrentQuote(n), CurrentQuote(Run(n, rest)), Reserves(w.psm), most);
    }
  }

  /** Therefore a deployed module, with its inverted price, is solvent up to the fall of the quote
      on its largest reserves; and without inversion it is solvent outright. */
  lemma SolventUpToInterest(w: World, events: seq<Event>, most: nat)
    requires SystemInv(w) && Run(w, events).now < U256 && CallsFromOutside(events, w.psm.self)
    requires w.psm.feed.doInvert ==> ReservesStayWithin(w, events, most)
    ensures var p, q := CurrentQuote(w), CurrentQuote(Run(w, events));
            ModuleWealth(w) + BASE * NewVoltOver(w, events)
            <= ModuleWealth(Run(w, events)) + AllocatedOver(w, events)
               + if w.psm.feed.doInvert then (p - q) * most else 0
  {
    SolventWithOracle(w, events);
    if w.psm.feed.doInvert {
      InterestLoses(w, events, most);
    } else {
      InterestGains(w, events);
    }
  }

  /** The loss is real and exact: a module deployed with the inverted price holds ten tokens, one
      period of interest passes, and without a single call it owns less by the fall of the quote
      on ten tokens. */
  lemma InterestLosesExactly()
    ensures var q := Parameters(1, Feed(true, 0), 0, 0, 1, 4, 9_000, 11_000, 1, 1, true);
            var volt, underlying := Token(0, map[]), Token(10, map[1 := 10]);
            && Conserved(volt) && Conserved(underlying) && Deploy(q, volt, underlying, 0).Ok?
            && var w := World(0, V.Oracle(100, BASE, 0), Deploy(q, volt, underlying, 0).value);
            var events := [OracleEvent(V.Elapse(V.TIMEFRAME))];
            && SystemInv(w)
            && CurrentQuote(Run(w, events)) < CurrentQuote(w)
            && ModuleWealth(Run(w, events)) == ModuleWealth(w) - (CurrentQuote(w) - CurrentQuote(Run(w, events))) * 10
            && RevaluationOver(w, events) == -((CurrentQuote(w) - CurrentQuote(Run(w, events))) * 10)
            && NewVoltOver(w, events) == 0 && AllocatedOver(w, events) == 0
  {
    var q := Parameters(1, Feed(true, 0), 0, 0, 1, 4, 9_000, 11_000, 1, 1, true);
    var volt, underlying := Token(0, map[]), Token(10, map[1 := 10]);
    SumUpdate(map[], 1, 10);
    assert map[][1 := 10] == map[1 := 10];
    InitialRangeIsBounded(9_000, 11_000);
    DeployInv(q, volt, underlying, 0);
    var w := World(0, V.Oracle(100, BASE, 0), Deploy(q, volt, underlying, 0).value);
    var later := World(V.TIMEFRAME, w.oracle, w.psm);
    var events := [OracleEvent(V.Elapse(V.TIMEFRAME))];
    assert Run(later, []) == later && events[1..] == [];
    assert Next(w, events[0]) == later;
    assert Run(w, events) == later;
    assert Pow10(0) == 1;
    assert CurrentQuote(w) == BASE;
    assert V.Price(w.oracle, V.TIMEFRAME) == BASE + BASE / 100;
    assert CurrentQuote(later) == UNIT / (BASE + BASE / 100) < BASE;
  }

  // ---------- traders ----------

  predicate NoGiftsTo(events: seq<Event>, group: set<Address>) {
    forall e :: e in events && e.PsmCall? ==> NoGift(e.op, group)
  }

  lemma NextGroupWealth(w: World, e: Event, group: set<Address>)
    requires SystemInv(w) && w.psm.feed.doInvert && Next(w, e).now < U256
    requires w.psm.self !in group && w.psm.surplusTarget !in group
    requires e.PsmCall? ==> NoGift(e.op, group)
    ensures var n := Next(w, e);
            && SystemInv(n) && n.psm.feed == w.psm.feed && n.psm.self == w.psm.self
            && n.psm.surplusTarget !in group
            && GroupWealth(n.psm, group, CurrentQuote(n)) <= GroupWealth(w.psm, group, CurrentQuote(w))
  {
    NextQuote(w, e);
    match e
    case OracleEvent(_) => GroupAtHigherPrice(w.psm, group, CurrentQuote(Next(w, e)), CurrentQuote(w));
    case PsmCall(op) =>
      TradesReadQuote(w);
      WhoChangesWhat(w.psm, op, Peg(w), w.now);
      StepGains(w.psm, op, Peg(w), w.now, CurrentQuote(w), group);
  }

  /** With the inverted price that the deployed modules use, no group of accounts can trade with
      the module over time and end up worth more VOLT together, at the price of the day, than
      before: not by round trips through several of its accounts, not by splitting, and not by
      waiting for interest or for governance. */
  lemma {:induction false} NoGroupGains(w: World, events: seq<Event>, group: set<Address>)
    requires SystemInv(w) && w.psm.feed.doInvert && Run(w, events).now < U256
    requires w.psm.self !in group && w.psm.surplusTarget !in group && NoGiftsTo(events, group)
    ensures SystemInv(Run(w, events))
    ensures var end := Run(w, events);
            GroupWealth(end.psm, group, CurrentQuote(end)) <= GroupWealth(w.psm, group, CurrentQuote(w))
    decreases |events|
  {
    if events != [] {
      TimeMovesOn(Next(w, events[0]), events[1..]);
      NextGroupWealth(w, events[0], group);
      NoGroupGains(Next(w, events[0]), events[1..], group);
    }
  }

  /** The same for a single trader. */
  lemma NoTraderGains(w: World, events: seq<Event>, trader: Address)
    requires SystemInv(w) && w.psm.feed.doInvert && Run(w, events).now < U256
    requires trader != w.psm.self && trader != w.psm.surplusTarget && NoGiftsTo(events, {trader})
    ensures var end := Run(w, events);
            Wealth(end.psm, trader, CurrentQuote(end)) <= Wealth(w.psm, trader, CurrentQuote(w))
  {
    var end := Run(w, events);
    NoGroupGains(w, events, {trader});
    GroupOfOne(w.psm, trader, CurrentQuote(w));
    GroupOfOne(end.psm, trader, CurrentQuote(end));
  }

  /** Redeeming `amount` VOLT and minting with the proceeds gives at most `amount` back. */
  predicate RedeemThenMintWithin(now: D256, later: D256, amount: nat, mintFee: nat, redeemFee: nat) {
    var out := RedeemAmountOut(now, redeemFee, amount);
    out.Ok? && MintAmountOut(later, mintFee, out.value).Ok? ==>
      MintAmountOut(later, mintFee, out.value).value <= amount
  }

  /** Minting with `amount` tokens and redeeming later pays out at most what they were worth. */
  predicate MintThenRedeemWithin(now: D256, later: D256, amount: nat, mintFee: nat, redeemFee: nat) {
    var out := MintAmountOut(now, mintFee, amount);
    out.Ok? && RedeemAmountOut(later, redeemFee, out.value).Ok? ==>
      RedeemAmountOut(later, redeemFee, out.value).value * later.value <= amount * now.value
  }

  lemma RoundTripsAtFallingPrice(now: D256, later: D256, amount: nat, mintFee: nat, redeemFee: nat)
    requires later.value <= now.value
    ensures RedeemThenMintWithin(now, later, amount, mintFee, redeemFee)
    ensures MintThenRedeemWithin(now, later, amount, mintFee, redeemFee)
  {
    var redeemed := RedeemAmountOut(now, redeemFee, amount);
    if redeemed.Ok? && MintAmountOut(later, mintFee, redeemed.value).Ok? {
      RedeemWithinPrice(now, redeemFee, amount);
      MintWithinPrice(later, mintFee, redeemed.value);
      MulLe(later.value, now.value, redeemed.value);
    }
    var minted := MintAmountOut(now, mintFee, amount);
    if minted.Ok? && RedeemAmountOut(later, redeemFee, minted.value).Ok? {
      MintWithinPrice(now, mintFee, amount);
      RedeemWithinPrice(later, redeemFee, minted.value);
    }
  }

  /** Redeeming now and minting with the proceeds at any later moment gives back at most the
      VOLT redeemed; minting now and redeeming later pays out at most what the tokens paid in
      were worth. Fees may be different then. */
  lemma RoundTripsOverTime(w: World, events: seq<Event>, amount: nat, mintFee: nat, redeemFee: nat)
    requires SystemInv(w) && w.psm.feed.doInvert && Run(w, events).now < U256
    ensures var now := ReadOracle(w.psm.feed, Peg(w));
            var later := ReadOracle(Run(w, events).psm.feed, Peg(Run(w, events)));
            now.Ok? && later.Ok? ==>
              && later.value.value <= now.value.value
              && RedeemThenMintWithin(now.value, later.value, amount, mintFee, redeemFee)
              && MintThenRedeemWithin(now.value, later.value, amount, mintFee, redeemFee)
  {
    InvertedQuoteNeverRises(w, events);
    TradesReadQuote(w);
    TradesReadQuote(Run(w, events));
    var now := ReadOracle(w.psm.feed, Peg(w));
    var later := ReadOracle(Run(w, events).psm.feed, Peg(Run(w, events)));
    if now.Ok? && later.Ok? {
      RoundTripsAtFallingPrice(now.value, later.value, amount, mintFee, redeemFee);
    }
  }
}
