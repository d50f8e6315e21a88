/** The lazily replenished token bucket as functions on values, and what it guarantees over
    whole runs in which governance changes rate and cap. */
module TokenBucket {
  import opened Evm
  import opened Floors

  datatype Bucket = Bucket(
    maxRate: nat,
    rate: nat,
    cap: nat,
    stored: nat,
    lastUsed: nat,
    partialAction: bool)

  datatype Action =
    | Deplete(amount: nat)
    | Replenish(amount: nat)
    | SetRate(authorized: bool, newRate: nat)
    | SetCap(authorized: bool, newCap: nat)
    | Touch

  /** The new bucket, and how much of it was used. */
  datatype Outcome = Outcome(bucket: Bucket, used: nat)

  // ---------- one call ----------

  function Buffer(b: Bucket, now: nat): Result<nat> {
    var _ :- Require(b.lastUsed <= now, Panic);
    var accrued :- CheckedMul(b.rate, now - b.lastUsed);
    var total :- CheckedAdd(b.stored, accrued);
    Ok(Min(total, b.cap))
  }

  function UpdateBufferStored(b: Bucket, now: nat): Result<Bucket> {
    var buffer :- Buffer(b, now);
    Ok(b.(stored := buffer, lastUsed := now))
  }

  function DepleteBuffer(b: Bucket, amount: nat, now: nat): Result<Outcome> {
    var buffer :- Buffer(b, now);
    var used := if b.partialAction && amount > buffer then buffer else amount;
    var _ :- Require(buffer != 0, NoBuffer);
    var _ :- Require(used <= buffer, RateLimitHit);
    Ok(Outcome(b.(stored := buffer - used, lastUsed := now), used))
  }

  function ReplenishBuffer(b: Bucket, amount: nat, now: nat): Result<Bucket> {
    var buffer :- Buffer(b, now);
    if buffer == b.cap then
      Ok(b)
    else
      var total :- CheckedAdd(buffer, amount);
      Ok(b.(stored := Min(total, b.cap), lastUsed := now))
  }

  function SetRateLimit(b: Bucket, authorized: bool, newRate: nat, now: nat): Result<Bucket> {
    var _ :- Require(authorized, Unauthorized);
    var _ :- Require(newRate <= b.maxRate, RateTooHigh);
    var updated :- UpdateBufferStored(b, now);
    Ok(updated.(rate := newRate))
  }

  function SetBufferCap(b: Bucket, authorized: bool, newCap: nat, now: nat): Result<Bucket> {
    var _ :- Require(authorized, Unauthorized);
    var updated :- UpdateBufferStored(b, now);
    Ok(updated.(cap := newCap))
  }

  function Unused(r: Result<Bucket>): Result<Outcome> {
    match r
    case Ok(b) => Ok(Outcome(b, 0))
    case Revert(e) => Revert(e)
  }

  function Step(b: Bucket, a: Action, now: nat): Result<Outcome> {
    match a
    case Deplete(amount) => DepleteBuffer(b, amount, now)
    case Replenish(amount) => Unused(ReplenishBuffer(b, amount, now))
    case SetRate(authorized, newRate) => Unused(SetRateLimit(b, authorized, newRate, now))
    case SetCap(authorized, newCap) => Unused(SetBufferCap(b, authorized, newCap, now))
    case Touch => Unused(UpdateBufferStored(b, now))
  }

  /** A new bucket is full. */
  function Full(maxRate: nat, rate: nat, cap: nat, partialAction: bool, now: nat): Bucket {
    Bucket(maxRate, rate, cap, cap, now, partialAction)
  }

  // ---------- whole runs ----------

  datatype Timed = At(time: nat, action: Action)

  /** The calls come in the order of their block times, none before `from` or after `to`. */
  ghost predicate Ordered(calls: seq<Timed>, from: nat, to: nat) {
    if calls == [] then from <= to else from <= calls[0].time && Ordered(calls[1..], calls[0].time, to)
  }

  /** A call that reverts leaves the bucket alone and uses nothing. */
  function After(b: Bucket, c: Timed): Bucket {
    match Step(b, c.action, c.time)
    case Ok(o) => o.bucket
    case Revert(_) => b
  }

  function Used(b: Bucket, c: Timed): Result<nat> {
    match Step(b, c.action, c.time)
    case Ok(o) => Ok(o.used)
    case Revert(e) => Revert(e)
  }

  function Run(b: Bucket, calls: seq<Timed>): Bucket
    decreases |calls|
  {
    if calls == [] then b else Run(After(b, calls[0]), calls[1..])
  }

  /** What every caller of a run sees: the amount used, or the error. */
  function Results(b: Bucket, calls: seq<Timed>): seq<Result<nat>>
    decreases |calls|
  {
    if calls == [] then [] else [Used(b, calls[0])] + Results(After(b, calls[0]), calls[1..])
  }

  function TotalUsed(results: seq<Result<nat>>): nat {
    if results == [] then 0
    else (if results[0].Ok? then results[0].value else 0) + TotalUsed(results[1..])
  }

  /** The replenishments asked for by the calls that succeeded. */
  function TotalReplenished(calls: seq<Timed>, results: seq<Result<nat>>): nat
    requires |calls| == |results|
  {
    if calls == [] then 0
    else (if calls[0].action.Replenish? && results[0].Ok? then calls[0].action.amount else 0)
         + TotalReplenished(calls[1..], results[1..])
  }

  /** A run that starts with `first` is that call and the rest. */
  lemma RunStartsWith(b: Bucket, first: Timed, rest: seq<Timed>)
    ensures var n := After(b, first);
            var calls := [first] + rest;
            && Run(b, calls) == Run(n, rest)
            && Results(b, calls) == [Used(b, first)] + Results(n, rest)
            && TotalUsed(Results(b, calls))
               == (if Used(b, first).Ok? then Used(b, first).value else 0) + TotalUsed(Results(n, rest))
            && (|Results(n, rest)| == |rest| && !first.action.Replenish? ==>
                TotalReplenished(calls, Results(b, calls)) == TotalReplenished(rest, Results(n, rest)))
  {
    var calls := [first] + rest;
    assert calls[0] == first && calls[1..] == rest;
    assert Results(b, calls)[1..] == Results(After(b, first), rest);
  }

  // ---------- the bucket without overflow ----------

  /** What `buffer()` stands for, in unbounded arithmetic. */
  function Level(b: Bucket, now: nat): nat
    requires b.lastUsed <= now
  {
    Min(b.stored + b.rate * (now - b.lastUsed), b.cap)
  }

  /** `buffer()` fails exactly when the unclipped sum does not fit a word. */
  predicate Overflows(b: Bucket, now: nat)
    requires b.lastUsed <= now
  {
    b.stored + b.rate * (now - b.lastUsed) >= U256
  }

  ghost predicate Valid(b: Bucket, now: nat) {
    b.rate <= b.maxRate && b.lastUsed <= now
  }

  lemma BufferIsLevel(b: Bucket, now: nat)
    requires b.lastUsed <= now
    ensures Buffer(b, now) == if Overflows(b, now) then Revert(Panic) else Ok(Level(b, now))
  {
    MulLe(0, now - b.lastUsed, b.rate);
  }

  /** Waiting adds at most the rate for every second. */
  lemma LevelLater(b: Bucket, t: nat, u: nat)
    requires b.lastUsed <= t <= u
    ensures b.rate * (u - b.lastUsed) == b.rate * (t - b.lastUsed) + b.rate * (u - t)
    ensures 0 <= b.rate * (u - t)
    ensures Level(b, u) == Min(Level(b, t) + b.rate * (u - t), b.cap)
  {
    assert b.rate * (u - b.lastUsed) == b.rate * ((t - b.lastUsed) + (u - t));
  }

  // ---------- a new bucket ----------

  /** A new bucket stays full until it is used, and its rate can be set up to the maximum. */
  lemma NewBucketIsFull(
      maxRate: nat, rate: nat, cap: nat, partialAction: bool, start: nat, authorized: bool, newRate: nat, now: nat)
    requires start <= now
    ensures var b := Full(maxRate, rate, cap, partialAction, start);
            var fits := cap + rate * (now - start) < U256;
            && Buffer(b, now) == (if fits then Ok(cap) else Revert(Panic))
            && (SetRateLimit(b, authorized, newRate, now).Ok? <==> authorized && newRate <= maxRate && fits)
  {
    BufferIsLevel(Full(maxRate, rate, cap, partialAction, start), now);
    MulLe(0, now - start, rate);
  }

  /** The first use takes the amount asked for, or with partial actions at most the cap. From then
      on the buffer grows by the rate every second, up to the cap. */
  lemma FirstUse(
      maxRate: nat, rate: nat, cap: nat, partialAction: bool, start: nat, amount: nat, now: nat, later: nat)
    requires start <= now <= later
    ensures var r := DepleteBuffer(Full(maxRate, rate, cap, partialAction, start), amount, now);
            var total := cap - Min(amount, cap) + rate * (later - now);
            && (r.Ok? <==> cap + rate * (now - start) < U256 && cap > 0 && (partialAction || amount <= cap))
            && (r.Ok? ==>
                && r.value.used == Min(amount, cap)
                && Buffer(r.value.bucket, later) == if total < U256 then Ok(Min(total, cap)) else Revert(Panic))
  {
    var b := Full(maxRate, rate, cap, partialAction, start);
    NewBucketIsFull(maxRate, rate, cap, partialAction, start, true, rate, now);
    var r := DepleteBuffer(b, amount, now);
    if r.Ok? {
      BufferIsLevel(r.value.bucket, later);
    }
  }

  // ---------- the per-second bucket ----------

  /** The bucket everyone has in mind: one level that is topped up every second. */
  datatype Simple = Simple(maxRate: nat, rate: nat, cap: nat, level: nat, partialAction: bool)

  function Tick(s: Simple): Simple {
    s.(level := Min(s.level + s.rate, s.cap))
  }

  function Wait(s: Simple, seconds: nat): Simple
    decreases seconds
  {
    if seconds == 0 then s else Wait(Tick(s), seconds - 1)
  }

  datatype SimpleOutcome = SimpleOutcome(bucket: Simple, used: nat)

  function SimpleStep(s: Simple, a: Action): Result<SimpleOutcome> {
    match a
    case Deplete(amount) =>
      if s.level == 0 then
        Revert(NoBuffer)
      else if amount <= s.level then
        Ok(SimpleOutcome(s.(level := s.level - amount), amount))
      else if s.partialAction then
        Ok(SimpleOutcome(s.(level := 0), s.level))
      else
        Revert(RateLimitHit)
    case Replenish(amount) =>
      if s.level < s.cap && s.level + amount >= U256 then Revert(Panic)
      else Ok(SimpleOutcome(s.(level := Min(s.level + amount, s.cap)), 0))
    case SetRate(authorized, newRate) =>
      if !authorized then Revert(Unauthorized)
      else if newRate > s.maxRate then Revert(RateTooHigh)
      else Ok(SimpleOutcome(s.(rate := newRate), 0))
    case SetCap(authorized, newCap) =>
      if !authorized then Revert(Unauthorized)
      else Ok(SimpleOutcome(s.(cap := newCap, level := Min(s.level, newCap)), 0))
    case Touch =>
      Ok(SimpleOutcome(s, 0))
  }

  function SimpleAfter(s: Simple, a: Action): Simple {
    match SimpleStep(s, a)
    case Ok(o) => o.bucket
    case Revert(_) => s
  }

  function SimpleUsed(s: Simple, a: Action): Result<nat> {
    match SimpleStep(s, a)
    case Ok(o) => Ok(o.used)
    case Revert(e) => Revert(e)
  }

  function SimpleRun(s: Simple, calls: seq<Timed>, from: nat, to: nat): Simple
    requires Ordered(calls, from, to)
    decreases |calls|
  {
    if calls == [] then
      Wait(s, to - from)
    else
      SimpleRun(SimpleAfter(Wait(s, calls[0].time - from), calls[0].action), calls[1..], calls[0].time, to)
  }

  function SimpleResults(s: Simple, calls: seq<Timed>, from: nat, to: nat): seq<Result<nat>>
    requires Ordered(calls, from, to)
    decreases |calls|
  {
    if calls == [] then
      []
    else
      var ready := Wait(s, calls[0].time - from);
      [SimpleUsed(ready, calls[0].action)]
      + SimpleResults(SimpleAfter(ready, calls[0].action), calls[1..], calls[0].time, to)
  }

  // ---------- the lazy bucket refines the per-second bucket ----------

  /** How the lazy bucket looks from outside at time `now`. */
  function Seen(b: Bucket, now: nat): Simple
    requires b.lastUsed <= now
  {
    Simple(b.maxRate, b.rate, b.cap, Level(b, now), b.partialAction)
  }

  /** The closed formula at any time is the result of ticking once per second. */
  lemma {:induction false} WaitIsLazy(b: Bucket, t: nat, u: nat)
    requires b.lastUsed <= t <= u
    ensures Wait(Seen(b, t), u - t) == Seen(b, u)
    decreases u - t
  {
    if t < u {
      LevelLater(b, t, t + 1);
      assert Tick(Seen(b, t)) == Seen(b, t + 1);
      WaitIsLazy(b, t + 1, u);
    }
  }

  /** One call: unless `buffer()` overflows, the lazy bucket and the per-second bucket give the
      same answer and look the same afterwards. If it does overflow, the call reverts. */
  lemma StepIsSimple(b: Bucket, a: Action, now: nat)
    requires Valid(b, now)
    ensures Valid(After(b, At(now, a)), now)
    ensures Overflows(b, now) ==> Step(b, a, now).Revert?
    ensures !Overflows(b, now) ==>
              && Used(b, At(now, a)) == SimpleUsed(Seen(b, now), a)
              && Seen(After(b, At(now, a)), now) == SimpleAfter(Seen(b, now), a)
  {
    BufferIsLevel(b, now);
    var c := After(b, At(now, a));
    assert c.lastUsed == now ==> c.rate * (now - c.lastUsed) == 0;
  }

  /** Once `buffer()` overflows it does so for ever: every later call reverts and nothing changes. */
  lemma {:induction false} OverflowIsFinal(b: Bucket, calls: seq<Timed>, from: nat, to: nat)
    requires Valid(b, from) && Overflows(b, from) && Ordered(calls, from, to)
    ensures Run(b, calls) == b
    ensures from <= to && Overflows(b, to)
    ensures forall r :: r in Results(b, calls) ==> r.Revert?
    decreases |calls|
  {
    if calls == [] {
      LevelLater(b, from, to);
    } else {
      LevelLater(b, from, calls[0].time);
      StepIsSimple(b, calls[0].action, calls[0].time);
      OverflowIsFinal(b, calls[1..], calls[0].time, to);
    }
  }

  /** Whole runs: as long as `buffer()` still answers at the end, no caller could tell the lazy
      bucket from the one that is topped up every second. */
  lemma {:induction false} LazyRefinesPerSecond(b: Bucket, calls: seq<Timed>, from: nat, to: nat)
    requires Valid(b, from) && Ordered(calls, from, to)
    ensures Valid(Run(b, calls), to)
    ensures !Overflows(Run(b, calls), to) ==>
              && Results(b, calls) == SimpleResults(Seen(b, from), calls, from, to)
              && Seen(Run(b, calls), to) == SimpleRun(Seen(b, from), calls, from, to)
    decreases |calls|
  {
    if calls == [] {
      WaitIsLazy(b, from, to);
    } else {
      var t := calls[0].time;
      WaitIsLazy(b, from, t);
      StepIsSimple(b, calls[0].action, t);
      LazyRefinesPerSecond(After(b, calls[0]), calls[1..], t, to);
      if Overflows(b, t) {
        OverflowIsFinal(b, calls[1..], t, to);
      }
    }
  }

  /** The overflow is real: a full bucket with the largest cap stops for good one second later,
      although its buffer has nothing to gain. */
  lemma LargestCapStops(maxRate: nat, rate: nat, now: nat)
    requires 0 < rate <= maxRate
    ensures var b := Full(maxRate, rate, U256 - 1, false, now);
            && Buffer(b, now) == Ok(U256 - 1)
            && Level(b, now + 1) == U256 - 1
            && Buffer(b, now + 1) == Revert(Panic)
  {
    var b := Full(maxRate, rate, U256 - 1, false, now);
    BufferIsLevel(b, now);
    BufferIsLevel(b, now + 1);
  }

  // ---------- runs that cannot overflow ----------

  /** No cap that governance sets during the run exceeds `c`. */
  ghost predicate CapsWithin(calls: seq<Timed>, c: nat) {
    forall call :: call in calls && call.action.SetCap? ==> call.action.newCap <= c
  }

  /** Buffer and cap are at most `c`, and even `c` plus the maximum rate up to time `to` fits a
      word. All of this is known before the run. */
  ghost predicate RoomUntil(b: Bucket, c: nat, to: nat) {
    b.stored <= c && b.cap <= c && b.lastUsed <= to && c + b.maxRate * (to - b.lastUsed) < U256
  }

  lemma RoomIsEnough(b: Bucket, c: nat, now: nat, to: nat)
    requires Valid(b, now) && now <= to && RoomUntil(b, c, to)
    ensures !Overflows(b, now)
  {
    MulLe(b.rate, b.maxRate, now - b.lastUsed);
    MulLe(now - b.lastUsed, to - b.lastUsed, b.maxRate);
  }

  lemma StepKeepsRoom(b: Bucket, a: Action, now: nat, c: nat, to: nat)
    requires Valid(b, now) && now <= to && RoomUntil(b, c, to)
    requires a.SetCap? ==> a.newCap <= c
    ensures RoomUntil(After(b, At(now, a)), c, to)
  {
    StepIsSimple(b, a, now);
    StepMovesClock(b, a, now, c);
    var n := After(b, At(now, a));
    MulLe(to - n.lastUsed, to - b.lastUsed, b.maxRate);
  }

  lemma StepMovesClock(b: Bucket, a: Action, now: nat, c: nat)
    requires Valid(b, now) && b.stored <= c && b.cap <= c
    requires a.SetCap? ==> a.newCap <= c
    ensures var n := After(b, At(now, a));
            && b.lastUsed <= n.lastUsed && n.maxRate == b.maxRate
            && n.stored <= c && n.cap <= c
  {
    BufferIsLevel(b, now);
  }

  /** A bound on the caps and on the time rules overflow out beforehand. */
  lemma {:induction false} BoundedRunsNeverOverflow(b: Bucket, calls: seq<Timed>, from: nat, to: nat, c: nat)
    requires Valid(b, from) && Ordered(calls, from, to)
    requires RoomUntil(b, c, to) && CapsWithin(calls, c)
    ensures Valid(Run(b, calls), to) && !Overflows(Run(b, calls), to)
    decreases |calls|
  {
    if calls == [] {
      RoomIsEnough(b, c, to, to);
    } else {
      var t := calls[0].time;
      OrderedEnds(calls[1..], t, to);
      StepIsSimple(b, calls[0].action, t);
      StepKeepsRoom(b, calls[0].action, t, c, to);
      BoundedRunsNeverOverflow(After(b, calls[0]), calls[1..], t, to, c);
    }
  }

  lemma {:induction false} OrderedEnds(calls: seq<Timed>, from: nat, to: nat)
    requires Ordered(calls, from, to)
    ensures from <= to
    ensures forall call :: call in calls ==> from <= call.time <= to
  {
    if calls != [] {
      OrderedEnds(calls[1..], calls[0].time, to);
    }
  }

  /** Within such bounds the lazy bucket is the per-second bucket, on every run. */
  lemma BoundedRunsArePerSecond(b: Bucket, calls: seq<Timed>, from: nat, to: nat, c: nat)
    requires Valid(b, from) && Ordered(calls, from, to)
    requires RoomUntil(b, c, to) && CapsWithin(calls, c)
    ensures Results(b, calls) == SimpleResults(Seen(b, from), calls, from, to)
    ensures Valid(Run(b, calls), to) && Seen(Run(b, calls), to) == SimpleRun(Seen(b, from), calls, from, to)
  {
    BoundedRunsNeverOverflow(b, calls, from, to, c);
    LazyRefinesPerSecond(b, calls, from, to);
  }

  // ---------- storing the buffer without using it ----------

  /** The bucket after `_updateBufferStored`. When the buffer is at its cap this is also what
      `_replenishBuffer` would store if it did not return early. */
  function Refreshed(b: Bucket, now: nat): Bucket
    requires b.lastUsed <= now
  {
    b.(stored := Level(b, now), lastUsed := now)
  }

  /** The early return and the extra update, in terms of calls. */
  lemma RefreshedByCalls(b: Bucket, amount: nat, now: nat)
    requires Valid(b, now) && !Overflows(b, now)
    ensures After(b, At(now, Touch)) == Refreshed(b, now)
    ensures Level(b, now) == b.cap ==>
              && ReplenishBuffer(b, amount, now) == Ok(b)
              && Refreshed(b, now) == b.(stored := b.cap, lastUsed := now)
  {
    BufferIsLevel(b, now);
  }

  /** At any later time the two buckets stand at the same level, and `buffer()` answers the same
      for both unless it overflows for the old bucket only. That happens in exactly one window:
      the clipped level plus the accrual still fits a word, the unclipped sum does not. */
  lemma RefreshObservableExactly(b: Bucket, now: nat, later: nat)
    requires b.lastUsed <= now <= later
    ensures var c := Refreshed(b, now);
            && Seen(b, later) == Seen(c, later)
            && (Overflows(c, later) ==> Overflows(b, later))
            && (Buffer(b, later) == Buffer(c, later) <==> (Overflows(b, later) ==> Overflows(c, later)))
            && (Buffer(b, later) == Buffer(c, later) <==>
                !(Level(b, now) + b.rate * (later - now) < U256
                  <= b.stored + b.rate * (now - b.lastUsed) + b.rate * (later - now)))
  {
    var c := Refreshed(b, now);
    LevelLater(b, now, later);
    LevelLater(c, now, later);
    BufferIsLevel(b, later);
    BufferIsLevel(c, later);
  }

  /** The window is real: after an early return `buffer()` fails where it would have answered had
      the full buffer been stored, and a depletion fails with it. An extra update at the time of
      the early return makes the difference. */
  lemma EarlyReturnObservable()
    ensures var b := Full(1, 1, U256 - 11, false, 0);
            var c := b.(stored := b.cap, lastUsed := 5);
            && ReplenishBuffer(b, 1, 5) == Ok(b)
            && UpdateBufferStored(b, 5) == Ok(c)
            && Buffer(b, 12) == Revert(Panic) && Buffer(c, 12) == Ok(b.cap)
            && DepleteBuffer(b, 1, 12).Revert? && DepleteBuffer(c, 1, 12).Ok?
  {
  }

  /** Within bounds known beforehand nobody can tell the difference, on any later run. */
  lemma RefreshUnobservable(b: Bucket, now: nat, calls: seq<Timed>, to: nat, c: nat)
    requires Valid(b, now) && Ordered(calls, now, to)
    requires RoomUntil(b, c, to) && CapsWithin(calls, c)
    ensures Results(b, calls) == Results(Refreshed(b, now), calls)
  {
    OrderedEnds(calls, now, to);
    RoomIsEnough(b, c, now, to);
    RefreshedByCalls(b, 0, now);
    StepKeepsRoom(b, Touch, now, c, to);
    RefreshObservableExactly(b, now, now);
    BoundedRunsArePerSecond(b, calls, now, to, c);
    BoundedRunsArePerSecond(Refreshed(b, now), calls, now, to, c);
  }

  // ---------- the rate limit ----------

  /** One call pays for what it uses out of the buffer. */
  lemma StepPays(b: Bucket, a: Action, now: nat)
    requires Valid(b, now)
    ensures var c := After(b, At(now, a));
            var used := Used(b, At(now, a));
            && Valid(c, now) && c.maxRate == b.maxRate
            && (if used.Ok? then used.value else 0) + Level(c, now)
               <= Level(b, now) + if a.Replenish? && used.Ok? then a.amount else 0
  {
    StepIsSimple(b, a, now);
    BufferIsLevel(b, now);
  }

  lemma WaitingGains(b: Bucket, t: nat, u: nat)
    requires Valid(b, t) && t <= u
    ensures Level(b, u) <= Level(b, t) + b.maxRate * (u - t)
  {
    LevelLater(b, t, u);
    MulLe(b.rate, b.maxRate, u - t);
  }

  lemma SplitTime(rate: nat, from: nat, t: nat, to: nat)
    requires from <= t <= to
    ensures rate * (to - from) == rate * (t - from) + rate * (to - t)
  {
    assert to - from == (t - from) + (to - t);
  }

  /** The rate limit over any run: what is used between `from` and `to`, plus what is still
      available at the end, is at most what was available at the start, plus the maximum rate
      for every second, plus what was put back. Governance may change rate and cap meanwhile. */
  lemma {:induction false} RateLimitHolds(b: Bucket, calls: seq<Timed>, from: nat, to: nat)
    requires Valid(b, from) && Ordered(calls, from, to)
    ensures |Results(b, calls)| == |calls| && from <= to && Valid(Run(b, calls), to)
    ensures TotalUsed(Results(b, calls)) + Level(Run(b, calls), to)
         <= Level(b, from) + b.maxRate * (to - from) + TotalReplenished(calls, Results(b, calls))
    decreases |calls|
  {
    if calls == [] {
      WaitingGains(b, from, to);
    } else {
      var t := calls[0].time;
      var c := After(b, calls[0]);
      WaitingGains(b, from, t);
      StepPays(b, calls[0].action, t);
      RateLimitHolds(c, calls[1..], t, to);
      SplitTime(b.maxRate, from, t, to);
      assert Results(b, calls)[1..] == Results(c, calls[1..]);
    }
  }

}
