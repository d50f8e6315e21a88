/** The packed `RateLimitedV2` contract, and the proof that packing and casting are invisible:
    until its 32-bit clock runs out it behaves like `RateLimited` without partial actions. */
module RateLimitedV2 {
  import opened Evm
  import B = TokenBucket

  datatype Packed = Packed(
    maxRate: nat,
    rate: nat,
    cap: nat,
    lastUsed: nat,
    stored: nat)

  function ToUint32(n: nat): Result<nat> {
    if n < U32 then Ok(n) else Revert(CastOverflow)
  }

  function ToUint224(n: nat): Result<nat> {
    if n < U224 then Ok(n) else Revert(CastOverflow)
  }

  /** The slots hold `uint128`, `uint128`, `uint32` and `uint224` values. */
  predicate Fits(p: Packed) {
    p.rate < U128 && p.cap < U128 && p.lastUsed < U32 && p.stored < U224
  }

  // ---------- one call ----------

  function Buffer(p: Packed, now: nat): Result<nat> {
    var now32 :- ToUint32(now);
    var _ :- Require(p.lastUsed <= now32, Panic);
    var accrued :- CheckedMul(p.rate, now32 - p.lastUsed);
    var total :- CheckedAdd(p.stored, accrued);
    Ok(Min(total, p.cap))
  }

  function UpdateBufferStored(p: Packed, now: nat): Result<Packed> {
    var buffer :- Buffer(p, now);
    var stored :- ToUint224(buffer);
    var now32 :- ToUint32(now);
    Ok(p.(stored := stored, lastUsed := now32))
  }

  function DepleteBuffer(p: Packed, amount: nat, now: nat): Result<Packed> {
    var buffer :- Buffer(p, now);
    var _ :- Require(buffer != 0, NoBuffer);
    var _ :- Require(amount <= buffer, RateLimitHit);
    var stored :- ToUint224(buffer - amount);
    var now32 :- ToUint32(now);
    Ok(p.(stored := stored, lastUsed := now32))
  }

  function ReplenishBuffer(p: Packed, amount: nat, now: nat): Result<Packed> {
    var buffer :- Buffer(p, now);
    if buffer == p.cap then
      Ok(p)
    else
      var now32 :- ToUint32(now);
      var total :- CheckedAdd(buffer, amount);
      var stored :- ToUint224(Min(total, p.cap));
      Ok(p.(stored := stored, lastUsed := now32))
  }

  function SetRateLimit(p: Packed, authorized: bool, newRate: nat, now: nat): Result<Packed> {
    var _ :- Require(authorized, Unauthorized);
    var _ :- Require(newRate <= p.maxRate, RateTooHigh);
    var updated :- UpdateBufferStored(p, now);
    Ok(updated.(rate := newRate))
  }

  function SetBufferCap(p: Packed, authorized: bool, newCap: nat, now: nat): Result<Packed> {
    var _ :- Require(authorized, Unauthorized);
    var updated :- UpdateBufferStored(p, now);
    Ok(updated.(cap := newCap))
  }

  function Step(p: Packed, a: B.Action, now: nat): Result<Packed> {
    match a
    case Deplete(amount) => DepleteBuffer(p, amount, now)
    case Replenish(amount) => ReplenishBuffer(p, amount, now)
    case SetRate(authorized, newRate) => SetRateLimit(p, authorized, newRate, now)
    case SetCap(authorized, newCap) => SetBufferCap(p, authorized, newCap, now)
    case Touch => UpdateBufferStored(p, now)
  }

  function Full(maxRate: nat, rate: nat, cap: nat, now: nat): Result<Packed> {
    var now32 :- ToUint32(now);
    var _ :- Require(rate <= maxRate, RateTooHigh);
    Ok(Packed(maxRate, rate, cap, now32, cap))
  }

  // ---------- whole runs ----------

  function After(p: Packed, c: B.Timed): Packed {
    match Step(p, c.action, c.time)
    case Ok(q) => q
    case Revert(_) => p
  }

  function Run(p: Packed, calls: seq<B.Timed>): Packed
    decreases |calls|
  {
    if calls == [] then p else Run(After(p, calls[0]), calls[1..])
  }

  /** A depletion that succeeds uses the whole amount. */
  function Used(p: Packed, c: B.Timed): Result<nat> {
    match Step(p, c.action, c.time)
    case Ok(_) => Ok(if c.action.Deplete? then c.action.amount else 0)
    case Revert(e) => Revert(e)
  }

  function Results(p: Packed, calls: seq<B.Timed>): seq<Result<nat>>
    decreases |calls|
  {
    if calls == [] then [] else [Used(p, calls[0])] + Results(After(p, calls[0]), calls[1..])
  }

  // ---------- V2 and V1 are bisimilar ----------

  function Unpacked(p: Packed): B.Bucket {
    B.Bucket(p.maxRate, p.rate, p.cap, p.stored, p.lastUsed, false)
  }

  /** The setters take `uint128` arguments. */
  predicate Typed(a: B.Action) {
    match a
    case SetRate(_, newRate) => newRate < U128
    case SetCap(_, newCap) => newCap < U128
    case _ => true
  }

  predicate AllTyped(calls: seq<B.Timed>) {
    forall c :: c in calls ==> Typed(c.action)
  }

  lemma MulBelow(x: nat, y: nat, m: nat, n: nat)
    requires x < m && y < n
    ensures 0 <= x * y <= m * n
  {
    assert x * y <= m * y <= m * n;
  }

  /** 128-bit rates over 32-bit times stay far below a word. */
  lemma NeverOverflows(p: Packed, now: nat)
    requires Fits(p) && p.lastUsed <= now < U32
    ensures !B.Overflows(Unpacked(p), now)
    ensures Buffer(p, now) == B.Buffer(Unpacked(p), now) == Ok(B.Level(Unpacked(p), now))
  {
    MulBelow(p.rate, now - p.lastUsed, U128, U32);
    B.BufferIsLevel(Unpacked(p), now);
  }

  lemma StepIsV1(p: Packed, a: B.Action, now: nat)
    requires Fits(p) && p.lastUsed <= now < U32 && Typed(a)
    ensures var c := B.At(now, a);
            && Fits(After(p, c)) && After(p, c).lastUsed <= now
            && Unpacked(After(p, c)) == B.After(Unpacked(p), c)
            && Used(p, c) == B.Used(Unpacked(p), c)
  {
    NeverOverflows(p, now);
  }

  /** On every run before time 2^32, V2 gives each caller the answer V1 gives, ends in the same
      state as V1, and never fails for lack of width. */
  lemma {:induction false} BisimilarToV1(p: Packed, calls: seq<B.Timed>, from: nat, to: nat)
    requires Fits(p) && p.lastUsed <= from && to < U32
    requires B.Ordered(calls, from, to) && AllTyped(calls)
    ensures Results(p, calls) == B.Results(Unpacked(p), calls)
    ensures Unpacked(Run(p, calls)) == B.Run(Unpacked(p), calls)
    ensures Fits(Run(p, calls)) && Run(p, calls).lastUsed <= to
    ensures Buffer(Run(p, calls), to) == Ok(B.Level(Unpacked(Run(p, calls)), to))
    decreases |calls|
  {
    if calls == [] {
      NeverOverflows(p, to);
    } else {
      B.OrderedEnds(calls, from, to);
      StepIsV1(p, calls[0].action, calls[0].time);
      BisimilarToV1(After(p, calls[0]), calls[1..], calls[0].time, to);
    }
  }

  /** The packed limiter is free of the overflow: returning early at the cap cannot be told, by
      any reading of its clock, from storing a full buffer. */
  lemma EarlyReturnUnobservable(p: Packed, now: nat, later: nat)
    requires Fits(p) && p.lastUsed <= now <= later < U32
    requires Buffer(p, now) == Ok(p.cap)
    ensures Buffer(p, later) == Buffer(p.(stored := p.cap, lastUsed := now), later)
  {
    var q := p.(stored := p.cap, lastUsed := now);
    NeverOverflows(p, now);
    NeverOverflows(p, later);
    NeverOverflows(q, later);
    B.RefreshObservableExactly(Unpacked(p), now, later);
  }

  /** Within its clock the packed limiter is the per-second bucket, with no further condition. */
  lemma RunIsPerSecond(p: Packed, calls: seq<B.Timed>, from: nat, to: nat)
    requires Fits(p) && p.rate <= p.maxRate && p.lastUsed <= from && to < U32
    requires B.Ordered(calls, from, to) && AllTyped(calls)
    ensures Results(p, calls) == B.SimpleResults(B.Seen(Unpacked(p), from), calls, from, to)
    ensures Buffer(Run(p, calls), to) == Ok(B.SimpleRun(B.Seen(Unpacked(p), from), calls, from, to).level)
  {
    BisimilarToV1(p, calls, from, to);
    NeverOverflows(Run(p, calls), to);
    B.LazyRefinesPerSecond(Unpacked(p), calls, from, to);
  }

  /** Nor can it be told on any later run: every caller gets the same result. */
  lemma EarlyReturnUnobservableInRuns(p: Packed, now: nat, calls: seq<B.Timed>, to: nat)
    requires Fits(p) && p.rate <= p.maxRate && p.lastUsed <= now && to < U32
    requires B.Ordered(calls, now, to) && AllTyped(calls)
    requires Buffer(p, now) == Ok(p.cap)
    ensures var q := p.(stored := p.cap, lastUsed := now);
            && Results(p, calls) == Results(q, calls)
            && Buffer(Run(p, calls), to) == Buffer(Run(q, calls), to)
  {
    B.OrderedEnds(calls, now, to);
    NeverOverflows(p, now);
    B.RefreshObservableExactly(Unpacked(p), now, now);
    RunIsPerSecond(p, calls, now, to);
    RunIsPerSecond(p.(stored := p.cap, lastUsed := now), calls, now, to);
  }

  /** Therefore V2 inherits the rate limit. */
  lemma RateLimitHolds(p: Packed, calls: seq<B.Timed>, from: nat, to: nat)
    requires Fits(p) && p.rate <= p.maxRate && p.lastUsed <= from && to < U32
    requires B.Ordered(calls, from, to) && AllTyped(calls)
    ensures |Results(p, calls)| == |calls| && from <= to && Run(p, calls).lastUsed <= to
    ensures B.TotalUsed(Results(p, calls)) + B.Level(Unpacked(Run(p, calls)), to)
         <= B.Level(Unpacked(p), from) + p.maxRate * (to - from) + B.TotalReplenished(calls, Results(p, calls))
  {
    BisimilarToV1(p, calls, from, to);
    B.RateLimitHolds(Unpacked(p), calls, from, to);
  }

  /** From time 2^32 on, and only then, the clock cast fails: every call reverts, while V1 goes on. */
  lemma ClockRunsOut(p: Packed, a: B.Action, now: nat)
    requires Fits(p) && p.lastUsed <= now
    ensures Buffer(p, now).Ok? <==> now < U32
    ensures now >= U32 ==> Step(p, a, now).Revert?
  {
    if now < U32 {
      NeverOverflows(p, now);
    }
  }

  // ---------- deployment ----------

  /** A limiter can be deployed exactly while the time fits 32 bits and with a rate up to the
      maximum. It then stays full until it is used, and its rate can be set up to the maximum. */
  lemma DeployedFull(maxRate: nat, rate: nat, cap: nat, start: nat, authorized: bool, newRate: nat, now: nat)
    requires rate < U128 && cap < U128
    ensures Full(maxRate, rate, cap, start).Ok? <==> start < 0x1_0000_0000 && rate <= maxRate
    ensures rate <= maxRate && start <= now < 0x1_0000_0000 ==>
              var p := Full(maxRate, rate, cap, start).value;
              && Fits(p) && Buffer(p, now) == Ok(cap)
              && (SetRateLimit(p, authorized, newRate, now).Ok? <==> authorized && newRate <= maxRate)
  {
    if rate <= maxRate && start <= now < U32 {
      NeverOverflows(Full(maxRate, rate, cap, start).value, now);
      B.NewBucketIsFull(maxRate, rate, cap, false, start, authorized, newRate, now);
    }
  }

  /** The first use takes the whole amount, which is at most the cap. From then on the buffer grows
      by the rate every second, up to the cap. */
  lemma FirstUse(maxRate: nat, rate: nat, cap: nat, start: nat, amount: nat, now: nat, later: nat)
    requires rate <= maxRate && rate < U128 && cap < U128 && start <= now <= later < 0x1_0000_0000
    ensures var r := DepleteBuffer(Full(maxRate, rate, cap, start).value, amount, now);
            && (r.Ok? <==> 0 < cap && amount <= cap)
            && (r.Ok? ==> Buffer(r.value, later) == Ok(Min(cap - amount + rate * (later - now), cap)))
  {
    var p := Full(maxRate, rate, cap, start).value;
    NeverOverflows(p, now);
    StepIsV1(p, B.Deplete(amount), now);
    B.FirstUse(maxRate, rate, cap, false, start, amount, now, later);
    if 0 < cap && amount <= cap {
      NeverOverflows(After(p, B.At(now, B.Deplete(amount))), later);
    }
  }

  class RateLimitedV2 {
    const maxRateLimitPerSecond: nat
    var rateLimitPerSecond: nat
    var bufferCap: nat
    var lastBufferUsedTime: nat
    var bufferStored: nat

    function View(): Packed
      reads this
    {
      Packed(maxRateLimitPerSecond, rateLimitPerSecond, bufferCap, lastBufferUsedTime, bufferStored)
    }

    constructor (maxRate: nat, rate: nat, cap: nat, now: nat)
      requires rate < U128 && cap < U128
      requires rate <= maxRate && now < U32
      ensures Full(maxRate, rate, cap, now) == Ok(View())
      ensures Fits(View())
    {
      lastBufferUsedTime := now;
      bufferCap := cap;
      bufferStored := cap;
      rateLimitPerSecond := rate;
      maxRateLimitPerSecond := maxRate;
    }

    ghost predicate Did(r: Result<()>, before: Packed, expected: Result<Packed>)
      reads this
    {
      match expected
      case Ok(p) => r == Ok(()) && View() == p
      case Revert(e) => r == Revert(e) && View() == before
    }

    function CurrentBuffer(now: nat): Result<nat>
      reads this
    {
      Buffer(View(), now)
    }

    method UpdateStored(now: nat) returns (r: Result<()>)
      modifies this
      ensures Did(r, old(View()), UpdateBufferStored(old(View()), now))
    {
      var buffer := CurrentBuffer(now);
      if buffer.Revert? {
        return Revert(buffer.error);
      }
      var newBufferStored := ToUint224(buffer.value);
      if newBufferStored.Revert? {
        return Revert(newBufferStored.error);
      }
      bufferStored, lastBufferUsedTime := newBufferStored.value, now;
      return Ok(());
    }

    method SetRateLimitPerSecond(authorized: bool, newRate: nat, now: nat) returns (r: Result<()>)
      modifies this
      ensures Did(r, old(View()), SetRateLimit(old(View()), authorized, newRate, now))
    {
      if !authorized {
        return Revert(Unauthorized);
      }
      if newRate > maxRateLimitPerSecond {
        return Revert(RateTooHigh);
      }
      r := UpdateStored(now);
      if r.Ok? {
        rateLimitPerSecond := newRate;
      }
    }

    method SetCap(authorized: bool, newCap: nat, now: nat) returns (r: Result<()>)
      modifies this
      ensures Did(r, old(View()), SetBufferCap(old(View()), authorized, newCap, now))
    {
      if !authorized {
        return Revert(Unauthorized);
      }
      r := UpdateStored(now);
      if r.Ok? {
        bufferCap := newCap;
      }
    }

    method Deplete(amount: nat, now: nat) returns (r: Result<()>)
      modifies this
      ensures Did(r, old(View()), DepleteBuffer(old(View()), amount, now))
    {
      var buffer := CurrentBuffer(now);
      if buffer.Revert? {
        return Revert(buffer.error);
      }
      if buffer.value == 0 {
        return Revert(NoBuffer);
      }
      if amount > buffer.value {
        return Revert(RateLimitHit);
      }
      var stored := ToUint224(buffer.value - amount);
      if stored.Revert? {
        return Revert(stored.error);
      }
      bufferStored := stored.value;
      lastBufferUsedTime := now;
      return Ok(());
    }

    method Replenish(amount: nat, now: nat) returns (r: Result<()>)
      modifies this
      ensures Did(r, old(View()), ReplenishBuffer(old(View()), amount, now))
    {
      var buffer := CurrentBuffer(now);
      if buffer.Revert? {
        return Revert(buffer.error);
      }
      if buffer.value == bufferCap {
        return Ok(());
      }
      var savedTime := lastBufferUsedTime;
      lastBufferUsedTime := now;
      if buffer.value + amount >= U256 {
        lastBufferUsedTime := savedTime;
        return Revert(Panic);
      }
      var stored := ToUint224(Min(buffer.value + amount, bufferCap));
      if stored.Revert? {
        lastBufferUsedTime := savedTime;
        return Revert(stored.error);
      }
      bufferStored := stored.value;
      return Ok(());
    }
  }
}
