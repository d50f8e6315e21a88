/** The `RateLimited` contract: its fields updated in place, call by call as `TokenBucket` says. */
module RateLimited {
  import opened Evm
  import opened TokenBucket

  class RateLimited {
    const maxRateLimitPerSecond: nat
    var rateLimitPerSecond: nat
    var lastBufferUsedTime: nat
    var bufferCap: nat
    var doPartialAction: bool
    var bufferStored: nat

    function View(): Bucket
      reads this
    {
      Bucket(maxRateLimitPerSecond, rateLimitPerSecond, bufferCap, bufferStored, lastBufferUsedTime, doPartialAction)
    }

    /** A bucket of the wrong rate cannot be deployed. */
    constructor (maxRate: nat, rate: nat, cap: nat, partialAction: bool, now: nat)
      requires rate <= maxRate
      ensures View() == Full(maxRate, rate, cap, partialAction, now)
      ensures Valid(View(), now)
    {
      lastBufferUsedTime := now;
      bufferCap := cap;
      bufferStored := cap;
      rateLimitPerSecond := rate;
      maxRateLimitPerSecond := maxRate;
      doPartialAction := partialAction;
    }

    /** What an internal step leaves behind: the specified bucket, or the old one and the error. */
    ghost predicate Did(r: Result<()>, before: Bucket, expected: Result<Bucket>)
      reads this
    {
      match expected
      case Ok(b) => r == Ok(()) && View() == b
      case Revert(e) => r == Revert(e) && View() == before
    }

    /** What the runtime does when a call that used the buffer reverts. */
    method Restore(saved: Bucket)
      requires saved.maxRate == maxRateLimitPerSecond
      modifies this
      ensures View() == saved
    {
      rateLimitPerSecond, lastBufferUsedTime := saved.rate, saved.lastUsed;
      bufferCap, bufferStored, doPartialAction := saved.cap, saved.stored, saved.partialAction;
    }

    function CurrentBuffer(now: nat): Result<nat>
      reads this
    {
      Buffer(View(), now)
    }

    method UpdateStored(now: nat) returns (r: Result<()>)
      modifies this
      ensures Did(r, old(View()), UpdateBufferStored(old(View()), now))
    {
      var buffer := CurrentBuffer(now);
      if buffer.Revert? {
        return Revert(buffer.error);
      }
      bufferStored := buffer.value;
      lastBufferUsedTime := now;
      return Ok(());
    }

    method SetRateLimitPerSecond(authorized: bool, newRate: nat, now: nat) returns (r: Result<()>)
      modifies this
      ensures Did(r, old(View()), SetRateLimit(old(View()), authorized, newRate, now))
    {
      if !authorized {
        return Revert(Unauthorized);
      }
      if newRate > maxRateLimitPerSecond {
        return Revert(RateTooHigh);
      }
      r := UpdateStored(now);
      if r.Ok? {
        rateLimitPerSecond := newRate;
      }
    }

    method SetCap(authorized: bool, newCap: nat, now: nat) returns (r: Result<()>)
      modifies this
      ensures Did(r, old(View()), SetBufferCap(old(View()), authorized, newCap, now))
    {
      if !authorized {
        return Revert(Unauthorized);
      }
      r := UpdateStored(now);
      if r.Ok? {
        bufferCap := newCap;
      }
    }

    method Deplete(amount: nat, now: nat) returns (r: Result<nat>)
      modifies this
      ensures match DepleteBuffer(old(View()), amount, now)
              case Ok(o) => r == Ok(o.used) && View() == o.bucket
              case Revert(e) => r == Revert(e) && View() == old(View())
    {
      var buffer := CurrentBuffer(now);
      if buffer.Revert? {
        return Revert(buffer.error);
      }
      var newBuffer := buffer.value;
      var usedAmount := amount;
      if doPartialAction && usedAmount > newBuffer {
        usedAmount := newBuffer;
      }
      if newBuffer == 0 {
        return Revert(NoBuffer);
      }
      if usedAmount > newBuffer {
        return Revert(RateLimitHit);
      }
      bufferStored := newBuffer - usedAmount;
      lastBufferUsedTime := now;
      return Ok(usedAmount);
    }

    method Replenish(amount: nat, now: nat) returns (r: Result<()>)
      modifies this
      ensures Did(r, old(View()), ReplenishBuffer(old(View()), amount, now))
    {
      var buffer := CurrentBuffer(now);
      if buffer.Revert? {
        return Revert(buffer.error);
      }
      var newBuffer := buffer.value;
      if newBuffer == bufferCap {
        return Ok(());
      }
      var savedTime := lastBufferUsedTime;
      lastBufferUsedTime := now;
      if newBuffer + amount >= U256 {
        lastBufferUsedTime := savedTime;
        return Revert(Panic);
      }
      bufferStored := Min(newBuffer + amount, bufferCap);
      return Ok(());
    }
  }
}
