/** The bandwidth limiter of src/p2p/transfer.cpp.  Time is counted in ticks of
    the steady clock. */
module Bandwidth {
  import opened Base

  const SECOND: nat := 1_000_000_000

  datatype Limiter = Limiter(max: nat, available: int, lastReset: nat)

  function New(max: nat, now: nat): Limiter {
    Limiter(max, max, now)
  }

  /** Bytes per millisecond-thousandth the source divides by. */
  function Rate(max: nat): (r: nat)
    ensures r >= 1
  {
    Max(max / 1024, 1)
  }

  function Refill(l: Limiter, now: nat): Limiter {
    if now - l.lastReset >= SECOND then l.(available := l.max, lastReset := now) else l
  }

  /** The critical section of `acquire`: the limiter afterwards and the
      milliseconds to sleep. */
  function Grant(l: Limiter, bytes: nat, now: nat): (Limiter, nat)
    requires l.available >= 0
  {
    if l.max == 0 then (l, 0)
    else
      var f := Refill(l, now);
      if f.available >= bytes then (f.(available := f.available - bytes), 0)
      else (f.(available := 0), (bytes - f.available) * 1000 / Rate(l.max))
  }

  class BandwidthLimiter {
    var max: nat
    var available: int
    var lastReset: nat

    ghost function Abs(): Limiter
      reads this
    {
      Limiter(max, available, lastReset)
    }

    constructor (mbps: nat, now: nat)
      ensures Abs() == New(mbps * 1024 * 1024 / 8, now)
    {
      max := mbps * 1024 * 1024 / 8;
      available := mbps * 1024 * 1024 / 8;
      lastReset := now;
    }

    method Acquire(bytes: nat, now: nat) returns (wait: nat)
      requires available >= 0
      modifies this
      ensures (Abs(), wait) == Grant(old(Abs()), bytes, now) && available >= 0
    {
      wait := 0;
      if max == 0 {
        return;
      }
      var elapsed := if now >= lastReset then (now - lastReset) / SECOND else 0;
      if elapsed >= 1 {
        available, lastReset := max, now;
      }
      if available >= bytes {
        available := available - bytes;
        return;
      }
      wait := (bytes - available) * 1000 / Max(max / 1024, 1);
      available := 0;
    }
  }

  // ----------------------------------------------------------------------- runs

  datatype Call = Call(bytes: nat, now: nat)

  /** A limiter and the totals of the calls it has served. */
  datatype Meter = Meter(limiter: Limiter, calls: nat, granted: nat, waited: nat)

  function Serve(m: Meter, c: Call): Meter
    requires m.limiter.available >= 0
  {
    var (l, wait) := Grant(m.limiter, c.bytes, c.now);
    Meter(l, m.calls + 1, m.granted + c.bytes, m.waited + wait)
  }

  /** Thousandths of bytes that `n` refills after the first budget allow. */
  ghost function Budget(max: nat, n: nat): nat {
    1000 * max * (1 + n)
  }

  /** Thousandths of bytes that `n` milliseconds of waiting pay for. */
  ghost function Paid(n: nat, rate: nat): nat {
    n * rate
  }

  /** `resets` refills so far, at least a second apart from `start` on. */
  ghost predicate Bounded(m: Meter, start: nat, resets: nat) {
    var l := m.limiter;
    && 0 <= l.available <= l.max && l.max > 0
    && start + resets * SECOND <= l.lastReset
    && 1000 * (m.granted + l.available) <= Budget(l.max, resets) + Paid(m.waited + m.calls, Rate(l.max))
  }

  /** The rounded wait covers the shortfall to within one millisecond's worth. */
  lemma WaitCovers(short: nat, rate: nat)
    requires rate >= 1
    ensures 1000 * short <= Paid(short * 1000 / rate + 1, rate)
  {
    var q := short * 1000 / rate;
    assert short * 1000 == q * rate + short * 1000 % rate;
    assert (q + 1) * rate == q * rate + rate;
  }

  lemma PaidAdds(a: nat, b: nat, r: nat)
    ensures Paid(a + b, r) == Paid(a, r) + Paid(b, r)
  {
  }

  lemma BudgetGrows(max: nat, n: nat, m: nat)
    requires n <= m
    ensures Budget(max, n) <= Budget(max, m)
    ensures m == n + 1 ==> Budget(max, m) == Budget(max, n) + 1000 * max
  {
    PaidAdds(1 + n, m - n, 1000 * max);
  }

  lemma ServeKeeps(m: Meter, start: nat, resets: nat, c: Call) returns (resets': nat)
    requires Bounded(m, start, resets)
    ensures Bounded(Serve(m, c), start, resets')
    ensures Serve(m, c).limiter.max == m.limiter.max
    ensures Serve(m, c).limiter.lastReset == if c.now - m.limiter.lastReset >= SECOND then c.now else m.limiter.lastReset
  {
    hide Rate, Budget, Paid;
    var l := m.limiter;
    var rate := Rate(l.max);
    var z := Serve(m, c);
    var refills := c.now - l.lastReset >= SECOND;
    resets' := if refills then resets + 1 else resets;
    BudgetGrows(l.max, resets, resets');
    var f := Refill(l, c.now);
    var short := if f.available >= c.bytes then 0 else c.bytes - f.available;
    var wait := z.waited - m.waited;
    assert wait == short * 1000 / rate by { ZeroOver(rate); }
    WaitCovers(short, rate);
    PaidAdds(m.waited + m.calls, wait + 1, rate);
  }

  lemma ZeroOver(rate: nat)
    requires rate >= 1
    ensures 0 * 1000 / rate == 0
  {
  }

  /** Served in order, from the first call to the last. */
  ghost function ServeAll(m: Meter, calls: seq<Call>): Meter
    requires m.limiter.available >= 0
    decreases |calls|
  {
    if calls == [] then m
    else
      GrantNonNegative(m.limiter, calls[0].bytes, calls[0].now);
      ServeAll(Serve(m, calls[0]), calls[1..])
  }

  lemma GrantNonNegative(l: Limiter, bytes: nat, now: nat)
    requires l.available >= 0
    ensures Grant(l, bytes, now).0.available >= 0
  {
  }

  lemma {:induction false} ServeAllKeeps(m: Meter, start: nat, resets: nat, calls: seq<Call>, end: nat) returns (resets': nat)
    requires Bounded(m, start, resets) && m.limiter.lastReset <= end
    requires forall i :: 0 <= i < |calls| ==> calls[i].now <= end
    ensures Bounded(ServeAll(m, calls), start, resets') && ServeAll(m, calls).limiter.lastReset <= end
    ensures ServeAll(m, calls).limiter.max == m.limiter.max
    decreases |calls|
  {
    if calls == [] {
      resets' := resets;
    } else {
      var r := ServeKeeps(m, start, resets, calls[0]);
      hide Bounded;
      resets' := ServeAllKeeps(Serve(m, calls[0]), start, r, calls[1..], end);
    }
  }

  /** The throttle bound.  For any interleaving of N calls within T whole seconds
      with W milliseconds of assigned waiting in total, the bytes granted are at
      most M * (1 + T) + (W + N) * rate / 1000, and the budget never exceeds M. */
  lemma ThrottleBound(max: nat, start: nat, calls: seq<Call>, end: nat)
    requires max > 0 && start <= end && forall i :: 0 <= i < |calls| ==> calls[i].now <= end
    ensures var z := ServeAll(Meter(New(max, start), 0, 0, 0), calls);
            var seconds := (end - start) / SECOND;
            && 1000 * z.granted <= 1000 * max * (1 + seconds) + (z.waited + z.calls) * Rate(max)
            && 0 <= z.limiter.available <= max
            && z.calls == |calls| && z.granted == TotalBytes(calls)
  {
    var m := Meter(New(max, start), 0, 0, 0);
    assert Budget(max, 0) == 1000 * max;
    assert Paid(0, Rate(max)) == 0;
    var resets := ServeAllKeeps(m, start, 0, calls, end);
    var seconds := (end - start) / SECOND;
    var z := ServeAll(m, calls);
    assert Budget(max, seconds) == 1000 * max * (1 + seconds);
    assert Paid(z.waited + z.calls, Rate(max)) == (z.waited + z.calls) * Rate(max);
    hide Rate, Budget, Paid;
    BudgetGrows(max, resets, seconds);
    ServeAllTotals(m, calls);
  }

  lemma {:induction false} ServeAllTotals(m: Meter, calls: seq<Call>)
    requires m.limiter.available >= 0
    ensures ServeAll(m, calls).calls == m.calls + |calls|
    ensures ServeAll(m, calls).granted == m.granted + TotalBytes(calls)
    decreases |calls|
  {
    if calls != [] {
      GrantNonNegative(m.limiter, calls[0].bytes, calls[0].now);
      hide Grant;
      ServeAllTotals(Serve(m, calls[0]), calls[1..]);
    }
  }

  function TotalBytes(calls: seq<Call>): nat {
    if calls == [] then 0 else calls[0].bytes + TotalBytes(calls[1..])
  }

  /** What one call gets: the whole limit again once a second has passed, else what is
      left.  A call within that budget does not wait; any other waits for the bytes
      missing, in whole milliseconds at the rate, rounded down, and leaves nothing. */
  lemma WaitIs(l: Limiter, bytes: nat, now: nat)
    requires 0 <= l.available <= l.max && l.max > 0
    ensures var refilled := now >= l.lastReset + 1_000_000_000;
            var budget := if refilled then l.max else l.available;
            var rate := if l.max >= 1024 then l.max / 1024 else 1;
            var (z, wait) := Grant(l, bytes, now);
            && z.max == l.max && z.lastReset == (if refilled then now else l.lastReset)
            && (bytes <= budget ==> wait == 0 && z.available == budget - bytes)
            && (bytes > budget ==> z.available == 0 && wait * rate <= (bytes - budget) * 1000 < (wait + 1) * rate)
  {
    var rate := Rate(l.max);
    var budget := if now >= l.lastReset + 1_000_000_000 then l.max else l.available;
    if bytes > budget {
      Quotient((bytes - budget) * 1000, rate);
    }
  }

  lemma Quotient(x: nat, r: nat)
    requires r > 0
    ensures (x / r) * r <= x < (x / r + 1) * r
  {
  }

  /** Without a limit nobody waits. */
  lemma UnlimitedNeverWaits(l: Limiter, bytes: nat, now: nat)
    requires l.max == 0 && l.available >= 0
    ensures Grant(l, bytes, now) == (l, 0)
  {
  }
}
