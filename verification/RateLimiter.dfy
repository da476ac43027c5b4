/** The token bucket: fixed-point refill against an injected clock that may even run backwards. */
module RateLimiters {
  import opened Bytes
  import opened Wrappers

  const SCALE := 1_000_000
  const NANOS_PER_SEC := 1_000_000_000
  const U64_MAX := 0xFFFF_FFFF_FFFF_FFFF
  const U128_MAX := 0xFFFF_FFFF_FFFF_FFFF_FFFF_FFFF_FFFF_FFFF

  /** A bucket as a value; `lastRefill` is the latest clock reading it has seen. */
  datatype Bucket = Bucket(capacity: nat, rate: nat, available: nat, lastRefill: u64)

  ghost predicate WellFormed(b: Bucket) {
    && SCALE <= b.capacity < 0x1_0000_0000 * SCALE
    && SCALE <= b.rate < 0x1_0000_0000 * SCALE
    && b.available <= b.capacity
  }

  function Min(a: nat, b: nat): nat {
    if a <= b then a else b
  }

  /** Saturation at the top of 64 bits. */
  function Narrow(n: nat): nat {
    Min(n, U64_MAX)
  }

  /** What an elapsed time adds, before the ceiling: whole scaled units only. */
  function Added(rate: nat, elapsed: nat): nat {
    rate * elapsed / NANOS_PER_SEC
  }

  /** The bucket brought up to date; a clock that stands still or runs back changes nothing. */
  function Refill(b: Bucket, now: u64): Bucket {
    if now <= b.lastRefill then b
    else b.(available := Min(b.available + Added(b.rate, now - b.lastRefill), b.capacity), lastRefill := now)
  }

  /** The two calls a client makes, each with the clock reading it happens at. */
  datatype Call = Take(now: u64) | Look(now: u64)

  datatype Answer = Admitted(ok: bool) | Tokens(n: nat)

  /** A request is admitted exactly when a whole token is there; a look takes nothing but refills too. */
  function Serve(b: Bucket, call: Call): (Bucket, Answer) {
    var r := Refill(b, call.now);
    match call
    case Take(_) =>
      if r.available >= SCALE then (r.(available := r.available - SCALE), Admitted(true)) else (r, Admitted(false))
    case Look(_) => (r, Tokens(r.available / SCALE))
  }

  /** Any sequence of calls at arbitrary readings, and its answers. */
  function Run(b: Bucket, calls: seq<Call>): (Bucket, seq<Answer>) {
    if calls == [] then (b, [])
    else
      var (before, answers) := Run(b, calls[..|calls| - 1]);
      var (after, answer) := Serve(before, calls[|calls| - 1]);
      (after, answers + [answer])
  }

  function Admissions(answers: seq<Answer>): nat {
    if answers == [] then 0
    else Admissions(answers[..|answers| - 1]) + if answers[|answers| - 1] == Admitted(true) then 1 else 0
  }

  /** The latest of a starting time and the readings of some calls. */
  function Latest(start: u64, calls: seq<Call>): u64 {
    if calls == [] then start
    else
      var before := Latest(start, calls[..|calls| - 1]);
      if calls[|calls| - 1].now > before then calls[|calls| - 1].now else before
  }

  lemma {:induction false} RunKeepsShape(b: Bucket, calls: seq<Call>)
    requires WellFormed(b)
    ensures var (r, answers) := Run(b, calls);
            && WellFormed(r) && r.capacity == b.capacity && r.rate == b.rate
            && r.lastRefill == Latest(b.lastRefill, calls) && |answers| == |calls|
  {
    if calls != [] {
      RunKeepsShape(b, calls[..|calls| - 1]);
    }
  }

  lemma LatestGrows(start: u64, calls: seq<Call>)
    ensures Latest(start, calls) >= start
  {
  }

  lemma ShareAdds(rate: int, a: int, b: int)
    ensures rate * (a + b) == rate * a + rate * b
  {
  }

  /** Calls whose reading moved the clock on. */
  function Advances(start: u64, calls: seq<Call>): nat {
    if calls == [] then 0
    else
      var init := calls[..|calls| - 1];
      Advances(start, init) + if calls[|calls| - 1].now > Latest(start, init) then 1 else 0
  }

  /** What a single refill throws away because the bucket is full. */
  function SpilledBy(b: Bucket, now: u64): nat {
    if now <= b.lastRefill then 0
    else
      var topped := b.available + Added(b.rate, now - b.lastRefill);
      if topped > b.capacity then topped - b.capacity else 0
  }

  /** What a whole run throws away at the ceiling. */
  function Spilled(b: Bucket, calls: seq<Call>): nat {
    if calls == [] then 0
    else
      var init := calls[..|calls| - 1];
      Spilled(b, init) + SpilledBy(Run(b, init).0, calls[|calls| - 1].now)
  }

  /** What time has put in, in billionths of a scaled unit: the initial fill and the refill rate's share. */
  function Owed(b: Bucket, calls: seq<Call>): int {
    b.available * NANOS_PER_SEC + b.rate * (Latest(b.lastRefill, calls) - b.lastRefill)
  }

  /** What a run can show for it: tokens handed out, tokens left and tokens spilled. */
  function Accounted(b: Bucket, calls: seq<Call>): nat {
    var (r, answers) := Run(b, calls);
    Admissions(answers) * SCALE + r.available + Spilled(b, calls)
  }

  /** One call keeps the books: nothing is minted, and less than one scaled unit is rounded away. */
  lemma CallConserves(b: Bucket, call: Call)
    requires WellFormed(b)
    ensures var (r, answer) := Serve(b, call);
            var share := if call.now > b.lastRefill then b.rate * (call.now - b.lastRefill) else 0;
            var taken := if answer == Admitted(true) then SCALE else 0;
            var gained := r.available + taken + SpilledBy(b, call.now) - b.available;
            && gained * NANOS_PER_SEC <= share
            && share <= gained * NANOS_PER_SEC + (if call.now > b.lastRefill then NANOS_PER_SEC - 1 else 0)
  {
  }

  /**
   Conservation over any sequence of requests and looks, at readings that may run forwards or
   backwards: what was handed out, kept and spilled never exceeds what time put in, and falls short
   of it by less than one scaled unit for each call that moved the clock.
   */
  lemma {:induction false} Conservation(b: Bucket, calls: seq<Call>)
    requires WellFormed(b)
    ensures Accounted(b, calls) * NANOS_PER_SEC <= Owed(b, calls)
    ensures Owed(b, calls)
         <= Accounted(b, calls) * NANOS_PER_SEC + Advances(b.lastRefill, calls) * (NANOS_PER_SEC - 1)
  {
    hide Serve, SpilledBy, WellFormed;
    if calls != [] {
      var init, call := calls[..|calls| - 1], calls[|calls| - 1];
      Conservation(b, init);
      RunKeepsShape(b, init);
      var (before, answers) := Run(b, init);
      CallConserves(before, call);
      ShareAdds(b.rate, before.lastRefill - b.lastRefill, call.now - before.lastRefill);
      assert (answers + [Serve(before, call).1])[..|answers|] == answers;
    }
  }

  lemma FloorBound(x: int, share: nat)
    requires x * NANOS_PER_SEC <= share
    ensures x <= share / NANOS_PER_SEC
  {
  }

  /**
   The bound the limiter exists for, over any stretch of its life: at most one full bucket plus what
   the elapsed time refilled, whatever the calls and the order of their readings.
   */
  lemma NeverOverAdmits(b: Bucket, calls: seq<Call>)
    requires WellFormed(b)
    ensures Latest(b.lastRefill, calls) >= b.lastRefill
    ensures Admissions(Run(b, calls).1) * SCALE
         <= b.capacity + Added(b.rate, Latest(b.lastRefill, calls) - b.lastRefill)
  {
    hide Run, Spilled, Latest, Admissions;
    LatestGrows(b.lastRefill, calls);
    Conservation(b, calls);
    var elapsed: nat := Latest(b.lastRefill, calls) - b.lastRefill;
    ProductMonotone(0, 0, b.rate, elapsed);
    FloorBound(Accounted(b, calls) - b.available, b.rate * elapsed);
  }

  // ---- The limiter itself ------------------------------------------------------------------

  class RateLimiter {
    const capacityScaled: nat
    const refillScaledPerSec: nat
    var availableScaled: nat
    var lastRefillNanos: u64

    ghost function View(): Bucket
      reads this
    {
      Bucket(capacityScaled, refillScaledPerSec, availableScaled, lastRefillNanos)
    }

    /** Starts full; a zero capacity or rate is refused by `Create`. */
    constructor (capacity: u32, refillPerSec: u32, now: u64)
      requires capacity > 0 && refillPerSec > 0
      ensures WellFormed(View())
      ensures View() == Bucket(capacity * SCALE, refillPerSec * SCALE, capacity * SCALE, now)
    {
      capacityScaled := capacity * SCALE;
      refillScaledPerSec := refillPerSec * SCALE;
      availableScaled := capacity * SCALE;
      lastRefillNanos := now;
    }

    static method Create(capacity: u32, refillPerSec: u32, now: u64) returns (r: Option<RateLimiter>)
      ensures r.Some? <==> capacity > 0 && refillPerSec > 0
      ensures r.Some? ==> fresh(r.value) && WellFormed(r.value.View())
      ensures r.Some? ==>
                r.value.View() == Bucket(capacity * SCALE, refillPerSec * SCALE, capacity * SCALE, now)
    {
      if capacity == 0 || refillPerSec == 0 {
        return None;
      }
      var limiter := new RateLimiter(capacity, refillPerSec, now);
      r := Some(limiter);
    }

    /**
     As written, with its saturating arithmetic in 64 and 128 bits. The product stays within 128
     bits, and neither saturation can be told from the plain sum under the ceiling.
     */
    method RefillNow(now: u64)
      requires WellFormed(View())
      modifies this
      ensures WellFormed(View()) && View() == Refill(old(View()), now)
    {
      var elapsed := if now >= lastRefillNanos then now - lastRefillNanos else 0;
      if elapsed == 0 {
        return;
      }
      ProductFits(refillScaledPerSec, elapsed);
      var added := Narrow(Added(refillScaledPerSec, elapsed));
      hide Added;
      availableScaled := Min(Narrow(availableScaled + added), capacityScaled);
      lastRefillNanos := now;
    }

    method TryAcquire(now: u64) returns (ok: bool)
      requires WellFormed(View())
      modifies this
      ensures WellFormed(View()) && (View(), Admitted(ok)) == Serve(old(View()), Take(now))
    {
      RefillNow(now);
      if availableScaled >= SCALE {
        availableScaled := availableScaled - SCALE;
        ok := true;
      } else {
        ok := false;
      }
    }

    /** Whole tokens; the narrowing to 32 bits never saturates. */
    method AvailableTokens(now: u64) returns (n: u32)
      requires WellFormed(View())
      modifies this
      ensures WellFormed(View()) && (View(), Tokens(n)) == Serve(old(View()), Look(now))
      ensures n * SCALE <= availableScaled < (n + 1) * SCALE
    {
      RefillNow(now);
      n := availableScaled / SCALE;
    }
  }

  /** A limiter driven through any calls answers as the run does, and so admits within the bound. */
  method Drive(capacity: u32, refillPerSec: u32, start: u64, calls: seq<Call>) returns (r: Option<seq<Answer>>)
    ensures r.Some? <==> capacity > 0 && refillPerSec > 0
    ensures r.Some? ==>
              r.value == Run(Bucket(capacity * SCALE, refillPerSec * SCALE, capacity * SCALE, start), calls).1
    ensures Latest(start, calls) >= start
    ensures r.Some? ==>
              Admissions(r.value) * SCALE
                <= capacity * SCALE + Added(refillPerSec * SCALE, Latest(start, calls) - start)
  {
    hide Run, Latest, Added, Serve;
    LatestGrows(start, calls);
    ghost var b := Bucket(capacity * SCALE, refillPerSec * SCALE, capacity * SCALE, start);
    var made := RateLimiter.Create(capacity, refillPerSec, start);
    if made.None? {
      return None;
    }
    var limiter, answers := made.value, [];
    EmptyRun(b);
    for i := 0 to |calls|
      invariant fresh(limiter) && WellFormed(limiter.View())
      invariant (limiter.View(), answers) == Run(b, calls[..i])
    {
      RunSnoc(b, calls[..i], calls[i]);
      assert calls[..i + 1] == calls[..i] + [calls[i]];
      match calls[i]
      case Take(now) =>
        var ok := limiter.TryAcquire(now);
        answers := answers + [Admitted(ok)];
      case Look(now) =>
        var n := limiter.AvailableTokens(now);
        answers := answers + [Tokens(n)];
    }
    assert calls[..|calls|] == calls;
    NeverOverAdmits(b, calls);
    r := Some(answers);
  }

  lemma EmptyRun(b: Bucket)
    ensures Run(b, []) == (b, [])
  {
  }

  lemma RunSnoc(b: Bucket, calls: seq<Call>, call: Call)
    ensures var (before, answers) := Run(b, calls);
            var (after, answer) := Serve(before, call);
            Run(b, calls + [call]) == (after, answers + [answer])
  {
    assert (calls + [call])[..|calls|] == calls;
  }

  lemma ProductMonotone(a: nat, b: nat, c: nat, d: nat)
    requires a <= c && b <= d
    ensures a * b <= c * d
  {
  }

  lemma ProductFits(rate: nat, elapsed: nat)
    requires rate < 0x1_0000_0000 * SCALE && elapsed <= U64_MAX
    ensures rate * elapsed <= U128_MAX
  {
    ProductMonotone(rate, elapsed, 0x1_0000_0000 * SCALE, U64_MAX);
  }
}
