/** The timing budget: acknowledgement and drain bounds against the requests one delivery issues,
    in 64-bit nanoseconds that wrap, and the delay before a failed message comes back. */
module Timing {
  import opened Text
  import opened OrderTime
  import opened Interleavings
  import opened AuditedRuns

  const MAX := 0x7FFF_FFFF_FFFF_FFFF
  const ACK_MARGIN := 10 * SECOND
  const DRAIN_MARGIN := 5 * SECOND

  predicate IsInt64(x: int)
  {
    -MAX - 1 <= x <= MAX
  }

  /** Two's complement wrap-around. */
  function Wrapped(x: int): (r: int)
    ensures IsInt64(r)
    ensures IsInt64(x) ==> r == x
  {
    var low := x % 0x1_0000_0000_0000_0000;
    if low > MAX then low - 0x1_0000_0000_0000_0000 else low
  }

  datatype Config = Config(timeout: int, batchWait: int, ackWait: int, drainTimeout: int, audited: bool)

  predicate Durations(c: Config)
  {
    IsInt64(c.timeout) && IsInt64(c.batchWait) && IsInt64(c.ackWait) && IsInt64(c.drainTimeout)
  }

  function Larger(a: int, b: int): int
  {
    if a > b then a else b
  }

  /** One batched write, or five audited requests, plus a margin. */
  function Minimum(c: Config, margin: int): int
  {
    var legacy := Wrapped(Wrapped(c.timeout + c.batchWait) + margin);
    if c.audited then Larger(legacy, Wrapped(Wrapped(5 * c.timeout) + margin)) else legacy
  }

  function MinimumAckWait(c: Config): int
  {
    Minimum(c, ACK_MARGIN)
  }

  /** Loading: zero means derive, negative is an error. */
  function Loaded(c: Config): Option<Config>
  {
    if c.ackWait < 0 then None
    else if c.ackWait == 0 then Some(c.(ackWait := MinimumAckWait(c)))
    else Some(c)
  }

  predicate Validated(c: Config)
  {
    c.timeout > 0 && c.batchWait > 0 && c.ackWait >= MinimumAckWait(c) && c.drainTimeout >= Minimum(c, DRAIN_MARGIN)
  }

  /** A derived wait always passes its own bound, even where the sums wrap. */
  lemma DerivedAckWaitPasses(c: Config)
    requires c.ackWait == 0
    ensures Loaded(c).Some? && Loaded(c).value.ackWait >= MinimumAckWait(Loaded(c).value)
  {
  }

  /** A configured wait is kept as it is or, if negative, refused. */
  lemma ConfiguredAckWaitIsKept(c: Config)
    requires c.ackWait != 0
    ensures Loaded(c) == if c.ackWait > 0 then Some(c) else None
  {
  }

  /** A validated bound covers five requests and its margin exactly when that sum is a 64-bit number. */
  lemma AuditedBudgetIsExact(c: Config)
    requires Durations(c) && Validated(c) && c.audited
    ensures 5 * c.timeout <= c.ackWait - ACK_MARGIN <==> 5 * c.timeout + ACK_MARGIN <= MAX
    ensures 5 * c.timeout <= c.drainTimeout - DRAIN_MARGIN <==> 5 * c.timeout + DRAIN_MARGIN <= MAX
  {
  }

  /** Likewise for a batched write, audited or not. */
  lemma BatchBudgetIsExact(c: Config)
    requires Durations(c) && Validated(c)
    ensures c.timeout + c.batchWait <= c.ackWait - ACK_MARGIN <==> c.timeout + c.batchWait + ACK_MARGIN <= MAX
    ensures c.timeout + c.batchWait <= c.drainTimeout - DRAIN_MARGIN <==> c.timeout + c.batchWait + DRAIN_MARGIN <= MAX
  {
  }

  /** A timeout of 2^62 ns passes validation with a wait far below five of it. */
  lemma WrappedBudgetIsTooSmall()
    ensures var c := Config(0x4000_0000_0000_0000, 1, 0x4000_0002_540B_E401, 0x4000_0002_540B_E401, true);
            Durations(c) && Validated(c) && c.ackWait < 5 * c.timeout
  {
  }

  // ---------------------------------------------------------------------------
  // Whole runs
  // ---------------------------------------------------------------------------

  function Sum(durations: seq<int>): int
  {
    if durations == [] then 0 else durations[0] + Sum(durations[1..])
  }

  lemma {:induction false} SumIsBounded(durations: seq<int>, limit: int)
    requires forall i :: 0 <= i < |durations| ==> 0 <= durations[i] <= limit
    ensures Sum(durations) <= |durations| * limit
  {
    if durations != [] {
      SumIsBounded(durations[1..], limit);
      assert |durations| * limit == limit + (|durations| - 1) * limit;
    }
  }

  lemma FiveRequestsFit(c: Config, durations: seq<int>)
    requires Durations(c) && Validated(c) && c.audited && 5 * c.timeout + ACK_MARGIN <= MAX && |durations| <= 5
    requires forall i :: 0 <= i < |durations| ==> 0 <= durations[i] <= c.timeout
    ensures Sum(durations) <= c.ackWait - ACK_MARGIN && Sum(durations) <= c.drainTimeout - DRAIN_MARGIN
  {
    SumIsBounded(durations, c.timeout);
    AuditedBudgetIsExact(c);
    var n := |durations|;
    assert n * c.timeout <= 5 * c.timeout by {
      assert n in {0, 1, 2, 3, 4, 5};
    }
  }

  /** In every run, the storage requests of one delivery, each cut off at the timeout, together stay
      inside the acknowledgement wait less its margin, and inside the drain timeout less its own. */
  lemma RequestsFitTheBudget(
    c: Config, start: System, acts: seq<Act>, w: nat, durations: seq<int>)
    requires Durations(c) && Validated(c) && c.audited && 5 * c.timeout + ACK_MARGIN <= MAX
    requires start.workers == map[] && w in Run(start, acts).workers &&
        |durations| == Run(start, acts).workers[w].requests
    requires forall i :: 0 <= i < |durations| ==> 0 <= durations[i] <= c.timeout
    ensures Sum(durations) <= c.ackWait - ACK_MARGIN && Sum(durations) <= c.drainTimeout - DRAIN_MARGIN
  {
    AtMostFiveRequests(start, acts);
    FiveRequestsFit(c, durations);
  }

  // ---------------------------------------------------------------------------
  // Redelivery delay
  // ---------------------------------------------------------------------------

  const NAK_MAX := 300 * SECOND

  function Pow2(n: nat): nat
  {
    if n == 0 then 1 else 2 * Pow2(n - 1)
  }

  /** The delivery count is unsigned, so zero less one wraps; the exponent is capped at nine. */
  function NakLimit(delivered: nat): int
  {
    var less := (delivered - 1) % 0x1_0000_0000_0000_0000;
    var limit := Wrapped(SECOND * Pow2(if less > 9 then 9 else less));
    if limit > NAK_MAX then NAK_MAX else limit
  }

  /** `draw` is the random source; a bound that is not a positive 64-bit number would panic. */
  function NakDelay(delivered: Option<nat>, draw: nat): Option<int>
  {
    if delivered.None? then Some(SECOND)
    else
      var bound := Wrapped(NakLimit(delivered.value) + 1);
      if bound <= 0 then None else Some(draw % bound)
  }

  lemma {:induction false} Pow2IsBounded(n: nat)
    ensures Pow2(n) >= 1
    ensures n <= 8 ==> Pow2(n) <= 256
    ensures n == 9 ==> Pow2(n) == 512
  {
    assert Pow2(8) == 2 * Pow2(7) && Pow2(7) == 2 * Pow2(6) && Pow2(6) == 2 * Pow2(5) && Pow2(5) == 2 * Pow2(4);
    assert Pow2(4) == 2 * Pow2(3) && Pow2(3) == 2 * Pow2(2) && Pow2(2) == 2 * Pow2(1) && Pow2(1) == 2 * Pow2(0);
    if n <= 8 {
      assert n in {0, 1, 2, 3, 4, 5, 6, 7, 8};
    } else if n > 9 {
      Pow2IsBounded(n - 1);
    }
  }

  /** One second doubled per attempt, capped at five minutes. */
  lemma NakLimitDoubles(delivered: nat)
    requires delivered < 0x1_0000_0000_0000_0000
    ensures 0 < NakLimit(delivered) <= NAK_MAX
    ensures 1 <= delivered <= 9 ==> NakLimit(delivered) == SECOND * Pow2(delivered - 1)
    ensures delivered == 0 || delivered >= 10 ==> NakLimit(delivered) == NAK_MAX
  {
    var less := (delivered - 1) % 0x1_0000_0000_0000_0000;
    assert delivered == 0 ==> less == 0xFFFF_FFFF_FFFF_FFFF;
    assert delivered > 0 ==> less == delivered - 1;
    Pow2IsBounded(if less > 9 then 9 else less);
  }

  lemma Remainders(n: nat, bound: nat)
    requires 0 < bound <= NAK_MAX + 1
    ensures Wrapped(bound) == bound && 0 <= n % bound < bound && (n < bound ==> n % bound == n)
  {
  }

  /** For every delivery count the delay never panics and is drawn from the whole of [0, limit]. */
  lemma NakDelayIsBounded(delivered: nat, draw: nat)
    requires delivered < 0x1_0000_0000_0000_0000
    ensures NakDelay(Some(delivered), draw).Some?
    ensures 0 <= NakDelay(Some(delivered), draw).value <= NakLimit(delivered) <= NAK_MAX
    ensures draw <= NakLimit(delivered) ==> NakDelay(Some(delivered), draw) == Some(draw)
  {
    NakLimitDoubles(delivered);
    Remainders(draw, NakLimit(delivered) + 1);
  }
}
