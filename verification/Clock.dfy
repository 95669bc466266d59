/** Millisecond clocks: saturating 64-bit arithmetic and the remaining part of a budget. */
module Clock {
  import opened Sequences

  const U64_MAX: nat := 0xFFFF_FFFF_FFFF_FFFF
  const NANOS_PER_SECOND: nat := 1_000_000_000
  const NANOS_PER_MILLI: nat := 1_000_000

  function SaturatingAdd(a: nat, b: nat): nat {
    if a + b > U64_MAX then U64_MAX else a + b
  }

  function SaturatingSub(a: nat, b: nat): nat {
    if a < b then 0 else a - b
  }

  function SaturatingMul(a: nat, b: nat): nat {
    if a * b > U64_MAX then U64_MAX else a * b
  }

  /** A duration in nanoseconds as whole milliseconds, held at `U64_MAX`. */
  function SaturatingMillis(nanos: nat): nat {
    SaturatingAdd(
      SaturatingMul(nanos / NANOS_PER_SECOND, 1000),
      nanos % NANOS_PER_SECOND / NANOS_PER_MILLI)
  }

  lemma SaturatingMillisIsExact(nanos: nat)
    ensures SaturatingMillis(nanos)
         == if nanos / 1_000_000 > 0xFFFF_FFFF_FFFF_FFFF then 0xFFFF_FFFF_FFFF_FFFF else nanos / 1_000_000
  {
    var secs, rest := nanos / NANOS_PER_SECOND, nanos % NANOS_PER_SECOND;
    assert nanos == secs * 1000 * NANOS_PER_MILLI + rest;
    assert nanos / NANOS_PER_MILLI == secs * 1000 + rest / NANOS_PER_MILLI;
  }

  /** Whole milliseconds left of a budget; `None` once less than one is left. */
  function RemainingMillis(budget: nat, elapsed: nat): Option<nat> {
    if elapsed > budget then None
    else
      var millis := SaturatingMillis(budget - elapsed);
      if millis == 0 then None else Some(millis)
  }

  lemma RemainingMillisSpent(budget: nat, elapsed: nat)
    ensures RemainingMillis(budget, elapsed).None? <==> budget < elapsed + 1_000_000
    ensures RemainingMillis(budget, elapsed).Some? ==>
              var left := (budget - elapsed) / 1_000_000;
              RemainingMillis(budget, elapsed).value == if left > 0xFFFF_FFFF_FFFF_FFFF then 0xFFFF_FFFF_FFFF_FFFF else left
  {
    if elapsed <= budget {
      SaturatingMillisIsExact(budget - elapsed);
    }
  }
}
