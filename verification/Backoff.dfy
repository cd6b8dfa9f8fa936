/** Exponential backoff in 64-bit arithmetic (internal/dispatch/policy.go). Durations are nanoseconds. */
module Backoffs {

  const TWO_63: int := 0x8000_0000_0000_0000
  const TWO_64: int := 0x1_0000_0000_0000_0000
  const TWO_32: int := 0x1_0000_0000
  const TWO_31: int := 0x8000_0000

  function Pow2(k: nat): (p: int)
    ensures p >= 1
  {
    if k == 0 then 1 else 2 * Pow2(k - 1)
  }

  /** The int64 that a two's-complement result wraps to. */
  function Wrap64(x: int): (w: int)
    ensures -TWO_63 <= w < TWO_63
  {
    (x + TWO_63) % TWO_64 - TWO_63
  }

  /** base << k on int64. */
  function ShiftLeft(base: int, k: nat): int { Wrap64(base * Pow2(k)) }

  /** The delay before jitter, as computed. */
  function FullDelay(base: int, max: int, attempt: int): int
    requires attempt >= 1
  {
    if attempt - 1 < 32 && 0 < ShiftLeft(base, attempt - 1) < max then ShiftLeft(base, attempt - 1) else max
  }

  /** The delay before jitter, as documented: min(base * 2^(attempt-1), max). */
  function DocumentedDelay(base: int, max: int, attempt: int): int
    requires attempt >= 1
  {
    if base * Pow2(attempt - 1) < max then base * Pow2(attempt - 1) else max
  }

  /** The jittered delay for a draw in [0, 1]. */
  function Backoff(base: int, max: int, attempt: int, draw: real): int
    requires attempt >= 1
  {
    var d := FullDelay(base, max, attempt);
    d / 2 + (draw * (d / 2) as real).Floor
  }

  // ---------------------------------------------------------------------------

  lemma {:induction false} Pow2Grows(a: nat, b: nat)
    requires a <= b
    ensures Pow2(a) <= Pow2(b)
    decreases b
  {
    if a < b {
      Pow2Grows(a, b - 1);
    }
  }

  lemma ScaledGrows(base: int, a: nat, b: nat)
    requires 0 < base && a <= b
    ensures base * Pow2(a) <= base * Pow2(b)
  {
    Pow2Grows(a, b);
  }

  lemma Pow2Of31And32()
    ensures Pow2(31) == TWO_31 && Pow2(32) == TWO_32
  {
    assert Pow2(8) == 256;
    assert Pow2(16) == 65536;
    assert Pow2(24) == 0x100_0000;
    assert Pow2(31) == TWO_31;
  }

  /** What a policy must satisfy: no shift wraps into the interval below max, and 32 doublings reach max. */
  ghost predicate Representable(base: int, max: int)
  {
    && (forall k: nat | k < 32 :: ShiftIsSafe(base, max, k))
    && max <= base * TWO_32
  }

  predicate ShiftIsSafe(base: int, max: int, k: nat)
  {
    base * Pow2(k) < TWO_63 || !(0 < ShiftLeft(base, k) < max)
  }

  lemma DelayAtShift(base: int, max: int, k: nat)
    requires 0 < base && base <= max < TWO_63 && k < 32
    ensures FullDelay(base, max, k + 1) == DocumentedDelay(base, max, k + 1) <==> ShiftIsSafe(base, max, k)
  {
    assert base * Pow2(k) >= 1 by { ScaledGrows(base, 0, k); }
  }

  lemma DelayBeyondShifts(base: int, max: int, attempt: int)
    requires 0 < base && base <= max && attempt > 32 && max <= base * TWO_32
    ensures FullDelay(base, max, attempt) == DocumentedDelay(base, max, attempt)
  {
    Pow2Of31And32();
    ScaledGrows(base, 32, attempt - 1);
  }

  /** The documented formula holds for every attempt exactly when the policy is representable. */
  lemma DelayIsDocumentedIff(base: int, max: int)
    requires 0 < base <= max < TWO_63
    ensures (forall attempt: int | attempt >= 1 :: FullDelay(base, max, attempt) == DocumentedDelay(base, max, attempt))
            <==> Representable(base, max)
  {
    if Representable(base, max) {
      forall attempt: int | attempt >= 1 ensures FullDelay(base, max, attempt) == DocumentedDelay(base, max, attempt) {
        if attempt <= 32 {
          DelayAtShift(base, max, attempt - 1);
        } else {
          DelayBeyondShifts(base, max, attempt);
        }
      }
    } else if max > base * TWO_32 {
      Pow2Of31And32();
      assert FullDelay(base, max, 33) != DocumentedDelay(base, max, 33);
    } else {
      var k: nat :| k < 32 && !ShiftIsSafe(base, max, k);
      DelayAtShift(base, max, k);
      assert FullDelay(base, max, k + 1) != DocumentedDelay(base, max, k + 1);
    }
  }

  /** A base below 2^33 ns (8.5 s) and a maximum within 2^32 times the base are representable. */
  lemma SmallBaseIsRepresentable(base: int, max: int)
    requires 0 < base < 2 * TWO_32 && base <= max < TWO_63 && max <= base * TWO_32
    ensures Representable(base, max)
  {
    forall k: nat | k < 32 ensures ShiftIsSafe(base, max, k) {
      Pow2Of31And32();
      ScaledGrows(base, k, 31);
      assert base * Pow2(k) < TWO_64;
    }
  }

  /** A base just above 2^33 ns: the 32nd attempt wraps to about 2 s instead of waiting the 10-minute maximum. */
  lemma LargeBaseWraps()
    ensures var base, max := 0x2_0000_0001, 600_000_000_000;
            FullDelay(base, max, 32) == TWO_31 && DocumentedDelay(base, max, 32) == max
  {
    Pow2Of31And32();
  }

  /** The jittered delay lies between half of the delay (rounded down) and all of it; the extreme draws reach both. */
  lemma JitterRange(base: int, max: int, attempt: int, draw: real)
    requires attempt >= 1 && 0 < base && 0 < max && 0.0 <= draw <= 1.0
    ensures var d := FullDelay(base, max, attempt);
            && 0 < d <= max
            && d / 2 <= Backoff(base, max, attempt, draw) <= d
            && Backoff(base, max, attempt, 0.0) == d / 2
            && Backoff(base, max, attempt, 1.0) == 2 * (d / 2)
  {
    var h := FullDelay(base, max, attempt) / 2;
    Scaled(h, draw);
    Scaled(h, 0.0);
    Scaled(h, 1.0);
  }

  /** The delay grows with the draw, and every draw lands within one unit of its share of the upper half. */
  lemma JitterFollowsTheDraw(base: int, max: int, attempt: int, draw: real, more: real)
    requires attempt >= 1 && 0.0 <= draw <= more <= 1.0 && 0 < base && 0 < max
    ensures Backoff(base, max, attempt, draw) <= Backoff(base, max, attempt, more)
    ensures var h := (FullDelay(base, max, attempt) / 2) as real;
            h * (1.0 + draw) - 1.0 < Backoff(base, max, attempt, draw) as real <= h * (1.0 + draw)
  {
    var h := (FullDelay(base, max, attempt) / 2) as real;
    Grows(draw, more, h);
    assert h * (1.0 + draw) == h + draw * h;
  }

  /** A draw takes a part of h. */
  lemma Scaled(h: nat, draw: real)
    requires 0.0 <= draw <= 1.0
    ensures 0 <= (draw * h as real).Floor <= h
    ensures draw == 0.0 ==> (draw * h as real).Floor == 0
    ensures draw == 1.0 ==> (draw * h as real).Floor == h
  {
    var x := h as real;
    Grows(0.0, draw, x);
    Grows(draw, 1.0, x);
    FloorWithin(draw * x, h);
    if draw == 0.0 {
      assert draw * x == 0.0;
    } else if draw == 1.0 {
      assert draw * x == x;
    }
  }

  lemma FloorWithin(y: real, h: nat)
    requires 0.0 <= y <= h as real
    ensures 0 <= y.Floor <= h
  {
  }

  lemma Grows(a: real, b: real, x: real)
    requires a <= b && x >= 0.0
    ensures a * x <= b * x
  {
    assert (b - a) * x >= 0.0;
    assert (b - a) * x == b * x - a * x;
  }
}
