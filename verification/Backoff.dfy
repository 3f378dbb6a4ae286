/** Machine integers, and the retry delay of the plugin task queue as Go computes it. */
module Words {
  const MAX_INT32 := 0x7fff_ffff
  const TWO_63 := 0x8000_0000_0000_0000
  const TWO_64 := 0x1_0000_0000_0000_0000

  type int32 = x: int | -0x8000_0000 <= x < 0x8000_0000
  type int64 = x: int | -0x8000_0000_0000_0000 <= x < 0x8000_0000_0000_0000

  function Min(a: int, b: int): int { if a <= b then a else b }

  function Max(a: int, b: int): int { if a >= b then a else b }
}

module Backoff {
  import opened Words

  const MAX_BACKOFF_MS := 3_600_000

  function Pow2(n: nat): (p: nat)
    ensures p >= 1
  {
    if n == 0 then 1 else 2 * Pow2(n - 1)
  }

  /** Go's `x << k` on a signed 64-bit integer: the low 64 bits, read in two's complement. */
  function ShiftLeft64(x: int64, k: nat): int64 {
    var low := (x * Pow2(k)) % TWO_64;
    if low >= TWO_63 then low - TWO_64 else low
  }

  /** The delay before the next attempt, once attempt number `attempt` has failed. */
  function RetryBackoff(backoffMs: int64, attempt: nat): (delay: int)
    requires attempt >= 1
    ensures 1 <= delay <= MAX_BACKOFF_MS
  {
    var backoff := ShiftLeft64(backoffMs, attempt - 1);
    if backoff <= 0 || backoff > MAX_BACKOFF_MS then MAX_BACKOFF_MS else backoff
  }

  /** The delay the comment in the source describes: backoffMs * 2^(attempt-1), capped. */
  function CappedExponential(backoffMs: int, attempt: nat): int
    requires attempt >= 1
  {
    Min(backoffMs * Pow2(attempt - 1), MAX_BACKOFF_MS)
  }

  /**
   * The shift pushes set bits out at the top and leaves a small positive number behind.
   * Checkable before the call, from the configured delay and the attempt number.
   */
  predicate WrapsToSmall(backoffMs: int64, attempt: nat)
    requires attempt >= 1
  {
    var k := attempt - 1;
    && k < 64
    && backoffMs >= Pow2(64 - k)
    && 0 < (backoffMs % Pow2(64 - k)) * Pow2(k) < MAX_BACKOFF_MS
  }

  lemma {:induction false} Pow2Add(a: nat, b: nat)
    ensures Pow2(a + b) == Pow2(a) * Pow2(b)
  {
    if a != 0 {
      Pow2Add(a - 1, b);
    }
  }

  lemma Pow2Monotone(a: nat, b: nat)
    requires a <= b
    ensures Pow2(a) <= Pow2(b)
  {
    Pow2Add(a, b - a);
    assert Pow2(a) * Pow2(b - a) >= Pow2(a) * 1;
  }

  lemma Pow2Values()
    ensures Pow2(16) == 0x1_0000 && Pow2(21) == 0x20_0000 && Pow2(22) == 0x40_0000
    ensures Pow2(43) == 0x800_0000_0000 && Pow2(64) == TWO_64
  {
    assert Pow2(8) == 256;
    Pow2Add(8, 8);
    assert Pow2(5) == 32 && Pow2(6) == 64;
    Pow2Add(16, 5);
    Pow2Add(16, 6);
    Pow2Add(21, 22);
    Pow2Add(16, 16);
    Pow2Add(32, 32);
  }

  lemma AtLeastOneMultiple(a: int, m: int)
    requires a >= 1 && m > 0
    ensures a * m >= m
  {
    assert (a - 1) * m >= 0;
  }

  lemma SameRemainder(m: int, q: int, r: int, q': int, r': int)
    requires 0 <= r < m && 0 <= r' < m && q * m + r == q' * m + r'
    ensures r == r'
  {
    assert (q - q') * m == r' - r;
    if q > q' {
      AtLeastOneMultiple(q - q', m);
    } else if q < q' {
      AtLeastOneMultiple(q' - q, m);
    }
  }

  lemma UniqueRemainder(x: int, m: int, q: int, r: int)
    requires m > 0 && 0 <= r < m && x == q * m + r
    ensures x % m == r
  {
    SameRemainder(m, x / m, x % m, q, r);
  }

  /** x << k split at bit 64: what is pushed out, and what is left. */
  lemma ShiftParts(x: int64, k: nat) returns (out: nat, low: nat)
    requires x >= 1
    ensures x * Pow2(k) == out * TWO_64 + low && low < TWO_64
    ensures (x * Pow2(k)) % TWO_64 == low
    ensures k >= 64 ==> out >= 1 && low == 0
    ensures k < 64 ==> (out >= 1 <==> x >= Pow2(64 - k)) && low == (x % Pow2(64 - k)) * Pow2(k)
  {
    if k >= 64 {
      out := ShiftedOut(x, k);
      low := 0;
    } else {
      out, low := x / Pow2(64 - k), (x % Pow2(64 - k)) * Pow2(k);
      Pow2Values();
      Pow2Add(64 - k, k);
      SplitProduct(x, Pow2(64 - k), Pow2(k));
    }
    UniqueRemainder(x * Pow2(k), TWO_64, out, low);
  }

  lemma ShiftedOut(x: nat, k: nat) returns (out: nat)
    requires x >= 1 && k >= 64
    ensures x * Pow2(k) == out * TWO_64 && out >= 1
  {
    var high := Pow2(k - 64);
    Pow2Values();
    Pow2Add(k - 64, 64);
    out := x * high;
    AtLeastOneMultiple(x, high);
    Associate(x, high, TWO_64);
  }

  lemma Associate(a: int, b: int, c: int)
    ensures a * (b * c) == (a * b) * c
  {
  }

  lemma SplitProduct(x: nat, m: nat, p: nat)
    requires m > 0 && p > 0
    ensures x * p == (x / m) * (m * p) + (x % m) * p
    ensures (x % m) * p < m * p
    ensures x / m >= 1 <==> x >= m
  {
    var q, r := x / m, x % m;
    assert x == q * m + r;
    assert (q * m + r) * p == (q * m) * p + r * p;
    assert (q * m) * p == q * (m * p);
    MulStrict(r, m, p);
    if q >= 1 {
      AtLeastOneMultiple(q, m);
    }
  }

  lemma MulStrict(a: nat, b: nat, p: nat)
    requires a < b && p > 0
    ensures a * p < b * p
  {
    AtLeastOneMultiple(b - a, p);
  }

  /** The exact condition: the code computes the capped exponential unless the shift wraps to a small number. */
  lemma RetryBackoffExact(backoffMs: int64, attempt: nat)
    requires backoffMs >= 1 && attempt >= 1
    ensures RetryBackoff(backoffMs, attempt) == CappedExponential(backoffMs, attempt)
            <==> !WrapsToSmall(backoffMs, attempt)
  {
    var out, low := ShiftParts(backoffMs, attempt - 1);
    ReadsBack(backoffMs, attempt, out, low);
  }

  /** When it wraps, the low bits that are left are the delay. */
  lemma WrappedBackoff(backoffMs: int64, attempt: nat)
    requires backoffMs >= 1 && attempt >= 1 && WrapsToSmall(backoffMs, attempt)
    ensures RetryBackoff(backoffMs, attempt) == (backoffMs % Pow2(65 - attempt)) * Pow2(attempt - 1)
  {
    var out, low := ShiftParts(backoffMs, attempt - 1);
  }

  lemma ReadsBack(backoffMs: int64, attempt: nat, out: nat, low: nat)
    requires backoffMs >= 1 && attempt >= 1
    requires backoffMs * Pow2(attempt - 1) == out * TWO_64 + low && low < TWO_64
    requires (backoffMs * Pow2(attempt - 1)) % TWO_64 == low
    ensures RetryBackoff(backoffMs, attempt) == CappedExponential(backoffMs, attempt)
            <==> !(out >= 1 && 0 < low < MAX_BACKOFF_MS)
  {
    if out == 0 {
      assert backoffMs * Pow2(attempt - 1) == low;
      AtLeastOneMultiple(backoffMs, Pow2(attempt - 1));
    } else {
      assert out * TWO_64 >= TWO_64;
    }
  }

  /** Up to 2^43 milliseconds the shift never wraps to a small number, whatever the attempt. */
  lemma SmallDelaysAreExact(backoffMs: int64, attempt: nat)
    requires 1 <= backoffMs <= 0x800_0000_0000 && attempt >= 1
    ensures RetryBackoff(backoffMs, attempt) == CappedExponential(backoffMs, attempt)
  {
    RetryBackoffExact(backoffMs, attempt);
    NeverWrapsToSmall(backoffMs, attempt);
  }

  lemma NeverWrapsToSmall(backoffMs: int64, attempt: nat)
    requires 1 <= backoffMs <= 0x800_0000_0000 && attempt >= 1
    ensures !WrapsToSmall(backoffMs, attempt)
  {
    var k := attempt - 1;
    if k < 64 {
      var m, p := Pow2(64 - k), Pow2(k);
      assert m >= 0x800_0000_0000 || p > MAX_BACKOFF_MS by {
        Pow2Values();
        if k <= 21 {
          Pow2Monotone(43, 64 - k);
        } else {
          Pow2Monotone(22, k);
        }
      }
      NothingSmallLeft(backoffMs, m, p);
    }
  }

  lemma NothingSmallLeft(x: nat, m: nat, p: nat)
    requires 1 <= x <= 0x800_0000_0000 && m > 0 && p > 0
    requires m >= 0x800_0000_0000 || p > MAX_BACKOFF_MS
    ensures !(x >= m && 0 < (x % m) * p < MAX_BACKOFF_MS)
  {
    var r := x % m;
    if m >= 0x800_0000_0000 {
      NothingLeft(x, m);
      assert x >= m ==> r * p == 0;
    } else if r >= 1 {
      AtLeastOneMultiple(r, p);
    }
  }

  lemma NothingLeft(x: nat, m: nat)
    requires 1 <= x <= m
    ensures x >= m ==> x % m == 0
  {
    if x == m {
      UniqueRemainder(m, m, 1, 0);
    }
  }

  /** The first delay above that bound already waits less on its 22nd attempt than on its first. */
  lemma LargeDelayWraps()
    ensures RetryBackoff(0x800_0000_0001, 22) == 0x20_0000
    ensures RetryBackoff(0x800_0000_0001, 1) == MAX_BACKOFF_MS
  {
    Pow2Values();
    assert Pow2(0) == 1;
    assert 0x800_0000_0001 * 0x20_0000 == TWO_64 + 0x20_0000;
  }

  /** Retries never come sooner than the one before, for every delay up to 2^43 ms. */
  lemma BackoffMonotone(backoffMs: int64, attempt: nat, later: nat)
    requires 1 <= backoffMs <= 0x800_0000_0000 && 1 <= attempt <= later
    ensures RetryBackoff(backoffMs, attempt) <= RetryBackoff(backoffMs, later)
  {
    SmallDelaysAreExact(backoffMs, attempt);
    SmallDelaysAreExact(backoffMs, later);
    Pow2Monotone(attempt - 1, later - 1);
    if attempt < later {
      ScaleMonotone(backoffMs, Pow2(attempt - 1), Pow2(later - 1));
    }
  }

  lemma ScaleMonotone(x: nat, a: int, b: int)
    requires a <= b
    ensures x * a <= x * b
  {
    assert x * (b - a) >= 0;
  }
}
