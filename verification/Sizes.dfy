/** Volume sizes in Go's 64-bit integers: pkg/utils/utils.go with its constants. */
module Sizes {
  const GiB: int := 1024 * 1024 * 1024
  const MIN_INT64: int := -0x8000_0000_0000_0000
  const MAX_INT64: int := 0x7FFF_FFFF_FFFF_FFFF
  const MinimumVolumeSizeInBytes: int := 10 * GiB
  const MaximumVolumeSizeInBytes: int := 2 * 1024 * GiB

  newtype int64 = n: int | MIN_INT64 <= n <= MAX_INT64

  /** Two's complement: the value that a 64-bit operation leaves of an exact result. */
  function Wrap(n: int): int64 {
    ((n - MIN_INT64) % 0x1_0000_0000_0000_0000 + MIN_INT64) as int64
  }

  /** Go's division, which truncates toward zero. */
  function Quotient(n: int, d: int): int
    requires d > 0
  {
    if n >= 0 then n / d else -((-n) / d)
  }

  function Add(a: int64, b: int64): int64 { Wrap(a as int + b as int) }
  function Sub(a: int64, b: int64): int64 { Wrap(a as int - b as int) }
  function Mul(a: int64, b: int64): int64 { Wrap(a as int * b as int) }
  function Div(a: int64, b: int64): int64
    requires b > 0
  {
    Wrap(Quotient(a as int, b as int))
  }

  function RoundUpSize(volumeSizeBytes: int64, allocationUnitBytes: int64): int64
    requires allocationUnitBytes > 0
  {
    Div(Sub(Add(volumeSizeBytes, allocationUnitBytes), 1), allocationUnitBytes)
  }

  function RoundUpBytes(volumeSizeBytes: int64): int64 {
    Mul(RoundUpSize(volumeSizeBytes, GiB as int64), GiB as int64)
  }

  function BytesToGiB(volumeSizeBytes: int64): int64 {
    Div(volumeSizeBytes, GiB as int64)
  }

  /** `r` is the least multiple of a GiB that is at least `n`, among all integers. */
  predicate IsCeiling(n: int, r: int) {
    r % GiB == 0 && n <= r < n + GiB
  }

  lemma CeilingIsLeast(n: int, r: int, other: int)
    requires IsCeiling(n, r) && other % GiB == 0 && n <= other
    ensures r <= other
  {
    var a, b := r / GiB, other / GiB;
    assert r == a * GiB && other == b * GiB;
  }

  lemma WrapIs(n: int)
    ensures MIN_INT64 <= n <= MAX_INT64 ==> Wrap(n) as int == n
    ensures MAX_INT64 < n <= MAX_INT64 + 0x1_0000_0000_0000_0000 ==> Wrap(n) as int == n - 0x1_0000_0000_0000_0000
  {
  }

  /** A truncated quotient times the divisor lies between the dividend and zero, within one divisor. */
  lemma QuotientBounds(k: int)
    ensures k >= 0 ==> k - GiB < Quotient(k, GiB) * GiB <= k
    ensures k < 0 ==> k <= Quotient(k, GiB) * GiB < k + GiB && Quotient(k, GiB) * GiB <= 0
    ensures Quotient(k, GiB) * GiB == k <==> k % GiB == 0
    ensures Quotient(k, GiB) * GiB % GiB == 0
  {
  }

  /** The sum overflows at the very top of the range, but subtracting one may bring it back. */
  lemma SumIs(n: int64)
    ensures n as int <= MAX_INT64 - GiB + 1 ==> Sub(Add(n, GiB as int64), 1) as int == n as int + GiB - 1
    ensures n as int > MAX_INT64 - GiB + 1 ==>
      Sub(Add(n, GiB as int64), 1) as int == n as int + GiB - 1 - 0x1_0000_0000_0000_0000
  {
    WrapIs(n as int + GiB);
    WrapIs(Add(n, GiB as int64) as int - 1);
  }

  lemma QuotientFits(k: int)
    requires MIN_INT64 <= k <= MAX_INT64
    ensures MIN_INT64 <= Quotient(k, GiB) <= MAX_INT64
    ensures MIN_INT64 <= Quotient(k, GiB) * GiB <= MAX_INT64
    ensures Quotient(k, GiB) * GiB % GiB == 0
  {
    QuotientBounds(k);
  }

  /** Neither the division nor the product overflows, whatever the sum has become. */
  lemma RoundUpFromSum(n: int64)
    ensures RoundUpBytes(n) as int == Quotient(Sub(Add(n, GiB as int64), 1) as int, GiB) * GiB
    ensures RoundUpBytes(n) as int % GiB == 0
  {
    var sum := Sub(Add(n, GiB as int64), 1);
    var q := Quotient(sum as int, GiB);
    QuotientFits(sum as int);
    WrapIs(q);
    assert RoundUpSize(n, GiB as int64) as int == q;
    WrapIs(q * GiB);
    assert RoundUpBytes(n) as int == q * GiB;
  }

  lemma NegativeQuotient(k: int)
    requires k <= -GiB
    ensures Quotient(k, GiB) * GiB < 0
  {
  }

  lemma RoundUpBytesIs(n: int64)
    ensures n as int <= MAX_INT64 - GiB + 1 ==>
      RoundUpBytes(n) as int == Quotient(n as int + GiB - 1, GiB) * GiB
    ensures n as int > MAX_INT64 - GiB + 1 ==>
      RoundUpBytes(n) as int == Quotient(n as int + GiB - 1 - 0x1_0000_0000_0000_0000, GiB) * GiB < 0
  {
    RoundUpFromSum(n);
    SumIs(n);
    if n as int > MAX_INT64 - GiB + 1 {
      NegativeQuotient(n as int + GiB - 1 - 0x1_0000_0000_0000_0000);
    }
  }

  /** The sizes for which `RoundUpBytes` rounds up. */
  predicate RoundsUp(n: int64) {
    if n as int > -GiB then n as int <= MAX_INT64 - GiB + 1 else n as int % GiB == 1
  }

  /**
    `RoundUpBytes` gives the least multiple of a GiB that is at least the size, if and only
    if the size is above -1 GiB and no larger than the largest multiple that fits, or is
    one byte more than a negative multiple, where truncation and ceiling agree.
   */
  lemma RoundUpBytesIsCeilingExactly(n: int64)
    ensures IsCeiling(n as int, RoundUpBytes(n) as int) <==> RoundsUp(n)
    ensures var r := RoundUpBytes(n) as int;
      (r % 0x4000_0000 == 0 && n as int <= r < n as int + 0x4000_0000) <==>
        if n > -0x4000_0000 then n <= 0x7FFF_FFFF_C000_0000 else n as int % 0x4000_0000 == 1
  {
    RoundUpBytesIs(n);
    CeilingByQuotient(n as int);
  }

  lemma CeilingByQuotient(n: int)
    ensures IsCeiling(n, Quotient(n + GiB - 1, GiB) * GiB) <==> n > -GiB || n % GiB == 1
  {
    QuotientBounds(n + GiB - 1);
    assert (n + GiB - 1) % GiB == 0 <==> n % GiB == 1;
  }

  lemma QuotientIsMonotone(k: int, l: int)
    requires k <= l
    ensures Quotient(k, GiB) * GiB <= Quotient(l, GiB) * GiB
  {
    QuotientBounds(k);
    QuotientBounds(l);
  }

  /** Near the low end of the range a truncated quotient tells the end from what follows it. */
  lemma LowQuotient(k: int)
    requires MIN_INT64 <= k
    ensures Quotient(k, GiB) * GiB >= MIN_INT64
    ensures Quotient(k, GiB) * GiB == MIN_INT64 <==> k == MIN_INT64
    ensures Quotient(k, GiB) * GiB <= MIN_INT64 + GiB <==> k <= MIN_INT64 + GiB
  {
    QuotientBounds(k);
    QuotientIsMonotone(MIN_INT64, k);
    QuotientBounds(MIN_INT64);
    QuotientBounds(MIN_INT64 + GiB);
    if k <= MIN_INT64 + GiB {
      QuotientIsMonotone(k, MIN_INT64 + GiB);
    }
    MultipleAfter(Quotient(k, GiB) * GiB);
  }

  lemma MultipleAfter(r: int)
    requires r % GiB == 0
    ensures r > MIN_INT64 ==> r >= MIN_INT64 + GiB
  {
    assert MIN_INT64 % GiB == 0;
  }

  /**
    A larger size rounds to no smaller one, negative sizes included, unless only the larger
    one is past the last size whose sum comes back from its overflow; and even then if the
    smaller one is at the very bottom of the range and the larger one two or more past.
   */
  lemma RoundUpIsMonotoneExactly(a: int64, b: int64)
    requires a <= b
    ensures RoundUpBytes(a) <= RoundUpBytes(b) <==>
      b as int <= MAX_INT64 - GiB + 1 || a as int > MAX_INT64 - GiB + 1 ||
      (b as int > MAX_INT64 - GiB + 2 && a as int <= MIN_INT64 + 1)
  {
    RoundUpBytesIs(a);
    RoundUpBytesIs(b);
    var k, l := a as int + GiB - 1, b as int + GiB - 1;
    var wrapped := l - 0x1_0000_0000_0000_0000;
    if b as int <= MAX_INT64 - GiB + 1 {
      QuotientIsMonotone(k, l);
    } else if a as int > MAX_INT64 - GiB + 1 {
      QuotientIsMonotone(k - 0x1_0000_0000_0000_0000, wrapped);
    } else {
      LowQuotient(k);
      LowQuotient(wrapped);
      QuotientBounds(k);
      QuotientBounds(wrapped);
      MultipleAfter(Quotient(k, GiB) * GiB);
      MultipleAfter(Quotient(wrapped, GiB) * GiB);
    }
  }

  /**
    A rounded size stays as it is exactly when it is not negative, which is when the size
    is above -2 GiB + 1 and the sum does not stay overflowed.
   */
  lemma RoundUpIsIdempotentExactly(n: int64)
    ensures RoundUpBytes(RoundUpBytes(n)) == RoundUpBytes(n) <==> -2 * GiB + 1 < n as int <= MAX_INT64 - GiB + 1
  {
    RoundedIsMultiple(n);
    FixedMultiple(RoundUpBytes(n));
    RoundUpBytesIs(n);
    if n as int <= MAX_INT64 - GiB + 1 {
      QuotientSign(n as int + GiB - 1);
    }
  }

  lemma QuotientSign(k: int)
    ensures Quotient(k, GiB) * GiB >= 0 <==> k > -GiB
  {
  }

  /** No multiple of a GiB lies between the last one that fits and the end of the range. */
  lemma MultipleBelowTop(r: int)
    requires r % GiB == 0 && r <= MAX_INT64
    ensures r <= MAX_INT64 - GiB + 1
  {
    assert (MAX_INT64 - GiB + 1) % GiB == 0;
  }

  lemma RoundedIsMultiple(n: int64)
    ensures RoundUpBytes(n) as int % GiB == 0
    ensures RoundUpBytes(n) as int <= MAX_INT64 - GiB + 1
  {
    RoundUpFromSum(n);
    MultipleBelowTop(RoundUpBytes(n) as int);
  }

  lemma FixedMultiple(r: int64)
    requires r as int % GiB == 0 && r as int <= MAX_INT64 - GiB + 1
    ensures RoundUpBytes(r) == r <==> r >= 0
  {
    RoundUpBytesIs(r);
    QuotientOfMultiple(r as int);
  }

  lemma QuotientOfMultiple(r: int)
    requires r % GiB == 0
    ensures Quotient(r + GiB - 1, GiB) * GiB == r <==> r >= 0
  {
    QuotientBounds(r + GiB - 1);
  }

  lemma CeilingBelow(n: int, r: int, top: int)
    requires IsCeiling(n, r) && n <= top * GiB
    ensures n <= r <= top * GiB
  {
    CeilingIsLeast(n, r, top * GiB);
  }

  /** The sizes the service allows stay allowed. */
  lemma RoundUpStaysInRange(n: int64)
    requires MinimumVolumeSizeInBytes <= n as int <= MaximumVolumeSizeInBytes
    ensures MinimumVolumeSizeInBytes <= RoundUpBytes(n) as int <= MaximumVolumeSizeInBytes
    ensures MinimumVolumeSizeInBytes == 10_737_418_240 && MaximumVolumeSizeInBytes == 2_199_023_255_552
  {
    RoundUpBytesIsCeilingExactly(n);
    CeilingBelow(n as int, RoundUpBytes(n) as int, 2 * 1024);
  }

  /** `BytesToGiB` counts the whole GiB of a size: toward zero, whatever its sign. */
  lemma BytesToGiBTruncates(n: int64, g: int)
    ensures n >= 0 ==> (BytesToGiB(n) as int == g <==> g * 0x4000_0000 <= n as int < (g + 1) * 0x4000_0000)
    ensures n < 0 ==> (BytesToGiB(n) as int == g <==> (g - 1) * 0x4000_0000 < n as int <= g * 0x4000_0000)
  {
    var q := Quotient(n as int, GiB);
    QuotientFits(n as int);
    QuotientBounds(n as int);
    WrapIs(q);
    assert BytesToGiB(n) as int == q;
    Between(n as int, q, g);
  }

  lemma Between(n: int, q: int, g: int)
    ensures n - GiB < q * GiB <= n ==> (q == g <==> g * GiB <= n < (g + 1) * GiB)
    ensures n <= q * GiB < n + GiB ==> (q == g <==> (g - 1) * GiB < n <= g * GiB)
  {
  }

  /** Rounding up and converting gives the exact ceiling in GiB. */
  lemma RoundUpThenConvert(n: int64, g: int)
    requires RoundsUp(n)
    ensures BytesToGiB(RoundUpBytes(n)) as int == g <==> (g - 1) * GiB < n as int <= g * GiB
  {
    RoundUpBytesIsCeilingExactly(n);
    ConvertIs(RoundUpBytes(n));
    CeilingInUnits(n as int, RoundUpBytes(n) as int, BytesToGiB(RoundUpBytes(n)) as int, g);
  }

  lemma ConvertIs(r: int64)
    requires r as int % GiB == 0
    ensures BytesToGiB(r) as int * GiB == r as int
  {
    QuotientBounds(r as int);
    WrapIs(Quotient(r as int, GiB));
  }

  lemma CeilingInUnits(n: int, r: int, q: int, g: int)
    requires IsCeiling(n, r) && r == q * GiB
    ensures q == g <==> (g - 1) * GiB < n <= g * GiB
  {
  }

  /** Adding before subtracting overflows once, at the last size that still rounds right. */
  lemma TopOfRange(n: int64)
    requires n as int == MAX_INT64 - GiB + 1
    ensures Add(n, GiB as int64) as int != n as int + GiB
    ensures RoundUpBytes(n) == n
  {
    RoundUpBytesIs(n);
  }
}
