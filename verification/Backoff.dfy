/**
 The retry delay of the push worker, in machine arithmetic.  The operators of
 `int64` and `uint64` are checked: a result out of range does not verify.
 */
module Backoff {

  newtype int64 = x: int | -0x8000_0000_0000_0000 <= x < 0x8000_0000_0000_0000
  newtype uint64 = x: int | 0 <= x < 0x1_0000_0000_0000_0000

  const BASE_DELAY: int64 := 30
  const MAX_DELAY: int64 := 120

  function Clamp(x: int): int64 {
    if x < -0x8000_0000_0000_0000 then -0x8000_0000_0000_0000
    else if x > 0x7fff_ffff_ffff_ffff then 0x7fff_ffff_ffff_ffff
    else x as int64
  }

  function SaturatingMul(a: int64, b: int64): int64 {
    Clamp(a as int * b as int)
  }

  function SaturatingSub(a: int64, b: int64): int64 {
    Clamp(a as int - b as int)
  }

  function WrappingMul(a: uint64, b: uint64): uint64 {
    (a as int * b as int % 0x1_0000_0000_0000_0000) as uint64
  }

  function WrappingAdd(a: uint64, b: uint64): uint64 {
    ((a as int + b as int) % 0x1_0000_0000_0000_0000) as uint64
  }

  function UnsignedAbs(a: int64): uint64 {
    (if a < 0 then -(a as int) else a as int) as uint64
  }

  function Min(a: int64, b: int64): int64 {
    if a <= b then a else b
  }

  function Max(a: int64, b: int64): int64 {
    if a >= b then a else b
  }

  /** `1 << k` for the shifts the schedule can ask for. */
  function ShiftOne(k: int64): (r: int64)
    requires 0 <= k <= 10
    ensures 1 <= r <= 1024
    ensures k == 0 ==> r == 1
    ensures k == 1 ==> r == 2
    ensures k >= 2 ==> r >= 4
  {
    [1, 2, 4, 8, 16, 32, 64, 128, 256, 512, 1024][k]
  }

  /** Which delays each attempt may draw. */
  predicate InBand(attempt: int, delay: int) {
    if attempt <= 1 then 24 <= delay <= 36
    else if attempt == 2 then 48 <= delay <= 72
    else 96 <= delay <= 120
  }

  function Seed(attempt: int64, itemId: int64): uint64
    requires attempt >= 1
  {
    WrappingAdd(WrappingMul(UnsignedAbs(itemId), 1_103_515_245), WrappingMul(attempt as uint64, 12_345))
  }

  function RetryBackoffSeconds(attempt: int64, itemId: int64): (delay: int64)
    requires attempt >= 1
    ensures InBand(attempt as int, delay as int)
  {
    var exponential := Min(SaturatingMul(BASE_DELAY, ShiftOne(Min(SaturatingSub(attempt, 1), 10))), MAX_DELAY);
    assert exponential == if attempt == 1 then 30 else if attempt == 2 then 60 else 120;
    var jitterWindow := Max(exponential / 5, 1);
    var seed := Seed(attempt, itemId);
    var jitterSpan := (jitterWindow * 2 + 1) as uint64;
    var offset := (seed % jitterSpan) as int64;
    Max(Min(exponential - jitterWindow + offset, MAX_DELAY), 1)
  }

  /** A later attempt waits strictly longer across the three bands, whatever the items are. */
  lemma LaterAttemptWaitsLonger(attempt: int64, later: int64, itemId: int64, otherId: int64)
    requires 1 <= attempt <= 2 && attempt < later
    ensures RetryBackoffSeconds(attempt, itemId) < RetryBackoffSeconds(later, otherId)
  {
    assert InBand(attempt as int, RetryBackoffSeconds(attempt, itemId) as int);
    assert InBand(later as int, RetryBackoffSeconds(later, otherId) as int);
  }

  /** The seed in closed form. */
  lemma SeedFormula(attempt: int64, itemId: int64)
    requires attempt >= 1
    ensures
      var id := if itemId < 0 then -(itemId as int) else itemId as int;
      Seed(attempt, itemId) as int == (id * 1_103_515_245 + attempt as int * 12_345) % 0x1_0000_0000_0000_0000
  {
    var id := if itemId < 0 then -(itemId as int) else itemId as int;
    WrappedSum(id * 1_103_515_245, attempt as int * 12_345);
  }

  lemma WrappedSum(a: nat, b: nat)
    ensures
      (a % 0x1_0000_0000_0000_0000 + b % 0x1_0000_0000_0000_0000) % 0x1_0000_0000_0000_0000 ==
      (a + b) % 0x1_0000_0000_0000_0000
  {
  }

  /** The delay is the schedule shifted by the seed modulo the jitter span. */
  lemma DelayFromSeed(attempt: int64, itemId: int64)
    requires attempt >= 1
    ensures
      var seed := Seed(attempt, itemId) as int;
      RetryBackoffSeconds(attempt, itemId) as int ==
      if attempt == 1 then 24 + seed % 13
      else if attempt == 2 then 48 + seed % 25
      else if seed % 49 <= 24 then 96 + seed % 49 else 120
  {
  }
}
