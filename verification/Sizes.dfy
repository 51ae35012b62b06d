/** Sizes in bytes and in GiB, on Go's 64-bit integers. */
module Sizes {
  const GIB: int := 1024 * 1024 * 1024
  const INT64_LIMIT: int := 0x8000_0000_0000_0000

  /** The int64 a mathematical result wraps to. */
  function Wrap64(x: int): int {
    (x + INT64_LIMIT) % (2 * INT64_LIMIT) - INT64_LIMIT
  }

  /** Go's integer division truncates toward zero. */
  function GoDiv(x: int, y: int): int
    requires y > 0
  {
    if x >= 0 then x / y else -((-x) / y)
  }

  /** roundUpSize */
  function RoundUpSize(bytes: int, unit: int): int
    requires unit > 0
  {
    GoDiv(Wrap64(Wrap64(bytes + unit) - 1), unit)
  }

  function GiBToBytes(gib: int): int {
    Wrap64(gib * GIB)
  }

  function BytesToGiB(bytes: int): int {
    GoDiv(bytes, GIB)
  }

  /** The least number of GiB that holds this many bytes. */
  ghost predicate Holds(gib: int, bytes: int) {
    gib * GIB >= bytes && (gib - 1) * GIB < bytes
  }

  lemma WrapInRange(x: int)
    requires -INT64_LIMIT <= x < INT64_LIMIT
    ensures Wrap64(x) == x
  {
  }

  lemma WrapTwice(x: int)
    requires -INT64_LIMIT <= x - 1 && x <= INT64_LIMIT
    ensures Wrap64(Wrap64(x) - 1) == x - 1
  {
    if x == INT64_LIMIT {
      assert Wrap64(x) == -INT64_LIMIT;
      assert Wrap64(-INT64_LIMIT - 1) == INT64_LIMIT - 1;
    } else {
      WrapInRange(x);
      WrapInRange(x - 1);
    }
  }

  lemma CeilingHolds(bytes: int, gib: int)
    requires bytes >= 0 && gib == (bytes + GIB - 1) / GIB
    ensures Holds(gib, bytes)
  {
  }

  /** Rounding up a size is exact precisely up to 2^63 - 2^30 bytes; above that the sum wraps and
      the result is negative. */
  lemma RoundUpExact(bytes: int)
    requires 0 <= bytes < INT64_LIMIT
    ensures Holds(RoundUpSize(bytes, GIB), bytes) <==> bytes <= INT64_LIMIT - GIB
    ensures bytes > INT64_LIMIT - GIB ==> RoundUpSize(bytes, GIB) < 0
  {
    if bytes <= INT64_LIMIT - GIB {
      WrapTwice(bytes + GIB);
      CeilingHolds(bytes, RoundUpSize(bytes, GIB));
    } else {
      var wrapped := bytes + GIB - 2 * INT64_LIMIT;
      assert Wrap64(bytes + GIB) == wrapped;
      WrapInRange(wrapped - 1);
    }
  }

  lemma GiBFits(gib: int)
    requires 0 <= gib < 0x2_0000_0000
    ensures GiBToBytes(gib) == gib * GIB <= INT64_LIMIT - GIB
  {
    WrapInRange(gib * GIB);
  }

  lemma RoundUpAtMost(bytes: int, gib: int)
    requires 0 <= bytes <= INT64_LIMIT - GIB
    ensures RoundUpSize(bytes, GIB) <= gib <==> bytes <= gib * GIB
  {
    RoundUpExact(bytes);
    var n := RoundUpSize(bytes, GIB);
    if n > gib {
      assert (n - 1) * GIB >= gib * GIB;
    }
  }

  /** Rounding up and converting to bytes are adjoint: a size of n GiB is enough for b bytes
      exactly when b bytes rounded up are at most n GiB. */
  lemma RoundUpAdjoint(bytes: int, gib: int)
    requires 0 <= bytes <= INT64_LIMIT - GIB && 0 <= gib < 0x2_0000_0000
    ensures RoundUpSize(bytes, GIB) <= gib <==> bytes <= GiBToBytes(gib)
  {
    RoundUpAtMost(bytes, gib);
    GiBFits(gib);
  }

  /** Rounding up and rounding down both undo the conversion to bytes. */
  lemma RoundingUndoesConversion(gib: int)
    requires 0 <= gib < 0x2_0000_0000
    ensures RoundUpSize(GiBToBytes(gib), GIB) == gib && BytesToGiB(GiBToBytes(gib)) == gib
  {
    GiBFits(gib);
    RoundUpExact(gib * GIB);
    var n := RoundUpSize(gib * GIB, GIB);
    assert n * GIB >= gib * GIB && (n - 1) * GIB < gib * GIB;
  }

  /** Rounding down truncates toward zero. */
  lemma RoundDownExact(bytes: int)
    ensures var gib := BytesToGiB(bytes);
      && (bytes >= 0 ==> gib * GIB <= bytes < (gib + 1) * GIB)
      && (bytes <= 0 ==> (gib - 1) * GIB < bytes <= gib * GIB)
  {
  }
}
