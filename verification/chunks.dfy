/** `slice::chunks`: data cut into pieces of one size, the last one shorter. */
module Chunks {

  lemma MulBound(e: int, d: nat)
    ensures e >= 1 ==> e * d >= d
    ensures e <= -1 ==> e * d + d <= 0
  {
  }

  lemma DivUnique(a: int, d: nat, q: int, r: int)
    requires 0 <= r < d && a == q * d + r
    ensures a / d == q
  {
    var e := a / d - q;
    assert a == (a / d) * d + a % d;
    assert e * d == r - a % d;
    MulBound(e, d);
  }

  function ChunkLen(size: nat, n: nat): nat { if n < size then n else size }

  /** `div_ceil`. */
  function ChunkCount(size: nat, n: nat): nat
    requires size > 0
  {
    (n + size - 1) / size
  }

  /** The next piece counts one, and ends at a multiple of the size or at the end. */
  lemma NextChunk(size: nat, done: nat, total: nat)
    requires size > 0 && done % size == 0 && done < total
    ensures var n := ChunkLen(size, total - done);
            && 1 <= n <= size && ((done + n) % size == 0 || done + n == total)
            && ChunkCount(size, done + n) == ChunkCount(size, done) + 1
  {
    var k, n := done / size, ChunkLen(size, total - done);
    assert done == k * size;
    DivUnique(done + size - 1, size, k, size - 1);
    DivUnique(done + n + size - 1, size, k + 1, n - 1);
    if n == size {
      assert done + size == (k + 1) * size;
      DivUnique(done + size, size, k + 1, 0);
    }
  }

  lemma CountMonotone(size: nat, a: nat, b: nat)
    requires size > 0 && a <= b
    ensures ChunkCount(size, a) <= ChunkCount(size, b)
  {
    var x, y := a + size - 1, b + size - 1;
    var e := x / size - y / size;
    assert x == x / size * size + x % size && y == y / size * size + y % size;
    assert e * size == x - x % size - (y - y % size);
    MulBound(e, size);
  }
}
