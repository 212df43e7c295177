/**
 * How the coordinator cuts the rows into batches (mac_ai_cleaner.py:413-418):
 * `for batch_start in range(0, total_rows, batch_size)` with
 * `batch_end = min(batch_start + batch_size, total_rows)`, each batch being
 * the half-open row range `[batch_start, batch_end)`.
 */
module Batching {

  function Min(a: int, b: int): (r: int)
    ensures r <= a && r <= b && (r == a || r == b)
  {
    if a <= b then a else b
  }

  /** The `(batch_start, batch_end)` pairs of `range(lo, n, size)`. */
  function BatchesFrom(lo: nat, n: nat, size: nat): seq<(nat, nat)>
    requires size >= 1
    decreases n - lo
  {
    if lo >= n then [] else [(lo, Min(lo + size, n))] + BatchesFrom(lo + size, n, size)
  }

  /** The batches of a run over `n` rows. */
  function Batches(n: nat, size: nat): seq<(nat, nat)>
    requires size >= 1
  {
    BatchesFrom(0, n, size)
  }

  /** `ceil(n / size)` in integer arithmetic. */
  function BatchCount(n: nat, size: nat): nat
    requires size >= 1
  {
    (n + size - 1) / size
  }

  lemma MulMonotone(a: nat, b: nat, size: nat)
    requires a <= b
    ensures a * size <= b * size
  {
  }

  lemma MulDistributes(a: int, b: int, size: int)
    ensures (a - b) * size == a * size - b * size
  {
  }

  /** Euclidean division has one quotient and one remainder. */
  lemma DivUnique(x: int, size: int, q: int, r: int)
    requires size >= 1 && x == q * size + r && 0 <= r < size
    ensures x / size == q && x % size == r
  {
    var q', r' := x / size, x % size;
    assert x == q' * size + r';
    MulDistributes(q, q', size);
    if q > q' {
      MulMonotone(1, q - q', size);
    } else if q < q' {
      MulMonotone(1, q' - q, size);
      MulDistributes(q', q, size);
    }
  }

  lemma DivPlusOne(x: int, size: int)
    requires size >= 1 && x >= 0
    ensures (x + size) / size == x / size + 1
  {
    var q, r := x / size, x % size;
    assert x == q * size + r;
    MulDistributes(q + 1, q, size);
    DivUnique(x + size, size, q + 1, r);
  }

  lemma SmallDiv(x: int, size: int)
    requires size >= 1 && 0 <= x < size
    ensures x / size == 0
  {
  }

  /** The closed form of the batches that start at `lo`: the `j`-th starts `j` batch sizes later. */
  lemma {:induction false} BatchesFromShape(lo: nat, n: nat, size: nat)
    requires size >= 1
    ensures var bs := BatchesFrom(lo, n, size);
            && |bs| == (if lo >= n then 0 else (n - lo + size - 1) / size)
            && forall j :: 0 <= j < |bs| ==> bs[j] == (lo + j * size, Min(lo + (j + 1) * size, n))
    decreases n - lo
  {
    if lo < n {
      var bs := BatchesFrom(lo, n, size);
      var rest := BatchesFrom(lo + size, n, size);
      BatchesFromShape(lo + size, n, size);
      assert bs == [(lo, Min(lo + size, n))] + rest;
      if lo + size >= n {
        SmallDiv(n - lo - 1, size);
        DivPlusOne(n - lo - 1, size);
      } else {
        DivPlusOne(n - lo - 1, size);
      }
      forall j | 1 <= j < |bs|
        ensures bs[j] == (lo + j * size, Min(lo + (j + 1) * size, n))
      {
        assert bs[j] == rest[j - 1];
        assert lo + size + (j - 1) * size == lo + j * size;
        assert lo + size + j * size == lo + (j + 1) * size;
      }
    }
  }

  /**
   * The batches from `lo` on are non-empty, at most `size` long and inside
   * `[lo, n)`; each starts where the previous one ended and is full unless it
   * is the last; the first starts at `lo` and the last ends at `n`.
   */
  lemma {:induction false} BatchesFromChain(lo: nat, n: nat, size: nat)
    requires size >= 1
    ensures var bs := BatchesFrom(lo, n, size);
            && (bs == [] <==> lo >= n)
            && (lo < n ==> bs[0].0 == lo && bs[|bs| - 1].1 == n)
            && (forall j :: 0 <= j < |bs| ==> lo <= bs[j].0 < bs[j].1 <= n && bs[j].1 - bs[j].0 <= size)
            && (forall j :: 0 <= j < |bs| - 1 ==> bs[j].1 == bs[j + 1].0 && bs[j].1 - bs[j].0 == size)
    decreases n - lo
  {
    if lo < n {
      var bs := BatchesFrom(lo, n, size);
      var rest := BatchesFrom(lo + size, n, size);
      BatchesFromChain(lo + size, n, size);
      assert |bs| == |rest| + 1 && bs[0] == (lo, Min(lo + size, n));
      forall j | 1 <= j < |bs|
        ensures bs[j] == rest[j - 1]
      {
      }
    }
  }

  /** Each batch ends no later than any later one starts. */
  lemma {:induction false} BatchesFromOrdered(lo: nat, n: nat, size: nat)
    requires size >= 1
    ensures var bs := BatchesFrom(lo, n, size);
            forall j, j' :: 0 <= j < j' < |bs| ==> bs[j].1 <= bs[j'].0
    decreases n - lo
  {
    if lo < n {
      var bs := BatchesFrom(lo, n, size);
      var rest := BatchesFrom(lo + size, n, size);
      BatchesFromOrdered(lo + size, n, size);
      BatchesFromChain(lo + size, n, size);
      assert bs == [(lo, Min(lo + size, n))] + rest;
      forall j, j' | 0 <= j < j' < |bs|
        ensures bs[j].1 <= bs[j'].0
      {
        assert bs[j'] == rest[j' - 1];
        if j > 0 {
          assert bs[j] == rest[j - 1];
        }
      }
    }
  }

  /**
   * The batches partition the rows `0 .. n-1` in order: there are
   * `ceil(n / size)` of them, each is non-empty and at most `size` long, each
   * starts where the previous one ended, every batch but the last is full,
   * the first starts at row 0 and the last ends at row `n`.
   */
  lemma BatchesPartition(n: nat, size: nat)
    requires size >= 1
    ensures var bs := Batches(n, size);
            && |bs| == BatchCount(n, size)
            && (forall j :: 0 <= j < |bs| ==> bs[j].0 < bs[j].1 <= n && bs[j].1 - bs[j].0 <= size)
            && (forall j :: 0 <= j < |bs| - 1 ==> bs[j].1 == bs[j + 1].0 && bs[j].1 - bs[j].0 == size)
            && (n == 0 <==> bs == [])
            && (n > 0 ==> bs[0].0 == 0 && bs[|bs| - 1].1 == n)
  {
    BatchesFromChain(0, n, size);
    BatchesCount(n, size);
  }

  lemma BatchesCount(n: nat, size: nat)
    requires size >= 1
    ensures |Batches(n, size)| == BatchCount(n, size)
  {
    BatchesFromShape(0, n, size);
    if n == 0 {
      SmallDiv(size - 1, size);
    }
  }

  /** Batch `j` is `[j * size, min((j + 1) * size, n))`. */
  lemma BatchAt(n: nat, size: nat, j: nat)
    requires size >= 1 && j < |Batches(n, size)|
    ensures Batches(n, size)[j] == (j * size, Min((j + 1) * size, n))
  {
    BatchesFromShape(0, n, size);
    assert Batches(n, size)[j] == (0 + j * size, Min(0 + (j + 1) * size, n));
  }

  lemma DivBounds(i: nat, size: nat)
    requires size >= 1
    ensures (i / size) * size <= i < (i / size) * size + size
  {
  }

  lemma MulSucc(q: nat, size: nat)
    ensures (q + 1) * size == q * size + size
  {
  }

  /** Row `i` belongs to batch `i / size`, and to no other. */
  lemma RowInOneBatch(n: nat, size: nat, i: nat)
    requires size >= 1 && i < n
    ensures var bs := Batches(n, size);
            && i / size < |bs| && bs[i / size].0 <= i < bs[i / size].1
            && forall j :: 0 <= j < |bs| && bs[j].0 <= i < bs[j].1 ==> j == i / size
  {
    var bs := Batches(n, size);
    var q := i / size;
    DivBounds(i, size);
    MulSucc(q, size);
    var c := |bs|;
    BatchesCover(n, size);
    if q >= c {
      MulMonotone(c, q, size);
      assert false;
    }
    BatchAt(n, size, q);
    forall j | 0 <= j < c && bs[j].0 <= i < bs[j].1
      ensures j == q
    {
      BatchAt(n, size, j);
      BatchIndexOfRow(n, size, i, j, q);
    }
  }

  /** The batches reach row `n`: `ceil(n / size)` batches of `size` rows hold at least `n` rows. */
  lemma BatchesCover(n: nat, size: nat)
    requires size >= 1
    ensures n <= |Batches(n, size)| * size
  {
    var bs := Batches(n, size);
    BatchesPartition(n, size);
    if n > 0 {
      var c := |bs|;
      BatchAt(n, size, c - 1);
      assert bs[c - 1].1 == Min(c * size, n) == n;
    }
  }

  lemma BatchIndexOfRow(n: nat, size: nat, i: nat, j: nat, q: nat)
    requires size >= 1
    requires j * size <= i < (j + 1) * size
    requires q * size <= i < (q + 1) * size
    ensures j == q
  {
    MulDistributes(j + 1, 1, size);
    MulDistributes(q + 1, 1, size);
    if j < q {
      MulMonotone(j + 1, q, size);
    } else if j > q {
      MulMonotone(q + 1, j, size);
    }
  }

  /** The batch ends, which the progress bar reports, strictly increase. */
  lemma BatchEndsIncrease(n: nat, size: nat)
    requires size >= 1
    ensures var bs := Batches(n, size);
            forall j, j' :: 0 <= j < j' < |bs| ==> bs[j].1 < bs[j'].1
  {
    BatchesFromChain(0, n, size);
    BatchesFromOrdered(0, n, size);
  }
}
