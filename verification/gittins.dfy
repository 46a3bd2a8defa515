/**
 * The table lookup of the Beta-Bernoulli Gittins-index policy (discount 0.98).
 *
 * The posterior pseudo-counts are reals. They are cast to `uint64`, which
 * truncates and copies, then decremented with `uint64` arithmetic, because the
 * table was written for 1-based indexing. The source's `alphas - 1` builds a new
 * array; since the cast already copied, the model decrements the copy in place,
 * which no caller can tell apart. Each decremented count at or past the table's
 * last row (or column) is then clamped in place to that last row (or column),
 * and the table is read at the resulting pairs.
 */
module GittinsIndex {

  /** 2^64: `uint64` arithmetic is modulo this value. */
  const UINT64_LIMIT: int := 0x1_0000_0000_0000_0000

  /** A Gittins-index table: at least one row, and every row has the same positive length. */
  predicate WellFormedTable(table: seq<seq<real>>) {
    |table| > 0 && |table[0]| > 0 &&
    forall r :: 0 <= r < |table| ==> |table[r]| == |table[0]|
  }

  /** A real that `astype(np.uint64)` converts without overflow. */
  predicate CastableCount(c: real) {
    0.0 <= c && c < UINT64_LIMIT as real
  }

  /** Pseudo-counts the lookup accepts: one alpha and one beta per arm, all castable. */
  predicate CastableCounts(alphas: seq<real>, betas: seq<real>) {
    |alphas| == |betas| &&
    (forall i :: 0 <= i < |alphas| ==> CastableCount(alphas[i])) &&
    (forall i :: 0 <= i < |betas| ==> CastableCount(betas[i]))
  }

  /** `x - 1` on a `uint64`. */
  function Decrement(x: nat): (r: nat)
    requires x < UINT64_LIMIT
    ensures r < UINT64_LIMIT
    ensures x > 0 ==> r == x - 1
    ensures x == 0 ==> r == UINT64_LIMIT - 1
  {
    (x - 1) % UINT64_LIMIT
  }

  /** The masked assignment `a[a >= size] = size - 1` on one element. */
  function Clamp(x: nat, size: nat): (r: nat)
    requires size > 0
    ensures r < size
    ensures x < size ==> r == x
  {
    if x >= size then size - 1 else x
  }

  /** The row (or column) the lookup reads for one pseudo-count. */
  function TableIndex(count: real, size: nat): (k: nat)
    requires CastableCount(count)
    requires size > 0
    ensures k < size
    ensures count >= 1.0 ==> k == if count.Floor - 1 < size then count.Floor - 1 else size - 1
  {
    Clamp(Decrement(count.Floor), size)
  }

  /** The Gittins index of every arm: `indices[alphas, betas]` after re-basing and clamping. */
  function Scores(table: seq<seq<real>>, alphas: seq<real>, betas: seq<real>): (s: seq<real>)
    requires WellFormedTable(table)
    requires CastableCounts(alphas, betas)
    ensures |s| == |alphas|
  {
    seq(|alphas|, i requires 0 <= i < |alphas| =>
      table[TableIndex(alphas[i], |table|)][TableIndex(betas[i], |table[0]|)])
  }

  /** `counts.astype(np.uint64)`: a fresh array of the truncated counts. */
  method CastToUInt64(counts: seq<real>) returns (a: array<nat>)
    requires forall i :: 0 <= i < |counts| ==> CastableCount(counts[i])
    ensures fresh(a)
    ensures a.Length == |counts|
    ensures forall i :: 0 <= i < a.Length ==> a[i] == counts[i].Floor && a[i] < UINT64_LIMIT
  {
    a := new nat[|counts|];
    var i := 0;
    while i < |counts|
      invariant 0 <= i <= |counts|
      invariant forall j :: 0 <= j < i ==> a[j] == counts[j].Floor && a[j] < UINT64_LIMIT
    {
      a[i] := counts[i].Floor;
      i := i + 1;
    }
  }

  /** `a = a - 1` on a `uint64` array, element by element (on the cast's private copy). */
  method RebaseInPlace(a: array<nat>)
    requires forall i :: 0 <= i < a.Length ==> a[i] < UINT64_LIMIT
    modifies a
    ensures forall i :: 0 <= i < a.Length ==> old(a[i]) < UINT64_LIMIT && a[i] == Decrement(old(a[i]))
  {
    var i := 0;
    while i < a.Length
      invariant 0 <= i <= a.Length
      invariant forall j :: 0 <= j < i ==> old(a[j]) < UINT64_LIMIT && a[j] == Decrement(old(a[j]))
      invariant forall j :: i <= j < a.Length ==> a[j] == old(a[j])
    {
      a[i] := Decrement(a[i]);
      i := i + 1;
    }
  }

  /** `a[a >= size] = size - 1`: clamp every element to the last valid index. */
  method ClampInPlace(a: array<nat>, size: nat)
    requires size > 0
    modifies a
    ensures forall i :: 0 <= i < a.Length ==> a[i] == Clamp(old(a[i]), size) && a[i] < size
  {
    var i := 0;
    while i < a.Length
      invariant 0 <= i <= a.Length
      invariant forall j :: 0 <= j < i ==> a[j] == Clamp(old(a[j]), size) && a[j] < size
      invariant forall j :: i <= j < a.Length ==> a[j] == old(a[j])
    {
      if a[i] >= size {
        a[i] := size - 1;
      }
      i := i + 1;
    }
  }

  /**
   * Lines 80-92 of the policy: cast, re-base and clamp the counts in place,
   * then read the table at every (alpha, beta) pair. Every table access is
   * in bounds, whatever the counts.
   */
  method LookupScores(table: seq<seq<real>>, alphas: seq<real>, betas: seq<real>)
      returns (scores: seq<real>)
    requires WellFormedTable(table)
    requires CastableCounts(alphas, betas)
    ensures scores == Scores(table, alphas, betas)
  {
    var a := CastToUInt64(alphas);
    var b := CastToUInt64(betas);
    RebaseInPlace(a);
    RebaseInPlace(b);
    ClampInPlace(a, |table|);
    ClampInPlace(b, |table[0]|);
    var rows, cols := a[..], b[..];
    assert forall j :: 0 <= j < |rows| ==> rows[j] == TableIndex(alphas[j], |table|);
    assert forall j :: 0 <= j < |cols| ==> cols[j] == TableIndex(betas[j], |table[0]|);
    var g := new real[|rows|];
    var i := 0;
    while i < |rows|
      invariant 0 <= i <= |rows|
      invariant forall j :: 0 <= j < i ==> g[j] == Scores(table, alphas, betas)[j]
    {
      g[i] := table[rows[i]][cols[i]];
      i := i + 1;
    }
    scores := g[..];
  }

  /**
   * Counts of at least one land on row (column) `count - 1`, saturated at the
   * table's last row (column).
   */
  lemma {:induction false} RebasedIndex(count: real, size: nat)
    requires CastableCount(count) && count >= 1.0
    requires size > 0
    ensures TableIndex(count, size) <= count.Floor - 1
    ensures TableIndex(count, size) == count.Floor - 1 || TableIndex(count, size) == size - 1
  {
  }

  /**
   * A count below one truncates to 0, and `0 - 1` wraps to 2^64 - 1: such an arm
   * is read at the table's LAST row (column), the one for the most observations.
   */
  lemma {:induction false} ZeroCountWrapsToLastIndex(count: real, size: nat)
    requires 0.0 <= count < 1.0
    requires 0 < size <= UINT64_LIMIT
    ensures TableIndex(count, size) == size - 1
  {
    assert count.Floor == 0;
    assert Decrement(0) == UINT64_LIMIT - 1;
  }

  /** Counts past the end of the table are read at its last row (column), never out of range. */
  lemma {:induction false} LargeCountSaturates(count: real, size: nat)
    requires CastableCount(count)
    requires 0 < size && count.Floor >= size
    ensures TableIndex(count, size) == size - 1
  {
    assert Decrement(count.Floor) == count.Floor - 1;
  }
}
