/** Finite sums f(0) + ... + f(n - 1) and the rearrangements the cofactor
    proofs need: pointwise rewriting, scaling, splitting off one term,
    dropping one index, and exchanging the order of a double sum.
 */
module Sums {

  /** f(0) + ... + f(n - 1), added from the front. */
  function Sum(n: nat, f: nat -> real): real {
    if n == 0 then 0.0 else Sum(n - 1, f) + f(n - 1)
  }

  /** Sums of pointwise equal terms are equal. */
  lemma {:induction false} SumExt(n: nat, f: nat -> real, h: nat -> real)
    requires forall i :: 0 <= i < n ==> f(i) == h(i)
    ensures Sum(n, f) == Sum(n, h)
  {
    if n > 0 {
      SumExt(n - 1, f, h);
    }
  }

  /** A sum of zeros is zero. */
  lemma {:induction false} SumZero(n: nat, f: nat -> real)
    requires forall i :: 0 <= i < n ==> f(i) == 0.0
    ensures Sum(n, f) == 0.0
  {
    if n > 0 {
      SumZero(n - 1, f);
    }
  }

  /** `a * b` as one uninterpreted term: facts stated with it combine by
      congruence, without the solver re-sorting the factors of a product. */
  function Times(a: real, b: real): real {
    a * b
  }

  /** Anything times zero is zero. */
  lemma TimesZero(c: real)
    ensures Times(c, 0.0) == 0.0
  {
  }

  /** A common factor comes out of a sum. */
  lemma {:induction false} SumScale(n: nat, f: nat -> real, c: real, h: nat -> real)
    requires forall i :: 0 <= i < n ==> h(i) == Times(c, f(i))
    ensures Sum(n, h) == Times(c, Sum(n, f))
  {
    if n > 0 {
      SumScale(n - 1, f, c, h);
    }
  }

  /** Every term multiplied by `c`. */
  function Scaled(c: real, f: nat -> real): nat -> real {
    (i: nat) => c * f(i)
  }

  /** A sum of scaled terms is the scaled sum. */
  lemma SumScaled(n: nat, c: real, f: nat -> real)
    ensures Sum(n, Scaled(c, f)) == Times(c, Sum(n, f))
  {
    SumScale(n, f, c, Scaled(c, f));
  }

  /** The sum of pointwise sums is the sum of the two sums. */
  lemma {:induction false} SumAdd(n: nat, f: nat -> real, h: nat -> real, s: nat -> real)
    requires forall i :: 0 <= i < n ==> s(i) == f(i) + h(i)
    ensures Sum(n, s) == Sum(n, f) + Sum(n, h)
  {
    if n > 0 {
      SumAdd(n - 1, f, h, s);
    }
  }

  /** The first term split off: the rest is the sum of the shifted terms. */
  lemma {:induction false} SumSplitFirst(n: nat, f: nat -> real, h: nat -> real)
    requires n > 0
    requires forall i :: 0 <= i < n - 1 ==> h(i) == f(i + 1)
    ensures Sum(n, f) == f(0) + Sum(n - 1, h)
  {
    if n > 1 {
      SumSplitFirst(n - 1, f, h);
    }
  }

  /** Summing over every index but `k` is the whole sum less term `k`;
      `h` enumerates the remaining indices in order. */
  lemma {:induction false} SumDropOne(n: nat, f: nat -> real, k: nat, h: nat -> real)
    requires k < n
    requires forall i :: 0 <= i < n - 1 ==> h(i) == f(if i < k then i else i + 1)
    ensures Sum(n - 1, h) == Sum(n, f) - f(k)
  {
    if k == n - 1 {
      SumExt(n - 1, h, f);
    } else {
      SumDropOne(n - 1, f, k, h);
    }
  }

  /** Row `i` of a table of terms. */
  function RowOf(F: (nat, nat) -> real, i: nat): nat -> real {
    (j: nat) => F(i, j)
  }

  /** Column `j` of a table of terms. */
  function ColumnOf(F: (nat, nat) -> real, j: nat): nat -> real {
    (i: nat) => F(i, j)
  }

  /** Row sums of a table with m columns. */
  function RowSums(m: nat, F: (nat, nat) -> real): nat -> real {
    (i: nat) => Sum(m, RowOf(F, i))
  }

  /** Column sums of a table with n rows. */
  function ColumnSums(n: nat, F: (nat, nat) -> real): nat -> real {
    (j: nat) => Sum(n, ColumnOf(F, j))
  }

  /** A double sum over n rows and m columns may be taken row by row or
      column by column. */
  lemma {:induction false} SumSwap(n: nat, m: nat, F: (nat, nat) -> real)
    ensures Sum(n, RowSums(m, F)) == Sum(m, ColumnSums(n, F))
  {
    if n > 0 {
      SumSwap(n - 1, m, F);
      forall j | 0 <= j < m
        ensures ColumnSums(n, F)(j) == ColumnSums(n - 1, F)(j) + RowOf(F, n - 1)(j)
      {
        assert ColumnSums(n, F)(j) == Sum(n, ColumnOf(F, j));
        assert ColumnSums(n - 1, F)(j) == Sum(n - 1, ColumnOf(F, j));
      }
      SumAdd(m, ColumnSums(n - 1, F), RowOf(F, n - 1), ColumnSums(n, F));
      assert RowSums(m, F)(n - 1) == Sum(m, RowOf(F, n - 1));
    } else {
      SumZero(m, ColumnSums(0, F));
    }
  }
}
