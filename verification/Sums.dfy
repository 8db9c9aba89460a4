/** Finite sums over an index range, of integers and of reals. */
module Sums {

  ghost function Sum(n: nat, f: int -> int): int {
    if n == 0 then 0 else Sum(n - 1, f) + f(n - 1)
  }

  ghost function RSum(n: nat, f: int -> real): real {
    if n == 0 then 0.0 else RSum(n - 1, f) + f(n - 1)
  }

  lemma {:induction false} SumSame(n: nat, f: int -> int, g: int -> int)
    requires forall i | 0 <= i < n :: f(i) == g(i)
    ensures Sum(n, f) == Sum(n, g)
  {
    if n > 0 {
      SumSame(n - 1, f, g);
    }
  }

  lemma {:induction false} SumPlus(n: nat, f: int -> int, g: int -> int, h: int -> int)
    requires forall i | 0 <= i < n :: h(i) == f(i) + g(i)
    ensures Sum(n, h) == Sum(n, f) + Sum(n, g)
  {
    if n > 0 {
      SumPlus(n - 1, f, g, h);
    }
  }

  lemma {:induction false} SumTimes(n: nat, c: int, f: int -> int, h: int -> int)
    requires forall i | 0 <= i < n :: h(i) == c * f(i)
    ensures Sum(n, h) == c * Sum(n, f)
  {
    if n > 0 {
      SumTimes(n - 1, c, f, h);
    }
  }

  /** The first `m` terms and the `n` after them. */
  lemma {:induction false} SumSplit(m: nat, n: nat, f: int -> int, g: int -> int)
    requires forall i | 0 <= i < n :: g(i) == f(m + i)
    ensures Sum(m + n, f) == Sum(m, f) + Sum(n, g)
  {
    if n > 0 {
      SumSplit(m, n - 1, f, g);
    }
  }

  /** `n` blocks of `b` terms each, block by block. */
  lemma {:induction false} SumBlocks(n: nat, b: nat, f: int -> int, g: int -> int)
    requires forall i | 0 <= i < n :: g(i) == Sum(b, j => f(i * b + j))
    ensures Sum(n * b, f) == Sum(n, g)
  {
    hide Sum;
    if n > 0 {
      SumBlocks(n - 1, b, f, g);
      BlockEnd(n - 1, b, f);
      SumStep(n - 1, g);
    } else {
      SumNone(f);
      SumNone(g);
    }
  }

  lemma {:induction false} BlockEnd(n: nat, b: nat, f: int -> int)
    ensures Sum((n + 1) * b, f) == Sum(n * b, f) + Sum(b, j => f(n * b + j))
  {
    hide Sum;
    assert (n + 1) * b == n * b + b;
    SumSplit(n * b, b, f, j => f(n * b + j));
  }

  lemma {:induction false} SumNone(f: int -> int)
    ensures Sum(0, f) == 0
  {
  }

  lemma {:induction false} SumStep(n: nat, f: int -> int)
    ensures Sum(n + 1, f) == Sum(n, f) + f(n)
  {
  }

  /** Two neighbouring terms at a time. */
  lemma {:induction false} SumPairs(n: nat, f: int -> int, g: int -> int)
    requires forall i | 0 <= i < n :: g(i) == f(2 * i) + f(2 * i + 1)
    ensures Sum(2 * n, f) == Sum(n, g)
  {
    hide Sum;
    if n > 0 {
      SumPairs(n - 1, f, g);
      SumStep(2 * n - 2, f);
      SumStep(2 * n - 1, f);
      SumStep(n - 1, g);
    } else {
      SumNone(f);
      SumNone(g);
    }
  }

  lemma {:induction false} SumBound(n: nat, f: int -> int, lo: int, hi: int)
    requires forall i | 0 <= i < n :: lo <= f(i) <= hi
    ensures n * lo <= Sum(n, f) <= n * hi
  {
    hide Sum;
    if n > 0 {
      SumBound(n - 1, f, lo, hi);
      SumStep(n - 1, f);
      assert n * lo == (n - 1) * lo + lo && n * hi == (n - 1) * hi + hi;
    } else {
      SumNone(f);
    }
  }

  // ----- Sums in another order

  lemma {:induction false} SumZero(n: nat, f: int -> int)
    requires forall i | 0 <= i < n :: f(i) == 0
    ensures Sum(n, f) == 0
  {
    if n > 0 {
      SumZero(n - 1, f);
    }
  }

  /** A sum with one nonzero term. */
  lemma {:induction false} SumOnly(n: nat, f: int -> int, k: nat)
    requires k < n && forall i | 0 <= i < n && i != k :: f(i) == 0
    ensures Sum(n, f) == f(k)
  {
    if k == n - 1 {
      SumZero(n - 1, f);
    } else {
      SumOnly(n - 1, f, k);
    }
  }

  /** A table of terms, by rows and by columns. */
  lemma {:induction false} SumSwap(m: nat, n: nat, f: (int, int) -> int, rows: int -> int, cols: int -> int)
    requires forall i | 0 <= i < m :: rows(i) == Sum(n, j => f(i, j))
    requires forall j | 0 <= j < n :: cols(j) == Sum(m, i => f(i, j))
    ensures Sum(m, rows) == Sum(n, cols)
  {
    if m == 0 {
      SumZero(n, cols);
    } else {
      SumSwap(m - 1, n, f, rows, j => Sum(m - 1, i => f(i, j)));
      SumPlus(n, j => Sum(m - 1, i => f(i, j)), j => f(m - 1, j), cols);
    }
  }

  /** `p` permutes the indices and `inv` undoes it. */
  ghost predicate Permutes(n: nat, p: int -> int, inv: int -> int) {
    && (forall i | 0 <= i < n :: 0 <= p(i) < n && inv(p(i)) == i)
    && (forall j | 0 <= j < n :: 0 <= inv(j) < n && p(inv(j)) == j)
  }

  /** Where `p` permutes the indices, the sum in its order is the same. */
  lemma {:induction false} SumReorder(n: nat, f: int -> int, p: int -> int, inv: int -> int)
    requires Permutes(n, p, inv)
    ensures Sum(n, i => f(p(i))) == Sum(n, f)
  {
    var hit := (i: int, j: int) => if p(i) == j then f(j) else 0;
    assert IsTable(f, p, hit);
    hide Sum, Permutes, IsTable;
    RowSums(n, f, p, inv, hit);
    ColumnSums(n, f, p, inv, hit);
    SumSwap(n, n, hit, i => f(p(i)), f);
  }

  /** The terms in a table, `f(j)` in row `i` where `p` takes `i` to `j`. */
  ghost predicate IsTable(f: int -> int, p: int -> int, hit: (int, int) -> int) {
    forall i, j :: hit(i, j) == if p(i) == j then f(j) else 0
  }

  lemma {:induction false} RowSums(n: nat, f: int -> int, p: int -> int, inv: int -> int, hit: (int, int) -> int)
    requires Permutes(n, p, inv) && IsTable(f, p, hit)
    ensures forall i | 0 <= i < n :: Sum(n, j => hit(i, j)) == f(p(i))
  {
    hide Sum;
    forall i | 0 <= i < n
      ensures Sum(n, j => hit(i, j)) == f(p(i))
    {
      SumOnly(n, j => hit(i, j), p(i));
    }
  }

  lemma {:induction false} ColumnSums(n: nat, f: int -> int, p: int -> int, inv: int -> int, hit: (int, int) -> int)
    requires Permutes(n, p, inv) && IsTable(f, p, hit)
    ensures forall j | 0 <= j < n :: Sum(n, i => hit(i, j)) == f(j)
  {
    hide Sum;
    forall j | 0 <= j < n
      ensures Sum(n, i => hit(i, j)) == f(j)
    {
      forall i | 0 <= i < n && i != inv(j)
        ensures hit(i, j) == 0
      {
        assert inv(p(i)) == i;
      }
      SumOnly(n, i => hit(i, j), inv(j));
    }
  }

  // ----- Reals

  lemma {:induction false} RSumNone(f: int -> real)
    ensures RSum(0, f) == 0.0
  {
  }

  lemma {:induction false} RSumStep(n: nat, f: int -> real)
    ensures RSum(n + 1, f) == RSum(n, f) + f(n)
  {
  }

  lemma {:induction false} RSumSame(n: nat, f: int -> real, g: int -> real)
    requires forall i | 0 <= i < n :: f(i) == g(i)
    ensures RSum(n, f) == RSum(n, g)
  {
    if n > 0 {
      RSumSame(n - 1, f, g);
    }
  }

  lemma {:induction false} RSumPlus(n: nat, f: int -> real, g: int -> real, h: int -> real)
    requires forall i | 0 <= i < n :: h(i) == f(i) + g(i)
    ensures RSum(n, h) == RSum(n, f) + RSum(n, g)
  {
    if n > 0 {
      RSumPlus(n - 1, f, g, h);
    }
  }

  lemma {:induction false} RSumTimes(n: nat, c: real, f: int -> real, h: int -> real)
    requires forall i | 0 <= i < n :: h(i) == c * f(i)
    ensures RSum(n, h) == c * RSum(n, f)
  {
    if n > 0 {
      RSumTimes(n - 1, c, f, h);
    }
  }

  lemma {:induction false} RSumSplit(m: nat, n: nat, f: int -> real, g: int -> real)
    requires forall i | 0 <= i < n :: g(i) == f(m + i)
    ensures RSum(m + n, f) == RSum(m, f) + RSum(n, g)
  {
    if n > 0 {
      RSumSplit(m, n - 1, f, g);
    }
  }

  lemma {:induction false} RSumMonotone(n: nat, f: int -> real, g: int -> real)
    requires forall i | 0 <= i < n :: f(i) <= g(i)
    ensures RSum(n, f) <= RSum(n, g)
  {
    if n > 0 {
      RSumMonotone(n - 1, f, g);
    }
  }

  lemma {:induction false} RSumPositive(n: nat, f: int -> real)
    requires n > 0 && forall i | 0 <= i < n :: f(i) > 0.0
    ensures RSum(n, f) > 0.0
  {
    if n > 1 {
      RSumPositive(n - 1, f);
    }
  }

  /** `n` blocks of `b` terms each, block by block. */
  lemma {:induction false} RSumBlocks(n: nat, b: nat, f: int -> real, g: int -> real)
    requires forall i | 0 <= i < n :: g(i) == RSum(b, j => f(i * b + j))
    ensures RSum(n * b, f) == RSum(n, g)
  {
    hide RSum;
    if n > 0 {
      RSumBlocks(n - 1, b, f, g);
      RBlockEnd(n - 1, b, f);
      RSumStep(n - 1, g);
    } else {
      RSumNone(f);
      RSumNone(g);
    }
  }

  lemma {:induction false} RBlockEnd(n: nat, b: nat, f: int -> real)
    ensures RSum((n + 1) * b, f) == RSum(n * b, f) + RSum(b, j => f(n * b + j))
  {
    hide RSum;
    assert (n + 1) * b == n * b + b;
    RSumSplit(n * b, b, f, j => f(n * b + j));
  }
}
