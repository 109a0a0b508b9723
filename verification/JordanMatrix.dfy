/** Dense matrices, repeated squaring and the spectral features (`jordan_transformer.c`).
    Entries are real numbers. */
module JordanMatrix {
  import opened Basics

  // ---- matrices as values ----

  type Matrix = seq<seq<real>>

  ghost predicate Sized(m: Matrix, rows: nat, cols: nat) {
    |m| == rows && forall i :: 0 <= i < rows ==> |m[i]| == cols
  }

  ghost function Value(a: array2<real>): (m: Matrix)
    reads a
    ensures Sized(m, a.Length0, a.Length1)
    ensures forall i, j :: 0 <= i < a.Length0 && 0 <= j < a.Length1 ==> m[i][j] == a[i, j]
  {
    seq(a.Length0, i requires 0 <= i < a.Length0 reads a => seq(a.Length1, j requires 0 <= j < a.Length1 reads a => a[i, j]))
  }

  lemma SameMatrix(a: Matrix, b: Matrix, rows: nat, cols: nat)
    requires Sized(a, rows, cols) && Sized(b, rows, cols)
    requires forall i, j :: 0 <= i < rows && 0 <= j < cols ==> a[i][j] == b[i][j]
    ensures a == b
  {
    forall i | 0 <= i < rows ensures a[i] == b[i] {
    }
  }

  /** Row `i` times column `j`, over the first `k` terms. */
  ghost function Dot(a: Matrix, b: Matrix, i: nat, j: nat, k: nat): real
    requires i < |a| && k <= |a[i]| && k <= |b| && forall l :: 0 <= l < k ==> j < |b[l]|
  {
    if k == 0 then 0.0 else Dot(a, b, i, j, k - 1) + a[i][k - 1] * b[k - 1][j]
  }

  ghost function Product(a: Matrix, b: Matrix, rows: nat, inner: nat, cols: nat): (m: Matrix)
    requires Sized(a, rows, inner) && Sized(b, inner, cols)
    ensures Sized(m, rows, cols)
    ensures forall i, j :: 0 <= i < rows && 0 <= j < cols ==> m[i][j] == Dot(a, b, i, j, inner)
  {
    seq(rows, i requires 0 <= i < rows => seq(cols, j requires 0 <= j < cols => Dot(a, b, i, j, inner)))
  }

  /** The inner loop of `matrix_mult`: one entry of the product. */
  method Entry(a: array2<real>, b: array2<real>, i: nat, j: nat) returns (sum: real)
    requires a.Length1 == b.Length0 && i < a.Length0 && j < b.Length1
    ensures sum == Dot(Value(a), Value(b), i, j, a.Length1)
  {
    sum := 0.0;
    ghost var va, vb := Value(a), Value(b);
    for k := 0 to a.Length1
      invariant sum == Dot(va, vb, i, j, k)
    {
      sum := sum + a[i, k] * b[k, j];
    }
  }

  /** `matrix_mult`: null when the shapes do not fit, else the matrix product. */
  method MatrixMult(a: array2<real>, b: array2<real>) returns (c: array2?<real>)
    ensures c == null <==> a.Length1 != b.Length0
    ensures c != null ==> fresh(c) && c.Length0 == a.Length0 && c.Length1 == b.Length1
    ensures c != null ==> Value(c) == Product(Value(a), Value(b), a.Length0, a.Length1, b.Length1)
  {
    if a.Length1 != b.Length0 { return null; }
    c := new real[a.Length0, b.Length1];
    ghost var product := Product(Value(a), Value(b), a.Length0, a.Length1, b.Length1);
    for i := 0 to a.Length0
      invariant forall r, s :: 0 <= r < i && 0 <= s < b.Length1 ==> c[r, s] == product[r][s]
    {
      for j := 0 to b.Length1
        invariant forall r, s :: 0 <= r < i && 0 <= s < b.Length1 ==> c[r, s] == product[r][s]
        invariant forall s :: 0 <= s < j ==> c[i, s] == product[i][s]
      {
        var sum := Entry(a, b, i, j);
        c[i, j] := sum;
      }
    }
    SameMatrix(Value(c), product, a.Length0, b.Length1);
  }

  // ---- repeated squaring ----

  function Times(x: real, y: real): real { x * y }

  function Square(x: real): real { Times(x, x) }

  lemma PositiveTimes(x: real, y: real)
    requires x > 0.0 && y > 0.0
    ensures Times(x, y) > 0.0
  {
  }

  lemma TimesOfNegatives(x: real, y: real)
    ensures Times(-x, -y) == Times(x, y)
  {
  }

  lemma SquareSign(x: real)
    ensures Square(x) >= 0.0 && (x > 0.0 ==> Square(x) > 0.0)
  {
    if x > 0.0 {
      PositiveTimes(x, x);
    } else if x < 0.0 {
      PositiveTimes(-x, -x);
      TimesOfNegatives(x, x);
    }
  }

  /** The matrix after `k` squarings, its power to `2^k`. */
  ghost function Squared(m: Matrix, n: nat, k: nat): (s: Matrix)
    requires Sized(m, n, n)
    ensures Sized(s, n, n)
  {
    if k == 0 then m else Product(Squared(m, n, k - 1), Squared(m, n, k - 1), n, n, n)
  }

  ghost function RowGap(a: Matrix, b: Matrix, n: nat, i: nat, j: nat): real
    requires Sized(a, n, n) && Sized(b, n, n) && i < n && j <= n
    decreases j
  {
    if j == 0 then 0.0 else RowGap(a, b, n, i, j - 1) + Square(a[i][j - 1] - b[i][j - 1])
  }

  /** The squared Frobenius distance of the first `i` rows. */
  ghost function Gap(a: Matrix, b: Matrix, n: nat, i: nat): real
    requires Sized(a, n, n) && Sized(b, n, n) && i <= n
    decreases i
  {
    if i == 0 then 0.0 else Gap(a, b, n, i - 1) + RowGap(a, b, n, i - 1, n)
  }

  /** Squaring once more moves the matrix by less than the tolerance: the root of the squared distance is
      below it. */
  ghost predicate Settled(m: Matrix, n: nat, k: nat, tolerance: real)
    requires Sized(m, n, n)
  {
    tolerance > 0.0 && Gap(Squared(m, n, k + 1), Squared(m, n, k), n, n) < Square(tolerance)
  }

  /** The result is the first squaring that settles within the iterations allowed, -1 if there is none. */
  ghost predicate FirstSettled(m: Matrix, n: nat, maxIterations: int, tolerance: real, r: int)
    requires Sized(m, n, n)
  {
    if r < 0 then r == -1 && forall k: nat :: k < maxIterations ==> !Settled(m, n, k, tolerance)
    else r < maxIterations && Settled(m, n, r, tolerance) && forall k: nat :: k < r ==> !Settled(m, n, k, tolerance)
  }

  lemma SquaringStart(m: Matrix, n: nat)
    requires Sized(m, n, n)
    ensures Squared(m, n, 0) == m
  {
  }

  lemma SquaringStep(m: Matrix, n: nat, k: nat, tolerance: real, work: Matrix, squared: Matrix)
    requires Sized(m, n, n) && work == Squared(m, n, k) && squared == Product(work, work, n, n, n)
    ensures squared == Squared(m, n, k + 1)
    ensures Settled(m, n, k, tolerance) <==> tolerance > 0.0 && Gap(squared, work, n, n) < Square(tolerance)
  {
  }

  method Distance(a: array2<real>, b: array2<real>, n: nat) returns (diff: real)
    requires a.Length0 == a.Length1 == b.Length0 == b.Length1 == n
    ensures diff == Gap(Value(a), Value(b), n, n)
  {
    diff := 0.0;
    ghost var va, vb := Value(a), Value(b);
    for i := 0 to n
      invariant diff == Gap(va, vb, n, i)
    {
      for j := 0 to n
        invariant diff == Gap(va, vb, n, i) + RowGap(va, vb, n, i, j)
      {
        var d := a[i, j] - b[i, j];
        diff := diff + Square(d);
      }
    }
  }

  /** The body of the squaring loop. The comparison of the square root is made on squares. */
  method SquareOnce(work: array2<real>, tolerance: real, ghost m: Matrix, ghost k: nat)
      returns (squared: array2<real>, settled: bool)
    requires work.Length0 == work.Length1 && Sized(m, work.Length0, work.Length0)
    requires Value(work) == Squared(m, work.Length0, k)
    ensures fresh(squared) && squared.Length0 == squared.Length1 == work.Length0
    ensures Value(squared) == Squared(m, work.Length0, k + 1)
    ensures settled <==> Settled(m, work.Length0, k, tolerance)
  {
    squared := MatrixMult(work, work);
    SquaringStep(m, work.Length0, k, tolerance, Value(work), Value(squared));
    var diff := Distance(squared, work, work.Length0);
    settled := tolerance > 0.0 && diff < Square(tolerance);
  }

  /** `hk_jordan_converge_idempotent`. */
  method ConvergeIdempotent(matrix: array2?<real>, dim: int, maxIterations: int, tolerance: real) returns (r: int)
    requires matrix != null && dim > 0 ==> matrix.Length0 == matrix.Length1 == dim
    ensures matrix == null || dim <= 0 ==> r == -1
    ensures matrix != null && dim > 0 ==> FirstSettled(Value(matrix), dim, maxIterations, tolerance, r)
    ensures r == -1 || 0 <= r < maxIterations
  {
    if matrix == null || dim <= 0 { return -1; }
    ghost var m := Value(matrix);
    var work: array2<real> := CopyMatrix(matrix);
    var iter := 0;
    SquaringStart(m, dim);
    while iter < maxIterations
      invariant iter >= 0
      invariant work.Length0 == dim && work.Length1 == dim && Value(work) == Squared(m, dim, iter)
      invariant forall k: nat :: k < iter ==> !Settled(m, dim, k, tolerance)
    {
      var settled;
      work, settled := SquareOnce(work, tolerance, m, iter);
      if settled { return iter; }
      iter := iter + 1;
    }
    return -1;
  }

  method CopyMatrix(a: array2<real>) returns (c: array2<real>)
    ensures fresh(c) && c.Length0 == a.Length0 && c.Length1 == a.Length1 && Value(c) == Value(a)
  {
    c := new real[a.Length0, a.Length1];
    ghost var va := Value(a);
    for i := 0 to a.Length0
      invariant va == Value(a)
      invariant forall r, s :: 0 <= r < i && 0 <= s < a.Length1 ==> c[r, s] == va[r][s]
    {
      for j := 0 to a.Length1
        invariant va == Value(a)
        invariant forall r, s :: 0 <= r < i && 0 <= s < a.Length1 ==> c[r, s] == va[r][s]
        invariant forall s :: 0 <= s < j ==> c[i, s] == va[i][s]
      {
        c[i, j] := a[i, j];
      }
    }
    SameMatrix(Value(c), va, a.Length0, a.Length1);
  }

  // ---- nilpotent matrices settle after logarithmically many squarings ----

  /** Entries lead down at least `d` levels: where the level of the column is not that far below the level of
      the row, the entry is zero. */
  ghost predicate Graded(m: Matrix, n: nat, level: seq<nat>, d: nat)
    requires Sized(m, n, n) && |level| == n
  {
    forall i, j :: 0 <= i < n && 0 <= j < n && level[i] < level[j] + d ==> m[i][j] == 0.0
  }

  ghost predicate ZeroMatrix(m: Matrix, n: nat)
    requires Sized(m, n, n)
  {
    forall i, j :: 0 <= i < n && 0 <= j < n ==> m[i][j] == 0.0
  }

  /** Zero in every entry with `j < i + d`. */
  ghost predicate ZeroBelow(m: Matrix, n: nat, d: nat)
    requires Sized(m, n, n)
  {
    forall i, j :: 0 <= i < n && 0 <= j < n && j < i + d ==> m[i][j] == 0.0
  }

  ghost predicate StrictlyUpper(m: Matrix, n: nat)
    requires Sized(m, n, n)
  {
    ZeroBelow(m, n, 1)
  }

  /** In a triangular matrix the level of a row is its distance from the last one. */
  ghost function FromEnd(n: nat): (level: seq<nat>)
    ensures |level| == n && forall i :: 0 <= i < n ==> level[i] == n - 1 - i
  {
    seq(n, i requires 0 <= i < n => n - 1 - i)
  }

  lemma BandsAreGrades(m: Matrix, n: nat, d: nat)
    requires Sized(m, n, n)
    ensures ZeroBelow(m, n, d) <==> Graded(m, n, FromEnd(n), d)
  {
    var level := FromEnd(n);
    assert forall i, j :: 0 <= i < n && 0 <= j < n ==> (level[i] < level[j] + d <==> j < i + d);
    if ZeroBelow(m, n, d) {
      forall i, j | 0 <= i < n && 0 <= j < n && level[i] < level[j] + d ensures m[i][j] == 0.0 {
      }
    }
    if Graded(m, n, level, d) {
      forall i, j | 0 <= i < n && 0 <= j < n && j < i + d ensures m[i][j] == 0.0 {
        assert level[i] < level[j] + d;
      }
    }
  }

  lemma {:induction false} DotOfGrades(a: Matrix, b: Matrix, n: nat, level: seq<nat>, p: nat, q: nat, i: nat, j: nat, k: nat)
    requires Sized(a, n, n) && Sized(b, n, n) && |level| == n && Graded(a, n, level, p) && Graded(b, n, level, q)
    requires i < n && j < n && k <= n && level[i] < level[j] + p + q
    ensures Dot(a, b, i, j, k) == 0.0
  {
    if k > 0 {
      DotOfGrades(a, b, n, level, p, q, i, j, k - 1);
      assert a[i][k - 1] == 0.0 || b[k - 1][j] == 0.0;
    }
  }

  lemma ProductOfGrades(a: Matrix, b: Matrix, n: nat, level: seq<nat>, p: nat, q: nat)
    requires Sized(a, n, n) && Sized(b, n, n) && |level| == n && Graded(a, n, level, p) && Graded(b, n, level, q)
    ensures Graded(Product(a, b, n, n, n), n, level, p + q)
  {
    forall i, j | 0 <= i < n && 0 <= j < n && level[i] < level[j] + (p + q) ensures Product(a, b, n, n, n)[i][j] == 0.0 {
      DotOfGrades(a, b, n, level, p, q, i, j, n);
    }
  }

  /** Every squaring doubles the number of levels that entries lead down. */
  lemma {:induction false} SquaringDoublesTheGrade(m: Matrix, n: nat, level: seq<nat>, k: nat)
    requires Sized(m, n, n) && |level| == n && Graded(m, n, level, 1)
    ensures Graded(Squared(m, n, k), n, level, Pow2(k))
  {
    if k > 0 {
      SquaringDoublesTheGrade(m, n, level, k - 1);
      ProductOfGrades(Squared(m, n, k - 1), Squared(m, n, k - 1), n, level, Pow2(k - 1), Pow2(k - 1));
    }
  }

  /** The power `2^k` of a strictly upper triangular matrix is zero wherever `j - i < 2^k`. */
  lemma SquaringDoublesTheBand(m: Matrix, n: nat, k: nat)
    requires Sized(m, n, n) && StrictlyUpper(m, n)
    ensures ZeroBelow(Squared(m, n, k), n, Pow2(k))
  {
    BandsAreGrades(m, n, 1);
    SquaringDoublesTheGrade(m, n, FromEnd(n), k);
    BandsAreGrades(Squared(m, n, k), n, Pow2(k));
  }

  /** The least `k` with `n <= 2^k`. */
  function CeilLog2(n: nat): (k: nat)
    requires n > 0
    ensures n <= Pow2(k) && (k > 0 ==> Pow2(k - 1) < n)
  {
    if n == 1 then 0 else CeilLog2((n + 1) / 2) + 1
  }

  lemma CeilLog2Grows(a: nat, b: nat)
    requires 0 < a <= b
    ensures CeilLog2(a) <= CeilLog2(b)
  {
    var k, l := CeilLog2(a), CeilLog2(b);
    Pow2Grows(l, if l < k then k - 1 else l);
  }

  lemma {:induction false} NoRowGap(a: Matrix, b: Matrix, n: nat, i: nat, j: nat)
    requires Sized(a, n, n) && Sized(b, n, n) && ZeroMatrix(a, n) && ZeroMatrix(b, n) && i < n && j <= n
    ensures RowGap(a, b, n, i, j) == 0.0
  {
    if j > 0 { NoRowGap(a, b, n, i, j - 1); }
  }

  lemma {:induction false} NoGap(a: Matrix, b: Matrix, n: nat, i: nat)
    requires Sized(a, n, n) && Sized(b, n, n) && ZeroMatrix(a, n) && ZeroMatrix(b, n) && i <= n
    ensures Gap(a, b, n, i) == 0.0
  {
    if i > 0 {
      NoGap(a, b, n, i - 1);
      NoRowGap(a, b, n, i - 1, n);
    }
  }

  lemma GradedVanishes(m: Matrix, n: nat, level: seq<nat>, levels: nat, k: nat)
    requires Sized(m, n, n) && |level| == n && Graded(m, n, level, 1) && levels <= Pow2(k)
    requires forall i :: 0 <= i < n ==> level[i] < levels
    ensures ZeroMatrix(Squared(m, n, k), n)
  {
    SquaringDoublesTheGrade(m, n, level, k);
    forall i, j | 0 <= i < n && 0 <= j < n ensures Squared(m, n, k)[i][j] == 0.0 {
      assert level[i] < level[j] + Pow2(k);
    }
  }

  lemma GradedSettles(m: Matrix, n: nat, level: seq<nat>, levels: nat, k: nat, tolerance: real)
    requires Sized(m, n, n) && |level| == n && Graded(m, n, level, 1) && levels <= Pow2(k) && tolerance > 0.0
    requires forall i :: 0 <= i < n ==> level[i] < levels
    ensures Settled(m, n, k, tolerance)
  {
    GradedVanishes(m, n, level, levels, k);
    GradedVanishes(m, n, level, levels, k + 1);
    SquareSign(tolerance);
    assert Gap(Squared(m, n, k + 1), Squared(m, n, k), n, n) == 0.0 by {
      NoGap(Squared(m, n, k + 1), Squared(m, n, k), n, n);
    }
  }

  /** With a positive tolerance and iterations enough, the squaring loop finds its answer on every matrix whose
      entries lead down a scale of levels, after `ceil(log2 levels)` squarings at the latest. */
  lemma GradedConverges(m: Matrix, n: nat, level: seq<nat>, levels: nat, maxIterations: int, tolerance: real, r: int)
    requires Sized(m, n, n) && |level| == n && Graded(m, n, level, 1) && tolerance > 0.0
    requires levels > 0 && (forall i :: 0 <= i < n ==> level[i] < levels) && maxIterations > CeilLog2(levels)
    requires FirstSettled(m, n, maxIterations, tolerance, r)
    ensures 0 <= r <= CeilLog2(levels)
  {
    GradedSettles(m, n, level, levels, CeilLog2(levels), tolerance);
  }

  /** On strictly upper triangular matrices `ceil(log2 n)` squarings are enough. */
  lemma NilpotentConverges(m: Matrix, n: nat, maxIterations: int, tolerance: real, r: int)
    requires n > 0 && Sized(m, n, n) && StrictlyUpper(m, n) && tolerance > 0.0 && maxIterations > CeilLog2(n)
    requires FirstSettled(m, n, maxIterations, tolerance, r)
    ensures 0 <= r <= CeilLog2(n)
  {
    BandsAreGrades(m, n, 1);
    GradedConverges(m, n, FromEnd(n), n, maxIterations, tolerance, r);
  }

  // ---- the bound is the best possible: chains ----

  /** The matrix with ones exactly where `j == i + d`. */
  ghost predicate Ones(m: Matrix, n: nat, d: nat)
    requires Sized(m, n, n)
  {
    forall i, j :: 0 <= i < n && 0 <= j < n ==> m[i][j] == if j == i + d then 1.0 else 0.0
  }

  lemma {:induction false} DotOfOnes(m: Matrix, n: nat, d: nat, i: nat, j: nat, k: nat)
    requires Sized(m, n, n) && Ones(m, n, d) && i < n && j < n && k <= n
    ensures Dot(m, m, i, j, k) == if i + d < k && j == i + d + d then 1.0 else 0.0
  {
    if k > 0 { DotOfOnes(m, n, d, i, j, k - 1); }
  }

  lemma {:induction false} SquaringAChain(m: Matrix, n: nat, k: nat)
    requires Sized(m, n, n) && Ones(m, n, 1)
    ensures Ones(Squared(m, n, k), n, Pow2(k))
  {
    if k > 0 {
      var half := Squared(m, n, k - 1);
      SquaringAChain(m, n, k - 1);
      forall i, j | 0 <= i < n && 0 <= j < n ensures Squared(m, n, k)[i][j] == if j == i + Pow2(k) then 1.0 else 0.0 {
        DotOfOnes(half, n, Pow2(k - 1), i, j, n);
      }
    }
  }

  lemma {:induction false} RowGapAtLeast(a: Matrix, b: Matrix, n: nat, i: nat, j: nat, k: nat)
    requires Sized(a, n, n) && Sized(b, n, n) && i < n && k <= n
    ensures RowGap(a, b, n, i, k) >= if j < k then Square(a[i][j] - b[i][j]) else 0.0
  {
    if k > 0 {
      RowGapAtLeast(a, b, n, i, j, k - 1);
      SquareSign(a[i][k - 1] - b[i][k - 1]);
    }
  }

  lemma {:induction false} GapAtLeast(a: Matrix, b: Matrix, n: nat, i: nat, j: nat, k: nat)
    requires Sized(a, n, n) && Sized(b, n, n) && j < n && k <= n
    ensures Gap(a, b, n, k) >= if i < k then Square(a[i][j] - b[i][j]) else 0.0
  {
    if k > 0 {
      GapAtLeast(a, b, n, i, j, k - 1);
      RowGapAtLeast(a, b, n, k - 1, j, n);
    }
  }

  lemma {:induction false} Pow2Grows(k: nat, l: nat)
    requires k <= l
    ensures Pow2(k) <= Pow2(l)
  {
    if k < l { Pow2Grows(k, l - 1); }
  }

  lemma ChainNotSettled(m: Matrix, n: nat, k: nat, tolerance: real)
    requires Sized(m, n, n) && Ones(m, n, 1) && Pow2(k) < n && Square(tolerance) <= 1.0
    ensures !Settled(m, n, k, tolerance)
  {
    SquaringAChain(m, n, k);
    SquaringAChain(m, n, k + 1);
    GapAtLeast(Squared(m, n, k + 1), Squared(m, n, k), n, 0, Pow2(k), n);
    assert Square(-1.0) == 1.0;
  }

  /** For a chain of `n` nodes, each leading to the next with weight 1, and a tolerance of at most 1 the loop
      needs all of the `ceil(log2 n)` squarings. */
  lemma ChainsNeedTheWholeBound(m: Matrix, n: nat, maxIterations: int, tolerance: real, r: int)
    requires n > 0 && Sized(m, n, n) && Ones(m, n, 1)
    requires 0.0 < tolerance && Square(tolerance) <= 1.0 && maxIterations > CeilLog2(n)
    requires FirstSettled(m, n, maxIterations, tolerance, r)
    ensures r == CeilLog2(n)
  {
    NilpotentConverges(m, n, maxIterations, tolerance, r);
    if r < CeilLog2(n) {
      Pow2Grows(r, CeilLog2(n) - 1);
      ChainNotSettled(m, n, r, tolerance);
    }
  }

  /** A matrix that is its own square settles at once, whatever the tolerance. */
  lemma {:induction false} IdempotentConvergesAtOnce(m: Matrix, n: nat, maxIterations: int, tolerance: real, r: int)
    requires Sized(m, n, n) && Product(m, m, n, n, n) == m && tolerance > 0.0 && maxIterations > 0
    requires FirstSettled(m, n, maxIterations, tolerance, r)
    ensures r == 0
  {
    assert Squared(m, n, 1) == m && Squared(m, n, 0) == m;
    SelfGap(m, n, n);
    SquareSign(tolerance);
    assert Settled(m, n, 0, tolerance);
  }

  lemma {:induction false} SelfRowGap(m: Matrix, n: nat, i: nat, j: nat)
    requires Sized(m, n, n) && i < n && j <= n
    ensures RowGap(m, m, n, i, j) == 0.0
  {
    if j > 0 { SelfRowGap(m, n, i, j - 1); }
  }

  lemma {:induction false} SelfGap(m: Matrix, n: nat, i: nat)
    requires Sized(m, n, n) && i <= n
    ensures Gap(m, m, n, i) == 0.0
  {
    if i > 0 {
      SelfGap(m, n, i - 1);
      SelfRowGap(m, n, i - 1, n);
    }
  }

  // ---- spectral features ----

  datatype Status = HkOk | HkErrNull | HkErrAlloc | HkErrInvalidState

  datatype Features = Features(status: Status, spectralRadius: real, stabilityScore: real, jordanBlocks: int,
                               gershgorinRadius: real, spectralGap: real, convergenceTolerance: real)

  function Abs(x: real): real { if x < 0.0 then -x else x }

  /** `r` is the greatest of the numbers, or 0 when there are none above it. */
  ghost predicate IsPeak(s: seq<real>, r: real) {
    && (forall i :: 0 <= i < |s| ==> s[i] <= r)
    && (r == 0.0 || r in s)
  }

  /** `r` is the greatest of the numbers strictly between 0 and `top`, or 0 when there are none. */
  ghost predicate IsRunnerUp(s: seq<real>, top: real, r: real) {
    && r >= 0.0
    && (forall i :: 0 <= i < |s| && s[i] < top ==> s[i] <= r)
    && (r == 0.0 || (r in s && r < top))
  }

  ghost function Magnitudes(m: Matrix, n: nat): (s: seq<real>)
    requires Sized(m, n, n)
    ensures |s| == n && forall i :: 0 <= i < n ==> s[i] == Abs(m[i][i])
  {
    seq(n, i requires 0 <= i < n => Abs(m[i][i]))
  }

  /** The sum of the magnitudes in the first `k` places of row `i`, without the diagonal. */
  ghost function OffDiagonal(m: Matrix, n: nat, i: nat, k: nat): real
    requires Sized(m, n, n) && i < n && k <= n
  {
    if k == 0 then 0.0 else OffDiagonal(m, n, i, k - 1) + if k - 1 == i then 0.0 else Abs(m[i][k - 1])
  }

  ghost function RowSums(m: Matrix, n: nat): (s: seq<real>)
    requires Sized(m, n, n)
    ensures |s| == n && forall i :: 0 <= i < n ==> s[i] == OffDiagonal(m, n, i, n)
  {
    seq(n, i requires 0 <= i < n => OffDiagonal(m, n, i, n))
  }

  /** `qr_iterate`: a hundred times the diagonal is read off; the matrix is never changed. */
  method QrIterate(a: array2<real>, maxIter: nat) returns (eigenvalues: array<real>)
    requires a.Length0 == a.Length1
    ensures fresh(eigenvalues) && eigenvalues.Length == a.Length0
    ensures forall i :: 0 <= i < a.Length0 ==> eigenvalues[i] == if maxIter > 0 then Value(a)[i][i] else 0.0
  {
    var n := a.Length0;
    eigenvalues := new real[n](_ => 0.0);
    for iter := 0 to maxIter
      invariant forall i :: 0 <= i < n ==> eigenvalues[i] == if iter > 0 then a[i, i] else 0.0
    {
      for i := 0 to n
        invariant forall k :: 0 <= k < i ==> eigenvalues[k] == a[k, k]
      {
        eigenvalues[i] := a[i, i];
      }
    }
  }

  method Peak(s: array<real>) returns (r: real)
    ensures IsPeak(s[..], r) && r >= 0.0
  {
    r := 0.0;
    for i := 0 to s.Length
      invariant r >= 0.0 && (forall k :: 0 <= k < i ==> s[k] <= r) && (r == 0.0 || r in s[..])
    {
      if s[i] > r { r := s[i]; }
    }
  }

  method RunnerUp(s: array<real>, top: real) returns (r: real)
    ensures IsRunnerUp(s[..], top, r)
  {
    r := 0.0;
    for i := 0 to s.Length
      invariant r >= 0.0 && (forall k :: 0 <= k < i && s[k] < top ==> s[k] <= r) && (r == 0.0 || (r in s[..] && r < top))
    {
      if s[i] < top && s[i] > r { r := s[i]; }
    }
  }

  method MagnitudesOf(eigenvalues: array<real>) returns (s: array<real>)
    ensures fresh(s) && s.Length == eigenvalues.Length && forall i :: 0 <= i < s.Length ==> s[i] == Abs(eigenvalues[i])
  {
    s := new real[eigenvalues.Length];
    for i := 0 to s.Length
      invariant forall k :: 0 <= k < i ==> s[k] == Abs(eigenvalues[k])
    {
      s[i] := Abs(eigenvalues[i]);
    }
  }

  method GershgorinRadius(a: array2<real>) returns (r: real)
    requires a.Length0 == a.Length1
    ensures IsPeak(RowSums(Value(a), a.Length0), r)
  {
    var n := a.Length0;
    ghost var m := Value(a);
    r := 0.0;
    for i := 0 to n
      invariant r >= 0.0 && (forall k :: 0 <= k < i ==> RowSums(m, n)[k] <= r) && (r == 0.0 || r in RowSums(m, n))
    {
      var rowSum := 0.0;
      for j := 0 to n
        invariant rowSum == OffDiagonal(m, n, i, j)
      {
        if i != j { rowSum := rowSum + Abs(a[i, j]); }
      }
      assert RowSums(m, n)[i] == rowSum;
      if rowSum > r { r := rowSum; }
    }
  }

  /** What the features of an `n` by `n` matrix are. */
  ghost predicate FeaturesOf(m: Matrix, n: nat, f: Features)
    requires Sized(m, n, n)
  {
    && f.status == HkOk && f.jordanBlocks == n && f.convergenceTolerance == 0.00000001
    && IsPeak(Magnitudes(m, n), f.spectralRadius)
    && f.stabilityScore == (if f.spectralRadius < 1.0 then 0.9 else 0.1)
    && IsPeak(RowSums(m, n), f.gershgorinRadius)
    && (if n < 2 then f.spectralGap == 0.0
        else IsRunnerUp(Magnitudes(m, n), f.spectralRadius, f.spectralRadius - f.spectralGap))
  }

  /** `hk_jordan_transform`. */
  method JordanTransform(matrix: array2?<real>, dim: int) returns (f: Features)
    requires matrix != null && dim > 0 ==> matrix.Length0 == matrix.Length1 == dim
    ensures matrix == null || dim <= 0 ==> f == Features(HkErrNull, 0.0, 0.0, 0, 0.0, 0.0, 0.0)
    ensures matrix != null && dim > 0 ==> FeaturesOf(Value(matrix), dim, f)
  {
    if matrix == null || dim <= 0 { return Features(HkErrNull, 0.0, 0.0, 0, 0.0, 0.0, 0.0); }
    ghost var m := Value(matrix);
    var a := CopyMatrix(matrix);
    var eigenvalues := QrIterate(a, 100);
    var magnitudes := MagnitudesOf(eigenvalues);
    assert magnitudes[..] == Magnitudes(m, dim);
    var radius := Peak(magnitudes);
    var gershgorin := GershgorinRadius(a);
    var gap := 0.0;
    if dim >= 2 {
      var second := RunnerUp(magnitudes, radius);
      gap := radius - second;
    }
    return Features(HkOk, radius, if radius < 1.0 then 0.9 else 0.1, dim, gershgorin, gap, 0.00000001);
  }

  /** The sum of the magnitudes of some numbers. */
  ghost function Magnitude(row: seq<real>): real {
    if row == [] then 0.0 else
      var last := row[|row| - 1];
      Magnitude(row[..|row| - 1]) + if last < 0.0 then 0.0 - last else last
  }

  /** Without the diagonal: the whole row less the magnitude of its diagonal entry. */
  lemma {:induction false} OffDiagonalIs(m: Matrix, n: nat, i: nat, k: nat)
    requires Sized(m, n, n) && i < n && k <= n
    ensures OffDiagonal(m, n, i, k) ==
              Magnitude(m[i][..k]) - if i >= k then 0.0 else if m[i][i] < 0.0 then 0.0 - m[i][i] else m[i][i]
  {
    if k > 0 {
      OffDiagonalIs(m, n, i, k - 1);
      assert m[i][..k][..k - 1] == m[i][..k - 1];
    }
  }

  /** `v` is the largest size of the numbers. */
  ghost predicate Largest(s: seq<real>, v: real) {
    && (forall i :: 0 <= i < |s| ==> -v <= s[i] <= v)
    && exists i :: 0 <= i < |s| && (s[i] == v || s[i] == -v)
  }

  ghost function Diagonal(m: Matrix, n: nat): (s: seq<real>)
    requires Sized(m, n, n)
    ensures |s| == n && forall i :: 0 <= i < n ==> s[i] == m[i][i]
  {
    seq(n, i requires 0 <= i < n => m[i][i])
  }

  /** What the features say: the radius is the largest size on the diagonal; below 1 the matrix scores as stable, else
      not; the Gershgorin bound is the largest sum of a row without its diagonal; the gap leads from the radius to the
      next smaller size on the diagonal, and to 0 when there is none. */
  lemma FeaturesMean(m: Matrix, n: nat, f: Features)
    requires n > 0 && Sized(m, n, n) && FeaturesOf(m, n, f)
    ensures f.status == HkOk && f.jordanBlocks == n && f.convergenceTolerance == 0.00000001
    ensures Largest(Diagonal(m, n), f.spectralRadius)
    ensures f.stabilityScore == if forall i :: 0 <= i < n ==> -1.0 < m[i][i] < 1.0 then 0.9 else 0.1
    ensures forall i :: 0 <= i < n ==>
              Magnitude(m[i]) - (if m[i][i] < 0.0 then 0.0 - m[i][i] else m[i][i]) <= f.gershgorinRadius
    ensures exists i :: 0 <= i < n &&
              Magnitude(m[i]) - (if m[i][i] < 0.0 then 0.0 - m[i][i] else m[i][i]) == f.gershgorinRadius
    ensures n == 1 ==> f.spectralGap == 0.0
    ensures n > 1 ==>
              var second := f.spectralRadius - f.spectralGap;
              && (forall i :: 0 <= i < n && -f.spectralRadius < m[i][i] < f.spectralRadius ==> -second <= m[i][i] <= second)
              && (|| (second == 0.0 && forall i :: 0 <= i < n && m[i][i] != 0.0 ==>
                        m[i][i] == f.spectralRadius || m[i][i] == -f.spectralRadius)
                  || (0.0 < second < f.spectralRadius && exists i :: 0 <= i < n && (m[i][i] == second || m[i][i] == -second)))
  {
    RadiusIsLargest(m, n, f);
    GershgorinIsLargest(m, n, f);
    GapIsNext(m, n, f);
  }

  lemma RadiusIsLargest(m: Matrix, n: nat, f: Features)
    requires n > 0 && Sized(m, n, n) && FeaturesOf(m, n, f)
    ensures Largest(Diagonal(m, n), f.spectralRadius)
    ensures f.stabilityScore == if forall i :: 0 <= i < n ==> -1.0 < m[i][i] < 1.0 then 0.9 else 0.1
  {
    hide RowSums, IsRunnerUp;
    var s, d := Magnitudes(m, n), Diagonal(m, n);
    assert forall i :: 0 <= i < n ==> s[i] == Abs(d[i]);
    var k := 0;
    if f.spectralRadius != 0.0 { k :| 0 <= k < n && s[k] == f.spectralRadius; }
    assert s[k] == f.spectralRadius;
    assert d[k] == f.spectralRadius || d[k] == -f.spectralRadius;
    if f.spectralRadius >= 1.0 { assert !(-1.0 < m[k][k] < 1.0); }
  }

  lemma GershgorinIsLargest(m: Matrix, n: nat, f: Features)
    requires n > 0 && Sized(m, n, n) && FeaturesOf(m, n, f)
    ensures forall i :: 0 <= i < n ==>
              Magnitude(m[i]) - (if m[i][i] < 0.0 then 0.0 - m[i][i] else m[i][i]) <= f.gershgorinRadius
    ensures exists i :: 0 <= i < n &&
              Magnitude(m[i]) - (if m[i][i] < 0.0 then 0.0 - m[i][i] else m[i][i]) == f.gershgorinRadius
  {
    hide Magnitudes, IsRunnerUp, Magnitude, OffDiagonal;
    var s := RowSums(m, n);
    forall i | 0 <= i < n
      ensures s[i] == Magnitude(m[i]) - (if m[i][i] < 0.0 then 0.0 - m[i][i] else m[i][i]) && s[i] >= 0.0
    {
      OffDiagonalIs(m, n, i, n);
      OffDiagonalSign(m, n, i, n);
      assert m[i][..n] == m[i];
    }
    var k := 0;
    if f.gershgorinRadius != 0.0 { k :| 0 <= k < n && s[k] == f.gershgorinRadius; }
    assert s[k] == f.gershgorinRadius;
  }

  lemma {:induction false} OffDiagonalSign(m: Matrix, n: nat, i: nat, k: nat)
    requires Sized(m, n, n) && i < n && k <= n
    ensures OffDiagonal(m, n, i, k) >= 0.0
  {
    if k > 0 { OffDiagonalSign(m, n, i, k - 1); }
  }

  lemma GapIsNext(m: Matrix, n: nat, f: Features)
    requires n > 0 && Sized(m, n, n) && FeaturesOf(m, n, f)
    ensures n == 1 ==> f.spectralGap == 0.0
    ensures n > 1 ==>
              var second := f.spectralRadius - f.spectralGap;
              && (forall i :: 0 <= i < n && -f.spectralRadius < m[i][i] < f.spectralRadius ==> -second <= m[i][i] <= second)
              && (|| (second == 0.0 && forall i :: 0 <= i < n && m[i][i] != 0.0 ==>
                        m[i][i] == f.spectralRadius || m[i][i] == -f.spectralRadius)
                  || (0.0 < second < f.spectralRadius && exists i :: 0 <= i < n && (m[i][i] == second || m[i][i] == -second)))
  {
    hide RowSums;
    if n > 1 {
      var s, second := Magnitudes(m, n), f.spectralRadius - f.spectralGap;
      forall i | 0 <= i < n ensures s[i] <= f.spectralRadius && (s[i] < f.spectralRadius ==> s[i] <= second) {
      }
      if second != 0.0 {
        var k :| 0 <= k < n && s[k] == second;
        assert m[k][k] == second || m[k][k] == -second;
      }
    }
  }

  /** The distance squared of matrices that differ in one entry is the square of the difference there. */
  lemma GapOfOneEntry(a: Matrix, b: Matrix, n: nat, p: nat, q: nat)
    requires Sized(a, n, n) && Sized(b, n, n) && p < n && q < n
    requires forall i, j :: 0 <= i < n && 0 <= j < n && (i != p || j != q) ==> a[i][j] == b[i][j]
    ensures Gap(a, b, n, n) == (a[p][q] - b[p][q]) * (a[p][q] - b[p][q])
  {
    GapOfOneRow(a, b, n, p, q, n);
  }

  lemma {:induction false} GapOfOneRow(a: Matrix, b: Matrix, n: nat, p: nat, q: nat, i: nat)
    requires Sized(a, n, n) && Sized(b, n, n) && p < n && q < n && i <= n
    requires forall i, j :: 0 <= i < n && 0 <= j < n && (i != p || j != q) ==> a[i][j] == b[i][j]
    ensures Gap(a, b, n, i) == if p < i then Square(a[p][q] - b[p][q]) else 0.0
  {
    if i > 0 {
      GapOfOneRow(a, b, n, p, q, i - 1);
      RowGapOfOne(a, b, n, p, q, i - 1, n);
    }
  }

  lemma {:induction false} RowGapOfOne(a: Matrix, b: Matrix, n: nat, p: nat, q: nat, i: nat, j: nat)
    requires Sized(a, n, n) && Sized(b, n, n) && p < n && q < n && i < n && j <= n
    requires forall i, j :: 0 <= i < n && 0 <= j < n && (i != p || j != q) ==> a[i][j] == b[i][j]
    ensures RowGap(a, b, n, i, j) == if i == p && q < j then Square(a[p][q] - b[p][q]) else 0.0
  {
    if j > 0 {
      RowGapOfOne(a, b, n, p, q, i, j - 1);
      if i != p || j - 1 != q { assert a[i][j - 1] - b[i][j - 1] == 0.0; }
    }
  }

  /** The radius is 0 exactly for matrices with a zero diagonal, whatever stands beside it; these always score
      as stable, with gap 0. */
  lemma ZeroDiagonalFeatures(m: Matrix, n: nat, f: Features)
    requires n > 0 && Sized(m, n, n) && FeaturesOf(m, n, f)
    ensures f.spectralRadius == 0.0 <==> forall i :: 0 <= i < n ==> m[i][i] == 0.0
    ensures f.spectralRadius == 0.0 ==> f.stabilityScore == 0.9 && f.spectralGap == 0.0 && f.jordanBlocks == n
  {
    var s := Magnitudes(m, n);
    forall i | 0 <= i < n ensures s[i] == 0.0 <==> m[i][i] == 0.0 {
    }
    assert f.spectralRadius != 0.0 ==> exists i :: 0 <= i < n && s[i] != 0.0;
    assert forall i :: 0 <= i < n ==> 0.0 <= s[i] <= f.spectralRadius;
  }
}
