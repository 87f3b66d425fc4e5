/**
  The dense LU factorization `dgefa` and the solver `dgesl` of LSODA, in exact
  real arithmetic.  Matrices are 1-based: row 0 and column 0 exist but are unused.

  Column pivoting on a row-stored matrix turns A into a lower triangular L by
  right-multiplying with column swaps P_k and column additions M_k:
  A P_1 M_1 ... P_(n-1) M_(n-1) = L.
 */
module LinearSolver {
  import opened Vectors

  type Matrix = seq<Vec>

  ghost predicate Square(m: Matrix, n: nat) {
    |m| == n + 1 && forall i :: 0 <= i <= n ==> |m[i]| == n + 1
  }

  /** The pivots of the steps before k are recorded. */
  ghost predicate Pivots(p: seq<nat>, n: nat, k: nat) {
    |p| == n + 1 && k <= n && forall r :: 1 <= r < k ==> r <= p[r] <= n
  }

  /** Component i of the product m * x. */
  ghost function Product(m: Matrix, n: nat, x: Vec, i: nat): real
    requires Square(m, n) && |x| == n + 1 && i <= n
  {
    Dot(m[i], x, 1, n + 1)
  }

  ghost predicate Solves(m: Matrix, n: nat, x: Vec, b: Vec)
    requires Square(m, n) && |x| == n + 1 && |b| == n + 1
  {
    forall i :: 1 <= i <= n ==> Product(m, n, x, i) == b[i]
  }

  /** Component c of the product transpose(m) * x. */
  ghost function Column(m: Matrix, n: nat, c: nat): Vec
    requires Square(m, n) && c <= n
  {
    seq(n + 1, i requires 0 <= i <= n => m[i][c])
  }

  ghost predicate ZeroVector(x: Vec) {
    forall i :: 1 <= i < |x| ==> x[i] == 0.0
  }

  /** The matrix maps no nonzero vector to zero. */
  ghost predicate Nonsingular(m: Matrix, n: nat)
    requires Square(m, n)
  {
    forall x: Vec {:trigger ZeroVector(x)} | |x| == n + 1 ::
      (forall i :: 1 <= i <= n ==> Product(m, n, x, i) == 0.0) ==> ZeroVector(x)
  }

  // ----- One elimination step, as functions on rows

  /** P_k M_k y: fold the multipliers stored in `row` after position k into y[k], then swap. */
  function Unpivot(row: Vec, j: nat, k: nat, n: nat, y: Vec): (z: Vec)
    requires |row| == |y| == n + 1 && 1 <= k <= j <= n
    ensures |z| == n + 1
  {
    Swap(y[k := y[k] + Dot(row, y, k + 1, n + 1)], j, k)
  }

  /** P_1 M_1 ... P_(k-1) M_(k-1) y. */
  function Replay(m: Matrix, p: seq<nat>, n: nat, k: nat, y: Vec): (x: Vec)
    requires Square(m, n) && Pivots(p, n, k) && 1 <= k <= n && |y| == n + 1
    ensures |x| == n + 1
  {
    if k == 1 then y else Replay(m, p, n, k - 1, Unpivot(m[k - 1], p[k - 1], k - 1, n, y))
  }

  /** Row i of the partly factored matrix times y: rows above k hold L and multipliers. */
  ghost function ActiveProduct(m: Matrix, n: nat, k: nat, y: Vec, i: nat): real
    requires Square(m, n) && |y| == n + 1 && 1 <= i <= n
  {
    Dot(m[i], y, 1, if i < k then i + 1 else n + 1)
  }

  /** A * (P_1 M_1 ... P_(k-1) M_(k-1) y) == A_k * y, for every y. */
  ghost predicate Factored(orig: Matrix, m: Matrix, p: seq<nat>, n: nat, k: nat)
    requires Square(orig, n) && Square(m, n) && Pivots(p, n, k) && 1 <= k <= n
  {
    forall y: Vec, i: nat {:trigger FactoredAt(orig, m, p, n, k, y, i)} | |y| == n + 1 && 1 <= i <= n :: FactoredAt(orig, m, p, n, k, y, i)
  }

  ghost predicate FactoredAt(orig: Matrix, m: Matrix, p: seq<nat>, n: nat, k: nat, y: Vec, i: nat)
    requires Square(orig, n) && Square(m, n) && Pivots(p, n, k) && 1 <= k <= n
    requires |y| == n + 1 && 1 <= i <= n
  {
    Product(orig, n, Replay(m, p, n, k, y), i) == ActiveProduct(m, n, k, y, i)
  }

  /** Row k, already swapped (s), after the entries past its pivot become the multipliers
      -s[c] / s[k] that cancel them (r). */
  ghost predicate PivotedRow(s: Vec, r: Vec, k: nat, n: nat)
    requires |s| == |r| == n + 1 && 1 <= k <= n
  {
    s[k] != 0.0
    && (forall c :: 0 <= c <= k ==> r[c] == s[c])
    && (forall c :: k < c <= n ==> Axpy(s[c], s[k], r[c]) == 0.0)
  }

  /** A row below k, already swapped (s), after its k-th entry times the multipliers is added (r). */
  ghost predicate EliminatedRow(s: Vec, r: Vec, mult: Vec, k: nat, n: nat)
    requires |s| == |r| == |mult| == n + 1 && 1 <= k <= n
  {
    (forall c :: 0 <= c <= k ==> r[c] == s[c])
    && (forall c :: k < c <= n ==> r[c] == Axpy(s[c], s[k], mult[c]))
  }

  lemma {:induction false} ReplayAgree(m: Matrix, m': Matrix, p: seq<nat>, p': seq<nat>, n: nat, k: nat, y: Vec)
    requires Square(m, n) && Square(m', n) && Pivots(p, n, k) && Pivots(p', n, k) && 1 <= k <= n && |y| == n + 1
    requires forall i :: 1 <= i < k ==> m[i] == m'[i] && p[i] == p'[i]
    ensures Replay(m, p, n, k, y) == Replay(m', p', n, k, y)
  {
    if k > 1 {
      ReplayAgree(m, m', p, p', n, k - 1, Unpivot(m[k - 1], p[k - 1], k - 1, n, y));
    }
  }

  /** A row's dot product with P_k M_k y, in terms of the swapped row s and y. */
  lemma UnpivotDot(row: Vec, s: Vec, mult: Vec, j: nat, k: nat, n: nat, y: Vec)
    requires |row| == |mult| == |y| == n + 1 && 1 <= k <= j <= n
    requires s == Swap(row, j, k)
    ensures Dot(row, Unpivot(mult, j, k, n, y), 1, n + 1)
         == Axpy(Dot(s, y, 1, n + 1), s[k], Dot(mult, y, k + 1, n + 1))
  {
    hide Dot, Axpy, Swap;
    var d := Dot(mult, y, k + 1, n + 1);
    var y' := y[k := y[k] + d];
    DotSwapAcross(row, s, y', Unpivot(mult, j, k, n, y), j, k, 1, n + 1);
    DotBump(s, y, k, d, 1, n + 1);
  }

  /** If w is u + t * m from `mid` on and u before it, its product differs by t times that of m. */
  lemma TailDot(w: Vec, u: Vec, t: real, m: Vec, y: Vec, mid: nat, hi: nat)
    requires 1 <= mid <= hi <= |w| && hi <= |u| && hi <= |m| && hi <= |y|
    requires forall c :: 1 <= c < mid ==> w[c] == u[c]
    requires forall c :: mid <= c < hi ==> w[c] == Axpy(u[c], t, m[c])
    ensures Dot(w, y, 1, hi) == Axpy(Dot(u, y, 1, hi), t, Dot(m, y, mid, hi))
  {
    DotSplit(w, y, 1, mid, hi);
    DotSplit(u, y, 1, mid, hi);
    DotAgree(w, u, y, y, 1, mid);
    DotLinear(w, u, t, m, y, mid, hi);
  }

  /** The multipliers cancel everything past the pivot. */
  lemma PivotTail(s: Vec, r: Vec, k: nat, n: nat, y: Vec)
    requires |s| == |r| == |y| == n + 1 && 1 <= k <= n
    requires PivotedRow(s, r, k, n)
    ensures Axpy(Dot(s, y, 1, n + 1), s[k], Dot(r, y, k + 1, n + 1)) == Dot(r, y, 1, k + 1)
  {
    var w := seq(n + 1, c requires 0 <= c <= n => if c <= k then s[c] else 0.0);
    TailDot(w, s, s[k], r, y, k + 1, n + 1);
    DotSplit(w, y, 1, k + 1, n + 1);
    DotZero(w, y, k + 1, n + 1);
    DotAgree(w, r, y, y, 1, k + 1);
  }

  lemma PivotRowProduct(row: Vec, s: Vec, r: Vec, j: nat, k: nat, n: nat, y: Vec)
    requires |row| == |r| == |y| == n + 1 && 1 <= k <= j <= n
    requires s == Swap(row, j, k) && PivotedRow(s, r, k, n)
    ensures Dot(row, Unpivot(r, j, k, n, y), 1, n + 1) == Dot(r, y, 1, k + 1)
  {
    UnpivotDot(row, s, r, j, k, n, y);
    PivotTail(s, r, k, n, y);
  }

  lemma EliminatedRowProduct(row: Vec, s: Vec, r: Vec, mult: Vec, j: nat, k: nat, n: nat, y: Vec)
    requires |row| == |r| == |mult| == |y| == n + 1 && 1 <= k <= j <= n
    requires s == Swap(row, j, k) && EliminatedRow(s, r, mult, k, n)
    ensures Dot(row, Unpivot(mult, j, k, n, y), 1, n + 1) == Dot(r, y, 1, n + 1)
  {
    UnpivotDot(row, s, mult, j, k, n, y);
    TailDot(r, s, s[k], mult, y, k + 1, n + 1);
  }

  /** One pass of the k-loop with a nonzero pivot keeps the factorization identity. */
  lemma StepKeepsFactored(orig: Matrix, m: Matrix, m': Matrix, p: seq<nat>, p': seq<nat>, n: nat, k: nat)
    requires Square(orig, n) && Square(m, n) && Square(m', n) && Pivots(p, n, k) && Pivots(p', n, k + 1) && 1 <= k < n
    requires Factored(orig, m, p, n, k)
    requires forall i :: 1 <= i < k ==> m'[i] == m[i] && p'[i] == p[i]
    requires PivotedRow(Swap(m[k], p'[k], k), m'[k], k, n)
    requires forall i :: k < i <= n ==> EliminatedRow(Swap(m[i], p'[k], k), m'[i], m'[k], k, n)
    ensures Factored(orig, m', p', n, k + 1)
  {
    var k' := k + 1;
    forall y: Vec, i: nat {:trigger FactoredAt(orig, m', p', n, k', y, i)} | |y| == n + 1 && 1 <= i <= n
      ensures FactoredAt(orig, m', p', n, k', y, i)
    {
      var z := Unpivot(m'[k], p'[k], k, n, y);
      ReplayAgree(m, m', p, p', n, k, z);
      assert FactoredAt(orig, m, p, n, k, z, i);
      if i < k {
        DotAgree(m[i], m'[i], z, y, 1, i + 1);
      } else if i == k {
        PivotRowProduct(m[k], Swap(m[k], p'[k], k), m'[k], p'[k], k, n, y);
      } else {
        EliminatedRowProduct(m[i], Swap(m[i], p'[k], k), m'[i], m'[k], p'[k], k, n, y);
      }
    }
  }

  /** A zero pivot means row k is already triangular, and replaying it is the identity. */
  lemma ZeroPivotKeepsFactored(orig: Matrix, m: Matrix, p: seq<nat>, p': seq<nat>, n: nat, k: nat)
    requires Square(orig, n) && Square(m, n) && Pivots(p, n, k) && Pivots(p', n, k + 1) && 1 <= k < n
    requires Factored(orig, m, p, n, k)
    requires forall i :: 1 <= i < k ==> p'[i] == p[i]
    requires p'[k] == k && forall c :: k <= c <= n ==> m[k][c] == 0.0
    ensures Factored(orig, m, p', n, k + 1)
  {
    var k' := k + 1;
    forall y: Vec, i: nat {:trigger FactoredAt(orig, m, p', n, k', y, i)} | |y| == n + 1 && 1 <= i <= n
      ensures FactoredAt(orig, m, p', n, k', y, i)
    {
      DotZero(m[k], y, k + 1, n + 1);
      assert Unpivot(m[k], k, k, n, y) == y;
      ReplayAgree(m, m, p, p', n, k, y);
      assert FactoredAt(orig, m, p, n, k, y, i);
      if i == k {
        DotSplit(m[k], y, 1, k + 1, n + 1);
      }
    }
  }

  // ----- Singular and nonsingular factors

  function UndoUnpivot(row: Vec, j: nat, k: nat, n: nat, z: Vec): (y: Vec)
    requires |row| == |z| == n + 1 && 1 <= k <= j <= n
    ensures |y| == n + 1
  {
    var w := Swap(z, j, k);
    w[k := w[k] - Dot(row, w, k + 1, n + 1)]
  }

  lemma UndoUnpivotCorrect(row: Vec, j: nat, k: nat, n: nat, z: Vec)
    requires |row| == |z| == n + 1 && 1 <= k <= j <= n
    ensures Unpivot(row, j, k, n, UndoUnpivot(row, j, k, n, z)) == z
  {
    var w := Swap(z, j, k);
    var y := UndoUnpivot(row, j, k, n, z);
    DotAgree(row, row, w, y, k + 1, n + 1);
    assert y[k := y[k] + Dot(row, y, k + 1, n + 1)] == w;
    SwapTwice(z, j, k);
  }

  /** Every vector is reached by the replay. */
  lemma {:induction false} ReplayOnto(m: Matrix, p: seq<nat>, n: nat, k: nat, z: Vec) returns (y: Vec)
    requires Square(m, n) && Pivots(p, n, k) && 1 <= k <= n && |z| == n + 1
    ensures |y| == n + 1 && Replay(m, p, n, k, y) == z
  {
    if k == 1 {
      y := z;
    } else {
      var w := ReplayOnto(m, p, n, k - 1, z);
      y := UndoUnpivot(m[k - 1], p[k - 1], k - 1, n, w);
      UndoUnpivotCorrect(m[k - 1], p[k - 1], k - 1, n, w);
    }
  }

  lemma UnpivotZero(row: Vec, j: nat, k: nat, n: nat, y: Vec)
    requires |row| == |y| == n + 1 && 1 <= k <= j <= n
    ensures ZeroVector(y) <==> ZeroVector(Unpivot(row, j, k, n, y))
  {
    var z := Unpivot(row, j, k, n, y);
    if ZeroVector(y) {
      DotZero(row, y, k + 1, n + 1);
    }
    if ZeroVector(z) {
      SwapTwice(y[k := y[k] + Dot(row, y, k + 1, n + 1)], j, k);
      assert forall c :: 1 <= c <= n && c != k ==> y[c] == Swap(z, j, k)[c] == 0.0;
      DotZero(row, y, k + 1, n + 1);
      assert y[k] == Swap(z, j, k)[k] == 0.0;
    }
  }

  lemma {:induction false} ReplayZero(m: Matrix, p: seq<nat>, n: nat, k: nat, y: Vec)
    requires Square(m, n) && Pivots(p, n, k) && 1 <= k <= n && |y| == n + 1
    ensures ZeroVector(y) <==> ZeroVector(Replay(m, p, n, k, y))
  {
    if k > 1 {
      UnpivotZero(m[k - 1], p[k - 1], k - 1, n, y);
      ReplayZero(m, p, n, k - 1, Unpivot(m[k - 1], p[k - 1], k - 1, n, y));
    }
  }

  /** Forward substitution with a nonzero diagonal has only the zero solution for zero. */
  lemma {:induction false} LowerTriangularInjective(m: Matrix, n: nat, y: Vec, upto: nat)
    requires Square(m, n) && |y| == n + 1 && upto <= n
    requires forall i :: 1 <= i <= n ==> m[i][i] != 0.0 && Dot(m[i], y, 1, i + 1) == 0.0
    ensures forall i :: 1 <= i <= upto ==> y[i] == 0.0
  {
    if upto > 0 {
      LowerTriangularInjective(m, n, y, upto - 1);
      DotZero(m[upto], y, 1, upto);
      assert Dot(m[upto], y, 1, upto + 1) == m[upto][upto] * y[upto];
    }
  }

  /** With a zero on the diagonal at `info` and none after, forward substitution has a nonzero kernel vector. */
  lemma {:induction false} LowerTriangularKernel(m: Matrix, n: nat, info: nat, upto: nat) returns (y: Vec)
    requires Square(m, n) && 1 <= info <= upto <= n
    requires m[info][info] == 0.0 && forall i :: info < i <= n ==> m[i][i] != 0.0
    ensures |y| == n + 1 && y[info] == 1.0
    ensures forall i :: 1 <= i <= upto ==> Dot(m[i], y, 1, i + 1) == 0.0
  {
    if upto == info {
      y := seq(n + 1, i => if i == info then 1.0 else 0.0);
      forall i | 1 <= i <= upto
        ensures Dot(m[i], y, 1, i + 1) == 0.0
      {
        DotZero(m[i], y, 1, i + 1);
      }
    } else {
      var w := LowerTriangularKernel(m, n, info, upto - 1);
      var x := -Dot(m[upto], w, 1, upto) / m[upto][upto];
      y := w[upto := x];
      forall i | 1 <= i <= upto
        ensures Dot(m[i], y, 1, i + 1) == 0.0
      {
        if i < upto {
          DotAgree(m[i], m[i], w, y, 1, i + 1);
        } else {
          DotAgree(m[i], m[i], w, y, 1, i);
          assert m[upto][upto] * x == -Dot(m[upto], w, 1, upto);
        }
      }
    }
  }

  /** A zero `info` means exactly that the original matrix is nonsingular. */
  lemma InfoDecidesSingularity(orig: Matrix, m: Matrix, p: seq<nat>, n: nat, info: nat)
    requires 1 <= n && Square(orig, n) && Square(m, n) && Pivots(p, n, n) && Factored(orig, m, p, n, n)
    requires info <= n && (info > 0 ==> m[info][info] == 0.0)
    requires forall i :: info < i <= n ==> m[i][i] != 0.0
    ensures info == 0 <==> Nonsingular(orig, n)
  {
    if info == 0 {
      forall x: Vec | |x| == n + 1 && forall i :: 1 <= i <= n ==> Product(orig, n, x, i) == 0.0
        ensures ZeroVector(x)
      {
        var y := ReplayOnto(m, p, n, n, x);
        forall i | 1 <= i <= n
          ensures m[i][i] != 0.0 && Dot(m[i], y, 1, i + 1) == 0.0
        {
          assert FactoredAt(orig, m, p, n, n, y, i);
        }
        LowerTriangularInjective(m, n, y, n);
        ReplayZero(m, p, n, n, y);
      }
    } else {
      var y := LowerTriangularKernel(m, n, info, n);
      var x := Replay(m, p, n, n, y);
      forall i | 1 <= i <= n
        ensures Product(orig, n, x, i) == 0.0
      {
        assert FactoredAt(orig, m, p, n, n, y, i);
      }
      ReplayZero(m, p, n, n, y);
    }
  }

  lemma FactoredAgree(orig: Matrix, m: Matrix, p: seq<nat>, p': seq<nat>, n: nat, k: nat)
    requires Square(orig, n) && Square(m, n) && Pivots(p, n, k) && Pivots(p', n, k) && 1 <= k <= n
    requires Factored(orig, m, p, n, k) && forall i :: 1 <= i < k ==> p'[i] == p[i]
    ensures Factored(orig, m, p', n, k)
  {
    forall y: Vec, i: nat {:trigger FactoredAt(orig, m, p', n, k, y, i)} | |y| == n + 1 && 1 <= i <= n
      ensures FactoredAt(orig, m, p', n, k, y, i)
    {
      assert FactoredAt(orig, m, p, n, k, y, i);
      ReplayAgree(m, m, p, p', n, k, y);
    }
  }

  // ----- Solving with the transpose

  /** Row i of the lower triangular factor times y. */
  ghost function LowerProduct(m: Matrix, n: nat, y: Vec, i: nat): real
    requires Square(m, n) && |y| == n + 1 && 1 <= i <= n
  {
    Dot(m[i], y, 1, i + 1)
  }

  /** The sum over lo <= i <= n of x[i] times row i of L times y. */
  ghost function LowerBilinear(m: Matrix, n: nat, x: Vec, y: Vec, lo: nat): real
    requires Square(m, n) && |x| == |y| == n + 1 && 1 <= lo <= n + 1
    decreases n + 1 - lo
  {
    if lo == n + 1 then 0.0 else x[lo] * LowerProduct(m, n, y, lo) + LowerBilinear(m, n, x, y, lo + 1)
  }

  lemma {:induction false} LowerBilinearAgree(m: Matrix, n: nat, x: Vec, x': Vec, y: Vec, lo: nat)
    requires Square(m, n) && |x| == |x'| == |y| == n + 1 && 1 <= lo <= n + 1
    requires forall i :: lo <= i <= n ==> x[i] == x'[i]
    ensures LowerBilinear(m, n, x, y, lo) == LowerBilinear(m, n, x', y, lo)
    decreases n + 1 - lo
  {
    if lo <= n {
      LowerBilinearAgree(m, n, x, x', y, lo + 1);
    }
  }

  /** The part of c . y not yet explained by the solved entries x = b[k..n] is b[1..k-1] . y. */
  ghost predicate PeeledAt(m: Matrix, n: nat, c: Vec, b: Vec, k: nat, y: Vec)
    requires Square(m, n) && |c| == |b| == |y| == n + 1 && 1 <= k <= n + 1
  {
    Dot(b, y, 1, k) + LowerBilinear(m, n, b, y, k) == Dot(c, y, 1, n + 1)
  }

  lemma PeelAlgebra(x: real, d: real, bk: real, low: real, yk: real, head: real)
    requires d != 0.0 && x == bk / d
    ensures Axpy(head, -x, low) + x * Axpy(low, d, yk) == Axpy(head, bk, yk)
  {
    assert x * d == bk;
    assert x * (low + d * yk) == x * low + (x * d) * yk;
  }

  /** One pass of the last loop of the transposed solve. */
  lemma PeelStep(m: Matrix, n: nat, c: Vec, b: Vec, b': Vec, k: nat, y: Vec)
    requires Square(m, n) && |c| == |b| == |b'| == |y| == n + 1 && 1 <= k <= n && m[k][k] != 0.0
    requires PeeledAt(m, n, c, b, k + 1, y)
    requires b'[k] == b[k] / m[k][k]
    requires forall i :: 1 <= i < k ==> b'[i] == Axpy(b[i], -b'[k], m[k][i])
    requires forall i :: k < i <= n ==> b'[i] == b[i]
    ensures PeeledAt(m, n, c, b', k, y)
  {
    hide Dot, Axpy;
    var x := b'[k];
    DotLinear(b', b, -x, m[k], y, 1, k);
    DotLast(b, y, 1, k);
    DotLast(m[k], y, 1, k);
    LowerBilinearAgree(m, n, b, b', y, k + 1);
    PeelAlgebra(x, m[k][k], b[k], Dot(m[k], y, 1, k), y[k], Dot(b, y, 1, k));
  }

  /** The bilinear form of L with (x, y) is the bilinear form of A with (x, replay of y). */
  lemma {:induction false} BilinearReplay(orig: Matrix, m: Matrix, p: seq<nat>, n: nat, x: Vec, y: Vec, z: Vec, c: nat, lo: nat)
    requires 1 <= n && Square(orig, n) && Square(m, n) && Pivots(p, n, n) && Factored(orig, m, p, n, n)
    requires |x| == |y| == n + 1 && Replay(m, p, n, n, y) == z && 1 <= lo <= n + 1
    requires 1 <= c <= n && z == Unit(n, c)
    ensures LowerBilinear(m, n, x, y, lo) == Dot(Column(orig, n, c), x, lo, n + 1)
    decreases n + 1 - lo
  {
    hide Replay;
    if lo <= n {
      BilinearReplay(orig, m, p, n, x, y, z, c, lo + 1);
      var col := Column(orig, n, c);
      assert FactoredAt(orig, m, p, n, n, y, lo);
      UnitDot(orig[lo], n, c);
      DotFirst(col, x, lo, n + 1);
      assert LowerProduct(m, n, y, lo) == col[lo];
    }
  }

  function Unit(n: nat, c: nat): (e: Vec)
    ensures |e| == n + 1
  {
    seq(n + 1, i => if i == c then 1.0 else 0.0)
  }

  lemma UnitDot(row: Vec, n: nat, c: nat)
    requires |row| == n + 1 && 1 <= c <= n
    ensures Dot(row, Unit(n, c), 1, n + 1) == row[c]
  {
    var e := Unit(n, c);
    DotSplit(row, e, 1, c, n + 1);
    DotSplit(row, e, c, c + 1, n + 1);
    DotZero(row, e, 1, c);
    DotZero(row, e, c + 1, n + 1);
    assert Dot(row, e, c, c + 1) == row[c] * e[c];
  }

  ghost predicate SolvesTranspose(m: Matrix, n: nat, x: Vec, b: Vec)
    requires Square(m, n) && |x| == n + 1 && |b| == n + 1
  {
    forall c :: 1 <= c <= n ==> Dot(Column(m, n, c), x, 1, n + 1) == b[c]
  }

  /** After the first loop of the transposed solve c . y == b . (replay of y), so x solves the transpose. */
  lemma TransposeSolved(orig: Matrix, m: Matrix, p: seq<nat>, n: nat, b: Vec, c: Vec, x: Vec)
    requires 1 <= n && Square(orig, n) && Square(m, n) && Pivots(p, n, n) && Factored(orig, m, p, n, n)
    requires |b| == |c| == |x| == n + 1
    requires PulledBack(m, p, n, n, b, c)
    requires Peeled(m, n, c, x, 1)
    ensures SolvesTranspose(orig, n, x, b)
  {
    forall col | 1 <= col <= n
      ensures Dot(Column(orig, n, col), x, 1, n + 1) == b[col]
    {
      var z := Unit(n, col);
      var y := ReplayOnto(m, p, n, n, z);
      assert PulledBackAt(m, p, n, n, b, c, y) && PeeledAt(m, n, c, x, 1, y);
      BilinearReplay(orig, m, p, n, x, y, z, col, 1);
      UnitDot(b, n, col);
    }
  }

  ghost predicate PulledBackAt(m: Matrix, p: seq<nat>, n: nat, k: nat, b: Vec, c: Vec, y: Vec)
    requires Square(m, n) && Pivots(p, n, k) && 1 <= k <= n && |b| == |c| == |y| == n + 1
  {
    Dot(c, y, 1, n + 1) == Dot(b, Replay(m, p, n, k, y), 1, n + 1)
  }

  ghost predicate PulledBack(m: Matrix, p: seq<nat>, n: nat, k: nat, b: Vec, c: Vec)
    requires Square(m, n) && Pivots(p, n, k) && 1 <= k <= n && |b| == |c| == n + 1
  {
    forall y: Vec {:trigger PulledBackAt(m, p, n, k, b, c, y)} | |y| == n + 1 :: PulledBackAt(m, p, n, k, b, c, y)
  }

  ghost predicate Peeled(m: Matrix, n: nat, c: Vec, b: Vec, k: nat)
    requires Square(m, n) && |c| == |b| == n + 1 && 1 <= k <= n + 1
  {
    forall y: Vec {:trigger PeeledAt(m, n, c, b, k, y)} | |y| == n + 1 :: PeeledAt(m, n, c, b, k, y)
  }

  lemma PullBackStepAt(m: Matrix, p: seq<nat>, n: nat, k: nat, b: Vec, c: Vec, s: Vec, c': Vec, y: Vec)
    requires Square(m, n) && Pivots(p, n, k + 1) && 1 <= k < n && |b| == |c| == |c'| == |y| == n + 1
    requires PulledBackAt(m, p, n, k, b, c, Unpivot(m[k], p[k], k, n, y))
    requires s == Swap(c, p[k], k) && EliminatedRow(s, c', m[k], k, n)
    ensures PulledBackAt(m, p, n, k + 1, b, c', y)
  {
    EliminatedRowProduct(c, s, c', m[k], p[k], k, n, y);
  }

  /** Applying P_k then the transposed M_k to c carries the pull-back one step further. */
  lemma PullBackStep(m: Matrix, p: seq<nat>, n: nat, k: nat, b: Vec, c: Vec, s: Vec, c': Vec)
    requires Square(m, n) && Pivots(p, n, k + 1) && 1 <= k < n && |b| == |c| == |c'| == n + 1
    requires s == Swap(c, p[k], k) && EliminatedRow(s, c', m[k], k, n)
    requires PulledBack(m, p, n, k, b, c)
    ensures PulledBack(m, p, n, k + 1, b, c')
  {
    var k' := k + 1;
    forall y: Vec {:trigger PulledBackAt(m, p, n, k', b, c', y)} | |y| == n + 1
      ensures PulledBackAt(m, p, n, k', b, c', y)
    {
      PullBackStepAt(m, p, n, k, b, c, s, c', y);
    }
  }

  // ----- The methods

  /** The contents of a two-dimensional array, row by row. */
  ghost function Rows(a: array2<real>): (m: Matrix)
    reads a
    ensures |m| == a.Length0
    ensures forall i :: 0 <= i < a.Length0 ==> |m[i]| == a.Length1 && forall j :: 0 <= j < a.Length1 ==> m[i][j] == a[i, j]
  {
    seq(a.Length0, i requires 0 <= i < a.Length0 reads a =>
      seq(a.Length1, j requires 0 <= j < a.Length1 reads a => a[i, j]))
  }

  function Abs(x: real): real {
    if x < 0.0 then -x else x
  }

  /** The first position of a largest magnitude in row k, from column k on. */
  method Idamax(a: array2<real>, n: nat, k: nat) returns (j: nat)
    requires a.Length0 == a.Length1 == n + 1 && 1 <= k <= n
    ensures k <= j <= n
    ensures forall c :: k <= c <= n ==> Abs(a[k, c]) <= Abs(a[k, j])
    ensures forall c :: k <= c < j ==> Abs(a[k, c]) < Abs(a[k, j])
  {
    j := k;
    var dmax := Abs(a[k, k]);
    for i := k + 1 to n + 1
      invariant k <= j < i
      invariant dmax == Abs(a[k, j])
      invariant forall c :: k <= c < i ==> Abs(a[k, c]) <= dmax
      invariant forall c :: k <= c < j ==> Abs(a[k, c]) < dmax
    {
      var xmag := Abs(a[k, i]);
      if xmag > dmax {
        j, dmax := i, xmag;
      }
    }
  }

  /** Scales the entries of row k past column k by t. */
  method Dscal(a: array2<real>, n: nat, k: nat, t: real)
    requires a.Length0 == a.Length1 == n + 1 && k <= n
    modifies a
    ensures forall c :: k < c <= n ==> a[k, c] == t * old(a[k, c])
    ensures forall i, c :: 0 <= i <= n && 0 <= c <= n && !(i == k && c > k) ==> a[i, c] == old(a[i, c])
  {
    for c := k + 1 to n + 1
      invariant forall c' :: k < c' < c ==> a[k, c'] == t * old(a[k, c'])
      invariant forall i, c' :: 0 <= i <= n && 0 <= c' <= n && !(i == k && k < c' < c) ==> a[i, c'] == old(a[i, c'])
    {
      a[k, c] := t * a[k, c];
    }
  }

  /** Adds t times the entries of row k past column k to those of row i. */
  method Daxpy(a: array2<real>, n: nat, k: nat, t: real, i: nat)
    requires a.Length0 == a.Length1 == n + 1 && k < i <= n
    modifies a
    ensures forall c :: k < c <= n ==> a[i, c] == Axpy(old(a[i, c]), t, old(a[k, c]))
    ensures forall r, c :: 0 <= r <= n && 0 <= c <= n && !(r == i && c > k) ==> a[r, c] == old(a[r, c])
  {
    if t == 0.0 {
      return;
    }
    for c := k + 1 to n + 1
      invariant forall c' :: k < c' < c ==> a[i, c'] == Axpy(old(a[i, c']), t, old(a[k, c']))
      invariant forall r, c' :: 0 <= r <= n && 0 <= c' <= n && !(r == i && k < c' < c) ==> a[r, c'] == old(a[r, c'])
    {
      a[i, c] := a[i, c] + t * a[k, c];
    }
  }

  /** Row m[k] with its pivot j swapped in, then the multipliers: in place on row k. */
  method FormMultipliers(a: array2<real>, n: nat, k: nat, j: nat)
    requires a.Length0 == a.Length1 == n + 1 && 1 <= k <= j <= n && a[k, j] != 0.0
    modifies a
    ensures PivotedRow(Swap(old(Rows(a))[k], j, k), Rows(a)[k], k, n)
    ensures forall i, c :: 0 <= i <= n && 0 <= c <= n && i != k ==> a[i, c] == old(a[i, c])
  {
    ghost var s := Swap(Rows(a)[k], j, k);
    if j != k {
      var t := a[k, j];
      a[k, j] := a[k, k];
      a[k, k] := t;
    }
    assert forall c :: 0 <= c <= n ==> a[k, c] == s[c];
    var t := -1.0 / a[k, k];
    Dscal(a, n, k, t);
    forall c | k < c <= n
      ensures Axpy(s[c], s[k], a[k, c]) == 0.0
    {
      CancelEntry(s[k], s[c]);
    }
  }

  lemma CancelEntry(p: real, x: real)
    requires p != 0.0
    ensures Axpy(x, p, -1.0 / p * x) == 0.0
  {
    assert p * (-1.0 / p * x) == -x;
  }

  /** The i-loop of `dgefa`: swap and eliminate in one row below the pivot. */
  method EliminateRow(a: array2<real>, n: nat, k: nat, j: nat, i: nat)
    requires a.Length0 == a.Length1 == n + 1 && 1 <= k <= j <= n && k < i <= n
    modifies a
    ensures EliminatedRow(Swap(old(Rows(a))[i], j, k), Rows(a)[i], Rows(a)[k], k, n)
    ensures forall r, c :: 0 <= r <= n && 0 <= c <= n && r != i ==> a[r, c] == old(a[r, c])
  {
    ghost var s := Swap(Rows(a)[i], j, k);
    var t := a[i, j];
    if j != k {
      a[i, j] := a[i, k];
      a[i, k] := t;
    }
    assert forall c :: 0 <= c <= n ==> a[i, c] == s[c];
    Daxpy(a, n, k, t, i);
  }

  /** The body of the k-loop once a nonzero pivot j is found. */
  method EliminateColumn(a: array2<real>, n: nat, k: nat, j: nat)
    requires a.Length0 == a.Length1 == n + 1 && 1 <= k <= j <= n && a[k, j] != 0.0
    modifies a
    ensures a[k, k] != 0.0 && forall i :: 1 <= i < k ==> a[i, i] == old(a[i, i])
    ensures forall i :: 0 <= i < k ==> Rows(a)[i] == old(Rows(a))[i]
    ensures PivotedRow(Swap(old(Rows(a))[k], j, k), Rows(a)[k], k, n)
    ensures forall i :: k < i <= n ==> EliminatedRow(Swap(old(Rows(a))[i], j, k), Rows(a)[i], Rows(a)[k], k, n)
  {
    ghost var m := Rows(a);
    FormMultipliers(a, n, k, j);
    ghost var m1 := Rows(a);
    assert forall i :: 0 <= i <= n && i != k ==> m1[i] == m[i];
    for i := k + 1 to n + 1
      invariant forall r :: 0 <= r <= k || i <= r <= n ==> Rows(a)[r] == m1[r]
      invariant forall r :: k < r < i ==> EliminatedRow(Swap(m[r], j, k), Rows(a)[r], m1[k], k, n)
    {
      ghost var before := Rows(a);
      EliminateRow(a, n, k, j, i);
      assert forall r :: 0 <= r <= n && r != i ==> Rows(a)[r] == before[r];
    }
    assert forall i :: 1 <= i <= k ==> a[i, i] == Rows(a)[i][i] == m1[i][i];
  }

  /** One pass of the k-loop of `dgefa`; the result says whether the pivot was zero. */
  method FactorStep(a: array2<real>, n: nat, k: nat, ipvt: array<nat>, ghost orig: Matrix) returns (zeroPivot: bool)
    requires 1 <= k < n && a.Length0 == a.Length1 == n + 1 && ipvt.Length == n + 1
    requires Square(orig, n) && Pivots(ipvt[..], n, k) && Factored(orig, Rows(a), ipvt[..], n, k)
    modifies a, ipvt
    ensures Pivots(ipvt[..], n, k + 1) && Factored(orig, Rows(a), ipvt[..], n, k + 1)
    ensures zeroPivot <==> a[k, k] == 0.0
    ensures forall i :: 1 <= i < k ==> a[i, i] == old(a[i, i])
  {
    ghost var m, p := Rows(a), ipvt[..];
    var j := Idamax(a, n, k);
    ipvt[k] := j;
    zeroPivot := a[k, j] == 0.0;
    if zeroPivot {
      assert Abs(a[k, k]) <= 0.0 && forall c :: k <= c <= n ==> Abs(a[k, c]) <= 0.0;
      ZeroPivotKeepsFactored(orig, m, p, ipvt[..], n, k);
    } else {
      EliminateColumn(a, n, k, j);
      StepKeepsFactored(orig, m, Rows(a), p, ipvt[..], n, k);
    }
  }

  /**
    Factors a in place, recording pivots in ipvt.  The result is 0, or the last
    step whose pivot was zero.
   */
  method Dgefa(a: array2<real>, n: nat, ipvt: array<nat>) returns (info: nat)
    requires 1 <= n && a.Length0 == a.Length1 == n + 1 && ipvt.Length == n + 1
    modifies a, ipvt
    ensures Pivots(ipvt[..], n, n) && ipvt[n] == n
    ensures Factored(old(Rows(a)), Rows(a), ipvt[..], n, n)
    ensures info <= n && (info > 0 ==> a[info, info] == 0.0)
    ensures forall i :: info < i <= n ==> a[i, i] != 0.0
    ensures info == 0 <==> Nonsingular(old(Rows(a)), n)
  {
    info := 0;
    ghost var orig := Rows(a);
    assert forall y: Vec, i: nat | |y| == n + 1 && 1 <= i <= n :: FactoredAt(orig, orig, ipvt[..], n, 1, y, i);
    for k := 1 to n
      invariant Pivots(ipvt[..], n, k)
      invariant Factored(orig, Rows(a), ipvt[..], n, k)
      invariant info < k && (info > 0 ==> a[info, info] == 0.0)
      invariant forall i :: info < i < k ==> a[i, i] != 0.0
    {
      var zeroPivot := FactorStep(a, n, k, ipvt, orig);
      if zeroPivot {
        info := k;
      }
    }
    ghost var p := ipvt[..];
    ipvt[n] := n;
    FactoredAgree(orig, Rows(a), p, ipvt[..], n, n);
    if a[n, n] == 0.0 {
      info := n;
    }
    InfoDecidesSingularity(orig, Rows(a), ipvt[..], n, info);
  }

  /** The sum of a[k, c] * b[c] over lo <= c < hi. */
  method Ddot(a: array2<real>, k: nat, b: array<real>, lo: nat, hi: nat) returns (d: real)
    requires k < a.Length0 && lo <= hi <= a.Length1 && hi <= b.Length
    ensures d == Dot(Rows(a)[k], b[..], lo, hi)
  {
    d := 0.0;
    for c := lo to hi
      invariant d == Dot(Rows(a)[k], b[..], lo, c)
    {
      d := d + a[k, c] * b[c];
    }
  }

  /** b[c] += t * a[k, c] for lo <= c < hi. */
  method DaxpyVector(a: array2<real>, k: nat, t: real, b: array<real>, lo: nat, hi: nat)
    requires k < a.Length0 && lo <= hi <= a.Length1 && hi <= b.Length
    modifies b
    ensures Rows(a) == old(Rows(a))
    ensures forall c :: lo <= c < hi ==> b[c] == Axpy(old(b[c]), t, old(Rows(a))[k][c])
    ensures forall c :: 0 <= c < b.Length && !(lo <= c < hi) ==> b[c] == old(b[c])
  {
    if t == 0.0 {
      return;
    }
    for c := lo to hi
      invariant Rows(a) == old(Rows(a))
      invariant forall c' :: lo <= c' < c ==> b[c'] == Axpy(old(b[c']), t, old(Rows(a))[k][c'])
      invariant forall c' :: 0 <= c' < b.Length && !(lo <= c' < c) ==> b[c'] == old(b[c'])
    {
      b[c] := b[c] + t * a[k, c];
    }
  }

  /** The first loop of `dgesl` with job 0: forward substitution with L. */
  method SolveLower(a: array2<real>, n: nat, b: array<real>)
    requires a.Length0 == a.Length1 == b.Length == n + 1
    requires forall i :: 1 <= i <= n ==> a[i, i] != 0.0
    modifies b
    ensures forall i :: 1 <= i <= n ==> LowerProduct(Rows(a), n, b[..], i) == old(b[i])
  {
    ghost var m := Rows(a);
    for k := 1 to n + 1
      invariant Rows(a) == m
      invariant forall i :: k <= i <= n ==> b[i] == old(b[i])
      invariant forall i :: 1 <= i < k ==> LowerProduct(m, n, b[..], i) == old(b[i])
    {
      ghost var before := b[..];
      var t := Ddot(a, k, b, 1, k);
      b[k] := (b[k] - t) / a[k, k];
      DivideBack(before[k], t, m[k][k]);
      ForwardStep(m, n, before, b[..], k);
    }
  }

  lemma DivideBack(x: real, t: real, d: real)
    requires d != 0.0
    ensures Axpy(t, d, (x - t) / d) == x
  {
    var q := (x - t) / d;
    assert q * d == x - t;
  }

  lemma ForwardStep(m: Matrix, n: nat, b: Vec, b': Vec, k: nat)
    requires Square(m, n) && |b| == |b'| == n + 1 && 1 <= k <= n
    requires Axpy(Dot(m[k], b, 1, k), m[k][k], b'[k]) == b[k]
    requires forall i :: 1 <= i <= n && i != k ==> b'[i] == b[i]
    ensures LowerProduct(m, n, b', k) == b[k]
    ensures forall i :: 1 <= i < k ==> LowerProduct(m, n, b', i) == LowerProduct(m, n, b, i)
  {
    hide Dot, Axpy;
    DotLast(m[k], b', 1, k);
    DotAgree(m[k], m[k], b, b', 1, k);
    forall i | 1 <= i < k
      ensures LowerProduct(m, n, b', i) == LowerProduct(m, n, b, i)
    {
      DotAgree(m[i], m[i], b, b', 1, i + 1);
    }
  }

  /** The second loop of `dgesl` with job 0: replay the multipliers and swaps backwards. */
  method ReplayPivots(a: array2<real>, n: nat, ipvt: array<nat>, b: array<real>)
    requires 1 <= n && a.Length0 == a.Length1 == ipvt.Length == b.Length == n + 1
    requires Pivots(ipvt[..], n, n)
    modifies b
    ensures b[..] == Replay(Rows(a), ipvt[..], n, n, old(b[..]))
  {
    hide Dot;
    ghost var m, p, y := Rows(a), ipvt[..], b[..];
    for k := n downto 1
      invariant Rows(a) == m && ipvt[..] == p
      invariant Replay(m, p, n, k, b[..]) == Replay(m, p, n, n, y)
    {
      ghost var before := b[..];
      var t := Ddot(a, k, b, k + 1, n + 1);
      b[k] := b[k] + t;
      var j := ipvt[k];
      if j != k {
        var s := b[j];
        b[j] := b[k];
        b[k] := s;
      }
      assert b[..] == Unpivot(m[k], p[k], k, n, before);
    }
  }

  /** The first loop of `dgesl` with a nonzero job: apply each P_k and transposed M_k. */
  method PullBack(a: array2<real>, n: nat, ipvt: array<nat>, b: array<real>)
    requires 1 <= n && a.Length0 == a.Length1 == ipvt.Length == b.Length == n + 1
    requires Pivots(ipvt[..], n, n)
    modifies b
    ensures PulledBack(Rows(a), ipvt[..], n, n, old(b[..]), b[..])
  {
    hide Axpy, Dot;
    ghost var m, p, orig := Rows(a), ipvt[..], b[..];
    for k := 1 to n
      invariant Rows(a) == m && ipvt[..] == p
      invariant PulledBack(m, p, n, k, orig, b[..])
    {
      ghost var c := b[..];
      var j := ipvt[k];
      var t := b[j];
      if j != k {
        b[j] := b[k];
        b[k] := t;
      }
      ghost var s := b[..];
      assert s == Swap(c, j, k);
      DaxpyVector(a, k, t, b, k + 1, n + 1);
      assert EliminatedRow(s, b[..], m[k], k, n);
      PullBackStep(m, p, n, k, orig, c, s, b[..]);
    }
  }

  /** The second loop of `dgesl` with a nonzero job: solve with the transpose of L. */
  method SolveUpper(a: array2<real>, n: nat, b: array<real>)
    requires a.Length0 == a.Length1 == b.Length == n + 1
    requires forall i :: 1 <= i <= n ==> a[i, i] != 0.0
    modifies b
    ensures Peeled(Rows(a), n, old(b[..]), b[..], 1)
  {
    ghost var m, c := Rows(a), b[..];
    for k := n + 1 downto 1
      invariant Rows(a) == m
      invariant Peeled(m, n, c, b[..], k)
    {
      ghost var before := b[..];
      b[k] := b[k] / a[k, k];
      var t := -b[k];
      DaxpyVector(a, k, t, b, 1, k);
      ghost var after := b[..];
      forall y: Vec {:trigger PeeledAt(m, n, c, after, k, y)} | |y| == n + 1
        ensures PeeledAt(m, n, c, after, k, y)
      {
        PeelStep(m, n, c, before, after, k, y);
      }
    }
  }

  /**
    Solves with the output of Dgefa on `orig`: A x = b when job is 0, otherwise
    transpose(A) x = b.  The solution replaces b.
   */
  method Dgesl(a: array2<real>, n: nat, ipvt: array<nat>, b: array<real>, job: int, ghost orig: Matrix)
    requires 1 <= n && a.Length0 == a.Length1 == ipvt.Length == b.Length == n + 1
    requires Square(orig, n) && Pivots(ipvt[..], n, n) && Factored(orig, Rows(a), ipvt[..], n, n)
    requires forall i :: 1 <= i <= n ==> a[i, i] != 0.0
    modifies b
    ensures job == 0 ==> Solves(orig, n, b[..], old(b[..]))
    ensures job != 0 ==> SolvesTranspose(orig, n, b[..], old(b[..]))
  {
    ghost var m, p, rhs := Rows(a), ipvt[..], b[..];
    if job == 0 {
      SolveLower(a, n, b);
      ghost var y := b[..];
      ReplayPivots(a, n, ipvt, b);
      ReplaySolves(orig, m, p, n, y, rhs);
    } else {
      PullBack(a, n, ipvt, b);
      ghost var c := b[..];
      SolveUpper(a, n, b);
      TransposeSolved(orig, m, p, n, rhs, c, b[..]);
    }
  }

  lemma ReplaySolves(orig: Matrix, m: Matrix, p: seq<nat>, n: nat, y: Vec, rhs: Vec)
    requires 1 <= n && Square(orig, n) && Square(m, n) && Pivots(p, n, n) && Factored(orig, m, p, n, n)
    requires |y| == |rhs| == n + 1 && forall i :: 1 <= i <= n ==> LowerProduct(m, n, y, i) == rhs[i]
    ensures Solves(orig, n, Replay(m, p, n, n, y), rhs)
  {
    forall i | 1 <= i <= n
      ensures Product(orig, n, Replay(m, p, n, n, y), i) == rhs[i]
    {
      assert FactoredAt(orig, m, p, n, n, y, i);
      assert LowerProduct(m, n, y, i) == rhs[i];
    }
  }

  /** Factoring then solving: a nonsingular system is solved, and the solution is the only one. */
  method FactorAndSolve(a: array2<real>, n: nat, ipvt: array<nat>, b: array<real>) returns (info: nat)
    requires 1 <= n && a.Length0 == a.Length1 == ipvt.Length == b.Length == n + 1
    modifies a, ipvt, b
    ensures info == 0 <==> Nonsingular(old(Rows(a)), n)
    ensures info == 0 ==> Solves(old(Rows(a)), n, b[..], old(b[..]))
    ensures info != 0 ==> b[..] == old(b[..])
  {
    ghost var orig := Rows(a);
    info := Dgefa(a, n, ipvt);
    if info == 0 {
      Dgesl(a, n, ipvt, b, 0, orig);
    }
  }

  /** A nonsingular system has at most one solution. */
  lemma SolutionUnique(m: Matrix, n: nat, b: Vec, x: Vec, x': Vec)
    requires Square(m, n) && Nonsingular(m, n) && |b| == |x| == |x'| == n + 1
    requires Solves(m, n, x, b) && Solves(m, n, x', b)
    ensures forall i :: 1 <= i <= n ==> x[i] == x'[i]
  {
    var d := seq(n + 1, i requires 0 <= i <= n => Axpy(x[i], -1.0, x'[i]));
    forall i | 1 <= i <= n
      ensures Product(m, n, d, i) == 0.0
    {
      DotLinear(d, x, -1.0, x', m[i], 1, n + 1);
      DotCommutes(d, m[i], 1, n + 1);
      DotCommutes(x, m[i], 1, n + 1);
      DotCommutes(x', m[i], 1, n + 1);
      assert Product(m, n, x, i) == b[i] == Product(m, n, x', i);
    }
    assert ZeroVector(d);
    assert forall i :: 1 <= i <= n ==> d[i] == x[i] - x'[i];
  }
}