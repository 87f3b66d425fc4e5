/**
  Real vectors as sequences, with dot products over an index range.  LSODA's
  matrices and vectors are 1-based: index 0 exists but carries no data.
 */
module Vectors {
  type Vec = seq<real>

  /** One entry of a scaled vector sum. */
  function Axpy(u: real, t: real, m: real): real {
    u + t * m
  }

  /** The sum of u[c] * v[c] for lo <= c < hi. */
  function Dot(u: Vec, v: Vec, lo: nat, hi: nat): real
    requires lo <= hi <= |u| && hi <= |v|
  {
    if lo == hi then 0.0 else Dot(u, v, lo, hi - 1) + u[hi - 1] * v[hi - 1]
  }

  lemma DotLast(u: Vec, v: Vec, lo: nat, hi: nat)
    requires lo <= hi < |u| && hi < |v|
    ensures Dot(u, v, lo, hi + 1) == Axpy(Dot(u, v, lo, hi), u[hi], v[hi])
  {
  }

  lemma {:induction false} DotAgree(u: Vec, u': Vec, v: Vec, v': Vec, lo: nat, hi: nat)
    requires lo <= hi <= |u| && hi <= |v| && hi <= |u'| && hi <= |v'|
    requires forall c :: lo <= c < hi ==> u[c] == u'[c] && v[c] == v'[c]
    ensures Dot(u, v, lo, hi) == Dot(u', v', lo, hi)
  {
    if lo < hi {
      DotAgree(u, u', v, v', lo, hi - 1);
    }
  }

  lemma {:induction false} DotSplit(u: Vec, v: Vec, lo: nat, mid: nat, hi: nat)
    requires lo <= mid <= hi <= |u| && hi <= |v|
    ensures Dot(u, v, lo, hi) == Dot(u, v, lo, mid) + Dot(u, v, mid, hi)
  {
    if mid < hi {
      DotSplit(u, v, lo, mid, hi - 1);
    }
  }

  lemma DotFirst(u: Vec, v: Vec, lo: nat, hi: nat)
    requires lo < hi <= |u| && hi <= |v|
    ensures Dot(u, v, lo, hi) == v[lo] * u[lo] + Dot(u, v, lo + 1, hi)
  {
    DotSplit(u, v, lo, lo + 1, hi);
  }

  lemma {:induction false} DotZero(u: Vec, v: Vec, lo: nat, hi: nat)
    requires lo <= hi <= |u| && hi <= |v|
    requires forall c :: lo <= c < hi ==> u[c] == 0.0 || v[c] == 0.0
    ensures Dot(u, v, lo, hi) == 0.0
  {
    if lo < hi {
      DotZero(u, v, lo, hi - 1);
    }
  }

  lemma {:induction false} DotCommutes(u: Vec, v: Vec, lo: nat, hi: nat)
    requires lo <= hi <= |u| && hi <= |v|
    ensures Dot(u, v, lo, hi) == Dot(v, u, lo, hi)
  {
    if lo < hi {
      DotCommutes(u, v, lo, hi - 1);
    }
  }

  /** Dot is linear in its first argument: w == u + t * m on the range. */
  lemma {:induction false} DotLinear(w: Vec, u: Vec, t: real, m: Vec, v: Vec, lo: nat, hi: nat)
    requires lo <= hi && hi <= |w| && hi <= |u| && hi <= |m| && hi <= |v|
    requires forall c :: lo <= c < hi ==> w[c] == Axpy(u[c], t, m[c])
    ensures Dot(w, v, lo, hi) == Axpy(Dot(u, v, lo, hi), t, Dot(m, v, lo, hi))
  {
    if lo < hi {
      DotLinear(w, u, t, m, v, lo, hi - 1);
      var c := hi - 1;
      assert w[c] * v[c] == u[c] * v[c] + t * (m[c] * v[c]);
    }
  }

  /** Changing one entry of the second argument moves the dot product by u[k] times the change. */
  lemma {:induction false} DotUpdate(u: Vec, v: Vec, k: nat, x: real, lo: nat, hi: nat)
    requires lo <= k < hi <= |u| && hi <= |v|
    ensures Dot(u, v[k := x], lo, hi) == Dot(u, v, lo, hi) + u[k] * (x - v[k])
  {
    if k == hi - 1 {
      DotAgree(u, u, v, v[k := x], lo, hi - 1);
    } else {
      DotUpdate(u, v, k, x, lo, hi - 1);
    }
  }

  lemma DotBump(u: Vec, v: Vec, k: nat, d: real, lo: nat, hi: nat)
    requires lo <= k < hi <= |u| && hi <= |v|
    ensures Dot(u, v[k := v[k] + d], lo, hi) == Axpy(Dot(u, v, lo, hi), u[k], d)
  {
    DotUpdate(u, v, k, v[k] + d, lo, hi);
  }

  function Swap(v: Vec, i: nat, j: nat): (w: Vec)
    requires i < |v| && j < |v|
    ensures |w| == |v|
  {
    v[i := v[j]][j := v[i]]
  }

  lemma SwapTwice(v: Vec, i: nat, j: nat)
    requires i < |v| && j < |v|
    ensures Swap(Swap(v, i, j), i, j) == v
  {
  }

  /** Swapping the same two entries of both arguments leaves the dot product unchanged. */
  lemma DotSwap(u: Vec, v: Vec, i: nat, j: nat, lo: nat, hi: nat)
    requires lo <= i < hi && lo <= j < hi && hi <= |u| && hi <= |v|
    ensures Dot(Swap(u, i, j), Swap(v, i, j), lo, hi) == Dot(u, v, lo, hi)
  {
    if i == j {
      assert Swap(u, i, j) == u && Swap(v, i, j) == v;
    } else {
      var us, vs := Swap(u, i, j), Swap(v, i, j);
      DotUpdate(us, v, i, v[j], lo, hi);
      DotUpdate(us, v[i := v[j]], j, v[i], lo, hi);
      DotCommutes(us, v, lo, hi);
      DotUpdate(v, u, i, u[j], lo, hi);
      DotUpdate(v, u[i := u[j]], j, u[i], lo, hi);
      DotCommutes(v, u, lo, hi);
      var p, q, r, t := u[i], u[j], v[i], v[j];
      assert q * (t - r) + p * (r - t) + r * (q - p) + t * (p - q) == 0.0;
    }
  }

  /** Moving a swap from one argument to the other. */
  lemma DotSwapAcross(u: Vec, s: Vec, v: Vec, w: Vec, i: nat, j: nat, lo: nat, hi: nat)
    requires lo <= i < hi && lo <= j < hi && hi <= |u| && hi <= |v|
    requires s == Swap(u, i, j) && w == Swap(v, i, j)
    ensures Dot(u, w, lo, hi) == Dot(s, v, lo, hi)
  {
    DotSwap(s, v, i, j, lo, hi);
    SwapTwice(u, i, j);
  }
}
