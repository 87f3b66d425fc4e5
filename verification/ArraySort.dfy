/** Permutations given as index arrays. */
module Permutations {
  predicate IsPermutation(p: seq<nat>) {
    && (forall i {:trigger p[i]} :: 0 <= i < |p| ==> p[i] < |p|)
    && (forall i, j {:trigger p[i], p[j]} :: 0 <= i < j < |p| ==> p[i] != p[j])
  }

  /** The sequence s read in the order of p. */
  function Permuted<T>(s: seq<T>, p: seq<nat>): (r: seq<T>)
    requires |p| == |s| && IsPermutation(p)
    ensures |r| == |s| && forall i {:trigger r[i]} :: 0 <= i < |s| ==> r[i] == s[p[i]]
  {
    seq(|s|, i requires 0 <= i < |s| => s[p[i]])
  }

  /** p without its last entry, as a permutation of what is left when that entry is taken out. */
  function Closed(p: seq<nat>): (q: seq<nat>)
    requires |p| > 0 && IsPermutation(p)
    ensures |q| == |p| - 1 && IsPermutation(q)
    ensures forall i {:trigger q[i]} :: 0 <= i < |q| ==> p[i] == if q[i] < p[|p| - 1] then q[i] else q[i] + 1
  {
    var v := p[|p| - 1];
    seq(|p| - 1, i requires 0 <= i < |p| - 1 => if p[i] < v then p[i] else p[i] - 1)
  }

  function Without<T>(s: seq<T>, v: nat): (r: seq<T>)
    requires v < |s|
    ensures |r| == |s| - 1 && forall i {:trigger r[i]} :: 0 <= i < |r| ==> r[i] == s[if i < v then i else i + 1]
  {
    s[..v] + s[v + 1..]
  }

  /** Reading a sequence in the order of a permutation only rearranges it. */
  lemma {:induction false} PermutedSameItems<T>(s: seq<T>, p: seq<nat>)
    requires |p| == |s| && IsPermutation(p)
    ensures multiset(Permuted(s, p)) == multiset(s)
  {
    if |s| > 0 {
      var v, r := p[|p| - 1], Permuted(s, p);
      var s', p' := Without(s, v), Closed(p);
      PermutedSameItems(s', p');
      assert r == Permuted(s', p') + [s[v]];
      assert s == s[..v] + ([s[v]] + s[v + 1..]);
    }
  }

  /** Every index occurs in a permutation. */
  lemma {:induction false} PermutationOnto(p: seq<nat>, v: nat) returns (i: nat)
    requires IsPermutation(p) && v < |p|
    ensures i < |p| && p[i] == v
    decreases |p|
  {
    var last := p[|p| - 1];
    if v == last {
      i := |p| - 1;
    } else {
      i := PermutationOnto(Closed(p), if v < last then v else v - 1);
    }
  }
}

/** The sorting and searching helpers of `array.h`; keys are compared as integers. */
module ArraySort {
  import opened Numbers
  import opened Permutations

  // ----- argsort

  /** Index a comes before index b in the stable order of the keys. */
  predicate Before(keys: seq<int>, a: nat, b: nat)
    requires a < |keys| && b < |keys|
  {
    keys[a] < keys[b] || (keys[a] == keys[b] && a < b)
  }

  /** The indices of block [lo, hi) in stable order, at the places of that block. */
  predicate Block(keys: seq<int>, s: seq<nat>, lo: nat, hi: nat) {
    && lo <= hi <= |s| && |s| <= |keys|
    && (forall j {:trigger s[j]} :: lo <= j < hi ==> lo <= s[j] < hi)
    && (forall j, k {:trigger s[j], s[k]} :: lo <= j < k < hi ==> Before(keys, s[j], s[k]))
  }

  /** Where the k-th block of this width starts. */
  function Edge(k: nat, width: nat): nat {
    if k == 0 then 0 else Edge(k - 1, width) + width
  }

  function Clip(i: nat, n: nat): nat {
    if i < n then i else n
  }

  predicate BlockAt(keys: seq<int>, s: seq<nat>, k: nat, width: nat) {
    Block(keys, s, Clip(Edge(k, width), |s|), Clip(Edge(k + 1, width), |s|))
  }

  ghost predicate AllBlocks(keys: seq<int>, s: seq<nat>, width: nat) {
    forall k: nat {:trigger BlockAt(keys, s, k, width)} :: BlockAt(keys, s, k, width)
  }

  lemma {:induction false} EdgeDouble(k: nat, width: nat)
    ensures Edge(2 * k, width) == Edge(k, 2 * width)
  {
    if k > 0 {
      EdgeDouble(k - 1, width);
      assert Edge(2 * k, width) == Edge(2 * k - 1, width) + width == Edge(2 * k - 2, width) + 2 * width;
    }
  }

  lemma {:induction false} EdgeOrder(j: nat, k: nat, width: nat)
    requires j <= k
    ensures Edge(j, width) <= Edge(k, width)
  {
    if j < k {
      EdgeOrder(j, k - 1, width);
    }
  }

  /** The inner loop of `argsort`: merges two neighbouring blocks of A into B. */
  method Merge(keys: seq<int>, A: array<nat>, B: array<nat>, lo: nat, pivot: nat, end: nat)
    requires A != B && A.Length == B.Length == |keys| && lo <= pivot <= end <= |keys|
    requires Block(keys, A[..], lo, pivot) && Block(keys, A[..], pivot, end)
    modifies B
    ensures Block(keys, B[..], lo, end)
    ensures forall j {:trigger B[j]} :: 0 <= j < lo || end <= j < B.Length ==> B[j] == old(B[j])
  {
    var i0, i1 := lo, pivot;
    for j := lo to end
      invariant lo <= i0 <= pivot <= i1 <= end && j - lo == (i0 - lo) + (i1 - pivot)
      invariant Merging(keys, A[..], B[..], lo, pivot, end, j, i0, i1)
      invariant forall k {:trigger B[k]} :: 0 <= k < lo || end <= k < B.Length ==> B[k] == old(B[k])
    {
      ghost var before := B[..];
      if i0 < pivot && (i1 >= end || keys[A[i0]] <= keys[A[i1]]) {
        MergeStep(keys, A[..], before, lo, pivot, end, j, i0, i1, i0);
        B[j] := A[i0];
        i0 := i0 + 1;
      } else {
        MergeStep(keys, A[..], before, lo, pivot, end, j, i0, i1, i1);
        B[j] := A[i1];
        i1 := i1 + 1;
      }
      assert B[..] == before[j := B[j]];
    }
  }

  /** While merging: what is written is in order and comes before all that is left of both blocks. */
  ghost predicate Merging(keys: seq<int>, a: seq<nat>, b: seq<nat>, lo: nat, pivot: nat, end: nat, j: nat, i0: nat, i1: nat) {
    && |a| == |b| == |keys| && lo <= j <= end <= |keys| && lo <= i0 <= pivot <= i1 <= end
    && (forall x {:trigger b[x]} :: lo <= x < j ==> lo <= b[x] < end)
    && (forall x {:trigger a[x]} :: lo <= x < end ==> lo <= a[x] < end)
    && (forall x, y {:trigger b[x], b[y]} :: lo <= x < y < j ==> Before(keys, b[x], b[y]))
    && (forall x, y {:trigger b[x], a[y]} :: lo <= x < j && (i0 <= y < pivot || i1 <= y < end) ==> Before(keys, b[x], a[y]))
  }

  /** The item picked comes before all others that are left. */
  lemma PickFirst(keys: seq<int>, a: seq<nat>, lo: nat, pivot: nat, end: nat, i0: nat, i1: nat, pick: nat, y: nat)
    requires Block(keys, a, lo, pivot) && Block(keys, a, pivot, end) && lo <= i0 <= pivot <= i1 <= end
    requires if i0 < pivot && (i1 >= end || keys[a[i0]] <= keys[a[i1]]) then pick == i0 else pick == i1 && i1 < end
    requires y != pick && (i0 <= y < pivot || i1 <= y < end)
    ensures Before(keys, a[pick], a[y])
  {
    if pick == i0 && i0 < pivot {
      if y >= pivot && i1 < y {
        assert Before(keys, a[i1], a[y]);
      }
    } else if y < pivot && i0 < y {
      assert Before(keys, a[i0], a[y]);
    }
  }

  lemma MergeStep(keys: seq<int>, a: seq<nat>, b: seq<nat>, lo: nat, pivot: nat, end: nat, j: nat, i0: nat, i1: nat, pick: nat)
    requires Merging(keys, a, b, lo, pivot, end, j, i0, i1) && j < end
    requires Block(keys, a, lo, pivot) && Block(keys, a, pivot, end)
    requires if i0 < pivot && (i1 >= end || keys[a[i0]] <= keys[a[i1]]) then pick == i0 else pick == i1 && i1 < end
    ensures var left := i0 < pivot && (i1 >= end || keys[a[i0]] <= keys[a[i1]]);
      Merging(keys, a, b[j := a[pick]], lo, pivot, end, j + 1, if left then i0 + 1 else i0, if left then i1 else i1 + 1)
  {
    hide Before, Block;
    forall y | y != pick && (i0 <= y < pivot || i1 <= y < end)
      ensures Before(keys, a[pick], a[y])
    {
      PickFirst(keys, a, lo, pivot, end, i0, i1, pick, y);
    }
  }

  ghost predicate FirstBlocks(keys: seq<int>, s: seq<nat>, m: nat, width: nat) {
    forall k: nat {:trigger BlockAt(keys, s, k, width)} :: k < m ==> BlockAt(keys, s, k, width)
  }

  lemma NextBlock(keys: seq<int>, s: seq<nat>, t: seq<nat>, m: nat, width: nat)
    requires |t| == |s| && FirstBlocks(keys, s, m, width)
    requires forall j {:trigger t[j]} :: 0 <= j < |s| && j < Edge(m, width) ==> t[j] == s[j]
    requires BlockAt(keys, t, m, width)
    ensures FirstBlocks(keys, t, m + 1, width)
  {
    hide BlockAt;
    forall k: nat | k < m
      ensures BlockAt(keys, t, k, width)
    {
      BlockFrame(keys, s, t, k, m, width);
    }
  }

  lemma LastBlocks(keys: seq<int>, s: seq<nat>, m: nat, width: nat)
    requires |s| == |keys| && FirstBlocks(keys, s, m, width) && Edge(m, width) >= |s|
    ensures AllBlocks(keys, s, width)
  {
    forall k: nat
      ensures BlockAt(keys, s, k, width)
    {
      if k >= m {
        EdgeOrder(m, k, width);
      }
    }
  }

  /** One pass of the outer loop: blocks of twice the width in B. */
  method Pass(keys: seq<int>, A: array<nat>, B: array<nat>, width: nat)
    requires A != B && A.Length == B.Length == |keys| && width > 0 && AllBlocks(keys, A[..], width)
    modifies B
    ensures AllBlocks(keys, B[..], 2 * width)
  {
    hide Edge, Block, BlockAt, AllBlocks, FirstBlocks;
    var n := |keys|;
    var i := 0;
    ghost var m: nat := 0;
    StartBlocks(keys, B[..], 2 * width);
    while i < n
      invariant i == Edge(m, 2 * width) && FirstBlocks(keys, B[..], m, 2 * width) && A[..] == old(A[..])
      decreases n - i
    {
      var pivot := if i + width < n then i + width else n;
      var end := if i + 2 * width < n then i + 2 * width else n;
      TwoBlocks(keys, A[..], m, width);
      ghost var before := B[..];
      Merge(keys, A, B, i, pivot, end);
      BlockIs(keys, B[..], m, 2 * width);
      NextBlock(keys, before, B[..], m, 2 * width);
      m := m + 1;
      i := i + 2 * width;
    }
    LastBlocks(keys, B[..], m, 2 * width);
  }

  lemma StartBlocks(keys: seq<int>, s: seq<nat>, width: nat)
    ensures Edge(0, width) == 0 && FirstBlocks(keys, s, 0, width)
  {
  }

  lemma BlockIs(keys: seq<int>, s: seq<nat>, m: nat, width: nat)
    ensures Edge(m + 1, width) == Edge(m, width) + width
    ensures BlockAt(keys, s, m, width) <==> Block(keys, s, Clip(Edge(m, width), |s|), Clip(Edge(m, width) + width, |s|))
  {
  }

  lemma TwoBlocks(keys: seq<int>, s: seq<nat>, m: nat, width: nat)
    requires AllBlocks(keys, s, width)
    ensures var i := Edge(m, 2 * width);
      Block(keys, s, Clip(i, |s|), Clip(i + width, |s|)) && Block(keys, s, Clip(i + width, |s|), Clip(i + 2 * width, |s|))
  {
    hide Block;
    EdgeDouble(m, width);
    assert BlockAt(keys, s, 2 * m, width) && BlockAt(keys, s, 2 * m + 1, width);
    assert Edge(2 * m + 1, width) == Edge(2 * m, width) + width && Edge(2 * m + 2, width) == Edge(2 * m + 1, width) + width;
  }

  lemma BlockFrame(keys: seq<int>, s: seq<nat>, t: seq<nat>, k: nat, m: nat, width: nat)
    requires |t| == |s| && BlockAt(keys, s, k, width) && k < m
    requires forall j {:trigger t[j]} :: 0 <= j < |s| && j < Edge(m, width) ==> t[j] == s[j]
    ensures BlockAt(keys, t, k, width)
  {
    EdgeOrder(k + 1, m, width);
  }

  /** How often the width doubles before it reaches n. */
  function Passes(width: nat, n: nat): nat
    requires width > 0
    decreases n - width
  {
    if width < n then 1 + Passes(2 * width, n) else 0
  }

  /**
    `argsort` leaves the stable sorting permutation in arg, whatever the number of passes:
    the buffers are swapped as often beforehand as during the passes.
   */
  method Argsort(keys: seq<int>, arg: array<nat>)
    requires arg.Length == |keys|
    modifies arg
    ensures Block(keys, arg[..], 0, |keys|)
  {
    hide Block, BlockAt, AllBlocks, Edge;
    var n := |keys|;
    var argb := new nat[n];
    var A, B := arg, argb;
    var width := 1;
    ghost var swaps := 0;
    while width < n
      invariant width > 0 && swaps + Passes(width, n) == Passes(1, n)
      invariant if swaps % 2 == 0 then A == arg && B == argb else A == argb && B == arg
      decreases n - width
    {
      A, B := B, A;
      swaps := swaps + 1;
      width := 2 * width;
    }
    for i := 0 to n
      invariant forall k {:trigger A[k]} :: 0 <= k < i ==> A[k] == k
    {
      A[i] := i;
    }
    SingleBlocks(keys, A[..]);
    width := 1;
    while width < n
      invariant width > 0 && swaps + Passes(width, n) == 2 * Passes(1, n)
      invariant if swaps % 2 == 0 then A == arg && B == argb else A == argb && B == arg
      invariant AllBlocks(keys, A[..], width)
      decreases n - width
    {
      Pass(keys, A, B, width);
      A, B := B, A;
      swaps := swaps + 1;
      width := 2 * width;
    }
    WholeBlock(keys, A[..], width);
  }

  lemma WholeBlock(keys: seq<int>, s: seq<nat>, width: nat)
    requires |s| == |keys| && AllBlocks(keys, s, width) && width >= |s|
    ensures Block(keys, s, 0, |s|)
  {
    assert BlockAt(keys, s, 0, width);
    assert Edge(1, width) == Edge(0, width) + width;
  }

  lemma {:induction false} SingleEdge(k: nat)
    ensures Edge(k, 1) == k
  {
    if k > 0 {
      SingleEdge(k - 1);
    }
  }

  lemma SingleBlocks(keys: seq<int>, s: seq<nat>)
    requires |s| == |keys| && forall k {:trigger s[k]} :: 0 <= k < |s| ==> s[k] == k
    ensures AllBlocks(keys, s, 1)
  {
    forall k: nat
      ensures BlockAt(keys, s, k, 1)
    {
      SingleEdge(k);
      SingleEdge(k + 1);
    }
  }

  predicate Sorted(keys: seq<int>) {
    forall i, j {:trigger keys[i], keys[j]} :: 0 <= i < j < |keys| ==> keys[i] <= keys[j]
  }

  /** One block in stable order is a stable sorting permutation. */
  lemma StableSort(keys: seq<int>, p: seq<nat>)
    requires |p| == |keys| && Block(keys, p, 0, |keys|)
    ensures IsPermutation(p) && Sorted(Permuted(keys, p)) && multiset(Permuted(keys, p)) == multiset(keys)
    ensures forall i, j {:trigger p[i], p[j]} :: 0 <= i < j < |p| && keys[p[i]] == keys[p[j]] ==> p[i] < p[j]
  {
    PermutedSameItems(keys, p);
  }

  /** There is only one index array in stable order. */
  lemma {:induction false} StableUnique(keys: seq<int>, p: seq<nat>, q: seq<nat>, k: nat)
    requires |p| == |q| == |keys| && Block(keys, p, 0, |keys|) && Block(keys, q, 0, |keys|) && k <= |keys|
    ensures p[..k] == q[..k]
  {
    if k > 0 {
      StableUnique(keys, p, q, k - 1);
      var i := PermutationOnto(q, p[k - 1]);
      var j := PermutationOnto(p, q[k - 1]);
      NotInPrefix(p, q, k - 1, i);
      NotInPrefix(q, p, k - 1, j);
      assert p[..k] == p[..k - 1] + [p[k - 1]] && q[..k] == q[..k - 1] + [q[k - 1]];
    }
  }

  lemma NotInPrefix(p: seq<nat>, q: seq<nat>, k: nat, i: nat)
    requires |p| == |q| && IsPermutation(p) && k < |p| && i < |q| && p[..k] == q[..k] && q[i] == p[k]
    ensures i >= k
  {
    forall j | 0 <= j < k
      ensures q[j] == p[j]
    {
      assert q[..k][j] == p[..k][j];
    }
  }

  // ----- argpermute

  /** Following p m times. */
  ghost function Iterate(p: seq<nat>, x: nat, m: nat): (y: nat)
    requires IsPermutation(p) && x < |p|
    ensures y < |p|
    decreases m
  {
    if m == 0 then x else Iterate(p, p[x], m - 1)
  }

  ghost predicate Reaches(p: seq<nat>, x: nat, bound: nat)
    requires IsPermutation(p) && x < |p|
  {
    exists m: nat :: Iterate(p, x, m) < bound
  }

  /** A path that follows p without repeating. */
  ghost predicate Path(p: seq<nat>, path: seq<nat>) {
    && |path| > 0 && (forall j {:trigger path[j]} :: 0 <= j < |path| ==> path[j] < |p|)
    && (forall j, k {:trigger path[j], path[k]} :: 0 <= j < k < |path| ==> path[j] != path[k])
    && (forall j, k {:trigger path[j], path[k]} :: 0 <= j < k < |path| && k == j + 1 ==> path[k] == p[path[j]])
  }

  lemma {:induction false} PathLength(p: seq<nat>, path: seq<nat>)
    requires Path(p, path)
    ensures |path| <= |p|
  {
    DistinctCount(path, |p|);
  }

  lemma {:induction false} DistinctIn(path: seq<nat>, s: set<nat>)
    requires forall j {:trigger path[j]} :: 0 <= j < |path| ==> path[j] in s
    requires forall j, k {:trigger path[j], path[k]} :: 0 <= j < k < |path| ==> path[j] != path[k]
    ensures |path| <= |s|
  {
    if path != [] {
      var init, last := path[..|path| - 1], path[|path| - 1];
      DistinctIn(init, s - {last});
    }
  }

  lemma DistinctCount(path: seq<nat>, n: nat)
    requires forall j {:trigger path[j]} :: 0 <= j < |path| ==> path[j] < n
    requires forall j, k {:trigger path[j], path[k]} :: 0 <= j < k < |path| ==> path[j] != path[k]
    ensures |path| <= n
  {
    DistinctIn(path, Below(n));
  }

  lemma StepBack(p: seq<nat>, path: seq<nat>, j: nat)
    requires Path(p, path) && 0 < j < |path|
    ensures path[j] == p[path[j - 1]]
  {
  }

  /** The next node of a path that has not come back to its start is new. */
  lemma PathGrows(p: seq<nat>, path: seq<nat>)
    requires IsPermutation(p) && Path(p, path)
    ensures var k := p[path[|path| - 1]]; k != path[0] ==> Path(p, path + [k])
  {
    var k := p[path[|path| - 1]];
    if k != path[0] {
      forall j | 0 <= j < |path|
        ensures path[j] != k
      {
        if j > 0 {
          StepBack(p, path, j);
        }
      }
    }
  }

  /** The search of the cycle leader: follows p from i until an index at most i. */
  method Leader(p: seq<nat>, i: nat) returns (k: nat, ghost path: seq<nat>)
    requires IsPermutation(p) && i < |p|
    ensures Path(p, path) && path[0] == i && (forall j {:trigger path[j]} :: 0 <= j < |path| ==> path[j] >= i)
    ensures k == p[path[|path| - 1]] && k <= i
  {
    k := p[i];
    path := [i];
    while k > i
      invariant Path(p, path) && path[0] == i && (forall j {:trigger path[j]} :: 0 <= j < |path| ==> path[j] >= i)
      invariant k == p[path[|path| - 1]] < |p|
      decreases |p| - |path|
    {
      PathGrows(p, path);
      PathLength(p, path + [k]);
      path := path + [k];
      k := p[k];
    }
  }

  /** While permuting: cycles in `done` are permuted, the others are as they were. */
  ghost predicate Permuting<T>(p: seq<nat>, was: seq<T>, now: seq<T>, done: set<nat>, i: nat)
    requires IsPermutation(p)
  {
    && |now| == |was| == |p|
    && (forall x {:trigger x in done} :: x in done ==> x < |p| && Reaches(p, x, i))
    && (forall x {:trigger p[x]} :: 0 <= x < |p| ==> (x in done <==> p[x] in done))
    && (forall x: nat {:trigger x in done} :: x < i ==> x in done)
    && (forall x: nat {:trigger now[x]} :: x < |p| ==> now[x] == was[if x in done then p[x] else x])
  }

  lemma {:induction false} PathBack(p: seq<nat>, path: seq<nat>, done: set<nat>, j: nat)
    requires IsPermutation(p) && Path(p, path) && j < |path|
    requires forall x {:trigger p[x]} :: 0 <= x < |p| ==> (x in done <==> p[x] in done)
    ensures path[0] in done <==> path[j] in done
  {
    if j > 0 {
      PathBack(p, path, done, j - 1);
      assert path[j] == p[path[j - 1]];
    }
  }

  lemma {:induction false} StaysOnCycle(p: seq<nat>, path: seq<nat>, j: nat, m: nat) returns (k: nat)
    requires IsPermutation(p) && Path(p, path) && p[path[|path| - 1]] == path[0] && j < |path|
    ensures k < |path| && Iterate(p, path[j], m) == path[k]
    decreases m
  {
    if m == 0 {
      k := j;
    } else {
      var next := if j + 1 < |path| then j + 1 else 0;
      assert p[path[j]] == path[next];
      k := StaysOnCycle(p, path, next, m - 1);
    }
  }

  /** A cycle whose least index is i has not been permuted before. */
  lemma FreshCycle<T>(p: seq<nat>, was: seq<T>, now: seq<T>, done: set<nat>, i: nat, path: seq<nat>)
    requires IsPermutation(p) && Permuting(p, was, now, done, i) && Path(p, path) && path[0] == i && p[path[|path| - 1]] == i
    requires forall j {:trigger path[j]} :: 0 <= j < |path| ==> path[j] >= i
    ensures forall j {:trigger path[j]} :: 0 <= j < |path| ==> path[j] !in done
  {
    forall j | 0 <= j < |path|
      ensures path[j] !in done
    {
      if path[j] in done {
        var m: nat :| Iterate(p, path[j], m) < i;
        var k := StaysOnCycle(p, path, j, m);
      }
    }
  }

  lemma {:induction false} PathReaches(p: seq<nat>, path: seq<nat>, j: nat)
    requires IsPermutation(p) && Path(p, path) && p[path[|path| - 1]] == path[0] && j < |path|
    ensures Iterate(p, path[j], |path| - j) == path[0]
    decreases |path| - j
  {
    if j + 1 < |path| {
      PathReaches(p, path, j + 1);
      assert path[j + 1] == p[path[j]];
    } else {
      assert Iterate(p, p[path[j]], 0) == path[0];
    }
  }

  ghost function Nodes(path: seq<nat>): (s: set<nat>)
    ensures forall x {:trigger x in s} :: x in s <==> x in path
  {
    set x | x in path
  }

  /** After the cycle of i is permuted. */
  lemma CycleDone<T>(p: seq<nat>, was: seq<T>, now: seq<T>, now': seq<T>, done: set<nat>, i: nat, path: seq<nat>)
    requires IsPermutation(p) && Permuting(p, was, now, done, i) && Path(p, path) && path[0] == i && p[path[|path| - 1]] == i
    requires forall j {:trigger path[j]} :: 0 <= j < |path| ==> path[j] >= i
    requires |now'| == |now| && forall x: nat {:trigger now'[x]} :: x < |p| ==> now'[x] == if x in path then now[p[x]] else now[x]
    ensures Permuting(p, was, now', done + Nodes(path), i + 1)
  {
    FreshCycle(p, was, now, done, i, path);
    var done' := done + Nodes(path);
    forall x | x in done'
      ensures x < |p| && Reaches(p, x, i + 1)
    {
      if x in done {
        var m: nat :| Iterate(p, x, m) < i;
        assert Iterate(p, x, m) < i + 1;
      } else {
        var j :| 0 <= j < |path| && path[j] == x;
        PathReaches(p, path, j);
      }
    }
    forall x | 0 <= x < |p|
      ensures x in done' <==> p[x] in done'
    {
      CycleClosed(p, path, x);
    }
    forall x: nat | x < |p|
      ensures now'[x] == was[if x in done' then p[x] else x]
    {
      CycleClosed(p, path, x);
    }
    assert i == path[0] && i in path;
  }

  lemma CycleClosed(p: seq<nat>, path: seq<nat>, x: nat)
    requires IsPermutation(p) && Path(p, path) && p[path[|path| - 1]] == path[0] && x < |p|
    ensures x in path <==> p[x] in path
  {
    if x in path {
      var j :| 0 <= j < |path| && path[j] == x;
      var next := if j + 1 < |path| then j + 1 else 0;
      assert p[x] == path[next];
    }
    if p[x] in path {
      var j :| 0 <= j < |path| && path[j] == p[x];
      var prev := if j > 0 then j - 1 else |path| - 1;
      assert p[path[prev]] == p[x];
    }
  }

  /** A cycle with an index below i has been permuted already. */
  lemma CycleKnown<T>(p: seq<nat>, was: seq<T>, now: seq<T>, done: set<nat>, i: nat, path: seq<nat>)
    requires IsPermutation(p) && Permuting(p, was, now, done, i) && Path(p, path) && path[0] == i && p[path[|path| - 1]] < i
    ensures Permuting(p, was, now, done, i + 1)
  {
    PathBack(p, path, done, |path| - 1);
    forall x | x in done
      ensures Reaches(p, x, i + 1)
    {
      var m: nat :| Iterate(p, x, m) < i;
      assert Iterate(p, x, m) < i + 1;
    }
  }

  /** The shuffle of one cycle, given as the path from its leader. */
  method Shuffle<T>(a: array<T>, p: seq<nat>, i: nat, ghost path: seq<nat>)
    requires IsPermutation(p) && a.Length == |p| && Path(p, path) && path[0] == i && p[path[|path| - 1]] == i
    modifies a
    ensures forall x: nat {:trigger a[x]} :: x < |p| ==> a[x] == if x in path then old(a[p[x]]) else old(a[x])
  {
    var k, pk := i, p[i];
    if pk == i {
      OnePath(p, path);
      return;
    }
    var t := a[i];
    ghost var j: nat := 0;
    while pk != i
      invariant j < |path| && k == path[j] && pk == p[k]
      invariant forall x: nat {:trigger a[x]} :: x < |p| ==> a[x] == if x in path[..j] then old(a[p[x]]) else old(a[x])
      decreases |path| - j
    {
      assert j + 1 < |path|;
      assert path[j + 1] == pk;
      assert pk !in path[..j];
      assert path[..j + 1] == path[..j] + [k];
      a[k] := a[pk];
      k := pk;
      pk := p[k];
      j := j + 1;
    }
    EndOfPath(p, path, j);
    assert path[..j] + [k] == path;
    a[k] := t;
  }

  lemma OnePath(p: seq<nat>, path: seq<nat>)
    requires IsPermutation(p) && Path(p, path) && p[path[|path| - 1]] == path[0] == p[path[0]]
    ensures path == [path[0]]
  {
    assert path[|path| - 1] == path[0];
  }

  lemma EndOfPath(p: seq<nat>, path: seq<nat>, j: nat)
    requires IsPermutation(p) && Path(p, path) && j < |path| && p[path[j]] == path[0] == p[path[|path| - 1]]
    ensures j == |path| - 1
  {
  }

  /**
    `argpermute`: the array ends up in the order of p, moved within itself, and so does the target when
    there is one; no marks are kept, an index leads its cycle when the walk from it comes back before
    meeting a smaller one.
   */
  method Argpermute<T>(a: array<T>, target: array?<T>, p: seq<nat>)
    requires IsPermutation(p) && a.Length == |p| && (target != null ==> target.Length == |p|)
    modifies a, target
    ensures a[..] == Permuted(old(a[..]), p)
    ensures target != null ==> target[..] == Permuted(old(a[..]), p)
  {
    ghost var was := a[..];
    if target != null && target != a {
      for i := 0 to |p|
        invariant a[..] == was
        invariant forall k {:trigger target[k]} :: 0 <= k < i ==> target[k] == was[p[k]]
      {
        target[i] := a[p[i]];
      }
    }
    ghost var done: set<nat> := {};
    for i := 0 to |p|
      invariant Permuting(p, was, a[..], done, i)
      invariant target != null && target != a ==> forall k {:trigger target[k]} :: 0 <= k < |p| ==> target[k] == was[p[k]]
    {
      var k;
      ghost var path;
      k, path := Leader(p, i);
      if k < i {
        CycleKnown(p, was, a[..], done, i, path);
        continue;
      }
      ghost var before := a[..];
      Shuffle(a, p, i, path);
      CycleDone(p, was, before, a[..], done, i, path);
      done := done + Nodes(path);
    }
  }

  // ----- searchsorted

  /** The first r keys are below the key (at most the key, to the right), the others are not. */
  predicate Splits(keys: seq<int>, key: int, right: bool, r: int) {
    && 0 <= r <= |keys|
    && (forall j {:trigger keys[j]} :: 0 <= j < r ==> keys[j] < key || (right && keys[j] == key))
    && (forall j {:trigger keys[j]} :: r <= j < |keys| ==> key < keys[j] || (!right && keys[j] == key))
  }

  /** `searchsorted`; the direction is SEARCH_DIR_RIGHT or SEARCH_DIR_LEFT. The array must not be empty. */
  function SearchSorted(key: int, keys: seq<int>, right: bool): (r: int)
    requires |keys| > 0
    ensures 0 <= r <= |keys|
  {
    var mid := |keys| / 2;
    if key < keys[0] || (!right && key == keys[0]) then 0
    else if key > keys[|keys| - 1] || (right && key == keys[|keys| - 1]) then |keys|
    else if key > keys[mid] || (right && key == keys[mid]) then SearchSorted(key, keys[mid..], right) + mid
    else SearchSorted(key, keys[..mid], right)
  }

  /** In a sorted array the search counts the keys below the key, or up to it. */
  lemma {:induction false} SearchSplits(key: int, keys: seq<int>, right: bool)
    requires |keys| > 0 && Sorted(keys)
    ensures Splits(keys, key, right, SearchSorted(key, keys, right))
  {
    hide Sorted, Splits;
    var mid := |keys| / 2;
    if key < keys[0] || (!right && key == keys[0]) || key > keys[|keys| - 1] || (right && key == keys[|keys| - 1]) {
      SplitsEnds(keys, key, right);
    } else {
      SortedParts(keys, mid);
      if key > keys[mid] || (right && key == keys[mid]) {
        SearchSplits(key, keys[mid..], right);
        SplitsUpper(keys, key, right, mid, SearchSorted(key, keys[mid..], right));
      } else {
        SearchSplits(key, keys[..mid], right);
        SplitsLower(keys, key, right, mid, SearchSorted(key, keys[..mid], right));
      }
    }
  }

  lemma SortedParts(keys: seq<int>, mid: nat)
    requires Sorted(keys) && mid < |keys|
    ensures Sorted(keys[mid..]) && Sorted(keys[..mid])
  {
  }

  lemma SplitsEnds(keys: seq<int>, key: int, right: bool)
    requires |keys| > 0 && Sorted(keys)
    ensures key < keys[0] || (!right && key == keys[0]) ==> Splits(keys, key, right, 0)
    ensures key > keys[|keys| - 1] || (right && key == keys[|keys| - 1]) ==> Splits(keys, key, right, |keys|)
  {
  }

  lemma SplitsUpper(keys: seq<int>, key: int, right: bool, mid: nat, r: int)
    requires mid < |keys| && Sorted(keys) && Splits(keys[mid..], key, right, r) && (key > keys[mid] || (right && key == keys[mid]))
    ensures Splits(keys, key, right, r + mid)
  {
    forall j | mid <= j < |keys|
      ensures keys[j] == keys[mid..][j - mid]
    {
    }
  }

  lemma SplitsLower(keys: seq<int>, key: int, right: bool, mid: nat, r: int)
    requires mid < |keys| && Sorted(keys) && Splits(keys[..mid], key, right, r) && (key < keys[mid] || (!right && key == keys[mid]))
    ensures Splits(keys, key, right, r)
  {
    forall j | 0 <= j < mid
      ensures keys[j] == keys[..mid][j]
    {
    }
  }
}
