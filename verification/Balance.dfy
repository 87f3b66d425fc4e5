/** Sums, flattening and exchange over all ranks. */
module Ranks {
  import opened Sums

  function Flatten<T>(s: seq<seq<T>>): seq<T> {
    if s == [] then [] else Flatten(s[..|s| - 1]) + s[|s| - 1]
  }

  function Lengths<T>(s: seq<seq<T>>): (r: seq<nat>)
    ensures |r| == |s| && forall i {:trigger r[i]} :: 0 <= i < |s| ==> r[i] == |s[i]|
  {
    seq(|s|, i requires 0 <= i < |s| => |s[i]|)
  }

  lemma {:induction false} FlattenLength<T>(s: seq<seq<T>>)
    ensures |Flatten(s)| == Sum(Lengths(s))
  {
    if s != [] {
      FlattenLength(s[..|s| - 1]);
      assert Lengths(s)[..|s| - 1] == Lengths(s[..|s| - 1]);
    }
  }

  lemma {:induction false} FlattenMember<T>(s: seq<seq<T>>, k: nat) returns (i: nat, j: nat)
    requires k < |Flatten(s)|
    ensures i < |s| && j < |s[i]| && Flatten(s)[k] == s[i][j]
    decreases |s|
  {
    var init := Flatten(s[..|s| - 1]);
    if k < |init| {
      i, j := FlattenMember(s[..|s| - 1], k);
    } else {
      i, j := |s| - 1, k - |init|;
    }
  }

  // ----- MPI_Alltoallv

  /** Rank by rank, where the block for each destination starts; the last block ends with the pool. */
  predicate Cuts(cut: seq<nat>, size: nat, length: nat) {
    && |cut| == size > 0 && cut[0] == 0
    && (forall r, q {:trigger cut[r], cut[q]} :: 0 <= r < q < size ==> cut[r] <= cut[q])
    && forall r {:trigger cut[r]} :: 0 <= r < size ==> cut[r] <= length
  }

  function CutEnd(cut: seq<nat>, length: nat, r: nat): nat
    requires r < |cut|
  {
    if r + 1 < |cut| then cut[r + 1] else length
  }

  /** What rank j sends to rank r. */
  function Segment<T>(pool: seq<T>, cut: seq<nat>, r: nat): seq<T>
    requires Cuts(cut, |cut|, |pool|) && r < |cut|
  {
    pool[cut[r]..CutEnd(cut, |pool|, r)]
  }

  ghost predicate AllCuts<T>(pools: seq<seq<T>>, cuts: seq<seq<nat>>) {
    |cuts| == |pools| && forall j {:trigger cuts[j]} {:trigger pools[j]} :: 0 <= j < |pools| ==> Cuts(cuts[j], |pools|, |pools[j]|)
  }

  /** The segments rank r receives from the first n ranks. */
  ghost function Incoming<T>(pools: seq<seq<T>>, cuts: seq<seq<nat>>, r: nat, n: nat): (s: seq<seq<T>>)
    requires AllCuts(pools, cuts) && r < |pools| && n <= |pools|
    ensures |s| == n && forall j {:trigger s[j]} :: 0 <= j < n ==> s[j] == Segment(pools[j], cuts[j], r)
  {
    seq(n, j requires 0 <= j < n => Segment(pools[j], cuts[j], r))
  }

  /** The pool of rank r after the exchange. */
  ghost function Received<T>(pools: seq<seq<T>>, cuts: seq<seq<nat>>, r: nat): seq<T>
    requires AllCuts(pools, cuts) && r < |pools|
  {
    Flatten(Incoming(pools, cuts, r, |pools|))
  }

  /** The first k blocks of the first n pools. */
  ghost function Sent<T>(pools: seq<seq<T>>, cuts: seq<seq<nat>>, k: nat, n: nat): (s: seq<seq<T>>)
    requires AllCuts(pools, cuts) && k <= |pools| && n <= |pools|
    ensures |s| == n && forall j {:trigger s[j]} :: 0 <= j < n ==> s[j] == pools[j][..SentEnd(pools, cuts, k, j)]
  {
    seq(n, j requires 0 <= j < n => pools[j][..SentEnd(pools, cuts, k, j)])
  }

  ghost function SentEnd<T>(pools: seq<seq<T>>, cuts: seq<seq<nat>>, k: nat, j: nat): (e: nat)
    requires AllCuts(pools, cuts) && k <= |pools| && j < |pools|
    ensures e <= |pools[j]|
  {
    if k < |pools| then cuts[j][k] else |pools[j]|
  }

  lemma FlattenLast<T>(s: seq<seq<T>>, init: seq<seq<T>>)
    requires |s| == |init| + 1 && s[..|init|] == init
    ensures Flatten(s) == Flatten(init) + s[|init|]
  {
  }

  lemma JoinParts<T>(a: seq<T>, x: seq<T>, b: seq<T>, y: seq<T>, c: seq<T>, z: seq<T>)
    requires multiset(b) == multiset(a) + multiset(c) && |b| == |a| + |c| && y == x + z
    ensures multiset(b + y) == multiset(a + x) + multiset(c + z) && |b + y| == |a + x| + |c + z|
  {
    assert multiset(y) == multiset(x) + multiset(z);
    assert multiset(b + y) == multiset(b) + multiset(y);
    assert multiset(a + x) == multiset(a) + multiset(x);
    assert multiset(c + z) == multiset(c) + multiset(z);
  }

  lemma {:induction false} SentNext<T>(pools: seq<seq<T>>, cuts: seq<seq<nat>>, k: nat, n: nat)
    requires AllCuts(pools, cuts) && k < |pools| && n <= |pools|
    ensures multiset(Flatten(Sent(pools, cuts, k + 1, n))) == multiset(Flatten(Sent(pools, cuts, k, n))) + multiset(Flatten(Incoming(pools, cuts, k, n)))
    ensures |Flatten(Sent(pools, cuts, k + 1, n))| == |Flatten(Sent(pools, cuts, k, n))| + |Flatten(Incoming(pools, cuts, k, n))|
    decreases n
  {
    if n == 0 {
      assert Sent(pools, cuts, k + 1, 0) == [] && Sent(pools, cuts, k, 0) == [] && Incoming(pools, cuts, k, 0) == [];
    } else {
      SentNext(pools, cuts, k, n - 1);
      SentNextStep(pools, cuts, k, n - 1);
    }
  }

  lemma SentNextStep<T>(pools: seq<seq<T>>, cuts: seq<seq<nat>>, k: nat, n: nat)
    requires AllCuts(pools, cuts) && k < |pools| && n < |pools|
    requires multiset(Flatten(Sent(pools, cuts, k + 1, n))) == multiset(Flatten(Sent(pools, cuts, k, n))) + multiset(Flatten(Incoming(pools, cuts, k, n)))
    requires |Flatten(Sent(pools, cuts, k + 1, n))| == |Flatten(Sent(pools, cuts, k, n))| + |Flatten(Incoming(pools, cuts, k, n))|
    ensures multiset(Flatten(Sent(pools, cuts, k + 1, n + 1))) == multiset(Flatten(Sent(pools, cuts, k, n + 1))) + multiset(Flatten(Incoming(pools, cuts, k, n + 1)))
    ensures |Flatten(Sent(pools, cuts, k + 1, n + 1))| == |Flatten(Sent(pools, cuts, k, n + 1))| + |Flatten(Incoming(pools, cuts, k, n + 1))|
  {
    hide Cuts, Flatten, SentEnd, Segment, AllCuts;
    var a, b, c := Sent(pools, cuts, k, n), Sent(pools, cuts, k + 1, n), Incoming(pools, cuts, k, n);
    var a', b', c' := Sent(pools, cuts, k, n + 1), Sent(pools, cuts, k + 1, n + 1), Incoming(pools, cuts, k, n + 1);
    FlattenLast(a', a);
    FlattenLast(b', b);
    FlattenLast(c', c);
    SegmentAppends(pools, cuts, k, n);
    JoinParts(Flatten(a), a'[n], Flatten(b), b'[n], Flatten(c), c'[n]);
  }

  lemma SegmentAppends<T>(pools: seq<seq<T>>, cuts: seq<seq<nat>>, k: nat, j: nat)
    requires AllCuts(pools, cuts) && k < |pools| && j < |pools|
    ensures pools[j][..SentEnd(pools, cuts, k + 1, j)] == pools[j][..SentEnd(pools, cuts, k, j)] + Segment(pools[j], cuts[j], k)
  {
  }

  /** Every rank's received items. */
  ghost function Exchange<T>(pools: seq<seq<T>>, cuts: seq<seq<nat>>, n: nat): (s: seq<seq<T>>)
    requires AllCuts(pools, cuts) && n <= |pools|
    ensures |s| == n && forall r {:trigger s[r]} :: 0 <= r < n ==> s[r] == Received(pools, cuts, r)
  {
    seq(n, r requires 0 <= r < n => Received(pools, cuts, r))
  }

  /** The first k ranks together receive the first k blocks of all pools. */
  lemma {:induction false} ExchangeSent<T>(pools: seq<seq<T>>, cuts: seq<seq<nat>>, k: nat)
    requires AllCuts(pools, cuts) && k <= |pools|
    ensures multiset(Flatten(Exchange(pools, cuts, k))) == multiset(Flatten(Sent(pools, cuts, k, |pools|)))
    ensures |Flatten(Exchange(pools, cuts, k))| == |Flatten(Sent(pools, cuts, k, |pools|))|
    decreases k
  {
    var n := |pools|;
    if k == 0 {
      NothingSent(pools, cuts, n);
    } else {
      ExchangeSent(pools, cuts, k - 1);
      SentNext(pools, cuts, k - 1, n);
      assert Exchange(pools, cuts, k)[..k - 1] == Exchange(pools, cuts, k - 1);
    }
  }

  lemma {:induction false} NothingSent<T>(pools: seq<seq<T>>, cuts: seq<seq<nat>>, n: nat)
    requires AllCuts(pools, cuts) && n <= |pools|
    ensures Flatten(Sent(pools, cuts, 0, n)) == []
    decreases n
  {
    if n > 0 {
      NothingSent(pools, cuts, n - 1);
      assert Sent(pools, cuts, 0, n)[..n - 1] == Sent(pools, cuts, 0, n - 1);
      assert cuts[n - 1][0] == 0;
    }
  }

  /** The exchange keeps every item exactly once. */
  lemma ExchangeConserves<T>(pools: seq<seq<T>>, cuts: seq<seq<nat>>)
    requires AllCuts(pools, cuts)
    ensures multiset(Flatten(Exchange(pools, cuts, |pools|))) == multiset(Flatten(pools))
  {
    hide Flatten, Exchange, Cuts;
    ExchangeSent(pools, cuts, |pools|);
    AllSent(pools, cuts);
  }

  lemma AllSent<T>(pools: seq<seq<T>>, cuts: seq<seq<nat>>)
    requires AllCuts(pools, cuts)
    ensures Sent(pools, cuts, |pools|, |pools|) == pools
  {
    hide Cuts;
    var s := Sent(pools, cuts, |pools|, |pools|);
    forall j | 0 <= j < |pools|
      ensures s[j] == pools[j]
    {
      assert pools[j][..|pools[j]|] == pools[j];
    }
  }
}

/** `balance` of `balance.c`: bisection of the splitters, exchange, local sort. */
module Balance {
  import opened ArraySort
  import opened Permutations
  import opened Ranks
  import opened Sums
  import Numbers

  ghost predicate Ready(keys: seq<seq<int>>) {
    |keys| > 0 && forall r {:trigger keys[r]} :: 0 <= r < |keys| ==> keys[r] != [] && Sorted(keys[r])
  }

  /** How many keys of all ranks are below x. */
  ghost function Counts(keys: seq<seq<int>>, x: int): (c: seq<nat>)
    requires Ready(keys)
    ensures |c| == |keys| && forall r {:trigger c[r]} :: 0 <= r < |c| ==> c[r] == SearchSorted(x, keys[r], false)
  {
    seq(|keys|, r requires 0 <= r < |keys| => SearchSorted(x, keys[r], false))
  }

  ghost function GlobalCount(keys: seq<seq<int>>, x: int): nat
    requires Ready(keys)
  {
    Sum(Counts(keys, x))
  }

  lemma SearchMonotone(keys: seq<int>, x: int, y: int)
    requires keys != [] && Sorted(keys) && x <= y
    ensures SearchSorted(x, keys, false) <= SearchSorted(y, keys, false)
  {
    var a, b := SearchSorted(x, keys, false), SearchSorted(y, keys, false);
    SearchSplits(x, keys, false);
    SearchSplits(y, keys, false);
    var at := if b < |keys| then keys[b] else y;
    assert b < |keys| ==> at >= y;
  }

  lemma LeastBelowNone(keys: seq<seq<int>>, x: int)
    requires Ready(keys) && forall r {:trigger keys[r]} :: 0 <= r < |keys| ==> x <= keys[r][0]
    ensures GlobalCount(keys, x) == 0
  {
    SumZero(Counts(keys, x));
  }

  /** The number of particles that the first j + 1 of size ranks should hold. */
  function Share(j: nat, n: nat, size: nat): nat
    requires size > 0
  {
    (j + 1) * n / size
  }

  lemma DivMonotone(a: nat, b: nat, d: nat)
    requires a <= b && d > 0
    ensures a / d <= b / d
  {
    var qa, qb := a / d, b / d;
    assert qa * d <= a && b < qb * d + d;
    assert (qb + 1) * d == qb * d + d;
    if qa >= qb + 1 {
      Numbers.TimesOrder(qa, qb + 1, d);
    }
  }

  lemma ShareMonotone(j: nat, n: nat, size: nat)
    requires size > 0
    ensures Share(j, n, size) <= Share(j + 1, n, size)
  {
    assert (j + 2) * n == (j + 1) * n + n;
    DivMonotone((j + 1) * n, (j + 2) * n, size);
  }

  function Mid(lo: int, hi: int): int {
    (hi + lo) / 2
  }

  /** The bracket of each splitter: not too many keys are below its lower end. */
  ghost predicate Brackets(keys: seq<seq<int>>, n: nat, lo: seq<int>, hi: seq<int>)
    requires Ready(keys)
  {
    && |lo| == |hi| == |keys|
    && forall j {:trigger lo[j]} {:trigger hi[j]} :: 0 <= j < |lo| ==> BracketOk(keys, n, j, lo[j], hi[j])
  }

  ghost predicate BracketOk(keys: seq<seq<int>>, n: nat, j: nat, lo: int, hi: int)
    requires Ready(keys)
  {
    lo <= hi && GlobalCount(keys, lo) <= Share(j, n, |keys|)
  }

  /** Neighbouring brackets are the same, or apart in an order that no later step can undo. */
  ghost predicate InOrder(keys: seq<seq<int>>, n: nat, j: nat, lo: int, hi: int, lo': int, hi': int)
    requires Ready(keys)
  {
    || (lo == lo' && hi == hi')
    || hi <= lo'
    || (GlobalCount(keys, Mid(lo', hi')) == Share(j + 1, n, |keys|) && hi <= Mid(lo', hi'))
    || (GlobalCount(keys, Mid(lo, hi)) == Share(j, n, |keys|) && Mid(lo, hi) <= lo')
  }

  ghost predicate AllInOrder(keys: seq<seq<int>>, n: nat, lo: seq<int>, hi: seq<int>)
    requires Ready(keys) && |lo| == |hi|
  {
    forall j, k {:trigger lo[j], lo[k]} :: 0 <= j < k < |lo| && k == j + 1 ==> InOrder(keys, n, j, lo[j], hi[j], lo[k], hi[k])
  }

  /** One step of one bracket. */
  function StepLo(count: nat, share: nat, lo: int, hi: int): int {
    if count < share then Mid(lo, hi) else lo
  }

  function StepHi(count: nat, share: nat, lo: int, hi: int): int {
    if count > share then Mid(lo, hi) else hi
  }

  lemma StepBracket(keys: seq<seq<int>>, n: nat, j: nat, lo: int, hi: int)
    requires Ready(keys) && BracketOk(keys, n, j, lo, hi)
    ensures var c, t := GlobalCount(keys, Mid(lo, hi)), Share(j, n, |keys|);
      BracketOk(keys, n, j, StepLo(c, t, lo, hi), StepHi(c, t, lo, hi)) && lo <= StepLo(c, t, lo, hi) && StepHi(c, t, lo, hi) <= hi
  {
    hide GlobalCount, Share;
  }

  lemma StepInOrder(keys: seq<seq<int>>, n: nat, j: nat, lo: int, hi: int, lo': int, hi': int)
    requires |keys| > 0 && Ready(keys) && lo <= hi && lo' <= hi' && InOrder(keys, n, j, lo, hi, lo', hi')
    ensures var c, t := GlobalCount(keys, Mid(lo, hi)), Share(j, n, |keys|);
      var c', t' := GlobalCount(keys, Mid(lo', hi')), Share(j + 1, n, |keys|);
      InOrder(keys, n, j, StepLo(c, t, lo, hi), StepHi(c, t, lo, hi), StepLo(c', t', lo', hi'), StepHi(c', t', lo', hi'))
  {
    hide GlobalCount, Share, Ready;
    ShareMonotone(j, n, |keys|);
  }

  lemma MidsInOrder(keys: seq<seq<int>>, n: nat, j: nat, lo: int, hi: int, lo': int, hi': int)
    requires Ready(keys) && lo <= hi && lo' <= hi' && InOrder(keys, n, j, lo, hi, lo', hi')
    ensures Mid(lo, hi) <= Mid(lo', hi')
  {
    hide GlobalCount, Share, Ready;
  }

  ghost function Widths(lo: seq<int>, hi: seq<int>): (w: seq<nat>)
    requires |lo| == |hi| && forall j {:trigger lo[j]} :: 0 <= j < |lo| ==> lo[j] <= hi[j]
    ensures |w| == |lo| && forall j {:trigger w[j]} :: 0 <= j < |w| ==> w[j] == hi[j] - lo[j]
  {
    seq(|lo|, j requires 0 <= j < |lo| => hi[j] - lo[j])
  }

  /** The splitter array is non-decreasing and each splitter has at most its share of keys below it. */
  ghost predicate Splitters(keys: seq<seq<int>>, n: nat, mid: seq<int>)
    requires Ready(keys)
  {
    && |mid| == |keys|
    && (forall j, k {:trigger mid[j], mid[k]} :: 0 <= j < k < |mid| ==> mid[j] <= mid[k])
    && forall j {:trigger mid[j]} :: 0 <= j < |mid| ==> GlobalCount(keys, mid[j]) <= Share(j, n, |keys|)
  }

  /**
    Where the search ends: the share is met exactly, or one key value more would
    exceed it, or the splitter is just below the greatest key, whose count is
    never taken.
   */
  ghost predicate Tight(keys: seq<seq<int>>, n: nat, j: nat, x: int, top: int)
    requires Ready(keys)
  {
    var t := Share(j, n, |keys|);
    && x <= top && (x == top ==> GlobalCount(keys, top) == 0)
    && (GlobalCount(keys, x) == t || (GlobalCount(keys, x) < t && (x >= top - 1 || GlobalCount(keys, x + 1) > t)))
  }

  /** The bracket is below the greatest key, and its upper end has too many keys below it or was never moved. */
  ghost predicate Topped(keys: seq<seq<int>>, n: nat, lo: seq<int>, hi: seq<int>, top: int)
    requires Ready(keys)
  {
    |lo| == |hi| == |keys| && forall j {:trigger hi[j]} :: 0 <= j < |hi| ==> ToppedAt(keys, n, j, lo[j], hi[j], top)
  }

  ghost predicate ToppedAt(keys: seq<seq<int>>, n: nat, j: nat, lo: int, hi: int, top: int)
    requires Ready(keys)
  {
    && (lo < hi || GlobalCount(keys, top) == 0) && hi <= top
    && (hi == top || GlobalCount(keys, hi) > Share(j, n, |keys|))
  }

  // ----- How close the splitters are

  ghost predicate HasKey(keys: seq<seq<int>>, x: int) {
    exists r {:trigger keys[r]} :: 0 <= r < |keys| && x in keys[r]
  }

  /** How many of the numbers are below x. */
  function Fewer(s: seq<int>, x: int): nat {
    if s == [] then 0 else Fewer(s[..|s| - 1], x) + if s[|s| - 1] < x then 1 else 0
  }

  /** c of n particles are not more than j + 1 of size equal parts. */
  predicate WithinParts(c: nat, n: nat, j: nat, size: nat) {
    c * size <= (j + 1) * n
  }

  /** c is the largest count of keys within the parts that a splitter up to the greatest key can have. */
  ghost predicate Closest(all: seq<int>, n: nat, j: nat, size: nat, c: nat, top: int) {
    && WithinParts(c, n, j, size)
    && forall y {:trigger Fewer(all, y)} :: y <= top && WithinParts(Fewer(all, y), n, j, size) ==> Fewer(all, y) <= c
  }

  /** The greatest key is not needed as a splitter: too many keys are below it, or none more than below its predecessor. */
  ghost predicate TopNotNeeded(all: seq<int>, n: nat, j: nat, size: nat, top: int) {
    !WithinParts(Fewer(all, top), n, j, size) || top - 1 !in all
  }

  lemma ShareIs(c: nat, n: nat, j: nat, size: nat)
    requires size > 0
    ensures c <= Share(j, n, size) <==> WithinParts(c, n, j, size)
  {
    var a := (j + 1) * n;
    var q := a / size;
    assert q * size + a % size == a;
    if c <= q {
      Numbers.TimesOrder(q, c, size);
    } else {
      Numbers.TimesOrder(c, q + 1, size);
      assert (q + 1) * size == q * size + size;
    }
  }

  lemma SomeRank(keys: seq<seq<int>>)
    requires Ready(keys)
    ensures |keys| > 0
  {
  }

  lemma {:induction false} FewerSplit(s: seq<int>, r: nat, x: int)
    requires r <= |s| && (forall i {:trigger s[i]} :: 0 <= i < |s| ==> (s[i] < x <==> i < r))
    ensures Fewer(s, x) == r
  {
    if s != [] {
      FewerSplit(s[..|s| - 1], if r < |s| then r else r - 1, x);
    }
  }

  lemma {:induction false} FewerJoin(s: seq<int>, u: seq<int>, x: int)
    ensures Fewer(s + u, x) == Fewer(s, x) + Fewer(u, x)
  {
    if u == [] {
      assert s + u == s;
    } else {
      assert (s + u)[..|s + u| - 1] == s + u[..|u| - 1];
      FewerJoin(s, u[..|u| - 1], x);
    }
  }

  lemma SearchFewer(keys: seq<int>, x: int)
    requires keys != [] && Sorted(keys)
    ensures SearchSorted(x, keys, false) == Fewer(keys, x)
  {
    SearchSplits(x, keys, false);
    FewerSplit(keys, SearchSorted(x, keys, false), x);
  }

  /** The ranks' counts add up to the number of keys below x. */
  lemma {:induction false} CountsFewer(keys: seq<seq<int>>, c: seq<nat>, x: int)
    requires |c| == |keys| && forall r {:trigger keys[r]} {:trigger c[r]} :: 0 <= r < |keys| ==> c[r] == Fewer(keys[r], x)
    ensures Sum(c) == Fewer(Flatten(keys), x)
  {
    if keys != [] {
      var n := |keys| - 1;
      CountsFewer(keys[..n], c[..n], x);
      FewerJoin(Flatten(keys[..n]), keys[n], x);
    }
  }

  lemma CountIs(keys: seq<seq<int>>, x: int)
    requires Ready(keys)
    ensures GlobalCount(keys, x) == Fewer(Flatten(keys), x)
  {
    hide Sorted;
    forall r | 0 <= r < |keys|
      ensures Counts(keys, x)[r] == Fewer(keys[r], x)
    {
      SearchFewer(keys[r], x);
    }
    CountsFewer(keys, Counts(keys, x), x);
  }

  lemma {:induction false} FlattenHas(keys: seq<seq<int>>, x: int)
    ensures x in Flatten(keys) <==> HasKey(keys, x)
  {
    if x in Flatten(keys) {
      var k :| 0 <= k < |Flatten(keys)| && Flatten(keys)[k] == x;
      var i, j := FlattenMember(keys, k);
    }
    if HasKey(keys, x) {
      var r :| 0 <= r < |keys| && x in keys[r];
      if r == |keys| - 1 {
        assert x in keys[|keys| - 1];
      } else {
        assert keys[..|keys| - 1][r] == keys[r];
        FlattenHas(keys[..|keys| - 1], x);
      }
    }
  }

  lemma CountsGrow(keys: seq<seq<int>>, x: int, y: int)
    requires Ready(keys) && x <= y
    ensures GlobalCount(keys, x) <= GlobalCount(keys, y)
  {
    hide Sorted, Sum;
    forall r | 0 <= r < |keys|
      ensures Counts(keys, x)[r] <= Counts(keys, y)[r]
    {
      SearchMonotone(keys[r], x, y);
    }
    SumMonotone(Counts(keys, x), Counts(keys, y));
  }

  lemma SearchNext(keys: seq<int>, x: int)
    requires keys != [] && Sorted(keys)
    ensures SearchSorted(x, keys, false) <= SearchSorted(x + 1, keys, false)
    ensures x in keys <==> SearchSorted(x, keys, false) < SearchSorted(x + 1, keys, false)
  {
    hide Sorted;
    var a, b := SearchSorted(x, keys, false), SearchSorted(x + 1, keys, false);
    SearchMonotone(keys, x, x + 1);
    SearchSplits(x, keys, false);
    SearchSplits(x + 1, keys, false);
    if a < b {
      assert keys[a] == x;
    }
    if x in keys {
      var k :| 0 <= k < |keys| && keys[k] == x;
    }
  }

  /** The count changes exactly where there is a key. */
  lemma CountNext(keys: seq<seq<int>>, x: int)
    requires Ready(keys)
    ensures HasKey(keys, x) <==> GlobalCount(keys, x) < GlobalCount(keys, x + 1)
  {
    hide Sorted, Sum;
    var c, d := Counts(keys, x), Counts(keys, x + 1);
    forall r | 0 <= r < |keys|
      ensures c[r] <= d[r] && (x in keys[r] <==> c[r] < d[r])
    {
      SearchNext(keys[r], x);
    }
    if HasKey(keys, x) {
      var r :| 0 <= r < |keys| && x in keys[r];
      SumUpdate(d, r, c[r]);
      SumMonotone(c, d[r := c[r]]);
    } else {
      assert c == d;
    }
  }

  /** The search ends at the largest count within the parts exactly when it does not need the greatest key. */
  lemma TightClosest(keys: seq<seq<int>>, n: nat, j: nat, x: int, top: int)
    requires Ready(keys) && Tight(keys, n, j, x, top)
    ensures Closest(Flatten(keys), n, j, |keys|, GlobalCount(keys, x), top) <==> TopNotNeeded(Flatten(keys), n, j, |keys|, top)
  {
    hide Ready, GlobalCount, Share, HasKey, Fewer, Flatten, WithinParts;
    var all := Flatten(keys);
    SomeRank(keys);
    FlattenHas(keys, top - 1);
    CountIs(keys, x);
    CountIs(keys, top);
    CountIs(keys, top - 1);
    CountNext(keys, top - 1);
    ShareIs(GlobalCount(keys, x), n, j, |keys|);
    ShareIs(GlobalCount(keys, top), n, j, |keys|);
    forall y | y <= top
      ensures Fewer(all, y) == GlobalCount(keys, y) && (WithinParts(Fewer(all, y), n, j, |keys|) <==> GlobalCount(keys, y) <= Share(j, n, |keys|))
      ensures x < y ==> GlobalCount(keys, x + 1) <= GlobalCount(keys, y)
      ensures y <= x ==> GlobalCount(keys, y) <= GlobalCount(keys, x)
      ensures GlobalCount(keys, y) <= GlobalCount(keys, top)
    {
      CountIs(keys, y);
      ShareIs(GlobalCount(keys, y), n, j, |keys|);
      CountsGrow(keys, y, top);
      if y <= x { CountsGrow(keys, y, x); } else { CountsGrow(keys, x + 1, y); }
    }
    if x < top - 1 {
      CountsGrow(keys, x + 1, top - 1);
      CountsGrow(keys, x, top - 1);
    }
  }

  /** The step at this splitter found nothing to move. */
  ghost predicate Settled(keys: seq<seq<int>>, n: nat, j: nat, lo: int, x: int)
    requires Ready(keys)
  {
    var t := Share(j, n, |keys|);
    GlobalCount(keys, x) == t || (GlobalCount(keys, x) < t && x == lo)
  }

  lemma SettledTight(keys: seq<seq<int>>, n: nat, j: nat, lo: int, hi: int, top: int)
    requires Ready(keys) && BracketOk(keys, n, j, lo, hi) && ToppedAt(keys, n, j, lo, hi, top) && Settled(keys, n, j, lo, Mid(lo, hi))
    ensures Tight(keys, n, j, Mid(lo, hi), top)
  {
    hide Ready, GlobalCount, Share;
  }

  lemma ToppedNext(keys: seq<seq<int>>, n: nat, lo0: seq<int>, hi0: seq<int>, lo: seq<int>, hi: seq<int>, top: int)
    requires Ready(keys) && Brackets(keys, n, lo0, hi0) && Topped(keys, n, lo0, hi0, top) && Stepped(keys, n, lo0, hi0, lo, hi, |lo|)
    ensures Topped(keys, n, lo, hi, top)
  {
    hide Ready, GlobalCount, Share;
    forall j | 0 <= j < |hi|
      ensures ToppedAt(keys, n, j, lo[j], hi[j], top)
    {
      assert BracketOk(keys, n, j, lo0[j], hi0[j]) && ToppedAt(keys, n, j, lo0[j], hi0[j], top) && SteppedAt(keys, n, j, lo0[j], hi0[j], lo[j], hi[j]);
    }
  }

  lemma AllTight(keys: seq<seq<int>>, n: nat, lo: seq<int>, hi: seq<int>, mid: seq<int>, top: int)
    requires Ready(keys) && Brackets(keys, n, lo, hi) && Topped(keys, n, lo, hi, top) && |mid| == |lo|
    requires forall k {:trigger mid[k]} :: 0 <= k < |mid| ==> mid[k] == Mid(lo[k], hi[k]) && Settled(keys, n, k, lo[k], mid[k])
    ensures forall j {:trigger mid[j]} :: 0 <= j < |mid| ==> Tight(keys, n, j, mid[j], top) && GlobalCount(keys, mid[j]) <= Share(j, n, |keys|)
  {
    hide Ready, GlobalCount, Share, Mid, BracketOk, Tight;
    forall j | 0 <= j < |mid|
      ensures Tight(keys, n, j, mid[j], top)
    {
      assert BracketOk(keys, n, j, lo[j], hi[j]) && ToppedAt(keys, n, j, lo[j], hi[j], top) && Settled(keys, n, j, lo[j], mid[j]);
      SettledTight(keys, n, j, lo[j], hi[j], top);
    }
  }

  /** MPI_Allreduce of the local counts of all ranks for one splitter. */
  method CountBelow(keys: seq<seq<int>>, x: int) returns (gcount: nat)
    requires Ready(keys)
    ensures gcount == GlobalCount(keys, x)
  {
    gcount := 0;
    for r := 0 to |keys|
      invariant gcount == Sum(Counts(keys, x)[..r])
    {
      gcount := gcount + SearchSorted(x, keys[r], false);
      assert Counts(keys, x)[..r + 1][..r] == Counts(keys, x)[..r];
    }
    assert Counts(keys, x)[..|keys|] == Counts(keys, x);
  }

  /** `maxmin` on the keys of one rank. */
  method MaxMin(keys: seq<int>) returns (max: int, min: int)
    requires keys != []
    ensures max in keys && min in keys && forall i {:trigger keys[i]} :: 0 <= i < |keys| ==> min <= keys[i] <= max
  {
    max, min := keys[0], keys[0];
    for i := 1 to |keys|
      invariant max in keys && min in keys && forall k {:trigger keys[k]} :: 0 <= k < i ==> min <= keys[k] <= max
    {
      if keys[i] < min {
        min := keys[i];
      }
      if keys[i] > max {
        max := keys[i];
      }
    }
  }

  /** The greatest key of all ranks. */
  ghost predicate Greatest(keys: seq<seq<int>>, top: int) {
    && (forall r {:trigger keys[r]} :: 0 <= r < |keys| ==> AtMost(keys[r], top))
    && exists r {:trigger keys[r]} :: 0 <= r < |keys| && top in keys[r]
  }

  ghost predicate AtMost(s: seq<int>, top: int) {
    forall i {:trigger s[i]} :: 0 <= i < |s| ==> s[i] <= top
  }

  /** The extreme keys of all ranks. */
  method Extremes(keys: seq<seq<int>>) returns (gmax: int, gmin: int)
    requires Ready(keys)
    ensures gmin <= gmax && forall r {:trigger keys[r]} :: 0 <= r < |keys| ==> gmin <= keys[r][0]
    ensures Greatest(keys, gmax)
  {
    gmax, gmin := MaxMin(keys[0]);
    ghost var at := 0;
    for r := 1 to |keys|
      invariant gmin <= gmax && forall k {:trigger keys[k]} :: 0 <= k < r ==> gmin <= keys[k][0] && AtMost(keys[k], gmax)
      invariant 0 <= at < r && gmax in keys[at]
    {
      var lmax, lmin := MaxMin(keys[r]);
      at := if lmax > gmax then r else at;
      gmax := if lmax > gmax then lmax else gmax;
      gmin := if lmin < gmin then lmin else gmin;
    }
  }

  method Midpoints(lo: array<int>, hi: array<int>, mid: array<int>)
    requires lo.Length == hi.Length == mid.Length && lo != mid && hi != mid
    modifies mid
    ensures forall k {:trigger mid[k]} :: 0 <= k < mid.Length ==> mid[k] == Mid(lo[k], hi[k])
  {
    for j := 0 to mid.Length
      invariant forall k {:trigger mid[k]} :: 0 <= k < j ==> mid[k] == Mid(lo[k], hi[k])
    {
      mid[j] := (hi[j] + lo[j]) / 2;
    }
  }

  /** The counts of all splitters; equal neighbours are counted once. */
  method CountAll(keys: seq<seq<int>>, mid: array<int>) returns (counts: array<nat>)
    requires Ready(keys) && mid.Length == |keys|
    ensures fresh(counts) && counts.Length == mid.Length
    ensures forall k {:trigger counts[k]} :: 0 <= k < counts.Length ==> counts[k] == GlobalCount(keys, mid[k])
  {
    hide Ready, GlobalCount;
    counts := new nat[mid.Length];
    for j := 0 to mid.Length
      invariant forall k {:trigger counts[k]} :: 0 <= k < j ==> counts[k] == GlobalCount(keys, mid[k])
    {
      if j > 0 && mid[j] == mid[j - 1] {
        counts[j] := counts[j - 1];
      } else {
        counts[j] := CountBelow(keys, mid[j]);
      }
    }
  }

  /** One round of the bisection; `bad` counts the splitters that are not settled. */
  method Round(keys: seq<seq<int>>, n: nat, lo: array<int>, hi: array<int>, mid: array<int>, ghost top: int) returns (bad: int)
    requires Ready(keys) && lo.Length == hi.Length == mid.Length == |keys| && lo != hi && lo != mid && hi != mid
    requires Brackets(keys, n, lo[..], hi[..]) && AllInOrder(keys, n, lo[..], hi[..]) && Topped(keys, n, lo[..], hi[..], top)
    modifies lo, hi, mid
    ensures Brackets(keys, n, lo[..], hi[..]) && AllInOrder(keys, n, lo[..], hi[..]) && Topped(keys, n, lo[..], hi[..], top)
    ensures forall j, k {:trigger mid[j], mid[k]} :: 0 <= j < k < mid.Length ==> mid[j] <= mid[k]
    ensures bad >= 0
    ensures bad == 0 ==> forall j {:trigger mid[j]} :: 0 <= j < mid.Length ==> Tight(keys, n, j, mid[j], top) && GlobalCount(keys, mid[j]) <= Share(j, n, |keys|)
    ensures bad > 0 ==> Brackets(keys, n, old(lo[..]), old(hi[..])) && Sum(Widths(lo[..], hi[..])) < Sum(Widths(old(lo[..]), old(hi[..])))
  {
    hide Ready, InOrder, AllInOrder, BracketOk, GlobalCount, Share, Brackets, Stepped, Narrower, Shrunk, Sum, Topped, Tight, Settled;
    ghost var lo0, hi0 := lo[..], hi[..];
    Midpoints(lo, hi, mid);
    MidsSorted(keys, n, lo0, hi0, mid[..]);
    var counts := CountAll(keys, mid);
    bad := StepAll(keys, n, lo, hi, mid, counts);
    AllStepped(keys, n, lo0, hi0, lo[..], hi[..]);
    ToppedNext(keys, n, lo0, hi0, lo[..], hi[..], top);
    if bad > 0 {
      NarrowerSum(keys, n, lo0, hi0, lo[..], hi[..]);
    } else {
      AllTight(keys, n, lo0, hi0, mid[..], top);
    }
  }

  /** The loop that moves one end of each bracket. */
  method StepAll(keys: seq<seq<int>>, n: nat, lo: array<int>, hi: array<int>, mid: array<int>, counts: array<nat>) returns (bad: int)
    requires Ready(keys) && lo.Length == hi.Length == mid.Length == counts.Length == |keys| && lo != hi && lo != mid && hi != mid
    requires Brackets(keys, n, lo[..], hi[..])
    requires forall k {:trigger mid[k]} :: 0 <= k < mid.Length ==> mid[k] == Mid(lo[k], hi[k])
    requires forall k {:trigger counts[k]} :: 0 <= k < counts.Length ==> counts[k] == GlobalCount(keys, mid[k])
    modifies lo, hi
    ensures Stepped(keys, n, old(lo[..]), old(hi[..]), lo[..], hi[..], |keys|) && bad >= 0
    ensures bad == 0 ==> forall j {:trigger mid[j]} :: 0 <= j < mid.Length ==> Settled(keys, n, j, old(lo[j]), mid[j])
    ensures bad > 0 ==> Narrower(old(lo[..]), old(hi[..]), lo[..], hi[..])
  {
    hide Ready, InOrder, AllInOrder, BracketOk, GlobalCount, Share, Brackets, Stepped, Narrower;
    var size := |keys|;
    ghost var lo0, hi0 := lo[..], hi[..];
    SteppedNone(keys, n, lo0, hi0);
    bad := size;
    for j := 0 to size
      invariant size - j <= bad && Stepped(keys, n, lo0, hi0, lo[..], hi[..], j)
      invariant bad == size - j ==> forall k {:trigger mid[k]} :: 0 <= k < j ==> Settled(keys, n, k, lo0[k], mid[k])
      invariant bad > size - j ==> Narrower(lo0, hi0, lo[..], hi[..])
    {
      ghost var lo1, hi1 := lo[..], hi[..];
      StepNarrows(keys, n, lo0, hi0, lo1, hi1, j);
      assert mid[j] == Mid(lo0[j], hi0[j]);
      var share := Share(j, n, size);
      if counts[j] > share {
        if hi[j] == mid[j] {
          bad := bad - 1;
        }
        hi[j] := mid[j];
      } else if counts[j] < share {
        if lo[j] == mid[j] {
          bad := bad - 1;
        }
        lo[j] := mid[j];
      } else {
        bad := bad - 1;
      }
      assert lo[..] == lo1[j := lo[j]] && hi[..] == hi1[j := hi[j]];
    }
  }

  lemma SteppedNone(keys: seq<seq<int>>, n: nat, lo: seq<int>, hi: seq<int>)
    requires Ready(keys) && |lo| == |hi| == |keys|
    ensures Stepped(keys, n, lo, hi, lo, hi, 0)
  {
  }

  /** The first j brackets have made their step. */
  ghost predicate Stepped(keys: seq<seq<int>>, n: nat, lo0: seq<int>, hi0: seq<int>, lo: seq<int>, hi: seq<int>, j: nat)
    requires Ready(keys)
  {
    && |lo0| == |hi0| == |lo| == |hi| == |keys| && j <= |lo|
    && (forall k {:trigger lo[k]} {:trigger hi[k]} :: 0 <= k < j ==> SteppedAt(keys, n, k, lo0[k], hi0[k], lo[k], hi[k]))
    && (forall k {:trigger lo[k]} {:trigger hi[k]} :: j <= k < |lo| ==> lo[k] == lo0[k] && hi[k] == hi0[k])
  }

  ghost predicate SteppedAt(keys: seq<seq<int>>, n: nat, k: nat, lo0: int, hi0: int, lo: int, hi: int)
    requires Ready(keys)
  {
    var c, t := GlobalCount(keys, Mid(lo0, hi0)), Share(k, n, |keys|);
    lo == StepLo(c, t, lo0, hi0) && hi == StepHi(c, t, lo0, hi0)
  }

  /** No bracket has become wider. */
  ghost predicate Shrunk(lo0: seq<int>, hi0: seq<int>, lo: seq<int>, hi: seq<int>) {
    |lo0| == |hi0| == |lo| == |hi| && forall k {:trigger lo[k]} :: 0 <= k < |lo| ==> lo0[k] <= lo[k] <= hi[k] <= hi0[k]
  }

  /** Some bracket has become narrower. */
  ghost predicate Narrower(lo0: seq<int>, hi0: seq<int>, lo: seq<int>, hi: seq<int>) {
    |lo0| == |hi0| == |lo| == |hi| && exists k {:trigger lo[k]} :: 0 <= k < |lo| && hi[k] - lo[k] < hi0[k] - lo0[k]
  }

  /** An unsettled bracket gets narrower; a count above the share cannot be settled. */
  lemma StepNarrows(keys: seq<seq<int>>, n: nat, lo0: seq<int>, hi0: seq<int>, lo: seq<int>, hi: seq<int>, j: nat)
    requires Ready(keys) && Brackets(keys, n, lo0, hi0) && Stepped(keys, n, lo0, hi0, lo, hi, j) && j < |lo|
    ensures lo[j] == lo0[j] <= Mid(lo0[j], hi0[j]) <= hi0[j] == hi[j]
    ensures var m := Mid(lo0[j], hi0[j]); var c, t := GlobalCount(keys, m), Share(j, n, |keys|);
      && (c > t ==> m < hi0[j])
      && (c < t ==> Stepped(keys, n, lo0, hi0, lo[j := m], hi[j := hi[j]], j + 1) && (m != lo[j] ==> Narrower(lo0, hi0, lo[j := m], hi[j := hi[j]])))
      && (c > t ==> Stepped(keys, n, lo0, hi0, lo[j := lo[j]], hi[j := m], j + 1) && Narrower(lo0, hi0, lo[j := lo[j]], hi[j := m]))
      && (c == t ==> Stepped(keys, n, lo0, hi0, lo[j := lo[j]], hi[j := hi[j]], j + 1))
    ensures var m := Mid(lo0[j], hi0[j]); Narrower(lo0, hi0, lo, hi) ==>
      Narrower(lo0, hi0, lo[j := m], hi[j := hi[j]]) && Narrower(lo0, hi0, lo[j := lo[j]], hi[j := m]) && Narrower(lo0, hi0, lo[j := lo[j]], hi[j := hi[j]])
  {
    hide Ready, GlobalCount, Share;
    assert BracketOk(keys, n, j, lo0[j], hi0[j]);
    var m := Mid(lo0[j], hi0[j]);
    NarrowerAt(lo0, hi0, lo[j := m], hi[j := hi[j]], j);
    NarrowerAt(lo0, hi0, lo[j := lo[j]], hi[j := m], j);
    if Narrower(lo0, hi0, lo, hi) {
      var k :| 0 <= k < |lo| && hi[k] - lo[k] < hi0[k] - lo0[k];
      NarrowerAt(lo0, hi0, lo[j := m], hi[j := hi[j]], k);
      NarrowerAt(lo0, hi0, lo[j := lo[j]], hi[j := m], k);
      NarrowerAt(lo0, hi0, lo[j := lo[j]], hi[j := hi[j]], k);
    }
  }

  lemma NarrowerAt(lo0: seq<int>, hi0: seq<int>, lo: seq<int>, hi: seq<int>, k: nat)
    requires |lo0| == |hi0| == |lo| == |hi| && k < |lo|
    ensures hi[k] - lo[k] < hi0[k] - lo0[k] ==> Narrower(lo0, hi0, lo, hi)
  {
  }

  lemma AllStepped(keys: seq<seq<int>>, n: nat, lo0: seq<int>, hi0: seq<int>, lo: seq<int>, hi: seq<int>)
    requires Ready(keys) && Brackets(keys, n, lo0, hi0) && AllInOrder(keys, n, lo0, hi0) && Stepped(keys, n, lo0, hi0, lo, hi, |lo|)
    ensures Brackets(keys, n, lo, hi) && AllInOrder(keys, n, lo, hi)
    ensures Shrunk(lo0, hi0, lo, hi)
  {
    hide Ready, GlobalCount, Share, InOrder, BracketOk, StepLo, StepHi;
    forall j | 0 <= j < |lo|
      ensures BracketOk(keys, n, j, lo[j], hi[j]) && lo0[j] <= lo[j] <= hi[j] <= hi0[j]
    {
      BracketSides(keys, n, j, lo0[j], hi0[j]);
      StepBracket(keys, n, j, lo0[j], hi0[j]);
      assert SteppedAt(keys, n, j, lo0[j], hi0[j], lo[j], hi[j]);
      BracketSides(keys, n, j, lo[j], hi[j]);
    }
    forall j, k | 0 <= j < k < |lo| && k == j + 1
      ensures InOrder(keys, n, j, lo[j], hi[j], lo[k], hi[k])
    {
      assert SteppedAt(keys, n, j, lo0[j], hi0[j], lo[j], hi[j]) && SteppedAt(keys, n, k, lo0[k], hi0[k], lo[k], hi[k]);
      StepInOrder(keys, n, j, lo0[j], hi0[j], lo0[k], hi0[k]);
    }
  }

  lemma BracketSides(keys: seq<seq<int>>, n: nat, j: nat, lo: int, hi: int)
    requires Ready(keys) && BracketOk(keys, n, j, lo, hi)
    ensures lo <= hi
  {
  }

  lemma NarrowerSum(keys: seq<seq<int>>, n: nat, lo0: seq<int>, hi0: seq<int>, lo: seq<int>, hi: seq<int>)
    requires Ready(keys) && Brackets(keys, n, lo0, hi0) && Brackets(keys, n, lo, hi) && Narrower(lo0, hi0, lo, hi)
    requires Shrunk(lo0, hi0, lo, hi)
    ensures (forall j {:trigger lo[j]} :: 0 <= j < |lo| ==> lo[j] <= hi[j]) && (forall j {:trigger lo0[j]} :: 0 <= j < |lo0| ==> lo0[j] <= hi0[j])
    ensures Sum(Widths(lo, hi)) < Sum(Widths(lo0, hi0))
  {
    hide Ready, GlobalCount, Share;
    var k :| 0 <= k < |lo| && hi[k] - lo[k] < hi0[k] - lo0[k];
    var w0, w := Widths(lo0, hi0), Widths(lo, hi);
    SumUpdate(w0, k, w[k]);
    SumMonotone(w, w0[k := w[k]]);
  }

  lemma MidsSorted(keys: seq<seq<int>>, n: nat, lo: seq<int>, hi: seq<int>, mid: seq<int>)
    requires Ready(keys) && Brackets(keys, n, lo, hi) && AllInOrder(keys, n, lo, hi) && |mid| == |lo|
    requires forall k {:trigger mid[k]} :: 0 <= k < |mid| ==> mid[k] == Mid(lo[k], hi[k])
    ensures forall j, k {:trigger mid[j], mid[k]} :: 0 <= j < k < |mid| ==> mid[j] <= mid[k]
  {
    forall j, k | 0 <= j < k < |mid|
      ensures mid[j] <= mid[k]
    {
      MidsChain(keys, n, lo, hi, mid, j, k);
    }
  }

  lemma {:induction false} MidsChain(keys: seq<seq<int>>, n: nat, lo: seq<int>, hi: seq<int>, mid: seq<int>, j: nat, k: nat)
    requires Ready(keys) && Brackets(keys, n, lo, hi) && AllInOrder(keys, n, lo, hi) && |mid| == |lo| && j < k < |mid|
    requires forall k {:trigger mid[k]} :: 0 <= k < |mid| ==> mid[k] == Mid(lo[k], hi[k])
    ensures mid[j] <= mid[k]
    decreases k
  {
    hide Ready, GlobalCount, Share, InOrder, BracketOk, Mid;
    var i := k - 1;
    BracketSides(keys, n, i, lo[i], hi[i]);
    BracketSides(keys, n, k, lo[k], hi[k]);
    MidsInOrder(keys, n, i, lo[i], hi[i], lo[k], hi[k]);
    if j < i {
      MidsChain(keys, n, lo, hi, mid, j, i);
    }
  }

  /** Step 1 of `balance`: the bisection ends, with splitters in order that no rank's share exceeds. */
  method Bisect(keys: seq<seq<int>>, n: nat) returns (splitters: seq<int>, ghost top: int)
    requires Ready(keys)
    ensures Splitters(keys, n, splitters) && Greatest(keys, top)
    ensures forall j {:trigger splitters[j]} :: 0 <= j < |splitters| ==>
      Tight(keys, n, j, splitters[j], top) && (Closest(Flatten(keys), n, j, |keys|, GlobalCount(keys, splitters[j]), top) <==> TopNotNeeded(Flatten(keys), n, j, |keys|, top))
  {
    hide Ready, InOrder, AllInOrder, BracketOk, GlobalCount, Share, Brackets, Topped, Tight, Greatest, Closest, TopNotNeeded;
    var size := |keys|;
    var gmax, gmin := Extremes(keys);
    LeastBelowNone(keys, gmin);
    var lo, hi, mid := new int[size](_ => gmin), new int[size](_ => gmax), new int[size];
    top := gmax;
    BracketsStart(keys, n, lo[..], hi[..], gmin, gmax);
    while true
      invariant Brackets(keys, n, lo[..], hi[..]) && AllInOrder(keys, n, lo[..], hi[..]) && Topped(keys, n, lo[..], hi[..], top)
      invariant forall j {:trigger lo[j]} :: 0 <= j < size ==> lo[j] <= hi[j]
      decreases Sum(Widths(lo[..], hi[..]))
    {
      var bad := Round(keys, n, lo, hi, mid, top);
      BracketsSides(keys, n, lo[..], hi[..]);
      if bad == 0 {
        forall j | 0 <= j < size
          ensures Closest(Flatten(keys), n, j, |keys|, GlobalCount(keys, mid[j]), top) <==> TopNotNeeded(Flatten(keys), n, j, |keys|, top)
        {
          assert Tight(keys, n, j, mid[j], top);
          TightClosest(keys, n, j, mid[j], top);
        }
        return mid[..], top;
      }
    }
  }

  lemma BracketsSides(keys: seq<seq<int>>, n: nat, lo: seq<int>, hi: seq<int>)
    requires Ready(keys) && Brackets(keys, n, lo, hi)
    ensures |lo| == |hi| == |keys| && forall j {:trigger lo[j]} :: 0 <= j < |lo| ==> lo[j] <= hi[j]
  {
  }

  lemma BracketsStart(keys: seq<seq<int>>, n: nat, lo: seq<int>, hi: seq<int>, gmin: int, gmax: int)
    requires Ready(keys) && |lo| == |hi| == |keys| && gmin <= gmax && GlobalCount(keys, gmin) == 0
    requires forall j {:trigger lo[j]} {:trigger hi[j]} :: 0 <= j < |lo| ==> lo[j] == gmin && hi[j] == gmax
    ensures Brackets(keys, n, lo, hi) && AllInOrder(keys, n, lo, hi) && Topped(keys, n, lo, hi, gmax)
  {
  }

  // ----- Steps 2 and 3

  function KeysOf<P>(pool: seq<P>, key: P -> int): (k: seq<int>)
    ensures |k| == |pool| && forall i {:trigger k[i]} :: 0 <= i < |pool| ==> k[i] == key(pool[i])
  {
    seq(|pool|, i requires 0 <= i < |pool| => key(pool[i]))
  }

  ghost function AllKeys<P>(pools: seq<seq<P>>, key: P -> int): (k: seq<seq<int>>)
    ensures |k| == |pools| && forall r {:trigger k[r]} :: 0 <= r < |pools| ==> k[r] == KeysOf(pools[r], key)
  {
    seq(|pools|, r requires 0 <= r < |pools| => KeysOf(pools[r], key))
  }

  /** The send displacements of one rank: the block for rank j starts at the first key that splitter j - 1 does not exceed. */
  method Displacements(keys: seq<int>, mid: seq<int>) returns (displs: seq<nat>)
    requires keys != [] && Sorted(keys) && |mid| > 0 && forall j, k {:trigger mid[j], mid[k]} :: 0 <= j < k < |mid| ==> mid[j] <= mid[k]
    ensures Cuts(displs, |mid|, |keys|)
    ensures forall j {:trigger displs[j]} :: 0 < j < |mid| ==> displs[j] == SearchSorted(mid[j - 1], keys, false)
  {
    displs := [0];
    for j := 1 to |mid|
      invariant |displs| == j && displs[0] == 0
      invariant forall k {:trigger displs[k]} :: 0 < k < j ==> displs[k] == SearchSorted(mid[k - 1], keys, false)
    {
      displs := displs + [SearchSorted(mid[j - 1], keys, false)];
    }
    forall r, q | 0 < r < q < |mid|
      ensures displs[r] <= displs[q]
    {
      SearchMonotone(keys, mid[r - 1], mid[q - 1]);
    }
  }

  /** The local sort: argsort, then argpermute within the pool. */
  method SortPool<P>(pool: array<P>, key: P -> int)
    modifies pool
    ensures Sorted(KeysOf(pool[..], key)) && multiset(pool[..]) == multiset(old(pool[..]))
  {
    ghost var was := pool[..];
    var keys := KeysOf(pool[..], key);
    var arg := new nat[pool.Length];
    Argsort(keys, arg);
    StableSort(keys, arg[..]);
    Argpermute(pool, null, arg[..]);
    PermutedSameItems(was, arg[..]);
    assert KeysOf(pool[..], key) == Permuted(keys, arg[..]);
  }

  /** Keys of the pool of rank r after the exchange are between the splitters of that rank. */
  ghost predicate Between<P>(pool: seq<P>, key: P -> int, mid: seq<int>, r: nat) {
    forall i {:trigger pool[i]} :: 0 <= i < |pool| ==> (0 < r <= |mid| ==> mid[r - 1] <= key(pool[i])) && (r + 1 < |mid| ==> key(pool[i]) < mid[r])
  }

  ghost predicate CutBy<P>(pools: seq<seq<P>>, key: P -> int, mid: seq<int>, cuts: seq<seq<nat>>) {
    && AllCuts(pools, cuts) && |mid| == |pools|
    && (forall j {:trigger cuts[j]} :: 0 <= j < |pools| ==> KeysOf(pools[j], key) != [] && Sorted(KeysOf(pools[j], key)))
    && forall j, r {:trigger cuts[j][r]} :: 0 <= j < |pools| && 0 < r < |pools| ==> cuts[j][r] == SearchSorted(mid[r - 1], KeysOf(pools[j], key), false)
  }

  lemma SegmentBetween<P>(pools: seq<seq<P>>, key: P -> int, mid: seq<int>, cuts: seq<seq<nat>>, j: nat, r: nat)
    requires CutBy(pools, key, mid, cuts) && j < |pools| && r < |pools|
    ensures Cuts(cuts[j], |pools|, |pools[j]|) && Between(Segment(pools[j], cuts[j], r), key, mid, r)
  {
    var keys, s := KeysOf(pools[j], key), Segment(pools[j], cuts[j], r);
    if 0 < r {
      SearchSplits(mid[r - 1], keys, false);
      assert cuts[j][r] == SearchSorted(mid[r - 1], keys, false);
    }
    if r + 1 < |mid| {
      SearchSplits(mid[r], keys, false);
      assert cuts[j][r + 1] == SearchSorted(mid[r], keys, false);
    }
    forall i | 0 <= i < |s|
      ensures s[i] == pools[j][cuts[j][r] + i] && key(s[i]) == keys[cuts[j][r] + i]
    {
    }
  }

  lemma ReceivedBetween<P>(pools: seq<seq<P>>, key: P -> int, mid: seq<int>, cuts: seq<seq<nat>>, r: nat)
    requires CutBy(pools, key, mid, cuts) && r < |pools|
    ensures Between(Received(pools, cuts, r), key, mid, r)
  {
    hide CutBy;
    CutByCuts(pools, key, mid, cuts);
    var s, all := Incoming(pools, cuts, r, |pools|), Received(pools, cuts, r);
    forall i | 0 <= i < |all|
      ensures (0 < r <= |mid| ==> mid[r - 1] <= key(all[i])) && (r + 1 < |mid| ==> key(all[i]) < mid[r])
    {
      var j, k := FlattenMember(s, i);
      SegmentBetween(pools, key, mid, cuts, j, r);
      assert s[j][k] == all[i];
    }
  }

  lemma CutByCuts<P>(pools: seq<seq<P>>, key: P -> int, mid: seq<int>, cuts: seq<seq<nat>>)
    requires CutBy(pools, key, mid, cuts)
    ensures AllCuts(pools, cuts)
  {
  }

  lemma BetweenRearranged<P>(a: seq<P>, b: seq<P>, key: P -> int, mid: seq<int>, r: nat)
    requires Between(a, key, mid, r) && multiset(a) == multiset(b)
    ensures Between(b, key, mid, r)
  {
    forall i | 0 <= i < |b|
      ensures b[i] in a
    {
      assert b[i] in multiset(b);
      assert b[i] in multiset(a);
    }
  }

  /** Ranks whose pools are sorted and between their splitters are sorted one after the other. */
  lemma {:induction false} FlattenSorted<P>(pools: seq<seq<P>>, key: P -> int, mid: seq<int>, k: nat)
    requires k <= |pools| && |mid| == |pools| && forall i, j {:trigger mid[i], mid[j]} :: 0 <= i < j < |mid| ==> mid[i] <= mid[j]
    requires forall r {:trigger pools[r]} :: 0 <= r < |pools| ==> Sorted(KeysOf(pools[r], key)) && Between(pools[r], key, mid, r)
    ensures Sorted(KeysOf(Flatten(pools[..k]), key))
    ensures k < |pools| ==> forall i {:trigger Flatten(pools[..k])[i]} :: 0 <= i < |Flatten(pools[..k])| ==> key(Flatten(pools[..k])[i]) < mid[k - 1]
  {
    if k > 0 {
      FlattenSorted(pools, key, mid, k - 1);
      assert pools[..k][..k - 1] == pools[..k - 1];
      var a, b := Flatten(pools[..k - 1]), pools[k - 1];
      assert Flatten(pools[..k]) == a + b;
      assert Sorted(KeysOf(b, key)) && Between(b, key, mid, k - 1);
      SortedJoin(a, b, key);
    }
  }

  lemma SortedJoin<P>(a: seq<P>, b: seq<P>, key: P -> int)
    requires Sorted(KeysOf(a, key)) && Sorted(KeysOf(b, key))
    requires forall i, j {:trigger a[i], b[j]} :: 0 <= i < |a| && 0 <= j < |b| ==> key(a[i]) <= key(b[j])
    ensures Sorted(KeysOf(a + b, key))
  {
    var c := KeysOf(a + b, key);
    forall i, j | 0 <= i < j < |c|
      ensures c[i] <= c[j]
    {
      if j < |a| {
        assert c[i] == KeysOf(a, key)[i] && c[j] == KeysOf(a, key)[j];
      } else if i >= |a| {
        assert c[i] == KeysOf(b, key)[i - |a|] && c[j] == KeysOf(b, key)[j - |a|];
      }
    }
  }

  ghost predicate Rearranged<P>(a: seq<seq<P>>, b: seq<seq<P>>) {
    |a| == |b| && forall r {:trigger a[r]} {:trigger b[r]} :: 0 <= r < |a| ==> multiset(a[r]) == multiset(b[r])
  }

  lemma {:induction false} RearrangedFlatten<P>(a: seq<seq<P>>, b: seq<seq<P>>, k: nat)
    requires Rearranged(a, b) && k <= |a|
    ensures multiset(Flatten(a[..k])) == multiset(Flatten(b[..k])) && |Flatten(a[..k])| == |Flatten(b[..k])|
  {
    if k > 0 {
      RearrangedFlatten(a, b, k - 1);
      assert a[..k][..k - 1] == a[..k - 1] && b[..k][..k - 1] == b[..k - 1];
      assert multiset(a[k - 1]) == multiset(b[k - 1]);
      assert |a[k - 1]| == |multiset(a[k - 1])|;
    }
  }

  /** The first j + 1 ranks receive what is below splitter j. */
  lemma ReceivedCount<P>(pools: seq<seq<P>>, key: P -> int, mid: seq<int>, cuts: seq<seq<nat>>, j: nat)
    requires CutBy(pools, key, mid, cuts) && Ready(AllKeys(pools, key)) && j + 1 < |pools|
    ensures AllCuts(pools, cuts) && |Flatten(Exchange(pools, cuts, |pools|)[..j + 1])| == GlobalCount(AllKeys(pools, key), mid[j])
  {
    hide Sorted, Flatten;
    var keys, n := AllKeys(pools, key), |pools|;
    ExchangeSent(pools, cuts, j + 1);
    assert Exchange(pools, cuts, n)[..j + 1] == Exchange(pools, cuts, j + 1);
    var sent := Sent(pools, cuts, j + 1, n);
    FlattenLength(sent);
    forall r | 0 <= r < n
      ensures Lengths(sent)[r] == Counts(keys, mid[j])[r]
    {
      assert cuts[r][j + 1] == SearchSorted(mid[j], KeysOf(pools[r], key), false);
    }
    assert Lengths(sent) == Counts(keys, mid[j]);
  }

  /** MPI_Alltoallv into the receive displacements of each rank, then the local sort. */
  method ExchangeAndSort<P>(pools: seq<seq<P>>, key: P -> int, cuts: seq<seq<nat>>) returns (result: seq<seq<P>>)
    requires AllCuts(pools, cuts)
    ensures Rearranged(Exchange(pools, cuts, |pools|), result)
    ensures forall r {:trigger result[r]} :: 0 <= r < |result| ==> Sorted(KeysOf(result[r], key))
  {
    hide Sorted;
    result := [];
    for r := 0 to |pools|
      invariant |result| == r
      invariant forall q {:trigger result[q]} :: 0 <= q < r ==> multiset(result[q]) == multiset(Received(pools, cuts, q)) && Sorted(KeysOf(result[q], key))
    {
      var received := Receive(pools, cuts, r);
      SortPool(received, key);
      result := result + [received[..]];
    }
  }

  /** The receive buffer of rank r: the segment of rank j goes to displacement j, the sum of the counts before it. */
  method Receive<P>(pools: seq<seq<P>>, cuts: seq<seq<nat>>, r: nat) returns (pool2: array<P>)
    requires AllCuts(pools, cuts) && r < |pools|
    ensures fresh(pool2) && pool2[..] == Received(pools, cuts, r)
  {
    var items: seq<P> := [];
    for j := 0 to |pools|
      invariant items == Flatten(Incoming(pools, cuts, r, j))
    {
      items := items + Segment(pools[j], cuts[j], r);
      assert Incoming(pools, cuts, r, j + 1)[..j] == Incoming(pools, cuts, r, j);
    }
    pool2 := new P[|items|](i requires 0 <= i < |items| => items[i]);
    assert pool2[..] == items;
  }

  lemma FinishOrder<P>(pools: seq<seq<P>>, key: P -> int, mid: seq<int>, cuts: seq<seq<nat>>, result: seq<seq<P>>)
    requires CutBy(pools, key, mid, cuts) && AllCuts(pools, cuts) && Rearranged(Exchange(pools, cuts, |pools|), result)
    requires |mid| == |pools| && forall i, j {:trigger mid[i], mid[j]} :: 0 <= i < j < |mid| ==> mid[i] <= mid[j]
    requires forall r {:trigger result[r]} :: 0 <= r < |result| ==> Sorted(KeysOf(result[r], key))
    ensures |result| == |pools| && Sorted(KeysOf(Flatten(result), key))
  {
    hide CutBy, Sorted, Between, Cuts, AllCuts, Flatten;
    var size, ex := |pools|, Exchange(pools, cuts, |pools|);
    forall r | 0 <= r < size
      ensures Between(result[r], key, mid, r)
    {
      ReceivedBetween(pools, key, mid, cuts, r);
      assert ex[r] == Received(pools, cuts, r);
      BetweenRearranged(ex[r], result[r], key, mid, r);
    }
    FlattenSorted(result, key, mid, size);
    assert result[..size] == result;
  }

  lemma FinishItems<P>(pools: seq<seq<P>>, cuts: seq<seq<nat>>, result: seq<seq<P>>)
    requires AllCuts(pools, cuts) && Rearranged(Exchange(pools, cuts, |pools|), result)
    ensures |result| == |pools| && multiset(Flatten(result)) == multiset(Flatten(pools))
  {
    hide Cuts, AllCuts, Flatten, Rearranged;
    var ex := Exchange(pools, cuts, |pools|);
    SameLength(ex, result);
    RearrangedFlatten(ex, result, |pools|);
    assert result[..|pools|] == result && ex[..|pools|] == ex;
    ExchangeConserves(pools, cuts);
  }

  lemma SameLength<P>(a: seq<seq<P>>, b: seq<seq<P>>)
    requires Rearranged(a, b)
    ensures |a| == |b|
  {
  }

  lemma FinishShare<P>(pools: seq<seq<P>>, key: P -> int, mid: seq<int>, cuts: seq<seq<nat>>, result: seq<seq<P>>, n: nat, j: nat)
    requires Ready(AllKeys(pools, key)) && CutBy(pools, key, mid, cuts) && Splitters(AllKeys(pools, key), n, mid) && AllCuts(pools, cuts)
    requires Rearranged(Exchange(pools, cuts, |pools|), result) && j + 1 < |pools|
    ensures |result| == |pools| && |Flatten(result[..j + 1])| == GlobalCount(AllKeys(pools, key), mid[j]) <= Share(j, n, |pools|)
  {
    hide Ready, CutBy, GlobalCount, Share, Cuts, AllCuts, Flatten, Rearranged;
    var ex := Exchange(pools, cuts, |pools|);
    SameLength(ex, result);
    RearrangedFlatten(ex, result, j + 1);
    ReceivedCount(pools, key, mid, cuts, j);
    assert GlobalCount(AllKeys(pools, key), mid[j]) <= Share(j, n, |pools|);
  }

  /** The keys of all ranks, and MPI_Allreduce of the numbers of particles. */
  method GatherKeys<P>(pools: seq<seq<P>>, key: P -> int) returns (keys: seq<seq<int>>, gnpar: nat)
    ensures keys == AllKeys(pools, key) && gnpar == |Flatten(pools)|
  {
    keys, gnpar := [], 0;
    ghost var all := AllKeys(pools, key);
    for r := 0 to |pools|
      invariant |keys| == r && gnpar == |Flatten(pools[..r])|
      invariant forall q {:trigger keys[q]} :: 0 <= q < r ==> keys[q] == KeysOf(pools[q], key)
    {
      keys := keys + [KeysOf(pools[r], key)];
      gnpar := gnpar + |pools[r]|;
      FlattenLast(pools[..r + 1], pools[..r]);
    }
    assert pools[..|pools|] == pools;
  }

  /** Step 2 of `balance` on every rank. */
  method AllDisplacements<P>(pools: seq<seq<P>>, key: P -> int, mid: seq<int>, keys: seq<seq<int>>) returns (cuts: seq<seq<nat>>)
    requires keys == AllKeys(pools, key) && Ready(keys) && |mid| == |pools|
    requires forall j, k {:trigger mid[j], mid[k]} :: 0 <= j < k < |mid| ==> mid[j] <= mid[k]
    ensures CutBy(pools, key, mid, cuts) && AllCuts(pools, cuts)
  {
    hide Cuts, Sorted;
    cuts := [];
    for r := 0 to |pools|
      invariant |cuts| == r && forall j {:trigger cuts[j]} :: 0 <= j < r ==> Cuts(cuts[j], |pools|, |pools[j]|)
      invariant forall j {:trigger cuts[j]} :: 0 <= j < r ==> CutAt(cuts[j], mid, keys[j])
    {
      var displs := Displacements(keys[r], mid);
      cuts := cuts + [displs];
    }
    forall j, r | 0 <= j < |pools| && 0 < r < |pools|
      ensures |cuts[j]| == |mid| && cuts[j][r] == SearchSorted(mid[r - 1], KeysOf(pools[j], key), false)
    {
      assert CutAt(cuts[j], mid, keys[j]);
    }
    forall j | 0 <= j < |pools|
      ensures KeysOf(pools[j], key) != [] && Sorted(KeysOf(pools[j], key))
    {
      assert keys[j] == KeysOf(pools[j], key);
    }
  }

  ghost predicate CutAt(cut: seq<nat>, mid: seq<int>, keys: seq<int>) {
    |cut| == |mid| && keys != [] && forall r {:trigger cut[r]} :: 0 < r < |mid| ==> cut[r] == SearchSorted(mid[r - 1], keys, false)
  }

  lemma GreatestUnique(keys: seq<seq<int>>, a: int, b: int)
    requires Tops(Flatten(keys), a) && Greatest(keys, b)
    ensures a == b
  {
    FlattenHas(keys, a);
    FlattenHas(keys, b);
    var r :| 0 <= r < |keys| && a in keys[r];
    assert AtMost(keys[r], b);
  }

  /**
    `balance` from ranks that are sorted and not empty: the ranks one after the other hold all particles, sorted, and
    the first j + 1 ranks hold at most their share. No splitter up to the greatest key would bring them closer to it
    exactly when that key itself is not needed as a splitter.
   */
  method Run<P>(pools: seq<seq<P>>, key: P -> int) returns (result: seq<seq<P>>)
    requires Ready(AllKeys(pools, key))
    ensures |result| == |pools| && Sorted(KeysOf(Flatten(result), key)) && multiset(Flatten(result)) == multiset(Flatten(pools))
    ensures forall j {:trigger result[..j + 1]} :: 0 <= j < |pools| - 1 ==> WithinParts(|Flatten(result[..j + 1])|, |Flatten(pools)|, j, |pools|)
    ensures var all, n, size := KeysOf(Flatten(pools), key), |Flatten(pools)|, |pools|;
      forall j, top {:trigger result[..j + 1], Tops(all, top)} :: 0 <= j < size - 1 && Tops(all, top) ==>
        (Closest(all, n, j, size, |Flatten(result[..j + 1])|, top) <==> TopNotNeeded(all, n, j, size, top))
  {
    hide Ready, CutBy, GlobalCount, Share, Cuts, AllCuts, Flatten, Rearranged, Sorted, Greatest, Closest, TopNotNeeded, Tight, WithinParts;
    var keys, gnpar := GatherKeys(pools, key);
    var mid, greatest := Bisect(keys, gnpar);
    var cuts := AllDisplacements(pools, key, mid, keys);
    result := ExchangeAndSort(pools, key, cuts);
    FinishOrder(pools, key, mid, cuts, result);
    FinishItems(pools, cuts, result);
    FlattenKeys(pools, key);
    forall j {:trigger result[..j + 1]} | 0 <= j < |pools| - 1
      ensures WithinParts(|Flatten(result[..j + 1])|, gnpar, j, |pools|)
    {
      FinishShare(pools, key, mid, cuts, result, gnpar, j);
      ShareIs(|Flatten(result[..j + 1])|, gnpar, j, |pools|);
    }
    forall j | 0 <= j < |pools| - 1
      ensures Closest(Flatten(keys), gnpar, j, |pools|, |Flatten(result[..j + 1])|, greatest) <==> TopNotNeeded(Flatten(keys), gnpar, j, |pools|, greatest)
    {
      FinishShare(pools, key, mid, cuts, result, gnpar, j);
    }
    forall top | Tops(Flatten(keys), top)
      ensures top == greatest
    {
      GreatestUnique(keys, top, greatest);
    }
  }

  /** The greatest of the numbers. */
  ghost predicate Tops(all: seq<int>, top: int) {
    top in all && forall i {:trigger all[i]} :: 0 <= i < |all| ==> all[i] <= top
  }

  lemma {:induction false} FlattenKeys<P>(pools: seq<seq<P>>, key: P -> int)
    ensures Flatten(AllKeys(pools, key)) == KeysOf(Flatten(pools), key)
  {
    if pools != [] {
      var n := |pools| - 1;
      FlattenKeys(pools[..n], key);
      assert AllKeys(pools, key)[..n] == AllKeys(pools[..n], key);
      assert KeysOf(Flatten(pools[..n]) + pools[n], key) == KeysOf(Flatten(pools[..n]), key) + KeysOf(pools[n], key);
    }
  }

  function OwnKey(p: int): int {
    p
  }

  /**
    Two ranks with one particle each, at keys 0 and 1: splitting at key 1 would leave each rank its particle, but the
    greatest key is never tried, and the second rank gets both.
   */
  method RunUnevenly() returns (result: seq<seq<int>>)
    ensures result == [[], [0, 1]]
  {
    hide *;
    UnevenKeys();
    result := Run([[0], [1]], OwnKey);
    UnevenResult(result);
  }

  lemma UnevenKeys()
    ensures AllKeys([[0], [1]], OwnKey) == [[0], [1]] && |[[0], [1]]| == 2 && Flatten([[0], [1]]) == [0, 1] && |[0, 1]| == 2
    ensures Ready([[0], [1]]) && KeysOf([0, 1], OwnKey) == [0, 1] && Tops([0, 1], 1) && !TopNotNeeded([0, 1], 2, 0, 2, 1)
  {
    var pools := [[0], [1]];
    assert KeysOf([0], OwnKey) == [0] && KeysOf([1], OwnKey) == [1];
    assert AllKeys(pools, OwnKey) == pools;
    assert pools[..1] == [[0]];
    assert Flatten(pools[..1]) == Flatten(pools[..1][..0]) + [0];
    assert Flatten(pools) == Flatten(pools[..1]) + [1];
    UnevenCounts();
    assert [0, 1][0] == 0 && [0, 1][1] == 1;
  }

  lemma UnevenCounts()
    ensures Fewer([0, 1], 1) == 1
  {
    assert [0, 1][..1] == [0] && [0][..0] == [];
    assert Fewer([0], 1) == Fewer([], 1) + 1;
  }

  lemma UnevenResult(result: seq<seq<int>>)
    requires |result| == 2 && Sorted(KeysOf(Flatten(result), OwnKey)) && multiset(Flatten(result)) == multiset([0, 1])
    requires WithinParts(|Flatten(result[..0 + 1])|, 2, 0, 2) && !Closest([0, 1], 2, 0, 2, |Flatten(result[..0 + 1])|, 1)
    ensures result == [[], [0, 1]]
  {
    hide Sorted;
    var first := result[..1];
    assert Flatten(first) == Flatten(first[..0]) + result[0] == result[0];
    assert Flatten(result) == Flatten(first) + result[1];
    assert [0, 1][..1] == [0] && [0][..0] == [];
    assert result[0] == [] && [] + result[1] == result[1];
    OnlySorted(result[1]);
    assert result == [result[0], result[1]];
  }

  lemma OnlySorted(s: seq<int>)
    requires Sorted(KeysOf(s, OwnKey)) && multiset(s) == multiset([0, 1])
    ensures s == [0, 1]
  {
    assert |s| == |multiset(s)| == 2;
    assert s == [s[0], s[1]];
    assert s[0] in multiset(s) && s[1] in multiset(s) && 0 in multiset(s) && 1 in multiset(s);
    assert KeysOf(s, OwnKey)[0] == s[0] && KeysOf(s, OwnKey)[1] == s[1];
  }
}
