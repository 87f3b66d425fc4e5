/** What `add` and `split` do to the pool and to the particle lists. */
module OctreeFilling {
  import opened Numbers
  import opened SegmentBox
  import opened OctreeCells

  /** The same boxes and links; only list heads and counts may differ. */
  ghost predicate SameTree(pool: seq<Cell>, pool': seq<Cell>) {
    |pool'| == |pool| && forall c {:trigger pool'[c]} {:trigger pool[c]} :: 0 <= c < |pool| ==>
      pool'[c].firstChild == pool[c].firstChild && pool'[c].parent == pool[c].parent && SameBox(pool'[c], pool[c])
  }

  /** Leaf c got eight new leaves as children, at the end of the pool. */
  ghost predicate SplitAt(pool: seq<Cell>, pool': seq<Cell>, c: nat) {
    && c < |pool| && |pool'| == |pool| + 8 && pool'[c].firstChild == |pool|
    && (forall x {:trigger pool'[x]} :: 0 <= x < |pool| ==> SameBox(pool'[x], pool[x]) && (x != c ==> pool'[x].firstChild == pool[x].firstChild))
    && (forall x {:trigger pool'[x]} :: |pool| <= x < |pool'| ==> pool'[x].firstChild == -1)
  }

  /** The same particles are filed. */
  ghost predicate SameFiled(home: seq<int>, home': seq<int>) {
    |home'| == |home| && forall p {:trigger home'[p]} {:trigger home[p]} :: 0 <= p < |home| ==> (home'[p] >= 0 <==> home[p] >= 0)
  }

  lemma SameTreeStep(a: seq<Cell>, b: seq<Cell>, c: seq<Cell>)
    requires SameTree(a, b) && SameTree(b, c)
    ensures SameTree(a, c)
  {
  }

  lemma SameFiledStep(a: seq<int>, b: seq<int>, c: seq<int>)
    requires a == b || SameFiled(a, b)
    requires b == c || SameFiled(b, c)
    ensures SameFiled(a, c)
  {
  }

  lemma HeadOnly(pool: seq<Cell>, pool': seq<Cell>, c: nat)
    requires c < |pool| == |pool'| && pool' == pool[c := pool[c].(headPar := pool'[c].headPar, npar := pool'[c].npar)]
    ensures SameTree(pool, pool')
  {
  }

  lemma SplitFinished(pool: seq<Cell>, pool': seq<Cell>, c: nat)
    requires c < |pool| && SameTree(Grown(pool, c), pool')
    ensures SplitAt(pool, pool', c)
  {
    hide Grown;
    GrownEntries(pool, c);
  }

  // ----- Adding a particle and splitting a cell

  lemma HoldsFrame(par: seq<Particle>, c: Cell, next: seq<int>, list: seq<nat>, ppc: nat, p: nat, v: int)
    requires Holds(par, c, next, list, ppc) && p < |next| && p !in list
    ensures Holds(par, c, next[p := v], list, ppc)
  {
  }

  lemma ThreadedFrame(next: seq<int>, head: int, list: seq<nat>, p: nat, v: int)
    requires Threaded(next, head, list) && p < |next| && p !in list
    ensures Threaded(next[p := v], head, list)
  {
  }

  lemma NoRepeatPrepend(list: seq<nat>, p: nat)
    requires NoRepeat(list) && p !in list
    ensures NoRepeat([p] + list)
  {
  }

  lemma InsideFields(par: seq<Particle>, c: Cell, p: nat, list: seq<nat>)
    requires p < |par| && Inside(par[p].pos, c)
    requires forall q {:trigger q in list} :: q in list ==> q < |par| && Inside(par[q].pos, c)
    ensures forall q {:trigger q in [p] + list} :: q in [p] + list ==> q < |par| && Inside(par[q].pos, c.(headPar := p, npar := c.npar + 1))
  {
  }

  lemma HoldsPrepend(par: seq<Particle>, c: Cell, next: seq<int>, list: seq<nat>, ppc: nat, p: nat)
    requires Holds(par, c, next, list, ppc) && p < |par| && p < |next| && p !in list
    requires c.firstChild == -1 && c.npar < ppc && Inside(par[p].pos, c)
    ensures Holds(par, c.(headPar := p, npar := c.npar + 1), next[p := c.headPar], [p] + list, ppc)
  {
    hide Inside, NoRepeat;
    InsideFields(par, c, p, list);
    NoRepeatPrepend(list, p);
    var l' := [p] + list;
    var next' := next[p := c.headPar];
    forall k | 0 <= k < |l'|
      ensures l'[k] < |next'| && next'[l'[k]] == if k + 1 < |l'| then l'[k + 1] else -1
    {
      if k > 0 {
        assert l'[k] == list[k - 1];
      }
    }
  }

  lemma HomedPrepend(lists: seq<seq<nat>>, home: seq<int>, c: nat, p: nat)
    requires Homed(lists, home) && c < |lists| && p < |home| && home[p] == -1
    ensures Homed(lists[c := [p] + lists[c]], home[p := c])
    ensures forall x :: 0 <= x < |lists| ==> p !in lists[x]
  {
    var lists' := lists[c := [p] + lists[c]];
    assert forall q :: q in lists'[c] <==> q == p || q in lists[c];
  }

  /** `add` to a leaf with room, for a particle that is in no list. */
  lemma AddKeeps(par: seq<Particle>, pool: seq<Cell>, next: seq<int>, lists: seq<seq<nat>>, home: seq<int>, ppc: nat, skip: int, c: nat, p: nat)
    requires AllHold(par, pool, next, lists, ppc, skip) && Homed(lists, home) && |home| == |par| == |next|
    requires p < |par| && home[p] == -1 && c < |pool| && c != skip && pool[c].firstChild == -1 && pool[c].npar < ppc && Inside(par[p].pos, pool[c])
    ensures var pool' := pool[c := pool[c].(headPar := p, npar := pool[c].npar + 1)];
      var next' := next[p := pool[c].headPar];
      var lists' := lists[c := [p] + lists[c]];
      AllHold(par, pool', next', lists', ppc, skip) && Homed(lists', home[p := c])
  {
    hide Holds, Homed, Inside;
    var pool' := pool[c := pool[c].(headPar := p, npar := pool[c].npar + 1)];
    var next' := next[p := pool[c].headPar];
    var lists' := lists[c := [p] + lists[c]];
    HomedPrepend(lists, home, c, p);
    HoldsPrepend(par, pool[c], next, lists[c], ppc, p);
    forall x | 0 <= x < |pool'| && x != skip
      ensures Holds(par, pool'[x], next', lists'[x], ppc)
    {
      if x != c {
        HoldsFrame(par, pool[x], next, lists[x], ppc, p, pool[c].headPar);
      }
    }
  }

  /** Changing only the list head and count of cells keeps the shape of the tree. */
  lemma SameShape(pool: seq<Cell>, pool': seq<Cell>)
    requires SameTree(pool, pool') && Linked(pool) && Subdivided(pool)
    ensures Linked(pool') && Subdivided(pool')
  {
    forall c, k | 0 <= c < |pool| && 0 <= k < |pool|
      ensures ChildOf(pool', k, c) <==> ChildOf(pool, k, c)
    {
    }
    forall c, k | 0 <= c < |pool| && 0 <= k < |pool| && ChildOf(pool', k, c)
      ensures SameBox(pool'[k], Child(pool'[c], c, k - pool'[c].firstChild))
    {
      assert SameBox(pool[k], Child(pool[c], c, k - pool[c].firstChild));
    }
  }

  /** The pool right after `split` has linked in the eight children of c. */
  function Grown(pool: seq<Cell>, c: nat): (pool': seq<Cell>)
    requires c < |pool|
    ensures |pool'| == |pool| + 8
  {
    pool[c := pool[c].(firstChild := |pool|, npar := 0)] + seq(8, i requires 0 <= i < 8 => Child(pool[c], c, i))
  }

  lemma GrownEntries(pool: seq<Cell>, c: nat)
    requires c < |pool|
    ensures var g := Grown(pool, c);
      && g[c] == pool[c].(firstChild := |pool|, npar := 0)
      && (forall x {:trigger g[x]} :: 0 <= x < |pool| && x != c ==> g[x] == pool[x])
      && (forall x {:trigger g[x]} :: |pool| <= x < |g| ==> g[x] == Child(pool[c], c, x - |pool|))
  {
  }

  lemma GrownLinked(pool: seq<Cell>, c: nat)
    requires Linked(pool) && c < |pool| && pool[c].firstChild == -1
    ensures Linked(Grown(pool, c))
  {
    hide Grown;
    GrownEntries(pool, c);
    var g := Grown(pool, c);
    forall k | 1 <= k < |g|
      ensures ChildOf(g, k, g[k].parent)
    {
      if k < |pool| {
        assert ChildOf(pool, k, pool[k].parent);
      }
    }
    forall x, k | 0 <= x < |g| && 0 <= k < |g| && ChildOf(g, k, x)
      ensures g[k].parent == x
    {
      if k < |pool| {
        assert ChildOf(pool, k, x);
      }
    }
  }

  lemma GrownSubdivided(pool: seq<Cell>, c: nat)
    requires Linked(pool) && Subdivided(pool) && c < |pool| && pool[c].firstChild == -1
    ensures Subdivided(Grown(pool, c))
  {
    hide Grown, Bit;
    GrownEntries(pool, c);
    var g := Grown(pool, c);
    forall x | 0 <= x < |g|
      ensures Proper(g[x])
    {
      if x >= |pool| {
        ChildrenProper(pool[c], c, x - |pool|);
      }
    }
    forall x, k | 0 <= x < |g| && 0 <= k < |g| && ChildOf(g, k, x)
      ensures SameBox(g[k], Child(g[x], x, k - g[x].firstChild))
    {
      if k < |pool| {
        assert ChildOf(pool, k, x);
        assert SameBox(pool[k], Child(pool[x], x, k - pool[x].firstChild));
      }
    }
  }

  lemma GrownHolds(par: seq<Particle>, pool: seq<Cell>, next: seq<int>, lists: seq<seq<nat>>, home: seq<int>, ppc: nat, c: nat)
    requires AllHold(par, pool, next, lists, ppc, -1) && Homed(lists, home) && c < |pool|
    ensures AllHold(par, Grown(pool, c), next, lists + seq(8, _ => []), ppc, c) && Homed(lists + seq(8, _ => []), home)
  {
    hide Grown;
    GrownEntries(pool, c);
    var lists' := lists + seq(8, _ => []);
    assert forall x, p: nat :: 0 <= x < |lists'| && p in lists'[x] ==> x < |lists| && p in lists[x];
  }

  /** Taking the first particle off a list. */
  lemma HomedTake(lists: seq<seq<nat>>, home: seq<int>, c: nat)
    requires Homed(lists, home) && c < |lists| && |lists[c]| > 0 && NoRepeat(lists[c])
    ensures lists[c][0] < |home| && home[lists[c][0]] == c
    ensures Homed(lists[c := lists[c][1..]], home[lists[c][0] := -1])
    ensures NoRepeat(lists[c][1..]) && lists[c][0] !in lists[c][1..]
  {
    var l := lists[c];
    var p := l[0];
    assert p in l;
    forall q | q in l
      ensures q == p || q in l[1..]
    {
      var k :| 0 <= k < |l| && l[k] == q;
      if k > 0 {
        assert l[1..][k - 1] == q;
      }
    }
    forall q | q in l[1..]
      ensures q in l && q != p
    {
      var k :| 0 <= k < |l[1..]| && l[1..][k] == q;
      assert l[k + 1] == q;
    }
    forall j, k | 0 <= j < k < |l[1..]|
      ensures l[1..][j] != l[1..][k]
    {
      assert l[1..][j] == l[j + 1] && l[1..][k] == l[k + 1];
    }
  }

  lemma ThreadedRest(next: seq<int>, head: int, l: seq<nat>)
    requires Threaded(next, head, l)
    ensures l == [] <==> head == -1
    ensures l != [] ==> head == l[0] && l[0] < |next| && Threaded(next, next[l[0]], l[1..])
  {
    if l != [] {
      forall k | 0 <= k < |l[1..]|
        ensures l[1..][k] < |next| && next[l[1..][k]] == if k + 1 < |l[1..]| then l[1..][k + 1] else -1
      {
        assert l[1..][k] == l[k + 1];
      }
    }
  }

  lemma NotFiled(lists: seq<seq<nat>>, home: seq<int>, p: nat)
    requires Homed(lists, home) && p < |home|
    ensures home[p] >= -1
  {
  }

  /** A full leaf holds ppc of the particles already filed, so it cannot be reached before that many. */
  lemma FullCell(par: seq<Particle>, pool: seq<Cell>, next: seq<int>, lists: seq<seq<nat>>, home: seq<int>, ppc: nat, c: nat, upto: nat)
    requires AllHold(par, pool, next, lists, ppc, -1) && Homed(lists, home) && |home| == |par| && c < |pool| && pool[c].npar >= ppc
    requires upto <= |par| && forall p {:trigger home[p]} :: 0 <= p < |par| && home[p] >= 0 ==> p < upto
    ensures ppc <= upto
  {
    assert Holds(par, pool[c], next, lists[c], ppc);
    forall k | 0 <= k < |lists[c]|
      ensures lists[c][k] < upto
    {
      assert lists[c][k] in lists[c];
    }
    DistinctBounded(lists[c], upto);
  }

  /** A list without repeats of numbers below n has at most n entries. */
  lemma DistinctBounded(l: seq<nat>, n: nat)
    requires NoRepeat(l) && forall k {:trigger l[k]} :: 0 <= k < |l| ==> l[k] < n
    ensures |l| <= n
  {
    SeqInSet(l, Below(n));
  }

  lemma {:induction false} SeqInSet(l: seq<nat>, s: set<nat>)
    requires NoRepeat(l) && forall k {:trigger l[k]} :: 0 <= k < |l| ==> l[k] in s
    ensures |l| <= |s|
  {
    if l != [] {
      RestOf(l);
      forall k | 0 <= k < |l[1..]|
        ensures l[1..][k] in s - {l[0]}
      {
        assert l[1..][k] == l[k + 1];
        assert l[1..][k] in l[1..];
      }
      SeqInSet(l[1..], s - {l[0]});
    }
  }

  /** The eight children of a cell are leaves with room. */
  ghost predicate ChildrenOpen(pool: seq<Cell>, c: nat, ppc: nat)
    requires c < |pool|
  {
    forall k {:trigger pool[k]} :: 0 <= k < |pool| && ChildOf(pool, k, c) ==> pool[k].firstChild == -1 && pool[k].npar < ppc
  }

  lemma OpenChild(pool: seq<Cell>, c: nat, ppc: nat, i: nat)
    requires Linked(pool) && c < |pool| && pool[c].firstChild != -1 && i < 8
    requires ChildrenOpen(pool, c, ppc)
    ensures var k := pool[c].firstChild + i; c < k < |pool| && pool[k].firstChild == -1 && pool[k].npar < ppc
  {
    ChildLinks(pool, c, i);
  }

  lemma ListsLength(par: seq<Particle>, pool: seq<Cell>, next: seq<int>, lists: seq<seq<nat>>, ppc: nat, skip: int)
    requires AllHold(par, pool, next, lists, ppc, skip)
    ensures |lists| == |pool|
  {
  }

  /** The children of c are leaves, and each has room for everything still in the list of c. */
  ghost predicate RoomBelow(pool: seq<Cell>, lists: seq<seq<nat>>, ppc: nat, c: nat) {
    && c < |lists| == |pool|
    && forall k {:trigger pool[k]} {:trigger lists[k]} :: 0 <= k < |pool| && ChildOf(pool, k, c) ==> pool[k].firstChild == -1 && |lists[k]| + |lists[c]| <= ppc
  }

  /** While `split` runs: the particles of cell c still to be handed down, threaded from ipar. */
  ghost predicate SplitPending(par: seq<Particle>, pool: seq<Cell>, next: seq<int>, lists: seq<seq<nat>>, ppc: nat, c: nat, ipar: int) {
    && c < |lists| == |pool| && NoRepeat(lists[c]) && Threaded(next, ipar, lists[c]) && pool[c].npar == 0
    && (forall p {:trigger p in lists[c]} :: p in lists[c] ==> p < |par| && Inside(par[p].pos, pool[c]))
    && RoomBelow(pool, lists, ppc, c)
  }

  lemma SplitStart(par: seq<Particle>, pool: seq<Cell>, next: seq<int>, lists: seq<seq<nat>>, home: seq<int>, ppc: nat, c: nat)
    requires Linked(pool) && Subdivided(pool) && AllHold(par, pool, next, lists, ppc, -1) && Homed(lists, home)
    requires c < |pool| && pool[c].firstChild == -1
    ensures var g, l := Grown(pool, c), lists + seq(8, _ => []);
      && Linked(g) && Subdivided(g) && AllHold(par, g, next, l, ppc, c) && Homed(l, home) && |l| == |g|
      && SplitPending(par, g, next, l, ppc, c, g[c].headPar) && g[c].firstChild == |pool|
      && SameTree(g, g)
  {
    hide Linked, Subdivided, Inside, Homed, Grown;
    GrownLinked(pool, c);
    GrownSubdivided(pool, c);
    GrownHolds(par, pool, next, lists, home, ppc, c);
    GrownEntries(pool, c);
    assert Holds(par, pool[c], next, lists[c], ppc);
    SameBoxInside(par, pool[c], Grown(pool, c)[c], lists[c]);
  }

  lemma SameBoxInside(par: seq<Particle>, a: Cell, b: Cell, l: seq<nat>)
    requires SameBox(a, b)
    requires forall p {:trigger p in l} :: p in l ==> p < |par| && Inside(par[p].pos, a)
    ensures forall p {:trigger p in l} :: p in l ==> p < |par| && Inside(par[p].pos, b)
  {
  }

  lemma PendingFirst(par: seq<Particle>, pool: seq<Cell>, next: seq<int>, lists: seq<seq<nat>>, home: seq<int>, ppc: nat, c: nat, ipar: int)
    requires SplitPending(par, pool, next, lists, ppc, c, ipar) && ipar != -1 && Homed(lists, home)
    ensures lists[c] != [] && lists[c][0] == ipar && 0 <= ipar < |par| && ipar < |next| && ipar < |home| && home[ipar] == c
    ensures Inside(par[ipar].pos, pool[c])
  {
    hide Inside;
    ThreadedRest(next, ipar, lists[c]);
    assert lists[c][0] in lists[c];
  }

  lemma TakeKeeps(par: seq<Particle>, pool: seq<Cell>, next: seq<int>, lists: seq<seq<nat>>, home: seq<int>, ppc: nat, c: nat)
    requires AllHold(par, pool, next, lists, ppc, c) && Homed(lists, home) && c < |pool| && |lists[c]| > 0 && NoRepeat(lists[c])
    requires RoomBelow(pool, lists, ppc, c)
    ensures var l := lists[c := lists[c][1..]];
      lists[c][0] < |home| && AllHold(par, pool, next, l, ppc, c) && Homed(l, home[lists[c][0] := -1])
    ensures ChildrenOpen(pool, c, ppc)
  {
    hide Homed;
    HomedTake(lists, home, c);
    forall k | 0 <= k < |pool| && ChildOf(pool, k, c)
      ensures pool[k].npar < ppc
    {
      assert Holds(par, pool[k], next, lists[k], ppc);
    }
  }

  lemma PendingAfter(par: seq<Particle>, pool: seq<Cell>, next: seq<int>, lists: seq<seq<nat>>, pool': seq<Cell>, next': seq<int>, lists': seq<seq<nat>>,
                     ppc: nat, c: nat, p: nat, k: nat, full: seq<nat>)
    requires full != [] && full[0] == p && c < k < |pool| && |lists| == |pool| && lists[c] == full[1..] && ChildOf(pool, k, c)
    requires SplitPending(par, pool, next, lists[c := full], ppc, c, p)
    requires p < |next| && pool' == pool[k := pool[k].(headPar := p, npar := pool[k].npar + 1)]
    requires next' == next[p := pool[k].headPar] && lists' == lists[k := [p] + lists[k]]
    ensures SplitPending(par, pool', next', lists', ppc, c, next[p])
  {
    hide Inside, Threaded, NoRepeat, RoomBelow;
    ThreadedRest(next, p, full);
    RestOf(full);
    ThreadedFrame(next, next[p], full[1..], p, pool[k].headPar);
    assert lists[c := full][c] == full;
    PendingCounts(pool, pool', lists, lists', ppc, c, p, k, full);
  }

  lemma PendingCounts(pool: seq<Cell>, pool': seq<Cell>, lists: seq<seq<nat>>, lists': seq<seq<nat>>, ppc: nat, c: nat, p: nat, k: nat, full: seq<nat>)
    requires full != [] && c < k < |pool| && |lists| == |pool| && lists[c] == full[1..]
    requires RoomBelow(pool, lists[c := full], ppc, c)
    requires pool' == pool[k := pool[k].(headPar := p, npar := pool[k].npar + 1)] && lists' == lists[k := [p] + lists[k]]
    ensures RoomBelow(pool', lists', ppc, c)
  {
    forall x | 0 <= x < |pool'| && ChildOf(pool', x, c)
      ensures pool'[x].firstChild == -1 && |lists'[x]| + |lists'[c]| <= ppc
    {
      assert ChildOf(pool, x, c);
    }
  }

  lemma RestOf(l: seq<nat>)
    requires l != [] && NoRepeat(l)
    ensures NoRepeat(l[1..]) && l[0] !in l[1..] && forall q :: q in l[1..] ==> q in l
  {
    forall j, k | 0 <= j < k < |l[1..]|
      ensures l[1..][j] != l[1..][k]
    {
      assert l[1..][j] == l[j + 1] && l[1..][k] == l[k + 1];
    }
  }

  lemma PendingDone(par: seq<Particle>, pool: seq<Cell>, next: seq<int>, lists: seq<seq<nat>>, ppc: nat, c: nat)
    requires SplitPending(par, pool, next, lists, ppc, c, -1) && AllHold(par, pool, next, lists, ppc, c)
    ensures AllHold(par, pool[c := pool[c].(headPar := -1)], next, lists, ppc, -1)
  {
    hide Inside;
    ThreadedRest(next, -1, lists[c]);
  }
}
