/** The packed R-tree of `rtree.c`: build and neighbour search. */
module RTrees {
  import opened SegmentBox
  import opened OctreeBoxes
  import opened BoundedLists
  import opened RTreeNodes
  import opened RTreeWalks
  import opened RTreeReach
  import opened Numbers
  import opened RTreeExact
  import OctreeBounds
  import OctreeTrace

  function Least(a: real, b: real): real {
    if a < b then a else b
  }

  function Most(a: real, b: real): real {
    if a < b then b else a
  }

  function Join(a: Box, b: Box): (c: Box)
    ensures Within(a, c) && Within(b, c)
  {
    Box(Vec3(Least(a.bot.x, b.bot.x), Least(a.bot.y, b.bot.y), Least(a.bot.z, b.bot.z)),
        Vec3(Most(a.top.x, b.top.x), Most(a.top.y, b.top.y), Most(a.top.z, b.top.z)))
  }

  function Min(a: int, b: int): int {
    if a < b then a else b
  }

  /** Nodes of the levels from one with t nodes up. */
  function LevelsFrom(t: nat): nat
    requires t > 0
  {
    if t == 1 then 1 else t + LevelsFrom((t + 7) / 8)
  }

  /** Leaf k as it is filled. */
  ghost predicate LeafIs(node: Node, s: Span, k: nat, pos: seq<Vec3>, sml: seq<real>)
    requires |pos| == |sml|
  {
    && s == Span(k * 12, if k * 12 + 12 < |pos| then k * 12 + 12 else |pos|) && k * 12 < |pos|
    && node.kind == 0 && node.firstChild == k * 12 && node.length == s.hi - s.lo && CubesIn(pos, sml, s, node.box)
    && (RadiiNonNegative(sml) ==> Snug(pos, sml, s, node.box))
  }

  class RTree {
    const pos: seq<Vec3>
    const sml: seq<real>
    var pool: seq<Node>
    var size: nat
    ghost var span: seq<Span>

    ghost predicate Valid()
      reads this
    {
      |pos| == |sml| && TreeOk(pool, span, pos, sml)
    }

    constructor (pos: seq<Vec3>, sml: seq<real>)
      ensures this.pos == pos && this.sml == sml
    {
      this.pos, this.sml := pos, sml;
      pool, size, span := [], 0, [];
    }

    /** The box of a leaf. */
    method LeafBox(first: nat, length: nat) returns (box: Box)
      requires |pos| == |sml| && length > 0 && first + length <= |pos|
      ensures CubesIn(pos, sml, Span(first, first + length), box)
      ensures RadiiNonNegative(sml) ==> Snug(pos, sml, Span(first, first + length), box)
    {
      hide Within, CubeAt, Join, RadiiNonNegative;
      box := Box(pos[first], pos[first]);
      if RadiiNonNegative(sml) {
        CenterWithin(pos, sml, first);
      }
      for j := 0 to length
        invariant forall k {:trigger pos[k]} {:trigger sml[k]} :: first <= k < first + j ==> Within(CubeAt(pos[k], sml[k]), box)
        invariant RadiiNonNegative(sml) ==> Snug(pos, sml, Span(first, first + length), box)
      {
        var wider := Join(box, CubeAt(pos[first + j], sml[first + j]));
        forall k | first <= k < first + j
          ensures Within(CubeAt(pos[k], sml[k]), wider)
        {
          WithinSteps(CubeAt(pos[k], sml[k]), box, wider);
        }
        forall h | CubesIn(pos, sml, Span(first, first + length), h) && Within(box, h)
          ensures Within(wider, h)
        {
          JoinLeast(box, CubeAt(pos[first + j], sml[first + j]), h);
        }
        box := wider;
      }
    }

    /** The box of an inner node. */
    method KidsBox(first: nat, length: nat) returns (box: Box)
      requires length > 0 && first + length <= |pool|
      ensures KidsIn(pool, first, length, box) && KidsLeast(pool, first, length, box)
    {
      hide Within, Join;
      box := pool[first].box;
      for j := 0 to length
        invariant forall k {:trigger pool[k]} :: first <= k < first + j ==> Within(pool[k].box, box)
        invariant KidsLeast(pool, first, length, box)
      {
        var wider := Join(box, pool[first + j].box);
        forall k | first <= k < first + j
          ensures Within(pool[k].box, wider)
        {
          WithinSteps(pool[k].box, box, wider);
        }
        forall h | KidsIn(pool, first, length, h)
          ensures Within(wider, h)
        {
          assert Within(pool[first + j].box, h);
          JoinLeast(box, pool[first + j].box, h);
        }
        box := wider;
      }
    }

    /** The loop that fills the leaves with twelve particles each. */
    method FillLeaves(leaves: nat)
      requires |pos| == |sml| && |pos| > 0 && leaves == (|pos| + 11) / 12
      modifies `pool, `span
      ensures |pool| == leaves && Building(pool, span, pos, sml, 0, leaves) && Packed(pool, span, |pos|)
      ensures RadiiNonNegative(sml) ==> AllSnug(pool, span, pos, sml)
    {
      hide CubesIn, Snug, RadiiNonNegative;
      pool, span := [], [];
      for i := 0 to leaves
        invariant |pool| == |span| == i
        invariant forall k {:trigger pool[k]} {:trigger span[k]} :: 0 <= k < i ==> LeafIs(pool[k], span[k], k, pos, sml)
      {
        var first, length := i * 12, Min(|pos| - i * 12, 12);
        var box := LeafBox(first, length);
        pool := pool + [Node(0, length, box, -1, first)];
        span := span + [Span(first, first + length)];
      }
      LeavesBuilding(leaves);
    }

    lemma LeavesBuilding(leaves: nat)
      requires |pos| == |sml| && |pos| > 0 && leaves == (|pos| + 11) / 12 == |pool| == |span|
      requires forall k {:trigger pool[k]} {:trigger span[k]} :: 0 <= k < leaves ==> LeafIs(pool[k], span[k], k, pos, sml)
      ensures Building(pool, span, pos, sml, 0, leaves) && Packed(pool, span, |pos|)
      ensures RadiiNonNegative(sml) ==> AllSnug(pool, span, pos, sml)
    {
      hide CubesIn, Snug, RadiiNonNegative;
      forall c: nat | c < leaves
        ensures NodeOk(pool, span, pos, sml, c) && Leaf(pool[c]) && !Last(pool[c])
      {
        assert LeafIs(pool[c], span[c], c, pos, sml);
      }
      forall c | 0 <= c < leaves
        ensures Leaf(pool[c]) && span[c] == Span(c * 12, if c * 12 + 12 < |pos| then c * 12 + 12 else |pos|)
        ensures RadiiNonNegative(sml) ==> Snug(pos, sml, span[c], pool[c].box)
      {
        assert LeafIs(pool[c], span[c], c, pos, sml);
      }
      forall j, k | 0 <= j < k < leaves && k == j + 1
        ensures span[j].hi == span[k].lo
      {
        assert LeafIs(pool[j], span[j], j, pos, sml) && LeafIs(pool[k], span[k], k, pos, sml);
      }
      assert LeafIs(pool[0], span[0], 0, pos, sml) && LeafIs(pool[leaves - 1], span[leaves - 1], leaves - 1, pos, sml);
    }

    /** One level of parents, each of eight children or what is left. */
    method BuildLevel(child: nat, parent: nat, t: nat)
      requires Building(pool, span, pos, sml, child, parent) && parent == |pool| && child < parent && t == (parent - child + 7) / 8
      requires |pos| == |sml| && Packed(pool, span, |pos|) && (RadiiNonNegative(sml) ==> AllSnug(pool, span, pos, sml))
      modifies `pool, `span
      ensures |pool| == parent + t && Building(pool, span, pos, sml, parent, parent)
      ensures Packed(pool, span, |pos|) && (RadiiNonNegative(sml) ==> AllSnug(pool, span, pos, sml))
    {
      hide Building, KidsIn, KidsLeast, Marked, Packed, AllSnug, Snug, RadiiNonNegative, SameNodes;
      for i := 0 to t
        invariant |pool| == parent + i && Building(pool, span, pos, sml, child + Min(i * 8, parent - child), parent)
        invariant Packed(pool, span, |pos|) && (RadiiNonNegative(sml) ==> AllSnug(pool, span, pos, sml))
      {
        var first, length := child + i * 8, Min(parent - child - i * 8, 8);
        var box := KidsBox(first, length);
        var node := Node(1, length, box, -1, first);
        SpanLength(pool, span, pos, sml, first, parent);
        ParentAdded(pool, span, pos, sml, first, parent, node);
        MarkedSame(pool, span, pos, sml, first, parent, length, node);
        PackedKept(pool, span, Marked(pool, first, length, |pool|) + [node], Span(span[first].lo, span[first + length - 1].hi), |pos|);
        if RadiiNonNegative(sml) {
          SnugParent(pool, span, pos, sml, first, parent, length, box);
          SnugKept(pool, span, Marked(pool, first, length, |pool|) + [node], Span(span[first].lo, span[first + length - 1].hi), pos, sml);
        }
        span := span + [Span(span[first].lo, span[first + length - 1].hi)];
        pool := Marked(pool, first, length, |pool|) + [node];
      }
    }

    /**
      `rtree_build`: the nodes of all levels, exactly as many as were counted for the pool;
      no particles give an empty pool.
     */
    method Build()
      requires |pos| == |sml|
      modifies `pool, `span, `size
      ensures |pool| == size
      ensures if |pos| == 0 then pool == [] else Valid() && Packed(pool, span, |pos|) && size == (|pos| + 11) / 12 + LevelsFrom(((|pos| + 11) / 12 + 7) / 8)
      ensures RadiiNonNegative(sml) ==> |pos| == 0 || AllSnug(pool, span, pos, sml)
    {
      hide Building, TreeOk, Packed, AllSnug, RadiiNonNegative;
      var leaves := (|pos| + 11) / 12;
      var nonleaves := 0;
      var t: nat := (leaves + 7) / 8;
      while t >= 1
        invariant t >= 1 ==> leaves > 0 && nonleaves + LevelsFrom(t) == LevelsFrom((leaves + 7) / 8)
        invariant t == 0 ==> leaves == 0 && nonleaves == 0
        decreases t
      {
        nonleaves := nonleaves + t;
        if t == 1 {
          break;
        }
        t := (t + 7) / 8;
      }
      size := leaves + nonleaves;
      if leaves == 0 {
        pool, span := [], [];
        return;
      }
      FillLeaves(leaves);
      var child: nat, parent: nat := 0, leaves;
      t := (leaves + 7) / 8;
      while true
        invariant Building(pool, span, pos, sml, child, parent) && parent == |pool| && child < parent && t == (parent - child + 7) / 8 >= 1
        invariant size == parent + LevelsFrom(t) == leaves + LevelsFrom((leaves + 7) / 8)
        invariant Packed(pool, span, |pos|) && (RadiiNonNegative(sml) ==> AllSnug(pool, span, pos, sml))
        decreases t
      {
        BuildLevel(child, parent, t);
        Relevel(pool, span, pos, sml, parent);
        child := parent;
        parent := parent + t;
        if t == 1 {
          break;
        }
        t := (t + 7) / 8;
      }
    }

    /** The particles of one leaf into the list. */
    method AddLeaf(first: nat, length: nat, p: Vec3, neighbours: array<nat>, dist: array<real>, n: nat, nused0: nat, ghost ids: seq<nat>) returns (nused: nat)
      requires first + length <= |pos| && 0 < n <= neighbours.Length && n <= dist.Length && nused0 <= n
      requires Increasing(ids, 0, |pos|) && Zip(neighbours[..nused0], dist[..nused0]) == AddAll([], Nears(pos, p, ids), n)
      requires Increasing(ids + Range(first, first + length), 0, |pos|)
      modifies neighbours, dist
      ensures nused <= n && Zip(neighbours[..nused], dist[..nused]) == AddAll([], Nears(pos, p, ids + Range(first, first + length)), n)
    {
      hide AddAll, Added, D2;
      nused := nused0;
      ghost var r := Range(first, first + length);
      assert r[..0] == [] && ids + [] == ids;
      for j := 0 to length
        invariant nused <= n && Zip(neighbours[..nused], dist[..nused]) == AddAll([], Nears(pos, p, ids + r[..j]), n)
      {
        ghost var xs := Nears(pos, p, ids + r[..j]);
        var d2 := D2(pos, p, first + j);
        nused := AddToList(first + j, d2, neighbours, dist, n, nused);
        AddOne(xs, Nears(pos, p, ids + r[..j + 1]), Near(first + j, d2), n);
      }
      assert r[..length] == r;
    }

    /** What the walk does at a finished node: the next sibling, that of the nearest node above that has one, or the end at the root. */
    method Onward(cur0: nat, ghost b: Box) returns (done: bool, cur: nat)
      requires Valid() && cur0 < |pool|
      ensures done ==> After(pool, span, pos, sml, b, cur0) == []
      ensures !done ==> cur < |pool| && After(pool, span, pos, sml, b, cur0) == Visit(pool, span, pos, sml, b, cur) + After(pool, span, pos, sml, b, cur)
      ensures !done ==> SizeAfter(pool, span, pos, sml, cur0) == Size(pool, span, pos, sml, cur) + SizeAfter(pool, span, pos, sml, cur)
    {
      hide TreeOk, Visit, After, Size, SizeAfter;
      cur := cur0;
      var root := |pool| - 1;
      AfterRoot(pool, span, pos, sml, b);
      if cur == root {
        return true, cur;
      }
      VisitIs(pool, span, pos, sml, b, cur);
      MoveOn(pool, span, pos, sml, b, cur);
      if pool[cur].kind == 0 || pool[cur].kind == 1 {
        return false, cur + 1;
      }
      while pool[cur].kind == 2 || pool[cur].kind == 3
        invariant cur < root
        invariant After(pool, span, pos, sml, b, cur) == After(pool, span, pos, sml, b, cur0)
        invariant SizeAfter(pool, span, pos, sml, cur) == SizeAfter(pool, span, pos, sml, cur0)
        decreases root - cur
      {
        MoveOn(pool, span, pos, sml, b, cur);
        cur := pool[cur].parent;
        if cur == root {
          return true, cur;
        }
      }
      VisitIs(pool, span, pos, sml, b, cur);
      MoveOn(pool, span, pos, sml, b, cur);
      return false, cur + 1;
    }

    /** One walk over the tree: all particles of the leaves reached, in one bounded list. */
    method Walk(p: Vec3, b: Box, neighbours: array<nat>, dist: array<real>, n: nat) returns (nused: nat, ghost ids: seq<nat>)
      requires Valid() && 0 < n <= neighbours.Length && n <= dist.Length
      modifies neighbours, dist
      ensures |pool| > 0 && ids == Visit(pool, span, pos, sml, b, |pool| - 1) && Increasing(ids, 0, |pos|)
      ensures nused <= n && Zip(neighbours[..nused], dist[..nused]) == AddAll([], Nears(pos, p, ids), n)
    {
      hide TreeOk, Visit, After, Size, SizeAfter, Intersect, AddAll, D2;
      VisitBounded(pool, span, pos, sml, b);
      ghost var all := Visit(pool, span, pos, sml, b, |pool| - 1);
      AfterRoot(pool, span, pos, sml, b);
      var cur: nat := |pool| - 1;
      nused := 0;
      ids := [];
      PrefixIncreasing(ids, all, 0, |pos|);
      NoneYet(pos, p, n);
      var done := false;
      while !done
        invariant cur < |pool| && nused <= n && Increasing(ids, 0, |pos|)
        invariant done ==> ids == all
        invariant !done ==> ids + (Visit(pool, span, pos, sml, b, cur) + After(pool, span, pos, sml, b, cur)) == all
        invariant Zip(neighbours[..nused], dist[..nused]) == AddAll([], Nears(pos, p, ids), n)
        decreases !done, Size(pool, span, pos, sml, cur) + SizeAfter(pool, span, pos, sml, cur)
      {
        VisitIs(pool, span, pos, sml, b, cur);
        if Intersect(pool[cur].box, b) {
          if pool[cur].kind == 1 || pool[cur].kind == 3 {
            Descend(pool, span, pos, sml, b, cur);
            cur := pool[cur].firstChild;
            continue;
          }
          ghost var here := Range(span[cur].lo, span[cur].hi);
          assert (ids + here) + After(pool, span, pos, sml, b, cur) == all;
          PrefixIncreasing(ids + here, all, 0, |pos|);
          assert here == Range(pool[cur].firstChild, pool[cur].firstChild + pool[cur].length);
          nused := AddLeaf(pool[cur].firstChild, pool[cur].length, p, neighbours, dist, n, nused, ids);
          ids := ids + here;
        }
        assert ids + After(pool, span, pos, sml, b, cur) == all;
        var next;
        done, next := Onward(cur, b);
        cur := if done then cur else next;
      }
    }

    /**
      `rtree_neighbours`: walks with a search box that is doubled until the list is full. The answer is for the half-width
      h of the last walk, hint0 doubled k times; hint is twice that afterwards. It has the nearest n particles exactly when
      that walk missed none that is nearer than the n-th nearest it met, and always when n particles are within hint0. The
      precondition on hint0 is that the search ends; see `FillsIff`.
     */
    method Neighbours(p: Vec3, wanted: nat, hint0: real, neighbours: array<nat>, dist: array<real>)
        returns (n: nat, nused: nat, hint: real, ghost h: real, ghost k: nat)
      requires PackedTree(pool, span, pos, sml) && |pos| == |sml| && RadiiNonNegative(sml) && |pos| > 0 && wanted > 0
      requires Fills(pos, sml, p, hint0, Min(wanted, |pos|))
      requires neighbours.Length >= Min(wanted, |pos|) && dist.Length >= Min(wanted, |pos|)
      modifies neighbours, dist
      ensures n == nused == Min(wanted, |pos|) && hint == 2.0 * h && h >= hint0
      ensures h == OctreeBounds.Doubled(hint0, k) && FirstFilling(pos, sml, p, hint0, k, n)
      ensures ListOf(Zip(neighbours[..nused], dist[..nused]), pos, p, ReachedSet(pos, sml, p, h), n)
      ensures Answer(Zip(neighbours[..nused], dist[..nused]), pos, p, n, h)
      ensures Exact(Zip(neighbours[..nused], dist[..nused]), pos, p, n) <==> NoneNearer(pos, p, ReachedSet(pos, sml, p, h), n)
      ensures hint0 >= 0.0 && EnoughClose(pos, p, n, hint0) ==> k == 0 && Exact(Zip(neighbours[..nused], dist[..nused]), pos, p, n)
    {
      hide TreeOk, Packed, AllSnug, Visit, Met, Reached, Increasing, AddAll, Answer, RadiiNonNegative, D2, Contains, Exact, NoneNearer, EnoughClose, ListOf;
      n := if wanted > |pos| then |pos| else wanted;
      FillsIff(pos, sml, p, hint0, n);
      ghost var left: nat :| |ReachedSet(pos, sml, p, OctreeBounds.Doubled(hint0, left))| >= n;
      if hint0 >= 0.0 && EnoughClose(pos, p, n, hint0) {
        CloseIsExact(pos, sml, p, hint0, n);
      }
      hint, k := hint0, 0;
      while true
        invariant |ReachedSet(pos, sml, p, OctreeBounds.Doubled(hint, left))| >= n
        invariant hint == OctreeBounds.Doubled(hint0, k) && hint >= hint0
        invariant hint0 <= 0.0 ==> k == 0 && |ReachedSet(pos, sml, p, hint0)| >= n
        invariant forall i: nat {:trigger OctreeBounds.Doubled(hint0, i)} :: i < k ==> |ReachedSet(pos, sml, p, OctreeBounds.Doubled(hint0, i))| < n
        decreases left
      {
        var b := SearchBox(p, hint);
        ghost var ids;
        nused, ids := Walk(p, b, neighbours, dist, n);
        h := hint;
        hint := hint * 2.0;
        ListFills(pos, p, ids, n);
        MetIs(pool, span, pos, sml, p, h);
        MetIsReached(pool, span, pos, sml, p, h);
        if nused >= n {
          ghost var l := Zip(neighbours[..nused], dist[..nused]);
          WalkLists(pos, p, ids, ReachedSet(pos, sml, p, h), n, l);
          ListAnswers(pos, sml, p, h, n, l);
          ExactIff(pos, p, ReachedSet(pos, sml, p, h), n, l);
          break;
        }
        assert left > 0 && hint0 > 0.0;
        OctreeBounds.DoubledHalf(h, hint, left - 1);
        left := left - 1;
        k := k + 1;
      }
    }
  }

  lemma MetIs(pool: seq<Node>, span: seq<Span>, pos: seq<Vec3>, sml: seq<real>, p: Vec3, h: real)
    requires TreeOk(pool, span, pos, sml)
    ensures Met(pool, span, pos, sml, p, h) == Visit(pool, span, pos, sml, SearchBox(p, h), |pool| - 1)
  {
  }

  lemma WithinSteps(a: Box, b: Box, c: Box)
    requires Within(a, b) && Within(b, c)
    ensures Within(a, c)
  {
  }

  lemma JoinLeast(a: Box, b: Box, c: Box)
    requires Within(a, c) && Within(b, c)
    ensures Within(Join(a, b), c)
  {
  }

  lemma CenterWithin(pos: seq<Vec3>, sml: seq<real>, first: nat)
    requires |pos| == |sml| && first < |pos| && RadiiNonNegative(sml)
    ensures forall h {:trigger Within(CubeAt(pos[first], sml[first]), h)} :: Within(CubeAt(pos[first], sml[first]), h) ==> Within(Box(pos[first], pos[first]), h)
  {
    assert sml[first] >= 0.0;
  }

  lemma SpanLength(pool: seq<Node>, span: seq<Span>, pos: seq<Vec3>, sml: seq<real>, open: nat, mid: nat)
    requires Building(pool, span, pos, sml, open, mid)
    ensures |span| == |pool| && mid <= |pool|
  {
  }

  /** The new parents are the next level. */
  lemma Relevel(pool: seq<Node>, span: seq<Span>, pos: seq<Vec3>, sml: seq<real>, m: nat)
    requires Building(pool, span, pos, sml, m, m)
    ensures Building(pool, span, pos, sml, m, |pool|)
    ensures |pool| == m + 1 ==> TreeOk(pool, span, pos, sml)
  {
    hide NodeOk, Parented;
  }

  lemma PrefixIncreasing(a: seq<nat>, s: seq<nat>, lo: nat, hi: nat)
    requires Increasing(s, lo, hi) && a <= s
    ensures Increasing(a, lo, hi)
  {
  }

  lemma NoneYet(pos: seq<Vec3>, p: Vec3, n: nat)
    requires n > 0
    ensures Zip([], []) == AddAll([], Nears(pos, p, []), n)
  {
    assert Nears(pos, p, []) == [];
    assert Zip([], []) == [];
  }

  lemma AddOne(xs: seq<Near>, ys: seq<Near>, y: Near, n: nat)
    requires n > 0 && ys == xs + [y]
    ensures AddAll([], ys, n) == Added(AddAll([], xs, n), y, n)
  {
    assert ys[..|ys| - 1] == xs;
  }

  /** The list is full once as many particles were met. */
  lemma ListFills(pos: seq<Vec3>, p: Vec3, ids: seq<nat>, n: nat)
    requires n > 0 && Increasing(ids, 0, |pos|)
    ensures |AddAll([], Nears(pos, p, ids), n)| == if |ids| < n then |ids| else n
  {
    hide D2;
    AddAllNearest(Nears(pos, p, ids), n);
  }

  // ----- A search that misses the nearest particle

  const Origin := Vec3(0.0, 0.0, 0.0)

  /** Twelve wide particles, which fill the first leaf, and a nearer narrow one in a second leaf. */
  ghost function WidePos(): (pos: seq<Vec3>)
    ensures |pos| == 13
  {
    seq(12, _ => Vec3(10.0, 0.0, 0.0)) + [Vec3(2.0, 0.0, 0.0)]
  }

  ghost function WideSml(): (sml: seq<real>)
    ensures |sml| == 13
  {
    seq(12, _ => 20.0) + [0.0]
  }

  /** The search box meets the box around the wide particles, though none of them is in it, and not the narrow one. */
  lemma WideMet()
    ensures ReachedSet(WidePos(), WideSml(), Origin, 1.0) == Below(12)
  {
    hide Reached, WidePos, WideSml, Origin;
    forall j: nat
      ensures Reached(WidePos(), WideSml(), Origin, 1.0, j) <==> j < 12
    {
      WideReached(j);
    }
  }

  lemma WideReached(j: nat)
    ensures |WidePos()| == |WideSml()| && (Reached(WidePos(), WideSml(), Origin, 1.0, j) <==> j < 12)
  {
    var pos, sml := WidePos(), WideSml();
    if j < 12 {
      forall d: nat | d < 3
        ensures BeginsBefore(pos, sml, j, d, Coord(Origin, d) + 1.0) && EndsAfter(pos, sml, j, d, Coord(Origin, d) - 1.0)
      {
        assert pos[j] == Vec3(10.0, 0.0, 0.0) && sml[j] == 20.0 && Mates(j, j);
      }
    } else if j == 12 {
      forall i: nat | i < 13 && Mates(i, 12)
        ensures i == 12
      {
      }
      assert pos[12] == Vec3(2.0, 0.0, 0.0) && sml[12] == 0.0;
      assert !BeginsBefore(pos, sml, 12, 0, Coord(Origin, 0) + 1.0);
    }
  }

  /** Every particle met is farther from the origin than the one that was not. */
  lemma WideFar()
    ensures !NoneNearer(WidePos(), Origin, Below(12), 1)
    ensures forall j: nat {:trigger D2(WidePos(), Origin, j)} :: j < 12 ==> D2(WidePos(), Origin, j) == 100.0
    ensures D2(WidePos(), Origin, 12) == 4.0
  {
    var pos := WidePos();
    assert pos[12] == Vec3(2.0, 0.0, 0.0);
    forall j: nat | j < 12
      ensures D2(pos, Origin, j) == 100.0
    {
      assert pos[j] == Vec3(10.0, 0.0, 0.0);
    }
    assert Closer(pos, Origin, Below(12), 4.0) == {};
    assert 12 !in Below(12);
  }

  /** With half-width 1 the search for one neighbour of the origin ends with a particle at distance 10, though one is at distance 2. */
  method MissedNeighbour() returns (l: seq<Near>)
    ensures |l| == 1 && l[0].ipar < 12 && l[0].d2 == D2(WidePos(), Origin, l[0].ipar) == 100.0 > D2(WidePos(), Origin, 12) == 4.0
    ensures !Exact(l, WidePos(), Origin, 1)
  {
    hide TreeOk, Packed, AllSnug, RadiiNonNegative, NoneNearer, D2, ReachedSet, WidePos, WideSml, Closer, Answer, Exact, ListOf, EnoughClose, Fills, FirstFilling;
    var pos, sml := seq(12, _ => Vec3(10.0, 0.0, 0.0)) + [Vec3(2.0, 0.0, 0.0)], seq(12, _ => 20.0) + [0.0];
    WideIs(pos, sml);
    var tree := new RTree(pos, sml);
    tree.Build();
    var neighbours, dist := new nat[1], new real[1];
    FillsIff(pos, sml, Origin, 1.0, 1);
    var n, nused, hint, h, k := tree.Neighbours(Origin, 1, 1.0, neighbours, dist);
    l := [Near(neighbours[0], dist[0])];
    assert l == Zip(neighbours[..1], dist[..1]);
    WideAnswer(l, k);
  }

  lemma WideIs(pos: seq<Vec3>, sml: seq<real>)
    requires pos == seq(12, _ => Vec3(10.0, 0.0, 0.0)) + [Vec3(2.0, 0.0, 0.0)] && sml == seq(12, _ => 20.0) + [0.0]
    ensures pos == WidePos() && sml == WideSml() && RadiiNonNegative(sml) && |pos| == |sml| == 13
  {
  }

  lemma WideAnswer(l: seq<Near>, k: nat)
    requires |WidePos()| == |WideSml()| && FirstFilling(WidePos(), WideSml(), Origin, 1.0, k, 1)
    requires ListOf(l, WidePos(), Origin, ReachedSet(WidePos(), WideSml(), Origin, OctreeBounds.Doubled(1.0, k)), 1)
    ensures |l| == 1 && l[0].ipar < 12 && l[0].d2 == D2(WidePos(), Origin, l[0].ipar) == 100.0 > D2(WidePos(), Origin, 12) == 4.0
    ensures !Exact(l, WidePos(), Origin, 1)
  {
    hide D2, ReachedSet, Closer, NoneNearer, Exact;
    WideMet();
    assert OctreeBounds.Doubled(1.0, 0) == 1.0;
    assert k == 0;
    WideFar();
    ExactIff(WidePos(), Origin, Below(12), 1, l);
    assert l[0].ipar in Below(12);
  }
}
