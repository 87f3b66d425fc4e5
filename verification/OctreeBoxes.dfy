/** The bounding boxes of the octree: what the bottom-up sweeps of `rt_switch_epoch` leave in each cell. */
module OctreeBoxes {
  import opened SegmentBox
  import opened OctreeCells
  import opened OctreeFilling

  datatype Box = Box(bot: Vec3, top: Vec3)

  function BoxOf(c: Cell): Box {
    Box(c.bot, c.top)
  }

  function WithBox(c: Cell, b: Box): Cell {
    c.(bot := b.bot, top := b.top)
  }

  /** The kernel cube of a particle. */
  function Cube(p: Particle): Box {
    Box(Vec3(p.pos.x - p.sml, p.pos.y - p.sml, p.pos.z - p.sml), Vec3(p.pos.x + p.sml, p.pos.y + p.sml, p.pos.z + p.sml))
  }

  function Lower(first: bool, v: real, b: real): real {
    if first || v < b then v else b
  }

  function Upper(first: bool, v: real, t: real): real {
    if first || v > t then v else t
  }

  /** The first item replaces the box, later ones stretch it. */
  function Stretch(b: Box, first: bool, item: Box): Box {
    Box(Vec3(Lower(first, item.bot.x, b.bot.x), Lower(first, item.bot.y, b.bot.y), Lower(first, item.bot.z, b.bot.z)),
        Vec3(Upper(first, item.top.x, b.top.x), Upper(first, item.top.y, b.top.y), Upper(first, item.top.z, b.top.z)))
  }

  predicate Within(a: Box, b: Box) {
    && b.bot.x <= a.bot.x && b.bot.y <= a.bot.y && b.bot.z <= a.bot.z
    && a.top.x <= b.top.x && a.top.y <= b.top.y && a.top.z <= b.top.z
  }

  predicate Ordered(b: Box) {
    b.bot.x <= b.top.x && b.bot.y <= b.top.y && b.bot.z <= b.top.z
  }

  /** The box b after the first n of the items. */
  function Fold(b: Box, items: seq<Box>, n: nat): Box
    requires n <= |items|
  {
    if n == 0 then b else Stretch(Fold(b, items, n - 1), n == 1, items[n - 1])
  }

  /** The fold of some boxes is the smallest box that contains them all. */
  lemma {:induction false} FoldIsHull(b: Box, items: seq<Box>, n: nat)
    requires n <= |items|
    ensures forall k {:trigger items[k]} :: 0 <= k < n ==> Within(items[k], Fold(b, items, n))
    ensures forall h {:trigger Within(Fold(b, items, n), h)} :: n > 0 && (forall k {:trigger items[k]} :: 0 <= k < n ==> Within(items[k], h)) ==> Within(Fold(b, items, n), h)
    ensures n > 0 && (forall k {:trigger items[k]} :: 0 <= k < n ==> Ordered(items[k])) ==> Ordered(Fold(b, items, n))
  {
    if n > 0 {
      FoldIsHull(b, items, n - 1);
      forall h | forall k {:trigger items[k]} :: 0 <= k < n ==> Within(items[k], h)
        ensures Within(Fold(b, items, n), h)
      {
        assert Within(items[n - 1], h);
        assert n > 1 ==> Within(Fold(b, items, n - 1), h);
      }
      if forall k {:trigger items[k]} :: 0 <= k < n ==> Ordered(items[k]) {
        assert Ordered(items[n - 1]);
      }
    }
  }

  ghost predicate ListsFit(par: seq<Particle>, pool: seq<Cell>, lists: seq<seq<nat>>) {
    |lists| == |pool| && forall c {:trigger lists[c]} :: 0 <= c < |lists| ==> ListFits(par, lists[c])
  }

  ghost predicate ListFits(par: seq<Particle>, list: seq<nat>) {
    forall k {:trigger list[k]} :: 0 <= k < |list| ==> list[k] < |par|
  }

  ghost function Cubes(par: seq<Particle>, list: seq<nat>): (r: seq<Box>)
    requires ListFits(par, list)
    ensures |r| == |list| && forall k {:trigger r[k]} :: 0 <= k < |r| ==> r[k] == Cube(par[list[k]])
  {
    seq(|list|, k requires 0 <= k < |list| => Cube(par[list[k]]))
  }

  /** The bounding box of cell c; pool still has the octant boxes of the subdivision. */
  ghost function Aabb(par: seq<Particle>, pool: seq<Cell>, lists: seq<seq<nat>>, c: nat): Box
    requires Linked(pool) && ListsFit(par, pool, lists) && c < |pool|
    decreases |pool| - c, 9
  {
    if pool[c].firstChild == -1 then
      Fold(BoxOf(pool[c]), Cubes(par, lists[c]), |lists[c]|)
    else
      Fold(BoxOf(pool[c]), Kids(par, pool, lists, c, 8), 8)
  }

  /** The bounding boxes of the first n children. */
  ghost function Kids(par: seq<Particle>, pool: seq<Cell>, lists: seq<seq<nat>>, c: nat, n: nat): (r: seq<Box>)
    requires Linked(pool) && ListsFit(par, pool, lists) && c < |pool| && pool[c].firstChild != -1 && n <= 8
    ensures |r| == n
    decreases |pool| - c, n
  {
    if n == 0 then [] else Kids(par, pool, lists, c, n - 1) + [Aabb(par, pool, lists, pool[c].firstChild + n - 1)]
  }

  lemma {:induction false} KidsAt(par: seq<Particle>, pool: seq<Cell>, lists: seq<seq<nat>>, c: nat, n: nat)
    requires Linked(pool) && ListsFit(par, pool, lists) && c < |pool| && pool[c].firstChild != -1 && n <= 8
    ensures pool[c].firstChild + 8 <= |pool| && pool[c].firstChild >= 0
    ensures forall i {:trigger Kids(par, pool, lists, c, n)[i]} :: 0 <= i < n ==> Kids(par, pool, lists, c, n)[i] == Aabb(par, pool, lists, pool[c].firstChild + i)
  {
    if n > 0 {
      KidsAt(par, pool, lists, c, n - 1);
    }
  }

  // ----- The sweeps

  /** How many of the first n children of a cell have their box. */
  ghost function CountReady(ready: set<nat>, f: nat, n: nat): (r: nat)
    ensures r <= n
    ensures r == n <==> forall x: nat {:trigger x in ready} :: f <= x < f + n ==> x in ready
  {
    if n == 0 then 0 else
      CountReady(ready, f, n - 1) + if f + n - 1 in ready then 1 else 0
  }

  lemma {:induction false} CountReadyAdd(ready: set<nat>, f: nat, n: nat, c: nat)
    requires c !in ready
    ensures CountReady(ready + {c}, f, n) == CountReady(ready, f, n) + if f <= c < f + n then 1 else 0
  {
    if n > 0 {
      CountReadyAdd(ready, f, n - 1, c);
    }
  }

  /** The value of child_done for a cell. */
  ghost function ChildDone(pool: seq<Cell>, ready: set<nat>, c: nat): nat
    requires c < |pool|
  {
    if c in ready then 0 else if pool[c].firstChild < 0 then 8 else CountReady(ready, pool[c].firstChild, 8)
  }

  /** The cells in `ready` have their boxes, after all their children; the others still have the octant boxes. */
  ghost predicate Swept(par: seq<Particle>, pool0: seq<Cell>, lists: seq<seq<nat>>, pool: seq<Cell>, childDone: seq<nat>, ready: set<nat>)
    requires Linked(pool0) && ListsFit(par, pool0, lists)
  {
    && |pool| == |pool0| == |childDone|
    && (forall c {:trigger c in ready} :: c in ready ==> c < |pool| && KidsReady(pool0, ready, c))
    && (forall c {:trigger pool[c]} :: 0 <= c < |pool| ==> pool[c] == if c in ready then WithBox(pool0[c], Aabb(par, pool0, lists, c)) else pool0[c])
    && (forall c {:trigger childDone[c]} :: 0 <= c < |pool| ==> childDone[c] == ChildDone(pool0, ready, c))
  }

  ghost predicate KidsReady(pool: seq<Cell>, ready: set<nat>, c: nat) {
    c < |pool| && (pool[c].firstChild >= 0 ==> CountReady(ready, pool[c].firstChild, 8) == 8)
  }

  lemma CanProcess(pool: seq<Cell>, ready: set<nat>, c: nat)
    requires Linked(pool) && c < |pool| && ChildDone(pool, ready, c) == 8
    ensures c !in ready && KidsReady(pool, ready, c)
  {
  }

  /** The unready cell with the largest index can be processed: its children come later in the pool. */
  lemma LastCanProcess(pool: seq<Cell>, ready: set<nat>, c: nat)
    requires Linked(pool) && c < |pool| && c !in ready && forall k {:trigger k in ready} :: c < k < |pool| ==> k in ready
    ensures ChildDone(pool, ready, c) == 8
  {
  }

  lemma {:induction false} LastUnready(ready: set<nat>, n: nat) returns (c: nat)
    requires |ready| < n
    ensures c < n && c !in ready && forall k {:trigger k in ready} :: c < k < n ==> k in ready
  {
    if n - 1 in ready {
      c := LastUnready(ready - {n - 1}, n - 1);
    } else {
      c := n - 1;
    }
  }

  lemma SubsetSize(a: set<nat>, b: set<nat>)
    requires a <= b
    ensures |a| <= |b| && (|a| == |b| ==> a == b)
  {
    assert b == a + (b - a);
  }

  /** child_done after a cell is processed. */
  function Credited(childDone: seq<nat>, c: nat, parent: int): seq<nat>
    requires c < |childDone| && (c != 0 ==> 0 <= parent < |childDone|)
  {
    var d := childDone[c := 0];
    if c != 0 then d[parent := d[parent] + 1] else d
  }

  lemma ParentIff(pool: seq<Cell>, x: nat, c: nat)
    requires Linked(pool) && x < |pool| && c < |pool| && pool[x].firstChild >= 0
    ensures pool[x].firstChild <= c < pool[x].firstChild + 8 <==> c != 0 && pool[c].parent == x
  {
    if c != 0 {
      ParentLinks(pool, c);
    }
    if pool[x].firstChild <= c < pool[x].firstChild + 8 {
      ChildLinks(pool, x, c - pool[x].firstChild);
    }
  }

  lemma NoKids(pool: seq<Cell>, x: nat, c: nat)
    requires Linked(pool) && x < |pool| && 0 < c < |pool| && pool[x].firstChild < 0
    ensures pool[c].parent != x
  {
    ParentLinks(pool, c);
  }

  lemma ProcessCounts(pool: seq<Cell>, childDone: seq<nat>, ready: set<nat>, c: nat, x: nat)
    requires Linked(pool) && |childDone| == |pool| && c < |pool| && c !in ready && KidsReady(pool, ready, c) && x < |pool|
    requires x in ready ==> KidsReady(pool, ready, x)
    requires childDone[x] == ChildDone(pool, ready, x)
    requires c != 0 ==> 0 <= pool[c].parent < c
    ensures |Credited(childDone, c, pool[c].parent)| == |pool|
    ensures Credited(childDone, c, pool[c].parent)[x] == ChildDone(pool, ready + {c}, x)
    ensures x in ready + {c} ==> KidsReady(pool, ready + {c}, x)
  {
    hide Linked, CountReady;
    if pool[x].firstChild >= 0 {
      CountReadyAdd(ready, pool[x].firstChild, 8, c);
      ParentIff(pool, x, c);
    } else if c != 0 {
      NoKids(pool, x, c);
    }
  }

  lemma ProcessKeeps(par: seq<Particle>, pool0: seq<Cell>, lists: seq<seq<nat>>, pool: seq<Cell>, childDone: seq<nat>, ready: set<nat>, c: nat)
    requires Linked(pool0) && ListsFit(par, pool0, lists)
    requires Swept(par, pool0, lists, pool, childDone, ready) && c < |pool| && childDone[c] == 8
    ensures c !in ready && pool[c] == pool0[c] && (c != 0 ==> 0 <= pool0[c].parent < c)
    ensures Swept(par, pool0, lists, pool[c := WithBox(pool0[c], Aabb(par, pool0, lists, c))], Credited(childDone, c, pool0[c].parent), ready + {c})
  {
    hide Linked, ListsFit, KidsReady, ChildDone, Credited, Aabb, WithBox;
    CanProcess(pool0, ready, c);
    if c > 0 {
      ParentLinks(pool0, c);
    }
    CreditedLength(childDone, c, pool0[c].parent);
    forall x: nat | x < |pool|
      ensures Credited(childDone, c, pool0[c].parent)[x] == ChildDone(pool0, ready + {c}, x)
      ensures x in ready + {c} ==> KidsReady(pool0, ready + {c}, x)
    {
      ProcessCounts(pool0, childDone, ready, c, x);
    }
  }

  lemma CreditedLength(childDone: seq<nat>, c: nat, parent: int)
    requires c < |childDone| && (c != 0 ==> 0 <= parent < |childDone|)
    ensures |Credited(childDone, c, parent)| == |childDone|
  {
  }

  /** The boxes already in the pool of the children of a cell that can be processed. */
  ghost function StoredKids(pool: seq<Cell>, f: nat): (r: seq<Box>)
    requires f + 8 <= |pool|
    ensures |r| == 8 && forall i {:trigger r[i]} :: 0 <= i < 8 ==> r[i] == BoxOf(pool[f + i])
  {
    seq(8, i requires 0 <= i < 8 => BoxOf(pool[f + i]))
  }

  lemma KidIsReady(pool: seq<Cell>, ready: set<nat>, c: nat, k: nat)
    requires KidsReady(pool, ready, c) && pool[c].firstChild >= 0 && pool[c].firstChild <= k < pool[c].firstChild + 8
    ensures k in ready
  {
  }

  lemma StoredAreKids(par: seq<Particle>, pool0: seq<Cell>, lists: seq<seq<nat>>, pool: seq<Cell>, childDone: seq<nat>, ready: set<nat>, c: nat)
    requires Linked(pool0) && ListsFit(par, pool0, lists)
    requires Swept(par, pool0, lists, pool, childDone, ready) && c < |pool| && childDone[c] == 8 && pool0[c].firstChild != -1
    ensures c < pool0[c].firstChild && pool0[c].firstChild + 8 <= |pool|
    ensures StoredKids(pool, pool0[c].firstChild) == Kids(par, pool0, lists, c, 8)
  {
    hide Aabb, Kids, Linked, ListsFit, KidsReady, ChildDone;
    CanProcess(pool0, ready, c);
    KidsAt(par, pool0, lists, c, 8);
    ChildLinks(pool0, c, 0);
    var f := pool0[c].firstChild;
    forall i: nat | i < 8
      ensures StoredKids(pool, f)[i] == Kids(par, pool0, lists, c, 8)[i]
    {
      KidIsReady(pool0, ready, c, f + i);
      assert pool[f + i] == WithBox(pool0[f + i], Aabb(par, pool0, lists, f + i));
    }
  }

  // ----- What the boxes mean

  /** Leaves contain the kernel cubes of their particles, cells contain the boxes of their children. */
  ghost predicate Nested(par: seq<Particle>, pool: seq<Cell>, lists: seq<seq<nat>>) {
    && |lists| == |pool|
    && (forall c, k {:trigger lists[c][k]} :: 0 <= c < |pool| && pool[c].firstChild == -1 && 0 <= k < |lists[c]| ==>
          lists[c][k] < |par| && Within(Cube(par[lists[c][k]]), BoxOf(pool[c])))
    && (forall c, k {:trigger ChildOf(pool, k, c)} :: ChildOf(pool, k, c) ==> Within(BoxOf(pool[k]), BoxOf(pool[c])))
  }

  ghost predicate AllOrdered(pool: seq<Cell>) {
    forall c {:trigger pool[c]} :: 0 <= c < |pool| ==> Ordered(BoxOf(pool[c]))
  }

  ghost predicate SmlNonNegative(par: seq<Particle>) {
    forall p {:trigger par[p]} :: 0 <= p < |par| ==> par[p].sml >= 0.0
  }

  /** Every cell has its bounding box, and nothing else changed. */
  ghost predicate HasBoxes(par: seq<Particle>, pool0: seq<Cell>, lists: seq<seq<nat>>, pool: seq<Cell>)
    requires Linked(pool0) && ListsFit(par, pool0, lists)
  {
    |pool| == |pool0| && forall c {:trigger pool[c]} :: 0 <= c < |pool| ==> pool[c] == WithBox(pool0[c], Aabb(par, pool0, lists, c))
  }

  lemma BoxesNest(par: seq<Particle>, pool0: seq<Cell>, lists: seq<seq<nat>>, pool: seq<Cell>)
    requires Linked(pool0) && ListsFit(par, pool0, lists) && HasBoxes(par, pool0, lists, pool)
    ensures Nested(par, pool, lists)
  {
    hide Within, Fold, Cube;
    forall c, k | 0 <= c < |pool| && pool[c].firstChild == -1 && 0 <= k < |lists[c]|
      ensures lists[c][k] < |par| && Within(Cube(par[lists[c][k]]), BoxOf(pool[c]))
    {
      assert ListFits(par, lists[c]);
      var items := Cubes(par, lists[c]);
      FoldIsHull(BoxOf(pool0[c]), items, |lists[c]|);
      assert Within(items[k], Fold(BoxOf(pool0[c]), items, |lists[c]|));
    }
    forall c, k | ChildOf(pool, k, c)
      ensures Within(BoxOf(pool[k]), BoxOf(pool[c]))
    {
      KidsAt(par, pool0, lists, c, 8);
      var items := Kids(par, pool0, lists, c, 8);
      FoldIsHull(BoxOf(pool0[c]), items, 8);
      assert Within(items[k - pool0[c].firstChild], Fold(BoxOf(pool0[c]), items, 8));
    }
  }

  lemma LeafOrdered(par: seq<Particle>, c: Cell, list: seq<nat>)
    requires Proper(c) && ListFits(par, list) && SmlNonNegative(par)
    ensures Ordered(Fold(BoxOf(c), Cubes(par, list), |list|))
  {
    hide Within, Fold;
    var items := Cubes(par, list);
    forall k | 0 <= k < |items|
      ensures Ordered(items[k])
    {
      assert items[k] == Cube(par[list[k]]);
    }
    FoldIsHull(BoxOf(c), items, |list|);
    FoldNone(BoxOf(c), items);
  }

  lemma {:induction false} AabbOrdered(par: seq<Particle>, pool: seq<Cell>, lists: seq<seq<nat>>, c: nat)
    requires Linked(pool) && Subdivided(pool) && ListsFit(par, pool, lists) && SmlNonNegative(par) && c < |pool|
    ensures Ordered(Aabb(par, pool, lists, c))
    decreases |pool| - c
  {
    hide Linked, Subdivided, SmlNonNegative, Ordered, Within, Fold, Kids;
    IsProper(pool, c);
    if pool[c].firstChild == -1 {
      LeafOrdered(par, pool[c], lists[c]);
    } else {
      var items := Kids(par, pool, lists, c, 8);
      KidsAt(par, pool, lists, c, 8);
      ChildLinks(pool, c, 0);
      forall i: nat | i < 8
        ensures Ordered(items[i])
      {
        AabbOrdered(par, pool, lists, pool[c].firstChild + i);
      }
      FoldIsHull(BoxOf(pool[c]), items, 8);
    }
  }

  lemma IsProper(pool: seq<Cell>, c: nat)
    requires Subdivided(pool) && c < |pool|
    ensures Proper(pool[c])
  {
  }

  lemma FoldNone(b: Box, items: seq<Box>)
    ensures Fold(b, items, 0) == b
  {
  }

  lemma BoxesOrdered(par: seq<Particle>, pool0: seq<Cell>, lists: seq<seq<nat>>, pool: seq<Cell>)
    requires Linked(pool0) && Subdivided(pool0) && ListsFit(par, pool0, lists) && SmlNonNegative(par) && HasBoxes(par, pool0, lists, pool)
    ensures AllOrdered(pool)
  {
    forall c | 0 <= c < |pool|
      ensures Ordered(BoxOf(pool[c]))
    {
      AabbOrdered(par, pool0, lists, c);
    }
  }
}
