/** Cells, octants and particle lists of the octree in `raytrace.c`. */
module OctreeCells {
  import opened SegmentBox

  datatype Particle = Particle(pos: Vec3, sml: real, invalid: bool)

  /** One node of the pool; -1 stands for "none" as in the source. */
  datatype Cell = Cell(headPar: int, firstChild: int, parent: int, bot: Vec3, top: Vec3, npar: nat)

  /** The half-open box test. */
  predicate Inside(pos: Vec3, c: Cell) {
    && !(pos.x >= c.top.x || pos.x < c.bot.x)
    && !(pos.y >= c.top.y || pos.y < c.bot.y)
    && !(pos.z >= c.top.z || pos.z < c.bot.z)
  }

  predicate Proper(c: Cell) {
    c.bot.x < c.top.x && c.bot.y < c.top.y && c.bot.z < c.top.z
  }

  function Half(lo: real, hi: real): real {
    0.5 * (hi + lo)
  }

  /** Bit d of i: (1 << d) & i. */
  predicate Bit(i: nat, d: nat) {
    (match d case 0 => i case 1 => i / 2 case _ => i / 4) % 2 == 1
  }

  /** Child i of a cell being split. */
  function Child(c: Cell, icell: int, i: nat): Cell {
    var m := Vec3(Half(c.bot.x, c.top.x), Half(c.bot.y, c.top.y), Half(c.bot.z, c.top.z));
    Cell(-1, -1, icell,
         Vec3(if Bit(i, 0) then m.x else c.bot.x, if Bit(i, 1) then m.y else c.bot.y, if Bit(i, 2) then m.z else c.bot.z),
         Vec3(if Bit(i, 0) then c.top.x else m.x, if Bit(i, 1) then c.top.y else m.y, if Bit(i, 2) then c.top.z else m.z),
         0)
  }

  /** The octant of a proper cell that a position belongs to. */
  function WhichOctant(pos: Vec3, c: Cell): (i: nat)
    ensures i < 8
  {
    (if pos.x >= Half(c.bot.x, c.top.x) then 1 else 0)
    + (if pos.y >= Half(c.bot.y, c.top.y) then 2 else 0)
    + (if pos.z >= Half(c.bot.z, c.top.z) then 4 else 0)
  }

  /** The eight octants partition the cell. */
  lemma OctantsPartition(pos: Vec3, c: Cell, icell: int, i: nat)
    requires Proper(c) && Inside(pos, c) && i < 8
    ensures Inside(pos, Child(c, icell, i)) <==> i == WhichOctant(pos, c)
  {
    assert Bit(i, 0) <==> i == 1 || i == 3 || i == 5 || i == 7;
    assert Bit(i, 1) <==> i == 2 || i == 3 || i == 6 || i == 7;
    assert Bit(i, 2) <==> i == 4 || i == 5 || i == 6 || i == 7;
  }

  lemma ChildrenProper(c: Cell, icell: int, i: nat)
    requires Proper(c) && i < 8
    ensures Proper(Child(c, icell, i))
    ensures forall pos {:trigger Inside(pos, c)} :: Inside(pos, Child(c, icell, i)) ==> Inside(pos, c)
  {
  }

  /** The parent and child links of the pool form a tree rooted at cell 0, children after their parent. */
  ghost predicate Linked(pool: seq<Cell>) {
    && |pool| >= 1 && pool[0].parent == -1 && KidsLater(pool)
    && (forall c {:trigger pool[c]} :: 1 <= c < |pool| ==> ChildOf(pool, c, pool[c].parent))
    && (forall c, k {:trigger pool[c], pool[k]} :: 0 <= c < |pool| && 0 <= k < |pool| && ChildOf(pool, k, c) ==> pool[k].parent == c)
  }

  predicate KidsLater(pool: seq<Cell>) {
    forall c {:trigger pool[c]} :: 0 <= c < |pool| ==>
      pool[c].firstChild == -1 || (c < pool[c].firstChild && pool[c].firstChild + 8 <= |pool|)
  }

  ghost predicate ChildOf(pool: seq<Cell>, k: int, c: int) {
    0 <= c < k < |pool| && pool[c].firstChild != -1 && pool[c].firstChild <= k < pool[c].firstChild + 8
  }

  /** The boxes are those of the recursive subdivision. */
  ghost predicate Subdivided(pool: seq<Cell>) {
    && (forall c {:trigger pool[c]} :: 0 <= c < |pool| ==> Proper(pool[c]))
    && (forall c, k {:trigger pool[c], pool[k]} :: 0 <= c < |pool| && 0 <= k < |pool| && ChildOf(pool, k, c) ==>
          SameBox(pool[k], Child(pool[c], c, k - pool[c].firstChild)))
  }

  predicate SameBox(a: Cell, b: Cell) {
    a.bot == b.bot && a.top == b.top
  }

  /** The list of particles of a leaf, threaded through `next`. */
  ghost predicate Threaded(next: seq<int>, head: int, list: seq<nat>) {
    && head == (if list == [] then -1 else list[0])
    && forall k {:trigger list[k]} :: 0 <= k < |list| ==>
         list[k] < |next| && next[list[k]] == if k + 1 < |list| then list[k + 1] else -1
  }

  ghost predicate NoRepeat(list: seq<nat>) {
    forall j, k {:trigger list[j], list[k]} :: 0 <= j < k < |list| ==> list[j] != list[k]
  }

  /** Particles of cell c: threaded, inside it, at most ppc, and none in an inner cell. */
  ghost predicate Holds(par: seq<Particle>, c: Cell, next: seq<int>, list: seq<nat>, ppc: nat) {
    && Threaded(next, c.headPar, list) && NoRepeat(list) && c.npar == |list| <= ppc
    && (c.firstChild != -1 ==> list == [])
    && forall p {:trigger p in list} :: p in list ==> p < |par| && Inside(par[p].pos, c)
  }

  /** home[p] is the cell whose list has p, or -1. */
  ghost predicate Homed(lists: seq<seq<nat>>, home: seq<int>) {
    && (forall p {:trigger home[p]} :: 0 <= p < |home| ==> -1 <= home[p] < |lists| && (home[p] >= 0 ==> p in lists[home[p]]))
    && (forall c, p: nat {:trigger p in lists[c]} :: 0 <= c < |lists| && p in lists[c] ==> p < |home| && home[p] == c)
  }

  ghost predicate AllHold(par: seq<Particle>, pool: seq<Cell>, next: seq<int>, lists: seq<seq<nat>>, ppc: nat, skip: int) {
    && |lists| == |pool|
    && forall c {:trigger pool[c]} {:trigger lists[c]} :: 0 <= c < |pool| && c != skip ==> Holds(par, pool[c], next, lists[c], ppc)
  }

  // ----- Finding the leaf of a position

  /** The loop of `find`: the first child from i on that contains the position, or 8. */
  function FirstInside(pool: seq<Cell>, pos: Vec3, f: nat, i: nat): (r: nat)
    requires f + 8 <= |pool| && i <= 8
    ensures i <= r <= 8 && (r < 8 ==> Inside(pos, pool[f + r]))
    ensures forall q {:trigger pool[q]} :: f + i <= q < f + r ==> !Inside(pos, pool[q])
    decreases 8 - i
  {
    if i == 8 then 8 else if Inside(pos, pool[f + i]) then i else FirstInside(pool, pos, f, i + 1)
  }

  lemma InsideChild(pool: seq<Cell>, pos: Vec3, c: nat, k: nat)
    requires Subdivided(pool) && c < |pool| && k < |pool| && ChildOf(pool, k, c)
    ensures Inside(pos, pool[k]) ==> Inside(pos, pool[c])
    ensures Inside(pos, pool[c]) ==> (Inside(pos, pool[k]) <==> k - pool[c].firstChild == WhichOctant(pos, pool[c]))
  {
    var i := k - pool[c].firstChild;
    assert SameBox(pool[k], Child(pool[c], c, i));
    ChildrenProper(pool[c], c, i);
    if Inside(pos, pool[c]) {
      OctantsPartition(pos, pool[c], c, i);
    }
  }

  lemma ChildLinks(pool: seq<Cell>, c: nat, i: nat)
    requires Linked(pool) && c < |pool| && pool[c].firstChild != -1 && i < 8
    ensures c < pool[c].firstChild && pool[c].firstChild + 8 <= |pool|
    ensures ChildOf(pool, pool[c].firstChild + i, c) && pool[pool[c].firstChild + i].parent == c
  {
  }

  lemma ParentLinks(pool: seq<Cell>, c: nat)
    requires Linked(pool) && 0 < c < |pool|
    ensures ChildOf(pool, c, pool[c].parent)
  {
  }

  lemma FirstInsideIsOctant(pool: seq<Cell>, pos: Vec3, c: nat)
    requires Linked(pool) && Subdivided(pool) && c < |pool| && pool[c].firstChild != -1 && Inside(pos, pool[c])
    ensures FirstInside(pool, pos, pool[c].firstChild, 0) == WhichOctant(pos, pool[c])
  {
    hide Linked, Subdivided, WhichOctant, Inside, FirstInside;
    var f := pool[c].firstChild;
    var w := WhichOctant(pos, pool[c]);
    ChildLinks(pool, c, w);
    InsideChild(pool, pos, c, f + w);
    var r := FirstInside(pool, pos, f, 0);
    assert r <= w by {
      assert Inside(pos, pool[f + w]);
    }
    ChildLinks(pool, c, r);
    InsideChild(pool, pos, c, f + r);
  }

  /** `find`; -1 stands for its error exit, taken when no child contains the position. */
  function Find(pool: seq<Cell>, pos: Vec3, c: nat): int
    requires KidsLater(pool) && c < |pool|
    decreases |pool| - c
  {
    if pool[c].firstChild == -1 then c
    else
      var i := FirstInside(pool, pos, pool[c].firstChild, 0);
      if i < 8 then Find(pool, pos, pool[c].firstChild + i) else -1
  }

  lemma LaterKids(pool: seq<Cell>)
    requires Linked(pool)
    ensures KidsLater(pool)
  {
  }

  lemma FindStep(pool: seq<Cell>, pos: Vec3, c: nat)
    requires Linked(pool) && Subdivided(pool) && c < |pool| && pool[c].firstChild != -1 && Inside(pos, pool[c])
    ensures c < pool[c].firstChild && pool[c].firstChild + 8 <= |pool|
    ensures var i := FirstInside(pool, pos, pool[c].firstChild, 0); i < 8 && Inside(pos, pool[pool[c].firstChild + i])
  {
    hide Linked, Subdivided, WhichOctant, Inside;
    ChildLinks(pool, c, 0);
    FirstInsideIsOctant(pool, pos, c);
  }

  /** From a cell that contains the position the error exit is never taken: `find` ends in a leaf that contains it. */
  lemma {:induction false} FindsLeaf(pool: seq<Cell>, pos: Vec3, c: nat)
    requires KidsLater(pool) && Linked(pool) && Subdivided(pool) && c < |pool| && Inside(pos, pool[c])
    ensures var leaf := Find(pool, pos, c); c <= leaf < |pool| && pool[leaf].firstChild == -1 && Inside(pos, pool[leaf])
    decreases |pool| - c
  {
    hide Linked, Subdivided, Inside, FirstInside;
    if pool[c].firstChild != -1 {
      FindStep(pool, pos, c);
      FindsLeaf(pool, pos, pool[c].firstChild + FirstInside(pool, pos, pool[c].firstChild, 0));
    }
  }

  /** Going up: the search from any cell around a position gives the leaf found from the root. */
  lemma {:induction false} FindFromRoot(pool: seq<Cell>, pos: Vec3, c: nat)
    requires KidsLater(pool) && Linked(pool) && Subdivided(pool) && c < |pool| && Inside(pos, pool[c])
    ensures Inside(pos, pool[0]) && Find(pool, pos, 0) == Find(pool, pos, c)
  {
    hide Linked, Subdivided, WhichOctant, Inside, FirstInside;
    if c > 0 {
      var p := pool[c].parent;
      ParentLinks(pool, c);
      InsideChild(pool, pos, p, c);
      FirstInsideIsOctant(pool, pos, p);
      FindFromRoot(pool, pos, p);
    }
  }

  /** Exactly one leaf contains a position inside the root box. */
  lemma LeafUnique(pool: seq<Cell>, pos: Vec3, l: nat)
    requires KidsLater(pool) && Linked(pool) && Subdivided(pool) && l < |pool| && pool[l].firstChild == -1
    ensures Inside(pos, pool[l]) <==> Inside(pos, pool[0]) && l == Find(pool, pos, 0)
  {
    hide Linked, Subdivided, Inside, FirstInside;
    if Inside(pos, pool[l]) {
      FindFromRoot(pool, pos, l);
    } else if Inside(pos, pool[0]) {
      FindsLeaf(pool, pos, 0);
    }
  }
}
