/** Why the octree build ends, and when it does not: how deep particles that do not coincide can push the subdivision. */
module OctreeBounds {
  import opened Sums
  import opened SegmentBox
  import opened OctreeCells
  import opened OctreeFilling

  predicate InRoot(pos: Vec3, boxsize: real) {
    0.0 <= pos.x < boxsize && 0.0 <= pos.y < boxsize && 0.0 <= pos.z < boxsize
  }

  ghost predicate AllInRoot(par: seq<Particle>, l: seq<nat>, boxsize: real) {
    forall k {:trigger l[k]} :: 0 <= k < |l| ==> l[k] < |par| && InRoot(par[l[k]].pos, boxsize)
  }

  ghost predicate Coincident(par: seq<Particle>, l: seq<nat>, boxsize: real) {
    AllInRoot(par, l, boxsize) && forall k {:trigger l[k]} :: 0 <= k < |l| ==> par[l[k]].pos == par[l[0]].pos
  }

  /** At most ppc particles share a position inside the root box. */
  ghost predicate NotCrowded(par: seq<Particle>, boxsize: real, ppc: nat) {
    forall l: seq<nat> {:trigger Coincident(par, l, boxsize)} :: NoRepeat(l) && Coincident(par, l, boxsize) ==> |l| <= ppc
  }

  /** w doubled d times. */
  function Doubled(w: real, d: nat): real {
    if d == 0 then w else 2.0 * Doubled(w, d - 1)
  }

  lemma {:induction false} DoubledOrder(v: real, w: real, d: nat)
    ensures v < w ==> Doubled(v, d) < Doubled(w, d)
  {
    if d > 0 {
      DoubledOrder(v, w, d - 1);
    }
  }

  lemma {:induction false} DoubledGrows(w: real, d: nat, e: nat)
    requires w >= 0.0 && d <= e
    ensures Doubled(w, e) >= Doubled(w, d) >= 0.0
  {
    if d < e {
      DoubledGrows(w, d, e - 1);
    } else if d > 0 {
      DoubledGrows(w, d - 1, e - 1);
    }
  }

  lemma {:induction false} DoubledHalf(v: real, w: real, d: nat)
    requires w == 2.0 * v
    ensures Doubled(v, d + 1) == Doubled(w, d)
  {
    if d > 0 {
      DoubledHalf(v, w, d - 1);
    }
  }

  /** The sides of the cell are boxsize / 2^d. */
  predicate Wide(c: Cell, boxsize: real, d: nat) {
    Doubled(c.top.x - c.bot.x, d) == boxsize && Doubled(c.top.y - c.bot.y, d) == boxsize && Doubled(c.top.z - c.bot.z, d) == boxsize
  }

  predicate FarOn(a: real, b: real, boxsize: real, d: nat) {
    Doubled(a - b, d) >= boxsize || Doubled(b - a, d) >= boxsize
  }

  /** Some coordinate differs by at least boxsize / 2^d. */
  predicate Far(p: Vec3, q: Vec3, boxsize: real, d: nat) {
    FarOn(p.x, q.x, boxsize, d) || FarOn(p.y, q.y, boxsize, d) || FarOn(p.z, q.z, boxsize, d)
  }

  lemma {:induction false} NotFarInSlab(a: real, b: real, lo: real, hi: real, boxsize: real, d: nat, e: nat)
    requires lo <= a < hi && lo <= b < hi && Doubled(hi - lo, d) == boxsize && e <= d
    ensures !FarOn(a, b, boxsize, e)
  {
    DoubledOrder(a - b, hi - lo, e);
    DoubledOrder(b - a, hi - lo, e);
    DoubledGrows(hi - lo, e, d);
  }

  /** Two positions in one cell at depth d are not as far apart as the cells of a depth up to d are wide. */
  lemma NotFarInCell(p: Vec3, q: Vec3, c: Cell, boxsize: real, d: nat, e: nat)
    requires Inside(p, c) && Inside(q, c) && Wide(c, boxsize, d) && e <= d
    ensures !Far(p, q, boxsize, e)
  {
    hide FarOn;
    NotFarInSlab(p.x, q.x, c.bot.x, c.top.x, boxsize, d, e);
    NotFarInSlab(p.y, q.y, c.bot.y, c.top.y, boxsize, d, e);
    NotFarInSlab(p.z, q.z, c.bot.z, c.top.z, boxsize, d, e);
  }

  lemma ChildWide(c: Cell, boxsize: real, d: nat, icell: int, i: nat, k: Cell)
    requires Wide(c, boxsize, d) && i < 8 && SameBox(k, Child(c, icell, i))
    ensures Wide(k, boxsize, d + 1)
  {
    hide Doubled;
    DoubledHalf(k.top.x - k.bot.x, c.top.x - c.bot.x, d);
    DoubledHalf(k.top.y - k.bot.y, c.top.y - c.bot.y, d);
    DoubledHalf(k.top.z - k.bot.z, c.top.z - c.bot.z, d);
  }

  // ----- Particles that do not coincide are some distance apart

  /** Positions of particles below m and n that differ, differ by at least gap on some axis. */
  ghost predicate Gap(par: seq<Particle>, m: nat, n: nat, gap: real)
    requires m <= |par| && n <= |par|
  {
    gap > 0.0 && forall p, q {:trigger par[p], par[q]} :: 0 <= p < m && 0 <= q < n ==> Spaced(par[p].pos, par[q].pos, gap)
  }

  predicate Spaced(p: Vec3, q: Vec3, gap: real) {
    p == q || p.x - q.x >= gap || q.x - p.x >= gap || p.y - q.y >= gap || q.y - p.y >= gap || p.z - q.z >= gap || q.z - p.z >= gap
  }

  function AbsDiff(a: real, b: real): real {
    if a < b then b - a else a - b
  }

  lemma PairGap(p: Vec3, q: Vec3) returns (gap: real)
    ensures gap > 0.0 && Spaced(p, q, gap)
  {
    gap := if p == q then 1.0 else if p.x != q.x then AbsDiff(p.x, q.x) else if p.y != q.y then AbsDiff(p.y, q.y) else AbsDiff(p.z, q.z);
  }

  lemma {:induction false} RowGap(par: seq<Particle>, p: nat, n: nat) returns (gap: real)
    requires p < |par| && n <= |par|
    ensures gap > 0.0 && forall q {:trigger par[q]} :: 0 <= q < n ==> Spaced(par[p].pos, par[q].pos, gap)
  {
    if n == 0 {
      gap := 1.0;
    } else {
      var g := RowGap(par, p, n - 1);
      var h := PairGap(par[p].pos, par[n - 1].pos);
      gap := if g < h then g else h;
    }
  }

  lemma {:induction false} SomeGap(par: seq<Particle>, m: nat) returns (gap: real)
    requires m <= |par|
    ensures Gap(par, m, |par|, gap)
  {
    if m == 0 {
      gap := 1.0;
    } else {
      var g := SomeGap(par, m - 1);
      var h := RowGap(par, m - 1, |par|);
      gap := if g < h then g else h;
    }
  }

  lemma {:induction false} DoubledLinear(w: real, n: nat)
    requires w >= 0.0
    ensures Doubled(w, n) >= n as real * w && Doubled(w, n) >= w
  {
    if n > 0 {
      DoubledLinear(w, n - 1);
      assert n as real * w == (n - 1) as real * w + w;
    }
  }

  lemma DeepEnough(gap: real, boxsize: real) returns (d: nat)
    requires gap > 0.0 && boxsize > 0.0
    ensures Doubled(gap, d) >= boxsize
  {
    hide Doubled;
    var ratio := boxsize / gap;
    assert ratio > 0.0 && ratio * gap == boxsize;
    d := ratio.Floor + 1;
    assert ratio <= d as real;
    Scale(ratio, d as real, gap);
    assert boxsize <= d as real * gap;
    DoubledLinear(gap, d);
  }

  lemma Scale(a: real, b: real, g: real)
    requires a <= b && g >= 0.0
    ensures a * g <= b * g
  {
    assert (b - a) * g >= 0.0;
  }

  lemma {:induction false} DoubledMonotone(v: real, w: real, d: nat)
    requires v <= w
    ensures Doubled(v, d) <= Doubled(w, d)
  {
    if d > 0 {
      DoubledMonotone(v, w, d - 1);
    }
  }

  lemma SpacedFar(p: Vec3, q: Vec3, gap: real, boxsize: real, d: nat)
    requires Spaced(p, q, gap) && p != q && Doubled(gap, d) >= boxsize
    ensures Far(p, q, boxsize, d)
  {
    hide Doubled;
    if p.x - q.x >= gap {
      DoubledMonotone(gap, p.x - q.x, d);
    } else if q.x - p.x >= gap {
      DoubledMonotone(gap, q.x - p.x, d);
    } else if p.y - q.y >= gap {
      DoubledMonotone(gap, p.y - q.y, d);
    } else if q.y - p.y >= gap {
      DoubledMonotone(gap, q.y - p.y, d);
    } else if p.z - q.z >= gap {
      DoubledMonotone(gap, p.z - q.z, d);
    } else {
      DoubledMonotone(gap, q.z - p.z, d);
    }
  }

  /** Among any ppc + 1 particles two are at least boxsize / 2^depth apart. */
  ghost predicate Spread(par: seq<Particle>, boxsize: real, ppc: nat, depth: nat) {
    forall l: seq<nat> {:trigger AllInRoot(par, l, boxsize)} :: NoRepeat(l) && AllInRoot(par, l, boxsize) && |l| > ppc ==> SomeFar(par, l, boxsize, depth)
  }

  ghost predicate SomeFar(par: seq<Particle>, l: seq<nat>, boxsize: real, depth: nat) {
    exists k {:trigger l[k]} :: 0 <= k < |l| && l[k] < |par| && l[0] < |par| && Far(par[l[k]].pos, par[l[0]].pos, boxsize, depth)
  }

  /** Particles that are not too many at one point are spread out at some depth. */
  lemma SpreadOut(par: seq<Particle>, boxsize: real, ppc: nat) returns (depth: nat)
    requires boxsize > 0.0 && NotCrowded(par, boxsize, ppc)
    ensures Spread(par, boxsize, ppc, depth)
  {
    hide Far, Spaced, NoRepeat, InRoot;
    var gap := SomeGap(par, |par|);
    depth := DeepEnough(gap, boxsize);
    forall l: seq<nat> | NoRepeat(l) && AllInRoot(par, l, boxsize) && |l| > ppc
      ensures SomeFar(par, l, boxsize, depth)
    {
      assert !Coincident(par, l, boxsize);
      var k :| 0 <= k < |l| && par[l[k]].pos != par[l[0]].pos;
      SpacedFar(par[l[k]].pos, par[l[0]].pos, gap, boxsize, depth);
    }
  }

  // ----- How many cells there can be

  /** Cells that can still be made below a leaf at depth d when only cells above `depth` are split. */
  function Room(d: nat, depth: nat): nat
    decreases depth - d
  {
    if d >= depth then 0 else 8 + 8 * Room(d + 1, depth)
  }

  /** The cells made plus the room left below the leaves is the full tree, whatever has been split so far. */
  ghost predicate Budget(pool: seq<Cell>, level: seq<nat>, room: seq<nat>, boxsize: real, depth: nat) {
    && |level| == |room| == |pool|
    && (forall c {:trigger level[c]} {:trigger pool[c]} :: 0 <= c < |pool| ==> Wide(pool[c], boxsize, level[c]))
    && (forall c {:trigger room[c]} {:trigger pool[c]} :: 0 <= c < |pool| && pool[c].firstChild == -1 ==> room[c] == Room(level[c], depth))
    && Sum(room) + |pool| == 1 + Room(0, depth)
  }

  lemma BudgetStart(pool: seq<Cell>, boxsize: real, depth: nat)
    requires |pool| == 1 && pool[0].bot == Vec3(0.0, 0.0, 0.0) && pool[0].top == Vec3(boxsize, boxsize, boxsize)
    ensures Budget(pool, [0], [Room(0, depth)], boxsize, depth)
  {
    assert [Room(0, depth)][..0] == [];
  }

  lemma BudgetSame(pool: seq<Cell>, pool': seq<Cell>, level: seq<nat>, room: seq<nat>, boxsize: real, depth: nat)
    requires Budget(pool, level, room, boxsize, depth) && SameTree(pool, pool')
    ensures Budget(pool', level, room, boxsize, depth)
  {
    hide Doubled, Room, Sum;
  }

  lemma BudgetSplit(pool: seq<Cell>, pool': seq<Cell>, c: nat, level: seq<nat>, room: seq<nat>, boxsize: real, depth: nat)
    requires Budget(pool, level, room, boxsize, depth) && c < |pool| && pool[c].firstChild == -1 && level[c] < depth
    requires SplitAt(pool, pool', c) && Linked(pool') && Subdivided(pool')
    ensures Budget(pool', level + seq(8, _ => level[c] + 1), room[c := 0] + seq(8, _ => Room(level[c] + 1, depth)), boxsize, depth)
  {
    hide Doubled, Sum, Child;
    var level', room' := level + seq(8, _ => level[c] + 1), room[c := 0] + seq(8, _ => Room(level[c] + 1, depth));
    SumAppend(room[c := 0], seq(8, _ => Room(level[c] + 1, depth)));
    SumUpdate(room, c, 0);
    SumEqual(8, Room(level[c] + 1, depth));
    WideSplit(pool, pool', c, level, boxsize);
  }

  lemma WideSplit(pool: seq<Cell>, pool': seq<Cell>, c: nat, level: seq<nat>, boxsize: real)
    requires |level| == |pool| && c < |pool| && SplitAt(pool, pool', c) && Linked(pool') && Subdivided(pool')
    requires forall x {:trigger level[x]} {:trigger pool[x]} :: 0 <= x < |pool| ==> Wide(pool[x], boxsize, level[x])
    ensures var l := level + seq(8, _ => level[c] + 1);
      forall x {:trigger l[x]} {:trigger pool'[x]} :: 0 <= x < |pool'| ==> Wide(pool'[x], boxsize, l[x])
  {
    hide Wide, Child;
    var l := level + seq(8, _ => level[c] + 1);
    forall x | 0 <= x < |pool'|
      ensures Wide(pool'[x], boxsize, l[x])
    {
      if x >= |pool| {
        assert ChildOf(pool', x, c);
        assert SameBox(pool'[x], Child(pool'[c], c, x - |pool|));
        WideSame(pool[c], pool'[c], boxsize, level[c]);
        ChildWide(pool'[c], boxsize, level[c], c, x - |pool|, pool'[x]);
      } else {
        WideSame(pool[x], pool'[x], boxsize, level[x]);
      }
    }
  }

  lemma WideSame(a: Cell, b: Cell, boxsize: real, d: nat)
    requires Wide(a, boxsize, d) && SameBox(a, b)
    ensures Wide(b, boxsize, d)
  {
  }

  /** A full cell that one more particle wants to enter is above the depth at which the particles are spread out. */
  lemma FullIsShallow(par: seq<Particle>, c: Cell, next: seq<int>, list: seq<nat>, ppc: nat, p: nat, boxsize: real, d: nat, depth: nat)
    requires Holds(par, c, next, list, ppc) && c.npar >= ppc && p < |par| && p !in list && Inside(par[p].pos, c)
    requires forall q {:trigger par[q]} :: 0 <= q < |par| && Inside(par[q].pos, c) ==> InRoot(par[q].pos, boxsize)
    requires Spread(par, boxsize, ppc, depth) && Wide(c, boxsize, d)
    ensures d < depth
  {
    hide Inside, Wide, InRoot, Far, Threaded, NoRepeat;
    var l := [p] + list;
    NoRepeatPrepend(list, p);
    forall k | 0 <= k < |l|
      ensures l[k] < |par| && Inside(par[l[k]].pos, c)
    {
      if k > 0 {
        assert l[k] == list[k - 1] && list[k - 1] in list;
      }
    }
    assert AllInRoot(par, l, boxsize);
    var k :| 0 <= k < |l| && Far(par[l[k]].pos, par[l[0]].pos, boxsize, depth);
    if d >= depth {
      NotFarInCell(par[l[k]].pos, par[l[0]].pos, c, boxsize, d, depth);
    }
  }

  /** A complete tree has at most ppc particles at any one point. */
  lemma CompleteNotCrowded(par: seq<Particle>, pool: seq<Cell>, next: seq<int>, lists: seq<seq<nat>>, home: seq<int>, ppc: nat, boxsize: real)
    requires Linked(pool) && Subdivided(pool) && AllHold(par, pool, next, lists, ppc, -1) && Homed(lists, home) && |home| == |par|
    requires forall p {:trigger home[p]} :: 0 <= p < |par| ==> (home[p] >= 0 <==> InRoot(par[p].pos, boxsize))
    ensures NotCrowded(par, boxsize, ppc)
  {
    hide Subdivided, InRoot, Inside, Threaded;
    forall l: seq<nat> | NoRepeat(l) && Coincident(par, l, boxsize)
      ensures |l| <= ppc
    {
      if l != [] {
        var c := home[l[0]];
        assert Holds(par, pool[c], next, lists[c], ppc);
        forall k | 0 <= k < |l|
          ensures l[k] in lists[c]
        {
          SameLeaf(par, pool, next, lists, home, ppc, l[k], l[0]);
        }
        WithinList(l, lists[c]);
      }
    }
  }

  /** Filed particles at one position are in one leaf. */
  lemma SameLeaf(par: seq<Particle>, pool: seq<Cell>, next: seq<int>, lists: seq<seq<nat>>, home: seq<int>, ppc: nat, p: nat, q: nat)
    requires Linked(pool) && Subdivided(pool) && AllHold(par, pool, next, lists, ppc, -1) && Homed(lists, home) && |home| == |par|
    requires p < |par| && q < |par| && home[p] >= 0 && home[q] >= 0 && par[p].pos == par[q].pos
    ensures home[p] == home[q] && home[p] < |lists| && p in lists[home[p]]
  {
    hide Linked, Subdivided, Inside, Threaded, NoRepeat;
    assert Holds(par, pool[home[p]], next, lists[home[p]], ppc);
    assert Holds(par, pool[home[q]], next, lists[home[q]], ppc);
    LaterKids(pool);
    LeafUnique(pool, par[p].pos, home[p]);
    LeafUnique(pool, par[q].pos, home[q]);
  }

  lemma {:induction false} WithinList(l: seq<nat>, m: seq<nat>)
    requires NoRepeat(l) && forall k {:trigger l[k]} :: 0 <= k < |l| ==> l[k] in m
    ensures |l| <= |m|
  {
    var s := Members(m);
    SeqInSet(l, s);
  }

  ghost function Members(m: seq<nat>): (s: set<nat>)
    ensures |s| <= |m| && forall x: nat :: x in m ==> x in s
  {
    if m == [] then {} else Members(m[1..]) + {m[0]}
  }

  // ----- The root box

  ghost predicate RootBox(pool: seq<Cell>, boxsize: real) {
    |pool| > 0 && pool[0].bot == Vec3(0.0, 0.0, 0.0) && pool[0].top == Vec3(boxsize, boxsize, boxsize)
  }

  lemma RootInside(pool: seq<Cell>, boxsize: real, pos: Vec3)
    requires RootBox(pool, boxsize)
    ensures Inside(pos, pool[0]) <==> InRoot(pos, boxsize)
  {
  }

  lemma RootKept(pool: seq<Cell>, pool': seq<Cell>, boxsize: real)
    requires SameTree(pool, pool') && RootBox(pool, boxsize)
    ensures RootBox(pool', boxsize)
  {
  }

  lemma SplitRoot(pool: seq<Cell>, pool': seq<Cell>, c: nat, boxsize: real, pos: Vec3)
    requires SplitAt(pool, pool', c) && RootBox(pool, boxsize) && Inside(pos, pool[c])
    ensures RootBox(pool', boxsize) && Inside(pos, pool'[c]) && |pool'| == |pool| + 8
  {
    assert SameBox(pool'[c], pool[c]) && SameBox(pool'[0], pool[0]);
  }

  lemma FiledSame(par: seq<Particle>, home: seq<int>, home': seq<int>, upto: nat, boxsize: real)
    requires SameFiled(home, home') && |home| == |par|
    requires forall p {:trigger home[p]} :: 0 <= p < |par| ==> (home[p] >= 0 <==> p < upto && InRoot(par[p].pos, boxsize))
    ensures |home'| == |par| && forall p {:trigger home'[p]} :: 0 <= p < |par| ==> (home'[p] >= 0 <==> p < upto && InRoot(par[p].pos, boxsize))
  {
    hide InRoot;
  }

  lemma EmptyTree(par: seq<Particle>, pool: seq<Cell>, next: seq<int>, lists: seq<seq<nat>>, home: seq<int>, ppc: nat, boxsize: real)
    requires boxsize > 0.0 && pool == [Cell(-1, -1, -1, Vec3(0.0, 0.0, 0.0), Vec3(boxsize, boxsize, boxsize), 0)]
    requires lists == [[]] && |home| == |par| == |next| && forall p :: 0 <= p < |home| ==> home[p] == -1
    ensures Linked(pool) && Subdivided(pool) && AllHold(par, pool, next, lists, ppc, -1) && Homed(lists, home) && RootBox(pool, boxsize)
  {
  }

  /** What the build loop needs before a split: the cell is above the depth where the particles are spread out. */
  lemma SplitIsShallow(par: seq<Particle>, pool: seq<Cell>, next: seq<int>, lists: seq<seq<nat>>, home: seq<int>, ppc: nat, c: nat, p: nat,
                       boxsize: real, level: seq<nat>, room: seq<nat>, depth: nat)
    requires Linked(pool) && Subdivided(pool) && AllHold(par, pool, next, lists, ppc, -1) && Homed(lists, home) && RootBox(pool, boxsize)
    requires c < |pool| && pool[c].firstChild == -1 && pool[c].npar >= ppc && p < |par| == |home| && home[p] < 0 && Inside(par[p].pos, pool[c])
    requires Spread(par, boxsize, ppc, depth) && Budget(pool, level, room, boxsize, depth)
    ensures |level| == |room| == |pool| && level[c] < depth && |pool| <= 1 + Room(0, depth)
  {
    hide Linked, Subdivided, Inside, InRoot, Spread, Wide, Holds, Sum, Room;
    forall q | 0 <= q < |par| && Inside(par[q].pos, pool[c])
      ensures InRoot(par[q].pos, boxsize)
    {
      LaterKids(pool);
      FindFromRoot(pool, par[q].pos, c);
      RootInside(pool, boxsize, par[q].pos);
    }
    FullIsShallow(par, pool[c], next, lists[c], ppc, p, boxsize, level[c], depth);
  }
}
