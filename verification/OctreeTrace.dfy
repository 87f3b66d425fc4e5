/** The meaning of `rt_trace`: a recursive visit of the hit cells, and what it reports. */
module OctreeTrace {
  import opened SegmentBox
  import opened OctreeCells
  import opened OctreeFilling
  import opened OctreeBoxes
  import opened Numbers

  datatype Ray = Ray(start: Vec3, dir: Vec3, dist: real)

  function Minus(a: Vec3, b: Vec3): Vec3 {
    Vec3(a.x - b.x, a.y - b.y, a.z - b.z)
  }

  function Dot(a: Vec3, b: Vec3): real {
    a.x * b.x + a.y * b.y + a.z * b.z
  }

  function At(ray: Ray, u: real): Vec3 {
    Vec3(ray.start.x + u * ray.dir.x, ray.start.y + u * ray.dir.y, ray.start.z + u * ray.dir.z)
  }

  function Dist2(a: Vec3, b: Vec3): real {
    Dot(Minus(a, b), Minus(a, b))
  }

  predicate HitCell(ray: Ray, c: Cell) {
    Pluecker(ray.dir, ray.dist, Minus(c.bot, ray.start), Minus(c.top, ray.start))
  }

  /** (dist - proj) * (dist + proj), where dist is the distance from the start and proj the projection on the direction. */
  function R2(ray: Ray, pos: Vec3): real {
    var proj := Dot(Minus(pos, ray.start), ray.dir);
    Dist2(pos, ray.start) - proj * proj
  }

  predicate Takes(ray: Ray, p: Particle) {
    !p.invalid && !(p.sml * p.sml < R2(ray, p.pos))
  }

  /** The particles taken from the first k entries of a list. */
  function Taken(ray: Ray, par: seq<Particle>, list: seq<nat>, k: nat): seq<nat>
    requires k <= |list| && forall i {:trigger list[i]} :: 0 <= i < |list| ==> list[i] < |par|
  {
    if k == 0 then [] else Taken(ray, par, list, k - 1) + if Takes(ray, par[list[k - 1]]) then [list[k - 1]] else []
  }

  lemma {:induction false} TakenAre(ray: Ray, par: seq<Particle>, list: seq<nat>, k: nat)
    requires k <= |list| && NoRepeat(list) && forall i {:trigger list[i]} :: 0 <= i < |list| ==> list[i] < |par|
    ensures forall p: nat {:trigger p in Taken(ray, par, list, k)} :: p in Taken(ray, par, list, k) <==> p in list[..k] && Takes(ray, par[p])
    ensures NoRepeat(Taken(ray, par, list, k))
  {
    if k > 0 {
      TakenAre(ray, par, list, k - 1);
      var t, q := Taken(ray, par, list, k - 1), list[k - 1];
      assert list[..k] == list[..k - 1] + [q];
      assert q !in list[..k - 1];
      NoRepeatJoin(t, [q]);
    }
  }

  lemma NoRepeatJoin(a: seq<nat>, b: seq<nat>)
    requires NoRepeat(a) && NoRepeat(b)
    ensures (forall p {:trigger p in a} :: p in a ==> p !in b) ==> NoRepeat(a + b)
  {
    if forall p {:trigger p in a} :: p in a ==> p !in b {
      var c := a + b;
      forall j, k | 0 <= j < k < |c|
        ensures c[j] != c[k]
      {
        if j < |a| <= k {
          assert a[j] in a && b[k - |a|] in b;
        }
      }
    }
  }

  /** The tree is boxed: links, lists and bounding boxes as the build leaves them. */
  ghost predicate TraceReady(par: seq<Particle>, pool: seq<Cell>, next: seq<int>, lists: seq<seq<nat>>, home: seq<int>) {
    && Linked(pool) && |lists| == |pool| && Homed(lists, home) && |home| == |par|
    && LeafLists(pool, next, lists) && Nested(par, pool, lists) && AllOrdered(pool)
  }

  ghost predicate LeafLists(pool: seq<Cell>, next: seq<int>, lists: seq<seq<nat>>)
    requires |lists| == |pool|
  {
    forall c {:trigger lists[c]} {:trigger pool[c]} :: 0 <= c < |pool| ==>
      Threaded(next, pool[c].headPar, lists[c]) && NoRepeat(lists[c]) && (pool[c].firstChild != -1 ==> lists[c] == [])
  }

  ghost predicate Walkable(par: seq<Particle>, pool: seq<Cell>, lists: seq<seq<nat>>) {
    Linked(pool) && ListsFit(par, pool, lists)
  }

  // ----- The recursive visit

  ghost function Visit(ray: Ray, par: seq<Particle>, pool: seq<Cell>, lists: seq<seq<nat>>, c: nat): seq<nat>
    requires Walkable(par, pool, lists) && c < |pool|
    decreases |pool| - c, 9
  {
    if !HitCell(ray, pool[c]) then []
    else if pool[c].firstChild == -1 then Taken(ray, par, lists[c], |lists[c]|)
    else VisitKids(ray, par, pool, lists, c, 0)
  }

  ghost function VisitKids(ray: Ray, par: seq<Particle>, pool: seq<Cell>, lists: seq<seq<nat>>, c: nat, i: nat): seq<nat>
    requires Walkable(par, pool, lists) && c < |pool| && pool[c].firstChild != -1 && i <= 8
    decreases |pool| - c, 8 - i
  {
    if i == 8 then [] else Visit(ray, par, pool, lists, pool[c].firstChild + i) + VisitKids(ray, par, pool, lists, c, i + 1)
  }

  /** What is visited after cell c is finished. */
  ghost function After(ray: Ray, par: seq<Particle>, pool: seq<Cell>, lists: seq<seq<nat>>, c: nat): seq<nat>
    requires Walkable(par, pool, lists) && c < |pool|
    decreases c
  {
    if c == 0 then [] else
      ParentLinks(pool, c);
      VisitKids(ray, par, pool, lists, pool[c].parent, c - pool[pool[c].parent].firstChild + 1) + After(ray, par, pool, lists, pool[c].parent)
  }

  /** Cells in the subtree of c, and cells that come after it. */
  ghost function Size(pool: seq<Cell>, c: nat): nat
    requires Linked(pool) && c < |pool|
    decreases |pool| - c, 9
  {
    1 + if pool[c].firstChild == -1 then 0 else SizeKids(pool, c, 0)
  }

  ghost function SizeKids(pool: seq<Cell>, c: nat, i: nat): nat
    requires Linked(pool) && c < |pool| && pool[c].firstChild != -1 && i <= 8
    decreases |pool| - c, 8 - i
  {
    if i == 8 then 0 else Size(pool, pool[c].firstChild + i) + SizeKids(pool, c, i + 1)
  }

  ghost function SizeAfter(pool: seq<Cell>, c: nat): nat
    requires Linked(pool) && c < |pool|
    decreases c
  {
    if c == 0 then 0 else
      ParentLinks(pool, c);
      SizeKids(pool, pool[c].parent, c - pool[pool[c].parent].firstChild + 1) + SizeAfter(pool, pool[c].parent)
  }

  /** `sibling`. */
  function Sibling(pool: seq<Cell>, c: nat): int
    requires c < |pool| && -1 <= pool[c].parent < |pool|
  {
    if pool[c].parent == -1 then -1
    else if c - pool[pool[c].parent].firstChild == 7 then -1
    else c + 1
  }

  /** Going down to the first child. */
  lemma Descend(ray: Ray, par: seq<Particle>, pool: seq<Cell>, lists: seq<seq<nat>>, c: nat)
    requires Walkable(par, pool, lists) && c < |pool| && pool[c].firstChild != -1 && HitCell(ray, pool[c])
    ensures var f := pool[c].firstChild;
      && c < f < |pool|
      && Visit(ray, par, pool, lists, c) + After(ray, par, pool, lists, c) == Visit(ray, par, pool, lists, f) + After(ray, par, pool, lists, f)
      && Size(pool, c) + SizeAfter(pool, c) == 1 + Size(pool, f) + SizeAfter(pool, f)
  {
    hide HitCell, ListsFit;
    ChildLinks(pool, c, 0);
  }

  lemma NextSibling(pool: seq<Cell>, c: nat)
    requires Linked(pool) && 0 < c < |pool|
    ensures ChildOf(pool, c, pool[c].parent) && pool[c].parent < c && pool[pool[c].parent].firstChild >= 0
    ensures var n := Sibling(pool, c);
      if c == pool[pool[c].parent].firstChild + 7 then n == -1 else n == c + 1 && n < |pool| && pool[n].parent == pool[c].parent
  {
    ParentLinks(pool, c);
    var p := pool[c].parent;
    var i := c - pool[p].firstChild;
    if i < 7 {
      ChildLinks(pool, p, i + 1);
    }
  }

  lemma SizeAfterIs(pool: seq<Cell>, c: nat, p: nat, i: nat)
    requires Linked(pool) && 0 < c < |pool| && pool[c].parent == p < |pool| && pool[p].firstChild != -1 && c == pool[p].firstChild + i && i < 8
    ensures SizeAfter(pool, c) == SizeKids(pool, p, i + 1) + SizeAfter(pool, p)
  {
  }

  lemma SizeKidsIs(pool: seq<Cell>, p: nat, i: nat)
    requires Linked(pool) && p < |pool| && pool[p].firstChild != -1 && i <= 8
    ensures i == 8 ==> SizeKids(pool, p, i) == 0
    ensures i < 8 ==> 0 <= pool[p].firstChild + i < |pool| && SizeKids(pool, p, i) == Size(pool, pool[p].firstChild + i) + SizeKids(pool, p, i + 1)
  {
  }

  lemma SizeOnward(pool: seq<Cell>, c: nat)
    requires Linked(pool) && 0 < c < |pool|
    ensures 0 <= pool[c].parent < c && -1 <= Sibling(pool, c) < |pool|
    ensures var n := Sibling(pool, c);
      if n == -1 then SizeAfter(pool, c) == SizeAfter(pool, pool[c].parent) else n > 0 && SizeAfter(pool, c) == Size(pool, n) + SizeAfter(pool, n)
  {
    hide Linked, Sibling, Size, SizeKids, SizeAfter;
    NextSibling(pool, c);
    var p := pool[c].parent;
    var i := c - pool[p].firstChild;
    SizeAfterIs(pool, c, p, i);
    SizeKidsIs(pool, p, i + 1);
    if i < 7 {
      SizeAfterIs(pool, c + 1, p, i + 1);
    }
  }

  lemma AfterIs(ray: Ray, par: seq<Particle>, pool: seq<Cell>, lists: seq<seq<nat>>, c: nat, p: nat, i: nat)
    requires Walkable(par, pool, lists)
    requires 0 < c < |pool| && pool[c].parent == p < |pool| && pool[p].firstChild != -1 && c == pool[p].firstChild + i && i < 8
    ensures After(ray, par, pool, lists, c) == VisitKids(ray, par, pool, lists, p, i + 1) + After(ray, par, pool, lists, p)
  {
  }

  lemma VisitKidsIs(ray: Ray, par: seq<Particle>, pool: seq<Cell>, lists: seq<seq<nat>>, p: nat, i: nat)
    requires Walkable(par, pool, lists) && p < |pool| && pool[p].firstChild != -1 && i <= 8
    ensures i == 8 ==> VisitKids(ray, par, pool, lists, p, i) == []
    ensures i < 8 ==>
      0 <= pool[p].firstChild + i < |pool| && VisitKids(ray, par, pool, lists, p, i) == Visit(ray, par, pool, lists, pool[p].firstChild + i) + VisitKids(ray, par, pool, lists, p, i + 1)
  {
  }

  /** Moving on from a finished cell: to its sibling, or up. */
  lemma MoveOn(ray: Ray, par: seq<Particle>, pool: seq<Cell>, lists: seq<seq<nat>>, c: nat)
    requires Walkable(par, pool, lists) && 0 < c < |pool|
    ensures 0 <= pool[c].parent < c && -1 <= Sibling(pool, c) < |pool|
    ensures var n := Sibling(pool, c);
      if n == -1 then After(ray, par, pool, lists, c) == After(ray, par, pool, lists, pool[c].parent)
      else n > 0 && After(ray, par, pool, lists, c) == Visit(ray, par, pool, lists, n) + After(ray, par, pool, lists, n)
  {
    hide Linked, Sibling, Visit, ListsFit, VisitKids, After;
    NextSibling(pool, c);
    var p := pool[c].parent;
    var i := c - pool[p].firstChild;
    AfterIs(ray, par, pool, lists, c, p, i);
    VisitKidsIs(ray, par, pool, lists, p, i + 1);
    if i < 7 {
      AfterIs(ray, par, pool, lists, c + 1, p, i + 1);
    }
  }

  // ----- Which particles the visit reports

  /** Cell c is h or above it. */
  ghost predicate Above(pool: seq<Cell>, c: nat, h: nat)
    requires Linked(pool) && h < |pool|
    decreases h
  {
    c == h || (c < h && (ParentLinks(pool, h); Above(pool, c, pool[h].parent)))
  }

  lemma {:induction false} AboveRoot(pool: seq<Cell>, h: nat)
    requires Linked(pool) && h < |pool|
    ensures Above(pool, 0, h)
  {
    if h > 0 {
      ParentLinks(pool, h);
      AboveRoot(pool, pool[h].parent);
    }
  }

  lemma {:induction false} AboveParent(pool: seq<Cell>, k: nat, h: nat)
    requires Linked(pool) && h < |pool| && Above(pool, k, h) && 0 < k
    ensures 0 <= pool[k].parent < k && Above(pool, pool[k].parent, h)
  {
    hide Linked;
    ParentLinks(pool, k);
    if k != h {
      ParentLinks(pool, h);
      AboveParent(pool, k, pool[h].parent);
    }
  }

  /** A cell strictly above h has exactly one child above h. */
  lemma {:induction false} AboveChild(pool: seq<Cell>, c: nat, h: nat) returns (i: nat)
    requires Linked(pool) && h < |pool| && Above(pool, c, h) && c != h
    ensures i < 8 && pool[c].firstChild > c && pool[c].firstChild + 8 <= |pool| && Above(pool, pool[c].firstChild + i, h)
  {
    hide Linked;
    ParentLinks(pool, h);
    if pool[h].parent == c {
      i := h - pool[c].firstChild;
      ChildLinks(pool, c, 0);
    } else {
      i := AboveChild(pool, c, pool[h].parent);
    }
  }

  lemma {:induction false} AboveUnique(pool: seq<Cell>, c: nat, h: nat, a: nat, b: nat)
    requires Linked(pool) && h < |pool| && c < |pool| && pool[c].firstChild != -1
    requires pool[c].firstChild <= a < pool[c].firstChild + 8 && pool[c].firstChild <= b < pool[c].firstChild + 8
    requires Above(pool, a, h) && Above(pool, b, h)
    ensures a == b
  {
    hide Linked;
    ChildLinks(pool, c, a - pool[c].firstChild);
    ChildLinks(pool, c, b - pool[c].firstChild);
    if a != h && b != h {
      ParentLinks(pool, h);
      AboveUnique(pool, c, pool[h].parent, a, b);
    } else if a < b {
      AboveOwnParent(pool, a, b, c);
    } else if b < a {
      AboveOwnParent(pool, b, a, c);
    }
  }

  /** One of the children of c from number i on is above h. */
  ghost predicate KidAbove(pool: seq<Cell>, c: nat, i: nat, h: nat)
    requires Linked(pool) && h < |pool| && c < |pool|
  {
    exists x: nat {:trigger Above(pool, x, h)} :: pool[c].firstChild + i <= x < pool[c].firstChild + 8 && Above(pool, x, h)
  }

  lemma AboveOwnParent(pool: seq<Cell>, lo: nat, hi: nat, c: nat)
    requires Linked(pool) && hi < |pool| && lo < hi && Above(pool, lo, hi) && pool[hi].parent == c
    ensures lo <= c
  {
    ParentLinks(pool, hi);
  }

  lemma {:induction false} VisitSound(ray: Ray, par: seq<Particle>, pool: seq<Cell>, lists: seq<seq<nat>>, home: seq<int>, c: nat, p: nat)
    requires Walkable(par, pool, lists) && Homed(lists, home) && |home| == |par| && c < |pool|
    requires forall x {:trigger lists[x]} :: 0 <= x < |lists| ==> NoRepeat(lists[x])
    requires p in Visit(ray, par, pool, lists, c)
    ensures p < |par| && 0 <= home[p] < |pool| && Above(pool, c, home[p]) && Takes(ray, par[p]) && HitCell(ray, pool[home[p]])
    decreases |pool| - c, 9
  {
    hide Linked, Takes, NoRepeat, HitCell;
    if pool[c].firstChild == -1 {
      assert ListFits(par, lists[c]);
      TakenAre(ray, par, lists[c], |lists[c]|);
      assert lists[c][..|lists[c]|] == lists[c];
    } else {
      VisitKidsSound(ray, par, pool, lists, home, c, 0, p);
    }
  }

  lemma {:induction false} VisitKidsSound(ray: Ray, par: seq<Particle>, pool: seq<Cell>, lists: seq<seq<nat>>, home: seq<int>, c: nat, i: nat, p: nat)
    requires Walkable(par, pool, lists) && Homed(lists, home) && |home| == |par| && c < |pool| && pool[c].firstChild != -1 && i <= 8
    requires forall x {:trigger lists[x]} :: 0 <= x < |lists| ==> NoRepeat(lists[x])
    requires p in VisitKids(ray, par, pool, lists, c, i)
    ensures p < |par| && 0 <= home[p] < |pool| && Above(pool, c, home[p]) && Takes(ray, par[p]) && HitCell(ray, pool[home[p]])
    ensures KidAbove(pool, c, i, home[p])
    decreases |pool| - c, 8 - i
  {
    hide Linked, ListsFit, Homed, Takes, NoRepeat;
    ChildLinks(pool, c, i);
    var k := pool[c].firstChild + i;
    if p in Visit(ray, par, pool, lists, k) {
      VisitSound(ray, par, pool, lists, home, k, p);
      AboveParent(pool, k, home[p]);
    } else {
      VisitKidsSound(ray, par, pool, lists, home, c, i + 1, p);
    }
  }

  lemma {:induction false} VisitNoRepeat(ray: Ray, par: seq<Particle>, pool: seq<Cell>, lists: seq<seq<nat>>, home: seq<int>, c: nat)
    requires Walkable(par, pool, lists) && Homed(lists, home) && |home| == |par| && c < |pool|
    requires forall x {:trigger lists[x]} :: 0 <= x < |lists| ==> NoRepeat(lists[x])
    ensures NoRepeat(Visit(ray, par, pool, lists, c))
    decreases |pool| - c, 9
  {
    hide Linked, Takes, HitCell;
    if pool[c].firstChild == -1 {
      assert ListFits(par, lists[c]);
      TakenAre(ray, par, lists[c], |lists[c]|);
    } else {
      VisitKidsNoRepeat(ray, par, pool, lists, home, c, 0);
    }
  }

  lemma {:induction false} VisitKidsNoRepeat(ray: Ray, par: seq<Particle>, pool: seq<Cell>, lists: seq<seq<nat>>, home: seq<int>, c: nat, i: nat)
    requires Walkable(par, pool, lists) && Homed(lists, home) && |home| == |par| && c < |pool| && pool[c].firstChild != -1 && i <= 8
    requires forall x {:trigger lists[x]} :: 0 <= x < |lists| ==> NoRepeat(lists[x])
    ensures NoRepeat(VisitKids(ray, par, pool, lists, c, i))
    decreases |pool| - c, 8 - i
  {
    hide Linked, ListsFit, Homed, Takes;
    if i < 8 {
      ChildLinks(pool, c, i);
      var k := pool[c].firstChild + i;
      var a, b := Visit(ray, par, pool, lists, k), VisitKids(ray, par, pool, lists, c, i + 1);
      VisitNoRepeat(ray, par, pool, lists, home, k);
      VisitKidsNoRepeat(ray, par, pool, lists, home, c, i + 1);
      forall p: nat | p in a
        ensures p !in b
      {
        if p in b {
          VisitSound(ray, par, pool, lists, home, k, p);
          VisitKidsSound(ray, par, pool, lists, home, c, i + 1, p);
          var x: nat :| k + 1 <= x < pool[c].firstChild + 8 && Above(pool, x, home[p]);
          AboveUnique(pool, c, home[p], k, x);
        }
      }
      NoRepeatJoin(a, b);
    }
  }

  /** A particle taken by the ray is reported when every cell above its leaf is hit. */
  lemma {:induction false} VisitComplete(ray: Ray, par: seq<Particle>, pool: seq<Cell>, lists: seq<seq<nat>>, home: seq<int>, c: nat, p: nat)
    requires Walkable(par, pool, lists) && Homed(lists, home) && |home| == |par| && c < |pool| && p < |par|
    requires forall x {:trigger lists[x]} :: 0 <= x < |lists| ==> NoRepeat(lists[x]) && (pool[x].firstChild != -1 ==> lists[x] == [])
    requires 0 <= home[p] < |pool| && Above(pool, c, home[p]) && Takes(ray, par[p])
    requires forall x: nat {:trigger pool[x]} :: x < |pool| && Above(pool, x, home[p]) ==> HitCell(ray, pool[x])
    ensures p in Visit(ray, par, pool, lists, c)
    decreases |pool| - c
  {
    hide Linked, Takes, HitCell, NoRepeat;
    assert p in lists[home[p]];
    if c == home[p] {
      assert ListFits(par, lists[c]);
      TakenAre(ray, par, lists[c], |lists[c]|);
      assert lists[c][..|lists[c]|] == lists[c];
    } else {
      var i := AboveChild(pool, c, home[p]);
      VisitComplete(ray, par, pool, lists, home, pool[c].firstChild + i, p);
      InVisitKids(ray, par, pool, lists, c, 0, i, p);
    }
  }

  lemma {:induction false} InVisitKids(ray: Ray, par: seq<Particle>, pool: seq<Cell>, lists: seq<seq<nat>>, c: nat, j: nat, i: nat, p: nat)
    requires Walkable(par, pool, lists) && c < |pool| && pool[c].firstChild != -1 && j <= i < 8
    requires p in Visit(ray, par, pool, lists, pool[c].firstChild + i)
    ensures p in VisitKids(ray, par, pool, lists, c, j)
    decreases i - j
  {
    hide Linked, ListsFit, Visit;
    ChildLinks(pool, c, i);
    ChildLinks(pool, c, j);
    if j < i {
      InVisitKids(ray, par, pool, lists, c, j + 1, i, p);
    }
  }

  // ----- Spheres, lines and boxes

  predicate Unit(dir: Vec3) {
    Dot(dir, dir) == 1.0
  }

  /** The kernel sphere meets the segment, or the whole line, of the ray. */
  ghost predicate MeetsSegment(ray: Ray, p: Particle) {
    exists u :: 0.0 <= u <= ray.dist && Dist2(At(ray, u), p.pos) <= p.sml * p.sml
  }

  ghost predicate MeetsLine(ray: Ray, p: Particle) {
    exists u :: Dist2(At(ray, u), p.pos) <= p.sml * p.sml
  }

  function AxisTerm(a: real, s: real, d: real, u: real): real {
    (s + u * d - a) * (s + u * d - a)
  }

  lemma Expand(a: real, s: real, d: real, u: real)
    ensures AxisTerm(a, s, d, u) == (a - s) * (a - s) - 2.0 * u * ((a - s) * d) + u * u * (d * d)
  {
  }

  /** The distance from a point of the line is R2 plus the square of how far along the line it is from the foot. */
  lemma LineDistance(ray: Ray, pos: Vec3, u: real)
    requires Unit(ray.dir)
    ensures var w := Dot(Minus(pos, ray.start), ray.dir) - u; Dist2(At(ray, u), pos) == R2(ray, pos) + w * w
  {
    var s, d := ray.start, ray.dir;
    var rx, ry, rz := AxisTerm(pos.x, s.x, d.x, u), AxisTerm(pos.y, s.y, d.y, u), AxisTerm(pos.z, s.z, d.z, u);
    assert Dist2(At(ray, u), pos) == rx + ry + rz;
    LineSums(s, d, pos, u, rx, ry, rz);
  }

  lemma LineSums(s: Vec3, d: Vec3, pos: Vec3, u: real, rx: real, ry: real, rz: real)
    requires Unit(d) && rx == AxisTerm(pos.x, s.x, d.x, u) && ry == AxisTerm(pos.y, s.y, d.y, u) && rz == AxisTerm(pos.z, s.z, d.z, u)
    ensures var e := Minus(pos, s);
      rx + ry + rz == Dot(e, e) - Dot(e, d) * Dot(e, d) + (Dot(e, d) - u) * (Dot(e, d) - u)
  {
    hide AxisTerm;
    Expand(pos.x, s.x, d.x, u);
    Expand(pos.y, s.y, d.y, u);
    Expand(pos.z, s.z, d.z, u);
    var e := Minus(pos, s);
    Collect(rx, ry, rz, e.x * e.x, e.y * e.y, e.z * e.z, e.x * d.x, e.y * d.y, e.z * d.z, d.x * d.x, d.y * d.y, d.z * d.z, u);
  }

  lemma Collect(rx: real, ry: real, rz: real, ex: real, ey: real, ez: real, qx: real, qy: real, qz: real, x2: real, y2: real, z2: real, u: real)
    requires rx == ex - 2.0 * u * qx + u * u * x2 && ry == ey - 2.0 * u * qy + u * u * y2 && rz == ez - 2.0 * u * qz + u * u * z2
    requires x2 + y2 + z2 == 1.0
    ensures var q := qx + qy + qz; rx + ry + rz == ex + ey + ez - q * q + (q - u) * (q - u)
  {
    var uu := u * u;
    assert uu * x2 + uu * y2 + uu * z2 == uu * (x2 + y2 + z2);
    assert 2.0 * u * qx + 2.0 * u * qy + 2.0 * u * qz == 2.0 * u * (qx + qy + qz);
  }

  /** The particles taken are those whose sphere meets the line. */
  lemma TakesIsLine(ray: Ray, p: Particle)
    requires Unit(ray.dir)
    ensures Takes(ray, p) <==> !p.invalid && MeetsLine(ray, p)
  {
    hide Dist2, At, R2, Dot, Minus, Unit;
    var foot := Dot(Minus(p.pos, ray.start), ray.dir);
    LineDistance(ray, p.pos, foot);
    assert Dist2(At(ray, foot), p.pos) == R2(ray, p.pos);
    if MeetsLine(ray, p) {
      var u :| Dist2(At(ray, u), p.pos) <= p.sml * p.sml;
      LineDistance(ray, p.pos, u);
      assert (foot - u) * (foot - u) >= 0.0;
    }
  }

  lemma PositiveProduct(x: real, y: real)
    requires x > 0.0 && y > 0.0
    ensures x * y > 0.0
  {
  }

  lemma SquareBound(a: real, b: real)
    requires a * a <= b * b && b >= 0.0
    ensures -b <= a <= b
  {
    assert a * a - b * b == (a - b) * (a + b);
    if a > b {
      PositiveProduct(a - b, a + b);
    } else if a < -b {
      PositiveProduct(b - a, -(a + b));
    }
  }

  /** A sphere is inside its cube. */
  lemma SphereInCube(x: Vec3, p: Particle)
    requires Dist2(x, p.pos) <= p.sml * p.sml && p.sml >= 0.0
    ensures p.pos.x - p.sml <= x.x <= p.pos.x + p.sml
    ensures p.pos.y - p.sml <= x.y <= p.pos.y + p.sml
    ensures p.pos.z - p.sml <= x.z <= p.pos.z + p.sml
  {
    var dx, dy, dz := x.x - p.pos.x, x.y - p.pos.y, x.z - p.pos.z;
    assert dx * dx >= 0.0 && dy * dy >= 0.0 && dz * dz >= 0.0;
    SquareBound(dx, p.sml);
    SquareBound(dy, p.sml);
    SquareBound(dz, p.sml);
  }

  lemma PointInSlab(s: real, d: real, u: real, lo: real, hi: real, b: real, t: real)
    requires lo <= s + u * d <= hi && b <= lo && hi <= t
    ensures InSlab(d, b - s, t - s, u)
  {
  }

  /** A point of the ray in the cube of a particle is in any box around that cube. */
  lemma PointInBox(s: Vec3, d: Vec3, u: real, x: Vec3, p: Particle, c: Cell)
    requires x.x == s.x + u * d.x && x.y == s.y + u * d.y && x.z == s.z + u * d.z
    requires p.pos.x - p.sml <= x.x <= p.pos.x + p.sml && p.pos.y - p.sml <= x.y <= p.pos.y + p.sml && p.pos.z - p.sml <= x.z <= p.pos.z + p.sml
    requires Within(Cube(p), BoxOf(c))
    ensures InBox(d, Minus(c.bot, s), Minus(c.top, s), u)
    ensures c.bot.x <= c.top.x && c.bot.y <= c.top.y && c.bot.z <= c.top.z
  {
    hide InSlab;
    PointInSlab(s.x, d.x, u, x.x, x.x, c.bot.x, c.top.x);
    PointInSlab(s.y, d.y, u, x.y, x.y, c.bot.y, c.top.y);
    PointInSlab(s.z, d.z, u, x.z, x.z, c.bot.z, c.top.z);
  }

  /** A box around the cube of a particle is hit when the sphere meets the segment. */
  lemma SphereHitsBox(ray: Ray, p: Particle, c: Cell)
    requires ray.dist >= 0.0 && p.sml >= 0.0 && MeetsSegment(ray, p) && Within(Cube(p), BoxOf(c))
    ensures HitCell(ray, c)
  {
    hide Pluecker, Dist2, InBox, Within, Cube;
    var u :| 0.0 <= u <= ray.dist && Dist2(At(ray, u), p.pos) <= p.sml * p.sml;
    SphereInCube(At(ray, u), p);
    PointInBox(ray.start, ray.dir, u, At(ray, u), p, c);
    PlueckerExact(ray.dir, ray.dist, Minus(c.bot, ray.start), Minus(c.top, ray.start));
  }

  /** The box of a cell contains the boxes of all cells below it. */
  lemma {:induction false} BoxAbove(par: seq<Particle>, pool: seq<Cell>, lists: seq<seq<nat>>, c: nat, h: nat)
    requires Linked(pool) && Nested(par, pool, lists) && h < |pool| && Above(pool, c, h)
    ensures Within(BoxOf(pool[h]), BoxOf(pool[c]))
    decreases h
  {
    hide Linked, Cube;
    if c != h {
      ParentLinks(pool, h);
      assert ChildOf(pool, h, pool[h].parent);
      BoxAbove(par, pool, lists, c, pool[h].parent);
    }
  }

  lemma ReadyWalkable(par: seq<Particle>, pool: seq<Cell>, next: seq<int>, lists: seq<seq<nat>>, home: seq<int>)
    requires TraceReady(par, pool, next, lists, home)
    ensures Walkable(par, pool, lists) && |pool| > 0
  {
    forall c | 0 <= c < |lists|
      ensures ListFits(par, lists[c])
    {
      forall k | 0 <= k < |lists[c]|
        ensures lists[c][k] < |par|
      {
        assert lists[c][k] in lists[c];
      }
    }
  }

  /** Where a filed particle is: in the list of a leaf whose box contains its cube. */
  lemma LeafBoxed(par: seq<Particle>, pool: seq<Cell>, next: seq<int>, lists: seq<seq<nat>>, home: seq<int>, p: nat)
    requires TraceReady(par, pool, next, lists, home) && p < |par| && home[p] >= 0
    ensures home[p] < |pool| && pool[home[p]].firstChild == -1 && Within(Cube(par[p]), BoxOf(pool[home[p]]))
  {
    hide Linked, Within, AllOrdered;
    var h := home[p];
    assert p in lists[h];
    var k :| 0 <= k < |lists[h]| && lists[h][k] == p;
  }

  /** The segment meets the box of the cell. */
  ghost predicate MeetsCell(ray: Ray, c: Cell) {
    MeetsBox(ray.dir, ray.dist, Minus(c.bot, ray.start), Minus(c.top, ray.start))
  }

  lemma HitIsMeet(ray: Ray, pool: seq<Cell>, c: nat)
    requires AllOrdered(pool) && c < |pool| && ray.dist >= 0.0
    ensures HitCell(ray, pool[c]) <==> MeetsCell(ray, pool[c])
  {
    hide Pluecker, MeetsBox;
    assert Ordered(BoxOf(pool[c]));
    PlueckerExact(ray.dir, ray.dist, Minus(pool[c].bot, ray.start), Minus(pool[c].top, ray.start));
  }

  /** What meets a box meets every box around it. */
  lemma MeetsAround(ray: Ray, a: Cell, b: Cell)
    requires Within(BoxOf(a), BoxOf(b)) && MeetsCell(ray, a)
    ensures MeetsCell(ray, b)
  {
    var u :| 0.0 <= u <= ray.dist && InBox(ray.dir, Minus(a.bot, ray.start), Minus(a.top, ray.start), u);
    assert InBox(ray.dir, Minus(b.bot, ray.start), Minus(b.top, ray.start), u);
  }

  /** Particle p is filed and valid, its sphere meets the line, and the segment meets the box of its leaf. */
  ghost predicate Reported(ray: Ray, par: seq<Particle>, pool: seq<Cell>, home: seq<int>, p: nat) {
    && p < |par| && p < |home| && 0 <= home[p] < |pool| && !par[p].invalid
    && MeetsLine(ray, par[p]) && MeetsCell(ray, pool[home[p]])
  }

  /** The report that brute force over the segment would make. */
  ghost predicate OnSegment(ray: Ray, par: seq<Particle>, home: seq<int>, p: nat) {
    p < |par| && p < |home| && home[p] >= 0 && !par[p].invalid && MeetsSegment(ray, par[p])
  }

  /** A particle behind the start or beyond the end of the segment, which meets the box of the particle's leaf. */
  ghost predicate Stray(ray: Ray, par: seq<Particle>, pool: seq<Cell>, home: seq<int>, p: nat) {
    Reported(ray, par, pool, home, p) && !MeetsSegment(ray, par[p])
  }

  /** What the visit of the whole tree reports, and nothing twice. */
  lemma VisitExact(ray: Ray, par: seq<Particle>, pool: seq<Cell>, next: seq<int>, lists: seq<seq<nat>>, home: seq<int>)
    requires TraceReady(par, pool, next, lists, home) && Unit(ray.dir) && ray.dist >= 0.0
    requires Walkable(par, pool, lists) && |pool| > 0
    ensures var v := Visit(ray, par, pool, lists, 0);
      && NoRepeat(v)
      && (forall p: nat {:trigger p in v} {:trigger Reported(ray, par, pool, home, p)} :: p in v <==> Reported(ray, par, pool, home, p))
  {
    hide Unit, Visit, MeetsLine, MeetsCell, NoRepeat, Linked, Nested, AllOrdered, Homed, Takes, Walkable, Threaded, HitCell, Within;
    VisitNoRepeat(ray, par, pool, lists, home, 0);
    var v := Visit(ray, par, pool, lists, 0);
    forall p: nat
      ensures p in v <==> Reported(ray, par, pool, home, p)
    {
      if p in v {
        VisitSound(ray, par, pool, lists, home, 0, p);
        TakesIsLine(ray, par[p]);
        HitIsMeet(ray, pool, home[p]);
      }
      if Reported(ray, par, pool, home, p) {
        TakesIsLine(ray, par[p]);
        forall x: nat | x < |pool| && Above(pool, x, home[p])
          ensures HitCell(ray, pool[x])
        {
          BoxAbove(par, pool, lists, x, home[p]);
          MeetsAround(ray, pool[home[p]], pool[x]);
          HitIsMeet(ray, pool, x);
        }
        AboveRoot(pool, home[p]);
        VisitComplete(ray, par, pool, lists, home, 0, p);
      }
    }
  }

  /** A particle on the segment is reported. */
  lemma SegmentReported(ray: Ray, par: seq<Particle>, pool: seq<Cell>, next: seq<int>, lists: seq<seq<nat>>, home: seq<int>, p: nat)
    requires TraceReady(par, pool, next, lists, home) && SmlNonNegative(par) && ray.dist >= 0.0 && OnSegment(ray, par, home, p)
    ensures Reported(ray, par, pool, home, p)
  {
    hide Linked, Nested, AllOrdered, Homed, MeetsCell, MeetsLine, MeetsSegment, HitCell, Within;
    LeafBoxed(par, pool, next, lists, home, p);
    SegmentOnLine(ray, par[p]);
    SphereHitsBox(ray, par[p], pool[home[p]]);
    HitIsMeet(ray, pool, home[p]);
  }

  /** The report is exactly that of brute force when no particle strays. */
  lemma ExactUnlessStray(ray: Ray, par: seq<Particle>, pool: seq<Cell>, next: seq<int>, lists: seq<seq<nat>>, home: seq<int>)
    requires TraceReady(par, pool, next, lists, home) && SmlNonNegative(par) && ray.dist >= 0.0
    ensures (forall p: nat {:trigger Reported(ray, par, pool, home, p)} :: Reported(ray, par, pool, home, p) <==> OnSegment(ray, par, home, p))
      <==> (forall p: nat {:trigger Stray(ray, par, pool, home, p)} :: !Stray(ray, par, pool, home, p))
  {
    hide TraceReady, SmlNonNegative, MeetsCell, MeetsLine, MeetsSegment;
    forall p: nat | OnSegment(ray, par, home, p)
      ensures Reported(ray, par, pool, home, p)
    {
      SegmentReported(ray, par, pool, next, lists, home, p);
    }
    if forall p: nat {:trigger Reported(ray, par, pool, home, p)} :: Reported(ray, par, pool, home, p) <==> OnSegment(ray, par, home, p) {
      forall p: nat
        ensures !Stray(ray, par, pool, home, p)
      {
        if Reported(ray, par, pool, home, p) {
          assert OnSegment(ray, par, home, p);
        }
      }
    }
    if forall p: nat {:trigger Stray(ray, par, pool, home, p)} :: !Stray(ray, par, pool, home, p) {
      forall p: nat | Reported(ray, par, pool, home, p)
        ensures OnSegment(ray, par, home, p)
      {
        assert !Stray(ray, par, pool, home, p);
      }
    }
  }

  lemma SegmentOnLine(ray: Ray, p: Particle)
    requires MeetsSegment(ray, p)
    ensures MeetsLine(ray, p)
  {
  }

  // ----- From the build to the traversal

  lemma FiledFits(par: seq<Particle>, pool: seq<Cell>, next: seq<int>, lists: seq<seq<nat>>, ppc: nat)
    requires AllHold(par, pool, next, lists, ppc, -1)
    ensures ListsFit(par, pool, lists)
  {
    hide Inside;
    forall c | 0 <= c < |lists|
      ensures ListFits(par, lists[c])
    {
      assert Holds(par, pool[c], next, lists[c], ppc);
      forall k | 0 <= k < |lists[c]|
        ensures lists[c][k] < |par|
      {
        assert lists[c][k] in lists[c];
      }
    }
  }

  lemma BoxedLinked(par: seq<Particle>, pool0: seq<Cell>, lists: seq<seq<nat>>, pool: seq<Cell>)
    requires Linked(pool0) && ListsFit(par, pool0, lists) && HasBoxes(par, pool0, lists, pool)
    ensures Linked(pool)
  {
    hide Aabb, ListsFit;
    forall c, k | 0 <= c < |pool| && 0 <= k < |pool|
      ensures ChildOf(pool, k, c) <==> ChildOf(pool0, k, c)
    {
    }
  }

  lemma BoxedReady(par: seq<Particle>, pool0: seq<Cell>, next: seq<int>, lists: seq<seq<nat>>, home: seq<int>, ppc: nat, pool: seq<Cell>)
    requires Linked(pool0) && Subdivided(pool0) && AllHold(par, pool0, next, lists, ppc, -1) && Homed(lists, home) && |home| == |par|
    requires ListsFit(par, pool0, lists) && HasBoxes(par, pool0, lists, pool)
    ensures SmlNonNegative(par) ==> TraceReady(par, pool, next, lists, home)
  {
    hide Linked, Subdivided, Homed, ListsFit, Nested, AllOrdered, Inside, SmlNonNegative, NoRepeat, Threaded;
    BoxedLinked(par, pool0, lists, pool);
    BoxesNest(par, pool0, lists, pool);
    if SmlNonNegative(par) {
      BoxesOrdered(par, pool0, lists, pool);
    }
    forall c | 0 <= c < |pool|
      ensures Threaded(next, pool[c].headPar, lists[c]) && NoRepeat(lists[c]) && (pool[c].firstChild != -1 ==> lists[c] == [])
    {
      assert Holds(par, pool0[c], next, lists[c], ppc);
    }
  }

  lemma AllReady(par: seq<Particle>, pool0: seq<Cell>, lists: seq<seq<nat>>, pool: seq<Cell>, childDone: seq<nat>, ready: set<nat>)
    requires Linked(pool0) && ListsFit(par, pool0, lists) && Swept(par, pool0, lists, pool, childDone, ready) && |ready| >= |pool|
    ensures HasBoxes(par, pool0, lists, pool)
  {
    hide Aabb, Linked, ListsFit, KidsReady;
    assert ready <= Below(|pool|);
    SubsetSize(ready, Below(|pool|));
  }

  lemma ReadyCount(par: seq<Particle>, pool0: seq<Cell>, lists: seq<seq<nat>>, pool: seq<Cell>, childDone: seq<nat>, ready: set<nat>)
    requires Linked(pool0) && ListsFit(par, pool0, lists) && Swept(par, pool0, lists, pool, childDone, ready)
    ensures |ready| <= |pool|
  {
    hide Aabb, Linked, ListsFit, KidsReady;
    assert ready <= Below(|pool|);
    SubsetSize(ready, Below(|pool|));
  }

  lemma SweptStart(par: seq<Particle>, pool: seq<Cell>, lists: seq<seq<nat>>, childDone: seq<nat>)
    requires Linked(pool) && ListsFit(par, pool, lists) && |childDone| == |pool|
    requires forall c {:trigger childDone[c]} :: 0 <= c < |pool| ==> childDone[c] == if pool[c].firstChild == -1 then 8 else 0
    ensures Swept(par, pool, lists, pool, childDone, {})
  {
    hide Aabb;
    forall f: nat, n: nat
      ensures CountReady({}, f, n) == 0
    {
      CountNone(f, n);
    }
  }

  lemma {:induction false} CountNone(f: nat, n: nat)
    ensures CountReady({}, f, n) == 0
  {
    if n > 0 {
      CountNone(f, n - 1);
    }
  }

  lemma SweptValue(par: seq<Particle>, pool0: seq<Cell>, lists: seq<seq<nat>>, pool: seq<Cell>, childDone: seq<nat>, ready: set<nat>, c: nat)
    requires Linked(pool0) && ListsFit(par, pool0, lists) && Swept(par, pool0, lists, pool, childDone, ready) && c < |pool|
    ensures c < |pool0| && c < |childDone| && childDone[c] <= 8
    ensures pool[c].headPar == pool0[c].headPar && pool[c].firstChild == pool0[c].firstChild && pool[c].parent == pool0[c].parent
    ensures c !in ready && (forall k {:trigger k in ready} :: c < k < |pool| ==> k in ready) ==> childDone[c] == 8
  {
    hide Aabb, Linked, ListsFit, KidsReady;
    if c !in ready && (forall k {:trigger k in ready} :: c < k < |pool| ==> k in ready) {
      LastCanProcess(pool0, ready, c);
    }
  }

  ghost function Ids(x: seq<Found>): (r: seq<nat>)
    ensures |r| == |x| && forall k {:trigger r[k]} :: 0 <= k < |r| ==> r[k] == x[k].ipar
  {
    seq(|x|, k requires 0 <= k < |x| => x[k].ipar)
  }

  /** One record of the ray: the particle, its squared distance from the start and its squared impact parameter. */
  datatype Found = Found(ipar: nat, d2: real, b2: real)

  function AbsReal(r: real): real {
    if r < 0.0 then -r else r
  }

  function FoundAt(ray: Ray, par: seq<Particle>, p: nat): Found
    requires p < |par|
  {
    Found(p, Dist2(par[p].pos, ray.start), AbsReal(R2(ray, par[p].pos)))
  }

  ghost predicate AllFound(ray: Ray, par: seq<Particle>, x: seq<Found>) {
    forall k {:trigger x[k]} :: 0 <= k < |x| ==> x[k].ipar < |par| && x[k] == FoundAt(ray, par, x[k].ipar)
  }

  /** d is the squared distance of a point from the line of the ray. */
  ghost predicate LineDistance2(ray: Ray, pos: Vec3, d: real) {
    (forall u {:trigger At(ray, u)} :: d <= Dist2(At(ray, u), pos)) && exists u {:trigger At(ray, u)} :: d == Dist2(At(ray, u), pos)
  }

  /** The records of a trace: how far each particle is from the start, and how far from the line. */
  ghost predicate Measured(ray: Ray, par: seq<Particle>, x: seq<Found>) {
    forall k {:trigger x[k]} :: 0 <= k < |x| ==>
      x[k].ipar < |par| && x[k].d2 == Dist2(At(ray, 0.0), par[x[k].ipar].pos) && LineDistance2(ray, par[x[k].ipar].pos, x[k].b2)
  }

  function Squared(d: real): real {
    d * d
  }

  lemma SquaredEven(a: real, b: real)
    ensures Squared(a - b) == Squared(b - a) >= 0.0
  {
  }

  lemma SquaresSum(a: Vec3, b: Vec3)
    ensures Dist2(a, b) == Squared(a.x - b.x) + Squared(a.y - b.y) + Squared(a.z - b.z)
  {
  }

  /** The squared distance in the three coordinates. */
  lemma Dist2Is(a: Vec3, b: Vec3)
    ensures Dist2(a, b) == Squared(a.x - b.x) + Squared(a.y - b.y) + Squared(a.z - b.z)
    ensures Dist2(a, b) == Dist2(b, a) >= 0.0
  {
    hide Squared, Dist2;
    assert Dist2(a, b) == Squared(a.x - b.x) + Squared(a.y - b.y) + Squared(a.z - b.z) && Dist2(b, a) == Squared(b.x - a.x) + Squared(b.y - a.y) + Squared(b.z - a.z) by {
      SquaresSum(a, b);
      SquaresSum(b, a);
    }
    SquaredEven(a.x, b.x);
    SquaredEven(a.y, b.y);
    SquaredEven(a.z, b.z);
  }

  /** The nearest point of the line is the foot of the particle. */
  lemma R2IsNearest(ray: Ray, pos: Vec3)
    requires Unit(ray.dir)
    ensures LineDistance2(ray, pos, AbsReal(R2(ray, pos)))
  {
    hide Dist2, At, R2, Dot, Minus, Unit;
    var foot := Dot(Minus(pos, ray.start), ray.dir);
    LineDistance(ray, pos, foot);
    assert Dist2(At(ray, foot), pos) == R2(ray, pos);
    Dist2Is(At(ray, foot), pos);
    forall u
      ensures R2(ray, pos) <= Dist2(At(ray, u), pos)
    {
      LineDistance(ray, pos, u);
      assert (foot - u) * (foot - u) >= 0.0;
    }
  }

  lemma AllMeasured(ray: Ray, par: seq<Particle>, x: seq<Found>)
    requires Unit(ray.dir) && AllFound(ray, par, x)
    ensures Measured(ray, par, x)
  {
    hide LineDistance2, Unit, Dist2, R2;
    forall k | 0 <= k < |x|
      ensures x[k].ipar < |par| && x[k].d2 == Dist2(At(ray, 0.0), par[x[k].ipar].pos) && LineDistance2(ray, par[x[k].ipar].pos, x[k].b2)
    {
      assert x[k] == FoundAt(ray, par, x[k].ipar);
      assert At(ray, 0.0) == ray.start;
      Dist2Is(par[x[k].ipar].pos, ray.start);
      R2IsNearest(ray, par[x[k].ipar].pos);
    }
  }

  lemma {:induction false} TakenStep(ray: Ray, par: seq<Particle>, list: seq<nat>, k: nat)
    requires k < |list| && ListFits(par, list)
    ensures list[k] < |par|
    ensures Taken(ray, par, list, k + 1) == Taken(ray, par, list, k) + if Takes(ray, par[list[k]]) then [list[k]] else []
  {
  }

  lemma AabbIs(par: seq<Particle>, pool: seq<Cell>, lists: seq<seq<nat>>, c: nat)
    requires Linked(pool) && ListsFit(par, pool, lists) && c < |pool|
    ensures ListFits(par, lists[c])
    ensures Aabb(par, pool, lists, c) ==
      if pool[c].firstChild == -1 then Fold(BoxOf(pool[c]), Cubes(par, lists[c]), |lists[c]|) else Fold(BoxOf(pool[c]), Kids(par, pool, lists, c, 8), 8)
  {
  }

  lemma LeafThreaded(par: seq<Particle>, pool: seq<Cell>, next: seq<int>, lists: seq<seq<nat>>, ppc: nat, c: nat)
    requires AllHold(par, pool, next, lists, ppc, -1) && c < |pool|
    ensures c < |lists| && Threaded(next, pool[c].headPar, lists[c])
  {
    hide Inside;
    assert Holds(par, pool[c], next, lists[c], ppc);
  }

  lemma BoxKeepsLinks(c: Cell, b: Box)
    ensures WithBox(c, b).parent == c.parent
  {
  }

  lemma FoundNone(ray: Ray, par: seq<Particle>)
    ensures AllFound(ray, par, [])
  {
  }

  lemma AtRoot(ray: Ray, par: seq<Particle>, pool: seq<Cell>, lists: seq<seq<nat>>)
    requires Walkable(par, pool, lists) && |pool| > 0
    ensures After(ray, par, pool, lists, 0) == []
  {
  }

  lemma VisitIs(ray: Ray, par: seq<Particle>, pool: seq<Cell>, lists: seq<seq<nat>>, c: nat)
    requires Walkable(par, pool, lists) && c < |pool|
    ensures c < |lists| && ListFits(par, lists[c]) && Linked(pool) && Size(pool, c) >= 1
    ensures !HitCell(ray, pool[c]) ==> Visit(ray, par, pool, lists, c) == []
    ensures HitCell(ray, pool[c]) && pool[c].firstChild == -1 ==> Visit(ray, par, pool, lists, c) == Taken(ray, par, lists[c], |lists[c]|)
  {
  }

  /** The k-th entry of a threaded list, and the one after it. */
  ghost function Entry(l: seq<nat>, k: nat): int {
    if k < |l| then l[k] else -1
  }

  lemma ThreadedAt(next: seq<int>, head: int, l: seq<nat>, k: nat)
    requires Threaded(next, head, l)
    ensures head == Entry(l, 0)
    ensures k < |l| ==> l[k] < |next| && next[l[k]] == Entry(l, k + 1)
  {
  }

  lemma FoundMore(ray: Ray, par: seq<Particle>, x: seq<Found>, p: nat)
    requires AllFound(ray, par, x) && p < |par|
    ensures AllFound(ray, par, x + [FoundAt(ray, par, p)]) && Ids(x + [FoundAt(ray, par, p)]) == Ids(x) + [p]
  {
  }

  lemma FoldStep(b: Box, items: seq<Box>, n: nat)
    requires n < |items|
    ensures Fold(b, items, n + 1) == Stretch(Fold(b, items, n), n == 0, items[n]) && Fold(b, items, 0) == b
  {
  }

  lemma TakenNone(ray: Ray, par: seq<Particle>, list: seq<nat>)
    requires ListFits(par, list)
    ensures forall i {:trigger list[i]} :: 0 <= i < |list| ==> list[i] < |par|
    ensures Taken(ray, par, list, 0) == []
  {
  }

  lemma FitsAt(par: seq<Particle>, list: seq<nat>, k: nat)
    requires ListFits(par, list) && k < |list|
    ensures list[k] < |par|
  {
  }
}
