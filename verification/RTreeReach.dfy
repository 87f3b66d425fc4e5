/** Which particles a walk over the packed R-tree meets, without the tree. */
module RTreeReach {
  import opened SegmentBox
  import opened OctreeBoxes
  import opened RTreeNodes
  import opened RTreeWalks

  /** p[d]. */
  function Coord(p: Vec3, d: nat): real
    requires d < 3
  {
    if d == 0 then p.x else if d == 1 then p.y else p.z
  }

  /** The two particles are in the same leaf. */
  predicate Mates(i: nat, j: nat) {
    i / 12 == j / 12
  }

  /** Along axis d, some kernel cube of j's leaf begins before u. */
  ghost predicate BeginsBefore(pos: seq<Vec3>, sml: seq<real>, j: nat, d: nat, u: real)
    requires |pos| == |sml| && d < 3
  {
    exists i: nat {:trigger pos[i]} :: i < |pos| && Mates(i, j) && Coord(pos[i], d) - sml[i] <= u
  }

  /** Along axis d, some kernel cube of j's leaf ends after u. */
  ghost predicate EndsAfter(pos: seq<Vec3>, sml: seq<real>, j: nat, d: nat, u: real)
    requires |pos| == |sml| && d < 3
  {
    exists i: nat {:trigger pos[i]} :: i < |pos| && Mates(i, j) && u <= Coord(pos[i], d) + sml[i]
  }

  /** The point is in the smallest box around the kernel cubes of the particles of j's leaf. */
  ghost predicate InHull(q: Vec3, pos: seq<Vec3>, sml: seq<real>, j: nat)
    requires |pos| == |sml|
  {
    forall d: nat {:trigger Coord(q, d)} :: d < 3 ==> BeginsBefore(pos, sml, j, d, Coord(q, d)) && EndsAfter(pos, sml, j, d, Coord(q, d))
  }

  /** The point is in the cube of half-width h around p. */
  ghost predicate InCube(q: Vec3, p: Vec3, h: real) {
    forall d: nat {:trigger Coord(q, d)} :: d < 3 ==> Coord(p, d) - h <= Coord(q, d) <= Coord(p, d) + h
  }

  /**
    A search with half-width h around p meets particle j: along every axis, some kernel cube of its leaf begins before the
    end of the search box, and some ends after its beginning.
   */
  ghost predicate Reached(pos: seq<Vec3>, sml: seq<real>, p: Vec3, h: real, j: nat)
    requires |pos| == |sml|
  {
    j < |pos| && forall d: nat {:trigger Coord(p, d)} :: d < 3 ==> BeginsBefore(pos, sml, j, d, Coord(p, d) + h) && EndsAfter(pos, sml, j, d, Coord(p, d) - h)
  }

  ghost function ReachedSet(pos: seq<Vec3>, sml: seq<real>, p: Vec3, h: real): (s: set<nat>)
    requires |pos| == |sml|
    ensures forall j: nat {:trigger j in s} :: j in s <==> Reached(pos, sml, p, h, j)
  {
    set j | 0 <= j < |pos| && Reached(pos, sml, p, h, j)
  }

  /** For half-widths that are not negative: the search cube and the box around the leaf have a point in common. */
  lemma ReachedIff(pos: seq<Vec3>, sml: seq<real>, p: Vec3, h: real, j: nat)
    requires |pos| == |sml| && RadiiNonNegative(sml) && h >= 0.0 && j < |pos|
    ensures Reached(pos, sml, p, h, j) <==> exists q {:trigger InHull(q, pos, sml, j)} {:trigger InCube(q, p, h)} :: InHull(q, pos, sml, j) && InCube(q, p, h)
  {
    if Reached(pos, sml, p, h, j) {
      var x := AxisPoint(pos, sml, p, h, j, 0);
      var y := AxisPoint(pos, sml, p, h, j, 1);
      var z := AxisPoint(pos, sml, p, h, j, 2);
      var q := Vec3(x, y, z);
      assert InHull(q, pos, sml, j) && InCube(q, p, h);
    }
    if q :| InHull(q, pos, sml, j) && InCube(q, p, h) {
      forall d: nat | d < 3
        ensures BeginsBefore(pos, sml, j, d, Coord(p, d) + h) && EndsAfter(pos, sml, j, d, Coord(p, d) - h)
      {
        var u := Coord(q, d);
        BeginsLater(pos, sml, j, d, u, Coord(p, d) + h);
        EndsEarlier(pos, sml, j, d, u, Coord(p, d) - h);
      }
    }
  }

  lemma BeginsLater(pos: seq<Vec3>, sml: seq<real>, j: nat, d: nat, u: real, v: real)
    requires |pos| == |sml| && d < 3 && BeginsBefore(pos, sml, j, d, u) && u <= v
    ensures BeginsBefore(pos, sml, j, d, v)
  {
  }

  lemma EndsEarlier(pos: seq<Vec3>, sml: seq<real>, j: nat, d: nat, u: real, v: real)
    requires |pos| == |sml| && d < 3 && EndsAfter(pos, sml, j, d, u) && v <= u
    ensures EndsAfter(pos, sml, j, d, v)
  {
  }

  /** A common point along one axis. */
  lemma AxisPoint(pos: seq<Vec3>, sml: seq<real>, p: Vec3, h: real, j: nat, d: nat) returns (u: real)
    requires |pos| == |sml| && RadiiNonNegative(sml) && h >= 0.0 && d < 3
    requires BeginsBefore(pos, sml, j, d, Coord(p, d) + h) && EndsAfter(pos, sml, j, d, Coord(p, d) - h)
    ensures Coord(p, d) - h <= u <= Coord(p, d) + h && BeginsBefore(pos, sml, j, d, u) && EndsAfter(pos, sml, j, d, u)
  {
    var i: nat :| i < |pos| && Mates(i, j) && Coord(pos[i], d) - sml[i] <= Coord(p, d) + h;
    var low := Coord(pos[i], d) - sml[i];
    u := if low <= Coord(p, d) - h then Coord(p, d) - h else low;
    assert sml[i] >= 0.0;
  }

  /** A wider search meets the same particles, and maybe more. */
  lemma ReachedMonotone(pos: seq<Vec3>, sml: seq<real>, p: Vec3, g: real, h: real)
    requires |pos| == |sml| && g <= h
    ensures ReachedSet(pos, sml, p, g) <= ReachedSet(pos, sml, p, h)
  {
    forall j: nat | Reached(pos, sml, p, g, j)
      ensures Reached(pos, sml, p, h, j)
    {
      forall d: nat | d < 3
        ensures BeginsBefore(pos, sml, j, d, Coord(p, d) + h) && EndsAfter(pos, sml, j, d, Coord(p, d) - h)
      {
        BeginsLater(pos, sml, j, d, Coord(p, d) + g, Coord(p, d) + h);
        EndsEarlier(pos, sml, j, d, Coord(p, d) - g, Coord(p, d) - h);
      }
    }
  }

  /** A particle in the search box is met. */
  lemma InsideReached(pos: seq<Vec3>, sml: seq<real>, p: Vec3, h: real, j: nat)
    requires |pos| == |sml| && RadiiNonNegative(sml) && j < |pos| && Contains(SearchBox(p, h), pos[j])
    ensures Reached(pos, sml, p, h, j)
  {
    assert sml[j] >= 0.0;
    forall d: nat | d < 3
      ensures BeginsBefore(pos, sml, j, d, Coord(p, d) + h) && EndsAfter(pos, sml, j, d, Coord(p, d) - h)
    {
      assert Mates(j, j) && Coord(pos[j], d) - sml[j] <= Coord(p, d) + h && Coord(p, d) - h <= Coord(pos[j], d) + sml[j];
    }
  }

  // ----- The box of a leaf

  /** Box b with its lower side, or its upper side, along axis d moved to u. */
  function WithLow(b: Box, d: nat, u: real): Box
    requires d < 3
  {
    Box(Vec3(if d == 0 then u else b.bot.x, if d == 1 then u else b.bot.y, if d == 2 then u else b.bot.z), b.top)
  }

  function WithHigh(b: Box, d: nat, u: real): Box
    requires d < 3
  {
    Box(b.bot, Vec3(if d == 0 then u else b.top.x, if d == 1 then u else b.top.y, if d == 2 then u else b.top.z))
  }

  /** The cube that begins first along an axis. */
  lemma {:induction false} FirstCube(pos: seq<Vec3>, sml: seq<real>, lo: nat, hi: nat, d: nat) returns (i: nat)
    requires |pos| == |sml| && lo < hi <= |pos| && d < 3
    ensures lo <= i < hi && forall k: nat {:trigger pos[k]} {:trigger sml[k]} :: lo <= k < hi ==> Coord(pos[i], d) - sml[i] <= Coord(pos[k], d) - sml[k]
  {
    if lo + 1 == hi {
      i := lo;
    } else {
      i := FirstCube(pos, sml, lo, hi - 1, d);
      if Coord(pos[hi - 1], d) - sml[hi - 1] < Coord(pos[i], d) - sml[i] {
        i := hi - 1;
      }
    }
  }

  lemma {:induction false} LastCube(pos: seq<Vec3>, sml: seq<real>, lo: nat, hi: nat, d: nat) returns (i: nat)
    requires |pos| == |sml| && lo < hi <= |pos| && d < 3
    ensures lo <= i < hi && forall k: nat {:trigger pos[k]} {:trigger sml[k]} :: lo <= k < hi ==> Coord(pos[k], d) + sml[k] <= Coord(pos[i], d) + sml[i]
  {
    if lo + 1 == hi {
      i := lo;
    } else {
      i := LastCube(pos, sml, lo, hi - 1, d);
      if Coord(pos[hi - 1], d) + sml[hi - 1] > Coord(pos[i], d) + sml[i] {
        i := hi - 1;
      }
    }
  }

  /** A smallest box begins where a cube begins. */
  lemma LowSide(pos: seq<Vec3>, sml: seq<real>, s: Span, box: Box, d: nat) returns (i: nat)
    requires |pos| == |sml| && s.lo < s.hi && CubesIn(pos, sml, s, box) && Snug(pos, sml, s, box) && d < 3
    ensures s.lo <= i < s.hi <= |pos| && Coord(box.bot, d) == Coord(pos[i], d) - sml[i]
    ensures forall k: nat {:trigger pos[k]} :: s.lo <= k < s.hi ==> Coord(box.bot, d) <= Coord(pos[k], d) - sml[k]
  {
    i := FirstCube(pos, sml, s.lo, s.hi, d);
    var tight := WithLow(box, d, Coord(pos[i], d) - sml[i]);
    assert CubesIn(pos, sml, s, tight);
    assert Within(box, tight) && Within(CubeAt(pos[i], sml[i]), box);
  }

  lemma HighSide(pos: seq<Vec3>, sml: seq<real>, s: Span, box: Box, d: nat) returns (i: nat)
    requires |pos| == |sml| && s.lo < s.hi && CubesIn(pos, sml, s, box) && Snug(pos, sml, s, box) && d < 3
    ensures s.lo <= i < s.hi <= |pos| && Coord(box.top, d) == Coord(pos[i], d) + sml[i]
    ensures forall k: nat {:trigger pos[k]} :: s.lo <= k < s.hi ==> Coord(pos[k], d) + sml[k] <= Coord(box.top, d)
  {
    i := LastCube(pos, sml, s.lo, s.hi, d);
    var tight := WithHigh(box, d, Coord(pos[i], d) + sml[i]);
    assert CubesIn(pos, sml, s, tight);
    assert Within(box, tight) && Within(CubeAt(pos[i], sml[i]), box);
  }

  /** The comparisons of `intersect` with a search box. */
  lemma IntersectAxes(a: Box, p: Vec3, h: real)
    ensures Intersect(a, SearchBox(p, h)) <==> forall d: nat {:trigger Coord(p, d)} :: d < 3 ==> Coord(a.bot, d) <= Coord(p, d) + h && Coord(p, d) - h <= Coord(a.top, d)
  {
    var x, y, z := Coord(p, 0), Coord(p, 1), Coord(p, 2);
  }

  /** The search box meets the box of a leaf exactly when it meets the leaf's particles. */
  lemma LeafReached(pos: seq<Vec3>, sml: seq<real>, s: Span, box: Box, p: Vec3, h: real, j: nat)
    requires |pos| == |sml| && s.lo <= j < s.hi <= |pos| && CubesIn(pos, sml, s, box) && Snug(pos, sml, s, box)
    requires forall i: nat {:trigger Mates(i, j)} :: i < |pos| ==> (Mates(i, j) <==> s.lo <= i < s.hi)
    ensures Intersect(box, SearchBox(p, h)) <==> Reached(pos, sml, p, h, j)
  {
    hide CubesIn, Snug, Intersect, Mates;
    IntersectAxes(box, p, h);
    forall d: nat | d < 3
      ensures Coord(box.bot, d) <= Coord(p, d) + h <==> BeginsBefore(pos, sml, j, d, Coord(p, d) + h)
      ensures Coord(p, d) - h <= Coord(box.top, d) <==> EndsAfter(pos, sml, j, d, Coord(p, d) - h)
    {
      var i := LowSide(pos, sml, s, box, d);
      var k := HighSide(pos, sml, s, box, d);
      assert Mates(i, j) && Mates(k, j);
    }
  }

  // ----- The walk

  /** A finished tree with full leaves and smallest boxes. */
  ghost predicate PackedTree(pool: seq<Node>, span: seq<Span>, pos: seq<Vec3>, sml: seq<real>) {
    |pos| == |sml| && TreeOk(pool, span, pos, sml) && Packed(pool, span, |pos|) && AllSnug(pool, span, pos, sml)
  }

  lemma LeafOf(pool: seq<Node>, span: seq<Span>, pos: seq<Vec3>, sml: seq<real>, c: nat, j: nat)
    requires |pos| == |sml| && PackedTree(pool, span, pos, sml) && c < |pool| && Leaf(pool[c]) && span[c].lo <= j < span[c].hi
    ensures j < |pos| && |pos| == |sml| && CubesIn(pos, sml, span[c], pool[c].box) && Snug(pos, sml, span[c], pool[c].box)
    ensures forall i: nat {:trigger Mates(i, j)} :: i < |pos| ==> (Mates(i, j) <==> span[c].lo <= i < span[c].hi)
  {
    hide CubesIn, Snug;
    TreeSpan(pool, span, pos, sml, c);
    LeafCubes(pool, span, pos, sml, c);
    assert span[c].lo == c * 12;
    forall i: nat | i < |pos|
      ensures Mates(i, j) <==> span[c].lo <= i < span[c].hi
    {
      TwelveEach(i, c);
      TwelveEach(j, c);
    }
  }

  lemma TwelveEach(i: nat, c: nat)
    ensures i / 12 == c <==> c * 12 <= i < c * 12 + 12
  {
  }

  lemma LeafCubes(pool: seq<Node>, span: seq<Span>, pos: seq<Vec3>, sml: seq<real>, c: nat)
    requires TreeOk(pool, span, pos, sml) && c < |pool| && Leaf(pool[c])
    ensures |pos| == |sml| && CubesIn(pos, sml, span[c], pool[c].box)
  {
    NodeAt(pool, span, pos, sml, c);
  }

  lemma WiderMeets(a: Box, a': Box, b: Box)
    requires Within(a, a') && Intersect(a, b)
    ensures Intersect(a', b)
  {
  }

  /** Below node c exactly the particles are visited whose leaf meets the search box; then so do all boxes on the way. */
  lemma {:induction false} VisitReached(pool: seq<Node>, span: seq<Span>, pos: seq<Vec3>, sml: seq<real>, p: Vec3, h: real, c: nat, j: nat)
    requires |pos| == |sml| && PackedTree(pool, span, pos, sml) && c < |pool| && span[c].lo <= j < span[c].hi
    ensures (j in Visit(pool, span, pos, sml, SearchBox(p, h), c) <==> Reached(pos, sml, p, h, j))
    ensures Reached(pos, sml, p, h, j) ==> Intersect(pool[c].box, SearchBox(p, h))
    decreases c
  {
    hide TreeOk, Packed, AllSnug, VisitKids, Intersect, Within, Reached, SearchBox;
    var b := SearchBox(p, h);
    VisitIs(pool, span, pos, sml, b, c);
    hide Visit;
    RootSpan(pool, span, pos, sml);
    if Leaf(pool[c]) {
      LeafOf(pool, span, pos, sml, c, j);
      LeafReached(pos, sml, span[c], pool[c].box, p, h, j);
      assert Range(span[c].lo, span[c].hi)[j - span[c].lo] == j;
    } else {
      KidsSpan(pool, span, pos, sml, c);
      var f, end := pool[c].firstChild, pool[c].firstChild + pool[c].length;
      var k := KidWith(pool, span, pos, sml, f, end, c, j);
      VisitReached(pool, span, pos, sml, p, h, k, j);
      if Reached(pos, sml, p, h, j) {
        WiderMeets(pool[k].box, pool[c].box, b);
      }
      InKids(pool, span, pos, sml, b, f, k, end, c, j);
    }
  }

  /** Among the children, only the one that has the particle can visit it. */
  lemma {:induction false} InKids(pool: seq<Node>, span: seq<Span>, pos: seq<Vec3>, sml: seq<real>, b: Box, f: nat, k: nat, end: nat, c: nat, j: nat)
    requires TreeOk(pool, span, pos, sml) && |span| == |pool| && f <= k < end <= c < |pool| && Tiles(span, f, end) && span[k].lo <= j < span[k].hi
    ensures j in VisitKids(pool, span, pos, sml, b, f, end, c) <==> j in Visit(pool, span, pos, sml, b, k)
    decreases k - f
  {
    hide TreeOk, Visit, VisitKids;
    VisitKidsIs(pool, span, pos, sml, b, f, end, c);
    VisitIncreasing(pool, span, pos, sml, b, f);
    if f < k {
      InKids(pool, span, pos, sml, b, f + 1, k, end, c, j);
      KidsOrder(pool, span, pos, sml, f, k, end);
    } else if k + 1 < end {
      VisitKidsIncreasing(pool, span, pos, sml, b, k + 1, end, c);
      assert span[k].hi == span[k + 1].lo;
    } else {
      RTreeWalks.NoKids(pool, span, pos, sml, b, end, c);
    }
  }

  lemma {:induction false} KidsOrder(pool: seq<Node>, span: seq<Span>, pos: seq<Vec3>, sml: seq<real>, f: nat, k: nat, end: nat)
    requires TreeOk(pool, span, pos, sml) && |span| == |pool| && f < k < end <= |pool| && Tiles(span, f, end)
    ensures span[f].hi <= span[k].lo
    decreases k
  {
    hide TreeOk;
    assert span[k - 1].hi == span[k].lo;
    TreeSpan(pool, span, pos, sml, k - 1);
    if f < k - 1 {
      KidsOrder(pool, span, pos, sml, f, k - 1, end);
    }
  }

  /** The particles that a walk with half-width h around p meets. */
  ghost function Met(pool: seq<Node>, span: seq<Span>, pos: seq<Vec3>, sml: seq<real>, p: Vec3, h: real): seq<nat>
    requires TreeOk(pool, span, pos, sml)
  {
    Visit(pool, span, pos, sml, SearchBox(p, h), |pool| - 1)
  }

  lemma Beyond(pos: seq<Vec3>, sml: seq<real>, p: Vec3, h: real, j: nat)
    requires |pos| == |sml| && j >= |pos|
    ensures !Reached(pos, sml, p, h, j)
  {
  }

  lemma MetIsReached(pool: seq<Node>, span: seq<Span>, pos: seq<Vec3>, sml: seq<real>, p: Vec3, h: real)
    requires |pos| == |sml| && PackedTree(pool, span, pos, sml)
    ensures |Met(pool, span, pos, sml, p, h)| == |ReachedSet(pos, sml, p, h)|
    ensures forall j: nat {:trigger j in Met(pool, span, pos, sml, p, h)} :: j in Met(pool, span, pos, sml, p, h) <==> j in ReachedSet(pos, sml, p, h)
  {
    hide TreeOk, Packed, AllSnug, Visit, Reached, SearchBox;
    RootSpan(pool, span, pos, sml);
    VisitBounded(pool, span, pos, sml, SearchBox(p, h));
    var ids := Met(pool, span, pos, sml, p, h);
    forall j: nat
      ensures j in ids <==> j in ReachedSet(pos, sml, p, h)
    {
      if j < |pos| {
        VisitReached(pool, span, pos, sml, p, h, |pool| - 1, j);
      } else {
        Beyond(pos, sml, p, h, j);
      }
    }
    SizeOf(ids, |pos|, ReachedSet(pos, sml, p, h));
  }

  lemma {:induction false} SizeOf(ids: seq<nat>, hi: nat, s: set<nat>)
    requires Increasing(ids, 0, hi) && forall j: nat {:trigger j in s} :: j in s <==> j in ids
    ensures |ids| == |s|
  {
    if ids == [] {
      assert s == {};
    } else {
      var last, rest := ids[|ids| - 1], ids[..|ids| - 1];
      assert ids == rest + [last];
      SizeOf(rest, hi, s - {last});
    }
  }
}
