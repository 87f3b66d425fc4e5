/** Properties of the R-tree walk. */
module RTreeWalks {
  import opened SegmentBox
  import opened OctreeBoxes
  import opened RTreeNodes
  import opened BoundedLists
  import OctreeTrace

  // ----- The stackless walk follows the recursive visit

  lemma VisitKidsIs(pool: seq<Node>, span: seq<Span>, pos: seq<Vec3>, sml: seq<real>, b: Box, k: nat, end: nat, c: nat)
    requires TreeOk(pool, span, pos, sml) && k < end <= c < |pool|
    ensures VisitKids(pool, span, pos, sml, b, k, end, c) == Visit(pool, span, pos, sml, b, k) + VisitKids(pool, span, pos, sml, b, k + 1, end, c)
    ensures SizeKids(pool, span, pos, sml, k, end, c) == Size(pool, span, pos, sml, k) + SizeKids(pool, span, pos, sml, k + 1, end, c)
  {
    hide TreeOk;
  }

  lemma NoKids(pool: seq<Node>, span: seq<Span>, pos: seq<Vec3>, sml: seq<real>, b: Box, end: nat, c: nat)
    requires TreeOk(pool, span, pos, sml) && end <= c < |pool|
    ensures VisitKids(pool, span, pos, sml, b, end, end, c) == [] && SizeKids(pool, span, pos, sml, end, end, c) == 0
  {
    hide TreeOk;
  }

  lemma KidsAnyParent(pool: seq<Node>, span: seq<Span>, pos: seq<Vec3>, sml: seq<real>, c: nat)
    requires TreeOk(pool, span, pos, sml) && c < |pool|
    ensures 0 <= pool[c].kind <= 3
    ensures !Leaf(pool[c]) ==> pool[c].length > 0 && 0 <= pool[c].firstChild && pool[c].firstChild + pool[c].length <= c
    ensures c < |pool| - 1 ==> Parented(pool, c)
  {
    NodeAt(pool, span, pos, sml, c);
  }

  lemma AfterIs(pool: seq<Node>, span: seq<Span>, pos: seq<Vec3>, sml: seq<real>, b: Box, c: nat, p: nat, end: nat)
    requires TreeOk(pool, span, pos, sml) && c < |pool| - 1 && pool[c].parent == p < |pool| && c < end <= p
    requires pool[p].firstChild + pool[p].length == end
    ensures After(pool, span, pos, sml, b, c) == VisitKids(pool, span, pos, sml, b, c + 1, end, p) + After(pool, span, pos, sml, b, p)
    ensures SizeAfter(pool, span, pos, sml, c) == SizeKids(pool, span, pos, sml, c + 1, end, p) + SizeAfter(pool, span, pos, sml, p)
  {
    hide TreeOk, Visit, VisitKids, Size, SizeKids;
  }

  lemma AfterRoot(pool: seq<Node>, span: seq<Span>, pos: seq<Vec3>, sml: seq<real>, b: Box)
    requires TreeOk(pool, span, pos, sml)
    ensures After(pool, span, pos, sml, b, |pool| - 1) == [] && SizeAfter(pool, span, pos, sml, |pool| - 1) == 0
  {
  }

  lemma VisitIs(pool: seq<Node>, span: seq<Span>, pos: seq<Vec3>, sml: seq<real>, b: Box, c: nat)
    requires TreeOk(pool, span, pos, sml) && c < |pool|
    ensures 0 <= pool[c].kind <= 3 && Size(pool, span, pos, sml, c) > 0 && |span| == |pool|
    ensures !Intersect(pool[c].box, b) ==> Visit(pool, span, pos, sml, b, c) == []
    ensures Intersect(pool[c].box, b) && Leaf(pool[c]) ==>
      span[c].lo <= span[c].hi <= |pos| && pool[c].firstChild == span[c].lo && pool[c].length == span[c].hi - span[c].lo
      && Visit(pool, span, pos, sml, b, c) == Range(span[c].lo, span[c].hi)
    ensures Intersect(pool[c].box, b) && !Leaf(pool[c]) ==>
      var f, n := pool[c].firstChild, pool[c].length;
      0 <= f && n > 0 && f + n <= c && Visit(pool, span, pos, sml, b, c) == VisitKids(pool, span, pos, sml, b, f, f + n, c)
      && Size(pool, span, pos, sml, c) == 1 + SizeKids(pool, span, pos, sml, f, f + n, c)
  {
    NodeAt(pool, span, pos, sml, c);
    hide TreeOk, VisitKids, SizeKids;
  }

  /** Down to the first child. */
  lemma Descend(pool: seq<Node>, span: seq<Span>, pos: seq<Vec3>, sml: seq<real>, b: Box, c: nat)
    requires TreeOk(pool, span, pos, sml) && c < |pool| && !Leaf(pool[c]) && Intersect(pool[c].box, b)
    ensures var f := pool[c].firstChild;
      && 0 <= f < c
      && Visit(pool, span, pos, sml, b, c) + After(pool, span, pos, sml, b, c) == Visit(pool, span, pos, sml, b, f) + After(pool, span, pos, sml, b, f)
      && Size(pool, span, pos, sml, c) + SizeAfter(pool, span, pos, sml, c) == 1 + Size(pool, span, pos, sml, f) + SizeAfter(pool, span, pos, sml, f)
  {
    hide TreeOk, Visit, VisitKids, Size, SizeKids, After, SizeAfter, Intersect;
    VisitIs(pool, span, pos, sml, b, c);
    var f, n := pool[c].firstChild, pool[c].length;
    FirstKid(pool, span, pos, sml, c);
    VisitKidsIs(pool, span, pos, sml, b, f, f + n, c);
    AfterIs(pool, span, pos, sml, b, f, c, f + n);
  }

  /** The children of a node name it as their parent. */
  lemma FirstKid(pool: seq<Node>, span: seq<Span>, pos: seq<Vec3>, sml: seq<real>, c: nat)
    requires TreeOk(pool, span, pos, sml) && c < |pool| && !Leaf(pool[c])
    ensures pool[c].length > 0 && 0 <= pool[c].firstChild < c && pool[pool[c].firstChild].parent == c
  {
    NodeAt(pool, span, pos, sml, c);
  }

  /** From a finished node: the next sibling, or what comes after the parent when it is the last child. */
  lemma MoveOn(pool: seq<Node>, span: seq<Span>, pos: seq<Vec3>, sml: seq<real>, b: Box, c: nat)
    requires TreeOk(pool, span, pos, sml) && c < |pool| - 1
    ensures c < pool[c].parent < |pool|
    ensures if Last(pool[c]) then
        && After(pool, span, pos, sml, b, c) == After(pool, span, pos, sml, b, pool[c].parent)
        && SizeAfter(pool, span, pos, sml, c) == SizeAfter(pool, span, pos, sml, pool[c].parent)
      else
        && c + 1 < |pool|
        && After(pool, span, pos, sml, b, c) == Visit(pool, span, pos, sml, b, c + 1) + After(pool, span, pos, sml, b, c + 1)
        && SizeAfter(pool, span, pos, sml, c) == Size(pool, span, pos, sml, c + 1) + SizeAfter(pool, span, pos, sml, c + 1)
  {
    hide TreeOk, Visit, VisitKids, Size, SizeKids, After, SizeAfter;
    KidsAnyParent(pool, span, pos, sml, c);
    var p := pool[c].parent;
    KidsAnyParent(pool, span, pos, sml, p);
    var end := pool[p].firstChild + pool[p].length;
    AfterIs(pool, span, pos, sml, b, c, p, end);
    if Last(pool[c]) {
      NoKids(pool, span, pos, sml, b, end, p);
    } else {
      VisitKidsIs(pool, span, pos, sml, b, c + 1, end, p);
      SiblingParent(pool, span, pos, sml, c);
      AfterIs(pool, span, pos, sml, b, c + 1, p, end);
    }
  }

  lemma SiblingParent(pool: seq<Node>, span: seq<Span>, pos: seq<Vec3>, sml: seq<real>, c: nat)
    requires TreeOk(pool, span, pos, sml) && c < |pool| - 1 && !Last(pool[c])
    ensures c + 1 < pool[c].parent < |pool| && pool[c + 1].parent == pool[c].parent
  {
    NodeAt(pool, span, pos, sml, c);
    NodeAt(pool, span, pos, sml, pool[c].parent);
  }

  // ----- What is visited

  /** Strictly increasing numbers of [lo, hi). */
  ghost predicate Increasing(s: seq<nat>, lo: nat, hi: nat) {
    && (forall i {:trigger s[i]} :: 0 <= i < |s| ==> lo <= s[i] < hi)
    && (forall i, j {:trigger s[i], s[j]} :: 0 <= i < j < |s| ==> s[i] < s[j])
  }

  lemma IncreasingJoin(a: seq<nat>, b: seq<nat>, lo: nat, mid: nat, mid': nat, hi: nat)
    requires Increasing(a, lo, mid) && Increasing(b, mid', hi) && lo <= mid <= mid' <= hi
    ensures Increasing(a + b, lo, hi)
  {
  }

  /** Every particle is visited at most once, in order, and only below the node. */
  lemma {:induction false} VisitIncreasing(pool: seq<Node>, span: seq<Span>, pos: seq<Vec3>, sml: seq<real>, b: Box, c: nat)
    requires TreeOk(pool, span, pos, sml) && c < |pool|
    ensures Increasing(Visit(pool, span, pos, sml, b, c), span[c].lo, span[c].hi)
    decreases c, 1, 0
  {
    hide TreeOk, VisitKids, Intersect;
    VisitIs(pool, span, pos, sml, b, c);
    hide Visit;
    if Intersect(pool[c].box, b) && !Leaf(pool[c]) {
      var f, n := pool[c].firstChild, pool[c].length;
      KidsSpan(pool, span, pos, sml, c);
      TreeSpan(pool, span, pos, sml, c);
      VisitKidsIncreasing(pool, span, pos, sml, b, f, f + n, c);
    }
  }

  lemma KidsSpan(pool: seq<Node>, span: seq<Span>, pos: seq<Vec3>, sml: seq<real>, c: nat)
    requires TreeOk(pool, span, pos, sml) && c < |pool| && !Leaf(pool[c])
    ensures var f, n := pool[c].firstChild, pool[c].length;
      && 0 <= f && n > 0 && f + n <= c && span[f].lo == span[c].lo && span[f + n - 1].hi == span[c].hi && Tiles(span, f, f + n)
      && KidsIn(pool, f, n, pool[c].box)
  {
    NodeAt(pool, span, pos, sml, c);
  }

  lemma TreeSpan(pool: seq<Node>, span: seq<Span>, pos: seq<Vec3>, sml: seq<real>, c: nat)
    requires TreeOk(pool, span, pos, sml) && c < |pool|
    ensures |span| == |pool| && span[c].lo < span[c].hi <= |pos|
  {
    NodeAt(pool, span, pos, sml, c);
  }

  lemma {:induction false} VisitKidsIncreasing(pool: seq<Node>, span: seq<Span>, pos: seq<Vec3>, sml: seq<real>, b: Box, k: nat, end: nat, c: nat)
    requires TreeOk(pool, span, pos, sml) && |span| == |pool| && k < end <= c < |pool| && Tiles(span, k, end)
    ensures Increasing(VisitKids(pool, span, pos, sml, b, k, end, c), span[k].lo, span[end - 1].hi) && span[k].lo < span[end - 1].hi
    decreases end, 0, end - k
  {
    hide TreeOk, Visit, VisitKids;
    VisitKidsIs(pool, span, pos, sml, b, k, end, c);
    VisitIncreasing(pool, span, pos, sml, b, k);
    TreeSpan(pool, span, pos, sml, k);
    if k + 1 < end {
      VisitKidsIncreasing(pool, span, pos, sml, b, k + 1, end, c);
      assert span[k].hi == span[k + 1].lo;
      IncreasingJoin(Visit(pool, span, pos, sml, b, k), VisitKids(pool, span, pos, sml, b, k + 1, end, c), span[k].lo, span[k].hi, span[k + 1].lo, span[end - 1].hi);
    } else {
      NoKids(pool, span, pos, sml, b, end, c);
    }
  }

  ghost predicate RadiiNonNegative(sml: seq<real>) {
    forall j {:trigger sml[j]} :: 0 <= j < |sml| ==> sml[j] >= 0.0
  }

  /** The child that has a particle. */
  lemma {:induction false} KidWith(pool: seq<Node>, span: seq<Span>, pos: seq<Vec3>, sml: seq<real>, f: nat, end: nat, c: nat, j: nat) returns (k: nat)
    requires TreeOk(pool, span, pos, sml) && |span| == |pool| && f < end <= c < |pool| && Tiles(span, f, end) && span[f].lo <= j < span[end - 1].hi
    ensures f <= k < end && span[k].lo <= j < span[k].hi
    decreases end - f
  {
    hide TreeOk;
    if j < span[f].hi {
      k := f;
    } else {
      assert f + 1 < end ==> span[f].hi == span[f + 1].lo;
      k := KidWith(pool, span, pos, sml, f + 1, end, c, j);
    }
  }

  // ----- The list made from the visit

  function D2(pos: seq<Vec3>, p: Vec3, j: nat): real
    requires j < |pos|
  {
    OctreeTrace.Dist2(pos[j], p)
  }

  ghost function Nears(pos: seq<Vec3>, p: Vec3, ids: seq<nat>): (l: seq<Near>)
    requires forall i {:trigger ids[i]} :: 0 <= i < |ids| ==> ids[i] < |pos|
    ensures |l| == |ids| && forall i {:trigger l[i]} :: 0 <= i < |l| ==> l[i] == Near(ids[i], D2(pos, p, ids[i]))
  {
    seq(|ids|, i requires 0 <= i < |ids| => Near(ids[i], D2(pos, p, ids[i])))
  }

  /** The search box of half-width h around p. */
  function SearchBox(p: Vec3, h: real): Box {
    Box(Vec3(p.x - h, p.y - h, p.z - h), Vec3(p.x + h, p.y + h, p.z + h))
  }

  /**
    The answer for n neighbours and half-width h: distinct particles by increasing distance, and every particle that is
    not among them is at least as far as the last one, or outside the search box.
   */
  ghost predicate Answer(l: seq<Near>, pos: seq<Vec3>, p: Vec3, n: nat, h: real) {
    && |l| == n > 0 && SortedList(l) && DistinctIds(l)
    && (forall i {:trigger l[i]} :: 0 <= i < |l| ==> l[i].ipar < |pos| && l[i].d2 == D2(pos, p, l[i].ipar))
    && (forall j: nat {:trigger pos[j]} :: j < |pos| ==> Listed(l, j) || D2(pos, p, j) >= l[n - 1].d2 || !Contains(SearchBox(p, h), pos[j]))
  }

  ghost predicate Listed(l: seq<Near>, j: nat) {
    exists i {:trigger l[i]} :: 0 <= i < |l| && l[i].ipar == j
  }

  lemma VisitBounded(pool: seq<Node>, span: seq<Span>, pos: seq<Vec3>, sml: seq<real>, b: Box)
    requires TreeOk(pool, span, pos, sml)
    ensures |pool| > 0 && Increasing(Visit(pool, span, pos, sml, b, |pool| - 1), 0, |pos|)
  {
    VisitIncreasing(pool, span, pos, sml, b, |pool| - 1);
  }

  lemma NearsDistinct(pos: seq<Vec3>, p: Vec3, ids: seq<nat>)
    requires Increasing(ids, 0, |pos|)
    ensures DistinctIds(Nears(pos, p, ids))
  {
    hide D2;
    var l := Nears(pos, p, ids);
    forall i, j | 0 <= i < j < |l|
      ensures l[i].ipar != l[j].ipar
    {
      assert ids[i] < ids[j];
    }
  }

  lemma RootSpan(pool: seq<Node>, span: seq<Span>, pos: seq<Vec3>, sml: seq<real>)
    requires TreeOk(pool, span, pos, sml)
    ensures |span| == |pool| > 0 && span[|pool| - 1] == Span(0, |pos|)
  {
  }

  // ----- The doubling search box

  function AbsDiff(a: real, b: real): real {
    if a < b then b - a else a - b
  }

  /** Some half-width covers all particles. */
  lemma {:induction false} SomeCover(pos: seq<Vec3>, p: Vec3, n: nat) returns (h: real)
    requires n <= |pos|
    ensures h > 0.0 && forall j {:trigger pos[j]} :: 0 <= j < n ==> Contains(SearchBox(p, h), pos[j])
  {
    if n == 0 {
      h := 1.0;
    } else {
      var g := SomeCover(pos, p, n - 1);
      var q := pos[n - 1];
      h := g + AbsDiff(q.x, p.x) + AbsDiff(q.y, p.y) + AbsDiff(q.z, p.z);
    }
  }
}
