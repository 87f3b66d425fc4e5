/** When the neighbours found by one walk are the nearest ones. */
module RTreeExact {
  import opened SegmentBox
  import opened OctreeBoxes
  import opened BoundedLists
  import opened RTreeNodes
  import opened RTreeWalks
  import opened RTreeReach
  import opened Numbers
  import OctreeBounds
  import OctreeTrace

  /** The list has the n nearest particles of all, by increasing distance. */
  ghost predicate Exact(l: seq<Near>, pos: seq<Vec3>, p: Vec3, n: nat) {
    && |l| == n > 0 && SortedList(l) && DistinctIds(l)
    && (forall i {:trigger l[i]} :: 0 <= i < |l| ==> l[i].ipar < |pos| && l[i].d2 == D2(pos, p, l[i].ipar))
    && (forall j: nat {:trigger pos[j]} :: j < |pos| ==> Listed(l, j) || D2(pos, p, j) >= l[n - 1].d2)
  }

  /** The particles of ids whose squared distance is at most d. */
  ghost function Closer(pos: seq<Vec3>, p: Vec3, ids: set<nat>, d: real): set<nat> {
    set j | j in ids && j < |pos| && D2(pos, p, j) <= d
  }

  /** No particle that was not met is nearer than the n-th nearest of those that were. */
  ghost predicate NoneNearer(pos: seq<Vec3>, p: Vec3, ids: set<nat>, n: nat) {
    forall j: nat {:trigger pos[j]} :: j < |pos| ==> j in ids || |Closer(pos, p, ids, D2(pos, p, j))| >= n
  }

  /** At least n of all particles are within the half-width of p. */
  ghost predicate EnoughClose(pos: seq<Vec3>, p: Vec3, n: nat, h: real) {
    |Closer(pos, p, Below(|pos|), h * h)| >= n
  }

  ghost function IdsOf(l: seq<Near>, k: nat): (s: set<nat>)
    requires k <= |l|
    ensures forall i {:trigger l[i]} :: 0 <= i < k ==> l[i].ipar in s
    ensures forall x {:trigger x in s} :: x in s ==> exists i {:trigger l[i]} :: 0 <= i < k && l[i].ipar == x
  {
    set i | 0 <= i < k :: l[i].ipar
  }

  lemma {:induction false} IdsSize(l: seq<Near>, k: nat)
    requires k <= |l| && DistinctIds(l)
    ensures |IdsOf(l, k)| == k
  {
    if k == 0 {
      assert IdsOf(l, 0) == {};
    } else {
      IdsSize(l, k - 1);
      assert IdsOf(l, k) == IdsOf(l, k - 1) + {l[k - 1].ipar};
      assert l[k - 1].ipar !in IdsOf(l, k - 1);
    }
  }

  /** The n nearest of the particles met, by increasing distance. */
  ghost predicate ListOf(l: seq<Near>, pos: seq<Vec3>, p: Vec3, ids: set<nat>, n: nat) {
    && |l| == n > 0 && SortedList(l) && DistinctIds(l)
    && (forall i {:trigger l[i]} :: 0 <= i < |l| ==> l[i].ipar < |pos| && l[i].ipar in ids && l[i].d2 == D2(pos, p, l[i].ipar))
    && (forall j: nat {:trigger j in ids} :: j in ids ==> j < |pos| && (Listed(l, j) || D2(pos, p, j) >= l[n - 1].d2))
  }

  lemma WalkLists(pos: seq<Vec3>, p: Vec3, ids: seq<nat>, met: set<nat>, n: nat, l: seq<Near>)
    requires Increasing(ids, 0, |pos|) && 0 < n <= |ids| && l == AddAll([], Nears(pos, p, ids), n)
    requires forall j: nat {:trigger j in ids} :: j in ids <==> j in met
    ensures ListOf(l, pos, p, met, n)
  {
    hide AddAll, D2;
    var xs := Nears(pos, p, ids);
    AddAllNearest(xs, n);
    NearsDistinct(pos, p, ids);
    AddAllDistinct(xs, n);
    forall i | 0 <= i < |l|
      ensures l[i].ipar < |pos| && l[i].ipar in met && l[i].d2 == D2(pos, p, l[i].ipar)
    {
      assert l[i] in l;
      var k :| 0 <= k < |xs| && xs[k] == l[i];
      assert ids[k] in ids;
    }
    forall j: nat | j in met
      ensures j < |pos| && (Listed(l, j) || D2(pos, p, j) >= l[n - 1].d2)
    {
      assert j in ids;
      var k :| 0 <= k < |ids| && ids[k] == j;
      assert xs[k] in xs;
      if xs[k] in l {
        var i :| 0 <= i < |l| && l[i] == xs[k];
      }
    }
  }

  /** The last distance of the list is that of the n-th nearest particle met. */
  lemma LastIsNth(pos: seq<Vec3>, p: Vec3, ids: set<nat>, n: nat, l: seq<Near>, d: real)
    requires ListOf(l, pos, p, ids, n)
    ensures l[n - 1].d2 <= d <==> |Closer(pos, p, ids, d)| >= n
  {
    hide D2;
    var c := Closer(pos, p, ids, d);
    if l[n - 1].d2 <= d {
      IdsSize(l, n);
      SubsetSize(IdsOf(l, n), c);
    } else {
      forall j | j in c
        ensures j in IdsOf(l, n - 1)
      {
        assert D2(pos, p, j) <= d;
        var i :| 0 <= i < |l| && l[i].ipar == j;
      }
      IdsSize(l, n - 1);
      SubsetSize(c, IdsOf(l, n - 1));
    }
  }

  /** The list of a walk is the list of the nearest particles exactly when no particle outside the walk is nearer. */
  lemma ExactIff(pos: seq<Vec3>, p: Vec3, ids: set<nat>, n: nat, l: seq<Near>)
    requires ListOf(l, pos, p, ids, n)
    ensures Exact(l, pos, p, n) <==> NoneNearer(pos, p, ids, n)
  {
    hide D2, Closer;
    forall j: nat | j < |pos|
      ensures l[n - 1].d2 <= D2(pos, p, j) <==> |Closer(pos, p, ids, D2(pos, p, j))| >= n
    {
      LastIsNth(pos, p, ids, n, l, D2(pos, p, j));
    }
    if Exact(l, pos, p, n) {
      forall j: nat | j < |pos| && j !in ids
        ensures D2(pos, p, j) >= l[n - 1].d2
      {
        var here := pos[j];
      }
    }
    if NoneNearer(pos, p, ids, n) {
      forall j: nat | j < |pos|
        ensures Listed(l, j) || D2(pos, p, j) >= l[n - 1].d2
      {
        var here := pos[j];
      }
    }
  }

  /** The list of a walk answers the query. */
  lemma ListAnswers(pos: seq<Vec3>, sml: seq<real>, p: Vec3, h: real, n: nat, l: seq<Near>)
    requires |pos| == |sml| && RadiiNonNegative(sml) && ListOf(l, pos, p, ReachedSet(pos, sml, p, h), n)
    ensures Answer(l, pos, p, n, h)
  {
    hide Reached, D2, Contains, RadiiNonNegative;
    forall j: nat | j < |pos|
      ensures Listed(l, j) || D2(pos, p, j) >= l[n - 1].d2 || !Contains(SearchBox(p, h), pos[j])
    {
      if Contains(SearchBox(p, h), pos[j]) {
        InsideReached(pos, sml, p, h, j);
        assert j in ReachedSet(pos, sml, p, h);
      }
    }
  }

  /** n particles within the half-width fill the list, and then it has the nearest ones. */
  lemma CloseIsExact(pos: seq<Vec3>, sml: seq<real>, p: Vec3, h: real, n: nat)
    requires |pos| == |sml| && RadiiNonNegative(sml) && h >= 0.0 && EnoughClose(pos, p, n, h)
    ensures |ReachedSet(pos, sml, p, h)| >= n && NoneNearer(pos, p, ReachedSet(pos, sml, p, h), n)
  {
    hide Reached, D2, Contains, RadiiNonNegative;
    var ids := ReachedSet(pos, sml, p, h);
    var all := Closer(pos, p, Below(|pos|), h * h);
    forall j: nat | j < |pos| && D2(pos, p, j) <= h * h
      ensures j in ids
    {
      NearInside(pos, p, j, h);
      InsideReached(pos, sml, p, h, j);
    }
    SubsetSize(all, ids);
    forall j: nat | j < |pos| && j !in ids
      ensures |Closer(pos, p, ids, D2(pos, p, j))| >= n
    {
      SubsetSize(all, Closer(pos, p, ids, D2(pos, p, j)));
    }
  }

  lemma NearInside(pos: seq<Vec3>, p: Vec3, j: nat, h: real)
    requires j < |pos| && h >= 0.0 && D2(pos, p, j) <= h * h
    ensures Contains(SearchBox(p, h), pos[j])
  {
    NearIsInside(pos[j], p, h);
  }

  /** A position within the half-width is inside the search box. */
  lemma NearIsInside(q: Vec3, p: Vec3, h: real)
    requires h >= 0.0 && OctreeTrace.Dist2(q, p) <= h * h
    ensures Contains(SearchBox(p, h), q)
  {
    var dx, dy, dz := q.x - p.x, q.y - p.y, q.z - p.z;
    assert dx * dx >= 0.0 && dy * dy >= 0.0 && dz * dz >= 0.0;
    OctreeTrace.SquareBound(dx, h);
    OctreeTrace.SquareBound(dy, h);
    OctreeTrace.SquareBound(dz, h);
  }

  // ----- When the doubling ends

  /** Doubling a half-width k times, for some k, meets n particles. */
  ghost predicate Fills(pos: seq<Vec3>, sml: seq<real>, p: Vec3, h: real, n: nat)
    requires |pos| == |sml|
  {
    exists k: nat {:trigger OctreeBounds.Doubled(h, k)} :: |ReachedSet(pos, sml, p, OctreeBounds.Doubled(h, k))| >= n
  }

  /** Doubling k times is the first to meet n particles. */
  ghost predicate FirstFilling(pos: seq<Vec3>, sml: seq<real>, p: Vec3, h: real, k: nat, n: nat)
    requires |pos| == |sml|
  {
    && |ReachedSet(pos, sml, p, OctreeBounds.Doubled(h, k))| >= n
    && forall i: nat {:trigger OctreeBounds.Doubled(h, i)} :: i < k ==> |ReachedSet(pos, sml, p, OctreeBounds.Doubled(h, i))| < n
  }

  lemma {:induction false} DoubledShrinks(h: real, k: nat)
    requires h <= 0.0
    ensures OctreeBounds.Doubled(h, k) <= h
  {
    if k > 0 {
      DoubledShrinks(h, k - 1);
    }
  }

  /** A wide enough search box finds everything. */
  lemma WideFills(pos: seq<Vec3>, sml: seq<real>, p: Vec3, h: real) returns (k: nat)
    requires |pos| == |sml| && RadiiNonNegative(sml) && h > 0.0
    ensures |ReachedSet(pos, sml, p, OctreeBounds.Doubled(h, k))| >= |pos|
  {
    hide Contains, RadiiNonNegative, Reached;
    var cover := SomeCover(pos, p, |pos|);
    k := OctreeBounds.DeepEnough(h, cover);
    var wide := OctreeBounds.Doubled(h, k);
    forall j: nat | j < |pos|
      ensures j in ReachedSet(pos, sml, p, wide)
    {
      WiderContains(p, cover, wide, pos[j]);
      InsideReached(pos, sml, p, wide, j);
    }
    SubsetSize(Below(|pos|), ReachedSet(pos, sml, p, wide));
  }

  /** The search for n of the particles ends exactly when the first half-width is positive, or large enough already. */
  lemma FillsIff(pos: seq<Vec3>, sml: seq<real>, p: Vec3, h: real, n: nat)
    requires |pos| == |sml| && RadiiNonNegative(sml) && n <= |pos|
    ensures Fills(pos, sml, p, h, n) <==> h > 0.0 || |ReachedSet(pos, sml, p, h)| >= n
  {
    hide RadiiNonNegative, Reached;
    assert OctreeBounds.Doubled(h, 0) == h;
    if h > 0.0 {
      var k := WideFills(pos, sml, p, h);
    } else if Fills(pos, sml, p, h, n) {
      var k: nat :| |ReachedSet(pos, sml, p, OctreeBounds.Doubled(h, k))| >= n;
      DoubledShrinks(h, k);
      ReachedMonotone(pos, sml, p, OctreeBounds.Doubled(h, k), h);
      SubsetSize(ReachedSet(pos, sml, p, OctreeBounds.Doubled(h, k)), ReachedSet(pos, sml, p, h));
    }
  }

  lemma WiderContains(p: Vec3, g: real, h: real, q: Vec3)
    requires g <= h && Contains(SearchBox(p, g), q)
    ensures Contains(SearchBox(p, h), q)
  {
  }
}
