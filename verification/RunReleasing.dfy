/** Releasing a run: it is marked free and coalesced with free neighbours of the same kind. */
module RunReleasing {
  import opened PageRuns
  import opened ArenaTypes
  import opened RunSplitting

  /** First page of the free run that results when the run at s is released. */
  ghost function MergeLow(o: Layout, s: nat, d: bool): nat
    requires s < |o|
  {
    if s > 0 && o[s - 1].kind == Free && o[s - 1].dirty == d then o[s - 1].start else s
  }

  /** End of the free run that results when the run at s is released. */
  ghost function MergeHigh(o: Layout, s: nat, d: bool): nat
    requires s < |o|
  {
    var e := o[s].End();
    if e < |o| && o[e].kind == Free && o[e].dirty == d then o[e].End() else e
  }

  ghost predicate CanFree(o: Layout, s: nat) {
    Tiled(o) && s < |o| && o[s].start == s && o[s].kind != Free
  }

  lemma MergeBounds(o: Layout, s: nat, d: bool)
    requires CanFree(o, s)
    ensures var lo, hi := MergeLow(o, s, d), MergeHigh(o, s, d);
      lo <= s < o[s].End() <= hi <= |o| && Boundary(o, lo) && Boundary(o, hi) && Boundary(o, o[s].End())
  {
    RunEndIsBoundary(o, s);
    if s > 0 {
      RunEndIsBoundary(o, s - 1);
    }
    var e := o[s].End();
    if e < |o| {
      RunEndIsBoundary(o, e);
    }
  }

  ghost function FreedRun(o: Layout, s: nat, d: bool): Run
    requires CanFree(o, s)
  {
    MergeBounds(o, s, d);
    Run(MergeLow(o, s, d), MergeHigh(o, s, d) - MergeLow(o, s, d), Free, d)
  }

  /** The layout after the run at s is released with final dirty flag d. */
  ghost function FreedLayout(o: Layout, s: nat, d: bool): (o': Layout)
    requires CanFree(o, s)
    ensures |o'| == |o|
  {
    MergeBounds(o, s, d);
    Paint(o, FreedRun(o, s, d))
  }

  lemma FreedLayoutTiled(o: Layout, s: nat, d: bool)
    requires CanFree(o, s)
    ensures Tiled(FreedLayout(o, s, d))
  {
    MergeBounds(o, s, d);
    PaintTiled(o, FreedRun(o, s, d));
  }

  /** Inside the merged stretch, every page was in the released run or in a free neighbour with flag d. */
  lemma MergedPages(o: Layout, s: nat, d: bool, p: nat)
    requires CanFree(o, s) && MergeLow(o, s, d) <= p < MergeHigh(o, s, d)
    ensures p < |o|
    ensures if s <= p < o[s].End() then o[p] == o[s] else o[p].kind == Free && o[p].dirty == d
    ensures p < s ==> o[p] == o[MergeLow(o, s, d)]
    ensures p >= o[s].End() ==> o[p] == o[o[s].End()]
  {
    MergeBounds(o, s, d);
    if p < s {
      assert o[p] == o[s - 1];
    } else if p >= o[s].End() {
      assert o[p] == o[o[s].End()];
    } else {
      assert o[p] == o[s];
    }
  }

  /** Pages lo to hi have become free, with dirty flag d; every other page is in use, and dirty, as it was. */
  ghost predicate FreedPages(o: Layout, o': Layout, lo: nat, hi: nat, d: bool) {
    |o'| == |o| && lo <= hi <= |o| && forall p {:trigger o[p]} {:trigger o'[p]} :: 0 <= p < |o| ==>
      if lo <= p < hi then o[p].kind != Free && o'[p].kind == Free && o'[p].dirty == d else o'[p].kind == o[p].kind && o'[p].dirty == o[p].dirty
  }

  lemma FreedLayoutPages(o: Layout, s: nat, d: bool)
    requires CanFree(o, s)
    ensures FreedPages(o, FreedLayout(o, s, d), s, o[s].End(), d)
  {
    MergeBounds(o, s, d);
    forall p | MergeLow(o, s, d) <= p < MergeHigh(o, s, d)
      ensures p < |o| && if s <= p < o[s].End() then o[p] == o[s] else o[p].kind == Free && o[p].dirty == d
    {
      MergedPages(o, s, d, p);
    }
  }

  lemma FreedLayoutCoalesced(o: Layout, s: nat, d: bool)
    requires CanFree(o, s) && Coalesced(o)
    ensures Coalesced(FreedLayout(o, s, d))
  {
    MergeBounds(o, s, d);
    var lo, hi := MergeLow(o, s, d), MergeHigh(o, s, d);
    var o' := FreedLayout(o, s, d);
    forall p | 1 <= p < |o'| && Mergeable(o'[p - 1], o'[p])
      ensures o'[p - 1] == o'[p]
    {
      if p == lo {
        RunsRespectBoundaries(o, lo, p - 1);
        MergedPages(o, s, d, p);
      } else if p == hi {
        RunsRespectBoundaries(o, hi, p - 1);
        MergedPages(o, s, d, p - 1);
      }
    }
  }

  lemma FreedLayoutTotals(o: Layout, s: nat, d: bool)
    requires CanFree(o, s)
    ensures var o' := FreedLayout(o, s, d);
      && Total(o', Active) == Total(o, Active) - o[s].len
      && Total(o', DirtyFree) == Total(o, DirtyFree) + (if d then o[s].len else 0)
  {
    var o' := FreedLayout(o, s, d);
    var r := o[s];
    forall p | s <= p < r.End()
      ensures o[p] == r
    {
    }
    var o1 := Paint(o, Run(s, r.len, Free, d));
    TotalRepaint(o, o1, Active, s, r.End(), true, false);
    TotalRepaint(o, o1, DirtyFree, s, r.End(), false, d);
    forall p, t | 0 <= p < |o|
      ensures Tagged(o1[p], t) == Tagged(o'[p], t)
    {
      if MergeLow(o, s, d) <= p < MergeHigh(o, s, d) {
        MergedPages(o, s, d, p);
      }
    }
    CountAgree(o1, o', Active, 0, |o|);
    CountAgree(o1, o', DirtyFree, 0, |o|);
  }

  /** The free runs after a release: those not merged, and the merged one. */
  lemma FreedRuns(o: Layout, s: nat, d: bool, p: nat, len: nat, flag: bool)
    requires CanFree(o, s)
    ensures var lo, hi := MergeLow(o, s, d), MergeHigh(o, s, d);
      FreeRunAt(FreedLayout(o, s, d), p, len, flag) <==>
      (FreeRunAt(o, p, len, flag) && !(lo <= p < hi)) || (flag == d && p == lo && len == hi - lo)
  {
    MergeBounds(o, s, d);
  }

  /** Which free runs the merge swallows. */
  lemma SwallowedRuns(o: Layout, s: nat, d: bool, p: nat, len: nat, flag: bool)
    requires CanFree(o, s) && MergeLow(o, s, d) <= p < MergeHigh(o, s, d)
    ensures FreeRunAt(o, p, len, flag) <==>
      flag == d && ((MergeLow(o, s, d) < s && p == MergeLow(o, s, d) && len == s - p)
                 || (o[s].End() < MergeHigh(o, s, d) && p == o[s].End() && len == MergeHigh(o, s, d) - p))
  {
    MergeBounds(o, s, d);
    MergedPages(o, s, d, p);
    if p < s {
      RunEndIsBoundary(o, s - 1);
      RunsRespectBoundaries(o, s, s - 1);
      assert o[s - 1].End() == s;
    }
  }

  /** The entries of the released run become those of a free run with this dirty flag. */
  method MarkFree(pageMap: seq<MapElm>, s: nat, len: nat, dirty: bool, ghost o: Layout) returns (m: seq<MapElm>)
    requires Encodes(pageMap, o) && CanFree(o, s) && len == o[s].len && (o[s].dirty ==> dirty)
    ensures Encodes(m, Paint(o, Run(s, len, Free, dirty)))
    ensures forall p {:trigger m[p]} :: 0 <= p < |m| && !(s <= p < s + len) ==> m[p] == pageMap[p]
  {
    m := pageMap;
    if dirty {
      m := m[s := MapElm(len, true, false, false, false)];
      m := m[s + len - 1 := MapElm(len, true, false, false, false)];
    } else {
      m := m[s := MapElm(len, false, m[s].unzeroed, false, false)];
      m := m[s + len - 1 := MapElm(len, false, m[s + len - 1].unzeroed, false, false)];
    }
    forall p | 0 <= p < |o|
      ensures EntryOk(m[p], Paint(o, Run(s, len, Free, dirty))[p], p)
    {
      assert EntryOk(pageMap[p], o[p], p);
      if s <= p < s + len {
        assert o[p] == o[s];
      }
    }
  }

  /** Joins two adjacent free runs with one dirty flag, keeping the flags at the new ends. */
  method MergeEntries(pageMap: seq<MapElm>, lo: nat, len: nat, ghost o: Layout, ghost mid: nat, ghost d: bool) returns (m: seq<MapElm>)
    requires Encodes(pageMap, o) && Tiled(o) && lo < mid < lo + len <= |o|
    requires o[lo] == Run(lo, mid - lo, Free, d) && o[mid] == Run(mid, lo + len - mid, Free, d)
    ensures Encodes(m, Paint(o, Run(lo, len, Free, d)))
    ensures forall p {:trigger m[p]} :: 0 <= p < |m| && !(lo <= p < lo + len) ==> m[p] == pageMap[p]
  {
    assert o[lo + len - 1] == o[mid];
    assert EntryOk(pageMap[lo], o[lo], lo) && EntryOk(pageMap[lo + len - 1], o[mid], lo + len - 1);
    m := pageMap[lo := pageMap[lo].(pages := len)];
    m := m[lo + len - 1 := m[lo + len - 1].(pages := len)];
    forall p | 0 <= p < |o|
      ensures EntryOk(m[p], Paint(o, Run(lo, len, Free, d))[p], p)
    {
      assert EntryOk(pageMap[p], o[p], p);
      if lo <= p < mid {
        assert o[p] == o[lo];
      } else if mid <= p < lo + len {
        assert o[p] == o[mid];
      }
    }
  }

  lemma PaintOver(o: Layout, r: Run, s: Run)
    requires s.start <= r.start && r.End() <= s.End() <= |o|
    ensures Paint(Paint(o, r), s) == Paint(o, s)
  {
  }

  /** The forward test of arena_run_dalloc reads the page map exactly as the layout says. */
  lemma ForwardTest(m: seq<MapElm>, o: Layout, s: nat, d: bool)
    requires CanFree(o, s) && o[s].End() <= |o| && Encodes(m, Paint(o, Run(s, o[s].len, Free, d)))
    ensures var e, o1 := o[s].End(), Paint(o, Run(s, o[s].len, Free, d));
      && |m| == |o| && Tiled(o1)
      && (e < |m| && !m[e].inUse && m[e].dirty == d <==> MergeHigh(o, s, d) > e)
      && (MergeHigh(o, s, d) > e ==>
            m[e].pages == MergeHigh(o, s, d) - e && o1[s] == Run(s, e - s, Free, d) && o1[e] == Run(e, MergeHigh(o, s, d) - e, Free, d))
  {
    MergeBounds(o, s, d);
    PaintTiled(o, Run(s, o[s].len, Free, d));
    NeighbourEntries(m, Paint(o, Run(s, o[s].len, Free, d)), s);
  }

  /** The backward test, after the forward merge. */
  lemma BackwardTest(m: seq<MapElm>, o: Layout, s: nat, hi: nat, d: bool)
    requires CanFree(o, s) && hi == MergeHigh(o, s, d) && s < hi <= |o| && Encodes(m, Paint(o, Run(s, hi - s, Free, d)))
    ensures var o1 := Paint(o, Run(s, hi - s, Free, d));
      var lo := MergeLow(o, s, d);
      && |m| == |o| && Tiled(o1) && lo <= s
      && (s > 0 && !m[s - 1].inUse && m[s - 1].dirty == d <==> lo < s)
      && (lo < s ==> m[s - 1].pages == s - lo && o1[lo] == Run(lo, s - lo, Free, d) && o1[s] == Run(s, hi - s, Free, d))
  {
    MergeBounds(o, s, d);
    var o1 := Paint(o, Run(s, hi - s, Free, d));
    PaintTiled(o, Run(s, hi - s, Free, d));
    NeighbourEntries(m, o1, s);
    if s > 0 {
      RunEndIsBoundary(o1, s - 1);
      assert o1[o1[s - 1].start] == o1[s - 1];
    }
  }

  /** A free run of the same dirtiness after the released one is joined to it; hi is the end of the result. */
  method MergeForward(pageMap: seq<MapElm>, s: nat, len: nat, dirty: bool, ghost o: Layout) returns (m: seq<MapElm>, hi: nat)
    requires CanFree(o, s) && len == o[s].len && s + len <= |o| && Encodes(pageMap, Paint(o, Run(s, len, Free, dirty)))
    ensures hi == MergeHigh(o, s, dirty) && s < hi <= |o| && Encodes(m, Paint(o, Run(s, hi - s, Free, dirty)))
  {
    hide Encodes, Tiled, MergeHigh, MergeLow, Paint, Boundary;
    ForwardTest(pageMap, o, s, dirty);
    MergeBounds(o, s, dirty);
    m, hi := pageMap, s + len;
    if hi < |m| && !m[hi].inUse && m[hi].dirty == dirty {
      ghost var o1 := Paint(o, Run(s, len, Free, dirty));
      hi := hi + m[hi].pages;
      m := MergeEntries(m, s, hi - s, o1, s + len, dirty);
      PaintOver(o, Run(s, len, Free, dirty), Run(s, hi - s, Free, dirty));
    }
  }

  /** A free run of the same dirtiness before the released one is joined to it; lo is the start of the result. */
  method MergeBackward(pageMap: seq<MapElm>, s: nat, hi: nat, dirty: bool, ghost o: Layout) returns (m: seq<MapElm>, lo: nat)
    requires CanFree(o, s) && hi == MergeHigh(o, s, dirty) && s < hi <= |o|
    requires Encodes(pageMap, Paint(o, Run(s, hi - s, Free, dirty)))
    ensures lo == MergeLow(o, s, dirty) && Encodes(m, FreedLayout(o, s, dirty))
  {
    hide Encodes, Tiled, MergeHigh, MergeLow, Paint, Boundary;
    BackwardTest(pageMap, o, s, hi, dirty);
    m, lo := pageMap, s;
    if s > 0 && !m[s - 1].inUse && m[s - 1].dirty == dirty {
      ghost var o1 := Paint(o, Run(s, hi - s, Free, dirty));
      lo := s - m[s - 1].pages;
      m := MergeEntries(m, lo, hi - lo, o1, s, dirty);
      PaintOver(o, Run(s, hi - s, Free, dirty), Run(lo, hi - lo, Free, dirty));
    }
  }

  /** The page map part of arena_run_dalloc: mark free, coalesce forward, coalesce backward. */
  method WriteFreed(pageMap: seq<MapElm>, s: nat, len: nat, dirty: bool, ghost o: Layout) returns (m: seq<MapElm>, lo: nat, hi: nat)
    requires Encodes(pageMap, o) && CanFree(o, s) && len == o[s].len && (o[s].dirty ==> dirty)
    ensures Encodes(m, FreedLayout(o, s, dirty))
    ensures lo == MergeLow(o, s, dirty) && hi == MergeHigh(o, s, dirty) && lo <= s && s + len <= hi
  {
    hide Encodes, Tiled, MergeLow, MergeHigh, FreedLayout, Paint;
    MergeBounds(o, s, dirty);
    m := MarkFree(pageMap, s, len, dirty, o);
    m, hi := MergeForward(m, s, len, dirty, o);
    m, lo := MergeBackward(m, s, hi, dirty, o);
  }

  /** What the page map says on either side of the run at s. */
  lemma NeighbourEntries(m: seq<MapElm>, o: Layout, s: nat)
    requires Encodes(m, o) && Tiled(o) && s < |o| && o[s].start == s
    ensures |m| == |o| && o[s].End() <= |o|
    ensures var e := o[s].End(); e < |o| ==>
      && o[e].start == e && (m[e].inUse <==> o[e].kind != Free) && m[e].dirty == o[e].dirty
      && (o[e].kind == Free ==> m[e].pages == o[e].len)
    ensures s > 0 ==>
      && o[s - 1].End() == s && (m[s - 1].inUse <==> o[s - 1].kind != Free) && m[s - 1].dirty == o[s - 1].dirty
      && (o[s - 1].kind == Free ==> m[s - 1].pages == o[s - 1].len)
  {
    RunEndIsBoundary(o, s);
    var e := o[s].End();
    if e < |o| {
      assert EntryOk(m[e], o[e], e);
    }
    if s > 0 {
      assert o[s - 1].End() <= s by { RunsRespectBoundaries(o, s, s - 1); }
      assert EntryOk(m[s - 1], o[s - 1], s - 1);
    }
  }
}
