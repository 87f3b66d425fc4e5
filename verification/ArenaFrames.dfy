/** What the operations leave alone: every run in use outside the pages they work on. */
module ArenaFrames {
  import opened Options
  import opened PageRuns
  import opened ArenaTypes
  import opened RunSplitting
  import opened RunReleasing
  import opened ArenaStates
  import opened ArenaReleases
  import opened ArenaChunks

  lemma KeepsInUseTrans(l0: map<ChunkId, Layout>, l1: map<ChunkId, Layout>, l2: map<ChunkId, Layout>,
                        c: ChunkId, s: nat, len: nat, s1: nat, len1: nat, s2: nat, len2: nat)
    requires KeepsInUse(l0, l1, c, s1, len1) && KeepsInUse(l1, l2, c, s2, len2)
    requires len1 > 0 ==> s <= s1 && s1 + len1 <= s + len
    requires len2 > 0 ==> s <= s2 && s2 + len2 <= s + len
    ensures KeepsInUse(l0, l2, c, s, len)
  {
    forall d, p: nat | d in l0 && p < |l0[d]| && l0[d][p].kind != Free && !(d == c && s <= p < s + len)
      ensures d in l2 && p < |l2[d]| && l2[d][p] == l0[d][p]
    {
      assert l1[d][p] == l0[d][p];
    }
  }

  lemma SplitKeepsInUse(layouts: map<ChunkId, Layout>, c: ChunkId, s: nat, need: nat, kind: Kind)
    requires c in layouts && var o := layouts[c]; s < |o| && Tiled(o) && o[s].start == s && o[s].kind == Free && 1 <= need <= o[s].len
    ensures KeepsInUse(layouts, layouts[c := SplitLayout(layouts[c], s, need, kind)], 0, 0, 0)
  {
    var o := layouts[c];
    forall p | s <= p < o[s].End()
      ensures o[p] == o[s]
    {
    }
  }

  /** Pages lo to hi of chunk c have been released; no other chunk has changed, but a completely free one may be gone if c has become one. */
  ghost predicate ReleasedPages(l0: map<ChunkId, Layout>, l1: map<ChunkId, Layout>, c: ChunkId, lo: nat, hi: nat, d: bool) {
    && c in l0 && c in l1 && FreedPages(l0[c], l1[c], lo, hi, d)
    && (forall e {:trigger l1[e]} :: e in l1 && e != c ==> e in l0 && l1[e] == l0[e])
    && (forall e {:trigger l0[e]} :: e in l0 && e !in l1 ==> SingleFree(l0[e]) && SingleFree(l1[c]))
  }

  /** The dirty pages of the spare. */
  ghost function SpareDirty(st: State): nat {
    if st.spare.Some? && st.spare.value in st.chunks then st.chunks[st.spare.value].ndirty else 0
  }

  lemma SpareDirtyBound(st: State, n: nat, c: ChunkId)
    requires ValidState(st, n)
    ensures SpareDirty(st) <= n && (c in st.chunks ==> st.chunks[c].ndirty <= n)
  {
    if c in st.chunks {
      assert ChunkLaid(st.chunks[c], st.layouts[c], n);
    }
    if st.spare.Some? && st.spare.value in st.chunks {
      assert ChunkLaid(st.chunks[st.spare.value], st.layouts[st.spare.value], n);
    }
  }

  /** When chunk c becomes completely free it is the new spare, and the old one is gone with its dirty pages. */
  ghost predicate SpareMoves(st: State, st': State, c: ChunkId, extra: nat) {
    || (st'.spare == st.spare && SpareDirty(st') == SpareDirty(st) && st'.ndirty == st.ndirty + extra)
    || (st'.spare == Some(c) && c in st'.layouts && SingleFree(st'.layouts[c]) && st'.ndirty + SpareDirty(st) == st.ndirty + extra)
  }

  /** As long as chunk c is not completely free the spare stays. */
  lemma MovesAfter(st0: State, st1: State, st2: State, c: ChunkId)
    requires SpareMoves(st0, st1, c, 0) && SpareMoves(st1, st2, c, 0) && c in st1.layouts && !SingleFree(st1.layouts[c])
    ensures SpareMoves(st0, st2, c, 0)
  {
    hide SingleFree;
  }

  lemma DallocMoves(st: State, st1: State, st2: State, n: nat, c: ChunkId, extra: nat)
    requires ValidState(st, n) && c in st.chunks && st1.spare == st.spare != Some(c) && st1.ndirty == st.ndirty + extra && c in st1.layouts && |st1.layouts[c]| > 0
    requires c in st1.chunks && st1.chunks == st.chunks[c := st1.chunks[c]] && Listed(st1)
    requires SingleFree(st1.layouts[c]) && st1.spare.Some? ==> st1.spare.value in st1.chunks && st1.chunks[st1.spare.value].ndirty <= st1.ndirty
    requires st2 == if SingleFree(st1.layouts[c]) then DeallocState(st1, c) else st1
    ensures SpareMoves(st, st2, c, extra)
  {
    hide ValidState, SingleFree;
  }

  lemma SpareStays(st: State, c: ChunkId)
    ensures SpareMoves(st, st, c, 0)
  {
  }

  lemma FreeInside(o: Layout, s: nat)
    requires CanFree(o, s)
    ensures s < |o|
  {
  }

  lemma DallocListed(st: State, n: nat)
    requires Core(st, n)
    ensures Listed(st)
  {
  }

  /** ReleasedPages, with what it means for the chunk's count of dirty pages. */
  ghost predicate Freed(st: State, st': State, n: nat, c: ChunkId, lo: nat, hi: nat, d: bool) {
    && ValidState(st', n) && ReleasedPages(st.layouts, st'.layouts, c, lo, hi, d)
    && c in st.chunks && c in st'.chunks && lo <= hi && st'.chunks[c].ndirty == st.chunks[c].ndirty + (if d then hi - lo else 0)
    && st'.ndirty <= st.ndirty + (if d then hi - lo else 0)
  }

  /** The release of pages after a change that leaves all pages as free and as dirty as they were. */
  lemma FreedAfter(st0: State, st1: State, st2: State, n: nat, c: ChunkId, lo: nat, hi: nat, d: bool)
    requires Freed(st1, st2, n, c, lo, hi, d) && c in st0.layouts && c in st0.chunks
    requires st1.ndirty == st0.ndirty && st1.chunks[c].ndirty == st0.chunks[c].ndirty
    requires c in st1.layouts && st1.layouts == st0.layouts[c := st1.layouts[c]] && FreedPages(st0.layouts[c], st1.layouts[c], 0, 0, false)
    requires !SingleFree(st0.layouts[c])
    ensures Freed(st0, st2, n, c, lo, hi, d)
  {
    hide ValidState, SingleFree;
    var o0, o1, o2 := st0.layouts[c], st1.layouts[c], st2.layouts[c];
    forall p | 0 <= p < |o0|
      ensures if lo <= p < hi then o0[p].kind != Free && o2[p].kind == Free && o2[p].dirty == d else o2[p].kind == o0[p].kind && o2[p].dirty == o0[p].dirty
    {
      assert o1[p].kind == o0[p].kind;
    }
    SpareGone(st0, st1, st2, c);
    forall e | e in st0.layouts && e !in st2.layouts
      ensures SingleFree(st2.layouts[c])
    {
      var l := st1.layouts[e];
    }
  }

  lemma SpareGone(st0: State, st1: State, st2: State, c: ChunkId)
    requires c in st0.layouts && c in st1.layouts && st1.layouts == st0.layouts[c := st1.layouts[c]] && c in st2.layouts
    requires forall e {:trigger st2.layouts[e]} :: e in st2.layouts && e != c ==> e in st1.layouts && st2.layouts[e] == st1.layouts[e]
    requires forall e {:trigger st1.layouts[e]} :: e in st1.layouts && e !in st2.layouts ==> SingleFree(st1.layouts[e])
    ensures forall e {:trigger st2.layouts[e]} :: e in st2.layouts && e != c ==> e in st0.layouts && st2.layouts[e] == st0.layouts[e]
    ensures forall e {:trigger st0.layouts[e]} :: e in st0.layouts && e !in st2.layouts ==> SingleFree(st0.layouts[e])
  {
    hide SingleFree;
    forall e | e in st0.layouts && e !in st2.layouts
      ensures SingleFree(st0.layouts[e])
    {
      assert st1.layouts[e] == st0.layouts[e];
    }
  }

  /** The same for a change that relabels only pages that are then released. */
  lemma InTwoAfter(st0: State, st1: State, st2: State, n: nat, c: ChunkId, lo: nat, cut: nat, hi: nat)
    requires FreedInTwo(st1, st2, n, c, lo, cut, hi) && c in st0.layouts && c in st0.chunks
    requires st1.ndirty == st0.ndirty && st1.chunks[c].ndirty == st0.chunks[c].ndirty
    requires c in st1.layouts && st1.layouts == st0.layouts[c := st1.layouts[c]] && |st1.layouts[c]| == |st0.layouts[c]|
    requires forall p {:trigger st0.layouts[c][p]} {:trigger st1.layouts[c][p]} :: 0 <= p < |st0.layouts[c]| && !(lo <= p < hi) ==>
      st1.layouts[c][p].kind == st0.layouts[c][p].kind && st1.layouts[c][p].dirty == st0.layouts[c][p].dirty
    ensures FreedInTwo(st0, st2, n, c, lo, cut, hi)
  {
    hide ValidState, SingleFree;
    var o0, o1, o2 := st0.layouts[c], st1.layouts[c], st2.layouts[c];
    forall p | 0 <= p < |o0|
      ensures if lo <= p < hi then o2[p].kind == Free && o2[p].dirty == (p < cut) else o2[p].kind == o0[p].kind && o2[p].dirty == o0[p].dirty
    {
      var was := o1[p];
    }
    SpareGone(st0, st1, st2, c);
  }

  /** Pages lo to hi of chunk c have been released, those before cut as dirty ones. */
  ghost predicate FreedInTwo(st: State, st': State, n: nat, c: ChunkId, lo: nat, cut: nat, hi: nat) {
    && ValidState(st', n) && c in st.layouts && c in st'.layouts && |st'.layouts[c]| == |st.layouts[c]| && lo <= cut <= hi <= |st.layouts[c]|
    && (forall p {:trigger st.layouts[c][p]} {:trigger st'.layouts[c][p]} :: 0 <= p < |st.layouts[c]| ==>
          if lo <= p < hi then st'.layouts[c][p].kind == Free && st'.layouts[c][p].dirty == (p < cut)
          else st'.layouts[c][p].kind == st.layouts[c][p].kind && st'.layouts[c][p].dirty == st.layouts[c][p].dirty)
    && (forall e {:trigger st'.layouts[e]} :: e in st'.layouts && e != c ==> e in st.layouts && st'.layouts[e] == st.layouts[e])
    && (forall e {:trigger st.layouts[e]} :: e in st.layouts && e !in st'.layouts ==> SingleFree(st.layouts[e]))
    && c in st.chunks && c in st'.chunks && st'.chunks[c].ndirty == st.chunks[c].ndirty + (cut - lo) && st'.ndirty <= st.ndirty + (cut - lo)
  }

  lemma OneFreed(st: State, st': State, n: nat, c: ChunkId, lo: nat, hi: nat)
    requires Freed(st, st', n, c, lo, hi, true)
    ensures FreedInTwo(st, st', n, c, lo, hi, hi)
  {
    hide ValidState, SingleFree;
  }

  lemma TwoFreed(st0: State, st1: State, st2: State, n: nat, c: ChunkId, lo: nat, cut: nat, hi: nat)
    requires Freed(st0, st1, n, c, cut, hi, false) && Freed(st1, st2, n, c, lo, cut, true)
    ensures FreedInTwo(st0, st2, n, c, lo, cut, hi)
  {
    hide ValidState, SingleFree;
    var o0, o1, o2 := st0.layouts[c], st1.layouts[c], st2.layouts[c];
    forall p | 0 <= p < |o0|
      ensures if lo <= p < hi then o2[p].kind == Free && o2[p].dirty == (p < cut) else o2[p].kind == o0[p].kind && o2[p].dirty == o0[p].dirty
    {
      assert if cut <= p < hi then o1[p].kind == Free && !o1[p].dirty else o1[p].kind == o0[p].kind && o1[p].dirty == o0[p].dirty;
    }
    forall e | e in st0.layouts && e !in st2.layouts
      ensures SingleFree(st0.layouts[e])
    {
      if e in st1.layouts {
        assert st1.layouts[e] == st0.layouts[e];
      }
    }
  }

  lemma FreeReleases(l0: map<ChunkId, Layout>, l1: map<ChunkId, Layout>, c: ChunkId, s: nat, d: bool, gone: set<ChunkId>)
    requires c in l0 && CanFree(l0[c], s) && c !in gone && l1 == l0[c := FreedLayout(l0[c], s, d)] - gone
    requires forall e {:trigger e in gone} :: e in gone ==> e in l0 && SingleFree(l0[e]) && SingleFree(l1[c])
    ensures ReleasedPages(l0, l1, c, s, l0[c][s].End(), d)
  {
    hide FreedLayout, FreedPages, SingleFree, CanFree;
    FreedLayoutPages(l0[c], s, d);
  }

  lemma FreeKeepsInUse(layouts: map<ChunkId, Layout>, c: ChunkId, s: nat, d: bool)
    requires c in layouts && CanFree(layouts[c], s)
    ensures KeepsInUse(layouts, layouts[c := FreedLayout(layouts[c], s, d)], c, s, layouts[c][s].len)
  {
    var o := layouts[c];
    forall p | MergeLow(o, s, d) <= p < MergeHigh(o, s, d) && !(s <= p < o[s].End())
      ensures p < |o| && o[p].kind == Free
    {
      MergedPages(o, s, d, p);
    }
  }

  /** A chunk without pages in use may disappear. */
  lemma DropKeepsInUse(l0: map<ChunkId, Layout>, l1: map<ChunkId, Layout>, c: ChunkId, s: nat, len: nat, p: ChunkId)
    requires KeepsInUse(l0, l1, c, s, len) && p in l1 && Tiled(l1[p]) && SingleFree(l1[p])
    ensures KeepsInUse(l0, l1 - {p}, c, s, len)
  {
    forall q | 0 <= q < |l1[p]|
      ensures l1[p][q].kind == Free
    {
      assert l1[p][q] == l1[p][0];
    }
    forall d, q: nat | d in l0 && q < |l0[d]| && l0[d][q].kind != Free && !(d == c && s <= q < s + len)
      ensures d in l1 - {p} && q < |(l1 - {p})[d]| && (l1 - {p})[d][q] == l0[d][q]
    {
      assert l1[d][q] == l0[d][q];
    }
  }

  /** The test at the end of arena_run_dalloc recognizes a completely free chunk. */
  lemma SingleFreeTest(st: State, n: nat, c: ChunkId)
    requires Laid(st, n) && c in st.chunks
    ensures var m := st.chunks[c].pageMap;
      |m| == n && n > 0 && (m[0].pages == n && !m[0].inUse <==> SingleFree(st.layouts[c]))
  {
    var o := st.layouts[c];
    assert ChunkLaid(st.chunks[c], o, n);
    assert EntryOk(st.chunks[c].pageMap[0], o[0], 0);
  }

  lemma DallocTest(st: State, n: nat, c: ChunkId)
    requires Core(st, n) && c in st.chunks
    ensures var m := st.chunks[c].pageMap;
      c in st.layouts && |m| == n && n > 0 && (m[0].pages == n && !m[0].inUse <==> SingleFree(st.layouts[c]))
  {
    SingleFreeTest(st, n, c);
  }

  /** The page count of an allocated run, as arena_run_dalloc reads it. */
  function RunPages(k: Chunk, s: nat): nat {
    if s < |k.pageMap| && k.pageMap[s].large then k.pageMap[s].pages else if s in k.headers then k.headers[s] else 0
  }

  lemma RunPagesCorrect(st: State, n: nat, c: ChunkId, s: nat)
    requires Laid(st, n) && c in st.chunks && CanFree(st.layouts[c], s)
    ensures var o, k := st.layouts[c], st.chunks[c];
      && |o| == |k.pageMap| == n && Encodes(k.pageMap, o)
      && RunPages(k, s) == o[s].len && k.pageMap[s].dirty == o[s].dirty && k.pageMap[s].inUse
      && (k.pageMap[s].large <==> o[s].kind == Large)
  {
    var o, k := st.layouts[c], st.chunks[c];
    assert ChunkLaid(k, o, n);
    assert EntryOk(k.pageMap[s], o[s], s);
  }

  lemma ReleaseReady(st: State, n: nat, c: ChunkId, s: nat, dirty: bool)
    requires Core(st, n) && c in st.chunks && CanFree(st.layouts[c], s)
    ensures c in st.layouts && Laid(st, n) && st.layouts[c][s].len <= st.nactive && st.spare != Some(c)
    ensures var o, k := st.layouts[c], st.chunks[c];
      var d := dirty || o[s].dirty;
      && s < |o| == |k.pageMap| && o[s].start == s && o[s].End() <= |o| && Encodes(k.pageMap, o)
      && RunPages(k, s) == o[s].len && k.pageMap[s].dirty == o[s].dirty
      && MergeLow(o, s, d) <= s && o[s].End() <= MergeHigh(o, s, d)
  {
    RunPagesCorrect(st, n, c, s);
    ActiveEnough(st, n, c, s);
    MergeBounds(st.layouts[c], s, dirty || st.layouts[c][s].dirty);
  }

  /** Which pages arena_run_dalloc releases, in both ways in which it can end. */
  lemma DallocReleases(st: State, st1: State, st2: State, n: nat, c: ChunkId, s: nat, d: bool)
    requires ValidState(st, n) && c in st.layouts && CanFree(st.layouts[c], s)
    requires st1.layouts == st.layouts[c := FreedLayout(st.layouts[c], s, d)] && st1.spare == st.spare != Some(c)
    requires st2.layouts == st1.layouts - (if SingleFree(st1.layouts[c]) && st.spare.Some? then {st.spare.value} else {})
    ensures ReleasedPages(st.layouts, st2.layouts, c, s, st.layouts[c][s].End(), d)
  {
    hide FreedLayout, ReleasedPages, CanFree, SingleFree, Laid, Merged, Summed, Counted, Listed, Avails, OnlySpareFree;
    var gone := if SingleFree(st1.layouts[c]) && st.spare.Some? then {st.spare.value} else {};
    FreeReleases(st.layouts, st2.layouts, c, s, d, gone);
  }

  /** Both ways arena_run_dalloc can end, from the state after the release. */
  lemma DallocFinish(st: State, n: nat, c: ChunkId, s: nat, d: bool, m: seq<MapElm>)
    requires ValidState(st, n) && c in st.chunks && CanFree(st.layouts[c], s) && st.layouts[c][s].len <= st.nactive && st.spare != Some(c)
    requires Core(FreeState(st, c, s, d, m), n)
    ensures var st1, len := FreeState(st, c, s, d, m), st.layouts[c][s].len;
      && KeepsInUse(st.layouts, st1.layouts, c, s, len)
      && (!SingleFree(st1.layouts[c]) ==> ValidState(st1, n))
      && (SingleFree(st1.layouts[c]) ==>
            (st1.spare.Some? ==> st1.spare.value in st1.chunks && st1.chunks[st1.spare.value].ndirty <= st1.ndirty) &&
            var st2 := DeallocState(st1, c);
            ValidState(st2, n) && KeepsInUse(st.layouts, st2.layouts, c, s, len) && c in st2.layouts && st2.layouts[c] == st1.layouts[c])
  {
    hide FreedLayout, KeepsInUse, SingleFree, AvailIs, Merged, Counted, Summed, Listed, Avails, Tiled, Encodes;
    var st1, len := FreeState(st, c, s, d, m), st.layouts[c][s].len;
    FreeKeepsInUse(st.layouts, c, s, d);
    if SingleFree(st1.layouts[c]) {
      DeallocKeepsCore(st1, n, c);
      DeallocReady(st1, n, c);
      DeallocOnlySpare(st1, c);
      if st1.spare.Some? {
        var p := st1.spare.value;
        assert ChunkLaid(st1.chunks[p], st1.layouts[p], n);
        DropKeepsInUse(st.layouts, st1.layouts, c, s, len, p);
      } else {
        assert st1.layouts - {} == st1.layouts;
      }
    }
  }
}
