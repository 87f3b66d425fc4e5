/** Splitting a free run: the first pages of it become a run in use. */
module RunSplitting {
  import opened Options
  import opened PageRuns
  import opened Tallies
  import opened ArenaTypes

  ghost function SplitLayout(o: Layout, s: nat, need: nat, kind: Kind): (o': Layout)
    requires s < |o| && Tiled(o) && o[s].start == s && 1 <= need <= o[s].len
    ensures |o'| == |o|
  {
    var r := o[s];
    var o1 := Paint(o, Run(s, need, kind, r.dirty));
    if need == r.len then o1 else Paint(o1, Run(s + need, r.len - need, Free, r.dirty))
  }

  lemma SplitLayoutTiled(o: Layout, s: nat, need: nat, kind: Kind)
    requires s < |o| && Tiled(o) && o[s].start == s && 1 <= need <= o[s].len
    ensures Tiled(SplitLayout(o, s, need, kind))
  {
    hide Tiled, Paint;
    var r := o[s];
    RunEndIsBoundary(o, s);
    if need == r.len {
      PaintTiled(o, Run(s, need, kind, r.dirty));
    } else {
      PaintTwoTiled(o, Run(s, need, kind, r.dirty), Run(s + need, r.len - need, Free, r.dirty));
    }
  }

  lemma RunEndIsBoundary(o: Layout, s: nat)
    requires Tiled(o) && s < |o|
    ensures Boundary(o, o[s].start) && Boundary(o, o[s].End())
  {
    var e := o[s].End();
    assert o[o[s].start] == o[s] && o[e - 1] == o[s];
  }

  lemma SplitLayoutTotals(o: Layout, s: nat, need: nat, kind: Kind)
    requires s < |o| && Tiled(o) && o[s].start == s && 1 <= need <= o[s].len
    requires o[s].kind == Free && kind != Free
    ensures var o' := SplitLayout(o, s, need, kind);
      && Total(o', Active) == Total(o, Active) + need
      && Total(o', DirtyFree) == Total(o, DirtyFree) - (if o[s].dirty then need else 0)
  {
    var o' := SplitLayout(o, s, need, kind);
    var r := o[s];
    forall p | s <= p < r.End()
      ensures o[p] == r
    {
    }
    assert forall p :: s + need <= p < r.End() ==> Tagged(o'[p], Active) == Tagged(o[p], Active) && Tagged(o'[p], DirtyFree) == Tagged(o[p], DirtyFree);
    var o1 := Paint(o, Run(s, need, kind, r.dirty));
    TotalRepaint(o, o1, Active, s, s + need, false, true);
    TotalRepaint(o, o1, DirtyFree, s, s + need, r.dirty, false);
    CountAgree(o1, o', Active, 0, |o|);
    CountAgree(o1, o', DirtyFree, 0, |o|);
  }

  lemma SplitLayoutCoalesced(o: Layout, s: nat, need: nat, kind: Kind)
    requires s < |o| && Tiled(o) && o[s].start == s && 1 <= need <= o[s].len
    requires o[s].kind == Free && kind != Free && Coalesced(o)
    ensures Coalesced(SplitLayout(o, s, need, kind))
  {
    var o' := SplitLayout(o, s, need, kind);
    RunEndIsBoundary(o, s);
    assert o[o[s].End() - 1] == o[s];
    forall p | 1 <= p < |o'| && Mergeable(o'[p - 1], o'[p])
      ensures o'[p - 1] == o'[p]
    {
    }
  }

  /** The set holds exactly the free runs with this dirty flag outside the spare, except the excluded page. */
  ghost predicate AvailIs(avail: set<Avail>, layouts: map<ChunkId, Layout>, spare: Option<ChunkId>, dirty: bool, hole: Option<(ChunkId, nat)>) {
    forall a {:trigger a in avail} {:trigger IsAvail(layouts, spare, a, dirty)} ::
      a in avail <==> IsAvail(layouts, spare, a, dirty) && hole != Some((a.chunk, a.page))
  }

  function SwapAvail(avail: set<Avail>, gone: Avail, rest: Avail): set<Avail> {
    if rest.pages == 0 then avail - {gone} else avail - {gone} + {rest}
  }

  /** The free runs after a split: the others, and the remainder. */
  lemma SplitRuns(o: Layout, s: nat, need: nat, kind: Kind, p: nat, len: nat, flag: bool)
    requires s < |o| && Tiled(o) && o[s].start == s && 1 <= need <= o[s].len && o[s].kind == Free && kind != Free
    ensures FreeRunAt(SplitLayout(o, s, need, kind), p, len, flag) <==>
      (FreeRunAt(o, p, len, flag) && p != s) || (need < o[s].len && o[s].dirty == flag && p == s + need && len == o[s].len - need)
  {
    if s <= p < o[s].End() {
      assert o[p] == o[s];
    }
  }

  lemma SplitAvail(avail: set<Avail>, layouts: map<ChunkId, Layout>, spare: Option<ChunkId>, dirty: bool,
                   c: ChunkId, s: nat, need: nat, kind: Kind)
    requires AvailIs(avail, layouts, spare, dirty, None) && c in layouts && spare != Some(c)
    requires var o := layouts[c]; s < |o| && Tiled(o) && o[s].start == s && 1 <= need <= o[s].len && o[s].kind == Free && kind != Free
    ensures var o := layouts[c];
      var r := o[s];
      var avail' := if r.dirty != dirty then avail
                    else SwapAvail(avail, Avail(r.len, c, s), Avail(r.len - need, c, s + need));
      AvailIs(avail', layouts[c := SplitLayout(o, s, need, kind)], spare, dirty, None)
  {
    hide Tiled, SplitLayout, FreeRunAt;
    var o := layouts[c];
    FreeRunHere(o, s);
    forall p: nat, len: nat
      ensures FreeRunAt(SplitLayout(o, s, need, kind), p, len, dirty) <==>
        (FreeRunAt(o, p, len, dirty) && p != s) || (need < o[s].len && o[s].dirty == dirty && p == s + need && len == o[s].len - need)
    {
      SplitRuns(o, s, need, kind, p, len, dirty);
    }
  }

  lemma FreeRunHere(o: Layout, s: nat)
    requires s < |o| && o[s].start == s && o[s].kind == Free
    ensures forall len: nat, flag :: FreeRunAt(o, s, len, flag) <==> len == o[s].len && flag == o[s].dirty
  {
  }

  lemma SumsUpdate(layouts: map<ChunkId, Layout>, chunks: map<ChunkId, Chunk>, c: ChunkId, o: Layout, k: Chunk)
    requires c in layouts && c in chunks
    ensures Tally(ActivePages(layouts[c := o])) == Tally(ActivePages(layouts)) - Total(layouts[c], Active) + Total(o, Active)
    ensures Tally(DirtyPages(chunks[c := k])) == Tally(DirtyPages(chunks)) - chunks[c].ndirty + k.ndirty
    ensures Total(layouts[c], Active) <= Tally(ActivePages(layouts)) && chunks[c].ndirty <= Tally(DirtyPages(chunks))
  {
    TallyUpdate(ActivePages(layouts), c, Total(o, Active));
    assert ActivePages(layouts[c := o]) == ActivePages(layouts)[c := Total(o, Active)];
    TallyUpdate(DirtyPages(chunks), c, k.ndirty);
    assert DirtyPages(chunks[c := k]) == DirtyPages(chunks)[c := k.ndirty];
    TallyRemove(ActivePages(layouts), c);
    TallyRemove(DirtyPages(chunks), c);
  }

  /** The trailing unused pages of a split run become a free run of their own. */
  method WriteRemainder(pageMap: seq<MapElm>, s: nat, total: nat, need: nat, flagDirty: bool) returns (m: seq<MapElm>)
    requires need < total && s + total <= |pageMap|
    ensures |m| == |pageMap|
    ensures forall p :: 0 <= p < |m| && p != s + need && p != s + total - 1 ==> m[p] == pageMap[p]
    ensures forall p :: p == s + need || p == s + total - 1 ==> EntryOk(m[p], Run(s + need, total - need, Free, flagDirty), p)
  {
    var rem := total - need;
    m := pageMap;
    if flagDirty {
      m := m[s + need := MapElm(rem, true, false, false, false)];
      m := m[s + total - 1 := MapElm(rem, true, false, false, false)];
    } else {
      m := m[s + need := MapElm(rem, false, m[s + need].unzeroed, false, false)];
      m := m[s + total - 1 := MapElm(rem, false, m[s + total - 1].unzeroed, false, false)];
    }
  }

  /** The entries of a run that is being handed out. */
  method WriteAllocated(pageMap: seq<MapElm>, s: nat, need: nat, large: bool, flagDirty: bool) returns (m: seq<MapElm>)
    requires 1 <= need && s + need <= |pageMap|
    requires forall p :: s <= p < s + need && pageMap[p].dirty ==> flagDirty
    ensures |m| == |pageMap|
    ensures forall p :: 0 <= p < |m| && !(s <= p < s + need) ==> m[p] == pageMap[p]
    ensures forall p :: s <= p < s + need ==> EntryOk(m[p], Run(s, need, if large then Large else Small, flagDirty), p)
  {
    m := pageMap;
    if large {
      m := m[s + need - 1 := MapElm(0, flagDirty, false, true, true)];
      m := m[s := MapElm(need, flagDirty, false, true, true)];
    } else {
      m := m[s := MapElm(0, flagDirty, m[s].unzeroed, false, true)];
      ghost var m0 := m;
      for i := 1 to if need >= 2 then need - 1 else 1
        invariant |m| == |m0|
        invariant forall p :: 0 <= p < |m| && !(s + 1 <= p < s + i) ==> m[p] == m0[p]
        invariant forall p :: s + 1 <= p < s + i ==> m[p].pages + s == p && !m[p].dirty && !m[p].large && m[p].inUse
      {
        m := m[s + i := MapElm(i, false, m[s + i].unzeroed, false, true)];
      }
      m := m[s + need - 1 := MapElm(need - 1, flagDirty, m[s + need - 1].unzeroed, false, true)];
    }
  }

  /** The page map writes of arena_run_split. */
  method WriteSplit(pageMap: seq<MapElm>, s: nat, total: nat, need: nat, large: bool, ghost o: Layout) returns (m: seq<MapElm>)
    requires Tiled(o) && Encodes(pageMap, o) && s < |o| && o[s].start == s && o[s].kind == Free
    requires total == o[s].len && 1 <= need <= total
    ensures Encodes(m, SplitLayout(o, s, need, if large then Large else Small))
  {
    ghost var r := o[s];
    forall p | s <= p < r.End()
      ensures o[p] == r && EntryOk(pageMap[p], r, p)
    {
    }
    m := pageMap;
    var flagDirty := m[s].dirty;
    if need < total {
      m := WriteRemainder(m, s, total, need, flagDirty);
    }
    m := WriteAllocated(m, s, need, large, flagDirty);
    ghost var o' := SplitLayout(o, s, need, if large then Large else Small);
    forall p | 0 <= p < |o'|
      ensures EntryOk(m[p], o'[p], p)
    {
      assert EntryOk(pageMap[p], o[p], p);
    }
  }

  /** No chunk is twice in the list. */
  ghost predicate Distinct(l: seq<ChunkId>) {
    forall i, j :: 0 <= i < j < |l| ==> l[i] != l[j]
  }

  /** Pages in use stay in the same run, except perhaps those of chunk c from s on, len of them. */
  ghost predicate KeepsInUse(before: map<ChunkId, Layout>, after: map<ChunkId, Layout>, c: ChunkId, s: nat, len: nat) {
    forall d, p: nat {:trigger before[d][p]} {:trigger after[d][p]} ::
      d in before && p < |before[d]| && before[d][p].kind != Free && !(d == c && s <= p < s + len) ==>
        d in after && p < |after[d]| && after[d][p] == before[d][p]
  }
}
