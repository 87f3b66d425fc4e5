/** Cutting a run in use in two, and joining two of them. */
module ArenaCuts {
  import opened Options
  import opened PageRuns
  import opened Tallies
  import opened ArenaTypes
  import opened RunSplitting
  import opened RunReleasing
  import opened ArenaStates
  import opened ArenaChunks

  /** Free runs are untouched and no page changes between free and in use. */
  ghost predicate Relabels(o: Layout, o': Layout) {
    |o'| == |o| && forall p {:trigger o[p]} {:trigger o'[p]} :: 0 <= p < |o| ==> if o[p].kind == Free then o'[p] == o[p] else o'[p].kind != Free
  }

  ghost function RelabelState(st: State, c: ChunkId, m: seq<MapElm>, o: Layout): State
    requires c in st.chunks
  {
    st.(chunks := st.chunks[c := st.chunks[c].(pageMap := m)], layouts := st.layouts[c := o])
  }

  lemma RelabelTotals(o: Layout, o': Layout)
    requires Relabels(o, o')
    ensures Total(o', Active) == Total(o, Active) && Total(o', DirtyFree) == Total(o, DirtyFree)
    ensures Coalesced(o) ==> Coalesced(o')
    ensures SingleFree(o') ==> SingleFree(o)
    ensures SingleFree(o) ==> SingleFree(o')
  {
    CountAgree(o, o', Active, 0, |o|);
    CountAgree(o, o', DirtyFree, 0, |o|);
  }

  lemma RelabelAvail(avail: set<Avail>, layouts: map<ChunkId, Layout>, spare: Option<ChunkId>, flag: bool, c: ChunkId, o: Layout)
    requires AvailIs(avail, layouts, spare, flag, None) && c in layouts && Relabels(layouts[c], o)
    ensures AvailIs(avail, layouts[c := o], spare, flag, None)
  {
    forall p: nat, len: nat
      ensures FreeRunAt(layouts[c], p, len, flag) <==> FreeRunAt(o, p, len, flag)
    {
    }
  }

  lemma RelabelKeepsValid(st: State, n: nat, c: ChunkId, m: seq<MapElm>, o: Layout)
    requires ValidState(st, n) && c in st.chunks && c in st.layouts && Relabels(st.layouts[c], o)
    requires Tiled(o) && Encodes(m, o) && HeadersOk(st.chunks[c].headers, o)
    ensures ValidState(RelabelState(st, c, m, o), n)
  {
    hide Tiled, Encodes, HeadersOk, Coalesced, Total, AvailIs, Tally, ActivePages, DirtyPages, Relabels, SingleFree, Summed, Listed;
    var st' := RelabelState(st, c, m, o);
    var k := st'.chunks[c];
    RelabelTotals(st.layouts[c], o);
    RelabelLength(st.layouts[c], o);
    ReplaceLaid(st, st', n, c, k, o);
    ReplaceMerged(st, st', c, k, o);
    ReplaceCounts(st, st', c, k, o);
    ReplaceListed(st, st', c, k, o);
    RelabelAvail(st.availDirty, st.layouts, st.spare, true, c, o);
    RelabelAvail(st.availClean, st.layouts, st.spare, false, c, o);
  }

  lemma RelabelLength(o: Layout, o': Layout)
    requires Relabels(o, o')
    ensures |o'| == |o|
  {
  }

  /** Cutting the large run at s after `head` pages. */
  ghost function CutLayout(o: Layout, s: nat, head: nat): (o': Layout)
    requires s < |o| && o[s].End() <= |o| && o[s].start == s && 1 <= head < o[s].len
    ensures |o'| == |o|
  {
    var r := o[s];
    Paint(Paint(o, Run(s, head, Large, r.dirty)), Run(s + head, r.len - head, Large, r.dirty))
  }

  ghost predicate CanCut(o: Layout, s: nat, head: nat) {
    Tiled(o) && s < |o| && o[s].End() <= |o| && o[s].start == s && o[s].kind == Large && 1 <= head < o[s].len
  }

  lemma CutHeaders(o: Layout, s: nat, head: nat, headers: map<nat, nat>)
    requires CanCut(o, s, head) && HeadersOk(headers, o)
    ensures HeadersOk(headers, CutLayout(o, s, head))
  {
  }

  lemma CutLayoutOk(o: Layout, s: nat, head: nat)
    requires CanCut(o, s, head)
    ensures var o' := CutLayout(o, s, head);
      && Tiled(o') && Relabels(o, o')
      && CanFree(o', s) && CanFree(o', s + head)
      && o'[s] == Run(s, head, Large, o[s].dirty) && o'[s + head] == Run(s + head, o[s].len - head, Large, o[s].dirty)
  {
    RunEndIsBoundary(o, s);
    PaintTwoTiled(o, Run(s, head, Large, o[s].dirty), Run(s + head, o[s].len - head, Large, o[s].dirty));
    forall p | s <= p < o[s].End()
      ensures o[p] == o[s]
    {
    }
  }

  lemma CutPages(o: Layout, s: nat, head: nat)
    requires CanCut(o, s, head)
    ensures FreedPages(o, CutLayout(o, s, head), 0, 0, false) && !SingleFree(o)
  {
    forall p | s <= p < o[s].End()
      ensures o[p] == o[s]
    {
    }
  }

  lemma CutKeepsInUse(layouts: map<ChunkId, Layout>, c: ChunkId, s: nat, head: nat)
    requires c in layouts && CanCut(layouts[c], s, head)
    ensures KeepsInUse(layouts, layouts[c := CutLayout(layouts[c], s, head)], c, s, layouts[c][s].len)
  {
  }

  ghost predicate CutEntries(pageMap: seq<MapElm>, m: seq<MapElm>, s: nat, total: nat, head: nat, d: bool)
    requires |m| == |pageMap| && s + total <= |m| && 1 <= head < total
  {
    && (forall p {:trigger m[p]} :: 0 <= p < |m| && p != s && p != s + head - 1 && p != s + head && p != s + total - 1 ==> m[p] == pageMap[p])
    && EntryOk(m[s], Run(s, head, Large, d), s) && EntryOk(m[s + head - 1], Run(s, head, Large, d), s + head - 1)
    && EntryOk(m[s + head], Run(s + head, total - head, Large, d), s + head)
    && EntryOk(m[s + total - 1], Run(s + head, total - head, Large, d), s + total - 1)
  }

  lemma CutEncodes(pageMap: seq<MapElm>, m: seq<MapElm>, s: nat, total: nat, head: nat, o: Layout)
    requires Encodes(pageMap, o) && CanCut(o, s, head) && total == o[s].len && |m| == |pageMap|
    requires CutEntries(pageMap, m, s, total, head, o[s].dirty)
    ensures Encodes(m, CutLayout(o, s, head))
  {
    forall p | 0 <= p < |o|
      ensures EntryOk(m[p], CutLayout(o, s, head)[p], p)
    {
      assert EntryOk(pageMap[p], o[p], p);
      if s <= p < s + total {
        assert o[p] == o[s];
      }
    }
  }

  /** What the page map says about the ends and the inside of a large run. */
  lemma LargeEntries(m: seq<MapElm>, o: Layout, s: nat)
    requires Encodes(m, o) && Tiled(o) && s < |o| && o[s].start == s && o[s].kind == Large
    ensures |m| == |o| && o[s].End() <= |o| && m[s].dirty == o[s].dirty && m[s].pages == o[s].len
    ensures forall p {:trigger m[p]} :: s <= p < o[s].End() && m[p].dirty ==> o[s].dirty
    ensures EntryOk(m[o[s].End() - 1], o[s], o[s].End() - 1)
  {
    assert EntryOk(m[s], o[s], s);
    forall p | s <= p < o[s].End()
      ensures EntryOk(m[p], o[s], p)
    {
      assert o[p] == o[s];
    }
  }

  /** The page map writes of arena_run_trim_head: the head is about to be released. */
  method WriteCutHead(pageMap: seq<MapElm>, s: nat, total: nat, head: nat, ghost o: Layout) returns (m: seq<MapElm>)
    requires Encodes(pageMap, o) && CanCut(o, s, head) && total == o[s].len
    ensures Encodes(m, CutLayout(o, s, head))
  {
    hide Encodes, Tiled, CutLayout;
    LargeEntries(pageMap, o, s);
    var flagDirty := pageMap[s].dirty;
    m := pageMap;
    m := m[s + head - 1 := MapElm(0, flagDirty, m[s + head - 1].unzeroed, true, true)];
    m := m[s := MapElm(head, flagDirty, m[s].unzeroed, true, true)];
    m := m[s + head := MapElm(total - head, flagDirty || m[s + head].dirty, m[s + head].unzeroed, true, true)];
    CutEncodes(pageMap, m, s, total, head, o);
  }

  /** The page map writes of arena_run_trim_tail: the tail is about to be released. */
  method WriteCutTail(pageMap: seq<MapElm>, s: nat, total: nat, head: nat, ghost o: Layout) returns (m: seq<MapElm>)
    requires Encodes(pageMap, o) && CanCut(o, s, head) && total == o[s].len
    ensures Encodes(m, CutLayout(o, s, head))
  {
    hide Encodes, Tiled, CutLayout;
    LargeEntries(pageMap, o, s);
    var flagDirty := pageMap[s].dirty;
    m := pageMap;
    m := m[s + head - 1 := MapElm(0, flagDirty, m[s + head - 1].unzeroed, true, true)];
    m := m[s := MapElm(head, flagDirty, m[s].unzeroed, true, true)];
    m := m[s + total - 1 := MapElm(0, flagDirty, m[s + total - 1].unzeroed, true, true)];
    m := m[s + head := MapElm(total - head, flagDirty, m[s + head].unzeroed, true, true)];
    CutEncodes(pageMap, m, s, total, head, o);
  }

  ghost predicate OnlySpareFreeBut(st: State, c: ChunkId) {
    forall d {:trigger st.layouts[d]} :: d in st.layouts && d != c && SingleFree(st.layouts[d]) ==> st.spare == Some(d)
  }

  lemma SpareReady(st: State, n: nat)
    requires Core(st, n) && st.spare.Some?
    ensures var c := st.spare.value;
      && c in st.chunks && c in st.layouts && |st.layouts[c]| > 0 && |st.chunks[c].pageMap| > 0
      && var e := st.chunks[c].pageMap[0]; e.dirty == st.layouts[c][0].dirty && e.pages == st.layouts[c][0].len
  {
    DeallocReady(st, n, st.spare.value);
  }

  lemma UnspareCanSplit(st: State, n: nat)
    requires ValidState(st, n) && st.spare.Some? && st.spare.value in st.layouts && |st.layouts[st.spare.value]| > 0
    ensures CanSplit(UnspareState(st), st.spare.value, 0, n)
    ensures OnlySpareFreeBut(UnspareState(st), st.spare.value)
  {
    assert ChunkLaid(st.chunks[st.spare.value], st.layouts[st.spare.value], n);
  }

  lemma FreshCanSplit(st: State, n: nat, c: ChunkId, m: seq<MapElm>)
    requires ValidState(st, n) && c !in st.chunks && n > 0
    ensures c !in st.layouts && CanSplit(FreshState(st, n, c, m), c, 0, n)
    ensures OnlySpareFreeBut(FreshState(st, n, c, m), c)
    ensures KeepsInUse(st.layouts, FreshState(st, n, c, m).layouts, 0, 0, 0)
  {
    hide Summed, Counted, Avails, AvailIs, Listed, Merged, ChunkLaid, Total, Tally, ActivePages, DirtyPages, Encodes;
    FreshTiled(n);
  }

  lemma FreshTiled(n: nat)
    requires n > 0
    ensures var o := FreshLayout(n); Tiled(o) && o[0] == Run(0, n, Free, false)
  {
  }

  /** The page map of a chunk just obtained from chunk_alloc. */
  method FreshMap(n: nat, zero: bool) returns (m: seq<MapElm>)
    requires n > 0
    ensures Encodes(m, FreshLayout(n))
  {
    var unzeroed := !zero;
    m := seq(n, _ => MapElm(0, false, unzeroed, false, false));
    m := m[0 := MapElm(n, false, unzeroed, false, false)];
    m := m[n - 1 := MapElm(n, false, unzeroed, false, false)];
  }
}
