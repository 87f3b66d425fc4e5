/** Growing a large run in place, and turning a small run into a large one. */
module ArenaGrowth {
  import opened Options
  import opened PageRuns
  import opened ArenaTypes
  import opened RunSplitting
  import opened RunReleasing
  import opened ArenaStates
  import opened ArenaReleases
  import opened ArenaFrames
  import opened ArenaCuts
  import opened ArenaChoices

  /** The run at s and the large run after it become one large run. */
  ghost function JoinLayout(o: Layout, s: nat): (o': Layout)
    requires CanJoin(o, s)
    ensures |o'| == |o|
  {
    Paint(o, JoinedRun(o, s))
  }

  ghost predicate CanJoin(o: Layout, s: nat) {
    Tiled(o) && s < |o| && o[s].start == s && o[s].kind == Large
    && var e := o[s].End(); e < |o| && o[e].start == e && o[e].kind == Large && o[e].End() <= |o|
  }

  ghost function JoinedRun(o: Layout, s: nat): Run
    requires CanJoin(o, s)
  {
    var e := o[s].End();
    Run(s, o[s].len + o[e].len, Large, o[s].dirty || o[e].dirty)
  }

  lemma JoinPages(o: Layout, s: nat, p: nat)
    requires CanJoin(o, s) && s <= p < JoinedRun(o, s).End()
    ensures p < |o| && o[p] == if p < o[s].End() then o[s] else o[o[s].End()]
  {
    var e := o[s].End();
    if p < e {
      assert o[p] == o[s];
    } else {
      assert o[p] == o[e];
    }
  }

  lemma JoinLayoutOk(o: Layout, s: nat, headers: map<nat, nat>)
    requires CanJoin(o, s) && HeadersOk(headers, o)
    ensures Tiled(JoinLayout(o, s)) && Relabels(o, JoinLayout(o, s)) && HeadersOk(headers, JoinLayout(o, s))
  {
    RunEndIsBoundary(o, s);
    RunEndIsBoundary(o, o[s].End());
    PaintTiled(o, JoinedRun(o, s));
    forall p | s <= p < JoinedRun(o, s).End()
      ensures o[p].kind == Large
    {
      JoinPages(o, s, p);
    }
  }

  /** The map writes at the end of arena_ralloc_large_grow. */
  method WriteJoin(pageMap: seq<MapElm>, s: nat, len: nat, ghost o: Layout) returns (m: seq<MapElm>)
    requires Encodes(pageMap, o) && CanJoin(o, s) && len == JoinedRun(o, s).len
    ensures Encodes(m, JoinLayout(o, s))
  {
    ghost var e := o[s].End();
    JoinPages(o, s, s + len - 1);
    LargeEntries(pageMap, o, s);
    LargeEntries(pageMap, o, e);
    var flagDirty := pageMap[s].dirty || pageMap[s + len - 1].dirty;
    m := pageMap[s := MapElm(len, flagDirty, false, true, true)];
    m := m[s + len - 1 := MapElm(0, flagDirty, false, true, true)];
    forall p | 0 <= p < |o|
      ensures EntryOk(m[p], JoinLayout(o, s)[p], p)
    {
      assert EntryOk(pageMap[p], o[p], p);
      if s <= p < s + len {
        JoinPages(o, s, p);
      }
    }
  }

  /** A clean small run relabelled as a large one before it is trimmed. */
  ghost function LargeLayout(o: Layout, s: nat): (o': Layout)
    requires CanFree(o, s) && o[s].End() <= |o|
    ensures |o'| == |o|
  {
    Paint(o, Run(s, o[s].len, Large, o[s].dirty))
  }

  lemma LargeLayoutOk(o: Layout, s: nat, headers: map<nat, nat>)
    requires CanFree(o, s) && o[s].End() <= |o| && HeadersOk(headers, o)
    ensures Tiled(LargeLayout(o, s)) && Relabels(o, LargeLayout(o, s)) && HeadersOk(headers, LargeLayout(o, s))
    ensures LargeLayout(o, s)[s] == Run(s, o[s].len, Large, o[s].dirty)
  {
    RunEndIsBoundary(o, s);
    PaintTiled(o, Run(s, o[s].len, Large, o[s].dirty));
    forall p | s <= p < o[s].End()
      ensures o[p] == o[s]
    {
    }
  }

  lemma LargePages(o: Layout, s: nat)
    requires CanFree(o, s) && o[s].End() <= |o| && o[s].kind == Small
    ensures forall p {:trigger o[p]} {:trigger LargeLayout(o, s)[p]} :: 0 <= p < |o| ==>
      (LargeLayout(o, s)[p].kind == Free <==> o[p].kind == Free) && LargeLayout(o, s)[p].dirty == o[p].dirty
        && (!(s <= p < o[s].End()) ==> LargeLayout(o, s)[p].kind == o[p].kind)
    ensures !SingleFree(o)
  {
    forall p | s <= p < o[s].End()
      ensures o[p] == o[s]
    {
    }
  }

  /** The first and last entries of a small run become those of a large one; a run of one page keeps what the first one needs. */
  method WriteLarge(pageMap: seq<MapElm>, s: nat, len: nat, ghost o: Layout) returns (m: seq<MapElm>)
    requires Encodes(pageMap, o) && CanFree(o, s) && o[s].End() <= |o| && o[s].kind == Small && len == o[s].len
    ensures Encodes(m, LargeLayout(o, s))
  {
    forall p | s <= p < o[s].End()
      ensures o[p] == o[s] && EntryOk(pageMap[p], o[s], p)
    {
    }
    m := pageMap[s + len - 1 := pageMap[s + len - 1].(pages := 0, large := true)];
    m := m[s := m[s].(pages := len, large := true)];
    forall p | 0 <= p < |o|
      ensures EntryOk(m[p], LargeLayout(o, s)[p], p)
    {
      assert EntryOk(pageMap[p], o[p], p);
    }
  }

  lemma CutReady(st: State, n: nat, c: ChunkId, s: nat, head: nat)
    requires ValidState(st, n) && c in st.chunks && CanCut(st.layouts[c], s, head)
    ensures c in st.layouts
    ensures var o, k := st.layouts[c], st.chunks[c];
      && |o| == |k.pageMap| == n && Encodes(k.pageMap, o) && HeadersOk(k.headers, o) && Tiled(o)
      && k.pageMap[s].pages == o[s].len && k.pageMap[s].dirty == o[s].dirty
  {
    assert ChunkLaid(st.chunks[c], st.layouts[c], n);
    LargeEntries(st.chunks[c].pageMap, st.layouts[c], s);
  }

  /** Across a cut and the release of one side, the other side is untouched. */
  lemma CutKept(l0: map<ChunkId, Layout>, l1: map<ChunkId, Layout>, l2: map<ChunkId, Layout>, c: ChunkId, s: nat, head: nat, freed: nat, kept: nat, len: nat)
    requires c in l0 && CanCut(l0[c], s, head) && l1 == l0[c := CutLayout(l0[c], s, head)]
    requires KeepsInUse(l1, l2, c, freed, len)
    requires (freed == s && kept == s + head && len == head) || (freed == s + head && kept == s && len == l0[c][s].len - head)
    ensures KeepsInUse(l0, l2, c, s, l0[c][s].len)
    ensures c in l2 && kept < |l2[c]| && l2[c][kept] == Run(kept, l0[c][s].len - len, Large, l0[c][s].dirty)
  {
    CutLayoutOk(l0[c], s, head);
    CutKeepsInUse(l0, c, s, head);
    KeepsInUseTrans(l0, l1, l2, c, s, l0[c][s].len, s, l0[c][s].len, freed, len);
    assert l1[c][kept] == Run(kept, l0[c][s].len - len, Large, l0[c][s].dirty);
  }

  /** What arena_ralloc_large_grow reads on both sides of the run's end. */
  lemma GrowReady(st: State, n: nat, c: ChunkId, s: nat)
    requires ValidState(st, n) && c in st.chunks && CanFree(st.layouts[c], s) && st.layouts[c][s].kind == Large
    ensures c in st.layouts && st.spare != Some(c) && OnlySpareFreeBut(st, c)
    ensures var o, m := st.layouts[c], st.chunks[c].pageMap;
      var e := o[s].End();
      && s < |o| == |m| == n && Tiled(o) && Encodes(m, o) && m[s].pages == o[s].len && e == s + o[s].len
      && (e < n ==> o[e].start == e && (m[e].inUse <==> o[e].kind != Free) && (o[e].kind == Free ==> m[e].pages == o[e].len >= 1))
  {
    var o, m := st.layouts[c], st.chunks[c].pageMap;
    assert ChunkLaid(st.chunks[c], o, n);
    ActiveEnough(st, n, c, s);
    LargeEntries(m, o, s);
    NeighbourEntries(m, o, s);
  }

  lemma GrowSplit(l: map<ChunkId, Layout>, c: ChunkId, s: nat, take: nat)
    requires c in l && CanFree(l[c], s) && l[c][s].kind == Large
    requires var e := l[c][s].End(); e < |l[c]| && l[c][e].kind == Free && l[c][e].start == e && 1 <= take <= l[c][e].len
    ensures var e := l[c][s].End();
      var o := SplitLayout(l[c], e, take, Large);
      && CanJoin(o, s) && o[s] == l[c][s] && JoinedRun(o, s).start == s && JoinedRun(o, s).len == l[c][s].len + take
  {
    var e := l[c][s].End();
    SplitLayoutTiled(l[c], e, take, Large);
    assert l[c][s].End() <= l[c][e].End();
  }

  lemma JoinReady(st: State, n: nat, c: ChunkId, s: nat)
    requires ValidState(st, n) && c in st.layouts && CanJoin(st.layouts[c], s)
    ensures c in st.chunks
    ensures var o, k := st.layouts[c], st.chunks[c]; |o| == n && Encodes(k.pageMap, o) && HeadersOk(k.headers, o)
  {
    assert ChunkLaid(st.chunks[c], st.layouts[c], n);
  }

  /** Growing touches only the grown run and free pages. */
  lemma GrowKept(l0: map<ChunkId, Layout>, l1: map<ChunkId, Layout>, c: ChunkId, s: nat, take: nat)
    requires c in l0 && CanFree(l0[c], s) && l0[c][s].kind == Large
    requires var e := l0[c][s].End(); e < |l0[c]| && l0[c][e].kind == Free && l0[c][e].start == e && 1 <= take <= l0[c][e].len
    requires CanJoin(SplitLayout(l0[c], l0[c][s].End(), take, Large), s)
    requires l1 == l0[c := JoinLayout(SplitLayout(l0[c], l0[c][s].End(), take, Large), s)]
    ensures KeepsInUse(l0, l1, c, s, l0[c][s].len)
  {
    var o := l0[c];
    var e := o[s].End();
    forall p | e <= p < o[e].End()
      ensures o[p] == o[e]
    {
    }
  }

  lemma BinRunReady(st: State, n: nat, c: ChunkId, s: nat)
    requires ValidState(st, n) && c in st.chunks && CanFree(st.layouts[c], s)
    ensures c in st.layouts
    ensures var o, k := st.layouts[c], st.chunks[c];
      && s < |o| == |k.pageMap| == n && o[s].End() <= |o| && o[s].len >= 1 && Tiled(o) && Encodes(k.pageMap, o) && HeadersOk(k.headers, o)
      && k.pageMap[s].dirty == o[s].dirty && RunPages(k, s) == o[s].len
  {
    assert ChunkLaid(st.chunks[c], st.layouts[c], n);
    RunPagesCorrect(st, n, c, s);
  }

  lemma RelabelKeepsInUse(l: map<ChunkId, Layout>, c: ChunkId, s: nat)
    requires c in l && CanFree(l[c], s) && l[c][s].End() <= |l[c]|
    ensures KeepsInUse(l, l[c := LargeLayout(l[c], s)], c, s, l[c][s].len)
  {
  }

  lemma GrowSplitReady(st: State, n: nat, c: ChunkId, e: nat, take: nat)
    requires ValidState(st, n) && c in st.chunks && c in st.layouts && st.spare != Some(c)
    requires var o := st.layouts[c]; e < |o| && o[e].start == e && o[e].kind == Free && 1 <= take <= o[e].len
    ensures Core(st, n) && CanSplit(st, c, e, take)
  {
    assert ChunkLaid(st.chunks[c], st.layouts[c], n);
  }

  /** The run at s is followed by a free run that brings it to `size` pages. */
  ghost predicate Growable(l: map<ChunkId, Layout>, c: ChunkId, s: nat, size: nat) {
    c in l && s < |l[c]| && l[c][s].len <= size && var e := l[c][s].End(); e < |l[c]| && l[c][e].kind == Free && size <= l[c][s].len + l[c][e].len
  }

  function Least(a: nat, b: nat): nat {
    if a < b then a else b
  }

  /** The run at s has grown into the free run after it, up to `most` pages; it is dirty if either was. */
  ghost predicate Grown(l0: map<ChunkId, Layout>, l1: map<ChunkId, Layout>, c: ChunkId, s: nat, most: nat) {
    && c in l0 && c in l1 && s < |l0[c]| && s < |l1[c]| && l0[c][s].End() < |l0[c]|
    && l1[c][s].start == s && l1[c][s].kind == Large
    && l1[c][s].len == Least(most, l0[c][s].len + l0[c][l0[c][s].End()].len)
    && l1[c][s].dirty == (l0[c][s].dirty || l0[c][l0[c][s].End()].dirty)
    && forall p {:trigger l0[c][p]} :: l0[c][s].End() <= p < s + l1[c][s].len ==> p < |l0[c]| && l0[c][p].kind == Free
  }

  /** The page map tells whether the run at s can grow. */
  lemma GrowTest(st: State, n: nat, c: ChunkId, s: nat, size: nat)
    requires ValidState(st, n) && c in st.chunks && CanFree(st.layouts[c], s) && st.layouts[c][s].kind == Large
    ensures c in st.layouts && s < |st.layouts[c]|
    ensures var m, len := st.chunks[c].pageMap, st.layouts[c][s].len;
      s + len < n && s + len < |m| && !m[s + len].inUse && size >= len && m[s + len].pages >= size - len <==> Growable(st.layouts, c, s, size)
  {
    hide ValidState, Tiled, Encodes;
    GrowReady(st, n, c, s);
  }

  lemma GrowResult(l0: map<ChunkId, Layout>, l1: map<ChunkId, Layout>, c: ChunkId, s: nat, take: nat, most: nat)
    requires c in l0 && CanFree(l0[c], s) && l0[c][s].kind == Large
    requires var e := l0[c][s].End(); e < |l0[c]| && l0[c][e].kind == Free && l0[c][e].start == e && 1 <= take <= l0[c][e].len
    requires l0[c][s].len + take == Least(most, l0[c][s].len + l0[c][l0[c][s].End()].len)
    requires CanJoin(SplitLayout(l0[c], l0[c][s].End(), take, Large), s)
    requires l1 == l0[c := JoinLayout(SplitLayout(l0[c], l0[c][s].End(), take, Large), s)]
    ensures Grown(l0, l1, c, s, most)
    ensures s < |l1[c]| && l1[c][s].start == s && l1[c][s].kind == Large && l1[c][s].len == l0[c][s].len + take
    ensures forall p {:trigger l0[c][p]} :: l0[c][s].End() <= p < l0[c][s].End() + take ==> p < |l0[c]| && l0[c][p].kind == Free
  {
    var o := l0[c];
    var e := o[s].End();
    forall p | e <= p < o[e].End()
      ensures o[p] == o[e]
    {
    }
  }

  lemma StillLaid(st: State, n: nat, c: ChunkId, s: nat)
    requires ValidState(st, n) && c in st.layouts && s < |st.layouts[c]| && st.layouts[c][s].start == s && st.layouts[c][s].kind != Free
    ensures c in st.chunks && CanFree(st.layouts[c], s)
  {
    assert ChunkLaid(st.chunks[c], st.layouts[c], n);
  }

  lemma PallocCut(st: State, n: nat, c: ChunkId, s: nat, head: nat)
    requires ValidState(st, n) && c in st.layouts && s < |st.layouts[c]|
    requires st.layouts[c][s].start == s && st.layouts[c][s].kind == Large && 1 <= head < st.layouts[c][s].len
    ensures c in st.chunks && CanCut(st.layouts[c], s, head)
  {
    assert ChunkLaid(st.chunks[c], st.layouts[c], n);
  }

  /** Giving clean pages of a clean run back leaves a smaller part of the pages taken. */
  lemma TakenThenFreed(l0: map<ChunkId, Layout>, l1: map<ChunkId, Layout>, l2: map<ChunkId, Layout>, c: ChunkId, s: nat, hi: nat, from: nat, end: nat, s': nat, hi': nat)
    requires s <= hi && OnlyTaken(l0, l1, c, s, hi) && Handed(l0, l1, c, s, hi - s, Large) && !l1[c][s].dirty
    requires ReleasedPages(l1, l2, c, from, end, false) && !SingleFree(l2[c])
    requires (from == s && s' == end && hi' == hi) || (from == hi' && end == hi && s' == s)
    requires s <= s' <= hi' <= hi
    ensures OnlyTaken(l0, l2, c, s', hi')
  {
    hide SingleFree;
    forall e | e in l0
      ensures e in l2
    {
      var l := l1[e];
    }
    forall p | 0 <= p < |l2[c]|
      ensures c in l0 ==> |l0[c]| == |l2[c]| && l2[c][p].dirty == l0[c][p].dirty && (!(s' <= p < hi') ==> l2[c][p].kind == l0[c][p].kind)
      ensures c !in l0 && !(s' <= p < hi') ==> l2[c][p].kind == Free && !l2[c][p].dirty
    {
      var r := l1[c][p];
    }
  }

  /** A run of len pages has been handed out: every run in use is still there, and if the run is clean nothing else has changed. */
  ghost predicate Given(l0: map<ChunkId, Layout>, l: map<ChunkId, Layout>, c: ChunkId, s: nat, len: nat) {
    && KeepsInUse(l0, l, 0, 0, 0) && Handed(l0, l, c, s, len, Large)
    && (!l[c][s].dirty ==> OnlyTaken(l0, l, c, s, s + len))
  }

  lemma JustGiven(l0: map<ChunkId, Layout>, l: map<ChunkId, Layout>, c: ChunkId, s: nat, len: nat)
    requires KeepsInUse(l0, l, 0, 0, 0) && Handed(l0, l, c, s, len, Large) && OnlyTaken(l0, l, c, s, s + len)
    ensures Given(l0, l, c, s, len)
  {
  }

  lemma RunInUse(l: map<ChunkId, Layout>, c: ChunkId, s: nat)
    requires c in l && Tiled(l[c]) && s < |l[c]| && l[c][s].kind != Free
    ensures !SingleFree(l[c])
  {
  }

  lemma LayoutTiled(st: State, n: nat, c: ChunkId)
    requires ValidState(st, n) && c in st.layouts
    ensures Tiled(st.layouts[c])
  {
    assert ChunkLaid(st.chunks[c], st.layouts[c], n);
  }

  lemma FreedPart(st: State, st': State, n: nat, c: ChunkId, lo: nat, hi: nat, d: bool)
    requires Freed(st, st', n, c, lo, hi, d)
    ensures ReleasedPages(st.layouts, st'.layouts, c, lo, hi, d)
  {
  }

  /** One trim of a freshly handed out clean run. */
  lemma CleanTrim(l0: map<ChunkId, Layout>, st1: State, st2: State, n: nat, c: ChunkId, s: nat, hi: nat, from: nat, end: nat, s': nat, hi': nat)
    requires OnlyTaken(l0, st1.layouts, c, s, hi) && s <= s' <= hi' <= hi && Handed(l0, st1.layouts, c, s, hi - s, Large) && !st1.layouts[c][s].dirty
    requires Freed(st1, st2, n, c, from, end, false) && ValidState(st2, n)
    requires c in st2.layouts && s' < |st2.layouts[c]| && st2.layouts[c][s'].kind == Large
    requires (from == s && s' == end && hi' == hi) || (from == hi' && end == hi && s' == s)
    ensures OnlyTaken(l0, st2.layouts, c, s', hi')
  {
    hide ValidState, Freed, ReleasedPages, Tiled, SingleFree, OnlyTaken;
    LayoutTiled(st2, n, c);
    RunInUse(st2.layouts, c, s');
    FreedPart(st1, st2, n, c, from, end, false);
    TakenThenFreed(l0, st1.layouts, st2.layouts, c, s, hi, from, end, s', hi');
  }

  /** Trimming a freshly handed out run leaves a freshly handed out run. */
  lemma PallocKept(l0: map<ChunkId, Layout>, l1: map<ChunkId, Layout>, l2: map<ChunkId, Layout>, c: ChunkId, s: nat, len: nat, s': nat, len': nat)
    requires KeepsInUse(l0, l1, 0, 0, 0) && Handed(l0, l1, c, s, len, Large) && KeepsInUse(l1, l2, c, s, len)
    requires s <= s' && s' + len' <= s + len
    requires c in l2 && s' < |l2[c]| && l2[c][s'] == Run(s', len', Large, l1[c][s].dirty)
    ensures KeepsInUse(l0, l2, 0, 0, 0) && Handed(l0, l2, c, s', len', Large)
  {
    forall d, p: nat | d in l0 && p < |l0[d]| && l0[d][p].kind != Free
      ensures d in l2 && p < |l2[d]| && l2[d][p] == l0[d][p]
    {
      assert l1[d][p] == l0[d][p];
    }
  }
}
