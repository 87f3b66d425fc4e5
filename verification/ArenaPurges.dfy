/** Purging a chunk: its dirty free runs are taken as large runs, cleaned, and released. */
module ArenaPurges {
  import opened Options
  import opened Numbers
  import opened PageRuns
  import opened Tallies
  import opened ArenaTypes
  import opened RunSplitting
  import opened RunReleasing
  import opened ArenaStates
  import opened ArenaChunks
  import opened ArenaCuts

  predicate DirtyFreeRun(r: Run) {
    r.kind == Free && r.dirty
  }

  /** The dirty free runs that start before page `upto` are taken out of circulation as clean large runs. */
  ghost function TakenLayout(o: Layout, upto: nat): (o': Layout)
    ensures |o'| == |o|
    ensures forall p {:trigger o'[p]} :: 0 <= p < |o| ==> o'[p] == if p < upto && DirtyFreeRun(o[p]) then Run(o[p].start, o[p].len, Large, false) else o[p]
  {
    seq(|o|, p requires 0 <= p < |o| => if p < upto && DirtyFreeRun(o[p]) then Run(o[p].start, o[p].len, Large, false) else o[p])
  }

  /** The map entries arena_chunk_purge writes for one dirty free run. */
  method WriteTaken(pageMap: seq<MapElm>, s: nat, len: nat, unzeroed: bool) returns (m: seq<MapElm>)
    requires 1 <= len && s + len <= |pageMap|
    ensures |m| == |pageMap| && forall p {:trigger m[p]} :: 0 <= p < |m| && !(s <= p < s + len) ==> m[p] == pageMap[p]
    ensures forall p {:trigger m[p]} :: s <= p < s + len ==> EntryOk(m[p], Run(s, len, Large, false), p)
  {
    m := pageMap[s := MapElm(len, false, unzeroed, true, true)];
    ghost var m0 := m;
    for i := 1 to if len >= 2 then len - 1 else 1
      invariant |m| == |m0|
      invariant forall p {:trigger m[p]} :: 0 <= p < |m| && !(s + 1 <= p < s + i) ==> m[p] == m0[p]
      invariant forall p {:trigger m[p]} :: s + 1 <= p < s + i ==> m[p] == MapElm(0, false, unzeroed, false, false)
    {
      m := m[s + i := MapElm(0, false, unzeroed, false, false)];
    }
    if len > 1 {
      m := m[s + len - 1 := MapElm(0, false, unzeroed, true, true)];
    }
  }

  /** What the walk of arena_chunk_purge reads at the first page of a run. */
  lemma WalkEntry(k: Chunk, o: Layout, n: nat, m: seq<MapElm>, p: nat)
    requires ChunkLaid(k, o, n) && Encodes(m, TakenLayout(o, p)) && p < n && o[p].start == p
    ensures |m| == n && o[p].len >= 1 && o[p].End() <= n && Boundary(o, o[p].End())
    ensures (m[p].inUse <==> o[p].kind != Free) && m[p].dirty == o[p].dirty
    ensures if m[p].inUse && !m[p].large then p in k.headers && k.headers[p] == o[p].len else m[p].pages == o[p].len
  {
    assert EntryOk(m[p], TakenLayout(o, p)[p], p);
    RunEndIsBoundary(o, p);
  }

  lemma TakenStep(m: seq<MapElm>, m': seq<MapElm>, o: Layout, p: nat)
    requires Tiled(o) && p < |o| && o[p].start == p && o[p].End() <= |o| && Encodes(m, TakenLayout(o, p)) && |m'| == |m|
    requires forall q {:trigger m'[q]} :: 0 <= q < |m| && !(p <= q < o[p].End()) ==> m'[q] == m[q]
    requires if DirtyFreeRun(o[p]) then forall q {:trigger m'[q]} :: p <= q < o[p].End() ==> EntryOk(m'[q], Run(p, o[p].len, Large, false), q)
             else m' == m
    ensures Encodes(m', TakenLayout(o, o[p].End()))
  {
    var e := o[p].End();
    forall q | 0 <= q < |o|
      ensures EntryOk(m'[q], TakenLayout(o, e)[q], q)
    {
      assert EntryOk(m[q], TakenLayout(o, p)[q], q);
      if p <= q < e {
        assert o[q] == o[p];
      }
    }
  }

  /** The starts of the dirty free runs below page `upto`, in order. */
  ghost predicate TakenList(taken: seq<nat>, o: Layout, upto: nat) {
    && upto <= |o|
    && (forall i {:trigger taken[i]} :: 0 <= i < |taken| ==> taken[i] < upto && o[taken[i]].start == taken[i] && DirtyFreeRun(o[taken[i]]))
    && (forall i, j {:trigger taken[i], taken[j]} :: 0 <= i < j < |taken| ==> taken[i] < taken[j])
    && (forall p {:trigger o[p]} :: 0 <= p < upto && o[p].start == p && DirtyFreeRun(o[p]) ==> p in taken)
  }

  ghost function PagesOf(o: Layout, taken: seq<nat>): nat {
    if taken == [] then 0 else
      var last := taken[|taken| - 1];
      PagesOf(o, taken[..|taken| - 1]) + if last < |o| then o[last].len else 0
  }

  lemma TakenStart(k: Chunk, o: Layout, n: nat)
    requires ChunkLaid(k, o, n)
    ensures Boundary(o, 0) && Encodes(k.pageMap, TakenLayout(o, 0)) && TakenList([], o, 0) && PagesOf(o, []) == 0 == Count(o, DirtyFree, 0, 0)
  {
    assert TakenLayout(o, 0) == o;
    assert o[0].start == 0;
  }

  /** The first half of arena_chunk_purge: the walk over the chunk's page map. */
  method TakeDirtyRuns(k: Chunk, n: nat, unzeroed: bool, ghost o: Layout) returns (m: seq<MapElm>, taken: seq<nat>, pages: nat)
    requires ChunkLaid(k, o, n)
    ensures Encodes(m, TakenLayout(o, n)) && TakenList(taken, o, n)
    ensures pages == PagesOf(o, taken) == Total(o, DirtyFree)
  {
    hide Encodes, TakenLayout, TakenList, PagesOf, Count, Tiled, HeadersOk, EntryOk;
    m, taken, pages := k.pageMap, [], 0;
    var p := 0;
    TakenStart(k, o, n);
    while p < n
      invariant p <= n && Boundary(o, p) && Encodes(m, TakenLayout(o, p)) && TakenList(taken, o, p)
      invariant pages == PagesOf(o, taken) == Count(o, DirtyFree, 0, p)
      decreases n - p
    {
      WalkEntry(k, o, n, m, p);
      ghost var p0, m0, taken0 := p, m, taken;
      if !m[p].inUse {
        var npages := m[p].pages;
        if m[p].dirty {
          m := WriteTaken(m, p, npages, unzeroed);
          taken := taken + [p];
          pages := pages + npages;
        }
        p := p + npages;
      } else if m[p].large {
        p := p + m[p].pages;
      } else {
        p := p + k.headers[p];
      }
      TakenStep(m0, m, o, p0);
      TakenListStep(o, p0, taken0, taken);
    }
  }

  lemma TakenListStep(o: Layout, p: nat, taken: seq<nat>, taken': seq<nat>)
    requires Tiled(o) && p < |o| && o[p].start == p && o[p].End() <= |o| && TakenList(taken, o, p)
    requires taken' == if DirtyFreeRun(o[p]) then taken + [p] else taken
    ensures TakenList(taken', o, o[p].End())
    ensures PagesOf(o, taken') == PagesOf(o, taken) + (if DirtyFreeRun(o[p]) then o[p].len else 0)
    ensures Count(o, DirtyFree, 0, o[p].End()) == Count(o, DirtyFree, 0, p) + (if DirtyFreeRun(o[p]) then o[p].len else 0)
  {
    var e := o[p].End();
    forall q | p <= q < e
      ensures o[q] == o[p]
    {
    }
    CountSplit(o, DirtyFree, 0, p, e);
    CountUniform(o, DirtyFree, p, e, DirtyFreeRun(o[p]));
    if DirtyFreeRun(o[p]) {
      assert taken'[..|taken'| - 1] == taken;
      assert p in taken';
      assert forall q :: q in taken ==> q in taken';
    }
  }

  ghost function TakenState(st: State, n: nat, c: ChunkId, m: seq<MapElm>): State
    requires c in st.chunks && c in st.layouts && st.chunks[c].ndirty <= st.ndirty
  {
    var o, k := st.layouts[c], st.chunks[c];
    st.(chunks := st.chunks[c := Chunk(m, k.headers, 0, false)],
        layouts := st.layouts[c := TakenLayout(o, n)],
        availDirty := WithoutChunk(st.availDirty, c),
        chunksDirty := Without(st.chunksDirty, c),
        nactive := st.nactive + Total(o, DirtyFree),
        ndirty := st.ndirty - k.ndirty)
  }

  function WithoutChunk(avail: set<Avail>, c: ChunkId): set<Avail> {
    set a | a in avail && a.chunk != c
  }

  lemma TakenTiled(o: Layout)
    requires Tiled(o)
    ensures Tiled(TakenLayout(o, |o|))
  {
    var o' := TakenLayout(o, |o|);
    forall p, q | 0 <= p < |o'| && o'[p].start <= q < o'[p].End()
      ensures o'[q] == o'[p]
    {
      assert o[q] == o[p];
    }
  }

  lemma TakenTotals(o: Layout)
    ensures var o' := TakenLayout(o, |o|);
      && Total(o', DirtyFree) == 0
      && Total(o', Active) == Total(o, Active) + Total(o, DirtyFree)
  {
    CountUniform(TakenLayout(o, |o|), DirtyFree, 0, |o|, false);
    TakenActive(o, |o|);
  }

  lemma {:induction false} TakenActive(o: Layout, hi: nat)
    requires hi <= |o|
    ensures Count(TakenLayout(o, |o|), Active, 0, hi) == Count(o, Active, 0, hi) + Count(o, DirtyFree, 0, hi)
  {
    if hi > 0 {
      TakenActive(o, hi - 1);
    }
  }

  lemma TakenCoalesced(o: Layout)
    requires Coalesced(o)
    ensures Coalesced(TakenLayout(o, |o|))
  {
  }

  lemma TakenAvail(st: State, c: ChunkId, n: nat)
    requires Avails(st, None) && c in st.layouts && st.spare != Some(c) && |st.layouts[c]| == n
    ensures var l' := st.layouts[c := TakenLayout(st.layouts[c], n)];
      && AvailIs(WithoutChunk(st.availDirty, c), l', st.spare, true, None)
      && AvailIs(st.availClean, l', st.spare, false, None)
  {
    var o := st.layouts[c];
    forall p: nat, len: nat
      ensures !FreeRunAt(TakenLayout(o, n), p, len, true)
      ensures FreeRunAt(TakenLayout(o, n), p, len, false) <==> FreeRunAt(o, p, len, false)
    {
    }
  }

  lemma TakenListed(st: State, st': State, c: ChunkId, k: Chunk, o: Layout)
    requires Replaces(st, st', c, k, o) && Listed(st) && !k.dirtied && k.ndirty == 0 && st'.chunksDirty == Without(st.chunksDirty, c)
    ensures Listed(st')
  {
    WithoutDistinct(st.chunksDirty, c);
  }

  lemma TakenKeepsValid(st: State, n: nat, c: ChunkId, m: seq<MapElm>)
    requires Core(st, n) && c in st.chunks && st.spare != Some(c) && OnlySpareFreeBut(st, c) && st.chunks[c].ndirty > 0
    requires Encodes(m, TakenLayout(st.layouts[c], n))
    ensures st.chunks[c].ndirty <= st.ndirty && ValidState(TakenState(st, n, c, m), n)
  {
    hide Tiled, Encodes, HeadersOk, Coalesced, Total, AvailIs, Tally, ActivePages, DirtyPages, SingleFree, Listed, TakenLayout, Without, WithoutChunk;
    var o, k := st.layouts[c], st.chunks[c];
    SumsUpdate(st.layouts, st.chunks, c, o, k);
    assert ChunkLaid(k, o, n);
    TakenTiled(o);
    TakenTotals(o);
    TakenCoalesced(o);
    TakenHeaders(k.headers, o);
    TakenNotSingle(o);
    var st' := TakenState(st, n, c, m);
    var k', o' := st'.chunks[c], st'.layouts[c];
    ReplaceLaid(st, st', n, c, k', o');
    ReplaceMerged(st, st', c, k', o');
    ReplaceCounts(st, st', c, k', o');
    TakenListed(st, st', c, k', o');
    TakenAvail(st, c, n);
  }

  lemma TakenHeaders(headers: map<nat, nat>, o: Layout)
    requires HeadersOk(headers, o)
    ensures HeadersOk(headers, TakenLayout(o, |o|))
  {
  }

  /** A chunk with dirty pages keeps at least one page in use while they are purged. */
  lemma TakenNotSingle(o: Layout)
    requires Total(o, DirtyFree) > 0
    ensures !SingleFree(TakenLayout(o, |o|)) || !Tiled(TakenLayout(o, |o|))
  {
    var o' := TakenLayout(o, |o|);
    if SingleFree(o') && Tiled(o') {
      forall p | 0 <= p < |o|
        ensures !Tagged(o[p], DirtyFree)
      {
        assert o'[p] == o'[0];
      }
      CountUniform(o, DirtyFree, 0, |o|, false);
    }
  }

  /** The runs taken by a purge and not yet released are still there. */
  ghost predicate StillTaken(layouts: map<ChunkId, Layout>, c: ChunkId, o: Layout, taken: seq<nat>) {
    forall i {:trigger taken[i]} :: 0 <= i < |taken| ==>
      c in layouts && taken[i] < |layouts[c]| && taken[i] < |o|
      && layouts[c][taken[i]] == Run(taken[i], o[taken[i]].len, Large, false) && DirtyFreeRun(o[taken[i]])
  }

  lemma TakenStillTaken(layouts: map<ChunkId, Layout>, c: ChunkId, n: nat, taken: seq<nat>)
    requires c in layouts && |layouts[c]| == n && TakenList(taken, layouts[c], n)
    ensures StillTaken(layouts[c := TakenLayout(layouts[c], n)], c, layouts[c], taken)
  {
  }

  /** Everything in use stays, except the dirty runs of layout o of chunk c, which a purge holds. */
  ghost predicate KeepsOthers(before: map<ChunkId, Layout>, after: map<ChunkId, Layout>, c: ChunkId, o: Layout) {
    forall d, p: nat {:trigger before[d][p]} {:trigger after[d][p]} ::
      d in before && p < |before[d]| && before[d][p].kind != Free && !(d == c && p < |o| && DirtyFreeRun(o[p])) ==>
        d in after && p < |after[d]| && after[d][p] == before[d][p]
  }

  lemma KeepsSelf(l: map<ChunkId, Layout>, c: ChunkId, o: Layout)
    ensures KeepsOthers(l, l, c, o)
  {
  }

  /** What was in use before the purge is in use after it. */
  lemma PurgeKeeps(l0: map<ChunkId, Layout>, l2: map<ChunkId, Layout>, c: ChunkId, n: nat)
    requires c in l0 && KeepsOthers(l0[c := TakenLayout(l0[c], n)], l2, c, l0[c])
    ensures KeepsInUse(l0, l2, 0, 0, 0)
  {
    var l1 := l0[c := TakenLayout(l0[c], n)];
    forall d, p: nat | d in l0 && p < |l0[d]| && l0[d][p].kind != Free
      ensures d in l2 && p < |l2[d]| && l2[d][p] == l0[d][p]
    {
      assert l1[d][p] == l0[d][p];
    }
  }

  /** Releasing the first taken run leaves the others and everything else that was in use. */
  lemma ReleaseTaken(l0: map<ChunkId, Layout>, l1: map<ChunkId, Layout>, l2: map<ChunkId, Layout>, n: nat, c: ChunkId, o: Layout, taken: seq<nat>)
    requires Tiled(o) && |o| == n && c in l1 && |l1[c]| == n && Tiled(l1[c])
    requires |taken| > 0 && StillTaken(l1, c, o, taken) && KeepsOthers(l0, l1, c, o)
    requires forall i, j {:trigger taken[i], taken[j]} :: 0 <= i < j < |taken| ==> taken[i] < taken[j]
    requires o[taken[0]].start == taken[0]
    requires KeepsInUse(l1, l2, c, taken[0], o[taken[0]].len)
    ensures KeepsOthers(l0, l2, c, o)
    ensures StillTaken(l2, c, o, taken[1..])
    ensures CanFree(l1[c], taken[0]) && l1[c][taken[0]].len == o[taken[0]].len && !l1[c][taken[0]].dirty
  {
    var s := taken[0];
    var len := o[s].len;
    forall p | s <= p < s + len
      ensures o[p] == o[s] && l1[c][p] == l1[c][s]
    {
      assert l1[c][s] == Run(s, len, Large, false);
    }
    forall d, p: nat | d in l0 && p < |l0[d]| && l0[d][p].kind != Free && !(d == c && p < |o| && DirtyFreeRun(o[p]))
      ensures d in l2 && p < |l2[d]| && l2[d][p] == l0[d][p]
    {
      assert l1[d][p] == l0[d][p];
    }
    forall i | 0 <= i < |taken[1..]|
      ensures var t := taken[1..][i]; c in l2 && t < |l2[c]| && l2[c][t] == Run(t, o[t].len, Large, false)
    {
      var t := taken[i + 1];
      assert taken[0] < taken[i + 1];
      assert l1[c][t] == Run(t, o[t].len, Large, false);
    }
  }

  lemma PurgeReady(st: State, n: nat, c: ChunkId)
    requires ValidState(st, n) && c in st.chunks
    ensures n > 0 && c in st.layouts && ChunkLaid(st.chunks[c], st.layouts[c], n) && Tiled(st.layouts[c])
    ensures st.chunks[c].ndirty == Total(st.layouts[c], DirtyFree)
    ensures st.chunks[c].ndirty > 0 ==> c in st.chunksDirty
    ensures st.spare != Some(c) ==> OnlySpareFreeBut(st, c)
  {
    assert ChunkLaid(st.chunks[c], st.layouts[c], n);
  }

  /** A chunk in which a purge holds runs is not completely free. */
  lemma HeldNotFree(layouts: map<ChunkId, Layout>, c: ChunkId, o: Layout, taken: seq<nat>)
    requires taken != [] && StillTaken(layouts, c, o, taken) && c in layouts && Tiled(layouts[c])
    ensures !SingleFree(layouts[c])
  {
    var p := taken[0];
  }

  lemma NoPages(o: Layout)
    ensures PagesOf(o, []) == 0
  {
  }

  lemma {:induction false} TakenNext(st: State, n: nat, c: ChunkId, o: Layout, taken: seq<nat>, i: nat)
    requires ValidState(st, n) && |o| == n && Tiled(o) && i < |taken|
    requires TakenList(taken, o, n) && StillTaken(st.layouts, c, o, taken[i..]) && c in st.chunks
    ensures c in st.layouts && |st.layouts[c]| == n && Tiled(st.layouts[c])
    ensures CanFree(st.layouts[c], taken[i]) && st.layouts[c][taken[i]].len == o[taken[i]].len && !st.layouts[c][taken[i]].dirty
    ensures PagesOf(o, taken[..i + 1]) == PagesOf(o, taken[..i]) + o[taken[i]].len
  {
    hide ValidState, Core;
    PurgeReady(st, n, c);
    assert taken[i..][0] == taken[i];
    assert taken[..i + 1][..i] == taken[..i];
  }

  lemma ReleaseTakenAt(l0: map<ChunkId, Layout>, l1: map<ChunkId, Layout>, l2: map<ChunkId, Layout>, n: nat, c: ChunkId, o: Layout, taken: seq<nat>, i: nat)
    requires Tiled(o) && |o| == n && c in l1 && |l1[c]| == n && Tiled(l1[c])
    requires i < |taken| && TakenList(taken, o, n) && StillTaken(l1, c, o, taken[i..]) && KeepsOthers(l0, l1, c, o)
    requires KeepsInUse(l1, l2, c, taken[i], o[taken[i]].len)
    ensures KeepsOthers(l0, l2, c, o)
    ensures StillTaken(l2, c, o, taken[i + 1..])
  {
    var t := taken[i..];
    forall a, b | 0 <= a < b < |t|
      ensures t[a] < t[b]
    {
      assert taken[i + a] < taken[i + b];
    }
    assert t[0] == taken[i];
    ReleaseTaken(l0, l1, l2, n, c, o, t);
    assert t[1..] == taken[i + 1..];
  }

  /** nactive >> lg_dirty_mult. */
  function Share(active: nat, lg: int): nat {
    if lg <= 0 then active else Share(active / 2, lg - 1)
  }

  lemma {:induction false} ShareIs(active: nat, lg: nat)
    ensures Share(active, lg) * Pow2(lg) <= active < Share(active, lg) * Pow2(lg) + Pow2(lg)
  {
    if lg > 0 {
      ShareIs(active / 2, lg - 1);
      TwiceTimes(Share(active / 2, lg - 1), Pow2(lg - 1));
    }
  }

  lemma TwiceTimes(q: nat, p: nat)
    ensures q * (2 * p) == 2 * (q * p)
  {
  }

  lemma KeepsAll(l: map<ChunkId, Layout>)
    ensures KeepsInUse(l, l, 0, 0, 0)
  {
  }

  lemma KeepsInUseWider(l0: map<ChunkId, Layout>, l1: map<ChunkId, Layout>, c: ChunkId, s: nat, len: nat)
    requires KeepsInUse(l0, l1, 0, 0, 0)
    ensures KeepsInUse(l0, l1, c, s, len)
  {
  }

  ghost function UndirtyState(st: State, c: ChunkId): State
    requires c in st.chunks
  {
    st.(chunks := st.chunks[c := st.chunks[c].(dirtied := false)], chunksDirty := Without(st.chunksDirty, c))
  }

  lemma DirtyListed(st: State, n: nat, c: ChunkId)
    requires ValidState(st, n) && c in st.chunksDirty
    ensures c in st.chunks && c in st.layouts
  {
  }

  /** Lazy removal of a chunk without dirty pages from the dirty list. */
  lemma UndirtyKeepsValid(st: State, n: nat, c: ChunkId)
    requires ValidState(st, n) && c in st.chunks && st.chunks[c].ndirty == 0
    ensures ValidState(UndirtyState(st, c), n)
  {
    hide Tiled, Encodes, HeadersOk, Total, AvailIs, Tally, ActivePages, DirtyPages, SingleFree, Listed, Without, Coalesced;
    var st' := UndirtyState(st, c);
    var k, o := st'.chunks[c], st.layouts[c];
    assert st.layouts[c := o] == st.layouts;
    assert ChunkLaid(st.chunks[c], o, n);
    ReplaceLaid(st, st', n, c, k, o);
    ReplaceCounts(st, st', c, k, o);
    TakenListed(st, st', c, k, o);
  }

  lemma NothingDirty(st: State, n: nat)
    requires ValidState(st, n) && st.chunksDirty == []
    ensures st.ndirty == 0
  {
    hide Laid, Merged, Counted, Avails, SpareFree, OnlySpareFree;
    forall c | c in st.chunks
      ensures st.chunks[c].ndirty == 0
    {
      assert c !in st.chunksDirty;
    }
    TallyZero(DirtyPages(st.chunks));
  }
}
