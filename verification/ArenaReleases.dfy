/** The effect of a release on the arena's state. */
module ArenaReleases {
  import opened Options
  import opened PageRuns
  import opened ArenaTypes
  import opened RunSplitting
  import opened RunReleasing
  import opened ArenaStates

  /** The avail tree of flag d after a release: both neighbours out, the merged run in. */
  function MergeAvail(avail: set<Avail>, c: ChunkId, lo: nat, s: nat, e: nat, hi: nat): set<Avail>
    requires lo <= s <= e <= hi
  {
    avail - (if e < hi then {Avail(hi - e, c, e)} else {}) - (if lo < s then {Avail(s - lo, c, lo)} else {}) + {Avail(hi - lo, c, lo)}
  }

  ghost function FreeState(st: State, c: ChunkId, s: nat, d: bool, m: seq<MapElm>): State
    requires c in st.chunks && c in st.layouts && CanFree(st.layouts[c], s) && st.layouts[c][s].len <= st.nactive
  {
    var o, k := st.layouts[c], st.chunks[c];
    MergeBounds(o, s, d);
    var lo, e, hi := MergeLow(o, s, d), o[s].End(), MergeHigh(o, s, d);
    var extra := if d then o[s].len else 0;
    State(
      st.chunks[c := Chunk(m, k.headers, k.ndirty + extra, k.dirtied || d)],
      if d then st.availClean else MergeAvail(st.availClean, c, lo, s, e, hi),
      if d then MergeAvail(st.availDirty, c, lo, s, e, hi) else st.availDirty,
      st.spare,
      if d && !k.dirtied then st.chunksDirty + [c] else st.chunksDirty,
      st.nactive - o[s].len, st.ndirty + extra,
      st.layouts[c := FreedLayout(o, s, d)])
  }

  lemma FreeAvail(avail: set<Avail>, layouts: map<ChunkId, Layout>, spare: Option<ChunkId>, flag: bool, c: ChunkId, s: nat, d: bool)
    requires AvailIs(avail, layouts, spare, flag, None) && c in layouts && spare != Some(c) && CanFree(layouts[c], s)
    ensures var o := layouts[c];
      && MergeLow(o, s, d) <= s <= o[s].End() <= MergeHigh(o, s, d)
      && AvailIs(if flag != d then avail else MergeAvail(avail, c, MergeLow(o, s, d), s, o[s].End(), MergeHigh(o, s, d)),
                 layouts[c := FreedLayout(o, s, d)], spare, flag, None)
  {
    hide Tiled, CanFree, MergeLow, MergeHigh, FreedLayout, FreeRunAt;
    var o := layouts[c];
    MergeBounds(o, s, d);
    var lo, e, hi := MergeLow(o, s, d), o[s].End(), MergeHigh(o, s, d);
    forall p: nat, len: nat
      ensures FreeRunAt(FreedLayout(o, s, d), p, len, flag) <==>
        (FreeRunAt(o, p, len, flag)
          && !(flag == d && ((lo < s && p == lo && len == s - p) || (e < hi && p == e && len == hi - p))))
        || (flag == d && p == lo && len == hi - lo)
    {
      FreedRuns(o, s, d, p, len, flag);
      if lo <= p < hi {
        SwallowedRuns(o, s, d, p, len, flag);
      }
    }
  }

  lemma FreedHeaders(headers: map<nat, nat>, o: Layout, s: nat, d: bool)
    requires CanFree(o, s) && HeadersOk(headers, o)
    ensures HeadersOk(headers, FreedLayout(o, s, d))
  {
  }

  lemma InUseNotSingle(o: Layout, s: nat)
    requires CanFree(o, s)
    ensures !SingleFree(o)
  {
    assert o[0].start == 0;
  }

  lemma ActiveEnough(st: State, n: nat, c: ChunkId, s: nat)
    requires Core(st, n) && c in st.chunks && CanFree(st.layouts[c], s)
    ensures st.layouts[c][s].len <= st.nactive && st.spare != Some(c)
  {
    hide Tiled, Encodes, HeadersOk, Coalesced, Total, AvailIs, FreedLayout, Listed, Counted, SingleFree;
    InUseNotSingle(st.layouts[c], s);
    FreedLayoutTotals(st.layouts[c], s, false);
    SumsUpdate(st.layouts, st.chunks, c, st.layouts[c], st.chunks[c]);
  }

  lemma FreeListed(st: State, st': State, c: ChunkId, k: Chunk, o: Layout, d: bool)
    requires Replaces(st, st', c, k, o) && Listed(st)
    requires k.dirtied == (st.chunks[c].dirtied || d) && (d || k.ndirty == st.chunks[c].ndirty)
    requires st'.chunksDirty == if d && !st.chunks[c].dirtied then st.chunksDirty + [c] else st.chunksDirty
    ensures Listed(st')
  {
    assert forall x :: x in st.chunksDirty + [c] <==> x in st.chunksDirty || x == c;
    if d && !st.chunks[c].dirtied {
      assert c !in st.chunksDirty;
      forall i, j | 0 <= i < j < |st'.chunksDirty|
        ensures st'.chunksDirty[i] != st'.chunksDirty[j]
      {
        assert st.chunksDirty[i] in st.chunksDirty;
      }
    }
  }

  lemma FreeKeepsCore(st: State, n: nat, c: ChunkId, s: nat, d: bool, m: seq<MapElm>)
    requires Core(st, n) && c in st.chunks && CanFree(st.layouts[c], s) && st.layouts[c][s].len <= st.nactive && st.spare != Some(c)
    requires Encodes(m, FreedLayout(st.layouts[c], s, d))
    ensures Core(FreeState(st, c, s, d, m), n)
  {
    hide Tiled, CanFree, Encodes, HeadersOk, Coalesced, Total, AvailIs, FreedLayout, MergeLow, MergeHigh, MergeAvail;
    var o := st.layouts[c];
    var o' := FreedLayout(o, s, d);
    var st' := FreeState(st, c, s, d, m);
    var k := st'.chunks[c];
    FreedLayoutTiled(o, s, d);
    FreedLayoutTotals(o, s, d);
    FreedLayoutCoalesced(o, s, d);
    FreedHeaders(k.headers, o, s, d);
    ReplaceLaid(st, st', n, c, k, o');
    ReplaceMerged(st, st', c, k, o');
    ReplaceCounts(st, st', c, k, o');
    FreeListed(st, st', c, k, o', d);
    FreeAvail(st.availDirty, st.layouts, st.spare, true, c, s, d);
    FreeAvail(st.availClean, st.layouts, st.spare, false, c, s, d);
  }
}
