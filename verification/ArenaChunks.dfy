/** Chunks coming and going: the spare chunk, its replacement, and fresh chunks. */
module ArenaChunks {
  import opened Options
  import opened PageRuns
  import opened Tallies
  import opened ArenaTypes
  import opened RunSplitting
  import opened ArenaStates

  /** arena_chunk_dealloc: the chunk becomes the spare, and an old spare is given back. */
  ghost function DeallocState(st: State, c: ChunkId): State
    requires c in st.layouts && |st.layouts[c]| > 0
    requires st.spare.Some? ==> st.spare.value in st.chunks && st.chunks[st.spare.value].ndirty <= st.ndirty
  {
    var r := st.layouts[c][0];
    var node := Avail(r.len, c, 0);
    var gone := if st.spare.Some? then {st.spare.value} else {};
    var dropped := st.spare.Some? && st.chunks[st.spare.value].dirtied;
    State(
      st.chunks - gone,
      if r.dirty then st.availClean else st.availClean - {node},
      if r.dirty then st.availDirty - {node} else st.availDirty,
      Some(c),
      if dropped then Without(st.chunksDirty, st.spare.value) else st.chunksDirty,
      st.nactive,
      if dropped then st.ndirty - st.chunks[st.spare.value].ndirty else st.ndirty,
      st.layouts - gone)
  }

  function Without(l: seq<ChunkId>, c: ChunkId): (l': seq<ChunkId>)
    ensures forall x :: x in l' <==> x in l && x != c
    ensures |l'| <= |l| && (c in l ==> |l'| < |l|)
  {
    if l == [] then [] else if l[0] == c then Without(l[1..], c) else [l[0]] + Without(l[1..], c)
  }

  lemma {:induction false} WithoutDistinct(l: seq<ChunkId>, c: ChunkId)
    requires Distinct(l)
    ensures Distinct(Without(l, c))
  {
    if l != [] {
      WithoutDistinct(l[1..], c);
      var r := Without(l[1..], c);
      if l[0] != c {
        forall i, j | 0 <= i < j < |[l[0]] + r|
          ensures ([l[0]] + r)[i] != ([l[0]] + r)[j]
        {
          assert ([l[0]] + r)[j] == r[j - 1];
          assert r[j - 1] in l[1..];
        }
      }
    }
  }

  /** A completely free chunk has no active pages, and its other fields follow from its run. */
  lemma SingleFreeTotals(o: Layout)
    requires Tiled(o) && SingleFree(o)
    ensures Total(o, Active) == 0
  {
    forall p | 0 <= p < |o|
      ensures o[p] == o[0]
    {
    }
    CountUniform(o, Active, 0, |o|, false);
  }

  lemma DropActive(layouts: map<ChunkId, Layout>, p: ChunkId)
    requires p in layouts && Total(layouts[p], Active) == 0
    ensures Tally(ActivePages(layouts - {p})) == Tally(ActivePages(layouts))
  {
    hide Total;
    TallyRemove(ActivePages(layouts), p);
    assert ActivePages(layouts) - {p} == ActivePages(layouts - {p});
  }

  lemma DropDirty(chunks: map<ChunkId, Chunk>, p: ChunkId)
    requires p in chunks
    ensures Tally(DirtyPages(chunks - {p})) == Tally(DirtyPages(chunks)) - chunks[p].ndirty
  {
    TallyRemove(DirtyPages(chunks), p);
    assert DirtyPages(chunks) - {p} == DirtyPages(chunks - {p});
  }

  lemma DropSums(st: State, n: nat)
    requires Laid(st, n) && Summed(st) && SpareFree(st) && st.spare.Some?
    ensures var p := st.spare.value;
      && p in st.chunks && st.chunks[p].ndirty <= st.ndirty
      && st.nactive == Tally(ActivePages(st.layouts - {p}))
      && st.ndirty - st.chunks[p].ndirty == Tally(DirtyPages(st.chunks - {p}))
  {
    hide Total, Tally, ActivePages, DirtyPages, Encodes, HeadersOk;
    var p := st.spare.value;
    assert ChunkLaid(st.chunks[p], st.layouts[p], n);
    SingleFreeTotals(st.layouts[p]);
    DropActive(st.layouts, p);
    DropDirty(st.chunks, p);
  }

  lemma DeallocAvail(avail: set<Avail>, st: State, flag: bool, c: ChunkId, n: nat)
    requires AvailIs(avail, st.layouts, st.spare, flag, None) && c in st.layouts && SingleFree(st.layouts[c]) && st.spare != Some(c)
    requires Tiled(st.layouts[c])
    ensures var r := st.layouts[c][0];
      AvailIs(if r.dirty == flag then avail - {Avail(r.len, c, 0)} else avail,
              st.layouts - (if st.spare.Some? then {st.spare.value} else {}), Some(c), flag, None)
  {
    var o := st.layouts[c];
    forall p: nat, len: nat
      ensures FreeRunAt(o, p, len, flag) <==> p == 0 && len == |o| && flag == o[0].dirty
    {
      if p < |o| {
        assert o[p] == o[0];
      }
    }
  }

  lemma DeallocListed(st: State, st': State)
    requires Listed(st)
    requires st'.chunks == st.chunks - (if st.spare.Some? then {st.spare.value} else {})
    requires st.spare.Some? ==> st.spare.value in st.chunks
    requires st'.chunksDirty == if st.spare.Some? && st.chunks[st.spare.value].dirtied then Without(st.chunksDirty, st.spare.value) else st.chunksDirty
    ensures Listed(st')
  {
    if st.spare.Some? {
      WithoutDistinct(st.chunksDirty, st.spare.value);
    }
  }

  ghost predicate DropsOldSpare(st: State, st': State) {
    var gone := if st.spare.Some? then {st.spare.value} else {};
    && st'.chunks == st.chunks - gone && st'.layouts == st.layouts - gone && st'.nactive == st.nactive
    && st'.ndirty == st.ndirty - (if st.spare.Some? && st.spare.value in st.chunks then st.chunks[st.spare.value].ndirty else 0)
  }

  lemma DeallocChunks(st: State, st': State, n: nat)
    requires Laid(st, n) && Merged(st) && Counted(st) && Summed(st) && SpareFree(st) && DropsOldSpare(st, st')
    ensures Laid(st', n) && Merged(st') && Counted(st') && Summed(st')
  {
    hide Total, Tally, ActivePages, DirtyPages, ChunkLaid, Coalesced, SingleFree;
    if st.spare == None {
      assert st'.chunks == st.chunks && st'.layouts == st.layouts;
    } else {
      DropSums(st, n);
    }
  }

  lemma DeallocKeepsCore(st: State, n: nat, c: ChunkId)
    requires Core(st, n) && c in st.chunks && SingleFree(st.layouts[c]) && st.spare != Some(c)
    ensures st.spare.Some? ==> st.spare.value in st.chunks && st.chunks[st.spare.value].ndirty <= st.ndirty
    ensures Core(DeallocState(st, c), n)
  {
    hide Total, Tally, ActivePages, DirtyPages, AvailIs, HeadersOk, Encodes, Coalesced, Without, Distinct, Merged, Counted, Summed, Tiled;
    if st.spare.Some? {
      DropSums(st, n);
    }
    var st' := DeallocState(st, c);
    assert ChunkLaid(st.chunks[c], st.layouts[c], n);
    DeallocAvail(st.availDirty, st, true, c, n);
    DeallocAvail(st.availClean, st, false, c, n);
    DeallocListed(st, st');
    DeallocChunks(st, st', n);
  }

  lemma DeallocReady(st: State, n: nat, c: ChunkId)
    requires Core(st, n) && c in st.chunks && SingleFree(st.layouts[c])
    ensures c in st.layouts && |st.layouts[c]| > 0 && |st.chunks[c].pageMap| > 0
    ensures var e := st.chunks[c].pageMap[0]; e.dirty == st.layouts[c][0].dirty && e.pages == st.layouts[c][0].len
  {
    FreeEntry(st, n, c, 0);
  }

  lemma DeallocOnlySpare(st: State, c: ChunkId)
    requires c in st.layouts && |st.layouts[c]| > 0
    requires st.spare.Some? ==> st.spare.value in st.chunks && st.chunks[st.spare.value].ndirty <= st.ndirty
    requires forall d {:trigger st.layouts[d]} :: d in st.layouts && d != c && SingleFree(st.layouts[d]) ==> st.spare == Some(d)
    ensures OnlySpareFree(DeallocState(st, c))
  {
  }

  /** arena_chunk_alloc with a spare: its run goes back into an avail tree. */
  ghost function UnspareState(st: State): State
    requires st.spare.Some? && st.spare.value in st.layouts && |st.layouts[st.spare.value]| > 0
  {
    var r := st.layouts[st.spare.value][0];
    var node := Avail(r.len, st.spare.value, 0);
    st.(spare := None,
        availClean := if r.dirty then st.availClean else st.availClean + {node},
        availDirty := if r.dirty then st.availDirty + {node} else st.availDirty)
  }

  lemma UnspareAvail(avail: set<Avail>, st: State, flag: bool)
    requires AvailIs(avail, st.layouts, st.spare, flag, None) && SpareFree(st) && st.spare.Some? && Tiled(st.layouts[st.spare.value])
    ensures var c := st.spare.value;
      var r := st.layouts[c][0];
      AvailIs(if r.dirty == flag then avail + {Avail(r.len, c, 0)} else avail, st.layouts, None, flag, None)
  {
    var o := st.layouts[st.spare.value];
    forall p: nat, len: nat
      ensures FreeRunAt(o, p, len, flag) <==> p == 0 && len == |o| && flag == o[0].dirty
    {
      if p < |o| {
        assert o[p] == o[0];
      }
    }
  }

  lemma UnspareKeepsCore(st: State, n: nat)
    requires Core(st, n) && st.spare.Some?
    ensures |st.layouts[st.spare.value]| > 0 && Core(UnspareState(st), n)
  {
    hide AvailIs, Encodes, HeadersOk, Total, Tally, ActivePages, DirtyPages, Coalesced, SingleFree;
    assert ChunkLaid(st.chunks[st.spare.value], st.layouts[st.spare.value], n);
    UnspareAvail(st.availDirty, st, true);
    UnspareAvail(st.availClean, st, false);
    assert Avails(UnspareState(st), None);
  }

  /** arena_chunk_alloc with a chunk from the system: one clean free run. */
  ghost function FreshLayout(n: nat): (o: Layout)
    ensures |o| == n
  {
    seq(n, _ => Run(0, n, Free, false))
  }

  ghost function FreshState(st: State, n: nat, c: ChunkId, m: seq<MapElm>): State {
    st.(chunks := st.chunks[c := Chunk(m, map[], 0, false)],
        layouts := st.layouts[c := FreshLayout(n)],
        availClean := st.availClean + {Avail(n, c, 0)})
  }

  lemma FreshTotals(n: nat)
    ensures Total(FreshLayout(n), Active) == 0 && Total(FreshLayout(n), DirtyFree) == 0
  {
    CountUniform(FreshLayout(n), Active, 0, n, false);
    CountUniform(FreshLayout(n), DirtyFree, 0, n, false);
  }

  lemma AddSums(layouts: map<ChunkId, Layout>, chunks: map<ChunkId, Chunk>, c: ChunkId, o: Layout, k: Chunk)
    requires c !in layouts && c !in chunks && Total(o, Active) == 0 && k.ndirty == 0
    ensures Tally(ActivePages(layouts[c := o])) == Tally(ActivePages(layouts))
    ensures Tally(DirtyPages(chunks[c := k])) == Tally(DirtyPages(chunks))
  {
    hide Total;
    TallyUpdate(ActivePages(layouts), c, 0);
    assert ActivePages(layouts[c := o]) == ActivePages(layouts)[c := 0];
    TallyUpdate(DirtyPages(chunks), c, 0);
    assert DirtyPages(chunks[c := k]) == DirtyPages(chunks)[c := 0];
  }

  lemma FreshAvail(avail: set<Avail>, st: State, flag: bool, c: ChunkId, n: nat)
    requires AvailIs(avail, st.layouts, st.spare, flag, None) && c !in st.layouts && n > 0 && st.spare != Some(c)
    ensures AvailIs(if flag then avail else avail + {Avail(n, c, 0)}, st.layouts[c := FreshLayout(n)], st.spare, flag, None)
  {
    assert forall p: nat, len: nat :: FreeRunAt(FreshLayout(n), p, len, flag) <==> p == 0 && len == n && !flag;
  }

  lemma FreshKeepsCore(st: State, n: nat, c: ChunkId, m: seq<MapElm>)
    requires Core(st, n) && c !in st.chunks && n > 0 && Encodes(m, FreshLayout(n))
    ensures Core(FreshState(st, n, c, m), n)
  {
    hide Total, Tally, ActivePages, DirtyPages, Encodes, AvailIs, SingleFree;
    var o := FreshLayout(n);
    var k := Chunk(m, map[], 0, false);
    FreshTotals(n);
    AddSums(st.layouts, st.chunks, c, o, k);
    FreshAvail(st.availDirty, st, true, c, n);
    FreshAvail(st.availClean, st, false, c, n);
    FreshLaid(st, n, c, m);
    FreshListed(st, n, c, m);
  }

  lemma FreshLaid(st: State, n: nat, c: ChunkId, m: seq<MapElm>)
    requires Laid(st, n) && Merged(st) && c !in st.chunks && n > 0 && Encodes(m, FreshLayout(n))
    ensures Laid(FreshState(st, n, c, m), n) && Merged(FreshState(st, n, c, m))
  {
    var o := FreshLayout(n);
    assert ChunkLaid(Chunk(m, map[], 0, false), o, n) && Coalesced(o);
    hide ChunkLaid, Coalesced;
  }

  lemma FreshListed(st: State, n: nat, c: ChunkId, m: seq<MapElm>)
    requires Listed(st) && c !in st.chunks
    ensures Listed(FreshState(st, n, c, m))
  {
    assert c !in st.chunksDirty;
  }
}
