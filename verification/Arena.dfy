/**
  The page-run allocator of a jemalloc arena: chunks of pages, split into runs
  on demand, coalesced on release, and purged of dirty pages.  Every method is
  one region of code that holds arena->lock.
 */
module Arenas {
  import opened Options
  import opened PageRuns
  import opened Numbers
  import opened ArenaTypes
  import opened RunSplitting
  import opened RunReleasing
  import opened ArenaStates
  import opened ArenaReleases
  import opened ArenaChunks
  import opened ArenaFrames
  import opened ArenaCuts
  import opened ArenaChoices
  import opened ArenaPurges
  import opened ArenaGrowth

  class Arena {
    const npages: nat
    const mapBias: nat
    const lgDirtyMult: int
    var chunks: map<ChunkId, Chunk>
    var availClean: set<Avail>
    var availDirty: set<Avail>
    var spare: Option<ChunkId>
    var chunksDirty: seq<ChunkId>
    var nactive: nat
    var ndirty: nat
    var npurgatory: nat
    ghost var layouts: map<ChunkId, Layout>

    ghost function St(): State
      reads this
    {
      State(chunks, availClean, availDirty, spare, chunksDirty, nactive, ndirty, layouts)
    }

    /** arena_new, as far as runs are concerned. */
    constructor (npages: nat, mapBias: nat, lgDirtyMult: int)
      ensures ValidState(St(), npages) && nactive == 0 && ndirty == 0 && npurgatory == 0 && layouts == map[]
      ensures this.npages == npages && this.mapBias == mapBias && this.lgDirtyMult == lgDirtyMult
    {
      this.npages, this.mapBias, this.lgDirtyMult := npages, mapBias, lgDirtyMult;
      chunks, layouts := map[], map[];
      availClean, availDirty, spare, chunksDirty := {}, {}, None, [];
      nactive, ndirty, npurgatory := 0, 0, 0;
    }

    /** arena_run_split, with the bin pointer its caller stores in the header of a small run. */
    method RunSplit(c: ChunkId, s: nat, need: nat, large: bool)
      requires Core(St(), npages) && CanSplit(St(), c, s, need) && OnlySpareFreeBut(St(), c)
      modifies this
      ensures ValidState(St(), npages)
      ensures layouts == old(layouts)[c := SplitLayout(old(layouts)[c], s, need, if large then Large else Small)]
      ensures npurgatory == old(npurgatory) && nactive == old(nactive) + need
      ensures KeepsInUse(old(layouts), layouts, 0, 0, 0) && Handed(old(layouts), layouts, c, s, need, if large then Large else Small)
      ensures OnlyTaken(old(layouts), layouts, c, s, s + need)
    {
      hide Core, Tiled, Encodes, SplitLayout, OnlySpareFreeBut, OnlySpareFree, SwapAvail, Handed, KeepsInUse, OnlyTaken;
      ghost var st := St();
      var chunk := chunks[c];
      ghost var kind := if large then Large else Small;
      SplitReady(st, npages, c, s, need);
      ghost var o := layouts[c];
      var flagDirty := chunk.pageMap[s].dirty;
      var total := chunk.pageMap[s].pages;
      var rem := total - need;
      var m := WriteSplit(chunk.pageMap, s, total, need, large, o);
      var headers := if large then chunk.headers else chunk.headers[s := need];
      SplitKeepsCore(st, npages, c, s, need, kind, m, headers);
      SplitOnlySpare(st, c, s, need, kind, m, headers);
      SplitKeepsInUse(layouts, c, s, need, kind);
      SplitHands(layouts, layouts, c, s, need, kind);
      SplitTakes(layouts, layouts, c, s, need, kind);
      if flagDirty {
        availDirty := SwapAvail(availDirty, Avail(total, c, s), Avail(rem, c, s + need));
      } else {
        availClean := SwapAvail(availClean, Avail(total, c, s), Avail(rem, c, s + need));
      }
      nactive := nactive + need;
      if flagDirty {
        chunk := chunk.(ndirty := chunk.ndirty - need);
        ndirty := ndirty - need;
      }
      chunks := chunks[c := chunk.(pageMap := m, headers := headers)];
      layouts := layouts[c := SplitLayout(o, s, need, kind)];
      assert St() == SplitState(st, c, s, need, kind, m, headers);
    }

    /** arena_chunk_dealloc. */
    method ChunkDealloc(c: ChunkId)
      requires Core(St(), npages) && c in chunks && SingleFree(layouts[c]) && spare != Some(c)
      modifies this
      ensures Core(St(), npages)
      ensures old(spare).Some? ==> old(spare).value in old(chunks) && old(chunks[spare.value]).ndirty <= old(ndirty)
      ensures |old(layouts)[c]| > 0 && St() == old(DeallocState(St(), c)) && npurgatory == old(npurgatory)
    {
      hide Core, SingleFree, Without;
      ghost var st := St();
      DeallocKeepsCore(st, npages, c);
      DeallocReady(st, npages, c);
      var first := chunks[c].pageMap[0];
      if first.dirty {
        availDirty := availDirty - {Avail(first.pages, c, 0)};
      } else {
        availClean := availClean - {Avail(first.pages, c, 0)};
      }
      if spare.Some? {
        var old_ := spare.value;
        spare := Some(c);
        if chunks[old_].dirtied {
          chunksDirty := Without(chunksDirty, old_);
          ndirty := ndirty - chunks[old_].ndirty;
        }
        chunks := chunks - {old_};
        layouts := layouts - {old_};
      } else {
        spare := Some(c);
        assert chunks - {} == chunks && layouts - {} == layouts;
      }
      assert St() == DeallocState(st, c);
    }

    /** arena_run_dalloc up to the test for a completely free chunk. */
    method ReleaseRun(c: ChunkId, s: nat, dirty: bool) returns (d: bool)
      requires Core(St(), npages) && c in chunks && CanFree(layouts[c], s)
      modifies this
      ensures d == (dirty || old(layouts)[c][s].dirty)
      ensures old(layouts)[c][s].len <= old(nactive) && old(spare) != Some(c)
      ensures c in chunks && St() == FreeState(old(St()), c, s, d, chunks[c].pageMap) && npurgatory == old(npurgatory)
      ensures Core(St(), npages)
    {
      hide Core, Tiled, Encodes, Laid, CanFree, MergeLow, MergeHigh, FreedLayout, RunPages, MergeAvail, Paint;
      ghost var st := St();
      var chunk := chunks[c];
      ReleaseReady(st, npages, c, s, dirty);
      ghost var o := layouts[c];
      var len := RunPages(chunk, s);
      nactive := nactive - len;
      d := dirty || chunk.pageMap[s].dirty;
      var m, lo, hi := WriteFreed(chunk.pageMap, s, len, d, o);
      if d {
        chunk := chunk.(ndirty := chunk.ndirty + len);
        ndirty := ndirty + len;
      }
      FreeKeepsCore(st, npages, c, s, d, m);
      if d {
        availDirty := MergeAvail(availDirty, c, lo, s, s + len, hi);
        if !chunk.dirtied {
          chunksDirty := chunksDirty + [c];
          chunk := chunk.(dirtied := true);
        }
      } else {
        availClean := MergeAvail(availClean, c, lo, s, s + len, hi);
      }
      chunks := chunks[c := chunk.(pageMap := m)];
      layouts := layouts[c := FreedLayout(o, s, d)];
      assert St() == FreeState(st, c, s, d, m);
    }

    /** arena_run_dalloc up to the final arena_maybe_purge; d is the dirty flag the run ends with. */
    method RunDallocCore(c: ChunkId, s: nat, dirty: bool) returns (d: bool)
      requires ValidState(St(), npages) && c in chunks && CanFree(layouts[c], s)
      modifies this
      ensures ValidState(St(), npages)
      ensures d == (dirty || old(layouts)[c][s].dirty)
      ensures c in layouts && layouts[c] == FreedLayout(old(layouts)[c], s, d)
      ensures ReleasedPages(old(layouts), layouts, c, s, old(layouts)[c][s].End(), d)
      ensures nactive == old(nactive) - old(layouts)[c][s].len && npurgatory == old(npurgatory)
      ensures KeepsInUse(old(layouts), layouts, c, s, old(layouts)[c][s].len)
      ensures ndirty <= old(ndirty) + (if d then old(layouts)[c][s].len else 0)
      ensures c in chunks && c in old(chunks) && chunks[c].ndirty == old(chunks)[c].ndirty + (if d then old(layouts)[c][s].len else 0)
      ensures !d ==> |chunksDirty| <= |old(chunksDirty)|
      ensures SpareMoves(old(St()), St(), c, if d then old(layouts)[c][s].len else 0)
    {
      hide Core, FreedLayout, SpareMoves, KeepsInUse, SingleFree, CanFree, OnlySpareFree, MergeLow, MergeHigh, MergeAvail;
      ghost var st := St();
      PurgeReady(st, npages, c);
      FreeInside(layouts[c], s);
      ghost var len := layouts[c][s].len;
      d := ReleaseRun(c, s, dirty);
      DallocFinish(st, npages, c, s, d, chunks[c].pageMap);
      ghost var st1 := St();
      DallocTest(St(), npages, c);
      var first := chunks[c].pageMap[0];
      if first.pages == npages && !first.inUse {
        ChunkDealloc(c);
      }
      DallocReleases(st, st1, St(), npages, c, s, d);
      DallocListed(st1, npages);
      DallocMoves(st, st1, St(), npages, c, if d then len else 0);
    }

    /** The part of arena_chunk_alloc that brings the spare back. */
    method ReuseSpare() returns (c: ChunkId)
      requires ValidState(St(), npages) && npages > 0 && spare.Some?
      modifies this
      ensures old(spare) == Some(c) && spare.None? && Core(St(), npages) && CanSplit(St(), c, 0, npages) && OnlySpareFreeBut(St(), c)
      ensures chunks == old(chunks) && layouts == old(layouts) && chunksDirty == old(chunksDirty)
      ensures nactive == old(nactive) && npurgatory == old(npurgatory) && ndirty == old(ndirty)
    {
      hide Core, SingleFree, FreshLayout, Encodes, OnlySpareFreeBut, CanSplit;
      ghost var st := St();
      c := spare.value;
      SpareReady(st, npages);
      UnspareKeepsCore(st, npages);
      spare := None;
      var first := chunks[c].pageMap[0];
      if !first.dirty {
        availClean := availClean + {Avail(first.pages, c, 0)};
      } else {
        availDirty := availDirty + {Avail(first.pages, c, 0)};
      }
      assert St() == UnspareState(st);
      UnspareCanSplit(st, npages);
    }

    /** The part of arena_chunk_alloc after the lock is taken again, with the chunk that chunk_alloc returned. */
    method FreshChunk(c: ChunkId, zero: bool)
      requires ValidState(St(), npages) && npages > 0 && c !in chunks
      modifies this
      ensures Core(St(), npages) && CanSplit(St(), c, 0, npages) && OnlySpareFreeBut(St(), c)
      ensures c !in old(layouts) && layouts == old(layouts)[c := FreshLayout(npages)] && KeepsInUse(old(layouts), layouts, 0, 0, 0)
      ensures nactive == old(nactive) && npurgatory == old(npurgatory) && ndirty == old(ndirty) && spare == old(spare)
    {
      hide Core, SingleFree, FreshLayout, Encodes, OnlySpareFreeBut, CanSplit;
      ghost var st := St();
      var m := FreshMap(npages, zero);
      FreshKeepsCore(st, npages, c, m);
      FreshCanSplit(st, npages, c, m);
      chunks := chunks[c := Chunk(m, map[], 0, false)];
      layouts := layouts[c := FreshLayout(npages)];
      availClean := availClean + {Avail(npages, c, 0)};
      assert St() == FreshState(st, npages, c, m);
    }

    /** arena_chunk_alloc, when nothing happens while the lock is dropped; `mapped` is what chunk_alloc returns. */
    method ChunkAlloc(mapped: Option<ChunkId>, zero: bool) returns (r: Option<ChunkId>)
      requires ValidState(St(), npages) && npages > 0
      requires mapped.Some? ==> mapped.value !in chunks
      modifies this
      ensures r.None? <==> old(spare).None? && mapped.None?
      ensures r.None? ==> St() == old(St())
      ensures r.Some? ==> Core(St(), npages) && CanSplit(St(), r.value, 0, npages) && spare.None?
      ensures r.Some? ==> OnlySpareFreeBut(St(), r.value)
      ensures KeepsInUse(old(layouts), layouts, 0, 0, 0)
      ensures nactive == old(nactive) && npurgatory == old(npurgatory) && ndirty == old(ndirty)
      ensures forall d :: d in old(layouts) ==> d in layouts && layouts[d] == old(layouts)[d]
      ensures old(spare).Some? ==> r == old(spare) && chunks == old(chunks) && layouts == old(layouts) && chunksDirty == old(chunksDirty)
    {
      hide ValidState, CanSplit, OnlySpareFreeBut, KeepsInUse, FreshLayout;
      KeepsAll(layouts);
      if spare.Some? {
        var c := ReuseSpare();
        return Some(c);
      }
      if mapped.Some? {
        FreshChunk(mapped.value, zero);
      }
      return mapped;
    }

    /** The two searches of arena_run_alloc: the lowest best fit among the dirty runs, then among the clean ones. */
    method SearchRun(need: nat, large: bool) returns (r: Option<(ChunkId, nat)>)
      requires ValidState(St(), npages) && 1 <= need <= npages
      modifies this
      ensures ValidState(St(), npages) && npurgatory == old(npurgatory)
      ensures KeepsInUse(old(layouts), layouts, 0, 0, 0)
      ensures r.Some? ==> nactive == old(nactive) + need
      ensures r.Some? ==> Handed(old(layouts), layouts, r.value.0, r.value.1, need, if large then Large else Small)
      ensures r.Some? ==> OnlyTaken(old(layouts), layouts, r.value.0, r.value.1, r.value.1 + need)
      ensures r.None? ==> St() == old(St())
      ensures r.None? <==> NoFit(old(availDirty), need) && NoFit(old(availClean), need)
      ensures !NoFit(old(availDirty), need) ==> FromTree(old(availDirty), need, r)
      ensures NoFit(old(availDirty), need) && !NoFit(old(availClean), need) ==> FromTree(old(availClean), need, r)
    {
      hide Core, SplitLayout, CanSplit, OnlySpareFree, OnlySpareFreeBut, KeepsInUse, Handed, NoFit, IsBestFit, OnlyTaken;
      KeepsAll(layouts);
      var b := BestFit(availDirty, need);
      if b.Some? {
        AllocReady(St(), npages, b.value, true, need);
        RunSplit(b.value.chunk, b.value.page, need, large);
        return Some((b.value.chunk, b.value.page));
      }
      b := BestFit(availClean, need);
      if b.Some? {
        AllocReady(St(), npages, b.value, false, need);
        RunSplit(b.value.chunk, b.value.page, need, large);
        return Some((b.value.chunk, b.value.page));
      }
      return None;
    }

    /** The first run of the spare. */
    method SpareRun(need: nat, large: bool) returns (c: ChunkId)
      requires ValidState(St(), npages) && 1 <= need <= npages && spare.Some?
      modifies this
      ensures ValidState(St(), npages) && npurgatory == old(npurgatory) && nactive == old(nactive) + need
      ensures KeepsInUse(old(layouts), layouts, 0, 0, 0) && old(spare) == Some(c)
      ensures Handed(old(layouts), layouts, c, 0, need, if large then Large else Small) && OnlyTaken(old(layouts), layouts, c, 0, need)
    {
      hide ValidState, CanSplit, OnlySpareFreeBut, KeepsInUse, Handed, SplitLayout, OnlyTaken, Core, OnlySpareFree, SingleFree;
      c := ReuseSpare();
      CanSplitLess(St(), c, npages, need);
      RunSplit(c, 0, need, large);
    }

    /** arena_run_alloc up to the point where it drops the lock, if it does: no run fits, and there is no spare. */
    method RunAllocBegin(need: nat, large: bool) returns (r: Option<(ChunkId, nat)>)
      requires ValidState(St(), npages) && 1 <= need <= npages
      modifies this
      ensures ValidState(St(), npages) && npurgatory == old(npurgatory)
      ensures KeepsInUse(old(layouts), layouts, 0, 0, 0)
      ensures r.Some? ==> nactive == old(nactive) + need
      ensures r.Some? ==> Handed(old(layouts), layouts, r.value.0, r.value.1, need, if large then Large else Small)
      ensures r.Some? ==> OnlyTaken(old(layouts), layouts, r.value.0, r.value.1, r.value.1 + need)
      ensures r.None? ==> St() == old(St())
      ensures r.None? <==> NoFit(old(availDirty), need) && NoFit(old(availClean), need) && old(spare).None?
      ensures !NoFit(old(availDirty), need) ==> FromTree(old(availDirty), need, r)
      ensures NoFit(old(availDirty), need) && !NoFit(old(availClean), need) ==> FromTree(old(availClean), need, r)
      ensures NoFit(old(availDirty), need) && NoFit(old(availClean), need) && old(spare).Some? ==> r == Some((old(spare).value, 0))
    {
      hide ValidState, CanSplit, OnlySpareFreeBut, KeepsInUse, Handed, NoFit, IsBestFit, SplitLayout, OnlyTaken, Core, FromTree;
      r := SearchRun(need, large);
      if r.None? && spare.Some? {
        var c := SpareRun(need, large);
        r := Some((c, 0));
      }
    }

    /** The first run of the chunk that chunk_alloc returned. */
    method FreshRun(c: ChunkId, need: nat, large: bool, zero: bool)
      requires ValidState(St(), npages) && 1 <= need <= npages && c !in chunks
      modifies this
      ensures ValidState(St(), npages) && npurgatory == old(npurgatory) && nactive == old(nactive) + need
      ensures KeepsInUse(old(layouts), layouts, 0, 0, 0)
      ensures Handed(old(layouts), layouts, c, 0, need, if large then Large else Small) && OnlyTaken(old(layouts), layouts, c, 0, need)
    {
      hide Core, OnlySpareFree, CanSplit, OnlySpareFreeBut, KeepsInUse, Handed, SplitLayout, FreshLayout, OnlyTaken;
      ghost var l0 := layouts;
      FreshChunk(c, zero);
      ghost var mid := layouts;
      FreshTiled(npages);
      CanSplitLess(St(), c, npages, need);
      RunSplit(c, 0, need, large);
      KeepsInUseTrans(l0, mid, layouts, 0, 0, 0, 0, 0, 0, 0);
      FreshTaken(l0, mid, layouts, npages, c, need, if large then Large else Small);
    }

    /**
      The rest of arena_run_alloc, once the lock is held again: the new chunk is split, or, without one, the searches are
      made once more. While the lock was dropped other threads may have done anything that keeps the invariant.
     */
    method RunAllocEnd(need: nat, large: bool, mapped: Option<ChunkId>, zero: bool) returns (r: Option<(ChunkId, nat)>)
      requires ValidState(St(), npages) && 1 <= need <= npages
      requires mapped.Some? ==> mapped.value !in chunks
      modifies this
      ensures ValidState(St(), npages) && npurgatory == old(npurgatory)
      ensures KeepsInUse(old(layouts), layouts, 0, 0, 0)
      ensures r.Some? ==> nactive == old(nactive) + need
      ensures r.Some? ==> Handed(old(layouts), layouts, r.value.0, r.value.1, need, if large then Large else Small)
      ensures r.Some? ==> OnlyTaken(old(layouts), layouts, r.value.0, r.value.1, r.value.1 + need)
      ensures r.None? ==> St() == old(St())
      ensures r.None? <==> mapped.None? && NoFit(old(availDirty), need) && NoFit(old(availClean), need)
      ensures mapped.Some? ==> r == Some((mapped.value, 0))
    {
      hide ValidState, CanSplit, OnlySpareFreeBut, KeepsInUse, Handed, NoFit, IsBestFit, SplitLayout, FreshLayout, OnlyTaken;
      if mapped.None? {
        r := SearchRun(need, large);
        return;
      }
      FreshRun(mapped.value, need, large, zero);
      return Some((mapped.value, 0));
    }

    /** arena_run_alloc as a whole, when nothing happens while the lock is dropped: dirty runs first, then clean ones, then a chunk. */
    method RunAlloc(need: nat, large: bool, mapped: Option<ChunkId>, zero: bool) returns (r: Option<(ChunkId, nat)>)
      requires ValidState(St(), npages) && 1 <= need <= npages
      requires mapped.Some? ==> mapped.value !in chunks
      modifies this
      ensures ValidState(St(), npages) && npurgatory == old(npurgatory)
      ensures KeepsInUse(old(layouts), layouts, 0, 0, 0)
      ensures r.Some? ==> nactive == old(nactive) + need
      ensures r.Some? ==> Handed(old(layouts), layouts, r.value.0, r.value.1, need, if large then Large else Small)
      ensures r.Some? ==> OnlyTaken(old(layouts), layouts, r.value.0, r.value.1, r.value.1 + need)
      ensures r.None? ==> St() == old(St()) && NoFit(old(availDirty), need) && NoFit(old(availClean), need) && spare.None? && mapped.None?
      ensures r.Some? && !NoFit(old(availDirty), need) ==> FromTree(old(availDirty), need, r)
      ensures r.Some? && NoFit(old(availDirty), need) && !NoFit(old(availClean), need) ==> FromTree(old(availClean), need, r)
      ensures NoFit(old(availDirty), need) && NoFit(old(availClean), need) && old(spare).Some? ==> r == Some((old(spare).value, 0))
      ensures NoFit(old(availDirty), need) && NoFit(old(availClean), need) && old(spare).None? && mapped.Some? ==> r == Some((mapped.value, 0))
    {
      hide ValidState, KeepsInUse, Handed, NoFit, IsBestFit, OnlyTaken, FromTree;
      r := RunAllocBegin(need, large);
      if r.None? {
        r := RunAllocEnd(need, large, mapped, zero);
      }
    }

    /** arena_chunk_purge up to the point where it drops the lock: the dirty runs are held by the purging thread. */
    method PurgeBegin(c: ChunkId, unzeroed: bool) returns (taken: seq<nat>)
      requires ValidState(St(), npages) && c in chunks && chunks[c].ndirty > 0
      modifies this
      ensures ValidState(St(), npages) && npurgatory == old(npurgatory)
      ensures c in old(layouts) && |old(layouts)[c]| == npages && Tiled(old(layouts)[c])
      ensures TakenList(taken, old(layouts)[c], npages) && layouts == old(layouts)[c := TakenLayout(old(layouts)[c], npages)]
      ensures nactive == old(nactive) + PagesOf(old(layouts)[c], taken)
      ensures old(chunks[c].ndirty) <= old(ndirty) && ndirty == old(ndirty) - old(chunks[c].ndirty)
      ensures c in chunks && chunks[c].ndirty == 0
      ensures |chunksDirty| < |old(chunksDirty)|
      ensures spare == (if old(spare) == Some(c) then None else old(spare)) && SpareDirty(St()) <= SpareDirty(old(St()))
    {
      hide Core, SingleFree, Tiled, Encodes, OnlySpareFreeBut, OnlySpareFree, TakenLayout, TakenList, PagesOf, KeepsInUse, Without, WithoutChunk, Total;
      ghost var st := St();
      PurgeReady(st, npages, c);
      if Some(c) == spare {
        var r := ChunkAlloc(None, false);
      }
      ghost var st1 := St();
      var chunk := chunks[c];
      ghost var o := layouts[c];
      var m, pages;
      m, taken, pages := TakeDirtyRuns(chunk, npages, unzeroed, o);
      TakenKeepsValid(st1, npages, c, m);
      availDirty := WithoutChunk(availDirty, c);
      nactive := nactive + pages;
      ndirty := ndirty - chunk.ndirty;
      chunksDirty := Without(chunksDirty, c);
      chunks := chunks[c := chunk.(pageMap := m, ndirty := 0, dirtied := false)];
      layouts := layouts[c := TakenLayout(o, npages)];
      assert St() == TakenState(st1, npages, c, m);
    }

    /**
      The rest of arena_chunk_purge: the held runs are released, now clean.
      While the lock was dropped, other threads may have done anything that
      keeps the invariant and the runs that the purge holds; o is the layout
      of the chunk when the runs were taken.
     */
    method PurgeEnd(c: ChunkId, taken: seq<nat>, ghost o: Layout)
      requires ValidState(St(), npages) && c in chunks
      requires |o| == npages && Tiled(o) && TakenList(taken, o, npages) && StillTaken(layouts, c, o, taken)
      modifies this
      ensures ValidState(St(), npages) && npurgatory == old(npurgatory)
      ensures KeepsOthers(old(layouts), layouts, c, o)
      ensures nactive + PagesOf(o, taken) == old(nactive)
      ensures ndirty <= old(ndirty) && |chunksDirty| <= |old(chunksDirty)|
      ensures c in chunks && chunks[c].ndirty == old(chunks[c].ndirty)
      ensures SpareMoves(old(St()), St(), c, 0)
    {
      hide SpareMoves, Core, SingleFree, Tiled, Encodes, OnlySpareFreeBut, OnlySpareFree, TakenLayout, TakenList, PagesOf, KeepsInUse, KeepsOthers, FreedLayout, StillTaken, CanFree;
      ghost var l0, st0 := layouts, St();
      assert taken[..0] == [] && taken[0..] == taken;
      SpareStays(st0, c);
      NoPages(o);
      KeepsSelf(l0, c, o);
      for i := 0 to |taken|
        invariant ValidState(St(), npages) && npurgatory == old(npurgatory)
        invariant c in chunks && chunks[c].ndirty == old(chunks[c].ndirty)
        invariant KeepsOthers(l0, layouts, c, o) && StillTaken(layouts, c, o, taken[i..])
        invariant nactive + PagesOf(o, taken[..i]) == old(nactive)
        invariant ndirty <= old(ndirty) && |chunksDirty| <= |old(chunksDirty)|
        invariant SpareMoves(st0, St(), c, 0)
      {
        ghost var l1, st1 := layouts, St();
        TakenNext(St(), npages, c, o, taken, i);
        HeldNotFree(l1, c, o, taken[i..]);
        var d := RunDallocCore(c, taken[i], false);
        ReleaseTakenAt(l0, l1, layouts, npages, c, o, taken, i);
        MovesAfter(st0, st1, St(), c);
      }
      assert taken[..|taken|] == taken;
    }

    /** arena_chunk_purge, with no other thread running while the lock is dropped. */
    method ChunkPurge(c: ChunkId, unzeroed: bool)
      requires ValidState(St(), npages) && c in chunks && chunks[c].ndirty > 0
      modifies this
      ensures ValidState(St(), npages) && npurgatory == old(npurgatory) && nactive == old(nactive)
      ensures KeepsInUse(old(layouts), layouts, 0, 0, 0)
      ensures old(chunks[c].ndirty) <= old(ndirty) && ndirty <= old(ndirty) - old(chunks[c].ndirty)
      ensures c in chunks && chunks[c].ndirty == 0
      ensures |chunksDirty| < |old(chunksDirty)|
      ensures (SpareDirty(St()) <= SpareDirty(old(St())) && ndirty == old(ndirty) - old(chunks[c].ndirty))
        || (SpareDirty(St()) == 0 && ndirty + SpareDirty(old(St())) >= old(ndirty) - old(chunks[c].ndirty))
    {
      hide SingleFree, ValidState, TakenLayout, TakenList, KeepsInUse, KeepsOthers, StillTaken, Tiled, PagesOf;
      ghost var l0 := layouts;
      var taken := PurgeBegin(c, unzeroed);
      TakenStillTaken(l0, c, npages, taken);
      PurgeEnd(c, taken, l0[c]);
      PurgeKeeps(l0, layouts, c, npages);
    }

    /** The number of dirty pages arena_purge leaves behind: opt_lg_dirty_mult sets the active:dirty ratio. */
    function PurgeTarget(all: bool): nat
      reads this
    {
      npurgatory + if all then 0 else Share(nactive, lgDirtyMult)
    }

    /** The inner loop of arena_purge: chunks whose dirty pages are gone leave the list. */
    method NextDirty() returns (r: Option<ChunkId>)
      requires ValidState(St(), npages)
      modifies this
      ensures ValidState(St(), npages) && npurgatory == old(npurgatory) && nactive == old(nactive) && ndirty == old(ndirty)
      ensures SpareDirty(St()) == SpareDirty(old(St()))
      ensures layouts == old(layouts) && |chunksDirty| <= |old(chunksDirty)|
      ensures r.None? ==> ndirty == 0
      ensures r.Some? ==> r.value in chunks && chunks[r.value].ndirty > 0
    {
      hide ValidState, Without;
      while chunksDirty != []
        invariant ValidState(St(), npages) && npurgatory == old(npurgatory) && nactive == old(nactive) && ndirty == old(ndirty)
        invariant SpareDirty(St()) == SpareDirty(old(St()))
        invariant layouts == old(layouts) && |chunksDirty| <= |old(chunksDirty)|
        decreases |chunksDirty|
      {
        var c := chunksDirty[0];
        DirtyListed(St(), npages, c);
        if chunks[c].ndirty != 0 {
          return Some(c);
        }
        UndirtyKeepsValid(St(), npages, c);
        ghost var st := St();
        chunksDirty := Without(chunksDirty, c);
        chunks := chunks[c := chunks[c].(dirtied := false)];
        assert St() == UndirtyState(st, c);
      }
      NothingDirty(St(), npages);
      return None;
    }

    /** arena_purge: down to the target, and not more than two chunks beyond it. */
    method Purge(all: bool, unzeroed: bool)
      requires ValidState(St(), npages) && npurgatory <= ndirty && (all || PurgeTarget(false) <= ndirty)
      modifies this
      ensures ValidState(St(), npages) && npurgatory == old(npurgatory) && nactive == old(nactive)
      ensures KeepsInUse(old(layouts), layouts, 0, 0, 0)
      ensures ndirty <= PurgeTarget(all) <= ndirty + 2 * npages
    {
      hide ValidState, KeepsInUse, SpareDirty;
      ghost var l0, target, before := layouts, PurgeTarget(all), npurgatory;
      KeepsAll(l0);
      var remaining := ndirty - npurgatory;
      if !all {
        remaining := remaining - Share(nactive, lgDirtyMult);
      }
      npurgatory := npurgatory + remaining;
      while remaining > 0
        invariant ValidState(St(), npages) && nactive == old(nactive)
        invariant remaining >= 0 && npurgatory == before + remaining && ndirty <= target + remaining
        invariant remaining > 0 ==> ndirty == target + remaining || (ndirty + npages >= target + remaining && SpareDirty(St()) == 0)
        invariant target <= ndirty + 2 * npages
        invariant KeepsInUse(l0, layouts, 0, 0, 0)
        decreases |chunksDirty|, remaining
      {
        SpareDirtyBound(St(), npages, 0);
        var c := NextDirty();
        if c.None? {
          npurgatory := npurgatory - remaining;
          return;
        }
        var k := chunks[c.value].ndirty;
        SpareDirtyBound(St(), npages, c.value);
        if k > remaining {
          npurgatory := npurgatory + (k - remaining);
          remaining := k;
        }
        npurgatory := npurgatory - k;
        remaining := remaining - k;
        ghost var l1 := layouts;
        ChunkPurge(c.value, unzeroed);
        KeepsInUseTrans(l0, l1, layouts, 0, 0, 0, 0, 0, 0, 0);
      }
    }

    /** The active:dirty ratio of opt_lg_dirty_mult holds, or the dirty pages fit in a chunk. */
    ghost predicate DirtyBounded()
      reads this
    {
      lgDirtyMult >= 0 ==>
        ndirty <= npurgatory || ndirty - npurgatory <= npages + mapBias || ndirty - npurgatory <= Share(nactive, lgDirtyMult)
    }

    /** More than a chunk's worth of pages, and more than the ratio allows, are dirty and not about to be purged. */
    ghost predicate Due(st: State)
      reads this
    {
      lgDirtyMult >= 0 && st.ndirty - npurgatory > npages + mapBias && st.ndirty - npurgatory > Share(st.nactive, lgDirtyMult)
    }

    /** What arena_maybe_purge leaves of a state: it purges down to the ratio when that is due, and else does nothing. */
    ghost predicate Settled(before: State)
      reads this
    {
      if Due(before) then ndirty <= npurgatory + Share(before.nactive, lgDirtyMult) <= ndirty + 2 * npages else St() == before
    }

    /** arena_maybe_purge. */
    method MaybePurge(unzeroed: bool)
      requires ValidState(St(), npages)
      modifies this
      ensures ValidState(St(), npages) && npurgatory == old(npurgatory) && nactive == old(nactive)
      ensures KeepsInUse(old(layouts), layouts, 0, 0, 0)
      ensures DirtyBounded() && Settled(old(St()))
    {
      hide ValidState, KeepsInUse;
      KeepsAll(layouts);
      if lgDirtyMult >= 0 && ndirty > npurgatory && ndirty - npurgatory > npages + mapBias
         && Share(nactive, lgDirtyMult) < ndirty - npurgatory {
        Purge(false, unzeroed);
      }
    }

    /** arena_run_dalloc; mid is the state between the release and the purge. */
    method RunDalloc(c: ChunkId, s: nat, dirty: bool, unzeroed: bool) returns (ghost mid: State)
      requires ValidState(St(), npages) && c in chunks && CanFree(layouts[c], s)
      modifies this
      ensures ValidState(St(), npages) && npurgatory == old(npurgatory)
      ensures nactive == old(nactive) - old(layouts)[c][s].len
      ensures KeepsInUse(old(layouts), layouts, c, s, old(layouts)[c][s].len)
      ensures Freed(old(St()), mid, npages, c, s, old(layouts)[c][s].End(), dirty || old(layouts)[c][s].dirty)
      ensures mid.nactive == nactive && c in mid.layouts && mid.layouts[c] == FreedLayout(old(layouts)[c], s, dirty || old(layouts)[c][s].dirty)
      ensures if dirty || old(layouts)[c][s].dirty then DirtyBounded() && Settled(mid) else St() == mid
    {
      hide ValidState, KeepsInUse, FreedLayout, ReleasedPages, FreedPages;
      ghost var l0 := layouts;
      PurgeReady(St(), npages, c);
      ghost var len := layouts[c][s].len;
      var d := RunDallocCore(c, s, dirty);
      mid := St();
      if d {
        ghost var l1 := layouts;
        MaybePurge(unzeroed);
        KeepsInUseWider(l1, layouts, c, s, len);
        KeepsInUseTrans(l0, l1, layouts, c, s, len, s, len, s, len);
      }
    }

    /** arena_run_trim_head: the first `total - keep` pages of the run are released; mid is the state before the purge. */
    method TrimHead(c: ChunkId, s: nat, total: nat, keep: nat, unzeroed: bool) returns (ghost mid: State)
      requires ValidState(St(), npages) && c in chunks && 1 <= keep < total
      requires s < |layouts[c]| && total == layouts[c][s].len && CanCut(layouts[c], s, total - keep)
      modifies this
      ensures ValidState(St(), npages) && npurgatory == old(npurgatory)
      ensures nactive == old(nactive) - (total - keep)
      ensures KeepsInUse(old(layouts), layouts, c, s, total)
      ensures c in layouts && s + total - keep < |layouts[c]|
      ensures layouts[c][s + total - keep] == Run(s + total - keep, keep, Large, old(layouts)[c][s].dirty)
      ensures Freed(old(St()), mid, npages, c, s, s + total - keep, old(layouts)[c][s].dirty)
      ensures if old(layouts)[c][s].dirty then Settled(mid) else St() == mid
    {
      hide ValidState, KeepsInUse, Encodes, Tiled, CutLayout, HeadersOk, Freed, FreedPages, SingleFree, FreedLayout;
      ghost var st := St();
      var head := total - keep;
      CutReady(st, npages, c, s, head);
      ghost var o := layouts[c];
      CutLayoutOk(o, s, head);
      CutHeaders(o, s, head, chunks[c].headers);
      var m := WriteCutHead(chunks[c].pageMap, s, total, head, o);
      RelabelKeepsValid(st, npages, c, m, CutLayout(o, s, head));
      chunks := chunks[c := chunks[c].(pageMap := m)];
      layouts := layouts[c := CutLayout(o, s, head)];
      assert St() == RelabelState(st, c, m, CutLayout(o, s, head));
      ghost var l1, st1 := layouts, St();
      mid := RunDalloc(c, s, false, unzeroed);
      CutPages(o, s, head);
      FreedAfter(st, st1, mid, npages, c, s, s + head, o[s].dirty);
      CutKept(st.layouts, l1, layouts, c, s, head, s, s + head, head);
    }

    /** arena_run_trim_tail: the pages of the run past `keep` are released; mid is the state before the purge. */
    method TrimTail(c: ChunkId, s: nat, total: nat, keep: nat, dirty: bool, unzeroed: bool) returns (ghost mid: State)
      requires ValidState(St(), npages) && c in chunks && 1 <= keep < total
      requires s < |layouts[c]| && total == layouts[c][s].len && CanCut(layouts[c], s, keep)
      modifies this
      ensures ValidState(St(), npages) && npurgatory == old(npurgatory)
      ensures nactive == old(nactive) - (total - keep)
      ensures KeepsInUse(old(layouts), layouts, c, s, total)
      ensures c in layouts && s < |layouts[c]| && layouts[c][s] == Run(s, keep, Large, old(layouts)[c][s].dirty)
      ensures Freed(old(St()), mid, npages, c, s + keep, s + total, dirty || old(layouts)[c][s].dirty)
      ensures if dirty || old(layouts)[c][s].dirty then Settled(mid) else St() == mid
    {
      hide ValidState, KeepsInUse, Encodes, Tiled, CutLayout, HeadersOk, Freed, FreedPages, SingleFree, FreedLayout;
      ghost var st := St();
      CutReady(st, npages, c, s, keep);
      ghost var o := layouts[c];
      CutLayoutOk(o, s, keep);
      CutHeaders(o, s, keep, chunks[c].headers);
      var m := WriteCutTail(chunks[c].pageMap, s, total, keep, o);
      RelabelKeepsValid(st, npages, c, m, CutLayout(o, s, keep));
      chunks := chunks[c := chunks[c].(pageMap := m)];
      layouts := layouts[c := CutLayout(o, s, keep)];
      assert St() == RelabelState(st, c, m, CutLayout(o, s, keep));
      ghost var l1, st1 := layouts, St();
      mid := RunDalloc(c, s + keep, dirty, unzeroed);
      CutPages(o, s, keep);
      FreedAfter(st, st1, mid, npages, c, s + keep, s + total, dirty || o[s].dirty);
      CutKept(st.layouts, l1, layouts, c, s, keep, s + keep, s, total - keep);
    }

    /** The run at s and the large run after it become one large run of len pages. */
    method JoinRun(c: ChunkId, s: nat, len: nat)
      requires ValidState(St(), npages) && c in layouts && CanJoin(layouts[c], s) && len == JoinedRun(layouts[c], s).len
      modifies this
      ensures ValidState(St(), npages) && npurgatory == old(npurgatory) && nactive == old(nactive)
      ensures layouts == old(layouts)[c := JoinLayout(old(layouts)[c], s)]
    {
      hide ValidState, Encodes, JoinLayout, HeadersOk, Tiled, CanJoin;
      ghost var st := St();
      ghost var o := layouts[c];
      JoinReady(st, npages, c, s);
      JoinLayoutOk(o, s, chunks[c].headers);
      var m := WriteJoin(chunks[c].pageMap, s, len, o);
      RelabelKeepsValid(st, npages, c, m, JoinLayout(o, s));
      chunks := chunks[c := chunks[c].(pageMap := m)];
      layouts := layouts[c := JoinLayout(o, s)];
      assert St() == RelabelState(st, c, m, JoinLayout(o, s));
    }

    /** Whether arena_ralloc_large_grow finds enough free pages after the run; `size` below the old size wraps around and fails. */
    predicate CanGrow(c: ChunkId, s: nat, oldsize: nat, size: nat)
      requires c in chunks
      reads this
    {
      var m := chunks[c].pageMap;
      s + oldsize < npages && s + oldsize < |m| && !m[s + oldsize].inUse && size >= oldsize && m[s + oldsize].pages >= size - oldsize
    }

    /** Takes the first pages of the free run after the run at s into it. */
    method GrowInto(c: ChunkId, s: nat, take: nat, ghost most: nat)
      requires ValidState(St(), npages) && c in chunks && CanFree(layouts[c], s) && layouts[c][s].kind == Large
      requires var o := layouts[c]; var e := o[s].End(); e < |o| && o[e].kind == Free && o[e].start == e && 1 <= take <= o[e].len && o[s].len + take == Least(most, o[s].len + o[e].len)
      modifies this
      ensures ValidState(St(), npages) && npurgatory == old(npurgatory) && nactive == old(nactive) + take
      ensures KeepsInUse(old(layouts), layouts, c, s, old(layouts)[c][s].len)
      ensures Grown(old(layouts), layouts, c, s, most)
    {
      hide ValidState, KeepsInUse, Encodes, SplitLayout, JoinLayout, HeadersOk, OnlySpareFreeBut, Tiled, JoinedRun, CanJoin, Handed, Grown, Least, CanFree, CanSplit, Core;
      ghost var st := St();
      GrowReady(st, npages, c, s);
      var e := s + chunks[c].pageMap[s].pages;
      GrowSplitReady(st, npages, c, e, take);
      RunSplit(c, e, take, true);
      GrowSplit(st.layouts, c, s, take);
      JoinRun(c, s, e - s + take);
      GrowKept(st.layouts, layouts, c, s, take);
      GrowResult(st.layouts, layouts, c, s, take, most);
    }

    /** arena_ralloc_large_grow, in pages. */
    method RallocLargeGrow(c: ChunkId, s: nat, oldsize: nat, size: nat, extra: nat) returns (failed: bool)
      requires ValidState(St(), npages) && c in chunks && CanFree(layouts[c], s)
      requires layouts[c][s].kind == Large && oldsize == layouts[c][s].len && oldsize < size + extra
      modifies this
      ensures ValidState(St(), npages) && npurgatory == old(npurgatory)
      ensures failed <==> !Growable(old(layouts), c, s, size)
      ensures failed ==> St() == old(St())
      ensures KeepsInUse(old(layouts), layouts, c, s, oldsize)
      ensures !failed ==> Grown(old(layouts), layouts, c, s, size + extra) && nactive == old(nactive) + (layouts[c][s].len - oldsize)
    {
      hide ValidState, KeepsInUse, Encodes, Tiled, Growable;
      GrowReady(St(), npages, c, s);
      GrowTest(St(), npages, c, s, size);
      failed := !CanGrow(c, s, oldsize, size);
      if !failed {
        var follow := chunks[c].pageMap[s + oldsize].pages;
        var take := if oldsize + follow <= size + extra then follow else size + extra - oldsize;
        GrowInto(c, s, take, size + extra);
      } else {
        KeepsAll(layouts);
        KeepsInUseWider(layouts, layouts, c, s, oldsize);
      }
    }

    /**
      arena_dalloc_bin_run: `touched` pages of the run were ever used (the source's past - run_ind); if the run was clean,
      only these pages are released as dirty ones. mid is the state before the last purge.
     */
    method DallocBinRun(c: ChunkId, s: nat, touched: nat, unzeroed: bool) returns (ghost mid: State)
      requires ValidState(St(), npages) && c in chunks && CanFree(layouts[c], s) && layouts[c][s].kind == Small
      requires 1 <= touched
      modifies this
      ensures ValidState(St(), npages) && npurgatory == old(npurgatory)
      ensures nactive == old(nactive) - old(layouts)[c][s].len
      ensures KeepsInUse(old(layouts), layouts, c, s, old(layouts)[c][s].len)
      ensures var r := old(layouts)[c][s]; FreedInTwo(old(St()), mid, npages, c, s, if !r.dirty && touched < r.len then s + touched else r.End(), r.End())
      ensures DirtyBounded() && Settled(mid)
    {
      hide ValidState, KeepsInUse, Encodes, LargeLayout, HeadersOk, RunPages, Freed, FreedInTwo, FreedLayout, SingleFree, Due, DirtyBounded;
      ghost var st := St();
      BinRunReady(st, npages, c, s);
      ghost var o := layouts[c];
      var n := RunPages(chunks[c], s);
      ghost var st1, trims := st, false;
      if !chunks[c].pageMap[s].dirty && touched < n {
        LargeLayoutOk(o, s, chunks[c].headers);
        var m := WriteLarge(chunks[c].pageMap, s, n, o);
        RelabelKeepsValid(st, npages, c, m, LargeLayout(o, s));
        RelabelKeepsInUse(layouts, c, s);
        chunks := chunks[c := chunks[c].(pageMap := m)];
        layouts := layouts[c := LargeLayout(o, s)];
        assert St() == RelabelState(st, c, m, LargeLayout(o, s));
        ghost var l1 := layouts;
        st1, trims := St(), true;
        ghost var trimmed := TrimTail(c, s, n, touched, false, unzeroed);
        KeepsInUseTrans(st.layouts, l1, layouts, c, s, n, s, n, s, n);
        StillLaid(St(), npages, c, s);
      } else {
        KeepsAll(layouts);
        KeepsInUseWider(layouts, layouts, c, s, n);
      }
      ghost var l2: map<ChunkId, Layout>, st2 := layouts, St();
      mid := RunDalloc(c, s, true, unzeroed);
      if trims {
        TwoFreed(st1, st2, mid, npages, c, s, s + touched, s + n);
        LargePages(o, s);
        InTwoAfter(st, st1, mid, npages, c, s, s + touched, s + n);
      } else {
        OneFreed(st, mid, npages, c, s, s + n);
      }
      KeepsInUseTrans(st.layouts, l2, layouts, c, s, n, s, n, s, l2[c][s].len);
    }

    /** The address of a page, counted in pages; chunk names are base addresses. */
    function Address(c: ChunkId, s: nat): nat
      reads this
    {
      c + mapBias + s
    }

    /** The trims of arena_palloc: of a run just handed out, the last or the first pages are given back. */
    method KeepFirst(c: ChunkId, s: nat, total: nat, keep: nat, unzeroed: bool, ghost l0: map<ChunkId, Layout>)
      requires ValidState(St(), npages) && 1 <= keep < total && Given(l0, layouts, c, s, total)
      modifies this
      ensures ValidState(St(), npages) && npurgatory == old(npurgatory)
      ensures nactive == old(nactive) - (total - keep) && Given(l0, layouts, c, s, keep)
    {
      hide ValidState, KeepsInUse, OnlyTaken, Freed, Settled, Handed, Tiled;
      HandedAt(l0, layouts, c, s, total, Large);
      ghost var l1, st1 := layouts, St();
      PallocCut(St(), npages, c, s, keep);
      ghost var mid := TrimTail(c, s, total, keep, false, unzeroed);
      PallocKept(l0, l1, layouts, c, s, total, s, keep);
      if !layouts[c][s].dirty {
        CleanTrim(l0, st1, St(), npages, c, s, s + total, s + keep, s + total, s, s + keep);
      }
    }

    method KeepLast(c: ChunkId, s: nat, total: nat, keep: nat, unzeroed: bool, ghost l0: map<ChunkId, Layout>)
      requires ValidState(St(), npages) && 1 <= keep < total && Given(l0, layouts, c, s, total)
      modifies this
      ensures ValidState(St(), npages) && npurgatory == old(npurgatory)
      ensures nactive == old(nactive) - (total - keep) && Given(l0, layouts, c, s + total - keep, keep)
    {
      hide ValidState, KeepsInUse, OnlyTaken, Freed, Settled, Handed, Tiled;
      HandedAt(l0, layouts, c, s, total, Large);
      ghost var l1, st1, lead := layouts, St(), total - keep;
      PallocCut(St(), npages, c, s, lead);
      ghost var mid := TrimHead(c, s, total, keep, unzeroed);
      PallocKept(l0, l1, layouts, c, s, total, s + lead, keep);
      if !layouts[c][s + lead].dirty {
        CleanTrim(l0, st1, St(), npages, c, s, s + total, s, s + lead, s + lead, s + total);
      }
    }

    /** arena_palloc, in pages: an oversized run is trimmed to an aligned one. */
    method Palloc(size: nat, allocSize: nat, alignment: nat, mapped: Option<ChunkId>, zero: bool, unzeroed: bool) returns (r: Option<(ChunkId, nat)>)
      requires ValidState(St(), npages)
      requires mapped.Some? ==> mapped.value !in chunks
      requires 1 <= size && 2 <= alignment && size + alignment - 1 <= allocSize <= npages
      modifies this
      ensures ValidState(St(), npages) && npurgatory == old(npurgatory)
      ensures r.None? ==> KeepsInUse(old(layouts), layouts, 0, 0, 0) && St() == old(St())
      ensures r.Some? ==>
        && Address(r.value.0, r.value.1) % alignment == 0
        && Given(old(layouts), layouts, r.value.0, r.value.1, size)
        && nactive == old(nactive) + size
    {
      hide ValidState, KeepsInUse, Tiled, NoFit, FromTree, OnlyTaken, Handed, Given;
      ghost var l0 := layouts;
      r := RunAlloc(allocSize, true, mapped, zero);
      if r.None? {
        return;
      }
      var (c, s) := r.value;
      var offset := Address(c, s) % alignment;
      JustGiven(l0, layouts, c, s, allocSize);
      if offset == 0 {
        KeepFirst(c, s, allocSize, size, unzeroed, l0);
      } else {
        var lead := alignment - offset;
        KeepLast(c, s, allocSize, allocSize - lead, unzeroed, l0);
        AlignUp(Address(c, s), alignment);
        r := Some((c, s + lead));
        if allocSize - lead != size {
          KeepFirst(c, s + lead, allocSize - lead, size, unzeroed, l0);
        }
      }
    }
  }
}
