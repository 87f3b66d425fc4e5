/** The arena's state, its invariants, and the effect of a split on them. */
module ArenaStates {
  import opened Options
  import opened PageRuns
  import opened Tallies
  import opened ArenaTypes
  import opened RunSplitting

  /** The fields of an arena, with the layout of every chunk. */
  datatype State = State(
    chunks: map<ChunkId, Chunk>,
    availClean: set<Avail>,
    availDirty: set<Avail>,
    spare: Option<ChunkId>,
    chunksDirty: seq<ChunkId>,
    nactive: nat,
    ndirty: nat,
    layouts: map<ChunkId, Layout>)

  ghost predicate Laid(st: State, n: nat) {
    && st.chunks.Keys == st.layouts.Keys
    && forall c {:trigger st.chunks[c]} {:trigger st.layouts[c]} :: c in st.chunks ==> ChunkLaid(st.chunks[c], st.layouts[c], n)
  }

  ghost predicate Merged(st: State) {
    forall c {:trigger st.layouts[c]} :: c in st.layouts ==> Coalesced(st.layouts[c])
  }

  ghost predicate Summed(st: State) {
    st.nactive == Tally(ActivePages(st.layouts)) && st.ndirty == Tally(DirtyPages(st.chunks))
  }

  ghost predicate Counted(st: State) {
    forall c {:trigger st.chunks[c]} :: c in st.chunks && c in st.layouts ==> st.chunks[c].ndirty == Total(st.layouts[c], DirtyFree)
  }

  ghost predicate Listed(st: State) {
    && Distinct(st.chunksDirty)
    && (forall c {:trigger c in st.chunksDirty} :: c in st.chunksDirty <==> c in st.chunks && st.chunks[c].dirtied)
    && (forall c {:trigger st.chunks[c]} :: c in st.chunks && st.chunks[c].ndirty > 0 ==> st.chunks[c].dirtied)
  }

  ghost predicate Avails(st: State, hole: Option<(ChunkId, nat)>) {
    && AvailIs(st.availDirty, st.layouts, st.spare, true, hole)
    && AvailIs(st.availClean, st.layouts, st.spare, false, hole)
  }

  ghost predicate SpareFree(st: State) {
    st.spare.Some? ==> st.spare.value in st.layouts && SingleFree(st.layouts[st.spare.value])
  }

  /** Everything but the rule that a completely free chunk is the spare. */
  ghost predicate Core(st: State, n: nat) {
    Laid(st, n) && Merged(st) && Summed(st) && Counted(st) && Listed(st) && Avails(st, None) && SpareFree(st)
  }

  ghost predicate OnlySpareFree(st: State) {
    forall c {:trigger st.layouts[c]} :: c in st.layouts && SingleFree(st.layouts[c]) ==> st.spare == Some(c)
  }

  ghost predicate ValidState(st: State, n: nat) {
    Core(st, n) && OnlySpareFree(st)
  }

  /** Page s of chunk c starts a free run of at least `need` pages, outside the spare. */
  ghost predicate CanSplit(st: State, c: ChunkId, s: nat, need: nat) {
    c in st.chunks && c in st.layouts && st.spare != Some(c)
    && var o := st.layouts[c]; s < |o| && Tiled(o) && o[s].start == s && o[s].kind == Free && 1 <= need <= o[s].len
  }

  ghost function SplitState(st: State, c: ChunkId, s: nat, need: nat, kind: Kind, m: seq<MapElm>, headers: map<nat, nat>): State
    requires CanSplit(st, c, s, need) && st.chunks[c].ndirty >= (if st.layouts[c][s].dirty then need else 0) && st.ndirty >= (if st.layouts[c][s].dirty then need else 0)
  {
    var o := st.layouts[c];
    var r := o[s];
    var k := st.chunks[c];
    var d := if r.dirty then need else 0;
    var gone, rest := Avail(r.len, c, s), Avail(r.len - need, c, s + need);
    State(
      st.chunks[c := Chunk(m, headers, k.ndirty - d, k.dirtied)],
      if r.dirty then st.availClean else SwapAvail(st.availClean, gone, rest),
      if r.dirty then SwapAvail(st.availDirty, gone, rest) else st.availDirty,
      st.spare, st.chunksDirty, st.nactive + need, st.ndirty - d,
      st.layouts[c := SplitLayout(o, s, need, kind)])
  }

  lemma SplitEnoughDirty(st: State, n: nat, c: ChunkId, s: nat, need: nat)
    requires Core(st, n) && CanSplit(st, c, s, need)
    ensures st.layouts[c][s].dirty ==> need <= st.chunks[c].ndirty <= st.ndirty
  {
    SplitLayoutTotals(st.layouts[c], s, need, Large);
    SumsUpdate(st.layouts, st.chunks, c, st.layouts[c], st.chunks[c]);
  }

  /** The new state has chunk c and its layout replaced by k and o. */
  ghost predicate Replaces(st: State, st': State, c: ChunkId, k: Chunk, o: Layout) {
    && c in st.chunks && c in st.layouts
    && st'.chunks == st.chunks[c := k] && st'.layouts == st.layouts[c := o]
  }

  lemma ReplaceLaid(st: State, st': State, n: nat, c: ChunkId, k: Chunk, o: Layout)
    requires Replaces(st, st', c, k, o) && Laid(st, n) && ChunkLaid(k, o, n)
    ensures Laid(st', n)
  {
    hide ChunkLaid;
  }

  lemma ReplaceMerged(st: State, st': State, c: ChunkId, k: Chunk, o: Layout)
    requires Replaces(st, st', c, k, o) && Merged(st) && Coalesced(o)
    ensures Merged(st')
  {
    hide Coalesced;
  }

  lemma ReplaceCounts(st: State, st': State, c: ChunkId, k: Chunk, o: Layout)
    requires Replaces(st, st', c, k, o) && Summed(st) && Counted(st)
    requires k.ndirty == Total(o, DirtyFree)
    requires st'.nactive == st.nactive - Total(st.layouts[c], Active) + Total(o, Active)
    requires st'.ndirty == st.ndirty - st.chunks[c].ndirty + k.ndirty
    ensures Summed(st') && Counted(st')
  {
    hide Total, Tally, ActivePages, DirtyPages;
    SumsUpdate(st.layouts, st.chunks, c, o, k);
  }

  /** The dirty flag of the chunk is unchanged, and so is the list. */
  lemma ReplaceListed(st: State, st': State, c: ChunkId, k: Chunk, o: Layout)
    requires Replaces(st, st', c, k, o) && Listed(st)
    requires st'.chunksDirty == st.chunksDirty && k.dirtied == st.chunks[c].dirtied && k.ndirty <= st.chunks[c].ndirty
    ensures Listed(st')
  {
  }

  lemma SplitKeepsCore(st: State, n: nat, c: ChunkId, s: nat, need: nat, kind: Kind, m: seq<MapElm>, headers: map<nat, nat>)
    requires Core(st, n) && CanSplit(st, c, s, need) && kind != Free
    requires st.layouts[c][s].dirty ==> need <= st.chunks[c].ndirty <= st.ndirty
    requires Encodes(m, SplitLayout(st.layouts[c], s, need, kind))
    requires headers == if kind == Small then st.chunks[c].headers[s := need] else st.chunks[c].headers
    ensures Core(SplitState(st, c, s, need, kind, m, headers), n)
  {
    hide Tiled, Encodes, HeadersOk, Coalesced, Total, AvailIs, SplitLayout, SwapAvail, Tally, ActivePages, DirtyPages, SingleFree, Summed, Listed;
    var o := st.layouts[c];
    var o' := SplitLayout(o, s, need, kind);
    var st' := SplitState(st, c, s, need, kind, m, headers);
    var k := st'.chunks[c];
    SplitLayoutTiled(o, s, need, kind);
    SplitLayoutTotals(o, s, need, kind);
    SplitLayoutCoalesced(o, s, need, kind);
    SplitHeaders(st.chunks[c].headers, o, s, need, kind);
    ReplaceLaid(st, st', n, c, k, o');
    ReplaceMerged(st, st', c, k, o');
    ReplaceCounts(st, st', c, k, o');
    ReplaceListed(st, st', c, k, o');
    SplitAvail(st.availDirty, st.layouts, st.spare, true, c, s, need, kind);
    SplitAvail(st.availClean, st.layouts, st.spare, false, c, s, need, kind);
  }

  /** What the page map says at the first page of a free run. */
  lemma FreeEntry(st: State, n: nat, c: ChunkId, s: nat)
    requires Laid(st, n) && c in st.chunks && s < |st.layouts[c]| && st.layouts[c][s].kind == Free && st.layouts[c][s].start == s
    ensures var o, m := st.layouts[c], st.chunks[c].pageMap;
      && |o| == |m| == n && Tiled(o) && Encodes(m, o)
      && m[s].pages == o[s].len && m[s].dirty == o[s].dirty && !m[s].inUse
  {
    var o, m := st.layouts[c], st.chunks[c].pageMap;
    assert ChunkLaid(st.chunks[c], o, n);
    assert EntryOk(m[s], o[s], s);
  }

  lemma SplitNotSingle(o: Layout, s: nat, need: nat, kind: Kind)
    requires s < |o| && Tiled(o) && o[s].start == s && 1 <= need <= o[s].len && kind != Free
    ensures !SingleFree(SplitLayout(o, s, need, kind))
  {
  }

  lemma SplitHeaders(headers: map<nat, nat>, o: Layout, s: nat, need: nat, kind: Kind)
    requires s < |o| && Tiled(o) && o[s].start == s && 1 <= need <= o[s].len && o[s].kind == Free
    requires HeadersOk(headers, o)
    ensures HeadersOk(if kind == Small then headers[s := need] else headers, SplitLayout(o, s, need, kind))
  {
    forall p | 0 <= p < |o| && !(s <= p < o[s].End())
      ensures o[p].start != s
    {
    }
  }
}
