/** Choosing the free run to split: the lowest best fit. */
module ArenaChoices {
  import opened Options
  import opened PageRuns
  import opened ArenaTypes
  import opened RunSplitting
  import opened ArenaStates
  import opened ArenaChunks
  import opened ArenaCuts

  /** No run that is large enough is smaller, and none of the same size is lower. */
  ghost predicate IsBestFit(avail: set<Avail>, need: nat, b: Avail) {
    && b in avail && need <= b.pages
    && forall a {:trigger a in avail} :: a in avail && need <= a.pages ==>
      b.pages <= a.pages && (b.pages == a.pages ==> b.chunk < a.chunk || (b.chunk == a.chunk && b.page <= a.page))
  }

  ghost predicate NoFit(avail: set<Avail>, need: nat) {
    forall a {:trigger a in avail} :: a in avail ==> a.pages < need
  }

  method BestFit(avail: set<Avail>, need: nat) returns (r: Option<Avail>)
    ensures r.None? ==> NoFit(avail, need)
    ensures r.Some? ==> IsBestFit(avail, need, r.value)
  {
    r := None;
    var rest := avail;
    while rest != {}
      invariant rest <= avail
      invariant r.None? ==> NoFit(avail - rest, need)
      invariant r.Some? ==> IsBestFit(avail - rest, need, r.value)
      decreases rest
    {
      var a :| a in rest;
      if need <= a.pages && (r.None? || Before(a, r.value)) {
        r := Some(a);
      }
      assert avail - (rest - {a}) == avail - rest + {a};
      rest := rest - {a};
    }
    assert avail - rest == avail;
  }

  /** The first pages of the lowest best fit. */
  ghost predicate FromTree(avail: set<Avail>, need: nat, r: Option<(ChunkId, nat)>) {
    exists b {:trigger IsBestFit(avail, need, b)} :: IsBestFit(avail, need, b) && r == Some((b.chunk, b.page))
  }

  /** The run returned by arena_run_alloc: new, of the asked size, in pages that nobody was using, and as dirty as they were. */
  ghost predicate Handed(before: map<ChunkId, Layout>, after: map<ChunkId, Layout>, c: ChunkId, s: nat, need: nat, kind: Kind) {
    && c in after && s < |after[c]| && after[c][s].start == s && after[c][s].len == need && after[c][s].kind == kind
    && (c !in before ==> !after[c][s].dirty)
    && forall p {:trigger after[c][p]} {:trigger before[c][p]} ::
      s <= p < s + need && c in before && p < |before[c]| ==> before[c][p].kind == Free && before[c][p].dirty == after[c][s].dirty
  }

  lemma HandedAt(before: map<ChunkId, Layout>, after: map<ChunkId, Layout>, c: ChunkId, s: nat, need: nat, kind: Kind)
    requires Handed(before, after, c, s, need, kind)
    ensures c in after && s < |after[c]| && after[c][s].start == s && after[c][s].len == need && after[c][s].kind == kind
  {
  }

  /** No page but lo to hi of chunk c has changed its use, and none its dirtiness; a new chunk is free and clean elsewhere. */
  ghost predicate OnlyTaken(before: map<ChunkId, Layout>, after: map<ChunkId, Layout>, c: ChunkId, lo: nat, hi: nat) {
    && c in after && (forall d {:trigger before[d]} :: d in before ==> d in after)
    && (forall d {:trigger after[d]} :: d in after && d != c ==> d in before && after[d] == before[d])
    && (c in before ==> |before[c]| == |after[c]| && forall p {:trigger after[c][p]} {:trigger before[c][p]} :: 0 <= p < |after[c]| ==>
          after[c][p].dirty == before[c][p].dirty && (!(lo <= p < hi) ==> after[c][p].kind == before[c][p].kind))
    && (c !in before ==> forall p {:trigger after[c][p]} :: 0 <= p < |after[c]| && !(lo <= p < hi) ==> after[c][p].kind == Free && !after[c][p].dirty)
  }

  lemma SplitTakes(before: map<ChunkId, Layout>, l: map<ChunkId, Layout>, c: ChunkId, s: nat, need: nat, kind: Kind)
    requires c in l && var o := l[c]; s < |o| && Tiled(o) && o[s].start == s && o[s].kind == Free && 1 <= need <= o[s].len
    requires l.Keys == before.Keys + {c} && forall d {:trigger before[d]} :: d in before ==> before[d] == l[d]
    requires c !in before ==> forall p {:trigger l[c][p]} :: 0 <= p < |l[c]| ==> l[c][p].kind == Free && !l[c][p].dirty
    ensures OnlyTaken(before, l[c := SplitLayout(l[c], s, need, kind)], c, s, s + need)
  {
    var o := l[c];
    forall p | s <= p < o[s].End()
      ensures o[p] == o[s]
    {
    }
  }

  lemma SplitHands(before: map<ChunkId, Layout>, l: map<ChunkId, Layout>, c: ChunkId, s: nat, need: nat, kind: Kind)
    requires c in l && var o := l[c]; s < |o| && Tiled(o) && o[s].start == s && o[s].kind == Free && 1 <= need <= o[s].len
    requires c in before ==> before[c] == l[c]
    requires c !in before ==> !l[c][s].dirty
    ensures Handed(before, l[c := SplitLayout(l[c], s, need, kind)], c, s, need, kind)
  {
    var o := l[c];
    forall p | s <= p < o[s].End()
      ensures o[p] == o[s]
    {
    }
  }

  lemma AvailCanSplit(st: State, n: nat, a: Avail, flag: bool, need: nat)
    requires Core(st, n) && a in (if flag then st.availDirty else st.availClean) && 1 <= need <= a.pages
    ensures CanSplit(st, a.chunk, a.page, need) && st.layouts[a.chunk][a.page] == Run(a.page, a.pages, Free, flag)
  {
    assert IsAvail(st.layouts, st.spare, a, flag);
    assert ChunkLaid(st.chunks[a.chunk], st.layouts[a.chunk], n);
  }

  lemma SplitOnlySpare(st: State, c: ChunkId, s: nat, need: nat, kind: Kind, m: seq<MapElm>, headers: map<nat, nat>)
    requires CanSplit(st, c, s, need) && kind != Free && OnlySpareFreeBut(st, c)
    requires st.chunks[c].ndirty >= (if st.layouts[c][s].dirty then need else 0) && st.ndirty >= (if st.layouts[c][s].dirty then need else 0)
    ensures OnlySpareFree(SplitState(st, c, s, need, kind, m, headers))
  {
    SplitNotSingle(st.layouts[c], s, need, kind);
  }

  lemma SplitReady(st: State, n: nat, c: ChunkId, s: nat, need: nat)
    requires Core(st, n) && CanSplit(st, c, s, need)
    ensures st.layouts[c][s].dirty ==> need <= st.chunks[c].ndirty <= st.ndirty
    ensures var o, m := st.layouts[c], st.chunks[c].pageMap;
      s < |o| == |m| && Tiled(o) && Encodes(m, o) && m[s].pages == o[s].len && m[s].dirty == o[s].dirty
  {
    SplitEnoughDirty(st, n, c, s, need);
    FreeEntry(st, n, c, s);
  }

  lemma AllocReady(st: State, n: nat, b: Avail, flag: bool, need: nat)
    requires ValidState(st, n) && 1 <= need && IsBestFit(if flag then st.availDirty else st.availClean, need, b)
    ensures CanSplit(st, b.chunk, b.page, need) && OnlySpareFreeBut(st, b.chunk)
    ensures !NoFit(if flag then st.availDirty else st.availClean, need)
  {
    AvailCanSplit(st, n, b, flag, need);
  }

  lemma CanSplitLess(st: State, c: ChunkId, n: nat, need: nat)
    requires CanSplit(st, c, 0, n) && 1 <= need <= n
    ensures CanSplit(st, c, 0, need)
  {
  }

  /** The first run of a new chunk. */
  lemma FreshTaken(l0: map<ChunkId, Layout>, l1: map<ChunkId, Layout>, l2: map<ChunkId, Layout>, n: nat, c: ChunkId, need: nat, kind: Kind)
    requires c !in l0 && 1 <= need <= n && l1 == l0[c := FreshLayout(n)] && Tiled(FreshLayout(n))
    requires l2 == l1[c := SplitLayout(l1[c], 0, need, kind)]
    ensures Handed(l0, l2, c, 0, need, kind) && OnlyTaken(l0, l2, c, 0, need)
  {
    hide SplitLayout, Handed, OnlyTaken;
    SplitHands(l0, l1, c, 0, need, kind);
    SplitTakes(l0, l1, c, 0, need, kind);
  }
}
