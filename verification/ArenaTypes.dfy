/** The data of a page-run allocator: chunks of pages, their page maps, and the trees of available runs. */
module ArenaTypes {
  import opened Options
  import opened PageRuns

  /** A chunk is named by its base address. */
  type ChunkId = nat

  /**
    headers models the bin pointer at the start of each small run: the run's
    page count (bin_info->run_size) by its first page.
   */
  datatype Chunk = Chunk(pageMap: seq<MapElm>, headers: map<nat, nat>, ndirty: nat, dirtied: bool)

  /** A node of a runs_avail tree, with the size it is ordered by. */
  datatype Avail = Avail(pages: nat, chunk: ChunkId, page: nat)

  /** The order of arena_avail_comp: by size, then by address. */
  predicate Before(a: Avail, b: Avail) {
    a.pages < b.pages || (a.pages == b.pages && (a.chunk < b.chunk || (a.chunk == b.chunk && a.page <= b.page)))
  }

  /** Every small run records its page count in its header. */
  ghost predicate HeadersOk(headers: map<nat, nat>, o: Layout) {
    forall p {:trigger o[p]} :: 0 <= p < |o| && o[p].kind == Small ==> o[p].start in headers && headers[o[p].start] == o[p].len
  }

  ghost predicate ChunkLaid(c: Chunk, o: Layout, n: nat) {
    && |o| == n && n > 0 && Tiled(o) && Encodes(c.pageMap, o)
    && HeadersOk(c.headers, o)
  }

  /** The whole chunk is one free run. */
  ghost predicate SingleFree(o: Layout) {
    |o| > 0 && o[0].kind == Free && o[0].start == 0 && o[0].len == |o|
  }

  ghost predicate FreeRunAt(o: Layout, p: nat, len: nat, dirty: bool) {
    p < |o| && o[p] == Run(p, len, Free, dirty)
  }

  ghost predicate IsAvail(layouts: map<ChunkId, Layout>, spare: Option<ChunkId>, a: Avail, dirty: bool) {
    a.chunk in layouts && spare != Some(a.chunk) && FreeRunAt(layouts[a.chunk], a.page, a.pages, dirty)
  }

  ghost function ActivePages(layouts: map<ChunkId, Layout>): map<ChunkId, nat> {
    map c | c in layouts :: Total(layouts[c], Active)
  }

  function DirtyPages(chunks: map<ChunkId, Chunk>): map<ChunkId, nat> {
    map c | c in chunks :: chunks[c].ndirty
  }
}
