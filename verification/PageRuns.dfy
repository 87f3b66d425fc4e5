/**
  The page map of one jemalloc arena chunk: which entries encode which runs.

  Pages are numbered from the first data page of the chunk (map_bias is
  subtracted).  An entry of the page map is kept decoded: the page count or page
  offset stored above PAGE_SHIFT, and the four flag bits.
 */
module PageRuns {
  datatype MapElm = MapElm(pages: nat, dirty: bool, unzeroed: bool, large: bool, inUse: bool)

  datatype Kind = Free | Large | Small

  /** A maximal sequence of pages handed out or kept free together. */
  datatype Run = Run(start: nat, len: nat, kind: Kind, dirty: bool) {
    function End(): nat {
      start + len
    }
  }

  /** Which run each page belongs to. */
  type Layout = seq<Run>

  /** The entry of page p, if p belongs to run r. */
  predicate EntryOk(e: MapElm, r: Run, p: nat) {
    && (e.dirty ==> r.dirty)
    && match r.kind {
         case Free =>
           (p == r.start || p + 1 == r.End()) ==> e.pages == r.len && e.dirty == r.dirty && !e.large && !e.inUse
         case Large =>
           && (p == r.start ==> e.pages == r.len && e.dirty == r.dirty && e.large && e.inUse)
           && (p != r.start && p + 1 == r.End() ==> e.pages == 0 && e.dirty == r.dirty && e.large && e.inUse)
         case Small =>
           && e.pages + r.start == p && !e.large && e.inUse
           && (p == r.start || p + 1 == r.End() ==> e.dirty == r.dirty)
       }
  }

  ghost predicate Encodes(m: seq<MapElm>, o: Layout) {
    |m| == |o| && forall p {:trigger o[p]} {:trigger m[p]} :: 0 <= p < |o| ==> EntryOk(m[p], o[p], p)
  }

  /** The runs tile the pages: every page is inside its run, and so is every other page of that run. */
  ghost predicate Tiled(o: Layout) {
    && (forall p {:trigger o[p]} :: 0 <= p < |o| ==> o[p].start <= p < o[p].End() <= |o|)
    && (forall p, q {:trigger o[p], o[q]} :: 0 <= p < |o| && o[p].start <= q < o[p].End() ==> o[q] == o[p])
  }

  /** Page p starts a run, or is the end of the chunk. */
  ghost predicate Boundary(o: Layout, p: nat) {
    p == |o| || (p < |o| && o[p].start == p)
  }

  /** No two adjacent free runs agree on the dirty flag. */
  ghost predicate Coalesced(o: Layout) {
    CoalescedExcept(o, |o|, |o|)
  }

  /** As Coalesced, but nothing is said about the seams just before pages lo and hi. */
  ghost predicate CoalescedExcept(o: Layout, lo: nat, hi: nat) {
    forall p {:trigger o[p]} :: 1 <= p < |o| && p != lo && p != hi && Mergeable(o[p - 1], o[p]) ==> o[p - 1] == o[p]
  }

  ghost predicate Mergeable(r: Run, s: Run) {
    r.kind == Free && s.kind == Free && r.dirty == s.dirty
  }

  ghost predicate Agree(o: Layout, o': Layout, lo: nat, hi: nat) {
    |o| == |o'| && lo <= hi <= |o| && forall p {:trigger o[p]} {:trigger o'[p]} :: 0 <= p < |o| && !(lo <= p < hi) ==> o'[p] == o[p]
  }

  /** Relabels the pages of run r. */
  ghost function Paint(o: Layout, r: Run): (o': Layout)
    requires r.End() <= |o|
    ensures |o'| == |o|
    ensures forall p {:trigger o'[p]} :: 0 <= p < |o| ==> o'[p] == if r.start <= p < r.End() then r else o[p]
  {
    seq(|o|, p requires 0 <= p < |o| => if r.start <= p < r.End() then r else o[p])
  }

  /** No run straddles a boundary. */
  lemma RunsRespectBoundaries(o: Layout, b: nat, p: nat)
    requires Tiled(o) && Boundary(o, b) && p < |o|
    ensures if p < b then o[p].End() <= b else b <= o[p].start
  {
  }

  /** Replacing the runs between two boundaries by another tiling of the same pages. */
  lemma Retile(o: Layout, o': Layout, lo: nat, hi: nat)
    requires Tiled(o) && Agree(o, o', lo, hi) && Boundary(o, lo) && Boundary(o, hi)
    requires forall p {:trigger o'[p]} :: lo <= p < hi ==> lo <= o'[p].start <= p < o'[p].End() <= hi
    requires forall p, q {:trigger o'[p], o'[q]} :: lo <= p < hi && o'[p].start <= q < o'[p].End() ==> o'[q] == o'[p]
    ensures Tiled(o')
  {
    forall p, q | 0 <= p < |o'| && o'[p].start <= q < o'[p].End()
      ensures o'[q] == o'[p]
    {
      if !(lo <= p < hi) {
        RunsRespectBoundaries(o, lo, p);
        RunsRespectBoundaries(o, hi, p);
      }
    }
  }

  /** Relabelling a whole stretch between boundaries as one run. */
  lemma PaintTiled(o: Layout, r: Run)
    requires Tiled(o) && r.len > 0 && r.End() <= |o| && Boundary(o, r.start) && Boundary(o, r.End())
    ensures Tiled(Paint(o, r))
  {
    Retile(o, Paint(o, r), r.start, r.End());
  }

  /** Cutting the stretch of one run into two runs. */
  lemma PaintTwoTiled(o: Layout, r: Run, s: Run)
    requires Tiled(o) && r.len > 0 && s.len > 0 && r.End() == s.start && s.End() <= |o|
    requires Boundary(o, r.start) && Boundary(o, s.End())
    ensures Tiled(Paint(Paint(o, r), s))
  {
    Retile(o, Paint(Paint(o, r), s), r.start, s.End());
  }

  // ----- Counting pages

  datatype Tag = Active | DirtyFree

  predicate Tagged(r: Run, t: Tag) {
    match t
    case Active => r.kind != Free
    case DirtyFree => r.kind == Free && r.dirty
  }

  /** How many of the pages lo <= p < hi carry the tag. */
  ghost function Count(o: Layout, t: Tag, lo: nat, hi: nat): (c: nat)
    requires lo <= hi <= |o|
    ensures c <= hi - lo
  {
    if lo == hi then 0 else Count(o, t, lo, hi - 1) + (if Tagged(o[hi - 1], t) then 1 else 0)
  }

  lemma {:induction false} CountAgree(o: Layout, o': Layout, t: Tag, lo: nat, hi: nat)
    requires lo <= hi <= |o| && hi <= |o'|
    requires forall p :: lo <= p < hi ==> Tagged(o[p], t) == Tagged(o'[p], t)
    ensures Count(o, t, lo, hi) == Count(o', t, lo, hi)
  {
    if lo < hi {
      CountAgree(o, o', t, lo, hi - 1);
    }
  }

  lemma {:induction false} CountSplit(o: Layout, t: Tag, lo: nat, mid: nat, hi: nat)
    requires lo <= mid <= hi <= |o|
    ensures Count(o, t, lo, hi) == Count(o, t, lo, mid) + Count(o, t, mid, hi)
  {
    if mid < hi {
      CountSplit(o, t, lo, mid, hi - 1);
    }
  }

  lemma {:induction false} CountUniform(o: Layout, t: Tag, lo: nat, hi: nat, b: bool)
    requires lo <= hi <= |o|
    requires forall p :: lo <= p < hi ==> Tagged(o[p], t) == b
    ensures Count(o, t, lo, hi) == if b then hi - lo else 0
  {
    if lo < hi {
      CountUniform(o, t, lo, hi - 1, b);
    }
  }

  ghost function Total(o: Layout, t: Tag): nat {
    Count(o, t, 0, |o|)
  }

  /** Relabelling one uniform stretch moves the total by the stretch's length, or not at all. */
  lemma TotalRepaint(o: Layout, o': Layout, t: Tag, lo: nat, hi: nat, was: bool, now: bool)
    requires Agree(o, o', lo, hi)
    requires forall p :: lo <= p < hi ==> Tagged(o[p], t) == was && Tagged(o'[p], t) == now
    ensures Total(o', t) - Total(o, t) == (if now then hi - lo else 0) - (if was then hi - lo else 0)
  {
    CountSplit(o, t, 0, lo, |o|);
    CountSplit(o, t, lo, hi, |o|);
    CountSplit(o', t, 0, lo, |o|);
    CountSplit(o', t, lo, hi, |o|);
    CountAgree(o, o', t, 0, lo);
    CountAgree(o, o', t, hi, |o|);
    CountUniform(o, t, lo, hi, was);
    CountUniform(o', t, lo, hi, now);
  }
}
