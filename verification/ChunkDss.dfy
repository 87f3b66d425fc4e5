/** Extents of free address space, as `chunk_dss.c` keeps them in its two trees. */
module Extents {
  datatype Extent = Extent(addr: int, size: nat)

  function End(e: Extent): int {
    e.addr + e.size
  }

  ghost predicate Has(e: Extent, x: int) {
    e.addr <= x < End(e)
  }

  /** Address x is in some extent. */
  ghost predicate Covered(s: set<Extent>, x: int) {
    exists e {:trigger e in s} {:trigger Has(e, x)} :: e in s && Has(e, x)
  }

  /** Not overlapping, and with a gap between them. */
  predicate Apart(e: Extent, f: Extent) {
    End(e) < f.addr || End(f) < e.addr
  }

  /** Non-empty extents with gaps between them. */
  ghost predicate Separate(s: set<Extent>) {
    && (forall e {:trigger e in s} :: e in s ==> e.size > 0)
    && (forall e, f {:trigger e in s, f in s} :: e in s && f in s && e != f ==> Apart(e, f))
  }

  ghost predicate Free(s: set<Extent>, addr: int, size: nat) {
    forall x {:trigger Covered(s, x)} :: addr <= x < addr + size ==> !Covered(s, x)
  }

  /** Order of the size-address tree. */
  predicate SzadLess(e: Extent, f: Extent) {
    e.size < f.size || (e.size == f.size && e.addr < f.addr)
  }

  /** e is large enough, and every other extent that is, is larger, or as large and higher. */
  ghost predicate LowestBestFit(s: set<Extent>, size: nat, e: Extent) {
    e.size >= size && forall f {:trigger f in s} :: f in s && f.size >= size && f != e ==> e.size < f.size || (e.size == f.size && e.addr < f.addr)
  }

  /** A finite set with a member that satisfies p has a least one in the size-address order. */
  lemma {:induction false} LeastSzad(s: set<Extent>, size: nat) returns (e: Extent)
    requires exists f {:trigger f in s} :: f in s && f.size >= size
    ensures e in s && e.size >= size && forall f {:trigger f in s} :: f in s && f.size >= size && f != e ==> SzadLess(e, f)
    decreases |s|
  {
    var f :| f in s && f.size >= size;
    var rest := s - {f};
    if exists g {:trigger g in rest} :: g in rest && g.size >= size {
      e := LeastSzad(rest, size);
      if SzadLess(f, e) {
        e := f;
      }
    } else {
      e := f;
    }
    forall g | g in s && g.size >= size && g != e
      ensures SzadLess(e, g)
    {
      assert g == f || g in rest;
    }
  }

  /** The extent that starts lowest among those from addr on. */
  lemma {:induction false} LeastAd(s: set<Extent>, addr: int) returns (e: Extent)
    requires exists f {:trigger f in s} :: f in s && f.addr >= addr
    ensures e in s && e.addr >= addr && forall f {:trigger f in s} :: f in s && f.addr >= addr ==> e.addr <= f.addr
    decreases |s|
  {
    var f :| f in s && f.addr >= addr;
    var rest := s - {f};
    if exists g {:trigger g in rest} :: g in rest && g.addr >= addr {
      e := LeastAd(rest, addr);
      if f.addr < e.addr {
        e := f;
      }
    } else {
      e := f;
    }
    forall g | g in s && g.addr >= addr
      ensures e.addr <= g.addr
    {
      assert g == f || g in rest;
    }
  }

  /** The extent that starts highest among those before addr. */
  lemma {:induction false} GreatestAd(s: set<Extent>, addr: int) returns (e: Extent)
    requires exists f {:trigger f in s} :: f in s && f.addr < addr
    ensures e in s && e.addr < addr && forall f {:trigger f in s} :: f in s && f.addr < addr ==> f.addr <= e.addr
    decreases |s|
  {
    var f :| f in s && f.addr < addr;
    var rest := s - {f};
    if exists g {:trigger g in rest} :: g in rest && g.addr < addr {
      e := GreatestAd(rest, addr);
      if f.addr > e.addr {
        e := f;
      }
    } else {
      e := f;
    }
    forall g | g in s && g.addr < addr
      ensures g.addr <= e.addr
    {
      assert g == f || g in rest;
    }
  }

  // ----- Set updates

  lemma TakeWhole(s: set<Extent>, e: Extent)
    requires Separate(s) && e in s
    ensures Separate(s - {e})
    ensures forall x {:trigger Covered(s - {e}, x)} :: Covered(s - {e}, x) <==> Covered(s, x) && !Has(e, x)
  {
    forall x
      ensures Covered(s - {e}, x) <==> Covered(s, x) && !Has(e, x)
    {
      if Covered(s - {e}, x) {
        var f :| f in s - {e} && Has(f, x);
        assert f in s && f != e;
      }
      if Covered(s, x) && !Has(e, x) {
        var f :| f in s && Has(f, x);
        assert f in s - {e};
      }
    }
  }

  /** Taking the front of an extent leaves the rest of it. */
  lemma TakeFront(s: set<Extent>, e: Extent, size: nat)
    requires Separate(s) && e in s && 0 < size < e.size
    ensures var r := Extent(e.addr + size, e.size - size);
      && Separate(s - {e} + {r}) && r !in s - {e}
      && forall x {:trigger Covered(s - {e} + {r}, x)} :: Covered(s - {e} + {r}, x) <==> Covered(s, x) && !(e.addr <= x < e.addr + size)
  {
    TakeWhole(s, e);
    var r, t := Extent(e.addr + size, e.size - size), s - {e};
    assert forall f {:trigger f in t} :: f in t ==> f in s && f != e;
    PutCovered(t, r);
  }

  lemma PutCovered(t: set<Extent>, r: Extent)
    ensures forall x {:trigger Covered(t + {r}, x)} :: Covered(t + {r}, x) <==> Covered(t, x) || Has(r, x)
  {
    forall x
      ensures Covered(t + {r}, x) <==> Covered(t, x) || Has(r, x)
    {
      if Covered(t, x) {
        var f :| f in t && Has(f, x);
        assert f in t + {r};
      }
      if Has(r, x) {
        assert r in t + {r};
      }
      if Covered(t + {r}, x) {
        var f :| f in t + {r} && Has(f, x);
        assert f in t || f == r;
      }
    }
  }

  /** Adding an extent that nothing touches. */
  lemma PutApart(t: set<Extent>, r: Extent)
    requires Separate(t) && r.size > 0 && forall f {:trigger f in t} :: f in t ==> Apart(r, f)
    ensures Separate(t + {r}) && r !in t
    ensures forall x {:trigger Covered(t + {r}, x)} :: Covered(t + {r}, x) <==> Covered(t, x) || Has(r, x)
  {
    PutCovered(t, r);
  }

  /** An extent of the set that meets a free range only at its ends is before or after it. */
  lemma FreeSides(s: set<Extent>, addr: int, size: nat, f: Extent)
    requires Separate(s) && Free(s, addr, size) && size > 0 && f in s
    ensures End(f) <= addr || addr + size <= f.addr
  {
    var x := if f.addr < addr then addr else f.addr;
    if !(End(f) <= addr || addr + size <= f.addr) {
      assert Has(f, x);
      assert Covered(s, x);
    }
  }

  lemma InsideCovered(s: set<Extent>, e: Extent)
    requires e in s
    ensures forall x {:trigger Covered(s, x)} :: Has(e, x) ==> Covered(s, x)
  {
  }

  // ----- Coalescing

  /** An extent starts at x. */
  ghost predicate StartsAt(s: set<Extent>, x: int) {
    exists f {:trigger f in s} :: f in s && f.addr == x
  }

  ghost predicate EndsAt(s: set<Extent>, x: int) {
    exists f {:trigger f in s} :: f in s && End(f) == x
  }

  /** n is the range from addr on, of this size, together with the extents of s that touch it. */
  ghost predicate JoinedRange(s: set<Extent>, addr: int, size: nat, n: Extent) {
    && (if EndsAt(s, addr) then exists p {:trigger p in s} :: p in s && End(p) == addr && n.addr == p.addr else n.addr == addr)
    && (if StartsAt(s, addr + size) then exists f {:trigger f in s} :: f in s && f.addr == addr + size && End(n) == End(f) else End(n) == addr + size)
  }

  /** n is to join the extents of t: nothing overlaps it, and only an extent that ends at its start touches it. */
  ghost predicate Joining(t: set<Extent>, n: Extent) {
    Separate(t) && n.size > 0 && forall g {:trigger g in t} :: g in t ==> End(g) <= n.addr || End(n) < g.addr
  }

  /** The freed range together with the extent f that follows it. */
  lemma JoinForward(s: set<Extent>, addr: int, size: nat, f: Extent)
    requires Separate(s) && Free(s, addr, size) && size > 0 && f in s && f.addr == addr + size
    ensures var t, n := s - {f}, Extent(addr, f.size + size);
      && Joining(t, n) && n !in t
      && forall x {:trigger Covered(t + {n}, x)} :: Covered(t + {n}, x) <==> Covered(s, x) || addr <= x < addr + size
  {
    var t, n := s - {f}, Extent(addr, f.size + size);
    TakeWhole(s, f);
    PutCovered(t, n);
    InsideCovered(s, f);
    forall g | g in t
      ensures End(g) <= n.addr || End(n) < g.addr
    {
      FreeSides(s, addr, size, g);
      assert g in s && f in s && g != f && Apart(g, f);
    }
  }

  /** The freed range on its own, when no extent starts at its end. */
  lemma JoinAlone(s: set<Extent>, addr: int, size: nat)
    requires Separate(s) && Free(s, addr, size) && size > 0 && forall f {:trigger f in s} :: f in s ==> f.addr != addr + size
    ensures var n := Extent(addr, size);
      && Joining(s, n) && n !in s
      && forall x {:trigger Covered(s + {n}, x)} :: Covered(s + {n}, x) <==> Covered(s, x) || addr <= x < addr + size
  {
    var n := Extent(addr, size);
    PutCovered(s, n);
    forall g | g in s
      ensures End(g) <= n.addr || End(n) < g.addr
    {
      FreeSides(s, addr, size, g);
    }
  }

  lemma ExtentSize(s: set<Extent>, f: Extent)
    requires Separate(s) && f in s
    ensures f.size > 0
  {
  }

  /** Joined with what follows it, and then with what ends where it starts. */
  lemma JoinedNode(s: set<Extent>, t: set<Extent>, addr: int, size: nat, n: Extent, node: Extent)
    requires size > 0 && n.addr == addr && End(node) == End(n)
    requires if StartsAt(s, addr + size) then exists f {:trigger f in s} :: f in s && f.addr == addr + size && f.size > 0 && t == s - {f} && End(n) == End(f)
             else t == s && End(n) == addr + size
    requires if EndsAt(t, n.addr) then exists p {:trigger p in t} :: p in t && End(p) == n.addr && node.addr == p.addr else node.addr == n.addr
    ensures JoinedRange(s, addr, size, node)
  {
    if EndsAt(s, addr) {
      var p :| p in s && End(p) == addr;
      assert p in t;
    }
    if EndsAt(t, addr) {
      var p :| p in t && End(p) == addr && node.addr == p.addr;
      assert p in s;
    }
  }

  lemma JoiningSides(t: set<Extent>, n: Extent, p: Extent)
    requires Joining(t, n) && p in t
    ensures p.size > 0 && (End(p) <= n.addr || End(n) < p.addr)
  {
  }

  /** Joining the extent p that ends where n starts. */
  lemma JoinBackward(t: set<Extent>, n: Extent, p: Extent)
    requires Joining(t, n) && p in t && End(p) == n.addr
    ensures var m := Extent(p.addr, n.size + p.size);
      && Separate(t - {p} + {m}) && m !in t - {p}
      && forall x {:trigger Covered(t - {p} + {m}, x)} :: Covered(t - {p} + {m}, x) <==> Covered(t + {n}, x)
  {
    var m, r := Extent(p.addr, n.size + p.size), t - {p};
    TakeWhole(t, p);
    PutCovered(t, n);
    InsideCovered(t, p);
    forall g | g in r
      ensures Apart(m, g)
    {
      assert g in t && g != p && Apart(g, p) && g.size > 0;
    }
    PutApart(r, m);
  }

  /** When the last extent before n does not end where n starts, n stands alone. */
  lemma NoneBackward(t: set<Extent>, n: Extent)
    requires Joining(t, n) && forall g {:trigger g in t} :: g in t && g.addr < n.addr ==> LastBefore(t, n, g) || End(g) < n.addr
    requires forall p {:trigger p in t} :: p in t && LastBefore(t, n, p) ==> End(p) != n.addr
    ensures Separate(t + {n})
  {
    forall g | g in t
      ensures Apart(n, g)
    {
      assert g.size > 0;
    }
    PutApart(t, n);
  }

  ghost predicate LastBefore(t: set<Extent>, n: Extent, p: Extent) {
    p.addr < n.addr && forall f {:trigger f in t} :: f in t && f.addr < n.addr ==> f.addr <= p.addr
  }

  /** An extent before the last one before n does not reach n. */
  lemma LastReaches(t: set<Extent>, n: Extent, p: Extent)
    requires Joining(t, n) && p in t && LastBefore(t, n, p)
    ensures forall g {:trigger g in t} :: g in t && g.addr < n.addr ==> LastBefore(t, n, g) || End(g) < n.addr
    ensures forall q {:trigger q in t} :: q in t && LastBefore(t, n, q) ==> q == p
  {
    forall g | g in t && g.addr < n.addr
      ensures LastBefore(t, n, g) || End(g) < n.addr
    {
      if g != p {
        assert Apart(g, p) && g.size > 0 && p.size > 0;
      }
    }
    forall q | q in t && LastBefore(t, n, q)
      ensures q == p
    {
      assert q.size > 0 && p.size > 0 && (q != p ==> Apart(q, p));
    }
  }
}

/** Allocation and release of address space at the end of the data segment: `chunk_dss.c`. */
module ChunkDss {
  import opened Options
  import opened Numbers
  import opened Extents

  /** One turn of the allocation loop: what sbrk(0) and the following sbrk(incr) return; -1 is failure. */
  datatype Turn = Turn(top: int, prev: int)

  /** In some turn the segment is extended where it ended, and in none before it sbrk fails. */
  ghost predicate Extends(turns: seq<Turn>) {
    exists k {:trigger turns[k]} :: 0 <= k < |turns| && turns[k].prev == turns[k].top && forall i {:trigger turns[i]} :: 0 <= i < k ==> turns[i].prev != -1
  }

  predicate Multiple(x: int, d: nat)
    requires d > 0
  {
    x % d == 0
  }

  predicate AlignedExtent(e: Extent, d: nat)
    requires d > 0
  {
    Multiple(e.addr, d) && Multiple(e.size, d)
  }

  /** All extents start and end at multiples of d. */
  ghost predicate AllAligned(s: set<Extent>, d: nat)
    requires d > 0
  {
    forall e {:trigger e in s} :: e in s ==> AlignedExtent(e, d)
  }

  /** What other threads may have made of the state while the lock was dropped. */
  datatype State = State(szad: set<Extent>, ad: set<Extent>, base: int, max: int, prev: int)

  /** Both trees hold the same extents, with gaps between them, inside the data segment. */
  ghost predicate ValidState(s: State) {
    && s.szad == s.ad && Separate(s.ad) && 0 <= s.base <= s.max
    && forall e {:trigger e in s.ad} :: e in s.ad ==> s.base <= e.addr && End(e) <= s.max
  }

  /** Signed sizes that would be negative increments. */
  const SIGN_BIT := 0x8000_0000_0000_0000

  class Dss {
    const chunksize: nat
    var szad: set<Extent>
    var ad: set<Extent>
    var base: int
    var max: int
    var prev: int

    ghost function St(): State
      reads this
    {
      State(szad, ad, base, max, prev)
    }

    ghost predicate Valid()
      reads this
    {
      chunksize > 0 && ValidState(St())
    }

    /** `chunk_dss_boot` with the end of the data segment at that time. */
    constructor Boot(chunksize: nat, top: nat)
      requires chunksize > 0
      ensures Valid() && base == max == prev == top && ad == {} && this.chunksize == chunksize
    {
      this.chunksize := chunksize;
      base, prev, max := top, top, top;
      szad, ad := {}, {};
    }

    /** extent_tree_szad_nsearch: the first extent of at least this size. */
    method SzadNsearch(size: nat) returns (node: Option<Extent>)
      ensures node.None? <==> forall e {:trigger e in szad} :: e in szad ==> e.size < size
      ensures node.Some? ==> node.value in szad && node.value.size >= size
      ensures node.Some? ==> forall f {:trigger f in szad} :: f in szad && f.size >= size && f != node.value ==>
        node.value.size < f.size || (node.value.size == f.size && node.value.addr < f.addr)
    {
      if exists e {:trigger e in szad} :: e in szad && e.size >= size {
        ghost var least := LeastSzad(szad, size);
        var e :| e in szad && e.size >= size && forall f {:trigger f in szad} :: f in szad && f.size >= size && f != e ==> SzadLess(e, f);
        forall f | f in szad && f.size >= size && f != e
          ensures e.size < f.size || (e.size == f.size && e.addr < f.addr)
        {
          assert SzadLess(e, f);
        }
        return Some(e);
      }
      return None;
    }

    /** extent_tree_ad_nsearch: the first extent from this address on. */
    method AdNsearch(addr: int) returns (node: Option<Extent>)
      ensures node.None? <==> forall e {:trigger e in ad} :: e in ad ==> e.addr < addr
      ensures node.Some? ==> node.value in ad && node.value.addr >= addr && forall f {:trigger f in ad} :: f in ad && f.addr >= addr ==> node.value.addr <= f.addr
    {
      if exists e {:trigger e in ad} :: e in ad && e.addr >= addr {
        ghost var least := LeastAd(ad, addr);
        var e :| e in ad && e.addr >= addr && forall f {:trigger f in ad} :: f in ad && f.addr >= addr ==> e.addr <= f.addr;
        return Some(e);
      }
      return None;
    }

    /** extent_tree_ad_prev: the last extent before this address. */
    method AdPrev(addr: int) returns (node: Option<Extent>)
      ensures node.None? <==> forall e {:trigger e in ad} :: e in ad ==> e.addr >= addr
      ensures node.Some? ==> node.value in ad && node.value.addr < addr && forall f {:trigger f in ad} :: f in ad && f.addr < addr ==> f.addr <= node.value.addr
    {
      if exists e {:trigger e in ad} :: e in ad && e.addr < addr {
        ghost var greatest := GreatestAd(ad, addr);
        var e :| e in ad && e.addr < addr && forall f {:trigger f in ad} :: f in ad && f.addr < addr ==> f.addr <= e.addr;
        return Some(e);
      }
      return None;
    }

    /** `chunk_recycle_dss`: the front of the smallest extent that is large enough, lowest first; None if there is none. */
    method Recycle(size: nat) returns (ret: Option<int>)
      requires Valid() && size > 0
      modifies `szad, `ad
      ensures Valid()
      ensures ret.None? ==> ad == old(ad) && szad == old(szad) && forall e {:trigger e in ad} :: e in ad ==> e.size < size
      ensures ret.Some? ==> base <= ret.value && ret.value + size <= max && exists e {:trigger e in old(ad)} :: e in old(ad) && e.size >= size
      ensures ret.Some? ==> exists e {:trigger e in old(ad)} :: e in old(ad) && e.addr == ret.value && LowestBestFit(old(ad), size, e)
      ensures ret.Some? ==> forall x {:trigger Covered(old(ad), x)} :: ret.value <= x < ret.value + size ==> Covered(old(ad), x)
      ensures ret.Some? ==> forall x {:trigger Covered(ad, x)} :: Covered(ad, x) <==> Covered(old(ad), x) && !(ret.value <= x < ret.value + size)
      ensures AllAligned(old(ad), chunksize) && Multiple(size, chunksize) ==> AllAligned(ad, chunksize) && (ret.Some? ==> Multiple(ret.value, chunksize))
    {
      hide Covered, Separate, Multiple;
      var node := SzadNsearch(size);
      if node.None? {
        return None;
      }
      var e := node.value;
      InsideCovered(ad, e);
      szad := szad - {e};
      if e.size == size {
        TakeWhole(ad, e);
        ad := ad - {e};
      } else {
        TakeFront(ad, e, size);
        MultipleSums(e.addr, size, chunksize);
        MultipleSums(e.size, size, chunksize);
        var r := Extent(e.addr + size, e.size - size);
        ad := ad - {e} + {r};
        szad := szad + {r};
      }
      return Some(e.addr);
    }

    /**
      `chunk_alloc_dss`: recycled address space, or new space above everything the segment had, aligned to chunks. The
      padding below new space is lost: it belongs to the segment, but to no extent.
      When nothing can be recycled, the lock is dropped before the segment is extended, so the state is then any that other
      threads can leave (`after`). Without success within the given turns (a failure of sbrk, or races lost every time)
      there is nothing.
     */
    method Alloc(size: nat, after: State, turns: seq<Turn>) returns (ret: Option<int>, ghost recycled: bool)
      requires Valid() && size > 0 && size % chunksize == 0
      requires ValidState(after) && after.base == base
      requires forall k {:trigger turns[k]} :: 0 <= k < |turns| ==> turns[k].top >= after.max
      modifies `szad, `ad, `max, `prev
      ensures Valid() && (recycled <==> exists e {:trigger e in old(ad)} :: e in old(ad) && e.size >= size)
      ensures recycled ==> ret.Some? && max == old(max) && prev == old(prev)
      ensures recycled ==> base <= ret.value && ret.value + size <= max && forall x {:trigger Covered(old(ad), x)} :: ret.value <= x < ret.value + size ==> Covered(old(ad), x)
      ensures recycled ==> forall x {:trigger Covered(ad, x)} :: Covered(ad, x) <==> Covered(old(ad), x) && !(ret.value <= x < ret.value + size)
      ensures recycled && AllAligned(old(ad), chunksize) ==> AllAligned(ad, chunksize) && Multiple(ret.value, chunksize)
      ensures !recycled ==> ad == after.ad && szad == after.szad && max >= after.max
      ensures !recycled && ret.Some? ==> after.max <= ret.value && Multiple(ret.value, chunksize) && ret.value + size == max && Free(ad, ret.value, size)
      ensures !recycled ==> (ret.Some? <==> size < SIGN_BIT && after.prev != -1 && Extends(turns))
    {
      hide Covered, Separate, AllAligned;
      ret := Recycle(size);
      recycled := ret.Some?;
      if ret.Some? {
        return;
      }
      // The lock is dropped here.
      szad, ad, max, prev := after.szad, after.ad, after.max, after.prev;
      if size >= SIGN_BIT {
        return;
      }
      for k := 0 to |turns|
        invariant Valid() && ad == after.ad && szad == after.szad && after.max <= max && ret.None?
        invariant prev == if k == 0 then after.prev else turns[k - 1].prev
        invariant k > 0 ==> after.prev != -1
        invariant forall i {:trigger turns[i]} :: 0 <= i < k ==> turns[i].prev != turns[i].top && (i < k - 1 ==> turns[i].prev != -1)
      {
        if prev == -1 {
          return;
        }
        assert turns[k].top >= after.max;
        max := turns[k].top;
        var incr := size - max % chunksize;
        var start;
        if incr == size {
          start := max;
        } else {
          start := max + incr;
          incr := incr + size;
        }
        prev := turns[k].prev;
        if prev == max {
          AlignedStart(max, size, chunksize);
          AboveIsFree(ad, max, start, size);
          max := prev + incr;
          ret := Some(start);
          return;
        }
      }
    }

    // ----- Release

    /**
      `chunk_dealloc_dss_record`: the range becomes free, joined with the extents before and after it. The lock is dropped
      while a node is allocated, so the state may then be any that other threads can leave (`after`); without
      a node (nodeOk) the range is not recorded. `from` is the state to which the range is added.
     */
    method Record(chunk: int, size: nat, nodeOk: bool, after: State) returns (node: Option<Extent>, ghost from: State)
      requires Valid() && size > 0 && Free(ad, chunk, size) && base <= chunk && chunk + size <= max
      requires ValidState(after) && after.base == base && chunk + size <= after.max && Free(after.ad, chunk, size)
      modifies `szad, `ad, `max, `prev
      ensures Valid() && from == (if StartsAt(old(ad), chunk + size) then old(St()) else after) && base == from.base && max == from.max && prev == from.prev
      ensures node.None? <==> !StartsAt(old(ad), chunk + size) && !nodeOk
      ensures node.None? ==> ad == from.ad
      ensures node.Some? ==> node.value in ad && node.value.addr <= chunk && chunk + size <= End(node.value) && JoinedRange(from.ad, chunk, size, node.value)
      ensures node.Some? ==> forall x {:trigger Covered(ad, x)} :: Covered(ad, x) <==> Covered(from.ad, x) || chunk <= x < chunk + size
      ensures AllAligned(from.ad, chunksize) && Multiple(chunk, chunksize) && Multiple(size, chunksize) ==> AllAligned(ad, chunksize)
    {
      hide Covered, Separate, Joining, Multiple;
      from := St();
      var next := AdNsearch(chunk + size);
      var n;
      if next.None? || next.value.addr != chunk + size {
        // The lock is dropped here.
        szad, ad, max, prev := after.szad, after.ad, after.max, after.prev;
        from := after;
        if !nodeOk {
          return None, from;
        }
        next := AdNsearch(chunk + size);
      }
      ghost var t := ad;
      if next.Some? && next.value.addr == chunk + size {
        var f := next.value;
        ExtentSize(ad, f);
        JoinForward(ad, chunk, size, f);
        MultipleSums(f.size, size, chunksize);
        n := Extent(chunk, f.size + size);
        t := ad - {f};
        szad := szad - {f};
        ad := ad - {f} + {n};
        szad := szad + {n};
      } else {
        JoinAlone(ad, chunk, size);
        n := Extent(chunk, size);
        ad := ad + {n};
        szad := szad + {n};
      }
      assert StartsAt(from.ad, chunk + size) <==> (next.Some? && next.value.addr == chunk + size);
      node := CoalesceBackward(n, t);
      JoinedNode(from.ad, t, chunk, size, n, node.value);
    }

    /** The last part of `chunk_dealloc_dss_record`. */
    method CoalesceBackward(n: Extent, ghost t: set<Extent>) returns (node: Option<Extent>)
      requires chunksize > 0 && szad == ad == t + {n} && n !in t && Joining(t, n) && 0 <= base <= max
      requires forall e {:trigger e in ad} :: e in ad ==> base <= e.addr && End(e) <= max
      modifies `szad, `ad
      ensures Valid() && node.Some? && node.value in ad && node.value.addr <= n.addr && End(node.value) == End(n)
      ensures if EndsAt(t, n.addr) then exists p {:trigger p in t} :: p in t && End(p) == n.addr && node.value.addr == p.addr else node.value.addr == n.addr
      ensures forall x {:trigger Covered(ad, x)} :: Covered(ad, x) <==> Covered(t + {n}, x)
      ensures AllAligned(t, chunksize) && AlignedExtent(n, chunksize) ==> AllAligned(ad, chunksize)
    {
      hide Covered, Multiple;
      var before := AdPrev(n.addr);
      if before.Some? && End(before.value) == n.addr {
        var p := before.value;
        assert p in t;
        JoinBackward(t, n, p);
        MultipleSums(n.size, p.size, chunksize);
        var m := Extent(p.addr, n.size + p.size);
        szad := szad - {p};
        ad := ad - {p};
        szad := szad - {n};
        assert ad - {n} == t - {p};
        ad := ad - {n} + {m};
        szad := szad + {m};
        return Some(m);
      }
      if before.Some? {
        assert before.value in t;
        LastReaches(t, n, before.value);
      }
      assert !EndsAt(t, n.addr) by {
        forall p | p in t
          ensures End(p) != n.addr
        {
          JoiningSides(t, n, p);
        }
      }
      NoneBackward(t, n);
      return Some(n);
    }

    /**
      `chunk_dealloc_dss`: false when the range is in the data segment. It is then recorded as free (unless no node could be
      had for it), and when it, or the joined extent, is at the end of the segment and sbrk gives it back, the segment
      shrinks to its start. top is what sbrk(0) returns, shrunk what sbrk(-size) returns.
     */
    method Dealloc(chunk0: int, size0: nat, nodeOk: bool, after: State, top: int, shrunk: int)
        returns (ret: bool, ghost from: State, ghost recorded: bool, ghost released: bool, ghost freed: Extent)
      requires Valid() && size0 > 0 && top >= max
      requires base <= chunk0 < max ==> chunk0 + size0 <= max && Free(ad, chunk0, size0)
      requires base <= chunk0 < max ==> ValidState(after) && after.base == base && chunk0 + size0 <= after.max <= top && Free(after.ad, chunk0, size0)
      modifies `szad, `ad, `max, `prev
      ensures Valid() && (ret <==> !(old(base) <= chunk0 < old(max))) && (ret ==> St() == old(St()))
      ensures !ret ==> from == (if StartsAt(old(ad), chunk0 + size0) then old(St()) else after) && (recorded <==> nodeOk || StartsAt(old(ad), chunk0 + size0))
      ensures !ret ==> if recorded then JoinedRange(from.ad, chunk0, size0, freed) else freed == Extent(chunk0, size0)
      ensures !ret ==> (released <==> End(freed) == top == shrunk)
      ensures !ret ==> max == (if released then freed.addr else top) && prev == if End(freed) == top then shrunk else from.prev
      ensures !ret && recorded ==> forall x {:trigger Covered(ad, x)} ::
        Covered(ad, x) <==> x < max && (Covered(from.ad, x) || chunk0 <= x < chunk0 + size0)
      ensures !ret && !recorded ==> ad == from.ad
      ensures !ret && AllAligned(from.ad, chunksize) && Multiple(chunk0, chunksize) && Multiple(size0, chunksize) ==> AllAligned(ad, chunksize)
    {
      hide Covered, Separate, Free, Multiple;
      from, recorded, released, freed := St(), false, false, Extent(chunk0, size0);
      if !(base <= chunk0 < max) {
        ret := true;
        return;
      }
      ret := false;
      var chunk, size := chunk0, size0;
      var node;
      node, from := Record(chunk, size, nodeOk, after);
      recorded := node.Some?;
      if node.Some? {
        chunk := node.value.addr;
        size := node.value.size;
        freed := node.value;
      }
      CoveredInside(ad, base, max);
      max := top;
      if chunk + size == max {
        prev := shrunk;
        if prev == max {
          released := true;
          max := prev - size;
          if node.Some? {
            TailTaken(ad, node.value, base, top);
            szad := szad - {node.value};
            ad := ad - {node.value};
          } else {
            TailFree(ad, chunk, size, top);
          }
        }
      }
    }
  }

  /** Sums and differences of multiples. */
  lemma MultipleSums(x: int, y: int, d: nat)
    requires d > 0
    ensures Multiple(x, d) && Multiple(y, d) ==> Multiple(x + y, d) && Multiple(x - y, d)
  {
    if Multiple(x, d) && Multiple(y, d) {
      var p, q := x / d, y / d;
      assert x == p * d && y == q * d;
      assert x + y == (p + q) * d && x - y == (p - q) * d;
      MultipleOf(p + q, d);
      MultipleOf(p - q, d);
    }
  }

  /** The padding brings the start to a multiple of the chunk size. */
  lemma AlignedStart(max: int, size: nat, chunksize: nat)
    requires chunksize > 0 && size > 0 && size % chunksize == 0 && 0 <= max
    ensures var incr := size - max % chunksize;
      && (incr == size ==> max % chunksize == 0)
      && (max + incr) % chunksize == 0 && incr > 0
  {
    var q, r := max / chunksize, max % chunksize;
    var k := size / chunksize;
    assert max == q * chunksize + r && size == k * chunksize;
    assert max + size - r == (q + k) * chunksize;
    MultipleOf(q + k, chunksize);
    if k < 1 {
      TimesOrder(0, k, chunksize);
    } else {
      TimesOrder(k, 1, chunksize);
    }
  }

  /** Nothing is free above the end of the segment. */
  lemma AboveIsFree(s: set<Extent>, max: int, start: int, size: nat)
    requires start >= max && forall e {:trigger e in s} :: e in s ==> End(e) <= max
    ensures Free(s, start, size)
  {
  }

  lemma CoveredInside(s: set<Extent>, base: int, max: int)
    requires forall e {:trigger e in s} :: e in s ==> base <= e.addr && End(e) <= max
    ensures forall x {:trigger Covered(s, x)} :: Covered(s, x) ==> base <= x < max
  {
  }

  /** Taking the last extent, at the end of the segment. */
  lemma TailTaken(s: set<Extent>, e: Extent, base: int, top: int)
    requires Separate(s) && e in s && End(e) == top && forall f {:trigger f in s} :: f in s ==> base <= f.addr && End(f) <= top
    ensures Separate(s - {e}) && forall f {:trigger f in s - {e}} :: f in s - {e} ==> base <= f.addr && End(f) <= e.addr
    ensures forall x {:trigger Covered(s - {e}, x)} :: Covered(s - {e}, x) <==> Covered(s, x) && x < e.addr
  {
    TakeWhole(s, e);
    CoveredInside(s, base, top);
    forall f | f in s - {e}
      ensures base <= f.addr && End(f) <= e.addr
    {
      assert f in s && Apart(e, f) && f.size > 0 && e.size > 0;
    }
  }

  /** An unrecorded range at the end of the segment: all extents end before it. */
  lemma TailFree(s: set<Extent>, addr: int, size: nat, top: int)
    requires Separate(s) && Free(s, addr, size) && size > 0 && addr + size == top && forall f {:trigger f in s} :: f in s ==> End(f) <= top
    ensures forall f {:trigger f in s} :: f in s ==> End(f) <= addr
  {
    forall f | f in s
      ensures End(f) <= addr
    {
      FreeSides(s, addr, size, f);
      assert f.size > 0;
    }
  }
}
