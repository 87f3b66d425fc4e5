/** Cells, buckets and the map that a table of `ckh.c` stands for. */
module CuckooTables {
  import opened Numbers

  /** A cell is free when its key is NULL. */
  datatype Cell<K, V> = Free | Used(key: K, data: V)

  /** 2^LG_CKH_BUCKET_CELLS, with 64-bit pointers and cache lines of 64 bytes. */
  const LG_CELLS := 2
  const CELLS := 4

  /** The two buckets that the hashes of a key indicate. */
  function Bucket1<K>(hash: (K, nat) -> (nat, nat), lg: nat, key: K): (b: nat)
    ensures b < Pow2(lg)
  {
    hash(key, lg).0 % Pow2(lg)
  }

  function Bucket2<K>(hash: (K, nat) -> (nat, nat), lg: nat, key: K): (b: nat)
    ensures b < Pow2(lg)
  {
    hash(key, lg).1 % Pow2(lg)
  }

  predicate InHome<K>(hash: (K, nat) -> (nat, nat), lg: nat, key: K, bucket: int) {
    bucket == Bucket1(hash, lg, key) || bucket == Bucket2(hash, lg, key)
  }

  /** The table stores exactly the map: `where` is the one cell of each key. */
  ghost predicate Stores<K, V>(tab: seq<Cell<K, V>>, contents: map<K, V>, where: map<K, nat>) {
    && where.Keys == contents.Keys
    && (forall k {:trigger where[k]} {:trigger contents[k]} :: k in contents ==> where[k] < |tab| && tab[where[k]] == Used(k, contents[k]))
    && (forall i {:trigger tab[i]} :: 0 <= i < |tab| && tab[i].Used? ==> tab[i].key in where && where[tab[i].key] == i)
  }

  /** Every key is in one of its two buckets. */
  ghost predicate Placed<K, V>(hash: (K, nat) -> (nat, nat), lg: nat, tab: seq<Cell<K, V>>) {
    forall i {:trigger tab[i]} :: 0 <= i < |tab| && tab[i].Used? ==> InHome(hash, lg, tab[i].key, i / CELLS)
  }

  predicate BucketFull<K, V>(tab: seq<Cell<K, V>>, bucket: nat)
    requires CELLS * bucket + CELLS <= |tab|
  {
    forall i {:trigger tab[i]} :: CELLS * bucket <= i < CELLS * bucket + CELLS ==> tab[i].Used?
  }

  predicate HasFree<K, V>(tab: seq<Cell<K, V>>, bucket: nat) {
    CELLS * bucket + CELLS <= |tab| && !BucketFull(tab, bucket)
  }

  /** A full bucket has as many items as cells. */
  lemma FullHolds<K, V>(tab: seq<Cell<K, V>>, contents: map<K, V>, where: map<K, nat>, bucket: nat)
    requires Stores(tab, contents, where) && CELLS * bucket + CELLS <= |tab| && BucketFull(tab, bucket)
    ensures |contents| >= CELLS
  {
    var b := CELLS * bucket;
    var ks := {tab[b].key, tab[b + 1].key, tab[b + 2].key, tab[b + 3].key};
    assert where[tab[b].key] == b && where[tab[b + 1].key] == b + 1 && where[tab[b + 2].key] == b + 2 && where[tab[b + 3].key] == b + 3;
    assert |ks| == 4 && ks <= contents.Keys;
    assert contents.Keys == ks + (contents.Keys - ks);
  }

  /** Filling a cell of a full bucket anew leaves all full buckets full. */
  lemma FullStays<K, V>(tab: seq<Cell<K, V>>, i: nat, key: K, data: V, bucket: nat)
    requires i < |tab| && CELLS * bucket + CELLS <= |tab| && BucketFull(tab, bucket)
    ensures BucketFull(tab[i := Used(key, data)], bucket)
  {
  }

  lemma StoredAt<K, V>(tab: seq<Cell<K, V>>, contents: map<K, V>, where: map<K, nat>, i: nat)
    requires Stores(tab, contents, where) && i < |tab| && tab[i].Used?
    ensures tab[i].key in contents && tab[i].key in where && where[tab[i].key] == i && where.Keys == contents.Keys
  {
  }

  lemma PutFree<K, V>(tab: seq<Cell<K, V>>, contents: map<K, V>, where: map<K, nat>, i: nat, key: K, data: V)
    requires Stores(tab, contents, where) && i < |tab| && tab[i].Free? && key !in contents
    ensures Stores(tab[i := Used(key, data)], contents[key := data], where[key := i])
  {
  }

  /** Evicting the item of a cell by another one. */
  lemma Evict<K, V>(tab: seq<Cell<K, V>>, contents: map<K, V>, where: map<K, nat>, i: nat, key: K, data: V)
    requires Stores(tab, contents, where) && i < |tab| && tab[i].Used? && key !in contents
    ensures var out := tab[i].key;
      && out in contents && tab[i].data == contents[out] && out != key
      && Stores(tab[i := Used(key, data)], (contents - {out})[key := data], (where - {out})[key := i])
      && out !in (contents - {out})[key := data]
      && (contents - {out})[key := data][out := tab[i].data] == contents[key := data]
      && |(contents - {out})[key := data]| == |contents|
  {
    var out := tab[i].key;
    assert where[out] == i;
    SizeMinus(contents, out);
    var rest := contents - {out};
    SizePlus(rest, key, data);
  }

  lemma Clear<K, V>(tab: seq<Cell<K, V>>, contents: map<K, V>, where: map<K, nat>, i: nat)
    requires Stores(tab, contents, where) && i < |tab| && tab[i].Used?
    ensures Stores(tab[i := Free], contents - {tab[i].key}, where - {tab[i].key})
    ensures tab[i].key in contents && |contents - {tab[i].key}| == |contents| - 1
  {
    var out := tab[i].key;
    assert where[out] == i;
    SizeMinus(contents, out);
  }

  lemma SizeMinus<K, V>(m: map<K, V>, k: K)
    requires k in m
    ensures |m - {k}| == |m| - 1
  {
    assert (m - {k}).Keys == m.Keys - {k};
  }

  lemma SizePlus<K, V>(m: map<K, V>, k: K, v: V)
    requires k !in m
    ensures |m[k := v]| == |m| + 1
  {
    assert m[k := v].Keys == m.Keys + {k};
  }

  lemma PlacedPut<K, V>(hash: (K, nat) -> (nat, nat), lg: nat, tab: seq<Cell<K, V>>, i: nat, key: K, data: V, bucket: nat)
    requires Placed(hash, lg, tab) && i < |tab| && InHome(hash, lg, key, bucket) && CELLS * bucket <= i < CELLS * bucket + CELLS
    ensures Placed(hash, lg, tab[i := Used(key, data)])
  {
    assert i / CELLS == bucket;
  }

  lemma PlacedClear<K, V>(hash: (K, nat) -> (nat, nat), lg: nat, tab: seq<Cell<K, V>>, i: nat)
    requires Placed(hash, lg, tab) && i < |tab|
    ensures Placed(hash, lg, tab[i := Free])
  {
  }

  /** The part of a map whose keys are in the first i cells. */
  ghost predicate UpTo<K, V>(part: map<K, V>, contents: map<K, V>, where: map<K, nat>, i: nat)
    requires where.Keys == contents.Keys
  {
    && (forall k {:trigger k in part} :: k in part ==> k in contents && part[k] == contents[k] && where[k] < i)
    && (forall k {:trigger k in contents} :: k in contents && where[k] < i ==> k in part)
  }

  lemma UpToNext<K, V>(tab: seq<Cell<K, V>>, part: map<K, V>, contents: map<K, V>, where: map<K, nat>, i: nat)
    requires Stores(tab, contents, where) && UpTo(part, contents, where, i) && i < |tab|
    ensures tab[i].Free? ==> UpTo(part, contents, where, i + 1)
    ensures tab[i].Used? ==> tab[i].key !in part && UpTo(part[tab[i].key := tab[i].data], contents, where, i + 1)
  {
    if tab[i].Free? {
      forall k | k in contents && where[k] < i + 1
        ensures k in part
      {
        assert tab[where[k]] == Used(k, contents[k]);
      }
    } else {
      var key := tab[i].key;
      assert where[key] == i && tab[where[key]] == Used(key, contents[key]);
      forall k | k in contents && where[k] < i + 1
        ensures k == key || k in part
      {
        assert tab[where[k]] == Used(k, contents[k]);
      }
    }
  }

  lemma UpToAll<K, V>(tab: seq<Cell<K, V>>, part: map<K, V>, contents: map<K, V>, where: map<K, nat>, i: nat)
    requires Stores(tab, contents, where) && UpTo(part, contents, where, i)
    ensures |part| <= |contents|
    ensures |part| == |contents| ==> part == contents
    ensures i >= |tab| ==> part == contents
  {
    assert part.Keys <= contents.Keys;
    assert contents.Keys == part.Keys + (contents.Keys - part.Keys);
    assert part.Keys == contents.Keys ==> part == contents;
  }
}

/** The cuckoo hash table of `ckh.c`. */
module Cuckoo {
  import opened Options
  import opened Numbers
  import opened CuckooTables

  /** CKH_A, CKH_C and the modulus of the generator. */
  const CKH_A := 1103515241
  const CKH_C := 12347
  const PRN_MODULUS := 0x1_0000_0000

  /** Running stands for an eviction chain that is still going on when the given patience is used up. */
  datatype Outcome = Inserted | Cycle | Running
  datatype GrowOutcome = Grown | NoMemory | StillRunning
  datatype InsertOutcome<K, V> = Done | OutOfMemory(lostKey: K, lostData: V) | Unfinished

  class Table<K(==), V> {
    const hash: (K, nat) -> (nat, nat)
    const lgMin: nat
    var tab: array<Cell<K, V>>
    var lgCur: nat
    var count: nat
    var prn: nat
    ghost var contents: map<K, V>
    ghost var where: map<K, nat>

    /** The table represents the map `contents`. */
    ghost predicate Valid()
      reads this, tab
    {
      && tab.Length == CELLS * Pow2(lgCur) && lgMin <= lgCur && prn < PRN_MODULUS
      && Stores(tab[..], contents, where) && Placed(hash, lgCur, tab[..]) && count == |contents|
    }

    constructor Make(hash: (K, nat) -> (nat, nat), lgBuckets: nat)
      ensures Valid() && fresh(tab) && contents == map[] && lgCur == lgMin == lgBuckets && this.hash == hash
    {
      this.hash := hash;
      lgMin, lgCur := lgBuckets, lgBuckets;
      tab := new Cell<K, V>[CELLS * Pow2(lgBuckets)](_ => Free);
      count, prn := 0, 42;
      contents, where := map[], map[];
    }

    /**
      `ckh_new`: room for minitems at a load of at most three quarters.
      A table of 2^n cells can be allocated when n <= limit.
     */
    static method New(minitems: nat, hash: (K, nat) -> (nat, nat), limit: nat) returns (ckh: Table?<K, V>)
      requires minitems > 0
      ensures ckh != null ==> fresh(ckh) && fresh(ckh.tab) && ckh.Valid() && ckh.contents == map[] && ckh.lgMin == ckh.lgCur && ckh.hash == hash
      ensures ckh != null ==> 4 * minitems <= 3 * ckh.tab.Length
      ensures ckh != null ==> ckh.lgMin == 0 || Pow2(ckh.lgMin - 1 + LG_CELLS) < 4 * (minitems / 3 + 1)
      ensures ckh == null <==> limit < LG_CELLS || Pow2(limit) < 4 * (minitems / 3 + 1)
    {
      hide Stores, Placed, Pow2;
      var lg := MinCells(minitems);
      PowersOrder(lg, limit);
      if lg > limit {
        return null;
      }
      ckh := new Table.Make(hash, lg - LG_CELLS);
      TimesCells(lg - LG_CELLS);
    }

    /** prn32 with lg_range LG_CKH_BUCKET_CELLS. */
    method Draw() returns (r: nat)
      modifies `prn
      ensures r < CELLS && prn < PRN_MODULUS
    {
      prn := (prn * CKH_A + CKH_C) % PRN_MODULUS;
      r := prn / 0x4000_0000;
    }

    /** `ckh_bucket_search`; -1 stands for SIZE_T_MAX. */
    method BucketSearch(bucket: nat, key: K) returns (cell: int)
      requires CELLS * bucket + CELLS <= tab.Length
      ensures cell == -1 || CELLS * bucket <= cell < CELLS * bucket + CELLS
      ensures cell >= 0 ==> tab[cell].Used? && tab[cell].key == key
      ensures cell == -1 ==> forall i {:trigger tab[i]} :: CELLS * bucket <= i < CELLS * bucket + CELLS ==> !(tab[i].Used? && tab[i].key == key)
    {
      for i := 0 to CELLS
        invariant forall j {:trigger tab[j]} :: CELLS * bucket <= j < CELLS * bucket + i ==> !(tab[j].Used? && tab[j].key == key)
      {
        if tab[CELLS * bucket + i].Used? && tab[CELLS * bucket + i].key == key {
          return CELLS * bucket + i;
        }
      }
      return -1;
    }

    /** `ckh_isearch` finds the cell of a key that is in the map, and only then. */
    method ISearch(key: K) returns (cell: int)
      requires Valid()
      ensures cell == -1 <==> key !in contents
      ensures key in contents ==> cell == where[key] && 0 <= cell < tab.Length && tab[cell] == Used(key, contents[key])
    {
      cell := BucketSearch(Bucket1(hash, lgCur, key), key);
      if cell == -1 {
        cell := BucketSearch(Bucket2(hash, lgCur, key), key);
      }
      if key in contents {
        var w := where[key];
        assert tab[..][w] == Used(key, contents[key]) && InHome(hash, lgCur, key, w / CELLS);
        assert CELLS * (w / CELLS) <= w < CELLS * (w / CELLS) + CELLS;
      }
      if cell != -1 {
        assert tab[..][cell].Used? && tab[..][cell].key == key;
      }
    }

    /** Filling a free cell of a bucket. */
    method Put(c: nat, key: K, data: V, ghost bucket: nat)
      requires Valid() && key !in contents && InHome(hash, lgCur, key, bucket)
      requires c < tab.Length && CELLS * bucket <= c < CELLS * bucket + CELLS && tab[c].Free?
      modifies `count, `contents, `where, tab
      ensures Valid() && contents == old(contents)[key := data] && where == old(where)[key := c]
    {
      hide Stores, Placed, InHome, Pow2;
      PutFree(tab[..], contents, where, c, key, data);
      PlacedPut(hash, lgCur, tab[..], c, key, data, bucket);
      SizePlus(contents, key, data);
      ghost var before := tab[..];
      tab[c] := Used(key, data);
      assert tab[..] == before[c := Used(key, data)];
      count := count + 1;
      contents, where := contents[key := data], where[key := c];
    }

    /** Swapping the item in hand with that of a used cell. */
    method Swap(c: nat, key: K, data: V, ghost bucket: nat) returns (out: K, outData: V)
      requires Valid() && key !in contents && InHome(hash, lgCur, key, bucket)
      requires c < tab.Length && CELLS * bucket <= c < CELLS * bucket + CELLS && tab[c].Used?
      modifies `contents, `where, tab
      ensures Valid() && InHome(hash, lgCur, out, bucket) && tab[..] == old(tab[..])[c := Used(key, data)]
      ensures out !in contents && contents[out := outData] == old(contents)[key := data]
      ensures out in old(contents) && out in old(where) && old(where)[out] == c && where == (old(where) - {out})[key := c] && contents == (old(contents) - {out})[key := data]
    {
      hide Stores, InHome, Pow2;
      StoredAt(tab[..], contents, where, c);
      Evict(tab[..], contents, where, c, key, data);
      PlacedPut(hash, lgCur, tab[..], c, key, data, bucket);
      assert InHome(hash, lgCur, tab[..][c].key, c / CELLS);
      assert c / CELLS == bucket;
      ghost var before := tab[..];
      out, outData := tab[c].key, tab[c].data;
      tab[c] := Used(key, data);
      assert tab[..] == before[c := Used(key, data)];
      contents, where := (contents - {out})[key := data], (where - {out})[key := c];
    }

    /** `ckh_try_bucket_insert`: true when the bucket is full. */
    method TryBucketInsert(bucket: nat, key: K, data: V) returns (full: bool)
      requires Valid() && key !in contents && InHome(hash, lgCur, key, bucket)
      modifies `count, `prn, `contents, `where, tab
      ensures Valid()
      ensures full ==> contents == old(contents) && where == old(where) && tab[..] == old(tab[..]) && count == old(count)
      ensures full ==> CELLS * bucket + CELLS <= tab.Length && BucketFull(tab[..], bucket)
      ensures !full ==> contents == old(contents)[key := data] && HasFree(old(tab[..]), bucket)
    {
      hide Stores, Placed, Pow2;
      BucketInTable(hash, lgCur, key, bucket);
      hide InHome, BucketFull, HasFree;
      var offset := Draw();
      for i := 0 to CELLS
        invariant Valid() && tab[..] == old(tab[..]) && contents == old(contents) && where == old(where) && count == old(count)
        invariant Tried(tab[..], bucket, offset, i)
      {
        var k := (i + offset) % CELLS;
        if tab[CELLS * bucket + k].Free? {
          FreeAt(tab[..], bucket, k);
          Put(CELLS * bucket + k, key, data, bucket);
          return false;
        }
        assert TriedAt(tab[..], bucket, offset, i);
      }
      AllTried(tab[..], bucket, offset);
      return true;
    }

    /** One turn of the eviction: the item in hand replaces a random one of the bucket, whose other bucket comes next. */
    method EvictOne(bucket: nat, key: K, data: V) returns (out: K, outData: V, tbucket: nat)
      requires Valid() && key !in contents && InHome(hash, lgCur, key, bucket)
      requires CELLS * bucket + CELLS <= tab.Length && BucketFull(tab[..], bucket)
      modifies `prn, `contents, `where, tab
      ensures Valid() && out !in contents && contents[out := outData] == old(contents)[key := data] && InHome(hash, lgCur, out, tbucket)
      ensures out in old(contents) && out in old(where) && old(where)[out] / CELLS == bucket && contents == (old(contents) - {out})[key := data]
      ensures {Bucket1(hash, lgCur, out), Bucket2(hash, lgCur, out)} == {bucket, tbucket}
      ensures forall b: nat {:trigger BucketFull(tab[..], b)} :: CELLS * b + CELLS <= tab.Length && BucketFull(old(tab[..]), b) ==> BucketFull(tab[..], b)
      ensures key in where && where[key] / CELLS == bucket && forall k {:trigger where[k]} :: k != out && k in old(where) && k != key ==> k in where && where[k] == old(where)[k]
    {
      hide Stores, Placed, Pow2, Bucket1, Bucket2, BucketFull;
      var i := Draw();
      FullAt(tab[..], bucket, i);
      assert (CELLS * bucket + i) / CELLS == bucket;
      out, outData := Swap(CELLS * bucket + i, key, data, bucket);
      forall b: nat | CELLS * b + CELLS <= tab.Length && BucketFull(old(tab[..]), b)
        ensures BucketFull(tab[..], b)
      {
        FullStays(old(tab[..]), CELLS * bucket + i, key, data, b);
      }
      tbucket := Bucket2(hash, lgCur, out);
      if tbucket == bucket {
        tbucket := Bucket1(hash, lgCur, out);
      }
    }

    /**
      `ckh_evict_reloc_insert`: whatever is evicted and relocated, the table and the item in hand together
      always hold the old contents and the new item. The new item itself is never evicted again, so a chain that
      comes back to its bucket ends with an old item in hand; in a table of one bucket that is after the first turn.
     */
    method EvictRelocInsert(argbucket: nat, argkey: K, argdata: V, patience: nat) returns (r: Outcome, key: K, data: V)
      requires Valid() && argkey !in contents && InHome(hash, lgCur, argkey, argbucket)
      requires CELLS * argbucket + CELLS <= tab.Length && BucketFull(tab[..], argbucket)
      modifies `count, `prn, `contents, `where, tab
      ensures Valid()
      ensures r.Inserted? ==> contents == old(contents)[argkey := argdata]
      ensures !r.Inserted? ==> key !in contents && contents[key := data] == old(contents)[argkey := argdata] && count == old(count)
      ensures r.Cycle? ==> key in old(contents) && !HasRoom(key)
      ensures lgCur == 0 && patience > 0 ==> r.Cycle?
    {
      OneBucket(hash, lgCur);
      assert lgCur == 0 ==> argbucket == 0;
      hide Stores, Placed, Pow2, Bucket1, Bucket2, BucketFull;
      var bucket := argbucket;
      key, data := argkey, argdata;
      for turn := 0 to patience
        invariant Valid() && key !in contents && InHome(hash, lgCur, key, bucket)
        invariant CELLS * bucket + CELLS <= tab.Length && BucketFull(tab[..], bucket) && BucketFull(tab[..], argbucket)
        invariant contents[key := data] == old(contents)[argkey := argdata] && count == old(count)
        invariant turn == 0 ==> key == argkey && bucket == argbucket
        invariant turn > 0 ==> bucket != argbucket && lgCur != 0 && argkey in contents && argkey in where && where[argkey] / CELLS == argbucket
      {
        var tbucket;
        key, data, tbucket := EvictOne(bucket, key, data);
        assert argkey in contents && key != argkey;
        assert key in old(contents)[argkey := argdata];
        if tbucket == argbucket {
          NoRoomThere(hash, lgCur, tab[..], key, bucket, tbucket);
          return Cycle, key, data;
        }
        bucket := tbucket;
        var full := TryBucketInsert(bucket, key, data);
        if !full {
          return Inserted, key, data;
        }
      }
      return Running, key, data;
    }

    /** One of the two buckets of the key has a free cell. */
    predicate HasRoom(key: K)
      reads this, tab
    {
      HasFree(tab[..], Bucket1(hash, lgCur, key)) || HasFree(tab[..], Bucket2(hash, lgCur, key))
    }

    /** `ckh_try_insert`. */
    method TryInsert(argkey: K, argdata: V, patience: nat) returns (r: Outcome, key: K, data: V)
      requires Valid() && argkey !in contents
      modifies `count, `prn, `contents, `where, tab
      ensures Valid()
      ensures r.Inserted? ==> contents == old(contents)[argkey := argdata]
      ensures !r.Inserted? ==> key !in contents && contents[key := data] == old(contents)[argkey := argdata] && count == old(count)
      ensures r.Cycle? ==> key in old(contents) && !HasRoom(key)
      ensures old(HasRoom(argkey)) ==> r.Inserted?
      ensures old(!HasRoom(argkey)) && lgCur == 0 && patience > 0 ==> r.Cycle?
    {
      hide Stores, Placed, Pow2, BucketFull;
      var full := TryBucketInsert(Bucket1(hash, lgCur, argkey), argkey, argdata);
      if !full {
        return Inserted, argkey, argdata;
      }
      full := TryBucketInsert(Bucket2(hash, lgCur, argkey), argkey, argdata);
      if !full {
        return Inserted, argkey, argdata;
      }
      r, key, data := EvictRelocInsert(Bucket2(hash, lgCur, argkey), argkey, argdata, patience);
    }

    lemma RoomForFew(key: K)
      requires Valid() && |contents| < CELLS
      ensures HasRoom(key)
    {
      hide Placed, Pow2;
      BucketInTable(hash, lgCur, key, Bucket1(hash, lgCur, key));
      if BucketFull(tab[..], Bucket1(hash, lgCur, key)) {
        FullHolds(tab[..], contents, where, Bucket1(hash, lgCur, key));
      }
    }

    /** `ckh_rebuild`: all items of the old table go into the new one, which is empty. */
    method Rebuild(aTab: array<Cell<K, V>>, ghost items: map<K, V>, ghost at: map<K, nat>, patience: nat) returns (r: Outcome)
      requires aTab != tab && Stores(aTab[..], items, at) && count == |items|
      requires tab.Length == CELLS * Pow2(lgCur) && lgMin <= lgCur && prn < PRN_MODULUS && forall i :: 0 <= i < tab.Length ==> tab[i].Free?
      modifies `count, `prn, `contents, `where, tab
      ensures r.Inserted? ==> Valid() && contents == items
      ensures r.Cycle? ==> count == old(count) && prn < PRN_MODULUS
      ensures |items| <= CELLS ==> r.Inserted?
    {
      var before := count;
      count := 0;
      contents, where := map[], map[];
      var i, nins := 0, 0;
      while nins < before
        invariant 0 <= i <= aTab.Length && Valid() && nins == count <= before && UpTo(contents, items, at, i)
        invariant aTab[..] == old(aTab[..])
        decreases aTab.Length - i
      {
        UpToAll(aTab[..], contents, items, at, i);
        UpToNext(aTab[..], contents, items, at, i);
        if aTab[i].Used? {
          ghost var part := contents;
          if |items| <= CELLS {
            RoomForFew(aTab[i].key);
          }
          var outcome, k, d := TryInsert(aTab[i].key, aTab[i].data, patience);
          if !outcome.Inserted? {
            count := before;
            return outcome;
          }
          SizePlus(part, aTab[i].key, aTab[i].data);
          nins := nins + 1;
        }
        i := i + 1;
      }
      UpToAll(aTab[..], contents, items, at, i);
      return Inserted;
    }

    /** `ckh_grow`: doubles the table until a rebuild succeeds; when memory runs out the old table is back unchanged. */
    method Grow(limit: nat, patience: nat) returns (r: GrowOutcome)
      requires Valid()
      modifies this, tab
      ensures r.Grown? ==> Valid() && fresh(tab) && contents == old(contents) && old(lgCur) < lgCur && lgCur + LG_CELLS <= limit
      ensures old(lgCur) + LG_CELLS + 1 > limit ==> r.NoMemory?
      ensures old(count) <= CELLS && old(lgCur) + LG_CELLS + 1 <= limit ==> r.Grown? && lgCur == old(lgCur) + 1
      ensures r.NoMemory? ==> Valid() && tab == old(tab) && tab[..] == old(tab[..]) && contents == old(contents) && lgCur == old(lgCur) && count == old(count)
    {
      hide Stores, Placed, Pow2;
      var lgPrev := lgCur;
      ghost var items, at := contents, where;
      var lgCells := lgCur + LG_CELLS;
      while true
        invariant lgCells >= lgPrev + LG_CELLS && (lgCells > lgPrev + LG_CELLS ==> lgCells <= limit) && lgPrev == lgCur == old(lgCur) && tab == old(tab) && tab[..] == old(tab[..])
        invariant contents == items && where == at && count == old(count) && Valid()
        invariant old(count) <= CELLS ==> lgCells == lgPrev + LG_CELLS
        decreases limit - lgCells
      {
        lgCells := lgCells + 1;
        if lgCells > limit {
          return NoMemory;
        }
        var fresh_ := new Cell<K, V>[CELLS * Pow2(lgCells - LG_CELLS)](_ => Free);
        var saved := tab;
        tab := fresh_;
        lgCur := lgCells - LG_CELLS;
        var outcome := Rebuild(saved, items, at, patience);
        if outcome.Inserted? {
          return Grown;
        }
        if outcome.Running? {
          return StillRunning;
        }
        tab := saved;
        lgCur := lgPrev;
        contents, where := items, at;
      }
    }

    /** `ckh_shrink`: halves the table, or leaves the old one as it was. */
    method Shrink(limit: nat, patience: nat) returns (finished: bool)
      requires Valid() && lgCur > lgMin
      modifies this, tab
      ensures finished ==> Valid() && contents == old(contents) && (tab == old(tab) || fresh(tab))
      ensures old(lgCur) + LG_CELLS - 1 > limit ==> finished && tab == old(tab)
      ensures old(count) <= CELLS && old(lgCur) + LG_CELLS - 1 <= limit ==> finished && lgCur == old(lgCur) - 1
      ensures finished ==> lgCur == old(lgCur) - 1 || (lgCur == old(lgCur) && tab == old(tab) && tab[..] == old(tab[..]))
    {
      hide Stores, Placed, Pow2;
      var lgPrev := lgCur;
      ghost var items, at := contents, where;
      var lgCells := lgCur + LG_CELLS - 1;
      if lgCells > limit {
        return true;
      }
      var fresh_ := new Cell<K, V>[CELLS * Pow2(lgCells - LG_CELLS)](_ => Free);
      var saved := tab;
      tab := fresh_;
      lgCur := lgCells - LG_CELLS;
      var outcome := Rebuild(saved, items, at, patience);
      if outcome.Inserted? {
        return true;
      }
      if outcome.Running? {
        return false;
      }
      tab := saved;
      lgCur := lgPrev;
      contents, where := items, at;
      return true;
    }

    /**
      `ckh_insert` updates the map, and always does when a bucket of the key has a free cell. When the table cannot grow
      any more, the item then in hand is lost. The map is as it was only if that is the new item; if there was no room
      to grow to begin with, it is an old one. An item is lost only when neither of its buckets has a free cell.
     */
    method Insert(argkey: K, argdata: V, limit: nat, patience: nat) returns (r: InsertOutcome<K, V>)
      requires Valid() && argkey !in contents
      modifies this, tab
      ensures r.Done? ==> Valid() && contents == old(contents)[argkey := argdata]
      ensures r.OutOfMemory? ==> Valid() && r.lostKey !in contents && contents[r.lostKey := r.lostData] == old(contents)[argkey := argdata]
      ensures r.OutOfMemory? ==> (contents == old(contents) <==> r.lostKey == argkey) && !HasRoom(r.lostKey)
      ensures old(HasRoom(argkey)) ==> r.Done? && tab == old(tab) && lgCur == old(lgCur)
      ensures old(lgCur) + LG_CELLS + 1 > limit && r.OutOfMemory? ==> r.lostKey in old(contents)
      ensures old(lgCur) + LG_CELLS + 1 > limit && old(!HasRoom(argkey)) && old(lgCur) == 0 && patience > 0 ==> r.OutOfMemory?
      ensures !r.Unfinished? ==> tab == old(tab) || fresh(tab)
    {
      hide Stores, Placed, Pow2, BucketFull, HasFree;
      var key, data := argkey, argdata;
      var outcome: Outcome;
      outcome, key, data := TryInsert(key, data, patience);
      while outcome.Cycle?
        invariant Valid() && (tab == old(tab) || fresh(tab))
        invariant outcome.Inserted? ==> contents == old(contents)[argkey := argdata]
        invariant outcome.Cycle? ==> key !in contents && contents[key := data] == old(contents)[argkey := argdata] && !HasRoom(key)
        invariant old(HasRoom(argkey)) ==> outcome.Inserted? && tab == old(tab) && lgCur == old(lgCur)
        invariant old(lgCur) + LG_CELLS + 1 > limit ==> lgCur == old(lgCur) && (outcome.Cycle? ==> key in old(contents))
        invariant old(lgCur) + LG_CELLS + 1 > limit && old(!HasRoom(argkey)) && old(lgCur) == 0 && patience > 0 ==> outcome.Cycle?
        decreases limit - lgCur, if outcome.Cycle? then 1 else 0
      {
        var grown := Grow(limit, patience);
        if grown.NoMemory? {
          LostItem(old(contents), contents, argkey, argdata, key, data);
          return OutOfMemory(key, data);
        }
        if grown.StillRunning? {
          return Unfinished;
        }
        outcome, key, data := TryInsert(key, data, patience);
      }
      if outcome.Running? {
        return Unfinished;
      }
      return Done;
    }

    /** Freeing a used cell. */
    method Empty(cell: nat)
      requires Valid() && cell < tab.Length && tab[cell].Used?
      modifies `count, `contents, `where, tab
      ensures Valid() && contents == old(contents) - {old(tab[cell].key)} && count == old(count) - 1
    {
      hide Stores, Placed, Pow2;
      ghost var before, key := tab[..], tab[cell].key;
      Clear(before, contents, where, cell);
      PlacedClear(hash, lgCur, before, cell);
      tab[cell] := Free;
      assert tab[..] == before[cell := Free];
      contents, where := contents - {key}, where - {key};
      count := count - 1;
    }

    /** `ckh_remove` deletes a key from the map; failing to shrink is not an error. */
    method Remove(key: K, limit: nat, patience: nat) returns (removed: Option<V>, finished: bool)
      requires Valid()
      modifies this, tab
      ensures removed.Some? <==> key in old(contents)
      ensures removed.Some? ==> removed.value == old(contents)[key]
      ensures finished ==> Valid() && contents == old(contents) - {key} && (tab == old(tab) || fresh(tab))
      ensures key !in old(contents) ==> finished && tab == old(tab) && tab[..] == old(tab[..])
      ensures key in old(contents) && !(old(count) <= Pow2(old(lgCur) + LG_CELLS - 2) && old(lgCur) > lgMin) ==> finished && tab == old(tab) && lgCur == old(lgCur)
      ensures key in old(contents) && old(count) <= Pow2(old(lgCur) + LG_CELLS - 2) && old(lgCur) > lgMin && old(count) <= CELLS + 1 && old(lgCur) + LG_CELLS - 1 <= limit ==>
        finished && lgCur == old(lgCur) - 1
    {
      hide Stores, Placed, Pow2;
      var cell := ISearch(key);
      if cell == -1 {
        assert contents - {key} == contents;
        return None, true;
      }
      removed := Some(tab[cell].data);
      Empty(cell);
      finished := true;
      if count < Pow2(lgCur + LG_CELLS - 2) && lgCur > lgMin {
        finished := Shrink(limit, patience);
      }
    }

    /** `ckh_search` looks a key up in the map. */
    method Search(key: K) returns (found: Option<V>)
      requires Valid()
      ensures found == if key in contents then Some(contents[key]) else None
    {
      var cell := ISearch(key);
      if cell == -1 {
        return None;
      }
      return Some(tab[cell].data);
    }

    /** `ckh_iter`: the next item from cell start on; each key of the map is met at its own cell. */
    method Iter(start: nat) returns (item: Option<(K, V)>, tabind: nat)
      requires Valid() && start <= tab.Length
      ensures item.None? ==> forall k {:trigger where[k]} :: k in contents ==> where[k] < start
      ensures item.Some? ==> item.value.0 in contents && contents[item.value.0] == item.value.1
      ensures item.Some? ==> start < tabind <= tab.Length && where[item.value.0] == tabind - 1
      ensures item.Some? ==> forall k {:trigger where[k]} :: k in contents && where[k] >= start ==> where[k] >= tabind - 1
    {
      for i := start to tab.Length
        invariant forall k {:trigger where[k]} :: k in contents && where[k] >= start ==> where[k] >= i
      {
        if tab[i].Used? {
          assert tab[..][i].Used?;
          return Some((tab[i].key, tab[i].data)), i + 1;
        }
        forall k | k in contents && where[k] >= start
          ensures where[k] >= i + 1
        {
          assert tab[..][where[k]] == Used(k, contents[k]);
        }
      }
      return None, tab.Length;
    }
  }

  /** One of the two maps lacks the new item, the other one the lost item. */
  lemma LostItem<K, V>(was: map<K, V>, now: map<K, V>, key: K, data: V, lost: K, lostData: V)
    requires key !in was && lost !in now && now[lost := lostData] == was[key := data]
    ensures now == was <==> lost == key
  {
    if lost == key {
      forall k
        ensures k in now <==> k in was
        ensures k in now ==> now[k] == was[k]
      {
        if k != key {
          assert k in now[lost := lostData] <==> k in was[key := data];
          if k in now {
            assert now[lost := lostData][k] == was[key := data][k];
          }
        }
      }
    } else {
      assert key in was[key := data] && key in now;
    }
  }

  lemma NoRoomThere<K, V>(hash: (K, nat) -> (nat, nat), lg: nat, tab: seq<Cell<K, V>>, key: K, a: nat, b: nat)
    requires {Bucket1(hash, lg, key), Bucket2(hash, lg, key)} == {a, b}
    requires CELLS * a + CELLS <= |tab| && BucketFull(tab, a) && CELLS * b + CELLS <= |tab| && BucketFull(tab, b)
    ensures !HasFree(tab, Bucket1(hash, lg, key)) && !HasFree(tab, Bucket2(hash, lg, key))
  {
    hide BucketFull, Bucket1, Bucket2;
    assert Bucket1(hash, lg, key) in {a, b} && Bucket2(hash, lg, key) in {a, b};
  }

  /** With lg 0 there is only bucket 0. */
  lemma OneBucket<K>(hash: (K, nat) -> (nat, nat), lg: nat)
    ensures lg == 0 ==> forall key {:trigger Bucket1(hash, lg, key)} {:trigger Bucket2(hash, lg, key)} :: Bucket1(hash, lg, key) == 0 == Bucket2(hash, lg, key)
  {
  }

  lemma TimesCells(lg: nat)
    ensures Pow2(lg + LG_CELLS) == CELLS * Pow2(lg)
  {
    assert Pow2(lg + 2) == 2 * Pow2(lg + 1);
  }

  lemma BucketInTable<K>(hash: (K, nat) -> (nat, nat), lg: nat, key: K, bucket: nat)
    requires InHome(hash, lg, key, bucket)
    ensures CELLS * bucket + CELLS <= CELLS * Pow2(lg)
  {
  }

  lemma FullAt<K, V>(tab: seq<Cell<K, V>>, bucket: nat, i: nat)
    requires CELLS * bucket + CELLS <= |tab| && BucketFull(tab, bucket) && i < CELLS
    ensures tab[CELLS * bucket + i].Used?
  {
  }

  lemma FreeAt<K, V>(tab: seq<Cell<K, V>>, bucket: nat, i: nat)
    requires CELLS * bucket + CELLS <= |tab| && i < CELLS && tab[CELLS * bucket + i].Free?
    ensures HasFree(tab, bucket)
  {
  }

  predicate TriedAt<K, V>(tab: seq<Cell<K, V>>, bucket: nat, offset: nat, j: nat)
    requires CELLS * bucket + CELLS <= |tab|
  {
    tab[CELLS * bucket + (j + offset) % CELLS].Used?
  }

  /** The first n cells of a bucket, counted from the random offset on, are used. */
  predicate Tried<K, V>(tab: seq<Cell<K, V>>, bucket: nat, offset: nat, n: nat)
    requires CELLS * bucket + CELLS <= |tab|
  {
    forall j: nat {:trigger TriedAt(tab, bucket, offset, j)} :: j < n ==> TriedAt(tab, bucket, offset, j)
  }

  lemma AllTried<K, V>(tab: seq<Cell<K, V>>, bucket: nat, offset: nat)
    requires CELLS * bucket + CELLS <= |tab| && offset < CELLS && Tried(tab, bucket, offset, CELLS)
    ensures BucketFull(tab, bucket)
  {
    forall i | CELLS * bucket <= i < CELLS * bucket + CELLS
      ensures tab[i].Used?
    {
      var k := i - CELLS * bucket;
      var j := (k + CELLS - offset) % CELLS;
      assert (j + offset) % CELLS == k;
      assert TriedAt(tab, bucket, offset, j);
    }
  }

  /** A load of at most three quarters for this many items. */
  function LeastCells(minitems: nat): nat {
    (minitems + (3 - minitems % 3)) / 3 * 4
  }

  lemma LeastCellsEnough(minitems: nat)
    ensures 4 * minitems <= 3 * LeastCells(minitems) && LeastCells(minitems) == 4 * (minitems / 3 + 1)
  {
  }

  lemma PowersOrder(lg: nat, limit: nat)
    ensures lg <= limit ==> Pow2(lg) <= Pow2(limit)
    ensures limit < lg ==> Pow2(limit) <= Pow2(lg - 1)
  {
    PowersGrow(lg, limit);
    if lg > 0 {
      PowersGrow(limit, lg - 1);
    }
  }

  lemma {:induction false} PowersGrow(a: nat, b: nat)
    ensures a <= b ==> Pow2(a) <= Pow2(b)
  {
    if a < b {
      PowersGrow(a, b - 1);
    }
  }

  /** The table size that `ckh_new` starts with. */
  method MinCells(minitems: nat) returns (lg: nat)
    requires minitems > 0
    ensures lg >= LG_CELLS && 4 * minitems <= 3 * Pow2(lg) && 4 * (minitems / 3 + 1) <= Pow2(lg)
    ensures lg > LG_CELLS ==> Pow2(lg - 1) < 4 * (minitems / 3 + 1)
  {
    hide LeastCells;
    var mincells := LeastCells(minitems);
    LeastCellsEnough(minitems);
    lg := LG_CELLS;
    while Pow2(lg) < mincells
      invariant lg >= LG_CELLS && (lg > LG_CELLS ==> Pow2(lg - 1) < mincells)
      decreases mincells - Pow2(lg)
    {
      lg := lg + 1;
    }
  }

  // ----- An insertion that loses another key

  /** A table of one bucket with the keys below n. */
  ghost predicate FirstKeys(t: Table<nat, nat>, n: nat)
    reads t, t.tab
  {
    t.Valid() && t.lgCur == 0 && forall k: nat {:trigger k in t.contents} :: k in t.contents <==> k < n
  }

  lemma BucketFills(t: Table<nat, nat>, n: nat)
    requires FirstKeys(t, n) && n <= CELLS
    ensures forall key {:trigger t.HasRoom(key)} :: t.HasRoom(key) <==> n < CELLS
  {
    var tab := t.tab[..];
    OneBucket(t.hash, 0);
    assert Pow2(0) == 1;
    if n == CELLS {
      assert 0 in t.contents && 1 in t.contents && 2 in t.contents && 3 in t.contents;
      var a, b, c, d := t.where[0], t.where[1], t.where[2], t.where[3];
      assert tab[a].Used? && tab[a].key == 0 && tab[b].Used? && tab[b].key == 1 && tab[c].Used? && tab[c].key == 2 && tab[d].Used? && tab[d].key == 3;
      forall i | 0 <= i < CELLS
        ensures tab[i].Used?
      {
        assert i == a || i == b || i == c || i == d;
      }
    } else if BucketFull(tab, 0) {
      FullHasFour(t, n);
    }
  }

  lemma FullHasFour(t: Table<nat, nat>, n: nat)
    requires FirstKeys(t, n) && t.tab.Length == CELLS && BucketFull(t.tab[..], 0)
    ensures n >= CELLS
  {
    var tab := t.tab[..];
    assert tab[0].Used? && tab[1].Used? && tab[2].Used? && tab[3].Used?;
    assert tab[0].key < n && tab[1].key < n && tab[2].key < n && tab[3].key < n;
  }

  /** A full table of one bucket. */
  method FillBucket() returns (t: Table<nat, nat>)
    ensures fresh(t) && fresh(t.tab) && FirstKeys(t, CELLS)
  {
    hide Stores, Placed, Pow2, FirstKeys, HasFree;
    t := new Table.Make((key, lg) => (0, 0), 0);
    assert FirstKeys(t, 0) by { ShowFirst(t, 0); }
    for n := 0 to CELLS
      invariant FirstKeys(t, n) && fresh(t) && fresh(t.tab)
    {
      IsFirst(t, n);
      BucketFills(t, n);
      var r := t.Insert(n, n, LG_CELLS, 1);
      ShowFirst(t, n + 1);
    }
  }

  /** Five keys with the same hash, and no memory for more than one bucket: the fifth goes in, and one of the others is gone. */
  method LoseKey() returns (t: Table<nat, nat>, lost: nat, ghost was: map<nat, nat>)
    ensures t.Valid() && was.Keys == {0, 1, 2, 3}
    ensures lost in was && t.contents == was[4 := 4] - {lost}
  {
    hide Stores, Placed, Pow2, FirstKeys, HasFree;
    t := FillBucket();
    IsFirst(t, CELLS);
    BucketFills(t, CELLS);
    assert !t.HasRoom(4);
    was := t.contents;
    assert forall k: nat {:trigger k in was} :: k in was <==> k < 4;
    var r := t.Insert(4, 4, LG_CELLS, 1);
    lost := r.lostKey;
  }

  lemma IsFirst(t: Table<nat, nat>, n: nat)
    requires FirstKeys(t, n)
    ensures t.Valid() && t.lgCur == 0 && forall k: nat {:trigger k in t.contents} :: k in t.contents <==> k < n
  {
  }

  lemma ShowFirst(t: Table<nat, nat>, n: nat)
    requires t.Valid() && t.lgCur == 0 && forall k: nat {:trigger k in t.contents} :: k in t.contents <==> k < n
    ensures FirstKeys(t, n)
  {
  }
}
