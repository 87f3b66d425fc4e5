/**
  How the photons of a tick are shared out among its rays, and what the sources
  and the recombination pools have given after any number of ticks.
 */
module Photons {
  // ----- Rays, grouped by where they come from

  /** A source (kind -1), or the pool of a species (kind 0, 1 or 2) in a particle. */
  datatype Key = Key(kind: int, id: nat)

  /** r_t_compare is not positive. */
  predicate Ordered(a: Key, b: Key) {
    a.kind < b.kind || (a.kind == b.kind && a.id <= b.id)
  }

  predicate Sorted(keys: seq<Key>) {
    forall j, k {:trigger keys[j], keys[k]} :: 0 <= j < k < |keys| ==> Ordered(keys[j], keys[k])
  }

  /** How many of the first n rays have this key. */
  function Count(keys: seq<Key>, q: Key, n: nat): (c: nat)
    requires n <= |keys|
    ensures c <= n
  {
    if n == 0 then 0 else Count(keys, q, n - 1) + if keys[n - 1] == q then 1 else 0
  }

  /** The photons in those of the first n rays that have this key. */
  function GroupSum(keys: seq<Key>, nph: seq<real>, q: Key, n: nat): real
    requires n <= |keys| == |nph|
  {
    if n == 0 then 0.0 else GroupSum(keys, nph, q, n - 1) + if keys[n - 1] == q then nph[n - 1] else 0.0
  }

  /** j of the c equal parts of w. */
  function Parts(w: real, c: nat, j: nat): real
    requires c > 0
  {
    w * (j as real / c as real)
  }

  lemma PartsEnds(w: real, c: nat)
    requires c > 0
    ensures Parts(w, c, 0) == 0.0 && Parts(w, c, c) == w
  {
    assert c as real / c as real == 1.0;
    assert 0 as real / c as real == 0.0;
  }

  lemma PartsNext(w: real, c: nat, j: nat)
    requires c > 0
    ensures Parts(w, c, j + 1) == Parts(w, c, j) + Parts(w, c, 1)
  {
    assert (j + 1) as real / c as real == j as real / c as real + 1 as real / c as real;
  }

  lemma PartsOrder(w: real, c: nat, j: nat)
    requires w >= 0.0 && j <= c && c > 0
    ensures 0.0 <= Parts(w, c, j) <= w
  {
    var f := j as real / c as real;
    assert f * c as real == j as real;
    assert 0.0 <= f <= 1.0;
    assert w * f <= w * 1.0;
  }

  lemma {:induction false} CountMonotone(keys: seq<Key>, q: Key, m: nat, n: nat)
    requires m <= n <= |keys|
    ensures Count(keys, q, m) <= Count(keys, q, n)
    decreases n
  {
    if m < n {
      CountMonotone(keys, q, m, n - 1);
    }
  }

  lemma CountPositive(keys: seq<Key>, k: nat)
    requires k < |keys|
    ensures Count(keys, keys[k], |keys|) > 0
  {
    CountMonotone(keys, keys[k], k + 1, |keys|);
  }

  lemma {:induction false} CountAbsent(keys: seq<Key>, q: Key, n: nat)
    requires n <= |keys| && forall k {:trigger keys[k]} :: 0 <= k < n ==> keys[k] != q
    ensures Count(keys, q, n) == 0
  {
    if n > 0 {
      CountAbsent(keys, q, n - 1);
    }
  }

  lemma {:induction false} CountWithin(keys: seq<Key>, q: Key, lo: nat, m: nat, n: nat)
    requires lo <= m <= n <= |keys|
    requires forall k {:trigger keys[k]} :: 0 <= k < n ==> (keys[k] == q <==> lo <= k < m)
    ensures Count(keys, q, n) == m - lo
    decreases n
  {
    if n > 0 {
      CountWithin(keys, q, if lo < n then lo else n - 1, if m < n then m else n - 1, n - 1);
    }
  }

  /** The rays lo..hi are all those with one key. */
  predicate Group(keys: seq<Key>, lo: nat, hi: nat) {
    lo < hi <= |keys| && (forall k {:trigger keys[k]} :: 0 <= k < |keys| ==> (keys[k] == keys[lo] <==> lo <= k < hi))
  }

  lemma RunIsGroup(keys: seq<Key>, lo: nat, hi: nat)
    requires Sorted(keys) && lo < hi <= |keys| && (forall k {:trigger keys[k]} :: lo <= k < hi ==> keys[k] == keys[lo])
    requires (lo > 0 ==> keys[lo - 1] != keys[lo]) && (hi < |keys| ==> keys[hi] != keys[hi - 1])
    ensures Group(keys, lo, hi) && Count(keys, keys[lo], |keys|) == hi - lo
  {
    forall k | 0 <= k < |keys| && !(lo <= k < hi) ensures keys[k] != keys[lo] {
      if k < lo {
        assert k == lo - 1 || Ordered(keys[k], keys[lo - 1]);
        assert Ordered(keys[lo - 1], keys[lo]);
      } else {
        assert k == hi || Ordered(keys[hi], keys[k]);
        assert Ordered(keys[hi - 1], keys[hi]);
      }
    }
    CountWithin(keys, keys[lo], lo, hi, |keys|);
  }

  /** Every ray of a group carries an equal part of what the group has. */
  predicate Shared(keys: seq<Key>, nph: seq<real>, weight: Key -> real) {
    |nph| == |keys| && forall k {:trigger nph[k]} :: 0 <= k < |keys| && Count(keys, keys[k], |keys|) > 0 ==> nph[k] == Parts(weight(keys[k]), Count(keys, keys[k], |keys|), 1)
  }

  lemma {:induction false} SharedSum(keys: seq<Key>, nph: seq<real>, weight: Key -> real, q: Key, n: nat)
    requires Shared(keys, nph, weight) && n <= |keys| && Count(keys, q, |keys|) > 0
    ensures GroupSum(keys, nph, q, n) == Parts(weight(q), Count(keys, q, |keys|), Count(keys, q, n))
  {
    var c := Count(keys, q, |keys|);
    PartsEnds(weight(q), c);
    if n > 0 {
      SharedSum(keys, nph, weight, q, n - 1);
      if keys[n - 1] == q {
        PartsNext(weight(q), c, Count(keys, q, n - 1));
      }
    }
  }

  /** The rays of a sampled source or pool carry exactly what it has. */
  lemma SharedWhole(keys: seq<Key>, nph: seq<real>, weight: Key -> real, q: Key)
    requires Shared(keys, nph, weight)
    ensures GroupSum(keys, nph, q, |keys|) == if q in keys then weight(q) else 0.0
  {
    if q in keys {
      var k :| 0 <= k < |keys| && keys[k] == q;
      CountPositive(keys, k);
      SharedSum(keys, nph, weight, q, |keys|);
      PartsEnds(weight(q), Count(keys, q, |keys|));
    } else {
      NoneSum(keys, nph, q, |keys|);
    }
  }

  lemma {:induction false} NoneSum(keys: seq<Key>, nph: seq<real>, q: Key, n: nat)
    requires n <= |keys| == |nph| && q !in keys
    ensures GroupSum(keys, nph, q, n) == 0.0
  {
    if n > 0 {
      NoneSum(keys, nph, q, n - 1);
    }
  }

  // ----- Splitting the weights

  function Scaled(x: real, f: real): real {
    x * f
  }

  /** Scales the `count` rays before ray i. */
  method ScaleGroup(nph: array<real>, i: nat, count: nat, factor: real)
    requires count <= i <= nph.Length
    modifies nph
    ensures forall k {:trigger nph[k]} :: 0 <= k < nph.Length ==> nph[k] == if i - count <= k < i then Scaled(old(nph[k]), factor) else old(nph[k])
  {
    hide Scaled;
    var left := count;
    while left > 0
      invariant 0 <= left <= count
      invariant forall k {:trigger nph[k]} :: 0 <= k < nph.Length && !(i - count <= k < i - left) ==> nph[k] == old(nph[k])
      invariant forall k {:trigger nph[k]} :: i - count <= k < i - left ==> nph[k] == Scaled(old(nph[k]), factor)
    {
      var p := i - left;
      assert nph[p] == old(nph[p]);
      nph[p] := Scaled(nph[p], factor);
      left := left - 1;
    }
  }

  function Inverse(c: nat): real
    requires c > 0
  {
    1.0 / c as real
  }

  lemma PartIsFactor(w: real, c: nat)
    requires c > 0
    ensures Scaled(w, Inverse(c)) == Parts(w, c, 1)
  {
  }

  /** The run-length pass over the sorted rays, which at first carry the whole weight of their key. */
  method SplitPhotons(keys: seq<Key>, nph: array<real>, ghost weight: Key -> real)
    requires Sorted(keys) && nph.Length == |keys|
    requires forall k {:trigger nph[k]} :: 0 <= k < |keys| ==> nph[k] == weight(keys[k])
    modifies nph
    ensures Shared(keys, nph[..], weight)
  {
    hide Scaled, Inverse, Parts, Count, Sorted;
    if |keys| == 0 {
      return;
    }
    var identical, i := 1, 1;
    while i <= |keys|
      invariant 1 <= i <= |keys| + 1 && (if i <= |keys| then 1 <= identical <= i else identical == 1)
      invariant i <= |keys| ==> RunSoFar(keys, i - identical, i)
      invariant Halfway(keys, nph[..], weight, if i <= |keys| then i - identical else |keys|)
    {
      if i == |keys| || keys[i - 1] != keys[i] {
        ghost var lo, before := i - identical, nph[..];
        RunIsGroup(keys, lo, i);
        ScaleGroup(nph, i, identical, Inverse(identical));
        HalfwayNext(keys, before, nph[..], weight, lo, i);
        identical := 1;
      } else {
        identical := identical + 1;
      }
      i := i + 1;
    }
    assert forall k {:trigger nph[..][k]} :: 0 <= k < |keys| ==> nph[..][k] == nph[k];
  }

  predicate RunSoFar(keys: seq<Key>, lo: nat, i: nat) {
    lo < i <= |keys| && (forall k {:trigger keys[k]} :: lo <= k < i ==> keys[k] == keys[lo]) && (lo > 0 ==> keys[lo - 1] != keys[lo])
  }

  /** The rays before lo carry their part, the others still the whole weight. */
  predicate Halfway(keys: seq<Key>, nph: seq<real>, weight: Key -> real, lo: nat) {
    |nph| == |keys| && lo <= |keys|
    && (forall k {:trigger nph[k]} :: 0 <= k < lo ==> Count(keys, keys[k], |keys|) > 0 && nph[k] == Parts(weight(keys[k]), Count(keys, keys[k], |keys|), 1))
    && (forall k {:trigger nph[k]} :: lo <= k < |keys| ==> nph[k] == weight(keys[k]))
  }

  lemma HalfwayNext(keys: seq<Key>, nph: seq<real>, nph': seq<real>, weight: Key -> real, lo: nat, hi: nat)
    requires Halfway(keys, nph, weight, lo) && Group(keys, lo, hi) && Count(keys, keys[lo], |keys|) == hi - lo && |nph'| == |nph|
    requires forall k {:trigger nph'[k]} :: 0 <= k < |nph| ==> nph'[k] == if lo <= k < hi then Scaled(nph[k], Inverse(hi - lo)) else nph[k]
    ensures Halfway(keys, nph', weight, hi)
  {
    hide Scaled, Inverse, Parts, Count;
    forall k | 0 <= k < hi ensures Count(keys, keys[k], |keys|) > 0 && nph'[k] == Parts(weight(keys[k]), Count(keys, keys[k], |keys|), 1) {
      if lo <= k {
        PartIsFactor(weight(keys[k]), hi - lo);
      }
    }
  }

  // ----- Emission

  function Total(s: seq<real>): real {
    if s == [] then 0.0 else Total(s[..|s| - 1]) + s[|s| - 1]
  }

  lemma {:induction false} TotalUpdate(s: seq<real>, k: nat, v: real)
    requires k < |s|
    ensures Total(s[k := v]) == Total(s) - s[k] + v
  {
    var init := s[..|s| - 1];
    if k < |s| - 1 {
      TotalUpdate(init, k, v);
      assert s[k := v][..|s| - 1] == init[k := v];
    } else {
      assert s[k := v][..|s| - 1] == init;
    }
  }

  /** One tick's draw: the keys of its rays, sorted, and what the pools hold when it begins. */
  datatype Draw = Draw(keys: seq<Key>, pool: map<Key, real>)

  class Emitter {
    /** The luminosity history of each source. */
    const ticks: seq<seq<nat>>
    const dots: seq<seq<real>>
    /** How many atoms of the pool's element a particle has. */
    const atoms: map<Key, real>
    const tickTime: real
    var tick: nat
    var cursor: seq<nat>
    var lastemit: seq<nat>
    var pool: map<Key, real>
    var srcPhotons: real
    /** The photons of each source's rays over all ticks. */
    ghost var emitted: seq<real>

    ghost predicate Valid()
      reads this
    {
      && |dots| == |ticks| == |cursor| == |lastemit| == |emitted|
      && (forall s {:trigger cursor[s]} {:trigger ticks[s]} {:trigger dots[s]} :: 0 <= s < |ticks| ==> |dots[s]| == |ticks[s]| && cursor[s] < |ticks[s]|)
      && (forall s {:trigger lastemit[s]} :: 0 <= s < |ticks| ==> lastemit[s] <= tick)
      && srcPhotons == Total(emitted)
    }

    constructor (ticks: seq<seq<nat>>, dots: seq<seq<real>>, atoms: map<Key, real>, tickTime: real)
      requires |dots| == |ticks| && forall s {:trigger ticks[s]} {:trigger dots[s]} :: 0 <= s < |ticks| ==> |dots[s]| == |ticks[s]| > 0
      ensures Valid() && tick == 0 && this.ticks == ticks && this.dots == dots && this.atoms == atoms && this.tickTime == tickTime
      ensures forall s {:trigger emitted[s]} {:trigger lastemit[s]} :: 0 <= s < |ticks| ==> emitted[s] == 0.0 && lastemit[s] == 0
      ensures AllConstant(Sources())
    {
      this.ticks, this.dots, this.atoms, this.tickTime := ticks, dots, atoms, tickTime;
      tick, pool, srcPhotons := 0, map[], 0.0;
      cursor, lastemit, emitted := seq(|ticks|, _ => 0), seq(|ticks|, _ => 0), seq(|ticks|, _ => 0.0);
      new;
      TotalNone(emitted);
    }

    /** The luminosity of source s never changes, however often its history repeats it. */
    predicate Flat(s: nat)
      requires s < |dots|
    {
      forall c {:trigger dots[s][c]} :: 0 <= c < |dots[s]| ==> dots[s][c] == dots[s][0]
    }

    /** advance_cursor: to the last entry of a run of entries that are due. */
    method AdvanceCursor(s: nat)
      requires s < |cursor| == |ticks| && cursor[s] < |ticks[s]|
      modifies `cursor
      ensures |cursor| == |old(cursor)| && old(cursor)[s] <= cursor[s] < |ticks[s]| && cursor == old(cursor)[s := cursor[s]]
      ensures forall k {:trigger ticks[s][k]} :: old(cursor)[s] < k <= cursor[s] ==> ticks[s][k] <= tick
      ensures cursor[s] + 1 < |ticks[s]| ==> ticks[s][cursor[s] + 1] > tick
      ensures cursor[s] == Advanced(ticks[s], old(cursor)[s], tick)
    {
      while cursor[s] < |ticks[s]| - 1 && ticks[s][cursor[s] + 1] <= tick
        invariant |cursor| == |old(cursor)| && old(cursor)[s] <= cursor[s] < |ticks[s]| && cursor == old(cursor)[s := cursor[s]]
        invariant forall k {:trigger ticks[s][k]} :: old(cursor)[s] < k <= cursor[s] ==> ticks[s][k] <= tick
        invariant Advanced(ticks[s], cursor[s], tick) == Advanced(ticks[s], old(cursor)[s], tick)
        decreases |ticks[s]| - cursor[s]
      {
        cursor := cursor[s := cursor[s] + 1];
      }
    }

    /** What source s gives if it is sampled in this tick. */
    function Due(s: nat): real
      requires s < |dots| == |cursor| == |lastemit| && cursor[s] < |dots[s]|
      reads this
    {
      dots[s][cursor[s]] * (tick - lastemit[s]) as real * tickTime
    }

    /** psystem_weight_srcs. */
    method WeightSources() returns (weights: seq<real>)
      requires Valid()
      modifies `cursor
      ensures Valid() && |weights| == |ticks|
      ensures forall s {:trigger weights[s]} :: 0 <= s < |ticks| ==> weights[s] == Due(s)
      ensures forall s {:trigger cursor[s]} :: 0 <= s < |ticks| ==> old(cursor)[s] <= cursor[s] && (cursor[s] + 1 < |ticks[s]| ==> ticks[s][cursor[s] + 1] > tick)
      ensures forall s {:trigger cursor[s]} :: 0 <= s < |ticks| ==> cursor[s] == Advanced(ticks[s], old(cursor)[s], tick)
    {
      hide Advanced;
      weights := [];
      while |weights| < |ticks|
        invariant Valid() && |weights| <= |ticks|
        invariant forall s {:trigger weights[s]} :: 0 <= s < |weights| ==> weights[s] == Due(s)
        invariant forall s {:trigger cursor[s]} :: 0 <= s < |ticks| ==> cursor[s] == if s < |weights| then Advanced(ticks[s], old(cursor)[s], tick) else old(cursor)[s]
        invariant forall s {:trigger cursor[s]} :: 0 <= s < |ticks| ==> old(cursor)[s] <= cursor[s] && (s < |weights| ==> (cursor[s] + 1 < |ticks[s]| ==> ticks[s][cursor[s] + 1] > tick))
        decreases |ticks| - |weights|
      {
        var s := |weights|;
        ghost var before := cursor;
        AdvanceCursor(s);
        forall t: nat | t < |ticks| && t != s
          ensures cursor[t] == before[t] < |ticks[t]|
        {
        }
        weights := weights + [Due(s)];
      }
    }

    /** The keys of a tick are sorted, and name sources and pools that exist. */
    predicate Fits(d: Draw) {
      && Sorted(d.keys)
      && (forall k {:trigger d.keys[k]} :: 0 <= k < |d.keys| ==> if d.keys[k].kind == -1 then d.keys[k].id < |ticks| else d.keys[k] in d.pool)
      && PoolsOk(d.pool, atoms)
    }

    /** Gives every ray the whole weight of its source or pool. */
    method FillPhotons(keys: seq<Key>, weights: seq<real>) returns (nph: array<real>)
      requires forall k {:trigger keys[k]} :: 0 <= k < |keys| ==> if keys[k].kind == -1 then keys[k].id < |weights| else keys[k] in pool && keys[k] in atoms
      ensures fresh(nph) && nph.Length == |keys|
      ensures forall k {:trigger nph[k]} :: 0 <= k < |keys| ==> nph[k] == WeightOf(weights, pool, atoms)(keys[k])
    {
      nph := new real[|keys|];
      var i := 0;
      while i < |keys|
        invariant i <= |keys|
        invariant forall k {:trigger nph[k]} :: 0 <= k < i ==> nph[k] == WeightOf(weights, pool, atoms)(keys[k])
      {
        nph[i] := if keys[i].kind == -1 then weights[keys[i].id] else Full(pool[keys[i]], atoms[keys[i]]);
        i := i + 1;
      }
    }

    /** Books the photons of ray k. */
    method AccountRay(keys: seq<Key>, nph: seq<real>, k: nat, ghost weights: seq<real>, ghost pool0: map<Key, real>)
      requires Valid() && k < |keys| && Accounting(keys, nph, weights, pool0, k)
      modifies `lastemit, `pool, `srcPhotons, `emitted
      ensures Valid() && Accounting(keys, nph, weights, pool0, k + 1)
      ensures forall s {:trigger lastemit[s]} :: 0 <= s < |ticks| ==> lastemit[s] == if keys[k] == Key(-1, s) then tick else old(lastemit)[s]
      ensures forall s {:trigger emitted[s]} :: 0 <= s < |ticks| ==> emitted[s] == if keys[k] == Key(-1, s) then old(emitted)[s] + nph[k] else old(emitted)[s]
    {
      hide Per, Parts;
      var q := keys[k];
      if q.kind == -1 {
        srcPhotons := srcPhotons + nph[k];
        TotalUpdate(emitted, q.id, emitted[q.id] + nph[k]);
        lastemit, emitted := lastemit[q.id := tick], emitted[q.id := emitted[q.id] + nph[k]];
        forall p {:trigger pool[p]} | p in pool0 ensures pool[p] == Left(pool0[p], Count(keys, p, |keys|), Count(keys, p, k + 1)) {
          assert p != q;
        }
      } else {
        DrawnLeft(keys, nph, weights, pool0, atoms, k);
        var left := pool[q] - Per(nph[k], atoms[q]);
        assert q.kind == 0 ==> left <= 1.0;
        pool := pool[q := if left < 0.0 then 0.0 else left];
        assert pool[q] == Left(pool0[q], Count(keys, q, |keys|), Count(keys, q, k + 1));
      }
    }

    /** After the first k rays: what is left in the pools. */
    ghost predicate Accounting(keys: seq<Key>, nph: seq<real>, weights: seq<real>, pool0: map<Key, real>, k: nat)
      reads `pool
    {
      && k <= |keys| && PoolsOk(pool0, atoms) && Shared(keys, nph, WeightOf(weights, pool0, atoms))
      && (forall j {:trigger keys[j]} :: 0 <= j < |keys| ==> if keys[j].kind == -1 then keys[j].id < |ticks| else keys[j] in pool0)
      && pool.Keys == pool0.Keys
      && (forall q {:trigger pool[q]} :: q in pool0 ==> pool[q] == Left(pool0[q], Count(keys, q, |keys|), Count(keys, q, k)))
    }

    /** Books all rays: sampled sources have given what was due, and sampled pools are empty. */
    method Account(keys: seq<Key>, nph: seq<real>, ghost weights: seq<real>)
      requires Valid() && |weights| == |ticks| && PoolsOk(pool, atoms) && Shared(keys, nph, WeightOf(weights, pool, atoms))
      requires forall j {:trigger keys[j]} :: 0 <= j < |keys| ==> if keys[j].kind == -1 then keys[j].id < |ticks| else keys[j] in pool
      modifies `lastemit, `pool, `srcPhotons, `emitted
      ensures Valid() && pool.Keys == old(pool).Keys
      ensures forall q {:trigger pool[q]} :: q in pool ==> pool[q] == if q in keys then 0.0 else old(pool)[q]
      ensures forall s: nat {:trigger lastemit[s]} :: s < |ticks| ==> lastemit[s] == if Key(-1, s) in keys then tick else old(lastemit)[s]
      ensures forall s: nat {:trigger emitted[s]} :: s < |ticks| ==> emitted[s] == old(emitted)[s] + if Key(-1, s) in keys then weights[s] else 0.0
    {
      hide Per, Parts, Left;
      ghost var pool0, weight := pool, WeightOf(weights, pool, atoms);
      NothingLeft(keys, pool0, 0);
      var k := 0;
      while k < |keys|
        invariant Valid() && k <= |keys| && Accounting(keys, nph, weights, pool0, k)
        invariant forall s: nat {:trigger lastemit[s]} :: s < |ticks| ==> lastemit[s] == if Key(-1, s) in keys[..k] then tick else old(lastemit)[s]
        invariant forall s: nat {:trigger emitted[s]} :: s < |ticks| ==> emitted[s] == old(emitted)[s] + GroupSum(keys, nph, Key(-1, s), k)
      {
        AccountRay(keys, nph, k, weights, pool0);
        assert keys[..k + 1] == keys[..k] + [keys[k]];
        k := k + 1;
      }
      assert keys[..k] == keys;
      NothingLeft(keys, pool0, |keys|);
      forall s: nat | s < |ticks|
        ensures GroupSum(keys, nph, Key(-1, s), |keys|) == if Key(-1, s) in keys then weights[s] else 0.0
      {
        SharedWhole(keys, nph, weight, Key(-1, s));
      }
    }

    /** What a tick does to a source: nothing, or it gives all that was due. */
    ghost predicate Gives(s: nat, sampled: bool, lastemit0: nat, emitted0: real)
      requires s < |dots| == |cursor| == |lastemit| == |emitted| && cursor[s] < |dots[s]|
      reads this
    {
      && lastemit[s] == (if sampled then tick else lastemit0)
      && emitted[s] == emitted0 + if sampled then dots[s][cursor[s]] * (tick - lastemit0) as real * tickTime else 0.0
    }

    /**
      What the rays of a tick carry: those of a source what it gives in this tick, those of a pool all the photons of its
      particle's atoms; those of one source or pool carry the same.
     */
    ghost predicate Shining(d: Draw, rays: seq<real>, emitted0: seq<real>)
      requires |emitted0| == |ticks| == |emitted|
      reads `emitted
    {
      && |rays| == |d.keys|
      && (forall q {:trigger GroupSum(d.keys, rays, q, |d.keys|)} :: q in d.keys && q.kind != -1 ==>
            q in d.pool && q in atoms && GroupSum(d.keys, rays, q, |d.keys|) == d.pool[q] * atoms[q])
      && (forall s: nat {:trigger Key(-1, s)} :: s < |ticks| && Key(-1, s) in d.keys ==> GroupSum(d.keys, rays, Key(-1, s), |d.keys|) == emitted[s] - emitted0[s])
      && (forall j, k {:trigger rays[j], rays[k]} :: 0 <= j < |rays| && 0 <= k < |rays| && d.keys[j] == d.keys[k] ==> rays[j] == rays[k])
    }

    lemma RaysShine(d: Draw, rays: seq<real>, weights: seq<real>, emitted0: seq<real>)
      requires Fits(d) && |weights| == |ticks| == |emitted0| == |emitted| && Shared(d.keys, rays, WeightOf(weights, d.pool, atoms))
      requires forall s: nat {:trigger emitted[s]} :: s < |ticks| ==> emitted[s] == emitted0[s] + if Key(-1, s) in d.keys then weights[s] else 0.0
      ensures Shining(d, rays, emitted0)
    {
      hide Sorted;
      var weight := WeightOf(weights, d.pool, atoms);
      forall q | q in d.keys && q.kind != -1
        ensures q in d.pool && q in atoms && GroupSum(d.keys, rays, q, |d.keys|) == d.pool[q] * atoms[q]
      {
        SharedWhole(d.keys, rays, weight, q);
      }
      forall s: nat | s < |ticks| && Key(-1, s) in d.keys
        ensures GroupSum(d.keys, rays, Key(-1, s), |d.keys|) == emitted[s] - emitted0[s]
      {
        SharedWhole(d.keys, rays, weight, Key(-1, s));
      }
      forall j, k | 0 <= j < |rays| && 0 <= k < |rays| && d.keys[j] == d.keys[k]
        ensures rays[j] == rays[k]
      {
        CountPositive(d.keys, j);
      }
    }

    /** The bookkeeping of one tick: emit_rays, with the rays it draws. */
    method Step(d: Draw) returns (ghost rays: seq<real>)
      requires Valid() && Fits(d)
      modifies `tick, `cursor, `lastemit, `pool, `srcPhotons, `emitted
      ensures Valid() && tick == old(tick) + 1 && pool.Keys == d.pool.Keys
      ensures forall q {:trigger pool[q]} :: q in pool ==> pool[q] == if q in d.keys then 0.0 else d.pool[q]
      ensures forall s: nat {:trigger cursor[s]} :: s < |ticks| ==> old(cursor)[s] <= cursor[s] && (cursor[s] + 1 < |ticks[s]| ==> ticks[s][cursor[s] + 1] > tick)
      ensures forall s: nat {:trigger cursor[s]} :: s < |ticks| ==> cursor[s] == Advanced(ticks[s], old(cursor)[s], tick)
      ensures forall s: nat {:trigger emitted[s]} {:trigger lastemit[s]} :: s < |ticks| ==> Gives(s, Key(-1, s) in d.keys, old(lastemit)[s], old(emitted)[s])
      ensures Shining(d, rays, old(emitted))
    {
      hide Shining;
      tick := tick + 1;
      pool := d.pool;
      var weights := WeightSources();
      var nph := FillPhotons(d.keys, weights);
      SplitPhotons(d.keys, nph, WeightOf(weights, pool, atoms));
      rays := nph[..];
      Account(d.keys, nph[..], weights);
      RaysShine(d, rays, weights, old(emitted));
      forall s: nat | s < |ticks|
        ensures Gives(s, Key(-1, s) in d.keys, old(lastemit)[s], old(emitted)[s])
      {
        assert lastemit[s] == if Key(-1, s) in d.keys then tick else old(lastemit)[s];
        assert emitted[s] == old(emitted)[s] + if Key(-1, s) in d.keys then weights[s] else 0.0;
      }
    }

    /** The state of each source. */
    ghost function Sources(): (r: seq<SourceState>)
      requires |cursor| == |lastemit| == |emitted|
      reads `cursor, `lastemit, `emitted
      ensures |r| == |cursor| && forall s {:trigger r[s]} :: 0 <= s < |r| ==> r[s] == SourceState(cursor[s], lastemit[s], emitted[s])
    {
      StatesOf(cursor, lastemit, emitted)
    }

    /** Every source is in the state that n ticks after tick0 lead to; see `AfterTicks`. */
    ghost predicate Follow(now: seq<SourceState>, st0: seq<SourceState>, tick0: nat, draws: seq<Draw>, n: nat)
      requires n <= |draws|
    {
      && |now| == |st0| == |ticks| == |dots|
      && forall s: nat {:trigger now[s]} {:trigger st0[s]} :: s < |ticks| ==> |ticks[s]| == |dots[s]| && st0[s].cursor < |ticks[s]| && now[s] == AfterTicks(ticks[s], dots[s], tickTime, st0[s], tick0, draws, Key(-1, s), n)
    }

    /** Every source of constant luminosity has given its luminosity times the time up to its last emission. */
    ghost predicate AllConstant(now: seq<SourceState>) {
      |now| == |dots| && forall s: nat {:trigger now[s]} :: s < |now| && |dots[s]| > 0 && Flat(s) ==> now[s].emitted == dots[s][0] * now[s].lastemit as real * tickTime
    }

    /** What one tick does to the state of a source. */
    ghost predicate Ticked(s: nat, before: SourceState, after: SourceState, now: nat, sampled: bool)
      requires s < |ticks| == |dots|
    {
      && before.cursor < |ticks[s]| == |dots[s]| && after.cursor == Advanced(ticks[s], before.cursor, now) && before.lastemit <= now
      && after.lastemit == (if sampled then now else before.lastemit)
      && after.emitted == before.emitted + if sampled then dots[s][after.cursor] * (now - before.lastemit) as real * tickTime else 0.0
    }

    /** One tick of every source extends the account of the ticks before it. */
    lemma FollowNext(now: seq<SourceState>, next: seq<SourceState>, st0: seq<SourceState>, tick0: nat, draws: seq<Draw>, n: nat)
      requires n < |draws| && Follow(now, st0, tick0, draws, n) && |next| == |now|
      requires forall s: nat {:trigger next[s]} :: s < |next| ==> Ticked(s, now[s], next[s], tick0 + n + 1, Key(-1, s) in draws[n].keys)
      ensures Follow(next, st0, tick0, draws, n + 1)
    {
      hide AfterTicks, Advanced;
      forall s: nat | s < |ticks|
        ensures |ticks[s]| == |dots[s]| && st0[s].cursor < |ticks[s]| && next[s] == AfterTicks(ticks[s], dots[s], tickTime, st0[s], tick0, draws, Key(-1, s), n + 1)
      {
        assert now[s] == AfterTicks(ticks[s], dots[s], tickTime, st0[s], tick0, draws, Key(-1, s), n);
        NextTick(ticks[s], dots[s], tickTime, st0[s], tick0, draws, Key(-1, s), n);
      }
    }

    /** A tick keeps sources of constant luminosity at their luminosity times the time, whether they were sampled or not. */
    lemma ConstantNextAll(now: seq<SourceState>, next: seq<SourceState>, tick1: nat, keys: seq<Key>)
      requires AllConstant(now) && |next| == |now| == |ticks| == |dots|
      requires forall s: nat {:trigger next[s]} :: s < |next| ==> Ticked(s, now[s], next[s], tick1, Key(-1, s) in keys)
      ensures AllConstant(next)
    {
      hide Advanced;
      forall s: nat | s < |next| && |dots[s]| > 0 && Flat(s)
        ensures next[s].emitted == dots[s][0] * next[s].lastemit as real * tickTime
      {
        assert now[s].emitted == dots[s][0] * now[s].lastemit as real * tickTime;
        assert Ticked(s, now[s], next[s], tick1, Key(-1, s) in keys);
        assert dots[s][next[s].cursor] == dots[s][0];
        ConstantNext(dots[s][0], now[s].lastemit, tick1, tickTime);
      }
    }

    /** One tick, in terms of the sources' states. */
    method Tick(d: Draw)
      requires Valid() && Fits(d)
      modifies `tick, `cursor, `lastemit, `pool, `srcPhotons, `emitted
      ensures Valid() && tick == old(tick) + 1
      ensures forall s: nat {:trigger Sources()[s]} :: s < |ticks| ==> Ticked(s, old(Sources()[s]), Sources()[s], tick, Key(-1, s) in d.keys)
    {
      hide Advanced, Fits, PoolsOk, Shining;
      ghost var was, cursor0, lastemit0, emitted0 := Sources(), cursor, lastemit, emitted;
      ghost var rays := Step(d);
      forall s: nat | s < |ticks|
        ensures Ticked(s, was[s], Sources()[s], tick, Key(-1, s) in d.keys)
      {
        assert Gives(s, Key(-1, s) in d.keys, lastemit0[s], emitted0[s]);
        assert cursor0[s] < |ticks[s]| && lastemit0[s] <= tick;
      }
    }

    /**
      run_epoch, as far as photons are concerned: a source gives, at every tick at which it is sampled, its luminosity at
      that tick times the time since it was last sampled; if its luminosity never changes, that is in all the luminosity
      times the time up to the last tick at which it was sampled.
     */
    method RunEpoch(draws: seq<Draw>)
      requires Valid() && forall i {:trigger draws[i]} :: 0 <= i < |draws| ==> Fits(draws[i])
      modifies `tick, `cursor, `lastemit, `pool, `srcPhotons, `emitted
      ensures Valid() && tick == old(tick) + |draws|
      ensures Follow(Sources(), old(Sources()), old(tick), draws, |draws|)
      ensures old(AllConstant(Sources())) ==> AllConstant(Sources())
    {
      hide Follow, AllConstant, Ticked, Fits;
      StartFollows(draws);
      var i := 0;
      while i < |draws|
        invariant Valid() && i <= |draws| && tick == old(tick) + i
        invariant Follow(Sources(), old(Sources()), old(tick), draws, i)
        invariant old(AllConstant(Sources())) ==> AllConstant(Sources())
      {
        ghost var now := Sources();
        Tick(draws[i]);
        FollowNext(now, Sources(), old(Sources()), old(tick), draws, i);
        if AllConstant(now) {
          ConstantNextAll(now, Sources(), tick, draws[i].keys);
        }
        i := i + 1;
      }
    }

    lemma StartFollows(draws: seq<Draw>)
      requires Valid()
      ensures Follow(Sources(), Sources(), tick, draws, 0)
    {
    }
  }

  // ----- The law of one source

  /** The entry of a luminosity history that is used at a tick, coming from entry c. */
  function Advanced(ticks: seq<nat>, c: nat, tick: nat): (d: nat)
    requires c < |ticks|
    ensures c <= d < |ticks|
    decreases |ticks| - c
  {
    if c + 1 < |ticks| && ticks[c + 1] <= tick then Advanced(ticks, c + 1, tick) else c
  }

  datatype SourceState = SourceState(cursor: nat, lastemit: nat, emitted: real)

  ghost function StatesOf(cursor: seq<nat>, lastemit: seq<nat>, emitted: seq<real>): (r: seq<SourceState>)
    requires |cursor| == |lastemit| == |emitted|
    ensures |r| == |cursor| && forall s {:trigger r[s]} :: 0 <= s < |r| ==> r[s] == SourceState(cursor[s], lastemit[s], emitted[s])
  {
    seq(|cursor|, s requires 0 <= s < |cursor| => SourceState(cursor[s], lastemit[s], emitted[s]))
  }

  /**
    A source after n ticks from tick0 on: whenever q is among the keys of a tick, the luminosity of that tick times the
    time since the last such tick is added to what was emitted.
   */
  ghost function AfterTicks(ticks: seq<nat>, dots: seq<real>, time: real, st: SourceState, tick0: nat, draws: seq<Draw>, q: Key, n: nat): (r: SourceState)
    requires n <= |draws| && |ticks| == |dots| && st.cursor < |ticks|
    ensures r.cursor < |ticks|
  {
    if n == 0 then st else
      var before, now := AfterTicks(ticks, dots, time, st, tick0, draws, q, n - 1), tick0 + n;
      var c := Advanced(ticks, before.cursor, now);
      if q in draws[n - 1].keys then SourceState(c, now, before.emitted + dots[c] * (now - before.lastemit) as real * time)
      else SourceState(c, before.lastemit, before.emitted)
  }

  lemma NextTick(ticks: seq<nat>, dots: seq<real>, time: real, st: SourceState, tick0: nat, draws: seq<Draw>, q: Key, n: nat)
    requires n < |draws| && |ticks| == |dots| && st.cursor < |ticks|
    ensures var before, now := AfterTicks(ticks, dots, time, st, tick0, draws, q, n), tick0 + n + 1;
      var c := Advanced(ticks, before.cursor, now);
      AfterTicks(ticks, dots, time, st, tick0, draws, q, n + 1) ==
      if q in draws[n].keys then SourceState(c, now, before.emitted + dots[c] * (now - before.lastemit) as real * time) else SourceState(c, before.lastemit, before.emitted)
  {
    hide Advanced;
  }

  lemma ConstantNext(rate: real, last: nat, now: nat, time: real)
    ensures rate * last as real * time + rate * (now - last) as real * time == rate * now as real * time
  {
    var a, b := last as real, (now - last) as real;
    assert rate * a + rate * b == rate * (a + b);
    assert rate * a * time + rate * b * time == (rate * a + rate * b) * time;
  }

  /** The photons of a source or of a pool at the start of a tick. */
  function WeightOf(weights: seq<real>, pool: map<Key, real>, atoms: map<Key, real>): Key -> real {
    (q: Key) => if q.kind == -1 then (if q.id < |weights| then weights[q.id] else 0.0) else if q in pool && q in atoms then Full(pool[q], atoms[q]) else 0.0
  }

  predicate PoolsOk(pool: map<Key, real>, atoms: map<Key, real>) {
    forall q {:trigger pool[q]} :: q in pool ==> q.kind != -1 && q in atoms && atoms[q] > 0.0 && pool[q] >= 0.0 && (q.kind == 0 ==> pool[q] <= 1.0)
  }

  /** What is left of y after j of its c equal parts were taken. */
  function Left(y: real, c: nat, j: nat): real {
    if c == 0 then y else y - Parts(y, c, j)
  }

  /** The photons of a pool that holds y per atom. */
  function Full(y: real, a: real): real {
    y * a
  }

  function Per(x: real, a: real): real
    requires a > 0.0
  {
    x / a
  }

  lemma PartOver(y: real, a: real, c: nat)
    requires a > 0.0 && c > 0
    ensures Per(Parts(Full(y, a), c, 1), a) == Parts(y, c, 1)
  {
    var f := 1 as real / c as real;
    assert y * a * f == (y * f) * a;
    assert (y * f) * a / a == y * f;
  }

  /** Ray k takes the next part of its pool, and not more than is left. */
  lemma DrawnLeft(keys: seq<Key>, nph: seq<real>, weights: seq<real>, pool0: map<Key, real>, atoms: map<Key, real>, k: nat)
    requires k < |keys| && keys[k] in pool0 && PoolsOk(pool0, atoms) && Shared(keys, nph, WeightOf(weights, pool0, atoms))
    ensures var q := keys[k]; var c, j := Count(keys, q, |keys|), Count(keys, q, k);
      && Left(pool0[q], c, j) - Per(nph[k], atoms[q]) == Left(pool0[q], c, j + 1)
      && 0.0 <= Left(pool0[q], c, j + 1) <= pool0[q] && Count(keys, q, k + 1) == j + 1
  {
    hide Parts, Per, Full, Sorted;
    var q := keys[k];
    var c, j := Count(keys, q, |keys|), Count(keys, q, k);
    CountPositive(keys, k);
    CountMonotone(keys, q, k + 1, |keys|);
    assert WeightOf(weights, pool0, atoms)(q) == Full(pool0[q], atoms[q]);
    assert nph[k] == Parts(Full(pool0[q], atoms[q]), c, 1);
    PartOver(pool0[q], atoms[q], c);
    PartsNext(pool0[q], c, j);
    PartsOrder(pool0[q], c, j + 1);
  }

  lemma NothingLeft(keys: seq<Key>, pool0: map<Key, real>, k: nat)
    requires k <= |keys|
    ensures forall q {:trigger pool0[q]} :: q in pool0 ==> Left(pool0[q], Count(keys, q, |keys|), 0) == pool0[q]
    ensures forall q {:trigger pool0[q]} :: q in pool0 ==> Left(pool0[q], Count(keys, q, |keys|), Count(keys, q, |keys|)) == if q in keys then 0.0 else pool0[q]
  {
    forall q | q in pool0
      ensures Left(pool0[q], Count(keys, q, |keys|), 0) == pool0[q]
      ensures Left(pool0[q], Count(keys, q, |keys|), Count(keys, q, |keys|)) == if q in keys then 0.0 else pool0[q]
    {
      if q in keys {
        var j :| 0 <= j < |keys| && keys[j] == q;
        CountPositive(keys, j);
      } else {
        CountAbsent(keys, q, |keys|);
      }
      if Count(keys, q, |keys|) > 0 {
        PartsEnds(pool0[q], Count(keys, q, |keys|));
      }
    }
  }

  lemma {:induction false} TotalNone(s: seq<real>)
    requires forall k {:trigger s[k]} :: 0 <= k < |s| ==> s[k] == 0.0
    ensures Total(s) == 0.0
  {
    if s != [] {
      TotalNone(s[..|s| - 1]);
    }
  }
}
