/** The bounded sorted list of `rtree.c`: `add_to_list`. */
module BoundedLists {
  /** An entry: a particle and its squared distance. */
  datatype Near = Near(ipar: nat, d2: real)

  ghost predicate SortedList(l: seq<Near>) {
    forall i, j {:trigger l[i], l[j]} :: 0 <= i < j < |l| ==> l[i].d2 <= l[j].d2
  }

  /** The first place whose distance is not below d. */
  function Place(l: seq<Near>, d: real): (ip: nat)
    ensures ip <= |l|
    ensures forall i {:trigger l[i]} :: 0 <= i < ip ==> l[i].d2 < d
    ensures ip < |l| ==> l[ip].d2 >= d
  {
    if l == [] || l[0].d2 >= d then 0 else 1 + Place(l[1..], d)
  }

  /** The list after `add_to_list`: nothing if it is full and the item farther than the last one, else inserted and cut to n. */
  function Added(l: seq<Near>, x: Near, n: nat): (r: seq<Near>)
    requires n > 0 && |l| <= n
    ensures |r| == if |l| < n then |l| + 1 else n
  {
    if |l| == n && x.d2 > l[n - 1].d2 then l
    else
      var ip := Place(l, x.d2);
      var r := l[..ip] + [x] + l[ip..];
      if |l| < n then r else r[..n]
  }

  function AddAll(l: seq<Near>, xs: seq<Near>, n: nat): (r: seq<Near>)
    requires n > 0 && |l| <= n
    ensures |r| <= n
  {
    if xs == [] then l else Added(AddAll(l, xs[..|xs| - 1], n), xs[|xs| - 1], n)
  }

  /** Only what is not nearer than the last of a full list is left out. */
  ghost predicate Nearest(l: seq<Near>, xs: seq<Near>, n: nat) {
    && SortedList(l) && |l| == (if |xs| < n then |xs| else n)
    && (forall x {:trigger x in l} :: x in l ==> x in xs)
    && (forall x {:trigger x in xs} :: x in xs && x !in l ==> |l| == n && n > 0 && l[n - 1].d2 <= x.d2)
  }

  lemma AddedSorted(l: seq<Near>, x: Near, n: nat)
    requires n > 0 && |l| <= n && SortedList(l)
    ensures SortedList(Added(l, x, n))
  {
    var ip := Place(l, x.d2);
    var r := l[..ip] + [x] + l[ip..];
    forall i, j | 0 <= i < j < |r|
      ensures r[i].d2 <= r[j].d2
    {
      assert i < ip ==> r[i] == l[i];
      assert i > ip ==> r[i] == l[i - 1];
      assert j < ip ==> r[j] == l[j];
      assert j > ip ==> r[j] == l[j - 1];
      if i == ip {
        assert l[ip].d2 <= l[j - 1].d2;
      }
    }
  }

  /** What happens to the members when one item is added. */
  lemma AddedMembers(l: seq<Near>, x: Near, n: nat, y: Near)
    requires n > 0 && |l| <= n && SortedList(l)
    ensures var r := Added(l, x, n);
      && (y in r ==> y in l || y == x)
      && (y in l || y == x ==> y in r || (|r| == n && |l| == n && r[n - 1].d2 <= y.d2))
      && (|l| == n ==> r[n - 1].d2 <= l[n - 1].d2)
  {
    if !(|l| == n && x.d2 > l[n - 1].d2) {
      var ip, r := Place(l, x.d2), Added(l, x, n);
      AddedAt(l, x, n, ip);
      hide Added, Place;
      assert r[ip] == x;
      if |l| == n {
        assert r[n - 1].d2 <= l[n - 1].d2;
      }
      if y in l {
        var k :| 0 <= k < |l| && l[k] == y;
        if k < ip {
          assert r[k] == y;
        } else if k + 1 < |r| {
          assert r[k + 1] == y;
        } else {
          assert k == n - 1;
        }
      }
      if y in r {
        var k :| 0 <= k < |r| && r[k] == y;
      }
    }
  }

  /** The list built from the items one by one has the n nearest of them. */
  lemma {:induction false} AddAllNearest(xs: seq<Near>, n: nat)
    requires n > 0
    ensures Nearest(AddAll([], xs, n), xs, n)
  {
    if xs != [] {
      var init, x := xs[..|xs| - 1], xs[|xs| - 1];
      AddAllNearest(init, n);
      var l := AddAll([], init, n);
      var r := Added(l, x, n);
      assert xs == init + [x];
      AddedSorted(l, x, n);
      forall y | y in r
        ensures y in xs
      {
        AddedMembers(l, x, n, y);
      }
      forall y | y in xs && y !in r
        ensures |r| == n && r[n - 1].d2 <= y.d2
      {
        AddedMembers(l, x, n, y);
      }
    }
  }

  ghost predicate DistinctIds(l: seq<Near>) {
    forall i, j {:trigger l[i], l[j]} :: 0 <= i < j < |l| ==> l[i].ipar != l[j].ipar
  }

  lemma AddedDistinct(l: seq<Near>, x: Near, n: nat)
    requires n > 0 && |l| <= n && DistinctIds(l) && forall i {:trigger l[i]} :: 0 <= i < |l| ==> l[i].ipar != x.ipar
    ensures DistinctIds(Added(l, x, n))
  {
    var ip := Place(l, x.d2);
    var r := l[..ip] + [x] + l[ip..];
    forall i, j | 0 <= i < j < |r|
      ensures r[i].ipar != r[j].ipar
    {
      assert i < ip ==> r[i] == l[i];
      assert i > ip ==> r[i] == l[i - 1];
      assert j < ip ==> r[j] == l[j];
      assert j > ip ==> r[j] == l[j - 1];
    }
  }

  /** Distinct items give distinct entries. */
  lemma {:induction false} AddAllDistinct(xs: seq<Near>, n: nat)
    requires n > 0 && DistinctIds(xs)
    ensures DistinctIds(AddAll([], xs, n))
  {
    if xs != [] {
      var init, x := xs[..|xs| - 1], xs[|xs| - 1];
      AddAllDistinct(init, n);
      AddAllNearest(init, n);
      var l := AddAll([], init, n);
      forall i | 0 <= i < |l|
        ensures l[i].ipar != x.ipar
      {
        assert l[i] in l;
        var k :| 0 <= k < |init| && init[k] == l[i];
        assert xs[k] == l[i] && xs[|xs| - 1] == x;
      }
      AddedDistinct(l, x, n);
    }
  }

  /** The two arrays of the caller as one list. */
  ghost function Zip(neighbours: seq<nat>, dist: seq<real>): (l: seq<Near>)
    requires |neighbours| == |dist|
    ensures |l| == |dist| && forall i {:trigger l[i]} :: 0 <= i < |l| ==> l[i] == Near(neighbours[i], dist[i])
  {
    seq(|dist|, i requires 0 <= i < |dist| => Near(neighbours[i], dist[i]))
  }

  /** `add_to_list`. */
  method AddToList(ipar: nat, dd: real, neighbours: array<nat>, dist: array<real>, n: nat, nused: nat) returns (nused': nat)
    requires 0 < n <= neighbours.Length && n <= dist.Length && nused <= n
    modifies neighbours, dist
    ensures nused' <= n && Zip(neighbours[..nused'], dist[..nused']) == Added(old(Zip(neighbours[..nused], dist[..nused])), Near(ipar, dd), n)
  {
    hide Added, Place;
    ghost var l, ids, ds := Zip(neighbours[..nused], dist[..nused]), neighbours[..], dist[..];
    assert forall k {:trigger l[k]} :: 0 <= k < nused ==> l[k] == Near(ids[k], ds[k]);
    if nused == n && dd > dist[n - 1] {
      AddedFull(l, Near(ipar, dd), n);
      return nused;
    }
    var ip := 0;
    while ip < nused && dist[ip] < dd
      invariant 0 <= ip <= nused
      invariant forall i {:trigger l[i]} :: 0 <= i < ip ==> l[i].d2 < dd
    {
      assert l[ip].d2 == dist[ip];
      ip := ip + 1;
    }
    PlaceIs(l, dd, ip);
    assert nused == n ==> l[n - 1].d2 >= dd;
    AddedAt(l, Near(ipar, dd), n, ip);
    var last := if nused < n - 1 then nused else n - 1;
    Shift(neighbours, dist, ip, last);
    dist[ip] := dd;
    neighbours[ip] := ipar;
    nused' := if nused < n then nused + 1 else nused;
    AddedLength(l, Near(ipar, dd), n);
    ghost var r := Added(l, Near(ipar, dd), n);
    forall k | 0 <= k < nused'
      ensures Near(neighbours[k], dist[k]) == r[k]
    {
      if k < ip {
        assert l[k] == Near(ids[k], ds[k]);
      } else if k > ip {
        assert l[k - 1] == Near(ids[k - 1], ds[k - 1]);
      }
    }
    assert Zip(neighbours[..nused'], dist[..nused']) == r;
  }

  /** The loop that moves the entries from ip on one place up, to `last`. */
  method Shift(neighbours: array<nat>, dist: array<real>, ip: nat, last: nat)
    requires ip <= last < neighbours.Length && last < dist.Length
    modifies neighbours, dist
    ensures forall k {:trigger dist[k]} :: 0 <= k < dist.Length ==> dist[k] == if ip < k <= last then old(dist[k - 1]) else old(dist[k])
    ensures forall k {:trigger neighbours[k]} :: 0 <= k < neighbours.Length ==> neighbours[k] == if ip < k <= last then old(neighbours[k - 1]) else old(neighbours[k])
  {
    var i := last;
    while i > ip
      invariant ip <= i <= last
      invariant forall k {:trigger dist[k]} :: 0 <= k < dist.Length ==> dist[k] == if i < k <= last then old(dist[k - 1]) else old(dist[k])
      invariant forall k {:trigger neighbours[k]} :: 0 <= k < neighbours.Length ==> neighbours[k] == if i < k <= last then old(neighbours[k - 1]) else old(neighbours[k])
    {
      dist[i] := dist[i - 1];
      neighbours[i] := neighbours[i - 1];
      i := i - 1;
    }
  }

  lemma AddedFull(l: seq<Near>, x: Near, n: nat)
    requires n > 0 && |l| == n && x.d2 > l[n - 1].d2
    ensures Added(l, x, n) == l
  {
  }

  lemma AddedLength(l: seq<Near>, x: Near, n: nat)
    requires n > 0 && |l| <= n
    ensures |Added(l, x, n)| == if |l| < n then |l| + 1 else n
  {
  }

  lemma {:induction false} PlaceIs(l: seq<Near>, d: real, ip: nat)
    requires ip <= |l| && (forall i {:trigger l[i]} :: 0 <= i < ip ==> l[i].d2 < d) && (ip < |l| ==> l[ip].d2 >= d)
    ensures Place(l, d) == ip
  {
    if ip > 0 {
      PlaceIs(l[1..], d, ip - 1);
    }
  }

  /** The entries of the new list. */
  lemma AddedAt(l: seq<Near>, x: Near, n: nat, ip: nat)
    requires n > 0 && |l| <= n && !(|l| == n && x.d2 > l[n - 1].d2) && ip == Place(l, x.d2)
    ensures ip < n && ip <= |l|
    ensures var r := Added(l, x, n); forall k {:trigger r[k]} :: 0 <= k < |r| ==> r[k] == if k < ip then l[k] else if k == ip then x else l[k - 1]
  {
  }
}
