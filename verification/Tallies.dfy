/** Finite sums over the values of a map. */
module Tallies {
  ghost function Tally(m: map<nat, nat>): nat {
    if m == map[] then 0 else
      var k :| k in m;
      m[k] + Tally(m - {k})
  }

  lemma {:induction false} TallyRemove(m: map<nat, nat>, k: nat)
    requires k in m
    ensures Tally(m) == m[k] + Tally(m - {k})
    decreases |m|
  {
    var k0 :| k0 in m && Tally(m) == m[k0] + Tally(m - {k0});
    if k0 != k {
      TallyRemove(m - {k0}, k);
      TallyRemove(m - {k}, k0);
      assert m - {k0} - {k} == m - {k} - {k0};
    }
  }

  lemma {:induction false} TallyZero(m: map<nat, nat>)
    requires forall k :: k in m ==> m[k] == 0
    ensures Tally(m) == 0
    decreases |m|
  {
    if m != map[] {
      var k :| k in m;
      TallyRemove(m, k);
      TallyZero(m - {k});
    }
  }

  lemma TallyUpdate(m: map<nat, nat>, k: nat, v: nat)
    ensures Tally(m[k := v]) == Tally(m) - (if k in m then m[k] else 0) + v
  {
    TallyRemove(m[k := v], k);
    assert m[k := v] - {k} == m - {k};
    if k in m {
      TallyRemove(m, k);
    } else {
      assert m - {k} == m;
    }
  }
}
