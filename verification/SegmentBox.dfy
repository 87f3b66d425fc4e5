/**
  The eight-class segment/box test `pluecker_`, over exact reals, and the fact
  that it decides whether the segment meets the closed box.
 */
module SegmentBox {
  /** A point or direction in space. */
  datatype Vec3 = Vec3(x: real, y: real, z: real)

  /** One call of prodsub and the comparison after it: fail when f1*g1 < f2*g2 or f1*g3 > f2*g4. */
  predicate CrossOk(f1: real, f2: real, g1: real, g2: real, g3: real, g4: real) {
    !(f1 * g1 < f2 * g2 || f1 * g3 > f2 * g4)
  }

  /** pluecker_: direction, length, and the box corners relative to the start. */
  predicate Pluecker(dir: Vec3, dist: real, b: Vec3, t: Vec3) {
    var et := Vec3(t.x - dist * dir.x, t.y - dist * dir.y, t.z - dist * dir.z);
    var eb := Vec3(b.x - dist * dir.x, b.y - dist * dir.y, b.z - dist * dir.z);
    var class_ := (if dir.x > 0.0 then 1 else 0) + (if dir.y > 0.0 then 2 else 0) + (if dir.z > 0.0 then 4 else 0);
    match class_
    case 0 =>
      && !(b.x > 0.0 || b.y > 0.0 || b.z > 0.0) && !(et.x < 0.0 || et.y < 0.0 || et.z < 0.0)
      && CrossOk(dir.x, dir.y, b.y, t.x, t.y, b.x)
      && CrossOk(dir.x, dir.z, b.z, t.x, t.z, b.x)
      && CrossOk(dir.y, dir.z, b.z, t.y, t.z, b.y)
    case 1 =>
      && !(t.x < 0.0 || b.y > 0.0 || b.z > 0.0) && !(eb.x > 0.0 || et.y < 0.0 || et.z < 0.0)
      && CrossOk(dir.x, dir.y, t.y, t.x, b.y, b.x)
      && CrossOk(dir.x, dir.z, t.z, t.x, b.z, b.x)
      && CrossOk(dir.y, dir.z, b.z, t.y, t.z, b.y)
    case 2 =>
      && !(b.x > 0.0 || t.y < 0.0 || b.z > 0.0) && !(et.x < 0.0 || eb.y > 0.0 || et.z < 0.0)
      && CrossOk(dir.x, dir.y, b.y, b.x, t.y, t.x)
      && CrossOk(dir.x, dir.z, b.z, t.x, t.z, b.x)
      && CrossOk(dir.y, dir.z, t.z, t.y, b.z, b.y)
    case 3 =>
      && !(t.x < 0.0 || t.y < 0.0 || b.z > 0.0) && !(eb.x > 0.0 || eb.y > 0.0 || et.z < 0.0)
      && CrossOk(dir.x, dir.y, t.y, b.x, b.y, t.x)
      && CrossOk(dir.x, dir.z, t.z, t.x, b.z, b.x)
      && CrossOk(dir.y, dir.z, t.z, t.y, b.z, b.y)
    case 4 =>
      && !(b.x > 0.0 || b.y > 0.0 || t.z < 0.0) && !(et.x < 0.0 || et.y < 0.0 || eb.z > 0.0)
      && CrossOk(dir.x, dir.y, b.y, t.x, t.y, b.x)
      && CrossOk(dir.x, dir.z, b.z, b.x, t.z, t.x)
      && CrossOk(dir.y, dir.z, b.z, b.y, t.z, t.y)
    case 5 =>
      && !(t.x < 0.0 || b.y > 0.0 || t.z < 0.0) && !(eb.x > 0.0 || et.y < 0.0 || eb.z > 0.0)
      && CrossOk(dir.x, dir.y, t.y, t.x, b.y, b.x)
      && CrossOk(dir.x, dir.z, t.z, b.x, b.z, t.x)
      && CrossOk(dir.y, dir.z, b.z, b.y, t.z, t.y)
    case 6 =>
      && !(b.x > 0.0 || t.y < 0.0 || t.z < 0.0) && !(et.x < 0.0 || eb.y > 0.0 || eb.z > 0.0)
      && CrossOk(dir.x, dir.y, b.y, b.x, t.y, t.x)
      && CrossOk(dir.x, dir.z, b.z, b.x, t.z, t.x)
      && CrossOk(dir.y, dir.z, t.z, b.y, b.z, t.y)
    case _ =>
      && !(t.x < 0.0 || t.y < 0.0 || t.z < 0.0) && !(eb.x > 0.0 || eb.y > 0.0 || eb.z > 0.0)
      && CrossOk(dir.x, dir.y, t.y, b.x, b.y, t.x)
      && CrossOk(dir.x, dir.z, t.z, b.x, b.z, t.x)
      && CrossOk(dir.y, dir.z, t.z, b.y, b.z, t.y)
  }

  /** The point at parameter u of the ray from the origin lies between b and t along this axis. */
  predicate InSlab(d: real, b: real, t: real, u: real) {
    b <= u * d <= t
  }

  predicate InBox(dir: Vec3, b: Vec3, t: Vec3, u: real) {
    InSlab(dir.x, b.x, t.x, u) && InSlab(dir.y, b.y, t.y, u) && InSlab(dir.z, b.z, t.z, u)
  }

  ghost predicate MeetsBox(dir: Vec3, dist: real, b: Vec3, t: Vec3) {
    exists u :: 0.0 <= u <= dist && InBox(dir, b, t, u)
  }

  // ----- One axis

  /** The endpoint test of one axis. */
  predicate EndsOk(d: real, b: real, t: real, dist: real) {
    if d > 0.0 then t >= 0.0 && b - dist * d <= 0.0 else b <= 0.0 && t - dist * d >= 0.0
  }

  /** The parameters whose points are in the slab run from Enter to Leave. */
  function Enter(d: real, b: real, t: real): real {
    if d > 0.0 then b / d else if d < 0.0 then t / d else 0.0
  }

  function Leave(d: real, b: real, t: real, dist: real): real {
    if d > 0.0 then t / d else if d < 0.0 then b / d else dist
  }

  lemma Quotient(p: real, d: real, u: real)
    requires d != 0.0
    ensures d > 0.0 ==> (p / d <= u <==> p <= u * d) && (u <= p / d <==> u * d <= p)
    ensures d < 0.0 ==> (p / d <= u <==> u * d <= p) && (u <= p / d <==> p <= u * d)
  {
    var q := p / d;
    assert q * d == p;
    assert (u - q) * d == u * d - p;
  }

  lemma AxisExact(d: real, b: real, t: real, dist: real, u: real)
    requires 0.0 <= u <= dist && b <= t
    ensures InSlab(d, b, t, u) <==> EndsOk(d, b, t, dist) && Enter(d, b, t) <= u <= Leave(d, b, t, dist)
  {
    var v := dist - u;
    assert dist * d == u * d + v * d;
    if d != 0.0 {
      Quotient(b, d, u);
      Quotient(t, d, u);
    }
  }

  lemma AxisEnds(d: real, b: real, t: real, dist: real)
    requires dist >= 0.0 && b <= t && EndsOk(d, b, t, dist)
    ensures Enter(d, b, t) <= dist && 0.0 <= Leave(d, b, t, dist) && Enter(d, b, t) <= Leave(d, b, t, dist)
  {
    if d != 0.0 {
      Quotient(b, d, dist);
      Quotient(t, d, dist);
      Quotient(b, d, 0.0);
      Quotient(t, d, 0.0);
      Quotient(b, d, t / d);
    }
  }

  // ----- Two axes

  lemma QuotientCompare(p: real, d: real, q: real, e: real)
    requires d != 0.0 && e != 0.0
    ensures p / d <= q / e <==> if (d > 0.0) == (e > 0.0) then p * e <= q * d else p * e >= q * d
  {
    var y := q / e;
    assert y * e == q;
    assert y * d == (q * d) / e by {
      assert (y * d) * e == (y * e) * d;
      Unscale(y * d, e, q * d);
    }
    Quotient(p, d, y);
    Quotient(q * d, e, p);
  }

  lemma Unscale(y: real, e: real, z: real)
    requires e != 0.0 && y * e == z
    ensures y == z / e
  {
  }

  /** The product test of one pair of axes, in the form its sign class uses. */
  predicate PairTest(d: real, b: real, t: real, d': real, b': real, t': real) {
    if d > 0.0 then
      if d' > 0.0 then CrossOk(d, d', t', b, b', t) else CrossOk(d, d', t', t, b', b)
    else
      if d' > 0.0 then CrossOk(d, d', b', b, t', t) else CrossOk(d, d', b', t, t', b)
  }

  lemma ProductSign(x: real, y: real)
    ensures x >= 0.0 && y >= 0.0 ==> x * y >= 0.0
    ensures x <= 0.0 && y <= 0.0 ==> x * y >= 0.0
    ensures x <= 0.0 && y >= 0.0 ==> x * y <= 0.0
    ensures x >= 0.0 && y <= 0.0 ==> x * y <= 0.0
  {
  }

  lemma PairExactMoving(d: real, b: real, t: real, d': real, b': real, t': real, dist: real)
    requires d != 0.0 && d' != 0.0
    ensures PairTest(d, b, t, d', b', t') <==>
      Enter(d, b, t) <= Leave(d', b', t', dist) && Enter(d', b', t') <= Leave(d, b, t, dist)
  {
    QuotientCompare(if d > 0.0 then b else t, d, if d' > 0.0 then t' else b', d');
    QuotientCompare(if d' > 0.0 then b' else t', d', if d > 0.0 then t else b, d);
  }

  lemma PairExactStill(d: real, b: real, t: real, d': real, b': real, t': real, dist: real)
    requires EndsOk(d, b, t, dist) && EndsOk(d', b', t', dist) && (d == 0.0 || d' == 0.0)
    ensures PairTest(d, b, t, d', b', t')
  {
    hide EndsOk;
    EndSigns(d, b, t, dist);
    EndSigns(d', b', t', dist);
    if d == 0.0 {
      ProductSign(d', t);
      ProductSign(d', b);
    } else {
      ProductSign(d, t');
      ProductSign(d, b');
    }
  }

  lemma EndSigns(d: real, b: real, t: real, dist: real)
    requires EndsOk(d, b, t, dist)
    ensures d > 0.0 ==> t >= 0.0
    ensures d <= 0.0 ==> b <= 0.0
    ensures d == 0.0 ==> t >= 0.0
  {
  }

  /** The product test says that each axis is entered before the other is left. */
  lemma PairExact(d: real, b: real, t: real, d': real, b': real, t': real, dist: real)
    requires dist >= 0.0 && b <= t && b' <= t' && EndsOk(d, b, t, dist) && EndsOk(d', b', t', dist)
    ensures PairTest(d, b, t, d', b', t') <==>
      Enter(d, b, t) <= Leave(d', b', t', dist) && Enter(d', b', t') <= Leave(d, b, t, dist)
  {
    hide PairTest, CrossOk;
    if d != 0.0 && d' != 0.0 {
      PairExactMoving(d, b, t, d', b', t', dist);
    } else {
      PairExactStill(d, b, t, d', b', t', dist);
      AxisEnds(d, b, t, dist);
      AxisEnds(d', b', t', dist);
    }
  }

  // ----- Three axes

  lemma PlueckerByAxes(dir: Vec3, dist: real, b: Vec3, t: Vec3)
    ensures Pluecker(dir, dist, b, t) <==>
      && EndsOk(dir.x, b.x, t.x, dist) && EndsOk(dir.y, b.y, t.y, dist) && EndsOk(dir.z, b.z, t.z, dist)
      && PairTest(dir.x, b.x, t.x, dir.y, b.y, t.y)
      && PairTest(dir.x, b.x, t.x, dir.z, b.z, t.z)
      && PairTest(dir.y, b.y, t.y, dir.z, b.z, t.z)
  {
    hide CrossOk;
  }

  function Max(x: real, y: real): real {
    if x < y then y else x
  }

  /** Four intervals of the line that meet pairwise share a point. */
  lemma CommonPoint(e1: real, l1: real, e2: real, l2: real, e3: real, l3: real, dist: real)
    requires 0.0 <= dist && e1 <= dist && e2 <= dist && e3 <= dist && 0.0 <= l1 && 0.0 <= l2 && 0.0 <= l3
    requires e1 <= l1 && e2 <= l2 && e3 <= l3
    requires e1 <= l2 && e2 <= l1 && e1 <= l3 && e3 <= l1 && e2 <= l3 && e3 <= l2
    ensures var u := Max(0.0, Max(e1, Max(e2, e3)));
      0.0 <= u <= dist && e1 <= u <= l1 && e2 <= u <= l2 && e3 <= u <= l3
  {
  }

  /** pluecker_ answers 1 exactly when some point of the segment is in the closed box. */
  lemma PlueckerExact(dir: Vec3, dist: real, b: Vec3, t: Vec3)
    requires dist >= 0.0 && b.x <= t.x && b.y <= t.y && b.z <= t.z
    ensures Pluecker(dir, dist, b, t) <==> MeetsBox(dir, dist, b, t)
  {
    hide Pluecker, PairTest, EndsOk, Enter, Leave, InSlab, Max;
    PlueckerByAxes(dir, dist, b, t);
    var e1, l1 := Enter(dir.x, b.x, t.x), Leave(dir.x, b.x, t.x, dist);
    var e2, l2 := Enter(dir.y, b.y, t.y), Leave(dir.y, b.y, t.y, dist);
    var e3, l3 := Enter(dir.z, b.z, t.z), Leave(dir.z, b.z, t.z, dist);
    if EndsOk(dir.x, b.x, t.x, dist) && EndsOk(dir.y, b.y, t.y, dist) && EndsOk(dir.z, b.z, t.z, dist) {
      PairExact(dir.x, b.x, t.x, dir.y, b.y, t.y, dist);
      PairExact(dir.x, b.x, t.x, dir.z, b.z, t.z, dist);
      PairExact(dir.y, b.y, t.y, dir.z, b.z, t.z, dist);
      AxisEnds(dir.x, b.x, t.x, dist);
      AxisEnds(dir.y, b.y, t.y, dist);
      AxisEnds(dir.z, b.z, t.z, dist);
    }
    if Pluecker(dir, dist, b, t) {
      CommonPoint(e1, l1, e2, l2, e3, l3, dist);
      var u := Max(0.0, Max(e1, Max(e2, e3)));
      AxesExact(dir, dist, b, t, u);
      assert InBox(dir, b, t, u);
    }
    if MeetsBox(dir, dist, b, t) {
      var u :| 0.0 <= u <= dist && InBox(dir, b, t, u);
      AxesExact(dir, dist, b, t, u);
    }
  }

  lemma AxesExact(dir: Vec3, dist: real, b: Vec3, t: Vec3, u: real)
    requires 0.0 <= u <= dist && b.x <= t.x && b.y <= t.y && b.z <= t.z
    ensures InSlab(dir.x, b.x, t.x, u) <==> EndsOk(dir.x, b.x, t.x, dist) && Enter(dir.x, b.x, t.x) <= u <= Leave(dir.x, b.x, t.x, dist)
    ensures InSlab(dir.y, b.y, t.y, u) <==> EndsOk(dir.y, b.y, t.y, dist) && Enter(dir.y, b.y, t.y) <= u <= Leave(dir.y, b.y, t.y, dist)
    ensures InSlab(dir.z, b.z, t.z, u) <==> EndsOk(dir.z, b.z, t.z, dist) && Enter(dir.z, b.z, t.z) <= u <= Leave(dir.z, b.z, t.z, dist)
  {
    hide EndsOk, Enter, Leave, InSlab;
    AxisExact(dir.x, b.x, t.x, dist, u);
    AxisExact(dir.y, b.y, t.y, dist, u);
    AxisExact(dir.z, b.z, t.z, dist, u);
  }
}
