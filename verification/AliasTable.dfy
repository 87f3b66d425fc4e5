/** Walker's alias tables: what a table means, and the invariant of its construction. */
module AliasLaws {
  /** gsl_ran_discretef_t, with F in the convention F[c] = (c + fraction) / K. */
  datatype AliasTable = AliasTable(K: nat, F: seq<real>, A: seq<nat>)

  /** What column i gives to index k, in units of one column: its own part, or the rest if k is its alias. */
  function Share(fraction: real, alias: nat, i: nat, k: nat): real {
    if i == k then fraction else if alias == k then 1.0 - fraction else 0.0
  }

  function Times(a: real, b: real): real {
    a * b
  }

  function Positive(p: real): real {
    if p > 0.0 then p else 0.0
  }

  /** Weights that are not positive count for nothing. */
  lemma PositivePart(p: real, total: real)
    requires total > 0.0
    ensures Positive(p) / total == (if p > 0.0 then p / total else 0.0) && (p <= 0.0 ==> Positive(p) == 0.0)
  {
  }

  function TotalOf(P: seq<real>): real {
    if P == [] then 0.0 else TotalOf(P[..|P| - 1]) + Positive(P[|P| - 1])
  }

  // ----- The table as a law on indices

  function Fraction(t: AliasTable, c: nat): real
    requires c < |t.F|
  {
    Times(t.K as real, t.F[c]) - c as real
  }

  predicate ValidTable(t: AliasTable) {
    && t.K > 0 && |t.F| == |t.A| == t.K
    && forall c {:trigger t.A[c]} {:trigger t.F[c]} :: 0 <= c < t.K ==> t.A[c] < t.K && 0.0 <= Fraction(t, c) <= 1.0
  }

  /** The parts of the first n columns that belong to index k. */
  function LawUpTo(t: AliasTable, k: nat, n: nat): real
    requires ValidTable(t) && n <= t.K
  {
    if n == 0 then 0.0 else LawUpTo(t, k, n - 1) + Share(Fraction(t, n - 1), t.A[n - 1], n - 1, k)
  }

  /** The probability of index k. */
  function Law(t: AliasTable, k: nat): real
    requires ValidTable(t)
  {
    LawUpTo(t, k, t.K) / t.K as real
  }

  /** `gsl_ran_discretef` for the uniform number u. */
  function Sample(t: AliasTable, u: real): nat
    requires ValidTable(t) && 0.0 <= u && Times(t.K as real, u) < t.K as real
  {
    var c := Times(t.K as real, u).Floor;
    ColumnOf(t.K, u);
    if t.F[c] == 1.0 then c else if u < t.F[c] then c else t.A[c]
  }

  lemma ColumnOf(K: nat, u: real)
    requires K > 0 && 0.0 <= u && Times(K as real, u) < K as real
    ensures 0 <= Times(K as real, u).Floor < K
  {
    assert Times(K as real, u) >= 0.0;
  }

  lemma UnitScaled(K: nat, u: real)
    requires K > 0
    ensures Times(K as real, u) < K as real <==> u < 1.0
  {
    assert Times(K as real, u) - K as real == (K as real) * (u - 1.0);
    if u < 1.0 {
      assert (K as real) * (1.0 - u) > 0.0;
    } else {
      assert (K as real) * (u - 1.0) >= 0.0;
    }
  }

  lemma TimesOrder(k: real, a: real, b: real)
    requires k > 0.0
    ensures a < b <==> Times(k, a) < Times(k, b)
  {
    assert Times(k, b) - Times(k, a) == k * (b - a);
    if a < b {
      assert k * (b - a) > 0.0;
    } else {
      assert k * (a - b) >= 0.0;
    }
  }

  /** The part of column c whose uniform numbers give index k: an interval of K * u. */
  function PartFrom(t: AliasTable, c: nat, k: nat): real
    requires ValidTable(t) && c < t.K
  {
    if c == k then c as real else if t.A[c] == k then c as real + Fraction(t, c) else c as real
  }

  function PartTo(t: AliasTable, c: nat, k: nat): real
    requires ValidTable(t) && c < t.K
  {
    if c == k then c as real + Fraction(t, c) else if t.A[c] == k then c as real + 1.0 else c as real
  }

  /** Columns that are their own alias are whole. */
  predicate SelfWhole(t: AliasTable)
    requires ValidTable(t)
  {
    forall c {:trigger t.A[c]} :: 0 <= c < t.K && t.A[c] == c ==> Fraction(t, c) == 1.0
  }

  /** In column c the sampler gives k exactly for K * u in an interval as long as the share of k in that column. */
  lemma SampleRegion(t: AliasTable, u: real, c: nat, k: nat)
    requires ValidTable(t) && SelfWhole(t) && c < t.K && c as real <= Times(t.K as real, u) < c as real + 1.0
    ensures 0.0 <= u < 1.0 && Times(t.K as real, u) < t.K as real
    ensures Sample(t, u) == k <==> PartFrom(t, c, k) <= Times(t.K as real, u) < PartTo(t, c, k)
    ensures PartTo(t, c, k) - PartFrom(t, c, k) == Share(Fraction(t, c), t.A[c], c, k)
  {
    UnitScaled(t.K, u);
    TimesOrder(t.K as real, u, t.F[c]);
    hide Times;
    TimesNonNegative(t.K as real, u);
    assert Times(t.K as real, u).Floor == c;
    if t.F[c] == 1.0 {
      WholeColumn(t.K as real);
    }
  }

  lemma WholeColumn(k: real)
    ensures Times(k, 1.0) == k
  {
  }

  lemma TimesNonNegative(k: real, u: real)
    requires k > 0.0 && Times(k, u) >= 0.0
    ensures u >= 0.0
  {
    if u < 0.0 {
      NegativeProduct(k, u);
    }
  }

  lemma NegativeProduct(k: real, u: real)
    requires k > 0.0 && u < 0.0
    ensures Times(k, u) < 0.0
  {
    assert k * -u > 0.0;
  }

  // ----- The construction

  /** The parts that the finished columns below n give to index k. */
  function Mass(fin: seq<bool>, F: seq<real>, A: seq<nat>, k: nat, n: nat): real
    requires |fin| == |F| == |A| && n <= |F|
  {
    if n == 0 then 0.0 else Mass(fin, F, A, k, n - 1) + if fin[n - 1] then Share(F[n - 1], A[n - 1], n - 1, k) else 0.0
  }

  /** By how much the unfinished probabilities below n exceed the mean. */
  function Excess(fin: seq<bool>, E: seq<real>, mean: real, n: nat): real
    requires |fin| == |E| && n <= |E|
  {
    if n == 0 then 0.0 else Excess(fin, E, mean, n - 1) + if fin[n - 1] then 0.0 else E[n - 1] - mean
  }

  lemma {:induction false} MassFinish(fin: seq<bool>, F: seq<real>, A: seq<nat>, s: nat, f: real, a: nat, k: nat, n: nat)
    requires |fin| == |F| == |A| && n <= |F| && s < |F| && !fin[s]
    ensures Mass(fin[s := true], F[s := f], A[s := a], k, n) == Mass(fin, F, A, k, n) + if s < n then Share(f, a, s, k) else 0.0
  {
    if n > 0 {
      MassFinish(fin, F, A, s, f, a, k, n - 1);
    }
  }

  lemma {:induction false} ExcessFinish(fin: seq<bool>, E: seq<real>, mean: real, s: nat, n: nat)
    requires |fin| == |E| && n <= |E| && s < |E| && !fin[s]
    ensures Excess(fin[s := true], E, mean, n) == Excess(fin, E, mean, n) - if s < n then E[s] - mean else 0.0
  {
    if n > 0 {
      ExcessFinish(fin, E, mean, s, n - 1);
    }
  }

  lemma {:induction false} ExcessChange(fin: seq<bool>, E: seq<real>, mean: real, b: nat, e: real, n: nat)
    requires |fin| == |E| && n <= |E| && b < |E| && !fin[b]
    ensures Excess(fin, E[b := e], mean, n) == Excess(fin, E, mean, n) + if b < n then e - E[b] else 0.0
  {
    if n > 0 {
      ExcessChange(fin, E, mean, b, e, n - 1);
    }
  }

  lemma {:induction false} ExcessFinished(fin: seq<bool>, E: seq<real>, mean: real, s: nat, e: real, n: nat)
    requires |fin| == |E| && n <= |E| && s < |E| && fin[s]
    ensures Excess(fin, E[s := e], mean, n) == Excess(fin, E, mean, n)
  {
    if n > 0 {
      ExcessFinished(fin, E, mean, s, e, n - 1);
    }
  }

  /** When no unfinished entry is above the mean (or none below), all of them are at the mean. */
  lemma {:induction false} ExcessSigns(fin: seq<bool>, E: seq<real>, mean: real, n: nat, up: bool)
    requires |fin| == |E| && n <= |E|
    requires forall k {:trigger E[k]} :: 0 <= k < n && !fin[k] ==> if up then E[k] >= mean else E[k] <= mean
    ensures if up then Excess(fin, E, mean, n) >= 0.0 else Excess(fin, E, mean, n) <= 0.0
    ensures Excess(fin, E, mean, n) == 0.0 ==> forall k {:trigger E[k]} :: 0 <= k < n && !fin[k] ==> E[k] == mean
  {
    if n > 0 {
      ExcessSigns(fin, E, mean, n - 1, up);
    }
  }

  ghost predicate Distinct(l: seq<nat>) {
    forall i, j {:trigger l[i], l[j]} :: 0 <= i < j < |l| ==> l[i] != l[j]
  }

  /** The two stacks hold the unfinished indices, each once. */
  ghost predicate Stacked(fin: seq<bool>, smalls: seq<nat>, bigs: seq<nat>) {
    && Distinct(smalls) && Distinct(bigs)
    && (forall k {:trigger k in smalls} :: k in smalls ==> k < |fin| && !fin[k] && k !in bigs)
    && (forall k {:trigger k in bigs} :: k in bigs ==> k < |fin| && !fin[k])
    && (forall k: nat {:trigger fin[k]} :: k < |fin| && !fin[k] ==> k in smalls || k in bigs)
  }

  ghost predicate Levels(E: seq<real>, mean: real, smalls: seq<nat>, bigs: seq<nat>) {
    && (forall k {:trigger k in smalls} :: k in smalls ==> k < |E| && 0.0 <= E[k] <= mean)
    && (forall k {:trigger k in bigs} :: k in bigs ==> k < |E| && mean <= E[k])
  }

  ghost predicate Columns(fin: seq<bool>, F: seq<real>, A: seq<nat>) {
    && |fin| == |F| == |A|
    && forall k {:trigger F[k]} {:trigger A[k]} :: 0 <= k < |F| && fin[k] ==> 0.0 <= F[k] <= 1.0 && A[k] < |F| && (A[k] == k ==> F[k] == 1.0)
  }

  /** What is given to each index so far, and what it still has, is what it should get. */
  ghost predicate Conserved(E0: seq<real>, E: seq<real>, fin: seq<bool>, F: seq<real>, A: seq<nat>, kk: real) {
    && |E0| == |E| == |fin| == |F| == |A|
    && forall k: nat {:trigger E0[k]} {:trigger E[k]} :: k < |E0| ==>
      Times(kk, E0[k]) == Mass(fin, F, A, k, |F|) + if fin[k] then 0.0 else Times(kk, E[k])
  }

  ghost predicate Building(E0: seq<real>, E: seq<real>, fin: seq<bool>, F: seq<real>, A: seq<nat>, smalls: seq<nat>, bigs: seq<nat>, mean: real) {
    && |E0| == |E| == |fin| == |F| == |A| && Times(|E0| as real, mean) == 1.0 && |E0| > 0
    && Stacked(fin, smalls, bigs) && Levels(E, mean, smalls, bigs) && Columns(fin, F, A)
    && Conserved(E0, E, fin, F, A, |E0| as real) && Excess(fin, E, mean, |E|) == 0.0
  }

  // ----- Stacks

  lemma LastIn(l: seq<nat>)
    requires l != []
    ensures forall k {:trigger k in l} {:trigger k in l[..|l| - 1]} :: k in l <==> k in l[..|l| - 1] || k == l[|l| - 1]
  {
    assert l == l[..|l| - 1] + [l[|l| - 1]];
  }

  lemma PopSmall(fin: seq<bool>, smalls: seq<nat>, bigs: seq<nat>)
    requires Stacked(fin, smalls, bigs) && smalls != []
    ensures var s := smalls[|smalls| - 1];
      s < |fin| && !fin[s] && s !in bigs && Stacked(fin[s := true], smalls[..|smalls| - 1], bigs)
  {
    var s, init := smalls[|smalls| - 1], smalls[..|smalls| - 1];
    LastIn(smalls);
    InitDistinct(smalls);
    hide Distinct;
    assert s in smalls;
  }

  lemma PopBig(fin: seq<bool>, smalls: seq<nat>, bigs: seq<nat>)
    requires Stacked(fin, smalls, bigs) && bigs != []
    ensures var b := bigs[|bigs| - 1];
      b < |fin| && !fin[b] && b !in smalls && Stacked(fin[b := true], smalls, bigs[..|bigs| - 1])
  {
    var b, init := bigs[|bigs| - 1], bigs[..|bigs| - 1];
    LastIn(bigs);
    InitDistinct(bigs);
    hide Distinct;
    assert b in bigs;
  }

  lemma InitDistinct(l: seq<nat>)
    requires l != [] && Distinct(l)
    ensures Distinct(l[..|l| - 1]) && l[|l| - 1] !in l[..|l| - 1]
  {
  }

  lemma PushStacked(fin: seq<bool>, smalls: seq<nat>, bigs: seq<nat>, b: nat)
    requires b < |fin| && fin[b] && Stacked(fin, smalls, bigs)
    ensures Stacked(fin[b := false], smalls + [b], bigs) && Stacked(fin[b := false], smalls, bigs + [b])
  {
    PushDistinct(smalls, b);
    PushDistinct(bigs, b);
  }

  lemma PushDistinct(l: seq<nat>, b: nat)
    requires Distinct(l)
    ensures b !in l ==> Distinct(l + [b])
  {
  }

  // ----- One small and one big

  lemma ShareSplit(kk: real, es: real, eb: real, mean: real)
    requires Times(kk, mean) == 1.0
    ensures Times(kk, eb - (mean - es)) == Times(kk, eb) - (1.0 - Times(kk, es))
  {
    assert kk * (eb - (mean - es)) == kk * eb - kk * mean + kk * es;
  }

  lemma ScaledRange(kk: real, e: real, mean: real)
    requires kk > 0.0 && Times(kk, mean) == 1.0 && 0.0 <= e <= mean
    ensures 0.0 <= Times(kk, e) <= 1.0
  {
    assert kk * (mean - e) >= 0.0;
  }

  /** Finishing a column that is at the mean: it keeps its whole column. */
  lemma FinishWhole(E0: seq<real>, E: seq<real>, fin: seq<bool>, F: seq<real>, A: seq<nat>, s: nat, mean: real)
    requires Conserved(E0, E, fin, F, A, |E0| as real) && Columns(fin, F, A) && Times(|E0| as real, mean) == 1.0
    requires s < |E| && !fin[s] && E[s] == mean && Excess(fin, E, mean, |E|) == 0.0
    ensures Conserved(E0, E, fin[s := true], F[s := 1.0], A[s := s], |E0| as real) && Columns(fin[s := true], F[s := 1.0], A[s := s])
    ensures Excess(fin[s := true], E, mean, |E|) == 0.0
  {
    hide Times;
    ExcessFinish(fin, E, mean, s, |E|);
    forall k: nat | k < |E0|
      ensures Times(|E0| as real, E0[k]) == Mass(fin[s := true], F[s := 1.0], A[s := s], k, |F|) + if fin[s := true][k] then 0.0 else Times(|E0| as real, E[k])
    {
      MassFinish(fin, F, A, s, 1.0, s, k, |F|);
    }
  }

  /** Finishing a small column: the rest of it goes to a big one. */
  lemma FinishSmall(E0: seq<real>, E: seq<real>, fin: seq<bool>, F: seq<real>, A: seq<nat>, s: nat, b: nat, mean: real)
    requires Conserved(E0, E, fin, F, A, |E0| as real) && Columns(fin, F, A) && Times(|E0| as real, mean) == 1.0 && |E0| > 0
    requires s < |E| && b < |E| && s != b && !fin[s] && !fin[b] && 0.0 <= E[s] <= mean && Excess(fin, E, mean, |E|) == 0.0
    ensures var E', fin', F', A' := E[s := mean][b := E[b] - (mean - E[s])], fin[s := true], F[s := Times(|E0| as real, E[s])], A[s := b];
      Conserved(E0, E', fin', F', A', |E0| as real) && Columns(fin', F', A') && Excess(fin', E', mean, |E|) == 0.0
  {
    var kk := |E0| as real;
    var e := E[b] - (mean - E[s]);
    ScaledRange(kk, E[s], mean);
    ShareSplit(kk, E[s], E[b], mean);
    hide Times;
    var fin', F', A' := fin[s := true], F[s := Times(kk, E[s])], A[s := b];
    ExcessFinish(fin, E, mean, s, |E|);
    ExcessFinished(fin', E, mean, s, mean, |E|);
    ExcessChange(fin', E[s := mean], mean, b, e, |E|);
    forall k: nat | k < |E0|
      ensures Times(kk, E0[k]) == Mass(fin', F', A', k, |F|) + if fin'[k] then 0.0 else Times(kk, E[s := mean][b := e][k])
    {
      MassFinish(fin, F, A, s, Times(kk, E[s]), b, k, |F|);
    }
  }

  /** No small is left below the mean when there are no bigs. */
  lemma TurnNoBigs(E0: seq<real>, E: seq<real>, fin: seq<bool>, F: seq<real>, A: seq<nat>, smalls: seq<nat>, mean: real)
    requires Building(E0, E, fin, F, A, smalls, [], mean) && smalls != []
    ensures var s := smalls[|smalls| - 1];
      s < |E| && E[s] == mean && Building(E0, E, fin[s := true], F[s := 1.0], A[s := s], smalls[..|smalls| - 1], [], mean)
  {
    hide Times, Conserved, Columns;
    var s := smalls[|smalls| - 1];
    assert s in smalls;
    PopSmall(fin, smalls, []);
    ExcessSigns(fin, E, mean, |E|, false);
    FinishWhole(E0, E, fin, F, A, s, mean);
  }

  /** Likewise for a big when there are no smalls. */
  lemma TurnNoSmalls(E0: seq<real>, E: seq<real>, fin: seq<bool>, F: seq<real>, A: seq<nat>, bigs: seq<nat>, mean: real)
    requires Building(E0, E, fin, F, A, [], bigs, mean) && bigs != []
    ensures var b := bigs[|bigs| - 1];
      b < |E| && Building(E0, E, fin[b := true], F[b := 1.0], A[b := b], [], bigs[..|bigs| - 1], mean)
  {
    hide Times, Conserved, Columns;
    var b := bigs[|bigs| - 1];
    assert b in bigs;
    PopBig(fin, [], bigs);
    ExcessSigns(fin, E, mean, |E|, true);
    FinishWhole(E0, E, fin, F, A, b, mean);
  }

  lemma LevelsPart(E: seq<real>, E': seq<real>, mean: real, smalls: seq<nat>, bigs: seq<nat>, s: nat, b: nat)
    requires Levels(E, mean, smalls, bigs) && |E'| == |E| && s < |E| && b < |E|
    requires s !in smalls && b !in smalls && s !in bigs && b !in bigs
    requires E' == E[s := E'[s]][b := E'[b]]
    ensures Levels(E', mean, smalls, bigs)
    ensures 0.0 <= E'[b] <= mean ==> Levels(E', mean, smalls + [b], bigs)
    ensures mean <= E'[b] ==> Levels(E', mean, smalls, bigs + [b])
  {
  }

  /** One turn with a small s and a big b, wherever b goes afterwards. */
  lemma TurnPair(E0: seq<real>, E: seq<real>, fin: seq<bool>, F: seq<real>, A: seq<nat>, smalls: seq<nat>, bigs: seq<nat>, mean: real)
    requires Building(E0, E, fin, F, A, smalls, bigs, mean) && smalls != [] && bigs != []
    ensures var s, b, smalls', bigs' := smalls[|smalls| - 1], bigs[|bigs| - 1], smalls[..|smalls| - 1], bigs[..|bigs| - 1];
      s < |E| && b < |E| && s != b && s < |fin| && b < |fin| && s < |F| && b < |F| && s < |A| && b < |A| &&
      var e := E[b] - (mean - E[s]);
      var E', F', A', fin' := E[s := mean][b := e], F[s := Times(|E0| as real, E[s])], A[s := b], fin[s := true];
      && (e < mean ==> Building(E0, E', fin', F', A', smalls' + [b], bigs', mean))
      && (e > mean ==> Building(E0, E', fin', F', A', smalls', bigs' + [b], mean))
      && (e == mean ==> Building(E0, E', fin'[b := true], F'[b := 1.0], A'[b := b], smalls', bigs', mean))
  {
    hide Times, Conserved, Columns, Stacked, Levels;
    var s, b, smalls', bigs' := smalls[|smalls| - 1], bigs[|bigs| - 1], smalls[..|smalls| - 1], bigs[..|bigs| - 1];
    TopLevels(fin, E, mean, smalls, bigs);
    PopSmall(fin, smalls, bigs);
    PopBig(fin[s := true], smalls', bigs);
    var e := E[b] - (mean - E[s]);
    var E', F', A', fin' := E[s := mean][b := e], F[s := Times(|E0| as real, E[s])], A[s := b], fin[s := true];
    FinishSmall(E0, E, fin, F, A, s, b, mean);
    PushStacked(fin'[b := true], smalls', bigs', b);
    assert fin'[b := true][b := false] == fin';
    LevelsPart(E, E', mean, smalls', bigs', s, b);
    if e == mean {
      FinishWhole(E0, E', fin', F', A', b, mean);
    }
  }

  lemma TopLevels(fin: seq<bool>, E: seq<real>, mean: real, smalls: seq<nat>, bigs: seq<nat>)
    requires Stacked(fin, smalls, bigs) && Levels(E, mean, smalls, bigs) && |fin| == |E| && smalls != [] && bigs != []
    ensures var s, b, smalls', bigs' := smalls[|smalls| - 1], bigs[|bigs| - 1], smalls[..|smalls| - 1], bigs[..|bigs| - 1];
      && s < |E| && b < |E| && s != b && !fin[s] && !fin[b] && 0.0 <= E[s] <= mean <= E[b]
      && s !in smalls' && b !in smalls' && s !in bigs' && b !in bigs' && Levels(E, mean, smalls', bigs')
  {
    LastIn(smalls);
    LastIn(bigs);
    InitDistinct(smalls);
    InitDistinct(bigs);
    assert smalls[|smalls| - 1] in smalls && bigs[|bigs| - 1] in bigs;
  }

  lemma BuildingDone(E0: seq<real>, E: seq<real>, fin: seq<bool>, F: seq<real>, A: seq<nat>, mean: real)
    requires Building(E0, E, fin, F, A, [], [], mean)
    ensures Columns(fin, F, A) && Conserved(E0, E, fin, F, A, |E0| as real) && forall k {:trigger fin[k]} :: 0 <= k < |fin| ==> fin[k]
  {
  }

  // ----- From the finished construction to the law

  /** Every column is finished, and F is its fraction. */
  ghost predicate AllFinished(t: AliasTable, F: seq<real>, fin: seq<bool>)
    requires ValidTable(t)
  {
    |fin| == |F| == t.K && forall c {:trigger F[c]} :: 0 <= c < t.K ==> fin[c] && Fraction(t, c) == F[c]
  }

  lemma {:induction false} MassIsLaw(t: AliasTable, F: seq<real>, fin: seq<bool>, k: nat, n: nat)
    requires ValidTable(t) && AllFinished(t, F, fin) && n <= t.K
    ensures LawUpTo(t, k, n) == Mass(fin, F, t.A, k, n)
  {
    if n > 0 {
      hide AllFinished, Fraction;
      MassIsLaw(t, F, fin, k, n - 1);
      FinishedAt(t, F, fin, n - 1);
    }
  }

  lemma FinishedAt(t: AliasTable, F: seq<real>, fin: seq<bool>, c: nat)
    requires ValidTable(t) && AllFinished(t, F, fin) && c < t.K
    ensures fin[c] && F[c] == Fraction(t, c)
  {
    var f := F[c];
  }

  lemma KnuthInverse(K: nat, c: nat, f: real)
    requires K > 0
    ensures Times(K as real, (c as real + f) / K as real) - c as real == f
  {
  }

  lemma ScaleBack(K: nat, e: real, x: real)
    requires K > 0 && Times(K as real, e) == x
    ensures x / K as real == e
  {
  }

  /** The law of the finished table. */
  lemma FinishedLaw(E0: seq<real>, E: seq<real>, fin: seq<bool>, F: seq<real>, t: AliasTable)
    requires |E0| == |E| == |fin| == |F| == t.K > 0 && |t.F| == |t.A| == t.K
    requires Columns(fin, F, t.A) && Conserved(E0, E, fin, F, t.A, |E0| as real)
    requires forall c {:trigger t.F[c]} :: 0 <= c < t.K ==> fin[c] && t.F[c] == (c as real + F[c]) / t.K as real
    ensures ValidTable(t) && SelfWhole(t)
    ensures forall k: nat {:trigger E0[k]} :: k < t.K ==> Law(t, k) == E0[k]
  {
    hide Times;
    forall c | 0 <= c < t.K
      ensures fin[c] && Fraction(t, c) == F[c] && t.A[c] < t.K && 0.0 <= F[c] <= 1.0 && (t.A[c] == c ==> F[c] == 1.0)
    {
      assert t.F[c] == (c as real + F[c]) / t.K as real;
      KnuthInverse(t.K, c, F[c]);
    }
    forall k: nat | k < t.K
      ensures Law(t, k) == E0[k]
    {
      MassIsLaw(t, F, fin, k, t.K);
      FinishedAt(t, F, fin, k);
      ScaleBack(t.K, E0[k], LawUpTo(t, k, t.K));
    }
  }
}

/** `discrete.c`: the two-stack construction of an alias table, its density and its sampler. */
module AliasSampler {
  import opened AliasLaws

  /** gsl_stack_t. */
  class Stack {
    const N: nat
    const v: array<nat>
    var i: nat

    ghost predicate Valid()
      reads this
    {
      i <= N == v.Length
    }

    ghost function Items(): seq<nat>
      requires Valid()
      reads this, v
    {
      v[..i]
    }

    /** `new_stack`. */
    constructor (n: nat)
      ensures Valid() && N == n && fresh(v) && Items() == []
    {
      N, i := n, 0;
      v := new nat[n];
    }

    /** `push_stack`: -1 on overflow. */
    method Push(x: nat) returns (status: int)
      requires Valid()
      modifies `i, v
      ensures Valid()
      ensures old(i) < N ==> status == 0 && Items() == old(Items()) + [x]
      ensures old(i) >= N ==> status == -1 && Items() == old(Items())
    {
      if i >= N {
        return -1;
      }
      v[i] := x;
      i := i + 1;
      return 0;
    }

    /** `pop_stack`. */
    method Pop() returns (x: nat)
      requires Valid() && i > 0
      modifies `i
      ensures Valid() && old(Items()) == Items() + [x]
    {
      i := i - 1;
      x := v[i];
    }
  }

  /** The normalised probabilities, and their total before. */
  method Normalise(P: seq<real>) returns (E: array<real>, total: real)
    requires |P| > 0 && TotalOf(P) > 0.0
    ensures fresh(E) && E.Length == |P| && total == TotalOf(P)
    ensures forall k {:trigger E[k]} :: 0 <= k < |P| ==> E[k] == Positive(P[k]) / total
  {
    total := 0.0;
    for k := 0 to |P|
      invariant total == TotalOf(P[..k])
    {
      total := total + Positive(P[k]);
      assert P[..k + 1][..k] == P[..k];
    }
    assert P[..|P|] == P;
    E := new real[|P|];
    for k := 0 to |P|
      invariant forall j {:trigger E[j]} :: 0 <= j < k ==> E[j] == Positive(P[j]) / total
    {
      E[k] := Positive(P[k]) / total;
    }
  }

  lemma {:induction false} ExcessStart(fin: seq<bool>, E: seq<real>, P: seq<real>, total: real, mean: real, n: nat)
    requires |fin| == |E| == |P| && n <= |E| && total > 0.0
    requires forall k {:trigger fin[k]} :: 0 <= k < |fin| ==> !fin[k]
    requires forall k {:trigger E[k]} :: 0 <= k < |P| ==> E[k] == Positive(P[k]) / total
    ensures Excess(fin, E, mean, n) == TotalOf(P[..n]) / total - Times(n as real, mean)
  {
    if n > 0 {
      ExcessStart(fin, E, P, total, mean, n - 1);
      assert P[..n][..n - 1] == P[..n - 1];
      SumQuotient(TotalOf(P[..n - 1]), Positive(P[n - 1]), total);
      CountTimes(n, mean);
    }
  }

  lemma SumQuotient(a: real, b: real, d: real)
    requires d > 0.0
    ensures (a + b) / d == a / d + b / d
  {
  }

  lemma CountTimes(n: nat, mean: real)
    requires n > 0
    ensures Times(n as real, mean) == Times((n - 1) as real, mean) + mean
  {
    assert n as real == (n - 1) as real + 1.0;
  }

  lemma QuotientSign(a: real, d: real)
    requires a >= 0.0 && d > 0.0
    ensures a / d >= 0.0
  {
  }

  lemma {:induction false} MassNone(fin: seq<bool>, F: seq<real>, A: seq<nat>, k: nat, n: nat)
    requires |fin| == |F| == |A| && n <= |F| && forall i {:trigger fin[i]} :: 0 <= i < |fin| ==> !fin[i]
    ensures Mass(fin, F, A, k, n) == 0.0
  {
    if n > 0 {
      MassNone(fin, F, A, k, n - 1);
    }
  }

  /** Counting the smalls; which[k] is kept in A meanwhile. */
  method Classify(E: array<real>, mean: real, A: array<nat>) returns (nSmalls: nat, nBigs: nat)
    requires A.Length == E.Length
    modifies A
    ensures nSmalls == Below(E[..], mean, E.Length) && nBigs == E.Length - nSmalls
    ensures forall j {:trigger A[j]} :: 0 <= j < E.Length ==> A[j] == if E[j] < mean then 0 else 1
  {
    nSmalls, nBigs := 0, 0;
    for k := 0 to E.Length
      invariant nSmalls == Below(E[..], mean, k) && nBigs == k - nSmalls
      invariant forall j {:trigger A[j]} :: 0 <= j < k ==> A[j] == if E[j] < mean then 0 else 1
    {
      if E[k] < mean {
        nSmalls := nSmalls + 1;
        A[k] := 0;
      } else {
        nBigs := nBigs + 1;
        A[k] := 1;
      }
    }
  }

  /** The indices below k on one side of the mean, each once. */
  ghost predicate Holds(l: seq<nat>, E: seq<real>, mean: real, k: nat, small: bool) {
    && Distinct(l) && k <= |E|
    && (forall j {:trigger j in l} :: j in l ==> j < k && (E[j] < mean <==> small))
    && (forall j: nat {:trigger E[j]} :: j < k && (E[j] < mean <==> small) ==> j in l)
  }

  lemma HoldsNext(l: seq<nat>, E: seq<real>, mean: real, k: nat, small: bool)
    requires Holds(l, E, mean, k, small) && k < |E|
    ensures if E[k] < mean <==> small then Holds(l + [k], E, mean, k + 1, small) else Holds(l, E, mean, k + 1, small)
  {
    PushDistinct(l, k);
  }

  /** Sorting the indices into the two stacks. */
  method FillStacks(E: array<real>, mean: real, A: array<nat>) returns (smalls: Stack, bigs: Stack)
    requires A.Length == E.Length
    modifies A
    ensures fresh(smalls) && fresh(bigs) && smalls != bigs && fresh(smalls.v) && fresh(bigs.v) && smalls.v != bigs.v && smalls.v != A && bigs.v != A
    ensures smalls.Valid() && bigs.Valid()
    ensures Holds(smalls.Items(), E[..], mean, E.Length, true) && Holds(bigs.Items(), E[..], mean, E.Length, false)
  {
    hide Holds, Below;
    var nSmalls, nBigs := Classify(E, mean, A);
    bigs := new Stack(nBigs);
    smalls := new Stack(nSmalls);
    HoldsNone(E[..], mean);
    for k := 0 to E.Length
      invariant smalls.Valid() && bigs.Valid()
      invariant smalls.i == Below(E[..], mean, k) && bigs.i == k - smalls.i
      invariant forall j {:trigger A[j]} :: 0 <= j < E.Length ==> A[j] == if E[j] < mean then 0 else 1
      invariant Holds(smalls.Items(), E[..], mean, k, true) && Holds(bigs.Items(), E[..], mean, k, false)
    {
      BelowOrder(E[..], mean, k, E.Length);
      BelowNext(E[..], mean, k);
      HoldsNext(smalls.Items(), E[..], mean, k, true);
      HoldsNext(bigs.Items(), E[..], mean, k, false);
      var status;
      if A[k] == 0 {
        status := smalls.Push(k);
      } else {
        status := bigs.Push(k);
      }
    }
  }

  lemma BelowNext(E: seq<real>, mean: real, k: nat)
    requires k < |E|
    ensures Below(E, mean, k + 1) == Below(E, mean, k) + if E[k] < mean then 1 else 0
  {
  }

  lemma HoldsNone(E: seq<real>, mean: real)
    ensures Holds([], E, mean, 0, true) && Holds([], E, mean, 0, false) && Below(E, mean, 0) == 0
  {
  }

  /** How many of the first n are below the mean. */
  function Below(E: seq<real>, mean: real, n: nat): (r: nat)
    requires n <= |E|
    ensures r <= n
  {
    if n == 0 then 0 else Below(E, mean, n - 1) + if E[n - 1] < mean then 1 else 0
  }

  lemma {:induction false} BelowOrder(E: seq<real>, mean: real, k: nat, n: nat)
    requires k < n <= |E|
    ensures Below(E, mean, k) + (if E[k] < mean then 1 else 0) <= Below(E, mean, n)
    ensures k - Below(E, mean, k) + (if E[k] < mean then 0 else 1) <= n - Below(E, mean, n)
  {
    if k + 1 < n {
      BelowOrder(E, mean, k, n - 1);
    }
  }

  lemma Start(P: seq<real>, E: seq<real>, fin: seq<bool>, F: seq<real>, A: seq<nat>, smalls: seq<nat>, bigs: seq<nat>, total: real, mean: real)
    requires |P| == |E| == |fin| == |F| == |A| && |P| > 0 && total == TotalOf(P) > 0.0 && mean == 1.0 / |P| as real
    requires forall k {:trigger E[k]} :: 0 <= k < |P| ==> E[k] == Positive(P[k]) / total
    requires forall k {:trigger fin[k]} :: 0 <= k < |fin| ==> !fin[k]
    requires Holds(smalls, E, mean, |E|, true) && Holds(bigs, E, mean, |E|, false)
    ensures Building(E, E, fin, F, A, smalls, bigs, mean)
  {
    hide Times, Positive, TotalOf, Excess, Levels, Stacked, Holds, Mass, Conserved;
    StartExcess(P, E, fin, total, mean);
    StartLevels(P, E, total, mean, smalls, bigs);
    StartStacked(E, fin, mean, smalls, bigs);
    StartConserved(E, fin, F, A);
  }

  lemma StartStacked(E: seq<real>, fin: seq<bool>, mean: real, smalls: seq<nat>, bigs: seq<nat>)
    requires |fin| == |E| && Holds(smalls, E, mean, |E|, true) && Holds(bigs, E, mean, |E|, false)
    requires forall k {:trigger fin[k]} :: 0 <= k < |fin| ==> !fin[k]
    ensures Stacked(fin, smalls, bigs)
  {
    hide Distinct;
    forall k: nat | k < |fin|
      ensures k in smalls || k in bigs
    {
      var e := E[k];
    }
    Separate(E, mean, smalls, bigs);
    HoldsDistinct(E, mean, smalls, bigs);
  }

  lemma HoldsDistinct(E: seq<real>, mean: real, smalls: seq<nat>, bigs: seq<nat>)
    requires Holds(smalls, E, mean, |E|, true) && Holds(bigs, E, mean, |E|, false)
    ensures Distinct(smalls) && Distinct(bigs)
  {
  }

  lemma Separate(E: seq<real>, mean: real, smalls: seq<nat>, bigs: seq<nat>)
    requires Holds(smalls, E, mean, |E|, true) && Holds(bigs, E, mean, |E|, false)
    ensures forall k {:trigger k in smalls} :: k in smalls ==> k < |E| && k !in bigs
  {
    hide Distinct;
  }

  lemma StartConserved(E: seq<real>, fin: seq<bool>, F: seq<real>, A: seq<nat>)
    requires |E| == |fin| == |F| == |A| && forall k {:trigger fin[k]} :: 0 <= k < |fin| ==> !fin[k]
    ensures Conserved(E, E, fin, F, A, |E| as real)
  {
    hide Times;
    forall k: nat | k < |E|
      ensures Mass(fin, F, A, k, |F|) == 0.0 && !fin[k]
    {
      MassNone(fin, F, A, k, |F|);
    }
  }

  lemma StartExcess(P: seq<real>, E: seq<real>, fin: seq<bool>, total: real, mean: real)
    requires |P| == |E| == |fin| && |P| > 0 && total == TotalOf(P) > 0.0 && mean == 1.0 / |P| as real
    requires forall k {:trigger E[k]} :: 0 <= k < |P| ==> E[k] == Positive(P[k]) / total
    requires forall k {:trigger fin[k]} :: 0 <= k < |fin| ==> !fin[k]
    ensures Excess(fin, E, mean, |E|) == 0.0 && Times(|E| as real, mean) == 1.0
  {
    hide Times, Excess;
    ExcessStart(fin, E, P, total, mean, |P|);
    assert P[..|P|] == P;
    SelfQuotient(total);
    MeanTimes(|P|, mean);
  }

  lemma StartLevels(P: seq<real>, E: seq<real>, total: real, mean: real, smalls: seq<nat>, bigs: seq<nat>)
    requires |P| == |E| && total > 0.0
    requires forall k {:trigger E[k]} :: 0 <= k < |P| ==> E[k] == Positive(P[k]) / total
    requires Holds(smalls, E, mean, |E|, true) && Holds(bigs, E, mean, |E|, false)
    ensures Levels(E, mean, smalls, bigs)
  {
    hide Positive;
    forall k | 0 <= k < |E|
      ensures 0.0 <= E[k]
    {
      PositiveSign(P[k]);
      QuotientSign(Positive(P[k]), total);
    }
  }

  lemma PositiveSign(p: real)
    ensures Positive(p) >= 0.0
  {
  }

  lemma SelfQuotient(x: real)
    requires x > 0.0
    ensures x / x == 1.0
  {
  }

  lemma MeanTimes(n: nat, mean: real)
    requires n > 0 && mean == 1.0 / n as real
    ensures Times(n as real, mean) == 1.0
  {
  }

  /** One turn of the loop over the smalls. */
  method Turn(ghost E0: seq<real>, E: array<real>, ghost fin0: seq<bool>, F: array<real>, A: array<nat>, smalls: Stack, bigs: Stack, mean: real)
      returns (ghost fin: seq<bool>)
    requires smalls.Valid() && bigs.Valid() && smalls != bigs && smalls.v != bigs.v && smalls.v != A && bigs.v != A && E != F
    requires Building(E0, E[..], fin0, F[..], A[..], smalls.Items(), bigs.Items(), mean) && smalls.i > 0
    modifies E, F, A, smalls`i, smalls.v, bigs`i, bigs.v
    ensures smalls.Valid() && bigs.Valid() && smalls.i + bigs.i < old(smalls.i + bigs.i)
    ensures Building(E0, E[..], fin, F[..], A[..], smalls.Items(), bigs.Items(), mean)
  {
    hide Times, Building;
    ghost var E1, F1, A1, s1, b1 := E[..], F[..], A[..], smalls.Items(), bigs.Items();
    SameSizes(E0, E1, fin0, F1, A1, s1, b1, mean);
    fin := fin0;
    var s := smalls.Pop();
    assert s1[..|s1| - 1] == smalls.Items();
    if bigs.i == 0 {
      TurnNoBigs(E0, E1, fin0, F1, A1, s1, mean);
      A[s] := s;
      F[s] := 1.0;
      fin := fin0[s := true];
      assert A[..] == A1[s := s] && F[..] == F1[s := 1.0];
      return;
    }
    TurnPair(E0, E1, fin0, F1, A1, s1, b1, mean);
    var b := bigs.Pop();
    assert b1[..|b1| - 1] == bigs.Items();
    A[s] := b;
    F[s] := Times(E.Length as real, E[s]);
    var d := mean - E[s];
    E[s] := E[s] + d;
    E[b] := E[b] - d;
    fin := fin0[s := true];
    ghost var A2, F2 := A1[s := b], F1[s := Times(|E0| as real, E1[s])];
    assert A[..] == A2 && F[..] == F2 && E[..] == E1[s := mean][b := E1[b] - (mean - E1[s])];
    if E[b] < mean {
      var status := smalls.Push(b);
    } else if E[b] > mean {
      var status := bigs.Push(b);
    } else {
      A[b] := b;
      F[b] := 1.0;
      fin := fin[b := true];
      assert A[..] == A2[b := b] && F[..] == F2[b := 1.0];
    }
  }

  /** The loop over the bigs that are left. */
  method Drain(ghost E0: seq<real>, ghost E: seq<real>, ghost fin0: seq<bool>, F: array<real>, A: array<nat>, bigs: Stack, ghost mean: real)
      returns (ghost fin: seq<bool>)
    requires bigs.Valid() && bigs.v != A && Building(E0, E, fin0, F[..], A[..], [], bigs.Items(), mean)
    modifies F, A, bigs`i
    ensures bigs.Valid() && bigs.i == 0 && Building(E0, E, fin, F[..], A[..], [], [], mean)
  {
    hide Building;
    fin := fin0;
    while bigs.i > 0
      invariant bigs.Valid() && Building(E0, E, fin, F[..], A[..], [], bigs.Items(), mean)
      decreases bigs.i
    {
      ghost var before, A0, F0 := bigs.Items(), A[..], F[..];
      SameSizes(E0, E, fin, F0, A0, [], before, mean);
      TurnNoSmalls(E0, E, fin, F0, A0, before, mean);
      var b := bigs.Pop();
      assert bigs.Items() == before[..|before| - 1];
      A[b] := b;
      F[b] := 1.0;
      fin := fin[b := true];
      assert A[..] == A0[b := b] && F[..] == F0[b := 1.0];
    }
    assert bigs.Items() == [];
  }

  lemma SameSizes(E0: seq<real>, E: seq<real>, fin: seq<bool>, F: seq<real>, A: seq<nat>, smalls: seq<nat>, bigs: seq<nat>, mean: real)
    requires Building(E0, E, fin, F, A, smalls, bigs, mean)
    ensures |E0| == |E| == |fin| == |F| == |A|
  {
  }

  /** The Knuth convention: F'[k] = (k + F[k]) / K. */
  method Knuth(F: array<real>)
    requires F.Length > 0
    modifies F
    ensures forall j {:trigger F[j]} :: 0 <= j < F.Length ==> F[j] == (j as real + old(F[j])) / F.Length as real
  {
    for k := 0 to F.Length
      invariant forall j {:trigger F[j]} :: 0 <= j < F.Length ==> F[j] == if j < k then (j as real + old(F[j])) / F.Length as real else old(F[j])
    {
      F[k] := F[k] + k as real;
      F[k] := F[k] / F.Length as real;
    }
  }

  /**
    `gsl_ran_discretef_preproc0` from its first loop on, for positive total weight: the table gives each index exactly its share,
    all fractions are in [0, 1], all aliases in range, and no push overflows.
   */
  method BuildTable(P: seq<real>) returns (t: AliasTable, total: real)
    requires |P| > 0 && TotalOf(P) > 0.0
    ensures ValidTable(t) && SelfWhole(t) && t.K == |P| && total == TotalOf(P)
    ensures forall k {:trigger P[k]} :: 0 <= k < |P| ==> Law(t, k) == Positive(P[k]) / total
  {
    hide Times, Law, ValidTable, SelfWhole, Building, Columns, Conserved, Positive;
    var E;
    E, total := Normalise(P);
    var F, A := new real[|P|], new nat[|P|];
    var mean := 1.0 / |P| as real;
    var smalls, bigs := FillStacks(E, mean, A);
    ghost var E0 := E[..];
    assert forall k {:trigger E0[k]} :: 0 <= k < |P| ==> E0[k] == Positive(P[k]) / total;
    ghost var fin := seq(|P|, _ => false);
    Start(P, E0, fin, F[..], A[..], smalls.Items(), bigs.Items(), total, mean);
    while smalls.i > 0
      invariant smalls.Valid() && bigs.Valid()
      invariant Building(E0, E[..], fin, F[..], A[..], smalls.Items(), bigs.Items(), mean)
      decreases smalls.i + bigs.i
    {
      fin := Turn(E0, E, fin, F, A, smalls, bigs, mean);
    }
    assert smalls.Items() == [];
    fin := Drain(E0, E[..], fin, F, A, bigs, mean);
    SameSizes(E0, E[..], fin, F[..], A[..], [], [], mean);
    BuildingDone(E0, E[..], fin, F[..], A[..], mean);
    ghost var fractions, E1 := F[..], E[..];
    Knuth(F);
    t := AliasTable(|P|, F[..], A[..]);
    FinishedLaw(E0, E1, fin, fractions, t);
    forall k | 0 <= k < |P|
      ensures Law(t, k) == Positive(P[k]) / total
    {
      assert Law(t, k) == E0[k];
    }
  }

  datatype Made = Invalid | Made(table: AliasTable, total: real)

  /** `gsl_ran_discretef_preproc0`: no events is an error; the weights of at least one event must not all be zero. */
  method Preproc0(P: seq<real>) returns (r: Made)
    requires |P| > 0 ==> TotalOf(P) > 0.0
    ensures r.Invalid? <==> |P| == 0
    ensures r.Made? ==> ValidTable(r.table) && SelfWhole(r.table) && r.table.K == |P| && r.total == TotalOf(P)
    ensures r.Made? ==> r.total > 0.0 && forall k {:trigger P[k]} :: 0 <= k < |P| ==> Law(r.table, k) == if P[k] > 0.0 then P[k] / r.total else 0.0
  {
    if |P| < 1 {
      return Invalid;
    }
    var t, total := BuildTable(P);
    forall k | 0 <= k < |P|
      ensures Law(t, k) == if P[k] > 0.0 then P[k] / total else 0.0
    {
      PositivePart(P[k], total);
    }
    return Made(t, total);
  }

  /** `gsl_ran_discretef_pdf`: the loop that adds up the parts of an index. */
  method Pdf(k: nat, t: AliasTable) returns (p: real)
    requires ValidTable(t)
    ensures k <= t.K ==> p == Law(t, k)
    ensures k >= t.K ==> p == 0.0
  {
    hide Fraction;
    if k > t.K {
      return 0.0;
    }
    p := 0.0;
    for i := 0 to t.K
      invariant p == LawUpTo(t, k, i)
    {
      var f := Fraction(t, i);
      if i == k {
        p := p + f;
      } else if k == t.A[i] {
        p := p + (1.0 - f);
      }
    }
    NoPart(t, k, t.K);
    p := p / t.K as real;
  }

  /** Indices out of range get nothing. */
  lemma {:induction false} NoPart(t: AliasTable, k: nat, n: nat)
    requires ValidTable(t) && n <= t.K
    ensures k >= t.K ==> LawUpTo(t, k, n) == 0.0
  {
    if n > 0 {
      NoPart(t, k, n - 1);
    }
  }
}

/** `ompdiscrete.c`: one alias table per block of events and one for the blocks. */
module BlockSampler {
  import Numbers
  import opened AliasLaws
  import opened AliasSampler

  /** ran_discrete_omp_t. */
  datatype Blocks = Blocks(ranroot: AliasTable, rans: seq<AliasTable>, starts: seq<nat>)

  /** Where block tid starts. */
  function StartOf(K: nat, threads: nat, tid: nat): nat
    requires threads > 0
  {
    K * tid / threads
  }

  /** StartOf is the rounded-down quotient. */
  lemma StartSpec(K: nat, threads: nat, tid: nat)
    requires threads > 0
    ensures StartOf(K, threads, tid) * threads <= tid * K < (StartOf(K, threads, tid) + 1) * threads
  {
    var x := K * tid;
    assert x / threads * threads + x % threads == x;
  }

  lemma QuotientOrder(q: int, r: int, d: nat)
    requires q * d < (r + 1) * d
    ensures q <= r
  {
    if q >= r + 1 {
      Numbers.TimesOrder(q, r + 1, d);
    }
  }

  lemma StartOrder(K: nat, threads: nat, a: nat, b: nat)
    requires threads > 0 && a <= b <= threads
    ensures StartOf(K, threads, a) <= StartOf(K, threads, b) <= K
    ensures StartOf(K, threads, 0) == 0 && StartOf(K, threads, threads) == K
  {
    hide StartOf;
    StartSpec(K, threads, a);
    StartSpec(K, threads, b);
    StartSpec(K, threads, threads);
    StartSpec(K, threads, 0);
    Numbers.TimesOrder(b, a, K);
    Numbers.TimesOrder(threads, b, K);
    QuotientOrder(StartOf(K, threads, a), StartOf(K, threads, b), threads);
    Commute(K, threads);
    QuotientOrder(StartOf(K, threads, b), K, threads);
    QuotientOrder(StartOf(K, threads, threads), K, threads);
    QuotientOrder(K, StartOf(K, threads, threads), threads);
    QuotientOrder(StartOf(K, threads, 0), 0, threads);
  }

  lemma Commute(K: nat, d: nat)
    requires d > 0
    ensures d * K == K * d < (K + 1) * d && 0 * K == 0 < (0 + 1) * d
  {
  }

  /** The events of block tid. */
  function Block(P: seq<real>, threads: nat, tid: nat): seq<real>
    requires tid < threads
  {
    StartOrder(|P|, threads, tid, tid + 1);
    P[StartOf(|P|, threads, tid)..StartOf(|P|, threads, tid + 1)]
  }

  /** Every block has positive weight (so no block is empty). */
  ghost predicate AllPositive(P: seq<real>, threads: nat) {
    threads > 0 && forall tid: nat {:trigger Block(P, threads, tid)} :: tid < threads ==> TotalOf(Block(P, threads, tid)) > 0.0
  }

  lemma {:induction false} TotalJoin(p: seq<real>, q: seq<real>)
    ensures TotalOf(p + q) == TotalOf(p) + TotalOf(q)
  {
    if q == [] {
      assert p + q == p;
    } else {
      assert (p + q)[..|p + q| - 1] == p + q[..|q| - 1];
      TotalJoin(p, q[..|q| - 1]);
    }
  }

  /** The totals of the first n blocks add up to the weight of the events before block n. */
  lemma {:induction false} TotalsJoin(P: seq<real>, threads: nat, totals: seq<real>, n: nat)
    requires n <= threads == |totals| && threads > 0
    requires forall tid: nat {:trigger totals[tid]} :: tid < threads ==> totals[tid] == TotalOf(Block(P, threads, tid)) > 0.0
    ensures StartOf(|P|, threads, n) <= |P| && TotalOf(totals[..n]) == TotalOf(P[..StartOf(|P|, threads, n)])
    ensures n > 0 ==> TotalOf(totals[..n]) > 0.0
  {
    hide StartOf;
    StartOrder(|P|, threads, n, n);
    if n > 0 {
      TotalsJoin(P, threads, totals, n - 1);
      StartOrder(|P|, threads, n - 1, n);
      assert totals[..n][..n - 1] == totals[..n - 1];
      var a, b := StartOf(|P|, threads, n - 1), StartOf(|P|, threads, n);
      assert P[..b] == P[..a] + P[a..b];
      TotalJoin(P[..a], P[a..b]);
      assert Block(P, threads, n - 1) == P[a..b];
      assert totals[n - 1] == TotalOf(Block(P, threads, n - 1));
      if n == 1 {
        assert totals[..0] == [];
      }
    } else {
      assert totals[..0] == [] && P[..0] == [];
    }
  }

  ghost predicate ValidBlocks(g: Blocks) {
    && ValidTable(g.ranroot) && SelfWhole(g.ranroot) && |g.rans| == |g.starts| == g.ranroot.K
    && forall b {:trigger g.rans[b]} {:trigger g.starts[b]} :: 0 <= b < |g.rans| ==> ValidTable(g.rans[b]) && SelfWhole(g.rans[b])
  }

  /** The tables fit the blocks of P. */
  ghost predicate Fits(P: seq<real>, threads: nat, g: Blocks) {
    && ValidBlocks(g) && g.ranroot.K == threads > 0 && TotalOf(P) > 0.0
    && forall tid: nat {:trigger g.starts[tid]} {:trigger g.rans[tid]} :: tid < threads ==>
      BlockTable(P, threads, tid, g.starts[tid], g.rans[tid]) && Law(g.ranroot, tid) == TotalOf(Block(P, threads, tid)) / TotalOf(P)
  }

  /** The part of `ran_discrete_omp_preproc` that thread tid runs. */
  method BlockPart(P: seq<real>, threads: nat, tid: nat) returns (start: nat, t: AliasTable, total: real)
    requires tid < threads && TotalOf(Block(P, threads, tid)) > 0.0
    ensures BlockTable(P, threads, tid, start, t) && total == TotalOf(Block(P, threads, tid))
  {
    hide ValidTable, SelfWhole, Law, TotalOf, Positive;
    start := |P| * tid / threads;
    var end := |P| * (tid + 1) / threads;
    StartOrder(|P|, threads, tid, tid + 1);
    assert P[start..end] == Block(P, threads, tid);
    EmptyTotal();
    t, total := BuildTable(P[start..end]);
  }

  /** `ran_discrete_omp_preproc`, every thread making the table of its own block. */
  method Preproc(P: seq<real>, threads: nat) returns (g: Blocks)
    requires AllPositive(P, threads)
    ensures Fits(P, threads, g)
  {
    hide ValidTable, SelfWhole, Law, TotalOf, StartOf, Positive, BlockTable, Block;
    var starts: seq<nat>, rans: seq<AliasTable>, ptotal: seq<real> := [], [], [];
    for tid := 0 to threads
      invariant |starts| == |rans| == |ptotal| == tid
      invariant forall b: nat {:trigger starts[b]} {:trigger rans[b]} :: b < tid ==> BlockTable(P, threads, b, starts[b], rans[b])
      invariant forall b: nat {:trigger ptotal[b]} :: b < tid ==> ptotal[b] == TotalOf(Block(P, threads, b)) > 0.0
    {
      assert TotalOf(Block(P, threads, tid)) > 0.0;
      var start, t, total := BlockPart(P, threads, tid);
      starts, rans, ptotal := starts + [start], rans + [t], ptotal + [total];
    }
    TotalsJoin(P, threads, ptotal, threads);
    StartOrder(|P|, threads, threads, threads);
    assert ptotal[..threads] == ptotal && P[..|P|] == P;
    var root, all := BuildTable(ptotal);
    g := Blocks(root, rans, starts);
    forall tid: nat | tid < threads
      ensures ValidTable(rans[tid]) && SelfWhole(rans[tid])
      ensures Law(root, tid) == TotalOf(Block(P, threads, tid)) / TotalOf(P)
    {
      BlockTableValid(P, threads, tid, starts[tid], rans[tid]);
      assert Law(root, tid) == Positive(ptotal[tid]) / all;
      PositiveIs(ptotal[tid]);
    }
  }

  lemma PositiveIs(p: real)
    requires p > 0.0
    ensures Positive(p) == p
  {
  }

  lemma BlockTableValid(P: seq<real>, threads: nat, tid: nat, start: nat, t: AliasTable)
    requires tid < threads && BlockTable(P, threads, tid, start, t)
    ensures ValidTable(t) && SelfWhole(t)
  {
  }

  lemma EmptyTotal()
    ensures TotalOf([]) == 0.0
  {
  }

  ghost predicate BlockTable(P: seq<real>, threads: nat, tid: nat, start: nat, t: AliasTable)
    requires tid < threads
  {
    && start == StartOf(|P|, threads, tid) && ValidTable(t) && SelfWhole(t) && t.K == |Block(P, threads, tid)|
    && TotalOf(Block(P, threads, tid)) > 0.0
    && forall k: nat {:trigger Law(t, k)} :: k < t.K ==> Law(t, k) == Positive(Block(P, threads, tid)[k]) / TotalOf(Block(P, threads, tid))
  }

  /** u and v are uniform numbers of [0, 1). */
  ghost predicate Drawable(g: Blocks, u: real, v: real) {
    && 0.0 <= u && Times(g.ranroot.K as real, u) < g.ranroot.K as real && 0.0 <= v
    && forall b {:trigger g.rans[b]} :: 0 <= b < |g.rans| ==> Times(g.rans[b].K as real, v) < g.rans[b].K as real
  }

  /** `ran_discrete_omp` with one uniform number for the block and one within it. */
  ghost function SampleBlocks(g: Blocks, u: real, v: real): nat
    requires ValidBlocks(g) && Drawable(g, u, v)
  {
    SampleInRange(g.ranroot, u);
    var block := Sample(g.ranroot, u);
    g.starts[block] + Sample(g.rans[block], v)
  }

  lemma UnitDrawable(g: Blocks, u: real, v: real)
    requires ValidBlocks(g) && 0.0 <= u < 1.0 && 0.0 <= v < 1.0
    ensures Drawable(g, u, v)
  {
    hide Times;
    UnitScaled(g.ranroot.K, u);
    forall b | 0 <= b < |g.rans|
      ensures Times(g.rans[b].K as real, v) < g.rans[b].K as real
    {
      UnitScaled(g.rans[b].K, v);
    }
  }

  lemma SampleInRange(t: AliasTable, u: real)
    requires ValidTable(t) && 0.0 <= u && Times(t.K as real, u) < t.K as real
    ensures Sample(t, u) < t.K
  {
    ColumnOf(t.K, u);
  }

  /** The block of an event is unique. */
  lemma {:induction false} BlockUnique(K: nat, threads: nat, a: nat, b: nat, i: nat)
    requires a < threads && b < threads
    requires StartOf(K, threads, a) <= i < StartOf(K, threads, a + 1) && StartOf(K, threads, b) <= i < StartOf(K, threads, b + 1)
    ensures a == b
  {
    hide StartOf;
    if a < b {
      StartOrder(K, threads, a + 1, b);
    } else if b < a {
      StartOrder(K, threads, b + 1, a);
    }
  }

  /** The blocks lie where they should. */
  ghost predicate Laid(P: seq<real>, threads: nat, g: Blocks) {
    && |g.starts| == |g.rans| == threads == g.ranroot.K
    && forall b: nat {:trigger g.starts[b]} {:trigger g.rans[b]} :: b < threads ==>
      g.starts[b] == StartOf(|P|, threads, b) && g.rans[b].K == |Block(P, threads, b)|
  }

  lemma FitsLaid(P: seq<real>, threads: nat, g: Blocks)
    requires Fits(P, threads, g)
    ensures Laid(P, threads, g) && ValidBlocks(g)
  {
    hide Law, TotalOf, ValidTable, SelfWhole, Positive, Block, StartOf;
    forall b: nat | b < threads
      ensures g.starts[b] == StartOf(|P|, threads, b) && g.rans[b].K == |Block(P, threads, b)|
    {
      assert BlockTable(P, threads, b, g.starts[b], g.rans[b]);
    }
  }

  /** The sampler gives event i exactly when its block and its place in the block are drawn. */
  lemma SampleIsPair(P: seq<real>, threads: nat, g: Blocks, u: real, v: real, tid: nat, k: nat)
    requires ValidBlocks(g) && Drawable(g, u, v) && Laid(P, threads, g) && tid < threads && k < |Block(P, threads, tid)|
    ensures SampleBlocks(g, u, v) == StartOf(|P|, threads, tid) + k <==> Sample(g.ranroot, u) == tid && Sample(g.rans[tid], v) == k
  {
    hide Sample, ValidTable, SelfWhole, StartOf, Times, Block;
    SampleInRange(g.ranroot, u);
    var block := Sample(g.ranroot, u);
    SampleInRange(g.rans[block], v);
    BlockLength(P, threads, block);
    BlockLength(P, threads, tid);
    assert g.starts[block] == StartOf(|P|, threads, block) && g.starts[tid] == StartOf(|P|, threads, tid);
    if SampleBlocks(g, u, v) == StartOf(|P|, threads, tid) + k {
      BlockUnique(|P|, threads, block, tid, StartOf(|P|, threads, tid) + k);
    }
  }

  lemma BlockLength(P: seq<real>, threads: nat, tid: nat)
    requires tid < threads
    ensures StartOf(|P|, threads, tid) + |Block(P, threads, tid)| == StartOf(|P|, threads, tid + 1)
  {
    StartOrder(|P|, threads, tid, tid + 1);
  }

  lemma FitsAt(P: seq<real>, threads: nat, g: Blocks, tid: nat, k: nat)
    requires Fits(P, threads, g) && tid < threads && k < |Block(P, threads, tid)|
    ensures ValidBlocks(g) && g.ranroot.K == threads && g.rans[tid].K == |Block(P, threads, tid)|
    ensures TotalOf(P) > 0.0 && TotalOf(Block(P, threads, tid)) > 0.0
    ensures Law(g.ranroot, tid) == TotalOf(Block(P, threads, tid)) / TotalOf(P)
    ensures Law(g.rans[tid], k) == Positive(Block(P, threads, tid)[k]) / TotalOf(Block(P, threads, tid))
  {
    hide Law, TotalOf, ValidTable, SelfWhole, Positive, Block, StartOf;
    assert BlockTable(P, threads, tid, g.starts[tid], g.rans[tid]);
  }

  /** The two-level law is the same as that of one table: the weight of the event over the total weight. */
  lemma TwoLevelLaw(P: seq<real>, threads: nat, g: Blocks, tid: nat, k: nat)
    requires Fits(P, threads, g) && tid < threads && k < |Block(P, threads, tid)|
    ensures ValidBlocks(g) && tid < |g.rans| && StartOf(|P|, threads, tid) + k < |P|
    ensures Law(g.ranroot, tid) * Law(g.rans[tid], k) == Positive(P[StartOf(|P|, threads, tid) + k]) / TotalOf(P)
  {
    hide Law, TotalOf, ValidTable, SelfWhole, Positive, StartOf, Block, Fits;
    FitsAt(P, threads, g, tid, k);
    BlockEntry(P, threads, tid, k);
    Cancel(Law(g.ranroot, tid), Law(g.rans[tid], k), TotalOf(Block(P, threads, tid)), Positive(Block(P, threads, tid)[k]), TotalOf(P));
  }

  /** The block of event i among those from tid on. */
  ghost function BlockOf(K: nat, threads: nat, i: nat, tid: nat): (r: nat)
    requires threads > 0 && i < K && tid < threads && StartOf(K, threads, tid) <= i
    ensures tid <= r < threads && StartOf(K, threads, r) <= i < StartOf(K, threads, r + 1)
    decreases threads - tid
  {
    StartOrder(K, threads, tid, tid + 1);
    if i < StartOf(K, threads, tid + 1) then tid else BlockOf(K, threads, i, tid + 1)
  }

  /**
    Every event is in one block, at one place, and has the law of one table: the numbers that give it are those that give
    its block and its place, and the product of their probabilities is its weight over the total weight.
   */
  lemma EventLaw(P: seq<real>, threads: nat, g: Blocks, i: nat) returns (tid: nat, k: nat)
    requires Fits(P, threads, g) && threads > 0 && i < |P|
    ensures ValidBlocks(g) && tid < threads == |g.rans| && k < |Block(P, threads, tid)| && i == StartOf(|P|, threads, tid) + k
    ensures TotalOf(P) > 0.0 && Law(g.ranroot, tid) * Law(g.rans[tid], k) == if P[i] > 0.0 then P[i] / TotalOf(P) else 0.0
    ensures forall u, v {:trigger Drawable(g, u, v)} :: Drawable(g, u, v) ==> (SampleBlocks(g, u, v) == i <==> Sample(g.ranroot, u) == tid && Sample(g.rans[tid], v) == k)
  {
    hide Law, TotalOf, ValidTable, SelfWhole, Positive, StartOf, Block, Fits, Sample, SampleBlocks, Times;
    StartOrder(|P|, threads, 0, 0);
    tid := BlockOf(|P|, threads, i, 0);
    k := i - StartOf(|P|, threads, tid);
    BlockLength(P, threads, tid);
    TwoLevelLaw(P, threads, g, tid, k);
    FitsAt(P, threads, g, tid, k);
    PositivePart(P[i], TotalOf(P));
    FitsLaid(P, threads, g);
    forall u, v | Drawable(g, u, v)
      ensures SampleBlocks(g, u, v) == i <==> Sample(g.ranroot, u) == tid && Sample(g.rans[tid], v) == k
    {
      SampleIsPair(P, threads, g, u, v, tid, k);
    }
  }

  lemma BlockEntry(P: seq<real>, threads: nat, tid: nat, k: nat)
    requires tid < threads && k < |Block(P, threads, tid)|
    ensures StartOf(|P|, threads, tid) + k < |P| && Block(P, threads, tid)[k] == P[StartOf(|P|, threads, tid) + k]
  {
    hide StartOf;
    StartOrder(|P|, threads, tid, tid + 1);
  }

  lemma Cancel(x: real, y: real, b: real, p: real, t: real)
    requires b > 0.0 && t > 0.0 && x == b / t && y == p / b
    ensures x * y == p / t
  {
    assert x * t == b && y * b == p;
    assert (x * y) * t == y * b;
  }
}
