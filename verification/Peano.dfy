/** The tables of `peano.c`. */
module PeanoTables {
  // A row has one hexadecimal digit (two in rottable3) for each of the eight octants; rows are selected by halving.

  /** rottable3. */
  function RotRow(i: bv6): bv64 {
    if i < 32 then
      if i < 16 then
        if i < 8 then
          if i < 4 then
            if i < 2 then
              if i < 1 then 0x24_1C_19_1B_0A_0A_19_1B else 0x1D_0B_18_18_25_0B_1A_1A
            else
              if i < 3 then 0x08_08_19_1B_1E_26_19_1B else 0x09_27_18_18_09_1F_1A_1A
          else
            if i < 6 then
              if i < 5 then 0x28_18_2C_20_28_06_2C_06 else 0x19_07_21_07_29_29_2D_2D
            else
              if i < 7 then 0x04_2A_04_2E_1A_2A_22_2E else 0x2B_2B_2F_2F_05_1B_05_23
        else
          if i < 12 then
            if i < 10 then
              if i < 9 then 0x21_23_24_1C_21_23_02_02 else 0x20_20_1D_03_22_22_25_03
            else
              if i < 11 then 0x21_23_00_00_21_23_1E_26 else 0x20_20_01_27_22_22_01_1F
          else
            if i < 14 then
              if i < 13 then 0x18_2A_20_2E_0E_2A_0E_2E else 0x2B_2B_2F_2F_19_0F_21_0F
            else
              if i < 15 then 0x28_0C_2C_0C_28_1A_2C_22 else 0x0D_1B_0D_23_29_29_2D_2D
      else
        if i < 24 then
          if i < 20 then
            if i < 18 then
              if i < 17 then 0x1C_29_1C_16_26_2B_26_16 else 0x2A_28_17_17_1D_27_1D_27
            else
              if i < 19 then 0x29_24_14_24_2B_1E_14_1E else 0x25_1F_25_1F_2A_28_15_15
          else
            if i < 22 then
              if i < 21 then 0x1C_12_1C_2D_26_12_26_2F else 0x13_13_2E_2C_1D_27_1D_27
            else
              if i < 23 then 0x10_24_2D_24_10_1E_2F_1E else 0x25_1F_25_1F_11_11_2E_2C
        else
          if i < 28 then
            if i < 26 then
              if i < 25 then 0x0C_04_01_03_22_22_01_03 else 0x05_23_00_00_0D_23_02_02
            else
              if i < 27 then 0x20_20_01_03_06_0E_01_03 else 0x21_0F_00_00_21_07_02_02
          else
            if i < 30 then
              if i < 29 then 0x10_00_14_08_10_1E_14_1E else 0x01_1F_09_1F_11_11_15_15
            else
              if i < 31 then 0x1C_12_1C_16_02_12_0A_16 else 0x13_13_17_17_1D_03_1D_0B
    else
      if i < 40 then
        if i < 36 then
          if i < 34 then
            if i < 33 then 0x09_0B_0C_04_09_0B_1A_1A else 0x08_08_05_1B_0A_0A_0D_1B
          else
            if i < 35 then 0x09_0B_18_18_09_0B_06_0E else 0x08_08_19_0F_0A_0A_19_07
        else
          if i < 38 then
            if i < 37 then 0x00_12_08_16_26_12_26_16 else 0x13_13_17_17_01_27_09_27
          else
            if i < 39 then 0x10_24_14_24_10_02_14_0A else 0x25_03_25_0B_11_11_15_15
      else
        if i < 44 then
          if i < 42 then
            if i < 41 then 0x04_11_04_2E_0E_13_0E_2E else 0x12_10_2F_2F_05_0F_05_0F
          else
            if i < 43 then 0x11_0C_2C_0C_13_06_2C_06 else 0x0D_07_0D_07_12_10_2D_2D
        else
          if i < 46 then
            if i < 45 then 0x04_2A_04_15_0E_2A_0E_17 else 0x2B_2B_16_14_05_0F_05_0F
          else
            if i < 47 then 0x28_0C_15_0C_28_06_17_06 else 0x0D_07_0D_07_29_29_16_14
  }

  /** subpix3. */
  function SubRow(i: bv6): bv32 {
    if i < 32 then
      if i < 16 then
        if i < 8 then
          if i < 4 then
            if i < 2 then
              if i < 1 then 0x07163425 else 0x74650312
            else
              if i < 3 then 0x43527061 else 0x30214756
          else
            if i < 6 then
              if i < 5 then 0x10672354 else 0x03741265
            else
              if i < 7 then 0x32450176 else 0x21563047
        else
          if i < 12 then
            if i < 10 then
              if i < 9 then 0x61705243 else 0x12036574
            else
              if i < 11 then 0x25341607 else 0x56472130
          else
            if i < 14 then
              if i < 13 then 0x76014532 else 0x65127403
            else
              if i < 15 then 0x54236710 else 0x47305621
      else
        if i < 24 then
          if i < 20 then
            if i < 18 then
              if i < 17 then 0x67541023 else 0x70436152
            else
              if i < 19 then 0x01327645 else 0x16250734
          else
            if i < 22 then
              if i < 21 then 0x23105467 else 0x34072516
            else
              if i < 23 then 0x45763201 else 0x52614370
        else
          if i < 28 then
            if i < 26 then
              if i < 25 then 0x70614352 else 0x03127465
            else
              if i < 27 then 0x34250716 else 0x47563021
          else
            if i < 30 then
              if i < 29 then 0x67105423 else 0x74036512
            else
              if i < 31 then 0x45327601 else 0x56214730
    else
      if i < 40 then
        if i < 36 then
          if i < 34 then
            if i < 33 then 0x16072534 else 0x65741203
          else
            if i < 35 then 0x52436170 else 0x21305647
        else
          if i < 38 then
            if i < 37 then 0x01763245 else 0x12650374
          else
            if i < 39 then 0x23541067 else 0x30472156
      else
        if i < 44 then
          if i < 42 then
            if i < 41 then 0x10236754 else 0x07341625
          else
            if i < 43 then 0x76450132 else 0x61527043
        else
          if i < 46 then
            if i < 45 then 0x54672310 else 0x43705261
          else
            if i < 47 then 0x32014576 else 0x25163407
  }

  /** The state used inside octant pix. */
  function Rottable3(i: bv6, pix: bv3): bv6 {
    ((RotRow(i) >> (8 * (7 - (pix as bv6)))) & 0x3F) as bv6
  }

  /** The digit of octant pix. */
  function Subpix3(i: bv6, pix: bv3): bv3 {
    ((SubRow(i) >> (4 * (7 - (pix as bv6)))) & 7) as bv3
  }

  /** The octant with a given digit. */
  function PixOf(s: bv6, d: bv3): bv3 {
    if Subpix3(s, 0) == d then 0 else if Subpix3(s, 1) == d then 1 else if Subpix3(s, 2) == d then 2 else if Subpix3(s, 3) == d then 3
    else if Subpix3(s, 4) == d then 4 else if Subpix3(s, 5) == d then 5 else if Subpix3(s, 6) == d then 6 else 7
  }

  lemma StateStays(s: bv6, pix: bv3)
    requires s < 48
    ensures Rottable3(s, pix) < 48
  {
  }

  /** The digits of a state are a permutation of the octants. */
  lemma DigitsDistinct(s: bv6, p: bv3, q: bv3)
    requires s < 48 && p != q
    ensures Subpix3(s, p) != Subpix3(s, q)
  {
  }

  lemma DigitFound(s: bv6, d: bv3)
    requires s < 48
    ensures Subpix3(s, PixOf(s, d)) == d
  {
  }

  /** The first and the last octant of a state are those of the state used inside them. */
  lemma EntryStays(s: bv6, p: bv3)
    requires s < 48 && Subpix3(s, p) == 0
    ensures Subpix3(Rottable3(s, p), p) == 0
  {
  }

  lemma ExitStays(s: bv6, p: bv3)
    requires s < 48 && Subpix3(s, p) == 7
    ensures Subpix3(Rottable3(s, p), p) == 7
  {
  }

  /** Octants of consecutive digits are neighbours along one axis, where the curve leaves one and enters the other. */
  lemma NextTouches(s: bv6, p: bv3, q: bv3, ex: bv3, en: bv3)
    requires s < 48 && Subpix3(s, p) < 7 && Subpix3(s, q) == Subpix3(s, p) + 1
    requires Subpix3(Rottable3(s, p), ex) == 7 && Subpix3(Rottable3(s, q), en) == 0
    ensures ex ^ en == p ^ q && (p ^ q == 1 || p ^ q == 2 || p ^ q == 4) && ex & (p ^ q) == q & (p ^ q)
  {
  }

  // ----- The tables of `peano_hilbert_key_old`

  /** quadrants. */
  function QuadRow(i: bv6): bv32 {
    if i < 16 then
      if i < 8 then
        if i < 4 then
          if i < 2 then
            if i < 1 then 0x07163425 else 0x74650312
          else
            if i < 3 then 0x43527061 else 0x30214756
        else
          if i < 6 then
            if i < 5 then 0x10672354 else 0x03741265
          else
            if i < 7 then 0x32450176 else 0x21563047
      else
        if i < 12 then
          if i < 10 then
            if i < 9 then 0x61705243 else 0x12036574
          else
            if i < 11 then 0x25341607 else 0x56472130
        else
          if i < 14 then
            if i < 13 then 0x76014532 else 0x65127403
          else
            if i < 15 then 0x54236710 else 0x47305621
    else
      if i < 20 then
        if i < 18 then
          if i < 17 then 0x67541023 else 0x70436152
        else
          if i < 19 then 0x01327645 else 0x16250734
      else
        if i < 22 then
          if i < 21 then 0x23105467 else 0x34072516
        else
          if i < 23 then 0x45763201 else 0x52614370
  }

  /** The digit of octant pix before the sense. */
  function Quadrants(i: bv6, pix: bv3): bv3 {
    ((QuadRow(i) >> (4 * (7 - (pix as bv6)))) & 7) as bv3
  }

  /** rotxmap_table. */
  function RotXMap(i: bv6): bv6 {
    if i < 16 then
      if i < 8 then
        if i < 4 then
          if i < 2 then
            if i < 1 then 4 else 5
          else
            if i < 3 then 6 else 7
        else
          if i < 6 then
            if i < 5 then 8 else 9
          else
            if i < 7 then 10 else 11
      else
        if i < 12 then
          if i < 10 then
            if i < 9 then 12 else 13
          else
            if i < 11 then 14 else 15
        else
          if i < 14 then
            if i < 13 then 0 else 1
          else
            if i < 15 then 2 else 3
    else
      if i < 20 then
        if i < 18 then
          if i < 17 then 17 else 18
        else
          if i < 19 then 19 else 16
      else
        if i < 22 then
          if i < 21 then 23 else 20
        else
          if i < 23 then 21 else 22
  }

  /** rotymap_table. */
  function RotYMap(i: bv6): bv6 {
    if i < 16 then
      if i < 8 then
        if i < 4 then
          if i < 2 then
            if i < 1 then 1 else 2
          else
            if i < 3 then 3 else 0
        else
          if i < 6 then
            if i < 5 then 16 else 17
          else
            if i < 7 then 18 else 19
      else
        if i < 12 then
          if i < 10 then
            if i < 9 then 11 else 8
          else
            if i < 11 then 9 else 10
        else
          if i < 14 then
            if i < 13 then 22 else 23
          else
            if i < 15 then 20 else 21
    else
      if i < 20 then
        if i < 18 then
          if i < 17 then 14 else 15
        else
          if i < 19 then 12 else 13
      else
        if i < 22 then
          if i < 21 then 4 else 5
        else
          if i < 23 then 6 else 7
  }

  /** rotx_table. */
  function RotX(i: bv3): bv3 {
    if i < 4 then
      if i < 2 then
        if i < 1 then 3 else 0
      else
        if i < 3 then 0 else 2
    else
      if i < 6 then
        if i < 5 then 2 else 0
      else
        if i < 7 then 0 else 1
  }

  /** roty_table. */
  function RotY(i: bv3): bv3 {
    if i < 4 then
      if i < 2 then
        if i < 1 then 0 else 1
      else
        if i < 3 then 1 else 2
    else
      if i < 6 then
        if i < 5 then 2 else 3
      else
        if i < 7 then 3 else 0
  }

  /** sense_table is -1 here and +1 otherwise. */
  predicate Flips(i: bv3) {
    !(i == 3 || i == 4)
  }

  /** Applying a map up to three times. */
  function TurnX(r: bv6, n: bv3): bv6 {
    if n == 0 then r else if n == 1 then RotXMap(r) else if n == 2 then RotXMap(RotXMap(r)) else RotXMap(RotXMap(RotXMap(r)))
  }

  function TurnY(r: bv6, n: bv3): bv6 {
    if n == 0 then r else if n == 1 then RotYMap(r) else if n == 2 then RotYMap(RotYMap(r)) else RotYMap(RotYMap(RotYMap(r)))
  }

  /** The rotation used inside octant pix. */
  function Turned(r: bv6, pix: bv3): bv6 {
    TurnY(TurnX(r, RotX(Quadrants(r, pix))), RotY(Quadrants(r, pix)))
  }

  /** The state of the new machine: the rotation, or 24 more for the reversed sense. */
  predicate NextAgrees(r: bv6, pix: bv3) {
    var q := Quadrants(r, pix);
    var n := TurnY(TurnX(r, RotX(q)), RotY(q));
    && n < 24
    && Rottable3(r, pix) == n + (if Flips(q) then 24 else 0)
    && Rottable3(r + 24, pix) == n + (if Flips(q) then 0 else 24)
  }

  lemma DigitAgrees(r: bv6, pix: bv3)
    requires r < 24
    ensures Subpix3(r, pix) == Quadrants(r, pix) && Subpix3(r + 24, pix) == 7 - Quadrants(r, pix)
  {
  }

  lemma NextAgreesLow(r: bv6, pix: bv3)
    requires r < 8
    ensures NextAgrees(r, pix)
  {
  }

  lemma NextAgreesMid(r: bv6, pix: bv3)
    requires 8 <= r < 16
    ensures NextAgrees(r, pix)
  {
  }

  lemma NextAgreesHigh(r: bv6, pix: bv3)
    requires 16 <= r < 24
    ensures NextAgrees(r, pix)
  {
  }

  // ----- Octants and digits as numbers

  /** The octant of three coordinate bits: x is bit 2, y bit 1 and z bit 0. */
  function Pix(x: bool, y: bool, z: bool): bv3 {
    (if x then 4 else 0) | (if y then 2 else 0) | (if z then 1 else 0)
  }

  /** The three bits of an octant. */
  datatype Bits = Bits(x: bool, y: bool, z: bool)

  function BitsOf(p: bv3): Bits {
    Bits(p & 4 == 4, p & 2 == 2, p & 1 == 1)
  }

  lemma PixBits(x: bool, y: bool, z: bool)
    ensures BitsOf(Pix(x, y, z)) == Bits(x, y, z)
  {
  }

  lemma BitsPix(p: bv3)
    ensures Pix(BitsOf(p).x, BitsOf(p).y, BitsOf(p).z) == p
  {
  }

  function Digit(d: bv3): (n: nat)
    ensures n < 8
  {
    if d == 0 then 0 else if d == 1 then 1 else if d == 2 then 2 else if d == 3 then 3 else if d == 4 then 4 else if d == 5 then 5 else if d == 6 then 6 else 7
  }

  function FromDigit(n: nat): bv3 {
    if n == 0 then 0 else if n == 1 then 1 else if n == 2 then 2 else if n == 3 then 3 else if n == 4 then 4 else if n == 5 then 5 else if n == 6 then 6 else 7
  }

  lemma DigitRound(d: bv3)
    ensures FromDigit(Digit(d)) == d
  {
  }

  lemma RoundDigit(n: nat)
    requires n < 8
    ensures Digit(FromDigit(n)) == n
    ensures n + 1 < 8 ==> FromDigit(n) < 7 && FromDigit(n + 1) == FromDigit(n) + 1
    ensures FromDigit(0) == 0 && FromDigit(7) == 7
  {
  }

  /** Along one axis: the same octant side and the same corner side, or across the face between the sides. */
  predicate Touch(p: bool, q: bool, ex: bool, en: bool) {
    if p == q then ex == en else ex == q && en == p
  }

  /** Octants p and q share a face, with corner ex of the one on the other side of that face from corner en of the other. */
  predicate AcrossFace(p: Bits, q: Bits, ex: Bits, en: Bits) {
    && Touch(p.x, q.x, ex.x, en.x) && Touch(p.y, q.y, ex.y, en.y) && Touch(p.z, q.z, ex.z, en.z)
    && (|| (p.x != q.x && p.y == q.y && p.z == q.z)
        || (p.x == q.x && p.y != q.y && p.z == q.z)
        || (p.x == q.x && p.y == q.y && p.z != q.z))
  }

  /** What the touching of consecutive octants means for the three bits. */
  lemma TouchBits(p: bv3, q: bv3, ex: bv3, en: bv3)
    requires ex ^ en == p ^ q && (p ^ q == 1 || p ^ q == 2 || p ^ q == 4) && ex & (p ^ q) == q & (p ^ q)
    ensures AcrossFace(BitsOf(p), BitsOf(q), BitsOf(ex), BitsOf(en))
  {
  }
}

/** The Peano-Hilbert keys of `peano.c`. */
module Peano {
  import opened Numbers
  import opened PeanoTables

  function Pow8(n: nat): (p: nat)
    ensures p > 0
  {
    if n == 0 then 1 else 8 * Pow8(n - 1)
  }

  datatype Cell = Cell(x: nat, y: nat, z: nat)

  predicate Within(c: Cell, n: nat) {
    c.x < Pow2(n) && c.y < Pow2(n) && c.z < Pow2(n)
  }

  /** A coordinate without its top bit h. */
  function Low(x: nat, h: nat): nat {
    if x >= h then x - h else x
  }

  function Lower(c: Cell, h: nat): Cell {
    Cell(Low(c.x, h), Low(c.y, h), Low(c.z, h))
  }

  /** The octant of a cell. */
  function Octant(c: Cell, h: nat): bv3 {
    Pix(c.x >= h, c.y >= h, c.z >= h)
  }

  function Scaled(d: nat, m: nat): nat {
    d * m
  }

  /** The key of a cell of the cube of side 2^n, from state s. */
  function Key(s: bv6, c: Cell, n: nat): nat
    decreases n
  {
    if n == 0 then 0 else
      var p := Octant(c, Pow2(n - 1));
      Scaled(Digit(Subpix3(s, p)), Pow8(n - 1)) + Key(Rottable3(s, p), Lower(c, Pow2(n - 1)), n - 1)
  }

  /** How often m goes into a number below 8 m. */
  function TopDigit(key: nat, m: nat): (d: nat)
    requires m > 0
    decreases key
  {
    if key < m then 0 else 1 + TopDigit(key - m, m)
  }

  function Raise(b: bool, h: nat): nat {
    if b then h else 0
  }

  function Raised(c: Cell, p: Bits, h: nat): Cell {
    Cell(c.x + Raise(p.x, h), c.y + Raise(p.y, h), c.z + Raise(p.z, h))
  }

  /** The inverse: the cell with a given key. */
  function CellOf(s: bv6, key: nat, n: nat): Cell
    decreases n
  {
    if n == 0 then Cell(0, 0, 0) else
      var d := TopDigit(key, Pow8(n - 1));
      TopBound(key, Pow8(n - 1));
      var p := PixOf(s, FromDigit(d));
      Raised(CellOf(Rottable3(s, p), key - Scaled(d, Pow8(n - 1)), n - 1), BitsOf(p), Pow2(n - 1))
  }

  lemma {:induction false} TopBound(key: nat, m: nat)
    requires m > 0
    ensures Scaled(TopDigit(key, m), m) <= key < Scaled(TopDigit(key, m), m) + m
    decreases key
  {
    if key >= m {
      TopBound(key - m, m);
      ScaledNext(TopDigit(key - m, m), m);
    } else {
      ScaledNone(m);
    }
  }

  lemma ScaledNext(d: nat, m: nat)
    ensures Scaled(d + 1, m) == Scaled(d, m) + m
  {
  }

  lemma ScaledNone(m: nat)
    ensures Scaled(0, m) == 0
  {
  }

  lemma {:induction false} TopOf(d: nat, m: nat, rest: nat)
    requires rest < m
    ensures TopDigit(Scaled(d, m) + rest, m) == d
  {
    hide Scaled;
    if d > 0 {
      TopOf(d - 1, m, rest);
      ScaledNext(d - 1, m);
    } else {
      ScaledNone(m);
    }
  }

  lemma {:induction false} TopBelow(key: nat, m: nat, k: nat)
    requires m > 0 && key < Scaled(k, m)
    ensures TopDigit(key, m) < k
    decreases k
  {
    hide Scaled;
    if k == 0 {
      ScaledNone(m);
    } else {
      ScaledNext(k - 1, m);
      if key >= m {
        TopBelow(key - m, m, k - 1);
      }
    }
  }

  lemma EightTimes(n: nat)
    ensures Scaled(8, Pow8(n)) == Pow8(n + 1) && Pow2(n + 1) == 2 * Pow2(n)
    ensures forall d: nat {:trigger Scaled(d, Pow8(n))} :: d < 8 ==> Scaled(d, Pow8(n)) + Pow8(n) <= Pow8(n + 1)
  {
    forall d: nat | d < 8
      ensures Scaled(d, Pow8(n)) + Pow8(n) <= Pow8(n + 1)
    {
      Seven(d, Pow8(n));
    }
  }

  lemma Seven(d: nat, m: nat)
    requires d < 8
    ensures Scaled(d, m) + m <= 8 * m
  {
    assert (7 - d) * m >= 0;
  }

  // ----- The key is a bijection

  lemma {:induction false} KeyBound(s: bv6, c: Cell, n: nat)
    ensures Key(s, c, n) < Pow8(n)
    decreases n
  {
    hide Scaled, Subpix3, Rottable3;
    if n > 0 {
      var p := Octant(c, Pow2(n - 1));
      KeyBound(Rottable3(s, p), Lower(c, Pow2(n - 1)), n - 1);
      EightTimes(n - 1);
    }
  }

  lemma LowerWithin(c: Cell, n: nat)
    requires n > 0 && Within(c, n)
    ensures Within(Lower(c, Pow2(n - 1)), n - 1) && Raised(Lower(c, Pow2(n - 1)), BitsOf(Octant(c, Pow2(n - 1))), Pow2(n - 1)) == c
  {
    hide Pix, BitsOf;
    var h := Pow2(n - 1);
    PixBits(c.x >= h, c.y >= h, c.z >= h);
  }

  lemma RaisedWithin(c: Cell, p: bv3, n: nat)
    requires n > 0 && Within(c, n - 1)
    ensures Within(Raised(c, BitsOf(p), Pow2(n - 1)), n)
    ensures Octant(Raised(c, BitsOf(p), Pow2(n - 1)), Pow2(n - 1)) == p && Lower(Raised(c, BitsOf(p), Pow2(n - 1)), Pow2(n - 1)) == c
  {
    hide Pix, BitsOf;
    BitsPix(p);
  }

  lemma PixFound(s: bv6, p: bv3)
    requires s < 48
    ensures PixOf(s, Subpix3(s, p)) == p
  {
    hide PixOf, Subpix3;
    DigitFound(s, Subpix3(s, p));
    if PixOf(s, Subpix3(s, p)) != p {
      DigitsDistinct(s, PixOf(s, Subpix3(s, p)), p);
    }
  }

  /** The cell of the key of a cell. */
  lemma {:induction false} CellOfKey(s: bv6, c: Cell, n: nat)
    requires s < 48 && Within(c, n)
    ensures CellOf(s, Key(s, c, n), n) == c
    decreases n
  {
    hide Scaled, Subpix3, Rottable3, PixOf, Digit, FromDigit, Octant, Raised, Lower, BitsOf;
    if n > 0 {
      var p := Octant(c, Pow2(n - 1));
      var d := Subpix3(s, p);
      StateStays(s, p);
      LowerWithin(c, n);
      CellOfKey(Rottable3(s, p), Lower(c, Pow2(n - 1)), n - 1);
      KeyBound(Rottable3(s, p), Lower(c, Pow2(n - 1)), n - 1);
      TopOf(Digit(d), Pow8(n - 1), Key(Rottable3(s, p), Lower(c, Pow2(n - 1)), n - 1));
      DigitRound(d);
      PixFound(s, p);
    }
  }

  /** The key of the cell of a key. */
  lemma {:induction false} KeyOfCell(s: bv6, key: nat, n: nat)
    requires s < 48 && key < Pow8(n)
    ensures Within(CellOf(s, key, n), n) && Key(s, CellOf(s, key, n), n) == key
    decreases n
  {
    hide Scaled, Subpix3, Rottable3, PixOf, Digit, FromDigit, Octant, Raised, Lower, BitsOf;
    if n > 0 {
      var m := Pow8(n - 1);
      var d := TopDigit(key, m);
      TopBound(key, m);
      EightTimes(n - 1);
      TopBelow(key, m, 8);
      var p := PixOf(s, FromDigit(d));
      DigitFound(s, FromDigit(d));
      RoundDigit(d);
      StateStays(s, p);
      KeyOfCell(Rottable3(s, p), key - Scaled(d, m), n - 1);
      RaisedWithin(CellOf(Rottable3(s, p), key - Scaled(d, m), n - 1), p, n);
    }
  }

  // ----- Consecutive keys are neighbouring cells

  function Distance(a: nat, b: nat): nat {
    if a < b then b - a else a - b
  }

  /** Cells that share a face. */
  predicate Neighbours(a: Cell, b: Cell) {
    Distance(a.x, b.x) + Distance(a.y, b.y) + Distance(a.z, b.z) == 1
  }

  /** The corner cell of the cube of side 2^n in octant p. */
  function Corner(p: Bits, n: nat): Cell {
    Cell(Raise(p.x, Pow2(n) - 1), Raise(p.y, Pow2(n) - 1), Raise(p.z, Pow2(n) - 1))
  }

  lemma CornerNext(p: Bits, n: nat)
    requires n > 0
    ensures Raised(Corner(p, n - 1), p, Pow2(n - 1)) == Corner(p, n)
  {
  }

  lemma CornerNone(p: Bits)
    ensures Corner(p, 0) == Cell(0, 0, 0)
  {
  }

  /** The curve starts in the corner of its first octant. */
  lemma {:induction false} FirstCell(s: bv6, n: nat)
    requires s < 48
    ensures CellOf(s, 0, n) == Corner(BitsOf(PixOf(s, 0)), n)
    decreases n
  {
    hide Subpix3, Rottable3, PixOf, Corner, Raised, Scaled, FromDigit, BitsOf;
    var p := PixOf(s, 0);
    if n == 0 {
      CornerNone(BitsOf(p));
    } else {
      RoundDigit(0);
      ScaledNone(Pow8(n - 1));
      DigitFound(s, 0);
      StateStays(s, p);
      EntryStays(s, p);
      PixFound(Rottable3(s, p), p);
      FirstCell(Rottable3(s, p), n - 1);
      CornerNext(BitsOf(p), n);
    }
  }

  /** The curve ends in the corner of its last octant. */
  lemma {:induction false} LastCell(s: bv6, n: nat)
    requires s < 48
    ensures CellOf(s, Pow8(n) - 1, n) == Corner(BitsOf(PixOf(s, 7)), n)
    decreases n
  {
    hide Subpix3, Rottable3, PixOf, Corner, Raised, Scaled, FromDigit, BitsOf;
    var p := PixOf(s, 7);
    if n == 0 {
      CornerNone(BitsOf(p));
    } else {
      var m := Pow8(n - 1);
      RoundDigit(7);
      EightTimes(n - 1);
      ScaledNext(7, m);
      TopOf(7, m, m - 1);
      DigitFound(s, 7);
      StateStays(s, p);
      ExitStays(s, p);
      PixFound(Rottable3(s, p), p);
      LastCell(Rottable3(s, p), n - 1);
      CornerNext(BitsOf(p), n);
    }
  }

  /** The whole curve runs from the origin to the far end of the z axis. */
  lemma CurveEnds(n: nat)
    ensures CellOf(0, 0, n) == Cell(0, 0, 0) && CellOf(0, Pow8(n) - 1, n) == Cell(0, 0, Pow2(n) - 1)
  {
    hide CellOf, Pow8, Pow2;
    FirstCell(0, n);
    LastCell(0, n);
    EndOctants();
  }

  lemma EndOctants()
    ensures BitsOf(PixOf(0, 0)) == Bits(false, false, false) && BitsOf(PixOf(0, 7)) == Bits(false, false, true)
  {
    assert Subpix3(0, 0) == 0 && Subpix3(0, 1) == 7;
    PixFound(0, 0);
    PixFound(0, 1);
  }

  /** The order in which the curve fills the halves of the cube: which of the three coordinates are in the upper half. */
  function HalvesOrder(x: bool, y: bool, z: bool): (d: nat)
    ensures d < 8
  {
    if !x then (if !y then (if !z then 0 else 7) else (if !z then 1 else 6))
    else (if !y then (if !z then 3 else 4) else (if !z then 2 else 5))
  }

  /** The key lies in the d-th eighth of all keys. */
  predicate InEighth(key: nat, d: nat, n: nat)
    requires n > 0
  {
    Scaled(d, Pow8(n - 1)) <= key < Scaled(d, Pow8(n - 1)) + Pow8(n - 1)
  }

  lemma LeadingDigit(c: Cell, n: nat)
    requires n > 0
    ensures var h := Pow2(n - 1); InEighth(Key(0, c, n), HalvesOrder(c.x >= h, c.y >= h, c.z >= h), n)
  {
    hide Scaled, Subpix3, Rottable3, Pow2, Pow8;
    var h := Pow2(n - 1);
    var p := Octant(c, h);
    KeyBound(Rottable3(0, p), Lower(c, h), n - 1);
    FirstRow(c.x >= h, c.y >= h, c.z >= h);
  }

  lemma FirstRow(x: bool, y: bool, z: bool)
    ensures Digit(Subpix3(0, Pix(x, y, z))) == HalvesOrder(x, y, z)
  {
  }

  /** A coordinate of a corner cell of an octant. */
  function Side(corner: bool, octant: bool, h: nat): nat
    requires h > 0
  {
    Raise(corner, h - 1) + Raise(octant, h)
  }

  lemma CornerSides(e: Bits, p: Bits, n: nat)
    ensures Raised(Corner(e, n), p, Pow2(n)) == Cell(Side(e.x, p.x, Pow2(n)), Side(e.y, p.y, Pow2(n)), Side(e.z, p.z, Pow2(n)))
  {
    hide Pow2;
  }

  lemma NeighboursIs(a: Cell, b: Cell)
    ensures Neighbours(a, b) <==> Distance(a.x, b.x) + Distance(a.y, b.y) + Distance(a.z, b.z) == 1
  {
  }

  /** Across a face: from the exit corner of one octant to the entry corner of the next. */
  lemma CrossFace(p: Bits, q: Bits, ex: Bits, en: Bits, n: nat)
    requires AcrossFace(p, q, ex, en)
    ensures Neighbours(Raised(Corner(ex, n), p, Pow2(n)), Raised(Corner(en, n), q, Pow2(n)))
  {
    hide *;
    CornerSides(ex, p, n);
    CornerSides(en, q, n);
    AxisSteps(p, q, ex, en, Pow2(n));
    NeighboursIs(Raised(Corner(ex, n), p, Pow2(n)), Raised(Corner(en, n), q, Pow2(n)));
  }

  lemma AxisStep(p: bool, q: bool, ex: bool, en: bool, h: nat)
    requires Touch(p, q, ex, en) && h > 0
    ensures if p == q then Distance(Side(ex, p, h), Side(en, q, h)) == 0 else Distance(Side(ex, p, h), Side(en, q, h)) == 1
  {
  }

  lemma AxisSteps(p: Bits, q: Bits, ex: Bits, en: Bits, h: nat)
    requires AcrossFace(p, q, ex, en) && h > 0
    ensures Distance(Side(ex.x, p.x, h), Side(en.x, q.x, h)) + Distance(Side(ex.y, p.y, h), Side(en.y, q.y, h)) + Distance(Side(ex.z, p.z, h), Side(en.z, q.z, h)) == 1
  {
    hide Distance, Side, Touch;
    AxisStep(p.x, q.x, ex.x, en.x, h);
    AxisStep(p.y, q.y, ex.y, en.y, h);
    AxisStep(p.z, q.z, ex.z, en.z, h);
  }

  lemma RaisedNeighbours(a: Cell, b: Cell, p: Bits, h: nat)
    ensures Neighbours(Raised(a, p, h), Raised(b, p, h)) <==> Neighbours(a, b)
  {
  }

  /** The curve: consecutive keys belong to cells that share a face. */
  lemma {:induction false} KeysFollowCells(s: bv6, key: nat, n: nat)
    requires s < 48 && key + 1 < Pow8(n)
    ensures Neighbours(CellOf(s, key, n), CellOf(s, key + 1, n))
    decreases n
  {
    hide Subpix3, Rottable3, PixOf, Raised, Scaled, FromDigit, Neighbours, TopDigit, Corner, BitsOf, AcrossFace;
    var m := Pow8(n - 1);
    var d := TopDigit(key, m);
    TopBound(key, m);
    EightTimes(n - 1);
    TopBelow(key, m, 8);
    var rest := key - Scaled(d, m);
    var p := PixOf(s, FromDigit(d));
    DigitFound(s, FromDigit(d));
    StateStays(s, p);
    RoundDigit(d);
    if rest + 1 < m {
      TopOf(d, m, rest + 1);
      KeysFollowCells(Rottable3(s, p), rest, n - 1);
      RaisedNeighbours(CellOf(Rottable3(s, p), rest, n - 1), CellOf(Rottable3(s, p), rest + 1, n - 1), BitsOf(p), Pow2(n - 1));
    } else {
      ScaledNext(d, m);
      TopOf(d + 1, m, 0);
      TopBelow(key + 1, m, 8);
      var q := PixOf(s, FromDigit(d + 1));
      DigitFound(s, FromDigit(d + 1));
      StateStays(s, q);
      LastCell(Rottable3(s, p), n - 1);
      FirstCell(Rottable3(s, q), n - 1);
      var ex, en := PixOf(Rottable3(s, p), 7), PixOf(Rottable3(s, q), 0);
      DigitFound(Rottable3(s, p), 7);
      DigitFound(Rottable3(s, q), 0);
      NextTouches(s, p, q, ex, en);
      TouchBits(p, q, ex, en);
      CrossFace(BitsOf(p), BitsOf(q), BitsOf(ex), BitsOf(en), n - 1);
    }
  }

  // ----- The loops

  /** Bit k of x, where x is q * 2^(k + 1) + r. */
  lemma BitIs(x: nat, q: nat, r: nat, h: nat)
    requires h > 0 && r < 2 * h && x == q * (2 * h) + r
    ensures (x / h) % 2 == 1 <==> r >= h
  {
    var low := Low(r, h);
    var b := if r >= h then 1 else 0;
    assert x == (2 * q + b) * h + low;
    QuotientIs(x, 2 * q + b, low, h);
  }

  lemma QuotientIs(x: nat, q: nat, r: nat, h: nat)
    requires h > 0 && r < h && x == q * h + r
    ensures x / h == q
  {
    var m := x / h - q;
    assert x == (x / h) * h + x % h;
    assert m * h == r - x % h;
    if m >= 1 {
      TimesOrder(m, 1, h);
    } else if m <= -1 {
      TimesOrder(-1, m, h);
    }
  }

  /** A coordinate with its bits from n on (q) and below (r). */
  predicate Parts(x: nat, q: nat, r: nat, n: nat) {
    r < Pow2(n) && x == q * Pow2(n) + r
  }

  lemma PartsNext(x: nat, q: nat, r: nat, n: nat)
    requires n > 0 && Parts(x, q, r, n)
    ensures (x / Pow2(n - 1)) % 2 == 1 <==> r >= Pow2(n - 1)
    ensures Parts(x, 2 * q + (if r >= Pow2(n - 1) then 1 else 0), Low(r, Pow2(n - 1)), n - 1)
  {
    var h := Pow2(n - 1);
    BitIs(x, q, r, h);
    assert q * (2 * h) == 2 * q * h;
  }

  lemma KeyStep(key: nat, digit: nat, tail: nat, m: nat)
    ensures Scaled(key * 8 + digit, m) + tail == Scaled(key, 8 * m) + (Scaled(digit, m) + tail)
  {
    assert (key * 8 + digit) * m == key * (8 * m) + digit * m;
  }

  lemma OneScaled(key: nat)
    ensures Scaled(key, 1) == key && Scaled(0, key) == 0
  {
  }

  /** `peano_hilbert_key`. */
  method PeanoHilbertKey(x: nat, y: nat, z: nat, bits: nat) returns (key: nat)
    requires bits > 0 && Within(Cell(x, y, z), bits)
    ensures key == Key(0, Cell(x, y, z), bits)
    ensures var h := Pow2(bits - 1); InEighth(key, HalvesOrder(x >= h, y >= h, z >= h), bits)
  {
    hide Scaled, Subpix3, Rottable3, InEighth, HalvesOrder, Digit, Pix, Parts;
    var mask := Pow2(bits - 1);
    var rotation: bv6 := 0;
    key := 0;
    ghost var n: nat, c, q := bits, Cell(x, y, z), Cell(0, 0, 0);
    PartsStart(x, bits);
    PartsStart(y, bits);
    PartsStart(z, bits);
    OneScaled(Pow8(bits));
    while mask > 0
      invariant n <= bits && mask == (if n > 0 then Pow2(n - 1) else 0)
      invariant Parts(x, q.x, c.x, n) && Parts(y, q.y, c.y, n) && Parts(z, q.z, c.z, n)
      invariant Scaled(key, Pow8(n)) + Key(rotation, c, n) == Key(0, Cell(x, y, z), bits)
      decreases n
    {
      PartsNext(x, q.x, c.x, n);
      PartsNext(y, q.y, c.y, n);
      PartsNext(z, q.z, c.z, n);
      var pix := Pix((x / mask) % 2 == 1, (y / mask) % 2 == 1, (z / mask) % 2 == 1);
      ghost var h := Pow2(n - 1);
      assert pix == Octant(c, h);
      KeyStep(key, Digit(Subpix3(rotation, pix)), Key(Rottable3(rotation, pix), Lower(c, h), n - 1), Pow8(n - 1));
      key := key * 8 + Digit(Subpix3(rotation, pix));
      rotation := Rottable3(rotation, pix);
      q := Cell(2 * q.x + (if c.x >= h then 1 else 0), 2 * q.y + (if c.y >= h then 1 else 0), 2 * q.z + (if c.z >= h then 1 else 0));
      c := Lower(c, h);
      n := n - 1;
      mask := mask / 2;
    }
    OneScaled(key);
    LeadingDigit(Cell(x, y, z), bits);
  }

  lemma PartsStart(x: nat, n: nat)
    requires x < Pow2(n)
    ensures Parts(x, 0, x, n)
  {
  }

  // ----- The older machine

  /** The state of the new machine for a rotation and a sense of the old one. */
  function StateOf(rotation: bv6, sense: int): bv6 {
    if sense == 1 then rotation else rotation + 24
  }

  function OldDigit(q: bv3, sense: int): nat {
    if sense == 1 then Digit(q) else 7 - Digit(q)
  }

  function SenseOf(q: bv3): int {
    if Flips(q) then -1 else 1
  }

  /** The key by rotations and sense. */
  function KeyOld(rotation: bv6, sense: int, c: Cell, n: nat): nat
    decreases n
  {
    if n == 0 then 0 else
      var p := Octant(c, Pow2(n - 1));
      var q := Quadrants(rotation, p);
      Scaled(OldDigit(q, sense), Pow8(n - 1)) + KeyOld(Turned(rotation, p), sense * SenseOf(q), Lower(c, Pow2(n - 1)), n - 1)
  }

  lemma StepAgrees(r: bv6, sense: int, p: bv3)
    requires r < 24 && (sense == 1 || sense == -1)
    ensures var q := Quadrants(r, p);
      && Turned(r, p) < 24 && Digit(Subpix3(StateOf(r, sense), p)) == OldDigit(q, sense)
      && Rottable3(StateOf(r, sense), p) == StateOf(Turned(r, p), sense * SenseOf(q))
  {
    hide Subpix3, Rottable3, Quadrants, TurnX, TurnY, RotX, RotY, Flips, Digit;
    DigitAgrees(r, p);
    DigitFlip(Quadrants(r, p));
    NextState(r, p);
  }

  lemma NextState(r: bv6, p: bv3)
    requires r < 24
    ensures var flips := Flips(Quadrants(r, p));
      && Turned(r, p) < 24
      && Rottable3(r, p) == (if flips then Turned(r, p) + 24 else Turned(r, p))
      && Rottable3(r + 24, p) == (if flips then Turned(r, p) else Turned(r, p) + 24)
  {
    hide Subpix3, Rottable3, Quadrants, TurnX, TurnY, RotX, RotY, Flips;
    if r < 8 {
      NextAgreesLow(r, p);
    } else if r < 16 {
      NextAgreesMid(r, p);
    } else {
      NextAgreesHigh(r, p);
    }
  }

  lemma DigitFlip(q: bv3)
    ensures Digit(7 - q) == 7 - Digit(q)
  {
  }

  /** The 48-state machine computes the keys of the older one, for every number of bits. */
  lemma {:induction false} MachinesAgree(r: bv6, sense: int, c: Cell, n: nat)
    requires r < 24 && (sense == 1 || sense == -1)
    ensures Key(StateOf(r, sense), c, n) == KeyOld(r, sense, c, n)
    decreases n
  {
    hide Subpix3, Rottable3, Quadrants, Turned, StateOf, OldDigit, Octant, Lower, Scaled, SenseOf;
    if n > 0 {
      var p := Octant(c, Pow2(n - 1));
      StepAgrees(r, sense, p);
      SenseSign(sense, Quadrants(r, p));
      MachinesAgree(Turned(r, p), sense * SenseOf(Quadrants(r, p)), Lower(c, Pow2(n - 1)), n - 1);
    }
  }

  lemma SenseSign(sense: int, q: bv3)
    requires sense == 1 || sense == -1
    ensures sense * SenseOf(q) == 1 || sense * SenseOf(q) == -1
  {
  }

  /** Applying a map n times, as the inner loops do. */
  function RepeatX(r: bv6, n: nat): bv6
    decreases n
  {
    if n == 0 then r else RepeatX(RotXMap(r), n - 1)
  }

  function RepeatY(r: bv6, n: nat): bv6
    decreases n
  {
    if n == 0 then r else RepeatY(RotYMap(r), n - 1)
  }

  lemma RepeatIsTurn(r: bv6, n: bv3)
    requires n <= 3
    ensures RepeatX(r, Digit(n)) == TurnX(r, n) && RepeatY(r, Digit(n)) == TurnY(r, n)
  {
    hide RotXMap, RotYMap;
    if n == 1 {
      assert RepeatX(r, 1) == RotXMap(r) && RepeatY(r, 1) == RotYMap(r);
    } else if n == 2 {
      assert RepeatX(r, 2) == RepeatX(RotXMap(r), 1) && RepeatY(r, 2) == RepeatY(RotYMap(r), 1);
    } else if n == 3 {
      assert RepeatX(r, 3) == RepeatX(RotXMap(r), 2) == RepeatX(RotXMap(RotXMap(r)), 1);
      assert RepeatY(r, 3) == RepeatY(RotYMap(r), 2) == RepeatY(RotYMap(RotYMap(r)), 1);
    }
  }

  lemma TurnsAtMostThree(q: bv3)
    ensures RotX(q) <= 3 && RotY(q) <= 3
  {
  }

  /** `peano_hilbert_key_old`. */
  method PeanoHilbertKeyOld(x: nat, y: nat, z: nat, bits: nat) returns (key: nat)
    requires bits > 0 && Within(Cell(x, y, z), bits)
    ensures key == KeyOld(0, 1, Cell(x, y, z), bits) == Key(0, Cell(x, y, z), bits)
    ensures var h := Pow2(bits - 1); InEighth(key, HalvesOrder(x >= h, y >= h, z >= h), bits)
  {
    hide Scaled, Subpix3, Rottable3, InEighth, HalvesOrder, Quadrants, RotXMap, RotYMap, RotX, RotY, TurnX, TurnY, Digit, Pix, Parts, StateOf;
    var mask, rotation: bv6, sense := Pow2(bits - 1), 0, 1;
    key := 0;
    ghost var n: nat, c, q := bits, Cell(x, y, z), Cell(0, 0, 0);
    PartsStart(x, bits);
    PartsStart(y, bits);
    PartsStart(z, bits);
    OneScaled(Pow8(bits));
    for i := 0 to bits
      invariant n == bits - i && (n > 0 ==> mask == Pow2(n - 1))
      invariant Parts(x, q.x, c.x, n) && Parts(y, q.y, c.y, n) && Parts(z, q.z, c.z, n)
      invariant Scaled(key, Pow8(n)) + KeyOld(rotation, sense, c, n) == KeyOld(0, 1, Cell(x, y, z), bits)
    {
      PartsNext(x, q.x, c.x, n);
      PartsNext(y, q.y, c.y, n);
      PartsNext(z, q.z, c.z, n);
      ghost var h := Pow2(n - 1);
      var pix := Pix((x / mask) % 2 == 1, (y / mask) % 2 == 1, (z / mask) % 2 == 1);
      assert pix == Octant(c, h);
      var quad := Quadrants(rotation, pix);
      KeyStep(key, OldDigit(quad, sense), KeyOld(Turned(rotation, pix), sense * SenseOf(quad), Lower(c, h), n - 1), Pow8(n - 1));
      key := key * 8 + (if sense == 1 then Digit(quad) else 7 - Digit(quad));
      sense := sense * SenseOf(quad);
      TurnsAtMostThree(quad);
      rotation := Turn(rotation, RotX(quad), RotY(quad));
      q := Cell(2 * q.x + (if c.x >= h then 1 else 0), 2 * q.y + (if c.y >= h then 1 else 0), 2 * q.z + (if c.z >= h then 1 else 0));
      c := Lower(c, h);
      n := n - 1;
      mask := mask / 2;
    }
    OneScaled(key);
    MachinesAgree(0, 1, Cell(x, y, z), bits);
    StartState();
    LeadingDigit(Cell(x, y, z), bits);
  }

  lemma StartState()
    ensures StateOf(0, 1) == 0
  {
  }

  /** The two inner loops of `peano_hilbert_key_old`. */
  method Turn(rotation0: bv6, rotx0: bv3, roty0: bv3) returns (rotation: bv6)
    requires rotx0 <= 3 && roty0 <= 3
    ensures rotation == TurnY(TurnX(rotation0, rotx0), roty0)
  {
    hide RotXMap, RotYMap, TurnX, TurnY;
    RepeatIsTurn(rotation0, rotx0);
    rotation := rotation0;
    var rotx := Digit(rotx0);
    while rotx > 0
      invariant RepeatX(rotation, rotx) == TurnX(rotation0, rotx0)
    {
      rotation := RotXMap(rotation);
      rotx := rotx - 1;
    }
    RepeatIsTurn(rotation, roty0);
    var roty := Digit(roty0);
    while roty > 0
      invariant RepeatY(rotation, roty) == TurnY(TurnX(rotation0, rotx0), roty0)
    {
      rotation := RotYMap(rotation);
      roty := roty - 1;
    }
  }
}
