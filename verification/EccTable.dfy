/** The column parity table, and what it means: the exclusive or of one entry for each bit set. */
module EccTable {
  import opened ChunkBits

  function Pick(c: bv8, a0: bv8, a1: bv8, a2: bv8, a3: bv8, a4: bv8, a5: bv8, a6: bv8, a7: bv8): bv8 {
    match c
    case 0 => a0
    case 1 => a1
    case 2 => a2
    case 3 => a3
    case 4 => a4
    case 5 => a5
    case 6 => a6
    case _ => a7
  }

  /** The column parity table, eight entries to a row. */
  function Table(b: bv8): bv8 {
    var c := b & 7;
    match b >> 3
    case 0 => Pick(c, 0x00, 0x55, 0x59, 0x0c, 0x65, 0x30, 0x3c, 0x69)
    case 1 => Pick(c, 0x69, 0x3c, 0x30, 0x65, 0x0c, 0x59, 0x55, 0x00)
    case 2 => Pick(c, 0x95, 0xc0, 0xcc, 0x99, 0xf0, 0xa5, 0xa9, 0xfc)
    case 3 => Pick(c, 0xfc, 0xa9, 0xa5, 0xf0, 0x99, 0xcc, 0xc0, 0x95)
    case 4 => Pick(c, 0x99, 0xcc, 0xc0, 0x95, 0xfc, 0xa9, 0xa5, 0xf0)
    case 5 => Pick(c, 0xf0, 0xa5, 0xa9, 0xfc, 0x95, 0xc0, 0xcc, 0x99)
    case 6 => Pick(c, 0x0c, 0x59, 0x55, 0x00, 0x69, 0x3c, 0x30, 0x65)
    case 7 => Pick(c, 0x65, 0x30, 0x3c, 0x69, 0x00, 0x55, 0x59, 0x0c)
    case 8 => Pick(c, 0xa5, 0xf0, 0xfc, 0xa9, 0xc0, 0x95, 0x99, 0xcc)
    case 9 => Pick(c, 0xcc, 0x99, 0x95, 0xc0, 0xa9, 0xfc, 0xf0, 0xa5)
    case 10 => Pick(c, 0x30, 0x65, 0x69, 0x3c, 0x55, 0x00, 0x0c, 0x59)
    case 11 => Pick(c, 0x59, 0x0c, 0x00, 0x55, 0x3c, 0x69, 0x65, 0x30)
    case 12 => Pick(c, 0x3c, 0x69, 0x65, 0x30, 0x59, 0x0c, 0x00, 0x55)
    case 13 => Pick(c, 0x55, 0x00, 0x0c, 0x59, 0x30, 0x65, 0x69, 0x3c)
    case 14 => Pick(c, 0xa9, 0xfc, 0xf0, 0xa5, 0xcc, 0x99, 0x95, 0xc0)
    case 15 => Pick(c, 0xc0, 0x95, 0x99, 0xcc, 0xa5, 0xf0, 0xfc, 0xa9)
    case 16 => Pick(c, 0xa9, 0xfc, 0xf0, 0xa5, 0xcc, 0x99, 0x95, 0xc0)
    case 17 => Pick(c, 0xc0, 0x95, 0x99, 0xcc, 0xa5, 0xf0, 0xfc, 0xa9)
    case 18 => Pick(c, 0x3c, 0x69, 0x65, 0x30, 0x59, 0x0c, 0x00, 0x55)
    case 19 => Pick(c, 0x55, 0x00, 0x0c, 0x59, 0x30, 0x65, 0x69, 0x3c)
    case 20 => Pick(c, 0x30, 0x65, 0x69, 0x3c, 0x55, 0x00, 0x0c, 0x59)
    case 21 => Pick(c, 0x59, 0x0c, 0x00, 0x55, 0x3c, 0x69, 0x65, 0x30)
    case 22 => Pick(c, 0xa5, 0xf0, 0xfc, 0xa9, 0xc0, 0x95, 0x99, 0xcc)
    case 23 => Pick(c, 0xcc, 0x99, 0x95, 0xc0, 0xa9, 0xfc, 0xf0, 0xa5)
    case 24 => Pick(c, 0x0c, 0x59, 0x55, 0x00, 0x69, 0x3c, 0x30, 0x65)
    case 25 => Pick(c, 0x65, 0x30, 0x3c, 0x69, 0x00, 0x55, 0x59, 0x0c)
    case 26 => Pick(c, 0x99, 0xcc, 0xc0, 0x95, 0xfc, 0xa9, 0xa5, 0xf0)
    case 27 => Pick(c, 0xf0, 0xa5, 0xa9, 0xfc, 0x95, 0xc0, 0xcc, 0x99)
    case 28 => Pick(c, 0x95, 0xc0, 0xcc, 0x99, 0xf0, 0xa5, 0xa9, 0xfc)
    case 29 => Pick(c, 0xfc, 0xa9, 0xa5, 0xf0, 0x99, 0xcc, 0xc0, 0x95)
    case 30 => Pick(c, 0x00, 0x55, 0x59, 0x0c, 0x65, 0x30, 0x3c, 0x69)
    case _ => Pick(c, 0x69, 0x3c, 0x30, 0x65, 0x0c, 0x59, 0x55, 0x00)
  }

  /** What bit `k` of a byte adds to its entry. Bit 0 counts the bit itself. */
  function Column(k: nat): bv8
    requires k < 8
  {
    match k
    case 0 => 0x55
    case 1 => 0x59
    case 2 => 0x65
    case 3 => 0x69
    case 4 => 0x95
    case 5 => 0x99
    case 6 => 0xa5
    case 7 => 0xa9
  }

  function Part(b: bv8, k: nat): bv8
    requires k < 8
  {
    if b & One(k) != 0 then Column(k) else 0
  }

  function Parity(b: bv8): bv8 {
    Part(b, 0) ^ Part(b, 1) ^ Part(b, 2) ^ Part(b, 3) ^ Part(b, 4) ^ Part(b, 5) ^ Part(b, 6) ^ Part(b, 7)
  }

  lemma TableRows0(b: bv8)
    requires b >> 4 == 0
    ensures Table(b) == Parity(b)
  {
    assert b >> 3 == 0 || b >> 3 == 1;
  }

  lemma TableRows1(b: bv8)
    requires b >> 4 == 1
    ensures Table(b) == Parity(b)
  {
    assert b >> 3 == 2 || b >> 3 == 3;
  }

  lemma TableRows2(b: bv8)
    requires b >> 4 == 2
    ensures Table(b) == Parity(b)
  {
    assert b >> 3 == 4 || b >> 3 == 5;
  }

  lemma TableRows3(b: bv8)
    requires b >> 4 == 3
    ensures Table(b) == Parity(b)
  {
    assert b >> 3 == 6 || b >> 3 == 7;
  }

  lemma TableRows4(b: bv8)
    requires b >> 4 == 4
    ensures Table(b) == Parity(b)
  {
    assert b >> 3 == 8 || b >> 3 == 9;
  }

  lemma TableRows5(b: bv8)
    requires b >> 4 == 5
    ensures Table(b) == Parity(b)
  {
    assert b >> 3 == 10 || b >> 3 == 11;
  }

  lemma TableRows6(b: bv8)
    requires b >> 4 == 6
    ensures Table(b) == Parity(b)
  {
    assert b >> 3 == 12 || b >> 3 == 13;
  }

  lemma TableRows7(b: bv8)
    requires b >> 4 == 7
    ensures Table(b) == Parity(b)
  {
    assert b >> 3 == 14 || b >> 3 == 15;
  }

  lemma TableRows8(b: bv8)
    requires b >> 4 == 8
    ensures Table(b) == Parity(b)
  {
    assert b >> 3 == 16 || b >> 3 == 17;
  }

  lemma TableRows9(b: bv8)
    requires b >> 4 == 9
    ensures Table(b) == Parity(b)
  {
    assert b >> 3 == 18 || b >> 3 == 19;
  }

  lemma TableRows10(b: bv8)
    requires b >> 4 == 10
    ensures Table(b) == Parity(b)
  {
    assert b >> 3 == 20 || b >> 3 == 21;
  }

  lemma TableRows11(b: bv8)
    requires b >> 4 == 11
    ensures Table(b) == Parity(b)
  {
    assert b >> 3 == 22 || b >> 3 == 23;
  }

  lemma TableRows12(b: bv8)
    requires b >> 4 == 12
    ensures Table(b) == Parity(b)
  {
    assert b >> 3 == 24 || b >> 3 == 25;
  }

  lemma TableRows13(b: bv8)
    requires b >> 4 == 13
    ensures Table(b) == Parity(b)
  {
    assert b >> 3 == 26 || b >> 3 == 27;
  }

  lemma TableRows14(b: bv8)
    requires b >> 4 == 14
    ensures Table(b) == Parity(b)
  {
    assert b >> 3 == 28 || b >> 3 == 29;
  }

  lemma TableRows15(b: bv8)
    requires b >> 4 == 15
    ensures Table(b) == Parity(b)
  {
    assert b >> 3 == 30 || b >> 3 == 31;
  }

  /** The table is linear. */
  lemma TableIsParity(b: bv8)
    ensures Table(b) == Parity(b)
  {
    hide Table, Parity;
    match b >> 4
    case 0 => TableRows0(b);
    case 1 => TableRows1(b);
    case 2 => TableRows2(b);
    case 3 => TableRows3(b);
    case 4 => TableRows4(b);
    case 5 => TableRows5(b);
    case 6 => TableRows6(b);
    case 7 => TableRows7(b);
    case 8 => TableRows8(b);
    case 9 => TableRows9(b);
    case 10 => TableRows10(b);
    case 11 => TableRows11(b);
    case 12 => TableRows12(b);
    case 13 => TableRows13(b);
    case 14 => TableRows14(b);
    case _ => TableRows15(b);
  }

  lemma ParityFlipLow(b: bv8, k: nat)
    requires k < 4
    ensures Parity(b ^ One(k)) == Parity(b) ^ Column(k)
  {
    if k < 2 {
    } else {
    }
  }

  lemma ParityFlipHigh(b: bv8, k: nat)
    requires 4 <= k < 8
    ensures Parity(b ^ One(k)) == Parity(b) ^ Column(k)
  {
    if k < 6 {
    } else {
    }
  }

  lemma ParityFlip(b: bv8, k: nat)
    requires k < 8
    ensures Parity(b ^ One(k)) == Parity(b) ^ Column(k)
  {
    hide Parity, Column, One;
    if k < 4 {
      ParityFlipLow(b, k);
    } else {
      ParityFlipHigh(b, k);
    }
  }

  /** One bit more or less in a byte changes its entry by that bit's column, whatever the other bits. */
  lemma TableFlip(b: bv8, k: nat)
    requires k < 8
    ensures Table(b ^ One(k)) == Table(b) ^ Column(k)
  {
    hide Table, Parity, Column;
    TableIsParity(b);
    TableIsParity(b ^ One(k));
    ParityFlip(b, k);
  }

  lemma ColumnOdd(k: nat)
    requires k < 8
    ensures Column(k) & 1 == 1
  {}

  // ---------- Weights ----------

  lemma BitXor(b: bv8, k: nat, j: nat)
    requires k < 8 && j < 8
    ensures Bit(b ^ One(k), j) == if j == k then 1 - Bit(b, j) else Bit(b, j)
  {
    if k < 2 {
    } else if k < 4 {
    } else if k < 6 {
    } else {
    }
  }

  lemma WeightFlip(b: bv8, k: nat)
    requires k < 8
    ensures Weight(b ^ One(k)) == Weight(b) + 1 - 2 * Bit(b, k)
  {
    hide Bit, One;
    BitXor(b, k, 0);
    BitXor(b, k, 1);
    BitXor(b, k, 2);
    BitXor(b, k, 3);
    BitXor(b, k, 4);
    BitXor(b, k, 5);
    BitXor(b, k, 6);
    BitXor(b, k, 7);
  }

  lemma BitNot(b: bv8, k: nat)
    requires k < 8
    ensures Bit(!b, k) == 1 - Bit(b, k)
  {}

  lemma WeightNot(b: bv8)
    ensures Weight(b) + Weight(!b) == 8
  {
    hide Bit, One;
    BitNot(b, 0);
    BitNot(b, 1);
    BitNot(b, 2);
    BitNot(b, 3);
    BitNot(b, 4);
    BitNot(b, 5);
    BitNot(b, 6);
    BitNot(b, 7);
  }

  function Choose(c: bv8, a0: nat, a1: nat, a2: nat, a3: nat, a4: nat, a5: nat, a6: nat, a7: nat): nat {
    match c
    case 0 => a0
    case 1 => a1
    case 2 => a2
    case 3 => a3
    case 4 => a4
    case 5 => a5
    case 6 => a6
    case _ => a7
  }

  /** The bit count table, eight entries to a row. */
  function Hweight8(b: bv8): nat {
    var c := b & 7;
    match b >> 3
    case 0 => Choose(c, 0, 1, 1, 2, 1, 2, 2, 3)
    case 1 => Choose(c, 1, 2, 2, 3, 2, 3, 3, 4)
    case 2 => Choose(c, 1, 2, 2, 3, 2, 3, 3, 4)
    case 3 => Choose(c, 2, 3, 3, 4, 3, 4, 4, 5)
    case 4 => Choose(c, 1, 2, 2, 3, 2, 3, 3, 4)
    case 5 => Choose(c, 2, 3, 3, 4, 3, 4, 4, 5)
    case 6 => Choose(c, 2, 3, 3, 4, 3, 4, 4, 5)
    case 7 => Choose(c, 3, 4, 4, 5, 4, 5, 5, 6)
    case 8 => Choose(c, 1, 2, 2, 3, 2, 3, 3, 4)
    case 9 => Choose(c, 2, 3, 3, 4, 3, 4, 4, 5)
    case 10 => Choose(c, 2, 3, 3, 4, 3, 4, 4, 5)
    case 11 => Choose(c, 3, 4, 4, 5, 4, 5, 5, 6)
    case 12 => Choose(c, 2, 3, 3, 4, 3, 4, 4, 5)
    case 13 => Choose(c, 3, 4, 4, 5, 4, 5, 5, 6)
    case 14 => Choose(c, 3, 4, 4, 5, 4, 5, 5, 6)
    case 15 => Choose(c, 4, 5, 5, 6, 5, 6, 6, 7)
    case 16 => Choose(c, 1, 2, 2, 3, 2, 3, 3, 4)
    case 17 => Choose(c, 2, 3, 3, 4, 3, 4, 4, 5)
    case 18 => Choose(c, 2, 3, 3, 4, 3, 4, 4, 5)
    case 19 => Choose(c, 3, 4, 4, 5, 4, 5, 5, 6)
    case 20 => Choose(c, 2, 3, 3, 4, 3, 4, 4, 5)
    case 21 => Choose(c, 3, 4, 4, 5, 4, 5, 5, 6)
    case 22 => Choose(c, 3, 4, 4, 5, 4, 5, 5, 6)
    case 23 => Choose(c, 4, 5, 5, 6, 5, 6, 6, 7)
    case 24 => Choose(c, 2, 3, 3, 4, 3, 4, 4, 5)
    case 25 => Choose(c, 3, 4, 4, 5, 4, 5, 5, 6)
    case 26 => Choose(c, 3, 4, 4, 5, 4, 5, 5, 6)
    case 27 => Choose(c, 4, 5, 5, 6, 5, 6, 6, 7)
    case 28 => Choose(c, 3, 4, 4, 5, 4, 5, 5, 6)
    case 29 => Choose(c, 4, 5, 5, 6, 5, 6, 6, 7)
    case 30 => Choose(c, 4, 5, 5, 6, 5, 6, 6, 7)
    case _ => Choose(c, 5, 6, 6, 7, 6, 7, 7, 8)
  }

  lemma CountRows0(b: bv8)
    requires b >> 4 == 0
    ensures Hweight8(b) == Weight(b)
  {
    assert b >> 3 == 0 || b >> 3 == 1;
  }

  lemma CountRows1(b: bv8)
    requires b >> 4 == 1
    ensures Hweight8(b) == Weight(b)
  {
    assert b >> 3 == 2 || b >> 3 == 3;
  }

  lemma CountRows2(b: bv8)
    requires b >> 4 == 2
    ensures Hweight8(b) == Weight(b)
  {
    assert b >> 3 == 4 || b >> 3 == 5;
  }

  lemma CountRows3(b: bv8)
    requires b >> 4 == 3
    ensures Hweight8(b) == Weight(b)
  {
    assert b >> 3 == 6 || b >> 3 == 7;
  }

  lemma CountRows4(b: bv8)
    requires b >> 4 == 4
    ensures Hweight8(b) == Weight(b)
  {
    assert b >> 3 == 8 || b >> 3 == 9;
  }

  lemma CountRows5(b: bv8)
    requires b >> 4 == 5
    ensures Hweight8(b) == Weight(b)
  {
    assert b >> 3 == 10 || b >> 3 == 11;
  }

  lemma CountRows6(b: bv8)
    requires b >> 4 == 6
    ensures Hweight8(b) == Weight(b)
  {
    assert b >> 3 == 12 || b >> 3 == 13;
  }

  lemma CountRows7(b: bv8)
    requires b >> 4 == 7
    ensures Hweight8(b) == Weight(b)
  {
    assert b >> 3 == 14 || b >> 3 == 15;
  }

  lemma CountRows8(b: bv8)
    requires b >> 4 == 8
    ensures Hweight8(b) == Weight(b)
  {
    assert b >> 3 == 16 || b >> 3 == 17;
  }

  lemma CountRows9(b: bv8)
    requires b >> 4 == 9
    ensures Hweight8(b) == Weight(b)
  {
    assert b >> 3 == 18 || b >> 3 == 19;
  }

  lemma CountRows10(b: bv8)
    requires b >> 4 == 10
    ensures Hweight8(b) == Weight(b)
  {
    assert b >> 3 == 20 || b >> 3 == 21;
  }

  lemma CountRows11(b: bv8)
    requires b >> 4 == 11
    ensures Hweight8(b) == Weight(b)
  {
    assert b >> 3 == 22 || b >> 3 == 23;
  }

  lemma CountRows12(b: bv8)
    requires b >> 4 == 12
    ensures Hweight8(b) == Weight(b)
  {
    assert b >> 3 == 24 || b >> 3 == 25;
  }

  lemma CountRows13(b: bv8)
    requires b >> 4 == 13
    ensures Hweight8(b) == Weight(b)
  {
    assert b >> 3 == 26 || b >> 3 == 27;
  }

  lemma CountRows14(b: bv8)
    requires b >> 4 == 14
    ensures Hweight8(b) == Weight(b)
  {
    assert b >> 3 == 28 || b >> 3 == 29;
  }

  lemma CountRows15(b: bv8)
    requires b >> 4 == 15
    ensures Hweight8(b) == Weight(b)
  {
    assert b >> 3 == 30 || b >> 3 == 31;
  }

  /** The table counts the bits set. */
  lemma HweightIsWeight(b: bv8)
    ensures Hweight8(b) == Weight(b)
  {
    hide Hweight8, Weight;
    match b >> 4
    case 0 => CountRows0(b);
    case 1 => CountRows1(b);
    case 2 => CountRows2(b);
    case 3 => CountRows3(b);
    case 4 => CountRows4(b);
    case 5 => CountRows5(b);
    case 6 => CountRows6(b);
    case 7 => CountRows7(b);
    case 8 => CountRows8(b);
    case 9 => CountRows9(b);
    case 10 => CountRows10(b);
    case 11 => CountRows11(b);
    case 12 => CountRows12(b);
    case 13 => CountRows13(b);
    case 14 => CountRows14(b);
    case _ => CountRows15(b);
  }
}
