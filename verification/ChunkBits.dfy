/** The chunk bitmap of one block: a row of bytes, one bit a chunk. */
module ChunkBits {

  type Row = seq<bv8>

  /** 1 << k. */
  function One(k: nat): bv8
    requires k < 8
  {
    match k
    case 0 => 0x01
    case 1 => 0x02
    case 2 => 0x04
    case 3 => 0x08
    case 4 => 0x10
    case 5 => 0x20
    case 6 => 0x40
    case 7 => 0x80
  }

  function Mask(c: nat): bv8 {
    One(c % 8)
  }

  predicate Check(row: Row, c: nat) {
    c / 8 < |row| && row[c / 8] & Mask(c) != 0
  }

  function Set(row: Row, c: nat): Row
    requires c / 8 < |row|
  {
    row[c / 8 := row[c / 8] | Mask(c)]
  }

  function Clear(row: Row, c: nat): Row
    requires c / 8 < |row|
  {
    row[c / 8 := row[c / 8] & !Mask(c)]
  }

  function Bit(b: bv8, k: nat): (r: nat)
    requires k < 8
    ensures r <= 1
  {
    if b & One(k) != 0 then 1 else 0
  }

  /** The number of bits set in a byte. */
  function Weight(b: bv8): (n: nat)
    ensures n <= 8
  {
    Bit(b, 0) + Bit(b, 1) + Bit(b, 2) + Bit(b, 3) + Bit(b, 4) + Bit(b, 5) + Bit(b, 6) + Bit(b, 7)
  }

  ghost function Count(row: Row): nat {
    if row == [] then 0 else Weight(row[0]) + Count(row[1..])
  }

  /** Counts the bits byte by byte. */
  method CountChunkBits(row: Row) returns (n: nat)
    ensures n == Count(row)
  {
    n := 0;
    for i := 0 to |row|
      invariant n + Count(row[i..]) == Count(row)
    {
      n := n + Weight(row[i]);
      assert row[i..][1..] == row[i + 1..];
    }
  }

  method StillSomeChunks(row: Row) returns (b: bool)
    ensures b <==> Count(row) > 0
  {
    for i := 0 to |row|
      invariant Count(row) == Count(row[i..])
    {
      assert row[i..][1..] == row[i + 1..];
      WeightZero(row[i]);
      if row[i] != 0 {
        return true;
      }
    }
    return false;
  }

  lemma WeightZero(b: bv8)
    ensures Weight(b) == 0 <==> b == 0
  {}

  lemma OneSet(b: bv8, k: nat, j: nat)
    requires k < 8 && j < 8
    ensures Bit(b | One(k), j) == if j == k then 1 else Bit(b, j)
  {}

  lemma OneCleared(b: bv8, k: nat, j: nat)
    requires k < 8 && j < 8
    ensures Bit(b & !One(k), j) == if j == k then 0 else Bit(b, j)
  {}

  lemma OneBit(b: bv8, k: nat, j: nat)
    requires k < 8 && j < 8
    ensures Bit(b | One(k), j) == if j == k then 1 else Bit(b, j)
    ensures Bit(b & !One(k), j) == if j == k then 0 else Bit(b, j)
  {
    hide Bit, One;
    OneSet(b, k, j);
    OneCleared(b, k, j);
  }

  lemma MaskBits(b: bv8, k: nat)
    requires k < 8
    ensures Weight(b | One(k)) == Weight(b) + 1 - Bit(b, k)
    ensures Weight(b & !One(k)) == Weight(b) - Bit(b, k)
  {
    hide Bit, One;
    OneBit(b, k, 0);
    OneBit(b, k, 1);
    OneBit(b, k, 2);
    OneBit(b, k, 3);
    OneBit(b, k, 4);
    OneBit(b, k, 5);
    OneBit(b, k, 6);
    OneBit(b, k, 7);
  }

  lemma {:induction false} CountUpdate(row: Row, i: nat, b: bv8)
    requires i < |row|
    ensures Count(row[i := b]) == Count(row) - Weight(row[i]) + Weight(b)
  {
    var row' := row[i := b];
    if i > 0 {
      CountUpdate(row[1..], i - 1, b);
      assert row'[1..] == row[1..][i - 1 := b];
    } else {
      assert row'[1..] == row[1..];
    }
  }

  predicate BitAt(row: Row, i: nat, k: nat)
    requires k < 8
  {
    i < |row| && Bit(row[i], k) == 1
  }

  lemma CheckIsBit(row: Row, c: nat)
    ensures Check(row, c) <==> BitAt(row, c / 8, c % 8)
  {}

  lemma SameIndex(c: nat, d: nat)
    ensures c == d <==> c / 8 == d / 8 && c % 8 == d % 8
  {
    assert d == d / 8 * 8 + d % 8 && c == c / 8 * 8 + c % 8;
  }

  /** Setting or clearing a bit changes that bit and no other, and the count by what it should. */
  lemma SetBitCount(row: Row, c: nat)
    requires c / 8 < |row|
    ensures Count(Set(row, c)) == Count(row) + if Check(row, c) then 0 else 1
  {
    hide Bit, One, Weight, Count, Check;
    CountUpdate(row, c / 8, row[c / 8] | One(c % 8));
    MaskBits(row[c / 8], c % 8);
    CheckIsBit(row, c);
  }

  lemma SetBitIn(row: Row, i: nat, k: nat, j: nat, m: nat)
    requires i < |row| && k < 8 && m < 8
    ensures BitAt(row[i := row[i] | One(k)], j, m) <==> BitAt(row, j, m) || (i == j && k == m)
  {
    hide Bit, One;
    if i == j {
      OneBit(row[i], k, m);
    }
  }

  lemma SetBitAt(row: Row, c: nat, d: nat)
    requires c / 8 < |row|
    ensures Check(Set(row, c), d) <==> Check(row, d) || d == c
  {
    hide BitAt, Check;
    CheckIsBit(row, d);
    CheckIsBit(Set(row, c), d);
    SetBitIn(row, c / 8, c % 8, d / 8, d % 8);
    SameIndex(c, d);
  }

  lemma SetBit(row: Row, c: nat)
    requires c / 8 < |row|
    ensures |Set(row, c)| == |row|
    ensures Count(Set(row, c)) == Count(row) + if Check(row, c) then 0 else 1
    ensures forall d: nat :: Check(Set(row, c), d) <==> Check(row, d) || d == c
  {
    SetBitCount(row, c);
    hide Count, Check;
    forall d: nat
      ensures Check(Set(row, c), d) <==> Check(row, d) || d == c
    {
      SetBitAt(row, c, d);
    }
  }

  lemma ClearBitCount(row: Row, c: nat)
    requires c / 8 < |row|
    ensures Count(Clear(row, c)) == Count(row) - if Check(row, c) then 1 else 0
  {
    hide Bit, One, Weight, Count, Check;
    CountUpdate(row, c / 8, row[c / 8] & !One(c % 8));
    MaskBits(row[c / 8], c % 8);
    CheckIsBit(row, c);
  }

  lemma ClearBitIn(row: Row, i: nat, k: nat, j: nat, m: nat)
    requires i < |row| && k < 8 && m < 8
    ensures BitAt(row[i := row[i] & !One(k)], j, m) <==> BitAt(row, j, m) && (i != j || k != m)
  {
    hide Bit, One;
    if i == j {
      OneBit(row[i], k, m);
    }
  }

  lemma ClearBitAt(row: Row, c: nat, d: nat)
    requires c / 8 < |row|
    ensures Check(Clear(row, c), d) <==> Check(row, d) && d != c
  {
    hide BitAt, Check;
    CheckIsBit(row, d);
    CheckIsBit(Clear(row, c), d);
    ClearBitIn(row, c / 8, c % 8, d / 8, d % 8);
    SameIndex(c, d);
  }

  lemma ClearBit(row: Row, c: nat)
    requires c / 8 < |row|
    ensures |Clear(row, c)| == |row|
    ensures Count(Clear(row, c)) == Count(row) - if Check(row, c) then 1 else 0
    ensures forall d: nat :: Check(Clear(row, c), d) <==> Check(row, d) && d != c
  {
    ClearBitCount(row, c);
    hide Count, Check;
    forall d: nat
      ensures Check(Clear(row, c), d) <==> Check(row, d) && d != c
    {
      ClearBitAt(row, c, d);
    }
  }

  function NoBits(n: nat): (row: Row)
    ensures |row| == n
  {
    seq(n, i => 0)
  }

  lemma NoBitsCheck(n: nat, c: nat)
    ensures !Check(NoBits(n), c)
  {}

  lemma {:induction false} CountNone(row: Row)
    requires forall i :: 0 <= i < |row| ==> row[i] == 0
    ensures Count(row) == 0
  {
    if row != [] {
      WeightZero(row[0]);
      CountNone(row[1..]);
    }
  }

  /** The bits set form the set of chunks in use; the count is its size. */
  ghost function Chunks(row: Row): set<nat> {
    set c: nat | c < 8 * |row| && Check(row, c)
  }

  lemma {:induction false} CountIsSize(row: Row)
    ensures Count(row) == |Chunks(row)|
    decreases Count(row)
  {
    if Chunks(row) == {} {
      forall i | 0 <= i < |row|
        ensures row[i] == 0
      {
        NoBitSet(row, i);
      }
      CountNone(row);
    } else {
      var c :| c in Chunks(row);
      ClearBit(row, c);
      CountIsSize(Clear(row, c));
      assert Chunks(row) == Chunks(Clear(row, c)) + {c};
    }
  }

  lemma NoBitSet(row: Row, i: nat)
    requires i < |row| && Chunks(row) == {}
    ensures row[i] == 0
  {
    forall k: nat | k < 8
      ensures Bit(row[i], k) == 0
    {
      assert (8 * i + k) / 8 == i && (8 * i + k) % 8 == k;
      assert 8 * i + k !in Chunks(row);
    }
    WeightZero(row[i]);
  }

  lemma NoneSet(row: Row, c: nat)
    requires Check(row, c)
    ensures Count(row) > 0
  {
    CountIsSize(row);
    assert c in Chunks(row);
  }

  lemma {:induction false} SizeBelow(s: set<nat>, n: nat)
    requires forall c :: c in s ==> c < n
    ensures |s| <= n
  {
    if n > 0 {
      SizeBelow(s - {n - 1}, n - 1);
    } else {
      assert s == {};
    }
  }

  /** A row with bits only below `n` counts at most `n`. */
  lemma CountBelow(row: Row, n: nat)
    requires forall c: nat :: Check(row, c) ==> c < n
    ensures Count(row) <= n
  {
    CountIsSize(row);
    SizeBelow(Chunks(row), n);
  }
}
