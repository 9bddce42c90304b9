/** The form of the code for 256 bytes of data: 22 parity bits laid out in three bytes. */
module Ecc256 {
  import opened ChunkBits
  import opened EccTable
  import opened Ecc

  datatype Code = Code(e0: bv8, e1: bv8, e2: bv8)

  const NOTHING := Code(0, 0, 0)

  function Add(x: Code, y: Code): Code {
    Code(XorByte(x.e0, y.e0), XorByte(x.e1, y.e1), XorByte(x.e2, y.e2))
  }

  lemma AddLaws(a: Code, b: Code, c: Code)
    ensures Add(a, b) == Add(b, a) && Add(Add(a, b), c) == Add(a, Add(b, c)) && Add(a, a) == NOTHING
    ensures Add(a, NOTHING) == a
  {
    hide XorByte;
    XorLaws(a.e0, b.e0, c.e0);
    XorLaws(a.e1, b.e1, c.e1);
    XorLaws(a.e2, b.e2, c.e2);
  }

  /** Eight bits laid out from the top down. */
  function Laid(b7: bool, b6: bool, b5: bool, b4: bool, b3: bool, b2: bool, b1: bool, b0: bool): bv8 {
    (if b7 then 0x80 else 0) | (if b6 then 0x40 else 0) | (if b5 then 0x20 else 0) | (if b4 then 0x10 else 0)
    | (if b3 then 0x08 else 0) | (if b2 then 0x04 else 0) | (if b1 then 0x02 else 0) | (if b0 then 0x01 else 0)
  }

  /** The upper halves of the line parities, bit by bit side by side. */
  function Upper(line: bv8, prime: bv8): bv8 {
    Laid(line & 0x80 != 0, prime & 0x80 != 0, line & 0x40 != 0, prime & 0x40 != 0,
         line & 0x20 != 0, prime & 0x20 != 0, line & 0x10 != 0, prime & 0x10 != 0)
  }

  function Lower(line: bv8, prime: bv8): bv8 {
    Laid(line & 0x08 != 0, prime & 0x08 != 0, line & 0x04 != 0, prime & 0x04 != 0,
         line & 0x02 != 0, prime & 0x02 != 0, line & 0x01 != 0, prime & 0x01 != 0)
  }

  function Packed(col: bv8, line: bv8, prime: bv8): Code {
    Code(!Lower(line, prime), !Upper(line, prime), !col | 0x03)
  }

  /** The code of 256 bytes: line parities are kept in one byte each. */
  function Calc256(data: seq<bv8>): Code
    requires |data| == 256
  {
    var p := Parities(data, 256);
    Packed(p.col, p.line.b0, p.prime.b0)
  }

  method EccCalc(data: array<bv8>) returns (ecc: Code)
    requires data.Length == 256
    ensures ecc == Calc256(data[..])
  {
    hide Table, ByteOf, XorByte, Packed;
    var col, line, prime := 0, 0, 0;
    for i := 0 to 256
      invariant col == Parities(data[..], i).col
      invariant line == Parities(data[..], i).line.b0 && prime == Parities(data[..], i).prime.b0
    {
      var b := Table(data[i]);
      ParitiesStep(data[..], i + 1);
      StepParts(Parities(data[..], i), b, i);
      col := XorByte(col, b);
      if b & 1 != 0 {
        line := XorByte(line, ByteOf(i));
        prime := XorByte(prime, !ByteOf(i));
      }
    }
    ecc := Packed(col, line, prime);
  }

  // ---------- What one bit of data adds ----------

  function DataPart(i: nat, k: nat): Code
    requires i < 256 && k < 8
  {
    Code(Lower(ByteOf(i), !ByteOf(i)), Upper(ByteOf(i), !ByteOf(i)), Column(k) & 0xfc)
  }

  predicate Tests(b: bv8, k: nat)
    requires k < 8
  {
    b & One(k) != 0
  }

  lemma TestsXor(x: bv8, y: bv8, k: nat)
    requires k < 8
    ensures Tests(XorByte(x, y), k) <==> Tests(x, k) != Tests(y, k)
  {
    if k < 4 {
    } else {
    }
  }

  lemma SameByte(x: bv8, y: bv8)
    requires forall k: nat :: k < 8 ==> Tests(x, k) == Tests(y, k)
    ensures x == y
  {
    assert Tests(x, 0) == Tests(y, 0) && Tests(x, 1) == Tests(y, 1) && Tests(x, 2) == Tests(y, 2);
    assert Tests(x, 3) == Tests(y, 3) && Tests(x, 4) == Tests(y, 4) && Tests(x, 5) == Tests(y, 5);
    assert Tests(x, 6) == Tests(y, 6) && Tests(x, 7) == Tests(y, 7);
  }

  /** A bit of the packed byte is a bit of the line or of its prime. */
  lemma UpperTests(l: bv8, p: bv8, t: nat)
    requires t < 8
    ensures Tests(Upper(l, p), t) <==> if t % 2 == 1 then Tests(l, 4 + t / 2) else Tests(p, 4 + t / 2)
  {
    if t < 4 {
    } else {
    }
  }

  lemma LowerTests(l: bv8, p: bv8, t: nat)
    requires t < 8
    ensures Tests(Lower(l, p), t) <==> if t % 2 == 1 then Tests(l, t / 2) else Tests(p, t / 2)
  {
    if t < 4 {
    } else {
    }
  }

  lemma UpperXor(l: bv8, p: bv8, a: bv8, b: bv8)
    ensures Upper(XorByte(l, a), XorByte(p, b)) == XorByte(Upper(l, p), Upper(a, b))
  {
    hide Tests, XorByte, Upper;
    var x, y := Upper(XorByte(l, a), XorByte(p, b)), XorByte(Upper(l, p), Upper(a, b));
    forall t: nat | t < 8
      ensures Tests(x, t) == Tests(y, t)
    {
      UpperTests(XorByte(l, a), XorByte(p, b), t);
      UpperTests(l, p, t);
      UpperTests(a, b, t);
      TestsXor(Upper(l, p), Upper(a, b), t);
      TestsXor(l, a, 4 + t / 2);
      TestsXor(p, b, 4 + t / 2);
    }
    SameByte(x, y);
  }

  lemma LowerXor(l: bv8, p: bv8, a: bv8, b: bv8)
    ensures Lower(XorByte(l, a), XorByte(p, b)) == XorByte(Lower(l, p), Lower(a, b))
  {
    hide Tests, XorByte, Lower;
    var x, y := Lower(XorByte(l, a), XorByte(p, b)), XorByte(Lower(l, p), Lower(a, b));
    forall t: nat | t < 8
      ensures Tests(x, t) == Tests(y, t)
    {
      LowerTests(XorByte(l, a), XorByte(p, b), t);
      LowerTests(l, p, t);
      LowerTests(a, b, t);
      TestsXor(Lower(l, p), Lower(a, b), t);
      TestsXor(l, a, t / 2);
      TestsXor(p, b, t / 2);
    }
    SameByte(x, y);
  }

  lemma NotXor(a: bv8, b: bv8)
    ensures !XorByte(a, b) == XorByte(!a, b)
    ensures !XorByte(a, b) | 0x03 == XorByte(!a | 0x03, b & 0xfc)
  {}

  lemma PackedXor(col: bv8, line: bv8, prime: bv8, c: bv8, l: bv8, p: bv8)
    ensures Packed(XorByte(col, c), XorByte(line, l), XorByte(prime, p))
            == Add(Packed(col, line, prime), Code(Lower(l, p), Upper(l, p), c & 0xfc))
  {
    UpperXor(line, prime, l, p);
    LowerXor(line, prime, l, p);
    NotXor(Lower(line, prime), Lower(l, p));
    NotXor(Upper(line, prime), Upper(l, p));
    NotXor(col, c);
    hide Upper, Lower, XorByte;
  }

  lemma SameLength256(data: seq<bv8>, i: nat, k: nat)
    requires |data| == 256 && i < 256 && k < 8
    ensures |FlipBit(data, i, k)| == 256
  {}

  lemma CalcFlip256(data: seq<bv8>, i: nat, k: nat)
    requires |data| == 256 && i < 256 && k < 8
    ensures Calc256(FlipBit(data, i, k)) == Add(Calc256(data), DataPart(i, k))
  {
    hide Packed, XorByte, Upper, Lower, Column, ByteOf, One, Parities, FlipBit;
    ParitiesFlip(data, i, k, 256);
    SameLength256(data, i, k);
    var p := Parities(data, 256);
    PackedXor(p.col, p.line.b0, p.prime.b0, Column(k), ByteOf(i), !ByteOf(i));
  }

  // ---------- Correction ----------

  predicate PairPattern(d: bv8) {
    (d ^ (d >> 1)) & 0x55 == 0x55
  }

  predicate ColumnPairPattern(d: bv8) {
    (d ^ (d >> 1)) & 0x54 == 0x54
  }

  function ByteAt(d0: bv8, d1: bv8): bv8 {
    (if d1 & 0x80 != 0 then 0x80 else 0) | (if d1 & 0x20 != 0 then 0x40 else 0)
    | (if d1 & 0x08 != 0 then 0x20 else 0) | (if d1 & 0x02 != 0 then 0x10 else 0)
    | (if d0 & 0x80 != 0 then 0x08 else 0) | (if d0 & 0x20 != 0 then 0x04 else 0)
    | (if d0 & 0x08 != 0 then 0x02 else 0) | (if d0 & 0x02 != 0 then 0x01 else 0)
  }

  function BitOf(d2: bv8): (k: nat)
    ensures k < 8
  {
    (if d2 & 0x80 != 0 then 4 else 0) + (if d2 & 0x20 != 0 then 2 else 0) + if d2 & 0x08 != 0 then 1 else 0
  }

  predicate IsData(d: Code) {
    PairPattern(d.e0) && PairPattern(d.e1) && ColumnPairPattern(d.e2)
  }

  function Weight3(d: Code): nat {
    Hweight8(d.e0) + Hweight8(d.e1) + Hweight8(d.e2)
  }

  datatype Outcome256 = Outcome256(result: int, data: seq<bv8>, ecc: Code)

  function Corrected256(data: seq<bv8>, read: Code, test: Code): Outcome256
    requires |data| == 256
  {
    var d := Add(read, test);
    if d == NOTHING then Outcome256(0, data, read)
    else if IsData(d) then Outcome256(1, FlipBit(data, NumberOf(ByteAt(d.e0, d.e1)), BitOf(d.e2)), read)
    else if Weight3(d) == 1 then Outcome256(1, data, test)
    else Outcome256(-1, data, read)
  }

  method EccCorrect(data: array<bv8>, read: Code, test: Code) returns (result: int, ecc: Code)
    requires data.Length == 256
    modifies data
    ensures Outcome256(result, data[..], ecc) == Corrected256(old(data[..]), read, test)
  {
    hide One, Hweight8, BitOf, ByteAt, PairPattern, ColumnPairPattern;
    var d := Add(read, test);
    ecc := read;
    if d == NOTHING {
      return 0, ecc;
    }
    if PairPattern(d.e0) && PairPattern(d.e1) && ColumnPairPattern(d.e2) {
      var byte := NumberOf(ByteAt(d.e0, d.e1));
      var bit := BitOf(d.e2);
      data[byte] := data[byte] ^ One(bit);
      return 1, ecc;
    }
    if Hweight8(d.e0) + Hweight8(d.e1) + Hweight8(d.e2) == 1 {
      ecc := test;
      return 1, ecc;
    }
    return -1, ecc;
  }

  // ---------- Bits in error ----------

  datatype Fault = DataFault(i: nat, k: nat) | CodeFault(j: nat, k: nat)

  predicate FaultOk(f: Fault) {
    f.k < 8 && match f
      case DataFault(i, k) => i < 256
      case CodeFault(j, k) => j < 3
  }

  /** The two low bits of the third byte take no part. */
  predicate Spare(f: Fault) {
    f.CodeFault? && f.j == 2 && f.k < 2
  }

  function PartOf(f: Fault): Code
    requires FaultOk(f)
  {
    match f
    case DataFault(i, k) => DataPart(i, k)
    case CodeFault(j, k) => if j == 0 then Code(One(k), 0, 0) else if j == 1 then Code(0, One(k), 0) else Code(0, 0, One(k))
  }

  function SpoilData(f: Fault, data: seq<bv8>): (r: seq<bv8>)
    requires FaultOk(f) && |data| == 256
    ensures |r| == 256
  {
    if f.DataFault? then FlipBit(data, f.i, f.k) else data
  }

  function SpoilCode(f: Fault, ecc: Code): Code
    requires FaultOk(f)
  {
    if f.DataFault? then ecc else Add(ecc, PartOf(f))
  }

  lemma SpoilDelta(f: Fault, data: seq<bv8>, ecc: Code)
    requires |data| == 256 && FaultOk(f)
    ensures Add(SpoilCode(f, ecc), Calc256(SpoilData(f, data))) == Add(Add(ecc, Calc256(data)), PartOf(f))
  {
    if f.DataFault? {
      CalcFlip256(data, f.i, f.k);
    }
    hide Add, Calc256, DataPart, One;
    AddLaws(ecc, Calc256(data), PartOf(f));
    AddLaws(ecc, PartOf(f), Calc256(data));
    AddLaws(PartOf(f), Calc256(data), ecc);
  }

  /** A line and its complement: every pair has one bit set, and the pairs spell out the line. */
  lemma LinePairs(b: bv8)
    ensures PairPattern(Lower(b, !b)) && PairPattern(Upper(b, !b)) && ByteAt(Lower(b, !b), Upper(b, !b)) == b
  {}

  lemma LowerWeight(b: bv8)
    ensures Hweight8(Lower(b, !b)) == 4
  {}

  lemma UpperWeight(b: bv8)
    ensures Hweight8(Upper(b, !b)) == 4
  {}

  lemma ColumnPairOf(k: nat)
    requires k < 8
    ensures var c := Column(k) & 0xfc;
      ColumnPairPattern(c) && BitOf(c) == k && Hweight8(c) == 3
  {}

  lemma DataPartIs(i: nat, k: nat)
    requires i < 256 && k < 8
    ensures var d := DataPart(i, k);
      IsData(d) && Weight3(d) == 11 && d != NOTHING && NumberOf(ByteAt(d.e0, d.e1)) == i && BitOf(d.e2) == k
  {
    LinePairs(ByteOf(i));
    LowerWeight(ByteOf(i));
    UpperWeight(ByteOf(i));
    ColumnPairOf(k);
    ByteNumber(i);
    WeightOfZero();
    hide Lower, Upper, ByteOf, NumberOf, Hweight8, PairPattern, ColumnPairPattern, Column, BitOf, ByteAt;
  }

  lemma NoPattern()
    ensures !PairPattern(0)
  {}

  lemma CodePart(f: Fault)
    requires FaultOk(f) && f.CodeFault?
    ensures Weight3(PartOf(f)) == 1 && PartOf(f) != NOTHING && !IsData(PartOf(f))
  {
    OneHasWeight(f.k);
    WeightOfZero();
    NoPattern();
    hide Hweight8, One, PairPattern, ColumnPairPattern;
  }

  lemma OneFault(f: Fault, data: seq<bv8>)
    requires |data| == 256 && FaultOk(f)
    ensures var bad := SpoilData(f, data);
      Corrected256(bad, SpoilCode(f, Calc256(data)), Calc256(bad)) == Outcome256(1, data, Calc256(data))
  {
    var e := Calc256(data);
    SpoilDelta(f, data, e);
    AddLaws(e, PartOf(f), NOTHING);
    AddLaws(NOTHING, PartOf(f), NOTHING);
    if f.DataFault? {
      DataPartIs(f.i, f.k);
      FlipTwice(data, f.i, f.k);
    } else {
      CodePart(f);
    }
    hide Add, Calc256, IsData, Weight3, NumberOf, ByteAt, BitOf, FlipBit, DataPart, One;
  }

  // ---------- Two bits in error ----------

  /** Two lines: every pair has both bits set or neither. */
  lemma EvenPairs(x: bv8)
    ensures !PairPattern(Lower(x, x)) && (x != 0 ==> Lower(x, x) != 0 || Upper(x, x) != 0)
  {}

  /** Bits that come in pairs make an even weight. */
  lemma PairsWeight(b3: bool, b2: bool, b1: bool, b0: bool)
    ensures Hweight8(Laid(b3, b3, b2, b2, b1, b1, b0, b0)) % 2 == 0
  {
    if b3 {
      if b2 {
      } else {
      }
    } else if b2 {
    } else {
    }
  }

  lemma EvenLower(x: bv8)
    ensures Hweight8(Lower(x, x)) % 2 == 0
  {
    PairsWeight(x & 0x08 != 0, x & 0x04 != 0, x & 0x02 != 0, x & 0x01 != 0);
    hide Hweight8, Laid;
  }

  lemma EvenUpper(x: bv8)
    ensures Hweight8(Upper(x, x)) % 2 == 0
  {
    PairsWeight(x & 0x80 != 0, x & 0x40 != 0, x & 0x20 != 0, x & 0x10 != 0);
    hide Hweight8, Laid;
  }

  lemma EvenColumns(k: nat, l: nat)
    requires k < 8 && l < 8
    ensures var c := XorByte(Column(k) & 0xfc, Column(l) & 0xfc);
      Hweight8(c) % 2 == 0 && (k != l ==> c != 0)
  {
    if k < 4 {
    } else {
    }
  }

  lemma TwoDataParts(i: nat, k: nat, j: nat, l: nat)
    requires i < 256 && j < 256 && k < 8 && l < 8 && (i != j || k != l)
    ensures var d := Add(DataPart(i, k), DataPart(j, l));
      d != NOTHING && !IsData(d) && Weight3(d) != 1
  {
    hide Lower, Upper, ByteOf, NumberOf, Hweight8, PairPattern, ColumnPairPattern, Column, XorByte;
    var b, c := ByteOf(i), ByteOf(j);
    var x := XorByte(b, c);
    LowerXor(b, !b, c, !c);
    UpperXor(b, !b, c, !c);
    NotXorNot(b, c);
    EvenPairs(x);
    EvenLower(x);
    EvenUpper(x);
    EvenColumns(k, l);
    ByteNumber(i);
    ByteNumber(j);
    if x == 0 {
      XorNoneByte(b, c);
    }
  }

  lemma NotXorNot(b: bv8, c: bv8)
    ensures XorByte(!b, !c) == XorByte(b, c)
  {}

  lemma PairSpoilt(d: bv8, k: nat)
    requires k < 8 && PairPattern(d)
    ensures !PairPattern(XorByte(d, One(k)))
  {}

  lemma ColumnPairSpoilt(k: nat, j: nat)
    requires k < 8 && j < 8
    ensures var c := XorByte(Column(k) & 0xfc, One(j));
      if j >= 2 then !ColumnPairPattern(c) else ColumnPairPattern(c) && BitOf(c) == k
  {
    if k < 4 {
    } else {
    }
  }

  lemma DataAndCode(i: nat, k: nat, f: Fault)
    requires i < 256 && k < 8 && FaultOk(f) && f.CodeFault?
    ensures var d := Add(DataPart(i, k), PartOf(f));
      d != NOTHING && if Spare(f) then IsData(d) && NumberOf(ByteAt(d.e0, d.e1)) == i && BitOf(d.e2) == k
        else !IsData(d) && Weight3(d) != 1
  {
    hide Lower, Upper, ByteOf, NumberOf, Hweight8, PairPattern, ColumnPairPattern, Column, XorByte, ByteAt, BitOf, One;
    var p := DataPart(i, k);
    DataPartIs(i, k);
    XorLaws(p.e0, 0, 0);
    XorLaws(p.e1, 0, 0);
    XorLaws(p.e2, 0, 0);
    LineWeights(i, k);
    WeightOfZero();
    if f.j == 0 {
      PairSpoilt(p.e0, f.k);
      WeightXor(p.e0, f.k);
    } else if f.j == 1 {
      PairSpoilt(p.e1, f.k);
      WeightXor(p.e1, f.k);
    } else {
      ColumnPairSpoilt(k, f.k);
      WeightXor(p.e2, f.k);
    }
  }

  lemma LineWeights(i: nat, k: nat)
    requires i < 256 && k < 8
    ensures Hweight8(DataPart(i, k).e0) == 4 && Hweight8(DataPart(i, k).e1) == 4
  {
    LowerWeight(ByteOf(i));
    UpperWeight(ByteOf(i));
    hide Lower, Upper, ByteOf, Hweight8, Column;
  }

  lemma TwoCodeParts(f: Fault, g: Fault)
    requires FaultOk(f) && FaultOk(g) && f.CodeFault? && g.CodeFault? && f != g
    ensures var d := Add(PartOf(f), PartOf(g));
      d != NOTHING && !IsData(d) && Weight3(d) == 2
  {
    hide Hweight8, One, XorByte, ColumnPairPattern, PairPattern;
    XorLaws(0, 0, 0);
    XorLaws(One(f.k), 0, 0);
    XorLaws(0, One(g.k), 0);
    XorLaws(One(g.k), 0, 0);
    OneHasWeight(f.k);
    OneHasWeight(g.k);
    WeightOfZero();
    NoPattern();
    if f.k != g.k {
      TwoOnes(f.k, g.k);
    }
    OnePair(f.k);
    OnePair(g.k);
    if f.k != g.k {
      TwoInPair(f.k, g.k);
    }
  }

  lemma OnePair(k: nat)
    requires k < 8
    ensures !PairPattern(One(k))
  {}

  lemma TwoInPair(k: nat, l: nat)
    requires k < 8 && l < 8 && k != l
    ensures !PairPattern(XorByte(One(k), One(l)))
  {
    if k < 4 {
    } else {
    }
  }

  lemma TwoParts(f: Fault, g: Fault, data: seq<bv8>)
    requires |data| == 256 && FaultOk(f) && FaultOk(g)
    ensures Add(SpoilCode(g, SpoilCode(f, Calc256(data))), Calc256(SpoilData(g, SpoilData(f, data))))
            == Add(PartOf(f), PartOf(g))
  {
    var e := Calc256(data);
    SpoilDelta(f, data, e);
    SpoilDelta(g, SpoilData(f, data), SpoilCode(f, e));
    hide Add, Calc256, DataPart, One;
    AddLaws(e, e, NOTHING);
    AddLaws(NOTHING, PartOf(f), NOTHING);
    AddLaws(PartOf(f), NOTHING, NOTHING);
  }

  /** The same law as for data of any length: the exceptions are the two spare bits. */
  lemma TwoFaults(f: Fault, g: Fault, data: seq<bv8>)
    requires |data| == 256 && FaultOk(f) && FaultOk(g) && f != g
    ensures var bad := SpoilData(g, SpoilData(f, data));
      var ecc := SpoilCode(g, SpoilCode(f, Calc256(data)));
      Corrected256(bad, ecc, Calc256(bad)) ==
        if (f.DataFault? && Spare(g)) || (Spare(f) && g.DataFault?) then Outcome256(1, data, ecc)
        else Outcome256(-1, bad, ecc)
  {
    TwoParts(f, g, data);
    AddLaws(PartOf(f), PartOf(g), NOTHING);
    if f.DataFault? && g.DataFault? {
      TwoDataParts(f.i, f.k, g.i, g.k);
    } else if f.DataFault? {
      DataAndCode(f.i, f.k, g);
      FlipTwice(data, f.i, f.k);
    } else if g.DataFault? {
      DataAndCode(g.i, g.k, f);
      FlipTwice(data, g.i, g.k);
    } else {
      TwoCodeParts(f, g);
    }
    hide Add, Calc256, IsData, Weight3, NumberOf, ByteAt, BitOf, FlipBit, DataPart, One;
  }
}
