/** The error-correcting code over data of any length: one bit in error is put right, two are noticed. */
module Ecc {
  import opened ChunkBits
  import opened EccTable

  // ---------- 32-bit words by their bytes ----------

  datatype Word = Word(b0: bv8, b1: bv8, b2: bv8, b3: bv8)

  const ZERO := Word(0, 0, 0, 0)

  function XorByte(a: bv8, b: bv8): bv8 {
    a ^ b
  }

  function Xor(x: Word, y: Word): Word {
    Word(XorByte(x.b0, y.b0), XorByte(x.b1, y.b1), XorByte(x.b2, y.b2), XorByte(x.b3, y.b3))
  }

  function Not(x: Word): Word {
    Word(!x.b0, !x.b1, !x.b2, !x.b3)
  }

  function ByteOf(n: nat): bv8
    requires n < 256
  {
    if n == 0 then 0 else ByteOf(n - 1) + 1
  }

  lemma NextByte(b: bv8)
    requires NumberOf(b) < 255
    ensures NumberOf(b + 1) == NumberOf(b) + 1
  {}

  function NumberOf(b: bv8): (n: nat)
    ensures n < 256
  {
    b as nat
  }

  lemma {:induction false} ByteNumber(n: nat)
    requires n < 256
    ensures NumberOf(ByteOf(n)) == n
  {
    if n > 0 {
      ByteNumber(n - 1);
      NextByte(ByteOf(n - 1));
    }
  }

  /** The word that counts `n`. */
  function WordOf(n: nat): Word
    requires n < 0x1_0000_0000
  {
    Word(ByteOf(n % 256), ByteOf(n / 256 % 256), ByteOf(n / 65536 % 256), ByteOf(n / 16777216))
  }

  function Value(x: Word): nat {
    NumberOf(x.b0) + 256 * NumberOf(x.b1) + 65536 * NumberOf(x.b2) + 16777216 * NumberOf(x.b3)
  }

  lemma ValueOfWord(n: nat)
    requires n < 0x1_0000_0000
    ensures Value(WordOf(n)) == n
  {
    hide ByteOf, NumberOf;
    ByteNumber(n % 256);
    ByteNumber(n / 256 % 256);
    ByteNumber(n / 65536 % 256);
    ByteNumber(n / 16777216);
    Digits(n);
  }

  lemma Digits(n: nat)
    ensures n == n % 256 + 256 * (n / 256 % 256) + 65536 * (n / 65536 % 256) + 16777216 * (n / 16777216)
  {
    assert n == n / 256 * 256 + n % 256;
    var m := n / 256;
    assert n / 65536 == m / 256 && m == m / 256 * 256 + m % 256;
    var l := m / 256;
    assert n / 16777216 == l / 256 && l == l / 256 * 256 + l % 256;
  }

  function Hweight32(x: Word): nat {
    Hweight8(x.b0) + Hweight8(x.b1) + Hweight8(x.b2) + Hweight8(x.b3)
  }

  /** One bit of a word. */
  function OneIn(j: nat, k: nat): Word
    requires j < 4 && k < 8
  {
    match j
    case 0 => Word(One(k), 0, 0, 0)
    case 1 => Word(0, One(k), 0, 0)
    case 2 => Word(0, 0, One(k), 0)
    case 3 => Word(0, 0, 0, One(k))
  }

  // ---------- The code ----------

  datatype EccOther = EccOther(col: bv8, line: Word, prime: Word)

  function Sum(x: EccOther, y: EccOther): EccOther {
    EccOther(XorByte(x.col, y.col), Xor(x.line, y.line), Xor(x.prime, y.prime))
  }

  const NONE := EccOther(0, ZERO, ZERO)

  /** Parities summed over the first `n` bytes: columns over all of them, lines over those of odd parity. */
  function Parities(data: seq<bv8>, n: nat): EccOther
    requires n <= |data| <= 0x1_0000_0000
  {
    if n == 0 then NONE
    else
      var b := Table(data[n - 1]);
      var odd := if b & 1 != 0 then EccOther(0, WordOf(n - 1), Not(WordOf(n - 1))) else NONE;
      Sum(Sum(Parities(data, n - 1), EccOther(b, ZERO, ZERO)), odd)
  }

  /** Only six of the column bits are kept. */
  function Kept(col: bv8): bv8 {
    (col >> 2) & 0x3f
  }

  function Calc(data: seq<bv8>): EccOther
    requires |data| <= 0x1_0000_0000
  {
    var p := Parities(data, |data|);
    EccOther(Kept(p.col), p.line, p.prime)
  }

  /** What one bit of data adds to the code. */
  function DataDelta(i: nat, k: nat): EccOther
    requires i < 0x1_0000_0000 && k < 8
  {
    EccOther(Kept(Column(k)), WordOf(i), Not(WordOf(i)))
  }

  function FlipBit(data: seq<bv8>, i: nat, k: nat): seq<bv8>
    requires i < |data| && k < 8
  {
    data[i := data[i] ^ One(k)]
  }

  lemma FlipTwice(data: seq<bv8>, i: nat, k: nat)
    requires i < |data| && k < 8
    ensures FlipBit(FlipBit(data, i, k), i, k) == data
  {
    assert (data[i] ^ One(k)) ^ One(k) == data[i];
  }

  lemma XorLaws(a: bv8, b: bv8, c: bv8)
    ensures XorByte(a, b) == XorByte(b, a) && XorByte(XorByte(a, b), c) == XorByte(a, XorByte(b, c))
    ensures XorByte(a, a) == 0 && XorByte(a, 0) == a
  {}

  lemma WordXorLaws(a: Word, b: Word, c: Word)
    ensures Xor(a, b) == Xor(b, a) && Xor(Xor(a, b), c) == Xor(a, Xor(b, c)) && Xor(a, a) == ZERO && Xor(a, ZERO) == a
  {
    hide XorByte;
    XorLaws(a.b0, b.b0, c.b0);
    XorLaws(a.b1, b.b1, c.b1);
    XorLaws(a.b2, b.b2, c.b2);
    XorLaws(a.b3, b.b3, c.b3);
  }

  lemma SumLaws(a: EccOther, b: EccOther, c: EccOther)
    ensures Sum(a, b) == Sum(b, a) && Sum(Sum(a, b), c) == Sum(a, Sum(b, c)) && Sum(a, a) == NONE && Sum(a, NONE) == a
  {
    hide Xor, XorByte;
    XorLaws(a.col, b.col, c.col);
    WordXorLaws(a.line, b.line, c.line);
    WordXorLaws(a.prime, b.prime, c.prime);
  }

  /** Before columns are cut to six bits. */
  function RawDelta(i: nat, k: nat): EccOther
    requires i < 0x1_0000_0000 && k < 8
  {
    EccOther(Column(k), WordOf(i), Not(WordOf(i)))
  }

  function Odd(b: bv8, n: nat): EccOther
    requires n < 0x1_0000_0000
  {
    if b & 1 != 0 then EccOther(0, WordOf(n), Not(WordOf(n))) else NONE
  }

  function Step(b: bv8, n: nat): EccOther
    requires n < 0x1_0000_0000
  {
    Sum(EccOther(b, ZERO, ZERO), Odd(b, n))
  }

  lemma {:induction false} ParitiesFlip(data: seq<bv8>, i: nat, k: nat, n: nat)
    requires i < |data| && k < 8 && n <= |data| <= 0x1_0000_0000
    ensures Parities(FlipBit(data, i, k), n)
            == if i < n then Sum(Parities(data, n), RawDelta(i, k)) else Parities(data, n)
  {
    hide Table, Column, One, WordOf, Sum, Not, Step, RawDelta, FlipBit, Parities;
    FlipAt(data, i, k, i);
    if n == 0 {
      ParitiesNone(data);
      ParitiesNone(FlipBit(data, i, k));
    } else {
      ParitiesFlip(data, i, k, n - 1);
      FlipAt(data, i, k, n - 1);
      ParitiesStep(data, n);
      ParitiesStep(FlipBit(data, i, k), n);
      var p, d := Parities(data, n - 1), RawDelta(i, k);
      if i == n - 1 {
        StepFlip(data[i], i, k);
        Regroup(p, Step(Table(data[i]), i), d);
      } else if i < n {
        Regroup(p, Step(Table(data[n - 1]), n - 1), d);
      }
    }
  }

  lemma ParitiesNone(data: seq<bv8>)
    requires |data| <= 0x1_0000_0000
    ensures Parities(data, 0) == NONE
  {}

  lemma FlipAt(data: seq<bv8>, i: nat, k: nat, j: nat)
    requires i < |data| && k < 8 && j < |data|
    ensures |FlipBit(data, i, k)| == |data|
    ensures FlipBit(data, i, k)[j] == if i == j then data[i] ^ One(k) else data[j]
  {
    hide One;
  }

  lemma Regroup(p: EccOther, t: EccOther, d: EccOther)
    ensures Sum(p, Sum(t, d)) == Sum(Sum(p, t), d) && Sum(Sum(p, d), t) == Sum(Sum(p, t), d)
  {
    hide Sum;
    SumLaws(p, t, d);
    SumLaws(p, d, t);
    SumLaws(d, t, p);
  }

  lemma ParitiesStep(data: seq<bv8>, n: nat)
    requires 0 < n <= |data| <= 0x1_0000_0000
    ensures Parities(data, n) == Sum(Parities(data, n - 1), Step(Table(data[n - 1]), n - 1))
  {
    hide Table, WordOf, Sum, Not;
    var b := Table(data[n - 1]);
    SumLaws(Parities(data, n - 1), EccOther(b, ZERO, ZERO), Odd(b, n - 1));
  }

  lemma StepFlip(b: bv8, i: nat, k: nat)
    requires i < 0x1_0000_0000 && k < 8
    ensures Step(Table(b ^ One(k)), i) == Sum(Step(Table(b), i), RawDelta(i, k))
  {
    TableXor(b, k);
    ColumnOdd(k);
    hide Table, Column, One, WordOf, Xor, XorByte, Not;
    var c := Table(b);
    OddFlip(c, Column(k));
    XorLaws(0, 0, 0);
    XorLaws(c, 0, Column(k));
    XorLaws(XorByte(c, Column(k)), 0, 0);
    XorLaws(Column(k), 0, 0);
    WordXorLaws(ZERO, WordOf(i), ZERO);
    WordXorLaws(ZERO, Not(WordOf(i)), ZERO);
    WordXorLaws(WordOf(i), WordOf(i), ZERO);
    WordXorLaws(Not(WordOf(i)), Not(WordOf(i)), ZERO);
    WordXorLaws(WordOf(i), ZERO, ZERO);
    WordXorLaws(Not(WordOf(i)), ZERO, ZERO);
    WordXorLaws(ZERO, ZERO, ZERO);
  }

  lemma OddFlip(c: bv8, d: bv8)
    requires d & 1 == 1
    ensures XorByte(c, d) & 1 != 0 <==> c & 1 == 0
  {}

  lemma TableXor(b: bv8, k: nat)
    requires k < 8
    ensures Table(b ^ One(k)) == XorByte(Table(b), Column(k))
  {
    TableFlip(b, k);
    hide Table, Column, One;
  }

  lemma KeptXor(a: bv8, b: bv8)
    ensures Kept(XorByte(a, b)) == XorByte(Kept(a), Kept(b))
  {}

  /** A bit of data in error changes the code by that bit's part. */
  lemma CalcFlip(data: seq<bv8>, i: nat, k: nat)
    requires i < |data| <= 0x1_0000_0000 && k < 8
    ensures Calc(FlipBit(data, i, k)) == Sum(Calc(data), DataDelta(i, k))
  {
    ParitiesFlip(data, i, k, |data|);
    hide Kept, Column, WordOf, Not, Xor, XorByte, One;
    KeptXor(Parities(data, |data|).col, Column(k));
  }

  // ---------- Correction ----------

  /** The line parities are each other's complement, and so are the bits of each pair of column parities. */
  predicate IsDataError(d: EccOther) {
    d.line == Not(d.prime) && ColumnPattern(d.col)
  }

  predicate ColumnPattern(c: bv8) {
    (c ^ (c >> 1)) & 0x15 == 0x15
  }

  function BitAt(c: bv8): (k: nat)
    ensures k < 8
  {
    (if c & 0x20 != 0 then 4 else 0) + (if c & 0x08 != 0 then 2 else 0) + if c & 0x02 != 0 then 1 else 0
  }

  function Hweight(d: EccOther): nat {
    Hweight32(d.line) + Hweight32(d.prime) + Hweight8(d.col)
  }

  datatype Outcome = Outcome(result: int, data: seq<bv8>, ecc: EccOther)

  /** What correction makes of data, given the code read with it and the code computed from it. */
  function Corrected(data: seq<bv8>, read: EccOther, test: EccOther): Outcome {
    var d := Sum(read, test);
    if d == NONE then Outcome(0, data, read)
    else if IsDataError(d) then
      if Value(d.line) >= |data| then Outcome(-1, data, read)
      else Outcome(1, FlipBit(data, Value(d.line), BitAt(d.col)), read)
    else if Hweight(d) == 1 then Outcome(1, data, test)
    else Outcome(-1, data, read)
  }

  method CalcOther(data: array<bv8>) returns (ecc: EccOther)
    requires data.Length <= 0x1_0000_0000
    ensures ecc == Calc(data[..])
  {
    hide Table, WordOf, Not, Xor, XorByte;
    var p := NONE;
    for i := 0 to data.Length
      invariant p == Parities(data[..], i)
    {
      var b := Table(data[i]);
      ParitiesStep(data[..], i + 1);
      StepParts(p, b, i);
      p := p.(col := XorByte(p.col, b));
      if b & 1 != 0 {
        p := p.(line := Xor(p.line, WordOf(i)), prime := Xor(p.prime, Not(WordOf(i))));
      }
    }
    ecc := EccOther(Kept(p.col), p.line, p.prime);
  }

  lemma StepParts(p: EccOther, b: bv8, n: nat)
    requires n < 0x1_0000_0000
    ensures Sum(p, Step(b, n)) == if b & 1 != 0 then
        EccOther(XorByte(p.col, b), Xor(p.line, WordOf(n)), Xor(p.prime, Not(WordOf(n))))
      else p.(col := XorByte(p.col, b))
  {
    hide WordOf, Not, Xor, XorByte;
    XorLaws(b, 0, 0);
    WordXorLaws(ZERO, WordOf(n), ZERO);
    WordXorLaws(ZERO, Not(WordOf(n)), ZERO);
    WordXorLaws(WordOf(n), ZERO, ZERO);
    WordXorLaws(Not(WordOf(n)), ZERO, ZERO);
    WordXorLaws(p.line, ZERO, ZERO);
    WordXorLaws(p.prime, ZERO, ZERO);
    WordXorLaws(ZERO, ZERO, ZERO);
  }

  method CorrectOther(data: array<bv8>, read: EccOther, test: EccOther) returns (result: int, ecc: EccOther)
    modifies data
    ensures Outcome(result, data[..], ecc) == Corrected(old(data[..]), read, test)
  {
    hide One, Hweight, BitAt, ColumnPattern, Not;
    var d := Sum(read, test);
    ecc := read;
    if d == NONE {
      return 0, ecc;
    }
    if d.line == Not(d.prime) && ColumnPattern(d.col) {
      var bit := BitAt(d.col);
      var at := Value(d.line);
      if at >= data.Length {
        return -1, ecc;
      }
      data[at] := data[at] ^ One(bit);
      return 1, ecc;
    }
    if Hweight(d) == 1 {
      ecc := test;
      return 1, ecc;
    }
    return -1, ecc;
  }

  // ---------- Bits in error ----------

  /** A bit of the data, or a bit of the code: bit `k` of the column byte, or of byte `j` of a line word. */
  datatype Flip = DataBit(i: nat, k: nat) | ColBit(k: nat) | LineBit(j: nat, k: nat) | PrimeBit(j: nat, k: nat)

  predicate FlipOk(f: Flip, n: nat) {
    f.k < 8 && match f
      case DataBit(i, k) => i < n
      case ColBit(k) => true
      case LineBit(j, k) => j < 4
      case PrimeBit(j, k) => j < 4
  }

  function Delta(f: Flip): EccOther
    requires FlipOk(f, 0x1_0000_0000)
  {
    match f
    case DataBit(i, k) => DataDelta(i, k)
    case ColBit(k) => EccOther(One(k), ZERO, ZERO)
    case LineBit(j, k) => EccOther(0, OneIn(j, k), ZERO)
    case PrimeBit(j, k) => EccOther(0, ZERO, OneIn(j, k))
  }

  function HitData(f: Flip, data: seq<bv8>): seq<bv8>
    requires FlipOk(f, |data|)
  {
    if f.DataBit? then FlipBit(data, f.i, f.k) else data
  }

  function HitEcc(f: Flip, ecc: EccOther): EccOther
    requires FlipOk(f, 0x1_0000_0000)
  {
    if f.DataBit? then ecc else Sum(ecc, Delta(f))
  }

  /** The difference between the code read and the code computed is the sum of what went wrong. */
  lemma HitDelta(f: Flip, data: seq<bv8>, ecc: EccOther)
    requires |data| <= 0x1_0000_0000 && FlipOk(f, |data|)
    ensures Sum(HitEcc(f, ecc), Calc(HitData(f, data))) == Sum(Sum(ecc, Calc(data)), Delta(f))
  {
    if f.DataBit? {
      CalcFlip(data, f.i, f.k);
    }
    hide Sum, Calc, DataDelta, OneIn, One;
    SumLaws(ecc, Calc(data), Delta(f));
    SumLaws(ecc, Delta(f), Calc(data));
    SumLaws(Delta(f), Calc(data), ecc);
  }

  lemma NotLaws(x: Word)
    ensures Not(Not(x)) == x && Not(x) != x && Hweight32(x) + Hweight32(Not(x)) == 32
  {
    NotByte(x.b0);
    NotByte(x.b1);
    NotByte(x.b2);
    NotByte(x.b3);
    hide Hweight8;
  }

  lemma NotByte(b: bv8)
    ensures !!b == b && !b != b && Hweight8(b) + Hweight8(!b) == 8
  {
    hide Hweight8, Weight;
    HweightIsWeight(b);
    HweightIsWeight(!b);
    WeightNot(b);
  }

  /** Each bit of a byte has its own column pattern, of three bits. */
  lemma ColumnOfBit(k: nat)
    requires k < 8
    ensures ColumnPattern(Kept(Column(k))) && BitAt(Kept(Column(k))) == k && Hweight8(Kept(Column(k))) == 3
  {}

  lemma DataDeltaIs(i: nat, k: nat)
    requires i < 0x1_0000_0000 && k < 8
    ensures IsDataError(DataDelta(i, k)) && Value(DataDelta(i, k).line) == i && BitAt(DataDelta(i, k).col) == k
    ensures Hweight(DataDelta(i, k)) == 35 && DataDelta(i, k) != NONE
  {
    ColumnOfBit(k);
    ValueOfWord(i);
    NotLaws(WordOf(i));
    hide WordOf, Not, Hweight8, Hweight32, ColumnPattern, Kept, Column, Value, BitAt;
    WeightOfZero();
  }

  lemma WeightOfZero()
    ensures Hweight8(0) == 0 && Hweight32(ZERO) == 0 && Hweight(NONE) == 0
  {}

  lemma OneHasWeight(k: nat)
    requires k < 8
    ensures Hweight8(One(k)) == 1 && One(k) != 0
  {}

  lemma OneInHasWeight(j: nat, k: nat)
    requires j < 4 && k < 8
    ensures Hweight32(OneIn(j, k)) == 1 && OneIn(j, k) != ZERO
  {
    OneHasWeight(k);
    WeightOfZero();
    hide Hweight8, One;
  }

  lemma EccDelta(f: Flip)
    requires FlipOk(f, 0x1_0000_0000) && !f.DataBit?
    ensures Hweight(Delta(f)) == 1 && !IsDataError(Delta(f)) && Delta(f) != NONE
  {
    WeightOfZero();
    if f.ColBit? {
      OneHasWeight(f.k);
    } else {
      OneInHasWeight(f.j, f.k);
    }
    NotLaws(Delta(f).prime);
    hide Hweight8, Hweight32, One, OneIn, Not, ColumnPattern;
  }

  /** One bit in error, of data or of code: the data is as it was, and so is the code. */
  lemma OneFlip(f: Flip, data: seq<bv8>)
    requires |data| <= 0x1_0000_0000 && FlipOk(f, |data|)
    ensures var bad := HitData(f, data);
      Corrected(bad, HitEcc(f, Calc(data)), Calc(bad)) == Outcome(1, data, Calc(data))
  {
    var e := Calc(data);
    HitDelta(f, data, e);
    SumLaws(e, Delta(f), NONE);
    SumLaws(NONE, Delta(f), NONE);
    if f.DataBit? {
      DataDeltaIs(f.i, f.k);
      FlipTwice(data, f.i, f.k);
    } else {
      EccDelta(f);
    }
    hide Sum, Calc, IsDataError, Hweight, Value, BitAt, FlipBit, DataDelta, OneIn, One;
  }

  lemma NoFlip(data: seq<bv8>)
    requires |data| <= 0x1_0000_0000
    ensures Corrected(data, Calc(data), Calc(data)) == Outcome(0, data, Calc(data))
  {
    SumLaws(Calc(data), NONE, NONE);
    hide Sum, Calc;
  }

  // ---------- Two bits in error ----------

  /** Bits 6 and 7 of the column byte take no part in the code. */
  predicate Unused(f: Flip) {
    f.ColBit? && f.k >= 6
  }

  lemma ColumnPairs(k: nat, l: nat)
    requires k < 8 && l < 8
    ensures var c := XorByte(Kept(Column(k)), Kept(Column(l)));
      Hweight8(c) % 2 == 0 && (k != l ==> c != 0)
  {
    if k < 4 {
    } else {
    }
  }

  /** Two bits of data: something is seen to be wrong, and it looks like neither kind of single error. */
  lemma TwoData(i: nat, k: nat, j: nat, l: nat)
    requires i < 0x1_0000_0000 && j < 0x1_0000_0000 && k < 8 && l < 8 && (i != j || k != l)
    ensures var d := Sum(DataDelta(i, k), DataDelta(j, l));
      d != NONE && !IsDataError(d) && Hweight(d) != 1
  {
    hide WordOf, Value, Not, Xor, Hweight8, Hweight32, XorByte, Kept, Column, ColumnPattern;
    var x, y := WordOf(i), WordOf(j);
    ColumnPairs(k, l);
    ValueOfWord(i);
    ValueOfWord(j);
    XorOfNots(x, y);
    XorNone(x, y);
    NotLaws(Xor(x, y));
    var c := XorByte(Kept(Column(k)), Kept(Column(l)));
    assert Sum(DataDelta(i, k), DataDelta(j, l)) == EccOther(c, Xor(x, y), Xor(x, y));
    TwoIsEven(Hweight32(Xor(x, y)), Hweight8(c));
  }

  lemma TwoIsEven(h: nat, c: nat)
    requires c % 2 == 0
    ensures h + h + c != 1
  {}

  lemma XorOfNots(x: Word, y: Word)
    ensures Xor(Not(x), Not(y)) == Xor(x, y)
  {}

  lemma XorNoneByte(a: bv8, b: bv8)
    requires XorByte(a, b) == 0
    ensures a == b
  {}

  lemma XorNone(x: Word, y: Word)
    ensures Xor(x, y) == ZERO ==> x == y
  {
    if Xor(x, y) == ZERO {
      XorNoneByte(x.b0, y.b0);
      XorNoneByte(x.b1, y.b1);
      XorNoneByte(x.b2, y.b2);
      XorNoneByte(x.b3, y.b3);
    }
  }

  lemma WeightXor(b: bv8, k: nat)
    requires k < 8
    ensures Hweight8(XorByte(b, One(k))) == Hweight8(b) + 1 || Hweight8(XorByte(b, One(k))) == Hweight8(b) - 1
  {
    hide Hweight8, Weight, One;
    HweightIsWeight(b);
    HweightIsWeight(b ^ One(k));
    WeightFlip(b, k);
  }

  lemma WeightXorIn(x: Word, j: nat, k: nat)
    requires j < 4 && k < 8
    ensures Hweight32(Xor(x, OneIn(j, k))) == Hweight32(x) + 1 || Hweight32(Xor(x, OneIn(j, k))) == Hweight32(x) - 1
    ensures Xor(x, OneIn(j, k)) != x
  {
    hide Hweight8, XorByte, One;
    XorLaws(x.b0, 0, 0);
    XorLaws(x.b1, 0, 0);
    XorLaws(x.b2, 0, 0);
    XorLaws(x.b3, 0, 0);
    match j
    case 0 => WeightXor(x.b0, k);
    case 1 => WeightXor(x.b1, k);
    case 2 => WeightXor(x.b2, k);
    case 3 => WeightXor(x.b3, k);
  }

  lemma ColumnSpoilt(k: nat, j: nat)
    requires k < 8 && j < 8
    ensures var c := XorByte(Kept(Column(k)), One(j));
      if j < 6 then !ColumnPattern(c) else ColumnPattern(c) && BitAt(c) == k
  {
    if k < 4 {
    } else {
    }
  }

  lemma NotOfXor(x: Word, m: Word)
    ensures Not(Xor(Not(x), m)) == Xor(x, m)
  {}

  /** A bit of data and a bit of the code: uncorrectable, unless the bit of the code is one that takes no part. */
  lemma DataAndEcc(i: nat, k: nat, f: Flip)
    requires i < 0x1_0000_0000 && k < 8 && FlipOk(f, 0x1_0000_0000) && !f.DataBit?
    ensures var d := Sum(DataDelta(i, k), Delta(f));
      d != NONE && if Unused(f) then IsDataError(d) && d.line == WordOf(i) && BitAt(d.col) == k
        else !IsDataError(d) && Hweight(d) != 1
  {
    var x, c := WordOf(i), Kept(Column(k));
    NotLaws(x);
    ColumnOfBit(k);
    WeightOfZero();
    WordXorLaws(x, ZERO, ZERO);
    WordXorLaws(Not(x), ZERO, ZERO);
    XorLaws(c, 0, 0);
    if f.ColBit? {
      ColumnSpoilt(k, f.k);
      WeightXor(c, f.k);
    } else {
      WeightXorIn(x, f.j, f.k);
      WeightXorIn(Not(x), f.j, f.k);
      NotOfXor(x, OneIn(f.j, f.k));
    }
    hide WordOf, Not, Xor, Hweight8, Hweight32, XorByte, Kept, Column, ColumnPattern, One, OneIn, BitAt;
    NoneIsWeightless(Sum(DataDelta(i, k), Delta(f)));
  }

  lemma NoneIsWeightless(d: EccOther)
    ensures d == NONE ==> Hweight(d) == 0
  {
    WeightOfZero();
  }

  lemma TwoOnes(k: nat, l: nat)
    requires k < 8 && l < 8 && k != l
    ensures Hweight8(XorByte(One(k), One(l))) == 2
  {
    if k < 4 {
    } else {
    }
  }

  lemma TwoOnesIn(j: nat, k: nat, i: nat, l: nat)
    requires j < 4 && k < 8 && i < 4 && l < 8 && (j != i || k != l)
    ensures Hweight32(Xor(OneIn(j, k), OneIn(i, l))) == 2
  {
    hide Hweight8, XorByte, One;
    XorLaws(One(k), 0, 0);
    XorLaws(0, One(l), 0);
    XorLaws(One(l), 0, 0);
    XorLaws(0, 0, 0);
    OneHasWeight(k);
    OneHasWeight(l);
    WeightOfZero();
    if j == i {
      TwoOnes(k, l);
    } else {
      hide Hweight32, Xor;
      TwoWords(j, k, i, l);
    }
  }

  lemma TwoWords(j: nat, k: nat, i: nat, l: nat)
    requires j < 4 && k < 8 && i < 4 && l < 8 && j != i
    ensures Hweight32(Xor(OneIn(j, k), OneIn(i, l))) == 2
  {
    hide Hweight8, XorByte, One;
    var x, y := OneIn(j, k), OneIn(i, l);
    ByteWeight(x.b0, y.b0);
    ByteWeight(x.b1, y.b1);
    ByteWeight(x.b2, y.b2);
    ByteWeight(x.b3, y.b3);
    OneHasWeight(k);
    OneHasWeight(l);
    WeightOfZero();
  }

  lemma ByteWeight(a: bv8, b: bv8)
    requires a == 0 || b == 0
    ensures Hweight8(XorByte(a, b)) == Hweight8(a) + Hweight8(b)
  {
    XorLaws(a, b, 0);
    XorLaws(b, a, 0);
    WeightOfZero();
    hide Hweight8, XorByte;
  }

  /** Two bits of the code: too few for an error in the data, too many for one in the code. */
  lemma TwoEcc(f: Flip, g: Flip)
    requires FlipOk(f, 0x1_0000_0000) && FlipOk(g, 0x1_0000_0000) && !f.DataBit? && !g.DataBit? && f != g
    ensures var d := Sum(Delta(f), Delta(g));
      d != NONE && !IsDataError(d) && Hweight(d) == 2
  {
    var d := Sum(Delta(f), Delta(g));
    TwoEccWeight(f, g);
    NoneIsWeightless(d);
    NotLaws(d.prime);
    hide Sum, Not, Hweight8, Hweight32, ColumnPattern;
  }

  lemma TwoEccWeight(f: Flip, g: Flip)
    requires FlipOk(f, 0x1_0000_0000) && FlipOk(g, 0x1_0000_0000) && !f.DataBit? && !g.DataBit? && f != g
    ensures Hweight(Sum(Delta(f), Delta(g))) == 2
  {
    WeightOfZero();
    WordXorLaws(ZERO, ZERO, ZERO);
    XorLaws(0, 0, 0);
    OneHasWeight(f.k);
    OneHasWeight(g.k);
    XorLaws(One(f.k), 0, 0);
    XorLaws(0, One(g.k), 0);
    XorLaws(One(g.k), 0, 0);
    if f.ColBit? && g.ColBit? {
      TwoOnes(f.k, g.k);
    } else {
      EccWords(f);
      EccWords(g);
      if (f.LineBit? && g.LineBit?) || (f.PrimeBit? && g.PrimeBit?) {
        TwoOnesIn(f.j, f.k, g.j, g.k);
      }
    }
    hide Hweight8, Hweight32, XorByte, Xor, One, OneIn;
  }

  lemma EccWords(f: Flip)
    requires FlipOk(f, 0x1_0000_0000) && !f.DataBit?
    ensures !f.ColBit? ==>
      Hweight32(OneIn(f.j, f.k)) == 1 && Xor(OneIn(f.j, f.k), ZERO) == OneIn(f.j, f.k)
      && Xor(ZERO, OneIn(f.j, f.k)) == OneIn(f.j, f.k)
  {
    if !f.ColBit? {
      OneInHasWeight(f.j, f.k);
      WordXorLaws(OneIn(f.j, f.k), ZERO, ZERO);
      WordXorLaws(ZERO, OneIn(f.j, f.k), ZERO);
    }
  }

  /**
   * Any two different bits in error, of data or of code, are noticed and the data left alone; the one exception is a
   * bit of data together with one of the two unused bits of the column byte, where the data is put right.
   */
  lemma TwoFlips(f: Flip, g: Flip, data: seq<bv8>)
    requires |data| <= 0x1_0000_0000 && FlipOk(f, |data|) && FlipOk(g, |data|) && f != g
    ensures var bad := HitData(g, HitData(f, data));
      var ecc := HitEcc(g, HitEcc(f, Calc(data)));
      Corrected(bad, ecc, Calc(bad)) ==
        if (f.DataBit? && Unused(g)) || (Unused(f) && g.DataBit?) then Outcome(1, data, ecc) else Outcome(-1, bad, ecc)
  {
    TwoDelta(f, g, data);
    var d := Sum(Delta(f), Delta(g));
    SumLaws(Delta(f), Delta(g), NONE);
    if f.DataBit? && g.DataBit? {
      TwoData(f.i, f.k, g.i, g.k);
    } else if f.DataBit? {
      DataAndEcc(f.i, f.k, g);
      ValueOfWord(f.i);
      FlipTwice(data, f.i, f.k);
    } else if g.DataBit? {
      DataAndEcc(g.i, g.k, f);
      ValueOfWord(g.i);
      FlipTwice(data, g.i, g.k);
    } else {
      TwoEcc(f, g);
    }
    hide Sum, Calc, IsDataError, Hweight, Value, BitAt, FlipBit, DataDelta, OneIn, One, WordOf;
  }

  lemma TwoDelta(f: Flip, g: Flip, data: seq<bv8>)
    requires |data| <= 0x1_0000_0000 && FlipOk(f, |data|) && FlipOk(g, |data|)
    ensures |HitData(f, data)| == |data| && FlipOk(g, |HitData(f, data)|)
    ensures Sum(HitEcc(g, HitEcc(f, Calc(data))), Calc(HitData(g, HitData(f, data)))) == Sum(Delta(f), Delta(g))
  {
    var e := Calc(data);
    HitDelta(f, data, e);
    HitDelta(g, HitData(f, data), HitEcc(f, e));
    hide Sum, Calc, DataDelta, OneIn, One;
    SumLaws(e, e, NONE);
    SumLaws(NONE, Delta(f), NONE);
    SumLaws(Delta(f), NONE, NONE);
  }
}
