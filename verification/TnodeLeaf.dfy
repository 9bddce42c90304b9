/**
 * Leaves of a file's tree: sixteen chunk numbers, each in `width` bits, packed into 32-bit words,
 * and the widths that a device's geometry gives.
 */
module TnodeLeaf {
  import opened Basics

  // ---------- The bits of a word ----------

  /** A shift distance. */
  function Sh(n: nat): bv6
    requires n <= 32
  {
    match n
    case 0 => 0
    case 1 => 1
    case 2 => 2
    case 3 => 3
    case 4 => 4
    case 5 => 5
    case 6 => 6
    case 7 => 7
    case 8 => 8
    case 9 => 9
    case 10 => 10
    case 11 => 11
    case 12 => 12
    case 13 => 13
    case 14 => 14
    case 15 => 15
    case 16 => 16
    case 17 => 17
    case 18 => 18
    case 19 => 19
    case 20 => 20
    case 21 => 21
    case 22 => 22
    case 23 => 23
    case 24 => 24
    case 25 => 25
    case 26 => 26
    case 27 => 27
    case 28 => 28
    case 29 => 29
    case 30 => 30
    case 31 => 31
    case _ => 32
  }

  lemma ShStep(n: nat)
    requires n < 32
    ensures Sh(n + 1) == Sh(n) + 1
  {
    if n < 4 {
    } else if n < 8 {
    } else if n < 12 {
    } else if n < 16 {
    } else if n < 20 {
    } else if n < 24 {
    } else if n < 28 {
    } else {
    }
  }

  lemma ShTop(n: nat)
    requires n <= 32
    ensures Sh(n) <= 32 && (n < 32 ==> Sh(n) < 32)
  {}

  lemma {:induction false} ShMinus(t: nat, b: nat)
    requires b <= t <= 32
    ensures Sh(t - b) == Sh(t) - Sh(b) && Sh(b) <= Sh(t) <= 32
    ensures b < t ==> Sh(b) < Sh(t)
  {
    hide Sh;
    ShTop(t);
    ShZero();
    if b < t {
      ShMinus(t - 1, b);
      ShTop(t - 1);
      ShStep(t - 1);
      ShStep(t - 1 - b);
    }
  }

  lemma ShZero()
    ensures Sh(0) == 0
  {}

  predicate Bit(m: bv32, t: nat)
    requires t < 32
  {
    ShTop(t);
    (m >> Sh(t)) & 1 == 1
  }

  function Left(m: bv32, b: nat): bv32
    requires b <= 32
  {
    ShTop(b);
    m << Sh(b)
  }

  function ShiftRight(m: bv32, s: bv6): bv32
    requires s <= 32
  {
    m >> s
  }

  function Right(m: bv32, b: nat): bv32
    requires b <= 32
  {
    ShTop(b);
    ShiftRight(m, Sh(b))
  }

  function Mask(w: nat): bv32
    requires w < 32
  {
    Left(1, w) - 1
  }

  lemma LeftWord(m: bv32, b: bv6, t: bv6)
    requires t < 32 && b <= 32
    ensures ((m << b) >> t) & 1 == if t >= b then (m >> (t - b)) & 1 else 0
  {}

  lemma RightWord(m: bv32, b: bv6, t: bv6)
    requires t < 32 && b <= 32
    ensures ((m >> b) >> t) & 1 == if t + b < 32 then (m >> (t + b)) & 1 else 0
  {}

  lemma MaskWord(w: bv6, t: bv6)
    requires t < 32 && w < 32
    ensures ((((1 as bv32) << w) - 1) >> t) & 1 == if t < w then 1 else 0
  {}

  lemma AndDown(m: bv32, n: bv32, t: bv6)
    requires t < 32 && ((m & n) >> t) & 1 == 1
    ensures (m >> t) & 1 == 1
  {}

  lemma AndUp(m: bv32, n: bv32, t: bv6)
    requires t < 32 && (m >> t) & 1 == 1 && (n >> t) & 1 == 1
    ensures ((m & n) >> t) & 1 == 1
  {}

  lemma OrDown(m: bv32, n: bv32, t: bv6)
    requires t < 32 && ((m | n) >> t) & 1 == 1 && (m >> t) & 1 != 1
    ensures (n >> t) & 1 == 1
  {}

  lemma OrUp(m: bv32, n: bv32, t: bv6)
    requires t < 32 && (m >> t) & 1 == 1
    ensures ((m | n) >> t) & 1 == 1
  {}

  lemma NotDown(m: bv32, t: bv6)
    requires t < 32 && ((!m) >> t) & 1 == 1
    ensures (m >> t) & 1 != 1
  {}

  lemma NotUp(m: bv32, t: bv6)
    requires t < 32 && (m >> t) & 1 != 1
    ensures ((!m) >> t) & 1 == 1
  {}

  lemma LeftBit(m: bv32, b: nat, t: nat)
    requires b <= 32 && t < 32
    ensures Bit(Left(m, b), t) <==> t >= b && Bit(m, t - b)
  {
    ShTop(t);
    ShTop(b);
    LeftWord(m, Sh(b), Sh(t));
    if b <= t {
      ShMinus(t, b);
    } else {
      ShMinus(b, t);
    }
    hide Sh;
  }

  lemma Top32()
    ensures Sh(32) == 32
  {}

  lemma ShSum(t: nat, b: nat)
    requires b <= 32 && t < 32
    ensures if t + b < 32 then Sh(t) + Sh(b) == Sh(t + b) && Sh(t + b) < 32 else Sh(t) + Sh(b) >= 32
  {
    Top32();
    hide Sh;
    ShTop(t);
    ShTop(b);
    if t + b < 32 {
      ShTop(t + b);
      ShMinus(t + b, b);
    } else {
      ShMinus(b, 32 - t);
      ShMinus(32, t);
    }
  }

  lemma RightBit(m: bv32, b: nat, t: nat)
    requires b <= 32 && t < 32
    ensures Bit(Right(m, b), t) <==> t + b < 32 && Bit(m, t + b)
  {
    hide Sh;
    ShTop(t);
    ShTop(b);
    RightWord(m, Sh(b), Sh(t));
    ShSum(t, b);
  }

  lemma MaskBit(w: nat, t: nat)
    requires w < 32 && t < 32
    ensures Bit(Mask(w), t) <==> t < w
  {
    ShTop(t);
    ShTop(w);
    MaskWord(Sh(w), Sh(t));
    if w <= t {
      ShMinus(t, w);
    } else {
      ShMinus(w, t);
    }
    hide Sh;
  }

  function And(m: bv32, n: bv32): bv32 {
    m & n
  }

  function Or(m: bv32, n: bv32): bv32 {
    m | n
  }

  function Not(m: bv32): bv32 {
    !m
  }

  lemma AndBit(m: bv32, n: bv32, t: nat)
    requires t < 32
    ensures Bit(And(m, n), t) <==> Bit(m, t) && Bit(n, t)
  {
    hide Sh;
    ShTop(t);
    var k := Sh(t);
    if ((m & n) >> k) & 1 == 1 {
      AndDown(m, n, k);
      assert m & n == n & m;
      AndDown(n, m, k);
    }
    if (m >> k) & 1 == 1 && (n >> k) & 1 == 1 {
      AndUp(m, n, k);
    }
  }

  lemma OrBit(m: bv32, n: bv32, t: nat)
    requires t < 32
    ensures Bit(Or(m, n), t) <==> Bit(m, t) || Bit(n, t)
  {
    hide Sh;
    ShTop(t);
    var k := Sh(t);
    if (m >> k) & 1 == 1 {
      OrUp(m, n, k);
    } else if (n >> k) & 1 == 1 {
      OrUp(n, m, k);
      assert m | n == n | m;
    } else if ((m | n) >> k) & 1 == 1 {
      OrDown(m, n, k);
    }
  }

  lemma NotBit(m: bv32, t: nat)
    requires t < 32
    ensures Bit(Not(m), t) <==> !Bit(m, t)
  {
    hide Sh;
    ShTop(t);
    var k := Sh(t);
    if (m >> k) & 1 != 1 {
      NotUp(m, k);
    } else if ((!m) >> k) & 1 == 1 {
      NotDown(m, k);
    }
  }

  function Half(a: bv32): bv32 {
    a >> 1
  }

  function Low(a: bv32): bv32 {
    a & 1
  }

  lemma NextWord(m: bv32, k: bv6, j: bv6)
    requires k < 32 && j == k + 1
    ensures j <= 32 && Half(ShiftRight(m, k)) == ShiftRight(m, j)
  {}

  lemma HalfRight(m: bv32, k: nat)
    requires k < 32
    ensures Half(Right(m, k)) == Right(m, k + 1)
  {
    hide Sh, Half, ShiftRight;
    ShTop(k);
    ShStep(k);
    NextWord(m, Sh(k), Sh(k + 1));
  }

  lemma JoinWord(a: bv32, b: bv32)
    requires Half(a) == Half(b) && (Low(a) == 1 <==> Low(b) == 1)
    ensures a == b
  {}

  lemma LowBit(m: bv32, k: nat)
    requires k < 32
    ensures Bit(m, k) <==> Low(Right(m, k)) == 1
  {
    hide Sh;
    ShTop(k);
  }

  lemma RightAll(m: bv32)
    ensures Right(m, 32) == 0 && Right(m, 0) == m
  {}

  lemma {:induction false} SameAbove(m: bv32, n: bv32, k: nat)
    requires k <= 32 && forall t: nat :: t < 32 ==> Bit(m, t) == Bit(n, t)
    ensures Right(m, k) == Right(n, k)
    decreases 32 - k
  {
    hide Sh, Right, Half, Low, Bit;
    RightAll(m);
    RightAll(n);
    if k < 32 {
      SameAbove(m, n, k + 1);
      HalfRight(m, k);
      HalfRight(n, k);
      assert Bit(m, k) == Bit(n, k);
      LowBit(m, k);
      LowBit(n, k);
      JoinWord(Right(m, k), Right(n, k));
    }
  }

  /** A word is its bits. */
  lemma SameWord(m: bv32, n: bv32)
    requires forall t: nat :: t < 32 ==> Bit(m, t) == Bit(n, t)
    ensures m == n
  {
    SameAbove(m, n, 0);
    RightAll(m);
    RightAll(n);
    hide Right, Bit;
  }

  // ---------- Sixteen slots in a leaf ----------

  const SLOTS := 16

  predicate Width(w: nat) {
    16 <= w <= 30 && w % 2 == 0
  }

  predicate LeafOk(words: seq<bv32>, w: nat) {
    Width(w) && |words| >= w / 2
  }

  function Start(pos: nat, w: nat): nat {
    pos * w
  }

  /** Where slot `pos` lies: in one word, or across the end of it. */
  lemma SlotRange(w: nat, pos: nat)
    requires Width(w) && pos < SLOTS
    ensures Start(pos, w) + w <= 32 * (w / 2) && Start(pos, w) / 32 < w / 2
    ensures w > 32 - Start(pos, w) % 32 ==> Start(pos, w) / 32 + 1 < w / 2
  {
    assert pos * w <= 15 * w;
  }

  lemma Mult(k: nat, w: nat)
    requires k >= 1
    ensures k * w >= w
  {}

  lemma SlotsApart(w: nat, i: nat, j: nat)
    requires i < j
    ensures i * w + w <= j * w
  {
    Mult(j - i, w);
    assert j * w == (j - i) * w + i * w;
  }

  lemma PlacesApart(w: nat, i: nat, j: nat)
    requires i != j
    ensures var k, n := Start(i, w), Start(j, w);
      32 * (k / 32) + k % 32 + w <= 32 * (n / 32) + n % 32 || 32 * (n / 32) + n % 32 + w <= 32 * (k / 32) + k % 32
  {
    if i < j {
      SlotsApart(w, i, j);
    } else {
      SlotsApart(w, j, i);
    }
  }

  function Over(m: bv32, mask: bv32, v: bv32): bv32 {
    Or(And(m, Not(mask)), And(mask, v))
  }

  lemma OverBit(m: bv32, mask: bv32, v: bv32, t: nat)
    requires t < 32
    ensures Bit(Over(m, mask, v), t) <==> if Bit(mask, t) then Bit(v, t) else Bit(m, t)
  {
    hide Bit, And, Or, Not;
    OrBit(And(m, Not(mask)), And(mask, v), t);
    AndBit(m, Not(mask), t);
    AndBit(mask, v, t);
    NotBit(mask, t);
  }

  /** Bits `b` and on of word `i` are a place for `w` bits, which may run over into the next word. */
  predicate Place(words: seq<bv32>, i: nat, b: nat, w: nat) {
    b < 32 && w < 32 && i < |words| && (w > 32 - b ==> i + 1 < |words|)
  }

  function Put(words: seq<bv32>, i: nat, b: nat, val: bv32, w: nat): (r: seq<bv32>)
    requires Place(words, i, b, w)
    ensures |r| == |words|
  {
    var one := words[i := Over(words[i], Left(Mask(w), b), Left(val, b))];
    if w > 32 - b then one[i + 1 := Over(one[i + 1], Right(Mask(w), 32 - b), Right(val, 32 - b))] else one
  }

  function Get(words: seq<bv32>, i: nat, b: nat, w: nat): bv32
    requires Place(words, i, b, w)
  {
    var low := Right(words[i], b);
    And(if w > 32 - b then Or(low, Left(words[i + 1], 32 - b)) else low, Mask(w))
  }

  lemma GetBit(words: seq<bv32>, i: nat, b: nat, w: nat, t: nat)
    requires Place(words, i, b, w) && t < 32
    ensures Bit(Get(words, i, b, w), t)
            <==> t < w && if b + t < 32 then Bit(words[i], b + t) else Bit(words[i + 1], b + t - 32)
  {
    hide And, Or, Not, Bit, Left, Right, Mask;
    var low := Right(words[i], b);
    MaskBit(w, t);
    RightBit(words[i], b, t);
    if w > 32 - b {
      var high := Left(words[i + 1], 32 - b);
      AndBit(Or(low, high), Mask(w), t);
      OrBit(low, high, t);
      LeftBit(words[i + 1], 32 - b, t);
    } else {
      AndBit(low, Mask(w), t);
    }
  }

  lemma PutLow(m: bv32, val: bv32, b: nat, w: nat, t: nat)
    requires b < 32 && w < 32 && t < 32
    ensures Bit(Over(m, Left(Mask(w), b), Left(val, b)), t) <==> if b <= t < b + w then Bit(val, t - b) else Bit(m, t)
  {
    hide Bit, Left, Right, Mask, Over;
    OverBit(m, Left(Mask(w), b), Left(val, b), t);
    LeftBit(Mask(w), b, t);
    LeftBit(val, b, t);
    if t >= b {
      MaskBit(w, t - b);
    }
  }

  lemma PutHigh(m: bv32, val: bv32, c: nat, w: nat, t: nat)
    requires c <= 32 && w < 32 && t < 32
    ensures Bit(Over(m, Right(Mask(w), c), Right(val, c)), t) <==> if t + c < w then Bit(val, t + c) else Bit(m, t)
  {
    hide Bit, Left, Right, Mask, Over;
    OverBit(m, Right(Mask(w), c), Right(val, c), t);
    RightBit(Mask(w), c, t);
    RightBit(val, c, t);
    if t + c < 32 {
      MaskBit(w, t + c);
    }
  }

  lemma PutBit(words: seq<bv32>, i: nat, b: nat, val: bv32, w: nat, j: nat, t: nat)
    requires Place(words, i, b, w) && j < |words| && t < 32
    ensures var d := 32 * j + t - (32 * i + b);
      Bit(Put(words, i, b, val, w)[j], t) <==> if 0 <= d < w then Bit(val, d) else Bit(words[j], t)
  {
    hide Bit, Left, Right, Mask, Over;
    if i == j {
      PutLow(words[i], val, b, w, t);
    } else if i + 1 == j && w > 32 - b {
      PutHigh(words[j], val, 32 - b, w, t);
    }
  }

  /** What is put in a place is got back, cut to its width. */
  lemma PutGet(words: seq<bv32>, i: nat, b: nat, val: bv32, w: nat)
    requires Place(words, i, b, w)
    ensures Get(Put(words, i, b, val, w), i, b, w) == And(val, Mask(w))
  {
    hide And, Bit, Put, Mask, Get;
    var words' := Put(words, i, b, val, w);
    forall t: nat | t < 32
      ensures Bit(Get(words', i, b, w), t) == Bit(And(val, Mask(w)), t)
    {
      GetBit(words', i, b, w, t);
      AndBit(val, Mask(w), t);
      MaskBit(w, t);
      if t < w {
        if b + t < 32 {
          PutBit(words, i, b, val, w, i, b + t);
        } else {
          PutBit(words, i, b, val, w, i + 1, b + t - 32);
        }
      }
    }
    SameWord(Get(words', i, b, w), And(val, Mask(w)));
  }

  /** A place that does not meet the one written keeps what it held. */
  lemma PutGetElsewhere(words: seq<bv32>, i: nat, b: nat, val: bv32, w: nat, j: nat, c: nat)
    requires Place(words, i, b, w) && Place(words, j, c, w)
    requires 32 * i + b + w <= 32 * j + c || 32 * j + c + w <= 32 * i + b
    ensures Get(Put(words, i, b, val, w), j, c, w) == Get(words, j, c, w)
  {
    hide And, Bit, Put, Mask, Get;
    var words' := Put(words, i, b, val, w);
    forall t: nat | t < 32
      ensures Bit(Get(words', j, c, w), t) == Bit(Get(words, j, c, w), t)
    {
      GetBit(words', j, c, w, t);
      GetBit(words, j, c, w, t);
      if t < w {
        if c + t < 32 {
          PutBit(words, i, b, val, w, j, c + t);
        } else {
          PutBit(words, i, b, val, w, j + 1, c + t - 32);
        }
      }
    }
    SameWord(Get(words', j, c, w), Get(words, j, c, w));
  }

  /** The leaf with `val` in slot `pos`. */
  function Stored(words: seq<bv32>, pos: nat, val: bv32, w: nat): (r: seq<bv32>)
    requires LeafOk(words, w) && pos < SLOTS
    ensures |r| == |words|
  {
    SlotRange(w, pos);
    Put(words, Start(pos, w) / 32, Start(pos, w) % 32, val, w)
  }

  /** What slot `pos` holds. */
  function Fetched(words: seq<bv32>, pos: nat, w: nat): bv32
    requires LeafOk(words, w) && pos < SLOTS
  {
    SlotRange(w, pos);
    Get(words, Start(pos, w) / 32, Start(pos, w) % 32, w)
  }

  /** A slot stored reads back as the value cut to the slot's width. */
  lemma StoredReadsBack(words: seq<bv32>, pos: nat, val: bv32, w: nat)
    requires LeafOk(words, w) && pos < SLOTS
    ensures Fetched(Stored(words, pos, val, w), pos, w) == And(val, Mask(w))
  {
    hide And, Mask, Put, Get, Start;
    SlotRange(w, pos);
    PutGet(words, Start(pos, w) / 32, Start(pos, w) % 32, val, w);
  }

  /** The other slots keep what they held, wherever the words end. */
  lemma StoredElsewhere(words: seq<bv32>, pos: nat, val: bv32, w: nat, q: nat)
    requires LeafOk(words, w) && pos < SLOTS && q < SLOTS && q != pos
    ensures Fetched(Stored(words, pos, val, w), q, w) == Fetched(words, q, w)
  {
    hide And, Mask, Put, Get, Start;
    SlotRange(w, pos);
    SlotRange(w, q);
    PlacesApart(w, pos, q);
    PutGetElsewhere(words, Start(pos, w) / 32, Start(pos, w) % 32, val, w, Start(q, w) / 32, Start(q, w) % 32);
  }

  /** A leaf fresh from the allocator is all zeros: every slot is absent. */
  lemma EmptySlots(words: seq<bv32>, w: nat, pos: nat)
    requires LeafOk(words, w) && pos < SLOTS && forall i :: 0 <= i < |words| ==> words[i] == 0
    ensures Fetched(words, pos, w) == 0
  {
    hide And, Mask, Bit, Get, Start;
    SlotRange(w, pos);
    var i, b := Start(pos, w) / 32, Start(pos, w) % 32;
    forall t: nat | t < 32
      ensures Bit(Get(words, i, b, w), t) == Bit(0, t)
    {
      GetBit(words, i, b, w, t);
      ZeroBit(t);
      if b + t < 32 {
        ZeroBit(b + t);
      } else if t < w {
        ZeroBit(b + t - 32);
      }
    }
    SameWord(Get(words, i, b, w), 0);
  }

  lemma ZeroBit(t: nat)
    requires t < 32
    ensures !Bit(0, t)
  {
    hide Sh;
    ShTop(t);
  }

  // ---------- Chunk numbers in groups ----------

  /** The first chunk of the group that a chunk is in. */
  function GroupBase(chunk: bv32, grp: nat): bv32
    requires grp <= 32
  {
    Left(Right(chunk, grp), grp)
  }

  /** The chunk's group number fits a slot and is not the number that means absent. */
  predicate Fits(chunk: bv32, w: nat, grp: nat)
    requires w < 32 && grp <= 32
  {
    And(Right(chunk, grp), Mask(w)) == Right(chunk, grp) && Right(chunk, grp) != 0
  }

  /** Puts a chunk number into a slot. */
  method LoadTnode0(words: seq<bv32>, pos0: nat, val0: bv32, w: nat, grp: nat) returns (r: seq<bv32>)
    requires LeafOk(words, w) && grp <= 32
    ensures r == Stored(words, pos0 % SLOTS, Right(val0, grp), w)
  {
    hide And, Or, Not, Left, Right, Mask, Bit;
    var pos := pos0 % SLOTS;
    SlotRange(w, pos);
    r := words;
    var val := Right(val0, grp);
    var bitInMap := pos * w;
    var word, b := bitInMap / 32, bitInMap % 32;
    var mask := Left(Mask(w), b);
    r := r[word := And(r[word], Not(mask))];
    r := r[word := Or(r[word], And(mask, Left(val, b)))];
    if w > 32 - b {
      b := 32 - b;
      word := word + 1;
      mask := Right(Mask(w), b);
      r := r[word := And(r[word], Not(mask))];
      r := r[word := Or(r[word], And(mask, Right(val, b)))];
    }
  }

  /** The first chunk of the group whose number is in a slot. */
  method GetGroupBase(words: seq<bv32>, pos0: nat, w: nat, grp: nat) returns (val: bv32)
    requires LeafOk(words, w) && grp <= 32
    ensures val == Left(Fetched(words, pos0 % SLOTS, w), grp)
  {
    hide And, Or, Not, Left, Right, Mask, Bit;
    var pos := pos0 % SLOTS;
    SlotRange(w, pos);
    var bitInMap := pos * w;
    var word, b := bitInMap / 32, bitInMap % 32;
    val := Right(words[word], b);
    if w > 32 - b {
      b := 32 - b;
      word := word + 1;
      val := Or(val, Left(words[word], b));
    }
    val := And(val, Mask(w));
    val := Left(val, grp);
  }

  /** What is read back after a store is the group base of what was stored, and never 0. */
  lemma GroupReadsBack(words: seq<bv32>, pos: nat, chunk: bv32, w: nat, grp: nat)
    requires LeafOk(words, w) && pos < SLOTS && grp <= 32 && Fits(chunk, w, grp)
    ensures var r := Fetched(Stored(words, pos, Right(chunk, grp), w), pos, w);
      r != 0 && Left(r, grp) == GroupBase(chunk, grp)
  {
    hide And, Or, Not, Left, Right, Mask, Stored, Fetched;
    StoredReadsBack(words, pos, Right(chunk, grp), w);
  }

  // ---------- The widths a device's geometry gives ----------

  function Power(n: nat): nat {
    if n == 0 then 1 else 2 * Power(n - 1)
  }

  lemma {:induction false} PowerGrows(a: nat, b: nat)
    requires a < b
    ensures Power(a) < Power(b)
  {
    PowerPositive(b - 1);
    if a < b - 1 {
      PowerGrows(a, b - 1);
    }
  }

  lemma {:induction false} PowerPositive(a: nat)
    ensures Power(a) > 0
  {
    if a > 0 {
      PowerPositive(a - 1);
    }
  }

  /** The number that the bits of a word from bit `k` up stand for; from bit 0, the number the word stands for. */
  ghost function Number(m: bv32, k: nat): nat
    requires k <= 32
    decreases 32 - k
  {
    if k == 32 then 0 else (if Bit(m, k) then 1 else 0) + 2 * Number(m, k + 1)
  }

  /** The number of bits needed to count up to `x`: the least n with x at most 2 to the n. */
  method CalcShiftsCeiling(x0: nat) returns (shifts: nat)
    requires x0 > 0
    ensures x0 <= Power(shifts) && (shifts > 0 ==> x0 > Power(shifts - 1))
  {
    var x, extra := x0, 0;
    shifts := 0;
    ghost var low := 0;
    while x > 1
      invariant x >= 1 && x0 == x * Power(shifts) + low && 0 <= low < Power(shifts)
      invariant extra >= 0 && (extra > 0 <==> low > 0)
      decreases x
    {
      var odd := x % 2;
      if odd == 1 {
        extra := extra + 1;
      }
      HalfStep(x, Power(shifts));
      low := low + odd * Power(shifts);
      x := x / 2;
      shifts := shifts + 1;
    }
    if extra > 0 {
      shifts := shifts + 1;
    }
  }

  lemma HalfStep(x: nat, p: nat)
    ensures x * p == x / 2 * (2 * p) + x % 2 * p
  {
    assert x == x / 2 * 2 + x % 2;
    assert (x / 2 * 2 + x % 2) * p == x / 2 * 2 * p + x % 2 * p;
  }

  /** A bit set makes the number at least that power of two, counted from where the number starts. */
  lemma {:induction false} BitIsLarge(m: bv32, k: nat, t: nat)
    requires k <= t < 32 && Bit(m, t)
    ensures Number(m, k) >= Power(t - k)
    decreases t - k
  {
    hide Bit;
    if k < t {
      BitIsLarge(m, k + 1, t);
    }
  }

  /** Without bits from `t` on the number is less than that power of two. */
  lemma {:induction false} NoBitIsSmall(m: bv32, k: nat, t: nat)
    requires k <= t <= 32 && forall u: nat :: t <= u < 32 ==> !Bit(m, u)
    ensures Number(m, k) < Power(t - k)
    decreases 32 - k
  {
    hide Bit;
    if k < t {
      NoBitIsSmall(m, k + 1, t);
    } else {
      NumberNone(m, k);
    }
  }

  lemma {:induction false} NumberNone(m: bv32, k: nat)
    requires k <= 32 && forall u: nat :: k <= u < 32 ==> !Bit(m, u)
    ensures Number(m, k) == 0
    decreases 32 - k
  {
    hide Bit;
    if k < 32 {
      NumberNone(m, k + 1);
    }
  }

  /** A chunk below the last power of two and not in the first group fits. */
  lemma ChunkFits(c: bv32, bits: nat, w: nat, grp: nat)
    requires w < 32 && grp <= 31 && bits <= w + grp
    requires Power(grp) <= Number(c, 0) < Power(bits)
    ensures Fits(c, w, grp)
  {
    hide Sh, And, Mask, Bit, Right, Power, Number;
    GroupNotZero(c, grp);
    var r := Right(c, grp);
    forall t: nat | t < 32
      ensures Bit(And(r, Mask(w)), t) == Bit(r, t)
    {
      AndBit(r, Mask(w), t);
      MaskBit(w, t);
      RightBit(c, grp, t);
      if t >= w && t + grp < 32 {
        TooLarge(c, bits, t + grp);
      }
    }
    SameWord(And(r, Mask(w)), r);
  }

  lemma TooLarge(c: bv32, bits: nat, t: nat)
    requires bits <= t < 32 && Number(c, 0) < Power(bits)
    ensures !Bit(c, t)
  {
    hide Bit, Number, Power;
    if Bit(c, t) {
      BitIsLarge(c, 0, t);
      if bits < t {
        PowerGrows(bits, t);
      }
    }
  }

  lemma GroupNotZero(c: bv32, grp: nat)
    requires grp <= 31 && Power(grp) <= Number(c, 0)
    ensures Right(c, grp) != 0
  {
    hide Sh, Bit, Right, Power, Number;
    if forall u: nat :: grp <= u < 32 ==> !Bit(c, u) {
      NoBitIsSmall(c, 0, grp);
    } else {
      var u: nat :| grp <= u < 32 && Bit(c, u);
      RightBit(c, grp, u - grp);
      ZeroBit(u - grp);
    }
  }

  lemma GroupBits(c: bv32, grp: nat, t: nat)
    requires grp <= 32 && t < 32
    ensures Bit(GroupBase(c, grp), t) <==> t >= grp && Bit(c, t)
  {
    hide Sh, Bit, Right, Left;
    LeftBit(Right(c, grp), grp, t);
    if t >= grp {
      RightBit(c, grp, t - grp);
    }
  }

  lemma {:induction false} SameNumber(m: bv32, n: bv32, k: nat)
    requires k <= 32 && forall t: nat :: k <= t < 32 ==> (Bit(m, t) <==> Bit(n, t))
    ensures Number(m, k) == Number(n, k)
    decreases 32 - k
  {
    hide Bit;
    if k < 32 {
      SameNumber(m, n, k + 1);
    }
  }

  /** The bits below bit `g` are the remainder, and the bits above it the quotient. */
  lemma {:induction false} NumberSplit(m: bv32, k: nat, g: nat) returns (low: nat)
    requires k <= g <= 32
    ensures Number(m, k) == low + Power(g - k) * Number(m, g) && low < Power(g - k)
    ensures (forall t: nat :: k <= t < g ==> !Bit(m, t)) ==> low == 0
    decreases g - k
  {
    hide Bit;
    if k == g {
      low := 0;
    } else {
      var rest := NumberSplit(m, k + 1, g);
      low := (if Bit(m, k) then 1 else 0) + 2 * rest;
      Double(Power(g - k - 1), Number(m, g));
    }
  }

  lemma Double(p: nat, n: nat)
    ensures 2 * p * n == 2 * (p * n)
  {}

  /** The group base of a chunk is its number rounded down to a multiple of the group size. */
  lemma GroupRoundsDown(c: bv32, grp: nat)
    requires grp <= 32
    ensures Power(grp) > 0
    ensures Number(GroupBase(c, grp), 0) == Number(c, 0) / Power(grp) * Power(grp)
  {
    hide Bit, Number, Power, GroupBase;
    PowerPositive(grp);
    var b := GroupBase(c, grp);
    forall t: nat | t < 32
      ensures Bit(b, t) <==> t >= grp && Bit(c, t)
    {
      GroupBits(c, grp, t);
    }
    SameNumber(b, c, grp);
    var low := NumberSplit(c, 0, grp);
    var none := NumberSplit(b, 0, grp);
    Quotient(Power(grp), Number(c, 0), Number(c, grp), low);
  }

  /**
   * The width of a slot and the size of a chunk group, from the number of chunks the device's blocks go up to.
   * If the geometry is accepted every chunk of every block from the second on fits, and none packs to 0. The product
   * is one of 32 bits; slots of 32 bits, which wide tnodes would take beyond 2^30 chunks, have no defined mask.
   */
  method Geometry(chunksPerBlock: nat, blocks: nat, wideDisabled: bool) returns (ok: bool, w: nat, grp: nat)
    requires chunksPerBlock > 0 && blocks > 0 && chunksPerBlock * blocks < Power(32)
    requires wideDisabled || chunksPerBlock * blocks <= Power(30)
    ensures Width(w) && grp <= 16 && (if wideDisabled then w == 16 else grp == 0)
    ensures ok <==> chunksPerBlock >= Power(grp)
    ensures ok ==> forall c: bv32 :: chunksPerBlock <= Number(c, 0) < chunksPerBlock * blocks ==> Fits(c, w, grp)
  {
    hide Sh, Right, And, Mask, Fits, Power;
    var total := chunksPerBlock * blocks;
    assert total > 0 by {
      Mult(blocks, chunksPerBlock);
    }
    var bits := CalcShiftsCeiling(total);
    ghost var least := bits;
    Needed(total, bits, wideDisabled);
    w, grp := WidthAndGroup(bits, wideDisabled);
    ok := !(chunksPerBlock < Power(grp));
    if ok {
      forall c: bv32 | chunksPerBlock <= Number(c, 0) < total
        ensures Fits(c, w, grp)
      {
        ChunkFits(c, least, w, grp);
      }
    }
  }

  lemma Needed(total: nat, bits: nat, wideDisabled: bool)
    requires bits > 0 ==> total > Power(bits - 1)
    requires total < Power(32) && (wideDisabled || total <= Power(30))
    ensures bits <= if wideDisabled then 32 else 30
  {
    hide Power;
    if bits > 33 {
      PowerGrows(32, bits - 1);
    }
    if bits > 31 {
      PowerGrows(30, bits - 1);
    }
  }

  /** Slots of 16 bits at least; what does not fit them goes into the size of the group. */
  method WidthAndGroup(least: nat, wideDisabled: bool) returns (w: nat, grp: nat)
    requires least <= if wideDisabled then 32 else 30
    ensures Width(w) && grp <= 16 && least <= w + grp && (if wideDisabled then w == 16 else grp == 0)
  {
    var bits := least;
    if !wideDisabled {
      if bits % 2 == 1 {
        bits := bits + 1;
      }
      w := if bits < 16 then 16 else bits;
    } else {
      w := 16;
    }
    grp := if bits <= w then 0 else bits - w;
  }
}
