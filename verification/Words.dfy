/** Bytes and the little-endian bytes of a 32-bit word. */
module Words {

  type Byte = b: int | 0 <= b < 256
  type U32 = w: int | 0 <= w < 0x1_0000_0000

  type Four = s: seq<Byte> | |s| == 4 witness [0, 0, 0, 0]

  function Split(w: U32): Four {
    [w % 256, w / 256 % 256, w / 65536 % 256, w / 16777216]
  }

  function Join(s: Four): U32 {
    var b0: int, b1: int, b2: int, b3: int := s[0], s[1], s[2], s[3];
    b0 + 256 * b1 + 65536 * b2 + 16777216 * b3
  }

  lemma SplitJoin(w: U32)
    ensures Join(Split(w)) == w
  {
    Halves(w);
    Halves(w / 256);
    Halves(w / 65536);
  }

  lemma Halves(w: nat)
    ensures w == w % 256 + 256 * (w / 256)
    ensures w / 256 / 256 == w / 65536 && w / 65536 / 256 == w / 16777216
  {}

  lemma Lowest(b: nat, w: nat)
    requires b < 256
    ensures (b + 256 * w) % 256 == b && (b + 256 * w) / 256 == w
  {}

  /** Different bytes, different words. */
  lemma JoinSplit(s: Four)
    ensures Split(Join(s)) == s
  {
    var b0: int, b1: int, b2: int, b3: int := s[0], s[1], s[2], s[3];
    Lowest(b0, b1 + 256 * b2 + 65536 * b3);
    Lowest(b1, b2 + 256 * b3);
    Lowest(b2, b3);
    Halves(Join(s));
  }

  /** Swapping the byte order of a word. */
  function Swap(w: U32): U32 {
    var s := Split(w);
    Join([s[3], s[2], s[1], s[0]])
  }

  lemma SwapSwap(w: U32)
    ensures Swap(Swap(w)) == w
  {
    var s := Split(w);
    JoinSplit([s[3], s[2], s[1], s[0]]);
    SplitJoin(w);
  }

  /** The sum of a run of bytes. */
  ghost function Total(s: seq<Byte>): nat {
    if s == [] then 0 else s[0] + Total(s[1..])
  }

  lemma {:induction false} TotalUpdate(s: seq<Byte>, i: nat, b: Byte)
    requires i < |s|
    ensures Total(s[i := b]) == Total(s) - s[i] + b
  {
    if i > 0 {
      assert s[i := b][1..] == s[1..][i - 1 := b];
      TotalUpdate(s[1..], i - 1, b);
    } else {
      assert s[i := b][1..] == s[1..];
    }
  }
}
