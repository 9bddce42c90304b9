/** Facts about division and sets, and how a write is cut at the ends of chunks. */
module Basics {

  lemma Quotient(d: nat, z: nat, q: nat, r: nat)
    requires z == q * d + r && r < d
    ensures z / d == q && z % d == r
  {
    var k := z / d - q;
    assert z == z / d * d + z % d;
    assert k * d == r - z % d;
    assert k >= 1 ==> k * d >= d;
    assert k <= -1 ==> k * d <= 0 - d;
  }

  lemma SizeOfSubset<T>(a: set<T>, b: set<T>)
    requires a <= b
    ensures |b| == |a| + |b - a|
  {
    assert b == a + (b - a) && a !! (b - a);
  }

  /** The first chunk's share of a write of `n` bytes at `offset`: the bytes copied and the bytes
      the chunk then holds. What the chunk held within the file is kept. */
  method PieceShare(cs: nat, fileSize: nat, offset: nat, n: nat) returns (nCopy: nat, nWriteback: nat)
    requires cs > 0 && n > 0
    ensures 0 < nCopy <= n && 1 <= nWriteback <= cs && offset % cs + nCopy <= nWriteback
    ensures nCopy == n || offset % cs + nCopy == cs
    ensures nCopy == cs ==> offset % cs == 0 && nWriteback == cs
    ensures offset - offset % cs + nWriteback >= fileSize || nWriteback == cs
    ensures offset - offset % cs + nWriteback <= fileSize || nWriteback == offset % cs + nCopy
  {
    var start := offset % cs;
    if start + n < cs {
      nCopy := n;
      var chunkStart := offset - start;
      var nBytesRead := if chunkStart > fileSize then 0 else fileSize - chunkStart;
      if nBytesRead > cs {
        nBytesRead := cs;
      }
      nWriteback := if nBytesRead > start + n then nBytesRead else start + n;
    } else {
      nCopy := cs - start;
      nWriteback := cs;
    }
  }
}
