/**
 * The block summary: the tags of a block's data chunks, written as bytes into the
 * chunks reserved at the end of the block.
 */
module Summary {
  import opened Words

  const TAGS_SIZE := 12
  const HEADER_SIZE := 16
  const VERSION: U32 := 1
  const SUMMARY_ID := 0x10

  // ---------- Geometry ----------

  /** The number of chunks set aside at the end of a block. */
  function ChunksUsed(chunks: nat, dataBytes: nat): nat
    requires dataBytes > HEADER_SIZE
  {
    (chunks * TAGS_SIZE + dataBytes - 1) / (dataBytes - HEADER_SIZE)
  }

  /** The number of chunks that left bytes of tags fill, tx bytes to a chunk. */
  function Pages(left: nat, tx: nat): nat
    requires tx > 0
  {
    if left == 0 then 0 else if left <= tx then 1 else 1 + Pages(left - tx, tx)
  }

  lemma {:induction false} PagesBound(left: nat, tx: nat, k: nat)
    requires tx > 0 && left <= k * tx
    ensures Pages(left, tx) <= k
  {
    assert k <= 1 ==> k * tx <= tx;
    assert k == 0 ==> k * tx == 0;
    if left > tx {
      assert k * tx == (k - 1) * tx + tx;
      PagesBound(left - tx, tx, k - 1);
    }
  }

  lemma PagesStep(left: nat, tx: nat)
    requires tx > 0
    ensures Pages(left, tx) == if left == 0 then 0 else 1 + Pages(left - Least(left, tx), tx)
  {}

  lemma DivideUp(x: nat, t: nat)
    requires t > 0
    ensures (x + t - 1) / t * t >= x
  {
    var y := x + t - 1;
    assert y == y / t * t + y % t;
  }

  /** Writing the tags of the other chunks never needs more than was set aside. */
  lemma FitsInBlock(chunks: nat, dataBytes: nat)
    requires dataBytes > HEADER_SIZE && ChunksUsed(chunks, dataBytes) < chunks
    ensures Pages(TAGS_SIZE * (chunks - ChunksUsed(chunks, dataBytes)), dataBytes - HEADER_SIZE)
            <= ChunksUsed(chunks, dataBytes)
  {
    var tx := dataBytes - HEADER_SIZE;
    DivideUp(chunks * TAGS_SIZE + HEADER_SIZE, tx);
    PagesBound(TAGS_SIZE * (chunks - ChunksUsed(chunks, dataBytes)), tx, ChunksUsed(chunks, dataBytes));
  }

  // ---------- Tags as bytes ----------

  datatype SumTag = SumTag(objId: U32, chunkId: U32, nBytes: U32)

  function TagBytes(t: SumTag): (s: seq<Byte>)
    ensures |s| == TAGS_SIZE
  {
    Split(t.objId) + Split(t.chunkId) + Split(t.nBytes)
  }

  function TagOf(s: seq<Byte>): SumTag
    requires |s| == TAGS_SIZE
  {
    SumTag(Join(s[..4]), Join(s[4..8]), Join(s[8..]))
  }

  lemma TagRoundTrip(t: SumTag)
    ensures TagOf(TagBytes(t)) == t
  {
    var s := TagBytes(t);
    assert s[..4] == Split(t.objId) && s[4..8] == Split(t.chunkId) && s[8..] == Split(t.nBytes);
    SplitJoin(t.objId);
    SplitJoin(t.chunkId);
    SplitJoin(t.nBytes);
  }

  lemma TagBytesRoundTrip(s: seq<Byte>)
    requires |s| == TAGS_SIZE
    ensures TagBytes(TagOf(s)) == s
  {
    JoinSplit(s[..4]);
    JoinSplit(s[4..8]);
    JoinSplit(s[8..]);
    assert s == s[..4] + s[4..8] + s[8..];
  }

  /** The tag array seen as bytes, and back. */
  function Flat(ts: seq<SumTag>): (s: seq<Byte>)
    ensures |s| == TAGS_SIZE * |ts|
  {
    if ts == [] then [] else TagBytes(ts[0]) + Flat(ts[1..])
  }

  function Unflat(s: seq<Byte>): (ts: seq<SumTag>)
    requires |s| % TAGS_SIZE == 0
    ensures TAGS_SIZE * |ts| == |s|
  {
    if s == [] then [] else [TagOf(s[..TAGS_SIZE])] + Unflat(s[TAGS_SIZE..])
  }

  lemma {:induction false} FlatUnflat(s: seq<Byte>)
    requires |s| % TAGS_SIZE == 0
    ensures Flat(Unflat(s)) == s
  {
    if s != [] {
      TagBytesRoundTrip(s[..TAGS_SIZE]);
      FlatUnflat(s[TAGS_SIZE..]);
      assert Unflat(s)[1..] == Unflat(s[TAGS_SIZE..]);
      assert s == s[..TAGS_SIZE] + s[TAGS_SIZE..];
    }
  }

  lemma {:induction false} UnflatFlat(ts: seq<SumTag>)
    ensures Unflat(Flat(ts)) == ts
  {
    if ts != [] {
      TagRoundTrip(ts[0]);
      UnflatFlat(ts[1..]);
      var s := Flat(ts);
      assert s[..TAGS_SIZE] == TagBytes(ts[0]) && s[TAGS_SIZE..] == Flat(ts[1..]);
      assert ts == [ts[0]] + ts[1..];
    }
  }

  ghost function Sum(s: seq<Byte>): U32 {
    Total(s) % 0x1_0000_0000
  }

  lemma SmallShift(t: nat, d: int)
    requires 0 <= t + d && -256 < d < 256 && d != 0
    ensures (t + d) % 0x1_0000_0000 != t % 0x1_0000_0000
  {}

  /** Any one changed byte changes the sum. */
  lemma ChangedByte(s: seq<Byte>, i: nat, b: Byte)
    requires i < |s| && b != s[i]
    ensures Sum(s[i := b]) != Sum(s)
  {
    TotalUpdate(s, i, b);
    SmallShift(Total(s), b - s[i]);
  }

  // ---------- Chunks of the summary ----------

  datatype Header = Header(version: U32, block: U32, seqNumber: U32, sum: U32)

  function HeaderBytes(h: Header): (s: seq<Byte>)
    ensures |s| == HEADER_SIZE
  {
    Split(h.version) + Split(h.block) + Split(h.seqNumber) + Split(h.sum)
  }

  function HeaderOf(s: seq<Byte>): Header
    requires |s| == HEADER_SIZE
  {
    Header(Join(s[..4]), Join(s[4..8]), Join(s[8..12]), Join(s[12..]))
  }

  lemma HeaderRoundTrip(h: Header)
    ensures HeaderOf(HeaderBytes(h)) == h
  {
    var s := HeaderBytes(h);
    assert s[..4] == Split(h.version) && s[4..8] == Split(h.block);
    assert s[8..12] == Split(h.seqNumber) && s[12..] == Split(h.sum);
    SplitJoin(h.version);
    SplitJoin(h.block);
    SplitJoin(h.seqNumber);
    SplitJoin(h.sum);
  }

  datatype PageTags = PageTags(objId: nat, chunkId: nat, nBytes: nat, eccBad: bool)
  datatype Page = Page(data: seq<Byte>, tags: PageTags)

  /** Chunks not in the map read as unused or unreadable. */
  type Flash = map<nat, Page>

  function Least(a: nat, b: nat): nat {
    if a < b then a else b
  }

  ghost predicate SameOutside(f: Flash, g: Flash, lo: nat, hi: nat) {
    forall k: nat :: k < lo || k >= hi ==> (k in f <==> k in g) && (k in f ==> f[k] == g[k])
  }

  lemma Outside(f: Flash, g: Flash, lo: nat, mid: nat, hi: nat)
    requires SameOutside(f, g, lo, mid) && mid <= hi
    ensures SameOutside(f, g, lo, hi)
  {}

  /** The chunk at `at` is readable and is part `id` of a summary, with `n` bytes of tags. */
  predicate IsPart(f: Flash, at: nat, id: nat, n: nat) {
    at in f && !f[at].tags.eccBad
    && f[at].tags.objId == SUMMARY_ID && f[at].tags.chunkId == id && f[at].tags.nBytes == n + HEADER_SIZE
    && |f[at].data| >= n + HEADER_SIZE
  }

  /** The chunks from `at` on hold `s`, tx bytes to a chunk. */
  ghost predicate Holds(f: Flash, at: nat, id: nat, s: seq<Byte>, tx: nat)
    requires tx > 0
    decreases |s|
  {
    s != [] ==>
      var n := Least(|s|, tx);
      IsPart(f, at, id, n)
      && f[at].data[HEADER_SIZE..HEADER_SIZE + n] == s[..n]
      && Holds(f, at + 1, id + 1, s[n..], tx)
  }

  /** The header in the last of the chunks that hold `left` bytes. */
  ghost function LastHeader(f: Flash, at: nat, left: nat, tx: nat): seq<Byte>
    requires tx > 0
    decreases left
  {
    if left <= tx then
      if at in f && |f[at].data| >= HEADER_SIZE then f[at].data[..HEADER_SIZE] else []
    else LastHeader(f, at + 1, left - tx, tx)
  }

  /** The bytes held from `at` on, if every chunk is in order. */
  ghost function Collect(f: Flash, at: nat, id: nat, left: nat, tx: nat): (r: seq<Byte>)
    requires tx > 0
    ensures |r| <= left
    decreases left
  {
    if left == 0 then []
    else
      var n := Least(left, tx);
      if IsPart(f, at, id, n) then
        f[at].data[HEADER_SIZE..HEADER_SIZE + n] + Collect(f, at + 1, id + 1, left - n, tx)
      else []
  }

  lemma CollectStep(f: Flash, at: nat, id: nat, left: nat, tx: nat, bytes: seq<Byte>)
    requires tx > 0 && left > 0
    ensures var n := Least(left, tx);
      0 < n <= left && if IsPart(f, at, id, n) then
        |f[at].data| >= n + HEADER_SIZE
        && bytes + Collect(f, at, id, left, tx)
           == bytes + f[at].data[HEADER_SIZE..HEADER_SIZE + n] + Collect(f, at + 1, id + 1, left - n, tx)
        && LastHeader(f, at, left, tx)
           == if n < left then LastHeader(f, at + 1, left - n, tx) else f[at].data[..HEADER_SIZE]
      else Collect(f, at, id, left, tx) == []
  {}

  lemma CollectNone(f: Flash, at: nat, id: nat, tx: nat)
    requires tx > 0
    ensures Collect(f, at, id, 0, tx) == []
  {}

  lemma {:induction false} CollectIsHeld(f: Flash, at: nat, id: nat, left: nat, tx: nat)
    requires tx > 0 && |Collect(f, at, id, left, tx)| == left
    ensures Holds(f, at, id, Collect(f, at, id, left, tx), tx)
    decreases left
  {
    if left > 0 {
      var n := Least(left, tx);
      CollectIsHeld(f, at + 1, id + 1, left - n, tx);
      var r := Collect(f, at, id, left, tx);
      assert r[..n] == f[at].data[HEADER_SIZE..HEADER_SIZE + n];
      assert r[n..] == Collect(f, at + 1, id + 1, left - n, tx);
    }
  }

  lemma {:induction false} HeldIsCollected(f: Flash, at: nat, id: nat, s: seq<Byte>, tx: nat)
    requires tx > 0 && Holds(f, at, id, s, tx)
    ensures Collect(f, at, id, |s|, tx) == s
    decreases |s|
  {
    if s != [] {
      var n := Least(|s|, tx);
      HeldIsCollected(f, at + 1, id + 1, s[n..], tx);
      assert s == s[..n] + s[n..];
    }
  }

  /** What writing `s` through the buffer `buf` leaves on flash. */
  ghost function Write(f: Flash, at: nat, id: nat, s: seq<Byte>, tx: nat, hdr: seq<Byte>, buf: seq<Byte>): Flash
    requires tx > 0 && |hdr| == HEADER_SIZE && |buf| == HEADER_SIZE + tx
    decreases |s|
  {
    if s == [] then f
    else
      var n := Least(|s|, tx);
      var b := hdr + s[..n] + buf[HEADER_SIZE + n..];
      var p := Page(b, PageTags(SUMMARY_ID, id, n + HEADER_SIZE, false));
      Write(f[at := p], at + 1, id + 1, s[n..], tx, hdr, b)
  }

  lemma WriteStep(f: Flash, at: nat, id: nat, s: seq<Byte>, pos: nat, tx: nat, hdr: seq<Byte>, buf: seq<Byte>)
    requires tx > 0 && |hdr| == HEADER_SIZE && |buf| == HEADER_SIZE + tx && pos < |s|
    ensures var n := Least(|s| - pos, tx);
      0 < n <= |s| - pos && n <= tx
      && var b := hdr + s[pos..pos + n] + buf[HEADER_SIZE + n..];
      Write(f, at, id, s[pos..], tx, hdr, buf)
      == Write(f[at := Page(b, PageTags(SUMMARY_ID, id, n + HEADER_SIZE, false))], at + 1, id + 1, s[pos + n..], tx, hdr, b)
  {
    var n := Least(|s| - pos, tx);
    assert s[pos..][..n] == s[pos..pos + n] && s[pos..][n..] == s[pos + n..];
  }

  lemma WriteNone(f: Flash, at: nat, id: nat, s: seq<Byte>, tx: nat, hdr: seq<Byte>, buf: seq<Byte>)
    requires tx > 0 && |hdr| == HEADER_SIZE && |buf| == HEADER_SIZE + tx
    ensures s == [] ==> Write(f, at, id, s, tx, hdr, buf) == f
  {}

  lemma {:induction false} WriteFrame(f: Flash, at: nat, id: nat, s: seq<Byte>, tx: nat, hdr: seq<Byte>,
                                      buf: seq<Byte>, k: nat)
    requires tx > 0 && |hdr| == HEADER_SIZE && |buf| == HEADER_SIZE + tx
    requires k < at || k >= at + Pages(|s|, tx)
    ensures var g := Write(f, at, id, s, tx, hdr, buf); (k in g <==> k in f) && (k in f ==> g[k] == f[k])
    decreases |s|
  {
    if s != [] {
      var n := Least(|s|, tx);
      var b := hdr + s[..n] + buf[HEADER_SIZE + n..];
      var p := Page(b, PageTags(SUMMARY_ID, id, n + HEADER_SIZE, false));
      WriteFrame(f[at := p], at + 1, id + 1, s[n..], tx, hdr, b, k);
    }
  }

  lemma {:induction false} WrittenHolds(f: Flash, at: nat, id: nat, s: seq<Byte>, tx: nat, hdr: seq<Byte>,
                                        buf: seq<Byte>)
    requires tx > 0 && |hdr| == HEADER_SIZE && |buf| == HEADER_SIZE + tx
    ensures Holds(Write(f, at, id, s, tx, hdr, buf), at, id, s, tx)
    ensures s != [] ==> LastHeader(Write(f, at, id, s, tx, hdr, buf), at, |s|, tx) == hdr
    decreases |s|
  {
    if s != [] {
      var n := Least(|s|, tx);
      var b := hdr + s[..n] + buf[HEADER_SIZE + n..];
      var p := Page(b, PageTags(SUMMARY_ID, id, n + HEADER_SIZE, false));
      WrittenHolds(f[at := p], at + 1, id + 1, s[n..], tx, hdr, b);
      WriteFrame(f[at := p], at + 1, id + 1, s[n..], tx, hdr, b, at);
      assert b[HEADER_SIZE..HEADER_SIZE + n] == s[..n] && b[..HEADER_SIZE] == hdr;
    }
  }

  /** The chunks from `at` on are a summary, with these tags and this sequence number. */
  ghost predicate IsSummary(f: Flash, at: nat, count: nat, tx: nat, seqNumber: U32, ts: seq<SumTag>)
    requires tx > 0
  {
    var hdr := LastHeader(f, at, TAGS_SIZE * count, tx);
    |ts| == count && Holds(f, at, 1, Flat(ts), tx)
    && |hdr| == HEADER_SIZE && HeaderOf(hdr).version == VERSION
    && HeaderOf(hdr).seqNumber == seqNumber && HeaderOf(hdr).sum == Sum(Flat(ts))
  }

  lemma OnlyCollected(f: Flash, at: nat, count: nat, tx: nat, seqNumber: U32, ts: seq<SumTag>)
    requires tx > 0 && IsSummary(f, at, count, tx, seqNumber, ts)
    ensures Flat(ts) == Collect(f, at, 1, TAGS_SIZE * count, tx) && Unflat(Flat(ts)) == ts
  {
    hide Holds, Flat, Unflat, Collect;
    HeldIsCollected(f, at, 1, Flat(ts), tx);
    UnflatFlat(ts);
  }

  lemma CollectedIsSummary(f: Flash, at: nat, count: nat, tx: nat, seqNumber: U32)
    requires tx > 0
    requires var bytes := Collect(f, at, 1, TAGS_SIZE * count, tx);
      var hdr := LastHeader(f, at, TAGS_SIZE * count, tx);
      |bytes| == TAGS_SIZE * count && |hdr| == HEADER_SIZE && HeaderOf(hdr).version == VERSION
      && HeaderOf(hdr).seqNumber == seqNumber && HeaderOf(hdr).sum == Sum(bytes)
    ensures IsSummary(f, at, count, tx, seqNumber, Unflat(Collect(f, at, 1, TAGS_SIZE * count, tx)))
  {
    hide Holds, Flat, Unflat, Collect, LastHeader, HeaderOf, Total;
    FlatUnflat(Collect(f, at, 1, TAGS_SIZE * count, tx));
    CollectIsHeld(f, at, 1, TAGS_SIZE * count, tx);
  }

  /** A summary in which one byte of the tags has changed is never accepted, whatever tags it then holds. */
  lemma DamageFound(f: Flash, g: Flash, at: nat, count: nat, tx: nat, seqNumber: U32, ts: seq<SumTag>,
                    i: nat, b: Byte, ts': seq<SumTag>)
    requires tx > 0 && IsSummary(f, at, count, tx, seqNumber, ts)
    requires i < |Flat(ts)| && b != Flat(ts)[i] && Collect(g, at, 1, TAGS_SIZE * count, tx) == Flat(ts)[i := b]
    requires LastHeader(g, at, TAGS_SIZE * count, tx) == LastHeader(f, at, TAGS_SIZE * count, tx)
    ensures !IsSummary(g, at, count, tx, seqNumber, ts')
  {
    hide Holds, Unflat, Collect, LastHeader, HeaderOf, Total;
    ChangedByte(Flat(ts), i, b);
    if IsSummary(g, at, count, tx, seqNumber, ts') {
      OnlyCollected(g, at, count, tx, seqNumber, ts');
    }
  }

  // ---------- The device's summary ----------

  class SummaryStore {
    const chunks: nat
    const dataBytes: nat
    const perSummary: nat
    const sumTags: array<SumTag>
    var flash: Flash

    ghost predicate Valid()
      reads this
    {
      dataBytes > HEADER_SIZE && perSummary > 0 && perSummary == sumTags.Length
      && perSummary == chunks - ChunksUsed(chunks, dataBytes)
    }

    /** Sets chunks aside at the end of each block; the device is erased and no block has a summary. */
    constructor Init(chunks: nat, dataBytes: nat)
      requires dataBytes > HEADER_SIZE && ChunksUsed(chunks, dataBytes) < chunks
      ensures Valid() && flash == map[] && this.chunks == chunks && this.dataBytes == dataBytes
      ensures forall blk, seqNumber, ts :: !Stored(blk, seqNumber, ts)
    {
      this.chunks, this.dataBytes, perSummary := chunks, dataBytes, chunks - ChunksUsed(chunks, dataBytes);
      sumTags := new SumTag[chunks - ChunksUsed(chunks, dataBytes)](_ => SumTag(0, 0, 0));
      flash := map[];
      new;
      hide ChunksUsed;
      forall blk, seqNumber, ts
        ensures !Stored(blk, seqNumber, ts)
      {
        assert |Flat(ts)| == TAGS_SIZE * |ts|;
      }
    }

    ghost predicate Stored(blk: nat, seqNumber: U32, ts: seq<SumTag>)
      reads this
      requires Valid()
    {
      IsSummary(flash, blk * chunks + perSummary, perSummary, dataBytes - HEADER_SIZE, seqNumber, ts)
    }

    method SummarySum(bytes: seq<Byte>) returns (sum: U32)
      ensures sum == Sum(bytes)
    {
      sum := 0;
      for i := 0 to |bytes|
        invariant (sum + Total(bytes[i..])) % 0x1_0000_0000 == Sum(bytes)
      {
        assert bytes[i..][1..] == bytes[i + 1..];
        AddOn(sum + bytes[i], Total(bytes[i + 1..]));
        sum := (sum + bytes[i]) % 0x1_0000_0000;
      }
    }

    lemma AddOn(x: nat, t: nat)
      ensures (x % 0x1_0000_0000 + t) % 0x1_0000_0000 == (x + t) % 0x1_0000_0000
    {}

    /** Writes the tags out; `ok` only if every chunk was written. Only chunks set aside change. */
    method SummaryWrite(blk: U32, seqNumber: U32, temp: seq<Byte>) returns (ok: bool)
      requires Valid() && |temp| == dataBytes
      modifies this`flash
      ensures Valid()
      ensures ok ==> Stored(blk, seqNumber, sumTags[..])
      ensures SameOutside(flash, old(flash), blk * chunks + perSummary, blk * chunks + chunks)
    {
      hide Flat, Total, Pages, Holds, LastHeader, Write, SameOutside, ChunksUsed, HeaderOf, HeaderBytes;
      var bytes := Flat(sumTags[..]);
      var sum := SummarySum(bytes);
      var header := Header(VERSION, blk, seqNumber, sum);
      var base := blk * chunks + perSummary;
      var tx := dataBytes - HEADER_SIZE;
      ok := WriteParts(base, bytes, HeaderBytes(header), temp);
      FitsInBlock(chunks, dataBytes);
      Outside(flash, old(flash), base, base + Pages(|bytes|, tx), blk * chunks + chunks);
      if ok {
        WrittenHolds(old(flash), base, 1, bytes, tx, HeaderBytes(header), temp);
        HeaderRoundTrip(header);
      }
    }

    method WriteParts(base: nat, bytes: seq<Byte>, hdr: seq<Byte>, temp: seq<Byte>) returns (ok: bool)
      requires dataBytes > HEADER_SIZE && |temp| == dataBytes && |hdr| == HEADER_SIZE
      modifies this`flash
      ensures ok ==> flash == Write(old(flash), base, 1, bytes, dataBytes - HEADER_SIZE, hdr, temp)
      ensures SameOutside(flash, old(flash), base, base + Pages(|bytes|, dataBytes - HEADER_SIZE))
    {
      hide Pages, Write, Least;
      var tx := dataBytes - HEADER_SIZE;
      var buffer := temp;
      var pos, at, id := 0, base, 1;
      ok := true;
      assert bytes[0..] == bytes;
      while ok && pos < |bytes|
        invariant 0 <= pos <= |bytes| && at >= base && id >= 1 && |buffer| == dataBytes
        invariant ok ==> at + Pages(|bytes| - pos, tx) == base + Pages(|bytes|, tx)
        invariant ok ==> Write(flash, at, id, bytes[pos..], tx, hdr, buffer)
                         == Write(old(flash), base, 1, bytes, tx, hdr, temp)
        invariant SameOutside(flash, old(flash), base, base + Pages(|bytes|, tx))
        decreases ok, |bytes| - pos
      {
        var n := Least(|bytes| - pos, tx);
        WriteStep(flash, at, id, bytes, pos, tx, hdr, buffer);
        buffer := hdr + bytes[pos..pos + n] + buffer[HEADER_SIZE + n..];
        PagesStep(|bytes| - pos, tx);
        ok := *;
        if ok {
          flash := flash[at := Page(buffer, PageTags(SUMMARY_ID, id, n + HEADER_SIZE, false))];
          pos, at, id := pos + n, at + 1, id + 1;
        } else {
          var junk: Page := *;
          flash := flash[at := junk];
        }
      }
      WriteNone(flash, at, id, bytes[pos..], tx, hdr, buffer);
      PagesStep(0, tx);
    }

    /** Reads the tags back; accepted exactly when a summary of this block's sequence number is stored. */
    method SummaryRead(blk: nat, seqNumber: U32) returns (ok: bool)
      requires Valid()
      modifies sumTags
      ensures ok ==> Stored(blk, seqNumber, sumTags[..])
      ensures forall ts | Stored(blk, seqNumber, ts) :: ok && sumTags[..] == ts
    {
      hide Flat, Unflat, Total, Holds, LastHeader, Collect, HeaderOf, IsPart, ChunksUsed;
      var base, tx, size := blk * chunks + perSummary, dataBytes - HEADER_SIZE, TAGS_SIZE * perSummary;
      var bytes, hdr;
      ok, bytes, hdr := CollectParts(base);
      StoreTags(bytes);
      forall ts | Stored(blk, seqNumber, ts)
        ensures Flat(ts) == Collect(flash, base, 1, size, tx) && Unflat(Flat(ts)) == ts
      {
        OnlyCollected(flash, base, perSummary, tx, seqNumber, ts);
      }
      if ok {
        var sum := SummarySum(bytes);
        var h := HeaderOf(hdr);
        ok := h.version == VERSION && h.seqNumber == seqNumber && h.sum == sum;
        if ok {
          CollectedIsSummary(flash, base, perSummary, tx, seqNumber);
        }
      }
    }

    /** Reads chunk by chunk until all the bytes are there or a chunk is not in order. */
    method CollectParts(base: nat) returns (ok: bool, bytes: seq<Byte>, hdr: seq<Byte>)
      requires Valid()
      ensures var all := Collect(flash, base, 1, TAGS_SIZE * perSummary, dataBytes - HEADER_SIZE);
        if ok then
          bytes == all && |all| == TAGS_SIZE * perSummary && |hdr| == HEADER_SIZE
          && hdr == LastHeader(flash, base, TAGS_SIZE * perSummary, dataBytes - HEADER_SIZE)
        else |all| < TAGS_SIZE * perSummary && |bytes| < TAGS_SIZE * perSummary
    {
      hide Valid, Collect, LastHeader, Least;
      ValidSizes();
      var tx, size := dataBytes - HEADER_SIZE, TAGS_SIZE * perSummary;
      var pos, at, id := 0, base, 1;
      bytes, hdr := [], [];
      ok := true;
      while ok && pos < size
        invariant 0 <= pos <= size && |bytes| == pos && at >= base && id >= 1
        invariant ok ==> bytes + Collect(flash, at, id, size - pos, tx) == Collect(flash, base, 1, size, tx)
        invariant !ok ==> pos < size && |Collect(flash, base, 1, size, tx)| < size
        invariant ok && pos < size ==> LastHeader(flash, at, size - pos, tx) == LastHeader(flash, base, size, tx)
        invariant ok && pos == size ==> hdr == LastHeader(flash, base, size, tx) && |hdr| == HEADER_SIZE
        decreases ok, size - pos
      {
        var n := Least(size - pos, tx);
        CollectStep(flash, at, id, size - pos, tx, bytes);
        if IsPart(flash, at, id, n) {
          hdr := flash[at].data[..HEADER_SIZE];
          bytes := bytes + flash[at].data[HEADER_SIZE..HEADER_SIZE + n];
          pos, at, id := pos + n, at + 1, id + 1;
        } else {
          ok := false;
        }
      }
      CollectNone(flash, at, id, tx);
    }

    lemma ValidSizes()
      requires Valid()
      ensures dataBytes > HEADER_SIZE && perSummary > 0
    {}

    /** The bytes read so far overwrite the front of the tag array. */
    method StoreTags(bytes: seq<Byte>)
      requires |bytes| <= TAGS_SIZE * sumTags.Length
      modifies sumTags
      ensures |bytes| == TAGS_SIZE * sumTags.Length ==> |bytes| % TAGS_SIZE == 0 && sumTags[..] == Unflat(bytes)
    {
      var was := Flat(sumTags[..]);
      var now := bytes + was[|bytes|..];
      assert |bytes| == |was| ==> now == bytes;
      var ts := Unflat(now);
      for i := 0 to sumTags.Length
        invariant sumTags[..i] == ts[..i]
      {
        sumTags[i] := ts[i];
      }
      assert sumTags[..] == ts;
    }
  }
}
