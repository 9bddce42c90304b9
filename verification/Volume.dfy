/** The running volume in its own form: fields changed in place. Every method is a sequence of
    steps of LogMachine, so each of them keeps the invariant that makes a later mount find what
    is in memory. A block is named by its sequence number. */
module Volume {
  import opened Basics
  import opened FlashLog
  import opened LogMachine
  import opened LogSteps
  import opened LogHeaders
  import opened LogCollect

  /** How many bytes the tags of a mapped chunk claim. */
  ghost function PieceLen(s: State, o: nat, slot: nat): int {
    if o in s.files && slot in s.files[o].chunks && s.files[o].chunks[slot] in s.fl
       && s.fl[s.files[o].chunks[slot]].Data?
    then s.fl[s.files[o].chunks[slot]].n else 0
  }

  ghost predicate SameFile(s: State, s': State, o: nat) {
    && o in s.files && o in s'.files
    && s'.files[o].fileSize == s.files[o].fileSize
    && s'.files[o].storedSize == s.files[o].storedSize
    && s'.files[o].chunks.Keys == s.files[o].chunks.Keys
    && forall slot :: slot in s.files[o].chunks ==> PieceLen(s', o, slot) == PieceLen(s, o, slot)
  }

  /** Collection moves chunks but changes no file. */
  ghost predicate SameContents(s: State, s': State) {
    && s'.files.Keys == s.files.Keys && s'.trunc == s.trunc
    && forall o :: o in s.files ==> SameFile(s, s', o)
  }

  /** Slot `slot` of file `o` was written with `n` bytes; nothing else changed. */
  ghost predicate FileWrote(cs: nat, s: State, s': State, o: nat, slot: nat, n: nat) {
    && s'.files.Keys == s.files.Keys && s'.trunc == s.trunc
    && (forall o' :: o' in s.files && o' != o ==> SameFile(s, s', o'))
    && o in s.files
    && s'.files[o].fileSize == Grow(s.files[o].fileSize, Base(cs, slot) + n)
    && s'.files[o].storedSize == Grow(s.files[o].storedSize, Base(cs, slot) + n)
    && s'.files[o].chunks.Keys == s.files[o].chunks.Keys + {slot}
    && PieceLen(s', o, slot) == n
    && (forall t :: t in s.files[o].chunks && t != slot ==> PieceLen(s', o, t) == PieceLen(s, o, t))
  }

  /** The header of `o` was written again; its size is now `z` and any truncation is over. */
  ghost predicate HeaderWrote(s: State, s': State, o: nat, z: nat) {
    && s'.files.Keys == s.files.Keys && s'.trunc == s.trunc - {o}
    && (forall o' :: o' in s.files && o' != o ==> SameFile(s, s', o'))
    && o in s.files && s'.files[o].fileSize == z
    && s'.files[o].storedSize == s.files[o].storedSize
    && s'.files[o].chunks.Keys == s.files[o].chunks.Keys
    && forall t :: t in s.files[o].chunks ==> PieceLen(s', o, t) == PieceLen(s, o, t)
  }

  /** Live chunks are still there. */
  ghost predicate KeepsLive(s: State, s': State) {
    forall l :: Live(s, l) ==> l in s'.fl && s'.fl[l] == s.fl[l]
  }

  /** Chunk `t` has bytes in the range from `offset` up to `end`. */
  predicate Touches(cs: nat, t: nat, offset: int, end: int) {
    offset < end && Base(cs, t) < end && offset < Base(cs, t) + cs
  }

  /** How much of a file of size `z` lies in chunk `t`, one that starts within it. */
  function Within(cs: nat, z: int, t: nat): int {
    if z - Base(cs, t) < cs then z - Base(cs, t) else cs
  }

  /** File `o` was written from `offset` up to `end`: the chunks there are mapped and hold all that
      the file has in them; the other chunks, the other files and what is being cut are as before. */
  ghost predicate RangeWrote(cs: nat, s: State, s': State, o: nat, offset: int, end: int) {
    && s'.files.Keys == s.files.Keys && s'.trunc == s.trunc
    && (forall o' :: o' in s.files && o' != o ==> SameFile(s, s', o'))
    && o in s.files && s'.files[o].fileSize == Grow(s.files[o].fileSize, end)
    && s.files[o].storedSize <= s'.files[o].storedSize
    && (offset < end ==> end <= s'.files[o].storedSize)
    && (forall t: nat :: t in s'.files[o].chunks <==> t in s.files[o].chunks || Touches(cs, t, offset, end))
    && (forall t: nat :: Touches(cs, t, offset, end) ==> PieceLen(s', o, t) == Within(cs, s'.files[o].fileSize, t))
    && (forall t: nat :: !Touches(cs, t, offset, end) ==> PieceLen(s', o, t) == PieceLen(s, o, t))
  }

  lemma RangeNone(cs: nat, s: State, o: nat, offset: nat)
    requires o in s.files && offset <= s.files[o].fileSize
    ensures RangeWrote(cs, s, s, o, offset, offset)
  {}

  lemma RangeTrans(cs: nat, a: State, b: State, c: State, o: nat, offset: int, mid: int, end: int)
    requires cs > 0 && offset <= mid <= end && RangeWrote(cs, a, b, o, offset, mid) && RangeWrote(cs, b, c, o, mid, end)
    ensures RangeWrote(cs, a, c, o, offset, end)
  {
    hide PieceLen, Base, SameFile;
    assert forall o' :: o' in a.files && o' != o && SameFile(a, b, o') && SameFile(b, c, o') ==> SameFile(a, c, o') by {
      SameFileTrans(a, b, c);
    }
    forall t: nat
      ensures Touches(cs, t, offset, end) <==> Touches(cs, t, offset, mid) || Touches(cs, t, mid, end)
    {}
    forall t: nat | Touches(cs, t, offset, mid) && !Touches(cs, t, mid, end)
      ensures Within(cs, b.files[o].fileSize, t) == Within(cs, c.files[o].fileSize, t)
    {}
  }

  lemma SameFileTrans(a: State, b: State, c: State)
    ensures forall o :: SameFile(a, b, o) && SameFile(b, c, o) ==> SameFile(a, c, o)
  {}

  /** One chunk written as PieceShare says is a range written. */
  lemma PieceIsRange(cs: nat, s: State, s': State, o: nat, offset: nat, nCopy: nat, n: nat)
    requires cs > 0 && o in s.files && FileWrote(cs, s, s', o, offset / cs + 1, n)
    requires 0 < nCopy && 1 <= n <= cs && offset % cs + nCopy <= n
    requires offset - offset % cs + n >= s.files[o].fileSize || n == cs
    requires offset - offset % cs + n <= s.files[o].fileSize || n == offset % cs + nCopy
    ensures RangeWrote(cs, s, s', o, offset, offset + nCopy)
  {
    AddrToChunk(cs, offset);
    var slot, end := offset / cs + 1, offset + nCopy;
    assert Base(cs, slot) == offset - offset % cs;
    forall t: nat
      ensures Touches(cs, t, offset, end) <==> t == slot
    {
      OnlyTouched(cs, offset, nCopy, t);
    }
    hide Base, Touches, SameFile;
    forall t: nat | t != slot
      ensures PieceLen(s', o, t) == PieceLen(s, o, t)
    {
      assert t in s.files[o].chunks <==> t in s'.files[o].chunks;
    }
  }

  lemma PieceCanBeWritten(cs: nat, s: State, o: nat, offset: nat, n: nat)
    requires cs > 0 && o in s.files && o !in s.trunc && offset <= s.files[o].fileSize
    requires offset / cs + 1 <= MAX_CHUNK_ID && 1 <= n <= cs
    requires offset - offset % cs + n >= s.files[o].fileSize || n == cs
    ensures CanWrite(cs, s, o, offset / cs + 1, n)
  {
    AddrToChunk(cs, offset);
    assert Base(cs, offset / cs + 1) == offset - offset % cs;
    hide Base;
  }

  lemma OnlyTouched(cs: nat, offset: nat, nCopy: nat, t: nat)
    requires cs > 0 && 0 < nCopy && offset % cs + nCopy <= cs
    ensures Touches(cs, t, offset, offset + nCopy) <==> t == offset / cs + 1
  {
    AddrToChunk(cs, offset);
    var slot := offset / cs + 1;
    if t < slot {
      SpanApart(cs, t, slot);
    } else if t > slot {
      SpanApart(cs, slot, t);
    }
  }

  /** Only the size of file `o` rose, to `z`: its chunks are as before. */
  ghost predicate HoleMarked(s: State, s': State, o: nat, z: nat) {
    HeaderWrote(s, s', o, z) && o !in s.trunc
  }

  /** File `o` was written from `offset` up to `end`. Chunks before `offset` are as before, but for
      a hole from `from` on that may have been filled with zeros first. */
  ghost predicate WroteFrom(cs: nat, s: State, s': State, o: nat, from: int, offset: int, end: int) {
    && s'.files.Keys == s.files.Keys && s'.trunc == s.trunc
    && (forall o' :: o' in s.files && o' != o ==> SameFile(s, s', o'))
    && o in s.files && s'.files[o].fileSize == Grow(s.files[o].fileSize, end)
    && (offset < end ==> end <= s'.files[o].storedSize)
    && (forall t: nat :: Touches(cs, t, offset, end) ==>
          t in s'.files[o].chunks && PieceLen(s', o, t) == Within(cs, s'.files[o].fileSize, t))
    && (forall t: nat :: !Touches(cs, t, from, end) ==>
          (t in s'.files[o].chunks <==> t in s.files[o].chunks) && PieceLen(s', o, t) == PieceLen(s, o, t))
  }

  lemma FilledThenWrote(cs: nat, a: State, b: State, c: State, o: nat, from: int, offset: int, end: int)
    requires cs > 0 && from <= offset <= end && RangeWrote(cs, a, b, o, from, offset) && RangeWrote(cs, b, c, o, offset, end)
    requires o in a.files && a.files[o].fileSize >= from
    ensures WroteFrom(cs, a, c, o, from, offset, end)
  {
    RangeTrans(cs, a, b, c, o, from, offset, end);
  }

  lemma MarkedThenWrote(cs: nat, a: State, b: State, c: State, o: nat, from: int, offset: nat, end: int)
    requires from <= offset <= end && HoleMarked(a, b, o, offset) && RangeWrote(cs, b, c, o, offset, end)
    requires o in a.files && a.files[o].fileSize == from
    ensures WroteFrom(cs, a, c, o, from, offset, end)
  {
    SameFileTrans(a, b, c);
    hide Base, SameFile;
    forall t: nat | !Touches(cs, t, from, end)
      ensures !Touches(cs, t, offset, end)
      ensures PieceLen(b, o, t) == PieceLen(a, o, t)
    {
      assert t in a.files[o].chunks <==> t in b.files[o].chunks;
    }
  }

  lemma AddrToChunk(cs: nat, offset: nat)
    requires cs > 0
    ensures offset / cs * cs + offset % cs == offset && 0 <= offset % cs < cs
    ensures Base(cs, offset / cs + 1) == offset - offset % cs
  {}

  /** Offsets below the largest file size lie in a legal chunk. */
  lemma SlotLimit(cs: nat, offset: nat)
    requires cs > 0 && offset < MAX_CHUNK_ID * cs
    ensures offset / cs + 1 <= MAX_CHUNK_ID
  {
    AddrToChunk(cs, offset);
    var k := offset / cs;
    assert k >= MAX_CHUNK_ID ==> (k - MAX_CHUNK_ID) * cs >= 0;
  }

  lemma KeepsLiveRefl(s: State)
    ensures KeepsLive(s, s)
  {}

  lemma BlockPages(r: nat, n: nat) returns (pages: set<Loc>)
    ensures |pages| == n && forall l :: l in pages <==> l.q == r && l.p < n
  {
    pages := {};
    for p := 0 to n
      invariant |pages| == p && forall l :: l in pages <==> l.q == r && l.p < p
    {
      pages := pages + {Loc(r, p)};
    }
  }

  /** A block all of whose pages are in use has no discarded page. */
  lemma FullBlock(used: set<Loc>, r: nat, cpb: nat, l: Loc)
    requires forall m :: m in used ==> m.q == r && m.p < cpb
    requires |used| >= cpb && l.q == r && l.p < cpb
    ensures l in used
  {
    var pages := BlockPages(r, cpb);
    if l !in used {
      SizeOfSubset(used + {l}, pages);
    }
  }

  lemma SameContentsRefl(s: State)
    ensures SameContents(s, s)
  {}

  lemma SameContentsTrans(a: State, b: State, c: State)
    requires SameContents(a, b) && SameContents(b, c)
    ensures SameContents(a, c)
  {}

  /** Files that keep their chunk maps, over live chunks that are still there, are the same. */
  lemma KeptSame(cs: nat, s: State, s': State)
    requires ChunksOk(cs, s) && s'.files == s.files && s'.trunc == s.trunc && KeepsLive(s, s')
    ensures SameContents(s, s')
  {
    forall o, slot | o in s.files && slot in s.files[o].chunks
      ensures PieceLen(s', o, slot) == PieceLen(s, o, slot)
    {
      assert Winner(cs, s.fl, s.files[o].chunks[slot], o, slot);
      assert Live(s, s.files[o].chunks[slot]);
    }
  }

  lemma MoveSame(cs: nat, s: State, l: Loc)
    requires LogOk(cs, s) && ChunksOk(cs, s) && CanMove(s, l)
    ensures SameContents(s, DoMove(s, l))
  {
    var s' := DoMove(s, l);
    forall o, slot | o in s.files && slot in s.files[o].chunks
      ensures PieceLen(s', o, slot) == PieceLen(s, o, slot)
    {
      assert Winner(cs, s.fl, s.files[o].chunks[slot], o, slot);
    }
  }

  /** After the move the old place is no longer live; everything else is as before. */
  lemma MoveLive(cs: nat, s: State, l: Loc)
    requires LogOk(cs, s) && FilesOk(s) && ChunksOk(cs, s) && CanMove(s, l)
    ensures forall m :: Live(DoMove(s, l), m) <==> (Live(s, m) && m != l) || m == s.head
    ensures DoMove(s, l).ods == Dirtied(s.ods, l.q) && l in DoMove(s, l).fl && l != s.head
  {
    var s' := DoMove(s, l);
    forall m | Live(s, m) && m != l
      ensures Live(s', m)
    {}
    forall m | Live(s', m) && m != s.head
      ensures Live(s, m) && m != l
    {
      assert m in s.fl && s.fl[m] == s'.fl[m];
    }
  }

  lemma WroteTrans(cs: nat, a: State, b: State, c: State, d: State, o: nat, slot: nat, n: nat)
    requires SameContents(a, b) && FileWrote(cs, b, c, o, slot, n) && SameContents(c, d)
    ensures FileWrote(cs, a, d, o, slot, n)
  {}

  lemma WriteSame(cs: nat, s: State, o: nat, slot: nat, n: nat)
    requires LogOk(cs, s) && ChunksOk(cs, s) && CanWrite(cs, s, o, slot, n)
    ensures FileWrote(cs, s, DoWrite(cs, s, o, slot, n), o, slot, n)
  {
    var s' := DoWrite(cs, s, o, slot, n);
    forall o', t | o' in s.files && t in s.files[o'].chunks && !(o' == o && t == slot)
      ensures PieceLen(s', o', t) == PieceLen(s, o', t)
    {
      assert Winner(cs, s.fl, s.files[o'].chunks[t], o', t);
    }
  }

  /** Which chunk a write makes stale. */
  ghost function OldChunk(s: State, o: nat, slot: nat): set<Loc> {
    if o in s.files && slot in s.files[o].chunks then {s.files[o].chunks[slot]} else {}
  }

  lemma WriteLive(cs: nat, s: State, o: nat, slot: nat, n: nat)
    requires LogOk(cs, s) && ChunksOk(cs, s) && CanWrite(cs, s, o, slot, n)
    ensures forall m :: Live(DoWrite(cs, s, o, slot, n), m) <==>
              (Live(s, m) && m !in OldChunk(s, o, slot)) || m == s.head
    ensures forall m :: m in OldChunk(s, o, slot) ==> Live(s, m) && m in s.fl && m != s.head
  {
    var s' := DoWrite(cs, s, o, slot, n);
    assert slot in s.files[o].chunks ==> Winner(cs, s.fl, s.files[o].chunks[slot], o, slot);
    forall m | Live(s', m) && m != s.head
      ensures Live(s, m) && m !in OldChunk(s, o, slot)
    {
      assert m in s.fl && s.fl[m] == s'.fl[m];
    }
  }

  ghost predicate CanRehead(s: State, o: nat, shrink: bool, z: nat) {
    if shrink then CanHole(s, o, z) else CanPutHeader(s, o) && z == s.files[o].fileSize
  }

  function Rehead(s: State, o: nat, shrink: bool, z: nat): State
    requires o in s.files
  {
    if shrink then DoHole(s, o, z) else DoPutHeader(s, o)
  }

  lemma ReheadSame(cs: nat, s: State, o: nat, shrink: bool, z: nat)
    requires LogOk(cs, s) && ChunksOk(cs, s) && CanRehead(s, o, shrink, z)
    ensures HeaderWrote(s, Rehead(s, o, shrink, z), o, z)
  {
    var s' := Rehead(s, o, shrink, z);
    forall o', t | o' in s.files && t in s.files[o'].chunks
      ensures PieceLen(s', o', t) == PieceLen(s, o', t)
    {
      assert Winner(cs, s.fl, s.files[o'].chunks[t], o', t);
    }
  }

  lemma ReheadLive(cs: nat, s: State, o: nat, shrink: bool, z: nat)
    requires LogOk(cs, s) && FilesOk(s) && CanRehead(s, o, shrink, z)
    ensures forall m :: Live(Rehead(s, o, shrink, z), m) <==>
              (Live(s, m) && m != s.files[o].hdr) || m == s.head
    ensures Live(s, s.files[o].hdr) && s.files[o].hdr != s.head
  {
    var s' := Rehead(s, o, shrink, z);
    forall m | Live(s', m) && m != s.head
      ensures Live(s, m) && m != s.files[o].hdr
    {
      assert m in s.fl && s.fl[m] == s'.fl[m];
    }
  }

  lemma HeaderWroteTrans(a: State, b: State, c: State, d: State, o: nat, z: nat)
    requires SameContents(a, b) && HeaderWrote(b, c, o, z) && SameContents(c, d)
    ensures HeaderWrote(a, d, o, z)
  {}

  lemma DropLive(cs: nat, s: State, o: nat, slot: nat)
    requires LogOk(cs, s) && ChunksOk(cs, s) && CanDrop(cs, s, o, slot)
    ensures forall m :: Live(DoDrop(s, o, slot), m) <==> Live(s, m) && m != s.files[o].chunks[slot]
    ensures Live(s, s.files[o].chunks[slot])
  {
    assert Winner(cs, s.fl, s.files[o].chunks[slot], o, slot);
    forall m | Live(s, m) && m != s.files[o].chunks[slot]
      ensures Live(DoDrop(s, o, slot), m)
    {}
  }

  /** Chunks of file `o` from slot `from` on were dropped; all that changed is which slots it has. */
  ghost predicate OnlyDropped(s: State, s': State, o: nat, from: nat) {
    && s'.files.Keys == s.files.Keys && s'.trunc == s.trunc
    && (forall o' :: o' in s.files && o' != o ==> SameFile(s, s', o'))
    && o in s.files && s'.files[o].fileSize == s.files[o].fileSize
    && s'.files[o].storedSize == s.files[o].storedSize
    && (forall t :: t in s'.files[o].chunks ==>
          t in s.files[o].chunks && PieceLen(s', o, t) == PieceLen(s, o, t))
    && (forall t :: t in s.files[o].chunks && t < from ==> t in s'.files[o].chunks)
  }

  lemma DropSame(cs: nat, s: State, o: nat, slot: nat)
    requires LogOk(cs, s) && ChunksOk(cs, s) && CanDrop(cs, s, o, slot)
    ensures OnlyDropped(s, DoDrop(s, o, slot), o, slot)
  {}

  lemma DroppedRefl(s: State, o: nat, from: nat)
    requires o in s.files
    ensures OnlyDropped(s, s, o, from)
  {}

  lemma DroppedTrans(a: State, b: State, c: State, o: nat, from: nat, from': nat)
    requires from <= from' && (OnlyDropped(a, b, o, from) || OnlyDropped(a, b, o, from'))
    requires OnlyDropped(b, c, o, from') || SameContents(b, c)
    ensures OnlyDropped(a, c, o, from)
  {}

  /** Chunk `t` starts before `z` and reaches past it. */
  predicate Straddles(cs: nat, t: nat, z: nat) {
    Base(cs, t) < z < Base(cs, t) + cs
  }

  /** File `o` was cut down to `z`: the chunks that start before `z` are those there were, but for
      one that reaches past it, which now ends there. */
  ghost predicate CutTo(cs: nat, s: State, s': State, o: nat, z: nat) {
    && s'.files.Keys == s.files.Keys
    && (forall o' :: o' in s.files && o' != o ==> SameFile(s, s', o'))
    && o in s.files && s'.files[o].fileSize == s'.files[o].storedSize == z
    && (forall t: nat :: t in s'.files[o].chunks <==>
          (t in s.files[o].chunks && Base(cs, t) < z) || Straddles(cs, t, z))
    && (forall t: nat :: t in s'.files[o].chunks ==>
          PieceLen(s', o, t) == if Straddles(cs, t, z) then z - Base(cs, t) else PieceLen(s, o, t))
  }

  lemma OnlyStraddled(cs: nat, z: nat, t: nat)
    requires cs > 0
    ensures Straddles(cs, t, z) <==> z % cs != 0 && t == z / cs + 1
    ensures Straddles(cs, t, z) ==> z - Base(cs, t) == z % cs
  {
    AddrToChunk(cs, z);
    var slot := z / cs + 1;
    if t < slot {
      SpanApart(cs, t, slot);
    } else if t > slot {
      SpanApart(cs, slot, t);
    }
  }

  /** A chunk starts before `z` exactly if its number is no more than `z` rounded up to chunks. */
  lemma StartsBelow(cs: nat, z: nat, t: nat)
    requires cs > 0
    ensures Base(cs, t) < z <==> t <= (z + cs - 1) / cs
  {
    var k := (z + cs - 1) / cs;
    AddrToChunk(cs, z + cs - 1);
    assert k * cs == Base(cs, k + 1);
    if t <= k {
      if t < k {
        SpanApart(cs, t, k);
      }
    } else if t > k + 1 {
      SpanApart(cs, k + 1, t);
    }
  }

  /** A mapped chunk starts before the end of its file, so no later than the last chunk. */
  lemma LastSlot(cs: nat, s: State, o: nat, t: nat)
    requires cs > 0 && LogOk(cs, s) && ChunksOk(cs, s) && EndsOk(cs, s)
    requires o in s.files && t in s.files[o].chunks
    ensures 1 <= t && s.files[o].fileSize > 0 && t <= (s.files[o].fileSize - 1) / cs + 1
    ensures 1 <= PieceLen(s, o, t) <= cs && Base(cs, t) + PieceLen(s, o, t) <= s.files[o].storedSize
  {
    var l := s.files[o].chunks[t];
    assert Winner(cs, s.fl, l, o, t);
    assert EndPos(cs, s.fl[l]) <= s.files[o].storedSize;
    var z := s.files[o].fileSize - 1;
    BaseNonNegative(cs, t);
    SlotOf(cs, t, z);
  }

  lemma SlotOf(cs: nat, t: nat, z: nat)
    requires cs > 0 && t >= 1 && Base(cs, t) <= z
    ensures t <= z / cs + 1
  {
    AddrToChunk(cs, z);
    if z / cs + 1 < t {
      SpanApart(cs, z / cs + 1, t);
    }
  }

  lemma SetSizeSame(s: State, o: nat)
    requires o in s.files && o in s.trunc
    ensures forall o' :: o' in s.files && o' != o ==> SameFile(s, DoSetSize(s, o), o')
    ensures forall l :: Live(DoSetSize(s, o), l) <==> Live(s, l)
  {}

  lemma DeleteSame(cs: nat, s: State, o: nat)
    requires LogOk(cs, s) && FilesOk(s) && ChunksOk(cs, s) && CanDelete(s, o)
    ensures forall o' :: o' in s.files && o' != o ==> SameFile(s, DoDelete(s, o), o')
    ensures forall m :: Live(DoDelete(s, o), m) <==> Live(s, m) && m != s.files[o].hdr
    ensures Live(s, s.files[o].hdr) && s.head !in s.fl && !Live(DoDelete(s, o), s.head)
  {
    var s' := DoDelete(s, o);
    forall o', t | o' in s'.files && t in s'.files[o'].chunks
      ensures PieceLen(s', o', t) == PieceLen(s, o', t)
    {
      assert Winner(cs, s.fl, s.files[o'].chunks[t], o', t);
    }
    assert s.head !in s.fl;
  }

  lemma CreateSame(cs: nat, s: State, o: nat)
    requires LogOk(cs, s) && FilesOk(s) && ChunksOk(cs, s) && CanCreate(s, o)
    ensures forall o' :: o' in s.files ==> SameFile(s, DoCreate(s, o), o')
    ensures forall m :: Live(DoCreate(s, o), m) <==> Live(s, m) || m == s.head
  {
    var s' := DoCreate(s, o);
    forall o', t | o' in s.files && t in s.files[o'].chunks
      ensures PieceLen(s', o', t) == PieceLen(s, o', t)
    {
      assert Winner(cs, s.fl, s.files[o'].chunks[t], o', t);
    }
    assert s.head !in s.fl;
  }

  lemma DirtiedKeeps(cs: nat, s: State, q: nat)
    requires Inv(cs, s) && 1 <= q <= s.head.q
    ensures Inv(cs, s.(ods := Dirtied(s.ods, q)))
  {
    var s' := s.(ods := Dirtied(s.ods, q));
    FilesOnly(cs, s, s');
    SameStanding(cs, s, s');
    assert forall l :: Live(s, l) ==> Live(s', l);
  }

  lemma EraseLive(s: State, q: nat)
    requires CanErase(s, q)
    ensures forall l :: Live(DoErase(s, q), l) <==> Live(s, l)
  {}

  class Volume {
    const cs: nat
    const cpb: nat
    var fl: Flash
    var head: Loc
    var files: map<nat, File>
    var flags: set<nat>
    var bits: set<Loc>
    var ods: nat
    var gcBlock: nat
    var gcChunk: nat
    var gcDirtiest: nat
    var collecting: nat
    ghost var admitted: set<nat>
    ghost var trunc: map<nat, nat>

    ghost function View(): State
      reads `fl, `head, `files, `flags, `admitted, `ods, `trunc
    {
      State(fl, head, files, flags, admitted, ods, trunc)
    }

    /** The chunk bitmap marks the live chunks and, in the middle of an operation, `extra`. */
    ghost predicate BitsAre(extra: set<Loc>)
      reads `fl, `head, `files, `flags, `admitted, `ods, `trunc, `bits
    {
      forall l :: l in bits <==> Live(View(), l) || l in extra
    }

    ghost predicate MayCollect(q: nat)
      reads `head, `flags, `admitted
    {
      q == 0 || (q < head.q && (q in flags ==> q in admitted))
    }

    ghost predicate GcOk()
      reads `fl, `head, `flags, `admitted, `bits, `gcBlock, `gcChunk, `gcDirtiest
    {
      && cs > 0 && cpb >= 2 && head.p < cpb
      && (forall l :: l in fl ==> l.p < cpb)
      && MayCollect(gcBlock) && MayCollect(gcDirtiest)
      && (gcBlock != 0 ==> forall l :: l in bits && l.q == gcBlock ==> l.p >= gcChunk)
    }

    ghost predicate Valid()
      reads this
    {
      Inv(cs, View()) && BitsAre({}) && GcOk()
    }

    constructor (cs: nat, cpb: nat)
      requires cs > 0 && cpb >= 2
      ensures Valid() && files == map[] && fl == map[] && trunc == map[]
    {
      this.cs, this.cpb := cs, cpb;
      fl, head, files := map[], Loc(1, 0), map[];
      flags, bits, ods := {}, {}, 0;
      gcBlock, gcChunk, gcDirtiest, collecting := 0, 0, 0, 0;
      admitted, trunc := {}, map[];
    }

    // ----- block bookkeeping -----

    method UpdateOldestDirtySeq(q: nat)
      modifies `ods
      ensures ods == Dirtied(old(ods), q)
    {
      if ods != 0 {
        if ods > q {
          ods := q;
        }
      }
    }

    method ClearOldestDirtySeq(q: nat)
      modifies `ods
      ensures ods == if old(ods) == q then 0 else old(ods)
    {
      if q == ods {
        ods := 0;
      }
    }

    /** Block `q` is no longer collected, nor a candidate. */
    method StopCollecting(q: nat)
      modifies `gcBlock, `gcDirtiest, `collecting
      ensures gcBlock == if old(gcBlock) == q then 0 else old(gcBlock)
      ensures gcDirtiest == if old(gcDirtiest) == q then 0 else old(gcDirtiest)
      ensures collecting == if old(collecting) == q then 0 else old(collecting)
    {
      if gcBlock == q {
        gcBlock := 0;
      }
      if gcDirtiest == q {
        gcDirtiest := 0;
      }
      if collecting == q {
        collecting := 0;
      }
    }

    /** Erases a block with no chunk in use. */
    method BlockBecameDirty(q: nat, ghost extra: set<Loc>)
      requires Inv(cs, View()) && BitsAre(extra) && GcOk() && CanErase(View(), q)
      modifies this
      ensures Inv(cs, View()) && BitsAre(extra) && GcOk()
      ensures View() == DoErase(old(View()), q) && bits == old(bits)
      ensures collecting == if old(collecting) == q then 0 else old(collecting)
      ensures gcBlock == if old(gcBlock) == q then 0 else old(gcBlock)
      ensures gcChunk == old(gcChunk)
    {
      hide Inv;
      ghost var s := View();
      ClearOldestDirtySeq(q);
      StopCollecting(q);
      fl := WithoutBlock(fl, q);
      admitted := admitted - {q};
      EraseKeeps(cs, s, q);
      EraseLive(s, q);
      assert View() == DoErase(s, q);
    }

    /** Deletes a chunk the files no longer refer to; an emptied block is erased unless it may
        hold shrink headers or is still being written. */
    method ChunkDel(l: Loc, ghost extra: set<Loc>)
      requires Inv(cs, View().(ods := Dirtied(ods, l.q))) && GcOk()
      requires BitsAre({l} + extra) && l !in extra && l in fl && !Live(View(), l)
      modifies this
      ensures Inv(cs, View()) && BitsAre(extra) && GcOk()
      ensures files == old(files) && trunc == old(trunc) && head == old(head)
      ensures flags == old(flags) && gcChunk == old(gcChunk)
      ensures KeepsLive(old(View()), View())
      ensures forall m :: m in bits && m in old(fl) ==> m in fl
      ensures forall m :: m in fl ==> m in old(fl) && fl[m] == old(fl)[m]
      ensures bits == old(bits) - {l}
      ensures collecting == old(collecting) ||
                (collecting == 0 && forall m :: m in fl ==> m.q != old(collecting))
      ensures gcBlock == old(gcBlock) || gcBlock == 0
      ensures (forall m :: m in bits ==> m.q != l.q) && l.q !in flags && l.q < head.q ==>
                collecting != l.q && forall m :: m in fl ==> m.q != l.q
    {
      hide Inv;
      BlockFromOne(View().(ods := Dirtied(ods, l.q)), l);
      UpdateOldestDirtySeq(l.q);
      bits := bits - {l};
      if (forall m :: m in bits ==> m.q != l.q) && l.q !in flags && l.q < head.q {
        BlockBecameDirty(l.q, extra);
      }
    }

    lemma BlockFromOne(s: State, l: Loc)
      requires Inv(cs, s) && l in s.fl
      ensures l.q >= 1
    {}

    /** Writes the next chunk of the log; a full block is left for a fresh one. */
    method WriteNewChunk(e: Entry) returns (l: Loc)
      requires GcOk()
      modifies `fl, `bits, `head
      ensures l == old(head) && fl == old(fl)[l := e] && bits == old(bits) + {l}
      ensures head == if l.p + 1 < cpb then Loc(l.q, l.p + 1) else Loc(l.q + 1, 0)
    {
      l := head;
      fl := fl[l := e];
      bits := bits + {l};
      head := Loc(l.q, l.p + 1);
      if head.p >= cpb {
        head := Loc(l.q + 1, 0);
      }
    }

    /** The state after a step, once a full block has been left. */
    ghost function Settled(s: State): State {
      if s.head.p < cpb then s else DoNewBlock(s)
    }

    lemma SettledKeeps(s: State)
      requires Inv(cs, s)
      ensures Inv(cs, Settled(s))
    {
      NewBlockKeeps(cs, s);
    }

    // ----- what may be collected -----

    /** Block `r` is full and some of its pages are not in use. */
    ghost predicate HasDiscarded(r: nat)
      reads `fl, `head, `bits
    {
      0 < r < head.q && (exists l :: l in fl && l.q == r) && |set l | l in bits && l.q == r| < cpb
    }

    /** `ods` is the oldest full block with pages not in use, if there is one. */
    ghost predicate OdsIsLeast()
      reads `fl, `head, `bits, `ods
    {
      (ods != 0 ==> HasDiscarded(ods)) && forall r :: HasDiscarded(r) ==> 0 < ods <= r
    }

    method PagesDiscarded(r: nat) returns (b: bool)
      requires Valid() && 0 < r < head.q
      ensures b <==> HasDiscarded(r)
      ensures !b ==> forall l :: l in fl && l.q == r ==> Live(View(), l)
    {
      hide Inv;
      var used := set l | l in bits && l.q == r;
      b := (exists l :: l in fl && l.q == r) && |used| < cpb;
      if !b {
        forall l | l in fl && l.q == r
          ensures Live(View(), l)
        {
          FullBlock(used, r, cpb, l);
        }
      }
    }

    /** The blocks before `r` have been looked at, and `seqNo` is the oldest with discarded pages. */
    ghost predicate Surveyed(r: nat, found: bool, seqNo: nat)
      reads this
    {
      && (found ==> HasDiscarded(seqNo) && seqNo < r)
      && (forall i: nat :: i < r && HasDiscarded(i) ==> found && seqNo <= i)
      && (forall l :: l in fl && 0 < l.q < r && (found ==> l.q < seqNo) ==> Live(View(), l))
    }

    lemma SurveyedMore(r: nat, found: bool, seqNo: nat, dirty: bool)
      requires 0 < r < head.q && Surveyed(r, found, seqNo) && (dirty <==> HasDiscarded(r))
      requires !dirty ==> forall l :: l in fl && l.q == r ==> Live(View(), l)
      ensures Surveyed(r + 1, found || dirty, if dirty && !found then r else seqNo)
    {
      hide HasDiscarded;
    }

    /** The oldest full block with pages not in use. */
    method CalcOldestDirtySeq()
      requires Valid() && ods == 0
      modifies `ods
      ensures Valid() && OdsIsLeast()
    {
      var seqNo, found := FindOldestDirty();
      LeastFound(found, seqNo);
      hide Valid, Surveyed, OdsIsLeast, HasDiscarded;
      if found {
        SetOds(seqNo);
      }
    }

    method FindOldestDirty() returns (seqNo: nat, found: bool)
      requires Valid() && ods == 0
      ensures Surveyed(head.q, found, seqNo)
    {
      assert head.q >= 1;
      assert Surveyed(1, false, head.q + 1);
      hide Inv, Live, HasDiscarded, Surveyed, Valid;
      seqNo, found := head.q + 1, false;
      var r: nat := 1;
      while r < head.q
        invariant 1 <= r <= head.q && Surveyed(r, found, seqNo)
        invariant found ==> seqNo < r
        invariant !found ==> seqNo == head.q + 1
      {
        var dirty := PagesDiscarded(r);
        SurveyedMore(r, found, seqNo, dirty);
        if dirty && r < seqNo {
          seqNo, found := r, true;
        }
        r := r + 1;
      }
    }

    /** The number found is the least, as full blocks come before the head. */
    lemma LeastFound(found: bool, seqNo: nat)
      requires Surveyed(head.q, found, seqNo)
      ensures forall r :: HasDiscarded(r) ==> found && 0 < seqNo <= r
      ensures found ==> 0 < seqNo < head.q && HasDiscarded(seqNo)
      ensures found ==> forall l :: l in fl && 0 < l.q < seqNo ==> Live(View(), l)
    {}

    lemma MayCalc(z: nat)
      requires Valid() && ods == 0 && 0 < z < head.q
      requires forall l :: l in fl && 0 < l.q < z ==> Live(View(), l)
      ensures CanCalcOds(View(), z)
    {}

    method SetOds(seqNo: nat)
      requires Valid() && ods == 0 && 0 < seqNo < head.q
      requires forall l :: l in fl && 0 < l.q < seqNo ==> Live(View(), l)
      requires HasDiscarded(seqNo) && forall r :: HasDiscarded(r) ==> seqNo <= r
      modifies `ods
      ensures Valid() && OdsIsLeast()
    {
      hide Inv, HasDiscarded, GcOk, CanCalcOds;
      MayCalc(seqNo);
      CalcOdsKeeps(cs, View(), seqNo);
      ods := seqNo;
    }

    ghost method RecordAdmission(q: nat)
      requires Valid() && CanAdmit(View(), q)
      modifies `admitted
      ensures Valid() && MayCollect(q) && SameContents(old(View()), View())
    {
      ghost var s := View();
      hide Inv, SameContents;
      AdmitKeeps(cs, s, q);
      hide CanAdmit;
      admitted := admitted + {q};
      SettledSame(s, s, View());
    }

    /** Admits block `q`, whose sequence number a known oldest dirty one reaches. */
    ghost method AdmitByOds(q: nat)
      requires Valid() && 0 < q <= ods && q < head.q
      modifies `admitted
      ensures Valid() && MayCollect(q) && SameContents(old(View()), View())
    {
      OkForGcAdmits(View(), q);
      hide Inv, SameContents;
      RecordAdmission(q);
    }

    method BlockOkForGc(q: nat) returns (ok: bool)
      requires Valid() && 0 < q < head.q
      modifies `ods, `admitted
      ensures Valid() && SameContents(old(View()), View())
      ensures ok ==> MayCollect(q)
      ensures ok <==> q !in flags || q <= ods
      ensures if q in flags && old(ods) == 0 then OdsIsLeast() else ods == old(ods)
    {
      ghost var s := View();
      SameContentsRefl(s);
      if q !in flags {
        return true;
      }
      hide Inv, SameContents, HasDiscarded, OdsIsLeast, GcOk, BitsAre;
      if ods == 0 {
        CalcOldestDirtySeq();
      }
      ghost var t := View();
      SettledSame(s, s, t);
      ok := q <= ods;
      if ok {
        AdmitByOds(q);
        SameContentsTrans(s, t, View());
      }
    }

    /** The oldest block, taken without asking BlockOkForGc. */
    method FindRefreshBlock() returns (q: nat)
      requires Valid()
      modifies `admitted
      ensures Valid() && MayCollect(q) && SameContents(old(View()), View())
      ensures q == 0 ==> forall l :: l in fl ==> l.q >= head.q
      ensures q != 0 ==> (exists l :: l in fl && l.q == q) && q < head.q && forall l :: l in fl ==> q <= l.q
    {
      q := 0;
      var r := 1;
      while r < head.q && q == 0
        invariant 1 <= r <= head.q
        invariant q == 0 ==> forall l :: l in fl ==> l.q >= r
        invariant q != 0 ==> q < head.q && (exists l :: l in fl && l.q == q) && forall l :: l in fl ==> l.q >= q
      {
        if exists l :: l in fl && l.q == r {
          q := r;
        }
        r := r + 1;
      }
      if q != 0 {
        assert CanAdmit(View(), q);
        RecordAdmission(q);
      }
    }

    // ----- collection -----

    /** Copies one chunk in use to the head of the log; a header loses its shrink mark. */
    method GcRewrite(l: Loc)
      requires GcOk() && CanMove(View(), l)
      modifies `fl, `head, `bits, `files
      ensures View() == Settled(DoMove(old(View()), l)).(ods := ods)
      ensures bits == old(bits) + {old(head)} && GcOk() && old(head).q <= head.q
    {
      var o := fl[l].obj;
      if fl[l].Data? {
        var slot := fl[l].slot;
        var n := WriteNewChunk(fl[l]);
        files := files[o := files[o].(chunks := files[o].chunks[slot := n])];
      } else {
        var n := WriteNewChunk(Header(o, files[o].storedSize, false, fl[l].gone));
        files := files[o := files[o].(hdr := n)];
      }
    }

    /** Between the copy and the deletion of the old chunk only the old bit is left over. */
    lemma Moved(s: State, u: State, l: Loc)
      requires Inv(cs, s) && CanMove(s, l) && u == Settled(DoMove(s, l)).(ods := s.ods)
      ensures Inv(cs, u.(ods := Dirtied(u.ods, l.q))) && SameContents(s, u)
      ensures forall m :: Live(u, m) <==> (Live(s, m) && m != l) || m == s.head
      ensures l in u.fl && l != s.head
    {
      assert LogOk(cs, s) && FilesOk(s) && ChunksOk(cs, s);
      hide Inv, SameContents, LogOk, FilesOk, ChunksOk;
      MoveKeeps(cs, s, l);
      SettledKeeps(DoMove(s, l));
      MoveSame(cs, s, l);
      MoveLive(cs, s, l);
      hide DoMove;
      assert u.(ods := Dirtied(u.ods, l.q)) == Settled(DoMove(s, l));
      SettledSame(s, DoMove(s, l), u);
    }

    lemma SettledSame(s: State, t: State, u: State)
      requires s == t || SameContents(s, t)
      requires u.fl == t.fl && u.files == t.files && u.trunc == t.trunc
      ensures SameContents(s, u)
      ensures forall m :: Live(u, m) <==> Live(t, m)
    {}

    lemma KeptSameInv(s: State, s': State)
      requires exists z :: Inv(cs, s.(ods := z))
      requires s'.files == s.files && s'.trunc == s.trunc && KeepsLive(s, s')
      ensures SameContents(s, s')
    {
      KeptSame(cs, s, s');
    }

    lemma CanMoveBit(l: Loc)
      requires Valid() && l in bits && l.q < head.q
      ensures l in fl && l.p < cpb && CanMove(View(), l) && Inv(cs, View()) && BitsAre({}) && GcOk()
    {}

    method GcCopy(l: Loc)
      requires Valid() && l in bits && l.q < head.q
      modifies `fl, `head, `bits, `files
      ensures Inv(cs, View().(ods := Dirtied(ods, l.q))) && GcOk()
      ensures BitsAre({l}) && l in fl && !Live(View(), l)
      ensures SameContents(old(View()), View()) && bits == old(bits) + {old(head)}
      ensures old(head).q <= head.q
    {
      hide Inv, SameContents, DoMove, Live, CanMove, GcOk, Settled, Valid;
      ghost var s := View();
      CanMoveBit(l);
      GcRewrite(l);
      Moved(s, View(), l);
    }

    method GcProcessChunk(l: Loc)
      requires Valid() && l in bits && l.q < head.q
      modifies this
      ensures Valid() && SameContents(old(View()), View())
      ensures forall m :: m in bits ==> (m in old(bits) && m != l) || m.q >= old(head).q
      ensures old(head).q <= head.q && flags == old(flags) && gcChunk == old(gcChunk)
      ensures collecting == old(collecting) ||
                (collecting == 0 && forall m :: m in fl ==> m.q != old(collecting))
      ensures gcBlock == old(gcBlock) || gcBlock == 0
      ensures (forall m :: m in bits ==> m.q != l.q) && l.q !in flags ==>
                (collecting == 0 || collecting != l.q) && forall m :: m in fl ==> m.q != l.q
    {
      hide Inv, SameContents;
      GcCopy(l);
      ghost var t := View();
      ChunkDel(l, {});
      KeptSameInv(t, View());
      SameContentsTrans(old(View()), t, View());
    }

    lemma Collected(s: State, u: State, q: nat)
      requires Inv(cs, s) && CanCollect(s, q) && u == DoCollect(s, q)
      ensures Inv(cs, u) && SameContents(s, u) && forall l :: Live(u, l) <==> Live(s, l)
    {
      CollectKeeps(cs, s, q);
      hide Inv;
    }

    lemma Erased(s: State, u: State, q: nat)
      requires Inv(cs, s) && CanErase(s, q) && u == DoErase(s, q)
      ensures SameContents(s, u)
    {
      EraseLive(s, q);
      assert KeepsLive(s, u) by {
        assert forall l :: Live(s, l) ==> Live(u, l);
      }
      assert s.(ods := s.ods) == s;
      KeptSame(cs, s, u);
    }

    method StartCollecting(q: nat)
      requires Valid() && gcBlock == q != 0
      modifies `collecting, `flags
      ensures Valid() && SameContents(old(View()), View())
      ensures collecting == q && q < head.q && q !in flags
    {
      ghost var s := View();
      hide Inv, SameContents;
      collecting := q;
      flags := flags - {q};
      Collected(s, View(), q);
    }

    method EraseUnused(q: nat)
      requires Valid() && q < head.q && q !in flags && 0 < q
      requires forall l :: l in bits ==> l.q != q
      modifies this
      ensures Valid() && SameContents(old(View()), View())
      ensures forall l :: l in fl ==> l.q != q
      ensures collecting == if old(collecting) == q then 0 else old(collecting)
    {
      ghost var s := View();
      hide Inv, SameContents;
      BlockBecameDirty(q, {});
      Erased(s, View(), q);
    }

    /** Starts or goes on collecting block `gcBlock`: all of it, or five chunks. */
    method GcBlock(whole: bool)
      requires Valid() && gcBlock != 0
      modifies this
      ensures Valid() && SameContents(old(View()), View())
      ensures whole ==> forall l :: l in fl ==> l.q != old(gcBlock)
    {
      var q := gcBlock;
      hide Inv, SameContents, BitsAre;
      StartCollecting(q);
      ghost var t := View();
      if forall l :: l in bits ==> l.q != q {
        EraseUnused(q);
      } else {
        GcChunks(q, if whole then cpb else 5);
      }
      SameContentsTrans(old(View()), t, View());
      if collecting == q {
        collecting := 0;
      } else {
        gcBlock, gcChunk := 0, 0;
      }
    }

    method GcChunks(q: nat, copies: nat)
      requires Valid() && 0 < q == gcBlock == collecting && q < head.q && q !in flags
      requires exists l :: l in bits && l.q == q
      modifies this
      ensures Valid() && SameContents(old(View()), View())
      ensures copies >= cpb ==> forall l :: l in fl ==> l.q != q
      ensures collecting != q ==> gcBlock == 0 || gcBlock == q
    {
      var maxCopies := copies;
      hide Inv, SameContents;
      SameContentsRefl(View());
      assert GcState(q);
      while gcChunk < cpb && collecting == q && maxCopies > 0
        invariant SameContents(old(View()), View()) && GcState(q)
        invariant copies >= cpb ==> maxCopies >= cpb - gcChunk
        decreases cpb - gcChunk
      {
        ghost var t := View();
        if Loc(q, gcChunk) in bits {
          maxCopies := maxCopies - 1;
        }
        GcNext(q);
        SameContentsTrans(old(View()), t, View());
      }
      assert forall l :: l in bits ==> Live(View(), l);
    }

    /** Where the collection of a block stands between two chunks. */
    ghost predicate GcState(q: nat)
      reads this
    {
      Valid() && 0 < q < head.q && q !in flags && (gcBlock == q || gcBlock == 0)
      && (forall l :: l in bits && l.q == q ==> l.p >= gcChunk)
      && ((forall l :: l in bits ==> l.q != q) ==> collecting != q && forall m :: m in fl ==> m.q != q)
      && (collecting == q || (collecting == 0 && forall m :: m in fl ==> m.q != q))
    }

    method GcNext(q: nat)
      requires GcState(q) && gcChunk < cpb && collecting == q
      modifies this
      ensures GcState(q) && SameContents(old(View()), View()) && gcChunk == old(gcChunk) + 1
    {
      hide Inv, SameContents;
      SameContentsRefl(View());
      if Loc(q, gcChunk) in bits {
        GcProcessChunk(Loc(q, gcChunk));
      }
      gcChunk := gcChunk + 1;
    }

    /** A candidate, once examined, stays one even if older blocks get discarded pages later. */
    method ConsiderForGc(q: nat)
      requires Valid() && 0 < q < head.q
      modifies `ods, `admitted, `gcDirtiest
      ensures Valid() && SameContents(old(View()), View())
    {
      var ok := BlockOkForGc(q);
      if ok {
        gcDirtiest := q;
      }
    }

    /** Picks the block to collect: the oldest one, the kept candidate, or a new candidate. */
    method FindGcBlock()
      requires Valid() && gcBlock == 0
      modifies `ods, `admitted, `gcDirtiest, `gcBlock, `gcChunk
      ensures Valid() && SameContents(old(View()), View())
    {
      var refresh: bool := *;
      var q: nat := *;
      hide Inv, SameContents, BitsAre;
      SameContentsRefl(View());
      gcChunk := 0;
      if refresh {
        gcBlock := FindRefreshBlock();
      } else {
        if 0 < q < head.q {
          ConsiderForGc(q);
        }
        gcBlock, gcDirtiest := gcDirtiest, 0;
      }
    }

    /** Garbage collection may run before any chunk is written. */
    method CheckGc()
      requires Valid()
      modifies this
      ensures Valid() && SameContents(old(View()), View())
    {
      var run: bool, whole: bool := *, *;
      hide Inv, SameContents, BitsAre;
      SameContentsRefl(View());
      if run {
        if gcBlock == 0 {
          FindGcBlock();
        }
        if gcBlock != 0 {
          ghost var t := View();
          GcBlock(whole);
          SameContentsTrans(old(View()), t, View());
        }
      }
    }

    // ----- file data -----

    lemma Written(s: State, u: State, o: nat, slot: nat, n: nat)
      requires Inv(cs, s) && CanWrite(cs, s, o, slot, n)
      requires u == Settled(DoWrite(cs, s, o, slot, n)).(ods := s.ods)
      ensures FileWrote(cs, s, u, o, slot, n)
      ensures slot in s.files[o].chunks ==>
                Inv(cs, u.(ods := Dirtied(u.ods, s.files[o].chunks[slot].q)))
      ensures slot !in s.files[o].chunks ==> Inv(cs, u)
      ensures forall m :: Live(u, m) <==> (Live(s, m) && m !in OldChunk(s, o, slot)) || m == s.head
      ensures forall m :: m in OldChunk(s, o, slot) ==> Live(s, m) && m in u.fl && m != s.head
    {
      assert LogOk(cs, s) && FilesOk(s) && ChunksOk(cs, s);
      hide Inv, FileWrote, LogOk, FilesOk, ChunksOk;
      var t := DoWrite(cs, s, o, slot, n);
      WriteKeeps(cs, s, o, slot, n);
      SettledKeeps(t);
      WriteSame(cs, s, o, slot, n);
      WriteLive(cs, s, o, slot, n);
      SettledWrote(s, t, u, o, slot, n);
      if slot in s.files[o].chunks {
        assert u.(ods := Dirtied(u.ods, s.files[o].chunks[slot].q)) == Settled(t);
      } else {
        assert u == Settled(t);
      }
    }

    lemma SettledWrote(s: State, t: State, u: State, o: nat, slot: nat, n: nat)
      requires FileWrote(cs, s, t, o, slot, n)
      requires u.fl == t.fl && u.files == t.files && u.trunc == t.trunc
      ensures FileWrote(cs, s, u, o, slot, n)
      ensures forall m :: Live(u, m) <==> Live(t, m)
    {
      forall o' | o' in s.files && o' != o
        ensures SameFile(s, u, o')
      {
        assert SameFile(s, t, o');
      }
    }

    /** The chunk is written and put in the file; the old one is still marked. */
    method WriteAndPut(o: nat, slot: nat, n: nat)
      requires GcOk() && CanWrite(cs, View(), o, slot, n)
      modifies `fl, `head, `bits, `files
      ensures View() == Settled(DoWrite(cs, old(View()), o, slot, n)).(ods := ods)
      ensures bits == old(bits) + {old(head)} && GcOk()
    {
      var f := files[o];
      var endpos := Base(cs, slot) + n;
      if f.storedSize < endpos {
        f := f.(storedSize := endpos);
      }
      var l := WriteNewChunk(Data(o, slot, n));
      f := f.(chunks := f.chunks[slot := l]);
      if f.fileSize < endpos {
        f := f.(fileSize := endpos);
      }
      files := files[o := f];
    }

    method WriteAndReplace(o: nat, slot: nat, n: nat)
      requires Valid() && CanWrite(cs, View(), o, slot, n)
      modifies this
      ensures Valid() && FileWrote(cs, old(View()), View(), o, slot, n)
    {
      ghost var s := View();
      hide Inv, FileWrote, Live;
      var prev := if slot in files[o].chunks then [files[o].chunks[slot]] else [];
      WriteAndPut(o, slot, n);
      ghost var t := View();
      Written(s, t, o, slot, n);
      SameContentsRefl(s);
      KeepsLiveRefl(t);
      if |prev| > 0 {
        ChunkDel(prev[0], {});
      }
      KeptSameInv(t, View());
      WroteTrans(cs, s, s, t, View(), o, slot, n);
    }

    lemma CanWriteStays(s: State, s': State, o: nat, slot: nat, n: nat)
      requires CanWrite(cs, s, o, slot, n) && SameContents(s, s')
      ensures CanWrite(cs, s', o, slot, n)
    {
      assert SameFile(s, s', o);
    }

    /** Collects if need be, then writes one chunk of a file. */
    method WrDataObj(o: nat, slot: nat, n: nat)
      requires Valid() && CanWrite(cs, View(), o, slot, n)
      modifies this
      ensures Valid() && FileWrote(cs, old(View()), View(), o, slot, n)
    {
      hide Inv, FileWrote, SameContents, CanWrite, GcOk, BitsAre;
      CheckGc();
      ghost var t := View();
      CanWriteStays(old(View()), t, o, slot, n);
      WriteAndReplace(o, slot, n);
      SameContentsRefl(View());
      WroteTrans(cs, old(View()), t, View(), View(), o, slot, n);
    }

    // ----- object headers -----

    lemma Reheaded(s: State, u: State, o: nat, shrink: bool, z: nat)
      requires Inv(cs, s) && CanRehead(s, o, shrink, z)
      requires u == Settled(Rehead(s, o, shrink, z)).(ods := s.ods)
      ensures HeaderWrote(s, u, o, z)
      ensures Inv(cs, u.(ods := Dirtied(u.ods, s.files[o].hdr.q)))
      ensures forall m :: Live(u, m) <==> (Live(s, m) && m != s.files[o].hdr) || m == s.head
      ensures Live(s, s.files[o].hdr) && s.files[o].hdr != s.head && s.files[o].hdr in u.fl
    {
      assert LogOk(cs, s) && FilesOk(s) && ChunksOk(cs, s);
      hide Inv, HeaderWrote, LogOk, FilesOk, ChunksOk;
      var t := Rehead(s, o, shrink, z);
      if shrink {
        HoleKeeps(cs, s, o, z);
      } else {
        PutHeaderKeeps(cs, s, o);
      }
      SettledKeeps(t);
      ReheadSame(cs, s, o, shrink, z);
      ReheadLive(cs, s, o, shrink, z);
      SettledHead(s, t, u, o, z);
      assert u.(ods := Dirtied(u.ods, s.files[o].hdr.q)) == Settled(t);
    }

    lemma SettledHead(s: State, t: State, u: State, o: nat, z: nat)
      requires HeaderWrote(s, t, o, z)
      requires u.fl == t.fl && u.files == t.files && u.trunc == t.trunc
      ensures HeaderWrote(s, u, o, z)
      ensures forall m :: Live(u, m) <==> Live(t, m)
    {
      forall o' | o' in s.files && o' != o
        ensures SameFile(s, u, o')
      {
        assert SameFile(s, t, o');
      }
    }

    /** The header is written; the old one is still marked. A shrink header marks its block. */
    method WriteHeader(o: nat, shrink: bool, z: nat)
      requires GcOk() && CanRehead(View(), o, shrink, z)
      modifies `fl, `head, `bits, `files, `flags, `trunc
      ensures View() == Settled(Rehead(old(View()), o, shrink, z)).(ods := ods)
      ensures bits == old(bits) + {old(head)} && GcOk()
    {
      var f := files[o];
      var l := WriteNewChunk(Header(o, f.storedSize, shrink, false));
      f := f.(hdr := l);
      if shrink {
        flags := flags + {l.q};
        f := f.(fileSize := z);
      } else {
        trunc := trunc - {o};
      }
      files := files[o := f];
    }

    method RewriteHeader(o: nat, shrink: bool, z: nat)
      requires Valid() && CanRehead(View(), o, shrink, z)
      modifies this
      ensures Valid() && HeaderWrote(old(View()), View(), o, z)
    {
      ghost var s := View();
      hide Inv, HeaderWrote, Live;
      var prev := files[o].hdr;
      WriteHeader(o, shrink, z);
      ghost var t := View();
      Reheaded(s, t, o, shrink, z);
      SameContentsRefl(s);
      ChunkDel(prev, {});
      KeptSameInv(t, View());
      HeaderWroteTrans(s, s, t, View(), o, z);
    }

    /** Writes the header of a file again. Ends a truncation. */
    method UpdateOh(o: nat)
      requires Valid() && CanPutHeader(View(), o)
      modifies this
      ensures Valid() && HeaderWrote(old(View()), View(), o, old(files[o].fileSize))
    {
      hide Inv, HeaderWrote, GcOk, BitsAre;
      ghost var s, z := View(), files[o].fileSize;
      CheckGc();
      ghost var t := View();
      assert SameFile(s, t, o);
      hide SameContents;
      RewriteHeader(o, false, files[o].fileSize);
      SameContentsRefl(View());
      HeaderWroteTrans(s, t, View(), View(), o, z);
    }

    /** A start-of-hole marker: a shrink header with the old stored size. */
    method WriteHoleMarker(o: nat, z: nat)
      requires Valid() && CanHole(View(), o, z)
      modifies this
      ensures Valid() && HoleMarked(old(View()), View(), o, z)
    {
      ghost var s := View();
      hide Inv, HeaderWrote, GcOk, BitsAre;
      CheckGc();
      ghost var t := View();
      assert SameFile(s, t, o);
      hide SameContents;
      RewriteHeader(o, true, z);
      SameContentsRefl(View());
      HeaderWroteTrans(s, t, View(), View(), o, z);
    }

    /** The first chunk of a write at `offset`: how much was copied. */
    method WritePiece(o: nat, offset: nat, n: nat) returns (nCopy: nat)
      requires Valid() && o in files && o !in trunc && 0 < n && offset <= files[o].fileSize
      requires offset / cs + 1 <= MAX_CHUNK_ID
      modifies this
      ensures Valid() && 0 < nCopy <= n
      ensures RangeWrote(cs, old(View()), View(), o, offset, offset + nCopy)
    {
      ghost var s := View();
      hide Inv, BitsAre, Base, RangeWrote, FileWrote, CanWrite;
      var nWriteback: nat;
      nCopy, nWriteback := PieceShare(cs, files[o].fileSize, offset, n);
      hide GcOk;
      PieceCanBeWritten(cs, s, o, offset, nWriteback);
      WrDataObj(o, offset / cs + 1, nWriteback);
      PieceIsRange(cs, s, View(), o, offset, nCopy, nWriteback);
    }

    /** Writes `n` bytes at `offset`, chunk by chunk. */
    method DoFileWr(o: nat, offset: nat, n: nat)
      requires Valid() && o in files && o !in trunc && offset <= files[o].fileSize
      requires offset + n <= MAX_CHUNK_ID * cs
      modifies this
      ensures Valid()
      ensures RangeWrote(cs, old(View()), View(), o, offset, offset + n)
    {
      hide Inv, GcOk, BitsAre, RangeWrote;
      ghost var s := View();
      var done := 0;
      RangeNone(cs, s, o, offset);
      while done < n
        invariant done <= n && Valid() && RangeWrote(cs, s, View(), o, offset, offset + done)
        decreases n - done
      {
        ghost var t := View();
        SlotLimitHere(offset + done);
        RangeReaches(s, t, o, offset, offset + done);
        var nCopy := WritePiece(o, offset + done, n - done);
        RangeTrans(cs, s, t, View(), o, offset, offset + done, offset + done + nCopy);
        done := done + nCopy;
      }
    }

    lemma RangeReaches(s: State, t: State, o: nat, offset: int, end: int)
      requires RangeWrote(cs, s, t, o, offset, end)
      ensures o in t.files && t.files[o].fileSize >= end && t.trunc == s.trunc
      ensures o in s.files && t.files[o].fileSize == Grow(s.files[o].fileSize, end)
    {}

    lemma SlotLimitHere(offset: nat)
      requires Valid() && offset < MAX_CHUNK_ID * cs
      ensures offset / cs + 1 <= MAX_CHUNK_ID
    {
      SlotLimit(cs, offset);
    }

    /** Before a file grows past its end: zeros over a small hole, else a hole marker. */
    method HandleHole(o: nat, newSize: nat)
      requires Valid() && o in files && o !in trunc && newSize <= MAX_CHUNK_ID * cs
      modifies this
      ensures Valid() && (newSize <= old(files)[o].fileSize ==> View() == old(View()))
      ensures newSize > old(files)[o].fileSize ==>
                || RangeWrote(cs, old(View()), View(), o, old(files)[o].fileSize, newSize)
                || HoleMarked(old(View()), View(), o, newSize)
    {
      hide Inv, GcOk, BitsAre, RangeWrote, HoleMarked;
      if newSize <= files[o].fileSize {
        return;
      }
      var increase := newSize - files[o].fileSize;
      var spaceForHole: bool := *;
      if increase < 4 * cs && spaceForHole {
        FillWithZeros(o, newSize);
      } else {
        WriteHoleMarker(o, newSize);
      }
    }

    method FillWithZeros(o: nat, newSize: nat)
      requires Valid() && o in files && o !in trunc && newSize <= MAX_CHUNK_ID * cs
      requires files[o].fileSize <= newSize
      modifies this
      ensures Valid() && RangeWrote(cs, old(View()), View(), o, old(files)[o].fileSize, newSize)
    {
      hide Inv, BitsAre, RangeWrote;
      ghost var s, size := View(), files[o].fileSize;
      var pos := files[o].fileSize;
      RangeNone(cs, s, o, pos);
      while pos < newSize
        invariant size <= pos <= newSize && Valid() && RangeWrote(cs, s, View(), o, size, pos)
      {
        ghost var t := View();
        var thisWrite := if newSize - pos > cs then cs else newSize - pos;
        RangeReaches(s, t, o, size, pos);
        DoFileWr(o, pos, thisWrite);
        RangeTrans(cs, s, t, View(), o, size, pos, pos + thisWrite);
        pos := pos + thisWrite;
      }
    }

    /** Writes a range of a file, first dealing with a hole before it. */
    method WrFile(o: nat, offset: nat, n: nat)
      requires Valid() && o in files && o !in trunc && offset + n <= MAX_CHUNK_ID * cs
      modifies this
      ensures Valid()
      ensures var size := old(files)[o].fileSize;
        WroteFrom(cs, old(View()), View(), o, if offset < size then offset else size, offset, offset + n)
    {
      assert cs > 0;
      hide Inv, GcOk, BitsAre, RangeWrote, HoleMarked, WroteFrom;
      ghost var s, size := View(), files[o].fileSize;
      HandleHole(o, offset);
      ghost var t := View();
      Ready(s, t, o, offset);
      DoFileWr(o, offset, n);
      WroteResult(s, t, View(), o, size, offset, n);
    }

    lemma WroteResult(s: State, t: State, u: State, o: nat, size: nat, offset: nat, n: nat)
      requires cs > 0 && o in s.files && s.files[o].fileSize == size
      requires if offset <= size then t == s
               else RangeWrote(cs, s, t, o, size, offset) || HoleMarked(s, t, o, offset)
      requires RangeWrote(cs, t, u, o, offset, offset + n)
      ensures WroteFrom(cs, s, u, o, if offset < size then offset else size, offset, offset + n)
    {
      hide RangeWrote, HoleMarked, WroteFrom;
      if offset <= size {
        RangeNone(cs, s, o, offset);
        FilledThenWrote(cs, s, t, u, o, offset, offset, offset + n);
      } else if RangeWrote(cs, s, t, o, size, offset) {
        FilledThenWrote(cs, s, t, u, o, size, offset, offset + n);
      } else {
        MarkedThenWrote(cs, s, t, u, o, size, offset, offset + n);
      }
    }

    /** Once a hole has been dealt with the file reaches to where it is to be written. */
    lemma Ready(s: State, t: State, o: nat, offset: nat)
      requires o in s.files && (offset <= s.files[o].fileSize ==> t == s)
      requires offset > s.files[o].fileSize ==>
                 RangeWrote(cs, s, t, o, s.files[o].fileSize, offset) || HoleMarked(s, t, o, offset)
      ensures o in t.files && t.files[o].fileSize >= offset && (o !in s.trunc ==> t.trunc == s.trunc)
      ensures t.files[o].fileSize == Grow(s.files[o].fileSize, offset) && t.files.Keys == s.files.Keys
      ensures forall o' :: o' in s.files && o' != o ==> SameFile(s, t, o')
    {}

    // ----- cutting down and deleting -----

    lemma Dropped(s: State, u: State, o: nat, slot: nat)
      requires Inv(cs, s) && CanDrop(cs, s, o, slot) && u == DoDrop(s, o, slot).(ods := s.ods)
      ensures Inv(cs, u.(ods := Dirtied(u.ods, s.files[o].chunks[slot].q)))
      ensures OnlyDropped(s, u, o, slot)
      ensures forall m :: Live(u, m) <==> Live(s, m) && m != s.files[o].chunks[slot]
      ensures Live(s, s.files[o].chunks[slot])
    {
      assert LogOk(cs, s) && ChunksOk(cs, s);
      hide Inv, LogOk, ChunksOk, OnlyDropped;
      DropKeeps(cs, s, o, slot);
      DropSame(cs, s, o, slot);
      DropLive(cs, s, o, slot);
      var t := DoDrop(s, o, slot);
      assert u.(ods := Dirtied(u.ods, s.files[o].chunks[slot].q)) == t;
      DroppedSettled(s, t, u, o, slot);
    }

    lemma DroppedSettled(s: State, t: State, u: State, o: nat, slot: nat)
      requires OnlyDropped(s, t, o, slot) && u.fl == t.fl && u.files == t.files && u.trunc == t.trunc
      ensures OnlyDropped(s, u, o, slot)
      ensures forall m :: Live(u, m) <==> Live(t, m)
    {}

    method DropChunk(o: nat, slot: nat)
      requires Valid() && CanDrop(cs, View(), o, slot)
      modifies this
      ensures Valid() && OnlyDropped(old(View()), View(), o, slot) && slot !in files[o].chunks
    {
      ghost var s := View();
      hide Inv, OnlyDropped, Live;
      var l := files[o].chunks[slot];
      files := files[o := files[o].(chunks := files[o].chunks - {slot})];
      ghost var t := View();
      Dropped(s, t, o, slot);
      LiveThere(s, l);
      ChunkDel(l, {});
      KeptSameInv(t, View());
      DroppedTrans(s, t, View(), o, slot, slot);
    }

    lemma LiveThere(s: State, l: Loc)
      requires Live(s, l)
      ensures l in s.fl
    {}

    method PruneOne(o: nat, i: nat, newSize: nat)
      requires Valid() && o in files && o in trunc && trunc[o] == newSize
      requires i >= (newSize + cs - 1) / cs + 1
      modifies this
      ensures Valid() && OnlyDropped(old(View()), View(), o, i) && i !in files[o].chunks
      ensures o in files && o in trunc && trunc[o] == newSize
      ensures files[o].chunks.Keys <= old(files)[o].chunks.Keys
    {
      hide Inv, BitsAre;
      DroppedRefl(View(), o, i);
      if i in files[o].chunks {
        StartBeyond(newSize, i);
        DropChunk(o, i);
      }
    }

    lemma LastSlots(o: nat)
      requires Valid() && o in files && files[o].fileSize > 0
      ensures cs > 0
      ensures forall t :: t in files[o].chunks ==> t <= (files[o].fileSize - 1) / cs + 1
    {
      forall t | t in files[o].chunks
        ensures t <= (files[o].fileSize - 1) / cs + 1
      {
        LastSlot(cs, View(), o, t);
      }
    }

    /** Pulls the chunks at or beyond the new size out of the file, last one first. */
    method PruneChunks(o: nat, newSize: nat)
      requires Valid() && o in files && o in trunc && trunc[o] == newSize < files[o].fileSize
      modifies this
      ensures Valid() && OnlyDropped(old(View()), View(), o, (newSize + cs - 1) / cs + 1)
      ensures forall t :: t in files[o].chunks <==> t in old(files)[o].chunks && t <= (newSize + cs - 1) / cs
    {
      hide Inv, BitsAre, OnlyDropped, GcOk, Valid;
      ghost var s := View();
      LastSlots(o);
      DroppedRefl(s, o, (newSize + cs - 1) / cs + 1);
      var lastDel := (files[o].fileSize - 1) / cs + 1;
      var startDel := (newSize + cs - 1) / cs + 1;
      var i := lastDel;
      while i >= startDel
        invariant Valid() && OnlyDropped(s, View(), o, startDel)
        invariant o in files && o in trunc && trunc[o] == newSize
        invariant forall t :: t in files[o].chunks ==> t <= i || t < startDel
        decreases i - startDel
      {
        ghost var t := View();
        PruneOne(o, i, newSize);
        DroppedTrans(s, t, View(), o, startDel, i);
        i := i - 1;
      }
      KeptBelow(s, View(), o, startDel);
    }

    lemma KeptBelow(s: State, s': State, o: nat, from: nat)
      requires OnlyDropped(s, s', o, from) && forall t :: t in s'.files[o].chunks ==> t < from
      ensures forall t :: t in s'.files[o].chunks <==> t in s.files[o].chunks && t < from
    {}

    lemma StartBeyond(z: nat, i: nat)
      requires cs > 0 && i >= (z + cs - 1) / cs + 1
      ensures Base(cs, i) >= z
    {
      AddrToChunk(cs, z + cs - 1);
      var k := (z + cs - 1) / cs;
      TimesPlus(k, i - 1 - k);
    }

    lemma TimesPlus(k: nat, d: nat)
      ensures (k + d) * cs == k * cs + d * cs && d * cs >= 0
    {}

    /** Chunks up to the last one kept end by the new size, once the last one is padded. */
    lemma EndsBy(z: nat, t: nat, len: int)
      requires cs > 0 && 1 <= t <= (z + cs - 1) / cs && len <= cs
      requires t == z / cs + 1 ==> len == z % cs
      ensures Base(cs, t) + len <= z
    {
      AddrToChunk(cs, z);
      AddrToChunk(cs, z + cs - 1);
      var k := (z + cs - 1) / cs;
      assert (k - t) * cs >= 0;
      assert Base(cs, t) == k * cs - cs - (k - t) * cs;
      BaseNonNegative(cs, t);
      SlotOf(cs, t, z);
      if t < z / cs + 1 {
        SpanApart(cs, t, z / cs + 1);
      }
    }

    lemma MayShrink(o: nat, z: nat)
      requires Valid() && o in files && o in trunc && trunc[o] == z
      requires forall t :: t in files[o].chunks ==> t <= (z + cs - 1) / cs
      requires z / cs + 1 in files[o].chunks ==> PieceLen(View(), o, z / cs + 1) == z % cs
      ensures CanSetSize(cs, View(), o)
    {
      var s := View();
      forall t | t in files[o].chunks && IsData(fl, files[o].chunks[t], o, t)
        ensures EndPos(cs, fl[files[o].chunks[t]]) <= z
      {
        LastSlot(cs, s, o, t);
        EndsBy(z, t, PieceLen(s, o, t));
      }
    }

    /** The sizes of a file that was cut down. */
    method SetSizes(o: nat, z: nat)
      requires Valid() && o in files && o in trunc && trunc[o] == z && CanSetSize(cs, View(), o)
      modifies `files
      ensures Valid() && trunc == old(trunc) && files.Keys == old(files).Keys
      ensures files[o].fileSize == files[o].storedSize == z
      ensures files[o].chunks == old(files)[o].chunks
      ensures forall o' :: o' in files && o' != o ==> SameFile(old(View()), View(), o')
    {
      ghost var s := View();
      hide Inv, CanSetSize, SameFile, Live, GcOk;
      SetSizeKeeps(cs, s, o);
      SetSizeSame(s, o);
      files := files[o := files[o].(fileSize := z, storedSize := z)];
      assert View() == DoSetSize(s, o);
    }

    method StartCut(o: nat, z: nat)
      requires Valid() && CanCut(View(), o, z)
      modifies `trunc
      ensures Valid() && trunc == old(trunc)[o := z]
    {
      ghost var s := View();
      hide Inv, GcOk;
      CutKeeps(cs, s, o, z);
      trunc := trunc[o := z];
      assert forall l :: Live(View(), l) <==> Live(s, l);
    }

    /** Cuts file `o` down to `z`. Its header is not written yet. */
    method ResizeFileDown(o: nat, z: nat)
      requires Valid() && CanCut(View(), o, z) && z < MAX_CHUNK_ID * cs
      modifies this
      ensures Valid() && CutTo(cs, old(View()), View(), o, z) && trunc == old(trunc)[o := z]
    {
      ghost var s := View();
      hide Inv, BitsAre;
      SlotLimit(cs, z);
      StartCut(o, z);
      ghost var t := View();
      hide OnlyDropped;
      PruneChunks(o, z);
      ghost var u := View();
      PrunedParts(t, u, o, (z + cs - 1) / cs + 1);
      PadLastChunk(o, z);
      ghost var v := View();
      hide GcOk, Padded;
      SetSizes(o, z);
      CutComposed(s, t, u, v, View(), o, z);
    }

    lemma PrunedParts(t: State, u: State, o: nat, from: nat)
      requires OnlyDropped(t, u, o, from)
      ensures u.files.Keys == t.files.Keys && u.trunc == t.trunc && o in u.files
      ensures u.files[o].fileSize == t.files[o].fileSize
    {}

    lemma CutComposed(s: State, t: State, u: State, v: State, w: State, o: nat, z: nat)
      requires cs > 0 && t.files == s.files && t.fl == s.fl
      requires OnlyDropped(t, u, o, (z + cs - 1) / cs + 1)
      requires forall i :: i in u.files[o].chunks <==> i in t.files[o].chunks && i <= (z + cs - 1) / cs
      requires Padded(u, v, o, z)
      requires w.fl == v.fl && w.files.Keys == v.files.Keys && w.files[o].chunks == v.files[o].chunks
      requires w.files[o].fileSize == w.files[o].storedSize == z
      requires forall o' :: o' in w.files && o' != o ==> SameFile(v, w, o')
      ensures CutTo(cs, s, w, o, z)
    {
      CutOthers(s, t, u, v, w, o);
      CutPieces(s, t, u, v, w, o, z);
    }

    lemma CutPieces(s: State, t: State, u: State, v: State, w: State, o: nat, z: nat)
      requires cs > 0 && t.files == s.files && t.fl == s.fl
      requires OnlyDropped(t, u, o, (z + cs - 1) / cs + 1)
      requires forall i :: i in u.files[o].chunks <==> i in t.files[o].chunks && i <= (z + cs - 1) / cs
      requires Padded(u, v, o, z)
      requires w.fl == v.fl && w.files.Keys == v.files.Keys && w.files[o].chunks == v.files[o].chunks
      ensures forall i: nat :: i in w.files[o].chunks <==>
                (i in s.files[o].chunks && Base(cs, i) < z) || Straddles(cs, i, z)
      ensures forall i: nat :: i in w.files[o].chunks ==>
                PieceLen(w, o, i) == if Straddles(cs, i, z) then z - Base(cs, i) else PieceLen(s, o, i)
    {
      hide Base, Straddles, SameFile;
      forall i: nat
        ensures i in w.files[o].chunks <==> (i in s.files[o].chunks && Base(cs, i) < z) || Straddles(cs, i, z)
      {
        StartsBelow(cs, z, i);
        OnlyStraddled(cs, z, i);
      }
      forall i: nat | i in w.files[o].chunks
        ensures PieceLen(w, o, i) == if Straddles(cs, i, z) then z - Base(cs, i) else PieceLen(s, o, i)
      {
        OnlyStraddled(cs, z, i);
        assert PieceLen(w, o, i) == PieceLen(v, o, i);
      }
    }

    lemma CutOthers(s: State, t: State, u: State, v: State, w: State, o: nat)
      requires t.files == s.files && t.fl == s.fl && t.files.Keys == u.files.Keys == v.files.Keys == w.files.Keys
      requires forall o' :: o' in t.files && o' != o ==> SameFile(t, u, o')
      requires forall o' :: o' in u.files && o' != o ==> SameFile(u, v, o')
      requires forall o' :: o' in w.files && o' != o ==> SameFile(v, w, o')
      ensures forall o' :: o' in s.files && o' != o ==> SameFile(s, w, o')
    {
      forall o' | o' in s.files && o' != o
        ensures SameFile(s, w, o')
      {
        assert SameFile(t, u, o') && SameFile(u, v, o') && SameFile(v, w, o');
      }
    }

    /** The chunk that reaches past `z`, if any, was written again up to there. */
    ghost predicate Padded(s: State, s': State, o: nat, z: nat)
      requires cs > 0
    {
      && s'.files.Keys == s.files.Keys && s'.trunc == s.trunc
      && (forall o' :: o' in s.files && o' != o ==> SameFile(s, s', o'))
      && o in s.files
      && (forall t: nat :: t in s'.files[o].chunks <==>
            t in s.files[o].chunks || (z % cs != 0 && t == z / cs + 1))
      && (forall t: nat :: t in s'.files[o].chunks ==>
            PieceLen(s', o, t) == if z % cs != 0 && t == z / cs + 1 then z % cs else PieceLen(s, o, t))
    }

    /** Rewrites a last chunk that is only partly kept. */
    method PadLastChunk(o: nat, z: nat)
      requires Valid() && o in files && o in trunc && trunc[o] == z < files[o].fileSize
      requires z / cs + 1 <= MAX_CHUNK_ID
      requires forall t :: t in files[o].chunks ==> t <= (z + cs - 1) / cs
      modifies this
      ensures Valid() && Padded(old(View()), View(), o, z)
      ensures CanSetSize(cs, View(), o)
    {
      ghost var s := View();
      hide Inv, BitsAre;
      AddrToChunk(cs, z);
      AddrToChunk(cs, z + cs - 1);
      if z % cs != 0 {
        PartialIsLast(z);
        WrDataObj(o, 1 + z / cs, z % cs);
      } else {
        WholeIsLast(z);
      }
      hide GcOk;
      MayShrink(o, z);
    }

    lemma PartialIsLast(z: nat)
      requires cs > 0 && z % cs != 0
      ensures z / cs + 1 <= (z + cs - 1) / cs
    {
      AddrToChunk(cs, z);
      SlotOf(cs, z / cs + 2, z + cs - 1);
    }

    lemma WholeIsLast(z: nat)
      requires cs > 0 && z % cs == 0
      ensures (z + cs - 1) / cs < z / cs + 1
    {
      AddrToChunk(cs, z);
      AddrToChunk(cs, z + cs - 1);
      if z / cs + 1 < (z + cs - 1) / cs + 1 {
        SpanApart(cs, z / cs + 1, (z + cs - 1) / cs + 1);
      }
    }

    /** File `o` was resized from where it was to `z`. */
    ghost predicate Resized(s: State, s': State, o: nat, z: nat)
      requires cs > 0 && o in s.files
    {
      if z < s.files[o].fileSize then CutTo(cs, s, s', o, z)
      else if z == s.files[o].fileSize then SameContents(s, s')
      else RangeWrote(cs, s, s', o, s.files[o].fileSize, z) || HoleMarked(s, s', o, z)
    }

    /** Sets the size of a file. */
    method ResizeFile(o: nat, newSize: nat)
      requires Valid() && o in files && trunc == map[] && newSize < MAX_CHUNK_ID * cs
      modifies this
      ensures Valid() && trunc == map[] && Resized(old(View()), View(), o, newSize)
    {
      ghost var s := View();
      assert cs > 0;
      hide Inv, BitsAre, GcOk, Resized, SameContents, HeaderWrote, CanPutHeader;
      CheckGc();
      ghost var t := View();
      SameParts(s, t, o);
      if newSize == files[o].fileSize {
        NotResized(s, t, o);
        return;
      }
      ChangeSize(o, newSize);
      ghost var u := View();
      UpdateOh(o);
      ResizedThrough(s, t, u, View(), o, newSize);
    }

    method ChangeSize(o: nat, newSize: nat)
      requires Valid() && o in files && trunc == map[] && newSize < MAX_CHUNK_ID * cs
      requires newSize != files[o].fileSize
      modifies this
      ensures Valid() && Resized(old(View()), View(), o, newSize)
      ensures CanPutHeader(View(), o) && files[o].fileSize == newSize && trunc.Keys <= {o}
    {
      ghost var s := View();
      hide Inv, BitsAre, GcOk, RangeWrote, HoleMarked, CutTo;
      if newSize > files[o].fileSize {
        HandleHole(o, newSize);
        Ready(s, View(), o, newSize);
      } else {
        ResizeFileDown(o, newSize);
        SizeCut(s, View(), o, newSize);
      }
    }

    lemma SameParts(s: State, t: State, o: nat)
      requires SameContents(s, t) && o in s.files
      ensures o in t.files && t.files[o].fileSize == s.files[o].fileSize && t.trunc == s.trunc
    {
      assert SameFile(s, t, o);
    }

    lemma NotResized(s: State, s': State, o: nat)
      requires cs > 0 && o in s.files && SameContents(s, s')
      ensures Resized(s, s', o, s.files[o].fileSize)
    {}

    lemma SizeCut(s: State, s': State, o: nat, z: nat)
      requires cs > 0 && CutTo(cs, s, s', o, z)
      ensures o in s'.files && s'.files[o].fileSize == s'.files[o].storedSize == z
    {}

    lemma ResizedThrough(a: State, b: State, c: State, d: State, o: nat, z: nat)
      requires cs > 0 && o in a.files && SameContents(a, b) && Resized(b, c, o, z) && o in c.files
      requires z != a.files[o].fileSize && c.files[o].fileSize == z && HeaderWrote(c, d, o, z)
      requires a.trunc == map[] && c.trunc.Keys <= {o}
      ensures Resized(a, d, o, z) && d.trunc == map[]
    {
      assert SameFile(a, b, o);
      SameFileTrans(a, b, c);
      SameFileTrans(a, c, d);
      if z < a.files[o].fileSize {
        CutThrough(a, b, c, d, o, z);
      } else if RangeWrote(cs, b, c, o, a.files[o].fileSize, z) {
        RangeThrough(a, b, c, d, o, z);
      }
    }

    lemma CutThrough(a: State, b: State, c: State, d: State, o: nat, z: nat)
      requires o in a.files && SameContents(a, b) && CutTo(cs, b, c, o, z) && HeaderWrote(c, d, o, z)
      ensures CutTo(cs, a, d, o, z)
    {
      hide Base, Straddles, SameFile, PieceLen;
      OthersThrough(a, b, c, d, o);
      PiecesThrough(a, b, c, d, o, z);
    }

    lemma PiecesThrough(a: State, b: State, c: State, d: State, o: nat, z: nat)
      requires o in a.files && SameContents(a, b) && CutTo(cs, b, c, o, z) && HeaderWrote(c, d, o, z)
      ensures forall t: nat :: t in d.files[o].chunks <==>
                (t in a.files[o].chunks && Base(cs, t) < z) || Straddles(cs, t, z)
      ensures forall t: nat :: t in d.files[o].chunks ==>
                PieceLen(d, o, t) == if Straddles(cs, t, z) then z - Base(cs, t) else PieceLen(a, o, t)
    {
      hide Base, Straddles;
      assert SameFile(a, b, o);
    }

    lemma OthersThrough(a: State, b: State, c: State, d: State, o: nat)
      requires SameContents(a, b) && b.files.Keys == c.files.Keys
      requires forall o' :: o' in b.files && o' != o ==> SameFile(b, c, o')
      requires forall o' :: o' in c.files && o' != o ==> SameFile(c, d, o')
      ensures forall o' :: o' in a.files && o' != o ==> SameFile(a, d, o')
    {
      forall o' | o' in a.files && o' != o
        ensures SameFile(a, d, o')
      {
        assert SameFile(a, b, o') && SameFile(b, c, o') && SameFile(c, d, o');
      }
    }

    lemma RangeThrough(a: State, b: State, c: State, d: State, o: nat, z: nat)
      requires o in a.files && SameContents(a, b) && HeaderWrote(c, d, o, z) && a.trunc == d.trunc
      requires RangeWrote(cs, b, c, o, b.files[o].fileSize, z) && z >= b.files[o].fileSize
      ensures RangeWrote(cs, a, d, o, a.files[o].fileSize, z)
    {
      hide Base, Touches, SameFile, PieceLen;
      OthersThrough(a, b, c, d, o);
      RangePieces(a, b, c, d, o, z);
      SameSizes(a, b, o);
    }

    lemma SameSizes(a: State, b: State, o: nat)
      requires o in a.files && SameContents(a, b)
      ensures o in b.files && b.files[o].fileSize == a.files[o].fileSize && b.files[o].storedSize == a.files[o].storedSize
    {
      assert SameFile(a, b, o);
    }

    lemma RangePieces(a: State, b: State, c: State, d: State, o: nat, z: nat)
      requires o in a.files && SameContents(a, b) && HeaderWrote(c, d, o, z)
      requires RangeWrote(cs, b, c, o, b.files[o].fileSize, z) && z >= b.files[o].fileSize
      ensures forall t: nat :: t in d.files[o].chunks <==>
                t in a.files[o].chunks || Touches(cs, t, a.files[o].fileSize, z)
      ensures forall t: nat :: Touches(cs, t, a.files[o].fileSize, z) ==>
                PieceLen(d, o, t) == Within(cs, d.files[o].fileSize, t)
      ensures forall t: nat :: !Touches(cs, t, a.files[o].fileSize, z) ==> PieceLen(d, o, t) == PieceLen(a, o, t)
    {
      hide Base, Touches, Within, PieceLen;
      SameLens(a, b, o);
      HeaderLens(c, d, o, z);
    }

    lemma SameLens(a: State, b: State, o: nat)
      requires o in a.files && SameContents(a, b)
      ensures o in b.files && b.files[o].fileSize == a.files[o].fileSize
      ensures b.files[o].chunks.Keys == a.files[o].chunks.Keys
      ensures forall t: nat :: PieceLen(b, o, t) == PieceLen(a, o, t)
    {
      assert SameFile(a, b, o);
    }

    lemma HeaderLens(c: State, d: State, o: nat, z: nat)
      requires HeaderWrote(c, d, o, z)
      ensures d.files[o].chunks.Keys == c.files[o].chunks.Keys
      ensures forall t: nat :: PieceLen(d, o, t) == PieceLen(c, o, t)
    {}

    lemma Deleted(s: State, u: State, o: nat)
      requires Inv(cs, s) && CanDelete(s, o) && u == Settled(DoDelete(s, o)).(ods := s.ods)
      ensures Inv(cs, u.(ods := Dirtied(u.ods, s.files[o].hdr.q)))
      ensures forall o' :: o' in s.files && o' != o ==> SameFile(s, u, o')
      ensures forall m :: Live(u, m) <==> Live(s, m) && m != s.files[o].hdr
    {
      DeletedParts(s);
      hide Inv, LogOk, FilesOk, ChunksOk;
      var t := DoDelete(s, o);
      DeleteKeeps(cs, s, o);
      SettledKeeps(t);
      DeleteSame(cs, s, o);
      DeletedSettled(s, t, u, o);
      hide DoDelete, Settled, CanDelete, Live, SameFile;
    }

    lemma DeletedSettled(s: State, t: State, u: State, o: nat)
      requires CanDelete(s, o) && t == DoDelete(s, o) && u == Settled(t).(ods := s.ods)
      ensures u.(ods := Dirtied(u.ods, s.files[o].hdr.q)) == Settled(t)
      ensures forall m :: Live(u, m) <==> Live(t, m)
      ensures forall o' :: o' in s.files && o' != o && SameFile(s, t, o') ==> SameFile(s, u, o')
    {}

    lemma DeletedParts(s: State)
      requires Inv(cs, s)
      ensures LogOk(cs, s) && FilesOk(s) && ChunksOk(cs, s)
    {}

    lemma DeletedHeads(s: State, u: State, o: nat)
      requires Inv(cs, s) && CanDelete(s, o) && u == Settled(DoDelete(s, o)).(ods := s.ods)
      requires forall m :: Live(u, m) <==> Live(s, m) && m != s.files[o].hdr
      ensures Live(s, s.files[o].hdr) && s.head in u.fl && !Live(u, s.head) && s.head !in s.fl
      ensures s.files[o].hdr in u.fl && s.head.q >= 1 && u.head.q >= s.head.q
    {
      HeadPositive(s);
    }

    lemma HeadPositive(s: State)
      requires Inv(cs, s)
      ensures s.head.q >= 1
    {}

    /** Writes the deletion header, frees the object and deletes both its headers. */
    method WriteDeletion(o: nat)
      requires GcOk() && CanDelete(View(), o)
      modifies `fl, `head, `bits, `files, `flags
      ensures View() == Settled(DoDelete(old(View()), o)).(ods := ods)
      ensures bits == old(bits) + {old(head)} && GcOk()
    {
      var l := WriteNewChunk(Header(o, 0, true, true));
      flags := flags + {l.q};
      files := files - {o};
    }

    method GenericObjDel(o: nat)
      requires Valid() && CanDelete(View(), o)
      modifies this
      ensures Valid() && trunc == old(trunc) && files.Keys == old(files).Keys - {o}
      ensures forall o' :: o' in files ==> SameFile(old(View()), View(), o')
    {
      ghost var s := View();
      hide Inv, Live, SameFile;
      var prev, del := files[o].hdr, head;
      WriteDeletion(o);
      ghost var t := View();
      Deleted(s, t, o);
      DeletedHeads(s, t, o);
      LiveThere(s, prev);
      ChunkDel(prev, {del});
      ghost var u := View();
      DirtiedKeeps(cs, u, del.q);
      NotLiveStays(t, u, del, o);
      ChunkDel(del, {});
      KeptSameInv(t, u);
      KeptSameInv(u, View());
      OthersKept(s, t, u, View(), o);
    }

    lemma NotLiveStays(t: State, u: State, l: Loc, o: nat)
      requires t.files == u.files && l in t.fl && t.fl[l].Header? && t.fl[l].obj == o && o !in t.files
      requires l in u.fl ==> u.fl[l] == t.fl[l]
      ensures !Live(u, l)
    {}

    lemma OthersKept(s: State, t: State, u: State, v: State, o: nat)
      requires forall o' :: o' in s.files && o' != o ==> SameFile(s, t, o')
      requires SameContents(t, u) && SameContents(u, v) && t.files.Keys == s.files.Keys - {o}
      ensures forall o' :: o' in v.files ==> SameFile(s, v, o')
    {
      forall o' | o' in v.files
        ensures SameFile(s, v, o')
      {
        assert SameFile(s, t, o') && SameFile(t, u, o') && SameFile(u, v, o');
      }
    }

    /** Deletes a file: empties it, then writes a deletion header. */
    method DelFile(o: nat)
      requires Valid() && o in files && trunc == map[]
      modifies this
      ensures Valid() && trunc == map[] && files.Keys == old(files).Keys - {o}
      ensures forall o' :: o' in files ==> SameFile(old(View()), View(), o')
    {
      ghost var s := View();
      hide Inv, BitsAre;
      ResizeFile(o, 0);
      ghost var t := View();
      CheckGc();
      ghost var u := View();
      assert SameFile(t, u, o);
      EmptyFile(o);
      GenericObjDel(o);
      forall o' | o' in files
        ensures SameFile(s, View(), o')
      {
        assert SameFile(s, t, o') && SameFile(t, u, o') && SameFile(u, View(), o');
      }
    }

    lemma EmptyFile(o: nat)
      requires Valid() && o in files && files[o].fileSize == 0
      ensures files[o].chunks == map[]
    {
      var s := View();
      assert LogOk(cs, s) && ChunksOk(cs, s) && EndsOk(cs, s);
      hide Inv, LogOk, ChunksOk, EndsOk, BitsAre;
      if t :| t in files[o].chunks {
        LastSlot(cs, s, o, t);
      }
    }

    lemma Created(s: State, u: State, o: nat)
      requires Inv(cs, s) && CanCreate(s, o) && u == Settled(DoCreate(s, o))
      ensures Inv(cs, u) && forall m :: Live(u, m) <==> Live(s, m) || m == s.head
      ensures forall o' :: o' in s.files ==> SameFile(s, u, o')
    {
      assert LogOk(cs, s) && FilesOk(s) && ChunksOk(cs, s);
      hide Inv, LogOk, FilesOk, ChunksOk;
      CreateKeeps(cs, s, o);
      SettledKeeps(DoCreate(s, o));
      CreateSame(cs, s, o);
      assert forall m :: Live(u, m) <==> Live(DoCreate(s, o), m);
    }

    /** Creates an empty file. */
    method CreateFile(o: nat)
      requires Valid() && o !in files
      modifies this
      ensures Valid() && trunc == old(trunc) && files.Keys == old(files).Keys + {o}
      ensures files[o].fileSize == 0 && files[o].chunks == map[]
      ensures forall o' :: o' in old(files) ==> SameFile(old(View()), View(), o')
    {
      ghost var s := View();
      hide Inv, Live, SameFile;
      CheckGc();
      ghost var t := View();
      var l := WriteNewChunk(Header(o, 0, false, false));
      files := files[o := File(map[], l, 0, 0)];
      Created(t, View(), o);
      CreatedOthers(s, t, View());
    }

    lemma CreatedOthers(s: State, t: State, u: State)
      requires SameContents(s, t) && forall o' :: o' in t.files ==> SameFile(t, u, o')
      ensures forall o' :: o' in s.files ==> SameFile(s, u, o')
    {
      SameFileTrans(s, t, u);
      hide SameFile;
    }

    /** Between operations, what a mount would rebuild is what is in memory. */
    lemma MountAgrees()
      requires Valid() && trunc == map[]
      ensures IsLiveMap(cs, fl, LiveMap(files))
      ensures forall o :: o in files <==> exists h :: Newest(fl, h, o) && !fl[h].gone
      ensures forall o :: o in files ==> LoggedSize(cs, fl, o, files[o].storedSize)
    {
      RebuiltMatches(cs, View());
    }
  }
}
