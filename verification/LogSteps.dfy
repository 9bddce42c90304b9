/** Every step of the running file system keeps its invariant. */
module LogSteps {
  import opened FlashLog
  import opened LogMachine

  // ----- appending a chunk -----

  ghost predicate Extends(s: State, s': State) {
    && (forall l :: l in s.fl ==> l in s'.fl && s'.fl[l] == s.fl[l])
    && s.flags <= s'.flags && s'.admitted == s.admitted
  }

  lemma CutStays(cs: nat, s: State, s': State, l: Loc, o: nat, slot: nat)
    requires Extends(s, s') && exists h :: CutByShrink(cs, s, h, l, o, slot)
    ensures exists h :: CutByShrink(cs, s', h, l, o, slot)
  {
    var h :| CutByShrink(cs, s, h, l, o, slot);
    assert CutByShrink(cs, s', h, l, o, slot);
  }

  lemma GoneStays(s: State, s': State, l: Loc, o: nat)
    requires Extends(s, s') && exists h :: GoneLater(s, h, l, o)
    ensures exists h :: GoneLater(s', h, l, o)
  {
    var h :| GoneLater(s, h, l, o);
    assert GoneLater(s', h, l, o);
  }

  /** A chunk stays the winner of its slot when another slot is written, or a header of its file
      that is larger than its offset. */
  lemma PutWinner(cs: nat, s: State, e: Entry, l: Loc, o: nat, slot: nat)
    requires LogOk(cs, s) && Winner(cs, s.fl, l, o, slot)
    requires e.Data? ==> !(e.obj == o && e.slot == slot)
    requires e.Header? && e.obj == o ==> e.size > Base(cs, slot)
    ensures Winner(cs, Put(s, e).fl, l, o, slot)
  {
    var fl' := Put(s, e).fl;
    forall m | m in fl'
      ensures !Beats(cs, fl', m, l, o, slot)
    {
      if m != s.head {
        assert !Beats(cs, s.fl, m, l, o, slot);
        if Cuts(fl', m, o) {
          assert Newest(fl', m, o) ==> Newest(s.fl, m, o);
        }
      } else if IsHeader(fl', m, o) {
        assert Newest(fl', m, o);
      }
    }
  }

  /** The chunk just written is the winner of its slot. */
  lemma PutNewest(cs: nat, s: State, e: Entry)
    requires LogOk(cs, s)
    ensures e.Data? ==> Winner(cs, Put(s, e).fl, s.head, e.obj, e.slot)
    ensures e.Header? ==> Newest(Put(s, e).fl, s.head, e.obj)
    ensures forall o, h :: Newest(s.fl, h, o) && !(e.Header? && e.obj == o) ==>
              Newest(Put(s, e).fl, h, o)
  {
    var fl' := Put(s, e).fl;
    assert forall m :: m in fl' && m != s.head ==> Before(m, s.head);
  }

  lemma PutLog(cs: nat, s: State, e: Entry)
    requires LogOk(cs, s) && !e.Junk?
    requires e.Data? ==> 1 <= e.slot <= MAX_CHUNK_ID && 1 <= e.n <= cs
    requires e.Header? && e.gone ==> e.shrink && e.size == 0
    ensures LogOk(cs, Put(s, e))
  {}

  /** No data of a file is newer than a header just written. */
  lemma PutCounts(cs: nat, s: State, e: Entry, o: nat)
    requires LogOk(cs, s)
    ensures forall l :: Counts(Put(s, e).fl, l, o) ==>
              (l == s.head && e.Data?) || (Counts(s.fl, l, o) && !(e.Header? && e.obj == o))
  {
    var fl' := Put(s, e).fl;
    forall l | Counts(fl', l, o)
      ensures (l == s.head && e.Data?) || (Counts(s.fl, l, o) && !(e.Header? && e.obj == o))
    {
      if l != s.head {
        assert e.Header? && e.obj == o ==> IsHeader(fl', s.head, o);
        forall h | IsHeader(s.fl, h, o)
          ensures Before(h, l)
        {
          assert IsHeader(fl', h, o);
        }
      }
    }
  }

  lemma BaseNonNegative(cs: nat, slot: nat)
    requires slot >= 1
    ensures Base(cs, slot) >= 0
  {
    assert (slot - 1) * cs >= 0;
  }

  // ----- writing data -----

  lemma SpanApart(cs: nat, a: nat, b: nat)
    requires a < b
    ensures Base(cs, a) + cs <= Base(cs, b)
  {
    Spread(a - 1, b - a, cs);
  }

  lemma Spread(a: int, d: int, cs: nat)
    requires d >= 1
    ensures (a + d) * cs == a * cs + d * cs && d * cs >= cs
  {
    assert d * cs == (d - 1) * cs + cs;
  }

  /** Chunks that start inside one chunk's span are that chunk. */
  lemma OneChunkSpan(cs: nat, a: nat, b: nat, z: int)
    requires Base(cs, a) <= z <= Base(cs, b) < Base(cs, a) + cs
    ensures a == b
  {
    if a < b {
      SpanApart(cs, a, b);
    } else if b < a {
      SpanApart(cs, b, a);
    }
  }

  lemma WriteChunks(cs: nat, s: State, o: nat, slot: nat, n: nat)
    requires LogOk(cs, s) && ChunksOk(cs, s) && CanWrite(cs, s, o, slot, n)
    ensures ChunksOk(cs, DoWrite(cs, s, o, slot, n))
  {
    var s' := DoWrite(cs, s, o, slot, n);
    PutNewest(cs, s, Data(o, slot, n));
    forall o', t | o' in s'.files && t in s'.files[o'].chunks
      ensures Winner(cs, s'.fl, s'.files[o'].chunks[t], o', t)
    {
      if !(o' == o && t == slot) {
        assert s'.files[o'].chunks[t] == s.files[o'].chunks[t];
        PutWinner(cs, s, Data(o, slot, n), s.files[o'].chunks[t], o', t);
      }
    }
  }

  lemma WriteStale(cs: nat, s: State, o: nat, slot: nat, n: nat)
    requires LogOk(cs, s) && FilesOk(s) && ChunksOk(cs, s) && StaleOk(cs, s)
    requires CanWrite(cs, s, o, slot, n)
    ensures StaleOk(cs, DoWrite(cs, s, o, slot, n))
  {
    var s' := DoWrite(cs, s, o, slot, n);
    forall l, o', t | IsData(s'.fl, l, o', t) && !LiveData(s', l, o', t)
      ensures Excluded(cs, s', l, o', t)
    {
      assert l != s.head;
      if o' == o && t == slot {
        assert Replaced(s', l, o', t);
      } else {
        assert !LiveData(s, l, o', t);
        WriteExcluded(cs, s, o, slot, n, l, o', t);
      }
    }
  }

  lemma WriteExcluded(cs: nat, s: State, o: nat, slot: nat, n: nat, l: Loc, o': nat, t: nat)
    requires LogOk(cs, s) && FilesOk(s) && CanWrite(cs, s, o, slot, n)
    requires !(o' == o && t == slot) && Excluded(cs, s, l, o', t)
    ensures Excluded(cs, DoWrite(cs, s, o, slot, n), l, o', t)
  {
    var s' := DoWrite(cs, s, o, slot, n);
    if Replaced(s, l, o', t) {
      assert Replaced(s', l, o', t);
    } else if BeyondEnd(cs, s, l, o', t) {
      if o' == o && s'.files[o].fileSize > Base(cs, t) {
        OneChunkSpan(cs, slot, t, s.files[o].fileSize);
      }
      assert BeyondEnd(cs, s', l, o', t);
    } else if !BeingCut(cs, s, o', t) {
      assert Extends(s, s');
      CutStays(cs, s, s', l, o', t);
    }
  }

  lemma WriteEnds(cs: nat, s: State, o: nat, slot: nat, n: nat)
    requires LogOk(cs, s) && EndsOk(cs, s) && ChunksOk(cs, s) && CanWrite(cs, s, o, slot, n)
    ensures EndsOk(cs, DoWrite(cs, s, o, slot, n))
  {
    var s' := DoWrite(cs, s, o, slot, n);
    forall o', t | o' in s'.files && t in s'.files[o'].chunks
      && IsData(s'.fl, s'.files[o'].chunks[t], o', t)
      ensures EndPos(cs, s'.fl[s'.files[o'].chunks[t]]) <= s'.files[o'].storedSize
    {
      if !(o' == o && t == slot) {
        assert Winner(cs, s.fl, s.files[o'].chunks[t], o', t);
      }
    }
  }

  /** A file not written keeps its size on the log when a chunk of another file is appended. */
  lemma SizeStays(cs: nat, s: State, s': State, e: Entry, o: nat)
    requires LogOk(cs, s) && FilesOk(s) && SizesOk(cs, s)
    requires s'.fl == Put(s, e).fl && o in s.files && o in s'.files && s'.files[o] == s.files[o]
    requires o !in s.trunc && !e.Junk? && e.obj != o
    ensures IsHeader(s'.fl, s'.files[o].hdr, o) && SizeOnLog(cs, s', o)
  {
    PutCounts(cs, s, e, o);
    assert SizeOnLog(cs, s, o);
    var f := s.files[o];
    if f.storedSize != s.fl[f.hdr].size {
      var t :| t in f.chunks && IsData(s.fl, f.chunks[t], o, t)
        && Before(f.hdr, f.chunks[t]) && EndPos(cs, s.fl[f.chunks[t]]) == f.storedSize;
      assert IsData(s'.fl, f.chunks[t], o, t);
    }
  }

  /** An ordinary write leaves the end of its chunk no lower. */
  lemma OverwriteReaches(cs: nat, s: State, o: nat, slot: nat, n: nat)
    requires LogOk(cs, s) && EndsOk(cs, s) && CanWrite(cs, s, o, slot, n) && o !in s.trunc
    requires slot in s.files[o].chunks && IsData(s.fl, s.files[o].chunks[slot], o, slot)
    ensures EndPos(cs, s.fl[s.files[o].chunks[slot]]) <= Base(cs, slot) + n
  {
    assert s.fl[s.files[o].chunks[slot]].n <= cs;
  }

  lemma WriteSize(cs: nat, s: State, o: nat, slot: nat, n: nat)
    requires LogOk(cs, s) && FilesOk(s) && EndsOk(cs, s)
    requires CanWrite(cs, s, o, slot, n) && o !in s.trunc && SizeOnLog(cs, s, o)
    ensures var s' := DoWrite(cs, s, o, slot, n);
      IsHeader(s'.fl, s'.files[o].hdr, o) && SizeOnLog(cs, s', o)
  {
    var s' := DoWrite(cs, s, o, slot, n);
    var f, f' := s.files[o], s'.files[o];
    PutCounts(cs, s, Data(o, slot, n), o);
    if f'.storedSize == Base(cs, slot) + n {
      assert f'.chunks[slot] == s.head && Before(f'.hdr, s.head);
      assert slot in f'.chunks && IsData(s'.fl, f'.chunks[slot], o, slot);
    } else if f.storedSize != s.fl[f.hdr].size {
      var t :| t in f.chunks && IsData(s.fl, f.chunks[t], o, t)
        && Before(f.hdr, f.chunks[t]) && EndPos(cs, s.fl[f.chunks[t]]) == f.storedSize;
      if t == slot {
        OverwriteReaches(cs, s, o, slot, n);
      }
      assert t in f'.chunks && IsData(s'.fl, f'.chunks[t], o, t);
    }
  }

  lemma WriteSizes(cs: nat, s: State, o: nat, slot: nat, n: nat)
    requires LogOk(cs, s) && FilesOk(s) && ChunksOk(cs, s) && SizesOk(cs, s) && EndsOk(cs, s)
    requires CanWrite(cs, s, o, slot, n)
    ensures SizesOk(cs, DoWrite(cs, s, o, slot, n))
  {
    var s' := DoWrite(cs, s, o, slot, n);
    forall o' | o' in s'.files && o' !in s'.trunc
      ensures IsHeader(s'.fl, s'.files[o'].hdr, o') && SizeOnLog(cs, s', o')
    {
      assert SizeOnLog(cs, s, o');
      if o' == o {
        WriteSize(cs, s, o, slot, n);
      } else {
        SizeStays(cs, s, s', Data(o, slot, n), o');
      }
    }
  }

  lemma WriteOds(cs: nat, s: State, o: nat, slot: nat, n: nat)
    requires LogOk(cs, s) && OdsOk(s) && ChunksOk(cs, s) && CanWrite(cs, s, o, slot, n)
    ensures OdsOk(DoWrite(cs, s, o, slot, n))
  {
    var s' := DoWrite(cs, s, o, slot, n);
    if s'.ods != 0 {
      forall l | l in s'.fl && l.q < s'.ods
        ensures Live(s', l)
      {
        if l != s.head {
          assert Live(s, l);
          if slot in s.files[o].chunks {
            assert l != s.files[o].chunks[slot];
          }
        }
      }
    }
  }

  lemma WriteKeeps(cs: nat, s: State, o: nat, slot: nat, n: nat)
    requires Inv(cs, s) && CanWrite(cs, s, o, slot, n)
    ensures Inv(cs, DoWrite(cs, s, o, slot, n))
  {
    hide StaleOk, ChunksOk, EndsOk, SizesOk, OdsOk;
    var s' := DoWrite(cs, s, o, slot, n);
    PutLog(cs, s, Data(o, slot, n));
    PutNewest(cs, s, Data(o, slot, n));
    WriteChunks(cs, s, o, slot, n);
    WriteStale(cs, s, o, slot, n);
    WriteEnds(cs, s, o, slot, n);
    WriteSizes(cs, s, o, slot, n);
    WriteOds(cs, s, o, slot, n);
    PutGone(cs, s, s', Data(o, slot, n));
  }

  /** Objects not in memory keep their deletion header when anything else is appended. */
  lemma PutGone(cs: nat, s: State, s': State, e: Entry)
    requires GoneOk(s) && Extends(s, s') && s'.fl == Put(s, e).fl && s.head !in s.fl
    requires forall o :: o in s.files ==> o in s'.files || (e.Header? && e.obj == o && e.gone && e.shrink)
    requires e.Header? && !e.gone ==> e.obj in s'.files
    requires forall o :: o in s.files && o !in s'.files ==> Unwritten(s, s', o)
    ensures GoneOk(s')
  {
    forall l, o | IsHeader(s'.fl, l, o) && o !in s'.files && !s'.fl[l].gone
      ensures exists h :: GoneLater(s', h, l, o)
    {
      if o in s.files {
        assert GoneLater(s', s.head, l, o);
      } else {
        GoneStays(s, s', l, o);
      }
    }
  }

  /** The deletion header of `o` sits at the head and stands for every chunk before it. */
  ghost predicate Unwritten(s: State, s': State, o: nat) {
    forall l :: l in s.fl ==> Standing(s', s.head, l)
  }
}
