/** Cutting files down, collecting and erasing blocks, and mounting again keep the invariant;
    so it holds along every run. */
module LogCollect {
  import opened FlashLog
  import opened LogMachine
  import opened LogSteps
  import opened LogHeaders

  // ----- moving a chunk in use to the head of the log -----

  lemma MoveDataChunks(cs: nat, s: State, l: Loc)
    requires LogOk(cs, s) && ChunksOk(cs, s) && CanMove(s, l) && s.fl[l].Data?
    ensures ChunksOk(cs, DoMove(s, l))
  {
    var s' := DoMove(s, l);
    PutNewest(cs, s, s.fl[l]);
    forall o, t | o in s'.files && t in s'.files[o].chunks
      ensures Winner(cs, s'.fl, s'.files[o].chunks[t], o, t)
    {
      if !(o == s.fl[l].obj && t == s.fl[l].slot) {
        assert s'.files[o].chunks[t] == s.files[o].chunks[t];
        PutWinner(cs, s, s.fl[l], s.files[o].chunks[t], o, t);
      }
    }
  }

  lemma MoveDataStale(cs: nat, s: State, l: Loc)
    requires LogOk(cs, s) && FilesOk(s) && StaleOk(cs, s) && CanMove(s, l) && s.fl[l].Data?
    ensures StaleOk(cs, DoMove(s, l))
  {
    var s' := DoMove(s, l);
    forall d, o, t | IsData(s'.fl, d, o, t) && !LiveData(s', d, o, t)
      ensures Excluded(cs, s', d, o, t)
    {
      assert d != s.head;
      if o == s.fl[l].obj && t == s.fl[l].slot {
        assert Replaced(s', d, o, t);
      } else {
        assert !LiveData(s, d, o, t);
        if Replaced(s, d, o, t) {
          assert Replaced(s', d, o, t);
        } else if BeyondEnd(cs, s, d, o, t) {
          assert BeyondEnd(cs, s', d, o, t);
        } else if !BeingCut(cs, s, o, t) {
          CutStays(cs, s, s', d, o, t);
        }
      }
    }
  }

  lemma MoveDataEnds(cs: nat, s: State, l: Loc)
    requires LogOk(cs, s) && ChunksOk(cs, s) && EndsOk(cs, s) && CanMove(s, l) && s.fl[l].Data?
    ensures EndsOk(cs, DoMove(s, l))
  {
    var s' := DoMove(s, l);
    forall o, t | o in s'.files && t in s'.files[o].chunks && IsData(s'.fl, s'.files[o].chunks[t], o, t)
      ensures EndPos(cs, s'.fl[s'.files[o].chunks[t]]) <= s'.files[o].storedSize
    {
      assert Winner(cs, s.fl, s.files[o].chunks[t], o, t);
    }
  }

  lemma MoveDataCounts(cs: nat, s: State, l: Loc, o: nat)
    requires LogOk(cs, s) && FilesOk(s) && ChunksOk(cs, s) && EndsOk(cs, s)
    requires CanMove(s, l) && s.fl[l].Data? && s.fl[l].obj == o && SizeOnLog(cs, s, o)
    ensures forall m :: Counts(DoMove(s, l).fl, m, o) ==> EndPos(cs, DoMove(s, l).fl[m]) <= s.files[o].storedSize
  {
    PutCounts(cs, s, s.fl[l], o);
  }

  lemma BeforeHead(cs: nat, s: State, h: Loc)
    requires LogOk(cs, s) && h in s.fl
    ensures s.head !in s.fl && Before(h, s.head)
  {}

  lemma MoveDataHeader(cs: nat, s: State, l: Loc, o: nat)
    requires LogOk(cs, s) && CanMove(s, l) && s.fl[l].Data? && s.fl[l].obj == o && IsHeader(s.fl, s.files[o].hdr, o)
    ensures var s' := DoMove(s, l); var f := s'.files[o];
      IsHeader(s'.fl, f.hdr, o) && f.hdr == s.files[o].hdr && s'.fl[f.hdr] == s.fl[f.hdr]
      && f.storedSize == s.files[o].storedSize
  {
    BeforeHead(cs, s, s.files[o].hdr);
  }

  /** The chunk that reaches to the size kept reaches as far where it lies now. */
  lemma MoveDataAt(cs: nat, s: State, l: Loc, o: nat, t: nat)
    requires LogOk(cs, s) && CanMove(s, l) && s.fl[l].Data? && s.fl[l].obj == o && IsHeader(s.fl, s.files[o].hdr, o)
    requires t in s.files[o].chunks && IsData(s.fl, s.files[o].chunks[t], o, t)
    requires Before(s.files[o].hdr, s.files[o].chunks[t])
    ensures var s' := DoMove(s, l); var f := s'.files[o];
      t in f.chunks && IsData(s'.fl, f.chunks[t], o, t) && Before(f.hdr, f.chunks[t])
      && EndPos(cs, s'.fl[f.chunks[t]]) == EndPos(cs, s.fl[s.files[o].chunks[t]])
  {
    BeforeHead(cs, s, s.files[o].hdr);
    BeforeHead(cs, s, s.files[o].chunks[t]);
    hide LogOk;
  }

  lemma MoveDataSize(cs: nat, s: State, l: Loc, o: nat)
    requires LogOk(cs, s) && FilesOk(s) && ChunksOk(cs, s) && EndsOk(cs, s)
    requires CanMove(s, l) && s.fl[l].Data? && s.fl[l].obj == o && SizeOnLog(cs, s, o)
    ensures var s' := DoMove(s, l); IsHeader(s'.fl, s'.files[o].hdr, o) && SizeOnLog(cs, s', o)
  {
    MoveDataCounts(cs, s, l, o);
    MoveDataHeader(cs, s, l, o);
    hide Counts, EndsOk, ChunksOk, FilesOk, LogOk, Live, DoMove, CanMove;
    var f := s.files[o];
    if f.storedSize != s.fl[f.hdr].size {
      var t :| t in f.chunks && IsData(s.fl, f.chunks[t], o, t)
        && Before(f.hdr, f.chunks[t]) && EndPos(cs, s.fl[f.chunks[t]]) == f.storedSize;
      MoveDataAt(cs, s, l, o, t);
    }
  }

  lemma MoveDataSizes(cs: nat, s: State, l: Loc)
    requires LogOk(cs, s) && FilesOk(s) && ChunksOk(cs, s) && EndsOk(cs, s) && SizesOk(cs, s)
    requires CanMove(s, l) && s.fl[l].Data?
    ensures SizesOk(cs, DoMove(s, l))
  {
    var s' := DoMove(s, l);
    forall o | o in s'.files && o !in s'.trunc
      ensures IsHeader(s'.fl, s'.files[o].hdr, o) && SizeOnLog(cs, s', o)
    {
      assert SizeOnLog(cs, s, o);
      if o == s.fl[l].obj {
        MoveDataSize(cs, s, l, o);
      } else {
        SizeStays(cs, s, s', s.fl[l], o);
      }
    }
  }

  lemma MoveDataOds(cs: nat, s: State, l: Loc)
    requires LogOk(cs, s) && OdsOk(s) && CanMove(s, l) && s.fl[l].Data?
    ensures OdsOk(DoMove(s, l))
  {
    var s' := DoMove(s, l);
    if s'.ods != 0 {
      forall d | d in s'.fl && d.q < s'.ods
        ensures Live(s', d)
      {
        if d != s.head {
          assert Live(s, d) && d != l;
        }
      }
    }
  }

  lemma MoveDataKeeps(cs: nat, s: State, l: Loc)
    requires Inv(cs, s) && CanMove(s, l) && s.fl[l].Data?
    ensures Inv(cs, DoMove(s, l))
  {
    hide LogOk, FilesOk, StaleOk, ChunksOk, GoneOk, EndsOk, SizesOk, OdsOk;
    MoveDataFiles(cs, s, l);
    MoveDataChunks(cs, s, l);
    MoveDataStale(cs, s, l);
    MoveDataEnds(cs, s, l);
    MoveDataSizes(cs, s, l);
    MoveDataOds(cs, s, l);
  }

  lemma MoveDataFiles(cs: nat, s: State, l: Loc)
    requires LogOk(cs, s) && FilesOk(s) && GoneOk(s) && CanMove(s, l) && s.fl[l].Data?
    ensures LogOk(cs, DoMove(s, l)) && FilesOk(DoMove(s, l)) && GoneOk(DoMove(s, l))
  {
    hide GoneOk;
    PutLog(cs, s, s.fl[l]);
    PutNewest(cs, s, s.fl[l]);
    PutGone(cs, s, DoMove(s, l), s.fl[l]);
  }

  /** Garbage collection of one chunk: a live header may lose its shrink mark. */
  lemma MoveKeeps(cs: nat, s: State, l: Loc)
    requires Inv(cs, s) && CanMove(s, l)
    ensures Inv(cs, DoMove(s, l))
  {
    hide Inv, DoMove;
    if s.fl[l].Data? {
      MoveDataKeeps(cs, s, l);
    } else {
      MoveHeaderKeeps(cs, s, l);
    }
  }

  lemma MoveHeaderKeeps(cs: nat, s: State, l: Loc)
    requires Inv(cs, s) && CanMove(s, l) && !s.fl[l].Data?
    ensures Inv(cs, DoMove(s, l))
  {
    var o := s.fl[l].obj;
    MoveReheads(cs, s, l, o);
    hide Inv, DoMove, Reheads;
    ReheadKeeps(cs, s, DoMove(s, l), o, false, s.files[o].fileSize);
  }

  lemma MoveReheads(cs: nat, s: State, l: Loc, o: nat)
    requires LogOk(cs, s) && FilesOk(s) && CanMove(s, l) && s.fl[l].Header? && o == s.fl[l].obj
    ensures o in s.files && Reheads(s, DoMove(s, l), o, false, s.files[o].fileSize)
  {}

  // ----- erasing a block -----

  lemma EraseWinner(cs: nat, s: State, q: nat, l: Loc, o: nat, t: nat)
    requires LogOk(cs, s) && FilesOk(s) && CanErase(s, q) && LiveData(s, l, o, t)
    requires Winner(cs, s.fl, l, o, t)
    ensures Winner(cs, DoErase(s, q).fl, l, o, t)
  {
    var fl' := DoErase(s, q).fl;
    assert Live(s, l);
    forall m | m in fl'
      ensures !Beats(cs, fl', m, l, o, t)
    {
      assert !Beats(cs, s.fl, m, l, o, t);
      var hdr := s.files[o].hdr;
      assert Live(s, hdr);
      assert IsHeader(fl', hdr, o);
      assert Newest(fl', m, o) ==> IsHeader(s.fl, m, o) && (m == hdr || Before(m, hdr));
    }
  }

  lemma EraseStale(cs: nat, s: State, q: nat)
    requires LogOk(cs, s) && FilesOk(s) && StaleOk(cs, s) && ChunksOk(cs, s) && CanErase(s, q)
    ensures StaleOk(cs, DoErase(s, q))
  {
    var s' := DoErase(s, q);
    forall l, o, t | IsData(s'.fl, l, o, t) && !LiveData(s', l, o, t)
      ensures Excluded(cs, s', l, o, t)
    {
      assert IsData(s.fl, l, o, t) && !LiveData(s, l, o, t);
      if Replaced(s, l, o, t) {
        assert Replaced(s', l, o, t);
      } else if BeyondEnd(cs, s, l, o, t) {
        assert Live(s, s.files[o].hdr);
        assert BeyondEnd(cs, s', l, o, t);
      } else if !BeingCut(cs, s, o, t) {
        var h :| CutByShrink(cs, s, h, l, o, t);
        assert CutByShrink(cs, s', h, l, o, t);
      }
    }
  }

  lemma EraseGone(cs: nat, s: State, q: nat)
    requires GoneOk(s) && CanErase(s, q)
    ensures GoneOk(DoErase(s, q))
  {
    var s' := DoErase(s, q);
    forall l, o | IsHeader(s'.fl, l, o) && o !in s'.files && !s'.fl[l].gone
      ensures exists h :: GoneLater(s', h, l, o)
    {
      var h :| GoneLater(s, h, l, o);
      assert GoneLater(s', h, l, o);
    }
  }

  lemma EraseSizes(cs: nat, s: State, q: nat)
    requires LogOk(cs, s) && FilesOk(s) && ChunksOk(cs, s) && SizesOk(cs, s) && CanErase(s, q)
    ensures SizesOk(cs, DoErase(s, q))
  {
    var s' := DoErase(s, q);
    forall o | o in s'.files && o !in s'.trunc
      ensures IsHeader(s'.fl, s'.files[o].hdr, o) && SizeOnLog(cs, s', o)
    {
      var f := s.files[o];
      assert SizeOnLog(cs, s, o);
      assert Live(s, f.hdr);
      forall l | Counts(s'.fl, l, o)
        ensures Counts(s.fl, l, o)
      {
        assert Before(f.hdr, l);
      }
      if f.storedSize != s.fl[f.hdr].size {
        var t :| t in f.chunks && IsData(s.fl, f.chunks[t], o, t)
          && Before(f.hdr, f.chunks[t]) && EndPos(cs, s.fl[f.chunks[t]]) == f.storedSize;
        assert Live(s, f.chunks[t]);
        assert IsData(s'.fl, f.chunks[t], o, t);
      }
    }
  }

  lemma EraseFiles(cs: nat, s: State, q: nat)
    requires LogOk(cs, s) && FilesOk(s) && ChunksOk(cs, s) && EndsOk(cs, s) && OdsOk(s) && CanErase(s, q)
    ensures FilesOk(DoErase(s, q)) && ChunksOk(cs, DoErase(s, q)) && EndsOk(cs, DoErase(s, q))
    ensures OdsOk(DoErase(s, q))
  {
    var s' := DoErase(s, q);
    forall o | o in s'.files
      ensures Newest(s'.fl, s'.files[o].hdr, o)
    {
      assert Live(s, s.files[o].hdr);
    }
    forall o, t | o in s'.files && t in s'.files[o].chunks
      ensures Winner(cs, s'.fl, s'.files[o].chunks[t], o, t)
    {
      EraseWinner(cs, s, q, s.files[o].chunks[t], o, t);
    }
    if s'.ods != 0 {
      forall l | l in s'.fl && l.q < s'.ods
        ensures Live(s', l)
      {
        assert Live(s, l);
      }
    }
  }

  lemma EraseKeeps(cs: nat, s: State, q: nat)
    requires Inv(cs, s) && CanErase(s, q)
    ensures Inv(cs, DoErase(s, q))
  {
    EraseFiles(cs, s, q);
    EraseStale(cs, s, q);
    EraseGone(cs, s, q);
    EraseSizes(cs, s, q);
  }

  // ----- admitting a block for collection -----

  /** Once no older block has discarded pages, the shrink headers of a block have done their work:
      whatever they exclude shares their block. */
  lemma AdmitKeeps(cs: nat, s: State, q: nat)
    requires Inv(cs, s) && CanAdmit(s, q)
    ensures Inv(cs, s.(admitted := s.admitted + {q}))
  {
    var s' := s.(admitted := s.admitted + {q});
    forall l, o, t | IsData(s'.fl, l, o, t) && !LiveData(s', l, o, t)
      ensures Excluded(cs, s', l, o, t)
    {
      assert !Live(s, l);
      assert Excluded(cs, s, l, o, t);
      if !Replaced(s, l, o, t) && !BeyondEnd(cs, s, l, o, t) && !BeingCut(cs, s, o, t) {
        var h :| CutByShrink(cs, s, h, l, o, t);
        assert CutByShrink(cs, s', h, l, o, t);
      } else {
        assert Replaced(s', l, o, t) || BeyondEnd(cs, s', l, o, t) || BeingCut(cs, s', o, t);
      }
    }
    forall l, o | IsHeader(s'.fl, l, o) && o !in s'.files && !s'.fl[l].gone
      ensures exists h :: GoneLater(s', h, l, o)
    {
      assert !Live(s, l);
      var h :| GoneLater(s, h, l, o);
      assert GoneLater(s', h, l, o);
    }
    FilesOnly(cs, s, s');
  }

  /** Nothing but flags, admissions or the head changed. */
  lemma FilesOnly(cs: nat, s: State, s': State)
    requires FilesOk(s) && ChunksOk(cs, s) && EndsOk(cs, s) && SizesOk(cs, s)
    requires s'.fl == s.fl && s'.files == s.files && s'.trunc == s.trunc
    ensures FilesOk(s') && ChunksOk(cs, s') && EndsOk(cs, s') && SizesOk(cs, s')
  {
    forall o | o in s'.files && o !in s'.trunc
      ensures SizeOnLog(cs, s', o)
    {
      assert SizeOnLog(cs, s, o);
    }
  }

  /** A known oldest dirty sequence number lets the blocks up to it be admitted; and if its block
      does have a discarded page, no others could be. */
  lemma OkForGcAdmits(s: State, q: nat)
    requires OdsOk(s) && s.ods != 0 && q < s.head.q
    ensures q <= s.ods ==> CanAdmit(s, q)
    ensures (exists l :: l in s.fl && l.q == s.ods && !Live(s, l)) ==> (CanAdmit(s, q) <==> q <= s.ods)
  {
    if l :| l in s.fl && l.q == s.ods && !Live(s, l) {
      assert CanAdmit(s, q) ==> q <= s.ods;
    }
  }

  lemma CollectKeeps(cs: nat, s: State, q: nat)
    requires Inv(cs, s) && CanCollect(s, q)
    ensures Inv(cs, DoCollect(s, q))
  {
    var s' := DoCollect(s, q);
    FilesOnly(cs, s, s');
    SameStanding(cs, s, s');
  }

  /** Exclusion depends on flags and admissions only through the shrink headers that stand. */
  lemma SameStanding(cs: nat, s: State, s': State)
    requires StaleOk(cs, s) && GoneOk(s)
    requires s'.fl == s.fl && s'.files == s.files && s'.trunc == s.trunc
    requires forall h, l :: h in s.fl && Standing(s, h, l) ==> Standing(s', h, l)
    ensures StaleOk(cs, s') && GoneOk(s')
  {
    forall l, o, t | IsData(s'.fl, l, o, t) && !LiveData(s', l, o, t)
      ensures Excluded(cs, s', l, o, t)
    {
      assert Excluded(cs, s, l, o, t);
      if !Replaced(s, l, o, t) && !BeyondEnd(cs, s, l, o, t) && !BeingCut(cs, s, o, t) {
        var h :| CutByShrink(cs, s, h, l, o, t);
        assert CutByShrink(cs, s', h, l, o, t);
      } else {
        assert Replaced(s', l, o, t) || BeyondEnd(cs, s', l, o, t) || BeingCut(cs, s', o, t);
      }
    }
    forall l, o | IsHeader(s'.fl, l, o) && o !in s'.files && !s'.fl[l].gone
      ensures exists h :: GoneLater(s', h, l, o)
    {
      var h :| GoneLater(s, h, l, o);
      assert GoneLater(s', h, l, o);
    }
  }

  lemma NewBlockKeeps(cs: nat, s: State)
    requires Inv(cs, s)
    ensures Inv(cs, DoNewBlock(s))
  {
    FilesOnly(cs, s, DoNewBlock(s));
    SameStanding(cs, s, DoNewBlock(s));
    assert forall l :: Live(s, l) ==> Live(DoNewBlock(s), l);
  }

  lemma CalcOdsKeeps(cs: nat, s: State, z: nat)
    requires Inv(cs, s) && CanCalcOds(s, z)
    ensures Inv(cs, s.(ods := z))
  {
    FilesOnly(cs, s, s.(ods := z));
    SameStanding(cs, s, s.(ods := z));
    assert forall l :: Live(s, l) ==> Live(s.(ods := z), l);
  }

  // ----- cutting a file down -----

  lemma CutKeeps(cs: nat, s: State, o: nat, z: nat)
    requires Inv(cs, s) && CanCut(s, o, z)
    ensures Inv(cs, DoCut(s, o, z))
  {
    var s' := DoCut(s, o, z);
    forall l, o', t | IsData(s'.fl, l, o', t) && !LiveData(s', l, o', t)
      ensures Excluded(cs, s', l, o', t)
    {
      assert !LiveData(s, l, o', t);
      if !Replaced(s, l, o', t) && !BeyondEnd(cs, s, l, o', t) && !BeingCut(cs, s, o', t) {
        CutStays(cs, s, s', l, o', t);
      } else {
        assert Replaced(s', l, o', t) || BeyondEnd(cs, s', l, o', t) || BeingCut(cs, s', o', t);
      }
    }
    forall l, o' | IsHeader(s'.fl, l, o') && o' !in s'.files && !s'.fl[l].gone
      ensures exists h :: GoneLater(s', h, l, o')
    {
      GoneStays(s, s', l, o');
    }
    CutSizes(cs, s, o, z);
    assert forall l :: Live(s, l) ==> Live(s', l);
  }

  lemma CutSizes(cs: nat, s: State, o: nat, z: nat)
    requires FilesOk(s) && SizesOk(cs, s) && CanCut(s, o, z)
    ensures SizesOk(cs, DoCut(s, o, z))
  {
    var s' := DoCut(s, o, z);
    forall o' | o' in s'.files && o' !in s'.trunc
      ensures SizeOnLog(cs, s', o')
    {
      assert SizeOnLog(cs, s, o');
    }
  }

  /** In the middle of a truncation only the sizes of the file being cut are free to differ. */
  lemma OtherSizes(cs: nat, s: State, s': State, o: nat)
    requires FilesOk(s) && SizesOk(cs, s) && o in s.trunc
    requires s'.fl == s.fl && s'.trunc == s.trunc && s'.files.Keys == s.files.Keys
    requires forall o' :: o' in s.files && o' != o ==> s'.files[o'] == s.files[o']
    ensures SizesOk(cs, s')
  {
    forall o' | o' in s'.files && o' !in s'.trunc
      ensures SizeOnLog(cs, s', o')
    {
      assert SizeOnLog(cs, s, o');
    }
  }

  lemma DropStale(cs: nat, s: State, o: nat, slot: nat)
    requires ChunksOk(cs, s) && StaleOk(cs, s) && GoneOk(s) && CanDrop(cs, s, o, slot)
    ensures StaleOk(cs, DoDrop(s, o, slot)) && GoneOk(DoDrop(s, o, slot))
  {
    var s' := DoDrop(s, o, slot);
    forall l, o', t | IsData(s'.fl, l, o', t) && !LiveData(s', l, o', t)
      ensures Excluded(cs, s', l, o', t)
    {
      if o' == o && t == slot {
        assert BeingCut(cs, s', o', t);
      } else {
        assert !LiveData(s, l, o', t);
        if !Replaced(s, l, o', t) && !BeyondEnd(cs, s, l, o', t) && !BeingCut(cs, s, o', t) {
          CutStays(cs, s, s', l, o', t);
        } else {
          assert Replaced(s', l, o', t) || BeyondEnd(cs, s', l, o', t) || BeingCut(cs, s', o', t);
        }
      }
    }
    forall l, o' | IsHeader(s'.fl, l, o') && o' !in s'.files && !s'.fl[l].gone
      ensures exists h :: GoneLater(s', h, l, o')
    {
      GoneStays(s, s', l, o');
    }
  }

  lemma DropFiles(cs: nat, s: State, o: nat, slot: nat)
    requires FilesOk(s) && ChunksOk(cs, s) && EndsOk(cs, s) && CanDrop(cs, s, o, slot)
    ensures FilesOk(DoDrop(s, o, slot)) && ChunksOk(cs, DoDrop(s, o, slot))
    ensures EndsOk(cs, DoDrop(s, o, slot))
  {
    var s' := DoDrop(s, o, slot);
    forall o', t | o' in s'.files && t in s'.files[o'].chunks
      ensures t in s.files[o'].chunks && s'.files[o'].chunks[t] == s.files[o'].chunks[t]
    {}
  }

  lemma DropOds(s: State, o: nat, slot: nat)
    requires OdsOk(s) && o in s.files && slot in s.files[o].chunks
    ensures OdsOk(DoDrop(s, o, slot))
  {
    var s' := DoDrop(s, o, slot);
    if s'.ods != 0 {
      forall l | l in s'.fl && l.q < s'.ods
        ensures Live(s', l)
      {
        assert Live(s, l) && l != s.files[o].chunks[slot];
      }
    }
  }

  lemma DropKeeps(cs: nat, s: State, o: nat, slot: nat)
    requires Inv(cs, s) && CanDrop(cs, s, o, slot)
    ensures Inv(cs, DoDrop(s, o, slot))
  {
    DropStale(cs, s, o, slot);
    DropFiles(cs, s, o, slot);
    DropOds(s, o, slot);
    OtherSizes(cs, s, DoDrop(s, o, slot), o);
  }

  lemma SetSizeStale(cs: nat, s: State, o: nat)
    requires StaleOk(cs, s) && GoneOk(s) && EndsOk(cs, s) && CanSetSize(cs, s, o)
    ensures StaleOk(cs, DoSetSize(s, o)) && GoneOk(DoSetSize(s, o))
  {
    var s' := DoSetSize(s, o);
    forall l, o', t | IsData(s'.fl, l, o', t) && !LiveData(s', l, o', t)
      ensures Excluded(cs, s', l, o', t)
    {
      assert !LiveData(s, l, o', t);
      if !Replaced(s, l, o', t) && !BeyondEnd(cs, s, l, o', t) && !BeingCut(cs, s, o', t) {
        CutStays(cs, s, s', l, o', t);
      } else {
        assert Replaced(s', l, o', t) || BeyondEnd(cs, s', l, o', t) || BeingCut(cs, s', o', t);
      }
    }
    forall l, o' | IsHeader(s'.fl, l, o') && o' !in s'.files && !s'.fl[l].gone
      ensures exists h :: GoneLater(s', h, l, o')
    {
      GoneStays(s, s', l, o');
    }
  }

  lemma SetSizeKeeps(cs: nat, s: State, o: nat)
    requires Inv(cs, s) && CanSetSize(cs, s, o)
    ensures Inv(cs, DoSetSize(s, o))
  {
    hide LogOk, FilesOk, ChunksOk, StaleOk, GoneOk, EndsOk, SizesOk, OdsOk;
    SetSizeStale(cs, s, o);
    SetSizeSizes(cs, s, o);
    SetSizeFiles(cs, s, o);
  }

  lemma SetSizeSizes(cs: nat, s: State, o: nat)
    requires FilesOk(s) && SizesOk(cs, s) && CanSetSize(cs, s, o)
    ensures SizesOk(cs, DoSetSize(s, o))
  {
    OtherSizes(cs, s, DoSetSize(s, o), o);
  }

  lemma SetSizeFiles(cs: nat, s: State, o: nat)
    requires LogOk(cs, s) && FilesOk(s) && ChunksOk(cs, s) && EndsOk(cs, s) && OdsOk(s) && CanSetSize(cs, s, o)
    ensures LogOk(cs, DoSetSize(s, o)) && FilesOk(DoSetSize(s, o)) && ChunksOk(cs, DoSetSize(s, o))
    ensures EndsOk(cs, DoSetSize(s, o)) && OdsOk(DoSetSize(s, o))
  {
    hide Winner, Newest;
    assert forall l :: Live(s, l) ==> Live(DoSetSize(s, o), l);
  }

  // ----- mounting again -----

  lemma RemountStale(cs: nat, s: State, q: nat)
    requires LogOk(cs, s) && EndsOk(cs, s) && StaleOk(cs, s) && GoneOk(s) && CanRemount(s, q)
    ensures StaleOk(cs, DoRemount(s, q)) && GoneOk(DoRemount(s, q))
  {
    var s' := DoRemount(s, q);
    forall l, o, t | IsData(s'.fl, l, o, t) && !LiveData(s', l, o, t)
      ensures Excluded(cs, s', l, o, t)
    {
      assert !LiveData(s, l, o, t);
      if Replaced(s, l, o, t) {
        assert Replaced(s', l, o, t);
      } else if BeyondEnd(cs, s, l, o, t) {
        assert BeyondEnd(cs, s', l, o, t);
      } else {
        var h :| CutByShrink(cs, s, h, l, o, t);
        assert h.q in s'.flags;
        assert CutByShrink(cs, s', h, l, o, t);
      }
    }
    forall l, o | IsHeader(s'.fl, l, o) && o !in s'.files && !s'.fl[l].gone
      ensures exists h :: GoneLater(s', h, l, o)
    {
      var h :| GoneLater(s, h, l, o);
      assert h.q in s'.flags;
      assert GoneLater(s', h, l, o);
    }
  }

  lemma RemountKeeps(cs: nat, s: State, q: nat)
    requires Inv(cs, s) && CanRemount(s, q)
    ensures Inv(cs, DoRemount(s, q))
  {
    var s' := DoRemount(s, q);
    RemountStale(cs, s, q);
    forall o | o in s'.files && o !in s'.trunc
      ensures SizeOnLog(cs, s', o)
    {
      assert SizeOnLog(cs, s, o);
    }
  }

  // ----- every run -----

  lemma StepKeeps(cs: nat, s: State, t: Step)
    requires Inv(cs, s) && Enabled(cs, s, t)
    ensures Inv(cs, Apply(cs, s, t))
  {
    match t
    case Create(o) => CreateKeeps(cs, s, o);
    case Write(o, slot, n) => WriteKeeps(cs, s, o, slot, n);
    case PutHeader(o) => PutHeaderKeeps(cs, s, o);
    case Hole(o, z) => HoleKeeps(cs, s, o, z);
    case Cut(o, z) => CutKeeps(cs, s, o, z);
    case Drop(o, slot) => DropKeeps(cs, s, o, slot);
    case SetSize(o) => SetSizeKeeps(cs, s, o);
    case Delete(o) => DeleteKeeps(cs, s, o);
    case NewBlock => NewBlockKeeps(cs, s);
    case CalcOds(z) => CalcOdsKeeps(cs, s, z);
    case Admit(q) => AdmitKeeps(cs, s, q);
    case Collect(q) => CollectKeeps(cs, s, q);
    case Move(l) => MoveKeeps(cs, s, l);
    case Erase(q) => EraseKeeps(cs, s, q);
    case Remount(q) => RemountKeeps(cs, s, q);
  }

  lemma {:induction false} RunKeeps(cs: nat, trace: seq<State>, steps: seq<Step>, n: nat)
    requires Run(cs, trace, steps) && n < |trace|
    ensures Inv(cs, trace[n])
  {
    if n > 0 {
      RunKeeps(cs, trace, steps, n - 1);
      StepKeeps(cs, trace[n - 1], steps[n - 1]);
    }
  }

  /** In every state of every run, unless a file is being cut down at that moment, mounting
      rebuilds exactly the files in memory. In particular no collection brings back a chunk
      that a lost shrink header had excluded. */
  lemma MountRebuildsEveryRun(cs: nat, trace: seq<State>, steps: seq<Step>, n: nat)
    requires Run(cs, trace, steps) && n < |trace| && trace[n].trunc == map[]
    ensures IsLiveMap(cs, trace[n].fl, LiveMap(trace[n].files))
    ensures forall o :: o in trace[n].files <==>
              exists h :: Newest(trace[n].fl, h, o) && !trace[n].fl[h].gone
    ensures forall o :: o in trace[n].files ==>
              Newest(trace[n].fl, trace[n].files[o].hdr, o)
              && LoggedSize(cs, trace[n].fl, o, trace[n].files[o].storedSize)
  {
    hide Run, Inv, LiveMap, IsLiveMap, Newest, LoggedSize;
    var s := trace[n];
    RunKeeps(cs, trace, steps, n);
    RebuiltMatches(cs, s);
  }

  /** If power is lost in the middle of a truncation, a mount still finds every file, and every
      chunk that memory has; what else it finds are chunks of the file being cut, at or beyond the
      cut, in slots already dropped. */
  lemma MountMidCut(cs: nat, trace: seq<State>, steps: seq<Step>, n: nat)
    requires Run(cs, trace, steps) && n < |trace|
    ensures forall o, slot :: o in trace[n].files && slot in trace[n].files[o].chunks ==>
              Winner(cs, trace[n].fl, trace[n].files[o].chunks[slot], o, slot)
    ensures forall l, o, slot :: Winner(cs, trace[n].fl, l, o, slot) && !LiveData(trace[n], l, o, slot) ==>
              o in trace[n].files && BeingCut(cs, trace[n], o, slot) && slot !in trace[n].files[o].chunks
    ensures forall o :: o in trace[n].files <==>
              exists h :: Newest(trace[n].fl, h, o) && !trace[n].fl[h].gone
    ensures forall o :: o in trace[n].files && o !in trace[n].trunc ==>
              Newest(trace[n].fl, trace[n].files[o].hdr, o)
              && LoggedSize(cs, trace[n].fl, o, trace[n].files[o].storedSize)
  {
    hide Run, Inv, Winner, LiveData, BeingCut, Newest, LoggedSize;
    var s := trace[n];
    RunKeeps(cs, trace, steps, n);
    RebuiltMidCut(cs, s);
  }

  /** What comes back in a dropped slot may be older than what was dropped from it: the block of
      the dropped chunk can be erased at once, while an older chunk of the slot lies elsewhere. */
  lemma OlderChunkReturns() returns (s: State, t: State, trace: seq<State>, steps: seq<Step>)
    ensures Run(1, trace, steps) && |trace| == 9 && trace[5] == s && trace[8] == t
    ensures 1 in s.files && s.files[1].chunks == map[1 := Loc(2, 0)] && s.trunc == map[]
    ensures 1 in t.files && t.files[1].chunks == map[] && Winner(1, t.fl, Loc(1, 1), 1, 1)
  {
    s, trace, steps := TwoVersions();
    var s6 := DoCut(s, 1, 0);
    var s7 := DoDrop(s6, 1, 1);
    t := DoErase(s7, 2);
    OlderChunkWins(s, s6, s7, t);
    hide Run, Winner, CanCut, CanDrop, CanErase, DoCut, DoDrop, DoErase;
    trace, steps := Extend(1, trace, steps, Cut(1, 0));
    trace, steps := Extend(1, trace, steps, Drop(1, 1));
    trace, steps := Extend(1, trace, steps, Erase(2));
  }

  lemma Extend(cs: nat, trace: seq<State>, steps: seq<Step>, t: Step) returns (trace': seq<State>, steps': seq<Step>)
    requires Run(cs, trace, steps) && |trace| > 0 && Enabled(cs, trace[|trace| - 1], t)
    ensures Run(cs, trace', steps') && trace' == trace + [Apply(cs, trace[|trace| - 1], t)] && steps' == steps + [t]
  {
    trace', steps' := trace + [Apply(cs, trace[|trace| - 1], t)], steps + [t];
  }

  /** One file of one chunk, written twice in blocks of its own. */
  lemma TwoVersions() returns (s: State, trace: seq<State>, steps: seq<Step>)
    ensures Run(1, trace, steps) && |trace| == 6 && trace[5] == s
    ensures s == State(map[Loc(1, 0) := Header(1, 0, false, false), Loc(1, 1) := Data(1, 1, 1), Loc(2, 0) := Data(1, 1, 1)],
                       Loc(3, 0), map[1 := File(map[1 := Loc(2, 0)], Loc(1, 0), 1, 1)], {}, {}, 0, map[])
  {
    var hdr, d := Header(1, 0, false, false), Data(1, 1, 1);
    trace, steps := [Formatted], [];
    trace, steps := Extend(1, trace, steps, Create(1));
    hide Run;
    var s1 := State(map[Loc(1, 0) := hdr], Loc(1, 1), map[1 := File(map[], Loc(1, 0), 0, 0)], {}, {}, 0, map[]);
    assert trace[1] == s1;
    trace, steps := Extend(1, trace, steps, Write(1, 1, 1));
    var s2 := State(map[Loc(1, 0) := hdr, Loc(1, 1) := d], Loc(1, 2),
                    map[1 := File(map[1 := Loc(1, 1)], Loc(1, 0), 1, 1)], {}, {}, 0, map[]);
    assert trace[2] == s2;
    trace, steps := Extend(1, trace, steps, NewBlock);
    trace, steps := Extend(1, trace, steps, Write(1, 1, 1));
    var f := File(map[1 := Loc(2, 0)], Loc(1, 0), 1, 1);
    assert s2.files[1].chunks[1 := Loc(2, 0)] == f.chunks && s2.files[1 := f] == map[1 := f];
    trace, steps := Extend(1, trace, steps, NewBlock);
    s := trace[5];
  }

  lemma OlderChunkWins(s: State, s6: State, s7: State, t: State)
    requires s == State(map[Loc(1, 0) := Header(1, 0, false, false), Loc(1, 1) := Data(1, 1, 1), Loc(2, 0) := Data(1, 1, 1)],
                        Loc(3, 0), map[1 := File(map[1 := Loc(2, 0)], Loc(1, 0), 1, 1)], {}, {}, 0, map[])
    requires s6 == DoCut(s, 1, 0) && 1 in s6.files && 1 in s6.files[1].chunks
    requires s7 == DoDrop(s6, 1, 1) && t == DoErase(s7, 2)
    ensures CanCut(s, 1, 0) && CanDrop(1, s6, 1, 1) && CanErase(s7, 2)
    ensures 1 in t.files && t.files[1].chunks == map[] && Winner(1, t.fl, Loc(1, 1), 1, 1)
  {
    assert t.fl == map[Loc(1, 0) := Header(1, 0, false, false), Loc(1, 1) := Data(1, 1, 1)];
  }

  /** In every state of every run a known oldest dirty sequence number is a lower bound. */
  lemma OldestDirtyIsBound(cs: nat, trace: seq<State>, steps: seq<Step>, n: nat, l: Loc)
    requires Run(cs, trace, steps) && n < |trace| && trace[n].ods != 0
    requires l in trace[n].fl && l.q < trace[n].ods
    ensures Live(trace[n], l)
  {
    RunKeeps(cs, trace, steps, n);
  }
}
