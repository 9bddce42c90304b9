/** Steps that append an object header keep the invariant. */
module LogHeaders {
  import opened FlashLog
  import opened LogMachine
  import opened LogSteps

  /** The current header of file `o` is written again, with the stored size; the file may grow to
      `z` over a hole when the header says shrink, and a finished truncation may end. */
  ghost predicate Reheads(s: State, s': State, o: nat, shrink: bool, z: nat) {
    && o in s.files && s'.fl == Put(s, Header(o, s.files[o].storedSize, shrink, false)).fl
    && s'.head == Loc(s.head.q, s.head.p + 1)
    && s'.files == s.files[o := s.files[o].(hdr := s.head, fileSize := z)]
    && s'.ods == Dirtied(s.ods, s.files[o].hdr.q)
    && Extends(s, s') && (shrink ==> s.head.q in s'.flags)
    && (if z == s.files[o].fileSize then true else shrink && z > s.files[o].fileSize && o !in s.trunc)
    && (s'.trunc == s.trunc ||
        (s'.trunc == s.trunc - {o} &&
         (o in s.trunc ==> s.files[o].fileSize == s.files[o].storedSize == s.trunc[o])))
  }

  lemma ReheadChunks(cs: nat, s: State, s': State, o: nat, shrink: bool, z: nat)
    requires LogOk(cs, s) && ChunksOk(cs, s) && EndsOk(cs, s) && Reheads(s, s', o, shrink, z)
    ensures ChunksOk(cs, s')
  {
    var e := Header(o, s.files[o].storedSize, shrink, false);
    forall o', t | o' in s'.files && t in s'.files[o'].chunks
      ensures Winner(cs, s'.fl, s'.files[o'].chunks[t], o', t)
    {
      var l := s.files[o'].chunks[t];
      assert Winner(cs, s.fl, l, o', t);
      assert EndPos(cs, s.fl[l]) == Base(cs, t) + s.fl[l].n;
      PutWinner(cs, s, e, l, o', t);
    }
  }

  lemma ReheadExcluded(
    cs: nat, s: State, s': State, o: nat, shrink: bool, z: nat, l: Loc, o': nat, t: nat)
    requires LogOk(cs, s) && FilesOk(s) && EndsOk(cs, s) && Reheads(s, s', o, shrink, z)
    requires l in s.fl && Excluded(cs, s, l, o', t)
    ensures Excluded(cs, s', l, o', t)
  {
    if Replaced(s, l, o', t) {
      assert Replaced(s', l, o', t);
    } else if BeyondEnd(cs, s, l, o', t) {
      if o' == o && z > s.files[o].fileSize {
        assert CutByShrink(cs, s', s.head, l, o, t);
      } else {
        assert BeyondEnd(cs, s', l, o', t);
      }
    } else if BeingCut(cs, s, o', t) {
      if o' !in s'.trunc {
        assert BeyondEnd(cs, s', l, o', t);
      } else {
        assert BeingCut(cs, s', o', t);
      }
    } else {
      CutStays(cs, s, s', l, o', t);
    }
  }

  lemma ReheadStale(cs: nat, s: State, s': State, o: nat, shrink: bool, z: nat)
    requires LogOk(cs, s) && FilesOk(s) && EndsOk(cs, s) && StaleOk(cs, s)
    requires Reheads(s, s', o, shrink, z)
    ensures StaleOk(cs, s')
  {
    forall l, o', t | IsData(s'.fl, l, o', t) && !LiveData(s', l, o', t)
      ensures Excluded(cs, s', l, o', t)
    {
      assert l != s.head && IsData(s.fl, l, o', t) && !LiveData(s, l, o', t);
      ReheadExcluded(cs, s, s', o, shrink, z, l, o', t);
    }
  }

  lemma ReheadSizes(cs: nat, s: State, s': State, o: nat, shrink: bool, z: nat)
    requires LogOk(cs, s) && FilesOk(s) && SizesOk(cs, s) && Reheads(s, s', o, shrink, z)
    ensures SizesOk(cs, s')
  {
    var e := Header(o, s.files[o].storedSize, shrink, false);
    forall o' | o' in s'.files && o' !in s'.trunc
      ensures IsHeader(s'.fl, s'.files[o'].hdr, o') && SizeOnLog(cs, s', o')
    {
      if o' == o {
        PutCounts(cs, s, e, o);
      } else {
        SizeStays(cs, s, s', e, o');
      }
    }
  }

  lemma ReheadEnds(cs: nat, s: State, s': State, o: nat, shrink: bool, z: nat)
    requires LogOk(cs, s) && ChunksOk(cs, s) && EndsOk(cs, s) && Reheads(s, s', o, shrink, z)
    ensures EndsOk(cs, s')
  {
    forall o', t | o' in s'.files && t in s'.files[o'].chunks
      && IsData(s'.fl, s'.files[o'].chunks[t], o', t)
      ensures EndPos(cs, s'.fl[s'.files[o'].chunks[t]]) <= s'.files[o'].storedSize
    {
      assert Winner(cs, s.fl, s.files[o'].chunks[t], o', t);
    }
  }

  lemma ReheadOds(s: State, s': State, o: nat, shrink: bool, z: nat)
    requires OdsOk(s) && Reheads(s, s', o, shrink, z)
    ensures OdsOk(s')
  {
    if s'.ods != 0 {
      forall l | l in s'.fl && l.q < s'.ods
        ensures Live(s', l)
      {
        if l != s.head {
          assert Live(s, l) && l != s.files[o].hdr;
        }
      }
    }
  }

  lemma ReheadFiles(cs: nat, s: State, s': State, o: nat, shrink: bool, z: nat)
    requires LogOk(cs, s) && FilesOk(s) && Reheads(s, s', o, shrink, z)
    ensures LogOk(cs, s') && FilesOk(s')
  {
    var e := Header(o, s.files[o].storedSize, shrink, false);
    PutLog(cs, s, e);
    PutNewest(cs, s, e);
    hide Newest;
  }

  lemma ReheadGone(cs: nat, s: State, s': State, o: nat, shrink: bool, z: nat)
    requires LogOk(cs, s) && GoneOk(s) && Reheads(s, s', o, shrink, z)
    ensures GoneOk(s')
  {
    hide GoneOk;
    PutGone(cs, s, s', Header(o, s.files[o].storedSize, shrink, false));
  }

  lemma ReheadKeeps(cs: nat, s: State, s': State, o: nat, shrink: bool, z: nat)
    requires Inv(cs, s) && Reheads(s, s', o, shrink, z)
    ensures Inv(cs, s')
  {
    hide LogOk, FilesOk, ChunksOk, StaleOk, GoneOk, EndsOk, SizesOk, OdsOk, Reheads;
    ReheadFiles(cs, s, s', o, shrink, z);
    ReheadChunks(cs, s, s', o, shrink, z);
    ReheadStale(cs, s, s', o, shrink, z);
    ReheadSizes(cs, s, s', o, shrink, z);
    ReheadEnds(cs, s, s', o, shrink, z);
    ReheadOds(s, s', o, shrink, z);
    ReheadGone(cs, s, s', o, shrink, z);
  }

  lemma PutHeaderKeeps(cs: nat, s: State, o: nat)
    requires Inv(cs, s) && CanPutHeader(s, o)
    ensures Inv(cs, DoPutHeader(s, o))
  {
    ReheadKeeps(cs, s, DoPutHeader(s, o), o, false, s.files[o].fileSize);
  }

  lemma HoleKeeps(cs: nat, s: State, o: nat, z: nat)
    requires Inv(cs, s) && CanHole(s, o, z)
    ensures Inv(cs, DoHole(s, o, z))
  {
    ReheadKeeps(cs, s, DoHole(s, o, z), o, true, z);
  }

  // ----- creating and deleting an object -----

  lemma OthersWin(cs: nat, s: State, s': State, e: Entry)
    requires LogOk(cs, s) && ChunksOk(cs, s) && s'.fl == Put(s, e).fl && e.Header?
    requires forall o, t :: o in s'.files && t in s'.files[o].chunks ==>
               o in s.files && t in s.files[o].chunks
               && s'.files[o].chunks[t] == s.files[o].chunks[t] && o != e.obj
    ensures ChunksOk(cs, s')
  {
    forall o, t | o in s'.files && t in s'.files[o].chunks
      ensures Winner(cs, s'.fl, s'.files[o].chunks[t], o, t)
    {
      PutWinner(cs, s, e, s.files[o].chunks[t], o, t);
    }
  }

  lemma CreateStale(cs: nat, s: State, o: nat)
    requires LogOk(cs, s) && FilesOk(s) && StaleOk(cs, s) && CanCreate(s, o)
    ensures StaleOk(cs, DoCreate(s, o))
  {
    var s' := DoCreate(s, o);
    forall l, o', t | IsData(s'.fl, l, o', t) && !LiveData(s', l, o', t)
      ensures Excluded(cs, s', l, o', t)
    {
      assert l != s.head && IsData(s.fl, l, o', t) && !LiveData(s, l, o', t);
      if Replaced(s, l, o', t) {
        assert Replaced(s', l, o', t);
      } else if BeyondEnd(cs, s, l, o', t) {
        assert BeyondEnd(cs, s', l, o', t);
      } else if !BeingCut(cs, s, o', t) {
        CutStays(cs, s, s', l, o', t);
      }
    }
  }

  lemma CreateSizes(cs: nat, s: State, o: nat)
    requires LogOk(cs, s) && FilesOk(s) && SizesOk(cs, s) && CanCreate(s, o)
    ensures SizesOk(cs, DoCreate(s, o))
  {
    var s' := DoCreate(s, o);
    var e := Header(o, 0, false, false);
    forall o' | o' in s'.files && o' !in s'.trunc
      ensures IsHeader(s'.fl, s'.files[o'].hdr, o') && SizeOnLog(cs, s', o')
    {
      if o' == o {
        PutCounts(cs, s, e, o);
      } else {
        SizeStays(cs, s, s', e, o');
      }
    }
  }

  lemma CreateOds(s: State, o: nat)
    requires OdsOk(s) && CanCreate(s, o)
    ensures OdsOk(DoCreate(s, o))
  {
    var s' := DoCreate(s, o);
    if s'.ods != 0 {
      forall l | l in s'.fl && l.q < s'.ods
        ensures Live(s', l)
      {
        if l != s.head {
          assert Live(s, l);
        }
      }
    }
  }

  lemma CreateEnds(cs: nat, s: State, o: nat)
    requires LogOk(cs, s) && FilesOk(s) && ChunksOk(cs, s) && EndsOk(cs, s) && CanCreate(s, o)
    ensures EndsOk(cs, DoCreate(s, o))
  {
    var s' := DoCreate(s, o);
    forall o', t | o' in s'.files && t in s'.files[o'].chunks
      && IsData(s'.fl, s'.files[o'].chunks[t], o', t)
      ensures EndPos(cs, s'.fl[s'.files[o'].chunks[t]]) <= s'.files[o'].storedSize
    {
      assert Winner(cs, s.fl, s.files[o'].chunks[t], o', t);
    }
  }

  lemma CreateKeeps(cs: nat, s: State, o: nat)
    requires Inv(cs, s) && CanCreate(s, o)
    ensures Inv(cs, DoCreate(s, o))
  {
    hide StaleOk, EndsOk, SizesOk, OdsOk;
    var s' := DoCreate(s, o);
    var e := Header(o, 0, false, false);
    PutLog(cs, s, e);
    PutNewest(cs, s, e);
    OthersWin(cs, s, s', e);
    CreateStale(cs, s, o);
    CreateSizes(cs, s, o);
    CreateEnds(cs, s, o);
    CreateOds(s, o);
    PutGone(cs, s, s', e);
  }

  lemma DeleteStale(cs: nat, s: State, o: nat)
    requires LogOk(cs, s) && FilesOk(s) && StaleOk(cs, s) && CanDelete(s, o)
    ensures StaleOk(cs, DoDelete(s, o))
  {
    var s' := DoDelete(s, o);
    forall l, o', t | IsData(s'.fl, l, o', t) && !LiveData(s', l, o', t)
      ensures Excluded(cs, s', l, o', t)
    {
      assert l != s.head && IsData(s.fl, l, o', t);
      if o' == o {
        BaseNonNegative(cs, t);
        assert CutByShrink(cs, s', s.head, l, o, t);
      } else {
        assert !LiveData(s, l, o', t);
        if Replaced(s, l, o', t) {
          assert Replaced(s', l, o', t);
        } else if BeyondEnd(cs, s, l, o', t) {
          assert BeyondEnd(cs, s', l, o', t);
        } else if !BeingCut(cs, s, o', t) {
          CutStays(cs, s, s', l, o', t);
        }
      }
    }
  }

  lemma DeleteSizes(cs: nat, s: State, o: nat)
    requires LogOk(cs, s) && FilesOk(s) && SizesOk(cs, s) && CanDelete(s, o)
    ensures SizesOk(cs, DoDelete(s, o))
  {
    var s' := DoDelete(s, o);
    forall o' | o' in s'.files && o' !in s'.trunc
      ensures IsHeader(s'.fl, s'.files[o'].hdr, o') && SizeOnLog(cs, s', o')
    {
      SizeStays(cs, s, s', Header(o, 0, true, true), o');
    }
  }

  lemma DeleteEndsOds(cs: nat, s: State, o: nat)
    requires LogOk(cs, s) && ChunksOk(cs, s) && EndsOk(cs, s) && OdsOk(s) && CanDelete(s, o)
    ensures EndsOk(cs, DoDelete(s, o)) && OdsOk(DoDelete(s, o))
  {
    var s' := DoDelete(s, o);
    forall o', t | o' in s'.files && t in s'.files[o'].chunks
      && IsData(s'.fl, s'.files[o'].chunks[t], o', t)
      ensures EndPos(cs, s'.fl[s'.files[o'].chunks[t]]) <= s'.files[o'].storedSize
    {
      assert Winner(cs, s.fl, s.files[o'].chunks[t], o', t);
    }
    if s'.ods != 0 {
      forall l | l in s'.fl && l.q < s'.ods
        ensures Live(s', l)
      {
        assert l != s.head && Live(s, l) && l != s.files[o].hdr;
      }
    }
  }

  lemma DeleteKeeps(cs: nat, s: State, o: nat)
    requires Inv(cs, s) && CanDelete(s, o)
    ensures Inv(cs, DoDelete(s, o))
  {
    var s' := DoDelete(s, o);
    var e := Header(o, 0, true, true);
    PutLog(cs, s, e);
    PutNewest(cs, s, e);
    OthersWin(cs, s, s', e);
    DeleteStale(cs, s, o);
    DeleteSizes(cs, s, o);
    DeleteEndsOds(cs, s, o);
    assert Unwritten(s, s', o);
    PutGone(cs, s, s', e);
  }
}
