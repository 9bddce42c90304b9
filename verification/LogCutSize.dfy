/** The size that a mount finds for a file if power is lost while the file is being cut down. */
module LogCutSize {
  import opened FlashLog
  import opened LogMachine
  import opened LogCollect

  /** Data of a file written after its current header. */
  ghost predicate After(s: State, l: Loc, o: nat) {
    o in s.files && l in s.fl && s.fl[l].Data? && s.fl[l].obj == o && Before(s.files[o].hdr, l)
  }

  lemma AfterCounts(s: State, l: Loc, o: nat)
    requires o in s.files && Newest(s.fl, s.files[o].hdr, o)
    ensures After(s, l, o) <==> Counts(s.fl, l, o)
  {}

  /** The file is being cut from `old` to `z`: nothing on the log puts its size above the larger of the two. */
  ghost predicate Bounded(cs: nat, s: State, o: nat, z: nat, was: nat) {
    && o in s.files && o in s.trunc && s.trunc[o] == z && IsHeader(s.fl, s.files[o].hdr, o)
    && s.files[o].storedSize <= Grow(was, z)
    && s.fl[s.files[o].hdr].size <= Grow(was, z)
    && forall l :: After(s, l, o) ==> EndPos(cs, s.fl[l]) <= Grow(was, z)
  }

  /** A place where a chunk may end: within the old size, or at the new. */
  predicate EndsAt(e: int, z: nat, was: nat) {
    e <= was || e == z
  }

  /** The header said the old size when the cut began: it, and the size in memory, are the old size or the new. */
  ghost predicate Recorded(cs: nat, s: State, o: nat, z: nat, was: nat) {
    && o in s.files && o in s.trunc && s.trunc[o] == z && IsHeader(s.fl, s.files[o].hdr, o)
    && (s.files[o].storedSize == was || s.files[o].storedSize == z)
    && (s.fl[s.files[o].hdr].size == was || s.fl[s.files[o].hdr].size == s.files[o].storedSize == z)
    && (forall slot :: slot in s.files[o].chunks && IsData(s.fl, s.files[o].chunks[slot], o, slot) ==>
          EndsAt(EndPos(cs, s.fl[s.files[o].chunks[slot]]), z, was))
    && forall l :: After(s, l, o) ==> EndsAt(EndPos(cs, s.fl[l]), z, s.fl[s.files[o].hdr].size)
  }

  // ----- one step -----

  /** The file has no new chunk and no new header; some of its chunks may be gone. */
  ghost predicate Untouched(s: State, s': State, o: nat) {
    && o in s.files && o in s'.files && o in s.trunc && o in s'.trunc && s'.trunc[o] == s.trunc[o]
    && s'.files[o].hdr == s.files[o].hdr
    && (s'.files[o].storedSize == s.files[o].storedSize || s'.files[o].storedSize == s.trunc[o])
    && (forall slot :: slot in s'.files[o].chunks ==>
          slot in s.files[o].chunks && s'.files[o].chunks[slot] == s.files[o].chunks[slot])
    && (IsHeader(s.fl, s.files[o].hdr, o) ==>
          IsHeader(s'.fl, s.files[o].hdr, o) && s'.fl[s.files[o].hdr] == s.fl[s.files[o].hdr])
    && forall l :: l in s'.fl && s'.fl[l].Data? && s'.fl[l].obj == o ==> l in s.fl && s.fl[l] == s'.fl[l]
  }

  lemma UntouchedStays(cs: nat, s: State, s': State, o: nat, z: nat, was: nat)
    requires Untouched(s, s', o)
    ensures Bounded(cs, s, o, z, was) ==> Bounded(cs, s', o, z, was)
    ensures Recorded(cs, s, o, z, was) ==> Recorded(cs, s', o, z, was)
  {
    hide Base;
    forall l | After(s', l, o)
      ensures After(s, l, o) && s'.fl[l] == s.fl[l]
    {}
  }

  ghost predicate MovesOf(s: State, t: Step, o: nat) {
    t.Move? && t.l in s.fl && !s.fl[t.l].Junk? && s.fl[t.l].obj == o
  }

  /** Only the newest chunk is new, and it is not data of this file nor its header. */
  ghost predicate PutsOther(s: State, s': State, o: nat) {
    && s.head !in s.fl && s.head in s'.fl && s'.fl == s.fl[s.head := s'.fl[s.head]]
    && !(s'.fl[s.head].Data? && s'.fl[s.head].obj == o)
    && o in s.files && o in s'.files && s'.files[o] == s.files[o]
    && o in s.trunc && o in s'.trunc && s'.trunc[o] == s.trunc[o]
  }

  lemma PutsUntouched(s: State, s': State, o: nat)
    requires PutsOther(s, s', o)
    ensures Untouched(s, s', o)
  {}

  lemma PuttingSteps(cs: nat, s: State, t: Step, o: nat)
    requires s.head !in s.fl && o in s.files && o in s.trunc && Enabled(cs, s, t) && o in Apply(cs, s, t).trunc
    requires t.Create? || t.Write? || t.PutHeader? || t.Hole? || t.Delete? || t.Move?
    requires !(t.Write? && t.o == o) && !MovesOf(s, t, o)
    ensures PutsOther(s, Apply(cs, s, t), o)
  {
    hide Base, CanSetSize;
  }

  lemma EraseUntouched(s: State, q: nat, o: nat)
    requires CanErase(s, q) && o in s.files && o in s.trunc && Live(s, s.files[o].hdr)
    ensures Untouched(s, DoErase(s, q), o)
  {}

  lemma RestUntouched(cs: nat, s: State, t: Step, o: nat)
    requires o in s.files && o in s.trunc && Enabled(cs, s, t) && o in Apply(cs, s, t).trunc
    requires t.Cut? || t.Drop? || t.SetSize? || t.NewBlock? || t.CalcOds? || t.Admit? || t.Collect? || t.Remount?
    ensures Untouched(s, Apply(cs, s, t), o)
  {
    hide Live, IsData, Base;
  }

  lemma OthersUntouched(cs: nat, s: State, t: Step, o: nat)
    requires Inv(cs, s) && Enabled(cs, s, t) && o in s.files && o in s.trunc && o in Apply(cs, s, t).trunc
    requires !(t.Write? && t.o == o) && !MovesOf(s, t, o)
    ensures Untouched(s, Apply(cs, s, t), o)
  {
    assert Newest(s.fl, s.files[o].hdr, o) && s.head !in s.fl && Live(s, s.files[o].hdr);
    hide Inv, Newest, Live, PutsOther, Untouched, MovesOf, Enabled, Apply, CanErase;
    if t.Erase? {
      EraseStep(cs, s, t, o);
    } else if t.Create? || t.Write? || t.PutHeader? || t.Hole? || t.Delete? || t.Move? {
      PuttingSteps(cs, s, t, o);
      PutsUntouched(s, Apply(cs, s, t), o);
    } else {
      RestUntouched(cs, s, t, o);
    }
  }

  lemma EraseStep(cs: nat, s: State, t: Step, o: nat)
    requires t.Erase? && Enabled(cs, s, t) && o in s.files && o in s.trunc && Live(s, s.files[o].hdr)
    ensures Untouched(s, Apply(cs, s, t), o)
  {
    EraseUntouched(s, t.q, o);
  }

  /** The pad of the cut ends at the new size. */
  lemma PadStays(cs: nat, s: State, o: nat, slot: nat, n: nat, z: nat, was: nat)
    requires s.head !in s.fl && o in s.files && o in s.trunc && CanWrite(cs, s, o, slot, n)
    ensures Bounded(cs, s, o, z, was) ==> Bounded(cs, DoWrite(cs, s, o, slot, n), o, z, was)
    ensures Recorded(cs, s, o, z, was) ==> Recorded(cs, DoWrite(cs, s, o, slot, n), o, z, was)
  {
    hide Base;
    var s' := DoWrite(cs, s, o, slot, n);
    forall l | After(s', l, o) && l != s.head
      ensures After(s, l, o) && s'.fl[l] == s.fl[l]
    {}
  }

  /** A chunk of the file that is moved ends where it ended. */
  lemma MovedDataStays(cs: nat, s: State, l: Loc, o: nat, z: nat, was: nat)
    requires s.head !in s.fl && o in s.files && EndsOk(cs, s) && CanMove(s, l) && s.fl[l].Data? && s.fl[l].obj == o
    ensures Bounded(cs, s, o, z, was) ==> Bounded(cs, DoMove(s, l), o, z, was)
    ensures Recorded(cs, s, o, z, was) ==> Recorded(cs, DoMove(s, l), o, z, was)
  {
    hide Base;
    var s' := DoMove(s, l);
    assert s.files[o].chunks[s.fl[l].slot] == l && EndPos(cs, s.fl[l]) <= s.files[o].storedSize;
    forall m | After(s', m, o) && m != s.head
      ensures After(s, m, o) && s'.fl[m] == s.fl[m]
    {}
  }

  /** The header moved says the size in memory, and nothing comes after it. */
  lemma MovedHeaderStays(cs: nat, s: State, l: Loc, o: nat, z: nat, was: nat)
    requires LogOk(cs, s) && o in s.files && CanMove(s, l) && s.fl[l].Header? && s.fl[l].obj == o
    ensures Bounded(cs, s, o, z, was) ==> Bounded(cs, DoMove(s, l), o, z, was)
    ensures Recorded(cs, s, o, z, was) ==> Recorded(cs, DoMove(s, l), o, z, was)
  {
    hide Base;
    var s' := DoMove(s, l);
    assert forall m :: m in s'.fl ==> !Before(s.head, m);
  }

  lemma StepStays(cs: nat, s: State, t: Step, o: nat, z: nat, was: nat)
    requires Inv(cs, s) && Enabled(cs, s, t) && o in s.files && o in s.trunc && o in Apply(cs, s, t).trunc
    ensures Bounded(cs, s, o, z, was) ==> Bounded(cs, Apply(cs, s, t), o, z, was)
    ensures Recorded(cs, s, o, z, was) ==> Recorded(cs, Apply(cs, s, t), o, z, was)
  {
    assert LogOk(cs, s) && EndsOk(cs, s) && s.head !in s.fl;
    hide Inv, LogOk, EndsOk, Bounded, Recorded, Untouched, Base;
    if t.Write? && t.o == o {
      PadStays(cs, s, o, t.slot, t.n, z, was);
    } else if MovesOf(s, t, o) {
      if s.fl[t.l].Data? {
        MovedDataStays(cs, s, t.l, o, z, was);
      } else {
        MovedHeaderStays(cs, s, t.l, o, z, was);
      }
    } else {
      OthersUntouched(cs, s, t, o);
      UntouchedStays(cs, s, Apply(cs, s, t), o, z, was);
    }
  }

  // ----- every run -----

  lemma CutBegins(cs: nat, s: State, o: nat, z: nat)
    requires Inv(cs, s) && CanCut(s, o, z)
    ensures Bounded(cs, DoCut(s, o, z), o, z, s.files[o].storedSize)
    ensures s.fl[s.files[o].hdr].size == s.files[o].storedSize ==>
              Recorded(cs, DoCut(s, o, z), o, z, s.files[o].storedSize)
  {
    var s' := DoCut(s, o, z);
    assert SizeOnLog(cs, s, o);
    forall l | After(s', l, o)
      ensures Counts(s.fl, l, o)
    {
      AfterCounts(s, l, o);
    }
  }

  /** What a mount would find for the size. */
  lemma SizeFound(cs: nat, s: State, o: nat, z: nat, was: nat, y: int)
    requires FilesOk(s) && Bounded(cs, s, o, z, was) && LoggedSize(cs, s.fl, o, y)
    ensures s.fl[s.files[o].hdr].size <= y <= Grow(was, z)
    ensures Recorded(cs, s, o, z, was) ==> (y == was || y == z) && (z <= was ==> y == s.fl[s.files[o].hdr].size)
  {
    hide Base;
    if l :| Counts(s.fl, l, o) && EndPos(cs, s.fl[l]) == y {
      AfterCounts(s, l, o);
    }
    if h :| Newest(s.fl, h, o) && s.fl[h].size == y {
      assert h == s.files[o].hdr;
    }
  }

  /** The truncation that begins with step `i` is still under way in state `n`. */
  ghost predicate CutFrom(trace: seq<State>, steps: seq<Step>, i: nat, n: nat, o: nat, z: nat) {
    && i < n < |trace| && i < |steps| && steps[i] == Cut(o, z)
    && forall j :: i < j <= n ==> o in trace[j].trunc
  }

  lemma {:induction false} CutStays(cs: nat, trace: seq<State>, steps: seq<Step>, i: nat, n: nat, o: nat, z: nat)
    requires Run(cs, trace, steps) && CutFrom(trace, steps, i, n, o, z)
    ensures o in trace[i].files && IsHeader(trace[i].fl, trace[i].files[o].hdr, o)
    ensures Bounded(cs, trace[n], o, z, trace[i].files[o].storedSize)
    ensures trace[i].fl[trace[i].files[o].hdr].size == trace[i].files[o].storedSize ==>
              Recorded(cs, trace[n], o, z, trace[i].files[o].storedSize)
  {
    hide Bounded, Recorded, Inv;
    RunKeeps(cs, trace, steps, n - 1);
    if n == i + 1 {
      HeaderThere(cs, trace[i], o, z);
      CutBegins(cs, trace[i], o, z);
    } else {
      CutStays(cs, trace, steps, i, n - 1, o, z);
      InCut(cs, trace[n - 1], o);
      assert trace[n] == Apply(cs, trace[n - 1], steps[n - 1]) && o in trace[n].trunc;
      StepStays(cs, trace[n - 1], steps[n - 1], o, z, trace[i].files[o].storedSize);
    }
  }

  lemma HeaderThere(cs: nat, s: State, o: nat, z: nat)
    requires Inv(cs, s) && CanCut(s, o, z)
    ensures o in s.files && IsHeader(s.fl, s.files[o].hdr, o)
  {}

  lemma InCut(cs: nat, s: State, o: nat)
    requires Inv(cs, s) && o in s.trunc
    ensures o in s.files
  {}

  /**
   * If power is lost while a file is being cut down, the size that a mount finds lies between the one that the
   * current header says and the larger of the old size and the new. If the header said the old size when the cut
   * began it is the old size or the new: the one that the current header says, if the file is not being cut within a
   * hole. So it is the new one from the time when collection moves the header with the sizes set.
   */
  lemma MountMidCutSize(cs: nat, trace: seq<State>, steps: seq<Step>, i: nat, n: nat, o: nat, z: nat, y: int)
    requires Run(cs, trace, steps) && CutFrom(trace, steps, i, n, o, z)
    requires LoggedSize(cs, trace[n].fl, o, y)
    ensures o in trace[i].files && o in trace[n].files
    ensures IsHeader(trace[i].fl, trace[i].files[o].hdr, o) && IsHeader(trace[n].fl, trace[n].files[o].hdr, o)
    ensures var was, size := trace[i].files[o].storedSize, trace[n].fl[trace[n].files[o].hdr].size;
      && size <= y <= Grow(was, z)
      && (trace[i].fl[trace[i].files[o].hdr].size == was ==> (y == was || y == z) && (z <= was ==> y == size))
  {
    CutStays(cs, trace, steps, i, n, o, z);
    RunKeeps(cs, trace, steps, n);
    SizeFound(cs, trace[n], o, z, trace[i].files[o].storedSize, y);
  }

  // ----- a size that is neither -----

  /** One file of two chunks in blocks of their own; its header does not say a size yet. */
  lemma TwoChunks() returns (s: State, trace: seq<State>, steps: seq<Step>)
    ensures Run(1, trace, steps) && |trace| == 6 && |steps| == 5 && trace[5] == s
    ensures s == State(map[Loc(1, 0) := Header(1, 0, false, false), Loc(1, 1) := Data(1, 1, 1), Loc(2, 0) := Data(1, 2, 1)],
                       Loc(3, 0), map[1 := File(map[1 := Loc(1, 1), 2 := Loc(2, 0)], Loc(1, 0), 2, 2)], {}, {}, 0, map[])
  {
    var hdr, d := Header(1, 0, false, false), Data(1, 1, 1);
    trace, steps := [Formatted], [];
    trace, steps := Extend(1, trace, steps, Create(1));
    hide Run;
    var s1 := State(map[Loc(1, 0) := hdr], Loc(1, 1), map[1 := File(map[], Loc(1, 0), 0, 0)], {}, {}, 0, map[]);
    assert trace[1] == s1;
    trace, steps := Extend(1, trace, steps, Write(1, 1, 1));
    var s2 := State(map[Loc(1, 0) := hdr, Loc(1, 1) := d], Loc(1, 2),
                    map[1 := File(map[1 := Loc(1, 1)], Loc(1, 0), 1, 1)], {}, {}, 0, map[]);
    assert trace[2] == s2;
    trace, steps := Extend(1, trace, steps, NewBlock);
    trace, steps := Extend(1, trace, steps, Write(1, 2, 1));
    var f := File(map[1 := Loc(1, 1), 2 := Loc(2, 0)], Loc(1, 0), 2, 2);
    assert s2.files[1].chunks[2 := Loc(2, 0)] == f.chunks && s2.files[1 := f] == map[1 := f];
    trace, steps := Extend(1, trace, steps, NewBlock);
    s := trace[5];
  }

  lemma CutAndErased() returns (trace: seq<State>, steps: seq<Step>, s: State, s6: State, s7: State, t: State)
    ensures Run(1, trace, steps) && |trace| == 9 && |steps| == 8 && steps[5] == Cut(1, 0)
    ensures trace[5] == s && trace[6] == s6 && trace[7] == s7 && trace[8] == t
    ensures 1 in s.files && s.files[1].storedSize == 2 && 1 in s6.trunc && 1 in s7.trunc && 1 in t.trunc
    ensures t.fl == map[Loc(1, 0) := Header(1, 0, false, false), Loc(1, 1) := Data(1, 1, 1)]
  {
    s, trace, steps := TwoChunks();
    s6 := DoCut(s, 1, 0);
    s7 := DoDrop(s6, 1, 2);
    t := DoErase(s7, 2);
    CutSteps(s, s6, s7, t);
    hide Run, CanCut, CanDrop, CanErase, DoCut, DoDrop, DoErase;
    trace, steps := Extend(1, trace, steps, Cut(1, 0));
    trace, steps := Extend(1, trace, steps, Drop(1, 2));
    trace, steps := Extend(1, trace, steps, Erase(2));
  }

  lemma CutSteps(s: State, s6: State, s7: State, t: State)
    requires s == State(map[Loc(1, 0) := Header(1, 0, false, false), Loc(1, 1) := Data(1, 1, 1), Loc(2, 0) := Data(1, 2, 1)],
                        Loc(3, 0), map[1 := File(map[1 := Loc(1, 1), 2 := Loc(2, 0)], Loc(1, 0), 2, 2)], {}, {}, 0, map[])
    requires s6 == DoCut(s, 1, 0) && 1 in s6.files && 2 in s6.files[1].chunks
    requires s7 == DoDrop(s6, 1, 2) && t == DoErase(s7, 2)
    ensures CanCut(s, 1, 0) && CanDrop(1, s6, 1, 2) && CanErase(s7, 2)
    ensures 1 in s6.trunc && 1 in s7.trunc && 1 in t.trunc
    ensures t.fl == map[Loc(1, 0) := Header(1, 0, false, false), Loc(1, 1) := Data(1, 1, 1)]
  {}

  lemma OneChunkSize(fl: Flash)
    requires fl == map[Loc(1, 0) := Header(1, 0, false, false), Loc(1, 1) := Data(1, 1, 1)]
    ensures LoggedSize(1, fl, 1, 1)
  {
    var h, d := Loc(1, 0), Loc(1, 1);
    OnlyThese(fl, h, d);
    hide Counts, Base;
    assert EndPos(1, fl[d]) == Base(1, 1) + 1;
    ChunkSays(1, fl, 1, h, d, 1);
  }

  lemma OnlyThese(fl: Flash, h: Loc, d: Loc)
    requires Before(h, d) && fl == map[h := Header(1, 0, false, false), d := Data(1, 1, 1)]
    ensures IsHeader(fl, h, 1) && fl[h].size == 0 && forall l :: IsHeader(fl, l, 1) ==> l == h
    ensures fl[d] == Data(1, 1, 1) && Base(1, 1) == 0
    ensures Counts(fl, d, 1) && forall l :: Counts(fl, l, 1) ==> l == d
  {
    assert forall l :: IsHeader(fl, l, 1) ==> l == h;
  }

  lemma ChunkSays(cs: nat, fl: Flash, o: nat, h: Loc, d: Loc, z: nat)
    requires IsHeader(fl, h, o) && fl[h].size <= z && forall l :: IsHeader(fl, l, o) ==> l == h
    requires Counts(fl, d, o) && EndPos(cs, fl[d]) == z && forall l :: Counts(fl, l, o) ==> l == d
    ensures LoggedSize(cs, fl, o, z)
  {
    hide Base;
  }

  /** A run after which a mount finds a size between the old and the new: the header did not say the old size, and
      the block with the last chunk is erased as soon as that is dropped. */
  lemma SizeBetween() returns (trace: seq<State>, steps: seq<Step>)
    ensures Run(1, trace, steps) && |trace| == 9 && CutFrom(trace, steps, 5, 8, 1, 0)
    ensures 1 in trace[5].files && trace[5].files[1].storedSize == 2
    ensures LoggedSize(1, trace[8].fl, 1, 1)
  {
    hide Run, LoggedSize;
    var s, s6, s7, t;
    trace, steps, s, s6, s7, t := CutAndErased();
    OneChunkSize(t.fl);
  }
}
