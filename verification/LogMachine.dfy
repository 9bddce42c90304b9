/** The running file system over its log: what memory holds, what a block remembers about shrink
    headers, and every step that changes either. */
module LogMachine {
  import opened FlashLog

  /** A regular file in memory. `hdr` is its current header chunk. */
  datatype File = File(chunks: map<nat, Loc>, hdr: Loc, fileSize: nat, storedSize: nat)

  /** `flags` are the blocks marked has_shrink_hdr. `admitted` are blocks that once were found fit
      for collection; such a block may stay a candidate, or be collected in parts, without being
      examined again. `trunc` names files being cut down, with their new size. */
  datatype State = State(
    fl: Flash, head: Loc, files: map<nat, File>,
    flags: set<nat>, admitted: set<nat>, ods: nat, trunc: map<nat, nat>)

  function Grow(z: nat, e: int): nat { if z < e then e else z }

  ghost predicate LiveData(s: State, l: Loc, o: nat, slot: nat) {
    o in s.files && slot in s.files[o].chunks && s.files[o].chunks[slot] == l
  }

  ghost predicate LiveHeader(s: State, l: Loc, o: nat) {
    o in s.files && s.files[o].hdr == l
  }

  /** A chunk in use; every other used chunk is a discarded page of its block. */
  ghost predicate Live(s: State, l: Loc) {
    l in s.fl &&
    match s.fl[l]
    case Data(o, slot, _) => LiveData(s, l, o, slot)
    case Header(o, _, _, _) => LiveHeader(s, l, o)
    case Junk => false
  }

  // ----- the invariant -----

  /** A shrink header still stands in for `l` while its block has not been admitted, or shares
      the block of `l`. */
  ghost predicate Standing(s: State, h: Loc, l: Loc) {
    Before(l, h) && ((h.q in s.flags && h.q !in s.admitted) || h.q == l.q)
  }

  ghost predicate CutByShrink(cs: nat, s: State, h: Loc, l: Loc, o: nat, slot: nat) {
    IsHeader(s.fl, h, o) && s.fl[h].shrink && s.fl[h].size <= Base(cs, slot) && Standing(s, h, l)
  }

  ghost predicate Replaced(s: State, l: Loc, o: nat, slot: nat) {
    o in s.files && slot in s.files[o].chunks && Before(l, s.files[o].chunks[slot])
  }

  ghost predicate BeyondEnd(cs: nat, s: State, l: Loc, o: nat, slot: nat) {
    && o in s.files && s.files[o].fileSize <= Base(cs, slot)
    && Before(l, s.files[o].hdr) && IsHeader(s.fl, s.files[o].hdr, o)
    && s.fl[s.files[o].hdr].size <= Base(cs, slot)
  }

  ghost predicate BeingCut(cs: nat, s: State, o: nat, slot: nat) {
    o in s.trunc && s.trunc[o] <= Base(cs, slot)
  }

  /** Why a mount would not adopt the discarded chunk `l`. */
  ghost predicate Excluded(cs: nat, s: State, l: Loc, o: nat, slot: nat) {
    || Replaced(s, l, o, slot)
    || BeyondEnd(cs, s, l, o, slot)
    || BeingCut(cs, s, o, slot)
    || exists h :: CutByShrink(cs, s, h, l, o, slot)
  }

  ghost predicate GoneLater(s: State, h: Loc, l: Loc, o: nat) {
    IsHeader(s.fl, h, o) && s.fl[h].gone && s.fl[h].shrink && Standing(s, h, l)
  }

  ghost predicate LogOk(cs: nat, s: State) {
    && s.head.q >= 1
    && (forall l :: l in s.fl ==> l.q >= 1 && Before(l, s.head) && !s.fl[l].Junk?)
    && (forall l :: l in s.fl && s.fl[l].Data? ==>
          1 <= s.fl[l].slot <= MAX_CHUNK_ID && 1 <= s.fl[l].n <= cs)
    && (forall l :: l in s.fl && s.fl[l].Header? && s.fl[l].gone ==> s.fl[l].shrink && s.fl[l].size == 0)
    && (forall q :: q in s.admitted ==> q < s.head.q)
  }

  ghost predicate FilesOk(s: State) {
    && (forall o :: o in s.files ==> Newest(s.fl, s.files[o].hdr, o) && !s.fl[s.files[o].hdr].gone)
    && (forall o :: o in s.trunc ==> o in s.files)
  }

  ghost predicate ChunksOk(cs: nat, s: State) {
    forall o, slot :: o in s.files && slot in s.files[o].chunks ==>
      Winner(cs, s.fl, s.files[o].chunks[slot], o, slot)
  }

  ghost predicate StaleOk(cs: nat, s: State) {
    forall l, o, slot :: IsData(s.fl, l, o, slot) && !LiveData(s, l, o, slot) ==>
      Excluded(cs, s, l, o, slot)
  }

  ghost predicate GoneOk(s: State) {
    forall l, o :: IsHeader(s.fl, l, o) && o !in s.files && !s.fl[l].gone ==>
      exists h :: GoneLater(s, h, l, o)
  }

  ghost predicate EndsOk(cs: nat, s: State) {
    && (forall o :: o in s.files ==> s.files[o].storedSize <= s.files[o].fileSize)
    && (forall o, slot | o in s.files && slot in s.files[o].chunks
          && IsData(s.fl, s.files[o].chunks[slot], o, slot) ::
          EndPos(cs, s.fl[s.files[o].chunks[slot]]) <= s.files[o].storedSize)
    && (forall o :: o in s.trunc && o in s.files ==> s.trunc[o] <= s.files[o].fileSize)
  }

  /** The stored size of a file is on its header, or on a live chunk written after it. */
  ghost predicate SizeOnLog(cs: nat, s: State, o: nat)
    requires o in s.files && IsHeader(s.fl, s.files[o].hdr, o)
  {
    var f := s.files[o];
    && s.fl[f.hdr].size <= f.storedSize
    && (forall l :: Counts(s.fl, l, o) ==> EndPos(cs, s.fl[l]) <= f.storedSize)
    && (f.storedSize == s.fl[f.hdr].size ||
        exists slot :: slot in f.chunks && IsData(s.fl, f.chunks[slot], o, slot)
          && Before(f.hdr, f.chunks[slot]) && EndPos(cs, s.fl[f.chunks[slot]]) == f.storedSize)
  }

  ghost predicate SizesOk(cs: nat, s: State) {
    forall o :: o in s.files && o !in s.trunc && IsHeader(s.fl, s.files[o].hdr, o) ==>
      SizeOnLog(cs, s, o)
  }

  /** The cached oldest dirty sequence number is a lower bound on blocks with discarded pages. */
  ghost predicate OdsOk(s: State) {
    s.ods != 0 ==> s.ods <= s.head.q && forall l :: l in s.fl && l.q < s.ods ==> Live(s, l)
  }

  ghost predicate Inv(cs: nat, s: State) {
    && LogOk(cs, s) && FilesOk(s) && ChunksOk(cs, s) && StaleOk(cs, s) && GoneOk(s)
    && EndsOk(cs, s) && SizesOk(cs, s) && OdsOk(s)
  }

  // ----- the steps -----

  function Put(s: State, e: Entry): State {
    s.(fl := s.fl[s.head := e], head := Loc(s.head.q, s.head.p + 1))
  }

  /** Discarding a page of block `q` lowers a known oldest dirty sequence number. */
  function Dirtied(ods: nat, q: nat): nat {
    if ods != 0 && q < ods then q else ods
  }

  ghost predicate CanCreate(s: State, o: nat) { o !in s.files }

  function DoCreate(s: State, o: nat): State {
    Put(s, Header(o, 0, false, false)).(files := s.files[o := File(map[], s.head, 0, 0)])
  }

  /** A write starts at or before the end of the file. An ordinary write keeps what the chunk
      held; the pad of a truncation ends at the new size. */
  ghost predicate CanWrite(cs: nat, s: State, o: nat, slot: nat, n: nat) {
    && o in s.files && 1 <= slot <= MAX_CHUNK_ID && 1 <= n <= cs
    && Base(cs, slot) <= s.files[o].fileSize
    && (if o in s.trunc
        then Base(cs, slot) + n == s.trunc[o] < s.files[o].fileSize
        else Base(cs, slot) + n >= s.files[o].fileSize || n == cs)
  }

  function DoWrite(cs: nat, s: State, o: nat, slot: nat, n: nat): State
    requires o in s.files
  {
    var f := s.files[o];
    var f' := File(f.chunks[slot := s.head], f.hdr,
                   Grow(f.fileSize, Base(cs, slot) + n), Grow(f.storedSize, Base(cs, slot) + n));
    Put(s, Data(o, slot, n)).(
      files := s.files[o := f'],
      ods := if slot in f.chunks then Dirtied(s.ods, f.chunks[slot].q) else s.ods)
  }

  /** A plain header update, also the one that ends a truncation. */
  ghost predicate CanPutHeader(s: State, o: nat) {
    o in s.files &&
    (o in s.trunc ==> s.files[o].fileSize == s.files[o].storedSize == s.trunc[o])
  }

  function DoPutHeader(s: State, o: nat): State
    requires o in s.files
  {
    var f := s.files[o];
    Put(s, Header(o, f.storedSize, false, false)).(
      files := s.files[o := f.(hdr := s.head)],
      ods := Dirtied(s.ods, f.hdr.q),
      trunc := s.trunc - {o})
  }

  /** Growing a file past its end over a hole: a shrink header with the old stored size. */
  ghost predicate CanHole(s: State, o: nat, z: nat) {
    o in s.files && o !in s.trunc && s.files[o].fileSize < z
  }

  function DoHole(s: State, o: nat, z: nat): State
    requires o in s.files
  {
    var f := s.files[o];
    Put(s, Header(o, f.storedSize, true, false)).(
      files := s.files[o := f.(hdr := s.head, fileSize := z)],
      ods := Dirtied(s.ods, f.hdr.q),
      flags := s.flags + {s.head.q})
  }

  ghost predicate CanCut(s: State, o: nat, z: nat) {
    o in s.files && o !in s.trunc && z < s.files[o].fileSize
  }

  function DoCut(s: State, o: nat, z: nat): State {
    s.(trunc := s.trunc[o := z])
  }

  ghost predicate CanDrop(cs: nat, s: State, o: nat, slot: nat) {
    o in s.files && slot in s.files[o].chunks && o in s.trunc && s.trunc[o] <= Base(cs, slot)
  }

  function DoDrop(s: State, o: nat, slot: nat): State
    requires o in s.files && slot in s.files[o].chunks
  {
    var f := s.files[o];
    s.(files := s.files[o := f.(chunks := f.chunks - {slot})], ods := Dirtied(s.ods, f.chunks[slot].q))
  }

  /** The sizes change once no chunk reaches past the new end. */
  ghost predicate CanSetSize(cs: nat, s: State, o: nat) {
    && o in s.files && o in s.trunc
    && forall slot :: slot in s.files[o].chunks && IsData(s.fl, s.files[o].chunks[slot], o, slot) ==>
         EndPos(cs, s.fl[s.files[o].chunks[slot]]) <= s.trunc[o]
  }

  function DoSetSize(s: State, o: nat): State
    requires o in s.files && o in s.trunc
  {
    s.(files := s.files[o := s.files[o].(fileSize := s.trunc[o], storedSize := s.trunc[o])])
  }

  /** An emptied file is deleted: a deletion header, itself discarded at once. */
  ghost predicate CanDelete(s: State, o: nat) {
    o in s.files && o !in s.trunc && s.files[o].chunks == map[]
  }

  function DoDelete(s: State, o: nat): State
    requires o in s.files
  {
    Put(s, Header(o, 0, true, true)).(
      files := s.files - {o},
      ods := Dirtied(s.ods, s.files[o].hdr.q),
      flags := s.flags + {s.head.q})
  }

  function DoNewBlock(s: State): State {
    s.(head := Loc(s.head.q + 1, 0))
  }

  /** The oldest dirty sequence number is worked out when it is not known. */
  ghost predicate CanCalcOds(s: State, z: nat) {
    s.ods == 0 && 0 < z <= s.head.q && forall l :: l in s.fl && l.q < z ==> Live(s, l)
  }

  /** Block `q` may be collected: no older block has discarded pages. */
  ghost predicate CanAdmit(s: State, q: nat) {
    q < s.head.q && forall l :: l in s.fl && l.q < q ==> Live(s, l)
  }

  ghost predicate CanCollect(s: State, q: nat) {
    q < s.head.q && (q in s.flags ==> q in s.admitted)
  }

  function DoCollect(s: State, q: nat): State {
    s.(flags := s.flags - {q})
  }

  /** Collection moves one chunk in use; a header is written without its shrink mark and with
      the current stored size. */
  ghost predicate CanMove(s: State, l: Loc) {
    Live(s, l) && l.q < s.head.q
  }

  function DoMove(s: State, l: Loc): State
    requires l in s.fl && !s.fl[l].Junk? && s.fl[l].obj in s.files
  {
    var o := s.fl[l].obj;
    var f := s.files[o];
    match s.fl[l]
    case Data(_, slot, n) =>
      Put(s, s.fl[l]).(
        files := s.files[o := f.(chunks := f.chunks[slot := s.head])], ods := Dirtied(s.ods, l.q))
    case Header(_, _, _, gone) =>
      Put(s, Header(o, f.storedSize, false, gone)).(
        files := s.files[o := f.(hdr := s.head)], ods := Dirtied(s.ods, l.q))
  }

  ghost predicate CanErase(s: State, q: nat) {
    q < s.head.q && q !in s.flags && forall l :: l in s.fl && l.q == q ==> !Live(s, l)
  }

  function WithoutBlock(fl: Flash, q: nat): Flash {
    map l | l in fl && l.q != q :: fl[l]
  }

  function DoErase(s: State, q: nat): State {
    s.(fl := WithoutBlock(s.fl, q),
       admitted := s.admitted - {q},
       ods := if s.ods == q then 0 else s.ods)
  }

  /** Unmount and mount: `q` is above every block left in the log. The new state is what the
      scan finds (theorem RebuiltMatches). */
  ghost predicate CanRemount(s: State, q: nat) {
    s.trunc == map[] && q >= 1 && forall l :: l in s.fl ==> l.q < q
  }

  function DoRemount(s: State, q: nat): State {
    State(s.fl, Loc(q, 0),
          map o | o in s.files :: s.files[o].(fileSize := s.files[o].storedSize),
          set l | l in s.fl && s.fl[l].Header? && s.fl[l].shrink :: l.q,
          {}, 0, map[])
  }

  datatype Step =
    | Create(o: nat)
    | Write(o: nat, slot: nat, n: nat)
    | PutHeader(o: nat)
    | Hole(o: nat, z: nat)
    | Cut(o: nat, z: nat)
    | Drop(o: nat, slot: nat)
    | SetSize(o: nat)
    | Delete(o: nat)
    | NewBlock
    | CalcOds(z: nat)
    | Admit(q: nat)
    | Collect(q: nat)
    | Move(l: Loc)
    | Erase(q: nat)
    | Remount(q: nat)

  ghost predicate Enabled(cs: nat, s: State, t: Step) {
    match t
    case Create(o) => CanCreate(s, o)
    case Write(o, slot, n) => CanWrite(cs, s, o, slot, n)
    case PutHeader(o) => CanPutHeader(s, o)
    case Hole(o, z) => CanHole(s, o, z)
    case Cut(o, z) => CanCut(s, o, z)
    case Drop(o, slot) => CanDrop(cs, s, o, slot)
    case SetSize(o) => CanSetSize(cs, s, o)
    case Delete(o) => CanDelete(s, o)
    case NewBlock => true
    case CalcOds(z) => CanCalcOds(s, z)
    case Admit(q) => CanAdmit(s, q)
    case Collect(q) => CanCollect(s, q)
    case Move(l) => CanMove(s, l)
    case Erase(q) => CanErase(s, q)
    case Remount(q) => CanRemount(s, q)
  }

  ghost function Apply(cs: nat, s: State, t: Step): State
    requires Enabled(cs, s, t)
  {
    match t
    case Create(o) => DoCreate(s, o)
    case Write(o, slot, n) => DoWrite(cs, s, o, slot, n)
    case PutHeader(o) => DoPutHeader(s, o)
    case Hole(o, z) => DoHole(s, o, z)
    case Cut(o, z) => DoCut(s, o, z)
    case Drop(o, slot) => DoDrop(s, o, slot)
    case SetSize(o) => DoSetSize(s, o)
    case Delete(o) => DoDelete(s, o)
    case NewBlock => DoNewBlock(s)
    case CalcOds(z) => s.(ods := z)
    case Admit(q) => s.(admitted := s.admitted + {q})
    case Collect(q) => DoCollect(s, q)
    case Move(l) => DoMove(s, l)
    case Erase(q) => DoErase(s, q)
    case Remount(q) => DoRemount(s, q)
  }

  const Formatted: State := State(map[], Loc(1, 0), map[], {}, {}, 0, map[])

  /** Every state along a run. */
  ghost predicate Run(cs: nat, trace: seq<State>, steps: seq<Step>) {
    && |trace| == |steps| + 1 && trace[0] == Formatted
    && forall i :: 0 <= i < |steps| ==>
         Enabled(cs, trace[i], steps[i]) && trace[i + 1] == Apply(cs, trace[i], steps[i])
  }

  // ----- what the invariant gives -----

  function LiveMap(files: map<nat, File>): map<Key, Loc> {
    map o, slot | o in files && slot in files[o].chunks :: Key(o, slot) := files[o].chunks[slot]
  }

  /** A discarded chunk that is excluded is not a winner, unless its file is being cut there. */
  lemma ExcludedLoses(cs: nat, s: State, l: Loc, o: nat, slot: nat)
    requires LogOk(cs, s) && FilesOk(s) && ChunksOk(cs, s)
    requires IsData(s.fl, l, o, slot) && Excluded(cs, s, l, o, slot)
    ensures Winner(cs, s.fl, l, o, slot) ==> BeingCut(cs, s, o, slot)
  {
    if Replaced(s, l, o, slot) {
      var m := s.files[o].chunks[slot];
      assert Winner(cs, s.fl, m, o, slot);
      assert Beats(cs, s.fl, m, l, o, slot);
    } else if BeyondEnd(cs, s, l, o, slot) {
      assert Beats(cs, s.fl, s.files[o].hdr, l, o, slot);
    } else if h :| CutByShrink(cs, s, h, l, o, slot) {
      assert Beats(cs, s.fl, h, l, o, slot);
    }
  }

  /** In any state, also in the middle of a truncation, a mount would find every chunk in memory;
      what else it would find lies in a file just being cut, where the cut has dropped a chunk. */
  lemma RebuiltMidCut(cs: nat, s: State)
    requires Inv(cs, s)
    ensures forall o, slot :: o in s.files && slot in s.files[o].chunks ==>
              Winner(cs, s.fl, s.files[o].chunks[slot], o, slot)
    ensures forall l, o, slot :: Winner(cs, s.fl, l, o, slot) && !LiveData(s, l, o, slot) ==>
              o in s.files && BeingCut(cs, s, o, slot) && slot !in s.files[o].chunks
    ensures forall o :: o in s.files <==> exists h :: Newest(s.fl, h, o) && !s.fl[h].gone
    ensures forall o :: o in s.files ==> Newest(s.fl, s.files[o].hdr, o)
    ensures forall o :: o in s.files && o !in s.trunc ==> LoggedSize(cs, s.fl, o, s.files[o].storedSize)
  {
    forall l, o, slot | Winner(cs, s.fl, l, o, slot) && !LiveData(s, l, o, slot)
      ensures o in s.files && BeingCut(cs, s, o, slot) && slot !in s.files[o].chunks
    {
      ExcludedLoses(cs, s, l, o, slot);
      if slot in s.files[o].chunks {
        WinnerUnique(cs, s.fl, l, s.files[o].chunks[slot], o, slot);
      }
    }
    forall o, h | Newest(s.fl, h, o) && !s.fl[h].gone
      ensures o in s.files
    {
      if o !in s.files {
        GoneNotNewest(s, h, o);
      }
    }
    forall o | o in s.files && o !in s.trunc
      ensures LoggedSize(cs, s.fl, o, s.files[o].storedSize)
    {
      SizeIsLogged(cs, s, o);
    }
  }

  lemma GoneNotNewest(s: State, h: Loc, o: nat)
    requires exists g :: GoneLater(s, g, h, o)
    ensures !Newest(s.fl, h, o)
  {
    var g :| GoneLater(s, g, h, o);
    assert IsHeader(s.fl, g, o);
  }

  /** Whenever no truncation is under way, a mount rebuilds what is in memory: the chunk map of
      every file, which objects exist, their current headers and their stored sizes. */
  lemma RebuiltMatches(cs: nat, s: State)
    requires Inv(cs, s) && s.trunc == map[]
    ensures IsLiveMap(cs, s.fl, LiveMap(s.files))
    ensures forall o :: o in s.files <==> exists h :: Newest(s.fl, h, o) && !s.fl[h].gone
    ensures forall o :: o in s.files ==> Newest(s.fl, s.files[o].hdr, o)
    ensures forall o :: o in s.files ==> LoggedSize(cs, s.fl, o, s.files[o].storedSize)
  {
    RebuiltMidCut(cs, s);
    forall l | l in s.fl && s.fl[l].Data? && Winner(cs, s.fl, l, s.fl[l].obj, s.fl[l].slot)
      ensures LiveData(s, l, s.fl[l].obj, s.fl[l].slot)
    {}
    LiveMapHolds(cs, s);
    hide Inv, Winner, Newest, LoggedSize, IsLiveMap;
  }

  lemma LiveMapHolds(cs: nat, s: State)
    requires ChunksOk(cs, s)
    requires forall l :: l in s.fl && s.fl[l].Data? && Winner(cs, s.fl, l, s.fl[l].obj, s.fl[l].slot) ==>
               LiveData(s, l, s.fl[l].obj, s.fl[l].slot)
    ensures IsLiveMap(cs, s.fl, LiveMap(s.files))
  {
    hide Winner;
  }

  lemma SizeIsLogged(cs: nat, s: State, o: nat)
    requires o in s.files && Newest(s.fl, s.files[o].hdr, o) && SizeOnLog(cs, s, o)
    ensures LoggedSize(cs, s.fl, o, s.files[o].storedSize)
  {
    var f := s.files[o];
    if f.storedSize != s.fl[f.hdr].size {
      var slot :| slot in f.chunks && IsData(s.fl, f.chunks[slot], o, slot)
        && Before(f.hdr, f.chunks[slot]) && EndPos(cs, s.fl[f.chunks[slot]]) == f.storedSize;
      assert Counts(s.fl, f.chunks[slot], o);
    }
  }
}
