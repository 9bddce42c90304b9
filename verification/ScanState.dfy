/** What the backwards scan knows after it has looked at the chunks in `done`, a newest part of
    the log, and why one more chunk keeps it so. */
module ScanState {
  import opened FlashLog

  datatype ObjInfo = ObjInfo(valid: bool, hdr: Loc, fileSize: int, storedSize: int, shrinkSize: int)

  /** An object the scan has not met: no size limit below the largest file. */
  function Fresh(cs: nat): ObjInfo {
    ObjInfo(false, Loc(0, 0), 0, 0, MAX_CHUNK_ID * cs)
  }

  function Get(cs: nat, objs: map<nat, ObjInfo>, o: nat): ObjInfo {
    if o in objs then objs[o] else Fresh(cs)
  }

  datatype Scan = Scan(
    objs: map<nat, ObjInfo>, chunks: map<Key, Loc>, bits: set<Loc>, flags: set<nat>)

  /** `done` is the part of the log from `x` on, without `x`. */
  ghost predicate Upto(fl: Flash, done: set<Loc>, x: Loc) {
    && x in fl && x !in done
    && forall m :: m in done <==> m in fl && Before(x, m)
  }

  /** Headers already seen allow a chunk starting at `b`. */
  ghost predicate Allowed(fl: Flash, done: set<Loc>, o: nat, b: int) {
    forall m :: m in done && Cuts(fl, m, o) ==> b < CutSize(fl, m, o)
  }

  ghost predicate Shrinks(fl: Flash, m: Loc) {
    m in fl && fl[m].Header? &&
    (fl[m].shrink || (fl[m].gone && !Newest(fl, m, fl[m].obj)))
  }

  /** The chunks a mount keeps: winning data and newest headers. */
  ghost predicate Kept(cs: nat, fl: Flash, l: Loc) {
    l in fl &&
    match fl[l]
    case Data(o, s, _) => Winner(cs, fl, l, o, s)
    case Header(o, _, _, _) => Newest(fl, l, o)
    case Junk => false
  }

  ghost predicate HeadersOk(cs: nat, fl: Flash, done: set<Loc>, objs: map<nat, ObjInfo>) {
    forall o ::
      && (Get(cs, objs, o).valid ==> Get(cs, objs, o).hdr in done && Newest(fl, Get(cs, objs, o).hdr, o))
      && (!Get(cs, objs, o).valid ==> forall h :: h in done ==> !IsHeader(fl, h, o))
  }

  ghost predicate ShrinkOk(cs: nat, fl: Flash, done: set<Loc>, objs: map<nat, ObjInfo>) {
    forall o, b: int | b < MAX_CHUNK_ID * cs ::
      b < Get(cs, objs, o).shrinkSize <==> Allowed(fl, done, o, b)
  }

  ghost predicate ChunksOk(cs: nat, fl: Flash, done: set<Loc>, chunks: map<Key, Loc>) {
    && (forall k :: k in chunks ==> chunks[k] in done && Winner(cs, fl, chunks[k], k.obj, k.slot))
    && (forall l, o, s :: l in done && Winner(cs, fl, l, o, s) ==> Key(o, s) in chunks)
    && (forall l, o, s :: l in done && IsData(fl, l, o, s) ==>
          Key(o, s) in chunks || !Allowed(fl, done, o, Base(cs, s)))
  }

  ghost predicate BitsOk(cs: nat, fl: Flash, done: set<Loc>, bits: set<Loc>) {
    forall l :: l in bits <==> l in done && Kept(cs, fl, l)
  }

  ghost predicate FlagsOk(fl: Flash, done: set<Loc>, flags: set<nat>) {
    && (forall m :: m in done && Shrinks(fl, m) ==> m.q in flags)
    && (forall q :: q in flags ==> exists m :: m in done && m.q == q && Shrinks(fl, m))
  }

  ghost predicate SizeAtLeast(cs: nat, fl: Flash, done: set<Loc>, o: nat, z: int) {
    && (forall l :: l in done && Counts(fl, l, o) ==> EndPos(cs, fl[l]) <= z)
    && (forall h :: h in done && Newest(fl, h, o) ==> fl[h].size <= z)
  }

  ghost predicate SizeReached(cs: nat, fl: Flash, done: set<Loc>, o: nat, z: int) {
    || z == 0
    || (exists l :: l in done && Counts(fl, l, o) && EndPos(cs, fl[l]) == z)
    || (exists h :: h in done && Newest(fl, h, o) && fl[h].size == z)
  }

  ghost predicate SizesOk(cs: nat, fl: Flash, done: set<Loc>, objs: map<nat, ObjInfo>) {
    forall o :: var i := Get(cs, objs, o);
      && i.fileSize == i.storedSize >= 0
      && SizeAtLeast(cs, fl, done, o, i.storedSize)
      && SizeReached(cs, fl, done, o, i.storedSize)
  }

  ghost predicate Ok(cs: nat, fl: Flash, done: set<Loc>, sc: Scan) {
    && HeadersOk(cs, fl, done, sc.objs)
    && ShrinkOk(cs, fl, done, sc.objs)
    && ChunksOk(cs, fl, done, sc.chunks)
    && BitsOk(cs, fl, done, sc.bits)
    && FlagsOk(fl, done, sc.flags)
    && SizesOk(cs, fl, done, sc.objs)
  }

  /** When the headers seen allow `x` and its slot is free, `x` is the winner of its slot. */
  lemma WinnerAtScan(cs: nat, fl: Flash, done: set<Loc>, chunks: map<Key, Loc>, x: Loc, o: nat, s: nat)
    requires Upto(fl, done, x) && IsData(fl, x, o, s) && ChunksOk(cs, fl, done, chunks)
    ensures Winner(cs, fl, x, o, s) <==>
            Key(o, s) !in chunks && Allowed(fl, done, o, Base(cs, s))
  {
    if Winner(cs, fl, x, o, s) {
      assert Key(o, s) in chunks ==> Beats(cs, fl, chunks[Key(o, s)], x, o, s);
      forall m | m in done && Cuts(fl, m, o)
        ensures Base(cs, s) < CutSize(fl, m, o)
      {
        assert !Beats(cs, fl, m, x, o, s);
      }
    }
    if Key(o, s) !in chunks && Allowed(fl, done, o, Base(cs, s)) {
      forall m | m in fl
        ensures !Beats(cs, fl, m, x, o, s)
      {
        if Before(x, m) {
          assert m in done;
        }
      }
    }
  }

  /** Chunks after `x` add nothing to what `x` itself says. */
  lemma NewestAtScan(fl: Flash, done: set<Loc>, x: Loc, o: nat)
    requires Upto(fl, done, x) && IsHeader(fl, x, o)
    ensures Newest(fl, x, o) <==> forall h :: h in done ==> !IsHeader(fl, h, o)
  {
    if h :| h in done && IsHeader(fl, h, o) {
      assert Before(x, h);
    }
    forall m | IsHeader(fl, m, o) && m != x && forall h :: h in done ==> !IsHeader(fl, h, o)
      ensures Before(m, x)
    {
      BeforeTotal(m, x);
    }
  }
}
