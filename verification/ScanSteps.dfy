/** Looking at one more chunk keeps the knowledge of the scan exact. */
module ScanSteps {
  import opened FlashLog
  import opened ScanState

  ghost function SeenData(cs: nat, i: ObjInfo, s: nat, n: nat): ObjInfo {
    var endpos := Base(cs, s) + n;
    if Base(cs, s) < i.shrinkSize && !i.valid && i.storedSize < endpos
    then i.(fileSize := endpos, storedSize := endpos)
    else i
  }

  ghost function AfterData(cs: nat, sc: Scan, x: Loc, o: nat, s: nat, n: nat): Scan {
    var i := Get(cs, sc.objs, o);
    var wins := Base(cs, s) < i.shrinkSize && Key(o, s) !in sc.chunks;
    Scan(sc.objs[o := SeenData(cs, i, s, n)],
         if wins then sc.chunks[Key(o, s) := x] else sc.chunks,
         if wins then sc.bits + {x} else sc.bits,
         sc.flags)
  }

  ghost function SeenFirstHeader(i: ObjInfo, x: Loc, size: nat): ObjInfo {
    var stored := if i.storedSize < size then size else i.storedSize;
    ObjInfo(true, x,
            if i.storedSize < size then size else i.fileSize, stored,
            if i.shrinkSize > size then size else i.shrinkSize)
  }

  ghost function AfterFirstHeader(cs: nat, sc: Scan, x: Loc, o: nat, size: nat, shrink: bool): Scan {
    Scan(sc.objs[o := SeenFirstHeader(Get(cs, sc.objs, o), x, size)], sc.chunks, sc.bits + {x},
         if shrink then sc.flags + {x.q} else sc.flags)
  }

  ghost function SeenOldHeader(i: ObjInfo, size: nat, shrink: bool, gone: bool): ObjInfo {
    var z := if gone then 0 else size;
    if (shrink || gone) && i.shrinkSize > z then i.(shrinkSize := z) else i
  }

  ghost function AfterOldHeader(
    cs: nat, sc: Scan, x: Loc, o: nat, size: nat, shrink: bool, gone: bool): Scan
  {
    Scan(sc.objs[o := SeenOldHeader(Get(cs, sc.objs, o), size, shrink, gone)], sc.chunks, sc.bits,
         if shrink || gone then sc.flags + {x.q} else sc.flags)
  }

  // ----- a data chunk -----

  lemma BaseBelowMax(cs: nat, s: nat)
    requires 1 <= s <= MAX_CHUNK_ID && cs > 0
    ensures 0 <= Base(cs, s) < MAX_CHUNK_ID * cs
  {
    assert 0 <= (s - 1) * cs && (s - 1) * cs + (MAX_CHUNK_ID - s + 1) * cs == MAX_CHUNK_ID * cs;
  }

  lemma DataWins(cs: nat, fl: Flash, done: set<Loc>, sc: Scan, x: Loc, o: nat, s: nat, n: nat)
    requires Upto(fl, done, x) && fl[x] == Data(o, s, n)
    requires ChunksOk(cs, fl, done, sc.chunks) && ShrinkOk(cs, fl, done, sc.objs)
    requires 1 <= s <= MAX_CHUNK_ID && cs > 0
    ensures Winner(cs, fl, x, o, s) <==>
            Base(cs, s) < Get(cs, sc.objs, o).shrinkSize && Key(o, s) !in sc.chunks
    ensures Base(cs, s) < Get(cs, sc.objs, o).shrinkSize <==> Allowed(fl, done, o, Base(cs, s))
  {
    WinnerAtScan(cs, fl, done, sc.chunks, x, o, s);
    BaseBelowMax(cs, s);
  }

  lemma DataChunks(
    cs: nat, fl: Flash, done: set<Loc>, chunks: map<Key, Loc>, x: Loc, o: nat, s: nat, wins: bool)
    requires Upto(fl, done, x) && IsData(fl, x, o, s) && ChunksOk(cs, fl, done, chunks)
    requires wins <==> Winner(cs, fl, x, o, s)
    requires wins <==> Key(o, s) !in chunks && Allowed(fl, done, o, Base(cs, s))
    ensures ChunksOk(cs, fl, done + {x}, if wins then chunks[Key(o, s) := x] else chunks)
  {
    var chunks' := if wins then chunks[Key(o, s) := x] else chunks;
    forall l, o', s' | l in done + {x} && IsData(fl, l, o', s')
      ensures Key(o', s') in chunks' || !Allowed(fl, done + {x}, o', Base(cs, s'))
    {
      assert Key(o', s') in chunks || l == x || !Allowed(fl, done, o', Base(cs, s'));
    }
    forall l, o', s' | l in done + {x} && Winner(cs, fl, l, o', s')
      ensures Key(o', s') in chunks'
    {
      assert l in done ==> Key(o', s') in chunks;
    }
  }

  lemma DataLimits(cs: nat, fl: Flash, done: set<Loc>, sc: Scan, x: Loc, o: nat, s: nat, n: nat)
    requires Upto(fl, done, x) && fl[x] == Data(o, s, n) && Ok(cs, fl, done, sc)
    ensures HeadersOk(cs, fl, done + {x}, AfterData(cs, sc, x, o, s, n).objs)
    ensures ShrinkOk(cs, fl, done + {x}, AfterData(cs, sc, x, o, s, n).objs)
    ensures FlagsOk(fl, done + {x}, sc.flags)
  {
    var objs' := AfterData(cs, sc, x, o, s, n).objs;
    forall o', b: int | b < MAX_CHUNK_ID * cs
      ensures b < Get(cs, objs', o').shrinkSize <==> Allowed(fl, done + {x}, o', b)
    {
      assert Get(cs, objs', o').shrinkSize == Get(cs, sc.objs, o').shrinkSize;
      assert Allowed(fl, done + {x}, o', b) <==> Allowed(fl, done, o', b);
    }
    forall o'
      ensures Get(cs, objs', o').valid == Get(cs, sc.objs, o').valid
      ensures Get(cs, objs', o').hdr == Get(cs, sc.objs, o').hdr
    {}
    forall q | q in sc.flags
      ensures exists m :: m in done + {x} && m.q == q && Shrinks(fl, m)
    {
      var m :| m in done && m.q == q && Shrinks(fl, m);
      assert m in done + {x};
    }
  }

  lemma DataSizes(cs: nat, fl: Flash, done: set<Loc>, sc: Scan, x: Loc, o: nat, s: nat, n: nat)
    requires Upto(fl, done, x) && fl[x] == Data(o, s, n) && Ok(cs, fl, done, sc)
    requires 1 <= s <= MAX_CHUNK_ID && cs > 0
    ensures SizesOk(cs, fl, done + {x}, AfterData(cs, sc, x, o, s, n).objs)
  {
    var i := Get(cs, sc.objs, o);
    var objs' := AfterData(cs, sc, x, o, s, n).objs;
    DataCounts(cs, fl, done, sc, x, o, s, n);
    forall o'
      ensures var j := Get(cs, objs', o');
        j.fileSize == j.storedSize >= 0
        && SizeAtLeast(cs, fl, done + {x}, o', j.storedSize)
        && SizeReached(cs, fl, done + {x}, o', j.storedSize)
    {
      var i' := Get(cs, sc.objs, o');
      var j := Get(cs, objs', o');
      assert i'.fileSize == i'.storedSize >= 0;
      assert SizeAtLeast(cs, fl, done, o', i'.storedSize);
      assert SizeReached(cs, fl, done, o', i'.storedSize);
      SizeWiden(cs, fl, done, x, o', i'.storedSize);
      if j.storedSize != i'.storedSize {
        assert o' == o && Counts(fl, x, o) && EndPos(cs, fl[x]) == j.storedSize;
        assert x in done + {x};
      }
      if Counts(fl, x, o') {
        assert o' == o;
        assert EndPos(cs, fl[x]) <= j.storedSize;
      }
    }
  }

  lemma SizeWiden(cs: nat, fl: Flash, done: set<Loc>, x: Loc, o: nat, z: int)
    requires SizeReached(cs, fl, done, o, z)
    ensures SizeReached(cs, fl, done + {x}, o, z)
  {
    if l :| l in done && Counts(fl, l, o) && EndPos(cs, fl[l]) == z {
      assert l in done + {x};
    }
    if h :| h in done && Newest(fl, h, o) && fl[h].size == z {
      assert h in done + {x};
    }
  }

  lemma DataCounts(cs: nat, fl: Flash, done: set<Loc>, sc: Scan, x: Loc, o: nat, s: nat, n: nat)
    requires Upto(fl, done, x) && fl[x] == Data(o, s, n) && Ok(cs, fl, done, sc)
    requires 1 <= s <= MAX_CHUNK_ID && cs > 0
    ensures Counts(fl, x, o) <==> !Get(cs, sc.objs, o).valid
    ensures !Get(cs, sc.objs, o).valid ==> Base(cs, s) < Get(cs, sc.objs, o).shrinkSize
  {
    var i := Get(cs, sc.objs, o);
    if i.valid {
      assert i.hdr in done && Newest(fl, i.hdr, o);
      assert Before(x, i.hdr);
    } else {
      forall h | IsHeader(fl, h, o)
        ensures Before(h, x)
      {
        BeforeTotal(h, x);
        assert h !in done;
      }
      BaseBelowMax(cs, s);
      assert Allowed(fl, done, o, Base(cs, s));
    }
  }

  /** The bit of a chunk not yet scanned is not set. */
  lemma NotKeptYet(cs: nat, fl: Flash, done: set<Loc>, sc: Scan, x: Loc)
    requires Upto(fl, done, x) && Ok(cs, fl, done, sc)
    ensures x !in sc.bits
  {}

  /** A data chunk: first seen wins, unless a later header has cut it off. */
  lemma DataStep(cs: nat, fl: Flash, done: set<Loc>, sc: Scan, x: Loc, o: nat, s: nat, n: nat)
    requires Upto(fl, done, x) && fl[x] == Data(o, s, n) && Ok(cs, fl, done, sc)
    requires 1 <= s <= MAX_CHUNK_ID && cs > 0
    ensures Ok(cs, fl, done + {x}, AfterData(cs, sc, x, o, s, n))
  {
    DataWins(cs, fl, done, sc, x, o, s, n);
    DataChunks(cs, fl, done, sc.chunks, x, o, s, Winner(cs, fl, x, o, s));
    assert BitsOk(cs, fl, done + {x}, AfterData(cs, sc, x, o, s, n).bits);
    DataLimits(cs, fl, done, sc, x, o, s, n);
    DataSizes(cs, fl, done, sc, x, o, s, n);
  }

  // ----- an object header -----

  /** Facts about the chunks seen so far when `x` is a header. */
  lemma HeaderChunks(cs: nat, fl: Flash, done: set<Loc>, sc: Scan, x: Loc, o: nat)
    requires Upto(fl, done, x) && IsHeader(fl, x, o) && Ok(cs, fl, done, sc)
    ensures ChunksOk(cs, fl, done + {x}, sc.chunks)
    ensures Newest(fl, x, o) <==> !Get(cs, sc.objs, o).valid
    ensures BitsOk(cs, fl, done + {x}, if Newest(fl, x, o) then sc.bits + {x} else sc.bits)
  {
    NewestAtScan(fl, done, x, o);
    if Get(cs, sc.objs, o).valid {
      assert IsHeader(fl, Get(cs, sc.objs, o).hdr, o);
    }
    forall l, o', s' | l in done + {x} && IsData(fl, l, o', s')
      ensures Key(o', s') in sc.chunks || !Allowed(fl, done + {x}, o', Base(cs, s'))
    {
      assert l in done;
      if Key(o', s') !in sc.chunks {
        assert !Allowed(fl, done, o', Base(cs, s'));
      }
    }
  }

  lemma HeaderFlags(fl: Flash, done: set<Loc>, flags: set<nat>, x: Loc)
    requires x in fl && FlagsOk(fl, done, flags)
    ensures FlagsOk(fl, done + {x}, if Shrinks(fl, x) then flags + {x.q} else flags)
  {
    var flags' := if Shrinks(fl, x) then flags + {x.q} else flags;
    forall q | q in flags'
      ensures exists m :: m in done + {x} && m.q == q && Shrinks(fl, m)
    {
      if q in flags {
        var m :| m in done && m.q == q && Shrinks(fl, m);
        assert m in done + {x};
      } else {
        assert x in done + {x};
      }
    }
  }

  lemma FirstHeaderStep(cs: nat, fl: Flash, done: set<Loc>, sc: Scan, x: Loc, o: nat)
    requires Upto(fl, done, x) && IsHeader(fl, x, o) && Ok(cs, fl, done, sc)
    requires !Get(cs, sc.objs, o).valid
    ensures Ok(cs, fl, done + {x}, AfterFirstHeader(cs, sc, x, o, fl[x].size, fl[x].shrink))
  {
    HeaderChunks(cs, fl, done, sc, x, o);
    HeaderFlags(fl, done, sc.flags, x);
    FirstHeaderLimits(cs, fl, done, sc, x, o);
    FirstHeaderSizes(cs, fl, done, sc, x, o);
  }

  lemma FirstHeaderLimits(cs: nat, fl: Flash, done: set<Loc>, sc: Scan, x: Loc, o: nat)
    requires Upto(fl, done, x) && IsHeader(fl, x, o) && Ok(cs, fl, done, sc)
    requires Newest(fl, x, o)
    ensures var objs' := AfterFirstHeader(cs, sc, x, o, fl[x].size, fl[x].shrink).objs;
      HeadersOk(cs, fl, done + {x}, objs') && ShrinkOk(cs, fl, done + {x}, objs')
  {
    var objs' := AfterFirstHeader(cs, sc, x, o, fl[x].size, fl[x].shrink).objs;
    forall o', b: int | b < MAX_CHUNK_ID * cs
      ensures b < Get(cs, objs', o').shrinkSize <==> Allowed(fl, done + {x}, o', b)
    {
      assert b < Get(cs, sc.objs, o').shrinkSize <==> Allowed(fl, done, o', b);
      assert Allowed(fl, done + {x}, o', b) <==>
        Allowed(fl, done, o', b) && (o' == o ==> b < fl[x].size);
    }
    forall o'
      ensures Get(cs, objs', o').valid ==>
        Get(cs, objs', o').hdr in done + {x} && Newest(fl, Get(cs, objs', o').hdr, o')
      ensures !Get(cs, objs', o').valid ==> forall h :: h in done + {x} ==> !IsHeader(fl, h, o')
    {
      assert o' != o ==> Get(cs, objs', o') == Get(cs, sc.objs, o');
    }
  }

  lemma FirstHeaderSizes(cs: nat, fl: Flash, done: set<Loc>, sc: Scan, x: Loc, o: nat)
    requires Upto(fl, done, x) && IsHeader(fl, x, o) && Ok(cs, fl, done, sc)
    requires Newest(fl, x, o)
    ensures SizesOk(cs, fl, done + {x},
                    AfterFirstHeader(cs, sc, x, o, fl[x].size, fl[x].shrink).objs)
  {
    var objs' := AfterFirstHeader(cs, sc, x, o, fl[x].size, fl[x].shrink).objs;
    forall o'
      ensures var j := Get(cs, objs', o');
        j.fileSize == j.storedSize >= 0
        && SizeAtLeast(cs, fl, done + {x}, o', j.storedSize)
        && SizeReached(cs, fl, done + {x}, o', j.storedSize)
    {
      var i' := Get(cs, sc.objs, o');
      var j := Get(cs, objs', o');
      assert i'.fileSize == i'.storedSize >= 0;
      SizeWiden(cs, fl, done, x, o', i'.storedSize);
      assert SizeAtLeast(cs, fl, done, o', i'.storedSize);
      if j.storedSize != i'.storedSize {
        assert x in done + {x} && Newest(fl, x, o) && fl[x].size == j.storedSize;
      }
    }
  }

  lemma OldHeaderLimits(cs: nat, fl: Flash, done: set<Loc>, sc: Scan, x: Loc, o: nat)
    requires Upto(fl, done, x) && IsHeader(fl, x, o) && Ok(cs, fl, done, sc)
    requires !Newest(fl, x, o)
    ensures var objs' := AfterOldHeader(cs, sc, x, o, fl[x].size, fl[x].shrink, fl[x].gone).objs;
      ShrinkOk(cs, fl, done + {x}, objs')
  {
    var objs' := AfterOldHeader(cs, sc, x, o, fl[x].size, fl[x].shrink, fl[x].gone).objs;
    forall o', b: int | b < MAX_CHUNK_ID * cs
      ensures b < Get(cs, objs', o').shrinkSize <==> Allowed(fl, done + {x}, o', b)
    {
      assert b < Get(cs, sc.objs, o').shrinkSize <==> Allowed(fl, done, o', b);
      assert Allowed(fl, done + {x}, o', b) <==>
        Allowed(fl, done, o', b) && (o' == o && Cuts(fl, x, o) ==> b < CutSize(fl, x, o));
    }
  }

  lemma OldHeaderSizes(cs: nat, fl: Flash, done: set<Loc>, sc: Scan, x: Loc, o: nat)
    requires Upto(fl, done, x) && IsHeader(fl, x, o) && Ok(cs, fl, done, sc)
    requires !Newest(fl, x, o) && Get(cs, sc.objs, o).valid
    ensures var objs' := AfterOldHeader(cs, sc, x, o, fl[x].size, fl[x].shrink, fl[x].gone).objs;
      SizesOk(cs, fl, done + {x}, objs')
  {
    var objs' := AfterOldHeader(cs, sc, x, o, fl[x].size, fl[x].shrink, fl[x].gone).objs;
    forall o'
      ensures var j := Get(cs, objs', o');
        j.fileSize == j.storedSize >= 0
        && SizeAtLeast(cs, fl, done + {x}, o', j.storedSize)
        && SizeReached(cs, fl, done + {x}, o', j.storedSize)
    {
      var i' := Get(cs, sc.objs, o');
      assert i'.fileSize == i'.storedSize >= 0;
      SizeWiden(cs, fl, done, x, o', i'.storedSize);
      assert SizeAtLeast(cs, fl, done, o', i'.storedSize);
    }
  }

  lemma OldHeaderHeaders(cs: nat, fl: Flash, done: set<Loc>, sc: Scan, x: Loc, o: nat)
    requires IsHeader(fl, x, o) && HeadersOk(cs, fl, done, sc.objs) && Get(cs, sc.objs, o).valid
    ensures var objs' := AfterOldHeader(cs, sc, x, o, fl[x].size, fl[x].shrink, fl[x].gone).objs;
      HeadersOk(cs, fl, done + {x}, objs')
  {
    var objs' := AfterOldHeader(cs, sc, x, o, fl[x].size, fl[x].shrink, fl[x].gone).objs;
    forall o'
      ensures Get(cs, objs', o').valid == Get(cs, sc.objs, o').valid
      ensures Get(cs, objs', o').hdr == Get(cs, sc.objs, o').hdr
    {}
  }

  /** A header that is not the newest: only its size limit matters. */
  lemma OldHeaderStep(cs: nat, fl: Flash, done: set<Loc>, sc: Scan, x: Loc, o: nat)
    requires Upto(fl, done, x) && IsHeader(fl, x, o) && Ok(cs, fl, done, sc)
    requires Get(cs, sc.objs, o).valid
    ensures Ok(cs, fl, done + {x}, AfterOldHeader(cs, sc, x, o, fl[x].size, fl[x].shrink, fl[x].gone))
  {
    HeaderChunks(cs, fl, done, sc, x, o);
    HeaderFlags(fl, done, sc.flags, x);
    OldHeaderLimits(cs, fl, done, sc, x, o);
    OldHeaderSizes(cs, fl, done, sc, x, o);
    OldHeaderHeaders(cs, fl, done, sc, x, o);
  }

  /** A chunk with bad tags changes nothing. */
  lemma JunkStep(cs: nat, fl: Flash, done: set<Loc>, sc: Scan, x: Loc)
    requires Upto(fl, done, x) && fl[x].Junk? && Ok(cs, fl, done, sc)
    ensures Ok(cs, fl, done + {x}, sc)
  {
    forall o, b: int | b < MAX_CHUNK_ID * cs
      ensures Allowed(fl, done + {x}, o, b) <==> Allowed(fl, done, o, b)
    {}
    forall l, o, s | l in done + {x} && IsData(fl, l, o, s)
      ensures Key(o, s) in sc.chunks || !Allowed(fl, done + {x}, o, Base(cs, s))
    {
      if Key(o, s) !in sc.chunks {
        assert !Allowed(fl, done, o, Base(cs, s));
      }
    }
    forall o
      ensures SizeReached(cs, fl, done + {x}, o, Get(cs, sc.objs, o).storedSize)
      ensures SizeAtLeast(cs, fl, done + {x}, o, Get(cs, sc.objs, o).storedSize)
    {
      SizeWiden(cs, fl, done, x, o, Get(cs, sc.objs, o).storedSize);
      assert SizeAtLeast(cs, fl, done, o, Get(cs, sc.objs, o).storedSize);
    }
    HeaderFlags(fl, done, sc.flags, x);
  }
}
