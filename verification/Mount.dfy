/** The mount scan: blocks newest first, pages last to first. */
module Mount {
  import opened FlashLog
  import opened LogReplay
  import opened ScanState
  import opened ScanSteps

  const MAX_OBJECT_ID: nat := 0x3_FFFF
  const OBJECTID_UNLINKED: nat := 3
  const OBJECTID_DELETED: nat := 4
  const OBJECTID_SUMMARY: nat := 0x10
  const LOWEST_SEQUENCE_NUMBER: nat := 0x1000

  /** The tags of one used page, with the header fields carried in the extra tags. */
  datatype Tags = Tags(
    unfixed: bool, obj: nat, chunk: nat, n: nat, seqNumber: nat,
    size: nat, shrink: bool, parent: nat)

  type Pages = map<Loc, Tags>

  function Classify(cs: nat, q: nat, t: Tags): Entry {
    if t.unfixed || t.obj > MAX_OBJECT_ID || t.chunk > MAX_CHUNK_ID || t.obj == OBJECTID_SUMMARY
       || (t.chunk > 0 && t.n > cs) || t.seqNumber != q then Junk
    else if t.chunk > 0 then Data(t.obj, t.chunk, t.n)
    else Header(t.obj, t.size, t.shrink, t.parent == OBJECTID_DELETED || t.parent == OBJECTID_UNLINKED)
  }

  function LogOf(cs: nat, pages: Pages): Flash {
    map l | l in pages :: Classify(cs, l.q, pages[l])
  }

  /** Block `q` holds nothing a mount would keep and no header that still cuts. */
  ghost predicate Stale(cs: nat, fl: Flash, q: nat) {
    forall m :: m in fl && m.q == q ==> !Kept(cs, fl, m) && !Shrinks(fl, m)
  }

  datatype BlockState = NeedsScan | Empty | Allocating | Full

  class Scanner {
    const cs: nat
    const cpb: nat
    const pages: Pages

    var objs: map<nat, ObjInfo>
    var chunks: map<Key, Loc>
    var bits: set<Loc>
    var flags: set<nat>
    var states: map<nat, BlockState>
    var seqNumber: nat
    var allocBlock: int
    var allocPage: int
    var dirtied: set<nat>
    ghost var done: set<Loc>

    ghost function Log(): Flash { LogOf(cs, pages) }

    ghost function View(): Scan
      reads this
    {
      Scan(objs, chunks, bits, flags)
    }

    ghost predicate Valid()
      reads this
    {
      && cs > 0
      && done <= Log().Keys
      && Ok(cs, Log(), done, View())
    }

    /** At most one block is being written, and the scan knows which. */
    ghost predicate OneAllocating()
      reads `states, `allocBlock, `seqNumber
    {
      && seqNumber > 0 && (allocBlock == -1 || allocBlock > 0)
      && forall r :: r in states && states[r].Allocating? ==> r == allocBlock
    }

    constructor (cs: nat, cpb: nat, pages: Pages)
      requires cs > 0
      ensures Valid() && OneAllocating() && this.cs == cs && this.cpb == cpb && this.pages == pages
      ensures allocBlock == -1 && done == {} && states == map[] && dirtied == {}
    {
      this.cs, this.cpb, this.pages := cs, cpb, pages;
      objs, chunks, bits, flags := map[], map[], {}, {};
      states, dirtied, done := map[], {}, {};
      seqNumber := LOWEST_SEQUENCE_NUMBER;
      allocBlock, allocPage := -1, -1;
    }

    /** The found object, or a new one with no size limit. */
    function FindOrCreate(o: nat): ObjInfo
      reads this
    {
      Get(cs, objs, o)
    }

    method ScanData(x: Loc, o: nat, s: nat, n: nat)
      requires Valid() && Upto(Log(), done, x) && Log()[x] == Data(o, s, n)
      requires 1 <= s <= MAX_CHUNK_ID
      modifies `objs, `chunks, `bits, `done
      ensures Valid() && done == old(done) + {x}
    {
      ghost var sc, d := View(), done;
      hide Ok, LogOf;
      NotKeptYet(cs, Log(), d, sc, x);
      DataStep(cs, Log(), d, sc, x, o, s, n);
      bits := bits + {x};
      var file := FindOrCreate(o);
      var chunkBase := Base(cs, s);
      if chunkBase < file.shrinkSize {
        if Key(o, s) in chunks {
          bits := bits - {x};            // the slot is taken: delete this chunk
        } else {
          chunks := chunks[Key(o, s) := x];
        }
        var endpos := chunkBase + n;
        if !file.valid && file.storedSize < endpos {
          file := file.(storedSize := endpos, fileSize := endpos);
        }
      } else {
        bits := bits - {x};              // invalidated by a resize or a deletion
      }
      objs := objs[o := file];
      done := done + {x};
      assert View() == AfterData(cs, sc, x, o, s, n);
    }

    method ScanHeader(x: Loc, o: nat, size: nat, shrink: bool, gone: bool)
      requires Valid() && Upto(Log(), done, x) && Log()[x] == Header(o, size, shrink, gone)
      modifies `objs, `bits, `flags, `done
      ensures Valid() && done == old(done) + {x}
    {
      ghost var sc, d := View(), done;
      bits := bits + {x};
      var file := FindOrCreate(o);
      if file.valid {
        var thisSize, isShrink := size, shrink;
        if gone {
          thisSize, isShrink := 0, true;
        }
        if isShrink && file.shrinkSize > thisSize {
          file := file.(shrinkSize := thisSize);
        }
        if isShrink {
          flags := flags + {x.q};
        }
        bits := bits - {x};
        OldHeaderStep(cs, Log(), d, sc, x, o);
      } else {
        file := file.(valid := true, hdr := x);
        if shrink {
          flags := flags + {x.q};
        }
        if file.storedSize < size {
          file := file.(fileSize := size, storedSize := size);
        }
        if file.shrinkSize > size {
          file := file.(shrinkSize := size);
        }
        FirstHeaderStep(cs, Log(), d, sc, x, o);
      }
      objs := objs[o := file];
      done := done + {x};
      assert x !in sc.bits;
      assert View() == if Get(cs, sc.objs, o).valid
        then AfterOldHeader(cs, sc, x, o, size, shrink, gone)
        else AfterFirstHeader(cs, sc, x, o, size, shrink);
    }

    /** One page. The result says whether a good chunk was found. */
    method ScanChunk(q: nat, c: nat, foundChunks: bool) returns (found: bool)
      requires Valid() && q in states && OneAllocating() && (states[q].Allocating? || seqNumber != q || allocBlock == -1)
      requires Loc(q, c) in Log() ==> Upto(Log(), done, Loc(q, c))
      modifies this
      ensures Valid() && dirtied == old(dirtied)
      ensures done == if Loc(q, c) in Log() then old(done) + {Loc(q, c)} else old(done)
      ensures states.Keys == old(states).Keys
      ensures forall r :: r in states && r != q ==> states[r] == old(states)[r]
      ensures c > 0 && old(states)[q] in {NeedsScan, Allocating} ==> states[q] in {NeedsScan, Allocating}
      ensures states[q].Empty? && !old(states)[q].Empty? ==> !foundChunks
      ensures Loc(q, c) in Log() && !Log()[Loc(q, c)].Junk? ==> found
      ensures foundChunks ==> found
      ensures OneAllocating() && seqNumber == old(seqNumber)
      ensures allocBlock == old(allocBlock) || (states[q].Allocating? && seqNumber == q)
      ensures states[q].NeedsScan? ==> old(states)[q].NeedsScan?
    {
      found := foundChunks;
      var x := Loc(q, c);
      if x !in pages {
        if foundChunks {
          // skipped because it failed the erased check
        } else if c == 0 {
          states := states[q := Empty];
        } else if states[q] == NeedsScan || states[q] == Allocating {
          if seqNumber == q {
            states := states[q := Allocating];
            allocBlock, allocPage := q, c;
          }
        }
      } else {
        var e := Classify(cs, q, pages[x]);
        match e {
          case Junk =>
            JunkStep(cs, Log(), done, View(), x);
            done := done + {x};
          case Data(o, s, n) =>
            found := true;
            ScanData(x, o, s, n);
          case Header(o, size, shrink, gone) =>
            found := true;
            ScanHeader(x, o, size, shrink, gone);
        }
      }
    }

    /** All pages of block `q`, last page first. */
    method ScanBlock(q: nat)
      requires Valid() && q in states && states[q].NeedsScan?
      requires forall l :: l in Log() && l.q == q ==> l.p < cpb
      requires forall l :: l in done <==> l in Log() && l.q > q
      requires OneAllocating() && (seqNumber == q ==> allocBlock == -1)
      modifies this
      ensures Valid() && OneAllocating() && seqNumber == old(seqNumber)
      ensures seqNumber != q ==> allocBlock == old(allocBlock)
      ensures forall l :: l in done <==> l in Log() && l.q >= q
      ensures states.Keys == old(states).Keys
      ensures forall r :: r in states && r != q ==> states[r] == old(states)[r]
      ensures old(dirtied) <= dirtied <= old(dirtied) + {q}
      ensures q in dirtied && q !in old(dirtied) ==>
                states[q] == Full && q !in flags && forall l :: l in bits ==> l.q != q
    {
      hide Ok, LogOf;
      var c, found := cpb, false;
      while c > 0 && states[q] in {NeedsScan, Allocating}
        invariant c <= cpb && Valid() && states.Keys == old(states).Keys && dirtied == old(dirtied)
        invariant forall r :: r in states && r != q ==> states[r] == old(states)[r]
        invariant forall l :: l in done <==> l in Log() && (l.q > q || (l.q == q && l.p >= c))
        invariant c > 0 ==> states[q] in {NeedsScan, Allocating}
        invariant OneAllocating() && seqNumber == old(seqNumber)
        invariant seqNumber != q ==> allocBlock == old(allocBlock)
        invariant states[q].NeedsScan? ==> allocBlock == old(allocBlock)
      {
        c := c - 1;
        found := ScanChunk(q, c, found);
      }
      if states[q] == NeedsScan {
        states := states[q := Full];
      }
      if (forall l :: l in bits ==> l.q != q) && q !in flags && states[q] == Full {
        dirtied := dirtied + {q};        // to be erased
      }
    }

    /** Stop using a partly written block. */
    method SkipRestOfBlock()
      requires OneAllocating()
      modifies `states, `allocBlock
      ensures OneAllocating() && states.Keys == old(states).Keys
      ensures forall r :: r in states ==>
                states[r] == if old(states)[r].Allocating? then Full else old(states)[r]
    {
      if allocBlock > 0 && allocBlock in states && states[allocBlock] == Allocating {
        states := states[allocBlock := Full];
        allocBlock := -1;
      }
    }

    /** Scans the blocks of a log, given by rising sequence number. What it finds is what
        replaying the log from its oldest chunk gives. */
    method ScanBackwards(blocks: seq<nat>)
      requires Valid() && OneAllocating() && allocBlock == -1 && done == {} && dirtied == {}
      requires forall i, j :: 0 <= i < j < |blocks| ==> blocks[i] < blocks[j]
      requires forall l :: l in Log() ==> l.q in blocks && l.p < cpb
      modifies this
      ensures Valid() && done == Log().Keys
      ensures forall r :: r in blocks ==> r in states && !states[r].Allocating?
      ensures IsLiveMap(cs, Log(), chunks)
      ensures forall order :: Lists(Log(), order) ==> chunks == Replay(cs, Log(), order)
      ensures forall l :: l in bits <==> Kept(cs, Log(), l)
      ensures forall q :: q in flags <==> exists m :: m in Log() && m.q == q && Shrinks(Log(), m)
      ensures forall o :: FindOrCreate(o).valid <==> exists h :: IsHeader(Log(), h, o)
      ensures forall o :: FindOrCreate(o).valid ==> Newest(Log(), FindOrCreate(o).hdr, o)
      ensures forall o :: LoggedSize(cs, Log(), o, FindOrCreate(o).storedSize)
      ensures forall o :: FindOrCreate(o).fileSize == FindOrCreate(o).storedSize
      ensures forall q :: q in dirtied ==> Stale(cs, Log(), q)
    {
      hide Ok, LogOf, IsLiveMap, LoggedSize, Stale, Newest, Shrinks, Kept, IsHeader, Lists, Replay;
      states := map q | q in blocks :: NeedsScan;
      ScanAllBlocks(blocks);
      SkipRestOfBlock();
      ScanResult();
    }

    method ScanAllBlocks(blocks: seq<nat>)
      requires Valid() && OneAllocating() && allocBlock == -1 && done == {} && dirtied == {}
      requires forall i, j :: 0 <= i < j < |blocks| ==> blocks[i] < blocks[j]
      requires forall l :: l in Log() ==> l.q in blocks && l.p < cpb
      requires forall q :: q in blocks ==> q in states && states[q] == NeedsScan
      modifies this
      ensures Valid() && OneAllocating() && done == Log().Keys
      ensures forall r :: r in blocks ==> r in states
      ensures forall q :: q in dirtied ==> Stale(cs, Log(), q)
    {
      hide Ok, LogOf;
      if |blocks| > 0 && blocks[|blocks| - 1] >= seqNumber {
        seqNumber := blocks[|blocks| - 1];
      }
      var k: nat := |blocks|;
      while k > 0
        invariant 0 <= k <= |blocks| && Valid() && OneAllocating()
        invariant forall i :: 0 <= i < k && blocks[i] == seqNumber ==> allocBlock == -1
        invariant states.Keys == old(states).Keys
        invariant forall i :: 0 <= i < k ==> blocks[i] in states && states[blocks[i]] == NeedsScan
        invariant forall l :: l in done <==> l in Log() && k < |blocks| && l.q >= blocks[k]
        invariant forall q :: q in dirtied ==> k < |blocks| && q >= blocks[k] && Stale(cs, Log(), q)
      {
        k := k - 1;
        ghost var d := dirtied;
        NoBlockBetween(blocks, k);
        ScanBlock(blocks[k]);
        if blocks[k] in dirtied && blocks[k] !in d {
          StaleBlock(blocks[k]);
        }
      }
    }

    lemma NoBlockBetween(blocks: seq<nat>, k: nat)
      requires k < |blocks|
      requires forall i, j :: 0 <= i < j < |blocks| ==> blocks[i] < blocks[j]
      ensures forall q :: q in blocks ==> (q > blocks[k] <==> k + 1 < |blocks| && q >= blocks[k + 1])
    {}

    lemma StaleBlock(q: nat)
      requires Valid() && q !in flags
      requires forall l :: l in bits ==> l.q != q
      requires forall l :: l in Log() && l.q == q ==> l in done
      ensures Stale(cs, Log(), q)
    {}

    lemma ScanResult()
      requires Valid() && done == Log().Keys
      ensures IsLiveMap(cs, Log(), chunks)
      ensures forall order :: Lists(Log(), order) ==> chunks == Replay(cs, Log(), order)
      ensures forall l :: l in bits <==> Kept(cs, Log(), l)
      ensures forall q :: q in flags <==> exists m :: m in Log() && m.q == q && Shrinks(Log(), m)
      ensures forall o :: FindOrCreate(o).valid <==> exists h :: IsHeader(Log(), h, o)
      ensures forall o :: FindOrCreate(o).valid ==> Newest(Log(), FindOrCreate(o).hdr, o)
      ensures forall o :: LoggedSize(cs, Log(), o, FindOrCreate(o).storedSize)
      ensures forall o :: FindOrCreate(o).fileSize == FindOrCreate(o).storedSize
    {
      var fl := Log();
      forall l | l in fl && fl[l].Data? && Winner(cs, fl, l, fl[l].obj, fl[l].slot)
        ensures Key(fl[l].obj, fl[l].slot) in chunks && chunks[Key(fl[l].obj, fl[l].slot)] == l
      {
        var k := Key(fl[l].obj, fl[l].slot);
        WinnerUnique(cs, fl, l, chunks[k], k.obj, k.slot);
      }
      forall order | Lists(fl, order)
        ensures chunks == Replay(cs, fl, order)
      {
        ReplayIsLive(cs, fl, order);
        LiveMapUnique(cs, fl, chunks, Replay(cs, fl, order));
      }
      forall o
        ensures FindOrCreate(o).valid <==> exists h :: IsHeader(fl, h, o)
        ensures LoggedSize(cs, fl, o, FindOrCreate(o).storedSize)
      {
        assert SizeAtLeast(cs, fl, done, o, FindOrCreate(o).storedSize);
        assert SizeReached(cs, fl, done, o, FindOrCreate(o).storedSize);
      }
    }
  }
}
