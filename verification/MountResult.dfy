/** What a mount finds after any run is what was in memory. */
module MountResult {
  import opened FlashLog
  import opened LogMachine
  import opened LogCollect
  import LogContents
  import SS = ScanState
  import Mount

  lemma FlagsRebuilt(cs: nat, s: State, q: nat, sc: SS.Scan)
    requires LogOk(cs, s) && SS.FlagsOk(s.fl, s.fl.Keys, sc.flags)
    ensures sc.flags == DoRemount(s, q).flags
  {
    forall r
      ensures r in sc.flags <==> r in DoRemount(s, q).flags
    {
      if r in sc.flags {
        var m :| m in s.fl && m.q == r && SS.Shrinks(s.fl, m);
        assert s.fl[m].shrink;
      }
      if r in DoRemount(s, q).flags {
        var l :| l in s.fl && s.fl[l].Header? && s.fl[l].shrink && l.q == r;
        assert SS.Shrinks(s.fl, l);
      }
    }
  }

  lemma HeadersRebuilt(cs: nat, s: State, sc: SS.Scan, o: nat)
    requires FilesOk(s) && SS.HeadersOk(cs, s.fl, s.fl.Keys, sc.objs) && o in s.files
    ensures SS.Get(cs, sc.objs, o).valid && SS.Get(cs, sc.objs, o).hdr == s.files[o].hdr
  {
    var i := SS.Get(cs, sc.objs, o);
    var h := s.files[o].hdr;
    assert IsHeader(s.fl, h, o);
    assert i.valid;
    assert IsHeader(s.fl, i.hdr, o);
  }

  /** The logged size is unique. */
  lemma LoggedSizeUnique(cs: nat, fl: Flash, o: nat, y: int, z: int)
    requires LoggedSize(cs, fl, o, y) && LoggedSize(cs, fl, o, z)
    ensures y == z
  {}

  lemma SizeRebuilt(cs: nat, s: State, sc: SS.Scan, o: nat)
    requires Inv(cs, s) && s.trunc == map[] && o in s.files
    requires SS.SizesOk(cs, s.fl, s.fl.Keys, sc.objs)
    ensures SS.Get(cs, sc.objs, o).storedSize == SS.Get(cs, sc.objs, o).fileSize == s.files[o].storedSize
  {
    var i := SS.Get(cs, sc.objs, o);
    RebuiltMatches(cs, s);
    assert SS.SizeAtLeast(cs, s.fl, s.fl.Keys, o, i.storedSize);
    assert SS.SizeReached(cs, s.fl, s.fl.Keys, o, i.storedSize);
    assert LoggedSize(cs, s.fl, o, i.storedSize);
    LoggedSizeUnique(cs, s.fl, o, i.storedSize, s.files[o].storedSize);
  }

  /** After any run the scan of the log finds, for every file, its chunk map, its current header
      and its stored size, and marks the blocks that the remount step marks. A file grown over a
      hole and not yet written to comes back with its stored size as its size. */
  lemma ScanFindsMemory(cs: nat, trace: seq<State>, steps: seq<Step>, n: nat, sc: SS.Scan, q: nat)
    requires Run(cs, trace, steps) && n < |trace| && trace[n].trunc == map[]
    requires SS.Ok(cs, trace[n].fl, trace[n].fl.Keys, sc) && IsLiveMap(cs, trace[n].fl, sc.chunks)
    ensures sc.chunks == LiveMap(trace[n].files)
    ensures sc.flags == DoRemount(trace[n], q).flags
    ensures forall o :: o in trace[n].files ==>
              var i := SS.Get(cs, sc.objs, o);
              i.valid && i.hdr == trace[n].files[o].hdr
              && i.fileSize == i.storedSize == trace[n].files[o].storedSize
  {
    var s := trace[n];
    RunKeeps(cs, trace, steps, n);
    RebuiltMatches(cs, s);
    LiveMapUnique(cs, s.fl, sc.chunks, LiveMap(s.files));
    FlagsRebuilt(cs, s, q, sc);
    forall o | o in s.files
      ensures var i := SS.Get(cs, sc.objs, o);
        i.valid && i.hdr == s.files[o].hdr && i.fileSize == i.storedSize == s.files[o].storedSize
    {
      HeadersRebuilt(cs, s, sc, o);
      SizeRebuilt(cs, s, sc, o);
    }
  }

  /** Power is lost after any run, outside a truncation, and the device is mounted: the scan of what
      is on flash leaves the chunk maps, headers and stored sizes that were in memory, the shrink
      flags that they need, and no block marked for erasure that holds anything wanted. The chunks
      found are those written and not cut off since, and hold the bytes last written. */
  method MountAfterRun(
    cs: nat, cpb: nat, pages: Mount.Pages, blocks: seq<nat>,
    ghost trace: seq<State>, ghost steps: seq<Step>, ghost data: seq<LogContents.Bytes>, ghost n: nat, ghost q: nat)
    returns (scan: Mount.Scanner)
    requires cs > 0 && Run(cs, trace, steps) && n < |trace| && trace[n].trunc == map[]
    requires Mount.LogOf(cs, pages) == trace[n].fl && LogContents.Brings(steps, data)
    requires forall i, j :: 0 <= i < j < |blocks| ==> blocks[i] < blocks[j]
    requires forall l :: l in trace[n].fl ==> l.q in blocks && l.p < cpb
    ensures scan.chunks == LiveMap(trace[n].files)
    ensures scan.chunks.Keys == LogContents.WantedAt(steps, data, n).Keys
    ensures forall k :: k in scan.chunks ==>
              LogContents.Holds(trace[n].fl, LogContents.HeldAt(trace, steps, data, n), scan.chunks[k],
                                LogContents.WantedAt(steps, data, n)[k])
    ensures scan.flags == DoRemount(trace[n], q).flags
    ensures forall o :: o in trace[n].files ==>
              var i := scan.FindOrCreate(o);
              i.valid && i.hdr == trace[n].files[o].hdr
              && i.fileSize == i.storedSize == trace[n].files[o].storedSize
    ensures forall l :: Live(trace[n], l) ==> l in scan.bits
    ensures forall l :: l in scan.bits ==> Live(trace[n], l) || IsDeletion(trace[n], l)
    ensures forall r, l :: r in scan.dirtied && Live(trace[n], l) ==> l.q != r
  {
    ghost var s := trace[n];
    scan := new Mount.Scanner(cs, cpb, pages);
    hide Run, Inv, SS.Ok, SS.Kept, SS.Shrinks, Live, IsDeletion, IsLiveMap, LiveMap, DoRemount;
    hide Newest, LoggedSize, IsHeader, Mount.LogOf, Mount.Stale;
    hide LogContents.Holds, LogContents.HeldAt, LogContents.WantedAt;
    scan.ScanBackwards(blocks);
    assert scan.Log() == s.fl;
    ScanFindsMemory(cs, trace, steps, n, scan.View(), q);
    LogContents.MountFindsWritten(cs, trace, steps, data, n, scan.chunks);
    RunKeeps(cs, trace, steps, n);
    forall l
      ensures Live(s, l) ==> SS.Kept(cs, s.fl, l)
      ensures SS.Kept(cs, s.fl, l) ==> Live(s, l) || IsDeletion(s, l)
    {
      KeptIsLive(cs, s, l);
    }
    forall r, l | r in scan.dirtied && Live(s, l)
      ensures l.q != r
    {
      StaleNotLive(cs, s, r, l);
    }
  }

  /** A header that puts its object among the deleted ones: the mount finishes the deletion. */
  ghost predicate IsDeletion(s: State, l: Loc) {
    l in s.fl && s.fl[l].Header? && s.fl[l].gone && s.fl[l].obj !in s.files
  }

  lemma StaleNotLive(cs: nat, s: State, r: nat, l: Loc)
    requires Mount.Stale(cs, s.fl, r) && (Live(s, l) ==> SS.Kept(cs, s.fl, l))
    ensures Live(s, l) ==> l.q != r
  {}

  /** What a scan keeps, deleted objects apart, is what memory refers to. */
  lemma KeptIsLive(cs: nat, s: State, l: Loc)
    requires Inv(cs, s) && s.trunc == map[]
    ensures Live(s, l) ==> SS.Kept(cs, s.fl, l)
    ensures SS.Kept(cs, s.fl, l) ==> Live(s, l) || IsDeletion(s, l)
  {
    RebuiltMidCut(cs, s);
  }
}
