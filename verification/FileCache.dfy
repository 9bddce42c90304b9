/** Reading, writing and resizing files through the short-op cache. */
module FileCache {
  import opened Basics
  import opened CacheStore

  const HOLE_THRESHOLD: nat := 4

  class Files {
    const cs: nat
    const bypassAligned: bool
    const inbandTags: bool
    const cache: array<Entry>
    var flash: map<ChunkId, seq<Byte>>
    var sizes: map<nat, nat>
    var cacheLastUse: int

    ghost function St(): Store
      reads this, cache
    {
      Store(cache[..], flash)
    }

    ghost predicate Valid()
      reads this, cache
    {
      cs > 0 && StoreOk(cs, St(), sizes)
    }

    ghost predicate Tidy()
      reads this, cache
    {
      Valid() && WithinFiles(cs, St(), sizes)
    }

    /** An empty cache over empty flash, and no files. */
    constructor (cs: nat, nCaches: nat, bypassAligned: bool, inbandTags: bool)
      requires cs > 0
      ensures Tidy() && flash == map[] && sizes == map[] && this.cs == cs && cache.Length == nCaches
      ensures this.bypassAligned == bypassAligned && this.inbandTags == inbandTags
      ensures forall i :: 0 <= i < nCaches ==> cache[i].obj == 0
    {
      this.cs, this.bypassAligned, this.inbandTags := cs, bypassAligned, inbandTags;
      cache := new Entry[nCaches](_ => Entry(0, 0, 0, false, 0, false, []));
      flash, sizes, cacheLastUse := map[], map[], 0;
    }

    /** A new file is empty: it reads as zeros, and nothing else has changed. */
    method NewFile(o: nat)
      requires Tidy() && o != 0 && o !in sizes
      modifies this`sizes
      ensures Tidy() && sizes == old(sizes)[o := 0] && St() == old(St())
      ensures forall off: nat :: At(cs, St(), o, off) == 0
    {
      ghost var st, s := St(), sizes;
      NothingYet(st, s, o);
      hide StoreOk, WithinFiles;
      sizes := sizes[o := 0];
    }

    lemma NothingYet(st: Store, s: map<nat, nat>, o: nat)
      requires cs > 0 && StoreOk(cs, st, s) && WithinFiles(cs, st, s) && o != 0 && o !in s
      ensures StoreOk(cs, st, s[o := 0]) && WithinFiles(cs, st, s[o := 0])
      ensures forall off: nat :: At(cs, st, o, off) == 0
    {
      forall i | 0 <= i < |st.es|
        ensures EntryOk(cs, st, s[o := 0], st.es[i]) && st.es[i].obj != o
      {
        assert EntryOk(cs, st, s, st.es[i]);
      }
      assert forall k :: ChunkId(o, k) !in st.flash;
      assert forall i, k :: !Holds(st.es, i, o, k);
    }

    // ----- finding and flushing entries -----

    method FindChunkCache(o: nat, k: nat) returns (r: int)
      ensures r < cache.Length
      ensures r >= 0 ==> Holds(cache[..], r, o, k)
      ensures r < 0 ==> forall j :: !Holds(cache[..], j, o, k)
    {
      for i := 0 to cache.Length
        invariant forall j :: 0 <= j < i ==> !Holds(cache[..], j, o, k)
      {
        if cache[i].obj == o && cache[i].chunk == k {
          return i;
        }
      }
      r := -1;
    }

    /** Writes an entry out if it is dirty, and gives it up if asked. Keeps what readers see, for
        whatever file sizes `sz` the store is consistent with. */
    method FlushSingleCache(i: nat, discard: bool, ghost sz: map<nat, nat>)
      requires i < cache.Length && StoreOk(cs, St(), sz) && cache[i].obj != 0
      modifies this`flash, cache
      ensures St() == Flushed(old(St()), i, discard)
      ensures StoreOk(cs, St(), sz) && SameView(cs, old(St()), St()) && AllSpared(cs, old(St()), St())
    {
      ghost var st := St();
      assert EntryOk(cs, st, sz, cache[i]);
      FlushedOk(cs, st, sz, i, discard);
      FlushedView(cs, st, sz, i, discard);
      FlushedSpared(cs, st, sz, i, discard);
      hide StoreOk, SameView, AllSpared;
      var e := cache[i];
      if e.dirty {
        var _ := WrDataObj(e.obj, e.chunk, e.data, e.nBytes, true);
        e := e.(dirty := false);
      }
      if discard {
        e := e.(obj := 0);
      }
      cache[i] := e;
      assert cache[..] == st.es[i := e];
    }

    lemma SparedRefl(st: Store)
      ensures AllSpared(cs, st, st)
    {}

    lemma FlushedWithin(st: Store, i: nat, discard: bool)
      requires i < |st.es| && st.es[i].obj != 0
      ensures forall w :: WithinFiles(cs, st, w) ==> WithinFiles(cs, Flushed(st, i, discard), w)
    {}

    lemma ViewTrans(a: Store, b: Store, c: Store)
      requires SameView(cs, a, b) && SameView(cs, b, c)
      ensures SameView(cs, a, c)
    {}

    method FlushFileCache(o: nat, discard: bool)
      requires Tidy() && o != 0
      modifies this`flash, cache
      ensures Tidy() && SameView(cs, old(St()), St())
      ensures forall j :: 0 <= j < cache.Length && cache[j].obj == o ==> !discard && !cache[j].dirty
    {
      ghost var st := St();
      var i := 0;
      while i < cache.Length
        invariant 0 <= i <= cache.Length && Tidy() && SameView(cs, st, St())
        invariant forall j :: 0 <= j < i && cache[j].obj == o ==> !discard && !cache[j].dirty
      {
        if cache[i].obj == o {
          ghost var t := St();
          FlushedWithin(t, i, discard);
          FlushSingleCache(i, discard, sizes);
          ViewTrans(st, t, St());
        }
        i := i + 1;
      }
    }

    /** A free entry, or the least recently used one, flushed. */
    method GrabChunkCache(ghost sz: map<nat, nat>) returns (r: nat)
      requires cache.Length > 0 && StoreOk(cs, St(), sz)
      modifies this`flash, cache
      ensures r < cache.Length && cache[r].obj == 0
      ensures forall j, o, k :: o != 0 && Holds(cache[..], j, o, k) ==> Holds(old(cache[..]), j, o, k)
      ensures if exists j :: 0 <= j < cache.Length && old(cache[j]).obj == 0
              then St() == old(St())
              else
                && St() == Flushed(old(St()), r, true)
                && forall j :: 0 <= j < cache.Length ==> old(cache[r]).lastUse <= old(cache[j]).lastUse
      ensures StoreOk(cs, St(), sz) && SameView(cs, old(St()), St()) && AllSpared(cs, old(St()), St())
      ensures forall w :: WithinFiles(cs, old(St()), w) ==> WithinFiles(cs, St(), w)
    {
      SparedRefl(St());
      for i := 0 to cache.Length
        invariant forall j :: 0 <= j < i ==> cache[j].obj != 0
      {
        if cache[i].obj == 0 {
          return i;
        }
      }
      var usage, found := -1, false;
      r := 0;
      for i := 0 to cache.Length
        invariant r < cache.Length && (i > 0 ==> found)
        invariant found ==> usage == cache[r].lastUse
        invariant found ==> forall j :: 0 <= j < i ==> cache[r].lastUse <= cache[j].lastUse
      {
        assert EntryOk(cs, St(), sz, cache[i]);
        if cache[i].obj != 0 && !cache[i].locked && (!found || cache[i].lastUse < usage) {
          usage, r, found := cache[i].lastUse, i, true;
        }
      }
      ghost var st := St();
      FlushedWithin(st, r, true);
      FlushSingleCache(r, true, sz);
    }

    /** Gives an entry the next use count. When the counter has run too far it starts again, and
        so do all entries but the first. */
    method UseCache(i: nat, ghost sz: map<nat, nat>)
      requires i < cache.Length && StoreOk(cs, St(), sz)
      modifies this`cacheLastUse, cache
      ensures Touched(old(cache[..]), cache[..])
      ensures cache[i].lastUse == cacheLastUse > 0
      ensures 0 <= old(cacheLastUse) <= 100000000 ==>
                cacheLastUse == old(cacheLastUse) + 1 && cache[..] == old(cache[..])[i := cache[i]]
      ensures (forall j :: 0 <= j < cache.Length ==> old(cache[j]).lastUse <= old(cacheLastUse) <= 100000000) ==>
                forall j :: 0 <= j < cache.Length && j != i ==> cache[j].lastUse < cache[i].lastUse
      ensures StoreOk(cs, St(), sz) && SameView(cs, old(St()), St()) && AllSpared(cs, old(St()), St())
      ensures forall w :: WithinFiles(cs, old(St()), w) ==> WithinFiles(cs, St(), w)
    {
      ghost var st := St();
      hide StoreOk;
      if cacheLastUse < 0 || cacheLastUse > 100000000 {
        var j := 1;
        while j < cache.Length
          invariant 1 <= j && Touched(st.es, cache[..])
          invariant forall m :: 1 <= m < j && m < cache.Length ==> cache[m].lastUse == 0
          invariant cache.Length > 0 ==> cache[0] == old(cache[0])
        {
          cache[j] := cache[j].(lastUse := 0);
          j := j + 1;
        }
        cacheLastUse := 0;
      }
      cacheLastUse := cacheLastUse + 1;
      cache[i] := cache[i].(lastUse := cacheLastUse);
      TouchedOk(cs, st, St(), sz);
      TouchedSpared(cs, st, St());
    }

    /** Makes an entry for a chunk that is not cached. */
    method LoadChunkCache(o: nat, k: nat, ghost sz: map<nat, nat>) returns (r: nat)
      requires cache.Length > 0 && StoreOk(cs, St(), sz)
      requires o != 0 && o in sz && k >= 1 && forall j :: !Holds(cache[..], j, o, k)
      modifies this`flash, cache
      ensures Holds(cache[..], r, o, k)
      ensures StoreOk(cs, St(), sz) && SameView(cs, old(St()), St()) && AllSpared(cs, old(St()), St())
      ensures forall w :: WithinFiles(cs, old(St()), w) ==> WithinFiles(cs, St(), w)
    {
      ghost var st := St();
      r := GrabChunkCache(sz);
      ghost var t := St();
      LoadedOk(cs, t, sz, r, o, k);
      LoadedWithin(t, r, o, k);
      LoadedSpared(cs, t, r, o, k);
      ViewTrans(st, t, Loaded(cs, t, r, o, k));
      SparedTrans(cs, st, t, Loaded(cs, t, r, o, k));
      hide StoreOk, SameView, WithinFiles, AllSpared;
      var data := RdDataObj(o, k);
      cache[r] := cache[r].(obj := o, chunk := k, dirty := false, locked := false, data := data);
      assert St() == Loaded(cs, t, r, o, k);
    }

    lemma LoadedWithin(st: Store, i: nat, o: nat, k: nat)
      requires i < |st.es|
      ensures forall w :: WithinFiles(cs, st, w) ==> WithinFiles(cs, Loaded(cs, st, i, o, k), w)
    {}

    /** The chunk on flash, or zeros for a hole. */
    method RdDataObj(o: nat, k: nat) returns (data: seq<Byte>)
      ensures data == FlashChunk(cs, flash, o, k)
    {
      if ChunkId(o, k) in flash {
        data := flash[ChunkId(o, k)];
      } else {
        data := Zeros(cs);
      }
    }

    // ----- reading -----

    /** Reads what lies in the first chunk of the range. */
    method ReadPiece(o: nat, offset: nat, n: nat) returns (piece: seq<Byte>)
      requires Tidy() && o != 0 && o in sizes && n > 0
      modifies this`flash, this`cacheLastUse, cache
      ensures Tidy() && SameView(cs, old(St()), St())
      ensures 0 < |piece| <= n && offset % cs + |piece| <= cs
      ensures |Visible(cs, old(St()), o, offset / cs + 1)| == cs
      ensures piece == Visible(cs, old(St()), o, offset / cs + 1)[offset % cs..offset % cs + |piece|]
    {
      var chunk, start := offset / cs + 1, offset % cs;
      var nCopy := if start + n < cs then n else cs - start;
      hide StoreOk, SameView, WithinFiles, Visible;
      VisibleOk(cs, St(), sizes, o, chunk);
      piece := ReadPart(o, chunk, start, nCopy);
    }

    /** Part of a chunk, or all of it. */
    method ReadPart(o: nat, chunk: nat, start: nat, nCopy: nat) returns (piece: seq<Byte>)
      requires Tidy() && o != 0 && o in sizes && chunk >= 1 && start + nCopy <= cs
      requires |Visible(cs, St(), o, chunk)| == cs
      modifies this`flash, this`cacheLastUse, cache
      ensures Tidy() && SameView(cs, old(St()), St())
      ensures piece == Visible(cs, old(St()), o, chunk)[start..start + nCopy]
    {
      ghost var st := St();
      var i := FindChunkCache(o, chunk);
      ViewRefl(st);
      if i >= 0 || nCopy != cs || inbandTags {
        if cache.Length > 0 {
          piece := ReadThroughCache(i, o, chunk, start, nCopy);
        } else {
          var data := RdDataObj(o, chunk);
          piece := data[start..start + nCopy];
        }
      } else {
        piece := RdDataObj(o, chunk);
        assert piece == piece[start..start + nCopy];
      }
    }

    lemma ViewRefl(st: Store)
      ensures SameView(cs, st, st)
    {}

    method ReadThroughCache(i: int, o: nat, k: nat, start: nat, nCopy: nat) returns (piece: seq<Byte>)
      requires Tidy() && o != 0 && o in sizes && k >= 1 && cache.Length > 0 && start + nCopy <= cs
      requires if i >= 0 then Holds(cache[..], i, o, k) else forall j :: !Holds(cache[..], j, o, k)
      requires |Visible(cs, St(), o, k)| == cs
      modifies this`flash, this`cacheLastUse, cache
      ensures Tidy() && SameView(cs, old(St()), St())
      ensures piece == Visible(cs, old(St()), o, k)[start..start + nCopy]
    {
      ghost var st := St();
      var r := i;
      ViewRefl(st);
      if i < 0 {
        r := LoadChunkCache(o, k, sizes);
      }
      ghost var t := St();
      Cached(cs, t, r, o, k);
      assert Visible(cs, t, o, k) == Visible(cs, st, o, k);
      hide StoreOk, SameView, WithinFiles;
      UseCache(r, sizes);
      ViewTrans(st, t, St());
      piece := cache[r].data[start..start + nCopy];
    }

    /** Reads a range of a file. The result is the slice of the file's bytes, zeros past its end. */
    method FileRd(o: nat, offset: nat, n: nat) returns (buffer: seq<Byte>)
      requires Tidy() && o != 0 && o in sizes
      modifies this`flash, this`cacheLastUse, cache
      ensures Tidy() && SameView(cs, old(St()), St())
      ensures |buffer| == n
      ensures forall j :: 0 <= j < n ==> buffer[j] == At(cs, old(St()), o, offset + j)
    {
      buffer := [];
      ghost var st := St();
      ViewRefl(st);
      hide SameView, WithinFiles, StoreOk, At;
      while |buffer| < n
        invariant |buffer| <= n && Tidy() && SameView(cs, st, St())
        invariant forall j :: 0 <= j < |buffer| ==> buffer[j] == At(cs, st, o, offset + j)
        decreases n - |buffer|
      {
        ghost var t := St();
        ghost var b := buffer;
        var piece := ReadPiece(o, offset + |buffer|, n - |buffer|);
        ViewTrans(st, t, St());
        PieceBytes(st, t, o, offset + |buffer|, piece);
        buffer := buffer + piece;
        forall j | 0 <= j < |buffer|
          ensures buffer[j] == At(cs, st, o, offset + j)
        {
          assert j >= |b| ==> buffer[j] == piece[j - |b|];
        }
      }
    }

    lemma PieceBytes(st: Store, t: Store, o: nat, offset: nat, piece: seq<Byte>)
      requires cs > 0 && o != 0 && SameView(cs, st, t)
      requires offset % cs + |piece| <= cs && |Visible(cs, t, o, offset / cs + 1)| == cs
      requires piece == Visible(cs, t, o, offset / cs + 1)[offset % cs..offset % cs + |piece|]
      ensures forall j: nat :: j < |piece| ==> piece[j] == At(cs, st, o, offset + j)
    {
      assert Visible(cs, t, o, offset / cs + 1) == Visible(cs, st, o, offset / cs + 1);
      hide SameView, Visible;
      forall j: nat | j < |piece|
        ensures piece[j] == At(cs, st, o, offset + j)
      {
        PieceByte(st, o, offset, piece, j);
      }
    }

    lemma PieceByte(st: Store, o: nat, offset: nat, piece: seq<Byte>, j: nat)
      requires cs > 0 && offset % cs + |piece| <= cs && |Visible(cs, st, o, offset / cs + 1)| == cs && j < |piece|
      requires piece == Visible(cs, st, o, offset / cs + 1)[offset % cs..offset % cs + |piece|]
      ensures piece[j] == At(cs, st, o, offset + j)
    {
      hide Visible;
      SameChunk(cs, offset, offset + j, |piece|);
    }

    // ----- writing -----

    method CheckAllocAvailable() returns (ok: bool)
    {
      ok := *;
    }

    /** Writes a chunk. A write that may not use the reserve fails when only that is left. */
    method WrDataObj(o: nat, k: nat, data: seq<Byte>, n: nat, useReserve: bool) returns (ok: bool)
      requires 1 <= n <= cs
      modifies this`flash
      ensures useReserve ==> ok
      ensures flash == if ok then old(flash)[ChunkId(o, k) := data] else old(flash)
    {
      ok := true;
      if !useReserve {
        ok := CheckAllocAvailable();
      }
      if ok {
        flash := flash[ChunkId(o, k) := data];
      }
    }

    method InvalidateChunkCache(o: nat, k: nat)
      requires o != 0 && Unique(cache[..])
      modifies cache
      ensures forall j :: 0 <= j < cache.Length ==>
                cache[..][j] == if Holds(old(cache[..]), j, o, k)
                                then old(cache[..])[j].(obj := 0) else old(cache[..])[j]
    {
      var i := FindChunkCache(o, k);
      if i >= 0 {
        ghost var es := cache[..];
        cache[i] := cache[i].(obj := 0);
        assert cache[..] == es[i := es[i].(obj := 0)];
      }
    }

    /** Writes a whole chunk from the buffer, past the cache. The entry of the chunk is given up
        even if the write fails, and what it held alone is then lost. */
    method WriteDirect(o: nat, k: nat, data: seq<Byte>, n: nat, ghost sz: map<nat, nat>) returns (ok: bool)
      requires StoreOk(cs, St(), sz) && o != 0 && o in sz && k >= 1 && 1 <= n <= cs
      requires |data| == cs && ZeroTail(cs, sz[o], k, data)
      modifies this`flash, cache
      ensures StoreOk(cs, St(), sz)
      ensures ok ==> Wrote(cs, old(St()), St(), o, k, data) && SparedBut(cs, old(St()), St(), o, k)
      ensures ok ==> St().flash == old(flash)[ChunkId(o, k) := data]
      ensures !ok ==> St() == Forgotten(old(St()), o, k)
      ensures !ok ==> (SameView(cs, old(St()), St()) <==> !Unsaved(cs, old(St()), o, k))
      ensures |St().es| == |old(St()).es|
      ensures forall j :: 0 <= j < cache.Length ==>
                cache[..][j] == old(cache[..])[j] || cache[..][j] == old(cache[..])[j].(obj := 0)
    {
      ghost var st := St();
      ok := WrDataObj(o, k, data, n, false);
      InvalidateChunkCache(o, k);
      if ok {
        DirectOk(cs, st, sz, St(), o, k, data);
        DirectSpared(cs, st, St(), o, k, data);
      } else {
        assert cache[..] == Forgotten(st, o, k).es;
        ForgottenOk(cs, st, sz, o, k);
        ForgottenSeen(cs, st, sz, o, k);
      }
    }

    /** The part of a chunk's entry that is written; the entry becomes dirty. */
    method WriteEntry(
      i: nat, o: nat, k: nat, start: nat, piece: seq<Byte>, n: nat, ghost sz: map<nat, nat>)
      requires StoreOk(cs, St(), sz) && Holds(cache[..], i, o, k) && o != 0 && o in sz && k >= 1
      requires 1 <= n <= cs && start + |piece| <= cs
      requires |Visible(cs, St(), o, k)| == cs
      requires ZeroTail(cs, sz[o], k, Patched(Visible(cs, St(), o, k), start, piece))
      modifies this`cacheLastUse, cache
      ensures StoreOk(cs, St(), sz) && Holds(cache[..], i, o, k)
      ensures Wrote(cs, old(St()), St(), o, k, Patched(Visible(cs, old(St()), o, k), start, piece))
      ensures SparedBut(cs, old(St()), St(), o, k)
      ensures forall w :: WithinFiles(cs, old(St()), w) && (o in w ==> (k - 1) * cs < w[o]) ==>
                WithinFiles(cs, St(), w)
    {
      ghost var st := St();
      var data := cache[i].data;
      Cached(cs, st, i, o, k);
      data := data[..start] + piece + data[start + |piece|..];
      UseCache(i, sz);
      ghost var t := St();
      PokedOk(cs, t, sz, i, o, k, data, n);
      PokedSpared(cs, t, i, data, n, o, k);
      hide StoreOk, AllSpared, SparedBut;
      cache[i] := cache[i].(data := data, nBytes := n, dirty := true);
      assert St() == Poked(t, i, data, n);
      SparedRefl(St());
      SparedButTrans(cs, st, t, St(), St(), o, k);
      PokedWithin(st, t, St(), i, data, n, o, k);
    }

    lemma PokedWithin(st: Store, t: Store, u: Store, i: nat, data: seq<Byte>, n: nat, o: nat, k: nat)
      requires Touched(st.es, t.es) && st.flash == t.flash && i < |t.es| && u == Poked(t, i, data, n)
      requires Holds(st.es, i, o, k)
      ensures forall w :: WithinFiles(cs, st, w) && (o in w ==> (k - 1) * cs < w[o]) ==>
                WithinFiles(cs, u, w)
    {}

    lemma ViewWrote(a: Store, b: Store, c: Store, d: Store, o: nat, k: nat, data: seq<Byte>)
      requires SameView(cs, a, b) && Wrote(cs, b, c, o, k, data) && SameView(cs, c, d)
      requires o != 0 && k >= 1
      ensures Wrote(cs, a, d, o, k, data)
    {}

    /** Writes part of a chunk through the cache; fails when there is no space. */
    method WriteCached(
      o: nat, k: nat, start: nat, piece: seq<Byte>, nWriteback: nat, writeThrough: bool,
      ghost sz: map<nat, nat>, ghost w: map<nat, nat>) returns (ok: bool)
      requires cache.Length > 0 && StoreOk(cs, St(), sz) && WithinFiles(cs, St(), w)
      requires o != 0 && o in sz && o in w && k >= 1 && sz.Keys == w.Keys && (k - 1) * cs < w[o]
      requires 1 <= nWriteback <= cs && start + |piece| <= cs
      requires |Visible(cs, St(), o, k)| == cs
      requires ZeroTail(cs, sz[o], k, Patched(Visible(cs, St(), o, k), start, piece))
      modifies this`flash, this`cacheLastUse, cache
      ensures StoreOk(cs, St(), sz) && WithinFiles(cs, St(), w)
      ensures ok ==> Wrote(cs, old(St()), St(), o, k, Patched(Visible(cs, old(St()), o, k), start, piece))
      ensures ok ==> SparedBut(cs, old(St()), St(), o, k)
      ensures !ok ==> St() == old(St())
    {
      ghost var st := St();
      ViewRefl(st);
      SparedRefl(st);
      var i := FindChunkCache(o, k);
      var avail := CheckAllocAvailable();
      if i < 0 && !avail {
        return false;
      }
      if i >= 0 && !cache[i].dirty && !avail {
        return false;
      }
      if i < 0 {
        i := LoadForWrite(o, k, sz, w);
      }
      ghost var t := St();
      assert Visible(cs, t, o, k) == Visible(cs, st, o, k);
      ghost var data := Patched(Visible(cs, st, o, k), start, piece);
      hide StoreOk, SameView, WithinFiles, Wrote, ZeroTail, Patched, Visible, AllSpared, SparedBut;
      WriteEntry(i, o, k, start, piece, nWriteback, sz);
      ghost var u := St();
      ViewRefl(u);
      SparedRefl(u);
      if writeThrough {
        FlushedWithin(u, i, false);
        FlushSingleCache(i, false, sz);
      }
      ViewWrote(st, t, u, St(), o, k, data);
      SparedButTrans(cs, st, t, u, St(), o, k);
      ok := true;
    }

    method LoadForWrite(o: nat, k: nat, ghost sz: map<nat, nat>, ghost w: map<nat, nat>) returns (r: nat)
      requires cache.Length > 0 && StoreOk(cs, St(), sz) && WithinFiles(cs, St(), w)
      requires o != 0 && o in sz && k >= 1 && forall j :: !Holds(cache[..], j, o, k)
      modifies this`flash, cache
      ensures Holds(cache[..], r, o, k)
      ensures StoreOk(cs, St(), sz) && SameView(cs, old(St()), St()) && WithinFiles(cs, St(), w)
      ensures AllSpared(cs, old(St()), St())
    {
      r := LoadChunkCache(o, k, sz);
    }

    lemma DirectWithin(st: Store, st': Store, w: map<nat, nat>, o: nat, k: nat, data: seq<Byte>)
      requires WithinFiles(cs, st, w) && o in w && (k - 1) * cs < w[o]
      requires st'.flash == st.flash[ChunkId(o, k) := data] && |st'.es| == |st.es|
      requires forall j :: 0 <= j < |st.es| ==>
                 st'.es[j] == st.es[j] || st'.es[j] == st.es[j].(obj := 0)
      ensures WithinFiles(cs, st', w)
    {}

    /** A whole chunk, past the cache; it fails when only the reserve is left. */
    method WriteWhole(
      o: nat, k: nat, data: seq<Byte>, n: nat, ghost sz: map<nat, nat>, ghost w: map<nat, nat>)
      returns (ok: bool)
      requires StoreOk(cs, St(), sz) && WithinFiles(cs, St(), w)
      requires o != 0 && o in sz && o in w && k >= 1 && (k - 1) * cs < w[o]
      requires 1 <= n <= cs && |data| == cs && ZeroTail(cs, sz[o], k, data)
      modifies this`flash, cache
      ensures StoreOk(cs, St(), sz) && WithinFiles(cs, St(), w)
      ensures ok ==> Wrote(cs, old(St()), St(), o, k, data) && SparedBut(cs, old(St()), St(), o, k)
      ensures !ok ==> St() == Forgotten(old(St()), o, k)
      ensures !ok ==> (SameView(cs, old(St()), St()) <==> !Unsaved(cs, old(St()), o, k))
    {
      ghost var st := St();
      ForgottenOk(cs, st, sz, o, k);
      hide StoreOk, WithinFiles, Wrote, SparedBut, SameView, Unsaved, Forgotten;
      ok := WriteDirect(o, k, data, n, sz);
      if ok {
        DirectWithin(st, St(), w, o, k, data);
      }
    }

    /** Part of a chunk on a device without a cache: read, patched and written back. */
    method WriteUncached(
      o: nat, k: nat, start: nat, piece: seq<Byte>, n: nat, ghost sz: map<nat, nat>, ghost w: map<nat, nat>)
      returns (ok: bool)
      requires cache.Length == 0 && StoreOk(cs, St(), sz) && WithinFiles(cs, St(), w)
      requires o != 0 && o in sz && o in w && k >= 1 && (k - 1) * cs < w[o]
      requires 1 <= n <= cs && start + |piece| <= cs && |Visible(cs, St(), o, k)| == cs
      requires ZeroTail(cs, sz[o], k, Patched(Visible(cs, St(), o, k), start, piece))
      modifies this`flash
      ensures StoreOk(cs, St(), sz) && WithinFiles(cs, St(), w)
      ensures ok ==> Wrote(cs, old(St()), St(), o, k, Patched(Visible(cs, old(St()), o, k), start, piece))
      ensures ok ==> SparedBut(cs, old(St()), St(), o, k)
      ensures !ok ==> St() == old(St())
    {
      ghost var st := St();
      var data := RdDataObj(o, k);
      assert Visible(cs, st, o, k) == data by { assert forall j :: !Holds(cache[..], j, o, k); }
      data := Patched(data, start, piece);
      PatchedAt(Visible(cs, st, o, k), start, piece, 0);
      ok := WrDataObj(o, k, data, n, false);
      hide Patched, Visible;
      if ok {
        DirectOk(cs, st, sz, St(), o, k, data);
        DirectSpared(cs, st, St(), o, k, data);
        DirectWithin(st, St(), w, o, k, data);
      }
    }

    /** Whether a piece of that length is written past the cache. */
    predicate Bypasses(n: nat) {
      n == cs && bypassAligned && !inbandTags
    }

    /** One chunk's part of a write, through the cache or past it. */
    method WritePiece(
      o: nat, k: nat, start: nat, piece: seq<Byte>, nWriteback: nat, writeThrough: bool,
      ghost sz: map<nat, nat>, ghost w: map<nat, nat>) returns (ok: bool)
      requires StoreOk(cs, St(), sz) && WithinFiles(cs, St(), w)
      requires o != 0 && o in sz && o in w && k >= 1 && sz.Keys == w.Keys && (k - 1) * cs < w[o]
      requires 1 <= nWriteback <= cs && start + |piece| <= cs
      requires |Visible(cs, St(), o, k)| == cs
      requires ZeroTail(cs, sz[o], k, Patched(Visible(cs, St(), o, k), start, piece))
      modifies this`flash, this`cacheLastUse, cache
      ensures StoreOk(cs, St(), sz) && WithinFiles(cs, St(), w)
      ensures ok ==> Wrote(cs, old(St()), St(), o, k, Patched(Visible(cs, old(St()), o, k), start, piece))
      ensures ok ==> SparedBut(cs, old(St()), St(), o, k)
      ensures !ok ==> St() == if Bypasses(|piece|) then Forgotten(old(St()), o, k) else old(St())
    {
      ghost var st := St();
      ghost var seen := Visible(cs, st, o, k);
      hide StoreOk, WithinFiles, Wrote, SameView, ZeroTail, SparedBut, Unsaved, Forgotten;
      if |piece| != cs || !bypassAligned || inbandTags {
        if cache.Length > 0 {
          ok := WriteCached(o, k, start, piece, nWriteback, writeThrough, sz, w);
        } else {
          ok := WriteUncached(o, k, start, piece, nWriteback, sz, w);
        }
      } else {
        assert Patched(seen, start, piece) == piece;
        ok := WriteWhole(o, k, piece, cs, sz, w);
      }
    }

    lemma WithinGrow(st: Store, w: map<nat, nat>, o: nat, z: nat)
      requires WithinFiles(cs, st, w) && o in w && w[o] <= z
      ensures WithinFiles(cs, st, w[o := z])
    {}

    function Max(a: nat, b: nat): nat { if a < b then b else a }

    /** The end of what is stored after a write up to `end`: filling with zeros stores nothing
        new past `a`. */
    ghost function EndAfter(a: nat, end: nat, fill: bool): nat {
      if fill then a else Max(a, end)
    }

    lemma RoundReady(st: Store, o: nat, offset: nat, piece: seq<Byte>, a: nat, b: nat, w: nat, v: nat)
      requires cs > 0 && o != 0 && o in sizes && a <= b && w <= v
      requires StoreOk(cs, st, sizes[o := a]) && WithinFiles(cs, st, sizes[o := w])
      requires offset % cs + |piece| <= cs
      requires forall j :: 0 <= j < |piece| && offset + j >= b ==> piece[j] == 0
      ensures StoreOk(cs, st, sizes[o := b]) && WithinFiles(cs, st, sizes[o := v])
      ensures |Visible(cs, st, o, offset / cs + 1)| == cs
      ensures ZeroTail(cs, b, offset / cs + 1,
                       Patched(Visible(cs, st, o, offset / cs + 1), offset % cs, piece))
    {
      GrowOk(cs, st, sizes[o := a], o, b);
      assert sizes[o := a][o := b] == sizes[o := b];
      WithinGrow(st, sizes[o := w], o, v);
      assert sizes[o := w][o := v] == sizes[o := v];
      VisibleOk(cs, st, sizes[o := a], o, offset / cs + 1);
      PatchedTail(cs, Visible(cs, st, o, offset / cs + 1), offset, piece, a, b);
    }

    lemma StartsBefore(offset: nat, v: nat)
      requires cs > 0 && offset < v
      ensures (offset / cs + 1 - 1) * cs < v
    {
      assert offset == offset / cs * cs + offset % cs;
    }

    lemma RoundWrote(st: Store, u: Store, o: nat, offset: nat, piece: seq<Byte>)
      requires cs > 0 && o != 0 && offset % cs + |piece| <= cs
      requires |Visible(cs, st, o, offset / cs + 1)| == cs
      requires Wrote(cs, st, u, o, offset / cs + 1,
                     Patched(Visible(cs, st, o, offset / cs + 1), offset % cs, piece))
      ensures Spliced(cs, st, u, o, offset, piece)
    {
      ViewRefl(st);
      WroteIsSplice(cs, st, st, u, o, offset, piece,
                    Patched(Visible(cs, st, o, offset / cs + 1), offset % cs, piece));
    }

    /** One round of the write loop. If it fails past the cache, the chunk's entry is gone. */
    method WriteRound(
      o: nat, offset: nat, rest: seq<Byte>, writeThrough: bool,
      ghost a: nat, ghost w: nat, ghost fill: bool) returns (n: nat)
      requires cs > 0 && o != 0 && o in sizes && |rest| > 0
      requires StoreOk(cs, St(), sizes[o := a]) && WithinFiles(cs, St(), sizes[o := w])
      requires fill ==> forall j :: 0 <= j < |rest| ==> rest[j] == 0
      modifies this`flash, this`cacheLastUse, cache
      ensures n <= |rest|
      ensures StoreOk(cs, St(), sizes[o := if n == 0 then a else EndAfter(a, offset + n, fill)])
      ensures WithinFiles(cs, St(), sizes[o := if n == 0 then w else Max(w, offset + n)])
      ensures n > 0 ==> Spliced(cs, old(St()), St(), o, offset, rest[..n])
      ensures n > 0 ==> SparedBut(cs, old(St()), St(), o, offset / cs + 1)
      ensures n == 0 && St() != old(St()) ==>
                MayLose(offset, |rest|) && St() == Forgotten(old(St()), o, offset / cs + 1)
    {
      var nCopy, nWriteback := PieceShare(cs, sizes[o], offset, |rest|);
      ghost var st := St();
      ForgottenRound(st, o, offset / cs + 1, a, w);
      hide StoreOk, WithinFiles, Spliced, Forgotten, SparedBut, EndAfter, Max;
      n := WriteShare(o, offset, rest[..nCopy], nWriteback, writeThrough, a, w, fill);
      assert rest[..nCopy][..n] == rest[..n];
    }

    /** The round once its share is known. */
    method WriteShare(
      o: nat, offset: nat, piece: seq<Byte>, nWriteback: nat, writeThrough: bool,
      ghost a: nat, ghost w: nat, ghost fill: bool) returns (n: nat)
      requires cs > 0 && o != 0 && o in sizes && |piece| > 0 && offset % cs + |piece| <= cs
      requires 1 <= nWriteback <= cs
      requires StoreOk(cs, St(), sizes[o := a]) && WithinFiles(cs, St(), sizes[o := w])
      requires fill ==> forall j :: 0 <= j < |piece| ==> piece[j] == 0
      modifies this`flash, this`cacheLastUse, cache
      ensures n == 0 || n == |piece|
      ensures n == 0 ==> St() == if Bypasses(|piece|) then Forgotten(old(St()), o, offset / cs + 1) else old(St())
      ensures n > 0 ==> StoreOk(cs, St(), sizes[o := EndAfter(a, offset + n, fill)])
      ensures n > 0 ==> WithinFiles(cs, St(), sizes[o := Max(w, offset + n)])
      ensures n > 0 ==> Spliced(cs, old(St()), St(), o, offset, piece[..n])
      ensures n > 0 ==> SparedBut(cs, old(St()), St(), o, offset / cs + 1)
    {
      ghost var b, v := EndAfter(a, offset + |piece|, fill), Max(w, offset + |piece|);
      RoundReady(St(), o, offset, piece, a, b, w, v);
      StartsBefore(offset, v);
      hide StoreOk, WithinFiles, Wrote, ZeroTail, SameView, Spliced, Visible, Patched, Forgotten, SparedBut, EndAfter, Max;
      n := RoundPiece(o, offset, piece, nWriteback, writeThrough, sizes[o := b], sizes[o := v]);
    }

    lemma ForgottenRound(st: Store, o: nat, k: nat, a: nat, w: nat)
      requires o != 0 && StoreOk(cs, st, sizes[o := a]) && WithinFiles(cs, st, sizes[o := w])
      ensures StoreOk(cs, Forgotten(st, o, k), sizes[o := a])
      ensures WithinFiles(cs, Forgotten(st, o, k), sizes[o := w])
    {
      ForgottenOk(cs, st, sizes[o := a], o, k);
    }

    /** Where a failing write can lose a chunk: at the start of a chunk that it covers whole, on
        a device that writes such chunks past the cache. */
    predicate MayLose(offset: nat, n: nat)
      requires cs > 0
    {
      bypassAligned && !inbandTags && offset % cs == 0 && n >= cs
    }

    /** Writes the piece of one round: all of it or nothing. */
    method RoundPiece(
      o: nat, offset: nat, piece: seq<Byte>, nWriteback: nat, writeThrough: bool,
      ghost sz: map<nat, nat>, ghost w: map<nat, nat>) returns (n: nat)
      requires cs > 0 && StoreOk(cs, St(), sz) && WithinFiles(cs, St(), w)
      requires o != 0 && o in sz && o in w && sz.Keys == w.Keys && offset / cs * cs < w[o]
      requires 1 <= nWriteback <= cs && offset % cs + |piece| <= cs && |piece| > 0
      requires |Visible(cs, St(), o, offset / cs + 1)| == cs
      requires ZeroTail(cs, sz[o], offset / cs + 1,
                        Patched(Visible(cs, St(), o, offset / cs + 1), offset % cs, piece))
      modifies this`flash, this`cacheLastUse, cache
      ensures n == 0 || n == |piece|
      ensures n == 0 ==> St() == if Bypasses(|piece|) then Forgotten(old(St()), o, offset / cs + 1) else old(St())
      ensures n > 0 ==> StoreOk(cs, St(), sz) && WithinFiles(cs, St(), w)
      ensures n > 0 ==> Spliced(cs, old(St()), St(), o, offset, piece[..n])
      ensures n > 0 ==> SparedBut(cs, old(St()), St(), o, offset / cs + 1)
    {
      hide StoreOk, WithinFiles, Wrote, ZeroTail, SameView, Spliced, Visible, Patched, Forgotten, SparedBut;
      ghost var st := St();
      n := 0;
      var ok := WritePiece(o, offset / cs + 1, offset % cs, piece, nWriteback, writeThrough, sz, w);
      if ok {
        n := |piece|;
        RoundWrote(st, St(), o, offset, piece);
        assert piece[..n] == piece;
      }
    }

    lemma SpliceMore(
      a: Store, b: Store, c: Store, o: nat, offset: nat, buffer: seq<Byte>, done: nat, n: nat)
      requires cs > 0 && done + n <= |buffer| && Spliced(cs, a, b, o, offset, buffer[..done])
      requires Spliced(cs, b, c, o, offset + done, buffer[done..][..n])
      ensures Spliced(cs, a, c, o, offset, buffer[..done + n])
    {
      SplicedTrans(cs, a, b, c, o, offset, buffer[..done], buffer[done..][..n]);
      assert buffer[..done] + buffer[done..][..n] == buffer[..done + n];
    }

    /** Chunks of `o` from offset `pos` on hold no more in the cache than they did. */
    ghost predicate SparedFrom(st: Store, st': Store, o: nat, pos: nat) {
      forall k :: k >= 1 && (k - 1) * cs >= pos ==> Spared(cs, st, st', o, k)
    }

    lemma SparedMore(a: Store, b: Store, c: Store, o: nat, pos: nat, n: nat)
      requires cs > 0 && n > 0 && SparedFrom(a, b, o, pos) && SparedBut(cs, b, c, o, pos / cs + 1)
      ensures SparedFrom(a, c, o, pos + n)
    {
      hide Spared;
      assert pos == pos / cs * cs + pos % cs;
      forall k | k >= 1 && (k - 1) * cs >= pos + n
        ensures Spared(cs, a, c, o, k)
      {
        assert k != pos / cs + 1;
        assert Spared(cs, a, b, o, k) && Spared(cs, b, c, o, k);
        SparedOnce(a, b, c, o, k);
      }
    }

    lemma SparedOnce(a: Store, b: Store, c: Store, o: nat, k: nat)
      requires Spared(cs, a, b, o, k) && Spared(cs, b, c, o, k)
      ensures Spared(cs, a, c, o, k)
    {}

    /** How far a write has come; if it is cut short by a failure past the cache, the chunk where
        it failed may have been lost. */
    ghost predicate Reached(
      st: Store, st': Store, o: nat, buffer: seq<Byte>, offset: nat, nDone: nat, lost: bool)
      requires cs > 0 && nDone <= |buffer|
    {
      && (lost ==> MayLose(offset + nDone, |buffer| - nDone))
      && WroteUpTo(cs, st, st', o, offset, buffer[..nDone], lost)
    }

    lemma FailedRound(
      st: Store, t: Store, u: Store, s: map<nat, nat>, o: nat, buffer: seq<Byte>, offset: nat, nDone: nat)
      requires cs > 0 && o != 0 && nDone < |buffer| && StoreOk(cs, t, s)
      requires Spliced(cs, st, t, o, offset, buffer[..nDone]) && SparedFrom(st, t, o, offset + nDone)
      requires u == t || (MayLose(offset + nDone, |buffer| - nDone) && u == Forgotten(t, o, (offset + nDone) / cs + 1))
      ensures Reached(st, u, o, buffer, offset, nDone, u != t && Unsaved(cs, t, o, (offset + nDone) / cs + 1))
    {
      hide StoreOk, Spliced, SplicedBut, Unsaved, Forgotten;
      if u != t {
        var k := (offset + nDone) / cs + 1;
        assert (k - 1) * cs >= offset + nDone by { assert offset + nDone == (k - 1) * cs + (offset + nDone) % cs; }
        assert Spared(cs, st, t, o, k);
        ForgottenSplice(cs, st, t, s, o, offset, buffer[..nDone]);
      }
    }

    /** The end of what is stored, and of the file, once `nDone` bytes have been written. */
    ghost function StoredAfter(a: nat, offset: nat, nDone: nat, fill: bool): nat {
      if nDone == 0 then a else EndAfter(a, offset + nDone, fill)
    }

    ghost function SizeAfter(v: nat, offset: nat, nDone: nat): nat {
      if nDone == 0 then v else Max(v, offset + nDone)
    }

    lemma EndsLater(a: nat, v: nat, offset: nat, nDone: nat, n: nat, fill: bool)
      requires n > 0
      ensures EndAfter(StoredAfter(a, offset, nDone, fill), offset + nDone + n, fill) ==
              StoredAfter(a, offset, nDone + n, fill)
      ensures Max(SizeAfter(v, offset, nDone), offset + nDone + n) == SizeAfter(v, offset, nDone + n)
    {}

    /** What the write loop keeps. */
    ghost predicate Writing(
      st: Store, o: nat, buffer: seq<Byte>, offset: nat, nDone: nat, a: nat, v: nat, fill: bool, lost: bool)
      requires cs > 0
      reads this, cache
    {
      && nDone <= |buffer|
      && StoreOk(cs, St(), sizes[o := StoredAfter(a, offset, nDone, fill)])
      && WithinFiles(cs, St(), sizes[o := SizeAfter(v, offset, nDone)])
      && Reached(st, St(), o, buffer, offset, nDone, lost)
    }

    method WriteMore(
      o: nat, buffer: seq<Byte>, offset: nat, nDone: nat, writeThrough: bool,
      ghost st: Store, ghost a: nat, ghost v: nat, ghost fill: bool) returns (n: nat, ghost lost: bool)
      requires cs > 0 && o != 0 && o in sizes && nDone < |buffer|
      requires fill ==> forall j :: 0 <= j < |buffer| ==> buffer[j] == 0
      requires Writing(st, o, buffer, offset, nDone, a, v, fill, false)
      requires SparedFrom(st, St(), o, offset + nDone)
      modifies this`flash, this`cacheLastUse, cache
      ensures Writing(st, o, buffer, offset, nDone + n, a, v, fill, lost)
      ensures n > 0 ==> !lost && SparedFrom(st, St(), o, offset + nDone + n)
    {
      ghost var t := St();
      ghost var b, w := StoredAfter(a, offset, nDone, fill), SizeAfter(v, offset, nDone);
      hide StoreOk, WithinFiles, Spliced, SparedBut, SparedFrom, Unsaved, Forgotten, SplicedBut;
      hide EndAfter, Max, StoredAfter, SizeAfter;
      n := WriteRound(o, offset + nDone, buffer[nDone..], writeThrough, b, w, fill);
      lost := false;
      if n > 0 {
        EndsLater(a, v, offset, nDone, n, fill);
        SpliceMore(st, t, St(), o, offset, buffer, nDone, n);
        SparedMore(st, t, St(), o, offset + nDone, n);
      } else {
        lost := St() != t && Unsaved(cs, t, o, (offset + nDone) / cs + 1);
        FailedRound(st, t, St(), sizes[o := b], o, buffer, offset, nDone);
      }
    }

    /** The write loop: chunk by chunk, until all is written or a write fails. */
    method WriteLoop(
      o: nat, buffer: seq<Byte>, offset: nat, writeThrough: bool,
      ghost a: nat, ghost v: nat, ghost fill: bool)
      returns (nDone: nat, ghost lost: bool)
      requires cs > 0 && o != 0 && o in sizes
      requires StoreOk(cs, St(), sizes[o := a]) && WithinFiles(cs, St(), sizes[o := v])
      requires fill ==> forall j :: 0 <= j < |buffer| ==> buffer[j] == 0
      modifies this`flash, this`cacheLastUse, cache
      ensures Writing(old(St()), o, buffer, offset, nDone, a, v, fill, lost)
    {
      ghost var st := St();
      hide StoreOk, WithinFiles, Writing, SparedFrom;
      nDone, lost := 0, false;
      StartOfWrite(o, buffer, offset, a, v, fill);
      var written := true;
      while nDone < |buffer| && written
        invariant nDone <= |buffer| && Writing(st, o, buffer, offset, nDone, a, v, fill, lost)
        invariant written ==> !lost && SparedFrom(st, St(), o, offset + nDone)
        decreases |buffer| - nDone, written
      {
        var n;
        n, lost := WriteMore(o, buffer, offset, nDone, writeThrough, st, a, v, fill);
        WithinBuffer(st, o, buffer, offset, nDone + n, a, v, fill, lost);
        nDone := nDone + n;
        if n == 0 {
          written := false;
        }
      }
    }

    lemma WithinBuffer(
      st: Store, o: nat, buffer: seq<Byte>, offset: nat, nDone: nat, a: nat, v: nat, fill: bool, lost: bool)
      requires cs > 0 && Writing(st, o, buffer, offset, nDone, a, v, fill, lost)
      ensures nDone <= |buffer|
    {}

    lemma StartOfWrite(o: nat, buffer: seq<Byte>, offset: nat, a: nat, v: nat, fill: bool)
      requires cs > 0 && o != 0
      requires StoreOk(cs, St(), sizes[o := a]) && WithinFiles(cs, St(), sizes[o := v])
      ensures Writing(St(), o, buffer, offset, 0, a, v, fill, false)
      ensures SparedFrom(St(), St(), o, offset)
    {
      ViewRefl(St());
      SplicedNone(cs, St(), St(), o, offset);
      assert buffer[..0] == [];
    }

    /** Writes `buffer` at `offset` and returns how much was written; it stops early only when
        space runs out. Exactly those bytes of the file change, unless the write failed past the
        cache at a chunk of which the cache held bytes that flash does not: then that chunk falls
        back to what is on flash. */
    method DoFileWr(
      o: nat, buffer: seq<Byte>, offset: nat, writeThrough: bool,
      ghost a: nat, ghost v: nat, ghost fill: bool)
      returns (nDone: nat, ghost lost: bool)
      requires cs > 0 && o != 0 && o in sizes && (!fill ==> a == sizes[o])
      requires StoreOk(cs, St(), sizes[o := a]) && WithinFiles(cs, St(), sizes[o := v])
      requires v <= Max(sizes[o], offset)
      requires fill ==> forall j :: 0 <= j < |buffer| ==> buffer[j] == 0
      modifies this, cache
      ensures nDone <= |buffer|
      ensures Reached(old(St()), St(), o, buffer, offset, nDone, lost)
      ensures !lost <==> Spliced(cs, old(St()), St(), o, offset, buffer[..nDone])
      ensures sizes == old(sizes)[o := Max(old(sizes)[o], offset + nDone)]
      ensures StoreOk(cs, St(), sizes[o := if fill then a else sizes[o]])
      ensures WithinFiles(cs, St(), sizes)
    {
      ghost var s := sizes;
      ghost var st := St();
      nDone, lost := WriteLoop(o, buffer, offset, writeThrough, a, v, fill);
      ghost var b, w := StoredAfter(a, offset, nDone, fill), SizeAfter(v, offset, nDone);
      ReachedShows(st, s[o := a], St(), o, buffer, offset, nDone, lost);
      hide StoreOk, WithinFiles, Spliced, Reached;
      assert w <= Max(sizes[o], offset + nDone);
      if offset + nDone > sizes[o] {
        sizes := sizes[o := offset + nDone];
      }
      EndSizes(St(), s, o, a, b, w, sizes[o], offset + nDone, fill);
      assert sizes == s[o := sizes[o]];
      assert sizes[o := if fill then a else sizes[o]] == s[o := if fill then a else sizes[o]];
    }

    lemma ReachedShows(
      st: Store, s: map<nat, nat>, st': Store, o: nat, buffer: seq<Byte>, offset: nat, nDone: nat, lost: bool)
      requires cs > 0 && o != 0 && nDone <= |buffer| && StoreOk(cs, st, s)
      requires Reached(st, st', o, buffer, offset, nDone, lost)
      ensures !lost <==> Spliced(cs, st, st', o, offset, buffer[..nDone])
    {
      if lost {
        LostShows(cs, st, s, st', o, offset, buffer[..nDone]);
      }
    }

    /** Nothing is lost where the file has ended. */
    lemma NothingToLose(
      st: Store, s: map<nat, nat>, st': Store, o: nat, buffer: seq<Byte>, offset: nat, nDone: nat, lost: bool)
      requires cs > 0 && o != 0 && nDone <= |buffer| && StoreOk(cs, st, s)
      requires Reached(st, st', o, buffer, offset, nDone, lost)
      requires o in s && s[o] <= offset
      ensures !lost
    {
      var end := offset + nDone;
      assert |buffer[..nDone]| == nDone && end == end / cs * cs + end % cs;
      if end % cs == 0 {
        SavedPastEnd(cs, st, s, o, end / cs + 1);
      }
    }

    lemma EndSizes(
      st: Store, s: map<nat, nat>, o: nat, a: nat, b: nat, w: nat, z: nat, end: nat, fill: bool)
      requires o in s && StoreOk(cs, st, s[o := b]) && WithinFiles(cs, st, s[o := w])
      requires z == Max(s[o], end) && w <= z && (if fill then b == a else a == s[o] && b <= z)
      ensures StoreOk(cs, st, s[o := if fill then a else z]) && WithinFiles(cs, st, s[o := z])
    {
      if !fill {
        GrowOk(cs, st, s[o := b], o, z);
        assert s[o := b][o := z] == s[o := z];
      }
      WithinGrow(st, s[o := w], o, z);
      assert s[o := w][o := z] == s[o := z];
    }

    // ----- cutting down -----

    /** Deletes the chunks of `o` that start at or after `z`, last one first. */
    method PruneChunks(o: nat, z: nat)
      requires cs > 0 && o != 0 && o in sizes && z <= sizes[o]
      requires forall c :: c in flash ==> |flash[c]| == cs && c.chunk >= 1
      requires forall k: nat :: ChunkId(o, k) in flash ==> (k - 1) * cs < sizes[o]
      modifies this`flash
      ensures forall c: ChunkId :: c.obj != o ==> (c in flash <==> c in old(flash))
      ensures forall c :: c in flash ==> c in old(flash) && flash[c] == old(flash)[c]
      ensures forall k: nat :: ChunkId(o, k) in flash <==>
                ChunkId(o, k) in old(flash) && k <= (z + cs - 1) / cs
    {
      var lastDel := if sizes[o] > 0 then (sizes[o] - 1) / cs else 0;
      lastDel := lastDel + 1;
      var startDel := (z + cs - 1) / cs + 1;
      forall k: nat | ChunkId(o, k) in flash
        ensures k <= lastDel
      {
        LastChunk(k, sizes[o]);
      }
      var i := lastDel;
      while i >= startDel
        invariant forall c: ChunkId :: c.obj != o ==> (c in flash <==> c in old(flash))
        invariant forall c :: c in flash ==> c in old(flash) && flash[c] == old(flash)[c]
        invariant forall k: nat :: ChunkId(o, k) in flash <==>
                    ChunkId(o, k) in old(flash) && (k <= i || k < startDel)
        decreases i - startDel
      {
        flash := flash - {ChunkId(o, i)};
        i := i - 1;
      }
    }

    lemma LastChunk(k: nat, z: nat)
      requires cs > 0 && k >= 1 && (k - 1) * cs < z
      ensures k <= (z - 1) / cs + 1
    {
      var q := (z - 1) / cs;
      assert z - 1 == q * cs + (z - 1) % cs;
      if k - 1 > q {
        assert (k - 1) * cs == q * cs + (k - 1 - q) * cs;
        MulAtLeast(k - 1 - q, cs);
      }
    }

    /** Cuts file `o` at `z`: deletes chunks past it, pads the last one kept. */
    method ResizeFileDown(o: nat, z: nat)
      requires Valid() && o != 0 && o in sizes && z <= sizes[o]
      requires forall k: nat :: ChunkId(o, k) in flash ==> (k - 1) * cs < sizes[o]
      requires (forall i :: 0 <= i < cache.Length ==> cache[i].obj != o) || StoreOk(cs, St(), sizes[o := z])
      modifies this`flash, this`sizes
      ensures Valid() && sizes == old(sizes)[o := z]
      ensures FlashCut(cs, old(flash), flash, o, z)
    {
      ghost var st := St();
      CutFlash(o, z);
      CutOk(cs, st, sizes, flash, o, z);
      sizes := sizes[o := z];
    }

    method CutFlash(o: nat, z: nat)
      requires cs > 0 && o != 0 && o in sizes && z <= sizes[o] && FlashOk(cs, flash, sizes)
      requires forall k: nat :: ChunkId(o, k) in flash ==> (k - 1) * cs < sizes[o]
      modifies this`flash
      ensures FlashCut(cs, old(flash), flash, o, z)
    {
      ghost var fl := flash;
      var newFull, newPartial := z / cs, z % cs;
      PruneChunks(o, z);
      ghost var pruned := flash;
      PadLength(fl, o, 1 + newFull, pruned);
      if newPartial != 0 {
        var data := RdDataObj(o, 1 + newFull);
        data := data[..newPartial] + Zeros(cs - newPartial);
        var _ := WrDataObj(o, 1 + newFull, data, newPartial, true);
      }
      CutDone(fl, pruned, flash, o, z);
    }

    lemma PadLength(fl: map<ChunkId, seq<Byte>>, o: nat, k: nat, flash': map<ChunkId, seq<Byte>>)
      requires FlashOk(cs, fl, sizes) && forall c :: c in flash' ==> c in fl && flash'[c] == fl[c]
      ensures |FlashChunk(cs, flash', o, k)| == cs
    {}

    lemma CeilChunks(z: nat)
      requires cs > 0
      ensures (z + cs - 1) / cs == if z % cs == 0 then z / cs else z / cs + 1
      ensures z == z / cs * cs + z % cs
    {
      assert z == z / cs * cs + z % cs;
      if z % cs == 0 {
        Quotient(cs, z + cs - 1, z / cs, cs - 1);
      } else {
        Quotient(cs, z + cs - 1, z / cs + 1, z % cs - 1);
      }
    }

    /** What is left of chunk `k` after the cut. */
    lemma ChunkCut(
      fl: map<ChunkId, seq<Byte>>, fl': map<ChunkId, seq<Byte>>, o: nat, z: nat, k: nat)
      requires cs > 0 && k >= 1 && |FlashChunk(cs, fl, o, k)| == cs
      requires k > (z + cs - 1) / cs ==> FlashChunk(cs, fl', o, k) == Zeros(cs)
      requires k <= z / cs ==> FlashChunk(cs, fl', o, k) == FlashChunk(cs, fl, o, k)
      requires k == z / cs + 1 && z % cs != 0 ==>
                 FlashChunk(cs, fl', o, k) == FlashChunk(cs, fl, o, k)[..z % cs] + Zeros(cs - z % cs)
      ensures FlashChunk(cs, fl', o, k) == ZeroFrom(cs, z, k, FlashChunk(cs, fl, o, k))
    {
      hide FlashChunk;
      CutPlace(z, k);
      CutContent(z, k, z % cs, FlashChunk(cs, fl, o, k), FlashChunk(cs, fl', o, k));
    }

    /** Where chunk `k` lies: before the cut, across it or behind it. */
    lemma CutPlace(z: nat, k: nat)
      requires cs > 0 && k >= 1
      ensures k <= z / cs ==> (k - 1) * cs + cs <= z
      ensures k == z / cs + 1 ==> (k - 1) * cs + z % cs == z
      ensures k > (z + cs - 1) / cs ==> (k - 1) * cs >= z
      ensures k <= z / cs || k > (z + cs - 1) / cs || (k == z / cs + 1 && z % cs != 0)
    {
      CeilChunks(z);
      var q := z / cs;
      if k > q + 1 {
        assert (k - 1) * cs == q * cs + (k - 1 - q) * cs;
        MulAtLeast(k - 1 - q, cs);
      } else if k <= q {
        assert q * cs == (k - 1) * cs + (q - k + 1) * cs;
        MulAtLeast(q - k + 1, cs);
      }
    }

    lemma CutContent(z: nat, k: nat, r: nat, d: seq<Byte>, d': seq<Byte>)
      requires |d| == cs && r <= cs
      requires
        || ((k - 1) * cs + cs <= z && d' == d)
        || ((k - 1) * cs >= z && d' == Zeros(cs))
        || ((k - 1) * cs + r == z && d' == d[..r] + Zeros(cs - r))
      ensures d' == ZeroFrom(cs, z, k, d)
    {}

    lemma CutDone(
      fl: map<ChunkId, seq<Byte>>, pruned: map<ChunkId, seq<Byte>>, fl': map<ChunkId, seq<Byte>>,
      o: nat, z: nat)
      requires cs > 0 && o != 0 && o in sizes && FlashOk(cs, fl, sizes)
      requires forall c: ChunkId :: c.obj != o ==> (c in pruned <==> c in fl)
      requires forall c :: c in pruned ==> c in fl && pruned[c] == fl[c]
      requires forall k: nat :: ChunkId(o, k) in pruned <==>
                 ChunkId(o, k) in fl && k <= (z + cs - 1) / cs
      requires |FlashChunk(cs, pruned, o, 1 + z / cs)| == cs
      requires fl' == if z % cs == 0 then pruned else
                 pruned[ChunkId(o, 1 + z / cs) :=
                   FlashChunk(cs, pruned, o, 1 + z / cs)[..z % cs] + Zeros(cs - z % cs)]
      ensures FlashCut(cs, fl, fl', o, z)
    {
      CeilChunks(z);
      forall k: nat | k >= 1
        ensures FlashChunk(cs, fl', o, k) == ZeroFrom(cs, z, k, FlashChunk(cs, fl, o, k))
      {
        ChunkCut(fl, fl', o, z, k);
      }
      forall c: ChunkId | c.obj == o && c in fl'
        ensures c.chunk >= 1 && |fl'[c]| == cs && (c.chunk - 1) * cs < z
      {
        assert c == ChunkId(o, c.chunk);
        if z % cs == 0 || c.chunk <= z / cs {
          StartsWithin(c.chunk, z);
        }
      }
    }

    lemma StartsWithin(k: nat, z: nat)
      requires cs > 0 && 1 <= k <= z / cs
      ensures (k - 1) * cs < z
    {
      assert z == z / cs * cs + z % cs;
      assert z / cs * cs == (k - 1) * cs + (z / cs - k + 1) * cs;
      MulAtLeast(z / cs - k + 1, cs);
    }

    // ----- growing over a hole -----

    /** Writing zeros past the end of a file changes no byte. */
    lemma ZerosUnseen(st: Store, t: Store, u: Store, o: nat, pos: nat, n: nat, a: nat)
      requires cs > 0 && o != 0 && o in sizes && StoreOk(cs, st, sizes[o := a]) && a <= pos
      requires Spliced(cs, st, t, o, 0, []) && Spliced(cs, t, u, o, pos, Zeros(n))
      ensures Spliced(cs, st, u, o, 0, [])
    {
      forall off: nat
        ensures At(cs, u, o, off) == At(cs, st, o, off)
      {
        assert At(cs, t, o, off) == At(cs, st, o, off);
        if pos <= off < pos + n {
          PastEnd(st, sizes[o := a], o, off);
        }
      }
    }

    /** Past the end of a file there are only zeros. */
    lemma PastEnd(st: Store, s: map<nat, nat>, o: nat, off: nat)
      requires cs > 0 && StoreOk(cs, st, s) && o != 0 && o in s && off >= s[o]
      ensures At(cs, st, o, off) == 0
    {
      VisibleOk(cs, st, s, o, off / cs + 1);
      assert (off / cs + 1 - 1) * cs + off % cs == off;
    }

    /** Fills the file with zeros up to `newSize`, and undoes it if space runs out. */
    method FillHole(o: nat, newSize: nat)
      requires Tidy() && o != 0 && o in sizes && sizes[o] < newSize
      modifies this, cache
      ensures Valid() && Spliced(cs, old(St()), St(), o, 0, [])
      ensures sizes == old(sizes) || sizes == old(sizes)[o := newSize]
      ensures WithinFiles(cs, St(), sizes[o := newSize])
    {
      ghost var st := St();
      ghost var a := sizes[o];
      var oldSize, pos, ok := sizes[o], sizes[o], true;
      hide StoreOk, WithinFiles, Spliced, SameView, Reached, Zeros;
      ViewRefl(st);
      SplicedNone(cs, st, st, o, 0);
      assert sizes[o := a] == sizes;
      while pos < newSize && ok
        invariant pos <= newSize && o in sizes && a <= sizes[o] <= newSize
        invariant sizes == old(sizes)[o := sizes[o]] && (ok ==> sizes[o] == pos)
        invariant Filling(st, old(sizes), o, a)
        decreases newSize - pos, ok
      {
        var thisWrite := if newSize - pos > cs then cs else newSize - pos;
        ok := FillPiece(o, thisWrite, st, old(sizes), a);
        if ok {
          pos := pos + thisWrite;
        }
      }
      ghost var t := St();
      FillDone(t, o, a);
      if !ok {
        UndoFill(o, oldSize, newSize);
      }
      SplicedTrans(cs, st, t, St(), o, 0, [], []);
      assert sizes[o := newSize] == old(sizes)[o := newSize];
    }

    /** Nothing but zeros past `a` has been stored since the state `st`. */
    ghost predicate Filling(st: Store, was: map<nat, nat>, o: nat, a: nat)
      reads this, cache
    {
      && cs > 0 && StoreOk(cs, St(), sizes[o := a]) && WithinFiles(cs, St(), sizes)
      && Spliced(cs, st, St(), o, 0, []) && StoreOk(cs, st, was)
    }

    /** Adds zeros at the end of the file; `ok` if all of them were written. */
    method FillPiece(o: nat, thisWrite: nat, ghost st: Store, ghost was: map<nat, nat>, ghost a: nat) returns (ok: bool)
      requires o != 0 && o in sizes && a <= sizes[o] && was == sizes[o := a] && Filling(st, was, o, a)
      modifies this, cache
      ensures Filling(st, was, o, a) && o in sizes
      ensures sizes == old(sizes)[o := sizes[o]] && old(sizes)[o] <= sizes[o] <= old(sizes)[o] + thisWrite
      ensures ok <==> sizes[o] == old(sizes)[o] + thisWrite
    {
      hide StoreOk, WithinFiles, Spliced, SameView, Reached, Zeros;
      ghost var t, s := St(), sizes;
      var pos := sizes[o];
      assert sizes[o := sizes[o]] == sizes;
      var n;
      ghost var lost;
      n, lost := DoFileWr(o, Zeros(thisWrite), pos, false, a, sizes[o], true);
      NothingToLose(t, s[o := a], St(), o, Zeros(thisWrite), pos, n, lost);
      ZerosPart(thisWrite, n);
      assert was == sizes[o := a];
      ZerosUnseen(st, t, St(), o, pos, n, a);
      ok := n == thisWrite;
    }

    lemma ZerosPart(m: nat, n: nat)
      requires n <= m
      ensures Zeros(m)[..n] == Zeros(n)
    {}

    lemma FillDone(t: Store, o: nat, a: nat)
      requires o in sizes && a <= sizes[o] && StoreOk(cs, t, sizes[o := a])
      ensures StoreOk(cs, t, sizes)
      ensures cs > 0 && o != 0 ==> Spliced(cs, t, t, o, 0, [])
      ensures o != 0 && WithinFiles(cs, t, sizes) ==> WithinFiles(cs, t, sizes[o := sizes[o]])
    {
      GrowOk(cs, t, sizes[o := a], o, sizes[o]);
      assert sizes[o := a][o := sizes[o]] == sizes && sizes[o := sizes[o]] == sizes;
      ViewRefl(t);
      if cs > 0 && o != 0 {
        SplicedNone(cs, t, t, o, 0);
      }
    }

    /** Takes back a fill that ran out of space. Zero chunks may still wait in the cache, within
        the size the file is about to get. */
    method UndoFill(o: nat, oldSize: nat, newSize: nat)
      requires Tidy() && o != 0 && o in sizes && oldSize <= sizes[o] <= newSize
      requires StoreOk(cs, St(), sizes[o := oldSize])
      modifies this`flash, this`sizes
      ensures Valid() && sizes == old(sizes)[o := oldSize]
      ensures Spliced(cs, old(St()), St(), o, 0, [])
      ensures WithinFiles(cs, St(), sizes[o := newSize])
    {
      ghost var st, s := St(), sizes;
      assert forall k: nat :: ChunkId(o, k) in flash ==> (k - 1) * cs < sizes[o];
      hide StoreOk, WithinFiles, Spliced;
      ResizeFileDown(o, oldSize);
      CutUnseen(cs, st, s[o := oldSize], flash, o, oldSize);
      UndoneView(st, St(), o);
      UndoneWithin(st, St(), s, o, oldSize, newSize);
      assert sizes[o := newSize] == s[o := newSize];
    }

    lemma UndoneView(st: Store, st': Store, o: nat)
      requires cs > 0 && o != 0
      requires forall o', k :: o' != 0 && k >= 1 ==> Visible(cs, st', o', k) == Visible(cs, st, o', k)
      ensures Spliced(cs, st, st', o, 0, [])
    {
      SplicedNone(cs, st, st', o, 0);
    }

    lemma UndoneWithin(st: Store, st': Store, s: map<nat, nat>, o: nat, z: nat, newSize: nat)
      requires WithinFiles(cs, st, s) && st'.es == st.es && FlashCut(cs, st.flash, st'.flash, o, z)
      requires o in s && z <= newSize && s[o] <= newSize
      ensures WithinFiles(cs, st', s[o := newSize])
    {
      forall c | c in st'.flash && c.obj in s[o := newSize]
        ensures (c.chunk - 1) * cs < s[o := newSize][c.obj]
      {
        assert c.obj != o ==> c in st.flash;
      }
    }

    /** Before a file grows to `newSize`: zeros over a small hole, nothing over a large one. */
    method HandleHole(o: nat, newSize: nat)
      requires Tidy() && o != 0 && o in sizes
      modifies this, cache
      ensures Valid() && Spliced(cs, old(St()), St(), o, 0, [])
      ensures sizes == old(sizes) || (old(sizes)[o] < newSize && sizes == old(sizes)[o := newSize])
      ensures newSize <= old(sizes)[o] ==> St() == old(St())
      ensures WithinFiles(cs, St(), sizes[o := Max(sizes[o], newSize)])
    {
      var avail := CheckAllocAvailable();
      ghost var st := St();
      ViewRefl(st);
      SplicedNone(cs, st, st, o, 0);
      WithinGrow(st, sizes, o, Max(sizes[o], newSize));
      hide StoreOk, WithinFiles, Spliced;
      if newSize > sizes[o] && newSize - sizes[o] < HOLE_THRESHOLD * cs && avail {
        FillHole(o, newSize);
      }
    }

    /** Writes a file, first dealing with a hole before the write. */
    method WrFile(o: nat, buffer: seq<Byte>, offset: nat, writeThrough: bool)
      returns (nDone: nat, ghost lost: bool)
      requires Tidy() && o != 0 && o in sizes
      modifies this, cache
      ensures Tidy() && nDone <= |buffer|
      ensures Reached(old(St()), St(), o, buffer, offset, nDone, lost)
      ensures !lost <==> Spliced(cs, old(St()), St(), o, offset, buffer[..nDone])
      ensures sizes == old(sizes)[o := Max(old(sizes)[o], offset + nDone)]
    {
      ghost var st := St();
      ghost var s := sizes;
      hide StoreOk, WithinFiles, Spliced, Reached;
      HandleHole(o, offset);
      ghost var t := St();
      ghost var z := sizes;
      assert sizes[o := sizes[o]] == sizes;
      nDone, lost := DoFileWr(o, buffer, offset, writeThrough, sizes[o], Max(sizes[o], offset), false);
      assert sizes[o := sizes[o]] == sizes;
      if offset > s[o] {
        NothingToLose(t, z, St(), o, buffer, offset, nDone, lost);
        SplicedAfterNone(st, t, St(), o, offset, buffer[..nDone]);
        ReachedPlain(st, St(), o, buffer, offset, nDone);
      }
    }

    lemma ReachedPlain(st: Store, st': Store, o: nat, buffer: seq<Byte>, offset: nat, nDone: nat)
      requires cs > 0 && nDone <= |buffer| && Spliced(cs, st, st', o, offset, buffer[..nDone])
      ensures Reached(st, st', o, buffer, offset, nDone, false)
    {}

    lemma SplicedAfterNone(a: Store, b: Store, c: Store, o: nat, offset: nat, d: seq<Byte>)
      requires cs > 0 && Spliced(cs, a, b, o, 0, []) && Spliced(cs, b, c, o, offset, d)
      ensures Spliced(cs, a, c, o, offset, d)
    {
      forall off: nat
        ensures At(cs, c, o, off) ==
          if offset <= off < offset + |d| then d[off - offset] else At(cs, a, o, off)
      {
        assert At(cs, b, o, off) == At(cs, a, o, off);
      }
    }

    method InvalidateWholeCache(o: nat)
      modifies cache
      ensures forall j :: 0 <= j < cache.Length ==>
                cache[j] == if old(cache[j]).obj == o then old(cache[j]).(obj := 0) else old(cache[j])
    {
      var i := 0;
      while i < cache.Length
        invariant 0 <= i <= cache.Length
        invariant forall j :: 0 <= j < i ==>
                    cache[j] == if old(cache[j]).obj == o then old(cache[j]).(obj := 0) else old(cache[j])
        invariant forall j :: i <= j < cache.Length ==> cache[j] == old(cache[j])
      {
        if cache[i].obj == o {
          cache[i] := cache[i].(obj := 0);
        }
        i := i + 1;
      }
    }

    /** File `o` reads as before up to `z`, and as zeros after it. */
    ghost predicate Resized(a: Store, b: Store, o: nat, z: nat)
      requires cs > 0
    {
      && (forall o', k :: o' != 0 && k >= 1 && o' != o ==> Visible(cs, b, o', k) == Visible(cs, a, o', k))
      && forall off: nat :: At(cs, b, o, off) == if off < z then At(cs, a, o, off) else 0
    }

    lemma CutIsResized(a: Store, b: Store, c: Store, o: nat, z: nat)
      requires cs > 0 && o != 0 && SameView(cs, a, b) && Unique(b.es) && c.es == b.es
      requires FlashCut(cs, b.flash, c.flash, o, z)
      requires forall i :: 0 <= i < |b.es| ==> b.es[i].obj != o
      requires forall k :: k >= 1 ==> |Visible(cs, b, o, k)| == cs
      ensures Resized(a, c, o, z)
    {
      forall o', k | o' != 0 && k >= 1
        ensures Visible(cs, c, o', k) ==
          if o' == o then ZeroFrom(cs, z, k, Visible(cs, a, o, k)) else Visible(cs, a, o', k)
      {
        CutView(cs, b, c.flash, o, z, o', k);
      }
      forall off: nat
        ensures At(cs, c, o, off) == if off < z then At(cs, a, o, off) else 0
      {
        assert Visible(cs, a, o, off / cs + 1) == Visible(cs, b, o, off / cs + 1);
        assert (off / cs + 1 - 1) * cs + off % cs == off;
      }
    }

    lemma CutWithin(st: Store, st': Store, s: map<nat, nat>, o: nat, z: nat)
      requires WithinFiles(cs, st, s) && st'.es == st.es && FlashCut(cs, st.flash, st'.flash, o, z)
      requires o in s && forall i :: 0 <= i < |st.es| ==> st.es[i].obj != o
      ensures WithinFiles(cs, st', s[o := z])
    {
      forall c | c in st'.flash && c.obj in s[o := z]
        ensures (c.chunk - 1) * cs < s[o := z][c.obj]
      {
        assert c.obj != o ==> c in st.flash;
      }
    }

    method GrowFile(o: nat, z: nat, ghost st: Store)
      requires Tidy() && o != 0 && o in sizes && sizes[o] <= z && SameView(cs, st, St())
      modifies this, cache
      ensures Tidy() && sizes == old(sizes)[o := z] && Resized(st, St(), o, z)
    {
      ghost var t, s := St(), sizes;
      assert Valid();
      ghost var valid := StoreOk(cs, t, s);
      hide StoreOk, WithinFiles, Spliced, SameView, Resized;
      HandleHole(o, z);
      GrownIsResized(st, t, St(), s, o, z);
      ghost var u := sizes;
      sizes := sizes[o := z];
      GrownOk(St(), u, o, z);
    }

    lemma GrownOk(st: Store, s: map<nat, nat>, o: nat, z: nat)
      requires o in s && s[o] <= z && StoreOk(cs, st, s)
      ensures StoreOk(cs, st, s[o := z])
    {
      GrowOk(cs, st, s, o, z);
    }

    lemma GrownIsResized(a: Store, b: Store, c: Store, s: map<nat, nat>, o: nat, z: nat)
      requires cs > 0 && StoreOk(cs, b, s) && o != 0 && o in s && s[o] <= z
      requires SameView(cs, a, b) && Spliced(cs, b, c, o, 0, [])
      ensures Resized(a, c, o, z)
    {
      SplicedNone(cs, a, b, o, 0);
      forall off: nat
        ensures At(cs, c, o, off) == if off < z then At(cs, a, o, off) else 0
      {
        assert At(cs, c, o, off) == At(cs, b, o, off) && At(cs, b, o, off) == At(cs, a, o, off);
        if off >= z {
          PastEnd(b, s, o, off);
        }
      }
    }

    method ShrinkFile(o: nat, z: nat, ghost st: Store)
      requires Tidy() && o != 0 && o in sizes && z <= sizes[o] && SameView(cs, st, St())
      requires forall j :: 0 <= j < cache.Length ==> cache[j].obj != o
      modifies this`flash, this`sizes
      ensures Tidy() && sizes == old(sizes)[o := z] && Resized(st, St(), o, z)
    {
      ghost var t, s := St(), sizes;
      forall k: nat | k >= 1
        ensures |Visible(cs, t, o, k)| == cs
      {
        VisibleOk(cs, t, sizes, o, k);
      }
      assert forall k: nat :: ChunkId(o, k) in flash ==> (k - 1) * cs < sizes[o];
      assert Unique(t.es);
      hide StoreOk, WithinFiles, SameView, Resized, FlashCut, Unique;
      ResizeFileDown(o, z);
      CutIsResized(st, t, St(), o, z);
      CutWithin(t, St(), s, o, z);
    }

    /** Sets the size of a file: the old bytes up to the new size, zeros after. */
    method ResizeFile(o: nat, newSize: nat)
      requires Tidy() && o != 0 && o in sizes
      modifies this, cache
      ensures Tidy() && sizes == old(sizes)[o := newSize]
      ensures Resized(old(St()), St(), o, newSize)
    {
      ghost var st := St();
      hide StoreOk, WithinFiles, SameView, Resized;
      FlushFileCache(o, true);
      ghost var es := cache[..];
      InvalidateWholeCache(o);
      assert cache[..] == es;
      if newSize == sizes[o] {
        ghost var t := St();
        ViewRefl(t);
        SplicedNone(cs, t, t, o, 0);
        GrownIsResized(st, t, t, sizes, o, newSize);
        assert sizes[o := newSize] == sizes;
      } else if newSize > sizes[o] {
        GrowFile(o, newSize, st);
      } else {
        ShrinkFile(o, newSize, st);
      }
    }
  }
}
