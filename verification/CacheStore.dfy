/** The chunks of files on flash, seen through a write-back cache of whole chunks. */
module CacheStore {
  import opened Basics

  newtype Byte = b: int | 0 <= b < 256

  datatype ChunkId = ChunkId(obj: nat, chunk: nat)

  /** One cache entry; `obj` 0 means the entry is free. */
  datatype Entry = Entry(
    obj: nat, chunk: nat, lastUse: int, dirty: bool, nBytes: nat, locked: bool, data: seq<Byte>)

  datatype Store = Store(es: seq<Entry>, flash: map<ChunkId, seq<Byte>>)

  function Zeros(n: nat): (z: seq<Byte>)
    ensures |z| == n && forall j :: 0 <= j < n ==> z[j] == 0
  {
    seq(n, j => 0)
  }

  function FlashChunk(cs: nat, flash: map<ChunkId, seq<Byte>>, o: nat, k: nat): seq<Byte> {
    if ChunkId(o, k) in flash then flash[ChunkId(o, k)] else Zeros(cs)
  }

  predicate Holds(es: seq<Entry>, i: int, o: nat, k: nat) {
    0 <= i < |es| && es[i].obj == o && es[i].chunk == k
  }

  /** What a reader of chunk `k` of object `o` sees. */
  ghost function Visible(cs: nat, st: Store, o: nat, k: nat): seq<Byte> {
    if exists i :: Holds(st.es, i, o, k)
    then var i :| Holds(st.es, i, o, k); st.es[i].data
    else FlashChunk(cs, st.flash, o, k)
  }

  /** No chunk of an object is cached twice. */
  ghost predicate Unique(es: seq<Entry>) {
    forall i, j, o, k :: o != 0 && Holds(es, i, o, k) && Holds(es, j, o, k) ==> i == j
  }

  /** Bytes at or past the end of the file are zero. */
  predicate ZeroTail(cs: nat, size: nat, k: nat, data: seq<Byte>) {
    forall j :: 0 <= j < |data| && (k - 1) * cs + j >= size ==> data[j] == 0
  }

  ghost predicate EntryOk(cs: nat, st: Store, sizes: map<nat, nat>, e: Entry) {
    e.obj != 0 ==>
      && |e.data| == cs && !e.locked && e.chunk >= 1
      && (e.dirty ==> 1 <= e.nBytes <= cs)
      && (e.dirty || e.data == FlashChunk(cs, st.flash, e.obj, e.chunk))
      && e.obj in sizes && ZeroTail(cs, sizes[e.obj], e.chunk, e.data)
  }

  ghost predicate FlashOk(cs: nat, flash: map<ChunkId, seq<Byte>>, sizes: map<nat, nat>) {
    forall c :: c in flash ==>
      && |flash[c]| == cs && c.chunk >= 1 && c.obj != 0
      && c.obj in sizes && ZeroTail(cs, sizes[c.obj], c.chunk, flash[c])
  }

  ghost predicate StoreOk(cs: nat, st: Store, sizes: map<nat, nat>) {
    && Unique(st.es)
    && (forall i :: 0 <= i < |st.es| ==> EntryOk(cs, st, sizes, st.es[i]))
    && FlashOk(cs, st.flash, sizes)
  }

  ghost predicate SameView(cs: nat, st: Store, st': Store) {
    forall o, k :: o != 0 && k >= 1 ==> Visible(cs, st', o, k) == Visible(cs, st, o, k)
  }

  /** Chunk `k` of `o` reads as `data`; every other chunk reads as before. */
  ghost predicate Wrote(cs: nat, st: Store, st': Store, o: nat, k: nat, data: seq<Byte>) {
    && Visible(cs, st', o, k) == data
    && forall o', k' :: o' != 0 && k' >= 1 && !(o' == o && k' == k) ==>
         Visible(cs, st', o', k') == Visible(cs, st, o', k')
  }

  /** No chunk on flash or waiting to be written lies wholly past the end of its file. */
  ghost predicate WithinFiles(cs: nat, st: Store, sizes: map<nat, nat>) {
    && (forall c :: c in st.flash && c.obj in sizes ==> (c.chunk - 1) * cs < sizes[c.obj])
    && (forall i :: 0 <= i < |st.es| && st.es[i].obj in sizes && st.es[i].obj != 0 && st.es[i].dirty ==>
          (st.es[i].chunk - 1) * cs < sizes[st.es[i].obj])
  }

  lemma Cached(cs: nat, st: Store, i: int, o: nat, k: nat)
    requires Unique(st.es) && o != 0 && Holds(st.es, i, o, k)
    ensures Visible(cs, st, o, k) == st.es[i].data
  {
    var j :| Holds(st.es, j, o, k) && Visible(cs, st, o, k) == st.es[j].data;
  }

  /** The visible chunk has the right length, and zeros past the end. */
  lemma VisibleOk(cs: nat, st: Store, sizes: map<nat, nat>, o: nat, k: nat)
    requires StoreOk(cs, st, sizes) && o != 0 && k >= 1
    ensures |Visible(cs, st, o, k)| == cs
    ensures o in sizes ==> ZeroTail(cs, sizes[o], k, Visible(cs, st, o, k))
  {
    if i :| Holds(st.es, i, o, k) {
      Cached(cs, st, i, o, k);
      assert EntryOk(cs, st, sizes, st.es[i]);
    }
  }

  // ----- one cache entry changes -----

  /** Replacing entry `i` changes no chunk other than the ones it held and holds. */
  lemma Replace(cs: nat, st: Store, i: nat, e: Entry, o: nat, k: nat)
    requires Unique(st.es) && i < |st.es| && Unique(st.es[i := e]) && o != 0
    requires !Holds(st.es, i, o, k) && !(e.obj == o && e.chunk == k)
    ensures Visible(cs, Store(st.es[i := e], st.flash), o, k) == Visible(cs, st, o, k)
  {
    var st' := Store(st.es[i := e], st.flash);
    if j :| Holds(st.es, j, o, k) {
      assert Holds(st'.es, j, o, k);
      Cached(cs, st, j, o, k);
      Cached(cs, st', j, o, k);
    } else if j :| Holds(st'.es, j, o, k) {
      assert Holds(st.es, j, o, k);
    }
  }

  /** The state after entry `i` is written out and, if asked, given up. */
  function Flushed(st: Store, i: nat, discard: bool): Store
    requires i < |st.es|
  {
    var e := st.es[i];
    var flash' := if e.dirty then st.flash[ChunkId(e.obj, e.chunk) := e.data] else st.flash;
    Store(st.es[i := e.(dirty := false, obj := if discard then 0 else e.obj)], flash')
  }

  lemma FlushedOk(cs: nat, st: Store, sizes: map<nat, nat>, i: nat, discard: bool)
    requires StoreOk(cs, st, sizes) && i < |st.es| && st.es[i].obj != 0
    ensures StoreOk(cs, Flushed(st, i, discard), sizes)
  {
    var st' := Flushed(st, i, discard);
    var e := st.es[i];
    assert EntryOk(cs, st, sizes, e);
    forall a, b, o, k | o != 0 && Holds(st'.es, a, o, k) && Holds(st'.es, b, o, k)
      ensures a == b
    {
      assert Holds(st.es, a, o, k) && Holds(st.es, b, o, k);
    }
    forall j | 0 <= j < |st'.es|
      ensures EntryOk(cs, st', sizes, st'.es[j])
    {
      assert EntryOk(cs, st, sizes, st.es[j]);
      if j != i && st.es[j].obj == e.obj != 0 && st.es[j].chunk == e.chunk {
        assert Holds(st.es, i, e.obj, e.chunk) && Holds(st.es, j, e.obj, e.chunk);
      }
    }
  }

  lemma FlushedView(cs: nat, st: Store, sizes: map<nat, nat>, i: nat, discard: bool)
    requires StoreOk(cs, st, sizes) && i < |st.es| && st.es[i].obj != 0
    ensures SameView(cs, st, Flushed(st, i, discard))
  {
    var st' := Flushed(st, i, discard);
    var e := st.es[i];
    FlushedOk(cs, st, sizes, i, discard);
    forall o, k | o != 0
      ensures Visible(cs, st', o, k) == Visible(cs, st, o, k)
    {
      if Holds(st.es, i, o, k) {
        Cached(cs, st, i, o, k);
        assert EntryOk(cs, st, sizes, e);
        if discard {
          NotCached(st, st', i, o, k);
        } else {
          Cached(cs, st', i, o, k);
        }
      } else {
        var mid := Store(st'.es, st.flash);
        Replace(cs, st, i, st'.es[i], o, k);
        SameFlash(cs, mid, st', o, k);
      }
    }
  }

  lemma NotCached(st: Store, st': Store, i: nat, o: nat, k: nat)
    requires Unique(st.es) && o != 0 && Holds(st.es, i, o, k)
    requires |st'.es| == |st.es| && st'.es[i].obj != o
    requires forall j :: 0 <= j < |st.es| && j != i ==> st'.es[j] == st.es[j]
    ensures forall j :: !Holds(st'.es, j, o, k)
  {
    forall j
      ensures !Holds(st'.es, j, o, k)
    {
      assert j != i && Holds(st'.es, j, o, k) ==> Holds(st.es, j, o, k);
    }
  }

  lemma SameFlash(cs: nat, st: Store, st': Store, o: nat, k: nat)
    requires Unique(st.es) && st'.es == st.es && o != 0
    requires FlashChunk(cs, st'.flash, o, k) == FlashChunk(cs, st.flash, o, k)
    ensures Visible(cs, st', o, k) == Visible(cs, st, o, k)
  {
    if j :| Holds(st.es, j, o, k) {
      Cached(cs, st, j, o, k);
      Cached(cs, st', j, o, k);
    }
  }

  /** Entry `i`, a free one, now holds chunk `k` of `o` as it is on flash. */
  function Loaded(cs: nat, st: Store, i: nat, o: nat, k: nat): Store
    requires i < |st.es|
  {
    Store(st.es[i := st.es[i].(obj := o, chunk := k, dirty := false, locked := false,
                               data := FlashChunk(cs, st.flash, o, k))], st.flash)
  }

  lemma LoadedOk(cs: nat, st: Store, sizes: map<nat, nat>, i: nat, o: nat, k: nat)
    requires StoreOk(cs, st, sizes) && i < |st.es| && st.es[i].obj == 0
    requires o != 0 && k >= 1 && o in sizes && forall j :: !Holds(st.es, j, o, k)
    ensures StoreOk(cs, Loaded(cs, st, i, o, k), sizes)
    ensures SameView(cs, st, Loaded(cs, st, i, o, k))
  {
    var st' := Loaded(cs, st, i, o, k);
    forall a, b, o', k' | o' != 0 && Holds(st'.es, a, o', k') && Holds(st'.es, b, o', k')
      ensures a == b
    {
      assert a != i ==> Holds(st.es, a, o', k');
      assert b != i ==> Holds(st.es, b, o', k');
    }
    forall j | 0 <= j < |st'.es|
      ensures EntryOk(cs, st', sizes, st'.es[j])
    {
      assert EntryOk(cs, st, sizes, st.es[j]);
    }
    forall o', k' | o' != 0
      ensures Visible(cs, st', o', k') == Visible(cs, st, o', k')
    {
      if o' == o && k' == k {
        assert Holds(st'.es, i, o, k);
        Cached(cs, st', i, o, k);
      } else {
        Replace(cs, st, i, st'.es[i], o', k');
      }
    }
  }

  /** Entry `i` gets new data and is to be written back, or has just been written through. */
  function Poked(st: Store, i: nat, data: seq<Byte>, n: nat): Store
    requires i < |st.es|
  {
    Store(st.es[i := st.es[i].(data := data, nBytes := n, dirty := true)], st.flash)
  }

  lemma PokedOk(
    cs: nat, st: Store, sizes: map<nat, nat>, i: nat, o: nat, k: nat, data: seq<Byte>, n: nat)
    requires StoreOk(cs, st, sizes) && Holds(st.es, i, o, k) && o != 0
    requires |data| == cs && 1 <= n <= cs && o in sizes && ZeroTail(cs, sizes[o], k, data)
    ensures StoreOk(cs, Poked(st, i, data, n), sizes)
    ensures Wrote(cs, st, Poked(st, i, data, n), o, k, data)
  {
    var st' := Poked(st, i, data, n);
    forall a, b, o', k' | o' != 0 && Holds(st'.es, a, o', k') && Holds(st'.es, b, o', k')
      ensures a == b
    {
      assert Holds(st.es, a, o', k') && Holds(st.es, b, o', k');
    }
    assert EntryOk(cs, st, sizes, st.es[i]);
    forall j | 0 <= j < |st'.es|
      ensures EntryOk(cs, st', sizes, st'.es[j])
    {
      assert EntryOk(cs, st, sizes, st.es[j]);
    }
    Cached(cs, st', i, o, k);
    forall o', k' | o' != 0 && !(o' == o && k' == k)
      ensures Visible(cs, st', o', k') == Visible(cs, st, o', k')
    {
      Replace(cs, st, i, st'.es[i], o', k');
    }
  }

  /** Chunk `k` of `o` is written to flash and its cache entry, if any, given up. */
  lemma DirectOk(
    cs: nat, st: Store, sizes: map<nat, nat>, st': Store, o: nat, k: nat, data: seq<Byte>)
    requires StoreOk(cs, st, sizes) && o != 0 && k >= 1
    requires |data| == cs && o in sizes && ZeroTail(cs, sizes[o], k, data)
    requires st'.flash == st.flash[ChunkId(o, k) := data] && |st'.es| == |st.es|
    requires forall j :: 0 <= j < |st.es| ==>
               if Holds(st.es, j, o, k) then st'.es[j] == st.es[j].(obj := 0)
               else st'.es[j] == st.es[j]
    ensures StoreOk(cs, st', sizes) && Wrote(cs, st, st', o, k, data)
  {
    forall a, b, o', k' | o' != 0 && Holds(st'.es, a, o', k') && Holds(st'.es, b, o', k')
      ensures a == b
    {
      assert Holds(st.es, a, o', k') && Holds(st.es, b, o', k');
    }
    forall j | 0 <= j < |st'.es|
      ensures EntryOk(cs, st', sizes, st'.es[j])
    {
      assert EntryOk(cs, st, sizes, st.es[j]);
    }
    forall j
      ensures !Holds(st'.es, j, o, k)
    {}
    forall o', k' | o' != 0 && !(o' == o && k' == k)
      ensures Visible(cs, st', o', k') == Visible(cs, st, o', k')
    {
      if j :| Holds(st.es, j, o', k') {
        assert Holds(st'.es, j, o', k');
        Cached(cs, st, j, o', k');
        Cached(cs, st', j, o', k');
      } else {
        assert forall j :: Holds(st'.es, j, o', k') ==> Holds(st.es, j, o', k');
      }
    }
  }

  // ----- an entry is given up without being written -----

  /** The cache holds bytes of the chunk that flash does not. */
  ghost predicate Unsaved(cs: nat, st: Store, o: nat, k: nat) {
    exists i :: Holds(st.es, i, o, k) && st.es[i].dirty && st.es[i].data != FlashChunk(cs, st.flash, o, k)
  }

  function Forgotten(st: Store, o: nat, k: nat): Store {
    Store(seq(|st.es|, i requires 0 <= i < |st.es| =>
                if Holds(st.es, i, o, k) then st.es[i].(obj := 0) else st.es[i]),
          st.flash)
  }

  lemma ForgottenOk(cs: nat, st: Store, sizes: map<nat, nat>, o: nat, k: nat)
    requires StoreOk(cs, st, sizes) && o != 0
    ensures StoreOk(cs, Forgotten(st, o, k), sizes)
    ensures forall w :: WithinFiles(cs, st, w) ==> WithinFiles(cs, Forgotten(st, o, k), w)
    ensures Wrote(cs, st, Forgotten(st, o, k), o, k, FlashChunk(cs, st.flash, o, k))
  {
    var st' := Forgotten(st, o, k);
    forall a, b, o', k' | o' != 0 && Holds(st'.es, a, o', k') && Holds(st'.es, b, o', k')
      ensures a == b
    {
      assert Holds(st.es, a, o', k') && Holds(st.es, b, o', k');
    }
    forall j | 0 <= j < |st'.es|
      ensures EntryOk(cs, st', sizes, st'.es[j])
    {
      assert EntryOk(cs, st, sizes, st.es[j]);
    }
    forall o', k' | o' != 0 && !(o' == o && k' == k)
      ensures Visible(cs, st', o', k') == Visible(cs, st, o', k')
    {
      ForgottenElsewhere(cs, st, o, k, o', k');
    }
    assert forall j :: !Holds(st'.es, j, o, k);
  }

  lemma ForgottenElsewhere(cs: nat, st: Store, o: nat, k: nat, o': nat, k': nat)
    requires Unique(st.es) && Unique(Forgotten(st, o, k).es) && o' != 0 && !(o' == o && k' == k)
    ensures Visible(cs, Forgotten(st, o, k), o', k') == Visible(cs, st, o', k')
  {
    var st' := Forgotten(st, o, k);
    if j :| Holds(st.es, j, o', k') {
      assert Holds(st'.es, j, o', k');
      Cached(cs, st, j, o', k');
      Cached(cs, st', j, o', k');
    } else {
      assert forall j :: Holds(st'.es, j, o', k') ==> Holds(st.es, j, o', k');
    }
  }

  /** Giving up the entry of a chunk goes unseen exactly if it held nothing that flash does not. */
  lemma ForgottenSeen(cs: nat, st: Store, sizes: map<nat, nat>, o: nat, k: nat)
    requires StoreOk(cs, st, sizes) && o != 0 && k >= 1
    ensures SameView(cs, st, Forgotten(st, o, k)) <==> !Unsaved(cs, st, o, k)
    ensures Unsaved(cs, st, o, k) <==> Visible(cs, st, o, k) != FlashChunk(cs, st.flash, o, k)
  {
    ForgottenOk(cs, st, sizes, o, k);
    if i :| Holds(st.es, i, o, k) {
      Cached(cs, st, i, o, k);
      assert EntryOk(cs, st, sizes, st.es[i]);
      assert forall j :: Holds(st.es, j, o, k) ==> j == i;
    }
  }

  /** Where the file has ended, cache and flash both hold zeros. */
  lemma SavedPastEnd(cs: nat, st: Store, sizes: map<nat, nat>, o: nat, k: nat)
    requires StoreOk(cs, st, sizes) && o != 0 && o in sizes && k >= 1 && sizes[o] <= (k - 1) * cs
    ensures !Unsaved(cs, st, o, k)
  {
    forall i | Holds(st.es, i, o, k)
      ensures st.es[i].data == FlashChunk(cs, st.flash, o, k)
    {
      assert EntryOk(cs, st, sizes, st.es[i]);
      var fl := FlashChunk(cs, st.flash, o, k);
      forall j | 0 <= j < cs
        ensures st.es[i].data[j] == fl[j]
      {
        assert (k - 1) * cs + j >= sizes[o];
      }
    }
  }

  /** Chunk `k` of `o` has not come to hold more in the cache than on flash. */
  ghost predicate Spared(cs: nat, st: Store, st': Store, o: nat, k: nat) {
    Unsaved(cs, st', o, k) ==>
      Unsaved(cs, st, o, k) && FlashChunk(cs, st'.flash, o, k) == FlashChunk(cs, st.flash, o, k)
  }

  /** No chunk of `o` but `k` has come to hold more in the cache than on flash. */
  ghost predicate SparedBut(cs: nat, st: Store, st': Store, o: nat, k: nat) {
    forall k' :: k' >= 1 && k' != k ==> Spared(cs, st, st', o, k')
  }

  /** No chunk of any object has. */
  ghost predicate AllSpared(cs: nat, st: Store, st': Store) {
    forall o, k :: o != 0 && k >= 1 ==> Spared(cs, st, st', o, k)
  }

  lemma SparedTrans(cs: nat, a: Store, b: Store, c: Store)
    requires AllSpared(cs, a, b) && AllSpared(cs, b, c)
    ensures AllSpared(cs, a, c)
  {
    forall o, k | o != 0 && k >= 1
      ensures Spared(cs, a, c, o, k)
    {
      assert Spared(cs, a, b, o, k) && Spared(cs, b, c, o, k);
    }
  }

  lemma SparedButTrans(cs: nat, a: Store, b: Store, c: Store, d: Store, o: nat, k: nat)
    requires o != 0 && AllSpared(cs, a, b) && SparedBut(cs, b, c, o, k) && AllSpared(cs, c, d)
    ensures SparedBut(cs, a, d, o, k)
  {
    forall k' | k' >= 1 && k' != k
      ensures Spared(cs, a, d, o, k')
    {
      assert Spared(cs, a, b, o, k') && Spared(cs, b, c, o, k') && Spared(cs, c, d, o, k');
    }
  }

  lemma FlushedSpared(cs: nat, st: Store, sizes: map<nat, nat>, i: nat, discard: bool)
    requires StoreOk(cs, st, sizes) && i < |st.es| && st.es[i].obj != 0
    ensures AllSpared(cs, st, Flushed(st, i, discard))
  {
    var st' := Flushed(st, i, discard);
    forall o, k | o != 0 && k >= 1
      ensures Spared(cs, st, st', o, k)
    {
      if j :| Holds(st'.es, j, o, k) && st'.es[j].dirty && st'.es[j].data != FlashChunk(cs, st'.flash, o, k) {
        assert j != i && Holds(st.es, j, o, k);
        assert !Holds(st.es, i, o, k);
      }
    }
  }

  lemma LoadedSpared(cs: nat, st: Store, i: nat, o': nat, k': nat)
    requires i < |st.es|
    ensures AllSpared(cs, st, Loaded(cs, st, i, o', k'))
  {
    var st' := Loaded(cs, st, i, o', k');
    forall o, k | o != 0 && k >= 1
      ensures Spared(cs, st, st', o, k)
    {
      if j :| Holds(st'.es, j, o, k) && st'.es[j].dirty && st'.es[j].data != FlashChunk(cs, st'.flash, o, k) {
        assert j != i && Holds(st.es, j, o, k);
      }
    }
  }

  lemma TouchedSpared(cs: nat, st: Store, st': Store)
    requires Touched(st.es, st'.es) && st'.flash == st.flash
    ensures AllSpared(cs, st, st')
  {
    forall o, k | o != 0 && k >= 1
      ensures Spared(cs, st, st', o, k)
    {
      if j :| Holds(st'.es, j, o, k) && st'.es[j].dirty && st'.es[j].data != FlashChunk(cs, st'.flash, o, k) {
        assert Holds(st.es, j, o, k);
      }
    }
  }

  lemma PokedSpared(cs: nat, st: Store, i: nat, data: seq<Byte>, n: nat, o: nat, k: nat)
    requires Holds(st.es, i, o, k)
    ensures SparedBut(cs, st, Poked(st, i, data, n), o, k)
  {
    var st' := Poked(st, i, data, n);
    forall k' | k' >= 1 && k' != k
      ensures Spared(cs, st, st', o, k')
    {
      if j :| Holds(st'.es, j, o, k') && st'.es[j].dirty && st'.es[j].data != FlashChunk(cs, st'.flash, o, k') {
        assert j != i && Holds(st.es, j, o, k');
      }
    }
  }

  lemma DirectSpared(cs: nat, st: Store, st': Store, o: nat, k: nat, data: seq<Byte>)
    requires o != 0 && st'.flash == st.flash[ChunkId(o, k) := data] && |st'.es| == |st.es|
    requires forall j :: 0 <= j < |st.es| ==> st'.es[j] == st.es[j] || st'.es[j] == st.es[j].(obj := 0)
    ensures SparedBut(cs, st, st', o, k)
  {
    forall k' | k' >= 1 && k' != k
      ensures Spared(cs, st, st', o, k')
    {
      if j :| Holds(st'.es, j, o, k') && st'.es[j].dirty && st'.es[j].data != FlashChunk(cs, st'.flash, o, k') {
        assert Holds(st.es, j, o, k');
      }
    }
  }

  /** A longer file leaves the store as it is. */
  lemma GrowOk(cs: nat, st: Store, sizes: map<nat, nat>, o: nat, z: nat)
    requires StoreOk(cs, st, sizes) && o in sizes && sizes[o] <= z
    ensures StoreOk(cs, st, sizes[o := z])
  {
    forall j | 0 <= j < |st.es|
      ensures EntryOk(cs, st, sizes[o := z], st.es[j])
    {
      assert EntryOk(cs, st, sizes, st.es[j]);
    }
  }

  // ----- the file as a flat array of bytes -----

  /** Byte `off` of file `o`. */
  ghost function At(cs: nat, st: Store, o: nat, off: nat): Byte
    requires cs > 0
  {
    var d := Visible(cs, st, o, off / cs + 1);
    if off % cs < |d| then d[off % cs] else 0
  }

  /** The bytes of `o` from `offset` on were replaced by `data`; nothing else changed. */
  ghost predicate Spliced(cs: nat, st: Store, st': Store, o: nat, offset: nat, data: seq<Byte>)
    requires cs > 0
  {
    && (forall o', k :: o' != 0 && k >= 1 && o' != o ==> Visible(cs, st', o', k) == Visible(cs, st, o', k))
    && forall off: nat :: At(cs, st', o, off) ==
         if offset <= off < offset + |data| then data[off - offset] else At(cs, st, o, off)
  }

  lemma SplicedNone(cs: nat, st: Store, st': Store, o: nat, offset: nat)
    requires cs > 0 && o != 0 && SameView(cs, st, st')
    ensures Spliced(cs, st, st', o, offset, [])
  {}

  lemma SplicedTrans(
    cs: nat, a: Store, b: Store, c: Store, o: nat, offset: nat, d: seq<Byte>, e: seq<Byte>)
    requires cs > 0 && Spliced(cs, a, b, o, offset, d) && Spliced(cs, b, c, o, offset + |d|, e)
    ensures Spliced(cs, a, c, o, offset, d + e)
  {
    forall off: nat
      ensures At(cs, c, o, off) ==
        if offset <= off < offset + |d + e| then (d + e)[off - offset] else At(cs, a, o, off)
    {
      assert At(cs, b, o, off) ==
        if offset <= off < offset + |d| then d[off - offset] else At(cs, a, o, off);
    }
  }

  /** Byte `off` of file `o` as flash has it. */
  ghost function FlashAt(cs: nat, st: Store, o: nat, off: nat): Byte
    requires cs > 0
  {
    var d := FlashChunk(cs, st.flash, o, off / cs + 1);
    if off % cs < |d| then d[off % cs] else 0
  }

  /** The bytes from `offset` on were replaced by `data`, but the chunk behind them fell back to
      what flash has of it. */
  ghost predicate SplicedBut(cs: nat, st: Store, st': Store, o: nat, offset: nat, data: seq<Byte>)
    requires cs > 0
  {
    && (forall o', k :: o' != 0 && k >= 1 && o' != o ==> Visible(cs, st', o', k) == Visible(cs, st, o', k))
    && forall off: nat :: At(cs, st', o, off) ==
         if offset <= off < offset + |data| then data[off - offset]
         else if off / cs == (offset + |data|) / cs then FlashAt(cs, st, o, off)
         else At(cs, st, o, off)
  }

  /** What a write leaves that got as far as `data`. Unless the chunk behind was lost, exactly
      those bytes changed. */
  ghost predicate WroteUpTo(cs: nat, st: Store, st': Store, o: nat, offset: nat, data: seq<Byte>, lost: bool)
    requires cs > 0
  {
    if lost
    then
      && (offset + |data|) % cs == 0 && Unsaved(cs, st, o, (offset + |data|) / cs + 1)
      && SplicedBut(cs, st, st', o, offset, data)
    else Spliced(cs, st, st', o, offset, data)
  }

  lemma LostByte(cs: nat, st: Store, sizes: map<nat, nat>, o: nat, end: nat) returns (off: nat)
    requires cs > 0 && o != 0 && StoreOk(cs, st, sizes)
    requires end % cs == 0 && Unsaved(cs, st, o, end / cs + 1)
    ensures off >= end && off / cs == end / cs && At(cs, st, o, off) != FlashAt(cs, st, o, off)
  {
    hide StoreOk, Unsaved, Visible, FlashChunk;
    var k := end / cs + 1;
    var j := UnsavedByte(cs, st, sizes, o, k);
    off := end + j;
    InChunk(cs, end, j);
  }

  lemma UnsavedByte(cs: nat, st: Store, sizes: map<nat, nat>, o: nat, k: nat) returns (j: nat)
    requires o != 0 && k >= 1 && StoreOk(cs, st, sizes) && Unsaved(cs, st, o, k)
    ensures j < cs == |Visible(cs, st, o, k)| == |FlashChunk(cs, st.flash, o, k)|
    ensures Visible(cs, st, o, k)[j] != FlashChunk(cs, st.flash, o, k)[j]
  {
    ForgottenSeen(cs, st, sizes, o, k);
    VisibleOk(cs, st, sizes, o, k);
    var v, fl := Visible(cs, st, o, k), FlashChunk(cs, st.flash, o, k);
    assert |fl| == cs;
    hide StoreOk, Unsaved, Visible, FlashChunk;
    j :| 0 <= j < cs && v[j] != fl[j];
  }

  lemma InChunk(cs: nat, end: nat, j: nat)
    requires cs > 0 && end % cs == 0 && j < cs
    ensures (end + j) / cs == end / cs && (end + j) % cs == j
  {
    assert end == end / cs * cs;
    Quotient(cs, end + j, end / cs, j);
  }

  /** Losing a chunk behind the bytes written always shows. */
  lemma LostShows(cs: nat, st: Store, sizes: map<nat, nat>, st': Store, o: nat, offset: nat, data: seq<Byte>)
    requires cs > 0 && o != 0 && StoreOk(cs, st, sizes) && WroteUpTo(cs, st, st', o, offset, data, true)
    ensures !Spliced(cs, st, st', o, offset, data)
  {
    var end := offset + |data|;
    var off := LostByte(cs, st, sizes, o, end);
    hide StoreOk, Unsaved, At, FlashAt, Visible;
    assert At(cs, st', o, off) == FlashAt(cs, st, o, off);
    SplicedAt(cs, st, st', o, offset, data, off);
  }

  lemma SplicedAt(cs: nat, st: Store, st': Store, o: nat, offset: nat, data: seq<Byte>, off: nat)
    requires cs > 0 && off >= offset + |data|
    ensures Spliced(cs, st, st', o, offset, data) ==> At(cs, st', o, off) == At(cs, st, o, off)
  {}

  lemma ForgottenLost(cs: nat, st: Store, m: Store, m': Store, o: nat, offset: nat, data: seq<Byte>)
    requires cs > 0 && o != 0 && (offset + |data|) % cs == 0 && Spliced(cs, st, m, o, offset, data)
    requires var k := (offset + |data|) / cs + 1;
      FlashChunk(cs, m.flash, o, k) == FlashChunk(cs, st.flash, o, k)
      && Wrote(cs, m, m', o, k, FlashChunk(cs, m.flash, o, k))
    ensures SplicedBut(cs, st, m', o, offset, data)
  {
    hide Visible, FlashChunk, At, FlashAt;
    var end := offset + |data|;
    forall off: nat
      ensures At(cs, m', o, off) ==
        if offset <= off < end then data[off - offset]
        else if off / cs == end / cs then FlashAt(cs, st, o, off)
        else At(cs, st, o, off)
    {
      assert At(cs, m, o, off) == if offset <= off < end then data[off - offset] else At(cs, st, o, off);
      ForgottenByte(cs, m, m', o, end, off);
      SameFlashAt(cs, st, m, o, end, off);
    }
    OthersSpliced(cs, st, m, m', o, offset, data);
  }

  lemma SameFlashAt(cs: nat, st: Store, m: Store, o: nat, end: nat, off: nat)
    requires cs > 0 && FlashChunk(cs, m.flash, o, end / cs + 1) == FlashChunk(cs, st.flash, o, end / cs + 1)
    ensures off / cs == end / cs ==> FlashAt(cs, m, o, off) == FlashAt(cs, st, o, off)
  {}

  lemma OthersSpliced(cs: nat, st: Store, m: Store, m': Store, o: nat, offset: nat, data: seq<Byte>)
    requires cs > 0 && o != 0 && Spliced(cs, st, m, o, offset, data)
    requires forall o', k :: o' != 0 && k >= 1 && o' != o ==> Visible(cs, m', o', k) == Visible(cs, m, o', k)
    ensures forall o', k :: o' != 0 && k >= 1 && o' != o ==> Visible(cs, m', o', k) == Visible(cs, st, o', k)
  {}

  /** The state of the cache when a write past it fails and the chunk's entry is given up. */
  lemma ForgottenSplice(
    cs: nat, st: Store, m: Store, sizes: map<nat, nat>, o: nat, offset: nat, data: seq<Byte>)
    requires cs > 0 && o != 0 && StoreOk(cs, m, sizes) && (offset + |data|) % cs == 0
    requires Spliced(cs, st, m, o, offset, data) && Spared(cs, st, m, o, (offset + |data|) / cs + 1)
    ensures var k := (offset + |data|) / cs + 1;
      WroteUpTo(cs, st, Forgotten(m, o, k), o, offset, data, Unsaved(cs, m, o, k))
  {
    var k := (offset + |data|) / cs + 1;
    var m' := Forgotten(m, o, k);
    ForgottenOk(cs, m, sizes, o, k);
    ForgottenSeen(cs, m, sizes, o, k);
    hide StoreOk, Unsaved, Visible, Forgotten, FlashChunk, Spliced, SplicedBut, SameView, Wrote;
    if Unsaved(cs, m, o, k) {
      ForgottenLost(cs, st, m, m', o, offset, data);
    } else {
      SplicedNone(cs, m, m', o, offset + |data|);
      SplicedTrans(cs, st, m, m', o, offset, data, []);
      assert data + [] == data;
    }
  }

  lemma ForgottenByte(cs: nat, m: Store, m': Store, o: nat, end: nat, off: nat)
    requires cs > 0 && o != 0 && end % cs == 0
    requires Wrote(cs, m, m', o, end / cs + 1, FlashChunk(cs, m.flash, o, end / cs + 1))
    ensures off / cs == end / cs ==> off >= end && At(cs, m', o, off) == FlashAt(cs, m, o, off)
    ensures off / cs != end / cs ==> At(cs, m', o, off) == At(cs, m, o, off)
  {
    hide Visible, FlashChunk;
    if off / cs == end / cs {
      assert end == end / cs * cs && off == off / cs * cs + off % cs;
    }
  }

  /** A write past the cache that fails can lose bytes: here a short write left two bytes of
      chunk 1 of file 5 in the cache, and nothing is on flash. */
  lemma LosesBytes()
    ensures var st := Store([Entry(5, 1, 1, true, 2, false, [7, 8])], map[]);
      && StoreOk(2, st, map[5 := 2]) && WithinFiles(2, st, map[5 := 2])
      && At(2, st, 5, 0) == 7 && At(2, Forgotten(st, 5, 1), 5, 0) == 0
  {
    var st := Store([Entry(5, 1, 1, true, 2, false, [7, 8])], map[]);
    assert Holds(st.es, 0, 5, 1);
    assert StoreOk(2, st, map[5 := 2]);
    Cached(2, st, 0, 5, 1);
    ForgottenOk(2, st, map[5 := 2], 5, 1);
  }

  /** Writing one chunk is a splice of its part of the file. */
  lemma WroteIsSplice(
    cs: nat, a: Store, b: Store, c: Store, o: nat, offset: nat, piece: seq<Byte>, data: seq<Byte>)
    requires cs > 0 && o != 0 && SameView(cs, a, b)
    requires Wrote(cs, b, c, o, offset / cs + 1, data) && |data| == cs
    requires offset % cs + |piece| <= cs && |Visible(cs, a, o, offset / cs + 1)| == cs
    requires data == Patched(Visible(cs, a, o, offset / cs + 1), offset % cs, piece)
    ensures Spliced(cs, a, c, o, offset, piece)
  {
    var k := offset / cs + 1;
    forall off: nat
      ensures At(cs, c, o, off) ==
        if offset <= off < offset + |piece| then piece[off - offset] else At(cs, a, o, off)
    {
      assert off / cs + 1 != k ==> Visible(cs, c, o, off / cs + 1) == Visible(cs, a, o, off / cs + 1);
      ByteWrote(cs, a, c, o, offset, piece, data, off);
    }
  }

  lemma ByteWrote(
    cs: nat, a: Store, c: Store, o: nat, offset: nat, piece: seq<Byte>, data: seq<Byte>, off: nat)
    requires cs > 0 && offset % cs + |piece| <= cs && |Visible(cs, a, o, offset / cs + 1)| == cs
    requires data == Patched(Visible(cs, a, o, offset / cs + 1), offset % cs, piece)
    requires Visible(cs, c, o, off / cs + 1) ==
               if off / cs == offset / cs then data else Visible(cs, a, o, off / cs + 1)
    ensures At(cs, c, o, off) ==
      if offset <= off < offset + |piece| then piece[off - offset] else At(cs, a, o, off)
  {
    hide Visible, Patched;
    SameChunk(cs, offset, off, |piece|);
    if off / cs == offset / cs {
      PatchedAt(Visible(cs, a, o, offset / cs + 1), offset % cs, piece, off % cs);
    }
  }

  lemma PatchedAt(data: seq<Byte>, start: nat, piece: seq<Byte>, j: nat)
    requires start + |piece| <= |data| && j < |data|
    ensures |Patched(data, start, piece)| == |data|
    ensures Patched(data, start, piece)[j] == if start <= j < start + |piece| then piece[j - start] else data[j]
  {}

  function Patched(data: seq<Byte>, start: nat, piece: seq<Byte>): seq<Byte>
    requires start + |piece| <= |data|
  {
    data[..start] + piece + data[start + |piece|..]
  }

  /** Offsets within one piece lie in the chunk the piece lies in. */
  lemma SameChunk(cs: nat, offset: nat, off: nat, n: nat)
    requires cs > 0 && offset % cs + n <= cs
    ensures offset <= off < offset + n ==>
              off / cs == offset / cs && off % cs == offset % cs + (off - offset)
    ensures off / cs == offset / cs ==> off - offset == off % cs - offset % cs
  {
    var q, r := offset / cs, offset % cs;
    assert offset == q * cs + r && off == off / cs * cs + off % cs;
    if offset <= off < offset + n {
      Quotient(cs, off, q, r + (off - offset));
    }
  }

  lemma MulAtLeast(d: nat, cs: nat)
    requires d >= 1
    ensures d * cs >= cs
  {
    assert d * cs == cs + (d - 1) * cs;
  }

  // ----- a file is cut down -----

  function ZeroFrom(cs: nat, z: nat, k: nat, data: seq<Byte>): (r: seq<Byte>)
    ensures |r| == |data|
    ensures forall j :: 0 <= j < |data| ==> r[j] == if (k - 1) * cs + j < z then data[j] else 0
  {
    seq(|data|, j requires 0 <= j < |data| => if (k - 1) * cs + j < z then data[j] else 0)
  }

  /** On flash, file `o` has been cut at `z`. */
  ghost predicate FlashCut(cs: nat, flash: map<ChunkId, seq<Byte>>, flash': map<ChunkId, seq<Byte>>, o: nat, z: nat) {
    && (forall k :: k >= 1 ==>
          FlashChunk(cs, flash', o, k) == ZeroFrom(cs, z, k, FlashChunk(cs, flash, o, k)))
    && (forall c: ChunkId :: c.obj != o ==> (c in flash' <==> c in flash))
    && (forall c: ChunkId :: c.obj != o && c in flash ==> flash'[c] == flash[c])
    && (forall c: ChunkId :: c.obj == o && c in flash' ==> c.chunk >= 1 && |flash'[c]| == cs && (c.chunk - 1) * cs < z)
  }

  lemma ZeroFromTail(cs: nat, z: nat, k: nat, data: seq<Byte>)
    requires ZeroTail(cs, z, k, data)
    ensures ZeroFrom(cs, z, k, data) == data
  {}

  /** Cutting the flash keeps the store, if the cache holds nothing of `o` past `z` and what it
      holds cleanly is not changed by the cut. */
  lemma CutOk(
    cs: nat, st: Store, sizes: map<nat, nat>, flash': map<ChunkId, seq<Byte>>, o: nat, z: nat)
    requires StoreOk(cs, st, sizes) && o in sizes && o != 0 && FlashCut(cs, st.flash, flash', o, z)
    requires (forall i :: 0 <= i < |st.es| ==> st.es[i].obj != o) || StoreOk(cs, st, sizes[o := z])
    ensures StoreOk(cs, Store(st.es, flash'), sizes[o := z])
  {
    var st' := Store(st.es, flash');
    forall i | 0 <= i < |st.es|
      ensures EntryOk(cs, st', sizes[o := z], st.es[i])
    {
      var e := st.es[i];
      assert EntryOk(cs, st, sizes, e);
      if e.obj == o {
        assert EntryOk(cs, st, sizes[o := z], e);
        if !e.dirty {
          ZeroFromTail(cs, z, e.chunk, e.data);
        }
      }
    }
    forall c | c in flash'
      ensures c.obj in sizes && ZeroTail(cs, sizes[o := z][c.obj], c.chunk, flash'[c])
    {
      if c.obj == o {
        assert flash'[c] == FlashChunk(cs, flash', o, c.chunk);
      } else {
        assert flash'[c] == st.flash[c];
      }
    }
  }

  /** With nothing of `o` cached, the cut is what a reader sees. */
  lemma CutView(
    cs: nat, st: Store, flash': map<ChunkId, seq<Byte>>, o: nat, z: nat, o': nat, k: nat)
    requires Unique(st.es) && FlashCut(cs, st.flash, flash', o, z) && o' != 0 && k >= 1
    requires forall i :: 0 <= i < |st.es| ==> st.es[i].obj != o
    ensures Visible(cs, Store(st.es, flash'), o', k) ==
            if o' == o then ZeroFrom(cs, z, k, Visible(cs, st, o, k)) else Visible(cs, st, o', k)
  {
    if o' != o {
      SameFlash(cs, st, Store(st.es, flash'), o', k);
    } else {
      assert forall i :: !Holds(st.es, i, o, k);
    }
  }

  /** When every stored byte past `z` is zero already, cutting at `z` shows nothing. */
  lemma CutUnseen(cs: nat, st: Store, sizes: map<nat, nat>, flash': map<ChunkId, seq<Byte>>, o: nat, z: nat)
    requires StoreOk(cs, st, sizes) && o in sizes && sizes[o] == z && o != 0
    requires FlashCut(cs, st.flash, flash', o, z)
    ensures forall o', k :: o' != 0 && k >= 1 ==>
              Visible(cs, Store(st.es, flash'), o', k) == Visible(cs, st, o', k)
  {
    forall o', k | o' != 0 && k >= 1
      ensures Visible(cs, Store(st.es, flash'), o', k) == Visible(cs, st, o', k)
    {
      if o' == o {
        assert ZeroTail(cs, z, k, FlashChunk(cs, st.flash, o, k));
        ZeroFromTail(cs, z, k, FlashChunk(cs, st.flash, o, k));
      }
      SameFlash(cs, st, Store(st.es, flash'), o', k);
    }
  }

  // ----- use counts -----

  /** Only the use counts of entries differ. */
  ghost predicate Touched(es: seq<Entry>, es': seq<Entry>) {
    |es'| == |es| && forall j :: 0 <= j < |es| ==> es'[j] == es[j].(lastUse := es'[j].lastUse)
  }

  lemma TouchedOk(cs: nat, st: Store, st': Store, sizes: map<nat, nat>)
    requires StoreOk(cs, st, sizes) && Touched(st.es, st'.es) && st'.flash == st.flash
    ensures StoreOk(cs, st', sizes) && SameView(cs, st, st')
    ensures forall w :: WithinFiles(cs, st, w) ==> WithinFiles(cs, st', w)
  {
    assert forall j, o, k :: Holds(st'.es, j, o, k) <==> Holds(st.es, j, o, k);
    forall j | 0 <= j < |st'.es|
      ensures EntryOk(cs, st', sizes, st'.es[j])
    {
      assert EntryOk(cs, st, sizes, st.es[j]);
    }
    forall o, k | o != 0 && k >= 1
      ensures Visible(cs, st', o, k) == Visible(cs, st, o, k)
    {
      if j :| Holds(st.es, j, o, k) {
        Cached(cs, st, j, o, k);
        Cached(cs, st', j, o, k);
      }
    }
  }

  /** A patched chunk is zero past `b` when the old chunk was zero past `a` and so is the piece. */
  lemma PatchedTail(cs: nat, data: seq<Byte>, offset: nat, piece: seq<Byte>, a: nat, b: nat)
    requires cs > 0 && |data| == cs && offset % cs + |piece| <= cs && a <= b
    requires ZeroTail(cs, a, offset / cs + 1, data)
    requires forall j :: 0 <= j < |piece| && offset + j >= b ==> piece[j] == 0
    ensures ZeroTail(cs, b, offset / cs + 1, Patched(data, offset % cs, piece))
  {
    var start, k := offset % cs, offset / cs + 1;
    assert (k - 1) * cs + start == offset;
    var p := Patched(data, start, piece);
    forall j | 0 <= j < |p| && (k - 1) * cs + j >= b
      ensures p[j] == 0
    {
      if start <= j < start + |piece| {
        assert p[j] == piece[j - start];
      }
    }
  }
}
