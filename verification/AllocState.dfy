/**
 * The allocator's state as a value: block records, chunk bitmaps and the counters kept
 * beside them, the single changes made to them, and the invariant each change keeps.
 */
module AllocState {
  import opened Basics
  import opened ChunkBits
  import Summary

  datatype BlockState = Empty | Allocating | Full | Dirty | Checkpoint | Collecting | Dead

  datatype Info = Info(
    state: BlockState,
    seqNumber: nat,
    inUse: int,
    softDel: int,
    needsRetiring: bool,
    skipErasedCheck: bool,
    gcPrioritise: bool,
    strikes: nat,
    hasSummary: bool,
    hasShrink: bool)
  {
    predicate Holds() {
      state == Allocating || state == Full || state == Collecting
    }

    /** As the flags that decide nothing about space differ. */
    predicate Like(y: Info) {
      state == y.state && seqNumber == y.seqNumber && inUse == y.inUse && softDel == y.softDel
    }
  }

  /** perSummary is 0 where summaries are off. */
  datatype Geometry = Geometry(start: nat, count: nat, chunks: nat, stride: nat, dataBytes: nat, perSummary: nat)

  predicate GeometryOk(g: Geometry) {
    g.start >= 1 && g.count >= 1 && 2 <= g.chunks <= 511 && g.stride == (g.chunks + 7) / 8
    && g.dataBytes > Summary.HEADER_SIZE
    && (g.perSummary > 0 ==> g.perSummary == g.chunks - Summary.ChunksUsed(g.chunks, g.dataBytes))
  }

  /** The pages of a block that hold data rather than its summary. */
  function DataPages(g: Geometry): nat {
    if g.perSummary > 0 then g.perSummary else g.chunks
  }

  lemma DataPagesFit(g: Geometry)
    requires GeometryOk(g)
    ensures 0 < DataPages(g) <= g.chunks && (g.perSummary > 0 ==> g.perSummary < g.chunks)
  {
    if g.perSummary > 0 {
      var x, t := g.chunks * Summary.TAGS_SIZE + g.dataBytes - 1, g.dataBytes - Summary.HEADER_SIZE;
      assert x == x / t * t + x % t;
    }
  }

  /** Blocks and the block being written and collected go by index; -1 is none. */
  datatype State = State(
    infos: seq<Info>,
    rows: seq<Row>,
    soft: seq<set<nat>>,
    nFree: int,
    nErased: int,
    inCheckpt: int,
    alloc: int,
    page: nat,
    gc: int,
    seqNumber: nat,
    oldest: nat,
    session: bool)

  // ---------- Sums over blocks ----------

  /** What a block adds to the count of free chunks. A dirty block still counts until it is retired. */
  function Share(g: Geometry, x: Info): int {
    if x.state == Checkpoint || x.state == Dead then 0 else g.chunks - x.inUse + x.softDel
  }

  ghost function FreeSum(g: Geometry, infos: seq<Info>): int {
    if infos == [] then 0 else Share(g, infos[0]) + FreeSum(g, infos[1..])
  }

  function One(b: bool): nat {
    if b then 1 else 0
  }

  ghost function Number(infos: seq<Info>, st: BlockState): nat {
    if infos == [] then 0 else One(infos[0].state == st) + Number(infos[1..], st)
  }

  lemma {:induction false} FreeSumUpdate(g: Geometry, infos: seq<Info>, i: nat, x: Info)
    requires i < |infos|
    ensures FreeSum(g, infos[i := x]) == FreeSum(g, infos) - Share(g, infos[i]) + Share(g, x)
  {
    if i > 0 {
      assert infos[i := x][1..] == infos[1..][i - 1 := x];
      FreeSumUpdate(g, infos[1..], i - 1, x);
    } else {
      assert infos[i := x][1..] == infos[1..];
    }
  }

  lemma {:induction false} NumberUpdate(infos: seq<Info>, st: BlockState, i: nat, x: Info)
    requires i < |infos|
    ensures Number(infos[i := x], st) == Number(infos, st) - One(infos[i].state == st) + One(x.state == st)
  {
    if i > 0 {
      assert infos[i := x][1..] == infos[1..][i - 1 := x];
      NumberUpdate(infos[1..], st, i - 1, x);
    } else {
      assert infos[i := x][1..] == infos[1..];
    }
  }

  lemma {:induction false} NumberNone(infos: seq<Info>, st: BlockState)
    ensures Number(infos, st) == 0 <==> forall i :: 0 <= i < |infos| ==> infos[i].state != st
  {
    if infos != [] {
      NumberNone(infos[1..], st);
      if Number(infos, st) == 0 {
        forall i | 0 <= i < |infos|
          ensures infos[i].state != st
        {
          if i > 0 {
            assert infos[i] == infos[1..][i - 1];
          }
        }
      }
    }
  }

  // ---------- The invariant ----------

  ghost predicate BlockOk(g: Geometry, x: Info, r: Row, t: set<nat>) {
    |r| == g.stride && x.inUse == Count(r)
    && (forall p: nat :: Check(r, p) ==> p < g.chunks)
    && (forall p :: p in t ==> Check(r, p) && p < DataPages(g))
    && x.softDel == |t|
    && (x.Holds() || x.inUse == 0)
    && (x.hasSummary ==> g.perSummary > 0)
  }

  ghost predicate Shape(g: Geometry, s: State) {
    |s.infos| == g.count && |s.rows| == g.count && |s.soft| == g.count
    && forall i :: 0 <= i < g.count ==> BlockOk(g, s.infos[i], s.rows[i], s.soft[i])
  }

  /** While a checkpoint is being written its blocks are still counted as erased and free. */
  ghost predicate Sums(g: Geometry, s: State) {
    s.inCheckpt == Number(s.infos, Checkpoint)
    && s.nErased == Number(s.infos, Empty) + (if s.session then s.inCheckpt else 0)
    && s.nFree == FreeSum(g, s.infos) + (if s.session then s.inCheckpt * g.chunks else 0)
  }

  ghost predicate Roles(g: Geometry, s: State) {
    |s.infos| == g.count
    && -1 <= s.alloc < g.count && -1 <= s.gc < g.count
    && (s.alloc >= 0 ==>
          s.infos[s.alloc].state == Allocating && s.infos[s.alloc].seqNumber == s.seqNumber && s.page < g.chunks)
    && (s.gc >= 0 ==> s.infos[s.gc].state == Full || s.infos[s.gc].state == Collecting)
    && (forall i :: 0 <= i < g.count && s.infos[i].state == Allocating ==> i == s.alloc)
    && (forall i :: 0 <= i < g.count && s.infos[i].state == Collecting ==> i == s.gc)
    && (forall i :: 0 <= i < g.count && s.infos[i].Holds() ==> 0 < s.infos[i].seqNumber <= s.seqNumber)
    && (forall i, j :: 0 <= i < j < g.count && s.infos[i].Holds() && s.infos[j].Holds() ==>
          s.infos[i].seqNumber != s.infos[j].seqNumber)
  }

  /** A block no longer being written, some of whose pages hold nothing wanted. */
  predicate Discarding(g: Geometry, x: Info) {
    (x.state == Full || x.state == Collecting) && x.inUse - x.softDel < g.chunks
  }

  /** Whenever it is known, the oldest dirty sequence number is a lower bound. */
  ghost predicate LowerBound(g: Geometry, s: State) {
    s.oldest > 0 ==>
      s.oldest <= s.seqNumber
      && forall i :: 0 <= i < |s.infos| && Discarding(g, s.infos[i]) ==> s.oldest <= s.infos[i].seqNumber
  }

  /** Where there are summaries, dropping one may break the bound: see SummaryClearedBound. */
  ghost predicate OldestOk(g: Geometry, s: State) {
    g.perSummary == 0 ==> LowerBound(g, s)
  }

  ghost predicate Inv(g: Geometry, s: State) {
    GeometryOk(g) && Shape(g, s) && Sums(g, s) && Roles(g, s) && OldestOk(g, s)
  }

  /** Pages from the next page to write on are free, and writing has not passed the data pages. */
  ghost predicate Ready(g: Geometry, s: State) {
    s.alloc >= 0 ==>
      s.alloc < |s.rows| && s.page < DataPages(g) && forall p: nat :: Check(s.rows[s.alloc], p) ==> p < s.page
  }

  ghost predicate NoneDirty(s: State) {
    forall i :: 0 <= i < |s.infos| ==> s.infos[i].state != Dirty
  }

  ghost predicate InUse(s: State, i: int, p: nat) {
    0 <= i < |s.rows| && Check(s.rows[i], p)
  }

  // ---------- A device of erased blocks ----------

  const CLEAN: Info := Info(Empty, 0, 0, 0, false, false, false, 0, false, false)

  function Clean(g: Geometry): State {
    State(seq(g.count, i => CLEAN), seq(g.count, i => NoBits(g.stride)), seq(g.count, i => {}),
          g.count * g.chunks, g.count, 0, -1, 0, -1, 0, 0, false)
  }

  lemma CleanOk(g: Geometry)
    requires GeometryOk(g)
    ensures Inv(g, Clean(g)) && Ready(g, Clean(g)) && NoneDirty(Clean(g))
  {
    var s := Clean(g);
    CountNone(NoBits(g.stride));
    NumberAll(g, s.infos);
    NumberNone(s.infos, Checkpoint);
    hide Count, Check, Number, FreeSum;
    forall p: nat
      ensures !Check(NoBits(g.stride), p)
    {
      NoBitsCheck(g.stride, p);
    }
  }

  lemma {:induction false} NumberAll(g: Geometry, infos: seq<Info>)
    requires forall i :: 0 <= i < |infos| ==> infos[i] == CLEAN
    ensures Number(infos, Empty) == |infos| && FreeSum(g, infos) == |infos| * g.chunks
  {
    if infos != [] {
      NumberAll(g, infos[1..]);
    }
  }

  // ---------- What the run-time checks look for ----------

  lemma {:induction false} NumberAtMostOne(infos: seq<Info>, st: BlockState, k: int)
    requires forall i :: 0 <= i < |infos| && infos[i].state == st ==> i == k
    ensures Number(infos, st) <= 1
  {
    if infos != [] {
      if infos[0].state == st {
        NumberNone(infos[1..], st);
      } else {
        NumberAtMostOne(infos[1..], st, k - 1);
      }
    }
  }

  lemma UsedIsCounted(g: Geometry, x: Info, r: Row, t: set<nat>)
    requires BlockOk(g, x, r, t)
    ensures 0 <= x.softDel <= x.inUse <= g.chunks
  {
    CountIsSize(r);
    CountBelow(r, g.chunks);
    hide Check, Count;
    Inside(r, t);
    SizeOfSubset(t, Chunks(r));
  }

  lemma Inside(r: Row, t: set<nat>)
    requires forall p :: p in t ==> Check(r, p)
    ensures t <= Chunks(r)
  {
    forall p | p in t
      ensures p in Chunks(r)
    {
      assert Check(r, p) && p / 8 < |r|;
    }
  }

  /** Everything the run-time verification of blocks and free chunks looks for follows from the invariant. */
  lemma RuntimeChecks(g: Geometry, s: State)
    requires Inv(g, s) && NoneDirty(s) && !s.session
    ensures forall i :: 0 <= i < g.count ==> 0 <= s.infos[i].softDel <= s.infos[i].inUse <= g.chunks <= 511
    ensures forall i :: 0 <= i < g.count ==> s.infos[i].inUse == Count(s.rows[i])
    ensures Number(s.infos, Allocating) <= 1 && Number(s.infos, Collecting) <= 1 && Number(s.infos, Dirty) == 0
    ensures s.nErased == Number(s.infos, Empty) && s.inCheckpt == Number(s.infos, Checkpoint)
    ensures s.nFree == FreeSum(g, s.infos)
  {
    forall i | 0 <= i < g.count
      ensures 0 <= s.infos[i].softDel <= s.infos[i].inUse <= g.chunks <= 511
    {
      UsedIsCounted(g, s.infos[i], s.rows[i], s.soft[i]);
    }
    NumberAtMostOne(s.infos, Allocating, s.alloc);
    NumberAtMostOne(s.infos, Collecting, s.gc);
    NumberNone(s.infos, Dirty);
  }

  // ---------- One block changes ----------

  function Put(s: State, i: nat, x: Info, r: Row, t: set<nat>): State
    requires i < |s.infos| && i < |s.rows| && i < |s.soft|
  {
    s.(infos := s.infos[i := x], rows := s.rows[i := r], soft := s.soft[i := t])
  }

  predicate Has(s: State, i: int) {
    0 <= i < |s.infos| && |s.rows| == |s.infos| && |s.soft| == |s.infos|
  }

  lemma PutShape(g: Geometry, s: State, i: nat, x: Info, r: Row, t: set<nat>)
    requires Shape(g, s) && i < g.count && BlockOk(g, x, r, t)
    ensures Shape(g, Put(s, i, x, r, t))
  {}

  /** The counters stay true when they change as the one block's part in them does. */
  lemma PutSums(g: Geometry, s: State, i: nat, x: Info, r: Row, t: set<nat>, s': State)
    requires Sums(g, s) && Has(s, i) && s'.infos == Put(s, i, x, r, t).infos && s'.session == s.session
    requires var y := s.infos[i]; var d := One(x.state == Checkpoint) - One(y.state == Checkpoint);
      s'.inCheckpt == s.inCheckpt + d
      && s'.nErased == s.nErased + One(x.state == Empty) - One(y.state == Empty) + (if s.session then d else 0)
      && s'.nFree == s.nFree + Share(g, x) - Share(g, y) + (if s.session then d * g.chunks else 0)
    ensures Sums(g, s')
  {
    hide FreeSum, Number, Share, One;
    FreeSumUpdate(g, s.infos, i, x);
    NumberUpdate(s.infos, Checkpoint, i, x);
    NumberUpdate(s.infos, Empty, i, x);
    AddTimes(s.inCheckpt, One(x.state == Checkpoint) - One(s.infos[i].state == Checkpoint), g.chunks);
  }

  lemma AddTimes(a: int, d: int, k: nat)
    ensures (a + d) * k == a * k + d * k
  {}

  // ---------- Allocation ----------

  /** An erased block is taken into use under the next sequence number. */
  function Claim(s: State, i: nat): State
    requires Has(s, i)
  {
    var n := s.seqNumber + 1;
    Put(s, i, s.infos[i].(state := Allocating, seqNumber := n), s.rows[i], s.soft[i])
    .(seqNumber := n, nErased := s.nErased - 1, alloc := i, page := 0)
  }

  lemma EmptyRow(g: Geometry, x: Info, r: Row, t: set<nat>, p: nat)
    requires BlockOk(g, x, r, t) && x.inUse == 0
    ensures !Check(r, p) && t == {} && x.softDel == 0
  {
    if q: nat :| Check(r, q) {
      NoneSet(r, q);
    }
    assert t == {};
  }

  lemma ClaimKeeps(g: Geometry, s: State, i: nat)
    requires Inv(g, s) && i < g.count && s.infos[i].state == Empty && s.alloc == -1 && !s.session
    ensures Inv(g, Claim(s, i)) && Ready(g, Claim(s, i))
  {
    hide Sums, Count, Check, Summary.ChunksUsed;
    var s' := Claim(s, i);
    PutShape(g, s, i, s'.infos[i], s.rows[i], s.soft[i]);
    PutSums(g, s, i, s'.infos[i], s.rows[i], s.soft[i], s');
    DataPagesFit(g);
    forall p: nat
      ensures !Check(s.rows[i], p)
    {
      EmptyRow(g, s.infos[i], s.rows[i], s.soft[i], p);
    }
  }

  /** The next page of the block being written is handed out. */
  function TakePage(g: Geometry, s: State): State
    requires Has(s, s.alloc) && s.page / 8 < |s.rows[s.alloc]|
  {
    var x := s.infos[s.alloc];
    var full := s.page + 1 >= g.chunks;
    Put(s, s.alloc, x.(inUse := x.inUse + 1, state := if full then Full else x.state),
        Set(s.rows[s.alloc], s.page), s.soft[s.alloc])
    .(page := s.page + 1, nFree := s.nFree - 1, alloc := if full then -1 else s.alloc)
  }

  lemma InRow(g: Geometry, p: nat)
    requires GeometryOk(g) && p < g.chunks
    ensures p / 8 < g.stride
  {}

  lemma TakePageKeeps(g: Geometry, s: State)
    requires Inv(g, s) && Ready(g, s) && s.alloc >= 0 && s.page / 8 < g.stride
    ensures Inv(g, TakePage(g, s))
    ensures forall i: int, p: nat :: InUse(TakePage(g, s), i, p) <==> InUse(s, i, p) || (i == s.alloc && p == s.page)
    ensures !InUse(s, s.alloc, s.page)
  {
    hide Sums, Count, Check, Set, Summary.ChunksUsed;
    var s' := TakePage(g, s);
    var i := s.alloc;
    SetBit(s.rows[i], s.page);
    PutShape(g, s, i, s'.infos[i], s'.rows[i], s.soft[i]);
    PutSums(g, s, i, s'.infos[i], s'.rows[i], s.soft[i], s');
  }

  function SkipRest(s: State): State
    requires s.alloc >= 0 ==> Has(s, s.alloc)
  {
    if s.alloc < 0 then s
    else
      Put(s, s.alloc, s.infos[s.alloc].(state := Full), s.rows[s.alloc], s.soft[s.alloc]).(alloc := -1)
  }

  lemma SkipRestKeeps(g: Geometry, s: State)
    requires Inv(g, s)
    ensures Inv(g, SkipRest(s)) && Ready(g, SkipRest(s))
  {
    hide Sums, Count, Check, Summary.ChunksUsed;
    var s' := SkipRest(s);
    if s.alloc >= 0 {
      PutShape(g, s, s.alloc, s'.infos[s.alloc], s.rows[s.alloc], s.soft[s.alloc]);
      PutSums(g, s, s.alloc, s'.infos[s.alloc], s.rows[s.alloc], s.soft[s.alloc], s');
    }
  }

  // ---------- Deletion ----------

  /** The oldest dirty sequence number, if known, comes down to a block being dirtied. */
  function Noted(s: State, i: nat): nat
    requires i < |s.infos|
  {
    if s.oldest > s.infos[i].seqNumber then s.infos[i].seqNumber else s.oldest
  }

  function Release(s: State, i: nat, p: nat): State
    requires Has(s, i) && p / 8 < |s.rows[i]|
  {
    var x := s.infos[i];
    Put(s, i, x.(inUse := x.inUse - 1), Clear(s.rows[i], p), s.soft[i])
    .(nFree := s.nFree + 1, oldest := Noted(s, i))
  }

  lemma UsedBlock(g: Geometry, s: State, i: nat, p: nat)
    requires Inv(g, s) && InUse(s, i, p)
    ensures p < g.chunks && p / 8 < g.stride && s.infos[i].Holds() && Count(s.rows[i]) > 0
  {
    hide Count, Check, Sums, Roles, OldestOk;
    NoneSet(s.rows[i], p);
    InRow(g, p);
  }

  lemma ReleaseKeeps(g: Geometry, s: State, i: nat, p: nat)
    requires Inv(g, s) && InUse(s, i, p) && p !in s.soft[i] && p / 8 < g.stride && s.infos[i].Holds()
    ensures Inv(g, Release(s, i, p))
    ensures Ready(g, s) ==> Ready(g, Release(s, i, p))
    ensures forall j: int, q: nat :: InUse(Release(s, i, p), j, q) <==> InUse(s, j, q) && (i != j || p != q)
  {
    hide Sums, Count, Check, Clear, Summary.ChunksUsed, DataPages;
    var s' := Release(s, i, p);
    ClearBit(s.rows[i], p);
    PutShape(g, s, i, s'.infos[i], s'.rows[i], s.soft[i]);
    PutSums(g, s, i, s'.infos[i], s'.rows[i], s.soft[i], s');
  }

  function SoftDel(s: State, i: nat, p: nat): State
    requires Has(s, i)
  {
    var x := s.infos[i];
    Put(s, i, x.(softDel := x.softDel + 1), s.rows[i], s.soft[i] + {p})
    .(nFree := s.nFree + 1, oldest := Noted(s, i))
  }

  lemma SoftDelKeeps(g: Geometry, s: State, i: nat, p: nat)
    requires Inv(g, s) && InUse(s, i, p) && p !in s.soft[i] && p < DataPages(g) && s.infos[i].Holds()
    ensures Inv(g, SoftDel(s, i, p))
    ensures Ready(g, s) ==> Ready(g, SoftDel(s, i, p))
  {
    hide Sums, Count, Check, Summary.ChunksUsed, DataPages;
    var s' := SoftDel(s, i, p);
    PutShape(g, s, i, s'.infos[i], s.rows[i], s'.soft[i]);
    PutSums(g, s, i, s'.infos[i], s.rows[i], s'.soft[i], s');
  }

  /** Before a soft-deleted chunk is really deleted it is counted out again. */
  function Harden(s: State, i: nat, p: nat): State
    requires Has(s, i)
  {
    var x := s.infos[i];
    Put(s, i, x.(softDel := x.softDel - 1), s.rows[i], s.soft[i] - {p}).(nFree := s.nFree - 1)
  }

  lemma HardenKeeps(g: Geometry, s: State, i: nat, p: nat)
    requires Inv(g, s) && Has(s, i) && p in s.soft[i] && s.infos[i].Holds()
    ensures Inv(g, Harden(s, i, p))
    ensures Ready(g, s) ==> Ready(g, Harden(s, i, p))
  {
    hide Sums, Count, Check, Summary.ChunksUsed, DataPages;
    var s' := Harden(s, i, p);
    PutShape(g, s, i, s'.infos[i], s.rows[i], s'.soft[i]);
    PutSums(g, s, i, s'.infos[i], s.rows[i], s'.soft[i], s');
  }

  // ---------- Erasure ----------

  /** A block that holds nothing wanted leaves the log. */
  function Dirtied(s: State, i: nat): State
    requires Has(s, i)
  {
    Put(s, i, s.infos[i].(state := Dirty), s.rows[i], s.soft[i])
    .(oldest := if s.oldest == s.infos[i].seqNumber then 0 else s.oldest, gc := if s.gc == i then -1 else s.gc)
  }

  lemma DirtiedKeeps(g: Geometry, s: State, i: nat)
    requires Inv(g, s) && Has(s, i) && s.infos[i].inUse == 0
    requires s.infos[i].state == Full || s.infos[i].state == Collecting
    ensures Inv(g, Dirtied(s, i))
    ensures Ready(g, s) ==> Ready(g, Dirtied(s, i))
  {
    var s' := Dirtied(s, i);
    assert BlockOk(g, s'.infos[i], s.rows[i], s.soft[i]);
    hide Sums, Shape, Roles, OldestOk, GeometryOk;
    PutShape(g, s, i, s'.infos[i], s.rows[i], s.soft[i]);
    PutSums(g, s, i, s'.infos[i], s.rows[i], s.soft[i], s');
    DirtiedRoles(g, s, i);
  }

  lemma DirtiedRoles(g: Geometry, s: State, i: nat)
    requires Roles(g, s) && OldestOk(g, s) && Has(s, i)
    requires s.infos[i].state == Full || s.infos[i].state == Collecting
    ensures Roles(g, Dirtied(s, i)) && OldestOk(g, Dirtied(s, i))
    ensures Ready(g, s) ==> Ready(g, Dirtied(s, i))
  {
    hide Check, DataPages;
    assert forall j :: 0 <= j < |s.infos| && j != i ==> Dirtied(s, i).infos[j] == s.infos[j];
  }

  function Erased(g: Geometry, s: State, i: nat): State
    requires Has(s, i)
  {
    Put(s, i, Info(Empty, 0, 0, 0, s.infos[i].needsRetiring, true, false, s.infos[i].strikes, false, false),
        NoBits(g.stride), {})
    .(nErased := s.nErased + 1)
  }

  lemma ErasedKeeps(g: Geometry, s: State, i: nat)
    requires Inv(g, s) && Has(s, i) && s.infos[i].state == Dirty && !s.session
    ensures Inv(g, Erased(g, s, i))
    ensures Ready(g, s) ==> Ready(g, Erased(g, s, i))
    ensures forall j: int, q: nat :: InUse(Erased(g, s, i), j, q) <==> InUse(s, j, q)
    ensures s.soft[i] == {} && Erased(g, s, i).soft == s.soft
  {
    hide Sums, Count, Check, Summary.ChunksUsed, DataPages;
    var s' := Erased(g, s, i);
    CountNone(NoBits(g.stride));
    forall p: nat
      ensures !Check(NoBits(g.stride), p) && !Check(s.rows[i], p)
    {
      NoBitsCheck(g.stride, p);
      EmptyRow(g, s.infos[i], s.rows[i], s.soft[i], p);
    }
    assert BlockOk(g, s'.infos[i], s'.rows[i], s'.soft[i]);
    PutShape(g, s, i, s'.infos[i], s'.rows[i], s'.soft[i]);
    assert s.soft[i] == {};
    PutSums(g, s, i, s'.infos[i], s'.rows[i], s'.soft[i], s');
  }

  /** A block that cannot be erased takes its space with it. */
  function Retired(g: Geometry, s: State, i: nat): State
    requires Has(s, i)
  {
    Put(s, i, s.infos[i].(state := Dead, gcPrioritise := false, needsRetiring := false), s.rows[i], s.soft[i])
    .(nFree := s.nFree - g.chunks, oldest := if s.oldest == s.infos[i].seqNumber then 0 else s.oldest)
  }

  lemma RetiredKeeps(g: Geometry, s: State, i: nat)
    requires Inv(g, s) && Has(s, i) && s.infos[i].state == Dirty && !s.session
    ensures Inv(g, Retired(g, s, i))
    ensures Ready(g, s) ==> Ready(g, Retired(g, s, i))
  {
    hide Sums, Count, Check, Summary.ChunksUsed, DataPages;
    var s' := Retired(g, s, i);
    EmptyRow(g, s.infos[i], s.rows[i], s.soft[i], 0);
    PutShape(g, s, i, s'.infos[i], s.rows[i], s.soft[i]);
    PutSums(g, s, i, s'.infos[i], s.rows[i], s.soft[i], s');
  }

  // ---------- Collection ----------

  function StartCollect(s: State, i: nat): State
    requires Has(s, i)
  {
    Put(s, i, s.infos[i].(state := Collecting, hasShrink := false), s.rows[i], s.soft[i])
  }

  lemma StartCollectKeeps(g: Geometry, s: State, i: nat)
    requires Inv(g, s) && Has(s, i) && s.infos[i].state == Full && s.gc == i
    ensures Inv(g, StartCollect(s, i))
    ensures Ready(g, s) ==> Ready(g, StartCollect(s, i))
  {
    hide Sums, Count, Check, Summary.ChunksUsed, DataPages;
    var s' := StartCollect(s, i);
    PutShape(g, s, i, s'.infos[i], s.rows[i], s.soft[i]);
    PutSums(g, s, i, s'.infos[i], s.rows[i], s.soft[i], s');
  }

  function StopCollect(s: State, i: nat): State
    requires Has(s, i)
  {
    Put(s, i, s.infos[i].(state := Full), s.rows[i], s.soft[i])
  }

  lemma StopCollectKeeps(g: Geometry, s: State, i: nat)
    requires Inv(g, s) && Has(s, i) && s.infos[i].state == Collecting
    ensures Inv(g, StopCollect(s, i))
    ensures Ready(g, s) ==> Ready(g, StopCollect(s, i))
  {
    hide Sums, Count, Check, Summary.ChunksUsed, DataPages;
    var s' := StopCollect(s, i);
    PutShape(g, s, i, s'.infos[i], s.rows[i], s.soft[i]);
    PutSums(g, s, i, s'.infos[i], s.rows[i], s.soft[i], s');
  }

  /** Flags that decide nothing about space. */
  function Marked(s: State, i: nat, x: Info): State
    requires Has(s, i)
  {
    Put(s, i, x, s.rows[i], s.soft[i])
  }

  lemma MarkedKeeps(g: Geometry, s: State, i: nat, x: Info)
    requires Inv(g, s) && Has(s, i) && x.Like(s.infos[i])
    requires x.hasSummary ==> g.perSummary > 0 || s.infos[i].hasSummary
    ensures Inv(g, Marked(s, i, x))
    ensures Ready(g, s) ==> Ready(g, Marked(s, i, x))
  {
    assert BlockOk(g, x, s.rows[i], s.soft[i]);
    hide Sums, Shape, Roles, OldestOk, GeometryOk, BlockOk;
    PutShape(g, s, i, x, s.rows[i], s.soft[i]);
    PutSums(g, s, i, x, s.rows[i], s.soft[i], Marked(s, i, x));
    MarkedRoles(g, s, i, x);
  }

  lemma MarkedRoles(g: Geometry, s: State, i: nat, x: Info)
    requires Roles(g, s) && OldestOk(g, s) && Has(s, i) && x.Like(s.infos[i])
    ensures Roles(g, Marked(s, i, x)) && OldestOk(g, Marked(s, i, x))
    ensures Ready(g, s) ==> Ready(g, Marked(s, i, x))
  {
    var s' := Marked(s, i, x);
    assert forall j :: 0 <= j < |s.infos| ==> s'.infos[j].Like(s.infos[j]);
    LikeRoles(g, s, s');
    hide Check, DataPages, Roles, OldestOk, Marked;
  }

  lemma LikeRoles(g: Geometry, s: State, s': State)
    requires Roles(g, s) && OldestOk(g, s) && |s'.infos| == |s.infos| && s'.(infos := s.infos) == s
    requires forall j :: 0 <= j < |s.infos| ==> s'.infos[j].Like(s.infos[j])
    ensures Roles(g, s') && OldestOk(g, s')
  {}

  // ---------- Summaries ----------

  function SummaryChunk(s: State, i: nat, p: nat): State
    requires Has(s, i) && p / 8 < |s.rows[i]|
  {
    var x := s.infos[i];
    Put(s, i, x.(inUse := x.inUse + 1), Set(s.rows[i], p), s.soft[i]).(nFree := s.nFree - 1)
  }

  lemma SummaryChunkKeeps(g: Geometry, s: State, i: nat, p: nat)
    requires Inv(g, s) && Has(s, i) && s.infos[i].Holds() && p < g.chunks && p / 8 < g.stride && !InUse(s, i, p)
    ensures Inv(g, SummaryChunk(s, i, p))
    ensures forall j: int, q: nat :: InUse(SummaryChunk(s, i, p), j, q) <==> InUse(s, j, q) || (i == j && p == q)
  {
    hide Sums, Count, Check, Set, Summary.ChunksUsed, DataPages;
    var s' := SummaryChunk(s, i, p);
    SetBit(s.rows[i], p);
    PutShape(g, s, i, s'.infos[i], s'.rows[i], s.soft[i]);
    PutSums(g, s, i, s'.infos[i], s'.rows[i], s.soft[i], s');
  }

  function SummaryCleared(s: State, i: nat, p: nat): State
    requires Has(s, i) && p / 8 < |s.rows[i]|
  {
    var x := s.infos[i];
    Put(s, i, x.(inUse := x.inUse - 1), Clear(s.rows[i], p), s.soft[i]).(nFree := s.nFree + 1)
  }

  lemma SummaryClearedKeeps(g: Geometry, s: State, i: nat, p: nat)
    requires Inv(g, s) && InUse(s, i, p) && g.perSummary > 0 && p >= g.perSummary && p / 8 < g.stride
    requires s.infos[i].Holds()
    ensures Inv(g, SummaryCleared(s, i, p))
    ensures Ready(g, s) ==> Ready(g, SummaryCleared(s, i, p))
    ensures forall j: int, q: nat :: InUse(SummaryCleared(s, i, p), j, q) <==> InUse(s, j, q) && (i != j || p != q)
  {
    hide Sums, Count, Check, Clear, Summary.ChunksUsed;
    var s' := SummaryCleared(s, i, p);
    ClearBit(s.rows[i], p);
    PutShape(g, s, i, s'.infos[i], s'.rows[i], s.soft[i]);
    PutSums(g, s, i, s'.infos[i], s'.rows[i], s.soft[i], s');
  }

  /** Dropping a chunk of a summary keeps the bound exactly if the block is no older than it. */
  lemma SummaryClearedBound(g: Geometry, s: State, i: nat, p: nat)
    requires Shape(g, s) && GeometryOk(g) && i < g.count && p / 8 < g.stride && LowerBound(g, s)
    requires s.infos[i].state == Full || s.infos[i].state == Collecting
    ensures LowerBound(g, SummaryCleared(s, i, p)) <==> s.oldest <= s.infos[i].seqNumber
  {
    UsedIsCounted(g, s.infos[i], s.rows[i], s.soft[i]);
    hide Count, Check, Clear;
    var s' := SummaryCleared(s, i, p);
    assert Discarding(g, s'.infos[i]) && s'.infos[i].seqNumber == s.infos[i].seqNumber;
    assert forall j :: 0 <= j < |s.infos| && j != i ==> s'.infos[j] == s.infos[j];
  }

  /** The bound holds of every block but perhaps block `i`. */
  ghost predicate BoundBut(g: Geometry, s: State, i: nat) {
    s.oldest > 0 ==>
      s.oldest <= s.seqNumber
      && forall j :: 0 <= j < |s.infos| && j != i && Discarding(g, s.infos[j]) ==> s.oldest <= s.infos[j].seqNumber
  }

  /**
   * Once the summary of block `i` has been dropped, deleting any chunk of the block restores the bound, and so does
   * erasing it. A collection that ends with neither done leaves the bound broken exactly if the block is older.
   */
  lemma BoundRestored(g: Geometry, s: State, i: nat, p: nat)
    requires Has(s, i) && p / 8 < |s.rows[i]| && BoundBut(g, s, i) && 0 < s.infos[i].seqNumber <= s.seqNumber
    requires s.infos[i].state == Collecting && s.infos[i].inUse - s.infos[i].softDel < g.chunks
    ensures LowerBound(g, Release(s, i, p)) && LowerBound(g, Dirtied(s, i))
    ensures LowerBound(g, StopCollect(s, i)) <==> s.oldest <= s.infos[i].seqNumber
  {
    hide Clear;
    var t := StopCollect(s, i);
    assert Discarding(g, t.infos[i]) && t.infos[i].seqNumber == s.infos[i].seqNumber;
    assert forall j :: 0 <= j < |s.infos| && j != i ==> t.infos[j] == s.infos[j];
  }

  predicate Sized(g: Geometry, s: State) {
    |s.infos| == |s.rows| == |s.soft| == g.count && forall j :: 0 <= j < |s.rows| ==> |s.rows[j]| == g.stride
  }

  /** An erased block is claimed and filled with one data page and one of summary. */
  function Filled(g: Geometry, s: State, i: nat): (r: State)
    requires Sized(g, s) && i < g.count && g.chunks == 2 && g.stride == 1
    ensures Sized(g, r) && r.seqNumber == s.seqNumber + 1 && r.oldest == s.oldest
    ensures r.infos == s.infos[i := s.infos[i].(state := Full, seqNumber := s.seqNumber + 1,
                                                 inUse := s.infos[i].inUse + 2, hasSummary := true)]
  {
    var t := SummaryChunk(TakePage(g, Claim(s, i)), i, 1);
    SkipRest(Marked(t, i, t.infos[i].(hasSummary := true)))
  }

  /**
   * The bound can be lost: of two blocks of two pages, one of data and one of summary, the younger loses its data and
   * is found to be the oldest dirty one; the older is then collected to refresh it, its summary is dropped, and there
   * is no space to copy its data to. Geometry(1, 3, 2, 1, 512, 1) is such a device.
   */
  lemma BoundLost(g: Geometry) returns (s: State, t: State)
    requires GeometryOk(g) && g.count == 3 && g.chunks == 2 && g.perSummary == 1
    ensures Inv(g, Clean(g)) && g.stride == 1
    ensures Sized(g, s) && s == Release(Filled(g, Filled(g, Clean(g), 0), 1), 1, 0) && LowerBound(g, s)
    ensures LowerBound(g, s.(oldest := 2))
    ensures Sized(g, t) && t == SummaryCleared(StartCollect(s.(oldest := 2, gc := 0), 0), 0, 1)
    ensures BoundBut(g, t, 0) && !LowerBound(g, StopCollect(t, 0))
  {
    CleanOk(g);
    assert g.stride == 1;
    var c := Clean(g);
    assert Sized(g, c) && c.infos == [CLEAN, CLEAN, CLEAN] && c.seqNumber == 0 && c.oldest == 0;
    hide Set, Clear, Inv, Clean, Release, SummaryCleared, StartCollect, StopCollect, LowerBound, BoundBut, GeometryOk;
    var u := Filled(g, Filled(g, c, 0), 1);
    s, t := LostAfter(g, u);
  }

  lemma LostAfter(g: Geometry, u: State) returns (s: State, t: State)
    requires g.count == 3 && g.chunks == 2 && g.stride == 1 && Sized(g, u) && u.oldest == 0 && u.seqNumber == 2
    requires u.infos[0].state == Full && u.infos[0].seqNumber == 1 && u.infos[0].inUse == 2 && u.infos[0].softDel == 0
    requires u.infos[1].state == Full && u.infos[1].seqNumber == 2 && u.infos[2].state == Empty
    ensures Sized(g, s) && s == Release(u, 1, 0) && LowerBound(g, s) && LowerBound(g, s.(oldest := 2))
    ensures Sized(g, t) && t == SummaryCleared(StartCollect(s.(oldest := 2, gc := 0), 0), 0, 1)
    ensures BoundBut(g, t, 0) && !LowerBound(g, StopCollect(t, 0))
  {
    hide Mask;
    s := Release(u, 1, 0);
    t := SummaryCleared(StartCollect(s.(oldest := 2, gc := 0), 0), 0, 1);
    var v := StopCollect(t, 0);
    assert v.infos[0].seqNumber == 1 && Discarding(g, v.infos[0]);
  }

  // ---------- Checkpoints ----------

  function CheckptErased(g: Geometry, s: State, i: nat, ok: bool): State
    requires Has(s, i)
  {
    Put(s, i, s.infos[i].(state := if ok then Empty else Dead), s.rows[i], s.soft[i])
    .(inCheckpt := s.inCheckpt - 1, nErased := s.nErased + One(ok), nFree := if ok then s.nFree + g.chunks else s.nFree)
  }

  lemma CheckptErasedKeeps(g: Geometry, s: State, i: nat, ok: bool)
    requires Inv(g, s) && Has(s, i) && s.infos[i].state == Checkpoint && !s.session
    ensures Inv(g, CheckptErased(g, s, i, ok))
    ensures Ready(g, s) ==> Ready(g, CheckptErased(g, s, i, ok))
  {
    hide Sums, Count, Check, Summary.ChunksUsed, DataPages;
    var s' := CheckptErased(g, s, i, ok);
    EmptyRow(g, s.infos[i], s.rows[i], s.soft[i], 0);
    PutShape(g, s, i, s'.infos[i], s.rows[i], s.soft[i]);
    PutSums(g, s, i, s'.infos[i], s.rows[i], s.soft[i], s');
  }

  function CheckptTaken(s: State, i: nat): State
    requires Has(s, i)
  {
    Put(s, i, s.infos[i].(state := Checkpoint), s.rows[i], s.soft[i]).(inCheckpt := s.inCheckpt + 1)
  }

  lemma CheckptTakenKeeps(g: Geometry, s: State, i: nat)
    requires Inv(g, s) && Has(s, i) && s.infos[i].state == Empty && s.session
    ensures Inv(g, CheckptTaken(s, i))
    ensures Ready(g, s) ==> Ready(g, CheckptTaken(s, i))
  {
    hide Sums, Count, Check, Summary.ChunksUsed, DataPages;
    var s' := CheckptTaken(s, i);
    EmptyRow(g, s.infos[i], s.rows[i], s.soft[i], 0);
    PutShape(g, s, i, s'.infos[i], s.rows[i], s.soft[i]);
    PutSums(g, s, i, s'.infos[i], s.rows[i], s.soft[i], s');
  }

  /** When a checkpoint is closed its blocks stop counting as erased and free. */
  function Closed(g: Geometry, s: State): State {
    s.(session := false, nFree := s.nFree - s.inCheckpt * g.chunks, nErased := s.nErased - s.inCheckpt)
  }

  lemma ClosedKeeps(g: Geometry, s: State)
    requires Inv(g, s) && s.session
    ensures Inv(g, Closed(g, s)) && Closed(g, s).nErased >= 0
    ensures Ready(g, s) ==> Ready(g, Closed(g, s))
  {}

  lemma OpenedKeeps(g: Geometry, s: State)
    requires Inv(g, s) && !s.session && s.inCheckpt == 0
    ensures Inv(g, s.(session := true))
    ensures Ready(g, s) ==> Ready(g, s.(session := true))
  {}
}
