/** Blocks and chunks are handed out, given back, erased, collected and retired here. */
module Allocator {
  import opened Basics
  import opened ChunkBits
  import opened AllocState
  import Summary

  /** What the tags of a chunk and the object they name say of it. */
  datatype Kind = Live | SoftDeleted | NoObject

  /** Only checkpoint blocks may have been erased or lost. */
  ghost predicate Calm(s: State, s': State) {
    |s'.infos| == |s.infos|
    && s'.(infos := s.infos, nFree := s.nFree, nErased := s.nErased, inCheckpt := s.inCheckpt) == s
    && (forall j :: 0 <= j < |s.infos| && s.infos[j].state != Checkpoint ==> s'.infos[j] == s.infos[j])
    && (forall j :: 0 <= j < |s.infos| && s.infos[j].state == Checkpoint ==>
          s'.infos[j].state == Checkpoint || s'.infos[j].state == Empty || s'.infos[j].state == Dead)
    && 0 <= s'.inCheckpt <= s.inCheckpt && s'.nErased + s'.inCheckpt <= s.nErased + s.inCheckpt
  }

  /** Block `i`, none of whose chunks is in use, has been erased or lost, and perhaps the checkpoint too. */
  ghost predicate Gone(s: State, s': State, i: nat) {
    |s'.infos| == |s.infos| && i < |s.infos| && (s'.infos[i].state == Empty || s'.infos[i].state == Dead)
    && s'.alloc == s.alloc && s'.page == s.page && s'.seqNumber == s.seqNumber
    && s'.soft == s.soft && s'.session == s.session
    && s'.gc == (if s.gc == i then -1 else s.gc) && (s.infos[i].needsRetiring ==> s'.infos[i].state == Dead)
    && (forall j :: 0 <= j < |s.infos| && j != i && s.infos[j].state != Checkpoint ==> s'.infos[j] == s.infos[j])
    && (forall j: int, q: nat :: InUse(s', j, q) <==> InUse(s, j, q))
    && |s'.rows| == |s.rows| && (forall j :: 0 <= j < |s.rows| && j != i ==> s'.rows[j] == s.rows[j])
    && 0 <= s'.inCheckpt <= s.inCheckpt && s'.nErased + s'.inCheckpt <= s.nErased + s.inCheckpt + 1
  }

  lemma InvLengths(g: Geometry, s: State)
    requires Inv(g, s)
    ensures GeometryOk(g) && |s.infos| == |s.rows| == |s.soft| == g.count
    ensures -1 <= s.alloc < g.count && -1 <= s.gc < g.count && s.inCheckpt >= 0
    ensures forall i :: 0 <= i < g.count ==> |s.rows[i]| == g.stride
  {}

  lemma CalmAt(g: Geometry, s: State, s': State, i: nat)
    requires Calm(s, s') && i < |s.infos| && Inv(g, s')
    ensures Has(s', i) && s'.session == s.session && s'.infos == s'.infos
    ensures s.infos[i].state != Checkpoint ==> s'.infos[i] == s.infos[i]
    ensures Ready(g, s) ==> Ready(g, s')
    ensures s'.rows == s.rows && s'.soft == s.soft
  {}

  lemma CalmRefl(s: State)
    requires s.inCheckpt >= 0
    ensures Calm(s, s)
  {}

  lemma CalmTwice(s: State, s1: State, s2: State)
    requires Calm(s, s1) && Calm(s1, s2)
    ensures Calm(s, s2)
  {}

  /** The last step of erasing or retiring. */
  lemma FinishGone(g: Geometry, s: State, s1: State, s': State, i: nat)
    requires Inv(g, s) && i < g.count && !s.session && (s.infos[i].state == Full || s.infos[i].state == Collecting)
    requires s.infos[i].inUse == 0 && NoneDirty(s)
    requires Inv(g, s1) && Calm(Dirtied(s, i), s1) && s1.infos[i].state == Dirty && !s1.session
    requires (s' == Erased(g, s1, i) && !s1.infos[i].needsRetiring) || s' == Retired(g, s1, i)
    ensures Inv(g, s') && (Ready(g, s) ==> Ready(g, s')) && NoneDirty(s') && Gone(s, s', i)
  {
    hide Inv, Ready, InUse;
    InvLengths(g, s);
    InvLengths(g, s1);
    DirtiedKeeps(g, s, i);
    CalmAt(g, Dirtied(s, i), s1, i);
    ErasedKeeps(g, s1, i);
    RetiredKeeps(g, s1, i);
    SameUse(s, s1, s', i);
  }

  lemma SameUse(s: State, s1: State, s': State, i: nat)
    requires s1.rows == s.rows && (s'.rows == s.rows || forall j: int, q: nat :: InUse(s', j, q) <==> InUse(s1, j, q))
    ensures forall j: int, q: nat :: InUse(s', j, q) <==> InUse(s, j, q)
  {}

  /** What deleting page `p` of block `i` does. */
  ghost predicate Deleted(g: Geometry, s: State, s': State, i: nat, p: nat) {
    Has(s, i) && p / 8 < |s.rows[i]|
    && var r := Release(s, i, p);
    if r.infos[i].inUse == 0 && !r.infos[i].hasShrink && r.infos[i].state != Allocating then Gone(r, s', i)
    else s' == r
  }

  /** Apart from page `p` of block `i`, and the summary of that block, nothing changes but checkpoint blocks. */
  ghost predicate Near(g: Geometry, s: State, s': State, i: nat, p: nat) {
    |s.infos| == |s.rows| == |s'.infos| == |s'.rows| && i < |s.infos|
    && s'.soft == s.soft && s'.session == s.session && s'.gc == s.gc
    && (forall j :: 0 <= j < |s.infos| && j != i && s.infos[j].state != Checkpoint ==> s'.infos[j] == s.infos[j])
    && (forall j :: 0 <= j < |s.infos| && j != i ==> s'.rows[j] == s.rows[j])
    && (forall q: nat :: q != p && Check(s.rows[i], q) ==> Check(s'.rows[i], q))
    && (forall q: nat :: q != p && q < DataPages(g) && Check(s'.rows[i], q) ==> Check(s.rows[i], q))
  }

  lemma NearTwice(g: Geometry, s: State, s1: State, s2: State, i: nat, p: nat)
    requires Near(g, s, s1, i, p) && Near(g, s1, s2, i, p)
    ensures Near(g, s, s2, i, p)
  {
    hide Check;
  }

  lemma NearSelf(g: Geometry, s: State, i: nat, p: nat)
    requires Inv(g, s) && i < g.count
    ensures Near(g, s, s, i, p)
  {}

  /**
   * No chunk in use is lost and no data page but page `p` of block `i`, if `extra`, comes into use;
   * blocks that are full or being collected are not touched.
   */
  ghost predicate Apart(g: Geometry, s: State, s': State, i: int, p: nat, extra: bool) {
    |s'.infos| == |s.infos| && s'.soft == s.soft && s'.session == s.session && s'.gc == s.gc
    && |s.rows| == |s.infos| && |s'.rows| == |s.infos|
    && (forall j: int, q: nat :: InUse(s, j, q) ==> InUse(s', j, q))
    && (forall j: int, q: nat :: q < DataPages(g) && InUse(s', j, q) ==> InUse(s, j, q) || (extra && j == i && q == p))
    && (extra ==> !InUse(s, i, p) && InUse(s', i, p) && p < DataPages(g))
    && (forall j :: 0 <= j < |s.infos| && (s.infos[j].state == Full || s.infos[j].state == Collecting) ==>
          s'.infos[j] == s.infos[j] && s'.rows[j] == s.rows[j])
  }

  lemma ApartTwice(g: Geometry, s: State, s1: State, s2: State, i: int, p: nat, extra: bool)
    requires Apart(g, s, s1, 0, 0, false) && Apart(g, s1, s2, i, p, extra)
    ensures Apart(g, s, s2, i, p, extra)
  {
    hide InUse;
  }

  lemma NearIsApart(g: Geometry, s: State, s': State, i: nat, p: nat)
    requires Near(g, s, s', i, p) && p < DataPages(g)
    requires s.infos[i].state != Full && s.infos[i].state != Collecting
    requires !Check(s.rows[i], p)
    ensures Apart(g, s, s', i, p, Check(s'.rows[i], p))
    ensures !Check(s'.rows[i], p) ==> Apart(g, s, s', 0, 0, false)
  {
    hide Check, DataPages;
  }

  lemma CalmIsApart(g: Geometry, s: State, s': State)
    requires Calm(s, s') && |s.rows| == |s.infos|
    ensures Apart(g, s, s', 0, 0, false)
  {
    hide Check, DataPages;
  }

  /** A bound on the attempts still to come: erased blocks, and the block being written. */
  function Measure(g: Geometry, s: State): int {
    s.nErased + s.inCheckpt + (if s.alloc < 0 then 0 else if s.page + 1 < DataPages(g) then 1 else 2)
  }

  /** Erased and checkpoint blocks apart, everything about blocks and chunks stays. */
  ghost predicate Spared(s: State, t: State) {
    |t.infos| == |s.infos| && t.rows == s.rows && t.soft == s.soft && t.alloc == s.alloc && t.gc == s.gc
    && (t.alloc >= 0 ==> t.page == s.page) && t.seqNumber == s.seqNumber && t.oldest == s.oldest
    && forall j :: 0 <= j < |s.infos| && s.infos[j].state != Empty && s.infos[j].state != Checkpoint ==>
      t.infos[j] == s.infos[j]
  }

  class Device {
    const g: Geometry
    const nReserved: nat
    const alwaysCheckErased: bool
    /** The most attempts a write makes, or 0 for no limit. */
    const wrAttempts: nat

    const info: array<Info>
    const bits: array<Row>
    /** The chunks counted as soft deleted. */
    ghost var soft: seq<set<nat>>

    var nFree: int
    var nErased: int
    var inCheckpt: int
    var isCheckpointed: bool
    var allocBlock: int
    var allocPage: nat
    var finder: int
    var gcBlock: nat
    var gcChunk: nat
    var seqNumber: nat
    var oldest: nat

    ghost var session: bool
    var byteOffs: nat
    var nextBlock: int
    var curBlock: int
    var curChunk: nat

    /** A device all of whose blocks are erased. */
    constructor Fresh(geometry: Geometry, reserved: nat, always: bool, attempts: nat)
      requires GeometryOk(geometry)
      ensures Good() && !session && StreamOk() && g == geometry && nErased == g.count
      ensures wrAttempts == attempts && nReserved == reserved && alwaysCheckErased == always
    {
      g, nReserved, alwaysCheckErased, wrAttempts := geometry, reserved, always, attempts;
      info := new Info[geometry.count](_ => CLEAN);
      bits := new Row[geometry.count](_ => NoBits(geometry.stride));
      soft := seq(geometry.count, i => {});
      nFree, nErased, inCheckpt, isCheckpointed := geometry.count * geometry.chunks, geometry.count, 0, false;
      allocBlock, allocPage, finder, gcBlock, gcChunk, seqNumber, oldest := -1, 0, 0, 0, 0, 0, 0;
      session, byteOffs, nextBlock, curBlock, curChunk := false, 0, -1, -1, 0;
      new;
      CleanOk(g);
      assert View() == Clean(g);
    }

    ghost function View(): State
      reads this, info, bits
    {
      State(info[..], bits[..], soft, nFree, nErased, inCheckpt,
            if allocBlock < 0 then -1 else allocBlock - g.start, allocPage,
            if gcBlock < g.start then -1 else gcBlock - g.start, seqNumber, oldest, session)
    }

    ghost predicate Numbered()
      reads this`allocBlock, this`gcBlock
    {
      (allocBlock == -1 || allocBlock >= g.start) && (gcBlock == 0 || gcBlock >= g.start)
    }

    /** The counters, states and bounds agree; no operation is under way. */
    ghost predicate Good()
      reads this, info, bits
    {
      Numbered() && Inv(g, View()) && Ready(g, View()) && NoneDirty(View())
    }

    /** The current checkpoint block has been started. */
    ghost predicate StreamOk()
      reads this`curBlock, this`curChunk
    {
      curBlock >= 0 ==> g.start <= curBlock < g.start + g.count && 0 < curChunk < g.chunks
    }

    // ---------- Counting ----------

    method CountFreeChunks() returns (n: int)
      requires Inv(g, View()) && NoneDirty(View())
      ensures n == FreeSum(g, info[..])
      ensures !session ==> n == nFree
    {
      hide Inv, Ready;
      n := 0;
      SameLength();
      for b := 0 to g.count
        invariant n + FreeSum(g, info[b..]) == FreeSum(g, info[..])
      {
        assert info[b..][1..] == info[b + 1..];
        var x := info[b];
        assert x == View().infos[b];
        if x.state == Empty || x.state == Allocating || x.state == Collecting || x.state == Full {
          n := n + (g.chunks - x.inUse + x.softDel);
        }
      }
    }

    lemma SameLength()
      requires Inv(g, View())
      ensures info.Length == bits.Length == |soft| == g.count
      ensures !session ==> nFree == FreeSum(g, info[..])
    {}
    // ---------- Checkpoint blocks ----------

    method CheckptErase(ghost owed: nat)
      requires Inv(g, View().(nFree := nFree + owed)) && !session
      modifies this`nFree, this`nErased, this`inCheckpt, info
      ensures Inv(g, View().(nFree := nFree + owed))
      ensures Calm(old(View()), View()) && inCheckpt == 0
    {
      hide Inv, Calm, ErasedTo;
      ghost var s := View().(nFree := nFree + owed);
      ghost var left := inCheckpt;
      ErasedNone(s);
      for b := 0 to g.count
        invariant inCheckpt == s.inCheckpt && s.session == session
        invariant ErasedTo(s, View().(nFree := nFree + owed, inCheckpt := left), b)
      {
        left := CheckptEraseOne(s, b, owed, left);
      }
      ErasedAll(s, View().(nFree := nFree + owed, inCheckpt := left));
      inCheckpt := 0;
      CalmOwed(s, View(), owed);
    }

    /** The checkpoint blocks before `b` are gone and nothing else has changed. */
    ghost predicate ErasedTo(s: State, t: State, b: nat) {
      Inv(g, t) && |s.infos| == g.count && b <= g.count
      && t.(infos := s.infos, nFree := s.nFree, nErased := s.nErased, inCheckpt := s.inCheckpt) == s
      && (forall j :: 0 <= j < g.count && s.infos[j].state != Checkpoint ==> t.infos[j] == s.infos[j])
      && (forall j :: 0 <= j < b && s.infos[j].state == Checkpoint ==>
            t.infos[j].state == Empty || t.infos[j].state == Dead)
      && (forall j :: b <= j < g.count ==> t.infos[j] == s.infos[j])
      && t.inCheckpt <= s.inCheckpt && t.nErased + t.inCheckpt <= s.nErased + s.inCheckpt
    }

    method CheckptEraseOne(ghost s: State, b: nat, ghost owed: nat, ghost left: int) returns (ghost left': int)
      requires b < g.count && ErasedTo(s, View().(nFree := nFree + owed, inCheckpt := left), b) && !session
      modifies this`nFree, this`nErased, info
      ensures ErasedTo(s, View().(nFree := nFree + owed, inCheckpt := left'), b + 1)
    {
      hide Inv;
      ghost var t := View().(nFree := nFree + owed, inCheckpt := left);
      InvLengths(g, t);
      left' := left;
      if info[b].state == Checkpoint {
        var ok: bool := *;
        CheckptErasedKeeps(g, t, b, ok);
        if ok {
          info[b] := info[b].(state := Empty);
          nErased := nErased + 1;
          nFree := nFree + g.chunks;
        } else {
          info[b] := info[b].(state := Dead);
        }
        left' := left - 1;
        assert View().(nFree := nFree + owed, inCheckpt := left') == CheckptErased(g, t, b, ok);
      }
    }

    lemma ErasedNone(s: State)
      requires Inv(g, s)
      ensures ErasedTo(s, s, 0)
    {}

    lemma ErasedAll(s: State, t: State)
      requires ErasedTo(s, t, g.count)
      ensures t.inCheckpt == 0 && Inv(g, t) && Calm(s, t)
    {
      NoCheckptLeft(t);
    }

    lemma CalmOwed(s: State, t: State, owed: nat)
      requires Calm(s, t.(nFree := t.nFree + owed))
      ensures Calm(s.(nFree := s.nFree - owed), t)
    {}

    lemma NoCheckptLeft(s: State)
      requires Inv(g, s) && forall j :: 0 <= j < |s.infos| ==> s.infos[j].state != Checkpoint
      ensures s.inCheckpt == 0
    {
      NumberNone(s.infos, Checkpoint);
    }

    method CheckptInvalidate(ghost owed: nat)
      requires Inv(g, View().(nFree := nFree + owed)) && !session
      modifies this`isCheckpointed, this`nFree, this`nErased, this`inCheckpt, info
      ensures Inv(g, View().(nFree := nFree + owed))
      ensures Calm(old(View()), View()) && inCheckpt == 0
    {
      hide Inv, Calm;
      if isCheckpointed || inCheckpt > 0 {
        isCheckpointed := false;
        CheckptErase(owed);
      } else {
        CheckptNone(View().(nFree := nFree + owed));
        CalmRefl(View());
      }
    }

    lemma CheckptNone(s: State)
      requires Inv(g, s) && s.inCheckpt <= 0
      ensures s.inCheckpt == 0
    {}

    // ---------- Erasing and retiring ----------

    /** A block with no chunk in use is erased, or retired if that fails or it was due for it. */
    method BlockBecameDirty(block: nat)
      requires g.start <= block < g.start + g.count && Numbered() && !session
      requires Inv(g, View()) && NoneDirty(View()) && info[block - g.start].inUse == 0
      requires info[block - g.start].state == Full || info[block - g.start].state == Collecting
      modifies this`oldest, this`gcBlock, this`isCheckpointed, this`nFree, this`nErased, this`inCheckpt, info, bits
      modifies this`soft
      ensures Numbered() && Inv(g, View()) && NoneDirty(View()) && (old(Ready(g, View())) ==> Ready(g, View()))
      ensures Gone(old(View()), View(), block - g.start)
    {
      hide Inv, Ready, InUse, Gone, Calm, Dirtied, Erased, Retired, NoneDirty;
      var i := block - g.start;
      ghost var s := View();
      InvLengths(g, s);
      DirtiedKeeps(g, s, i);
      DirtiedAt(s, i);
      MarkDirty(block);
      ghost var s1 := View();
      var erased := EraseBlock(i);
      ghost var s2 := View();
      if !erased {
        nFree := nFree - g.chunks;
        ghost var s3 := RetireBlock(i, s2);
        CalmTwice(s1, s2, s3);
        FinishGone(g, s, s3, View(), i);
      } else {
        MarkErased(i);
        FinishGone(g, s, s2, View(), i);
      }
    }

    /** A block due for retirement is not erased; otherwise erasing may fail. */
    method EraseBlock(i: nat) returns (erased: bool)
      requires Inv(g, View()) && i < g.count && info[i].state == Dirty && !session
      modifies this`isCheckpointed, this`nFree, this`nErased, this`inCheckpt, info
      ensures Inv(g, View()) && Calm(old(View()), View()) && info[i].state == Dirty
      ensures erased ==> !info[i].needsRetiring
    {
      hide Inv, Calm;
      ghost var s := View();
      InvLengths(g, s);
      erased := false;
      if !info[i].needsRetiring {
        assert View().(nFree := nFree + 0) == View();
        CheckptInvalidate(0);
        erased := *;
        CalmAt(g, s, View(), i);
      } else {
        CalmRefl(s);
      }
    }

    lemma DirtiedAt(s: State, i: nat)
      requires Has(s, i)
      ensures Dirtied(s, i).infos[i].state == Dirty && Dirtied(s, i).session == s.session
      ensures |Dirtied(s, i).infos| == |s.infos|
    {}

    method MarkDirty(block: nat)
      requires g.start <= block < g.start + g.count && Numbered() && Inv(g, View())
      modifies this`oldest, this`gcBlock, info
      ensures Numbered() && View() == Dirtied(old(View()), block - g.start)
    {
      hide Inv;
      ghost var s := View();
      RoleOfAlloc(s);
      var i := block - g.start;
      if info[i].seqNumber == oldest {
        oldest := 0;
      }
      info[i] := info[i].(state := Dirty);
      assert info[..] == s.infos[i := s.infos[i].(state := Dirty)];
      if block == gcBlock {
        gcBlock := 0;
      }
    }

    method MarkErased(i: nat)
      requires i < g.count && Inv(g, View())
      modifies this`nErased, this`soft, info, bits
      ensures View() == Erased(g, old(View()), i)
    {
      hide Inv;
      InvLengths(g, View());
      info[i] := Info(Empty, 0, 0, 0, info[i].needsRetiring, true, false, info[i].strikes, false, false);
      nErased := nErased + 1;
      bits[i] := NoBits(g.stride);
      soft := soft[i := {}];
    }

    method RetireBlock(i: nat, ghost s: State) returns (ghost s': State)
      requires Inv(g, s) && i < g.count && s.infos[i].state == Dirty && !s.session
      requires View() == s.(nFree := s.nFree - g.chunks)
      modifies this`oldest, this`isCheckpointed, this`nFree, this`nErased, this`inCheckpt, info
      ensures Inv(g, s') && Calm(s, s') && s'.infos[i].state == Dirty && !s'.session
      ensures View() == Retired(g, s', i)
    {
      hide Inv;
      InvLengths(g, s);
      assert View().(nFree := nFree + g.chunks) == s;
      CheckptInvalidate(g.chunks);
      s' := View().(nFree := nFree + g.chunks);
      InvLengths(g, s');
      if info[i].seqNumber == oldest {
        oldest := 0;
      }
      info[i] := info[i].(state := Dead, gcPrioritise := false, needsRetiring := false);
    }

    // ---------- Finding a block ----------

    /** An empty block is found exactly when the count of erased blocks says that there is one. */
    method FindAllocBlock() returns (block: int)
      requires Inv(g, View()) && allocBlock == -1 && !session
      modifies this`finder, this`seqNumber, this`nErased, info
      ensures block >= -1 && (block >= 0 <==> old(nErased) >= 1)
      ensures block < 0 ==> View() == old(View())
      ensures block >= 0 ==>
        g.start <= block < g.start + g.count
        && old(View()).infos[block - g.start].state == Empty
        && View() == Claim(old(View()), block - g.start).(alloc := -1, page := allocPage)
    {
      hide Inv, Visited;
      ghost var s := View();
      InvLengths(g, s);
      EmptyExists(s);
      block := -1;
      if nErased < 1 {
        return;
      }
      ghost var first := -1;
      for k := 0 to g.count
        invariant View() == s && block == -1
        invariant k > 0 ==> g.start <= finder < g.start + g.count && 0 <= first < g.count
        invariant k > 0 ==> Visited(s, first, finder - g.start, k)
      {
        ghost var was := finder - g.start;
        finder := finder + 1;
        if finder < g.start || finder > g.start + g.count - 1 {
          finder := g.start;
        }
        var i := finder - g.start;
        if info[i].state == Empty {
          TakeEmpty(i);
          return finder;
        }
        first := if k == 0 then i else first;
        VisitedStep(s, first, was, i, k);
      }
      AllVisited(s, first, finder - g.start);
      assert false;
    }

    method TakeEmpty(i: nat)
      requires i < g.count && i < info.Length && Has(View(), i) && info[i].state == Empty && allocBlock == -1
      modifies this`seqNumber, this`nErased, info
      ensures View() == Claim(old(View()), i).(alloc := -1, page := allocPage)
    {
      seqNumber := seqNumber + 1;
      info[i] := info[i].(state := Allocating, seqNumber := seqNumber);
      nErased := nErased - 1;
    }

    lemma VisitedStep(s: State, first: int, was: int, i: int, k: nat)
      requires |s.infos| == g.count && 0 <= first < g.count && 0 <= i < g.count && k < g.count
      requires s.infos[i].state != Empty
      requires if k == 0 then first == i else
        0 <= was < g.count && Visited(s, first, was, k) && i == if was + 1 < g.count then was + 1 else 0
      ensures Visited(s, first, i, k + 1)
    {}

    /** The `k` blocks from `first` round to `last` are not empty. */
    ghost predicate Visited(s: State, first: int, last: int, k: nat) {
      if first <= last then
        k == last - first + 1 && forall j :: first <= j <= last && 0 <= j < |s.infos| ==> s.infos[j].state != Empty
      else
        k == g.count - first + last + 1
        && forall j :: (first <= j || j <= last) && 0 <= j < |s.infos| ==> s.infos[j].state != Empty
    }

    lemma AllVisited(s: State, first: int, last: int)
      requires |s.infos| == g.count && 0 <= first < g.count && 0 <= last < g.count && Visited(s, first, last, g.count)
      ensures forall j :: 0 <= j < |s.infos| ==> s.infos[j].state != Empty
    {}

    lemma EmptyExists(s: State)
      requires Inv(g, s) && !s.session
      ensures s.nErased >= 1 <==> exists j :: 0 <= j < |s.infos| && s.infos[j].state == Empty
      ensures s.nErased >= 0
    {
      NumberNone(s.infos, Empty);
    }

    // ---------- Chunk numbers ----------

    function ChunkOf(i: int, p: nat): int {
      (i + g.start) * g.chunks + p
    }

    lemma ChunkParts(i: nat, p: nat)
      requires p < g.chunks && g.start >= 1
      ensures ChunkOf(i, p) > 0 && ChunkOf(i, p) / g.chunks == i + g.start && ChunkOf(i, p) % g.chunks == p
    {
      Quotient(g.chunks, ChunkOf(i, p), i + g.start, p);
      assert (i + g.start) * g.chunks >= g.chunks;
    }

    // ---------- Allocating ----------

    /** The block being written, or the empty block about to be. */
    ghost predicate Opened(s: State, s': State) {
      (s.alloc >= 0 && s' == s) || (s.alloc == -1 && s.nErased < 1 && s' == s.(page := 0))
      || (s.alloc == -1 && exists i :: 0 <= i < |s.infos| && Has(s, i) && s.infos[i].state == Empty && s' == Claim(s, i))
    }

    /** The next page is page `s.page` of block `s.alloc`, of this chunk number. */
    ghost predicate Takes(s: State, chunk: int) {
      s.alloc >= 0 && Has(s, s.alloc) && s.page < DataPages(g) && s.page < g.chunks && s.page / 8 < g.stride
      && |s.rows[s.alloc]| == g.stride && chunk == ChunkOf(s.alloc, s.page)
    }

    lemma NoPage(s: State)
      requires Inv(g, s) && s.alloc == -1
      ensures Inv(g, s.(page := 0)) && Ready(g, s.(page := 0))
    {}

    lemma NextPage(s: State)
      requires Inv(g, s) && Ready(g, s) && s.alloc >= 0
      ensures Takes(s, ChunkOf(s.alloc, s.page)) && ChunkOf(s.alloc, s.page) > 0
    {
      InRow(g, s.page);
      ChunkParts(s.alloc, s.page);
    }

    method TakeNext(ghost s: State) returns (chunk: int)
      requires View() == s && Inv(g, s) && Ready(g, s) && allocBlock >= g.start
      modifies this`nFree, this`allocBlock, this`allocPage, info, bits
      ensures chunk >= 0 && Takes(s, chunk) && View() == TakePage(g, s)
      ensures allocBlock == -1 || allocBlock >= g.start
    {
      hide Inv, Ready;
      InvLengths(g, s);
      NextPage(s);
      var i := allocBlock - g.start;
      chunk := allocBlock * g.chunks + allocPage;
      info[i] := info[i].(inUse := info[i].inUse + 1);
      bits[i] := Set(bits[i], allocPage);
      allocPage := allocPage + 1;
      nFree := nFree - 1;
      if allocPage >= g.chunks {
        info[i] := info[i].(state := Full);
        allocBlock := -1;
      }
    }

    /** Where no block is being written, an erased one is found if there is one. */
    method OpenBlock() returns (ghost s: State)
      requires Good() && !session
      modifies this`finder, this`seqNumber, this`nErased, this`allocBlock, this`allocPage, info
      ensures Good() && s == View() && Opened(old(View()), s)
    {
      hide Inv, Ready;
      s := View();
      InvLengths(g, s);
      if allocBlock < 0 {
        allocBlock := FindAllocBlock();
        allocPage := 0;
        if allocBlock >= 0 {
          ClaimKeeps(g, s, allocBlock - g.start);
        } else {
          NoPage(s);
        }
        s := View();
      }
    }

    /** Hands out the next page, unless only the reserve is left and may not be used. */
    method AllocChunk(useReserve: bool, checkptBlocks: nat) returns (chunk: int, ghost s: State)
      requires Good() && !session
      modifies this`finder, this`seqNumber, this`nErased, this`nFree, this`allocBlock, this`allocPage
      modifies info, bits
      ensures Numbered() && Opened(old(View()), s) && Inv(g, s) && Ready(g, s) && NoneDirty(s)
      ensures chunk >= -1 && (chunk < 0 ==> View() == s)
      ensures chunk < 0 && useReserve ==> old(nErased) < 1 && s.alloc == -1
      ensures chunk >= 0 ==> Takes(s, chunk) && View() == TakePage(g, s)
    {
      hide Inv, Ready, NoneDirty;
      s := OpenBlock();
      if !useReserve {
        var reserved := (nReserved + checkptBlocks) * g.chunks;
        if !(nFree > reserved + 1) {
          return -1, s;
        }
      }
      if allocBlock < 0 {
        return -1, s;
      }
      chunk := TakeNext(s);
    }

    method SkipRestOfBlock()
      requires Inv(g, View()) && Numbered()
      modifies this`allocBlock, info
      ensures Numbered() && View() == SkipRest(old(View())) && allocBlock == -1
    {
      hide Inv;
      RoleOfAlloc(View());
      if allocBlock > 0 {
        if info[allocBlock - g.start].state == Allocating {
          info[allocBlock - g.start] := info[allocBlock - g.start].(state := Full);
          allocBlock := -1;
        }
      }
    }

    lemma RoleOfAlloc(s: State)
      requires Inv(g, s)
      ensures |s.infos| == |s.rows| == |s.soft| == g.count && g.start >= 1
      ensures -1 <= s.alloc < g.count && (s.alloc >= 0 ==> s.infos[s.alloc].state == Allocating)
    {}

    // ---------- Deleting ----------

    /** A chunk that is not wanted any more; the last one takes its block with it. */
    method ChunkDel(chunk: int, ghost i: nat, ghost p: nat)
      requires Numbered() && Inv(g, View()) && NoneDirty(View()) && !session
      requires chunk > 0 ==>
        i < g.count && p < g.chunks && chunk == ChunkOf(i, p) && InUse(View(), i, p) && p !in soft[i]
      modifies this`oldest, this`gcBlock, this`isCheckpointed, this`nFree, this`nErased, this`inCheckpt, this`soft
      modifies info, bits
      ensures Numbered() && Inv(g, View()) && NoneDirty(View()) && (old(Ready(g, View())) ==> Ready(g, View()))
      ensures if chunk <= 0 then View() == old(View()) else Deleted(g, old(View()), View(), i, p)
    {
      hide Inv, Ready, InUse, Gone, NoneDirty, Release;
      if chunk <= 0 {
        return;
      }
      ghost var s := View();
      InvLengths(g, s);
      ChunkParts(i, p);
      UsedBlock(g, s, i, p);
      ReleaseKeeps(g, s, i, p);
      ReleaseAt(g, s, i, p);
      var b, page := chunk / g.chunks - g.start, chunk % g.chunks;
      ReleaseChunk(b, page);
      if info[b].inUse == 0 && !info[b].hasShrink && info[b].state != Allocating {
        BlockBecameDirty(b + g.start);
      }
    }

    lemma ReleaseAt(g: Geometry, s: State, i: nat, p: nat)
      requires Inv(g, s) && Has(s, i) && p / 8 < |s.rows[i]| && s.infos[i].Holds()
      ensures var r := Release(s, i, p);
        r.infos[i] == s.infos[i].(inUse := s.infos[i].inUse - 1) && |r.infos| == |s.infos| && r.session == s.session
        && (NoneDirty(s) ==> NoneDirty(r))
    {}

    /** The accounting of a deletion. */
    method ReleaseChunk(b: nat, page: nat)
      requires Inv(g, View()) && b < g.count && page / 8 < |bits[b]| && info[b].Holds()
      modifies this`oldest, this`nFree, info, bits
      ensures View() == Release(old(View()), b, page)
    {
      hide Inv;
      InvLengths(g, View());
      if oldest != 0 && oldest > info[b].seqNumber {
        oldest := info[b].seqNumber;
      }
      if info[b].state == Allocating || info[b].state == Full || info[b].state == Collecting {
        nFree := nFree + 1;
        bits[b] := Clear(bits[b], page);
        info[b] := info[b].(inUse := info[b].inUse - 1);
      }
    }

    method SoftDelChunk(chunk: nat, ghost i: nat, ghost p: nat)
      requires Good() && !session && i < g.count && p < DataPages(g) && p < g.chunks && chunk == ChunkOf(i, p)
      requires InUse(View(), i, p) && p !in soft[i]
      modifies this`nFree, this`oldest, this`soft, info
      ensures Good() && View() == SoftDel(old(View()), i, p)
    {
      hide Inv, Ready, InUse;
      ghost var s := View();
      InvLengths(g, s);
      ChunkParts(i, p);
      UsedBlock(g, s, i, p);
      SoftDelKeeps(g, s, i, p);
      var b := chunk / g.chunks - g.start;
      info[b] := info[b].(softDel := info[b].softDel + 1);
      nFree := nFree + 1;
      soft := soft[i := soft[i] + {p}];
      if oldest != 0 && oldest > info[b].seqNumber {
        oldest := info[b].seqNumber;
      }
      assert View() == SoftDel(s, i, p);
    }

    // ---------- The summary of a block being written ----------

    /** Counts in the chunks of the summary as they are written, until one fails. */
    method SummaryWrite(i: nat, ghost p: nat) returns (ok: bool)
      requires Inv(g, View()) && g.perSummary > 0 && i < g.count && info[i].Holds() && NoneDirty(View())
      requires forall q: nat :: Check(bits[i], q) ==> q < g.perSummary
      modifies this`nFree, info, bits
      ensures Inv(g, View()) && Near(g, old(View()), View(), i, p) && NoneDirty(View())
      ensures View().(infos := old(View()).infos, rows := old(View()).rows, nFree := old(nFree)) == old(View())
      ensures info[i].Like(old(info[i]).(inUse := info[i].inUse)) && (Check(bits[i], p) <== old(Check(bits[i], p)))
      ensures ok ==> info[i].hasSummary && forall q: nat :: q >= g.perSummary ==>
                (Check(bits[i], q) <==> q < g.perSummary + SummaryPages())
      ensures !ok ==> info[i].hasSummary == old(info[i].hasSummary)
    {
      hide Inv, NoneDirty, Near, Check, SummaryState;
      ghost var s := View();
      InvLengths(g, s);
      NearStart(s, i, p);
      var tx := g.dataBytes - Summary.HEADER_SIZE;
      var left := Summary.TAGS_SIZE * g.perSummary;
      var c := g.perSummary;
      ok := true;
      while ok && left > 0
        invariant left >= 0
        invariant ok ==> c + Summary.Pages(left, tx) == g.perSummary + SummaryPages()
        invariant info[i].hasSummary == old(info[i].hasSummary)
        invariant c >= g.perSummary && SummaryState(s, View(), i, p, c)
        decreases ok, left
      {
        var n := Summary.Least(left, tx);
        Summary.PagesStep(left, tx);
        ok := *;
        if ok {
          SummaryOne(s, i, p, c);
          left := left - n;
          c := c + 1;
        }
      }
      SummaryDone(s, View(), i, p, c);
      if ok {
        ghost var t := View();
        SummaryMark(s, t, i, p, c);
        info[i] := info[i].(hasSummary := true);
        assert View() == Marked(t, i, t.infos[i].(hasSummary := true));
        SummaryDone(s, View(), i, p, c);
      }
    }

    /** How many chunks the summary of a block takes. */
    ghost function SummaryPages(): nat {
      if g.dataBytes > Summary.HEADER_SIZE
      then Summary.Pages(Summary.TAGS_SIZE * g.perSummary, g.dataBytes - Summary.HEADER_SIZE) else 0
    }

    method SummaryOne(ghost s: State, i: nat, ghost p: nat, c: nat)
      requires SummaryState(s, View(), i, p, c) && 0 < g.perSummary <= c < g.chunks && i < g.count
      modifies this`nFree, info, bits
      ensures SummaryState(s, View(), i, p, c + 1) && info[i].hasSummary == old(info[i].hasSummary)
    {
      hide Inv, NoneDirty, Near, Check, Set;
      ghost var t := View();
      InvLengths(g, t);
      InRow(g, c);
      SummaryStep(s, t, i, p, c);
      bits[i] := Set(bits[i], c);
      info[i] := info[i].(inUse := info[i].inUse + 1);
      nFree := nFree - 1;
      assert View() == SummaryChunk(t, i, c);
    }

    lemma SummaryDone(s: State, t: State, i: nat, p: nat, c: nat)
      requires SummaryState(s, t, i, p, c)
      ensures Inv(g, t) && Near(g, s, t, i, p) && NoneDirty(t) && Has(t, i)
      ensures t.(infos := s.infos, rows := s.rows, nFree := s.nFree) == s
      ensures t.infos[i].Like(s.infos[i].(inUse := t.infos[i].inUse)) && (Check(s.rows[i], p) ==> Check(t.rows[i], p))
      ensures forall q: nat :: q >= g.perSummary ==> (Check(t.rows[i], q) <==> q < c)
    {}

    ghost predicate SummaryState(s: State, t: State, i: nat, p: nat, c: nat) {
      Inv(g, t) && Near(g, s, t, i, p) && NoneDirty(t) && Has(t, i)
      && t.(infos := s.infos, rows := s.rows, nFree := s.nFree) == s
      && t.infos[i].Like(s.infos[i].(inUse := t.infos[i].inUse)) && s.infos[i].Holds()
      && (forall q: nat :: Check(t.rows[i], q) ==> q < c)
      && (forall q: nat :: g.perSummary <= q < c ==> Check(t.rows[i], q))
      && (Check(s.rows[i], p) ==> Check(t.rows[i], p))
    }

    lemma NearStart(s: State, i: nat, p: nat)
      requires Inv(g, s) && g.perSummary > 0 && i < g.count && s.infos[i].Holds() && NoneDirty(s)
      requires forall q: nat :: Check(s.rows[i], q) ==> q < g.perSummary
      ensures SummaryState(s, s, i, p, g.perSummary)
      ensures g.dataBytes > Summary.HEADER_SIZE
      ensures g.perSummary + SummaryPages() <= g.chunks
    {
      NearSelf(g, s, i, p);
      Summary.FitsInBlock(g.chunks, g.dataBytes);
    }

    lemma SummaryStep(s: State, t: State, i: nat, p: nat, c: nat)
      requires SummaryState(s, t, i, p, c) && g.perSummary > 0 && g.perSummary <= c < g.chunks && c / 8 < g.stride
      requires c / 8 < |t.rows[i]|
      ensures SummaryState(s, SummaryChunk(t, i, c), i, p, c + 1)
    {
      hide Inv, Check, Set;
      InvLengths(g, t);
      SummaryChunkKeeps(g, t, i, c);
      SetBit(t.rows[i], c);
    }

    lemma SummaryMark(s: State, t: State, i: nat, p: nat, c: nat)
      requires SummaryState(s, t, i, p, c) && g.perSummary > 0
      ensures SummaryState(s, Marked(t, i, t.infos[i].(hasSummary := true)), i, p, c)
    {
      hide Inv, Check;
      MarkedKeeps(g, t, i, t.infos[i].(hasSummary := true));
    }

    /** After the last data page of a block its summary is written and the rest is skipped. */
    method SummaryAdd(i: nat, p: nat)
      requires Numbered() && Inv(g, View()) && NoneDirty(View()) && i < g.count && p < DataPages(g)
      requires g.perSummary > 0 ==> allocBlock == i + g.start && forall q: nat :: Check(bits[i], q) ==> q <= p
      modifies this`nFree, this`allocBlock, info, bits
      ensures Numbered() && Inv(g, View()) && NoneDirty(View()) && Near(g, old(View()), View(), i, p)
      ensures old(Check(bits[i], p)) ==> Check(bits[i], p)
      ensures if p + 1 < DataPages(g) || g.perSummary == 0 then View() == old(View()) else allocBlock == -1
      ensures nErased == old(nErased) && inCheckpt == old(inCheckpt) && allocPage == old(allocPage)
    {
      hide Inv, Check, Near;
      ghost var s := View();
      InvLengths(g, s);
      NearSelf(g, s, i, p);
      RoleOfAlloc(s);
      if g.perSummary > 0 && p == g.perSummary - 1 {
        var ok := SummaryWrite(i, p);
        ghost var t := View();
        SkipRestKeeps(g, t);
        SkipNear(t, i, p);
        RoleOfAlloc(t);
        SkipRestOfBlock();
        NearTwice(g, s, t, View(), i, p);
      }
    }

    lemma SkipNear(s: State, i: nat, p: nat)
      requires Inv(g, s) && i < g.count && (s.alloc == -1 || s.alloc == i)
      ensures Near(g, s, SkipRest(s), i, p) && SkipRest(s).rows == s.rows
      ensures NoneDirty(s) ==> NoneDirty(SkipRest(s))
    {}

    // ---------- Writing ----------

    /** The page taken is new, and nothing else about the data has changed. */
    lemma Taken(s: State, s1: State)
      requires Inv(g, s) && Inv(g, s1) && Ready(g, s1) && Opened(s, s1) && NoneDirty(s1)
      requires s1.alloc >= 0 && Takes(s1, ChunkOf(s1.alloc, s1.page))
      ensures var i, p, s2 := s1.alloc, s1.page, TakePage(g, s1);
        Inv(g, s2) && NoneDirty(s2) && i < g.count && i != s2.gc
        && !Check(s.rows[i], p) && Check(s2.rows[i], p) && p !in s2.soft[i]
        && (s2.alloc == -1 || s2.alloc == i) && (forall q: nat :: Check(s2.rows[i], q) ==> q <= p)
        && (p + 1 < DataPages(g) ==> s2.alloc == i)
        && (g.perSummary > 0 ==> s2.alloc == i)
        && s2.session == s1.session && s2.nErased + s2.inCheckpt == s1.nErased + s1.inCheckpt
    {
      TakenRow(s, s1);
      TakePageKeeps(g, s1);
      DataPagesFit(g);
      RoleOfAlloc(s1);
      FreshRow(s1);
      hide Check, Set, DataPages, Sums, Shape, OldestOk;
    }

    lemma FreshRow(s: State)
      requires Inv(g, s) && Ready(g, s) && s.alloc >= 0
      ensures forall q: nat :: Check(s.rows[s.alloc], q) ==> q < s.page
      ensures s.gc != s.alloc
    {}

    lemma TakenNear(s: State, s1: State)
      requires Inv(g, s) && Inv(g, s1) && Ready(g, s1) && Opened(s, s1)
      requires s1.alloc >= 0 && Takes(s1, ChunkOf(s1.alloc, s1.page))
      ensures var i, p, s2 := s1.alloc, s1.page, TakePage(g, s1);
        Near(g, s, s2, i, p) && s.infos[i].state != Full && s.infos[i].state != Collecting
        && s1.session == s.session && (DataPages(g) >= 2 ==> Measure(g, s1) <= Measure(g, s))
    {
      TakenRow(s, s1);
      RoleOfAlloc(s);
      hide Check, Set, DataPages, Inv, Ready;
    }

    lemma TakenRow(s: State, s1: State)
      requires Inv(g, s) && Inv(g, s1) && Ready(g, s1) && Opened(s, s1)
      requires s1.alloc >= 0 && Takes(s1, ChunkOf(s1.alloc, s1.page))
      ensures s1.rows == s.rows && !Check(s1.rows[s1.alloc], s1.page) && s1.page !in s1.soft[s1.alloc]
      ensures forall q: nat :: Check(TakePage(g, s1).rows[s1.alloc], q) <==> Check(s1.rows[s1.alloc], q) || q == s1.page
    {
      hide Check, Set, Sums, Roles, OldestOk;
      SetBit(s1.rows[s1.alloc], s1.page);
    }

    /** A block that stays keeps its marks, and one due for retirement does not come back into use. */
    predicate MarksKept(x: Info, y: Info) {
      if y.state == Empty then !x.needsRetiring
      else y.state == Dead || (y.gcPrioritise == x.gcPrioritise && y.needsRetiring == x.needsRetiring)
    }

    /** A chunk that could not be written is deleted and the rest of its block skipped. */
    method AbandonChunk(chunk: int, ghost i: nat, ghost p: nat)
      requires Numbered() && Inv(g, View()) && NoneDirty(View()) && !session
      requires i < g.count && p < g.chunks && chunk == ChunkOf(i, p) && InUse(View(), i, p) && p !in soft[i]
      requires View().gc != i && (View().alloc == -1 || View().alloc == i) && info[i].state != Collecting
      modifies this`oldest, this`gcBlock, this`isCheckpointed, this`nFree, this`nErased, this`inCheckpt, this`soft
      modifies this`allocBlock, info, bits
      ensures Good() && Near(g, old(View()), View(), i, p) && !Check(bits[i], p) && allocBlock == -1
      ensures nErased + inCheckpt <= old(nErased + inCheckpt) + if old(info[i].state) == Allocating then 0 else 1
      ensures inCheckpt <= old(inCheckpt) && MarksKept(old(info[i]), info[i])
    {
      hide Inv, Ready, InUse, Near, Deleted, Check;
      ghost var s := View();
      InvLengths(g, s);
      ChunkParts(i, p);
      UsedBlock(g, s, i, p);
      ChunkDel(chunk, i, p);
      ghost var s1 := View();
      DeletedNear(s, s1, i, p);
      MarksAfter(s, s1, i, p);
      SkipRestKeeps(g, s1);
      SkipNear(s1, i, p);
      SkipRestOfBlock();
      NearTwice(g, s, s1, View(), i, p);
    }

    lemma DeletedNear(s: State, s': State, i: nat, p: nat)
      requires Inv(g, s) && InUse(s, i, p) && p !in s.soft[i] && i != s.gc && Deleted(g, s, s', i, p) && s.infos[i].Holds()
      requires Inv(g, s') && (s.alloc == -1 || s.alloc == i)
      ensures Near(g, s, s', i, p) && !Check(s'.rows[i], p) && s'.alloc == s.alloc
      ensures s'.nErased + s'.inCheckpt <= s.nErased + s.inCheckpt + if s.infos[i].state == Allocating then 0 else 1
      ensures s'.inCheckpt <= s.inCheckpt
    {
      hide Inv;
      InvLengths(g, s);
      UsedBlock(g, s, i, p);
      ReleaseKeeps(g, s, i, p);
      ReleaseAt(g, s, i, p);
      ReleasedNear(s, i, p);
      var r := Release(s, i, p);
      if r.infos[i].inUse == 0 && !r.infos[i].hasShrink && r.infos[i].state != Allocating {
        GoneNear(r, s', i, p);
        NearTwice(g, s, r, s', i, p);
        assert InUse(s', i, p) <==> InUse(r, i, p);
      }
    }

    lemma MarksAfter(s: State, s': State, i: nat, p: nat)
      requires Inv(g, s) && InUse(s, i, p) && p !in s.soft[i] && i != s.gc && Deleted(g, s, s', i, p) && s.infos[i].Holds()
      requires Inv(g, s') && (s.alloc == -1 || s.alloc == i) && s'.alloc == s.alloc
      ensures MarksKept(s.infos[i], SkipRest(s').infos[i])
    {
      RoleOfAlloc(s);
      RoleOfAlloc(s');
      UsedBlock(g, s, i, p);
      ReleaseAt(g, s, i, p);
      hide Inv, InUse, Check;
    }

    lemma ReleasedNear(s: State, i: nat, p: nat)
      requires Inv(g, s) && Has(s, i) && p / 8 < |s.rows[i]| && Check(s.rows[i], p)
      ensures Near(g, s, Release(s, i, p), i, p) && !Check(Release(s, i, p).rows[i], p)
    {
      hide Check, Clear, DataPages;
      ClearBit(s.rows[i], p);
    }

    lemma GoneNear(s: State, s': State, i: nat, p: nat)
      requires Gone(s, s', i) && s.gc != i && |s.rows| == |s.infos|
      ensures Near(g, s, s', i, p)
    {
      hide Check, DataPages;
      forall q: nat
        ensures Check(s'.rows[i], q) <==> Check(s.rows[i], q)
      {
        assert InUse(s', i, q) <==> InUse(s, i, q);
      }
    }

    /** A failed write marks its block, for retirement if the chunk had been seen to be erased. */
    method HandleChunkWrError(chunk: int, erasedOk: bool, i: nat, ghost p: nat)
      requires Numbered() && Inv(g, View()) && NoneDirty(View()) && !session
      requires i < g.count && p < g.chunks && chunk == ChunkOf(i, p) && InUse(View(), i, p) && p !in soft[i]
      requires View().gc != i && (View().alloc == -1 || View().alloc == i) && info[i].state != Collecting
      modifies this`oldest, this`gcBlock, this`isCheckpointed, this`nFree, this`nErased, this`inCheckpt, this`soft
      modifies this`allocBlock, info, bits
      ensures Good() && Near(g, old(View()), View(), i, p) && !Check(bits[i], p) && allocBlock == -1
      ensures nErased + inCheckpt <= old(nErased + inCheckpt) + if old(info[i].state) == Allocating then 0 else 1
      ensures inCheckpt <= old(inCheckpt)
      ensures info[i].state == Dead || (info[i].state == Empty && !erasedOk)
              || (info[i].gcPrioritise && (erasedOk ==> info[i].needsRetiring))
    {
      hide Inv, Ready, InUse, Near, Check;
      ghost var s := View();
      InvLengths(g, s);
      var x := Marks(info[i], erasedOk);
      MarkedKeeps(g, s, i, x);
      MarkedNear(s, i, p, x);
      info[i] := x;
      assert View() == Marked(s, i, x);
      ghost var t := View();
      AbandonChunk(chunk, i, p);
      NearTwice(g, s, t, View(), i, p);
    }

    /** How a failed write marks its block: to be collected first, with a strike if it was not so marked already; and
        to be retired at more than three strikes, or if the chunk had been seen to be erased. Erasing takes the mark
        away and keeps the strikes, so that there is at most one strike between two erasures. */
    method Marks(x: Info, erasedOk: bool) returns (y: Info)
      ensures y.Like(x) && y.gcPrioritise && y.hasSummary == x.hasSummary && y.hasShrink == x.hasShrink
      ensures erasedOk ==> y.needsRetiring
      ensures y.strikes == if x.gcPrioritise then x.strikes else (x.strikes + 1) % 8
      ensures y.needsRetiring <==> x.needsRetiring || erasedOk || (!x.gcPrioritise && y.strikes > 3)
    {
      y := x;
      if !y.gcPrioritise {
        y := y.(gcPrioritise := true, strikes := (y.strikes + 1) % 8);
        if y.strikes > 3 {
          y := y.(needsRetiring := true);
        }
      }
      if erasedOk {
        y := y.(needsRetiring := true);
      }
    }

    lemma MarkedNear(s: State, i: nat, p: nat, x: Info)
      requires Inv(g, s) && i < g.count && x.Like(s.infos[i])
      ensures var t := Marked(s, i, x);
        Near(g, s, t, i, p) && (NoneDirty(s) ==> NoneDirty(t)) && t.rows == s.rows
        && (InUse(s, i, p) ==> InUse(t, i, p))
    {}

    /** Page `p` of block `i` has just been handed out under this chunk number. */
    ghost predicate InHand(s: State, chunk: int, i: nat, p: nat) {
      Inv(g, s) && NoneDirty(s) && !s.session
      && i < g.count && p < g.chunks && p < DataPages(g) && chunk == ChunkOf(i, p)
      && Check(s.rows[i], p) && p !in s.soft[i] && s.gc != i && (s.alloc == -1 || s.alloc == i)
      && (s.alloc == i <==> p + 1 < DataPages(g) || g.perSummary > 0)
      && (forall q: nat :: Check(s.rows[i], q) ==> q <= p)
      && s.infos[i].state != Collecting && s.page == p + 1
    }

    lemma HandIs(s: State, chunk: int, i: nat, p: nat)
      requires InHand(s, chunk, i, p)
      ensures Inv(g, s) && NoneDirty(s) && !s.session && i < g.count && p < g.chunks && p < DataPages(g)
      ensures chunk == ChunkOf(i, p) && InUse(s, i, p) && Check(s.rows[i], p) && p !in s.soft[i] && s.gc != i
      ensures (s.alloc == -1 || s.alloc == i) && s.infos[i].state != Collecting && |s.infos| == g.count == |s.rows|
      ensures p + 1 < DataPages(g) ==> s.infos[i].state == Allocating
      ensures |s.soft| == g.count
    {
      RoleOfAlloc(s);
    }

    /** Where checking is forced, the block is no longer trusted to be erased. */
    method ForceCheck(chunk: int, i: nat, p: nat)
      requires InHand(View(), chunk, i, p)
      modifies info
      ensures InHand(View(), chunk, i, p) && Near(g, old(View()), View(), i, p)
      ensures View().(infos := old(View()).infos) == old(View())
      ensures info[i].state == old(info[i].state)
    {
      hide Inv, Check, Near, Ready;
      ghost var s := View();
      InvLengths(g, s);
      NearSelf(g, s, i, p);
      if alwaysCheckErased {
        var x := info[i].(skipErasedCheck := false);
        MarkedKeeps(g, s, i, x);
        MarkedNear(s, i, p, x);
        info[i] := x;
        assert View() == Marked(s, i, x);
      }
    }

    /** Programs the chunk handed out. A write may fail or read back wrong; so may the check that it was erased. */
    method TryChunk(chunk: int, i: nat, p: nat) returns (ok: bool)
      requires Numbered() && InHand(View(), chunk, i, p)
      modifies this`oldest, this`gcBlock, this`isCheckpointed, this`nFree, this`nErased, this`inCheckpt, this`soft
      modifies this`allocBlock, info, bits
      ensures Good() && Near(g, old(View()), View(), i, p)
      ensures Check(bits[i], p) <==> ok
      ensures !ok ==> allocBlock == -1
      ensures !ok ==> nErased + inCheckpt <= old(nErased + inCheckpt) + if p + 1 < DataPages(g) then 0 else 1
    {
      hide Inv, Check, Near, Ready, InHand, NoneDirty;
      ghost var s := View();
      HandIs(s, chunk, i, p);
      ForceCheck(chunk, i, p);
      ghost var s1 := View();
      HandIs(s1, chunk, i, p);
      var erasedOk := false;
      var skip := info[i].skipErasedCheck;
      if !skip {
        erasedOk := *;
      }
      if !skip && !erasedOk {
        AbandonChunk(chunk, i, p);
        ok := false;
      } else {
        ok := Program(chunk, i, p, skip, erasedOk);
      }
      NearTwice(g, s, s1, View(), i, p);
    }

    method Program(chunk: int, i: nat, p: nat, skip: bool, erasedOk: bool) returns (ok: bool)
      requires Numbered() && InHand(View(), chunk, i, p)
      modifies this`oldest, this`gcBlock, this`isCheckpointed, this`nFree, this`nErased, this`inCheckpt, this`soft
      modifies this`allocBlock, info, bits
      ensures Good() && Near(g, old(View()), View(), i, p)
      ensures Check(bits[i], p) <==> ok
      ensures !ok ==> allocBlock == -1
      ensures !ok ==> nErased + inCheckpt <= old(nErased + inCheckpt) + if p + 1 < DataPages(g) then 0 else 1
    {
      hide Inv, Check, Near, Ready;
      ghost var s := View();
      InvLengths(g, s);
      HandIs(s, chunk, i, p);
      SummaryAdd(i, p);
      ghost var t := View();
      InvLengths(g, t);
      RoleOfAlloc(t);
      RoleOfGc(s, t, i, p);
      assert InUse(t, i, p);
      ok := *;
      if !skip {
        ok := *;
      }
      if !ok {
        HandleChunkWrError(chunk, erasedOk, i, p);
      } else {
        WrittenReady(t, i, p);
        MarkedKeeps(g, t, i, t.infos[i].(skipErasedCheck := true));
        MarkedNear(t, i, p, t.infos[i].(skipErasedCheck := true));
        info[i] := info[i].(skipErasedCheck := true);
        assert View() == Marked(t, i, t.infos[i].(skipErasedCheck := true));
      }
      NearTwice(g, s, t, View(), i, p);
    }

    lemma RoleOfGc(s: State, t: State, i: nat, p: nat)
      requires Inv(g, t) && Near(g, s, t, i, p) && s.gc != i
      ensures t.gc != i && t.infos[i].state != Collecting && t.soft == s.soft && t.session == s.session
    {}

    lemma WrittenReady(t: State, i: nat, p: nat)
      requires Inv(g, t) && i < g.count
      requires t.alloc == -1 || (t.alloc == i && t.page == p + 1 && p + 1 < DataPages(g))
      requires t.alloc == i ==> forall q: nat :: Check(t.rows[i], q) ==> q <= p
      ensures Ready(g, t)
    {}

    /** One attempt: `chunk` is -1 if there was no space, and otherwise `ok` says whether it was written. */
    method Attempt(useReserve: bool, checkptBlocks: nat) returns (chunk: int, ok: bool, ghost i: int, ghost p: nat)
      requires Good() && !session
      modifies this`finder, this`seqNumber, this`nErased, this`nFree, this`allocBlock, this`allocPage
      modifies this`oldest, this`gcBlock, this`isCheckpointed, this`inCheckpt, this`soft, info, bits
      ensures Good() && Apart(g, old(View()), View(), i, p, ok)
      ensures chunk < 0 ==> !ok && i == 0 && p == 0
      ensures chunk < 0 && useReserve ==> nErased == 0 && allocBlock == -1
      ensures chunk >= 0 ==> chunk > 0 && 0 <= i < g.count && p < DataPages(g) && chunk == ChunkOf(i, p)
      ensures chunk >= -1 && (chunk >= 0 ==> old(Measure(g, View())) >= 1)
      ensures chunk >= 0 && !ok && DataPages(g) >= 2 ==> Measure(g, View()) < old(Measure(g, View()))
      ensures !ok ==> Apart(g, old(View()), View(), 0, 0, false)
    {
      hide Inv, Ready, Check, Near, InHand, NoneDirty, Opened, Takes, Apart, TakePage;
      ghost var s := View();
      ghost var s1;
      chunk, s1 := AllocChunk(useReserve, checkptBlocks);
      if chunk < 0 {
        OpenedApart(s, s1);
        ok, i, p := false, 0, 0;
        return;
      }
      i, p := s1.alloc, s1.page;
      HandTaken(s, s1, chunk);
      ghost var s2 := View();
      var block, page := SplitChunk(chunk, i, p);
      ok := TryChunk(chunk, block, page);
      NearTwice(g, s, s2, View(), i, p);
      NearIsApart(g, s, View(), i, p);
    }

    method SplitChunk(chunk: int, ghost i: nat, ghost p: nat) returns (block: nat, page: nat)
      requires i < g.count && p < g.chunks && g.start >= 1 && chunk == ChunkOf(i, p)
      ensures block == i && page == p
    {
      ChunkParts(i, p);
      block, page := chunk / g.chunks - g.start, chunk % g.chunks;
    }

    lemma OpenedApart(s: State, s1: State)
      requires Inv(g, s) && Opened(s, s1) && !s.session
      ensures Apart(g, s, s1, 0, 0, false)
      ensures s.nErased < 1 && s1.alloc == -1 ==> s1.nErased == 0
    {
      EmptyExists(s);
      hide Check;
    }

    lemma SomeLeft(s: State, s1: State)
      requires Inv(g, s) && Opened(s, s1) && s1.alloc >= 0 && !s.session
      ensures Measure(g, s) >= 1
    {
      EmptyExists(s);
      hide Inv;
    }

    lemma AfterCalm(s: State, t: State)
      requires Inv(g, s) && Inv(g, t) && Ready(g, s) && NoneDirty(s) && Calm(s, t) && !s.session
      ensures Ready(g, t) && NoneDirty(t) && Apart(g, s, t, 0, 0, false)
      ensures Measure(g, t) <= s.nErased + s.inCheckpt + 2
    {
      hide Inv, Check;
      InvLengths(g, s);
      CalmIsApart(g, s, t);
      assert t.rows == s.rows;
    }

    lemma MeasurePositive(s: State)
      requires Inv(g, s) && !s.session
      ensures Measure(g, s) >= 0
    {
      EmptyExists(s);
    }

    lemma HandTaken(s: State, s1: State, chunk: int)
      requires Inv(g, s) && Inv(g, s1) && Ready(g, s1) && Opened(s, s1) && NoneDirty(s1) && !s.session
      requires Takes(s1, chunk)
      ensures var i, p, s2 := s1.alloc, s1.page, TakePage(g, s1);
        InHand(s2, chunk, i, p) && Near(g, s, s2, i, p) && i < g.count && g.start >= 1 && p < DataPages(g) && p < g.chunks
        && !Check(s.rows[i], p) && chunk > 0 && Has(s, i)
        && s.infos[i].state != Full && s.infos[i].state != Collecting
        && s2.nErased + s2.inCheckpt == s1.nErased + s1.inCheckpt
        && (DataPages(g) >= 2 ==> Measure(g, s1) <= Measure(g, s))
        && Measure(g, s) >= 1 && chunk == ChunkOf(i, p)
    {
      EmptyExists(s);
      SomeLeft(s, s1);
      hide Check, Near, Inv, Measure;
      InvLengths(g, s);
      InvLengths(g, s1);
      Taken(s, s1);
      TakenNear(s, s1);
      DataPagesFit(g);
      ChunkParts(s1.alloc, s1.page);
    }

    /** Attempts are limited, or a block has more than one data page. */
    ghost predicate WritesEnd() {
      wrAttempts > 0 || DataPages(g) >= 2
    }

    /**
     * Writes a chunk, trying again elsewhere until one attempt succeeds. With no limit on attempts it still ends:
     * there are at most two more of them than blocks erased or given back by the checkpoint.
     */
    method WriteNewChunk(useReserve: bool, checkptBlocks: nat)
      returns (chunk: int, attempts: nat, ghost i: int, ghost p: nat)
      requires Good() && !session && WritesEnd()
      modifies this`finder, this`seqNumber, this`nErased, this`nFree, this`allocBlock, this`allocPage
      modifies this`oldest, this`gcBlock, this`isCheckpointed, this`inCheckpt, this`soft, info, bits
      ensures Good() && Apart(g, old(View()), View(), i, p, chunk >= 0)
      ensures chunk >= 0 ==> chunk > 0 && 0 <= i < g.count && chunk == ChunkOf(i, p)
      ensures DataPages(g) >= 2 ==> attempts <= old(nErased) + old(inCheckpt) + 2
      ensures wrAttempts > 0 ==> attempts <= wrAttempts + 1
      ensures chunk < 0 ==> chunk == -1 && i == 0 && p == 0
      ensures chunk < 0 && useReserve && wrAttempts == 0 ==> nErased == 0 && allocBlock == -1
    {
      hide Inv, Ready, Check, Near, InHand, NoneDirty, Apart, Measure, Calm, DataPages;
      ghost var s := View();
      assert View().(nFree := nFree + 0) == View();
      CheckptInvalidate(0);
      AfterCalm(s, View());
      ghost var m := Measure(g, View());
      attempts := 0;
      var ok := false;
      i, p := 0, 0;
      while true
        invariant Good() && !session && !ok && i == 0 && p == 0
        invariant Apart(g, s, View(), 0, 0, false)
        invariant DataPages(g) >= 2 ==> attempts + Measure(g, View()) <= m
        invariant wrAttempts > 0 ==> attempts <= wrAttempts
        decreases if DataPages(g) >= 2 then Measure(g, View()) else wrAttempts - attempts
      {
        ghost var t := View();
        MeasurePositive(t);
        chunk, ok, i, p := Attempt(useReserve, checkptBlocks);
        ApartTwice(g, s, t, View(), i, p, ok);
        MeasurePositive(View());
        if chunk < 0 {
          break;
        }
        attempts := attempts + 1;
        if ok {
          break;
        }
        ApartTwice(g, s, t, View(), 0, 0, false);
        i, p := 0, 0;
        if !(wrAttempts == 0 || attempts <= wrAttempts) {
          chunk := -1;
          break;
        }
      }
    }

    // ---------- Garbage collection ----------

    /** The block being collected still has chunks in use and will be erased when the last one goes. */
    ghost predicate Working(s: State, i: nat) {
      Has(s, i) && s.gc == i && s.infos[i].state == Collecting && !s.infos[i].hasShrink && s.infos[i].inUse > 0
    }

    /** The block collected has left the log. */
    ghost predicate Finished(s: State, i: nat) {
      Has(s, i) && s.gc == -1 && (s.infos[i].state == Empty || s.infos[i].state == Dead)
      && forall q: nat :: !Check(s.rows[i], q)
    }

    /** Pages of block `i` other than `p` are used as before, and other blocks lose no chunk. */
    ghost predicate Moved(s: State, s': State, i: nat, p: nat) {
      |s'.rows| == |s.rows| && i < |s.rows| && s'.session == s.session
      && (forall j: int, q: nat :: j != i && InUse(s, j, q) ==> InUse(s', j, q))
      && (forall q: nat :: q != p ==> (Check(s'.rows[i], q) <==> Check(s.rows[i], q)))
      && |s'.soft| == |s.soft| && i < |s.soft| && (forall q :: q != p ==> (q in s'.soft[i] <==> q in s.soft[i]))
    }

    /** Moves a live chunk, or drops one that is not; fails, changing nothing in the block, if there is no space. */
    method GcProcessChunk(i: nat, p: nat, kind: Kind, checkptBlocks: nat) returns (ok: bool)
      requires Good() && !session && WritesEnd() && Working(View(), i)
      requires p < g.chunks && InUse(View(), i, p) && (kind == SoftDeleted <==> p in soft[i])
      modifies this`finder, this`seqNumber, this`nErased, this`nFree, this`allocBlock, this`allocPage
      modifies this`oldest, this`gcBlock, this`isCheckpointed, this`inCheckpt, this`soft, info, bits
      ensures Good() && Moved(old(View()), View(), i, p)
      ensures !ok ==> Working(View(), i) && InUse(View(), i, p) && (p in soft[i] <==> p in old(soft)[i])
      ensures ok ==> !InUse(View(), i, p) && (Working(View(), i) || Finished(View(), i))
      ensures kind != Live ==> ok
    {
      hide Inv, Ready, Check, NoneDirty, Finished, Moved, InUse;
      ghost var s := View();
      InvLengths(g, s);
      MovedSelf(s, i, p);
      ok := true;
      if kind == SoftDeleted {
        UnsoftChunk(i, p);
      } else if kind == Live {
        ok := CopyChunk(i, p, checkptBlocks);
      }
      if ok {
        ghost var t := View();
        DropChunk(i, p);
        MovedTwice(s, t, View(), i, p);
      }
    }

    method CopyChunk(ghost i: nat, ghost p: nat, checkptBlocks: nat) returns (ok: bool)
      requires Good() && !session && WritesEnd() && Working(View(), i) && InUse(View(), i, p)
      modifies this`finder, this`seqNumber, this`nErased, this`nFree, this`allocBlock, this`allocPage
      modifies this`oldest, this`gcBlock, this`isCheckpointed, this`inCheckpt, this`soft, info, bits
      ensures Good() && Moved(old(View()), View(), i, p) && Working(View(), i) && InUse(View(), i, p)
      ensures soft == old(soft)
    {
      hide Inv, Ready, Check, NoneDirty, Apart, Moved, InUse, Working;
      ghost var s := View();
      var chunk, attempts;
      ghost var j, q;
      chunk, attempts, j, q := WriteNewChunk(true, checkptBlocks);
      ApartMoved(s, View(), j, q, chunk >= 0, i, p);
      ok := chunk >= 0;
    }

    method DropChunk(i: nat, p: nat)
      requires Good() && !session && Working(View(), i) && InUse(View(), i, p) && p !in soft[i]
      modifies this`oldest, this`gcBlock, this`isCheckpointed, this`nFree, this`nErased, this`inCheckpt, this`soft
      modifies info, bits
      ensures Good() && Moved(old(View()), View(), i, p) && !InUse(View(), i, p)
      ensures Working(View(), i) || Finished(View(), i)
    {
      hide Inv, Ready, Check, NoneDirty, Finished, Moved, InUse, Deleted;
      ghost var s := View();
      InvLengths(g, s);
      UsedBlock(g, s, i, p);
      ChunkParts(i, p);
      ChunkDel((i + g.start) * g.chunks + p, i, p);
      DeletedMoved(s, View(), i, p);
    }

    method UnsoftChunk(i: nat, p: nat)
      requires Good() && !session && Working(View(), i) && InUse(View(), i, p) && p in soft[i]
      modifies this`nFree, this`soft, info
      ensures Good() && Moved(old(View()), View(), i, p) && Working(View(), i) && InUse(View(), i, p) && p !in soft[i]
    {
      hide Inv, Ready, Check;
      ghost var s := View();
      InvLengths(g, s);
      HardenKeeps(g, s, i, p);
      nFree := nFree - 1;
      info[i] := info[i].(softDel := info[i].softDel - 1);
      soft := soft[i := soft[i] - {p}];
      assert View() == Harden(s, i, p);
    }

    lemma MovedSelf(s: State, i: nat, p: nat)
      requires Has(s, i)
      ensures Moved(s, s, i, p)
    {}

    lemma MovedTwice(s: State, s1: State, s2: State, i: nat, p: nat)
      requires Moved(s, s1, i, p) && Moved(s1, s2, i, p)
      ensures Moved(s, s2, i, p)
    {
      hide Check;
    }

    lemma ApartMoved(s: State, s': State, j: int, q: nat, extra: bool, i: nat, p: nat)
      requires Inv(g, s) && Inv(g, s') && Apart(g, s, s', j, q, extra) && Working(s, i)
      ensures Moved(s, s', i, p) && Working(s', i) && (InUse(s, i, p) ==> InUse(s', i, p))
      ensures s'.soft == s.soft && s'.session == s.session
    {
      hide Check;
    }

    lemma DeletedMoved(s: State, s': State, i: nat, p: nat)
      requires Inv(g, s) && Inv(g, s') && Deleted(g, s, s', i, p) && Working(s, i) && InUse(s, i, p)
      requires p !in s.soft[i] && p / 8 < g.stride && s.infos[i].Holds()
      ensures Moved(s, s', i, p) && (Working(s', i) || Finished(s', i)) && !InUse(s', i, p)
    {
      ReleaseKeeps(g, s, i, p);
      var r := Release(s, i, p);
      hide Inv;
      InvLengths(g, s);
      InvLengths(g, r);
      InvLengths(g, s');
      if s' == r {
        UsedCount(r, i);
      } else {
        NoneUsed(r, i);
      }
      MovedRows(s, r, s', i, p);
    }

    lemma UsedCount(s: State, i: nat)
      requires Inv(g, s) && i < g.count
      ensures s.infos[i].inUse >= 0
    {}

    lemma NoneUsed(s: State, i: nat)
      requires Inv(g, s) && i < g.count && s.infos[i].inUse == 0
      ensures forall q: nat :: !Check(s.rows[i], q)
    {
      forall q: nat
        ensures !Check(s.rows[i], q)
      {
        EmptyRow(g, s.infos[i], s.rows[i], s.soft[i], q);
      }
    }

    lemma MovedRows(s: State, r: State, s': State, i: nat, p: nat)
      requires Has(s, i) && p / 8 < |s.rows[i]| && r == Release(s, i, p) && |s'.rows| == |s.rows|
      requires s' == r || Gone(r, s', i)
      requires forall j: int, q: nat :: InUse(r, j, q) <==> InUse(s, j, q) && (i != j || p != q)
      ensures Moved(s, s', i, p) && !InUse(s', i, p)
      ensures forall q: nat :: Check(s'.rows[i], q) <==> Check(r.rows[i], q)
    {
      hide Check, Clear;
      forall q: nat
        ensures Check(s'.rows[i], q) <==> Check(r.rows[i], q)
        ensures Check(r.rows[i], q) <==> Check(s.rows[i], q) && p != q
      {
        assert InUse(s', i, q) <==> InUse(r, i, q);
        assert InUse(r, i, q) <==> InUse(s, i, q) && p != q;
      }
    }

    /** Only summary chunks of block `i` have gone. */
    ghost predicate SummaryLess(s: State, t: State, i: nat) {
      Has(s, i) && Has(t, i) && |t.infos| == |s.infos|
      && t.(infos := s.infos, rows := s.rows, nFree := s.nFree) == s
      && t.infos[i] == s.infos[i].(inUse := t.infos[i].inUse)
      && (forall j :: 0 <= j < |s.infos| && j != i ==> t.infos[j] == s.infos[j] && t.rows[j] == s.rows[j])
      && (forall q: nat :: Check(t.rows[i], q) ==> Check(s.rows[i], q))
      && (forall q: nat :: q < DataPages(g) && Check(s.rows[i], q) ==> Check(t.rows[i], q))
    }

    /** The pages of block `i` from the summary's first up to `c` are free. */
    ghost predicate SummaryFree(t: State, i: nat, c: nat) {
      Has(t, i) && forall q: nat :: DataPages(g) <= q < c ==> !Check(t.rows[i], q)
    }

    lemma SummaryAllFree(t: State, i: nat)
      requires Inv(g, t) && SummaryFree(t, i, g.chunks)
      ensures forall q: nat :: q >= DataPages(g) ==> !Check(t.rows[i], q)
    {}

    /** The chunks of a summary go first, with no note that the block is dirtied. */
    method SummaryGc(i: nat)
      requires Good() && !session && i < g.count && info[i].Holds()
      modifies this`nFree, info, bits
      ensures Good() && SummaryLess(old(View()), View(), i)
      ensures info[i].hasSummary ==> forall q: nat :: q >= DataPages(g) ==> !Check(bits[i], q)
    {
      hide Inv, Ready, Check, DataPages;
      ghost var s := View();
      InvLengths(g, s);
      if !info[i].hasSummary {
        return;
      }
      SummaryOn(s, i);
      assert SummaryFree(s, i, g.perSummary);
      hide SummaryLess, SummaryFree;
      for c := g.perSummary to g.chunks
        invariant Good() && SummaryLess(s, View(), i) && SummaryFree(View(), i, c)
      {
        LessAt(s, View(), i);
        ghost var t := View();
        if Check(bits[i], c) {
          SummaryGcOne(s, i, c);
        }
        FreeMore(t, View(), i, c);
      }
      SummaryAllFree(View(), i);
    }

    lemma FreeMore(t: State, u: State, i: nat, c: nat)
      requires SummaryFree(t, i, c) && Has(u, i) && !Check(u.rows[i], c)
      requires forall q: nat :: Check(u.rows[i], q) ==> Check(t.rows[i], q)
      ensures SummaryFree(u, i, c + 1)
    {
      hide Check, DataPages;
    }

    lemma LessAt(s: State, t: State, i: nat)
      requires SummaryLess(s, t, i)
      ensures t.infos[i].Holds() == s.infos[i].Holds() && |t.infos| == |s.infos| == |t.rows| == |t.soft|
    {}

    method SummaryGcOne(ghost s: State, i: nat, c: nat)
      requires Good() && SummaryLess(s, View(), i) && i < g.count && Check(bits[i], c)
      requires 0 < g.perSummary <= c < g.chunks && DataPages(g) == g.perSummary && info[i].Holds()
      modifies this`nFree, info, bits
      ensures Good() && SummaryLess(s, View(), i)
      ensures forall q: nat :: Check(bits[i], q) <==> old(Check(bits[i], q)) && q != c
    {
      hide Inv, Ready, Check, Clear;
      ghost var t := View();
      InvLengths(g, t);
      InRow(g, c);
      SummaryClearedKeeps(g, t, i, c);
      ClearBit(t.rows[i], c);
      LessMore(s, t, i, c);
      hide SummaryLess;
      bits[i] := Clear(bits[i], c);
      info[i] := info[i].(inUse := info[i].inUse - 1);
      nFree := nFree + 1;
      assert View() == SummaryCleared(t, i, c);
    }

    lemma LessMore(s: State, t: State, i: nat, c: nat)
      requires SummaryLess(s, t, i) && c / 8 < |t.rows[i]| && c >= DataPages(g)
      ensures SummaryLess(s, SummaryCleared(t, i, c), i)
    {
      ClearBit(t.rows[i], c);
      hide Check, Clear;
    }

    lemma SummaryOn(s: State, i: nat)
      requires Inv(g, s) && i < g.count && s.infos[i].hasSummary
      ensures g.perSummary > 0 && g.perSummary < g.chunks && DataPages(g) == g.perSummary
    {
      DataPagesFit(g);
    }

    /** Where the collection of block `i` stands, `from` being the state in which it started. */
    ghost predicate CollectedSoFar(from: State, s: State, i: nat, first: nat, next: nat, ok: bool) {
      Has(from, i) && (Working(s, i) || Finished(s, i)) && |s.rows| == |from.rows| && |s.soft| == |from.soft|
      && (forall j: int, q: nat :: j != i && InUse(from, j, q) ==> InUse(s, j, q))
      && (forall q: nat :: Check(s.rows[i], q) ==> Check(from.rows[i], q))
      && (forall q: nat :: Check(s.rows[i], q) ==> (q in s.soft[i] <==> q in from.soft[i]))
      && (forall q: nat :: q < first && Check(from.rows[i], q) ==> Check(s.rows[i], q))
      && (ok ==> forall q: nat :: first <= q < next ==> !Check(s.rows[i], q))
    }

    lemma CollectedNext(from: State, s: State, s': State, i: nat, first: nat, next: nat, ok: bool)
      requires CollectedSoFar(from, s, i, first, next, true) && first <= next
      requires Moved(s, s', i, next) && (Working(s', i) || Finished(s', i))
      requires if ok then !InUse(s', i, next) else InUse(s', i, next) && (next in s'.soft[i] <==> next in s.soft[i])
      requires InUse(s, i, next)
      ensures CollectedSoFar(from, s', i, first, next + 1, ok)
    {
      hide Check;
    }

    /** Chunks from the next one on are moved, five at most unless the whole block is wanted. */
    method GcChunks(i: nat, whole: bool, kinds: seq<Kind>, checkptBlocks: nat, ghost from: State) returns (ok: bool)
      requires Good() && !session && WritesEnd() && Working(View(), i) && from == View()
      requires |kinds| == g.chunks
      requires forall p: nat :: Check(bits[i], p) && p < g.chunks ==> (kinds[p] == SoftDeleted <==> p in soft[i])
      modifies this`finder, this`seqNumber, this`nErased, this`nFree, this`allocBlock, this`allocPage, this`gcChunk
      modifies this`oldest, this`gcBlock, this`isCheckpointed, this`inCheckpt, this`soft, info, bits
      ensures Good() && !session && gcChunk >= old(gcChunk)
      ensures CollectedSoFar(from, View(), i, old(gcChunk), gcChunk, ok)
      ensures ok && whole && Working(View(), i) ==> gcChunk >= g.chunks
      ensures ok && Working(View(), i) && old(gcChunk) < g.chunks ==> gcChunk > old(gcChunk)
      ensures !ok ==> 0 < gcChunk <= g.chunks && kinds[gcChunk - 1] == Live && InUse(View(), i, gcChunk - 1)
    {
      hide Inv, Ready, Check, NoneDirty, InUse;
      ghost var first := gcChunk;
      var left := if whole then g.chunks else 5;
      InvLengths(g, from);
      ok := true;
      while ok && gcChunk < g.chunks && info[i].state == Collecting && left > 0
        invariant left >= 0 && Good() && !session && first <= gcChunk
        invariant CollectedSoFar(from, View(), i, first, gcChunk, ok)
        invariant whole ==> left + gcChunk >= g.chunks
        invariant left == 0 ==> gcChunk > first
        invariant !ok ==> 0 < gcChunk <= g.chunks && kinds[gcChunk - 1] == Live && InUse(View(), i, gcChunk - 1)
        decreases ok, g.chunks - gcChunk
      {
        var used := Check(bits[i], gcChunk);
        if used {
          left := left - 1;
        }
        ok := GcNext(i, kinds, checkptBlocks, from, first);
      }
    }

    /** The next chunk of the block being collected, if it is in use. */
    method GcNext(i: nat, kinds: seq<Kind>, checkptBlocks: nat, ghost from: State, ghost first: nat) returns (ok: bool)
      requires Good() && !session && WritesEnd() && |kinds| == g.chunks && first <= gcChunk < g.chunks
      requires CollectedSoFar(from, View(), i, first, gcChunk, true) && info[i].state == Collecting
      requires forall p: nat :: Check(from.rows[i], p) && p < g.chunks ==> (kinds[p] == SoftDeleted <==> p in from.soft[i])
      modifies this`finder, this`seqNumber, this`nErased, this`nFree, this`allocBlock, this`allocPage, this`gcChunk
      modifies this`oldest, this`gcBlock, this`isCheckpointed, this`inCheckpt, this`soft, info, bits
      ensures Good() && !session && gcChunk == old(gcChunk) + 1
      ensures CollectedSoFar(from, View(), i, first, gcChunk, ok)
      ensures !ok ==> kinds[gcChunk - 1] == Live && InUse(View(), i, gcChunk - 1)
    {
      hide Inv, Ready, Check, NoneDirty, InUse;
      ghost var s := View();
      InvLengths(g, s);
      CheckIsUse(s, i, gcChunk);
      ok := true;
      if Check(bits[i], gcChunk) {
        ok := GcProcessChunk(i, gcChunk, kinds[gcChunk], checkptBlocks);
        CollectedNext(from, s, View(), i, first, gcChunk, ok);
      }
      gcChunk := gcChunk + 1;
    }

    lemma CheckIsUse(s: State, i: nat, p: nat)
      requires i < |s.rows|
      ensures Check(s.rows[i], p) <==> InUse(s, i, p)
    {}

    /** The block has been marked as being collected and its summary dropped. */
    ghost predicate Begun(s: State, from: State, i: nat) {
      Has(s, i) && Has(from, i) && |from.infos| == |s.infos| && from.soft == s.soft && from.gc == i && !from.session
      && from.infos[i].state == Collecting && !from.infos[i].hasShrink
      && (forall j: int, q: nat :: j != i && InUse(s, j, q) ==> InUse(from, j, q))
      && (forall q: nat :: Check(from.rows[i], q) ==> Check(s.rows[i], q))
      && (forall q: nat :: q < DataPages(g) && Check(s.rows[i], q) ==> Check(from.rows[i], q))
    }

    method BeginGc(i: nat)
      requires Good() && !session && i < g.count && View().gc == i && info[i].state == Full
      modifies this`nFree, info, bits
      ensures Good() && Begun(old(View()), View(), i)
    {
      hide Inv, Ready, Check, DataPages;
      ghost var s := View();
      InvLengths(g, s);
      StartCollectKeeps(g, s, i);
      info[i] := info[i].(state := Collecting, hasShrink := false);
      assert View() == StartCollect(s, i);
      SummaryGc(i);
    }

    lemma CountRow(s: State, i: nat)
      requires Inv(g, s) && i < g.count && s.infos[i].state == Collecting && s.gc == i && !s.infos[i].hasShrink
      ensures Count(s.rows[i]) == s.infos[i].inUse && (s.infos[i].inUse > 0 ==> Working(s, i))
      ensures forall q: nat :: Check(s.rows[i], q) ==> q < g.chunks && Count(s.rows[i]) > 0
    {
      forall q: nat | Check(s.rows[i], q)
        ensures q < g.chunks && Count(s.rows[i]) > 0
      {
        NoneSet(s.rows[i], q);
      }
    }

    lemma GoneFinished(s: State, s': State, i: nat)
      requires Inv(g, s) && Inv(g, s') && i < g.count && s.infos[i].inUse == 0 && s.gc == i && Gone(s, s', i)
      ensures Finished(s', i) && (forall j: int, q: nat :: InUse(s', j, q) <==> InUse(s, j, q)) && s'.session == s.session
    {
      NoneUsed(s, i);
      InvLengths(g, s');
      hide Check, Inv;
      forall q: nat
        ensures !Check(s'.rows[i], q)
      {
        assert InUse(s', i, q) <==> InUse(s, i, q);
      }
    }

    ghost predicate NoneBelow(r: Row, n: nat) {
      forall q: nat :: q < n ==> !Check(r, q)
    }

    /** A data chunk before page `n` is in use. */
    ghost predicate SomeBelow(r: Row, n: nat) {
      exists q: nat :: q < n && q < DataPages(g) && Check(r, q)
    }

    /** What follows from how far the chunks were collected. */
    lemma AtEnd(s: State, from: State, t: State, i: nat, first: nat, next: nat, ok: bool)
      requires Begun(s, from, i) && CollectedSoFar(from, t, i, first, next, ok) && first <= next && Inv(g, t)
      ensures forall j: int, q: nat :: j != i && InUse(s, j, q) ==> InUse(t, j, q)
      ensures ok && NoneBelow(s.rows[i], first) ==> NoneBelow(t.rows[i], next)
      ensures NoneBelow(t.rows[i], g.chunks) ==> !Working(t, i)
      ensures SomeBelow(s.rows[i], first) ==> SomeBelow(t.rows[i], first) && Working(t, i)
    {
      if NoneBelow(t.rows[i], g.chunks) && Working(t, i) {
        UsedChunk(t, i);
        assert false;
      }
      hide Check, Inv, DataPages;
      if SomeBelow(s.rows[i], first) {
        var q: nat :| q < first && q < DataPages(g) && Check(s.rows[i], q);
        assert Check(from.rows[i], q);
        assert Check(t.rows[i], q);
      }
    }

    lemma UsedChunk(s: State, i: nat)
      requires Inv(g, s) && i < g.count && s.infos[i].inUse > 0
      ensures !NoneBelow(s.rows[i], g.chunks)
    {
      CountIsSize(s.rows[i]);
      var q :| q in Chunks(s.rows[i]);
      assert Check(s.rows[i], q);
    }

    /**
     * Collects the block, wholly or in part. It leaves the log exactly when its last chunk goes; no other block
     * loses a chunk. A collection that goes well and started with nothing left behind it makes progress, and ends if
     * the whole block was asked for. If copying a chunk fails, the next collection starts behind that chunk; a chunk so
     * left behind is never tried again, and the block stays.
     */
    method GcBlock(block: nat, whole: bool, kinds: seq<Kind>, checkptBlocks: nat) returns (ok: bool)
      requires Good() && !session && WritesEnd() && block == gcBlock && g.start <= block < g.start + g.count
      requires info[block - g.start].state == Full && |kinds| == g.chunks
      requires forall p: nat :: Check(bits[block - g.start], p) && p < g.chunks ==>
        (kinds[p] == SoftDeleted <==> p in soft[block - g.start])
      modifies this`finder, this`seqNumber, this`nErased, this`nFree, this`allocBlock, this`allocPage, this`gcChunk
      modifies this`oldest, this`gcBlock, this`isCheckpointed, this`inCheckpt, this`soft, info, bits
      ensures Good() && !session
      ensures forall j: int, q: nat :: j != block - g.start && InUse(old(View()), j, q) ==> InUse(View(), j, q)
      ensures var x := info[block - g.start].state;
        if x == Full then gcBlock == block else gcBlock == 0 && gcChunk == 0 && (x == Empty || x == Dead)
      ensures ok && NoneBelow(old(bits[block - g.start]), old(gcChunk)) && info[block - g.start].state == Full ==>
        !whole && (old(gcChunk) < g.chunks ==> gcChunk > old(gcChunk)) && NoneBelow(bits[block - g.start], gcChunk)
      ensures SomeBelow(old(bits[block - g.start]), old(gcChunk)) ==>
        info[block - g.start].state == Full && gcChunk >= old(gcChunk)
        && SomeBelow(bits[block - g.start], old(gcChunk))
      ensures !ok ==>
        info[block - g.start].state == Full && 0 < gcChunk <= g.chunks && kinds[gcChunk - 1] == Live
        && InUse(View(), block - g.start, gcChunk - 1)
        && (gcChunk - 1 < DataPages(g) ==> SomeBelow(bits[block - g.start], gcChunk))
    {
      hide Inv, Ready, Check, NoneDirty, InUse, Finished, Working, DataPages, NoneBelow, SomeBelow, Begun, CollectedSoFar;
      var i := block - g.start;
      ghost var s, first := View(), gcChunk;
      InvLengths(g, s);
      BeginGc(i);
      ghost var from := View();
      BegunAt(s, from, i);
      CountRow(from, i);
      var some := StillSomeChunks(bits[i]);
      if !some {
        BlockBecameDirty(block);
        GoneFinished(from, View(), i);
        NoChunks(s, from, i, first);
        ok := true;
      } else {
        ok := GcChunks(i, whole, kinds, checkptBlocks, from);
        AtEnd(s, from, View(), i, first, gcChunk, ok);
        EndState(from, View(), i, first, gcChunk, ok);
        Below(bits[i], gcChunk);
        LeftBehind(View(), i, gcChunk, ok);
      }
      EndGc(i);
    }

    /** A block with a chunk in use is not finished, and that chunk is behind the next one. */
    lemma LeftBehind(s: State, i: nat, next: nat, ok: bool)
      requires !ok ==> next > 0 && InUse(s, i, next - 1)
      ensures !ok ==> !Finished(s, i)
      ensures !ok && next - 1 < DataPages(g) ==> SomeBelow(s.rows[i], next)
    {
      hide Check, DataPages;
      if !ok {
        var q: nat := next - 1;
        assert Check(s.rows[i], q);
      }
    }

    lemma BegunAt(s: State, from: State, i: nat)
      requires Begun(s, from, i)
      ensures from.gc == i && from.infos[i].state == Collecting && !from.infos[i].hasShrink && from.soft == s.soft
      ensures !from.session && i < |from.infos|
      ensures forall j: int, q: nat :: j != i && InUse(s, j, q) ==> InUse(from, j, q)
      ensures forall q: nat :: Check(from.rows[i], q) ==> Check(s.rows[i], q)
    {}

    lemma NoChunks(s: State, from: State, i: nat, first: nat)
      requires Begun(s, from, i) && forall q: nat :: !Check(from.rows[i], q)
      ensures !SomeBelow(s.rows[i], first)
    {
      hide Check, DataPages;
    }

    lemma EndState(from: State, t: State, i: nat, first: nat, next: nat, ok: bool)
      requires CollectedSoFar(from, t, i, first, next, ok)
      ensures Working(t, i) || Finished(t, i)
    {}

    lemma Below(r: Row, n: nat)
      ensures n >= g.chunks && NoneBelow(r, n) ==> NoneBelow(r, g.chunks)
    {
      hide Check;
    }

    /** A block not finished is full again; otherwise no block is being collected. */
    method EndGc(i: nat)
      requires Good() && !session && i < g.count && (Working(View(), i) || Finished(View(), i))
      modifies this`gcBlock, this`gcChunk, info
      ensures Good() && View().rows == old(View()).rows
      ensures forall j: int, q: nat :: InUse(View(), j, q) <==> InUse(old(View()), j, q)
      ensures old(Working(View(), i)) ==>
        info[i].state == Full && gcBlock == i + g.start == old(gcBlock) && gcChunk == old(gcChunk)
      ensures old(Finished(View(), i)) ==>
        (info[i].state == Empty || info[i].state == Dead) && gcBlock == 0 && gcChunk == 0
    {
      hide Inv, Ready, Check;
      InvLengths(g, View());
      if info[i].state == Collecting {
        ghost var t := View();
        StopCollectKeeps(g, t, i);
        info[i] := info[i].(state := Full);
        assert View() == StopCollect(t, i);
      } else {
        assert gcBlock == 0;
        gcBlock := 0;
        gcChunk := 0;
      }
    }

    // ---------- The oldest dirty sequence number ----------

    /** The least sequence number of a full block with discarded pages, or 0 if there is none. */
    method CalcOldestDirtySeq()
      requires Good() && forall j :: 0 <= j < g.count ==> info[j].state != Collecting
      modifies this`oldest
      ensures Good()
      ensures (forall j :: 0 <= j < g.count ==> !Discarding(g, info[j])) ==> oldest == old(oldest)
      ensures (exists j :: 0 <= j < g.count && Discarding(g, info[j])) ==>
        (exists j :: 0 <= j < g.count && Discarding(g, info[j]) && info[j].seqNumber == oldest)
        && forall j :: 0 <= j < g.count && Discarding(g, info[j]) ==> oldest <= info[j].seqNumber
    {
      hide Inv, Ready;
      ghost var s := View();
      SeqBounds(s);
      var seqNo, block := seqNumber + 1, 0;
      for i := 0 to g.count
        invariant if block == 0 then seqNo == seqNumber + 1 else
          g.start <= block < g.start + g.count && Discarding(g, info[block - g.start]) && info[block - g.start].seqNumber == seqNo
        invariant forall j :: 0 <= j < i && Discarding(g, info[j]) ==> seqNo <= info[j].seqNumber && block > 0
      {
        assert info[i] == s.infos[i];
        if info[i].state == Full && info[i].inUse - info[i].softDel < g.chunks && info[i].seqNumber < seqNo {
          seqNo, block := info[i].seqNumber, i + g.start;
        }
      }
      if block > 0 {
        OldestKeeps(s, seqNo);
        oldest := seqNo;
        assert View() == s.(oldest := seqNo);
      }
    }

    lemma SeqBounds(s: State)
      requires Inv(g, s)
      ensures |s.infos| == g.count && g.start >= 1
      ensures forall j :: 0 <= j < g.count && Discarding(g, s.infos[j]) ==> 0 < s.infos[j].seqNumber <= s.seqNumber
    {}

    lemma OldestKeeps(s: State, n: nat)
      requires Inv(g, s) && n <= s.seqNumber
      requires forall j :: 0 <= j < g.count && Discarding(g, s.infos[j]) ==> n <= s.infos[j].seqNumber
      ensures Inv(g, s.(oldest := n)) && (Ready(g, s) ==> Ready(g, s.(oldest := n)))
    {}

    /** A block with shrink headers may go only if no full block older than it has discarded pages. */
    method BlockOkForGc(i: nat) returns (ok: bool)
      requires Good() && i < g.count && info[i].state == Full
      requires forall j :: 0 <= j < g.count ==> info[j].state != Collecting
      modifies this`oldest
      ensures Good()
      ensures ok <==> !info[i].hasShrink || info[i].seqNumber <= oldest
      ensures ok && info[i].hasShrink && g.perSummary == 0 ==>
        forall j :: 0 <= j < g.count && Discarding(g, info[j]) ==> info[i].seqNumber <= info[j].seqNumber
    {
      hide Inv, Ready;
      SeqBounds(View());
      if !info[i].hasShrink {
        return true;
      }
      if oldest == 0 {
        CalcOldestDirtySeq();
      }
      OldestBound(View());
      ok := info[i].seqNumber <= oldest;
      SeqPositive(View(), i);
    }

    lemma OldestBound(s: State)
      requires Inv(g, s)
      ensures |s.infos| == g.count
      ensures g.perSummary == 0 && s.oldest > 0 ==>
        forall j :: 0 <= j < g.count && Discarding(g, s.infos[j]) ==> s.oldest <= s.infos[j].seqNumber
    {}

    lemma SeqPositive(s: State, i: nat)
      requires Inv(g, s) && i < g.count && s.infos[i].Holds()
      ensures s.infos[i].seqNumber > 0
    {}

    // ---------- Writing a checkpoint ----------

    method CheckptOpen() returns (ok: bool)
      requires Good() && !session && StreamOk()
      modifies this`nFree, this`nErased, this`inCheckpt, this`byteOffs, this`nextBlock, this`curBlock, this`curChunk
      modifies this`session, info
      ensures Good() && StreamOk() && session == ok && Spared(old(View()), View())
      ensures ok <==> old(nErased) > nReserved
      ensures if ok then inCheckpt == 0 && curBlock == -1 && nextBlock == g.start && byteOffs == Summary.HEADER_SIZE
              else View() == old(View()) && curBlock == old(curBlock)
    {
      hide Inv, Ready, Calm, NoneDirty, Spared;
      ghost var s := View();
      SparedSelf(s);
      if nErased - nReserved <= 0 {
        return false;
      }
      curBlock, curChunk, nextBlock := -1, 0, g.start;
      byteOffs := Summary.HEADER_SIZE;
      assert View().(nFree := nFree + 0) == View();
      CheckptErase(0);
      ghost var t := View();
      AfterCalm(s, t);
      CalmSpared(s, t);
      OpenedKeeps(g, t);
      session := true;
      SessionOnly(t, View());
      SparedTwice(s, t, View());
      ok := true;
    }

    /** Block `b` is erased and the search for a checkpoint block has not passed it. */
    predicate Waiting(b: int)
      reads this`nextBlock, info
    {
      info.Length == g.count && nextBlock >= 0 && g.start <= b < g.start + g.count && nextBlock <= b
      && info[b - g.start].state == Empty
    }

    /** The next erased block, in order, unless only the reserve is left. */
    method CheckptFindErasedBlock()
      requires Inv(g, View())
      modifies this`nextBlock, this`curBlock
      ensures curBlock == -1 <==> nErased <= nReserved || forall b :: !old(Waiting(b))
      ensures curBlock != -1 ==> nextBlock == curBlock + 1 && var b := curBlock; old(Waiting(b))
      ensures curBlock != -1 ==> forall b :: old(Waiting(b)) ==> curBlock <= b
      ensures curBlock == -1 ==> nextBlock == -1
    {
      hide Inv, Ready;
      InvLengths(g, View());
      if 0 <= nextBlock < g.start + g.count && nErased - nReserved > 0 {
        var i := nextBlock;
        while i < g.start + g.count
          invariant nextBlock <= i && nextBlock == old(nextBlock)
          invariant forall b :: old(Waiting(b)) ==> i <= b
        {
          if g.start <= i && info[i - g.start].state == Empty {
            assert Waiting(i);
            nextBlock := i + 1;
            curBlock := i;
            return;
          }
          i := i + 1;
        }
      }
      nextBlock, curBlock := -1, -1;
    }

    /** Writes the buffer to the next checkpoint chunk; the first in a block makes it a checkpoint block. */
    method CheckptFlushBuffer() returns (ok: bool)
      requires Good() && session && StreamOk()
      modifies this`inCheckpt, this`byteOffs, this`nextBlock, this`curBlock, this`curChunk, info
      ensures Good() && StreamOk() && Spared(old(View()), View())
      ensures ok <==> old(curBlock) >= 0 || (nErased > nReserved && exists b :: old(Waiting(b)))
      ensures !ok ==> View() == old(View()) && curBlock == -1 && byteOffs == old(byteOffs)
      ensures ok ==> inCheckpt == old(inCheckpt) + (if old(curBlock) >= 0 then 0 else 1)
      ensures ok ==> byteOffs == Summary.HEADER_SIZE
      ensures ok ==> var chunk := if old(curBlock) >= 0 then old(curChunk) + 1 else 1;
                if chunk < g.chunks then curChunk == chunk && curBlock >= 0 else curBlock == -1
    {
      hide Inv, Ready, Spared, NoneDirty, CheckptTaken;
      ghost var s := View();
      InvLengths(g, s);
      SparedSelf(s);
      if curBlock < 0 {
        CheckptFindErasedBlock();
        curChunk := 0;
      }
      if curBlock < 0 {
        return false;
      }
      if curChunk == 0 {
        TakeCheckptBlock();
      }
      curChunk := curChunk + 1;
      if curChunk >= g.chunks {
        curChunk := 0;
        curBlock := -1;
      }
      byteOffs := Summary.HEADER_SIZE;
      ok := true;
    }

    method TakeCheckptBlock()
      requires Good() && session && g.start <= curBlock < g.start + g.count && info[curBlock - g.start].state == Empty
      modifies this`inCheckpt, info
      ensures Good() && Spared(old(View()), View()) && g.chunks >= 2 && inCheckpt == old(inCheckpt) + 1
    {
      hide Inv, Ready;
      ghost var s := View();
      InvLengths(g, s);
      var i := curBlock - g.start;
      CheckptTakenKeeps(g, s, i);
      info[i] := info[i].(state := Checkpoint);
      inCheckpt := inCheckpt + 1;
      assert View() == CheckptTaken(s, i);
    }

    /** Puts bytes into the stream, one at a time, until a flush fails for want of a block. */
    method CheckptWr(n: nat) returns (written: nat)
      requires Good() && session && StreamOk()
      modifies this`inCheckpt, this`byteOffs, this`nextBlock, this`curBlock, this`curChunk, info
      ensures Good() && StreamOk() && Spared(old(View()), View()) && written <= n
      ensures written < n ==> curBlock == -1 && byteOffs >= g.dataBytes
      ensures old(byteOffs) + n < g.dataBytes ==>
                written == n && byteOffs == old(byteOffs) + n && View() == old(View()) && curBlock == old(curBlock)
    {
      hide Inv, Ready, Spared;
      ghost var s := View();
      SparedSelf(s);
      written := 0;
      var ok := true;
      while written < n && ok
        invariant Good() && StreamOk() && Spared(s, View()) && written <= n && session
        invariant !ok ==> curBlock == -1 && byteOffs >= g.dataBytes
        invariant old(byteOffs) + n < g.dataBytes ==>
                    ok && byteOffs == old(byteOffs) + written && View() == s && curBlock == old(curBlock)
      {
        byteOffs := byteOffs + 1;
        written := written + 1;
        if byteOffs >= g.dataBytes {
          ghost var t := View();
          ok := CheckptFlushBuffer();
          SparedTwice(s, t, View());
        }
      }
    }

    lemma SparedSelf(s: State)
      ensures Spared(s, s)
    {}

    lemma SparedTwice(s: State, t: State, u: State)
      requires Spared(s, t) && Spared(t, u)
      ensures Spared(s, u)
    {}

    /** What is left is flushed, and the blocks taken stop counting as erased. */
    method CheckptClose()
      requires Good() && session && StreamOk()
      modifies this`nFree, this`nErased, this`inCheckpt, this`byteOffs, this`nextBlock, this`curBlock, this`curChunk
      modifies this`session, info
      ensures Good() && !session && StreamOk() && Spared(old(View()), View()) && nErased >= 0
    {
      hide Inv, Ready, Spared;
      ghost var s := View();
      var ok := CheckptFlushBuffer();
      ghost var t := View();
      InvLengths(g, t);
      ClosedKeeps(g, t);
      nFree := nFree - inCheckpt * g.chunks;
      nErased := nErased - inCheckpt;
      session := false;
      assert View() == Closed(g, t);
      SparedClosed(t);
      SparedTwice(s, t, View());
    }

    lemma CalmSpared(s: State, t: State)
      requires Calm(s, t)
      ensures Spared(s, t)
    {}

    lemma SparedClosed(t: State)
      ensures Spared(t, Closed(g, t))
    {}

    /** Saves a checkpoint, as far as there is room; the stream is closed even if it could not be opened. */
    method CheckpointSave(required: bool, sizes: seq<nat>)
      requires Good() && !session && StreamOk()
      modifies this`isCheckpointed, this`nFree, this`nErased, this`inCheckpt, this`byteOffs, this`nextBlock
      modifies this`curBlock, this`curChunk, this`session, info
      ensures Good() && !session && StreamOk() && Spared(old(View()), View()) && nErased >= 0
    {
      hide Inv, Ready, Spared, NoneDirty;
      ghost var s := View();
      if isCheckpointed {
        SparedSelf(s);
        EmptyExists(s);
        return;
      }
      DropCheckpoint();
      ghost var t := View();
      isCheckpointed := WrCheckptData(required, sizes);
      SparedTwice(s, t, View());
    }

    method DropCheckpoint()
      requires Good() && !session
      modifies this`isCheckpointed, this`nFree, this`nErased, this`inCheckpt, info
      ensures Good() && Spared(old(View()), View()) && inCheckpt == 0
    {
      hide Inv, Ready, Calm;
      ghost var s := View();
      assert View().(nFree := nFree + 0) == View();
      CheckptInvalidate(0);
      AfterCalm(s, View());
      CalmSpared(s, View());
    }

    method WrCheckptData(required: bool, sizes: seq<nat>) returns (ok: bool)
      requires Good() && !session && StreamOk() && inCheckpt == 0
      modifies this`nFree, this`nErased, this`inCheckpt, this`byteOffs, this`nextBlock
      modifies this`curBlock, this`curChunk, this`session, info
      ensures Good() && !session && StreamOk() && Spared(old(View()), View()) && nErased >= 0
    {
      hide Inv, Ready, Spared, NoneDirty;
      ghost var s := View();
      ok := false;
      SparedSelf(s);
      if required {
        ok := CheckptOpen();
      }
      ghost var t := View();
      if !session {
        OpenedKeeps(g, t);
        session := true;
        SessionOnly(t, View());
        SparedTwice(s, t, View());
      }
      var k := 0;
      while ok && k < |sizes|
        invariant 0 <= k <= |sizes| && Good() && session && StreamOk() && Spared(s, View())
      {
        ghost var u := View();
        var n := CheckptWr(sizes[k]);
        ok := n == sizes[k];
        SparedTwice(s, u, View());
        k := k + 1;
      }
      ghost var u := View();
      CheckptClose();
      SparedTwice(s, u, View());
    }

    lemma SessionOnly(t: State, u: State)
      requires u == t.(session := true)
      ensures Spared(t, u) && (NoneDirty(t) ==> NoneDirty(u))
    {}

  }
}
