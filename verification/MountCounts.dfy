/** The counters that the mount scan builds up: free chunks, erased blocks, checkpoint blocks, and the pages in use of
    every block. */
module MountCounts {
  import opened Basics
  import Summary

  datatype BlockState = NeedsScan | Empty | Allocating | Full | Checkpoint | Dead

  /** What the scan makes of a page: not written, passed over (bad tags or unfixed errors), kept, or found and
      deleted again. */
  datatype Page = Unused | Ignored | Kept | Dropped

  /** What is on a block to be scanned. Of its summary `read` chunks can be read before one fails; if all can, it may
      still be refused for its sum or sequence number. `newest` says that no block has a higher sequence number,
      `shrink` that the scan finds a shrink header. */
  datatype Block = Block(pages: seq<Page>, read: nat, accepted: bool, newest: bool, shrink: bool)

  /** perSummary is 0 where summaries are off; `need` is how many chunks a summary takes. */
  datatype Geometry = Geometry(chunks: nat, perSummary: nat, need: nat)

  predicate GeometryOk(g: Geometry) {
    g.chunks > 0 && g.perSummary + g.need <= g.chunks
  }

  /** The geometry that summaries are used with. */
  function GeometryOf(chunks: nat, dataBytes: nat): (g: Geometry)
    requires dataBytes > Summary.HEADER_SIZE && Summary.ChunksUsed(chunks, dataBytes) < chunks
    ensures GeometryOk(g)
  {
    var perSummary := chunks - Summary.ChunksUsed(chunks, dataBytes);
    Summary.FitsInBlock(chunks, dataBytes);
    Geometry(chunks, perSummary, Summary.Pages(Summary.TAGS_SIZE * perSummary, dataBytes - Summary.HEADER_SIZE))
  }

  /** A chunk of a summary has the tags of one, so that a scan of its page passes over it. */
  predicate BlockOk(g: Geometry, b: Block)
    requires GeometryOk(g)
  {
    && |b.pages| == g.chunks && b.read <= g.need && (b.accepted ==> b.read == g.need > 0)
    && forall p :: g.perSummary <= p < g.perSummary + b.read ==> b.pages[p] == Ignored
  }

  datatype Info = Info(state: BlockState, inUse: int, bits: set<nat>, scanned: bool)

  // ---------- The scan of one block ----------

  /** A block in the middle of its scan, last page first: whether a good chunk was found, and the chunks counted as
      free. */
  datatype Tally = Tally(info: Info, found: bool, free: nat)

  function Next(b: Block, c: nat, t: Tally): Tally
    requires c < |b.pages|
  {
    match b.pages[c]
    case Unused =>
      var st := if t.found then t.info.state else if c == 0 then Empty else if b.newest then Allocating else t.info.state;
      Tally(t.info.(state := st), t.found, t.free + 1)
    case Ignored => t.(free := t.free + 1)
    case Kept => Tally(t.info.(bits := t.info.bits + {c}, inUse := t.info.inUse + 1), true, t.free)
    case Dropped => Tally(t.info, true, t.free + 1)
  }

  ghost function Tallied(b: Block, c: nat, end: nat, x: Info): Tally
    requires end <= |b.pages|
    decreases end - c
  {
    if c >= end then Tally(x, false, 0) else Next(b, c, Tallied(b, c + 1, end, x))
  }

  predicate Good(p: Page) {
    p == Kept || p == Dropped
  }

  /** No good chunk from page `c` on. */
  ghost predicate Clear(b: Block, c: nat, end: nat)
    requires end <= |b.pages|
  {
    forall p :: c <= p < end ==> !Good(b.pages[p])
  }

  /** A page not written, and no good chunk behind it. */
  ghost predicate Blank(b: Block, p: nat, end: nat)
    requires end <= |b.pages|
  {
    p < end && b.pages[p] == Unused && Clear(b, p + 1, end)
  }

  ghost function KeptFrom(b: Block, c: nat, end: nat): set<nat>
    requires end <= |b.pages|
  {
    set p: nat | c <= p < end && b.pages[p] == Kept
  }

  /** The pages in use are those kept; all others scanned count as free. */
  lemma {:induction false} TalliedPages(b: Block, c: nat, end: nat, x: Info)
    requires c <= end <= |b.pages| && x.inUse == |x.bits|
    requires forall p :: c <= p < end && Good(b.pages[p]) ==> p !in x.bits
    ensures var t := Tallied(b, c, end, x);
      && t.info.bits == KeptFrom(b, c, end) + x.bits && t.info.inUse == |t.info.bits|
      && t.info.scanned == x.scanned && t.free == end - c - (t.info.inUse - x.inUse)
    decreases end - c
  {
    hide KeptFrom;
    if c < end {
      TalliedPages(b, c + 1, end, x);
      hide Tallied;
      KeptOne(b, c, end);
      OnePage(b, c, Tallied(b, c + 1, end, x), KeptFrom(b, c + 1, end), x.bits);
    } else {
      KeptNone(b, c, end);
    }
  }

  lemma OnePage(b: Block, c: nat, t: Tally, kept: set<nat>, bits: set<nat>)
    requires c < |b.pages| && c !in kept && (Good(b.pages[c]) ==> c !in bits)
    requires t.info.bits == kept + bits && t.info.inUse == |t.info.bits|
    ensures var t' := Next(b, c, t); var kept' := if b.pages[c] == Kept then kept + {c} else kept;
      && t'.info.bits == kept' + bits && t'.info.inUse == |t'.info.bits| && t'.info.scanned == t.info.scanned
      && t'.free + t'.info.inUse == t.free + t.info.inUse + 1
  {
    if b.pages[c] == Kept {
      assert kept + {c} + bits == kept + bits + {c};
    }
  }

  lemma KeptOne(b: Block, c: nat, end: nat)
    requires c < end <= |b.pages|
    ensures c !in KeptFrom(b, c + 1, end)
    ensures KeptFrom(b, c, end) == if b.pages[c] == Kept then KeptFrom(b, c + 1, end) + {c} else KeptFrom(b, c + 1, end)
  {}

  lemma KeptNone(b: Block, c: nat, end: nat)
    requires c == end <= |b.pages|
    ensures KeptFrom(b, c, end) == {}
  {}

  /** The block is empty exactly if its first page is blank, and else the one being written exactly if it is the
      newest and another page is. */
  lemma {:induction false} TalliedState(b: Block, c: nat, end: nat, x: Info)
    requires c <= end <= |b.pages| && x.state == NeedsScan
    ensures var t := Tallied(b, c, end, x);
      && (t.found <==> !Clear(b, c, end)) && t.info.state in {NeedsScan, Empty, Allocating}
      && (t.info.state == Empty <==> c == 0 && Blank(b, 0, end))
      && (t.info.state == Allocating <==>
          b.newest && !(c == 0 && Blank(b, 0, end)) && exists p :: c <= p && 0 < p && Blank(b, p, end))
    decreases end - c
  {
    if c < end {
      TalliedState(b, c + 1, end, x);
      if c > 0 && Blank(b, c, end) {
        assert c <= c && 0 < c;
      }
    }
  }

  // ---------- Sums over blocks ----------

  /** What the count over all blocks adds up. */
  function Counted(g: Geometry, x: Info): int {
    if x.state in {Empty, Allocating, Full} then g.chunks - x.inUse else 0
  }

  /**
   * How far the scan of a block puts the counter off. With a summary the scan stops before the pages set aside, and
   * those that the summary does not need are not counted. Where a summary is refused, the chunks read are in use and
   * are counted as free as well.
   */
  function Off(g: Geometry, b: Block): int {
    if b.accepted then g.perSummary + g.need - g.chunks else b.read
  }

  ghost function CountedSum(g: Geometry, infos: seq<Info>): int {
    if infos == [] then 0 else Counted(g, infos[0]) + CountedSum(g, infos[1..])
  }

  ghost function OffSum(g: Geometry, flash: seq<Block>, infos: seq<Info>): int
    requires |flash| == |infos|
  {
    if infos == [] then 0
    else (if infos[0].scanned then Off(g, flash[0]) else 0) + OffSum(g, flash[1..], infos[1..])
  }

  ghost function Number(infos: seq<Info>, st: BlockState): nat {
    if infos == [] then 0 else (if infos[0].state == st then 1 else 0) + Number(infos[1..], st)
  }

  lemma {:induction false} SumUpdate(g: Geometry, flash: seq<Block>, infos: seq<Info>, i: nat, x: Info)
    requires |flash| == |infos| && i < |infos|
    ensures CountedSum(g, infos[i := x]) == CountedSum(g, infos) - Counted(g, infos[i]) + Counted(g, x)
    ensures OffSum(g, flash, infos[i := x]) == OffSum(g, flash, infos)
              - (if infos[i].scanned then Off(g, flash[i]) else 0) + (if x.scanned then Off(g, flash[i]) else 0)
  {
    hide Counted, Off;
    if i > 0 {
      assert infos[i := x][1..] == infos[1..][i - 1 := x];
      SumUpdate(g, flash[1..], infos[1..], i - 1, x);
    } else {
      assert infos[i := x][1..] == infos[1..];
    }
  }

  lemma {:induction false} NumberUpdate(infos: seq<Info>, st: BlockState, i: nat, x: Info)
    requires i < |infos|
    ensures Number(infos[i := x], st)
            == Number(infos, st) - (if infos[i].state == st then 1 else 0) + (if x.state == st then 1 else 0)
  {
    if i > 0 {
      assert infos[i := x][1..] == infos[1..][i - 1 := x];
      NumberUpdate(infos[1..], st, i - 1, x);
    } else {
      assert infos[i := x][1..] == infos[1..];
    }
  }

  lemma {:induction false} NumberNone(infos: seq<Info>, st: BlockState)
    requires forall i :: 0 <= i < |infos| ==> infos[i].state != st
    ensures Number(infos, st) == 0
  {
    if infos != [] {
      NumberNone(infos[1..], st);
    }
  }

  /** Summaries taken, and chunks read of summaries refused, over the blocks scanned. */
  ghost function Taken(flash: seq<Block>, infos: seq<Info>): nat
    requires |flash| == |infos|
  {
    if infos == [] then 0
    else (if infos[0].scanned && flash[0].accepted then 1 else 0) + Taken(flash[1..], infos[1..])
  }

  ghost function Refused(flash: seq<Block>, infos: seq<Info>): nat
    requires |flash| == |infos|
  {
    if infos == [] then 0
    else (if infos[0].scanned && !flash[0].accepted then flash[0].read else 0) + Refused(flash[1..], infos[1..])
  }

  /** By how much the counter is off: it is right exactly if the chunks read of summaries refused are as many as those
      left over by the summaries taken. */
  lemma {:induction false} OffIs(g: Geometry, flash: seq<Block>, infos: seq<Info>)
    requires |flash| == |infos|
    ensures OffSum(g, flash, infos)
            == Refused(flash, infos) - (g.chunks - g.perSummary - g.need) * Taken(flash, infos)
  {
    if infos != [] {
      OffIs(g, flash[1..], infos[1..]);
    }
  }

  /** With 256 chunks of 1024 bytes to a block four are set aside and the summary takes three, so that each summary
      taken loses a chunk. */
  lemma OneLeftOver()
    ensures Summary.ChunksUsed(256, 1024) == 4 && GeometryOf(256, 1024) == Geometry(256, 252, 3)
  {
    var tx := 1024 - Summary.HEADER_SIZE;
    Summary.PagesStep(3024, tx);
    Summary.PagesStep(2016, tx);
    Summary.PagesStep(1008, tx);
  }

  /** A block not scanned has no page in use. */
  predicate InfoOk(x: Info) {
    x.inUse == |x.bits| && (!x.scanned ==> x.inUse == 0) && (x.state in {NeedsScan, Checkpoint, Dead} ==> !x.scanned)
  }

  /** The counters as they should be, and the free chunks off by what summaries put them off. */
  ghost predicate Right(g: Geometry, flash: seq<Block>, infos: seq<Info>, nFree: int, nErased: int, inCheckpt: int) {
    && |infos| == |flash|
    && nFree == CountedSum(g, infos) + OffSum(g, flash, infos)
    && nErased == Number(infos, Empty) && inCheckpt == Number(infos, Checkpoint)
    && forall i :: 0 <= i < |infos| ==> InfoOk(infos[i])
  }

  /** One block changes, and the counters with it. */
  lemma RightUpdate(g: Geometry, flash: seq<Block>, infos: seq<Info>, nFree: int, nErased: int, inCheckpt: int,
                    i: nat, x: Info)
    requires Right(g, flash, infos, nFree, nErased, inCheckpt) && i < |infos| && InfoOk(x)
    ensures var y := infos[i];
      Right(g, flash, infos[i := x],
            nFree + Counted(g, x) - Counted(g, y) + (if x.scanned then Off(g, flash[i]) else 0)
              - (if y.scanned then Off(g, flash[i]) else 0),
            nErased + (if x.state == Empty then 1 else 0) - (if y.state == Empty then 1 else 0),
            inCheckpt + (if x.state == Checkpoint then 1 else 0) - (if y.state == Checkpoint then 1 else 0))
  {
    SumUpdate(g, flash, infos, i, x);
    NumberUpdate(infos, Empty, i, x);
    NumberUpdate(infos, Checkpoint, i, x);
    hide Counted, Off, CountedSum, OffSum, Number, InfoOk;
  }

  class Counter {
    const g: Geometry
    const flash: seq<Block>
    const info: array<Info>

    var nFree: int
    var nErased: int
    var inCheckpt: int
    var allocBlock: int

    ghost predicate Sized() {
      GeometryOk(g) && info.Length == |flash| && forall i :: 0 <= i < |flash| ==> BlockOk(g, flash[i])
    }

    ghost predicate Valid()
      reads this, info
    {
      && Sized() && Right(g, flash, info[..], nFree, nErased, inCheckpt)
      && -1 <= allocBlock < info.Length
      && forall i :: 0 <= i < info.Length && info[i].state == Allocating ==> i == allocBlock
    }

    /** What the counters are worth. */
    lemma CountersAre()
      requires Valid()
      ensures nFree == CountedSum(g, info[..]) + Refused(flash, info[..])
                - (g.chunks - g.perSummary - g.need) * Taken(flash, info[..])
      ensures nErased == Number(info[..], Empty) && inCheckpt == Number(info[..], Checkpoint)
      ensures forall i :: 0 <= i < info.Length ==> info[i].inUse == |info[i].bits|
    {
      OffIs(g, flash, info[..]);
      RightLengths();
    }

    /** The blocks as the driver tells their states: the numbers start with those that need no scan. */
    constructor (g: Geometry, flash: seq<Block>, states: seq<BlockState>)
      requires GeometryOk(g) && |states| == |flash| && forall i :: 0 <= i < |flash| ==> BlockOk(g, flash[i])
      requires forall i :: 0 <= i < |states| ==> states[i] in {NeedsScan, Empty, Checkpoint, Dead}
      ensures Valid() && this.g == g && this.flash == flash && allocBlock == -1
      ensures forall i :: 0 <= i < |states| ==> info[i].state == states[i] && info[i].inUse == 0
    {
      this.g, this.flash := g, flash;
      nFree, nErased, inCheckpt, allocBlock := 0, 0, 0, -1;
      info := new Info[|states|](_ => Info(Dead, 0, {}, false));
      new;
      hide Counted, Off;
      AllDead(info[..]);
      for blk := 0 to |states|
        invariant Valid() && allocBlock == -1
        invariant forall i :: 0 <= i < info.Length ==>
                    info[i] == Info(if i < blk then states[i] else Dead, 0, {}, false)
      {
        ghost var was := info[..];
        info[blk] := info[blk].(state := states[blk]);
        RightUpdate(g, flash, was, nFree, nErased, inCheckpt, blk, info[blk]);
        ByState(g, info[blk]);
        ByState(g, was[blk]);
        assert info[..] == was[blk := info[blk]];
        if states[blk] == Checkpoint {
          inCheckpt := inCheckpt + 1;
        } else if states[blk] == Empty {
          nErased := nErased + 1;
          nFree := nFree + g.chunks;
        }
      }
    }

    lemma AllDead(infos: seq<Info>)
      requires |infos| == |flash| && forall i :: 0 <= i < |infos| ==> infos[i] == Info(Dead, 0, {}, false)
      ensures Right(g, flash, infos, 0, 0, 0)
    {
      NumberNone(infos, Empty);
      NumberNone(infos, Checkpoint);
      DeadSums(g, flash, infos);
    }

    static lemma {:induction false} DeadSums(g: Geometry, flash: seq<Block>, infos: seq<Info>)
      requires |infos| == |flash| && forall i :: 0 <= i < |infos| ==> infos[i] == Info(Dead, 0, {}, false)
      ensures CountedSum(g, infos) == OffSum(g, flash, infos) == 0
    {
      if infos != [] {
        DeadSums(g, flash[1..], infos[1..]);
      }
    }

    static lemma ByState(g: Geometry, x: Info)
      ensures Counted(g, x) == if x.state in {Empty, Allocating, Full} then g.chunks - x.inUse else 0
    {}

    /** Reads the chunks of a block's summary until one fails; those read count as in use. */
    method SummaryRead(blk: nat) returns (available: bool)
      requires Sized() && blk < info.Length && info[blk] == Info(NeedsScan, 0, {}, false)
      modifies info
      ensures available == flash[blk].accepted && info[..] == old(info[..])[blk := info[blk]]
      ensures info[blk] == Info(NeedsScan, flash[blk].read, SumPages(flash[blk].read), false)
    {
      for i := 0 to flash[blk].read
        invariant info[..] == old(info[..])[blk := info[blk]]
        invariant info[blk] == Info(NeedsScan, i, SumPages(i), false)
      {
        info[blk] := info[blk].(bits := info[blk].bits + {g.perSummary + i}, inUse := info[blk].inUse + 1);
      }
      available := flash[blk].accepted;
    }

    /** The first `n` pages set aside for the summary. */
    ghost function SumPages(n: nat): set<nat> {
      if n == 0 then {} else SumPages(n - 1) + {g.perSummary + n - 1}
    }

    lemma {:induction false} SumPagesAre(n: nat)
      ensures |SumPages(n)| == n && forall p :: p in SumPages(n) <==> g.perSummary <= p < g.perSummary + n
    {
      if n > 0 {
        SumPagesAre(n - 1);
      }
    }

    /** Where the pages end that are scanned. */
    function ScanEnd(blk: nat): (end: nat)
      requires Sized() && blk < |flash|
      ensures end <= g.chunks == |flash[blk].pages|
    {
      assert BlockOk(g, flash[blk]);
      if flash[blk].accepted then g.perSummary else g.chunks
    }

    /** One page. */
    method ScanChunk(blk: nat, c: nat, foundChunks: bool, ghost free: nat) returns (found: bool)
      requires Sized() && blk < info.Length && c < |flash[blk].pages| && info[blk].state in {NeedsScan, Allocating}
      requires Good(flash[blk].pages[c]) ==> c !in info[blk].bits
      modifies this`nFree, this`nErased, this`allocBlock, info
      ensures info[..] == old(info[..])[blk := info[blk]]
      ensures var t := Next(flash[blk], c, Tally(old(info[blk]), foundChunks, free));
        info[blk] == t.info && found == t.found && nFree - old(nFree) == t.free - free
      ensures nErased == if info[blk].state == Empty then old(nErased) + 1 else old(nErased)
      ensures allocBlock == old(allocBlock) || (allocBlock == blk && flash[blk].newest)
      ensures info[blk].state == Allocating ==> allocBlock == blk || old(info[blk].state) == Allocating
    {
      found := foundChunks;
      match flash[blk].pages[c] {
        case Unused =>
          if foundChunks {
            // skipped because it failed the erased check
          } else if c == 0 {
            info[blk] := info[blk].(state := Empty);
            nErased := nErased + 1;
          } else if flash[blk].newest {
            info[blk] := info[blk].(state := Allocating);
            allocBlock := blk;
          }
          nFree := nFree + 1;
        case Ignored =>
          nFree := nFree + 1;
        case Kept =>
          found := true;
          info[blk] := info[blk].(bits := info[blk].bits + {c}, inUse := info[blk].inUse + 1);
        case Dropped =>
          found := true;
          info[blk] := info[blk].(bits := info[blk].bits + {c}, inUse := info[blk].inUse + 1);
          nFree := nFree + 1;
          info[blk] := info[blk].(bits := info[blk].bits - {c}, inUse := info[blk].inUse - 1);
      }
    }

    /** The pages that are scanned, last page first. */
    method ScanPages(blk: nat)
      requires Sized() && blk < info.Length && info[blk].state == NeedsScan && info[blk].inUse == |info[blk].bits|
      requires forall p :: 0 <= p < ScanEnd(blk) && Good(flash[blk].pages[p]) ==> p !in info[blk].bits
      modifies this`nFree, this`nErased, this`allocBlock, info
      ensures info[..] == old(info[..])[blk := info[blk]]
      ensures var t := Tallied(flash[blk], 0, ScanEnd(blk), old(info[blk]));
        info[blk] == t.info && nFree == old(nFree) + t.free
      ensures nErased == if info[blk].state == Empty then old(nErased) + 1 else old(nErased)
      ensures allocBlock == old(allocBlock) || (allocBlock == blk && flash[blk].newest)
      ensures info[blk].state == Allocating ==> allocBlock == blk
    {
      hide Next, Tallied, KeptFrom, Clear, Blank;
      var c := ScanEnd(blk);
      ghost var end, x := c, info[blk];
      ghost var t := TallyNone(flash[blk], end, x);
      var found := false;
      while c > 0 && info[blk].state in {NeedsScan, Allocating}
        invariant 0 <= c <= end && info[..] == old(info[..])[blk := info[blk]]
        invariant t == Tallied(flash[blk], c, end, x)
        invariant info[blk] == t.info && found == t.found && nFree == old(nFree) + t.free
        invariant info[blk].state in {NeedsScan, Allocating, Empty} && (info[blk].state == Empty ==> c == 0)
        invariant nErased == if info[blk].state == Empty then old(nErased) + 1 else old(nErased)
        invariant allocBlock == old(allocBlock) || (allocBlock == blk && flash[blk].newest)
        invariant info[blk].state == Allocating ==> allocBlock == blk
        decreases c
      {
        c := c - 1;
        TallyNext(flash[blk], c, end, x, t);
        found := ScanChunk(blk, c, found, t.free);
        t := Next(flash[blk], c, t);
      }
    }

    static lemma TallyNone(b: Block, end: nat, x: Info) returns (t: Tally)
      requires end <= |b.pages|
      ensures t == Tallied(b, end, end, x) == Tally(x, false, 0)
    {
      t := Tally(x, false, 0);
    }

    /** One page more, and what it may change. */
    static lemma TallyNext(b: Block, c: nat, end: nat, x: Info, t: Tally)
      requires c < end <= |b.pages| && t == Tallied(b, c + 1, end, x) && x.state == NeedsScan && x.inUse == |x.bits|
      requires forall p :: 0 <= p < end && Good(b.pages[p]) ==> p !in x.bits
      ensures Next(b, c, t) == Tallied(b, c, end, x)
      ensures Good(b.pages[c]) ==> c !in t.info.bits
      ensures var st := Next(b, c, t).info.state;
        st == t.info.state || (st == Empty && c == 0) || (st == Allocating && b.newest && c > 0)
    {
      TalliedPages(b, c + 1, end, x);
      TalliedState(b, c + 1, end, x);
    }

    /** A block scanned counts as the counter says. */
    lemma ScannedRight(was: seq<Info>, free: int, erased: int, blk: nat, x: Info, free': int)
      requires Sized() && Right(g, flash, was, free, erased, inCheckpt) && blk < |was| == |flash|
      requires was[blk] == Info(NeedsScan, 0, {}, false) && x.scanned && x.inUse == |x.bits|
      requires x.state in {Empty, Allocating, Full}
      requires free' == free + ScanEnd(blk) - (x.inUse - flash[blk].read)
      ensures Right(g, flash, was[blk := x], free', if x.state == Empty then erased + 1 else erased, inCheckpt)
    {
      hide Right;
      RightUpdate(g, flash, was, free, erased, inCheckpt, blk, x);
      assert BlockOk(g, flash[blk]);
    }

    /** All checkpoint blocks are erased, or given up for dead. */
    method CheckptErase()
      requires Valid()
      modifies this`nFree, this`nErased, this`inCheckpt, info
      ensures Valid() && inCheckpt == 0 && OnlyCheckpt(old(info[..]), info[..])
    {
      hide Right;
      ghost var left := inCheckpt;
      ghost var was := info[..];
      RightLengths();
      for i := 0 to info.Length
        invariant Right(g, flash, info[..], nFree, nErased, left)
        invariant OnlyCheckpt(was, info[..])
        invariant forall j :: 0 <= j < i ==> info[j].state != Checkpoint
      {
        if info[i].state == Checkpoint {
          ghost var infos, free, nGone := info[..], nFree, nErased;
          var erased: bool := *;
          if erased {
            info[i] := info[i].(state := Empty);
            nErased := nErased + 1;
            nFree := nFree + g.chunks;
          } else {
            info[i] := info[i].(state := Dead);
          }
          RightUpdate(g, flash, infos, free, nGone, left, i, info[i]);
          assert info[..] == infos[i := info[i]];
          left := left - 1;
        }
      }
      NoneLeft(left);
      inCheckpt := 0;
    }

    lemma NoneLeft(left: int)
      requires Right(g, flash, info[..], nFree, nErased, left)
      requires forall j :: 0 <= j < info.Length ==> info[j].state != Checkpoint
      ensures left == 0
    {
      NumberNone(info[..], Checkpoint);
    }

    /** As it was, or a checkpoint block that is empty or dead now. */
    ghost predicate SettledAs(x: Info, y: Info) {
      y == x || (x.state == Checkpoint && (y == x.(state := Empty) || y == x.(state := Dead)))
    }

    /** Only blocks of a checkpoint differ. */
    ghost predicate OnlyCheckpt(was: seq<Info>, now: seq<Info>) {
      |was| == |now| && forall i :: 0 <= i < |was| ==> SettledAs(was[i], now[i])
    }

    lemma RightLengths()
      requires Valid()
      ensures |flash| == info.Length && forall i :: 0 <= i < info.Length ==> InfoOk(info[i])
    {
      forall i | 0 <= i < info.Length
        ensures InfoOk(info[i])
      {
        assert InfoOk(info[..][i]);
      }
    }

    /** Erases a full block of which nothing is in use; one that cannot be erased is given up. */
    method BlockBecameDirty(blk: nat)
      requires Valid() && blk < info.Length && info[blk] == Info(Full, 0, {}, true) && Off(g, flash[blk]) == 0
      modifies this`nFree, this`nErased, this`inCheckpt, info
      ensures Valid() && info[blk] in {Info(Empty, 0, {}, false), Info(Dead, 0, {}, false)}
      ensures OnlyCheckpt(old(info[..]), info[..][blk := old(info[blk])])
    {
      hide Right;
      var erased, retiring: bool := false, *;
      if !retiring {
        if inCheckpt > 0 {
          CheckptErase();
        }
        erased := *;
      }
      ghost var was, free, nGone := info[..], nFree, nErased;
      if !erased {
        nFree := nFree - g.chunks;
        info[blk] := Info(Dead, 0, {}, false);
      } else {
        info[blk] := Info(Empty, 0, {}, false);
        nErased := nErased + 1;
      }
      RightUpdate(g, flash, was, free, nGone, inCheckpt, blk, info[blk]);
      assert info[..] == was[blk := info[blk]];
    }

    /** Whether the scan leaves nothing in use on a block. */
    ghost predicate NothingKept(blk: nat)
      requires Sized() && blk < |flash|
    {
      KeptFrom(flash[blk], 0, ScanEnd(blk)) == {} && flash[blk].read == 0 && !flash[blk].shrink
    }

    /** What the scan has made of a block. */
    ghost predicate ScannedTo(blk: nat, x: Info)
      requires Sized() && blk < |flash|
    {
      var b, end := flash[blk], ScanEnd(blk);
      if x.scanned
      then x.state in {Empty, Allocating, Full} && (x.state == Empty <==> Blank(b, 0, end))
           && x.bits == KeptFrom(b, 0, end) + SumPages(b.read)
           && (x.state == Full && x.bits == {} ==> b.shrink || b.newest) && (x.state == Allocating ==> b.newest)
      else x.state in {Empty, Dead} && NothingKept(blk) && !Blank(b, 0, end)
    }

    /** The block that goes on being written: the newest, if a page is blank but not the first. */
    ghost predicate BeingWritten(blk: nat)
      requires Sized() && blk < |flash|
    {
      var b, end := flash[blk], ScanEnd(blk);
      b.newest && !Blank(b, 0, end) && exists p :: 0 < p && Blank(b, p, end)
    }

    /** One block: its summary, its pages, and its erasure if nothing is in use. */
    method ScanBlock(blk: nat)
      requires Valid() && blk < info.Length && info[blk] == Info(NeedsScan, 0, {}, false)
      requires flash[blk].newest ==> allocBlock == -1
      modifies this`nFree, this`nErased, this`inCheckpt, this`allocBlock, info
      ensures Valid() && ScannedTo(blk, info[blk])
      ensures info[blk].state == Allocating <==> BeingWritten(blk)
      ensures info[blk].state == Full && info[blk].bits == {} ==> flash[blk].shrink
      ensures OnlyCheckpt(old(info[..]), info[..][blk := old(info[blk])])
      ensures allocBlock == old(allocBlock) || (allocBlock == blk && flash[blk].newest)
    {
      hide Right, KeptFrom, SumPages, Tallied, Blank, Clear;
      ghost var was, free, nGone := info[..], nFree, nErased;
      var available := SummaryRead(blk);
      SumPagesApart(blk);
      ScanWholeBlock(blk);
      if info[blk].state == NeedsScan {
        info[blk] := info[blk].(state := Full);
      }
      info[blk] := info[blk].(scanned := true);
      ScannedRight(was, free, nGone, blk, info[blk], nFree);
      assert info[..] == was[blk := info[blk]];
      if info[blk].inUse == 0 && !flash[blk].shrink && info[blk].state == Full {
        NothingIsOff(blk);
        ghost var x := info[blk];
        BlockBecameDirty(blk);
        OnlyCheckptBut(was, info[..], blk, x);
      } else {
        NothingInUse(blk);
      }
    }

    /** The pages set aside hold no good chunk where a summary is read from them. */
    lemma SumPagesApart(blk: nat)
      requires Sized() && blk < |flash|
      ensures |SumPages(flash[blk].read)| == flash[blk].read
      ensures forall p :: 0 <= p < ScanEnd(blk) && Good(flash[blk].pages[p]) ==> p !in SumPages(flash[blk].read)
    {
      SumPagesAre(flash[blk].read);
      assert BlockOk(g, flash[blk]);
    }

    lemma NothingInUse(blk: nat)
      requires blk < info.Length && info[blk].inUse == |info[blk].bits|
      ensures info[blk].bits == {} <==> info[blk].inUse == 0
    {}

    /** The scan of the pages, and what it comes to. */
    method ScanWholeBlock(blk: nat)
      requires Sized() && blk < info.Length
      requires info[blk] == Info(NeedsScan, flash[blk].read, SumPages(flash[blk].read), false)
      requires |SumPages(flash[blk].read)| == flash[blk].read
      requires forall p :: 0 <= p < ScanEnd(blk) && Good(flash[blk].pages[p]) ==> p !in SumPages(flash[blk].read)
      modifies this`nFree, this`nErased, this`allocBlock, info
      ensures info[..] == old(info[..])[blk := info[blk]] && !info[blk].scanned && info[blk].inUse == |info[blk].bits|
      ensures info[blk].bits == KeptFrom(flash[blk], 0, ScanEnd(blk)) + SumPages(flash[blk].read)
      ensures nFree == old(nFree) + ScanEnd(blk) - (info[blk].inUse - flash[blk].read)
      ensures info[blk].state in {NeedsScan, Allocating, Empty}
      ensures info[blk].state == Empty <==> Blank(flash[blk], 0, ScanEnd(blk))
      ensures info[blk].state == Allocating <==> BeingWritten(blk)
      ensures nErased == if info[blk].state == Empty then old(nErased) + 1 else old(nErased)
      ensures allocBlock == old(allocBlock) || (allocBlock == blk && flash[blk].newest)
      ensures info[blk].state == Allocating ==> allocBlock == blk
    {
      hide KeptFrom, SumPages, Tallied, Blank, Clear;
      ghost var x := info[blk];
      ScanPages(blk);
      TalliedPages(flash[blk], 0, ScanEnd(blk), x);
      TalliedState(flash[blk], 0, ScanEnd(blk), x);
    }

    lemma OnlyCheckptBut(was: seq<Info>, now: seq<Info>, blk: nat, x: Info)
      requires blk < |was| == |now| && OnlyCheckpt(was[blk := x], now[blk := x])
      ensures OnlyCheckpt(was, now[blk := was[blk]])
    {
      forall i | 0 <= i < |was| && i != blk
        ensures was[blk := x][i] == was[i] && now[blk := x][i] == now[i]
      {}
    }

    lemma NothingIsOff(blk: nat)
      requires Sized() && blk < info.Length && info[blk].inUse == 0 == |info[blk].bits|
      requires info[blk].bits == KeptFrom(flash[blk], 0, ScanEnd(blk)) + SumPages(flash[blk].read) && !flash[blk].shrink
      ensures info[blk].bits == {} && Off(g, flash[blk]) == 0 && NothingKept(blk)
    {
      SumPagesAre(flash[blk].read);
      assert BlockOk(g, flash[blk]);
      assert KeptFrom(flash[blk], 0, ScanEnd(blk)) == {} == SumPages(flash[blk].read);
    }

    lemma ScannedStates(blk: nat, x: Info)
      requires Sized() && blk < |flash| && ScannedTo(blk, x)
      ensures x.state in {Empty, Allocating, Full, Dead}
    {}

    lemma SkippedTo(blk: nat, x: Info, y: Info)
      requires Sized() && blk < |flash| && ScannedTo(blk, x)
      requires y == if x.state == Allocating then x.(state := Full) else x
      ensures ScannedTo(blk, y)
    {}

    /** What one block's scan does to the others. */
    lemma OthersSettle(was: seq<Info>, now: seq<Info>, blk: nat)
      requires blk < |was| == |now| && OnlyCheckpt(was, now[blk := was[blk]])
      ensures forall i :: 0 <= i < |was| && i != blk ==> SettledAs(was[i], now[i])
    {
      forall i | 0 <= i < |was| && i != blk
        ensures SettledAs(was[i], now[i])
      {
        assert now[blk := was[blk]][i] == now[i];
      }
    }

    /** Stops using a partly written block. */
    method SkipRestOfBlock()
      requires Valid()
      modifies this`allocBlock, info
      ensures Valid() && forall i :: 0 <= i < info.Length ==>
        info[i] == if old(info[i].state) == Allocating then old(info[i]).(state := Full) else old(info[i])
    {
      hide Right;
      if allocBlock >= 0 && info[allocBlock].state == Allocating {
        ghost var was := info[..];
        RightLengths();
        RightUpdate(g, flash, was, nFree, nErased, inCheckpt, allocBlock, was[allocBlock].(state := Full));
        info[allocBlock] := info[allocBlock].(state := Full);
        assert info[..] == was[allocBlock := info[allocBlock]];
        allocBlock := -1;
      }
    }

    /**
     * Scans the blocks that need it, the last in the list first. Afterwards the counters of erased and checkpoint
     * blocks are right, and that of free chunks is off by what OffIs says. A block is erased only if nothing on it is
     * kept, and else its pages in use are those kept and those of its summary.
     */
    method ScanBackwards(order: seq<nat>)
      requires Valid() && allocBlock == -1
      requires forall i :: 0 <= i < |order| ==> order[i] < info.Length && info[order[i]] == Info(NeedsScan, 0, {}, false)
      requires forall i, j :: 0 <= i < j < |order| ==> order[i] != order[j]
      requires forall i, j :: 0 <= i < j < |order| && flash[order[i]].newest ==> !flash[order[j]].newest
      modifies this`nFree, this`nErased, this`inCheckpt, this`allocBlock, info
      ensures Valid() && forall i :: 0 <= i < info.Length ==> info[i].state != Allocating
      ensures forall i :: 0 <= i < |order| ==> ScannedTo(order[i], info[order[i]])
      ensures forall b :: 0 <= b < info.Length && b !in order ==> SettledAs(old(info[b]), info[b])
    {
      hide Right, ScannedTo;
      ghost var was := info[..];
      var k := |order|;
      while k > 0
        invariant 0 <= k <= |order| && Valid()
        invariant forall i :: 0 <= i < k && flash[order[i]].newest ==> allocBlock == -1
        invariant forall i :: 0 <= i < k ==> info[order[i]] == Info(NeedsScan, 0, {}, false)
        invariant forall i :: k <= i < |order| ==> ScannedTo(order[i], info[order[i]])
        invariant forall b :: 0 <= b < info.Length && b !in order ==> SettledAs(was[b], info[b])
      {
        k := k - 1;
        ghost var before := info[..];
        forall i | k < i < |order|
          ensures before[order[i]].state != Checkpoint
        {
          ScannedStates(order[i], info[order[i]]);
        }
        ScanBlock(order[k]);
        OthersSettle(before, info[..], order[k]);
      }
      ghost var before := info[..];
      SkipRestOfBlock();
      forall i | 0 <= i < |order|
        ensures ScannedTo(order[i], info[order[i]])
      {
        SkippedTo(order[i], before[order[i]], info[order[i]]);
      }
    }
  }
}
