/** Extended attributes: records of names and values packed into a small buffer. */
module NameVal {
  import opened Words

  type Name = s: seq<Byte> | forall i :: 0 <= i < |s| ==> s[i] != 0 witness []

  datatype Rec = Rec(name: Name, value: seq<Byte>)

  /** A record's size counts the four bytes of the size itself and the zero after the name. */
  function Size(r: Rec): nat {
    4 + |r.name| + 1 + |r.value|
  }

  /** A size as its four bytes, in the byte order of the flash. */
  function SizeBytes(n: U32, swap: bool): Four {
    Split(if swap then Swap(n) else n)
  }

  /** Four bytes read as a signed size. */
  function SizeOf(s: Four, swap: bool): int {
    var w := if swap then Swap(Join(s)) else Join(s);
    if w >= 0x8000_0000 then w - 0x1_0000_0000 else w
  }

  lemma SizeRoundTrip(n: U32, swap: bool)
    requires n < 0x8000_0000
    ensures SizeOf(SizeBytes(n, swap), swap) == n
  {
    SplitJoin(n);
    SplitJoin(Swap(n));
    SwapSwap(n);
  }

  lemma ZeroSize(swap: bool)
    ensures SizeOf([0, 0, 0, 0], swap) == 0
  {}

  function Packed(r: Rec, swap: bool): (s: seq<Byte>)
    requires Size(r) < 0x8000_0000
    ensures |s| == Size(r)
  {
    SizeBytes(Size(r), swap) + r.name + [0] + r.value
  }

  ghost function Extent(recs: seq<Rec>): nat {
    if recs == [] then 0 else Size(recs[0]) + Extent(recs[1..])
  }

  ghost function Pack(recs: seq<Rec>, swap: bool): (s: seq<Byte>)
    requires Extent(recs) < 0x8000_0000
    ensures |s| == Extent(recs)
  {
    if recs == [] then [] else Packed(recs[0], swap) + Pack(recs[1..], swap)
  }

  lemma {:induction false} TotalSplit(a: seq<Rec>, b: seq<Rec>)
    ensures Extent(a + b) == Extent(a) + Extent(b)
  {
    if a == [] {
      assert a + b == b;
    } else {
      assert (a + b)[1..] == a[1..] + b;
      TotalSplit(a[1..], b);
    }
  }

  lemma {:induction false} PackSplit(a: seq<Rec>, b: seq<Rec>, swap: bool)
    requires Extent(a) + Extent(b) < 0x8000_0000
    ensures Extent(a + b) == Extent(a) + Extent(b) && Pack(a + b, swap) == Pack(a, swap) + Pack(b, swap)
  {
    TotalSplit(a, b);
    hide Packed;
    if a == [] {
      assert a + b == b;
    } else {
      assert (a + b)[1..] == a[1..] + b;
      PackSplit(a[1..], b, swap);
    }
  }

  ghost predicate Distinct(recs: seq<Rec>) {
    forall i, j :: 0 <= i < j < |recs| ==> recs[i].name != recs[j].name
  }

  /** The place of a name among the records; their number if it is not there. */
  ghost function Place(recs: seq<Rec>, name: Name): (k: nat)
    ensures k <= |recs|
    ensures forall i :: 0 <= i < k ==> recs[i].name != name
    ensures k < |recs| ==> recs[k].name == name
  {
    if recs == [] then 0 else if recs[0].name == name then 0 else 1 + Place(recs[1..], name)
  }

  /** The records as a map. */
  ghost function Values(recs: seq<Rec>): map<Name, seq<Byte>>
    requires Distinct(recs)
  {
    map i | 0 <= i < |recs| :: recs[i].name := recs[i].value
  }

  ghost function Without(recs: seq<Rec>, k: nat): seq<Rec>
    requires k < |recs|
  {
    recs[..k] + recs[k + 1..]
  }

  lemma Member(recs: seq<Rec>, i: nat)
    requires Distinct(recs) && i < |recs|
    ensures recs[i].name in Values(recs) && Values(recs)[recs[i].name] == recs[i].value
  {}

  lemma OnlyMembers(recs: seq<Rec>, x: Name) returns (i: nat)
    requires Distinct(recs) && x in Values(recs)
    ensures i < |recs| && recs[i].name == x
  {
    i :| 0 <= i < |recs| && recs[i].name == x;
  }

  lemma WithoutTotal(recs: seq<Rec>, k: nat)
    requires k < |recs|
    ensures Extent(Without(recs, k)) == Extent(recs) - Size(recs[k])
  {
    hide Extent, Size;
    SplitAt(recs, k);
    TotalSplit(recs[..k], recs[k + 1..]);
  }

  lemma WithoutAt(recs: seq<Rec>, k: nat)
    requires k < |recs|
    ensures |Without(recs, k)| == |recs| - 1
    ensures forall i :: 0 <= i < |recs| - 1 ==> Without(recs, k)[i] == recs[if i < k then i else i + 1]
  {}

  /** Leaving out a record takes its name out of the map. */
  lemma WithoutValues(recs: seq<Rec>, k: nat)
    requires Distinct(recs) && k < |recs|
    ensures Distinct(Without(recs, k)) && Values(Without(recs, k)) == Values(recs) - {recs[k].name}
  {
    hide Values, Without;
    var w := Without(recs, k);
    WithoutAt(recs, k);
    forall x
      ensures x in Values(w) <==> x in Values(recs) && x != recs[k].name
      ensures x in Values(w) ==> Values(w)[x] == Values(recs)[x]
    {
      WithoutValue(recs, w, k, x);
    }
  }

  lemma WithoutValue(recs: seq<Rec>, w: seq<Rec>, k: nat, x: Name)
    requires Distinct(recs) && Distinct(w) && k < |recs| && |w| == |recs| - 1
    requires forall i :: 0 <= i < |w| ==> w[i] == recs[if i < k then i else i + 1]
    ensures x in Values(w) <==> x in Values(recs) && x != recs[k].name
    ensures x in Values(w) ==> Values(w)[x] == Values(recs)[x]
  {
    hide Values;
    if x in Values(w) {
      var i := OnlyMembers(w, x);
      Member(w, i);
      Member(recs, if i < k then i else i + 1);
    } else if x in Values(recs) && x != recs[k].name {
      var i := OnlyMembers(recs, x);
      Member(w, if i < k then i else i - 1);
    }
  }

  /** A record more, of a new name, is an entry more in the map. */
  lemma AppendValues(recs: seq<Rec>, r: Rec)
    requires Distinct(recs) && r.name !in Values(recs)
    ensures Distinct(recs + [r]) && Values(recs + [r]) == Values(recs)[r.name := r.value]
  {
    var w := recs + [r];
    forall i | 0 <= i < |recs|
      ensures recs[i].name != r.name
    {
      Member(recs, i);
    }
    hide Values;
    assert w[|recs|] == r && forall i :: 0 <= i < |recs| ==> w[i] == recs[i];
    Member(w, |recs|);
    forall x
      ensures x in Values(w) <==> x in Values(recs) || x == r.name
      ensures x in Values(recs) ==> x in Values(w) && Values(w)[x] == Values(recs)[x]
    {
      if x in Values(w) {
        var i := OnlyMembers(w, x);
        if i < |recs| {
          Member(recs, i);
        }
      }
      if x in Values(recs) {
        var i := OnlyMembers(recs, x);
        Member(w, i);
        Member(recs, i);
      }
    }
  }

  /** One record out of the map and another, of a new name, in. */
  lemma BackValues(recs: seq<Rec>, k: nat, r: Rec)
    requires Distinct(recs) && k < |recs| && r.name !in Values(recs)
    ensures Distinct(recs + [r]) && Distinct(Without(recs, k) + [r])
    ensures Values(Without(recs, k) + [r]) == Values(recs + [r]) - {recs[k].name}
  {
    hide Values, Without, Distinct;
    Member(recs, k);
    WithoutValues(recs, k);
    AppendValues(recs, r);
    AppendValues(Without(recs, k), r);
    InAndOut(Values(recs), recs[k].name, r.name, r.value);
  }

  lemma InAndOut(m: map<Name, seq<Byte>>, x: Name, y: Name, z: seq<Byte>)
    requires x != y
    ensures (m - {x})[y := z] == m[y := z] - {x}
  {}

  lemma {:induction false} PlaceIs(recs: seq<Rec>, name: Name, k: nat)
    requires k <= |recs| && (forall i :: 0 <= i < k ==> recs[i].name != name)
    requires k < |recs| ==> recs[k].name == name
    ensures Place(recs, name) == k
  {
    var j := Place(recs, name);
  }

  lemma PlaceIsMember(recs: seq<Rec>, name: Name)
    requires Distinct(recs)
    ensures Place(recs, name) < |recs| <==> name in Values(recs)
    ensures Place(recs, name) < |recs| ==> Values(recs)[name] == recs[Place(recs, name)].value
  {
    var k := Place(recs, name);
    if k < |recs| {
      Member(recs, k);
    } else if name in Values(recs) {
      var i := OnlyMembers(recs, name);
    }
    hide Values;
  }

  /** What follows the records does not read as a record, not even when the rest is shifted down
      and zeros come after it. */
  predicate Stops(tail: seq<Byte>, swap: bool) {
    if |tail| >= 4 then SizeOf(tail[..4], swap) <= 0 else forall i :: 0 <= i < |tail| ==> tail[i] == 0
  }

  /** The buffer starts with these records. */
  ghost predicate Packs(xb: seq<Byte>, recs: seq<Rec>, swap: bool) {
    Distinct(recs) && Extent(recs) <= |xb| < 0x8000_0000 && |xb| >= 4 && xb[..Extent(recs)] == Pack(recs, swap)
    && (recs != [] ==> Extent(recs) < |xb|)
  }

  /** The buffer holds these records, and then something that stops the walk. */
  ghost predicate Holds(xb: seq<Byte>, recs: seq<Rec>, swap: bool) {
    Packs(xb, recs, swap) && Stops(xb[Extent(recs)..], swap)
  }

  /** The walk ends behind these records: what it may read there is no size, or one too large. */
  ghost predicate Shows(xb: seq<Byte>, recs: seq<Rec>, swap: bool) {
    Packs(xb, recs, swap)
    && var pos := Extent(recs);
       recs == [] || pos < |xb| - 4 ==> var z := SizeOf(xb[pos..pos + 4], swap); z <= 0 || pos + z >= |xb|
  }

  lemma HoldsShows(xb: seq<Byte>, recs: seq<Rec>, swap: bool)
    requires Holds(xb, recs, swap)
    ensures Shows(xb, recs, swap)
  {
    hide Pack, Distinct, SizeOf;
    var pos := Extent(recs);
    if recs == [] || pos < |xb| - 4 {
      assert xb[pos..][..4] == xb[pos..pos + 4];
    }
  }

  /** These records, and behind them one that ends where the buffer ends: the walk does not see it. */
  ghost predicate Hides(xb: seq<Byte>, recs: seq<Rec>, r: Rec, swap: bool) {
    && Packs(xb, recs, swap) && r.name !in Values(recs)
    && Extent(recs) + Size(r) == |xb| && xb[Extent(recs)..] == Packed(r, swap)
  }

  lemma HidesShows(xb: seq<Byte>, recs: seq<Rec>, r: Rec, swap: bool)
    requires Hides(xb, recs, r, swap)
    ensures Shows(xb, recs, swap)
  {
    var pos := Extent(recs);
    hide Values, Pack, Distinct;
    assert xb[pos..pos + Size(r)] == xb[pos..];
    SizeRead(xb, pos, r, swap);
    hide Packed, SizeOf;
  }

  lemma SplitAt(recs: seq<Rec>, k: nat)
    requires k < |recs|
    ensures recs == recs[..k] + [recs[k]] + recs[k + 1..]
    ensures Extent(recs[..k + 1]) == Extent(recs[..k]) + Size(recs[k])
    ensures Extent(recs) == Extent(recs[..k]) + Size(recs[k]) + Extent(recs[k + 1..])
  {
    hide Extent, Size;
    var r, a, b := recs[k], recs[..k], recs[k + 1..];
    assert recs[..k + 1] == a + [r] && recs == a + [r] + b;
    OneTotal(r);
    TotalSplit(a, [r]);
    TotalSplit(a + [r], b);
  }

  lemma OneTotal(r: Rec)
    ensures Extent([r]) == Size(r)
  {}

  lemma PackAt(recs: seq<Rec>, swap: bool, k: nat)
    requires k < |recs| && Extent(recs) < 0x8000_0000
    ensures Extent(recs[..k]) + Size(recs[k]) + Extent(recs[k + 1..]) == Extent(recs)
    ensures Pack(recs, swap) == Pack(recs[..k], swap) + Packed(recs[k], swap) + Pack(recs[k + 1..], swap)
  {
    var r, a, b := recs[k], recs[..k], recs[k + 1..];
    SplitAt(recs, k);
    TotalSplit(a, [r]);
    PackSplit(a + [r], b, swap);
    PackSplit(a, [r], swap);
    OnePacked(r, swap);
  }

  lemma OnePacked(r: Rec, swap: bool)
    requires Size(r) < 0x8000_0000
    ensures Extent([r]) == Size(r) && Pack([r], swap) == Packed(r, swap)
  {
    assert Pack([r], swap) == Packed(r, swap) + Pack([], swap);
  }

  /** Where record `k` lies. */
  lemma RecordAt(xb: seq<Byte>, recs: seq<Rec>, swap: bool, k: nat)
    requires Packs(xb, recs, swap) && k < |recs|
    ensures var pos := Extent(recs[..k]);
      Extent(recs[..k + 1]) == pos + Size(recs[k]) && pos + Size(recs[k]) <= Extent(recs)
      && xb[pos..pos + Size(recs[k])] == Packed(recs[k], swap)
  {
    hide Pack, Packed, Extent, Distinct, Size;
    SplitAt(recs, k);
    PackAt(recs, swap, k);
    Middle(xb, Pack(recs[..k], swap), Packed(recs[k], swap), Pack(recs[k + 1..], swap));
  }

  lemma Middle(xb: seq<Byte>, a: seq<Byte>, b: seq<Byte>, c: seq<Byte>)
    requires |a| + |b| + |c| <= |xb| && xb[..|a| + |b| + |c|] == a + b + c
    ensures xb[|a|..|a| + |b|] == b && xb[..|a|] == a && xb[|a| + |b|..|a| + |b| + |c|] == c
  {
    var n := |a| + |b| + |c|;
    assert xb[|a|..|a| + |b|] == xb[..n][|a|..|a| + |b|];
    assert xb[..|a|] == xb[..n][..|a|];
    assert xb[|a| + |b|..n] == xb[..n][|a| + |b|..];
  }

  lemma SizeRead(xb: seq<Byte>, pos: nat, r: Rec, swap: bool)
    requires Size(r) < 0x8000_0000 && pos + Size(r) <= |xb| && xb[pos..pos + Size(r)] == Packed(r, swap)
    ensures SizeOf(xb[pos..pos + 4], swap) == Size(r)
  {
    SizeRoundTrip(Size(r), swap);
    assert xb[pos..pos + 4] == xb[pos..pos + Size(r)][..4];
    assert Packed(r, swap)[..4] == SizeBytes(Size(r), swap);
  }

  function Zeros(n: nat): (s: seq<Byte>)
    ensures |s| == n
  {
    seq(n, i => 0)
  }

  /** Bytes shifted down over the middle ones, and the end cleared. */
  lemma CutOut(was: seq<Byte>, p: seq<Byte>, m: seq<Byte>, q: seq<Byte>, mid: seq<Byte>, now: seq<Byte>)
    requires was == p + m + q
    requires mid == was[..|p|] + was[|p| + |m|..] + was[|was| - |m|..]
    requires now == mid[..|was| - |m|] + Zeros(|m|) + mid[|was|..]
    ensures now == p + q + Zeros(|m|)
  {
    assert was[..|p|] == p && was[|p| + |m|..] == q;
    assert mid[..|was| - |m|] == p + q;
  }

  /** The buffer after a record has been shifted out and the end cleared: what came behind the records
      has moved down, and zeros come behind it. */
  lemma Moved(was: seq<Byte>, mid: seq<Byte>, now: seq<Byte>, recs: seq<Rec>, swap: bool, k: nat, pos: nat, n: nat)
    requires Packs(was, recs, swap) && k < |recs| && pos == Extent(recs[..k]) && n == Size(recs[k])
    requires pos + n <= |was| && mid == was[..pos] + was[pos + n..] + was[|was| - n..]
    requires now == mid[..|was| - n] + Zeros(n) + mid[|was|..]
    ensures var w := Without(recs, k);
      Distinct(w) && Extent(w) == Extent(recs) - n && |now| == |was| < 0x8000_0000 && |now| >= 4
      && now == Pack(w, swap) + (was[Extent(recs)..] + Zeros(n))
  {
    hide Pack, Packed, Extent, Distinct, Size, SizeOf, Values, Packs, Zeros, Without;
    PacksIs(was, recs, swap);
    var p, m, q, w := PackAround(recs, swap, k);
    SameSize(was, mid, now, pos, n);
    CutOutOf(was, p, m, q, was[Extent(recs)..], mid, now);
  }

  /** Shifting a record out leaves the others. */
  lemma Deleted(was: seq<Byte>, mid: seq<Byte>, now: seq<Byte>, recs: seq<Rec>, swap: bool, k: nat, pos: nat, n: nat)
    requires Holds(was, recs, swap) && k < |recs| && pos == Extent(recs[..k]) && n == Size(recs[k])
    requires pos + n <= |was| && mid == was[..pos] + was[pos + n..] + was[|was| - n..]
    requires now == mid[..|was| - n] + Zeros(n) + mid[|was|..]
    ensures Holds(now, Without(recs, k), swap)
  {
    hide Pack, Packed, Extent, Distinct, Size, SizeOf, Values, Packs, Stops, Zeros, Without;
    Moved(was, mid, now, recs, swap, k, pos, n);
    var tail := was[Extent(recs)..];
    SizeAtLeast(recs[k]);
    StopsLonger(tail, n, swap);
    hide Holds;
    MakeHolds(now, Without(recs, k), swap, tail + Zeros(n));
  }

  /** Shifting a record out brings back the one that was not seen. */
  lemma DeletedShows(was: seq<Byte>, mid: seq<Byte>, now: seq<Byte>, recs: seq<Rec>, r: Rec, swap: bool, k: nat,
                     pos: nat, n: nat)
    requires Hides(was, recs, r, swap) && k < |recs| && pos == Extent(recs[..k]) && n == Size(recs[k])
    requires pos + n <= |was| && mid == was[..pos] + was[pos + n..] + was[|was| - n..]
    requires now == mid[..|was| - n] + Zeros(n) + mid[|was|..]
    ensures Holds(now, Without(recs, k) + [r], swap)
  {
    hide Pack, Packed, Extent, Distinct, Size, SizeOf, Values, Packs, Stops, Zeros, Without;
    HidesIs(was, recs, r, swap);
    hide Hides;
    Moved(was, mid, now, recs, swap, k, pos, n);
    var w, tail := Without(recs, k), Packed(r, swap);
    WithoutValues(recs, k);
    AppendValues(w, r);
    TotalSplit(w, [r]);
    OnePacked(r, swap);
    PackSplit(w, [r], swap);
    SizeAtLeast(recs[k]);
    ManyZerosStop(n, swap);
    assert now == Pack(w + [r], swap) + Zeros(n);
    MakeHolds(now, w + [r], swap, Zeros(n));
  }

  lemma ManyZerosStop(n: nat, swap: bool)
    requires n >= 4
    ensures Stops(Zeros(n), swap) && Zeros(n) != []
  {
    assert Zeros(n)[..4] == [0, 0, 0, 0];
    ZeroSize(swap);
  }

  lemma SizeAtLeast(r: Rec)
    ensures Size(r) >= 5
  {}

  lemma CutOutOf(was: seq<Byte>, p: seq<Byte>, m: seq<Byte>, q: seq<Byte>, tail: seq<Byte>, mid: seq<Byte>,
                 now: seq<Byte>)
    requires was == p + m + q + tail
    requires mid == was[..|p|] + was[|p| + |m|..] + was[|was| - |m|..]
    requires now == mid[..|was| - |m|] + Zeros(|m|) + mid[|was|..]
    ensures now == p + q + (tail + Zeros(|m|))
  {
    hide Zeros;
    JoinAll(p, m, q, tail);
    CutOut(was, p, m, q + tail, mid, now);
    assert p + (q + tail) + Zeros(|m|) == p + q + (tail + Zeros(|m|));
  }

  lemma SameSize(was: seq<Byte>, mid: seq<Byte>, now: seq<Byte>, pos: nat, n: nat)
    requires pos + n <= |was| && mid == was[..pos] + was[pos + n..] + was[|was| - n..]
    requires now == mid[..|was| - n] + Zeros(n) + mid[|was|..]
    ensures |now| == |was|
  {}

  lemma JoinAll(a: seq<Byte>, b: seq<Byte>, c: seq<Byte>, d: seq<Byte>)
    ensures a + b + c + d == a + b + (c + d)
  {}

  /** The records before, at and after place `k`, and what is left without it. */
  lemma PackAround(recs: seq<Rec>, swap: bool, k: nat) returns (p: seq<Byte>, m: seq<Byte>, q: seq<Byte>, w: seq<Rec>)
    requires Distinct(recs) && k < |recs| && Extent(recs) < 0x8000_0000
    ensures Pack(recs, swap) == p + m + q && |p| == Extent(recs[..k]) && |m| == Size(recs[k])
    ensures w == Without(recs, k) && Distinct(w) && Extent(w) == Extent(recs) - Size(recs[k])
    ensures Extent(w) < 0x8000_0000 && Pack(w, swap) == p + q
  {
    hide Pack, Packed, Distinct, Values;
    SplitAt(recs, k);
    PackAt(recs, swap, k);
    WithoutTotal(recs, k);
    WithoutValues(recs, k);
    hide Extent, Size;
    PackSplit(recs[..k], recs[k + 1..], swap);
    p, m, q := Pack(recs[..k], swap), Packed(recs[k], swap), Pack(recs[k + 1..], swap);
    w := Without(recs, k);
  }

  lemma StopsLonger(tail: seq<Byte>, n: nat, swap: bool)
    requires Stops(tail, swap) && n >= 4
    ensures |tail + Zeros(n)| >= 4 && Stops(tail + Zeros(n), swap)
  {
    var t := tail + Zeros(n);
    if |tail| >= 4 {
      assert t[..4] == tail[..4];
    } else {
      assert t[..4] == [0, 0, 0, 0];
      ZeroSize(swap);
    }
  }

  lemma HoldsIs(xb: seq<Byte>, recs: seq<Rec>, swap: bool)
    requires Holds(xb, recs, swap)
    ensures Distinct(recs) && Extent(recs) <= |xb| < 0x8000_0000 && |xb| >= 4
    ensures xb == Pack(recs, swap) + xb[Extent(recs)..] && Stops(xb[Extent(recs)..], swap)
  {
    hide Pack, Extent, Stops, Distinct;
    assert xb == xb[..Extent(recs)] + xb[Extent(recs)..];
  }

  lemma PacksIs(xb: seq<Byte>, recs: seq<Rec>, swap: bool)
    requires Packs(xb, recs, swap)
    ensures Distinct(recs) && Extent(recs) <= |xb| < 0x8000_0000 && |xb| >= 4
    ensures xb == Pack(recs, swap) + xb[Extent(recs)..]
  {
    hide Pack, Extent, Distinct;
    assert xb == xb[..Extent(recs)] + xb[Extent(recs)..];
  }

  lemma HidesIs(xb: seq<Byte>, recs: seq<Rec>, r: Rec, swap: bool)
    requires Hides(xb, recs, r, swap)
    ensures Packs(xb, recs, swap) && Distinct(recs) && r.name !in Values(recs)
    ensures Extent(recs) + Size(r) == |xb| < 0x8000_0000 && xb[Extent(recs)..] == Packed(r, swap)
  {}

  lemma MakeHolds(xb: seq<Byte>, recs: seq<Rec>, swap: bool, tail: seq<Byte>)
    requires Distinct(recs) && Extent(recs) < 0x8000_0000 && 4 <= |xb| < 0x8000_0000
    requires xb == Pack(recs, swap) + tail && tail != []
    ensures Stops(tail, swap) ==> Holds(xb, recs, swap)
  {
    hide Pack, Extent, Distinct;
    assert xb[..Extent(recs)] == Pack(recs, swap) && xb[Extent(recs)..] == tail;
  }

  /** Bytes written over others from `at` on. */
  function Over(s: seq<Byte>, at: nat, bytes: seq<Byte>): seq<Byte>
    requires at + |bytes| <= |s|
  {
    s[..at] + bytes + s[at + |bytes|..]
  }

  /** What the three writes of a new record make of the bytes from `at` on. */
  lemma Composed(was: seq<Byte>, x1: seq<Byte>, x2: seq<Byte>, x3: seq<Byte>, at: nat, head: seq<Byte>, name: seq<Byte>,
                 value: seq<Byte>, n: nat)
    requires |head| == 4 && n == 4 + |name| + 1 + |value| && at + n + 4 <= |was|
    requires x1 == Over(was, at, head) && |x1| == |was|
    requires x2 == Over(x1, at + 4, name + Zeros(n - |name|)) && |x2| == |was|
    requires x3 == Over(x2, at + 4 + |name| + 1, value)
    ensures x3 == was[..at] + (head + name + [0] + value) + (Zeros(4) + was[at + n + 4..])
  {
    ComposedZeros(|value|);
  }

  lemma ComposedZeros(n: nat)
    ensures Zeros(5 + n) == [0] + Zeros(n) + Zeros(4)
  {}

  /** The first `left` bytes of four zeros and more stop the walk. */
  lemma ZerosStop(more: seq<Byte>, left: nat, swap: bool)
    requires left <= 4 + |more|
    ensures Stops((Zeros(4) + more)[..left], swap)
  {
    ZeroSize(swap);
    var t := (Zeros(4) + more)[..left];
    if left >= 4 {
      assert t[..4] == [0, 0, 0, 0];
    }
  }

  /** A record written after the others, and four zeros after it, as far as the buffer goes. */
  lemma Appended(was: seq<Byte>, now: seq<Byte>, recs: seq<Rec>, r: Rec, swap: bool, more: seq<Byte>)
    requires Packs(was, recs, swap) && r.name !in Values(recs) && Extent(recs) + Size(r) <= |was|
    requires |was| - Extent(recs) - Size(r) <= 4 + |more|
    requires now == was[..Extent(recs)] + Packed(r, swap) + (Zeros(4) + more)[..|was| - Extent(recs) - Size(r)]
    ensures Extent(recs) + Size(r) < |was| ==> Holds(now, recs + [r], swap)
    ensures Extent(recs) + Size(r) == |was| ==> Hides(now, recs, r, swap)
  {
    AppendValues(recs, r);
    hide Pack, Packed, Extent, Distinct, Size, Values, SizeOf, Stops, Holds, Hides, Packs, Zeros;
    var left := |was| - Extent(recs) - Size(r);
    var tail := (Zeros(4) + more)[..left];
    if left > 0 {
      AppendedHolds(was, now, recs, r, swap, tail);
      ZerosStop(more, left, swap);
    } else {
      assert now == was[..Extent(recs)] + Packed(r, swap);
      AppendedLost(was, now, recs, r, swap);
    }
  }

  lemma AppendedHolds(was: seq<Byte>, now: seq<Byte>, recs: seq<Rec>, r: Rec, swap: bool, tail: seq<Byte>)
    requires Packs(was, recs, swap) && Distinct(recs + [r]) && Extent(recs) + Size(r) + |tail| == |was| && tail != []
    requires now == was[..Extent(recs)] + Packed(r, swap) + tail
    ensures Stops(tail, swap) ==> Holds(now, recs + [r], swap)
  {
    hide Pack, Packed, Extent, Distinct, Size, SizeOf, Stops, Holds;
    TotalSplit(recs, [r]);
    OnePacked(r, swap);
    PackSplit(recs, [r], swap);
    assert was[..Extent(recs)] == Pack(recs, swap);
    MakeHolds(now, recs + [r], swap, tail);
  }

  /** A record that ends where the buffer ends is not seen by the walk. */
  lemma AppendedLost(was: seq<Byte>, now: seq<Byte>, recs: seq<Rec>, r: Rec, swap: bool)
    requires Packs(was, recs, swap) && r.name !in Values(recs) && Extent(recs) + Size(r) == |was|
    requires now == was[..Extent(recs)] + Packed(r, swap)
    ensures Hides(now, recs, r, swap)
  {
    var pos := Extent(recs);
    assert Size(r) > 0 && |now| == |was| && now[..pos] == was[..pos] && now[pos..] == Packed(r, swap);
    hide Pack, Packed, Extent, Distinct, Size, Values;
  }

  /** Nor is one that would end behind the buffer. */
  lemma AppendedCut(was: seq<Byte>, now: seq<Byte>, recs: seq<Rec>, r: Rec, swap: bool, room: nat)
    requires Packs(was, recs, swap) && Extent(recs) + room == |was| && 4 < room < Size(r) < 0x8000_0000
    requires now == was[..Extent(recs)] + Packed(r, swap)[..room]
    ensures Shows(now, recs, swap)
  {
    var pos := Extent(recs);
    assert |now| == |was| && now[..pos] == was[..pos];
    assert now[pos..pos + 4] == Packed(r, swap)[..4] == SizeBytes(Size(r), swap);
    SizeRoundTrip(Size(r), swap);
    hide Pack, Packed, Extent, Distinct, SizeOf, SizeBytes;
  }

  /** The buffer after the three writes of a record, and what comes behind it. */
  lemma AppendedBytes(was: seq<Byte>, x1: seq<Byte>, x2: seq<Byte>, x3: seq<Byte>, at: nat, r: Rec, recs: seq<Rec>,
                      swap: bool, size: nat)
    requires size + 4 <= |was| && Packs(was[..size], recs, swap) && r.name !in Values(recs) && at == Extent(recs)
    requires at + Size(r) + 4 <= |was| && (at + Size(r) > size ==> at + 4 < size && Size(r) < 0x8000_0000)
    requires x1 == Over(was, at, SizeBytes(Size(r), swap)) && |x1| == |was|
    requires x2 == Over(x1, at + 4, r.name + Zeros(Size(r) - |r.name|)) && |x2| == |was|
    requires x3 == Over(x2, at + 4 + |r.name| + 1, r.value)
    ensures at + Size(r) < size ==> Holds(x3[..size], recs + [r], swap)
    ensures at + Size(r) == size ==> Hides(x3[..size], recs, r, swap)
    ensures at + Size(r) > size ==> Shows(x3[..size], recs, swap)
    ensures x3[size..] == Spilt(was[size..], r, swap, size - at - Size(r))
  {
    hide Pack, Packed, Extent, SizeOf, Holds, Hides, Shows, Packs, SizeBytes, Zeros, Distinct, Size, Values, Stops, Over;
    PacksIs(was[..size], recs, swap);
    PackedIs(r, swap);
    var n := Size(r);
    Composed(was, x1, x2, x3, at, SizeBytes(n, swap), r.name, r.value, n);
    var more := was[at + n + 4..];
    if at + n <= size {
      CutAt(was, Packed(r, swap), more, x3, at, n, size);
      Appended(was[..size], x3[..size], recs, r, swap, more);
    } else {
      CutWithin(was, Packed(r, swap), more, x3, at, n, size);
      AppendedCut(was[..size], x3[..size], recs, r, swap, size - at);
    }
  }

  lemma PackedIs(r: Rec, swap: bool)
    requires Size(r) < 0x8000_0000
    ensures Packed(r, swap) == SizeBytes(Size(r), swap) + r.name + [0] + r.value && Size(r) == 4 + |r.name| + 1 + |r.value|
    ensures |Packed(r, swap)| == Size(r)
  {}

  /** What a record written with `left` bytes to spare makes of the memory behind the buffer: its own end, if there
      is too little room for it, and then four zeros less those that are still in the buffer. */
  function Spilt(behind: seq<Byte>, r: Rec, swap: bool, left: int): seq<Byte>
    requires Size(r) < 0x8000_0000 && -left <= Size(r) && 4 - left <= |behind|
  {
    if left >= 4 then behind
    else if left >= 0 then Zeros(4 - left) + behind[4 - left..]
    else Packed(r, swap)[Size(r) + left..] + Zeros(4) + behind[4 - left..]
  }

  lemma CutAt(was: seq<Byte>, packed: seq<Byte>, more: seq<Byte>, x3: seq<Byte>, at: nat, n: nat, size: nat)
    requires |packed| == n && at + n <= size && size + 4 <= |was| && more == was[at + n + 4..]
    requires x3 == was[..at] + packed + (Zeros(4) + more)
    ensures |x3| == |was| && x3[..size] == was[..size][..at] + packed + (Zeros(4) + more)[..size - at - n]
    ensures var left := size - at - n;
      x3[size..] == if left >= 4 then was[size..] else Zeros(4 - left) + was[size..][4 - left..]
  {
    var left := size - at - n;
    assert x3[size..] == (Zeros(4) + more)[left..];
    if left < 4 {
      assert (Zeros(4) + more)[left..] == Zeros(4 - left) + more;
      assert more == was[size..][4 - left..];
    } else {
      assert (Zeros(4) + more)[left..] == more[left - 4..];
      assert more[left - 4..] == was[size..];
    }
  }

  lemma CutWithin(was: seq<Byte>, packed: seq<Byte>, more: seq<Byte>, x3: seq<Byte>, at: nat, n: nat, size: nat)
    requires |packed| == n && at <= size < at + n && at + n + 4 <= |was| && more == was[at + n + 4..]
    requires x3 == was[..at] + packed + (Zeros(4) + more)
    ensures x3[..size] == was[..size][..at] + packed[..size - at]
    ensures x3[size..] == packed[size - at..] + Zeros(4) + was[size..][at + n + 4 - size..]
  {
    assert more == was[size..][at + n + 4 - size..];
    hide Zeros;
  }

  // ---------- The buffer ----------

  datatype Find = Found(pos: nat, size: nat) | NoData

  datatype SetResult = Done | Exists | Missing | NoSpace

  datatype GetResult = Value(value: seq<Byte>) | Length(size: nat) | Range | Absent

  /** The first `size` bytes of `xb` are the buffer; what comes after them is the memory behind it. The walk sees
      `recs`; a record that ends where the buffer ends is in `lost`. */
  class Store {
    const xb: array<Byte>
    const size: nat
    const swap: bool
    ghost var recs: seq<Rec>
    ghost var lost: seq<Rec>

    ghost function Buffer(): seq<Byte>
      requires size <= xb.Length
      reads xb
    {
      xb[..size]
    }

    ghost predicate Valid()
      reads this, xb
    {
      size + size + 4 <= xb.Length
      && if lost == [] then Holds(Buffer(), recs, swap) else |lost| == 1 && Hides(Buffer(), recs, lost[0], swap)
    }

    /** The walk over the buffer sees these records, whatever comes behind them. */
    ghost predicate Readable()
      reads this, xb
    {
      size + 4 <= xb.Length && Shows(Buffer(), recs, swap)
    }

    lemma ValidReads()
      requires Valid()
      ensures Readable()
    {
      if lost == [] {
        HoldsShows(Buffer(), recs, swap);
      } else {
        HidesShows(Buffer(), recs, lost[0], swap);
      }
    }

    /** An empty buffer, cleared or erased, and whatever lies behind it. */
    constructor (size: nat, behind: seq<Byte>, erased: bool, swap: bool)
      requires 4 <= size < 0x8000_0000 && |behind| >= size + 4
      ensures Valid() && recs == lost == [] && this.size == size && this.swap == swap && xb[size..] == behind
    {
      var fill: Byte := if erased then 0xFF else 0;
      this.size, this.swap, recs, lost := size, swap, [], [];
      xb := new Byte[size + |behind|](i requires 0 <= i < size + |behind| => if i < size then fill else behind[i - size]);
      new;
      assert xb[size..] == behind;
      NoRecords(Buffer(), fill, swap);
    }

    static lemma FillStops(fill: Byte, swap: bool)
      requires fill == 0 || fill == 0xFF
      ensures SizeOf([fill, fill, fill, fill], swap) <= 0
    {
      var w := Join([fill, fill, fill, fill]);
      assert w == if fill == 0 then 0 else 0xFFFF_FFFF;
    }

    static lemma NoRecords(xb: seq<Byte>, fill: Byte, swap: bool)
      requires 4 <= |xb| < 0x8000_0000 && (fill == 0 || fill == 0xFF) && forall i :: 0 <= i < |xb| ==> xb[i] == fill
      ensures Holds(xb, [], swap)
    {
      assert xb[0..][..4] == [fill, fill, fill, fill];
      FillStops(fill, swap);
      hide SizeOf;
    }

    method LoadSize(pos: nat) returns (size: int)
      requires pos + 4 <= xb.Length
      ensures size == SizeOf(xb[pos..pos + 4], swap)
    {
      size := SizeOf(xb[pos..pos + 4], swap);
    }

    /** Whether the walk goes on from `pos` with a record of this size. */
    predicate GoesOn(pos: nat, z: int) {
      z > 0 && z < size && pos + z < size
    }

    /** After record `k` comes record `k`, or what stops the walk. */
    lemma NextSize(k: nat)
      requires Readable() && k <= |recs|
      ensures var pos := Extent(recs[..k]);
        && (k < |recs| ==>
              pos + 4 <= size && SizeOf(xb[pos..pos + 4], swap) == Size(recs[k]) && pos + Size(recs[k]) < size
              && Extent(recs[..k + 1]) == pos + Size(recs[k]))
        && (k == |recs| ==>
              pos == Extent(recs) <= size
              && (k == 0 || pos < size - 4 ==> pos + 4 <= size && !GoesOn(pos, SizeOf(xb[pos..pos + 4], swap))))
    {
      hide Pack, Packed, Extent, Distinct, Size, SizeOf;
      var pos := Extent(recs[..k]);
      if k < |recs| {
        RecordAt(Buffer(), recs, swap, k);
        SplitAt(recs, k);
        BufferAt(pos, pos + Size(recs[k]));
        SizeRead(Buffer(), pos, recs[k], swap);
        SizeAtLeast(recs[k]);
        BufferAt(pos, pos + 4);
      } else {
        assert recs[..k] == recs;
        NoExtent();
        if k == 0 || pos < size - 4 {
          BufferAt(pos, pos + 4);
        }
      }
    }

    lemma BufferAt(a: nat, b: nat)
      requires a <= b <= size <= xb.Length
      ensures Buffer()[a..b] == xb[a..b]
    {}

    lemma NoExtent()
      ensures recs == [] ==> Extent(recs) == 0
    {}

    lemma RecordHere(k: nat)
      requires Readable() && k < |recs|
      ensures var pos := Extent(recs[..k]);
        Size(recs[k]) < 0x8000_0000 && pos + Size(recs[k]) < size && Extent(recs[..k + 1]) == pos + Size(recs[k])
        && xb[pos..pos + Size(recs[k])] == Packed(recs[k], swap)
    {
      NextSize(k);
      RecordAt(Buffer(), recs, swap, k);
      hide Pack, Packed, Extent, Distinct, Size, SizeOf;
      var pos := Extent(recs[..k]);
      BufferAt(pos, pos + Size(recs[k]));
    }

    /** Whether record `k` has this name. */
    method AtRecord(pos: nat, z: nat, name: Name, ghost k: nat) returns (same: bool)
      requires Readable() && k < |recs| && pos == Extent(recs[..k]) && z == Size(recs[k])
      ensures same <==> recs[k].name == name
      ensures pos + z < size && Extent(recs[..k + 1]) == pos + z
    {
      hide Packed, Shows, Extent, Size;
      RecordHere(k);
      same := SameName(pos + 4, name, z, recs[k]);
    }

    lemma StartsAtZero()
      ensures Extent(recs[..0]) == 0
    {}

    /** As strncmp: whether the bytes from `at` on are this name, comparing at most `n` of them. */
    method SameName(at: nat, name: Name, n: nat, ghost r: Rec) returns (same: bool)
      requires Size(r) < 0x8000_0000 && 4 <= at && at - 4 + Size(r) <= xb.Length && n == Size(r)
      requires xb[at - 4..at - 4 + Size(r)] == Packed(r, swap)
      ensures same <==> r.name == name
    {
      NameBytes(at, r);
      var i := 0;
      while i < n
        invariant 0 <= i <= |r.name| && i <= |name| && r.name[..i] == name[..i]
        decreases n - i
      {
        var c := if i < |name| then name[i] else 0;
        if xb[at + i] != c {
          return false;
        }
        if c == 0 {
          assert r.name == r.name[..i] && name == name[..i];
          return true;
        }
        i := i + 1;
      }
      assert false;
    }

    lemma NameBytes(at: nat, r: Rec)
      requires Size(r) < 0x8000_0000 && 4 <= at && at - 4 + Size(r) <= xb.Length
      requires xb[at - 4..at - 4 + Size(r)] == Packed(r, swap)
      ensures forall i :: 0 <= i < |r.name| ==> xb[at + i] == r.name[i]
      ensures xb[at + |r.name|] == 0
      ensures xb[at + |r.name| + 1..at - 4 + Size(r)] == r.value
    {
      var p := Packed(r, swap);
      forall i | 0 <= i < |r.name|
        ensures xb[at + i] == r.name[i]
      {
        assert p[4 + i] == r.name[i];
        assert xb[at - 4..at - 4 + Size(r)][4 + i] == xb[at + i];
      }
      assert p[4 + |r.name|] == 0;
      assert xb[at - 4..at - 4 + Size(r)][4 + |r.name|] == xb[at + |r.name|];
      assert p[5 + |r.name|..] == r.value;
      assert xb[at - 4..at - 4 + Size(r)][5 + |r.name|..] == xb[at + |r.name| + 1..at - 4 + Size(r)];
    }

    lemma NameNotZero(at: nat, r: Rec, j: nat)
      requires Size(r) < 0x8000_0000 && 4 <= at && at - 4 + Size(r) <= xb.Length && j <= |r.name|
      requires xb[at - 4..at - 4 + Size(r)] == Packed(r, swap)
      ensures j < |r.name| <==> xb[at + j] != 0
    {
      NameBytes(at, r);
      assert j < |r.name| ==> xb[at + j] == r.name[j];
    }

    /** Walks the records to the one of this name. */
    method NvalFind(name: Name) returns (f: Find, ghost k: nat)
      requires Readable()
      ensures k == Place(recs, name)
      ensures f == if k < |recs| then Found(Extent(recs[..k]), Size(recs[k])) else NoData
    {
      BufferSize();
      hide Holds, Shows, Packed, Pack, Extent, SizeOf, Size, Place, Distinct, Readable;
      var n := size;
      k := 0;
      var pos := 0;
      StartsAtZero();
      NextSize(0);
      var z := LoadSize(0);
      while z > 0 && z < n && pos + z < n
        invariant 0 <= k <= |recs| && pos == Extent(recs[..k])
        invariant k < |recs| ==> z == Size(recs[k])
        invariant k == |recs| ==> !GoesOn(pos, z)
        invariant forall i :: 0 <= i < k ==> recs[i].name != name
        decreases |recs| - k
      {
        var same := AtRecord(pos, z, name, k);
        if same {
          PlaceIs(recs, name, k);
          return Found(pos, z), k;
        }
        pos := pos + z;
        k := k + 1;
        z := SizeAt(pos, k);
      }
      NextSize(k);
      PlaceIs(recs, name, k);
      f := NoData;
    }

    lemma BufferSize()
      requires Readable()
      ensures 4 <= size < 0x8000_0000 && size + 4 <= xb.Length && Distinct(recs) && Extent(recs) <= size
    {}

    /** The size of the record at `pos`, or 0 where none fits. */
    method SizeAt(pos: nat, ghost k: nat) returns (z: int)
      requires Readable() && 0 < k <= |recs| && pos == Extent(recs[..k])
      ensures if k < |recs| then z == Size(recs[k]) else !GoesOn(pos, z)
    {
      BufferSize();
      hide Holds, Shows, Packed, Pack, Extent, SizeOf;
      NextSize(k);
      if k < |recs| {
        SizeAtLeast(recs[k]);
      }
      if pos < size - 4 {
        z := LoadSize(pos);
      } else {
        z := 0;
      }
    }

    /** How much of the buffer the records take. */
    method NvalUsed() returns (used: nat)
      requires Readable()
      ensures used == Extent(recs) <= size
    {
      BufferSize();
      hide Holds, Shows, Packed, Pack, Extent, SizeOf;
      var n := size;
      ghost var k := 0;
      used := 0;
      StartsAtZero();
      NextSize(0);
      var z := LoadSize(0);
      while z > 0 && z < n && used + z < n
        invariant 0 <= k <= |recs| && used == Extent(recs[..k])
        invariant k < |recs| ==> z == Size(recs[k])
        invariant k == |recs| ==> !GoesOn(used, z)
        decreases |recs| - k
      {
        NextSize(k);
        used := used + z;
        k := k + 1;
        z := SizeAt(used, k);
      }
      NextSize(k);
    }

    // ---------- Moving bytes ----------

    method Copy(to: nat, bytes: seq<Byte>)
      requires to + |bytes| <= xb.Length
      modifies xb
      ensures xb[..] == Over(old(xb[..]), to, bytes)
    {
      for i := 0 to |bytes|
        invariant xb[..] == old(xb[..to]) + bytes[..i] + old(xb[to + i..])
      {
        xb[to + i] := bytes[i];
      }
    }

    method Shift(to: nat, from: nat)
      requires to < from <= size <= xb.Length
      modifies xb
      ensures xb[..] == old(xb[..])[..to] + old(xb[..])[from..size] + old(xb[..])[size - (from - to)..]
    {
      ghost var was := xb[..];
      for i := 0 to size - from
        invariant forall j :: 0 <= j < to ==> xb[j] == was[j]
        invariant forall j :: to <= j < to + i ==> xb[j] == was[from - to + j]
        invariant forall j :: to + i <= j < xb.Length ==> xb[j] == was[j]
      {
        xb[to + i] := xb[from + i];
      }
      Shifted(was, xb[..], to, from);
    }

    lemma Shifted(was: seq<Byte>, now: seq<Byte>, to: nat, from: nat)
      requires to < from <= size <= |was| && |now| == |was|
      requires forall j :: 0 <= j < to ==> now[j] == was[j]
      requires forall j :: to <= j < to + (size - from) ==> now[j] == was[from - to + j]
      requires forall j :: to + (size - from) <= j < |was| ==> now[j] == was[j]
      ensures now == was[..to] + was[from..size] + was[size - (from - to)..]
    {}

    /** The records that are seen once that of this name is out: a lost one comes back, because it has moved down. */
    ghost function Others(name: Name): seq<Rec>
      reads this`recs, this`lost
    {
      var k := Place(recs, name);
      if k < |recs| then Without(recs, k) + lost else recs
    }

    /** Takes out the record of a name and moves the rest down over it. */
    method NvalDel(name: Name) returns (ok: bool)
      requires Valid()
      modifies this`recs, this`lost, xb
      ensures Valid() && xb[size..] == old(xb[size..])
      ensures ok <==> Place(old(recs), name) < |old(recs)|
      ensures ok ==> recs == old(Others(name)) && lost == []
      ensures !ok ==> recs == old(recs) && lost == old(lost) && xb[..] == old(xb[..])
    {
      hide Holds, Hides, Shows, Packed, Pack, Extent, SizeOf, Size, Place, Without;
      ValidReads();
      var f;
      ghost var k;
      f, k := NvalFind(name);
      if f == NoData {
        return false;
      }
      NextSize(k);
      var z := LoadSize(f.pos);
      SizeAtLeast(recs[k]);
      TakeOut(f.pos, z, k);
      ok := true;
    }

    method TakeOut(pos: nat, n: nat, ghost k: nat)
      requires Valid() && k < |recs| && pos == Extent(recs[..k]) && n == Size(recs[k]) && n > 0
      requires pos + n <= size
      modifies this`recs, this`lost, xb
      ensures Valid() && recs == Without(old(recs), k) + old(lost) && lost == [] && xb[size..] == old(xb[size..])
    {
      hide Holds, Hides, Packed, Pack, Extent, SizeOf, Size, Without, Zeros;
      ghost var was := xb[..];
      Shift(pos, pos + n);
      ghost var mid := xb[..];
      Copy(size - n, Zeros(n));
      ghost var now := xb[..];
      InBuffer(was, mid, now, pos, n);
      recs := TakenOut(was[..size], mid[..size], now[..size], k, pos, n);
      lost := [];
    }

    lemma TakenOut(was: seq<Byte>, mid: seq<Byte>, now: seq<Byte>, k: nat, pos: nat, n: nat) returns (left: seq<Rec>)
      requires if lost == [] then Holds(was, recs, swap) else |lost| == 1 && Hides(was, recs, lost[0], swap)
      requires k < |recs| && pos == Extent(recs[..k]) && n == Size(recs[k]) && pos + n <= |was|
      requires mid == was[..pos] + was[pos + n..] + was[|was| - n..] && now == mid[..|was| - n] + Zeros(n) + mid[|was|..]
      ensures left == Without(recs, k) + lost && Holds(now, left, swap)
    {
      hide Holds, Hides, Packed, Pack, Extent, SizeOf, Size, Without, Zeros;
      left := Without(recs, k) + lost;
      if lost == [] {
        Deleted(was, mid, now, recs, swap, k, pos, n);
        assert left == Without(recs, k);
      } else {
        assert lost == [lost[0]];
        DeletedShows(was, mid, now, recs, lost[0], swap, k, pos, n);
      }
    }

    /** What the two moves do to the buffer alone. */
    lemma InBuffer(was: seq<Byte>, mid: seq<Byte>, now: seq<Byte>, pos: nat, n: nat)
      requires n > 0 && pos + n <= size <= |was|
      requires mid == was[..pos] + was[pos + n..size] + was[size - n..]
      requires now == mid[..size - n] + Zeros(n) + mid[size..]
      ensures |mid| == |now| == |was| && now[size..] == was[size..]
      ensures mid[..size] == was[..size][..pos] + was[..size][pos + n..] + was[..size][size - n..]
      ensures now[..size] == mid[..size][..size - n] + Zeros(n) + mid[..size][size..]
    {}

    /** As strncpy: the name, and zeros after it up to the count. */
    method StringCopy(to: nat, name: Name, count: nat)
      requires |name| <= count && to + count <= xb.Length
      modifies xb
      ensures xb[..] == Over(old(xb[..]), to, name + Zeros(count - |name|))
    {
      ghost var bytes := name + Zeros(count - |name|);
      for i := 0 to count
        invariant xb[..] == old(xb[..to]) + bytes[..i] + old(xb[to + i..])
      {
        xb[to + i] := if i < |name| then name[i] else 0;
      }
    }

    /** The room that is looked for: what is free, and what the old record takes. */
    ghost function Space(name: Name): int
      reads this`recs
    {
      var k := Place(recs, name);
      size - Extent(recs) + if k < |recs| then Size(recs[k]) else 0
    }

    /** The room that there is, once the old record is out. */
    ghost function Room(name: Name): (room: nat)
      requires Valid()
      reads this, xb
      ensures room <= size
    {
      OthersFit(name);
      size - Extent(Others(name))
    }

    /** What is seen once the old record is out. */
    ghost function Seen(name: Name): map<Name, seq<Byte>>
      requires Valid()
      reads this, xb
    {
      SeenDistinct();
      if name in Values(recs) then Values(recs + lost) - {name} else Values(recs)
    }

    lemma SeenDistinct()
      requires Valid()
      ensures Distinct(recs) && Distinct(recs + lost) && Extent(recs) <= size < 0x8000_0000
      ensures lost != [] ==> lost == [lost[0]] && lost[0].name !in Values(recs) && Extent(recs) + Size(lost[0]) == size
    {
      hide Stops, Pack, Packed, Extent, Size, Values;
      if lost == [] {
        assert recs + lost == recs;
      } else {
        AppendValues(recs, lost[0]);
        assert lost == [lost[0]];
      }
    }

    /** The others fit, and the room that there is falls short of what is looked for by what is lost. */
    lemma OthersFit(name: Name)
      requires Valid()
      ensures 0 <= Extent(Others(name)) <= size < 0x8000_0000 && 0 <= Space(name) <= size
      ensures var k := Place(recs, name);
        size - Extent(Others(name)) == if k < |recs| && lost != [] then Size(recs[k]) else Space(name)
      ensures Space(name) == size - Extent(Others(name)) || 5 <= size - Extent(Others(name))
    {
      SeenDistinct();
      hide Holds, Hides, Extent, Size, Values, Place, Without, Distinct;
      var k := Place(recs, name);
      if k < |recs| {
        SplitAt(recs, k);
        WithoutTotal(recs, k);
        TotalSplit(Without(recs, k), lost);
        SizeAtLeast(recs[k]);
        NoExtent();
        if lost != [] {
          OneTotal(lost[0]);
        } else {
          assert Without(recs, k) + lost == Without(recs, k);
        }
      }
    }

    lemma OthersSeen(name: Name)
      requires Valid()
      ensures Distinct(Others(name)) && name !in Values(Others(name)) && Values(Others(name)) == Seen(name)
    {
      hide Holds, Hides, Extent, Size, Values, Without, Distinct;
      SeenDistinct();
      PlaceIsMember(recs, name);
      var k := Place(recs, name);
      if k < |recs| {
        WithoutValues(recs, k);
        if lost != [] {
          BackValues(recs, k, lost[0]);
        } else {
          assert recs + lost == recs && Without(recs, k) + lost == Without(recs, k);
        }
      }
    }

    /** The room falls short exactly if a lost record comes back and the new one is larger than the old. */
    lemma RoomFor(name: Name, value: seq<Byte>)
      requires Valid() && Distinct(recs)
      ensures Size(Rec(name, value)) <= Space(name) ==>
        (Room(name) < Size(Rec(name, value)) <==>
         name in Values(recs) && lost != [] && |value| > |Values(recs)[name]|)
    {
      hide Holds, Hides, Extent, Values, Place, Without, Distinct;
      OthersFit(name);
      PlaceIsMember(recs, name);
    }

    /**
     * Sets a name to a value. With `left` bytes to spare once the old record is out, the name then has that value
     * exactly if `left` is positive. A record that ends where the buffer ends is lost, with the old one, until another
     * is taken out: a lost record then comes back, and its room was counted as free, so that the new record may run
     * past the buffer. The copying of the name, which clears four bytes behind the record, goes past the buffer
     * exactly if `left` is less than four.
     */
    method NvalSet(name: Name, value: seq<Byte>, create: bool, replace: bool) returns (r: SetResult)
      requires Valid()
      modifies this`recs, this`lost, xb
      ensures Readable()
      ensures var there := name in old(Values(recs));
        r == if create && there then Exists else if replace && !there then Missing
          else if Size(Rec(name, value)) > old(Space(name)) then NoSpace else Done
      ensures r == Done ==> Size(Rec(name, value)) <= size < 0x8000_0000 && Distinct(recs)
      ensures r == Done ==>
        var rec := Rec(name, value);
        var left := old(Room(name)) - Size(rec);
        && (left > 0 ==> Valid() && lost == [] && Values(recs) == old(Seen(name))[name := value])
        && (left == 0 ==> Valid() && lost == [rec] && Values(recs) == old(Seen(name)))
        && (left < 0 ==> Values(recs) == old(Seen(name)))
        && xb[size..] == Spilt(old(xb[size..]), rec, swap, left)
      ensures r == Done ==>
        (old(Room(name)) < Size(Rec(name, value)) <==>
         name in old(Values(recs)) && old(lost) != [] && |value| > |old(Values(recs))[name]|)
      ensures r != Done ==> Valid() && recs == old(recs) && lost == old(lost) && xb[..] == old(xb[..])
    {
      hide Packed, Pack, Extent, Size, SizeOf, Holds, Hides, Shows, Place, Without, Spilt, Values, Distinct, Seen, Others;
      ValidReads();
      SeenDistinct();
      OthersFit(name);
      PlaceIsMember(recs, name);
      var f;
      ghost var k;
      f, k := NvalFind(name);
      if create && f != NoData {
        return Exists;
      }
      if replace && f == NoData {
        return Missing;
      }
      var start := NvalUsed();
      var space := size - start + if f.Found? then f.size else 0;
      var n := 4 + (if |name| <= size then |name| else size) + 1 + |value|;
      SizeIs(name, value);
      if n > space {
        return NoSpace;
      }
      RoomFor(name, value);
      OthersSeen(name);
      AppendValues(Others(name), Rec(name, value));
      Replace(f.Found?, name, value, n, k);
      r := Done;
    }

    lemma SizeIs(name: Name, value: seq<Byte>)
      ensures Size(Rec(name, value)) == 4 + |name| + 1 + |value|
    {}

    /** Takes the old record out, if there is one, and writes the new one behind the others. */
    method Replace(there: bool, name: Name, value: seq<Byte>, n: nat, ghost k: nat)
      requires Valid() && k == Place(recs, name) && (there <==> k < |recs|) && n == Size(Rec(name, value))
      requires n <= Space(name) && Distinct(Others(name)) && name !in Values(Others(name))
      modifies this`recs, this`lost, xb
      ensures Wrote(old(Others(name)), Rec(name, value), old(xb[size..]))
    {
      hide Packed, Pack, Extent, SizeOf, Holds, Hides, Shows, Values, Size, Without, Zeros, Place, Wrote;
      OthersFit(name);
      if there {
        var gone := NvalDel(name);
      }
      ValidReads();
      var start := NvalUsed();
      Append(start, name, value, n);
    }

    /** A record has been written behind others: what is seen, what is lost, and what the memory behind holds. */
    ghost predicate Wrote(others: seq<Rec>, rec: Rec, behind: seq<Byte>)
      reads this, xb
    {
      var left := size - Extent(others) - Size(rec);
      && Readable() && Size(rec) <= size < 0x8000_0000 && Extent(others) <= size && |behind| >= size + 4
      && (left > 0 ==> Valid() && lost == [] && recs == others + [rec])
      && (left == 0 ==> Valid() && lost == [rec] && recs == others)
      && (left < 0 ==> recs == others)
      && xb[size..] == Spilt(behind, rec, swap, left)
    }

    method Append(start: nat, name: Name, value: seq<Byte>, n: nat)
      requires Valid() && start == Extent(recs) && n == Size(Rec(name, value)) && n <= size
      requires start + n > size ==> start + 4 < size
      requires Distinct(recs) && name !in Values(recs) && start <= size < 0x8000_0000
      modifies this`recs, this`lost, xb
      ensures Wrote(old(recs), Rec(name, value), old(xb[size..]))
    {
      hide Packed, Pack, Extent, SizeOf, Size, Holds, Hides, Shows, SizeBytes, Zeros, Values, Distinct, Spilt, Wrote;
      ghost var rec, others, behind := Rec(name, value), recs, xb[size..];
      WriteRecord(start, name, value, n);
      if start + n < size {
        recs, lost := recs + [rec], [];
      } else if start + n == size {
        lost := [rec];
      }
      WroteNow(others, rec, behind);
    }

    lemma WroteNow(others: seq<Rec>, rec: Rec, behind: seq<Byte>)
      requires size + size + 4 <= xb.Length && Size(rec) <= size < 0x8000_0000
      requires Extent(others) <= size && |behind| >= size + 4
      requires var left := size - Extent(others) - Size(rec);
        && (left > 0 ==> lost == [] && recs == others + [rec] && Holds(Buffer(), recs, swap))
        && (left == 0 ==> lost == [rec] && recs == others && Hides(Buffer(), recs, rec, swap))
        && (left < 0 ==> recs == others && Shows(Buffer(), recs, swap))
        && xb[size..] == Spilt(behind, rec, swap, left)
      ensures Wrote(others, rec, behind)
    {
      hide Extent, Size, Holds, Hides, Shows, Spilt;
      if size - Extent(others) - Size(rec) >= 0 {
        ValidReads();
      }
    }

    /** The three writes of a record: its size, its name with zeros behind it, and its value. */
    method WriteRecord(start: nat, name: Name, value: seq<Byte>, n: nat)
      requires Valid() && start == Extent(recs) && n == Size(Rec(name, value)) && n <= size
      requires start + n > size ==> start + 4 < size
      requires Distinct(recs) && name !in Values(recs) && start <= size < 0x8000_0000
      modifies xb
      ensures start + n < size ==> Holds(Buffer(), recs + [Rec(name, value)], swap)
      ensures start + n == size ==> Hides(Buffer(), recs, Rec(name, value), swap)
      ensures start + n > size ==> Shows(Buffer(), recs, swap)
      ensures xb[size..] == Spilt(old(xb[size..]), Rec(name, value), swap, size - start - n)
    {
      ghost var was, rec := xb[..], Rec(name, value);
      assert n == 4 + |name| + 1 + |value|;
      Halves(was);
      ValidPacks();
      hide Packed, Pack, Extent, SizeOf, Size, Holds, Hides, Shows, Packs, SizeBytes, Zeros, Values, Distinct, Over, Spilt;
      ghost var x1, x2 := WriteParts(start, name, value, n);
      ghost var x3 := xb[..];
      AppendedBytes(was, x1, x2, x3, start, rec, recs, swap, size);
      Halves(x3);
    }

    lemma ValidPacks()
      requires Valid()
      ensures Packs(Buffer(), recs, swap)
    {
      hide Packs;
    }

    method WriteParts(start: nat, name: Name, value: seq<Byte>, n: nat) returns (ghost x1: seq<Byte>, ghost x2: seq<Byte>)
      requires n == 4 + |name| + 1 + |value| && n < 0x8000_0000 && start + n + 4 <= xb.Length
      modifies xb
      ensures |x1| == |x2| == xb.Length
      ensures x1 == Over(old(xb[..]), start, SizeBytes(n, swap))
      ensures x2 == Over(x1, start + 4, name + Zeros(n - |name|))
      ensures xb[..] == Over(x2, start + 4 + |name| + 1, value)
    {
      hide SizeBytes, Zeros, Over;
      Copy(start, SizeBytes(n, swap));
      x1 := xb[..];
      StringCopy(start + 4, name, n);
      x2 := xb[..];
      Copy(start + 4 + |name| + 1, value);
    }

    lemma Halves(s: seq<Byte>)
      requires s == xb[..] && size <= xb.Length
      ensures s[..size] == Buffer() && s[size..] == xb[size..]
    {}

    /** Goes past the name of a record and the zero after it. */
    method SkipName(at: nat, left: nat, ghost r: Rec) returns (pos: nat, size: nat)
      requires Size(r) < 0x8000_0000 && 4 <= at && at - 4 + Size(r) <= xb.Length && left == Size(r) - 4
      requires xb[at - 4..at - 4 + Size(r)] == Packed(r, swap)
      ensures size == |r.value| && pos + size <= xb.Length && xb[pos..pos + size] == r.value
    {
      hide Packed;
      NameBytes(at, r);
      pos, size := at, left;
      ghost var j := 0;
      NameNotZero(at, r, 0);
      while size > 0 && pos < xb.Length && xb[pos] != 0
        invariant 0 <= j <= |r.name| && pos == at + j
        invariant size == |r.name| + 1 + |r.value| - j
        invariant j < |r.name| <==> xb[at + j] != 0
        decreases size
      {
        pos := pos + 1;
        size := size - 1;
        j := j + 1;
        NameNotZero(at, r, j);
      }
      pos := pos + 1;
      size := size - 1;
    }

    /** The value of a name, or only its length if no room for it is offered. */
    method NvalGet(name: Name, bsize: nat) returns (g: GetResult)
      requires Readable() && Distinct(recs)
      ensures g == if name !in Values(recs) then Absent
        else if bsize == 0 then Length(|Values(recs)[name]|)
        else if |Values(recs)[name]| <= bsize then Value(Values(recs)[name]) else Range
    {
      BufferSize();
      hide Packed, Pack, Extent, SizeOf, Holds, Shows, Values, Place, Size;
      var f;
      ghost var k;
      f, k := NvalFind(name);
      PlaceIsMember(recs, name);
      if f == NoData {
        return Absent;
      }
      var pos, n := ValueAt(f.pos, k);
      if bsize == 0 {
        return Length(n);
      }
      if n <= bsize {
        return Value(xb[pos..pos + n]);
      }
      g := Range;
    }

    /** Where the value of record `k` lies. */
    method ValueAt(at: nat, ghost k: nat) returns (pos: nat, n: nat)
      requires Readable() && k < |recs| && at == Extent(recs[..k])
      ensures pos + n <= xb.Length && xb[pos..pos + n] == recs[k].value && n == |recs[k].value|
    {
      BufferSize();
      hide Packed, Pack, Extent, SizeOf, Holds, Shows, Distinct;
      NextSize(k);
      RecordHere(k);
      var z := LoadSize(at);
      pos, n := SkipName(at + 4, z - 4, recs[k]);
    }
  }
}
