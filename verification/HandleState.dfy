/** The handle, descriptor and inode tables as values, and the invariant of their reference counts. */
module HandleState {
  import opened Basics

  // ---------- Counting references ----------

  /** How often `v` occurs. */
  ghost function Count(s: seq<int>, v: int): nat {
    if s == [] then 0 else (if s[0] == v then 1 else 0) + Count(s[1..], v)
  }

  lemma {:induction false} CountUpdate(s: seq<int>, i: nat, x: int, v: int)
    requires i < |s|
    ensures Count(s[i := x], v) == Count(s, v) - (if s[i] == v then 1 else 0) + if x == v then 1 else 0
  {
    if i > 0 {
      assert s[i := x][1..] == s[1..][i - 1 := x];
      CountUpdate(s[1..], i - 1, x, v);
    } else {
      assert s[i := x][1..] == s[1..];
    }
  }

  lemma {:induction false} CountPositive(s: seq<int>, v: int)
    ensures Count(s, v) > 0 <==> v in s
  {
    if s != [] {
      CountPositive(s[1..], v);
    }
  }

  lemma {:induction false} CountBound(s: seq<int>, v: int)
    ensures Count(s, v) <= |s|
  {
    if s != [] {
      CountBound(s[1..], v);
    }
  }

  ghost function Upto(n: nat): (r: set<int>)
    ensures |r| == n && forall v :: v in r <==> 0 <= v < n
  {
    if n == 0 then {} else Upto(n - 1) + {n - 1}
  }

  ghost function Image(s: seq<int>): (r: set<int>)
    ensures |r| <= |s| && forall v :: v in r <==> v in s
  {
    if s == [] then {} else Image(s[1..]) + {s[0]}
  }

  /** A table with an entry that refers to nothing cannot refer to every slot of a table of its own size. */
  lemma Pigeonhole(s: seq<int>)
    requires -1 in s
    ensures exists v :: 0 <= v < |s| && Count(s, v) == 0
  {
    SomeMissing(s);
    var v :| 0 <= v < |s| && v !in s;
    CountPositive(s, v);
  }

  lemma SomeMissing(s: seq<int>)
    requires -1 in s
    ensures exists v :: 0 <= v < |s| && v !in s
  {
    var all := Upto(|s|) + {-1};
    assert |all| == |s| + 1;
    if all <= Image(s) {
      SizeOfSubset(all, Image(s));
    }
  }

  // ---------- The tables ----------

  datatype Handle = Handle(fdId: int, useCount: int)

  datatype Fd = Fd(isDir: bool, reading: bool, writing: bool, append: bool, shareRead: bool, shareWrite: bool,
                   inodeId: int, handleCount: int)

  /** Object 0 is none. */
  datatype Inode = Inode(count: int, obj: nat)

  /** `mine` maps an object to the inode slot it is hooked to. */
  datatype State = State(hs: seq<Handle>, fs: seq<Fd>, ins: seq<Inode>, mine: map<nat, nat>)

  function Ref(h: Handle): int {
    if h.useCount > 0 then h.fdId else -1
  }

  function Link(f: Fd): int {
    if f.handleCount > 0 then f.inodeId else -1
  }

  function Refs(hs: seq<Handle>): (r: seq<int>)
    ensures |r| == |hs|
  {
    seq(|hs|, i requires 0 <= i < |hs| => Ref(hs[i]))
  }

  function Links(fs: seq<Fd>): (r: seq<int>)
    ensures |r| == |fs|
  {
    seq(|fs|, i requires 0 <= i < |fs| => Link(fs[i]))
  }

  lemma RefsUpdate(hs: seq<Handle>, h: nat, x: Handle)
    requires h < |hs|
    ensures Refs(hs[h := x]) == Refs(hs)[h := Ref(x)]
  {}

  lemma LinksUpdate(fs: seq<Fd>, f: nat, x: Fd)
    requires f < |fs|
    ensures Links(fs[f := x]) == Links(fs)[f := Link(x)]
  {}

  /** A live handle names a descriptor, and every descriptor knows how many name it. */
  ghost predicate HandlesOk(s: State) {
    (forall h :: 0 <= h < |s.hs| ==> s.hs[h].useCount >= 0 && (s.hs[h].useCount > 0 ==> 0 <= s.hs[h].fdId < |s.fs|))
    && forall f :: 0 <= f < |s.fs| ==> s.fs[f].handleCount == Count(Refs(s.hs), f)
  }

  /** A live descriptor names an inode, but for the one just being opened. */
  ghost predicate FdsOk(s: State, pending: int) {
    (pending >= 0 ==> pending < |s.fs| && s.fs[pending].handleCount > 0)
    && forall f :: 0 <= f < |s.fs| ==>
      if s.fs[f].handleCount > 0 && f != pending then 0 <= s.fs[f].inodeId < |s.ins| else s.fs[f].inodeId == -1
  }

  /** Every inode knows how many live descriptors name it, and holds an object exactly while some do. */
  ghost predicate InodesOk(s: State) {
    forall i :: 0 <= i < |s.ins| ==>
      s.ins[i].count == Count(Links(s.fs), i) && (s.ins[i].obj != 0 <==> s.ins[i].count > 0)
  }

  /** Objects are hooked to the inode that holds them, and to no other. */
  ghost predicate HooksOk(s: State) {
    (forall i :: 0 <= i < |s.ins| && s.ins[i].obj != 0 ==> s.ins[i].obj in s.mine && s.mine[s.ins[i].obj] == i)
    && forall o :: o in s.mine ==> s.mine[o] < |s.ins| && o != 0 && s.ins[s.mine[o]].obj == o
  }

  /** Of two open descriptors on one object, what the one does the other shares. */
  ghost predicate SharingOk(s: State) {
    forall f, g :: 0 <= f < |s.fs| && 0 <= g < |s.fs| && f != g && Link(s.fs[f]) == Link(s.fs[g]) >= 0 ==>
      (s.fs[f].reading ==> s.fs[g].shareRead) && (s.fs[f].writing ==> s.fs[g].shareWrite)
  }

  ghost predicate Inv(s: State, n: nat, pending: int) {
    n <= 511 && |s.hs| == n && |s.fs| == n && |s.ins| == n
    && HandlesOk(s) && FdsOk(s, pending) && InodesOk(s) && HooksOk(s) && SharingOk(s)
  }

  // ---------- What the counts give ----------

  /** A free handle means a free descriptor. */
  lemma FreeFd(s: State, n: nat, h: nat)
    requires Inv(s, n, -1) && h < n && s.hs[h].useCount < 1
    ensures exists f :: 0 <= f < n && s.fs[f].handleCount < 1
  {
    assert Refs(s.hs)[h] == -1;
    Pigeonhole(Refs(s.hs));
    var v :| 0 <= v < n && Count(Refs(s.hs), v) == 0;
    assert s.fs[v].handleCount == 0;
  }

  /** A descriptor being opened always finds a free inode. */
  lemma FreeInode(s: State, n: nat, f: nat)
    requires Inv(s, n, f) && f < n
    ensures exists i :: 0 <= i < n && s.ins[i].obj == 0
  {
    assert Links(s.fs)[f] == -1;
    Pigeonhole(Links(s.fs));
    var v :| 0 <= v < n && Count(Links(s.fs), v) == 0;
    assert s.ins[v].obj == 0;
  }

  /** The counts fit the bit fields they are kept in. */
  lemma CountsFit(s: State, n: nat, pending: int)
    requires Inv(s, n, pending)
    ensures forall f :: 0 <= f < n ==> 0 <= s.fs[f].handleCount <= 511
    ensures forall i :: 0 <= i < n ==> 0 <= s.ins[i].count <= 511
  {
    forall f | 0 <= f < n
      ensures 0 <= s.fs[f].handleCount <= 511 && 0 <= s.ins[f].count <= 511
    {
      CountBound(Refs(s.hs), f);
      CountBound(Links(s.fs), f);
    }
  }

  // ---------- One handle or descriptor changes ----------

  lemma HandleChange(s: State, h: nat, x: Handle, f: int)
    requires h < |s.hs|
    ensures Count(Refs(s.hs[h := x]), f)
            == Count(Refs(s.hs), f) - (if Ref(s.hs[h]) == f then 1 else 0) + if Ref(x) == f then 1 else 0
  {
    RefsUpdate(s.hs, h, x);
    CountUpdate(Refs(s.hs), h, Ref(x), f);
  }

  lemma FdChange(s: State, f: nat, x: Fd, i: int)
    requires f < |s.fs|
    ensures Count(Links(s.fs[f := x]), i)
            == Count(Links(s.fs), i) - (if Link(s.fs[f]) == i then 1 else 0) + if Link(x) == i then 1 else 0
  {
    LinksUpdate(s.fs, f, x);
    CountUpdate(Links(s.fs), f, Link(x), i);
  }

  const BLANK := Fd(false, false, false, false, false, false, -1, 1)

  /** A new handle with a new descriptor. */
  function Taken(s: State, h: nat, f: nat): State
    requires h < |s.hs| && f < |s.fs|
  {
    s.(hs := s.hs[h := Handle(f, 1)], fs := s.fs[f := BLANK])
  }

  lemma TakenKeeps(s: State, n: nat, h: nat, f: nat)
    requires Inv(s, n, -1) && h < n && f < n && s.hs[h].useCount < 1 && s.fs[f].handleCount < 1
    ensures Inv(Taken(s, h, f), n, f)
  {
    hide Count, Refs, Links;
    forall g
      ensures g >= 0 ==> Count(Refs(s.hs[h := Handle(f, 1)]), g) == Count(Refs(s.hs), g) + if g == f then 1 else 0
    {
      HandleChange(s, h, Handle(f, 1), g);
    }
    forall i
      ensures i >= 0 ==> Count(Links(s.fs[f := BLANK]), i) == Count(Links(s.fs), i)
    {
      FdChange(s, f, BLANK, i);
    }
  }

  /** One more handle for a descriptor. */
  function Doubled(s: State, h: nat, f: nat): State
    requires h < |s.hs| && f < |s.fs|
  {
    s.(hs := s.hs[h := Handle(f, 1)], fs := s.fs[f := s.fs[f].(handleCount := s.fs[f].handleCount + 1)])
  }

  lemma DoubledKeeps(s: State, n: nat, h: nat, f: nat)
    requires Inv(s, n, -1) && h < n && f < n && s.hs[h].useCount < 1 && s.fs[f].handleCount > 0
    ensures Inv(Doubled(s, h, f), n, -1)
  {
    hide Count, Refs, Links;
    var x := s.fs[f].(handleCount := s.fs[f].handleCount + 1);
    forall g
      ensures g >= 0 ==> Count(Refs(s.hs[h := Handle(f, 1)]), g) == Count(Refs(s.hs), g) + if g == f then 1 else 0
    {
      HandleChange(s, h, Handle(f, 1), g);
    }
    forall i
      ensures Count(Links(s.fs[f := x]), i) == Count(Links(s.fs), i)
    {
      FdChange(s, f, x, i);
    }
  }

  /** A handle is in use once more or once less, and stays live. */
  function Used(s: State, h: nat, uses: int): State
    requires h < |s.hs|
  {
    s.(hs := s.hs[h := s.hs[h].(useCount := uses)])
  }

  lemma UsedKeeps(s: State, n: nat, h: nat, uses: int, pending: int)
    requires Inv(s, n, pending) && h < n && s.hs[h].useCount > 0 && uses > 0
    ensures Inv(Used(s, h, uses), n, pending)
  {
    hide Count, Refs, Links;
    forall g
      ensures Count(Refs(s.hs[h := s.hs[h].(useCount := uses)]), g) == Count(Refs(s.hs), g)
    {
      HandleChange(s, h, s.hs[h].(useCount := uses), g);
    }
  }

  /** The descriptor being opened is given its inode. */
  function Hooked(s: State, f: nat, i: nat, obj: nat, x: Fd): State
    requires f < |s.fs| && i < |s.ins|
  {
    s.(fs := s.fs[f := x], ins := s.ins[i := Inode(s.ins[i].count + 1, obj)], mine := s.mine[obj := i])
  }

  /** What the check of sharing has found of the other descriptors of an object. */
  ghost predicate MayShare(s: State, i: nat, x: Fd) {
    forall g :: 0 <= g < |s.fs| && Link(s.fs[g]) == i ==>
      (s.fs[g].reading ==> x.shareRead) && (s.fs[g].writing ==> x.shareWrite)
      && (x.reading ==> s.fs[g].shareRead) && (x.writing ==> s.fs[g].shareWrite)
  }

  lemma HookedKeeps(s: State, n: nat, f: nat, i: nat, obj: nat, x: Fd)
    requires Inv(s, n, f) && f < n && i < n && obj != 0 && x.inodeId == i && x.handleCount == s.fs[f].handleCount
    requires if obj in s.mine then s.mine[obj] == i else s.ins[i].obj == 0
    requires MayShare(s, i, x)
    ensures Inv(Hooked(s, f, i, obj, x), n, -1)
  {
    hide Count, Refs, Links;
    forall j
      ensures j >= 0 ==> Count(Links(s.fs[f := x]), j) == Count(Links(s.fs), j) + if j == i then 1 else 0
    {
      FdChange(s, f, x, j);
    }
  }

  /** An inode loses a descriptor; with the last one it loses its object. */
  function PutInode(s: State, i: nat): State
    requires i < |s.ins|
  {
    var x := s.ins[i];
    if x.count - 1 > 0 then s.(ins := s.ins[i := Inode(x.count - 1, x.obj)])
    else s.(ins := s.ins[i := Inode(0, 0)], mine := s.mine - {x.obj})
  }

  /** A descriptor loses a handle; with the last one it loses its inode. */
  function PutFd(s: State, f: nat): State
    requires f < |s.fs| && s.fs[f].inodeId < |s.ins|
  {
    var x := s.fs[f].(handleCount := s.fs[f].handleCount - 1);
    if x.handleCount >= 1 then s.(fs := s.fs[f := x])
    else if x.inodeId >= 0 then PutInode(s, x.inodeId).(fs := s.fs[f := x.(inodeId := -1)])
    else s.(fs := s.fs[f := x])
  }

  /** A handle goes. */
  function Dropped(s: State, h: nat): State
    requires h < |s.hs| && 0 <= s.hs[h].fdId < |s.fs| && s.fs[s.hs[h].fdId].inodeId < |s.ins|
  {
    PutFd(s, s.hs[h].fdId).(hs := s.hs[h := Handle(-1, 0)])
  }

  lemma DroppedCounts(s: State, n: nat, h: nat)
    requires |s.hs| == n && |s.fs| == n && h < n && s.hs[h].useCount > 0 && 0 <= s.hs[h].fdId < n
    ensures var f := s.hs[h].fdId; var x := s.fs[f].(handleCount := s.fs[f].handleCount - 1);
      var y := if x.handleCount >= 1 then x else x.(inodeId := -1);
      (forall g {:trigger Count(Refs(s.hs[h := Handle(-1, 0)]), g)} :: g >= 0 ==>
         Count(Refs(s.hs[h := Handle(-1, 0)]), g) == Count(Refs(s.hs), g) - if g == f then 1 else 0)
      && (forall i {:trigger Count(Links(s.fs[f := y]), i)} :: i >= 0 ==>
            Count(Links(s.fs[f := y]), i)
            == Count(Links(s.fs), i) - (if Link(s.fs[f]) == i then 1 else 0) + if Link(y) == i then 1 else 0)
  {
    hide Count, Refs, Links;
    var f := s.hs[h].fdId;
    var x := s.fs[f].(handleCount := s.fs[f].handleCount - 1);
    var y := if x.handleCount >= 1 then x else x.(inodeId := -1);
    forall g
      ensures g >= 0 ==>
        Count(Refs(s.hs[h := Handle(-1, 0)]), g) == Count(Refs(s.hs), g) - if g == f then 1 else 0
    {
      HandleChange(s, h, Handle(-1, 0), g);
    }
    forall i
      ensures i >= 0 ==>
        Count(Links(s.fs[f := y]), i)
        == Count(Links(s.fs), i) - (if Link(s.fs[f]) == i then 1 else 0) + if Link(y) == i then 1 else 0
    {
      FdChange(s, f, y, i);
    }
  }

  /** Giving up a handle keeps everything; so does giving up the one handle of an open that has failed. */
  lemma DroppedKeeps(s: State, n: nat, h: nat, pending: int)
    requires Inv(s, n, pending) && h < n && s.hs[h].useCount > 0
    requires pending == -1 || (pending == s.hs[h].fdId && s.fs[pending].handleCount == 1)
    ensures s.fs[s.hs[h].fdId].inodeId < |s.ins| && Inv(Dropped(s, h), n, -1)
  {
    hide Count, Refs, Links, HandlesOk, InodesOk, HooksOk, SharingOk, FdsOk;
    DroppedHandles(s, n, h, pending);
    DroppedSharing(s, n, h, pending);
    DroppedInodes(s, n, h, pending);
  }

  lemma HandleCounts(s: State, h: nat)
    requires h < |s.hs| && s.hs[h].useCount > 0
    ensures Count(Refs(s.hs), s.hs[h].fdId) > 0
  {
    assert Refs(s.hs)[h] == s.hs[h].fdId;
    CountPositive(Refs(s.hs), s.hs[h].fdId);
  }

  lemma LinkCounts(s: State, f: nat)
    requires f < |s.fs|
    ensures Count(Links(s.fs), Link(s.fs[f])) > 0
  {
    assert Links(s.fs)[f] == Link(s.fs[f]);
    CountPositive(Links(s.fs), Link(s.fs[f]));
  }

  lemma DroppedHandles(s: State, n: nat, h: nat, pending: int)
    requires Inv(s, n, pending) && h < n && s.hs[h].useCount > 0
    requires pending == -1 || (pending == s.hs[h].fdId && s.fs[pending].handleCount == 1)
    ensures s.fs[s.hs[h].fdId].inodeId < |s.ins|
    ensures HandlesOk(Dropped(s, h)) && FdsOk(Dropped(s, h), -1)
    ensures |Dropped(s, h).hs| == n && |Dropped(s, h).fs| == n && |Dropped(s, h).ins| == n
  {
    hide Count, Refs, Links, InodesOk, HooksOk, SharingOk;
    DroppedCounts(s, n, h);
    HandleCounts(s, h);
  }

  lemma DroppedSharing(s: State, n: nat, h: nat, pending: int)
    requires Inv(s, n, pending) && h < n && s.hs[h].useCount > 0
    ensures s.fs[s.hs[h].fdId].inodeId < |s.ins|
    ensures SharingOk(Dropped(s, h))
  {
    hide Count, Refs, Links, InodesOk, HooksOk;
  }

  lemma DroppedInodes(s: State, n: nat, h: nat, pending: int)
    requires Inv(s, n, pending) && h < n && s.hs[h].useCount > 0
    requires pending == -1 || (pending == s.hs[h].fdId && s.fs[pending].handleCount == 1)
    ensures s.fs[s.hs[h].fdId].inodeId < |s.ins|
    ensures InodesOk(Dropped(s, h)) && HooksOk(Dropped(s, h))
  {
    hide Count, Refs, Links, SharingOk;
    DroppedCounts(s, n, h);
    HandleCounts(s, h);
    var f := s.hs[h].fdId;
    if Link(s.fs[f]) >= 0 {
      LinkCounts(s, f);
    }
  }

  /** An object is hooked to an inode exactly while some live descriptor is open on it. */
  lemma HookedWhileOpen(s: State, n: nat, o: nat)
    requires Inv(s, n, -1) && o != 0
    ensures o in s.mine <==>
      exists f :: 0 <= f < n && s.fs[f].handleCount > 0 && s.ins[s.fs[f].inodeId].obj == o
  {
    hide Count, Refs, Links;
    if o in s.mine {
      var i := s.mine[o];
      CountPositive(Links(s.fs), i);
      var f := LinkedFrom(s.fs, i);
    }
  }

  lemma LinkedFrom(fs: seq<Fd>, i: nat) returns (f: nat)
    requires i in Links(fs)
    ensures f < |fs| && fs[f].handleCount > 0 && fs[f].inodeId == i
  {
    f :| 0 <= f < |fs| && Links(fs)[f] == i;
  }
}
