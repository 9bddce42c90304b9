/** Handles, file descriptors and inodes of the application interface: opening, sharing, duplicating and closing. */
module Handles {
  import opened HandleState

  /** What the flags of an open ask for; flag bits of both O_WRONLY and O_RDWR ask for neither. */
  datatype Access = ReadOnly | WriteOnly | ReadWrite | Neither {
    predicate Reads() {
      ReadWrite? || ReadOnly?
    }

    predicate Writes() {
      ReadWrite? || WriteOnly?
    }
  }

  class Tables {
    const n: nat
    const handles: array<Handle>
    const fds: array<Fd>
    const inodes: array<Inode>
    /** The inode slot that each object's back link names. */
    var mine: map<nat, nat>
    /** Objects that have no name any more, and those that have been deleted for good. */
    var unlinked: set<nat>
    var deleted: set<nat>

    ghost function View(): State
      reads this, handles, fds, inodes
    {
      State(handles[..], fds[..], inodes[..], mine)
    }

    ghost predicate Valid()
      reads this, handles, fds, inodes
    {
      Inv(View(), n, -1)
    }

    constructor (slots: nat)
      requires slots <= 511
      ensures Valid() && n == slots && mine == map[] && deleted == {}
    {
      n := slots;
      handles := new Handle[slots](_ => Handle(-1, 0));
      fds := new Fd[slots](_ => Fd(false, false, false, false, false, false, -1, 0));
      inodes := new Inode[slots](_ => Inode(0, 0));
      mine, unlinked, deleted := map[], {}, {};
      new;
      AllFree(View());
    }

    lemma AllFree(s: State)
      requires n <= 511 && |s.hs| == n && |s.fs| == n && |s.ins| == n && s.mine == map[]
      requires forall i :: 0 <= i < n ==> s.hs[i] == Handle(-1, 0) && s.ins[i] == Inode(0, 0)
      requires forall i :: 0 <= i < n ==> s.fs[i].handleCount == 0 && s.fs[i].inodeId == -1
      ensures Inv(s, n, -1)
    {
      forall f: nat | f < n
        ensures Count(Refs(s.hs), f) == 0 && Count(Links(s.fs), f) == 0
      {
        CountPositive(Refs(s.hs), f);
        CountPositive(Links(s.fs), f);
      }
    }

    lemma Lengths(s: State, pending: int)
      requires Inv(s, n, pending)
      ensures |s.hs| == n && |s.fs| == n && |s.ins| == n
      ensures forall h :: 0 <= h < n && s.hs[h].useCount > 0 ==> 0 <= s.hs[h].fdId < n && s.fs[s.hs[h].fdId].handleCount > 0
      ensures forall f :: 0 <= f < n && f != pending && s.fs[f].handleCount > 0 ==>
        0 <= s.fs[f].inodeId < n && s.ins[s.fs[f].inodeId].obj != 0
      ensures forall f :: 0 <= f < n ==> -1 <= s.fs[f].inodeId < n && s.fs[f].handleCount >= 0
      ensures forall h :: 0 <= h < n ==> s.hs[h].useCount >= 0
      ensures forall i :: 0 <= i < n ==> s.ins[i].count >= 0
    {
      forall h | 0 <= h < n && s.hs[h].useCount > 0
        ensures s.fs[s.hs[h].fdId].handleCount > 0
      {
        HandleCounts(s, h);
      }
      forall f | 0 <= f < n && f != pending && s.fs[f].handleCount > 0
        ensures s.ins[s.fs[f].inodeId].obj != 0
      {
        LinkCounts(s, f);
      }
    }

    /** The first handle that is not in use. */
    method FreeHandle() returns (h: int)
      requires Valid()
      ensures h >= 0 ==> h < n && handles[h].useCount < 1
      ensures h < 0 ==> h == -1 && forall i :: 0 <= i < n ==> handles[i].useCount > 0
    {
      Lengths(View(), -1);
      hide Inv;
      for i := 0 to n
        invariant forall j :: 0 <= j < i ==> handles[j].useCount > 0
      {
        if handles[i].useCount < 1 {
          return i;
        }
      }
      h := -1;
    }

    /** A free handle and a free descriptor; there is always a descriptor if there is a handle. */
    method NewHandleAndFileDes() returns (h: int, ghost f: int)
      requires Valid()
      modifies handles, fds
      ensures h < 0 ==> h == -1 && View() == old(View()) && forall i :: 0 <= i < n ==> handles[i].useCount > 0
      ensures h >= 0 ==>
        h < n && 0 <= f < n && View() == Taken(old(View()), h, f) && Inv(View(), n, f)
        && old(handles[h].useCount) < 1 && old(fds[f].handleCount) < 1
    {
      ghost var s := View();
      Lengths(s, -1);
      hide Inv;
      f := -1;
      h := FreeHandle();
      if h < 0 {
        return;
      }
      FreeFd(s, n, h);
      handles[h] := Handle(-1, 1);
      for i := 0 to n
        invariant handles[..] == s.hs[h := Handle(-1, 1)] && fds[..] == s.fs
        invariant forall j :: 0 <= j < i ==> fds[j].handleCount >= 1
      {
        if fds[i].handleCount < 1 {
          fds[i] := BLANK;
          handles[h] := handles[h].(fdId := i);
          TakenKeeps(s, n, h, i);
          assert View() == Taken(s, h, i);
          return h, i;
        }
      }
      assert false;
    }

    /** The inode slot of an object, if it is open. */
    method FindInodeIdForObject(obj: nat) returns (i: int)
      requires inodes.Length == n && obj != 0
      ensures i >= 0 ==> i < n && inodes[i].obj == obj
      ensures i < 0 ==> i == -1 && forall j :: 0 <= j < n ==> inodes[j].obj != obj
    {
      i := -1;
      var j := 0;
      while j < n && i < 0
        invariant 0 <= j <= n && -1 <= i < n
        invariant i < 0 ==> forall k :: 0 <= k < j ==> inodes[k].obj != obj
        invariant i >= 0 ==> inodes[i].obj == obj
      {
        if inodes[j].obj == obj {
          i := j;
        }
        j := j + 1;
      }
    }

    /** How many descriptors are open on an object. */
    method CountHandles(obj: nat) returns (c: int)
      requires Valid() && obj != 0
      ensures c == if obj in mine then Count(Links(fds[..]), mine[obj]) else 0
    {
      hide Count, Links, Refs;
      SlotOf(View(), -1, obj);
      var i := FindInodeIdForObject(obj);
      c := if i >= 0 then inodes[i].count else 0;
    }

    /** The slot an object is to be hooked to: its own, or a free one. There is always one. */
    method GetInodeIdForObject(obj: nat, ghost f: nat) returns (i: nat)
      requires Inv(View(), n, f) && f < n && obj != 0
      modifies inodes
      ensures i < n && inodes[..] == old(inodes[..])[i := Inode(old(inodes[i].count) + 1, obj)]
      ensures if obj in mine then mine[obj] == i else old(inodes[i].obj) == 0
    {
      ghost var s := View();
      Lengths(s, f);
      FreeInode(s, n, f);
      SlotOf(s, f, obj);
      hide Inv;
      var ret := FindInodeIdForObject(obj);
      var j := 0;
      while j < n && ret < 0
        invariant 0 <= j <= n && -1 <= ret < n
        invariant ret < 0 ==> forall k :: 0 <= k < j ==> inodes[k].obj != 0
        invariant ret < 0 ==> obj !in mine
        invariant ret >= 0 ==> inodes[ret].obj == obj || (inodes[ret].obj == 0 && obj !in mine)
      {
        if inodes[j].obj == 0 {
          ret := j;
        }
        j := j + 1;
      }
      i := ret;
      NoCount(s, f, i);
      if inodes[i].obj == 0 {
        inodes[i] := inodes[i].(count := 0);
      }
      inodes[i] := inodes[i].(obj := obj);
      inodes[i] := inodes[i].(count := inodes[i].count + 1);
    }

    lemma SlotOf(s: State, pending: int, obj: nat)
      requires Inv(s, n, pending) && obj != 0
      ensures obj in s.mine ==> s.mine[obj] < n && s.ins[s.mine[obj]].obj == obj
      ensures forall i :: 0 <= i < n && s.ins[i].obj == obj ==> obj in s.mine && s.mine[obj] == i
    {}

    lemma NoCount(s: State, pending: int, i: nat)
      requires Inv(s, n, pending) && i < n
      ensures s.ins[i].obj == 0 ==> s.ins[i].count == 0
    {}

    // ---------- Letting go ----------

    method PutInode(i: nat)
      requires i < n && inodes.Length == n
      modifies inodes, this`mine, this`deleted
      ensures View() == HandleState.PutInode(old(View()), i)
      ensures deleted == old(deleted) +
        if old(inodes[i].count) - 1 <= 0 && old(inodes[i].obj) in unlinked then {old(inodes[i].obj)} else {}
    {
      inodes[i] := inodes[i].(count := inodes[i].count - 1);
      if inodes[i].count <= 0 {
        var obj := inodes[i].obj;
        mine := mine - {obj};
        inodes[i] := inodes[i].(obj := 0);
        if obj in unlinked {
          deleted := deleted + {obj};
        }
        inodes[i] := inodes[i].(count := 0);
      }
    }

    method PutFileDes(f: nat)
      requires f < n && inodes.Length == n && fds.Length == n && fds[f].inodeId < n
      requires fds[f].inodeId >= 0 ==> inodes[fds[f].inodeId].obj in mine
      modifies inodes, fds, this`mine, this`deleted
      ensures View() == PutFd(old(View()), f)
      ensures deleted == old(deleted) + Released(old(View()), View())
    {
      ghost var s := View();
      fds[f] := fds[f].(handleCount := fds[f].handleCount - 1);
      if fds[f].handleCount < 1 {
        if fds[f].inodeId >= 0 {
          PutInode(fds[f].inodeId);
          fds[f] := fds[f].(inodeId := -1);
        }
      }
    }

    /** The unlinked objects that have lost their hook. */
    ghost function Released(s: State, t: State): set<nat>
      reads this`unlinked
    {
      set o | o in s.mine && o !in t.mine && o in unlinked
    }

    /** A handle is used once less; with its last use it goes. */
    method PutHandle(h: int, ghost pending: int)
      requires Inv(View(), n, pending)
      requires 0 <= h < n && handles[h].useCount == 1 ==>
        pending == -1 || (0 <= pending < n && pending == handles[h].fdId && fds[pending].handleCount == 1)
      requires pending == -1 || (0 <= h < n && handles[h].useCount == 1)
      modifies handles, inodes, fds, this`mine, this`deleted
      ensures Valid() && deleted == old(deleted) + Released(old(View()), View())
      ensures View() ==
        if 0 <= h < n && old(handles[h].useCount) > 1 then Used(old(View()), h, old(handles[h].useCount) - 1)
        else if 0 <= h < n && old(handles[h].useCount) == 1 then Dropped(old(View()), h)
        else old(View())
    {
      ghost var s := View();
      hide Inv, Dropped, Used, Released;
      Lengths(s, pending);
      if 0 <= h < n && handles[h].useCount > 0 {
        if handles[h].useCount == 1 {
          DropHandle(h, pending);
        } else {
          UsedKeeps(s, n, h, handles[h].useCount - 1, pending);
          LessUsed(h);
          SameHooks(s, View());
        }
      } else {
        SameHooks(s, s);
      }
    }

    lemma SameHooks(s: State, t: State)
      requires t.mine == s.mine
      ensures Released(s, t) == {}
    {}

    method LessUsed(h: nat)
      requires h < n && handles.Length == n && handles[h].useCount > 1
      modifies handles
      ensures View() == Used(old(View()), h, old(handles[h].useCount) - 1) && mine == old(mine)
    {
      handles[h] := handles[h].(useCount := handles[h].useCount - 1);
    }

    method DropHandle(h: nat, ghost pending: int)
      requires Inv(View(), n, pending) && h < n && handles[h].useCount == 1
      requires pending == -1 || (0 <= pending < n && pending == handles[h].fdId && fds[pending].handleCount == 1)
      modifies handles, inodes, fds, this`mine, this`deleted
      ensures Valid() && deleted == old(deleted) + Released(old(View()), View())
      ensures View() == Dropped(old(View()), h)
    {
      hide Inv, PutFd, Dropped;
      ghost var s := View();
      Sizes(s, pending);
      LastUse(s, h, pending);
      var f := handles[h].fdId;
      handles[h] := handles[h].(useCount := handles[h].useCount - 1);
      ghost var s1 := View();
      PutFileDes(f);
      ghost var s2 := View();
      handles[h] := handles[h].(fdId := -1);
      SameReleased(s, s1, s2, View());
      assert View() == Dropped(s, h);
    }

    lemma Sizes(s: State, pending: int)
      requires Inv(s, n, pending)
      ensures |s.hs| == n && |s.fs| == n && |s.ins| == n
    {}

    lemma LastUse(s: State, h: nat, pending: int)
      requires Inv(s, n, pending) && h < n && s.hs[h].useCount == 1
      requires pending == -1 || (0 <= pending < n && pending == s.hs[h].fdId && s.fs[pending].handleCount == 1)
      ensures |s.hs| == n && |s.fs| == n && |s.ins| == n
      ensures 0 <= s.hs[h].fdId < n && s.fs[s.hs[h].fdId].inodeId < n
      ensures var i := s.fs[s.hs[h].fdId].inodeId; i >= 0 ==> s.ins[i].obj in s.mine
      ensures var f, hs := s.hs[h].fdId, s.hs[h := s.hs[h].(useCount := 0)];
        PutFd(s.(hs := hs), f).hs == hs && PutFd(s.(hs := hs), f).(hs := s.hs[h := Handle(-1, 0)]) == Dropped(s, h)
      ensures Inv(Dropped(s, h), n, -1)
    {
      Lengths(s, pending);
      Hooks(s, pending);
      DroppedKeeps(s, n, h, pending);
      PutFdHandles(s, s.hs[h].fdId, s.hs[h := s.hs[h].(useCount := 0)], s.hs[h := Handle(-1, 0)]);
    }

    lemma PutFdHandles(s: State, f: nat, hs: seq<Handle>, hs': seq<Handle>)
      requires f < |s.fs| && s.fs[f].inodeId < |s.ins|
      ensures PutFd(s.(hs := hs), f).hs == hs && PutFd(s.(hs := hs), f).(hs := hs') == PutFd(s, f).(hs := hs')
    {}

    lemma SameReleased(s: State, s1: State, s2: State, t: State)
      requires s1.mine == s.mine && t.mine == s2.mine
      ensures Released(s1, s2) == Released(s, t)
    {}

    lemma Hooks(s: State, pending: int)
      requires Inv(s, n, pending)
      ensures forall f :: 0 <= f < n && 0 <= s.fs[f].inodeId < n ==> s.ins[s.fs[f].inodeId].obj in s.mine
    {
      forall f | 0 <= f < n && 0 <= s.fs[f].inodeId < n
        ensures s.ins[s.fs[f].inodeId].obj in s.mine
      {
        LinkCounts(s, f);
      }
    }

    method GetHandle(h: int) returns (ok: bool)
      requires Valid()
      modifies handles
      ensures Valid() && (ok <==> 0 <= h < n && old(handles[h].useCount) > 0)
      ensures View() == if ok then Used(old(View()), h, old(handles[h].useCount) + 1) else old(View())
    {
      ghost var s := View();
      Lengths(s, -1);
      hide Inv;
      ok := 0 <= h < n && handles[h].useCount > 0;
      if ok {
        UsedKeeps(s, n, h, handles[h].useCount + 1, -1);
        handles[h] := handles[h].(useCount := handles[h].useCount + 1);
        assert View() == Used(s, h, s.hs[h].useCount + 1);
      }
    }

    // ---------- The application interface ----------

    /** Another handle for the same descriptor. */
    method Dup(h: int) returns (d: int)
      requires Valid()
      modifies handles, fds
      ensures Valid()
      ensures d >= 0 <==>
        0 <= h < n && old(handles[h].useCount) > 0 && exists i :: 0 <= i < n && old(handles[i].useCount) < 1
      ensures d >= 0 ==> d < n && old(handles[d].useCount) < 1 && View() == Doubled(old(View()), d, old(handles[h].fdId))
      ensures d < 0 ==> d == -1 && View() == old(View())
    {
      ghost var s := View();
      Lengths(s, -1);
      hide Inv;
      d := -1;
      if 0 <= h < n && handles[h].useCount > 0 && 0 <= handles[h].fdId < n {
        d := FreeHandle();
        if d >= 0 {
          var f := handles[h].fdId;
          DoubledKeeps(s, n, d, f);
          handles[d] := Handle(-1, 1);
          handles[d] := handles[d].(fdId := f);
          fds[f] := fds[f].(handleCount := fds[f].handleCount + 1);
          assert View() == Doubled(s, d, f);
        }
      }
    }

    /** Another descriptor of the object stands in the way of this access and this sharing. */
    ghost predicate Conflict(s: State, obj: nat, access: Access, shareRead: bool, shareWrite: bool) {
      exists g :: 0 <= g < |s.fs| && Stands(s, g, obj, access, shareRead, shareWrite)
    }

    ghost predicate Stands(s: State, g: int, obj: nat, access: Access, shareRead: bool, shareWrite: bool)
      requires 0 <= g < |s.fs|
    {
      s.fs[g].handleCount > 0 && 0 <= s.fs[g].inodeId < |s.ins| && s.ins[s.fs[g].inodeId].obj == obj
      && Clash(s.fs[g], access, shareRead, shareWrite)
    }

    ghost predicate Clash(g: Fd, access: Access, shareRead: bool, shareWrite: bool) {
      (!g.shareRead && access.Reads()) || (!shareRead && g.reading)
      || (!g.shareWrite && access.Writes()) || (!shareWrite && g.writing)
    }

    /** What the descriptors open on an object allow and do. */
    method ScanFds(obj: nat, ghost pending: int)
      returns (readAllowed: bool, writeAllowed: bool, reading: bool, writing: bool)
      requires Inv(View(), n, pending)
      ensures readAllowed <==> forall g :: OpenOn(g, obj) ==> fds[g].shareRead
      ensures writeAllowed <==> forall g :: OpenOn(g, obj) ==> fds[g].shareWrite
      ensures reading <==> exists g :: OpenOn(g, obj) && fds[g].reading
      ensures writing <==> exists g :: OpenOn(g, obj) && fds[g].writing
    {
      Lengths(View(), pending);
      hide Inv;
      readAllowed, writeAllowed, reading, writing := true, true, false, false;
      for i := 0 to n
        invariant readAllowed <==> forall g :: g < i && OpenOn(g, obj) ==> fds[g].shareRead
        invariant writeAllowed <==> forall g :: g < i && OpenOn(g, obj) ==> fds[g].shareWrite
        invariant reading <==> exists g :: g < i && OpenOn(g, obj) && fds[g].reading
        invariant writing <==> exists g :: g < i && OpenOn(g, obj) && fds[g].writing
      {
        var fd := fds[i];
        var on := fd.handleCount > 0 && fd.inodeId >= 0 && inodes[fd.inodeId].obj == obj;
        assert on <==> OpenOn(i, obj);
        hide OpenOn;
        if on {
          readAllowed := readAllowed && fd.shareRead;
          writeAllowed := writeAllowed && fd.shareWrite;
          reading := reading || fd.reading;
          writing := writing || fd.writing;
        }
      }
    }

    /** The check of sharing, over all the descriptors of an existing object. */
    method SharingDenied(obj: nat, access: Access, shareRead: bool, shareWrite: bool, ghost pending: int)
      returns (denied: bool)
      requires Inv(View(), n, pending) && obj != 0
      ensures denied <==> Conflict(View(), obj, access, shareRead, shareWrite)
    {
      var readRequested := access.Reads();
      var writeRequested := access.Writes();
      var readAllowed, writeAllowed, reading, writing := ScanFds(obj, pending);
      hide Inv;
      denied := (!readAllowed && readRequested) || (!shareRead && reading)
        || (!writeAllowed && writeRequested) || (!shareWrite && writing);
      ConflictIs(obj, access, shareRead, shareWrite);
    }

    lemma ConflictIs(obj: nat, access: Access, shareRead: bool, shareWrite: bool)
      ensures Conflict(View(), obj, access, shareRead, shareWrite) <==>
        exists g :: OpenOn(g, obj) && Clash(fds[g], access, shareRead, shareWrite)
    {
      var s := View();
      forall g
        ensures OpenOn(g, obj) && Clash(fds[g], access, shareRead, shareWrite)
                <==> 0 <= g < |s.fs| && Stands(s, g, obj, access, shareRead, shareWrite)
      {}
    }

    ghost predicate OpenOn(g: int, obj: nat)
      reads fds, inodes
    {
      0 <= g < fds.Length && fds[g].handleCount > 0 && 0 <= fds[g].inodeId < inodes.Length
      && inodes[fds[g].inodeId].obj == obj
    }

    /**
     * Opens an object that was found, or else one that has just been made (0 if neither). It fails if no handle is
     * free, if there is no object, if it is denied on other grounds, or if another descriptor does not share; it never
     * runs out of descriptors or inodes.
     */
    method Open(found: nat, denied: bool, created: nat, isDir: bool, access: Access, append: bool,
                shareRead: bool, shareWrite: bool) returns (h: int)
      requires Valid() && (found == 0 && created != 0 ==> created !in mine)
      modifies handles, fds, inodes, this`mine, this`deleted
      ensures Valid() && deleted == old(deleted)
      ensures h >= 0 <==>
        (exists i :: 0 <= i < n && old(handles[i].useCount) < 1)
        && (if found != 0 then !denied && !Conflict(old(View()), found, access, shareRead, shareWrite) else created != 0)
      ensures h >= 0 ==> h < n && old(handles[h].useCount) < 1 && handles[h].useCount == 1
      ensures h >= 0 ==>
        0 <= handles[h].fdId < n && 0 <= fds[handles[h].fdId].inodeId < n
        && inodes[fds[handles[h].fdId].inodeId].obj == (if found != 0 then found else created)
      ensures h >= 0 ==> var fd := fds[handles[h].fdId];
        fd == Fd(isDir, access.Reads(), access.Writes(), append, shareRead, shareWrite, fd.inodeId, 1)
      ensures h >= 0 ==> forall i :: 0 <= i < n && i != h ==> handles[i] == old(handles[i])
      ensures h < 0 ==> h == -1 && mine == old(mine)
    {
      hide Inv, Conflict, Taken, Hooked, Dropped;
      ghost var s := View();
      Sizes(s, -1);
      ghost var f;
      h, f := NewHandleAndFileDes();
      if h < 0 {
        return;
      }
      ghost var t := View();
      Sizes(t, f);
      TakenIs(s, h, f);
      var obj := found;
      var openDenied := obj != 0 && denied;
      if obj != 0 && !openDenied {
        openDenied := SharingDenied(obj, access, shareRead, shareWrite, f);
      }
      TakenConflict(s, h, f, found, access, shareRead, shareWrite);
      if obj == 0 {
        obj := created;
        if obj != 0 {
          NewIsFree(s, obj, access, shareRead, shareWrite);
          TakenConflict(s, h, f, obj, access, shareRead, shareWrite);
        }
      }
      if obj != 0 && !openDenied {
        Hook(h, handles[h].fdId, obj, isDir, access, append, shareRead, shareWrite);
      } else {
        Undone(t, h, f);
        PutHandle(h, f);
        h := -1;
      }
    }

    lemma TakenIs(s: State, h: nat, f: nat)
      requires Inv(s, n, -1) && h < n && f < n
      ensures Taken(s, h, f).hs == s.hs[h := Handle(f, 1)] && Taken(s, h, f).fs == s.fs[f := BLANK]
      ensures Taken(s, h, f).ins == s.ins && Taken(s, h, f).mine == s.mine
    {}

    lemma TakenConflict(s: State, h: nat, f: nat, obj: nat, access: Access, shareRead: bool, shareWrite: bool)
      requires Inv(s, n, -1) && h < n && f < n && s.fs[f].handleCount < 1
      ensures Conflict(Taken(s, h, f), obj, access, shareRead, shareWrite)
              <==> Conflict(s, obj, access, shareRead, shareWrite)
    {
      hide Inv, Clash;
      Sizes(s, -1);
      var t := Taken(s, h, f);
      forall g | 0 <= g < n
        ensures Stands(t, g, obj, access, shareRead, shareWrite) <==> Stands(s, g, obj, access, shareRead, shareWrite)
      {
        assert g != f ==> s.fs[g] == t.fs[g];
      }
    }

    lemma NewIsFree(s: State, obj: nat, access: Access, shareRead: bool, shareWrite: bool)
      requires Inv(s, n, -1) && obj != 0 && obj !in s.mine
      ensures !Conflict(s, obj, access, shareRead, shareWrite)
    {
      Hooks(s, -1);
    }

    /** Without a conflict, the descriptors already on the inode share with the new one and it with them. */
    lemma NoConflict(s: State, f: nat, i: nat, obj: nat, access: Access, x: Fd)
      requires Inv(s, n, f) && i < n && f < n && obj != 0
      requires if obj in s.mine then s.mine[obj] == i else s.ins[i].obj == 0
      requires x.reading == access.Reads() && x.writing == access.Writes()
      requires !Conflict(s, obj, access, x.shareRead, x.shareWrite)
      ensures MayShare(s, i, x)
    {
      SlotOf(s, f, obj);
      forall g | 0 <= g < |s.fs| && Link(s.fs[g]) == i
        ensures !Clash(s.fs[g], access, x.shareRead, x.shareWrite)
      {
        LinkCounts(s, g);
        assert s.ins[s.fs[g].inodeId].obj == obj;
        assert !Stands(s, g, obj, access, x.shareRead, x.shareWrite);
      }
    }

    method Hook(h: nat, f: nat, obj: nat, isDir: bool, access: Access, append: bool, shareRead: bool, shareWrite: bool)
      requires Inv(View(), n, f) && f < n && obj != 0 && fds[f] == BLANK
      requires !Conflict(View(), obj, access, shareRead, shareWrite)
      modifies fds, inodes, this`mine
      ensures Valid() && handles[..] == old(handles[..])
      ensures 0 <= fds[f].inodeId < n && inodes[fds[f].inodeId].obj == obj
      ensures fds[f] == Fd(isDir, access.Reads(), access.Writes(), append, shareRead, shareWrite, fds[f].inodeId, 1)
    {
      hide Inv, Conflict, MayShare;
      ghost var s := View();
      Sizes(s, f);
      var i := GetInodeIdForObject(obj, f);
      ghost var x := Fd(isDir, access.Reads(), access.Writes(), append, shareRead, shareWrite, i, 1);
      NoConflict(s, f, i, obj, access, x);
      HookedKeeps(s, n, f, i, obj, x);
      fds[f] := fds[f].(inodeId := i, reading := access.Reads(), writing := access.Writes(),
                        append := append, shareRead := shareRead, shareWrite := shareWrite, isDir := isDir);
      mine := mine[obj := i];
      assert View() == Hooked(s, f, i, obj, x);
    }

    /** Giving a handle back whose descriptor has no inode takes nothing from any object. */
    lemma Undone(s: State, h: nat, f: nat)
      requires Inv(s, n, f) && h < n && f < n && s.hs[h] == Handle(f, 1) && s.fs[f] == BLANK
      ensures 0 <= s.hs[h].fdId < |s.fs| && s.fs[s.hs[h].fdId].inodeId < |s.ins|
      ensures Dropped(s, h).mine == s.mine && Released(s, Dropped(s, h)) == {}
    {}

    /**
     * Closes a handle. Only if it was the last use of the last handle of the last descriptor on an object is the
     * object let go, and if it has no name any more, deleted.
     */
    method Close(h: int) returns (ok: bool)
      requires Valid()
      modifies handles, fds, inodes, this`mine, this`deleted
      ensures Valid() && (ok <==> 0 <= h < n && old(handles[h].useCount) > 0)
      ensures !ok ==> View() == old(View()) && deleted == old(deleted)
      ensures ok && old(handles[h].useCount) > 1 ==> View() == Used(old(View()), h, old(handles[h].useCount) - 1)
      ensures ok && old(handles[h].useCount) == 1 ==> View() == Dropped(old(View()), h)
      ensures deleted == old(deleted) + Released(old(View()), View())
    {
      ghost var s := View();
      Lengths(s, -1);
      hide Inv, Dropped, Used;
      ok := 0 <= h < n && handles[h].useCount > 0 && 0 <= handles[h].fdId < n
        && fds[handles[h].fdId].handleCount > 0 && 0 <= fds[handles[h].fdId].inodeId < n
        && inodes[fds[handles[h].fdId].inodeId].obj != 0;
      if ok {
        PutHandle(h, -1);
      } else {
        SameHooks(s, s);
      }
    }

  }
}
