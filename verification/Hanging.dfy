/** Objects that hang in no directory are moved to lost and found, in one pass over all objects. */
module Hanging {

  const DEPTH_LIMIT := 100

  type Obj = nat

  /** The fixed directories: the root, those of unlinked and deleted objects, and lost and found. */
  datatype Fixed = Fixed(root: Obj, unlinkedDir: Obj, delDir: Obj, lostNFound: Obj)

  /** The objects that are directories, and the parent of each object that has one. */
  datatype Graph = Graph(fixed: Fixed, dirs: set<Obj>, parent: map<Obj, Obj>)

  predicate HasNullParent(g: Graph, o: Obj) {
    o == g.fixed.delDir || o == g.fixed.unlinkedDir || o == g.fixed.root
  }

  /** What the code assumes of the fixed directories. */
  predicate FixedOk(g: Graph) {
    g.fixed.root !in g.parent && g.fixed.unlinkedDir !in g.parent && g.fixed.delDir !in g.parent
    && !HasNullParent(g, g.fixed.lostNFound)
    && g.fixed.lostNFound in g.parent && g.parent[g.fixed.lostNFound] == g.fixed.root
    && g.fixed.lostNFound in g.dirs && g.fixed.root in g.dirs && g.fixed.unlinkedDir in g.dirs
    && g.fixed.delDir in g.dirs
  }

  /** The object has a parent that is a directory. */
  predicate InDirectory(g: Graph, o: Obj) {
    o in g.parent && g.parent[o] in g.dirs
  }

  /** The root is at most `k` directories up. */
  predicate Reaches(g: Graph, o: Obj, k: nat)
    decreases k
  {
    o == g.fixed.root || (k > 0 && InDirectory(g, o) && Reaches(g, g.parent[o], k - 1))
  }

  /** An object is in its place: its parent is a fixed directory or one under the root, not too deep. */
  predicate InPlace(g: Graph, o: Obj) {
    HasNullParent(g, o)
    || (InDirectory(g, o) && (HasNullParent(g, g.parent[o]) || Reaches(g, g.parent[o], DEPTH_LIMIT)))
  }

  /** A chain of at most `k` parents, all of them directories, that ends in one of the three fixed directories. */
  predicate Chain(g: Graph, o: Obj, k: nat)
    decreases k
  {
    HasNullParent(g, o) || (k > 0 && InDirectory(g, o) && Chain(g, g.parent[o], k - 1))
  }

  lemma {:induction false} ReachesFurther(g: Graph, o: Obj, k: nat, m: nat)
    requires Reaches(g, o, k) && k <= m
    ensures Reaches(g, o, m)
    decreases k
  {
    if o != g.fixed.root {
      ReachesFurther(g, g.parent[o], k - 1, m - 1);
    }
  }

  /** An object in its place is on a chain, and so on no cycle. */
  lemma {:induction false} ReachesChain(g: Graph, o: Obj, k: nat)
    requires Reaches(g, o, k)
    ensures Chain(g, o, k)
    decreases k
  {
    if o != g.fixed.root {
      ReachesChain(g, g.parent[o], k - 1);
    }
  }

  lemma InPlaceChain(g: Graph, o: Obj)
    requires InPlace(g, o)
    ensures Chain(g, o, DEPTH_LIMIT + 1)
  {
    if !HasNullParent(g, o) && !HasNullParent(g, g.parent[o]) {
      ReachesChain(g, g.parent[o], DEPTH_LIMIT);
    }
  }

  function Up(g: Graph, o: Obj, j: nat): Obj
    decreases j
  {
    if j == 0 || o !in g.parent then o else Up(g, g.parent[o], j - 1)
  }

  /** Going up a chain from an object never comes back to it: else the chain could be cut short again and again. */
  lemma {:induction false} ChainNoCycle(g: Graph, o: Obj, k: nat, j: nat)
    requires FixedOk(g) && Chain(g, o, k) && o in g.parent && 0 < j
    ensures Up(g, o, j) != o
    decreases k
  {
    if k > 0 && Up(g, o, j) == o {
      RoundChain(g, o, k, j);
      ChainNoCycle(g, o, if j <= k then k - j else 0, j);
    }
  }

  /** If going up comes back, the chain is the same again from there. */
  lemma {:induction false} RoundChain(g: Graph, o: Obj, k: nat, j: nat)
    requires FixedOk(g) && Chain(g, o, k)
    ensures Chain(g, Up(g, o, j), if j <= k then k - j else 0)
    decreases j
  {
    if j > 0 && o in g.parent {
      if k > 0 && !HasNullParent(g, o) {
        RoundChain(g, g.parent[o], k - 1, j - 1);
      }
    }
  }

  // ---------- Moving one object ----------

  /** An object moved to lost and found. */
  function Moved(g: Graph, x: Obj): Graph {
    g.(parent := g.parent[x := g.fixed.lostNFound])
  }

  /** No chain to the root leads through an object that is not in its place. */
  lemma {:induction false} ReachesAround(g: Graph, x: Obj, o: Obj, k: nat)
    requires !InPlace(g, x) && Reaches(g, o, k) && k <= DEPTH_LIMIT
    ensures Reaches(Moved(g, x), o, k)
    decreases k
  {
    if o != g.fixed.root {
      if o == x {
        ReachesFurther(g, g.parent[o], k - 1, DEPTH_LIMIT);
      } else {
        ReachesAround(g, x, g.parent[o], k - 1);
      }
    }
  }

  /** Moving such an object puts it in its place and leaves every other that is there in its own. */
  lemma MovedKeeps(g: Graph, x: Obj, o: Obj)
    requires FixedOk(g) && !InPlace(g, x)
    ensures FixedOk(Moved(g, x)) && InPlace(Moved(g, x), x)
    ensures InPlace(g, o) ==> InPlace(Moved(g, x), o)
  {
    var g', l := Moved(g, x), g.fixed.lostNFound;
    assert InPlace(g, l);
    assert Reaches(g', l, 1);
    ReachesFurther(g', l, 1, DEPTH_LIMIT);
    if InPlace(g, o) && !HasNullParent(g, o) && o != x && !HasNullParent(g, g.parent[o]) {
      ReachesAround(g, x, g.parent[o], DEPTH_LIMIT);
    }
  }

  // ---------- The pass ----------

  class Volume {
    const fixed: Fixed
    const dirs: set<Obj>
    /** The hash table of all objects. */
    const buckets: seq<seq<Obj>>
    var parent: map<Obj, Obj>
    /** The list of children that each directory keeps. */
    var children: map<Obj, set<Obj>>

    ghost function View(): Graph
      reads this`parent
    {
      Graph(fixed, dirs, parent)
    }

    /** An object is in the list of its parent and in no other. */
    ghost predicate Listed()
      reads this
    {
      (forall p :: p in children ==> forall o :: o in children[p] <==> o in parent && parent[o] == p)
      && forall o :: o in parent ==> parent[o] in children
    }

    /** Any graph of parents, with the lists of children that go with it. */
    constructor (g: Graph, buckets: seq<seq<Obj>>)
      ensures View() == g && this.buckets == buckets && Listed()
      ensures FixedOk(g) ==> g.fixed.lostNFound in children
    {
      fixed, dirs, this.buckets, parent := g.fixed, g.dirs, buckets, g.parent;
      children := map p | p in g.dirs + g.parent.Values :: set o | o in g.parent && g.parent[o] == p;
    }

    /** Whether the object hangs, found by following its parents a hundred times at most. */
    method IsHanging(obj: Obj) returns (hanging: bool)
      requires FixedOk(View())
      ensures hanging <==> !InPlace(View(), obj)
    {
      ghost var g := View();
      if obj == fixed.delDir || obj == fixed.unlinkedDir || obj == fixed.root {
        return false;
      }
      if obj !in parent || parent[obj] !in dirs {
        return true;
      }
      var p := parent[obj];
      if p == fixed.delDir || p == fixed.unlinkedDir || p == fixed.root {
        return false;
      }
      var depthLimit := DEPTH_LIMIT;
      while p != fixed.root && p in parent && parent[p] in dirs && depthLimit > 0
        invariant depthLimit >= 0
        invariant Reaches(g, p, depthLimit) <==> Reaches(g, parent[obj], DEPTH_LIMIT)
        decreases depthLimit
      {
        p := parent[p];
        depthLimit := depthLimit - 1;
      }
      hanging := p != fixed.root;
    }

    method AddObjToDir(dir: Obj, obj: Obj)
      requires Listed() && dir in dirs && dir in children
      modifies this
      ensures Listed() && parent == old(parent)[obj := dir] && children.Keys == old(children.Keys)
    {
      if obj in parent {
        var p := parent[obj];
        children := children[p := children[p] - {obj}];
        parent := parent - {obj};
      }
      children := children[dir := children[dir] + {obj}];
      parent := parent[obj := dir];
    }

    /**
     * After one pass every object in the hash table is in its place, whatever the parents were: cycles, missing
     * parents, or parents that are no directories. Objects that were in their place have not moved.
     */
    method FixHangingObjs()
      requires FixedOk(View()) && Listed() && fixed.lostNFound in children
      modifies this
      ensures FixedOk(View()) && Listed()
      ensures forall b, k :: 0 <= b < |buckets| && 0 <= k < |buckets[b]| ==>
        InPlace(View(), buckets[b][k]) && Chain(View(), buckets[b][k], DEPTH_LIMIT + 1)
      ensures forall o :: InPlace(old(View()), o) ==> (o in parent <==> o in old(parent))
      ensures forall o :: InPlace(old(View()), o) && o in parent ==> parent[o] == old(parent[o])
      ensures forall o :: o in parent && (o !in old(parent) || parent[o] != old(parent[o])) ==>
        parent[o] == fixed.lostNFound
    {
      hide InPlace, Chain, Listed;
      ghost var was := View();
      KeptSelf(was);
      for i := 0 to |buckets|
        invariant Kept(was, View()) && Listed() && fixed.lostNFound in children
        invariant Done(View(), i)
      {
        for j := 0 to |buckets[i]|
          invariant Kept(was, View()) && Listed() && fixed.lostNFound in children
          invariant Done(View(), i) && forall k :: 0 <= k < j ==> InPlace(View(), buckets[i][k])
        {
          FixOne(buckets[i][j], was);
        }
      }
      forall b, k | 0 <= b < |buckets| && 0 <= k < |buckets[b]|
        ensures Chain(View(), buckets[b][k], DEPTH_LIMIT + 1)
      {
        InPlaceChain(View(), buckets[b][k]);
      }
    }

    ghost predicate Done(g: Graph, i: nat)
      requires i <= |buckets|
    {
      forall b, k :: 0 <= b < i && 0 <= k < |buckets[b]| ==> InPlace(g, buckets[b][k])
    }

    /** One object is looked at, and moved if it hangs. */
    method FixOne(obj: Obj, ghost was: Graph)
      requires Kept(was, View()) && Listed() && fixed.lostNFound in children
      modifies this
      ensures Kept(was, View()) && Listed() && fixed.lostNFound in children
      ensures InPlace(View(), obj) && forall o :: InPlace(old(View()), o) ==> InPlace(View(), o)
    {
      hide InPlace, Listed;
      ghost var g := View();
      var hanging := IsHanging(obj);
      if hanging {
        AddObjToDir(fixed.lostNFound, obj);
        assert View() == Moved(g, obj);
        KeptMore(was, g, obj);
      }
    }

    lemma KeptSelf(g: Graph)
      requires FixedOk(g)
      ensures Kept(g, g)
    {}

    /** Objects in their place have not moved, and those that have moved are in lost and found. */
    ghost predicate Kept(g: Graph, h: Graph) {
      FixedOk(h) && h.fixed == g.fixed && h.dirs == g.dirs
      && (forall o :: InPlace(g, o) ==>
            InPlace(h, o) && (o in h.parent <==> o in g.parent) && (o in h.parent ==> h.parent[o] == g.parent[o]))
      && forall o :: o in h.parent && (o !in g.parent || h.parent[o] != g.parent[o]) ==>
        h.parent[o] == g.fixed.lostNFound
    }

    lemma KeptMore(g: Graph, h: Graph, x: Obj)
      requires Kept(g, h) && !InPlace(h, x)
      ensures Kept(g, Moved(h, x)) && InPlace(Moved(h, x), x)
      ensures forall o :: InPlace(h, o) ==> InPlace(Moved(h, x), o)
    {
      MovedKeeps(h, x, x);
      forall o | InPlace(h, o)
        ensures InPlace(Moved(h, x), o)
      {
        MovedKeeps(h, x, o);
      }
    }
  }
}
