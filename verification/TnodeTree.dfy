/**
 * The tree that finds the leaf of a chunk: grown upwards and downwards on demand, trimmed, and
 * written to and read back from a checkpoint as records of leaves.
 */
module TnodeTree {
  import opened Basics
  import opened Words
  import TnodeLeaf

  const SLOTS := TnodeLeaf.SLOTS
  const INTERNAL := 8
  const MAX_LEVEL := 8
  const MAX_CHUNK_ID := 0x1000_0000 - 1

  // ---------- Where a leaf lies ----------

  function Up(idx: nat, level: nat): nat {
    if level == 0 then idx else Up(idx, level - 1) / INTERNAL
  }

  function Pow(level: nat): nat {
    if level == 0 then 1 else INTERNAL * Pow(level - 1)
  }

  /** The bits of the chunk number that choose a child, as the code shifts them out. */
  lemma {:induction false} UpIsShift(idx: nat, level: nat)
    ensures Pow(level) > 0 && Up(idx, level) == idx / Pow(level)
  {
    if level > 0 {
      UpIsShift(idx, level - 1);
      DivTwice(idx, Pow(level - 1), INTERNAL);
    }
  }

  lemma UpStep(idx: nat, level: nat)
    requires level > 0
    ensures Up(idx, level - 1) == INTERNAL * Up(idx, level) + Up(idx, level - 1) % INTERNAL
  {}

  /** Which child of a node leads to a chunk. */
  function Digit(chunk: nat, level: nat): (d: nat)
    requires level > 0
    ensures d < INTERNAL && d == Up(chunk / SLOTS, level - 1) % INTERNAL
  {
    UpIsShift(chunk / SLOTS, level - 1);
    DivTwice(chunk, SLOTS, Pow(level - 1));
    chunk / (SLOTS * Pow(level - 1)) % INTERNAL
  }

  lemma DivTwice(n: nat, a: nat, b: nat)
    requires a > 0 && b > 0
    ensures a * b > 0 && n / a / b == n / (a * b)
  {
    var q, r := n / a, n % a;
    var c, d := q / b, q % b;
    assert n == q * a + r && q == b * c + d;
    Distribute(a, b, c, d);
    LessTimes(a, b, d);
    Quotient(a * b, n, c, d * a + r);
  }

  lemma Distribute(a: nat, b: nat, c: nat, d: nat)
    ensures (b * c + d) * a == c * (a * b) + d * a
  {
    assert (b * c + d) * a == b * c * a + d * a;
  }

  lemma LessTimes(a: nat, b: nat, d: nat)
    requires d < b && a > 0
    ensures d * a + a <= a * b && a * b > 0
  {
    assert a * b == (b - d - 1) * a + d * a + a;
  }

  lemma {:induction false} UpZero(idx: nat, level: nat, more: nat)
    requires level <= more && Up(idx, level) == 0
    ensures Up(idx, more) == 0
  {
    if level < more {
      UpZero(idx, level, more - 1);
    }
  }

  /** The number of levels above the leaves that a leaf needs. */
  method RequiredDepth(idx: nat) returns (depth: nat)
    ensures Up(idx, depth) == 0 && (depth > 0 ==> Up(idx, depth - 1) > 0)
  {
    var x := idx;
    depth := 0;
    while x > 0
      invariant x == Up(idx, depth) && (depth > 0 ==> Up(idx, depth - 1) > 0)
      decreases x
    {
      x := x / INTERNAL;
      depth := depth + 1;
    }
  }

  lemma EightLevels(idx: nat)
    requires idx <= MAX_CHUNK_ID / SLOTS
    ensures Up(idx, MAX_LEVEL) == 0
  {
    UpIsShift(idx, MAX_LEVEL);
    assert Pow(MAX_LEVEL) == 0x100_0000;
  }

  // ---------- The shape of a tree ----------

  /** Internal nodes use the children and leaves use the words; both lie in the same memory. */
  class Tnode {
    var internal: seq<Tnode?>
    var words: seq<bv32>

    constructor (n: nat)
      ensures internal == seq(INTERNAL, i => null) && words == seq(n, i => 0)
    {
      internal, words := seq(INTERNAL, i => null), seq(n, i => 0);
    }
  }

  /** The level of a node and its place in the level. */
  type Label = (nat, nat)

  /** The nodes by level and place, with their children. */
  datatype Shape = Shape(node: map<Label, Tnode>, kids: map<Label, seq<Tnode?>>, height: nat)

  ghost function At(s: Shape, level: nat, place: nat): Tnode? {
    if (level, place) in s.node then s.node[(level, place)] else null
  }

  /** If there is a node here its children are the nodes below it, and there is a way up from it to the top. */
  ghost predicate Here(s: Shape, l: nat, p: nat) {
    (l, p) in s.node ==>
      (l, p) in s.kids && |s.kids[(l, p)]| == INTERNAL
      && (l > 0 ==> forall i :: 0 <= i < INTERNAL ==> s.kids[(l, p)][i] == At(s, l - 1, INTERNAL * p + i))
      && if l < s.height then (l + 1, p / INTERNAL) in s.node else l == s.height && p == 0
  }

  /** Every node is linked to the top and no node is in two places. */
  ghost predicate Joined(s: Shape) {
    (s.height, 0) in s.node && s.height <= MAX_LEVEL
    && (forall l, p {:trigger Here(s, l, p)} :: Here(s, l, p))
    && (forall k, m :: k in s.node && m in s.node && s.node[k] == s.node[m] ==> k == m)
  }

  /** Besides, the first children reach from the top down to a leaf. */
  ghost predicate Linked(s: Shape) {
    Joined(s) && forall l: nat :: l <= s.height ==> (l, 0) in s.node
  }

  lemma {:induction false} Ancestor(s: Shape, p: nat, l: nat)
    requires Linked(s) && (0, p) in s.node && l <= s.height
    ensures (l, Up(p, l)) in s.node
  {
    if l > 0 {
      Ancestor(s, p, l - 1);
      assert Here(s, l - 1, Up(p, l - 1));
    }
  }

  lemma TallEnough(s: Shape, p: nat)
    requires Linked(s) && (0, p) in s.node
    ensures Up(p, s.height) == 0
  {
    Ancestor(s, p, s.height);
    assert Here(s, s.height, Up(p, s.height));
  }

  lemma Child(s: Shape, l: nat, p: nat, i: nat)
    requires (Linked(s) || Joined(s)) && (l, p) in s.node && l > 0 && i < INTERNAL
    ensures (l, p) in s.kids && |s.kids[(l, p)]| == INTERNAL && s.kids[(l, p)][i] == At(s, l - 1, INTERNAL * p + i)
  {
    assert Here(s, l, p);
  }

  lemma OnePlace(s: Shape, l: nat, p: nat)
    requires (Linked(s) || Joined(s)) && (l, p) in s.node
    ensures forall k :: k in s.node && s.node[k] == s.node[(l, p)] ==> k == (l, p)
  {}

  function NoKids(): (k: seq<Tnode?>)
    ensures |k| == INTERNAL && forall i :: 0 <= i < INTERNAL ==> k[i] == null
  {
    seq(INTERNAL, i => null)
  }

  /** A new top, above the old one. */
  ghost function Grown(s: Shape, top: Tnode): Shape {
    Shape(s.node[(s.height + 1, 0) := top], s.kids[(s.height + 1, 0) := NoKids()[0 := At(s, s.height, 0)]], s.height + 1)
  }

  lemma GrownLinked(s: Shape, top: Tnode)
    requires Linked(s) && s.height < MAX_LEVEL && top !in s.node.Values
    ensures Linked(Grown(s, top))
  {
    var s' := Grown(s, top);
    forall l: nat, p: nat
      ensures Here(s', l, p)
    {
      assert Here(s, l, p);
      if (l, p) == (s.height + 1, 0) {
        forall i: nat | 0 < i < INTERNAL
          ensures (s.height, i) !in s.node
        {
          assert Here(s, s.height, i);
        }
      }
    }
  }

  /** A node without children, hung below the node above its place. */
  ghost function Hung(s: Shape, l: nat, p: nat, child: Tnode): Shape
    requires (l + 1, p / INTERNAL) in s.kids && |s.kids[(l + 1, p / INTERNAL)]| == INTERNAL
  {
    var above := (l + 1, p / INTERNAL);
    Shape(s.node[(l, p) := child], s.kids[above := s.kids[above][p % INTERNAL := child]][(l, p) := NoKids()], s.height)
  }

  lemma HungLinked(s: Shape, l: nat, p: nat, child: Tnode)
    requires Linked(s) && l < s.height && (l + 1, p / INTERNAL) in s.node && child !in s.node.Values
    requires l > 0 ==> (l, p) !in s.node
    ensures (l + 1, p / INTERNAL) in s.kids && |s.kids[(l + 1, p / INTERNAL)]| == INTERNAL
    ensures Linked(Hung(s, l, p, child))
  {
    assert Here(s, l + 1, p / INTERNAL);
    var s' := Hung(s, l, p, child);
    forall i: nat, q: nat
      ensures Here(s', i, q)
    {
      HungHere(s, l, p, child, i, q);
    }
  }

  lemma HungHere(s: Shape, l: nat, p: nat, child: Tnode, i: nat, q: nat)
    requires Linked(s) && l < s.height && (l + 1, p / INTERNAL) in s.node && Here(s, l + 1, p / INTERNAL)
    requires l > 0 ==> (l, p) !in s.node
    ensures Here(Hung(s, l, p, child), i, q)
  {
    var s' := Hung(s, l, p, child);
    assert Here(s, i, q);
    if (i, q) in s'.node && i > 0 {
      forall c | 0 <= c < INTERNAL
        ensures s'.kids[(i, q)][c] == At(s', i - 1, INTERNAL * q + c)
      {
        ChildPlace(q, c);
        assert Here(s, i - 1, INTERNAL * q + c);
      }
    }
  }

  lemma ChildPlace(q: nat, c: nat)
    requires c < INTERNAL
    ensures (INTERNAL * q + c) / INTERNAL == q && (INTERNAL * q + c) % INTERNAL == c
  {}

  ghost predicate Childless(s: Shape, l: nat, p: nat)
    requires l > 0
  {
    forall q: nat :: (l - 1, q) in s.node ==> q / INTERNAL != p
  }

  /** The node has no child before child `i`. */
  ghost predicate NoneTo(s: Shape, l: nat, p: nat, i: nat)
    requires l > 0
  {
    forall q: nat :: (l - 1, q) in s.node && q / INTERNAL == p ==> q % INTERNAL >= i
  }

  lemma NoneToNext(s: Shape, l: nat, p: nat, i: nat)
    requires l > 0 && i < INTERNAL && NoneTo(s, l, p, i) && At(s, l - 1, INTERNAL * p + i) == null
    ensures NoneTo(s, l, p, i + 1) && (i + 1 == INTERNAL ==> Childless(s, l, p))
  {}

  /** Besides its first child the top has another. */
  ghost predicate Wide(s: Shape) {
    s.height > 0 && exists l: nat, q: nat :: (l, q) in s.node && l == s.height - 1 && q > 0
  }

  /** The place is given up, and the child above it with it. */
  ghost function Unhung(s: Shape, l: nat, p: nat): Shape
    requires (l + 1, p / INTERNAL) in s.kids && |s.kids[(l + 1, p / INTERNAL)]| == INTERNAL
  {
    var above := (l + 1, p / INTERNAL);
    Shape(s.node - {(l, p)}, (s.kids - {(l, p)})[above := s.kids[above][p % INTERNAL := null]], s.height)
  }

  lemma UnhungJoined(s: Shape, l: nat, p: nat)
    requires Joined(s) && (l, p) in s.node && l < s.height
    requires l > 0 ==> Childless(s, l, p)
    ensures (l + 1, p / INTERNAL) in s.node && (l + 1, p / INTERNAL) in s.kids
    ensures |s.kids[(l + 1, p / INTERNAL)]| == INTERNAL && Joined(Unhung(s, l, p))
  {
    assert Here(s, l, p) && Here(s, l + 1, p / INTERNAL);
    var s' := Unhung(s, l, p);
    forall i: nat, q: nat
      ensures Here(s', i, q)
    {
      UnhungHere(s, l, p, i, q);
    }
  }

  lemma UnhungHere(s: Shape, l: nat, p: nat, i: nat, q: nat)
    requires Joined(s) && (l, p) in s.node && l < s.height
    requires l > 0 ==> Childless(s, l, p)
    requires (l + 1, p / INTERNAL) in s.kids && |s.kids[(l + 1, p / INTERNAL)]| == INTERNAL
    ensures Here(Unhung(s, l, p), i, q)
  {
    var s' := Unhung(s, l, p);
    assert Here(s, i, q);
    if (i, q) in s'.node {
      if i > 0 {
        forall c | 0 <= c < INTERNAL
          ensures s'.kids[(i, q)][c] == At(s', i - 1, INTERNAL * q + c)
        {
          ChildPlace(q, c);
        }
      }
    }
  }

  /** The top is given up where its first child is the only one. */
  ghost function Trimmed(s: Shape): Shape
    requires s.height > 0
  {
    Shape(s.node - {(s.height, 0)}, s.kids - {(s.height, 0)}, s.height - 1)
  }

  lemma TrimmedLinked(s: Shape)
    requires Linked(s) && s.height > 0 && (s.height, 0) in s.kids && |s.kids[(s.height, 0)]| == INTERNAL
    requires forall i :: 1 <= i < INTERNAL ==> s.kids[(s.height, 0)][i] == null
    ensures Linked(Trimmed(s)) && s.kids[(s.height, 0)][0] == At(s, s.height - 1, 0)
  {
    var s' := Trimmed(s);
    assert Here(s, s.height, 0);
    forall i: nat, q: nat
      ensures Here(s', i, q)
    {
      assert Here(s, i, q);
      if i == s.height - 1 && (i, q) in s.node {
        assert q / INTERNAL == 0 by {
          assert Here(s, s.height, q / INTERNAL);
        }
        assert At(s, s.height - 1, q) == s.kids[(s.height, 0)][q];
      }
    }
  }

  // ---------- Chunk numbers in the leaves ----------

  /** The first chunk of the group that holds a chunk of the file; 0 where there is none. */
  ghost function Mapped(c: imap<nat, seq<bv32>>, chunk: nat, w: nat, grp: nat): bv32
    requires grp <= 32 && TnodeLeaf.Width(w) && forall q :: q in c ==> |c[q]| == w / 2
  {
    if chunk / SLOTS in c then TnodeLeaf.Left(TnodeLeaf.Fetched(c[chunk / SLOTS], chunk % SLOTS, w), grp) else 0
  }

  ghost predicate LeavesOk(c: imap<nat, seq<bv32>>, w: nat) {
    TnodeLeaf.Width(w) && forall q :: q in c ==> |c[q]| == w / 2
  }

  /** Storing into the leaf of a chunk, new or not, changes what that chunk maps to and nothing else. */
  lemma PutMaps(c: imap<nat, seq<bv32>>, chunk: nat, nand: bv32, w: nat, grp: nat, other: nat)
    requires LeavesOk(c, w) && grp <= 32 && TnodeLeaf.Fits(nand, w, grp)
    ensures var idx := chunk / SLOTS;
      var leaf := if idx in c then c[idx] else seq(w / 2, i => 0);
      var c' := c[idx := TnodeLeaf.Stored(leaf, chunk % SLOTS, TnodeLeaf.Right(nand, grp), w)];
      LeavesOk(c', w)
      && Mapped(c', other, w, grp) == if other == chunk then TnodeLeaf.GroupBase(nand, grp) else Mapped(c, other, w, grp)
  {
    hide TnodeLeaf.Stored, TnodeLeaf.Fetched, TnodeLeaf.Left, TnodeLeaf.Right, TnodeLeaf.And, TnodeLeaf.Mask;
    var idx := chunk / SLOTS;
    var leaf := if idx in c then c[idx] else seq(w / 2, i => 0);
    if other == chunk {
      TnodeLeaf.GroupReadsBack(leaf, chunk % SLOTS, nand, w, grp);
    } else if other / SLOTS == idx {
      if chunk % SLOTS == other % SLOTS {
        SameSlot(chunk, other);
      }
      TnodeLeaf.StoredElsewhere(leaf, chunk % SLOTS, TnodeLeaf.Right(nand, grp), w, other % SLOTS);
      if idx !in c {
        TnodeLeaf.EmptySlots(leaf, w, other % SLOTS);
        ZeroShifted(grp);
      }
    }
  }

  lemma SameSlot(a: nat, b: nat)
    requires a / SLOTS == b / SLOTS && a % SLOTS == b % SLOTS
    ensures a == b
  {}

  lemma ZeroShifted(grp: nat)
    requires grp <= 32
    ensures TnodeLeaf.Left(0, grp) == 0
  {}

  // ---------- The tree of a file ----------

  class Tree {
    const nWords: nat
    var top: Tnode
    var topLevel: nat
    ghost var node: map<Label, Tnode>

    ghost function View(): Shape
      reads this`node, this`topLevel, node.Values`internal
    {
      Shape(node, map k | k in node :: node[k].internal, topLevel)
    }

    ghost predicate Valid()
      reads this, node.Values
    {
      Linked(View()) && top == node[(topLevel, 0)] && forall k :: k in node ==> |node[k].words| == nWords
    }

    /** The leaves, by number. */
    ghost function Content(): imap<nat, seq<bv32>>
      reads this`node, node.Values`words
    {
      Leaves(node)
    }

    constructor (n: nat)
      ensures Valid() && nWords == n && topLevel == 0
      ensures Content() == imap[0 := seq(n, i => 0)]
      ensures fresh(node.Values)
    {
      nWords := n;
      var t := new Tnode(n);
      top, topLevel := t, 0;
      node := map[(0, 0) := t];
    }

    /** The leaf of a chunk, if there is one. */
    method FindTnode0(chunk: nat) returns (tn: Tnode?)
      requires Valid()
      ensures tn == if chunk <= MAX_CHUNK_ID then At(View(), 0, chunk / SLOTS) else null
    {
      if chunk > MAX_CHUNK_ID {
        return null;
      }
      var idx := chunk / SLOTS;
      var depth := RequiredDepth(idx);
      ghost var s := View();
      hide Linked, Here;
      if depth > topLevel {
        if (0, idx) in node {
          TallEnough(s, idx);
          UpZero(idx, topLevel, depth - 1);
        }
        return null;
      }
      UpZero(idx, depth, topLevel);
      tn := top;
      var level := topLevel;
      while level > 0 && tn != null
        invariant 0 <= level <= topLevel && tn == At(s, level, Up(idx, level))
      {
        UpStep(idx, level);
        Child(s, level, Up(idx, level), Digit(chunk, level));
        tn := tn.internal[Digit(chunk, level)];
        level := level - 1;
      }
      if tn == null && (0, idx) in node {
        Ancestor(s, idx, level);
      }
    }

    // ---------- Adding ----------

    /** A node from the allocator, which may have none left. */
    method GetTnode() returns (tn: Tnode?)
      ensures tn != null ==>
        fresh(tn) && tn.internal == NoKids() && tn.words == seq(nWords, i => 0)
    {
      var ok: bool := *;
      tn := null;
      if ok {
        tn := new Tnode(nWords);
      }
    }

    /** One level more: the tree so far becomes the first child of a new top. */
    method Grow() returns (ok: bool)
      requires Valid() && topLevel < MAX_LEVEL
      modifies this`top, this`topLevel, this`node
      ensures Valid() && Content() == old(Content())
      ensures topLevel == old(topLevel) + if ok then 1 else 0
      ensures node.Values >= old(node.Values) && fresh(node.Values - old(node.Values))
    {
      ghost var s := View();
      var tn := GetTnode();
      if tn == null {
        return false;
      }
      Raise(tn);
      ok := true;
    }

    method Raise(tn: Tnode)
      requires Valid() && topLevel < MAX_LEVEL
      requires tn !in node.Values && tn.internal == NoKids() && |tn.words| == nWords
      modifies this`top, this`topLevel, this`node, tn`internal
      ensures Valid() && Content() == old(Content()) && topLevel == old(topLevel) + 1
      ensures node.Values == old(node.Values) + {tn}
    {
      hide Linked, Joined, Here, Leaves;
      ghost var s := View();
      GrownLinked(s, tn);
      NoPlace(s);
      TopAt();
      tn.internal := tn.internal[0 := top];
      top := tn;
      node := node[(topLevel + 1, 0) := tn];
      topLevel := topLevel + 1;
      GrownView(s, tn);
      WithLeaf(old(node), topLevel, 0, tn);
      Values(old(node), (topLevel, 0), tn);
    }

    lemma GrownView(s: Shape, tn: Tnode)
      requires node == s.node[(s.height + 1, 0) := tn] && topLevel == s.height + 1 && (s.height + 1, 0) !in s.node
      requires tn.internal == NoKids()[0 := At(s, s.height, 0)] && s.kids.Keys == s.node.Keys
      requires forall k :: k in s.node ==> k in s.kids && node[k].internal == s.kids[k]
      ensures View() == Grown(s, tn)
    {}

    lemma NoPlace(s: Shape)
      requires Linked(s)
      ensures (s.height + 1, 0) !in s.node
    {
      assert Here(s, s.height + 1, 0);
    }

    lemma Values(m: map<Label, Tnode>, k: Label, n: Tnode)
      requires k !in m && node == m[k := n]
      ensures node.Values == m.Values + {n}
    {
      forall x | x in m.Values + {n}
        ensures x in node.Values
      {
        if x != n {
          var j :| j in m && m[j] == x;
          assert node[j] == x;
        } else {
          assert node[k] == n;
        }
      }
    }

    /** Hangs a node with no children below the node above the place (l, p). */
    method Attach(parent: Tnode, child: Tnode, l: nat, ghost p: nat, digit: nat)
      requires Valid() && l < topLevel && (l + 1, p / INTERNAL) in node && parent == node[(l + 1, p / INTERNAL)]
      requires digit == p % INTERNAL && (l > 0 ==> (l, p) !in node)
      requires child !in node.Values && child.internal == NoKids() && |child.words| == nWords
      modifies this`node, parent`internal
      ensures Valid() && At(View(), l, p) == child && At(View(), l + 1, p / INTERNAL) == parent
      ensures node.Values <= old(node.Values) + {child}
      ensures (l, p) in node && node == old(node)[(l, p) := child]
      ensures Content() == if l > 0 then old(Content()) else old(Content())[p := child.words]
    {
      HungLinked(View(), l, p, child);
      TopAt();
      NotTop(View(), l, p);
      hide Linked, Joined, Here, Leaves, Hung;
      Hang(parent, child, l, p, digit);
      WithLeaf(old(node), l, p, child);
    }

    lemma NotTop(s: Shape, l: nat, p: nat)
      requires l < s.height && (l + 1, p / INTERNAL) in s.node && (l + 1, p / INTERNAL) in s.kids
      requires |s.kids[(l + 1, p / INTERNAL)]| == INTERNAL
      ensures forall c :: At(Hung(s, l, p, c), l, p) == c
      ensures forall c :: At(Hung(s, l, p, c), l + 1, p / INTERNAL) == At(s, l + 1, p / INTERNAL)
    {}

    method Hang(parent: Tnode, child: Tnode, l: nat, ghost p: nat, digit: nat)
      requires Linked(View()) && l < topLevel && (l + 1, p / INTERNAL) in node && parent == node[(l + 1, p / INTERNAL)]
      requires (l + 1, p / INTERNAL) in View().kids && |View().kids[(l + 1, p / INTERNAL)]| == INTERNAL
      requires digit == p % INTERNAL && child !in node.Values && child.internal == NoKids()
      modifies this`node, parent`internal
      ensures node == old(node)[(l, p) := child] && View() == Hung(old(View()), l, p, child)
    {
      ghost var s := View();
      OnePlace(s, l + 1, p / INTERNAL);
      hide Linked, Joined, Here;
      parent.internal := parent.internal[digit := child];
      node := node[(l, p) := child];
      HungView(s, l, p, child, parent);
    }

    lemma HungView(s: Shape, l: nat, p: nat, child: Tnode, parent: Tnode)
      requires Linked(s) && (l + 1, p / INTERNAL) in s.kids && |s.kids[(l + 1, p / INTERNAL)]| == INTERNAL
      requires node == s.node[(l, p) := child] && topLevel == s.height && child.internal == NoKids()
      requires forall k :: k in s.node && k != (l, p) ==>
        node[k].internal == if k == (l + 1, p / INTERNAL) then s.kids[k][p % INTERNAL := child]
          else if k in s.kids then s.kids[k] else NoKids()
      requires s.kids.Keys == s.node.Keys
      ensures View() == Hung(s, l, p, child)
    {
      hide Linked;
    }

    lemma WithLeaf(was: map<Label, Tnode>, l: nat, p: nat, child: Tnode)
      requires node == was[(l, p) := child]
      ensures Content() == if l > 0 then Leaves(was) else Leaves(was)[p := child.words]
    {}

    ghost function Leaves(m: map<Label, Tnode>): imap<nat, seq<bv32>>
      reads m.Values`words
    {
      imap p: nat | (0, p) in m :: m[(0, p)].words
    }

    /** The leaves after adding one: the passed words, or an empty leaf if there was none. */
    ghost function Added(c: imap<nat, seq<bv32>>, idx: nat, passed: Tnode?): imap<nat, seq<bv32>>
      reads if passed == null then {} else {passed}
    {
      if passed != null then c[idx := passed.words]
      else if idx in c then c
      else c[idx := seq(nWords, i => 0)]
    }

    ghost predicate Passable(passed: Tnode?)
      reads this, node.Values, if passed == null then {} else {passed}
    {
      passed != null ==> passed !in node.Values && passed.internal == NoKids() && |passed.words| == nWords
    }

    /** Below the node at level `l` on the way to leaf `idx`, a new node is hung if there is none. */
    method NewChild(tn: Tnode, l: nat, idx: nat, x: nat) returns (child: Tnode?)
      requires Valid() && 0 < l <= topLevel && tn == At(View(), l, Up(idx, l)) && x == Up(idx, l - 1) % INTERNAL
      requires At(View(), l - 1, Up(idx, l - 1)) == null
      modifies this`node, tn`internal
      ensures Valid() && At(View(), l, Up(idx, l)) == tn && child == At(View(), l - 1, Up(idx, l - 1))
      ensures child == null ==> Content() == old(Content())
      ensures child != null ==>
        Content() == if l > 1 then old(Content()) else old(Content())[idx := seq(nWords, i => 0)]
      ensures fresh(node.Values - old(node.Values))
    {
      ghost var p := Up(idx, l - 1);
      UpStep(idx, l);
      hide Linked, Joined, Here, Leaves;
      child := GetTnode();
      if child != null {
        Attach(tn, child, l - 1, p, x);
      }
    }

    /** One level down towards leaf `idx`, adding the node if it is missing, or hanging the leaf passed in. */
    method StepDown(tn: Tnode, l: nat, chunk: nat, passed: Tnode?) returns (child: Tnode?)
      requires Valid() && 0 < l <= topLevel && tn == At(View(), l, Up(chunk / SLOTS, l)) && Passable(passed)
      modifies this`node, tn`internal
      ensures Valid() && topLevel == old(topLevel) && top == old(top)
      ensures child == null ==> Content() == old(Content())
      ensures child != null ==> child == At(View(), l - 1, Up(chunk / SLOTS, l - 1))
      ensures child != null ==>
        Content() == if l > 1 then old(Content()) else Added(old(Content()), chunk / SLOTS, passed)
      ensures fresh(node.Values - old(node.Values) - {passed})
      ensures l > 1 ==> passed !in node.Values
    {
      ghost var idx := chunk / SLOTS;
      var x := Digit(chunk, l);
      UpStep(idx, l);
      Child(View(), l, Up(idx, l), x);
      LeafHere(idx);
      hide Linked, Joined, Here, Leaves, Content;
      if l == 1 && passed != null {
        Attach(tn, passed, 0, idx, x);
        child := passed;
      } else if tn.internal[x] == null {
        child := NewChild(tn, l, chunk / SLOTS, x);
      } else {
        child := tn.internal[x];
      }
    }

    lemma LeafHere(idx: nat)
      ensures idx in Content() <==> (0, idx) in node
    {}

    /**
     * Finds the leaf of a chunk, adding it and what leads to it if missing; a leaf passed in takes its place. If there
     * is no memory part-way the tree may be taller, but its leaves are as they were.
     */
    method AddFindTnode0(chunk: nat, passed: Tnode?) returns (tn: Tnode?)
      requires Valid() && Passable(passed)
      modifies this`top, this`topLevel, this`node, node.Values`internal, node.Values`words
      ensures Valid()
      ensures tn == null ==> Content() == old(Content())
      ensures tn != null ==> chunk <= MAX_CHUNK_ID && tn == At(View(), 0, chunk / SLOTS)
      ensures tn != null ==> Content() == Added(old(Content()), chunk / SLOTS, passed)
      ensures fresh(node.Values - old(node.Values) - {passed})
    {
      hide Linked, Joined, Here, Leaves, Content, Added;
      if chunk > MAX_CHUNK_ID {
        return null;
      }
      ghost var idx := chunk / SLOTS;
      var depth := RequiredDepth(chunk / SLOTS);
      DepthBound(idx, depth);
      while topLevel < depth
        invariant Valid() && Content() == old(Content()) && Passable(passed)
        invariant fresh(node.Values - old(node.Values))
        decreases depth - topLevel
      {
        var ok := Grow();
        if !ok {
          return null;
        }
      }
      UpZero(idx, depth, topLevel);
      tn := AddPath(chunk, passed);
    }

    /** Goes down from the top to the leaf, adding what is missing. */
    method AddPath(chunk: nat, passed: Tnode?) returns (tn: Tnode?)
      requires Valid() && Passable(passed) && chunk <= MAX_CHUNK_ID && Up(chunk / SLOTS, topLevel) == 0
      modifies this`node, node.Values`internal, node.Values`words
      ensures Valid()
      ensures tn == null ==> Content() == old(Content())
      ensures tn != null ==> tn == At(View(), 0, chunk / SLOTS)
      ensures tn != null ==> Content() == Added(old(Content()), chunk / SLOTS, passed)
      ensures fresh(node.Values - old(node.Values) - {passed})
    {
      hide Linked, Joined, Here, Leaves, Content, Added;
      ghost var idx := chunk / SLOTS;
      TopAt();
      if topLevel == 0 {
        CopyPassed(passed);
        return top;
      }
      var l := topLevel;
      tn := top;
      while l > 0 && tn != null
        invariant Valid() && 0 <= l <= topLevel && tn == At(View(), l, Up(idx, l)) && tn != null
        invariant Content() == if l > 0 then old(Content()) else Added(old(Content()), idx, passed)
        invariant l > 0 ==> Passable(passed)
        invariant fresh(node.Values - old(node.Values) - {passed})
        invariant l > 0 ==> fresh(node.Values - old(node.Values))
        decreases l
      {
        tn := StepDown(tn, l, chunk, passed);
        if tn == null {
          return null;
        }
        l := l - 1;
      }
    }

    lemma DepthBound(idx: nat, depth: nat)
      requires idx <= MAX_CHUNK_ID / SLOTS && (depth > 0 ==> Up(idx, depth - 1) > 0)
      ensures depth <= MAX_LEVEL
    {
      EightLevels(idx);
      if depth > MAX_LEVEL {
        UpZero(idx, MAX_LEVEL, depth - 1);
      }
    }

    lemma TopAt()
      requires Valid()
      ensures At(View(), topLevel, 0) == top && |top.words| == nWords && topLevel <= MAX_LEVEL
    {}

    /** Where the top is the only leaf, the words of the leaf passed in are copied over it. */
    method CopyPassed(passed: Tnode?)
      requires Valid() && topLevel == 0 && Passable(passed)
      modifies top`words
      ensures Valid() && Content() == Added(old(Content()), 0, passed)
    {
      ghost var s := View();
      OneLeaf(s);
      if passed != null {
        top.words := passed.words;
      }
    }

    lemma OneLeaf(s: Shape)
      requires Linked(s) && s.height == 0
      ensures forall l: nat, p: nat :: (l, p) in s.node ==> l == 0 && p == 0
    {
      forall l: nat, p: nat | (l, p) in s.node
        ensures l == 0 && p == 0
      {
        assert Here(s, l, p);
      }
    }

    // ---------- Pruning ----------

    /** Shortens the tree while only the first child of the top is in use. Every leaf stays. */
    method Trim()
      requires Valid()
      modifies this`top, this`topLevel, this`node
      ensures Valid() && Content() == old(Content()) && topLevel <= old(topLevel)
      ensures topLevel > 0 ==> Wide(View())
      ensures node.Values <= old(node.Values)
    {
      hide Linked, Here, Leaves, Joined;
      var done := false;
      while topLevel > 0 && !done
        invariant Valid() && Content() == old(Content()) && topLevel <= old(topLevel)
        invariant done ==> Wide(View())
        invariant node.Values <= old(node.Values)
        decreases topLevel, !done
      {
        done := TrimOne();
      }
    }

    method TrimOne() returns (done: bool)
      requires Valid() && topLevel > 0
      modifies this`top, this`topLevel, this`node
      ensures Valid() && Content() == old(Content()) && node.Values <= old(node.Values)
      ensures if done then topLevel == old(topLevel) else topLevel == old(topLevel) - 1
      ensures done ==> Wide(View())
    {
      hide Linked, Joined, Here;
      ghost var s := View();
      TopAt();
      var tn := top;
      Child(s, topLevel, 0, 0);
      var hasData := 0;
      for i := 1 to INTERNAL
        invariant hasData == 0 ==> forall j :: 1 <= j < i ==> tn.internal[j] == null
        invariant hasData >= 0
        invariant hasData > 0 ==> exists j :: 1 <= j < i && tn.internal[j] != null
      {
        if tn.internal[i] != null {
          hasData := hasData + 1;
        }
      }
      if hasData == 0 {
        TrimmedLinked(s);
        LeafPlaces(s);
        top := tn.internal[0];
        node := node - {(topLevel, 0)};
        topLevel := topLevel - 1;
        done := false;
        assert View() == Trimmed(s);
      } else {
        done := true;
        var j :| 1 <= j < INTERNAL && tn.internal[j] != null;
        Child(s, topLevel, 0, j);
        assert (topLevel - 1, j) in s.node;
      }
    }

    lemma LeafPlaces(s: Shape)
      requires s == View() && s.height > 0
      ensures Leaves(node - {(topLevel, 0)}) == Content()
    {}

    ghost predicate Blank(n: Tnode)
      reads n`words
    {
      forall i :: 0 <= i < |n.words| ==> n.words[i] == 0
    }

    /** No node at this level or above has gone but perhaps below `p`, and no leaf with anything in it. */
    ghost predicate Pruned(s: Shape, t: Shape, level: nat)
      reads s.node.Values`words
    {
      t.height == s.height
      && (forall k :: k in t.node ==> k in s.node && t.node[k] == s.node[k])
      && (forall k :: k in s.node && k.0 >= level ==> k in t.node)
      && (forall k :: k in s.node && k !in t.node && k.0 == 0 ==> Blank(s.node[k]))
    }

    lemma PrunedTwice(s: Shape, t: Shape, u: Shape, level: nat)
      requires Pruned(s, t, level) && Pruned(t, u, level)
      ensures Pruned(s, u, level)
    {}

    /**
     * Prunes below a node, and the node itself if it is on the way to the first leaf, has nothing in it and `del0`
     * allows it. `t` is the tree before the node itself goes, which the caller has still to unlink.
     */
    method PruneWorker(tn: Tnode, level: nat, ghost p: nat, del0: bool) returns (r: Tnode?, ghost t: Shape)
      requires Joined(View()) && At(View(), level, p) == tn && level <= topLevel && (del0 ==> level < topLevel)
      modifies this`node, node.Values`internal
      ensures Joined(t) && At(t, level, p) == tn && Pruned(old(View()), t, level)
      ensures r != null ==> r == tn && View() == t
      ensures r == null ==> Loose(t, level, p)
      ensures !del0 ==> r != null && View() == old(View())
      decreases level, 2
    {
      hide Joined, Here, Leaves, Childless, Blank;
      OnePlace(View(), level, p);
      var hasData;
      if level > 0 {
        hasData := PruneKids(tn, level, p, del0);
      } else {
        hasData := CountWords(tn);
      }
      t := View();
      r := tn;
      if hasData == 0 && del0 {
        r := null;
        node := node - {(level, p)};
      }
    }

    /** Prunes below every child; only the first may go itself. */
    method PruneKids(tn: Tnode, level: nat, ghost p: nat, del0: bool) returns (hasData: nat)
      requires Joined(View()) && At(View(), level, p) == tn && 0 < level <= topLevel
      modifies this`node, node.Values`internal
      ensures Joined(View()) && At(View(), level, p) == tn && Pruned(old(View()), View(), level)
      ensures hasData == 0 ==> Childless(View(), level, p)
      ensures !del0 ==> View() == old(View())
      decreases level, 1
    {
      hide Joined, Here, Leaves, Childless, Pruned;
      ghost var s := View();
      PrunedSelf(s, level);
      hasData := 0;
      for i := 0 to INTERNAL
        invariant Joined(View()) && At(View(), level, p) == tn && Pruned(s, View(), level)
        invariant hasData == 0 ==> if i < INTERNAL then NoneTo(View(), level, p, i) else Childless(View(), level, p)
        invariant !del0 ==> View() == s
        invariant node.Values <= old(node.Values)
      {
        ghost var t := View();
        Child(t, level, p, i);
        if tn.internal[i] != null {
          PruneChild(tn, level, p, i, if i == 0 then del0 else false);
          PrunedTwice(s, t, View(), level);
          NoneToLess(t, View(), level, p, i);
        }
        Child(View(), level, p, i);
        if tn.internal[i] != null {
          hasData := hasData + 1;
        } else if hasData == 0 {
          NoneToNext(View(), level, p, i);
        }
      }
    }

    lemma PrunedSelf(s: Shape, level: nat)
      ensures Pruned(s, s, level)
    {}

    lemma NoneToLess(s: Shape, t: Shape, level: nat, p: nat, i: nat)
      requires Pruned(s, t, level) && level > 0
      ensures NoneTo(s, level, p, i) ==> NoneTo(t, level, p, i)
    {}

    method CountWords(tn: Tnode) returns (hasData: nat)
      ensures hasData == 0 ==> Blank(tn)
    {
      hasData := 0;
      var i := 0;
      while hasData == 0 && i < |tn.words|
        invariant 0 <= i <= |tn.words| && (hasData == 0 ==> forall j :: 0 <= j < i ==> tn.words[j] == 0)
      {
        if tn.words[i] != 0 {
          hasData := hasData + 1;
        }
        i := i + 1;
      }
    }

    /** Prunes below a child, and unlinks the child if it has gone. */
    method PruneChild(tn: Tnode, level: nat, ghost p: nat, i: nat, del0: bool)
      requires Joined(View()) && At(View(), level, p) == tn && 0 < level <= topLevel && i < INTERNAL
      requires |tn.internal| == INTERNAL && tn.internal[i] != null
      modifies this`node, node.Values`internal
      ensures Joined(View()) && At(View(), level, p) == tn && Pruned(old(View()), View(), level)
      ensures !del0 ==> View() == old(View())
      decreases level, 0
    {
      hide Joined, Here, Leaves, Pruned, Loose, Childless;
      ghost var s, q := View(), INTERNAL * p + i;
      OnePlace(s, level, p);
      Child(s, level, p, i);
      var child;
      ghost var t;
      child, t := PruneWorker(tn.internal[i], level - 1, q, del0);
      PrunedAt(s, t, level, p);
      Child(t, level, p, i);
      ChildPlace(p, i);
      if child == null {
        LooseAt(t, level - 1, q);
      }
      assert (level, p) in View().node && node[(level, p)] == tn;
      assert View().kids[(level, p)] == tn.internal;
      if child == null {
        UnhungJoined(t, level - 1, q);
        UnhungPruned(s, t, level, q);
      }
      Relink(tn, level, p, i, child, t);
    }

    lemma LooseAt(t: Shape, level: nat, p: nat)
      requires Loose(t, level, p)
      ensures level < t.height && (level, p) in t.node && (level > 0 ==> Childless(t, level, p))
      ensures View() == Shape(t.node - {(level, p)}, t.kids - {(level, p)}, t.height)
    {}

    lemma PrunedAt(s: Shape, t: Shape, level: nat, p: nat)
      requires level > 0 && Pruned(s, t, level - 1) && (level, p) in s.node
      ensures Pruned(s, t, level) && t.height == s.height && At(t, level, p) == At(s, level, p)
      ensures t.node.Values <= s.node.Values
    {}

    lemma UnhungPruned(s: Shape, t: Shape, level: nat, q: nat)
      requires level > 0 && Pruned(s, t, level - 1) && Loose(t, level - 1, q)
      requires (level, q / INTERNAL) in t.kids && |t.kids[(level, q / INTERNAL)]| == INTERNAL
      ensures Pruned(s, Unhung(t, level - 1, q), level)
    {}

    /** The link to a child follows what pruning made of it. */
    method Relink(tn: Tnode, level: nat, ghost p: nat, i: nat, child: Tnode?, ghost t: Shape)
      requires Joined(t) && At(t, level, p) == tn && 0 < level <= t.height && i < INTERNAL && |tn.internal| == INTERNAL
      requires (level, p) in t.kids && (INTERNAL * p + i) / INTERNAL == p && (INTERNAL * p + i) % INTERNAL == i
      requires |t.kids[(level, p)]| == INTERNAL
      requires if child == null then Loose(t, level - 1, INTERNAL * p + i)
        else View() == t && t.kids[(level, p)][i] == child
      modifies tn`internal
      ensures View() == if child == null then Unhung(t, level - 1, INTERNAL * p + i) else t
    {
      OnePlace(t, level, p);
      hide Joined, Here, Childless, Blank;
      ghost var v := View();
      assert (level, p) in v.node && v.kids[(level, p)] == tn.internal;
      assert forall k :: k in node && k != (level, p) ==> node[k] != tn;
      ghost var row := v.kids[(level, p)];
      assert child != null ==> row[i := child] == row && v.kids[(level, p) := row] == v.kids;
      assert child == null ==> row == t.kids[(level, p)];
      tn.internal := tn.internal[i := child];
      assert View() == Shape(v.node, v.kids[(level, p) := row[i := child]], v.height);
    }

    /** The node is out of the tree but the link to it is still there. */
    ghost predicate Loose(t: Shape, level: nat, p: nat)
      reads this`node, this`topLevel, node.Values`internal, t.node.Values`words
    {
      level < t.height && (level, p) in t.node && (if level > 0 then Childless(t, level, p) else Blank(t.node[(level, p)]))
      && View() == Shape(t.node - {(level, p)}, t.kids - {(level, p)}, t.height)
    }

    /**
     * Prunes and then shortens the tree. As pruning starts with nothing allowed to go, no leaf goes at all, not even
     * one with nothing in it: the tree only gets shorter.
     */
    method PruneTree()
      requires Valid()
      modifies this`top, this`topLevel, this`node, node.Values`internal
      ensures Valid() && Content() == old(Content()) && topLevel <= old(topLevel)
      ensures topLevel > 0 && old(topLevel) > 0 ==> Wide(View())
    {
      hide Linked, Joined, Here, Leaves;
      if topLevel < 1 {
        return;
      }
      TopAt();
      ghost var s := View();
      LinkedJoined(s);
      var tn;
      ghost var t;
      tn, t := PruneWorker(top, topLevel, 0, false);
      top := tn;
      assert View() == s && node == s.node;
      Trim();
    }

    lemma LinkedJoined(s: Shape)
      requires Linked(s)
      ensures Joined(s)
    {}

    // ---------- Chunks of the file ----------

    lemma ContentOk(w: nat)
      requires Valid() && TnodeLeaf.Width(w) && nWords == w / 2
      ensures LeavesOk(Content(), w)
    {}

    /** Which chunk group holds a chunk of the file. */
    method FindChunkInFile(chunk: nat, w: nat, grp: nat) returns (base: bv32)
      requires Valid() && TnodeLeaf.Width(w) && nWords == w / 2 && grp <= 32 && chunk <= MAX_CHUNK_ID
      ensures LeavesOk(Content(), w) && base == Mapped(Content(), chunk, w, grp)
    {
      ContentOk(w);
      LeafHere(chunk / SLOTS);
      hide Linked, TnodeLeaf.Fetched, TnodeLeaf.Left;
      var tn := FindTnode0(chunk);
      if tn == null {
        return 0;
      }
      base := TnodeLeaf.GetGroupBase(tn.words, chunk, w, grp);
    }

    /** Notes where a chunk of the file is; without memory for its leaf nothing that was noted is lost. */
    method PutChunkInFile(chunk: nat, nand: bv32, w: nat, grp: nat) returns (ok: bool)
      requires Valid() && TnodeLeaf.Width(w) && nWords == w / 2 && grp <= 32
      requires nand != 0 ==> TnodeLeaf.Fits(nand, w, grp)
      modifies this`top, this`topLevel, this`node, node.Values`internal, node.Values`words
      ensures Valid() && LeavesOk(old(Content()), w) && LeavesOk(Content(), w)
      ensures Remapped(old(Content()), Content(), w, grp, chunk, nand, ok && nand != 0)
    {
      hide Linked, Joined, Here, TnodeLeaf.Fits, Mapped;
      ghost var c0 := Content();
      ContentOk(w);
      var tn := AddFindTnode0(chunk, null);
      ContentOk(w);
      ghost var c1 := Content();
      ok := tn != null;
      if ok {
        AddedMaps(c0, chunk, w, grp);
        if nand != 0 {
          StoreLeaf(tn, chunk, nand, w, grp);
          PutMapsAll(c1, Content(), chunk, nand, w, grp);
        }
      }
    }

    lemma PutMapsAll(c: imap<nat, seq<bv32>>, c': imap<nat, seq<bv32>>, chunk: nat, nand: bv32, w: nat, grp: nat)
      requires LeavesOk(c, w) && grp <= 32 && TnodeLeaf.Fits(nand, w, grp) && chunk / SLOTS in c
      requires c' == c[chunk / SLOTS :=
        TnodeLeaf.Stored(c[chunk / SLOTS], chunk % SLOTS, TnodeLeaf.Right(nand, grp), w)]
      ensures LeavesOk(c', w) && Remapped(c, c', w, grp, chunk, nand, true)
    {
      hide TnodeLeaf.Stored, TnodeLeaf.Right, Mapped;
      PutMaps(c, chunk, nand, w, grp, chunk);
      forall q
        ensures Mapped(c', q, w, grp) == if q == chunk then TnodeLeaf.GroupBase(nand, grp) else Mapped(c, q, w, grp)
      {
        PutMaps(c, chunk, nand, w, grp, q);
      }
    }

    /** A chunk stored maps to the group of the new chunk; any other maps as before. */
    ghost predicate Remapped(c: imap<nat, seq<bv32>>, c': imap<nat, seq<bv32>>, w: nat, grp: nat,
                             chunk: nat, nand: bv32, stored: bool)
      requires LeavesOk(c, w) && LeavesOk(c', w) && grp <= 32
    {
      forall q ::
        Mapped(c', q, w, grp) == if stored && q == chunk then TnodeLeaf.GroupBase(nand, grp) else Mapped(c, q, w, grp)
    }

    lemma AddedMaps(c: imap<nat, seq<bv32>>, chunk: nat, w: nat, grp: nat)
      requires LeavesOk(c, w) && nWords == w / 2 && grp <= 32
      ensures var c' := Added(c, chunk / SLOTS, null);
        LeavesOk(c', w) && forall q :: Mapped(c', q, w, grp) == Mapped(c, q, w, grp)
    {
      hide TnodeLeaf.Fetched, TnodeLeaf.Left;
      if chunk / SLOTS !in c {
        ZeroShifted(grp);
        var leaf: seq<bv32> := seq(nWords, i => 0);
        forall p: nat | p < SLOTS
          ensures TnodeLeaf.Fetched(leaf, p, w) == 0
        {
          TnodeLeaf.EmptySlots(leaf, w, p);
        }
      }
    }

    method StoreLeaf(tn: Tnode, chunk: nat, nand: bv32, w: nat, grp: nat)
      requires Valid() && TnodeLeaf.Width(w) && nWords == w / 2 && grp <= 32 && tn == At(View(), 0, chunk / SLOTS)
      modifies tn`words
      ensures Valid() && chunk / SLOTS in old(Content()) && |old(tn.words)| == w / 2
      ensures Content() == old(Content())[chunk / SLOTS :=
        TnodeLeaf.Stored(old(tn.words), chunk % SLOTS, TnodeLeaf.Right(nand, grp), w)]
      ensures old(Content())[chunk / SLOTS] == old(tn.words)
    {
      hide Linked, Joined, Here, TnodeLeaf.Stored, TnodeLeaf.Right;
      OnePlace(View(), 0, chunk / SLOTS);
      LeafHere(chunk / SLOTS);
      tn.words := TnodeLeaf.LoadTnode0(tn.words, chunk, nand, w, grp);
    }

  }
}
