/** A file's tree written to a checkpoint as records of leaves, and read back. */
module TnodeCheckpoint {
  import opened Words
  import opened TnodeTree

  /** What lies in the stream: the number of a leaf's first chunk, the words of a leaf. */
  datatype Item = Base(base: U32) | Leaf(words: seq<bv32>)

  const END: U32 := 0xffff_ffff

  function SwapWord(w: bv32): bv32 {
    ((w & 0xff) << 24) | ((w & 0xff00) << 8) | ((w >> 8) & 0xff00) | ((w >> 24) & 0xff)
  }

  lemma SwapSwapWord(w: bv32)
    ensures SwapWord(SwapWord(w)) == w
  {}

  function SwapWords(s: seq<bv32>): (r: seq<bv32>)
    ensures |r| == |s|
  {
    seq(|s|, i requires 0 <= i < |s| => SwapWord(s[i]))
  }

  lemma SwapSwapWords(s: seq<bv32>)
    ensures SwapWords(SwapWords(s)) == s
  {
    forall i | 0 <= i < |s|
      ensures SwapWords(SwapWords(s))[i] == s[i]
    {
      SwapSwapWord(s[i]);
    }
  }

  /** Values go to flash in its byte order. */
  function Order(w: U32, swap: bool): U32 {
    if swap then Swap(w) else w
  }

  function OrderWords(s: seq<bv32>, swap: bool): seq<bv32> {
    if swap then SwapWords(s) else s
  }

  lemma OrderTwice(w: U32, swap: bool)
    ensures Order(Order(w, swap), swap) == w
  {
    SwapSwap(w);
  }

  lemma OrderWordsTwice(s: seq<bv32>, swap: bool)
    ensures OrderWords(OrderWords(s, swap), swap) == s
  {
    SwapSwapWords(s);
  }

  /** The first chunk of a leaf. */
  function FirstChunk(idx: nat): U32
    requires idx <= MAX_CHUNK_ID / SLOTS
  {
    idx * SLOTS
  }

  /** No leaf's base reads as the end marker, in either byte order, and the end marker reads as itself. */
  lemma BaseIsNotEnd(idx: nat, swap: bool)
    requires idx <= MAX_CHUNK_ID / SLOTS
    ensures FirstChunk(idx) <= MAX_CHUNK_ID && Order(FirstChunk(idx), swap) != END && Order(END, swap) == END
  {
    SwapSwap(FirstChunk(idx));
    EndSwapped();
  }

  lemma EndSwapped()
    ensures Swap(END) == END
  {}

  // ---------- The order of the records ----------

  /** The leaves below a place, in the order they are written. */
  ghost function Places(s: Shape, l: nat, p: nat): seq<nat>
    decreases l, INTERNAL + 1
  {
    if (l, p) !in s.node then [] else if l == 0 then [p] else PlacesFrom(s, l, p, 0)
  }

  ghost function PlacesFrom(s: Shape, l: nat, p: nat, i: nat): seq<nat>
    requires l > 0 && i <= INTERNAL
    decreases l, INTERNAL - i
  {
    if i == INTERNAL then [] else Places(s, l - 1, INTERNAL * p + i) + PlacesFrom(s, l, p, i + 1)
  }

  /** They are exactly the leaves of which the place is the ancestor. */
  lemma {:induction false} PlacesAre(s: Shape, l: nat, p: nat, q: nat)
    requires Linked(s) && l <= s.height
    ensures q in Places(s, l, p) <==> (0, q) in s.node && Up(q, l) == p
    decreases l, INTERNAL + 1
  {
    if (l, p) in s.node {
      if l > 0 {
        PlacesFromAre(s, l, p, 0, q);
      }
    } else if (0, q) in s.node {
      Ancestor(s, q, l);
    }
  }

  lemma {:induction false} PlacesFromAre(s: Shape, l: nat, p: nat, i: nat, q: nat)
    requires Linked(s) && 0 < l <= s.height && i <= INTERNAL
    ensures q in PlacesFrom(s, l, p, i) <==> (0, q) in s.node && Up(q, l) == p && Up(q, l - 1) % INTERNAL >= i
    decreases l, INTERNAL - i
  {
    hide Linked, Here, Places;
    if i < INTERNAL {
      PlacesAre(s, l - 1, INTERNAL * p + i, q);
      PlacesFromAre(s, l, p, i + 1, q);
      ChildPlace(p, i);
      UpStep(q, l);
      DigitBound(q, l);
    } else {
      DigitBound(q, l);
    }
  }

  lemma DigitBound(q: nat, l: nat)
    requires l > 0
    ensures Up(q, l - 1) % INTERNAL < INTERNAL
  {}

  /** These are leaves of the tree. */
  ghost predicate Sound(places: seq<nat>, c: imap<nat, seq<bv32>>) {
    forall i :: 0 <= i < |places| ==> places[i] in c && places[i] <= MAX_CHUNK_ID / SLOTS
  }

  /** The records of these leaves. */
  ghost function Items(places: seq<nat>, c: imap<nat, seq<bv32>>, swap: bool): (r: seq<Item>)
    requires Sound(places, c)
    ensures |r| == 2 * |places|
  {
    if places == [] then []
    else
      [Base(Order(FirstChunk(places[0]), swap)), Leaf(OrderWords(c[places[0]], swap))] + Items(places[1..], c, swap)
  }

  lemma {:induction false} ItemsJoin(a: seq<nat>, b: seq<nat>, c: imap<nat, seq<bv32>>, swap: bool)
    requires Sound(a, c) && Sound(b, c)
    ensures Sound(a + b, c) && Items(a + b, c, swap) == Items(a, c, swap) + Items(b, c, swap)
  {
    if a == [] {
      assert a + b == b;
    } else {
      assert (a + b)[1..] == a[1..] + b;
      ItemsJoin(a[1..], b, c, swap);
    }
  }

  /** Each leaf's records come two by two, with the end marker after them. */
  lemma {:induction false} ItemAt(places: seq<nat>, c: imap<nat, seq<bv32>>, swap: bool, k: nat)
    requires Sound(places, c) && k < |places|
    ensures Items(places, c, swap)[2 * k] == Base(Order(FirstChunk(places[k]), swap))
    ensures Items(places, c, swap)[2 * k + 1] == Leaf(OrderWords(c[places[k]], swap))
  {
    hide Order, OrderWords, FirstChunk;
    if k > 0 {
      ItemAt(places[1..], c, swap, k - 1);
    }
  }

  // ---------- Writing ----------

  /** The tree as records, then the end marker. */
  ghost predicate IsDump(stream: seq<Item>, places: seq<nat>, c: imap<nat, seq<bv32>>, swap: bool) {
    (forall q :: q in places <==> q in c) && Sound(places, c)
    && stream == Items(places, c, swap) + [Base(END)]
  }

  lemma {:induction false} LeafInRange(s: Shape, q: nat)
    requires Linked(s) && (0, q) in s.node
    ensures q <= MAX_CHUNK_ID / SLOTS
  {
    TallEnough(s, q);
    UpZero(q, s.height, MAX_LEVEL);
    UpIsShift(q, MAX_LEVEL);
    assert Pow(MAX_LEVEL) == 0x100_0000;
  }

  class Checkpointer {
    const swap: bool

    /** Writes the leaves below a node; the stream may run out of room. */
    method CheckptTnodeWorker(t: Tree, tn: Tnode?, level: nat, offset: nat) returns (ok: bool, out: seq<Item>)
      requires t.Valid() && level <= t.topLevel && tn == At(t.View(), level, offset)
      ensures ok ==> Written(t.View(), t.Content(), Places(t.View(), level, offset), out)
      decreases level, 1
    {
      if tn == null {
        return true, [];
      }
      if level > 0 {
        ok, out := WriteKids(t, tn, level, offset);
      } else {
        ok, out := WriteLeaf(t, tn, offset);
      }
    }

    /** These are the records of these leaves of the tree. */
    ghost predicate Written(s: Shape, c: imap<nat, seq<bv32>>, places: seq<nat>, out: seq<Item>) {
      Sound(places, c) && out == Items(places, c, swap)
    }

    lemma WrittenJoin(s: Shape, c: imap<nat, seq<bv32>>, a: seq<nat>, b: seq<nat>, outA: seq<Item>, outB: seq<Item>)
      requires Written(s, c, a, outA) && Written(s, c, b, outB)
      ensures Written(s, c, a + b, outA + outB)
    {
      ItemsJoin(a, b, c, swap);
    }

    method WriteKids(t: Tree, tn: Tnode, level: nat, offset: nat) returns (ok: bool, out: seq<Item>)
      requires t.Valid() && 0 < level <= t.topLevel && tn == At(t.View(), level, offset)
      ensures ok ==> Written(t.View(), t.Content(), Places(t.View(), level, offset), out)
      decreases level, 0
    {
      hide Linked, Here, Written, Items, Places;
      ghost var s, c := t.View(), t.Content();
      ok, out := true, [];
      var i := 0;
      ghost var done: seq<nat> := [];
      WrittenNone(s, c);
      FirstPlaces(s, level, offset);
      while i < INTERNAL && ok
        invariant 0 <= i <= INTERNAL
        invariant ok ==> done + PlacesFrom(s, level, offset, i) == Places(s, level, offset)
        invariant ok ==> Written(s, c, done, out)
        decreases INTERNAL - i, ok
      {
        Child(s, level, offset, i);
        ghost var more := Places(s, level - 1, INTERNAL * offset + i);
        NextPlaces(s, level, offset, i, done);
        if tn.internal[i] != null {
          var part;
          ok, part := CheckptTnodeWorker(t, tn.internal[i], level - 1, INTERNAL * offset + i);
          if ok {
            WrittenJoin(s, c, done, more, out, part);
            out := out + part;
          }
        }
        done := done + more;
        i := i + 1;
      }
      LastPlaces(s, level, offset, done);
    }

    lemma NextPlaces(s: Shape, l: nat, p: nat, i: nat, done: seq<nat>)
      requires l > 0 && i < INTERNAL
      ensures done + Places(s, l - 1, INTERNAL * p + i) + PlacesFrom(s, l, p, i + 1) == done + PlacesFrom(s, l, p, i)
      ensures At(s, l - 1, INTERNAL * p + i) == null ==> done + Places(s, l - 1, INTERNAL * p + i) == done
    {}

    lemma LastPlaces(s: Shape, l: nat, p: nat, done: seq<nat>)
      requires l > 0
      ensures done + PlacesFrom(s, l, p, INTERNAL) == done
    {}

    lemma FirstPlaces(s: Shape, l: nat, p: nat)
      requires l > 0 && (l, p) in s.node
      ensures [] + PlacesFrom(s, l, p, 0) == Places(s, l, p)
    {}

    lemma WrittenNone(s: Shape, c: imap<nat, seq<bv32>>)
      ensures Written(s, c, [], [])
    {}

    method WriteLeaf(t: Tree, tn: Tnode, offset: nat) returns (ok: bool, out: seq<Item>)
      requires t.Valid() && tn == At(t.View(), 0, offset)
      ensures ok ==> Written(t.View(), t.Content(), Places(t.View(), 0, offset), out)
    {
      LeafInRange(t.View(), offset);
      out := [];
      var base := Order(FirstChunk(offset), swap);
      ok := *;
      if ok {
        out := [Base(base)];
        ok := *;
        if ok {
          out := out + [Leaf(OrderWords(tn.words, swap))];
        }
      }
      assert Places(t.View(), 0, offset) == [offset];
    }

    method WrCheckptTnodes(t: Tree) returns (ok: bool, stream: seq<Item>, ghost places: seq<nat>)
      requires t.Valid()
      ensures ok ==> IsDump(stream, places, t.Content(), swap)
    {
      ghost var s := t.View();
      places := Places(s, t.topLevel, 0);
      t.TopAt();
      ok, stream := CheckptTnodeWorker(t, t.top, t.topLevel, 0);
      if ok {
        ok := *;
        if ok {
          stream := stream + [Base(END)];
          forall q
            ensures q in places <==> q in t.Content()
          {
            PlacesAre(s, s.height, 0, q);
            if (0, q) in s.node {
              TallEnough(s, q);
            }
          }
        }
      }
    }

    // ---------- Reading ----------

    /** The leaves of the places read so far, over the first leaf of a fresh tree. */
    ghost predicate Restored(now: imap<nat, seq<bv32>>, c: imap<nat, seq<bv32>>, read: seq<nat>) {
      (forall q :: q in read ==> q in c && q in now && now[q] == c[q])
      && (forall q :: q in now ==> q in read || q == 0)
    }

    lemma RestoredMore(now: imap<nat, seq<bv32>>, c: imap<nat, seq<bv32>>, read: seq<nat>, idx: nat)
      requires Restored(now, c, read) && idx in c
      ensures Restored(now[idx := c[idx]], c, read + [idx])
    {}

    /**
     * Reads leaves into a fresh tree until the end marker. If it goes well the tree has exactly the leaves of the tree
     * that was written, whatever the heights of the two trees and in either byte order.
     */
    method RdCheckptTnodes(t: Tree, stream: seq<Item>, ghost places: seq<nat>, ghost c: imap<nat, seq<bv32>>)
      returns (ok: bool)
      requires t.Valid() && IsDump(stream, places, c, swap) && 0 in c
      requires forall q :: q in t.Content() ==> q == 0
      requires forall q :: q in c ==> |c[q]| == t.nWords
      modifies t`top, t`topLevel, t`node, t.node.Values`internal, t.node.Values`words
      ensures t.Valid()
      ensures ok ==> t.Content() == c
    {
      hide Linked, Here, Loading, IsDump, Order, OrderWords, FirstChunk;
      ghost var k := 0;
      LoadingStart(t.Content(), c, stream, places);
      var base := Order(stream[0].base, swap);
      var pos := 1;
      ok := true;
      while ok && base != END
        invariant t.Valid() && k <= |places| && fresh(t.node.Values - old(t.node.Values)) && pos == 2 * k + 1
        invariant ok ==> Loading(t.Content(), c, stream, places, k, base)
        decreases |places| - k, ok
      {
        LoadingAt(t.Content(), c, stream, places, k, base);
        LoadingNext(t.Content(), c, stream, places, k, base);
        ok := ReadLeaf(t, base, stream[pos].words, places[k], c);
        if ok {
          ok := *;
        }
        if ok {
          base := Order(stream[pos + 1].base, swap);
        }
        pos := pos + 2;
        k := k + 1;
      }
      if ok {
        LoadingDone(t.Content(), c, stream, places, k, base);
      }
    }

    /** After `k` leaves, with the next base read. */
    ghost predicate Loading(now: imap<nat, seq<bv32>>, c: imap<nat, seq<bv32>>, stream: seq<Item>, places: seq<nat>,
                            k: nat, base: U32) {
      IsDump(stream, places, c, swap) && k <= |places| && Restored(now, c, places[..k])
      && |stream| == 2 * |places| + 1 && stream[2 * k].Base? && base == Order(stream[2 * k].base, swap)
    }

    lemma LoadingStart(now: imap<nat, seq<bv32>>, c: imap<nat, seq<bv32>>, stream: seq<Item>, places: seq<nat>)
      requires IsDump(stream, places, c, swap) && forall q :: q in now ==> q == 0
      ensures |stream| > 0 && stream[0].Base? && Loading(now, c, stream, places, 0, Order(stream[0].base, swap))
    {
      StreamAt(stream, places, c, 0);
    }

    lemma LoadingAt(now: imap<nat, seq<bv32>>, c: imap<nat, seq<bv32>>, stream: seq<Item>, places: seq<nat>,
                    k: nat, base: U32)
      requires Loading(now, c, stream, places, k, base) && base != END
      ensures k < |places| && places[k] in c && places[k] <= MAX_CHUNK_ID / SLOTS && base == FirstChunk(places[k])
      ensures |stream| > 2 * k + 2 && stream[2 * k + 1] == Leaf(OrderWords(c[places[k]], swap))
      ensures stream[2 * k + 2].Base?
    {
      StreamAt(stream, places, c, k);
      StreamAt(stream, places, c, k + 1);
    }

    lemma LoadingNext(now: imap<nat, seq<bv32>>, c: imap<nat, seq<bv32>>, stream: seq<Item>, places: seq<nat>,
                      k: nat, base: U32)
      requires Loading(now, c, stream, places, k, base) && base != END
      ensures k < |places| && places[k] in c && |stream| > 2 * k + 2 && stream[2 * k + 2].Base?
      ensures Loading(now[places[k] := c[places[k]]], c, stream, places, k + 1, Order(stream[2 * k + 2].base, swap))
    {
      LoadingAt(now, c, stream, places, k, base);
      RestoredMore(now, c, places[..k], places[k]);
      assert places[..k + 1] == places[..k] + [places[k]];
    }

    lemma LoadingDone(now: imap<nat, seq<bv32>>, c: imap<nat, seq<bv32>>, stream: seq<Item>, places: seq<nat>,
                      k: nat, base: U32)
      requires Loading(now, c, stream, places, k, base) && base == END && 0 in c
      ensures now == c
    {
      StreamAt(stream, places, c, k);
      assert places[..k] == places;
    }

    lemma LeafNumber(idx: nat)
      requires idx <= MAX_CHUNK_ID / SLOTS
      ensures FirstChunk(idx) / SLOTS == idx
    {}

    method ReadLeaf(t: Tree, base: U32, words: seq<bv32>, ghost idx: nat, ghost c: imap<nat, seq<bv32>>)
      returns (ok: bool)
      requires t.Valid() && idx in c && |c[idx]| == t.nWords && idx <= MAX_CHUNK_ID / SLOTS && base == FirstChunk(idx)
      requires words == OrderWords(c[idx], swap)
      modifies t`top, t`topLevel, t`node, t.node.Values`internal, t.node.Values`words
      ensures t.Valid() && fresh(t.node.Values - old(t.node.Values))
      ensures ok ==> t.Content() == old(t.Content())[idx := c[idx]]
    {
      hide Linked, Here, Order, OrderWords, FirstChunk, Tree.Valid, Tree.Content, Tree.View;
      LeafNumber(idx);
      var tn := t.GetTnode();
      ok := false;
      if tn != null {
        ok := *;
        if ok {
          OrderWordsTwice(c[idx], swap);
          tn.words := OrderWords(words, swap);
        }
      }
      if tn != null && ok {
        var leaf := t.AddFindTnode0(base, tn);
        ok := leaf != null;
      }
    }

    /** What lies at the records of leaf `k` in a stream, or at its end. */
    lemma StreamAt(stream: seq<Item>, places: seq<nat>, c: imap<nat, seq<bv32>>, k: nat)
      requires IsDump(stream, places, c, swap) && k <= |places|
      ensures |stream| == 2 * |places| + 1
      ensures k == |places| ==> stream[2 * k] == Base(END) && Order(END, swap) == END
      ensures k < |places| ==> places[k] in places && places[k] in c && places[k] <= MAX_CHUNK_ID / SLOTS
      ensures k < |places| ==> stream[2 * k].Base? && Order(stream[2 * k].base, swap) == FirstChunk(places[k])
      ensures k < |places| ==>
        FirstChunk(places[k]) != END && stream[2 * k + 1] == Leaf(OrderWords(c[places[k]], swap))
    {
      BaseIsNotEnd(0, swap);
      if k < |places| {
        ItemAt(places, c, swap, k);
        BaseIsNotEnd(places[k], swap);
        OrderTwice(FirstChunk(places[k]), swap);
      }
    }
  }
}
