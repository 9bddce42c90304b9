/** The NAND array as a log. A chunk is named by the sequence number of its block and its
    page in the block; since sequence numbers only grow, that pair orders all chunks by age. */
module FlashLog {

  const MAX_CHUNK_ID: nat := 0xFFF_FFFF

  datatype Loc = Loc(q: nat, p: nat)

  predicate Before(a: Loc, b: Loc) {
    a.q < b.q || (a.q == b.q && a.p < b.p)
  }

  /** What the tags of a used chunk say. `gone` is a header whose parent is the deleted or
      unlinked directory; `Junk` is a chunk the scan ignores (bad tags or unfixed ECC). */
  datatype Entry =
    | Data(obj: nat, slot: nat, n: nat)
    | Header(obj: nat, size: nat, shrink: bool, gone: bool)
    | Junk

  type Flash = map<Loc, Entry>

  /** The file offset at which chunk `slot` (counted from 1) starts. */
  function Base(cs: nat, slot: nat): int {
    (slot - 1) * cs
  }

  function EndPos(cs: nat, e: Entry): int
    requires e.Data?
  {
    Base(cs, e.slot) + e.n
  }

  predicate IsHeader(fl: Flash, l: Loc, o: nat) {
    l in fl && fl[l].Header? && fl[l].obj == o
  }

  predicate IsData(fl: Flash, l: Loc, o: nat, s: nat) {
    l in fl && fl[l].Data? && fl[l].obj == o && fl[l].slot == s
  }

  ghost predicate Newest(fl: Flash, h: Loc, o: nat) {
    IsHeader(fl, h, o) && forall m :: IsHeader(fl, m, o) && m != h ==> Before(m, h)
  }

  /** A header limits the chunks written before it when it is the newest of its object, or
      says shrink, or puts the object among the deleted ones. */
  ghost predicate Cuts(fl: Flash, h: Loc, o: nat) {
    IsHeader(fl, h, o) && (fl[h].shrink || fl[h].gone || Newest(fl, h, o))
  }

  ghost function CutSize(fl: Flash, h: Loc, o: nat): nat
    requires IsHeader(fl, h, o)
  {
    if fl[h].gone && !Newest(fl, h, o) then 0 else fl[h].size
  }

  /** The later chunk `m` makes chunk `l`, holding slot `s` of object `o`, stale. */
  ghost predicate Beats(cs: nat, fl: Flash, m: Loc, l: Loc, o: nat, s: nat) {
    Before(l, m) &&
    (IsData(fl, m, o, s) || (Cuts(fl, m, o) && CutSize(fl, m, o) <= Base(cs, s)))
  }

  /** Chunk `l` is the current contents of slot `s` of object `o`. */
  ghost predicate Winner(cs: nat, fl: Flash, l: Loc, o: nat, s: nat) {
    IsData(fl, l, o, s) && forall m :: m in fl ==> !Beats(cs, fl, m, l, o, s)
  }

  /** Data written after the newest header still counts towards the stored size. */
  ghost predicate Counts(fl: Flash, l: Loc, o: nat) {
    l in fl && fl[l].Data? && fl[l].obj == o &&
    forall h :: IsHeader(fl, h, o) ==> Before(h, l)
  }

  /** `z` is the stored size of `o` that the log records. */
  ghost predicate LoggedSize(cs: nat, fl: Flash, o: nat, z: int) {
    && z >= 0
    && (forall l :: Counts(fl, l, o) ==> EndPos(cs, fl[l]) <= z)
    && (forall h :: Newest(fl, h, o) ==> fl[h].size <= z)
    && (z == 0 || (exists l :: Counts(fl, l, o) && EndPos(cs, fl[l]) == z)
        || (exists h :: Newest(fl, h, o) && fl[h].size == z))
  }

  datatype Key = Key(obj: nat, slot: nat)

  /** `m` holds exactly the winning chunks of the log. */
  ghost predicate IsLiveMap(cs: nat, fl: Flash, m: map<Key, Loc>) {
    && (forall k :: k in m ==> Winner(cs, fl, m[k], k.obj, k.slot))
    && (forall l :: l in fl && fl[l].Data? && Winner(cs, fl, l, fl[l].obj, fl[l].slot) ==>
          Key(fl[l].obj, fl[l].slot) in m && m[Key(fl[l].obj, fl[l].slot)] == l)
  }

  lemma BeforeTotal(a: Loc, b: Loc)
    ensures Before(a, b) || a == b || Before(b, a)
    ensures !(Before(a, b) && Before(b, a))
  {}

  /** One slot has at most one winner. */
  lemma WinnerUnique(cs: nat, fl: Flash, a: Loc, b: Loc, o: nat, s: nat)
    requires Winner(cs, fl, a, o, s) && Winner(cs, fl, b, o, s)
    ensures a == b
  {
    assert !Beats(cs, fl, b, a, o, s) && !Beats(cs, fl, a, b, o, s);
  }

  /** The live map of a log is unique. */
  lemma LiveMapUnique(cs: nat, fl: Flash, m: map<Key, Loc>, m': map<Key, Loc>)
    requires IsLiveMap(cs, fl, m) && IsLiveMap(cs, fl, m')
    ensures m == m'
  {
    forall k | k in m
      ensures k in m' && m'[k] == m[k]
    {
      assert Winner(cs, fl, m[k], k.obj, k.slot);
    }
    forall k | k in m'
      ensures k in m
    {
      assert Winner(cs, fl, m'[k], k.obj, k.slot);
    }
  }
}
