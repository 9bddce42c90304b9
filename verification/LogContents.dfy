/** What the chunks hold: the bytes last written to a place in a file are those found there, wherever collection has
    moved them, in memory and after a mount. */
module LogContents {
  import opened FlashLog
  import opened LogMachine
  import opened LogCollect
  import opened Words

  type Bytes = seq<Byte>

  /** The bytes held by chunks on flash. */
  type Held = map<Loc, Bytes>

  /** A write brings its bytes; collection copies the chunk as it is; erasing leaves nothing. */
  function HeldAfter(s: State, t: Step, held: Held, bytes: Bytes): Held {
    match t
    case Write(_, _, _) => held[s.head := bytes]
    case Move(l) => if l in held then held[s.head := held[l]] else held
    case Erase(q) => map l | l in held && l.q != q :: held[l]
    case _ => held
  }

  /** What the places in files should hold goes by the writes and the cuts alone. */
  function WantedAfter(t: Step, wanted: map<Key, Bytes>, bytes: Bytes): map<Key, Bytes> {
    match t
    case Write(o, slot, _) => wanted[Key(o, slot) := bytes]
    case Drop(o, slot) => wanted - {Key(o, slot)}
    case _ => wanted
  }

  /** What flash holds after the first `n` steps. */
  ghost function HeldAt(trace: seq<State>, steps: seq<Step>, data: seq<Bytes>, n: nat): Held
    requires n <= |steps| == |data| && |steps| < |trace|
  {
    if n == 0 then map[] else HeldAfter(trace[n - 1], steps[n - 1], HeldAt(trace, steps, data, n - 1), data[n - 1])
  }

  ghost function WantedAt(steps: seq<Step>, data: seq<Bytes>, n: nat): map<Key, Bytes>
    requires n <= |steps| == |data|
  {
    if n == 0 then map[] else WantedAfter(steps[n - 1], WantedAt(steps, data, n - 1), data[n - 1])
  }

  /** Each write is given the bytes of its chunk. */
  ghost predicate Brings(steps: seq<Step>, data: seq<Bytes>) {
    |data| == |steps| && forall i :: 0 <= i < |steps| && steps[i].Write? ==> |data[i]| == steps[i].n
  }

  ghost predicate InFile(files: map<nat, File>, k: Key) {
    k.obj in files && k.slot in files[k.obj].chunks
  }

  /** Chunk `l` holds these bytes, and its tags give their number. */
  ghost predicate Holds(fl: Flash, held: Held, l: Loc, bytes: Bytes) {
    l in fl && fl[l].Data? && l in held && held[l] == bytes && fl[l].n == |bytes|
  }

  ghost predicate MatchesAt(s: State, held: Held, wanted: map<Key, Bytes>, k: Key) {
    (k in wanted <==> InFile(s.files, k))
    && (k in wanted && InFile(s.files, k) ==> Holds(s.fl, held, s.files[k.obj].chunks[k.slot], wanted[k]))
  }

  ghost predicate Matches(s: State, held: Held, wanted: map<Key, Bytes>) {
    forall k: Key :: MatchesAt(s, held, wanted, k)
  }

  // ----- one step -----

  lemma ChunkIsOld(cs: nat, s: State, o: nat, slot: nat)
    requires Inv(cs, s) && o in s.files && slot in s.files[o].chunks
    ensures IsData(s.fl, s.files[o].chunks[slot], o, slot) && s.files[o].chunks[slot] != s.head
    ensures Live(s, s.files[o].chunks[slot])
  {
    assert Winner(cs, s.fl, s.files[o].chunks[slot], o, slot);
  }

  lemma StepMatchesAt(cs: nat, s: State, t: Step, held: Held, wanted: map<Key, Bytes>, bytes: Bytes, k: Key)
    requires Inv(cs, s) && Enabled(cs, s, t) && MatchesAt(s, held, wanted, k)
    requires t.Write? ==> |bytes| == t.n
    ensures MatchesAt(Apply(cs, s, t), HeldAfter(s, t, held, bytes), WantedAfter(t, wanted, bytes), k)
  {
    hide Inv;
    if InFile(s.files, k) {
      ChunkIsOld(cs, s, k.obj, k.slot);
    }
    match t
    case Write(o, slot, n) => WrittenMatches(cs, s, o, slot, n, held, wanted, bytes, k);
    case Move(l) => MovedMatches(cs, s, l, held, wanted, k);
    case Erase(q) => hide Holds;
    case _ =>
  }

  lemma WrittenMatches(cs: nat, s: State, o: nat, slot: nat, n: nat, held: Held, wanted: map<Key, Bytes>, bytes: Bytes,
                       k: Key)
    requires CanWrite(cs, s, o, slot, n) && MatchesAt(s, held, wanted, k) && |bytes| == n
    requires InFile(s.files, k) ==> s.files[k.obj].chunks[k.slot] != s.head
    ensures MatchesAt(DoWrite(cs, s, o, slot, n), held[s.head := bytes], wanted[Key(o, slot) := bytes], k)
  {
    hide Base;
  }

  lemma MovedMatches(cs: nat, s: State, l: Loc, held: Held, wanted: map<Key, Bytes>, k: Key)
    requires CanMove(s, l) && MatchesAt(s, held, wanted, k)
    requires InFile(s.files, k) ==> var m := s.files[k.obj].chunks[k.slot]; m != s.head && IsData(s.fl, m, k.obj, k.slot)
    ensures MatchesAt(DoMove(s, l), HeldAfter(s, Move(l), held, []), wanted, k)
  {
    var s', held' := DoMove(s, l), HeldAfter(s, Move(l), held, []);
    if InFile(s.files, k) {
      var m := s.files[k.obj].chunks[k.slot];
      assert m == l ==> s'.files[k.obj].chunks[k.slot] == s.head;
      assert m != l ==> s'.files[k.obj].chunks[k.slot] == m;
    }
  }

  lemma StepMatches(cs: nat, s: State, t: Step, held: Held, wanted: map<Key, Bytes>, bytes: Bytes)
    requires Inv(cs, s) && Enabled(cs, s, t) && Matches(s, held, wanted)
    requires t.Write? ==> |bytes| == t.n
    ensures Matches(Apply(cs, s, t), HeldAfter(s, t, held, bytes), WantedAfter(t, wanted, bytes))
  {
    hide Inv, Enabled, Apply, HeldAfter, WantedAfter, MatchesAt;
    forall k: Key
      ensures MatchesAt(Apply(cs, s, t), HeldAfter(s, t, held, bytes), WantedAfter(t, wanted, bytes), k)
    {
      StepMatchesAt(cs, s, t, held, wanted, bytes, k);
    }
  }

  // ----- every run -----

  lemma {:induction false} RunMatches(cs: nat, trace: seq<State>, steps: seq<Step>, data: seq<Bytes>, n: nat)
    requires Run(cs, trace, steps) && Brings(steps, data) && n < |trace|
    ensures Matches(trace[n], HeldAt(trace, steps, data, n), WantedAt(steps, data, n))
  {
    if n > 0 {
      RunMatches(cs, trace, steps, data, n - 1);
      RunKeeps(cs, trace, steps, n - 1);
      StepMatches(cs, trace[n - 1], steps[n - 1], HeldAt(trace, steps, data, n - 1),
                  WantedAt(steps, data, n - 1), data[n - 1]);
    }
  }

  /** After any run of writes, cuts, collections and mounts, the chunks that a mount finds are those of the places
      last written and not cut off since, and each holds the bytes last written there. */
  lemma MountFindsWritten(cs: nat, trace: seq<State>, steps: seq<Step>, data: seq<Bytes>, n: nat, found: map<Key, Loc>)
    requires Run(cs, trace, steps) && Brings(steps, data) && n < |trace| && trace[n].trunc == map[]
    requires IsLiveMap(cs, trace[n].fl, found)
    ensures found.Keys == WantedAt(steps, data, n).Keys
    ensures forall k :: k in found ==>
              Holds(trace[n].fl, HeldAt(trace, steps, data, n), found[k], WantedAt(steps, data, n)[k])
  {
    hide Inv, IsLiveMap, Newest, LoggedSize, WantedAt, HeldAt, Holds, LiveMap;
    var s := trace[n];
    RunMatches(cs, trace, steps, data, n);
    MountRebuildsEveryRun(cs, trace, steps, n);
    LiveMapUnique(cs, s.fl, found, LiveMap(s.files));
    LiveMapMatches(s, HeldAt(trace, steps, data, n), WantedAt(steps, data, n));
  }

  lemma LiveMapMatches(s: State, held: Held, wanted: map<Key, Bytes>)
    requires Matches(s, held, wanted)
    ensures LiveMap(s.files).Keys == wanted.Keys
    ensures forall k :: k in LiveMap(s.files) ==> Holds(s.fl, held, LiveMap(s.files)[k], wanted[k])
  {
    hide Holds;
    forall k: Key
      ensures k in LiveMap(s.files) <==> k in wanted
      ensures k in LiveMap(s.files) && k in wanted ==> Holds(s.fl, held, LiveMap(s.files)[k], wanted[k])
    {
      assert MatchesAt(s, held, wanted, k);
      assert k == Key(k.obj, k.slot);
    }
  }
}
