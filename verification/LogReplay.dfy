/** The meaning of a log, oldest chunk first: later data replaces earlier data, and a header
    that cuts drops the chunks at or beyond its size. */
module LogReplay {
  import opened FlashLog

  /** `order` lists the chunks of the log, oldest first. */
  ghost predicate Lists(fl: Flash, order: seq<Loc>) {
    && (forall i, j :: 0 <= i < j < |order| ==> Before(order[i], order[j]))
    && (forall l :: l in fl <==> l in order)
  }

  ghost function ReplayStep(cs: nat, fl: Flash, m: map<Key, Loc>, l: Loc): map<Key, Loc>
    requires l in fl
  {
    match fl[l]
    case Data(o, s, _) => m[Key(o, s) := l]
    case Header(o, _, _, _) =>
      if Cuts(fl, l, o)
      then map k | k in m && !(k.obj == o && CutSize(fl, l, o) <= Base(cs, k.slot)) :: m[k]
      else m
    case Junk => m
  }

  ghost function Replay(cs: nat, fl: Flash, order: seq<Loc>): map<Key, Loc>
    requires forall l :: l in order ==> l in fl
  {
    if order == [] then map[]
    else ReplayStep(cs, fl, Replay(cs, fl, order[..|order| - 1]), order[|order| - 1])
  }

  /** No chunk among the oldest `n` makes `l` stale. */
  ghost predicate Unbeaten(cs: nat, fl: Flash, order: seq<Loc>, n: nat, l: Loc, o: nat, s: nat)
    requires n <= |order|
  {
    forall j :: 0 <= j < n ==> !Beats(cs, fl, order[j], l, o, s)
  }

  ghost predicate LiveAfter(cs: nat, fl: Flash, order: seq<Loc>, n: nat, m: map<Key, Loc>)
    requires n <= |order|
  {
    && (forall k :: k in m ==>
          IsData(fl, m[k], k.obj, k.slot) && m[k] in order[..n]
          && Unbeaten(cs, fl, order, n, m[k], k.obj, k.slot))
    && (forall i | 0 <= i < n && order[i] in fl && fl[order[i]].Data?
          && Unbeaten(cs, fl, order, n, order[i], fl[order[i]].obj, fl[order[i]].slot) ::
          Key(fl[order[i]].obj, fl[order[i]].slot) in m
          && m[Key(fl[order[i]].obj, fl[order[i]].slot)] == order[i])
  }

  lemma StepKeepsLive(cs: nat, fl: Flash, order: seq<Loc>, n: nat, m: map<Key, Loc>)
    requires Lists(fl, order) && n < |order| && LiveAfter(cs, fl, order, n, m)
    ensures LiveAfter(cs, fl, order, n + 1, ReplayStep(cs, fl, m, order[n]))
  {
    var l := order[n];
    var m' := ReplayStep(cs, fl, m, l);
    assert order[..n + 1] == order[..n] + [l];
    forall k | k in m'
      ensures IsData(fl, m'[k], k.obj, k.slot) && m'[k] in order[..n + 1]
      ensures Unbeaten(cs, fl, order, n + 1, m'[k], k.obj, k.slot)
    {
      if fl[l].Data? && k == Key(fl[l].obj, fl[l].slot) {
        assert m'[k] == order[n];
      } else {
        assert k in m && m'[k] == m[k];
        assert !Beats(cs, fl, l, m[k], k.obj, k.slot);
      }
    }
    forall i | 0 <= i < n + 1 && order[i] in fl && fl[order[i]].Data?
      && Unbeaten(cs, fl, order, n + 1, order[i], fl[order[i]].obj, fl[order[i]].slot)
      ensures Key(fl[order[i]].obj, fl[order[i]].slot) in m'
      ensures m'[Key(fl[order[i]].obj, fl[order[i]].slot)] == order[i]
    {
      var k := Key(fl[order[i]].obj, fl[order[i]].slot);
      if i < n {
        assert !Beats(cs, fl, l, order[i], k.obj, k.slot);
        assert Before(order[i], l);
        assert Unbeaten(cs, fl, order, n, order[i], k.obj, k.slot);
        assert k in m && m[k] == order[i];
      }
    }
  }

  lemma {:induction false} ReplayPrefix(cs: nat, fl: Flash, order: seq<Loc>, n: nat)
    requires Lists(fl, order) && n <= |order|
    ensures LiveAfter(cs, fl, order, n, Replay(cs, fl, order[..n]))
  {
    if n > 0 {
      ReplayPrefix(cs, fl, order, n - 1);
      assert order[..n][..n - 1] == order[..n - 1];
      StepKeepsLive(cs, fl, order, n - 1, Replay(cs, fl, order[..n - 1]));
    }
  }

  /** Replaying the whole log, oldest first, leaves exactly the winning chunks. */
  lemma ReplayIsLive(cs: nat, fl: Flash, order: seq<Loc>)
    requires Lists(fl, order)
    ensures IsLiveMap(cs, fl, Replay(cs, fl, order))
  {
    var n := |order|;
    ReplayPrefix(cs, fl, order, n);
    assert order[..n] == order;
    var m := Replay(cs, fl, order);
    forall k | k in m
      ensures Winner(cs, fl, m[k], k.obj, k.slot)
    {
      assert Unbeaten(cs, fl, order, n, m[k], k.obj, k.slot);
    }
    forall l | l in fl && fl[l].Data? && Winner(cs, fl, l, fl[l].obj, fl[l].slot)
      ensures Key(fl[l].obj, fl[l].slot) in m && m[Key(fl[l].obj, fl[l].slot)] == l
    {
      var i :| 0 <= i < n && order[i] == l;
      assert Unbeaten(cs, fl, order, n, order[i], fl[l].obj, fl[l].slot);
    }
  }
}
