/** Why a reader that looks at a flag and then at a value, without a lock, sees something
    that was in force: one shared object, reduced to what the reader can tell apart. */
module LockFreeReads {

  /** One object at one instant. While the flag is `raised` the value in force is a fixed
      top value and `stored` is inert; `retained` is what `stored` will be once the flag
      comes down again. */
  datatype View<!M> = View(live: bool, raised: bool, stored: M, retained: M)

  function InForce<M>(v: View<M>, top: M): M {
    if v.raised then top else v.stored
  }

  /** One step of the object: a dying or dead object stays as it is; the stored value becomes
      only what is in force at that instant or what was retained; the retained value only
      what is in force. */
  predicate Moves<M(==)>(v: View<M>, v': View<M>, top: M) {
    && (v'.live ==> v.live)
    && (!v'.live ==> v' == v.(live := false))
    && (v'.stored == v.stored || v'.stored == v.retained || (v'.live && v'.stored == InForce(v', top)))
    && (v'.retained == v.retained || (v'.live && v'.retained == InForce(v', top)))
  }

  ghost predicate History<M>(vs: seq<View<M>>, top: M) {
    && (forall t :: 0 <= t < |vs| - 1 ==> Moves(vs[t], vs[t + 1], top))
    && (forall t :: 0 <= t < |vs| ==> !vs[t].raised ==> vs[t].retained == vs[t].stored)
  }

  /** The value was in force at a live instant up to k. */
  ghost predicate WasInForce<M>(vs: seq<View<M>>, top: M, k: nat, m: M) {
    exists u :: 0 <= u <= k && u < |vs| && vs[u].live && InForce(vs[u], top) == m
  }

  lemma WasInForceLater<M>(vs: seq<View<M>>, top: M, k: nat, m: M)
    requires WasInForce(vs, top, k, m)
    ensures WasInForce(vs, top, k + 1, m)
  {
    var u :| 0 <= u <= k && u < |vs| && vs[u].live && InForce(vs[u], top) == m;
    assert 0 <= u <= k + 1;
  }

  /** A dead object shows what was in force at its last live instant. */
  lemma {:induction false} PresentWasInForce<M>(vs: seq<View<M>>, top: M, t: nat)
    requires History(vs, top) && t < |vs| && vs[0].live
    ensures WasInForce(vs, top, t, InForce(vs[t], top))
    decreases t
  {
    if t > 0 && !vs[t].live {
      PresentWasInForce(vs, top, t - 1);
      assert Moves(vs[t - 1], vs[t], top);
      WasInForceLater(vs, top, t - 1, InForce(vs[t - 1], top));
    } else {
      assert vs[t].live;
    }
  }

  /** Once the flag was seen down, the stored and the retained value have both been in
      force at a live instant, however often the flag goes up and down afterwards. */
  lemma {:induction false} StoredWasInForce<M>(vs: seq<View<M>>, top: M, j: nat, k: nat)
    requires History(vs, top) && vs != [] && vs[0].live && j <= k < |vs| && !vs[j].raised
    ensures WasInForce(vs, top, k, vs[k].stored) && WasInForce(vs, top, k, vs[k].retained)
    decreases k
  {
    if k == j {
      PresentWasInForce(vs, top, j);
    } else {
      StoredWasInForce(vs, top, j, k - 1);
      assert Moves(vs[k - 1], vs[k], top);
      WasInForceLater(vs, top, k - 1, vs[k - 1].stored);
      WasInForceLater(vs, top, k - 1, vs[k - 1].retained);
      if vs[k].live {
        assert WasInForce(vs, top, k, InForce(vs[k], top));
      }
    }
  }

  /** Reading the flag at j and the value at k gives something that was in force. */
  lemma TwoReadsSeeValueInForce<M>(vs: seq<View<M>>, top: M, j: nat, k: nat) returns (u: nat)
    requires History(vs, top) && vs != [] && vs[0].live && j <= k < |vs|
    ensures u <= k && vs[u].live
    ensures InForce(vs[u], top) == if vs[j].raised then top else vs[k].stored
  {
    if vs[j].raised {
      PresentWasInForce(vs, top, j);
      u :| 0 <= u <= j && u < |vs| && vs[u].live && InForce(vs[u], top) == top;
    } else {
      StoredWasInForce(vs, top, j, k);
      u :| 0 <= u <= k && u < |vs| && vs[u].live && InForce(vs[u], top) == vs[k].stored;
    }
  }
}
