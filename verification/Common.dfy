/** Result shapes shared by every module. */
module Common {

  datatype Option<+T> = None | Some(value: T) {
    function GetOr(default: T): T {
      if Some? then value else default
    }
  }

  /** What holds at the start of a trace and is kept by each of its steps holds throughout. */
  lemma {:induction false} HoldsThroughout<S>(holds: S -> bool, tr: seq<S>, t: nat)
    requires t < |tr| && holds(tr[0])
    requires forall u :: 0 <= u < |tr| - 1 && holds(tr[u]) ==> holds(tr[u + 1])
    ensures holds(tr[t])
    decreases t
  {
    if t > 0 {
      HoldsThroughout(holds, tr, t - 1);
      assert holds(tr[t - 1 + 1]);
    }
  }
}
