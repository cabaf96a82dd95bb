/** Sequence helpers shared by the modules that keep owned objects in an ordered list. */
module Seqs {

  /** The addresses of a list of owned entries, in list order. */
  function Ids<E>(entries: seq<E>, id: E -> nat): (ids: seq<nat>)
    ensures |ids| == |entries|
    ensures forall i | 0 <= i < |entries| :: ids[i] == id(entries[i])
  {
    seq(|entries|, i requires 0 <= i < |entries| => id(entries[i]))
  }
}
