/** Searching a sequence for its first offending element. */
module Seqs {
  import opened Wrappers

  /** The position of the first element of `xs` that is `bad`, if any. */
  function FindFirst<T>(xs: seq<T>, bad: T -> bool): (k: Option<nat>)
    ensures k.Some? ==> k.value < |xs| && bad(xs[k.value]) && forall j :: 0 <= j < k.value ==> !bad(xs[j])
    ensures k.None? <==> forall j :: 0 <= j < |xs| ==> !bad(xs[j])
  {
    if xs == [] then None
    else if bad(xs[0]) then Some(0)
    else match FindFirst(xs[1..], bad)
      case None => None
      case Some(k) => Some(k + 1)
  }
}
