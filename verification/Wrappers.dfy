/** Small things that several modules need. */
module Wrappers {
  datatype Option<T> = None | Some(value: T)

  /** Where a slice that asks for index `i` stops. */
  function Cap<T>(i: nat, s: seq<T>): (r: nat)
    ensures r <= |s|
  {
    if i < |s| then i else |s|
  }

  function Concat<T>(parts: seq<seq<T>>): seq<T> {
    if parts == [] then [] else parts[0] + Concat(parts[1..])
  }

  lemma {:induction false} ConcatSingle<T>(part: seq<T>)
    ensures Concat([part]) == part
  {
    assert [part][1..] == [] && Concat([part]) == part + Concat([]);
  }
}
