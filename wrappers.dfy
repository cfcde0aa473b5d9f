/** Small value wrappers shared by the parsers and the index store. */
module Wrappers {

  datatype Option<T> = None | Some(value: T)

  /** A parser's outcome: the built value, or why the input was refused. */
  datatype Result<T, E> = Ok(value: T) | Err(error: E)

  /** Applies `f` to every element of `s`, keeping the order (the shape of a
      loop that `emplace_back`s one converted element per input element). */
  function MapSeq<A, B>(f: A -> B, s: seq<A>): (r: seq<B>)
    ensures |r| == |s|
  {
    if s == [] then [] else MapSeq(f, s[..|s| - 1]) + [f(s[|s| - 1])]
  }

  /** Each element of the result is `f` of the element at the same position. */
  lemma {:induction false} MapSeqIndex<A, B>(f: A -> B, s: seq<A>)
    ensures forall i :: 0 <= i < |s| ==> MapSeq(f, s)[i] == f(s[i])
    decreases |s|
  {
    if s != [] {
      var s' := s[..|s| - 1];
      MapSeqIndex(f, s');
      forall i | 0 <= i < |s|
        ensures MapSeq(f, s)[i] == f(s[i])
      {
        if i < |s'| {
          assert s[i] == s'[i];
        }
      }
    }
  }

  lemma MapSeqSnoc<A, B>(f: A -> B, s: seq<A>, x: A)
    ensures MapSeq(f, s + [x]) == MapSeq(f, s) + [f(x)]
  {
    assert (s + [x])[..|s|] == s;
  }
}
