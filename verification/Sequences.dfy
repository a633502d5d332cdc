/**
Concatenation, for proofs about loops that append.
*/
module Sequences {
  lemma Regrouped<T>(a: seq<T>, b: seq<T>, c: seq<T>, bc: seq<T>, whole: seq<T>)
    requires a + bc == whole && bc == b + c
    ensures a + b + c == whole
  {
    assert a + b + c == a + (b + c);
  }
}
