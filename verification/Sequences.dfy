/** Concatenation, for proofs that regroup it. */
module Sequences {
  lemma Regroup<T>(a: seq<T>, b: seq<T>, c: seq<T>)
    ensures a + (b + c) == a + b + c
  {}

  lemma Emptys<T>(s: seq<T>)
    ensures [] + s == s && s + [] == s
  {}

  /** A sequence without elements is empty. */
  lemma Nothing<T>(s: seq<T>)
    ensures s == [] <==> forall x :: x !in s
  {
    if s != [] { assert s[0] in s; }
  }
}
