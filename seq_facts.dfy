/** Re-bracketing of sequence concatenations, stated once so that proofs
    about long histories can use it without re-deriving it in a large
    context. */
module SeqFacts {
  lemma AppendAssociates<T>(a: seq<T>, b: seq<T>, c: seq<T>)
    ensures a + b + c == a + (b + c)
  {
  }

  lemma ConsAssociates<T>(a: seq<T>, b: seq<T>, c: seq<T>, d: seq<T>, e: seq<T>, h: T)
    requires a == [h] + b && b == c + d && e == [h] + c
    ensures a == e + d
  {
  }
}
