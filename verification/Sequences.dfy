/** Regroupings of sequence concatenations, stated once so that no proof has to search for them. */
module Sequences {
  lemma Assoc<T>(a: seq<T>, b: seq<T>, c: seq<T>)
    ensures (a + b) + c == a + (b + c)
  {
  }

  /** Composes two steps, each of which moves items from an input and a store to an output and a store. */
  lemma Regroup<T>(a: seq<T>, b: seq<T>, x: seq<T>, c: seq<T>, d: seq<T>, y: seq<T>, z: seq<T>)
    requires a + b == c + d && d + x == y + z
    ensures a + (b + x) == (c + y) + z
  {
    assert a + (b + x) == (a + b) + x == c + (d + x);
    assert c + (y + z) == (c + y) + z;
  }
}
