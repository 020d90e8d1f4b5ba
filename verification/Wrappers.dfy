/** Types and sequence facts shared by the components. */
module Wrappers {
  datatype Option<+T> = None | Some(value: T)

  lemma Concat<T>(x: seq<T>, y: seq<T>, z: seq<T>)
    ensures x + (y + z) == (x + y) + z
  {}

  /** Conservation over a first step (x, a, b, y) and the rest (a1, b1, z) adds up. */
  lemma Reassociate<T>(x: seq<T>, a: seq<T>, a1: seq<T>, b: seq<T>, y: seq<T>, b1: seq<T>, z: seq<T>)
    requires x + a == b + y && y + a1 == b1 + z
    ensures x + (a + a1) == (b + b1) + z
  {
    calc {
      x + (a + a1);
      (x + a) + a1;
      (b + y) + a1;
      b + (y + a1);
      b + (b1 + z);
      (b + b1) + z;
    }
  }

  /** The same for contents regardless of order. */
  lemma AddUp<T>(x: seq<T>, a: seq<T>, a1: seq<T>, b: seq<T>, y: seq<T>, b1: seq<T>, z: seq<T>)
    requires multiset(x) + multiset(a) == multiset(b) + multiset(y)
    requires multiset(y) + multiset(a1) == multiset(b1) + multiset(z)
    ensures multiset(x) + multiset(a + a1) == multiset(b + b1) + multiset(z)
  {
    calc {
      multiset(x) + multiset(a + a1);
      (multiset(x) + multiset(a)) + multiset(a1);
      multiset(b) + (multiset(y) + multiset(a1));
      multiset(b) + (multiset(b1) + multiset(z));
      multiset(b + b1) + multiset(z);
    }
  }
}
