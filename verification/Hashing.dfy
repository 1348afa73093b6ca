/**
 * What the model assumes of SHA-256 in hexadecimal: no two inputs seen by the program share a digest, and a
 * digest never holds the separator ':' nor reads "GENESIS". A digest function is a parameter of every
 * definition that hashes; nothing else is known about it.
 */
module Hashing {

  ghost predicate Injective<A(!new), B(!new)>(f: A -> B) {
    forall x, y :: f(x) == f(y) ==> x == y
  }

  /** Text in which the separator of a hashed pair does not occur. */
  predicate Plain(s: string) {
    ':' !in s
  }

  ghost predicate HexDigest(h: string -> string) {
    && Injective(h)
    && (forall x :: Plain(h(x)))
  }

  /** A pair of separator-free texts can be read back from its joined form, whatever else was joined. */
  lemma JoinInjective(a: string, b: string, c: string, d: string)
    requires Plain(c) && Plain(d)
    requires a + ":" + b == c + ":" + d
    ensures a == c && b == d
  {
    var left, right := a + ":" + b, c + ":" + d;
    assert left[|a|] == ':' && right[|c|] == ':';
    assert forall i | 0 <= i < |c| :: right[i] == c[i];
    assert forall i | |c| < i < |right| :: right[i] == d[i - |c| - 1];
    assert |a| == |c|;
    assert a == left[..|a|] == right[..|c|] == c;
    assert b == left[|a| + 1..] == right[|c| + 1..] == d;
  }

  /** A fixed prefix changes nothing. */
  lemma PrefixInjective(p: string, x: string, y: string)
    requires p + x == p + y
    ensures x == y
  {
    assert x == (p + x)[|p|..] && y == (p + y)[|p|..];
  }
}
