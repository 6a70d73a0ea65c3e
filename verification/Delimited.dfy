/** Text whose fields are separated by a delimiter that no field contains. */
module Delimited {

  /** The first delimiter splits such a text in exactly one way. */
  lemma {:induction false} FirstFieldUnique<T>(d: T, a: seq<T>, x: seq<T>, b: seq<T>, y: seq<T>)
    requires d !in a && d !in b
    requires a + [d] + x == b + [d] + y
    ensures a == b && x == y
  {
    var whole := a + [d] + x;
    assert whole[|a|] == d && whole[|b|] == d;
    assert |a| == |b|;
    assert a == whole[..|a|] && b == whole[..|b|];
    assert x == whole[|a| + 1..] && y == whole[|b| + 1..];
  }
}
