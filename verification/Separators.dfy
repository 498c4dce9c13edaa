/** Keys that join their parts with a separator character. */
module Separators {

  /** The first separator marks the end of a part that does not contain it. */
  lemma SplitAtFirst(a: string, b: string, a': string, b': string, c: char)
    requires c !in a && c !in a' && a + [c] + b == a' + [c] + b'
    ensures a == a' && b == b'
  {
    if |a| < |a'| { LongerPartHolds(a, b, a', b', c); }
    if |a'| < |a| { LongerPartHolds(a', b', a, b, c); }
    var k := a + [c] + b;
    assert a == k[..|a|] && a' == k[..|a'|];
    assert b == k[|a| + 1..] && b' == k[|a'| + 1..];
  }

  lemma LongerPartHolds(a: string, b: string, a': string, b': string, c: char)
    requires a + [c] + b == a' + [c] + b' && |a| < |a'|
    ensures c in a' && c in b
  {
    var k := a + [c] + b;
    assert k[|a|] == c && a'[|a|] == (a' + [c] + b')[|a|];
    assert (a' + [c] + b')[|a'|] == c && k[|a'|] == b[|a'| - |a| - 1];
  }

  /** The last separator marks the start of a part that does not contain it. */
  lemma SplitAtLast(a: string, b: string, a': string, b': string, c: char)
    requires c !in b && c !in b' && a + [c] + b == a' + [c] + b'
    ensures a == a' && b == b'
  {
    if |a| < |a'| { LongerPartHolds(a, b, a', b', c); }
    if |a'| < |a| { LongerPartHolds(a', b', a, b, c); }
    var k := a + [c] + b;
    assert a == k[..|a|] && a' == k[..|a'|];
    assert b == k[|a| + 1..] && b' == k[|a'| + 1..];
  }
}
