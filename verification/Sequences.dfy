/** Facts about sequences that hold for every element type. */
module Sequences {
  lemma {:induction false} Associative<T>(a: seq<T>, b: seq<T>, c: seq<T>)
    ensures a + (b + c) == a + b + c
  {
  }

  /** The characters of a consecutive run, listed. */
  lemma {:induction false} CharRange(first: char, all: string, c: char)
    requires |all| < 100 && (first as int) < 1000 && forall k :: 0 <= k < |all| ==> all[k] as int == first as int + k
    ensures c in all <==> first as int <= c as int < first as int + |all|
  {
    if first as int <= c as int < first as int + |all| { assert all[c as int - first as int] == c; }
  }
}
