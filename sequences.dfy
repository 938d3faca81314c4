/** Facts about sequence concatenation, stated once and used where a proof splits or rejoins text. */
module Sequences {
  lemma SplitAt<T>(s: seq<T>, n: nat)
    requires n <= |s|
    ensures s[..n] + s[n..] == s
  {
  }

  lemma Halves<T>(a: seq<T>, b: seq<T>)
    ensures (a + b)[..|a|] == a && (a + b)[|a|..] == b
  {
  }

  lemma Uncons<T>(s: seq<T>)
    requires s != []
    ensures s == [s[0]] + s[1..]
  {
  }

  lemma ConsTail<T>(a: seq<T>, b: seq<T>)
    requires a != []
    ensures (a + b)[0] == a[0] && (a + b)[1..] == a[1..] + b
  {
  }

  lemma ConsPair<T>(a: T, b: T, s: seq<T>)
    ensures [a, b] + s == [a] + ([b] + s)
  {
  }

  lemma ConsTriple<T>(a: T, b: T, c: T, s: seq<T>)
    ensures [a] + [b] + [c] + s == [a, b, c] + s
  {
  }

  lemma Associative<T>(a: seq<T>, b: seq<T>, c: seq<T>)
    ensures a + (b + c) == a + b + c
  {
  }

  lemma SliceSnoc<T>(s: seq<T>, i: nat)
    requires i < |s|
    ensures s[i..] == s[..|s| - 1][i..] + [s[|s| - 1]]
  {
  }

  lemma TakeSnoc<T>(s: seq<T>, n: nat)
    requires n < |s|
    ensures s[..n + 1] == s[..n] + [s[n]]
  {
  }

  lemma Framed<T>(a: T, s: seq<T>, b: T)
    ensures |[a] + s + [b]| == |s| + 2
    ensures ([a] + s + [b])[0] == a && ([a] + s + [b])[|s| + 1] == b
    ensures forall k | 1 <= k <= |s| :: ([a] + s + [b])[k] == s[k - 1]
  {
  }
}
