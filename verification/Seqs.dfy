/** Rearrangements of sequences, stated once for all element types. */
module Seqs {

  lemma PullHead<T>(w: T, rest: seq<T>, x: T, back: seq<T>)
    ensures [w] + rest + [x] + back == [w] + (rest + [x] + back)
    ensures [w] + rest + back == [w] + (rest + back)
  {
  }

  lemma TakeStep<T>(s: seq<T>, j: nat)
    requires j < |s|
    ensures s == [s[0]] + s[1..] && s[..j + 1] == [s[0]] + s[1..][..j]
  {
  }

  /** Taking one element out of two permutations leaves permutations. */
  lemma TakeOut<T>(x: T, rest: seq<T>, front: seq<T>, back: seq<T>)
    requires multiset([x] + rest) == multiset(front + [x] + back)
    ensures multiset(rest) == multiset(front + back)
  {
    assert multiset([x] + rest) == multiset{x} + multiset(rest);
    assert multiset(front + [x] + back) == multiset(front) + multiset{x} + multiset(back);
    assert multiset(front + back) == multiset(front) + multiset(back);
    assert multiset(rest) == multiset{x} + multiset(rest) - multiset{x};
  }

  lemma SplitAt<T>(s: seq<T>, x: T) returns (front: seq<T>, back: seq<T>)
    requires x in s
    ensures s == front + [x] + back
  {
    var i :| 0 <= i < |s| && s[i] == x;
    front, back := s[..i], s[i + 1..];
  }

  lemma SameElements<T>(s: seq<T>, t: seq<T>)
    requires multiset(s) == multiset(t)
    ensures |s| == |t| && forall x :: x in s <==> x in t
  {
    assert |multiset(s)| == |s| && |multiset(t)| == |t|;
    forall x ensures x in s <==> x in t {
      assert x in s <==> x in multiset(s);
      assert x in t <==> x in multiset(t);
    }
  }
}
