/** Contributions and their aggregation (Consensus/dkg.py). */
module Dkg {
  import opened Ledger
  import opened Options
  import opened DkgAlgebra

  /** The keys of the random polynomial are a parameter. */
  method GenerateContribution<S, P>(g: Scheme<S, P>, secrets: seq<S>, ids: seq<int>)
    returns (vector: seq<P>, shares: seq<S>)
    ensures vector == PublicKeys(g, secrets)
    ensures |shares| == |ids| && forall i :: 0 <= i < |ids| ==> shares[i] == SecretShare(g, ids[i], secrets)
  {
    vector, shares := [], [];
    for i := 0 to |secrets|
      invariant vector + PublicKeys(g, secrets[i..]) == PublicKeys(g, secrets)
    {
      assert secrets[i..][1..] == secrets[i + 1..];
      vector := vector + [g.pub(secrets[i])];
    }
    for i := 0 to |ids|
      invariant |shares| == i && forall j :: 0 <= j < i ==> shares[j] == SecretShare(g, ids[j], secrets)
    {
      shares := shares + [SecretShare(g, ids[i], secrets)];
    }
  }

  // ----- Adding up as the loops do, from the left -----

  function LeftSum<T>(m: Monoid<T>, first: T, xs: seq<T>): T
    decreases |xs|
  {
    if xs == [] then first else LeftSum(m, m.add(first, xs[0]), xs[1..])
  }

  lemma {:induction false} LeftSumThen<T>(m: Monoid<T>, first: T, xs: seq<T>, x: T)
    ensures LeftSum(m, first, xs + [x]) == m.add(LeftSum(m, first, xs), x)
    decreases |xs|
  {
    if xs == [] {
      assert LeftSum(m, m.add(first, x), []) == m.add(first, x);
      assert (xs + [x])[1..] == [];
    } else {
      assert (xs + [x])[1..] == xs[1..] + [x];
      LeftSumThen(m, m.add(first, xs[0]), xs[1..], x);
    }
  }

  lemma {:induction false} LeftSumIsSum<T(!new)>(m: Monoid<T>, first: T, xs: seq<T>)
    requires Commutative(m)
    ensures LeftSum(m, first, xs) == Sum(m, [first] + xs)
    decreases |xs|
  {
    assert ([first] + xs)[1..] == xs;
    if xs == [] {
      assert AddLaws(m, first, m.zero, first) && AddLaws(m, m.zero, first, first);
    } else {
      var next := m.add(first, xs[0]);
      LeftSumIsSum(m, next, xs[1..]);
      assert ([next] + xs[1..])[1..] == xs[1..];
      assert AddLaws(m, first, xs[0], Sum(m, xs[1..]));
    }
  }

  /** The last share first, then the others; None where popping from an empty list raises. */
  method AddContributionShares<S, P>(g: Scheme<S, P>, shares: seq<S>) returns (r: Option<S>)
    ensures r == if shares == [] then None
                 else Some(LeftSum(g.secrets, shares[|shares| - 1], shares[..|shares| - 1]))
  {
    if shares == [] { return None; }
    var last, rest := shares[|shares| - 1], shares[..|shares| - 1];
    var first := last;
    for i := 0 to |rest|
      invariant first == LeftSum(g.secrets, last, rest[..i])
    {
      LeftSumThen(g.secrets, last, rest[..i], rest[i]);
      assert rest[..i] + [rest[i]] == rest[..i + 1];
      first := g.secrets.add(first, rest[i]);
    }
    assert rest[..|rest|] == rest;
    r := Some(first);
  }

  lemma {:induction false} AddedSharesAreSum<T(!new)>(m: Monoid<T>, shares: seq<T>)
    requires Commutative(m) && shares != []
    ensures LeftSum(m, shares[|shares| - 1], shares[..|shares| - 1]) == Sum(m, shares)
  {
    var last, rest := shares[|shares| - 1], shares[..|shares| - 1];
    LeftSumIsSum(m, last, rest);
    assert shares == rest + [last];
    assert multiset(shares) == multiset([last] + rest);
    SumPermuted(m, shares, [last] + rest);
  }

  lemma {:induction false} ColumnThen<P>(vectors: seq<seq<P>>, v: seq<P>, i: nat)
    ensures Column(vectors + [v], i) == Column(vectors, i) + if i < |v| then [v[i]] else []
    decreases |vectors|
  {
    if vectors == [] {
      assert vectors + [v] == [v];
    } else {
      assert (vectors + [v])[1..] == vectors[1..] + [v];
      ColumnThen(vectors[1..], v, i);
    }
  }

  /** What a position holds after a column of keys was added to it. */
  function Slot<P>(m: Monoid<P>, column: seq<P>): Option<P> {
    if column == [] then None else Some(LeftSum(m, column[0], column[1..]))
  }

  function IntoSlot<P>(m: Monoid<P>, slot: Option<P>, key: P): Option<P> {
    if slot == None then Some(key) else Some(m.add(slot.value, key))
  }

  lemma SlotThen<P>(m: Monoid<P>, column: seq<P>, key: P)
    ensures Slot(m, column + [key]) == IntoSlot(m, Slot(m, column), key)
  {
    if column == [] {
      assert column + [key] == [key];
    } else {
      assert (column + [key])[1..] == column[1..] + [key];
      LeftSumThen(m, column[0], column[1..], key);
    }
  }

  /** Positionwise sums; None where an index is out of range: no vector at all, or one that is longer
      than the first. */
  method AddVerificationVectors<S, P>(g: Scheme<S, P>, vectors: seq<seq<P>>) returns (r: Option<seq<Option<P>>>)
    ensures r.Some? <==> vectors != [] && forall j :: 0 <= j < |vectors| ==> |vectors[j]| <= |vectors[0]|
    ensures r.Some? ==> |r.value| == |vectors[0]| && forall i :: 0 <= i < |r.value| ==> r.value[i] == Slot(g.publics, Column(vectors, i))
  {
    if vectors == [] { return None; }
    var n := |vectors[0]|;
    var slots: seq<Option<P>> := seq(n, _ => None);
    for j := 0 to |vectors|
      invariant |slots| == n && forall l :: 0 <= l < j ==> |vectors[l]| <= n
      invariant forall i :: 0 <= i < n ==> slots[i] == Slot(g.publics, Column(vectors[..j], i))
    {
      if |vectors[j]| > n { return None; }
      slots := AddVector(g, slots, vectors[..j], vectors[j]);
      assert vectors[..j] + [vectors[j]] == vectors[..j + 1];
    }
    assert vectors[..|vectors|] == vectors;
    r := Some(slots);
  }

  /** The inner loop: one vector into the slots. */
  method AddVector<S, P>(g: Scheme<S, P>, slots: seq<Option<P>>, ghost done: seq<seq<P>>, v: seq<P>) returns (r: seq<Option<P>>)
    requires |v| <= |slots|
    requires forall i :: 0 <= i < |slots| ==> slots[i] == Slot(g.publics, Column(done, i))
    ensures |r| == |slots| && forall i :: 0 <= i < |slots| ==> r[i] == Slot(g.publics, Column(done + [v], i))
  {
    r := slots;
    for i := 0 to |v|
      invariant |r| == |slots|
      invariant forall k :: 0 <= k < i ==> r[k] == IntoSlot(g.publics, slots[k], v[k])
      invariant forall k :: i <= k < |slots| ==> r[k] == slots[k]
    {
      r := r[i := IntoSlot(g.publics, r[i], v[i])];
    }
    forall k | 0 <= k < |slots| ensures r[k] == Slot(g.publics, Column(done + [v], k)) {
      ColumnThen(done, v, k);
      if k < |v| { SlotThen(g.publics, Column(done, k), v[k]); } else { assert Column(done, k) + [] == Column(done, k); }
    }
  }

  /** A filled slot is the sum of its column. */
  lemma SlotIsSum<P(!new)>(m: Monoid<P>, column: seq<P>)
    requires Commutative(m) && column != []
    ensures Slot(m, column) == Some(Sum(m, column))
  {
    LeftSumIsSum(m, column[0], column[1..]);
    assert [column[0]] + column[1..] == column;
  }
}
