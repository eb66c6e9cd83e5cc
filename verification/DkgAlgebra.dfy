/** The algebra behind the distributed key generation (Consensus/dkg.py). Secret and public keys add
    up; taking the public key respects that; a share is a polynomial at a member's id. */
module DkgAlgebra {
  import Seqs

  datatype Monoid<!T> = Monoid(zero: T, add: (T, T) -> T)

  ghost predicate AddLaws<T>(m: Monoid<T>, x: T, y: T, z: T) {
    && m.add(x, y) == m.add(y, x)
    && m.add(m.add(x, y), z) == m.add(x, m.add(y, z))
    && m.add(m.zero, x) == x
  }

  ghost predicate Commutative<T(!new)>(m: Monoid<T>) { forall x, y, z :: AddLaws(m, x, y, z) }

  /** Keys with their operations; the ids scale. */
  datatype Scheme<!S, !P> = Scheme(
    secrets: Monoid<S>, publics: Monoid<P>, scaleSecret: (int, S) -> S, scalePublic: (int, P) -> P, pub: S -> P)

  ghost predicate SecretLaws<S, P>(g: Scheme<S, P>, k: int, x: S, y: S) {
    && g.pub(g.secrets.add(x, y)) == g.publics.add(g.pub(x), g.pub(y))
    && g.pub(g.scaleSecret(k, x)) == g.scalePublic(k, g.pub(x))
  }

  ghost predicate PublicLaws<S, P>(g: Scheme<S, P>, k: int, x: P, y: P) {
    g.scalePublic(k, g.publics.add(x, y)) == g.publics.add(g.scalePublic(k, x), g.scalePublic(k, y))
  }

  ghost predicate ZeroLaws<S, P>(g: Scheme<S, P>, k: int) {
    g.pub(g.secrets.zero) == g.publics.zero && g.scalePublic(k, g.publics.zero) == g.publics.zero
  }

  /** The public key is a homomorphism of the two groups. */
  ghost predicate Lawful<S(!new), P(!new)>(g: Scheme<S, P>) {
    && Commutative(g.secrets) && Commutative(g.publics)
    && (forall k, x, y :: SecretLaws(g, k, x, y))
    && (forall k, x, y :: PublicLaws(g, k, x, y))
    && (forall k :: ZeroLaws(g, k))
  }

  function Times(k: int, x: int): int { k * x }

  function Multiples(k: int): Scheme<int, int> {
    var sums := Monoid(0, (x: int, y: int) => x + y);
    Scheme(sums, sums, Times, Times, x => Times(k, x))
  }

  lemma TimesLaws(k: int, x: int, y: int)
    ensures Times(k, x + y) == Times(k, x) + Times(k, y)
    ensures Times(k, Times(x, y)) == Times(x, Times(k, y))
  {
    assert k * (x * y) == x * (k * y);
  }

  /** The laws can be met: by integers, with multiples of k as public keys. */
  lemma MultiplesAreLawful(k: int)
    ensures Lawful(Multiples(k))
  {
    var g := Multiples(k);
    forall i, x, y ensures SecretLaws(g, i, x, y) {
      TimesLaws(k, x, y);
      TimesLaws(k, i, x);
    }
    forall i, x, y ensures PublicLaws(g, i, x, y) { TimesLaws(i, x, y); }
  }

  // ----- Sums -----

  function Sum<T>(m: Monoid<T>, xs: seq<T>): T
    decreases |xs|
  {
    if xs == [] then m.zero else m.add(xs[0], Sum(m, xs[1..]))
  }

  lemma {:induction false} SumSplit<T(!new)>(m: Monoid<T>, front: seq<T>, x: T, back: seq<T>)
    requires Commutative(m)
    ensures Sum(m, front + [x] + back) == m.add(x, Sum(m, front + back))
    decreases |front|
  {
    if front == [] {
      assert front + [x] + back == [x] + back && front + back == back;
    } else {
      var w, rest := front[0], front[1..];
      assert front == [w] + rest;
      Seqs.PullHead(w, rest, x, back);
      SumSplit(m, rest, x, back);
      assert ([w] + (rest + [x] + back))[1..] == rest + [x] + back;
      assert ([w] + (rest + back))[1..] == rest + back;
      Swap(m, w, x, Sum(m, rest + back));
    }
  }

  lemma Swap<T(!new)>(m: Monoid<T>, w: T, x: T, y: T)
    requires Commutative(m)
    ensures m.add(w, m.add(x, y)) == m.add(x, m.add(w, y))
  {
    assert AddLaws(m, w, x, y) && AddLaws(m, x, w, y);
  }

  /** The order of the summands does not matter. */
  lemma {:induction false} SumPermuted<T(!new)>(m: Monoid<T>, xs: seq<T>, ys: seq<T>)
    requires Commutative(m) && multiset(xs) == multiset(ys)
    ensures Sum(m, xs) == Sum(m, ys)
    decreases |xs|
  {
    Seqs.SameElements(xs, ys);
    if xs != [] {
      var x, rest := xs[0], xs[1..];
      var front, back := Seqs.SplitAt(ys, x);
      assert xs == [x] + rest;
      Seqs.TakeOut(x, rest, front, back);
      SumPermuted(m, rest, front + back);
      SumSplit(m, front, x, back);
    }
  }

  // ----- Shares -----

  /** `secretKeyShare`: the polynomial with these coefficients at the id. */
  function SecretShare<S, P>(g: Scheme<S, P>, id: int, coefficients: seq<S>): S
    decreases |coefficients|
  {
    if coefficients == [] then g.secrets.zero
    else g.secrets.add(coefficients[0], g.scaleSecret(id, SecretShare(g, id, coefficients[1..])))
  }

  /** `publicKeyShare`: the same in public keys. */
  function PublicShare<S, P>(g: Scheme<S, P>, id: int, vector: seq<P>): P
    decreases |vector|
  {
    if vector == [] then g.publics.zero
    else g.publics.add(vector[0], g.scalePublic(id, PublicShare(g, id, vector[1..])))
  }

  function PublicKeys<S, P>(g: Scheme<S, P>, secrets: seq<S>): (r: seq<P>)
    ensures |r| == |secrets|
    decreases |secrets|
  {
    if secrets == [] then [] else [g.pub(secrets[0])] + PublicKeys(g, secrets[1..])
  }

  /** verifyContributionShare; a share cannot be checked against an empty vector. */
  predicate Verifies<S, P(==)>(g: Scheme<S, P>, id: int, share: S, vector: seq<P>) {
    vector != [] && PublicShare(g, id, vector) == g.pub(share)
  }

  lemma {:induction false} ShareOfPublicKeys<S(!new), P(!new)>(g: Scheme<S, P>, id: int, secrets: seq<S>)
    requires Lawful(g)
    ensures PublicShare(g, id, PublicKeys(g, secrets)) == g.pub(SecretShare(g, id, secrets))
    decreases |secrets|
  {
    assert ZeroLaws(g, id);
    if secrets != [] {
      ShareOfPublicKeys(g, id, secrets[1..]);
      var rest := SecretShare(g, id, secrets[1..]);
      assert SecretLaws(g, id, secrets[0], g.scaleSecret(id, rest)) && SecretLaws(g, id, rest, rest);
    }
  }

  /** An honest contribution verifies at every id. */
  lemma HonestVerifies<S(!new), P(!new)>(g: Scheme<S, P>, id: int, secrets: seq<S>)
    requires Lawful(g) && secrets != []
    ensures Verifies(g, id, SecretShare(g, id, secrets), PublicKeys(g, secrets))
  {
    ShareOfPublicKeys(g, id, secrets);
  }

  // ----- Shares over the integers -----

  function Power(x: int, k: nat): int { if k == 0 then 1 else x * Power(x, k - 1) }

  /** The sum of coefficients[i] * x^i. */
  function Polynomial(coefficients: seq<int>, x: int): int
    decreases |coefficients|
  {
    if coefficients == [] then 0
    else
      var last := |coefficients| - 1;
      Polynomial(coefficients[..last], x) + coefficients[last] * Power(x, last)
  }

  lemma {:induction false} FirstCoefficient(coefficients: seq<int>, x: int)
    requires coefficients != []
    ensures Polynomial(coefficients, x) == coefficients[0] + x * Polynomial(coefficients[1..], x)
    decreases |coefficients|
  {
    var last := |coefficients| - 1;
    if last == 0 {
      assert coefficients[..0] == [] && coefficients[1..] == [];
    } else {
      var front, rest, c := coefficients[..last], coefficients[1..], coefficients[last];
      FirstCoefficient(front, x);
      assert front[1..] == rest[..last - 1];
      Distribute(x, Polynomial(front[1..], x), c, Power(x, last - 1));
    }
  }

  lemma Distribute(x: int, p: int, c: int, q: int)
    ensures x * (p + c * q) == x * p + c * (x * q)
  {
  }

  /** With integers for keys a share is the polynomial with the secrets as coefficients, at the id, the
      first of them the constant term; and nothing else verifies. */
  lemma {:induction false} ShareIsPolynomial(id: int, secrets: seq<int>)
    ensures SecretShare(Multiples(1), id, secrets) == Polynomial(secrets, id)
    decreases |secrets|
  {
    if secrets != [] {
      ShareIsPolynomial(id, secrets[1..]);
      FirstCoefficient(secrets, id);
    }
  }

  lemma OnlyTheShareVerifies(id: int, share: int, secrets: seq<int>)
    ensures Verifies(Multiples(1), id, share, PublicKeys(Multiples(1), secrets)) <==>
            secrets != [] && share == Polynomial(secrets, id)
  {
    MultiplesAreLawful(1);
    ShareIsPolynomial(id, secrets);
    ShareOfPublicKeys(Multiples(1), id, secrets);
  }

  // ----- Sums of vectors -----

  /** The entries at position i, of the vectors that have one. */
  function Column<P>(vectors: seq<seq<P>>, i: nat): seq<P>
    decreases |vectors|
  {
    if vectors == [] then []
    else (if i < |vectors[0]| then [vectors[0][i]] else []) + Column(vectors[1..], i)
  }

  /** Position by position. */
  function SumVector<P>(m: Monoid<P>, vectors: seq<seq<P>>, length: nat): (r: seq<P>)
    ensures |r| == length
    ensures forall i :: 0 <= i < length ==> r[i] == Sum(m, Column(vectors, i))
  {
    seq(length, i requires 0 <= i => Sum(m, Column(vectors, i)))
  }

  function Shares<S, P>(g: Scheme<S, P>, id: int, vectors: seq<seq<P>>): seq<P>
    decreases |vectors|
  {
    if vectors == [] then [] else [PublicShare(g, id, vectors[0])] + Shares(g, id, vectors[1..])
  }

  function AddVectors<P>(m: Monoid<P>, u: seq<P>, v: seq<P>): (r: seq<P>)
    requires |u| == |v|
    ensures |r| == |u| && forall i :: 0 <= i < |u| ==> r[i] == m.add(u[i], v[i])
    decreases |u|
  {
    if u == [] then [] else [m.add(u[0], v[0])] + AddVectors(m, u[1..], v[1..])
  }

  lemma {:induction false} ShareOfSum<S(!new), P(!new)>(g: Scheme<S, P>, id: int, u: seq<P>, v: seq<P>)
    requires Lawful(g) && |u| == |v|
    ensures PublicShare(g, id, AddVectors(g.publics, u, v)) == g.publics.add(PublicShare(g, id, u), PublicShare(g, id, v))
    decreases |u|
  {
    if u != [] {
      var m := g.publics;
      var x, y := PublicShare(g, id, u[1..]), PublicShare(g, id, v[1..]);
      ShareOfSum(g, id, u[1..], v[1..]);
      var p, q := g.scalePublic(id, x), g.scalePublic(id, y);
      assert PublicLaws(g, id, x, y);
      Interchange(m, u[0], v[0], p, q);
    } else {
      var zero := g.publics.zero;
      assert AddLaws(g.publics, zero, zero, zero);
    }
  }

  lemma Interchange<T(!new)>(m: Monoid<T>, a: T, b: T, p: T, q: T)
    requires Commutative(m)
    ensures m.add(m.add(a, b), m.add(p, q)) == m.add(m.add(a, p), m.add(b, q))
  {
    assert AddLaws(m, a, b, m.add(p, q)) && AddLaws(m, a, p, m.add(b, q));
    Swap(m, b, p, q);
  }

  lemma {:induction false} ShareOfZeros<S(!new), P(!new)>(g: Scheme<S, P>, id: int, zeros: seq<P>)
    requires Lawful(g) && forall i :: 0 <= i < |zeros| ==> zeros[i] == g.publics.zero
    ensures PublicShare(g, id, zeros) == g.publics.zero
    decreases |zeros|
  {
    if zeros != [] {
      ShareOfZeros(g, id, zeros[1..]);
      var zero := g.publics.zero;
      assert AddLaws(g.publics, zero, zero, zero) && ZeroLaws(g, id);
    }
  }

  /** The share of the summed vector is the sum of the shares. */
  lemma {:induction false} ShareOfSumVector<S(!new), P(!new)>(g: Scheme<S, P>, id: int, vectors: seq<seq<P>>, length: nat)
    requires Lawful(g) && forall i :: 0 <= i < |vectors| ==> |vectors[i]| == length
    ensures PublicShare(g, id, SumVector(g.publics, vectors, length)) == Sum(g.publics, Shares(g, id, vectors))
    decreases |vectors|
  {
    var total := SumVector(g.publics, vectors, length);
    if vectors == [] {
      ShareOfZeros(g, id, total);
    } else {
      var first, rest := vectors[0], vectors[1..];
      ShareOfSumVector(g, id, rest, length);
      var others := SumVector(g.publics, rest, length);
      ShareOfSum(g, id, first, others);
      forall i | 0 <= i < length ensures total[i] == AddVectors(g.publics, first, others)[i] {
        ColumnStep(g.publics, vectors, i);
      }
      assert total == AddVectors(g.publics, first, others);
      assert Shares(g, id, vectors)[1..] == Shares(g, id, rest);
    }
  }

  lemma ColumnStep<P>(m: Monoid<P>, vectors: seq<seq<P>>, i: nat)
    requires vectors != [] && i < |vectors[0]|
    ensures Sum(m, Column(vectors, i)) == m.add(vectors[0][i], Sum(m, Column(vectors[1..], i)))
  {
    assert Column(vectors, i)[1..] == Column(vectors[1..], i);
  }

  lemma {:induction false} PublicOfSum<S(!new), P(!new)>(g: Scheme<S, P>, secrets: seq<S>)
    requires Lawful(g)
    ensures g.pub(Sum(g.secrets, secrets)) == Sum(g.publics, PublicKeys(g, secrets))
    decreases |secrets|
  {
    assert ZeroLaws(g, 0);
    if secrets != [] {
      PublicOfSum(g, secrets[1..]);
      assert SecretLaws(g, 0, secrets[0], Sum(g.secrets, secrets[1..]));
      assert PublicKeys(g, secrets)[1..] == PublicKeys(g, secrets[1..]);
    }
  }

  /** If every share verifies against its vector, the sum of the shares verifies against the sum of
      the vectors. */
  lemma SummedShareVerifies<S(!new), P(!new)>(g: Scheme<S, P>, id: int, shares: seq<S>, vectors: seq<seq<P>>, length: nat)
    requires Lawful(g) && |shares| == |vectors| && length > 0
    requires forall i :: 0 <= i < |shares| ==> |vectors[i]| == length && Verifies(g, id, shares[i], vectors[i])
    ensures Verifies(g, id, Sum(g.secrets, shares), SumVector(g.publics, vectors, length))
  {
    ShareOfSumVector(g, id, vectors, length);
    PublicOfSum(g, shares);
    SameShares(g, id, shares, vectors);
  }

  lemma {:induction false} SameShares<S, P>(g: Scheme<S, P>, id: int, shares: seq<S>, vectors: seq<seq<P>>)
    requires |shares| == |vectors| && forall i :: 0 <= i < |shares| ==> Verifies(g, id, shares[i], vectors[i])
    ensures Shares(g, id, vectors) == PublicKeys(g, shares)
    decreases |shares|
  {
    if shares != [] {
      forall i | 0 <= i < |shares| - 1 ensures Verifies(g, id, shares[1..][i], vectors[1..][i]) {
        assert Verifies(g, id, shares[i + 1], vectors[i + 1]);
      }
      SameShares(g, id, shares[1..], vectors[1..]);
    }
  }
}
