/** One member's view of the key generation (consensus.py): a table of what it has received from
    every member, filled message by message in whatever order they arrive. */
module DkgRuns {
  import opened Ledger
  import opened Options
  import opened DkgAlgebra
  import opened Dkg
  import Seqs

  datatype Member<S, P> = Member(id: int, receivedShare: Option<S>, vector: seq<P>)

  datatype DkgShare<S, P> = DkgShare(source: Address, to: Address, share: S, vector: seq<P>)

  type Table<S, P> = map<Address, Member<S, P>>

  /** A fresh table: the ids of the group, nothing received. */
  function NewTable<S, P>(ids: map<Address, int>): Table<S, P> {
    map o | o in ids :: Member(ids[o], None, [])
  }

  /** The share verifies at the member that owns the table. */
  predicate Accepts<S, P(==)>(g: Scheme<S, P>, own: Address, t: Table<S, P>, c: DkgShare<S, P>)
    requires own in t
  {
    Verifies(g, t[own].id, c.share, c.vector)
  }

  /** A message from a member is stored if it is the first valid one. */
  function Receive<S(==), P(==)>(g: Scheme<S, P>, own: Address, t: Table<S, P>, c: DkgShare<S, P>): (r: Table<S, P>)
    requires own in t && c.source in t
    ensures r.Keys == t.Keys && r[own].id == t[own].id
  {
    if t[c.source].receivedShare == None && Accepts(g, own, t, c) then
      t[c.source := t[c.source].(receivedShare := Some(c.share), vector := c.vector)]
    else t
  }

  /** Messages from outside the group raise and change nothing. */
  function ReceiveAll<S(==), P(==)>(g: Scheme<S, P>, own: Address, t: Table<S, P>, cs: seq<DkgShare<S, P>>): (r: Table<S, P>)
    requires own in t
    ensures r.Keys == t.Keys && r[own].id == t[own].id
    decreases |cs|
  {
    if cs == [] then t
    else if cs[0].source in t then ReceiveAll(g, own, Receive(g, own, t, cs[0]), cs[1..])
    else ReceiveAll(g, own, t, cs[1..])
  }

  /** allSharesReceived */
  predicate Completed<S, P>(t: Table<S, P>) { forall o :: o in t ==> t[o].receivedShare.Some? }

  /** Everything received verifies. */
  ghost predicate AllVerify<S, P>(g: Scheme<S, P>, own: Address, t: Table<S, P>) {
    own in t && forall o :: o in t && t[o].receivedShare.Some? ==> Verifies(g, t[own].id, t[o].receivedShare.value, t[o].vector)
  }

  /** Everything received came with these vectors. */
  ghost predicate From<S, P>(t: Table<S, P>, vectors: map<Address, seq<P>>) {
    forall o :: o in t ==> o in vectors && (t[o].receivedShare.Some? ==> t[o].vector == vectors[o])
  }

  ghost predicate SentWith<S, P>(cs: seq<DkgShare<S, P>>, vectors: map<Address, seq<P>>) {
    forall i :: 0 <= i < |cs| && cs[i].source in vectors ==> cs[i].vector == vectors[cs[i].source]
  }

  lemma {:induction false} RunsVerify<S, P>(g: Scheme<S, P>, own: Address, t: Table<S, P>, cs: seq<DkgShare<S, P>>,
                                            vectors: map<Address, seq<P>>)
    requires AllVerify(g, own, t) && t.Keys == vectors.Keys && From(t, vectors) && SentWith(cs, vectors)
    ensures var r := ReceiveAll(g, own, t, cs); AllVerify(g, own, r) && From(r, vectors)
    decreases |cs|
  {
    if cs != [] {
      assert cs[0].source in vectors ==> cs[0].vector == vectors[cs[0].source];
      assert SentWith(cs[1..], vectors) by {
        forall i | 0 <= i < |cs| - 1 && cs[1..][i].source in vectors
          ensures cs[1..][i].vector == vectors[cs[1..][i].source]
        {
          assert cs[1..][i] == cs[i + 1];
        }
      }
      RunsVerify(g, own, if cs[0].source in t then Receive(g, own, t, cs[0]) else t, cs[1..], vectors);
    }
  }

  /** A member's share is received in a run exactly if one of its messages is valid, whatever else
      arrives, and in whatever order. */
  lemma {:induction false} ReceivedIffValidSent<S, P>(g: Scheme<S, P>, own: Address, t: Table<S, P>, cs: seq<DkgShare<S, P>>, o: Address)
    requires own in t && o in t
    ensures ReceiveAll(g, own, t, cs)[o].receivedShare.Some? <==>
            t[o].receivedShare.Some? || exists i :: 0 <= i < |cs| && cs[i].source == o && Accepts(g, own, t, cs[i])
    decreases |cs|
  {
    if cs != [] {
      var t' := if cs[0].source in t then Receive(g, own, t, cs[0]) else t;
      ReceivedIffValidSent(g, own, t', cs[1..], o);
      if i :| 0 <= i < |cs| && cs[i].source == o && Accepts(g, own, t, cs[i]) {
        if i > 0 { assert cs[1..][i - 1] == cs[i] && Accepts(g, own, t', cs[1..][i - 1]); }
      }
      if i :| 0 <= i < |cs[1..]| && cs[1..][i].source == o && Accepts(g, own, t', cs[1..][i]) {
        assert cs[i + 1] == cs[1..][i] && Accepts(g, own, t, cs[i + 1]);
      }
    }
  }

  /** Message i is the first valid one of its source, at the id of the member. */
  ghost predicate FirstValid<S, P>(g: Scheme<S, P>, id: int, cs: seq<DkgShare<S, P>>, o: Address, i: int) {
    && 0 <= i < |cs| && cs[i].source == o && Verifies(g, id, cs[i].share, cs[i].vector)
    && forall j :: 0 <= j < i && cs[j].source == o ==> !Verifies(g, id, cs[j].share, cs[j].vector)
  }

  /** What is stored for a member is its first valid message, and nothing that comes later changes it. */
  lemma {:induction false} ReceivedIsFirst<S, P>(g: Scheme<S, P>, own: Address, t: Table<S, P>, cs: seq<DkgShare<S, P>>, o: Address)
    requires own in t && o in t
    ensures t[o].receivedShare.Some? ==> ReceiveAll(g, own, t, cs)[o] == t[o]
    ensures t[o].receivedShare == None ==>
              forall i :: FirstValid(g, t[own].id, cs, o, i) ==>
                ReceiveAll(g, own, t, cs)[o] == t[o].(receivedShare := Some(cs[i].share), vector := cs[i].vector)
    decreases |cs|
  {
    if cs != [] {
      var t' := if cs[0].source in t then Receive(g, own, t, cs[0]) else t;
      ReceivedIsFirst(g, own, t', cs[1..], o);
      forall i | FirstValid(g, t[own].id, cs, o, i) && i > 0 ensures FirstValid(g, t'[own].id, cs[1..], o, i - 1) {
        assert cs[1..][i - 1] == cs[i];
        forall j | 0 <= j < i - 1 && cs[1..][j].source == o ensures !Verifies(g, t[own].id, cs[1..][j].share, cs[1..][j].vector) {
          assert cs[1..][j] == cs[j + 1];
        }
      }
    }
  }

  // ----- What a completed member holds -----

  /** The entries of the listed members, in this order. */
  function Picked<T>(order: seq<Address>, m: map<Address, T>): seq<T>
    decreases |order|
  {
    if order == [] then [] else (if order[0] in m then [m[order[0]]] else []) + Picked(order[1..], m)
  }

  lemma {:induction false} PickedAt<T>(order: seq<Address>, m: map<Address, T>)
    requires forall i :: 0 <= i < |order| ==> order[i] in m
    ensures |Picked(order, m)| == |order| && forall i :: 0 <= i < |order| ==> Picked(order, m)[i] == m[order[i]]
    decreases |order|
  {
    if order != [] {
      PickedAt(order[1..], m);
      forall i | 0 < i < |order| ensures Picked(order, m)[i] == m[order[i]] {
        assert Picked(order, m)[i] == Picked(order[1..], m)[i - 1];
      }
    }
  }

  lemma {:induction false} PickedJoin<T>(u: seq<Address>, v: seq<Address>, m: map<Address, T>)
    ensures Picked(u + v, m) == Picked(u, m) + Picked(v, m)
    decreases |u|
  {
    if u == [] {
      assert u + v == v;
    } else {
      assert (u + v)[1..] == u[1..] + v;
      PickedJoin(u[1..], v, m);
    }
  }

  /** The members once each, in the order of some dictionary. */
  ghost predicate Enumerates<T>(order: seq<Address>, m: map<Address, T>) { multiset(order) == multiset(m.Keys) }

  lemma EnumeratesKeys<T>(order: seq<Address>, m: map<Address, T>)
    requires Enumerates(order, m)
    ensures forall i :: 0 <= i < |order| ==> order[i] in m
  {
    forall i | 0 <= i < |order| ensures order[i] in m {
      assert order[i] in multiset(order);
      assert order[i] in multiset(m.Keys);
    }
  }

  lemma {:induction false} PickedPermuted<T>(u: seq<Address>, v: seq<Address>, m: map<Address, T>)
    requires multiset(u) == multiset(v)
    ensures multiset(Picked(u, m)) == multiset(Picked(v, m))
    decreases |u|
  {
    Seqs.SameElements(u, v);
    if u != [] {
      var x, rest := u[0], u[1..];
      var front, back := Seqs.SplitAt(v, x);
      assert u == [x] + rest;
      Seqs.TakeOut(x, rest, front, back);
      PickedPermuted(rest, front + back, m);
      PickedJoin([x], rest, m);
      PickedJoin(front + [x], back, m);
      PickedJoin(front, [x], m);
      PickedJoin(front, back, m);
    }
  }

  lemma {:induction false} ColumnJoin<P>(u: seq<seq<P>>, v: seq<seq<P>>, i: nat)
    ensures Column(u + v, i) == Column(u, i) + Column(v, i)
    decreases |u|
  {
    if u == [] {
      assert u + v == v;
    } else {
      assert (u + v)[1..] == u[1..] + v;
      ColumnJoin(u[1..], v, i);
    }
  }

  lemma {:induction false} ColumnPermuted<P>(u: seq<seq<P>>, v: seq<seq<P>>, i: nat)
    requires multiset(u) == multiset(v)
    ensures multiset(Column(u, i)) == multiset(Column(v, i))
    decreases |u|
  {
    Seqs.SameElements(u, v);
    if u != [] {
      var x, rest := u[0], u[1..];
      var front, back := Seqs.SplitAt(v, x);
      assert u == [x] + rest;
      Seqs.TakeOut(x, rest, front, back);
      ColumnPermuted(rest, front + back, i);
      ColumnJoin([x], rest, i);
      ColumnJoin(front + [x], back, i);
      ColumnJoin(front, [x], i);
      ColumnJoin(front, back, i);
    }
  }

  function SharesOf<S, P>(t: Table<S, P>): map<Address, S> { map o | o in t && t[o].receivedShare.Some? :: t[o].receivedShare.value }

  function VectorsOf<S, P>(t: Table<S, P>): map<Address, seq<P>> { map o | o in t :: t[o].vector }

  /** A completed member's sums, over its table in any order. */
  function SecretSum<S, P>(g: Scheme<S, P>, t: Table<S, P>, order: seq<Address>): S { Sum(g.secrets, Picked(order, SharesOf(t))) }

  function VectorSum<S, P>(g: Scheme<S, P>, vectors: map<Address, seq<P>>, order: seq<Address>, length: nat): seq<P> {
    SumVector(g.publics, Picked(order, vectors), length)
  }

  /** The order does not matter. */
  lemma SumsIgnoreOrder<S(!new), P(!new)>(g: Scheme<S, P>, t: Table<S, P>, vectors: map<Address, seq<P>>,
                                          u: seq<Address>, v: seq<Address>, length: nat)
    requires Lawful(g) && multiset(u) == multiset(v)
    ensures SecretSum(g, t, u) == SecretSum(g, t, v)
    ensures VectorSum(g, vectors, u, length) == VectorSum(g, vectors, v, length)
  {
    PickedPermuted(u, v, SharesOf(t));
    SumPermuted(g.secrets, Picked(u, SharesOf(t)), Picked(v, SharesOf(t)));
    PickedPermuted(u, v, vectors);
    forall i | 0 <= i < length
      ensures Sum(g.publics, Column(Picked(u, vectors), i)) == Sum(g.publics, Column(Picked(v, vectors), i))
    {
      ColumnPermuted(Picked(u, vectors), Picked(v, vectors), i);
      SumPermuted(g.publics, Column(Picked(u, vectors), i), Column(Picked(v, vectors), i));
    }
  }

  /** The secret of a completed member fits the sum of the vectors, at the member's id. */
  lemma CompletedSecretFits<S(!new), P(!new)>(g: Scheme<S, P>, own: Address, t: Table<S, P>, order: seq<Address>, length: nat)
    requires Lawful(g) && AllVerify(g, own, t) && Completed(t) && Enumerates(order, t)
    requires length > 0 && forall o :: o in t ==> |t[o].vector| == length
    ensures Verifies(g, t[own].id, SecretSum(g, t, order), VectorSum(g, VectorsOf(t), order, length))
  {
    EnumeratesKeys(order, t);
    forall i | 0 <= i < |order| ensures order[i] in t && t[order[i]].receivedShare.Some? && order[i] in SharesOf(t) {
      var o := order[i];
      assert o in t;
    }
    var shares, vectors := Picked(order, SharesOf(t)), Picked(order, VectorsOf(t));
    PickedAt(order, SharesOf(t));
    PickedAt(order, VectorsOf(t));
    forall i | 0 <= i < |shares| ensures |vectors[i]| == length && Verifies(g, t[own].id, shares[i], vectors[i]) {
      var o := order[i];
      assert o in t && t[o].receivedShare.Some?;
      assert shares[i] == SharesOf(t)[o] == t[o].receivedShare.value;
      assert vectors[i] == t[o].vector;
    }
    SummedShareVerifies(g, t[own].id, shares, vectors, length);
  }

  lemma SamePicked<T>(order: seq<Address>, m: map<Address, T>, n: map<Address, T>)
    requires forall i :: 0 <= i < |order| ==> order[i] in m && order[i] in n && m[order[i]] == n[order[i]]
    ensures Picked(order, m) == Picked(order, n)
  {
  }

  /** A member that completes in a run in which each source uses one vector of threshold length. */
  lemma CompletedMember<S(!new), P(!new)>(g: Scheme<S, P>, ids: map<Address, int>, vectors: map<Address, seq<P>>, threshold: nat,
                                          a: Address, cs: seq<DkgShare<S, P>>, order: seq<Address>)
    requires Lawful(g) && ids.Keys == vectors.Keys && a in ids && SentWith(cs, vectors) && Enumerates(order, ids)
    requires threshold > 0 && forall o :: o in vectors ==> |vectors[o]| == threshold
    requires Completed(ReceiveAll(g, a, NewTable(ids), cs))
    ensures var t := ReceiveAll(g, a, NewTable(ids), cs);
      && VectorSum(g, VectorsOf(t), order, threshold) == VectorSum(g, vectors, order, threshold)
      && Verifies(g, ids[a], SecretSum(g, t, order), VectorSum(g, vectors, order, threshold))
  {
    var t := ReceiveAll(g, a, NewTable(ids), cs);
    RunsVerify(g, a, NewTable(ids), cs, vectors);
    EnumeratesKeys(order, ids);
    forall i | 0 <= i < |order| ensures order[i] in t && order[i] in vectors && VectorsOf(t)[order[i]] == vectors[order[i]] {
      var o := order[i];
      assert o in t && t[o].receivedShare.Some?;
    }
    SamePicked(order, VectorsOf(t), vectors);
    CompletedSecretFits(g, a, t, order, threshold);
  }

  /** For every run at two members, with duplicates, invalid shares and foreign messages in any order:
      if each source uses one vector of threshold length, then once both members are complete each
      one's secret sum fits the same summed vector at its own id, and they hold the same group key. */
  lemma CompletedMembersAgree<S(!new), P(!new)>(
      g: Scheme<S, P>, ids: map<Address, int>, vectors: map<Address, seq<P>>, threshold: nat,
      a: Address, cs: seq<DkgShare<S, P>>, order: seq<Address>, b: Address, cs': seq<DkgShare<S, P>>, order': seq<Address>)
    requires Lawful(g) && ids.Keys == vectors.Keys && a in ids && b in ids
    requires threshold > 0 && forall o :: o in vectors ==> |vectors[o]| == threshold
    requires SentWith(cs, vectors) && SentWith(cs', vectors)
    requires Enumerates(order, ids) && Enumerates(order', ids)
    ensures var t, t' := ReceiveAll(g, a, NewTable(ids), cs), ReceiveAll(g, b, NewTable(ids), cs');
      Completed(t) && Completed(t') ==>
        && Verifies(g, ids[a], SecretSum(g, t, order), VectorSum(g, vectors, order, threshold))
        && Verifies(g, ids[b], SecretSum(g, t', order'), VectorSum(g, vectors, order, threshold))
        && VectorSum(g, VectorsOf(t), order, threshold)[0] == VectorSum(g, VectorsOf(t'), order', threshold)[0]
  {
    var t, t' := ReceiveAll(g, a, NewTable(ids), cs), ReceiveAll(g, b, NewTable(ids), cs');
    if Completed(t) && Completed(t') {
      CompletedMember(g, ids, vectors, threshold, a, cs, order);
      CompletedMember(g, ids, vectors, threshold, b, cs', order');
      SumsIgnoreOrder(g, t', vectors, order, order', threshold);
    }
  }

  /** What an honest source sends to a member. */
  function Contribution<S, P>(g: Scheme<S, P>, source: Address, secrets: seq<S>, to: Address, id: int): DkgShare<S, P> {
    DkgShare(source, to, SecretShare(g, id, secrets), PublicKeys(g, secrets))
  }

  /** If everybody's vector is honest, the group key is the public key of the sum of all first secrets. */
  lemma GroupKeyOfSecrets<S(!new), P(!new)>(g: Scheme<S, P>, secrets: map<Address, seq<S>>, vectors: map<Address, seq<P>>,
                                            firsts: map<Address, S>, order: seq<Address>, n: nat)
    requires Lawful(g) && n > 0 && Enumerates(order, secrets) && vectors.Keys == secrets.Keys == firsts.Keys
    requires forall o :: o in secrets ==> secrets[o] != [] && vectors[o] == PublicKeys(g, secrets[o]) && firsts[o] == secrets[o][0]
    ensures VectorSum(g, vectors, order, n)[0] == g.pub(Sum(g.secrets, Picked(order, firsts)))
  {
    EnumeratesKeys(order, secrets);
    PublicOfSum(g, Picked(order, firsts));
    FirstColumn(g, secrets, vectors, firsts, order);
  }

  lemma {:induction false} FirstColumn<S, P>(g: Scheme<S, P>, secrets: map<Address, seq<S>>, vectors: map<Address, seq<P>>,
                                            firsts: map<Address, S>, order: seq<Address>)
    requires vectors.Keys == secrets.Keys == firsts.Keys && forall i :: 0 <= i < |order| ==> order[i] in secrets
    requires forall o :: o in secrets ==> secrets[o] != [] && vectors[o] == PublicKeys(g, secrets[o]) && firsts[o] == secrets[o][0]
    ensures Column(Picked(order, vectors), 0) == PublicKeys(g, Picked(order, firsts))
    decreases |order|
  {
    if order != [] {
      FirstColumn(g, secrets, vectors, firsts, order[1..]);
      assert order[0] in secrets;
      assert Picked(order, vectors)[1..] == Picked(order[1..], vectors);
      assert Picked(order, firsts)[1..] == Picked(order[1..], firsts);
    }
  }

  /** A run that brings the honest contribution of every member at least once completes, whatever else
      arrives. */
  lemma HonestRunCompletes<S(!new), P(!new)>(g: Scheme<S, P>, ids: map<Address, int>, a: Address, cs: seq<DkgShare<S, P>>,
                                             secrets: map<Address, seq<S>>)
    requires Lawful(g) && a in ids && ids.Keys == secrets.Keys && forall o :: o in secrets ==> secrets[o] != []
    requires forall o :: o in ids ==> Contribution(g, o, secrets[o], a, ids[a]) in cs
    ensures Completed(ReceiveAll(g, a, NewTable(ids), cs))
  {
    var t := NewTable<S, P>(ids);
    forall o | o in ids ensures ReceiveAll(g, a, t, cs)[o].receivedShare.Some? {
      HonestVerifies(g, ids[a], secrets[o]);
      var i :| 0 <= i < |cs| && cs[i] == Contribution(g, o, secrets[o], a, ids[a]);
      assert cs[i].source == o && Accepts(g, a, t, cs[i]);
      ReceivedIffValidSent(g, a, t, cs, o);
    }
  }

  /** The messages of new_dkg from one member id to the members in some order. */
  method Contributions<S, P>(g: Scheme<S, P>, source: Address, secrets: seq<S>, ids: map<Address, int>, order: seq<Address>)
    returns (messages: seq<DkgShare<S, P>>)
    requires forall i :: 0 <= i < |order| ==> order[i] in ids
    ensures |messages| == |order|
    ensures forall i :: 0 <= i < |order| ==> messages[i] == Contribution(g, source, secrets, order[i], ids[order[i]])
  {
    PickedAt(order, ids);
    var vector, shares := GenerateContribution(g, secrets, Picked(order, ids));
    messages := [];
    for i := 0 to |order|
      invariant |messages| == i
      invariant forall j :: 0 <= j < i ==> messages[j] == Contribution(g, source, secrets, order[j], ids[order[j]])
    {
      messages := messages + [DkgShare(source, order[i], shares[i], vector)];
    }
  }
}
