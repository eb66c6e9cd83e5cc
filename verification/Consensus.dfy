/** The key generation part of the consensus object (consensus.py). One object serves all the member
    ids of its node, each with a table of its own. */
module ConsensusObject {
  import opened Ledger
  import opened Options
  import opened DkgAlgebra
  import opened Dkg
  import opened DkgRuns

  datatype Verdict = Processed | UnknownMember | UnevenVectors

  class Consensus<S(==,!new), P(==,!new)> {
    const g: Scheme<S, P>
    var members: map<Address, Table<S, P>>
    var secretKeys: map<Address, S>
    var groupKey: Option<P>

    /** Each table is owned by one of its members, holds only what verifies, and once it is complete
        the secret key is the sum of the shares. */
    ghost predicate Valid()
      reads this
    {
      forall d :: d in members ==>
        && AllVerify(g, d, members[d])
        && (Completed(members[d]) ==> d in secretKeys && IsSum(g, members[d], secretKeys[d]))
    }

    constructor (g: Scheme<S, P>, ids: map<Address, int>, own: set<Address>)
      requires own <= ids.Keys
      ensures Valid() && this.g == g && secretKeys == map[] && groupKey == None
      ensures members == map d | d in own :: NewTable(ids)
    {
      this.g := g;
      members := map d | d in own :: NewTable(ids);
      secretKeys, groupKey := map[], None;
      new;
      forall d | d in members ensures !Completed(members[d]) { assert members[d][d].receivedShare == None; }
    }

    /** verify_dkg_contribution */
    method VerifyDkgContribution(c: DkgShare<S, P>) returns (r: Verdict)
      requires Valid() && Lawful(g)
      modifies this
      ensures Valid()
      ensures r == UnknownMember <==> c.to !in old(members) || c.source !in old(members)[c.to]
      ensures r == UnknownMember ==> members == old(members) && secretKeys == old(secretKeys) && groupKey == old(groupKey)
      ensures r != UnknownMember ==> members == old(members)[c.to := Receive(g, c.to, old(members)[c.to], c)]
      ensures r != UnknownMember && !Completed(old(members)[c.to]) && Completed(members[c.to]) ==>
                IsGroupKey(g, members[c.to], groupKey)
      ensures r != UnknownMember && (Completed(old(members)[c.to]) || !Completed(members[c.to])) ==> secretKeys == old(secretKeys) && groupKey == old(groupKey)
      ensures r == UnevenVectors ==> groupKey == old(groupKey)
      ensures secretKeys - {c.to} == old(secretKeys) - {c.to}
    {
      if c.to !in members || c.source !in members[c.to] { return UnknownMember; }
      var table := members[c.to];
      if table[c.source].receivedShare.Some? { return Processed; }
      ReceiveVerifies(g, c.to, table, c);
      table := Receive(g, c.to, table, c);
      members := members[c.to := table];
      if AllSharesReceived(table) {
        var secret, key := Aggregate(g, c.to, table);
        secretKeys := secretKeys[c.to := secret];
        if key == None { return UnevenVectors; }
        groupKey := key;
      }
      r := Processed;
    }
  }

  predicate AllSharesReceived<S, P>(t: Table<S, P>)
    ensures AllSharesReceived(t) == Completed(t)
  {
    forall o | o in t :: t[o].receivedShare.Some?
  }

  lemma ReceiveVerifies<S, P>(g: Scheme<S, P>, own: Address, t: Table<S, P>, c: DkgShare<S, P>)
    requires AllVerify(g, own, t) && c.source in t
    ensures AllVerify(g, own, Receive(g, own, t, c))
  {
  }

  method InSomeOrder(keys: set<Address>) returns (order: seq<Address>)
    ensures multiset(order) == multiset(keys)
  {
    order := [];
    var todo := keys;
    while todo != {}
      invariant todo <= keys && multiset(order) + multiset(todo) == multiset(keys)
    {
      SomeAddress(todo);
      var a :| a in todo;
      order := order + [a];
      todo := todo - {a};
    }
  }

  /** The sums of a complete table, over its members in the order of the dictionary. No key if the
      vectors do not fit. */
  method Aggregate<S(!new), P(!new)>(g: Scheme<S, P>, own: Address, t: Table<S, P>) returns (secret: S, key: Option<P>)
    requires Lawful(g) && AllVerify(g, own, t) && Completed(t)
    ensures IsSum(g, t, secret)
    ensures key.Some? ==> IsGroupKey(g, t, key)
    ensures key == None ==> forall n :: !Even(t, n)
  {
    var order := InSomeOrder(t.Keys);
    secret := AddShares(g, own, t, order);
    AnyOrderIsSum(g, t, order);
    key := AddVectors(g, t, order);
    if key.Some? { AnyOrderIsGroupKey(g, t, order); }
  }

  method AddShares<S(!new), P(!new)>(g: Scheme<S, P>, own: Address, t: Table<S, P>, order: seq<Address>) returns (secret: S)
    requires Lawful(g) && own in t && Completed(t) && Enumerates(order, t)
    ensures secret == SecretSum(g, t, order)
  {
    PickedShares(own, t, order);
    var shares := Picked(order, SharesOf(t));
    var sum := AddContributionShares(g, shares);
    secret := sum.value;
    AddedSharesAreSum(g.secrets, shares);
  }

  method AddVectors<S, P>(g: Scheme<S, P>, t: Table<S, P>, order: seq<Address>) returns (key: Option<P>)
    requires t != map[] && Enumerates(order, t)
    ensures key.Some? ==> Picked(order, VectorsOf(t)) != [] && key == Slot(g.publics, Column(Picked(order, VectorsOf(t)), 0))
    ensures key == None ==> forall n :: !Even(t, n)
  {
    var vectors := Picked(order, VectorsOf(t));
    VectorsPicked(t, order);
    var slots := AddVerificationVectors(g, vectors);
    if slots == None || slots.value == [] { return None; }
    key := slots.value[0];
    assert Column(vectors, 0)[0] == vectors[0][0];
  }

  lemma VectorsPicked<S, P>(t: Table<S, P>, order: seq<Address>)
    requires t != map[] && Enumerates(order, t)
    ensures Picked(order, VectorsOf(t)) != []
    ensures |Picked(order, VectorsOf(t))| == |order|
    ensures forall n :: Even(t, n) ==> n > 0 && forall i :: 0 <= i < |order| ==> |Picked(order, VectorsOf(t))[i]| == n
  {
    EnumeratesKeys(order, t);
    forall i | 0 <= i < |order| ensures order[i] in VectorsOf(t) {}
    PickedAt(order, VectorsOf(t));
    forall n, i | Even(t, n) && 0 <= i < |order| ensures |Picked(order, VectorsOf(t))[i]| == n {
      var o := order[i];
      assert o in t;
    }
    assert |multiset(order)| == |order| && |multiset(t.Keys)| == |t.Keys|;
  }

  ghost predicate IsSum<S, P>(g: Scheme<S, P>, t: Table<S, P>, key: S) {
    forall order :: Enumerates(order, t) ==> key == SecretSum(g, t, order)
  }

  /** All vectors have this length. */
  ghost predicate Even<S, P>(t: Table<S, P>, n: nat) { n > 0 && forall o :: o in t ==> |t[o].vector| == n }

  /** The first entry of the summed vectors, if they can be summed. */
  ghost predicate IsGroupKey<S, P>(g: Scheme<S, P>, t: Table<S, P>, key: Option<P>) {
    forall order, n: nat :: Enumerates(order, t) && Even(t, n) ==> key == Some(VectorSum(g, VectorsOf(t), order, n)[0])
  }

  lemma PickedShares<S, P>(own: Address, t: Table<S, P>, order: seq<Address>)
    requires own in t && Completed(t) && Enumerates(order, t)
    ensures Picked(order, SharesOf(t)) != []
  {
    EnumeratesKeys(order, t);
    forall i | 0 <= i < |order| ensures order[i] in SharesOf(t) {
      var o := order[i];
      assert o in t;
    }
    PickedAt(order, SharesOf(t));
    assert own in multiset(t.Keys);
    assert own in multiset(order);
    assert own in order;
  }

  lemma AnyOrderIsSum<S(!new), P(!new)>(g: Scheme<S, P>, t: Table<S, P>, order: seq<Address>)
    requires Lawful(g) && Enumerates(order, t)
    ensures IsSum(g, t, SecretSum(g, t, order))
  {
    forall other | Enumerates(other, t) ensures SecretSum(g, t, order) == SecretSum(g, t, other) {
      SumsIgnoreOrder(g, t, VectorsOf(t), order, other, 0);
    }
  }

  lemma AnyOrderIsGroupKey<S(!new), P(!new)>(g: Scheme<S, P>, t: Table<S, P>, order: seq<Address>)
    requires Lawful(g) && Enumerates(order, t) && Picked(order, VectorsOf(t)) != []
    ensures IsGroupKey(g, t, Slot(g.publics, Column(Picked(order, VectorsOf(t)), 0)))
  {
    var vectors := Picked(order, VectorsOf(t));
    forall other, n: nat | Enumerates(other, t) && Even(t, n)
      ensures Slot(g.publics, Column(vectors, 0)) == Some(VectorSum(g, VectorsOf(t), other, n)[0])
    {
      SumsIgnoreOrder(g, t, VectorsOf(t), order, other, n);
      EnumeratesKeys(order, t);
      forall i | 0 <= i < |order| ensures order[i] in VectorsOf(t) {}
      PickedAt(order, VectorsOf(t));
      var o := order[0];
      assert vectors[0] == t[o].vector;
      assert Column(vectors, 0)[0] == vectors[0][0];
      SlotIsSum(g.publics, Column(vectors, 0));
    }
  }

  // ----- Whole runs, for all ids of a node -----

  function MessagesTo<S, P>(cs: seq<DkgShare<S, P>>, d: Address): seq<DkgShare<S, P>>
    decreases |cs|
  {
    if cs == [] then [] else (if cs[0].to == d then [cs[0]] else []) + MessagesTo(cs[1..], d)
  }

  /** The group key that the vectors make, whatever the order of the members. */
  ghost predicate KeyOf<S, P>(g: Scheme<S, P>, vectors: map<Address, seq<P>>, n: nat, key: Option<P>) {
    n > 0 && forall order :: Enumerates(order, vectors) ==> key == Some(VectorSum(g, vectors, order, n)[0])
  }

  /** Each source has one vector of length n, everything received came with it, and once any id of the
      node is complete the group key is the key of the vectors. */
  ghost predicate OneVectorEach<S(!new), P(!new)>(node: Consensus<S, P>, vectors: map<Address, seq<P>>, n: nat)
    reads node
  {
    && n > 0 && (forall o :: o in vectors ==> |vectors[o]| == n)
    && (forall d :: d in node.members ==> node.members[d].Keys == vectors.Keys && From(node.members[d], vectors))
    && forall d :: d in node.members && Completed(node.members[d]) ==> KeyOf(node.g, vectors, n, node.groupKey)
  }

  lemma KeyOfTable<S(!new), P(!new)>(g: Scheme<S, P>, t: Table<S, P>, vectors: map<Address, seq<P>>, n: nat, key: Option<P>)
    requires n > 0 && (forall o :: o in vectors ==> |vectors[o]| == n) && t.Keys == vectors.Keys
    requires From(t, vectors) && Completed(t) && IsGroupKey(g, t, key)
    ensures KeyOf(g, vectors, n, key)
  {
    forall order | Enumerates(order, vectors) ensures key == Some(VectorSum(g, vectors, order, n)[0]) {
      KeyInOrder(g, t, vectors, n, key, order);
    }
  }

  lemma KeyInOrder<S(!new), P(!new)>(g: Scheme<S, P>, t: Table<S, P>, vectors: map<Address, seq<P>>, n: nat, key: Option<P>, order: seq<Address>)
    requires n > 0 && (forall o :: o in vectors ==> |vectors[o]| == n) && t.Keys == vectors.Keys
    requires From(t, vectors) && Completed(t) && IsGroupKey(g, t, key) && Enumerates(order, vectors)
    ensures key == Some(VectorSum(g, vectors, order, n)[0])
  {
    CompleteVectors(t, vectors, n, order);
    assert Even(t, n);
  }

  /** One message in a run in which each source uses one vector. */
  method Deliver<S(==,!new), P(==,!new)>(node: Consensus<S, P>, c: DkgShare<S, P>, ghost vectors: map<Address, seq<P>>, ghost n: nat)
    requires node.Valid() && Lawful(node.g)
    modifies node
    ensures node.Valid() && node.members.Keys == old(node.members).Keys
    ensures forall d :: d in node.members ==>
              node.members[d] == ReceiveAll(node.g, d, old(node.members)[d], if c.to == d then [c] else [])
    ensures old(OneVectorEach(node, vectors, n)) && SentWith([c], vectors) ==> OneVectorEach(node, vectors, n)
  {
    ghost var before := node.members;
    var r := node.VerifyDkgContribution(c);
    forall d | d in node.members
      ensures node.members[d] == ReceiveAll(node.g, d, before[d], if c.to == d then [c] else [])
    {
      assert [c][1..] == [];
    }
    if old(OneVectorEach(node, vectors, n)) && SentWith([c], vectors) {
      DeliveredKeeps(node, c, vectors, n, before, old(node.groupKey));
    }
  }

  lemma DeliveredKeeps<S(!new), P(!new)>(node: Consensus<S, P>, c: DkgShare<S, P>, vectors: map<Address, seq<P>>, n: nat,
                                               before: map<Address, Table<S, P>>, key: Option<P>)
    requires n > 0 && (forall o :: o in vectors ==> |vectors[o]| == n) && SentWith([c], vectors)
    requires node.members.Keys == before.Keys
    requires forall d :: d in before ==> d in before[d] && before[d].Keys == vectors.Keys && From(before[d], vectors)
    requires forall d :: d in before && Completed(before[d]) ==> KeyOf(node.g, vectors, n, key)
    requires forall d :: d in before ==>
               node.members[d] == if d == c.to && c.source in before[d] then Receive(node.g, d, before[d], c) else before[d]
    requires c.to in before && c.source in before[c.to] && !Completed(before[c.to]) && Completed(node.members[c.to]) ==>
               IsGroupKey(node.g, node.members[c.to], node.groupKey)
    requires !(c.to in before && c.source in before[c.to] && !Completed(before[c.to]) && Completed(node.members[c.to])) ==>
               node.groupKey == key
    ensures OneVectorEach(node, vectors, n)
  {
    forall d | d in node.members
      ensures d in node.members[d] && node.members[d].Keys == vectors.Keys && From(node.members[d], vectors)
    {
      if c.source in before[d] { ReceivedFrom(node.g, d, before[d], c, vectors); }
    }
    if c.to in before && c.source in before[c.to] && !Completed(before[c.to]) && Completed(node.members[c.to]) {
      KeyOfTable(node.g, node.members[c.to], vectors, n, node.groupKey);
    } else {
      forall d | d in node.members && Completed(node.members[d]) ensures KeyOf(node.g, vectors, n, node.groupKey) {
        assert d in before && Completed(before[d]);
      }
    }
  }

  lemma ReceivedFrom<S(!new), P(!new)>(g: Scheme<S, P>, d: Address, t: Table<S, P>, c: DkgShare<S, P>, vectors: map<Address, seq<P>>)
    requires t.Keys == vectors.Keys && From(t, vectors) && SentWith([c], vectors) && c.source in t && d in t
    ensures Receive(g, d, t, c).Keys == vectors.Keys && From(Receive(g, d, t, c), vectors)
  {
    assert [c][0] == c;
  }

  lemma {:induction false} ReceiveAllJoin<S, P>(g: Scheme<S, P>, own: Address, t: Table<S, P>, u: seq<DkgShare<S, P>>, v: seq<DkgShare<S, P>>)
    requires own in t
    ensures ReceiveAll(g, own, t, u + v) == ReceiveAll(g, own, ReceiveAll(g, own, t, u), v)
    decreases |u|
  {
    if u == [] {
      assert u + v == v;
    } else {
      assert (u + v)[1..] == u[1..] + v;
      ReceiveAllJoin(g, own, if u[0].source in t then Receive(g, own, t, u[0]) else t, u[1..], v);
    }
  }

  lemma {:induction false} MessagesJoin<S, P>(cs: seq<DkgShare<S, P>>, c: DkgShare<S, P>, d: Address)
    ensures MessagesTo(cs + [c], d) == MessagesTo(cs, d) + if c.to == d then [c] else []
    decreases |cs|
  {
    var last := if c.to == d then [c] else [];
    if cs == [] {
      assert cs + [c] == [c] && [c][1..] == [];
      assert MessagesTo([c], d) == last + MessagesTo([], d) == last;
    } else {
      var first, rest := if cs[0].to == d then [cs[0]] else [], cs[1..];
      MessagesJoin(rest, c, d);
      assert (cs + [c])[0] == cs[0] && (cs + [c])[1..] == rest + [c];
      assert MessagesTo(cs + [c], d) == first + MessagesTo(rest + [c], d);
      assert first + (MessagesTo(rest, d) + last) == first + MessagesTo(rest, d) + last;
    }
  }

  /** Any messages, to any ids, in the order of their arrival. For every id of the node the table is the
      one of the run of its own messages, and once it is complete the secret key is the sum of its
      shares. If each source uses one vector of one length, the group key is the key of the vectors as
      soon as any id is complete, however the messages are interleaved. */
  method DeliverAll<S(==,!new), P(==,!new)>(node: Consensus<S, P>, cs: seq<DkgShare<S, P>>, ghost vectors: map<Address, seq<P>>, ghost n: nat)
    requires node.Valid() && Lawful(node.g)
    modifies node
    ensures node.Valid() && node.members.Keys == old(node.members).Keys
    ensures forall d :: d in node.members ==>
              && node.members[d] == ReceiveAll(node.g, d, old(node.members)[d], MessagesTo(cs, d))
              && (Completed(node.members[d]) ==> d in node.secretKeys && IsSum(node.g, node.members[d], node.secretKeys[d]))
    ensures old(OneVectorEach(node, vectors, n)) && SentWith(cs, vectors) ==>
              forall d :: d in node.members && Completed(node.members[d]) ==> KeyOf(node.g, vectors, n, node.groupKey)
  {
    ghost var clear := OneVectorEach(node, vectors, n) && SentWith(cs, vectors);
    for i := 0 to |cs|
      invariant node.Valid() && node.members.Keys == old(node.members).Keys
      invariant forall d :: d in node.members ==>
                  node.members[d] == ReceiveAll(node.g, d, old(node.members)[d], MessagesTo(cs[..i], d))
      invariant clear ==> OneVectorEach(node, vectors, n)
    {
      ghost var before := node.members;
      assert cs[..i + 1] == cs[..i] + [cs[i]];
      assert clear ==> SentWith([cs[i]], vectors);
      Deliver(node, cs[i], vectors, n);
      forall d | d in node.members
        ensures node.members[d] == ReceiveAll(node.g, d, old(node.members)[d], MessagesTo(cs[..i + 1], d))
      {
        MessagesJoin(cs[..i], cs[i], d);
        ReceiveAllJoin(node.g, d, old(node.members)[d], MessagesTo(cs[..i], d), if cs[i].to == d then [cs[i]] else []);
      }
    }
    assert cs[..|cs|] == cs;
  }

  /** A complete id of a node: its secret key fits the summed vector at its own id, and if everybody is
      honest the group key is the public key of the sum of all first secrets. */
  lemma CompletedId<S(!new), P(!new)>(node: Consensus<S, P>, secrets: map<Address, seq<S>>, vectors: map<Address, seq<P>>,
                                      firsts: map<Address, S>, order: seq<Address>, n: nat, d: Address)
    requires node.Valid() && Lawful(node.g) && OneVectorEach(node, vectors, n) && Enumerates(order, secrets)
    requires vectors.Keys == secrets.Keys == firsts.Keys && d in node.members && Completed(node.members[d])
    requires forall o :: o in secrets ==>
               secrets[o] != [] && vectors[o] == PublicKeys(node.g, secrets[o]) && firsts[o] == secrets[o][0]
    ensures d in node.members[d] && d in node.secretKeys
    ensures Verifies(node.g, node.members[d][d].id, node.secretKeys[d], VectorSum(node.g, vectors, order, n))
    ensures node.groupKey == Some(node.g.pub(Sum(node.g.secrets, Picked(order, firsts))))
  {
    var t := node.members[d];
    CompleteVectors(t, vectors, n, order);
    CompletedSecretFits(node.g, d, t, order, n);
    GroupKeyOfSecrets(node.g, secrets, vectors, firsts, order, n);
    assert Enumerates(order, vectors);
  }

  /** A complete table has received all the vectors. */
  lemma CompleteVectors<S(!new), P(!new)>(t: Table<S, P>, vectors: map<Address, seq<P>>, n: nat, order: seq<Address>)
    requires t.Keys == vectors.Keys && From(t, vectors) && Completed(t) && Enumerates(order, vectors)
    requires forall o :: o in vectors ==> |vectors[o]| == n
    ensures Enumerates(order, t) && Picked(order, VectorsOf(t)) == Picked(order, vectors)
    ensures forall o :: o in t ==> |t[o].vector| == n
  {
    EnumeratesKeys(order, vectors);
    forall o | o in t ensures t[o].vector == vectors[o] { assert t[o].receivedShare.Some?; }
    forall i | 0 <= i < |order| ensures order[i] in t && order[i] in vectors && VectorsOf(t)[order[i]] == vectors[order[i]] {
      var o := order[i];
      assert o in t;
    }
    SamePicked(order, VectorsOf(t), vectors);
  }

  // ----- Starting a key generation -----

  function Local<S(!new), P(!new)>(cs: seq<DkgShare<S, P>>, own: set<Address>): (r: seq<DkgShare<S, P>>)
    ensures forall c :: c in r <==> c in cs && c.to in own
    decreases |cs|
  {
    if cs == [] then [] else (if cs[0].to in own then [cs[0]] else []) + Local(cs[1..], own)
  }

  function Away<S(!new), P(!new)>(cs: seq<DkgShare<S, P>>, own: set<Address>): (r: seq<DkgShare<S, P>>)
    ensures forall c :: c in r <==> c in cs && c.to !in own
    decreases |cs|
  {
    if cs == [] then [] else (if cs[0].to in own then [] else [cs[0]]) + Away(cs[1..], own)
  }

  lemma {:induction false} InMessagesTo<S, P>(cs: seq<DkgShare<S, P>>, d: Address, c: DkgShare<S, P>)
    ensures c in MessagesTo(cs, d) <==> c in cs && c.to == d
    decreases |cs|
  {
    if cs != [] { InMessagesTo(cs[1..], d, c); }
  }

  /** The ids d of the node hold the shares of these of its ids. */
  ghost predicate Exchanged<S(!new), P(!new)>(node: Consensus<S, P>, done: set<Address>)
    reads node
  {
    forall d, o :: d in node.members && o in done ==> o in node.members[d] && node.members[d][o].receivedShare.Some?
  }

  /** The messages are the contributions of these ids to the rest of the group. */
  ghost predicate IsToSend<S(!new), P(!new)>(g: Scheme<S, P>, ids: map<Address, int>, own: set<Address>, secrets: map<Address, seq<S>>,
                                             done: set<Address>, toSend: seq<DkgShare<S, P>>)
  {
    forall c :: c in toSend <==>
      && c.source in done && c.source in secrets && c.to in ids && c.to !in own
      && c == Contribution(g, c.source, secrets[c.source], c.to, ids[c.to])
  }

  lemma ToSendGrows<S(!new), P(!new)>(g: Scheme<S, P>, ids: map<Address, int>, own: set<Address>, secrets: map<Address, seq<S>>,
                                      done: set<Address>, toSend: seq<DkgShare<S, P>>, a: Address, away: seq<DkgShare<S, P>>)
    requires IsToSend(g, ids, own, secrets, done, toSend) && a in secrets
    requires forall c :: c in away <==> c.to in ids && c.to !in own && c == Contribution(g, a, secrets[a], c.to, ids[c.to])
    ensures IsToSend(g, ids, own, secrets, done + {a}, toSend + away)
  {
  }

  /** new_dkg: contributions of all ids of the node, to each other delivered at once, to the rest of the
      group returned. The random polynomials are a parameter. */
  method NewDkg<S(==,!new), P(==,!new)>(g: Scheme<S, P>, ids: map<Address, int>, own: set<Address>, secrets: map<Address, seq<S>>)
    returns (node: Consensus<S, P>, toSend: seq<DkgShare<S, P>>)
    requires Lawful(g) && own <= ids.Keys && own <= secrets.Keys && forall d :: d in own ==> secrets[d] != []
    ensures fresh(node) && node.Valid() && node.g == g && node.members.Keys == own
    ensures Exchanged(node, own) && IsToSend(g, ids, own, secrets, own, toSend)
  {
    node := new Consensus(g, ids, own);
    toSend := ContributeEach(node, ids, own, secrets);
  }

  /** The contributions of all ids of the node, one after the other. */
  method ContributeEach<S(==,!new), P(==,!new)>(node: Consensus<S, P>, ids: map<Address, int>, own: set<Address>, secrets: map<Address, seq<S>>)
    returns (toSend: seq<DkgShare<S, P>>)
    requires node.Valid() && Lawful(node.g) && SameGroup(node, ids, own)
    requires own <= secrets.Keys && forall d :: d in own ==> secrets[d] != []
    modifies node
    ensures node.Valid() && SameGroup(node, ids, own)
    ensures Exchanged(node, own) && IsToSend(node.g, ids, own, secrets, own, toSend)
  {
    toSend := [];
    var todo := own;
    ghost var done := {};
    while todo != {}
      invariant todo <= own && done + todo == own
      invariant node.Valid() && SameGroup(node, ids, own)
      invariant Exchanged(node, done) && IsToSend(node.g, ids, own, secrets, done, toSend)
    {
      SomeAddress(todo);
      var a :| a in todo;
      var away := Contribute(node, ids, own, a, secrets[a], done);
      ToSendGrows(node.g, ids, own, secrets, done, toSend, a, away);
      OneDone(own, todo, done, a);
      todo, done := todo - {a}, done + {a};
      toSend := toSend + away;
    }
    assert done == own;
  }

  lemma OneDone(own: set<Address>, todo: set<Address>, done: set<Address>, a: Address)
    requires done + todo == own && a in todo
    ensures done + {a} + (todo - {a}) == own
  {
  }

  /** Every id of the node has a table over the whole group. */
  ghost predicate SameGroup<S(!new), P(!new)>(node: Consensus<S, P>, ids: map<Address, int>, own: set<Address>)
    reads node
  {
    && node.members.Keys == own && own <= ids.Keys
    && forall d :: d in own ==> node.members[d].Keys == ids.Keys && node.members[d][d].id == ids[d]
  }

  /** The contributions of one id of the node. */
  method Contribute<S(==,!new), P(==,!new)>(node: Consensus<S, P>, ids: map<Address, int>, own: set<Address>, a: Address, secrets: seq<S>,
                                              ghost done: set<Address>)
    returns (away: seq<DkgShare<S, P>>)
    requires node.Valid() && Lawful(node.g) && SameGroup(node, ids, own) && Exchanged(node, done)
    requires a in own && secrets != []
    modifies node
    ensures node.Valid() && SameGroup(node, ids, own) && Exchanged(node, done + {a})
    ensures forall c :: c in away <==> c.to in ids && c.to !in own && c == Contribution(node.g, a, secrets, c.to, ids[c.to])
  {
    var order := InSomeOrder(ids.Keys);
    EnumeratesKeys(order, ids);
    var messages := Contributions(node.g, a, secrets, ids, order);
    AllContributions(node.g, a, secrets, ids, order, messages);
    away := Away(messages, own);
    var local := Local(messages, own);
    ghost var before: map<Address, Table<S, P>> := node.members;
    DeliverAll(node, local, map[], 0);
    forall d, o | d in own && o in done + {a} ensures o in node.members[d] && node.members[d][o].receivedShare.Some? {
      var mine := MessagesTo(local, d);
      if o == a {
        var c := Contribution(node.g, a, secrets, d, ids[d]);
        InMessagesTo(local, d, c);
        HonestVerifies(node.g, ids[d], secrets);
        var i :| 0 <= i < |mine| && mine[i] == c;
        assert mine[i].source == a && Accepts(node.g, d, before[d], mine[i]);
      }
      assert o in before[d];
      ReceivedIffValidSent(node.g, d, before[d], mine, o);
    }
  }

  lemma AllContributions<S(!new), P(!new)>(g: Scheme<S, P>, a: Address, secrets: seq<S>, ids: map<Address, int>, order: seq<Address>, messages: seq<DkgShare<S, P>>)
    requires Enumerates(order, ids) && forall i :: 0 <= i < |order| ==> order[i] in ids
    requires |messages| == |order| && forall i :: 0 <= i < |order| ==> messages[i] == Contribution(g, a, secrets, order[i], ids[order[i]])
    ensures forall c :: c in messages <==> c.to in ids && c == Contribution(g, a, secrets, c.to, ids[c.to])
  {
    forall c ensures c in messages <==> c.to in ids && c == Contribution(g, a, secrets, c.to, ids[c.to]) {
      if c.to in ids && c == Contribution(g, a, secrets, c.to, ids[c.to]) {
        assert c.to in multiset(ids.Keys);
        assert c.to in multiset(order);
        var i :| 0 <= i < |order| && order[i] == c.to;
        assert messages[i] == c;
      }
    }
  }
}
