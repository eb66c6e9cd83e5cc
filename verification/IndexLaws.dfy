/** The index answers with the current holder of every address, as long as no written prefix covers
    an older, longer entry that says otherwise. */
module IndexLaws {
  import opened Networks
  import opened Ledger
  import opened Options
  import opened LedgerLaws
  import opened Effects
  import opened PrefixIndex

  ghost predicate DelegatedTo(l: Ledger, a: Address, b: Address, ip: Ip) {
    b in Delegated(l, a) && ip in Delegated(l, a)[b]
  }

  ghost predicate Lent(l: Ledger, a: Address, ip: Ip) { exists b :: DelegatedTo(l, a, b, ip) }

  ghost predicate HoldsFrom(l: Ledger, a: Address, h: Address, ip: Ip) {
    ip in Own(l, a) && (DelegatedTo(l, a, h, ip) || (h == a && !Lent(l, a, ip)))
  }

  /** h is the delegatee of the address if it is delegated, else its owner. */
  ghost predicate Holds(l: Ledger, h: Address, ip: Ip) { exists a :: HoldsFrom(l, a, h, ip) }

  ghost predicate Agrees(l: Ledger, index: Index) {
    forall ip, h :: Find(index, ip) == Some(h) <==> Holds(l, h, ip)
  }

  // ----- Who holds what after a transaction -----

  lemma OwnAfter(l: Ledger, tx: Tx, a: Address, ip: Ip)
    requires OwnersDisjoint(l) && Apply(l, tx).Applied? && Moves(tx) && ToOther(tx)
    ensures ip in Own(Apply(l, tx).ledger, a) <==>
            if tx.category == 0 && tx.net.Contains(ip) then Some(a) == tx.to else ip in Own(l, a)
  {
    AfterApply(l, tx, a);
    assert a != tx.sender.value ==> Own(l, a) !! Own(l, tx.sender.value);
  }

  lemma DelegatedAfter(l: Ledger, tx: Tx, a: Address, b: Address, ip: Ip)
    requires DelegatesOwn(l, a) && Apply(l, tx).Applied? && Moves(tx) && ToOther(tx)
    ensures DelegatedTo(Apply(l, tx).ledger, a, b, ip) <==>
            if Some(a) == tx.sender && tx.net.Contains(ip) then tx.category == 1 && Some(b) == tx.to
            else DelegatedTo(l, a, b, ip)
  {
    AfterApply(l, tx, a);
    if Some(a) == tx.sender {
      SharesLeft(At(l, a).balance, Members(tx.net), b);
    } else {
      EffectOnOthers(tx, tx.sender.value, tx.to.value, Revoked(l, tx), a, At(l, a).balance);
    }
  }

  lemma LentAfter(l: Ledger, tx: Tx, a: Address, ip: Ip)
    requires DelegatesOwn(l, a) && Apply(l, tx).Applied? && Moves(tx) && ToOther(tx)
    ensures Lent(Apply(l, tx).ledger, a, ip) <==>
            if Some(a) == tx.sender && tx.net.Contains(ip) then tx.category == 1 else Lent(l, a, ip)
  {
    forall b { DelegatedAfter(l, tx, a, b, ip); }
    if Some(a) == tx.sender && tx.net.Contains(ip) && tx.category == 1 {
      assert DelegatedTo(Apply(l, tx).ledger, a, tx.to.value, ip);
    }
  }

  lemma HoldsFromAfter(l: Ledger, tx: Tx, a: Address, h: Address, ip: Ip)
    requires Consistent(l) && Apply(l, tx).Applied? && Moves(tx) && ToOther(tx)
    ensures HoldsFrom(Apply(l, tx).ledger, a, h, ip) <==>
            if tx.net.Contains(ip) then Some(h) == tx.to && Some(a) == (if tx.category == 0 then tx.to else tx.sender)
            else HoldsFrom(l, a, h, ip)
  {
    assert DelegatesOwn(l, a);
    OwnAfter(l, tx, a, ip);
    DelegatedAfter(l, tx, a, h, ip);
    LentAfter(l, tx, a, ip);
    if tx.net.Contains(ip) {
      assert ip in Own(l, tx.sender.value);
      assert a != tx.sender.value ==> Own(l, a) !! Own(l, tx.sender.value);
      if Lent(l, a, ip) { var b :| DelegatedTo(l, a, b, ip); assert ip in Own(l, a); }
      assert DelegatedTo(l, a, h, ip) ==> ip in Own(l, a);
    }
  }

  /** An allocation or delegation makes its recipient the holder of its network, and of nothing else. */
  lemma HoldsAfter(l: Ledger, tx: Tx, h: Address, ip: Ip)
    requires Consistent(l) && Apply(l, tx).Applied? && ToOther(tx)
    ensures Holds(Apply(l, tx).ledger, h, ip) <==> if Moves(tx) && tx.net.Contains(ip) then Some(h) == tx.to else Holds(l, h, ip)
  {
    var l' := Apply(l, tx).ledger;
    if Moves(tx) {
      forall a { HoldsFromAfter(l, tx, a, h, ip); }
      if tx.net.Contains(ip) && Some(h) == tx.to {
        assert HoldsFrom(l', if tx.category == 0 then h else tx.sender.value, h, ip);
      }
      if Holds(l, h, ip) && !tx.net.Contains(ip) {
        var a :| HoldsFrom(l, a, h, ip);
        assert HoldsFrom(l', a, h, ip);
      }
    } else {
      forall a ensures HoldsFrom(l', a, h, ip) <==> HoldsFrom(l, a, h, ip) {
        AfterApply(l, tx, a);
        forall b ensures DelegatedTo(l', a, b, ip) <==> DelegatedTo(l, a, b, ip) {}
      }
    }
  }

  // ----- Agreement -----

  /** An entry inside the network answers for some address, with another account. */
  ghost predicate Shields(index: Index, net: Net, to: Address, n: Net) {
    n in index && Inside(n, net) && index[n] != to && exists ip :: Best(index, ip, n)
  }

  /** A write keeps the agreement exactly if no longer entry inside it answers otherwise. */
  lemma WriteKeepsAgreement(l: Ledger, tx: Tx, index: Index)
    requires Consistent(l) && Apply(l, tx).Applied? && Moves(tx) && ToOther(tx) && Agrees(l, index)
    ensures Agrees(Apply(l, tx).ledger, index[tx.net := tx.to.value]) <==>
            forall n :: !Shields(index, tx.net, tx.to.value, n)
  {
    var l', to := Apply(l, tx).ledger, tx.to.value;
    var written := index[tx.net := to];
    if forall n :: !Shields(index, tx.net, to, n) {
      forall ip, h ensures Find(written, ip) == Some(h) <==> Holds(l', h, ip) {
        HoldsAfter(l, tx, h, ip);
        FindAfterWrite(index, tx.net, to, ip);
        if n :| tx.net.Contains(ip) && n in index && Inside(n, tx.net) && n.Contains(ip) {
          BestInside(index, tx.net, n, ip);
          var best :| Best(index, ip, best) && Inside(best, tx.net);
          assert !Shields(index, tx.net, to, best);
          FindMeans(index, ip, to);
        }
      }
    } else {
      var n :| Shields(index, tx.net, to, n);
      var ip :| Best(index, ip, n);
      assert tx.net.Contains(ip);
      FindMeans(index, ip, index[n]);
      FindAfterWrite(index, tx.net, to, ip);
      HoldsAfter(l, tx, index[n], ip);
      assert Find(written, ip) == Some(index[n]) && !Holds(l', index[n], ip);
    }
  }

  lemma BestInside(index: Index, net: Net, n: Net, ip: Ip)
    requires net.Contains(ip) && n in index && Inside(n, net) && n.Contains(ip)
    ensures exists best :: Best(index, ip, best) && Inside(best, net)
  {
    FindMeans(index, ip, NULL_ADDRESS);
    assert Find(index, ip).Some?;
    FindMeans(index, ip, Find(index, ip).value);
    var best :| Best(index, ip, best);
    NestedAround(best, net, ip);
  }

  // ----- Runs -----

  /** No write of the run is shielded when it happens. */
  ghost predicate Unshielded(index: Index, txs: seq<Tx>)
    decreases |txs|
  {
    txs == [] || (
      && (Moves(txs[0]) && txs[0].to.Some? ==> forall n :: !Shields(index, txs[0].net, txs[0].to.value, n))
      && Unshielded(Remember(index, txs[0]), txs[1..]))
  }

  lemma {:induction false} RunKeepsAgreement(l: Ledger, txs: seq<Tx>, r: Ledger, index: Index)
    requires Consistent(l) && Agrees(l, index) && ApplyAll(l, txs) == Complete(r)
    requires (forall tx :: tx in txs ==> ToOther(tx)) && Unshielded(index, txs)
    ensures Agrees(r, WriteAll(index, txs)) && Agrees(r, index + WriteAll(map[], txs))
    decreases |txs|
  {
    DeferredWrites(index, map[], txs);
    assert index + map[] == index;
    if txs != [] {
      var tx, l' := txs[0], Apply(l, txs[0]).ledger;
      ApplyKeepsLedger(l, tx);
      if Moves(tx) {
        WriteKeepsAgreement(l, tx, index);
      } else {
        forall ip, h ensures Find(index, ip) == Some(h) <==> Holds(l', h, ip) { HoldsAfter(l, tx, h, ip); }
      }
      RunKeepsAgreement(l', txs[1..], r, Remember(index, tx));
      DeferredWrites(Remember(index, tx), map[], txs[1..]);
    }
  }

  /** A genesis declaration names the networks of each account. */
  type Declaration = map<Address, set<Net>>

  function Declared(decl: Declaration): map<Address, set<Ip>> {
    map a | a in decl :: (set net, ip | net in decl[a] && ip in Members(net) :: ip)
  }

  ghost predicate DeclaredFor(decl: Declaration, a: Address, ip: Ip) {
    a in decl && exists net :: net in decl[a] && net.Contains(ip)
  }

  /** The entries are the declared networks, each for an account that declares it. */
  ghost predicate Indexes(index: Index, decl: Declaration) {
    && (forall net :: net in index ==> index[net] in decl && net in decl[index[net]])
    && forall a, net :: a in decl && net in decl[a] ==> net in index
  }

  /** No address is declared for two accounts. */
  ghost predicate DeclaredOnce(decl: Declaration) {
    forall a, b, ip :: DeclaredFor(decl, a, ip) && DeclaredFor(decl, b, ip) ==> a == b
  }

  lemma DeclaredHolds(decl: Declaration, h: Address, ip: Ip)
    ensures Holds(Genesis(Declared(decl)), h, ip) <==> DeclaredFor(decl, h, ip)
  {
    var l := Genesis(Declared(decl));
    forall a ensures !Lent(l, a, ip) && forall b :: !DelegatedTo(l, a, b, ip) {}
    if DeclaredFor(decl, h, ip) {
      var net :| net in decl[h] && net.Contains(ip);
      assert ip in Members(net);
      assert HoldsFrom(l, h, h, ip);
    }
    if Holds(l, h, ip) {
      var a :| HoldsFrom(l, a, h, ip);
      assert ip in Declared(decl)[h];
    }
  }

  /** The first index agrees with the first ledger exactly if no address is declared for two accounts. */
  lemma GenesisAgrees(decl: Declaration, index: Index)
    requires Indexes(index, decl)
    ensures Agrees(Genesis(Declared(decl)), index) <==> DeclaredOnce(decl)
  {
    var l := Genesis(Declared(decl));
    if a, b, ip :| DeclaredFor(decl, a, ip) && DeclaredFor(decl, b, ip) && a != b {
      DeclaredHolds(decl, a, ip);
      DeclaredHolds(decl, b, ip);
      assert Holds(l, a, ip) && Holds(l, b, ip);
    } else {
      forall ip, h ensures Find(index, ip) == Some(h) <==> Holds(l, h, ip) { FirstHolder(decl, index, ip, h); }
    }
  }

  lemma FirstHolder(decl: Declaration, index: Index, ip: Ip, h: Address)
    requires Indexes(index, decl) && DeclaredOnce(decl)
    ensures Find(index, ip) == Some(h) <==> Holds(Genesis(Declared(decl)), h, ip)
  {
    DeclaredHolds(decl, h, ip);
    FindMeans(index, ip, h);
    if Find(index, ip) == Some(h) {
      var net :| Best(index, ip, net) && index[net] == h;
      assert net in decl[h];
    }
    if DeclaredFor(decl, h, ip) {
      var net :| net in decl[h] && net.Contains(ip);
      assert net in index;
      var found := Find(index, ip).value;
      FindMeans(index, ip, found);
      var best :| Best(index, ip, best) && index[best] == found;
      assert best in decl[found] && DeclaredFor(decl, found, ip);
    }
  }

  lemma DeclaredDisjoint(decl: Declaration)
    requires DeclaredOnce(decl)
    ensures Consistent(Genesis(Declared(decl)))
  {
    var alloc := Declared(decl);
    forall a, b | a in alloc && b in alloc && a != b ensures alloc[a] !! alloc[b] {
      forall ip ensures !(ip in alloc[a] && ip in alloc[b]) {
        if ip in alloc[a] && ip in alloc[b] {
          assert DeclaredFor(decl, a, ip) && DeclaredFor(decl, b, ip);
          assert false;
        }
      }
    }
    GenesisConsistent(alloc);
  }

  /** From a declaration of each address for one account on, the index names the holder of every
      address after every run whose writes are not shielded. */
  lemma IndexNamesHolders(decl: Declaration, index: Index, txs: seq<Tx>, r: Ledger)
    requires Indexes(index, decl) && DeclaredOnce(decl)
    requires ApplyAll(Genesis(Declared(decl)), txs) == Complete(r)
    requires (forall tx :: tx in txs ==> ToOther(tx)) && Unshielded(index, txs)
    ensures Agrees(r, WriteAll(index, txs)) && Agrees(r, index + WriteAll(map[], txs))
  {
    GenesisAgrees(decl, index);
    DeclaredDisjoint(decl);
    RunKeepsAgreement(Genesis(Declared(decl)), txs, r, index);
  }

  /** A delegation of a part stays in the index when the whole is delegated to somebody else. */
  lemma StaleDelegation(l: Ledger, x: Tx, y: Tx, index: Index)
    requires Consistent(l) && Agrees(l, index) && ToOther(x) && ToOther(y) && Moves(x) && Moves(y)
    requires Inside(x.net, y.net) && x.to != y.to && forall n :: n in index ==> !Inside(n, x.net)
    requires Apply(l, x).Applied? && Apply(Apply(l, x).ledger, y).Applied?
    ensures Agrees(Apply(l, x).ledger, Remember(index, x))
    ensures !Agrees(Apply(Apply(l, x).ledger, y).ledger, Remember(Remember(index, x), y))
  {
    var l', written := Apply(l, x).ledger, Remember(index, x);
    ApplyKeepsLedger(l, x);
    WriteKeepsAgreement(l, x, index);
    WriteKeepsAgreement(l', y, written);
    var ip :| ip in Members(x.net);
    forall other | other in written && other.Contains(ip) ensures |other.bits| <= |x.net.bits| {
      if |other.bits| > |x.net.bits| { NestedAround(other, x.net, ip); }
    }
    assert Best(written, ip, x.net);
    assert Shields(written, y.net, y.to.value, x.net);
  }

  function Delegation(a: Address, nonce: nat, net: Net, to: Address): Tx { Tx(Some(a), nonce, 1, Some(to), net, [], [], 0) }

  lemma DelegationApplies(l: Ledger, a: Address, net: Net, to: Address)
    requires Consistent(l) && Members(net) <= Own(l, a) && a != NULL_ADDRESS && to != a
    ensures var r := Apply(l, Delegation(a, At(l, a).nonce, net, to));
      r.Applied? && Consistent(r.ledger) && Own(r.ledger, a) == Own(l, a) && At(r.ledger, a).nonce == At(l, a).nonce + 1
  {
    var tx := Delegation(a, At(l, a).nonce, net, to);
    ValidApplies(l, tx);
    ApplyKeepsLedger(l, tx);
    AfterApply(l, tx, a);
  }

  lemma TwoApply(l: Ledger, x: Tx, y: Tx)
    requires Apply(l, x).Applied? && Apply(Apply(l, x).ledger, y).Applied?
    ensures ApplyAll(l, [x, y]) == Complete(Apply(Apply(l, x).ledger, y).ledger)
  {
    ApplyAllStep(l, x, [y]);
    ApplyAllStep(Apply(l, x).ledger, y, []);
    assert [x] + [y] == [x, y] && [y] + [] == [y];
  }

  /** An account that delegates a part to one account and then the whole to another makes the index
      wrong, whatever came before. */
  lemma StaleRun(l: Ledger, index: Index, a: Address, part: Net, b: Address, whole: Net, c: Address)
    requires Consistent(l) && Agrees(l, index) && Members(whole) <= Own(l, a) && Inside(part, whole)
    requires a != NULL_ADDRESS && b != a && c != a && b != c && forall n :: n in index ==> !Inside(n, part)
    ensures var n := At(l, a).nonce; var txs := [Delegation(a, n, part, b), Delegation(a, n + 1, whole, c)];
      ApplyAll(l, txs).Complete? && !Agrees(ApplyAll(l, txs).ledger, WriteAll(index, txs))
  {
    var n := At(l, a).nonce;
    var x, y := Delegation(a, n, part, b), Delegation(a, n + 1, whole, c);
    forall ip | ip in Members(part) ensures ip in Members(whole) {}
    DelegationApplies(l, a, part, b);
    DelegationApplies(Apply(l, x).ledger, a, whole, c);
    TwoApply(l, x, y);
    StaleDelegation(l, x, y, index);
    TwoWrites(index, x, y);
  }

  lemma TwoWrites(index: Index, x: Tx, y: Tx)
    ensures WriteAll(index, [x, y]) == Remember(Remember(index, x), y)
  {
    assert [x] + [y] == [x, y] && [] + [x] == [x];
    WriteAllThen(index, [x], y);
    WriteAllThen(index, [], x);
  }

  /** For example right after genesis, for the owner of two addresses. */
  lemma StaleEntryFromGenesis()
    ensures var decl: Declaration, index: Index := map[1 := {Net([], 1)}], map[Net([], 1) := 1];
      var txs := [Delegation(1, 0, Net([true], 0), 2), Delegation(1, 1, Net([], 1), 3)];
      var l := Genesis(Declared(decl));
      && Indexes(index, decl) && Agrees(l, index)
      && ApplyAll(l, txs).Complete? && !Agrees(ApplyAll(l, txs).ledger, WriteAll(index, txs))
  {
    var decl: Declaration, index: Index := map[1 := {Net([], 1)}], map[Net([], 1) := 1];
    GenesisAgrees(decl, index);
    DeclaredDisjoint(decl);
    OwnsDeclared(decl, 1, Net([], 1));
    StaleRun(Genesis(Declared(decl)), index, 1, Net([true], 0), 2, Net([], 1), 3);
  }

  lemma OwnsDeclared(decl: Declaration, a: Address, net: Net)
    requires a in decl && net in decl[a]
    ensures Members(net) <= Own(Genesis(Declared(decl)), a)
  {
  }
}
