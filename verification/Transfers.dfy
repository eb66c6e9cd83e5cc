/** Which transactions are taken, and what each kind of them does, in terms of nonces, ownership and
    addresses: what an owner of addresses can rely on. */
module Transfers {
  import opened Networks
  import opened Ledger
  import opened Options
  import opened LedgerLaws
  import opened Effects
  import opened IndexLaws

  /** Signed by an account that is not the null address (twenty bytes 0xff), at its current nonce. */
  ghost predicate Current(l: Ledger, tx: Tx) {
    && tx.sender.Some? && tx.sender.value != 0xffff_ffff_ffff_ffff_ffff_ffff_ffff_ffff_ffff_ffff
    && tx.nonce == At(l, tx.sender.value).nonce
  }

  ghost predicate OwnsNetwork(l: Ledger, a: Address, net: Net) { forall ip: Ip :: net.Contains(ip) ==> ip in Own(l, a) }

  lemma OwnsMembers(l: Ledger, a: Address, net: Net)
    ensures OwnsNetwork(l, a, net) <==> Members(net) <= Own(l, a)
  {
  }

  // ----- What is taken -----

  /** Validation passes exactly the current transactions of the four kinds, the first two from an owner. */
  lemma TakenExactly(l: Ledger, tx: Tx)
    ensures Validate(l, tx) == None <==>
            && Current(l, tx) && tx.category in {0, 1, 2, 3}
            && (tx.category in {0, 1} ==> OwnsNetwork(l, tx.sender.value, tx.net))
  {
    if tx.sender.Some? { OwnsMembers(l, tx.sender.value, tx.net); }
  }

  /** Which error a transaction is turned down with: the first that applies. */
  lemma TurnedDownFor(l: Ledger, tx: Tx)
    ensures Validate(l, tx) == Some(UnsignedTransaction) <==>
            tx.sender in {None, Some(0xffff_ffff_ffff_ffff_ffff_ffff_ffff_ffff_ffff_ffff)}
    ensures Validate(l, tx) == Some(InvalidNonce) <==>
            && tx.sender !in {None, Some(0xffff_ffff_ffff_ffff_ffff_ffff_ffff_ffff_ffff_ffff)}
            && tx.nonce != At(l, tx.sender.value).nonce
    ensures Validate(l, tx) == Some(InvalidCategory) <==> Current(l, tx) && tx.category !in {0, 1, 2, 3}
    ensures Validate(l, tx) == Some(InsufficientBalance) <==>
            Current(l, tx) && tx.category in {0, 1} && !OwnsNetwork(l, tx.sender.value, tx.net)
  {
    if tx.sender.Some? { OwnsMembers(l, tx.sender.value, tx.net); }
  }

  /** In a consistent ledger a transaction applies exactly if it is current and is an allocation or a
      delegation to somebody by an owner, a map server update, or a locator update without a zero. */
  lemma AppliesExactly(l: Ledger, tx: Tx)
    requires Consistent(l)
    ensures Apply(l, tx).Applied? <==>
            && Current(l, tx)
            && (|| (tx.category in {0, 1} && tx.to.Some? && OwnsNetwork(l, tx.sender.value, tx.net))
                || tx.category == 2
                || (tx.category == 3 && forall r :: r in tx.locators ==> r.weights.priority != 0 && r.weights.weight != 0))
  {
    TakenExactly(l, tx);
    if Validate(l, tx) == None { ValidApplies(l, tx); }
    assert tx.category == 3 ==> (HasZeroField(tx) <==> exists r :: r in tx.locators && Unreadable(r.weights));
  }

  // ----- What each kind does -----

  /** Nonces after a transaction of s. */
  ghost predicate OneSent(l: Ledger, r: Ledger, s: Address) {
    forall a :: At(r, a).nonce == At(l, a).nonce + if a == s then 1 else 0
  }

  ghost predicate SameSettings(l: Ledger, r: Ledger, a: Address) {
    At(r, a).balance.mapServers == At(l, a).balance.mapServers && At(r, a).balance.locators == At(l, a).balance.locators
  }

  ghost predicate SameShares(l: Ledger, r: Ledger, a: Address) {
    Own(r, a) == Own(l, a) && Delegated(r, a) == Delegated(l, a) && Received(r, a) == Received(l, a)
  }

  /** An owner can always allocate to another account, which then owns the network; whatever was
      delegated of it is taken back, and all else stays. */
  lemma AllocationMoves(l: Ledger, tx: Tx, to: Address)
    requires Consistent(l) && Current(l, tx) && tx.category == 0 && tx.to == Some(to) && tx.sender != Some(to)
    requires OwnsNetwork(l, tx.sender.value, tx.net)
    ensures Apply(l, tx).Applied?
    ensures var r, s := Apply(l, tx).ledger, tx.sender.value;
      && Consistent(r) && OneSent(l, r, s) && (forall a :: SameSettings(l, r, a))
      && (forall a, ip :: ip in Own(r, a) <==> if tx.net.Contains(ip) then a == to else ip in Own(l, a))
      && (forall a, b, ip :: DelegatedTo(r, a, b, ip) <==> DelegatedTo(l, a, b, ip) && !(a == s && tx.net.Contains(ip)))
  {
    Moved(l, tx, to);
  }

  /** An owner can always delegate to another account, which then has the network as its share, and
      nobody else a part of it. The owner stays the owner. */
  lemma DelegationLends(l: Ledger, tx: Tx, to: Address)
    requires Consistent(l) && Current(l, tx) && tx.category == 1 && tx.to == Some(to) && tx.sender != Some(to)
    requires OwnsNetwork(l, tx.sender.value, tx.net)
    ensures Apply(l, tx).Applied?
    ensures var r, s := Apply(l, tx).ledger, tx.sender.value;
      && Consistent(r) && OneSent(l, r, s) && (forall a :: SameSettings(l, r, a))
      && (forall a, ip :: ip in Own(r, a) <==> ip in Own(l, a))
      && (forall a, b, ip :: DelegatedTo(r, a, b, ip) <==>
            if a == s && tx.net.Contains(ip) then b == to else DelegatedTo(l, a, b, ip))
  {
    Moved(l, tx, to);
  }

  lemma Moved(l: Ledger, tx: Tx, to: Address)
    requires Consistent(l) && Current(l, tx) && tx.category in {0, 1} && tx.to == Some(to) && tx.sender != Some(to)
    requires OwnsNetwork(l, tx.sender.value, tx.net)
    ensures Apply(l, tx).Applied?
    ensures var r, s := Apply(l, tx).ledger, tx.sender.value;
      && Consistent(r) && OneSent(l, r, s) && (forall a :: SameSettings(l, r, a))
      && (forall a, ip :: ip in Own(r, a) <==> if tx.category == 0 && tx.net.Contains(ip) then a == to else ip in Own(l, a))
      && (forall a, b, ip :: DelegatedTo(r, a, b, ip) <==>
            if a == s && tx.net.Contains(ip) then tx.category == 1 && b == to else DelegatedTo(l, a, b, ip))
  {
    AppliesExactly(l, tx);
    ApplyKeepsLedger(l, tx);
    NonceMoves(l, tx, to);
    var r := Apply(l, tx).ledger;
    forall a, ip { OwnAfter(l, tx, a, ip); }
    forall a, b, ip { DelegatedAfter(l, tx, a, b, ip); }
  }

  lemma NonceMoves(l: Ledger, tx: Tx, to: Address)
    requires Apply(l, tx).Applied? && Moves(tx) && tx.to == Some(to)
    ensures var r := Apply(l, tx).ledger; OneSent(l, r, tx.sender.value) && forall a :: SameSettings(l, r, a)
  {
    var r, s := Apply(l, tx).ledger, tx.sender.value;
    forall a ensures At(r, a).nonce == At(l, a).nonce + (if a == s then 1 else 0) && SameSettings(l, r, a) {
      AfterApply(l, tx, a);
      if a != s { EffectOnOthers(tx, s, to, Revoked(l, tx), a, At(l, a).balance); }
    }
  }

  // ----- Map servers and locators -----

  /** Record i is the last one for its address. */
  ghost predicate LastFor(records: seq<MapServer>, i: int, ip: Ip) {
    0 <= i < |records| && records[i].ip == ip && forall j :: i < j < |records| ==> records[j].ip != ip
  }

  /** The sender's map servers are then those of the records, for every address the last one; its
      locators are gone; shares and other accounts stay. */
  lemma MapServersSet(l: Ledger, tx: Tx)
    requires Current(l, tx) && tx.category == 2
    ensures Apply(l, tx).Applied?
    ensures var r, s := Apply(l, tx).ledger, tx.sender.value;
      && OneSent(l, r, s) && (forall a :: SameShares(l, r, a) && (a != s ==> SameSettings(l, r, a)))
      && At(r, s).balance.locators == map[]
      && (forall ip :: ip in At(r, s).balance.mapServers <==> exists i :: LastFor(tx.mapServers, i, ip))
      && (forall i, ip :: LastFor(tx.mapServers, i, ip) ==>
            ip in At(r, s).balance.mapServers && At(r, s).balance.mapServers[ip] == tx.mapServers[i].address)
  {
    var r, s := Apply(l, tx).ledger, tx.sender.value;
    SettingsSet(l, tx);
    forall ip
      ensures ip in At(r, s).balance.mapServers <==> exists i :: LastFor(tx.mapServers, i, ip)
      ensures forall i :: LastFor(tx.mapServers, i, ip) ==>
                ip in At(r, s).balance.mapServers && At(r, s).balance.mapServers[ip] == tx.mapServers[i].address
    {
      MapServersFound(tx.mapServers, ip);
    }
  }

  lemma {:induction false} MapServersFound(records: seq<MapServer>, ip: Ip)
    ensures ip in MapServersOf(records) <==> exists i :: LastFor(records, i, ip)
    ensures forall i :: LastFor(records, i, ip) ==> ip in MapServersOf(records) && MapServersOf(records)[ip] == records[i].address
    decreases |records|
  {
    if records != [] {
      var last := |records| - 1;
      MapServersFound(records[..last], ip);
      if records[last].ip == ip {
        assert LastFor(records, last, ip);
        assert forall i :: LastFor(records, i, ip) ==> i == last;
      } else {
        assert forall i :: LastFor(records[..last], i, ip) <==> LastFor(records, i, ip);
      }
    }
  }

  /** The sender's locators are then the addresses of the records, all with the weights of the last
      record; its map servers are gone; shares and other accounts stay. */
  lemma LocatorsSet(l: Ledger, tx: Tx)
    requires Current(l, tx) && tx.category == 3
    requires forall r :: r in tx.locators ==> r.weights.priority != 0 && r.weights.weight != 0
    ensures Apply(l, tx).Applied?
    ensures var r, s := Apply(l, tx).ledger, tx.sender.value;
      && OneSent(l, r, s) && (forall a :: SameShares(l, r, a) && (a != s ==> SameSettings(l, r, a)))
      && At(r, s).balance.mapServers == map[]
      && (forall ip :: ip in At(r, s).balance.locators <==> exists i :: 0 <= i < |tx.locators| && tx.locators[i].ip == ip)
      && (forall ip :: ip in At(r, s).balance.locators ==>
            tx.locators != [] && At(r, s).balance.locators[ip] == tx.locators[|tx.locators| - 1].weights)
  {
    SettingsSet(l, tx);
  }

  lemma SettingsSet(l: Ledger, tx: Tx)
    requires Current(l, tx) && tx.category in {2, 3} && !HasZeroField(tx)
    ensures Apply(l, tx).Applied?
    ensures var r, s := Apply(l, tx).ledger, tx.sender.value;
      && OneSent(l, r, s) && (forall a :: SameShares(l, r, a) && (a != s ==> SameSettings(l, r, a)))
      && At(r, s).balance == WithSettings(tx, At(l, s).balance)
  {
    var r, s := Apply(l, tx).ledger, tx.sender.value;
    forall a
      ensures At(r, a).nonce == At(l, a).nonce + if a == s then 1 else 0
      ensures At(r, a).balance == if a == s then WithSettings(tx, At(l, a).balance) else At(l, a).balance
    {
      AfterApply(l, tx, a);
    }
  }
}
