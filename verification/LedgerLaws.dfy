/** What every applied transaction keeps: ownership is disjoint and conserved, delegations lie
    inside it and are recorded alike on both sides. Transactions to oneself are the exception. */
module LedgerLaws {
  import opened Networks
  import opened Ledger
  import opened Effects
  import opened Options

  function Own(l: Ledger, a: Address): set<Ip> { At(l, a).balance.own }
  function Delegated(l: Ledger, a: Address): Shares { At(l, a).balance.delegated }
  function Received(l: Ledger, a: Address): Shares { At(l, a).balance.received }

  /** No address has two owners. */
  ghost predicate OwnersDisjoint(l: Ledger) {
    forall a, b :: a != b ==> Own(l, a) !! Own(l, b)
  }

  /** What a has delegated: only to others, only parts it owns, no empty part, no address twice. */
  ghost predicate DelegatesOwn(l: Ledger, a: Address) {
    && a !in Delegated(l, a)
    && (forall b :: b in Delegated(l, a) ==> Delegated(l, a)[b] != {} && Delegated(l, a)[b] <= Own(l, a))
    && (forall b, c :: b in Delegated(l, a) && c in Delegated(l, a) && b != c ==> Delegated(l, a)[b] !! Delegated(l, a)[c])
  }

  /** What a records as delegated to b is what b records as received from a. */
  ghost predicate MirroredPair(l: Ledger, a: Address, b: Address) {
    Lookup(Delegated(l, a), b) == Lookup(Received(l, b), a)
  }

  ghost predicate Consistent(l: Ledger) {
    && OwnersDisjoint(l)
    && (forall a :: DelegatesOwn(l, a))
    && (forall a, b :: MirroredPair(l, a, b))
  }

  /** All owned addresses. */
  function TotalOwned(l: Ledger): set<Ip> {
    set a, ip | a in l && ip in l[a].balance.own :: ip
  }

  lemma OwnedByRecord(l: Ledger, ip: Ip)
    ensures ip in TotalOwned(l) <==> exists a :: ip in Own(l, a)
  {
    if ip in TotalOwned(l) {
      var a :| a in l && ip in l[a].balance.own;
      assert ip in Own(l, a);
    }
    if a :| ip in Own(l, a) { assert a in l; }
  }

  /** The transaction does not go from an account to itself. */
  predicate ToOther(tx: Tx) { Moves(tx) ==> tx.to != tx.sender }

  // ----- Accounts after a transaction -----

  /** The account a after an applied transaction, recorded or not. */
  lemma AfterApply(l: Ledger, tx: Tx, a: Address)
    requires Apply(l, tx).Applied?
    ensures Moves(tx) && Some(a) != tx.sender && a in Revoked(l, tx) ==> tx.sender.value in Received(l, a)
    ensures At(Apply(l, tx).ledger, a) == AccountAfter(tx, Revoked(l, tx), a, At(l, a))
  {
  }

  lemma OwnersStayDisjoint(l: Ledger, tx: Tx)
    requires OwnersDisjoint(l) && Apply(l, tx).Applied?
    ensures OwnersDisjoint(Apply(l, tx).ledger)
  {
    forall a, b | a != b ensures Own(Apply(l, tx).ledger, a) !! Own(Apply(l, tx).ledger, b) {
      AfterApply(l, tx, a);
      AfterApply(l, tx, b);
      assert Own(l, a) !! Own(l, b);
      if Moves(tx) {
        assert a != tx.sender.value ==> Own(l, a) !! Own(l, tx.sender.value);
        assert b != tx.sender.value ==> Own(l, b) !! Own(l, tx.sender.value);
      }
    }
  }

  /** The sender's shares after revoking everything inside ips: what is left avoids ips. */
  lemma SharesLeft(b: Holdings, ips: set<Ip>, a: Address)
    requires a in b.delegated ==> b.delegated[a] != {}
    ensures var left := RemoveShares(b.delegated, Affected(b, ips));
      && (a in left <==> a in b.delegated && b.delegated[a] - ips != {})
      && (a in left ==> left[a] == b.delegated[a] - ips)
  {
    if a in b.delegated && a in Affected(b, ips) {
      assert b.delegated[a] - ips * b.delegated[a] == b.delegated[a] - ips;
    } else if a in b.delegated {
      assert forall ip :: ip in b.delegated[a] ==> ip !in ips * b.delegated[a];
      assert b.delegated[a] - ips == b.delegated[a];
    }
  }

  lemma DelegationsStayOwn(l: Ledger, tx: Tx, a: Address)
    requires DelegatesOwn(l, a) && Apply(l, tx).Applied? && ToOther(tx)
    ensures DelegatesOwn(Apply(l, tx).ledger, a)
  {
    AfterApply(l, tx, a);
    if Moves(tx) && tx.sender == Some(a) {
      var ips, to, l' := Members(tx.net), tx.to.value, Apply(l, tx).ledger;
      forall b
        ensures b in Delegated(l', a) ==>
                  (b in Delegated(l, a) && Delegated(l', a)[b] == Delegated(l, a)[b] - ips)
                  || (tx.category == 1 && b == to && Delegated(l', a)[b] == ips)
                  || (tx.category == 1 && b == to && b in Delegated(l, a) && Delegated(l', a)[b] == Delegated(l, a)[b] - ips + ips)
        ensures b in Delegated(l', a) ==> Delegated(l', a)[b] != {}
      {
        SharesLeft(At(l, a).balance, ips, b);
      }
    }
  }

  lemma PairsStayMirrored(l: Ledger, tx: Tx, a: Address, b: Address)
    requires MirroredPair(l, a, b) && a !in Delegated(l, a) && Apply(l, tx).Applied? && ToOther(tx)
    ensures MirroredPair(Apply(l, tx).ledger, a, b)
  {
    AfterApply(l, tx, a);
    AfterApply(l, tx, b);
    if Moves(tx) {
      var s, to, affected := tx.sender.value, tx.to.value, Revoked(l, tx);
      if a == s {
        EffectOnSender(tx, s, to, affected, At(l, s).balance, b);
      } else {
        EffectOnOthers(tx, s, to, affected, a, At(l, a).balance);
      }
      if b == s {
        EffectOnSender(tx, s, to, affected, At(l, s).balance, a);
      } else {
        EffectOnOthers(tx, s, to, affected, b, At(l, b).balance);
      }
    }
  }

  lemma TotalStays(l: Ledger, tx: Tx)
    requires Apply(l, tx).Applied? && ToOther(tx)
    ensures TotalOwned(Apply(l, tx).ledger) == TotalOwned(l)
  {
    var l' := Apply(l, tx).ledger;
    forall ip ensures ip in TotalOwned(l') <==> ip in TotalOwned(l) {
      OwnedByRecord(l, ip);
      OwnedByRecord(l', ip);
      if a :| ip in Own(l, a) {
        AfterApply(l, tx, a);
        if Moves(tx) { AfterApply(l, tx, tx.to.value); }
        assert ip in Own(l', a) || ip in Own(l', tx.to.value);
      }
      if a :| ip in Own(l', a) {
        AfterApply(l, tx, a);
        assert ip in Own(l, a) || ip in Own(l, tx.sender.value);
      }
    }
  }

  /** A transfer to oneself loses the addresses; a delegation to oneself is recorded on one side only. */
  lemma ToOneselfBreaks(l: Ledger, tx: Tx)
    requires Consistent(l) && Apply(l, tx).Applied? && !ToOther(tx)
    ensures tx.category == 0 ==> TotalOwned(Apply(l, tx).ledger) == TotalOwned(l) - Members(tx.net)
    ensures tx.category == 0 ==> TotalOwned(Apply(l, tx).ledger) != TotalOwned(l)
    ensures tx.category == 1 ==> !MirroredPair(Apply(l, tx).ledger, tx.sender.value, tx.sender.value)
  {
    var l', s := Apply(l, tx).ledger, tx.sender.value;
    AfterApply(l, tx, s);
    if tx.category == 0 {
      forall ip ensures ip in TotalOwned(l') <==> ip in TotalOwned(l) && ip !in Members(tx.net) {
        OwnedByRecord(l, ip);
        OwnedByRecord(l', ip);
        if a :| ip in Own(l, a) { AfterApply(l, tx, a); assert ip in Own(l', a) || ip in Members(tx.net); }
        if a :| ip in Own(l', a) {
          AfterApply(l, tx, a);
          assert a != s ==> Own(l, a) !! Own(l, s);
          assert ip in Own(l, a);
        }
      }
      var ip :| ip in Members(tx.net);
      OwnedByRecord(l, ip);
      assert ip in Own(l, s);
    } else {
      assert DelegatesOwn(l, s) && MirroredPair(l, s, s);
    }
  }

  /** Consistency and the total survive an applied transaction exactly if it does not go to its sender. */
  lemma ApplyKeepsLedger(l: Ledger, tx: Tx)
    requires Consistent(l) && Apply(l, tx).Applied?
    ensures Consistent(Apply(l, tx).ledger) && TotalOwned(Apply(l, tx).ledger) == TotalOwned(l) <==> ToOther(tx)
  {
    var l' := Apply(l, tx).ledger;
    if ToOther(tx) {
      OwnersStayDisjoint(l, tx);
      TotalStays(l, tx);
      forall a ensures DelegatesOwn(l', a) { DelegationsStayOwn(l, tx, a); }
      forall a, b ensures MirroredPair(l', a, b) {
        assert DelegatesOwn(l, a);
        PairsStayMirrored(l, tx, a, b);
      }
    } else {
      ToOneselfBreaks(l, tx);
    }
  }

  /** In a consistent ledger a revoked share is always on record: a valid transaction fails only for
      want of a recipient or on a zero field. */
  lemma ValidApplies(l: Ledger, tx: Tx)
    requires tx.sender.Some? ==> forall b :: MirroredPair(l, tx.sender.value, b)
    requires Validate(l, tx) == None
    ensures Apply(l, tx).Applied? <==> Executable(tx)
    ensures Apply(l, tx).Failed? ==> Apply(l, tx).error == if HasZeroField(tx) then ZeroField else InvalidAddress
  {
    var s := tx.sender.value;
    forall a | a in Affected(At(l, s).balance, Members(tx.net)) ensures s in Received(l, a) {
      assert MirroredPair(l, s, a);
    }
  }

  // ----- Runs -----

  /** A run of applied transactions. */
  datatype Run = Complete(ledger: Ledger) | Stopped(ledger: Ledger, applied: nat, error: Error)

  function ApplyAll(l: Ledger, txs: seq<Tx>): Run
    decreases |txs|
  {
    if txs == [] then Complete(l)
    else
      match Apply(l, txs[0])
      case Failed(e) => Stopped(l, 0, e)
      case Applied(l') => OneLater(ApplyAll(l', txs[1..]))
  }

  /** A run seen from one transaction earlier. */
  function OneLater(r: Run): Run {
    if r.Complete? then r else Stopped(r.ledger, r.applied + 1, r.error)
  }

  lemma ApplyAllStep(l: Ledger, tx: Tx, rest: seq<Tx>)
    requires Apply(l, tx).Applied?
    ensures ApplyAll(l, [tx] + rest) == OneLater(ApplyAll(Apply(l, tx).ledger, rest))
  {
  }

  /** One transaction more after a complete run. */
  lemma {:induction false} ApplyAllThen(l: Ledger, txs: seq<Tx>, tx: Tx)
    requires ApplyAll(l, txs).Complete?
    ensures var m := ApplyAll(l, txs).ledger;
      ApplyAll(l, txs + [tx]) ==
        match Apply(m, tx)
        case Applied(r) => Complete(r)
        case Failed(e) => Stopped(m, |txs|, e)
    decreases |txs|
  {
    if txs == [] {
      assert txs + [tx] == [tx];
    } else {
      assert txs + [tx] == [txs[0]] + (txs[1..] + [tx]);
      ApplyAllThen(Apply(l, txs[0]).ledger, txs[1..], tx);
      ApplyAllStep(l, txs[0], txs[1..] + [tx]);
    }
  }

  /** A run that stopped is not changed by what comes after. */
  lemma {:induction false} StoppedStays(l: Ledger, txs: seq<Tx>, more: seq<Tx>)
    requires ApplyAll(l, txs).Stopped?
    ensures ApplyAll(l, txs + more) == ApplyAll(l, txs)
    decreases |txs|
  {
    assert txs + more == [txs[0]] + (txs[1..] + more);
    if Apply(l, txs[0]).Applied? {
      StoppedStays(Apply(l, txs[0]).ledger, txs[1..], more);
      ApplyAllStep(l, txs[0], txs[1..] + more);
    }
  }

  /** The ledger of the genesis declaration. */
  function Genesis(alloc: map<Address, set<Ip>>): Ledger {
    map a | a in alloc :: Account(0, Owning(alloc[a]))
  }

  function SentBy(txs: seq<Tx>, a: Address): nat
    decreases |txs|
  {
    if txs == [] then 0 else SentBy(txs[1..], a) + if txs[0].sender == Some(a) then 1 else 0
  }

  /** From disjoint genesis allocations every reachable ledger is consistent and owns what genesis
      owned, and every nonce counts the transactions of its account. */
  lemma {:induction false} ReachableLedger(l: Ledger, txs: seq<Tx>, r: Ledger)
    requires Consistent(l) && ApplyAll(l, txs) == Complete(r) && forall i :: 0 <= i < |txs| ==> ToOther(txs[i])
    ensures Consistent(r) && TotalOwned(r) == TotalOwned(l)
    ensures forall a :: At(r, a).nonce == At(l, a).nonce + SentBy(txs, a)
    decreases |txs|
  {
    if txs != [] {
      var l' := Apply(l, txs[0]).ledger;
      ApplyKeepsLedger(l, txs[0]);
      forall a ensures At(l', a).nonce == At(l, a).nonce + if txs[0].sender == Some(a) then 1 else 0 {
        AfterApply(l, txs[0], a);
      }
      ReachableLedger(l', txs[1..], r);
    }
  }

  lemma GenesisConsistent(alloc: map<Address, set<Ip>>)
    ensures Consistent(Genesis(alloc)) <==> forall a, b :: a in alloc && b in alloc && a != b ==> alloc[a] !! alloc[b]
  {
    var l := Genesis(alloc);
    if Consistent(l) {
      forall a, b | a in alloc && b in alloc && a != b ensures alloc[a] !! alloc[b] {
        assert Own(l, a) !! Own(l, b);
      }
    }
  }
}
