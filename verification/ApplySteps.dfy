/** The ledgers between the steps of apply_transaction: revoking share by share, then the recipient,
    the sender and the nonce. Together they are the effect that Ledger.Apply states. */
module ApplySteps {
  import opened Networks
  import opened Ledger
  import opened Options

  /** The ledger after the given parts were taken from what their holders received from s. */
  function Revoke(l: Ledger, s: Address, parts: Shares): Ledger
    requires SharesKnown(l, s, parts)
  {
    map a | a in l.Keys + parts.Keys ::
      if a in parts then Account(At(l, a).nonce, WithoutShare(At(l, a).balance, s, parts[a])) else l[a]
  }

  function WithoutShare(b: Holdings, s: Address, ips: set<Ip>): Holdings
    requires s in b.received
  {
    b.(received := RemoveShare(b.received, s, ips))
  }

  lemma RevokeNone(l: Ledger, s: Address, m: Shares, parts: Shares)
    ensures Revoke(l, s, parts - parts.Keys) == l && RemoveShares(m, parts - parts.Keys) == m
  {
  }

  lemma RevokeNext(l: Ledger, s: Address, parts: Shares, todo: set<Address>, a: Address)
    requires a in todo && todo <= parts.Keys && SharesKnown(l, s, parts - todo)
    ensures At(Revoke(l, s, parts - todo), a) == At(l, a)
    ensures s in At(l, a).balance.received ==>
              && SharesKnown(l, s, parts - (todo - {a}))
              && WithBalance(Revoke(l, s, parts - todo), a, WithoutShare(At(l, a).balance, s, parts[a]))
              == Revoke(l, s, parts - (todo - {a}))
  {
  }

  lemma RemoveNext(m: Shares, parts: Shares, todo: set<Address>, a: Address)
    requires a in todo && todo <= parts.Keys && parts.Keys <= m.Keys
    ensures a in RemoveShares(m, parts - todo)
    ensures RemoveShare(RemoveShares(m, parts - todo), a, parts[a]) == RemoveShares(m, parts - (todo - {a}))
  {
  }

  /** The recipient's and the sender's records that an allocation or delegation writes last. */
  function RecipientAfter(tx: Tx, s: Address, b: Holdings): Holdings {
    if tx.category == 0 then b.(own := b.own + Members(tx.net))
    else b.(received := AddShare(b.received, s, Members(tx.net)))
  }

  function SenderAfter(tx: Tx, to: Address, b: Holdings): Holdings {
    if tx.category == 0 then b.(own := b.own - Members(tx.net))
    else b.(delegated := AddShare(b.delegated, to, Members(tx.net)))
  }

  /** The steps on one account. */
  lemma StepsAt(l: Ledger, tx: Tx, affected: Shares, a: Address)
    requires Moves(tx) && tx.sender.Some? && tx.to.Some? && SharesKnown(l, tx.sender.value, affected)
    ensures At(StepByStep(l, tx, affected), a) == AccountAfter(tx, affected, a, At(l, a))
  {
  }

  /** Revoking, the recipient, the sender and the nonce, in the order of the program. */
  function StepByStep(l: Ledger, tx: Tx, affected: Shares): Ledger
    requires tx.sender.Some? && tx.to.Some? && SharesKnown(l, tx.sender.value, affected)
  {
    var s, to := tx.sender.value, tx.to.value;
    var b := At(l, s).balance;
    var mid := Revoke(l, s, affected);
    var atRecipient := WithBalance(mid, to, RecipientAfter(tx, s, At(mid, to).balance));
    NonceUsed(WithBalance(atRecipient, s, SenderAfter(tx, to, b.(delegated := RemoveShares(b.delegated, affected)))), s)
  }

  lemma StepsMakeChange(l: Ledger, tx: Tx, affected: Shares)
    requires Moves(tx) && tx.sender.Some? && tx.to.Some? && SharesKnown(l, tx.sender.value, affected)
    ensures StepByStep(l, tx, affected) == Changed(l, tx, affected)
  {
    var x, y := StepByStep(l, tx, affected), Changed(l, tx, affected);
    assert x.Keys == l.Keys + affected.Keys + {tx.sender.value, tx.to.value} == y.Keys;
    forall a | a in x ensures x[a] == y[a] { StepsAt(l, tx, affected, a); }
  }

  lemma SettingsMakeChange(l: Ledger, tx: Tx)
    requires !Moves(tx) && tx.sender.Some?
    ensures var s := tx.sender.value;
      NonceUsed(WithBalance(l, s, WithSettings(tx, At(l, s).balance)), s) == Changed(l, tx, map[])
  {
  }
}
