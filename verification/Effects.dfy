/** What one transaction does to one account, field by field, and that two senders do not get in each
    other's way. */
module Effects {
  import opened Networks
  import opened Ledger
  import opened Options

  function Lookup(m: Shares, k: Address): Option<set<Ip>> { if k in m then Some(m[k]) else None }

  function WithShare(m: Shares, k: Address, v: Option<set<Ip>>): Shares {
    if v.Some? then m[k := v.value] else m - {k}
  }

  lemma WithShareCommutes(m: Shares, j: Address, u: Option<set<Ip>>, k: Address, v: Option<set<Ip>>)
    requires j != k
    ensures WithShare(WithShare(m, j, u), k, v) == WithShare(WithShare(m, k, v), j, u)
    ensures Lookup(WithShare(m, j, u), k) == Lookup(m, k)
  {
  }

  /** The entry that account a, not the sender, keeps for the sender. */
  function NewEntry(tx: Tx, to: Address, affected: Shares, a: Address, before: Option<set<Ip>>): Option<set<Ip>> {
    var kept :=
      if a in affected && before.Some? then
        (if before.value - affected[a] == {} then None else Some(before.value - affected[a]))
      else before;
    if a == to && tx.category != 0 then Some((if kept.Some? then kept.value else {}) + Members(tx.net)) else kept
  }

  lemma EffectOnOthers(tx: Tx, s: Address, to: Address, affected: Shares, a: Address, b: Holdings)
    requires a != s && (a in affected ==> s in b.received)
    ensures Effect(tx, s, to, affected, a, b) ==
              b.(own := if a == to && tx.category == 0 then b.own + Members(tx.net) else b.own,
                 received := WithShare(b.received, s, NewEntry(tx, to, affected, a, Lookup(b.received, s))))
  {
  }

  lemma EffectOnSender(tx: Tx, s: Address, to: Address, affected: Shares, b: Holdings, k: Address)
    ensures Lookup(Effect(tx, s, to, affected, s, b).delegated, k) == NewEntry(tx, to, affected, k, Lookup(b.delegated, k))
    ensures Effect(tx, s, to, affected, s, b).received == b.received
  {
  }

  lemma EffectsCommute(x: Tx, y: Tx, s: Address, t: Address, to: Address, to': Address,
                       p: Shares, q: Shares, a: Address, b: Holdings)
    requires s != t && Members(x.net) !! Members(y.net)
    requires (a != s && a in p ==> s in b.received) && (a != t && a in q ==> t in b.received)
    ensures var afterX, afterY := Effect(x, s, to, p, a, b), Effect(y, t, to', q, a, b);
      && (a != t && a in q ==> t in afterX.received) && (a != s && a in p ==> s in afterY.received)
      && Effect(y, t, to', q, a, afterX) == Effect(x, s, to, p, a, afterY)
  {
    if a == s {
      EffectsCommuteAtSender(x, y, s, t, to, to', p, q, b);
    } else if a == t {
      EffectsCommuteAtSender(y, x, t, s, to', to, q, p, b);
    } else {
      EffectsCommuteElsewhere(x, y, s, t, to, to', p, q, a, b);
    }
  }

  lemma EffectsCommuteAtSender(x: Tx, y: Tx, s: Address, t: Address, to: Address, to': Address,
                               p: Shares, q: Shares, b: Holdings)
    requires s != t && Members(x.net) !! Members(y.net) && (s in q ==> t in b.received)
    ensures var afterX, afterY := Effect(x, s, to, p, s, b), Effect(y, t, to', q, s, b);
      && (s in q ==> t in afterX.received) && Effect(y, t, to', q, s, afterX) == Effect(x, s, to, p, s, afterY)
  {
    var afterX := Effect(x, s, to, p, s, b);
    EffectOnOthers(y, t, to', q, s, b);
    EffectOnOthers(y, t, to', q, s, afterX);
    assert b.own - Members(x.net) + Members(y.net) == b.own + Members(y.net) - Members(x.net);
  }

  lemma EffectsCommuteElsewhere(x: Tx, y: Tx, s: Address, t: Address, to: Address, to': Address,
                                p: Shares, q: Shares, a: Address, b: Holdings)
    requires s != t && a != s && a != t && (a in p ==> s in b.received) && (a in q ==> t in b.received)
    ensures var afterX, afterY := Effect(x, s, to, p, a, b), Effect(y, t, to', q, a, b);
      && (a in q ==> t in afterX.received) && (a in p ==> s in afterY.received)
      && Effect(y, t, to', q, a, afterX) == Effect(x, s, to, p, a, afterY)
  {
    var afterX, afterY := Effect(x, s, to, p, a, b), Effect(y, t, to', q, a, b);
    var u, v := NewEntry(x, to, p, a, Lookup(b.received, s)), NewEntry(y, to', q, a, Lookup(b.received, t));
    EffectOnOthers(x, s, to, p, a, b);
    EffectOnOthers(y, t, to', q, a, b);
    WithShareCommutes(b.received, s, u, t, v);
    WithShareCommutes(b.received, t, v, s, u);
    EffectOnOthers(y, t, to', q, a, afterX);
    EffectOnOthers(x, s, to, p, a, afterY);
    assert b.own + Members(x.net) + Members(y.net) == b.own + Members(y.net) + Members(x.net);
  }

  /** A transaction of another sender leaves nonce and delegations, takes no owned address and removes
      no received share of a third party. */
  lemma OthersKeep(tx: Tx, affected: Shares, a: Address, b: Holdings)
    requires tx.sender.Some? && (Moves(tx) ==> tx.to.Some?)
    requires Moves(tx) && Some(a) != tx.sender && a in affected ==> tx.sender.value in b.received
    ensures Some(a) != tx.sender ==>
              BalanceAfter(tx, affected, a, b).delegated == b.delegated && b.own <= BalanceAfter(tx, affected, a, b).own
    ensures forall t :: Some(t) != tx.sender && t in b.received ==> t in BalanceAfter(tx, affected, a, b).received
  {
    if Moves(tx) && Some(a) != tx.sender { EffectOnOthers(tx, tx.sender.value, tx.to.value, affected, a, b); }
  }

  lemma AccountsCommute(x: Tx, y: Tx, p: Shares, q: Shares, a: Address, account: Account)
    requires x.sender.Some? && (Moves(x) ==> x.to.Some?) && y.sender.Some? && (Moves(y) ==> y.to.Some?)
    requires x.sender != y.sender && (Moves(x) && Moves(y) ==> Members(x.net) !! Members(y.net))
    requires Moves(x) && Some(a) != x.sender && a in p ==> x.sender.value in account.balance.received
    requires Moves(y) && Some(a) != y.sender && a in q ==> y.sender.value in account.balance.received
    ensures Moves(y) && Some(a) != y.sender && a in q ==> y.sender.value in AccountAfter(x, p, a, account).balance.received
    ensures Moves(x) && Some(a) != x.sender && a in p ==> x.sender.value in AccountAfter(y, q, a, account).balance.received
    ensures AccountAfter(y, q, a, AccountAfter(x, p, a, account)) == AccountAfter(x, p, a, AccountAfter(y, q, a, account))
  {
    OthersKeep(x, p, a, account.balance);
    OthersKeep(y, q, a, account.balance);
    if Moves(x) && Moves(y) {
      EffectsCommute(x, y, x.sender.value, y.sender.value, x.to.value, y.to.value, p, q, a, account.balance);
    } else if Moves(x) && Some(a) == y.sender {
      SettingsCommute(x, y, p, a, account.balance);
    } else if Moves(y) && Some(a) == x.sender {
      SettingsCommute(y, x, q, a, account.balance);
    }
  }

  /** Settings of the account that another sender's transaction reaches. */
  lemma SettingsCommute(x: Tx, y: Tx, p: Shares, a: Address, b: Holdings)
    requires Moves(x) && x.sender.Some? && x.to.Some? && Some(a) != x.sender && (a in p ==> x.sender.value in b.received)
    ensures Effect(x, x.sender.value, x.to.value, p, a, WithSettings(y, b))
         == WithSettings(y, Effect(x, x.sender.value, x.to.value, p, a, b))
  {
    EffectOnOthers(x, x.sender.value, x.to.value, p, a, b);
    EffectOnOthers(x, x.sender.value, x.to.value, p, a, WithSettings(y, b));
  }
}
