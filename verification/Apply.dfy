/** Transactions applied to a state object (apply.py). */
module ApplyObject {
  import opened Networks
  import opened Ledger
  import opened Options
  import opened PrefixIndex
  import opened StateValues
  import opened ApplySteps
  import opened BalanceObject
  import opened StateObject

  method ValidateTransaction(state: State, tx: Tx) returns (e: Option<Error>)
    requires state.Valid()
    modifies state`cache
    ensures state.Valid() && e == Validate(state.shown, tx)
  {
    if tx.sender == None || tx.sender == Some(NULL_ADDRESS) { return Some(UnsignedTransaction); }
    var nonce := state.GetNonce(tx.sender.value);
    if nonce != tx.nonce { return Some(InvalidNonce); }
    if tx.category < 0 || tx.category > 3 { return Some(InvalidCategory); }
    var balance := state.GetBalance(tx.sender.value);
    if tx.category == 0 || tx.category == 1 {
      var enough := balance.InOwnIps(Members(tx.net));
      if !enough { return Some(InsufficientBalance); }
    }
    return None;
  }

  /** Takes the affected shares from the sender's balance object and from the records of their
      holders; ok is false if a holder has no record of the sender. */
  method RevokeShares(state: State, s: Address, sender: Balance, affected: Shares) returns (ok: bool)
    requires state.Valid() && affected.Keys <= sender.delegatedIps.Keys
    modifies state`cache, state`journal, state`shown, sender
    ensures state.Valid() && ok == SharesKnown(old(state.shown), s, affected)
    ensures ok ==> state.shown == Revoke(old(state.shown), s, affected)
    ensures ok ==> sender.Value() == old(sender.Value()).(delegated := RemoveShares(old(sender.delegatedIps), affected))
  {
    ghost var l := state.shown;
    ghost var m := sender.delegatedIps;
    RevokeNone(l, s, m, affected);
    var todo := affected.Keys;
    while todo != {}
      invariant todo <= affected.Keys && state.Valid()
      invariant SharesKnown(l, s, affected - todo)
      invariant state.shown == Revoke(l, s, affected - todo)
      invariant sender.Value() == old(sender.Value()).(delegated := RemoveShares(m, affected - todo))
    {
      SomeAddress(todo);
      var a :| a in todo;
      RevokeNext(l, s, affected, todo, a);
      RemoveNext(m, affected, todo, a);
      var _ := sender.RemoveDelegatedIps(a, affected[a]);
      ok := RevokeReceived(state, s, a, affected[a]);
      if !ok { assert a in affected; return; }
      todo := todo - {a};
    }
    assert affected - todo == affected;
    ok := true;
  }

  /** One share off the record of its holder. */
  method RevokeReceived(state: State, s: Address, a: Address, ips: set<Ip>) returns (ok: bool)
    requires state.Valid()
    modifies state`cache, state`journal, state`shown
    ensures state.Valid() && ok == (s in At(old(state.shown), a).balance.received)
    ensures ok ==> state.shown == WithBalance(old(state.shown), a, WithoutShare(At(old(state.shown), a).balance, s, ips))
  {
    var received := state.GetBalance(a);
    ok := received.RemoveReceivedIps(s, ips);
    if ok { state.SetBalance(a, received); }
  }

  /** Validates and applies one transaction and commits. What fails leaves the accounts as they were,
      unless a share that is revoked is not on record. */
  method ApplyTransaction(state: State, tx: Tx, cached: Index) returns (e: Option<Error>, cached': Index)
    requires state.Valid()
    modifies state.Frame()
    ensures state.Valid() && state.aux == old(state.aux) && old(state.trie.data).Keys <= state.trie.data.Keys
    ensures match Apply(old(state.shown), tx)
      case Applied(l) => e == None && state.shown == l && state.journal == [] && cached' == Remember(cached, tx)
      case Failed(error) => e == Some(error) && (error != MissingKey ==> state.shown == old(state.shown) && state.journal == old(state.journal))
  {
    cached' := cached;
    e := ValidateTransaction(state, tx);
    if e.Some? { return; }
    if tx.category == 0 || tx.category == 1 {
      if tx.to == None { return Some(InvalidAddress), cached; }
      cached' := cached[tx.net := tx.to.value];
      e := MoveShares(state, tx, tx.sender.value, tx.to.value);
    } else {
      e := ChangeSettings(state, tx, tx.sender.value);
    }
    if e == None { state.Commit(); }
  }

  /** A map server or locator update. A locator record with a zero field raises before anything is
      written. */
  method ChangeSettings(state: State, tx: Tx, s: Address) returns (e: Option<Error>)
    requires state.Valid() && tx.sender == Some(s) && (tx.category == 2 || tx.category == 3)
    modifies state`cache, state`journal, state`shown
    ensures state.Valid() && e == if HasZeroField(tx) then Some(ZeroField) else None
    ensures e == None ==> state.shown == Changed(old(state.shown), tx, map[])
    ensures e != None ==> state.shown == old(state.shown) && state.journal == old(state.journal)
  {
    SettingsMakeChange(state.shown, tx);
    var sender := state.GetBalance(s);
    if tx.category == 2 {
      sender.SetMapServer(tx.mapServers);
    } else {
      var ok := sender.SetLocator(tx.locators);
      if !ok { return Some(ZeroField); }
    }
    state.SetBalance(s, sender);
    state.IncrementNonce(s);
    return None;
  }

  /** The writes of an allocation or delegation: revoked shares, recipient, sender, nonce. */
  method MoveShares(state: State, tx: Tx, s: Address, to: Address) returns (e: Option<Error>)
    requires state.Valid() && Moves(tx) && tx.sender == Some(s) && tx.to == Some(to)
    modifies state`cache, state`journal, state`shown
    ensures state.Valid()
    ensures e == if SharesKnown(old(state.shown), s, Revoked(old(state.shown), tx)) then None else Some(MissingKey)
    ensures e == None ==> state.shown == Changed(old(state.shown), tx, Revoked(old(state.shown), tx))
  {
    ghost var l := state.shown;
    var ips := Members(tx.net);
    var sender := state.GetBalance(s);
    var affected := sender.AffectedDelegatedIps(ips);
    var ok := RevokeShares(state, s, sender, affected);
    if !ok { return Some(MissingKey); }
    StepsMakeChange(l, tx, affected);
    WriteMoved(state, tx, s, to, sender);
    return None;
  }

  /** The recipient, then the sender, then the nonce. */
  method WriteMoved(state: State, tx: Tx, s: Address, to: Address, sender: Balance)
    requires state.Valid() && Moves(tx)
    modifies state`cache, state`journal, state`shown, sender
    ensures state.Valid()
    ensures var mid := old(state.shown);
      var atRecipient := WithBalance(mid, to, RecipientAfter(tx, s, At(mid, to).balance));
      state.shown == NonceUsed(WithBalance(atRecipient, s, SenderAfter(tx, to, old(sender.Value()))), s)
  {
    WriteRecipient(state, tx, s, to);
    if tx.category == 0 {
      sender.RemoveOwnIps(Members(tx.net));
    } else {
      sender.AddDelegatedIps(to, Members(tx.net));
    }
    state.SetBalance(s, sender);
    state.IncrementNonce(s);
  }

  method WriteRecipient(state: State, tx: Tx, s: Address, to: Address)
    requires state.Valid() && Moves(tx)
    modifies state`cache, state`journal, state`shown
    ensures state.Valid()
    ensures state.shown == WithBalance(old(state.shown), to, RecipientAfter(tx, s, At(old(state.shown), to).balance))
  {
    var recipient := state.GetBalance(to);
    if tx.category == 0 {
      recipient.AddOwnIps(Members(tx.net));
    } else {
      recipient.AddReceivedIps(s, Members(tx.net));
    }
    state.SetBalance(to, recipient);
  }
}
