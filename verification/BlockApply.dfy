/** Applying a block to a state and the index beside it: apply_block of apply.py, patricia_state.py. */
module BlockApply {
  import opened Networks
  import opened Ledger
  import opened Options
  import opened LedgerLaws
  import opened Blocks
  import opened BlockHeaders
  import opened PrefixIndex
  import opened StateValues
  import opened StateRuns
  import NodeItems
  import opened AccountTries
  import opened Sealed
  import opened StateObject
  import opened ApplyObject

  class PatriciaState {
    var index: Index

    constructor ()
      ensures index == map[]
    {
      index := map[];
    }

    method SetValue(net: Net, a: Address)
      modifies this
      ensures index == old(index)[net := a]
    {
      index := index[net := a];
    }

    /** The entry of the longest network around an address; None where reading a missing node raises. */
    method GetValue(ip: Ip) returns (r: Option<Address>)
      ensures forall a :: r == Some(a) <==> exists net :: Best(index, ip, net) && index[net] == a
    {
      r := Find(index, ip);
      forall a { FindMeans(index, ip, a); }
    }

    /** Writes all changes, in no particular order. */
    method SetAll(cached: Index)
      modifies this
      ensures index == old(index) + cached
    {
      var todo := cached.Keys;
      while todo != {}
        invariant todo <= cached.Keys && index == old(index) + (cached - todo)
      {
        var net :| net in todo;
        SetValue(net, cached[net]);
        todo := todo - {net};
      }
      assert cached - todo == cached;
    }
  }

  /** validate_header and validate_transaction_tree, check by check; ok is false where they raise. */
  method ValidateShape(parent: Header, block: Block) returns (ok: bool)
    ensures ok == WellFormed(block, parent)
  {
    var header := block.header;
    if header.prevhash != parent.hash { return false; }
    if header.number != parent.number + 1 { return false; }
    if header.timestamp <= parent.timestamp { return false; }
    if header.timestamp >= TIME_LIMIT { return false; }
    ok := header.txRoot == block.txs;
  }

  datatype BlockResult =
    | Accepted
    | Rejected             // ValueError or AssertionError: reverted
    | Raised(error: Error) // any other exception: not reverted

  /** What applying a block does. A malformed block and a zero field, which raise ValueErrors, are
      undone whole; when another transaction fails, the ones before it stay applied. */
  method ApplyBlock(state: State, block: Block, patricia: PatriciaState) returns (r: BlockResult)
    requires state.Valid() && state.aux.prevHeaders != [] && state.journal == []
    modifies state.Frame(), patricia
    ensures state.Valid() && old(state.trie.data).Keys <= state.trie.data.Keys
    ensures !WellFormed(block, old(state.aux).prevHeaders[0]) ==>
              && r == Rejected && state.shown == old(state.shown) && state.aux == old(state.aux)
              && patricia.index == old(patricia.index)
    ensures WellFormed(block, old(state.aux).prevHeaders[0]) ==>
              match ApplyAll(old(state.shown), block.txs)
              case Complete(l) =>
                && r == Accepted && state.shown == l
                && state.aux == old(state.aux).(prevHeaders := [Shown(block.header)] + old(state.aux).prevHeaders)
                && patricia.index == WriteAll(old(patricia.index), block.txs)
              case Stopped(l, i, e) =>
                && r == (if e == ZeroField then Rejected else Raised(e))
                && (e != MissingKey ==> state.shown == if e == ZeroField then old(state.shown) else l)
                && state.aux == old(state.aux) && patricia.index == old(patricia.index)
    ensures r != Raised(MissingKey) ==> state.journal == []
  {
    var mark, snap := state.TakeSnapshot();
    ghost var before, data := state.Val(), state.trie.data;
    assert state.shown == View(before) by { assert OpenState(Seal); }
    var ok := ValidateShape(state.aux.prevHeaders[0], block);
    if !ok {
      TakeBack(state, mark, snap, before, data);
      return Rejected;
    }
    var e, cached := ApplyTransactions(state, block.txs);
    if e == Some(ZeroField) {
      TakeBack(state, mark, snap, before, data);
      return Rejected;
    }
    if e.Some? { return Raised(e.value); }
    Finish(state, block, patricia, cached);
    r := Accepted;
  }

  /** The header and the collected changes of the index, once all transactions are applied. */
  method Finish(state: State, block: Block, patricia: PatriciaState, cached: Index)
    requires state.Valid() && cached == WriteAll(map[], block.txs)
    modifies state`aux, patricia
    ensures state.Valid() && patricia.index == WriteAll(old(patricia.index), block.txs)
    ensures state.aux == old(state.aux).(prevHeaders := [Shown(block.header)] + old(state.aux).prevHeaders)
  {
    DeferredWrites(patricia.index, map[], block.txs);
    assert patricia.index + map[] == patricia.index;
    state.SetAux(state.aux.(prevHeaders := [Shown(block.header)] + state.aux.prevHeaders));
    patricia.SetAll(cached);
    ghost var kept := state.Valid();
    assert kept;
  }

  /** The revert to a state with nothing pending, over a store that has grown since. */
  method TakeBack(state: State, mark: Mark, ghost snap: Snapshot, ghost before: Value, ghost data: NodeItems.Database)
    requires state.Valid() && Inv(before) && before.journal == [] && snap == TakeSnapshot(before)
    requires mark.length == snap.length && mark.aux == snap.aux && Named(state.trie.codec, data, mark.root, snap.root)
    requires data.Keys <= state.trie.data.Keys
    modifies state.Frame()
    ensures state.Valid() && state.shown == View(before) && state.aux == before.aux && state.journal == []
    ensures state.trie.data == old(state.trie.data)
  {
    RevertToClean(before, state.Val());
    NamedGrows(state.trie.codec, data, state.trie.data, mark.root, snap.root);
    var _ := state.Revert(mark, snap);
  }

  /** What validate_block checks against the parent state. */
  predicate BlockChecks(l: Ledger, parent: Header, block: Block) {
    && block.signer.Some? && block.signer != Some(NULL_ADDRESS)
    && WellFormed(block, parent)
    && forall i :: 0 <= i < |block.txs| ==> Validate(l, block.txs[i]) == None
  }

  /** ok is false where validate_block raises. */
  method ValidateBlock(state: State, block: Block) returns (ok: bool)
    requires state.Valid() && state.aux.prevHeaders != []
    modifies state`cache
    ensures state.Valid() && ok == BlockChecks(state.shown, state.aux.prevHeaders[0], block)
  {
    if block.signer == None || block.signer == Some(NULL_ADDRESS) { return false; }
    ok := ValidateShape(state.aux.prevHeaders[0], block);
    if !ok { return; }
    ghost var l := state.shown;
    for i := 0 to |block.txs|
      invariant state.Valid()
      invariant forall j :: 0 <= j < i ==> Validate(l, block.txs[j]) == None
    {
      var e := ValidateTransaction(state, block.txs[i]);
      if e.Some? { return false; }
    }
    ok := true;
  }

  method ApplyTransactions(state: State, txs: seq<Tx>) returns (e: Option<Error>, cached: Index)
    requires state.Valid()
    modifies state.Frame()
    ensures state.Valid() && state.aux == old(state.aux) && old(state.trie.data).Keys <= state.trie.data.Keys
    ensures match ApplyAll(old(state.shown), txs)
      case Complete(l) => e == None && state.shown == l && cached == WriteAll(map[], txs)
      case Stopped(l, i, error) => e == Some(error) && (error != MissingKey ==> state.shown == l)
    ensures old(state.journal) == [] && e != Some(MissingKey) ==> state.journal == []
  {
    ghost var l := state.shown;
    cached := map[];
    for i := 0 to |txs|
      invariant state.Valid() && state.aux == old(state.aux) && old(state.trie.data).Keys <= state.trie.data.Keys
      invariant old(state.journal) == [] ==> state.journal == []
      invariant ApplyAll(l, txs[..i]) == Complete(state.shown) && cached == WriteAll(map[], txs[..i])
    {
      OneMore(l, txs, i);
      e, cached := ApplyTransaction(state, txs[i], cached);
      if e.Some? { return; }
    }
    assert txs[..|txs|] == txs;
    e := None;
  }

  lemma OneMore(l: Ledger, txs: seq<Tx>, i: nat)
    requires i < |txs| && ApplyAll(l, txs[..i]).Complete?
    ensures var m := ApplyAll(l, txs[..i]).ledger;
      match Apply(m, txs[i])
      case Applied(r) => ApplyAll(l, txs[..i + 1]) == Complete(r)
      case Failed(e) => ApplyAll(l, txs) == Stopped(m, i, e)
    ensures WriteAll(map[], txs[..i + 1]) == Remember(WriteAll(map[], txs[..i]), txs[i])
  {
    assert txs[..i + 1] == txs[..i] + [txs[i]];
    ApplyAllThen(l, txs[..i], txs[i]);
    WriteAllThen(map[], txs[..i], txs[i]);
    if Apply(ApplyAll(l, txs[..i]).ledger, txs[i]).Failed? {
      StoppedStays(l, txs[..i + 1], txs[i + 1..]);
      assert txs == txs[..i + 1] + txs[i + 1..];
    }
  }

  /** A block that was validated against a consistent ledger is applied whole exactly if its senders
      differ, its allocations and delegations name a recipient and no locator record has a zero field.
      Else it is undone if a zero field stops it, and applied in part if something else does, unless
      that is its first transaction. */
  lemma ValidatedBlockIsWhole(l: Ledger, parent: Header, block: Block)
    requires Consistent(l) && BlockChecks(l, parent, block)
    ensures var run := ApplyAll(l, block.txs); var i := StopIndex(block.txs, {});
      && (run.Complete? <==> DistinctSenders(block.txs) && forall i :: 0 <= i < |block.txs| ==> Executable(block.txs[i]))
      && (run.Stopped? ==> i < |block.txs| && run.applied == i && (run.error == ZeroField <==> StopsOnZero(block.txs, i)))
      && (run.Stopped? ==> (run.ledger == l <==> i == 0))
  {
    var txs := block.txs;
    ValidBlockApplies(l, txs);
    forall i | 0 <= i < |txs| ensures ValidAt(l, txs[i]) { ConsistentValidAt(l, txs[i]); }
    RunOutcome(l, txs, {});
    if txs != [] && Executable(txs[0]) {
      ValidApplies(l, txs[0]);
      AfterApply(l, txs[0], txs[0].sender.value);
      NoncesGrow(Apply(l, txs[0]).ledger, txs[1..], txs[0].sender.value);
    }
  }

  /** The stop is at a zero field, of a sender that has not sent before. */
  predicate StopsOnZero(txs: seq<Tx>, i: nat)
    requires i < |txs|
  {
    HasZeroField(txs[i]) && txs[i].sender !in Senders(txs[..i])
  }

  lemma {:induction false} NoncesGrow(l: Ledger, txs: seq<Tx>, a: Address)
    ensures At(ApplyAll(l, txs).ledger, a).nonce >= At(l, a).nonce
    decreases |txs|
  {
    if txs != [] && Apply(l, txs[0]).Applied? {
      AfterApply(l, txs[0], a);
      NoncesGrow(Apply(l, txs[0]).ledger, txs[1..], a);
    }
  }
}
