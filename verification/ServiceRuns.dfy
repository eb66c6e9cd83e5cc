/** Whole runs of the service: transactions that are submitted, blocks that arrive or are created. */
module ServiceRuns {
  import opened Networks
  import opened Ledger
  import opened Options
  import opened LedgerLaws
  import opened Blocks
  import opened BlockHeaders
  import opened PrefixIndex
  import opened IndexLaws
  import opened StateValues
  import opened AccountTries
  import opened StateObject
  import opened BlockApply
  import opened ChainHistory
  import opened ChainObject
  import opened PoolSelection
  import opened ChainServiceObject
  import GenesisState

  datatype Event =
    | Submit(tx: Tx)
    | Deliver(block: Block, now: nat)
    | Create(coinbase: Address, now: nat, extra: int)

  // ----- What a run does -----

  /** Ledger, index and last header at some point of a run. */
  datatype Moment = Moment(ledger: Ledger, index: Index, parent: Header)

  /** The block is of one family and passes every check of the chain. */
  predicate Passes(m: Moment, block: Block, now: nat) {
    && (forall i :: 0 <= i < |block.txs| ==> Fits(block.txs[i], block.header.number))
    && BlockChecks(m.ledger, m.parent, block) && block.header.timestamp <= now
  }

  predicate Adds(m: Moment, e: Event) {
    e.Deliver? && Passes(m, e.block, e.now) && ApplyAll(m.ledger, e.block.txs).Complete?
  }

  function AfterEvent(m: Moment, e: Event): Moment {
    if Adds(m, e) then
      Moment(ApplyAll(m.ledger, e.block.txs).ledger, WriteAll(m.index, e.block.txs), Shown(e.block.header))
    else m
  }

  function AfterEvents(m: Moment, events: seq<Event>): Moment
    decreases |events|
  {
    if events == [] then m
    else AfterEvent(AfterEvents(m, events[..|events| - 1]), events[|events| - 1])
  }

  /** Distinct senders, all transactions executable, and none to its own sender: what validation does
      not check of a block. */
  predicate Proper(block: Block) {
    DistinctSenders(block.txs) && forall tx :: tx in block.txs ==> Executable(tx) && ToOther(tx)
  }

  /** Every delivered block that passes the checks is proper. Blocks that are turned down may be
      anything. */
  predicate ProperRun(m: Moment, events: seq<Event>)
    decreases |events|
  {
    events == [] ||
    var front, e := events[..|events| - 1], events[|events| - 1];
    ProperRun(m, front) && (e.Deliver? && Passes(AfterEvents(m, front), e.block, e.now) ==> Proper(e.block))
  }

  /** No write to the index is shielded in any block that is added. */
  ghost predicate ClearRun(m: Moment, events: seq<Event>)
    decreases |events|
  {
    events == [] ||
    var front, e := events[..|events| - 1], events[|events| - 1];
    ClearRun(m, front) && (Adds(AfterEvents(m, front), e) ==> Unshielded(AfterEvents(m, front).index, e.block.txs))
  }

  /** The ledger stays consistent over the same addresses, and the index names the holders as long as
      no write is shielded. */
  lemma {:induction false} RunKeeps(m: Moment, events: seq<Event>)
    requires Consistent(m.ledger) && ProperRun(m, events)
    ensures var r := AfterEvents(m, events);
      && Consistent(r.ledger) && TotalOwned(r.ledger) == TotalOwned(m.ledger)
      && (Agrees(m.ledger, m.index) && ClearRun(m, events) ==> Agrees(r.ledger, r.index))
    decreases |events|
  {
    if events != [] {
      var front, e := events[..|events| - 1], events[|events| - 1];
      RunKeeps(m, front);
      var before := AfterEvents(m, front);
      if Adds(before, e) {
        var l' := ApplyAll(before.ledger, e.block.txs).ledger;
        ReachableLedger(before.ledger, e.block.txs, l');
        if Agrees(before.ledger, before.index) && Unshielded(before.index, e.block.txs) {
          RunKeepsAgreement(before.ledger, e.block.txs, l', before.index);
        }
      }
    }
  }

  // ----- The service does it -----

  ghost function Now(service: ChainService): Moment
    requires service.chain.Valid()
    reads service.chain, service.chain.state, service.chain.state.trie, service.chain.state.trie.db
    reads service.chain.state.trie.db.Repr, service.chain.patricia
  {
    Moment(service.chain.state.shown, service.chain.patricia.index, service.chain.state.aux.prevHeaders[0])
  }

  method DeliverBlock(service: ChainService, block: Block, now: nat)
    requires service.chain.Valid() && service.Sound()
    requires Passes(Now(service), block, now) ==> Proper(block)
    modifies service.Frame()
    ensures service.chain.Valid() && service.Sound()
    ensures Now(service) == AfterEvent(old(Now(service)), Deliver(block, now))
  {
    ghost var m, pool := Now(service), service.transactions;
    if Passes(m, block, now) { ProperApplies(m.ledger, m.parent, block); }
    var r := service.AddBlock(block, now);
    ghost var l' := service.chain.state.shown;
    if r != WrongFamily {
      forall tx | tx in service.transactions ensures Validate(l', tx) == None {
        InvalidAre(l', RemoveEach(pool, block.txs), tx);
      }
    }
    if r == Finished(Added) { ReachableLedger(m.ledger, block.txs, l'); }
  }

  /** A proper block never makes the chain fail. */
  lemma ProperApplies(l: Ledger, parent: Header, block: Block)
    requires Consistent(l) && Proper(block) && BlockChecks(l, parent, block)
    ensures ApplyAll(l, block.txs).Complete?
  {
    forall i | 0 <= i < |block.txs| ensures Executable(block.txs[i]) { assert block.txs[i] in block.txs; }
    ValidBlockApplies(l, block.txs);
  }

  /** A run of any events, in whatever order. */
  method Serve(service: ChainService, events: seq<Event>)
    requires service.chain.Valid() && service.Sound() && ProperRun(Now(service), events)
    modifies service.Frame()
    ensures service.chain.Valid() && service.Sound() && Now(service) == AfterEvents(old(Now(service)), events)
  {
    ghost var m := Now(service);
    for i := 0 to |events|
      invariant service.chain.Valid() && service.Sound() && Now(service) == AfterEvents(m, events[..i])
    {
      assert events[..i + 1][..i] == events[..i];
      ProperSoFar(m, events, i + 1);
      match events[i]
      case Submit(tx) => var _ := service.AddPendingTransaction(tx);
      case Create(coinbase, now, extra) => var _ := service.CreateBlock(coinbase, now, extra);
      case Deliver(block, now) => DeliverBlock(service, block, now);
    }
    assert events[..|events|] == events;
  }

  lemma {:induction false} ProperSoFar(m: Moment, events: seq<Event>, i: nat)
    requires ProperRun(m, events) && i <= |events|
    ensures ProperRun(m, events[..i])
    decreases |events|
  {
    if i < |events| {
      ProperSoFar(m, events[..|events| - 1], i);
      assert events[..|events| - 1][..i] == events[..i];
    } else {
      assert events[..i] == events;
    }
  }

  /** Every run of a service from a declaration of each address for one account: the ledger owns what
      was declared, the pool is valid at the head, and unless a write was shielded the index names
      every holder. */
  method ServeFromGenesis(codec: Codec, decl: Declaration, header: BlockHeader, events: seq<Event>, ghost first: Index)
    returns (service: ChainService)
    requires Faithful(codec) && IsGenesis(header) && DeclaredOnce(decl) && Indexes(first, decl)
    requires ProperRun(Moment(Genesis(Declared(decl)), first, Shown(header)), events)
    ensures service.chain.Valid() && service.Sound()
    ensures TotalOwned(service.chain.state.shown) == TotalOwned(Genesis(Declared(decl)))
    ensures var m := Moment(Genesis(Declared(decl)), first, Shown(header));
      && Now(service) == AfterEvents(m, events)
      && (ClearRun(m, events) ==> Agrees(service.chain.state.shown, service.chain.patricia.index))
  {
    var chain := GenesisState.StartChain(codec, decl, header);
    service := new ChainService(chain);
    OneIndex(decl, first, chain.patricia.index);
    RunKeeps(Now(service), events);
    Serve(service, events);
  }

  lemma OneIndex(decl: Declaration, i: Index, j: Index)
    requires DeclaredOnce(decl) && Indexes(i, decl) && Indexes(j, decl)
    ensures i == j
  {
    forall net ensures (net in i <==> net in j) && (net in i ==> i[net] == j[net]) { SameEntry(decl, i, j, net); }
  }

  lemma SameEntry(decl: Declaration, i: Index, j: Index, net: Net)
    requires DeclaredOnce(decl) && Indexes(i, decl) && Indexes(j, decl)
    ensures (net in i <==> net in j) && (net in i ==> i[net] == j[net])
  {
    assert net in i ==> i[net] in decl && net in decl[i[net]];
    assert net in j ==> j[net] in decl && net in decl[j[net]];
    forall a | a in decl && net in decl[a] ensures net in i && net in j {}
    if net in i {
      var members := Members(net);
      var ip :| ip in members;
      assert DeclaredFor(decl, i[net], ip) && DeclaredFor(decl, j[net], ip);
    }
  }
}
