/** The pool of pending transactions beside the chain (chain_service.py). */
module ChainServiceObject {
  import opened Networks
  import opened Ledger
  import opened Options
  import opened LedgerLaws
  import opened Blocks
  import opened BlockHeaders
  import opened PrefixIndex
  import opened StateValues
  import NodeItems
  import opened Stores
  import opened AccountTries
  import opened StateObject
  import opened ApplyObject
  import opened BlockApply
  import opened ChainHistory
  import opened ChainObject
  import opened PoolSelection

  datatype ServiceResult = Finished(chain: AddResult) | WrongFamily

  class ChainService {
    const chain: Chain
    var transactions: seq<Tx>

    constructor (chain: Chain)
      ensures this.chain == chain && transactions == []
    {
      this.chain, transactions := chain, [];
    }

    /** The head ledger is consistent and every pending transaction is valid at it. */
    ghost predicate Sound()
      reads this, chain, chain.state
    {
      Consistent(chain.state.shown) && forall tx :: tx in transactions ==> Validate(chain.state.shown, tx) == None
    }

    /** Everything that a run of the service changes. */
    ghost function Frame(): set<object> { chain.Frame() + {this} }

    method AddPendingTransaction(tx: Tx) returns (e: Option<Error>)
      requires chain.Valid()
      modifies this, chain.state`cache
      ensures chain.Valid() && e == Validate(chain.state.shown, tx)
      ensures transactions == if e == None then old(transactions) + [tx] else old(transactions)
      ensures old(Sound()) ==> Sound()
    {
      e := ValidateTransaction(chain.state, tx);
      if e == None { transactions := transactions + [tx]; }
    }

    /** The next block, without time queue and size limit; None if an exception leaves the method. It
        holds what applies in the order of the pool, unless a pending transaction raises in the middle
        of its writes. With a sound pool that is the selection, and the block passes validation once
        it is signed. */
    method CreateBlock(coinbase: Address, now: nat, extra: int) returns (block: Option<Block>)
      requires chain.Valid()
      modifies chain.state`cache
      ensures chain.Valid()
      ensures var l, number := chain.state.shown, chain.height + 1;
        var tried := Tried(l, transactions, number);
        && (tried.Some? ==>
              && block.Some? && block.value.txs == tried.value && ApplyAll(l, tried.value).Complete?
              && IsRoot(chain.state.trie.codec, block.value.header.stateRoot, ApplyAll(l, tried.value).ledger)
              && block.value.header.prevhash == chain.headHash && block.value.header.number == number
              && block.value.header.timestamp == now && block.value.header.coinbase == coinbase
              && block.value.header.extra == extra && block.value.header.txRoot == tried.value && block.value.signer == None
              && forall tx :: tx in tried.value ==> Fits(tx, number))
        && (Sound() ==>
              && tried == Some(Select(transactions, {}, number))
              && (forall i :: 0 <= i < |transactions| && FirstOfFamily(transactions, i) ==>
                    (transactions[i] in block.value.txs <==> transactions[i].net.Width() == if number % 2 == 0 then 32 else 128))
              && (chain.headHash.header.timestamp < now < 0x1_0000_0000_0000_0000_0000_0000_0000_0000_0000_0000_0000_0000_0000_0000_0000_0000 ==>
                    forall a :: a != NULL_ADDRESS ==>
                      BlockChecks(l, chain.state.aux.prevHeaders[0], block.value.(signer := Some(a)))))
    {
      var number := chain.state.aux.blockNumber + 1;
      var chosen := ChooseTransactions(number);
      ChoiceMeans(chain.state.shown, transactions, number);
      var root := CreateTries(chosen);
      if root == None { return None; }
      block := Some(Block(BlockHeader(chain.headHash, number, now, coinbase, chosen, root.value, extra), chosen, None));
    }

    /** Tries the pending transactions of the right family on a scratch copy of the head state. */
    method ChooseTransactions(number: nat) returns (chosen: seq<Tx>)
      requires chain.Valid()
      modifies chain.state`cache
      ensures chain.Valid()
      ensures var tried := Tried(chain.state.shown, transactions, number); tried.Some? ==> chosen == tried.value
    {
      var s := Scratch();
      assert s.Frame() !! chain.Frame() && s.Frame() !! chain.state.trie.db.Repr;
      TriedSame(chain.state.shown, s.shown, transactions, number);
      chosen := TryEach(s, transactions, number);
      ghost var kept := chain.Valid();
      assert kept;
    }

    /** A copy of the head state with a store of its own. */
    method Scratch() returns (s: State)
      requires chain.Valid()
      modifies chain.state`cache
      ensures chain.Valid() && s.Valid() && Same(chain.state.shown, s.shown)
      ensures fresh(s) && fresh(s.trie) && fresh(s.trie.db)
    {
      var alloc, vars := chain.state.ToSnapshot();
      chain.state.CodecFaithful();
      var store := new Db(null);
      s := State.FromSnapshot(chain.state.trie.codec, store, alloc, vars);
    }

    /** Applies the transactions to a clone of the head state for the state root. */
    method CreateTries(txs: seq<Tx>) returns (root: Option<NodeItems.Digest>)
      requires chain.Valid()
      ensures chain.Valid()
      ensures match ApplyAll(chain.state.shown, txs)
        case Complete(l) => root.Some? && IsRoot(chain.state.trie.codec, root.value, l)
        case Stopped(_, _, _) => root == None
    {
      var temp := CloneHead();
      assert temp.Frame() !! chain.Frame() && temp.Frame() !! chain.state.trie.db.Repr;
      var e, _ := ApplyTransactions(temp, txs);
      if e.Some? { return None; }
      temp.RootShows();
      root := Some(temp.trie.root);
      ghost var kept := chain.Valid();
      assert kept;
    }

    method CloneHead() returns (temp: State)
      requires chain.Valid()
      ensures fresh(temp) && fresh(temp.trie) && fresh(temp.trie.db) && temp.trie.codec == chain.state.trie.codec
      ensures temp.Valid() && temp.shown == chain.state.shown && temp.journal == []
    {
      EmptyJournalMeansUnmarked(chain.state.Val());
      temp := chain.state.Clone();
    }

    /** Adds a block of the right family to the chain. Whether or not the chain took it, the pool loses
        its transactions, and then every transaction that is not valid at the head. */
    method AddBlock(block: Block, now: nat) returns (r: ServiceResult)
      requires chain.Valid()
      modifies Frame()
      ensures r == WrongFamily <==> exists i :: 0 <= i < |block.txs| && !Fits(block.txs[i], block.header.number)
      ensures r == WrongFamily <==>
              exists tx :: tx in block.txs && (tx.net.Width() == 32) != (block.header.number % 2 == 0)
      ensures r == WrongFamily ==> chain.Valid() && transactions == old(transactions) && Unmoved(old(Head()))
      ensures r != WrongFamily ==>
                var l, parent := old(chain.state.shown), old(chain.state.aux).prevHeaders[0];
                && r.chain == AddOutcome(l, parent, block, now)
                && (r.chain == Added ==>
                      && ApplyAll(l, block.txs) == Complete(chain.state.shown)
                      && chain.height == old(chain.height) + 1 && chain.headHash == HashOf(block.header)
                      && chain.db == Extended(old(chain.db), block)
                      && chain.state.aux.prevHeaders == [Shown(block.header)] + old(chain.state.aux).prevHeaders
                      && chain.patricia.index == WriteAll(old(chain.patricia.index), block.txs))
                && (r.chain == Discarded || r.chain == Queued ==> Unmoved(old(Head())))
                && (!r.chain.Failing? ==>
                      && chain.Valid()
                      && transactions == StillValid(chain.state.shown, RemoveEach(old(transactions), block.txs)))
                && (r.chain.Failing? ==> transactions == old(transactions))
    {
      for i := 0 to |block.txs|
        invariant forall j :: 0 <= j < i ==> Fits(block.txs[j], block.header.number)
      {
        if !Fits(block.txs[i], block.header.number) {
          assert block.txs[i] in block.txs;
          return WrongFamily;
        }
      }
      var added := chain.AddBlock(block, now);
      r := Finished(added);
      if added.Failing? { return; }
      DropAdded(block.txs);
      Purge();
    }

    /** Ledger, index, height and last header. */
    ghost function Head(): (Ledger, Index, nat, seq<Header>)
      reads chain, chain.state, chain.patricia
    {
      (chain.state.shown, chain.patricia.index, chain.height, chain.state.aux.prevHeaders)
    }

    ghost predicate Unmoved(before: (Ledger, Index, nat, seq<Header>))
      reads chain, chain.state, chain.patricia
    {
      Head() == before
    }

    method DropAdded(txs: seq<Tx>)
      modifies this`transactions
      ensures transactions == RemoveEach(old(transactions), txs)
    {
      for i := 0 to |txs|
        invariant RemoveEach(transactions, txs[i..]) == RemoveEach(old(transactions), txs)
      {
        assert txs[i..][0] == txs[i] && txs[i..][1..] == txs[i + 1..];
        if txs[i] in transactions {
          transactions := RemoveFirst(transactions, txs[i]);
        } else {
          RemoveAbsent(transactions, txs[i]);
        }
      }
    }

    /** Collects what is not valid any more, then removes it one by one. */
    method Purge()
      requires chain.Valid()
      modifies this`transactions, chain.state`cache
      ensures chain.Valid() && transactions == StillValid(chain.state.shown, old(transactions))
    {
      var invalid := FindInvalid(chain.state, transactions);
      PurgeLeavesValid(chain.state.shown, transactions);
      DropAll(invalid);
    }

    method DropAll(txs: seq<Tx>)
      modifies this`transactions
      ensures transactions == RemoveEach(old(transactions), txs)
    {
      for i := 0 to |txs|
        invariant RemoveEach(transactions, txs[i..]) == RemoveEach(old(transactions), txs)
      {
        assert txs[i..][0] == txs[i] && txs[i..][1..] == txs[i + 1..];
        transactions := RemoveFirst(transactions, txs[i]);
      }
    }
  }

  /** What the chain does with a block. */
  function AddOutcome(l: Ledger, parent: Header, block: Block, now: nat): AddResult {
    if !BlockChecks(l, parent, block) then Discarded
    else if block.header.timestamp > now then Queued
    else
      match ApplyAll(l, block.txs)
      case Complete(_) => Added
      case Stopped(_, _, e) => Failing(e)
  }

  method FindInvalid(state: State, pool: seq<Tx>) returns (invalid: seq<Tx>)
    requires state.Valid()
    modifies state`cache
    ensures state.Valid() && invalid == Invalid(state.shown, pool)
  {
    ghost var l := state.shown;
    invalid := [];
    for i := 0 to |pool|
      invariant state.Valid() && invalid + Invalid(l, pool[i..]) == Invalid(l, pool)
    {
      InvalidNext(l, pool, i);
      var e := ValidateTransaction(state, pool[i]);
      if e.Some? { invalid := invalid + [pool[i]]; }
    }
  }

  /** The loop over the pool: what applies goes into the block, what raises is passed over. */
  method TryEach(s: State, pool: seq<Tx>, number: nat) returns (chosen: seq<Tx>)
    requires s.Valid()
    modifies s.Frame()
    ensures var tried := Tried(old(s.shown), pool, number); tried.Some? ==> chosen == tried.value
  {
    chosen := [];
    ghost var tried := Tried(s.shown, pool, number);
    for i := 0 to |pool|
      invariant s.Valid()
      invariant tried.Some? ==> Tried(s.shown, pool[i..], number).Some?
      invariant tried.Some? ==> chosen + Tried(s.shown, pool[i..], number).value == tried.value
    {
      ghost var left := pool[i..];
      assert left[0] == pool[i] && left[1..] == pool[i + 1..];
      if Fits(pool[i], number) {
        var e, _ := ApplyTransaction(s, pool[i], map[]);
        if e == None { chosen := chosen + [pool[i]]; }
      }
    }
  }

  lemma ChoiceMeans(l: Ledger, pool: seq<Tx>, number: int)
    ensures var tried := Tried(l, pool, number);
      && (tried.Some? ==> ApplyAll(l, tried.value).Complete? && forall tx :: tx in tried.value ==> Fits(tx, number))
      && (Consistent(l) && (forall tx :: tx in pool ==> Validate(l, tx) == None) ==>
            && tried == Some(Select(pool, {}, number))
            && (forall tx :: tx in tried.value ==> Validate(l, tx) == None)
            && forall i :: 0 <= i < |pool| && FirstOfFamily(pool, i) ==>
                 (pool[i] in tried.value <==> pool[i].net.Width() == if number % 2 == 0 then 32 else 128))
  {
    if Tried(l, pool, number).Some? { TriedApplies(l, pool, number); }
    if Consistent(l) && forall tx :: tx in pool ==> Validate(l, tx) == None {
      forall i | 0 <= i < |pool| ensures ValidAt(l, pool[i]) {
        assert pool[i] in pool;
        ConsistentValidAt(l, pool[i]);
      }
      TriedIsSelection(l, pool, {}, number);
      SelectionIsValidBlock(l, pool, number);
      forall i | 0 <= i < |pool| && FirstOfFamily(pool, i)
        ensures pool[i] in Select(pool, {}, number) <==> pool[i].net.Width() == if number % 2 == 0 then 32 else 128
      {
        FamilyRule(pool, number, i);
      }
    }
  }

  /** Every cleanly accepted or rejected block leaves a valid pool, whatever was pending before, and a
      consistent ledger stays consistent if the block's transfers are to others. */
  method ProcessBlock(service: ChainService, block: Block, now: nat) returns (r: ServiceResult)
    requires service.chain.Valid()
    modifies service.Frame()
    ensures r != WrongFamily && !r.chain.Failing? ==>
              && service.chain.Valid()
              && (forall tx :: tx in service.transactions ==> Validate(service.chain.state.shown, tx) == None)
              && (old(Consistent(service.chain.state.shown)) && (forall tx :: tx in block.txs ==> ToOther(tx)) ==> service.Sound())
  {
    ghost var l, pool := service.chain.state.shown, service.transactions;
    r := service.AddBlock(block, now);
    if r != WrongFamily && !r.chain.Failing? {
      ghost var l' := service.chain.state.shown;
      forall tx | tx in service.transactions ensures Validate(l', tx) == None {
        InvalidAre(l', RemoveEach(pool, block.txs), tx);
      }
      if r.chain == Added && Consistent(l) && forall tx :: tx in block.txs ==> ToOther(tx) { ReachableLedger(l, block.txs, l'); }
    }
  }

  /** A block made from a sound pool is always taken by the chain it was made for, and the state it
      leaves is the one a reload of the chain shows. */
  method CreateAndAdd(service: ChainService, coinbase: Address, now: nat, signer: Address, extra: int) returns (reloaded: State)
    requires service.chain.Valid() && service.Sound()
    requires now < 0x1_0000_0000_0000_0000_0000_0000_0000_0000_0000_0000_0000_0000_0000_0000_0000_0000
    requires service.chain.headHash.header.timestamp < now && signer != NULL_ADDRESS
    modifies service.Frame()
    ensures service.chain.Valid() && service.chain.height == old(service.chain.height) + 1
    ensures ApplyAll(old(service.chain.state.shown), Select(old(service.transactions), {}, service.chain.height))
         == Complete(service.chain.state.shown)
    ensures reloaded.shown == service.chain.state.shown
    ensures reloaded.aux.blockNumber == service.chain.height && reloaded.aux.timestamp == now && reloaded.aux.coinbase == coinbase
    ensures reloaded.aux.txIndex == |Select(old(service.transactions), {}, service.chain.height)|
  {
    var created := service.CreateBlock(coinbase, now, extra);
    var block := created.value.(signer := Some(signer));
    reloaded := AddAndReload(service, block, now);
  }

  /** Adding a block that passes all checks and applies, and whose header has the right state root. */
  method AddAndReload(service: ChainService, block: Block, now: nat) returns (reloaded: State)
    requires service.chain.Valid() && block.header.timestamp <= now
    requires forall tx :: tx in block.txs ==> Fits(tx, block.header.number)
    requires BlockChecks(service.chain.state.shown, service.chain.state.aux.prevHeaders[0], block)
    requires ApplyAll(service.chain.state.shown, block.txs).Complete?
    requires IsRoot(service.chain.state.trie.codec, block.header.stateRoot, ApplyAll(service.chain.state.shown, block.txs).ledger)
    modifies service.Frame()
    ensures service.chain.Valid() && service.chain.height == old(service.chain.height) + 1
    ensures Complete(service.chain.state.shown) == ApplyAll(old(service.chain.state.shown), block.txs)
    ensures reloaded.shown == service.chain.state.shown && service.chain.VariablesOf(reloaded, block)
  {
    assert forall i :: 0 <= i < |block.txs| ==> block.txs[i] in block.txs;
    var _ := service.AddBlock(block, now);
    assert service.chain.db.blocks[service.chain.headHash] == block;
    service.chain.ReloadShowsHead(block.header.stateRoot);
    reloaded := service.chain.Reload(service.chain.state.shown);
  }
}
