/** The chain object of chain.py: a state at the head of a stored chain. */
module ChainObject {
  import opened Ledger
  import opened LedgerLaws
  import opened BlockHeaders
  import opened PrefixIndex
  import opened StateValues
  import NodeItems
  import opened Stores
  import opened AccountTries
  import opened StateObject
  import opened BlockApply
  import opened ChainHistory

  datatype AddResult =
    | Added
    | Discarded            // validation failed: add_block returns False
    | Queued               // the block is from the future: set aside
    | Failing(error: Error) // a transaction exception leaves add_block

  class Chain {
    const state: State
    const patricia: PatriciaState
    var db: ChainDb
    var headHash: Hash
    ghost var height: nat

    /** The head state shows the ledger that the last header list belongs to, with nothing pending. */
    ghost predicate Valid()
      reads this, state, state.trie, state.trie.db, state.trie.db.Repr
    {
      && state.Valid() && state.journal == []
      && AtHead(db, headHash, height, state.aux)
    }

    /** Everything that a run of the chain changes. */
    ghost function Frame(): set<object> { state.Frame() + {this, patricia} }

    /** The chain over a genesis state. */
    constructor (state: State, patricia: PatriciaState, genesis: BlockHeader)
      requires state.Valid() && state.journal == [] && IsGenesis(genesis)
      requires state.aux.prevHeaders == [Shown(genesis)] && state.aux.blockNumber == 0
      modifies state`cache
      ensures Valid() && height == 0 && this.state == state && this.patricia == patricia
      ensures db == ChainDb(genesis, db.alloc, map[], map[0 := HashOf(genesis)], map[])
      ensures headHash == HashOf(genesis) && forall a :: At(db.alloc, a) == At(state.shown, a)
    {
      var alloc, _ := state.ToSnapshot();
      this.state, this.patricia := state, patricia;
      db := ChainDb(genesis, alloc, map[], map[0 := HashOf(genesis)], map[]);
      headHash, height := HashOf(genesis), 0;
    }

    /** Validates the block against the head and applies it. The ledger, the index, the records and
        the header list change together, unless a transaction of a validated block fails. A zero field
        fails without a trace, anything else after the transactions before it. */
    method AddBlock(block: Block, now: nat) returns (r: AddResult)
      requires Valid()
      modifies Frame()
      ensures var l := old(state.shown);
        if !BlockChecks(l, old(state.aux).prevHeaders[0], block) || block.header.timestamp > now then
          && r == (if BlockChecks(l, old(state.aux).prevHeaders[0], block) then Queued else Discarded)
          && Valid() && state.shown == l && state.aux == old(state.aux)
          && db == old(db) && height == old(height) && patricia.index == old(patricia.index)
        else
          match ApplyAll(l, block.txs)
          case Complete(l') =>
            && r == Added && Valid() && state.shown == l'
            && db == Extended(old(db), block) && height == old(height) + 1 && headHash == HashOf(block.header)
            && state.aux.prevHeaders == [Shown(block.header)] + old(state.aux).prevHeaders
            && state.aux == old(state.aux).(prevHeaders := state.aux.prevHeaders, blockNumber := height)
            && db.genesis == old(db).genesis && db.alloc == old(db).alloc
            && patricia.index == WriteAll(old(patricia.index), block.txs)
          case Stopped(l', i, e) =>
            && r == Failing(e) && db == old(db) && height == old(height) && patricia.index == old(patricia.index)
            && (e != MissingKey ==> Valid() && state.shown == if e == ZeroField then l else l')
    {
      var ok := ValidateBlock(state, block);
      if !ok { return Discarded; }
      if block.header.timestamp > now { return Queued; }
      assert block.header.prevhash == headHash;
      ghost var aux := state.aux;
      var applied := ApplyBlock(state, block, patricia);
      if applied.Rejected? { return Failing(ZeroField); }
      if applied.Raised? { return Failing(applied.error); }
      Extend(block, aux);
      r := Added;
    }

    /** The records after a block was applied to the state. */
    method Extend(block: Block, ghost aux: Aux)
      requires state.Valid() && state.journal == []
      requires AtHead(db, headHash, height, aux) && Follows(block.header, aux.prevHeaders[0]) && Signed(block)
      requires state.aux == aux.(prevHeaders := [Shown(block.header)] + aux.prevHeaders)
      modifies this, state`aux
      ensures Valid() && state.aux == AtNext(aux, block)
      ensures db == Extended(old(db), block) && height == old(height) + 1 && headHash == HashOf(block.header)
    {
      AtHeadGrows(db, headHash, height, aux, block);
      Record(block);
      height := height + 1;
      state.SetAux(state.aux.(blockNumber := block.header.number));
    }

    /** A state for the head from what is stored: the accounts l that the head's header names, or the
        genesis snapshot, and the headers back to genesis or to the depth limit. A root that the store
        does not have raises. */
    method Reload(ghost l: Ledger) returns (s: State)
      requires Valid()
      requires height > 0 ==> Named(state.trie.codec, state.trie.data, headHash.header.stateRoot, l)
      ensures Valid() && fresh(s) && s.Valid() && s.journal == []
      ensures s.shown == if height == 0 then db.alloc else l
      ensures s.aux.prevHeaders == Truncated(state.aux.prevHeaders, PREV_HEADER_DEPTH + 1)
      ensures |s.aux.prevHeaders| == if height >= 256 then 257 else height + 1
      ensures s.aux.blockNumber == height
      ensures if height == 0 then s.aux.txIndex == s.aux.coinbase == s.aux.timestamp == 0
              else headHash in db.blocks && VariablesOf(s, db.blocks[headHash])
    {
      assert height > 0 ==> Linked(db, height);
      RecallsLength(db, height, state.aux.prevHeaders);
      if headHash !in db.blocks {
        s := FromGenesis();
        return;
      }
      var head := db.blocks[headHash];
      var headers := HeadersBack(db, height, head);
      var aux := Aux(|head.txs|, head.header.number, head.header.coinbase, head.header.timestamp, headers);
      s := state.Beside(aux, head.header.stateRoot, l);
    }

    /** The variables of the state are those of the block. */
    ghost predicate VariablesOf(s: State, block: Block)
      reads s
    {
      && s.aux.txIndex == |block.txs| && s.aux.blockNumber == block.header.number
      && s.aux.coinbase == block.header.coinbase && s.aux.timestamp == block.header.timestamp
    }

    method FromGenesis() returns (s: State)
      requires state.Valid()
      ensures fresh(s) && s.Valid() && s.journal == [] && s.shown == db.alloc
      ensures s.aux == STATE_DEFAULTS.(prevHeaders := [Shown(db.genesis)])
    {
      state.CodecFaithful();
      var store := new Db(null);
      s := State.FromSnapshot(state.trie.codec, store, db.alloc, STATE_DEFAULTS.(prevHeaders := [Shown(db.genesis)]));
    }

    /** A reload shows the head ledger exactly if the header's root is the root of that ledger. */
    lemma ReloadShowsHead(h: NodeItems.Digest)
      requires Valid()
      ensures Named(state.trie.codec, state.trie.data, h, state.shown) <==> IsRoot(state.trie.codec, h, state.shown)
    {
      state.RootShows();
      if IsRoot(state.trie.codec, h, state.shown) {
        RootsNameLedgers(state.trie.codec, h, state.shown, state.trie.root, state.shown);
      }
      if Named(state.trie.codec, state.trie.data, h, state.shown) {
        NamedGrows(state.trie.codec, state.trie.data, state.trie.data, h, state.shown);
      }
    }

    /** Stores a block, its number and the places of its transactions, and makes it the head. */
    method Record(block: Block)
      modifies this`db, this`headHash
      ensures db == Extended(old(db), block) && headHash == HashOf(block.header)
    {
      var hash := HashOf(block.header);
      db := db.(numbers := db.numbers[block.header.number := hash]);
      headHash := hash;
      for i := 0 to |block.txs|
        invariant headHash == hash
        invariant db == ChainDb(old(db).genesis, old(db).alloc, old(db).blocks, old(db).numbers[block.header.number := hash],
                                PlaceAll(old(db).places, block.header.number, block.txs[..i]))
      {
        assert block.txs[..i + 1][..i] == block.txs[..i];
        db := db.(places := db.places[block.txs[i] := Place(block.header.number, i)]);
      }
      assert block.txs[..|block.txs|] == block.txs;
      db := db.(blocks := db.blocks[hash := block]);
    }
  }

  /** The headers from a block back to genesis or to the depth limit, read from what is stored. */
  method HeadersBack(db: ChainDb, ghost n: nat, head: Block) returns (headers: seq<Header>)
    requires Linear(db, n) && n > 0 && db.numbers[n] in db.blocks && head == db.blocks[db.numbers[n]]
    ensures forall k :: 0 <= k <= n ==> k in db.numbers && db.numbers[k].HashOf?
    ensures headers == Truncated(HeadersDown(db, n), PREV_HEADER_DEPTH + 1)
  {
    AllHashes(db, n);
    ghost var all := HeadersDown(db, n);
    headers := [];
    var b, i := head, 0;
    StepBack(db, n, 0);
    while true
      invariant 0 <= i <= PREV_HEADER_DEPTH && i < n
      invariant b.header == db.numbers[n - i].header
      invariant headers == all[..i]
      decreases n - i
    {
      StepBack(db, n, i);
      headers := headers + [Shown(b.header)];
      if b.header.prevhash !in db.blocks || i == PREV_HEADER_DEPTH { break; }
      b := db.blocks[b.header.prevhash];
      i := i + 1;
      StepBack(db, n, i);
    }
    if i < PREV_HEADER_DEPTH { headers := headers + [Shown(db.genesis)]; }
  }
}
