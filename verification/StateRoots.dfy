/** The state root in a header is never compared with the state that a block leaves: what a reload of
    the chain shows depends on who made the block. */
module StateRoots {
  import opened Ledger
  import opened Options
  import opened LedgerLaws
  import opened BlockHeaders
  import opened NodeItems
  import opened Trie
  import opened AccountTries
  import opened StateObject
  import opened BlockApply
  import opened ChainHistory
  import opened ChainObject

  /** Adds a block. Afterwards a reload can show the head ledger exactly if the header has the root of
      the ledger that applying the block's transactions gives, which can be checked beforehand. */
  method AddForReload(chain: Chain, block: Block, now: nat) returns (r: AddResult)
    requires chain.Valid()
    modifies chain.Frame()
    ensures r == Added <==>
            && BlockChecks(old(chain.state.shown), old(chain.state.aux).prevHeaders[0], block)
            && block.header.timestamp <= now && ApplyAll(old(chain.state.shown), block.txs).Complete?
    ensures r == Added ==> chain.Valid() && chain.headHash == HashOf(block.header)
    ensures r == Added ==>
              (Named(chain.state.trie.codec, chain.state.trie.data, block.header.stateRoot, chain.state.shown) <==>
               IsRoot(chain.state.trie.codec, block.header.stateRoot, ApplyAll(old(chain.state.shown), block.txs).ledger))
  {
    r := chain.AddBlock(block, now);
    if r == Added { chain.ReloadShowsHead(block.header.stateRoot); }
  }

  const NO_ROOT := Sha3(Text([1]))

  lemma NoRootNamesNothing(c: Codec, l: Ledger)
    ensures !IsRoot(c, NO_ROOT, l)
  {
    forall t | Wf(t) ensures RootHash(t) != NO_ROOT { assert NodeItem(t) != Text([1]); }
  }

  /** At every head a block with a root that names nothing is added, and no reload shows its ledger. */
  method AddWrongRoot(chain: Chain, now: nat, signer: Address)
    requires chain.Valid() && chain.state.aux.prevHeaders[0].timestamp < now < TIME_LIMIT && signer != NULL_ADDRESS
    modifies chain.Frame()
    ensures chain.Valid() && chain.height == old(chain.height) + 1 && chain.state.shown == old(chain.state.shown)
    ensures !Named(chain.state.trie.codec, chain.state.trie.data, chain.headHash.header.stateRoot, chain.state.shown)
  {
    var header := BlockHeader(chain.headHash, chain.state.aux.blockNumber + 1, now, 0, [], NO_ROOT, 0);
    var r := chain.AddBlock(Block(header, [], Some(signer)), now);
    chain.ReloadShowsHead(NO_ROOT);
    NoRootNamesNothing(chain.state.trie.codec, chain.state.shown);
  }
}
