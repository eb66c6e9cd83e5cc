/** The first state of a chain (state_from_genesis_declaration, and the constructor of chain.py). */
module GenesisState {
  import opened Networks
  import opened Ledger
  import opened LedgerLaws
  import opened BlockHeaders
  import opened PrefixIndex
  import opened IndexLaws
  import opened StateValues
  import opened BalanceObject
  import NodeItems
  import opened Stores
  import opened AccountTries
  import opened StateObject
  import opened BlockApply
  import opened ChainHistory
  import opened ChainObject

  lemma DeclareStep(alloc: map<Address, set<Ip>>, todo: set<Address>, a: Address)
    requires a in todo && todo <= alloc.Keys
    ensures WithBalance(Genesis(alloc) - todo, a, Owning(alloc[a])) == Genesis(alloc) - (todo - {a})
  {
  }

  /** Sets the declared balances, account by account. */
  method Declare(s: State, alloc: map<Address, set<Ip>>)
    requires s.Valid() && s.shown == map[]
    modifies s`cache, s`journal, s`shown
    ensures s.Valid() && s.shown == Genesis(alloc)
  {
    var todo := alloc.Keys;
    assert Genesis(alloc).Keys == alloc.Keys;
    while todo != {}
      invariant s.Valid() && todo <= alloc.Keys && s.shown == Genesis(alloc) - todo
    {
      SomeAddress(todo);
      var a :| a in todo;
      DeclareStep(alloc, todo, a);
      var b := new Balance(Owning(alloc[a]));
      s.SetBalance(a, b);
      todo := todo - {a};
    }
    assert Genesis(alloc) - todo == Genesis(alloc);
  }

  method StateFromGenesis(codec: Codec, decl: Declaration, header: BlockHeader) returns (s: State)
    requires Faithful(codec)
    ensures fresh(s) && fresh(s.trie) && fresh(s.trie.db) && s.Valid() && s.journal == []
    ensures s.shown == Genesis(Declared(decl)) && s.aux == Aux(0, 0, 0, 0, [Shown(header)])
  {
    var store := new Db(null);
    s := new State(codec, store, STATE_DEFAULTS, map[]);
    Declare(s, Declared(decl));
    s.Commit();
    s.SetAux(STATE_DEFAULTS.(prevHeaders := [Shown(header)]));
  }

  /** The entries of the first index: every declared network, for the account that comes last. */
  method FirstIndex(decl: Declaration) returns (index: Index)
    ensures Indexes(index, decl)
  {
    index := map[];
    var todo := decl.Keys;
    while todo != {}
      invariant todo <= decl.Keys
      invariant forall net :: net in index ==> index[net] in decl && net in decl[index[net]]
      invariant forall a, net :: a in decl && a !in todo && net in decl[a] ==> net in index
    {
      SomeAddress(todo);
      var a :| a in todo;
      index := index + map net | net in decl[a] :: a;
      todo := todo - {a};
    }
  }

  lemma DeclaredAccounts(decl: Declaration)
    ensures var l := Genesis(Declared(decl));
      forall a ::
        && At(l, a).nonce == 0 && (forall ip :: ip in Own(l, a) <==> DeclaredFor(decl, a, ip))
        && Delegated(l, a) == Received(l, a) == map[]
        && At(l, a).balance.mapServers == map[] && At(l, a).balance.locators == map[]
  {
    var l := Genesis(Declared(decl));
    forall a, ip ensures ip in Own(l, a) <==> DeclaredFor(decl, a, ip) {
      if DeclaredFor(decl, a, ip) {
        var net :| net in decl[a] && net.Contains(ip);
        assert ip in Members(net) && ip in Declared(decl)[a];
      }
    }
  }

  /** A new chain. If no address is declared for two accounts, its ledger is consistent and its index
      names the holders; otherwise the index does not. */
  method StartChain(codec: Codec, decl: Declaration, header: BlockHeader) returns (chain: Chain)
    requires Faithful(codec) && IsGenesis(header)
    ensures fresh(chain) && fresh(chain.state) && fresh(chain.state.trie) && fresh(chain.state.trie.db) && fresh(chain.patricia)
    ensures chain.Valid() && chain.height == 0 && chain.state.shown == Genesis(Declared(decl))
    ensures chain.headHash == HashOf(header) && chain.state.aux.prevHeaders == [Shown(header)]
    ensures Indexes(chain.patricia.index, decl)
    ensures Agrees(chain.state.shown, chain.patricia.index) <==> DeclaredOnce(decl)
    ensures DeclaredOnce(decl) ==> Consistent(chain.state.shown)
    ensures forall a ::
              && At(chain.state.shown, a).nonce == 0
              && (forall ip :: ip in Own(chain.state.shown, a) <==> DeclaredFor(decl, a, ip))
              && Delegated(chain.state.shown, a) == Received(chain.state.shown, a) == map[]
              && At(chain.state.shown, a).balance.mapServers == map[] && At(chain.state.shown, a).balance.locators == map[]
  {
    var s := StateFromGenesis(codec, decl, header);
    var index := FirstIndex(decl);
    var patricia := new PatriciaState();
    patricia.SetAll(index);
    ghost var kept := s.Valid();
    assert kept;
    chain := new Chain(s, patricia, header);
    assert map[] + index == index;
    GenesisAgrees(decl, index);
    if DeclaredOnce(decl) { DeclaredDisjoint(decl); }
    DeclaredAccounts(decl);
  }
}
