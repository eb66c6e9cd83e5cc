/** The state object of state.py over its account trie. Each method does to the object what the
    function of the same name in StateValues does to its value. */
module StateObject {
  import opened Ledger
  import opened Options
  import opened BlockHeaders
  import NodeItems
  import opened StateValues
  import opened StateRuns
  import opened BalanceObject
  import opened Stores
  import opened AccountTries
  import opened Sealed

  const STATE_DEFAULTS := Aux(0, 0, 0, 0, [])

  /** Looks into `State.Valid`. */
  predicate OpenState(s: Seal) { true }

  /** What `snapshot` keeps: the root, the length of the journal and the variables. */
  datatype Mark = Mark(root: NodeItems.Digest, length: nat, aux: Aux)

  class State {
    const trie: AccountTrie
    var cache: Cache
    var journal: seq<Undo>
    var aux: Aux
    var changed: set<Address>
    /** The accounts as they can be read. */
    ghost var shown: Ledger

    ghost function Val(): Value
      reads this, trie
    {
      Value(trie.accounts, cache, journal, aux)
    }

    ghost predicate Valid()
      reads this, trie, trie.db, trie.db.Repr
    {
      Inv(Val()) && forall s: Seal :: OpenState(s) ==> trie.Valid() && shown == View(Val())
    }

    lemma CodecFaithful()
      requires Valid()
      ensures Faithful(trie.codec)
    {
      assert OpenState(Seal);
      trie.RootReads();
    }

    /** Everything that a run on this state changes. */
    ghost function Frame(): set<object> { {this, trie, trie.db} }

    constructor (codec: Codec, db: NodeDb, aux: Aux, ghost data: NodeItems.Database)
      requires Faithful(codec) && db.Valid() && db.Shown() == data && NodeItems.ContentAddressed(data)
      ensures Valid() && Val() == Value(map[], map[], [], aux) && shown == map[] && changed == {}
      ensures fresh(trie) && trie.codec == codec && trie.db == db && trie.data == data
    {
      trie := new AccountTrie(codec, db, data);
      cache, journal, this.aux, changed, shown := map[], [], aux, {}, map[];
      new;
      assert Touched(cache) == map[];
    }

    method GetAndCacheAccount(a: Address) returns (account: Account)
      requires Valid()
      modifies this`cache
      ensures Valid() && Val() == Load(old(Val()), a)
      ensures account == At(shown, a) && a in cache && cache[a].account == account
    {
      assert OpenState(Seal);
      ghost var before := Val();
      LoadKeeps(before, a);
      ReadIsView(before, a);
      if a !in cache {
        var stored := trie.Get(a);
        cache := cache[a := Cached(if stored.Some? then stored.value else BLANK_ACCOUNT, false)];
      }
      account := cache[a].account;
    }

    /** A fresh copy: changing it changes nothing here. */
    method GetBalance(a: Address) returns (b: Balance)
      requires Valid()
      modifies this`cache
      ensures Valid() && Val() == Load(old(Val()), a)
      ensures fresh(b) && b.Value() == At(shown, a).balance
    {
      var account := GetAndCacheAccount(a);
      b := new Balance(account.balance);
    }

    method GetNonce(a: Address) returns (n: nat)
      requires Valid()
      modifies this`cache
      ensures Valid() && Val() == Load(old(Val()), a) && n == At(shown, a).nonce
    {
      var account := GetAndCacheAccount(a);
      n := account.nonce;
    }

    method SetBalance(a: Address, b: Balance)
      requires Valid()
      modifies this`cache, this`journal, this`shown
      ensures Valid() && Val() == StateValues.SetBalance(old(Val()), a, b.Value())
      ensures shown == WithBalance(old(shown), a, b.Value())
    {
      assert OpenState(Seal);
      SettersKeep(Val(), a, b.Value(), 0);
      var account := GetAndCacheAccount(a);
      SetAndJournal(a, account.(balance := b.Value()), UndoBalance(a, account.balance));
      shown := WithBalance(shown, a, b.Value());
    }

    method SetNonce(a: Address, n: nat)
      requires Valid()
      modifies this`cache, this`journal, this`shown
      ensures Valid() && Val() == StateValues.SetNonce(old(Val()), a, n)
      ensures shown == WithNonce(old(shown), a, n)
    {
      assert OpenState(Seal);
      SettersKeep(Val(), a, BLANK_ACCOUNT.balance, n);
      var account := GetAndCacheAccount(a);
      SetAndJournal(a, account.(nonce := n), UndoNonce(a, account.nonce));
      shown := WithNonce(shown, a, n);
    }

    method IncrementNonce(a: Address)
      requires Valid()
      modifies this`cache, this`journal, this`shown
      ensures Valid() && shown == NonceUsed(old(shown), a)
      ensures Val() == StateValues.SetNonce(old(Val()), a, At(old(shown), a).nonce + 1)
    {
      LoadTwice(Val(), a, At(shown, a).nonce + 1);
      var n := GetNonce(a);
      SetNonce(a, n + 1);
    }

    /** Field and mark, each journalled before it is set. */
    method SetAndJournal(a: Address, account: Account, undo: Undo)
      requires a in cache
      modifies this`cache, this`journal
      ensures Val() == Write(old(Val()), a, account, undo)
    {
      journal := journal + [undo];
      cache := cache[a := Cached(account, cache[a].touched)];
      journal := journal + [UndoTouched(a, cache[a].touched)];
      cache := cache[a := Cached(account, true)];
    }

    /** Stores every marked account, in no particular order, and starts over with an empty cache. */
    method Commit()
      requires Valid()
      modifies this`cache, this`journal, this`changed, trie, trie.db
      ensures Valid() && Val() == StateValues.Commit(old(Val())) && shown == old(shown)
      ensures changed == old(changed) + Touched(old(cache)).Keys && old(trie.data).Keys <= trie.data.Keys
    {
      assert OpenState(Seal);
      CommitKeeps(Val());
      StoreMarked();
      cache, journal := map[], [];
    }

    method StoreMarked()
      requires trie.Valid()
      modifies this`changed, trie, trie.db
      ensures trie.Valid() && trie.accounts == old(trie.accounts) + Touched(cache)
      ensures changed == old(changed) + Touched(cache).Keys && old(trie.data).Keys <= trie.data.Keys
    {
      StoredEnds(cache);
      var todo := cache.Keys;
      while todo != {}
        invariant trie.Valid() && todo <= cache.Keys && old(trie.data).Keys <= trie.data.Keys
        invariant trie.accounts == old(trie.accounts) + Stored(cache, todo)
        invariant changed == old(changed) + Stored(cache, todo).Keys
      {
        SomeAddress(todo);
        var a :| a in todo;
        StoredStep(old(trie.accounts), cache, todo, a);
        if cache[a].touched {
          trie.Update(a, cache[a].account);
          changed := changed + {a};
        }
        todo := todo - {a};
      }
    }

    /** The mark belongs to this snapshot, whose root can be read. */
    ghost predicate Marks(mark: Mark, snap: Snapshot)
      reads trie
    {
      mark.length == snap.length && mark.aux == snap.aux && Named(trie.codec, trie.data, mark.root, snap.root)
    }

    method TakeSnapshot() returns (mark: Mark, ghost snap: Snapshot)
      requires Valid()
      ensures Marks(mark, snap) && snap == StateValues.TakeSnapshot(Val())
    {
      assert OpenState(Seal);
      trie.RootReads();
      mark, snap := Mark(trie.root, |journal|, aux), Snapshot(trie.accounts, |journal|, aux);
    }

    /** Pops and runs journal entries, and goes back to the root; ok is false if the assertion about
        the length fails. */
    method Revert(mark: Mark, ghost snap: Snapshot) returns (ok: bool)
      requires Valid() && Marks(mark, snap)
      modifies this`cache, this`journal, this`aux, this`shown, trie
      ensures Covered(old(cache), old(journal)) && trie.data == old(trie.data)
      ensures ok == StateValues.Revert(old(Val()), snap).Some?
      ensures ok ==> Val() == StateValues.Revert(old(Val()), snap).value && (Inv(Val()) ==> Valid() && shown == View(Val()))
    {
      assert OpenState(Seal);
      InvMeans(Val());
      trie.SameRoot(mark.root, snap.root);
      UndoJournal(mark.length);
      ok := BackTo(mark, snap);
    }

    /** The root and the variables of a revert. */
    method BackTo(mark: Mark, ghost snap: Snapshot) returns (ok: bool)
      requires trie.Valid() && Marks(mark, snap) && (mark.root == trie.root <==> snap.root == trie.accounts)
      modifies this`cache, this`aux, this`shown, trie
      ensures trie.Valid() && trie.data == old(trie.data)
      ensures ok <==> snap.root == old(trie.accounts) || snap.length == 0
      ensures ok ==> Val() == Value(snap.root, if snap.root == old(trie.accounts) then old(cache) else map[], journal, snap.aux)
      ensures ok ==> shown == View(Val())
    {
      if mark.root != trie.root {
        if mark.length != 0 { return false; }
        trie.SetRoot(mark.root, snap.root);
        cache := map[];
      }
      aux := mark.aux;
      shown := View(Val());
      ok := true;
    }

    method UndoJournal(length: nat)
      requires Covered(cache, journal)
      modifies this`cache, this`journal
      ensures cache == Undone(old(cache), old(journal), length)
      ensures journal == if |old(journal)| <= length then old(journal) else old(journal)[..length]
    {
      while |journal| > length
        invariant Covered(cache, journal) && |journal| <= |old(journal)|
        invariant journal == old(journal)[..|journal|] && (|journal| < |old(journal)| ==> |journal| >= length)
        invariant Undone(cache, journal, length) == Undone(old(cache), old(journal), length)
      {
        var last := |journal| - 1;
        forall i | 0 <= i < last ensures journal[..last][i].address in cache { assert journal[i].address in cache; }
        cache, journal := UndoOne(cache, journal[last]), journal[..last];
      }
    }

    /** The full snapshot. Reading all accounts fills the cache. */
    method ToSnapshot() returns (alloc: Ledger, vars: Aux)
      requires Valid()
      modifies this`cache
      ensures Valid() && forall a :: At(alloc, a) == At(shown, a)
      ensures vars == aux.(prevHeaders := vars.prevHeaders) && vars.prevHeaders <= aux.prevHeaders
      ensures |vars.prevHeaders| == if |aux.prevHeaders| > 256 then 256 else |aux.prevHeaders|
    {
      ReadAll();
      assert OpenState(Seal);
      InvMeans(Val());
      alloc := map a | a in cache :: cache[a].account;
      vars := aux.(prevHeaders := Truncated(aux.prevHeaders, PREV_HEADER_DEPTH));
    }

    method StoredAddresses() returns (r: set<Address>)
      requires Valid()
      ensures r == trie.accounts.Keys
    {
      assert OpenState(Seal);
      r := trie.Addresses();
    }

    method ReadAll()
      requires Valid()
      modifies this`cache
      ensures Valid() && forall a :: a in trie.accounts ==> a in cache
    {
      var todo := StoredAddresses();
      while todo != {}
        invariant Valid() && forall a :: a in trie.accounts && a !in todo ==> a in cache
      {
        SomeAddress(todo);
        var a :| a in todo;
        var _ := GetAndCacheAccount(a);
        todo := todo - {a};
      }
    }

    /** Sets every account of a snapshot. */
    method Fill(alloc: Ledger)
      requires Valid() && shown == map[]
      modifies this`cache, this`journal, this`shown
      ensures Valid() && shown == alloc
    {
      var todo := alloc.Keys;
      while todo != {}
        invariant Valid() && todo <= alloc.Keys && shown == alloc - todo
      {
        SomeAddress(todo);
        var a :| a in todo;
        FillStep(alloc, todo, a);
        var b := new Balance(alloc[a].balance);
        SetBalance(a, b);
        SetNonce(a, alloc[a].nonce);
        todo := todo - {a};
      }
      assert alloc - todo == alloc;
    }

    /** Changing the variables changes no account. */
    method SetAux(aux: Aux)
      requires Valid()
      modifies this`aux
      ensures Valid() && Val() == old(Val()).(aux := aux)
    {
      assert OpenState(Seal);
      AuxIsApart(Val(), aux);
      this.aux := aux;
    }

    /** A new state with the accounts and variables of a snapshot, committed. */
    static method FromSnapshot(codec: Codec, db: NodeDb, alloc: Ledger, vars: Aux) returns (s: State)
      requires Faithful(codec) && db.Valid() && NodeItems.ContentAddressed(db.Shown())
      modifies db
      ensures fresh(s) && fresh(s.trie) && s.trie.codec == codec && s.trie.db == db
      ensures s.Valid() && s.journal == [] && s.shown == alloc && s.aux == vars && s.changed == {}
    {
      s := new State(codec, db, STATE_DEFAULTS, db.Shown());
      s.Fill(alloc);
      s.SetAux(vars);
      s.Commit();
      s.changed := {};
    }

    /** A state of its own over the same root, in an overlay over the same store. The pending changes
        must be none. */
    method Clone() returns (s: State)
      requires Valid() && forall a :: a in cache ==> !cache[a].touched
      ensures fresh(s) && fresh(s.trie) && fresh(s.trie.db) && s.trie.codec == trie.codec && s.trie.db.below == trie.db
      ensures s.Valid() && s.Val() == Value(trie.accounts, map[], [], aux) && s.shown == shown && s.trie.data == trie.data
    {
      assert OpenState(Seal);
      EmptyJournalMeansUnmarked(Val());
      trie.RootReads();
      var db := trie.Overlay();
      s := OverStore(trie.codec, db, aux, trie.data, trie.root, trie.accounts);
    }

    /** With nothing pending the root names what is shown. */
    lemma RootShows()
      requires Valid() && journal == []
      ensures Named(trie.codec, trie.data, trie.root, shown) && IsRoot(trie.codec, trie.root, shown) && Faithful(trie.codec)
    {
      assert OpenState(Seal);
      EmptyJournalMeansUnmarked(Val());
      trie.RootReads();
      NamedGrows(trie.codec, trie.data, trie.data, trie.root, shown);
    }

    /** Another state over the same store, at any root that can be read from it. */
    method Beside(aux: Aux, h: NodeItems.Digest, ghost l: Ledger) returns (s: State)
      requires Valid() && Named(trie.codec, trie.data, h, l)
      ensures fresh(s) && fresh(s.trie) && s.trie.codec == trie.codec && s.trie.db == trie.db && s.trie.data == trie.data
      ensures s.Valid() && s.Val() == Value(l, map[], [], aux) && s.shown == l
    {
      assert OpenState(Seal);
      trie.RootReads();
      s := OverStore(trie.codec, trie.db, aux, trie.data, h, l);
    }

    /** A state over a store, at a root that can be read from it. */
    static method OverStore(codec: Codec, db: NodeDb, aux: Aux, ghost data: NodeItems.Database, h: NodeItems.Digest, ghost l: Ledger)
      returns (s: State)
      requires Faithful(codec) && db.Valid() && db.Shown() == data && NodeItems.ContentAddressed(data) && Named(codec, data, h, l)
      ensures fresh(s) && fresh(s.trie) && s.trie.codec == codec && s.trie.db == db && s.trie.data == data && s.trie.root == h
      ensures s.Valid() && s.Val() == Value(l, map[], [], aux) && s.shown == l
    {
      s := new State(codec, db, aux, data);
      s.GoTo(h, l);
    }

    /** A state that has changed nothing goes to another root. */
    method GoTo(h: NodeItems.Digest, ghost l: Ledger)
      requires Valid() && cache == map[] && journal == [] && Named(trie.codec, trie.data, h, l)
      modifies trie, this`shown
      ensures Valid() && Val() == Value(l, map[], [], aux) && shown == l && trie.data == old(trie.data) && trie.root == h
    {
      assert OpenState(Seal);
      trie.SetRoot(h, l);
      shown := l;
      EmptyCache(Val());
    }
  }

  /** A snapshot read back shows the same accounts. */
  method SnapshotRoundTrip(s: State) returns (t: State)
    requires s.Valid()
    modifies s`cache
    ensures t.Valid() && s.Valid() && forall a :: At(t.shown, a) == At(s.shown, a)
  {
    var alloc, vars := s.ToSnapshot();
    s.CodecFaithful();
    var db := new Db(null);
    t := State.FromSnapshot(s.trie.codec, db, alloc, vars);
  }
}
