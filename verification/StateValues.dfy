/** The account state of state.py on values: a committed trie, a cache of accounts over it, and a
    journal of what undoes the changes in the cache. A root hash stands for the contents of its
    trie, which it determines (NodeItems.RootHashNamesContents). */
module StateValues {
  import opened Ledger
  import opened Options
  import opened BlockHeaders
  import opened Sealed

  datatype Cached = Cached(account: Account, touched: bool)

  /** One journal entry: the field and the value it had. */
  datatype Undo =
    | UndoBalance(address: Address, balance: Holdings)
    | UndoNonce(address: Address, nonce: nat)
    | UndoTouched(address: Address, touched: bool)

  type Cache = map<Address, Cached>

  /** The variables besides the accounts (STATE_DEFAULTS). */
  datatype Aux = Aux(txIndex: nat, blockNumber: nat, coinbase: Address, timestamp: nat, prevHeaders: seq<Header>)

  datatype Value = Value(trie: Ledger, cache: Cache, journal: seq<Undo>, aux: Aux)

  datatype Snapshot = Snapshot(root: Ledger, length: nat, aux: Aux)

  // ----- What the state stands for -----

  function Touched(c: Cache): Ledger { map a | a in c && c[a].touched :: c[a].account }

  /** The accounts as a commit would store them. */
  function View(s: Value): Ledger { s.trie + Touched(s.cache) }

  // ----- Operations -----

  function Load(s: Value, a: Address): Value {
    if a in s.cache then s else s.(cache := s.cache[a := Cached(At(s.trie, a), false)])
  }

  function ReadAccount(s: Value, a: Address): Account { Load(s, a).cache[a].account }

  /** A setter: journals the old field and the old mark, then changes both. */
  function Write(s: Value, a: Address, account: Account, undo: Undo): Value
    requires a in s.cache
  {
    s.(cache := s.cache[a := Cached(account, true)], journal := s.journal + [undo, UndoTouched(a, s.cache[a].touched)])
  }

  function SetBalance(s: Value, a: Address, b: Holdings): Value {
    var t := Load(s, a);
    var account := t.cache[a].account;
    Write(t, a, account.(balance := b), UndoBalance(a, account.balance))
  }

  function SetNonce(s: Value, a: Address, n: nat): Value {
    var t := Load(s, a);
    var account := t.cache[a].account;
    Write(t, a, account.(nonce := n), UndoNonce(a, account.nonce))
  }

  function Commit(s: Value): Value { Value(View(s), map[], [], s.aux) }

  function TakeSnapshot(s: Value): Snapshot { Snapshot(s.trie, |s.journal|, s.aux) }

  function UndoOne(c: Cache, u: Undo): Cache
    requires u.address in c
  {
    var was := c[u.address];
    match u
    case UndoBalance(a, b) => c[a := was.(account := was.account.(balance := b))]
    case UndoNonce(a, n) => c[a := was.(account := was.account.(nonce := n))]
    case UndoTouched(a, t) => c[a := was.(touched := t)]
  }

  /** All journal entries are about cached accounts. */
  predicate Covered(c: Cache, journal: seq<Undo>) { forall i :: 0 <= i < |journal| ==> journal[i].address in c }

  /** The cache after undoing the journal down to the given length. */
  function Undone(c: Cache, journal: seq<Undo>, length: nat): (r: Cache)
    requires Covered(c, journal)
    ensures r.Keys == c.Keys
    decreases |journal|
  {
    if |journal| <= length then c
    else
      var last := |journal| - 1;
      assert forall i :: 0 <= i < last ==> journal[..last][i] == journal[i];
      Undone(UndoOne(c, journal[last]), journal[..last], length)
  }

  /** None if the assertion on the journal length fails. */
  function Revert(s: Value, snap: Snapshot): Option<Value>
    requires Covered(s.cache, s.journal)
  {
    var cache := Undone(s.cache, s.journal, snap.length);
    var journal := if |s.journal| <= snap.length then s.journal else s.journal[..snap.length];
    if snap.root == s.trie then Some(Value(s.trie, cache, journal, snap.aux))
    else if snap.length != 0 then None
    else Some(Value(snap.root, map[], journal, snap.aux))
  }

  // ----- The invariant -----

  /** No account is marked and all agree with the trie. */
  predicate Clean(c: Cache, trie: Ledger) {
    forall a :: a in c ==> !c[a].touched && c[a].account == At(trie, a)
  }

  /** The journal is a stack of changes over a clean cache: pairs of a field and the mark, the
      changed account marked since. */
  ghost predicate Journalled(trie: Ledger, c: Cache, journal: seq<Undo>)
    decreases |journal|
  {
    if journal == [] then Clean(c, trie)
    else
      var n := |journal| - 2;
      && n >= 0 && !journal[n].UndoTouched? && journal[n + 1].UndoTouched?
      && var a := journal[n].address;
      && journal[n + 1].address == a && a in c && c[a].touched
      && Journalled(trie, UndoPair(c, journal[n], journal[n + 1]), journal[..n])
  }

  function UndoPair(c: Cache, u: Undo, v: Undo): Cache
    requires u.address in c && v.address == u.address
  {
    UndoOne(UndoOne(c, v), u)
  }

  /** Looks into `Inv`. */
  predicate OpenInv(k: Seal) { true }

  ghost predicate Inv(s: Value) { forall k: Seal :: OpenInv(k) ==> Journalled(s.trie, s.cache, s.journal) }

  /** Consequences: entries are about cached accounts; an account that is not marked agrees with the
      trie; one that is has an entry. */
  lemma {:induction false} JournalledMeans(trie: Ledger, c: Cache, journal: seq<Undo>)
    requires Journalled(trie, c, journal)
    ensures Covered(c, journal) && |journal| % 2 == 0
    ensures forall a :: a in c && !c[a].touched ==> c[a].account == At(trie, a)
    ensures forall a :: a in c && c[a].touched ==> exists i :: 0 <= i < |journal| && journal[i].address == a
    decreases |journal|
  {
    if journal != [] {
      var n := |journal| - 2;
      var before := UndoPair(c, journal[n], journal[n + 1]);
      JournalledMeans(trie, before, journal[..n]);
      forall i | 0 <= i < |journal| ensures journal[i].address in c {
        if i < n { assert journal[..n][i] == journal[i] && journal[i].address in before; }
      }
      forall a | a in c && c[a].touched ensures exists i :: 0 <= i < |journal| && journal[i].address == a {
        if a == journal[n].address {
        } else {
          assert before[a].touched;
          var i :| 0 <= i < n && journal[..n][i].address == a;
          assert journal[i].address == a;
        }
      }
    }
  }

  lemma InvMeans(s: Value)
    requires Inv(s)
    ensures Covered(s.cache, s.journal) && |s.journal| % 2 == 0
    ensures forall a :: a in s.cache && !s.cache[a].touched ==> s.cache[a].account == At(s.trie, a)
  {
    assert OpenInv(Seal);
    JournalledMeans(s.trie, s.cache, s.journal);
  }

  /** The journal is empty exactly if no cached account is marked (what `clone` asserts). */
  lemma EmptyJournalMeansUnmarked(s: Value)
    requires Inv(s)
    ensures s.journal == [] <==> forall a :: a in s.cache ==> !s.cache[a].touched
    ensures s.journal == [] ==> View(s) == s.trie
  {
    assert OpenInv(Seal);
    JournalledMeans(s.trie, s.cache, s.journal);
    if s.journal == [] {
      assert Clean(s.cache, s.trie);
      assert forall a :: a !in Touched(s.cache);
      assert View(s) == s.trie;
    } else {
      var a := s.journal[|s.journal| - 2].address;
      assert s.cache[a].touched;
    }
  }

  lemma {:induction false} JournalledLoad(trie: Ledger, c: Cache, journal: seq<Undo>, a: Address)
    requires Journalled(trie, c, journal) && a !in c
    ensures Journalled(trie, c[a := Cached(At(trie, a), false)], journal)
    decreases |journal|
  {
    if journal != [] {
      var n := |journal| - 2;
      var c' := c[a := Cached(At(trie, a), false)];
      var before := UndoPair(c, journal[n], journal[n + 1]);
      JournalledLoad(trie, before, journal[..n], a);
      assert UndoPair(c', journal[n], journal[n + 1]) == before[a := Cached(At(trie, a), false)];
    }
  }

  /** A cached account reads as the committed or changed one. */
  lemma ReadIsView(s: Value, a: Address)
    requires Inv(s)
    ensures ReadAccount(s, a) == At(View(s), a)
  {
    assert OpenInv(Seal);
    JournalledMeans(s.trie, s.cache, s.journal);
  }

  lemma LoadKeeps(s: Value, a: Address)
    requires Inv(s)
    ensures Inv(Load(s, a)) && View(Load(s, a)) == View(s)
  {
    assert OpenInv(Seal);
    if a !in s.cache {
      JournalledLoad(s.trie, s.cache, s.journal, a);
      assert Touched(Load(s, a).cache) == Touched(s.cache);
    }
  }

  lemma WriteKeeps(s: Value, a: Address, account: Account, undo: Undo)
    requires Inv(s) && a in s.cache && undo.address == a && !undo.UndoTouched?
    requires UndoOne(s.cache[a := Cached(account, true)], undo)[a].account == s.cache[a].account
    ensures Inv(Write(s, a, account, undo)) && View(Write(s, a, account, undo)) == View(s)[a := account]
  {
    assert OpenInv(Seal);
    var t := Write(s, a, account, undo);
    var n := |s.journal|;
    assert t.journal[..n] == s.journal && t.journal[n] == undo;
    assert UndoPair(t.cache, undo, t.journal[n + 1]) == s.cache;
    assert View(t) == View(s)[a := account];
  }

  lemma SettersKeep(s: Value, a: Address, b: Holdings, nonce: nat)
    requires Inv(s)
    ensures Inv(SetBalance(s, a, b)) && View(SetBalance(s, a, b)) == WithBalance(View(s), a, b)
    ensures Inv(SetNonce(s, a, nonce)) && View(SetNonce(s, a, nonce)) == WithNonce(View(s), a, nonce)
  {
    var t := Load(s, a);
    var account := t.cache[a].account;
    LoadKeeps(s, a);
    ReadIsView(s, a);
    WriteKeeps(t, a, account.(balance := b), UndoBalance(a, account.balance));
    WriteKeeps(t, a, account.(nonce := nonce), UndoNonce(a, account.nonce));
  }

  lemma LoadTwice(s: Value, a: Address, n: nat)
    ensures SetNonce(Load(s, a), a, n) == SetNonce(s, a, n)
  {
  }

  /** A commit changes nothing that can be read. */
  lemma CommitKeeps(s: Value)
    ensures Inv(Commit(s)) && View(Commit(s)) == View(s) && Commit(s).aux == s.aux
  {
    assert OpenInv(Seal);
  }

  /** The marked accounts that a commit has stored when some are still to do. */
  function Stored(c: Cache, todo: set<Address>): Ledger {
    map a | a in c && a !in todo && c[a].touched :: c[a].account
  }

  lemma StoredStep(trie: Ledger, c: Cache, todo: set<Address>, a: Address)
    requires a in todo && todo <= c.Keys
    ensures !c[a].touched ==> Stored(c, todo - {a}) == Stored(c, todo)
    ensures c[a].touched ==>
              && trie + Stored(c, todo - {a}) == (trie + Stored(c, todo))[a := c[a].account]
              && Stored(c, todo - {a}).Keys == Stored(c, todo).Keys + {a}
  {
  }

  lemma StoredEnds(c: Cache)
    ensures Stored(c, c.Keys) == map[] && Stored(c, {}) == Touched(c)
  {
  }

  /** One more account of a snapshot read back. */
  lemma FillStep(alloc: Ledger, todo: set<Address>, a: Address)
    requires a in todo && todo <= alloc.Keys
    ensures WithNonce(WithBalance(alloc - todo, a, alloc[a].balance), a, alloc[a].nonce) == alloc - (todo - {a})
  {
  }

  lemma AuxIsApart(s: Value, aux: Aux)
    ensures Inv(s.(aux := aux)) == Inv(s) && View(s.(aux := aux)) == View(s)
  {
    assert OpenInv(Seal);
  }

  lemma EmptyCache(s: Value)
    requires s.cache == map[] && s.journal == []
    ensures Inv(s) && View(s) == s.trie
  {
    assert Touched(map[]) == map[];
  }
}
