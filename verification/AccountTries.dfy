/** The account trie of a state (securetrie.py over trie.py over db.py): accounts under the hashes of
    their addresses, the nodes in a store that may be stacked on another one. */
module AccountTries {
  import opened Nibbles
  import opened Trie
  import opened TrieCanonical
  import opened NodeItems
  import opened TrieStore
  import opened Ledger
  import opened Options
  import opened Stores
  import opened Sealed

  /** The hash of an address as a path and the address back, which the store keeps under the hash, and
      how accounts are serialised and read back. */
  datatype Codec = Codec(key: Address -> Path, address: Path -> Address, pickle: Account -> Bytes, unpickle: Bytes -> Account)

  ghost predicate KeyLaw(c: Codec, a: Address) { c.address(c.key(a)) == a }
  ghost predicate PickleLaw(c: Codec, x: Account) { c.pickle(x) != [] && c.unpickle(c.pickle(x)) == x }

  ghost predicate Faithful(c: Codec) { (forall a :: KeyLaw(c, a)) && forall x :: PickleLaw(c, x) }

  /** Looks into `AccountTrie.Valid`. */
  predicate OpenTrie(s: Seal) { true }

  type NodeDb = Db<Digest, Record>

  function CodedKeys(c: Codec, l: Ledger): set<Path> { set a | a in l :: c.key(a) }

  /** What the trie of a ledger contains. */
  function Coded(c: Codec, l: Ledger): map<Path, Bytes> {
    map k | k in CodedKeys(c, l) && c.address(k) in l :: c.pickle(l[c.address(k)])
  }

  lemma CodedAt(c: Codec, l: Ledger, a: Address)
    requires Faithful(c)
    ensures c.key(a) in Coded(c, l) <==> a in l
    ensures a in l ==> Coded(c, l)[c.key(a)] == c.pickle(l[a]) && c.unpickle(Coded(c, l)[c.key(a)]) == l[a]
    ensures c.pickle(At(l, a)) != []
  {
    assert KeyLaw(c, a) && PickleLaw(c, At(l, a));
  }

  /** The digest is the root hash of the ledger's trie. */
  ghost predicate IsRoot(c: Codec, h: Digest, l: Ledger) {
    exists t :: Canonical(t) && RootHash(t) == h && Contents(t) == Coded(c, l)
  }

  /** And the whole trie can be read from the store. */
  ghost predicate Named(c: Codec, d: Database, h: Digest, l: Ledger) {
    exists t :: Canonical(t) && RootHash(t) == h && Contents(t) == Coded(c, l) && Published(d, t)
  }

  lemma CodedUpdate(c: Codec, l: Ledger, a: Address, x: Account)
    requires Faithful(c)
    ensures Coded(c, l)[c.key(a) := c.pickle(x)] == Coded(c, l[a := x]) && c.pickle(x) != []
  {
    var m, n := Coded(c, l)[c.key(a) := c.pickle(x)], Coded(c, l[a := x]);
    assert KeyLaw(c, a) && PickleLaw(c, x);
    forall k ensures (k in m <==> k in n) && (k in m ==> m[k] == n[k]) {
      CodedFrom(c, l, k);
      CodedFrom(c, l[a := x], k);
    }
  }

  /** What is at a path. */
  lemma CodedFrom(c: Codec, l: Ledger, k: Path)
    requires Faithful(c)
    ensures k in Coded(c, l) <==> c.address(k) in l && c.key(c.address(k)) == k
  {
    if k in CodedKeys(c, l) {
      var b :| b in l && k == c.key(b);
      assert KeyLaw(c, b);
    }
    if c.address(k) in l && c.key(c.address(k)) == k {
      var b := c.address(k);
      assert b in l && k == c.key(b);
      assert k in CodedKeys(c, l);
    }
  }

  lemma CodedAddresses(c: Codec, l: Ledger)
    requires Faithful(c)
    ensures (set k | k in Coded(c, l) :: c.address(k)) == l.Keys
  {
    var r := set k | k in Coded(c, l) :: c.address(k);
    forall a ensures a in r <==> a in l.Keys { CodedAt(c, l, a); assert KeyLaw(c, a); }
    assert r <= l.Keys && l.Keys <= r;
  }

  lemma CodedInjective(c: Codec, l: Ledger, m: Ledger)
    requires Faithful(c) && Coded(c, l) == Coded(c, m)
    ensures l == m
  {
    forall a ensures (a in l <==> a in m) && (a in l ==> l[a] == m[a]) {
      CodedAt(c, l, a);
      CodedAt(c, m, a);
    }
  }

  /** A root hash names one ledger, and a ledger has one root hash. */
  lemma RootsNameLedgers(c: Codec, h: Digest, l: Ledger, g: Digest, m: Ledger)
    requires Faithful(c) && IsRoot(c, h, l) && IsRoot(c, g, m)
    ensures h == g <==> l == m
  {
    var t :| Canonical(t) && RootHash(t) == h && Contents(t) == Coded(c, l);
    var u :| Canonical(u) && RootHash(u) == g && Contents(u) == Coded(c, m);
    RootHashNamesContents(t, u);
    if h == g { CodedInjective(c, l, m); }
  }

  /** What can be read stays readable when the store grows. */
  lemma NamedGrows(c: Codec, d: Database, d': Database, h: Digest, l: Ledger)
    requires Named(c, d, h, l) && d.Keys <= d'.Keys
    ensures Named(c, d', h, l) && IsRoot(c, h, l)
  {
    var t :| Canonical(t) && RootHash(t) == h && Contents(t) == Coded(c, l) && Published(d, t);
    HeldGrows(d, d', t);
  }

  lemma BlankNamed(c: Codec, d: Database)
    ensures Named(c, d, RootHash(Blank), map[])
  {
    assert Contents(Blank) == Coded(c, map[]);
    assert Canonical(Blank) && Published(d, Blank);
  }

  class AccountTrie {
    const codec: Codec
    const db: NodeDb
    var root: Digest
    /** The accounts that the root names, and what the store shows. */
    ghost var accounts: Ledger
    ghost var data: Database

    ghost predicate Valid()
      reads this, db, db.Repr
    {
      forall s: Seal :: OpenTrie(s) ==>
        && Faithful(codec) && db.Shows(data) && ContentAddressed(data)
        && Named(codec, data, root, accounts)
    }

    lemma RootReads()
      requires Valid()
      ensures Named(codec, data, root, accounts) && Faithful(codec)
      ensures db.Valid() && db.Shown() == data && ContentAddressed(data)
    {
      assert OpenTrie(Seal);
      db.Reads(data);
    }

    lemma ReadsRoot()
      requires Faithful(codec) && db.Shows(data) && ContentAddressed(data) && Named(codec, data, root, accounts)
      ensures Valid()
    {
    }

    /** Roots tell ledgers apart. */
    lemma SameRoot(h: Digest, l: Ledger)
      requires Valid() && Named(codec, data, h, l)
      ensures h == root <==> l == accounts
    {
      RootReads();
      NamedGrows(codec, data, data, h, l);
      NamedGrows(codec, data, data, root, accounts);
      RootsNameLedgers(codec, h, l, root, accounts);
    }

    /** The blank trie over a store. */
    constructor (codec: Codec, db: NodeDb, ghost data: Database)
      requires Faithful(codec) && db.Valid() && db.Shown() == data && ContentAddressed(data)
      ensures Valid() && this.codec == codec && this.db == db && accounts == map[] && this.data == data
    {
      ghost var shows := db.Shows(data);
      assert shows;
      this.codec, this.db := codec, db;
      root, accounts, this.data := RootHash(Blank), map[], data;
      new;
      BlankNamed(codec, data);
      ghost var kept := db.Shows(data);
      assert kept;
      ReadsRoot();
    }

    /** The trie in memory at the root. */
    method Open() returns (t: PersistentTrie)
      requires Valid()
      ensures t.Valid() && fresh(t) && fresh(Foot(t.root)) && t.db == data && Faithful(codec)
      ensures t.rootHash == root && Contents(t.tree) == Coded(codec, accounts)
    {
      RootReads();
      ghost var n :| Canonical(n) && RootHash(n) == root && Contents(n) == Coded(codec, accounts) && Published(data, n);
      t := new PersistentTrie.Over(db.Shown());
      t.SetRootHash(root, n);
    }

    method Get(a: Address) returns (r: Option<Account>)
      requires Valid()
      ensures r == if a in accounts then Some(accounts[a]) else None
    {
      var t := Open();
      var value := t.Get(codec.key(a));
      ContentsAt(t.tree, codec.key(a));
      CodedAt(codec, accounts, a);
      r := if value == BLANK_VALUE then None else Some(codec.unpickle(value));
    }

    method Overlay() returns (over: NodeDb)
      requires Valid()
      ensures fresh(over) && over.Valid() && over.below == db && over.Shown() == data && ContentAddressed(data)
    {
      RootReads();
      over := new Db(db);
    }

    /** The addresses of all accounts, as `to_dict` finds them under the stored hashes. */
    method Addresses() returns (r: set<Address>)
      requires Valid()
      ensures r == accounts.Keys
    {
      var n := ReadTree();
      var entries := ToDict(n);
      r := set k | k in entries :: codec.address(k);
      CodedAddresses(codec, accounts);
    }

    /** All nodes, decoded from the root on. */
    method ReadTree() returns (n: Node)
      requires Valid()
      ensures Canonical(n) && Contents(n) == Coded(codec, accounts) && Faithful(codec)
    {
      RootReads();
      ghost var t :| Canonical(t) && RootHash(t) == root && Contents(t) == Coded(codec, accounts) && Published(data, t);
      if root == RootHash(Blank) {
        NodeItemInjective(t, Blank);
        return Blank;
      }
      PublishedDecodes(data, t);
      n := LoadRef(db.Shown(), Hash(root)).node;
    }

    method Update(a: Address, x: Account)
      requires Valid()
      modifies this, db
      ensures Valid() && accounts == old(accounts)[a := x] && old(data).Keys <= data.Keys
    {
      var h, d := UpdateNodes(a, x);
      ghost var l := accounts[a := x];
      Publish(h, d, l);
    }

    method Publish(h: Digest, d: Database, ghost l: Ledger)
      requires Valid() && ContentAddressed(d) && data.Keys <= d.Keys && Named(codec, d, h, l)
      modifies this, db
      ensures Valid() && accounts == l && data == d
    {
      RootReads();
      Save(db, d);
      assert db.Shows(d);
      Rename(h, d, l);
    }

    method Rename(h: Digest, ghost d: Database, ghost l: Ledger)
      requires Faithful(codec) && db.Shows(d) && ContentAddressed(d) && Named(codec, d, h, l)
      modifies this
      ensures Valid() && accounts == l && data == d
    {
      Assign(h, d, l);
      ghost var kept := db.Shows(data);
      assert kept;
      ReadsRoot();
    }

    method Assign(h: Digest, ghost d: Database, ghost l: Ledger)
      modifies this
      ensures root == h && data == d && accounts == l
    {
      root, data, accounts := h, d, l;
    }

    /** The new root and what the store holds for it. */
    method UpdateNodes(a: Address, x: Account) returns (h: Digest, d: Database)
      requires Valid()
      ensures ContentAddressed(d) && data.Keys <= d.Keys && Named(codec, d, h, accounts[a := x])
    {
      var t := Open();
      CodedUpdate(codec, accounts, a, x);
      UpdateRefinesMap(t.tree, codec.key(a), codec.pickle(x));
      t.Update(codec.key(a), codec.pickle(x));
      h, d := t.rootHash, t.db;
      IsNamed(codec, d, t.tree, accounts[a := x]);
    }

    /** Goes to any root whose trie can be read. */
    method SetRoot(h: Digest, ghost l: Ledger)
      requires Valid() && Named(codec, data, h, l)
      modifies this
      ensures Valid() && root == h && accounts == l && data == old(data)
    {
      RootReads();
      Assign(h, data, l);
    }
  }

  /** Puts the records that are new. */
  method Save(db: NodeDb, d: Database)
    requires db.Valid() && ContentAddressed(db.Shown()) && ContentAddressed(d) && db.Shown().Keys <= d.Keys
    modifies db
    ensures db.Valid() && db.Shown() == d
  {
    var todo := d.Keys;
    while todo != {}
      invariant db.Valid() && ContentAddressed(db.Shown()) && todo <= d.Keys
      invariant d.Keys - todo <= db.Shown().Keys <= d.Keys
    {
      var h :| h in todo;
      if db.Get(h) == None { db.Put(h, d[h]); }
      todo := todo - {h};
    }
    SameAddressed(d, db.Shown());
  }

  lemma SameAddressed(d: Database, d': Database)
    requires ContentAddressed(d) && ContentAddressed(d') && d.Keys == d'.Keys
    ensures d == d'
  {
  }

  lemma IsNamed(c: Codec, d: Database, t: Node, l: Ledger)
    requires Canonical(t) && Contents(t) == Coded(c, l) && Published(d, t)
    ensures Named(c, d, RootHash(t), l)
  {
  }
}
