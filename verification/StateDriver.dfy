/** Runs of operations on a state object do what they do to its value, so what StateRuns proves of
    values holds of the object; and state and clone, which share a store, do not disturb each other. */
module StateDriver {
  import opened Ledger
  import NodeItems
  import opened Options
  import opened StateValues
  import opened StateRuns
  import opened BalanceObject
  import opened Stores
  import opened AccountTries
  import opened StateObject
  import opened Sealed

  /** Every operation leaves a valid state over a store that has only grown. */
  ghost predicate Keeps(s: State, data: NodeItems.Database)
    reads s, s.trie, s.trie.db, s.trie.db.Repr
  {
    s.Valid() && data.Keys <= s.trie.data.Keys
  }

  method Execute(s: State, op: Op) returns (ok: bool)
    requires s.Valid()
    modifies s.Frame()
    ensures ok == RunOp(old(s.Val()), op).Some?
    ensures ok ==> Keeps(s, old(s.trie.data)) && s.Val() == RunOp(old(s.Val()), op).value
    decreases op
  {
    ok := true;
    match op
    case Read(a) => var _ := s.GetAndCacheAccount(a);
    case WriteBalance(a, b) => var o := new Balance(b); s.SetBalance(a, o);
    case WriteNonce(a, n) => s.SetNonce(a, n);
    case WriteAux(aux) => s.SetAux(aux);
    case CommitAll => s.Commit();
    case Nested(ops) => ok := ExecuteNested(s, ops);
  }

  method ExecuteNested(s: State, ops: seq<Op>) returns (ok: bool)
    requires s.Valid()
    modifies s.Frame()
    ensures ok == RunOp(old(s.Val()), Nested(ops)).Some?
    ensures ok ==> Keeps(s, old(s.trie.data)) && s.Val() == RunOp(old(s.Val()), Nested(ops)).value
    decreases ops, 1
  {
    ghost var before := s.Val();
    var mark, snap := s.TakeSnapshot();
    ok := ExecuteAll(s, ops);
    if ok {
      RevertKeepsInv(before, s.Val());
      NamedGrows(s.trie.codec, old(s.trie.data), s.trie.data, mark.root, snap.root);
      ok := s.Revert(mark, snap);
    }
  }

  method ExecuteAll(s: State, ops: seq<Op>) returns (ok: bool)
    requires s.Valid()
    modifies s.Frame()
    ensures ok == RunOps(old(s.Val()), ops).Some?
    ensures ok ==> Keeps(s, old(s.trie.data)) && s.Val() == RunOps(old(s.Val()), ops).value
    decreases ops, 0
  {
    if ops == [] { return true; }
    ok := Execute(s, ops[0]);
    if ok { ok := ExecuteAll(s, ops[1..]); }
  }

  /** Any run between a snapshot and a revert to it leaves no trace, unless it commits pending changes:
      the root of the snapshot can still be read, whatever was stored since. */
  method TryAndRevert(s: State, ops: seq<Op>) returns (ok: bool)
    requires s.Valid()
    requires s.journal == [] || forall i :: 0 <= i < |ops| ==> CommitFree(ops[i])
    modifies s.Frame()
    ensures ok == RunOps(old(s.Val()), ops).Some?
    ensures ok ==> s.Valid() && s.shown == old(s.shown) && s.aux == old(s.aux)
  {
    ghost var before := s.Val();
    assert s.shown == View(before) by { assert OpenState(Seal); }
    var mark, snap := s.TakeSnapshot();
    ok := ExecuteAll(s, ops);
    if ok {
      RevertRestores(before, ops);
      NamedGrows(s.trie.codec, old(s.trie.data), s.trie.data, mark.root, snap.root);
      ok := s.Revert(mark, snap);
    }
  }

  /** No run on a clone changes what the original reads: everything the clone stores stays in the
      overlay that it put over the original's store. */
  method RunOnClone(s: State, ops: seq<Op>) returns (ok: bool, c: State)
    requires s.Valid() && forall a :: a in s.cache ==> !s.cache[a].touched
    ensures s.Valid() && s.Val() == old(s.Val()) && s.shown == old(s.shown) && s.trie.data == old(s.trie.data)
    ensures fresh(c) && fresh(c.trie) && fresh(c.trie.db) && c.trie.db.below == s.trie.db
    ensures ok == RunOps(Value(s.trie.accounts, map[], [], s.aux), ops).Some?
    ensures ok ==> c.Valid() && c.Val() == RunOps(Value(s.trie.accounts, map[], [], s.aux), ops).value
  {
    c := s.Clone();
    ghost var kept := s.Valid();
    assert kept;
    assert fresh(c.Frame());
    ok := ExecuteAll(c, ops);
    ghost var still := s.Valid();
    assert still;
  }

  /** Nor does a run on the original change what the clone reads, although the clone sees the store of
      the original grow. */
  method RunUnderClone(s: State, c: State, ops: seq<Op>) returns (ok: bool)
    requires s.Valid() && c.Valid() && c.trie.db.below == s.trie.db && c.trie != s.trie && c != s
    modifies s.Frame(), c.trie`data
    ensures ok == RunOps(old(s.Val()), ops).Some?
    ensures ok ==> s.Valid() && s.Val() == RunOps(old(s.Val()), ops).value
    ensures ok ==> c.Valid() && c.Val() == old(c.Val()) && c.shown == old(c.shown)
  {
    ghost var under, value, shown := s.trie.data, c.Val(), c.shown;
    CloneReads(s, c);
    assert c !in s.Frame() && c.trie !in s.Frame() && c.trie.db !in s.Frame();
    ok := ExecuteAll(s, ops);
    assert c.Val() == value && c.shown == shown;
    if ok {
      ghost var still := Reads(s, c, under);
      assert still;
      Settle(s, c, under);
    }
  }

  ghost method Settle(s: State, c: State, under: NodeItems.Database)
    requires s.Valid() && c.trie.db.below == s.trie.db && c.trie != s.trie && c != s
    requires under.Keys <= s.trie.data.Keys && Reads(s, c, under)
    modifies c.trie`data
    ensures s.Valid() && c.Valid() && c.Val() == old(c.Val())
  {
    Regrown(s, c, under);
    ghost var kept := s.Valid();
    assert kept;
    ClonedStays(c);
    ghost var clone := c.Valid();
    assert clone;
  }

  /** What a clone reads: its own entries over the original's store. */
  ghost predicate Reads(s: State, c: State, under: NodeItems.Database)
    reads c, c.trie, c.trie.db
  {
    && c.trie.data == Overlaid(under, c.trie.db.entries) && NodeItems.ContentAddressed(c.trie.data)
    && Faithful(c.trie.codec) && Named(c.trie.codec, c.trie.data, c.trie.root, c.trie.accounts)
    && c.trie.db in c.trie.db.Repr && s.trie.db in c.trie.db.Repr && s.trie.db.Repr <= c.trie.db.Repr - {c.trie.db}
    && Inv(c.Val()) && c.shown == View(c.Val())
  }

  lemma CloneReads(s: State, c: State)
    requires s.Valid() && c.Valid() && c.trie.db.below == s.trie.db
    ensures Reads(s, c, s.trie.data) && c.trie.db != s.trie.db
  {
    StateReads(s);
    StateReads(c);
    c.trie.db.Layers();
  }

  /** The clone after the store below it has grown. */
  ghost method Regrown(s: State, c: State, under: NodeItems.Database)
    requires s.Valid() && c.trie.db.below == s.trie.db && c.trie != s.trie
    requires under.Keys <= s.trie.data.Keys && Reads(s, c, under)
    modifies c.trie`data
    ensures c.trie.Valid() && Inv(c.Val()) && c.shown == View(c.Val()) && c.Val() == old(c.Val())
  {
    ghost var data := Overlaid(s.trie.data, c.trie.db.entries);
    OverlayGrows(under, s.trie.data, c.trie.db.entries);
    StateReads(s);
    NamedGrows(c.trie.codec, c.trie.data, data, c.trie.root, c.trie.accounts);
    c.trie.data := data;
    Restacked(s, c);
  }

  lemma StateReads(s: State)
    requires s.Valid()
    ensures s.trie.db.Valid() && s.trie.db.Shown() == s.trie.data && NodeItems.ContentAddressed(s.trie.data)
    ensures Faithful(s.trie.codec) && Named(s.trie.codec, s.trie.data, s.trie.root, s.trie.accounts)
    ensures Inv(s.Val()) && s.shown == View(s.Val())
  {
    assert OpenState(Seal);
    s.trie.RootReads();
  }

  lemma OverlayGrows(under: NodeItems.Database, grown: NodeItems.Database,
                     entries: map<NodeItems.Digest, Option<NodeItems.Record>>)
    requires under.Keys <= grown.Keys && NodeItems.ContentAddressed(Overlaid(under, entries))
    ensures Overlaid(under, entries).Keys <= Overlaid(grown, entries).Keys
    ensures NodeItems.ContentAddressed(grown) ==> NodeItems.ContentAddressed(Overlaid(grown, entries))
  {
    forall k | k in entries && entries[k].Some? ensures entries[k].value == k.item { assert k in Overlaid(under, entries); }
  }

  lemma Restacked(s: State, c: State)
    requires s.Valid() && c.trie.db.below == s.trie.db
    requires c.trie.data == Overlaid(s.trie.data, c.trie.db.entries) && NodeItems.ContentAddressed(c.trie.data)
    requires Faithful(c.trie.codec) && Named(c.trie.codec, c.trie.data, c.trie.root, c.trie.accounts)
    requires c.trie.db in c.trie.db.Repr && s.trie.db in c.trie.db.Repr && s.trie.db.Repr <= c.trie.db.Repr - {c.trie.db}
    ensures c.trie.Valid()
  {
    StateReads(s);
    c.trie.db.Stacked();
    c.trie.ReadsRoot();
  }

  lemma ClonedStays(c: State)
    requires c.trie.Valid() && Inv(c.Val()) && c.shown == View(c.Val())
    ensures c.Valid()
  {
  }
}
