/** Reverting: after any run of reads, writes and nested snapshots a revert restores what the state
    showed at the snapshot; across commits it does so if the journal was empty then. */
module StateRuns {
  import opened Ledger
  import opened Options
  import opened StateValues
  import opened Sealed

  datatype Op =
    | Read(address: Address)
    | WriteBalance(address: Address, balance: Holdings)
    | WriteNonce(address: Address, nonce: nat)
    | WriteAux(aux: Aux)
    | CommitAll
    | Nested(ops: seq<Op>)  // a snapshot, a run, and a revert to the snapshot

  /** None if an assertion fails on the way. */
  function RunOp(s: Value, op: Op): (r: Option<Value>)
    requires Inv(s)
    ensures r.Some? ==> Inv(r.value)
    decreases op
  {
    match op
    case Read(a) => LoadKeeps(s, a); Some(Load(s, a))
    case WriteBalance(a, b) => SettersKeep(s, a, b, 0); Some(SetBalance(s, a, b))
    case WriteNonce(a, n) => SettersKeep(s, a, BLANK_ACCOUNT.balance, n); Some(SetNonce(s, a, n))
    case WriteAux(aux) => Some(s.(aux := aux))
    case CommitAll => CommitKeeps(s); Some(Commit(s))
    case Nested(ops) =>
      match RunOps(s, ops)
      case None => None
      case Some(t) => RevertKeepsInv(s, t); Revert(t, TakeSnapshot(s))
  }

  function RunOps(s: Value, ops: seq<Op>): (r: Option<Value>)
    requires Inv(s)
    ensures r.Some? ==> Inv(r.value)
    decreases ops
  {
    if ops == [] then Some(s)
    else
      match RunOp(s, ops[0])
      case None => None
      case Some(t) => RunOps(t, ops[1..])
  }

  predicate CommitFree(op: Op) {
    !op.CommitAll? && (op.Nested? ==> forall i :: 0 <= i < |op.ops| ==> CommitFree(op.ops[i]))
  }

  // ----- Undoing -----

  /** The journal leads back to a clean cache; looked into by `BackedPair` alone. */
  ghost predicate Backed(trie: Ledger, c: Cache, journal: seq<Undo>) {
    forall k: Seal :: OpenInv(k) ==> Journalled(trie, c, journal)
  }

  /** The two entries that are undone first. */
  lemma BackedPair(trie: Ledger, c: Cache, journal: seq<Undo>)
    requires Backed(trie, c, journal)
    ensures Covered(c, journal) && |journal| % 2 == 0
    ensures var n := |journal| - 2;
      journal != [] ==>
        && n >= 0 && journal[n].address == journal[n + 1].address && journal[n].address in Touched(c)
        && Backed(trie, UndoPair(c, journal[n], journal[n + 1]), journal[..n])
  {
    assert OpenInv(Seal);
    JournalledMeans(trie, c, journal);
  }

  lemma {:induction false} UndoneKeeps(trie: Ledger, c: Cache, journal: seq<Undo>, length: nat)
    requires Backed(trie, c, journal) && length % 2 == 0
    ensures Covered(c, journal)
    ensures Backed(trie, Undone(c, journal, length), if |journal| <= length then journal else journal[..length])
    decreases |journal|
  {
    BackedPair(trie, c, journal);
    if |journal| > length {
      var n := |journal| - 2;
      UndonePair(c, journal, length);
      UndoneKeeps(trie, UndoPair(c, journal[n], journal[n + 1]), journal[..n], length);
      if n > length { PrefixOfPrefix(journal, n, length); }
    }
  }

  lemma PrefixOfPrefix<T>(s: seq<T>, n: nat, k: nat)
    requires k <= n <= |s|
    ensures s[..n][..k] == s[..k]
  {
  }

  lemma UndonePair(c: Cache, journal: seq<Undo>, length: nat)
    requires Covered(c, journal) && |journal| >= length + 2 && |journal| >= 2
    requires journal[|journal| - 1].address == journal[|journal| - 2].address
    ensures var n := |journal| - 2;
      && Covered(UndoPair(c, journal[n], journal[n + 1]), journal[..n])
      && Undone(c, journal, length) == Undone(UndoPair(c, journal[n], journal[n + 1]), journal[..n], length)
  {
    var n := |journal| - 2;
    assert journal[..n + 1][..n] == journal[..n];
    forall i | 0 <= i < n ensures journal[..n][i].address in c { assert journal[i].address in c; }
  }

  lemma {:induction false} UndoneTwice(c: Cache, journal: seq<Undo>, long: nat, short: nat)
    requires Covered(c, journal) && short <= long <= |journal|
    ensures Covered(Undone(c, journal, long), journal[..long])
    ensures Undone(Undone(c, journal, long), journal[..long], short) == Undone(c, journal, short)
    decreases |journal|
  {
    assert forall i :: 0 <= i < long ==> journal[..long][i] == journal[i];
    if |journal| > long {
      var last := |journal| - 1;
      assert forall i :: 0 <= i < last ==> journal[..last][i] == journal[i];
      UndoneTwice(UndoOne(c, journal[last]), journal[..last], long, short);
      assert journal[..last][..long] == journal[..long];
    } else {
      assert journal[..long] == journal;
    }
  }

  lemma {:induction false} UndoneLoad(c: Cache, journal: seq<Undo>, length: nat, a: Address, x: Cached)
    requires Covered(c, journal) && a !in c
    ensures Undone(c[a := x], journal, length) == Undone(c, journal, length)[a := x]
    decreases |journal|
  {
    if |journal| > length {
      var last := |journal| - 1;
      assert forall i :: 0 <= i < last ==> journal[..last][i] == journal[i];
      UndoneLoad(UndoOne(c, journal[last]), journal[..last], length, a, x);
      assert UndoOne(c[a := x], journal[last]) == UndoOne(c, journal[last])[a := x];
    }
  }

  lemma RevertKeepsInv(s: Value, t: Value)
    requires Inv(s) && Inv(t)
    ensures Covered(t.cache, t.journal)
    ensures var r := Revert(t, TakeSnapshot(s)); r.Some? ==> Inv(r.value)
  {
    assert OpenInv(Seal);
    JournalledMeans(s.trie, s.cache, s.journal);
    UndoneKeeps(t.trie, t.cache, t.journal, |s.journal|);
  }

  // ----- Between a snapshot and its revert, without commits -----

  /** Undoing t down to the journal of s gives what s shows. */
  ghost predicate LeadsBack(s: Value, t: Value) {
    && Inv(s) && Inv(t) && Covered(t.cache, t.journal)
    && t.trie == s.trie && |s.journal| <= |t.journal| && t.journal[..|s.journal|] == s.journal
    && Touched(Undone(t.cache, t.journal, |s.journal|)) == Touched(s.cache)
  }

  lemma LeadsBackToItself(s: Value)
    requires Inv(s)
    ensures LeadsBack(s, s)
  {
    assert OpenInv(Seal);
    JournalledMeans(s.trie, s.cache, s.journal);
  }

  lemma TouchedLoad(c: Cache, a: Address, x: Cached)
    requires a !in c && !x.touched
    ensures Touched(c[a := x]) == Touched(c)
  {
  }

  lemma LoadLeadsBack(s: Value, t: Value, a: Address)
    requires LeadsBack(s, t)
    ensures LeadsBack(s, Load(t, a))
  {
    assert OpenInv(Seal);
    LoadKeeps(t, a);
    if a !in t.cache {
      var x := Cached(At(t.trie, a), false);
      JournalledMeans(t.trie, Load(t, a).cache, t.journal);
      UndoneLoad(t.cache, t.journal, |s.journal|, a, x);
      TouchedLoad(Undone(t.cache, t.journal, |s.journal|), a, x);
    }
  }

  lemma WriteLeadsBack(s: Value, t: Value, a: Address, account: Account, undo: Undo)
    requires LeadsBack(s, t) && a in t.cache && undo.address == a && !undo.UndoTouched?
    requires UndoOne(t.cache[a := Cached(account, true)], undo)[a].account == t.cache[a].account
    ensures LeadsBack(s, Write(t, a, account, undo))
  {
    assert OpenInv(Seal);
    WriteKeeps(t, a, account, undo);
    WriteUndone(t, a, account, undo, |s.journal|);
    assert Write(t, a, account, undo).journal[..|s.journal|] == t.journal[..|s.journal|];
  }

  /** Undoing past a write is undoing without it. */
  lemma WriteUndone(t: Value, a: Address, account: Account, undo: Undo, length: nat)
    requires Inv(t) && Covered(t.cache, t.journal) && a in t.cache && undo.address == a && !undo.UndoTouched? && length <= |t.journal|
    requires UndoOne(t.cache[a := Cached(account, true)], undo)[a].account == t.cache[a].account
    ensures var w := Write(t, a, account, undo);
      Covered(w.cache, w.journal) && Undone(w.cache, w.journal, length) == Undone(t.cache, t.journal, length)
  {
    assert OpenInv(Seal);
    var w := Write(t, a, account, undo);
    var n := |t.journal|;
    assert w.journal[..n] == t.journal && w.journal[n] == undo;
    assert UndoPair(w.cache, undo, w.journal[n + 1]) == t.cache;
    forall i | 0 <= i < |w.journal| ensures w.journal[i].address in w.cache {
      if i < n { assert w.journal[i] == t.journal[i]; }
    }
    UndonePair(w.cache, w.journal, length);
  }

  lemma SettersLeadBack(s: Value, t: Value, a: Address, b: Holdings, nonce: nat)
    requires LeadsBack(s, t)
    ensures LeadsBack(s, SetBalance(t, a, b)) && LeadsBack(s, SetNonce(t, a, nonce))
  {
    LoadLeadsBack(s, t, a);
    var u := Load(t, a);
    var account := u.cache[a].account;
    WriteLeadsBack(s, u, a, account.(balance := b), UndoBalance(a, account.balance));
    WriteLeadsBack(s, u, a, account.(nonce := nonce), UndoNonce(a, account.nonce));
  }

  /** A nested revert keeps the way back. */
  lemma RevertLeadsBack(s: Value, t: Value, u: Value)
    requires LeadsBack(s, t) && LeadsBack(t, u)
    ensures Revert(u, TakeSnapshot(t)).Some? && LeadsBack(s, Revert(u, TakeSnapshot(t)).value)
  {
    assert OpenInv(Seal);
    RevertKeepsInv(t, u);
    var r := Revert(u, TakeSnapshot(t)).value;
    var i, j := |s.journal|, |t.journal|;
    assert r.journal == t.journal by { if |u.journal| == j { assert u.journal[..j] == u.journal; } }
    JournalledMeans(r.trie, r.cache, r.journal);
    JournalledMeans(s.trie, s.cache, s.journal);
    SameWayBack(r.trie, r.cache, t.cache, t.journal, i);
  }

  lemma PairKeepsTouched(c: Cache, d: Cache, u: Undo, v: Undo)
    requires Touched(c) == Touched(d) && u.address == v.address && u.address in Touched(c)
    ensures Touched(UndoPair(c, u, v)) == Touched(UndoPair(d, u, v))
  {
    var c', d' := UndoPair(c, u, v), UndoPair(d, u, v);
    forall b ensures b in Touched(c') <==> b in Touched(d')
      ensures b in Touched(c') ==> Touched(c')[b] == Touched(d')[b]
    {
      assert b in Touched(c) <==> b in Touched(d);
      if b in Touched(c) { assert Touched(c)[b] == Touched(d)[b]; }
    }
  }

  /** Caches with the same marked accounts, over the same journal, stay so while it is undone. */
  lemma {:induction false} SameWayBack(trie: Ledger, c: Cache, d: Cache, journal: seq<Undo>, length: nat)
    requires Backed(trie, c, journal) && Backed(trie, d, journal) && Touched(c) == Touched(d)
    requires length % 2 == 0
    ensures Covered(c, journal) && Covered(d, journal)
    ensures Touched(Undone(c, journal, length)) == Touched(Undone(d, journal, length))
    decreases |journal|
  {
    BackedPair(trie, c, journal);
    BackedPair(trie, d, journal);
    if |journal| > length {
      var n := |journal| - 2;
      var c', d' := UndoPair(c, journal[n], journal[n + 1]), UndoPair(d, journal[n], journal[n + 1]);
      PairKeepsTouched(c, d, journal[n], journal[n + 1]);
      UndonePair(c, journal, length);
      UndonePair(d, journal, length);
      SameWayBack(trie, c', d', journal[..n], length);
    }
  }

  lemma {:induction false} OpLeadsBack(s: Value, t: Value, op: Op)
    requires LeadsBack(s, t) && CommitFree(op)
    ensures RunOp(t, op).Some? && LeadsBack(s, RunOp(t, op).value)
    decreases op
  {
    match op
    case Read(a) => LoadLeadsBack(s, t, a);
    case WriteBalance(a, b) => SettersLeadBack(s, t, a, b, 0);
    case WriteNonce(a, n) => SettersLeadBack(s, t, a, BLANK_ACCOUNT.balance, n);
    case WriteAux(aux) =>
    case CommitAll =>
    case Nested(ops) =>
      LeadsBackToItself(t);
      OpsLeadBack(t, t, ops);
      RevertLeadsBack(s, t, RunOps(t, ops).value);
  }

  lemma {:induction false} OpsLeadBack(s: Value, t: Value, ops: seq<Op>)
    requires LeadsBack(s, t) && forall i :: 0 <= i < |ops| ==> CommitFree(ops[i])
    ensures RunOps(t, ops).Some? && LeadsBack(s, RunOps(t, ops).value)
    decreases ops
  {
    if ops != [] {
      OpLeadsBack(s, t, ops[0]);
      OpsLeadBack(s, RunOp(t, ops[0]).value, ops[1..]);
    }
  }

  // ----- The theorem -----

  /** From a snapshot with nothing pending a revert always goes back. */
  lemma RevertToClean(s: Value, t: Value)
    requires Inv(s) && Inv(t) && s.journal == []
    ensures Covered(t.cache, t.journal)
    ensures var r := Revert(t, TakeSnapshot(s));
      r.Some? && Inv(r.value) && View(r.value) == View(s) && r.value.aux == s.aux && r.value.journal == []
  {
    RevertKeepsInv(s, t);
    EmptyJournalMeansUnmarked(s);
    EmptyJournalMeansUnmarked(Revert(t, TakeSnapshot(s)).value);
  }

  /** Reverting restores every account and every header variable, for every run without commits,
      and for every run at all if the journal was empty at the snapshot. */
  lemma RevertRestores(s: Value, ops: seq<Op>)
    requires Inv(s) && RunOps(s, ops).Some?
    requires s.journal == [] || forall i :: 0 <= i < |ops| ==> CommitFree(ops[i])
    ensures Covered(RunOps(s, ops).value.cache, RunOps(s, ops).value.journal)
    ensures var r := Revert(RunOps(s, ops).value, TakeSnapshot(s));
      r.Some? && Inv(r.value) && View(r.value) == View(s) && r.value.aux == s.aux
  {
    assert OpenInv(Seal);
    var t := RunOps(s, ops).value;
    RevertKeepsInv(s, t);
    if s.journal == [] {
      RevertToClean(s, t);
    } else {
      LeadsBackToItself(s);
      OpsLeadBack(s, s, ops);
    }
  }

  /** If the run does not raise, reverting to where it began shows what was there. */
  ghost predicate Restored(s: Value, ops: seq<Op>)
    requires Inv(s)
  {
    match RunOps(s, ops)
    case None => true
    case Some(t) =>
      && Covered(t.cache, t.journal)
      && var r := Revert(t, TakeSnapshot(s));
      r.Some? && View(r.value) == View(s) && r.value.aux == s.aux
  }

  /** Reverting works after every run, commits included, exactly if nothing was pending at the
      snapshot. With pending changes, a commit and one more change are enough: if the commit changed
      the root the revert raises, and if it did not, the journal is too short to undo the change. */
  lemma RevertWorksIffNothingPending(s: Value)
    requires Inv(s)
    ensures s.journal == [] <==> forall ops :: Restored(s, ops)
  {
    assert OpenInv(Seal);
    if s.journal == [] {
      forall ops ensures Restored(s, ops) {
        if RunOps(s, ops).Some? { RevertRestores(s, ops); }
      }
    } else {
      var a := s.journal[0].address;
      var n := At(View(s), a).nonce + 1;
      CommitThenWrite(s, a, n);
      assert !Restored(s, [CommitAll, WriteNonce(a, n)]);
    }
  }

  lemma CommitThenWrite(s: Value, a: Address, n: nat)
    requires Inv(s) && s.journal != [] && n != At(View(s), a).nonce
    ensures !Restored(s, [CommitAll, WriteNonce(a, n)])
  {
    RunCommitWrite(s, a, n);
    RevertMissesWrite(s, a, n);
  }

  lemma OneOp(s: Value, op: Op)
    requires Inv(s)
    ensures RunOps(s, [op]) == RunOp(s, op)
  {
    assert [op][1..] == [];
    if RunOp(s, op).Some? { assert RunOps(RunOp(s, op).value, []) == RunOp(s, op); }
  }

  lemma TwoOps(s: Value, x: Op, y: Op)
    requires Inv(s) && RunOp(s, x).Some?
    ensures RunOps(s, [x, y]) == RunOp(RunOp(s, x).value, y)
  {
    assert [x, y][1..] == [y];
    OneOp(RunOp(s, x).value, y);
  }

  lemma RunCommitWrite(s: Value, a: Address, n: nat)
    requires Inv(s)
    ensures RunOps(s, [CommitAll, WriteNonce(a, n)]) == Some(SetNonce(Commit(s), a, n))
  {
    TwoOps(s, CommitAll, WriteNonce(a, n));
  }

  lemma RevertMissesWrite(s: Value, a: Address, n: nat)
    requires Inv(s) && s.journal != [] && n != At(View(s), a).nonce
    ensures var t := SetNonce(Commit(s), a, n);
      && Covered(t.cache, t.journal)
      && var r := Revert(t, TakeSnapshot(s)); r.Some? ==> View(r.value) != View(s)
  {
    assert OpenInv(Seal);
    CommitKeeps(s);
    SettersKeep(Commit(s), a, BLANK_ACCOUNT.balance, n);
    var t := SetNonce(Commit(s), a, n);
    assert At(View(t), a).nonce == n;
    assert |t.journal| == 2 <= |s.journal|;
    forall i | 0 <= i < |t.journal| ensures t.journal[i].address in t.cache { assert t.journal[i].address == a; }
  }
}
