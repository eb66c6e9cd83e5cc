/** Which pending transactions a new block takes (create_block of chain_service.py). */
module PoolSelection {
  import opened Networks
  import opened Ledger
  import opened Options
  import opened LedgerLaws
  import opened Blocks

  /** The address family of a transaction: 1 for IPv4, 2 for IPv6. */
  function Afi(tx: Tx): int { if tx.net.Width() == 32 then 1 else 2 }

  /** Blocks with an even number carry IPv4 transactions, the others IPv6. */
  predicate Fits(tx: Tx, number: int) { Afi(tx) == if number % 2 == 0 then 1 else 2 }

  predicate Eligible(tx: Tx, number: int) { Fits(tx, number) && Executable(tx) }

  /** The first eligible transaction of every sender not used yet, in order. */
  function Select(txs: seq<Tx>, used: set<Option<Address>>, number: int): seq<Tx>
    decreases |txs|
  {
    if txs == [] then []
    else if Eligible(txs[0], number) && txs[0].sender !in used then
      [txs[0]] + Select(txs[1..], used + {txs[0].sender}, number)
    else Select(txs[1..], used, number)
  }

  /** The transaction at this position is the first eligible one of its sender. */
  predicate FirstOfSender(txs: seq<Tx>, number: int, i: nat)
    requires i < |txs|
  {
    && Eligible(txs[i], number)
    && forall j :: 0 <= j < i && Eligible(txs[j], number) ==> txs[j].sender != txs[i].sender
  }

  /** What is selected: exactly the first eligible transactions of the unused senders. */
  lemma {:induction false} SelectMeans(txs: seq<Tx>, used: set<Option<Address>>, number: int, tx: Tx)
    ensures tx in Select(txs, used, number) <==>
            exists i :: 0 <= i < |txs| && txs[i] == tx && FirstOfSender(txs, number, i) && tx.sender !in used
    decreases |txs|
  {
    if txs != [] {
      var x, rest := txs[0], txs[1..];
      var taken := Eligible(x, number) && x.sender !in used;
      var used' := if taken then used + {x.sender} else used;
      SelectMeans(rest, used', number, tx);
      if i :| 0 <= i < |txs| && txs[i] == tx && FirstOfSender(txs, number, i) && tx.sender !in used {
        if i > 0 {
          assert rest[i - 1] == tx;
          assert FirstOfSender(rest, number, i - 1) by {
            forall j | 0 <= j < i - 1 && Eligible(rest[j], number) ensures rest[j].sender != rest[i - 1].sender {
              assert rest[j] == txs[j + 1];
            }
          }
          assert Eligible(x, number) ==> x.sender != tx.sender;
        }
      }
      if i :| 0 <= i < |rest| && rest[i] == tx && FirstOfSender(rest, number, i) && tx.sender !in used' {
        assert txs[i + 1] == tx;
        forall j | 0 <= j < i + 1 && Eligible(txs[j], number) ensures txs[j].sender != txs[i + 1].sender {
          if j > 0 { assert rest[j - 1] == txs[j]; }
        }
        assert FirstOfSender(txs, number, i + 1);
      }
      if taken && x == tx { assert FirstOfSender(txs, number, 0); }
    }
  }

  /** No sender is selected twice, and every one is in the right family. */
  lemma {:induction false} SelectDistinct(txs: seq<Tx>, used: set<Option<Address>>, number: int)
    ensures DistinctSenders(Select(txs, used, number)) && Senders(Select(txs, used, number)) !! used
    decreases |txs|
  {
    if txs != [] {
      var x, rest := txs[0], txs[1..];
      if Eligible(x, number) && x.sender !in used {
        SelectDistinct(rest, used + {x.sender}, number);
        DistinctStep(x, Select(rest, used + {x.sender}, number));
        SendersStep(x, Select(rest, used + {x.sender}, number));
      } else {
        SelectDistinct(rest, used, number);
      }
    }
  }

  /** The transaction can be executed, is for IPv4 or IPv6 addresses, and is the first such one of its
      sender in its family. */
  predicate FirstOfFamily(txs: seq<Tx>, i: nat)
    requires i < |txs|
  {
    && Executable(txs[i]) && txs[i].net.Width() in {32, 128}
    && forall j :: 0 <= j < i && Executable(txs[j]) && txs[j].sender == txs[i].sender ==>
         (txs[j].net.Width() == 32) != (txs[i].net.Width() == 32)
  }

  /** In numbers: such a transaction is selected exactly if the block is even for IPv4 and odd for IPv6. */
  lemma FamilyRule(txs: seq<Tx>, number: int, i: nat)
    requires i < |txs| && FirstOfFamily(txs, i)
    ensures txs[i] in Select(txs, {}, number) <==> txs[i].net.Width() == if number % 2 == 0 then 32 else 128
  {
    SelectMeans(txs, {}, number, txs[i]);
    if txs[i].net.Width() == if number % 2 == 0 then 32 else 128 {
      assert FirstOfSender(txs, number, i);
    }
  }

  /** Against a consistent ledger at which all pending transactions are valid, the selection is a
      valid block: every order of it applies, with the same result. */
  lemma SelectionIsValidBlock(l: Ledger, pool: seq<Tx>, number: int)
    requires Consistent(l) && forall tx :: tx in pool ==> Validate(l, tx) == None
    ensures BlockValid(l, Select(pool, {}, number)) && ApplyAll(l, Select(pool, {}, number)).Complete?
    ensures forall tx :: tx in Select(pool, {}, number) ==> Validate(l, tx) == None && Fits(tx, number)
  {
    var txs := Select(pool, {}, number);
    SelectDistinct(pool, {}, number);
    DistinctByCount(txs);
    forall tx | tx in txs ensures tx in pool && Eligible(tx, number) && ValidAt(l, tx) {
      SelectMeans(pool, {}, number, tx);
      ConsistentValidAt(l, tx);
    }
    ValidBlockCompletes(l, txs);
  }

  // ----- A scratch copy of the head state -----

  /** The same accounts, whether or not blank ones are recorded. */
  ghost predicate Same(l: Ledger, m: Ledger) { forall a :: At(l, a) == At(m, a) }

  lemma SameValid(l: Ledger, m: Ledger, tx: Tx)
    requires Same(l, m) && ValidAt(l, tx)
    ensures ValidAt(m, tx)
  {
  }

  lemma SameApply(l: Ledger, m: Ledger, tx: Tx)
    requires Same(l, m)
    ensures Apply(l, tx).Failed? || Apply(m, tx).Failed? ==> Apply(l, tx) == Apply(m, tx)
    ensures Apply(l, tx).Applied? && Apply(m, tx).Applied? ==> Same(Apply(l, tx).ledger, Apply(m, tx).ledger)
  {
    if tx.sender.Some? {
      assert At(l, tx.sender.value) == At(m, tx.sender.value);
      assert Revoked(l, tx) == Revoked(m, tx);
      forall a ensures tx.sender.value in At(l, a).balance.received <==> tx.sender.value in At(m, a).balance.received {
        assert At(l, a) == At(m, a);
      }
    }
    if Apply(l, tx).Applied? && Apply(m, tx).Applied? {
      forall a ensures At(Apply(l, tx).ledger, a) == At(Apply(m, tx).ledger, a) {
        assert At(l, a) == At(m, a);
        AfterApply(l, tx, a);
        AfterApply(m, tx, a);
      }
    }
  }

  // ----- Trying the pool in order -----

  /** The transactions of the right family that apply one after the other, passing over those that do
      not; None if one of them raises in the middle of its writes. */
  function Tried(m: Ledger, txs: seq<Tx>, number: int): Option<seq<Tx>>
    decreases |txs|
  {
    if txs == [] then Some([])
    else if !Fits(txs[0], number) then Tried(m, txs[1..], number)
    else
      match Apply(m, txs[0])
      case Failed(e) => if e == MissingKey then None else Tried(m, txs[1..], number)
      case Applied(m') =>
        var rest := Tried(m', txs[1..], number);
        if rest == None then None else Some([txs[0]] + rest.value)
  }

  /** On a copy that shows the same accounts the same transactions apply. */
  lemma {:induction false} TriedSame(l: Ledger, m: Ledger, txs: seq<Tx>, number: int)
    requires Same(l, m)
    ensures Tried(l, txs, number) == Tried(m, txs, number)
    decreases |txs|
  {
    if txs != [] {
      SameApply(l, m, txs[0]);
      if Fits(txs[0], number) && Apply(l, txs[0]).Applied? {
        TriedSame(Apply(l, txs[0]).ledger, Apply(m, txs[0]).ledger, txs[1..], number);
      } else {
        TriedSame(l, m, txs[1..], number);
      }
    }
  }

  /** What was chosen applies to the end, and is of the right family. */
  lemma {:induction false} TriedApplies(l: Ledger, txs: seq<Tx>, number: int)
    requires Tried(l, txs, number).Some?
    ensures ApplyAll(l, Tried(l, txs, number).value).Complete?
    ensures forall tx :: tx in Tried(l, txs, number).value ==> Fits(tx, number)
    decreases |txs|
  {
    if txs != [] {
      if Fits(txs[0], number) && Apply(l, txs[0]).Applied? {
        var l' := Apply(l, txs[0]).ledger;
        TriedApplies(l', txs[1..], number);
        ApplyAllStep(l, txs[0], Tried(l', txs[1..], number).value);
      } else {
        TriedApplies(l, txs[1..], number);
      }
    }
  }

  /** If all are valid, or stale because their sender was used, the choice is the selection. */
  lemma {:induction false} TriedIsSelection(m: Ledger, txs: seq<Tx>, used: set<Option<Address>>, number: int)
    requires ValidUnlessUsed(m, txs, used)
    ensures Tried(m, txs, number) == Some(Select(txs, used, number))
    decreases |txs|
  {
    if txs != [] {
      TryNext(m, txs, used);
      if Fits(txs[0], number) && Apply(m, txs[0]).Applied? {
        TriedIsSelection(Apply(m, txs[0]).ledger, txs[1..], used + {txs[0].sender}, number);
      } else {
        TriedIsSelection(m, txs[1..], used, number);
      }
    }
  }

  /** Trying the next pending transaction on the scratch ledger: it applies exactly if it is the
      first of its sender and can be executed. */
  lemma TryNext(m: Ledger, txs: seq<Tx>, used: set<Option<Address>>)
    requires txs != [] && ValidUnlessUsed(m, txs, used)
    ensures Apply(m, txs[0]).Applied? <==> Executable(txs[0]) && txs[0].sender !in used
    ensures Apply(m, txs[0]).Failed? ==> Apply(m, txs[0]).error != MissingKey
    ensures ValidUnlessUsed(m, txs[1..], used)
    ensures Apply(m, txs[0]).Applied? ==> ValidUnlessUsed(Apply(m, txs[0]).ledger, txs[1..], used + {txs[0].sender})
  {
    assert if txs[0].sender in used then Stale(m, txs[0]) else ValidAt(m, txs[0]);
    forall i | 0 <= i < |txs| - 1
      ensures if txs[1..][i].sender in used then Stale(m, txs[1..][i]) else ValidAt(m, txs[1..][i])
    {
      assert txs[1..][i] == txs[i + 1];
    }
    if Apply(m, txs[0]).Applied? { UsedAfter(m, txs[1..], used, txs[0]); }
  }

  // ----- Cleaning the pool -----

  function RemoveFirst(pool: seq<Tx>, tx: Tx): seq<Tx>
    decreases |pool|
  {
    if pool == [] then [] else if pool[0] == tx then pool[1..] else [pool[0]] + RemoveFirst(pool[1..], tx)
  }

  /** One occurrence less for each transaction in the list. */
  function RemoveEach(pool: seq<Tx>, txs: seq<Tx>): seq<Tx>
    decreases |txs|
  {
    if txs == [] then pool else RemoveEach(RemoveFirst(pool, txs[0]), txs[1..])
  }

  function Invalid(l: Ledger, pool: seq<Tx>): seq<Tx>
    decreases |pool|
  {
    if pool == [] then []
    else (if Validate(l, pool[0]) == None then [] else [pool[0]]) + Invalid(l, pool[1..])
  }

  function StillValid(l: Ledger, pool: seq<Tx>): seq<Tx>
    decreases |pool|
  {
    if pool == [] then []
    else (if Validate(l, pool[0]) == None then [pool[0]] else []) + StillValid(l, pool[1..])
  }

  lemma {:induction false} RemoveFirstCounts(pool: seq<Tx>, tx: Tx)
    ensures multiset(RemoveFirst(pool, tx)) == multiset(pool) - multiset{tx}
    decreases |pool|
  {
    if pool != [] {
      assert pool == [pool[0]] + pool[1..];
      RemoveFirstCounts(pool[1..], tx);
    }
  }

  lemma {:induction false} RemoveAbsent(pool: seq<Tx>, tx: Tx)
    requires tx !in pool
    ensures RemoveFirst(pool, tx) == pool
    decreases |pool|
  {
    if pool != [] { RemoveAbsent(pool[1..], tx); }
  }

  lemma {:induction false} RemoveEachCounts(pool: seq<Tx>, txs: seq<Tx>)
    ensures multiset(RemoveEach(pool, txs)) == multiset(pool) - multiset(txs)
    decreases |txs|
  {
    if txs != [] {
      assert txs == [txs[0]] + txs[1..];
      RemoveFirstCounts(pool, txs[0]);
      RemoveEachCounts(RemoveFirst(pool, txs[0]), txs[1..]);
    }
  }

  lemma {:induction false} RemoveEachAfter(x: Tx, rest: seq<Tx>, txs: seq<Tx>)
    requires x !in txs
    ensures RemoveEach([x] + rest, txs) == [x] + RemoveEach(rest, txs)
    decreases |txs|
  {
    if txs != [] {
      assert ([x] + rest)[1..] == rest;
      RemoveEachAfter(x, RemoveFirst(rest, txs[0]), txs[1..]);
    }
  }

  lemma InvalidNext(l: Ledger, pool: seq<Tx>, i: nat)
    requires i < |pool|
    ensures Invalid(l, pool[i..]) == (if Validate(l, pool[i]) == None then [] else [pool[i]]) + Invalid(l, pool[i + 1..])
  {
  }

  lemma {:induction false} InvalidAre(l: Ledger, pool: seq<Tx>, tx: Tx)
    ensures tx in Invalid(l, pool) <==> tx in pool && Validate(l, tx) != None
    ensures tx in StillValid(l, pool) <==> tx in pool && Validate(l, tx) == None
    decreases |pool|
  {
    if pool != [] { InvalidAre(l, pool[1..], tx); }
  }

  /** Removing the invalid ones one by one leaves the valid ones, in their order. */
  lemma {:induction false} PurgeLeavesValid(l: Ledger, pool: seq<Tx>)
    ensures RemoveEach(pool, Invalid(l, pool)) == StillValid(l, pool)
    decreases |pool|
  {
    if pool != [] {
      var x, rest := pool[0], pool[1..];
      PurgeLeavesValid(l, rest);
      assert pool == [x] + rest;
      if Validate(l, x) == None {
        InvalidAre(l, rest, x);
        assert Invalid(l, pool) == Invalid(l, rest);
        RemoveEachAfter(x, rest, Invalid(l, rest));
      } else {
        assert Invalid(l, pool) == [x] + Invalid(l, rest);
        assert RemoveFirst(pool, x) == rest;
        assert Invalid(l, pool)[1..] == Invalid(l, rest);
      }
    }
  }

  /** Taking a block's transactions out of the pool before the purge changes what the purge leaves
      exactly if one of them is pending and valid. */
  lemma {:induction false} RemovalShows(l: Ledger, pool: seq<Tx>, txs: seq<Tx>)
    ensures StillValid(l, RemoveEach(pool, txs)) == StillValid(l, pool) <==>
            forall tx :: tx in txs && tx in pool ==> Validate(l, tx) != None
  {
    if forall tx :: tx in txs && tx in pool ==> Validate(l, tx) != None {
      InvalidRemoved(l, pool, txs);
    } else {
      var tx :| tx in txs && tx in pool && Validate(l, tx) == None;
      StillValidCounts(l, pool, tx);
      StillValidCounts(l, RemoveEach(pool, txs), tx);
      RemoveEachCounts(pool, txs);
      assert tx in multiset(pool) && tx in multiset(txs);
      assert multiset(RemoveEach(pool, txs))[tx] < multiset(pool)[tx];
    }
  }

  lemma {:induction false} StillValidCounts(l: Ledger, pool: seq<Tx>, tx: Tx)
    ensures multiset(StillValid(l, pool))[tx] == if Validate(l, tx) == None then multiset(pool)[tx] else 0
    decreases |pool|
  {
    if pool != [] {
      assert pool == [pool[0]] + pool[1..];
      StillValidCounts(l, pool[1..], tx);
    }
  }

  lemma {:induction false} InvalidRemoved(l: Ledger, pool: seq<Tx>, txs: seq<Tx>)
    requires forall tx :: tx in txs && tx in pool ==> Validate(l, tx) != None
    ensures StillValid(l, RemoveEach(pool, txs)) == StillValid(l, pool)
    decreases |txs|
  {
    if txs != [] {
      FirstRemoved(l, pool, txs[0]);
      RemoveFirstCounts(pool, txs[0]);
      forall tx | tx in RemoveFirst(pool, txs[0]) ensures tx in pool {
        assert tx in multiset(RemoveFirst(pool, txs[0]));
        assert tx in multiset(pool);
      }
      InvalidRemoved(l, RemoveFirst(pool, txs[0]), txs[1..]);
    }
  }

  lemma {:induction false} FirstRemoved(l: Ledger, pool: seq<Tx>, tx: Tx)
    requires tx in pool ==> Validate(l, tx) != None
    ensures StillValid(l, RemoveFirst(pool, tx)) == StillValid(l, pool)
    decreases |pool|
  {
    if pool != [] && pool[0] != tx {
      FirstRemoved(l, pool[1..], tx);
      assert RemoveFirst(pool, tx)[1..] == RemoveFirst(pool[1..], tx);
    }
  }
}
