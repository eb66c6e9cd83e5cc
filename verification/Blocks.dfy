/** Transactions of one block: validated one by one against the parent ledger, then applied one
    after the other. They do not interfere as long as their senders differ. */
module Blocks {
  import opened Networks
  import opened Ledger
  import opened Options
  import opened LedgerLaws
  import opened Effects
  import Seqs

  /** The transaction passes validation and the shares it revokes are on record. */
  ghost predicate ValidAt(l: Ledger, tx: Tx) {
    Validate(l, tx) == None && SharesKnown(l, tx.sender.value, Revoked(l, tx))
  }

  /** The sender has applied another transaction with this nonce. */
  predicate Stale(l: Ledger, tx: Tx) {
    tx.sender.Some? && tx.sender != Some(NULL_ADDRESS) && tx.nonce < At(l, tx.sender.value).nonce
  }

  lemma ConsistentValidAt(l: Ledger, tx: Tx)
    requires Consistent(l) && Validate(l, tx) == None
    ensures ValidAt(l, tx)
  {
    var s := tx.sender.value;
    forall a | a in Revoked(l, tx) ensures s in Received(l, a) {
      assert MirroredPair(l, s, a);
    }
  }

  // ----- One transaction does not disturb another sender's -----

  lemma OtherSenderKeptValid(l: Ledger, x: Tx, tx: Tx)
    requires Apply(l, x).Applied? && ValidAt(l, tx) && x.sender != tx.sender
    ensures ValidAt(Apply(l, x).ledger, tx)
    ensures Revoked(Apply(l, x).ledger, tx) == Revoked(l, tx)
  {
    var s := tx.sender.value;
    AfterApply(l, x, s);
    OthersKeep(x, Revoked(l, x), s, At(l, s).balance);
    forall a | a in Revoked(l, tx) ensures s in Received(Apply(l, x).ledger, a) {
      AfterApply(l, x, a);
      OthersKeep(x, Revoked(l, x), a, At(l, a).balance);
    }
  }

  lemma StaleStays(l: Ledger, x: Tx, tx: Tx)
    requires Apply(l, x).Applied?
    requires Stale(l, tx) || (ValidAt(l, tx) && x.sender == tx.sender)
    ensures Stale(Apply(l, x).ledger, tx)
  {
  }

  // ----- Which transactions of a valid block are applied -----

  /** Every transaction is valid, or stale if its sender is among those used up. */
  ghost predicate ValidUnlessUsed(l: Ledger, txs: seq<Tx>, used: set<Option<Address>>) {
    forall i :: 0 <= i < |txs| ==> if txs[i].sender in used then Stale(l, txs[i]) else ValidAt(l, txs[i])
  }

  lemma UsedAfter(l: Ledger, txs: seq<Tx>, used: set<Option<Address>>, x: Tx)
    requires ValidUnlessUsed(l, txs, used) && Apply(l, x).Applied? && x.sender !in used
    ensures ValidUnlessUsed(Apply(l, x).ledger, txs, used + {x.sender})
  {
    forall i | 0 <= i < |txs|
      ensures if txs[i].sender in used + {x.sender} then Stale(Apply(l, x).ledger, txs[i])
              else ValidAt(Apply(l, x).ledger, txs[i])
    {
      if txs[i].sender in used + {x.sender} {
        StaleStays(l, x, txs[i]);
      } else {
        OtherSenderKeptValid(l, x, txs[i]);
      }
    }
  }

  /** Position of the first transaction with a sender seen before, or that cannot be executed. */
  function StopIndex(txs: seq<Tx>, used: set<Option<Address>>): (i: nat)
    ensures i <= |txs|
    decreases |txs|
  {
    if txs == [] || txs[0].sender in used || !Executable(txs[0]) then 0
    else 1 + StopIndex(txs[1..], used + {txs[0].sender})
  }

  /** Application runs exactly to the first repeated sender, missing recipient or zero field. */
  lemma {:induction false} RunOutcome(l: Ledger, txs: seq<Tx>, used: set<Option<Address>>)
    requires ValidUnlessUsed(l, txs, used)
    ensures var i := StopIndex(txs, used);
      && ApplyAll(l, txs[..i]).Complete?
      && ApplyAll(l, txs) ==
           if i == |txs| then ApplyAll(l, txs[..i])
           else Stopped(ApplyAll(l, txs[..i]).ledger, i,
                        if txs[i].sender in used + Senders(txs[..i]) then InvalidNonce
                        else if HasZeroField(txs[i]) then ZeroField else InvalidAddress)
    decreases |txs|
  {
    if txs != [] {
      var x := txs[0];
      assert if x.sender in used then Stale(l, x) else ValidAt(l, x);
      if x.sender in used || !Executable(x) {
        assert txs[..0] == [];
      } else {
        var l', j := Apply(l, x).ledger, StopIndex(txs[1..], used + {x.sender});
        assert ValidUnlessUsed(l, txs[1..], used);
        UsedAfter(l, txs[1..], used, x);
        RunOutcome(l', txs[1..], used + {x.sender});
        ApplyAllStep(l, x, txs[1..]);
        ApplyAllStep(l, x, txs[1..][..j]);
        Seqs.TakeStep(txs, j);
        SendersStep(x, txs[1..][..j]);
        assert used + {x.sender} + Senders(txs[1..][..j]) == used + ({x.sender} + Senders(txs[1..][..j]));
      }
    }
  }

  lemma SendersStep(x: Tx, rest: seq<Tx>)
    ensures Senders([x] + rest) == {x.sender} + Senders(rest)
  {
  }

  function Senders(txs: seq<Tx>): set<Option<Address>> { set tx | tx in txs :: tx.sender }

  predicate DistinctSenders(txs: seq<Tx>) {
    forall i, j :: 0 <= i < j < |txs| ==> txs[i].sender != txs[j].sender
  }

  lemma {:induction false} StopIndexMeaning(txs: seq<Tx>, used: set<Option<Address>>)
    ensures StopIndex(txs, used) == |txs| <==>
            && DistinctSenders(txs)
            && forall i :: 0 <= i < |txs| ==> txs[i].sender !in used && Executable(txs[i])
    decreases |txs|
  {
    if txs != [] {
      StopIndexMeaning(txs[1..], used + {txs[0].sender});
      var rest := txs[1..];
      assert forall i :: 0 <= i < |rest| ==> rest[i] == txs[i + 1];
      if StopIndex(txs, used) == |txs| {
        forall i, j | 0 <= i < j < |txs| ensures txs[i].sender != txs[j].sender {
          assert txs[j] == rest[j - 1];
          if i > 0 { assert txs[i] == rest[i - 1]; }
        }
        forall i | 0 <= i < |txs| ensures txs[i].sender !in used && Executable(txs[i]) {
          if i > 0 { assert txs[i] == rest[i - 1]; }
        }
      }
    }
  }

  /** If all transactions are valid against a consistent parent ledger, applying them in sequence
      succeeds exactly if no sender repeats, no recipient is missing and no locator field is zero. */
  lemma ValidBlockApplies(l: Ledger, txs: seq<Tx>)
    requires Consistent(l) && forall i :: 0 <= i < |txs| ==> Validate(l, txs[i]) == None
    ensures ApplyAll(l, txs).Complete? <==> DistinctSenders(txs) && forall i :: 0 <= i < |txs| ==> Executable(txs[i])
  {
    forall i | 0 <= i < |txs| ensures ValidAt(l, txs[i]) { ConsistentValidAt(l, txs[i]); }
    RunOutcome(l, txs, {});
    StopIndexMeaning(txs, {});
  }

  /** With a repeated sender and all transactions executable, the run stops at the repetition, on the
      nonce, with everything before it applied. */
  lemma RepeatedSenderStopsOnNonce(l: Ledger, txs: seq<Tx>)
    requires Consistent(l) && !DistinctSenders(txs)
    requires forall i :: 0 <= i < |txs| ==> Validate(l, txs[i]) == None && Executable(txs[i])
    ensures ApplyAll(l, txs).Stopped? && ApplyAll(l, txs).error == InvalidNonce
    ensures var i := ApplyAll(l, txs).applied;
      && 0 < i < |txs| && DistinctSenders(txs[..i]) && txs[i].sender in Senders(txs[..i])
      && ApplyAll(l, txs[..i]) == Complete(ApplyAll(l, txs).ledger)
  {
    forall i | 0 <= i < |txs| ensures ValidAt(l, txs[i]) { ConsistentValidAt(l, txs[i]); }
    RunOutcome(l, txs, {});
    StopIndexMeaning(txs, {});
    StopIndexPrefix(txs, {});
    var i := StopIndex(txs, {});
    StopIndexMeaning(txs[..i], {});
    StopReason(txs, {});
  }

  lemma {:induction false} StopReason(txs: seq<Tx>, used: set<Option<Address>>)
    ensures var i := StopIndex(txs, used); i < |txs| ==> txs[i].sender in used + Senders(txs[..i]) || !Executable(txs[i])
    decreases |txs|
  {
    if txs != [] && !(txs[0].sender in used || !Executable(txs[0])) {
      StopReason(txs[1..], used + {txs[0].sender});
      var j := StopIndex(txs[1..], used + {txs[0].sender});
      assert txs[..j + 1] == [txs[0]] + txs[1..][..j];
      SendersStep(txs[0], txs[1..][..j]);
      assert used + {txs[0].sender} + Senders(txs[1..][..j]) == used + Senders(txs[..j + 1]);
    }
  }

  lemma {:induction false} StopIndexPrefix(txs: seq<Tx>, used: set<Option<Address>>)
    ensures StopIndex(txs[..StopIndex(txs, used)], used) == StopIndex(txs, used)
    decreases |txs|
  {
    if txs != [] && !(txs[0].sender in used || !Executable(txs[0])) {
      StopIndexPrefix(txs[1..], used + {txs[0].sender});
      var j := StopIndex(txs[1..], used + {txs[0].sender});
      assert txs[..j + 1][1..] == txs[1..][..j];
    }
  }

  // ----- Order does not matter -----

  lemma KeysAfter(l: Ledger, tx: Tx)
    requires Apply(l, tx).Applied?
    ensures Apply(l, tx).ledger.Keys == l.Keys + Written(tx, Revoked(l, tx))
  {
  }

  lemma KeysAfterBoth(l: Ledger, x: Tx, y: Tx)
    requires ValidAt(l, x) && Executable(x) && ValidAt(l, y) && Executable(y) && x.sender != y.sender
    ensures Apply(l, x).Applied? && Apply(l, y).Applied? && Apply(Apply(l, x).ledger, y).Applied?
    ensures Apply(Apply(l, x).ledger, y).ledger.Keys == l.Keys + Written(x, Revoked(l, x)) + Written(y, Revoked(l, y))
  {
    OtherSenderKeptValid(l, x, y);
    KeysAfter(l, x);
    KeysAfter(Apply(l, x).ledger, y);
  }

  /** Valid transactions of different senders can be applied in either order. */
  lemma ApplyCommutes(l: Ledger, x: Tx, y: Tx)
    requires OwnersDisjoint(l) && ValidAt(l, x) && Executable(x) && ValidAt(l, y) && Executable(y)
    requires x.sender != y.sender
    ensures Apply(l, x).Applied? && Apply(l, y).Applied? && Apply(Apply(l, x).ledger, y).Applied?
    ensures Apply(Apply(l, x).ledger, y) == Apply(Apply(l, y).ledger, x)
  {
    KeysAfterBoth(l, x, y);
    KeysAfterBoth(l, y, x);
    forall a ensures At(Apply(Apply(l, x).ledger, y).ledger, a) == At(Apply(Apply(l, y).ledger, x).ledger, a) {
      BothOrdersAt(l, x, y, a);
    }
    SameLedger(Apply(Apply(l, x).ledger, y).ledger, Apply(Apply(l, y).ledger, x).ledger);
  }

  lemma SameLedger(l: Ledger, l': Ledger)
    requires l.Keys == l'.Keys && forall a :: At(l, a) == At(l', a)
    ensures l == l'
  {
    forall a | a in l ensures l[a] == l'[a] { assert At(l, a) == At(l', a); }
  }

  lemma BothOrdersAt(l: Ledger, x: Tx, y: Tx, a: Address)
    requires OwnersDisjoint(l) && ValidAt(l, x) && Executable(x) && ValidAt(l, y) && Executable(y)
    requires x.sender != y.sender
    ensures Apply(Apply(l, x).ledger, y).Applied? && Apply(Apply(l, y).ledger, x).Applied?
    ensures At(Apply(Apply(l, x).ledger, y).ledger, a) == At(Apply(Apply(l, y).ledger, x).ledger, a)
  {
    OtherSenderKeptValid(l, x, y);
    OtherSenderKeptValid(l, y, x);
    AfterApply(l, x, a);
    AfterApply(l, y, a);
    AfterApply(Apply(l, x).ledger, y, a);
    AfterApply(Apply(l, y).ledger, x, a);
    assert Own(l, x.sender.value) !! Own(l, y.sender.value);
    AccountsCommute(x, y, Revoked(l, x), Revoked(l, y), a, At(l, a));
  }

  ghost predicate BlockValid(l: Ledger, txs: seq<Tx>) {
    OwnersDisjoint(l) && |Senders(txs)| == |txs| && forall tx :: tx in txs ==> ValidAt(l, tx) && Executable(tx)
  }

  lemma SenderAmong(x: Tx, rest: seq<Tx>)
    ensures x.sender in Senders(rest) <==> exists j :: 0 <= j < |rest| && rest[j].sender == x.sender
  {
  }

  lemma DistinctStep(x: Tx, rest: seq<Tx>)
    ensures DistinctSenders([x] + rest) <==> DistinctSenders(rest) && x.sender !in Senders(rest)
  {
    SenderAmong(x, rest);
    var txs := [x] + rest;
    assert forall j :: 0 < j < |txs| ==> txs[j] == rest[j - 1];
    if DistinctSenders(txs) {
      forall i, j | 0 <= i < j < |rest| ensures rest[i].sender != rest[j].sender {
        assert txs[i + 1].sender != txs[j + 1].sender;
      }
      forall j | 0 <= j < |rest| ensures rest[j].sender != x.sender {
        assert txs[0].sender != txs[j + 1].sender;
      }
    }
  }

  lemma {:induction false} DistinctByCount(txs: seq<Tx>)
    ensures |Senders(txs)| <= |txs|
    ensures DistinctSenders(txs) <==> |Senders(txs)| == |txs|
    decreases |txs|
  {
    if txs != [] {
      var x, rest := txs[0], txs[1..];
      assert txs == [x] + rest;
      DistinctByCount(rest);
      SendersStep(x, rest);
      DistinctStep(x, rest);
    }
  }

  lemma HeadSenderUnique(x: Tx, rest: seq<Tx>)
    requires |Senders([x] + rest)| == |[x] + rest|
    ensures x.sender !in Senders(rest) && |Senders(rest)| == |rest|
    ensures forall tx :: tx in rest ==> tx.sender != x.sender
  {
    SendersStep(x, rest);
    DistinctByCount(rest);
    forall tx | tx in rest ensures tx.sender in Senders(rest) {}
  }

  lemma BlockValidRest(l: Ledger, x: Tx, rest: seq<Tx>)
    requires BlockValid(l, [x] + rest)
    ensures ValidAt(l, x) && Executable(x) && Apply(l, x).Applied? && x.sender !in Senders(rest)
    ensures BlockValid(Apply(l, x).ledger, rest)
  {
    assert x in [x] + rest && forall tx :: tx in rest ==> tx in [x] + rest;
    HeadSenderUnique(x, rest);
    OwnersStayDisjoint(l, x);
    forall tx | tx in rest ensures ValidAt(Apply(l, x).ledger, tx) && Executable(tx) {
      OtherSenderKeptValid(l, x, tx);
    }
  }

  lemma {:induction false} ValidBlockCompletes(l: Ledger, txs: seq<Tx>)
    requires BlockValid(l, txs)
    ensures ApplyAll(l, txs).Complete?
    decreases |txs|
  {
    if txs != [] {
      assert txs == [txs[0]] + txs[1..];
      BlockValidRest(l, txs[0], txs[1..]);
      ValidBlockCompletes(Apply(l, txs[0]).ledger, txs[1..]);
    }
  }

  lemma BlockValidReordered(l: Ledger, txs: seq<Tx>, txs': seq<Tx>)
    requires BlockValid(l, txs) && multiset(txs) == multiset(txs')
    ensures BlockValid(l, txs')
  {
    Seqs.SameElements(txs, txs');
    assert Senders(txs) == Senders(txs');
  }

  /** A transaction of a valid block can be moved to the front. */
  lemma {:induction false} MoveToFront(l: Ledger, front: seq<Tx>, x: Tx, back: seq<Tx>)
    requires BlockValid(l, front + [x] + back)
    ensures ApplyAll(l, front + [x] + back) == ApplyAll(l, [x] + (front + back))
    decreases |front|
  {
    if front == [] {
      assert front + [x] + back == [x] + (front + back);
    } else {
      var w, rest := front[0], front[1..];
      assert front == [w] + rest;
      Seqs.PullHead(w, rest, x, back);
      BlockValidRest(l, w, rest + [x] + back);
      var lw := Apply(l, w).ledger;
      MoveToFront(lw, rest, x, back);
      BlockValidReordered(lw, rest + [x] + back, [x] + (rest + back));
      BlockValidRest(lw, x, rest + back);
      FrontPair(l, w, x, rest + [x] + back);
      SwapFront(l, w, x, rest + back, rest + [x] + back);
    }
  }

  lemma FrontPair(l: Ledger, w: Tx, x: Tx, txs: seq<Tx>)
    requires BlockValid(l, [w] + txs) && x in txs
    ensures ValidAt(l, x) && Executable(x) && w.sender != x.sender
  {
    assert x in [w] + txs;
    BlockValidRest(l, w, txs);
    assert x.sender in Senders(txs);
  }

  lemma SwapFront(l: Ledger, w: Tx, x: Tx, rest: seq<Tx>, txs: seq<Tx>)
    requires OwnersDisjoint(l) && ValidAt(l, w) && Executable(w) && ValidAt(l, x) && Executable(x) && w.sender != x.sender
    requires ApplyAll(Apply(l, w).ledger, txs) == ApplyAll(Apply(l, w).ledger, [x] + rest)
    ensures ApplyAll(l, [w] + txs) == ApplyAll(l, [x] + ([w] + rest))
  {
    OtherSenderKeptValid(l, w, x);
    OtherSenderKeptValid(l, x, w);
    ApplyCommutes(l, w, x);
    ApplyAllStep(l, w, txs);
    ApplyAllStep(Apply(l, w).ledger, x, rest);
    ApplyAllStep(l, x, [w] + rest);
    ApplyAllStep(Apply(l, x).ledger, w, rest);
  }

  /** A valid block can be applied in any order, with the same ledger as result. */
  lemma {:induction false} OrderDoesNotMatter(l: Ledger, txs: seq<Tx>, txs': seq<Tx>)
    requires BlockValid(l, txs) && multiset(txs) == multiset(txs')
    ensures ApplyAll(l, txs') == ApplyAll(l, txs) && ApplyAll(l, txs).Complete?
    decreases |txs|
  {
    ValidBlockCompletes(l, txs);
    if txs != [] {
      var x, rest := txs[0], txs[1..];
      Seqs.SameElements(txs, txs');
      var front, back := Seqs.SplitAt(txs', x);
      assert txs == [x] + rest;
      Seqs.TakeOut(x, rest, front, back);
      BlockValidReordered(l, txs, txs');
      MoveToFront(l, front, x, back);
      BlockValidRest(l, x, rest);
      OrderDoesNotMatter(Apply(l, x).ledger, rest, front + back);
      ApplyAllStep(l, x, rest);
      ApplyAllStep(l, x, front + back);
    } else {
      Seqs.SameElements(txs, txs');
    }
  }

  /** If every transaction of a block is valid against a consistent parent ledger, the senders differ
      and no recipient is missing, then every order of the block succeeds with the same ledger. */
  lemma AnyOrderSameLedger(l: Ledger, txs: seq<Tx>, txs': seq<Tx>)
    requires Consistent(l) && DistinctSenders(txs) && multiset(txs) == multiset(txs')
    requires forall i :: 0 <= i < |txs| ==> Validate(l, txs[i]) == None && Executable(txs[i])
    ensures ApplyAll(l, txs').Complete? && ApplyAll(l, txs') == ApplyAll(l, txs)
  {
    DistinctByCount(txs);
    forall tx | tx in txs ensures ValidAt(l, tx) && Executable(tx) { ConsistentValidAt(l, tx); }
    OrderDoesNotMatter(l, txs, txs');
  }
}
