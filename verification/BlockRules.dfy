/** Which blocks are taken, in numbers: the whole of validate_block against a parent. */
module BlockRules {
  import opened Networks
  import opened Ledger
  import opened Options
  import opened LedgerLaws
  import opened BlockHeaders
  import opened BlockApply
  import opened Transfers

  const LAST_SECOND: nat := 0xffff_ffff_ffff_ffff_ffff_ffff_ffff_ffff_ffff_ffff_ffff_ffff_ffff_ffff_ffff_ffff

  /** A block passes exactly if somebody other than the null address signed it, its header names the parent
      and the transactions, has the next number and a later timestamp of at most 2^256 - 1, and every
      transaction is current at the parent, of one of the four kinds, and from an owner if it moves
      addresses. */
  lemma BlockTakenExactly(l: Ledger, parent: Header, b: Block)
    ensures BlockChecks(l, parent, b) <==>
            && b.signer !in {None, Some(0xffff_ffff_ffff_ffff_ffff_ffff_ffff_ffff_ffff_ffff)}
            && b.header.prevhash == parent.hash && b.header.txRoot == b.txs
            && b.header.number == parent.number + 1 && parent.timestamp < b.header.timestamp <= LAST_SECOND
            && forall tx :: tx in b.txs ==>
                 && Current(l, tx) && tx.category in {0, 1, 2, 3}
                 && (tx.category in {0, 1} ==> OwnsNetwork(l, tx.sender.value, tx.net))
  {
    forall tx | tx in b.txs { TakenExactly(l, tx); }
    if forall tx :: tx in b.txs ==> Validate(l, tx) == None {
      assert forall i :: 0 <= i < |b.txs| ==> b.txs[i] in b.txs;
    }
  }
}
