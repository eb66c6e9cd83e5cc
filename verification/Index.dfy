/** The longest-prefix index of patricia_state.py beside the ledger: who holds an address. */
module PrefixIndex {
  import opened Networks
  import opened Ledger
  import opened Options
  import opened LedgerLaws

  type Index = map<Net, Address>

  /** The network of an address with the given prefix length. */
  function Around(ip: Ip, n: nat): Net
    requires n <= |ip|
  {
    Net(ip[..n], |ip| - n)
  }

  /** Best match among prefixes of at most n bits. */
  function FindUpTo(index: Index, ip: Ip, n: nat): Option<Address>
    requires n <= |ip|
  {
    if Around(ip, n) in index then Some(index[Around(ip, n)]) else if n == 0 then None else FindUpTo(index, ip, n - 1)
  }

  function Find(index: Index, ip: Ip): Option<Address> { FindUpTo(index, ip, |ip|) }

  /** The entry is the longest one that contains the address. */
  ghost predicate Best(index: Index, ip: Ip, net: Net) {
    && net in index && net.Contains(ip)
    && forall other :: other in index && other.Contains(ip) ==> |other.bits| <= |net.bits|
  }

  lemma AroundContains(ip: Ip, net: Net)
    ensures net.Contains(ip) <==> |net.bits| <= |ip| && net == Around(ip, |net.bits|)
  {
  }

  lemma {:induction false} FindUpToMeans(index: Index, ip: Ip, n: nat)
    requires n <= |ip| && forall net :: net in index && net.Contains(ip) ==> |net.bits| <= n
    ensures match FindUpTo(index, ip, n)
      case Some(a) => exists net :: Best(index, ip, net) && index[net] == a
      case None => forall net :: net in index ==> !net.Contains(ip)
    decreases n
  {
    forall net | net in index && net.Contains(ip) ensures net == Around(ip, |net.bits|) { AroundContains(ip, net); }
    AroundContains(ip, Around(ip, n));
    if Around(ip, n) in index {
      assert Best(index, ip, Around(ip, n));
    } else if n > 0 {
      FindUpToMeans(index, ip, n - 1);
    }
  }

  lemma BestUnique(index: Index, ip: Ip, net: Net, other: Net)
    requires Best(index, ip, net) && Best(index, ip, other)
    ensures net == other
  {
  }

  /** The lookup answers with the longest entry around the address, if there is any. */
  lemma FindMeans(index: Index, ip: Ip, a: Address)
    ensures Find(index, ip) == Some(a) <==> exists net :: Best(index, ip, net) && index[net] == a
    ensures Find(index, ip) == None <==> forall net :: net in index ==> !net.Contains(ip)
  {
    forall net | net in index && net.Contains(ip) ensures |net.bits| <= |ip| { AroundContains(ip, net); }
    FindUpToMeans(index, ip, |ip|);
    if Find(index, ip).Some? {
      var net :| Best(index, ip, net) && Some(index[net]) == Find(index, ip);
      forall other | Best(index, ip, other) ensures other == net { BestUnique(index, ip, net, other); }
    }
  }

  // ----- Writing -----

  /** The network lies strictly inside the other. */
  predicate Inside(net: Net, outer: Net) { net.Width() == outer.Width() && outer.bits < net.bits }

  /** After a write the address finds the written value unless an entry inside shields it. */
  lemma FindAfterWrite(index: Index, net: Net, a: Address, ip: Ip)
    ensures Find(index[net := a], ip) ==
              if net.Contains(ip) && !(exists n :: n in index && Inside(n, net) && n.Contains(ip)) then Some(a)
              else Find(index, ip)
  {
    var written := index[net := a];
    if !net.Contains(ip) {
      SameBest(index, written, ip);
    } else if n :| n in index && Inside(n, net) && n.Contains(ip) {
      FindMeans(index, ip, a);
      assert Find(index, ip).Some?;
      FindMeans(index, ip, Find(index, ip).value);
      var best :| Best(index, ip, best) && Some(index[best]) == Find(index, ip);
      assert Best(written, ip, best);
      FindMeans(written, ip, index[best]);
    } else {
      forall other | other in written && other.Contains(ip) ensures |other.bits| <= |net.bits| {
        if |other.bits| > |net.bits| { NestedAround(other, net, ip); }
      }
      assert Best(written, ip, net);
      FindMeans(written, ip, a);
    }
  }

  lemma NestedAround(long: Net, short: Net, ip: Ip)
    requires long.Contains(ip) && short.Contains(ip) && |long.bits| > |short.bits|
    ensures Inside(long, short)
  {
  }

  lemma SameBest(index: Index, written: Index, ip: Ip)
    requires forall n: Net :: n.Contains(ip) ==> (n in index <==> n in written) && (n in index ==> index[n] == written[n])
    ensures Find(index, ip) == Find(written, ip)
  {
    if Find(index, ip).Some? {
      FindMeans(index, ip, Find(index, ip).value);
      var best :| Best(index, ip, best) && Some(index[best]) == Find(index, ip);
      assert Best(written, ip, best);
      FindMeans(written, ip, index[best]);
    } else {
      FindMeans(index, ip, NULL_ADDRESS);
      FindMeans(written, ip, NULL_ADDRESS);
    }
  }

  /** The write of one applied transaction. */
  function Remember(index: Index, tx: Tx): Index {
    if Moves(tx) && tx.to.Some? then index[tx.net := tx.to.value] else index
  }

  function WriteAll(index: Index, txs: seq<Tx>): Index
    decreases |txs|
  {
    if txs == [] then index else WriteAll(Remember(index, txs[0]), txs[1..])
  }

  lemma {:induction false} WriteAllThen(index: Index, txs: seq<Tx>, tx: Tx)
    ensures WriteAll(index, txs + [tx]) == Remember(WriteAll(index, txs), tx)
    decreases |txs|
  {
    if txs == [] {
      assert txs + [tx] == [tx];
    } else {
      assert (txs + [tx])[1..] == txs[1..] + [tx];
      WriteAllThen(Remember(index, txs[0]), txs[1..], tx);
    }
  }

  /** Writing all changes at the end of the block, last one per network, is writing them one by one. */
  lemma {:induction false} DeferredWrites(index: Index, cached: Index, txs: seq<Tx>)
    ensures index + WriteAll(cached, txs) == WriteAll(index + cached, txs)
    decreases |txs|
  {
    if txs != [] {
      assert index + Remember(cached, txs[0]) == Remember(index + cached, txs[0]);
      DeferredWrites(index, Remember(cached, txs[0]), txs[1..]);
    }
  }
}
