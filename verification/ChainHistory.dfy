/** The stored chain of chain.py: block records by hash, hashes by number, places of transactions. */
module ChainHistory {
  import opened Ledger
  import opened BlockHeaders
  import opened StateValues

  datatype Place = Place(number: int, position: int)

  type Places = map<Tx, Place>

  /** Genesis header and accounts, and what add_block stores. */
  datatype ChainDb = ChainDb(genesis: BlockHeader, alloc: Ledger, blocks: map<Hash, Block>, numbers: map<int, Hash>, places: Places)

  // ----- What is stored -----

  predicate IsGenesis(h: BlockHeader) { h.number == 0 }

  /** The header names the transactions of the block, and somebody other than the null address signed it. */
  predicate Signed(b: Block) {
    && b.header.txRoot == b.txs
    && b.signer.Some? && b.signer.value != 0xffff_ffff_ffff_ffff_ffff_ffff_ffff_ffff_ffff_ffff
  }

  /** Block k is stored under its hash, is signed, and follows the one before it. */
  ghost predicate Linked(db: ChainDb, k: int) {
    && k in db.numbers && db.numbers[k].HashOf? && k - 1 in db.numbers && db.numbers[k - 1].HashOf?
    && var h := db.numbers[k].header;
    && db.numbers[k] in db.blocks && db.blocks[db.numbers[k]].header == h && Signed(db.blocks[db.numbers[k]])
    && Follows(h, Shown(db.numbers[k - 1].header))
  }

  /** Genesis and n linked blocks. */
  ghost predicate Linear(db: ChainDb, n: nat) {
    && IsGenesis(db.genesis) && HashOf(db.genesis) !in db.blocks
    && (forall k :: k in db.numbers <==> 0 <= k <= n)
    && db.numbers[0] == HashOf(db.genesis)
    && forall k :: 0 < k <= n ==> Linked(db, k)
  }

  ghost predicate PlacedAt(db: ChainDb, tx: Tx, p: Place) {
    && p.number in db.numbers && db.numbers[p.number] in db.blocks
    && var txs := db.blocks[db.numbers[p.number]].txs;
    && 0 <= p.position < |txs| && txs[p.position] == tx
  }

  /** The index knows exactly the transactions of the chain, and where they are. */
  ghost predicate Indexed(db: ChainDb, n: nat) {
    && (forall tx :: tx in db.places ==> PlacedAt(db, tx, db.places[tx]))
    && forall tx, p :: PlacedAt(db, tx, p) ==> tx in db.places
  }

  // ----- What follows -----

  lemma {:induction false} NumbersAreHeights(db: ChainDb, n: nat, k: nat)
    requires Linear(db, n) && k <= n
    ensures db.numbers[k].HashOf? && db.numbers[k].header.number == k
    ensures k > 0 ==> db.numbers[k].header.prevhash == db.numbers[k - 1]
  {
    if k > 0 {
      assert Linked(db, k);
      NumbersAreHeights(db, n, k - 1);
    }
  }

  /** Timestamps grow strictly along the chain, so no block occurs twice. */
  lemma {:induction false} TimestampsGrow(db: ChainDb, n: nat, j: nat, k: nat)
    requires Linear(db, n) && j < k <= n
    ensures db.numbers[j].HashOf? && db.numbers[k].HashOf?
    ensures db.numbers[j].header.timestamp < db.numbers[k].header.timestamp && db.numbers[j] != db.numbers[k]
    decreases k - j
  {
    assert Linked(db, k);
    if j < k - 1 { TimestampsGrow(db, n, j, k - 1); }
  }

  // ----- Adding a block -----

  function PlaceAll(places: Places, number: int, txs: seq<Tx>): Places
    decreases |txs|
  {
    if txs == [] then places
    else
      var last := |txs| - 1;
      PlaceAll(places, number, txs[..last])[txs[last] := Place(number, last)]
  }

  lemma {:induction false} PlaceAllMeans(places: Places, number: int, txs: seq<Tx>, tx: Tx)
    ensures tx in PlaceAll(places, number, txs) <==> tx in places || tx in txs
    ensures tx !in txs && tx in places ==> PlaceAll(places, number, txs)[tx] == places[tx]
    ensures tx in txs ==>
              var p := PlaceAll(places, number, txs)[tx];
              p.number == number && 0 <= p.position < |txs| && txs[p.position] == tx
    decreases |txs|
  {
    if txs != [] {
      var last := |txs| - 1;
      assert txs == txs[..last] + [txs[last]];
      PlaceAllMeans(places, number, txs[..last], tx);
    }
  }

  function Extended(db: ChainDb, block: Block): ChainDb {
    var hash := HashOf(block.header);
    ChainDb(db.genesis, db.alloc, db.blocks[hash := block], db.numbers[block.header.number := hash],
            PlaceAll(db.places, block.header.number, block.txs))
  }

  lemma LinearGrows(db: ChainDb, n: nat, block: Block)
    requires Linear(db, n) && db.numbers[n].HashOf? && Follows(block.header, Shown(db.numbers[n].header)) && Signed(block)
    ensures Linear(Extended(db, block), n + 1)
  {
    var db' := Extended(db, block);
    NumbersAreHeights(db, n, n);
    assert block.header.number == n + 1;
    forall k | 0 < k <= n + 1 ensures Linked(db', k) {
      if k <= n {
        assert Linked(db, k);
        NumbersAreHeights(db, n, k);
      }
    }
  }

  lemma IndexGrows(db: ChainDb, n: nat, block: Block)
    requires Linear(db, n) && Indexed(db, n) && block.header.number == n + 1
    ensures Indexed(Extended(db, block), n + 1)
  {
    var db' := Extended(db, block);
    forall k | 0 <= k <= n ensures db'.numbers[k] == db.numbers[k] && db.numbers[k] != HashOf(block.header) {
      NumbersAreHeights(db, n, k);
    }
    forall tx | tx in db'.places ensures PlacedAt(db', tx, db'.places[tx]) {
      PlaceAllMeans(db.places, n + 1, block.txs, tx);
      if tx !in block.txs { assert PlacedAt(db, tx, db.places[tx]); }
    }
    forall tx, p | PlacedAt(db', tx, p) ensures tx in db'.places {
      PlaceAllMeans(db.places, n + 1, block.txs, tx);
      if p.number <= n { assert PlacedAt(db, tx, p); }
    }
  }

  // ----- The headers kept in memory -----

  /** Headers of blocks n, n - 1, ... 0. */
  function HeadersDown(db: ChainDb, n: nat): seq<Header>
    requires forall k :: 0 <= k <= n ==> k in db.numbers && db.numbers[k].HashOf?
  {
    [Shown(db.numbers[n].header)] + if n == 0 then [] else HeadersDown(db, n - 1)
  }

  lemma {:induction false} HeadersDownAt(db: ChainDb, n: nat, i: nat)
    requires (forall k :: 0 <= k <= n ==> k in db.numbers && db.numbers[k].HashOf?) && i <= n
    ensures |HeadersDown(db, n)| == n + 1 && HeadersDown(db, n)[i] == Shown(db.numbers[n - i].header)
  {
    if n > 0 { HeadersDownAt(db, n - 1, if i == 0 then 0 else i - 1); }
  }

  lemma {:induction false} HeadersDownKept(db: ChainDb, db': ChainDb, n: nat)
    requires forall k :: 0 <= k <= n ==> k in db.numbers && db.numbers[k].HashOf? && k in db'.numbers && db'.numbers[k] == db.numbers[k]
    ensures HeadersDown(db', n) == HeadersDown(db, n)
  {
    if n > 0 { HeadersDownKept(db, db', n - 1); }
  }

  /** The header list of a state at block n: at least as long as a reload makes it. */
  ghost predicate Recalls(db: ChainDb, n: nat, headers: seq<Header>)
    requires forall k :: 0 <= k <= n ==> k in db.numbers && db.numbers[k].HashOf?
  {
    headers <= HeadersDown(db, n) && (|headers| == n + 1 || |headers| > PREV_HEADER_DEPTH)
  }

  lemma AllHashes(db: ChainDb, n: nat)
    requires Linear(db, n)
    ensures forall k :: 0 <= k <= n ==> k in db.numbers && db.numbers[k].HashOf?
  {
    forall k | 0 <= k <= n ensures k in db.numbers && db.numbers[k].HashOf? { NumbersAreHeights(db, n, k); }
  }

  lemma RecallsMore(db: ChainDb, n: nat, headers: seq<Header>, block: Block)
    requires Linear(db, n) && Linear(Extended(db, block), n + 1) && block.header.number == n + 1
    requires forall k :: 0 <= k <= n ==> k in db.numbers && db.numbers[k].HashOf?
    requires Recalls(db, n, headers)
    ensures forall k :: 0 <= k <= n + 1 ==> k in Extended(db, block).numbers && Extended(db, block).numbers[k].HashOf?
    ensures Recalls(Extended(db, block), n + 1, [Shown(block.header)] + headers)
  {
    AllHashes(Extended(db, block), n + 1);
    HeadersDownKept(db, Extended(db, block), n);
  }

  /** The parent of block k is stored as a block unless it is genesis. */
  lemma ParentStored(db: ChainDb, n: nat, k: nat)
    requires Linear(db, n) && 0 < k <= n
    ensures Linked(db, k)
    ensures db.numbers[k].header.prevhash == db.numbers[k - 1]
    ensures db.numbers[k - 1] in db.blocks <==> k > 1
  {
    assert Linked(db, k);
    if k > 1 { assert Linked(db, k - 1); }
  }

  lemma RecallsLength(db: ChainDb, n: nat, headers: seq<Header>)
    requires forall k :: 0 <= k <= n ==> k in db.numbers && db.numbers[k].HashOf?
    requires Recalls(db, n, headers)
    ensures Truncated(headers, PREV_HEADER_DEPTH + 1) == Truncated(HeadersDown(db, n), PREV_HEADER_DEPTH + 1)
    ensures |Truncated(headers, PREV_HEADER_DEPTH + 1)| == if n >= 256 then 257 else n + 1
  {
    HeadersDownAt(db, n, 0);
  }

  /** One step back from the head: the header at depth i and whether its parent is a stored block. */
  lemma StepBack(db: ChainDb, n: nat, i: nat)
    requires Linear(db, n) && i < n
    ensures forall k :: 0 <= k <= n ==> k in db.numbers && db.numbers[k].HashOf?
    ensures db.numbers[n - i] in db.blocks && db.blocks[db.numbers[n - i]].header == db.numbers[n - i].header
    ensures |HeadersDown(db, n)| == n + 1
    ensures HeadersDown(db, n)[..i + 1] == HeadersDown(db, n)[..i] + [Shown(db.numbers[n - i].header)]
    ensures db.numbers[n - i].header.prevhash == db.numbers[n - i - 1]
    ensures db.numbers[n - i - 1] in db.blocks <==> i + 1 < n
    ensures i + 1 == n ==> HeadersDown(db, n) == HeadersDown(db, n)[..n] + [Shown(db.genesis)]
  {
    AllHashes(db, n);
    ParentStored(db, n, n - i);
    HeadersDownAt(db, n, i);
    HeadersDownAt(db, n, n);
    assert Linked(db, n - i);
  }

  /** The head is block n, and the variables of the state are those of block n. */
  ghost predicate AtHead(db: ChainDb, head: Hash, n: nat, aux: Aux) {
    && Linear(db, n) && Indexed(db, n)
    && (forall k :: 0 <= k <= n ==> k in db.numbers && db.numbers[k].HashOf?)
    && head == db.numbers[n] && head.header.number == n && aux.blockNumber == n
    && Recalls(db, n, aux.prevHeaders) && aux.prevHeaders != [] && aux.prevHeaders[0] == Shown(head.header)
  }

  function AtNext(aux: Aux, block: Block): Aux {
    aux.(prevHeaders := [Shown(block.header)] + aux.prevHeaders, blockNumber := block.header.number)
  }

  lemma AtHeadGrows(db: ChainDb, head: Hash, n: nat, aux: Aux, block: Block)
    requires AtHead(db, head, n, aux) && Follows(block.header, aux.prevHeaders[0]) && Signed(block)
    ensures AtHead(Extended(db, block), HashOf(block.header), n + 1, AtNext(aux, block))
  {
    LinearGrows(db, n, block);
    IndexGrows(db, n, block);
    RecallsMore(db, n, aux.prevHeaders, block);
  }
}
