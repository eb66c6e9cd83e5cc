/** Blocks and headers (block.py). A hash is the term it was computed from, so different headers have
    different hashes; the transaction root stands for the list that it names. */
module BlockHeaders {
  import opened Ledger
  import NodeItems
  import opened Options

  datatype Hash = ZeroHash | HashOf(header: BlockHeader)

  datatype BlockHeader = BlockHeader(
    prevhash: Hash, number: nat, timestamp: nat, coinbase: Address, txRoot: seq<Tx>, stateRoot: NodeItems.Digest, extra: int)

  datatype Block = Block(header: BlockHeader, txs: seq<Tx>, signer: Option<Address>)

  /** What a state keeps of a header, and all that a FakeHeader has. */
  datatype Header = Header(hash: Hash, number: nat, timestamp: nat)

  function Shown(h: BlockHeader): Header { Header(HashOf(h), h.number, h.timestamp) }

  const TIME_LIMIT: nat := 0x1_0000_0000_0000_0000_0000_0000_0000_0000_0000_0000_0000_0000_0000_0000_0000_0000

  const PREV_HEADER_DEPTH: nat := 256

  function Truncated(headers: seq<Header>, length: nat): seq<Header> {
    if |headers| <= length then headers else headers[..length]
  }

  /** validate_header */
  predicate Follows(h: BlockHeader, parent: Header) {
    && h.prevhash == parent.hash
    && h.number == parent.number + 1
    && parent.timestamp < h.timestamp < TIME_LIMIT
  }

  /** The checks that raise ValueError: header and transaction root. */
  predicate WellFormed(b: Block, parent: Header) { Follows(b.header, parent) && b.header.txRoot == b.txs }
}
