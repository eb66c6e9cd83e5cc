/** What a trie node looks like in storage: the nested list that is RLP-encoded, with children
    inline below 32 bytes and as hashes from there on. A hash is kept as the hashed item, which
    makes hashing injective; in every length it counts as the 32 bytes it is. */
module NodeItems {
  import opened Nibbles
  import opened Trie
  import opened TrieCanonical
  import opened Encoding

  datatype Record = Text(bytes: Bytes) | Hash(of: Digest) | Seq(items: seq<Record>)
  datatype Digest = Sha3(item: Record)

  const BLANK_ITEM := Text([])

  /** Length of the RLP encoding. */
  function RecordLength(e: Record): nat {
    match e
    case Text(s) => if |s| == 1 && s[0] < 128 then 1 else PrefixLength(|s|) + |s|
    case Hash(_) => 33
    case Seq(items) => PrefixLength(ItemsLength(items)) + ItemsLength(items)
  }

  function ItemsLength(items: seq<Record>): nat {
    if items == [] then 0 else RecordLength(items[0]) + ItemsLength(items[1..])
  }

  /** The item with every hash replaced by its 32 bytes. */
  function WithBytes(e: Record, sha3: Digest -> Bytes): Item {
    match e
    case Text(s) => Str(s)
    case Hash(d) => Str(sha3(d))
    case Seq(items) => List(AllWithBytes(items, sha3))
  }

  function AllWithBytes(items: seq<Record>, sha3: Digest -> Bytes): seq<Item> {
    if items == [] then [] else [WithBytes(items[0], sha3)] + AllWithBytes(items[1..], sha3)
  }

  /** The lengths that decide about inlining are those of the real encoding, for every hash
      function with 32-byte results. */
  lemma {:induction false} LengthIsReal(e: Record, sha3: Digest -> Bytes)
    requires forall d :: |sha3(d)| == 32
    ensures RecordLength(e) == Length(WithBytes(e, sha3))
  {
    match e
    case Text(_) =>
    case Hash(_) =>
    case Seq(items) => ItemsLengthIsReal(items, sha3);
  }

  lemma {:induction false} ItemsLengthIsReal(items: seq<Record>, sha3: Digest -> Bytes)
    requires forall d :: |sha3(d)| == 32
    ensures ItemsLength(items) == PayloadLength(AllWithBytes(items, sha3))
  {
    if items != [] {
      LengthIsReal(items[0], sha3);
      ItemsLengthIsReal(items[1..], sha3);
      assert AllWithBytes(items, sha3)[1..] == AllWithBytes(items[1..], sha3);
    }
  }

  /** The list of a node. */
  function NodeItem(n: Node): (e: Record)
    requires Wf(n)
    ensures n == Blank <==> e.Text?
    ensures !e.Hash?
    decreases n, 0
  {
    match n
    case Blank => BLANK_ITEM
    case Leaf(k, v) => Seq([Text(Pack(k, true)), Text(v)])
    case Extension(k, c) => Seq([Text(Pack(k, false)), RefItem(c)])
    case Branch(kids, v) => Seq(seq(16, i requires 0 <= i < 16 => RefItem(kids[i])) + [Text(v)])
  }

  /** A node as its parent stores it: inline, or its hash. */
  function RefItem(n: Node): (e: Record)
    requires Wf(n)
    decreases n, 2
  {
    if Inlined(n) then NodeItem(n) else Hash(Sha3(NodeItem(n)))
  }

  predicate Inlined(n: Node)
    requires Wf(n)
    decreases n, 1
  {
    n == Blank || RecordLength(NodeItem(n)) < 32
  }

  function RootHash(n: Node): Digest
    requires Wf(n)
  {
    Sha3(NodeItem(n))
  }

  lemma {:induction false} NodeItemInjective(a: Node, b: Node)
    requires Wf(a) && Wf(b)
    ensures NodeItem(a) == NodeItem(b) <==> a == b
    ensures RefItem(a) == RefItem(b) <==> a == b
    decreases a
  {
    if NodeItem(a) == NodeItem(b) && a != Blank {
      var x, y := NodeItem(a).items, NodeItem(b).items;
      if a.Branch? {
        forall i: Nibble ensures a.kids[i] == b.kids[i] {
          assert x[i] == RefItem(a.kids[i]) && y[i] == RefItem(b.kids[i]);
          NodeItemInjective(a.kids[i], b.kids[i]);
        }
        assert x[16] == Text(a.value) && y[16] == Text(b.value);
        assert a.kids == b.kids;
      } else {
        assert x[0] == y[0] && x[1] == y[1];
        PackInjective(a.key, a.Leaf?, b.key, b.Leaf?);
        if a.Extension? { NodeItemInjective(a.child, b.child); }
      }
    }
  }

  /** How a parent refers to a node, in bytes and for every hash function with 32-byte results: in at most
      33 bytes, and by hash exactly if the node is not blank and its own encoding has 32 bytes or more. */
  lemma ReferenceRule(n: Node, sha3: Digest -> Bytes)
    requires Wf(n) && forall d :: |sha3(d)| == 32
    ensures Length(WithBytes(RefItem(n), sha3)) <= 33
    ensures RefItem(n).Hash? <==> n != Blank && Length(WithBytes(NodeItem(n), sha3)) >= 32
    ensures RefItem(n) == if RefItem(n).Hash? then Hash(Sha3(NodeItem(n))) else NodeItem(n)
  {
    LengthIsReal(NodeItem(n), sha3);
    LengthIsReal(RefItem(n), sha3);
  }

  /** What the encoding of a node decodes to: the packed path and the value, the packed path and the
      reference to the child, or sixteen references and the value. */
  lemma NodeDecodes(n: Node, sha3: Digest -> Bytes, rest: Bytes)
    requires Wf(n) && Encoding.Fits(WithBytes(NodeItem(n), sha3))
    ensures var read := Decode(EncodeOptimized(WithBytes(NodeItem(n), sha3)) + rest);
      && read.Done? && read.rest == rest
      && match n
         case Blank => read.item == Str([])
         case Leaf(k, v) => read.item == List([Str(Pack(k, true)), Str(v)])
         case Extension(k, c) => read.item == List([Str(Pack(k, false)), WithBytes(RefItem(c), sha3)])
         case Branch(kids, v) =>
           && read.item.List? && |read.item.items| == 17 && read.item.items[16] == Str(v)
           && forall i :: 0 <= i < 16 ==> read.item.items[i] == WithBytes(RefItem(kids[i]), sha3)
  {
    DecodeEncode(WithBytes(NodeItem(n), sha3), rest);
    var e := NodeItem(n);
    if e.Seq? { AllWithBytesAt(e.items, sha3); }
  }

  /** What is hashed for the root of the blank trie, and of one with a key of three bytes for a value of
      five. */
  lemma RootBytes(key: Bytes, value: Bytes, sha3: Digest -> Bytes)
    requires |key| == 3 && |value| == 5
    ensures EncodeOptimized(WithBytes(RootHash(Blank).item, sha3)) == [0x80]
    ensures var e := WithBytes(RootHash(Update(Blank, BinToNibbles(key), value)).item, sha3);
      Encoding.Fits(e) && EncodeOptimized(e) == [0xcb, 0x84, 0x20] + key + [0x85] + value
  {
    var n := Update(Blank, BinToNibbles(key), value);
    PackWhole(key);
    AllWithBytesAt(NodeItem(n).items, sha3);
    assert WithBytes(NodeItem(n), sha3) == List([Str([0x20] + key), Str(value)]);
    PairBytes([0x20] + key, value);
  }

  lemma PackWhole(key: Bytes)
    ensures Pack(BinToNibbles(key), true) == [0x20] + key
  {
    assert ([2, 0] + BinToNibbles(key))[2..] == BinToNibbles(key);
    BinRoundTrip(key);
  }

  lemma PairBytes(packed: Bytes, value: Bytes)
    requires |packed| == 4 && |value| == 5
    ensures Encoding.Fits(List([Str(packed), Str(value)]))
    ensures EncodeOptimized(List([Str(packed), Str(value)])) == [0xcb, 0x84] + packed + [0x85] + value
  {
    PairPayload(Str(packed), Str(value));
    assert EncodeOptimized(Str(packed)) == [0x84] + packed && EncodeOptimized(Str(value)) == [0x85] + value;
  }

  lemma {:induction false} AllWithBytesAt(items: seq<Record>, sha3: Digest -> Bytes)
    ensures |AllWithBytes(items, sha3)| == |items|
    ensures forall i :: 0 <= i < |items| ==> AllWithBytes(items, sha3)[i] == WithBytes(items[i], sha3)
    decreases |items|
  {
    if items != [] { AllWithBytesAt(items[1..], sha3); }
  }

  /** The root hash names the contents: equal hashes exactly for equal contents. */
  lemma RootHashNamesContents(a: Node, b: Node)
    requires Canonical(a) && Canonical(b)
    ensures RootHash(a) == RootHash(b) <==> Contents(a) == Contents(b)
  {
    NodeItemInjective(a, b);
    ContentsDetermineTrie(a, b);
  }

  /** Two histories lead to the same root hash exactly when they lead to the same map. */
  lemma RootIgnoresHistory(ops: seq<Op>, ops': seq<Op>)
    requires forall op :: op in ops + ops' ==> ValidOp(op)
    ensures (forall op :: op in ops ==> ValidOp(op)) && forall op :: op in ops' ==> ValidOp(op)
    ensures RootHash(Run(Blank, ops)) == RootHash(Run(Blank, ops')) <==> MapRun(map[], ops) == MapRun(map[], ops')
  {
    TrieIgnoresHistory(ops, ops');
    NodeItemInjective(Run(Blank, ops), Run(Blank, ops'));
  }

  // ----- Nodes held by a database -----

  type Database = map<Digest, Record>

  /** Every record sits under its own hash. */
  ghost predicate ContentAddressed(db: Database) {
    forall d :: d in db ==> db[d] == d.item
  }

  /** All nodes below n that are stored by hash are in the database. */
  ghost predicate Held(db: Database, n: Node)
    requires Wf(n)
    decreases n, 0
  {
    match n
    case Blank => true
    case Leaf(_, _) => true
    case Extension(_, c) => RefHeld(db, c)
    case Branch(kids, _) => forall i :: 0 <= i < 16 ==> RefHeld(db, kids[i])
  }

  ghost predicate RefHeld(db: Database, n: Node)
    requires Wf(n)
    decreases n, 1
  {
    Held(db, n) && (Inlined(n) || Sha3(NodeItem(n)) in db)
  }

  /** The root hash of n leads to the whole of n. The blank root needs no record. */
  ghost predicate Published(db: Database, n: Node)
    requires Wf(n)
  {
    Held(db, n) && (n == Blank || RootHash(n) in db)
  }

  lemma {:induction false} HeldGrows(db: Database, db': Database, n: Node)
    requires Wf(n) && db.Keys <= db'.Keys && Held(db, n)
    ensures Held(db', n) && (RefHeld(db, n) ==> RefHeld(db', n)) && (Published(db, n) ==> Published(db', n))
  {
    match n
    case Blank =>
    case Leaf(_, _) =>
    case Extension(_, c) => HeldGrows(db, db', c);
    case Branch(kids, _) =>
      forall i | 0 <= i < 16 ensures RefHeld(db', kids[i]) { HeldGrows(db, db', kids[i]); }
  }

  lemma PublishedGrows(db: Database, db': Database)
    requires db.Keys <= db'.Keys
    ensures forall n :: Wf(n) && Published(db, n) ==> Published(db', n)
  {
    forall n | Wf(n) && Published(db, n) ensures Published(db', n) { HeldGrows(db, db', n); }
  }

  // ----- Reading a root back -----

  datatype Read = Missing | Found(node: Node)

  /** Decodes a stored list and everything it refers to. */
  function Load(db: Database, e: Record): Read
    decreases e, 0
  {
    match e
    case Text(_) => if e == BLANK_ITEM then Found(Blank) else Missing
    case Hash(_) => Missing
    case Seq(items) =>
      if |items| == 2 && items[0].Text? && items[0].bytes != [] then
        var (key, terminated) := Unpack(items[0].bytes);
        if terminated then (if items[1].Text? then Found(Leaf(key, items[1].bytes)) else Missing)
        else
          match LoadRef(db, items[1])
          case Found(c) => Found(Extension(key, c))
          case Missing => Missing
      else if |items| == 17 && items[16].Text? then
        var kids := seq(16, i requires 0 <= i < 16 => LoadRef(db, items[i]));
        if exists i :: 0 <= i < 16 && kids[i] == Missing then Missing
        else Found(Branch(seq(16, i requires 0 <= i < 16 => kids[i].node), items[16].bytes))
      else Missing
  }

  /** `_decode_to_node`: a hash is looked up, anything else is the node itself. */
  function LoadRef(db: Database, e: Record): Read
    decreases e, 1
  {
    match e
    case Hash(d) => if d in db && db[d] == d.item then Load(db, d.item) else Missing
    case _ => Load(db, e)
  }

  lemma {:induction false} LoadGivesNode(db: Database, n: Node)
    requires Wf(n) && ContentAddressed(db) && Held(db, n)
    ensures Load(db, NodeItem(n)) == Found(n)
    ensures RefHeld(db, n) ==> LoadRef(db, RefItem(n)) == Found(n)
  {
    match n
    case Blank =>
    case Leaf(k, _) => UnpackPack(k, true);
    case Extension(k, c) =>
      UnpackPack(k, false);
      LoadGivesNode(db, c);
    case Branch(kids, v) =>
      var items := NodeItem(n).items;
      forall i | 0 <= i < 16 ensures LoadRef(db, items[i]) == Found(kids[i]) {
        assert items[i] == RefItem(kids[i]);
        LoadGivesNode(db, kids[i]);
      }
      assert items[16] == Text(v);
      var read := Load(db, NodeItem(n));
      assert read.Found? && read.node.kids == kids;
  }

  /** A published root hash decodes to exactly the tree it was published for. */
  lemma PublishedDecodes(db: Database, n: Node)
    requires Wf(n) && n != Blank && ContentAddressed(db) && Published(db, n)
    ensures LoadRef(db, Hash(RootHash(n))) == Found(n)
  {
    LoadGivesNode(db, n);
  }
}
