/** The transaction root of a block (mk_transaction_sha, _create_tries): position by position into a
    trie of its own. The root names the list. */
module TransactionRoot {
  import opened Nibbles
  import opened Trie
  import TrieMap
  import opened TrieCanonical
  import opened Encoding
  import opened NodeItems
  import opened TrieStore

  /** The positions of a list this long can be encoded, and so can its items. */
  predicate Encodable(items: seq<Item>) {
    |items| < TWO_64 && forall i :: 0 <= i < |items| ==> Encoding.Fits(items[i])
  }

  lemma IndexFits(i: nat)
    requires i < TWO_64
    ensures Encoding.Fits(Str(BigEndian(i)))
  {
    if i > 0 { LengthOfLength(i); }
  }

  function IndexKey(i: nat): Path
    requires i < TWO_64
  {
    IndexFits(i);
    BinToNibbles(EncodeOptimized(Str(BigEndian(i))))
  }

  lemma IndexKeyInjective(i: nat, j: nat)
    requires i < TWO_64 && j < TWO_64
    ensures IndexKey(i) == IndexKey(j) <==> i == j
  {
    IndexFits(i);
    IndexFits(j);
    var x, y := Str(BigEndian(i)), Str(BigEndian(j));
    BinRoundTrip(EncodeOptimized(x));
    BinRoundTrip(EncodeOptimized(y));
    EncodingInjective(x, y, [], []);
    BigEndianRoundTrip(i);
    BigEndianRoundTrip(j);
  }

  function ListTrie(items: seq<Item>): (t: Node)
    requires Encodable(items)
    ensures Canonical(t)
    decreases |items|
  {
    if items == [] then Blank
    else
      var last := |items| - 1;
      TrieMap.UpdateCanonical(ListTrie(items[..last]), IndexKey(last), EncodeOptimized(items[last]));
      Update(ListTrie(items[..last]), IndexKey(last), EncodeOptimized(items[last]))
  }

  /** The trie holds every item under its position and nothing else. */
  lemma {:induction false} ListTrieHolds(items: seq<Item>, k: Path)
    requires Encodable(items)
    ensures k in Contents(ListTrie(items)) <==> exists i :: 0 <= i < |items| && k == IndexKey(i)
    ensures forall i :: 0 <= i < |items| && k == IndexKey(i) ==>
              k in Contents(ListTrie(items)) && Contents(ListTrie(items))[k] == EncodeOptimized(items[i])
    decreases |items|
  {
    if items != [] {
      var last := |items| - 1;
      var front := items[..last];
      ListTrieHolds(front, k);
      UpdateRefinesMap(ListTrie(front), IndexKey(last), EncodeOptimized(items[last]));
      forall i | 0 <= i < |items| && k == IndexKey(i)
        ensures k in Contents(ListTrie(items)) && Contents(ListTrie(items))[k] == EncodeOptimized(items[i])
      {
        IndexKeyInjective(i, last);
        if i < last { assert front[i] == items[i]; }
      }
    }
  }

  /** In bytes: the keys are exactly the paths of byte strings that decode to the number of a position, the
      first of which is 0, and the value there decodes to the item at that position. */
  lemma ListTrieDecodes(items: seq<Item>, k: Path)
    requires Encodable(items)
    ensures k in Contents(ListTrie(items)) <==> |k| % 2 == 0 && exists i :: PositionOf(k, i) && i < |items|
    ensures forall i :: PositionOf(k, i) && i < |items| ==>
              k in Contents(ListTrie(items)) && Decode(Contents(ListTrie(items))[k]) == Done(items[i], [])
  {
    ListTrieHolds(items, k);
    forall i | PositionOf(k, i) && i < |items|
      ensures k in Contents(ListTrie(items)) && Decode(Contents(ListTrie(items))[k]) == Done(items[i], [])
    {
      KeyDecodes(k, i);
      DecodesBack(items[i]);
    }
    if k in Contents(ListTrie(items)) {
      var i :| 0 <= i < |items| && k == IndexKey(i);
      KeyDecodes(k, i);
    }
  }

  lemma DecodesBack(item: Item)
    requires Encoding.Fits(item)
    ensures Decode(EncodeOptimized(item)) == Done(item, [])
  {
    DecodesExactly(EncodeOptimized(item), item, []);
    assert EncodeOptimized(item) + [] == EncodeOptimized(item);
  }

  /** The path is that of a byte string which decodes to the number i, and to nothing more. */
  ghost predicate PositionOf(k: Path, i: int) {
    0 <= i && |k| % 2 == 0 && Decode(NibblesToBin(k)) == Done(Str(BigEndian(i)), [])
  }

  lemma KeyDecodes(k: Path, i: nat)
    requires i < TWO_64
    ensures k == IndexKey(i) <==> PositionOf(k, i)
  {
    IndexFits(i);
    var e := EncodeOptimized(Str(BigEndian(i)));
    assert e + [] == e;
    BinRoundTrip(e);
    if |k| % 2 == 0 {
      NibblesRoundTrip(k);
      DecodesExactly(NibblesToBin(k), Str(BigEndian(i)), []);
    }
  }

  /** Two lists have the same root exactly if they are the same list. */
  lemma RootNamesList(a: seq<Item>, b: seq<Item>)
    requires Encodable(a) && Encodable(b)
    ensures RootHash(ListTrie(a)) == RootHash(ListTrie(b)) <==> a == b
  {
    if RootHash(ListTrie(a)) == RootHash(ListTrie(b)) {
      RootHashNamesContents(ListTrie(a), ListTrie(b));
      SameContentsSameList(a, b);
    }
  }

  lemma SameContentsSameList(a: seq<Item>, b: seq<Item>)
    requires Encodable(a) && Encodable(b) && Contents(ListTrie(a)) == Contents(ListTrie(b))
    ensures a == b
  {
    if |a| < |b| {
      SameItem(b, a, |a|);
    } else if |b| < |a| {
      SameItem(a, b, |b|);
    }
    forall i | 0 <= i < |a| ensures b[i] == a[i] { SameItem(a, b, i); }
  }

  lemma SameItem(a: seq<Item>, b: seq<Item>, i: nat)
    requires Encodable(a) && Encodable(b) && Contents(ListTrie(a)) == Contents(ListTrie(b)) && i < |a|
    ensures i < |b| && a[i] == b[i]
  {
    ListTrieHolds(a, IndexKey(i));
    ListTrieHolds(b, IndexKey(i));
    var j :| 0 <= j < |b| && IndexKey(i) == IndexKey(j);
    IndexKeyInjective(i, j);
    EncodingInjective(a[i], b[i], [], []);
  }

  lemma ListTrieGrows(items: seq<Item>, i: nat)
    requires Encodable(items) && i < |items|
    ensures ListTrie(items[..i + 1]) == Update(ListTrie(items[..i]), IndexKey(i), EncodeOptimized(items[i]))
  {
    assert items[..i + 1][..i] == items[..i];
  }

  method MkTransactionSha(items: seq<Item>) returns (root: Digest)
    requires Encodable(items)
    ensures root == RootHash(ListTrie(items))
  {
    var t := new PersistentTrie();
    for i := 0 to |items|
      invariant t.Valid() && fresh(t) && fresh(Foot(t.root))
      invariant t.tree == ListTrie(items[..i])
    {
      AddItem(t, items, i);
    }
    assert items[..|items|] == items;
    root := t.rootHash;
  }

  method AddItem(t: PersistentTrie, items: seq<Item>, i: nat)
    requires Encodable(items) && i < |items| && t.Valid() && t.tree == ListTrie(items[..i])
    modifies t, Foot(t.root)
    ensures t.Valid() && t.tree == ListTrie(items[..i + 1])
    ensures forall b :: b in Foot(t.root) ==> b in old(Foot(t.root)) || fresh(b)
  {
    ListTrieGrows(items, i);
    var key, value := IndexKey(i), EncodeOptimized(items[i]);
    t.Update(key, value);
  }
}
