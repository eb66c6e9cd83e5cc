/** The contents of a trie as a finite map, and the normal form: a canonical trie is determined by
    its contents, so neither the order of the operations nor undone ones show in it. */
module TrieCanonical {
  import opened Nibbles
  import opened Trie
  import opened TrieMap
  import Maps

  // ----- Contents -----

  function Prefixed(p: Path, keys: set<Path>): set<Path> {
    set k | k in keys :: p + k
  }

  /** The stored keys. */
  function Keys(n: Node): set<Path>
    requires Wf(n)
    decreases n, 17
  {
    match n
    case Blank => {}
    case Leaf(k, v) => {k}
    case Extension(k, c) => Prefixed(k, Keys(c))
    case Branch(kids, v) => KeysBelow(n, 16) + if v != BLANK_VALUE then {[]} else {}
  }

  /** The stored keys below the first `upto` slots of a branch. */
  function KeysBelow(n: Node, upto: nat): set<Path>
    requires Wf(n) && n.Branch? && upto <= 16
    decreases n, upto
  {
    if upto == 0 then {} else KeysBelow(n, upto - 1) + Prefixed([upto - 1], Keys(n.kids[upto - 1]))
  }

  /** The finite map a trie stands for. */
  function Contents(n: Node): map<Path, Bytes>
    requires Wf(n)
  {
    map k | k in Keys(n) :: Get(n, k)
  }

  lemma PrefixedAt(p: Path, keys: set<Path>, q: Path)
    ensures q in Prefixed(p, keys) <==> p <= q && q[|p|..] in keys
  {
    if p <= q { assert q == p + q[|p|..]; }
    forall k | k in keys ensures (p + k)[|p|..] == k {}
  }

  lemma {:induction false} KeysAt(n: Node, k: Path)
    requires Canonical(n)
    ensures k in Keys(n) <==> Get(n, k) != BLANK_VALUE
    decreases n, 17
  {
    match n
    case Blank =>
    case Leaf(_, _) =>
    case Extension(p, c) =>
      PrefixedAt(p, Keys(c), k);
      if p <= k { KeysAt(c, k[|p|..]); }
    case Branch(_, _) => KeysBelowAt(n, 16, k);
  }

  lemma {:induction false} KeysBelowAt(n: Node, upto: nat, k: Path)
    requires Canonical(n) && n.Branch? && upto <= 16
    ensures k in KeysBelow(n, upto) <==> k != [] && k[0] < upto && Get(n, k) != BLANK_VALUE
    decreases n, upto
  {
    if upto > 0 {
      KeysBelowAt(n, upto - 1, k);
      PrefixedAt([upto - 1], Keys(n.kids[upto - 1]), k);
      if k != [] { KeysAt(n.kids[upto - 1], k[1..]); }
    }
  }

  // ----- Length and enumeration -----

  function Size(n: Node): nat
    requires Wf(n)
    decreases n, 17
  {
    match n
    case Blank => 0
    case Leaf(_, _) => 1
    case Extension(_, c) => Size(c)
    case Branch(_, v) => SizeBelow(n, 16) + if v != BLANK_VALUE then 1 else 0
  }

  function SizeBelow(n: Node, upto: nat): nat
    requires Wf(n) && n.Branch? && upto <= 16
    decreases n, upto
  {
    if upto == 0 then 0 else SizeBelow(n, upto - 1) + Size(n.kids[upto - 1])
  }

  lemma {:induction false} PrefixedSize(p: Path, keys: set<Path>)
    ensures |Prefixed(p, keys)| == |keys|
  {
    if keys != {} {
      var k :| k in keys;
      PrefixedSize(p, keys - {k});
      assert Prefixed(p, keys) == Prefixed(p, keys - {k}) + {p + k};
      PrefixedAt(p, keys - {k}, p + k);
      assert (p + k)[|p|..] == k;
    }
  }

  lemma {:induction false} SizeCountsKeys(n: Node)
    requires Canonical(n)
    ensures Size(n) == |Keys(n)|
    decreases n, 17
  {
    match n
    case Blank =>
    case Leaf(_, _) =>
    case Extension(k, c) =>
      SizeCountsKeys(c);
      PrefixedSize(k, Keys(c));
    case Branch(_, v) =>
      SizeBelowCountsKeys(n, 16);
      KeysBelowAt(n, 16, []);
  }

  lemma {:induction false} SizeBelowCountsKeys(n: Node, upto: nat)
    requires Canonical(n) && n.Branch? && upto <= 16
    ensures SizeBelow(n, upto) == |KeysBelow(n, upto)|
    decreases n, upto
  {
    if upto > 0 {
      SizeBelowCountsKeys(n, upto - 1);
      SizeCountsKeys(n.kids[upto - 1]);
      PrefixedSize([upto - 1], Keys(n.kids[upto - 1]));
      var before, here := KeysBelow(n, upto - 1), Prefixed([upto - 1], Keys(n.kids[upto - 1]));
      forall k | k in before ensures k !in here {
        KeysBelowAt(n, upto - 1, k);
      }
      assert |before + here| == |before| + |here|;
    }
  }

  /** `__len__`: the number of entries of the map. */
  lemma SizeIsCardinality(n: Node)
    requires Canonical(n)
    ensures Size(n) == |Contents(n)|
  {
    SizeCountsKeys(n);
    assert Contents(n).Keys == Keys(n);
    assert |Contents(n).Keys| == |Contents(n)|;
  }

  lemma ContentsAt(n: Node, k: Path)
    requires Canonical(n)
    ensures k in Contents(n) <==> Get(n, k) != BLANK_VALUE
    ensures k in Contents(n) ==> Contents(n)[k] == Get(n, k)
  {
    KeysAt(n, k);
  }

  /** `to_dict`: adds every entry of a subtree's dictionary to res, the subtree's key in front. */
  method AddEntries(res: map<Path, Bytes>, p: Path, sub: map<Path, Bytes>) returns (r: map<Path, Bytes>)
    ensures r.Keys == res.Keys + Prefixed(p, sub.Keys)
    ensures forall k :: k in sub ==> p + k in r && r[p + k] == sub[k]
    ensures forall k :: k in res && k !in Prefixed(p, sub.Keys) ==> r[k] == res[k]
  {
    r := res;
    var todo := sub.Keys;
    while todo != {}
      invariant todo <= sub.Keys
      invariant r.Keys == res.Keys + Prefixed(p, sub.Keys - todo)
      invariant forall k :: k in sub.Keys - todo ==> p + k in r && r[p + k] == sub[k]
      invariant forall k :: k in res && k !in Prefixed(p, sub.Keys) ==> r[k] == res[k]
    {
      var k :| k in todo;
      forall j | j in sub.Keys && j != k ensures p + j != p + k {
        assert (p + j)[|p|..] == j && (p + k)[|p|..] == k;
      }
      assert p + k in Prefixed(p, sub.Keys);
      assert Prefixed(p, sub.Keys - (todo - {k})) == Prefixed(p, sub.Keys - todo) + {p + k};
      r := r[p + k := sub[k]];
      todo := todo - {k};
    }
    assert sub.Keys - todo == sub.Keys;
  }

  method ToDict(n: Node) returns (res: map<Path, Bytes>)
    requires Canonical(n)
    ensures res == Contents(n)
    decreases n, 1
  {
    match n
    case Blank => res := map[];
    case Leaf(k, v) => res := map[k := v];
    case Extension(p, c) =>
      var sub := ToDict(c);
      res := AddEntries(map[], p, sub);
      ExtensionEntries(n, res);
    case Branch(kids, v) =>
      res := KidsToDict(n);
      if v != BLANK_VALUE {
        KeysBelowAt(n, 16, []);
        res := res[[] := v];
      }
  }

  lemma ExtensionEntries(n: Node, res: map<Path, Bytes>)
    requires Wf(n) && n.Extension? && res.Keys == Keys(n)
    requires forall k :: k in Keys(n.child) ==> n.key + k in res && res[n.key + k] == Get(n.child, k)
    ensures res == Contents(n)
  {
    forall k | k in Keys(n) ensures res[k] == Get(n, k) {
      PrefixedAt(n.key, Keys(n.child), k);
      assert k == n.key + k[|n.key|..];
    }
  }

  /** The loop over the sixteen slots of a branch. */
  method KidsToDict(n: Node) returns (res: map<Path, Bytes>)
    requires Canonical(n) && n.Branch?
    ensures res.Keys == KeysBelow(n, 16) && forall k :: k in res ==> res[k] == Get(n, k)
    decreases n, 0
  {
    res := map[];
    for i := 0 to 16
      invariant res.Keys == KeysBelow(n, i)
      invariant forall k :: k in res ==> res[k] == Get(n, k)
    {
      var sub := ToDict(n.kids[i]);
      res := AddEntries(res, [i], sub);
      forall k | k in res ensures res[k] == Get(n, k) {
        PrefixedAt([i], Keys(n.kids[i]), k);
        if k in Prefixed([i], Keys(n.kids[i])) { assert k == [i] + k[1..]; }
      }
    }
  }

  // ----- Updates and deletes on the map -----

  lemma UpdateRefinesMap(n: Node, key: Path, value: Bytes)
    requires Canonical(n) && value != BLANK_VALUE
    ensures Canonical(Update(n, key, value))
    ensures Contents(Update(n, key, value)) == Contents(n)[key := value]
    ensures Size(Update(n, key, value)) == Size(n) + if key in Contents(n) then 0 else 1
  {
    UpdateCanonical(n, key, value);
    var r := Update(n, key, value);
    forall k ensures Get(r, k) == if k == key then value else Get(n, k) { GetUpdate(n, key, value, k); }
    PutContents(n, r, key, value);
    SizeIsCardinality(n);
    SizeIsCardinality(r);
  }

  /** If lookups differ in one key, so do the contents. */
  lemma PutContents(n: Node, r: Node, key: Path, value: Bytes)
    requires Canonical(n) && Canonical(r) && value != BLANK_VALUE
    requires forall k :: Get(r, k) == if k == key then value else Get(n, k)
    ensures Contents(r) == Contents(n)[key := value]
  {
    forall k
      ensures k in Contents(r) <==> k == key || k in Contents(n)
      ensures k in Contents(r) ==> Contents(r)[k] == if k == key then value else Contents(n)[k]
    {
      ContentsAt(n, k);
      ContentsAt(r, k);
    }
    Maps.IsPut(Contents(n), Contents(r), key, value);
  }

  lemma DeleteRefinesMap(n: Node, key: Path)
    requires Canonical(n)
    ensures Contents(Delete(n, key)) == Contents(n) - {key}
    ensures Size(Delete(n, key)) == Size(n) - if key in Contents(n) then 1 else 0
  {
    var r := Delete(n, key);
    forall k
      ensures k in Contents(r) <==> k != key && k in Contents(n)
      ensures k in Contents(r) ==> Contents(r)[k] == Contents(n)[k]
    {
      GetDelete(n, key, k);
      ContentsAt(n, k);
      ContentsAt(r, k);
    }
    Maps.IsRemove(Contents(n), Contents(r), key);
    SizeIsCardinality(n);
    SizeIsCardinality(r);
  }

  // ----- Uniqueness of the normal form -----

  ghost predicate SameContents(a: Node, b: Node)
    requires Wf(a) && Wf(b)
  {
    forall k :: Get(a, k) == Get(b, k)
  }

  lemma GetBelowExtension(n: Node, k: Path)
    requires Wf(n) && n.Extension?
    ensures Get(n, n.key + k) == Get(n.child, k)
  {
  }

  lemma GetBelowBranch(n: Node, i: Nibble, k: Path)
    requires Wf(n) && n.Branch?
    ensures Get(n, [i] + k) == Get(n.kids[i], k)
  {
  }

  lemma {:induction false} SomeKey(n: Node) returns (k: Path)
    requires Canonical(n) && n != Blank
    ensures Get(n, k) != BLANK_VALUE
    decreases n, 2
  {
    match n
    case Leaf(q, _) => k := q;
    case Extension(q, c) =>
      var k' := SomeKey(c);
      GetBelowExtension(n, k');
      k := q + k';
    case Branch(kids, v) =>
      var j;
      k, j := TwoKeys(n);
  }

  lemma {:induction false} KeyBelow(n: Node, i: Nibble) returns (k: Path)
    requires Canonical(n) && n.Branch? && n.kids[i] != Blank
    ensures k != [] && k[0] == i && Get(n, k) != BLANK_VALUE
    decreases n, 0
  {
    var q := SomeKey(n.kids[i]);
    GetBelowBranch(n, i, q);
    k := [i] + q;
  }

  /** A canonical branch stores two keys that differ at their first nibble, or of which one is empty. */
  lemma {:induction false} TwoKeys(n: Node) returns (j: Path, k: Path)
    requires Canonical(n) && n.Branch?
    ensures Get(n, j) != BLANK_VALUE && Get(n, k) != BLANK_VALUE
    ensures j != k && CommonLength(j, k) == 0
    decreases n, 1
  {
    var i := FirstUsed(n.kids);
    j := KeyBelow(n, i);
    if n.value != BLANK_VALUE {
      k := [];
    } else {
      OccupiedUpdate(n.kids, i, Blank);
      var i' := FirstUsed(n.kids[i := Blank]);
      k := KeyBelow(n, i');
    }
  }

  /** Two keys of a branch or an extension, with exactly the extension's key in common. */
  lemma {:induction false} KeyPair(n: Node) returns (p: Path, j: Path, k: Path)
    requires Canonical(n) && (n.Branch? || n.Extension?)
    ensures p == if n.Extension? then n.key else []
    ensures p + j != p + k && CommonLength(j, k) == 0
    ensures Get(n, p + j) != BLANK_VALUE && Get(n, p + k) != BLANK_VALUE
  {
    if n.Branch? {
      p := [];
      j, k := TwoKeys(n);
      assert p + j == j && p + k == k;
    } else {
      p := n.key;
      j, k := TwoKeys(n.child);
      GetBelowExtension(n, j);
      GetBelowExtension(n, k);
      assert (p + j)[|p|..] == j && (p + k)[|p|..] == k;
    }
  }

  lemma {:induction false} SingleKeyIsLeaf(n: Node, k: Path)
    requires Canonical(n) && n != Blank
    requires forall q :: Get(n, q) != BLANK_VALUE ==> q == k
    ensures n == Leaf(k, Get(n, k))
  {
    if n.Leaf? {
      assert Get(n, n.key) == n.value;
    } else {
      var p, i, j := KeyPair(n);
    }
  }

  /** A common prefix of two keys that fork after p is a prefix of p. */
  lemma SharedPrefix(q: Path, p: Path, i: Path, j: Path)
    requires q <= p + i && q <= p + j
    ensures q <= p || CommonLength(i, j) > 0
  {
    if |q| > |p| {
      assert q[|p|] == (p + i)[|p|] && q[|p|] == (p + j)[|p|];
    }
  }

  /** If all keys of one canonical node are keys of another, its own key extends the other's. */
  lemma {:induction false} ExtensionKeyIsShared(a: Node, b: Node)
    requires Canonical(a) && Canonical(b) && SameContents(a, b)
    requires a.Branch? || a.Extension?
    requires b.Extension?
    ensures a.Extension? && b.key <= a.key
  {
    var p, i, j := KeyPair(a);
    assert b.key <= p + i && b.key <= p + j;
    SharedPrefix(b.key, p, i, j);
  }

  lemma {:induction false} CanonicalUnique(a: Node, b: Node)
    requires Canonical(a) && Canonical(b) && SameContents(a, b)
    ensures a == b
    decreases a
  {
    if b == Blank {
      if a != Blank { var k := SomeKey(a); }
    } else if b.Leaf? {
      assert Get(b, b.key) == Get(a, b.key);
      SingleKeyIsLeaf(a, b.key);
    } else if a.Blank? {
      var k := SomeKey(b);
    } else if a.Leaf? {
      SingleKeyIsLeaf(b, a.key);
    } else if a.Extension? {
      ExtensionKeyIsShared(b, a);
      ExtensionKeyIsShared(a, b);
      assert a.key == b.key;
      forall k ensures Get(a.child, k) == Get(b.child, k) {
        GetBelowExtension(a, k);
        GetBelowExtension(b, k);
      }
      CanonicalUnique(a.child, b.child);
    } else {
      if b.Extension? { ExtensionKeyIsShared(a, b); }
      assert Get(a, []) == Get(b, []);
      forall x: Nibble ensures a.kids[x] == b.kids[x] {
        forall k ensures Get(a.kids[x], k) == Get(b.kids[x], k) {
          GetBelowBranch(a, x, k);
          GetBelowBranch(b, x, k);
        }
        CanonicalUnique(a.kids[x], b.kids[x]);
      }
      assert a.kids == b.kids;
    }
  }

  /** Two canonical tries with the same dictionary are the same tree, and conversely. */
  lemma ContentsDetermineTrie(a: Node, b: Node)
    requires Canonical(a) && Canonical(b)
    ensures a == b <==> Contents(a) == Contents(b)
  {
    if Contents(a) == Contents(b) {
      forall k ensures Get(a, k) == Get(b, k) {
        ContentsAt(a, k);
        ContentsAt(b, k);
      }
      CanonicalUnique(a, b);
    }
  }

  // ----- Runs of operations -----

  datatype Op = Put(key: Path, value: Bytes) | Remove(key: Path)

  /** The program's values are non-empty: an empty one reads as "absent". */
  predicate ValidOp(op: Op) { op.Put? ==> op.value != BLANK_VALUE }

  function Step(n: Node, op: Op): Node
    requires Canonical(n)
  {
    match op
    case Put(k, v) => Update(n, k, v)
    case Remove(k) => Delete(n, k)
  }

  function MapStep(m: map<Path, Bytes>, op: Op): map<Path, Bytes> {
    match op
    case Put(k, v) => m[k := v]
    case Remove(k) => m - {k}
  }

  function MapRun(m: map<Path, Bytes>, ops: seq<Op>): map<Path, Bytes>
    decreases |ops|
  {
    if ops == [] then m else MapRun(MapStep(m, ops[0]), ops[1..])
  }

  function Run(n: Node, ops: seq<Op>): (r: Node)
    requires Canonical(n) && forall op :: op in ops ==> ValidOp(op)
    ensures Canonical(r)
    decreases |ops|
  {
    if ops == [] then n
    else
      StepCanonical(n, ops[0]);
      Run(Step(n, ops[0]), ops[1..])
  }

  lemma StepCanonical(n: Node, op: Op)
    requires Canonical(n) && ValidOp(op)
    ensures Canonical(Step(n, op)) && Contents(Step(n, op)) == MapStep(Contents(n), op)
  {
    match op
    case Put(k, v) => UpdateRefinesMap(n, k, v);
    case Remove(k) => DeleteRefinesMap(n, k);
  }

  /** Every run leaves the map that the same run leaves on a plain dictionary. */
  lemma {:induction false} RunRefinesMap(n: Node, ops: seq<Op>)
    requires Canonical(n) && forall op :: op in ops ==> ValidOp(op)
    ensures Contents(Run(n, ops)) == MapRun(Contents(n), ops)
    decreases |ops|
  {
    if ops != [] {
      StepCanonical(n, ops[0]);
      RunRefinesMap(Step(n, ops[0]), ops[1..]);
    }
  }

  /** Two runs from the empty trie end in the same tree exactly when they end in the same contents. */
  lemma TrieIgnoresHistory(ops: seq<Op>, ops': seq<Op>)
    requires forall op :: op in ops + ops' ==> ValidOp(op)
    ensures (forall op :: op in ops ==> ValidOp(op)) && forall op :: op in ops' ==> ValidOp(op)
    ensures Run(Blank, ops) == Run(Blank, ops') <==> MapRun(map[], ops) == MapRun(map[], ops')
  {
    assert forall op :: op in ops ==> op in ops + ops';
    assert forall op :: op in ops' ==> op in ops + ops';
    RunRefinesMap(Blank, ops);
    RunRefinesMap(Blank, ops');
    ContentsDetermineTrie(Run(Blank, ops), Run(Blank, ops'));
  }

  /** Deleting a freshly inserted absent key restores the trie it was inserted into. */
  lemma InsertThenDelete(n: Node, key: Path, value: Bytes)
    requires Canonical(n) && value != BLANK_VALUE && Get(n, key) == BLANK_VALUE
    ensures Canonical(Update(n, key, value)) && Delete(Update(n, key, value), key) == n
  {
    UpdateRefinesMap(n, key, value);
    DeleteRefinesMap(Update(n, key, value), key);
    ContentsAt(n, key);
    assert Contents(n)[key := value] - {key} == Contents(n);
    ContentsDetermineTrie(Delete(Update(n, key, value), key), n);
  }
}
