/** Cutting a trie in two at a key and joining the parts again: `_split` and `_merge` of trie.py. */
module TrieSplitMerge {
  import opened Nibbles
  import opened Trie
  import opened TrieMap
  import opened TrieCanonical
  import opened TrieNavigation

  // ----- Split -----

  /** A branch normalised, or nothing if no slot is used. */
  function NormalizeOrBlank(kids: seq<Node>, value: Bytes): (r: Node)
    requires |kids| == 16 && forall i :: 0 <= i < |kids| ==> Canonical(kids[i])
    ensures Canonical(r)
  {
    CanonicalKidsWf(kids, value);
    if ItemCount(kids, value) == 0 then Blank
    else
      NormalizeCanonical(kids, value);
      Normalize(Branch(kids, value))
  }

  /** The slots before i, and x in slot i. */
  function LowKids(kids: seq<Node>, i: Nibble, x: Node): (r: seq<Node>)
    requires |kids| == 16
    ensures |r| == 16
    ensures forall j :: 0 <= j < 16 ==> r[j] == if j < i then kids[j] else if j == i then x else Blank
  {
    kids[..i] + [x] + BlankKids()[i as int + 1..]
  }

  /** x in slot i, and the slots after i. */
  function HighKids(kids: seq<Node>, i: Nibble, x: Node): (r: seq<Node>)
    requires |kids| == 16
    ensures |r| == 16
    ensures forall j :: 0 <= j < 16 ==> r[j] == if j < i then Blank else if j == i then x else kids[j]
  {
    BlankKids()[..i] + [x] + kids[i as int + 1..]
  }

  function Split(n: Node, key: Path): (r: (Node, Node))
    requires Canonical(n)
    ensures Canonical(r.0) && Canonical(r.1)
  {
    if n == Blank then (Blank, Blank)
    else if key == [] then (Blank, n)
    else if n.Branch? then
      var sub := Split(n.kids[key[0]], key[1..]);
      (NormalizeOrBlank(LowKids(n.kids, key[0], sub.0), n.value),
       NormalizeOrBlank(HighKids(n.kids, key[0], sub.1), BLANK_VALUE))
    else if n.Leaf? then
      if Lt(n.key, key) then (n, Blank) else (Blank, n)
    else if n.key <= key then
      var sub := Split(n.child, key[|n.key|..]);
      (if sub.0 == Blank then Blank else Prepend(n.key, sub.0),
       if sub.1 == Blank then Blank else Prepend(n.key, sub.1))
    else
      var head := if |n.key| <= |key| then key[..|n.key|] else key;
      if Lt(n.key, head) then (n, Blank) else if Lt(head, n.key) then (Blank, n) else (Blank, Blank)
  }

  lemma GetNormalizeOrBlank(kids: seq<Node>, value: Bytes, k: Path)
    requires |kids| == 16 && forall i :: 0 <= i < |kids| ==> Canonical(kids[i])
    ensures Wf(Branch(kids, value)) && Get(NormalizeOrBlank(kids, value), k) == Get(Branch(kids, value), k)
  {
    CanonicalKidsWf(kids, value);
    if ItemCount(kids, value) == 0 {
      NoneUsed(kids);
    } else {
      GetNormalize(kids, value, k);
    }
  }

  /** The left part keeps exactly the keys below the cut, the right part exactly the others. */
  lemma {:induction false} SplitPartitions(n: Node, key: Path, k: Path)
    requires Canonical(n)
    ensures Get(Split(n, key).0, k) == if Lt(k, key) then Get(n, k) else BLANK_VALUE
    ensures Get(Split(n, key).1, k) == if Lt(k, key) then BLANK_VALUE else Get(n, k)
    decreases n, 2
  {
    match n
    case Blank =>
    case Leaf(_, _) =>
    case Branch(kids, v) =>
      if key != [] {
        var i := key[0];
        var sub := Split(kids[i], key[1..]);
        GetNormalizeOrBlank(LowKids(kids, i, sub.0), v, k);
        GetNormalizeOrBlank(HighKids(kids, i, sub.1), BLANK_VALUE, k);
        if k != [] && k[0] == i { SplitPartitions(kids[i], key[1..], k[1..]); }
      }
    case Extension(p, c) => if key != [] { SplitExtension(n, key, k); }
  }

  lemma {:induction false} SplitExtension(n: Node, key: Path, k: Path)
    requires Canonical(n) && n.Extension? && key != []
    ensures Get(Split(n, key).0, k) == if Lt(k, key) then Get(n, k) else BLANK_VALUE
    ensures Get(Split(n, key).1, k) == if Lt(k, key) then BLANK_VALUE else Get(n, k)
    decreases n, 1
  {
    if n.key <= key {
      SplitBelowExtension(n, key, k);
    } else {
      SplitBesideExtension(n, key, k);
    }
  }

  lemma {:induction false} SplitBelowExtension(n: Node, key: Path, k: Path)
    requires Canonical(n) && n.Extension? && key != [] && n.key <= key
    ensures Get(Split(n, key).0, k) == if Lt(k, key) then Get(n, k) else BLANK_VALUE
    ensures Get(Split(n, key).1, k) == if Lt(k, key) then BLANK_VALUE else Get(n, k)
    decreases n, 0
  {
    var p, c := n.key, n.child;
    var sub := Split(c, key[|p|..]);
    if sub.0 != Blank { GetPrepend(p, sub.0, k); }
    if sub.1 != Blank { GetPrepend(p, sub.1, k); }
    if p <= k {
      SplitPartitions(c, key[|p|..], k[|p|..]);
      assert key == p + key[|p|..] && k == p + k[|p|..];
      LtPrefix(p, k[|p|..], key[|p|..]);
    }
  }

  lemma SplitBesideExtension(n: Node, key: Path, k: Path)
    requires Canonical(n) && n.Extension? && key != [] && !(n.key <= key)
    ensures Get(Split(n, key).0, k) == if Lt(k, key) then Get(n, k) else BLANK_VALUE
    ensures Get(Split(n, key).1, k) == if Lt(k, key) then BLANK_VALUE else Get(n, k)
  {
    var p := n.key;
    HeadOrder(p, key, if p <= k then k[|p|..] else []);
    if p <= k { assert k == p + k[|p|..]; }
    LtTotal(p, if |p| <= |key| then key[..|p|] else key);
  }

  // ----- Merge -----

  function Max(a: nat, b: nat): nat { if a < b then b else a }

  /** Height in nibbles, the measure of the merge recursion. */
  function Height(n: Node): nat {
    match n
    case Blank => 0
    case Leaf(k, _) => |k| + 1
    case Extension(k, c) => |k| + Height(c)
    case Branch(kids, _) => 1 + MaxHeight(kids)
  }

  function MaxHeight(kids: seq<Node>): (h: nat)
    ensures forall i :: 0 <= i < |kids| ==> Height(kids[i]) <= h
  {
    if kids == [] then 0 else Max(Height(kids[0]), MaxHeight(kids[1..]))
  }

  /** Every key of a lies below every key of b. */
  ghost predicate Separated(a: Node, b: Node)
    requires Wf(a) && Wf(b)
  {
    forall j, k :: Stored(a, j) && Stored(b, k) ==> Lt(j, k)
  }

  /** A leaf or extension without the first p nibbles of its key. */
  function Strip(n: Node, p: nat): (r: Node)
    requires Canonical(n) && (n.Leaf? || n.Extension?) && p <= |n.key|
    ensures Canonical(r) && r != Blank && Height(r) == Height(n) - p
  {
    if n.Leaf? then Leaf(n.key[p..], n.value)
    else if p == |n.key| then n.child
    else Extension(n.key[p..], n.child)
  }

  /** A non-blank node as a branch, possibly with a single used slot. */
  function Expand(n: Node): (r: Node)
    requires Canonical(n) && n != Blank
    ensures Wf(r) && r.Branch?
    ensures forall i :: 0 <= i < 16 ==> Canonical(r.kids[i]) && Height(r.kids[i]) < Height(n)
  {
    if n.Branch? then n
    else if n.key == [] then Branch(BlankKids(), n.value)
    else Branch(BlankKids()[n.key[0] := Strip(n, 1)], BLANK_VALUE)
  }

  lemma GetStrip(n: Node, p: nat, k: Path)
    requires Canonical(n) && (n.Leaf? || n.Extension?) && p <= |n.key|
    ensures Get(n, n.key[..p] + k) == Get(Strip(n, p), k)
    ensures Get(n, k) != BLANK_VALUE ==> n.key[..p] <= k
  {
    assert n == Prepend(n.key[..p], Strip(n, p)) by {
      assert n.key == n.key[..p] + n.key[p..] && n.key[..|n.key|] == n.key;
    }
    GetPrepend(n.key[..p], Strip(n, p), n.key[..p] + k);
    GetPrepend(n.key[..p], Strip(n, p), k);
    assert (n.key[..p] + k)[p..] == k;
  }

  lemma GetExpand(n: Node, k: Path)
    requires Canonical(n) && n != Blank
    ensures Get(Expand(n), k) == Get(n, k)
  {
  }

  lemma SeparatedStrip(a: Node, b: Node, p: nat)
    requires Canonical(a) && (a.Leaf? || a.Extension?) && Canonical(b) && (b.Leaf? || b.Extension?)
    requires p <= |a.key| && p <= |b.key| && a.key[..p] == b.key[..p] && Separated(a, b)
    ensures Separated(Strip(a, p), Strip(b, p))
  {
    forall j, k | Stored(Strip(a, p), j) && Stored(Strip(b, p), k) ensures Lt(j, k) {
      GetStrip(a, p, j);
      GetStrip(b, p, k);
      assert Stored(a, a.key[..p] + j) && Stored(b, a.key[..p] + k);
      LtPrefix(a.key[..p], j, k);
    }
  }

  lemma SeparatedKids(a: Node, b: Node, i: Nibble)
    requires Canonical(a) && a != Blank && Canonical(b) && b != Blank && Separated(a, b)
    ensures Separated(Expand(a).kids[i], Expand(b).kids[i])
  {
    forall j, k | Stored(Expand(a).kids[i], j) && Stored(Expand(b).kids[i], k) ensures Lt(j, k) {
      GetBelowBranch(Expand(a), i, j);
      GetBelowBranch(Expand(b), i, k);
      GetExpand(a, [i] + j);
      GetExpand(b, [i] + k);
      assert Stored(a, [i] + j) && Stored(b, [i] + k);
      LtPrefix([i], j, k);
    }
  }

  function Merge(a: Node, b: Node): Node
    requires Canonical(a) && Canonical(b) && Separated(a, b)
    decreases Height(a) + Height(b)
  {
    if a == Blank then b
    else if b == Blank then a
    else if !a.Branch? && !b.Branch? && CommonLength(a.key, b.key) > 0 then
      var p := CommonLength(a.key, b.key);
      SeparatedStrip(a, b, p);
      Extension(a.key[..p], Merge(Strip(a, p), Strip(b, p)))
    else
      var x, y := Expand(a), Expand(b);
      Branch(seq(16, i requires 0 <= i < 16 => MergeSlot(a, b, i)),
             if x.value != BLANK_VALUE then x.value else y.value)
  }

  function MergeSlot(a: Node, b: Node, i: Nibble): Node
    requires Canonical(a) && a != Blank && Canonical(b) && b != Blank && Separated(a, b)
    decreases Height(a) + Height(b), 0
  {
    var x, y := Expand(a).kids[i], Expand(b).kids[i];
    if x != Blank && y != Blank then
      SeparatedKids(a, b, i);
      Merge(x, y)
    else if x != Blank then x
    else y
  }

  // ----- What merging gives -----

  /** A slot used on the left is never above a slot used on the right. */
  lemma SlotOrder(a: Node, b: Node, i: Nibble, j: Nibble)
    requires Canonical(a) && a != Blank && Canonical(b) && b != Blank && Separated(a, b)
    requires Expand(a).kids[i] != Blank && Expand(b).kids[j] != Blank
    ensures i <= j
  {
    var p := KeyInSlot(a, i);
    var q := KeyInSlot(b, j);
    assert Lt(p, q);
  }

  /** The assertion inside `_merge`: the two branches have at most one slot in common, which is not
      the value slot. */
  lemma AtMostOneCommonSlot(a: Node, b: Node)
    requires Canonical(a) && a != Blank && Canonical(b) && b != Blank && Separated(a, b)
    ensures forall i: Nibble, j: Nibble ::
              (Expand(a).kids[i] != Blank && Expand(b).kids[i] != Blank
               && Expand(a).kids[j] != Blank && Expand(b).kids[j] != Blank) ==> i == j
    ensures Expand(b).value == BLANK_VALUE
  {
    forall i: Nibble, j: Nibble | Expand(a).kids[i] != Blank && Expand(b).kids[i] != Blank
        && Expand(a).kids[j] != Blank && Expand(b).kids[j] != Blank
      ensures i == j
    {
      SlotOrder(a, b, i, j);
      SlotOrder(a, b, j, i);
    }
    var k := SomeKey(a);
    GetExpand(b, []);
    assert Stored(a, k) && !Lt(k, []);
    assert !Stored(b, []);
  }

  lemma KeyInSlot(n: Node, i: Nibble) returns (k: Path)
    requires Canonical(n) && n != Blank && Expand(n).kids[i] != Blank
    ensures k != [] && k[0] == i && Stored(n, k)
  {
    var q := SomeKey(Expand(n).kids[i]);
    GetBelowBranch(Expand(n), i, q);
    k := [i] + q;
    GetExpand(n, k);
  }

  lemma {:induction false} MoreUsed(x: seq<Node>, y: seq<Node>)
    requires |x| == |y| && forall i :: 0 <= i < |x| && x[i] != Blank ==> y[i] != Blank
    ensures Occupied(x) <= Occupied(y)
  {
    if x != [] {
      var m := |x| - 1;
      forall i | 0 <= i < m && x[..m][i] != Blank ensures y[..m][i] != Blank {
        assert x[i] != Blank;
      }
      MoreUsed(x[..m], y[..m]);
    }
  }

  lemma {:induction false} TwoSlotsUsed(kids: seq<Node>, i: nat, j: nat)
    requires i < j < |kids| && kids[i] != Blank && kids[j] != Blank
    ensures Occupied(kids) >= 2
  {
    OccupiedUpdate(kids, i, Blank);
    NoneUsed(kids[i := Blank]);
    assert kids[i := Blank][j] != Blank;
  }

  /** Two leaves or extensions without a common first nibble fill two slots of the merged branch. */
  lemma MergedItems(a: Node, b: Node, kids: seq<Node>, value: Bytes)
    requires Canonical(a) && a != Blank && Canonical(b) && b != Blank && Separated(a, b)
    requires a.Branch? || b.Branch? || CommonLength(a.key, b.key) == 0
    requires |kids| == 16
    requires forall i :: 0 <= i < 16 && (Expand(a).kids[i] != Blank || Expand(b).kids[i] != Blank) ==> kids[i] != Blank
    requires value == if Expand(a).value != BLANK_VALUE then Expand(a).value else Expand(b).value
    ensures ItemCount(kids, value) >= 2
  {
    if a.Branch? {
      MoreUsed(a.kids, kids);
    } else if b.Branch? {
      MoreUsed(b.kids, kids);
    } else {
      NoneUsed(kids);
      if a.key == [] {
        GetExpand(a, []);
        assert Stored(a, []);
        if b.key == [] { assert Stored(b, []); }
        assert kids[b.key[0]] != Blank;
      } else if b.key == [] {
        assert kids[a.key[0]] != Blank;
      } else if a.key[0] < b.key[0] {
        TwoSlotsUsed(kids, a.key[0], b.key[0]);
      } else {
        TwoSlotsUsed(kids, b.key[0], a.key[0]);
      }
    }
  }

  /** Merging separated tries gives a canonical trie with the entries of both. */
  lemma {:induction false} MergeIsUnion(a: Node, b: Node)
    requires Canonical(a) && Canonical(b) && Separated(a, b)
    ensures Canonical(Merge(a, b)) && (a != Blank || b != Blank ==> Merge(a, b) != Blank)
    ensures a != Blank && b != Blank && (a.Branch? || b.Branch? || CommonLength(a.key, b.key) == 0) ==> Merge(a, b).Branch?
    ensures forall k :: Get(Merge(a, b), k) == if Stored(a, k) then Get(a, k) else Get(b, k)
    decreases Height(a) + Height(b), 1
  {
    if a != Blank && b != Blank {
      if !a.Branch? && !b.Branch? && CommonLength(a.key, b.key) > 0 {
        MergeBelowPrefix(a, b);
      } else {
        MergeSlots(a, b);
      }
    }
  }

  lemma {:induction false} MergeBelowPrefix(a: Node, b: Node)
    requires Canonical(a) && (a.Leaf? || a.Extension?) && Canonical(b) && (b.Leaf? || b.Extension?)
    requires Separated(a, b) && CommonLength(a.key, b.key) > 0
    ensures Canonical(Merge(a, b))
    ensures forall k :: Get(Merge(a, b), k) == if Stored(a, k) then Get(a, k) else Get(b, k)
    decreases Height(a) + Height(b), 0
  {
    var p := CommonLength(a.key, b.key);
    var x, y := Strip(a, p), Strip(b, p);
    SeparatedStrip(a, b, p);
    MergeIsUnion(x, y);
    StrippedFork(a, b);
    var m := Merge(x, y);
    MergeUnfolds(a, b, p, m);
    forall k ensures Get(Extension(a.key[..p], m), k) == if Stored(a, k) then Get(a, k) else Get(b, k) {
      GetJoined(a, b, m, k);
    }
  }

  lemma MergeUnfolds(a: Node, b: Node, p: nat, m: Node)
    requires Canonical(a) && (a.Leaf? || a.Extension?) && Canonical(b) && (b.Leaf? || b.Extension?)
    requires Separated(a, b) && p == CommonLength(a.key, b.key) > 0
    requires Canonical(Strip(a, p)) && Canonical(Strip(b, p)) && Separated(Strip(a, p), Strip(b, p))
    requires m == Merge(Strip(a, p), Strip(b, p))
    ensures Merge(a, b) == Extension(a.key[..p], m)
  {
  }

  /** Lookup in two nodes with a common key prefix and in a node that unites their rests. */
  lemma GetJoined(a: Node, b: Node, m: Node, k: Path)
    requires Canonical(a) && (a.Leaf? || a.Extension?) && Canonical(b) && (b.Leaf? || b.Extension?) && Wf(m)
    requires var p := CommonLength(a.key, b.key);
      forall q :: Get(m, q) == if Stored(Strip(a, p), q) then Get(Strip(a, p), q) else Get(Strip(b, p), q)
    ensures var p := CommonLength(a.key, b.key);
      Get(Extension(a.key[..p], m), k) == if Stored(a, k) then Get(a, k) else Get(b, k)
  {
    var p := CommonLength(a.key, b.key);
    GetBehind(a, p, k);
    GetBehind(b, p, k);
  }

  lemma GetBehind(n: Node, p: nat, k: Path)
    requires Canonical(n) && (n.Leaf? || n.Extension?) && p <= |n.key|
    ensures Get(n, k) == if n.key[..p] <= k then Get(Strip(n, p), k[p..]) else BLANK_VALUE
  {
    if n.key[..p] <= k {
      assert k == n.key[..p] + k[p..];
      GetStrip(n, p, k[p..]);
    } else {
      GetStrip(n, p, k);
    }
  }

  /** After the common prefix the two rests start differently, or one is a branch. */
  lemma StrippedFork(a: Node, b: Node)
    requires Canonical(a) && (a.Leaf? || a.Extension?) && Canonical(b) && (b.Leaf? || b.Extension?)
    ensures var p := CommonLength(a.key, b.key); var x, y := Strip(a, p), Strip(b, p);
      x.Branch? || y.Branch? || CommonLength(x.key, y.key) == 0
  {
  }

  lemma {:induction false} MergeSlots(a: Node, b: Node)
    requires Canonical(a) && a != Blank && Canonical(b) && b != Blank && Separated(a, b)
    requires a.Branch? || b.Branch? || CommonLength(a.key, b.key) == 0
    ensures Canonical(Merge(a, b)) && Merge(a, b).Branch?
    ensures forall k :: Get(Merge(a, b), k) == if Stored(a, k) then Get(a, k) else Get(b, k)
    decreases Height(a) + Height(b), 0
  {
    var r := Merge(a, b);
    forall i: Nibble
      ensures Canonical(r.kids[i])
      ensures Expand(a).kids[i] != Blank || Expand(b).kids[i] != Blank ==> r.kids[i] != Blank
      ensures forall k :: Get(r.kids[i], k) ==
                if Stored(Expand(a).kids[i], k) then Get(Expand(a).kids[i], k) else Get(Expand(b).kids[i], k)
    {
      SeparatedKids(a, b, i);
      assert r.kids[i] == MergeSlot(a, b, i);
      if Expand(a).kids[i] != Blank && Expand(b).kids[i] != Blank {
        MergeIsUnion(Expand(a).kids[i], Expand(b).kids[i]);
      }
    }
    MergedItems(a, b, r.kids, r.value);
    forall k ensures Get(r, k) == if Stored(a, k) then Get(a, k) else Get(b, k) {
      GetExpand(a, k);
      GetExpand(b, k);
      if k != [] {
        StoredBelow(Expand(a), k);
      }
    }
  }

  lemma SplitSeparates(n: Node, key: Path)
    requires Canonical(n)
    ensures Separated(Split(n, key).0, Split(n, key).1)
  {
    forall j, k | Stored(Split(n, key).0, j) && Stored(Split(n, key).1, k) ensures Lt(j, k) {
      SplitPartitions(n, key, j);
      SplitPartitions(n, key, k);
      LtTotal(k, key);
      if k != key { LtTransitive(j, key, k); }
    }
  }

  /** Cutting anywhere and merging the parts gives the trie back. */
  lemma SplitThenMerge(n: Node, key: Path)
    requires Canonical(n)
    ensures Separated(Split(n, key).0, Split(n, key).1)
    ensures Merge(Split(n, key).0, Split(n, key).1) == n
  {
    var (low, high) := Split(n, key);
    SplitSeparates(n, key);
    MergeIsUnion(low, high);
    forall k ensures Get(Merge(low, high), k) == Get(n, k) {
      SplitPartitions(n, key, k);
    }
    CanonicalUnique(Merge(low, high), n);
  }
}
