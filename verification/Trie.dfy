/** The Merkle Patricia trie of trie.py as an inductive tree: lookup, update and delete with
    re-normalisation. A child that the program stores as a hash and one it keeps inline are the
    same subtree here; module TrieStore adds the storage. */
module Trie {
  import opened Nibbles

  datatype Node =
    | Blank
    | Leaf(key: Path, value: Bytes)
    | Extension(key: Path, child: Node)
    | Branch(kids: seq<Node>, value: Bytes)

  const BLANK_VALUE: Bytes := []

  function BlankKids(): (kids: seq<Node>)
    ensures |kids| == 16 && forall i :: 0 <= i < 16 ==> kids[i] == Blank
  {
    seq(16, _ => Blank)
  }

  /** Every branch has sixteen child slots. */
  predicate Wf(n: Node) {
    match n
    case Blank => true
    case Leaf(_, _) => true
    case Extension(_, c) => Wf(c)
    case Branch(kids, _) => |kids| == 16 && forall i :: 0 <= i < |kids| ==> Wf(kids[i])
  }

  /** Number of child slots in use. */
  function Occupied(kids: seq<Node>): nat {
    if kids == [] then 0
    else Occupied(kids[..|kids| - 1]) + if kids[|kids| - 1] == Blank then 0 else 1
  }

  function ItemCount(kids: seq<Node>, value: Bytes): nat {
    Occupied(kids) + if value == BLANK_VALUE then 0 else 1
  }

  /** The normal form: branches have at least two used slots, extensions a non-empty key and a
      branch below, leaves a value. */
  predicate Canonical(n: Node)
    ensures Canonical(n) ==> Wf(n)
  {
    match n
    case Blank => true
    case Leaf(_, v) => v != BLANK_VALUE
    case Extension(k, c) => k != [] && c.Branch? && Canonical(c)
    case Branch(kids, v) =>
      |kids| == 16 && (forall i :: 0 <= i < |kids| ==> Canonical(kids[i])) && ItemCount(kids, v) >= 2
  }

  // ----- The operations -----

  function Get(n: Node, key: Path): Bytes
    requires Wf(n)
  {
    match n
    case Blank => BLANK_VALUE
    case Branch(kids, v) => if key == [] then v else Get(kids[key[0]], key[1..])
    case Leaf(k, v) => if key == k then v else BLANK_VALUE
    case Extension(k, c) => if k <= key then Get(c, key[|k|..]) else BLANK_VALUE
  }

  function Update(n: Node, key: Path, value: Bytes): (r: Node)
    requires Wf(n)
    ensures Wf(r)
    decreases n, 1
  {
    match n
    case Blank => Leaf(key, value)
    case Branch(kids, v) =>
      if key == [] then Branch(kids, value)
      else Branch(kids[key[0] := Update(kids[key[0]], key[1..], value)], v)
    case _ => UpdateKv(n, key, value)
  }

  /** Update of a leaf or an extension, which may split at the first differing nibble. */
  function UpdateKv(n: Node, key: Path, value: Bytes): (r: Node)
    requires Wf(n) && (n.Leaf? || n.Extension?)
    ensures Wf(r)
    decreases n, 0
  {
    var prefixLength := CommonLength(n.key, key);
    var remainKey, remainCurrKey := key[prefixLength..], n.key[prefixLength..];
    if n.Leaf? && remainKey == [] == remainCurrKey then Leaf(n.key, value)
    else
      var newNode :=
        if n.Extension? && remainCurrKey == [] then Update(n.child, remainKey, value)
        else Fork(n, remainCurrKey, remainKey, value);
      if prefixLength > 0 then Extension(n.key[..prefixLength], newNode) else newNode
  }

  /** The branch where the rest of a node's key and the rest of the new key part. */
  function Fork(n: Node, rest: Path, remainKey: Path, value: Bytes): (r: Node)
    requires Wf(n) && (n.Leaf? || n.Extension?) && (rest == [] ==> n.Leaf? && remainKey != [])
    ensures Wf(r)
  {
    if rest == [] then Branch(BlankKids()[remainKey[0] := Leaf(remainKey[1..], value)], n.value)
    else
      var kids := BlankKids()[rest[0] := Shortened(n, rest)];
      if remainKey == [] then Branch(kids, value)
      else Branch(kids[remainKey[0] := Leaf(remainKey[1..], value)], BLANK_VALUE)
  }

  /** What remains of a leaf or extension below the branch slot for the first nibble of `rest`. */
  function Shortened(n: Node, rest: Path): (r: Node)
    requires Wf(n) && (n.Leaf? || n.Extension?) && rest != []
    ensures Wf(r)
  {
    if n.Leaf? then Leaf(rest[1..], n.value)
    else if |rest| == 1 then n.child
    else Extension(rest[1..], n.child)
  }

  function FirstUsed(kids: seq<Node>): (i: nat)
    requires Occupied(kids) >= 1
    ensures i < |kids| && kids[i] != Blank && forall j :: 0 <= j < i ==> kids[j] == Blank
  {
    if Occupied(kids[..|kids| - 1]) >= 1 then FirstUsed(kids[..|kids| - 1])
    else NoneUsed(kids[..|kids| - 1]); |kids| - 1
  }

  /** A branch left with a single used slot collapses into the node of that slot. */
  function Normalize(n: Node): (r: Node)
    requires n.Branch? && Wf(n) && ItemCount(n.kids, n.value) >= 1
  {
    if ItemCount(n.kids, n.value) > 1 then n
    else if n.value != BLANK_VALUE then Leaf([], n.value)
    else
      var i := FirstUsed(n.kids);
      Prepend([i], n.kids[i])
  }

  /** Puts a key in front of a non-blank node, merging it with the node's own key. */
  function Prepend(key: Path, n: Node): Node
    requires n != Blank
  {
    match n
    case Leaf(k, v) => Leaf(key + k, v)
    case Extension(k, c) => Extension(key + k, c)
    case Branch(_, _) => Extension(key, n)
  }

  function Delete(n: Node, key: Path): (r: Node)
    requires Canonical(n)
    ensures Canonical(r)
    ensures n.Branch? ==> r != Blank
  {
    match n
    case Blank => Blank
    case Branch(kids, v) =>
      if key == [] then
        NormalizeCanonical(kids, BLANK_VALUE);
        Normalize(Branch(kids, BLANK_VALUE))
      else
        var sub := Delete(kids[key[0]], key[1..]);
        OccupiedUpdate(kids, key[0], sub);
        if sub == kids[key[0]] then n
        else if sub == Blank then
          NormalizeCanonical(kids[key[0] := sub], v);
          Normalize(Branch(kids[key[0] := sub], v))
        else Branch(kids[key[0] := sub], v)
    case Leaf(k, _) => if key == k then Blank else n
    case Extension(k, c) =>
      if !(k <= key) then n
      else
        var sub := Delete(c, key[|k|..]);
        if sub == c then n else Prepend(k, sub)
  }

  // ----- Counting used slots -----

  lemma NoneUsed(kids: seq<Node>)
    ensures Occupied(kids) == 0 <==> forall i :: 0 <= i < |kids| ==> kids[i] == Blank
  {
  }

  lemma OccupiedUpdate(kids: seq<Node>, i: nat, n: Node)
    requires i < |kids|
    ensures Occupied(kids[i := n]) + (if kids[i] == Blank then 0 else 1)
         == Occupied(kids) + (if n == Blank then 0 else 1)
  {
    var m := |kids| - 1;
    if i < m {
      assert kids[i := n][..m] == kids[..m][i := n];
      OccupiedUpdate(kids[..m], i, n);
    } else {
      assert kids[i := n][..m] == kids[..m];
    }
  }

  lemma OnlyOneUsed(kids: seq<Node>, i: nat)
    requires i < |kids| && Occupied(kids) == 1 && kids[i] != Blank
    ensures forall j :: 0 <= j < |kids| && j != i ==> kids[j] == Blank
  {
    OccupiedUpdate(kids, i, Blank);
    NoneUsed(kids[i := Blank]);
    assert forall j :: 0 <= j < |kids| && j != i ==> kids[j] == kids[i := Blank][j];
  }

  lemma {:induction false} CanonicalKidsWf(kids: seq<Node>, value: Bytes)
    requires |kids| == 16 && forall i :: 0 <= i < |kids| ==> Canonical(kids[i])
    ensures Wf(Branch(kids, value))
  {
  }

  lemma {:induction false} NormalizeCanonical(kids: seq<Node>, value: Bytes)
    requires |kids| == 16 && forall i :: 0 <= i < |kids| ==> Canonical(kids[i])
    requires ItemCount(kids, value) >= 1
    ensures Wf(Branch(kids, value))
    ensures Canonical(Normalize(Branch(kids, value))) && Normalize(Branch(kids, value)) != Blank
  {
  }
}
