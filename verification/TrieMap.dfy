/** The trie refines a finite map: lookups after updates and deletes. */
module TrieMap {
  import opened Nibbles
  import opened Trie

  // ----- Keys in front of a node -----

  lemma {:induction false} GetPrepend(p: Path, n: Node, k: Path)
    requires Wf(n) && n != Blank
    ensures Wf(Prepend(p, n))
    ensures Get(Prepend(p, n), k) == if p <= k then Get(n, k[|p|..]) else BLANK_VALUE
  {
  }

  /** A leaf or extension with another key. */
  function WithKey(n: Node, key: Path): Node
    requires n.Leaf? || n.Extension?
  {
    if n.Leaf? then Leaf(key, n.value) else Extension(key, n.child)
  }

  lemma {:induction false} GetStripped(n: Node, p: nat, k: Path)
    requires Wf(n) && (n.Leaf? || n.Extension?) && p <= |n.key|
    ensures Get(n, k) == if n.key[..p] <= k then Get(WithKey(n, n.key[p..]), k[p..]) else BLANK_VALUE
  {
  }

  // ----- Update -----

  lemma {:induction false} UpdateCanonical(n: Node, key: Path, value: Bytes)
    requires Canonical(n) && value != BLANK_VALUE
    ensures Canonical(Update(n, key, value)) && Update(n, key, value) != Blank
    ensures n.Branch? ==> Update(n, key, value).Branch?
    decreases n, 1
  {
    match n
    case Blank =>
    case Branch(kids, v) =>
      if key != [] {
        UpdateCanonical(kids[key[0]], key[1..], value);
        OccupiedUpdate(kids, key[0], Update(kids[key[0]], key[1..], value));
      }
    case Leaf(_, _) => UpdateKvCanonical(n, key, value);
    case Extension(_, _) => UpdateKvCanonical(n, key, value);
  }

  lemma {:induction false} UpdateKvCanonical(n: Node, key: Path, value: Bytes)
    requires Canonical(n) && value != BLANK_VALUE && (n.Leaf? || n.Extension?)
    ensures Canonical(UpdateKv(n, key, value)) && UpdateKv(n, key, value) != Blank
    decreases n, 0
  {
    var p := CommonLength(n.key, key);
    var remainKey, rest := key[p..], n.key[p..];
    if rest == [] {
      if n.Extension? {
        UpdateCanonical(n.child, remainKey, value);
      } else if remainKey != [] {
        OneSlot(remainKey[0], Leaf(remainKey[1..], value), n.value);
      }
    } else if remainKey == [] {
      OneSlot(rest[0], Shortened(n, rest), value);
    } else {
      TwoSlots(rest[0], Shortened(n, rest), remainKey[0], Leaf(remainKey[1..], value));
    }
  }

  lemma {:induction false} OneSlot(i: Nibble, s: Node, value: Bytes)
    requires Canonical(s) && s != Blank && value != BLANK_VALUE
    ensures Canonical(Branch(BlankKids()[i := s], value))
  {
    NoneUsed(BlankKids());
    OccupiedUpdate(BlankKids(), i, s);
  }

  lemma {:induction false} TwoSlots(i: Nibble, s: Node, j: Nibble, t: Node)
    requires Canonical(s) && s != Blank && Canonical(t) && t != Blank && i != j
    ensures Canonical(Branch(BlankKids()[i := s][j := t], BLANK_VALUE))
  {
    NoneUsed(BlankKids());
    OccupiedUpdate(BlankKids(), i, s);
    OccupiedUpdate(BlankKids()[i := s], j, t);
  }

  lemma {:induction false} GetUpdate(n: Node, key: Path, value: Bytes, k: Path)
    requires Wf(n)
    ensures Get(Update(n, key, value), k) == if k == key then value else Get(n, k)
    decreases n, 1
  {
    match n
    case Blank =>
    case Branch(kids, v) =>
      if key != [] && k != [] && k[0] == key[0] {
        GetUpdate(kids[key[0]], key[1..], value, k[1..]);
        assert k == [k[0]] + k[1..] && key == [key[0]] + key[1..];
      }
    case Leaf(_, _) => GetUpdateKv(n, key, value, k);
    case Extension(_, _) => GetUpdateKv(n, key, value, k);
  }

  lemma {:induction false} GetUpdateKv(n: Node, key: Path, value: Bytes, k: Path)
    requires Wf(n) && (n.Leaf? || n.Extension?)
    ensures Get(UpdateKv(n, key, value), k) == if k == key then value else Get(n, k)
    decreases n, 0
  {
    var p := CommonLength(n.key, key);
    var remainKey, rest := key[p..], n.key[p..];
    GetStripped(n, p, k);
    assert key == key[..p] + remainKey;
    if n.key[..p] <= k {
      var k' := k[p..];
      assert k == key[..p] + k';
      if n.Extension? && rest == [] {
        assert k'[0..] == k';
        GetUpdate(n.child, remainKey, value, k');
      } else if rest != [] || remainKey != [] {
        GetFork(n, rest, remainKey, value, k');
      }
    }
  }

  lemma {:induction false} GetFork(n: Node, rest: Path, remainKey: Path, value: Bytes, k: Path)
    requires Wf(n) && (n.Leaf? || n.Extension?) && (rest == [] ==> n.Leaf? && remainKey != [])
    requires rest != [] && remainKey != [] ==> rest[0] != remainKey[0]
    ensures Get(Fork(n, rest, remainKey, value), k)
         == if k == remainKey then value else Get(WithKey(n, rest), k)
  {
  }

  // ----- Delete -----

  lemma {:induction false} GetNormalize(kids: seq<Node>, value: Bytes, k: Path)
    requires Wf(Branch(kids, value)) && ItemCount(kids, value) >= 1
    ensures Wf(Normalize(Branch(kids, value)))
    ensures Get(Normalize(Branch(kids, value)), k) == Get(Branch(kids, value), k)
  {
    if ItemCount(kids, value) == 1 {
      NoneUsed(kids);
      if value == BLANK_VALUE {
        var i := FirstUsed(kids);
        OnlyOneUsed(kids, i);
        GetPrepend([i], kids[i], k);
        assert [i] <= k <==> k != [] && k[0] == i;
      }
    }
  }

  lemma {:induction false} GetDelete(n: Node, key: Path, k: Path)
    requires Canonical(n)
    ensures Get(Delete(n, key), k) == if k == key then BLANK_VALUE else Get(n, k)
  {
    match n
    case Blank =>
    case Leaf(_, _) =>
    case Branch(kids, v) =>
      if key == [] {
        NormalizeCanonical(kids, BLANK_VALUE);
        GetNormalize(kids, BLANK_VALUE, k);
      } else {
        var sub := Delete(kids[key[0]], key[1..]);
        OccupiedUpdate(kids, key[0], sub);
        if k != [] && k[0] == key[0] {
          GetDelete(kids[key[0]], key[1..], k[1..]);
          assert k == [k[0]] + k[1..] && key == [key[0]] + key[1..];
        }
        if sub != kids[key[0]] && sub == Blank {
          NormalizeCanonical(kids[key[0] := sub], v);
          GetNormalize(kids[key[0] := sub], v, k);
        }
      }
    case Extension(q, c) =>
      if q <= key {
        var sub := Delete(c, key[|q|..]);
        assert key == q + key[|q|..];
        if q <= k {
          assert k == q + k[|q|..];
          GetDelete(c, key[|q|..], k[|q|..]);
        }
        GetPrepend(q, sub, k);
      }
  }
}
