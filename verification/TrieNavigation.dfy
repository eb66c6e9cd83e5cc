/** Ordered navigation: `next` and `prev` of trie.py return the neighbouring stored key. */
module TrieNavigation {
  import opened Nibbles
  import opened Options
  import opened Trie
  import opened TrieCanonical

  /** A nibble list as the searches return it; `terminated` says that the terminator ends it. */
  datatype Hit = Hit(path: Path, terminated: bool) {
    function After(p: Path): Hit { Hit(p + path, terminated) }
    predicate EmptyList() { path == [] && !terminated }
  }

  /** The search directions: x comes before y. */
  predicate Ahead(x: Path, y: Path, reverse: bool) {
    if reverse then Lt(y, x) else Lt(x, y)
  }

  // ----- The searches -----

  /** The first stored key in the direction of the search. */
  function GetAny(n: Node, reverse: bool): Option<Hit>
    requires Canonical(n)
    decreases n, 17
  {
    match n
    case Blank => None
    case Branch(kids, v) =>
      if v != BLANK_VALUE && !reverse then Some(Hit([], true))
      else
        var o := if reverse then ScanDown(n, 16) else ScanUp(n, 0);
        if o.Some? then o
        else if v != BLANK_VALUE && reverse then Some(Hit([], true))
        else None
    case Leaf(k, _) => Some(Hit(k, false))
    case Extension(k, c) =>
      var o := GetAny(c, reverse);
      if o.Some? then Some(o.value.After(k)) else None
  }

  /** Scans the slots i, i + 1, .. 15. */
  function ScanUp(n: Node, i: nat): Option<Hit>
    requires Canonical(n) && n.Branch? && i <= 16
    decreases n, 16 - i
  {
    if i == 16 then None
    else
      var o := GetAny(n.kids[i], false);
      if o.Some? then Some(o.value.After([i])) else ScanUp(n, i + 1)
  }

  /** Scans the slots i - 1, i - 2, .. 0. */
  function ScanDown(n: Node, i: nat): Option<Hit>
    requires Canonical(n) && n.Branch? && i <= 16
    decreases n, i
  {
    if i == 0 then None
    else
      var o := GetAny(n.kids[i - 1], true);
      if o.Some? then Some(o.value.After([i - 1])) else ScanDown(n, i - 1)
  }

  /** The first stored key strictly beyond `key` in the direction of the search. */
  function Iter(n: Node, key: Path, reverse: bool): Option<Hit>
    requires Canonical(n)
  {
    match n
    case Blank => None
    case Branch(kids, v) =>
      var o := if key == [] then None else Iter(kids[key[0]], key[1..], reverse);
      if o.Some? then Some(o.value.After([key[0]]))
      else
        var from: nat := if key == [] then 0 else if reverse then key[0] else key[0] as int + 1;
        var o' := if reverse then ScanDown(n, from) else ScanUp(n, from);
        if o'.Some? then o'
        else if reverse && key != [] && v != BLANK_VALUE then Some(Hit([], true))
        else None
    case Leaf(k, _) => if Ahead(key, k, reverse) then Some(Hit(k, false)) else None
    case Extension(k, c) =>
      var head := if |k| <= |key| then key[..|k|] else key;
      var o :=
        if k <= key then Iter(c, key[|k|..], reverse)
        else if Lt(head, k) && !reverse then GetAny(c, false)
        else if Lt(k, head) && reverse then GetAny(c, true)
        else None;
      if o.Some? && !o.value.EmptyList() then Some(o.value.After(k)) else None
  }

  /** The result handed to the caller: an empty list counts as "nothing found". */
  function Neighbour(n: Node, key: Path, reverse: bool): Option<Path>
    requires Canonical(n)
  {
    match Iter(n, key, reverse)
    case Some(o) => if o.EmptyList() then None else Some(o.path)
    case None => None
  }

  function Next(n: Node, key: Path): Option<Path>
    requires Canonical(n)
  {
    Neighbour(n, key, false)
  }

  function Prev(n: Node, key: Path): Option<Path>
    requires Canonical(n)
  {
    Neighbour(n, key, true)
  }

  // ----- What they find -----

  predicate Stored(n: Node, k: Path)
    requires Wf(n)
  {
    Get(n, k) != BLANK_VALUE
  }

  ghost predicate IsFirst(n: Node, reverse: bool, o: Option<Path>)
    requires Wf(n)
  {
    match o
    case Some(k) => Stored(n, k) && forall q :: Stored(n, q) ==> !Ahead(q, k, reverse)
    case None => n == Blank
  }

  ghost predicate IsNeighbour(n: Node, key: Path, reverse: bool, o: Option<Path>)
    requires Wf(n)
  {
    match o
    case Some(k) =>
      && Stored(n, k) && Ahead(key, k, reverse)
      && forall q :: Stored(n, q) && Ahead(key, q, reverse) ==> !Ahead(q, k, reverse)
    case None => forall q :: Stored(n, q) ==> !Ahead(key, q, reverse)
  }

  function PathOf(o: Option<Hit>): Option<Path> {
    match o
    case Some(h) => Some(h.path)
    case None => None
  }

  // ----- Order facts -----

  /** A key that does not extend k lies on one side of everything below k, the side of its head. */
  lemma {:induction false} HeadOrder(k: Path, key: Path, a: Path)
    requires !(k <= key)
    ensures var head := if |k| <= |key| then key[..|k|] else key;
      && Lt(head, k) == Lt(key, k + a) && Lt(k, head) == Lt(k + a, key) && Lt(head, k) != Lt(k, head)
  {
    if key != [] && key[0] == k[0] {
      assert (k + a)[1..] == k[1..] + a;
      assert k == [k[0]] + k[1..] && key == [key[0]] + key[1..];
      HeadOrder(k[1..], key[1..], a);
      if |k| <= |key| { assert key[..|k|][1..] == key[1..][..|k| - 1]; }
    }
  }

  lemma AheadBelow(i: Nibble, x: Path, q: Path, reverse: bool)
    requires q != [] && q[0] == i
    ensures Ahead(q, [i] + x, reverse) == Ahead(q[1..], x, reverse)
    ensures Ahead([i] + x, q, reverse) == Ahead(x, q[1..], reverse)
  {
  }

  lemma StoredBelow(n: Node, q: Path)
    requires Wf(n) && n.Branch? && q != []
    ensures Stored(n, q) <==> Stored(n.kids[q[0]], q[1..])
  {
  }

  // ----- First key -----

  lemma {:induction false} GetAnyIsFirst(n: Node, reverse: bool)
    requires Canonical(n)
    ensures IsFirst(n, reverse, PathOf(GetAny(n, reverse)))
    decreases n, 17
  {
    match n
    case Blank =>
    case Leaf(_, _) => LtIrreflexive(n.key);
    case Branch(_, _) =>
      LtIrreflexive([]);
      NotAllBlank(n);
      if reverse { ScanDownIsFirst(n, 16); } else { ScanUpIsFirst(n, 0); }
    case Extension(k, c) =>
      GetAnyIsFirst(c, reverse);
      var h := GetAny(c, reverse).value;
      GetBelowExtension(n, h.path);
      forall q | Stored(n, q) ensures !Ahead(q, k + h.path, reverse) {
        assert q == k + q[|k|..] && Stored(c, q[|k|..]);
        LtPrefix(k, q[|k|..], h.path);
        LtPrefix(k, h.path, q[|k|..]);
      }
  }

  lemma NotAllBlank(n: Node)
    requires Canonical(n) && n.Branch?
    ensures exists i: nat :: i < 16 && n.kids[i] != Blank
  {
    NoneUsed(n.kids);
  }

  lemma {:induction false} ScanUpIsFirst(n: Node, i: nat)
    requires Canonical(n) && n.Branch? && i <= 16
    ensures match ScanUp(n, i)
      case None => forall j :: i <= j < 16 ==> n.kids[j] == Blank
      case Some(h) =>
        && h.path != [] && h.path[0] >= i && Stored(n, h.path)
        && forall q :: Stored(n, q) && q != [] && q[0] >= i ==> !Lt(q, h.path)
    decreases n, 16 - i
  {
    if i < 16 {
      GetAnyIsFirst(n.kids[i], false);
      if n.kids[i] == Blank {
        ScanUpIsFirst(n, i + 1);
        forall q | q != [] && Stored(n, q) ensures q[0] != i { StoredBelow(n, q); }
      } else {
        FoundBelow(n, i, GetAny(n.kids[i], false).value.path, false);
      }
    }
  }

  lemma {:induction false} ScanDownIsFirst(n: Node, i: nat)
    requires Canonical(n) && n.Branch? && i <= 16
    ensures match ScanDown(n, i)
      case None => forall j :: 0 <= j < i ==> n.kids[j] == Blank
      case Some(h) =>
        && h.path != [] && h.path[0] < i && Stored(n, h.path)
        && forall q :: Stored(n, q) && (q == [] || q[0] < i) ==> !Lt(h.path, q)
    decreases n, i
  {
    if i > 0 {
      GetAnyIsFirst(n.kids[i - 1], true);
      if n.kids[i - 1] == Blank {
        ScanDownIsFirst(n, i - 1);
        forall q | q != [] && Stored(n, q) ensures q[0] != i - 1 { StoredBelow(n, q); }
      } else {
        FoundBelow(n, i - 1, GetAny(n.kids[i - 1], true).value.path, true);
      }
    }
  }

  /** The first key below one slot, seen from the branch. */
  lemma FoundBelow(n: Node, i: Nibble, k: Path, reverse: bool)
    requires Canonical(n) && n.Branch? && IsFirst(n.kids[i], reverse, Some(k))
    ensures Stored(n, [i] + k)
    ensures forall q :: Stored(n, q) && q != [] && q[0] == i ==> !Ahead(q, [i] + k, reverse)
  {
    GetBelowBranch(n, i, k);
    forall q | Stored(n, q) && q != [] && q[0] == i ensures !Ahead(q, [i] + k, reverse) {
      AheadBelow(i, k, q, reverse);
    }
  }

  // ----- Neighbours -----

  lemma {:induction false} IterIsNeighbour(n: Node, key: Path, reverse: bool)
    requires Canonical(n)
    ensures IsNeighbour(n, key, reverse, PathOf(Iter(n, key, reverse)))
    ensures n.Branch? && Iter(n, key, reverse).Some? ==> !Iter(n, key, reverse).value.EmptyList()
    decreases n
  {
    match n
    case Blank =>
    case Leaf(k, _) => LtIrreflexive(k);
    case Branch(kids, v) =>
      if key != [] { IterIsNeighbour(kids[key[0]], key[1..], reverse); }
      BranchNeighbour(n, key, reverse);
    case Extension(k, c) =>
      if k <= key {
        IterIsNeighbour(c, key[|k|..], reverse);
      }
      GetAnyIsFirst(c, reverse);
      ExtensionNeighbour(n, key, reverse);
  }

  lemma BranchNeighbour(n: Node, key: Path, reverse: bool)
    requires Canonical(n) && n.Branch?
    requires key != [] ==> IsNeighbour(n.kids[key[0]], key[1..], reverse, PathOf(Iter(n.kids[key[0]], key[1..], reverse)))
    ensures IsNeighbour(n, key, reverse, PathOf(Iter(n, key, reverse)))
    ensures Iter(n, key, reverse).Some? ==> !Iter(n, key, reverse).value.EmptyList()
  {
    if key != [] && Iter(n.kids[key[0]], key[1..], reverse).Some? {
      NeighbourInSlot(n, key, reverse, Iter(n.kids[key[0]], key[1..], reverse).value.path);
    } else {
      forall q | q != [] && key != [] && q[0] == key[0] && Stored(n, q) ensures !Ahead(key, q, reverse) {
        StoredBelow(n, q);
        AheadBelow(key[0], key[1..], q, reverse);
        assert [key[0]] + key[1..] == key;
      }
      if reverse { PrevBesideSlot(n, key); } else { NextBesideSlot(n, key); }
    }
  }

  /** A neighbour below the slot of the key's first nibble is one for the whole branch. */
  lemma NeighbourInSlot(n: Node, key: Path, reverse: bool, k: Path)
    requires Canonical(n) && n.Branch? && key != []
    requires IsNeighbour(n.kids[key[0]], key[1..], reverse, Some(k))
    ensures IsNeighbour(n, key, reverse, Some([key[0]] + k))
  {
    GetBelowBranch(n, key[0], k);
    AheadBelow(key[0], k, key, reverse);
    forall q | Stored(n, q) && Ahead(key, q, reverse) ensures !Ahead(q, [key[0]] + k, reverse) {
      if q != [] && q[0] == key[0] {
        StoredBelow(n, q);
        AheadBelow(key[0], k, q, reverse);
        AheadBelow(key[0], key[1..], q, reverse);
        assert [key[0]] + key[1..] == key;
      }
    }
  }

  lemma NextBesideSlot(n: Node, key: Path)
    requires Canonical(n) && n.Branch?
    requires forall q :: q != [] && key != [] && q[0] == key[0] && Stored(n, q) ==> !Lt(key, q)
    ensures IsNeighbour(n, key, false, PathOf(ScanUp(n, if key == [] then 0 else key[0] as int + 1)))
    ensures var o := ScanUp(n, if key == [] then 0 else key[0] as int + 1); o.Some? ==> o.value.path != []
  {
    var from: nat := if key == [] then 0 else key[0] as int + 1;
    ScanUpIsFirst(n, from);
    forall q | Stored(n, q) && Lt(key, q)
      ensures q != [] && q[0] as int >= from
      ensures ScanUp(n, from).Some? && !Lt(q, ScanUp(n, from).value.path)
    {
      StoredBelow(n, q);
    }
  }

  lemma PrevBesideSlot(n: Node, key: Path)
    requires Canonical(n) && n.Branch?
    requires forall q :: q != [] && key != [] && q[0] == key[0] && Stored(n, q) ==> !Lt(q, key)
    ensures var o := ScanDown(n, if key == [] then 0 else key[0]);
      && (o.Some? ==> o.value.path != [] && IsNeighbour(n, key, true, PathOf(o)))
      && (o.None? ==> IsNeighbour(n, key, true, if key != [] && n.value != BLANK_VALUE then Some([]) else None))
  {
    var from: nat := if key == [] then 0 else key[0];
    ScanDownIsFirst(n, from);
    forall q | Stored(n, q) && Lt(q, key)
      ensures key != [] && (q == [] || q[0] as int < from)
      ensures ScanDown(n, from).Some? ==> !Lt(ScanDown(n, from).value.path, q)
      ensures ScanDown(n, from).None? ==> q == [] && n.value != BLANK_VALUE
    {
      if q != [] { StoredBelow(n, q); }
    }
  }

  lemma ExtensionNeighbour(n: Node, key: Path, reverse: bool)
    requires Canonical(n) && n.Extension?
    requires n.key <= key ==>
               var o := Iter(n.child, key[|n.key|..], reverse);
               && IsNeighbour(n.child, key[|n.key|..], reverse, PathOf(o))
               && (o.Some? ==> !o.value.EmptyList())
    ensures IsNeighbour(n, key, reverse, PathOf(Iter(n, key, reverse)))
  {
    var k, c := n.key, n.child;
    GetAnyIsFirst(c, reverse);
    GetAnyNotEmpty(c, reverse);
    forall q | Stored(n, q) ensures k <= q && q == k + q[|k|..] && Stored(c, q[|k|..]) {}
    if k <= key {
      assert key == k + key[|k|..];
      forall a, b ensures Ahead(k + a, k + b, reverse) == Ahead(a, b, reverse) {
        LtPrefix(k, a, b);
        LtPrefix(k, b, a);
      }
      var o := Iter(c, key[|k|..], reverse);
      if o.Some? { GetBelowExtension(n, o.value.path); }
    } else {
      forall a ensures Ahead(key, k + a, reverse) == Ahead(key, k, reverse) {
        HeadOrder(k, key, a);
        HeadOrder(k, key, []);
        assert k + [] == k;
      }
      forall a, b ensures Ahead(k + a, k + b, reverse) == Ahead(a, b, reverse) {
        LtPrefix(k, a, b);
        LtPrefix(k, b, a);
      }
      HeadOrder(k, key, []);
      assert k + [] == k;
      GetBelowExtension(n, GetAny(c, reverse).value.path);
    }
  }

  lemma GetAnyNotEmpty(n: Node, reverse: bool)
    requires Canonical(n) && n.Branch?
    ensures GetAny(n, reverse).Some? && !GetAny(n, reverse).value.EmptyList()
  {
    NotAllBlank(n);
    if reverse { ScanDownIsFirst(n, 16); } else { ScanUpIsFirst(n, 0); }
  }

  // ----- next and prev -----

  /** `next` returns the least stored key above the given one, or none if there is none. */
  lemma NextIsLeastGreater(n: Node, key: Path)
    requires Canonical(n)
    ensures match Next(n, key)
      case Some(k) => Stored(n, k) && Lt(key, k) && forall q :: Stored(n, q) && Lt(key, q) ==> !Lt(q, k)
      case None => forall q :: Stored(n, q) ==> !Lt(key, q)
  {
    IterIsNeighbour(n, key, false);
  }

  /** `prev` returns the greatest stored key below the given one, except that an empty key stored
      alone in the trie is never found. */
  lemma PrevIsGreatestLess(n: Node, key: Path)
    requires Canonical(n)
    ensures (match Prev(n, key)
             case Some(k) => Stored(n, k) && Lt(k, key) && forall q :: Stored(n, q) && Lt(q, key) ==> !Lt(k, q)
             case None => forall q :: Stored(n, q) ==> !Lt(q, key))
        <==> !(n.Leaf? && n.key == [] && key != [])
  {
    IterIsNeighbour(n, key, true);
    if n.Leaf? && n.key == [] && key != [] {
      assert Stored(n, []) && Lt([], key);
    }
  }
}
