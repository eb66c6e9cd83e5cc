/** The trie object of trie.py: in-memory lists over a content-addressed database. Branch lists are
    changed in place, also when they are inlined in other lists; key-value lists are never changed
    after they are built and are values here. The methods refine the functions of module Trie. */
module TrieStore {
  import opened Nibbles
  import opened Trie
  import opened TrieMap
  import opened TrieCanonical
  import opened Encoding
  import opened NodeItems
  import opened Sealed

  // ----- Lists in memory -----

  /** An entry of a list: a byte string or hash, or another list inlined. */
  datatype Slot = Raw(item: Record) | Inline(list: PyNode)

  /** A decoded node. The packed key of a key-value list is kept as the path and flag it packs. */
  datatype PyNode =
    | PyBlank
    | PyKv(path: Path, terminated: bool, slot: Slot)
    | PyBranch(branch: BranchList)

  /** The 17 entries of a branch. Repr holds this list and all branch lists inlined below it. */
  class BranchList {
    var slots: seq<Slot>
    ghost var Repr: set<BranchList>

    constructor (slots: seq<Slot>)
      ensures this.slots == slots && Repr == {this}
    {
      this.slots := slots;
      Repr := {this};
    }
  }

  /** The branch list reached first from a node, if there is one in memory. */
  ghost function Top(p: PyNode): set<BranchList> {
    match p
    case PyBlank => {}
    case PyKv(_, _, Raw(_)) => {}
    case PyKv(_, _, Inline(q)) => Top(q)
    case PyBranch(b) => {b}
  }

  ghost function TopOf(s: Slot): set<BranchList> { if s.Raw? then {} else Top(s.list) }

  /** All branch lists in memory that belong to a node. */
  ghost function Foot(p: PyNode): set<BranchList>
    reads Top(p)
  {
    match p
    case PyBlank => {}
    case PyKv(_, _, Raw(_)) => {}
    case PyKv(_, _, Inline(q)) => Foot(q)
    case PyBranch(b) => b.Repr
  }

  lemma FootAllocated(p: PyNode)
    ensures forall b :: b in Top(p) ==> allocated(b)
    ensures forall b :: b in Foot(p) ==> allocated(b)
  {
  }

  ghost function FootOf(s: Slot): set<BranchList>
    reads TopOf(s)
  {
    if s.Raw? then {} else Foot(s.list)
  }

  /** Looks at the children in `Holds` and `OthersHold`. */
  predicate OpenHolds(s: Seal) { true }

  /** The lists of p hold exactly the tree n, with children inline or as hashes as NodeItems says. */
  ghost predicate Holds(p: PyNode, n: Node)
    requires Wf(n)
    reads Top(p), Foot(p)
  {
    match n
    case Blank => p == PyBlank
    case Leaf(k, v) => p == PyKv(k, true, Raw(Text(v)))
    case Extension(k, c) =>
      p.PyKv? && p.path == k && !p.terminated && Shape(p.slot, c) && (p.slot.Inline? ==> Holds(p.slot.list, c))
    case Branch(kids, v) =>
      && p.PyBranch?
      && var b := p.branch;
      && b in b.Repr && |b.slots| == 17 && b.slots[16] == Raw(Text(v))
      && forall s: Seal :: OpenHolds(s) ==>
        && (forall i :: 0 <= i < 16 ==> TopOf(b.slots[i]) <= b.Repr - {b} && FootOf(b.slots[i]) <= b.Repr - {b})
        && (forall i, j :: 0 <= i < j < 16 ==> FootOf(b.slots[i]) !! FootOf(b.slots[j]))
        && (forall i :: 0 <= i < 16 ==> Shape(b.slots[i], kids[i]))
        && (forall i :: 0 <= i < 16 && b.slots[i].Inline? ==> Holds(b.slots[i].list, kids[i]))
  }

  /** A slot is inline exactly for the short non-blank nodes, and a hash for the long ones. */
  ghost predicate Shape(s: Slot, n: Node)
    requires Wf(n)
  {
    if n != Blank && Inlined(n) then s.Inline? else s == Raw(RefItem(n))
  }

  ghost predicate SlotHolds(s: Slot, n: Node)
    requires Wf(n)
    reads TopOf(s), FootOf(s)
  {
    Shape(s, n) && (s.Inline? ==> Holds(s.list, n))
  }

  lemma TopInFoot(p: PyNode, n: Node)
    requires Wf(n) && Holds(p, n)
    ensures Top(p) <= Foot(p)
  {
  }

  ghost function OtherTops(b: BranchList, i: Nibble): set<BranchList>
    reads b
  {
    set j, o | 0 <= j < |b.slots| && j != i && o in TopOf(b.slots[j]) :: o
  }

  /** The lists that belong to the slots of b other than slot i. */
  ghost function OtherFeet(b: BranchList, i: Nibble): set<BranchList>
    reads b, OtherTops(b, i)
  {
    set j, o | 0 <= j < |b.slots| && j != i && o in FootOf(b.slots[j]) :: o
  }

  /** A branch list whose slots, except possibly slot i, hold the children of n. */
  ghost predicate OthersHold(b: BranchList, i: Nibble, n: Node)
    requires Wf(n) && n.Branch?
    reads b, OtherTops(b, i), OtherFeet(b, i)
  {
    && b in b.Repr && |b.slots| == 17 && b.slots[16] == Raw(Text(n.value))
    && forall s: Seal :: OpenHolds(s) ==>
      && (forall j :: 0 <= j < 16 && j != i ==> TopOf(b.slots[j]) <= b.Repr - {b} && FootOf(b.slots[j]) <= b.Repr - {b})
      && (forall j, k :: 0 <= j < k < 16 && j != i && k != i ==> FootOf(b.slots[j]) !! FootOf(b.slots[k]))
      && (forall j :: 0 <= j < 16 && j != i ==> Shape(b.slots[j], n.kids[j]))
      && (forall j :: 0 <= j < 16 && j != i && b.slots[j].Inline? ==> Holds(b.slots[j].list, n.kids[j]))
  }

  lemma SlotApart(b: BranchList, i: Nibble, n: Node)
    requires Wf(n) && n.Branch? && Holds(PyBranch(b), n)
    ensures OthersHold(b, i, n) && SlotHolds(b.slots[i], n.kids[i])
    ensures FootOf(b.slots[i]) <= b.Repr - {b} && OtherFeet(b, i) <= b.Repr - {b}
    ensures OtherTops(b, i) <= OtherFeet(b, i)
    ensures FootOf(b.slots[i]) !! OtherFeet(b, i)
  {
    assert OpenHolds(Seal);
    forall j, o | 0 <= j < 17 && j != i && o in TopOf(b.slots[j]) ensures o in FootOf(b.slots[j]) {
      TopInFoot(b.slots[j].list, n.kids[j]);
    }
  }

  /** One slot of a branch list. */
  lemma SlotOf(b: BranchList, i: Nibble, n: Node)
    requires Wf(n) && n.Branch? && Holds(PyBranch(b), n)
    ensures SlotHolds(b.slots[i], n.kids[i])
    ensures TopOf(b.slots[i]) <= b.Repr - {b} && FootOf(b.slots[i]) <= b.Repr - {b}
  {
    assert OpenHolds(Seal);
  }

  /** The nested list that `encode_optimized` goes through. */
  function Freeze(p: PyNode, ghost n: Node): (e: Record)
    requires Wf(n) && Holds(p, n)
    reads Top(p), Foot(p)
    ensures e == NodeItem(n)
    decreases n, 1
  {
    match p
    case PyBlank => BLANK_ITEM
    case PyKv(key, t, Raw(item)) => Seq([Text(Pack(key, t)), item])
    case PyKv(key, t, Inline(q)) => Seq([Text(Pack(key, t)), Freeze(q, n.child)])
    case PyBranch(b) => Seq(FreezeSlots(b, 0, n) + [b.slots[16].item])
  }

  function FreezeSlots(b: BranchList, i: nat, ghost n: Node): (items: seq<Record>)
    requires Wf(n) && n.Branch? && Holds(PyBranch(b), n) && i <= 16
    reads b, b.Repr
    ensures |items| == 16 - i && forall j :: 0 <= j < 16 - i ==> items[j] == RefItem(n.kids[i + j])
    decreases n, 0, 16 - i
  {
    if i == 16 then []
    else
      SlotOf(b, i, n);
      var item := if b.slots[i].Raw? then b.slots[i].item else Freeze(b.slots[i].list, n.kids[i]);
      assert item == RefItem(n.kids[i]);
      [item] + FreezeSlots(b, i + 1, n)
  }

  /** The loop that finds how far two keys agree. */
  method FindPrefixLength(a: Path, b: Path) returns (p: nat)
    ensures p == CommonLength(a, b)
  {
    p := 0;
    while p < |a| && p < |b| && a[p] == b[p]
      invariant p <= |a| && p <= |b| && a[..p] == b[..p]
      invariant CommonLength(a, b) == p + CommonLength(a[p..], b[p..])
    {
      assert a[p..][1..] == a[p + 1..] && b[p..][1..] == b[p + 1..];
      p := p + 1;
    }
  }

  // ----- Storing and fetching nodes -----

  /** `_encode_node`: short nodes stay the list they are, others are put into the database. */
  function EncodeNode(db: Database, p: PyNode, ghost n: Node): (r: (Slot, Database))
    requires Wf(n) && Holds(p, n) && Held(db, n) && ContentAddressed(db)
    reads Top(p), Foot(p)
    ensures SlotHolds(r.0, n) && (r.0.Inline? ==> r.0.list == p)
    ensures RefHeld(r.1, n) && db.Keys <= r.1.Keys && ContentAddressed(r.1)
  {
    if p == PyBlank then (Raw(BLANK_ITEM), db)
    else
      var e := Freeze(p, n);
      if RecordLength(e) < 32 then (Inline(p), db)
      else
        HeldGrows(db, db[Sha3(e) := e], n);
        (Raw(Hash(Sha3(e))), db[Sha3(e) := e])
  }

  /** In bytes and for every hash function with 32-byte results: a node with an encoding of 32 bytes or more
      gets a record under its hash and is referred to by that; any other leaves the database as it is. */
  lemma EncodeNodeRule(db: Database, p: PyNode, n: Node, sha3: Digest -> Bytes)
    requires Wf(n) && Holds(p, n) && Held(db, n) && ContentAddressed(db) && forall d :: |sha3(d)| == 32
    ensures var (s, db') := EncodeNode(db, p, n); var h := Sha3(NodeItem(n));
      if n != Blank && Length(WithBytes(NodeItem(n), sha3)) >= 32 then s == Raw(Hash(h)) && db' == db[h := NodeItem(n)]
      else db' == db && s == if n == Blank then Raw(Text([])) else Inline(p)
  {
    LengthIsReal(NodeItem(n), sha3);
  }

  /** A new branch list over slots whose lists in memory are those in `below`. */
  method NewBranch(slots: seq<Slot>, ghost n: Node, ghost below: set<BranchList>) returns (r: PyNode)
    requires Wf(n) && n.Branch? && |slots| == 17 && slots[16] == Raw(Text(n.value))
    requires forall i :: 0 <= i < 16 ==> SlotHolds(slots[i], n.kids[i]) && FootOf(slots[i]) <= below && TopOf(slots[i]) <= below
    requires forall i, j :: 0 <= i < j < 16 ==> FootOf(slots[i]) !! FootOf(slots[j])
    ensures Holds(r, n) && r.PyBranch? && fresh(r.branch) && r.branch.slots == slots
    ensures forall b :: b in Foot(r) ==> b in below || fresh(b)
  {
    var b := new BranchList(slots);
    b.Repr := b.Repr + below;
    assert forall i :: 0 <= i < 16 ==> SlotHolds(b.slots[i], n.kids[i]);
    r := PyBranch(b);
  }

  /** The lists that `rlp.decode` builds for a stored node. */
  method Thaw(e: Record, ghost n: Node) returns (p: PyNode)
    requires Wf(n) && e == NodeItem(n)
    ensures Holds(p, n) && fresh(Foot(p))
    decreases e
  {
    if e == BLANK_ITEM { return PyBlank; }
    var items := e.items;
    if |items| == 2 {
      UnpackPack(n.key, n.Leaf?);
      var (key, terminated) := Unpack(items[0].bytes);
      match items[1]
      case Seq(_) =>
        var q := Thaw(items[1], n.child);
        p := PyKv(key, terminated, Inline(q));
      case _ => p := PyKv(key, terminated, Raw(items[1]));
    } else {
      p := ThawBranch(items, n);
    }
  }

  method ThawBranch(items: seq<Record>, ghost n: Node) returns (p: PyNode)
    requires Wf(n) && n.Branch? && Seq(items) == NodeItem(n)
    ensures Holds(p, n) && fresh(Foot(p))
    decreases items
  {
    var slots: seq<Slot> := [];
    ghost var repr: set<BranchList> := {};
    for i := 0 to 17
      invariant |slots| == i
      invariant fresh(repr)
      invariant forall j :: 0 <= j < i && j < 16 ==> SlotHolds(slots[j], n.kids[j])
      invariant forall j :: 0 <= j < i && j < 16 ==> TopOf(slots[j]) <= repr && FootOf(slots[j]) <= repr
      invariant forall j, k :: 0 <= j < k < i && k < 16 ==> FootOf(slots[j]) !! FootOf(slots[k])
      invariant i == 17 ==> slots[16] == Raw(Text(n.value))
    {
      match items[i]
      case Seq(_) =>
        var q := Thaw(items[i], n.kids[i]);
        TopInFoot(q, n.kids[i]);
        slots := slots + [Inline(q)];
        repr := repr + Foot(q);
      case _ => slots := slots + [Raw(items[i])];
    }
    p := NewBranch(slots, n, repr);
  }

  /** `_decode_to_node`: an inlined list itself, or new lists built from the record of the hash. */
  method DecodeToNode(db: Database, s: Slot, ghost n: Node) returns (p: PyNode)
    requires Wf(n) && SlotHolds(s, n) && RefHeld(db, n) && ContentAddressed(db)
    ensures Holds(p, n) && (s.Inline? ==> p == s.list) && (s.Raw? ==> fresh(Foot(p)))
    ensures forall b :: b in Foot(p) ==> b in old(FootOf(s)) || fresh(b)
  {
    match s
    case Inline(q) => p := q;
    case Raw(item) =>
      if item == BLANK_ITEM { return PyBlank; }
      p := Thaw(db[item.of], n);
  }

  // ----- Lookup -----

  method GetNode(db: Database, p: PyNode, key: Path, ghost n: Node) returns (value: Bytes)
    requires Wf(n) && Holds(p, n) && Held(db, n) && ContentAddressed(db)
    ensures value == Get(n, key)
    decreases n
  {
    match p
    case PyBlank => value := BLANK_VALUE;
    case PyBranch(b) =>
      if key == [] { return b.slots[16].item.bytes; }
      SlotOf(b, key[0], n);
      var child := DecodeToNode(db, b.slots[key[0]], n.kids[key[0]]);
      value := GetNode(db, child, key[1..], n.kids[key[0]]);
    case PyKv(currKey, isLeaf, s) =>
      if isLeaf {
        value := if key == currKey then s.item.bytes else BLANK_VALUE;
      } else if currKey <= key {
        var child := DecodeToNode(db, s, n.child);
        value := GetNode(db, child, key[|currKey|..], n.child);
      } else {
        value := BLANK_VALUE;
      }
  }

  // ----- The lists that a change writes -----

  /** The branch lists in memory that an update or delete of the key passes through, and changes. */
  ghost function OnPath(p: PyNode, key: Path, n: Node): set<BranchList>
    requires Wf(n) && Holds(p, n)
    reads Top(p), Foot(p)
    decreases n
  {
    match n
    case Blank => {}
    case Leaf(_, _) => {}
    case Extension(k, c) => if k <= key && p.slot.Inline? then OnPath(p.slot.list, key[|k|..], c) else {}
    case Branch(kids, _) =>
      {p.branch} +
      if key == [] then {}
      else
        SlotOf(p.branch, key[0], n);
        if p.branch.slots[key[0]].Inline? then OnPath(p.branch.slots[key[0]].list, key[1..], kids[key[0]]) else {}
  }

  /** The part of the path below a slot. */
  ghost function PathBelow(s: Slot, key: Path, n: Node): set<BranchList>
    requires Wf(n) && SlotHolds(s, n)
    reads TopOf(s), FootOf(s)
  {
    if s.Inline? then OnPath(s.list, key, n) else {}
  }

  lemma {:induction false} OnPathInFoot(p: PyNode, key: Path, n: Node)
    requires Wf(n) && Holds(p, n)
    ensures OnPath(p, key, n) <= Foot(p)
    decreases n
  {
    match n
    case Blank =>
    case Leaf(_, _) =>
    case Extension(k, c) => if k <= key && p.slot.Inline? { OnPathInFoot(p.slot.list, key[|k|..], c); }
    case Branch(kids, _) =>
      if key != [] {
        SlotOf(p.branch, key[0], n);
        if p.branch.slots[key[0]].Inline? { OnPathInFoot(p.branch.slots[key[0]].list, key[1..], kids[key[0]]); }
      }
  }

  /** Lists hold one tree. */
  lemma {:induction false} HoldsUnique(p: PyNode, n: Node, m: Node)
    requires Wf(n) && Wf(m) && Holds(p, n) && Holds(p, m)
    ensures n == m
    decreases n
  {
    match n
    case Blank =>
    case Leaf(_, _) =>
    case Extension(_, c) =>
      if p.slot.Inline? { HoldsUnique(p.slot.list, c, m.child); } else { NodeItemInjective(c, m.child); }
    case Branch(kids, _) =>
      forall i: Nibble ensures kids[i] == m.kids[i] {
        SlotOf(p.branch, i, n);
        SlotOf(p.branch, i, m);
        if p.branch.slots[i].Inline? {
          HoldsUnique(p.branch.slots[i].list, kids[i], m.kids[i]);
        } else {
          NodeItemInjective(kids[i], m.kids[i]);
        }
      }
  }

  /** Decodes a child whose path the change follows: a list in memory, or new lists. */
  method DecodeOnPath(db: Database, s: Slot, key: Path, ghost n: Node) returns (p: PyNode)
    requires Wf(n) && SlotHolds(s, n) && RefHeld(db, n) && ContentAddressed(db)
    ensures Holds(p, n) && forall b :: b in Foot(p) ==> b in old(FootOf(s)) || fresh(b)
    ensures s.Inline? ==> Foot(p) == old(FootOf(s))
    ensures OnPath(p, key, n) <= Foot(p)
    ensures s.Inline? ==> p == s.list
    ensures if s.Inline? then OnPath(p, key, n) == old(PathBelow(s, key, n)) else fresh(OnPath(p, key, n))
  {
    if s.Inline? { FootAllocated(s.list); }
    ghost var below := PathBelow(s, key, n);
    p := DecodeToNode(db, s, n);
    OnPathInFoot(p, key, n);
    assert s.Inline? ==> OnPath(p, key, n) == below;
  }

  /** The watched list, if there is one, holds m. */
  ghost predicate Watched(w: BranchList?, m: Node)
    reads w, if w == null then {} else w.Repr
  {
    Wf(m) && (w != null ==> Holds(PyBranch(w), m))
  }

  /** The key has the value already. */
  ghost predicate Same(n: Node, key: Path, value: Bytes)
    requires Wf(n)
  {
    Canonical(n) && value != BLANK_VALUE && Get(n, key) == value
  }

  lemma {:induction false} UpdateSame(n: Node, key: Path, value: Bytes)
    requires Wf(n) && Same(n, key, value)
    ensures Update(n, key, value) == n
    decreases n
  {
    match n
    case Leaf(_, _) =>
    case Extension(k, c) =>
      PrefixLengthOf(k, key);
      UpdateSame(c, key[|k|..], value);
    case Branch(kids, _) =>
      if key != [] {
        UpdateSame(kids[key[0]], key[1..], value);
        assert kids[key[0] := kids[key[0]]] == kids;
      }
  }

  /** The slot of a key that has the value already is what it was. */
  lemma SlotSame(b: BranchList, key: Path, value: Bytes, n: Node, s: Slot)
    requires Wf(n) && n.Branch? && key != [] && Holds(PyBranch(b), Update(n, key, value)) && Shape(s, n.kids[key[0]])
    ensures Same(n, key, value) && (s.Inline? && b.slots[key[0]].Inline? ==> b.slots[key[0]].list == s.list) ==> b.slots[key[0]] == s
  {
    if Same(n, key, value) {
      UpdateSame(n, key, value);
      SlotOf(b, key[0], n);
    }
  }

  lemma KvSame(n: Node, key: Path, value: Bytes)
    requires Wf(n) && n.Extension? && Same(n, key, value)
    ensures n.key != [] && n.key <= key && CommonLength(n.key, key) == |n.key| && Update(n.child, key[|n.key|..], value) == n.child
  {
    PrefixLengthOf(n.key, key);
    UpdateSame(n.child, key[|n.key|..], value);
  }

  lemma PrefixLengthOf(k: Path, key: Path)
    requires k <= key
    ensures CommonLength(k, key) == |k|
  {
  }

  // ----- Update -----

  /** `_update`. The branch lists on the path of the key are changed in place, and no others; the
      result may share them. If the value is a new one, a list w on the path that held m holds it no
      more. */
  method UpdateNode(db: Database, p: PyNode, key: Path, value: Bytes, ghost n: Node, ghost w: BranchList?, ghost m: Node)
    returns (r: PyNode, db': Database)
    requires Wf(n) && Holds(p, n) && Held(db, n) && ContentAddressed(db)
    requires Watched(w, m)
    modifies OnPath(p, key, n)
    ensures Holds(r, Update(n, key, value))
    ensures forall b :: b in Foot(r) ==> b in old(Foot(p)) || fresh(b)
    ensures Held(db', Update(n, key, value)) && db.Keys <= db'.Keys && ContentAddressed(db')
    ensures p.PyBranch? ==> r == p
    ensures w in old(OnPath(p, key, n)) ==> forall b :: b in w.Repr ==> b in old(Foot(p)) || fresh(b)
    ensures w in old(OnPath(p, key, n)) && Get(n, key) != value ==> !Holds(PyBranch(w), m)
    ensures Same(n, key, value) ==> r == p && Foot(r) == old(Foot(p)) && forall b :: b in old(OnPath(p, key, n)) && old(allocated(b)) ==> b.slots == old(b.slots) && b.Repr == old(b.Repr)
    decreases n, 2
  {
    match p
    case PyBlank => r, db' := PyKv(key, true, Raw(Text(value))), db;
    case PyBranch(b) =>
      r := p;
      if key == [] {
        db' := db;
        UpdateHere(b, value, n, w, m);
      } else {
        db' := UpdateSlot(db, b, key, value, n, w, m);
      }
    case PyKv(currKey, _, _) =>
      FootAllocated(p);
      var prefixLength := FindPrefixLength(currKey, key);
      assert Holds(p, n) && Foot(p) == old(Foot(p));
      r, db' := UpdateKvNode(db, p, key, value, prefixLength, n, w, m);
  }

  method UpdateHere(b: BranchList, value: Bytes, ghost n: Node, ghost w: BranchList?, ghost m: Node)
    requires Wf(n) && n.Branch? && Holds(PyBranch(b), n)
    requires Watched(w, m)
    modifies b
    ensures Holds(PyBranch(b), Update(n, [], value)) && b.Repr == old(b.Repr)
    ensures w == b && Get(n, []) != value ==> !Holds(PyBranch(b), m)
    ensures Get(n, []) == value ==> b.slots == old(b.slots)
  {
    WatchBranch(b, n, w, m);
    assert OpenHolds(Seal);
    b.slots := b.slots[16 := Raw(Text(value))];
  }

  method UpdateSlot(db: Database, b: BranchList, key: Path, value: Bytes, ghost n: Node, ghost w: BranchList?, ghost m: Node)
    returns (db': Database)
    requires Wf(n) && n.Branch? && Holds(PyBranch(b), n) && Held(db, n) && ContentAddressed(db) && key != []
    requires Watched(w, m)
    modifies OnPath(PyBranch(b), key, n)
    ensures Holds(PyBranch(b), Update(n, key, value))
    ensures forall o :: o in b.Repr ==> o in old(b.Repr) || fresh(o)
    ensures Held(db', Update(n, key, value)) && db.Keys <= db'.Keys && ContentAddressed(db')
    ensures w in old(OnPath(PyBranch(b), key, n)) ==> forall o :: o in w.Repr ==> o in old(b.Repr) || fresh(o)
    ensures w in old(OnPath(PyBranch(b), key, n)) && Get(n, key) != value ==> !Holds(PyBranch(w), m)
    ensures Same(n, key, value) ==> forall o :: o in old(OnPath(PyBranch(b), key, n)) && old(allocated(o)) ==> o.slots == old(o.slots) && o.Repr == old(o.Repr)
    decreases n, 1
  {
    var i := key[0];
    ghost var kid := n.kids[i];
    ghost var kid' := Update(kid, key[1..], value);
    SlotApart(b, i, n);
    SlotOf(b, i, n);
    WatchBranch(b, n, w, m);
    assert OnPath(PyBranch(b), key, n) == {b} + PathBelow(b.slots[i], key[1..], kid);
    ghost var below := PathBelow(b.slots[i], key[1..], kid);
    var child', dbChild := UpdateBelow(db, b, key, value, n, w, m);
    var _, d := PutWatched(dbChild, b, i, child', n, kid', if w in below then w else null, m);
    db' := d;
    HeldReplaced(db, db', n, i, kid');
    WatchBranch(b, Update(n, key, value), w, n);
    GetUpdate(n, key, value, key);
    SlotSame(b, key, value, n, old(b.slots)[i]);
  }

  /** Writing a slot of one list does not change what another one holds. */
  method PutWatched(db: Database, b: BranchList, i: Nibble, p: PyNode, ghost n: Node, ghost kid: Node, ghost w: BranchList?, ghost m: Node)
    returns (changed: bool, db': Database)
    requires Wf(n) && n.Branch? && OthersHold(b, i, n)
    requires Wf(kid) && Holds(p, kid) && Held(db, kid) && ContentAddressed(db)
    requires b !in Foot(p) && OtherFeet(b, i) !! Foot(p)
    requires w != b && (w != null ==> b !in w.Repr) && Wf(m)
    modifies b
    ensures Holds(PyBranch(b), Branch(n.kids[i := kid], n.value))
    ensures RefHeld(db', kid) && db.Keys <= db'.Keys && ContentAddressed(db')
    ensures changed == (b.slots[i] != old(b.slots[i])) && (BlankSlot(b.slots[i]) <==> kid == Blank)
    ensures b.slots == old(b.slots)[i := b.slots[i]] && b.Repr == old(b.Repr) + (if b.slots[i].Raw? then {} else old(Foot(p)))
    ensures b.slots[i].Inline? ==> b.slots[i].list == p
    ensures w != null ==> w.Repr == old(w.Repr) && (Holds(PyBranch(w), m) ==> old(Holds(PyBranch(w), m)))
  {
    changed, db' := PutSlot(db, b, i, p, n, kid);
  }

  /** The child of a branch, before it goes back into its slot. */
  method UpdateBelow(db: Database, b: BranchList, key: Path, value: Bytes, ghost n: Node, ghost w: BranchList?, ghost m: Node)
    returns (r: PyNode, db': Database)
    requires Wf(n) && n.Branch? && Holds(PyBranch(b), n) && Held(db, n) && ContentAddressed(db) && key != []
    requires SlotHolds(b.slots[key[0]], n.kids[key[0]])
    requires Watched(w, m)
    modifies PathBelow(b.slots[key[0]], key[1..], n.kids[key[0]])
    ensures Holds(r, Update(n.kids[key[0]], key[1..], value))
    ensures Held(db', Update(n.kids[key[0]], key[1..], value)) && db.Keys <= db'.Keys && ContentAddressed(db')
    ensures OthersHold(b, key[0], n) && b.slots == old(b.slots) && b.Repr == old(b.Repr)
    ensures b !in Foot(r) && OtherFeet(b, key[0]) !! Foot(r) && forall o :: o in Foot(r) ==> o in old(b.Repr) || fresh(o)
    ensures w in old(PathBelow(b.slots[key[0]], key[1..], n.kids[key[0]])) ==>
              w != b && b !in w.Repr && forall o :: o in w.Repr ==> o in old(b.Repr) || fresh(o)
    ensures w in old(PathBelow(b.slots[key[0]], key[1..], n.kids[key[0]])) && Get(n, key) != value ==> !Holds(PyBranch(w), m)
    ensures Same(n, key, value) ==>
              && (b.slots[key[0]].Inline? ==> r == b.slots[key[0]].list && Foot(r) == old(FootOf(b.slots[key[0]])))
              && forall o :: o in old(PathBelow(b.slots[key[0]], key[1..], n.kids[key[0]])) && old(allocated(o)) ==> o.slots == old(o.slots) && o.Repr == old(o.Repr)
    decreases n, 0
  {
    var i := key[0];
    ghost var kid := n.kids[i];
    SlotApart(b, i, n);
    SlotOf(b, i, n);
    ghost var others := OtherFeet(b, i);
    var child := DecodeOnPath(db, b.slots[i], key[1..], kid);
    assert b !in Foot(child) && others !! Foot(child);
    r, db' := UpdateNode(db, child, key[1..], value, kid, w, m);
    ghost var still := OthersHold(b, i, n);
    assert still;
    assert OtherFeet(b, i) == others;
  }

  /** A watched branch list holds one tree. */
  lemma WatchBranch(b: BranchList, n: Node, w: BranchList?, m: Node)
    requires Wf(n) && n.Branch? && Holds(PyBranch(b), n)
    ensures w == b && Wf(m) && Holds(PyBranch(b), m) ==> m == n
  {
    if w == b && Wf(m) && Holds(PyBranch(b), m) { HoldsUnique(PyBranch(b), n, m); }
  }

  predicate BlankSlot(s: Slot) { s == Raw(BLANK_ITEM) }

  lemma BlankSlotMeansBlank(s: Slot, n: Node)
    requires Wf(n) && Shape(s, n)
    ensures BlankSlot(s) <==> n == Blank
  {
  }

  /** Encodes a changed child into its slot. */
  method PutSlot(db: Database, b: BranchList, i: Nibble, p: PyNode, ghost n: Node, ghost kid: Node)
    returns (changed: bool, db': Database)
    requires Wf(n) && n.Branch? && OthersHold(b, i, n)
    requires Wf(kid) && Holds(p, kid) && Held(db, kid) && ContentAddressed(db)
    requires b !in Foot(p) && OtherFeet(b, i) !! Foot(p)
    modifies b
    ensures Holds(PyBranch(b), Branch(n.kids[i := kid], n.value))
    ensures RefHeld(db', kid) && db.Keys <= db'.Keys && ContentAddressed(db')
    ensures changed == (b.slots[i] != old(b.slots[i])) && (BlankSlot(b.slots[i]) <==> kid == Blank)
    ensures b.slots == old(b.slots)[i := b.slots[i]] && b.Repr == old(b.Repr) + (if b.slots[i].Raw? then {} else old(Foot(p)))
    ensures b.slots[i].Inline? ==> b.slots[i].list == p
  {
    TopInFoot(p, kid);
    var (s, dbSlot) := EncodeNode(db, p, kid);
    db', changed := dbSlot, s != b.slots[i];
    BlankSlotMeansBlank(s, kid);
    ReplaceSlot(b, i, s, n, kid);
  }

  method ReplaceSlot(b: BranchList, i: Nibble, s: Slot, ghost n: Node, ghost kid: Node)
    requires Wf(n) && n.Branch? && OthersHold(b, i, n)
    requires Wf(kid) && SlotHolds(s, kid) && TopOf(s) <= FootOf(s)
    requires b !in FootOf(s) && OtherFeet(b, i) !! FootOf(s)
    modifies b
    ensures Holds(PyBranch(b), Branch(n.kids[i := kid], n.value))
    ensures b.Repr == old(b.Repr) + old(FootOf(s)) && b.slots == old(b.slots)[i := s]
  {
    ghost var before := b.slots;
    assert OpenHolds(Seal);
    assert forall j :: 0 <= j < 16 && j != i ==> FootOf(b.slots[j]) <= OtherFeet(b, i);
    b.slots := b.slots[i := s];
    b.Repr := b.Repr + FootOf(s);
    forall j | 0 <= j < 16 && j != i
      ensures FootOf(b.slots[j]) == old(FootOf(b.slots[j])) && SlotHolds(b.slots[j], n.kids[j])
    {
      assert b.slots[j] == before[j];
    }
    assert FootOf(b.slots[i]) == old(FootOf(s));
  }

  lemma HeldReplaced(db: Database, db': Database, n: Node, i: Nibble, kid: Node)
    requires Wf(n) && n.Branch? && Wf(kid) && Held(db, n) && db.Keys <= db'.Keys && RefHeld(db', kid)
    ensures Held(db', Branch(n.kids[i := kid], n.value))
  {
    HeldGrows(db, db', n);
  }

  method UpdateKvNode(db: Database, p: PyNode, key: Path, value: Bytes, prefixLength: nat, ghost n: Node,
                      ghost w: BranchList?, ghost m: Node)
    returns (r: PyNode, db': Database)
    requires Wf(n) && (n.Leaf? || n.Extension?) && Holds(p, n) && Held(db, n) && ContentAddressed(db)
    requires prefixLength == CommonLength(n.key, key)
    requires Watched(w, m)
    modifies OnPath(p, key, n)
    ensures Holds(r, UpdateKv(n, key, value))
    ensures forall b :: b in Foot(r) ==> b in old(Foot(p)) || fresh(b)
    ensures Held(db', UpdateKv(n, key, value)) && db.Keys <= db'.Keys && ContentAddressed(db')
    ensures w in old(OnPath(p, key, n)) ==> forall b :: b in w.Repr ==> b in old(Foot(p)) || fresh(b)
    ensures w in old(OnPath(p, key, n)) && Get(n, key) != value ==> !Holds(PyBranch(w), m)
    ensures Same(n, key, value) ==> r == p && Foot(r) == old(Foot(p)) && forall b :: b in old(OnPath(p, key, n)) && old(allocated(b)) ==> b.slots == old(b.slots) && b.Repr == old(b.Repr)
    decreases n, 1
  {
    if p.terminated && key == p.path {
      return PyKv(p.path, true, Raw(Text(value))), db;
    }
    if !p.terminated && prefixLength == |p.path| {
      r, db' := UpdateExtension(db, p, key, value, n, w, m);
    } else {
      r, db' := ForkKv(db, p, key, value, prefixLength, n);
      assert !(p.path <= key) || p.terminated;
    }
  }

  /** An extension whose whole key is a prefix of the updated one. */
  method UpdateExtension(db: Database, p: PyNode, key: Path, value: Bytes, ghost n: Node, ghost w: BranchList?, ghost m: Node)
    returns (r: PyNode, db': Database)
    requires Wf(n) && n.Extension? && Holds(p, n) && Held(db, n) && ContentAddressed(db)
    requires p.path <= key && CommonLength(p.path, key) == |p.path|
    requires Watched(w, m)
    modifies OnPath(p, key, n)
    ensures Holds(r, UpdateKv(n, key, value))
    ensures forall b :: b in Foot(r) ==> b in old(Foot(p)) || fresh(b)
    ensures Held(db', UpdateKv(n, key, value)) && db.Keys <= db'.Keys && ContentAddressed(db')
    ensures w in old(OnPath(p, key, n)) ==> forall b :: b in w.Repr ==> b in old(Foot(p)) || fresh(b)
    ensures w in old(OnPath(p, key, n)) && Get(n, key) != value ==> !Holds(PyBranch(w), m)
    ensures Same(n, key, value) ==> r == p && Foot(r) == old(Foot(p))
    ensures Same(n, key, value) ==> forall b :: b in old(OnPath(p, key, n)) && old(allocated(b)) ==> b.slots == old(b.slots) && b.Repr == old(b.Repr)
    decreases n, 0, 1
  {
    var child, dbChild := UpdateChild(db, p, key, value, n, w, m);
    if Same(n, key, value) { KvSame(n, key, value); }
    var (below, dbBelow) := BelowPrefix(dbChild, p.path, child, Update(n.child, key[|p.path|..], value));
    r, db' := below, dbBelow;
  }

  /** A key-value node whose key parts from the updated one, or ends before it at a leaf. */
  method ForkKv(db: Database, p: PyNode, key: Path, value: Bytes, prefixLength: nat, ghost n: Node)
    returns (r: PyNode, db': Database)
    requires Wf(n) && (n.Leaf? || n.Extension?) && Holds(p, n) && Held(db, n) && ContentAddressed(db)
    requires prefixLength == CommonLength(n.key, key) && (n.Leaf? ==> key != n.key) && (n.Extension? ==> prefixLength < |n.key|)
    ensures Holds(r, UpdateKv(n, key, value))
    ensures forall b :: b in Foot(r) ==> b in old(Foot(p)) || fresh(b)
    ensures Held(db', UpdateKv(n, key, value)) && db.Keys <= db'.Keys && ContentAddressed(db')
  {
    var remainKey, rest := key[prefixLength..], p.path[prefixLength..];
    assert key == key[..prefixLength] + remainKey && p.path == p.path[..prefixLength] + rest;
    var fork, dbFork := ForkNode(db, p, rest, remainKey, value, n);
    var (below, dbBelow) := BelowPrefix(dbFork, p.path[..prefixLength], fork, Fork(n, rest, remainKey, value));
    r, db' := below, dbBelow;
  }

  /** The child of an extension whose whole key is a prefix of the updated one. */
  method UpdateChild(db: Database, p: PyNode, key: Path, value: Bytes, ghost n: Node, ghost w: BranchList?, ghost m: Node)
    returns (r: PyNode, db': Database)
    requires Wf(n) && n.Extension? && Holds(p, n) && Held(db, n) && ContentAddressed(db) && p.path <= key
    requires Watched(w, m)
    modifies OnPath(p, key, n)
    ensures Holds(r, Update(n.child, key[|p.path|..], value))
    ensures forall b :: b in Foot(r) ==> b in old(Foot(p)) || fresh(b)
    ensures Held(db', Update(n.child, key[|p.path|..], value)) && db.Keys <= db'.Keys && ContentAddressed(db')
    ensures w in old(OnPath(p, key, n)) ==> forall b :: b in w.Repr ==> b in old(Foot(p)) || fresh(b)
    ensures w in old(OnPath(p, key, n)) && Get(n, key) != value ==> !Holds(PyBranch(w), m)
    ensures Same(n, key, value) ==>
              && (p.slot.Inline? ==> r == p.slot.list && Foot(r) == old(FootOf(p.slot)))
              && forall b :: b in old(OnPath(p, key, n)) && old(allocated(b)) ==> b.slots == old(b.slots) && b.Repr == old(b.Repr)
    decreases n, 0, 0
  {
    var rest := key[|p.path|..];
    assert OnPath(p, key, n) == PathBelow(p.slot, rest, n.child) && Get(n, key) == Get(n.child, rest);
    var child := DecodeOnPath(db, p.slot, rest, n.child);
    r, db' := UpdateNode(db, child, rest, value, n.child, w, m);
  }

  /** Puts a common prefix, if there is one, in front of a new node. */
  function BelowPrefix(db: Database, prefix: Path, p: PyNode, ghost n: Node): (r: (PyNode, Database))
    requires Wf(n) && Holds(p, n) && Held(db, n) && ContentAddressed(db)
    reads Top(p), Foot(p)
    ensures var t := if prefix == [] then n else Extension(prefix, n);
      && Top(r.0) <= Top(p) && Foot(r.0) <= Foot(p) && Holds(r.0, t)
      && Held(r.1, t) && db.Keys <= r.1.Keys && ContentAddressed(r.1)
      && (prefix != [] ==> r.0.PyKv? && (r.0.slot.Inline? ==> r.0.slot.list == p))
  {
    if prefix == [] then (p, db)
    else
      var (s, dbSlot) := EncodeNode(db, p, n);
      (PyKv(prefix, false, s), dbSlot)
  }

  /** The new branch list where a key-value node and a new key part. */
  method ForkNode(db: Database, p: PyNode, rest: Path, remainKey: Path, value: Bytes, ghost n: Node)
    returns (r: PyNode, db': Database)
    requires Wf(n) && (n.Leaf? || n.Extension?) && Holds(p, n) && Held(db, n) && ContentAddressed(db)
    requires rest == [] ==> n.Leaf? && remainKey != []
    requires rest != [] && remainKey != [] ==> rest[0] != remainKey[0]
    ensures Holds(r, Fork(n, rest, remainKey, value))
    ensures forall b :: b in Foot(r) ==> b in old(Foot(p)) || fresh(b)
    ensures Held(db', Fork(n, rest, remainKey, value)) && db.Keys <= db'.Keys && ContentAddressed(db')
  {
    TopInFoot(p, n);
    FootAllocated(p);
    ghost var below := Foot(p);
    var slots;
    slots, db' := ForkSlots(db, p, rest, remainKey, value, n);
    assert Foot(p) == below;
    r := NewBranch(slots, Fork(n, rest, remainKey, value), below);
  }

  method ForkSlots(db: Database, p: PyNode, rest: Path, remainKey: Path, value: Bytes, ghost n: Node)
    returns (slots: seq<Slot>, db': Database)
    requires Wf(n) && (n.Leaf? || n.Extension?) && Holds(p, n) && Held(db, n) && ContentAddressed(db) && Top(p) <= Foot(p)
    requires rest == [] ==> n.Leaf? && remainKey != []
    requires rest != [] && remainKey != [] ==> rest[0] != remainKey[0]
    ensures var t := Fork(n, rest, remainKey, value);
      && |slots| == 17 && slots[16] == Raw(Text(t.value)) && Held(db', t) && db.Keys <= db'.Keys && ContentAddressed(db')
      && forall i :: 0 <= i < 16 ==> SlotHolds(slots[i], t.kids[i]) && FootOf(slots[i]) <= Foot(p) && TopOf(slots[i]) <= Foot(p)
    ensures forall i, j :: 0 <= i < j < 16 ==> FootOf(slots[i]) !! FootOf(slots[j])
  {
    slots := seq(17, _ => Raw(BLANK_ITEM));
    db' := db;
    if rest == [] {
      slots := slots[16 := p.slot];
    } else {
      var (s, dbSlot) := ShortenedSlot(db, p, rest, n);
      slots, db' := slots[rest[0] := s], dbSlot;
    }
    if remainKey == [] {
      slots := slots[16 := Raw(Text(value))];
    } else {
      var (s, dbSlot) := EncodeNode(db', PyKv(remainKey[1..], true, Raw(Text(value))), Leaf(remainKey[1..], value));
      slots := slots[remainKey[0] := s];
      if rest != [] { HeldGrows(db', dbSlot, Shortened(n, rest)); }
      db' := dbSlot;
    }
  }

  /** The slot for what remains of a key-value node: an extension used up hands over its child as it is. */
  function ShortenedSlot(db: Database, p: PyNode, rest: Path, ghost n: Node): (r: (Slot, Database))
    requires Wf(n) && (n.Leaf? || n.Extension?) && Holds(p, n) && Held(db, n) && ContentAddressed(db) && rest != []
    reads Top(p), Foot(p)
    ensures SlotHolds(r.0, Shortened(n, rest)) && FootOf(r.0) <= Foot(p) && TopOf(r.0) <= Top(p)
    ensures RefHeld(r.1, Shortened(n, rest)) && db.Keys <= r.1.Keys && ContentAddressed(r.1)
  {
    if |rest| == 1 && !p.terminated then (p.slot, db)
    else EncodeNode(db, PyKv(rest[1..], p.terminated, p.slot), Shortened(n, rest))
  }

  // ----- Delete -----

  /** The count of used entries of a branch list, and the first of them. */
  method CountItems(b: BranchList, ghost n: Node) returns (count: nat, first: nat)
    requires Wf(n) && n.Branch? && Holds(PyBranch(b), n)
    ensures count == ItemCount(n.kids, n.value)
    ensures first <= 17 && (count > 0 ==> first < 17)
    ensures forall j :: 0 <= j < first && j < 16 ==> n.kids[j] == Blank
    ensures first < 16 ==> n.kids[first] != Blank
    ensures first == 16 ==> n.value != BLANK_VALUE
  {
    count, first := 0, 17;
    for i := 0 to 16
      invariant count == Occupied(n.kids[..i])
      invariant count == 0 ==> first == 17
      invariant count > 0 ==> first < i && n.kids[first] != Blank
      invariant forall j :: 0 <= j < first && j < i ==> n.kids[j] == Blank
    {
      SlotOf(b, i, n);
      BlankSlotMeansBlank(b.slots[i], n.kids[i]);
      assert n.kids[..i + 1][..i] == n.kids[..i];
      if !BlankSlot(b.slots[i]) {
        if count == 0 { first := i; }
        count := count + 1;
      }
    }
    assert n.kids[..16] == n.kids;
    if !BlankSlot(b.slots[16]) {
      if count == 0 { first := 16; }
      count := count + 1;
    }
  }

  /** `_normalize_branch_node`. */
  method NormalizeBranchNode(db: Database, b: BranchList, ghost n: Node) returns (r: PyNode, db': Database)
    requires Wf(n) && n.Branch? && Holds(PyBranch(b), n) && Held(db, n) && ContentAddressed(db)
    requires ItemCount(n.kids, n.value) >= 1
    ensures Wf(Normalize(n)) && Holds(r, Normalize(n))
    ensures forall o :: o in Foot(r) ==> o in old(b.Repr) || fresh(o)
    ensures Held(db', Normalize(n)) && db.Keys <= db'.Keys && ContentAddressed(db')
    ensures r.PyBranch? ==> r.branch == b
    ensures ItemCount(n.kids, n.value) > 1 ==> r == PyBranch(b)
  {
    GetNormalize(n.kids, n.value, []);
    NoneUsed(n.kids);
    var count, first := CountItems(b, n);
    assert Holds(PyBranch(b), n) && b.Repr == old(b.Repr);
    if count > 1 { return PyBranch(b), db; }
    if first == 16 {
      return PyKv([], true, b.slots[16]), db;
    }
    assert first == FirstUsed(n.kids);
    SlotOf(b, first, n);
    var sub := DecodeToNode(db, b.slots[first], n.kids[first]);
    var (prefixed, dbSub) := PrependNode(db, [first], sub, n.kids[first]);
    r, db' := prefixed, dbSub;
  }

  /** Normalising changes no list in memory. */
  method NormalizeWatched(db: Database, b: BranchList, ghost n: Node, ghost w: BranchList?, ghost m: Node) returns (r: PyNode, db': Database)
    requires Wf(n) && n.Branch? && Holds(PyBranch(b), n) && Held(db, n) && ContentAddressed(db)
    requires ItemCount(n.kids, n.value) >= 1 && Wf(m)
    ensures Wf(Normalize(n)) && Holds(r, Normalize(n))
    ensures forall o :: o in Foot(r) ==> o in old(b.Repr) || fresh(o)
    ensures Held(db', Normalize(n)) && db.Keys <= db'.Keys && ContentAddressed(db')
    ensures w != null && Holds(PyBranch(w), m) ==> old(Holds(PyBranch(w), m))
  {
    r, db' := NormalizeBranchNode(db, b, n);
  }

  /** A key in front of a node: merged into a key-value list, or as a new list over a branch. */
  function PrependNode(db: Database, key: Path, p: PyNode, ghost n: Node): (r: (PyNode, Database))
    requires Wf(n) && n != Blank && Holds(p, n) && Held(db, n) && ContentAddressed(db)
    reads Top(p), Foot(p)
    ensures Wf(Prepend(key, n)) && r.0.PyKv? && Top(r.0) <= Top(p) && Foot(r.0) <= Foot(p) && Holds(r.0, Prepend(key, n))
    ensures Held(r.1, Prepend(key, n)) && db.Keys <= r.1.Keys && ContentAddressed(r.1)
  {
    if p.PyKv? then (PyKv(key + p.path, p.terminated, p.slot), db)
    else
      var (s, dbSlot) := EncodeNode(db, p, n);
      (PyKv(key, false, s), dbSlot)
  }

  /** `_delete`, in place along the path of the key. If the key was there, a list w on the path that held
      m holds it no more. */
  method DeleteNode(db: Database, p: PyNode, key: Path, ghost n: Node, ghost w: BranchList?, ghost m: Node)
    returns (r: PyNode, db': Database)
    requires Canonical(n) && Holds(p, n) && Held(db, n) && ContentAddressed(db) && Watched(w, m)
    modifies OnPath(p, key, n)
    ensures Holds(r, Delete(n, key))
    ensures forall b :: b in Foot(r) ==> b in old(Foot(p)) || fresh(b)
    ensures Held(db', Delete(n, key)) && db.Keys <= db'.Keys && ContentAddressed(db')
    ensures w in old(OnPath(p, key, n)) ==> forall b :: b in w.Repr ==> b in old(Foot(p)) || fresh(b)
    ensures w in old(OnPath(p, key, n)) && Get(n, key) != BLANK_VALUE ==> !Holds(PyBranch(w), m)
    ensures Get(n, key) == BLANK_VALUE ==> r == p && Foot(r) == old(Foot(p)) && forall o :: o in old(OnPath(p, key, n)) && old(allocated(o)) ==> o.slots == old(o.slots) && o.Repr == old(o.Repr)
    decreases n, 2
  {
    match p
    case PyBlank => r, db' := PyBlank, db;
    case PyBranch(b) =>
      if key == [] {
        r, db' := DeleteHere(db, b, n, w, m);
      } else {
        r, db' := DeleteBelow(db, b, key, n, w, m);
      }
    case PyKv(_, _, _) => r, db' := DeleteFromKv(db, p, key, n, w, m);
  }

  /** The value of a branch. */
  method DeleteHere(db: Database, b: BranchList, ghost n: Node, ghost w: BranchList?, ghost m: Node) returns (r: PyNode, db': Database)
    requires Canonical(n) && n.Branch? && Holds(PyBranch(b), n) && Held(db, n) && ContentAddressed(db) && Watched(w, m)
    modifies b
    ensures Holds(r, Delete(n, [])) && b.Repr == old(b.Repr)
    ensures forall o :: o in Foot(r) ==> o in old(b.Repr) || fresh(o)
    ensures Held(db', Delete(n, [])) && db.Keys <= db'.Keys && ContentAddressed(db')
    ensures w == b && Get(n, []) != BLANK_VALUE ==> !Holds(PyBranch(b), m)
    ensures Get(n, []) == BLANK_VALUE ==> r == PyBranch(b) && b.slots == old(b.slots)
  {
    ghost var t := Branch(n.kids, BLANK_VALUE);
    ClearValue(b, n, w, m);
    r, db' := NormalizeBranchNode(db, b, t);
  }

  method ClearValue(b: BranchList, ghost n: Node, ghost w: BranchList?, ghost m: Node)
    requires Wf(n) && n.Branch? && Holds(PyBranch(b), n) && Watched(w, m)
    modifies b
    ensures Holds(PyBranch(b), Branch(n.kids, BLANK_VALUE)) && b.Repr == old(b.Repr)
    ensures w == b && n.value != BLANK_VALUE ==> !Holds(PyBranch(b), m)
    ensures n.value == BLANK_VALUE ==> b.slots == old(b.slots)
  {
    WatchBranch(b, n, w, m);
    assert OpenHolds(Seal);
    b.slots := b.slots[16 := Raw(BLANK_ITEM)];
  }

  method DeleteBelow(db: Database, b: BranchList, key: Path, ghost n: Node, ghost w: BranchList?, ghost m: Node)
    returns (r: PyNode, db': Database)
    requires Canonical(n) && n.Branch? && Holds(PyBranch(b), n) && Held(db, n) && ContentAddressed(db) && key != [] && Watched(w, m)
    modifies OnPath(PyBranch(b), key, n)
    ensures Holds(r, Delete(n, key))
    ensures forall o :: o in Foot(r) ==> o in old(b.Repr) || fresh(o)
    ensures Held(db', Delete(n, key)) && db.Keys <= db'.Keys && ContentAddressed(db')
    ensures w in old(OnPath(PyBranch(b), key, n)) ==> forall o :: o in w.Repr ==> o in old(b.Repr) || fresh(o)
    ensures w in old(OnPath(PyBranch(b), key, n)) && Get(n, key) != BLANK_VALUE ==> !Holds(PyBranch(w), m)
    ensures Get(n, key) == BLANK_VALUE ==> r == PyBranch(b) && forall o :: o in old(OnPath(PyBranch(b), key, n)) && old(allocated(o)) ==> o.slots == old(o.slots) && o.Repr == old(o.Repr)
    decreases n, 1
  {
    ghost var kid := Delete(n.kids[key[0]], key[1..]);
    DeleteBelowCases(n, key);
    SlotOf(b, key[0], n);
    var gone;
    gone, db' := DeleteSlot(db, b, key, n, kid, w, m);
    r := PyBranch(b);
    if gone {
      r, db' := NormalizeWatched(db', b, Branch(n.kids[key[0] := kid], n.value), w, m);
    }
  }

  lemma DeleteBelowCases(n: Node, key: Path)
    requires Canonical(n) && n.Branch? && key != []
    ensures var kid := Delete(n.kids[key[0]], key[1..]); var t := Branch(n.kids[key[0] := kid], n.value);
      if kid == Blank && n.kids[key[0]] != Blank then ItemCount(t.kids, t.value) >= 1 && Delete(n, key) == Normalize(t)
      else Delete(n, key) == t
    ensures Get(n, key) == BLANK_VALUE ==> Delete(n.kids[key[0]], key[1..]) == n.kids[key[0]]
  {
    if Get(n, key) == BLANK_VALUE { DeleteAbsent(n.kids[key[0]], key[1..]); }
    var kid := Delete(n.kids[key[0]], key[1..]);
    OccupiedUpdate(n.kids, key[0], kid);
    if kid == n.kids[key[0]] { assert n.kids[key[0] := kid] == n.kids; }
  }

  lemma {:induction false} DeleteAbsent(n: Node, key: Path)
    requires Canonical(n) && Get(n, key) == BLANK_VALUE
    ensures Delete(n, key) == n
    decreases n
  {
    match n
    case Blank =>
    case Leaf(_, _) =>
    case Extension(k, c) => if k <= key { DeleteAbsent(c, key[|k|..]); }
    case Branch(kids, _) => if key != [] { DeleteAbsent(kids[key[0]], key[1..]); }
  }

  /** A branch below which a key was deleted does not hold what it held. */
  lemma PresentSlot(b: BranchList, key: Path, n: Node, kid: Node)
    requires Wf(n) && n.Branch? && key != [] && Canonical(n.kids[key[0]]) && kid == Delete(n.kids[key[0]], key[1..])
    requires Holds(PyBranch(b), Branch(n.kids[key[0] := kid], n.value))
    ensures Get(n, key) != BLANK_VALUE ==> !Holds(PyBranch(b), n)
  {
    GetDelete(n.kids[key[0]], key[1..], key[1..]);
    if Holds(PyBranch(b), n) { HoldsUnique(PyBranch(b), Branch(n.kids[key[0] := kid], n.value), n); }
  }

  /** The slot of an absent key is what it was. */
  lemma AbsentSlot(b: BranchList, key: Path, n: Node, kid: Node, s: Slot)
    requires Wf(n) && n.Branch? && key != [] && Canonical(n.kids[key[0]]) && kid == Delete(n.kids[key[0]], key[1..])
    requires Holds(PyBranch(b), Branch(n.kids[key[0] := kid], n.value)) && Shape(s, n.kids[key[0]])
    ensures Get(n, key) == BLANK_VALUE && (s.Inline? && b.slots[key[0]].Inline? ==> b.slots[key[0]].list == s.list) ==>
              b.slots[key[0]] == s
  {
    if Get(n, key) == BLANK_VALUE {
      DeleteAbsent(n.kids[key[0]], key[1..]);
      SlotOf(b, key[0], Branch(n.kids[key[0] := kid], n.value));
    }
  }

  /** Deletes below one slot, and tells whether the slot has become blank. An entry that compares equal is
      left as it is, which also is what writing it again does; an inlined child that was changed in place
      compares equal. */
  method DeleteSlot(db: Database, b: BranchList, key: Path, ghost n: Node, ghost kid: Node, ghost w: BranchList?, ghost m: Node)
    returns (gone: bool, db': Database)
    requires Wf(n) && n.Branch? && Holds(PyBranch(b), n) && Held(db, n) && ContentAddressed(db)
    requires key != [] && SlotHolds(b.slots[key[0]], n.kids[key[0]]) && Canonical(n.kids[key[0]]) && kid == Delete(n.kids[key[0]], key[1..]) && Watched(w, m)
    modifies OnPath(PyBranch(b), key, n)
    ensures Holds(PyBranch(b), Branch(n.kids[key[0] := kid], n.value))
    ensures Held(db', Branch(n.kids[key[0] := kid], n.value)) && db.Keys <= db'.Keys && ContentAddressed(db')
    ensures gone <==> kid == Blank && n.kids[key[0]] != Blank
    ensures forall o :: o in b.Repr ==> o in old(b.Repr) || fresh(o)
    ensures w in old(OnPath(PyBranch(b), key, n)) ==> forall o :: o in w.Repr ==> o in old(b.Repr) || fresh(o)
    ensures w in old(OnPath(PyBranch(b), key, n)) && Get(n, key) != BLANK_VALUE ==> !Holds(PyBranch(w), m)
    ensures Get(n, key) == BLANK_VALUE ==>
              && b.slots == old(b.slots) && b.Repr == old(b.Repr)
              && forall o :: o in old(PathBelow(b.slots[key[0]], key[1..], n.kids[key[0]])) && old(allocated(o)) ==> o.slots == old(o.slots) && o.Repr == old(o.Repr)
    decreases n, 0, 1
  {
    var i := key[0];
    SlotOf(b, i, n);
    WatchBranch(b, n, w, m);
    ghost var below := PathBelow(b.slots[i], key[1..], n.kids[i]);
    assert OnPath(PyBranch(b), key, n) == {b} + below;
    var child', dbChild := DeleteChild(db, b, key, n, w, m);
    gone, db' := PutDeleted(dbChild, b, key, child', n, kid, if w in below then w else null, m);
    HeldReplaced(db, db', n, i, kid);
  }

  /** Writes the slot of the deleted key. */
  method PutDeleted(db: Database, b: BranchList, key: Path, p: PyNode, ghost n: Node, ghost kid: Node, ghost w: BranchList?, ghost m: Node)
    returns (gone: bool, db': Database)
    requires Wf(n) && n.Branch? && key != [] && OthersHold(b, key[0], n) && Shape(b.slots[key[0]], n.kids[key[0]])
    requires Canonical(n.kids[key[0]]) && kid == Delete(n.kids[key[0]], key[1..])
    requires Holds(p, kid) && Held(db, kid) && ContentAddressed(db)
    requires b !in Foot(p) && OtherFeet(b, key[0]) !! Foot(p)
    requires w != b && (w != null ==> b !in w.Repr) && Wf(m)
    modifies b
    ensures Holds(PyBranch(b), Branch(n.kids[key[0] := kid], n.value))
    ensures RefHeld(db', kid) && db.Keys <= db'.Keys && ContentAddressed(db')
    ensures gone <==> kid == Blank && n.kids[key[0]] != Blank
    ensures b.Repr <= old(b.Repr) + old(Foot(p))
    ensures Get(n, key) != BLANK_VALUE ==> !Holds(PyBranch(b), n)
    ensures Get(n, key) == BLANK_VALUE && old(b.slots[key[0]].Inline? ==> p == b.slots[key[0]].list && Foot(p) <= b.Repr) ==>
              b.slots == old(b.slots) && b.Repr == old(b.Repr)
    ensures w != null ==> w.Repr == old(w.Repr) && (Holds(PyBranch(w), m) ==> old(Holds(PyBranch(w), m)))
  {
    BlankSlotMeansBlank(b.slots[key[0]], n.kids[key[0]]);
    var changed;
    changed, db' := PutWatched(db, b, key[0], p, n, kid, w, m);
    gone := changed && BlankSlot(b.slots[key[0]]);
    PresentSlot(b, key, n, kid);
    AbsentSlot(b, key, n, kid, old(b.slots)[key[0]]);
  }

  /** The child of a branch, before it goes back into its slot. */
  method DeleteChild(db: Database, b: BranchList, key: Path, ghost n: Node, ghost w: BranchList?, ghost m: Node)
    returns (r: PyNode, db': Database)
    requires Wf(n) && n.Branch? && Holds(PyBranch(b), n) && Held(db, n) && ContentAddressed(db) && key != []
    requires SlotHolds(b.slots[key[0]], n.kids[key[0]]) && Canonical(n.kids[key[0]]) && Watched(w, m)
    modifies PathBelow(b.slots[key[0]], key[1..], n.kids[key[0]])
    ensures Holds(r, Delete(n.kids[key[0]], key[1..]))
    ensures Held(db', Delete(n.kids[key[0]], key[1..])) && db.Keys <= db'.Keys && ContentAddressed(db')
    ensures OthersHold(b, key[0], n) && b.slots == old(b.slots) && b.Repr == old(b.Repr)
    ensures b !in Foot(r) && OtherFeet(b, key[0]) !! Foot(r) && forall o :: o in Foot(r) ==> o in old(b.Repr) || fresh(o)
    ensures w in old(PathBelow(b.slots[key[0]], key[1..], n.kids[key[0]])) ==>
              w != b && b !in w.Repr && forall o :: o in w.Repr ==> o in old(b.Repr) || fresh(o)
    ensures w in old(PathBelow(b.slots[key[0]], key[1..], n.kids[key[0]])) && Get(n, key) != BLANK_VALUE ==> !Holds(PyBranch(w), m)
    ensures Get(n, key) == BLANK_VALUE ==>
              && (b.slots[key[0]].Inline? ==> r == b.slots[key[0]].list && Foot(r) == old(FootOf(b.slots[key[0]])))
              && forall o :: o in old(PathBelow(b.slots[key[0]], key[1..], n.kids[key[0]])) && old(allocated(o)) ==> o.slots == old(o.slots) && o.Repr == old(o.Repr)
    decreases n, 0, 0
  {
    var i := key[0];
    ghost var kid := n.kids[i];
    SlotApart(b, i, n);
    SlotOf(b, i, n);
    ghost var others := OtherFeet(b, i);
    var child := DecodeOnPath(db, b.slots[i], key[1..], kid);
    assert b !in Foot(child) && others !! Foot(child);
    r, db' := DeleteNode(db, child, key[1..], kid, w, m);
    ghost var still := OthersHold(b, i, n);
    assert still;
    assert OtherFeet(b, i) == others;
  }

  method DeleteFromKv(db: Database, p: PyNode, key: Path, ghost n: Node, ghost w: BranchList?, ghost m: Node)
    returns (r: PyNode, db': Database)
    requires Canonical(n) && (n.Leaf? || n.Extension?) && Holds(p, n) && Held(db, n) && ContentAddressed(db) && Watched(w, m)
    modifies OnPath(p, key, n)
    ensures Holds(r, Delete(n, key))
    ensures forall b :: b in Foot(r) ==> b in old(Foot(p)) || fresh(b)
    ensures Held(db', Delete(n, key)) && db.Keys <= db'.Keys && ContentAddressed(db')
    ensures w in old(OnPath(p, key, n)) ==> forall b :: b in w.Repr ==> b in old(Foot(p)) || fresh(b)
    ensures w in old(OnPath(p, key, n)) && Get(n, key) != BLANK_VALUE ==> !Holds(PyBranch(w), m)
    ensures Get(n, key) == BLANK_VALUE ==> r == p && Foot(r) == old(Foot(p)) && forall o :: o in old(OnPath(p, key, n)) && old(allocated(o)) ==> o.slots == old(o.slots) && o.Repr == old(o.Repr)
    decreases n, 1
  {
    r, db' := p, db;
    if !(p.path <= key) { return; }
    if p.terminated {
      if key == p.path { r := PyBlank; }
      return;
    }
    ghost var c := Delete(n.child, key[|p.path|..]);
    var child', dbChild := DeleteInChild(db, p, key, n, w, m);
    if Get(n, key) == BLANK_VALUE { DeleteAbsent(n.child, key[|p.path|..]); }
    var (s, dbSlot) := EncodeNode(dbChild, child', c);
    db' := dbSlot;
    if s == p.slot {
      r := PyKv(p.path, false, s);
    } else {
      var (prefixed, dbPrefixed) := PrependNode(dbChild, p.path, child', c);
      r, db' := prefixed, dbPrefixed;
    }
  }

  method DeleteInChild(db: Database, p: PyNode, key: Path, ghost n: Node, ghost w: BranchList?, ghost m: Node)
    returns (r: PyNode, db': Database)
    requires Canonical(n) && n.Extension? && Holds(p, n) && Held(db, n) && ContentAddressed(db) && p.path <= key && Watched(w, m)
    modifies OnPath(p, key, n)
    ensures Holds(r, Delete(n.child, key[|p.path|..]))
    ensures forall b :: b in Foot(r) ==> b in old(Foot(p)) || fresh(b)
    ensures Held(db', Delete(n.child, key[|p.path|..])) && db.Keys <= db'.Keys && ContentAddressed(db')
    ensures w in old(OnPath(p, key, n)) ==> forall b :: b in w.Repr ==> b in old(Foot(p)) || fresh(b)
    ensures w in old(OnPath(p, key, n)) && Get(n, key) != BLANK_VALUE ==> !Holds(PyBranch(w), m)
    ensures Get(n, key) == BLANK_VALUE ==>
              && (p.slot.Inline? ==> r == p.slot.list && Foot(r) == old(FootOf(p.slot)))
              && forall o :: o in old(OnPath(p, key, n)) && old(allocated(o)) ==> o.slots == old(o.slots) && o.Repr == old(o.Repr)
    decreases n, 0
  {
    var rest := key[|p.path|..];
    assert OnPath(p, key, n) == PathBelow(p.slot, rest, n.child) && Get(n, key) == Get(n.child, rest);
    var child := DecodeOnPath(db, p.slot, rest, n.child);
    r, db' := DeleteNode(db, child, rest, n.child, w, m);
  }

  // ----- The trie object -----

  lemma PutPublishes(d: Database, n: Node)
    requires Wf(n) && ContentAddressed(d) && Held(d, n)
    ensures var d' := d[RootHash(n) := NodeItem(n)]; ContentAddressed(d') && Published(d', n) && d.Keys <= d'.Keys
  {
    HeldGrows(d, d[RootHash(n) := NodeItem(n)], n);
  }

  class PersistentTrie {
    var db: Database
    var root: PyNode
    var rootHash: Digest
    /** The tree that the lists and the database represent. */
    ghost var tree: Node

    ghost predicate Valid()
      reads this, Top(root), Foot(root)
    {
      && Canonical(tree) && Holds(root, tree) && ContentAddressed(db) && Published(db, tree)
      && rootHash == RootHash(tree)
    }

    /** The lists and the database represent the tree, whatever the root hash says. */
    ghost predicate Loaded()
      reads this, Top(root), Foot(root)
    {
      Canonical(tree) && Holds(root, tree) && ContentAddressed(db) && Held(db, tree)
    }

    constructor ()
      ensures Valid() && tree == Blank && db == map[] && fresh(Foot(root))
    {
      db, root, tree := map[], PyBlank, Blank;
      rootHash := RootHash(Blank);
    }

    /** A blank trie over what a store holds. */
    constructor Over(d: Database)
      requires ContentAddressed(d)
      ensures Valid() && tree == Blank && db == d && fresh(Foot(root))
    {
      db, root, tree := d, PyBlank, Blank;
      rootHash := RootHash(Blank);
    }

    /** What `split` makes: a root node, and the root hash of the blank trie until the first change. */
    constructor Part(d: Database, root: PyNode, ghost tree: Node)
      requires Canonical(tree) && Holds(root, tree) && ContentAddressed(d) && Held(d, tree)
      ensures Loaded() && this.tree == tree && db == d && this.root == root && rootHash == RootHash(Blank)
    {
      db, this.root, this.tree := d, root, tree;
      rootHash := RootHash(Blank);
    }

    method Get(key: Path) returns (value: Bytes)
      requires Loaded()
      ensures value == Trie.Get(tree, key)
    {
      value := GetNode(db, root, key, tree);
    }

    /** Installs a new root node; `_update_root_hash` stores it under its hash whatever its length. */
    method SetRootNode(r: PyNode, d: Database, ghost n: Node, ghost w: BranchList?, ghost m: Node)
      requires Canonical(n) && Holds(r, n) && ContentAddressed(d) && Held(d, n) && Wf(m)
      modifies this
      ensures Valid() && tree == n && root == r && Foot(r) == old(Foot(r)) && d.Keys <= db.Keys
      ensures w != null && Holds(PyBranch(w), m) ==> old(Holds(PyBranch(w), m))
    {
      FootAllocated(r);
      PutPublishes(d, n);
      var e := Freeze(r, n);
      Assign(r, Sha3(e), d[Sha3(e) := e], n);
      ghost var kept := Holds(r, n);
      assert kept;
    }

    method Assign(r: PyNode, h: Digest, d: Database, ghost n: Node)
      modifies this
      ensures root == r && rootHash == h && db == d && tree == n
    {
      root, rootHash, db, tree := r, h, d, n;
    }

    method Update(key: Path, value: Bytes)
      requires Loaded() && value != BLANK_VALUE
      modifies this, Foot(root)
      ensures Valid() && tree == Trie.Update(old(tree), key, value)
      ensures forall b :: b in Foot(root) ==> b in old(Foot(root)) || fresh(b)
      ensures old(db).Keys <= db.Keys
      ensures forall n :: Wf(n) && Published(old(db), n) ==> Published(db, n)
    {
      OnPathInFoot(root, key, tree);
      UpdateWatched(key, value, null, Blank);
    }

    method UpdateWatched(key: Path, value: Bytes, ghost w: BranchList?, ghost m: Node)
      requires Loaded() && value != BLANK_VALUE && Watched(w, m)
      modifies this, OnPath(root, key, tree)
      ensures Valid() && tree == Trie.Update(old(tree), key, value)
      ensures forall b :: b in Foot(root) ==> b in old(Foot(root)) || fresh(b)
      ensures old(db).Keys <= db.Keys
      ensures forall n :: Wf(n) && Published(old(db), n) ==> Published(db, n)
      ensures w in old(OnPath(root, key, tree)) && Trie.Get(old(tree), key) != value ==> !Holds(PyBranch(w), m)
      ensures Trie.Get(old(tree), key) == value ==> forall b :: b in old(OnPath(root, key, tree)) && old(allocated(b)) ==> b.slots == old(b.slots) && b.Repr == old(b.Repr)
    {
      UpdateCanonical(tree, key, value);
      FootAllocated(root);
      var r, d := UpdateNode(db, root, key, value, tree, w, m);
      SetRootNode(r, d, Trie.Update(tree, key, value), w, m);
      PublishedGrows(old(db), db);
    }

    method Delete(key: Path)
      requires Loaded()
      modifies this, Foot(root)
      ensures Valid() && tree == Trie.Delete(old(tree), key)
      ensures forall b :: b in Foot(root) ==> b in old(Foot(root)) || fresh(b)
      ensures old(db).Keys <= db.Keys
      ensures forall n :: Wf(n) && Published(old(db), n) ==> Published(db, n)
    {
      OnPathInFoot(root, key, tree);
      DeleteWatched(key, null, Blank);
    }

    method DeleteWatched(key: Path, ghost w: BranchList?, ghost m: Node)
      requires Loaded() && Watched(w, m)
      modifies this, OnPath(root, key, tree)
      ensures Valid() && tree == Trie.Delete(old(tree), key)
      ensures forall b :: b in Foot(root) ==> b in old(Foot(root)) || fresh(b)
      ensures old(db).Keys <= db.Keys
      ensures forall n :: Wf(n) && Published(old(db), n) ==> Published(db, n)
      ensures w in old(OnPath(root, key, tree)) && Trie.Get(old(tree), key) != BLANK_VALUE ==> !Holds(PyBranch(w), m)
      ensures Trie.Get(old(tree), key) == BLANK_VALUE ==> forall b :: b in old(OnPath(root, key, tree)) && old(allocated(b)) ==> b.slots == old(b.slots) && b.Repr == old(b.Repr)
    {
      FootAllocated(root);
      var r, d := DeleteNode(db, root, key, tree, w, m);
      SetRootNode(r, d, Trie.Delete(tree, key), w, m);
      PublishedGrows(old(db), db);
    }

    method Apply(op: Op)
      requires Valid() && ValidOp(op)
      modifies this, Foot(root)
      ensures Valid() && tree == Step(old(tree), op)
      ensures forall b :: b in Foot(root) ==> b in old(Foot(root)) || fresh(b)
      ensures forall n :: Wf(n) && Published(old(db), n) ==> Published(db, n)
    {
      match op
      case Put(k, v) => Update(k, v);
      case Remove(k) => Delete(k);
    }

    /** `set_root_hash`: goes back, or forward, to any root ever published. */
    method SetRootHash(h: Digest, ghost n: Node)
      requires Valid() && Canonical(n) && Published(db, n) && h == RootHash(n)
      modifies this
      ensures Valid() && tree == n && db == old(db) && fresh(Foot(root))
    {
      var p := PyBlank;
      if h != Sha3(BLANK_ITEM) { p := Thaw(db[h], n); }
      FootAllocated(p);
      Assign(p, h, db, n);
      ghost var kept := Holds(root, tree);
      assert kept;
    }

    /** A run of updates and deletes. Every root hash met on the way still names its tree at the end. */
    method Replay(ops: seq<Op>) returns (hashes: seq<Digest>)
      requires Valid() && forall op :: op in ops ==> ValidOp(op)
      modifies this, Foot(root)
      ensures Valid() && |hashes| == |ops| + 1
      ensures forall i :: 0 <= i <= |ops| ==>
                var n := Run(old(tree), ops[..i]);
                hashes[i] == RootHash(n) && Published(db, n)
      ensures tree == Run(old(tree), ops)
      ensures forall b :: b in Foot(root) ==> b in old(Foot(root)) || fresh(b)
    {
      hashes := [rootHash];
      ghost var trees := [tree];
      for i := 0 to |ops|
        invariant Valid() && |hashes| == i + 1 && IsRun(trees, ops[..i]) && trees[0] == old(tree) && tree == trees[i]
        invariant forall b :: b in Foot(root) ==> b in old(Foot(root)) || fresh(b)
        invariant Noted(db, hashes, trees)
      {
        OneMore(ops, i);
        ghost var before := db;
        Apply(ops[i]);
        NotedGrows(before, db, hashes, trees, tree);
        RunGrows(trees, ops[..i], tree, ops[i]);
        hashes, trees := hashes + [rootHash], trees + [tree];
      }
      assert ops[..|ops|] == ops;
      forall j | 0 <= j <= |ops| ensures trees[j] == Run(old(tree), ops[..j]) { RunReaches(trees, ops, j); }
    }
  }

  lemma OneMore(ops: seq<Op>, i: nat)
    requires i < |ops|
    ensures ops[i] in ops && ops[..i + 1] == ops[..i] + [ops[i]]
  {
  }

  /** The trees that a run passes through, first and last included. */
  ghost predicate IsRun(trees: seq<Node>, ops: seq<Op>) {
    && |trees| == |ops| + 1 && (forall i :: 0 <= i < |trees| ==> Canonical(trees[i]))
    && forall i :: 0 <= i < |ops| ==> trees[i + 1] == Step(trees[i], ops[i])
  }

  /** Each hash names its tree in the database. */
  ghost predicate Noted(db: Database, hashes: seq<Digest>, trees: seq<Node>) {
    && |hashes| == |trees|
    && forall j :: 0 <= j < |trees| ==> Wf(trees[j]) && hashes[j] == RootHash(trees[j]) && Published(db, trees[j])
  }

  lemma NotedGrows(db: Database, db': Database, hashes: seq<Digest>, trees: seq<Node>, t: Node)
    requires Noted(db, hashes, trees) && Wf(t) && Published(db', t)
    requires forall n :: Wf(n) && Published(db, n) ==> Published(db', n)
    ensures Noted(db', hashes + [RootHash(t)], trees + [t])
  {
  }

  lemma RunGrows(trees: seq<Node>, ops: seq<Op>, t: Node, op: Op)
    requires IsRun(trees, ops) && Canonical(t) && t == Step(trees[|ops|], op)
    ensures IsRun(trees + [t], ops + [op])
  {
  }

  lemma {:induction false} RunReaches(trees: seq<Node>, ops: seq<Op>, j: nat)
    requires IsRun(trees, ops) && j <= |ops| && forall op :: op in ops ==> ValidOp(op)
    ensures trees[j] == Run(trees[0], ops[..j])
  {
    if j > 0 {
      StepCanonical(trees[0], ops[0]);
      RunReaches(trees[1..], ops[1..], j - 1);
      assert ops[..j][1..] == ops[1..][..j - 1];
    }
  }
}
