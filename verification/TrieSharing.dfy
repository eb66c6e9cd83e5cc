/** `split` on the lists in memory: the parts are built from the slots of the original, and so share
    the branch lists that are inlined there. What that means for the original when a part changes. */
module TrieSharing {
  import opened Nibbles
  import opened Trie
  import opened TrieMap
  import opened TrieCanonical
  import opened TrieNavigation
  import opened TrieSplitMerge
  import opened Encoding
  import opened NodeItems
  import opened TrieStore
  import opened Options
  import opened Sealed

  // ----- Split -----

  /** Looks into `HalfReady`. */
  predicate OpenHalf(s: Seal) { true }

  /** The list b holds n except in slot i, and p, apart from the rest, holds the part of the child. */
  ghost predicate HalfReady(db: Database, b: BranchList, i: Nibble, p: PyNode, n: Node, kid: Node)
    requires Canonical(n) && n.Branch? && Canonical(kid)
    reads b, OtherTops(b, i), OtherFeet(b, i), Top(p), Foot(p)
  {
    forall s: Seal :: OpenHalf(s) ==>
      && OthersHold(b, i, n) && Held(db, n) && ContentAddressed(db) && Holds(p, kid) && Held(db, kid)
      && b !in Foot(p) && OtherFeet(b, i) !! Foot(p) && OtherFeet(b, i) <= b.Repr && OtherTops(b, i) <= b.Repr
  }

  lemma HalfReadyGrows(db: Database, db': Database, b: BranchList, i: Nibble, p: PyNode, n: Node, kid: Node)
    requires Canonical(n) && n.Branch? && Canonical(kid) && HalfReady(db, b, i, p, n, kid)
    requires db.Keys <= db'.Keys && ContentAddressed(db')
    ensures HalfReady(db', b, i, p, n, kid)
  {
    assert OpenHalf(Seal);
    HeldGrows(db, db', n);
    HeldGrows(db, db', kid);
  }

  /** One half of a branch list cut at slot i: the slots on its side as they are, and the part p of the
      child in slot i. */
  method HalfBranch(db: Database, b: BranchList, i: Nibble, p: PyNode, low: bool, ghost n: Node, ghost kid: Node)
    returns (r: PyNode, db': Database)
    requires Canonical(n) && n.Branch? && Canonical(kid) && HalfReady(db, b, i, p, n, kid)
    ensures Holds(r, Half(n, i, low, kid)) && Held(db', Half(n, i, low, kid))
    ensures db.Keys <= db'.Keys && ContentAddressed(db')
    ensures forall o :: o in Foot(r) ==> o in old(b.Repr) || o in old(Foot(p)) || fresh(o)
    ensures Half(n, i, low, kid).Branch? ==> HasSlots(r, b, i, low)
  {
    var c, dbHalf := UnevenHalf(db, b, i, p, low, n, kid);
    r, db' := NormalizeOrBlankNode(dbHalf, c, HalfTree(n, i, low, kid));
    ghost var same := r.PyBranch? ==> HasSlots(r, b, i, low);
    assert same;
  }

  /** A branch with the slots of b on one side of slot i. */
  ghost predicate HasSlots(r: PyNode, b: BranchList, i: Nibble, low: bool)
    reads Top(r), b
  {
    && r.PyBranch? && |r.branch.slots| == |b.slots| == 17
    && forall j :: 0 <= j < 16 && j != i && (j < i) == low ==> r.branch.slots[j] == b.slots[j]
  }

  /** The half before it is normalised. */
  method UnevenHalf(db: Database, b: BranchList, i: Nibble, p: PyNode, low: bool, ghost n: Node, ghost kid: Node)
    returns (c: BranchList, db': Database)
    requires Canonical(n) && n.Branch? && Canonical(kid) && HalfReady(db, b, i, p, n, kid)
    ensures fresh(c) && Holds(PyBranch(c), HalfTree(n, i, low, kid)) && Held(db', HalfTree(n, i, low, kid))
    ensures db.Keys <= db'.Keys && ContentAddressed(db') && HasSlots(PyBranch(c), b, i, low)
    ensures forall o :: o in c.Repr ==> o in old(b.Repr) || o in old(Foot(p)) || fresh(o)
  {
    assert OpenHalf(Seal);
    TopInFoot(p, kid);
    var (s, dbSlot) := EncodeNode(db, p, kid);
    db' := dbSlot;
    HalfHeld(db, db', n, i, low, kid);
    c := NewHalf(b, i, s, low, n, kid);
  }

  method NormalizeOrBlankNode(db: Database, c: BranchList, ghost t: Node) returns (r: PyNode, db': Database)
    requires Wf(t) && t.Branch? && Holds(PyBranch(c), t) && Held(db, t) && ContentAddressed(db)
    requires forall i :: 0 <= i < 16 ==> Canonical(t.kids[i])
    ensures Wf(NormalizeOrBlank(t.kids, t.value)) && Holds(r, NormalizeOrBlank(t.kids, t.value))
    ensures Held(db', NormalizeOrBlank(t.kids, t.value)) && db.Keys <= db'.Keys && ContentAddressed(db')
    ensures forall o :: o in Foot(r) ==> o in old(c.Repr) || fresh(o)
    ensures r.PyBranch? ==> r.branch == c
  {
    var count, _ := CountItems(c, t);
    if count == 0 {
      r, db' := PyBlank, db;
    } else {
      r, db' := NormalizeBranchNode(db, c, t);
    }
  }

  /** What a half represents. */
  function Half(n: Node, i: Nibble, low: bool, kid: Node): (t: Node)
    requires Canonical(n) && n.Branch? && Canonical(kid)
    ensures Canonical(t)
  {
    if low then NormalizeOrBlank(LowKids(n.kids, i, kid), n.value) else NormalizeOrBlank(HighKids(n.kids, i, kid), BLANK_VALUE)
  }

  function HalfTree(n: Node, i: Nibble, low: bool, kid: Node): (t: Node)
    requires Canonical(n) && n.Branch? && Canonical(kid)
    ensures Wf(t) && t.Branch? && forall i :: 0 <= i < 16 ==> Canonical(t.kids[i])
  {
    var kids := if low then LowKids(n.kids, i, kid) else HighKids(n.kids, i, kid);
    CanonicalKidsWf(kids, if low then n.value else BLANK_VALUE);
    Branch(kids, if low then n.value else BLANK_VALUE)
  }

  lemma HalfHeld(db: Database, db': Database, n: Node, i: Nibble, low: bool, kid: Node)
    requires Canonical(n) && n.Branch? && Canonical(kid) && Held(db, n) && db.Keys <= db'.Keys && RefHeld(db', kid)
    ensures Held(db', HalfTree(n, i, low, kid))
  {
    HeldGrows(db, db', n);
  }

  /** The slots of one half. */
  function HalfSlots(all: seq<Slot>, i: Nibble, s: Slot, low: bool): (slots: seq<Slot>)
    requires |all| == 17
    ensures |slots| == 17 && slots[i] == s && slots[16] == if low then all[16] else Raw(BLANK_ITEM)
    ensures forall j :: 0 <= j < 16 && j != i ==> slots[j] == if (j < i) == low then all[j] else Raw(BLANK_ITEM)
  {
    seq(17, j requires 0 <= j < 17 =>
      if j == i then s
      else if j == 16 then (if low then all[16] else Raw(BLANK_ITEM))
      else if (j < i) == low then all[j] else Raw(BLANK_ITEM))
  }

  lemma HalfSlotsHold(b: BranchList, i: Nibble, s: Slot, low: bool, n: Node, kid: Node)
    requires Canonical(n) && n.Branch? && OthersHold(b, i, n) && Canonical(kid) && SlotHolds(s, kid)
    requires TopOf(s) <= FootOf(s) && OtherFeet(b, i) !! FootOf(s) && OtherFeet(b, i) <= b.Repr
    ensures var slots, t := HalfSlots(b.slots, i, s, low), HalfTree(n, i, low, kid);
      && (forall j :: 0 <= j < 16 ==>
            SlotHolds(slots[j], t.kids[j]) && FootOf(slots[j]) <= b.Repr + FootOf(s) && TopOf(slots[j]) <= b.Repr + FootOf(s))
      && forall j, k :: 0 <= j < k < 16 ==> FootOf(slots[j]) !! FootOf(slots[k])
  {
    assert OpenHolds(Seal);
    var slots, t := HalfSlots(b.slots, i, s, low), HalfTree(n, i, low, kid);
    forall j | 0 <= j < 16
      ensures SlotHolds(slots[j], t.kids[j]) && FootOf(slots[j]) <= b.Repr + FootOf(s) && TopOf(slots[j]) <= b.Repr + FootOf(s)
      ensures j != i ==> FootOf(slots[j]) <= OtherFeet(b, i)
    {
      if j != i { assert SlotHolds(b.slots[j], n.kids[j]); }
    }
  }

  method NewHalf(b: BranchList, i: Nibble, s: Slot, low: bool, ghost n: Node, ghost kid: Node) returns (c: BranchList)
    requires Canonical(n) && n.Branch? && OthersHold(b, i, n) && Canonical(kid) && SlotHolds(s, kid)
    requires TopOf(s) <= FootOf(s) && OtherFeet(b, i) !! FootOf(s) && OtherFeet(b, i) <= b.Repr
    ensures fresh(c) && Holds(PyBranch(c), HalfTree(n, i, low, kid)) && c.slots == HalfSlots(b.slots, i, s, low)
    ensures forall o :: o in c.Repr ==> o in old(b.Repr) || o in old(FootOf(s)) || fresh(o)
  {
    HalfSlotsHold(b, i, s, low, n, kid);
    var p := NewBranch(HalfSlots(b.slots, i, s, low), HalfTree(n, i, low, kid), b.Repr + FootOf(s));
    c := p.branch;
    assert Foot(p) == c.Repr;
  }

  /** `_split`. No list in memory is changed; the parts share lists of p. */
  method SplitNode(db: Database, p: PyNode, key: Path, ghost n: Node) returns (low: PyNode, high: PyNode, db': Database)
    requires Canonical(n) && Holds(p, n) && Held(db, n) && ContentAddressed(db)
    ensures Holds(low, Split(n, key).0) && Holds(high, Split(n, key).1)
    ensures Held(db', Split(n, key).0) && Held(db', Split(n, key).1) && db.Keys <= db'.Keys && ContentAddressed(db')
    ensures forall b :: b in Foot(low) || b in Foot(high) ==> b in old(Foot(p)) || fresh(b)
    ensures key == [] && n != Blank ==> low == PyBlank && high == p
    ensures n.Branch? && key != [] ==> CopiesSlots(p.branch, low, high, key[0], Split(n, key).0, Split(n, key).1)
    decreases n, 2
  {
    if p == PyBlank { return PyBlank, PyBlank, db; }
    if key == [] { return PyBlank, p, db; }
    match p
    case PyBranch(b) => low, high, db' := SplitBranch(db, b, key, n);
    case PyKv(path, true, _) => if Lt(path, key) { return p, PyBlank, db; } else { return PyBlank, p, db; }
    case PyKv(path, false, _) =>
      if path <= key {
        low, high, db' := SplitExtensionNode(db, p, key, n);
      } else {
        var head := if |path| <= |key| then key[..|path|] else key;
        if Lt(path, head) { return p, PyBlank, db; }
        if Lt(head, path) { return PyBlank, p, db; }
        return PyBlank, PyBlank, db;
      }
  }

  method SplitBranch(db: Database, b: BranchList, key: Path, ghost n: Node) returns (low: PyNode, high: PyNode, db': Database)
    requires Canonical(n) && n.Branch? && Holds(PyBranch(b), n) && Held(db, n) && ContentAddressed(db) && key != []
    ensures Holds(low, Split(n, key).0) && Holds(high, Split(n, key).1)
    ensures Held(db', Split(n, key).0) && Held(db', Split(n, key).1) && db.Keys <= db'.Keys && ContentAddressed(db')
    ensures forall o :: o in Foot(low) || o in Foot(high) ==> o in old(b.Repr) || fresh(o)
    ensures CopiesSlots(b, low, high, key[0], Split(n, key).0, Split(n, key).1)
    decreases n, 1
  {
    var low', high', db1 := SplitSlot(db, b, key, n);
    ghost var sub := Split(n.kids[key[0]], key[1..]);
    low, high, db' := Halves(db1, b, key[0], low', high', n, sub.0, sub.1);
  }

  /** A part that is a branch has the slots of b on its side: the same lists in memory. */
  ghost predicate CopiesSlots(b: BranchList, low: PyNode, high: PyNode, i: Nibble, lowTree: Node, highTree: Node)
    reads b, Top(low), Top(high)
  {
    (lowTree.Branch? ==> HasSlots(low, b, i, true)) && (highTree.Branch? ==> HasSlots(high, b, i, false))
  }

  /** The child in the cut slot. */
  method SplitSlot(db: Database, b: BranchList, key: Path, ghost n: Node) returns (low: PyNode, high: PyNode, db': Database)
    requires Canonical(n) && n.Branch? && Holds(PyBranch(b), n) && Held(db, n) && ContentAddressed(db) && key != []
    ensures var sub := Split(n.kids[key[0]], key[1..]);
      HalfReady(db', b, key[0], low, n, sub.0) && HalfReady(db', b, key[0], high, n, sub.1)
    ensures db.Keys <= db'.Keys && ContentAddressed(db') && b.Repr == old(b.Repr)
    ensures forall o :: o in Foot(low) || o in Foot(high) ==> o in old(b.Repr) || fresh(o)
    decreases n, 0
  {
    var i := key[0];
    SlotApart(b, i, n);
    SlotOf(b, i, n);
    ghost var others := OtherFeet(b, i);
    var child := DecodeToNode(db, b.slots[i], n.kids[i]);
    assert b !in Foot(child) && others !! Foot(child);
    low, high, db' := SplitNode(db, child, key[1..], n.kids[i]);
    ghost var still := OthersHold(b, i, n);
    assert still;
    ghost var same := OtherFeet(b, i);
    assert same == others;
    ghost var tops := OtherTops(b, i) <= b.Repr;
    assert tops;
    HeldGrows(db, db', n);
  }

  method Halves(db: Database, b: BranchList, i: Nibble, p: PyNode, q: PyNode, ghost n: Node, ghost lowKid: Node, ghost highKid: Node)
    returns (low: PyNode, high: PyNode, db': Database)
    requires Canonical(n) && n.Branch? && Canonical(lowKid) && Canonical(highKid)
    requires HalfReady(db, b, i, p, n, lowKid) && HalfReady(db, b, i, q, n, highKid)
    ensures Holds(low, Half(n, i, true, lowKid)) && Holds(high, Half(n, i, false, highKid))
    ensures Held(db', Half(n, i, true, lowKid)) && Held(db', Half(n, i, false, highKid)) && db.Keys <= db'.Keys && ContentAddressed(db')
    ensures forall o :: o in Foot(low) || o in Foot(high) ==> o in old(b.Repr) || o in old(Foot(p)) || o in old(Foot(q)) || fresh(o)
    ensures Half(n, i, true, lowKid).Branch? ==> HasSlots(low, b, i, true)
    ensures Half(n, i, false, highKid).Branch? ==> HasSlots(high, b, i, false)
  {
    var dbLow;
    low, dbLow := LowHalf(db, b, i, p, q, n, lowKid, highKid);
    FootAllocated(low);
    high, db' := HalfBranch(dbLow, b, i, q, false, n, highKid);
    HeldGrows(dbLow, db', Half(n, i, true, lowKid));
    ghost var kept := Holds(low, Half(n, i, true, lowKid));
    assert kept;
    ghost var same := low.PyBranch? ==> HasSlots(low, b, i, true);
    assert same;
  }

  /** The low half, after which all is ready for the other one. */
  method LowHalf(db: Database, b: BranchList, i: Nibble, p: PyNode, q: PyNode, ghost n: Node, ghost lowKid: Node, ghost highKid: Node)
    returns (low: PyNode, db': Database)
    requires Canonical(n) && n.Branch? && Canonical(lowKid) && Canonical(highKid)
    requires HalfReady(db, b, i, p, n, lowKid) && HalfReady(db, b, i, q, n, highKid)
    ensures Holds(low, Half(n, i, true, lowKid)) && Held(db', Half(n, i, true, lowKid))
    ensures db.Keys <= db'.Keys && ContentAddressed(db')
    ensures forall o :: o in Foot(low) ==> o in old(b.Repr) || o in old(Foot(p)) || fresh(o)
    ensures Half(n, i, true, lowKid).Branch? ==> HasSlots(low, b, i, true)
    ensures HalfReady(db', b, i, q, n, highKid) && b.Repr == old(b.Repr) && Foot(q) == old(Foot(q))
  {
    FootAllocated(q);
    low, db' := HalfBranch(db, b, i, p, true, n, lowKid);
    ghost var ready := HalfReady(db, b, i, q, n, highKid);
    assert ready;
    HalfReadyGrows(db, db', b, i, q, n, highKid);
  }

  method SplitExtensionNode(db: Database, p: PyNode, key: Path, ghost n: Node) returns (low: PyNode, high: PyNode, db': Database)
    requires Canonical(n) && n.Extension? && Holds(p, n) && Held(db, n) && ContentAddressed(db) && key != [] && p.path <= key
    ensures Holds(low, Split(n, key).0) && Holds(high, Split(n, key).1)
    ensures Held(db', Split(n, key).0) && Held(db', Split(n, key).1) && db.Keys <= db'.Keys && ContentAddressed(db')
    ensures forall b :: b in Foot(low) || b in Foot(high) ==> b in old(Foot(p)) || fresh(b)
    decreases n, 0
  {
    ghost var sub := Split(n.child, key[|p.path|..]);
    var db1;
    low, high, db1 := SplitChild(db, p, key[|p.path|..], n);
    var (l, h, d) := PrependBoth(db1, p.path, low, high, sub.0, sub.1);
    low, high, db' := l, h, d;
  }

  method SplitChild(db: Database, p: PyNode, key: Path, ghost n: Node) returns (low: PyNode, high: PyNode, db': Database)
    requires Canonical(n) && n.Extension? && Holds(p, n) && Held(db, n) && ContentAddressed(db)
    ensures Holds(low, Split(n.child, key).0) && Holds(high, Split(n.child, key).1)
    ensures Held(db', Split(n.child, key).0) && Held(db', Split(n.child, key).1) && db.Keys <= db'.Keys && ContentAddressed(db')
    ensures forall b :: b in Foot(low) || b in Foot(high) ==> b in old(Foot(p)) || fresh(b)
    decreases n.child, 3
  {
    var child := DecodeToNode(db, p.slot, n.child);
    FootAllocated(child);
    low, high, db' := SplitNode(db, child, key, n.child);
  }

  function PrependBoth(db: Database, key: Path, p: PyNode, q: PyNode, ghost n: Node, ghost m: Node): (r: (PyNode, PyNode, Database))
    requires Canonical(n) && Holds(p, n) && Held(db, n) && Canonical(m) && Holds(q, m) && Held(db, m) && ContentAddressed(db)
    reads Top(p), Foot(p), Top(q), Foot(q)
    ensures Wf(Unless(key, n)) && Top(r.0) <= Top(p) && Foot(r.0) <= Foot(p) && Holds(r.0, Unless(key, n))
    ensures Wf(Unless(key, m)) && Top(r.1) <= Top(q) && Foot(r.1) <= Foot(q) && Holds(r.1, Unless(key, m))
    ensures Held(r.2, Unless(key, n)) && Held(r.2, Unless(key, m)) && db.Keys <= r.2.Keys && ContentAddressed(r.2)
  {
    var (low, d) := PrependUnlessBlank(db, key, p, n);
    HeldGrows(db, d, m);
    var (high, d') := PrependUnlessBlank(d, key, q, m);
    HeldGrows(d, d', Unless(key, n));
    (low, high, d')
  }

  function Unless(key: Path, n: Node): Node
    requires Canonical(n)
  {
    if n == Blank then Blank else Prepend(key, n)
  }

  function PrependUnlessBlank(db: Database, key: Path, p: PyNode, ghost n: Node): (r: (PyNode, Database))
    requires Canonical(n) && Holds(p, n) && Held(db, n) && ContentAddressed(db)
    reads Top(p), Foot(p)
    ensures Wf(Unless(key, n)) && Top(r.0) <= Top(p) && Foot(r.0) <= Foot(p) && Holds(r.0, Unless(key, n))
    ensures Held(r.1, Unless(key, n)) && db.Keys <= r.1.Keys && ContentAddressed(r.1)
  {
    if p == PyBlank then (PyBlank, db) else PrependNode(db, key, p, n)
  }

  /** `split`: two new tries over the parts, beside the original. */
  method SplitTrie(t: PersistentTrie, key: Path) returns (low: PersistentTrie, high: PersistentTrie)
    requires t.Valid()
    ensures t.Valid() && fresh(low) && fresh(high) && low != high
    ensures low.Loaded() && low.tree == Split(t.tree, key).0 && low.rootHash == RootHash(Blank)
    ensures high.Loaded() && high.tree == Split(t.tree, key).1 && high.rootHash == RootHash(Blank)
    ensures key == [] && t.tree != Blank ==> high.root == t.root
    ensures t.tree.Branch? && key != [] ==> CopiesSlots(t.root.branch, low.root, high.root, key[0], low.tree, high.tree)
    ensures low.db == high.db && t.db.Keys <= low.db.Keys
    ensures forall b :: b in Foot(low.root) || b in Foot(high.root) ==> b in Foot(t.root) || fresh(b)
  {
    FootAllocated(t.root);
    var p, q, d := SplitNode(t.db, t.root, key, t.tree);
    FootAllocated(p);
    FootAllocated(q);
    low, high := MakeParts(d, p, q, Split(t.tree, key).0, Split(t.tree, key).1);
    ghost var kept := t.Valid();
    assert kept;
  }

  method MakeParts(d: Database, p: PyNode, q: PyNode, ghost n: Node, ghost m: Node) returns (low: PersistentTrie, high: PersistentTrie)
    requires Canonical(n) && Holds(p, n) && Held(d, n) && Canonical(m) && Holds(q, m) && Held(d, m) && ContentAddressed(d)
    ensures fresh(low) && fresh(high) && low != high && low.root == p && high.root == q && low.db == high.db == d
    ensures low.Loaded() && low.tree == n && low.rootHash == RootHash(Blank)
    ensures high.Loaded() && high.tree == m && high.rootHash == RootHash(Blank)
    ensures Foot(p) == old(Foot(p)) && Foot(q) == old(Foot(q))
  {
    FootAllocated(p);
    FootAllocated(q);
    low := new PersistentTrie.Part(d, p, n);
    high := new PersistentTrie.Part(d, q, m);
    ghost var kept := low.Loaded();
    assert kept;
  }

  // ----- What the lists in memory are at one moment -----

  datatype Cell = Cell(slots: seq<Slot>, Repr: set<BranchList>)

  type Memory = map<BranchList, Cell>

  /** The branch lists that belong to p, as they are now. */
  ghost function Seen(p: PyNode): (mem: Memory)
    reads Top(p), Foot(p)
    ensures mem.Keys == Foot(p)
  {
    map b | b in Foot(p) :: Cell(b.slots, b.Repr)
  }

  ghost predicate Unchanged(mem: Memory, lists: set<BranchList>)
    reads lists
  {
    forall b :: b in lists && b in mem ==> Cell(b.slots, b.Repr) == mem[b]
  }

  /** The branch lists that one comes to from p, following lists that are inlined in others. */
  ghost function Lists(mem: Memory, p: PyNode, n: Node): set<BranchList>
    requires Wf(n)
    decreases n
  {
    match n
    case Blank => {}
    case Leaf(_, _) => {}
    case Extension(_, c) => if p.PyKv? && p.slot.Inline? then Lists(mem, p.slot.list, c) else {}
    case Branch(kids, _) =>
      if p.PyBranch? && p.branch in mem && |mem[p.branch].slots| == 17 then
        var slots := mem[p.branch].slots;
        {p.branch} + set i, b | 0 <= i < 16 && slots[i].Inline? && b in Lists(mem, slots[i].list, kids[i]) :: b
      else {}
  }

  ghost function FootIn(mem: Memory, p: PyNode): set<BranchList> {
    match p
    case PyBlank => {}
    case PyKv(_, _, Raw(_)) => {}
    case PyKv(_, _, Inline(q)) => FootIn(mem, q)
    case PyBranch(b) => if b in mem then mem[b].Repr else {}
  }

  ghost function SlotFootIn(mem: Memory, s: Slot): set<BranchList> {
    if s.Raw? then {} else FootIn(mem, s.list)
  }

  /** `Holds`, read off the lists as they were. */
  ghost predicate WasHolding(mem: Memory, p: PyNode, n: Node)
    requires Wf(n)
    decreases n
  {
    match n
    case Blank => p == PyBlank
    case Leaf(k, v) => p == PyKv(k, true, Raw(Text(v)))
    case Extension(k, c) =>
      p.PyKv? && p.path == k && !p.terminated && Shape(p.slot, c) && (p.slot.Inline? ==> WasHolding(mem, p.slot.list, c))
    case Branch(kids, v) =>
      && p.PyBranch? && p.branch in mem
      && var b, slots, repr := p.branch, mem[p.branch].slots, mem[p.branch].Repr;
      && b in repr && |slots| == 17 && slots[16] == Raw(Text(v))
      && (forall i :: 0 <= i < 16 ==> TopOf(slots[i]) <= repr - {b} && SlotFootIn(mem, slots[i]) <= repr - {b})
      && (forall i, j :: 0 <= i < j < 16 ==> SlotFootIn(mem, slots[i]) !! SlotFootIn(mem, slots[j]))
      && (forall i :: 0 <= i < 16 ==> Shape(slots[i], kids[i]))
      && (forall i :: 0 <= i < 16 && slots[i].Inline? ==> WasHolding(mem, slots[i].list, kids[i]))
  }

  lemma {:induction false} FootSame(mem: Memory, p: PyNode)
    requires Top(p) <= mem.Keys && Unchanged(mem, Top(p))
    ensures Foot(p) == FootIn(mem, p)
    decreases p
  {
    if p.PyKv? && p.slot.Inline? { FootSame(mem, p.slot.list); }
  }

  lemma {:induction false} HoldsMeansHeld(mem: Memory, p: PyNode, n: Node)
    requires Wf(n) && Holds(p, n) && Foot(p) <= mem.Keys && Unchanged(mem, Foot(p))
    ensures WasHolding(mem, p, n)
    decreases n
  {
    match n
    case Blank =>
    case Leaf(_, _) =>
    case Extension(_, c) => if p.slot.Inline? { HoldsMeansHeld(mem, p.slot.list, c); }
    case Branch(kids, _) =>
      assert OpenHolds(Seal);
      var slots := p.branch.slots;
      forall i | 0 <= i < 16 && slots[i].Inline?
        ensures FootOf(slots[i]) == SlotFootIn(mem, slots[i]) && WasHolding(mem, slots[i].list, kids[i])
      {
        FootSame(mem, slots[i].list);
        HoldsMeansHeld(mem, slots[i].list, kids[i]);
      }
  }

  lemma {:induction false} HeldTop(mem: Memory, p: PyNode, n: Node)
    requires Wf(n) && WasHolding(mem, p, n)
    ensures Top(p) <= Lists(mem, p, n) && Lists(mem, p, n) <= mem.Keys
    decreases n
  {
    match n
    case Blank =>
    case Leaf(_, _) =>
    case Extension(_, c) => if p.slot.Inline? { HeldTop(mem, p.slot.list, c); }
    case Branch(kids, _) =>
      var slots := mem[p.branch].slots;
      forall i | 0 <= i < 16 && slots[i].Inline? ensures Lists(mem, slots[i].list, kids[i]) <= mem.Keys {
        HeldTop(mem, slots[i].list, kids[i]);
      }
  }

  /** If no list that p leads to has changed, p holds what it held. */
  lemma {:induction false} StillHolds(mem: Memory, p: PyNode, n: Node)
    requires Wf(n) && WasHolding(mem, p, n) && Unchanged(mem, Lists(mem, p, n))
    ensures Holds(p, n)
    decreases n
  {
    match n
    case Blank =>
    case Leaf(_, _) =>
    case Extension(_, c) => if p.slot.Inline? { StillHolds(mem, p.slot.list, c); }
    case Branch(kids, _) =>
      var slots := p.branch.slots;
      assert Cell(slots, p.branch.Repr) == mem[p.branch];
      forall i | 0 <= i < 16 && slots[i].Inline?
        ensures FootOf(slots[i]) == SlotFootIn(mem, slots[i]) && Holds(slots[i].list, kids[i])
      {
        assert Lists(mem, slots[i].list, kids[i]) <= Lists(mem, p, n);
        HeldTop(mem, slots[i].list, kids[i]);
        FootSame(mem, slots[i].list);
        StillHolds(mem, slots[i].list, kids[i]);
      }
  }

  /** One comes from p to the list w, which holds m, by lists that are not in the set; w is in it. */
  ghost predicate LeadsTo(mem: Memory, p: PyNode, n: Node, lists: set<BranchList>, w: BranchList, m: Node)
    requires Wf(n)
    decreases n
  {
    match n
    case Blank => false
    case Leaf(_, _) => false
    case Extension(_, c) => p.PyKv? && p.slot.Inline? && LeadsTo(mem, p.slot.list, c, lists, w, m)
    case Branch(kids, _) =>
      && p.PyBranch?
      && if p.branch in lists then w == p.branch && m == n
         else
           && p.branch in mem && |mem[p.branch].slots| == 17
           && var slots := mem[p.branch].slots;
              exists i :: 0 <= i < 16 && slots[i].Inline? && LeadsTo(mem, slots[i].list, kids[i], lists, w, m)
  }

  lemma {:induction false} MeetingLeads(mem: Memory, p: PyNode, n: Node, lists: set<BranchList>) returns (w: BranchList, m: Node)
    requires Wf(n) && !(Lists(mem, p, n) !! lists)
    ensures LeadsTo(mem, p, n, lists, w, m)
    decreases n
  {
    if n.Extension? {
      w, m := MeetingLeads(mem, p.slot.list, n.child, lists);
    } else if p.branch in lists {
      w, m := p.branch, n;
    } else {
      var slots := mem[p.branch].slots;
      var b :| b in Lists(mem, p, n) && b in lists;
      var i :| 0 <= i < 16 && slots[i].Inline? && b in Lists(mem, slots[i].list, n.kids[i]);
      w, m := MeetingLeads(mem, slots[i].list, n.kids[i], lists);
    }
  }

  /** As long as the lists outside the set are as they were, what p holds is decided by w. */
  lemma {:induction false} LeadsHolds(mem: Memory, p: PyNode, n: Node, lists: set<BranchList>, w: BranchList, m: Node)
    requires Wf(n) && Holds(p, n) && LeadsTo(mem, p, n, lists, w, m) && Unchanged(mem, mem.Keys - lists)
    ensures w in lists && Wf(m) && Holds(PyBranch(w), m)
    decreases n
  {
    if n.Extension? {
      LeadsHolds(mem, p.slot.list, n.child, lists, w, m);
    } else if p.branch !in lists {
      var slots := mem[p.branch].slots;
      assert Cell(p.branch.slots, p.branch.Repr) == mem[p.branch];
      var i :| 0 <= i < 16 && slots[i].Inline? && LeadsTo(mem, slots[i].list, n.kids[i], lists, w, m);
      SlotOf(p.branch, i, n);
      LeadsHolds(mem, slots[i].list, n.kids[i], lists, w, m);
    }
  }

  // ----- Changing one of two tries that share lists -----

  /** The branch lists that a trie leads to in memory. */
  ghost function Reached(t: PersistentTrie): set<BranchList>
    requires t.Loaded()
    reads t, Top(t.root), Foot(t.root)
  {
    Lists(Seen(t.root), t.root, t.tree)
  }

  /** The branch lists that a change of the key passes through. */
  ghost function Written(t: PersistentTrie, key: Path): set<BranchList>
    requires t.Loaded()
    reads t, Top(t.root), Foot(t.root)
  {
    OnPath(t.root, key, t.tree)
  }

  /** A list in the set, if t leads to one, and the node that it holds for t. */
  lemma FirstShared(t: PersistentTrie, lists: set<BranchList>) returns (w: BranchList?, m: Node)
    requires t.Loaded()
    ensures var mem := Seen(t.root);
      && WasHolding(mem, t.root, t.tree) && Reached(t) <= mem.Keys && Watched(w, m)
      && (w == null <==> Reached(t) !! lists) && (w != null ==> w in lists && LeadsTo(mem, t.root, t.tree, lists, w, m))
  {
    var mem := Seen(t.root);
    HoldsMeansHeld(mem, t.root, t.tree);
    HeldTop(mem, t.root, t.tree);
    w, m := null, Blank;
    if !(Reached(t) !! lists) {
      w, m := MeetingLeads(mem, t.root, t.tree, lists);
      LeadsHolds(mem, t.root, t.tree, lists, w, m);
    }
  }

  /** An update of one trie, seen from another one: t goes on representing its tree exactly if the key had
      that value already, or the update passes through no list that t leads to. */
  method UpdateBeside(t: PersistentTrie, part: PersistentTrie, key: Path, value: Bytes)
    requires t != part && t.Loaded() && part.Loaded() && value != BLANK_VALUE
    modifies part, Written(part, key)
    ensures part.Valid() && part.tree == Trie.Update(old(part.tree), key, value)
    ensures t.root == old(t.root) && t.tree == old(t.tree) && t.rootHash == old(t.rootHash)
    ensures t.Loaded() <==> Get(old(part.tree), key) == value || old(Reached(t)) !! old(Written(part, key))
  {
    ghost var mem, lists := Seen(t.root), Written(part, key);
    ghost var w, m := FirstShared(t, lists);
    FootAllocated(t.root);
    part.UpdateWatched(key, value, w, m);
    AfterChange(mem, t, lists, w, m);
    if Unchanged(mem, mem.Keys) { StillHolds(mem, t.root, t.tree); }
  }

  method DeleteBeside(t: PersistentTrie, part: PersistentTrie, key: Path)
    requires t != part && t.Loaded() && part.Loaded()
    modifies part, Written(part, key)
    ensures part.Valid() && part.tree == Trie.Delete(old(part.tree), key)
    ensures t.root == old(t.root) && t.tree == old(t.tree) && t.rootHash == old(t.rootHash)
    ensures t.Loaded() <==> Get(old(part.tree), key) == BLANK_VALUE || old(Reached(t)) !! old(Written(part, key))
  {
    ghost var mem, lists := Seen(t.root), Written(part, key);
    ghost var w, m := FirstShared(t, lists);
    FootAllocated(t.root);
    part.DeleteWatched(key, w, m);
    AfterChange(mem, t, lists, w, m);
    if Unchanged(mem, mem.Keys) { StillHolds(mem, t.root, t.tree); }
  }

  lemma AfterChange(mem: Memory, t: PersistentTrie, lists: set<BranchList>, w: BranchList?, m: Node)
    requires Wf(t.tree) && WasHolding(mem, t.root, t.tree) && Unchanged(mem, mem.Keys - lists)
    requires Lists(mem, t.root, t.tree) <= mem.Keys && Wf(m) && (w != null ==> LeadsTo(mem, t.root, t.tree, lists, w, m))
    ensures Lists(mem, t.root, t.tree) !! lists ==> Holds(t.root, t.tree)
    ensures w != null && !Holds(PyBranch(w), m) ==> !Holds(t.root, t.tree)
  {
    if Lists(mem, t.root, t.tree) !! lists { StillHolds(mem, t.root, t.tree); }
    if w != null && Holds(t.root, t.tree) { LeadsHolds(mem, t.root, t.tree, lists, w, m); }
  }

  // ----- Sharing after a split -----

  /** A branch list that is inlined in the same slot of two roots is reached by one trie and written by
      the changes of the other below that slot. */
  lemma SharedSlot(t: PersistentTrie, part: PersistentTrie, key: Path)
    requires t.Loaded() && t.tree.Branch? && part.Loaded() && part.tree.Branch? && key != []
    requires t.root.branch.slots[key[0]] == part.root.branch.slots[key[0]]
    requires t.tree.kids[key[0]].Branch? && Inlined(t.tree.kids[key[0]])
    ensures !(Reached(t) !! Written(part, key))
  {
    var i, root := key[0], t.root.branch;
    var kid := t.tree.kids[i];
    SlotOf(root, i, t.tree);
    SlotOf(part.root.branch, i, part.tree);
    var q := root.slots[i].list;
    HoldsUnique(q, kid, part.tree.kids[i]);
    var mem := Seen(t.root);
    HoldsMeansHeld(mem, t.root, t.tree);
    HeldTop(mem, q, kid);
    assert q.branch in Lists(mem, q, kid);
    assert q.branch in Reached(t);
    assert q.branch in OnPath(q, key[1..], kid);
    assert q.branch in OnPath(part.root, key, part.tree);
  }

  /** The low part of a split at the cut is a branch, and has a short branch of n on the way to the key. */
  ghost predicate KeepsShortBranch(n: Node, cut: Path, key: Path) {
    && Canonical(n) && n.Branch? && cut != [] && ItemCount(LowKids(n.kids, cut[0], Blank), n.value) >= 2
    && key != [] && key[0] < cut[0] && n.kids[key[0]].Branch? && Inlined(n.kids[key[0]])
  }

  lemma LowIsBranch(n: Node, cut: Path, key: Path)
    requires KeepsShortBranch(n, cut, key)
    ensures Split(n, cut).0.Branch? && Get(Split(n, cut).0, key) == Get(n, key)
  {
    var i := cut[0];
    var sub := Split(n.kids[i], cut[1..]).0;
    var kids := LowKids(n.kids, i, Blank);
    OccupiedUpdate(kids, i, sub);
    assert kids[i := sub] == LowKids(n.kids, i, sub);
    SplitPartitions(n, cut, key);
  }

  /** Such a part, and an update below the short branch: the original is broken. */
  method SplitThenUpdate(t: PersistentTrie, cut: Path, key: Path, value: Bytes) returns (low: PersistentTrie, high: PersistentTrie)
    requires t.Valid() && KeepsShortBranch(t.tree, cut, key) && value != BLANK_VALUE && Get(t.tree, key) != value
    modifies Foot(t.root)
    ensures low.tree == Trie.Update(Split(t.tree, cut).0, key, value) && high.tree == Split(t.tree, cut).1
    ensures t.tree == old(t.tree) && t.rootHash == RootHash(t.tree) && !t.Loaded()
  {
    low, high := SplitTrie(t, cut);
    LowIsBranch(t.tree, cut, key);
    SharedSlot(t, low, key);
    OnPathInFoot(low.root, key, low.tree);
    UpdateBeside(t, low, key, value);
  }

  /** Four keys: two below a short branch in slot 1 of the root, and one each in slots 2 and 3. */
  function ShortBranch(): (n: Node)
    ensures Canonical(n)
  {
    TwoSlots(0, Leaf([], [97]), 1, Leaf([], [98]));
    Branch(BlankKids()[0 := Leaf([], [97])][1 := Leaf([], [98])], BLANK_VALUE)
  }

  lemma ShortBranchInlined()
    ensures Inlined(ShortBranch())
  {
    var items := NodeItem(ShortBranch()).items;
    assert Pack([], true) == [32];
    var a, b := Text([32]), [Text([97]), Text([98])];
    assert items[0] == Seq([a, b[0]]) && items[1] == Seq([a, b[1]]);
    BlankItems(items[2..]);
  }

  lemma {:induction false} BlankItems(items: seq<Record>)
    requires forall i :: 0 <= i < |items| ==> items[i] == BLANK_ITEM
    ensures ItemsLength(items) == |items|
  {
    if items != [] { BlankItems(items[1..]); }
  }

  const FOUR_KEYS: seq<Op> := [Put([1, 0], [97]), Put([1, 1], [98]), Put([2, 0], [99]), Put([3, 0], [100])]

  function FourKeys(): (n: Node)
    ensures Wf(n)
  {
    Branch(BlankKids()[1 := ShortBranch()][2 := Leaf([0], [99])][3 := Leaf([0], [100])], BLANK_VALUE)
  }

  lemma FourKeysTree()
    ensures Run(Blank, FOUR_KEYS) == FourKeys()
  {
    var one := Leaf([1, 0], [97]);
    var two := Extension([1], ShortBranch());
    var three := Branch(BlankKids()[1 := ShortBranch()][2 := Leaf([0], [99])], BLANK_VALUE);
    assert CommonLength([1, 0], [1, 1]) == 1;
    assert Update(one, [1, 1], [98]) == two;
    assert CommonLength([1], [2, 0]) == 0;
    assert Update(two, [2, 0], [99]) == three;
    assert Update(three, [3, 0], [100]) == FourKeys();
    var ops := FOUR_KEYS;
    assert ops[1..][1..] == ops[2..] && ops[2..][1..] == ops[3..] && ops[3..][1..] == [];
  }

  lemma FourKeysCanonical()
    ensures Canonical(FourKeys()) && ItemCount(LowKids(FourKeys().kids, 3, Blank), BLANK_VALUE) >= 2
  {
    var kids := BlankKids()[1 := ShortBranch()][2 := Leaf([0], [99])];
    TwoSlots(1, ShortBranch(), 2, Leaf([0], [99]));
    OccupiedUpdate(kids, 3, Leaf([0], [100]));
    assert LowKids(FourKeys().kids, 3, Blank) == kids;
  }

  lemma FourKeysShare(cut: Path, key: Path)
    requires cut == [3, 0] && key == [1, 0]
    ensures KeepsShortBranch(FourKeys(), cut, key)
  {
    FourKeysCanonical();
    ShortBranchInlined();
    assert FourKeys().kids[1] == ShortBranch();
  }

  lemma FourKeysGet(key: Path)
    requires key == [1, 0]
    ensures Get(FourKeys(), key) == [97]
  {
    assert key[1..] == [0] && key[1..][1..] == [];
    assert FourKeys().kids[1] == ShortBranch() && ShortBranch().kids[0] == Leaf([], [97]);
  }

  /** Four keys inserted, a split, and an update of the low part: the first trie object is stale. */
  method SplitMakesStale() returns (t: PersistentTrie, low: PersistentTrie)
    ensures t.tree == Run(Blank, FOUR_KEYS) && t.rootHash == RootHash(t.tree) && !t.Loaded()
  {
    t := new PersistentTrie();
    var ops, cut: Path, key: Path, value: Bytes := FOUR_KEYS, [3, 0], [1, 0], [120];
    var _ := t.Replay(ops);
    FourKeysTree();
    FourKeysShare(cut, key);
    FourKeysGet(key);
    var high;
    low, high := SplitThenUpdate(t, cut, key, value);
  }
}
