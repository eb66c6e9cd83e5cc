/** Nibble paths, byte strings and the list order of the keys (trie.py works on lists of nibbles). */
module Nibbles {

  type Nibble = n: int | 0 <= n < 16
  type Path = seq<Nibble>
  newtype Byte = b: int | 0 <= b < 256
  type Bytes = seq<Byte>

  /** Python's list order `a < b`. */
  predicate Lt(a: Path, b: Path) {
    b != [] && (a == [] || a[0] < b[0] || (a[0] == b[0] && Lt(a[1..], b[1..])))
  }

  /** Length of the longest common prefix, the number every prefix loop of the trie computes. */
  function CommonLength(a: Path, b: Path): (p: nat)
    ensures p <= |a| && p <= |b| && a[..p] == b[..p]
    ensures p < |a| && p < |b| ==> a[p] != b[p]
  {
    if a == [] || b == [] || a[0] != b[0] then 0 else 1 + CommonLength(a[1..], b[1..])
  }

  lemma LtIrreflexive(a: Path)
    ensures !Lt(a, a)
  {
  }

  lemma LtTotal(a: Path, b: Path)
    ensures a == b || Lt(a, b) || Lt(b, a)
    ensures !(Lt(a, b) && Lt(b, a))
  {
  }

  lemma LtTransitive(a: Path, b: Path, c: Path)
    requires Lt(a, b) && Lt(b, c)
    ensures Lt(a, c)
  {
  }

  /** A common prefix does not influence the order. */
  lemma LtPrefix(p: Path, a: Path, b: Path)
    ensures Lt(p + a, p + b) == Lt(a, b)
  {
    if p != [] {
      assert (p + a)[1..] == p[1..] + a && (p + b)[1..] == p[1..] + b;
      LtPrefix(p[1..], a, b);
    } else {
      assert p + a == a && p + b == b;
    }
  }
}
