/** Reference counting of db.py on values: every stored value has a 4-byte counter in front. */
module RefcountValues {
  import opened Nibbles
  import opened Encoding
  import opened Options

  type Dict = map<Bytes, Bytes>

  const LIMIT: nat := 0x1_0000_0000
  const ONE: Bytes := [0, 0, 0, 1]

  // ----- Counters -----

  function Zeros(k: nat): Bytes { seq(k, _ => 0) }

  function ZPad(b: Bytes, length: nat): Bytes { if |b| < length then Zeros(length - |b|) + b else b }

  function Add1(b: Bytes): Bytes { ZPad(BigEndian(FromBigEndian(b) + 1), 4) }

  function Sub1(b: Bytes): Bytes
    requires FromBigEndian(b) > 0
  {
    ZPad(BigEndian(FromBigEndian(b) - 1), 4)
  }

  /** Python's b[:4] and b[4:]. */
  function Counter(stored: Bytes): Bytes { if |stored| < 4 then stored else stored[..4] }
  function Content(stored: Bytes): Bytes { if |stored| < 4 then [] else stored[4..] }

  // ----- Operations; None also stands for the failed assertion of put -----

  function Put(m: Dict, key: Bytes, value: Bytes): Option<Dict> {
    if key !in m then Some(m[key := ONE + value])
    else if Content(m[key]) != value then None
    else Some(m[key := Add1(Counter(m[key])) + value])
  }

  /** A zero counter cannot be decremented (encode_int of a negative number raises). */
  function Delete(m: Dict, key: Bytes): Option<Dict> {
    if key !in m then None
    else if Counter(m[key]) == ONE then Some(m - {key})
    else if FromBigEndian(Counter(m[key])) == 0 then None
    else Some(m[key := Sub1(Counter(m[key])) + Content(m[key])])
  }

  function GetRefcount(m: Dict, key: Bytes): nat { if key in m then FromBigEndian(Counter(m[key])) else 0 }

  // ----- Counters mean numbers -----

  lemma {:induction false} ZerosCountNothing(k: nat, b: Bytes)
    ensures FromBigEndian(Zeros(k) + b) == FromBigEndian(b)
    decreases |b|, k
  {
    var zeros := Zeros(k);
    if b != [] {
      var last := |b| - 1;
      assert (zeros + b)[..|zeros + b| - 1] == zeros + b[..last];
      ZerosCountNothing(k, b[..last]);
    } else if k > 0 {
      assert zeros + b == zeros;
      assert zeros[..k - 1] == Zeros(k - 1) + b;
      ZerosCountNothing(k - 1, b);
    }
  }

  /** A counter below 2^32 takes four bytes and reads back. */
  lemma CounterReads(n: nat)
    requires n < LIMIT
    ensures |ZPad(BigEndian(n), 4)| == 4 && FromBigEndian(ZPad(BigEndian(n), 4)) == n
  {
    assert Pow256(2) == 0x1_0000;
    assert Pow256(4) == LIMIT;
    BigEndianLength(n, 4);
    BigEndianRoundTrip(n);
    ZerosCountNothing(4 - |BigEndian(n)|, BigEndian(n));
  }

  lemma OneReads()
    ensures FromBigEndian(ONE) == 1 && ZPad(BigEndian(1), 4) == ONE
  {
    assert BigEndian(0) == [];
    assert BigEndian(1) == [1];
    assert ONE[..3] == [0, 0, 0];
    assert [0 as Byte, 0, 0][..2] == [0, 0];
    assert [0 as Byte, 0][..1] == [0];
    assert FromBigEndian([]) == 0;
    assert FromBigEndian([0]) == 0;
    assert FromBigEndian([0, 0]) == 0;
    assert FromBigEndian([0, 0, 0]) == 0;
  }

  function Stored(count: nat, value: Bytes): Bytes { ZPad(BigEndian(count), 4) + value }

  lemma StoredReads(count: nat, value: Bytes)
    requires count < LIMIT
    ensures Content(Stored(count, value)) == value && FromBigEndian(Counter(Stored(count, value))) == count
    ensures Counter(Stored(count, value)) == ZPad(BigEndian(count), 4)
    ensures Counter(Stored(count, value)) == ONE <==> count == 1
  {
    CounterReads(count);
    OneReads();
    assert Stored(count, value)[..4] == ZPad(BigEndian(count), 4);
  }

  /** In bytes: four for the count, the first the most significant, then the value. */
  lemma StoredBytes(count: nat, value: Bytes)
    requires count < 0x1_0000_0000
    ensures Stored(count, value) ==
              [(count / 0x100_0000) as Byte, (count / 0x1_0000 % 256) as Byte, (count / 256 % 256) as Byte, (count % 256) as Byte] + value
  {
    CounterReads(count);
    FourBytes(ZPad(BigEndian(count), 4));
  }

  lemma FourBytes(b: Bytes)
    requires |b| == 4
    ensures FromBigEndian(b) == 0x100_0000 * b[0] as nat + 0x1_0000 * b[1] as nat + 256 * b[2] as nat + b[3] as nat
  {
    var c, d, e := b[..3], b[..2], b[..1];
    assert b[..3] == c && c[..2] == d && d[..1] == e && e[..0] == [];
    assert FromBigEndian([]) == 0;
    assert FromBigEndian(e) == 256 * FromBigEndian([]) + b[0] as nat;
    assert FromBigEndian(d) == 256 * FromBigEndian(e) + b[1] as nat;
    assert FromBigEndian(c) == 256 * FromBigEndian(d) + b[2] as nat;
    assert FromBigEndian(b) == 256 * FromBigEndian(c) + b[3] as nat;
  }

  // ----- The multiset that is counted -----

  type Counts = map<Bytes, int>

  function CountIn(counts: Counts, key: Bytes): int { if key in counts then counts[key] else 0 }

  /** The store holds these counts, all positive and below the limit, of content-addressed values. */
  ghost predicate Represents(m: Dict, counts: Counts, content: Bytes -> Bytes) {
    && m.Keys == counts.Keys
    && forall k :: k in m ==> 0 < counts[k] < LIMIT && m[k] == Stored(counts[k], content(k))
  }

  lemma RepresentedReads(m: Dict, counts: Counts, content: Bytes -> Bytes, key: Bytes)
    requires Represents(m, counts, content)
    ensures GetRefcount(m, key) == CountIn(counts, key) && (key in m <==> CountIn(counts, key) > 0)
    ensures key in m ==> Content(m[key]) == content(key)
  {
    if key in m { StoredReads(counts[key], content(key)); }
  }

  lemma PutStores(m: Dict, counts: Counts, content: Bytes -> Bytes, key: Bytes)
    requires Represents(m, counts, content)
    ensures Put(m, key, content(key)) == Some(m[key := Stored(CountIn(counts, key) + 1, content(key))])
  {
    if key in m { StoredReads(counts[key], content(key)); }
    OneReads();
  }

  lemma PutCounts(m: Dict, counts: Counts, content: Bytes -> Bytes, key: Bytes)
    requires Represents(m, counts, content) && CountIn(counts, key) + 1 < LIMIT
    ensures Put(m, key, content(key)).Some?
    ensures Represents(Put(m, key, content(key)).value, counts[key := CountIn(counts, key) + 1], content)
  {
    PutStores(m, counts, content, key);
  }

  lemma DeleteCounts(m: Dict, counts: Counts, content: Bytes -> Bytes, key: Bytes)
    requires Represents(m, counts, content)
    ensures Delete(m, key).Some? <==> CountIn(counts, key) > 0
    ensures Delete(m, key).Some? ==>
              Represents(Delete(m, key).value, if counts[key] == 1 then counts - {key} else counts[key := counts[key] - 1], content)
  {
    if key in m { StoredReads(counts[key], content(key)); }
  }

  /** At the limit the counter takes a fifth byte, which shifts into the value: the value read is
      wrong, the count too, and the next put of the same content fails. */
  lemma PutAtLimitBreaks(m: Dict, counts: Counts, content: Bytes -> Bytes, key: Bytes)
    requires Represents(m, counts, content) && CountIn(counts, key) == LIMIT - 1
    ensures Put(m, key, content(key)).Some?
    ensures var r := Put(m, key, content(key)).value;
      && Content(r[key]) == [0] + content(key) && GetRefcount(r, key) == 0x100_0000
      && Put(r, key, content(key)) == None
  {
    StoredReads(counts[key], content(key));
    LimitCounter();
    ShiftedReads(content(key));
  }

  /** Five bytes of counter in front of a value, read as four. */
  lemma ShiftedReads(value: Bytes)
    ensures var stored: Bytes := [1, 0, 0, 0, 0] + value;
      Counter(stored) == [1, 0, 0, 0] && Content(stored) == [0] + value && Content(stored) != value
  {
  }

  lemma LimitCounter()
    ensures ZPad(BigEndian(LIMIT), 4) == [1, 0, 0, 0, 0] && FromBigEndian([1, 0, 0, 0]) == 0x100_0000
  {
    assert BigEndian(1) == BigEndian(0) + [1];
    assert BigEndian(0x100) == [1, 0];
    assert BigEndian(0x1_0000) == [1, 0, 0];
    assert BigEndian(0x100_0000) == [1, 0, 0, 0];
    assert BigEndian(LIMIT) == [1, 0, 0, 0, 0];
    BigEndianRoundTrip(0x100_0000);
  }

  // ----- Runs -----

  datatype DbOp = PutOp(key: Bytes) | DeleteOp(key: Bytes)

  /** A run of puts of content-addressed values and deletes, up to the first exception. */
  ghost function RunDb(m: Dict, content: Bytes -> Bytes, ops: seq<DbOp>): Option<Dict>
    decreases |ops|
  {
    if ops == [] then Some(m)
    else
      var next := if ops[0].PutOp? then Put(m, ops[0].key, content(ops[0].key)) else Delete(m, ops[0].key);
      if next.Some? then RunDb(next.value, content, ops[1..]) else None
  }

  function Puts(ops: seq<DbOp>, key: Bytes): nat
    decreases |ops|
  {
    if ops == [] then 0 else (if ops[0] == PutOp(key) then 1 else 0) + Puts(ops[1..], key)
  }

  function Deletes(ops: seq<DbOp>, key: Bytes): nat
    decreases |ops|
  {
    if ops == [] then 0 else (if ops[0] == DeleteOp(key) then 1 else 0) + Deletes(ops[1..], key)
  }

  /** No count passes the limit on the way, and nothing absent is deleted. */
  predicate InBounds(counts: Counts, ops: seq<DbOp>) {
    forall n, key :: 0 <= n <= |ops| && key in Touched(ops) ==>
      0 <= CountIn(counts, key) + Puts(ops[..n], key) - Deletes(ops[..n], key) < LIMIT
  }

  function Touched(ops: seq<DbOp>): set<Bytes> { set op | op in ops :: op.key }

  lemma {:induction false} PutsStep(ops: seq<DbOp>, n: nat, key: Bytes)
    requires 0 < n <= |ops|
    ensures Puts(ops[..n], key) == (if ops[0] == PutOp(key) then 1 else 0) + Puts(ops[1..][..n - 1], key)
    ensures Deletes(ops[..n], key) == (if ops[0] == DeleteOp(key) then 1 else 0) + Deletes(ops[1..][..n - 1], key)
  {
    assert ops[..n][1..] == ops[1..][..n - 1];
  }

  function AfterOp(counts: Counts, op: DbOp): Counts
    requires op.DeleteOp? ==> CountIn(counts, op.key) > 0
  {
    if op.PutOp? then counts[op.key := CountIn(counts, op.key) + 1]
    else if counts[op.key] == 1 then counts - {op.key}
    else counts[op.key := counts[op.key] - 1]
  }

  lemma InBoundsStep(counts: Counts, ops: seq<DbOp>)
    requires ops != [] && InBounds(counts, ops)
    ensures ops[0].PutOp? ==> CountIn(counts, ops[0].key) + 1 < LIMIT
    ensures ops[0].DeleteOp? ==> CountIn(counts, ops[0].key) > 0
    ensures InBounds(AfterOp(counts, ops[0]), ops[1..])
  {
    var key := ops[0].key;
    assert key in Touched(ops);
    PutsStep(ops, 1, key);
    assert ops[1..][..0] == [];
    assert 0 <= CountIn(counts, key) + Puts(ops[..1], key) - Deletes(ops[..1], key) < LIMIT;
    forall n, k | 0 <= n <= |ops| - 1 && k in Touched(ops[1..])
      ensures 0 <= CountIn(AfterOp(counts, ops[0]), k) + Puts(ops[1..][..n], k) - Deletes(ops[1..][..n], k) < LIMIT
    {
      assert k in Touched(ops);
      PutsStep(ops, n + 1, k);
    }
  }

  lemma CountsStep(counts: Counts, ops: seq<DbOp>, key: Bytes)
    requires ops != [] && (ops[0].DeleteOp? ==> CountIn(counts, ops[0].key) > 0)
    ensures CountIn(AfterOp(counts, ops[0]), key) + Puts(ops[1..], key) - Deletes(ops[1..], key)
         == CountIn(counts, key) + Puts(ops, key) - Deletes(ops, key)
  {
  }

  /** Over a run within bounds every count is the initial count plus puts minus deletes, a key is
      present exactly while its count is positive, and every value is intact. */
  lemma {:induction false} RunCounts(m: Dict, counts: Counts, content: Bytes -> Bytes, ops: seq<DbOp>)
    requires Represents(m, counts, content) && InBounds(counts, ops)
    ensures RunDb(m, content, ops).Some?
    ensures var r := RunDb(m, content, ops).value;
      && (forall k :: GetRefcount(r, k) == CountIn(counts, k) + Puts(ops, k) - Deletes(ops, k))
      && (forall k :: k in r <==> GetRefcount(r, k) > 0)
      && (forall k :: k in r ==> Content(r[k]) == content(k))
    decreases |ops|
  {
    if ops == [] {
      forall k ensures GetRefcount(m, k) == CountIn(counts, k) && (k in m <==> GetRefcount(m, k) > 0)
          && (k in m ==> Content(m[k]) == content(k)) {
        RepresentedReads(m, counts, content, k);
      }
    } else {
      InBoundsStep(counts, ops);
      if ops[0].PutOp? { PutCounts(m, counts, content, ops[0].key); } else { DeleteCounts(m, counts, content, ops[0].key); }
      var next := if ops[0].PutOp? then Put(m, ops[0].key, content(ops[0].key)) else Delete(m, ops[0].key);
      RunCounts(next.value, AfterOp(counts, ops[0]), content, ops[1..]);
      forall k { CountsStep(counts, ops, k); }
    }
  }
}
