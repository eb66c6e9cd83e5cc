/** The two encodings of trie.py: hex-prefix for nibble paths (Yellow Paper Appendix C) and RLP for
    nodes (Appendix B). */
module Encoding {
  import opened Nibbles

  // ----- Bytes and nibbles -----

  function BinToNibbles(s: Bytes): (r: Path)
    ensures |r| == 2 * |s|
  {
    if s == [] then []
    else
      var b: int := s[0] as int;
      var high: int, low: int := b / 16, b % 16;
      [high, low] + BinToNibbles(s[1..])
  }

  function PairByte(high: int, low: int): Byte
    requires 0 <= high < 16 && 0 <= low < 16
  {
    (16 * high + low) as Byte
  }

  lemma PairSplit(high: int, low: int)
    requires 0 <= high < 16 && 0 <= low < 16
    ensures PairByte(high, low) as int / 16 == high && PairByte(high, low) as int % 16 == low
  {
  }

  function NibblesToBin(p: Path): Bytes
    requires |p| % 2 == 0
  {
    if p == [] then [] else [PairByte(p[0], p[1])] + NibblesToBin(p[2..])
  }

  lemma {:induction false} BinRoundTrip(s: Bytes)
    ensures NibblesToBin(BinToNibbles(s)) == s
  {
    if s != [] {
      BinRoundTrip(s[1..]);
      assert BinToNibbles(s)[2..] == BinToNibbles(s[1..]);
    }
  }

  lemma {:induction false} NibblesRoundTrip(p: Path)
    requires |p| % 2 == 0
    ensures BinToNibbles(NibblesToBin(p)) == p
  {
    if p != [] {
      PairSplit(p[0], p[1]);
      NibblesRoundTrip(p[2..]);
      assert NibblesToBin(p)[1..] == NibblesToBin(p[2..]);
      assert p == [p[0], p[1]] + p[2..];
    }
  }

  /** Python's order on byte strings. */
  predicate BytesLt(a: Bytes, b: Bytes) {
    b != [] && (a == [] || a[0] < b[0] || (a[0] == b[0] && BytesLt(a[1..], b[1..])))
  }

  /** The nibble order is the byte order. */
  lemma {:induction false} OrderKept(a: Bytes, b: Bytes)
    ensures Lt(BinToNibbles(a), BinToNibbles(b)) <==> BytesLt(a, b)
  {
    if a != [] && b != [] {
      var x, y := BinToNibbles(a), BinToNibbles(b);
      assert x[1..][1..] == BinToNibbles(a[1..]) && y[1..][1..] == BinToNibbles(b[1..]);
      OrderKept(a[1..], b[1..]);
    }
  }

  // ----- Hex-prefix -----

  /** The nibble list with the flags in front, of even length. */
  function Flagged(path: Path, terminated: bool): (r: Path)
    ensures |r| % 2 == 0 && |r| > 0
  {
    var oddLength: int := |path| % 2;
    var flags: int := if terminated then 2 + oddLength else oddLength;
    if |path| % 2 == 1 then [flags] + path else [flags, 0] + path
  }

  function Pack(path: Path, terminated: bool): Bytes {
    NibblesToBin(Flagged(path, terminated))
  }

  /** The bytes from pair j on. */
  function FromPair(p: Path, j: nat): Bytes
    requires |p| % 2 == 0 && 2 * j <= |p|
  {
    NibblesToBin(p[2 * j..])
  }

  lemma NextPair(p: Path, j: nat)
    requires |p| % 2 == 0 && 2 * j < |p|
    ensures FromPair(p, j) == [PairByte(p[2 * j], p[2 * j + 1])] + FromPair(p, j + 1)
  {
  }

  /** `pack_nibbles`: the loop joins the nibbles pairwise. */
  method PackNibbles(path: Path, terminated: bool) returns (o: Bytes)
    ensures o == Pack(path, terminated)
  {
    var nibbles := Flagged(path, terminated);
    o := [];
    var i := 0;
    ghost var j := 0;
    while i < |nibbles|
      invariant i == 2 * j <= |nibbles| && o + FromPair(nibbles, j) == NibblesToBin(nibbles)
    {
      NextPair(nibbles, j);
      o := o + [PairByte(nibbles[i], nibbles[i + 1])];
      i, j := i + 2, j + 1;
    }
  }

  /** `unpack_to_nibbles`, for a non-empty byte string as in every stored node. */
  function Unpack(b: Bytes): (Path, bool)
    requires b != []
  {
    var o := BinToNibbles(b);
    (if o[0] % 2 == 1 then o[1..] else o[2..], o[0] / 2 % 2 == 1)
  }

  /** A byte string that `pack_nibbles` can produce. */
  predicate IsHexPrefix(b: Bytes) {
    b != [] && b[0] < 64 && (b[0] as int / 16 % 2 == 0 ==> b[0] % 16 == 0)
  }

  lemma {:induction false} UnpackPack(path: Path, terminated: bool)
    ensures Pack(path, terminated) != [] && IsHexPrefix(Pack(path, terminated))
    ensures Unpack(Pack(path, terminated)) == (path, terminated)
  {
    NibblesRoundTrip(Flagged(path, terminated));
  }

  /** Packing undoes unpacking on exactly the byte strings in the form of Appendix C. */
  lemma {:induction false} PackUnpack(b: Bytes)
    requires b != []
    ensures Pack(Unpack(b).0, Unpack(b).1) == b <==> IsHexPrefix(b)
  {
    UnpackPack(Unpack(b).0, Unpack(b).1);
    BinRoundTrip(b);
    if IsHexPrefix(b) { FlaggedAgain(b); }
  }

  lemma FlaggedAgain(b: Bytes)
    requires IsHexPrefix(b)
    ensures Flagged(Unpack(b).0, Unpack(b).1) == BinToNibbles(b)
  {
    var o := BinToNibbles(b);
    assert o[0] < 4 && o[0] == b[0] as int / 16 && o[1] == b[0] as int % 16;
  }

  lemma PackInjective(p: Path, s: bool, q: Path, t: bool)
    ensures Pack(p, s) == Pack(q, t) <==> p == q && s == t
  {
    UnpackPack(p, s);
    UnpackPack(q, t);
  }

  // ----- RLP -----

  datatype Item = Str(bytes: Bytes) | List(items: seq<Item>)

  /** `int_to_big_endian`: no leading zeros. */
  function BigEndian(n: nat): Bytes {
    if n == 0 then [] else BigEndian(n / 256) + [(n % 256) as Byte]
  }

  function FromBigEndian(b: Bytes): nat {
    if b == [] then 0 else 256 * FromBigEndian(b[..|b| - 1]) + b[|b| - 1] as nat
  }

  const TWO_64: nat := 0x1_0000_0000_0000_0000

  lemma {:induction false} BigEndianRoundTrip(n: nat)
    ensures FromBigEndian(BigEndian(n)) == n
  {
    if n != 0 {
      BigEndianRoundTrip(n / 256);
      assert BigEndian(n)[..|BigEndian(n)| - 1] == BigEndian(n / 256);
    }
  }

  /** Numbers are written without leading zeros, and every byte string without them is a number. */
  lemma {:induction false} NoLeadingZero(n: nat)
    ensures n > 0 ==> BigEndian(n) != [] && BigEndian(n)[0] != 0
  {
    if n >= 256 { NoLeadingZero(n / 256); }
  }

  lemma {:induction false} BigEndianBack(b: Bytes)
    requires b != [] ==> b[0] != 0
    ensures BigEndian(FromBigEndian(b)) == b && (b != [] ==> FromBigEndian(b) > 0)
  {
    if b != [] { BigEndianBack(b[..|b| - 1]); }
  }

  /** The first bytes count most: each of them 256 times as much as the next. */
  lemma {:induction false} FirstBytesCountMost(a: Bytes, b: Bytes)
    ensures FromBigEndian(a + b) == FromBigEndian(a) * Pow256(|b|) + FromBigEndian(b)
    decreases |b|
  {
    if b == [] {
      assert a + b == a;
    } else {
      var last := |b| - 1;
      assert (a + b)[..|a + b| - 1] == a + b[..last];
      FirstBytesCountMost(a, b[..last]);
      OneByteMore(FromBigEndian(a), Pow256(last), FromBigEndian(b[..last]), b[last] as nat);
    }
  }

  lemma OneByteMore(x: nat, p: nat, y: nat, d: nat)
    ensures 256 * (x * p + y) + d == x * (256 * p) + (256 * y + d)
  {
  }

  lemma {:induction false} BelowPower(b: Bytes)
    ensures FromBigEndian(b) < Pow256(|b|)
  {
    if b != [] { BelowPower(b[..|b| - 1]); }
  }

  function Pow256(k: nat): nat { if k == 0 then 1 else 256 * Pow256(k - 1) }

  lemma {:induction false} BigEndianLength(n: nat, k: nat)
    requires n < Pow256(k)
    ensures |BigEndian(n)| <= k && (n > 0 ==> |BigEndian(n)| > 0)
  {
    if n != 0 { BigEndianLength(n / 256, k - 1); }
  }

  lemma LengthOfLength(n: nat)
    requires 0 < n < TWO_64
    ensures 1 <= |BigEndian(n)| <= 8
  {
    assert Pow256(2) == 0x1_0000;
    assert Pow256(4) == 0x1_0000_0000;
    assert Pow256(8) == TWO_64;
    BigEndianLength(n, 8);
  }

  /** `length_prefix`; a longer payload would need a prefix byte out of range. */
  function LengthPrefix(length: nat, offset: nat): (r: Bytes)
    requires (offset == 128 || offset == 192) && length < TWO_64
    ensures r != []
  {
    if length < 56 then [(offset + length) as Byte]
    else
      LengthOfLength(length);
      [(offset + 55 + |BigEndian(length)|) as Byte] + BigEndian(length)
  }

  function PrefixLength(length: nat): nat {
    if length < 56 then 1 else 1 + |BigEndian(length)|
  }

  /** The length of the encoding, computed without encoding. */
  function Length(item: Item): nat {
    match item
    case Str(s) => if |s| == 1 && s[0] < 128 then 1 else PrefixLength(|s|) + |s|
    case List(items) => PrefixLength(PayloadLength(items)) + PayloadLength(items)
  }

  function PayloadLength(items: seq<Item>): nat {
    if items == [] then 0 else Length(items[0]) + PayloadLength(items[1..])
  }

  /** All payloads, of the item and of everything inside it, are shorter than 2^64. */
  predicate Fits(item: Item) {
    match item
    case Str(s) => |s| < TWO_64
    case List(items) => (forall i :: 0 <= i < |items| ==> Fits(items[i])) && PayloadLength(items) < TWO_64
  }

  function EncodeOptimized(item: Item): (r: Bytes)
    requires Fits(item)
    ensures r != [] && |r| == Length(item)
  {
    match item
    case Str(s) => if |s| == 1 && s[0] < 128 then s else LengthPrefix(|s|, 128) + s
    case List(items) =>
      var payload := Payload(items);
      LengthPrefix(|payload|, 192) + payload
  }

  function Payload(items: seq<Item>): (r: Bytes)
    requires forall i :: 0 <= i < |items| ==> Fits(items[i])
    ensures |r| == PayloadLength(items)
  {
    if items == [] then [] else EncodeOptimized(items[0]) + Payload(items[1..])
  }

  // ----- A strict decoder, the inverse -----

  datatype Decoded = Failed | Done(item: Item, rest: Bytes)
  datatype DecodedAll = AllFailed | AllDone(items: seq<Item>)

  /** The payload announced by a prefix byte beyond `offset`, and what follows it. Lengths below 56 must
      be in the prefix byte, longer ones without leading zeros. */
  function TakePayload(b: Bytes, offset: nat): (r: (bool, Bytes, Bytes))
    requires b != [] && offset <= b[0] as nat < offset + 64
    ensures r.0 ==> |r.1| < |b| && |r.2| < |b|
  {
    var code := b[0] as nat - offset;
    if code < 56 then
      if 1 + code <= |b| then (true, b[1..1 + code], b[1 + code..]) else (false, [], [])
    else
      var k := code - 55;
      if 1 + k > |b| || b[1] == 0 then (false, [], [])
      else
        var n := FromBigEndian(b[1..1 + k]);
        if 56 <= n && 1 + k + n <= |b| then (true, b[1 + k..1 + k + n], b[1 + k + n..]) else (false, [], [])
  }

  function Decode(b: Bytes): (r: Decoded)
    ensures r.Done? ==> |r.rest| < |b|
    decreases |b|, 1
  {
    if b == [] then Failed
    else if b[0] < 128 then Done(Str(b[..1]), b[1..])
    else if b[0] < 192 then
      var (ok, payload, rest) := TakePayload(b, 128);
      if ok && !(|payload| == 1 && payload[0] < 128) then Done(Str(payload), rest) else Failed
    else
      var (ok, payload, rest) := TakePayload(b, 192);
      if !ok then Failed
      else
        match DecodeAll(payload)
        case AllDone(items) => Done(List(items), rest)
        case AllFailed => Failed
  }

  function DecodeAll(b: Bytes): DecodedAll
    decreases |b|, 2
  {
    if b == [] then AllDone([])
    else
      match Decode(b)
      case Failed => AllFailed
      case Done(item, rest) =>
        match DecodeAll(rest)
        case AllFailed => AllFailed
        case AllDone(items) => AllDone([item] + items)
  }

  lemma TakePrefixed(payload: Bytes, offset: nat, rest: Bytes)
    requires (offset == 128 || offset == 192) && |payload| < TWO_64
    ensures var b := LengthPrefix(|payload|, offset) + payload + rest;
      && offset <= b[0] as nat < offset + 64 && TakePayload(b, offset) == (true, payload, rest)
  {
    var prefix := LengthPrefix(|payload|, offset);
    PrefixReads(|payload|, offset);
    Slices(prefix, payload, rest);
  }

  lemma PrefixReads(length: nat, offset: nat)
    requires (offset == 128 || offset == 192) && length < TWO_64
    ensures var prefix := LengthPrefix(length, offset); var code := prefix[0] as nat - offset;
      && 0 <= code < 64
      && if code < 56 then code == length && |prefix| == 1
         else |prefix| == code - 54 && prefix[1] != 0 && length >= 56 && FromBigEndian(prefix[1..]) == length
  {
    if length >= 56 {
      LengthOfLength(length);
      BigEndianRoundTrip(length);
      NoLeadingZero(length);
    }
  }

  lemma Slices(prefix: Bytes, payload: Bytes, rest: Bytes)
    requires prefix != []
    ensures var b := prefix + payload + rest; var n := |prefix|;
      && b[0] == prefix[0] && b[1..n] == prefix[1..] && b[n..n + |payload|] == payload && b[n + |payload|..] == rest
  {
    var b := prefix + payload + rest;
    assert b == prefix + (payload + rest);
    assert b[..|prefix|] == prefix && b[|prefix|..] == payload + rest;
    assert b[1..|prefix|] == b[..|prefix|][1..];
  }

  /** Decoding gives back the item and whatever follows it. */
  lemma {:induction false} DecodeEncode(item: Item, rest: Bytes)
    requires Fits(item)
    ensures Decode(EncodeOptimized(item) + rest) == Done(item, rest)
    decreases item
  {
    match item
    case Str(s) =>
      if |s| == 1 && s[0] < 128 {
        assert (s + rest)[..1] == s && (s + rest)[1..] == rest;
      } else {
        TakePrefixed(s, 128, rest);
      }
    case List(items) =>
      TakePrefixed(Payload(items), 192, rest);
      DecodePayload(items);
  }

  lemma {:induction false} DecodePayload(items: seq<Item>)
    requires forall i :: 0 <= i < |items| ==> Fits(items[i])
    ensures DecodeAll(Payload(items)) == AllDone(items)
    decreases items
  {
    if items != [] {
      DecodeEncode(items[0], Payload(items[1..]));
      DecodePayload(items[1..]);
      assert items == [items[0]] + items[1..];
    }
  }

  lemma PrefixTaken(b: Bytes, offset: nat)
    requires b != [] && (offset == 128 || offset == 192) && offset <= b[0] as nat < offset + 64 && TakePayload(b, offset).0
    ensures var (_, payload, rest) := TakePayload(b, offset);
      |payload| < TWO_64 && b == LengthPrefix(|payload|, offset) + payload + rest
  {
    var (_, payload, rest) := TakePayload(b, offset);
    var code := b[0] as nat - offset;
    if code >= 56 { LongTaken(b, offset, code - 55, |payload|); } else { ShortTaken(b, offset, code); }
  }

  lemma ShortTaken(b: Bytes, offset: nat, n: nat)
    requires (offset == 128 || offset == 192) && n < 56 && 1 + n <= |b| && b[0] as nat == offset + n
    ensures b == LengthPrefix(n, offset) + b[1..1 + n] + b[1 + n..]
  {
    ThreeParts(b, 1, 1 + n);
  }

  lemma LongTaken(b: Bytes, offset: nat, k: nat, n: nat)
    requires (offset == 128 || offset == 192) && 1 <= k <= 8 && 1 + k + n <= |b| && b[0] as nat == offset + 55 + k
    requires b[1] != 0 && n == FromBigEndian(b[1..1 + k]) >= 56
    ensures n < TWO_64 && b == LengthPrefix(n, offset) + b[1 + k..1 + k + n] + b[1 + k + n..]
  {
    LongPrefix(b[0], b[1..1 + k], offset);
    ThreeParts(b, 1 + k, 1 + k + n);
    assert b[..1 + k] == [b[0]] + b[1..1 + k];
  }

  lemma ThreeParts(b: Bytes, i: nat, j: nat)
    requires i <= j <= |b|
    ensures b == b[..i] + b[i..j] + b[j..]
  {
  }

  lemma LongPrefix(first: Byte, length: Bytes, offset: nat)
    requires offset == 128 || offset == 192
    requires 0 < |length| <= 8 && length[0] != 0 && first as nat == offset + 55 + |length|
    ensures var n := FromBigEndian(length);
      n < TWO_64 && (56 <= n ==> LengthPrefix(n, offset) == [first] + length)
  {
    EightBytes(length);
    BigEndianBack(length);
  }

  lemma EightBytes(b: Bytes)
    requires |b| <= 8
    ensures FromBigEndian(b) < TWO_64
  {
    BelowPower(b);
    PowerGrows(|b|, 8);
    assert Pow256(2) == 0x1_0000 && Pow256(4) == 0x1_0000_0000 && Pow256(8) == TWO_64;
  }

  lemma {:induction false} PowerGrows(j: nat, k: nat)
    requires j <= k
    ensures Pow256(j) <= Pow256(k)
    decreases k - j
  {
    if j < k { PowerGrows(j + 1, k); }
  }

  /** The decoder takes nothing but encodings. */
  lemma {:induction false} EncodeDecode(b: Bytes)
    requires Decode(b).Done?
    ensures Fits(Decode(b).item) && EncodeOptimized(Decode(b).item) + Decode(b).rest == b
    decreases |b|, 1
  {
    if b[0] < 128 {
      assert b == b[..1] + b[1..];
    } else if b[0] < 192 {
      PrefixTaken(b, 128);
    } else {
      PrefixTaken(b, 192);
      EncodeDecodeAll(TakePayload(b, 192).1);
    }
  }

  lemma {:induction false} EncodeDecodeAll(b: Bytes)
    requires DecodeAll(b).AllDone?
    ensures (forall i :: 0 <= i < |DecodeAll(b).items| ==> Fits(DecodeAll(b).items[i])) && Payload(DecodeAll(b).items) == b
    decreases |b|, 2
  {
    if b != [] {
      var item, rest := Decode(b).item, Decode(b).rest;
      EncodeDecode(b);
      EncodeDecodeAll(rest);
      assert ([item] + DecodeAll(rest).items)[1..] == DecodeAll(rest).items;
    }
  }

  /** A byte string is the encoding of an item, and something more, exactly if it decodes to that. */
  lemma DecodesExactly(b: Bytes, item: Item, rest: Bytes)
    ensures Decode(b) == Done(item, rest) <==> Fits(item) && b == EncodeOptimized(item) + rest
  {
    if Decode(b) == Done(item, rest) { EncodeDecode(b); }
    if Fits(item) && b == EncodeOptimized(item) + rest { DecodeEncode(item, rest); }
  }

  lemma PairPayload(x: Item, y: Item)
    requires Fits(x) && Fits(y)
    ensures PayloadLength([x, y]) == Length(x) + Length(y) && Payload([x, y]) == EncodeOptimized(x) + EncodeOptimized(y)
  {
    assert [x, y][1..] == [y] && [y][1..] == [];
    assert Payload([]) == [] && Payload([y]) == EncodeOptimized(y);
  }

  /** RLP is injective, and no encoding is a proper prefix of another. */
  lemma EncodingInjective(x: Item, y: Item, s: Bytes, t: Bytes)
    requires Fits(x) && Fits(y)
    ensures EncodeOptimized(x) + s == EncodeOptimized(y) + t <==> x == y && s == t
    ensures EncodeOptimized(x) == EncodeOptimized(y) <==> x == y
  {
    DecodeEncode(x, s);
    DecodeEncode(y, t);
    DecodeEncode(x, []);
    DecodeEncode(y, []);
  }

  // ----- The two appendices, in numbers -----

  /** Appendix B for strings: a single byte below 128 is its own encoding; others up to 55 bytes have one
      byte in front, 128 plus the length; longer ones 183 plus the length of the length, and the length. */
  lemma AppendixBStrings(s: Bytes)
    requires |s| < 0x1_0000_0000_0000_0000
    ensures |s| == 1 && s[0] < 128 ==> EncodeOptimized(Str(s)) == s
    ensures |s| <= 55 && !(|s| == 1 && s[0] < 128) ==> EncodeOptimized(Str(s)) == [(128 + |s|) as Byte] + s
    ensures |s| > 55 ==>
              var n := BigEndian(|s|); 1 <= |n| <= 8 && EncodeOptimized(Str(s)) == [(183 + |n|) as Byte] + n + s
  {
    if |s| > 55 { LengthOfLength(|s|); }
  }

  /** And for lists, whose prefix bytes are 64 higher. */
  lemma AppendixBLists(items: seq<Item>, p: Bytes)
    requires Fits(List(items)) && p == Payload(items)
    ensures |p| <= 55 ==> EncodeOptimized(List(items)) == [(192 + |p|) as Byte] + p
    ensures |p| > 55 ==>
              var n := BigEndian(|p|); 1 <= |n| <= 8 && EncodeOptimized(List(items)) == [(247 + |n|) as Byte] + n + p
  {
    if |p| > 55 { LengthOfLength(|p|); }
  }

  /** Appendix C: the first nibble is 2 for a leaf, plus 1 for an odd length, followed by a zero nibble for
      an even one. Of the nibbles of a byte the high one comes first. */
  lemma AppendixC(path: Path, leaf: bool, b: Byte)
    ensures var p := BinToNibbles(Pack(path, leaf));
      if |path| % 2 == 1 then p == [if leaf then 3 else 1] + path else p == [if leaf then 2 else 0, 0] + path
    ensures var high: int, low: int := b as int / 16, b as int % 16; BinToNibbles([b]) == [high, low]
  {
    NibblesRoundTrip(Flagged(path, leaf));
  }
}
