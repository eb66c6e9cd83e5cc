/** IP addresses as bit strings and networks as their common prefixes, with zero host bits. */
module Networks {

  /** An address: 32 bits for IPv4, 128 bits for IPv6. */
  type Ip = seq<bool>

  /** A network: the bits its addresses share, and how many bits follow. */
  datatype Net = Net(bits: seq<bool>, hostBits: nat) {
    function Width(): nat { |bits| + hostBits }

    predicate Contains(ip: Ip) { |ip| == Width() && bits <= ip }
  }

  lemma OneBitMore(bits: seq<bool>, ip: Ip)
    requires |bits| < |ip|
    ensures bits <= ip <==> bits + [false] <= ip || bits + [true] <= ip
  {
    var n := |bits|;
    assert bits <= ip ==> ip[..n + 1] == bits + [ip[n]];
    forall b ensures bits + [b] <= ip <==> bits <= ip && ip[n] == b {
      if bits + [b] <= ip {
        assert (bits + [b])[..n] == bits && (bits + [b])[n] == b;
        assert ip[..n + 1] == bits + [b] && ip[..n] == ip[..n + 1][..n];
      }
    }
    assert ip[n] == false || ip[n] == true;
  }

  /** All addresses of a given width that start with the given bits. */
  function Extensions(width: nat, bits: seq<bool>): (s: set<Ip>)
    requires |bits| <= width
    ensures forall ip :: ip in s <==> |ip| == width && bits <= ip
    decreases width - |bits|
  {
    if |bits| == width then
      assert forall ip: Ip :: |ip| == width && bits <= ip ==> ip == bits;
      {bits}
    else
      assert forall ip: Ip :: |ip| == width ==> (bits <= ip <==> bits + [false] <= ip || bits + [true] <= ip) by {
        forall ip: Ip | |ip| == width { OneBitMore(bits, ip); }
      }
      Extensions(width, bits + [false]) + Extensions(width, bits + [true])
  }

  /** The address set of a network. */
  function Members(net: Net): (s: set<Ip>)
    ensures forall ip :: ip in s <==> net.Contains(ip)
    ensures s != {}
  {
    var s := Extensions(net.Width(), net.bits);
    assert net.bits + seq(net.hostBits, _ => false) in s;
    s
  }

  function Power2(k: nat): nat { if k == 0 then 1 else 2 * Power2(k - 1) }

  /** A network with k host bits has 2^k addresses. */
  lemma MembersCount(net: Net)
    ensures |Members(net)| == Power2(net.hostBits)
  {
    ExtensionsCount(net.Width(), net.bits);
  }

  lemma {:induction false} ExtensionsCount(width: nat, bits: seq<bool>)
    requires |bits| <= width
    ensures |Extensions(width, bits)| == Power2(width - |bits|)
    decreases width - |bits|
  {
    if |bits| < width {
      var low, high := Extensions(width, bits + [false]), Extensions(width, bits + [true]);
      ExtensionsCount(width, bits + [false]);
      ExtensionsCount(width, bits + [true]);
      HalvesApart(bits, low, high);
      ExtensionsSplit(width, bits);
    }
  }

  lemma ExtensionsSplit(width: nat, bits: seq<bool>)
    requires |bits| < width
    ensures Extensions(width, bits) == Extensions(width, bits + [false]) + Extensions(width, bits + [true])
  {
  }

  lemma HalvesApart(bits: seq<bool>, low: set<Ip>, high: set<Ip>)
    requires forall ip :: ip in low ==> bits + [false] <= ip
    requires forall ip :: ip in high ==> bits + [true] <= ip
    ensures |low + high| == |low| + |high|
  {
    forall ip | ip in low ensures |ip| > |bits| && !ip[|bits|] { assert ip[|bits|] == (bits + [false])[|bits|]; }
    forall ip | ip in high ensures |ip| > |bits| && ip[|bits|] { assert ip[|bits|] == (bits + [true])[|bits|]; }
    assert low !! high;
  }

  /** One network lies in another exactly if the widths agree and its bits continue the other's. */
  lemma SubnetMeans(a: Net, b: Net)
    ensures Members(a) <= Members(b) <==> a.Width() == b.Width() && b.bits <= a.bits
  {
    var n := |a.bits|;
    if a.Width() == b.Width() && b.bits <= a.bits {
      forall ip | ip in Members(a) ensures ip in Members(b) { assert ip[..|b.bits|] == a.bits[..|b.bits|]; }
    } else {
      var last := n < |b.bits| && !b.bits[n];
      var ip := a.bits + seq(a.hostBits, _ => last);
      assert ip in Members(a) && ip[..n] == a.bits;
      if n < |b.bits| && a.Width() == b.Width() { assert ip[n] == last; } else if b.bits <= ip { assert ip[..|b.bits|] == a.bits[..|b.bits|]; }
      assert ip !in Members(b);
    }
  }

  /** Of two networks one lies in the other, or they have no address in common. */
  lemma NestedOrDisjoint(a: Net, b: Net)
    ensures Members(a) <= Members(b) || Members(b) <= Members(a) || Members(a) !! Members(b)
  {
    SubnetMeans(a, b);
    SubnetMeans(b, a);
    if ip :| ip in Members(a) && ip in Members(b) {
      if |a.bits| <= |b.bits| { assert a.bits == ip[..|b.bits|][..|a.bits|]; } else { assert b.bits == ip[..|a.bits|][..|b.bits|]; }
    }
  }
}
