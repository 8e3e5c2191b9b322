/**
  Addresses as bit strings in network order. Prefixes are bit strings too, and
  the sequence operator `p <= q` reads "p is a prefix of q".
 */
module IpBits {

  type Bits = seq<bool>

  const IPV4_BITS := 32
  const IPV6_BITS := 128

  predicate IsAddress(ip: Bits) {
    |ip| == IPV4_BITS || |ip| == IPV6_BITS
  }

  /** The address with all bits from position cidr on cleared. */
  function Mask(ip: Bits, cidr: nat): (r: Bits)
    requires cidr <= |ip|
    ensures |r| == |ip| && r[..cidr] == ip[..cidr]
  {
    ip[..cidr] + seq(|ip| - cidr, _ => false)
  }

  /** Exclusive or of two words. */
  function Xor(a: Bits, b: Bits): (r: Bits)
    requires |a| == |b|
    ensures |r| == |a|
    ensures forall i :: 0 <= i < |a| ==> r[i] == (a[i] != b[i])
  {
    seq(|a|, i requires 0 <= i < |a| => a[i] != b[i])
  }

  function LeadingZeros(x: Bits): (n: nat)
    ensures n <= |x|
    ensures forall i :: 0 <= i < n ==> !x[i]
    ensures n < |x| ==> x[n]
  {
    if x == [] || x[0] then 0 else 1 + LeadingZeros(x[1..])
  }

  /** commonBits: one 32-bit word for IPv4, two 64-bit words for IPv6. */
  function CommonBits(ip1: Bits, ip2: Bits): nat
    requires IsAddress(ip1) && |ip2| == |ip1|
  {
    if |ip1| == IPV4_BITS then LeadingZeros(Xor(ip1, ip2))
    else
      var x := Xor(ip1[..64], ip2[..64]);
      if true in x then LeadingZeros(x) else 64 + LeadingZeros(Xor(ip1[64..], ip2[64..]))
  }

  /** commonBits is the length of the longest common prefix. */
  lemma CommonBitsSpec(a: Bits, b: Bits)
    requires IsAddress(a) && |b| == |a|
    ensures var c := CommonBits(a, b);
            && c <= |a|
            && a[..c] == b[..c]
            && (c < |a| ==> a[c] != b[c])
  {
    var c := CommonBits(a, b);
    if |a| == IPV4_BITS {
      forall i | 0 <= i < c ensures a[i] == b[i] {
        assert !Xor(a, b)[i];
      }
    } else {
      var x := Xor(a[..64], b[..64]);
      forall i | 0 <= i < 64 ensures x[i] == (a[i] != b[i]) {}
      if true !in x {
        var y := Xor(a[64..], b[64..]);
        assert forall i :: 0 <= i < 64 ==> y[i] == (a[64 + i] != b[64 + i]);
        forall i | 64 <= i < c ensures a[i] == b[i] {
          assert !y[i - 64];
        }
        if c < |a| {
          assert y[c - 64];
        }
      }
    }
  }

  /** The loop test of nodePlacement and lookup is the prefix test. */
  lemma PrefixTest(a: Bits, n: nat, b: Bits)
    requires IsAddress(a) && |b| == |a| && n <= |a|
    ensures CommonBits(a, b) >= n <==> a[..n] <= b
  {
    var c := CommonBits(a, b);
    CommonBitsSpec(a, b);
    if c >= n {
      assert a[..n] == a[..c][..n] == b[..c][..n] == b[..n];
    } else {
      assert a[..n][c] == a[c] != b[c];
    }
  }

  lemma SamePrefix(p: Bits, q: Bits)
    requires p <= q && q <= p
    ensures p == q
  {
    assert q == q[..|p|];
  }

  lemma StrictPrefix(p: Bits, q: Bits)
    requires p <= q && p != q
    ensures p < q
  {
    if |p| == |q| { SamePrefix(p, q); }
  }

  lemma PrefixOfPrefix(p: Bits, q: Bits, n: nat)
    requires n <= |q|
    ensures p <= q[..n] <==> |p| <= n && p <= q
  {}
}
