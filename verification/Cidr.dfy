/** CIDR networks: the byte-and-mask code of the whitelist, and its agreement with integer
    prefix arithmetic (RFC 4632, section 3.1; RFC 4291, section 2.3). */
module Cidr {
  import opened Basics

  type Octets4 = o: seq<Octet> | |o| == 4 witness [0, 0, 0, 0]
  type Octets16 = o: seq<Octet> | |o| == 16
    witness [0, 0, 0, 0, 0, 0, 0, 0, 0, 0, 0, 0, 0, 0, 0, 0]

  datatype Ip = V4(o4: Octets4) | V6(o6: Octets16) {
    function Octets(): seq<Octet> { if V4? then o4 else o6 }
    function Width(): nat { if V4? then 32 else 128 }
    function Value(): nat { NatOf(Octets()) }
    predicate SameFamily(other: Ip) { V4? == other.V4? }
  }

  /** The network as stored: the address is canonical, host bits zeroed. */
  datatype Network = Network(address: Ip, prefix: nat) {
    predicate Valid() { prefix <= address.Width() && Canonicalize(address, prefix) == address }
    /** Number of addresses in the network. */
    function Size(): nat
      requires prefix <= address.Width()
    {
      Pow2(address.Width() - prefix)
    }
  }

  function Div(x: nat, d: nat): nat
    requires d > 0
  {
    x / d
  }

  /** Big-endian value of an octet string. */
  function NatOf(o: seq<Octet>): nat {
    if o == [] then 0 else NatOf(o[..|o| - 1]) * 256 + o[|o| - 1]
  }

  // -------------------------------------------------------------------------
  // The code
  // -------------------------------------------------------------------------

  /** Compare the first `prefix` bits of two octet strings. */
  predicate MaskedEq(a: seq<Octet>, b: seq<Octet>, prefix: nat)
    requires |a| == |b| && prefix <= 8 * |a|
  {
    var full := prefix / 8;
    var rest := prefix % 8;
    && a[..full] == b[..full]
    && (rest > 0 ==> MaskByte(a[full], 8 - rest) == MaskByte(b[full], 8 - rest))
  }

  /** `byte & (0xffu8 << shift)`: rounding down to a multiple of 2^shift. */
  function MaskByte(b: Octet, shift: nat): (r: Octet)
    requires shift < 8
    ensures r == Div(b, Pow2(shift)) * Pow2(shift)
  {
    MaskByteValue(ToBits(b), shift);
    FromBits(MaskBits(ToBits(b), shift))
  }

  function ToBits(b: Octet): (v: bv8)
    ensures v as int == b
  {
    BackAndForth(CountUp(b));
    b as bv8
  }

  /** The byte with a given value, reached one by one: every value has its byte. */
  ghost function CountUp(b: Octet): (v: bv8)
    ensures v as int == b
  {
    if b == 0 then 0
    else
      OneMore(CountUp(b - 1));
      CountUp(b - 1) + 1
  }

  lemma OneMore(v: bv8)
    requires v != 0xff
    ensures (v + 1) as int == v as int + 1
  {}

  lemma BackAndForth(v: bv8)
    ensures (v as int) as bv8 == v
  {}

  function FromBits(v: bv8): (b: Octet)
    ensures b == v as int
  {
    v as Octet
  }

  function MaskBits(b: bv8, shift: nat): bv8
    requires shift < 8
  {
    b & ((0xff as bv8) << shift)
  }

  function MaskedOctet(b: Octet, i: nat, prefix: nat): Octet {
    if 8 * i >= prefix then 0
    else if 8 * i + 8 > prefix then MaskByte(b, 8 * i + 8 - prefix)
    else b
  }

  function Masked(o: seq<Octet>, prefix: nat): (r: seq<Octet>)
    ensures |r| == |o|
  {
    seq(|o|, i requires 0 <= i < |o| => MaskedOctet(o[i], i, prefix))
  }

  function Canonicalize(a: Ip, prefix: nat): Ip {
    match a
    case V4(o) => V4(Masked(o, prefix))
    case V6(o) => V6(Masked(o, prefix))
  }

  predicate Contains(net: Network, ip: Ip)
    requires net.prefix <= net.address.Width()
  {
    match (net.address, ip)
    case (V4(n), V4(o)) => MaskedEq(n, o, net.prefix)
    case (V6(n), V6(o)) => MaskedEq(n, o, net.prefix)
    case _ => false
  }

  /** `is_ip_allowed`: an empty whitelist admits everybody. */
  predicate IsIpAllowed(whitelist: seq<Network>, ip: Ip)
    requires forall n :: n in whitelist ==> n.prefix <= n.address.Width()
  {
    whitelist == [] || exists n :: n in whitelist && Contains(n, ip)
  }

  // -------------------------------------------------------------------------
  // Bits of one octet
  // -------------------------------------------------------------------------

  lemma Mask0(b: bv8)
    ensures (b & 0xff) as int == b as int / 1 * 1
  {}

  lemma Mask1(b: bv8)
    ensures (b & 0xfe) as int == b as int / 2 * 2
  {}

  lemma Mask2(b: bv8)
    ensures (b & 0xfc) as int == b as int / 4 * 4
  {}

  lemma Mask3(b: bv8)
    ensures (b & 0xf8) as int == b as int / 8 * 8
  {}

  lemma Mask4(b: bv8)
    ensures (b & 0xf0) as int == b as int / 16 * 16
  {}

  lemma Mask5(b: bv8)
    ensures (b & 0xe0) as int == b as int / 32 * 32
  {}

  lemma Mask6(b: bv8)
    ensures (b & 0xc0) as int == b as int / 64 * 64
  {}

  lemma Mask7(b: bv8)
    ensures (b & 0x80) as int == b as int / 128 * 128
  {}

  lemma ShiftedMask(shift: nat)
    requires shift < 8
    ensures (0xff as bv8) << shift
      == [0xff as bv8, 0xfe, 0xfc, 0xf8, 0xf0, 0xe0, 0xc0, 0x80][shift]
  {
    match shift
    case 0 => case 1 => case 2 => case 3 => case 4 => case 5 => case 6 => case 7 =>
  }

  lemma MaskByteValue(b: bv8, shift: nat)
    requires shift < 8
    ensures MaskBits(b, shift) as int == Div(b as int, Pow2(shift)) * Pow2(shift)
  {
    Pow2Small();
    ShiftedMask(shift);
    match shift
    case 0 => Mask0(b); case 1 => Mask1(b); case 2 => Mask2(b); case 3 => Mask3(b);
    case 4 => Mask4(b); case 5 => Mask5(b); case 6 => Mask6(b); case 7 => Mask7(b);
  }
}
