/** The whitelist's byte code agrees with arithmetic on 32- and 128-bit addresses. */
module CidrArithmetic {
  import opened Basics
  import opened Cidr

  // -------------------------------------------------------------------------
  // Division facts
  // -------------------------------------------------------------------------

  lemma MulLe(a: int, b: int, d: nat)
    requires a <= b
    ensures a * d <= b * d
  {}

  lemma MulAssoc(a: int, b: int, c: int)
    ensures a * b * c == a * (c * b)
  {}

  lemma DivUnique(x: int, d: int, q: int)
    requires d > 0 && q * d <= x < q * d + d
    ensures x / d == q
  {
    var k := x / d;
    assert x == k * d + x % d;
    if k < q {
      MulLe(k + 1, q, d);
    } else if k > q {
      MulLe(q + 1, k, d);
    }
  }

  lemma DivBounds(x: nat, d: nat)
    requires d > 0
    ensures x / d >= 0 && x / d * d <= x && x + 1 <= (x / d + 1) * d
  {
    assert x == x / d * d + x % d;
  }

  lemma MulPositive(a: nat, b: nat)
    requires a > 0 && b > 0
    ensures a * b > 0
  {}

  lemma NextMultiple(q: int, d: int)
    ensures (q + 1) * d == q * d + d
  {}

  lemma DivDiv(x: nat, a: nat, b: nat)
    requires a > 0 && b > 0
    ensures a * b > 0 && Div(x, a * b) == Div(Div(x, a), b)
  {
    var y := x / a;
    var q := y / b;
    DivBounds(x, a);
    DivBounds(y, b);
    MulLe(q * b, y, a);
    MulLe(y + 1, (q + 1) * b, a);
    MulAssoc(q, b, a);
    MulAssoc(q + 1, b, a);
    MulPositive(a, b);
    NextMultiple(q, a * b);
    DivUnique(x, a * b, q);
  }

  lemma RoundDown(x: nat, d: nat)
    requires d > 0
    ensures Div(Div(x, d) * d, d) == Div(x, d)
    ensures Div(x, d) * d == x - x % d
  {
    DivUnique(Div(x, d) * d, d, Div(x, d));
  }

  // -------------------------------------------------------------------------
  // Octet strings as numbers
  // -------------------------------------------------------------------------

  lemma {:induction false} NatOfInjective(a: seq<Octet>, b: seq<Octet>)
    requires |a| == |b|
    ensures NatOf(a) == NatOf(b) <==> a == b
  {
    if a != [] {
      NatOfInjective(a[..|a| - 1], b[..|b| - 1]);
      assert a == a[..|a| - 1] + [a[|a| - 1]];
      assert b == b[..|b| - 1] + [b[|b| - 1]];
    }
  }

  /** Dividing by 2^(8k) drops the last k octets. */
  lemma {:induction false} DropOctets(o: seq<Octet>, k: nat)
    requires k <= |o|
    ensures Div(NatOf(o), Pow2(8 * k)) == NatOf(o[..|o| - k])
  {
    if k == 0 {
      assert o[..|o|] == o;
    } else {
      var front := o[..|o| - 1];
      DropOctets(front, k - 1);
      assert front[..|front| - (k - 1)] == o[..|o| - k];
      Pow2Small();
      Pow2Add(8, 8 * (k - 1));
      DivDiv(NatOf(o), 256, Pow2(8 * (k - 1)));
      DivUnique(NatOf(o), 256, NatOf(front));
    }
  }

  lemma SplitOctet(x: nat, b: nat, r: nat)
    requires b < 256 && 0 < r < 8
    ensures Div(x * 256 + b, Pow2(8 - r)) == x * Pow2(r) + Div(b, Pow2(8 - r))
  {
    Pow2Small();
    Pow2Add(8 - r, r);
    var d, q := Pow2(8 - r), b / Pow2(8 - r);
    assert x * 256 == x * Pow2(r) * d;
    assert (x * Pow2(r) + q) * d == x * 256 + q * d;
    DivUnique(x * 256 + b, d, x * Pow2(r) + q);
  }

  /** The leading `prefix` bits of an address, as a number. */
  function Leading(o: seq<Octet>, prefix: nat): nat
    requires prefix <= 8 * |o|
  {
    Div(NatOf(o), Pow2(8 * |o| - prefix))
  }

  lemma LeadingByOctets(o: seq<Octet>, prefix: nat)
    requires prefix <= 8 * |o|
    ensures prefix % 8 == 0 ==> Leading(o, prefix) == NatOf(o[..prefix / 8])
    ensures prefix % 8 > 0 ==>
      Leading(o, prefix) == NatOf(o[..prefix / 8]) * Pow2(prefix % 8) + Div(o[prefix / 8], Pow2(8 - prefix % 8))
  {
    if prefix % 8 == 0 {
      DropOctets(o, |o| - prefix / 8);
    } else {
      LeadingWithBits(o, prefix / 8, prefix % 8);
    }
  }

  lemma LeadingWithBits(o: seq<Octet>, f: nat, r: nat)
    requires f < |o| && 0 < r < 8
    ensures Leading(o, 8 * f + r) == NatOf(o[..f]) * Pow2(r) + Div(o[f], Pow2(8 - r))
  {
    var k := |o| - f - 1;
    DropOctets(o, k);
    var head := o[..f + 1];
    assert head[..f] == o[..f];
    Pow2Add(8 * k, 8 - r);
    DivDiv(NatOf(o), Pow2(8 * k), Pow2(8 - r));
    SplitOctet(NatOf(o[..f]), o[f], r);
  }

  lemma MaskByteEq(a: Octet, b: Octet, shift: nat)
    requires 0 < shift < 8
    ensures MaskByte(a, shift) == MaskByte(b, shift) <==> Div(a, Pow2(shift)) == Div(b, Pow2(shift))
  {
    RoundDown(a, Pow2(shift));
    RoundDown(b, Pow2(shift));
  }

  lemma MixedRadix(x: nat, u: nat, y: nat, v: nat, d: nat)
    requires u < d && v < d
    ensures x * d + u == y * d + v <==> x == y && u == v
  {
    if x < y {
      assert (x + 1) * d <= y * d;
    } else if y < x {
      assert (y + 1) * d <= x * d;
    }
  }

  lemma OctetQuotientBound(b: Octet, r: nat)
    requires 0 < r < 8
    ensures Div(b, Pow2(8 - r)) < Pow2(r)
  {
    Pow2Small();
  }

  /** The byte comparison decides equality of the leading bits. */
  lemma MaskedEqIsLeadingEq(a: seq<Octet>, b: seq<Octet>, prefix: nat)
    requires |a| == |b| && prefix <= 8 * |a|
    ensures MaskedEq(a, b, prefix) <==> Leading(a, prefix) == Leading(b, prefix)
  {
    var f, r := prefix / 8, prefix % 8;
    LeadingByOctets(a, prefix);
    LeadingByOctets(b, prefix);
    NatOfInjective(a[..f], b[..f]);
    if r > 0 {
      MaskByteEq(a[f], b[f], 8 - r);
      OctetQuotientBound(a[f], r);
      OctetQuotientBound(b[f], r);
      MixedRadix(NatOf(a[..f]), Div(a[f], Pow2(8 - r)), NatOf(b[..f]), Div(b[f], Pow2(8 - r)), Pow2(r));
    }
  }

  // -------------------------------------------------------------------------
  // Canonical addresses
  // -------------------------------------------------------------------------

  lemma MaskedTwice(o: seq<Octet>, prefix: nat)
    ensures Masked(Masked(o, prefix), prefix) == Masked(o, prefix)
  {
    forall i | 0 <= i < |o|
      ensures MaskedOctet(MaskedOctet(o[i], i, prefix), i, prefix) == MaskedOctet(o[i], i, prefix)
    {
      MaskedOctetTwice(o[i], i, prefix);
    }
  }

  lemma MaskedOctetTwice(b: Octet, i: nat, prefix: nat)
    ensures MaskedOctet(MaskedOctet(b, i, prefix), i, prefix) == MaskedOctet(b, i, prefix)
  {
    if 8 * i < prefix < 8 * i + 8 {
      MaskTwice(b, 8 * i + 8 - prefix);
    }
  }

  lemma MaskTwice(b: Octet, shift: nat)
    requires 0 < shift < 8
    ensures MaskByte(MaskByte(b, shift), shift) == MaskByte(b, shift)
  {
    RoundDown(b, Pow2(shift));
  }

  lemma MaskedKeepsLeading(o: seq<Octet>, prefix: nat)
    requires prefix <= 8 * |o|
    ensures MaskedEq(Masked(o, prefix), o, prefix)
  {
    var f, r := prefix / 8, prefix % 8;
    var m := Masked(o, prefix);
    assert m[..f] == o[..f];
    if r > 0 {
      MaskTwice(o[f], 8 - r);
    }
  }

  lemma {:induction false} TrailingZeros(o: seq<Octet>, k: nat)
    requires k <= |o|
    requires forall i :: |o| - k <= i < |o| ==> o[i] == 0
    ensures NatOf(o) == NatOf(o[..|o| - k]) * Pow2(8 * k)
  {
    if k == 0 {
      assert o[..|o|] == o;
    } else {
      var front := o[..|o| - 1];
      TrailingZeros(front, k - 1);
      assert front[..|front| - (k - 1)] == o[..|o| - k];
      Pow2Small();
      Pow2Add(8, 8 * (k - 1));
      MulAssoc(NatOf(o[..|o| - k]), Pow2(8 * (k - 1)), 256);
    }
  }

  lemma MaskedOctetSum(x: nat, b: Octet, r: nat)
    requires 0 < r < 8
    ensures x * 256 + MaskByte(b, 8 - r) == (x * Pow2(r) + Div(b, Pow2(8 - r))) * Pow2(8 - r)
  {
    Pow2Small();
    Pow2Add(8 - r, r);
    Distribute(x, Pow2(r), Div(b, Pow2(8 - r)), Pow2(8 - r));
  }

  lemma Distribute(x: nat, p: nat, q: nat, d: nat)
    ensures (x * p + q) * d == x * (d * p) + q * d
  {}

  /** The masked octets up to and including the one that the prefix cuts. */
  lemma MaskedHead(o: seq<Octet>, prefix: nat)
    requires prefix < 8 * |o| && prefix % 8 > 0
    ensures NatOf(Masked(o, prefix)[..prefix / 8 + 1])
      == Leading(o, prefix) * Pow2(8 - prefix % 8)
  {
    var f, r := prefix / 8, prefix % 8;
    var head := Masked(o, prefix)[..f + 1];
    assert head[..f] == o[..f];
    assert head[f] == MaskByte(o[f], 8 - r);
    LeadingByOctets(o, prefix);
    MaskedOctetSum(NatOf(o[..f]), o[f], r);
  }

  lemma Rescale(whole: nat, head: nat, leading: nat, low: nat, zeros: nat, block: nat)
    requires head == leading * low && whole == head * zeros && block == zeros * low
    ensures whole == leading * block
  {
    MulAssoc(leading, low, zeros);
  }

  lemma CutOctet(o: seq<Octet>, prefix: nat)
    requires prefix < 8 * |o| && prefix % 8 > 0
    ensures NatOf(Masked(o, prefix)) == Leading(o, prefix) * Pow2(8 * |o| - prefix)
  {
    var k, low := |o| - prefix / 8 - 1, 8 - prefix % 8;
    var m := Masked(o, prefix);
    MaskedHead(o, prefix);
    TrailingZeros(m, k);
    Pow2Add(8 * k, low);
    Rescale(NatOf(m), NatOf(m[..prefix / 8 + 1]), Leading(o, prefix), Pow2(low), Pow2(8 * k), Pow2(8 * k + low));
  }

  lemma MaskedIsMultiple(o: seq<Octet>, prefix: nat)
    requires prefix <= 8 * |o|
    ensures NatOf(Masked(o, prefix)) == Leading(o, prefix) * Pow2(8 * |o| - prefix)
  {
    if prefix % 8 == 0 {
      LeadingByOctets(o, prefix);
      assert Masked(o, prefix)[..prefix / 8] == o[..prefix / 8];
      TrailingZeros(Masked(o, prefix), |o| - prefix / 8);
    } else {
      CutOctet(o, prefix);
    }
  }

  /** Zeroing the host bits subtracts the remainder: the network is the address rounded down
      to a multiple of the block size. */
  lemma CanonicalIsFloor(a: Ip, prefix: nat)
    requires prefix <= a.Width()
    ensures Canonicalize(a, prefix).Value() == a.Value() - a.Value() % Pow2(a.Width() - prefix)
    ensures Canonicalize(a, prefix).SameFamily(a)
    ensures Canonicalize(Canonicalize(a, prefix), prefix) == Canonicalize(a, prefix)
    ensures Network(Canonicalize(a, prefix), prefix).Valid()
  {
    MaskedIsMultiple(a.Octets(), prefix);
    MaskedTwice(a.Octets(), prefix);
    RoundDown(a.Value(), Pow2(a.Width() - prefix));
  }

  /** The in-place loop of `canonicalize`: afterwards the buffer holds the old number rounded
      down to a multiple of 2^(bits - prefix). */
  method MaskInPlace(octets: array<Octet>, prefix: nat)
    requires prefix <= 8 * octets.Length
    modifies octets
    ensures octets[..] == Masked(old(octets[..]), prefix)
    ensures NatOf(octets[..])
      == NatOf(old(octets[..])) - NatOf(old(octets[..])) % Pow2(8 * octets.Length - prefix)
  {
    ghost var was := octets[..];
    for i := 0 to octets.Length
      invariant forall k :: 0 <= k < i ==> octets[k] == Masked(was, prefix)[k]
      invariant forall k :: i <= k < octets.Length ==> octets[k] == was[k]
    {
      var bits := i * 8;
      if bits >= prefix {
        octets[i] := 0;
      } else if bits + 8 > prefix {
        octets[i] := MaskByte(octets[i], bits + 8 - prefix);
      }
    }
    assert octets[..] == Masked(was, prefix);
    MaskedIsMultiple(was, prefix);
    RoundDown(NatOf(was), Pow2(8 * octets.Length - prefix));
  }

  // -------------------------------------------------------------------------
  // Membership
  // -------------------------------------------------------------------------

  /** A network made from any address contains exactly the addresses of its family that
      share the quotient by 2^(width - prefix) with the address it was made from. */
  lemma MembershipIsPrefixArithmetic(a: Ip, prefix: nat, ip: Ip)
    requires prefix <= a.Width()
    ensures Contains(Network(Canonicalize(a, prefix), prefix), ip)
       <==> a.SameFamily(ip)
            && Div(a.Value(), Pow2(a.Width() - prefix)) == Div(ip.Value(), Pow2(a.Width() - prefix))
  {
    if a.SameFamily(ip) {
      var m := Masked(a.Octets(), prefix);
      MaskedKeepsLeading(a.Octets(), prefix);
      MaskedEqIsLeadingEq(m, a.Octets(), prefix);
      MaskedEqIsLeadingEq(m, ip.Octets(), prefix);
    }
  }

  predicate InInterval(net: Network, ip: Ip)
    requires net.prefix <= net.address.Width()
  {
    && net.address.SameFamily(ip)
    && net.address.Value() <= ip.Value() < net.address.Value() + net.Size()
  }

  lemma QuotientIsInterval(low: nat, x: nat, d: nat)
    requires d > 0 && low % d == 0
    ensures Div(low, d) == Div(x, d) <==> low <= x < low + d
  {
    assert low == low / d * d;
    if low <= x < low + d {
      DivUnique(x, d, low / d);
    }
  }

  /** A stored network is the interval from its address up to its last address. */
  lemma MembershipIsInterval(net: Network, ip: Ip)
    requires net.Valid()
    ensures Contains(net, ip) <==> InInterval(net, ip)
  {
    MembershipIsPrefixArithmetic(net.address, net.prefix, ip);
    CanonicalIsFloor(net.address, net.prefix);
    assert net.address.Value() % net.Size() == 0;
    QuotientIsInterval(net.address.Value(), ip.Value(), net.Size());
  }

  /** Zeroing host bits does not change who is admitted. */
  lemma CanonicalisationIsHarmless(a: Ip, prefix: nat, ip: Ip)
    requires prefix <= a.Width()
    ensures Contains(Network(Canonicalize(a, prefix), prefix), ip) <==> Contains(Network(a, prefix), ip)
  {
    if a.SameFamily(ip) {
      var m := Masked(a.Octets(), prefix);
      MaskedKeepsLeading(a.Octets(), prefix);
      MaskedEqIsLeadingEq(m, a.Octets(), prefix);
      MaskedEqIsLeadingEq(m, ip.Octets(), prefix);
      MaskedEqIsLeadingEq(a.Octets(), ip.Octets(), prefix);
    }
  }

  predicate Nested(inner: Network, outer: Network)
    requires inner.Valid() && outer.Valid()
  {
    && inner.address.SameFamily(outer.address)
    && outer.address.Value() <= inner.address.Value()
    && inner.address.Value() + inner.Size() <= outer.address.Value() + outer.Size()
  }

  /** Two networks that share an address are nested, the one with the longer prefix inside. */
  lemma Laminar(m: Network, n: Network, ip: Ip)
    requires m.Valid() && n.Valid() && m.prefix >= n.prefix
    requires Contains(m, ip) && Contains(n, ip)
    ensures Nested(m, n)
  {
    MembershipIsInterval(m, ip);
    MembershipIsInterval(n, ip);
    IntervalsNest(m, n, ip);
  }

  lemma IntervalsNest(m: Network, n: Network, ip: Ip)
    requires m.Valid() && n.Valid() && m.prefix >= n.prefix
    requires InInterval(m, ip) && InInterval(n, ip)
    ensures Nested(m, n)
  {
    var i := NetworkIsBlock(m);
    var j := NetworkIsBlock(n);
    var k := SizesDivide(m, n);
    BlocksNest(m.address.Value(), m.Size(), i, n.address.Value(), n.Size(), j, k, ip.Value());
  }

  lemma SizesDivide(m: Network, n: Network) returns (k: nat)
    requires m.address.Width() == n.address.Width() >= m.prefix >= n.prefix
    ensures n.Size() == m.Size() * k
  {
    k := Pow2(m.prefix - n.prefix);
    Pow2Add(m.address.Width() - m.prefix, m.prefix - n.prefix);
  }

  lemma NetworkIsBlock(n: Network) returns (i: nat)
    requires n.Valid()
    ensures n.address.Value() == i * n.Size()
  {
    CanonicalIsFloor(n.address, n.prefix);
    RoundDown(n.address.Value(), n.Size());
    i := Div(n.address.Value(), n.Size());
  }

  lemma BlocksNest(low: nat, d: nat, i: nat, low': nat, d': nat, j: nat, k: nat, x: nat)
    requires d > 0 && low == i * d && low' == j * d' && d' == d * k
    requires low <= x < low + d && low' <= x < low' + d'
    ensures low' <= low && low + d <= low' + d'
  {
    MulAssoc(j, k, d);
    assert (j * k + k) * d == low' + d' && (i + 1) * d == low + d;
    if i < j * k {
      MulLe(i + 1, j * k, d);
    } else if i >= j * k + k {
      MulLe(j * k + k, i, d);
    } else {
      MulLe(j * k, i, d);
      MulLe(i + 1, j * k + k, d);
    }
  }

  /** Being admitted depends only on the union of the intervals, so neither the order of the
      list nor repetitions matter. */
  lemma AllowedIsUnionOfIntervals(whitelist: seq<Network>, ip: Ip)
    requires forall n :: n in whitelist ==> n.Valid() && n.prefix <= n.address.Width()
    ensures IsIpAllowed(whitelist, ip)
       <==> whitelist == [] || exists n :: n in whitelist && InInterval(n, ip)
  {
    forall n | n in whitelist
      ensures Contains(n, ip) <==> InInterval(n, ip)
    {
      MembershipIsInterval(n, ip);
    }
  }
}
