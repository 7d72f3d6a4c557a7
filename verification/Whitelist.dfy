/** The whitelist as text: parsing and printing addresses, networks and the whole list. */
module Whitelist {
  import opened Basics
  import opened Cidr
  import CidrArithmetic
  import Decimal

  datatype Result<+T> = Ok(value: T) | Invalid(entry: string)

  // -------------------------------------------------------------------------
  // Addresses
  // -------------------------------------------------------------------------

  /** IPv6 text syntax is foreign: a parser and a printer about which only `Sound` is assumed. */
  datatype V6Text = V6Text(parse: string -> Option<Octets16>, print6: Octets16 -> string) {
    ghost predicate Sound() {
      && (forall o: Octets16 :: parse(print6(o)) == Some(o))
      && (forall o: Octets16 :: ':' in print6(o))
      && (forall s: string :: parse(s).Some? ==> IsV6Chars(s))
    }
  }

  predicate IsV6Char(c: char) { IsHexDigit(c) || c == ':' || c == '.' }

  predicate IsV6Chars(s: string) { forall i :: 0 <= i < |s| ==> IsV6Char(s[i]) }

  predicate IsOctetText(s: string) { Decimal.Canonical(s) && Decimal.Value(s) < 256 }

  /** A dotted quad: exactly four canonical decimals below 256. */
  function ParseV4(s: string): Option<Octets4> {
    var p := Split(s, '.');
    if |p| == 4 && IsOctetText(p[0]) && IsOctetText(p[1]) && IsOctetText(p[2]) && IsOctetText(p[3])
    then Some([Decimal.Value(p[0]), Decimal.Value(p[1]), Decimal.Value(p[2]), Decimal.Value(p[3])])
    else None
  }

  function PrintV4(o: Octets4): string {
    Join([Decimal.Print(o[0]), Decimal.Print(o[1]), Decimal.Print(o[2]), Decimal.Print(o[3])], ".")
  }

  function ParseIp(v6: V6Text, s: string): Option<Ip> {
    match ParseV4(s)
    case Some(o) => Some(V4(o))
    case None =>
      match v6.parse(s)
      case Some(o) => Some(V6(o))
      case None => None
  }

  function PrintIp(v6: V6Text, ip: Ip): string {
    match ip
    case V4(o) => PrintV4(o)
    case V6(o) => v6.print6(o)
  }

  // -------------------------------------------------------------------------
  // Networks
  // -------------------------------------------------------------------------

  /** `u8::from_str`: one optional plus sign, then digits, at most 255. */
  function ParseU8(s: string): Option<nat> {
    var digits := if |s| > 0 && s[0] == '+' then s[1..] else s;
    if digits != "" && AllDigits(digits) && Decimal.Value(digits) < 256
    then Some(Decimal.Value(digits)) else None
  }

  /** `split_once('/')`. */
  function SplitOnce(s: string, sep: char): (r: Option<(string, string)>)
    ensures r.Some? ==> s == r.value.0 + [sep] + r.value.1 && sep !in r.value.0
    ensures r.None? <==> sep !in s
  {
    if s == "" then None
    else if s[0] == sep then Some(("", s[1..]))
    else match SplitOnce(s[1..], sep)
      case None => None
      case Some((a, b)) =>
        assert s == [s[0]] + s[1..];
        Some(([s[0]] + a, b))
  }

  /** `Cidr::parse`. */
  function Parse(v6: V6Text, entry: string): Result<Network> {
    var (text, prefix) := match SplitOnce(entry, '/')
      case None => (entry, Some(None))
      case Some((a, b)) => (a, match ParseU8(b) case Some(p) => Some(Some(p)) case None => None);
    match (prefix, ParseIp(v6, text))
    case (Some(given), Some(a)) =>
      var p := match given case Some(p) => p case None => a.Width();
      if p > a.Width() then Invalid(entry) else Ok(Network(Canonicalize(a, p), p))
    case _ => Invalid(entry)
  }

  function PrintNetwork(v6: V6Text, n: Network): string {
    PrintIp(v6, n.address) + "/" + Decimal.Print(n.prefix)
  }

  // -------------------------------------------------------------------------
  // Lists
  // -------------------------------------------------------------------------

  function Trim(s: string): string {
    if s != "" && IsBlank(s[0]) then Trim(s[1..])
    else if s != "" && IsBlank(s[|s| - 1]) then Trim(s[..|s| - 1])
    else s
  }

  function Entries(parts: seq<string>): seq<string> {
    if parts == [] then []
    else
      var e := Trim(parts[0]);
      (if e == "" then [] else [e]) + Entries(parts[1..])
  }

  /** Collecting stops at the first invalid entry. */
  function ParseAll(v6: V6Text, entries: seq<string>): Result<seq<Network>> {
    if entries == [] then Ok([])
    else match Parse(v6, entries[0])
      case Invalid(e) => Invalid(e)
      case Ok(n) =>
        match ParseAll(v6, entries[1..])
        case Invalid(e) => Invalid(e)
        case Ok(rest) => Ok([n] + rest)
  }

  function ParseCsv(v6: V6Text, s: string): Result<seq<Network>> {
    ParseAll(v6, Entries(Split(s, ',')))
  }

  function PrintAll(v6: V6Text, nets: seq<Network>): seq<string> {
    if nets == [] then [] else [PrintNetwork(v6, nets[0])] + PrintAll(v6, nets[1..])
  }

  function Repr(v6: V6Text, nets: seq<Network>): string {
    if nets == [] then "(any)" else Join(PrintAll(v6, nets), ", ")
  }

  // -------------------------------------------------------------------------
  // Address round trips
  // -------------------------------------------------------------------------

  lemma PrintV4Split(o: Octets4)
    ensures Split(PrintV4(o), '.')
      == [Decimal.Print(o[0]), Decimal.Print(o[1]), Decimal.Print(o[2]), Decimal.Print(o[3])]
  {
    var a, b, c, d := Decimal.Print(o[0]), Decimal.Print(o[1]), Decimal.Print(o[2]), Decimal.Print(o[3]);
    SplitCons(d, "", '.');
    SplitCons(c, d, '.');
    SplitCons(b, c + "." + d, '.');
    SplitCons(a, b + "." + (c + "." + d), '.');
    assert Join([d], ".") == d;
    assert Join([c, d], ".") == c + "." + d;
    assert Join([b, c, d], ".") == b + "." + (c + "." + d);
    assert [a, b, c, d][1..] == [b, c, d];
  }

  lemma PrintedV4Parses(o: Octets4)
    ensures ParseV4(PrintV4(o)) == Some(o)
  {
    PrintV4Split(o);
    Decimal.ValuePrint(o[0]);
    Decimal.ValuePrint(o[1]);
    Decimal.ValuePrint(o[2]);
    Decimal.ValuePrint(o[3]);
    assert o == [o[0], o[1], o[2], o[3]];
  }

  lemma ParsedV4IsPrinted(s: string)
    requires ParseV4(s).Some?
    ensures PrintV4(ParseV4(s).value) == s
  {
    var p := Split(s, '.');
    Decimal.PrintValue(p[0]);
    Decimal.PrintValue(p[1]);
    Decimal.PrintValue(p[2]);
    Decimal.PrintValue(p[3]);
    assert p == [p[0], p[1], p[2], p[3]];
    JoinSplit(s, '.');
  }

  /** The dotted quads that parse are exactly the printed ones. */
  lemma V4RoundTrip(s: string, o: Octets4)
    ensures ParseV4(s) == Some(o) <==> s == PrintV4(o)
  {
    PrintedV4Parses(o);
    if ParseV4(s) == Some(o) {
      ParsedV4IsPrinted(s);
    }
  }

  lemma {:induction false} SplitKeepsChars(s: string, sep: char, c: char)
    requires c in s && c != sep
    ensures exists i :: 0 <= i < |Split(s, sep)| && c in Split(s, sep)[i]
  {
    var rest := Split(s[1..], sep);
    if s[0] == c {
      assert c in Split(s, sep)[0];
    } else {
      SplitKeepsChars(s[1..], sep, c);
      var i :| 0 <= i < |rest| && c in rest[i];
      if s[0] == sep {
        assert Split(s, sep)[i + 1] == rest[i];
      } else {
        assert c in Split(s, sep)[i];
      }
    }
  }

  lemma ColonIsNotV4(s: string)
    requires ':' in s
    ensures ParseV4(s).None?
  {
    SplitKeepsChars(s, '.', ':');
  }

  lemma IpRoundTrip(v6: V6Text, ip: Ip)
    requires v6.Sound()
    ensures ParseIp(v6, PrintIp(v6, ip)) == Some(ip)
  {
    match ip
    case V4(o) => V4RoundTrip(PrintV4(o), o);
    case V6(o) => ColonIsNotV4(v6.print6(o));
  }

  lemma V4Chars(o: Octets4)
    ensures IsV6Chars(PrintV4(o))
  {
    var s := PrintV4(o);
    PrintV4Split(o);
    forall i | 0 <= i < |s|
      ensures IsV6Char(s[i])
    {
      if s[i] != '.' {
        SplitKeepsChars(s, '.', s[i]);
        var p := Split(s, '.');
        var k :| 0 <= k < |p| && s[i] in p[k];
        assert AllDigits(p[k]);
      }
    }
  }

  // -------------------------------------------------------------------------
  // Network round trips
  // -------------------------------------------------------------------------

  lemma PrintedNetworkChars(v6: V6Text, n: Network)
    requires v6.Sound()
    ensures IsV6Chars(PrintIp(v6, n.address))
    ensures ',' !in PrintNetwork(v6, n)
    ensures forall i :: 0 <= i < |PrintNetwork(v6, n)| ==> !IsBlank(PrintNetwork(v6, n)[i])
    ensures PrintNetwork(v6, n) != ""
  {
    match n.address {
      case V4(o) => V4Chars(o);
      case V6(o) => assert v6.parse(v6.print6(o)).Some?;
    }
    var a, p := PrintIp(v6, n.address), Decimal.Print(n.prefix);
    var s := PrintNetwork(v6, n);
    forall i | 0 <= i < |s|
      ensures IsV6Char(s[i]) || s[i] == '/'
    {
      if i < |a| {
        assert s[i] == a[i];
      } else if i > |a| {
        assert s[i] == p[i - |a| - 1];
      }
    }
  }

  lemma {:induction false} SplitOnceAt(a: string, b: string, sep: char)
    requires sep !in a
    ensures SplitOnce(a + [sep] + b, sep) == Some((a, b))
  {
    var s := a + [sep] + b;
    if a == "" {
      assert s[1..] == b;
    } else {
      assert s[1..] == a[1..] + [sep] + b;
      SplitOnceAt(a[1..], b, sep);
      assert [a[0]] + a[1..] == a;
    }
  }

  lemma ParseWithPrefix(v6: V6Text, text: string, prefix: string, a: Ip)
    requires '/' !in text && ParseIp(v6, text) == Some(a)
    ensures Parse(v6, text + "/" + prefix)
      == match ParseU8(prefix)
         case Some(n) => if n <= a.Width() then Ok(Network(Canonicalize(a, n), n)) else Invalid(text + "/" + prefix)
         case None => Invalid(text + "/" + prefix)
  {
    SplitOnceAt(text, prefix, '/');
  }

  /** A printed prefix reads as itself, if it fits. */
  lemma PrefixText(n: nat)
    ensures ParseU8(Decimal.Print(n)) == if n < 256 then Some(n) else None
  {
    Decimal.ValuePrint(n);
    assert Decimal.Print(n)[0] != '+';
  }

  /** A prefix is digits that stand for a number below 256, leading zeros allowed, after a plus sign or
      none; any other text is no prefix. */
  lemma PrefixIsExact(s: string, n: nat)
    ensures ParseU8(s) == Some(n) <==>
      n < 256 && exists digits: string :: (s == digits || s == "+" + digits) && IsNumeral(digits, n)
  {
    if ParseU8(s) == Some(n) {
      if s[0] == '+' {
        assert s == "+" + s[1..] && IsNumeral(s[1..], n);
      } else {
        assert IsNumeral(s, n);
      }
    }
    forall digits: string | (s == digits || s == "+" + digits) && IsNumeral(digits, n) && n < 256
      ensures ParseU8(s) == Some(n)
    {
      assert digits[0] != '+';
      if s == "+" + digits {
        assert s[1..] == digits;
      }
    }
  }

  predicate IsNumeral(digits: string, n: nat) { digits != "" && AllDigits(digits) && Decimal.Value(digits) == n }

  ghost predicate SameLeadingBits(a: Ip, ip: Ip, prefix: nat)
    requires prefix <= a.Width()
  {
    a.SameFamily(ip) && Div(a.Value(), Pow2(a.Width() - prefix)) == Div(ip.Value(), Pow2(a.Width() - prefix))
  }

  lemma PrefixMeaning(a: Ip, prefix: nat, ip: Ip)
    requires prefix <= a.Width()
    ensures var n := Network(Canonicalize(a, prefix), prefix);
      n.Valid() && (Contains(n, ip) <==> SameLeadingBits(a, ip, prefix))
  {
    CidrArithmetic.CanonicalIsFloor(a, prefix);
    CidrArithmetic.MembershipIsPrefixArithmetic(a, prefix, ip);
  }

  /** What a text entry means, however its prefix is written: address text and prefix parse, exactly
      if the prefix is a number that fits, to a network whose members are the addresses of the same
      family with the same leading bits. */
  lemma EntryMeaning(v6: V6Text, text: string, prefix: string, a: Ip, ip: Ip)
    requires '/' !in text && ParseIp(v6, text) == Some(a)
    ensures var r := Parse(v6, text + "/" + prefix);
      && (r.Ok? <==> ParseU8(prefix).Some? && ParseU8(prefix).value <= a.Width())
      && (r.Ok? ==> r.value.Valid() && (Contains(r.value, ip) <==> SameLeadingBits(a, ip, ParseU8(prefix).value)))
  {
    ParseWithPrefix(v6, text, prefix, a);
    if ParseU8(prefix).Some? && ParseU8(prefix).value <= a.Width() {
      PrefixMeaning(a, ParseU8(prefix).value, ip);
    }
  }

  /** A bare address admits that address and no other. */
  lemma BareAddressMeaning(v6: V6Text, text: string, a: Ip, ip: Ip)
    requires '/' !in text && ParseIp(v6, text) == Some(a)
    ensures Parse(v6, text).Ok? && Parse(v6, text).value.Valid()
    ensures Contains(Parse(v6, text).value, ip) <==> ip == a
  {
    CidrArithmetic.CanonicalIsFloor(a, a.Width());
    CidrArithmetic.MembershipIsPrefixArithmetic(a, a.Width(), ip);
    assert Pow2(0) == 1;
    if a.SameFamily(ip) {
      CidrArithmetic.NatOfInjective(a.Octets(), ip.Octets());
    }
  }

  /** Every parsed network is stored canonically. */
  lemma ParsedIsValid(v6: V6Text, entry: string)
    ensures Parse(v6, entry).Ok? ==> Parse(v6, entry).value.Valid()
  {
    var text := match SplitOnce(entry, '/') case None => entry case Some((a, b)) => a;
    match ParseIp(v6, text) {
      case None =>
      case Some(a) =>
        if Parse(v6, entry).Ok? {
          CidrArithmetic.CanonicalIsFloor(a, Parse(v6, entry).value.prefix);
        }
    }
  }

  lemma NetworkRoundTrip(v6: V6Text, n: Network)
    requires v6.Sound() && n.Valid()
    ensures Parse(v6, PrintNetwork(v6, n)) == Ok(n)
  {
    PrintedNetworkChars(v6, n);
    IpRoundTrip(v6, n.address);
    SplitOnceAt(PrintIp(v6, n.address), Decimal.Print(n.prefix), '/');
    PrefixText(n.prefix);
  }

  // -------------------------------------------------------------------------
  // The whole list
  // -------------------------------------------------------------------------

  /** The representation names the networks in order, with a comma and a blank in between. */
  lemma ReprLists(v6: V6Text, nets: seq<Network>)
    requires nets != []
    ensures Repr(v6, nets)
      == PrintIp(v6, nets[0].address) + "/" + Decimal.Print(nets[0].prefix)
         + (if |nets| == 1 then "" else ", " + Repr(v6, nets[1..]))
  {
    var all := PrintAll(v6, nets);
    assert all[1..] == PrintAll(v6, nets[1..]) && |all| == 1 + |PrintAll(v6, nets[1..])|;
    if |nets| == 1 {
      assert nets[1..] == [];
    } else {
      assert nets[1..] != [] && PrintAll(v6, nets[1..]) != [];
      Regroup(all[0], ", ", Join(all[1..], ", "));
    }
  }

  lemma TrimNothing(s: string)
    requires forall i :: 0 <= i < |s| ==> !IsBlank(s[i])
    ensures Trim(s) == s
    ensures Trim(" " + s) == s
  {
    assert (" " + s)[1..] == s;
  }

  lemma EntriesCons(piece: string, entry: string, rest: seq<string>)
    requires Trim(piece) == entry && entry != ""
    ensures Entries([piece] + rest) == [entry] + Entries(rest)
  {
    assert ([piece] + rest)[1..] == rest;
  }

  lemma PrintedPiece(v6: V6Text, n: Network, lead: string)
    requires v6.Sound() && (lead == "" || lead == " ")
    ensures PrintNetwork(v6, n) != "" && Trim(lead + PrintNetwork(v6, n)) == PrintNetwork(v6, n)
    ensures ',' !in lead + PrintNetwork(v6, n)
  {
    var head := PrintNetwork(v6, n);
    PrintedNetworkChars(v6, n);
    TrimNothing(head);
    assert "" + head == head;
  }

  lemma CommaSplits(lead: string, head: string, back: string)
    requires ',' !in lead + head
    ensures Split(lead + head, ',') == [lead + head]
    ensures Split(lead + (head + ", " + back), ',') == [lead + head] + Split(" " + back, ',')
  {
    SplitCons(lead + head, " " + back, ',');
    CommaParts(lead, head, back);
  }

  lemma CommaParts(lead: string, head: string, back: string)
    ensures lead + (head + ", " + back) == (lead + head) + [','] + (" " + back)
  {}

  lemma {:induction false} PrintedEntries(v6: V6Text, nets: seq<Network>, lead: string)
    requires v6.Sound() && nets != [] && (lead == "" || lead == " ")
    ensures Entries(Split(lead + Join(PrintAll(v6, nets), ", "), ',')) == PrintAll(v6, nets)
  {
    var head := PrintNetwork(v6, nets[0]);
    PrintedPiece(v6, nets[0], lead);
    if |nets| == 1 {
      CommaSplits(lead, head, "");
      EntriesCons(lead + head, head, []);
      assert PrintAll(v6, nets) == [head];
      assert [lead + head] + [] == [lead + head];
    } else {
      var back := Join(PrintAll(v6, nets[1..]), ", ");
      CommaSplits(lead, head, back);
      PrintedEntries(v6, nets[1..], " ");
      EntriesCons(lead + head, head, Split(" " + back, ','));
      assert PrintAll(v6, nets)[1..] == PrintAll(v6, nets[1..]);
    }
  }

  lemma {:induction false} ParsePrinted(v6: V6Text, nets: seq<Network>)
    requires v6.Sound()
    requires forall n :: n in nets ==> n.Valid()
    ensures ParseAll(v6, PrintAll(v6, nets)) == Ok(nets)
  {
    if nets != [] {
      NetworkRoundTrip(v6, nets[0]);
      ParsePrinted(v6, nets[1..]);
      assert PrintAll(v6, nets)[1..] == PrintAll(v6, nets[1..]);
      assert nets == [nets[0]] + nets[1..];
    }
  }

  lemma AnyIsNoEntry(v6: V6Text)
    requires v6.Sound()
    ensures ParseCsv(v6, "(any)").Invalid?
  {
    AnyIsOneEntry();
    AnyIsNoIp(v6);
    assert SplitOnce("(any)", '/') == None;
  }

  lemma AnyIsOneEntry()
    ensures Entries(Split("(any)", ',')) == ["(any)"]
  {
    var any := "(any)";
    SplitCons(any, "", ',');
    TrimNothing(any);
    EntriesCons(any, any, []);
    assert [any] + [] == [any];
  }

  lemma AnyIsNoIp(v6: V6Text)
    requires v6.Sound()
    ensures ParseIp(v6, "(any)") == None
  {
    assert "(any)"[0] == '(' && !IsV6Chars("(any)");
    SplitCons("(any)", "", '.');
  }

  /** The logged representation parses back to the list it shows, except that the empty list
      is shown as `(any)`, which is not an entry. */
  lemma WhitelistRoundTrip(v6: V6Text, nets: seq<Network>)
    requires v6.Sound()
    requires forall n :: n in nets ==> n.Valid()
    ensures ParseCsv(v6, Repr(v6, nets)) == Ok(nets) <==> nets != []
  {
    if nets != [] {
      PrintedEntries(v6, nets, "");
      assert "" + Repr(v6, nets) == Repr(v6, nets);
      ParsePrinted(v6, nets);
    } else {
      AnyIsNoEntry(v6);
    }
  }
}
