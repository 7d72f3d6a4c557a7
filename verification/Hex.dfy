/** The blob literal codec: `X'..'` with lower-case hex digits on the way out, either case
    on the way in (RFC 4648, section 8). The server writes these literals into JSON strings,
    both clients write them into SQL text, and both clients decode them again. */
module Hex {
  import opened Basics

  const DIGITS := "0123456789abcdef"

  /** Four bits. */
  type Half = n: int | 0 <= n < 16

  function High(b: Octet): Half { b / 16 }

  function Low(b: Octet): Half { b % 16 }

  function Pair(high: Half, low: Half): Octet { 16 * high + low }

  /** These are the shifts and masks of the source on 8-bit words. */
  lemma BitsAgree(b: bv8, high: bv8, low: bv8)
    requires high < 16 && low < 16
    ensures (b >> 4) as int == High(b as int) && (b & 0x0f) as int == Low(b as int)
    ensures ((high << 4) | low) as int == Pair(high as int, low as int)
  {}

  function Nibble(n: Half): char { if n < 10 then ('0' as int + n) as char else ('a' as int + (n - 10)) as char }

  /** The table of the source. */
  lemma TableIsNibble(n: Half)
    ensures DIGITS[n] == Nibble(n)
  {
    assert n == 0 || n == 1 || n == 2 || n == 3 || n == 4 || n == 5 || n == 6 || n == 7
        || n == 8 || n == 9 || n == 10 || n == 11 || n == 12 || n == 13 || n == 14 || n == 15;
  }

  function HexVal(c: char): Option<Half> {
    if '0' <= c <= '9' then Some(c as int - '0' as int)
    else if 'a' <= c <= 'f' then Some(c as int - 'a' as int + 10)
    else if 'A' <= c <= 'F' then Some(c as int - 'A' as int + 10)
    else None
  }

  predicate AllHex(s: string) { forall i :: 0 <= i < |s| ==> IsHexDigit(s[i]) }

  function Encode(bytes: seq<Octet>): (s: string)
    ensures |s| == 2 * |bytes|
    ensures AllHex(s)
  {
    if bytes == [] then ""
    else [Nibble(High(bytes[0])), Nibble(Low(bytes[0]))] + Encode(bytes[1..])
  }

  lemma {:induction false} EncodeSnoc(bytes: seq<Octet>, b: Octet)
    ensures Encode(bytes + [b]) == Encode(bytes) + [Nibble(High(b)), Nibble(Low(b))]
  {
    if bytes == [] {
      assert bytes + [b] == [b];
      assert [b][1..] == [];
    } else {
      assert (bytes + [b])[1..] == bytes[1..] + [b];
      EncodeSnoc(bytes[1..], b);
    }
  }

  /** Two lower-case digits for each byte, the high one first. */
  lemma {:induction false} EncodeIsPositional(bytes: seq<Octet>, i: nat)
    requires i < |bytes|
    ensures var high, low := Encode(bytes)[2 * i], Encode(bytes)[2 * i + 1];
      && 16 * HexDigitValue(high) + HexDigitValue(low) == bytes[i]
      && Lower(high) == high && Lower(low) == low
    decreases i
  {
    if i > 0 {
      EncodeIsPositional(bytes[1..], i - 1);
    }
  }

  /** The push loop of `to_hex`, the same in the server and in the Rust client. */
  method ToHex(bytes: seq<Octet>) returns (s: string)
    ensures s == Encode(bytes)
  {
    s := "";
    for k := 0 to |bytes|
      invariant s == Encode(bytes[..k])
    {
      EncodeSnoc(bytes[..k], bytes[k]);
      assert bytes[..k + 1] == bytes[..k] + [bytes[k]];
      TableIsNibble(High(bytes[k]));
      TableIsNibble(Low(bytes[k]));
      s := s + [DIGITS[High(bytes[k])]];
      s := s + [DIGITS[Low(bytes[k])]];
    }
    assert bytes[..|bytes|] == bytes;
  }

  function Decode(h: string): (r: Option<seq<Octet>>)
    requires |h| % 2 == 0
    ensures r.Some? ==> |r.value| * 2 == |h|
  {
    if h == "" then Some([])
    else match (HexVal(h[0]), HexVal(h[1]), Decode(h[2..]))
      case (Some(high), Some(low), Some(rest)) => Some([Pair(high, low)] + rest)
      case _ => None
  }

  lemma NibbleRoundTrip(n: Half)
    ensures HexVal(Nibble(n)) == Some(n)
  {}

  lemma HexValNibble(c: char)
    ensures HexVal(c).Some? <==> IsHexDigit(c)
    ensures IsHexDigit(c) ==> Nibble(HexVal(c).value) == Lower(c)
  {}

  lemma PairSplit(b: Octet)
    ensures Pair(High(b), Low(b)) == b
  {}

  lemma PairJoin(high: Half, low: Half)
    ensures High(Pair(high, low)) == high && Low(Pair(high, low)) == low
  {}

  lemma DecodeByte(b: Octet, h: string)
    requires |h| % 2 == 0
    ensures Decode([Nibble(High(b)), Nibble(Low(b))] + h) == Prepend([b], Decode(h))
  {
    PairSplit(b);
    NibbleRoundTrip(High(b));
    NibbleRoundTrip(Low(b));
    var text := [Nibble(High(b)), Nibble(Low(b))] + h;
    assert text[2..] == h;
  }

  lemma PrependHead(bytes: seq<Octet>)
    requires bytes != []
    ensures Prepend([bytes[0]], Some(bytes[1..])) == Some(bytes)
  {
    HeadTail(bytes);
  }

  lemma {:induction false} DecodeEncode(bytes: seq<Octet>)
    ensures Decode(Encode(bytes)) == Some(bytes)
  {
    if bytes != [] {
      DecodeEncode(bytes[1..]);
      DecodeByte(bytes[0], Encode(bytes[1..]));
      PrependHead(bytes);
    }
  }

  lemma PairText(a: char, b: char)
    requires IsHexDigit(a) && IsHexDigit(b)
    ensures HexVal(a).Some? && HexVal(b).Some?
    ensures Encode([Pair(HexVal(a).value, HexVal(b).value)]) == [Lower(a), Lower(b)]
  {
    HexValNibble(a);
    HexValNibble(b);
    PairJoin(HexVal(a).value, HexVal(b).value);
  }

  lemma LowerPair(h: string)
    requires |h| >= 2
    ensures LowerAll(h) == [Lower(h[0]), Lower(h[1])] + LowerAll(h[2..])
  {}

  lemma EncodeConcat(b: Octet, rest: seq<Octet>)
    ensures Encode([b] + rest) == Encode([b]) + Encode(rest)
  {
    var pair := [Nibble(High(b)), Nibble(Low(b))];
    assert Encode([b] + rest) == pair + Encode(rest) by {
      assert ([b] + rest)[1..] == rest;
    }
    assert Encode([b]) == pair by {
      assert [b][1..] == [];
    }
  }

  lemma {:induction false} DecodeIsExact(h: string)
    requires |h| % 2 == 0
    ensures Decode(h).Some? <==> AllHex(h)
  {
    if h != "" {
      DecodeIsExact(h[2..]);
      HexValNibble(h[0]);
      HexValNibble(h[1]);
      assert h == [h[0], h[1]] + h[2..];
    }
  }

  lemma {:induction false} LowersDigits(h: string)
    requires |h| % 2 == 0 && AllHex(h) && Decode(h).Some?
    ensures Encode(Decode(h).value) == LowerAll(h)
  {
    if h != "" {
      LowersDigits(h[2..]);
      PairText(h[0], h[1]);
      EncodeConcat(Pair(HexVal(h[0]).value, HexVal(h[1]).value), Decode(h[2..]).value);
      LowerPair(h);
    }
  }

  /** Decoding succeeds exactly on hex digits, and re-encoding gives the lower-cased text. */
  lemma EncodeDecode(h: string)
    requires |h| % 2 == 0
    ensures Decode(h).Some? <==> AllHex(h)
    ensures AllHex(h) ==> Encode(Decode(h).value) == LowerAll(h)
  {
    DecodeIsExact(h);
    if AllHex(h) {
      LowersDigits(h);
    }
  }

  // -------------------------------------------------------------------------
  // Literals
  // -------------------------------------------------------------------------

  /** What the server and both clients emit for a blob. */
  function BlobLiteral(bytes: seq<Octet>): string { "X'" + Encode(bytes) + "'" }

  /** The shape the Rust decoder is meant to accept. */
  predicate IsBlobLiteral(s: string) {
    && |s| >= 3
    && (s[0] == 'X' || s[0] == 'x')
    && s[1] == '\'' && s[|s| - 1] == '\''
    && |s| % 2 == 1
    && AllHex(s[2..|s| - 1])
  }

  function Prepend(front: seq<Octet>, r: Option<seq<Octet>>): Option<seq<Octet>> {
    match r
    case Some(back) => Some(front + back)
    case None => None
  }

  /** What is decoded with what is left to decode gives `whole`. */
  predicate Decoding(out: seq<Octet>, left: string, whole: Option<seq<Octet>>)
    requires |left| % 2 == 0
  {
    Prepend(out, Decode(left)) == whole
  }

  lemma DecodeStart(h: string)
    requires |h| % 2 == 0
    ensures Decoding([], h, Decode(h))
  {
    assert Decode(h).Some? ==> [] + Decode(h).value == Decode(h).value;
  }

  lemma DecodeEnd(out: seq<Octet>, whole: Option<seq<Octet>>)
    requires Decoding(out, "", whole)
    ensures whole == Some(out)
  {
    assert out + [] == out;
  }

  lemma DropTwo(h: string, i: nat)
    requires i + 2 <= |h|
    ensures h[i..][2..] == h[i + 2..]
  {}

  lemma DecodePair(out: seq<Octet>, left: string, whole: Option<seq<Octet>>)
    requires left != "" && |left| % 2 == 0 && Decoding(out, left, whole)
    ensures HexVal(left[0]).None? || HexVal(left[1]).None? ==> whole == None
    ensures HexVal(left[0]).Some? && HexVal(left[1]).Some? ==>
      Decoding(out + [Pair(HexVal(left[0]).value, HexVal(left[1]).value)], left[2..], whole)
  {
    if HexVal(left[0]).Some? && HexVal(left[1]).Some? && Decode(left[2..]).Some? {
      Regroup(out, [Pair(HexVal(left[0]).value, HexVal(left[1]).value)], Decode(left[2..]).value);
    }
  }

  /** What `decode_blob_literal` of the Rust client computes. */
  function RustDecode(literal: string): (r: Option<seq<Octet>>)
    ensures r.Some? <==> IsBlobLiteral(literal)
  {
    if |literal| < 3 || !(literal[0] == 'X' || literal[0] == 'x') || literal[1] != '\''
       || literal[|literal| - 1] != '\'' || |literal| % 2 == 0 then None
    else
      EncodeDecode(literal[2..|literal| - 1]);
      Decode(literal[2..|literal| - 1])
  }

  /** The checks of the Rust client's `decode_blob_literal`, then its digit loop. */
  method DecodeBlobLiteral(literal: string) returns (r: Option<seq<Octet>>)
    ensures r == RustDecode(literal)
  {
    if |literal| < 3 || !(literal[0] == 'X' || literal[0] == 'x') || literal[1] != '\'' {
      return None;
    }
    if literal[|literal| - 1] != '\'' {
      return None;
    }
    var h := literal[2..|literal| - 1];
    if |h| % 2 != 0 {
      return None;
    }
    r := DecodeDigits(h);
  }

  method DecodeDigits(h: string) returns (r: Option<seq<Octet>>)
    requires |h| % 2 == 0
    ensures r == Decode(h)
  {
    var out: seq<Octet> := [];
    var i := 0;
    ghost var left, whole := h, Decode(h);
    DecodeStart(h);
    while i < |h|
      invariant 0 <= i <= |h| && i % 2 == 0 && left == h[i..]
      invariant Decoding(out, left, whole)
    {
      DecodePair(out, left, whole);
      var high, low := HexVal(h[i]), HexVal(h[i + 1]);
      if high.None? || low.None? {
        return None;
      }
      out := out + [Pair(high.value, low.value)];
      DropTwo(h, i);
      left, i := left[2..], i + 2;
    }
    DecodeEnd(out, whole);
    return Some(out);
  }

  /** The Python decoder: `^[Xx]'([0-9A-Fa-f]*)'$` under `re.match`, then `bytes.fromhex`,
      which raises on an odd number of digits. In Python `$` also matches just before a
      newline that ends the string. */
  function PythonDecode(s: string): Option<seq<Octet>> {
    var body := if |s| > 0 && s[|s| - 1] == '\n' then s[..|s| - 1] else s;
    if |body| >= 3 && (body[0] == 'X' || body[0] == 'x') && body[1] == '\''
       && body[|body| - 1] == '\'' && AllHex(body[2..|body| - 1])
       && |body| % 2 == 1
    then Decode(body[2..|body| - 1])
    else None
  }

  /** Exactness end to end: what any side writes, either client reads back unchanged. */
  lemma BlobRoundTrip(bytes: seq<Octet>)
    ensures RustDecode(BlobLiteral(bytes)) == Some(bytes)
    ensures PythonDecode(BlobLiteral(bytes)) == Some(bytes)
  {
    var s := BlobLiteral(bytes);
    assert s[2..|s| - 1] == Encode(bytes);
    DecodeEncode(bytes);
  }

  /** The two decoders agree on a string exactly when it is not a literal followed by one
      newline, which only the Python pattern lets through. */
  lemma DecodersAgree(s: string)
    ensures RustDecode(s) == PythonDecode(s)
       <==> !(|s| > 0 && s[|s| - 1] == '\n' && IsBlobLiteral(s[..|s| - 1]))
  {
    if |s| > 0 && s[|s| - 1] == '\n' {
      var body := s[..|s| - 1];
      if IsBlobLiteral(body) {
        EncodeDecode(body[2..|body| - 1]);
      }
    } else if IsBlobLiteral(s) {
      EncodeDecode(s[2..|s| - 1]);
    }
  }

  /** Re-encoding an accepted literal gives its normal form, and normal forms are fixed. */
  lemma Normalise(s: string)
    requires IsBlobLiteral(s)
    ensures BlobLiteral(RustDecode(s).value) == "X'" + LowerAll(s[2..|s| - 1]) + "'"
    ensures RustDecode(BlobLiteral(RustDecode(s).value)) == RustDecode(s)
  {
    EncodeDecode(s[2..|s| - 1]);
    BlobRoundTrip(RustDecode(s).value);
  }
}
