/** Length-prefixed frames: a 4-byte little-endian length and that many bytes, both ways. */
module Framing {
  import opened Basics

  /** `(len as u32).to_le_bytes()`: the length is truncated to 32 bits. */
  function Header(n: nat): seq<Octet> {
    [n % 256, n / 256 % 256, n / 65536 % 256, n / 16777216 % 256]
  }

  /** Four bytes, the least significant first. */
  lemma HeaderIsLittleEndian(n: nat)
    requires n < U32_LIMIT
    ensures |Header(n)| == 4
    ensures n == Header(n)[0] as int + 0x100 * Header(n)[1] as int + 0x1_0000 * Header(n)[2] as int
      + 0x100_0000 * Header(n)[3] as int
  {
    HeaderTruncates(n);
  }

  function HeaderValue(h: seq<Octet>): nat
    requires |h| == 4
  {
    h[0] as int + 256 * h[1] as int + 65536 * h[2] as int + 16777216 * h[3] as int
  }

  lemma HeaderTruncates(n: nat)
    ensures HeaderValue(Header(n)) == n % U32_LIMIT
  {
    var a, b, c := n / 256, n / 65536, n / 16777216;
    assert n == 256 * a + n % 256;
    assert a / 256 == b && b / 256 == c;
    assert a == 256 * b + a % 256 && b == 256 * c + b % 256 && c == 256 * (c / 256) + c % 256;
  }

  function Frame(body: seq<Octet>): seq<Octet> { Header(|body|) + body }

  function Frames(bodies: seq<seq<Octet>>): seq<Octet> {
    if bodies == [] then [] else Frame(bodies[0]) + Frames(bodies[1..])
  }

  /** Read one frame: the Rust client's `recv`. */
  function Unframe(s: seq<Octet>): Option<(seq<Octet>, seq<Octet>)> {
    if |s| < 4 then None
    else
      var n := HeaderValue(s[..4]);
      if |s| < 4 + n then None else Some((s[4..4 + n], s[4 + n..]))
  }

  lemma FrameHeader(body: seq<Octet>, rest: seq<Octet>)
    ensures (Frame(body) + rest)[..4] == Header(|body|)
    ensures |body| < U32_LIMIT ==> HeaderValue((Frame(body) + rest)[..4]) == |body|
  {
    HeaderTruncates(|body|);
    assert (Frame(body) + rest)[..4] == Header(|body|);
  }

  /** A frame is read back, with nothing taken from what follows, exactly when its body is
      shorter than 2^32 bytes. */
  lemma FrameRoundTrip(body: seq<Octet>, rest: seq<Octet>)
    ensures Unframe(Frame(body) + rest) == Some((body, rest)) <==> |body| < U32_LIMIT
  {
    HeaderTruncates(|body|);
    FrameHeader(body, rest);
    var s := Frame(body) + rest;
    if |body| < U32_LIMIT {
      assert s[4..4 + |body|] == body && s[4 + |body|..] == rest;
    } else {
      assert HeaderValue(s[..4]) < |body|;
    }
  }

  /** The complete in-limit frames at the front of a stream, as the server reads them. */
  function Requests(s: seq<Octet>, limit: nat): seq<seq<Octet>>
    decreases |s|
  {
    if Stuck(s, limit) then []
    else
      var n := HeaderValue(s[..4]);
      [s[4..4 + n]] + Requests(s[4 + n..], limit)
  }

  /** The server can take no further request: the frame is incomplete or over the limit. */
  predicate Stuck(s: seq<Octet>, limit: nat) {
    |s| < 4 || HeaderValue(s[..4]) > limit || |s| < 4 + HeaderValue(s[..4])
  }

  /** What is left after the complete in-limit frames. */
  function Leftover(s: seq<Octet>, limit: nat): seq<Octet>
    decreases |s|
  {
    if Stuck(s, limit) then s else Leftover(s[4 + HeaderValue(s[..4])..], limit)
  }

  lemma OneRequest(body: seq<Octet>, rest: seq<Octet>, limit: nat)
    requires |body| <= limit < U32_LIMIT
    ensures Requests(Frame(body) + rest, limit) == [body] + Requests(rest, limit)
    ensures Leftover(Frame(body) + rest, limit) == Leftover(rest, limit)
  {
    var s := Frame(body) + rest;
    FrameHeader(body, rest);
    assert s[4..4 + |body|] == body && s[4 + |body|..] == rest;
  }

  /** Complete in-limit frames at the front of a stream are its first requests. */
  lemma {:induction false} RequestsAfterFrames(bodies: seq<seq<Octet>>, rest: seq<Octet>, limit: nat)
    requires limit < U32_LIMIT && forall i :: 0 <= i < |bodies| ==> |bodies[i]| <= limit
    ensures Requests(Frames(bodies) + rest, limit) == bodies + Requests(rest, limit)
    ensures Leftover(Frames(bodies) + rest, limit) == Leftover(rest, limit)
  {
    if bodies == [] {
      assert [] + rest == rest && [] + Requests(rest, limit) == Requests(rest, limit);
    } else {
      RequestsAfterFrames(bodies[1..], rest, limit);
      Regroup(Frame(bodies[0]), Frames(bodies[1..]), rest);
      OneRequest(bodies[0], Frames(bodies[1..]) + rest, limit);
      FirstThen(bodies, Requests(rest, limit));
    }
  }

  /** Any complete in-limit frames are read in order, whatever stuck tail follows them. */
  lemma FramesAreRead(bodies: seq<seq<Octet>>, tail: seq<Octet>, limit: nat)
    requires limit < U32_LIMIT && Stuck(tail, limit)
    requires forall i :: 0 <= i < |bodies| ==> |bodies[i]| <= limit
    ensures Requests(Frames(bodies) + tail, limit) == bodies
    ensures Leftover(Frames(bodies) + tail, limit) == tail
  {
    RequestsAfterFrames(bodies, tail, limit);
    assert bodies + [] == bodies;
  }

  lemma Digit256(low: Octet, high: nat)
    ensures (low as int + 256 * high) / 256 == high && (low as int + 256 * high) % 256 == low
  {}

  lemma HeaderOfValue(h: seq<Octet>)
    requires |h| == 4
    ensures Header(HeaderValue(h)) == h
  {
    var c := h[2] as int + 256 * h[3] as int;
    var b := h[1] as int + 256 * c;
    var a := h[0] as int + 256 * b;
    Digit256(h[3], 0);
    Digit256(h[2], h[3]);
    Digit256(h[1], c);
    Digit256(h[0], b);
    assert HeaderValue(h) == a && a / 65536 == a / 256 / 256 && a / 16777216 == a / 256 / 256 / 256;
  }

  lemma FrontFrame(s: seq<Octet>)
    requires |s| >= 4 && |s| >= 4 + HeaderValue(s[..4])
    ensures var n := HeaderValue(s[..4]); s == Frame(s[4..4 + n]) + s[4 + n..]
  {
    HeaderOfValue(s[..4]);
  }

  lemma DecomposesFirst(s: seq<Octet>, limit: nat)
    requires !Stuck(s, limit)
    requires var rest := s[4 + HeaderValue(s[..4])..]; rest == Frames(Requests(rest, limit)) + Leftover(rest, limit)
    ensures s == Frames(Requests(s, limit)) + Leftover(s, limit)
  {
    var n := HeaderValue(s[..4]);
    var body, rest := s[4..4 + n], s[4 + n..];
    FrontFrame(s);
    assert Requests(s, limit)[1..] == Requests(rest, limit);
    Regroup(Frame(body), Frames(Requests(rest, limit)), Leftover(rest, limit));
  }

  /** Every stream is complete in-limit frames followed by a stuck tail, in one way only: the
      requests the server handles and what it leaves unread. */
  lemma {:induction false} StreamsDecompose(s: seq<Octet>, limit: nat)
    ensures s == Frames(Requests(s, limit)) + Leftover(s, limit)
    ensures Stuck(Leftover(s, limit), limit)
    decreases |s|
  {
    if Stuck(s, limit) {
      assert [] + s == s;
    } else {
      StreamsDecompose(s[4 + HeaderValue(s[..4])..], limit);
      DecomposesFirst(s, limit);
    }
  }

  /** A client that reads frame after frame sees exactly the bodies that were sent. */
  lemma RepliesAreRead(bodies: seq<seq<Octet>>)
    requires forall i :: 0 <= i < |bodies| ==> |bodies[i]| < U32_LIMIT
    ensures Requests(Frames(bodies), U32_LIMIT - 1) == bodies
  {
    FramesAreRead(bodies, [], U32_LIMIT - 1);
    assert Frames(bodies) + [] == Frames(bodies);
  }

  lemma {:induction false} FramesSnoc(bodies: seq<seq<Octet>>, body: seq<Octet>)
    ensures Frames(bodies + [body]) == Frames(bodies) + Frame(body)
  {
    if bodies == [] {
      assert bodies + [body] == [body] && [body][1..] == [];
    } else {
      assert (bodies + [body])[1..] == bodies[1..] + [body];
      FramesSnoc(bodies[1..], body);
    }
  }

  /** A reply cut short by a failed write is never taken for a reply. */
  lemma CutFrameIsStuck(body: seq<Octet>, part: seq<Octet>)
    requires |body| < U32_LIMIT && part <= Frame(body) && part != Frame(body)
    ensures Stuck(part, U32_LIMIT - 1)
  {
    assert Frame(body) == part + Frame(body)[|part|..];
    assert |part| < |Frame(body)|;
    if |part| >= 4 {
      FrameHeader(body, []);
      assert part[..4] == (Frame(body) + [])[..4];
    }
  }
}
