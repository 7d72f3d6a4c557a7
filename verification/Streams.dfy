/** A socket as one side sees it: bytes arrive in arbitrary non-empty chunks until the peer
    closes; writes succeed until the peer goes away. */
module Streams {
  import opened Basics
  import opened Framing

  class Stream {
    var chunks: seq<seq<Octet>>
    var sent: seq<Octet>
    var writable: nat  // how many further writes succeed

    ghost predicate Valid()
      reads this
    {
      forall i :: 0 <= i < |chunks| ==> chunks[i] != []
    }

    ghost function Pending(): seq<Octet>
      reads this
    {
      Flatten(chunks)
    }

    constructor (chunks: seq<seq<Octet>>, writable: nat)
      requires forall i :: 0 <= i < |chunks| ==> chunks[i] != []
      ensures Valid() && Pending() == Flatten(chunks) && sent == [] && this.writable == writable
    {
      this.chunks, this.sent, this.writable := chunks, [], writable;
    }

    /** `recv`: some bytes of the next chunk, or nothing when the peer has closed. */
    method Receive(most: nat) returns (data: seq<Octet>)
      requires Valid() && most > 0
      modifies this`chunks
      ensures Valid() && |data| <= most
      ensures old(Pending()) == data + Pending()
      ensures data == [] ==> Pending() == []
    {
      if chunks == [] {
        return [];
      }
      var first := chunks[0];
      if |first| <= most {
        data := first;
        chunks := chunks[1..];
      } else {
        data := first[..most];
        chunks := [first[most..]] + chunks[1..];
        assert chunks[1..] == old(chunks)[1..];
        assert first == first[..most] + first[most..];
      }
    }

    /** `read_exact` and `_read_n_bytes`: exactly `n` bytes however they are chunked, or nothing
        if the peer closes before that. */
    method ReadExact(n: nat) returns (r: Option<seq<Octet>>)
      requires Valid()
      modifies this`chunks
      ensures Valid()
      ensures |old(Pending())| >= n ==> r == Some(old(Pending())[..n]) && Pending() == old(Pending())[n..]
      ensures |old(Pending())| < n ==> r == None && Pending() == []
    {
      var data: seq<Octet> := [];
      while |data| < n
        invariant Valid() && |data| <= n
        invariant old(Pending()) == data + Pending()
        decreases n - |data|
      {
        var chunk := Receive(n - |data|);
        if chunk == [] {
          assert data + [] == data;
          return None;
        }
        data := data + chunk;
      }
      return Some(data);
    }

    /** `write_all`: all of it, or a failure after some prefix. */
    method WriteAll(data: seq<Octet>) returns (ok: bool)
      modifies this`sent, this`writable
      ensures ok <==> old(writable) > 0
      ensures ok ==> sent == old(sent) + data && writable == old(writable) - 1
      ensures !ok ==> old(sent) <= sent <= old(sent) + data && writable == 0
    {
      if writable > 0 {
        sent := sent + data;
        writable := writable - 1;
        return true;
      }
      var k :| 0 <= k <= |data|;
      sent := sent + data[..k];
      return false;
    }

    /** The Rust client's `recv`: one frame, whatever its size. */
    method ReceiveFrame() returns (r: Option<seq<Octet>>)
      requires Valid()
      modifies this`chunks
      ensures Valid()
      ensures match Unframe(old(Pending()))
        case Some((body, rest)) => r == Some(body) && Pending() == rest
        case None => r == None
    {
      ghost var before := Pending();
      var header := ReadExact(4);
      if header.None? {
        return None;
      }
      r := ReadExact(HeaderValue(header.value));
      ghost var n := HeaderValue(header.value);
      if |before| >= 4 + n {
        assert before[4..][..n] == before[4..4 + n] && before[4..][n..] == before[4 + n..];
      }
    }

    /** The Python client's `_recv_data`: an empty body counts as no answer. */
    method ReceiveData() returns (r: Option<seq<Octet>>)
      requires Valid()
      modifies this`chunks
      ensures Valid()
      ensures match Unframe(old(Pending()))
        case Some((body, rest)) => Pending() == rest && r == (if body == [] then None else Some(body))
        case None => r == None
    {
      ghost var before := Pending();
      var header := ReadExact(4);
      if header.None? {
        return None;
      }
      ghost var n := HeaderValue(header.value);
      r := ReadExact(HeaderValue(header.value));
      if |before| >= 4 + n {
        assert before[4..][..n] == before[4..4 + n] && before[4..][n..] == before[4 + n..];
      }
      if r == Some([]) {
        r := None;
      }
    }
  }
}
