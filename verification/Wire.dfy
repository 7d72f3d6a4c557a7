/** Requests and replies as they travel: decoded bodies one way, framed encodings the other. */
module Wire {
  import opened Basics
  import opened JsonValue
  import opened HandlerSpec
  import opened Framing

  function Decoded(eng: Engine, bodies: seq<seq<Octet>>): seq<string> {
    seq(|bodies|, i requires 0 <= i < |bodies| => eng.decode(bodies[i]))
  }

  function Encoded(eng: Engine, replies: seq<Json>): seq<seq<Octet>> {
    seq(|replies|, i requires 0 <= i < |replies| => eng.encode(replies[i]))
  }

  lemma EncodedSnoc(eng: Engine, replies: seq<Json>, reply: Json)
    ensures Frames(Encoded(eng, replies + [reply])) == Frames(Encoded(eng, replies)) + Frame(eng.encode(reply))
  {
    assert Encoded(eng, replies + [reply]) == Encoded(eng, replies) + [eng.encode(reply)];
    FramesSnoc(Encoded(eng, replies), eng.encode(reply));
  }

  /** What the client has been sent: every reply framed, in order, as long as writes succeed,
      and at most a part of the one reply whose write failed. */
  ghost predicate Delivered(eng: Engine, before: seq<Octet>, replies: seq<Json>, writable: nat, after: seq<Octet>) {
    if |replies| <= writable then after == before + Frames(Encoded(eng, replies))
    else
      var whole := before + Frames(Encoded(eng, replies[..|replies| - 1]));
      whole <= after <= whole + Frame(eng.encode(replies[|replies| - 1]))
  }

  lemma DeliveredNext(eng: Engine, before: seq<Octet>, replies: seq<Json>, writable: nat, after: seq<Octet>,
                      reply: Json, after': seq<Octet>)
    requires Delivered(eng, before, replies, writable, after) && |replies| <= writable
    requires |replies| < writable ==> after' == after + Frame(eng.encode(reply))
    requires |replies| == writable ==> after <= after' <= after + Frame(eng.encode(reply))
    ensures Delivered(eng, before, replies + [reply], writable, after')
  {
    EncodedSnoc(eng, replies, reply);
    assert (replies + [reply])[..|replies|] == replies;
  }

  lemma DeliveredIsRead(eng: Engine, replies: seq<Json>, writable: nat, after: seq<Octet>)
    requires Delivered(eng, [], replies, writable, after) && |replies| <= writable + 1
    requires forall i :: 0 <= i < |replies| ==> |eng.encode(replies[i])| < U32_LIMIT
    ensures var seen := Requests(after, U32_LIMIT - 1);
      seen <= Encoded(eng, replies) && |seen| >= (if |replies| <= writable then |replies| else writable)
  {
    if |replies| <= writable {
      assert [] + Frames(Encoded(eng, replies)) == Frames(Encoded(eng, replies));
      RepliesAreRead(Encoded(eng, replies));
    } else {
      var whole, last := replies[..writable], replies[writable];
      var front := Frames(Encoded(eng, whole));
      assert [] + front == front && replies == whole + [last];
      EncodedSnoc(eng, whole, last);
      var part := after[|front|..];
      assert after == front + part;
      assert front + Frame(eng.encode(last)) == front + part + Frame(eng.encode(last))[|part|..];
      assert part <= Frame(eng.encode(last));
      assert Encoded(eng, replies) == Encoded(eng, whole) + [eng.encode(last)];
      if part == Frame(eng.encode(last)) {
        assert after == Frames(Encoded(eng, replies));
        RepliesAreRead(Encoded(eng, replies));
      } else {
        CutFrameIsStuck(eng.encode(last), part);
        FramesAreRead(Encoded(eng, whole), part, U32_LIMIT - 1);
      }
    }
  }
}
