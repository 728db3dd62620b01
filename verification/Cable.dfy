/**
 What a stream of frames conserves between the writer at one end and the reader at the other. Both
 directions of the tunnel are instances: the packets taken for writing, those written whole, those
 whose frames the reader has completed, and the bytes in between.
 */
module Cable {
  import opened Bytes
  import opened Framing

  /**
   Every packet taken is accounted for; after a loss, what arrived is still an in-order prefix of what
   was written whole.
   */
  ghost predicate Conserved(intact: bool, dead: bool, taken: seq<Packet>, wrote: seq<Packet>, arrived: seq<Packet>,
                            arriving: seq<Byte>, unwritten: seq<Byte>)
  {
    if intact then
      Rest(arriving + unwritten) == [] && taken == arrived + Frames(arriving + unwritten)
    else
      dead && arrived + Frames(arriving) <= wrote
  }

  lemma TakeConserved(dead: bool, taken: seq<Packet>, wrote: seq<Packet>, arrived: seq<Packet>,
                      arriving: seq<Byte>, p: Packet)
    requires Conserved(true, dead, taken, wrote, arrived, arriving, [])
    requires Framable(p)
    ensures Conserved(true, dead, taken + [p], wrote, arrived, arriving, Encode(p))
  {
    assert arriving + [] == arriving;
    ParseAppend(arriving, Encode(p));
    ParseOne(p);
    assert [] + Encode(p) == Encode(p);
    Assoc(arrived, Frames(arriving), [p]);
  }

  /** Bytes that complete a stream complete a frame of it. */
  lemma LastBytesEndAFrame(s: seq<Byte>, more: seq<Byte>)
    requires Rest(s + more) == [] && more != []
    ensures |Frames(s)| < |Frames(s + more)|
  {
    ParseAppend(s, more);
    assert !HasFrame(Rest(s) + more) ==> Rest(Rest(s) + more) == Rest(s) + more;
  }

  lemma PrefixFrames(s: seq<Byte>, kept: seq<Byte>)
    requires kept <= s
    ensures Frames(kept) <= Frames(s)
  {
    ParseAppend(kept, s[|kept|..]);
    assert kept + s[|kept|..] == s;
  }

  /** Whatever part of the flow is lost, the packets still to arrive are a prefix of those written whole. */
  lemma LossConserved(intact: bool, dead: bool, taken: seq<Packet>, wrote: seq<Packet>, arrived: seq<Packet>,
                      arriving: seq<Byte>, unwritten: seq<Byte>, kept: seq<Byte>)
    requires Conserved(intact, dead, taken, wrote, arrived, arriving, unwritten)
    requires wrote <= taken && (intact ==> |taken| <= |wrote| + if unwritten == [] then 0 else 1)
    requires kept <= arriving
    ensures arrived + Frames(kept) <= wrote
  {
    PrefixFrames(arriving, kept);
    if intact {
      assert arriving <= arriving + unwritten;
      PrefixFrames(arriving + unwritten, arriving);
      if unwritten != [] {
        LastBytesEndAFrame(arriving, unwritten);
      }
      assert arrived + Frames(arriving) <= taken;
    }
    assert arrived + Frames(kept) <= arrived + Frames(arriving);
  }

  lemma ArriveConserved(intact: bool, dead: bool, taken: seq<Packet>, wrote: seq<Packet>, arrived: seq<Packet>,
                        got: seq<Byte>, wire: seq<Byte>, unwritten: seq<Byte>)
    requires Conserved(intact, dead, taken, wrote, arrived, got + wire, unwritten)
    requires HasFrame(got) && FrameEnd(got) == |got|
    ensures Conserved(intact, dead, taken, wrote, arrived + [FirstFrame(got)], wire, unwritten)
  {
    var p := FirstFrame(got);
    FrameThen(got, wire);
    FrameThen(got, wire + unwritten);
    Assoc(got, wire, unwritten);
    Assoc(arrived, [p], Frames(wire));
    Assoc(arrived, [p], Frames(wire + unwritten));
  }

  lemma PayloadSnoc(ps: seq<Packet>, p: Packet)
    ensures Payload(ps + [p]) == Payload(ps) + |p|
  {
    PayloadAppend(ps, [p]);
    assert Payload([p]) == |p| + Payload([]);
  }

  lemma PayloadPrefix(a: seq<Packet>, b: seq<Packet>)
    requires a <= b
    ensures Payload(a) <= Payload(b)
  {
    PayloadAppend(a, b[|a|..]);
    assert a + b[|a|..] == b;
  }
}
