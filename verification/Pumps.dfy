/**
 The two pump threads of the Windows worker (win/src/worker.rs): Wintun to the cable, and back.
 */
module Pumps {
  import opened Bytes
  import opened Cable
  import opened Framing
  import opened SharedState
  import opened Streams

  /** The packets before the first one too long to frame. */
  function BeforeOversize(ps: seq<Packet>): (r: seq<Packet>)
    ensures AllFramable(r)
  {
    if ps == [] || !Framable(ps[0]) then [] else [ps[0]] + BeforeOversize(ps[1..])
  }

  /**
   Pump A: write each packet the session hands out, until the session ends or a write fails; an
   over-long packet counts as a failed write. The counter covers exactly the packets written whole.
   */
  method PumpUpload(session: seq<Packet>, out: ByteSink, shared: Shared)
    requires out.Valid() && out.written == []
    modifies out, shared`tx
    ensures out.Valid() && out.written == Clip(EncodeAll(BeforeOversize(session)), out.limit)
    ensures shared.tx == old(shared.tx) + Payload(Frames(out.written))
  {
    ghost var count := shared.tx;
    ghost var sent := session[..0];
    for i := 0 to |session|
      invariant BeforeOversize(session) == sent + BeforeOversize(session[i..])
      invariant AllFramable(sent)
      invariant out.Valid() && out.written == EncodeAll(sent)
      invariant shared.tx == count + Payload(sent)
    {
      var packet := session[i];
      ghost var after := BeforeOversize(session[i + 1..]);
      assert session[i..][1..] == session[i + 1..];
      Assoc(sent, [packet], after);
      var res := WriteFrame(out, packet);
      if res.Err? {
        if Framable(packet) {
          CutFrame(sent, packet, after, out.limit);
        } else {
          assert sent + [] == sent;
          RoundTrip(sent);
        }
        return;
      }
      OneMoreFrame(sent, packet);
      shared.tx := shared.tx + |packet|;
      sent := sent + [packet];
    }
    assert session[|session|..] == [] && sent + [] == sent;
    RoundTrip(sent);
  }

  /** The packets before the first over-long one are the longest prefix a frame writer can take. */
  lemma {:induction false} BeforeOversizeIsLongest(ps: seq<Packet>)
    ensures var r := BeforeOversize(ps);
      r <= ps && (|r| == |ps| || !Framable(ps[|r|]))
  {
    if ps != [] && Framable(ps[0]) {
      BeforeOversizeIsLongest(ps[1..]);
    }
  }

  /** A Wintun session seen from pump B: the packets sent to it, and how many it still has room for. */
  class Session {
    var sent: seq<Packet>
    const grants: Option<nat>

    constructor (grants: Option<nat>)
      ensures sent == [] && this.grants == grants
    {
      this.sent, this.grants := [], grants;
    }

    /** `allocate_send_packet`, then copy and `send_packet`; only the allocation can fail. */
    method SendPacket(p: Packet) returns (ok: bool)
      modifies this
      ensures ok <==> grants.None? || |old(sent)| < grants.value
      ensures sent == if ok then old(sent) + [p] else old(sent)
    {
      ok := grants.None? || |sent| < grants.value;
      if ok {
        sent := sent + [p];
      }
    }
  }

  /**
   Pump B: hand every complete, non-empty frame of the stream to Wintun, in order, until the stream
   ends or the session refuses a packet. The counter covers exactly the packets handed over.
   */
  method PumpDownload(inp: ByteSource, session: Session, shared: Shared)
    requires |session.sent| == 0
    modifies inp, session, shared`rx
    ensures var all := Deliverable(Frames(old(inp.unread)));
      session.sent == all[..Accepted(session.grants, |all|)]
    ensures shared.rx == old(shared.rx) + Payload(session.sent)
  {
    ghost var all := Deliverable(Frames(inp.unread));
    ghost var count := shared.rx;
    assert session.sent + all == all;
    while true
      invariant all == session.sent + Deliverable(Frames(inp.unread))
      invariant session.grants.Some? ==> |session.sent| <= session.grants.value
      invariant shared.rx == count + Payload(session.sent)
      decreases |inp.unread|
    {
      ghost var left, sent := inp.unread, session.sent;
      var pkt := ReadFrame(inp);
      if pkt.Err? {
        NoneLeft(sent, left);
        AllGranted(all, session.grants);
        return;
      }
      DeliverOne(sent, left, pkt.value, inp.unread);
      if |pkt.value| == 0 || |pkt.value| > MAX_FRAME {
        continue;
      }
      var ok := session.SendPacket(pkt.value);
      if !ok {
        RestRefused(sent, pkt.value, Deliverable(Frames(inp.unread)), session.grants);
        return;
      }
      PayloadSnoc(sent, pkt.value);
      shared.rx := shared.rx + |pkt.value|;
    }
  }

  lemma NoneLeft(sent: seq<Packet>, left: seq<Byte>)
    requires !HasFrame(left)
    ensures sent + Deliverable(Frames(left)) == sent
  {
    assert |Frames(left)| == 0;
  }

  lemma AllGranted(all: seq<Packet>, grants: Option<nat>)
    requires grants.None? || |all| <= grants.value
    ensures all[..Accepted(grants, |all|)] == all
  {
  }

  lemma RestRefused(sent: seq<Packet>, p: Packet, rest: seq<Packet>, grants: Option<nat>)
    requires grants == Some(|sent|)
    ensures var all := (sent + [p]) + rest; all[..Accepted(grants, |all|)] == sent
  {
  }

  /** One turn of the download loop: the next frame is the next packet due, unless it is empty. */
  lemma DeliverOne(sent: seq<Packet>, left: seq<Byte>, p: Packet, now: seq<Byte>)
    requires HasFrame(left) && p == FirstFrame(left) && now == left[FrameEnd(left)..]
    ensures sent + Deliverable(Frames(left)) == (if |p| == 0 then sent else sent + [p]) + Deliverable(Frames(now))
  {
    FirstDue(left);
    Assoc(sent, OneDeliverable(p), Deliverable(Frames(now)));
    assert |p| == 0 ==> sent + OneDeliverable(p) == sent;
  }

  lemma FirstDue(left: seq<Byte>)
    requires HasFrame(left)
    ensures Deliverable(Frames(left)) == OneDeliverable(FirstFrame(left)) + Deliverable(Frames(left[FrameEnd(left)..]))
  {
    assert Frames(left)[1..] == Frames(left[FrameEnd(left)..]);
  }
}
