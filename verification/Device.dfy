/**
 The phone's packet device (rickynet-core/src/device.rs): the reader task that deframes the cable,
 the writer task that frames replies onto it, and the two polling operations the netstack calls.
 */
module Device {
  import opened Bytes
  import opened Framing
  import opened Streams

  /** Packets the incoming channel holds before the reader task has to wait. */
  const INCOMING_CAP: nat := 2048

  /** What `poll_read` works on: the incoming channel and a packet partly copied out, with its cursor. */
  datatype ReadSide = ReadSide(incoming: seq<Packet>, leftover: Option<(Packet, nat)>) {
    predicate WellFormed() {
      leftover.Some? ==> leftover.value.1 < |leftover.value.0|
    }

    /** The bytes a read may be taken from: the rest of the leftover packet, else the next packet. */
    function Head(): Option<seq<Byte>>
      requires WellFormed()
    {
      if leftover.Some? then Some(leftover.value.0[leftover.value.1..])
      else if incoming != [] then Some(incoming[0])
      else None
    }

    /** Every byte still to be read. */
    function Bytes(): seq<Byte>
      requires WellFormed()
    {
      (if leftover.Some? then leftover.value.0[leftover.value.1..] else []) + Concat(incoming)
    }
  }

  /** The device after a `poll_read` into a buffer with `room` bytes free. */
  function AfterRead(d: ReadSide, room: nat): (e: ReadSide)
    requires d.WellFormed()
    ensures e.WellFormed()
  {
    match d.leftover
    case Some((pkt, pos)) =>
      var n := Min(|pkt| - pos, room);
      d.(leftover := if pos + n < |pkt| then Some((pkt, pos + n)) else None)
    case None =>
      if d.incoming == [] then d
      else
        var pkt := d.incoming[0];
        var n := Min(|pkt|, room);
        ReadSide(d.incoming[1..], if n < |pkt| then Some((pkt, n)) else None)
  }

  /** What `poll_read` copies out: nothing at all (`Pending`), or the first bytes of the head packet. */
  function ReadOut(d: ReadSide, room: nat): (r: Option<seq<Byte>>)
    requires d.WellFormed()
    ensures r.Some? ==> |r.value| <= room
  {
    if d.Head().None? then None else Some(d.Head().value[..Min(|d.Head().value|, room)])
  }

  /** No byte is lost, repeated or reordered by a read, whatever room it had. */
  lemma ReadTakesFront(d: ReadSide, room: nat)
    requires d.WellFormed()
    ensures d.Bytes() == (if ReadOut(d, room).Some? then ReadOut(d, room).value else []) + AfterRead(d, room).Bytes()
  {
    match d.leftover
    case Some((pkt, pos)) =>
      var n := Min(|pkt| - pos, room);
      CutDrop(pkt, pos, pos + n);
      Assoc(pkt[pos..pos + n], pkt[pos + n..], Concat(d.incoming));
    case None =>
      if d.incoming != [] {
        var pkt := d.incoming[0];
        var n := Min(|pkt|, room);
        assert pkt == pkt[..n] + pkt[n..];
        Assoc(pkt[..n], pkt[n..], Concat(d.incoming[1..]));
      }
  }

  /**
   A completed read of no bytes is what the netstack would take for the end of the stream. It
   happens exactly when the buffer had no room or the next packet is empty.
   */
  lemma LooksLikeEofExactly(d: ReadSide, room: nat)
    requires d.WellFormed()
    ensures ReadOut(d, room) == Some([]) <==>
            d.Head().Some? && (room == 0 || (d.leftover.None? && d.incoming[0] == []))
  {
    if d.Head().Some? {
      assert |ReadOut(d, room).value| == Min(|d.Head().value|, room);
    }
  }

  class FramedDevice {
    var incoming: seq<Packet>
    var leftover: Option<(Packet, nat)>
    /** Packets queued for the writer task. */
    var outgoing: seq<Packet>
    /** Has the writer task ended and dropped its end of the queue? */
    var writerGone: bool

    ghost predicate Valid()
      reads this
    {
      ReadState().WellFormed()
    }

    ghost function ReadState(): ReadSide
      reads this
    {
      ReadSide(incoming, leftover)
    }

    constructor ()
      ensures Valid() && ReadState() == ReadSide([], None) && outgoing == [] && !writerGone
    {
      incoming, leftover, outgoing, writerGone := [], None, [], false;
    }

    /** The bytes copied into the caller's buffer, or `None` for `Pending`. */
    method PollRead(room: nat) returns (r: Option<seq<Byte>>)
      requires Valid()
      modifies this`incoming, this`leftover
      ensures Valid()
      ensures r == ReadOut(old(ReadState()), room)
      ensures ReadState() == AfterRead(old(ReadState()), room)
      ensures old(ReadState().Bytes()) == (if r.Some? then r.value else []) + ReadState().Bytes()
    {
      ReadTakesFront(ReadState(), room);
      match leftover {
        case Some((pkt, pos)) =>
          leftover := None;
          var n := if |pkt| - pos <= room then |pkt| - pos else room;
          r := Some(pkt[pos..pos + n]);
          assert pkt[pos..pos + n] == pkt[pos..][..n];
          if pos + n < |pkt| {
            leftover := Some((pkt, pos + n));
          }
        case None =>
          if incoming == [] {
            // Closed or merely empty: either way the read parks.
            return None;
          }
          var pkt := incoming[0];
          incoming := incoming[1..];
          var n := if |pkt| <= room then |pkt| else room;
          r := Some(pkt[..n]);
          if n < |pkt| {
            leftover := Some((pkt, n));
          }
      }
    }

    /** Queue one packet for the writer task; fails only once that task is gone. */
    method PollWrite(buf: Packet) returns (r: Result<nat, IoError>)
      modifies this`outgoing
      ensures r == if writerGone then Err(BrokenPipe) else Ok(|buf|)
      ensures outgoing == if writerGone then old(outgoing) else old(outgoing) + [buf]
    {
      if writerGone {
        return Err(BrokenPipe);
      }
      outgoing := outgoing + [buf];
      r := Ok(|buf|);
    }
  }

  /** The sending end of the incoming channel: what was queued, and the sends left before the device is dropped. */
  class Channel {
    var queue: seq<Packet>
    var sends: Option<nat>

    constructor (sends: Option<nat>)
      ensures queue == [] && this.sends == sends
    {
      this.queue, this.sends := [], sends;
    }

    predicate Open()
      reads this
    {
      sends != Some(0)
    }

    method Send(p: Packet) returns (ok: bool)
      modifies this
      ensures ok == old(Open())
      ensures ok ==> queue == old(queue) + [p]
      ensures ok ==> sends == if old(sends).None? then None else Some(old(sends).value - 1)
      ensures !ok ==> queue == old(queue) && sends == old(sends)
    {
      if sends == Some(0) {
        return false;
      }
      queue := queue + [p];
      sends := if sends.None? then None else Some(sends.value - 1);
      ok := true;
    }
  }

  /** The byte counters surfaced to the app. */
  class Counters {
    var rx: nat
    var tx: nat
  }

  /**
   `reader_task`: queue every complete frame of the stream, in order, until the stream ends or the
   device is dropped. The counter covers the packets queued and the one refused, if any.
   */
  method ReaderTask(rd: ByteSource, tx: Channel, counters: Counters)
    modifies rd, tx, counters`tx
    ensures var frames := Frames(old(rd.unread)); var k := Accepted(old(tx.sends), |frames|);
      && tx.queue == old(tx.queue) + frames[..k]
      && counters.tx == old(counters.tx) + Payload(if k < |frames| then frames[..k + 1] else frames)
  {
    ghost var s := rd.unread;
    ghost var done := Frames(s)[..0];
    ghost var queue, sends, count := tx.queue, tx.sends, counters.tx;
    assert done + Frames(s) == Frames(s);
    while true
      invariant Frames(s) == done + Frames(rd.unread)
      invariant tx.queue == queue + done
      invariant tx.sends == if sends.None? then None else Some(sends.value - |done|)
      invariant sends.Some? ==> |done| <= sends.value
      invariant counters.tx == count + Payload(done)
      decreases |rd.unread|
    {
      // read_u16 then read_exact: the same two reads as the blocking reader.
      ghost var left := rd.unread;
      var frame := ReadFrame(rd);
      if frame.Err? {
        NoneWaiting(done, left);
        AllSent(done, sends);
        break;
      }
      ghost var next := done + [frame.value];
      Assoc(done, [frame.value], Frames(rd.unread));
      PayloadAppend(done, [frame.value]);
      counters.tx := counters.tx + |frame.value|;
      var ok := tx.Send(frame.value);
      if !ok {
        OneRefused(done, frame.value, Frames(rd.unread), sends);
        break;
      }
      Assoc(queue, done, [frame.value]);
      done := next;
    }
  }

  lemma NoneWaiting(done: seq<Packet>, left: seq<Byte>)
    requires !HasFrame(left)
    ensures done + Frames(left) == done
  {
    assert |Frames(left)| == 0;
  }

  lemma AllSent(done: seq<Packet>, sends: Option<nat>)
    requires sends.None? || |done| <= sends.value
    ensures Accepted(sends, |done|) == |done| && done[..|done|] == done
  {
  }

  lemma OneRefused(done: seq<Packet>, p: Packet, more: seq<Packet>, sends: Option<nat>)
    requires sends == Some(|done|)
    ensures var all := done + ([p] + more);
      Accepted(sends, |all|) == |done| < |all| && all[..|done|] == done && all[..|done| + 1] == done + [p]
  {
  }

  /**
   `writer_task`: frame every queued packet that fits a frame, dropping the others, until the queue
   closes or the cable breaks. The counter covers exactly the packets written whole.
   */
  method WriterTask(wr: ByteSink, queue: seq<Packet>, counters: Counters)
    requires wr.Valid() && wr.written == []
    modifies wr, counters`rx
    ensures wr.Valid() && wr.written == Clip(EncodeAll(FramableOnly(queue)), wr.limit)
    ensures counters.rx == old(counters.rx) + Payload(Frames(wr.written))
  {
    ghost var count := counters.rx;
    ghost var sent := queue[..0];
    for i := 0 to |queue|
      invariant FramableOnly(queue) == sent + FramableOnly(queue[i..])
      invariant AllFramable(sent)
      invariant wr.Valid() && wr.written == EncodeAll(sent)
      invariant counters.rx == count + Payload(sent)
    {
      var pkt := queue[i];
      ghost var after := FramableOnly(queue[i + 1..]);
      assert queue[i..][1..] == queue[i + 1..];
      assert sent + ([pkt] + after) == sent + [pkt] + after;
      if |pkt| > MAX_FRAME {
        continue;
      }
      var res := WriteFrame(wr, pkt);
      if res.Err? {
        CutFrame(sent, pkt, after, wr.limit);
        return;
      }
      OneMoreFrame(sent, pkt);
      counters.rx := counters.rx + |pkt|;
      sent := sent + [pkt];
    }
    assert queue[|queue|..] == [] && sent + [] == sent;
    RoundTrip(sent);
  }
}
