/**
 Blocking byte streams and the frame readers and writers over them.

 A `ByteSource` is a stream seen from its reader: the bytes that will still arrive before the end
 of the stream. A `ByteSink` is a stream seen from its writer: the bytes it took, and the number of bytes
 after which it breaks (`None` when it never does). Both ends are therefore quantified over every
 point at which a peer can disappear.
 */
module Streams {
  import opened Bytes
  import opened Framing

  datatype IoError = UnexpectedEof | BrokenPipe | InvalidInput | InvalidData | Refused | NotFound

  class ByteSource {
    var unread: seq<Byte>

    constructor (bytes: seq<Byte>)
      ensures unread == bytes
    {
      unread := bytes;
    }

    /** Fill a buffer of `n` bytes, or fail at the end of the stream having used up what was left. */
    method ReadExact(n: nat) returns (r: Result<seq<Byte>, IoError>)
      modifies this
      ensures if n <= |old(unread)|
              then r == Ok(old(unread)[..n]) && unread == old(unread)[n..]
              else r == Err(UnexpectedEof) && unread == []
    {
      if n <= |unread| {
        r := Ok(unread[..n]);
        unread := unread[n..];
      } else {
        r := Err(UnexpectedEof);
        unread := [];
      }
    }
  }

  /** What is left of `s` on a stream that breaks after `limit` bytes. */
  function Clip(s: seq<Byte>, limit: Option<nat>): (r: seq<Byte>)
    ensures r <= s
    ensures Fits(s, limit) <==> r == s
    ensures limit.Some? ==> |r| == Min(|s|, limit.value)
  {
    if Fits(s, limit) then s else s[..limit.value]
  }

  predicate Fits(s: seq<Byte>, limit: Option<nat>) {
    limit.None? || |s| <= limit.value
  }

  class ByteSink {
    var written: seq<Byte>
    const limit: Option<nat>

    predicate Valid()
      reads this
    {
      Fits(written, limit)
    }

    constructor (limit: Option<nat>)
      ensures Valid() && written == [] && this.limit == limit
    {
      this.written, this.limit := [], limit;
    }

    method WriteAll(data: seq<Byte>) returns (r: Result<(), IoError>)
      requires Valid()
      modifies this
      ensures Valid() && written == Clip(old(written) + data, limit)
      ensures r == if Fits(old(written) + data, limit) then Ok(()) else Err(BrokenPipe)
    {
      if limit.None? || |written| + |data| <= limit.value {
        written := written + data;
        r := Ok(());
      } else {
        written := written + data[..limit.value - |written|];
        r := Err(BrokenPipe);
      }
    }
  }

  /** `encode_frame` on a growable buffer, as a release build runs it. */
  method EncodeFrame(packet: Packet, out: ByteSink) returns (n: nat)
    requires out.limit.None?
    modifies out
    ensures out.written == old(out.written) + Encode(packet)
    ensures n == |Encode(packet)|
  {
    var len := if |packet| <= MAX_FRAME then |packet| else MAX_FRAME;
    var _ := out.WriteAll(BigEndian16(len));
    var _ := out.WriteAll(packet[..len]);
    assert out.written == old(out.written) + Encode(packet);
    n := LEN_PREFIX + len;
  }

  /**
   `read_frame`: one whole packet, or an end-of-file error. On success exactly the packet's frame
   has been consumed; on failure there was no complete frame left on the stream.
   */
  method ReadFrame(r: ByteSource) returns (res: Result<Packet, IoError>)
    modifies r
    ensures res.Ok? <==> HasFrame(old(r.unread))
    ensures res.Ok? ==> Framable(res.value) && Encode(res.value) + r.unread == old(r.unread)
    ensures res.Ok? ==> res.value == FirstFrame(old(r.unread)) && r.unread == old(r.unread)[FrameEnd(old(r.unread))..]
    ensures res.Err? ==> res.error == UnexpectedEof && r.unread == []
  {
    ghost var was := r.unread;
    var head := r.ReadExact(LEN_PREFIX);
    if head.Err? {
      return Err(head.error);
    }
    var len := FromBigEndian16(head.value[0], head.value[1]);
    assert BodyLength(was) == len;
    var body := r.ReadExact(len);
    if body.Err? {
      return Err(body.error);
    }
    FrameReencodes(was);
    assert body.value == FirstFrame(was);
    res := Ok(body.value);
  }

  /**
   `write_frame`: an over-long packet is refused before anything is written; otherwise the whole
   frame goes out, or the sink breaks inside it.
   */
  method WriteFrame(w: ByteSink, packet: Packet) returns (res: Result<(), IoError>)
    requires w.Valid()
    modifies w
    ensures w.Valid()
    ensures !Framable(packet) ==> res == Err(InvalidInput) && w.written == old(w.written)
    ensures Framable(packet) ==>
              && w.written == Clip(old(w.written) + Encode(packet), w.limit)
              && res == if Fits(old(w.written) + Encode(packet), w.limit) then Ok(()) else Err(BrokenPipe)
  {
    if |packet| > MAX_FRAME {
      return Err(InvalidInput);
    }
    ghost var head := BigEndian16(|packet|);
    assert (w.written + head) + packet == w.written + Encode(packet);
    res := w.WriteAll(BigEndian16(|packet|));
    if res.Ok? {
      res := w.WriteAll(packet);
    }
  }

  lemma OneMoreFrame(sent: seq<Packet>, p: Packet)
    ensures EncodeAll(sent) + Encode(p) == EncodeAll(sent + [p])
    ensures Payload(sent + [p]) == Payload(sent) + |p|
  {
    EncodeAllSnoc(sent, p);
    PayloadAppend(sent, [p]);
  }

  /**
   A cable that breaks inside frame `p`: what went out is the whole stream clipped there, whatever
   was still to come, and holds just the packets before `p`.
   */
  lemma CutFrame(sent: seq<Packet>, p: Packet, after: seq<Packet>, limit: Option<nat>)
    requires AllFramable(sent) && Framable(p)
    requires Fits(EncodeAll(sent), limit) && !Fits(EncodeAll(sent) + Encode(p), limit)
    ensures var out := Clip(EncodeAll(sent) + Encode(p), limit);
      && out == Clip(EncodeAll(sent + [p] + after), limit)
      && Frames(out) == sent
  {
    var now := EncodeAll(sent) + Encode(p);
    EncodeAllSnoc(sent, p);
    EncodeAllAppend(sent + [p], after);
    assert (now + EncodeAll(after))[..limit.value] == now[..limit.value];
    var k := limit.value - |EncodeAll(sent)|;
    assert now[..limit.value] == EncodeAll(sent) + Encode(p)[..k];
    ParseCutLast(sent, p, k);
  }
}
