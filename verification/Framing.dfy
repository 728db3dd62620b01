/**
 The frame codec of rickynet-wire: `[u16 big-endian length][packet]`.

 `Encode` is what the writers put on the stream; `Parse` is the reference reader, a recursive
 parse of a whole byte string into the complete frames at its front and the bytes left over.
 The incremental decoder, the blocking reader and the phone's reader task are all proved
 against `Parse`.
 */
module Framing {
  import opened Bytes

  type Packet = seq<Byte>

  const LEN_PREFIX: nat := 2
  const MAX_FRAME: nat := 65535

  predicate Framable(p: Packet) {
    |p| <= MAX_FRAME
  }

  predicate AllFramable(ps: seq<Packet>) {
    forall i :: 0 <= i < |ps| ==> Framable(ps[i])
  }

  /** One frame. An over-long packet is cut to `MAX_FRAME` bytes, as a release build does. */
  function Encode(p: Packet): (s: seq<Byte>)
    ensures |s| == LEN_PREFIX + if Framable(p) then |p| else MAX_FRAME
  {
    var n := if Framable(p) then |p| else MAX_FRAME;
    BigEndian16(n) + p[..n]
  }

  function EncodeAll(ps: seq<Packet>): (s: seq<Byte>)
    ensures ps == [] ==> s == []
  {
    if ps == [] then [] else Encode(ps[0]) + EncodeAll(ps[1..])
  }

  /** The number of bytes the frame at the front of `s` announces for its body. */
  function BodyLength(s: seq<Byte>): (n: nat)
    requires |s| >= LEN_PREFIX
    ensures n <= MAX_FRAME
  {
    FromBigEndian16(s[0], s[1])
  }

  /** Does `s` start with a complete frame? */
  predicate HasFrame(s: seq<Byte>) {
    |s| >= LEN_PREFIX && |s| >= LEN_PREFIX + BodyLength(s)
  }

  function FrameEnd(s: seq<Byte>): (n: nat)
    requires HasFrame(s)
    ensures LEN_PREFIX <= n <= |s|
  {
    LEN_PREFIX + BodyLength(s)
  }

  function FirstFrame(s: seq<Byte>): (p: Packet)
    requires HasFrame(s)
    ensures Framable(p)
  {
    s[LEN_PREFIX..FrameEnd(s)]
  }

  datatype Parsed = Parsed(frames: seq<Packet>, rest: seq<Byte>)

  /** The reference reader. */
  function Parse(s: seq<Byte>): Parsed
    decreases |s|
  {
    if !HasFrame(s) then Parsed([], s)
    else
      var tail := Parse(s[FrameEnd(s)..]);
      Parsed([FirstFrame(s)] + tail.frames, tail.rest)
  }

  function Frames(s: seq<Byte>): seq<Packet> {
    Parse(s).frames
  }

  function Rest(s: seq<Byte>): seq<Byte> {
    Parse(s).rest
  }

  /** Total payload carried by a list of packets. */
  function Payload(ps: seq<Packet>): nat {
    if ps == [] then 0 else |ps[0]| + Payload(ps[1..])
  }

  function Concat(ps: seq<seq<Byte>>): seq<Byte> {
    if ps == [] then [] else ps[0] + Concat(ps[1..])
  }

  /** The packets the writers can frame, in order. */
  function FramableOnly(ps: seq<Packet>): (r: seq<Packet>)
    ensures AllFramable(r)
  {
    if ps == [] then [] else OneFramable(ps[0]) + FramableOnly(ps[1..])
  }

  function OneFramable(p: Packet): (r: seq<Packet>)
    ensures AllFramable(r)
  {
    if Framable(p) then [p] else []
  }

  /** The packets that reach Wintun: those that can be framed and are not empty. */
  function Deliverable(ps: seq<Packet>): seq<Packet> {
    if ps == [] then [] else OneDeliverable(ps[0]) + Deliverable(ps[1..])
  }

  function OneDeliverable(p: Packet): seq<Packet> {
    if 0 < |p| <= MAX_FRAME then [p] else []
  }

  lemma {:induction false} DeliverableAppend(a: seq<Packet>, b: seq<Packet>)
    ensures Deliverable(a + b) == Deliverable(a) + Deliverable(b)
  {
    if a == [] {
      assert a + b == b;
    } else {
      assert (a + b)[1..] == a[1..] + b;
      DeliverableAppend(a[1..], b);
      Assoc(OneDeliverable(a[0]), Deliverable(a[1..]), Deliverable(b));
    }
  }

  lemma {:induction false} FramableOnlyAppend(a: seq<Packet>, b: seq<Packet>)
    ensures FramableOnly(a + b) == FramableOnly(a) + FramableOnly(b)
  {
    if a == [] {
      assert a + b == b;
    } else {
      assert (a + b)[1..] == a[1..] + b;
      FramableOnlyAppend(a[1..], b);
      Assoc(OneFramable(a[0]), FramableOnly(a[1..]), FramableOnly(b));
    }
  }

  /** Nothing that fits a frame is left out. */
  lemma {:induction false} FramableOnlyKeeps(ps: seq<Packet>)
    requires forall i :: 0 <= i < |ps| ==> |ps[i]| <= 65535
    ensures FramableOnly(ps) == ps
  {
    if ps != [] {
      FramableOnlyKeeps(ps[1..]);
      assert ps == [ps[0]] + ps[1..];
    }
  }

  /** What is left out as oversize was not due anyway, and nothing else is. */
  lemma {:induction false} DeliverableFramable(ps: seq<Packet>)
    ensures Deliverable(FramableOnly(ps)) == Deliverable(ps)
  {
    if ps != [] {
      DeliverableFramable(ps[1..]);
      DeliverableAppend(OneFramable(ps[0]), FramableOnly(ps[1..]));
      OneDue(ps[0]);
    }
  }

  /** Exactly the packets of 1 to 65535 bytes are due at Wintun. */
  lemma OneDue(p: Packet)
    ensures Deliverable([p]) == if 1 <= |p| <= 65535 then [p] else []
    ensures Deliverable(OneFramable(p)) == Deliverable([p])
  {
    assert Deliverable([p]) == OneDeliverable(p) + Deliverable([]);
  }

  /** Packets of 1 to 65535 bytes are all due, in order. */
  lemma {:induction false} AllDue(ps: seq<Packet>)
    requires forall i :: 0 <= i < |ps| ==> 1 <= |ps[i]| <= 65535
    ensures Deliverable(ps) == ps
  {
    if ps != [] {
      AllDue(ps[1..]);
      assert ps == [ps[0]] + ps[1..];
    }
  }

  // ---- One frame ---------------------------------------------------------------------------

  /** A frame is the length, high byte first, and then the packet. */
  lemma FrameLayout(p: Packet)
    requires |p| <= 65535
    ensures var f := Encode(p); |f| == |p| + 2 && 256 * f[0] as int + f[1] as int == |p| && f[2..] == p
  {
    assert Encode(p)[0] == BigEndian16(|p|)[0] && Encode(p)[1] == BigEndian16(|p|)[1];
  }

  lemma EncodeThenParseOne(p: Packet, tail: seq<Byte>)
    requires Framable(p)
    ensures HasFrame(Encode(p) + tail)
    ensures FirstFrame(Encode(p) + tail) == p
    ensures FrameEnd(Encode(p) + tail) == |Encode(p)|
    ensures (Encode(p) + tail)[|Encode(p)|..] == tail
  {
    var s := Encode(p) + tail;
    assert s[0] == |p| / 256 && s[1] == |p| % 256;
    assert BodyLength(s) == |p|;
  }

  lemma FrameReencodes(s: seq<Byte>)
    requires HasFrame(s)
    ensures Encode(FirstFrame(s)) == s[..FrameEnd(s)]
  {
    var n := BodyLength(s);
    assert n / 256 == s[0] && n % 256 == s[1];
  }

  /** A frame that is complete stays the same frame however much follows it. */
  lemma FrameStable(s: seq<Byte>, more: seq<Byte>)
    requires HasFrame(s)
    ensures HasFrame(s + more)
    ensures FrameEnd(s + more) == FrameEnd(s) && FirstFrame(s + more) == FirstFrame(s)
    ensures (s + more)[FrameEnd(s)..] == s[FrameEnd(s)..] + more
  {
  }

  // ---- The reference parse -----------------------------------------------------------------

  lemma {:induction false} EncodeAllAppend(a: seq<Packet>, b: seq<Packet>)
    ensures EncodeAll(a + b) == EncodeAll(a) + EncodeAll(b)
  {
    if a == [] {
      assert a + b == b;
    } else {
      assert (a + b)[1..] == a[1..] + b;
      EncodeAllAppend(a[1..], b);
      Assoc(Encode(a[0]), EncodeAll(a[1..]), EncodeAll(b));
    }
  }

  lemma EncodeAllSnoc(a: seq<Packet>, p: Packet)
    ensures EncodeAll(a + [p]) == EncodeAll(a) + Encode(p)
  {
    EncodeAllAppend(a, [p]);
    assert EncodeAll([p]) == Encode(p) + EncodeAll([]);
  }

  lemma {:induction false} PayloadAppend(a: seq<Packet>, b: seq<Packet>)
    ensures Payload(a + b) == Payload(a) + Payload(b)
  {
    if a == [] {
      assert a + b == b;
    } else {
      assert (a + b)[1..] == a[1..] + b;
      PayloadAppend(a[1..], b);
    }
  }

  lemma {:induction false} ConcatAppend(a: seq<seq<Byte>>, b: seq<seq<Byte>>)
    ensures Concat(a + b) == Concat(a) + Concat(b)
  {
    if a == [] {
      assert a + b == b;
    } else {
      assert (a + b)[1..] == a[1..] + b;
      ConcatAppend(a[1..], b);
      Assoc(a[0], Concat(a[1..]), Concat(b));
    }
  }

  /** Nothing is lost or invented: the frames re-encode to exactly the bytes they came from. */
  lemma {:induction false} ParseReassembles(s: seq<Byte>)
    ensures EncodeAll(Frames(s)) + Rest(s) == s
    ensures AllFramable(Frames(s))
    ensures !HasFrame(Rest(s))
    decreases |s|
  {
    if HasFrame(s) {
      var tail := s[FrameEnd(s)..];
      ParseReassembles(tail);
      FrameReencodes(s);
      assert Frames(s) == [FirstFrame(s)] + Frames(tail) && Frames(s)[1..] == Frames(tail);
      Assoc(Encode(FirstFrame(s)), EncodeAll(Frames(tail)), Rest(tail));
      assert s == s[..FrameEnd(s)] + tail;
    }
  }

  /** Reading on after more bytes arrive resumes exactly where the first parse stopped. */
  lemma {:induction false} ParseAppend(s: seq<Byte>, more: seq<Byte>)
    ensures Frames(s + more) == Frames(s) + Frames(Rest(s) + more)
    ensures Rest(s + more) == Rest(Rest(s) + more)
    decreases |s|
  {
    if HasFrame(s) {
      FrameStable(s, more);
      ParseAppend(s[FrameEnd(s)..], more);
    }
  }

  /** Unique decoding: a split of `s` into whole frames and an incomplete rest is its parse. */
  lemma {:induction false} ParseUnique(ps: seq<Packet>, r: seq<Byte>)
    requires AllFramable(ps)
    requires !HasFrame(r)
    ensures Parse(EncodeAll(ps) + r) == Parsed(ps, r)
    decreases |ps|
  {
    if ps == [] {
      assert EncodeAll(ps) + r == r;
    } else {
      var tail := EncodeAll(ps[1..]) + r;
      assert EncodeAll(ps) + r == Encode(ps[0]) + tail;
      EncodeThenParseOne(ps[0], tail);
      ParseUnique(ps[1..], r);
    }
  }

  lemma SplitFirst(s: seq<Byte>)
    requires HasFrame(s)
    ensures s == Encode(FirstFrame(s)) + s[FrameEnd(s)..]
  {
    FrameReencodes(s);
  }

  /** Whole frames in front of anything are read first. */
  lemma FramesAfter(ps: seq<Packet>, tail: seq<Byte>)
    requires AllFramable(ps)
    ensures Parse(EncodeAll(ps) + tail) == Parsed(ps + Frames(tail), Rest(tail))
  {
    ParseAppend(EncodeAll(ps), tail);
    RoundTrip(ps);
    assert [] + tail == tail;
  }

  /** The round trip, for every list of packets that fit a frame. */
  lemma RoundTrip(ps: seq<Packet>)
    requires AllFramable(ps)
    ensures Parse(EncodeAll(ps)) == Parsed(ps, [])
  {
    ParseUnique(ps, []);
    assert EncodeAll(ps) + [] == EncodeAll(ps);
  }

  lemma ParseOne(p: Packet)
    requires Framable(p)
    ensures Parse(Encode(p)) == Parsed([p], [])
  {
    RoundTrip([p]);
    assert EncodeAll([p]) == Encode(p) + EncodeAll([]) == Encode(p);
  }

  /** A single packet survives encoding exactly when its length fits the prefix. */
  lemma RoundTripExactly(p: Packet)
    ensures Frames(Encode(p)) == [p] <==> |p| <= 65535
  {
    if |p| <= MAX_FRAME {
      ParseOne(p);
    } else {
      ParseReassembles(Encode(p));
    }
  }

  /** Two lists of packets with the same encoding are the same list. */
  lemma EncodingInjective(a: seq<Packet>, b: seq<Packet>)
    requires AllFramable(a) && AllFramable(b)
    requires EncodeAll(a) == EncodeAll(b)
    ensures a == b
  {
    RoundTrip(a);
    RoundTrip(b);
  }

  /** No encoding is a proper prefix of another packet's encoding. */
  lemma PrefixFree(a: Packet, b: Packet)
    requires Framable(a) && Framable(b)
    requires Encode(a) <= Encode(b)
    ensures a == b
  {
    var more := Encode(b)[|Encode(a)|..];
    EncodeThenParseOne(a, more);
    assert Encode(a) + more == Encode(b) == Encode(b) + [];
    EncodeThenParseOne(b, []);
  }

  /** A stream cut at any byte decodes to an in-order prefix of what was sent. */
  lemma CutStream(ps: seq<Packet>, k: nat)
    requires AllFramable(ps)
    requires k <= |EncodeAll(ps)|
    ensures Frames(EncodeAll(ps)[..k]) <= ps
  {
    var s := EncodeAll(ps);
    assert s == s[..k] + s[k..];
    ParseAppend(s[..k], s[k..]);
    RoundTrip(ps);
  }

  /** A frame cut short of its last byte is not a frame. */
  lemma CutFrameIncomplete(p: Packet, k: nat)
    requires Framable(p) && k < |Encode(p)|
    ensures !HasFrame(Encode(p)[..k])
  {
    EncodeThenParseOne(p, []);
    assert Encode(p) + [] == Encode(p);
    assert k >= LEN_PREFIX ==> BodyLength(Encode(p)[..k]) == BodyLength(Encode(p));
  }

  /** Whole frames followed by a cut one: only the whole ones are read. */
  lemma ParseCutLast(ps: seq<Packet>, p: Packet, k: nat)
    requires AllFramable(ps) && Framable(p) && k < |Encode(p)|
    ensures Parse(EncodeAll(ps) + Encode(p)[..k]) == Parsed(ps, Encode(p)[..k])
  {
    CutFrameIncomplete(p, k);
    ParseUnique(ps, Encode(p)[..k]);
  }

  /** The bytes of an incomplete frame are bounded: at most a length prefix and 65534 bytes. */
  lemma IncompleteIsShort(s: seq<Byte>)
    requires !HasFrame(s)
    ensures |s| <= LEN_PREFIX + MAX_FRAME - 1
  {
  }

  // ---- A reader part-way through a frame ---------------------------------------------------

  /** A reader never takes bytes beyond the end of its frame. */
  predicate OneFrameAtMost(got: seq<Byte>) {
    HasFrame(got) ==> FrameEnd(got) == |got|
  }

  /** The bytes the reader asks for next: the rest of the length, or the rest of the body. */
  function Missing(got: seq<Byte>): nat
    requires OneFrameAtMost(got)
  {
    if |got| < LEN_PREFIX then LEN_PREFIX - |got| else LEN_PREFIX + BodyLength(got) - |got|
  }

  lemma FrameThen(got: seq<Byte>, more: seq<Byte>)
    requires HasFrame(got) && FrameEnd(got) == |got|
    ensures Frames(got + more) == [FirstFrame(got)] + Frames(more) && Rest(got + more) == Rest(more)
  {
    FrameStable(got, more);
    assert got[FrameEnd(got)..] + more == more;
  }

  /** A reader that asks for no more than it misses never overruns its frame. */
  lemma ReadSomeStaysInFrame(got: seq<Byte>, more: seq<Byte>)
    requires OneFrameAtMost(got) && |more| <= Missing(got)
    ensures OneFrameAtMost(got + more)
  {
  }
}
