/**
 The upload path end to end, over every interleaving of its tasks: Wintun, pump A, the byte stream,
 the phone's reader task, the bounded channel and `poll_read`.

 A state carries the live parts of the path and, for the theorems, what has happened so far. An
 event is one step of one task, or a failure; an event that cannot happen in a state leaves it
 unchanged, so quantifying over all event lists quantifies over all runs.
 */
module UploadPipeline {
  import opened Bytes
  import opened Cable
  import opened Device
  import opened Framing

  // ---- The device side: channel, leftover and reads ----------------------------------------

  datatype Intake = Intake(
    chan: seq<Packet>,
    leftover: Option<(Packet, nat)>,
    received: seq<Packet>,    // packets poll_read took off the channel
    given: seq<seq<Byte>>,    // what each completed read returned
    origin: seq<(nat, nat)>,  // for each read: a packet of `received` and an offset in it
    fits: bool)               // every read so far had room for all that was left of its packet
  {
    function Side(): ReadSide {
      ReadSide(chan, leftover)
    }

    /** The packets that entered the channel. */
    function Entered(): seq<Packet> {
      received + chan
    }

    function LeftoverBytes(): seq<Byte>
      requires Side().WellFormed()
    {
      if leftover.Some? then leftover.value.0[leftover.value.1..] else []
    }

    ghost predicate Shape() {
      && Side().WellFormed()
      && |chan| <= INCOMING_CAP && AllFramable(chan)
      && (leftover.Some? ==>
            received != [] && received[|received| - 1] == leftover.value.0 && Framable(leftover.value.0))
    }

    /** The reads so far, followed by the rest of the leftover, are the packets received. */
    ghost predicate Copied()
      requires Side().WellFormed()
    {
      && Concat(given) + LeftoverBytes() == Concat(received)
      && (fits ==> leftover.None? && given == received)
      && (!fits ==> |given| >= |received| + if leftover.None? then 1 else 0)
    }

    /** Each read lies inside one packet. */
    ghost predicate Unmixed() {
      && |origin| == |given|
      && forall i :: 0 <= i < |given| ==>
           origin[i].0 < |received| && IsSlice(given[i], received[origin[i].0], origin[i].1)
    }

    ghost predicate Valid() {
      Shape() && Copied() && Unmixed()
    }
  }

  predicate IsSlice(r: seq<Byte>, p: Packet, offset: nat) {
    offset + |r| <= |p| && p[offset..offset + |r|] == r
  }

  function Enqueued(d: Intake, p: Packet): Intake {
    d.(chan := d.chan + [p])
  }

  /** A completed `poll_read`: the device moves on, and the read is recorded with its origin. */
  function Polled(d: Intake, room: nat): Intake
    requires d.Side().WellFormed() && d.Side().Head().Some?
  {
    var after := AfterRead(d.Side(), room);
    var received := if d.leftover.Some? then d.received else d.received + [d.chan[0]];
    var offset := if d.leftover.Some? then d.leftover.value.1 else 0;
    Intake(after.incoming, after.leftover, received,
           d.given + [ReadOut(d.Side(), room).value],
           d.origin + [(if received == [] then 0 else |received| - 1, offset)],
           d.fits && |d.Side().Head().value| <= room)
  }

  lemma PollKeepsShape(d: Intake, room: nat)
    requires d.Valid() && d.Side().Head().Some?
    ensures Polled(d, room).Shape()
    ensures Polled(d, room).Entered() == d.Entered()
    ensures Polled(d, room).Unmixed()
  {
    PollKeepsForm(d, room);
    PollKeepsEntered(d, room);
    PollKeepsUnmixed(d, room);
  }

  lemma PollKeepsForm(d: Intake, room: nat)
    requires d.Shape() && d.Side().Head().Some?
    ensures Polled(d, room).Shape()
  {
  }

  lemma PollKeepsEntered(d: Intake, room: nat)
    requires d.Side().WellFormed() && d.Side().Head().Some?
    ensures Polled(d, room).Entered() == d.Entered()
  {
    if d.leftover.None? {
      assert d.chan == [d.chan[0]] + d.chan[1..];
      Assoc(d.received, [d.chan[0]], d.chan[1..]);
    }
  }

  lemma ReadIsSlice(d: Intake, room: nat)
    requires d.Shape() && d.Side().Head().Some?
    ensures var e := Polled(d, room);
      e.received != [] && IsSlice(ReadOut(d.Side(), room).value, e.received[|e.received| - 1],
                                  if d.leftover.Some? then d.leftover.value.1 else 0)
  {
    var r := ReadOut(d.Side(), room).value;
    if d.leftover.Some? {
      var (pkt, pos) := d.leftover.value;
      CutDrop(pkt, pos, pos + |r|);
    }
  }

  lemma PollKeepsUnmixed(d: Intake, room: nat)
    requires d.Valid() && d.Side().Head().Some?
    ensures Polled(d, room).Unmixed()
  {
    var e := Polled(d, room);
    var n := |d.given|;
    ReadIsSlice(d, room);
    forall i | 0 <= i < |e.given|
      ensures e.origin[i].0 < |e.received| && IsSlice(e.given[i], e.received[e.origin[i].0], e.origin[i].1)
    {
      if i < n {
        assert d.origin[i].0 < |d.received| && IsSlice(d.given[i], d.received[d.origin[i].0], d.origin[i].1);
      }
    }
  }

  /** Moving the front `r` of the pending bytes into the reads keeps the total. */
  lemma CopyOn(given: seq<seq<Byte>>, r: seq<Byte>, rest: seq<Byte>, total: seq<Byte>)
    requires Concat(given) + (r + rest) == total
    ensures Concat(given + [r]) + rest == total
  {
    ConcatSnoc(given, r);
    assert Concat(given) + (r + rest) == (Concat(given) + r) + rest;
  }

  lemma PollKeepsCopied(d: Intake, room: nat)
    requires d.Valid() && d.Side().Head().Some?
    ensures Polled(d, room).Side().WellFormed() && Polled(d, room).Copied()
  {
    var e := Polled(d, room);
    var head, r := d.Side().Head().value, ReadOut(d.Side(), room).value;
    assert head == r + e.LeftoverBytes();
    if d.leftover.None? {
      ConcatSnoc(d.received, head);
      assert Concat(d.given) + [] == Concat(d.given);
    }
    CopyOn(d.given, r, e.LeftoverBytes(), Concat(e.received));
    assert |head| <= room ==> r == head;
  }

  lemma ConcatSnoc(a: seq<seq<Byte>>, b: seq<Byte>)
    ensures Concat(a + [b]) == Concat(a) + b
  {
    ConcatAppend(a, [b]);
    assert Concat([b]) == b + Concat([]) == b;
  }

  // ---- The whole path ----------------------------------------------------------------------

  /** Pump A: waiting for Wintun, writing a frame of which `left` is still to go out, or ended. */
  datatype Pump = Waiting | Writing(pkt: Packet, left: seq<Byte>) | Ended

  /** The reader task: partly through a frame, holding a packet for the channel, or ended. */
  datatype Reader = Reading(got: seq<Byte>) | Holding(pkt: Packet) | Done(refused: Option<Packet>)

  datatype State = State(
    pump: Pump,
    wire: seq<Byte>,          // written and not yet read
    closed: bool,             // the stream takes no more bytes
    reader: Reader,
    dev: Intake,
    dropped: bool,            // the device and its end of the channel are gone
    desktopTx: nat,
    phoneTx: nat,
    taken: seq<Packet>,       // packets Wintun handed to pump A
    wrote: seq<Packet>,       // packets written whole
    intact: bool)             // no byte has been lost

  const INITIAL := State(Waiting, [], false, Reading([]), Intake([], None, [], [], [], true), false, 0, 0, [], [], true)

  datatype Event =
    | Take(p: Packet)         // receive_blocking returns a packet
    | SessionEnds             // receive_blocking fails
    | WriteSome(n: nat)       // write_frame gets n bytes onto the stream
    | WriteFails
    | Count                   // write_frame has returned; the packet is counted
    | Break(keep: nat)        // the stream closes, delivering only `keep` of the bytes in flight
    | ReadSome(n: nat)        // the reader task gets n bytes of the current frame
    | Complete                // the frame is whole: count it and hold it for the channel
    | Send                    // the channel has room
    | Refuse                  // the channel's receiver is gone
    | EndOfStream             // the reader task meets the end of the stream
    | DropDevice
    | Poll(room: nat)

  predicate WellFormed(s: State) {
    s.dev.Side().WellFormed() && (s.reader.Reading? ==> OneFrameAtMost(s.reader.got))
  }

  predicate Enabled(s: State, e: Event)
    requires WellFormed(s)
  {
    match e
    case Take(_) => s.pump.Waiting?
    case SessionEnds => s.pump.Waiting?
    case WriteSome(n) => s.pump.Writing? && !s.closed && 0 < n <= |s.pump.left|
    case WriteFails => s.pump.Writing? && s.pump.left != []
    case Count => s.pump.Writing? && s.pump.left == []
    case Break(keep) => keep <= |s.wire|
    case ReadSome(n) => s.reader.Reading? && 0 < n <= |s.wire| && n <= Missing(s.reader.got)
    case Complete => s.reader.Reading? && HasFrame(s.reader.got)
    case Send => s.reader.Holding? && !s.dropped && |s.dev.chan| < INCOMING_CAP
    case Refuse => s.reader.Holding? && s.dropped
    case EndOfStream => s.reader.Reading? && s.closed && s.wire == [] && !HasFrame(s.reader.got)
    case DropDevice => !s.dropped
    case Poll(_) => !s.dropped && s.dev.Side().Head().Some?
  }

  function Apply(s: State, e: Event): State
    requires WellFormed(s) && Enabled(s, e)
  {
    match e
    case Take(p) =>
      if Framable(p) then s.(taken := s.taken + [p], pump := Writing(p, Encode(p)))
      else s.(taken := s.taken + [p], pump := Ended, intact := false)
    case SessionEnds => s.(pump := Ended)
    case WriteSome(n) =>
      s.(wire := s.wire + s.pump.left[..n], pump := s.pump.(left := s.pump.left[n..]),
         wrote := if n == |s.pump.left| then s.wrote + [s.pump.pkt] else s.wrote)
    case WriteFails => s.(pump := Ended, intact := false)
    case Count => s.(desktopTx := s.desktopTx + |s.pump.pkt|, pump := Waiting)
    case Break(keep) => s.(wire := s.wire[..keep], closed := true, intact := s.intact && keep == |s.wire|)
    case ReadSome(n) => s.(reader := Reading(s.reader.got + s.wire[..n]), wire := s.wire[n..])
    case Complete =>
      var p := FirstFrame(s.reader.got);
      s.(phoneTx := s.phoneTx + |p|, reader := Holding(p))
    case Send => s.(dev := Enqueued(s.dev, s.reader.pkt), reader := Reading([]))
    case Refuse => s.(reader := Done(Some(s.reader.pkt)))
    case EndOfStream => s.(reader := Done(None), intact := s.intact && s.reader.got == [])
    case DropDevice => s.(dropped := true)
    case Poll(room) => s.(dev := Polled(s.dev, room))
  }

  // ---- The invariant -----------------------------------------------------------------------

  /** The packet read off the stream and not yet in the channel, or refused by it. */
  function Held(s: State): seq<Packet> {
    match s.reader
    case Reading(_) => []
    case Holding(p) => [p]
    case Done(refused) => if refused.Some? then [refused.value] else []
  }

  /** The packets that have reached the phone. */
  function Arrived(s: State): seq<Packet> {
    s.dev.Entered() + Held(s)
  }

  /** The bytes, of frames the reader has not finished, that it has or that are on their way to it. */
  function Arriving(s: State): seq<Byte> {
    (if s.reader.Reading? then s.reader.got else []) + s.wire
  }

  function Unwritten(s: State): seq<Byte> {
    if s.pump.Writing? then s.pump.left else []
  }

  /** The packet being written, or written and not yet counted. */
  function Uncounted(s: State): nat {
    if s.pump.Writing? then |s.pump.pkt| else 0
  }

  /** The packet written whole and not yet counted. */
  function Finished(s: State): nat {
    if s.pump.Writing? && s.pump.left == [] then |s.pump.pkt| else 0
  }

  ghost predicate Flow(s: State) {
    Conserved(s.intact, s.closed || s.pump.Ended?, s.taken, s.wrote, Arrived(s), Arriving(s), Unwritten(s))
  }

  /** The packets written whole are those taken, but for the one being written or given up. */
  ghost predicate Written(s: State) {
    && s.wrote <= s.taken
    && (s.intact || s.pump.Waiting? ==> |s.taken| <= |s.wrote| + if Unwritten(s) == [] then 0 else 1)
    && (s.pump.Writing? ==> s.taken == s.wrote + if s.pump.left == [] then [] else [s.pump.pkt])
  }

  ghost predicate Counted(s: State) {
    && s.phoneTx == Payload(Arrived(s))
    && s.desktopTx + Finished(s) == Payload(s.wrote)
  }

  ghost predicate Transit(s: State) {
    Flow(s) && Written(s)
  }

  ghost predicate Delivered(s: State) {
    s.dev.Valid() && AllFramable(Held(s))
  }

  /** A reader that is done has met the end of the stream, or found the device gone. */
  ghost predicate Over(s: State) {
    && (s.reader == Done(None) ==> s.closed && s.wire == [])
    && (s.reader.Done? && s.reader.refused.Some? ==> s.dropped)
  }

  ghost predicate Inv(s: State) {
    WellFormed(s) && Transit(s) && Delivered(s) && Counted(s) && Over(s)
  }

  // ---- Each step keeps the invariant -------------------------------------------------------

  lemma TakeKeeps(s: State, p: Packet)
    requires WellFormed(s) && Transit(s) && s.pump.Waiting?
    ensures Transit(Apply(s, Take(p)))
  {
    var t := Apply(s, Take(p));
    assert Arrived(t) == Arrived(s) && Arriving(t) == Arriving(s);
    if s.intact && Framable(p) {
      TakeConserved(s.closed, s.taken, s.wrote, Arrived(s), Arriving(s), p);
    } else {
      LossConserved(s.intact, s.closed, s.taken, s.wrote, Arrived(s), Arriving(s), [], Arriving(s));
    }
  }

  lemma WriteKeeps(s: State, n: nat)
    requires WellFormed(s) && Transit(s) && Enabled(s, WriteSome(n))
    ensures Transit(Apply(s, WriteSome(n)))
  {
    var t := Apply(s, WriteSome(n));
    MoveOver(if s.reader.Reading? then s.reader.got else [], s.wire, s.pump.left, n);
    assert s.intact && Arrived(t) == Arrived(s);
  }

  lemma WriteFailsKeeps(s: State)
    requires WellFormed(s) && Transit(s) && Enabled(s, WriteFails)
    ensures Transit(Apply(s, WriteFails))
  {
    var t := Apply(s, WriteFails);
    assert Arrived(t) == Arrived(s) && Arriving(t) == Arriving(s);
    LossConserved(s.intact, s.closed, s.taken, s.wrote, Arrived(s), Arriving(s), Unwritten(s), Arriving(s));
  }

  lemma BreakKeeps(s: State, keep: nat)
    requires WellFormed(s) && Transit(s) && Enabled(s, Break(keep))
    ensures Transit(Apply(s, Break(keep)))
  {
    var t := Apply(s, Break(keep));
    assert Arrived(t) == Arrived(s) && Unwritten(t) == Unwritten(s);
    TakeOver(if s.reader.Reading? then s.reader.got else [], s.wire, keep);
    if keep < |s.wire| {
      LossConserved(s.intact, s.closed || s.pump.Ended?, s.taken, s.wrote, Arrived(s), Arriving(s), Unwritten(s),
                    Arriving(t));
    }
  }

  lemma ReadSomeKeeps(s: State, n: nat)
    requires WellFormed(s) && Transit(s) && Enabled(s, ReadSome(n))
    ensures Transit(Apply(s, ReadSome(n)))
  {
    var t := Apply(s, ReadSome(n));
    TakeOver(s.reader.got, s.wire, n);
    assert Arriving(t) == Arriving(s) && Arrived(t) == Arrived(s);
  }

  lemma CompleteKeeps(s: State)
    requires WellFormed(s) && Transit(s) && Enabled(s, Complete)
    ensures Transit(Apply(s, Complete))
  {
    var t := Apply(s, Complete);
    var got := s.reader.got;
    assert Arriving(s) == got + s.wire && Arriving(t) == s.wire;
    ArriveConserved(s.intact, s.closed || s.pump.Ended?, s.taken, s.wrote, Arrived(s), got, s.wire, Unwritten(s));
    assert Arrived(t) == Arrived(s) + [FirstFrame(got)] && Unwritten(t) == Unwritten(s);
  }

  lemma EndOfStreamKeeps(s: State)
    requires WellFormed(s) && Transit(s) && Enabled(s, EndOfStream)
    ensures Transit(Apply(s, EndOfStream))
  {
    var t := Apply(s, EndOfStream);
    assert Arrived(t) == Arrived(s) && Unwritten(t) == Unwritten(s);
    assert Arriving(t) == [] && Arriving(s) == s.reader.got;
    if s.reader.got != [] {
      LossConserved(s.intact, true, s.taken, s.wrote, Arrived(s), Arriving(s), Unwritten(s), []);
    }
  }

  /** Steps that move no byte on the stream. */
  lemma AsideKeeps(s: State, e: Event)
    requires WellFormed(s) && Transit(s) && Enabled(s, e)
    requires e.SessionEnds? || e.Count? || e.Send? || e.Refuse? || e.DropDevice? || e.Poll?
    ensures Transit(Apply(s, e))
  {
    var t := Apply(s, e);
    assert Arriving(t) == Arriving(s) && Unwritten(t) == Unwritten(s);
    ArrivedAfter(s, e);
  }

  /** A packet arrives when its frame is whole, and at no other time. */
  lemma ArrivedAfter(s: State, e: Event)
    requires WellFormed(s) && Enabled(s, e)
    ensures Arrived(Apply(s, e)) == if e.Complete? then Arrived(s) + [FirstFrame(s.reader.got)] else Arrived(s)
  {
    match e
    case Poll(room) => PollKeepsEntered(s.dev, room);
    case Send => Assoc(s.dev.received, s.dev.chan, [s.reader.pkt]);
    case Complete => assert Held(s) == [] && Arrived(s) == s.dev.Entered();
    case _ => HeldAside(s, e);
  }

  lemma HeldAside(s: State, e: Event)
    requires WellFormed(s) && Enabled(s, e) && !e.Poll? && !e.Send? && !e.Complete?
    ensures Apply(s, e).dev == s.dev && Held(Apply(s, e)) == Held(s)
  {
  }

  lemma TransitKeeps(s: State, e: Event)
    requires WellFormed(s) && Transit(s) && Enabled(s, e)
    ensures Transit(Apply(s, e))
  {
    match e
    case Take(p) => TakeKeeps(s, p);
    case WriteSome(n) => WriteKeeps(s, n);
    case WriteFails => WriteFailsKeeps(s);
    case Break(keep) => BreakKeeps(s, keep);
    case ReadSome(n) => ReadSomeKeeps(s, n);
    case Complete => CompleteKeeps(s);
    case EndOfStream => EndOfStreamKeeps(s);
    case SessionEnds => AsideKeeps(s, e);
    case Count => AsideKeeps(s, e);
    case Send => AsideKeeps(s, e);
    case Refuse => AsideKeeps(s, e);
    case DropDevice => AsideKeeps(s, e);
    case Poll(_) => AsideKeeps(s, e);
  }

  lemma DeliveredKeeps(s: State, e: Event)
    requires WellFormed(s) && Delivered(s) && Enabled(s, e)
    ensures WellFormed(Apply(s, e)) && Delivered(Apply(s, e))
  {
    match e
    case ReadSome(n) => ReadSomeStaysInFrame(s.reader.got, s.wire[..n]);
    case Poll(room) => PollKeepsValid(s.dev, room);
    case Send =>
      assert Held(s)[0] == s.reader.pkt;
      SendKeepsValid(s.dev, s.reader.pkt);
    case _ => SameDevice(s, e);
  }

  lemma SameDevice(s: State, e: Event)
    requires WellFormed(s) && Enabled(s, e) && !e.Poll? && !e.Send? && !e.ReadSome?
    ensures Apply(s, e).dev == s.dev && WellFormed(Apply(s, e))
    ensures AllFramable(Held(s)) ==> AllFramable(Held(Apply(s, e)))
  {
  }

  lemma PollKeepsValid(d: Intake, room: nat)
    requires d.Valid() && d.Side().Head().Some?
    ensures Polled(d, room).Valid()
  {
    PollKeepsShape(d, room);
    PollKeepsCopied(d, room);
  }

  lemma SendKeepsValid(d: Intake, p: Packet)
    requires d.Valid() && Framable(p) && |d.chan| < INCOMING_CAP
    ensures Enqueued(d, p).Valid()
  {
    var e := Enqueued(d, p);
    assert forall i :: 0 <= i < |d.given| ==>
        IsSlice(e.given[i], e.received[e.origin[i].0], e.origin[i].1) by {
      assert d.Unmixed();
    }
  }

  /** Away from the ends of a frame the counters, and what they should show, stay the same. */
  lemma CountsAside(s: State, e: Event)
    requires WellFormed(s) && Enabled(s, e) && !e.WriteSome? && !e.Complete?
    ensures var t := Apply(s, e);
      t.phoneTx == s.phoneTx && t.wrote == s.wrote && t.desktopTx + Finished(t) == s.desktopTx + Finished(s)
  {
    if e.Take? && Framable(e.p) {
      assert Encode(e.p) != [];
    }
  }

  lemma CountedWrite(s: State, n: nat)
    requires WellFormed(s) && Counted(s) && Enabled(s, WriteSome(n))
    ensures Counted(Apply(s, WriteSome(n)))
  {
    ArrivedAfter(s, WriteSome(n));
    PayloadSnoc(s.wrote, s.pump.pkt);
    assert n < |s.pump.left| ==> s.pump.left[n..] != [];
  }

  lemma CountedComplete(s: State)
    requires WellFormed(s) && Counted(s) && Enabled(s, Complete)
    ensures Counted(Apply(s, Complete))
  {
    ArrivedAfter(s, Complete);
    PayloadSnoc(Arrived(s), FirstFrame(s.reader.got));
  }

  lemma CountedKeeps(s: State, e: Event)
    requires WellFormed(s) && Counted(s) && Enabled(s, e)
    ensures Counted(Apply(s, e))
  {
    if e.WriteSome? {
      CountedWrite(s, e.n);
    } else if e.Complete? {
      CountedComplete(s);
    } else {
      CountsAside(s, e);
      ArrivedAfter(s, e);
    }
  }

  lemma OverKeeps(s: State, e: Event)
    requires WellFormed(s) && Over(s) && Enabled(s, e)
    ensures Over(Apply(s, e))
  {
  }

  lemma StepKeeps(s: State, e: Event)
    requires Inv(s) && Enabled(s, e)
    ensures Inv(Apply(s, e))
  {
    TransitKeeps(s, e);
    DeliveredKeeps(s, e);
    CountedKeeps(s, e);
    OverKeeps(s, e);
  }

  // ---- Every run ---------------------------------------------------------------------------

  /** An event takes effect if it can happen, and is skipped otherwise. */
  function Next(s: State, e: Event): State {
    if WellFormed(s) && Enabled(s, e) then Apply(s, e) else s
  }

  /** The state after the events of `es`. */
  function Run(es: seq<Event>): State {
    if es == [] then INITIAL else Next(Run(es[..|es| - 1]), es[|es| - 1])
  }

  lemma NextKeeps(s: State, e: Event)
    requires Inv(s)
    ensures Inv(Next(s, e))
  {
    if Enabled(s, e) {
      StepKeeps(s, e);
    }
  }

  /** Every run keeps the invariant. */
  lemma {:induction false} RunKeeps(es: seq<Event>)
    ensures Inv(Run(es))
  {
    if es != [] {
      RunKeeps(es[..|es| - 1]);
      NextKeeps(Run(es[..|es| - 1]), es[|es| - 1]);
    }
  }

  lemma ConcatParts(a: seq<Packet>, b: seq<Packet>, c: seq<Packet>, d: seq<Packet>)
    ensures Concat(a + b + c + d) == Concat(a) + Concat(b) + Concat(c) + Concat(d)
  {
    ConcatAppend(a + b + c, d);
    ConcatAppend(a + b, c);
    ConcatAppend(a, b);
  }

  /**
   Conservation. While nothing has been lost, the bytes delivered to the netstack, the rest of the
   packet being copied out, the channel, the packet the reader holds, and the frames on the wire
   or still being written are, in this order, exactly the packets taken from Wintun.
   */
  lemma NothingLost(es: seq<Event>)
    requires Run(es).intact
    ensures var s := Run(es);
      && s.dev.Side().WellFormed()
      && Concat(s.dev.given) + s.dev.LeftoverBytes() + Concat(s.dev.chan) + Concat(Held(s))
         + Concat(Frames(Arriving(s) + Unwritten(s))) == Concat(s.taken)
      && Rest(Arriving(s) + Unwritten(s)) == []
  {
    RunKeeps(es);
    var s := Run(es);
    ConcatParts(s.dev.received, s.dev.chan, Held(s), Frames(Arriving(s) + Unwritten(s)));
  }

  lemma ArrivedFirst(s: State)
    requires Inv(s)
    ensures Arrived(s) <= s.wrote <= s.taken
  {
    LossConserved(s.intact, s.closed || s.pump.Ended?, s.taken, s.wrote, Arrived(s), Arriving(s), Unwritten(s), []);
    assert Arrived(s) + [] == Arrived(s);
  }

  /** In every run, whatever fails and wherever, the packets received are the first of those written whole. */
  lemma InOrderPrefix(es: seq<Event>)
    ensures Run(es).dev.received <= Run(es).wrote <= Run(es).taken
  {
    RunKeeps(es);
    var s := Run(es);
    ArrivedFirst(s);
    Assoc(s.dev.received, s.dev.chan, Held(s));
    assert s.dev.received <= Arrived(s);
  }

  /** A run that has come to rest, nothing lost, has delivered every byte taken. */
  lemma RestDeliversAll(es: seq<Event>)
    requires var s := Run(es);
      && s.intact && !s.pump.Writing? && s.wire == [] && (s.reader == Reading([]) || s.reader == Done(None))
      && s.dev.chan == [] && s.dev.leftover.None?
    ensures Concat(Run(es).dev.given) == Concat(Run(es).taken)
  {
    NothingLost(es);
  }

  /** Each read returns bytes of one packet only. */
  lemma ReadsDoNotSpanPackets(es: seq<Event>, i: nat)
    requires i < |Run(es).dev.given|
    ensures var d := Run(es).dev;
      exists k: nat, offset: nat :: k < |d.received| && IsSlice(d.given[i], d.received[k], offset)
  {
    RunKeeps(es);
    var d := Run(es).dev;
    assert d.origin[i].0 < |d.received| && IsSlice(d.given[i], d.received[d.origin[i].0], d.origin[i].1);
  }

  /** Every read that was made had room for what was left of its packet. */
  ghost predicate EveryReadFits(es: seq<Event>) {
    forall i :: 0 <= i < |es| && es[i].Poll? ==> Fits(Run(es[..i]), es[i].room)
  }

  /** If a read can be made, it has room. */
  predicate Fits(s: State, room: nat) {
    WellFormed(s) && Enabled(s, Poll(room)) ==> |s.dev.Side().Head().value| <= room
  }

  lemma {:induction false} FitsSoFar(es: seq<Event>)
    ensures Run(es).dev.fits <==> EveryReadFits(es)
  {
    if es != [] {
      var n := |es| - 1;
      var before := es[..n];
      FitsSoFar(before);
      forall i | 0 <= i < n ensures es[..i] == before[..i] && es[i] == before[i] {
      }
      NextFits(Run(before), es[n]);
    }
  }

  lemma NextFits(s: State, e: Event)
    ensures Next(s, e).dev.fits <==> s.dev.fits && (e.Poll? ==> Fits(s, e.room))
  {
  }

  lemma FittingExactly(s: State)
    requires Delivered(s)
    ensures s.dev.given == s.dev.received <==> s.dev.fits
  {
    if s.dev.leftover.Some? {
      assert |Concat(s.dev.received)| == |Concat(s.dev.given)| + |s.dev.LeftoverBytes()|;
    }
  }

  /** The reads are the packets, one for one, if and only if every read had room for its packet. */
  lemma ReadsArePacketsExactly(es: seq<Event>)
    ensures Run(es).dev.given == Run(es).dev.received <==> EveryReadFits(es)
  {
    RunKeeps(es);
    FitsSoFar(es);
    FittingExactly(Run(es));
  }

  /** So they are with reads as large as the device's MTU. */
  lemma FullReadsArePackets(es: seq<Event>)
    requires forall i :: 0 <= i < |es| && es[i].Poll? ==> es[i].room >= MAX_FRAME
    ensures Run(es).dev.given == Run(es).dev.received
  {
    forall i | 0 <= i < |es| && es[i].Poll?
      ensures Fits(Run(es[..i]), es[i].room)
    {
      RunKeeps(es[..i]);
      LargeFits(Run(es[..i]), es[i].room);
    }
    ReadsArePacketsExactly(es);
  }

  lemma LargeFits(s: State, room: nat)
    requires Delivered(s) && room >= MAX_FRAME
    ensures Fits(s, room)
  {
    if s.dev.Side().Head().Some? {
      HeadIsFramable(s.dev);
    }
  }

  lemma HeadIsFramable(d: Intake)
    requires d.Shape() && d.Side().Head().Some?
    ensures |d.Side().Head().value| <= MAX_FRAME
  {
  }

  /**
   Byte counters. While nothing has been lost, what the desktop counted and the packet it has yet
   to count is what the phone counted and the payload it has not fully read.
   */
  lemma CountersAgree(es: seq<Event>)
    requires Run(es).intact
    ensures var s := Run(es);
      s.desktopTx + Uncounted(s) == s.phoneTx + Payload(Frames(Arriving(s) + Unwritten(s)))
  {
    RunKeeps(es);
    IntactCounters(Run(es));
  }

  lemma IntactCounters(s: State)
    requires Inv(s) && s.intact
    ensures s.desktopTx + Uncounted(s) == s.phoneTx + Payload(Frames(Arriving(s) + Unwritten(s)))
  {
    PayloadAppend(Arrived(s), Frames(Arriving(s) + Unwritten(s)));
    if Unwritten(s) != [] {
      PayloadSnoc(s.wrote, s.pump.pkt);
    } else {
      assert s.taken == s.wrote;
    }
  }

  /** In every run, whatever is lost, the phone never counts a byte of a packet the desktop has not written whole. */
  lemma PhoneNeverAhead(es: seq<Event>)
    ensures Run(es).phoneTx <= Run(es).desktopTx + Finished(Run(es))
  {
    RunKeeps(es);
    ArrivedFirst(Run(es));
    PayloadPrefix(Arrived(Run(es)), Run(es).wrote);
  }

  /** In every run the phone's counter is ahead of the channel only by the packet held or refused. */
  lemma PhoneCounterAhead(es: seq<Event>)
    ensures Run(es).phoneTx == Payload(Run(es).dev.Entered()) + Payload(Held(Run(es)))
    ensures |Held(Run(es))| <= 1
  {
    RunKeeps(es);
    ArrivedPayload(Run(es));
  }

  lemma ArrivedPayload(s: State)
    requires Inv(s)
    ensures s.phoneTx == Payload(s.dev.Entered()) + Payload(Held(s)) && |Held(s)| <= 1
  {
    PayloadAppend(s.dev.Entered(), Held(s));
  }

  /** If Wintun never hands out an empty packet, no read with room ever looks like the end of the stream. */
  lemma NeverLooksLikeEof(es: seq<Event>, room: nat)
    requires forall i :: 0 <= i < |Run(es).taken| ==> Run(es).taken[i] != []
    requires room > 0
    ensures Run(es).dev.Side().WellFormed() && ReadOut(Run(es).dev.Side(), room) != Some([])
  {
    RunKeeps(es);
    var s := Run(es);
    LooksLikeEofExactly(s.dev.Side(), room);
    ArrivedFirst(s);
    if s.dev.chan != [] {
      assert s.taken[|s.dev.received|] == Arrived(s)[|s.dev.received|] == s.dev.chan[0];
    }
  }

  // ---- What can be lost, and what goes on by itself ----------------------------------------

  /** The steps that lose something: a failed write, an oversize packet, a stream cut short. */
  predicate Loses(s: State, e: Event) {
    || e.WriteFails?
    || (e.Take? && |e.p| > 65535)
    || (e.Break? && e.keep < |s.wire|)
    || (e.EndOfStream? && s.reader.Reading? && |s.reader.got| > 0)
  }

  /** The steps with which pump A ends. */
  predicate EndsPump(e: Event) {
    e.SessionEnds? || e.WriteFails? || (e.Take? && |e.p| > 65535)
  }

  /** No other step loses anything, ends a task, closes the stream or drops the device. */
  lemma FlagsChangeExactly(s: State, e: Event)
    requires WellFormed(s) && Enabled(s, e)
    ensures Apply(s, e).intact <==> s.intact && !Loses(s, e)
    ensures Apply(s, e).pump.Ended? <==> s.pump.Ended? || EndsPump(e)
    ensures Apply(s, e).closed <==> s.closed || e.Break?
    ensures Apply(s, e).reader.Done? <==> s.reader.Done? || e.EndOfStream? || e.Refuse?
    ensures Apply(s, e).dropped <==> s.dropped || e.DropDevice?
  {
  }

  /** Does `e` take effect in `s`? */
  predicate Happens(s: State, e: Event) {
    WellFormed(s) && Enabled(s, e)
  }

  /** Did none of the events of `es` that took effect lose anything? */
  predicate LosesNothing(es: seq<Event>) {
    |es| == 0 ||
    var s, e := Run(es[..|es| - 1]), es[|es| - 1];
    LosesNothing(es[..|es| - 1]) && !(Happens(s, e) && Loses(s, e))
  }

  /** Was none of them one with which pump A ends? */
  predicate PumpGoesOn(es: seq<Event>) {
    |es| == 0 ||
    var s, e := Run(es[..|es| - 1]), es[|es| - 1];
    PumpGoesOn(es[..|es| - 1]) && !(Happens(s, e) && EndsPump(e))
  }

  lemma NextFlags(s: State, e: Event)
    ensures Next(s, e).intact <==> s.intact && !(Happens(s, e) && Loses(s, e))
    ensures Next(s, e).pump.Ended? <==> s.pump.Ended? || (Happens(s, e) && EndsPump(e))
  {
    if Happens(s, e) {
      FlagsChangeExactly(s, e);
    }
  }

  /** A run is intact if and only if no event lost anything, and pump A goes on until one ends it. */
  lemma {:induction false} IntactExactly(es: seq<Event>)
    ensures Run(es).intact <==> LosesNothing(es)
    ensures !Run(es).pump.Ended? <==> PumpGoesOn(es)
  {
    if |es| > 0 {
      IntactExactly(es[..|es| - 1]);
      NextFlags(Run(es[..|es| - 1]), es[|es| - 1]);
    }
  }

  /** The steps the tasks take by themselves, given room on the stream and in the channel. */
  predicate Own(s: State, e: Event) {
    || e.WriteSome? || e.Count? || e.ReadSome? || e.Complete? || e.Send? || e.Refuse? || e.EndOfStream?
    || (e.WriteFails? && s.closed)
  }

  /** An upper bound on the steps to come, a byte at a time. */
  function Work(s: State): nat {
    (if s.pump.Writing? then 3 * |s.pump.left| + 1 else 0) + 2 * |s.wire|
    + match s.reader
      case Reading(got) => |got| + 1
      case Holding(_) => 2
      case Done(_) => 0
  }

  lemma OwnStepsLowerWork(s: State, e: Event)
    requires WellFormed(s) && Enabled(s, e) && Own(s, e)
    ensures Work(Apply(s, e)) < Work(s)
  {
  }

  /** Can no task take a step? */
  ghost predicate Quiet(s: State)
    requires WellFormed(s)
  {
    forall e :: Enabled(s, e) ==> !Own(s, e)
  }

  /** A step open to the tasks, if there is one. */
  function OpenStep(s: State): Event
    requires WellFormed(s)
  {
    if s.pump.Writing? then
      if |s.pump.left| == 0 then Count else if s.closed then WriteFails else WriteSome(1)
    else
      match s.reader
      case Holding(_) => if s.dropped then Refuse else Send
      case Done(_) => SessionEnds
      case Reading(got) => if HasFrame(got) then Complete else if |s.wire| > 0 then ReadSome(1) else EndOfStream
  }

  /**
   Exactly when nothing moves: pump A has no packet to write, and the reader waits for bytes on an
   open stream, or for the netstack to make room among 2048 packets, or is done.
   */
  lemma QuietExactly(s: State)
    requires WellFormed(s)
    ensures Quiet(s) <==>
            !s.pump.Writing? &&
            match s.reader
            case Reading(got) => !HasFrame(got) && |s.wire| == 0 && !s.closed
            case Holding(_) => !s.dropped && |s.dev.chan| >= 2048
            case Done(_) => true
  {
    var e := OpenStep(s);
    assert Quiet(s) ==> !(Enabled(s, e) && Own(s, e));
  }

  /** Nothing keeps Wintun from handing a waiting pump a packet, nor the netstack from reading what is there. */
  lemma OutsideIsFree(s: State, p: Packet, room: nat)
    requires WellFormed(s)
    ensures Enabled(s, Take(p)) <==> !s.pump.Writing? && !s.pump.Ended?
    ensures Enabled(s, Poll(room)) <==> !s.dropped && (s.dev.leftover.Some? || |s.dev.chan| > 0)
  {
  }

  /**
   Nothing gets stuck. When no task can take a step, nothing has been lost and the netstack has read
   what there is, every byte taken from Wintun has been delivered.
   */
  lemma QuietDeliversAll(es: seq<Event>)
    requires WellFormed(Run(es)) && Quiet(Run(es)) && Run(es).intact && !Run(es).dropped
    requires |Run(es).dev.chan| == 0 && Run(es).dev.leftover.None?
    ensures Concat(Run(es).dev.given) == Concat(Run(es).taken)
  {
    RunKeeps(es);
    QuietExactly(Run(es));
    QuietIsRest(Run(es));
    RestDeliversAll(es);
  }

  lemma QuietIsRest(s: State)
    requires Inv(s) && s.intact && !s.dropped && !s.pump.Writing? && |s.dev.chan| == 0
    requires match s.reader
             case Reading(got) => !HasFrame(got) && |s.wire| == 0
             case Holding(_) => |s.dev.chan| >= 2048
             case Done(_) => true
    ensures s.wire == [] && (s.reader == Reading([]) || s.reader == Done(None))
  {
    if s.reader.Reading? {
      assert Arriving(s) + Unwritten(s) == s.reader.got;
      assert Rest(s.reader.got) == s.reader.got;
    }
  }

  /** The channel never holds more than 2048 packets. */
  lemma ChannelIsBounded(es: seq<Event>)
    ensures |Run(es).dev.chan| <= 2048
  {
    RunKeeps(es);
    assert Run(es).dev.Shape();
  }
}
