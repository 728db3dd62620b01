/**
 The download path end to end, over every interleaving of its tasks: `poll_write`, the phone's
 writer task, the byte stream, pump B and Wintun. Built like the upload path: an event that cannot
 happen in a state leaves it unchanged.
 */
module DownloadPipeline {
  import opened Bytes
  import opened Cable
  import opened Framing

  /** The writer task: waiting for a packet, writing a frame of which `left` is still to go out, or ended. */
  datatype Writer = Waiting | Writing(pkt: Packet, left: seq<Byte>) | Ended

  /** Pump B: partly through a frame, holding a packet, having handed one over uncounted, or ended. */
  datatype Pump = Reading(got: seq<Byte>) | Holding(pkt: Packet) | Sent(pkt: Packet) | Stopped

  datatype State = State(
    queue: seq<Packet>,       // queued by poll_write, not yet taken by the writer task
    writer: Writer,
    wire: seq<Byte>,          // written and not yet read
    closed: bool,             // the stream takes no more bytes
    pump: Pump,
    dropped: bool,            // the device is gone: nothing more is queued
    phoneRx: nat,
    desktopRx: nat,
    queued: seq<Packet>,      // every packet poll_write accepted
    taken: seq<Packet>,       // those the writer task began to write
    wrote: seq<Packet>,       // those written whole
    read: seq<Packet>,        // every packet pump B read
    handed: seq<Packet>,      // every packet sent to Wintun
    intact: bool)             // nothing has been lost

  const INITIAL := State([], Waiting, [], false, Reading([]), false, 0, 0, [], [], [], [], [], true)

  datatype Event =
    | PollWrite(p: Packet)    // the netstack queues a packet
    | DropDevice
    | TakeNext                // the writer task takes the next packet, dropping an oversize one
    | QueueCloses             // the queue is empty and the device gone
    | WriteSome(n: nat)
    | WriteFails
    | CountWritten            // the frame is out; its packet is counted
    | Break(keep: nat)        // the stream closes, delivering only `keep` of the bytes in flight
    | ReadSome(n: nat)
    | Complete                // read_frame returns a packet
    | Skip                    // an empty frame is ignored
    | HandOver                // allocate_send_packet and send_packet succeed
    | AllocateFails
    | CountHanded
    | EndOfStream

  predicate WellFormed(s: State) {
    s.pump.Reading? ==> OneFrameAtMost(s.pump.got)
  }

  predicate Enabled(s: State, e: Event)
    requires WellFormed(s)
  {
    match e
    case PollWrite(_) => !s.dropped && !s.writer.Ended?
    case DropDevice => !s.dropped
    case TakeNext => s.writer.Waiting? && s.queue != []
    case QueueCloses => s.writer.Waiting? && s.queue == [] && s.dropped
    case WriteSome(n) => s.writer.Writing? && !s.closed && 0 < n <= |s.writer.left|
    case WriteFails => s.writer.Writing? && s.writer.left != []
    case CountWritten => s.writer.Writing? && s.writer.left == []
    case Break(keep) => keep <= |s.wire|
    case ReadSome(n) => s.pump.Reading? && 0 < n <= |s.wire| && n <= Missing(s.pump.got)
    case Complete => s.pump.Reading? && HasFrame(s.pump.got)
    case Skip => s.pump.Holding? && s.pump.pkt == []
    case HandOver => s.pump.Holding? && s.pump.pkt != []
    case AllocateFails => s.pump.Holding? && s.pump.pkt != []
    case CountHanded => s.pump.Sent?
    case EndOfStream => s.pump.Reading? && s.closed && s.wire == [] && !HasFrame(s.pump.got)
  }

  function Apply(s: State, e: Event): State
    requires WellFormed(s) && Enabled(s, e)
  {
    match e
    case PollWrite(p) => s.(queue := s.queue + [p], queued := s.queued + [p])
    case DropDevice => s.(dropped := true)
    case TakeNext =>
      var p := s.queue[0];
      if Framable(p) then s.(queue := s.queue[1..], writer := Writing(p, Encode(p)), taken := s.taken + [p])
      else s.(queue := s.queue[1..])
    case QueueCloses => s.(writer := Ended)
    case WriteSome(n) =>
      s.(wire := s.wire + s.writer.left[..n], writer := s.writer.(left := s.writer.left[n..]),
         wrote := if n == |s.writer.left| then s.wrote + [s.writer.pkt] else s.wrote)
    case WriteFails => s.(writer := Ended, intact := false)
    case CountWritten => s.(phoneRx := s.phoneRx + |s.writer.pkt|, writer := Waiting)
    case Break(keep) => s.(wire := s.wire[..keep], closed := true, intact := s.intact && keep == |s.wire|)
    case ReadSome(n) => s.(pump := Reading(s.pump.got + s.wire[..n]), wire := s.wire[n..])
    case Complete => s.(pump := Holding(FirstFrame(s.pump.got)), read := s.read + [FirstFrame(s.pump.got)])
    case Skip => s.(pump := Reading([]))
    case HandOver => s.(handed := s.handed + [s.pump.pkt], pump := Sent(s.pump.pkt))
    case AllocateFails => s.(pump := Stopped, intact := false)
    case CountHanded => s.(desktopRx := s.desktopRx + |s.pump.pkt|, pump := Reading([]))
    case EndOfStream => s.(pump := Stopped, intact := s.intact && s.pump.got == [])
  }

  // ---- The invariant -----------------------------------------------------------------------

  /** The packets due at Wintun that pump B has settled: handed over, or held and not empty. */
  function Settled(s: State): seq<Packet> {
    s.handed + if s.pump.Holding? then OneDeliverable(s.pump.pkt) else []
  }

  /** The bytes pump B has of an unfinished frame, and those on their way; none once it has stopped. */
  function Arriving(s: State): seq<Byte> {
    if s.pump.Stopped? then [] else Got(s) + s.wire
  }

  function Got(s: State): seq<Byte> {
    if s.pump.Reading? then s.pump.got else []
  }

  function Unwritten(s: State): seq<Byte> {
    if s.writer.Writing? then s.writer.left else []
  }

  /** The packet being written, or written and not yet counted. */
  function Uncounted(s: State): nat {
    if s.writer.Writing? then |s.writer.pkt| else 0
  }

  /** The packet written whole and not yet counted. */
  function Finished(s: State): nat {
    if s.writer.Writing? && s.writer.left == [] then |s.writer.pkt| else 0
  }

  /** The packet pump B has read and not yet counted. */
  function Unsettled(s: State): nat {
    if s.pump.Holding? || s.pump.Sent? then |s.pump.pkt| else 0
  }

  ghost predicate Flow(s: State) {
    && (s.pump.Stopped? && s.intact ==> s.closed)
    && Conserved(s.intact, s.closed || s.writer.Ended? || s.pump.Stopped?, s.taken, s.wrote, s.read,
                 Arriving(s), Unwritten(s))
  }

  /** The packets written whole are those taken, but for the one being written or given up. */
  ghost predicate Written(s: State) {
    && s.wrote <= s.taken && AllFramable(s.taken)
    && (s.intact || s.writer.Waiting? ==> |s.taken| <= |s.wrote| + if Unwritten(s) == [] then 0 else 1)
    && (s.writer.Writing? ==> s.taken == s.wrote + if s.writer.left == [] then [] else [s.writer.pkt])
  }

  ghost predicate Transit(s: State) {
    Flow(s) && Written(s)
  }

  /** Up to oversize packets, those taken and those still queued are all that were queued. */
  ghost predicate Queued(s: State) {
    && FramableOnly(s.queued) == s.taken + FramableOnly(s.queue)
    && (s.writer.Ended? && s.intact ==> |s.queue| == 0)
  }

  /** What pump B has settled is what is due of the packets it read; on a failed allocation, all but the last. */
  ghost predicate Handed(s: State) {
    && (s.pump.Holding? ==> Framable(s.pump.pkt))
    && (if s.pump.Stopped? && !s.intact then s.handed <= Deliverable(s.read) else Settled(s) == Deliverable(s.read))
  }

  /** What pump B has counted, and the packet it has yet to count, is what it handed over. */
  ghost predicate CountedDown(s: State) {
    s.desktopRx + (if s.pump.Sent? then |s.pump.pkt| else 0) == Payload(s.handed)
  }

  /** What the writer has counted, and the packet it has yet to count, is what it wrote whole. */
  ghost predicate CountedUp(s: State) {
    s.phoneRx + Finished(s) == Payload(s.wrote)
  }

  ghost predicate Counted(s: State) {
    CountedUp(s) && CountedDown(s)
  }

  ghost predicate Inv(s: State) {
    WellFormed(s) && Transit(s) && Queued(s) && Handed(s) && Counted(s)
  }

  // ---- Packets that are due ----------------------------------------------------------------

  lemma DeliverableOne(p: Packet)
    ensures Deliverable([p]) == OneDeliverable(p)
  {
    assert Deliverable([p]) == OneDeliverable(p) + Deliverable([]);
  }

  lemma DeliverableSnoc(ps: seq<Packet>, p: Packet)
    ensures Deliverable(ps + [p]) == Deliverable(ps) + OneDeliverable(p)
  {
    DeliverableAppend(ps, [p]);
    DeliverableOne(p);
  }

  lemma DeliverablePrefix(a: seq<Packet>, b: seq<Packet>)
    requires a <= b
    ensures Deliverable(a) <= Deliverable(b)
  {
    DeliverableAppend(a, b[|a|..]);
    assert a + b[|a|..] == b;
  }

  /** The packets left out carry no bytes, as long as none is oversize. */
  lemma {:induction false} DeliverablePayload(ps: seq<Packet>)
    requires AllFramable(ps)
    ensures Payload(Deliverable(ps)) == Payload(ps)
  {
    if ps != [] {
      DeliverablePayload(ps[1..]);
      PayloadAppend(OneDeliverable(ps[0]), Deliverable(ps[1..]));
      assert Payload(OneDeliverable(ps[0])) == |ps[0]|;
    }
  }

  // ---- Each step keeps the invariant -------------------------------------------------------

  lemma TakeNextKeeps(s: State)
    requires WellFormed(s) && Transit(s) && Enabled(s, TakeNext)
    ensures Transit(Apply(s, TakeNext))
  {
    var t, p := Apply(s, TakeNext), s.queue[0];
    assert Arriving(t) == Arriving(s);
    if s.intact && Framable(p) {
      TakeConserved(s.closed || s.pump.Stopped?, s.taken, s.wrote, s.read, Arriving(s), p);
    }
  }

  lemma WriteKeeps(s: State, n: nat)
    requires WellFormed(s) && Transit(s) && Enabled(s, WriteSome(n))
    ensures Transit(Apply(s, WriteSome(n)))
  {
    var t := Apply(s, WriteSome(n));
    if s.pump.Stopped? {
      assert !s.intact && Arriving(t) == Arriving(s);
    } else {
      assert s.intact && Got(t) == Got(s);
      MoveOver(Got(s), s.wire, s.writer.left, n);
    }
  }

  lemma WriteFailsKeeps(s: State)
    requires WellFormed(s) && Transit(s) && Enabled(s, WriteFails)
    ensures Transit(Apply(s, WriteFails))
  {
    assert Arriving(Apply(s, WriteFails)) == Arriving(s);
    LossConserved(s.intact, s.closed || s.pump.Stopped?, s.taken, s.wrote, s.read, Arriving(s), Unwritten(s),
                  Arriving(s));
  }

  lemma BreakKeeps(s: State, keep: nat)
    requires WellFormed(s) && Transit(s) && Enabled(s, Break(keep))
    ensures Transit(Apply(s, Break(keep)))
  {
    var t := Apply(s, Break(keep));
    assert Got(t) == Got(s) && Unwritten(t) == Unwritten(s);
    TakeOver(Got(s), s.wire, keep);
    if keep < |s.wire| {
      LossConserved(s.intact, s.closed || s.writer.Ended? || s.pump.Stopped?, s.taken, s.wrote, s.read,
                    Arriving(s), Unwritten(s), Arriving(t));
    }
  }

  lemma ReadSomeKeeps(s: State, n: nat)
    requires WellFormed(s) && Transit(s) && Enabled(s, ReadSome(n))
    ensures Transit(Apply(s, ReadSome(n)))
  {
    TakeOver(s.pump.got, s.wire, n);
    assert Arriving(Apply(s, ReadSome(n))) == Arriving(s);
  }

  lemma CompleteKeeps(s: State)
    requires WellFormed(s) && Transit(s) && Enabled(s, Complete)
    ensures Transit(Apply(s, Complete))
  {
    assert Arriving(Apply(s, Complete)) == s.wire;
    ArriveConserved(s.intact, s.closed || s.writer.Ended?, s.taken, s.wrote, s.read, s.pump.got, s.wire, Unwritten(s));
  }

  lemma StopKeeps(s: State, e: Event)
    requires WellFormed(s) && Transit(s) && Enabled(s, e)
    requires e.AllocateFails? || e.EndOfStream?
    ensures Transit(Apply(s, e))
  {
    var t := Apply(s, e);
    LossConserved(s.intact, s.closed || s.writer.Ended?, s.taken, s.wrote, s.read, Arriving(s), Unwritten(s), []);
    if t.intact {
      assert Arriving(s) == [];
    }
  }

  /** Steps that move no byte on the stream. */
  lemma AsideKeeps(s: State, e: Event)
    requires WellFormed(s) && Transit(s) && Enabled(s, e)
    requires || e.PollWrite? || e.DropDevice? || e.QueueCloses? || e.CountWritten?
             || e.Skip? || e.HandOver? || e.CountHanded?
    ensures Transit(Apply(s, e))
  {
    var t := Apply(s, e);
    assert Arriving(t) == Arriving(s) && Unwritten(t) == Unwritten(s);
  }

  lemma TransitKeeps(s: State, e: Event)
    requires WellFormed(s) && Transit(s) && Enabled(s, e)
    ensures Transit(Apply(s, e))
  {
    match e
    case TakeNext => TakeNextKeeps(s);
    case WriteSome(n) => WriteKeeps(s, n);
    case WriteFails => WriteFailsKeeps(s);
    case Break(keep) => BreakKeeps(s, keep);
    case ReadSome(n) => ReadSomeKeeps(s, n);
    case Complete => CompleteKeeps(s);
    case AllocateFails => StopKeeps(s, e);
    case EndOfStream => StopKeeps(s, e);
    case PollWrite(_) => AsideKeeps(s, e);
    case DropDevice => AsideKeeps(s, e);
    case QueueCloses => AsideKeeps(s, e);
    case CountWritten => AsideKeeps(s, e);
    case Skip => AsideKeeps(s, e);
    case HandOver => AsideKeeps(s, e);
    case CountHanded => AsideKeeps(s, e);
  }

  lemma FramableSnoc(ps: seq<Packet>, p: Packet)
    ensures FramableOnly(ps + [p]) == FramableOnly(ps) + OneFramable(p)
  {
    FramableOnlyAppend(ps, [p]);
    assert FramableOnly([p]) == OneFramable(p) + FramableOnly([p][1..]);
  }

  /** A packet taken off the queue is written, whatever it holds, unless it is oversize. */
  lemma TakesExactly(s: State)
    requires WellFormed(s) && Enabled(s, TakeNext)
    ensures var t, p := Apply(s, TakeNext), s.queue[0];
      && t.queue == s.queue[1..] && t.intact == s.intact
      && if |p| <= 65535 then t.taken == s.taken + [p] && t.writer == Writing(p, Encode(p))
         else t.taken == s.taken && t.writer == Waiting
  {
  }

  /** Taking a packet off the queue, or dropping it because it is oversize, leaves the rest as it was. */
  lemma QueuedKeeps(s: State, e: Event)
    requires WellFormed(s) && Queued(s) && Enabled(s, e)
    ensures Queued(Apply(s, e))
  {
    match e
    case PollWrite(p) =>
      FramableSnoc(s.queued, p);
      FramableSnoc(s.queue, p);
      Assoc(s.taken, FramableOnly(s.queue), OneFramable(p));
    case TakeNext =>
      Assoc(s.taken, OneFramable(s.queue[0]), FramableOnly(s.queue[1..]));
      assert |OneFramable(s.queue[0])| == 0 ==> s.taken + OneFramable(s.queue[0]) == s.taken;
    case _ =>
  }

  /** So the packets due are those due of the packets taken, and of those still queued. */
  lemma QueuedDue(s: State)
    requires Queued(s)
    ensures Deliverable(s.queued) == Deliverable(s.taken) + Deliverable(s.queue)
  {
    DeliverableFramable(s.queued);
    DeliverableFramable(s.queue);
    DeliverableAppend(s.taken, FramableOnly(s.queue));
  }

  /** Is this a step of pump B? */
  predicate OfPump(e: Event) {
    e.ReadSome? || e.Complete? || e.Skip? || e.HandOver? || e.AllocateFails? || e.CountHanded? || e.EndOfStream?
  }

  lemma PumpAside(s: State, e: Event)
    requires WellFormed(s) && Enabled(s, e) && !OfPump(e)
    ensures var t := Apply(s, e);
      && WellFormed(t) && t.pump == s.pump && t.read == s.read && t.handed == s.handed
      && t.desktopRx == s.desktopRx && (t.intact ==> s.intact)
  {
  }

  lemma WriterAside(s: State, e: Event)
    requires WellFormed(s) && Enabled(s, e) && !e.WriteSome?
    ensures var t := Apply(s, e); t.wrote == s.wrote && t.phoneRx + Finished(t) == s.phoneRx + Finished(s)
  {
    if e.TakeNext? && Framable(s.queue[0]) {
      assert Encode(s.queue[0]) != [];
    }
  }

  lemma HandedComplete(s: State)
    requires WellFormed(s) && Handed(s) && Enabled(s, Complete)
    ensures WellFormed(Apply(s, Complete)) && Handed(Apply(s, Complete))
  {
    assert Settled(s) == s.handed;
    DeliverableSnoc(s.read, FirstFrame(s.pump.got));
  }

  lemma HandedReadSome(s: State, n: nat)
    requires WellFormed(s) && Handed(s) && Enabled(s, ReadSome(n))
    ensures WellFormed(Apply(s, ReadSome(n))) && Handed(Apply(s, ReadSome(n)))
  {
    ReadSomeStaysInFrame(s.pump.got, s.wire[..n]);
    assert Settled(Apply(s, ReadSome(n))) == Settled(s);
  }

  lemma HandedSettles(s: State, e: Event)
    requires WellFormed(s) && Handed(s) && Enabled(s, e)
    requires e.Skip? || e.HandOver? || e.CountHanded? || e.EndOfStream?
    ensures WellFormed(Apply(s, e)) && Handed(Apply(s, e))
  {
    assert Settled(Apply(s, e)) == Settled(s);
  }

  lemma HandedKeeps(s: State, e: Event)
    requires WellFormed(s) && Handed(s) && Enabled(s, e)
    ensures WellFormed(Apply(s, e)) && Handed(Apply(s, e))
  {
    if !OfPump(e) {
      PumpAside(s, e);
    } else if e.ReadSome? {
      HandedReadSome(s, e.n);
    } else if e.Complete? {
      HandedComplete(s);
    } else if e.AllocateFails? {
      assert s.handed <= Settled(s);
    } else {
      HandedSettles(s, e);
    }
  }

  lemma CountedUpKeeps(s: State, e: Event)
    requires WellFormed(s) && CountedUp(s) && Enabled(s, e)
    ensures CountedUp(Apply(s, e))
  {
    if e.WriteSome? {
      PayloadSnoc(s.wrote, s.writer.pkt);
      assert e.n < |s.writer.left| ==> s.writer.left[e.n..] != [];
    } else {
      WriterAside(s, e);
    }
  }

  lemma CountedDownKeeps(s: State, e: Event)
    requires WellFormed(s) && CountedDown(s) && Enabled(s, e)
    ensures CountedDown(Apply(s, e))
  {
    if !OfPump(e) {
      PumpAside(s, e);
    } else if e.HandOver? {
      PayloadSnoc(s.handed, s.pump.pkt);
    }
  }

  lemma CountedKeeps(s: State, e: Event)
    requires WellFormed(s) && Counted(s) && Enabled(s, e)
    ensures Counted(Apply(s, e))
  {
    CountedUpKeeps(s, e);
    CountedDownKeeps(s, e);
  }

  lemma StepKeeps(s: State, e: Event)
    requires Inv(s) && Enabled(s, e)
    ensures Inv(Apply(s, e))
  {
    TransitKeeps(s, e);
    QueuedKeeps(s, e);
    HandedKeeps(s, e);
    CountedKeeps(s, e);
  }

  // ---- Every run ---------------------------------------------------------------------------

  /** An event takes effect if it can happen, and is skipped otherwise. */
  function Next(s: State, e: Event): State {
    if WellFormed(s) && Enabled(s, e) then Apply(s, e) else s
  }

  /** The state after the events of `es`. */
  function Run(es: seq<Event>): State {
    if es == [] then INITIAL else Next(Run(es[..|es| - 1]), es[|es| - 1])
  }

  lemma NextKeeps(s: State, e: Event)
    requires Inv(s)
    ensures Inv(Next(s, e))
  {
    if Enabled(s, e) {
      StepKeeps(s, e);
    }
  }

  lemma InitialTransit()
    ensures WellFormed(INITIAL) && Transit(INITIAL)
  {
    assert Arriving(INITIAL) + Unwritten(INITIAL) == Arriving(INITIAL) == [];
  }

  lemma InitialQueued()
    ensures Queued(INITIAL) && Handed(INITIAL)
  {
  }

  lemma NothingCounted(s: State)
    requires |s.wrote| == 0 && |s.handed| == 0 && s.phoneRx == 0 && s.desktopRx == 0
    requires s.writer.Waiting? && s.pump.Reading?
    ensures Counted(s)
  {
  }

  /** Every run keeps the invariant. */
  lemma {:induction false} RunKeeps(es: seq<Event>)
    ensures Inv(Run(es))
  {
    if es == [] {
      InitialTransit();
      InitialQueued();
      NothingCounted(INITIAL);
    } else {
      RunKeeps(es[..|es| - 1]);
      NextKeeps(Run(es[..|es| - 1]), es[|es| - 1]);
    }
  }

  /**
   In every run, whatever breaks and at whatever byte, Wintun is handed an in-order prefix of the
   packets queued, oversize and empty ones left out: no cut frame, no gap, no repetition.
   */
  lemma HandedInOrder(es: seq<Event>)
    ensures Run(es).handed <= Deliverable(Run(es).queued)
  {
    RunKeeps(es);
    HandedFirst(Run(es));
  }

  lemma HandedFirst(s: State)
    requires Inv(s)
    ensures s.handed <= Deliverable(s.wrote) <= Deliverable(s.queued)
  {
    LossConserved(s.intact, s.closed || s.writer.Ended? || s.pump.Stopped?, s.taken, s.wrote, s.read,
                  Arriving(s), Unwritten(s), []);
    assert s.read + [] == s.read;
    DeliverablePrefix(s.read, s.wrote);
    DeliverablePrefix(s.wrote, s.taken);
    QueuedDue(s);
    assert s.handed <= Settled(s);
  }

  /** While nothing has been lost, every packet due is handed over, held, on the wire or queued. */
  lemma NothingLost(es: seq<Event>)
    requires Run(es).intact
    ensures var s := Run(es);
      && Deliverable(s.queued) == Settled(s) + Deliverable(Frames(Arriving(s) + Unwritten(s))) + Deliverable(s.queue)
      && Rest(Arriving(s) + Unwritten(s)) == []
  {
    RunKeeps(es);
    DueIsSomewhere(Run(es));
  }

  lemma DueIsSomewhere(s: State)
    requires Inv(s) && s.intact
    ensures Deliverable(s.queued) ==
            Settled(s) + Deliverable(Frames(Arriving(s) + Unwritten(s))) + Deliverable(s.queue)
  {
    QueuedDue(s);
    DeliverableAppend(s.read, Frames(Arriving(s) + Unwritten(s)));
  }

  /** A run that has come to rest, nothing lost, has handed over everything due. */
  lemma RestDeliversAll(es: seq<Event>)
    requires var s := Run(es);
      && s.intact && s.queue == [] && !s.writer.Writing?
      && s.wire == [] && (s.pump == Reading([]) || s.pump.Stopped?)
    ensures Run(es).handed == Deliverable(Run(es).queued)
  {
    NothingLost(es);
  }

  /**
   Byte counters. While nothing has been lost, what the phone counted and the packet it has yet to
   count is what the desktop counted, the packet it has yet to count, and what it has yet to read.
   */
  lemma CountersAgree(es: seq<Event>)
    requires Run(es).intact
    ensures var s := Run(es);
      s.phoneRx + Uncounted(s) == s.desktopRx + Unsettled(s) + Payload(Frames(Arriving(s) + Unwritten(s)))
  {
    RunKeeps(es);
    IntactCounters(Run(es));
  }

  lemma IntactCounters(s: State)
    requires Inv(s) && s.intact
    ensures s.phoneRx + Uncounted(s) == s.desktopRx + Unsettled(s) + Payload(Frames(Arriving(s) + Unwritten(s)))
  {
    TakenPayload(s);
    PayloadAppend(s.read, Frames(Arriving(s) + Unwritten(s)));
    assert forall i :: 0 <= i < |s.read| ==> s.read[i] == s.taken[i];
    DeliverablePayload(s.read);
    SettledPayload(s);
  }

  lemma TakenPayload(s: State)
    requires Written(s) && Counted(s) && s.intact
    ensures Payload(s.taken) == s.phoneRx + Uncounted(s)
  {
    if Unwritten(s) != [] {
      PayloadSnoc(s.wrote, s.writer.pkt);
    } else {
      assert s.taken == s.wrote;
    }
  }

  lemma SettledPayload(s: State)
    requires Handed(s) && Counted(s)
    ensures Payload(Settled(s)) == s.desktopRx + Unsettled(s)
  {
    if s.pump.Holding? && s.pump.pkt != [] {
      PayloadSnoc(s.handed, s.pump.pkt);
    } else {
      assert Settled(s) == s.handed;
    }
  }

  /** In every run, whatever is lost, the desktop never counts a byte of a packet the phone has not written whole. */
  lemma DesktopNeverAhead(es: seq<Event>)
    ensures Run(es).desktopRx <= Payload(Run(es).handed) <= Run(es).phoneRx + Finished(Run(es))
  {
    RunKeeps(es);
    HandedPayload(Run(es));
  }

  lemma HandedPayload(s: State)
    requires Inv(s)
    ensures Payload(s.handed) <= Payload(s.wrote)
  {
    HandedFirst(s);
    assert forall i :: 0 <= i < |s.wrote| ==> s.wrote[i] == s.taken[i];
    DeliverablePayload(s.wrote);
    PayloadPrefix(s.handed, Deliverable(s.wrote));
  }

  // ---- What can be lost, and what goes on by itself ----------------------------------------

  /** The steps that lose something: a failed write, a refusal by Wintun, a stream cut short. */
  predicate Loses(s: State, e: Event) {
    || e.WriteFails?
    || e.AllocateFails?
    || (e.Break? && e.keep < |s.wire|)
    || (e.EndOfStream? && s.pump.Reading? && |s.pump.got| > 0)
  }

  /** No other step loses anything, ends a task, closes the stream or drops the device. */
  lemma FlagsChangeExactly(s: State, e: Event)
    requires WellFormed(s) && Enabled(s, e)
    ensures Apply(s, e).intact <==> s.intact && !Loses(s, e)
    ensures Apply(s, e).writer.Ended? <==> s.writer.Ended? || e.QueueCloses? || e.WriteFails?
    ensures Apply(s, e).pump.Stopped? <==> s.pump.Stopped? || e.AllocateFails? || e.EndOfStream?
    ensures Apply(s, e).closed <==> s.closed || e.Break?
    ensures Apply(s, e).dropped <==> s.dropped || e.DropDevice?
  {
  }

  /** Does `e` take effect in `s`? */
  predicate Happens(s: State, e: Event) {
    WellFormed(s) && Enabled(s, e)
  }

  /** Did none of the events of `es` that took effect lose anything? */
  predicate LosesNothing(es: seq<Event>) {
    |es| == 0 ||
    var s, e := Run(es[..|es| - 1]), es[|es| - 1];
    LosesNothing(es[..|es| - 1]) && !(Happens(s, e) && Loses(s, e))
  }

  lemma NextFlags(s: State, e: Event)
    ensures Next(s, e).intact <==> s.intact && !(Happens(s, e) && Loses(s, e))
  {
    if Happens(s, e) {
      FlagsChangeExactly(s, e);
    }
  }

  /** A run is intact if and only if no event lost anything. */
  lemma {:induction false} IntactExactly(es: seq<Event>)
    ensures Run(es).intact <==> LosesNothing(es)
  {
    if |es| > 0 {
      IntactExactly(es[..|es| - 1]);
      NextFlags(Run(es[..|es| - 1]), es[|es| - 1]);
    }
  }

  /** The steps the tasks take by themselves, given room on the stream and in the Wintun ring. */
  predicate Own(s: State, e: Event) {
    || e.TakeNext? || e.QueueCloses? || e.WriteSome? || e.CountWritten? || (e.WriteFails? && s.closed)
    || e.ReadSome? || e.Complete? || e.Skip? || e.HandOver? || e.CountHanded? || e.EndOfStream?
  }

  function QueueWork(queue: seq<Packet>): nat {
    if |queue| == 0 then 0 else 3 * |queue[0]| + 8 + QueueWork(queue[1..])
  }

  function WriterWork(w: Writer): nat {
    match w
    case Waiting => 1
    case Writing(_, left) => 3 * |left| + 2
    case Ended => 0
  }

  function PumpWork(p: Pump): nat {
    match p
    case Reading(got) => |got| + 2
    case Holding(pkt) => if |pkt| == 0 then 3 else 4
    case Sent(_) => 3
    case Stopped => 0
  }

  /** An upper bound on the steps to come, a byte at a time. */
  function Work(s: State): nat {
    QueueWork(s.queue) + WriterWork(s.writer) + 2 * |s.wire| + PumpWork(s.pump)
  }

  lemma OwnStepsLowerWork(s: State, e: Event)
    requires WellFormed(s) && Enabled(s, e) && Own(s, e)
    ensures Work(Apply(s, e)) < Work(s)
  {
  }

  /** Can no task take a step? */
  ghost predicate Quiet(s: State)
    requires WellFormed(s)
  {
    forall e :: Enabled(s, e) ==> !Own(s, e)
  }

  function WriterStep(s: State): Event
    requires WellFormed(s)
  {
    match s.writer
    case Waiting => if |s.queue| > 0 then TakeNext else QueueCloses
    case Writing(_, left) => if |left| == 0 then CountWritten else if s.closed then WriteFails else WriteSome(1)
    case Ended => DropDevice
  }

  function PumpStep(s: State): Event
    requires WellFormed(s)
  {
    match s.pump
    case Reading(got) => if HasFrame(got) then Complete else if |s.wire| > 0 then ReadSome(1) else EndOfStream
    case Holding(pkt) => if |pkt| == 0 then Skip else HandOver
    case Sent(_) => CountHanded
    case Stopped => DropDevice
  }

  /**
   Exactly when nothing moves: the writer has nothing to write and the device is there, or it has
   ended; and pump B waits for bytes on an open stream, or has stopped.
   */
  lemma QuietExactly(s: State)
    requires WellFormed(s)
    ensures Quiet(s) <==>
            && (match s.writer
                case Waiting => |s.queue| == 0 && !s.dropped
                case Writing(_, _) => false
                case Ended => true)
            && (match s.pump
                case Reading(got) => !HasFrame(got) && |s.wire| == 0 && !s.closed
                case Holding(_) => false
                case Sent(_) => false
                case Stopped => true)
  {
    var w, p := WriterStep(s), PumpStep(s);
    assert Quiet(s) ==> !(Enabled(s, w) && Own(s, w)) && !(Enabled(s, p) && Own(s, p));
  }

  /** Nothing gets stuck: when no task can take a step and nothing was lost, Wintun has had everything due. */
  lemma QuietDeliversAll(es: seq<Event>)
    requires WellFormed(Run(es)) && Quiet(Run(es)) && Run(es).intact
    ensures Run(es).handed == Deliverable(Run(es).queued)
  {
    RunKeeps(es);
    QuietExactly(Run(es));
    QuietIsRest(Run(es));
    NothingLost(es);
  }

  lemma QuietIsRest(s: State)
    requires Inv(s) && s.intact && Quiet(s)
    ensures |s.queue| == 0 && Settled(s) == s.handed && Arriving(s) == [] && Unwritten(s) == []
  {
    QuietExactly(s);
    if s.pump.Reading? {
      assert Arriving(s) + Unwritten(s) == s.pump.got;
      assert Rest(s.pump.got) == s.pump.got;
    }
  }
}
