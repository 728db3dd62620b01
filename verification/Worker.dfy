/**
 The life of one connection of the Windows worker (win/src/worker.rs).

 `RunConnect` is the sequential outline, with its early exits. The run model below is the part with
 three threads in it: the two pumps, and the main thread that stops, unblocks and joins them.
 */
module Worker {
  import opened Bytes
  import opened Framing
  import opened Pumps
  import opened Routing
  import opened SharedState
  import opened Streams

  /** How the fallible steps of setting a connection up turn out. */
  datatype Setup = Setup(adapter: bool, transport: bool, clones: bool, permits: Permits)

  /** Does setting up get as far as the routes being in? */
  predicate RoutesIn(setup: Setup, rows: Rows, tun: nat) {
    && setup.adapter && setup.transport
    && setup.permits.low && setup.permits.high
    && LowHalf(tun) !in rows && HighHalf(tun) !in rows
  }

  /** `connect_inner` fails when one of its steps does. */
  predicate Succeeds(setup: Setup, rows: Rows, tun: nat) {
    RoutesIn(setup, rows, tun) && setup.clones
  }

  /** The row no one removes: a carve-out off the adapter, when duplicating the stream fails. */
  function LeftBehind(setup: Setup, rows: Rows, tun: nat, phone: Option<Address>, hop: Option<Route>): Option<Route> {
    var carveOut := AddedCarveOut(rows, phone, hop, setup.permits.carveOut);
    if RoutesIn(setup, rows, tun) && !setup.clones && carveOut.Some? && carveOut.value.luid != tun
    then carveOut else None
  }

  /** The table once the adapter, if it came up, is closed. */
  function AfterClose(setup: Setup, rows: Rows, tun: nat, left: Option<Route>): Rows {
    if !setup.adapter then rows
    else if left.None? then OffAdapter(rows, tun)
    else OffAdapter(rows, tun)[left.value := CARVE_OUT_METRIC]
  }

  /** So it fails for a phone on a LAN of its own, when duplicating the stream fails. */
  lemma CarveOutStays()
    ensures var lan := Route(0, 0, 7, 0xC0A8_0001);
      LeftBehind(Setup(true, true, false, Permits(true, true, true)), map[lan := 25], 9, Some(0xC0A8_002A), Some(lan))
      == Some(Route(0xC0A8_002A, 32, 7, 0xC0A8_0001))
  {
  }

  /** The table is as it was just when no row was on the adapter and none is left behind. */
  lemma RestoredExactly(setup: Setup, rows: Rows, tun: nat, phone: Option<Address>, hop: Option<Route>)
    ensures AfterClose(setup, rows, tun, LeftBehind(setup, rows, tun, phone, hop)) == rows <==>
            && (setup.adapter ==> forall r :: r in rows ==> r.luid != tun)
            && LeftBehind(setup, rows, tun, phone, hop).None?
  {
    var left := LeftBehind(setup, rows, tun, phone, hop);
    if left.Some? {
      assert left.value in AfterClose(setup, rows, tun, left) && left.value !in rows;
    }
    if forall r :: r in rows ==> r.luid != tun {
      assert OffAdapter(rows, tun) == rows;
    }
    if r :| r in rows && r.luid == tun {
      assert r !in OffAdapter(rows, tun);
    }
  }

  /** Both ends of a connection, seen from the pumps. */
  class Link {
    const packets: seq<Packet>   // what the Wintun session hands out until it ends
    const out: ByteSink          // the stream, written
    const inp: ByteSource        // the stream, read
    const session: Session       // the Wintun session, sent to

    constructor (packets: seq<Packet>, out: ByteSink, inp: ByteSource, session: Session)
      ensures this.packets == packets && this.out == out && this.inp == inp && this.session == session
    {
      this.packets, this.out, this.inp, this.session := packets, out, inp, session;
    }

    predicate Fresh()
      reads this, out, session
    {
      out.Valid() && out.written == [] && session.sent == []
    }

    /** The bytes on the cable once the connection has ended. */
    function Uploaded(): seq<Byte> {
      Clip(EncodeAll(BeforeOversize(packets)), out.limit)
    }

    /** The packets Wintun has been sent once the connection has ended, when the stream carried `bytes`. */
    function Downloaded(bytes: seq<Byte>): seq<Packet> {
      var all := Deliverable(Frames(bytes));
      all[..Accepted(session.grants, |all|)]
    }
  }

  /** The two pumps. They run in threads of their own, but share no state: here one follows the other. */
  method RunPumps(shared: Shared, link: Link)
    requires link.Fresh()
    modifies shared`rx, shared`tx, link.out, link.inp, link.session
    ensures link.out.written == link.Uploaded()
    ensures link.session.sent == link.Downloaded(old(link.inp.unread))
    ensures shared.tx == old(shared.tx) + Payload(Frames(link.out.written))
    ensures shared.rx == old(shared.rx) + Payload(link.session.sent)
  {
    PumpUpload(link.packets, link.out, shared);
    PumpDownload(link.inp, link.session, shared);
  }

  /** The pumps, and what follows when they have ended; `before` is the table without the rows we own. */
  method PumpAndTearDown(shared: Shared, table: RouteTable, link: Link, tun: nat, routes: Routes, ghost before: Rows)
    requires shared.Valid() && link.Fresh() && table.rows - (set r | r in routes.rows) == before
    modifies shared`lines, shared`rx, shared`tx, table, link.out, link.inp, link.session
    ensures shared.Valid() && table.rows == OffAdapter(before, tun)
    ensures link.out.written == link.Uploaded()
    ensures link.session.sent == link.Downloaded(old(link.inp.unread))
    ensures shared.tx == old(shared.tx) + Payload(Frames(link.out.written))
    ensures shared.rx == old(shared.rx) + Payload(link.session.sent)
  {
    RunPumps(shared, link);
    shared.Log("stopping");
    routes.Remove(table);
    table.CloseAdapter(tun);
  }

  /** Set up, pump, tear down. `hop` is the route the system reports for a Wi-Fi phone. */
  method ConnectInner(shared: Shared, table: RouteTable, link: Link,
                      tun: nat, phone: Option<Address>, hop: Option<Route>, setup: Setup)
    returns (r: Result<(), string>)
    requires shared.Valid() && link.Fresh()
    modifies shared`state, shared`lines, shared`rx, shared`tx, table, link.out, link.inp, link.session
    ensures shared.Valid()
    ensures r.Ok? <==> Succeeds(setup, old(table.rows), tun)
    ensures shared.state == old(shared.state) || shared.state == Connected
    ensures table.rows ==
            AfterClose(setup, old(table.rows), tun, LeftBehind(setup, old(table.rows), tun, phone, hop))
    ensures r.Ok? ==>
              && link.out.written == link.Uploaded()
              && link.session.sent == link.Downloaded(old(link.inp.unread))
              && shared.tx == old(shared.tx) + Payload(Frames(link.out.written))
              && shared.rx == old(shared.rx) + Payload(link.session.sent)
    ensures r.Err? ==>
              && link.out.written == [] && link.session.sent == []
              && shared.tx == old(shared.tx) && shared.rx == old(shared.rx)
  {
    shared.Log("creating adapter");
    if !setup.adapter {
      return Err("adapter");
    }
    shared.Log("connecting to phone");
    if !setup.transport {
      table.CloseAdapter(tun);
      return Err("transport");
    }
    var routes := Install(table, tun, phone, hop, setup.permits);
    if routes.Err? {
      table.CloseAdapter(tun);
      return Err("routes");
    }
    shared.Log("routes set");
    shared.SetState(Connected);
    ghost var carveOut := AddedCarveOut(old(table.rows), phone, hop, setup.permits.carveOut);
    if !setup.clones {
      // The routes are not removed here; the adapter goes, and its rows with it.
      CapturedOffAdapter(old(table.rows), tun, carveOut);
      table.CloseAdapter(tun);
      return Err("try_clone");
    }
    RemovedAgain(old(table.rows), tun, carveOut, routes.value.rows);
    PumpAndTearDown(shared, table, link, tun, routes.value, old(table.rows));
    r := Ok(());
  }

  /**
   `run_connect`: the state ends as Error exactly when setting up failed, and as Disconnected
   otherwise; the counters hold the totals of this connection; and the route table is as it was
   unless the adapter had rows before, or a carve-out is left behind.
   */
  method RunConnect(shared: Shared, table: RouteTable, link: Link,
                    tun: nat, phone: Option<Address>, hop: Option<Route>, setup: Setup)
    requires shared.Valid() && link.Fresh()
    modifies shared, table, link.out, link.inp, link.session
    ensures shared.Valid()
    ensures shared.state == if Succeeds(setup, old(table.rows), tun) then Disconnected else Error
    ensures table.rows == old(table.rows) <==>
            && (setup.adapter ==> forall r :: r in old(table.rows) ==> r.luid != tun)
            && LeftBehind(setup, old(table.rows), tun, phone, hop).None?
    ensures shared.tx == Payload(Frames(link.out.written)) && shared.rx == Payload(link.session.sent)
    ensures Succeeds(setup, old(table.rows), tun) ==>
              && link.out.written == link.Uploaded()
              && link.session.sent == link.Downloaded(old(link.inp.unread))
    ensures !Succeeds(setup, old(table.rows), tun) ==> shared.tx == 0 && shared.rx == 0
  {
    RestoredExactly(setup, table.rows, tun, phone, hop);
    shared.ClearStop();
    shared.ResetCounters();
    shared.SetState(Connecting);
    var r := ConnectInner(shared, table, link, tun, phone, hop, setup);
    if r.Err? {
      shared.SetError(r.error);
    }
    if shared.state != Error {
      shared.SetState(Disconnected);
    }
    shared.Log("disconnected");
  }

  // ---- The three threads -------------------------------------------------------------------

  /** What the main thread does next. */
  datatype Main =
    | Watching | StopSession | ShutStream | JoinUpload | JoinDownload | RemoveRoutes | DropAdapter | Finished

  /** Pump A: at receive_blocking, at write_frame, out of its loop, or ended. */
  datatype Upload = Receiving | Writing(fits: bool) | UploadLeaving | UploadEnded

  /** Pump B: at read_frame, about to send to Wintun, out of its loop, or ended. */
  datatype Download = Reading | Sending | DownloadLeaving | DownloadEnded

  datatype State = State(
    main: Main,
    stop: bool,           // the window asked the worker to stop
    alive: bool,          // neither pump has said that it ended
    session: bool,        // the Wintun session has not been shut down
    stream: bool,         // our end of the stream has not been shut down
    peer: bool,           // the phone's end is still there
    up: Upload,
    down: Download,
    ring: nat,            // packets waiting in the Wintun ring
    inbox: nat,           // bytes received on the stream and not read
    routes: bool,
    adapter: bool)

  const INITIAL := State(Watching, false, true, true, true, true, Receiving, Reading, 0, 0, true, true)

  datatype Event =
    // the surroundings
    | RequestStop | PacketArrives | WintunFails | BytesArrive(n: nat) | PeerCloses
    | WriteDone             // the stream has taken the frame: until then the write blocks
    // the main thread
    | MainStep
    // pump A
    | Receive(fits: bool)   // a packet that can be framed, or one that is too long
    | ReceiveFails | WriteFails | UploadEnds
    // pump B
    | ReadFrame(n: nat) | SkipEmpty | ReadEnds | SendDone | SendFails | DownloadEnds

  predicate FromOutside(e: Event) {
    || e.RequestStop? || e.PacketArrives? || e.WintunFails? || e.BytesArrive? || e.PeerCloses?
    || e.WriteDone?
  }

  predicate Enabled(s: State, e: Event) {
    match e
    case RequestStop => true
    case PacketArrives => s.session
    case WintunFails => s.up.Receiving? && s.session
    case BytesArrive(_) => s.stream && s.peer
    case PeerCloses => s.peer
    case MainStep =>
      (match s.main
       case Watching => s.stop || !s.alive
       case JoinUpload => s.up.UploadEnded?
       case JoinDownload => s.down.DownloadEnded?
       case Finished => false
       case _ => true)
    case Receive(_) => s.up.Receiving? && s.ring > 0
    case ReceiveFails => s.up.Receiving? && !s.session && s.ring == 0
    case WriteDone => s.up.Writing? && s.up.fits && s.stream && s.peer
    case WriteFails => s.up.Writing? && (!s.up.fits || !s.stream || !s.peer)
    case UploadEnds => s.up.UploadLeaving?
    case ReadFrame(n) => s.down.Reading? && 3 <= n <= s.inbox
    case SkipEmpty => s.down.Reading? && s.inbox >= 2
    case ReadEnds => s.down.Reading? && (!s.stream || !s.peer)
    case SendDone => s.down.Sending?
    case SendFails => s.down.Sending?
    case DownloadEnds => s.down.DownloadLeaving?
  }

  function Apply(s: State, e: Event): State
    requires Enabled(s, e)
  {
    match e
    case RequestStop => s.(stop := true)
    case PacketArrives => s.(ring := s.ring + 1)
    case WintunFails => s.(up := UploadLeaving)
    case BytesArrive(n) => s.(inbox := s.inbox + n)
    case PeerCloses => s.(peer := false)
    case MainStep => AfterMain(s)
    case Receive(fits) => s.(ring := s.ring - 1, up := Writing(fits))
    case ReceiveFails => s.(up := UploadLeaving)
    case WriteDone => s.(up := Receiving)
    case WriteFails => s.(up := UploadLeaving)
    case UploadEnds => s.(up := UploadEnded, alive := false)
    case ReadFrame(n) => s.(inbox := s.inbox - n, down := Sending)
    case SkipEmpty => s.(inbox := s.inbox - 2)
    case ReadEnds => s.(down := DownloadLeaving)
    case SendDone => s.(down := Reading)
    case SendFails => s.(down := DownloadLeaving)
    case DownloadEnds => s.(down := DownloadEnded, alive := false)
  }

  function AfterMain(s: State): State {
    match s.main
    case Watching => s.(main := StopSession)
    case StopSession => s.(session := false, main := ShutStream)
    case ShutStream => s.(stream := false, main := JoinUpload)
    case JoinUpload => s.(main := JoinDownload)
    case JoinDownload => s.(main := RemoveRoutes)
    case RemoveRoutes => s.(routes := false, main := DropAdapter)
    case DropAdapter => s.(adapter := false, main := Finished)
    case Finished => s
  }

  /** Steps the main thread has still to take. */
  function MainRank(m: Main): nat {
    match m
    case Watching => 7
    case StopSession => 6
    case ShutStream => 5
    case JoinUpload => 4
    case JoinDownload => 3
    case RemoveRoutes => 2
    case DropAdapter => 1
    case Finished => 0
  }

  /** The order of the teardown: who may be running while what is still in place. */
  ghost predicate Ordered(s: State) {
    && (s.session <==> MainRank(s.main) > 5)
    && (s.stream <==> MainRank(s.main) > 4)
    && (s.routes <==> MainRank(s.main) > 1)
    && (s.adapter <==> s.main != Finished)
    && (MainRank(s.main) < 4 ==> s.up.UploadEnded?)
    && (MainRank(s.main) < 3 ==> s.down.DownloadEnded?)
    && (s.main != Watching ==> s.stop || !s.alive)
    && (!s.alive <==> s.up.UploadEnded? || s.down.DownloadEnded?)
  }

  function Next(s: State, e: Event): State {
    if Enabled(s, e) then Apply(s, e) else s
  }

  /** The state after the events of `es`; an event that cannot happen is skipped. */
  function Run(es: seq<Event>): State {
    if es == [] then INITIAL else Next(Run(es[..|es| - 1]), es[|es| - 1])
  }

  lemma StepKeepsOrder(s: State, e: Event)
    requires Ordered(s)
    ensures Ordered(Next(s, e))
  {
  }

  lemma {:induction false} RunIsOrdered(es: seq<Event>)
    ensures Ordered(Run(es))
  {
    if es != [] {
      RunIsOrdered(es[..|es| - 1]);
      StepKeepsOrder(Run(es[..|es| - 1]), es[|es| - 1]);
    }
  }

  /**
   In every run the routes go only after both pumps have ended, and the adapter only after the
   routes; and a finished teardown has taken everything down.
   */
  lemma TeardownOrder(es: seq<Event>)
    ensures var s := Run(es);
      && (!s.routes ==> s.up.UploadEnded? && s.down.DownloadEnded?)
      && (!s.adapter ==> !s.routes)
      && (s.main == Finished ==> !s.routes && !s.adapter && !s.session && !s.stream)
      && (s.main != Watching ==> s.stop || s.up.UploadEnded? || s.down.DownloadEnded?)
  {
    RunIsOrdered(es);
  }

  // ---- Teardown always gets done -----------------------------------------------------------

  /** The connection is ending: asked to, or a pump has left its loop. */
  predicate Ending(s: State) {
    s.stop || s.up.UploadLeaving? || s.up.UploadEnded? || s.down.DownloadLeaving? || s.down.DownloadEnded?
  }

  function UploadRank(u: Upload): nat {
    match u
    case Receiving => 3
    case Writing(_) => 2
    case UploadLeaving => 1
    case UploadEnded => 0
  }

  function DownloadRank(d: Download): nat {
    match d
    case Sending => 3
    case Reading => 2
    case DownloadLeaving => 1
    case DownloadEnded => 0
  }

  /** What the pumps have still to get through: their own steps, and the bytes already received. */
  function PumpWork(s: State): nat {
    UploadRank(s.up) + DownloadRank(s.down) + 2 * s.inbox
  }

  /** Less work than before, the main thread's counting first. */
  predicate Less(t: State, s: State) {
    MainRank(t.main) < MainRank(s.main) || (t.main == s.main && PumpWork(t) < PumpWork(s))
  }

  /** No deadlock: an ending connection that is not finished has a step of its own that leaves less to do. */
  lemma EndingMakesProgress(es: seq<Event>)
    requires Ending(Run(es)) && Run(es).main != Finished
    ensures var s := Run(es);
      exists e :: !FromOutside(e) && Enabled(s, e) && Less(Apply(s, e), s)
  {
    RunIsOrdered(es);
    StepForward(Run(es));
  }

  lemma StepForward(s: State)
    requires Ordered(s) && Ending(s) && s.main != Finished
    ensures exists e :: !FromOutside(e) && Enabled(s, e) && Less(Apply(s, e), s)
  {
    var e :=
      if Enabled(s, MainStep) then MainStep
      else if s.up.UploadLeaving? then UploadEnds
      else if s.down.DownloadLeaving? then DownloadEnds
      else if s.main == JoinUpload then
        (if s.up.Writing? then WriteFails else if s.ring > 0 then Receive(true) else ReceiveFails)
      else
        (if s.down.Sending? then SendFails else ReadEnds);
    assert !FromOutside(e) && Enabled(s, e) && Less(Apply(s, e), s);
  }

  /** Ending is for good, and the main thread never goes back. */
  lemma EndingIsStable(s: State, e: Event)
    requires Ordered(s) && Enabled(s, e) && Ending(s)
    ensures Ending(Apply(s, e))
    ensures MainRank(Apply(s, e).main) <= MainRank(s.main)
  {
  }

  /** Everything that is left once the stream is shut down. */
  function WorkLeft(s: State): nat {
    MainRank(s.main) + PumpWork(s)
  }

  lemma StepLowersWork(s: State, e: Event)
    requires Ordered(s) && !s.stream && Enabled(s, e)
    ensures !Apply(s, e).stream
    ensures if FromOutside(e) then WorkLeft(Apply(s, e)) == WorkLeft(s) else WorkLeft(Apply(s, e)) < WorkLeft(s)
  {
    assert !s.session && MainRank(s.main) < 5;
  }

  /** Is every event of `es` enabled when its turn comes, starting from `s`? */
  predicate Possible(s: State, es: seq<Event>)
    decreases |es|
  {
    es == [] || (Enabled(s, es[0]) && Possible(Apply(s, es[0]), es[1..]))
  }

  function OwnSteps(es: seq<Event>): nat {
    if es == [] then 0 else (if FromOutside(es[0]) then 0 else 1) + OwnSteps(es[1..])
  }

  /**
   Both joins return. From the moment the stream is shut down, whatever arrives from outside and
   however the threads are scheduled, they take at most `WorkLeft` steps in all.
   */
  lemma {:induction false} JoinsReturn(s: State, es: seq<Event>)
    requires Ordered(s) && !s.stream
    requires Possible(s, es)
    ensures OwnSteps(es) <= WorkLeft(s)
    decreases |es|
  {
    if es != [] {
      StepKeepsOrder(s, es[0]);
      StepLowersWork(s, es[0]);
      JoinsReturn(Apply(s, es[0]), es[1..]);
    }
  }

  /** The state the events of `es` lead to. */
  function After(s: State, es: seq<Event>): State
    requires Possible(s, es)
    decreases |es|
  {
    if es == [] then s else After(Apply(s, es[0]), es[1..])
  }

  lemma {:induction false} AfterIsOrdered(s: State, es: seq<Event>)
    requires Ordered(s) && Ending(s) && Possible(s, es)
    ensures Ordered(After(s, es)) && Ending(After(s, es))
    decreases |es|
  {
    if es != [] {
      StepKeepsOrder(s, es[0]);
      EndingIsStable(s, es[0]);
      AfterIsOrdered(Apply(s, es[0]), es[1..]);
    }
  }

  /** Can none of the three threads take a step? */
  ghost predicate Quiet(s: State) {
    forall e :: Enabled(s, e) ==> FromOutside(e)
  }

  /**
   Teardown completes. Let a connection that is ending go on in any way: when the threads have no
   step left, the main thread is through both joins and the teardown is finished.
   */
  lemma QuietMeansFinished(s: State, es: seq<Event>)
    requires Ordered(s) && Ending(s) && Possible(s, es)
    requires Quiet(After(s, es))
    ensures After(s, es).main == Finished
    ensures !s.stream ==> OwnSteps(es) <= WorkLeft(s)
  {
    AfterIsOrdered(s, es);
    if After(s, es).main != Finished {
      StepForward(After(s, es));
    }
    if !s.stream {
      JoinsReturn(s, es);
    }
  }

  // ---- A connection ends only for cause ----------------------------------------------------

  /** What can end a connection: a request, a failure of Wintun, the phone going away, a packet too long to frame. */
  predicate Cause(e: Event) {
    e.RequestStop? || e.WintunFails? || e.PeerCloses? || e.SendFails? || (e.Receive? && !e.fits)
  }

  /** Up and running. */
  predicate UpAndRunning(s: State) {
    && s.main == Watching && s.alive && !s.stop && s.session && s.stream && s.peer && s.routes && s.adapter
    && (s.up.Receiving? || s.up == Writing(true)) && (s.down.Reading? || s.down.Sending?)
  }

  lemma StaysConnected(s: State, e: Event)
    requires UpAndRunning(s) && !(Enabled(s, e) && Cause(e))
    ensures UpAndRunning(Next(s, e))
  {
  }

  /** In every run a connection is up until something ends it; what does is one of these five. */
  lemma {:induction false} UpUntilCause(es: seq<Event>)
    requires forall i :: 0 <= i < |es| ==> !Cause(es[i])
    ensures UpAndRunning(Run(es))
  {
    if |es| > 0 {
      UpUntilCause(es[..|es| - 1]);
      StaysConnected(Run(es[..|es| - 1]), es[|es| - 1]);
    }
  }

  /** While it is up, packets go through: a received one is written, and what is read is sent on. */
  lemma ConnectedPumps(s: State)
    requires UpAndRunning(s)
    ensures s.up.Receiving? && s.ring > 0 ==> Enabled(s, Receive(true)) && Apply(s, Receive(true)).up == Writing(true)
    ensures s.up.Writing? ==> Enabled(s, WriteDone) && Apply(s, WriteDone).up.Receiving?
    ensures forall n :: s.down.Reading? && 3 <= n <= s.inbox ==>
              Enabled(s, ReadFrame(n)) && Apply(s, ReadFrame(n)).down.Sending?
    ensures s.down.Sending? ==> Enabled(s, SendDone) && Apply(s, SendDone).down.Reading?
    ensures Enabled(s, PacketArrives) && Apply(s, PacketArrives).ring == s.ring + 1
  {
  }
}
