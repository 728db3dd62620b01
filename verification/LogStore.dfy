/**
 The app's log store (ios/Sources/RickyNet/LogStore.swift): lines land in a buffer on a serial
 queue and are published to the screen in batches on the main queue, one scheduled flush at a time.

 `LogStore` is the state with the body of each queued block as a method. The run model below puts
 the blocks on their two queues, with any number of threads appending and clearing.
 */
module LogStore {
  import opened Bytes

  const MAX_LINES: nat := 2000

  class LogStore {
    var uiBuffer: seq<string>
    var flushScheduled: bool
    var lines: seq<string>
    var file: seq<string>

    ghost function View(): Store
      reads this
    {
      Store(uiBuffer, flushScheduled, lines, file)
    }

    constructor ()
      ensures View() == Store([], false, [], [])
    {
      uiBuffer, flushScheduled, lines, file := [], false, [], [];
    }

    /** The block `append` puts on the serial queue; asks for a flush unless one is on its way. */
    method AppendBlock(line: string) returns (schedule: bool)
      modifies this
      ensures schedule == !old(flushScheduled)
      ensures View() == Appended(old(View()), line)
    {
      file := file + [line];
      uiBuffer := uiBuffer + [line];
      schedule := !flushScheduled;
      flushScheduled := true;
    }

    /** The block `flushUI` puts on the serial queue; the batch goes to the main queue if not empty. */
    method FlushBlock() returns (batch: seq<string>)
      modifies this
      ensures batch == old(uiBuffer)
      ensures View() == Flushed(old(View()))
    {
      flushScheduled := false;
      batch := uiBuffer;
      uiBuffer := [];
    }

    /** The block that publishes a batch on the main queue. */
    method PublishBlock(batch: seq<string>)
      modifies this`lines
      ensures View() == Published(old(View()), batch)
    {
      lines := lines + batch;
      if |lines| > MAX_LINES {
        lines := lines[|lines| - MAX_LINES..];
      }
    }

    /** The two blocks `clear` puts on the two queues. */
    method ClearBufferBlock()
      modifies this
      ensures View() == old(View()).(uiBuffer := [], file := [])
    {
      uiBuffer := [];
      file := [];
    }

    method ClearLinesBlock()
      modifies this`lines
      ensures View() == old(View()).(lines := [])
    {
      lines := [];
    }
  }

  /** The state of a log store. */
  datatype Store = Store(uiBuffer: seq<string>, flushScheduled: bool, lines: seq<string>, file: seq<string>)

  function Appended(s: Store, line: string): Store {
    s.(file := s.file + [line], uiBuffer := s.uiBuffer + [line], flushScheduled := true)
  }

  function Flushed(s: Store): Store {
    s.(uiBuffer := [], flushScheduled := false)
  }

  function Published(s: Store, batch: seq<string>): Store {
    s.(lines := Last(s.lines + batch, MAX_LINES))
  }

  // ---- Every interleaving ------------------------------------------------------------------

  /** A block waiting on the serial queue. */
  datatype Block = AppendLine(line: string) | FlushUI | ClearBuffer

  /** A block waiting on the main queue. */
  datatype MainBlock = Publish(batch: seq<string>) | ClearLines

  datatype State = State(
    store: Store,
    queue: seq<Block>,
    timers: nat,               // flushes scheduled for later on the main queue
    main: seq<MainBlock>,
    clears: nat,               // clears that have reached the serial queue and not yet the main queue
    // what has happened
    ran: seq<Block>,           // every block the serial queue has run
    shown: seq<MainBlock>,     // every block the main queue has run
    appended: seq<string>,     // every line passed to append, in queue order
    published: seq<string>,    // every line put on screen
    cleared: bool)             // has clear ever been called?

  const INITIAL := State(Store([], false, [], []), [], 0, [], 0, [], [], [], [], false)

  datatype Event =
    | Append(line: string)     // any thread
    | Clear                    // the first half of clear, and the second
    | ClearScreen
    | RunQueue                 // the serial queue runs its next block
    | TimerFires               // a delayed flushUI runs on the main queue
    | RunMain                  // the main queue runs its next block

  predicate Enabled(s: State, e: Event) {
    match e
    case Append(_) => true
    case Clear => true
    case ClearScreen => s.clears > 0
    case RunQueue => s.queue != []
    case TimerFires => s.timers > 0
    case RunMain => s.main != []
  }

  function Apply(s: State, e: Event): State
    requires Enabled(s, e)
  {
    match e
    case Append(line) => s.(queue := s.queue + [AppendLine(line)], appended := s.appended + [line])
    case Clear => s.(queue := s.queue + [ClearBuffer], clears := s.clears + 1, cleared := true)
    case ClearScreen => s.(main := s.main + [ClearLines], clears := s.clears - 1)
    case RunQueue => AfterBlock(s.(queue := s.queue[1..], ran := s.ran + [s.queue[0]]), s.queue[0])
    case TimerFires => s.(timers := s.timers - 1, queue := s.queue + [FlushUI])
    case RunMain =>
      match s.main[0]
      case Publish(batch) =>
        s.(main := s.main[1..], shown := s.shown + [s.main[0]], store := Published(s.store, batch),
           published := s.published + batch)
      case ClearLines => s.(main := s.main[1..], shown := s.shown + [s.main[0]], store := s.store.(lines := []))
  }

  function AfterBlock(s: State, b: Block): State {
    match b
    case AppendLine(line) =>
      s.(store := Appended(s.store, line), timers := if s.store.flushScheduled then s.timers else s.timers + 1)
    case FlushUI =>
      s.(store := Flushed(s.store),
         main := if s.store.uiBuffer == [] then s.main else s.main + [Publish(s.store.uiBuffer)])
    case ClearBuffer => s.(store := s.store.(uiBuffer := [], file := []))
  }

  /** The lines waiting on the serial queue. */
  function Waiting(queue: seq<Block>): seq<string> {
    if queue == [] then [] else LineOf(queue[0]) + Waiting(queue[1..])
  }

  function LineOf(b: Block): seq<string> {
    if b.AppendLine? then [b.line] else []
  }

  /** The flushes waiting on the serial queue. */
  function Flushes(queue: seq<Block>): nat {
    if queue == [] then 0 else (if queue[0].FlushUI? then 1 else 0) + Flushes(queue[1..])
  }

  /** The lines in batches waiting on the main queue. */
  function Batched(main: seq<MainBlock>): seq<string> {
    if main == [] then [] else LinesOf(main[0]) + Batched(main[1..])
  }

  function LinesOf(b: MainBlock): seq<string> {
    if b.Publish? then b.batch else []
  }

  /** A flush is outstanding, exactly one, just when the flag says so; and no line waits without one. */
  ghost predicate Scheduled(s: State) {
    && s.timers + Flushes(s.queue) == (if s.store.flushScheduled then 1 else 0)
    && (s.store.uiBuffer != [] ==> s.store.flushScheduled)
  }

  /** Until the first clear, every line appended is on screen, on its way, buffered or queued, in order. */
  ghost predicate InOrder(s: State) {
    !s.cleared ==>
      && s.published + Batched(s.main) + s.store.uiBuffer + Waiting(s.queue) == s.appended
      && s.store.file + Waiting(s.queue) == s.appended
      && s.store.lines == Last(s.published, MAX_LINES)
      && (forall i :: 0 <= i < |s.main| ==> s.main[i].Publish?)
      && (forall i :: 0 <= i < |s.queue| ==> !s.queue[i].ClearBuffer?)
  }

  ghost predicate Inv(s: State) {
    Scheduled(s) && InOrder(s) && (s.clears > 0 ==> s.cleared)
  }

  lemma {:induction false} QueueSnoc(queue: seq<Block>, b: Block)
    ensures Waiting(queue + [b]) == Waiting(queue) + LineOf(b)
    ensures Flushes(queue + [b]) == Flushes(queue) + if b.FlushUI? then 1 else 0
  {
    if queue == [] {
      assert [] + [b] == [b];
      assert Waiting([b]) == LineOf(b) + Waiting([]);
    } else {
      assert (queue + [b])[1..] == queue[1..] + [b];
      QueueSnoc(queue[1..], b);
      Assoc(LineOf(queue[0]), Waiting(queue[1..]), LineOf(b));
    }
  }

  lemma {:induction false} MainSnoc(main: seq<MainBlock>, b: MainBlock)
    ensures Batched(main + [b]) == Batched(main) + LinesOf(b)
  {
    if main == [] {
      assert [] + [b] == [b];
      assert Batched([b]) == LinesOf(b) + Batched([]);
    } else {
      assert (main + [b])[1..] == main[1..] + [b];
      MainSnoc(main[1..], b);
      Assoc(LinesOf(main[0]), Batched(main[1..]), LinesOf(b));
    }
  }

  lemma EnqueueKeeps(s: State, e: Event)
    requires Inv(s) && Enabled(s, e)
    requires e.Append? || e.Clear? || e.ClearScreen? || e.TimerFires?
    ensures Inv(Apply(s, e))
  {
    match e
    case Append(line) =>
      QueueSnoc(s.queue, AppendLine(line));
      Assoc(s.published + Batched(s.main) + s.store.uiBuffer, Waiting(s.queue), [line]);
      Assoc(s.store.file, Waiting(s.queue), [line]);
    case Clear => QueueSnoc(s.queue, ClearBuffer);
    case ClearScreen =>
    case TimerFires =>
      QueueSnoc(s.queue, FlushUI);
      assert Waiting(s.queue) + [] == Waiting(s.queue);
  }

  lemma RunQueueKeeps(s: State)
    requires Inv(s) && Enabled(s, RunQueue)
    ensures Inv(Apply(s, RunQueue))
  {
    var b, rest := s.queue[0], Waiting(s.queue[1..]);
    var front := s.published + Batched(s.main);
    match b
    case AppendLine(line) =>
      Assoc(front + s.store.uiBuffer, [line], rest);
      Assoc(front, s.store.uiBuffer, [line]);
      Assoc(s.store.file, [line], rest);
    case FlushUI =>
      assert [] + rest == rest;
      MainSnoc(s.main, Publish(s.store.uiBuffer));
      Assoc(s.published, Batched(s.main), s.store.uiBuffer);
      assert (front + s.store.uiBuffer) + [] == front + s.store.uiBuffer;
    case ClearBuffer =>
  }

  lemma RunMainKeeps(s: State)
    requires Inv(s) && Enabled(s, RunMain)
    ensures Inv(Apply(s, RunMain))
  {
    if s.main[0].Publish? {
      Assoc(s.published, s.main[0].batch, Batched(s.main[1..]));
      LastAppend(s.published, s.main[0].batch, MAX_LINES);
    }
  }

  function Next(s: State, e: Event): State {
    if Enabled(s, e) then Apply(s, e) else s
  }

  /** The state after the events of `es`; an event that cannot happen is skipped. */
  function Run(es: seq<Event>): State {
    if es == [] then INITIAL else Next(Run(es[..|es| - 1]), es[|es| - 1])
  }

  lemma NextKeeps(s: State, e: Event)
    requires Inv(s)
    ensures Inv(Next(s, e))
  {
    if Enabled(s, e) {
      match e
      case RunQueue => RunQueueKeeps(s);
      case RunMain => RunMainKeeps(s);
      case _ => EnqueueKeeps(s, e);
    }
  }

  lemma NothingYet(s: State)
    requires |s.queue| == |s.main| == s.timers == s.clears == 0 && !s.store.flushScheduled
    requires |s.store.uiBuffer| == |s.store.file| == |s.store.lines| == |s.appended| == |s.published| == 0
    ensures Inv(s)
  {
    assert |Waiting(s.queue)| == |Batched(s.main)| == Flushes(s.queue) == 0;
  }

  /** Every run keeps the invariant. */
  lemma {:induction false} RunKeeps(es: seq<Event>)
    ensures Inv(Run(es))
  {
    if es == [] {
      NothingYet(INITIAL);
    } else {
      RunKeeps(es[..|es| - 1]);
      NextKeeps(Run(es[..|es| - 1]), es[|es| - 1]);
    }
  }

  /** Over every run, clears included: one flush is outstanding exactly when the flag is set, and a
      line in the buffer always has that flush coming for it. */
  lemma FlagTellsTheTruth(es: seq<Event>)
    ensures var s := Run(es);
      && (s.store.flushScheduled <==> s.timers + Flushes(s.queue) == 1)
      && s.timers + Flushes(s.queue) <= 1
      && (s.store.uiBuffer != [] ==> s.timers + Flushes(s.queue) == 1)
  {
    RunKeeps(es);
    assert Scheduled(Run(es));
  }

  /** Over every run without a clear, nothing is lost, repeated or reordered on the way to the screen
      or to the file. */
  lemma EveryLineInOrder(es: seq<Event>)
    requires !Run(es).cleared
    ensures var s := Run(es);
      && s.published + Batched(s.main) + s.store.uiBuffer + Waiting(s.queue) == s.appended
      && s.store.file + Waiting(s.queue) == s.appended
      && s.store.lines == Last(s.published, 2000)
  {
    RunKeeps(es);
    assert InOrder(Run(es));
  }

  // ---- Nothing is stranded -----------------------------------------------------------------

  /** An upper bound on the blocks still to run before the store is at rest. */
  function Work(s: State): nat {
    BlockWork(s.queue) + 3 * s.timers + |s.main|
  }

  /** An appended line may cause a timer, a flush block and a publication. */
  function BlockWork(queue: seq<Block>): nat {
    if queue == [] then 0
    else (match queue[0] case AppendLine(_) => 4 case FlushUI => 2 case ClearBuffer => 1) + BlockWork(queue[1..])
  }

  lemma {:induction false} BlockWorkSnoc(queue: seq<Block>, b: Block)
    ensures BlockWork(queue + [b]) == BlockWork(queue) + BlockWork([b])
  {
    if queue == [] {
      assert [] + [b] == [b];
    } else {
      assert (queue + [b])[1..] == queue[1..] + [b];
      BlockWorkSnoc(queue[1..], b);
    }
  }

  /** Whenever work is left some queue can run, and whichever runs, less work is left. */
  lemma QueuesMakeProgress(s: State)
    ensures Work(s) > 0 <==> exists e: Event :: (e.RunQueue? || e.TimerFires? || e.RunMain?) && Enabled(s, e)
    ensures forall e: Event :: (e.RunQueue? || e.TimerFires? || e.RunMain?) && Enabled(s, e) ==>
              Work(Apply(s, e)) < Work(s)
  {
    if s.queue != [] {
      assert Enabled(s, RunQueue);
    } else if s.timers > 0 {
      assert Enabled(s, TimerFires);
    } else if s.main != [] {
      assert Enabled(s, RunMain);
    }
    BlockWorkSnoc(s.queue, FlushUI);
    assert BlockWork([FlushUI]) == 2 + BlockWork([]);
  }

  /** At rest nothing is left in the buffer, cleared or not; and without a clear the screen shows the
      last lines appended and the file holds them all. */
  lemma AtRestAllPublished(es: seq<Event>)
    requires Work(Run(es)) == 0
    ensures Run(es).store.uiBuffer == []
    ensures var s := Run(es);
      |s.store.file| <= |s.published| && s.published[|s.published| - |s.store.file|..] == s.store.file
    ensures !Run(es).cleared ==>
              && Run(es).store.lines == Last(Run(es).appended, MAX_LINES)
              && Run(es).store.file == Run(es).appended
  {
    var s := Run(es);
    assert s.queue == [] && s.timers == 0 && s.main == [];
    FlagTellsTheTruth(es);
    NoLineIsStranded(es);
    assert s.published + [] + [] == s.published;
    if !s.cleared {
      EveryLineInOrder(es);
      assert s.published + [] + [] + [] == s.published;
      assert s.store.file + [] == s.store.file;
    }
  }

  // ---- What a clear leaves -----------------------------------------------------------------

  /** Is `k` the place behind the last clear among the blocks run, or the beginning if there was none? */
  predicate SinceClear(ran: seq<Block>, k: nat) {
    && k <= |ran| && (k == 0 || ran[k - 1].ClearBuffer?)
    && forall i :: k <= i < |ran| ==> !ran[i].ClearBuffer?
  }

  predicate SinceClearScreen(shown: seq<MainBlock>, k: nat) {
    && k <= |shown| && (k == 0 || shown[k - 1].ClearLines?)
    && forall i :: k <= i < |shown| ==> !shown[i].ClearLines?
  }

  lemma SinceSnoc(ran: seq<Block>, b: Block, k: nat)
    requires SinceClear(ran + [b], k)
    ensures if b.ClearBuffer? then k == |ran| + 1
            else SinceClear(ran, k) && (ran + [b])[k..] == ran[k..] + [b]
  {
    assert (ran + [b])[|ran|] == b;
    if !b.ClearBuffer? {
      forall i | k <= i < |ran| ensures !ran[i].ClearBuffer? {
        assert (ran + [b])[i] == ran[i];
      }
    }
  }

  lemma SinceScreenSnoc(shown: seq<MainBlock>, b: MainBlock, k: nat)
    requires SinceClearScreen(shown + [b], k)
    ensures if b.ClearLines? then k == |shown| + 1
            else SinceClearScreen(shown, k) && (shown + [b])[k..] == shown[k..] + [b]
  {
    assert (shown + [b])[|shown|] == b;
    if !b.ClearLines? {
      forall i | k <= i < |shown| ensures !shown[i].ClearLines? {
        assert (shown + [b])[i] == shown[i];
      }
    }
  }

  lemma NextRan(s: State, e: Event)
    ensures Next(s, e).ran == if e.RunQueue? && |s.queue| > 0 then s.ran + [s.queue[0]] else s.ran
    ensures !(e.RunQueue? && |s.queue| > 0) ==> Next(s, e).store.file == s.store.file
    ensures e.RunQueue? && |s.queue| > 0 ==>
              (s.queue[0].ClearBuffer? ==> |Next(s, e).store.file| == 0)
    ensures e.RunQueue? && |s.queue| > 0 && !s.queue[0].ClearBuffer? ==>
              Next(s, e).store.file == s.store.file + LineOf(s.queue[0])
  {
    assert s.store.file + [] == s.store.file;
  }

  /** In every run the lines appended are those of the blocks run and of those still queued, in order. */
  lemma {:induction false} AppendedOnce(es: seq<Event>)
    ensures Waiting(Run(es).ran) + Waiting(Run(es).queue) == Run(es).appended
  {
    if |es| == 0 {
      assert |Waiting(Run(es).ran)| == |Waiting(Run(es).queue)| == 0;
    } else {
      AppendedOnce(es[..|es| - 1]);
      AppendedNext(Run(es[..|es| - 1]), es[|es| - 1]);
    }
  }

  lemma AppendedNext(s: State, e: Event)
    requires Waiting(s.ran) + Waiting(s.queue) == s.appended
    ensures var t := Next(s, e); Waiting(t.ran) + Waiting(t.queue) == t.appended
  {
    match e
    case Append(line) =>
      QueueSnoc(s.queue, AppendLine(line));
      Assoc(Waiting(s.ran), Waiting(s.queue), [line]);
    case RunQueue =>
      if |s.queue| > 0 {
        QueueSnoc(s.ran, s.queue[0]);
        Assoc(Waiting(s.ran), LineOf(s.queue[0]), Waiting(s.queue[1..]));
      }
    case Clear =>
      QueueSnoc(s.queue, ClearBuffer);
      assert Waiting(s.queue) + [] == Waiting(s.queue);
    case TimerFires =>
      QueueSnoc(s.queue, FlushUI);
      assert Waiting(s.queue) + [] == Waiting(s.queue);
    case _ =>
  }

  /** In every run the file holds exactly the lines the serial queue has run since the last clear it ran. */
  lemma {:induction false} FileSinceClear(es: seq<Event>, k: nat)
    requires SinceClear(Run(es).ran, k)
    ensures Run(es).store.file == Waiting(Run(es).ran[k..])
  {
    if |es| == 0 {
      assert |Run(es).ran| == 0;
    } else {
      var s, e := Run(es[..|es| - 1]), es[|es| - 1];
      NextRan(s, e);
      if e.RunQueue? && |s.queue| > 0 {
        SinceSnoc(s.ran, s.queue[0], k);
        if !s.queue[0].ClearBuffer? {
          FileSinceClear(es[..|es| - 1], k);
          QueueSnoc(s.ran[k..], s.queue[0]);
        } else {
          assert |Run(es).ran[k..]| == 0;
        }
      } else {
        FileSinceClear(es[..|es| - 1], k);
      }
    }
  }

  lemma NextShown(s: State, e: Event)
    ensures Next(s, e).shown == if e.RunMain? && |s.main| > 0 then s.shown + [s.main[0]] else s.shown
    ensures !(e.RunMain? && |s.main| > 0) ==> Next(s, e).store.lines == s.store.lines
    ensures e.RunMain? && |s.main| > 0 ==>
              Next(s, e).store.lines ==
              if s.main[0].ClearLines? then [] else Last(s.store.lines + s.main[0].batch, MAX_LINES)
  {
  }

  /** In every run the screen shows the last 2000 lines of the batches published since it was last cleared. */
  lemma {:induction false} ScreenSinceClear(es: seq<Event>, k: nat)
    requires SinceClearScreen(Run(es).shown, k)
    ensures Run(es).store.lines == Last(Batched(Run(es).shown[k..]), 2000)
  {
    if |es| == 0 {
      assert |Run(es).shown| == 0;
    } else {
      var s, e := Run(es[..|es| - 1]), es[|es| - 1];
      NextShown(s, e);
      if e.RunMain? && |s.main| > 0 {
        SinceScreenSnoc(s.shown, s.main[0], k);
        if !s.main[0].ClearLines? {
          ScreenSinceClear(es[..|es| - 1], k);
          MainSnoc(s.shown[k..], s.main[0]);
          LastAppend(Batched(s.shown[k..]), s.main[0].batch, 2000);
        } else {
          assert |Run(es).shown[k..]| == 0;
        }
      } else {
        ScreenSinceClear(es[..|es| - 1], k);
      }
    }
  }

  /** Do the lines published, on their way and buffered end in those of the file? */
  predicate FileIsOnItsWay(s: State) {
    var out := s.published + Batched(s.main) + s.store.uiBuffer;
    |s.store.file| <= |out| && out[|out| - |s.store.file|..] == s.store.file
  }

  lemma EndsIn(out: seq<string>, file: seq<string>, more: seq<string>)
    requires |file| <= |out| && out[|out| - |file|..] == file
    ensures var longer := out + more;
      longer[|longer| - |file + more|..] == file + more
  {
  }

  lemma OutAfter(s: State, e: Event)
    ensures var t := Next(s, e); var out := s.published + Batched(s.main) + s.store.uiBuffer;
      t.published + Batched(t.main) + t.store.uiBuffer ==
      if e.RunQueue? && |s.queue| > 0 && s.queue[0].AppendLine? then out + [s.queue[0].line]
      else if e.RunQueue? && |s.queue| > 0 && s.queue[0].ClearBuffer? then s.published + Batched(s.main)
      else out
  {
    var front := s.published + Batched(s.main);
    match e
    case RunQueue =>
      if |s.queue| > 0 {
        match s.queue[0]
        case AppendLine(line) => Assoc(front, s.store.uiBuffer, [line]);
        case FlushUI =>
          MainSnoc(s.main, Publish(s.store.uiBuffer));
          Assoc(s.published, Batched(s.main), s.store.uiBuffer);
          assert (front + s.store.uiBuffer) + [] == front + s.store.uiBuffer;
        case ClearBuffer => assert front + [] == front;
      }
    case RunMain =>
      if |s.main| > 0 {
        Assoc(s.published, LinesOf(s.main[0]), Batched(s.main[1..]));
        assert s.published + [] == s.published;
      }
    case ClearScreen =>
      MainSnoc(s.main, ClearLines);
      assert Batched(s.main) + [] == Batched(s.main);
    case _ =>
  }

  /**
   Clears included, no line goes missing: in every run the lines in the file, those appended since
   the last clear, are the last of those published, on their way and buffered, in order.
   */
  lemma {:induction false} NoLineIsStranded(es: seq<Event>)
    ensures FileIsOnItsWay(Run(es))
  {
    if |es| > 0 {
      NoLineIsStranded(es[..|es| - 1]);
      StaysOnItsWay(Run(es[..|es| - 1]), es[|es| - 1]);
    }
  }

  lemma StaysOnItsWay(s: State, e: Event)
    requires FileIsOnItsWay(s)
    ensures FileIsOnItsWay(Next(s, e))
  {
    OutAfter(s, e);
    NextRan(s, e);
    var out := s.published + Batched(s.main) + s.store.uiBuffer;
    if e.RunQueue? && |s.queue| > 0 && s.queue[0].AppendLine? {
      EndsIn(out, s.store.file, [s.queue[0].line]);
    } else {
      assert s.store.file + [] == s.store.file;
    }
  }
}
