/**
 Starting and stopping the phone core (rickynet-core/src/lib.rs): one global instance behind a lock,
 any number of callers of `rn_start` and `rn_stop`, and the core threads they spawn and join.

 `rn_start` keeps the lock until its thread has reported; `rn_stop` takes the instance, releases the
 lock, and only then tells the thread to stop and joins it.
 */
module CoreLifecycle {
  import opened Bytes

  /** Where a caller is. `Starting` and `JoiningFailed` hold the lock; the others do not. */
  datatype Caller =
    | Idle
    | WantStart
    | Starting(thread: nat)       // spawned, waiting for the report
    | JoiningFailed(thread: nat)  // start has failed, waiting for the thread to end
    | WantStop
    | Stopping(thread: nat)       // took the instance, about to tell it
    | Joining(thread: nat)        // told it, waiting for it to end

  /** `serve`: binding, waiting for the desktop, bridging one connection, bind failed, or ended. */
  datatype Phase = Binding | Accepting | Bridging | BindFailed | Exited

  /**
   A core thread: whether it has been told to shut down, what it reported to `rn_start`, and, for
   the record, the caller dealing with it (none while it is the instance).
   */
  datatype Core = Core(phase: Phase, told: bool, report: Option<bool>, owner: Option<nat>)

  datatype Outcome = StartOk | StopOk

  /** Bytes a thread added to the global counters in one go. */
  datatype Count = Count(thread: nat, rx: nat, tx: nat)

  datatype State = State(
    callers: seq<Caller>,
    lock: Option<nat>,            // the caller holding it
    instance: Option<nat>,        // the thread it names
    threads: seq<Core>,
    rx: nat,                      // the global byte counters
    tx: nat,
    // what has happened
    history: seq<Outcome>,        // successful starts and stops, in the order of their lock sections
    counted: seq<Count>)          // everything added to the counters since they were last reset

  datatype Event =
    | CallStart(c: nat) | CallStop(c: nat)
    | LockStart(c: nat, spawned: bool)
    | ReadyOk(c: nat) | ReadyErr(c: nat) | Timeout(c: nat) | JoinFailed(c: nat)
    | LockStop(c: nat) | Tell(c: nat) | Join(c: nat)
    | BindOk(t: nat) | BindErr(t: nat) | Accept(t: nat) | Disconnect(t: nat) | Shutdown(t: nat) | GiveUp(t: nat)
    | CountBytes(k: Count)

  function Initial(n: nat): State {
    State(seq(n, _ => Idle), None, None, [], 0, 0, [], [])
  }

  predicate Enabled(s: State, e: Event) {
    match e
    case CallStart(c) => c < |s.callers| && s.callers[c].Idle?
    case CallStop(c) => c < |s.callers| && s.callers[c].Idle?
    case LockStart(c, _) => c < |s.callers| && s.callers[c].WantStart? && s.lock.None?
    case ReadyOk(c) => Waits(s, c) && s.callers[c].Starting? && s.threads[s.callers[c].thread].report == Some(true)
    case ReadyErr(c) => Waits(s, c) && s.callers[c].Starting? && s.threads[s.callers[c].thread].report == Some(false)
    case Timeout(c) => Waits(s, c) && s.callers[c].Starting? && s.threads[s.callers[c].thread].report.None?
    case JoinFailed(c) => Waits(s, c) && s.callers[c].JoiningFailed? && s.threads[s.callers[c].thread].phase.Exited?
    case LockStop(c) => c < |s.callers| && s.callers[c].WantStop? && s.lock.None?
    case Tell(c) => Waits(s, c) && s.callers[c].Stopping?
    case Join(c) => Waits(s, c) && s.callers[c].Joining? && s.threads[s.callers[c].thread].phase.Exited?
    case BindOk(t) => t < |s.threads| && s.threads[t].phase.Binding?
    case BindErr(t) => t < |s.threads| && s.threads[t].phase.Binding?
    case Accept(t) => t < |s.threads| && s.threads[t].phase.Accepting?
    case Disconnect(t) => t < |s.threads| && s.threads[t].phase.Bridging?
    case Shutdown(t) =>
      t < |s.threads| && (s.threads[t].phase.Accepting? || s.threads[t].phase.Bridging?) && s.threads[t].told
    case GiveUp(t) => t < |s.threads| && s.threads[t].phase.BindFailed?
    case CountBytes(k) => k.thread < |s.threads| && Serving(s.threads[k.thread])
  }

  /** Is the thread serving? What a bridge has spawned may outlast it, but not the thread. */
  predicate Serving(k: Core) {
    k.phase.Accepting? || k.phase.Bridging?
  }

  /** Is caller `c` dealing with a thread? */
  predicate Waits(s: State, c: nat) {
    c < |s.callers| && Busy(s.callers[c]) && s.callers[c].thread < |s.threads|
  }

  predicate Busy(c: Caller) {
    c.Starting? || c.JoiningFailed? || c.Stopping? || c.Joining?
  }

  predicate HoldsLock(c: Caller) {
    c.Starting? || c.JoiningFailed?
  }

  function SetCaller(s: State, c: nat, k: Caller): State
    requires c < |s.callers|
  {
    s.(callers := s.callers[c := k])
  }

  function SetThread(s: State, t: nat, k: Core): State
    requires t < |s.threads|
  {
    s.(threads := s.threads[t := k])
  }

  function Apply(s: State, e: Event): State
    requires Enabled(s, e)
  {
    match e
    case CallStart(c) => SetCaller(s, c, WantStart)
    case CallStop(c) => SetCaller(s, c, WantStop)
    case LockStart(c, spawned) =>
      if s.instance.Some? then SetCaller(s, c, Idle)
      else if !spawned then SetCaller(s, c, Idle).(rx := 0, tx := 0, counted := [])
      else
        SetCaller(s, c, Starting(|s.threads|)).(rx := 0, tx := 0, counted := [])
          .(lock := Some(c), threads := s.threads + [Core(Binding, false, None, Some(c))])
    case ReadyOk(c) =>
      var t := s.callers[c].thread;
      SetThread(SetCaller(s, c, Idle), t, s.threads[t].(owner := None))
        .(lock := None, instance := Some(t), history := s.history + [StartOk])
    case ReadyErr(c) => SetCaller(s, c, JoiningFailed(s.callers[c].thread))
    case Timeout(c) =>
      var t := s.callers[c].thread;
      SetThread(SetCaller(s, c, JoiningFailed(t)), t, s.threads[t].(told := true))
    case JoinFailed(c) => SetCaller(s, c, Idle).(lock := None)
    case LockStop(c) =>
      if s.instance.None? || s.instance.value >= |s.threads| then SetCaller(s, c, Idle)
      else
        var t := s.instance.value;
        SetThread(SetCaller(s, c, Stopping(t)), t, s.threads[t].(owner := Some(c)))
          .(instance := None, history := s.history + [StopOk])
    case Tell(c) =>
      var t := s.callers[c].thread;
      SetThread(SetCaller(s, c, Joining(t)), t, s.threads[t].(told := true))
    case Join(c) => SetCaller(s, c, Idle)
    case BindOk(t) => SetThread(s, t, s.threads[t].(phase := Accepting, report := Some(true)))
    case BindErr(t) => SetThread(s, t, s.threads[t].(phase := BindFailed, report := Some(false)))
    case Accept(t) => SetThread(s, t, s.threads[t].(phase := Bridging))
    case Disconnect(t) => SetThread(s, t, s.threads[t].(phase := Accepting))
    case Shutdown(t) => SetThread(s, t, s.threads[t].(phase := Exited))
    case GiveUp(t) => SetThread(s, t, s.threads[t].(phase := Exited))
    case CountBytes(k) => s.(rx := s.rx + k.rx, tx := s.tx + k.tx, counted := s.counted + [k])
  }

  // ---- The invariant -----------------------------------------------------------------------

  /** The phase of a thread and what it reported go together. */
  predicate Coherent(k: Core) {
    && (k.phase.Binding? <==> k.report.None?)
    && (k.phase.Accepting? || k.phase.Bridging? ==> k.report == Some(true))
    && (k.phase.BindFailed? ==> k.report == Some(false))
    && (k.phase.Exited? && k.report == Some(true) ==> k.told)
  }

  /** What caller `k` may assume of the thread it deals with. */
  predicate Fits(k: Caller, t: Core) {
    match k
    case Starting(_) => !t.told
    case JoiningFailed(_) => t.told || t.report == Some(false)
    case Stopping(_) => !t.told && t.report == Some(true)
    case Joining(_) => t.told && t.report == Some(true)
    case _ => true
  }

  ghost predicate Locked(s: State) {
    && (s.lock.Some? ==> s.lock.value < |s.callers| && HoldsLock(s.callers[s.lock.value]) && s.instance.None?)
    && (forall c :: 0 <= c < |s.callers| && HoldsLock(s.callers[c]) ==> s.lock == Some(c))
  }

  ghost predicate Running(s: State) {
    s.instance.Some? ==>
      && s.instance.value < |s.threads|
      && !s.threads[s.instance.value].told
      && s.threads[s.instance.value].report == Some(true)
      && s.threads[s.instance.value].owner.None?
  }

  /** Every caller that deals with a thread is that thread's owner. */
  ghost predicate Owning(s: State) {
    forall c :: 0 <= c < |s.callers| && Busy(s.callers[c]) ==> OwnsIts(s.callers[c], c, s.threads)
  }

  ghost predicate OwnsIts(k: Caller, c: nat, threads: seq<Core>)
    requires Busy(k)
  {
    k.thread < |threads| && threads[k.thread].owner == Some(c) && Fits(k, threads[k.thread])
  }

  /** A thread that has not ended is the instance, or its owner is dealing with it. */
  ghost predicate NoOrphans(s: State) {
    forall t :: 0 <= t < |s.threads| && !s.threads[t].phase.Exited? ==> NotOrphan(s, t, s.threads[t].owner)
  }

  ghost predicate NotOrphan(s: State, t: nat, owner: Option<nat>) {
    if owner.None? then s.instance == Some(t)
    else owner.value < |s.callers| && Busy(s.callers[owner.value]) && s.callers[owner.value].thread == t
  }

  ghost predicate Alternating(history: seq<Outcome>) {
    forall i :: 0 <= i < |history| ==> history[i] == if i % 2 == 0 then StartOk else StopOk
  }

  ghost predicate Inv(s: State) {
    && Locked(s) && Running(s) && Owning(s) && NoOrphans(s)
    && (forall t :: 0 <= t < |s.threads| ==> Coherent(s.threads[t]))
    && Alternating(s.history) && (s.instance.Some? <==> |s.history| % 2 == 1)
  }

  // ---- Each step keeps it ------------------------------------------------------------------

  lemma CallKeeps(s: State, e: Event)
    requires Inv(s) && Enabled(s, e)
    requires e.CallStart? || e.CallStop? || e.ReadyErr? || e.JoinFailed? || e.Join? || e.CountBytes?
    ensures Inv(Apply(s, e))
  {
  }

  lemma TellKeeps(s: State, e: Event)
    requires Inv(s) && Enabled(s, e)
    requires e.Timeout? || e.Tell?
    ensures Inv(Apply(s, e))
  {
  }

  lemma LockStartKeeps(s: State, c: nat, spawned: bool)
    requires Inv(s) && Enabled(s, LockStart(c, spawned))
    ensures Inv(Apply(s, LockStart(c, spawned)))
  {
  }

  lemma ReadyOkKeeps(s: State, c: nat)
    requires Inv(s) && Enabled(s, ReadyOk(c))
    ensures Inv(Apply(s, ReadyOk(c)))
  {
  }

  lemma LockStopKeeps(s: State, c: nat)
    requires Inv(s) && Enabled(s, LockStop(c))
    ensures Inv(Apply(s, LockStop(c)))
  {
  }

  /** A thread may move on as it likes, short of changing what callers rely on. */
  lemma ThreadMoves(s: State, t: nat, k: Core)
    requires Inv(s) && t < |s.threads| && Coherent(k)
    requires k.told == s.threads[t].told && k.owner == s.threads[t].owner
    requires s.threads[t].report.None? || k.report == s.threads[t].report
    requires !s.threads[t].phase.Exited?
    ensures Inv(SetThread(s, t, k))
  {
  }

  lemma ThreadKeeps(s: State, e: Event)
    requires Inv(s) && Enabled(s, e)
    requires e.BindOk? || e.BindErr? || e.Accept? || e.Disconnect? || e.Shutdown? || e.GiveUp?
    ensures Inv(Apply(s, e))
  {
    match e
    case BindOk(t) => ThreadMoves(s, t, s.threads[t].(phase := Accepting, report := Some(true)));
    case BindErr(t) => ThreadMoves(s, t, s.threads[t].(phase := BindFailed, report := Some(false)));
    case Accept(t) => ThreadMoves(s, t, s.threads[t].(phase := Bridging));
    case Disconnect(t) => ThreadMoves(s, t, s.threads[t].(phase := Accepting));
    case Shutdown(t) => ThreadMoves(s, t, s.threads[t].(phase := Exited));
    case GiveUp(t) => ThreadMoves(s, t, s.threads[t].(phase := Exited));
  }

  lemma StepKeeps(s: State, e: Event)
    requires Inv(s) && Enabled(s, e)
    ensures Inv(Apply(s, e))
  {
    match e
    case Timeout(_) => TellKeeps(s, e);
    case Tell(_) => TellKeeps(s, e);
    case LockStart(c, spawned) => LockStartKeeps(s, c, spawned);
    case ReadyOk(c) => ReadyOkKeeps(s, c);
    case LockStop(c) => LockStopKeeps(s, c);
    case CallStart(_) => CallKeeps(s, e);
    case CallStop(_) => CallKeeps(s, e);
    case ReadyErr(_) => CallKeeps(s, e);
    case JoinFailed(_) => CallKeeps(s, e);
    case Join(_) => CallKeeps(s, e);
    case CountBytes(_) => CallKeeps(s, e);
    case _ => ThreadKeeps(s, e);
  }

  // ---- Every run ---------------------------------------------------------------------------

  /** An event takes effect if it can happen, and is skipped otherwise. */
  function Next(s: State, e: Event): State {
    if Enabled(s, e) then Apply(s, e) else s
  }

  /** The state `n` callers reach by the events of `es`. */
  function Run(n: nat, es: seq<Event>): State {
    if es == [] then Initial(n) else Next(Run(n, es[..|es| - 1]), es[|es| - 1])
  }

  lemma NextKeeps(s: State, e: Event)
    requires Inv(s)
    ensures Inv(Next(s, e))
  {
    if Enabled(s, e) {
      StepKeeps(s, e);
    }
  }

  /** Every run keeps the invariant. */
  lemma {:induction false} RunKeeps(n: nat, es: seq<Event>)
    ensures Inv(Run(n, es))
  {
    if es != [] {
      RunKeeps(n, es[..|es| - 1]);
      NextKeeps(Run(n, es[..|es| - 1]), es[|es| - 1]);
    }
  }

  /** In lock order, successful starts and stops alternate, beginning with a start. */
  lemma StartsAndStopsAlternate(n: nat, es: seq<Event>)
    ensures Alternating(Run(n, es).history)
    ensures Run(n, es).instance.Some? <==> |Run(n, es).history| % 2 == 1
  {
    RunKeeps(n, es);
  }

  /** A present instance names a thread that has bound its port, has not been told to stop, and runs. */
  lemma InstanceIsRunning(n: nat, es: seq<Event>)
    ensures var s := Run(n, es);
      s.instance.Some? ==>
        && s.instance.value < |s.threads|
        && !s.threads[s.instance.value].told
        && (s.threads[s.instance.value].phase.Accepting? || s.threads[s.instance.value].phase.Bridging?)
  {
    RunKeeps(n, es);
    var s := Run(n, es);
    assert s.instance.Some? ==> Coherent(s.threads[s.instance.value]);
  }

  // ---- What the calls achieve --------------------------------------------------------------

  /** From the moment a start has the lock and nothing runs: it spawns, its thread binds, and it is the instance. */
  lemma StartSucceeds(s: State, c: nat)
    requires Inv(s) && Enabled(s, LockStart(c, true)) && s.instance.None?
    ensures var t := |s.threads|;
      var s1 := Next(s, LockStart(c, true)); var s2 := Next(s1, BindOk(t)); var s3 := Next(s2, ReadyOk(c));
      && s3.instance == Some(t) && s3.lock.None? && s3.callers == s.callers[c := Idle]
      && Serving(s3.threads[t]) && !s3.threads[t].told
      && s3.history == s.history + [StartOk] && s3.rx == s3.tx == 0
  {
  }

  /** If the port cannot be bound the thread is joined, and everything is as before but for its end. */
  lemma StartFails(s: State, c: nat)
    requires Inv(s) && Enabled(s, LockStart(c, true)) && s.instance.None?
    ensures var t := |s.threads|;
      var s1 := Next(s, LockStart(c, true)); var s2 := Next(s1, BindErr(t)); var s3 := Next(s2, ReadyErr(c));
      var s4 := Next(s3, GiveUp(t)); var s5 := Next(s4, JoinFailed(c));
      && s5.instance.None? && s5.lock.None? && s5.callers == s.callers[c := Idle]
      && |s5.threads| == t + 1 && s5.threads[..t] == s.threads && s5.threads[t].phase.Exited?
      && s5.history == s.history
  {
  }

  /** A start while something runs, or a stop while nothing does, returns and changes nothing. */
  lemma RefusedCallsChangeNothing(s: State, c: nat, spawned: bool)
    ensures Enabled(s, LockStart(c, spawned)) && s.instance.Some? ==>
              Next(s, LockStart(c, spawned)) == s.(callers := s.callers[c := Idle])
    ensures Enabled(s, LockStop(c)) && s.instance.None? ==>
              Next(s, LockStop(c)) == s.(callers := s.callers[c := Idle])
  {
  }

  /** A stop with the lock takes the instance, tells its thread, and returns once it has ended. */
  lemma StopSucceeds(s: State, c: nat)
    requires Inv(s) && Enabled(s, LockStop(c)) && s.instance.Some?
    ensures var t := s.instance.value;
      var s1 := Next(s, LockStop(c)); var s2 := Next(s1, Tell(c)); var s3 := Next(s2, Shutdown(t));
      var s4 := Next(s3, Join(c));
      && s1.instance.None? && s1.lock.None? && t < |s.threads| && !s1.threads[t].phase.Exited?
      && s4.threads[t].phase.Exited? && s4.callers == s.callers[c := Idle]
      && s4.history == s.history + [StopOk]
  {
    assert Coherent(s.threads[s.instance.value]);
  }

  /** What runs goes on running until a stop takes it. */
  lemma InstanceStays(s: State, e: Event)
    requires Inv(s) && s.instance.Some? && !(e.LockStop? && Enabled(s, e))
    ensures Next(s, e).instance == s.instance
  {
  }

  // ---- How many threads live ---------------------------------------------------------------

  /** The threads that have not ended. */
  function Live(s: State): set<nat> {
    set t: nat | t < |s.threads| && !s.threads[t].phase.Exited?
  }

  /** The callers of `rn_stop` between taking the instance and joining its thread. */
  function Stoppers(s: State): set<nat> {
    set c: nat | c < |s.callers| && (s.callers[c].Stopping? || s.callers[c].Joining?)
  }

  /** The thread of the instance, or of the start that holds the lock. */
  function Slot(s: State): set<nat> {
    if s.instance.Some? then {s.instance.value}
    else if s.lock.Some? && s.lock.value < |s.callers| && Busy(s.callers[s.lock.value])
    then {s.callers[s.lock.value].thread}
    else {}
  }

  function ThreadOf(s: State, c: nat): nat {
    if Waits(s, c) then s.callers[c].thread else 0
  }

  lemma {:induction false} ImageIsNoLarger(s: State, cs: set<nat>)
    ensures |set c | c in cs :: ThreadOf(s, c)| <= |cs|
    decreases |cs|
  {
    if c :| c in cs {
      ImageIsNoLarger(s, cs - {c});
      assert (set d | d in cs :: ThreadOf(s, d)) == (set d | d in cs - {c} :: ThreadOf(s, d)) + {ThreadOf(s, c)};
    }
  }

  lemma SubsetIsNoLarger(a: set<nat>, b: set<nat>)
    requires a <= b
    ensures |a| <= |b|
  {
    assert b == a + (b - a);
  }

  /** In every run, the live threads are at most one more than the stops still joining theirs. */
  lemma FewThreadsLive(n: nat, es: seq<Event>)
    ensures |Live(Run(n, es))| <= 1 + |Stoppers(Run(n, es))|
  {
    RunKeeps(n, es);
    LiveIsOwned(Run(n, es));
  }

  lemma LiveIsOwned(s: State)
    requires Inv(s)
    ensures |Live(s)| <= 1 + |Stoppers(s)|
  {
    var stopping := set c | c in Stoppers(s) :: ThreadOf(s, c);
    forall t | t in Live(s)
      ensures t in Slot(s) + stopping
    {
      assert NotOrphan(s, t, s.threads[t].owner);
      if s.threads[t].owner.Some? {
        var c := s.threads[t].owner.value;
        if HoldsLock(s.callers[c]) {
          assert s.lock == Some(c);
        } else {
          assert c in Stoppers(s) && ThreadOf(s, c) == t;
        }
      }
    }
    ImageIsNoLarger(s, Stoppers(s));
    SubsetIsNoLarger(Live(s), Slot(s) + stopping);
  }

  // ---- No caller waits for ever ------------------------------------------------------------

  /** New calls, desktops coming and going, and their traffic are up to the outside. */
  predicate FromOutside(e: Event) {
    e.CallStart? || e.CallStop? || e.Accept? || e.Disconnect? || e.CountBytes?
  }

  function CallerRank(k: Caller): nat {
    match k
    case Idle => 0
    case WantStart => 7
    case Starting(_) => 3
    case JoiningFailed(_) => 1
    case WantStop => 4
    case Stopping(_) => 3
    case Joining(_) => 1
  }

  function ThreadRank(k: Core): nat {
    match k.phase
    case Binding => 2
    case Accepting => 1
    case Bridging => 1
    case BindFailed => 1
    case Exited => 0
  }

  function CallerWork(callers: seq<Caller>): nat {
    if callers == [] then 0 else CallerRank(callers[0]) + CallerWork(callers[1..])
  }

  function ThreadWork(threads: seq<Core>): nat {
    if threads == [] then 0 else ThreadRank(threads[0]) + ThreadWork(threads[1..])
  }

  function Work(s: State): nat {
    CallerWork(s.callers) + ThreadWork(s.threads)
  }

  lemma {:induction false} CallerWorkUpdate(callers: seq<Caller>, c: nat, k: Caller)
    requires c < |callers|
    ensures CallerWork(callers[c := k]) + CallerRank(callers[c]) == CallerWork(callers) + CallerRank(k)
  {
    if c > 0 {
      assert callers[c := k][1..] == callers[1..][c - 1 := k];
      CallerWorkUpdate(callers[1..], c - 1, k);
    }
  }

  lemma {:induction false} ThreadWorkUpdate(threads: seq<Core>, t: nat, k: Core)
    requires t < |threads|
    ensures ThreadWork(threads[t := k]) + ThreadRank(threads[t]) == ThreadWork(threads) + ThreadRank(k)
  {
    if t > 0 {
      assert threads[t := k][1..] == threads[1..][t - 1 := k];
      ThreadWorkUpdate(threads[1..], t - 1, k);
    }
  }

  lemma {:induction false} ThreadWorkSnoc(threads: seq<Core>, k: Core)
    ensures ThreadWork(threads + [k]) == ThreadWork(threads) + ThreadRank(k)
  {
    if threads == [] {
      assert [] + [k] == [k];
      assert ThreadWork([k]) == ThreadRank(k) + ThreadWork([]);
    } else {
      assert (threads + [k])[1..] == threads[1..] + [k];
      ThreadWorkSnoc(threads[1..], k);
    }
  }

  /** A caller moving on to `k`, and its thread to `t`, changes the work by just their ranks. */
  lemma WorkUpdate(s: State, c: nat, k: Caller, x: nat, t: Core)
    requires c < |s.callers| && x < |s.threads|
    ensures Work(SetThread(SetCaller(s, c, k), x, t)) + CallerRank(s.callers[c]) + ThreadRank(s.threads[x])
            == Work(s) + CallerRank(k) + ThreadRank(t)
    ensures Work(SetCaller(s, c, k)) + CallerRank(s.callers[c]) == Work(s) + CallerRank(k)
  {
    CallerWorkUpdate(s.callers, c, k);
    ThreadWorkUpdate(s.threads, x, t);
  }

  lemma LockStepLowersWork(s: State, e: Event)
    requires Inv(s) && Enabled(s, e) && (e.LockStart? || e.LockStop?)
    ensures Work(Apply(s, e)) < Work(s)
  {
    CallerWorkUpdate(s.callers, e.c, Idle);
    match e
    case LockStart(c, spawned) =>
      CallerWorkUpdate(s.callers, c, Starting(|s.threads|));
      ThreadWorkSnoc(s.threads, Core(Binding, false, None, Some(c)));
    case LockStop(c) =>
      if s.instance.Some? {
        var t := s.instance.value;
        WorkUpdate(s, c, Stopping(t), t, s.threads[t].(owner := Some(c)));
      }
  }

  lemma CallerStepLowersWork(s: State, e: Event)
    requires Inv(s) && Enabled(s, e)
    requires e.ReadyOk? || e.ReadyErr? || e.Timeout? || e.JoinFailed? || e.Tell? || e.Join?
    ensures Work(Apply(s, e)) < Work(s)
  {
    var c := e.c;
    var x := s.callers[c].thread;
    var t := s.threads[x];
    match e
    case ReadyOk(_) => WorkUpdate(s, c, Idle, x, t.(owner := None));
    case ReadyErr(_) => WorkUpdate(s, c, JoiningFailed(x), x, t);
    case Timeout(_) => WorkUpdate(s, c, JoiningFailed(x), x, t.(told := true));
    case JoinFailed(_) => WorkUpdate(s, c, Idle, x, t);
    case Tell(_) => WorkUpdate(s, c, Joining(x), x, t.(told := true));
    case Join(_) => WorkUpdate(s, c, Idle, x, t);
  }

  /** Each step of a caller or of a thread leaves less to do. */
  lemma OwnStepsLowerWork(s: State, e: Event)
    requires Inv(s) && Enabled(s, e) && !FromOutside(e)
    ensures Work(Apply(s, e)) < Work(s)
  {
    match e
    case LockStart(_, _) => LockStepLowersWork(s, e);
    case LockStop(_) => LockStepLowersWork(s, e);
    case BindOk(t) => ThreadWorkUpdate(s.threads, t, s.threads[t].(phase := Accepting, report := Some(true)));
    case BindErr(t) => ThreadWorkUpdate(s.threads, t, s.threads[t].(phase := BindFailed, report := Some(false)));
    case Shutdown(t) => ThreadWorkUpdate(s.threads, t, s.threads[t].(phase := Exited));
    case GiveUp(t) => ThreadWorkUpdate(s.threads, t, s.threads[t].(phase := Exited));
    case _ => CallerStepLowersWork(s, e);
  }

  /** The step that moves a thread towards its end, once it is told to stop or has failed to bind. */
  function TowardsExit(s: State, t: nat): Event
    requires t < |s.threads|
  {
    match s.threads[t].phase
    case Binding => BindOk(t)
    case BindFailed => GiveUp(t)
    case _ => Shutdown(t)
  }

  /** The step open to a caller in the middle of a call, or to the thread it waits for. */
  function OpenStep(s: State, c: nat): Event
    requires Waits(s, c)
  {
    var k := s.callers[c];
    var t := s.threads[k.thread];
    match k
    case Starting(_) => if t.report.None? then Timeout(c) else if t.report.value then ReadyOk(c) else ReadyErr(c)
    case JoiningFailed(x) => if t.phase.Exited? then JoinFailed(c) else TowardsExit(s, x)
    case Stopping(_) => Tell(c)
    case Joining(x) => if t.phase.Exited? then Join(c) else TowardsExit(s, x)
  }

  /**
   No deadlock: while any call is under way, some step of a caller or of a thread it waits for can
   be taken, and it leaves less to do.
   */
  lemma CallsMakeProgress(n: nat, es: seq<Event>, c: nat)
    requires c < |Run(n, es).callers| && !Run(n, es).callers[c].Idle?
    ensures var s := Run(n, es);
      exists e :: Enabled(s, e) && !FromOutside(e) && Work(Apply(s, e)) < Work(s)
  {
    RunKeeps(n, es);
    StepOpen(Run(n, es), c);
  }

  lemma StepOpen(s: State, c: nat)
    requires Inv(s) && c < |s.callers| && !s.callers[c].Idle?
    ensures exists e :: Enabled(s, e) && !FromOutside(e) && Work(Apply(s, e)) < Work(s)
  {
    var d := if Busy(s.callers[c]) || s.lock.None? then c else s.lock.value;
    if Busy(s.callers[d]) {
      var x := s.callers[d].thread;
      assert OwnsIts(s.callers[d], d, s.threads) && Coherent(s.threads[x]);
      OwnStepsLowerWork(s, OpenStep(s, d));
    } else if s.callers[d].WantStart? {
      OwnStepsLowerWork(s, LockStart(d, true));
    } else {
      OwnStepsLowerWork(s, LockStop(d));
    }
  }

  // ---- Whose bytes the counters hold -------------------------------------------------------

  function ReceivedBy(ks: seq<Count>, t: nat): nat {
    if |ks| == 0 then 0
    else ReceivedBy(ks[..|ks| - 1], t) + if ks[|ks| - 1].thread == t then ks[|ks| - 1].rx else 0
  }

  function SentBy(ks: seq<Count>, t: nat): nat {
    if |ks| == 0 then 0
    else SentBy(ks[..|ks| - 1], t) + if ks[|ks| - 1].thread == t then ks[|ks| - 1].tx else 0
  }

  lemma BySnoc(ks: seq<Count>, k: Count, t: nat)
    ensures ReceivedBy(ks + [k], t) == ReceivedBy(ks, t) + if k.thread == t then k.rx else 0
    ensures SentBy(ks + [k], t) == SentBy(ks, t) + if k.thread == t then k.tx else 0
  {
    assert (ks + [k])[..|ks|] == ks;
  }

  /** Do the counters show what thread `t` has moved, and nothing else? */
  predicate CountersAreOf(s: State, t: nat) {
    s.rx == ReceivedBy(s.counted, t) && s.tx == SentBy(s.counted, t)
  }

  /** Is this the moment at which a start resets the counters? */
  predicate Resets(s: State, e: Event) {
    e.LockStart? && Enabled(s, e) && s.instance.None?
  }

  /** The state the events of `es` lead to from `s`, those that cannot happen being skipped. */
  function From(s: State, es: seq<Event>): State {
    if |es| == 0 then s else Next(From(s, es[..|es| - 1]), es[|es| - 1])
  }

  ghost predicate NoReset(s: State, es: seq<Event>) {
    forall i :: 0 <= i < |es| ==> !Resets(From(s, es[..i]), es[i])
  }

  /** Thread `t` is the last one spawned, all the others have ended, and the counters are its own. */
  ghost predicate Alone(s: State, t: nat) {
    && |s.threads| == t + 1 && (forall x :: 0 <= x < t ==> s.threads[x].phase.Exited?)
    && CountersAreOf(s, t)
  }

  lemma StaysAlone(s: State, e: Event, t: nat)
    requires Alone(s, t) && !Resets(s, e)
    ensures Alone(Next(s, e), t)
  {
    ThreadsStay(s, e, t);
    if e.CountBytes? && Enabled(s, e) {
      BySnoc(s.counted, e.k, t);
    } else {
      CountersStay(s, e);
    }
  }

  lemma CountersStay(s: State, e: Event)
    requires !Resets(s, e) && !(e.CountBytes? && Enabled(s, e))
    ensures var n := Next(s, e); n.rx == s.rx && n.tx == s.tx && n.counted == s.counted
  {
  }

  /** Short of a reset no thread is spawned, and none that has ended comes back. */
  lemma ThreadsStay(s: State, e: Event, t: nat)
    requires !Resets(s, e) && |s.threads| == t + 1
    requires forall x :: 0 <= x < t ==> s.threads[x].phase.Exited?
    ensures |Next(s, e).threads| == t + 1
    ensures forall x :: 0 <= x < t ==> Next(s, e).threads[x].phase.Exited?
  {
  }

  lemma {:induction false} AloneFrom(s: State, es: seq<Event>, t: nat)
    requires Alone(s, t) && NoReset(s, es)
    ensures Alone(From(s, es), t)
  {
    if |es| > 0 {
      var n := |es| - 1;
      var before := es[..n];
      forall i | 0 <= i < n
        ensures !Resets(From(s, before[..i]), before[i])
      {
        assert before[..i] == es[..i] && before[i] == es[i];
      }
      AloneFrom(s, before, t);
      StaysAlone(From(s, before), es[n], t);
    }
  }

  /** Has every stop under way seen its thread end? */
  ghost predicate StopsAreOver(s: State) {
    forall c :: c in Stoppers(s) ==> s.callers[c].thread < |s.threads| && s.threads[s.callers[c].thread].phase.Exited?
  }

  /** When a start may go ahead, the threads that still live are those of stops under way. */
  lemma NoneLives(s: State)
    requires Inv(s) && s.lock.None? && s.instance.None? && StopsAreOver(s)
    ensures forall x :: 0 <= x < |s.threads| ==> s.threads[x].phase.Exited?
  {
    forall x | 0 <= x < |s.threads|
      ensures s.threads[x].phase.Exited?
    {
      if !s.threads[x].phase.Exited? {
        LiveIsStopped(s, x);
        assert false;
      }
    }
  }

  lemma LiveIsStopped(s: State, x: nat)
    requires Inv(s) && s.lock.None? && s.instance.None?
    requires x < |s.threads| && !s.threads[x].phase.Exited?
    ensures exists c :: c in Stoppers(s) && s.callers[c].thread == x
  {
    assert NotOrphan(s, x, s.threads[x].owner);
    assert s.threads[x].owner.value in Stoppers(s);
  }

  /** A thread being stopped that has not ended still serves, and still counts. */
  lemma StoppedStillServes(s: State, c: nat)
    requires Inv(s) && c in Stoppers(s)
    ensures s.callers[c].thread < |s.threads|
    ensures var k := s.threads[s.callers[c].thread]; k.phase.Exited? || Serving(k)
  {
    assert OwnsIts(s.callers[c], c, s.threads);
    assert Coherent(s.threads[s.callers[c].thread]);
  }

  /** The state in which a start has reset the counters and spawned its thread. */
  function Started(s: State, c: nat): State
    requires Enabled(s, LockStart(c, true))
  {
    Apply(s, LockStart(c, true))
  }

  /**
   Exactly: from a start until the next reset, whatever happens, the counters show what the thread
   it spawned has moved, if and only if at the reset every stop under way had seen its thread end.
   */
  lemma CountersOwnExactly(s: State, c: nat)
    requires Inv(s) && Enabled(s, LockStart(c, true)) && s.instance.None?
    ensures (forall es :: NoReset(Started(s, c), es) ==> CountersAreOf(From(Started(s, c), es), |s.threads|))
            <==> StopsAreOver(s)
  {
    var s1, t := Started(s, c), |s.threads|;
    if StopsAreOver(s) {
      NoneLives(s);
      assert Alone(s1, t);
      forall es | NoReset(s1, es)
        ensures CountersAreOf(From(s1, es), t)
      {
        AloneFrom(s1, es, t);
      }
    } else {
      var d :| d in Stoppers(s) &&
        !(s.callers[d].thread < |s.threads| && s.threads[s.callers[d].thread].phase.Exited?);
      StoppedStillServes(s, d);
      StrangerCounts(s1, s.callers[d].thread, t);
    }
  }

  /** Some other thread that serves may be the next to count. */
  lemma StrangerCounts(s: State, x: nat, t: nat)
    requires x < |s.threads| && x != t && Serving(s.threads[x]) && |s.counted| == 0 && s.rx == 0
    ensures exists es :: NoReset(s, es) && !CountersAreOf(From(s, es), t)
  {
    var e := CountBytes(Count(x, 1, 0));
    FromOne(s, e);
    StrangersCount(s, Count(x, 1, 0), t);
    assert NoReset(s, [e]) && !CountersAreOf(From(s, [e]), t);
  }

  lemma StrangersCount(s: State, k: Count, t: nat)
    requires k.thread != t && Enabled(s, CountBytes(k)) && |s.counted| == 0 && s.rx == 0 < k.rx
    ensures !CountersAreOf(Next(s, CountBytes(k)), t)
  {
    BySnoc(s.counted, k, t);
  }

  lemma FromOne(s: State, e: Event)
    ensures From(s, [e]) == Next(s, e)
    ensures !Resets(s, e) ==> NoReset(s, [e])
  {
    var es := [e];
    assert |es[..0]| == 0 && es[..|es| - 1] == es[..0];
    assert From(s, es[..0]) == s;
  }
}
