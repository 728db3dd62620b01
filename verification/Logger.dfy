/**
 The core's log fan-out (rickynet-core/src/logger.rs): a ring of recent lines and one callback,
 both behind a lock, with the callback always invoked after the lock is released.

 `CoreLogger` is the locked state with its two critical sections. The run model below lets any
 number of threads sit between leaving a critical section and making their callback calls.
 */
module Logger {
  import opened Bytes

  const RING_CAP: nat := 1000

  /** Severity of a record, most severe first, as the logging crate orders it. */
  datatype Level = Error | Warn | Info | Debug | Trace {
    function Rank(): nat {
      match this
      case Error => 1
      case Warn => 2
      case Info => 3
      case Debug => 4
      case Trace => 5
    }
  }

  /** Our own crates log at every level; everything else is clamped to warnings. */
  predicate TargetAllowed(target: string, level: Level) {
    var threshold := if "rickynet" <= target then Trace else Warn;
    level.Rank() <= threshold.Rank()
  }

  /** Exactly: our own crates at any level, and from anyone else warnings and errors. */
  lemma AllowedExactly(target: string, level: Level)
    ensures TargetAllowed(target, level) <==>
            (|target| >= 8 && target[..8] == "rickynet") || level == Error || level == Warn
  {
  }

  /** A registered line sink: a C function. */
  type Callback = nat

  class CoreLogger {
    var callback: Option<Callback>
    var ring: seq<string>

    ghost predicate Valid()
      reads this
    {
      |ring| <= RING_CAP
    }

    constructor ()
      ensures Valid() && ring == [] && callback == None
    {
      callback, ring := None, [];
    }

    /** The critical section of `log`: keep the line and take a copy of the callback. */
    method Record(line: string) returns (cb: Option<Callback>)
      requires Valid()
      modifies this`ring
      ensures Valid() && ring == Last(old(ring) + [line], RING_CAP)
      ensures cb == callback
    {
      if |ring| >= RING_CAP {
        ring := ring[1..];
      }
      ring := ring + [line];
      cb := callback;
    }

    /** The critical section of `set_callback`: the lines to replay to a new sink. */
    method SetCallback(cb: Option<Callback>) returns (backlog: seq<string>)
      requires Valid()
      modifies this`callback
      ensures Valid() && callback == cb
      ensures backlog == if cb.Some? then ring else []
    {
      callback := cb;
      backlog := if cb.Some? then ring else [];
    }
  }

  /** The line as a C string: a NUL inside it is spelt out instead of cutting the line short. */
  function AsCString(line: string): (c: string)
    ensures '\0' !in c
    ensures c == line <==> '\0' !in line
  {
    if line == [] then []
    else if line[0] == '\0' then "\\0" + AsCString(line[1..])
    else
      assert '\0' in line <==> '\0' in line[1..];
      [line[0]] + AsCString(line[1..])
  }

  /** Each NUL becomes a backslash and a zero, and everything else stays in its place. */
  lemma {:induction false} CStringParts(a: string, b: string)
    ensures AsCString(a + b) == AsCString(a) + AsCString(b)
    ensures AsCString(['\0']) == ['\\', '0']
  {
    if |a| == 0 {
      assert a + b == b && AsCString(a) + AsCString(b) == AsCString(b);
      assert AsCString(['\0'][1..]) == [];
    } else {
      var c := if a[0] == '\0' then "\\0" else [a[0]];
      assert (a + b)[1..] == a[1..] + b;
      CStringParts(a[1..], b);
      Assoc(c, AsCString(a[1..]), AsCString(b));
    }
  }

  // ---- Every interleaving ------------------------------------------------------------------

  /**
   One invocation of a sink. What the sink is passed is the text, taken from the record or from the
   ring; for the theorems, a call also says which registration and which recorded line it is for.
   */
  datatype Call = Call(cb: Callback, text: string, reg: nat, line: nat)

  /** One `set_callback`: its sink, and how many lines had been recorded before it. */
  datatype Registration = Registration(cb: Option<Callback>, at: nat)

  datatype State = State(
    ring: seq<string>,
    callback: Option<Callback>,
    threads: seq<seq<Call>>,   // the calls each thread has still to make, outside the lock
    // what has happened
    lines: seq<string>,        // every line recorded
    regs: seq<Registration>,   // every set_callback, in lock order
    due: seq<Call>,            // every call any thread undertook to make
    made: seq<Call>)           // every call made

  const INITIAL := State([], None, [], [], [], [], [])

  datatype Event =
    | Log(target: string, level: Level, text: string)
    | Register(cb: Option<Callback>)
    | Emit(thread: nat)

  /** The calls that replay `texts`, the first of them being line `from`. */
  function Backlog(cb: Callback, texts: seq<string>, reg: nat, from: nat): (calls: seq<Call>)
    ensures |calls| == |texts|
    ensures forall i :: 0 <= i < |calls| ==> calls[i] == Call(cb, texts[i], reg, from + i)
  {
    seq(|texts|, i requires 0 <= i < |texts| => Call(cb, texts[i], reg, from + i))
  }

  /** The calls a thread undertakes when it records a line: one, if there is a sink. */
  function NewCalls(s: State, text: string): seq<Call> {
    if s.callback.None? || s.regs == [] then [] else [Call(s.callback.value, text, |s.regs| - 1, |s.lines|)]
  }

  /** The calls a thread undertakes when it registers a sink: the lines in the ring. */
  function Replay(s: State, cb: Option<Callback>): seq<Call> {
    if cb.None? then []
    else Backlog(cb.value, s.ring, |s.regs|, |s.lines| - Min(|s.lines|, |s.ring|))
  }

  function Undertake(s: State, calls: seq<Call>): State {
    s.(threads := s.threads + [calls], due := s.due + calls)
  }

  function Next(s: State, e: Event): State {
    match e
    case Log(target, level, text) =>
      if !TargetAllowed(target, level) then s
      else
        Undertake(s.(ring := Last(s.ring + [text], RING_CAP), lines := s.lines + [text]), NewCalls(s, text))
    case Register(cb) =>
      Undertake(s.(callback := cb, regs := s.regs + [Registration(cb, |s.lines|)]), Replay(s, cb))
    case Emit(thread) =>
      if thread >= |s.threads| || s.threads[thread] == [] then s
      else
        s.(threads := s.threads[thread := s.threads[thread][1..]], made := s.made + [s.threads[thread][0]])
  }

  /** The calls threads have undertaken and not yet made. */
  function Pending(threads: seq<seq<Call>>): multiset<Call> {
    if threads == [] then multiset{}
    else Pending(threads[..|threads| - 1]) + multiset(threads[|threads| - 1])
  }

  /** The first line a registration is owed: the ring holds at most the last thousand. */
  function From(r: Registration): nat {
    r.at - Min(r.at, RING_CAP)
  }

  /** The line after the last one a registration is owed: the next registration takes over. */
  function To(s: State, reg: nat): nat
    requires reg < |s.regs|
  {
    if reg + 1 < |s.regs| then s.regs[reg + 1].at else |s.lines|
  }

  /** Is this call owed: to the sink of its registration, with the text of its line? */
  predicate Owed(s: State, c: Call) {
    && c.reg < |s.regs| && s.regs[c.reg].cb == Some(c.cb)
    && From(s.regs[c.reg]) <= c.line < To(s, c.reg)
    && c.line < |s.lines| && c.text == s.lines[c.line]
  }

  ghost predicate NoRepeats(calls: seq<Call>) {
    forall i, j :: 0 <= i < j < |calls| ==> calls[i] != calls[j]
  }

  ghost predicate LockedState(s: State) {
    && s.ring == Last(s.lines, RING_CAP)
    && s.callback == (if s.regs == [] then None else s.regs[|s.regs| - 1].cb)
    && (forall r :: 0 <= r < |s.regs| ==> s.regs[r].at <= |s.lines|)
  }

  ghost predicate OwedOnce(s: State) {
    && NoRepeats(s.due)
    && (forall c :: c in s.due <==> Owed(s, c))
  }

  ghost predicate Balanced(s: State) {
    multiset(s.made) + Pending(s.threads) == multiset(s.due)
  }

  ghost predicate Inv(s: State) {
    && LockedState(s)
    && OwedOnce(s)
    && Balanced(s)
  }

  lemma PendingSnoc(threads: seq<seq<Call>>, calls: seq<Call>)
    ensures Pending(threads + [calls]) == Pending(threads) + multiset(calls)
  {
    assert (threads + [calls])[..|threads|] == threads;
  }

  /** A call made by one thread leaves exactly that call fewer pending. */
  lemma {:induction false} PendingEmit(threads: seq<seq<Call>>, thread: nat)
    requires thread < |threads| && threads[thread] != []
    ensures Pending(threads) == Pending(threads[thread := threads[thread][1..]]) + multiset{threads[thread][0]}
  {
    var n := |threads| - 1;
    var after := threads[thread := threads[thread][1..]];
    if thread == n {
      assert after[..n] == threads[..n];
      assert threads[n] == [threads[n][0]] + threads[n][1..];
    } else {
      PendingEmit(threads[..n], thread);
      assert after[..n] == threads[..n][thread := threads[thread][1..]];
    }
  }

  /** A new line is owed to the latest registration, if that has a sink, and nothing else changes. */
  lemma OwedAfterLog(s: State, e: Event, c: Call)
    requires LockedState(s) && e.Log? && TargetAllowed(e.target, e.level)
    ensures Owed(Next(s, e), c) <==> Owed(s, c) || c in NewCalls(s, e.text)
    ensures c in NewCalls(s, e.text) ==> !Owed(s, c)
  {
    var t := Next(s, e);
    assert t.regs == s.regs && |t.lines| == |s.lines| + 1;
    if c.reg < |s.regs| {
      assert From(s.regs[c.reg]) <= s.regs[c.reg].at <= |s.lines|;
    }
  }

  lemma LogKeepsOwed(s: State, e: Event)
    requires Inv(s) && e.Log? && TargetAllowed(e.target, e.level)
    ensures OwedOnce(Next(s, e))
  {
    var t, calls := Next(s, e), NewCalls(s, e.text);
    assert t.due == s.due + calls;
    forall x ensures x in t.due <==> Owed(t, x) {
      OwedAfterLog(s, e, x);
      assert x in t.due <==> x in s.due || x in calls;
    }
    if calls != [] {
      OwedAfterLog(s, e, calls[0]);
    }
  }

  lemma LogKeepsLocked(s: State, e: Event)
    requires LockedState(s) && e.Log?
    ensures LockedState(Next(s, e))
  {
    LastAppend(s.lines, [e.text], RING_CAP);
  }

  lemma UndertakeKeepsBalanced(s: State, calls: seq<Call>)
    requires Balanced(s)
    ensures Balanced(Undertake(s, calls))
  {
    PendingSnoc(s.threads, calls);
    assert multiset(s.due + calls) == multiset(s.due) + multiset(calls);
  }

  lemma LogKeeps(s: State, e: Event)
    requires Inv(s) && e.Log?
    ensures Inv(Next(s, e))
  {
    LogKeepsLocked(s, e);
    if TargetAllowed(e.target, e.level) {
      LogKeepsOwed(s, e);
      UndertakeKeepsBalanced(s, NewCalls(s, e.text));
    }
  }

  lemma InBacklog(cb: Callback, texts: seq<string>, reg: nat, from: nat, c: Call)
    ensures c in Backlog(cb, texts, reg, from) <==>
            c.cb == cb && c.reg == reg && from <= c.line < from + |texts| && c.text == texts[c.line - from]
  {
    if from <= c.line < from + |texts| {
      assert Backlog(cb, texts, reg, from)[c.line - from] == Call(cb, texts[c.line - from], reg, c.line);
    }
  }

  /** The texts replayed are those of the last thousand lines. */
  lemma InReplay(s: State, cb: Option<Callback>, c: Call)
    requires s.ring == Last(s.lines, RING_CAP)
    ensures c in Replay(s, cb) <==>
            && cb == Some(c.cb) && c.reg == |s.regs|
            && |s.lines| - Min(|s.lines|, RING_CAP) <= c.line < |s.lines|
            && c.text == s.lines[c.line]
  {
    if cb.Some? {
      var from := |s.lines| - |s.ring|;
      InBacklog(cb.value, s.ring, |s.regs|, from, c);
      if from <= c.line < |s.lines| {
        LastAt(s.lines, RING_CAP, c.line - from);
      }
    }
  }

  /** Registering owes the new sink the lines in the ring and takes nothing from anyone. */
  lemma OwedAfterRegister(s: State, cb: Option<Callback>, c: Call)
    requires LockedState(s)
    ensures Owed(Next(s, Register(cb)), c) <==> Owed(s, c) || c in Replay(s, cb)
  {
    var t := Next(s, Register(cb));
    InReplay(s, cb, c);
    if c.reg < |s.regs| {
      assert t.regs[c.reg] == s.regs[c.reg] && To(t, c.reg) == To(s, c.reg);
    } else if c.reg == |s.regs| {
      assert t.regs[c.reg] == Registration(cb, |s.lines|) && To(t, c.reg) == |s.lines|;
    }
  }

  lemma NoRepeatsAppend(a: seq<Call>, b: seq<Call>, reg: nat)
    requires NoRepeats(a) && NoRepeats(b)
    requires forall c :: c in a ==> c.reg < reg
    requires forall c :: c in b ==> c.reg == reg
    ensures NoRepeats(a + b)
  {
  }

  lemma RegisterKeepsOwed(s: State, cb: Option<Callback>)
    requires Inv(s)
    ensures OwedOnce(Next(s, Register(cb)))
  {
    var t, calls := Next(s, Register(cb)), Replay(s, cb);
    assert t.due == s.due + calls;
    forall c ensures c in t.due <==> Owed(t, c) {
      OwedAfterRegister(s, cb, c);
      assert c in t.due <==> c in s.due || c in calls;
    }
    NoRepeatsAppend(s.due, calls, |s.regs|);
  }

  lemma RegisterKeepsLocked(s: State, cb: Option<Callback>)
    requires LockedState(s)
    ensures LockedState(Next(s, Register(cb)))
  {
  }

  lemma RegisterKeeps(s: State, cb: Option<Callback>)
    requires Inv(s)
    ensures Inv(Next(s, Register(cb)))
  {
    RegisterKeepsOwed(s, cb);
    RegisterKeepsLocked(s, cb);
    UndertakeKeepsBalanced(s, Replay(s, cb));
  }

  lemma EmitKeeps(s: State, thread: nat)
    requires Inv(s)
    ensures Inv(Next(s, Emit(thread)))
  {
    if thread < |s.threads| && s.threads[thread] != [] {
      PendingEmit(s.threads, thread);
      MadeSnoc(s.made, s.threads[thread][0]);
    }
  }

  lemma MadeSnoc(made: seq<Call>, c: Call)
    ensures multiset(made + [c]) == multiset(made) + multiset{c}
  {
  }

  /** The state after the events of `es`. */
  function Run(es: seq<Event>): State {
    if es == [] then INITIAL else Next(Run(es[..|es| - 1]), es[|es| - 1])
  }

  lemma NextKeeps(s: State, e: Event)
    requires Inv(s)
    ensures Inv(Next(s, e))
  {
    match e
    case Log(_, _, _) => LogKeeps(s, e);
    case Register(cb) => RegisterKeeps(s, cb);
    case Emit(thread) => EmitKeeps(s, thread);
  }

  /** Every run keeps the invariant. */
  lemma {:induction false} RunKeeps(es: seq<Event>)
    ensures Inv(Run(es))
  {
    if es != [] {
      RunKeeps(es[..|es| - 1]);
      NextKeeps(Run(es[..|es| - 1]), es[|es| - 1]);
    }
  }

  lemma {:induction false} NoRepeatsCounts(calls: seq<Call>, c: Call)
    requires NoRepeats(calls)
    ensures multiset(calls)[c] == if c in calls then 1 else 0
  {
    if calls != [] {
      var n := |calls| - 1;
      NoRepeatsCounts(calls[..n], c);
      assert calls == calls[..n] + [calls[n]];
    }
  }

  /**
   Exactly once. For every interleaving and every call there could be, whatever its sink, text,
   registration and line: the times it was made and the times some thread has still to make it add
   up to one if it is owed, else to none.
   */
  lemma ExactlyOnce(es: seq<Event>, c: Call)
    ensures var s := Run(es);
      multiset(s.made)[c] + Pending(s.threads)[c] == if Owed(s, c) then 1 else 0
  {
    RunKeeps(es);
    OnceIfOwed(Run(es), c);
  }

  lemma OnceIfOwed(s: State, c: Call)
    requires Inv(s)
    ensures multiset(s.made)[c] + Pending(s.threads)[c] == if Owed(s, c) then 1 else 0
  {
    NoRepeatsCounts(s.due, c);
    assert (multiset(s.made) + Pending(s.threads))[c] == multiset(s.due)[c];
  }

  /** Once no thread has a call left to make, every sink has had the text of every line it is owed, once. */
  lemma AtRestAllDelivered(es: seq<Event>, c: Call)
    requires forall i :: 0 <= i < |Run(es).threads| ==> Run(es).threads[i] == []
    ensures multiset(Run(es).made)[c] == if Owed(Run(es), c) then 1 else 0
  {
    ExactlyOnce(es, c);
    NothingPending(Run(es).threads);
  }

  lemma {:induction false} NothingPending(threads: seq<seq<Call>>)
    requires forall i :: 0 <= i < |threads| ==> threads[i] == []
    ensures Pending(threads) == multiset{}
  {
    if threads != [] {
      NothingPending(threads[..|threads| - 1]);
    }
  }

  /** The ring is always the last thousand accepted lines, or all of them while there are fewer. */
  lemma RingIsWindow(es: seq<Event>)
    ensures Run(es).ring == Last(Run(es).lines, 1000)
  {
    RunKeeps(es);
    assert LockedState(Run(es));
  }

  /** The texts of the records that pass. */
  function Passed(es: seq<Event>): seq<string> {
    if |es| == 0 then []
    else
      var e := es[|es| - 1];
      Passed(es[..|es| - 1])
      + if e.Log? && ((|e.target| >= 8 && e.target[..8] == "rickynet") || e.level == Error || e.level == Warn)
        then [e.text] else []
  }

  /** The lines recorded are the texts of the records that pass, in lock order, and no others. */
  lemma {:induction false} LinesArePassed(es: seq<Event>)
    ensures Run(es).lines == Passed(es)
  {
    if |es| > 0 {
      LinesArePassed(es[..|es| - 1]);
      NextLines(Run(es[..|es| - 1]), es[|es| - 1]);
    }
  }

  lemma NextLines(s: State, e: Event)
    ensures Next(s, e).lines ==
            s.lines + if e.Log?
                         && ((|e.target| >= 8 && e.target[..8] == "rickynet") || e.level == Error || e.level == Warn)
                      then [e.text] else []
  {
    if e.Log? {
      AllowedExactly(e.target, e.level);
    }
  }
}
