/**
 The incremental decoder of rickynet-wire: a byte buffer with a read cursor, compacted lazily.

 `FrameDecoder` is the class itself, proved against the state functions above it. The theorems
 then range over every list of `push` and `next_frame` calls.
 */
module FrameDecoding {
  import opened Bytes
  import opened Framing

  /** Consumed bytes are dropped from the front only once there are this many of them. */
  const COMPACT_AT: nat := 4096

  /** The most a decoder still holds after `next_frame` found no complete frame. */
  const IDLE_MAX: nat := COMPACT_AT - 1 + LEN_PREFIX + MAX_FRAME - 1

  datatype DecoderState = DecoderState(buf: seq<Byte>, start: nat) {
    predicate WellFormed() {
      start <= |buf|
    }

    function Unread(): seq<Byte>
      requires WellFormed()
    {
      buf[start..]
    }

    /** Does compacting now shift the unread bytes to the front of the buffer? */
    predicate Drains() {
      COMPACT_AT <= start < |buf|
    }
  }

  function Pushed(d: DecoderState, data: seq<Byte>): DecoderState {
    d.(buf := d.buf + data)
  }

  function Compacted(d: DecoderState): (c: DecoderState)
    requires d.WellFormed()
    ensures c.WellFormed() && c.Unread() == d.Unread()
    ensures c.start < COMPACT_AT
  {
    if d.start == |d.buf| then DecoderState([], 0)
    else if d.Drains() then DecoderState(d.buf[d.start..], 0)
    else d
  }

  /** The state after `next_frame`: step over the frame if there is one, else compact. */
  function Stepped(d: DecoderState): (e: DecoderState)
    requires d.WellFormed()
    ensures e.WellFormed()
    ensures e.Unread() == if HasFrame(d.Unread()) then d.Unread()[FrameEnd(d.Unread())..] else d.Unread()
  {
    if HasFrame(d.Unread()) then
      var next := d.start + FrameEnd(d.Unread());
      if next == |d.buf| then DecoderState([], 0) else d.(start := next)
    else
      Compacted(d)
  }

  class FrameDecoder {
    var buf: seq<Byte>
    var start: nat

    ghost predicate Valid()
      reads this
    {
      start <= |buf|
    }

    ghost function State(): DecoderState
      reads this
    {
      DecoderState(buf, start)
    }

    /** The bytes received and not yet returned. */
    ghost function Unread(): seq<Byte>
      reads this
      requires Valid()
    {
      buf[start..]
    }

    constructor ()
      ensures Valid() && State() == DecoderState([], 0)
    {
      buf, start := [], 0;
    }

    method Push(data: seq<Byte>)
      requires Valid()
      modifies this
      ensures Valid() && Unread() == old(Unread()) + data
      ensures State() == Pushed(old(State()), data)
    {
      buf := buf + data;
    }

    function Buffered(): (n: nat)
      reads this
      requires Valid()
      ensures n == |Unread()|
    {
      |buf| - start
    }

    method NextFrame() returns (frame: Option<Packet>)
      requires Valid()
      modifies this
      ensures Valid()
      ensures frame.Some? <==> HasFrame(old(Unread()))
      ensures frame.Some? ==> Encode(frame.value) + Unread() == old(Unread())
      ensures frame.Some? ==> Framable(frame.value)
      ensures frame.None? ==> Unread() == old(Unread()) && |buf| <= 69631
      ensures State() == Stepped(old(State()))
    {
      var avail := |buf| - start;
      if avail < LEN_PREFIX {
        Compact();
        return None;
      }
      var len := FromBigEndian16(buf[start], buf[start + 1]);
      assert BodyLength(Unread()) == len;
      if avail < LEN_PREFIX + len {
        Compact();
        return None;
      }
      ghost var was := Unread();
      FrameReencodes(was);
      var bodyStart := start + LEN_PREFIX;
      frame := Some(buf[bodyStart..bodyStart + len]);
      assert frame.value == FirstFrame(was);
      start := bodyStart + len;
      assert Unread() == was[FrameEnd(was)..];
      if start == |buf| {
        buf, start := [], 0;
      }
    }

    method Compact()
      requires Valid()
      modifies this
      ensures Valid() && Unread() == old(Unread())
      ensures start < COMPACT_AT
      ensures State() == Compacted(old(State()))
    {
      if start == 0 {
        return;
      }
      if start == |buf| {
        buf, start := [], 0;
      } else if start >= COMPACT_AT {
        buf, start := buf[start..], 0;
      }
    }
  }

  // ---- Every sequence of calls -------------------------------------------------------------

  datatype Call = Push(data: seq<Byte>) | Next

  /**
   A run of the decoder with its history: the bytes pushed, the frames returned, the bytes
   shifted by draining, whether the last call (if any) was a `next_frame` that found nothing, and
   how many bytes have been pushed since `next_frame` last found nothing or left nothing unread.
   */
  datatype Run = Run(d: DecoderState, pushed: seq<Byte>, popped: seq<Packet>, moved: nat, idle: bool, since: nat)

  function Do(r: Run, c: Call): Run
    requires r.d.WellFormed()
  {
    match c
    case Push(data) => Run(Pushed(r.d, data), r.pushed + data, r.popped, r.moved, false, r.since + |data|)
    case Next =>
      var u := r.d.Unread();
      if HasFrame(u) then
        Run(Stepped(r.d), r.pushed, r.popped + [FirstFrame(u)], r.moved, false,
            if FrameEnd(u) == |u| then 0 else r.since)
      else
        Run(Stepped(r.d), r.pushed, r.popped, r.moved + if r.d.Drains() then |u| else 0, true, 0)
  }

  function Exec(calls: seq<Call>): (r: Run)
    ensures r.d.WellFormed()
  {
    if calls == [] then Run(DecoderState([], 0), [], [], 0, true, 0)
    else Do(Exec(calls[..|calls| - 1]), calls[|calls| - 1])
  }

  /**
   Conservation and cost: the bytes pushed are the frames returned, re-encoded, followed by the
   unread bytes; and every byte shifted is paid for, at sixteen to one, by a byte that has left
   the buffer for good.
   */
  ghost predicate Sound(r: Run) {
    && r.d.WellFormed()
    && AllFramable(r.popped)
    && r.pushed == EncodeAll(r.popped) + r.d.Unread()
    && |r.d.buf| <= |r.pushed|
    && r.moved <= 16 * (|r.pushed| - |r.d.buf|)
  }

  lemma PushKeepsSound(r: Run, data: seq<Byte>)
    requires Sound(r)
    ensures Sound(Do(r, Push(data)))
  {
    assert Pushed(r.d, data).Unread() == r.d.Unread() + data;
    assert EncodeAll(r.popped) + (r.d.Unread() + data) == r.pushed + data;
  }

  lemma NextKeepsSound(r: Run)
    requires Sound(r)
    ensures Sound(Do(r, Next))
  {
    var u := r.d.Unread();
    if HasFrame(u) {
      var p, tail := FirstFrame(u), u[FrameEnd(u)..];
      SplitFirst(u);
      assert EncodeAll(r.popped) + (Encode(p) + tail) == (EncodeAll(r.popped) + Encode(p)) + tail;
      EncodeAllSnoc(r.popped, p);
    } else {
      IncompleteIsShort(u);
    }
  }

  /** Every sequence of calls, in any order, leaves the decoder sound. */
  lemma {:induction false} RunIsSound(calls: seq<Call>)
    ensures Sound(Exec(calls))
  {
    if calls != [] {
      RunIsSound(calls[..|calls| - 1]);
      var r := Exec(calls[..|calls| - 1]);
      match calls[|calls| - 1]
      case Push(data) => PushKeepsSound(r, data);
      case Next => NextKeepsSound(r);
    }
  }

  /** Draining moves at most sixteen bytes for every byte ever received. */
  lemma CompactionIsAmortised(calls: seq<Call>)
    ensures Exec(calls).moved <= 16 * |Exec(calls).pushed|
  {
    RunIsSound(calls);
  }

  /** However the stream was cut up, the frames returned are the first frames of the whole stream. */
  lemma ReturnsInOrder(calls: seq<Call>)
    ensures Frames(Exec(calls).pushed) == Exec(calls).popped + Frames(Exec(calls).d.Unread())
    ensures Rest(Exec(calls).pushed) == Rest(Exec(calls).d.Unread())
  {
    RunIsSound(calls);
    var r := Exec(calls);
    FramesAfter(r.popped, r.d.Unread());
  }

  /** Once `next_frame` has found nothing, everything complete has been returned. */
  lemma DrainedReturnsAll(calls: seq<Call>)
    requires Exec(calls).idle
    ensures Exec(calls).popped == Frames(Exec(calls).pushed)
    ensures Exec(calls).d.Unread() == Rest(Exec(calls).pushed)
  {
    ReturnsInOrder(calls);
    if calls != [] {
      var r := Exec(calls[..|calls| - 1]);
      assert !HasFrame(r.d.Unread());
    }
  }

  /** Chunk independence: drained decoders fed the same bytes in any pieces agree. */
  lemma ChunkIndependence(a: seq<Call>, b: seq<Call>)
    requires Exec(a).pushed == Exec(b).pushed
    requires Exec(a).idle && Exec(b).idle
    ensures Exec(a).popped == Exec(b).popped
    ensures Exec(a).d.Unread() == Exec(b).d.Unread()
  {
    DrainedReturnsAll(a);
    DrainedReturnsAll(b);
  }

  /** A stream of encoded packets, in any pieces, drains to exactly those packets. */
  lemma DecodesWhatWasEncoded(ps: seq<Packet>, calls: seq<Call>)
    requires AllFramable(ps)
    requires Exec(calls).pushed == EncodeAll(ps) && Exec(calls).idle
    ensures Exec(calls).popped == ps
    ensures Exec(calls).d.Unread() == []
  {
    DrainedReturnsAll(calls);
    RoundTrip(ps);
  }

  // ---- Memory ------------------------------------------------------------------------------

  /**
   What the decoder holds, exactly: at least what was pushed since it was last caught up with, and
   at most 69631 bytes more.
   */
  lemma {:induction false} MemoryIsBacklog(calls: seq<Call>)
    ensures var r := Exec(calls); r.since <= |r.d.buf| <= 69631 + r.since
  {
    if calls != [] {
      var r := Exec(calls[..|calls| - 1]);
      MemoryIsBacklog(calls[..|calls| - 1]);
      if calls[|calls| - 1].Next? && !HasFrame(r.d.Unread()) {
        IncompleteIsShort(r.d.Unread());
      }
    }
  }

  /** A consumer is the set of everything it may have called so far. */
  ghost predicate HoldsAtMost(consumer: iset<seq<Call>>, m: nat) {
    forall calls :: calls in consumer ==> |Exec(calls).d.buf| <= m
  }

  ghost predicate LagsAtMost(consumer: iset<seq<Call>>, m: nat) {
    forall calls :: calls in consumer ==> Exec(calls).since <= m
  }

  /** Memory stays bounded exactly for a consumer that never lets more than so much be pushed before it catches up. */
  lemma BoundedExactly(consumer: iset<seq<Call>>)
    ensures (exists m: nat :: HoldsAtMost(consumer, m)) <==> (exists m: nat :: LagsAtMost(consumer, m))
    ensures forall m: nat :: LagsAtMost(consumer, m) ==> HoldsAtMost(consumer, IDLE_MAX + m)
  {
    forall calls ensures Exec(calls).since <= |Exec(calls).d.buf| <= IDLE_MAX + Exec(calls).since {
      MemoryIsBacklog(calls);
    }
    if m: nat :| HoldsAtMost(consumer, m) {
      assert LagsAtMost(consumer, m);
    }
    forall m: nat | LagsAtMost(consumer, m)
      ensures HoldsAtMost(consumer, IDLE_MAX + m)
    {
    }
  }

  /** Every push is of at most `k` bytes and comes only when the consumer has caught up. */
  predicate CatchesUpBeforePushing(calls: seq<Call>, k: nat) {
    forall i :: 0 <= i < |calls| && calls[i].Push? ==> |calls[i].data| <= k && Exec(calls[..i]).since == 0
  }

  lemma {:induction false} LagIsOnePush(calls: seq<Call>, k: nat)
    requires CatchesUpBeforePushing(calls, k)
    ensures Exec(calls).since <= k
  {
    if calls != [] {
      var n := |calls| - 1;
      var before := calls[..n];
      forall i | 0 <= i < n && before[i].Push?
        ensures |before[i].data| <= k && Exec(before[..i]).since == 0
      {
        assert calls[..i] == before[..i] && calls[i] == before[i];
      }
      LagIsOnePush(before, k);
    }
  }

  /** So a consumer that catches up before it pushes again keeps the buffer bounded, for good. */
  lemma MemoryBound(calls: seq<Call>, k: nat)
    requires CatchesUpBeforePushing(calls, k)
    ensures |Exec(calls).d.buf| <= 69631 + k
    ensures Exec(calls).since == 0 ==> |Exec(calls).d.buf| <= 69631
  {
    LagIsOnePush(calls, k);
    MemoryIsBacklog(calls);
  }

  lemma ExecPushNext(calls: seq<Call>, data: seq<Byte>)
    ensures Exec(calls + [Push(data), Next]) == Do(Do(Exec(calls), Push(data)), Next)
  {
    var all := calls + [Push(data), Next];
    assert all[..|all| - 1] == calls + [Push(data)];
    assert (calls + [Push(data)])[..|calls|] == calls;
  }

  /** One whole frame pushed, one popped, for each packet of `ps`. */
  function OneForOne(ps: seq<Packet>): seq<Call> {
    if ps == [] then [] else OneForOne(ps[..|ps| - 1]) + [Push(Encode(ps[|ps| - 1])), Next]
  }

  /** All of `ps` popped, nothing held, and the consumer caught up. */
  predicate CaughtUp(r: Run, ps: seq<Packet>) {
    |r.d.buf| == r.d.start == 0 && r.popped == ps && r.since == 0
  }

  lemma WholeFrameRound(r: Run, p: Packet, ps: seq<Packet>)
    requires Framable(p) && CaughtUp(r, ps)
    ensures CaughtUp(Do(Do(r, Push(Encode(p))), Next), ps + [p])
  {
    var e := Encode(p);
    EncodeThenParseOne(p, []);
    assert e + [] == e;
    assert Pushed(r.d, e).Unread() == e;
  }

  lemma OneMoreCatchesUp(ps: seq<Packet>, p: Packet)
    requires Framable(p) && CaughtUp(Exec(OneForOne(ps)), ps)
    ensures CaughtUp(Exec(OneForOne(ps) + [Push(Encode(p)), Next]), ps + [p])
  {
    ExecPushNext(OneForOne(ps), Encode(p));
    WholeFrameRound(Exec(OneForOne(ps)), p, ps);
  }

  /** A consumer that is handed whole frames and pops each has caught up, though it never sees nothing. */
  lemma {:induction false} OneForOneCatchesUp(ps: seq<Packet>)
    requires AllFramable(ps)
    ensures CaughtUp(Exec(OneForOne(ps)), ps)
  {
    if ps != [] {
      OneForOneCatchesUp(ps[..|ps| - 1]);
      OneMoreCatchesUp(ps[..|ps| - 1], ps[|ps| - 1]);
      assert ps == ps[..|ps| - 1] + [ps[|ps| - 1]];
    }
  }

  /** Two copies of `e` at first, then one pushed and one popped, `n` times over. */
  function OneBehind(e: seq<Byte>, n: nat): seq<Call> {
    if n == 0 then [] + [Push(e + e), Next] else OneBehind(e, n - 1) + [Push(e), Next]
  }

  /** Is `e` exactly one frame? */
  predicate IsOneFrame(e: seq<Byte>) {
    HasFrame(e) && FrameEnd(e) == |e|
  }

  /** A decoder with exactly `unread` unread, whose consumer has never caught up with what was pushed. */
  predicate Behind(r: Run, unread: seq<Byte>, total: nat) {
    r.d.WellFormed() && r.d.Unread() == unread && r.since == |r.pushed| == total
  }

  /** With `data` completing a second copy of a frame, a pop leaves one copy. */
  lemma OneRound(r: Run, data: seq<Byte>, unread: seq<Byte>, e: seq<Byte>, total: nat)
    requires IsOneFrame(e) && Behind(r, unread, total) && unread + data == e + e
    ensures Behind(Do(Do(r, Push(data)), Next), e, total + |data|)
  {
    assert Pushed(r.d, data).Unread() == unread + data;
    FrameStable(e, e);
    assert (e + e)[|e|..] == e;
  }

  /** The bytes of `n` copies of `e`. */
  function Total(e: seq<Byte>, n: nat): nat {
    if n == 0 then 0 else Total(e, n - 1) + |e|
  }

  lemma {:induction false} TotalIs(e: seq<Byte>, n: nat)
    ensures Total(e, n) == n * |e|
  {
    if n > 0 {
      TotalIs(e, n - 1);
      assert n * |e| == (n - 1) * |e| + |e|;
    }
  }

  /** After `n` rounds one frame is unread, and nothing ever pushed has been caught up with. */
  predicate StaysBehind(e: seq<Byte>, n: nat) {
    Behind(Exec(OneBehind(e, n)), e, Total(e, n + 2))
  }

  lemma NextRound(e: seq<Byte>, n: nat)
    requires IsOneFrame(e) && n > 0 && StaysBehind(e, n - 1)
    ensures StaysBehind(e, n)
  {
    var calls := OneBehind(e, n - 1);
    ExecPushNext(calls, e);
    OneRound(Exec(calls), e, e, e, Total(e, n + 1));
  }

  lemma FirstRound(e: seq<Byte>)
    requires IsOneFrame(e)
    ensures StaysBehind(e, 0)
  {
    ExecPushNext([], e + e);
    assert Total(e, 2) == Total(e, 0) + |e + e|;
    OneRound(Exec([]), e + e, [], e, 0);
  }

  lemma {:induction false} OneBehindStaysBehind(e: seq<Byte>, n: nat)
    requires IsOneFrame(e)
    ensures StaysBehind(e, n)
  {
    if n == 0 {
      FirstRound(e);
    } else {
      OneBehindStaysBehind(e, n - 1);
      NextRound(e, n);
    }
  }

  /**
   Catching up is needed. A consumer that pops once per push and stays one frame behind never has
   more than one frame unread, and yet its buffer keeps every byte it was ever given.
   */
  lemma OneBehindNeverCompacts(e: seq<Byte>, n: nat)
    requires IsOneFrame(e)
    ensures var d := Exec(OneBehind(e, n)).d; d.Unread() == e && |d.buf| == (n + 2) * |e|
  {
    OneBehindStaysBehind(e, n);
    TotalIs(e, n + 2);
    MemoryIsBacklog(OneBehind(e, n));
    RunIsSound(OneBehind(e, n));
  }
}
