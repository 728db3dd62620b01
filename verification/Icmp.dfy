/**
 Answering pings (rickynet-core/src/flow.rs): when the phone hands the desktop an echo reply, and
 what is in it. The checksum is the Internet checksum of section 1 of RFC 1071 over the message
 described under "Echo or Echo Reply Message" in RFC 792.
 */
module Icmp {
  import opened Bytes

  // ---- The Internet checksum ---------------------------------------------------------------

  /** The plain sum of the 16-bit words of `s`, a last odd byte counting as a word's high half. */
  function WordSum(s: seq<Byte>): nat
    decreases |s|
  {
    if |s| == 0 then 0
    else if |s| == 1 then FromBigEndian16(s[0], 0)
    else FromBigEndian16(s[0], s[1]) + WordSum(s[2..])
  }

  /** A last odd byte is padded with a zero byte behind it. */
  lemma {:induction false} OddIsPadded(s: seq<Byte>)
    requires |s| % 2 == 1
    ensures WordSum(s) == WordSum(s + [0])
    decreases |s|
  {
    if |s| > 1 {
      assert (s + [0])[2..] == s[2..] + [0];
      OddIsPadded(s[2..]);
    }
  }

  /** A byte counts 256-fold at an even place and once at an odd one. */
  lemma {:induction false} ByteCounts(s: seq<Byte>, i: nat, v: Byte)
    requires i < |s|
    ensures var w := if i % 2 == 0 then 256 else 1;
      WordSum(s[i := v]) + w * s[i] as int == WordSum(s) + w * v as int
    decreases |s|
  {
    if i >= 2 {
      assert s[i := v][2..] == s[2..][i - 2 := v];
      ByteCounts(s[2..], i - 2, v);
    } else if |s| >= 2 {
      assert s[i := v][2..] == s[2..];
    }
  }

  lemma {:induction false} ZerosSumToZero(s: seq<Byte>)
    requires forall i :: 0 <= i < |s| ==> s[i] == 0
    ensures WordSum(s) == 0
    decreases |s|
  {
    if |s| >= 2 {
      ZerosSumToZero(s[2..]);
    }
  }

  /** Bring carries back in at the low end until 16 bits are left. */
  function Fold(n: nat): (f: nat)
    ensures f < 0x1_0000
    ensures f % 0xFFFF == n % 0xFFFF
    ensures f == 0 <==> n == 0
  {
    if n < 0x1_0000 then n
    else
      assert n / 0x1_0000 + n % 0x1_0000 == n - 0xFFFF * (n / 0x1_0000);
      ModMultiple(n, n / 0x1_0000);
      Fold(n / 0x1_0000 + n % 0x1_0000)
  }

  lemma ModMultiple(n: nat, k: nat)
    requires 0xFFFF * k <= n
    ensures (n - 0xFFFF * k) % 0xFFFF == n % 0xFFFF
  {
    if k > 0 {
      ModMultiple(n, k - 1);
      var m := n - 0xFFFF * (k - 1);
      assert (m - 0xFFFF) % 0xFFFF == m % 0xFFFF;
    }
  }

  /** The complement of the one's-complement sum. */
  function Checksum(s: seq<Byte>): U16 {
    0xFFFF - Fold(WordSum(s))
  }

  /** A receiver accepts a message whose one's-complement sum, checksum included, is all ones. */
  predicate Verifies(message: seq<Byte>) {
    Fold(WordSum(message)) == 0xFFFF
  }

  // ---- Echo messages -----------------------------------------------------------------------

  datatype Echo = Echo(id: U16, sequence: U16)

  const ECHO_REQUEST: Byte := 8
  const ECHO_REPLY: Byte := 0

  function Message(kind: Byte, code: Byte, checksum: U16, echo: Echo, data: seq<Byte>): seq<Byte> {
    [kind, code] + BigEndian16(checksum) + BigEndian16(echo.id) + BigEndian16(echo.sequence) + data
  }

  /** The reply: same identifier, sequence number and data, the checksum taken with its field zero. */
  function Reply(echo: Echo, data: seq<Byte>): seq<Byte> {
    Message(ECHO_REPLY, 0, Checksum(Message(ECHO_REPLY, 0, 0, echo, data)), echo, data)
  }

  lemma LeadingWord(n: U16, tail: seq<Byte>)
    ensures WordSum(BigEndian16(n) + tail) == n + WordSum(tail)
  {
    var s := BigEndian16(n) + tail;
    assert s[2..] == tail;
    assert FromBigEndian16(s[0], s[1]) == n;
  }

  lemma MessageSum(kind: Byte, code: Byte, checksum: U16, echo: Echo, data: seq<Byte>)
    ensures WordSum(Message(kind, code, checksum, echo, data))
            == FromBigEndian16(kind, code) + checksum + echo.id + echo.sequence + WordSum(data)
  {
    var m := Message(kind, code, checksum, echo, data);
    var last := BigEndian16(echo.sequence) + data;
    var middle := BigEndian16(echo.id) + last;
    assert m[2..] == BigEndian16(checksum) + middle;
    LeadingWord(echo.sequence, data);
    LeadingWord(echo.id, last);
    LeadingWord(checksum, middle);
  }

  /** A sum of a value and the complement of its fold is all ones. */
  lemma ComplementFills(n: nat)
    ensures Fold(n + (0xFFFF - Fold(n))) == 0xFFFF
  {
    var f := Fold(n);
    SumIsMultiple(n, f);
    FullFold(n + (0xFFFF - f));
  }

  lemma SumIsMultiple(n: nat, f: nat)
    requires f < 0x1_0000 && f % 0xFFFF == n % 0xFFFF && (f == 0 <==> n == 0)
    ensures (n + (0xFFFF - f)) % 0xFFFF == 0 && n + (0xFFFF - f) > 0
  {
    var q, r := n / 0xFFFF, n % 0xFFFF;
    SameOrFull(f, r);
    if f == r {
      assert n + (0xFFFF - f) == 0xFFFF * (q + 1);
      Multiple(q + 1);
    } else {
      assert n + (0xFFFF - f) == 0xFFFF * q;
      Multiple(q);
    }
  }

  lemma SameOrFull(f: nat, r: nat)
    requires f < 0x1_0000 && f % 0xFFFF == r
    ensures f == r || (f == 0xFFFF && r == 0)
  {
  }

  lemma Multiple(k: nat)
    ensures (0xFFFF * k) % 0xFFFF == 0
  {
  }

  /** The only 16-bit values that leave no remainder are nothing and all ones. */
  lemma FullFold(n: nat)
    requires n % 0xFFFF == 0 && n > 0
    ensures Fold(n) == 0xFFFF
  {
    var f := Fold(n);
    assert f % 0xFFFF == 0 && 0 < f < 0x1_0000;
  }

  /** Every reply verifies, whatever the identifier, sequence number and data, of odd length too. */
  lemma ReplyVerifies(echo: Echo, data: seq<Byte>)
    ensures Verifies(Reply(echo, data))
  {
    var c := Checksum(Message(ECHO_REPLY, 0, 0, echo, data));
    MessageSum(ECHO_REPLY, 0, 0, echo, data);
    MessageSum(ECHO_REPLY, 0, c, echo, data);
    ComplementFills(WordSum(Message(ECHO_REPLY, 0, 0, echo, data)));
  }

  /** Relative to a request that verified, the reply's checksum makes up for the change of type alone. */
  lemma ReplyChecksumShift(echo: Echo, data: seq<Byte>, checksum: U16)
    requires Verifies(Message(ECHO_REQUEST, 0, checksum, echo, data))
    ensures Checksum(Message(ECHO_REPLY, 0, 0, echo, data)) % 0xFFFF == (checksum + 0x0800) % 0xFFFF
  {
    var c := Checksum(Message(ECHO_REPLY, 0, 0, echo, data));
    ReplyVerifies(echo, data);
    MessageSum(ECHO_REPLY, 0, c, echo, data);
    MessageSum(ECHO_REQUEST, 0, checksum, echo, data);
    var rest := echo.id + echo.sequence + WordSum(data);
    assert (c + rest) % 0xFFFF == 0 && (0x0800 + checksum + rest) % 0xFFFF == 0;
    SameResidue(c, checksum + 0x0800, rest);
  }

  lemma SameResidue(a: nat, b: nat, rest: nat)
    requires (a + rest) % 0xFFFF == 0 && (b + rest) % 0xFFFF == 0
    ensures a % 0xFFFF == b % 0xFFFF
  {
    var p, q := (a + rest) / 0xFFFF, (b + rest) / 0xFFFF;
    assert a - b == 0xFFFF * p - 0xFFFF * q;
    if p >= q {
      ModMultiple(a, p - q);
    } else {
      ModMultiple(b, q - p);
    }
  }

  // ---- Handling one packet -----------------------------------------------------------------

  /** An echo request as the header parser recognises it: type 8, code 0, a full header. */
  predicate IsEchoRequest(payload: seq<Byte>) {
    |payload| >= 8 && payload[0] == ECHO_REQUEST && payload[1] == 0
  }

  function EchoOf(payload: seq<Byte>): Echo
    requires IsEchoRequest(payload)
  {
    Echo(FromBigEndian16(payload[4], payload[5]), FromBigEndian16(payload[6], payload[7]))
  }

  function DataOf(payload: seq<Byte>): seq<Byte>
    requires IsEchoRequest(payload)
  {
    payload[8..]
  }

  /** Every echo request is recognised, and read back as it was built. */
  lemma RequestRoundTrip(echo: Echo, data: seq<Byte>, checksum: U16)
    ensures var m := Message(8, 0, checksum, echo, data);
      IsEchoRequest(m) && EchoOf(m) == echo && DataOf(m) == data
  {
    var m := Message(8, 0, checksum, echo, data);
    assert m[4..6] == BigEndian16(echo.id) && m[6..8] == BigEndian16(echo.sequence);
    assert m[4] == m[4..6][0] && m[5] == m[4..6][1] && m[6] == m[6..8][0] && m[7] == m[6..8][1];
  }

  /** The reply to a request differs from it in its type and checksum alone, and verifies. */
  lemma ReplyMirrorsRequest(payload: seq<Byte>)
    requires IsEchoRequest(payload)
    ensures var r := Reply(EchoOf(payload), DataOf(payload));
      && |r| == |payload| && r[0] == 0 && r[1] == payload[1] && r[4..] == payload[4..]
      && Verifies(r)
  {
    var echo, data := EchoOf(payload), DataOf(payload);
    var r := Reply(echo, data);
    ReplyVerifies(echo, data);
    ReadBack(payload[4], payload[5]);
    ReadBack(payload[6], payload[7]);
    assert r[4..] == BigEndian16(echo.id) + BigEndian16(echo.sequence) + data;
    assert payload[4..] == [payload[4], payload[5]] + [payload[6], payload[7]] + payload[8..];
  }

  lemma ReadBack(hi: Byte, lo: Byte)
    ensures BigEndian16(FromBigEndian16(hi, lo)) == [hi, lo]
  {
  }

  /** How the genuine round trip over the cellular network goes. */
  datatype Probe = NoSocket | SendFailed | Unanswered | Answered

  /** Everything the netstack is asked to send back to the desktop. */
  class Outbox {
    var sent: seq<seq<Byte>>

    constructor ()
      ensures sent == []
    {
      sent := [];
    }

    method Send(message: seq<Byte>)
      modifies this
      ensures sent == old(sent) + [message]
    {
      sent := sent + [message];
    }
  }

  method ReplyToDesktop(out: Outbox, echo: Echo, data: seq<Byte>)
    modifies out
    ensures out.sent == old(out.sent) + [Reply(echo, data)]
  {
    var checksum := Checksum(Message(ECHO_REPLY, 0, 0, echo, data));
    var payload := [ECHO_REPLY, 0] + BigEndian16(checksum) + BigEndian16(echo.id) + BigEndian16(echo.sequence);
    payload := payload + data;
    out.Send(payload);
  }

  /**
   `handle_unknown`: one reply for an IPv4 echo request that the real host answered, or that could
   not be sent on for want of a socket; and otherwise nothing.
   */
  method HandleUnknown(out: Outbox, icmp: bool, fromV4: bool, toV4: bool, payload: seq<Byte>, probe: Probe)
    modifies out
    ensures icmp && fromV4 && toV4 && IsEchoRequest(payload) && (probe.Answered? || probe.NoSocket?) ==>
              out.sent == old(out.sent) + [Reply(EchoOf(payload), DataOf(payload))]
    ensures !(icmp && fromV4 && toV4 && IsEchoRequest(payload) && (probe.Answered? || probe.NoSocket?)) ==>
              out.sent == old(out.sent)
  {
    if !icmp || !fromV4 || !toV4 {
      return;
    }
    if !IsEchoRequest(payload) {
      return;
    }
    var echo, data := EchoOf(payload), DataOf(payload);
    match probe
    case NoSocket => ReplyToDesktop(out, echo, data);
    case Answered => ReplyToDesktop(out, echo, data);
    case SendFailed => return;
    case Unanswered => return;
  }
}
