/**
 The usbmux client (win/src/usbmux.rs): length-prefixed property-list messages on a stream that
 turns into a raw pipe once a Connect request is granted. How a property list becomes bytes is not
 part of this model: `encode` and `decode` stand for the library's writer and reader.
 */
module Usbmux {
  import opened Bytes
  import opened Streams

  const HEADER_LEN: nat := 16
  const VERSION_PLIST: U32 := 1
  const MSG_PLIST: U32 := 8

  // ---- Framing -----------------------------------------------------------------------------

  /** The length field: 32-bit arithmetic, wrapping as a release build does. */
  function LengthField(body: seq<Byte>): U32 {
    (HEADER_LEN + |body| % 0x1_0000_0000) % 0x1_0000_0000
  }

  function Message(tag: U32, body: seq<Byte>): seq<Byte> {
    LittleEndian32(LengthField(body)) + LittleEndian32(VERSION_PLIST) + LittleEndian32(MSG_PLIST)
    + LittleEndian32(tag) + body
  }

  /** What reading one message off `s` gives: an error, or its body and the bytes left behind it. */
  function Receive(s: seq<Byte>): Result<(seq<Byte>, seq<Byte>), IoError> {
    if |s| < HEADER_LEN then Err(UnexpectedEof)
    else
      var length := FromLittleEndian32(s[..4]);
      if length < HEADER_LEN then Err(InvalidData)
      else if |s| < length then Err(UnexpectedEof)
      else Ok((s[HEADER_LEN..length], s[length..]))
  }

  /** A message is received whole, leaving exactly what follows it, just when its length fits 32 bits. */
  lemma ReceivesExactly(tag: U32, body: seq<Byte>, raw: seq<Byte>)
    ensures Receive(Message(tag, body) + raw) == Ok((body, raw)) <==> HEADER_LEN + |body| < 0x1_0000_0000
  {
    var s := Message(tag, body) + raw;
    assert s[..4] == LittleEndian32(LengthField(body));
    LittleEndian32RoundTrip(LengthField(body));
    if HEADER_LEN + |body| < 0x1_0000_0000 {
      assert LengthField(body) == HEADER_LEN + |body|;
      assert s[HEADER_LEN..HEADER_LEN + |body|] == body;
      assert s[HEADER_LEN + |body|..] == raw;
    }
  }

  /** The four header fields in their places: the whole length, version 1, message 8 and the tag. */
  lemma HeaderFields(tag: U32, body: seq<Byte>)
    requires 16 + |body| < 0x1_0000_0000
    ensures var m := Message(tag, body);
      && |m| == 16 + |body| && m[16..] == body
      && FromLittleEndian32(m[0..4]) == 16 + |body| && FromLittleEndian32(m[4..8]) == 1
      && FromLittleEndian32(m[8..12]) == 8 && FromLittleEndian32(m[12..16]) == tag
  {
    var m := Message(tag, body);
    assert m[0..4] == LittleEndian32(LengthField(body)) && m[4..8] == LittleEndian32(VERSION_PLIST);
    assert m[8..12] == LittleEndian32(MSG_PLIST) && m[12..16] == LittleEndian32(tag);
    LittleEndian32RoundTrip(LengthField(body));
    LittleEndian32RoundTrip(VERSION_PLIST);
    LittleEndian32RoundTrip(MSG_PLIST);
    LittleEndian32RoundTrip(tag);
  }

  function Messages(ms: seq<(U32, seq<Byte>)>): seq<Byte> {
    if ms == [] then [] else Message(ms[0].0, ms[0].1) + Messages(ms[1..])
  }

  function Bodies(ms: seq<(U32, seq<Byte>)>): seq<seq<Byte>> {
    if ms == [] then [] else [ms[0].1] + Bodies(ms[1..])
  }

  /** `k` messages in a row. */
  function ReceiveMany(s: seq<Byte>, k: nat): Result<(seq<seq<Byte>>, seq<Byte>), IoError> {
    if k == 0 then Ok(([], s))
    else
      match Receive(s)
      case Err(e) => Err(e)
      case Ok((body, left)) =>
        match ReceiveMany(left, k - 1)
        case Err(e) => Err(e)
        case Ok((bodies, rest)) => Ok(([body] + bodies, rest))
  }

  /** Any number of messages, then anything at all: the bodies come out and the rest is untouched. */
  lemma {:induction false} HandsOverRawBytes(ms: seq<(U32, seq<Byte>)>, raw: seq<Byte>)
    requires forall i :: 0 <= i < |ms| ==> HEADER_LEN + |ms[i].1| < 0x1_0000_0000
    ensures ReceiveMany(Messages(ms) + raw, |ms|) == Ok((Bodies(ms), raw))
  {
    if ms == [] {
      assert Messages(ms) + raw == raw;
    } else {
      Assoc(Message(ms[0].0, ms[0].1), Messages(ms[1..]), raw);
      ReceivesExactly(ms[0].0, ms[0].1, Messages(ms[1..]) + raw);
      HandsOverRawBytes(ms[1..], raw);
    }
  }

  /** `send_plist` after encoding: the header's four fields, then the body. */
  method SendPlist(w: ByteSink, tag: U32, body: seq<Byte>) returns (r: Result<(), IoError>)
    requires w.Valid()
    modifies w
    ensures w.Valid() && w.written == Clip(old(w.written) + Message(tag, body), w.limit)
    ensures r == if Fits(old(w.written) + Message(tag, body), w.limit) then Ok(()) else Err(BrokenPipe)
  {
    var header := LittleEndian32(LengthField(body)) + LittleEndian32(VERSION_PLIST) + LittleEndian32(MSG_PLIST)
      + LittleEndian32(tag);
    assert (w.written + header) + body == w.written + Message(tag, body);
    r := w.WriteAll(header);
    if r.Ok? {
      r := w.WriteAll(body);
    }
  }

  /** `recv_plist` before decoding: the body, and nothing of the stream beyond it. */
  method RecvBody(s: ByteSource) returns (r: Result<seq<Byte>, IoError>)
    modifies s
    ensures r.Ok? ==> Receive(old(s.unread)) == Ok((r.value, s.unread))
    ensures r.Err? ==> Receive(old(s.unread)) == Err(r.error)
  {
    ghost var was := s.unread;
    var header := s.ReadExact(HEADER_LEN);
    if header.Err? {
      return Err(header.error);
    }
    assert header.value[..4] == was[..4];
    var length := FromLittleEndian32(header.value[..4]);
    if length < HEADER_LEN {
      return Err(InvalidData);
    }
    r := s.ReadExact(length - HEADER_LEN);
    if r.Ok? {
      CutDrop(was, HEADER_LEN, length);
    }
  }

  // ---- Property lists ----------------------------------------------------------------------

  type U64 = x: int | 0 <= x < 0x1_0000_0000_0000_0000

  datatype Value =
    | Dict(entries: map<string, Value>)
    | Array(items: seq<Value>)
    | Text(text: string)
    | Unsigned(n: U64)
    | Signed(i: int)
    | Other

  function Get(v: Value, key: string): Option<Value> {
    if v.Dict? && key in v.entries then Some(v.entries[key]) else None
  }

  /** An integer value that fits 64 unsigned bits. */
  function AsU64(v: Option<Value>): Option<U64> {
    match v
    case Some(Unsigned(n)) => Some(n)
    case Some(Signed(i)) => if 0 <= i < 0x1_0000_0000_0000_0000 then Some(i) else None
    case _ => None
  }

  function TextOr(v: Option<Value>, default: string): string {
    if v.Some? && v.value.Text? then v.value.text else default
  }

  datatype DeviceInfo = DeviceInfo(id: U64, serial: string)

  /** The device an entry of the list describes, if it is attached by USB and has an id. */
  function UsbDevice(item: Value): Option<DeviceInfo> {
    var props := Get(item, "Properties");
    if props.None? || !props.value.Dict? then None
    else if TextOr(Get(props.value, "ConnectionType"), "") != "USB" then None
    else
      var id := AsU64(Get(props.value, "DeviceID"));
      if id.None? then None else Some(DeviceInfo(id.value, TextOr(Get(props.value, "SerialNumber"), "")))
  }

  /** The device an entry adds to the list, if any. */
  function Listing(item: Value): seq<DeviceInfo> {
    if UsbDevice(item).Some? then [UsbDevice(item).value] else []
  }

  /** Exactly: a dictionary of properties attached by USB, with an id that fits 64 unsigned bits. */
  lemma UsbDeviceExactly(item: Value, d: DeviceInfo)
    ensures UsbDevice(item) == Some(d) <==>
            && item.Dict? && "Properties" in item.entries && item.entries["Properties"].Dict?
            && var p := item.entries["Properties"].entries;
               && "ConnectionType" in p && p["ConnectionType"] == Text("USB")
               && "DeviceID" in p && (p["DeviceID"] == Unsigned(d.id) || p["DeviceID"] == Signed(d.id))
               && d.serial == (if "SerialNumber" in p && p["SerialNumber"].Text? then p["SerialNumber"].text else "")
  {
    if item.Dict? && "Properties" in item.entries && item.entries["Properties"].Dict? {
      assert "USB" != "";
    }
  }

  /** The USB devices of a list, in its order. */
  function UsbDevices(items: seq<Value>): seq<DeviceInfo> {
    if items == [] then [] else Listing(items[0]) + UsbDevices(items[1..])
  }

  lemma {:induction false} UsbDevicesSnoc(items: seq<Value>, item: Value)
    ensures UsbDevices(items + [item]) == UsbDevices(items) + Listing(item)
  {
    if items == [] {
      assert [] + [item] == [item];
    } else {
      assert (items + [item])[1..] == items[1..] + [item];
      UsbDevicesSnoc(items[1..], item);
      Assoc(Listing(items[0]), UsbDevices(items[1..]), Listing(item));
    }
  }

  /** A device is listed exactly when some entry describes it as attached by USB. */
  lemma {:induction false} ListedExactly(items: seq<Value>, d: DeviceInfo)
    ensures d in UsbDevices(items) <==> exists i :: 0 <= i < |items| && UsbDevice(items[i]) == Some(d)
  {
    if items != [] {
      ListedExactly(items[1..], d);
      if i :| 0 <= i < |items[1..]| && UsbDevice(items[1..][i]) == Some(d) {
        assert UsbDevice(items[i + 1]) == Some(d);
      }
      if i :| 0 < i < |items| && UsbDevice(items[i]) == Some(d) {
        assert UsbDevice(items[1..][i - 1]) == Some(d);
      }
    }
  }

  /** The first device of the list is that of the first entry describing one, and there is none without an entry. */
  lemma {:induction false} FirstListed(items: seq<Value>)
    ensures if |UsbDevices(items)| == 0 then forall i :: 0 <= i < |items| ==> UsbDevice(items[i]).None?
            else exists i :: 0 <= i < |items| && UsbDevice(items[i]) == Some(UsbDevices(items)[0])
                             && forall j :: 0 <= j < i ==> UsbDevice(items[j]).None?
  {
    if |items| > 0 {
      FirstListed(items[1..]);
      if UsbDevice(items[0]).None? {
        assert UsbDevices(items) == UsbDevices(items[1..]);
        if |UsbDevices(items)| > 0 {
          var i :| 0 <= i < |items[1..]| && UsbDevice(items[1..][i]) == Some(UsbDevices(items)[0])
            && forall j :: 0 <= j < i ==> UsbDevice(items[1..][j]).None?;
          assert UsbDevice(items[i + 1]) == Some(UsbDevices(items)[0]);
          forall j | 0 <= j < i + 1 ensures UsbDevice(items[j]).None? {
            assert j > 0 ==> items[1..][j - 1] == items[j];
          }
        } else {
          forall i | 0 <= i < |items| ensures UsbDevice(items[i]).None? {
            assert i > 0 ==> items[1..][i - 1] == items[i];
          }
        }
      } else {
        assert UsbDevice(items[0]) == Some(UsbDevices(items)[0]);
      }
    }
  }

  method ParseDeviceList(resp: Value) returns (out: seq<DeviceInfo>)
    ensures var list := Get(resp, "DeviceList");
      out == if list.Some? && list.value.Array? then UsbDevices(list.value.items) else []
  {
    out := [];
    var list := Get(resp, "DeviceList");
    if list.None? || !list.value.Array? {
      return;
    }
    var items := list.value.items;
    for i := 0 to |items|
      invariant out == UsbDevices(items[..i])
    {
      var item := items[i];
      assert items[..i + 1] == items[..i] + [item];
      UsbDevicesSnoc(items[..i], item);
      var props := Get(item, "Properties");
      if props.None? || !props.value.Dict? {
        continue;
      }
      if TextOr(Get(props.value, "ConnectionType"), "") != "USB" {
        continue;
      }
      var id := AsU64(Get(props.value, "DeviceID"));
      if id.None? {
        continue;
      }
      out := out + [DeviceInfo(id.value, TextOr(Get(props.value, "SerialNumber"), ""))];
    }
    assert items[..|items|] == items;
  }

  // ---- Connecting --------------------------------------------------------------------------

  /** The port in network byte order, as the service expects it in an integer. */
  function PortNetworkOrder(port: U16): (swapped: U16) {
    port % 256 * 256 + port / 256
  }

  /** Swapping puts the big-endian bytes in little-endian place, and swapping twice does nothing. */
  lemma PortSwap(port: U16)
    ensures PortNetworkOrder(PortNetworkOrder(port)) == port
    ensures FromBigEndian16(BigEndian16(port)[1], BigEndian16(port)[0]) == PortNetworkOrder(port)
  {
    assert (port % 256 * 256 + port / 256) / 256 == port % 256;
    assert (port % 256 * 256 + port / 256) % 256 == port / 256;
  }

  function BaseMessage(messageType: string): map<string, Value> {
    map["MessageType" := Text(messageType), "ClientVersionString" := Text("rickynet-usbmux 0.1"),
        "ProgName" := Text("RickyNet"), "kLibUSBMuxVersion" := Unsigned(3)]
  }

  function ConnectRequest(id: U64, port: U16): Value {
    Dict(BaseMessage("Connect")["DeviceID" := Unsigned(id)]["PortNumber" := Unsigned(PortNetworkOrder(port))])
  }

  /** What the service is told: a connection to this device, its port in network byte order. */
  lemma ConnectRequestFields(id: U64, port: U16)
    ensures var r := ConnectRequest(id, port);
      && Get(r, "MessageType") == Some(Text("Connect")) && Get(r, "DeviceID") == Some(Unsigned(id))
      && Get(r, "PortNumber") == Some(Unsigned(256 * (port % 256) + port / 256))
      && Get(r, "ClientVersionString") == Some(Text("rickynet-usbmux 0.1"))
      && Get(r, "ProgName") == Some(Text("RickyNet")) && Get(r, "kLibUSBMuxVersion") == Some(Unsigned(3))
    ensures PortNetworkOrder(5555) == 45845 && PortNetworkOrder(22) == 5632
  {
  }

  /** Exactly: the reply is a dictionary whose Number is zero, signed or not. */
  lemma GrantedExactly(reply: Value)
    ensures Granted(reply) <==>
            && reply.Dict? && "Number" in reply.entries
            && (reply.entries["Number"] == Unsigned(0) || reply.entries["Number"] == Signed(0))
  {
  }

  /** Did the service grant the connection? */
  predicate Granted(reply: Value) {
    AsU64(Get(reply, "Number")) == Some(0)
  }

  /**
   `connect_device` on a fresh connection to the service. Granted, the stream is a raw pipe: one
   Connect request has been written, one reply consumed, and the next byte is the device's first.
   */
  method ConnectDevice(s: ByteSource, w: ByteSink, id: U64, port: U16,
                       encode: Value -> seq<Byte>, decode: seq<Byte> -> Option<Value>)
    returns (r: Result<(), IoError>)
    requires w.Valid() && w.written == []
    modifies s, w
    ensures var request := Message(2, encode(ConnectRequest(id, port)));
      && w.written == Clip(request, w.limit)
      && (w.written != request ==> r == Err(BrokenPipe) && s.unread == old(s.unread))
      && (w.written == request ==>
            match Receive(old(s.unread))
            case Err(e) => r == Err(e)
            case Ok((body, left)) =>
              && s.unread == left
              && r == match decode(body)
                      case None => Err(InvalidData)
                      case Some(reply) => if Granted(reply) then Ok(()) else Err(Refused))
  {
    var request := Message(2, encode(ConnectRequest(id, port)));
    assert [] + request == request;
    var sent := SendPlist(w, 2, encode(ConnectRequest(id, port)));
    if sent.Err? {
      return Err(sent.error);
    }
    var body := RecvBody(s);
    if body.Err? {
      return Err(body.error);
    }
    var reply := decode(body.value);
    if reply.None? {
      return Err(InvalidData);
    }
    var number := AsU64(Get(reply.value, "Number"));
    if number != Some(0) {
      return Err(Refused);
    }
    r := Ok(());
  }

  /** `connect_first_device`: the first USB device of the list, or nothing to connect to. */
  method FirstDevice(resp: Value) returns (r: Result<DeviceInfo, IoError>)
    ensures var list := Get(resp, "DeviceList");
      var devices := if list.Some? && list.value.Array? then UsbDevices(list.value.items) else [];
      r == if devices == [] then Err(NotFound) else Ok(devices[0])
  {
    var devices := ParseDeviceList(resp);
    r := if devices == [] then Err(NotFound) else Ok(devices[0]);
  }
}
