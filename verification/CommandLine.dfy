/**
 The command line of the Windows client: parsing it (win/src/args.rs), and passing it on when the
 program restarts itself elevated (win/src/elevation.rs).
 */
module CommandLine {
  import opened Bytes

  // ---- Parsing -----------------------------------------------------------------------------

  datatype Transport = Usb | Wifi

  datatype Args = Args(transport: Transport, phoneIp: Option<string>, port: U16, headless: bool, adapterName: string)

  const DEFAULTS := Args(Usb, None, 27600, false, "RickyNet")

  datatype ArgError =
    | MissingValue(option: string) | UnknownTransport(value: string) | InvalidPort(value: string)
    | UnknownArgument(arg: string) | WifiNeedsPhoneIp

  /** Help was asked for, or the arguments are these. */
  datatype Parsed = Help | Run(args: Args)

  function LowerChar(c: char): char {
    if 'A' <= c <= 'Z' then c - 'A' + 'a' else c
  }

  function Lower(s: string): string {
    if s == [] then [] else [LowerChar(s[0])] + Lower(s[1..])
  }

  function TransportNamed(v: string): Option<Transport> {
    if Lower(v) == "usb" then Some(Usb)
    else if Lower(v) == "wifi" || Lower(v) == "wi-fi" then Some(Wifi)
    else None
  }

  predicate IsDigit(c: char) {
    '0' <= c <= '9'
  }

  /** The number the digits `s` stand for, continuing from `n`, if they are digits. */
  function Digits(s: string, n: nat): Option<nat> {
    if s == [] then Some(n)
    else if IsDigit(s[0]) then Digits(s[1..], 10 * n + (s[0] - '0') as int)
    else None
  }

  /** A decimal 16-bit number, with an optional plus sign. */
  function PortNumber(v: string): Option<U16> {
    var digits := if v != [] && v[0] == '+' then v[1..] else v;
    if digits == [] then None
    else
      var n := Digits(digits, 0);
      if n.Some? && n.value < 0x1_0000 then Some(n.value) else None
  }

  predicate TakesValue(option: string) {
    option == "--transport" || option == "--phone-ip" || option == "--port" || option == "--adapter-name"
  }

  /** The arguments after one option with its value. */
  function Set(args: Args, option: string, v: string): Result<Args, ArgError>
    requires TakesValue(option)
  {
    if option == "--transport" then
      var t := TransportNamed(v);
      if t.None? then Err(UnknownTransport(Lower(v))) else Ok(args.(transport := t.value))
    else if option == "--phone-ip" then Ok(args.(phoneIp := Some(v)))
    else if option == "--port" then
      var p := PortNumber(v);
      if p.None? then Err(InvalidPort(v)) else Ok(args.(port := p.value))
    else Ok(args.(adapterName := v))
  }

  /** The effect of the argument list `xs` on `args`, before the final check. */
  function Scan(args: Args, xs: seq<string>): Result<Parsed, ArgError>
    decreases |xs|
  {
    if xs == [] then Ok(Run(args))
    else if xs[0] == "-h" || xs[0] == "--help" then Ok(Help)
    else if xs[0] == "--headless" then Scan(args.(headless := true), xs[1..])
    else if !TakesValue(xs[0]) then Err(UnknownArgument(xs[0]))
    else if |xs| == 1 then Err(MissingValue(xs[0]))
    else
      var next := Set(args, xs[0], xs[1]);
      if next.Err? then Err(next.error) else Scan(next.value, xs[2..])
  }

  /** A Wi-Fi connection needs the phone's address. */
  function Checked(r: Result<Parsed, ArgError>): (c: Result<Parsed, ArgError>)
    ensures c.Ok? && c.value.Run? && c.value.args.transport == Wifi ==> c.value.args.phoneIp.Some?
  {
    if r.Ok? && r.value.Run? && r.value.args.transport == Wifi && r.value.args.phoneIp.None?
    then Err(WifiNeedsPhoneIp) else r
  }

  /** What the program takes its arguments to be, its own name first. */
  function Understood(argv: seq<string>): Result<Parsed, ArgError> {
    Checked(Scan(DEFAULTS, if argv == [] then [] else argv[1..]))
  }

  /** `parse`, on the arguments that follow the program's own name. */
  method Parse(argv: seq<string>) returns (r: Result<Parsed, ArgError>)
    ensures r == Understood(argv)
    ensures r.Ok? && r.value.Run? && r.value.args.transport == Wifi ==> r.value.args.phoneIp.Some?
  {
    var xs := if argv == [] then [] else argv[1..];
    var args := DEFAULTS;
    var i := 0;
    while i < |xs|
      invariant i <= |xs|
      invariant Scan(DEFAULTS, xs) == Scan(args, xs[i..])
    {
      var a := xs[i];
      if a == "-h" || a == "--help" {
        return Ok(Help);
      } else if a == "--headless" {
        args := args.(headless := true);
        i := i + 1;
      } else if TakesValue(a) {
        if i + 1 == |xs| {
          return Err(MissingValue(a));
        }
        var next := Set(args, a, xs[i + 1]);
        if next.Err? {
          return Err(next.error);
        }
        args := next.value;
        i := i + 2;
      } else {
        return Err(UnknownArgument(a));
      }
    }
    if args.transport == Wifi && args.phoneIp.None? {
      return Err(WifiNeedsPhoneIp);
    }
    r := Ok(Run(args));
  }

  /** An option as the user means it. */
  datatype Setting =
    | Headless | LinkOver(text: string) | PhoneAt(ip: string) | PortIs(text: string) | AdapterNamed(name: string)

  predicate Meaningful(o: Setting) {
    && (o.LinkOver? ==> TransportNamed(o.text).Some?)
    && (o.PortIs? ==> PortNumber(o.text).Some?)
  }

  function Spelt(o: Setting): seq<string> {
    match o
    case Headless => ["--headless"]
    case LinkOver(text) => ["--transport", text]
    case PhoneAt(ip) => ["--phone-ip", ip]
    case PortIs(text) => ["--port", text]
    case AdapterNamed(name) => ["--adapter-name", name]
  }

  function SpeltAll(os: seq<Setting>): seq<string> {
    if os == [] then [] else Spelt(os[0]) + SpeltAll(os[1..])
  }

  /** The last of the options that satisfies `p`, if any does. */
  function LastOf(os: seq<Setting>, p: Setting -> bool): (r: Option<Setting>)
    ensures r.Some? ==> p(r.value) && r.value in os
  {
    if os == [] then None
    else if p(os[|os| - 1]) then Some(os[|os| - 1])
    else LastOf(os[..|os| - 1], p)
  }

  /** What a list of options means: for each setting, the last word on it. */
  function Meaning(os: seq<Setting>): Args
    requires forall o :: o in os ==> Meaningful(o)
  {
    var transport := LastOf(os, (o: Setting) => o.LinkOver?);
    var ip := LastOf(os, (o: Setting) => o.PhoneAt?);
    var port := LastOf(os, (o: Setting) => o.PortIs?);
    var name := LastOf(os, (o: Setting) => o.AdapterNamed?);
    assert port.Some? ==> port.value.PortIs? && Meaningful(port.value);
    assert transport.Some? ==> transport.value.LinkOver? && Meaningful(transport.value);
    Args(if transport.Some? then TransportNamed(transport.value.text).value else DEFAULTS.transport,
         if ip.Some? then Some(ip.value.ip) else DEFAULTS.phoneIp,
         if port.Some? then PortNumber(port.value.text).value else DEFAULTS.port,
         LastOf(os, (o: Setting) => o.Headless?).Some?,
         if name.Some? then name.value.name else DEFAULTS.adapterName)
  }

  lemma SpeltSnoc(os: seq<Setting>, o: Setting)
    ensures SpeltAll(os + [o]) == SpeltAll(os) + Spelt(o)
  {
    if os == [] {
      assert [] + [o] == [o];
      assert SpeltAll([o]) == Spelt(o) + SpeltAll([]);
    } else {
      assert (os + [o])[1..] == os[1..] + [o];
      SpeltSnoc(os[1..], o);
      Assoc(Spelt(os[0]), SpeltAll(os[1..]), Spelt(o));
    }
  }

  /** Scanning one more option at the end only changes what that option sets. */
  lemma {:induction false} ScanMore(args: Args, xs: seq<string>, ys: seq<string>)
    requires Scan(args, xs).Ok? && Scan(args, xs).value.Run?
    ensures Scan(args, xs + ys) == Scan(Scan(args, xs).value.args, ys)
    decreases |xs|
  {
    if xs == [] {
      assert xs + ys == ys;
    } else if xs[0] == "--headless" {
      assert (xs + ys)[1..] == xs[1..] + ys;
      ScanMore(args.(headless := true), xs[1..], ys);
    } else {
      assert (xs + ys)[2..] == xs[2..] + ys;
      ScanMore(Set(args, xs[0], xs[1]).value, xs[2..], ys);
    }
  }

  /** Every list of well-formed options is parsed to what it means, the last occurrence winning. */
  lemma {:induction false} ParsesMeaning(os: seq<Setting>)
    requires forall o :: o in os ==> Meaningful(o)
    ensures Scan(DEFAULTS, SpeltAll(os)) == Ok(Run(Meaning(os)))
  {
    if os != [] {
      var before, o := os[..|os| - 1], os[|os| - 1];
      assert os == before + [o];
      ParsesMeaning(before);
      SpeltSnoc(before, o);
      ScanMore(DEFAULTS, SpeltAll(before), Spelt(o));
      ScanOne(Meaning(before), o);
      MeaningMore(before, o);
    }
  }

  /** `args` after the user's last word `o`. */
  function Overridden(args: Args, o: Setting): Args
    requires Meaningful(o)
  {
    match o
    case Headless => args.(headless := true)
    case LinkOver(text) => args.(transport := TransportNamed(text).value)
    case PhoneAt(ip) => args.(phoneIp := Some(ip))
    case PortIs(text) => args.(port := PortNumber(text).value)
    case AdapterNamed(name) => args.(adapterName := name)
  }

  lemma MeaningMore(os: seq<Setting>, o: Setting)
    requires Meaningful(o) && forall x :: x in os ==> Meaningful(x)
    ensures Meaning(os + [o]) == Overridden(Meaning(os), o)
  {
    assert (os + [o])[..|os|] == os;
  }

  /** The effect of one spelt option. */
  lemma ScanOne(args: Args, o: Setting)
    requires Meaningful(o)
    ensures Scan(args, Spelt(o)) == Ok(Run(Overridden(args, o)))
  {
    if !o.Headless? {
      assert Spelt(o)[2..] == [];
    } else {
      assert Spelt(o)[1..] == [];
    }
  }

  /** The options an argument list spells, if scanning it ends well. */
  function Read(args: Args, xs: seq<string>): (os: seq<Setting>)
    requires Scan(args, xs).Ok? && Scan(args, xs).value.Run?
    ensures SpeltAll(os) == xs && forall o :: o in os ==> Meaningful(o)
    decreases |xs|
  {
    if xs == [] then []
    else if xs[0] == "--headless" then
      assert xs == Spelt(Headless) + xs[1..];
      [Headless] + Read(args.(headless := true), xs[1..])
    else
      var o := Worded(xs[0], xs[1]);
      assert xs == Spelt(o) + xs[2..];
      [o] + Read(Set(args, xs[0], xs[1]).value, xs[2..])
  }

  /** The option with this name and value. */
  function Worded(name: string, v: string): (o: Setting)
    requires TakesValue(name)
    ensures Spelt(o) == [name, v]
    ensures Meaningful(o) <==> Set(DEFAULTS, name, v).Ok?
  {
    if name == "--transport" then LinkOver(v)
    else if name == "--phone-ip" then PhoneAt(v)
    else if name == "--port" then PortIs(v)
    else AdapterNamed(v)
  }

  /** Do these options spell the list and mean `args`? */
  ghost predicate Says(os: seq<Setting>, xs: seq<string>, args: Args) {
    && (forall o :: o in os ==> Meaningful(o))
    && SpeltAll(os) == xs && Meaning(os) == args
  }

  /** Exactly: a list is scanned to `args` if and only if it spells options that mean `args`. */
  lemma ScansExactly(xs: seq<string>, args: Args)
    ensures Scan(DEFAULTS, xs) == Ok(Run(args)) <==> exists os :: Says(os, xs, args)
  {
    if Scan(DEFAULTS, xs) == Ok(Run(args)) {
      var os := Read(DEFAULTS, xs);
      ParsesMeaning(os);
      assert Says(os, xs, args);
    }
    if os :| Says(os, xs, args) {
      ParsesMeaning(os);
    }
  }

  /** Exactly: a command line is accepted as `args` if and only if it spells options that mean them. */
  lemma UnderstoodExactly(argv: seq<string>, args: Args)
    requires argv != []
    ensures Understood(argv) == Ok(Run(args)) <==>
            (args.transport == Wifi ==> args.phoneIp.Some?) && exists os :: Says(os, argv[1..], args)
  {
    ScansExactly(argv[1..], args);
  }

  /** With no options at all: over USB, on port 27600, with a window. */
  lemma DefaultsAre(name: string)
    ensures Understood([name]) == Ok(Run(Args(Usb, None, 27600, false, "RickyNet")))
  {
  }

  // ---- The settings with a syntax of their own ---------------------------------------------

  /** One digit of a decimal number. */
  function DigitChar(d: nat): char
    requires d < 10
  {
    "0123456789"[d]
  }

  /** The decimal notation of a number, as one writes it. */
  function Decimal(n: nat): (s: string)
    ensures |s| > 0
  {
    (if n < 10 then [] else Decimal(n / 10)) + [DigitChar(n % 10)]
  }

  function Zeros(n: nat): (s: string)
    ensures |s| == n && forall i :: 0 <= i < n ==> s[i] == '0'
  {
    seq(n, _ => '0')
  }

  /** With leading zeros, and perhaps a plus sign. */
  function Numeral(plus: bool, zeros: nat, n: nat): string {
    (if plus then ['+'] else []) + (Zeros(zeros) + Decimal(n))
  }

  lemma DigitCharIs(d: nat)
    requires d < 10
    ensures IsDigit(DigitChar(d)) && (DigitChar(d) - '0') as int == d
  {
  }

  lemma {:induction false} DigitsSnoc(s: string, c: char, n: nat)
    requires Digits(s, n).Some?
    ensures Digits(s + [c], n) == if IsDigit(c) then Some(10 * Digits(s, n).value + (c - '0') as int) else None
    decreases |s|
  {
    if |s| > 0 {
      assert (s + [c])[1..] == s[1..] + [c];
      DigitsSnoc(s[1..], c, 10 * n + (s[0] - '0') as int);
    } else {
      assert s + [c] == [c];
      assert |[c][1..]| == 0;
    }
  }

  lemma {:induction false} ZerosRead(zeros: nat)
    ensures Digits(Zeros(zeros), 0) == Some(0)
  {
    if zeros > 0 {
      var shorter := Zeros(zeros - 1);
      ZerosRead(zeros - 1);
      DigitsSnoc(shorter, '0', 0);
      assert Zeros(zeros) == shorter + ['0'];
    }
  }

  lemma {:induction false} DecimalReads(zeros: string, n: nat)
    requires Digits(zeros, 0) == Some(0)
    ensures Digits(zeros + Decimal(n), 0) == Some(n)
  {
    DigitCharIs(n % 10);
    if n < 10 {
      DigitsSnoc(zeros, DigitChar(n), 0);
      assert Decimal(n) == [DigitChar(n)];
    } else {
      DecimalReads(zeros, n / 10);
      DigitsSnoc(zeros + Decimal(n / 10), DigitChar(n % 10), 0);
      Assoc(zeros, Decimal(n / 10), [DigitChar(n % 10)]);
    }
  }

  /** Any digits are the decimal notation of the number they are read as, behind some zeros. */
  lemma {:induction false} DigitsAreDecimal(s: string, n: nat) returns (zeros: nat)
    requires |s| > 0 && Digits(s, 0) == Some(n)
    ensures s == Zeros(zeros) + Decimal(n)
    decreases |s|
  {
    var t, c := s[..|s| - 1], s[|s| - 1];
    assert s == t + [c];
    DigitsFront(t, c, 0);
    DigitsSnoc(t, c, 0);
    if |t| == 0 {
      zeros := 0;
      OneDigit(c, n);
      assert s == [c] == Zeros(0) + [c];
    } else {
      var m := Digits(t, 0).value;
      var before := DigitsAreDecimal(t, m);
      zeros := if m == 0 then before + 1 else before;
      OneMoreDigit(t, before, m, c, n);
    }
  }

  lemma OneDigit(c: char, n: nat)
    requires IsDigit(c) && n == (c - '0') as int
    ensures Decimal(n) == [c]
  {
    DigitCharIs(n);
  }

  lemma OneMoreDigit(t: string, zeros: nat, m: nat, c: char, n: nat)
    requires t == Zeros(zeros) + Decimal(m) && IsDigit(c) && n == 10 * m + (c - '0') as int
    ensures t + [c] == Zeros(if m == 0 then zeros + 1 else zeros) + Decimal(n)
  {
    OneDigit(c, (c - '0') as int);
    if m == 0 {
      OneDigit('0', 0);
      assert t == Zeros(zeros + 1);
    } else {
      assert n / 10 == m && n % 10 == (c - '0') as int;
      DigitCharIs(n % 10);
      assert DigitChar(n % 10) == c;
      Assoc(Zeros(zeros), Decimal(m), [c]);
    }
  }

  /** If digits are read, so are those at the front. */
  lemma {:induction false} DigitsFront(s: string, c: char, n: nat)
    requires Digits(s + [c], n).Some?
    ensures Digits(s, n).Some? && IsDigit(c)
    decreases |s|
  {
    if |s| > 0 {
      assert (s + [c])[1..] == s[1..] + [c];
      DigitsFront(s[1..], c, 10 * n + (s[0] - '0') as int);
    } else {
      assert s + [c] == [c];
    }
  }

  /** Exactly the decimal numbers up to 65535 are port numbers, leading zeros and a plus sign included. */
  lemma PortsExactly(v: string, n: nat)
    ensures PortNumber(v) == Some(n) <==> n < 65536 && exists plus, zeros :: v == Numeral(plus, zeros, n)
  {
    if plus, zeros :| n < 65536 && v == Numeral(plus, zeros, n) {
      NumeralReads(plus, zeros, n);
    }
    if PortNumber(v) == Some(n) {
      var plus := v[0] == '+';
      var digits := if plus then v[1..] else v;
      var zeros := DigitsAreDecimal(digits, n);
      assert v == Numeral(plus, zeros, n);
    }
  }

  lemma NumeralReads(plus: bool, zeros: nat, n: nat)
    ensures PortNumber(Numeral(plus, zeros, n)) == if n < 65536 then Some(n) else None
  {
    var digits := Zeros(zeros) + Decimal(n);
    ZerosRead(zeros);
    DecimalReads(Zeros(zeros), n);
    FirstIsDigit(digits, 0);
    if plus {
      assert (['+'] + digits)[1..] == digits;
    } else {
      assert Numeral(plus, zeros, n) == digits;
    }
  }

  lemma FirstIsDigit(s: string, n: nat)
    requires |s| > 0 && Digits(s, n).Some?
    ensures s[0] != '+'
  {
  }

  lemma {:induction false} LowerAt(s: string, i: nat)
    requires i < |s|
    ensures |Lower(s)| == |s| && Lower(s)[i] == LowerChar(s[i])
  {
    if i > 0 {
      LowerAt(s[1..], i - 1);
    } else if |s| > 1 {
      LowerAt(s[1..], 0);
    }
  }

  predicate Either(c: char, lower: char, upper: char) {
    c == lower || c == upper
  }

  /** The transports by name, in any letter case. */
  lemma TransportsExactly(v: string)
    ensures TransportNamed(v) == Some(Usb) <==>
            |v| == 3 && Either(v[0], 'u', 'U') && Either(v[1], 's', 'S') && Either(v[2], 'b', 'B')
    ensures TransportNamed(v) == Some(Wifi) <==>
            || (&& |v| == 4 && Either(v[0], 'w', 'W') && Either(v[1], 'i', 'I')
                && Either(v[2], 'f', 'F') && Either(v[3], 'i', 'I'))
            || (&& |v| == 5 && Either(v[0], 'w', 'W') && Either(v[1], 'i', 'I') && v[2] == '-'
                && Either(v[3], 'f', 'F') && Either(v[4], 'i', 'I'))
  {
    forall i | 0 <= i < |v|
      ensures |Lower(v)| == |v| && Lower(v)[i] == LowerChar(v[i])
    {
      LowerAt(v, i);
    }
    if |v| == 3 {
      assert Lower(v) == [Lower(v)[0], Lower(v)[1], Lower(v)[2]];
    } else if |v| == 4 {
      assert Lower(v) == [Lower(v)[0], Lower(v)[1], Lower(v)[2], Lower(v)[3]];
    } else if |v| == 5 {
      assert Lower(v) == [Lower(v)[0], Lower(v)[1], Lower(v)[2], Lower(v)[3], Lower(v)[4]];
    }
  }

  // ---- Where a command line is not accepted ------------------------------------------------

  /** What is wrong with the first word of `more`, or its value. */
  function Fault(more: seq<string>): Option<ArgError>
    requires |more| > 0
  {
    if more[0] == "-h" || more[0] == "--help" || more[0] == "--headless" then None
    else if more[0] == "--transport" then
      if |more| == 1 then Some(MissingValue("--transport"))
      else if TransportNamed(more[1]).None? then Some(UnknownTransport(Lower(more[1]))) else None
    else if more[0] == "--port" then
      if |more| == 1 then Some(MissingValue("--port"))
      else if PortNumber(more[1]).None? then Some(InvalidPort(more[1])) else None
    else if more[0] == "--phone-ip" || more[0] == "--adapter-name" then
      if |more| == 1 then Some(MissingValue(more[0])) else None
    else Some(UnknownArgument(more[0]))
  }

  /** Is `v` decided by the first word of `more`: help, or a fault? */
  predicate Decided(more: seq<string>, v: Result<Parsed, ArgError>) {
    && |more| > 0
    && ((v == Ok(Help) && (more[0] == "-h" || more[0] == "--help")) || (v.Err? && Fault(more) == Some(v.error)))
  }

  predicate Good(args: Args, xs: seq<string>) {
    Scan(args, xs).Ok? && Scan(args, xs).value.Run?
  }

  lemma {:induction false} StopsAt(args: Args, xs: seq<string>)
    requires !Good(args, xs)
    ensures exists k :: 0 <= k <= |xs| && Good(args, xs[..k]) && Decided(xs[k..], Scan(args, xs))
    decreases |xs|, 1
  {
    if Decided(xs, Scan(args, xs)) {
      assert Good(args, xs[..0]) && xs[0..] == xs;
    } else if xs[0] == "--headless" {
      StopsFurtherOn(args, xs, 1, args.(headless := true));
    } else {
      StopsFurtherOn(args, xs, 2, Set(args, xs[0], xs[1]).value);
    }
  }

  lemma StopsFurtherOn(args: Args, xs: seq<string>, n: nat, next: Args)
    requires 0 < n <= |xs| && !Good(next, xs[n..]) && Scan(args, xs) == Scan(next, xs[n..])
    requires forall k :: n <= k <= |xs| ==> Scan(args, xs[..k]) == Scan(next, xs[..k][n..])
    ensures exists k :: 0 <= k <= |xs| && Good(args, xs[..k]) && Decided(xs[k..], Scan(args, xs))
    decreases |xs|, 0
  {
    var rest := xs[n..];
    StopsAt(next, rest);
    var k :| 0 <= k <= |rest| && Good(next, rest[..k]) && Decided(rest[k..], Scan(next, rest));
    assert xs[..n + k][n..] == rest[..k] && rest[k..] == xs[n + k..];
    assert Good(args, xs[..n + k]);
  }

  /**
   Exactly: scanning ends in help or in an error if and only if, behind options that are all well
   formed, the next word asks for help or is at fault, and then with just that.
   */
  lemma StopsExactly(xs: seq<string>, v: Result<Parsed, ArgError>)
    requires v.Err? || v.value.Help?
    ensures Scan(DEFAULTS, xs) == v <==>
            exists k :: 0 <= k <= |xs| && Good(DEFAULTS, xs[..k]) && Decided(xs[k..], v)
  {
    if Scan(DEFAULTS, xs) == v {
      StopsAt(DEFAULTS, xs);
    }
    if k :| 0 <= k <= |xs| && Good(DEFAULTS, xs[..k]) && Decided(xs[k..], v) {
      assert xs[..k] + xs[k..] == xs;
      ScanMore(DEFAULTS, xs[..k], xs[k..]);
      DecidedScan(Scan(DEFAULTS, xs[..k]).value.args, xs[k..], v);
    }
  }

  lemma DecidedScan(args: Args, more: seq<string>, v: Result<Parsed, ArgError>)
    requires Decided(more, v)
    ensures Scan(args, more) == v
  {
  }

  // ---- Quoting for the elevated restart ----------------------------------------------------

  function Escape(a: string): string {
    if a == [] then []
    else (if a[0] == '"' then "\\\"" else [a[0]]) + Escape(a[1..])
  }

  function Quote(a: string): string {
    "\"" + Escape(a) + "\""
  }

  /** Each argument quoted, with one space between them. */
  function Joined(args: seq<string>): string {
    if args == [] then []
    else if |args| == 1 then Quote(args[0])
    else Quote(args[0]) + " " + Joined(args[1..])
  }

  function Slashes(n: nat): (s: string)
    ensures |s| == n
    ensures forall i :: 0 <= i < n ==> s[i] == '\\'
  {
    seq(n, _ => '\\')
  }

  /** How many backslashes `s` starts with. */
  function SlashRun(s: string): (n: nat)
    ensures n <= |s| && s[..n] == Slashes(n)
    ensures n < |s| ==> s[n] != '\\'
  {
    if s == [] || s[0] != '\\' then 0
    else
      assert s[..1 + SlashRun(s[1..])] == [s[0]] + s[1..][..SlashRun(s[1..])];
      1 + SlashRun(s[1..])
  }

  predicate IsBlank(c: char) {
    c == ' ' || c == '\t'
  }

  function SkipBlanks(s: string): (r: string)
    ensures |r| <= |s|
  {
    if s != [] && IsBlank(s[0]) then SkipBlanks(s[1..]) else s
  }

  /**
   How a Windows program splits its command line, by the Microsoft C rules: 2n backslashes before a
   quote stand for n, 2n+1 for n and a literal quote; backslashes elsewhere stand for themselves; a
   doubled quote inside quotes is a literal quote. `cur` is the argument being read.
   */
  function Split(s: string, cur: string, quoted: bool): seq<string>
    decreases |s|
  {
    if s == [] then (if cur != [] || quoted then [cur] else [])
    else if s[0] == '\\' then
      var n := SlashRun(s);
      if n < |s| && s[n] == '"' then
        if n % 2 == 1 then Split(s[n + 1..], cur + Slashes(n / 2) + "\"", quoted)
        else Split(s[n..], cur + Slashes(n / 2), quoted)
      else Split(s[n..], cur + Slashes(n), quoted)
    else if s[0] == '"' then
      if !quoted then Split(s[1..], cur, true)
      else if |s| == 1 then [cur]
      else if s[1] == '"' then Split(s[2..], cur + "\"", true)
      else Split(s[1..], cur, false)
    else if IsBlank(s[0]) && !quoted then [cur] + Split(SkipBlanks(s[1..]), [], false)
    else Split(s[1..], cur + [s[0]], quoted)
  }

  /** No backslash is directly followed by a quote or by the end of the argument. */
  predicate Plain(a: string) {
    forall i :: 0 <= i < |a| && a[i] == '\\' ==> i + 1 < |a| && a[i + 1] != '"'
  }

  /** What may follow a quoted argument: nothing, or a space and the next one. */
  predicate Follows(tail: string) {
    |tail| == 0 || (|tail| >= 2 && tail[0] == ' ' && tail[1] == '"')
  }

  lemma {:induction false} EscapeRun(a: string, n: nat)
    requires n <= |a| && a[..n] == Slashes(n)
    ensures Escape(a) == Slashes(n) + Escape(a[n..])
  {
    if n > 0 {
      assert a[0] == a[..n][0] == '\\';
      assert a[1..][..n - 1] == a[..n][1..] == Slashes(n - 1);
      EscapeRun(a[1..], n - 1);
      assert a[1..][n - 1..] == a[n..];
      assert Slashes(n) == ['\\'] + Slashes(n - 1);
    }
  }

  lemma {:induction false} RunThen(n: nat, s: string)
    requires s == [] || s[0] != '\\'
    ensures SlashRun(Slashes(n) + s) == n
  {
    if n == 0 {
      assert Slashes(0) + s == s;
    } else {
      assert (Slashes(n) + s)[1..] == Slashes(n - 1) + s;
      RunThen(n - 1, s);
    }
  }

  /** Inside quotes, the escaped form of a plain argument reads back as the argument, whatever follows. */
  lemma {:induction false} ReadsBack(a: string, cur: string, more: string)
    requires Plain(a)
    ensures Split(Escape(a) + more, cur, true) == Split(more, cur + a, true)
    decreases |a|
  {
    if a == [] {
      assert Escape(a) + more == more && cur + a == cur;
    } else if a[0] == '\\' {
      var n := SlashRun(a);
      assert a[n - 1] == a[..n][n - 1] == '\\';
      ReadsBackRun(a, cur, more, true);
      PlainSuffix(a, n);
      ReadsBack(a[n..], cur + Slashes(n), more);
      Assoc(cur, Slashes(n), a[n..]);
      assert Slashes(n) + a[n..] == a;
    } else {
      ReadsBackOne(a, cur, more);
      PlainSuffix(a, 1);
      ReadsBack(a[1..], cur + [a[0]], more);
      Assoc(cur, [a[0]], a[1..]);
      assert [a[0]] + a[1..] == a;
    }
  }

  /** A character other than a backslash stands for itself, a quote by way of its escape. */
  lemma ReadsBackOne(a: string, cur: string, more: string)
    requires a != [] && a[0] != '\\'
    ensures Split(Escape(a) + more, cur, true) == Split(Escape(a[1..]) + more, cur + [a[0]], true)
  {
    var rest := Escape(a[1..]) + more;
    var s := Escape(a) + more;
    if a[0] == '"' {
      assert s == "\\\"" + rest;
      assert s[1] == '"' && s[2..] == rest;
      assert SlashRun(s[1..]) == 0 && SlashRun(s) == 1;
      assert cur + Slashes(0) + "\"" == cur + [a[0]];
    } else {
      assert s == [a[0]] + rest;
      assert s[1..] == rest;
    }
  }

  /** Backslashes with neither a quote nor the end behind them stand for themselves. */
  lemma ReadsBackRun(a: string, cur: string, more: string, quoted: bool)
    requires var n := SlashRun(a); 0 < n < |a| && a[n] != '"'
    ensures var n := SlashRun(a);
      Split(Escape(a) + more, cur, quoted) == Split(Escape(a[n..]) + more, cur + Slashes(n), quoted)
  {
    var n := SlashRun(a);
    var rest := Escape(a[n..]) + more;
    assert rest[0] == a[n];
    EscapeRun(a, n);
    assert Escape(a) + more == Slashes(n) + rest;
    RunThen(n, rest);
    assert (Slashes(n) + rest)[n..] == rest;
  }

  lemma PlainSuffix(a: string, m: nat)
    requires Plain(a) && m <= |a|
    ensures Plain(a[m..])
  {
    forall i | 0 <= i < |a[m..]| && a[m..][i] == '\\'
      ensures i + 1 < |a[m..]| && a[m..][i + 1] != '"'
    {
      assert a[m + i] == '\\';
    }
  }

  /** A quoted plain argument at the front is read as that argument, whatever follows. */
  lemma QuotedReads(a: string, tail: string)
    requires Plain(a) && Follows(tail)
    ensures Split(Quote(a) + tail, [], false) == [a] + (if |tail| == 0 then [] else Split(tail[1..], [], false))
  {
    QuoteOpens(a, tail);
    ReadsBack(a, [], "\"" + tail);
    assert [] + a == a;
    QuoteCloses(a, tail);
  }

  lemma QuoteOpens(a: string, tail: string)
    ensures Split(Quote(a) + tail, [], false) == Split(Escape(a) + ("\"" + tail), [], true)
  {
    var inner := Escape(a) + ("\"" + tail);
    Assoc("\"", Escape(a), "\"");
    Assoc("\"", Escape(a) + "\"", tail);
    Assoc(Escape(a), "\"", tail);
    assert ("\"" + inner)[1..] == inner;
  }

  lemma QuoteCloses(cur: string, tail: string)
    requires Follows(tail)
    ensures Split("\"" + tail, cur, true) == [cur] + (if |tail| == 0 then [] else Split(tail[1..], [], false))
  {
    if |tail| > 0 {
      assert ("\"" + tail)[1..] == tail;
      assert SkipBlanks(tail[1..]) == tail[1..];
    }
  }

  /** The list is passed on unchanged whenever its arguments are plain. */
  lemma {:induction false} RelaunchPreserves(args: seq<string>)
    requires forall i :: 0 <= i < |args| ==> Plain(args[i])
    ensures Split(Joined(args), [], false) == args
  {
    if |args| == 1 {
      assert Quote(args[0]) + [] == Joined(args);
      QuotedReads(args[0], []);
      assert args == [args[0]];
    } else if |args| > 1 {
      var tail := " " + Joined(args[1..]);
      assert Joined(args) == Quote(args[0]) + tail;
      assert tail[1..] == Joined(args[1..]);
      QuotedReads(args[0], tail);
      RelaunchPreserves(args[1..]);
      assert args == [args[0]] + args[1..];
    }
  }

  // ---- When it is not preserved ------------------------------------------------------------

  /** A non-empty argument being read only ever grows, and is never dropped. */
  lemma {:induction false} FirstExtends(s: string, cur: string, quoted: bool)
    requires cur != []
    ensures Split(s, cur, quoted) != [] && cur <= Split(s, cur, quoted)[0]
    decreases |s|
  {
    if s == [] {
    } else if s[0] == '\\' {
      var n := SlashRun(s);
      if n < |s| && s[n] == '"' && n % 2 == 1 {
        FirstExtends(s[n + 1..], cur + Slashes(n / 2) + "\"", quoted);
      } else if n < |s| && s[n] == '"' {
        FirstExtends(s[n..], cur + Slashes(n / 2), quoted);
      } else {
        FirstExtends(s[n..], cur + Slashes(n), quoted);
      }
    } else if s[0] == '"' && !quoted {
      FirstExtends(s[1..], cur, true);
    } else if s[0] == '"' && |s| > 1 && s[1] == '"' {
      FirstExtends(s[2..], cur + "\"", true);
    } else if s[0] == '"' && |s| > 1 {
      FirstExtends(s[1..], cur, false);
    } else if s[0] != '"' && !(IsBlank(s[0]) && !quoted) {
      FirstExtends(s[1..], cur + [s[0]], quoted);
    }
  }

  /** Reading `s` does not yield `a` as the first argument. */
  predicate Misses(s: string, cur: string, quoted: bool, a: string) {
    var r := Split(s, cur, quoted);
    r == [] || r[0] != a
  }

  /** What has been read is not how `a` starts. */
  lemma Strayed(s: string, cur: string, quoted: bool, a: string)
    requires cur != [] && !(cur <= a)
    ensures Misses(s, cur, quoted, a)
  {
    FirstExtends(s, cur, quoted);
  }

  /** The argument's own text is used up, and `a` is not all read: the next argument does not help. */
  lemma TailMisses(tail: string, cur: string, quoted: bool, a: string)
    requires Follows(tail) && cur != [] && cur < a && a[|cur|] != ' '
    ensures Misses(tail, cur, quoted, a)
  {
    if |tail| > 0 && quoted {
      assert (cur + [' '])[|cur|] == ' ';
      Strayed(tail[1..], cur + [' '], true, a);
    }
  }

  lemma CloseMisses(tail: string, cur: string, quoted: bool, a: string)
    requires Follows(tail) && cur != [] && cur < a && a[|cur|] != ' '
    ensures Misses("\"" + tail, cur, quoted, a)
  {
    assert ("\"" + tail)[1..] == tail;
    if !quoted {
      TailMisses(tail, cur, true, a);
    } else if |tail| > 0 {
      TailMisses(tail, cur, false, a);
    }
  }

  lemma SlashesBefore(n: nat, more: string)
    ensures var s := Slashes(n) + ("\"" + more);
      SlashRun(s) == n < |s| && s[n] == '"' && s[n..] == "\"" + more && s[n + 1..] == more
  {
    RunThen(n, "\"" + more);
  }

  /** An odd number of backslashes before a quote: half of them, and the quote is literal. */
  lemma OddSlashes(cur: string, n: nat, more: string, quoted: bool)
    requires n % 2 == 1
    ensures Split(Slashes(n) + ("\"" + more), cur, quoted) == Split(more, cur + Slashes(n / 2) + "\"", quoted)
  {
    SlashesBefore(n, more);
  }

  /** An even number: half of them, and the quote opens or closes. */
  lemma EvenSlashes(cur: string, n: nat, more: string, quoted: bool)
    requires n > 0 && n % 2 == 0
    ensures Split(Slashes(n) + ("\"" + more), cur, quoted) == Split("\"" + more, cur + Slashes(n / 2), quoted)
  {
    SlashesBefore(n, more);
  }

  predicate Slashy(b: string) {
    forall i :: 0 <= i < |b| ==> b[i] == '\\' || b[i] == '"'
  }

  /** Is `b` a backlog: backslashes and quotes of the argument that should have been read by now? */
  predicate Backlog(cur: string, b: string, rest: string, a: string) {
    cur != [] && b != [] && Slashy(b) && a == cur + b + rest
  }

  /** Reading `out`, less than what was due, leaves a backlog if it does not stray. */
  lemma StaysBehind(cur: string, due: string, rest: string, a: string, out: string)
    requires Backlog(cur, due, rest, a) && |out| < |due| && cur + out <= a
    ensures Backlog(cur + out, due[|out|..], rest, a)
    ensures cur + out < a && a[|cur + out|] != ' '
  {
    assert forall i :: 0 <= i < |out| ==> out[i] == (cur + out)[|cur| + i] == a[|cur| + i] == due[i];
    assert due == out + due[|out|..];
    Assoc(cur, out, due[|out|..]);
  }

  /** Backslashes and a quote in the argument: one backslash more, and the quote, on the line. */
  lemma EscapeQuoteRun(rest: string, n: nat, more: string)
    requires n < |rest| && rest[..n] == Slashes(n) && rest[n] == '"'
    ensures Escape(rest) + more == Slashes(n + 1) + ("\"" + (Escape(rest[n + 1..]) + more))
  {
    var s := rest[n..];
    EscapeRun(rest, n);
    assert s[0] == '"' && s[1..] == rest[n + 1..];
    assert Escape(s) == "\\\"" + Escape(s[1..]);
    QuoteAfterRun(n, Escape(rest[n + 1..]), more);
  }

  lemma CutAtQuote(s: string, n: nat)
    requires n < |s| && s[..n] == Slashes(n) && s[n] == '"'
    ensures s == (Slashes(n) + "\"") + s[n + 1..]
  {
    assert s == s[..n] + [s[n]] + s[n + 1..];
  }

  lemma QuoteAfterRun(n: nat, left: string, more: string)
    ensures (Slashes(n) + ("\\\"" + left)) + more == Slashes(n + 1) + ("\"" + (left + more))
  {
    assert "\\\"" + left == ['\\'] + ("\"" + left);
    Assoc(Slashes(n), ['\\'], "\"" + left);
    assert Slashes(n) + ['\\'] == Slashes(n + 1);
    Assoc(Slashes(n + 1), "\"" + left, more);
    Assoc("\"", left, more);
  }

  /** A reader that has fallen behind never catches up: whatever the rest is, the argument is not read. */
  lemma {:induction false} NeverCatchesUp(rest: string, cur: string, b: string, tail: string, quoted: bool, a: string)
    requires Backlog(cur, b, rest, a) && Follows(tail)
    ensures Misses(Escape(rest) + ("\"" + tail), cur, quoted, a)
    decreases |rest|, 1
  {
    var close := "\"" + tail;
    assert a[|cur|] == b[0];
    if rest == [] {
      assert Escape(rest) + close == close;
      CloseMisses(tail, cur, quoted, a);
    } else {
      var n := SlashRun(rest);
      if n == |rest| {
        assert rest == rest[..n];
        EscapeSlashes(n);
        BehindAtEnd(n, cur, b, tail, quoted, a);
      } else if rest[n] == '"' {
        BehindAtQuote(rest, n, cur, b, tail, quoted, a);
      } else if n > 0 {
        BehindAtRun(rest, cur, b, tail, quoted, a);
      } else {
        var c, more := rest[0], Escape(rest[1..]) + close;
        assert Escape(rest) + close == [c] + more;
        assert ([c] + more)[1..] == more;
        assert (cur + [c])[|cur|] == c;
        Strayed(more, cur + [c], quoted, a);
      }
    }
  }

  lemma BacklogPastRun(rest: string, n: nat, cur: string, b: string, a: string)
    requires Backlog(cur, b, rest, a) && n <= |rest| && rest[..n] == Slashes(n)
    ensures Backlog(cur, b + Slashes(n), rest[n..], a)
  {
    assert rest == Slashes(n) + rest[n..];
    Assoc(cur + b, Slashes(n), rest[n..]);
    Assoc(cur, b, Slashes(n));
  }

  /** Behind, with backslashes ahead that stand for themselves. */
  lemma BehindAtRun(rest: string, cur: string, b: string, tail: string, quoted: bool, a: string)
    requires Backlog(cur, b, rest, a) && Follows(tail)
    requires var n := SlashRun(rest); 0 < n < |rest| && rest[n] != '"'
    ensures Misses(Escape(rest) + ("\"" + tail), cur, quoted, a)
    decreases |rest|, 0
  {
    var n := SlashRun(rest);
    ReadsBackRun(rest, cur, "\"" + tail, quoted);
    BacklogPastRun(rest, n, cur, b, a);
    BehindAfter(rest[n..], Slashes(n), cur, b + Slashes(n), tail, quoted, a);
  }

  /** Behind, having read `out`, less than what was due: still behind, or astray. */
  lemma BehindAfter(left: string, out: string, cur: string, due: string, tail: string, quoted: bool, a: string)
    requires Backlog(cur, due, left, a) && |due| > |out| && Follows(tail)
    ensures Misses(Escape(left) + ("\"" + tail), cur + out, quoted, a)
    decreases |left|, 2
  {
    if cur + out <= a {
      StaysBehind(cur, due, left, a, out);
      NeverCatchesUp(left, cur + out, due[|out|..], tail, quoted, a);
    } else {
      Strayed(Escape(left) + ("\"" + tail), cur + out, quoted, a);
    }
  }

  lemma EscapeSlashes(n: nat)
    ensures Escape(Slashes(n)) == Slashes(n)
  {
    assert Slashes(n)[n..] == [];
    EscapeRun(Slashes(n), n);
  }

  /** Behind, with only backslashes left: they run into the closing quote. */
  lemma BehindAtEnd(n: nat, cur: string, b: string, tail: string, quoted: bool, a: string)
    requires n > 0 && Backlog(cur, b, Slashes(n), a) && Follows(tail)
    ensures Misses(Slashes(n) + ("\"" + tail), cur, quoted, a)
  {
    var due := b + Slashes(n);
    Assoc(cur, b, Slashes(n));
    assert due + [] == due;
    if n % 2 == 1 {
      var out := Slashes(n / 2) + "\"";
      OddSlashes(cur, n, tail, quoted);
      Assoc(cur, Slashes(n / 2), "\"");
      if cur + out <= a {
        StaysBehind(cur, due, [], a, out);
        TailMisses(tail, cur + out, quoted, a);
      } else {
        Strayed(tail, cur + out, quoted, a);
      }
    } else {
      var out := Slashes(n / 2);
      EvenSlashes(cur, n, tail, quoted);
      if cur + out <= a {
        StaysBehind(cur, due, [], a, out);
        CloseMisses(tail, cur + out, quoted, a);
      } else {
        Strayed("\"" + tail, cur + out, quoted, a);
      }
    }
  }

  /** Behind, with backslashes and then a quote ahead: no more is read than becomes due. */
  lemma BehindAtQuote(rest: string, n: nat, cur: string, b: string, tail: string, quoted: bool, a: string)
    requires n < |rest| && rest[..n] == Slashes(n) && rest[n] == '"'
    requires Backlog(cur, b, rest, a) && Follows(tail)
    ensures Misses(Escape(rest) + ("\"" + tail), cur, quoted, a)
    decreases |rest|, 0
  {
    var left := rest[n + 1..];
    var due := b + (Slashes(n) + "\"");
    EscapeQuoteRun(rest, n, "\"" + tail);
    CutAtQuote(rest, n);
    Assoc(cur + b, Slashes(n) + "\"", left);
    Assoc(cur, b, Slashes(n) + "\"");
    assert Slashy(due);
    BehindAtSlashes(left, n + 1, cur, due, tail, quoted, a);
  }

  /** Behind, with `n` backslashes and a quote ahead on the line, and due. */
  lemma BehindAtSlashes(left: string, n: nat, cur: string, due: string, tail: string, quoted: bool, a: string)
    requires n > 0 && Backlog(cur, due, left, a) && |due| > n && Follows(tail)
    ensures Misses(Slashes(n) + ("\"" + (Escape(left) + ("\"" + tail))), cur, quoted, a)
    decreases |left|, 3
  {
    var more := Escape(left) + ("\"" + tail);
    if n % 2 == 1 {
      var out := Slashes(n / 2) + "\"";
      OddSlashes(cur, n, more, quoted);
      Assoc(cur, Slashes(n / 2), "\"");
      BehindAfter(left, out, cur, due, tail, quoted, a);
    } else {
      EvenSlashes(cur, n, more, quoted);
      BehindAfterEven(left, Slashes(n / 2), cur, due, tail, quoted, a);
    }
  }

  lemma BehindAfterEven(left: string, out: string, cur: string, due: string, tail: string, quoted: bool, a: string)
    requires Backlog(cur, due, left, a) && |due| > |out| + 1 && Follows(tail)
    ensures Misses("\"" + (Escape(left) + ("\"" + tail)), cur + out, quoted, a)
    decreases |left|, 2, 1
  {
    if cur + out <= a {
      StaysBehind(cur, due, left, a, out);
      BehindThenQuote(left, cur + out, due[|out|..], tail, quoted, a);
    } else {
      Strayed("\"" + (Escape(left) + ("\"" + tail)), cur + out, quoted, a);
    }
  }

  /** Behind by two characters at least, at a bare quote: it opens, closes, or doubles the closing one. */
  lemma BehindThenQuote(left: string, cur: string, b: string, tail: string, quoted: bool, a: string)
    requires Backlog(cur, b, left, a) && |b| > 1 && Follows(tail)
    ensures Misses("\"" + (Escape(left) + ("\"" + tail)), cur, quoted, a)
    decreases |left|, 2, 0
  {
    var more := Escape(left) + ("\"" + tail);
    assert ("\"" + more)[1..] == more;
    if !quoted {
      NeverCatchesUp(left, cur, b, tail, true, a);
    } else if left == [] {
      assert more == "\"" + tail && ("\"" + more)[2..] == tail;
      if cur + "\"" <= a {
        StaysBehind(cur, b, left, a, "\"");
        TailMisses(tail, cur + "\"", true, a);
      } else {
        Strayed(tail, cur + "\"", true, a);
      }
    } else {
      assert more[0] == Escape(left)[0] != '"';
      NeverCatchesUp(left, cur, b, tail, false, a);
    }
  }

  /** A plain beginning and then one backslash and a quote, with which the argument ends. */
  predicate EndsInEscapedQuote(a: string) {
    |a| >= 2 && a[|a| - 2] == '\\' && a[|a| - 1] == '"' && Plain(a[..|a| - 2])
  }

  /** Cutting off a front that reads back changes neither property of the argument. */
  lemma WithoutFront(a: string, m: nat)
    requires 0 < m <= |a| && (a[m - 1] == '\\' ==> m < |a| && a[m] != '\\')
    requires forall i :: 0 <= i < m && a[i] == '\\' ==> i + 1 < |a| && a[i + 1] != '"'
    ensures Plain(a[m..]) ==> Plain(a)
    ensures EndsInEscapedQuote(a[m..]) ==> EndsInEscapedQuote(a)
  {
    if Plain(a[m..]) {
      forall i | 0 <= i < |a| && a[i] == '\\'
        ensures i + 1 < |a| && a[i + 1] != '"'
      {
        assert i >= m ==> a[m..][i - m] == a[i];
      }
    }
    if EndsInEscapedQuote(a[m..]) {
      var p := a[..|a| - 2];
      assert a[m..][..|a[m..]| - 2] == p[m..];
      assert a[|a| - 2] == a[m..][|a[m..]| - 2] && a[|a| - 1] == a[m..][|a[m..]| - 1];
      forall i | 0 <= i < |p| && p[i] == '\\'
        ensures i + 1 < |p| && p[i + 1] != '"'
      {
        assert i >= m ==> p[m..][i - m] == p[i];
      }
    }
  }

  /** Inside quotes, an argument that is not plain is not read, whatever follows; with one exception. */
  lemma {:induction false} Misread(a: string, cur: string, tail: string)
    requires !Plain(a) && Follows(tail)
    requires EndsInEscapedQuote(a) ==> |tail| > 0
    ensures Misses(Escape(a) + ("\"" + tail), cur, true, cur + a)
    decreases |a|, 1
  {
    var n := SlashRun(a);
    if n == |a| {
      MisreadSlashes(a, cur, tail);
    } else if n > 0 && a[n] == '"' {
      if n % 2 == 0 {
        MisreadQuoteEven(a, n, cur, tail);
      } else {
        MisreadQuoteOdd(a, n, cur, tail);
      }
    } else if n > 0 {
      MisreadAfterRun(a, cur, tail);
    } else {
      MisreadAfterOne(a, cur, tail);
    }
  }

  lemma MisreadSlashes(a: string, cur: string, tail: string)
    requires 0 < |a| == SlashRun(a) && Follows(tail)
    ensures Misses(Escape(a) + ("\"" + tail), cur, true, cur + a)
  {
    assert a == a[..|a|] == Slashes(|a|);
    EscapeSlashes(|a|);
    MisreadEnd(|a|, cur, tail);
  }

  /** Past backslashes that stand for themselves the rest is as misread as before. */
  lemma MisreadAfterRun(a: string, cur: string, tail: string)
    requires !Plain(a) && Follows(tail) && (EndsInEscapedQuote(a) ==> |tail| > 0)
    requires var n := SlashRun(a); 0 < n < |a| && a[n] != '"'
    ensures Misses(Escape(a) + ("\"" + tail), cur, true, cur + a)
    decreases |a|, 0
  {
    var n := SlashRun(a);
    ReadsBackRun(a, cur, "\"" + tail, true);
    assert forall i :: 0 <= i < n ==> a[i] == a[..n][i];
    WithoutFront(a, n);
    Misread(a[n..], cur + Slashes(n), tail);
    RegroupRun(a, n, cur);
  }

  lemma RegroupRun(a: string, n: nat, cur: string)
    requires n <= |a| && a[..n] == Slashes(n)
    ensures cur + a == (cur + Slashes(n)) + a[n..]
  {
    assert a == Slashes(n) + a[n..];
    Assoc(cur, Slashes(n), a[n..]);
  }

  lemma MisreadAfterOne(a: string, cur: string, tail: string)
    requires |a| > 0 && a[0] != '\\'
    requires !Plain(a) && Follows(tail) && (EndsInEscapedQuote(a) ==> |tail| > 0)
    ensures Misses(Escape(a) + ("\"" + tail), cur, true, cur + a)
    decreases |a|, 0
  {
    WithoutFirst(a);
    Misread(a[1..], cur + [a[0]], tail);
    RegroupFirst(a, cur);
    ReadsBackOne(a, cur, "\"" + tail);
  }

  lemma WithoutFirst(a: string)
    requires |a| > 0 && a[0] != '\\'
    ensures Plain(a[1..]) ==> Plain(a)
    ensures EndsInEscapedQuote(a[1..]) ==> EndsInEscapedQuote(a)
  {
    WithoutFront(a, 1);
  }

  lemma RegroupFirst(a: string, cur: string)
    requires |a| > 0
    ensures cur + a == (cur + [a[0]]) + a[1..]
  {
    assert a == [a[0]] + a[1..];
    Assoc(cur, [a[0]], a[1..]);
  }

  /** What has been read differs from `a` at `i`. */
  lemma WrongAt(s: string, out: string, quoted: bool, a: string, i: nat)
    requires i < |out| && i < |a| && out[i] != a[i]
    ensures Misses(s, out, quoted, a)
  {
    Strayed(s, out, quoted, a);
  }

  /** Backslashes at the end run into the closing quote. */
  lemma MisreadEnd(n: nat, cur: string, tail: string)
    requires n > 0 && Follows(tail)
    ensures Misses(Slashes(n) + ("\"" + tail), cur, true, cur + Slashes(n))
  {
    var a := cur + Slashes(n);
    if n % 2 == 1 {
      OddSlashes(cur, n, tail, true);
      var out := cur + Slashes(n / 2) + "\"";
      assert out[|cur| + n / 2] == '"' && a[|cur| + n / 2] == '\\';
      WrongAt(tail, out, true, a, |cur| + n / 2);
    } else {
      EvenSlashes(cur, n, tail, true);
      var out := cur + Slashes(n / 2);
      assert a == out + Slashes(n / 2) && a[|out|] == '\\';
      CloseMisses(tail, out, true, a);
    }
  }

  /** An even number of backslashes before a quote: the quote is read too soon. */
  lemma MisreadEven(a: string, n: nat, cur: string, more: string)
    requires 0 < n < |a| && n % 2 == 0 && a[..n] == Slashes(n)
    ensures Misses(more, cur + Slashes(n / 2) + "\"", true, cur + a)
  {
    var out := cur + Slashes(n / 2) + "\"";
    var i := |cur| + n / 2;
    assert (cur + a)[i] == a[n / 2] == a[..n][n / 2] == '\\';
    assert out[i] == '"';
    WrongAt(more, out, true, cur + a, i);
  }

  lemma HalfTheSlashes(a: string, n: nat)
    requires n < |a| && a[..n] == Slashes(n) && a[n] == '"'
    ensures var read := (n + 1) / 2; a == Slashes(read) + (Slashes(n - read) + "\"") + a[n + 1..]
  {
    var read := (n + 1) / 2;
    CutAtQuote(a, n);
    assert Slashes(n) == Slashes(read) + Slashes(n - read);
    Assoc(Slashes(read), Slashes(n - read), "\"");
  }

  /** An odd number: half of them are read, and the quote is a bare one. */
  lemma MisreadOdd(a: string, n: nat, cur: string, tail: string)
    requires n < |a| && n % 2 == 1 && a[..n] == Slashes(n) && a[n] == '"' && Follows(tail)
    requires EndsInEscapedQuote(a) ==> |tail| > 0
    ensures Misses("\"" + (Escape(a[n + 1..]) + ("\"" + tail)), cur + Slashes((n + 1) / 2), true, cur + a)
  {
    var read, left := (n + 1) / 2, a[n + 1..];
    var out, b := cur + Slashes(read), Slashes(n - read) + "\"";
    HalfTheSlashes(a, n);
    Assoc(cur, Slashes(read) + b, left);
    Assoc(cur, Slashes(read), b);
    if |left| == 0 {
      if n == 1 {
        assert |a[..|a| - 2]| == 0;
        LoneQuoteRunsOn(left, out, tail);
      } else {
        BehindThenQuote(left, out, b, tail, true, cur + a);
      }
    } else {
      MisreadOn(left, out, b, tail, cur + a);
    }
  }

  /** The literal quote leaves the argument open, so with another one behind it the two run together. */
  lemma LoneQuoteRunsOn(none: string, cur: string, tail: string)
    requires |none| == 0 && cur != [] && Follows(tail) && |tail| > 0
    ensures Misses("\"" + (Escape(none) + ("\"" + tail)), cur, true, cur + "\"" + none)
  {
    var a := cur + "\"";
    var s := "\"" + (Escape(none) + ("\"" + tail));
    assert s[1] == '"' && s[2..] == tail;
    assert a + none == a;
    Strayed(tail[1..], a + [' '], true, a);
  }

  /** Behind at a bare quote inside quotes, with something of the argument still to come: it closes them. */
  lemma MisreadOn(left: string, cur: string, b: string, tail: string, a: string)
    requires Backlog(cur, b, left, a) && Follows(tail) && |left| > 0
    ensures Misses("\"" + (Escape(left) + ("\"" + tail)), cur, true, a)
  {
    var more := Escape(left) + ("\"" + tail);
    assert ("\"" + more)[1..] == more && more[0] == Escape(left)[0] != '"';
    NeverCatchesUp(left, cur, b, tail, false, a);
  }

  /** Backslashes before a quote, an odd number on the line. */
  lemma MisreadQuoteEven(a: string, n: nat, cur: string, tail: string)
    requires 0 < n < |a| && n % 2 == 0 && a[..n] == Slashes(n) && a[n] == '"'
    ensures Misses(Escape(a) + ("\"" + tail), cur, true, cur + a)
  {
    ReadsHalf(a, n, cur, "\"" + tail);
    MisreadEven(a, n, cur, Escape(a[n + 1..]) + ("\"" + tail));
  }

  lemma ReadsHalf(a: string, n: nat, cur: string, close: string)
    requires n < |a| && n % 2 == 0 && a[..n] == Slashes(n) && a[n] == '"'
    ensures Split(Escape(a) + close, cur, true) ==
            Split(Escape(a[n + 1..]) + close, cur + Slashes(n / 2) + "\"", true)
  {
    EscapeQuoteRun(a, n, close);
    OddSlashes(cur, n + 1, Escape(a[n + 1..]) + close, true);
    assert (n + 1) / 2 == n / 2;
  }

  /** Backslashes before a quote, an even number on the line. */
  lemma MisreadQuoteOdd(a: string, n: nat, cur: string, tail: string)
    requires 0 < n < |a| && n % 2 == 1 && a[..n] == Slashes(n) && a[n] == '"' && Follows(tail)
    requires EndsInEscapedQuote(a) ==> |tail| > 0
    ensures Misses(Escape(a) + ("\"" + tail), cur, true, cur + a)
  {
    EscapeQuoteRun(a, n, "\"" + tail);
    EvenSlashes(cur, n + 1, Escape(a[n + 1..]) + ("\"" + tail), true);
    MisreadOdd(a, n, cur, tail);
  }

  /** The exception: the escaped quote and the closing one make a literal quote, and the line ends. */
  lemma EscapedQuoteAtEnd(a: string)
    requires EndsInEscapedQuote(a)
    ensures Split(Quote(a), [], false) == [a]
  {
    var p, end := a[..|a| - 2], Slashes(2) + ("\"" + "\"");
    assert a == p + "\\\"";
    EscapeAppend(p, "\\\"");
    assert "\\\""[1..] == "\"" && "\""[1..] == [];
    assert Escape("\"") == "\\\"" && Escape("\\\"") == "\\\\\"";
    assert Escape(a) + ("\"" + []) == Escape(p) + end;
    assert Quote(a) + [] == Quote(a);
    QuoteOpens(a, []);
    ReadsBack(p, [], end);
    assert [] + p == p;
    EvenSlashes(p, 2, "\"", true);
    DoubledQuote(p + Slashes(1));
    assert p + Slashes(1) + "\"" == a;
  }

  lemma DoubledQuote(cur: string)
    ensures Split("\"" + "\"", cur, true) == [cur + "\""]
  {
    assert ("\"" + "\"")[2..] == [];
  }

  lemma {:induction false} EscapeAppend(a: string, b: string)
    ensures Escape(a + b) == Escape(a) + Escape(b)
  {
    if a == [] {
      assert a + b == b;
    } else {
      assert (a + b)[1..] == a[1..] + b;
      EscapeAppend(a[1..], b);
      Assoc(if a[0] == '"' then "\\\"" else [a[0]], Escape(a[1..]), Escape(b));
    }
  }

  /** Does the argument survive where it stands? */
  predicate Survives(args: seq<string>, i: nat)
    requires i < |args|
  {
    Plain(args[i]) || (i == |args| - 1 && EndsInEscapedQuote(args[i]))
  }

  /**
   Exactly, for every list: it is passed on unchanged if and only if no argument has a backslash
   directly before a quote or its end, except that the last one may end in a lone backslash and a quote.
   */
  lemma {:induction false} RelaunchPreservesExactly(args: seq<string>)
    ensures Split(Joined(args), [], false) == args <==> forall i :: 0 <= i < |args| ==> Survives(args, i)
  {
    if args != [] {
      assert args == [args[0]] + args[1..];
      if Plain(args[0]) {
        FirstPreserved(args);
        RelaunchPreservesExactly(args[1..]);
        SurvivorsBehind(args);
      } else if Survives(args, 0) {
        EscapedQuoteAtEnd(args[0]);
      } else {
        FirstLost(args);
      }
    }
  }

  /** What follows the first argument on the command line. */
  function AfterFirst(args: seq<string>): string
    requires args != []
  {
    if |args| == 1 then [] else " " + Joined(args[1..])
  }

  lemma JoinedFirst(args: seq<string>)
    requires args != []
    ensures Joined(args) == Quote(args[0]) + AfterFirst(args) && Follows(AfterFirst(args))
    ensures if |args| == 1 then AfterFirst(args) == [] else AfterFirst(args)[1..] == Joined(args[1..])
  {
    if |args| == 1 {
      assert Quote(args[0]) + [] == Quote(args[0]);
    } else {
      SpaceThenQuoted(args[1..]);
      Assoc(Quote(args[0]), " ", Joined(args[1..]));
    }
  }

  lemma SpaceThenQuoted(args: seq<string>)
    requires args != []
    ensures Follows(" " + Joined(args)) && (" " + Joined(args))[1..] == Joined(args)
  {
    StartsQuoted(args);
  }

  lemma StartsQuoted(args: seq<string>)
    requires args != []
    ensures Joined(args) != [] && Joined(args)[0] == '"'
  {
  }

  lemma FirstPreserved(args: seq<string>)
    requires args != [] && Plain(args[0])
    ensures Split(Joined(args), [], false) == [args[0]] + Split(Joined(args[1..]), [], false)
  {
    JoinedFirst(args);
    QuotedReads(args[0], AfterFirst(args));
  }

  lemma FirstLost(args: seq<string>)
    requires args != [] && !Survives(args, 0)
    ensures Misses(Joined(args), [], false, args[0])
  {
    var tail := AfterFirst(args);
    JoinedFirst(args);
    QuoteOpens(args[0], tail);
    Misread(args[0], [], tail);
    assert [] + args[0] == args[0];
  }

  lemma SurvivorsBehind(args: seq<string>)
    requires args != [] && Plain(args[0])
    ensures (forall i :: 0 <= i < |args| ==> Survives(args, i)) <==>
            (forall i :: 0 <= i < |args[1..]| ==> Survives(args[1..], i))
  {
    forall i | 0 <= i < |args[1..]|
      ensures Survives(args[1..], i) == Survives(args, i + 1)
    {
      assert args[1..][i] == args[i + 1];
    }
    forall i | 0 < i < |args|
      ensures Survives(args, i) == Survives(args[1..], i - 1)
    {
      assert args[1..][i - 1] == args[i];
    }
  }

  /** The elevated instance, under whatever name it goes, understands what the first one did. */
  lemma ElevatedUnderstands(name: string, argv: seq<string>)
    requires argv != [] && forall i :: 0 <= i < |argv[1..]| ==> Survives(argv[1..], i)
    ensures Understood([name] + Split(Joined(argv[1..]), [], false)) == Understood(argv)
  {
    RelaunchPreservesExactly(argv[1..]);
    assert ([name] + argv[1..])[1..] == argv[1..];
  }

  /** So a directory given with its trailing backslash does not survive the restart. */
  lemma TrailingBackslashLost(dir: string)
    ensures Split(Joined([dir + "\\"]), [], false) != [dir + "\\"]
  {
    RelaunchPreservesExactly([dir + "\\"]);
    assert (dir + "\\")[|dir|] == '\\';
    assert !Survives([dir + "\\"], 0);
  }
}
