/** Bytes, fixed-width integers on the wire, and the result types shared by every module. */
module Bytes {

  type Byte = x: int | 0 <= x < 256

  /** The 16-bit unsigned integers. */
  type U16 = x: int | 0 <= x < 0x1_0000

  /** The 32-bit unsigned integers. */
  type U32 = x: int | 0 <= x < 0x1_0000_0000

  datatype Option<+T> = None | Some(value: T)

  datatype Result<+T, +E> = Ok(value: T) | Err(error: E)

  function Min(a: nat, b: nat): nat {
    if a <= b then a else b
  }

  /** How many of `n` requests are granted when `grants` of them can be (`None`: all of them). */
  function Accepted(grants: Option<nat>, n: nat): (k: nat)
    ensures k <= n
  {
    if grants.None? then n else Min(grants.value, n)
  }

  /** Big-endian encoding of a 16-bit integer. */
  function BigEndian16(n: U16): (s: seq<Byte>)
    ensures |s| == 2 && 256 * s[0] as int + s[1] as int == n
  {
    [n / 256, n % 256]
  }

  function FromBigEndian16(hi: Byte, lo: Byte): U16 {
    hi * 256 + lo
  }

  /** Little-endian encoding of a 32-bit integer. */
  function LittleEndian32(n: U32): (s: seq<Byte>)
    ensures |s| == 4 && s[0] as int + 0x100 * s[1] as int + 0x1_0000 * s[2] as int + 0x100_0000 * s[3] as int == n
  {
    assert n / 256 % 256 + n / 0x1_0000 * 256 == n / 256;
    assert n / 0x1_0000 % 256 + n / 0x100_0000 * 256 == n / 0x1_0000;
    [n % 256, n / 256 % 256, n / 0x1_0000 % 256, n / 0x100_0000]
  }

  function FromLittleEndian32(s: seq<Byte>): U32
    requires |s| == 4
  {
    var b0: int, b1: int, b2: int, b3: int := s[0], s[1], s[2], s[3];
    b0 + b1 * 256 + b2 * 0x1_0000 + b3 * 0x100_0000
  }

  lemma LittleEndian32RoundTrip(n: U32)
    ensures FromLittleEndian32(LittleEndian32(n)) == n
  {
    assert n / 256 % 256 + n / 0x1_0000 * 256 == n / 256;
    assert n / 0x1_0000 % 256 + n / 0x100_0000 * 256 == n / 0x1_0000;
  }

  /** The last `n` elements of `s`, or all of it when it is shorter. */
  function Last<T>(s: seq<T>, n: nat): (r: seq<T>)
    ensures |r| == Min(|s|, n)
  {
    if |s| <= n then s else s[|s| - n..]
  }

  lemma LastAt<T>(s: seq<T>, n: nat, i: nat)
    requires i < |Last(s, n)|
    ensures Last(s, n)[i] == s[|s| - |Last(s, n)| + i]
  {
  }

  /** A bounded window slides: appending and cutting back is cutting the whole history back. */
  lemma LastAppend<T>(s: seq<T>, more: seq<T>, n: nat)
    ensures Last(Last(s, n) + more, n) == Last(s + more, n)
  {
    if |s| > n {
      DropThenAppend(s, |s| - n, more);
      LastOfDrop(s + more, |s| - n, n);
    }
  }

  lemma LastOfDrop<T>(s: seq<T>, k: nat, n: nat)
    requires k + n <= |s|
    ensures Last(s[k..], n) == Last(s, n)
  {
    CutDrop(s, k, |s| - n);
  }

  lemma DropThenAppend<T>(s: seq<T>, k: nat, more: seq<T>)
    requires k <= |s|
    ensures s[k..] + more == (s + more)[k..]
  {
  }

  lemma Assoc<T>(a: seq<T>, b: seq<T>, c: seq<T>)
    ensures a + (b + c) == (a + b) + c
  {
  }

  /** Moving the first `n` elements of `c` over to `b` keeps the whole. */
  lemma MoveOver<T>(a: seq<T>, b: seq<T>, c: seq<T>, n: nat)
    requires n <= |c|
    ensures (a + (b + c[..n])) + c[n..] == (a + b) + c
  {
    assert c == c[..n] + c[n..];
  }

  /** Cutting a drop at `n` cuts the whole sequence at `n`. */
  lemma CutDrop<T>(s: seq<T>, m: nat, n: nat)
    requires m <= n <= |s|
    ensures s[m..][..n - m] == s[m..n] && s[m..][n - m..] == s[n..]
    ensures s[m..] == s[m..n] + s[n..]
  {
  }

  /** Taking the first `n` elements of `b` to the end of `a` keeps the whole; so does losing none. */
  lemma TakeOver<T>(a: seq<T>, b: seq<T>, n: nat)
    requires n <= |b|
    ensures (a + b[..n]) + b[n..] == a + b
    ensures a + b[..n] <= a + b
    ensures n == |b| ==> b[..n] == b
  {
  }
}
