/** Bytes, fixed-width big-endian integers, and Python's slice bounds. */
module Bytes {
  type byte = b: int | 0 <= b < 256
  type u32 = w: int | 0 <= w < 0x1_0000_0000
  type bytes = seq<byte>

  /** The marker word in front of messages to the TCP server. */
  const ZZZZ: bytes := [0x5A, 0x5A, 0x5A, 0x5A]

  datatype Option<+T> = None | Some(value: T)
  {
    function GetOr(default: T): T {
      if Some? then value else default
    }
  }

  datatype Error =
    | StructError | ValueError | KeyError | AssertionError | AttributeError | FileMissing | OpenError | BusyError

  datatype Result<+T> = Ok(value: T) | Err(error: Error)

  /** Python's reading of a slice bound: from the end when negative, clamped to the list. */
  function Bound(i: int, n: nat): (b: nat)
    ensures b <= n
    ensures 0 <= i <= n ==> b == i
  {
    if i < 0 then (if i + n < 0 then 0 else i + n) else if i < n then i else n
  }

  /** Big-endian, as `struct.pack(">I", w)` writes it. */
  function Big32(w: u32): (b: bytes)
    ensures |b| == 4
  {
    [w / 0x100_0000, w / 0x1_0000 % 256, w / 256 % 256, w % 256]
  }

  function U16At(s: bytes, i: nat): (v: nat)
    requires i + 2 <= |s|
    ensures v < 0x1_0000
  {
    s[i] as int * 256 + s[i + 1] as int
  }

  function U32At(s: bytes, i: nat): u32
    requires i + 4 <= |s|
  {
    s[i] as int * 0x100_0000 + s[i + 1] as int * 0x1_0000 + s[i + 2] as int * 256 + s[i + 3] as int
  }

  lemma Big32ThenRead(w: u32)
    ensures U32At(Big32(w), 0) == w
  {
    var n: int := w;
    assert n / 256 / 256 == n / 0x1_0000 && n / 0x1_0000 / 256 == n / 0x100_0000;
  }

  lemma ReadThenBig32(s: bytes, i: nat)
    requires i + 4 <= |s|
    ensures Big32(U32At(s, i)) == s[i..i + 4]
  {
    var a: int, b: int, c: int, d: int, w: int := s[i], s[i + 1], s[i + 2], s[i + 3], U32At(s, i);
    assert w / 256 == a * 0x1_0000 + b * 256 + c;
    assert w / 0x1_0000 == a * 256 + b;
    assert w / 0x100_0000 == a;
  }

  /** The concatenation of a list of byte strings, as successive reads deliver it. */
  function Concat(parts: seq<bytes>): bytes {
    if parts == [] then [] else parts[0] + Concat(parts[1..])
  }

  lemma Regroup(a: bytes, b: bytes, c: bytes)
    ensures a + (b + c) == (a + b) + c
  {
  }

  lemma {:induction false} ConcatAppend(parts: seq<bytes>, last: bytes)
    ensures Concat(parts + [last]) == Concat(parts) + last
  {
    if parts == [] {
      assert parts + [last] == [last];
    } else {
      assert (parts + [last])[1..] == parts[1..] + [last];
      ConcatAppend(parts[1..], last);
    }
  }
}
