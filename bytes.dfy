/** Machine integers, big-endian field reads, C-string views and the C casts
    the dissector applies to decoded integers. */
module Bytes {

  type byte = x: int | 0 <= x < 0x100
  type u16 = x: int | 0 <= x < 0x1_0000
  type u32 = x: int | 0 <= x < 0x1_0000_0000
  type u64 = x: int | 0 <= x < 0x1_0000_0000_0000_0000
  type i32 = x: int | -0x8000_0000 <= x < 0x8000_0000
  type i64 = x: int | -0x8000_0000_0000_0000 <= x < 0x8000_0000_0000_0000
  type bytes = seq<byte>

  const TWO32: int := 0x1_0000_0000
  const MAX_U32: int := 0xFFFF_FFFF
  const MIN_I32: int := -0x8000_0000
  const MAX_I32: int := 0x7FFF_FFFF

  /** Big-endian 16-bit read (tvb_get_ntohs). */
  function BE16(s: bytes, off: nat): u16
    requires off + 2 <= |s|
  {
    (s[off] as int) * 0x100 + s[off + 1]
  }

  /** Big-endian 32-bit read (tvb_get_ntohl). */
  function BE32(s: bytes, off: nat): u32
    requires off + 4 <= |s|
  {
    (s[off] as int) * 0x100_0000 + (s[off + 1] as int) * 0x1_0000 + (s[off + 2] as int) * 0x100 + s[off + 3]
  }

  /** A `(guint32)` cast: keeps the low 32 bits. */
  function U32(x: int): u32
  {
    x % TWO32
  }

  /** A `(gint32)` cast: the low 32 bits read as two's complement. */
  function I32(x: int): i32
  {
    var w := x % TWO32;
    if w <= MAX_I32 then w else w - TWO32
  }

  /** Both casts keep the value modulo 2^32, and leave a value already in
      the target range unchanged. */
  lemma CastsWrap(x: int)
    ensures U32(x) % TWO32 == x % TWO32 && (0 <= x <= MAX_U32 ==> U32(x) == x)
    ensures I32(x) % TWO32 == x % TWO32 && (MIN_I32 <= x <= MAX_I32 ==> I32(x) == x)
  {
  }

  /** The bytes a C string function sees: everything before the first NUL. */
  function CStr(s: bytes): (r: bytes)
    ensures |r| <= |s| && r == s[..|r|]
    ensures forall i :: 0 <= i < |r| ==> r[i] != 0
    ensures |r| < |s| ==> s[|r|] == 0
  {
    if s == [] || s[0] == 0 then [] else [s[0]] + CStr(s[1..])
  }

  /** The bytes of an ASCII literal. */
  function Ascii(t: string): (r: bytes)
    ensures |r| == |t|
  {
    seq(|t|, i requires 0 <= i < |t| => (t[i] as int) % 0x100)
  }

  /** Concatenation regroups freely. */
  lemma AppendAssoc<T>(a: seq<T>, b: seq<T>, c: seq<T>)
    ensures (a + b) + c == a + (b + c)
  {
  }

  predicate StartsWith(s: bytes, prefix: bytes)
  {
    |prefix| <= |s| && s[..|prefix|] == prefix
  }

  /** `strncmp(CStr(s), p, |p|) == 0` for a literal `p` without NUL bytes
      only looks at the first |p| bytes of `s`. */
  lemma {:induction false} CStrPrefix(s: bytes, p: bytes)
    requires forall i :: 0 <= i < |p| ==> p[i] != 0
    ensures StartsWith(CStr(s), p) <==> StartsWith(s, p)
  {
  }

  /** An ASCII literal of printable characters holds no NUL byte. */
  lemma AsciiNoNul(t: string)
    requires forall i :: 0 <= i < |t| ==> 0 < t[i] as int < 0x80
    ensures forall i :: 0 <= i < |Ascii(t)| ==> Ascii(t)[i] != 0
  {
  }

  /** A C string of bytes with no NUL is the bytes themselves. */
  lemma {:induction false} NoNulCStr(s: bytes)
    requires forall i :: 0 <= i < |s| ==> s[i] != 0
    ensures CStr(s) == s
  {
    if s != [] {
      NoNulCStr(s[1..]);
    }
  }
}
