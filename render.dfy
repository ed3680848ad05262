/** The typed-value renderer used for parameter and property values
    (add_typed_value), and the text test the generic display applies to
    binary blobs. */
module Render {
  import opened Bytes
  import opened Values

  /** Which family of value fields a rendering goes to (is_property). */
  datatype Role = ParameterRole | PropertyRole

  /** The field type add_typed_value fills in. */
  datatype Kind = KString | KBoolean | KUInt | KUInt64 | KInt | KInt64 | KDouble | KUnsupported

  /** What the returned value string says: literal text, a decimal unsigned
      or signed number (printf "%u"/"%d"/PRIu64/PRId64), or "%f" of a float. */
  datatype Shown = Text(t: bytes) | UDec(n: nat) | SDec(i: int) | FloatF(f: FloatBits)

  datatype Rendered = Rendered(kind: Kind, shown: Shown)

  const TRUE_TEXT: bytes := Ascii("true")
  const FALSE_TEXT: bytes := Ascii("false")
  const UNSUPPORTED_TEXT: bytes := Ascii("[unsupported]")

  function BoolText(b: bool): bytes
  {
    if b then TRUE_TEXT else FALSE_TEXT
  }

  /** A one-byte blob holding 0 or 1: RBus's encoding of a boolean. */
  predicate IsBoolBlob(d: bytes)
  {
    |d| == 1 && (d[0] == 0 || d[0] == 1)
  }

  /** add_typed_value: one decoded value to a field kind and the value
      string returned for the "name=value" field. */
  function TypedValue(v: Value): Rendered
  {
    match v
    case Str(s) => Rendered(KString, Text(CStr(s)))
    case Bin(d) =>
      if IsBoolBlob(d) then Rendered(KBoolean, Text(BoolText(d[0] == 1)))
      else Rendered(KString, Text(CStr(d)))
    case PosInt(u) =>
      if u <= MAX_U32 then Rendered(KUInt, UDec(U32(u))) else Rendered(KUInt64, UDec(u))
    case NegInt(i) =>
      if MIN_I32 <= i <= MAX_I32 then Rendered(KInt, SDec(I32(i))) else Rendered(KInt64, SDec(i))
    case Float(f) => Rendered(KDouble, FloatF(f))
    case Boolean(b) => Rendered(KBoolean, Text(BoolText(b)))
    case _ => Rendered(KUnsupported, Text(UNSUPPORTED_TEXT))
  }

  /** Integers go to the 32-bit field kinds exactly when they fit and keep
      their full value in the returned string; blobs become booleans exactly
      when they are 0/1 bytes and are otherwise shown as C strings; nil,
      arrays, maps and extensions are unsupported. */
  lemma TypedValueKinds(v: Value, r: Rendered)
    requires r == TypedValue(v)
    ensures v.PosInt? ==> (r.kind == KUInt <==> v.u <= MAX_U32) && r.shown == UDec(v.u)
    ensures v.PosInt? ==> r.kind in {KUInt, KUInt64}
    ensures v.NegInt? ==> (r.kind == KInt <==> MIN_I32 <= v.i <= MAX_I32) && r.shown == SDec(v.i)
    ensures v.NegInt? ==> r.kind in {KInt, KInt64}
    ensures v.Bin? ==> (r.kind == KBoolean <==> IsBoolBlob(v.data))
    ensures v.Bin? && !IsBoolBlob(v.data) ==> r.shown == Text(CStr(v.data))
    ensures (v.Nil? || v.Array? || v.Map? || v.Ext?) <==> r.kind == KUnsupported
    ensures r.kind == KUnsupported ==> r.shown == Text(UNSUPPORTED_TEXT)
  {
    if v.PosInt? { CastsWrap(v.u); }
    if v.NegInt? { CastsWrap(v.i); }
  }

  /** The boolean readings: a Bool value and a 0/1 blob both render as the
      texts "true"/"false", and nothing else renders as a boolean. */
  lemma BooleanRendering(v: Value)
    ensures TypedValue(v).kind == KBoolean <==> v.Boolean? || (v.Bin? && IsBoolBlob(v.data))
    ensures v.Boolean? ==> TypedValue(v).shown == Text(BoolText(v.b))
    ensures v.Bin? && IsBoolBlob(v.data) ==> TypedValue(v).shown == Text(BoolText(v.data[0] == 1))
  {
  }

  // ---- the blob text test of the generic display ----

  /** The per-byte rule of the text test, as written: a NUL is allowed in
      the last position; control bytes other than tab, newline and carriage
      return fail; in 0x7F..0xBF only bytes outside 0x80..0xBF fail. */
  predicate ByteAccepted(x: byte, isLast: bool)
  {
    (x == 0 && isLast) ||
    (!(x < 0x20 && x != 9 && x != 10 && x != 13) &&
     !(0x7E < x < 0xC0 && (x < 0x80 || x > 0xBF)))
  }

  /** The loop over the blob from position i on; false as soon as a byte
      fails. */
  function ScanFrom(d: bytes, i: nat): bool
    requires i <= |d|
    decreases |d| - i
  {
    if i == |d| then true
    else ByteAccepted(d[i], i == |d| - 1) && ScanFrom(d, i + 1)
  }

  /** is_utf8 && size > 0: the blob is displayed as a string. */
  predicate BlobIsText(d: bytes)
  {
    |d| > 0 && ScanFrom(d, 0)
  }

  /** The byte classes the test accepts, written independently. */
  predicate TextByte(x: byte)
  {
    x == 9 || x == 10 || x == 13 || (0x20 <= x && x != 0x7F)
  }

  lemma {:induction false} ScanFromMeaning(d: bytes, i: nat)
    requires i <= |d|
    ensures ScanFrom(d, i) <==>
      forall k :: i <= k < |d| ==> TextByte(d[k]) || (k == |d| - 1 && d[k] == 0)
    decreases |d| - i
  {
    if i < |d| {
      ScanFromMeaning(d, i + 1);
      assert ByteAccepted(d[i], i == |d| - 1) <==> TextByte(d[i]) || (i == |d| - 1 && d[i] == 0);
    }
  }

  /** A blob is shown as text iff it is non-empty and every byte is a tab,
      newline, carriage return, or at least 0x20 and not 0x7F, except that
      the last byte may be NUL. */
  lemma BlobIsTextMeaning(d: bytes)
    ensures BlobIsText(d) <==>
      |d| > 0 && forall k :: 0 <= k < |d| ==> TextByte(d[k]) || (k == |d| - 1 && d[k] == 0)
  {
    ScanFromMeaning(d, 0);
  }

  /** Consequence: the test is no UTF-8 check; any blob of bytes 0x80..0xFF
      passes it. */
  lemma HighBytesPass(d: bytes)
    requires |d| > 0 && forall k :: 0 <= k < |d| ==> d[k] >= 0x80
    ensures BlobIsText(d)
  {
    BlobIsTextMeaning(d);
  }

  /** A NUL before the last position makes the blob binary. */
  lemma InnerNulFails(d: bytes, k: nat)
    requires k + 1 < |d| && d[k] == 0
    ensures !BlobIsText(d)
  {
    BlobIsTextMeaning(d);
  }
}
