/** The heuristic classifier (dissect_rbus_heur): a verdict on the first 22
    bytes of a candidate stream. */
module Heuristic {
  import opened Bytes

  /** The opening and closing header marker. */
  const MARKER: u16 := 0xAAAA
  /** Bytes up to and including the payload_length field. */
  const FIXED_HEADER: nat := 22
  /** RBUS_MAX_PAYLOAD_SIZE. */
  const MAX_PAYLOAD: nat := 10 * 1024 * 1024
  /** The version the heuristic insists on. */
  const HEURISTIC_VERSION: u16 := 2
  /** RBUS_PROTOCOL_VERSION, as the protocol header defines it. */
  const PROTOCOL_VERSION: u16 := 1
  const MIN_HEADER_LENGTH: nat := 32
  const MAX_HEADER_LENGTH: nat := 4096

  /** The comparisons of dissect_rbus_heur, in order. */
  predicate LooksLikeRbus(buf: bytes)
  {
    |buf| >= FIXED_HEADER &&
    BE16(buf, 0) == MARKER &&
    BE16(buf, 2) == HEURISTIC_VERSION &&
    MIN_HEADER_LENGTH <= BE16(buf, 4) <= MAX_HEADER_LENGTH &&
    BE32(buf, 18) <= MAX_PAYLOAD
  }

  /** The verdict is a function of the first 22 bytes: bytes at offset 22 and
      beyond never change it. */
  lemma PrefixDecides(buf: bytes, other: bytes)
    requires |buf| >= FIXED_HEADER && |other| >= FIXED_HEADER
    requires buf[..FIXED_HEADER] == other[..FIXED_HEADER]
    ensures LooksLikeRbus(buf) <==> LooksLikeRbus(other)
  {
    assert forall k :: 0 <= k < FIXED_HEADER ==> buf[k] == buf[..FIXED_HEADER][k];
    assert forall k :: 0 <= k < FIXED_HEADER ==> other[k] == other[..FIXED_HEADER][k];
  }

  /** A stream whose first two bytes are not the marker is rejected, and so
      is one whose version field is not 2, whatever else it holds. */
  lemma RejectsBadMarkerOrVersion(buf: bytes)
    requires |buf| >= 4 && (BE16(buf, 0) != MARKER || BE16(buf, 2) != HEURISTIC_VERSION)
    ensures !LooksLikeRbus(buf)
  {
  }

  /** As written, a header carrying the protocol header's own version number
      (1) is never recognised. */
  lemma RejectsProtocolVersion(buf: bytes)
    requires |buf| >= 4 && BE16(buf, 2) == PROTOCOL_VERSION
    ensures !LooksLikeRbus(buf)
  {
  }

  /** Fewer than 22 bytes are always rejected. */
  lemma RejectsShort(buf: bytes)
    requires |buf| < FIXED_HEADER
    ensures !LooksLikeRbus(buf)
  {
  }
}
