/** The message framer (dissect_rbus): the desegmentation requests, the
    length check, the walk over the variable part of the header, and the
    choice of how the payload is shown. */
module Framer {
  import opened Bytes
  import opened Values
  import opened Heuristic
  import Fields
  import Dispatch
  import Event
  import Fallback

  /** RBUS_MAX_TOPIC_LENGTH: a topic of this length or more is not read. */
  const MAX_TOPIC: nat := 1024
  /** The five round-trip timestamps. */
  const TIMESTAMP_BYTES: nat := 20
  /** Timestamps plus a closing marker: what the lookahead needs to remain. */
  const LOOKAHEAD: nat := 22
  /** '{' and '[': the first byte of a payload taken for JSON. */
  const OPEN_BRACE: byte := 0x7B
  const OPEN_BRACKET: byte := 0x5B

  /** What TCP desegmentation is asked for: DESEGMENT_ONE_MORE_SEGMENT, or
      an exact number of further bytes. */
  datatype Want = OneMoreSegment | Exactly(n: nat)

  /** The seven fixed header fields, as read from the first 22 bytes. */
  datatype Header = Header(marker: u16, version: u16, headerLength: u16, sequence: u32,
                           flags: u32, control: u32, payloadLength: u32)

  /** The expert annotations a walked message can carry. */
  datatype Annotation = MalformedHeader | TruncatedPacket

  /** The message type written to the info column. */
  datatype MessageKind = PlainMessage | RequestMessage | ForwardedRequest | ResponseMessage | ForwardedResponse

  /** The info column: "<type>: <topic>". */
  datatype Info = Info(kind: MessageKind, topic: bytes)

  /** How the payload is shown: not at all, as JSON text, as a structured
      RBus message, or by the generic MessagePack fallback. */
  datatype Payload =
    | NoPayload
    | Json(text: bytes)
    | Structured(fields: seq<Fields.Field>)
    | Generic(walk: Fallback.Walk)

  /** How the payload bytes that were captured get shown. */
  type Viewer = bytes -> Payload

  /** What dissect_rbus does with the captured bytes, with the value it
      returns. Aborted stands for a read past the captured bytes, which
      raises a bounds exception in the dissector; `at` is where that read
      starts. */
  datatype Outcome =
    | NeedMore(want: Want, returned: int)
    | Invalid(header: Header, returned: int)
    | Aborted(header: Header, at: nat)
    | Parsed(header: Header, topic: Option<bytes>, replyTopic: Option<bytes>, info: Option<Info>,
             timestamps: Option<seq<u32>>, closing: Option<u16>, headerEnd: nat,
             notes: seq<Annotation>, payload: Payload, returned: int)

  /** A length-prefixed topic read: the text if it was read and the offset
      after it, or the offset of the read that ran past the end. */
  datatype Read = Ran(text: Option<bytes>, next: nat) | PastEnd(at: nat)

  /** The optional timestamps and closing marker, and the offset after them. */
  datatype Trailer = Trailer(timestamps: Option<seq<u32>>, closing: Option<u16>, end: nat)

  // ---- specification ----

  /** The total message length header_length + payload_length, computed in
      32-bit unsigned arithmetic. */
  function Total(p: bytes): u32
    requires |p| >= FIXED_HEADER
  {
    U32(BE16(p, 4) + BE32(p, 18))
  }

  function HeaderOf(p: bytes): Header
    requires |p| >= FIXED_HEADER
  {
    Header(BE16(p, 0), BE16(p, 2), BE16(p, 4), BE32(p, 6), BE32(p, 10), BE32(p, 14), BE32(p, 18))
  }

  /** The message type from the request (bit 0) and response (bit 1) flags
      and whether the control word is zero; the request flag wins. */
  function KindOf(flags: u32, control: u32): (k: MessageKind)
    ensures (k == RequestMessage || k == ForwardedRequest) <==> flags % 4 == 1 || flags % 4 == 3
    ensures (k == ResponseMessage || k == ForwardedResponse) <==> flags % 4 == 2
    ensures k == PlainMessage <==> flags % 4 == 0
    ensures (k == ForwardedRequest || k == ForwardedResponse) <==> flags % 4 != 0 && control != 0
  {
    var low := flags % 4;
    if low == 1 || low == 3 then (if control == 0 then RequestMessage else ForwardedRequest)
    else if low == 2 then (if control == 0 then ResponseMessage else ForwardedResponse)
    else PlainMessage
  }

  /** The info column, written only when the topic was read; the C string
      formatting stops at the first NUL. */
  function InfoOf(h: Header, topic: Option<bytes>): (i: Option<Info>)
    ensures i.Some? <==> topic.Some?
    ensures i.Some? ==> i.value.kind == KindOf(h.flags, h.control) && i.value.topic == CStr(topic.value)
  {
    if topic.Some? then Some(Info(KindOf(h.flags, h.control), CStr(topic.value))) else None
  }

  /** A topic or reply topic at off: the length word is always consumed, the
      string only when its length is between 1 and 1023. */
  function ReadTopic(p: bytes, off: nat): (r: Read)
    ensures r.Ran? ==> off + 4 <= r.next <= |p|
  {
    if off + 4 > |p| then PastEnd(off)
    else
      var length := BE32(p, off);
      if 0 < length < MAX_TOPIC then
        if off + 4 + length > |p| then PastEnd(off + 4)
        else Ran(Some(p[off + 4..off + 4 + length]), off + 4 + length)
      else Ran(None, off + 4)
  }

  function TextLength(t: Option<bytes>): nat
  {
    if t.Some? then |t.value| else 0
  }

  /** The five big-endian timestamps T1..T5 at off. */
  function Stamps(p: bytes, off: nat): (ts: seq<u32>)
    requires off + TIMESTAMP_BYTES <= |p|
    ensures |ts| == 5 && forall k :: 0 <= k < 5 ==> ts[k] == BE32(p, off + 4 * k)
  {
    [BE32(p, off), BE32(p, off + 4), BE32(p, off + 8), BE32(p, off + 12), BE32(p, off + 16)]
  }

  /** After the reply topic: the timestamps are taken only when 22 bytes
      remain and a marker sits 20 bytes ahead, and the closing marker is
      read whenever 2 bytes remain then. */
  function TrailerAt(p: bytes, off: nat): (t: Trailer)
    requires off <= |p|
    ensures off <= t.end <= |p|
  {
    var remaining := |p| - off;
    var stamped := remaining >= LOOKAHEAD && BE16(p, off + TIMESTAMP_BYTES) == MARKER;
    var at := if stamped then off + TIMESTAMP_BYTES else off;
    if remaining >= 2 then Trailer(if stamped then Some(Stamps(p, off)) else None, Some(BE16(p, at)), at + 2)
    else Trailer(None, None, off)
  }

  /** The JSON test: at least two bytes, the first an opening brace or
      bracket. */
  predicate LooksLikeJson(q: bytes)
  {
    |q| > 1 && (q[0] == OPEN_BRACE || q[0] == OPEN_BRACKET)
  }

  /** How a non-empty payload is shown: JSON text up to the first NUL, else
      the structured parse when it claims the payload, else the generic
      fallback. */
  function View(q: bytes, dec: Decoder, depthLimit: nat, objectLimit: nat): (v: Payload)
    ensures !v.NoPayload?
  {
    if LooksLikeJson(q) then Json(CStr(q))
    else
      var parsed := Dispatch.StructuredParse(q, dec);
      if parsed.0 == 0 then Generic(Fallback.Generic(q, dec, depthLimit, objectLimit))
      else Structured(parsed.1)
  }

  function Min(a: nat, b: nat): nat
  {
    if a < b then a else b
  }

  /** The payload at off: truncated to what was captured, with an
      annotation when that is less than payload_length, and shown only
      when at least one byte of it is there; the offset moves on by
      payload_length only then. */
  function PayloadAt(p: bytes, off: nat, payloadLength: nat, view: Viewer): (r: (Payload, seq<Annotation>, nat))
    requires off <= |p|
    ensures r.1 == if payloadLength > |p| - off then [TruncatedPacket] else []
    ensures payloadLength == 0 || off == |p| ==> r.0 == NoPayload && r.2 == off
    ensures payloadLength > 0 && off < |p| ==>
      r.0 == view(p[off..off + Min(payloadLength, |p| - off)]) && r.2 == off + payloadLength
  {
    if payloadLength == 0 then (NoPayload, [], off)
    else
      var remaining := |p| - off;
      var actual := Min(payloadLength, remaining);
      var notes := if remaining < payloadLength then [TruncatedPacket] else [];
      if actual == 0 then (NoPayload, notes, off)
      else (view(p[off..off + actual]), notes, off + payloadLength)
  }

  /** dissect_rbus on the captured bytes p, whatever the payload viewer:
      the header walk does not depend on how the payload is shown. */
  function Framed(p: bytes, view: Viewer): Outcome
  {
    if |p| < 6 then NeedMore(OneMoreSegment, -|p|)
    else if |p| < FIXED_HEADER then NeedMore(OneMoreSegment, -|p|)
    else if |p| < Total(p) then NeedMore(Exactly(Total(p) - |p|), -|p|)
    else
      var h := HeaderOf(p);
      if h.headerLength > |p| || h.payloadLength > MAX_PAYLOAD then Invalid(h, |p|)
      else Walked(p, h, view)
  }

  /** What dissect_rbus returns, by length: a short capture asks for one
      more segment, a capture shorter than header_length + payload_length
      (taken modulo 2^32) asks for exactly the missing bytes, a header whose
      header_length exceeds the capture or whose payload_length exceeds
      10 MiB is rejected returning the capture length, and a walked message
      returns the end of its header, plus payload_length when at least one
      payload byte was captured. */
  lemma FramedMeaning(p: bytes, view: Viewer)
    ensures |p| < FIXED_HEADER ==> Framed(p, view) == NeedMore(OneMoreSegment, -|p|)
    ensures |p| >= FIXED_HEADER && |p| < Total(p) ==> Framed(p, view) == NeedMore(Exactly(Total(p) - |p|), -|p|)
    ensures var r := Framed(p, view);
      (r.NeedMore? <==> |p| < FIXED_HEADER || |p| < Total(p)) &&
      (r.Invalid? <==> !r.NeedMore? && (BE16(p, 4) > |p| || BE32(p, 18) > MAX_PAYLOAD)) &&
      (r.Invalid? ==> r.returned == |p|) &&
      (!r.NeedMore? ==> r.header == HeaderOf(p)) &&
      (r.Parsed? ==>
         FIXED_HEADER + 8 <= r.headerEnd <= |p| &&
         (r.returned == r.headerEnd || r.returned == r.headerEnd + r.header.payloadLength) &&
         (r.returned == r.headerEnd + r.header.payloadLength <==> r.header.payloadLength == 0 || r.headerEnd < |p|))
  {
  }

  /** The viewer dissect_rbus uses: the MessagePack decoder and the two
      generic-display preferences are parameters. */
  function ViewerOf(dec: Decoder, depthLimit: nat, objectLimit: nat): Viewer
  {
    q => View(q, dec, depthLimit, objectLimit)
  }

  /** dissect_rbus on the captured bytes p. */
  function Frame(p: bytes, dec: Decoder, depthLimit: nat, objectLimit: nat): Outcome
  {
    Framed(p, ViewerOf(dec, depthLimit, objectLimit))
  }

  /** Everything after the length check: the topic read at 22, the reply
      topic read where it ends, then the tail where that one ends; a read
      past the captured bytes aborts. */
  function Walked(p: bytes, h: Header, view: Viewer): (r: Outcome)
    requires |p| >= FIXED_HEADER
    ensures (r.Aborted? || r.Parsed?) && r.header == h
  {
    match ReadTopic(p, FIXED_HEADER)
    case PastEnd(at) => Aborted(h, at)
    case Ran(topic, afterTopic) =>
      match ReadTopic(p, afterTopic)
      case PastEnd(at) => Aborted(h, at)
      case Ran(reply, afterReply) => Tail(p, h, topic, reply, afterReply, view)
  }

  /** After the reply topic: the trailer, the malformed-header annotation
      when the closing marker is wrong, then the payload where the trailer
      ends; the returned value is that offset, plus payload_length when a
      byte of the payload was captured. */
  function Tail(p: bytes, h: Header, topic: Option<bytes>, reply: Option<bytes>, off: nat,
                view: Viewer): (r: Outcome)
    requires off <= |p|
    ensures r.Parsed? && r.header == h
    ensures off <= r.headerEnd <= |p|
    ensures r.returned == r.headerEnd || r.returned == r.headerEnd + h.payloadLength
    ensures r.returned == r.headerEnd + h.payloadLength <==> h.payloadLength == 0 || r.headerEnd < |p|
  {
    var t := TrailerAt(p, off);
    var malformed := if t.closing.Some? && t.closing.value != MARKER then [MalformedHeader] else [];
    var shown := PayloadAt(p, t.end, h.payloadLength, view);
    Parsed(h, topic, reply, InfoOf(h, topic), t.timestamps, t.closing, t.end,
           malformed + shown.1, shown.0, shown.2)
  }

  // ---- the dissector, step by step ----

  /** One length-prefixed topic, advancing the offset over what it reads. */
  method WalkTopic(p: bytes, off: nat) returns (r: Read)
    ensures r == ReadTopic(p, off)
  {
    if off + 4 > |p| {
      return PastEnd(off);
    }
    var length := BE32(p, off);
    var offset := off + 4;
    if 0 < length < MAX_TOPIC {
      if offset + length > |p| {
        return PastEnd(offset);
      }
      var text := p[offset..offset + length];
      offset := offset + length;
      return Ran(Some(text), offset);
    }
    return Ran(None, offset);
  }

  /** The timestamp lookahead and the closing marker. */
  method WalkTrailer(p: bytes, off: nat) returns (t: Trailer)
    requires off <= |p|
    ensures t == TrailerAt(p, off)
  {
    var offset := off;
    var remaining := |p| - offset;
    var timestamps: Option<seq<u32>> := None;
    if remaining >= LOOKAHEAD {
      var potential := BE16(p, offset + TIMESTAMP_BYTES);
      if potential == MARKER {
        var t1 := BE32(p, offset);
        offset := offset + 4;
        var t2 := BE32(p, offset);
        offset := offset + 4;
        var t3 := BE32(p, offset);
        offset := offset + 4;
        var t4 := BE32(p, offset);
        offset := offset + 4;
        var t5 := BE32(p, offset);
        offset := offset + 4;
        timestamps := Some([t1, t2, t3, t4, t5]);
      }
    }
    var closing: Option<u16> := None;
    if remaining >= 2 {
      closing := Some(BE16(p, offset));
      offset := offset + 2;
    }
    t := Trailer(timestamps, closing, offset);
  }

  /** The payload branch: the truncation check, the JSON test, the
      structured parse and, when that claims nothing, the generic loop. */
  method DissectPayload(p: bytes, off: nat, payloadLength: nat, dec: Decoder, depthLimit: nat, objectLimit: nat)
    returns (payload: Payload, notes: seq<Annotation>, next: nat)
    requires off <= |p|
    ensures (payload, notes, next) == PayloadAt(p, off, payloadLength, ViewerOf(dec, depthLimit, objectLimit))
  {
    payload, notes, next := NoPayload, [], off;
    if payloadLength > 0 {
      var remaining := |p| - off;
      var actual := payloadLength;
      if remaining < payloadLength {
        notes := [TruncatedPacket];
        actual := remaining;
      }
      if actual > 0 {
        var q := p[off..off + actual];
        if (q[0] == OPEN_BRACE || q[0] == OPEN_BRACKET) && actual > 1 {
          payload := Json(CStr(q));
        } else {
          var consumed, fields := Dispatch.ParsePayload(q, dec);
          if consumed == 0 {
            var objects, note, count, total, state, summary := Fallback.DecodeGeneric(q, dec, depthLimit, objectLimit);
            payload := Generic(Fallback.Walk(objects, note, count, total, state));
          } else {
            payload := Structured(fields);
          }
        }
        next := off + payloadLength;
      }
    }
  }

  /** The seven fixed fields, the offset advancing over each. */
  method ReadHeader(p: bytes) returns (h: Header)
    requires |p| >= FIXED_HEADER
    ensures h == HeaderOf(p)
  {
    var offset := 0;
    var marker := BE16(p, offset);
    offset := offset + 2;
    var version := BE16(p, offset);
    offset := offset + 2;
    var headerLength := BE16(p, offset);
    offset := offset + 2;
    var sequence := BE32(p, offset);
    offset := offset + 4;
    var flags := BE32(p, offset);
    offset := offset + 4;
    var control := BE32(p, offset);
    offset := offset + 4;
    var payloadLength := BE32(p, offset);
    h := Header(marker, version, headerLength, sequence, flags, control, payloadLength);
  }

  /** From the topic length word to the end of the payload. */
  method WalkMessage(p: bytes, h: Header, dec: Decoder, depthLimit: nat, objectLimit: nat) returns (o: Outcome)
    requires |p| >= FIXED_HEADER
    ensures o == Walked(p, h, ViewerOf(dec, depthLimit, objectLimit))
  {
    var offset := FIXED_HEADER;
    var topic := WalkTopic(p, offset);
    if topic.PastEnd? {
      return Aborted(h, topic.at);
    }
    offset := topic.next;
    var info: Option<Info> := None;
    if topic.text.Some? {
      info := Some(Info(KindOf(h.flags, h.control), CStr(topic.text.value)));
    }
    var reply := WalkTopic(p, offset);
    if reply.PastEnd? {
      return Aborted(h, reply.at);
    }
    offset := reply.next;
    o := WalkTail(p, h, topic.text, reply.text, info, offset, dec, depthLimit, objectLimit);
  }

  /** The trailer and the payload. */
  method WalkTail(p: bytes, h: Header, topic: Option<bytes>, reply: Option<bytes>, info: Option<Info>, off: nat,
                  dec: Decoder, depthLimit: nat, objectLimit: nat) returns (o: Outcome)
    requires off <= |p| && info == InfoOf(h, topic)
    ensures o == Tail(p, h, topic, reply, off, ViewerOf(dec, depthLimit, objectLimit))
  {
    var trailer := WalkTrailer(p, off);
    var offset := trailer.end;
    var malformed: seq<Annotation> := [];
    if trailer.closing.Some? && trailer.closing.value != MARKER {
      malformed := [MalformedHeader];
    }
    var payload, notes, next := DissectPayload(p, offset, h.payloadLength, dec, depthLimit, objectLimit);
    o := Parsed(h, topic, reply, info, trailer.timestamps, trailer.closing, offset,
                malformed + notes, payload, next);
  }

  /** dissect_rbus: the desegmentation checks, the fixed header, the length
      check, then the walk. */
  method Dissect(p: bytes, dec: Decoder, depthLimit: nat, objectLimit: nat) returns (o: Outcome)
    ensures o == Frame(p, dec, depthLimit, objectLimit)
  {
    var available := |p|;
    if available < 6 {
      return NeedMore(OneMoreSegment, -available);
    }
    var headerLen := BE16(p, 4);
    if available < FIXED_HEADER {
      return NeedMore(OneMoreSegment, -available);
    }
    var payloadLen := BE32(p, 18);
    var total := U32(headerLen + payloadLen);
    if available < total {
      return NeedMore(Exactly(total - available), -available);
    }
    var h := ReadHeader(p);
    if h.headerLength > |p| || h.payloadLength > MAX_PAYLOAD {
      return Invalid(h, |p|);
    }
    o := WalkMessage(p, h, dec, depthLimit, objectLimit);
  }

  // ---- properties ----

  /** A topic or reply topic at off: the length word is always consumed, the
      string only when its length is between 1 and 1023; a read past the
      captured bytes aborts at the length word or at the string. */
  lemma TopicConsumption(p: bytes, off: nat)
    ensures var r := ReadTopic(p, off);
      (r.PastEnd? <==> off + 4 > |p| || (0 < BE32(p, off) < MAX_TOPIC && off + 4 + BE32(p, off) > |p|)) &&
      (r.PastEnd? ==> (r.at == off <==> off + 4 > |p|) && (r.at == off || r.at == off + 4)) &&
      (r.Ran? ==> (r.text.Some? <==> 0 < BE32(p, off) < MAX_TOPIC)) &&
      (r.Ran? ==> r.next == off + 4 + TextLength(r.text)) &&
      (r.Ran? && r.text.Some? ==> |r.text.value| == BE32(p, off) && r.text.value == p[off + 4..r.next])
  {
  }

  /** After the reply topic: the timestamps are taken exactly when 22 bytes
      remain and a marker sits 20 bytes ahead, and the closing marker is read
      exactly when 2 bytes remain, right after the timestamps if there are
      any, so after timestamps it is always the marker. */
  lemma TrailerMeaning(p: bytes, off: nat)
    requires off <= |p|
    ensures var t := TrailerAt(p, off);
      (t.timestamps.Some? <==> |p| - off >= LOOKAHEAD && BE16(p, off + TIMESTAMP_BYTES) == MARKER) &&
      (t.timestamps.Some? ==> t.timestamps.value == Stamps(p, off) && t.closing == Some(MARKER)) &&
      (t.closing.Some? <==> |p| - off >= 2) &&
      t.end == off + (if t.timestamps.Some? then TIMESTAMP_BYTES else 0) + (if t.closing.Some? then 2 else 0) &&
      (t.closing.Some? ==> t.closing.value == BE16(p, t.end - 2))
  {
  }

  /** What the tail of a walk holds. */
  lemma TailMeaning(p: bytes, h: Header, topic: Option<bytes>, reply: Option<bytes>, off: nat, view: Viewer)
    requires off <= |p|
    ensures var r := Tail(p, h, topic, reply, off, view); var t := TrailerAt(p, off);
      r.topic == topic && r.replyTopic == reply && r.info == InfoOf(h, topic) &&
      r.timestamps == t.timestamps && r.closing == t.closing && r.headerEnd == t.end &&
      (MalformedHeader in r.notes <==> r.closing.Some? && r.closing.value != MARKER) &&
      (TruncatedPacket in r.notes <==> h.payloadLength > |p| - r.headerEnd) &&
      r.payload == PayloadAt(p, r.headerEnd, h.payloadLength, view).0 &&
      r.returned == PayloadAt(p, r.headerEnd, h.payloadLength, view).2
  {
  }

  /** The payload view: JSON exactly when the JSON test holds, shown up to
      the first NUL; otherwise structured exactly when the structured parse
      claims the payload, and the generic fallback when it claims nothing. */
  lemma ViewChoice(q: bytes, dec: Decoder, depthLimit: nat, objectLimit: nat)
    ensures var v := View(q, dec, depthLimit, objectLimit);
      (v.Json? <==> LooksLikeJson(q)) && (v.Json? ==> v.text == CStr(q)) &&
      (v.Structured? <==> !LooksLikeJson(q) && Dispatch.StructuredParse(q, dec).0 == |q| > 0) &&
      (v.Structured? ==> v.fields == Dispatch.StructuredParse(q, dec).1) &&
      (v.Generic? <==> !LooksLikeJson(q) && Dispatch.StructuredParse(q, dec).0 == 0) &&
      (v.Generic? ==> v.walk == Fallback.Generic(q, dec, depthLimit, objectLimit))
  {
    Dispatch.ClaimsAllOrNothing(q, dec);
  }

  /** The text the structured parse appends to the info column: " Event: "
      and the event name, when the payload was claimed by the event layout
      (the one layout whose first field is the event name). */
  function EventNote(v: Payload): Option<bytes>
  {
    if v.Structured? && |v.fields| > 0 && v.fields[0].StrField? && v.fields[0].id == Fields.EventName
    then Some(EVENT_LABEL + v.fields[0].text)
    else None
  }

  const EVENT_LABEL: bytes := Ascii(" Event: ")

  /** The info column gains " Event: <name>" exactly when the payload is not
      JSON, at least six objects decode, none is a "METHOD_" string and the
      first is a string; the name is that string up to its first NUL. */
  lemma EventNoteChoice(q: bytes, dec: Decoder, depthLimit: nat, objectLimit: nat)
    ensures var vals := Dispatch.Collect(q, dec, 0, Dispatch.MAX_OBJECTS);
      var e := EventNote(View(q, dec, depthLimit, objectLimit));
      (e.Some? <==> !LooksLikeJson(q) && |vals| >= 6 && vals[0].Str? && Dispatch.FirstMarker(vals, 0).None?) &&
      (e.Some? ==> e.value == EVENT_LABEL + CStr(vals[0].s))
  {
    var vals := Dispatch.Collect(q, dec, 0, Dispatch.MAX_OBJECTS);
    if !LooksLikeJson(q) && |vals| >= 4 {
      match Dispatch.FirstMarker(vals, 0)
      case None =>
        if |vals| >= 6 && vals[0].Str? {
          Event.EventStartsWithName(vals);
        }
      case Some(m) =>
        Dispatch.MarkerClaim(vals, |q|);
    }
  }

  /** Every byte of the header walk r of p is accounted for: the topic
      length word at 22, the topic text when its length is 1..1023, the
      reply topic likewise, then the timestamps when the lookahead finds a
      marker and the closing marker when two bytes remain; the closing marker
      is flagged exactly when it differs from 0xAAAA, which never happens
      after timestamps. */
  predicate WalkAccounted(p: bytes, r: Outcome)
  {
    r.Parsed? &&
    var afterTopic := FIXED_HEADER + 4 + TextLength(r.topic);
    var afterReply := afterTopic + 4 + TextLength(r.replyTopic);
    afterReply <= r.headerEnd <= |p| &&
    (r.topic.Some? <==> 0 < BE32(p, FIXED_HEADER) < MAX_TOPIC) &&
    (r.topic.Some? ==> r.topic.value == p[FIXED_HEADER + 4..afterTopic] && |r.topic.value| == BE32(p, FIXED_HEADER)) &&
    (r.replyTopic.Some? <==> 0 < BE32(p, afterTopic) < MAX_TOPIC) &&
    (r.replyTopic.Some? ==> r.replyTopic.value == p[afterTopic + 4..afterReply] && |r.replyTopic.value| == BE32(p, afterTopic)) &&
    (r.timestamps.Some? <==> |p| - afterReply >= LOOKAHEAD && BE16(p, afterReply + TIMESTAMP_BYTES) == MARKER) &&
    (r.closing.Some? <==> |p| - afterReply >= 2) &&
    r.headerEnd == afterReply + (if r.timestamps.Some? then TIMESTAMP_BYTES else 0) + (if r.closing.Some? then 2 else 0) &&
    (MalformedHeader in r.notes <==> r.closing.Some? && r.closing.value != MARKER) &&
    (r.timestamps.Some? ==> MalformedHeader !in r.notes)
  }

  /** The tail after two topic reads that ran is accounted for. */
  lemma TailAccounted(p: bytes, h: Header, view: Viewer)
    requires |p| >= FIXED_HEADER
    requires var t1 := ReadTopic(p, FIXED_HEADER); t1.Ran? && ReadTopic(p, t1.next).Ran?
    ensures var t1 := ReadTopic(p, FIXED_HEADER); var t2 := ReadTopic(p, t1.next);
      WalkAccounted(p, Tail(p, h, t1.text, t2.text, t2.next, view))
  {
    TopicConsumption(p, FIXED_HEADER);
    var t1 := ReadTopic(p, FIXED_HEADER);
    TopicConsumption(p, t1.next);
    var t2 := ReadTopic(p, t1.next);
    TrailerMeaning(p, t2.next);
    TailMeaning(p, h, t1.text, t2.text, t2.next, view);
  }

  /** A walked frame is accounted for byte by byte. */
  lemma HeaderWalk(p: bytes, view: Viewer)
    requires Framed(p, view).Parsed?
    ensures WalkAccounted(p, Framed(p, view))
  {
    FramedAsTail(p, view);
    TailAccounted(p, HeaderOf(p), view);
  }

  /** A topic read depends only on the bytes it reads. */
  lemma ReadTopicAgrees(p: bytes, q: bytes, off: nat, hi: nat)
    requires |p| == |q| && hi <= |p|
    requires forall i :: off <= i < hi ==> p[i] == q[i]
    requires hi == |p| || (ReadTopic(p, off).Ran? && ReadTopic(p, off).next <= hi)
    ensures ReadTopic(q, off) == ReadTopic(p, off)
  {
    if off + 4 <= |p| {
      assert BE32(q, off) == BE32(p, off);
      var length := BE32(p, off);
      if 0 < length < MAX_TOPIC && off + 4 + length <= |p| {
        assert q[off + 4..off + 4 + length] == p[off + 4..off + 4 + length];
      }
    }
  }

  /** The payload view depends only on the bytes from off on. */
  lemma PayloadAgrees(p: bytes, q: bytes, off: nat, payloadLength: nat, view: Viewer)
    requires |p| == |q| && off <= |p|
    requires forall i :: off <= i < |p| ==> p[i] == q[i]
    ensures PayloadAt(q, off, payloadLength, view) == PayloadAt(p, off, payloadLength, view)
  {
    var actual := Min(payloadLength, |p| - off);
    assert q[off..off + actual] == p[off..off + actual];
  }

  /** The trailer depends only on the bytes from off on. */
  lemma TrailerAgrees(p: bytes, q: bytes, off: nat)
    requires |p| == |q| && off <= |p|
    requires forall i :: off <= i < |p| ==> p[i] == q[i]
    ensures TrailerAt(q, off) == TrailerAt(p, off)
  {
    if |p| - off >= LOOKAHEAD {
      assert BE16(q, off + TIMESTAMP_BYTES) == BE16(p, off + TIMESTAMP_BYTES);
      assert Stamps(q, off) == Stamps(p, off) by {
        assert BE32(q, off) == BE32(p, off) && BE32(q, off + 4) == BE32(p, off + 4);
        assert BE32(q, off + 8) == BE32(p, off + 8) && BE32(q, off + 12) == BE32(p, off + 12);
        assert BE32(q, off + 16) == BE32(p, off + 16);
      }
    }
    if |p| - off >= 2 {
      assert BE16(q, off) == BE16(p, off);
    }
  }

  /** A walk depends only on the bytes from the topic length word on. */
  lemma WalkedAgrees(p: bytes, q: bytes, h: Header, view: Viewer)
    requires |p| == |q| && |p| >= FIXED_HEADER
    requires forall i :: FIXED_HEADER <= i < |p| ==> p[i] == q[i]
    ensures Walked(q, h, view) == Walked(p, h, view)
  {
    ReadTopicAgrees(p, q, FIXED_HEADER, |p|);
    var t1 := ReadTopic(p, FIXED_HEADER);
    if t1.Ran? {
      ReadTopicAgrees(p, q, t1.next, |p|);
      var t2 := ReadTopic(p, t1.next);
      if t2.Ran? {
        TrailerAgrees(p, q, t2.next);
        PayloadAgrees(p, q, TrailerAt(p, t2.next).end, h.payloadLength, view);
      }
    }
  }

  /** The fixed header is read from the first 22 bytes. */
  lemma HeaderAgrees(p: bytes, q: bytes)
    requires |p| >= FIXED_HEADER && |q| >= FIXED_HEADER
    requires forall i :: 4 <= i < FIXED_HEADER ==> p[i] == q[i]
    ensures Total(q) == Total(p)
    ensures HeaderOf(q) == HeaderOf(p).(marker := BE16(q, 0), version := BE16(q, 2))
  {
    assert BE16(q, 4) == BE16(p, 4) && BE32(q, 18) == BE32(p, 18);
    assert BE32(q, 6) == BE32(p, 6) && BE32(q, 10) == BE32(p, 10) && BE32(q, 14) == BE32(p, 14);
  }

  /** The same outcome with another header. */
  function WithHeader(o: Outcome, g: Header): Outcome
  {
    if o.NeedMore? then o else o.(header := g)
  }

  /** A walk uses only the flags, control and payload_length of the header
      it is given. */
  lemma WalkedHeader(p: bytes, h: Header, g: Header, view: Viewer)
    requires |p| >= FIXED_HEADER
    requires g.flags == h.flags && g.control == h.control && g.payloadLength == h.payloadLength
    ensures Walked(p, g, view) == WithHeader(Walked(p, h, view), g)
  {
    var t1 := ReadTopic(p, FIXED_HEADER);
    if t1.Ran? {
      var t2 := ReadTopic(p, t1.next);
      if t2.Ran? {
        assert InfoOf(g, t1.text) == InfoOf(h, t1.text);
        assert Tail(p, g, t1.text, t2.text, t2.next, view) == WithHeader(Tail(p, h, t1.text, t2.text, t2.next, view), g);
      }
    }
  }

  /** The framer reads the opening marker and the version but never tests
      them: changing the first four bytes changes only those two header
      fields of the outcome. Only the heuristic looks at them. */
  lemma MarkerAndVersionUnchecked(p: bytes, q: bytes, view: Viewer)
    requires |p| == |q| && |p| >= FIXED_HEADER
    requires forall i :: 4 <= i < |p| ==> p[i] == q[i]
    ensures var o := Framed(p, view);
      Framed(q, view) ==
        if o.NeedMore? then o else o.(header := o.header.(marker := BE16(q, 0), version := BE16(q, 2)))
  {
    HeaderAgrees(p, q);
    var hp := HeaderOf(p);
    var hq := HeaderOf(q);
    if |p| >= Total(p) && hp.headerLength <= |p| && hp.payloadLength <= MAX_PAYLOAD {
      WalkedAgrees(p, q, hq, view);
      WalkedHeader(p, hp, hq, view);
      assert Framed(q, view) == Walked(q, hq, view);
      assert Framed(p, view) == Walked(p, hp, view);
    }
  }

  /** Rewriting the two closing-marker bytes of a trailer without
      timestamps changes only the marker read. */
  lemma TrailerClosing(p: bytes, q: bytes, off: nat)
    requires |q| == |p| && off + 2 <= |p|
    requires TrailerAt(p, off).timestamps.None?
    requires forall i :: off + 2 <= i < |p| ==> q[i] == p[i]
    ensures TrailerAt(q, off) == Trailer(None, Some(BE16(q, off)), off + 2)
  {
    if |p| - off >= LOOKAHEAD {
      assert BE16(q, off + TIMESTAMP_BYTES) == BE16(p, off + TIMESTAMP_BYTES);
    }
  }

  /** A walked frame is the tail after its two topic reads. */
  lemma FramedAsTail(p: bytes, view: Viewer)
    requires Framed(p, view).Parsed?
    ensures |p| >= FIXED_HEADER && ReadTopic(p, FIXED_HEADER).Ran?
    ensures var t1 := ReadTopic(p, FIXED_HEADER);
      ReadTopic(p, t1.next).Ran? &&
      (var t2 := ReadTopic(p, t1.next);
       Framed(p, view) == Tail(p, HeaderOf(p), t1.text, t2.text, t2.next, view))
  {
    assert Framed(p, view) == Walked(p, HeaderOf(p), view);
  }

  /** A buffer that agrees with a walked frame up to the end of its reply
      topic is walked the same way up to there. */
  lemma SameTopics(p: bytes, q: bytes, view: Viewer)
    requires Framed(p, view).Parsed? && |q| == |p|
    requires var t1 := ReadTopic(p, FIXED_HEADER); var t2 := ReadTopic(p, t1.next);
      t1.Ran? && t2.Ran? && t2.next <= |p| && q[..t2.next] == p[..t2.next]
    ensures var t1 := ReadTopic(p, FIXED_HEADER); var t2 := ReadTopic(p, t1.next);
      Framed(q, view) == Tail(q, HeaderOf(p), t1.text, t2.text, t2.next, view)
  {
    FramedAsTail(p, view);
    var t1 := ReadTopic(p, FIXED_HEADER);
    var t2 := ReadTopic(p, t1.next);
    forall i | 0 <= i < t2.next
      ensures q[i] == p[i]
    {
      assert q[..t2.next][i] == p[..t2.next][i];
    }
    HeaderAgrees(p, q);
    assert BE16(q, 0) == BE16(p, 0) && BE16(q, 2) == BE16(p, 2);
    ReadTopicAgrees(p, q, FIXED_HEADER, t2.next);
    ReadTopicAgrees(p, q, t1.next, t2.next);
    assert Framed(q, view) == Walked(q, HeaderOf(q), view);
  }

  /** Two walked outcomes that differ only in the closing marker, which in
      the second is m, and in the malformed-header annotation it implies. */
  predicate OnlyClosingDiffers(r: Outcome, s: Outcome, m: u16)
  {
    r.Parsed? && r.timestamps.None? && s.Parsed? &&
    s == r.(closing := Some(m), notes := s.notes) &&
    (MalformedHeader in s.notes <==> m != MARKER) &&
    (TruncatedPacket in s.notes <==> TruncatedPacket in r.notes)
  }

  /** The tail with a rewritten closing marker and no timestamps. */
  lemma TailClosing(p: bytes, q: bytes, h: Header, topic: Option<bytes>, reply: Option<bytes>, off: nat, view: Viewer)
    requires |q| == |p| && off + 2 <= |p|
    requires TrailerAt(p, off).timestamps.None?
    requires forall i :: off + 2 <= i < |p| ==> q[i] == p[i]
    ensures OnlyClosingDiffers(Tail(p, h, topic, reply, off, view), Tail(q, h, topic, reply, off, view), BE16(q, off))
  {
    TrailerMeaning(p, off);
    TrailerClosing(p, q, off);
    TailMeaning(p, h, topic, reply, off, view);
    TailMeaning(q, h, topic, reply, off, view);
    PayloadAgrees(p, q, off + 2, h.payloadLength, view);
  }

  /** The first half of ClosingMarkerOnlyAnnotates: the walked frame
      against the tail of the rewritten buffer after p's reply topic. */
  lemma ClosingTail(p: bytes, q: bytes, view: Viewer)
    requires Framed(p, view).Parsed?
    requires Framed(p, view).timestamps.None?
    requires Framed(p, view).closing.Some?
    requires |q| == |p|
    requires var e := Framed(p, view).headerEnd;
      q[..e - 2] == p[..e - 2] && q[e..] == p[e..]
    ensures var t1 := ReadTopic(p, FIXED_HEADER); var t2 := ReadTopic(p, t1.next);
      t1.Ran? && t2.Ran? && t2.next + 2 == Framed(p, view).headerEnd &&
      OnlyClosingDiffers(Framed(p, view), Tail(q, HeaderOf(p), t1.text, t2.text, t2.next, view), BE16(q, t2.next))
  {
    var e := Framed(p, view).headerEnd;
    FramedAsTail(p, view);
    var h := HeaderOf(p);
    var t1 := ReadTopic(p, FIXED_HEADER);
    var t2 := ReadTopic(p, t1.next);
    var off := t2.next;
    assert off + 2 == e && TrailerAt(p, off).timestamps.None? by {
      TrailerMeaning(p, off);
      TailMeaning(p, h, t1.text, t2.text, off, view);
    }
    forall i | off + 2 <= i < |p|
      ensures q[i] == p[i]
    {
      assert q[e..][i - e] == p[e..][i - e];
    }
    TailClosing(p, q, h, t1.text, t2.text, off, view);
  }

  /** A closing marker other than 0xAAAA adds the malformed-header
      annotation and nothing else: whatever the two marker bytes hold, the
      topics, the offsets, the payload view and the returned value stay the
      same. (After timestamps the closing marker is the lookahead marker, so
      the statement is about frames without them.) */
  lemma ClosingMarkerOnlyAnnotates(p: bytes, q: bytes, view: Viewer)
    requires Framed(p, view).Parsed?
    requires Framed(p, view).timestamps.None?
    requires Framed(p, view).closing.Some?
    requires |q| == |p|
    requires var e := Framed(p, view).headerEnd;
      q[..e - 2] == p[..e - 2] && q[e..] == p[e..]
    ensures var e := Framed(p, view).headerEnd;
      OnlyClosingDiffers(Framed(p, view), Framed(q, view), BE16(q, e - 2))
  {
    ClosingTail(p, q, view);
    SameTopics(p, q, view);
  }

  /** With 22 to 25 bytes that pass the length checks (a header whose
      lengths add up to at most the capture) the topic length word is read
      past the end. */
  lemma ShortCaptureAborts(p: bytes, view: Viewer)
    requires FIXED_HEADER <= |p| < FIXED_HEADER + 4
    requires Total(p) <= |p| && BE16(p, 4) <= |p| && BE32(p, 18) <= MAX_PAYLOAD
    ensures Framed(p, view) == Aborted(HeaderOf(p), FIXED_HEADER)
  {
  }

  /** When header_length + payload_length wraps around 2^32 the total is too
      small, but the payload_length check still stops the message: a
      wrapped total never leads to a walk. */
  lemma WrappedTotalNeverWalks(p: bytes, view: Viewer)
    requires |p| >= FIXED_HEADER && BE16(p, 4) + BE32(p, 18) >= TWO32
    ensures Framed(p, view).NeedMore? || Framed(p, view).Invalid?
  {
  }

  /** A capture the heuristic accepts and that holds header_length +
      payload_length bytes passes both length checks and is walked. */
  lemma RecognisedCompleteMessageIsWalked(p: bytes, view: Viewer)
    requires LooksLikeRbus(p) && BE16(p, 4) + BE32(p, 18) <= |p|
    ensures var r := Framed(p, view); r.Aborted? || r.Parsed?
  {
  }

  /** The returned offset comes from the walked header, not from
      header_length: a 32-byte message announcing a 20-byte header and no
      payload returns 32. */
  lemma HeaderLengthNotUsedForReturn(view: Viewer)
    ensures var p: bytes := [0xAA, 0xAA, 0, 2, 0, 20, 0, 0, 0, 1, 0, 0, 0, 1, 0, 0, 0, 0, 0, 0, 0, 0,
                             0, 0, 0, 0, 0, 0, 0, 0, 0xAA, 0xAA];
      var r := Framed(p, view);
      BE16(p, 4) + BE32(p, 18) == 20 && r.Parsed? && r.returned == 32 && r.notes == [] && r.payload.NoPayload?
  {
    var p: bytes := [0xAA, 0xAA, 0, 2, 0, 20, 0, 0, 0, 1, 0, 0, 0, 1, 0, 0, 0, 0, 0, 0, 0, 0,
                     0, 0, 0, 0, 0, 0, 0, 0, 0xAA, 0xAA];
    assert BE16(p, 4) == 20 && BE32(p, 18) == 0;
    assert ReadTopic(p, 22) == Ran(None, 26);
    assert ReadTopic(p, 26) == Ran(None, 30);
    assert TrailerAt(p, 30) == Trailer(None, Some(MARKER), 32);
  }

  /** payload_length is added to the returned offset only when a byte of
      the payload was captured: a 32-byte capture whose header ends at its
      last byte and announces 5 payload bytes returns 32, with the
      truncation note and no payload shown. */
  lemma UncapturedPayloadNotAdded(view: Viewer)
    ensures var p: bytes := [0xAA, 0xAA, 0, 1, 0, 0, 0, 0, 0, 1, 0, 0, 0, 1, 0, 0, 0, 0, 0, 0, 0, 5,
                             0, 0, 0, 0, 0, 0, 0, 0, 0xAA, 0xAA];
      var r := Framed(p, view);
      r.Parsed? && r.header.payloadLength == 5 && r.headerEnd == 32 && r.returned == 32 &&
      r.notes == [TruncatedPacket] && r.payload.NoPayload?
  {
    var p: bytes := [0xAA, 0xAA, 0, 1, 0, 0, 0, 0, 0, 1, 0, 0, 0, 1, 0, 0, 0, 0, 0, 0, 0, 5,
                     0, 0, 0, 0, 0, 0, 0, 0, 0xAA, 0xAA];
    assert BE16(p, 4) == 0 && BE32(p, 18) == 5;
    assert ReadTopic(p, 22) == Ran(None, 26);
    assert ReadTopic(p, 26) == Ran(None, 30);
    assert TrailerAt(p, 30) == Trailer(None, Some(MARKER), 32);
  }

  /** A capture the heuristic accepts whose header fills it: header_length
      32, payload_length 5, a 10-byte topic, no reply topic and the closing
      marker as its last two bytes. */
  const ACCEPTED_UNCAPTURED: bytes :=
    [0xAA, 0xAA, 0, 2, 0, 32, 0, 0, 0, 1, 0, 0, 0, 1, 0, 0, 0, 0, 0, 0, 0, 5,
     0, 0, 0, 10, 0x61, 0x2E, 0x62, 0x2E, 0x63, 0x2E, 0x64, 0x2E, 0x65, 0x66,
     0, 0, 0, 0, 0xAA, 0xAA]

  /** The heuristic accepts that capture. */
  lemma AcceptedUncapturedRecognised()
    ensures LooksLikeRbus(ACCEPTED_UNCAPTURED)
  {
    var p := ACCEPTED_UNCAPTURED;
    assert p[0] == 0xAA && p[1] == 0xAA && p[2] == 0 && p[3] == 2 && p[4] == 0 && p[5] == 32;
    assert p[18] == 0 && p[19] == 0 && p[20] == 0 && p[21] == 5;
  }

  /** The same happens to that capture: it returns 42, with the truncation
      note and no payload shown. */
  lemma AcceptedUncapturedPayload(view: Viewer)
    ensures var r := Framed(ACCEPTED_UNCAPTURED, view);
      LooksLikeRbus(ACCEPTED_UNCAPTURED) && r.Parsed? && r.headerEnd == 42 && r.returned == 42 &&
      r.notes == [TruncatedPacket] && r.payload.NoPayload?
  {
    var p := ACCEPTED_UNCAPTURED;
    AcceptedUncapturedRecognised();
    assert BE16(p, 4) == 32 && BE32(p, 18) == 5;
    assert ReadTopic(p, 22) == Ran(Some(p[26..36]), 36);
    assert ReadTopic(p, 36) == Ran(None, 40);
    assert TrailerAt(p, 40) == Trailer(None, Some(MARKER), 42);
  }
}
