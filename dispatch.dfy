/** The structured payload parser (parse_rbus_payload): decode up to 20000
    top-level objects, find the method-name marker, emit the metadata
    fields after it and the per-verb layout before it, or fall back to the
    event-publication layout when there is no marker. */
module Dispatch {
  import opened Bytes
  import opened Values
  import opened Render
  import opened Fields
  import opened Layout
  import opened Event

  /** MAX_OBJECTS: the capacity of the object array. */
  const MAX_OBJECTS: nat := 20000

  // ---- collection and marker search ----

  /** msgpack_unpack_next on the payload from offset off. A success
      consumes at least one and at most all of the remaining bytes; a reply
      outside that range, which the library never gives, counts as a
      failure. */
  function DecodeAt(payload: bytes, dec: Decoder, off: nat): (r: Option<Decoded>)
    requires off <= |payload|
    ensures r.Some? ==> 0 < r.value.size <= |payload| - off
  {
    var r := dec(payload[off..]);
    if r.Some? && 0 < r.value.size <= |payload| - off then r else None
  }

  /** The objects the collection loop stores, decoding from offset off with
      room for `room` more: it stops at the end of the payload, when the
      array is full, or at the first decoding failure. */
  function Collect(payload: bytes, dec: Decoder, off: nat, room: nat): (r: seq<Value>)
    requires off <= |payload|
    ensures |r| <= room
    ensures |r| <= |payload| - off
    decreases |payload| - off
  {
    if off == |payload| || room == 0 then []
    else match DecodeAt(payload, dec, off)
      case None => []
      case Some(d) => [d.value] + Collect(payload, dec, off + d.size, room - 1)
  }

  /** The index of the first "METHOD_" string at or after i. */
  function FirstMarker(vals: seq<Value>, i: nat): (r: Option<nat>)
    requires i <= |vals|
    ensures r.Some? ==> i <= r.value < |vals| && IsMarker(vals[r.value])
    ensures r.Some? ==> forall j :: i <= j < r.value ==> !IsMarker(vals[j])
    ensures r.None? ==> forall j :: i <= j < |vals| ==> !IsMarker(vals[j])
    decreases |vals| - i
  {
    if i == |vals| then None
    else if IsMarker(vals[i]) then Some(i)
    else FirstMarker(vals, i + 1)
  }

  // ---- metadata and verb layouts ----

  /** The metadata subtree: the method name, then the OpenTelemetry parent
      and state when they are strings, then the offset field as int32
      whenever a fourth value follows the marker. */
  function MetadataFields(vals: seq<Value>, m: nat): seq<Field>
    requires m < |vals| && vals[m].Str?
  {
    var n := |vals|;
    [MetadataTree, StrField(MethodName, CStr(vals[m].s))] +
    (if m + 1 < n && vals[m + 1].Str? then [StrField(OtParent, CStr(vals[m + 1].s))] else []) +
    (if m + 2 < n && vals[m + 2].Str? then [StrField(OtState, CStr(vals[m + 2].s))] else []) +
    (if m + 3 < n then [IntField(MetadataOffset, Int32Of(vals[m + 3]))] else [])
  }

  const SUBSCRIBE_SLOTS: seq<Slot> := [Slot(EventName, StrSlot), Slot(ReplyTopicPayload, StrSlot)]
  const RPC_SLOTS: seq<Slot> := [Slot(SessionId, UIntSlot), Slot(InvokeMethodName, StrSlot), Slot(HasParams, Int32Slot)]
  const COMMIT_SLOTS: seq<Slot> := [Slot(SessionId, UIntSlot), Slot(ComponentName, StrSlot), Slot(ParamCount, UIntSlot)]
  const NAMES_SLOTS: seq<Slot> := [Slot(ComponentName, StrSlot), Slot(ParameterName, StrSlot), Slot(ParamCount, UIntSlot)]
  const ATTRIBUTE_SLOTS: seq<Slot> := [Slot(ComponentName, StrSlot)]
  const ROW_SLOTS: seq<Slot> := [Slot(SessionId, UIntSlot), Slot(ComponentName, StrSlot), Slot(ParameterName, StrSlot)]
  const SET_SLOTS: seq<Slot> := [Slot(SessionId, UIntSlot), Slot(ComponentName, StrSlot), Slot(Rollback, UIntSlot)]

  /** GET: component name at 0 and count at 1, guarded only by the number
      of values, then the strings from 2 up to the marker as names. */
  function GetFields(vals: seq<Value>, m: nat): seq<Field>
    requires m <= |vals|
  {
    if |vals| < 3 then []
    else
      (if vals[0].Str? then [StrField(ComponentName, CStr(vals[0].s))] else []) +
      (if vals[1].PosInt? then [UIntField(ParamCount, U32(vals[1].u))] else []) +
      (if 2 < m then Picks(vals[2..m], NamePick) else [])
  }

  /** SET/GETPARAMETERATTRIBUTES: the component name, then every string or
      positive integer up to the marker. */
  function AttributeFields(vals: seq<Value>, m: nat): seq<Field>
    requires m <= |vals|
  {
    var w := SlotWalk(vals, m, 0, ATTRIBUTE_SLOTS);
    w.0 + Picks(vals[w.1..m], AttrPick)
  }

  /** ADD/DELETETBLROW: session, component, table name, then one alias
      string or row index. */
  function RowFields(vals: seq<Value>, m: nat): seq<Field>
    requires m <= |vals|
  {
    var w := SlotWalk(vals, m, 0, ROW_SLOTS);
    w.0 + (if w.1 < m then PickOne(vals[w.1], AttrPick) else [])
  }

  /** OPEN/CLOSEDIRECT_CONN: every string before the marker. */
  function DirectFields(vals: seq<Value>, m: nat): seq<Field>
    requires m <= |vals|
  {
    Picks(vals[..m], DirectPick)
  }

  /** SETPARAMETERVALUES: session, component, rollback, the parameter
      count, the parameter triplets, and a commit string. */
  function SetFields(vals: seq<Value>, m: nat): seq<Field>
    requires m <= |vals|
  {
    var w := SlotWalk(vals, m, 0, SET_SLOTS);
    var counted := w.1 < m && vals[w.1].PosInt?;
    var count: u32 := if counted then U32(vals[w.1].u) else 0;
    var start := if counted then w.1 + 1 else w.1;
    var t := TripletWalk(vals, m, start, count, ParameterRole);
    w.0 + (if counted then [UIntField(ParamCount, count)] else []) + t.0 +
    (if t.1 < m && vals[t.1].Str? then [StrField(Commit, CStr(vals[t.1].s))] else [])
  }

  /** RESPONSE: the error code (whenever the marker is not first), then
      either a failed-element name or the property count and triplets. */
  function ResponseFields(vals: seq<Value>, m: nat): seq<Field>
    requires m <= |vals|
  {
    if m == 0 then []
    else
      var ec := Int32Of(vals[0]);
      [IntField(ErrorCode, ec)] +
      if m <= 1 then []
      else if ec != 0 && vals[1].Str? && 2 < m && IsMarker(vals[2]) then
        [StrField(FailedElement, CStr(vals[1].s))]
      else PropertyFields(vals, m)
  }

  /** The property count found by the search and the triplets after it;
      nothing when the search fails. */
  function PropertyFields(vals: seq<Value>, m: nat): seq<Field>
    requires 1 <= m <= |vals|
  {
    match CountSearch(vals, m, 1)
    case None => []
    case Some(k) =>
      var c := AsCount(vals[k]);
      [UIntField(PropertyCount, c)] + TripletWalk(vals, m, k + 1, c, PropertyRole).0
  }

  /** The strcmp chain on the method name. */
  function VerbFields(vals: seq<Value>, m: nat, name: bytes): seq<Field>
    requires m <= |vals|
  {
    if name == GET_VALUES then GetFields(vals, m)
    else if name == SUBSCRIBE || name == UNSUBSCRIBE then SlotWalk(vals, m, 0, SUBSCRIBE_SLOTS).0
    else if name == RPC then SlotWalk(vals, m, 0, RPC_SLOTS).0
    else if name == COMMIT then SlotWalk(vals, m, 0, COMMIT_SLOTS).0
    else if name == GET_NAMES then SlotWalk(vals, m, 0, NAMES_SLOTS).0
    else if name == SET_ATTRIBUTES || name == GET_ATTRIBUTES then AttributeFields(vals, m)
    else if name == ADD_ROW || name == DELETE_ROW then RowFields(vals, m)
    else if name == OPEN_DIRECT || name == CLOSE_DIRECT then DirectFields(vals, m)
    else if name == SET_VALUES then SetFields(vals, m)
    else if name == RESPONSE then ResponseFields(vals, m)
    else []
  }

  /** The parser on the collected objects: the value it returns and the
      fields it adds. */
  function StructuredOf(vals: seq<Value>, payloadLength: nat): (nat, seq<Field>)
  {
    if |vals| < 4 then (0, [])
    else match FirstMarker(vals, 0)
      case None =>
        if |vals| >= 6 && vals[0].Str? then (payloadLength, EventFields(vals)) else (0, [])
      case Some(m) =>
        (payloadLength, MetadataFields(vals, m) + VerbFields(vals, m, CStr(vals[m].s)))
  }

  function StructuredParse(payload: bytes, dec: Decoder): (nat, seq<Field>)
  {
    StructuredOf(Collect(payload, dec, 0, MAX_OBJECTS), |payload|)
  }

  // ---- properties ----

  /** The parser either claims the whole payload or returns 0 having added
      nothing; it returns 0 whenever fewer than four objects decode, and a
      claim needs at least four bytes. */
  lemma ClaimsAllOrNothing(payload: bytes, dec: Decoder)
    ensures var r := StructuredParse(payload, dec);
      (r.0 == 0 || r.0 == |payload|) && (r.0 == 0 ==> r.1 == [])
    ensures |Collect(payload, dec, 0, MAX_OBJECTS)| < 4 ==> StructuredParse(payload, dec) == (0, [])
    ensures StructuredParse(payload, dec).0 != 0 ==> |payload| >= 4
  {
  }

  /** Without a marker, the event layout runs exactly when there are at
      least six objects and the first is a string; otherwise nothing is
      claimed. */
  lemma FallbackSelection(vals: seq<Value>, payloadLength: nat)
    requires |vals| >= 4 && payloadLength > 0
    requires forall j :: 0 <= j < |vals| ==> !IsMarker(vals[j])
    ensures StructuredOf(vals, payloadLength).0 != 0 <==> |vals| >= 6 && vals[0].Str?
    ensures StructuredOf(vals, payloadLength).0 != 0 ==> StructuredOf(vals, payloadLength).1 == EventFields(vals)
  {
  }

  /** The failed-element branch of the RESPONSE layout needs a marker at
      index 2 before the first marker: with m the first marker index, the
      failed-element field is never emitted. */
  lemma FailedElementNeverEmitted(vals: seq<Value>, m: nat)
    requires m < |vals| && FirstMarker(vals, 0) == Some(m)
    ensures forall f :: f in ResponseFields(vals, m) ==> !(f.StrField? && f.id == FailedElement)
  {
    if 2 < m {
      assert !IsMarker(vals[2]);
    }
    NoInnerMarkerNoFailedElement(vals, m);
  }

  /** Without a marker at index 2 the RESPONSE layout emits no
      failed-element field. */
  lemma NoInnerMarkerNoFailedElement(vals: seq<Value>, m: nat)
    requires m <= |vals| && (2 < m ==> !IsMarker(vals[2]))
    ensures forall f :: f in ResponseFields(vals, m) ==> !(f.StrField? && f.id == FailedElement)
  {
    if m > 1 {
      var p := PropertyFields(vals, m);
      var r := ResponseFields(vals, m);
      assert r == [IntField(ErrorCode, Int32Of(vals[0]))] + p;
      PropertyFieldsShape(vals, m);
      forall f | f in r
        ensures !(f.StrField? && f.id == FailedElement)
      {
        if f != r[0] {
          assert f in p;
        }
      }
    }
  }

  /** The property part holds the count field and triplets only. */
  lemma PropertyFieldsShape(vals: seq<Value>, m: nat)
    requires 1 <= m <= |vals|
    ensures forall f :: f in PropertyFields(vals, m) ==> f == PropertyFields(vals, m)[0] || f.Triplet?
    ensures PropertyFields(vals, m) != [] ==> PropertyFields(vals, m)[0].UIntField? && PropertyFields(vals, m)[0].id == PropertyCount
  {
    match CountSearch(vals, m, 1)
    case None =>
    case Some(k) =>
      TripletsOnly(vals, m, k + 1, AsCount(vals[k]), PropertyRole);
  }

  /** The RESPONSE layout emits nothing exactly when the marker is the first
      object. Otherwise it opens with the error code read from value 0 as
      int32 (0 when it is no integer), and with the marker second that is
      all. With the marker further on, a property count follows exactly when
      the count search succeeds, and then at most that many property
      triplets follow it. */
  lemma ResponseCount(vals: seq<Value>, m: nat)
    requires m < |vals| && FirstMarker(vals, 0) == Some(m)
    ensures ResponseFields(vals, m) == [] <==> m == 0
    ensures 0 < m ==> ResponseFields(vals, m)[0] == IntField(ErrorCode, Int32Of(vals[0]))
    ensures m == 1 ==> ResponseFields(vals, m) == [IntField(ErrorCode, Int32Of(vals[0]))]
    ensures 1 < m && CountSearch(vals, m, 1).None? ==>
      ResponseFields(vals, m) == [IntField(ErrorCode, Int32Of(vals[0]))]
    ensures 1 < m && CountSearch(vals, m, 1).Some? ==>
      var k := CountSearch(vals, m, 1).value;
      |ResponseFields(vals, m)| >= 2 &&
      ResponseFields(vals, m)[1] == UIntField(PropertyCount, AsCount(vals[k])) &&
      |ResponseFields(vals, m)| - 2 <= AsCount(vals[k])
  {
    if 1 < m {
      assert !IsMarker(vals[2]) || 2 >= m;
    }
  }

  /** Every SET field depends only on the values before the marker. */
  lemma SetReadsBeforeMarker(vals: seq<Value>, other: seq<Value>, m: nat)
    requires m <= |vals| && m <= |other| && vals[..m] == other[..m]
    ensures SetFields(vals, m) == SetFields(other, m)
  {
    SlotWalkFrame(vals, other, m, 0, SET_SLOTS);
    var w := SlotWalk(vals, m, 0, SET_SLOTS);
    if w.1 < m {
      assert vals[w.1] == vals[..m][w.1] && other[w.1] == other[..m][w.1];
    }
    var counted := w.1 < m && vals[w.1].PosInt?;
    var count: u32 := if counted then U32(vals[w.1].u) else 0;
    var start := if counted then w.1 + 1 else w.1;
    TripletWalkFrame(vals, other, m, start, count, ParameterRole);
    var t := TripletWalk(vals, m, start, count, ParameterRole);
    if t.1 < m {
      assert vals[t.1] == vals[..m][t.1] && other[t.1] == other[..m][t.1];
    }
  }

  /** The metadata subtree opens with the method name taken from the
      marker; at most three more fields follow, each an OpenTelemetry
      string or the int32 offset; the parent is the third field exactly
      when the value after the marker is a string, and the offset closes
      the subtree exactly when a fourth value follows the marker. */
  lemma MetadataShape(vals: seq<Value>, m: nat)
    requires m < |vals| && vals[m].Str?
    ensures var r := MetadataFields(vals, m);
      2 <= |r| <= 5 && r[0] == MetadataTree && r[1] == StrField(MethodName, CStr(vals[m].s)) &&
      (forall k :: 2 <= k < |r| ==>
        (r[k].StrField? && (r[k].id == OtParent || r[k].id == OtState)) ||
        (r[k].IntField? && r[k].id == MetadataOffset)) &&
      ((m + 1 < |vals| && vals[m + 1].Str?) <==> (|r| > 2 && r[2].StrField? && r[2].id == OtParent)) &&
      (m + 1 < |vals| && vals[m + 1].Str? ==> r[2].text == CStr(vals[m + 1].s)) &&
      (m + 3 < |vals| <==> r[|r| - 1].IntField?) &&
      (m + 3 < |vals| ==> r[|r| - 1] == IntField(MetadataOffset, Int32Of(vals[m + 3])))
  {
  }

  /** The metadata subtree reads only the marker and the three values after
      it (and whether each exists). */
  lemma MetadataReadsFourValues(vals: seq<Value>, other: seq<Value>, m: nat)
    requires m < |vals| && m < |other| && vals[m].Str?
    requires |vals| == |other| || (m + 4 <= |vals| && m + 4 <= |other|)
    requires forall j :: m <= j < m + 4 && j < |vals| ==> other[j] == vals[j]
    ensures other[m].Str? && MetadataFields(vals, m) == MetadataFields(other, m)
  {
  }

  /** With a marker, the claimed fields open with the metadata subtree,
      whose method name begins with "METHOD_" and is the very name the verb
      layout is chosen by. */
  lemma MarkerClaim(vals: seq<Value>, payloadLength: nat)
    requires |vals| >= 4 && FirstMarker(vals, 0).Some?
    ensures var m := FirstMarker(vals, 0).value;
      var r := StructuredOf(vals, payloadLength);
      StartsWith(vals[m].s, METHOD_PREFIX) &&
      r.0 == payloadLength && |r.1| >= 2 && r.1[0] == MetadataTree &&
      r.1[1].StrField? && r.1[1].id == MethodName && StartsWith(r.1[1].text, METHOD_PREFIX) &&
      r.1 == MetadataFields(vals, m) + VerbFields(vals, m, r.1[1].text)
  {
    var m := FirstMarker(vals, 0).value;
    MarkerIgnoresNul(vals[m]);
    MetadataShape(vals, m);
  }

  /** The GET layout as a set of fields: the component name when value 0 is
      a string, the count when value 1 is a positive integer, and one
      parameter name per string from index 2 up to the marker; nothing when
      fewer than three values decoded. The component name comes first. */
  lemma GetFieldsMembers(vals: seq<Value>, m: nat, f: Field)
    requires m <= |vals|
    ensures |vals| < 3 ==> GetFields(vals, m) == []
    ensures |vals| >= 3 ==>
      (f in GetFields(vals, m) <==>
        (vals[0].Str? && f == StrField(ComponentName, CStr(vals[0].s))) ||
        (vals[1].PosInt? && f == UIntField(ParamCount, U32(vals[1].u))) ||
        (exists i :: 2 <= i < m && vals[i].Str? && f == StrField(ParameterName, CStr(vals[i].s))))
    ensures |vals| >= 3 && vals[0].Str? ==> GetFields(vals, m)[0] == StrField(ComponentName, CStr(vals[0].s))
  {
    if |vals| >= 3 && 2 < m {
      PicksRange(vals, 2, m, NamePick, f);
      forall i | 2 <= i < m
        ensures NamePick(vals[i]) == Some(f) <==> vals[i].Str? && f == StrField(ParameterName, CStr(vals[i].s))
      {
      }
    }
  }

  /** GET reads only values 0 and 1 and the values before the marker. */
  lemma GetReadsBeforeMarker(vals: seq<Value>, other: seq<Value>, m: nat)
    requires m <= |vals| && m <= |other|
    requires (|vals| < 3) == (|other| < 3)
    requires |vals| >= 3 ==> vals[..2] == other[..2]
    requires vals[..m] == other[..m]
    ensures GetFields(vals, m) == GetFields(other, m)
  {
    if |vals| >= 3 {
      assert vals[0] == vals[..2][0] && other[0] == other[..2][0];
      assert vals[1] == vals[..2][1] && other[1] == other[..2][1];
      if 2 < m {
        assert vals[2..m] == vals[..m][2..] && other[2..m] == other[..m][2..];
      }
    }
  }

  /** GET takes value 0 as the component name without looking for the
      marker: when the method name itself is value 0, it is shown a second
      time, as the component name, and no parameter names are scanned. */
  lemma GetMethodNameAsComponent(vals: seq<Value>, payloadLength: nat)
    requires |vals| >= 4 && vals[0].Str? && CStr(vals[0].s) == GET_VALUES
    ensures StructuredOf(vals, payloadLength).1 ==
      MetadataFields(vals, 0) + [StrField(ComponentName, GET_VALUES)] +
      (if vals[1].PosInt? then [UIntField(ParamCount, U32(vals[1].u))] else [])
  {
    assert GET_VALUES[..|METHOD_PREFIX|] == METHOD_PREFIX;
    assert IsMarker(vals[0]);
  }

  /** The attribute layout as a set of fields: a string first is the
      component name; every later string up to the marker is a parameter
      name and every later positive integer a count. At most one field per
      value before the marker. */
  lemma AttributeFieldsMembers(vals: seq<Value>, m: nat, f: Field)
    requires m <= |vals|
    ensures |AttributeFields(vals, m)| <= m
    ensures 0 < m && vals[0].Str? ==> AttributeFields(vals, m)[0] == StrField(ComponentName, CStr(vals[0].s))
    ensures var start := if 0 < m && vals[0].Str? then 1 else 0;
      f in AttributeFields(vals, m) <==>
        (start == 1 && f == StrField(ComponentName, CStr(vals[0].s))) ||
        (exists i :: start <= i < m &&
          ((vals[i].Str? && f == StrField(ParameterName, CStr(vals[i].s))) ||
           (vals[i].PosInt? && f == UIntField(ParamCount, U32(vals[i].u)))))
  {
    var start := if 0 < m && vals[0].Str? then 1 else 0;
    AttributeSplit(vals, m);
    assert vals[..m] == vals[0..m];
    PicksRange(vals, start, m, AttrPick, f);
    forall i | start <= i < m
      ensures AttrPick(vals[i]) == Some(f) <==>
        (vals[i].Str? && f == StrField(ParameterName, CStr(vals[i].s))) ||
        (vals[i].PosInt? && f == UIntField(ParamCount, U32(vals[i].u)))
    {
    }
  }

  /** The attribute layout: the component name when a string comes first,
      then the scan of the rest. */
  lemma AttributeSplit(vals: seq<Value>, m: nat)
    requires m <= |vals|
    ensures 0 < m && vals[0].Str? ==>
      AttributeFields(vals, m) == [StrField(ComponentName, CStr(vals[0].s))] + Picks(vals[1..m], AttrPick)
    ensures !(0 < m && vals[0].Str?) ==> AttributeFields(vals, m) == Picks(vals[..m], AttrPick)
  {
    assert ATTRIBUTE_SLOTS[1..] == [];
    assert vals[0..m] == vals[..m];
  }

  /** The table-row layout on a full row request: session, component and
      table name, then the alias string or the row index; at most four
      fields in any case, none past the marker. */
  lemma RowFieldsShape(vals: seq<Value>, m: nat)
    requires m <= |vals|
    ensures |RowFields(vals, m)| <= 4 && |RowFields(vals, m)| <= m
    ensures 4 <= m && vals[0].PosInt? && vals[1].Str? && vals[2].Str? ==>
      var head := [UIntField(SessionId, U32(vals[0].u)), StrField(ComponentName, CStr(vals[1].s)),
        StrField(ParameterName, CStr(vals[2].s))];
      RowFields(vals, m) == head + (
        if vals[3].Str? then [StrField(ParameterName, CStr(vals[3].s))]
        else if vals[3].PosInt? then [UIntField(ParamCount, U32(vals[3].u))]
        else [])
  {
    if 4 <= m && vals[0].PosInt? && vals[1].Str? && vals[2].Str? {
      assert ROW_SLOTS[1..][1..][1..] == [];
      var w := SlotWalk(vals, m, 0, ROW_SLOTS);
      assert SlotWalk(vals, m, 2, ROW_SLOTS[1..][1..]).1 == 3;
      assert w.1 == 3;
    }
  }

  /** The direct-connection layout as a set of fields: one component name
      per string before the marker, and nothing else. */
  lemma DirectFieldsMembers(vals: seq<Value>, m: nat, f: Field)
    requires m <= |vals|
    ensures |DirectFields(vals, m)| <= m
    ensures f in DirectFields(vals, m) <==>
      exists i :: 0 <= i < m && vals[i].Str? && f == StrField(ComponentName, CStr(vals[i].s))
  {
    assert vals[..m] == vals[0..m];
    PicksRange(vals, 0, m, DirectPick, f);
    forall i | 0 <= i < m
      ensures DirectPick(vals[i]) == Some(f) <==> vals[i].Str? && f == StrField(ComponentName, CStr(vals[i].s))
    {
    }
  }

  /** The SET example and the bare response as the collection loop would
      store them. */
  const SET_ARGUMENTS: seq<Value> := [PosInt(1), Str(Ascii("Comp1")), PosInt(0), PosInt(1),
    Str(Ascii("Device.X.Enable")), PosInt(0x500), Bin([1]), Str(Ascii("TRUE"))]
  const SET_MESSAGE: seq<Value> := SET_ARGUMENTS + [Str(SET_VALUES), Str([]), Str([]), PosInt(0)]
  const RESPONSE_MESSAGE: seq<Value> := [PosInt(0), PosInt(0), Str(RESPONSE), Str([]), Str([]), PosInt(0)]

  /** The parameter-setting example: session 1, component "Comp1",
      rollback 0, one parameter "Device.X.Enable" of type 0x500 whose
      one-byte blob renders as true, and the commit string "TRUE". */
  lemma SetExample()
    ensures SetFields(SET_MESSAGE, 8) == [
        UIntField(SessionId, 1), StrField(ComponentName, Ascii("Comp1")), UIntField(Rollback, 0),
        UIntField(ParamCount, 1),
        Triplet(ParameterRole, Some(Ascii("Device.X.Enable")), Some(0x500),
          Some(Rendered(KBoolean, Text(TRUE_TEXT))),
          Some(NameValue(Ascii("Device.X.Enable"), Text(TRUE_TEXT)))),
        StrField(Commit, Ascii("TRUE"))]
  {
    AsciiNoNul("Comp1");
    AsciiNoNul("Device.X.Enable");
    AsciiNoNul("TRUE");
    SetWithOneParameter(SET_MESSAGE, Ascii("Comp1"), Ascii("Device.X.Enable"), Ascii("TRUE"));
  }

  /** The strcmp chain sends the SET name to the SET layout. */
  lemma VerbChoosesSet(vals: seq<Value>, m: nat)
    requires m <= |vals|
    ensures VerbFields(vals, m, SET_VALUES) == SetFields(vals, m)
  {
    assert SET_VALUES[7] != GET_VALUES[7];
  }

  /** The strcmp chain sends the RESPONSE name to the RESPONSE layout. */
  lemma VerbChoosesResponse(vals: seq<Value>, m: nat)
    requires m <= |vals|
    ensures VerbFields(vals, m, RESPONSE) == ResponseFields(vals, m)
  {
  }

  /** The marker search stops at m when m is a marker and nothing from i
      up to it is. */
  lemma {:induction false} FirstMarkerIs(vals: seq<Value>, i: nat, m: nat)
    requires i <= m < |vals| && IsMarker(vals[m])
    requires forall j :: i <= j < m ==> !IsMarker(vals[j])
    ensures FirstMarker(vals, i) == Some(m)
    decreases m - i
  {
    if i < m {
      FirstMarkerIs(vals, i + 1, m);
    }
  }

  /** A string shorter than the prefix, or one starting with another byte,
      is no marker. */
  lemma NotMarkerStr(s: bytes)
    requires |s| < |METHOD_PREFIX| || (s != [] && s[0] != METHOD_PREFIX[0])
    ensures !IsMarker(Str(s))
  {
    MarkerIgnoresNul(Str(s));
  }

  /** None of the first eight values of the SET example is a marker. */
  lemma SetMessageNoEarlyMarker()
    ensures forall j :: 0 <= j < 8 ==> !IsMarker(SET_MESSAGE[j])
  {
    NotMarkerStr(Ascii("Comp1"));
    var d := Ascii("Device.X.Enable");
    assert d[0] == 68;
    NotMarkerStr(d);
    NotMarkerStr(Ascii("TRUE"));
    forall j | 0 <= j < 8
      ensures !IsMarker(SET_MESSAGE[j])
    {
      if j == 0 || j == 2 || j == 3 || j == 5 || j == 6 {
        assert !SET_MESSAGE[j].Str?;
      }
    }
  }

  /** The marker search finds the SET method string at index 8. */
  lemma SetMessageMarker()
    ensures FirstMarker(SET_MESSAGE, 0) == Some(8)
    ensures SET_MESSAGE[8] == Str(SET_VALUES) && CStr(SET_VALUES) == SET_VALUES
  {
    SetMessageMethod();
    SetMessageNoEarlyMarker();
    FirstMarkerIs(SET_MESSAGE, 0, 8);
  }

  /** The SET method name is NUL-free and a marker. */
  lemma SetNameIsMarker()
    ensures CStr(SET_VALUES) == SET_VALUES && IsMarker(Str(SET_VALUES))
  {
    AsciiNoNul("METHOD_SETPARAMETERVALUES");
    NoNulCStr(SET_VALUES);
    MarkerIgnoresNul(Str(SET_VALUES));
    assert SET_VALUES[..|METHOD_PREFIX|] == METHOD_PREFIX;
  }

  /** The ninth value of the SET example is the SET method string, a marker. */
  lemma SetMessageMethod()
    ensures SET_MESSAGE[8] == Str(SET_VALUES) && CStr(SET_VALUES) == SET_VALUES
    ensures IsMarker(SET_MESSAGE[8])
  {
    SetNameIsMarker();
    assert SET_MESSAGE[8] == Str(SET_VALUES);
  }

  /** The metadata subtree of any values that end in a NUL-free method
      name, two empty OpenTelemetry strings and offset 0. */
  lemma MetadataAfter(args: seq<Value>, name: bytes)
    requires CStr(name) == name
    ensures MetadataFields(args + [Str(name), Str([]), Str([]), PosInt(0)], |args|) == [MetadataTree,
      StrField(MethodName, name), StrField(OtParent, []), StrField(OtState, []), IntField(MetadataOffset, 0)]
  {
    var vals := args + [Str(name), Str([]), Str([]), PosInt(0)];
    var m := |args|;
    assert vals[m] == Str(name) && vals[m + 1] == Str([]) && vals[m + 2] == Str([]) && vals[m + 3] == PosInt(0);
    assert CStr([]) == [];
  }

  /** The metadata subtree of the SET example. */
  lemma SetMessageMetadata()
    ensures MetadataFields(SET_MESSAGE, 8) == [MetadataTree, StrField(MethodName, SET_VALUES),
      StrField(OtParent, []), StrField(OtState, []), IntField(MetadataOffset, 0)]
  {
    SetNameIsMarker();
    assert |SET_ARGUMENTS| == 8;
    MetadataAfter(SET_ARGUMENTS, SET_VALUES);
  }

  /** The dispatcher on the SET example: metadata, then the SET layout. */
  lemma SetMessageDispatch(payloadLength: nat)
    ensures StructuredOf(SET_MESSAGE, payloadLength)
      == (payloadLength, MetadataFields(SET_MESSAGE, 8) + SetFields(SET_MESSAGE, 8))
  {
    SetMessageMarker();
    VerbChoosesSet(SET_MESSAGE, 8);
  }

  /** The SET example through the whole dispatcher: the marker search finds
      the method string at index 8, the metadata subtree takes it, the two
      empty OpenTelemetry strings and the offset 0 after it, and the strcmp
      chain picks the SET layout. */
  lemma SetMessageExample(payloadLength: nat)
    ensures StructuredOf(SET_MESSAGE, payloadLength) == (payloadLength, [
      MetadataTree, StrField(MethodName, SET_VALUES), StrField(OtParent, []), StrField(OtState, []),
      IntField(MetadataOffset, 0),
      UIntField(SessionId, 1), StrField(ComponentName, Ascii("Comp1")), UIntField(Rollback, 0),
      UIntField(ParamCount, 1),
      Triplet(ParameterRole, Some(Ascii("Device.X.Enable")), Some(0x500),
        Some(Rendered(KBoolean, Text(TRUE_TEXT))),
        Some(NameValue(Ascii("Device.X.Enable"), Text(TRUE_TEXT)))),
      StrField(Commit, Ascii("TRUE"))])
  {
    SetMessageDispatch(payloadLength);
    SetMessageMetadata();
    SetExample();
    SetMessageJoin();
  }

  /** The two halves of the SET example's fields, joined. */
  lemma SetMessageJoin()
    ensures [MetadataTree, StrField(MethodName, SET_VALUES), StrField(OtParent, []), StrField(OtState, []),
      IntField(MetadataOffset, 0)] + [
      UIntField(SessionId, 1), StrField(ComponentName, Ascii("Comp1")), UIntField(Rollback, 0),
      UIntField(ParamCount, 1),
      Triplet(ParameterRole, Some(Ascii("Device.X.Enable")), Some(0x500),
        Some(Rendered(KBoolean, Text(TRUE_TEXT))),
        Some(NameValue(Ascii("Device.X.Enable"), Text(TRUE_TEXT)))),
      StrField(Commit, Ascii("TRUE"))] == [
      MetadataTree, StrField(MethodName, SET_VALUES), StrField(OtParent, []), StrField(OtState, []),
      IntField(MetadataOffset, 0),
      UIntField(SessionId, 1), StrField(ComponentName, Ascii("Comp1")), UIntField(Rollback, 0),
      UIntField(ParamCount, 1),
      Triplet(ParameterRole, Some(Ascii("Device.X.Enable")), Some(0x500),
        Some(Rendered(KBoolean, Text(TRUE_TEXT))),
        Some(NameValue(Ascii("Device.X.Enable"), Text(TRUE_TEXT)))),
      StrField(Commit, Ascii("TRUE"))]
  {
  }

  /** The marker search finds the RESPONSE method string at index 2. */
  lemma ResponseMessageMarker()
    ensures FirstMarker(RESPONSE_MESSAGE, 0) == Some(2)
    ensures RESPONSE_MESSAGE[2] == Str(RESPONSE) && CStr(RESPONSE) == RESPONSE
  {
    AsciiNoNul("METHOD_RESPONSE");
    NoNulCStr(RESPONSE);
    assert RESPONSE[..|METHOD_PREFIX|] == METHOD_PREFIX;
    assert IsMarker(RESPONSE_MESSAGE[2]);
  }

  /** The metadata subtree of the bare response. */
  lemma ResponseMessageMetadata()
    ensures MetadataFields(RESPONSE_MESSAGE, 2) == [MetadataTree, StrField(MethodName, RESPONSE),
      StrField(OtParent, []), StrField(OtState, []), IntField(MetadataOffset, 0)]
  {
    ResponseMessageMarker();
  }

  /** The dispatcher on the bare response: metadata, then the RESPONSE layout. */
  lemma ResponseMessageDispatch(payloadLength: nat)
    ensures StructuredOf(RESPONSE_MESSAGE, payloadLength)
      == (payloadLength, MetadataFields(RESPONSE_MESSAGE, 2) + ResponseFields(RESPONSE_MESSAGE, 2))
  {
    ResponseMessageMarker();
    VerbChoosesResponse(RESPONSE_MESSAGE, 2);
  }

  /** The bare response through the whole dispatcher: the marker at index
      2, the metadata subtree, then the RESPONSE layout's error code 0 and
      no property count. */
  lemma ResponseMessageExample(payloadLength: nat)
    ensures StructuredOf(RESPONSE_MESSAGE, payloadLength) == (payloadLength, [
      MetadataTree, StrField(MethodName, RESPONSE), StrField(OtParent, []), StrField(OtState, []),
      IntField(MetadataOffset, 0), IntField(ErrorCode, 0)])
  {
    ResponseMessageDispatch(payloadLength);
    ResponseMessageMetadata();
    ResponseExample();
    var meta := MetadataFields(RESPONSE_MESSAGE, 2);
    var verb := ResponseFields(RESPONSE_MESSAGE, 2);
    assert meta + verb == [
      MetadataTree, StrField(MethodName, RESPONSE), StrField(OtParent, []), StrField(OtState, []),
      IntField(MetadataOffset, 0), IntField(ErrorCode, 0)];
  }

  /** The example's shape for any values whose first eight are session 1,
      a NUL-free component, rollback 0, count 1, a NUL-free parameter name,
      type 0x500, the blob [1] and a NUL-free commit string. */
  lemma SetWithOneParameter(vals: seq<Value>, comp: bytes, name: bytes, commit: bytes)
    requires forall i :: 0 <= i < |comp| ==> comp[i] != 0
    requires forall i :: 0 <= i < |name| ==> name[i] != 0
    requires forall i :: 0 <= i < |commit| ==> commit[i] != 0
    requires 8 <= |vals| && vals[0] == PosInt(1) && vals[1] == Str(comp) && vals[2] == PosInt(0)
    requires vals[3] == PosInt(1) && vals[4] == Str(name) && vals[5] == PosInt(0x500)
    requires vals[6] == Bin([1]) && vals[7] == Str(commit)
    ensures SetFields(vals, 8) == [
        UIntField(SessionId, 1), StrField(ComponentName, comp), UIntField(Rollback, 0),
        UIntField(ParamCount, 1),
        Triplet(ParameterRole, Some(name), Some(0x500),
          Some(Rendered(KBoolean, Text(TRUE_TEXT))), Some(NameValue(name, Text(TRUE_TEXT)))),
        StrField(Commit, commit)]
  {
    NoNulCStr(comp);
    NoNulCStr(name);
    NoNulCStr(commit);
    var fs := [UIntField(SessionId, 1), StrField(ComponentName, comp), UIntField(Rollback, 0)];
    SetSlotsExample(vals, 8, fs);
    var t := MakeTriplet(vals, 8, 4, ParameterRole);
    assert IsBoolBlob(vals[6].data);
    assert t == Triplet(ParameterRole, Some(name), Some(0x500),
      Some(Rendered(KBoolean, Text(TRUE_TEXT))), Some(NameValue(name, Text(TRUE_TEXT))));
    SingleTriplet(vals, 8, 4, ParameterRole);
    assert SetFields(vals, 8) == fs + [UIntField(ParamCount, 1)] + [t] + [StrField(Commit, commit)];
  }

  /** A count of one reads exactly one triplet when it fits before m. */
  lemma SingleTriplet(vals: seq<Value>, m: nat, idx: nat, role: Role)
    requires idx + 2 <= m <= |vals|
    ensures TripletWalk(vals, m, idx, 1, role) == ([MakeTriplet(vals, m, idx, role)], idx + 3)
  {
    var t := MakeTriplet(vals, m, idx, role);
    assert TripletWalk(vals, m, idx + 3, 0, role) == ([], idx + 3);
    assert [t] + TripletWalk(vals, m, idx + 3, 0, role).0 == [t];
  }

  /** The three leading SET slots consume indices 0..2 when each value has
      its slot's type. */
  lemma SetSlotsExample(vals: seq<Value>, m: nat, fs: seq<Field>)
    requires 3 <= m <= |vals| && vals[0].PosInt? && vals[1].Str? && vals[2].PosInt?
    requires fs == [UIntField(SessionId, U32(vals[0].u)), StrField(ComponentName, CStr(vals[1].s)), UIntField(Rollback, U32(vals[2].u))]
    ensures SlotWalk(vals, m, 0, SET_SLOTS) == (fs, 3)
  {
    var s1, s2 := SET_SLOTS[1..], SET_SLOTS[1..][1..];
    assert s1 == [Slot(ComponentName, StrSlot), Slot(Rollback, UIntSlot)];
    assert s2 == [Slot(Rollback, UIntSlot)];
    var r2 := SlotWalk(vals, m, 3, s2[1..]);
    assert r2 == ([], 3);
    assert SlotWalk(vals, m, 2, s2) == ([SlotField(vals[2], s2[0])] + r2.0, r2.1);
    assert [SlotField(vals[2], s2[0])] + r2.0 == [fs[2]];
    var r1 := SlotWalk(vals, m, 2, s2);
    assert SlotWalk(vals, m, 1, s1) == ([SlotField(vals[1], s1[0])] + r1.0, r1.1);
    assert [SlotField(vals[1], s1[0])] + r1.0 == [fs[1], fs[2]];
    var r0 := SlotWalk(vals, m, 1, s1);
    assert SlotWalk(vals, m, 0, SET_SLOTS) == ([SlotField(vals[0], SET_SLOTS[0])] + r0.0, r0.1);
    assert [SlotField(vals[0], SET_SLOTS[0])] + r0.0 == fs;
  }

  /** The bare response `[0, 0, "METHOD_RESPONSE", "", "", 0]`: the error
      code 0 is emitted and no property count, because the zero at index 1
      is directly followed by the marker. */
  lemma ResponseExample()
    ensures var vals := [PosInt(0), PosInt(0), Str(RESPONSE), Str([]), Str([]), PosInt(0)];
      ResponseFields(vals, 2) == [IntField(ErrorCode, 0)]
  {
  }

  // ---- the imperative parser ----

  /** One successful decode appends the decoded object to what has been
      collected so far. */
  lemma CollectStep(payload: bytes, dec: Decoder, off: nat, count: nat, stored: seq<Value>)
    requires off < |payload| && count < MAX_OBJECTS && DecodeAt(payload, dec, off).Some?
    requires stored + Collect(payload, dec, off, MAX_OBJECTS - count) == Collect(payload, dec, 0, MAX_OBJECTS)
    ensures var d := DecodeAt(payload, dec, off).value;
      (stored + [d.value]) + Collect(payload, dec, off + d.size, MAX_OBJECTS - (count + 1)) == Collect(payload, dec, 0, MAX_OBJECTS)
  {
    var d := DecodeAt(payload, dec, off).value;
    var rest := Collect(payload, dec, off + d.size, MAX_OBJECTS - (count + 1));
    assert Collect(payload, dec, off, MAX_OBJECTS - count) == [d.value] + rest;
    assert (stored + [d.value]) + rest == stored + ([d.value] + rest);
  }

  /** The collection loop into a fixed array of MAX_OBJECTS objects. */
  method CollectObjects(payload: bytes, dec: Decoder) returns (vals: seq<Value>)
    ensures vals == Collect(payload, dec, 0, MAX_OBJECTS)
  {
    var objects := new Value[MAX_OBJECTS];
    var count: nat := 0;
    var off: nat := 0;
    ghost var stored: seq<Value> := [];
    while off < |payload| && count < MAX_OBJECTS
      invariant off <= |payload| && count <= MAX_OBJECTS && |stored| == count
      invariant objects[..count] == stored
      invariant stored + Collect(payload, dec, off, MAX_OBJECTS - count) == Collect(payload, dec, 0, MAX_OBJECTS)
      decreases |payload| - off
    {
      var ok, v, next := NextObject(payload, dec, off, count, stored);
      if !ok {
        break;
      }
      objects[count] := v;
      stored := stored + [v];
      count := count + 1;
      off := next;
    }
    vals := objects[..count];
  }

  /** One msgpack_unpack_next call of the collection loop: the object and
      the offset after it, or failure with nothing more to collect. */
  method NextObject(payload: bytes, dec: Decoder, off: nat, count: nat, ghost stored: seq<Value>)
    returns (ok: bool, v: Value, next: nat)
    requires off < |payload| && count < MAX_OBJECTS
    requires stored + Collect(payload, dec, off, MAX_OBJECTS - count) == Collect(payload, dec, 0, MAX_OBJECTS)
    ensures ok ==> off < next <= |payload|
    ensures ok ==> (stored + [v]) + Collect(payload, dec, next, MAX_OBJECTS - (count + 1)) == Collect(payload, dec, 0, MAX_OBJECTS)
    ensures !ok ==> stored == Collect(payload, dec, 0, MAX_OBJECTS)
  {
    var r := DecodeAt(payload, dec, off);
    if r.None? {
      ok, v, next := false, Nil, off;
      assert Collect(payload, dec, off, MAX_OBJECTS - count) == [];
      assert stored + [] == stored;
    } else {
      CollectStep(payload, dec, off, count, stored);
      ok, v, next := true, r.value.value, off + r.value.size;
    }
  }

  /** The marker search loop. */
  method FindMethod(vals: seq<Value>) returns (found: bool, m: nat)
    ensures found <==> FirstMarker(vals, 0).Some?
    ensures found ==> m == FirstMarker(vals, 0).value
  {
    found, m := false, 0;
    var i := 0;
    while i < |vals|
      invariant i <= |vals|
      invariant FirstMarker(vals, i) == FirstMarker(vals, 0)
    {
      if vals[i].Str? && StartsWith(CStr(vals[i].s), METHOD_PREFIX) {
        found, m := true, i;
        return;
      }
      i := i + 1;
    }
  }

  method MetadataLayout(vals: seq<Value>, m: nat) returns (out: seq<Field>)
    requires m < |vals| && vals[m].Str?
    ensures out == MetadataFields(vals, m)
  {
    var n := |vals|;
    out := [MetadataTree, StrField(MethodName, CStr(vals[m].s))];
    if m + 1 < n && vals[m + 1].Str? {
      out := out + [StrField(OtParent, CStr(vals[m + 1].s))];
    }
    if m + 2 < n && vals[m + 2].Str? {
      out := out + [StrField(OtState, CStr(vals[m + 2].s))];
    }
    if m + 3 < n {
      out := out + [IntField(MetadataOffset, Int32Of(vals[m + 3]))];
    }
  }

  method GetLayout(vals: seq<Value>, m: nat) returns (out: seq<Field>)
    requires m <= |vals|
    ensures out == GetFields(vals, m)
  {
    out := [];
    if |vals| >= 3 {
      if vals[0].Str? {
        out := out + [StrField(ComponentName, CStr(vals[0].s))];
      }
      if vals[1].PosInt? {
        out := out + [UIntField(ParamCount, U32(vals[1].u))];
      }
      ghost var head := out;
      assert head == (if vals[0].Str? then [StrField(ComponentName, CStr(vals[0].s))] else []) +
        (if vals[1].PosInt? then [UIntField(ParamCount, U32(vals[1].u))] else []);
      if 2 < m {
        var names := ScanRange(vals, 2, m, NamePick);
        out := out + names;
      }
    }
  }

  method SetLayout(vals: seq<Value>, m: nat) returns (out: seq<Field>)
    requires m <= |vals|
    ensures out == SetFields(vals, m)
  {
    var idx;
    out, idx := WalkSlots(vals, m, 0, SET_SLOTS);
    var count: u32 := 0;
    if idx < m && vals[idx].PosInt? {
      count := U32(vals[idx].u);
      out := out + [UIntField(ParamCount, count)];
      idx := idx + 1;
    }
    var params;
    params, idx := WalkTriplets(vals, m, idx, count, ParameterRole);
    out := out + params;
    if idx < m && vals[idx].Str? {
      out := out + [StrField(Commit, CStr(vals[idx].s))];
    }
  }

  method ResponseLayout(vals: seq<Value>, m: nat) returns (out: seq<Field>)
    requires m <= |vals|
    ensures out == ResponseFields(vals, m)
  {
    out := [];
    var idx := 0;
    var errorCode: i32 := 0;
    if idx < m {
      errorCode := Int32Of(vals[idx]);
      out := [IntField(ErrorCode, errorCode)];
      idx := idx + 1;
    }
    if idx < m {
      var simpleError := false;
      if errorCode != 0 && vals[idx].Str? {
        if idx + 1 < m && vals[idx + 1].Str? && StartsWith(CStr(vals[idx + 1].s), METHOD_PREFIX) {
          simpleError := true;
        }
      }
      assert simpleError <==> errorCode != 0 && vals[1].Str? && 2 < m && IsMarker(vals[2]);
      if simpleError {
        out := out + [StrField(FailedElement, CStr(vals[idx].s))];
        idx := idx + 1;
      } else {
        var props := PropertyLayout(vals, m);
        out := out + props;
      }
    }
  }

  /** The property-count search and the property triplet loop. */
  method PropertyLayout(vals: seq<Value>, m: nat) returns (out: seq<Field>)
    requires 1 <= m <= |vals|
    ensures out == PropertyFields(vals, m)
  {
    var found, count, idx;
    found, count, idx := FindPropertyCount(vals, m, 1);
    if found {
      var props;
      props, idx := WalkTriplets(vals, m, idx, count, PropertyRole);
      out := [UIntField(PropertyCount, count)] + props;
    } else {
      out := [];
    }
  }

  method VerbLayout(vals: seq<Value>, m: nat, name: bytes) returns (out: seq<Field>)
    requires m <= |vals|
    ensures out == VerbFields(vals, m, name)
  {
    var idx;
    if name == GET_VALUES {
      out := GetLayout(vals, m);
    } else if name == SUBSCRIBE || name == UNSUBSCRIBE {
      out, idx := WalkSlots(vals, m, 0, SUBSCRIBE_SLOTS);
    } else if name == RPC {
      out, idx := WalkSlots(vals, m, 0, RPC_SLOTS);
    } else if name == COMMIT {
      out, idx := WalkSlots(vals, m, 0, COMMIT_SLOTS);
    } else if name == GET_NAMES {
      out, idx := WalkSlots(vals, m, 0, NAMES_SLOTS);
    } else if name == SET_ATTRIBUTES || name == GET_ATTRIBUTES {
      out, idx := WalkSlots(vals, m, 0, ATTRIBUTE_SLOTS);
      var rest := ScanRange(vals, idx, m, AttrPick);
      out := out + rest;
    } else if name == ADD_ROW || name == DELETE_ROW {
      out, idx := WalkSlots(vals, m, 0, ROW_SLOTS);
      if idx < m {
        match AttrPick(vals[idx]) {
          case Some(f) => out := out + [f];
          case None =>
        }
      }
    } else if name == OPEN_DIRECT || name == CLOSE_DIRECT {
      out := ScanRange(vals, 0, m, DirectPick);
      assert vals[0..m] == vals[..m];
    } else if name == SET_VALUES {
      out := SetLayout(vals, m);
    } else if name == RESPONSE {
      out := ResponseLayout(vals, m);
    } else {
      out := [];
    }
  }

  /** parse_rbus_payload: the value returned and the fields added. */
  method ParsePayload(payload: bytes, dec: Decoder) returns (consumed: nat, fields: seq<Field>)
    ensures (consumed, fields) == StructuredParse(payload, dec)
  {
    var vals := CollectObjects(payload, dec);
    consumed, fields := ParseObjects(vals, |payload|);
  }

  /** Everything after the collection loop. */
  method ParseObjects(vals: seq<Value>, payloadLength: nat) returns (consumed: nat, fields: seq<Field>)
    ensures (consumed, fields) == StructuredOf(vals, payloadLength)
  {
    if |vals| < 4 {
      return 0, [];
    }
    var found, m := FindMethod(vals);
    if !found {
      if |vals| >= 6 {
        if vals[0].Str? {
          fields := EventPublication(vals);
          return payloadLength, fields;
        }
        return 0, [];
      }
      return 0, [];
    }
    var name := CStr(vals[m].s);
    fields := MetadataLayout(vals, m);
    var verb := VerbLayout(vals, m, name);
    fields := fields + verb;
    consumed := payloadLength;
  }

}
