# RBus dissector model

A Dafny model of the core of the Wireshark dissector for RBus, the RDK message bus (`rbus/src/packet-rbus.c`). It covers these parts:

- **Framing and the header walk.** `dissect_rbus` asks TCP desegmentation for more bytes until a whole message is captured. It then checks the header length and the payload length, and reads the fixed header, the topic and the reply topic. It reads the round-trip timestamps when a lookahead finds a marker, and then the closing marker.
- **Payload choice.** The payload is shown in one of three ways: as JSON text, as a structured RBus message, or by the generic MessagePack fallback.
- **The structured parser.** `parse_rbus_payload` collects up to 20000 MessagePack objects and finds the first `METHOD_` string, the marker. It then lays the values out per method: GET, SUBSCRIBE/UNSUBSCRIBE, RPC, COMMIT, GETPARAMETERNAMES, the attribute requests, table rows, direct connections, SET and RESPONSE. Without a marker it uses the event-publication layout.
- **The generic display.** `display_msgpack_object` is a recursive display of one MessagePack value. It threads a parse context that labels session ids, counts, type ids and parameters as it goes. `add_typed_value` renders a value by its RBus type id. The fallback loop shows objects one after another, up to the object limit.
- **The heuristic.** `dissect_rbus_heur` decides whether a TCP segment is RBus.

## How the model is laid out

Each module follows one part of the C file:

- `Bytes`: byte-level reads and the 32-bit casts.
- `Values` and `Fields`: the decoded MessagePack values and the fields the structured parser adds.
- `Render`: `add_typed_value` and the blob text check.
- `Layout`: the slot sequences, scans and triplet loops shared by the verb layouts.
- `Event`: the event-publication layout.
- `Dispatch`: the collection loop, the marker search and the per-method layouts.
- `Display`: the parse context and the recursive display.
- `Fallback`: `dissect_msgpack_value` and the generic loop.
- `Framer`: `dissect_rbus`.
- `Heuristic`: `dissect_rbus_heur`.

The C code works by updating an offset, an index and a parse context step by step. Each such loop and walk is a `method` with loop invariants, proved equal to a specification function. The properties are lemmas about those functions.

The parse context (`rbus_parse_context_t`) is passed by address and updated in place, so it is the class `Display.ParseContext`. Its methods are proved against `Display.Show`. The collection loop stores the objects in a fixed `MAX_OBJECTS` array, so it fills a Dafny `array`.

The model keeps these points of the code:

- the 32-bit wrap-around of `header_len + payload_len`;
- the casts of 64-bit integers to `guint32`/`gint32`;
- the `params_count * 3` product in the context;
- the C-string truncation at the first NUL wherever a string is copied and formatted with `%s`.

The MessagePack decoder is a parameter (`Values.Decoder`). Its reply is only trusted when it consumes between 1 and the remaining number of bytes.

## Model

| member | source | states |
|---|---|---|
| Bytes.CastsWrap | rbus/src/packet-rbus.c:250-265 | A 64-bit integer cast to `guint32`/`gint32` keeps its value modulo 2^32, and an integer already in range is unchanged. |
| Bytes.CStr | rbus/src/packet-rbus.c:418-421 | Formatting a string with `%s` keeps exactly the bytes before the first NUL: the result is a prefix, holds no NUL, and is followed by a NUL unless it is the whole string. |
| Bytes.CStrPrefix | rbus/src/packet-rbus.c:691-694 | Truncation at the first NUL keeps any NUL-free prefix of the string, so a string that starts with `METHOD_` still starts with it after truncation. |
| Bytes.NoNulCStr | rbus/src/packet-rbus.c:418-421 | A string with no NUL is shown whole. |
| Bytes.BE16 | rbus/src/packet-rbus.c:1320 | No ensures; `tvb_get_ntohs`, the big-endian 16-bit read that `Framer.HeaderOf` uses. |
| Bytes.BE32 | rbus/src/packet-rbus.c:1331 | No ensures; `tvb_get_ntohl`, the big-endian 32-bit read that `Framer.HeaderOf` and `Framer.Total` use. |
| Bytes.U32 | rbus/src/packet-rbus.c:374 | No ensures; the `(guint32)` cast, specified by `Bytes.CastsWrap`. |
| Bytes.I32 | rbus/src/packet-rbus.c:853-860 | No ensures; the `(gint32)` cast, specified by `Bytes.CastsWrap`. |
| Bytes.StartsWith | rbus/src/packet-rbus.c:694 | No ensures; the `strncmp(str, "METHOD_", 7) == 0` prefix test, specified by `Bytes.CStrPrefix` and `Values.MarkerIgnoresNul`. |
| Values.MarkerIgnoresNul | rbus/src/packet-rbus.c:689-700 | The `strncmp(str, "METHOD_", 7)` marker test holds exactly when the string begins with the seven prefix bytes, whatever follows a NUL. |
| Values.Lookup | rbus/src/packet-rbus.c:374 | `try_val_to_str` on the type-name table finds a name exactly when the id is in the table, and the name found belongs to that id. |
| Values.IsMarker | rbus/src/packet-rbus.c:689-700 | No ensures; the `METHOD_` marker test on a string value, specified by `Values.MarkerIgnoresNul`. |
| Values.TypeName | rbus/src/packet-rbus.c:159-184 | No ensures; `try_val_to_str` on `rbus_type_vals`, specified by `Values.Lookup` and `Display.ScalarEntries`. |
| Heuristic.PrefixDecides | rbus/src/packet-rbus.c:1591-1619 | The heuristic's verdict depends only on the first 22 bytes of the segment. |
| Heuristic.RejectsBadMarkerOrVersion | rbus/src/packet-rbus.c:1597-1607 | A segment whose opening marker is not 0xAAAA, or whose version is not 2, is rejected. |
| Heuristic.RejectsProtocolVersion | rbus/src/packet-rbus.c:1603-1607 | A segment carrying the protocol version 1 that `rbus/include/rbus-protocol.h` defines is rejected. |
| Heuristic.LooksLikeRbus | rbus/src/packet-rbus.c:1591-1624 | No ensures; `dissect_rbus_heur`, specified by `Heuristic.PrefixDecides` and the rejection lemmas. |
| Heuristic.RejectsShort | rbus/src/packet-rbus.c:1592-1595 | A segment shorter than 22 bytes is rejected. |
| Fields.Int32OfWraps | rbus/src/packet-rbus.c:853-860 | A value shown with a `(gint32)` cast agrees with its integer modulo 2^32, and a value that is not an integer shows 0. |
| Fields.Int32Of | rbus/src/packet-rbus.c:853-860 | No ensures; the `(gint32)` cast of an integer value, specified by `Fields.Int32OfWraps`. |
| Render.TypedValue | rbus/src/packet-rbus.c:211-287 | No ensures; `add_typed_value`, specified by `Render.TypedValueKinds` and `Render.BooleanRendering`. |
| Render.BlobIsText | rbus/src/packet-rbus.c:497-521 | No ensures; the blob text check, specified by `Render.BlobIsTextMeaning`. |
| Render.TypedValueKinds | rbus/src/packet-rbus.c:225-284 | `add_typed_value` puts an integer in a 32-bit field exactly when it fits and in a 64-bit field otherwise, its returned text always showing the full value. A blob is a boolean exactly when it is one 0 or 1 byte, and is otherwise shown as a C string. Exactly nil, arrays, maps and extensions are unsupported, with the text "[unsupported]". |
| Render.BooleanRendering | rbus/src/packet-rbus.c:234-243 | A value renders as a boolean exactly when it is a MessagePack boolean or a one-byte blob holding 0 or 1. The boolean shows its own value, and the blob shows true exactly for 1. |
| Render.ScanFromMeaning | rbus/src/packet-rbus.c:500-518 | The scan over a blob succeeds exactly when every byte from the start on is accepted: a non-final NUL fails it, and a final NUL is allowed. |
| Render.BlobIsTextMeaning | rbus/src/packet-rbus.c:497-521 | A blob is shown as text exactly when it is non-empty and every byte is printable ASCII, tab, newline, carriage return, a byte from 0x80 up, or a final NUL. |
| Render.HighBytesPass | rbus/src/packet-rbus.c:511-517 | Any non-empty blob of bytes from 0x80 up passes the text check, valid UTF-8 or not. |
| Render.InnerNulFails | rbus/src/packet-rbus.c:503-510 | A blob with a NUL before its last byte never passes the text check. |
| Render.IsBoolBlob | rbus/src/packet-rbus.c:236-238 | No ensures; the one-byte 0/1 blob test, specified by `Render.BooleanRendering` and `Render.TypedValueKinds`. |
| Render.BoolText | rbus/src/packet-rbus.c:240-241 | No ensures; the "true"/"false" text, specified by `Render.BooleanRendering`. |
| Render.ByteAccepted | rbus/src/packet-rbus.c:503-517 | No ensures; the per-byte test of the blob text loop, specified by `Render.ScanFromMeaning`. |
| Render.ScanFrom | rbus/src/packet-rbus.c:500-518 | No ensures; the blob text loop from one byte on, specified by `Render.ScanFromMeaning`. |
| Layout.SlotWalk | rbus/src/packet-rbus.c:1100-1122 | A run of the "if the index is below the marker and the value has the slot's type, add and advance" steps ends at an index between its start and the bound. It emits one field per index it advanced over. |
| Layout.SlotWalkFields | rbus/src/packet-rbus.c:1100-1122 | Each field a slot walk emits is the field of one consumed value, shown through a slot that accepts that value's type. |
| Layout.SlotWalkKinds | rbus/src/packet-rbus.c:887-1122 | A slot walk emits plain string, unsigned and signed fields only. |
| Layout.SlotWalkFrame | rbus/src/packet-rbus.c:887-1122 | A slot walk reads nothing at or past its bound: two value sequences that agree below it give the same walk. |
| Layout.WalkSlots | rbus/src/packet-rbus.c:1100-1122 | The straight-line slot steps compute exactly the slot walk. |
| Layout.Picks | rbus/src/packet-rbus.c:1029-1040 | A type-filtered scan emits at most one field per scanned value. |
| Layout.PicksAppend | rbus/src/packet-rbus.c:1029-1040 | Scanning two ranges one after the other emits the fields of each in turn. |
| Layout.PicksSnoc | rbus/src/packet-rbus.c:1088-1096 | Extending a scanned range by one value adds what that value yields. |
| Layout.PicksMembers | rbus/src/packet-rbus.c:878-885 | A type-filtered scan emits a field exactly when the pick accepts some scanned value and turns it into that field. |
| Layout.PicksRange | rbus/src/packet-rbus.c:878-885 | A scan of the values from lo up to hi emits a field exactly when the pick makes it of one of them. |
| Layout.ScanRange | rbus/src/packet-rbus.c:878-885 | The loop `for (i = lo; i < hi; i++) if (type matches) add` emits exactly the scan of the values from lo to hi. |
| Layout.MakeTriplet | rbus/src/packet-rbus.c:1129-1158 | One parameter triplet is a parameter or property subtree. |
| Layout.MakeTripletShape | rbus/src/packet-rbus.c:1129-1158 | A triplet has its name exactly for a string name and its type exactly for an integer type. It has its value exactly when index idx+2 is before the marker, and the name=value text exactly when it has both name and value. |
| Layout.TripletWalk | rbus/src/packet-rbus.c:1125-1160 | The triplet loop emits no more triplets than the count, and stops between its start and one past the marker index. |
| Layout.TripletWalkLength | rbus/src/packet-rbus.c:1125 | The triplet loop emits exactly min(count, (m + 1 - idx) / 3) triplets, m being the marker index. |
| Layout.TripletWalkAt | rbus/src/packet-rbus.c:1125-1160 | The k-th triplet is the one whose name sits at idx + 3k. |
| Layout.TripletWalkFrame | rbus/src/packet-rbus.c:1125-1160 | The triplet loop reads nothing at or past the marker index. |
| Layout.TripletsOnly | rbus/src/packet-rbus.c:1248-1283 | The triplet loop emits parameter or property subtrees and nothing else. |
| Layout.TripletStep | rbus/src/packet-rbus.c:1125-1160 | One pass of the loop adds the triplet at the current index and moves on by three with one fewer left. |
| Layout.ReadTriplet | rbus/src/packet-rbus.c:1126-1158 | The loop body's three one-index steps build exactly that triplet and advance the index by three. |
| Layout.WalkTriplets | rbus/src/packet-rbus.c:1125-1160 | The parameter and property loops emit exactly the triplet walk and stop where it stops. |
| Layout.CountSearch | rbus/src/packet-rbus.c:1215-1245 | The count search finds the first index before the marker holding a qualifying integer. A positive count must be followed by a string, and a zero by something that is not an integer. It fails exactly when no index qualifies. |
| Layout.FindPropertyCount | rbus/src/packet-rbus.c:1212-1245 | The search loop finds exactly what the count search finds, with the count cast to 32 bits and the index after it. |
| Layout.Fits | rbus/src/packet-rbus.c:1100-1122 | No ensures; the type test of one slot step, specified by `Layout.SlotWalkFields`. |
| Layout.SlotField | rbus/src/packet-rbus.c:1100-1122 | No ensures; the field one slot step adds, specified by `Layout.SlotWalkFields`. |
| Layout.PickOne | rbus/src/packet-rbus.c:1029-1040 | No ensures beyond emitting at most one field; one value of a type-filtered scan, specified by `Layout.PicksSnoc`. |
| Layout.NamePick | rbus/src/packet-rbus.c:878-885 | No ensures; a string as a parameter name, specified by `Dispatch.GetFieldsMembers`. |
| Layout.AttrPick | rbus/src/packet-rbus.c:1029-1040 | No ensures; a string as a parameter name or a positive integer as a count, specified by `Dispatch.AttributeFieldsMembers` and `Dispatch.RowFieldsShape`. |
| Layout.DirectPick | rbus/src/packet-rbus.c:1088-1096 | No ensures; a string as a component name, specified by `Dispatch.DirectFieldsMembers`. |
| Layout.AsCount | rbus/src/packet-rbus.c:1218-1220 | No ensures; the `(guint32)` cast of a positive or negative integer, specified by `Layout.FindPropertyCount` and `Dispatch.ResponseCount`. |
| Layout.CountQualifies | rbus/src/packet-rbus.c:1216-1240 | No ensures; the test that an integer is the property count, specified by `Layout.CountSearch`. |
| Event.EventProperty | rbus/src/packet-rbus.c:769-802 | One triplet gives one property exactly when its name is a string, and nothing otherwise. |
| Event.EventProps | rbus/src/packet-rbus.c:768-803 | The event property loop emits at most count properties and stops between its start and the number of collected objects. |
| Event.EventHead | rbus/src/packet-rbus.c:705-753 | The event head always moves past the event name and reaches an index no greater than the number of objects. |
| Event.EventData | rbus/src/packet-rbus.c:755-804 | The event-data block stops between its start and the number of collected objects. |
| Event.EventPropsVisits | rbus/src/packet-rbus.c:768 | The loop `p < count && idx + 2 < n` visits min(count, (n - idx) / 3) triplets. |
| Event.EventPropsAllNamed | rbus/src/packet-rbus.c:768-803 | One property is emitted per visited triplet whose name is a string, so one per visited triplet when every name is a string. |
| Event.EventPropsShape | rbus/src/packet-rbus.c:769-802 | Each emitted property carries the truncated name of a string at a visited index, the type from the next index and the rendering of the value after it. |
| Event.EventPropsSource | rbus/src/packet-rbus.c:768-803 | The k-th emitted property comes from a visited triplet, and later properties from later triplets. |
| Event.EventStartsWithName | rbus/src/packet-rbus.c:708-734 | The event name is always the first field. The has-event-data flag is set exactly when a non-zero positive integer sits at the flag position. |
| Event.NoDataWithoutFlag | rbus/src/packet-rbus.c:729-756 | Without the has-event-data flag no event-data subtree and no property is emitted. |
| Event.HeadKinds | rbus/src/packet-rbus.c:705-753 | The head holds string, unsigned and boolean fields only. |
| Event.ReadEventProperty | rbus/src/packet-rbus.c:769-802 | One pass of the event property loop emits exactly the property of its triplet and advances by three. |
| Event.WalkEventProps | rbus/src/packet-rbus.c:768-803 | The event property loop emits exactly the specified properties and stops at the specified index. |
| Event.WalkEventHead | rbus/src/packet-rbus.c:705-753 | The head steps compute exactly the event head. |
| Event.WalkEventData | rbus/src/packet-rbus.c:755-804 | The event-data steps compute exactly the event-data block. |
| Event.EventFields | rbus/src/packet-rbus.c:705-825 | No ensures; the event layout, specified by `Event.EventStartsWithName`, `Event.NoDataWithoutFlag` and `Event.EventPublication`. |
| Event.EventPublication | rbus/src/packet-rbus.c:705-825 | The event-publication branch emits exactly the event layout: head, data block, then interval, duration and component id. |
| Dispatch.DecodeAt | rbus/src/packet-rbus.c:669 | A decode that succeeds consumes at least one byte and at most what is left of the payload. |
| Dispatch.Collect | rbus/src/packet-rbus.c:663-676 | The collection loop stores no more objects than there is room for and no more than there are remaining bytes. |
| Dispatch.FirstMarker | rbus/src/packet-rbus.c:686-700 | The marker search finds a `METHOD_` string with none before it from the start index, and fails exactly when there is none. |
| Dispatch.ClaimsAllOrNothing | rbus/src/packet-rbus.c:678-681 | The structured parser returns either 0 with nothing added or the whole payload length. It returns 0 whenever fewer than four objects decode. |
| Dispatch.FallbackSelection | rbus/src/packet-rbus.c:703-830 | Without a marker the event layout runs exactly when there are at least six objects and the first is a string; otherwise nothing is claimed. |
| Dispatch.FailedElementNeverEmitted | rbus/src/packet-rbus.c:1187-1206 | With the marker index taken from the first-marker search, the RESPONSE failed-element field is never emitted. |
| Dispatch.NoInnerMarkerNoFailedElement | rbus/src/packet-rbus.c:1187-1206 | Without a marker at index 2 before the method marker, the RESPONSE layout emits no failed-element field. |
| Dispatch.PropertyFieldsShape | rbus/src/packet-rbus.c:1208-1284 | The property part of a response holds the property count and property triplets only. |
| Dispatch.ResponseCount | rbus/src/packet-rbus.c:1173-1245 | RESPONSE emits nothing exactly when the marker is first. Otherwise the error code comes first, and it is the only field when the marker is second. With the marker further on, a property count follows exactly when the count search succeeds, and at most that many property triplets come after it. |
| Dispatch.SetReadsBeforeMarker | rbus/src/packet-rbus.c:1097-1168 | Every SET field depends only on the values before the marker. |
| Dispatch.SetExample | rbus/src/packet-rbus.c:1097-1168 | The concrete SET message (session 1, component "Comp1", rollback 0, one boolean parameter) gives exactly its fields and commit string. |
| Dispatch.SetWithOneParameter | rbus/src/packet-rbus.c:1097-1168 | Any SET message of that shape, with NUL-free strings, gives exactly those fields. |
| Dispatch.SingleTriplet | rbus/src/packet-rbus.c:1125-1160 | With a count of 1 and room before the marker, the loop emits exactly one triplet. |
| Dispatch.SetSlotsExample | rbus/src/packet-rbus.c:1100-1122 | The three leading SET slots consume indices 0 to 2 when each value has its slot's type. |
| Dispatch.ResponseExample | rbus/src/packet-rbus.c:1215-1245 | The bare response `[0, 0, "METHOD_RESPONSE", "", "", 0]` gets its error code and no property count. |
| Dispatch.CollectStep | rbus/src/packet-rbus.c:668-676 | One successful decode appends the decoded object to what has been collected. |
| Dispatch.CollectObjects | rbus/src/packet-rbus.c:663-676 | The loop into the `MAX_OBJECTS` array stores exactly the collected objects. |
| Dispatch.NextObject | rbus/src/packet-rbus.c:669-675 | One `msgpack_unpack_next` step yields the next collected object and the offset after it, or fails with nothing more to collect. |
| Dispatch.FindMethod | rbus/src/packet-rbus.c:686-700 | The marker search loop finds exactly the first marker. |
| Dispatch.MetadataLayout | rbus/src/packet-rbus.c:832-861 | The metadata steps compute exactly `Dispatch.MetadataFields`, whose meaning is stated by `Dispatch.MetadataShape`, `Dispatch.MetadataReadsFourValues` and `Dispatch.MarkerClaim`. |
| Dispatch.MetadataShape | rbus/src/packet-rbus.c:832-861 | The metadata subtree opens with the method name from the marker and holds at most three more fields, each an OpenTelemetry string or the int32 offset. The parent comes third exactly when the value after the marker is a string, and the offset closes the subtree exactly when a fourth value follows the marker. |
| Dispatch.MetadataReadsFourValues | rbus/src/packet-rbus.c:832-861 | The metadata subtree depends only on the marker and the three values after it. |
| Dispatch.MarkerClaim | rbus/src/packet-rbus.c:686-700 | With a marker, the claimed fields open with the metadata subtree, whose method name begins with `METHOD_` and is the very name the verb layout is chosen by. |
| Dispatch.MetadataFields | rbus/src/packet-rbus.c:832-861 | No ensures; the metadata fields, specified by `Dispatch.MetadataShape` and `Dispatch.MetadataReadsFourValues`. |
| Dispatch.GetLayout | rbus/src/packet-rbus.c:864-886 | The GET branch computes exactly `Dispatch.GetFields`, whose meaning is stated by `Dispatch.GetFieldsMembers`, `Dispatch.GetReadsBeforeMarker` and `Dispatch.GetMethodNameAsComponent`. |
| Dispatch.GetFieldsMembers | rbus/src/packet-rbus.c:864-886 | With fewer than three objects GET adds nothing. Otherwise a field is added exactly when it is the component name of a string at index 0, the count of a positive integer at index 1, or the name of a string from index 2 up to the marker; the component name comes first. |
| Dispatch.GetReadsBeforeMarker | rbus/src/packet-rbus.c:864-886 | GET reads only indices 0 and 1 and the values before the marker. |
| Dispatch.GetMethodNameAsComponent | rbus/src/packet-rbus.c:864-876 | GET reads index 0 without checking the marker: when the method name itself is object 0, it is shown again as the component name, followed by the count when object 1 is a positive integer, and no parameter name. |
| Dispatch.GetFields | rbus/src/packet-rbus.c:864-886 | No ensures; the GET fields, specified by `Dispatch.GetFieldsMembers` and `Dispatch.GetReadsBeforeMarker`. |
| Dispatch.SetFields | rbus/src/packet-rbus.c:1097-1168 | No ensures; the SET fields, specified by `Dispatch.SetReadsBeforeMarker`, `Dispatch.SetWithOneParameter` and the slot and triplet walk lemmas. |
| Dispatch.ResponseFields | rbus/src/packet-rbus.c:1169-1285 | No ensures; the RESPONSE fields, specified by `Dispatch.ResponseCount` and `Dispatch.FailedElementNeverEmitted`. |
| Dispatch.PropertyFields | rbus/src/packet-rbus.c:1208-1284 | No ensures; the property part of a response, specified by `Dispatch.PropertyFieldsShape`. |
| Dispatch.VerbFields | rbus/src/packet-rbus.c:863-1286 | No ensures; the strcmp chain on the method name, specified by `Dispatch.MarkerClaim` and the per-method lemmas. |
| Dispatch.StructuredOf | rbus/src/packet-rbus.c:678-1289 | No ensures; the parser on the collected objects, specified by `Dispatch.ClaimsAllOrNothing`, `Dispatch.FallbackSelection` and `Dispatch.MarkerClaim`. |
| Dispatch.StructuredParse | rbus/src/packet-rbus.c:655-1290 | No ensures; `parse_rbus_payload` as a function, specified by `Dispatch.ClaimsAllOrNothing`. |
| Dispatch.SetLayout | rbus/src/packet-rbus.c:1097-1168 | The SET branch emits exactly its fields. |
| Dispatch.ResponseLayout | rbus/src/packet-rbus.c:1169-1285 | The RESPONSE branch emits exactly its fields. |
| Dispatch.PropertyLayout | rbus/src/packet-rbus.c:1208-1284 | The count search and the property loop emit exactly the property part. |
| Dispatch.VerbLayout | rbus/src/packet-rbus.c:863-1286 | The strcmp chain on the method name emits exactly the layout for that method, and nothing for an unknown method. |
| Dispatch.ParsePayload | rbus/src/packet-rbus.c:655-1290 | `parse_rbus_payload` returns exactly the specified claim and fields. |
| Dispatch.ParseObjects | rbus/src/packet-rbus.c:678-1289 | Everything after the collection loop computes exactly the specified claim and fields from the collected objects. |
| Dispatch.AttributeFields | rbus/src/packet-rbus.c:1014-1040 | No ensures; the attribute request layout, specified by `Dispatch.AttributeFieldsMembers`. |
| Dispatch.AttributeFieldsMembers | rbus/src/packet-rbus.c:1014-1040 | A string first is the component name and comes first. Every later string before the marker is a parameter name and every later positive integer a count, and nothing else is emitted. |
| Dispatch.AttributeSplit | rbus/src/packet-rbus.c:1017-1040 | The layout is the component name when a string comes first, then the type-filtered scan of the values up to the marker. |
| Dispatch.RowFields | rbus/src/packet-rbus.c:1041-1082 | No ensures; the table-row layout, specified by `Dispatch.RowFieldsShape`. |
| Dispatch.RowFieldsShape | rbus/src/packet-rbus.c:1041-1082 | At most four fields, none past the marker. A full request gives session, component and table name, then the alias as a name or the row index as a count, or nothing for another type. |
| Dispatch.DirectFields | rbus/src/packet-rbus.c:1083-1096 | No ensures; the direct-connection layout, specified by `Dispatch.DirectFieldsMembers`. |
| Dispatch.DirectFieldsMembers | rbus/src/packet-rbus.c:1083-1096 | One component name per string before the marker and nothing else, at most one field per value. |
| Dispatch.VerbChoosesSet | rbus/src/packet-rbus.c:1097 | The strcmp chain sends `METHOD_SETPARAMETERVALUES` to the SET layout, past every earlier test. |
| Dispatch.VerbChoosesResponse | rbus/src/packet-rbus.c:1169 | The strcmp chain sends `METHOD_RESPONSE` to the RESPONSE layout, past every earlier test. |
| Dispatch.FirstMarkerIs | rbus/src/packet-rbus.c:686-700 | The marker search stops at the first marker: a marker at m with none from i up to it is what the search from i finds. |
| Dispatch.NotMarkerStr | rbus/src/packet-rbus.c:694 | A string shorter than `METHOD_` or starting with another byte is no marker. |
| Dispatch.SetMessageNoEarlyMarker | rbus/src/packet-rbus.c:686-700 | None of the eight values before the SET method string in the example is a marker. |
| Dispatch.SetNameIsMarker | rbus/src/packet-rbus.c:692-697 | `METHOD_SETPARAMETERVALUES` is NUL-free and passes the marker test. |
| Dispatch.MetadataAfter | rbus/src/packet-rbus.c:832-861 | Values ending in a NUL-free method name, two empty strings and 0 get the metadata subtree with that name, two empty OpenTelemetry strings and offset 0. |
| Dispatch.SetMessageMethod | rbus/src/packet-rbus.c:692-697 | The ninth value of the SET example is the SET method string, a marker, NUL-free. |
| Dispatch.SetMessageMarker | rbus/src/packet-rbus.c:686-700 | The marker search on the SET example finds the method string at index 8. |
| Dispatch.SetMessageMetadata | rbus/src/packet-rbus.c:832-861 | The SET example's metadata subtree holds the method name, two empty OpenTelemetry strings and offset 0. |
| Dispatch.SetMessageDispatch | rbus/src/packet-rbus.c:686-1168 | The parser on the SET example claims the payload with the metadata subtree followed by the SET layout. |
| Dispatch.SetMessageExample | rbus/src/packet-rbus.c:678-1168 | The stored SET example, run through the whole parser, gives exactly its metadata subtree, session, component, rollback, count, one boolean parameter and commit string. |
| Dispatch.ResponseMessageMarker | rbus/src/packet-rbus.c:686-700 | The marker search on the bare response finds the method string at index 2. |
| Dispatch.ResponseMessageMetadata | rbus/src/packet-rbus.c:832-861 | The bare response's metadata subtree holds the method name, two empty OpenTelemetry strings and offset 0. |
| Dispatch.ResponseMessageDispatch | rbus/src/packet-rbus.c:686-1245 | The parser on the bare response claims the payload with the metadata subtree followed by the RESPONSE layout. |
| Dispatch.ResponseMessageExample | rbus/src/packet-rbus.c:678-1245 | The stored bare response, run through the whole parser, gives exactly its metadata subtree and error code 0, with no property count. |
| Display.Show | rbus/src/packet-rbus.c:292-615 | No ensures; `display_msgpack_object`, specified by `Display.ShowKeepsValid`, `Display.DepthNoteExactly` and `Display.PastLimitShowsNothing`. |
| Display.ShowItems | rbus/src/packet-rbus.c:562-569 | No ensures; the array element loop, specified by `Display.ItemsKeepValid` and `Display.ItemsDepthNote`. |
| Display.ShowPairs | rbus/src/packet-rbus.c:585-607 | No ensures; the map pair loop, specified by `Display.PairsKeepValid` and `Display.PairsDepthNote`. |
| Display.UIntStep | rbus/src/packet-rbus.c:325-371 | No ensures; the positive-integer context step, specified by `Display.StepsKeepValid`. |
| Display.StrStep | rbus/src/packet-rbus.c:418-462 | No ensures; the string context step, specified by `Display.StepsKeepValid`, `Display.MethodSetOnce` and `Display.CommitNeverChosen`. |
| Display.BinStep | rbus/src/packet-rbus.c:474-478 | No ensures; the blob context step, specified by `Display.StepsKeepValid`. |
| Display.ShowObjects | rbus/src/packet-rbus.c:1530-1567 | Showing top-level objects gives one entry list per object. |
| Display.ShowObjectsSnoc | rbus/src/packet-rbus.c:1540-1557 | Showing one more object continues from the context the others left, with the next object index. |
| Display.StepsKeepValid | rbus/src/packet-rbus.c:325-478 | Each integer or string step keeps the context valid and never replaces a known method. It moves params_seen only by one, and only while params_seen is below params_count * 3 and params_count stays put. The blob step never changes a valid context. |
| Display.MethodSetOnce | rbus/src/packet-rbus.c:425-430 | Only a `METHOD_` string seen before any method sets the method, and it sets the string's truncated text. |
| Display.CommitNeverChosen | rbus/src/packet-rbus.c:439-443 | In a valid context the commit branch never fires: the "Commit" label is never chosen for a string that did not already carry it. |
| Display.ShowKeepsValid | rbus/src/packet-rbus.c:292-615 | Showing any value keeps the context valid and keeps a known method. |
| Display.ItemsKeepValid | rbus/src/packet-rbus.c:562-569 | Showing array elements keeps the context valid and keeps a known method. |
| Display.PairsKeepValid | rbus/src/packet-rbus.c:585-607 | Showing map pairs keeps the context valid and keeps a known method. |
| Display.ObjectsKeepValid | rbus/src/packet-rbus.c:1530-1567 | A run of top-level objects keeps the context valid and keeps a known method. |
| Display.ParamsSeenCanPassCount | rbus/src/packet-rbus.c:339-341 | A concrete SET message leaves params_seen above params_count * 3: a nested array re-sets params_count after a string was counted against the earlier count. |
| Display.MethodArray | rbus/src/packet-rbus.c:418-462 | Object 0 of that message, the method array, sets the method and the two metadata strings. |
| Display.SetMarkerStep | rbus/src/packet-rbus.c:425-430 | The SET method string, seen first, sets the method. |
| Display.SecondCountArray | rbus/src/packet-rbus.c:325-371 | Object 3 of that message sets a count of 1, counts a string against it, then sets a count of 0. |
| Display.ItemStep | rbus/src/packet-rbus.c:562-569 | Showing element i of an array moves the element walk from one context to the next exactly when showing the element does. |
| Display.DepthNoteExactly | rbus/src/packet-rbus.c:296-300 | The depth-limit note appears exactly when the value nests deeper than the limit allows, whatever the context. |
| Display.ItemsDepthNote | rbus/src/packet-rbus.c:562-569 | Array elements carry the depth note exactly when one of them nests too deep. |
| Display.PairsDepthNote | rbus/src/packet-rbus.c:585-607 | Map pairs carry the depth note exactly when a key or value nests too deep. |
| Display.PastLimitShowsNothing | rbus/src/packet-rbus.c:296-300 | Beyond the depth limit only the note is shown and the context is untouched. |
| Display.ParseContext.constructor | rbus/src/packet-rbus.c:1528 | A fresh parse context is all zeros with no method. |
| Display.ParseContext.LabelUInt | rbus/src/packet-rbus.c:325-371 | The positive-integer branch updates the context and picks the label exactly as the integer step specifies. |
| Display.ParseContext.LabelStr | rbus/src/packet-rbus.c:418-462 | The string branch updates the context and picks the label exactly as the string step specifies. |
| Display.ParseContext.Display | rbus/src/packet-rbus.c:292-615 | `display_msgpack_object` adds exactly the entries the display specifies and leaves the context where it says. |
| Display.ParseContext.DisplayItems | rbus/src/packet-rbus.c:562-569 | The array element loop shows exactly the specified elements. |
| Display.ParseContext.DisplayPair | rbus/src/packet-rbus.c:589-605 | One pair: the key labelled "Key", then the value labelled by its key. |
| Display.ParseContext.DisplayPairs | rbus/src/packet-rbus.c:585-607 | The map pair loop shows exactly the specified pairs. |
| Display.Valid | rbus/src/packet-rbus.c:197-205 | No ensures; the invariant of `rbus_parse_context_t`, specified by `Display.ShowKeepsValid` and `Display.StepsKeepValid`. |
| Display.Evolves | rbus/src/packet-rbus.c:292-615 | No ensures; how the context may change while a value is shown, specified by `Display.ShowKeepsValid`. |
| Display.ParamRoom | rbus/src/packet-rbus.c:340 | No ensures; `params_count > 0 && params_seen < params_count * 3` with 32-bit wrap, specified by `Display.StepsKeepValid`. |
| Display.CountParam | rbus/src/packet-rbus.c:341 | No ensures; `params_seen++`, specified by `Display.StepsKeepValid`. |
| Display.StrText | rbus/src/packet-rbus.c:464-470 | No ensures; "(empty)" for a labelled empty string, specified by `Display.ScalarEntries`. |
| Display.UIntEntryOf | rbus/src/packet-rbus.c:373-393 | No ensures; a positive integer as a type name or a number, specified by `Display.ScalarEntries`. |
| Display.BinEntryOf | rbus/src/packet-rbus.c:480-546 | No ensures; a blob as a boolean, text or a byte count, specified by `Display.ScalarEntries`. |
| Display.KeyLabel | rbus/src/packet-rbus.c:589-599 | No ensures; the label of a map value, specified by `Display.MapValueLabels`. |
| Display.ShowPair | rbus/src/packet-rbus.c:589-605 | No ensures; one key and value of a map, specified by `Display.ParseContext.DisplayPair` and `Display.MapValueLabels`. |
| Display.ScalarEntries | rbus/src/packet-rbus.c:325-546 | Within the depth limit a scalar is one entry. A positive integer shows its type name exactly when it is an RBus type id, else its value. A string shows its C string, or "(empty)" in place of an empty one exactly when labelled. A blob shows a boolean exactly for one byte 0 or 1, then text exactly when the text check passes, else its size. |
| Display.MapValueLabels | rbus/src/packet-rbus.c:589-605 | A map value is labelled by its string key, its integer key or "Key i", never unlabelled, so an empty string value shows "(empty)" right after its key. |
| Fallback.Generic | rbus/src/packet-rbus.c:1520-1574 | No ensures; the generic fallback loop, specified by `Fallback.GenericAccounts` and `Fallback.GenericKeepsValid`. |
| Fallback.CollectEnd | rbus/src/packet-rbus.c:1530-1567 | The fallback loop stops at an offset between its start and the payload end. |
| Fallback.CollectEndMoves | rbus/src/packet-rbus.c:1546-1557 | The loop moves past its start exactly when it decodes an object. |
| Fallback.CollectAdvance | rbus/src/packet-rbus.c:1541-1557 | One decoded object: the loop continues from the next offset with one place less. |
| Fallback.GenericAccounts | rbus/src/packet-rbus.c:1530-1574 | Every payload byte is either consumed, left as the raw rest or counted in the limit note. The object count stays within the limit, and the limit note appears exactly when the count reaches it. Something is consumed exactly when an object is shown. |
| Fallback.GenericKeepsValid | rbus/src/packet-rbus.c:1528-1567 | The context the loop shares stays valid throughout. |
| Fallback.DissectValue | rbus/src/packet-rbus.c:617-649 | `dissect_msgpack_value` consumes nothing beyond the depth limit (only the note), nothing on a decoding failure, and otherwise the decoded size, showing the value. |
| Fallback.TopObject | rbus/src/packet-rbus.c:1540-1557 | One pass of the loop: `dissect_msgpack_value` either fails, leaving the context and the collected objects as they were, or shows exactly the next collected object and moves past it, the collection continuing from there. |
| Fallback.EndExit | rbus/src/packet-rbus.c:1530 | Reaching the end of the payload below the limit leaves no note. |
| Fallback.ClosingRaw | rbus/src/packet-rbus.c:1546-1553 | Stopping below the object limit before the end leaves the raw rest, with object_index set to the number of objects shown. |
| Fallback.RawExit | rbus/src/packet-rbus.c:1546-1553 | A decoding failure before the end leaves the rest as raw bytes, with object_index already set. |
| Fallback.LimitExit | rbus/src/packet-rbus.c:1560-1566 | Reaching the object limit leaves the limit note with the bytes not decoded. |
| Fallback.DecodeGeneric | rbus/src/packet-rbus.c:1520-1574 | The fallback loop computes exactly the specified walk and its summary text. |
| Fallback.Room | rbus/src/packet-rbus.c:1559-1560 | No ensures; the object limit as the loop applies it after at least one object, specified by `Fallback.GenericAccounts`. |
| Fallback.Close | rbus/src/packet-rbus.c:1546-1566 | No ensures; how the loop ends (limit note, raw rest or nothing), specified by `Fallback.GenericAccounts`, `Fallback.RawExit`, `Fallback.LimitExit` and `Fallback.EndExit`. |
| Fallback.Summarize | rbus/src/packet-rbus.c:1569-1574 | No ensures; the " [N MessagePack objects]" or " [Not valid MessagePack]" text, computed by `Fallback.DecodeGeneric`. |
| Framer.KindOf | rbus/src/packet-rbus.c:1410-1426 | The message type is a request exactly when bit 0 of the flags is set. It is a response when bit 1 is set but not bit 0. It is forwarded exactly when the control word is non-zero. |
| Framer.InfoOf | rbus/src/packet-rbus.c:1409-1432 | The header part of the info column (cleared at line 1346) is written exactly when the topic was read, with its type and the topic up to the first NUL. The event text the payload parser appends is `Framer.EventNote`. |
| Framer.ReadTopic | rbus/src/packet-rbus.c:1398-1445 | A topic or reply-topic read that stays within the capture consumes at least the length word and ends within the capture. |
| Framer.Stamps | rbus/src/packet-rbus.c:1451-1466 | Five timestamps are read, big-endian, four bytes apart. |
| Framer.TrailerAt | rbus/src/packet-rbus.c:1447-1478 | The trailer ends no earlier than it starts and no later than the capture. |
| Framer.View | rbus/src/packet-rbus.c:1504-1577 | A payload is shown as JSON, structured, or generic, never as no payload. |
| Framer.PayloadAt | rbus/src/packet-rbus.c:1484-1582 | The payload is cut to what was captured, and the truncation note comes exactly when that is less than payload_length. When no payload byte is there (payload_length 0 or the header ends the capture) nothing is shown and the offset stays put; otherwise the captured bytes are viewed and the offset moves on by the full payload_length. |
| Framer.FramedMeaning | rbus/src/packet-rbus.c:1310-1584 | Fewer than 22 bytes ask for one more segment. A capture below the 32-bit wrapped total asks for exactly the missing bytes. A header_length above the capture or a payload_length above 10 MiB returns the capture length. A walked message returns the end of its header plus payload_length exactly when payload_length is 0 or a payload byte follows the header, and the end of its header otherwise. |
| Framer.Walked | rbus/src/packet-rbus.c:1398-1478 | A walk after the length check either aborts at a read past the capture or yields a parsed message with this header. |
| Framer.Tail | rbus/src/packet-rbus.c:1447-1584 | The tail is a parsed message. It returns its header end plus payload_length exactly when payload_length is 0 or a payload byte was captured, and its header end otherwise. |
| Framer.WalkTopic | rbus/src/packet-rbus.c:1398-1445 | The topic steps compute exactly the topic read. |
| Framer.WalkTrailer | rbus/src/packet-rbus.c:1447-1478 | The lookahead and closing-marker steps compute exactly the trailer. |
| Framer.DissectPayload | rbus/src/packet-rbus.c:1484-1582 | The payload branch computes exactly the specified payload view, annotations and offset after the payload. |
| Framer.ReadHeader | rbus/src/packet-rbus.c:1356-1389 | The seven fixed fields are read from the first 22 bytes. |
| Framer.WalkMessage | rbus/src/packet-rbus.c:1398-1584 | The steps from the topic length word to the end compute exactly the walk, including the return value that adds payload_length only when a payload byte was captured. |
| Framer.WalkTail | rbus/src/packet-rbus.c:1447-1584 | The trailer and payload steps compute exactly the tail and its returned offset. |
| Framer.Dissect | rbus/src/packet-rbus.c:1295-1585 | `dissect_rbus` computes exactly the specified outcome and return value. |
| Framer.TopicConsumption | rbus/src/packet-rbus.c:1398-1445 | A topic read consumes the length word and, for a length of 1 to 1023, the string. It aborts exactly when one of those reads runs past the capture. |
| Framer.TrailerMeaning | rbus/src/packet-rbus.c:1447-1478 | Timestamps are taken exactly when 22 bytes remain and a marker sits 20 bytes ahead. The closing marker is read exactly when 2 bytes remain. After timestamps it is always the marker. |
| Framer.TailMeaning | rbus/src/packet-rbus.c:1447-1584 | The tail holds the trailer. It carries the malformed-header note exactly when the closing marker differs from 0xAAAA and the truncation note exactly when less than payload_length follows the header. Its payload view and returned offset are those of the payload branch at the trailer end. |
| Framer.ViewChoice | rbus/src/packet-rbus.c:1504-1577 | The JSON view comes exactly when the JSON test holds, and shows the text up to the first NUL. Otherwise the view is structured exactly when the parser claims the payload, and generic when it claims nothing. |
| Framer.TailAccounted | rbus/src/packet-rbus.c:1398-1584 | A walk whose two topic reads ran accounts for every header byte it read. |
| Framer.HeaderWalk | rbus/src/packet-rbus.c:1398-1478 | A walked frame accounts byte by byte for the topic, reply topic, timestamps and closing marker. |
| Framer.ReadTopicAgrees | rbus/src/packet-rbus.c:1398-1445 | A topic read depends only on the bytes it reads. |
| Framer.PayloadAgrees | rbus/src/packet-rbus.c:1484-1581 | The payload view depends only on the bytes from its offset on. |
| Framer.TrailerAgrees | rbus/src/packet-rbus.c:1447-1478 | The trailer depends only on the bytes from its offset on. |
| Framer.WalkedAgrees | rbus/src/packet-rbus.c:1398-1584 | A walk depends only on the bytes from the topic length word on. |
| Framer.HeaderAgrees | rbus/src/packet-rbus.c:1356-1389 | The fixed header is read from the first 22 bytes. |
| Framer.WalkedHeader | rbus/src/packet-rbus.c:1398-1584 | A walk uses only the flags, control and payload_length of its header. |
| Framer.MarkerAndVersionUnchecked | rbus/src/packet-rbus.c:1356-1361 | The framer never tests the opening marker or version: rewriting the first four bytes changes only those two header fields of the outcome. |
| Framer.TrailerClosing | rbus/src/packet-rbus.c:1469-1478 | Rewriting the closing-marker bytes of a trailer without timestamps changes only the marker read. |
| Framer.FramedAsTail | rbus/src/packet-rbus.c:1398-1584 | A walked frame is the tail after its two topic reads. |
| Framer.SameTopics | rbus/src/packet-rbus.c:1398-1445 | A buffer that agrees with a walked frame up to the end of its reply topic reads the same topics. |
| Framer.TailClosing | rbus/src/packet-rbus.c:1469-1584 | A tail with a rewritten closing marker and no timestamps differs only in the marker and the note it implies. |
| Framer.ClosingTail | rbus/src/packet-rbus.c:1398-1584 | A walked frame and the tail of the buffer with rewritten closing-marker bytes differ only in that marker and its note. |
| Framer.ClosingMarkerOnlyAnnotates | rbus/src/packet-rbus.c:1469-1478 | The closing marker only decides the malformed-header note: the topics, offsets, payload view and return value stay the same. |
| Framer.ShortCaptureAborts | rbus/src/packet-rbus.c:1391-1402 | A capture of 22 to 25 bytes that passes the length checks reads the topic length word past the end. |
| Framer.WrappedTotalNeverWalks | rbus/src/packet-rbus.c:1334-1396 | When header_length + payload_length wraps around 2^32, the total is too small, but the payload_length check still stops the message before any walk. |
| Framer.RecognisedCompleteMessageIsWalked | rbus/src/packet-rbus.c:1312-1396 | A capture that the heuristic accepts and that holds header_length + payload_length bytes passes both length checks and is walked. |
| Framer.HeaderLengthNotUsedForReturn | rbus/src/packet-rbus.c:1580-1584 | The returned offset is measured from the walked header end, not from header_length: a 32-byte message announcing a 20-byte header and no payload returns 32. |
| Framer.UncapturedPayloadNotAdded | rbus/src/packet-rbus.c:1484-1584 | payload_length is added to the returned offset only when a payload byte was captured: a 32-byte capture announcing header_length 0 and payload_length 5 carries the truncation note, shows no payload and returns 32. |
| Framer.AcceptedUncapturedPayload | rbus/src/packet-rbus.c:1484-1584 | The same holds for a capture the heuristic accepts: 42 bytes announcing header_length 32, payload_length 5 and a 10-byte topic return 42, with the truncation note and no payload. |
| Framer.AcceptedUncapturedRecognised | rbus/src/packet-rbus.c:1591-1619 | The heuristic accepts that 42-byte capture. |
| Framer.EventNoteChoice | rbus/src/packet-rbus.c:705-715 | The info column gains " Event: <name>" exactly when the payload is not JSON, at least six objects decode, none is a `METHOD_` string and the first is a string; the name is that string up to its first NUL. Whether a topic was read plays no part. |
| Framer.EventNote | rbus/src/packet-rbus.c:714 | No ensures; the text appended to the info column, specified by `Framer.EventNoteChoice`. |
| Framer.Framed | rbus/src/packet-rbus.c:1295-1585 | No ensures; `dissect_rbus` as a function, specified by `Framer.FramedMeaning`, `Framer.HeaderWalk` and `Framer.FramedAsTail`. |
| Framer.Total | rbus/src/packet-rbus.c:1333-1334 | No ensures; header_length + payload_length wrapping at 32 bits, specified by `Framer.FramedMeaning`. |
| Framer.HeaderOf | rbus/src/packet-rbus.c:1356-1389 | No ensures; the seven fixed header fields, read step by step by `Framer.ReadHeader`; `Framer.HeaderAgrees` states they depend only on the first 22 bytes. |
| Framer.LooksLikeJson | rbus/src/packet-rbus.c:1504-1506 | No ensures; the JSON test, specified by `Framer.ViewChoice`. |
| Framer.ViewerOf | rbus/src/packet-rbus.c:1484-1582 | No ensures; the payload view with the decoder and the two preferences as parameters, specified by `Framer.DissectPayload`. |
| Framer.Frame | rbus/src/packet-rbus.c:1295-1585 | No ensures; `dissect_rbus` with the payload view plugged in, specified by `Framer.Dissect`. |

## Behaviour of the code worth knowing

These are consequences of the code as written. The model keeps each of them and proves it:

- **Version mismatch.** The heuristic accepts only version 2, while `rbus/include/rbus-protocol.h` defines `RBUS_PROTOCOL_VERSION` as 1 (`Heuristic.RejectsProtocolVersion`).
- **Marker and version unchecked.** `dissect_rbus` reads the opening marker and the version but never tests them (`Framer.MarkerAndVersionUnchecked`).
- **Return value.** The returned length is the end of the walked header, plus payload_length only when at least one payload byte was captured; header_length plays no part in it (`Framer.HeaderLengthNotUsedForReturn`). A message whose header fills the capture but which announces a payload returns the header end with the truncation note, even when the heuristic accepts it (`Framer.UncapturedPayloadNotAdded`, `Framer.AcceptedUncapturedPayload`).
- **Wrapped total.** The total `header_len + payload_len` is computed in 32 bits and can wrap. The payload_length limit then stops such a message before it is walked (`Framer.WrappedTotalNeverWalks`).
- **params_seen can exceed its bound.** params_seen can end above params_count * 3, because nested elements share the context and a later count re-sets params_count (`Display.ParamsSeenCanPassCount`).
- **Unreachable commit branch.** The "Commit" branch of the string display is unreachable in a valid context (`Display.CommitNeverChosen`).
- **Unreachable failed-element branch.** The RESPONSE failed-element branch is unreachable, since the marker index is that of the first marker (`Dispatch.FailedElementNeverEmitted`).
- **GET bounds.** GET reads indices 0 and 1 guarded only by `array_size >= 3`, not by the marker index, so a method name at index 0 is shown again as the component name (`Dispatch.GetMethodNameAsComponent`).
- **The blob "UTF-8" check accepts any high byte.** It accepts every byte from 0x80 up, so invalid UTF-8 passes (`Render.HighBytesPass`). `add_typed_value` does no text check on blobs at all.

## Left out

- The MessagePack decoder (`msgpack_unpack_next`) is not modelled; it is the parameter `Values.Decoder`. A reply outside 1..remaining bytes is treated as a failure, which the library never gives.
- Wireshark's tree items, expert infos and columns are modelled as the records they would carry (`Fields.Field`, `Display.Entry`, `Framer.Outcome`), not as calls into the Wireshark API. The info column is the header part `Framer.InfoOf` followed by the event text `Framer.EventNote` of the payload view.
- Floating-point values are kept as opaque bit patterns, and printf formatting of doubles is not modelled.
- The UTF-8 decoding `proto_tree_add_item_ret_string` does on topics is not modelled: topics are kept as raw bytes.
- Protocol registration, the preference table, and the heuristic's hand-off to `dissect_rbus` through TCP are not modelled. The two preferences the core reads, the depth limit and the object limit, are parameters.
- TCP desegmentation is the `NeedMore` outcome carrying what would be asked for. Reassembly itself is not modelled.
- A read past the captured bytes raises a bounds exception in Wireshark. It is modelled as the `Aborted` outcome, with the offset of the read.
- Framer.Framed: the guint offset and the int return value are unbounded integers. A return past 2^31 would wrap in C, which needs a capture of about 2 GiB that Wireshark never builds.
- Fallback.DecodeGeneric: the `available == 0` break is left out, because the loop runs only while the offset is below the end of a payload cut to the capture, so it cannot fire.
- JSON payloads are detected and shown as text. Their contents are not parsed, as in the code.
- `plugin_describe` and the value-string tables used only for display (event types) are not modelled.
