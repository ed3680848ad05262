/** The labelled fields the structured payload parser emits (the hf_rbus_*
    fields it adds to the protocol tree), as records in emission order. */
module Fields {
  import opened Bytes
  import opened Values
  import opened Render

  datatype FieldId =
    | SessionId | ComponentName | ParamCount | PropertyCount | ErrorCode
    | Rollback | Commit | FailedElement | MethodName | OtParent | OtState
    | MetadataOffset | EventName | ReplyTopicPayload | InvokeMethodName
    | HasParams | EventType | HasEventData | HasFilter | Interval | Duration
    | ComponentId | ParameterName

  /** The synthetic "name=value" string added for filtering. */
  datatype NameValue = NameValue(name: bytes, value: Shown)

  datatype Field =
    | StrField(id: FieldId, text: bytes)
    | UIntField(id: FieldId, n: u32)
    | IntField(id: FieldId, i: i32)
    | BoolField(id: FieldId, b: bool)
      /** The metadata subtree. */
    | MetadataTree
      /** A parameter (SET) or property (RESPONSE) subtree: the name field when
          the name is a string, the type field when the type is an integer,
          the rendered value when it lies before the method marker, and the
          name=value field when both name and value are there. */
    | Triplet(role: Role, name: Option<bytes>, typeId: Option<u32>,
              value: Option<Rendered>, nameValue: Option<NameValue>)
      /** The event-data subtree, announcing its property count. */
    | EventDataTree(count: u32)
      /** One property of an event publication. */
    | ObjectProperty(propName: bytes, propType: u32, propValue: Rendered, propNameValue: NameValue)

  /** The "0, else (gint32)u64 of a positive integer, else (gint32)i64 of a
      negative one" reading the layouts apply to error codes and offsets. */
  function Int32Of(v: Value): i32
  {
    match v
    case PosInt(u) => I32(u)
    case NegInt(i) => I32(i)
    case _ => 0
  }

  /** The reading keeps an integer modulo 2^32 and is 0 for a value that
      is no integer. */
  lemma Int32OfWraps(v: Value)
    ensures !v.PosInt? && !v.NegInt? ==> Int32Of(v) == 0
    ensures v.PosInt? ==> Int32Of(v) % TWO32 == v.u % TWO32
    ensures v.NegInt? ==> Int32Of(v) % TWO32 == v.i % TWO32
  {
    if v.PosInt? { CastsWrap(v.u); }
    if v.NegInt? { CastsWrap(v.i); }
  }
}
