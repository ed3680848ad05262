/** Decoded MessagePack values (the library's msgpack_object), the decoder as
    an external function, and the RBus type-id table. */
module Values {
  import opened Bytes

  datatype Option<T> = None | Some(value: T)

  /** The bits of a float32/float64; the model never interprets them. */
  type FloatBits = u64

  /** One decoded MessagePack object; maps keep their key/value pairs in
      wire order, as msgpack_object_kv arrays do. */
  datatype Value =
    | Nil
    | Boolean(b: bool)
    | PosInt(u: u64)
    | NegInt(i: i64)
    | Float(f: FloatBits)
    | Str(s: bytes)
    | Bin(data: bytes)
    | Array(items: seq<Value>)
    | Map(pairs: seq<Pair>)
    | Ext(extType: int, payload: bytes)

  datatype Pair = Pair(key: Value, val: Value)

  /** What one successful msgpack_unpack_next call yields: the object and
      the number of bytes it occupied. */
  datatype Decoded = Decoded(value: Value, size: nat)

  /** msgpack_unpack_next applied to the bytes from the current position to
      the end; the library is not part of this model. */
  type Decoder = bytes -> Option<Decoded>

  /** The literal whose presence marks the method-name string. */
  const METHOD_PREFIX: bytes := Ascii("METHOD_")

  /** The method names the dispatcher and the generic display compare
      against with strcmp. */
  const GET_VALUES: bytes := Ascii("METHOD_GETPARAMETERVALUES")
  const SET_VALUES: bytes := Ascii("METHOD_SETPARAMETERVALUES")
  const SUBSCRIBE: bytes := Ascii("METHOD_SUBSCRIBE")
  const UNSUBSCRIBE: bytes := Ascii("METHOD_UNSUBSCRIBE")
  const RPC: bytes := Ascii("METHOD_RPC")
  const COMMIT: bytes := Ascii("METHOD_COMMIT")
  const GET_NAMES: bytes := Ascii("METHOD_GETPARAMETERNAMES")
  const SET_ATTRIBUTES: bytes := Ascii("METHOD_SETPARAMETERATTRIBUTES")
  const GET_ATTRIBUTES: bytes := Ascii("METHOD_GETPARAMETERATTRIBUTES")
  const ADD_ROW: bytes := Ascii("METHOD_ADDTBLROW")
  const DELETE_ROW: bytes := Ascii("METHOD_DELETETBLROW")
  const OPEN_DIRECT: bytes := Ascii("METHOD_OPENDIRECT_CONN")
  const CLOSE_DIRECT: bytes := Ascii("METHOD_CLOSEDIRECT_CONN")
  const RESPONSE: bytes := Ascii("METHOD_RESPONSE")

  /** A string value that strncmp(str, "METHOD_", 7) accepts. */
  predicate IsMarker(v: Value)
  {
    v.Str? && StartsWith(CStr(v.s), METHOD_PREFIX)
  }

  lemma MarkerIgnoresNul(v: Value)
    requires v.Str?
    ensures IsMarker(v) <==> StartsWith(v.s, METHOD_PREFIX)
  {
    CStrPrefix(v.s, METHOD_PREFIX);
  }

  /** rbus_type_vals: the RBus value type ids and their names. */
  const TYPE_NAMES: seq<(u32, string)> := [
    (0x00, "String"), (0x01, "Int"), (0x02, "UnsignedInt"), (0x03, "Boolean"),
    (0x04, "DateTime"), (0x05, "Base64"),
    (0x500, "Boolean"), (0x501, "Char"), (0x503, "Int8"), (0x504, "UInt8"),
    (0x505, "Int16"), (0x506, "UInt16"), (0x507, "Int32"), (0x508, "UInt32"),
    (0x509, "Int64"), (0x50A, "UInt64"), (0x50B, "Single"), (0x50C, "Double"),
    (0x50E, "String"), (0x50F, "Bytes"), (0x512, "None")
  ]

  /** try_val_to_str over a value_string table: the first entry with this id. */
  function Lookup(table: seq<(u32, string)>, id: u32): (r: Option<string>)
    ensures r.Some? <==> exists k :: 0 <= k < |table| && table[k].0 == id
    ensures r.Some? ==> exists k :: 0 <= k < |table| && table[k] == (id, r.value)
  {
    if table == [] then None
    else if table[0].0 == id then Some(table[0].1)
    else
      var r := Lookup(table[1..], id);
      assert forall k :: 1 <= k < |table| ==> table[k] == table[1..][k - 1];
      r
  }

  function TypeName(id: u32): Option<string>
  {
    Lookup(TYPE_NAMES, id)
  }
}
