/** The generic MessagePack display (display_msgpack_object) with the small
    state machine it drives (rbus_parse_context_t): the first "METHOD_"
    string fixes the method, the next two strings are the OpenTelemetry
    fields, and integers and strings get method-specific labels by the
    index of the top-level object they belong to. */
module Display {
  import opened Bytes
  import opened Values
  import opened Render

  /** pref_msgpack_depth_limit and pref_msgpack_object_limit as shipped. */
  const DEFAULT_DEPTH_LIMIT: nat := 16
  const DEFAULT_OBJECT_LIMIT: nat := 20000

  /** The literals the display compares strings against or shows. */
  const COMMIT_TRUE: bytes := Ascii("TRUE")
  const COMMIT_FALSE: bytes := Ascii("FALSE")
  const EMPTY_TEXT: bytes := Ascii("(empty)")

  /** The fixed labels the display chooses. */
  datatype LabelName =
    | SessionId | Rollback | ParameterCount | MetadataOffset | ErrorCode
    | PropertyCount | SessionOrError | Method | OtParent | OtState | Commit
    | ComponentName | Key

  /** The label an entry is shown with: none, a fixed one, an array
      position "[i]", or a map key (its text, its number, or "Key i"). */
  datatype Label =
    | NoLabel
    | Named(name: LabelName)
    | Element(index: nat)
    | KeyText(text: bytes)
    | KeyNumber(n: u64)
    | KeyOrdinal(ordinal: nat)

  /** One item the display adds to the tree. */
  datatype Entry =
    | DepthExceeded(limit: nat)
    | NilEntry(tag: Label)
    | BoolEntry(tag: Label, b: bool)
      /** An integer that is an RBus type id: its name and the id. */
    | TypeIdEntry(tag: Label, typeName: string, id: u32)
    | UIntEntry(tag: Label, u: u64)
    | IntEntry(tag: Label, i: i64)
    | FloatEntry(tag: Label, f: FloatBits)
    | StrEntry(tag: Label, text: bytes)
    | BinaryEntry(tag: Label, size: nat)
    | ArrayEntry(tag: Label, count: nat)
    | MapEntry(tag: Label, count: nat)
      /** An extension object, added as raw bytes. */
    | RawEntry

  /** The fields of rbus_parse_context_t; the method name is the C string
      of the marker. */
  datatype Ctx = Ctx(objectIndex: nat, seenMethod: bool, metaFieldCount: nat,
                     methodName: Option<bytes>, paramsCount: u32, paramsSeen: u32)

  /** `{0, FALSE, 0, NULL, 0, 0}`. */
  const INITIAL: Ctx := Ctx(0, false, 0, None, 0, 0)

  /** What the state machine keeps: at most two metadata fields, a method
      name exactly when the method was seen, and no parameter tracking
      before it. */
  predicate Valid(c: Ctx)
  {
    c.metaFieldCount <= 2 &&
    (c.seenMethod <==> c.methodName.Some?) &&
    (!c.seenMethod ==> c.paramsCount == 0 && c.paramsSeen == 0)
  }

  /** `params_count > 0 && params_seen < params_count * 3`, the product
      wrapping at 32 bits as guint arithmetic does. */
  predicate ParamRoom(c: Ctx)
  {
    c.paramsCount > 0 && c.paramsSeen < U32(c.paramsCount * 3)
  }

  function CountParam(c: Ctx): Ctx
    requires ParamRoom(c)
  {
    c.(paramsSeen := c.paramsSeen + 1)
  }

  /** The label chosen for a positive integer, and the new context. */
  function UIntStep(c: Ctx, u: u64, tag: Label): (Ctx, Label)
  {
    var i := c.objectIndex;
    var offsetOr := if c.metaFieldCount >= 2 then Named(MetadataOffset) else tag;
    match c.methodName
    case Some(m) =>
      if m == SET_VALUES then
        if i == 0 then (c, Named(SessionId))
        else if i == 2 then (c, Named(Rollback))
        else if i == 3 then (c.(paramsCount := U32(u)), Named(ParameterCount))
        else if ParamRoom(c) then (CountParam(c), tag)
        else (c, offsetOr)
      else if m == GET_VALUES then
        if i == 1 then (c, Named(ParameterCount)) else (c, offsetOr)
      else if m == RESPONSE then
        if i == 0 then (c, Named(ErrorCode))
        else if i == 1 then (c.(paramsCount := U32(u)), Named(PropertyCount))
        else if ParamRoom(c) then (CountParam(c), tag)
        else (c, offsetOr)
      else (c, offsetOr)
    case None =>
      if !c.seenMethod && i == 0 then (c, Named(SessionOrError)) else (c, tag)
  }

  /** The label chosen for a string, and the new context. */
  function StrStep(c: Ctx, s: bytes, tag: Label): (Ctx, Label)
  {
    var t := CStr(s);
    if !c.seenMethod && StartsWith(t, METHOD_PREFIX) then
      (c.(seenMethod := true, metaFieldCount := 0, methodName := Some(t)), Named(Method))
    else if c.seenMethod && c.metaFieldCount < 2 then
      (c.(metaFieldCount := c.metaFieldCount + 1),
       if c.metaFieldCount == 0 then Named(OtParent) else Named(OtState))
    else if !c.seenMethod && c.paramsCount > 0 && c.paramsSeen >= U32(c.paramsCount * 3) then
      (c, if t == COMMIT_TRUE || t == COMMIT_FALSE then Named(Commit) else tag)
    else if c.methodName.Some? then
      if c.methodName.value == SET_VALUES then
        if c.objectIndex == 1 then (c, Named(ComponentName))
        else if ParamRoom(c) then (CountParam(c), tag)
        else (c, tag)
      else if c.methodName.value == GET_VALUES && c.objectIndex == 0 then (c, Named(ComponentName))
      else (c, tag)
    else if !c.seenMethod && ParamRoom(c) then (CountParam(c), tag)
    else (c, tag)
  }

  /** The parameter tracking a blob does before anything else. */
  function BinStep(c: Ctx): Ctx
  {
    if !c.seenMethod && ParamRoom(c) then CountParam(c) else c
  }

  /** A labelled empty string is shown as "(empty)". */
  function StrText(tag: Label, t: bytes): bytes
  {
    if tag != NoLabel && t == [] then EMPTY_TEXT else t
  }

  /** The label a map value gets from its key. */
  function KeyLabel(key: Value, i: nat): Label
  {
    if key.Str? then KeyText(CStr(key.s))
    else if key.PosInt? then KeyNumber(key.u)
    else KeyOrdinal(i)
  }

  /** The entry for a scalar an integer step has labelled. */
  function UIntEntryOf(l: Label, u: u64): Entry
  {
    match TypeName(U32(u))
    case Some(n) => TypeIdEntry(l, n, U32(u))
    case None => UIntEntry(l, u)
  }

  /** The entry for a blob: a boolean, text, or a byte count. */
  function BinEntryOf(tag: Label, d: bytes): Entry
  {
    if IsBoolBlob(d) then BoolEntry(tag, d[0] == 1)
    else if BlobIsText(d) then StrEntry(tag, CStr(d))
    else BinaryEntry(tag, |d|)
  }

  /** display_msgpack_object: the context after showing v at this depth
      and the entries added. */
  function Show(c: Ctx, v: Value, depth: nat, tag: Label, limit: nat): (Ctx, seq<Entry>)
    decreases v, 1
  {
    if depth > limit then (c, [DepthExceeded(limit)])
    else match v
      case Nil => (c, [NilEntry(tag)])
      case Boolean(b) => (c, [BoolEntry(tag, b)])
      case PosInt(u) =>
        var r := UIntStep(c, u, tag);
        (r.0, [UIntEntryOf(r.1, u)])
      case NegInt(i) => (c, [IntEntry(tag, i)])
      case Float(f) => (c, [FloatEntry(tag, f)])
      case Str(s) =>
        var r := StrStep(c, s, tag);
        (r.0, [StrEntry(r.1, StrText(r.1, CStr(s)))])
      case Bin(d) => (BinStep(c), [BinEntryOf(tag, d)])
      case Array(items) =>
        var r := ShowItems(c, v, 0, depth + 1, limit);
        (r.0, [ArrayEntry(tag, |items|)] + r.1)
      case Map(pairs) =>
        var r := ShowPairs(c, v, 0, depth + 1, limit);
        (r.0, [MapEntry(tag, |pairs|)] + r.1)
      case Ext(_, _) => (c, [RawEntry])
  }

  /** The array elements from i on, each labelled "[i]". */
  function ShowItems(c: Ctx, v: Value, i: nat, depth: nat, limit: nat): (Ctx, seq<Entry>)
    requires v.Array? && i <= |v.items|
    decreases v, 0, |v.items| - i
  {
    if i == |v.items| then (c, [])
    else
      var r := Show(c, v.items[i], depth, Element(i), limit);
      var rest := ShowItems(r.0, v, i + 1, depth, limit);
      (rest.0, r.1 + rest.1)
  }

  /** One map pair: the key labelled "Key", then the value labelled by
      its key. */
  function ShowPair(c: Ctx, v: Value, i: nat, depth: nat, limit: nat): (Ctx, seq<Entry>)
    requires v.Map? && i < |v.pairs|
    decreases v, 0, 0
  {
    var p := v.pairs[i];
    assert p in v.pairs;
    var k := Show(c, p.key, depth, Named(Key), limit);
    var w := Show(k.0, p.val, depth, KeyLabel(p.key, i), limit);
    (w.0, k.1 + w.1)
  }

  /** The map pairs from i on. */
  function ShowPairs(c: Ctx, v: Value, i: nat, depth: nat, limit: nat): (Ctx, seq<Entry>)
    requires v.Map? && i <= |v.pairs|
    decreases v, 0, |v.pairs| - i
  {
    if i == |v.pairs| then (c, [])
    else
      var h := ShowPair(c, v, i, depth, limit);
      var rest := ShowPairs(h.0, v, i + 1, depth, limit);
      (rest.0, h.1 + rest.1)
  }

  /** Top-level objects shown one after another at depth 0 without a
      label, the k-th with object_index first + k, as the generic
      fallback shows them: the final context and each object's entries. */
  function ShowObjects(c: Ctx, vals: seq<Value>, first: nat, limit: nat): (r: (Ctx, seq<seq<Entry>>))
    ensures |r.1| == |vals|
    decreases |vals|
  {
    if vals == [] then (c, [])
    else
      var r := Show(c.(objectIndex := first), vals[0], 0, NoLabel, limit);
      var rest := ShowObjects(r.0, vals[1..], first + 1, limit);
      (rest.0, [r.1] + rest.1)
  }

  /** Showing one more object continues from where the others left the
      context, with the next object index. */
  lemma {:induction false} ShowObjectsSnoc(c: Ctx, vals: seq<Value>, v: Value, first: nat, limit: nat)
    ensures var before := ShowObjects(c, vals, first, limit);
      var r := Show(before.0.(objectIndex := first + |vals|), v, 0, NoLabel, limit);
      ShowObjects(c, vals + [v], first, limit) == (r.0, before.1 + [r.1])
    decreases |vals|
  {
    if vals == [] {
      assert [v][1..] == [] && vals + [v] == [v];
      var r := Show(c.(objectIndex := first), v, 0, NoLabel, limit);
      assert [r.1] + [] == [] + [r.1];
    } else {
      var r0 := Show(c.(objectIndex := first), vals[0], 0, NoLabel, limit);
      assert (vals + [v])[0] == vals[0];
      assert (vals + [v])[1..] == vals[1..] + [v];
      ShowObjectsSnoc(r0.0, vals[1..], v, first + 1, limit);
      var tail := ShowObjects(r0.0, vals[1..], first + 1, limit);
      var r := Show(tail.0.(objectIndex := first + |vals|), v, 0, NoLabel, limit);
      AppendAssoc([r0.1], tail.1, [r.1]);
    }
  }

  // ---- the state machine ----

  /** How the context may change while a value is shown: the object index
      stays, a seen method stays seen with the same name, and the metadata
      count never goes down while the method is known. */
  predicate Evolves(c: Ctx, d: Ctx)
  {
    d.objectIndex == c.objectIndex &&
    (c.seenMethod ==> d.seenMethod && d.methodName == c.methodName && c.metaFieldCount <= d.metaFieldCount)
  }

  /** One integer, string or blob step keeps the context valid, never
      replaces a known method, and moves params_seen only by one, and
      only while it is below params_count * 3 and params_count stays. */
  lemma StepsKeepValid(c: Ctx, u: u64, s: bytes, tag: Label)
    requires Valid(c)
    ensures var d := UIntStep(c, u, tag).0;
      Valid(d) && Evolves(c, d) &&
      (d.paramsSeen != c.paramsSeen ==> ParamRoom(c) && d.paramsSeen == c.paramsSeen + 1 && d.paramsCount == c.paramsCount)
    ensures var d := StrStep(c, s, tag).0;
      Valid(d) && Evolves(c, d) &&
      (d.paramsSeen != c.paramsSeen ==> ParamRoom(c) && d.paramsSeen == c.paramsSeen + 1 && d.paramsCount == c.paramsCount)
    ensures BinStep(c) == c
  {
  }

  /** Only a "METHOD_" string with no method seen sets the method, and the
      method it sets is that string's C text. */
  lemma MethodSetOnce(c: Ctx, s: bytes, tag: Label)
    ensures var d := StrStep(c, s, tag).0;
      d.methodName != c.methodName ==>
        !c.seenMethod && StartsWith(CStr(s), METHOD_PREFIX) && d.methodName == Some(CStr(s))
    ensures c.seenMethod ==> StrStep(c, s, tag).0.methodName == c.methodName
  {
  }

  /** In a valid context the commit branch never fires: the "Commit" label
      is never chosen for a string that was not already labelled so. */
  lemma CommitNeverChosen(c: Ctx, s: bytes, tag: Label)
    requires Valid(c) && tag != Named(Commit)
    ensures StrStep(c, s, tag).1 != Named(Commit)
  {
  }

  lemma {:induction false} ShowKeepsValid(c: Ctx, v: Value, depth: nat, tag: Label, limit: nat)
    requires Valid(c)
    ensures Valid(Show(c, v, depth, tag, limit).0) && Evolves(c, Show(c, v, depth, tag, limit).0)
    decreases v, 1
  {
    if depth <= limit {
      match v
      case PosInt(u) => StepsKeepValid(c, u, [], tag);
      case Str(s) => StepsKeepValid(c, 0, s, tag);
      case Bin(_) => StepsKeepValid(c, 0, [], tag);
      case Array(_) => ItemsKeepValid(c, v, 0, depth + 1, limit);
      case Map(_) => PairsKeepValid(c, v, 0, depth + 1, limit);
      case _ =>
    }
  }

  lemma {:induction false} ItemsKeepValid(c: Ctx, v: Value, i: nat, depth: nat, limit: nat)
    requires Valid(c) && v.Array? && i <= |v.items|
    ensures Valid(ShowItems(c, v, i, depth, limit).0) && Evolves(c, ShowItems(c, v, i, depth, limit).0)
    decreases v, 0, |v.items| - i
  {
    if i < |v.items| {
      var r := Show(c, v.items[i], depth, Element(i), limit);
      ShowKeepsValid(c, v.items[i], depth, Element(i), limit);
      ItemsKeepValid(r.0, v, i + 1, depth, limit);
    }
  }

  lemma {:induction false} PairsKeepValid(c: Ctx, v: Value, i: nat, depth: nat, limit: nat)
    requires Valid(c) && v.Map? && i <= |v.pairs|
    ensures Valid(ShowPairs(c, v, i, depth, limit).0) && Evolves(c, ShowPairs(c, v, i, depth, limit).0)
    decreases v, 0, |v.pairs| - i
  {
    if i < |v.pairs| {
      var p := v.pairs[i];
      assert p in v.pairs;
      var k := Show(c, p.key, depth, Named(Key), limit);
      ShowKeepsValid(c, p.key, depth, Named(Key), limit);
      ShowKeepsValid(k.0, p.val, depth, KeyLabel(p.key, i), limit);
      PairsKeepValid(ShowPair(c, v, i, depth, limit).0, v, i + 1, depth, limit);
    }
  }

  /** A whole run of top-level objects keeps the context valid and never
      replaces a known method. */
  lemma {:induction false} ObjectsKeepValid(c: Ctx, vals: seq<Value>, first: nat, limit: nat)
    requires Valid(c)
    ensures var d := ShowObjects(c, vals, first, limit).0;
      Valid(d) && (c.seenMethod ==> d.seenMethod && d.methodName == c.methodName)
    decreases |vals|
  {
    if vals != [] {
      var c1 := c.(objectIndex := first);
      ShowKeepsValid(c1, vals[0], 0, NoLabel, limit);
      ObjectsKeepValid(Show(c1, vals[0], 0, NoLabel, limit).0, vals[1..], first + 1, limit);
    }
  }

  /** params_seen can end above params_count * 3: a SET message whose
      object 3 is an array re-sets params_count after a nested string was
      counted against the earlier count. */
  lemma ParamsSeenCanPassCount(p: bytes, q: bytes, x: bytes)
    ensures var d := ShowObjects(INITIAL,
        [Array([Str(SET_VALUES), Str(p), Str(q)]), Nil, Nil, Array([PosInt(1), Str(x), PosInt(0)])],
        0, DEFAULT_DEPTH_LIMIT).0;
      Valid(d) && d.paramsCount == 0 && d.paramsSeen == 1 && d.paramsSeen > U32(d.paramsCount * 3)
  {
    var o0 := Array([Str(SET_VALUES), Str(p), Str(q)]);
    var o3 := Array([PosInt(1), Str(x), PosInt(0)]);
    var c := Ctx(0, true, 2, Some(SET_VALUES), 0, 0);
    var d := Ctx(3, true, 2, Some(SET_VALUES), 0, 1);
    MethodArray(p, q);
    SecondCountArray(x);
    var vals := [o0, Nil, Nil, o3];
    assert vals[1..] == [Nil, Nil, o3] && vals[1..][1..] == [Nil, o3];
    assert vals[1..][1..][1..] == [o3] && vals[1..][1..][1..][1..] == [];
    assert ShowObjects(c.(objectIndex := 3), [o3], 3, DEFAULT_DEPTH_LIMIT).0 == d;
    assert ShowObjects(c.(objectIndex := 2), [Nil, o3], 2, DEFAULT_DEPTH_LIMIT).0 == d;
    assert ShowObjects(c.(objectIndex := 1), [Nil, Nil, o3], 1, DEFAULT_DEPTH_LIMIT).0 == d;
  }

  /** Object 0 of the example: the method string and the two metadata
      strings. */
  lemma MethodArray(p: bytes, q: bytes)
    ensures Show(INITIAL, Array([Str(SET_VALUES), Str(p), Str(q)]), 0, NoLabel, DEFAULT_DEPTH_LIMIT).0
      == Ctx(0, true, 2, Some(SET_VALUES), 0, 0)
  {
    var o := Array([Str(SET_VALUES), Str(p), Str(q)]);
    var L := DEFAULT_DEPTH_LIMIT;
    var a := Ctx(0, true, 0, Some(SET_VALUES), 0, 0);
    var b := Ctx(0, true, 1, Some(SET_VALUES), 0, 0);
    var c := Ctx(0, true, 2, Some(SET_VALUES), 0, 0);
    SetMarkerStep();
    ItemStep(INITIAL, o, 0, L, a);
    assert StrStep(a, p, Element(1)).0 == b;
    ItemStep(a, o, 1, L, b);
    assert StrStep(b, q, Element(2)).0 == c;
    ItemStep(b, o, 2, L, c);
  }

  /** The SET method string, seen first, sets the method. */
  lemma SetMarkerStep()
    ensures StrStep(INITIAL, SET_VALUES, Element(0)).0 == Ctx(0, true, 0, Some(SET_VALUES), 0, 0)
  {
    AsciiNoNul("METHOD_SETPARAMETERVALUES");
    NoNulCStr(SET_VALUES);
    assert SET_VALUES[..|METHOD_PREFIX|] == METHOD_PREFIX;
  }

  /** Object 3 of the example: a count of 1, a string counted against it,
      and a count of 0. */
  lemma SecondCountArray(x: bytes)
    ensures Show(Ctx(3, true, 2, Some(SET_VALUES), 0, 0), Array([PosInt(1), Str(x), PosInt(0)]), 0, NoLabel, DEFAULT_DEPTH_LIMIT).0
      == Ctx(3, true, 2, Some(SET_VALUES), 0, 1)
  {
    var o := Array([PosInt(1), Str(x), PosInt(0)]);
    var L := DEFAULT_DEPTH_LIMIT;
    var c := Ctx(3, true, 2, Some(SET_VALUES), 0, 0);
    var e1 := Ctx(3, true, 2, Some(SET_VALUES), 1, 0);
    var e2 := Ctx(3, true, 2, Some(SET_VALUES), 1, 1);
    var e3 := Ctx(3, true, 2, Some(SET_VALUES), 0, 1);
    assert UIntStep(c, 1, Element(0)).0 == e1 by { assert U32(1) == 1; }
    ItemStep(c, o, 0, L, e1);
    assert StrStep(e1, x, Element(1)).0 == e2 by { assert U32(3) == 3; }
    ItemStep(e1, o, 1, L, e2);
    assert UIntStep(e2, 0, Element(2)).0 == e3 by { assert U32(0) == 0; }
    ItemStep(e2, o, 2, L, e3);
  }

  /** Showing element i of an array at depth 1 within the limit moves the
      element walk from c to d exactly when showing the element does. */
  lemma ItemStep(c: Ctx, v: Value, i: nat, limit: nat, d: Ctx)
    requires v.Array? && i < |v.items| && 1 <= limit
    requires match v.items[i]
      case PosInt(u) => UIntStep(c, u, Element(i)).0 == d
      case Str(s) => StrStep(c, s, Element(i)).0 == d
      case _ => false
    ensures ShowItems(c, v, i, 1, limit).0 == ShowItems(d, v, i + 1, 1, limit).0
    ensures i + 1 == |v.items| ==> ShowItems(c, v, i, 1, limit).0 == d
    ensures i == 0 ==> Show(c, v, 0, NoLabel, limit).0 == ShowItems(c, v, 0, 1, limit).0
  {
  }

  // ---- the depth limit ----

  function Max(a: nat, b: nat): nat
  {
    if a < b then b else a
  }

  /** How many container levels below v the display descends: 0 for a
      scalar or an empty container. */
  function Height(v: Value): nat
    decreases v, 1
  {
    match v
    case Array(items) => if items == [] then 0 else 1 + ItemsHeight(v, 0)
    case Map(pairs) => if pairs == [] then 0 else 1 + PairsHeight(v, 0)
    case _ => 0
  }

  function ItemsHeight(v: Value, i: nat): nat
    requires v.Array? && i <= |v.items|
    decreases v, 0, |v.items| - i
  {
    if i == |v.items| then 0 else Max(Height(v.items[i]), ItemsHeight(v, i + 1))
  }

  function PairsHeight(v: Value, i: nat): nat
    requires v.Map? && i <= |v.pairs|
    decreases v, 0, |v.pairs| - i
  {
    if i == |v.pairs| then 0
    else
      assert v.pairs[i] in v.pairs;
      Max(Max(Height(v.pairs[i].key), Height(v.pairs[i].val)), PairsHeight(v, i + 1))
  }

  /** The depth-limit note appears exactly when the value nests deeper
      than the limit allows, whatever the context. */
  lemma {:induction false} DepthNoteExactly(c: Ctx, v: Value, depth: nat, tag: Label, limit: nat)
    ensures DepthExceeded(limit) in Show(c, v, depth, tag, limit).1 <==> depth + Height(v) > limit
    decreases v, 1
  {
    if depth <= limit {
      match v
      case Array(items) =>
        ItemsDepthNote(c, v, 0, depth + 1, limit);
      case Map(pairs) =>
        PairsDepthNote(c, v, 0, depth + 1, limit);
      case _ =>
    }
  }

  lemma {:induction false} ItemsDepthNote(c: Ctx, v: Value, i: nat, depth: nat, limit: nat)
    requires v.Array? && i <= |v.items|
    ensures DepthExceeded(limit) in ShowItems(c, v, i, depth, limit).1 <==>
      i < |v.items| && depth + ItemsHeight(v, i) > limit
    decreases v, 0, |v.items| - i
  {
    if i < |v.items| {
      var r := Show(c, v.items[i], depth, Element(i), limit);
      DepthNoteExactly(c, v.items[i], depth, Element(i), limit);
      ItemsDepthNote(r.0, v, i + 1, depth, limit);
    }
  }

  lemma {:induction false} PairsDepthNote(c: Ctx, v: Value, i: nat, depth: nat, limit: nat)
    requires v.Map? && i <= |v.pairs|
    ensures DepthExceeded(limit) in ShowPairs(c, v, i, depth, limit).1 <==>
      i < |v.pairs| && depth + PairsHeight(v, i) > limit
    decreases v, 0, |v.pairs| - i
  {
    if i < |v.pairs| {
      var p := v.pairs[i];
      assert p in v.pairs;
      var k := Show(c, p.key, depth, Named(Key), limit);
      DepthNoteExactly(c, p.key, depth, Named(Key), limit);
      DepthNoteExactly(k.0, p.val, depth, KeyLabel(p.key, i), limit);
      PairsDepthNote(ShowPair(c, v, i, depth, limit).0, v, i + 1, depth, limit);
    }
  }

  /** Within the depth limit a scalar is one entry. A positive integer
      shows its type name exactly when it is an RBus type id, and its
      value otherwise. A string shows its C string, or "(empty)" in place
      of an empty one exactly when it is labelled. A blob keeps its label
      and shows a boolean exactly for one byte 0 or 1, its text exactly
      when it passes the text check otherwise, and its size otherwise. */
  lemma ScalarEntries(c: Ctx, v: Value, depth: nat, tag: Label, limit: nat)
    requires depth <= limit
    ensures v.PosInt? ==>
      var e := Show(c, v, depth, tag, limit).1;
      |e| == 1 && e[0].tag == UIntStep(c, v.u, tag).1 &&
      (e[0].TypeIdEntry? <==> TypeName(U32(v.u)).Some?) &&
      (e[0].TypeIdEntry? ==> e[0].id == U32(v.u) && TypeName(U32(v.u)) == Some(e[0].typeName)) &&
      (!e[0].TypeIdEntry? ==> e[0] == UIntEntry(e[0].tag, v.u))
    ensures v.Str? ==>
      var e := Show(c, v, depth, tag, limit).1;
      |e| == 1 && e[0].StrEntry? && e[0].tag == StrStep(c, v.s, tag).1 &&
      (CStr(v.s) != [] ==> e[0].text == CStr(v.s)) &&
      (CStr(v.s) == [] ==> (e[0].text == EMPTY_TEXT <==> e[0].tag != NoLabel))
    ensures v.Bin? ==>
      var e := Show(c, v, depth, tag, limit).1;
      |e| == 1 && e[0].tag == tag &&
      (e[0].BoolEntry? <==> |v.data| == 1 && v.data[0] <= 1) &&
      (e[0].BoolEntry? ==> (e[0].b <==> v.data[0] == 1)) &&
      (e[0].StrEntry? <==> !IsBoolBlob(v.data) && BlobIsText(v.data)) &&
      (e[0].StrEntry? ==> e[0].text == CStr(v.data)) &&
      (e[0].BinaryEntry? <==> !IsBoolBlob(v.data) && !BlobIsText(v.data)) &&
      (e[0].BinaryEntry? ==> e[0].size == |v.data|)
  {
    assert |EMPTY_TEXT| == 7;
  }

  /** A map value is labelled by its key: a string key's text, a positive
      integer key's number, else "Key i"; never left unlabelled, so an
      empty string value always shows "(empty)" after its key. */
  lemma MapValueLabels(c: Ctx, v: Value, i: nat, depth: nat, limit: nat)
    requires v.Map? && i < |v.pairs| && depth <= limit
    ensures KeyLabel(v.pairs[i].key, i) != NoLabel
    ensures v.pairs[i].key.Str? ==> KeyLabel(v.pairs[i].key, i) == KeyText(CStr(v.pairs[i].key.s))
    ensures v.pairs[i].key.PosInt? ==> KeyLabel(v.pairs[i].key, i) == KeyNumber(v.pairs[i].key.u)
    ensures !v.pairs[i].key.Str? && !v.pairs[i].key.PosInt? ==> KeyLabel(v.pairs[i].key, i) == KeyOrdinal(i)
    ensures var p := v.pairs[i];
      var k := Show(c, p.key, depth, Named(Key), limit).1;
      var r := ShowPair(c, v, i, depth, limit).1;
      p.val.Str? && CStr(p.val.s) == [] ==>
        |r| == |k| + 1 && r[..|k|] == k && r[|k|].StrEntry? && r[|k|].tag != NoLabel && r[|k|].text == EMPTY_TEXT
  {
    var p := v.pairs[i];
    assert p in v.pairs;
    var k := Show(c, p.key, depth, Named(Key), limit);
    var l := KeyLabel(p.key, i);
    if p.val.Str? && CStr(p.val.s) == [] {
      ScalarEntries(k.0, p.val, depth, l, limit);
      assert StrStep(k.0, p.val.s, l).1 != NoLabel;
      var w := Show(k.0, p.val, depth, l, limit);
      assert ShowPair(c, v, i, depth, limit).1 == k.1 + w.1;
    }
  }

  /** Beyond the limit nothing is shown and the context is untouched. */
  lemma PastLimitShowsNothing(c: Ctx, v: Value, depth: nat, tag: Label, limit: nat)
    requires depth > limit
    ensures Show(c, v, depth, tag, limit) == (c, [DepthExceeded(limit)])
  {
  }

  // ---- the context as the dissector updates it ----

  /** rbus_parse_context_t, updated in place while objects are shown. */
  class ParseContext {
    var objectIndex: nat
    var seenMethod: bool
    var metaFieldCount: nat
    var methodName: Option<bytes>
    var paramsCount: u32
    var paramsSeen: u32

    function State(): Ctx
      reads this
    {
      Ctx(objectIndex, seenMethod, metaFieldCount, methodName, paramsCount, paramsSeen)
    }

    constructor ()
      ensures State() == INITIAL
    {
      objectIndex, seenMethod, metaFieldCount, methodName, paramsCount, paramsSeen := 0, false, 0, None, 0, 0;
    }

    /** The positive-integer branch of display_msgpack_object. */
    method LabelUInt(u: u64, tag: Label) returns (l: Label)
      modifies this
      ensures (State(), l) == UIntStep(old(State()), u, tag)
    {
      l := tag;
      if methodName.Some? {
        var m := methodName.value;
        if m == SET_VALUES {
          if objectIndex == 0 {
            l := Named(SessionId);
          } else if objectIndex == 2 {
            l := Named(Rollback);
          } else if objectIndex == 3 {
            l := Named(ParameterCount);
            paramsCount := U32(u);
          } else if paramsCount > 0 && paramsSeen < U32(paramsCount * 3) {
            paramsSeen := paramsSeen + 1;
          } else if metaFieldCount >= 2 {
            l := Named(MetadataOffset);
          }
        } else if m == GET_VALUES {
          if objectIndex == 1 {
            l := Named(ParameterCount);
          } else if metaFieldCount >= 2 {
            l := Named(MetadataOffset);
          }
        } else if m == RESPONSE {
          if objectIndex == 0 {
            l := Named(ErrorCode);
          } else if objectIndex == 1 {
            l := Named(PropertyCount);
            paramsCount := U32(u);
          } else if paramsCount > 0 && paramsSeen < U32(paramsCount * 3) {
            paramsSeen := paramsSeen + 1;
          } else if metaFieldCount >= 2 {
            l := Named(MetadataOffset);
          }
        } else if metaFieldCount >= 2 {
          l := Named(MetadataOffset);
        }
      } else if !seenMethod && objectIndex == 0 {
        l := Named(SessionOrError);
      }
    }

    /** The string branch of display_msgpack_object. */
    method LabelStr(s: bytes, tag: Label) returns (l: Label)
      modifies this
      ensures (State(), l) == StrStep(old(State()), s, tag)
    {
      l := tag;
      var t := CStr(s);
      if !seenMethod && StartsWith(t, METHOD_PREFIX) {
        seenMethod, metaFieldCount, methodName := true, 0, Some(t);
        l := Named(Method);
      } else if seenMethod && metaFieldCount < 2 {
        l := if metaFieldCount == 0 then Named(OtParent) else Named(OtState);
        metaFieldCount := metaFieldCount + 1;
      } else if !seenMethod && paramsCount > 0 && paramsSeen >= U32(paramsCount * 3) {
        if t == COMMIT_TRUE || t == COMMIT_FALSE {
          l := Named(Commit);
        }
      } else if methodName.Some? {
        if methodName.value == SET_VALUES {
          if objectIndex == 1 {
            l := Named(ComponentName);
          } else if paramsCount > 0 && paramsSeen < U32(paramsCount * 3) {
            paramsSeen := paramsSeen + 1;
          }
        } else if methodName.value == GET_VALUES && objectIndex == 0 {
          l := Named(ComponentName);
        }
      } else if !seenMethod && paramsCount > 0 && paramsSeen < U32(paramsCount * 3) {
        paramsSeen := paramsSeen + 1;
      }
    }

    /** display_msgpack_object: shows v at this depth under tag. */
    method Display(v: Value, depth: nat, tag: Label, limit: nat) returns (out: seq<Entry>)
      modifies this
      ensures (State(), out) == Show(old(State()), v, depth, tag, limit)
      decreases v, 1
    {
      if depth > limit {
        return [DepthExceeded(limit)];
      }
      match v
      case Nil => out := [NilEntry(tag)];
      case Boolean(b) => out := [BoolEntry(tag, b)];
      case PosInt(u) =>
        var l := LabelUInt(u, tag);
        out := [UIntEntryOf(l, u)];
      case NegInt(i) => out := [IntEntry(tag, i)];
      case Float(f) => out := [FloatEntry(tag, f)];
      case Str(s) =>
        var l := LabelStr(s, tag);
        out := [StrEntry(l, StrText(l, CStr(s)))];
      case Bin(d) =>
        if !seenMethod && paramsCount > 0 && paramsSeen < U32(paramsCount * 3) {
          paramsSeen := paramsSeen + 1;
        }
        out := [BinEntryOf(tag, d)];
      case Array(items) =>
        var rest := DisplayItems(v, depth + 1, limit);
        out := [ArrayEntry(tag, |items|)] + rest;
      case Map(pairs) =>
        var rest := DisplayPairs(v, depth + 1, limit);
        out := [MapEntry(tag, |pairs|)] + rest;
      case Ext(_, _) => out := [RawEntry];
    }

    /** The element loop of the array branch. */
    method DisplayItems(v: Value, depth: nat, limit: nat) returns (out: seq<Entry>)
      requires v.Array?
      modifies this
      ensures (State(), out) == ShowItems(old(State()), v, 0, depth, limit)
      decreases v, 0
    {
      ghost var c0 := State();
      out := [];
      var i := 0;
      while i < |v.items|
        invariant i <= |v.items|
        invariant ShowItems(State(), v, i, depth, limit).0 == ShowItems(c0, v, 0, depth, limit).0
        invariant out + ShowItems(State(), v, i, depth, limit).1 == ShowItems(c0, v, 0, depth, limit).1
      {
        var e := Display(v.items[i], depth, Element(i), limit);
        AppendAssoc(out, e, ShowItems(State(), v, i + 1, depth, limit).1);
        out := out + e;
        i := i + 1;
      }
      assert ShowItems(State(), v, i, depth, limit) == (State(), []);
      assert out + [] == out;
    }

    /** One pass of the pair loop: the key, then the value. */
    method DisplayPair(v: Value, i: nat, depth: nat, limit: nat) returns (out: seq<Entry>)
      requires v.Map? && i < |v.pairs|
      modifies this
      ensures (State(), out) == ShowPair(old(State()), v, i, depth, limit)
      decreases v, 0, 0
    {
      var p := v.pairs[i];
      assert p in v.pairs;
      var ek := Display(p.key, depth, Named(Key), limit);
      var ev := Display(p.val, depth, KeyLabel(p.key, i), limit);
      out := ek + ev;
    }

    /** The pair loop of the map branch. */
    method DisplayPairs(v: Value, depth: nat, limit: nat) returns (out: seq<Entry>)
      requires v.Map?
      modifies this
      ensures (State(), out) == ShowPairs(old(State()), v, 0, depth, limit)
      decreases v, 0, 1
    {
      ghost var c0 := State();
      out := [];
      var i := 0;
      while i < |v.pairs|
        invariant i <= |v.pairs|
        invariant ShowPairs(State(), v, i, depth, limit).0 == ShowPairs(c0, v, 0, depth, limit).0
        invariant out + ShowPairs(State(), v, i, depth, limit).1 == ShowPairs(c0, v, 0, depth, limit).1
      {
        var e := DisplayPair(v, i, depth, limit);
        AppendAssoc(out, e, ShowPairs(State(), v, i + 1, depth, limit).1);
        out := out + e;
        i := i + 1;
      }
      assert ShowPairs(State(), v, i, depth, limit) == (State(), []);
      assert out + [] == out;
    }
  }
}
