/** The positional event-publication layout the structured parser falls back
    to when the payload holds no "METHOD_" string: event name, type, the
    has-event-data and has-filter flags with their placeholder objects, the
    property triplets, then interval, duration and component id. */
module Event {
  import opened Bytes
  import opened Values
  import opened Render
  import opened Fields
  import opened Layout

  /** Interval, duration and component id, each optional, bounded by the
      number of values rather than by a marker index. */
  const TAIL_SLOTS: seq<Slot> := [Slot(Interval, UIntSlot), Slot(Duration, UIntSlot), Slot(ComponentId, Int32Slot)]

  /** The property for the triplet at idx: emitted only when the name is a
      string; the type defaults to 0 when it is not a positive integer. */
  function EventProperty(vals: seq<Value>, idx: nat): (r: seq<Field>)
    requires idx + 2 < |vals|
    ensures |r| == 1 <==> vals[idx].Str?
    ensures |r| <= 1
  {
    if vals[idx].Str? then
      var name := CStr(vals[idx].s);
      var typeId: u32 := if vals[idx + 1].PosInt? then U32(vals[idx + 1].u) else 0;
      var value := TypedValue(vals[idx + 2]);
      [ObjectProperty(name, typeId, value, NameValue(name, value.shown))]
    else []
  }

  /** "for (p = 0; p < count && idx + 2 < n; p++)": the properties emitted
      and the index after the loop. */
  function EventProps(vals: seq<Value>, idx: nat, count: nat): (r: (seq<Field>, nat))
    requires idx <= |vals|
    ensures idx <= r.1 <= |vals|
    ensures |r.0| <= count
    decreases count
  {
    if count == 0 || idx + 2 >= |vals| then ([], idx)
    else
      var rest := EventProps(vals, idx + 3, count - 1);
      (EventProperty(vals, idx) + rest.0, rest.1)
  }

  /** Everything up to the property data: the event name, the optional
      event type, the has-event-data flag with its placeholder, the
      has-filter flag with its filter object. Returns the fields, the index
      reached and the has-event-data flag. */
  function EventHead(vals: seq<Value>): (r: (seq<Field>, nat, bool))
    requires |vals| >= 1 && vals[0].Str?
    ensures 1 <= r.1 <= |vals|
  {
    var n := |vals|;
    var f0 := [StrField(EventName, CStr(vals[0].s))];
    var typed := 1 < n && vals[1].PosInt?;
    var f1 := if typed then [UIntField(EventType, U32(vals[1].u))] else [];
    var i1 := if typed then 2 else 1;
    var flagged := i1 < n && vals[i1].PosInt?;
    var hed := flagged && vals[i1].u != 0;
    var f2 := if flagged then [BoolField(HasEventData, hed)] else [];
    var i2 := if flagged then i1 + 1 else i1;
    var i3 := if hed && i2 < n then i2 + 1 else i2;
    var filtered := i3 < n && vals[i3].PosInt?;
    var hf := filtered && vals[i3].u != 0;
    var f3 := if filtered then [BoolField(HasFilter, hf)] else [];
    var i4 := if filtered then i3 + 1 else i3;
    var i5 := if hf && i4 < n then i4 + 1 else i4;
    (f0 + f1 + f2 + f3, i5, hed)
  }

  /** The event-data block: an optional count, the event-data subtree
      announcing it, and the property loop. */
  function EventData(vals: seq<Value>, idx: nat): (r: (seq<Field>, nat))
    requires idx < |vals|
    ensures idx <= r.1 <= |vals|
  {
    var counted := vals[idx].PosInt?;
    var count: u32 := if counted then U32(vals[idx].u) else 0;
    var start := if counted then idx + 1 else idx;
    var props := EventProps(vals, start, count);
    ([EventDataTree(count)] + props.0, props.1)
  }

  /** The whole layout. */
  function EventFields(vals: seq<Value>): seq<Field>
    requires |vals| >= 1 && vals[0].Str?
  {
    var head := EventHead(vals);
    var data := if head.2 && head.1 < |vals| then EventData(vals, head.1) else ([], head.1);
    head.0 + data.0 + SlotWalk(vals, |vals|, data.1, TAIL_SLOTS).0
  }

  // ---- properties ----

  /** The property loop visits min(count, (n - idx) / 3) triplets: it
      stops at the count or once idx + 2 reaches the end. */
  lemma {:induction false} EventPropsVisits(vals: seq<Value>, idx: nat, count: nat)
    requires idx <= |vals|
    ensures EventProps(vals, idx, count).1 ==
      idx + 3 * (if count < (|vals| - idx) / 3 then count else (|vals| - idx) / 3)
    decreases count
  {
    if count != 0 && idx + 2 < |vals| {
      EventPropsVisits(vals, idx + 3, count - 1);
      assert (|vals| - idx) / 3 == (|vals| - (idx + 3)) / 3 + 1;
    }
  }

  /** It emits one property per visited triplet whose name is a string; so
      when every name is a string it emits one per visited triplet. */
  lemma {:induction false} EventPropsAllNamed(vals: seq<Value>, idx: nat, count: nat)
    requires idx <= |vals|
    requires forall j :: idx <= j < |vals| ==> vals[j].Str?
    ensures 3 * |EventProps(vals, idx, count).0| == EventProps(vals, idx, count).1 - idx
    decreases count
  {
    if count != 0 && idx + 2 < |vals| {
      EventPropsAllNamed(vals, idx + 3, count - 1);
    }
  }

  /** Each emitted property is an object property whose name is the C
      string of a string value at a visited index idx + 3i, whose type
      comes from the next index and whose value is the rendering of the one
      after. */
  lemma EventPropsShape(vals: seq<Value>, idx: nat, count: nat, k: nat)
    requires idx <= |vals| && k < |EventProps(vals, idx, count).0|
    ensures exists i: nat :: (idx + 3 * i + 2 < |vals| && vals[idx + 3 * i].Str? &&
      EventProps(vals, idx, count).0[k] == EventProperty(vals, idx + 3 * i)[0])
  {
    var i := EventPropsSource(vals, idx, count, k);
  }

  /** The triplet number i the k-th emitted property comes from. */
  lemma {:induction false} EventPropsSource(vals: seq<Value>, idx: nat, count: nat, k: nat) returns (i: nat)
    requires idx <= |vals| && k < |EventProps(vals, idx, count).0|
    ensures idx + 3 * i + 2 < |vals| && vals[idx + 3 * i].Str?
    ensures EventProps(vals, idx, count).0[k] == EventProperty(vals, idx + 3 * i)[0]
    decreases count
  {
    assert count != 0 && idx + 2 < |vals|;
    var rest := EventProps(vals, idx + 3, count - 1);
    var here := EventProperty(vals, idx);
    assert EventProps(vals, idx, count).0 == here + rest.0;
    if k < |here| {
      i := 0;
    } else {
      var j := EventPropsSource(vals, idx + 3, count - 1, k - |here|);
      i := j + 1;
      assert idx + 3 * i == idx + 3 + 3 * j;
    }
  }

  /** The event name always comes first, and the has-event-data flag is
      true exactly when a positive integer at the flag position is non-zero. */
  lemma EventStartsWithName(vals: seq<Value>)
    requires |vals| >= 1 && vals[0].Str?
    ensures EventFields(vals)[0] == StrField(EventName, CStr(vals[0].s))
    ensures var i := if 1 < |vals| && vals[1].PosInt? then 2 else 1;
      EventHead(vals).2 <==> i < |vals| && vals[i].PosInt? && vals[i].u != 0
  {
  }

  /** Without the has-event-data flag no event-data subtree is emitted. */
  lemma NoDataWithoutFlag(vals: seq<Value>)
    requires |vals| >= 1 && vals[0].Str? && !EventHead(vals).2
    ensures forall f :: f in EventFields(vals) ==> !f.EventDataTree? && !f.ObjectProperty?
  {
    var head := EventHead(vals);
    var tail := SlotWalk(vals, |vals|, head.1, TAIL_SLOTS).0;
    assert EventFields(vals) == head.0 + tail;
    HeadKinds(vals);
    SlotWalkKinds(vals, |vals|, head.1, TAIL_SLOTS);
  }

  /** The head holds the name, type and flag fields only. */
  lemma HeadKinds(vals: seq<Value>)
    requires |vals| >= 1 && vals[0].Str?
    ensures forall f :: f in EventHead(vals).0 ==> f.StrField? || f.UIntField? || f.BoolField?
  {
  }

  // ---- the imperative walk ----

  /** One pass of the property loop: name, type, then the property when
      the name was a string. */
  method ReadEventProperty(vals: seq<Value>, start: nat) returns (emitted: seq<Field>, idx: nat)
    requires start + 2 < |vals|
    ensures emitted == EventProperty(vals, start) && idx == start + 3
  {
    idx := start;
    var name: Option<bytes> := None;
    if vals[idx].Str? {
      name := Some(CStr(vals[idx].s));
    }
    idx := idx + 1;
    var typeId: u32 := 0;
    if idx < |vals| && vals[idx].PosInt? {
      typeId := U32(vals[idx].u);
    }
    idx := idx + 1;
    emitted := [];
    if idx < |vals| && name.Some? {
      var value := TypedValue(vals[idx]);
      emitted := [ObjectProperty(name.value, typeId, value, NameValue(name.value, value.shown))];
    }
    idx := idx + 1;
  }

  /** The property loop. */
  method WalkEventProps(vals: seq<Value>, start: nat, count: u32) returns (out: seq<Field>, idx: nat)
    requires start <= |vals|
    ensures (out, idx) == EventProps(vals, start, count)
  {
    out, idx := [], start;
    var p: nat := 0;
    while p < count && idx + 2 < |vals|
      invariant p <= count && start <= idx <= |vals|
      invariant out + EventProps(vals, idx, count - p).0 == EventProps(vals, start, count).0
      invariant EventProps(vals, idx, count - p).1 == EventProps(vals, start, count).1
    {
      var emitted;
      emitted, idx := ReadEventProperty(vals, idx);
      AppendAssoc(out, emitted, EventProps(vals, idx, count - p - 1).0);
      out := out + emitted;
      p := p + 1;
    }
    assert EventProps(vals, idx, count - p) == ([], idx);
    assert out == EventProps(vals, start, count).0;
    assert idx == EventProps(vals, start, count).1;
  }

  /** The fields before the property data, the index reached and the
      has-event-data flag. */
  method WalkEventHead(vals: seq<Value>) returns (out: seq<Field>, idx: nat, hasEventData: bool)
    requires |vals| >= 1 && vals[0].Str?
    ensures out == EventHead(vals).0 && idx == EventHead(vals).1 && hasEventData == EventHead(vals).2
  {
    var n := |vals|;
    idx := 0;
    out := [StrField(EventName, CStr(vals[idx].s))];
    idx := idx + 1;
    if idx < n && vals[idx].PosInt? {
      out := out + [UIntField(EventType, U32(vals[idx].u))];
      idx := idx + 1;
    }
    hasEventData := false;
    if idx < n && vals[idx].PosInt? {
      hasEventData := vals[idx].u != 0;
      out := out + [BoolField(HasEventData, hasEventData)];
      idx := idx + 1;
    }
    if hasEventData && idx < n {
      idx := idx + 1;
    }
    if idx < n && vals[idx].PosInt? {
      var hasFilter := vals[idx].u != 0;
      out := out + [BoolField(HasFilter, hasFilter)];
      idx := idx + 1;
      if hasFilter && idx < n {
        idx := idx + 1;
      }
    }
  }

  /** The event-data block. */
  method WalkEventData(vals: seq<Value>, start: nat) returns (out: seq<Field>, idx: nat)
    requires start < |vals|
    ensures (out, idx) == EventData(vals, start)
  {
    idx := start;
    var count: u32 := 0;
    if vals[idx].PosInt? {
      count := U32(vals[idx].u);
      idx := idx + 1;
    }
    var props;
    props, idx := WalkEventProps(vals, idx, count);
    out := [EventDataTree(count)] + props;
  }

  /** The event-publication branch of the structured parser. */
  method EventPublication(vals: seq<Value>) returns (out: seq<Field>)
    requires |vals| >= 1 && vals[0].Str?
    ensures out == EventFields(vals)
  {
    var idx, hasEventData;
    out, idx, hasEventData := WalkEventHead(vals);
    if hasEventData && idx < |vals| {
      var data;
      data, idx := WalkEventData(vals, idx);
      out := out + data;
    }
    var tail;
    tail, idx := WalkSlots(vals, |vals|, idx, TAIL_SLOTS);
    out := out + tail;
  }
}
