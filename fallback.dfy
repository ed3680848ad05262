/** The generic MessagePack fallback: when the structured parse claims
    nothing, the payload is decoded object after object and each object is
    shown by the generic display, sharing one parse context, until the
    payload ends, decoding fails, or the object limit is reached. */
module Fallback {
  import opened Bytes
  import opened Values
  import opened Display
  import opened Dispatch

  /** The note that may close the loop: the undecodable rest as raw bytes,
      or the object-limit note with the number of bytes left. */
  datatype Note =
    | RawRemainder(size: nat)
    | ObjectLimitNote(limit: nat, remaining: nat)

  /** The text appended to the payload item. */
  datatype Summary = ObjectsFound(count: nat) | NotMessagePack

  /** The loop's outcome: each top-level object's display entries, the
      closing note if any, object_count, total_consumed and the final
      parse context. */
  datatype Walk = Walk(objects: seq<seq<Entry>>, note: Option<Note>, count: nat, consumed: nat, ctx: Ctx)

  /** The object limit checked after each object: the loop always shows at
      least one object before the check can stop it. */
  function Room(objectLimit: nat): nat
  {
    if objectLimit == 0 then 1 else objectLimit
  }

  /** The offset the collection stops at. */
  function CollectEnd(p: bytes, dec: Decoder, off: nat, room: nat): (e: nat)
    requires off <= |p|
    ensures off <= e <= |p|
    decreases |p| - off
  {
    if off == |p| || room == 0 then off
    else match DecodeAt(p, dec, off)
      case None => off
      case Some(d) => CollectEnd(p, dec, off + d.size, room - 1)
  }

  /** The generic fallback loop over a payload: the objects decoded one
      after another up to the object limit, shown sharing one context. */
  function Generic(p: bytes, dec: Decoder, depthLimit: nat, objectLimit: nat): Walk
  {
    var room := Room(objectLimit);
    var vs := Collect(p, dec, 0, room);
    Close(|p|, objectLimit, |vs|, CollectEnd(p, dec, 0, room), ShowObjects(INITIAL, vs, 0, depthLimit))
  }

  /** How the loop ends after n objects ending at offset end of a payload
      of the given length: the limit note if the limit stopped it, or the
      raw rest if decoding failed before the end, the failing attempt
      having already set object_index. */
  function Close(length: nat, objectLimit: nat, n: nat, end: nat, shown: (Ctx, seq<seq<Entry>>)): Walk
    requires end <= length
  {
    if n == Room(objectLimit) then
      Walk(shown.1, Some(ObjectLimitNote(objectLimit, length - end)), n, end, shown.0)
    else if end < length then
      Walk(shown.1, Some(RawRemainder(length - end)), n, end, shown.0.(objectIndex := n))
    else
      Walk(shown.1, None, n, end, shown.0)
  }

  /** " [N MessagePack objects]" when anything was consumed, else
      " [Not valid MessagePack]". */
  function Summarize(w: Walk): Summary
  {
    if w.consumed > 0 then ObjectsFound(w.count) else NotMessagePack
  }

  // ---- what the loop shows ----

  /** The collection moves past an object exactly when it decodes one. */
  lemma {:induction false} CollectEndMoves(p: bytes, dec: Decoder, off: nat, room: nat)
    requires off <= |p|
    ensures CollectEnd(p, dec, off, room) > off <==> Collect(p, dec, off, room) != []
    ensures Collect(p, dec, off, room) == [] ==> CollectEnd(p, dec, off, room) == off
    decreases |p| - off
  {
    if off < |p| && room > 0 && DecodeAt(p, dec, off).Some? {
      var d := DecodeAt(p, dec, off).value;
      CollectEndMoves(p, dec, off + d.size, room - 1);
    }
  }

  /** One object decoded at off: the collection and its end continue from
      the next offset with one place less. */
  lemma CollectAdvance(p: bytes, dec: Decoder, off: nat, room: nat)
    requires off < |p| && 0 < room && DecodeAt(p, dec, off).Some?
    ensures var d := DecodeAt(p, dec, off).value;
      Collect(p, dec, off, room) == [d.value] + Collect(p, dec, off + d.size, room - 1) &&
      CollectEnd(p, dec, off, room) == CollectEnd(p, dec, off + d.size, room - 1)
  {
  }

  /** Every payload byte is accounted for, the count stays within the
      limit, the limit note appears exactly when the count reaches it, and
      something was consumed exactly when an object was shown. */
  lemma GenericAccounts(p: bytes, dec: Decoder, depthLimit: nat, objectLimit: nat)
    ensures var w := Generic(p, dec, depthLimit, objectLimit);
      w.count <= Room(objectLimit) && w.count == |w.objects| &&
      (w.note == None ==> w.consumed == |p|) &&
      (w.note.Some? && w.note.value.RawRemainder? ==> w.consumed + w.note.value.size == |p| && 0 < w.note.value.size) &&
      (w.note.Some? && w.note.value.ObjectLimitNote? ==> w.consumed + w.note.value.remaining == |p|) &&
      (w.note.Some? && w.note.value.ObjectLimitNote? <==> w.count == Room(objectLimit)) &&
      (w.consumed > 0 <==> w.count > 0)
  {
    var room := Room(objectLimit);
    CollectEndMoves(p, dec, 0, room);
  }

  /** The context stays valid across the whole loop. */
  lemma GenericKeepsValid(p: bytes, dec: Decoder, depthLimit: nat, objectLimit: nat)
    ensures Valid(Generic(p, dec, depthLimit, objectLimit).ctx)
  {
    ObjectsKeepValid(INITIAL, Collect(p, dec, 0, Room(objectLimit)), 0, depthLimit);
  }

  // ---- the loop ----

  /** dissect_msgpack_value on the payload from off to its end. */
  method DissectValue(ctx: ParseContext, p: bytes, dec: Decoder, off: nat, depth: nat, tag: Label, limit: nat)
    returns (consumed: nat, out: seq<Entry>)
    requires off <= |p|
    modifies ctx
    ensures depth > limit ==> consumed == 0 && out == [DepthExceeded(limit)] && ctx.State() == old(ctx.State())
    ensures depth <= limit && (off == |p| || DecodeAt(p, dec, off).None?) ==>
      consumed == 0 && out == [] && ctx.State() == old(ctx.State())
    ensures depth <= limit && off < |p| && DecodeAt(p, dec, off).Some? ==>
      consumed == DecodeAt(p, dec, off).value.size &&
      (ctx.State(), out) == Show(old(ctx.State()), DecodeAt(p, dec, off).value.value, depth, tag, limit)
  {
    if depth > limit {
      return 0, [DepthExceeded(limit)];
    }
    if |p| - off < 1 {
      return 0, [];
    }
    var r := DecodeAt(p, dec, off);
    if r.None? {
      return 0, [];
    }
    out := ctx.Display(r.value.value, depth, tag, limit);
    consumed := r.value.size;
  }

  /** One pass of the loop body: dissect_msgpack_value on the next
      top-level object, at depth 0 without a label, after the loop has set
      object_index. It either fails where the collection the loop follows
      stops, leaving the context alone, or consumes that collection's next
      object and shows it as the next top-level object. */
  method TopObject(ctx: ParseContext, p: bytes, dec: Decoder, off: nat, count: nat, depthLimit: nat,
                   ghost room: nat, ghost stored: seq<Value>, ghost objects: seq<seq<Entry>>)
    returns (used: nat, entries: seq<Entry>, ghost v: Value)
    requires off < |p| && count < room && |stored| == count
    requires stored + Collect(p, dec, off, room - count) == Collect(p, dec, 0, room)
    requires CollectEnd(p, dec, off, room - count) == CollectEnd(p, dec, 0, room)
    requires var shown := ShowObjects(INITIAL, stored, 0, depthLimit);
      ctx.State() == shown.0.(objectIndex := count) && objects == shown.1
    modifies ctx
    ensures used == 0 ==> stored == Collect(p, dec, 0, room) && off == CollectEnd(p, dec, 0, room)
    ensures used == 0 ==> ctx.State() == old(ctx.State())
    ensures used > 0 ==> off + used <= |p|
    ensures used > 0 ==> (stored + [v]) + Collect(p, dec, off + used, room - (count + 1)) == Collect(p, dec, 0, room)
    ensures used > 0 ==> CollectEnd(p, dec, off + used, room - (count + 1)) == CollectEnd(p, dec, 0, room)
    ensures used > 0 ==> (ctx.State(), objects + [entries]) == ShowObjects(INITIAL, stored + [v], 0, depthLimit)
  {
    used, entries := DissectValue(ctx, p, dec, off, 0, NoLabel, depthLimit);
    if used == 0 {
      v := Nil;
      assert stored + [] == stored;
    } else {
      v := DecodeAt(p, dec, off).value.value;
      CollectAdvance(p, dec, off, room - count);
      AppendAssoc(stored, [v], Collect(p, dec, off + used, room - count - 1));
      ShowObjectsSnoc(INITIAL, stored, v, 0, depthLimit);
    }
  }

  /** The loop ends at the end of the payload below the object limit. */
  lemma EndExit(p: bytes, dec: Decoder, depthLimit: nat, objectLimit: nat, stored: seq<Value>, k: nat,
                c: Ctx, objects: seq<seq<Entry>>)
    requires |stored| < Room(objectLimit)
    requires stored + Collect(p, dec, |p|, k) == Collect(p, dec, 0, Room(objectLimit))
    requires CollectEnd(p, dec, |p|, k) == CollectEnd(p, dec, 0, Room(objectLimit))
    requires (c, objects) == ShowObjects(INITIAL, stored, 0, depthLimit)
    ensures Generic(p, dec, depthLimit, objectLimit) == Walk(objects, None, |stored|, |p|, c)
  {
    assert stored + [] == stored;
  }

  /** The loop ends at a decoding failure before the end. */
  lemma RawExit(p: bytes, dec: Decoder, depthLimit: nat, objectLimit: nat, stored: seq<Value>, off: nat,
                c: Ctx, objects: seq<seq<Entry>>)
    requires off < |p| && |stored| < Room(objectLimit)
    requires stored == Collect(p, dec, 0, Room(objectLimit)) && off == CollectEnd(p, dec, 0, Room(objectLimit))
    requires (c, objects) == ShowObjects(INITIAL, stored, 0, depthLimit)
    ensures Generic(p, dec, depthLimit, objectLimit) ==
      Walk(objects, Some(RawRemainder(|p| - off)), |stored|, off, c.(objectIndex := |stored|))
  {
    ClosingRaw(|p|, objectLimit, |stored|, off, (c, objects));
  }

  /** Stopping below the limit before the end leaves the raw rest. */
  lemma ClosingRaw(length: nat, objectLimit: nat, n: nat, end: nat, shown: (Ctx, seq<seq<Entry>>))
    requires end < length && n < Room(objectLimit)
    ensures Close(length, objectLimit, n, end, shown) ==
      Walk(shown.1, Some(RawRemainder(length - end)), n, end, shown.0.(objectIndex := n))
  {
  }

  /** The loop ends when the object count reaches the limit. */
  lemma LimitExit(p: bytes, dec: Decoder, depthLimit: nat, objectLimit: nat, stored: seq<Value>, off: nat,
                  c: Ctx, objects: seq<seq<Entry>>)
    requires off <= |p| && |stored| == Room(objectLimit)
    requires stored + Collect(p, dec, off, 0) == Collect(p, dec, 0, Room(objectLimit))
    requires CollectEnd(p, dec, off, 0) == CollectEnd(p, dec, 0, Room(objectLimit))
    requires (c, objects) == ShowObjects(INITIAL, stored, 0, depthLimit)
    ensures Generic(p, dec, depthLimit, objectLimit) ==
      Walk(objects, Some(ObjectLimitNote(objectLimit, |p| - off)), |stored|, off, c)
  {
    assert stored + [] == stored;
  }

  /** The fallback loop, with the final parse context returned as a value. */
  method DecodeGeneric(p: bytes, dec: Decoder, depthLimit: nat, objectLimit: nat)
    returns (objects: seq<seq<Entry>>, note: Option<Note>, count: nat, consumed: nat, state: Ctx, summary: Summary)
    ensures Walk(objects, note, count, consumed, state) == Generic(p, dec, depthLimit, objectLimit)
    ensures summary == Summarize(Generic(p, dec, depthLimit, objectLimit))
  {
    var ctx := new ParseContext();
    ghost var room := Room(objectLimit);
    ghost var stored: seq<Value> := [];
    objects, note, count, consumed := [], None, 0, 0;
    var off := 0;
    while off < |p|
      invariant off <= |p| && count < room && |stored| == count && consumed == off
      invariant stored + Collect(p, dec, off, room - count) == Collect(p, dec, 0, room)
      invariant CollectEnd(p, dec, off, room - count) == CollectEnd(p, dec, 0, room)
      invariant (ctx.State(), objects) == ShowObjects(INITIAL, stored, 0, depthLimit)
      decreases |p| - off
    {
      ghost var before := ctx.State();
      ctx.objectIndex := count;
      var used, entries, v := TopObject(ctx, p, dec, off, count, depthLimit, room, stored, objects);
      if used == 0 {
        note := Some(RawRemainder(|p| - off));
        RawExit(p, dec, depthLimit, objectLimit, stored, off, before, objects);
        state := ctx.State();
        summary := if consumed > 0 then ObjectsFound(count) else NotMessagePack;
        return;
      }
      stored := stored + [v];
      objects := objects + [entries];
      consumed := consumed + used;
      off, count := off + used, count + 1;
      if count >= objectLimit {
        note := Some(ObjectLimitNote(objectLimit, |p| - off));
        LimitExit(p, dec, depthLimit, objectLimit, stored, off, ctx.State(), objects);
        state := ctx.State();
        summary := if consumed > 0 then ObjectsFound(count) else NotMessagePack;
        return;
      }
    }
    EndExit(p, dec, depthLimit, objectLimit, stored, room - count, ctx.State(), objects);
    state := ctx.State();
    summary := if consumed > 0 then ObjectsFound(count) else NotMessagePack;
  }
}
