/** The index walks shared by the per-verb layouts: a run of optional typed
    slots, a scan over a range of values, the name/type/value triplet loop,
    and the RESPONSE property-count search. */
module Layout {
  import opened Bytes
  import opened Values
  import opened Render
  import opened Fields

  // ---- optional slots ----

  /** What a slot accepts and how it is shown: a string, a positive integer
      shown as guint32, or a positive integer shown as gint32. */
  datatype SlotKind = StrSlot | UIntSlot | Int32Slot
  datatype Slot = Slot(id: FieldId, kind: SlotKind)

  predicate Fits(v: Value, k: SlotKind)
  {
    if k.StrSlot? then v.Str? else v.PosInt?
  }

  function SlotField(v: Value, s: Slot): Field
    requires Fits(v, s.kind)
  {
    match s.kind
    case StrSlot => StrField(s.id, CStr(v.s))
    case UIntSlot => UIntField(s.id, U32(v.u))
    case Int32Slot => IntField(s.id, I32(v.u))
  }

  /** Each slot in turn: when the value at idx (below bound) has the slot's
      type, emit its field and advance idx; otherwise skip the slot and
      leave idx where it is. Returns the fields and the final idx. */
  function SlotWalk(vals: seq<Value>, bound: nat, idx: nat, slots: seq<Slot>): (r: (seq<Field>, nat))
    requires idx <= bound <= |vals|
    ensures idx <= r.1 <= bound
    ensures |r.0| == r.1 - idx <= |slots|
    decreases |slots|
  {
    if slots == [] then ([], idx)
    else if idx < bound && Fits(vals[idx], slots[0].kind) then
      var rest := SlotWalk(vals, bound, idx + 1, slots[1..]);
      ([SlotField(vals[idx], slots[0])] + rest.0, rest.1)
    else SlotWalk(vals, bound, idx, slots[1..])
  }

  /** Every field a slot walk emits is the field of the value at the index
      it consumed, shown through the slot that accepted it. */
  lemma {:induction false} SlotWalkFields(vals: seq<Value>, bound: nat, idx: nat, slots: seq<Slot>, k: nat)
    requires idx <= bound <= |vals|
    requires k < |SlotWalk(vals, bound, idx, slots).0|
    ensures exists s :: (s in slots && Fits(vals[idx + k], s.kind) &&
      SlotWalk(vals, bound, idx, slots).0[k] == SlotField(vals[idx + k], s))
    decreases |slots|
  {
    if idx < bound && Fits(vals[idx], slots[0].kind) {
      if k > 0 {
        SlotWalkFields(vals, bound, idx + 1, slots[1..], k - 1);
        var s :| s in slots[1..] && Fits(vals[idx + k], s.kind) &&
          SlotWalk(vals, bound, idx + 1, slots[1..]).0[k - 1] == SlotField(vals[idx + k], s);
        assert s in slots;
      } else {
        assert slots[0] in slots;
      }
    } else {
      SlotWalkFields(vals, bound, idx, slots[1..], k);
      var s :| s in slots[1..] && Fits(vals[idx + k], s.kind) &&
        SlotWalk(vals, bound, idx, slots[1..]).0[k] == SlotField(vals[idx + k], s);
      assert s in slots;
    }
  }

  /** A slot walk emits plain string and integer fields only. */
  lemma {:induction false} SlotWalkKinds(vals: seq<Value>, bound: nat, idx: nat, slots: seq<Slot>)
    requires idx <= bound <= |vals|
    ensures forall f :: f in SlotWalk(vals, bound, idx, slots).0 ==> f.StrField? || f.UIntField? || f.IntField?
    decreases |slots|
  {
    if slots != [] {
      if idx < bound && Fits(vals[idx], slots[0].kind) {
        SlotWalkKinds(vals, bound, idx + 1, slots[1..]);
      } else {
        SlotWalkKinds(vals, bound, idx, slots[1..]);
      }
    }
  }

  /** A slot walk reads nothing at or beyond its bound. */
  lemma {:induction false} SlotWalkFrame(vals: seq<Value>, other: seq<Value>, bound: nat, idx: nat, slots: seq<Slot>)
    requires bound <= |vals| && bound <= |other| && idx <= bound
    requires vals[..bound] == other[..bound]
    ensures SlotWalk(vals, bound, idx, slots) == SlotWalk(other, bound, idx, slots)
    decreases |slots|
  {
    if slots != [] {
      if idx < bound {
        assert vals[idx] == vals[..bound][idx] && other[idx] == other[..bound][idx];
        SlotWalkFrame(vals, other, bound, idx + 1, slots[1..]);
      }
      SlotWalkFrame(vals, other, bound, idx, slots[1..]);
    }
  }

  /** The straight-line "if (idx < M && type matches) { add; idx++; }"
      sequences of the verb layouts, driven by a slot table. */
  method WalkSlots(vals: seq<Value>, bound: nat, start: nat, slots: seq<Slot>)
    returns (out: seq<Field>, idx: nat)
    requires start <= bound <= |vals|
    ensures (out, idx) == SlotWalk(vals, bound, start, slots)
  {
    out, idx := [], start;
    var k := 0;
    assert slots[0..] == slots;
    while k < |slots|
      invariant 0 <= k <= |slots| && start <= idx <= bound
      invariant out + SlotWalk(vals, bound, idx, slots[k..]).0 == SlotWalk(vals, bound, start, slots).0
      invariant SlotWalk(vals, bound, idx, slots[k..]).1 == SlotWalk(vals, bound, start, slots).1
    {
      assert slots[k..][1..] == slots[k + 1..];
      if idx < bound && Fits(vals[idx], slots[k].kind) {
        out := out + [SlotField(vals[idx], slots[k])];
        idx := idx + 1;
      }
      k := k + 1;
    }
    assert slots[k..] == [];
    assert SlotWalk(vals, bound, idx, slots[k..]) == ([], idx);
    assert out == SlotWalk(vals, bound, start, slots).0;
    assert idx == SlotWalk(vals, bound, start, slots).1;
  }

  // ---- scans over a range ----

  /** The fields a scan emits: for each value, whatever pick makes of it. */
  function Picks(vs: seq<Value>, pick: Value -> Option<Field>): (r: seq<Field>)
    ensures |r| <= |vs|
  {
    if vs == [] then []
    else PickOne(vs[0], pick) + Picks(vs[1..], pick)
  }

  function PickOne(v: Value, pick: Value -> Option<Field>): (r: seq<Field>)
    ensures |r| <= 1
  {
    match pick(v) case Some(f) => [f] case None => []
  }

  lemma {:induction false} PicksAppend(a: seq<Value>, b: seq<Value>, pick: Value -> Option<Field>)
    ensures Picks(a + b, pick) == Picks(a, pick) + Picks(b, pick)
  {
    if a != [] {
      assert (a + b)[0] == a[0];
      assert (a + b)[1..] == a[1..] + b;
      PicksAppend(a[1..], b, pick);
      calc {
        Picks(a + b, pick);
        PickOne(a[0], pick) + Picks(a[1..] + b, pick);
        PickOne(a[0], pick) + (Picks(a[1..], pick) + Picks(b, pick));
        (PickOne(a[0], pick) + Picks(a[1..], pick)) + Picks(b, pick);
      }
    } else {
      assert a + b == b;
    }
  }

  /** A scan emits exactly what pick makes of the scanned values: a field
      is in the result iff pick turns some scanned value into it. */
  lemma {:induction false} PicksMembers(vs: seq<Value>, pick: Value -> Option<Field>, f: Field)
    ensures f in Picks(vs, pick) <==> exists i :: 0 <= i < |vs| && pick(vs[i]) == Some(f)
  {
    if vs != [] {
      PicksMembers(vs[1..], pick, f);
      if f in Picks(vs[1..], pick) {
        var i :| 0 <= i < |vs[1..]| && pick(vs[1..][i]) == Some(f);
        assert pick(vs[i + 1]) == Some(f);
      }
      if exists i :: 0 <= i < |vs| && pick(vs[i]) == Some(f) {
        var i :| 0 <= i < |vs| && pick(vs[i]) == Some(f);
        if i > 0 {
          assert vs[1..][i - 1] == vs[i];
        }
      }
    }
  }

  /** A scan of the values from lo up to hi emits f exactly when the pick
      makes f of one of them. */
  lemma PicksRange(vals: seq<Value>, lo: nat, hi: nat, pick: Value -> Option<Field>, f: Field)
    requires lo <= hi <= |vals|
    ensures f in Picks(vals[lo..hi], pick) <==> exists i :: lo <= i < hi && pick(vals[i]) == Some(f)
  {
    var vs := vals[lo..hi];
    PicksMembers(vs, pick, f);
    if exists i :: 0 <= i < |vs| && pick(vs[i]) == Some(f) {
      var i :| 0 <= i < |vs| && pick(vs[i]) == Some(f);
      assert vs[i] == vals[lo + i];
    }
    if exists i :: lo <= i < hi && pick(vals[i]) == Some(f) {
      var i :| lo <= i < hi && pick(vals[i]) == Some(f);
      assert vs[i - lo] == vals[i];
    }
  }

  /** A string becomes a parameter name (GET parameter names). */
  function NamePick(v: Value): Option<Field>
  {
    if v.Str? then Some(StrField(ParameterName, CStr(v.s))) else None
  }

  /** A string becomes a parameter name, a positive integer a parameter
      count (attribute requests, table-row alias or index). */
  function AttrPick(v: Value): Option<Field>
  {
    if v.Str? then Some(StrField(ParameterName, CStr(v.s)))
    else if v.PosInt? then Some(UIntField(ParamCount, U32(v.u)))
    else None
  }

  /** A string becomes a component name (direct connections). */
  function DirectPick(v: Value): Option<Field>
  {
    if v.Str? then Some(StrField(ComponentName, CStr(v.s))) else None
  }

  /** Extending the scanned range by one value adds what pick makes of it. */
  lemma PicksSnoc(vs: seq<Value>, v: Value, pick: Value -> Option<Field>)
    ensures Picks(vs + [v], pick) == Picks(vs, pick) + PickOne(v, pick)
  {
    PicksAppend(vs, [v], pick);
    assert [v][1..] == [];
    assert Picks([v], pick) == PickOne(v, pick) + Picks([], pick);
  }

  /** The loops "for (i = lo; i < hi; i++) if (type matches) add". */
  method ScanRange(vals: seq<Value>, lo: nat, hi: nat, pick: Value -> Option<Field>)
    returns (out: seq<Field>)
    requires lo <= hi <= |vals|
    ensures out == Picks(vals[lo..hi], pick)
    ensures |out| <= hi - lo
  {
    out := [];
    var i := lo;
    while i < hi
      invariant lo <= i <= hi
      invariant out == Picks(vals[lo..i], pick)
    {
      assert vals[lo..i + 1] == vals[lo..i] + [vals[i]];
      PicksSnoc(vals[lo..i], vals[i], pick);
      match pick(vals[i]) {
        case Some(f) => out := out + [f];
        case None =>
      }
      i := i + 1;
    }
  }

  // ---- name/type/value triplets ----

  /** One parameter or property: name at idx, type at idx+1, value at idx+2
      rendered only when idx+2 is still before the marker index m. */
  function MakeTriplet(vals: seq<Value>, m: nat, idx: nat, role: Role): (f: Field)
    requires idx + 2 <= m <= |vals|
    ensures f.Triplet? && f.role == role
  {
    var name := if vals[idx].Str? then Some(CStr(vals[idx].s)) else None;
    var typeId := if vals[idx + 1].PosInt? then Some(U32(vals[idx + 1].u)) else None;
    var value := if idx + 2 < m then Some(TypedValue(vals[idx + 2])) else None;
    var nv := if name.Some? && value.Some? then Some(NameValue(name.value, value.value.shown)) else None;
    Triplet(role, name, typeId, value, nv)
  }

  /** The name field is there exactly for a string name, the type for an
      integer type, the value exactly when idx + 2 is before m, and the
      name=value field exactly when both name and value are. */
  lemma MakeTripletShape(vals: seq<Value>, m: nat, idx: nat, role: Role, f: Field)
    requires idx + 2 <= m <= |vals| && f == MakeTriplet(vals, m, idx, role)
    ensures f.name.Some? <==> vals[idx].Str?
    ensures f.typeId.Some? <==> vals[idx + 1].PosInt?
    ensures f.value.Some? <==> idx + 2 < m
    ensures f.value.Some? ==> f.value.value == TypedValue(vals[idx + 2])
    ensures f.nameValue.Some? <==> vals[idx].Str? && idx + 2 < m
    ensures f.nameValue.Some? ==>
      f.nameValue.value == NameValue(CStr(vals[idx].s), TypedValue(vals[idx + 2]).shown)
  {
  }

  /** "for (p = 0; p < count && idx + 2 <= m; p++)": the triplets emitted
      and the index after them. */
  function TripletWalk(vals: seq<Value>, m: nat, idx: nat, count: nat, role: Role): (r: (seq<Field>, nat))
    requires m <= |vals| && idx <= m + 1
    ensures |r.0| <= count
    ensures idx <= r.1 <= m + 1
    decreases count
  {
    if count == 0 || idx + 2 > m then ([], idx)
    else
      var rest := TripletWalk(vals, m, idx + 3, count - 1, role);
      ([MakeTriplet(vals, m, idx, role)] + rest.0, rest.1)
  }

  /** The loop emits exactly min(count, (m + 1 - idx) / 3) triplets: it stops
      at the count or once idx + 2 passes the marker. */
  lemma {:induction false} TripletWalkLength(vals: seq<Value>, m: nat, idx: nat, count: nat, role: Role)
    requires m <= |vals| && idx <= m + 1
    ensures var n := (m + 1 - idx) / 3;
      |TripletWalk(vals, m, idx, count, role).0| == if count < n then count else n
    decreases count
  {
    if count != 0 && idx + 2 <= m {
      TripletWalkLength(vals, m, idx + 3, count - 1, role);
      assert (m + 1 - idx) / 3 == (m + 1 - (idx + 3)) / 3 + 1;
    }
  }

  /** The k-th triplet is the one starting at idx + 3k. */
  lemma {:induction false} TripletWalkAt(vals: seq<Value>, m: nat, idx: nat, count: nat, role: Role, k: nat)
    requires m <= |vals| && idx <= m + 1
    requires k < |TripletWalk(vals, m, idx, count, role).0|
    ensures idx + 3 * k + 2 <= m
    ensures TripletWalk(vals, m, idx, count, role).0[k] == MakeTriplet(vals, m, idx + 3 * k, role)
    decreases count
  {
    if k > 0 {
      TripletWalkAt(vals, m, idx + 3, count - 1, role, k - 1);
    }
  }

  /** The loop reads nothing at or beyond the marker index: two value
      sequences that agree before m give the same triplets. */
  lemma {:induction false} TripletWalkFrame(vals: seq<Value>, other: seq<Value>, m: nat, idx: nat, count: nat, role: Role)
    requires m <= |vals| && m <= |other| && idx <= m + 1
    requires vals[..m] == other[..m]
    ensures TripletWalk(vals, m, idx, count, role) == TripletWalk(other, m, idx, count, role)
    decreases count
  {
    if count != 0 && idx + 2 <= m {
      assert vals[idx] == vals[..m][idx] && vals[idx + 1] == vals[..m][idx + 1];
      assert other[idx] == other[..m][idx] && other[idx + 1] == other[..m][idx + 1];
      if idx + 2 < m {
        assert vals[idx + 2] == vals[..m][idx + 2] && other[idx + 2] == other[..m][idx + 2];
      }
      TripletWalkFrame(vals, other, m, idx + 3, count - 1, role);
    }
  }

  /** The loop emits parameter or property subtrees and nothing else. */
  lemma {:induction false} TripletsOnly(vals: seq<Value>, m: nat, idx: nat, count: nat, role: Role)
    requires m <= |vals| && idx <= m + 1
    ensures forall f :: f in TripletWalk(vals, m, idx, count, role).0 ==> f.Triplet? && f.role == role
    decreases count
  {
    if count != 0 && idx + 2 <= m {
      TripletsOnly(vals, m, idx + 3, count - 1, role);
    }
  }

  lemma TripletStep(vals: seq<Value>, m: nat, idx: nat, left: nat, role: Role, t: Field)
    requires m <= |vals| && idx + 2 <= m && left > 0
    requires t == MakeTriplet(vals, m, idx, role)
    ensures TripletWalk(vals, m, idx, left, role).0 == [t] + TripletWalk(vals, m, idx + 3, left - 1, role).0
    ensures TripletWalk(vals, m, idx, left, role).1 == TripletWalk(vals, m, idx + 3, left - 1, role).1
  {
  }

  /** The body of the triplet loop: name, type and value, one index each. */
  method ReadTriplet(vals: seq<Value>, m: nat, start: nat, role: Role) returns (t: Field, idx: nat)
    requires start + 2 <= m <= |vals|
    ensures t == MakeTriplet(vals, m, start, role) && idx == start + 3
  {
    idx := start;
    var name: Option<bytes> := None;
    if vals[idx].Str? {
      name := Some(CStr(vals[idx].s));
    }
    idx := idx + 1;
    var typeId: Option<u32> := None;
    if vals[idx].PosInt? {
      typeId := Some(U32(vals[idx].u));
    }
    idx := idx + 1;
    var value: Option<Rendered> := None;
    var nv: Option<NameValue> := None;
    if idx < m {
      value := Some(TypedValue(vals[idx]));
      if name.Some? {
        nv := Some(NameValue(name.value, value.value.shown));
      }
    }
    idx := idx + 1;
    t := Triplet(role, name, typeId, value, nv);
  }

  method WalkTriplets(vals: seq<Value>, m: nat, start: nat, count: u32, role: Role)
    returns (out: seq<Field>, idx: nat)
    requires m <= |vals| && start <= m + 1
    ensures (out, idx) == TripletWalk(vals, m, start, count, role)
  {
    out, idx := [], start;
    var p: nat := 0;
    ghost var left: nat := count;
    while p < count && idx + 2 <= m
      invariant p + left == count && start <= idx <= m + 1
      invariant out + TripletWalk(vals, m, idx, left, role).0 == TripletWalk(vals, m, start, count, role).0
      invariant TripletWalk(vals, m, idx, left, role).1 == TripletWalk(vals, m, start, count, role).1
    {
      ghost var at := idx;
      var t;
      t, idx := ReadTriplet(vals, m, idx, role);
      TripletStep(vals, m, at, left, role, t);
      AppendAssoc(out, [t], TripletWalk(vals, m, idx, left - 1, role).0);
      out := out + [t];
      p, left := p + 1, left - 1;
    }
    assert TripletWalk(vals, m, idx, left, role) == ([], idx);
    assert out == TripletWalk(vals, m, start, count, role).0;
  }

  // ---- RESPONSE property count ----

  function AsCount(v: Value): u32
    requires v.PosInt? || v.NegInt?
  {
    if v.PosInt? then U32(v.u) else U32(v.i)
  }

  /** An integer at idx is taken as the property count when a non-zero count
      is followed (still before m) by a string, or a zero count by something
      that is not an integer. */
  predicate CountQualifies(vals: seq<Value>, m: nat, idx: nat)
    requires idx < m <= |vals|
  {
    (vals[idx].PosInt? || vals[idx].NegInt?) &&
    var c := AsCount(vals[idx]);
    ((c > 0 && idx + 1 < m && vals[idx + 1].Str?) ||
     (c == 0 && idx + 1 < m && !vals[idx + 1].PosInt? && !vals[idx + 1].NegInt?))
  }

  /** The index of the first qualifying integer in idx .. m-1. */
  function CountSearch(vals: seq<Value>, m: nat, idx: nat): (r: Option<nat>)
    requires idx <= m <= |vals|
    ensures r.Some? ==> idx <= r.value < m && CountQualifies(vals, m, r.value)
    ensures r.Some? ==> forall j :: idx <= j < r.value ==> !CountQualifies(vals, m, j)
    ensures r.None? ==> forall j :: idx <= j < m ==> !CountQualifies(vals, m, j)
    decreases m - idx
  {
    if idx == m then None
    else if CountQualifies(vals, m, idx) then Some(idx)
    else CountSearch(vals, m, idx + 1)
  }

  /** The search loop: found, the count, and the index after the loop. */
  method FindPropertyCount(vals: seq<Value>, m: nat, start: nat)
    returns (found: bool, count: u32, idx: nat)
    requires start <= m <= |vals|
    ensures found <==> CountSearch(vals, m, start).Some?
    ensures found ==> var k := CountSearch(vals, m, start).value;
      count == AsCount(vals[k]) && idx == k + 1
    ensures !found ==> count == 0 && idx == m
  {
    found, count, idx := false, 0, start;
    while idx < m && !found
      invariant start <= idx <= m
      invariant !found && count == 0
      invariant CountSearch(vals, m, start) == CountSearch(vals, m, idx)
    {
      if vals[idx].PosInt? || vals[idx].NegInt? {
        var potential := if vals[idx].PosInt? then U32(vals[idx].u) else U32(vals[idx].i);
        if potential > 0 && idx + 1 < m && vals[idx + 1].Str? {
          count, found := potential, true;
          idx := idx + 1;
          break;
        } else if potential == 0 && idx + 1 < m && !vals[idx + 1].PosInt? && !vals[idx + 1].NegInt? {
          count, found := 0, true;
          idx := idx + 1;
          break;
        }
      }
      idx := idx + 1;
    }
  }
}
