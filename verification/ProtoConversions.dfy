/**
 * `toObject` and `fromObject` of src/Compatibility/proto-runtime.ts over the own-field walk. What becomes of a
 * single value is left open.
 */
module ProtoConversions {
  import opened Wrappers
  import opened ProtoSchema
  import opened ProtoFields
  import opened ProtoContents

  // ---------------------------------------------------------------- toObject

  function ConvertedEntries(f: Field, entries: seq<(string, Item)>, convert: ToField): seq<(string, Item)> {
    seq(|entries|, i requires 0 <= i < |entries| => (entries[i].0, convert(f, entries[i].1)))
  }

  /** What visiting one field adds to the output. */
  function ToObjectVisit(t: MessageType, d: Data, convert: ToField, oneofs: bool, i: nat, out: Output): Output {
    if i >= |t.fields| then out
    else
      var f := t.fields[i];
      var value := FieldValue(t, d, f);
      match f.shape
      case Repeated =>
        if value.List? && |value.items| > 0
        then Put(out, f.name, List(seq(|value.items|, k requires 0 <= k < |value.items| => convert(f, value.items[k]))))
        else out
      case Map =>
        if EntriesOf(value).Some? && |EntriesOf(value).value| > 0
        then Put(out, f.name, Table(ConvertedEntries(f, EntriesOf(value).value, convert)))
        else out
      case Singular =>
        if IsNullish(value) || !HasOwnField(t, d, f) then out
        else
          var written := Put(out, f.name, convert(f, value));
          if oneofs && f.oneof.Some? then Put(written, f.oneof.value, Label(f.name)) else written
  }

  function ToObjectStep(t: MessageType, d: Data, convert: ToField, oneofs: bool): Step<()> {
    (i: nat, out: Output) => Ok(ToObjectVisit(t, d, convert, oneofs, i, out))
  }

  /** toObject: `initial` is what the pass for defaults has written. */
  method ToObject(t: MessageType, d: Data, convert: ToField, oneofs: bool, initial: Output) returns (output: Output)
    requires WellFormedType(t) && IsData(d) && IsOutput(initial)
    ensures Walk(ToObjectStep(t, d, convert, oneofs), Every(|t.fields|), initial) == Ok(output)
    ensures ObjectForm(t, d, convert, oneofs, initial, output)
  {
    hide ToObjectVisit, ObjectForm, IsPositions, Spells;
    ghost var step := ToObjectStep(t, d, convert, oneofs);
    var positions := FieldPositions(t);
    var found := OwnFieldPositions(d, positions, |t.fields|, true);
    var count := if found.None? then |t.fields| else |found.value|;
    ghost var visited := if found.None? then Every(|t.fields|) else found.value;
    if found.Some? {
      HeldAreOwn(t, d, positions, found.value);
      ToObjectIsShort(t, d, convert, oneofs, found.value, initial);
    }
    output := initial;
    var n := 0;
    assert visited[0..] == visited;
    while n < count
      invariant n <= count == |visited|
      invariant Walk(step, visited[n..], output) == Walk(step, visited, initial)
    {
      var i := if found.None? then n else found.value[n];
      var next := ToObjectVisit(t, d, convert, oneofs, i, output);
      assert visited[n] == i && step(i, output) == Ok(next);
      WalkOn(step, visited, n, output);
      output := next;
      n := n + 1;
    }
    FullWalkHasForm(t, d, convert, oneofs, initial);
  }

  /** A field that is not own reads as an empty collection or is left out by the own-field test. */
  lemma ToObjectIsShort(t: MessageType, d: Data, convert: ToField, oneofs: bool, found: seq<nat>, initial: Output)
    requires !d.proto.Foreign? && Ascending(found)
    requires forall i: nat :: i in found <==> i < |t.fields| && HasOwnField(t, d, t.fields[i])
    ensures var step := ToObjectStep(t, d, convert, oneofs);
            Walk(step, found, initial) == Walk(step, Every(|t.fields|), initial)
  {
    var step := ToObjectStep(t, d, convert, oneofs);
    assert Every(|t.fields|)[0..] == Every(|t.fields|);
    ShortWalkIsFull(step, found, 0, |t.fields|, initial);
  }

  lemma VisitHasForm(t: MessageType, d: Data, convert: ToField, oneofs: bool, initial: Output, i: nat, out: Output,
                     slots: seq<Slot>)
    returns (more: seq<Slot>)
    requires i < |t.fields| && |slots| == 2 * i && ObjectSlots(t, d, convert, oneofs, slots)
    requires Assigned(initial, slots, out)
    ensures |more| == 2 * (i + 1) && ObjectSlots(t, d, convert, oneofs, more)
    ensures Assigned(initial, more, ToObjectVisit(t, d, convert, oneofs, i, out))
  {
    hide Assigned, Put, Converted;
    var value, group, written := VisitSlots(t, d, convert, oneofs, i, out);
    if value.Some? {
      AssignedSome(initial, slots, out, value.value.0, value.value.1);
    } else {
      AssignedNone(initial, slots, out);
    }
    if group.Some? {
      AssignedSome(initial, slots + [value], written, group.value.0, group.value.1);
    } else {
      AssignedNone(initial, slots + [value], written);
    }
    more := slots + [value] + [group];
    SlotsMore(t, d, convert, oneofs, i, slots, value, group);
  }

  function Made(out: Output, slot: Slot): Output { if slot.Some? then Put(out, slot.value.0, slot.value.1) else out }

  lemma SlotsMore(t: MessageType, d: Data, convert: ToField, oneofs: bool, i: nat, slots: seq<Slot>, value: Slot,
                  group: Slot)
    requires i < |t.fields| && |slots| == 2 * i && ObjectSlots(t, d, convert, oneofs, slots)
    requires ValueSlot(t, d, convert, i, value) && GroupSlot(t, d, oneofs, i, group)
    ensures ObjectSlots(t, d, convert, oneofs, slots + [value] + [group])
  {
    hide ValueSlot, GroupSlot;
    var more := slots + [value] + [group];
    forall w | 0 <= w < |more|
      ensures if w % 2 == 0 then ValueSlot(t, d, convert, w / 2, more[w])
              else GroupSlot(t, d, oneofs, w / 2, more[w])
    {
      assert w < 2 * i ==> more[w] == slots[w];
      assert w == 2 * i ==> w % 2 == 0 && w / 2 == i;
      assert w == 2 * i + 1 ==> w % 2 == 1 && w / 2 == i;
    }
  }

  /** The visit of a field makes the assignments its value and its group call for. */
  lemma VisitSlots(t: MessageType, d: Data, convert: ToField, oneofs: bool, i: nat, out: Output)
    returns (value: Slot, group: Slot, written: Output)
    requires i < |t.fields|
    ensures ValueSlot(t, d, convert, i, value) && GroupSlot(t, d, oneofs, i, group)
    ensures written == Made(out, value) && ToObjectVisit(t, d, convert, oneofs, i, out) == Made(written, group)
  {
    hide Put;
    var f, v := t.fields[i], FieldValue(t, d, t.fields[i]);
    OwnMeansHas(t, d, i);
    assert v == Held(t, d, i);
    value, group := None, None;
    if Shows(t, d, i) {
      match f.shape {
        case Repeated =>
          value := Some((f.name, List(seq(|v.items|, k requires 0 <= k < |v.items| => convert(f, v.items[k])))));
        case Map =>
          value := Some((f.name, Table(ConvertedEntries(f, EntriesOf(v).value, convert))));
        case Singular =>
          value := Some((f.name, convert(f, v)));
          if oneofs && f.oneof.Some? {
            group := Some((f.oneof.value, Label(f.name)));
          }
      }
    }
    written := Made(out, value);
  }

  lemma OwnMeansHas(t: MessageType, d: Data, i: nat)
    requires i < |t.fields|
    ensures Owns(t, d, i) <==> HasOwnField(t, d, t.fields[i])
  {
    if HasOwnField(t, d, t.fields[i]) {
      var key := if t.fields[i].name in d.own then t.fields[i].name else t.alias.value.bridge;
      assert key in d.own && Spells(t, i, key);
    }
  }

  lemma {:induction false} WalkHasForm(t: MessageType, d: Data, convert: ToField, oneofs: bool, initial: Output,
                                       from: nat, out: Output, slots: seq<Slot>)
    requires from <= |t.fields| && |slots| == 2 * from && ObjectSlots(t, d, convert, oneofs, slots)
    requires Assigned(initial, slots, out)
    ensures var r := Walk(ToObjectStep(t, d, convert, oneofs), Every(|t.fields|)[from..], out);
            r.Ok? && ObjectForm(t, d, convert, oneofs, initial, r.value)
    decreases |t.fields| - from
  {
    hide Assigned, ObjectSlots, ToObjectVisit;
    if from < |t.fields| {
      WalkOn(ToObjectStep(t, d, convert, oneofs), Every(|t.fields|), from, out);
      var more := VisitHasForm(t, d, convert, oneofs, initial, from, out, slots);
      WalkHasForm(t, d, convert, oneofs, initial, from + 1, ToObjectVisit(t, d, convert, oneofs, from, out), more);
    }
  }

  lemma FullWalkHasForm(t: MessageType, d: Data, convert: ToField, oneofs: bool, initial: Output)
    requires IsOutput(initial)
    ensures var r := Walk(ToObjectStep(t, d, convert, oneofs), Every(|t.fields|), initial);
            r.Ok? && ObjectForm(t, d, convert, oneofs, initial, r.value)
  {
    AssignedNothing(initial);
    assert Every(|t.fields|)[0..] == Every(|t.fields|);
    WalkHasForm(t, d, convert, oneofs, initial, 0, initial, []);
  }

  // ---------------------------------------------------------------- fromObject

  /** `value.map(…)`: the first item that throws ends it; an undefined item stays undefined. */
  function ConvertAll<E>(f: Field, items: seq<Item>, convert: FromField<E>): Result<seq<Item>, E> {
    if items == [] then Ok([])
    else
      match convert(f, items[0])
      case Err(e) => Err(e)
      case Ok(first) =>
        match ConvertAll(f, items[1..], convert)
        case Err(e) => Err(e)
        case Ok(rest) => Ok([if first.Some? then first.value else Undefined] + rest)
  }

  function Relabel(entries: seq<(string, Item)>, values: seq<Item>): seq<(string, Item)> {
    seq(|entries|, i requires 0 <= i < |entries| => (entries[i].0, if i < |values| then values[i] else Undefined))
  }

  function FromObjectVisit<E>(t: MessageType, d: Data, convert: FromField<E>, i: nat,
                              out: Output): Result<Output, Failure<E>>
  {
    if i >= |t.fields| then Ok(out)
    else
      var f := t.fields[i];
      var value := FieldValue(t, d, f);
      if IsNullish(value) then Ok(out)
      else
        match f.shape
        case Repeated =>
          if !value.List? then Err(ArrayExpected(f.name))
          else (
            match ConvertAll(f, value.items, convert)
            case Err(e) => Err(Thrown(e))
            case Ok(items) => Ok(Put(out, f.name, List(items))))
        case Map =>
          if EntriesOf(value).None? then Err(ObjectExpected(f.name))
          else (
            match ConvertAll(f, ValuesOf(EntriesOf(value).value), convert)
            case Err(e) => Err(Thrown(e))
            case Ok(values) => Ok(Put(out, f.name, Table(Relabel(EntriesOf(value).value, values)))))
        case Singular =>
          match convert(f, value)
          case Err(e) => Err(Thrown(e))
          case Ok(converted) => Ok(if converted.Some? then Put(out, f.name, converted.value) else out)
  }

  function FromObjectStep<E>(t: MessageType, d: Data, convert: FromField<E>): Step<Failure<E>> {
    (i: nat, out: Output) => FromObjectVisit(t, d, convert, i, out)
  }

  /** fromObject: `initial` is the fresh instance. An instance as input keeps the full walk. */
  method FromObject<E>(t: MessageType, d: Data, convert: FromField<E>, initial: Output)
    returns (r: Result<Output, Failure<E>>)
    requires WellFormedType(t) && IsData(d) && IsOutput(initial)
    ensures r == Walk(FromObjectStep(t, d, convert), Every(|t.fields|), initial)
    ensures InstanceForm(t, d, convert, initial, r)
  {
    var positions := FieldPositions(t);
    var found := OwnFieldPositions(d, positions, |t.fields|, false);
    ghost var visited := if found.None? then Every(|t.fields|) else found.value;
    if found.Some? {
      HeldAreOwn(t, d, positions, found.value);
      FromObjectIsShort(t, d, convert, found.value, initial);
    }
    r := VisitAll(t, d, convert, found, visited, initial);
    FullTakingHasForm(t, d, convert, initial);
  }

  /** The loop, over the positions found or over all of them. */
  method VisitAll<E>(t: MessageType, d: Data, convert: FromField<E>, found: Option<seq<nat>>, ghost visited: seq<nat>,
                     initial: Output)
    returns (r: Result<Output, Failure<E>>)
    requires visited == if found.None? then Every(|t.fields|) else found.value
    ensures r == Walk(FromObjectStep(t, d, convert), visited, initial)
  {
    hide FromObjectVisit;
    ghost var step := FromObjectStep(t, d, convert);
    var count := if found.None? then |t.fields| else |found.value|;
    var output := initial;
    var n := 0;
    assert visited[0..] == visited;
    while n < count
      invariant n <= count == |visited|
      invariant Walk(step, visited[n..], output) == Walk(step, visited, initial)
    {
      var i := if found.None? then n else found.value[n];
      assert visited[n] == i;
      WalkOn(step, visited, n, output);
      var next := FromObjectVisit(t, d, convert, i, output);
      if next.Err? {
        return Err(next.error);
      }
      output := next.value;
      n := n + 1;
    }
    return Ok(output);
  }

  /** A plain object reads `undefined` for every field it does not own. */
  lemma FromObjectIsShort<E>(t: MessageType, d: Data, convert: FromField<E>, found: seq<nat>, initial: Output)
    requires !d.proto.Foreign? && !d.proto.Instance? && Ascending(found)
    requires forall i: nat :: i in found <==> i < |t.fields| && HasOwnField(t, d, t.fields[i])
    ensures var step := FromObjectStep(t, d, convert);
            Walk(step, found, initial) == Walk(step, Every(|t.fields|), initial)
  {
    var step := FromObjectStep(t, d, convert);
    assert Every(|t.fields|)[0..] == Every(|t.fields|);
    ShortWalkIsFull(step, found, 0, |t.fields|, initial);
  }

  /** A list converts item by item, or fails with the first item that throws. */
  lemma {:induction false} ConvertAllIs<E>(f: Field, items: seq<Item>, convert: FromField<E>)
    ensures var r := ConvertAll(f, items, convert);
            match r
            case Ok(converted) =>
              |converted| == |items|
              && forall k :: 0 <= k < |items| ==> TakenAs(convert(f, items[k]), converted[k])
            case Err(e) => FirstThrows(f, items, convert, e)
  {
    if items != [] {
      var rest := items[1..];
      ConvertAllIs(f, rest, convert);
      assert forall k :: 0 < k < |items| ==> items[k] == rest[k - 1];
      match convert(f, items[0])
      case Err(e) =>
        assert FirstThrows(f, items, convert, e);
      case Ok(first) =>
        match ConvertAll(f, rest, convert)
        case Err(e) =>
          var k :| 0 <= k < |rest| && convert(f, rest[k]) == Err(e)
                   && forall j :: 0 <= j < k ==> convert(f, rest[j]).Ok?;
          assert convert(f, items[k + 1]) == Err(e);
          assert forall j :: 0 < j < k + 1 ==> items[j] == rest[j - 1];
        case Ok(converted) =>
    }
  }

  /** Visiting a field takes it, or fails the way it does. */
  lemma TakingSlot<E>(t: MessageType, d: Data, convert: FromField<E>, i: nat, out: Output)
    returns (slot: Slot)
    requires i < |t.fields|
    ensures match FromObjectVisit(t, d, convert, i, out)
            case Ok(next) => TakenSlot(t, d, convert, i, slot) && next == Made(out, slot)
            case Err(e) => FailsWith(t, d, convert, i, e)
  {
    hide Put, FirstThrows, ConvertAll;
    var f, v := t.fields[i], FieldValue(t, d, t.fields[i]);
    assert v == Held(t, d, i);
    slot := None;
    if IsThere(t, d, i) {
      match f.shape {
        case Repeated =>
          if v.List? {
            ConvertAllIs(f, v.items, convert);
            var r := ConvertAll(f, v.items, convert);
            slot := if r.Ok? then Some((f.name, List(r.value))) else None;
          }
        case Map =>
          slot := TakingTable(t, d, convert, i, out);
        case Singular =>
          var r := convert(f, v);
          slot := if r.Ok? && r.value.Some? then Some((f.name, r.value.value)) else None;
      }
    }
  }

  lemma TakingTable<E>(t: MessageType, d: Data, convert: FromField<E>, i: nat, out: Output)
    returns (slot: Slot)
    requires i < |t.fields| && t.fields[i].shape.Map? && IsThere(t, d, i)
    ensures match FromObjectVisit(t, d, convert, i, out)
            case Ok(next) => TakenSlot(t, d, convert, i, slot) && next == Made(out, slot)
            case Err(e) => FailsWith(t, d, convert, i, e)
  {
    hide Put, FirstThrows, ConvertAll, EntriesOf;
    var f, v := t.fields[i], FieldValue(t, d, t.fields[i]);
    assert v == Held(t, d, i);
    slot := None;
    if EntriesOf(v).Some? {
      var entries := EntriesOf(v).value;
      ConvertAllIs(f, ValuesOf(entries), convert);
      var r := ConvertAll(f, ValuesOf(entries), convert);
      if r.Ok? {
        slot := Some((f.name, Table(Relabel(entries, r.value))));
        assert forall k :: 0 <= k < |entries| ==> ValuesOf(entries)[k] == entries[k].1;
      }
    }
  }

  lemma {:induction false} TakingHasForm<E>(t: MessageType, d: Data, convert: FromField<E>, initial: Output,
                                            from: nat, out: Output, slots: seq<Slot>)
    requires from <= |t.fields| && |slots| == from && TakenSlots(t, d, convert, slots)
    requires Assigned(initial, slots, out)
    ensures InstanceForm(t, d, convert, initial, Walk(FromObjectStep(t, d, convert), Every(|t.fields|)[from..], out))
    decreases |t.fields| - from
  {
    hide Assigned, FromObjectVisit, TakenSlot, FailsWith, Put;
    if from < |t.fields| {
      WalkOn(FromObjectStep(t, d, convert), Every(|t.fields|), from, out);
      var slot := TakingSlot(t, d, convert, from, out);
      if FromObjectVisit(t, d, convert, from, out).Ok? {
        if slot.Some? {
          AssignedSome(initial, slots, out, slot.value.0, slot.value.1);
        } else {
          AssignedNone(initial, slots, out);
        }
        TakingHasForm(t, d, convert, initial, from + 1, Made(out, slot), slots + [slot]);
      }
    }
  }

  lemma FullTakingHasForm<E>(t: MessageType, d: Data, convert: FromField<E>, initial: Output)
    requires IsOutput(initial)
    ensures InstanceForm(t, d, convert, initial, Walk(FromObjectStep(t, d, convert), Every(|t.fields|), initial))
  {
    AssignedNothing(initial);
    assert Every(|t.fields|)[0..] == Every(|t.fields|);
    TakingHasForm(t, d, convert, initial, 0, initial, []);
  }

  // ---------------------------------------------------------------- why an instance keeps the full walk

  /** A conversion that takes every value as it is. */
  function Copying<E>(): FromField<E> { (f: Field, v: Item) => Ok(Some(v)) }

  lemma {:induction false} CopyingAccepts<E>(f: Field, items: seq<Item>)
    ensures ConvertAll<E>(f, items, Copying()).Ok?
  {
    if items != [] {
      CopyingAccepts<E>(f, items[1..]);
    }
  }

  function Names(out: Output): set<string> { set i | 0 <= i < |out| :: out[i].0 }

  lemma {:induction false} PutAdds(out: Output, key: string, value: Item)
    ensures Names(Put(out, key, value)) == Names(out) + {key}
  {
    var put := Put(out, key, value);
    NamesOfHead(put);
    if out == [] {
      assert put[1..] == [];
    } else {
      NamesOfHead(out);
      if out[0].0 == key {
        assert put[1..] == out[1..];
      } else {
        PutAdds(out[1..], key, value);
      }
    }
  }

  lemma NamesOfHead(out: Output)
    requires out != []
    ensures Names(out) == {out[0].0} + Names(out[1..])
  {
    forall name
      ensures name in Names(out) <==> name == out[0].0 || name in Names(out[1..])
    {
      if name in Names(out) {
        var i :| 0 <= i < |out| && out[i].0 == name;
        assert i > 0 ==> out[1..][i - 1].0 == name;
      }
      if name in Names(out[1..]) {
        var i :| 0 <= i < |out[1..]| && out[1..][i].0 == name;
        assert out[i + 1].0 == name;
      }
    }
  }

  /** A field the object does not own, of which its prototype holds more than null. */
  predicate IsMissed(t: MessageType, d: Data, i: nat)
    requires i < |t.fields|
  {
    var f := t.fields[i];
    !HasOwnField(t, d, f) && !(f.shape.Singular? && (f.oneof.Some? || f.kind.Message? || f.kind.Bytes?))
  }

  /** Of a field it does not own an instance of the type reads the default. */
  lemma MissedReadsDefault(t: MessageType, d: Data, i: nat)
    requires WellFormedType(t) && d.proto == Instance(t) && i < |t.fields| && !HasOwnField(t, d, t.fields[i])
    ensures FieldValue(t, d, t.fields[i]) == Default(t.fields[i])
    ensures IsMissed(t, d, i) <==> !IsNullish(FieldValue(t, d, t.fields[i]))
  {
    var g := FieldIn(t.fields, t.fields[i].name);
    assert t.fields[i] in t.fields && g.Some?;
    var k :| 0 <= k < |t.fields| && t.fields[k] == g.value;
    assert t.fields[k].name == t.fields[i].name;
  }

  /** A visit writes under its field's own name or not at all, fails whatever was written, and writes every default. */
  lemma CopyingVisit<E>(t: MessageType, d: Data, i: nat, out: Output, other: Output)
    requires WellFormedType(t) && d.proto == Instance(t) && i < |t.fields|
    ensures var r := FromObjectVisit<E>(t, d, Copying(), i, out);
            && (r.Err? ==> FromObjectVisit<E>(t, d, Copying(), i, other) == r && HasOwnField(t, d, t.fields[i]))
            && (r.Ok? ==> FromObjectVisit<E>(t, d, Copying(), i, other).Ok?)
            && (r.Ok? ==> Names(out) <= Names(r.value) <= Names(out) + {t.fields[i].name})
            && (r.Ok? && IsMissed(t, d, i) ==> t.fields[i].name in Names(r.value))
  {
    var f := t.fields[i];
    var value := FieldValue(t, d, f);
    var r := FromObjectVisit<E>(t, d, Copying(), i, out);
    if value.List? {
      CopyingAccepts<E>(f, value.items);
    } else if value.Table? {
      CopyingAccepts<E>(f, ValuesOf(value.entries));
    }
    if !HasOwnField(t, d, f) {
      MissedReadsDefault(t, d, i);
    }
    if r.Ok? && r.value != out {
      var written :| r.value == Put(out, f.name, written);
      PutAdds(out, f.name, written);
    } else if r.Ok? && IsMissed(t, d, i) {
      CopyingWritesDefault<E>(t, d, i, out);
    }
  }

  lemma CopyingWritesDefault<E>(t: MessageType, d: Data, i: nat, out: Output)
    requires WellFormedType(t) && d.proto == Instance(t) && i < |t.fields| && IsMissed(t, d, i)
    ensures var r := FromObjectVisit<E>(t, d, Copying(), i, out);
            r.Ok? && t.fields[i].name in Names(r.value)
  {
    var f := t.fields[i];
    var value := FieldValue(t, d, f);
    MissedReadsDefault(t, d, i);
    if value.List? {
      CopyingAccepts<E>(f, value.items);
    } else if value.Table? {
      CopyingAccepts<E>(f, ValuesOf(value.entries));
    }
    var r := FromObjectVisit<E>(t, d, Copying(), i, out);
    var written :| r == Ok(Put(out, f.name, written));
    PutAdds(out, f.name, written);
  }

  /** The held positions from `from` on, in order. */
  ghost predicate AreHeld(t: MessageType, d: Data, found: seq<nat>, from: nat) {
    Ascending(found)
    && forall i: nat :: i in found <==> from <= i < |t.fields| && HasOwnField(t, d, t.fields[i])
  }

  lemma HeldHead(t: MessageType, d: Data, found: seq<nat>, from: nat)
    requires AreHeld(t, d, found, from) && from < |t.fields|
    ensures !HasOwnField(t, d, t.fields[from]) ==> AreHeld(t, d, found, from + 1)
    ensures HasOwnField(t, d, t.fields[from]) ==>
              found != [] && found[0] == from && AreHeld(t, d, found[1..], from + 1)
  {
    if HasOwnField(t, d, t.fields[from]) {
      var k :| 0 <= k < |found| && found[k] == from;
      assert found[0] in found && found[0] <= found[k];
      forall i: nat
        ensures i in found[1..] <==> i in found && i != from
      {
        if i in found {
          var j :| 0 <= j < |found| && found[j] == i;
          assert j > 0 ==> found[1..][j - 1] == i;
        }
        if i in found[1..] {
          var j :| 0 <= j < |found[1..]| && found[1..][j] == i;
          assert found[j + 1] == i && found[0] < found[j + 1];
        }
      }
    }
  }

  predicate IsPicked(t: MessageType, d: Data, i: nat, held: bool)
    requires i < |t.fields|
  {
    if held then HasOwnField(t, d, t.fields[i]) else IsMissed(t, d, i)
  }

  /** Names of the fields from a position on that the object holds, or that it misses. */
  function NamesFrom(t: MessageType, d: Data, from: nat, held: bool): set<string> {
    set i | from <= i < |t.fields| && IsPicked(t, d, i, held) :: t.fields[i].name
  }

  lemma NamesFromNext(t: MessageType, d: Data, from: nat, held: bool)
    requires from < |t.fields|
    ensures NamesFrom(t, d, from, held) == NamesFrom(t, d, from + 1, held)
              + (if IsPicked(t, d, from, held) then {t.fields[from].name} else {})
  {
  }

  /** How the two walks come out from some position on, whatever each has written before it. */
  ghost predicate Apart<E>(t: MessageType, d: Data, from: nat, o1: Output, o2: Output,
                           short: Result<Output, Failure<E>>, full: Result<Output, Failure<E>>)
  {
    && (short.Err? || full.Err? ==> short == full)
    && (short.Ok? ==> Names(short.value) <= Names(o1) + NamesFrom(t, d, from, true))
    && (full.Ok? ==> Names(o2) + NamesFrom(t, d, from, false) <= Names(full.value))
  }

  lemma {:induction false} WalksApart<E>(t: MessageType, d: Data, found: seq<nat>, from: nat, o1: Output, o2: Output)
    requires WellFormedType(t) && d.proto == Instance(t) && from <= |t.fields| && AreHeld(t, d, found, from)
    ensures var step := FromObjectStep<E>(t, d, Copying());
            Apart(t, d, from, o1, o2, Walk(step, found, o1), Walk(step, Every(|t.fields|)[from..], o2))
    decreases |t.fields| - from
  {
    var step := FromObjectStep<E>(t, d, Copying());
    if from == |t.fields| {
      Members(found);
    } else {
      HeldHead(t, d, found, from);
      NamesFromNext(t, d, from, true);
      NamesFromNext(t, d, from, false);
      WalkOn(step, Every(|t.fields|), from, o2);
      CopyingVisit<E>(t, d, from, o1, o2);
      CopyingVisit<E>(t, d, from, o2, o1);
      var next2 := step(from, o2);
      if !HasOwnField(t, d, t.fields[from]) {
        WalksApart<E>(t, d, found, from + 1, o1, next2.value);
      } else if next2.Ok? {
        var next1 := step(from, o1);
        WalksApart<E>(t, d, found[1..], from + 1, next1.value, next2.value);
      }
    }
  }

  /**
   * Why an instance keeps the full walk: of a field it does not own it still reads the prototype's default, and
   * that is converted. With a conversion that takes everything, the walk over the held positions gives what the
   * full walk gives exactly when it fails, or every field it does not own has the default null: a message, bytes,
   * or a member of a group.
   */
  lemma InstancesNeedFullWalk<E>(t: MessageType, d: Data, found: seq<nat>)
    requires WellFormedType(t) && d.proto == Instance(t) && AreHeld(t, d, found, 0)
    ensures var step := FromObjectStep<E>(t, d, Copying());
            Walk(step, found, []) == Walk(step, Every(|t.fields|), [])
            <==> Walk(step, found, []).Err? || forall i :: 0 <= i < |t.fields| ==> !IsMissed(t, d, i)
  {
    hide FromObjectVisit, Put;
    var step := FromObjectStep<E>(t, d, Copying());
    assert Every(|t.fields|)[0..] == Every(|t.fields|);
    WalksApart<E>(t, d, found, 0, [], []);
    if forall i :: 0 <= i < |t.fields| ==> !IsMissed(t, d, i) {
      NullsAreSkipped<E>(t, d);
      ShortWalkIsFull(step, found, 0, |t.fields|, []);
    } else if Walk(step, found, []).Ok? {
      var i :| 0 <= i < |t.fields| && IsMissed(t, d, i);
      assert IsPicked(t, d, i, false) && t.fields[i].name in NamesFrom(t, d, 0, false);
      forall k | 0 <= k < |t.fields| && IsPicked(t, d, k, true)
        ensures t.fields[k].name != t.fields[i].name
      {
        assert k < i ==> t.fields[k].name != t.fields[i].name;
      }
      assert t.fields[i].name !in NamesFrom(t, d, 0, true);
    }
  }

  lemma NullsAreSkipped<E>(t: MessageType, d: Data)
    requires WellFormedType(t) && d.proto == Instance(t)
    ensures forall i: nat, o: Output :: i < |t.fields| && !HasOwnField(t, d, t.fields[i]) && !IsMissed(t, d, i)
              ==> FromObjectVisit<E>(t, d, Copying(), i, o) == Ok(o)
  {
    forall i: nat, o: Output | i < |t.fields| && !HasOwnField(t, d, t.fields[i]) && !IsMissed(t, d, i)
      ensures FromObjectVisit<E>(t, d, Copying(), i, o) == Ok(o)
    {
      MissedReadsDefault(t, d, i);
    }
  }
}
