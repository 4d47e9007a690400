/**
 * What `toObject` and `fromObject` of src/Compatibility/proto-runtime.ts put into their output, field by field,
 * read off the message and its schema alone.
 */
module ProtoContents {
  import opened Wrappers
  import opened ProtoSchema
  import opened ProtoFields

  /** toObjectField never throws here; fromObjectField may, and answers None for `undefined`. */
  type ToField = (Field, Item) -> Item

  type FromField<!E> = (Field, Item) -> Result<Option<Item>, E>

  datatype Failure<E> = ArrayExpected(field: string) | ObjectExpected(field: string) | Thrown(error: E)

  // ---------------------------------------------------------------- an object built by assignments

  /** An assignment that is made, or one that is left out. */
  type Slot = Option<(string, Item)>

  ghost predicate IsOutput(out: Output) { forall a, b :: 0 <= a < b < |out| ==> out[a].0 != out[b].0 }

  predicate Has(out: Output, key: string) { exists a :: 0 <= a < |out| && out[a].0 == key }

  predicate Assigns(slot: Slot, key: string) { slot.Some? && slot.value.0 == key }

  predicate Written(slots: seq<Slot>, key: string) { exists w :: 0 <= w < |slots| && Assigns(slots[w], key) }

  ghost predicate FirstAt(slots: seq<Slot>, key: string, w: int) {
    0 <= w < |slots| && Assigns(slots[w], key) && forall v :: 0 <= v < w ==> !Assigns(slots[v], key)
  }

  ghost predicate LastAt(slots: seq<Slot>, key: string, w: int) {
    0 <= w < |slots| && Assigns(slots[w], key) && forall v :: w < v < |slots| ==> !Assigns(slots[v], key)
  }

  /** The keys: those there were, where they were, then the new ones in the order of their first assignments. */
  ghost predicate KeysAssigned(initial: Output, slots: seq<Slot>, out: Output) {
    && IsOutput(out) && |initial| <= |out|
    && (forall a :: 0 <= a < |initial| ==> out[a].0 == initial[a].0)
    && (forall w :: 0 <= w < |slots| && slots[w].Some? ==> Has(out, slots[w].value.0))
    && (forall a :: |initial| <= a < |out| ==> Written(slots, out[a].0))
    && (forall a, b, v, w ::
          |initial| <= a < b < |out| && FirstAt(slots, out[a].0, v) && FirstAt(slots, out[b].0, w) ==> v < w)
  }

  /** The values: that of the key's last assignment, or what was there. */
  ghost predicate ValuesAssigned(initial: Output, slots: seq<Slot>, out: Output) {
    && (forall a, w :: 0 <= a < |out| && LastAt(slots, out[a].0, w) ==> out[a].1 == slots[w].value.1)
    && (forall a :: 0 <= a < |initial| && a < |out| && (forall w :: 0 <= w < |slots| ==> !Assigns(slots[w], out[a].0))
          ==> out[a].1 == initial[a].1)
  }

  /** `out` is the object `initial` after these assignments. */
  ghost predicate Assigned(initial: Output, slots: seq<Slot>, out: Output) {
    KeysAssigned(initial, slots, out) && ValuesAssigned(initial, slots, out)
  }

  lemma AssignedNothing(initial: Output)
    requires IsOutput(initial)
    ensures Assigned(initial, [], initial)
  {
  }

  lemma PutBehind(out: Output, at: nat, pair: (string, Item))
    requires out != [] && at < |out|
    ensures at < |out| - 1 ==> [out[0]] + out[1..][at := pair] == out[at + 1 := pair]
    ensures [out[0]] + (out[1..] + [pair]) == out + [pair]
  {
  }

  /** A key that is there is overwritten in place; a new one goes last. */
  lemma {:induction false} PutShape(out: Output, key: string, value: Item) returns (at: nat)
    ensures at <= |out| && (forall a :: 0 <= a < at ==> out[a].0 != key)
    ensures if at < |out| then out[at].0 == key && Put(out, key, value) == out[at := (key, value)]
            else Put(out, key, value) == out + [(key, value)]
  {
    at := 0;
    if out != [] && out[0].0 != key {
      var rest := PutShape(out[1..], key, value);
      at := rest + 1;
      forall a | 0 <= a < at
        ensures out[a].0 != key
      {
        assert a > 0 ==> out[1..][a - 1] == out[a];
      }
      PutBehind(out, rest, (key, value));
    }
  }

  /** With one more assignment, which keys were assigned first or last where. */
  lemma FirstMore(slots: seq<Slot>, slot: Slot, key: string, w: int)
    ensures FirstAt(slots + [slot], key, w)
        <==> FirstAt(slots, key, w) || (w == |slots| && Assigns(slot, key) && forall v :: !FirstAt(slots, key, v))
  {
    var more := slots + [slot];
    assert forall v :: 0 <= v < |slots| ==> more[v] == slots[v];
    if FirstAt(more, key, w) && w == |slots| {
      forall v
        ensures !FirstAt(slots, key, v)
      {
        assert 0 <= v < |slots| ==> !Assigns(more[v], key);
      }
    }
    if w == |slots| && Assigns(slot, key) && (forall v :: !FirstAt(slots, key, v)) {
      forall v | 0 <= v < w
        ensures !Assigns(more[v], key)
      {
        if Assigns(slots[v], key) {
          var first := FirstExists(slots, key, v);
        }
      }
    }
  }

  lemma {:induction false} FirstExists(slots: seq<Slot>, key: string, w: nat) returns (first: nat)
    requires w < |slots| && Assigns(slots[w], key)
    ensures FirstAt(slots, key, first) && first <= w
  {
    first := w;
    if v: nat :| v < w && Assigns(slots[v], key) {
      first := FirstExists(slots, key, v);
    }
  }

  lemma LastExists(slots: seq<Slot>, key: string, w: nat) returns (last: nat)
    requires w < |slots| && Assigns(slots[w], key)
    ensures LastAt(slots, key, last) && w <= last
    decreases |slots| - w
  {
    last := w;
    if v: nat :| w < v < |slots| && Assigns(slots[v], key) {
      last := LastExists(slots, key, v);
    }
  }

  lemma LastMore(slots: seq<Slot>, slot: Slot, key: string, w: int)
    ensures LastAt(slots + [slot], key, w)
        <==> if Assigns(slot, key) then w == |slots| else LastAt(slots, key, w)
  {
    var more := slots + [slot];
    assert forall v :: 0 <= v < |slots| ==> more[v] == slots[v];
    assert more[|slots|] == slot;
  }

  /** An assignment left out changes nothing. */
  lemma AssignedNone(initial: Output, slots: seq<Slot>, out: Output)
    requires Assigned(initial, slots, out)
    ensures Assigned(initial, slots + [None], out)
  {
    var more: seq<Slot> := slots + [None];
    assert forall w :: 0 <= w < |slots| ==> more[w] == slots[w];
    NoneKeys(initial, slots, out, more);
    NoneValues(initial, slots, out, more);
  }

  lemma NoneKeys(initial: Output, slots: seq<Slot>, out: Output, more: seq<Slot>)
    requires KeysAssigned(initial, slots, out) && more == slots + [None]
    ensures KeysAssigned(initial, more, out)
  {
    forall key, w
      ensures FirstAt(more, key, w) <==> FirstAt(slots, key, w)
    {
      FirstMore(slots, None, key, w);
    }
    hide FirstAt;
    forall a | |initial| <= a < |out|
      ensures Written(more, out[a].0)
    {
      var w :| 0 <= w < |slots| && Assigns(slots[w], out[a].0);
      assert Assigns(more[w], out[a].0);
    }
  }

  lemma NoneValues(initial: Output, slots: seq<Slot>, out: Output, more: seq<Slot>)
    requires ValuesAssigned(initial, slots, out) && more == slots + [None]
    ensures ValuesAssigned(initial, more, out)
  {
    forall key, w
      ensures LastAt(more, key, w) <==> LastAt(slots, key, w)
    {
      LastMore(slots, None, key, w);
    }
    hide LastAt;
    forall a | 0 <= a < |initial| && a < |out| && (forall w :: 0 <= w < |more| ==> !Assigns(more[w], out[a].0))
      ensures out[a].1 == initial[a].1
    {
      assert forall w :: 0 <= w < |slots| ==> slots[w] == more[w];
    }
  }

  lemma PutKeys(initial: Output, slots: seq<Slot>, out: Output, key: string, value: Item)
    requires KeysAssigned(initial, slots, out)
    ensures KeysAssigned(initial, slots + [Some((key, value))], Put(out, key, value))
  {
    hide Put;
    var at := PutShape(out, key, value);
    var put, more := Put(out, key, value), slots + [Some((key, value))];
    assert put[at].0 == key && |put| == if at < |out| then |out| else |out| + 1;
    assert forall a :: 0 <= a < |out| ==> put[a].0 == out[a].0;
    assert IsOutput(put);
    HasMore(slots, out, put, key, value, at);
    forall a | |initial| <= a < |out|
      ensures Written(more, put[a].0) && forall w :: FirstAt(more, put[a].0, w) ==> FirstAt(slots, put[a].0, w)
    {
      FirstKept(slots, Some((key, value)), out[a].0);
    }
    if at == |out| {
      NewIsLast(slots, out, key, value);
      assert put[|out|].0 == key && Assigns(more[|slots|], key);
    }
    FirstBefore(initial, slots, out, put, more);
  }

  lemma HasMore(slots: seq<Slot>, out: Output, put: Output, key: string, value: Item, at: nat)
    requires forall w :: 0 <= w < |slots| && slots[w].Some? ==> Has(out, slots[w].value.0)
    requires |out| <= |put| && (forall a :: 0 <= a < |out| ==> put[a].0 == out[a].0) && at < |put| && put[at].0 == key
    ensures var more := slots + [Some((key, value))];
            forall w :: 0 <= w < |more| && more[w].Some? ==> Has(put, more[w].value.0)
  {
    var more := slots + [Some((key, value))];
    forall w | 0 <= w < |more| && more[w].Some?
      ensures Has(put, more[w].value.0)
    {
      if w < |slots| {
        assert more[w] == slots[w] && Has(out, slots[w].value.0);
        var a :| 0 <= a < |out| && out[a].0 == slots[w].value.0;
        assert put[a].0 == more[w].value.0;
      } else {
        assert put[at].0 == key;
      }
    }
  }

  lemma FirstKept(slots: seq<Slot>, slot: Slot, key: string)
    requires Written(slots, key)
    ensures Written(slots + [slot], key)
    ensures forall w :: FirstAt(slots + [slot], key, w) ==> FirstAt(slots, key, w)
  {
    var at :| 0 <= at < |slots| && Assigns(slots[at], key);
    assert Assigns((slots + [slot])[at], key);
    var first := FirstExists(slots, key, at);
    forall w
      ensures FirstAt(slots + [slot], key, w) ==> FirstAt(slots, key, w)
    {
      FirstMore(slots, slot, key, w);
    }
  }

  /** A key that is not in the output has not been assigned, so its first assignment is the new one. */
  lemma NewIsLast(slots: seq<Slot>, out: Output, key: string, value: Item)
    requires forall w :: 0 <= w < |slots| && slots[w].Some? ==> Has(out, slots[w].value.0)
    requires forall a :: 0 <= a < |out| ==> out[a].0 != key
    ensures FirstAt(slots + [Some((key, value))], key, |slots|)
    ensures forall w :: FirstAt(slots + [Some((key, value))], key, w) ==> w == |slots|
  {
    var slot := Some((key, value));
    forall w
      ensures !FirstAt(slots, key, w)
    {
      assert 0 <= w < |slots| && slots[w].Some? ==> Has(out, slots[w].value.0);
    }
    FirstMore(slots, slot, key, |slots|);
    forall w
      ensures FirstAt(slots + [slot], key, w) ==> w == |slots|
    {
      FirstMore(slots, slot, key, w);
    }
  }

  /** The order of the new keys. */
  lemma FirstBefore(initial: Output, slots: seq<Slot>, out: Output, put: Output, more: seq<Slot>)
    requires KeysAssigned(initial, slots, out) && |out| <= |put| <= |out| + 1 && |more| == |slots| + 1
    requires forall a :: 0 <= a < |out| ==> put[a].0 == out[a].0
    requires forall a, w :: |initial| <= a < |out| && FirstAt(more, put[a].0, w) ==> FirstAt(slots, put[a].0, w)
    requires |put| > |out| ==> forall w :: FirstAt(more, put[|out|].0, w) ==> w == |slots|
    ensures forall a, b, v, w ::
              |initial| <= a < b < |put| && FirstAt(more, put[a].0, v) && FirstAt(more, put[b].0, w) ==> v < w
  {
    forall a, b, v, w | |initial| <= a < b < |put| && FirstAt(more, put[a].0, v) && FirstAt(more, put[b].0, w)
      ensures v < w
    {
      assert FirstAt(slots, out[a].0, v);
      if b < |out| {
        assert FirstAt(slots, out[b].0, w);
      }
    }
  }

  lemma PutValues(initial: Output, slots: seq<Slot>, out: Output, key: string, value: Item)
    requires Assigned(initial, slots, out)
    ensures ValuesAssigned(initial, slots + [Some((key, value))], Put(out, key, value))
  {
    var at := PutShape(out, key, value);
    var slot, put := Some((key, value)), Put(out, key, value);
    var more := slots + [slot];
    assert forall w :: 0 <= w < |slots| ==> more[w] == slots[w];
    assert more[|slots|] == slot && Assigns(slot, key);
    assert at < |put| && put[at] == (key, value);
    assert forall a :: 0 <= a < |put| && a != at ==> a < |out| && put[a] == out[a] && out[a].0 != key;
    forall a, w | 0 <= a < |put| && LastAt(more, put[a].0, w)
      ensures put[a].1 == more[w].value.1
    {
      LastMore(slots, slot, put[a].0, w);
    }
    forall a | 0 <= a < |initial| && a < |put| && (forall w :: 0 <= w < |more| ==> !Assigns(more[w], put[a].0))
      ensures put[a].1 == initial[a].1
    {
      assert !Assigns(more[|slots|], put[a].0);
      assert forall w :: 0 <= w < |slots| ==> !Assigns(slots[w], put[a].0);
    }
  }

  lemma AssignedSome(initial: Output, slots: seq<Slot>, out: Output, key: string, value: Item)
    requires Assigned(initial, slots, out)
    ensures Assigned(initial, slots + [Some((key, value))], Put(out, key, value))
  {
    hide Put;
    PutKeys(initial, slots, out, key, value);
    PutValues(initial, slots, out, key, value);
  }

  // ---------------------------------------------------------------- what a field holds

  /** The object owns this field, under either spelling. */
  predicate Owns(t: MessageType, d: Data, i: nat)
    requires i < |t.fields|
  {
    exists key :: key in d.own && Spells(t, i, key)
  }

  /** The field's value: under its own name if that is own, else under the other spelling, else inherited. */
  function Held(t: MessageType, d: Data, i: nat): Item
    requires i < |t.fields|
  {
    var name := t.fields[i].name;
    if name in d.own then d.own[name]
    else if t.alias.Some? && t.alias.value.public == name && t.alias.value.bridge in d.own
    then d.own[t.alias.value.bridge]
    else Inherited(d.proto, name)
  }

  predicate SameKeys(a: seq<(string, Item)>, b: seq<(string, Item)>) {
    |a| == |b| && forall k :: 0 <= k < |a| ==> a[k].0 == b[k].0
  }

  // ---------------------------------------------------------------- toObject

  /** The field shows in the result: a non-empty list, a non-empty table, or an own value that is not nullish. */
  predicate Shows(t: MessageType, d: Data, i: nat)
    requires i < |t.fields|
  {
    var v := Held(t, d, i);
    match t.fields[i].shape
    case Repeated => v.List? && v.items != []
    case Map => EntriesOf(v).Some? && EntriesOf(v).value != []
    case Singular => Owns(t, d, i) && v != Undefined && v != Null
  }

  /** A list item by item and a table entry by entry, each where it was; a single value as a whole. */
  ghost predicate Converted(f: Field, v: Item, convert: ToField, r: Item) {
    match f.shape
    case Repeated =>
      v.List? && r.List? && |r.items| == |v.items|
      && forall k :: 0 <= k < |v.items| ==> r.items[k] == convert(f, v.items[k])
    case Map =>
      EntriesOf(v).Some? && r.Table? && SameKeys(EntriesOf(v).value, r.entries)
      && forall k :: 0 <= k < |r.entries| ==> r.entries[k].1 == convert(f, EntriesOf(v).value[k].1)
    case Singular => r == convert(f, v)
  }

  /** The group the field names itself in. */
  function GroupOf(t: MessageType, oneofs: bool, i: nat): Option<string>
    requires i < |t.fields|
  {
    if oneofs && t.fields[i].shape.Singular? then t.fields[i].oneof else None
  }

  /** The assignment of a field's value. */
  ghost predicate ValueSlot(t: MessageType, d: Data, convert: ToField, i: nat, slot: Slot)
    requires i < |t.fields|
  {
    if Shows(t, d, i)
    then Assigns(slot, t.fields[i].name) && Converted(t.fields[i], Held(t, d, i), convert, slot.value.1)
    else slot == None
  }

  /** The assignment of its name to its group. */
  ghost predicate GroupSlot(t: MessageType, d: Data, oneofs: bool, i: nat, slot: Slot)
    requires i < |t.fields|
  {
    slot == if Shows(t, d, i) && GroupOf(t, oneofs, i).Some?
            then Some((GroupOf(t, oneofs, i).value, Label(t.fields[i].name))) else None
  }

  /** Two assignments for each field, in the order of the schema: its value, then its group. */
  ghost predicate ObjectSlots(t: MessageType, d: Data, convert: ToField, oneofs: bool, slots: seq<Slot>) {
    |slots| <= 2 * |t.fields|
    && forall w :: 0 <= w < |slots| ==>
         if w % 2 == 0 then ValueSlot(t, d, convert, w / 2, slots[w]) else GroupSlot(t, d, oneofs, w / 2, slots[w])
  }

  /** What toObject makes of `d`, `initial` being what the pass for defaults has written. */
  ghost predicate ObjectForm(t: MessageType, d: Data, convert: ToField, oneofs: bool, initial: Output, out: Output) {
    exists slots :: |slots| == 2 * |t.fields| && ObjectSlots(t, d, convert, oneofs, slots)
                    && Assigned(initial, slots, out)
  }

  // ---------------------------------------------------------------- fromObject

  /** The field is taken: its value is there and has the shape of the field. */
  predicate IsThere(t: MessageType, d: Data, i: nat)
    requires i < |t.fields|
  {
    Held(t, d, i) != Undefined && Held(t, d, i) != Null
  }

  predicate TakenAs<E>(r: Result<Option<Item>, E>, item: Item) {
    r.Ok? && item == (match r.value case Some(v) => v case None => Undefined)
  }

  /** Every value converts, each where it was; an undefined one stays, except as the value of a single field. */
  ghost predicate Taken<E>(f: Field, v: Item, convert: FromField<E>, r: Item) {
    match f.shape
    case Repeated =>
      v.List? && r.List? && |r.items| == |v.items|
      && forall k :: 0 <= k < |v.items| ==> TakenAs(convert(f, v.items[k]), r.items[k])
    case Map =>
      EntriesOf(v).Some? && r.Table? && SameKeys(EntriesOf(v).value, r.entries)
      && forall k :: 0 <= k < |r.entries| ==> TakenAs(convert(f, EntriesOf(v).value[k].1), r.entries[k].1)
    case Singular => convert(f, v) == Ok(Some(r))
  }

  ghost predicate TakenSlot<E>(t: MessageType, d: Data, convert: FromField<E>, i: nat, slot: Slot)
    requires i < |t.fields|
  {
    if !IsThere(t, d, i) || (t.fields[i].shape.Singular? && convert(t.fields[i], Held(t, d, i)) == Ok(None))
    then slot == None
    else Assigns(slot, t.fields[i].name) && Taken(t.fields[i], Held(t, d, i), convert, slot.value.1)
  }

  /** The first of these that throws does so with this error. */
  ghost predicate FirstThrows<E>(f: Field, items: seq<Item>, convert: FromField<E>, e: E) {
    exists k :: 0 <= k < |items| && convert(f, items[k]) == Err(e)
                && forall j :: 0 <= j < k ==> convert(f, items[j]).Ok?
  }

  function ValuesOf(entries: seq<(string, Item)>): seq<Item> {
    seq(|entries|, k requires 0 <= k < |entries| => entries[k].1)
  }

  /** How a field makes the conversion fail. */
  ghost predicate FailsWith<E>(t: MessageType, d: Data, convert: FromField<E>, i: nat, e: Failure<E>)
    requires i < |t.fields|
  {
    var f, v := t.fields[i], Held(t, d, i);
    IsThere(t, d, i) &&
    match f.shape
    case Repeated =>
      if v.List? then e.Thrown? && FirstThrows(f, v.items, convert, e.error) else e == ArrayExpected(f.name)
    case Map =>
      if EntriesOf(v).Some? then e.Thrown? && FirstThrows(f, ValuesOf(EntriesOf(v).value), convert, e.error)
      else e == ObjectExpected(f.name)
    case Singular => e.Thrown? && convert(f, v) == Err(e.error)
  }

  /** The fields up to some position, all taken. */
  ghost predicate TakenSlots<E>(t: MessageType, d: Data, convert: FromField<E>, slots: seq<Slot>) {
    |slots| <= |t.fields| && forall i :: 0 <= i < |slots| ==> TakenSlot(t, d, convert, i, slots[i])
  }

  /** What fromObject makes of `d`, `initial` being the fresh instance: every field taken, or the first failure. */
  ghost predicate InstanceForm<E>(t: MessageType, d: Data, convert: FromField<E>, initial: Output,
                                  r: Result<Output, Failure<E>>)
  {
    match r
    case Ok(out) =>
      exists slots :: |slots| == |t.fields| && TakenSlots(t, d, convert, slots) && Assigned(initial, slots, out)
    case Err(e) =>
      exists slots :: |slots| < |t.fields| && TakenSlots(t, d, convert, slots)
                      && FailsWith(t, d, convert, |slots|, e)
  }

  // ---------------------------------------------------------------- what that comes to

  /** The key at this position of the output is the name of this field. */
  predicate IsField(t: MessageType, out: Output, a: int, i: int) {
    0 <= a < |out| && 0 <= i < |t.fields| && out[a].0 == t.fields[i].name
  }

  /** No group has the name of a field, as in every schema the language allows. */
  predicate GroupsApart(t: MessageType) {
    forall i, j :: 0 <= i < |t.fields| && 0 <= j < |t.fields| && t.fields[i].oneof.Some? ==>
      t.fields[i].oneof.value != t.fields[j].name
  }

  lemma SlotsOfName(t: MessageType, d: Data, convert: ToField, oneofs: bool, slots: seq<Slot>, i: nat)
    requires WellFormedType(t) && GroupsApart(t) && ObjectSlots(t, d, convert, oneofs, slots)
    requires i < |t.fields| && |slots| == 2 * |t.fields|
    ensures forall w :: 0 <= w < |slots| ==> (Assigns(slots[w], t.fields[i].name) <==> w == 2 * i && Shows(t, d, i))
  {
    hide Shows, Converted;
    forall w | 0 <= w < |slots|
      ensures Assigns(slots[w], t.fields[i].name) <==> w == 2 * i && Shows(t, d, i)
    {
      if w % 2 == 0 {
        assert ValueSlot(t, d, convert, w / 2, slots[w]);
        assert w / 2 < i ==> t.fields[w / 2].name != t.fields[i].name;
        assert w / 2 > i ==> t.fields[w / 2].name != t.fields[i].name;
      } else {
        assert GroupSlot(t, d, oneofs, w / 2, slots[w]);
      }
    }
  }

  lemma SlotsOfGroup(t: MessageType, d: Data, convert: ToField, oneofs: bool, slots: seq<Slot>, group: string)
    requires ObjectSlots(t, d, convert, oneofs, slots) && |slots| == 2 * |t.fields| && !HasField(t, group)
    ensures forall w :: 0 <= w < |slots| ==>
              (Assigns(slots[w], group) <==>
                w % 2 == 1 && Shows(t, d, w / 2) && GroupOf(t, oneofs, w / 2) == Some(group))
  {
    hide Shows, Converted;
    forall w | 0 <= w < |slots|
      ensures Assigns(slots[w], group) <==>
                w % 2 == 1 && Shows(t, d, w / 2) && GroupOf(t, oneofs, w / 2) == Some(group)
    {
      if w % 2 == 0 {
        assert ValueSlot(t, d, convert, w / 2, slots[w]);
        assert t.fields[w / 2].name != group;
      } else {
        assert GroupSlot(t, d, oneofs, w / 2, slots[w]);
      }
    }
  }

  /** From an empty output a key is there exactly when some assignment made it. */
  lemma WrittenMeansHas(slots: seq<Slot>, out: Output, key: string)
    requires KeysAssigned([], slots, out)
    ensures Has(out, key) <==> Written(slots, key)
  {
    if Has(out, key) {
      var a :| 0 <= a < |out| && out[a].0 == key;
      assert Written(slots, out[a].0);
    }
    if Written(slots, key) {
      var w :| 0 <= w < |slots| && Assigns(slots[w], key);
      assert Has(out, slots[w].value.0);
    }
  }

  /**
   * toObject into an empty object. A field's name is a key exactly when the field holds a non-empty list, a non-empty
   * table, or an own value that is not nullish; what is there is that list item by item, that table entry by entry,
   * or that value, converted, and fields keep the order of the schema.
   */
  lemma ToObjectFields(t: MessageType, d: Data, convert: ToField, oneofs: bool, out: Output)
    requires WellFormedType(t) && GroupsApart(t) && ObjectForm(t, d, convert, oneofs, [], out)
    ensures IsOutput(out)
    ensures forall i :: 0 <= i < |t.fields| ==> (Has(out, t.fields[i].name) <==> Shows(t, d, i))
    ensures forall a, i :: IsField(t, out, a, i) ==> Converted(t.fields[i], Held(t, d, i), convert, out[a].1)
    ensures forall a, b, i, j :: a < b && IsField(t, out, a, i) && IsField(t, out, b, j) ==> i < j
  {
    var slots :| |slots| == 2 * |t.fields| && ObjectSlots(t, d, convert, oneofs, slots) && Assigned([], slots, out);
    hide Shows, Converted, Held;
    forall i | 0 <= i < |t.fields|
      ensures Has(out, t.fields[i].name) <==> Shows(t, d, i)
      ensures forall a :: 0 <= a < |out| && out[a].0 == t.fields[i].name
                ==> Converted(t.fields[i], Held(t, d, i), convert, out[a].1) && FirstAt(slots, out[a].0, 2 * i)
    {
      FieldComes(t, d, convert, oneofs, slots, out, i);
    }
    forall a, b, i, j | a < b && IsField(t, out, a, i) && IsField(t, out, b, j)
      ensures i < j
    {
      assert FirstAt(slots, out[a].0, 2 * i) && FirstAt(slots, out[b].0, 2 * j);
    }
  }

  lemma FieldComes(t: MessageType, d: Data, convert: ToField, oneofs: bool, slots: seq<Slot>, out: Output, i: nat)
    requires WellFormedType(t) && GroupsApart(t) && ObjectSlots(t, d, convert, oneofs, slots)
    requires |slots| == 2 * |t.fields| && Assigned([], slots, out) && i < |t.fields|
    ensures Has(out, t.fields[i].name) <==> Shows(t, d, i)
    ensures forall a :: 0 <= a < |out| && out[a].0 == t.fields[i].name
              ==> Converted(t.fields[i], Held(t, d, i), convert, out[a].1) && FirstAt(slots, out[a].0, 2 * i)
  {
    hide Shows, Converted, Held;
    SlotsOfName(t, d, convert, oneofs, slots, i);
    WrittenMeansHas(slots, out, t.fields[i].name);
    assert (2 * i) % 2 == 0 && (2 * i) / 2 == i;
    assert ValueSlot(t, d, convert, i, slots[2 * i]);
    forall a | 0 <= a < |out| && out[a].0 == t.fields[i].name
      ensures Converted(t.fields[i], Held(t, d, i), convert, out[a].1) && FirstAt(slots, out[a].0, 2 * i)
    {
      assert Has(out, t.fields[i].name);
      assert LastAt(slots, out[a].0, 2 * i);
    }
  }

  /** The member of a group that is held last, in the order of the schema. */
  predicate LastHeld(t: MessageType, d: Data, group: string, i: int) {
    0 <= i < |t.fields| && Shows(t, d, i) && GroupOf(t, true, i) == Some(group)
    && forall j :: i < j < |t.fields| ==> !(Shows(t, d, j) && GroupOf(t, true, j) == Some(group))
  }

  lemma GroupIsWritten(t: MessageType, d: Data, convert: ToField, slots: seq<Slot>, group: string)
    requires ObjectSlots(t, d, convert, true, slots) && |slots| == 2 * |t.fields| && !HasField(t, group)
    ensures Written(slots, group)
       <==> exists i :: 0 <= i < |t.fields| && Shows(t, d, i) && GroupOf(t, true, i) == Some(group)
  {
    SlotsOfGroup(t, d, convert, true, slots, group);
    hide Shows, ObjectSlots;
    if Written(slots, group) {
      var w :| 0 <= w < |slots| && Assigns(slots[w], group);
      assert Shows(t, d, w / 2) && GroupOf(t, true, w / 2) == Some(group);
    }
    if i :| 0 <= i < |t.fields| && Shows(t, d, i) && GroupOf(t, true, i) == Some(group) {
      assert (2 * i + 1) % 2 == 1 && (2 * i + 1) / 2 == i;
      assert Assigns(slots[2 * i + 1], group);
    }
  }

  lemma LastHeldWrites(t: MessageType, d: Data, convert: ToField, slots: seq<Slot>, group: string, i: nat)
    requires ObjectSlots(t, d, convert, true, slots) && |slots| == 2 * |t.fields| && !HasField(t, group)
    requires LastHeld(t, d, group, i)
    ensures LastAt(slots, group, 2 * i + 1) && slots[2 * i + 1].value.1 == Label(t.fields[i].name)
  {
    hide Shows;
    SlotsOfGroup(t, d, convert, true, slots, group);
    assert (2 * i + 1) % 2 == 1 && (2 * i + 1) / 2 == i;
    assert GroupSlot(t, d, true, i, slots[2 * i + 1]);
    hide ObjectSlots;
    forall v | 2 * i + 1 < v < |slots|
      ensures !Assigns(slots[v], group)
    {
      assert v % 2 == 1 ==> i < v / 2 < |t.fields|;
    }
  }

  /** With `oneofs`, the key of a group is there exactly when a member is held, and holds the name of the last one. */
  lemma ToObjectGroups(t: MessageType, d: Data, convert: ToField, out: Output, group: string)
    requires WellFormedType(t) && ObjectForm(t, d, convert, true, [], out) && !HasField(t, group)
    ensures Has(out, group) <==> exists i :: 0 <= i < |t.fields| && Shows(t, d, i) && GroupOf(t, true, i) == Some(group)
    ensures forall a, i :: 0 <= a < |out| && out[a].0 == group && LastHeld(t, d, group, i)
              ==> out[a].1 == Label(t.fields[i].name)
  {
    var slots :| |slots| == 2 * |t.fields| && ObjectSlots(t, d, convert, true, slots) && Assigned([], slots, out);
    hide Shows, ObjectSlots, LastHeld, LastAt, GroupOf, HasField, WellFormedType;
    GroupIsWritten(t, d, convert, slots, group);
    WrittenMeansHas(slots, out, group);
    forall a, i | 0 <= a < |out| && out[a].0 == group && LastHeld(t, d, group, i)
      ensures out[a].1 == Label(t.fields[i].name)
    {
      HeldInRange(t, d, group, i);
      LastHeldWrites(t, d, convert, slots, group, i);
    }
  }

  lemma HeldInRange(t: MessageType, d: Data, group: string, i: int)
    requires LastHeld(t, d, group, i)
    ensures 0 <= i < |t.fields|
  {
  }

  /** Nothing else is a key. */
  lemma ToObjectKeys(t: MessageType, d: Data, convert: ToField, oneofs: bool, out: Output, key: string)
    requires ObjectForm(t, d, convert, oneofs, [], out) && Has(out, key)
    ensures exists i :: 0 <= i < |t.fields| && Shows(t, d, i)
                        && (t.fields[i].name == key || GroupOf(t, oneofs, i) == Some(key))
  {
    var slots :| |slots| == 2 * |t.fields| && ObjectSlots(t, d, convert, oneofs, slots) && Assigned([], slots, out);
    hide Shows, Converted;
    WrittenMeansHas(slots, out, key);
    var w :| 0 <= w < |slots| && Assigns(slots[w], key);
    if w % 2 == 0 {
      assert ValueSlot(t, d, convert, w / 2, slots[w]);
    } else {
      assert GroupSlot(t, d, oneofs, w / 2, slots[w]);
    }
    assert Shows(t, d, w / 2);
  }

  // ---------------------------------------------------------------- and for fromObject

  /** The field is written: it is there, and not a single value that converts to undefined. */
  ghost predicate Writes<E>(t: MessageType, d: Data, convert: FromField<E>, i: nat)
    requires i < |t.fields|
  {
    IsThere(t, d, i) && !(t.fields[i].shape.Singular? && convert(t.fields[i], Held(t, d, i)) == Ok(None))
  }

  ghost predicate WritesKey<E>(t: MessageType, d: Data, convert: FromField<E>, key: string) {
    exists i :: 0 <= i < |t.fields| && t.fields[i].name == key && Writes(t, d, convert, i)
  }

  /**
   * fromObject, when it gives an instance: a field that is written is a key and holds what it is taken as, any other
   * is as the fresh instance has it, and the keys that were not there come last, in the order of the schema.
   */
  lemma FromObjectFields<E>(t: MessageType, d: Data, convert: FromField<E>, initial: Output, out: Output)
    requires WellFormedType(t) && InstanceForm(t, d, convert, initial, Ok(out))
    ensures IsOutput(out) && |initial| <= |out| && (forall a :: 0 <= a < |initial| ==> out[a].0 == initial[a].0)
    ensures forall i :: 0 <= i < |t.fields| && Writes(t, d, convert, i) ==> Has(out, t.fields[i].name)
    ensures forall a, i :: IsField(t, out, a, i) && Writes(t, d, convert, i) ==>
              Taken(t.fields[i], Held(t, d, i), convert, out[a].1)
    ensures forall a :: 0 <= a < |initial| && (forall i :: IsField(t, out, a, i) ==> !Writes(t, d, convert, i)) ==>
              out[a] == initial[a]
    ensures forall a :: |initial| <= a < |out| ==> WritesKey(t, d, convert, out[a].0)
    ensures forall a, b, i, j :: |initial| <= a < b && IsField(t, out, a, i) && IsField(t, out, b, j) ==> i < j
  {
    var slots :| |slots| == |t.fields| && TakenSlots(t, d, convert, slots) && Assigned(initial, slots, out);
    hide Taken, Held, Writes, TakenSlots;
    SlotsAreNamed(t, d, convert, slots);
    TakenValues(t, d, convert, initial, slots, out);
    TakenOrder(t, d, convert, initial, slots, out);
  }

  /** One assignment for each field that is written, under its name. */
  ghost predicate Named<E>(t: MessageType, d: Data, convert: FromField<E>, slots: seq<Slot>) {
    |slots| == |t.fields|
    && forall i :: 0 <= i < |slots| ==>
         && (slots[i].Some? <==> Writes(t, d, convert, i))
         && (slots[i].Some? ==> slots[i].value.0 == t.fields[i].name
                                && Taken(t.fields[i], Held(t, d, i), convert, slots[i].value.1))
  }

  lemma SlotsAreNamed<E>(t: MessageType, d: Data, convert: FromField<E>, slots: seq<Slot>)
    requires |slots| == |t.fields| && TakenSlots(t, d, convert, slots)
    ensures Named(t, d, convert, slots)
  {
    hide Taken, Held, IsThere;
    forall i | 0 <= i < |slots|
      ensures slots[i].Some? <==> Writes(t, d, convert, i)
      ensures slots[i].Some? ==> slots[i].value.0 == t.fields[i].name
                                 && Taken(t.fields[i], Held(t, d, i), convert, slots[i].value.1)
    {
      assert TakenSlot(t, d, convert, i, slots[i]);
    }
  }

  lemma OneSlotForName<E>(t: MessageType, d: Data, convert: FromField<E>, slots: seq<Slot>, i: nat)
    requires WellFormedType(t) && Named(t, d, convert, slots) && i < |t.fields|
    ensures forall w :: 0 <= w < |slots| ==> (Assigns(slots[w], t.fields[i].name) <==> w == i && slots[i].Some?)
  {
    forall w | 0 <= w < |slots| && Assigns(slots[w], t.fields[i].name)
      ensures w == i
    {
    }
  }

  lemma TakenValues<E>(t: MessageType, d: Data, convert: FromField<E>, initial: Output, slots: seq<Slot>, out: Output)
    requires WellFormedType(t) && Named(t, d, convert, slots) && Assigned(initial, slots, out)
    ensures forall i :: 0 <= i < |t.fields| && Writes(t, d, convert, i) ==> Has(out, t.fields[i].name)
    ensures forall a, i :: IsField(t, out, a, i) && Writes(t, d, convert, i) ==>
              Taken(t.fields[i], Held(t, d, i), convert, out[a].1)
    ensures forall a :: 0 <= a < |initial| && (forall i :: IsField(t, out, a, i) ==> !Writes(t, d, convert, i)) ==>
              out[a] == initial[a]
  {
    hide Taken, Held, Writes;
    forall i | 0 <= i < |t.fields| && Writes(t, d, convert, i)
      ensures Has(out, t.fields[i].name)
    {
      assert slots[i].Some?;
    }
    forall a, i | IsField(t, out, a, i) && Writes(t, d, convert, i)
      ensures Taken(t.fields[i], Held(t, d, i), convert, out[a].1)
    {
      OneSlotForName(t, d, convert, slots, i);
      assert LastAt(slots, out[a].0, i);
    }
    forall a | 0 <= a < |initial| && forall i :: IsField(t, out, a, i) ==> !Writes(t, d, convert, i)
      ensures out[a] == initial[a]
    {
      forall w | 0 <= w < |slots|
        ensures !Assigns(slots[w], out[a].0)
      {
        assert Assigns(slots[w], out[a].0) ==> IsField(t, out, a, w);
      }
      assert out[a].0 == initial[a].0;
    }
  }

  lemma TakenOrder<E>(t: MessageType, d: Data, convert: FromField<E>, initial: Output, slots: seq<Slot>, out: Output)
    requires WellFormedType(t) && Named(t, d, convert, slots) && KeysAssigned(initial, slots, out)
    ensures forall a :: |initial| <= a < |out| ==> WritesKey(t, d, convert, out[a].0)
    ensures forall a, b, i, j :: |initial| <= a < b && IsField(t, out, a, i) && IsField(t, out, b, j) ==> i < j
  {
    hide Taken, Held, Writes;
    forall a | |initial| <= a < |out|
      ensures WritesKey(t, d, convert, out[a].0)
    {
      assert Written(slots, out[a].0);
      var w :| 0 <= w < |slots| && Assigns(slots[w], out[a].0);
      assert t.fields[w].name == out[a].0 && Writes(t, d, convert, w);
    }
    forall a, b, i, j | |initial| <= a < b && IsField(t, out, a, i) && IsField(t, out, b, j)
      ensures i < j
    {
      assert Written(slots, out[a].0) && Written(slots, out[b].0);
      OneSlotForName(t, d, convert, slots, i);
      OneSlotForName(t, d, convert, slots, j);
      assert FirstAt(slots, out[a].0, i) && FirstAt(slots, out[b].0, j);
    }
  }

  /** It fails exactly when some field does, and a field that is taken does not. */
  lemma FromObjectFails<E>(t: MessageType, d: Data, convert: FromField<E>, initial: Output,
                           r: Result<Output, Failure<E>>)
    requires InstanceForm(t, d, convert, initial, r)
    ensures r.Err? <==> exists i, e :: 0 <= i < |t.fields| && FailsWith(t, d, convert, i, e)
    ensures r.Err? ==> exists i :: 0 <= i < |t.fields| && FailsWith(t, d, convert, i, r.error)
                                   && forall j, e :: 0 <= j < i ==> !FailsWith(t, d, convert, j, e)
  {
    forall i, e, slot | 0 <= i < |t.fields| && TakenSlot(t, d, convert, i, slot)
      ensures !FailsWith(t, d, convert, i, e)
    {
      TakenNeverFails(t, d, convert, i, slot, e);
    }
    hide TakenSlot, FailsWith;
    if r.Err? {
      var slots :| |slots| < |t.fields| && TakenSlots(t, d, convert, slots)
                   && FailsWith(t, d, convert, |slots|, r.error);
      forall j, e | 0 <= j < |slots|
        ensures !FailsWith(t, d, convert, j, e)
      {
        assert TakenSlot(t, d, convert, j, slots[j]);
      }
    } else {
      var slots :| |slots| == |t.fields| && TakenSlots(t, d, convert, slots) && Assigned(initial, slots, r.value);
      forall i, e | 0 <= i < |t.fields|
        ensures !FailsWith(t, d, convert, i, e)
      {
        assert TakenSlot(t, d, convert, i, slots[i]);
      }
    }
  }

  lemma TakenNeverFails<E>(t: MessageType, d: Data, convert: FromField<E>, i: nat, slot: Slot, e: Failure<E>)
    requires i < |t.fields| && TakenSlot(t, d, convert, i, slot)
    ensures !FailsWith(t, d, convert, i, e)
  {
    hide Held, EntriesOf;
  }
}
