/**
 * The schema-typed rewrites of src/Compatibility/proto-runtime.ts, on message trees: `Repair` for
 * repairMessage, `Project` for projectAliases, `Hydrate` for hydrate.
 *
 * An object is a finite map from its own keys. `Touches…` is the source's reference test: it says
 * when a rewrite hands back something other than what it was given.
 */
/** The generated message table: which fields a type has, and which of them has two spellings. */
module ProtoSchema {
  import opened Wrappers

  datatype Kind = Signed64 | Unsigned64 | String | Enum | Message | Bytes | OtherScalar

  datatype Shape = Singular | Repeated | Map

  datatype Field = Field(name: string, kind: Kind, typeId: nat, shape: Shape, oneof: Option<string>)

  /** The second spelling of one field: what this library publishes, and what the codec writes. */
  datatype Alias = Alias(public: string, bridge: string)

  datatype MessageType = MessageType(fields: seq<Field>, alias: Option<Alias>)

  predicate HasField(t: MessageType, name: string) { exists i :: 0 <= i < |t.fields| && t.fields[i].name == name }

  predicate WellFormedType(t: MessageType) {
    && (forall i, j :: 0 <= i < j < |t.fields| ==> t.fields[i].name != t.fields[j].name)
    && (t.alias.Some? ==>
          && t.alias.value.public != t.alias.value.bridge
          && !HasField(t, t.alias.value.bridge)
          && (forall i :: 0 <= i < |t.fields| && t.fields[i].name == t.alias.value.public ==>
              t.fields[i].shape == Singular))
  }

  function FieldIn(fields: seq<Field>, name: string): (f: Option<Field>)
    ensures f.Some? ==> f.value in fields && f.value.name == name
    ensures f.None? ==> forall i :: 0 <= i < |fields| ==> fields[i].name != name
  {
    if fields == [] then None
    else if fields[0].name == name then Some(fields[0])
    else FieldIn(fields[1..], name)
  }

  /** Names are distinct, so the lookup finds the field of a name. */
  lemma {:induction false} FieldOfName(fields: seq<Field>, j: nat)
    requires j < |fields| && forall i, k :: 0 <= i < k < |fields| ==> fields[i].name != fields[k].name
    ensures FieldIn(fields, fields[j].name) == Some(fields[j])
  {
    if j > 0 {
      assert fields[0].name != fields[j].name;
      FieldOfName(fields[1..], j - 1);
    }
  }
}

module ProtoValues {
  import opened Wrappers
  import opened JsText
  import opened ProtoSchema

  /** A property key; keys that are array indices are kept apart from names. */
  datatype Key = Name(name: string) | Index(index: nat)

  /**
   * `Other` is any primitive no rewrite looks into; `NaN` is the number that differs from itself. `Held` is an
   * object taken as it is, known by its reference alone: one that no recognised field leads to.
   */
  datatype Js =
    | Undefined | Null | NaN | Number(n: int) | Other(id: nat) | Held(ref: nat)
    | Text(units: Units)
    | Arr(items: seq<Js>)
    | Obj(props: map<Key, Js>)

  predicate IsNullish(v: Js) { v.Undefined? || v.Null? }

  predicate IsObject(v: Js) { v.Arr? || v.Obj? || v.Held? }

  datatype Schema = Schema(messages: seq<MessageType>, enums: seq<map<Units, int>>)

  /** Field names are distinct, a bridge name is no field name, and an aliased field is singular. */
  predicate WellFormed(s: Schema) { forall id :: 0 <= id < |s.messages| ==> WellFormedType(s.messages[id]) }

  /** Which field a key of a message holds: its own name, or the bridge name where the public one is absent. */
  function FieldAt<V>(t: MessageType, props: map<Key, V>, key: Key): Option<Field> {
    if key.Index? then None
    else if FieldIn(t.fields, key.name).Some? then FieldIn(t.fields, key.name)
    else if t.alias.Some? && key.name == t.alias.value.bridge && Name(t.alias.value.public) !in props
    then FieldIn(t.fields, t.alias.value.public)
    else None
  }

  /** The own keys of an array, as a spread into a plain object lists them. */
  function IndexKeys(length: nat): (keys: set<Key>)
    ensures forall key :: key in keys <==> key.Index? && key.index < length
  {
    set i | 0 <= i < length :: Index(i)
  }
}

module ProtoRepair {
  import opened Wrappers
  import opened JsText
  import opened ProtoSchema
  import opened ProtoValues

  // ---------------------------------------------------------------- scalars

  predicate IsHigh(u: Unit) { 0xD800 <= u < 0xDC00 }

  predicate IsLow(u: Unit) { 0xDC00 <= u < 0xE000 }

  const REPLACEMENT: Unit := 0xFFFD

  /** Every surrogate that has no partner becomes U+FFFD. */
  function ReplaceUnpaired(s: Units): (r: Units)
    ensures |r| == |s|
  {
    if s == [] then []
    else if |s| > 1 && IsHigh(s[0]) && IsLow(s[1]) then s[..2] + ReplaceUnpaired(s[2..])
    else [if IsHigh(s[0]) || IsLow(s[0]) then REPLACEMENT else s[0]] + ReplaceUnpaired(s[1..])
  }

  predicate PairedAt(s: Units, i: nat)
    requires i < |s|
  {
    (IsHigh(s[i]) ==> i + 1 < |s| && IsLow(s[i + 1])) && (IsLow(s[i]) ==> i > 0 && IsHigh(s[i - 1]))
  }

  /** Text that has a UTF-8 form. */
  predicate Encodable(s: Units) { forall i :: 0 <= i < |s| ==> PairedAt(s, i) }

  /** Pairedness of what follows a prefix that ends in no high surrogate. */
  lemma PairedBehind(s: Units, k: nat)
    requires 0 < k <= |s| && !IsHigh(s[k - 1])
    ensures forall i :: k <= i < |s| ==> (PairedAt(s, i) <==> PairedAt(s[k..], i - k))
  {
    forall i | k <= i < |s|
      ensures PairedAt(s, i) <==> PairedAt(s[k..], i - k)
    {
      var t := s[k..];
      assert t[i - k] == s[i] && (i + 1 < |s| ==> t[i - k + 1] == s[i + 1]) && (i > k ==> t[i - k - 1] == s[i - 1]);
    }
  }

  lemma {:induction false} ReplacedIsEncodable(s: Units)
    ensures Encodable(ReplaceUnpaired(s))
    decreases |s|
  {
    var r := ReplaceUnpaired(s);
    if s == [] {
    } else if |s| > 1 && IsHigh(s[0]) && IsLow(s[1]) {
      ReplacedIsEncodable(s[2..]);
      assert r[2..] == ReplaceUnpaired(s[2..]);
      PairedBehind(r, 2);
      forall i | 0 <= i < |r|
        ensures PairedAt(r, i)
      {
        assert i >= 2 ==> PairedAt(r[2..], i - 2);
      }
    } else {
      ReplacedIsEncodable(s[1..]);
      assert r[1..] == ReplaceUnpaired(s[1..]);
      PairedBehind(r, 1);
      forall i | 0 <= i < |r|
        ensures PairedAt(r, i)
      {
        assert i >= 1 ==> PairedAt(r[1..], i - 1);
      }
    }
  }

  lemma {:induction false} EncodableIsKept(s: Units)
    requires Encodable(s)
    ensures ReplaceUnpaired(s) == s
    decreases |s|
  {
    if s != [] {
      assert PairedAt(s, 0);
      var k := if IsHigh(s[0]) then 2 else 1;
      PairedBehind(s, k);
      forall i | 0 <= i < |s[k..]|
        ensures PairedAt(s[k..], i)
      {
        assert PairedAt(s, i + k) && k <= i + k < |s|;
      }
      EncodableIsKept(s[k..]);
      assert s == s[..k] + s[k..];
    }
  }

  /** A text is left alone exactly when it can be encoded. */
  lemma ReplacementIsExact(s: Units)
    ensures ReplaceUnpaired(s) == s <==> Encodable(s)
    ensures ReplaceUnpaired(ReplaceUnpaired(s)) == ReplaceUnpaired(s)
  {
    ReplacedIsEncodable(s);
    EncodableIsKept(ReplaceUnpaired(s));
    if Encodable(s) {
      EncodableIsKept(s);
    }
  }

  /** What the codec refuses in a field of this kind, and what the repair puts there. */
  predicate Refused(s: Schema, f: Field, item: Js) {
    item.Text? &&
    match f.kind
    case Signed64 => item.units == []
    case Unsigned64 => item.units == []
    case String => !Encodable(item.units)
    case Enum => f.typeId < |s.enums| && item.units in s.enums[f.typeId]
    case _ => false
  }

  function RepairScalar(s: Schema, f: Field, item: Js): Js {
    if !item.Text? then item
    else
      match f.kind
      case Signed64 => if item.units == [] then Number(0) else item
      case Unsigned64 => if item.units == [] then Number(0) else item
      case String => Text(ReplaceUnpaired(item.units))
      case Enum =>
        if f.typeId < |s.enums| && item.units in s.enums[f.typeId] then Number(s.enums[f.typeId][item.units]) else item
      case _ => item
  }

  lemma ScalarIsExact(s: Schema, f: Field, item: Js)
    ensures RepairScalar(s, f, item) == item <==> !Refused(s, f, item)
    ensures !Refused(s, f, RepairScalar(s, f, item))
    ensures RepairScalar(s, f, item).NaN? <==> item.NaN?
    ensures IsNullish(RepairScalar(s, f, item)) <==> IsNullish(item)
    ensures IsObject(RepairScalar(s, f, item)) <==> IsObject(item)
  {
    if item.Text? {
      ReplacementIsExact(item.units);
      ReplacedIsEncodable(item.units);
    }
  }

  // ---------------------------------------------------------------- messages

  function Repair(s: Schema, id: nat, v: Js): Js
    decreases v, 0
  {
    if v.Obj? && id < |s.messages| then
      Obj(map key | key in v.props :: RepairEntry(s, FieldAt(s.messages[id], v.props, key), v.props[key]))
    else v
  }

  function RepairEntry(s: Schema, f: Option<Field>, current: Js): Js
    decreases current, 3
  {
    if f.None? then current else RepairField(s, f.value, current)
  }

  function RepairItem(s: Schema, f: Field, item: Js): Js
    decreases item, 1
  {
    if f.kind == Message then Repair(s, f.typeId, item) else RepairScalar(s, f, item)
  }

  /** A map field that holds an array becomes a plain object only when an entry is replaced. */
  function RepairField(s: Schema, f: Field, current: Js): Js
    decreases current, 2
  {
    match f.shape
    case Singular => RepairItem(s, f, current)
    case Repeated =>
      if current.Arr? then
        Arr(seq(|current.items|, i requires 0 <= i < |current.items| => RepairItem(s, f, current.items[i])))
      else current
    case Map =>
      if current.Obj? then Obj(map key | key in current.props :: RepairItem(s, f, current.props[key]))
      else if current.Arr? && TouchesField(s, f, current) then
        Obj(map key | key in IndexKeys(|current.items|) :: RepairItem(s, f, current.items[key.index]))
      else current
  }

  /** `item !== current`: an object was rebuilt, a scalar replaced, or the item is not equal to itself. */
  predicate TouchesItem(s: Schema, f: Field, item: Js)
    decreases item, 1
  {
    item.NaN? || (if f.kind == Message then Touches(s, f.typeId, item) else Refused(s, f, item))
  }

  predicate TouchesField(s: Schema, f: Field, current: Js)
    decreases current, 2
  {
    current.NaN? ||
    match f.shape
    case Singular => TouchesItem(s, f, current)
    case Repeated => current.Arr? && exists i :: 0 <= i < |current.items| && TouchesItem(s, f, current.items[i])
    case Map =>
      || (current.Obj? && exists key :: key in current.props && TouchesItem(s, f, current.props[key]))
      || (current.Arr? && exists i :: 0 <= i < |current.items| && TouchesItem(s, f, current.items[i]))
  }

  /** repairMessage hands back a new object. */
  predicate Touches(s: Schema, id: nat, v: Js)
    decreases v, 0
  {
    v.Obj? && id < |s.messages| &&
    exists key :: key in v.props &&
      var f := FieldAt(s.messages[id], v.props, key); f.Some? && TouchesField(s, f.value, v.props[key])
  }

  // ---------------------------------------------------------------- what was there to repair

  datatype What = RefusedScalar | NotANumber

  /** Something of this kind sits in a recognised field, at any depth. */
  predicate Reaches(s: Schema, id: nat, v: Js, what: What)
    decreases v, 0
  {
    v.Obj? && id < |s.messages| &&
    exists key :: key in v.props &&
      var f := FieldAt(s.messages[id], v.props, key); f.Some? && ReachesField(s, f.value, v.props[key], what)
  }

  predicate ReachesItem(s: Schema, f: Field, item: Js, what: What)
    decreases item, 1
  {
    || (what.NotANumber? && item.NaN?)
    || (f.kind == Message && Reaches(s, f.typeId, item, what))
    || (what.RefusedScalar? && Refused(s, f, item))
  }

  predicate ReachesField(s: Schema, f: Field, current: Js, what: What)
    decreases current, 2
  {
    (what.NotANumber? && current.NaN?) ||
    match f.shape
    case Singular => ReachesItem(s, f, current, what)
    case Repeated => current.Arr? && exists i :: 0 <= i < |current.items| && ReachesItem(s, f, current.items[i], what)
    case Map =>
      || (current.Obj? && exists key :: key in current.props && ReachesItem(s, f, current.props[key], what))
      || (current.Arr? && exists i :: 0 <= i < |current.items| && ReachesItem(s, f, current.items[i], what))
  }
}

module ProtoRepairTheorems {
  import opened Wrappers
  import opened ProtoSchema
  import opened ProtoValues
  import opened ProtoRepair

  // ---------------------------------------------------------------- left alone

  /** The same reference back means the same value. */
  lemma {:induction false} UntouchedIsKept(s: Schema, id: nat, v: Js)
    requires !Touches(s, id, v)
    ensures Repair(s, id, v) == v
    decreases v, 0
  {
    if v.Obj? && id < |s.messages| {
      forall key | key in v.props && FieldAt(s.messages[id], v.props, key).Some?
        ensures RepairField(s, FieldAt(s.messages[id], v.props, key).value, v.props[key]) == v.props[key]
      {
        UntouchedFieldIsKept(s, FieldAt(s.messages[id], v.props, key).value, v.props[key]);
      }
    }
  }

  lemma {:induction false} UntouchedItemIsKept(s: Schema, f: Field, item: Js)
    requires !TouchesItem(s, f, item)
    ensures RepairItem(s, f, item) == item
    decreases item, 1
  {
    if f.kind == Message {
      UntouchedIsKept(s, f.typeId, item);
    } else {
      ScalarIsExact(s, f, item);
    }
  }

  lemma {:induction false} UntouchedFieldIsKept(s: Schema, f: Field, current: Js)
    requires !TouchesField(s, f, current)
    ensures RepairField(s, f, current) == current
    decreases current, 2
  {
    if f.shape == Singular {
      UntouchedItemIsKept(s, f, current);
    } else if current.Arr? {
      forall i | 0 <= i < |current.items|
        ensures RepairItem(s, f, current.items[i]) == current.items[i]
      {
        UntouchedItemIsKept(s, f, current.items[i]);
      }
    } else if current.Obj? && f.shape == Map {
      forall key | key in current.props
        ensures RepairItem(s, f, current.props[key]) == current.props[key]
      {
        UntouchedItemIsKept(s, f, current.props[key]);
      }
    }
  }

  /** A new object is handed back exactly when a refused scalar or a NaN was reached. */
  lemma {:induction false} TouchesWhat(s: Schema, id: nat, v: Js)
    ensures Touches(s, id, v) <==> Reaches(s, id, v, RefusedScalar) || Reaches(s, id, v, NotANumber)
    decreases v, 0
  {
    if v.Obj? && id < |s.messages| {
      forall key | key in v.props && FieldAt(s.messages[id], v.props, key).Some?
        ensures var f := FieldAt(s.messages[id], v.props, key).value;
                TouchesField(s, f, v.props[key])
                <==> ReachesField(s, f, v.props[key], RefusedScalar) || ReachesField(s, f, v.props[key], NotANumber)
      {
        FieldTouchesWhat(s, FieldAt(s.messages[id], v.props, key).value, v.props[key]);
      }
    }
  }

  lemma {:induction false} ItemTouchesWhat(s: Schema, f: Field, item: Js)
    ensures TouchesItem(s, f, item) <==> ReachesItem(s, f, item, RefusedScalar) || ReachesItem(s, f, item, NotANumber)
    decreases item, 1
  {
    if f.kind == Message {
      TouchesWhat(s, f.typeId, item);
    }
  }

  lemma {:induction false} FieldTouchesWhat(s: Schema, f: Field, current: Js)
    ensures TouchesField(s, f, current)
       <==> ReachesField(s, f, current, RefusedScalar) || ReachesField(s, f, current, NotANumber)
    decreases current, 2
  {
    if f.shape == Singular {
      ItemTouchesWhat(s, f, current);
    } else if current.Arr? {
      forall i | 0 <= i < |current.items|
        ensures TouchesItem(s, f, current.items[i])
           <==> ReachesItem(s, f, current.items[i], RefusedScalar) || ReachesItem(s, f, current.items[i], NotANumber)
      {
        ItemTouchesWhat(s, f, current.items[i]);
      }
    } else if current.Obj? && f.shape == Map {
      forall key | key in current.props
        ensures TouchesItem(s, f, current.props[key])
           <==> ReachesItem(s, f, current.props[key], RefusedScalar)
                || ReachesItem(s, f, current.props[key], NotANumber)
      {
        ItemTouchesWhat(s, f, current.props[key]);
      }
    }
  }

  // ---------------------------------------------------------------- nothing left

  /** After the repair no refused scalar is left under any recognised name. */
  lemma {:induction false} NothingRefusedIsLeft(s: Schema, id: nat, v: Js)
    ensures !Reaches(s, id, Repair(s, id, v), RefusedScalar)
    decreases v, 0
  {
    if v.Obj? && id < |s.messages| {
      var r := Repair(s, id, v);
      assert r.props.Keys == v.props.Keys;
      forall key | key in r.props && FieldAt(s.messages[id], r.props, key).Some?
        ensures !ReachesField(s, FieldAt(s.messages[id], r.props, key).value, r.props[key], RefusedScalar)
      {
        assert FieldAt(s.messages[id], r.props, key) == FieldAt(s.messages[id], v.props, key);
        assert r.props[key] == RepairEntry(s, FieldAt(s.messages[id], v.props, key), v.props[key]);
        NothingLeftInField(s, FieldAt(s.messages[id], v.props, key).value, v.props[key]);
      }
    }
  }

  lemma {:induction false} NothingLeftInItem(s: Schema, f: Field, item: Js)
    ensures !ReachesItem(s, f, RepairItem(s, f, item), RefusedScalar)
    decreases item, 1
  {
    if f.kind == Message {
      NothingRefusedIsLeft(s, f.typeId, item);
    } else {
      ScalarIsExact(s, f, item);
    }
  }

  lemma {:induction false} NothingLeftInField(s: Schema, f: Field, current: Js)
    ensures !ReachesField(s, f, RepairField(s, f, current), RefusedScalar)
    decreases current, 2
  {
    if f.shape == Singular {
      NothingLeftInItem(s, f, current);
    } else if current.Arr? {
      forall i | 0 <= i < |current.items|
        ensures !ReachesItem(s, f, RepairItem(s, f, current.items[i]), RefusedScalar)
      {
        NothingLeftInItem(s, f, current.items[i]);
      }
      if !TouchesField(s, f, current) {
        UntouchedFieldIsKept(s, f, current);
        FieldTouchesWhat(s, f, current);
      } else if f.shape == Map {
        var r := RepairField(s, f, current);
        forall key | key in r.props
          ensures !ReachesItem(s, f, r.props[key], RefusedScalar)
        {
          assert r.props[key] == RepairItem(s, f, current.items[key.index]);
        }
      }
    } else if current.Obj? && f.shape == Map {
      forall key | key in current.props
        ensures !ReachesItem(s, f, RepairItem(s, f, current.props[key]), RefusedScalar)
      {
        NothingLeftInItem(s, f, current.props[key]);
      }
    }
  }

  /**
   * The value changes whenever a refused scalar was reached, and the reference does exactly when that
   * or a NaN was. So a NaN alone makes the caller believe that something was repaired.
   */
  lemma RepairIsExact(s: Schema, id: nat, v: Js)
    ensures Reaches(s, id, v, RefusedScalar) ==> Repair(s, id, v) != v
    ensures Touches(s, id, v) <==> Reaches(s, id, v, RefusedScalar) || Reaches(s, id, v, NotANumber)
    ensures !Touches(s, id, v) ==> Repair(s, id, v) == v
  {
    NothingRefusedIsLeft(s, id, v);
    TouchesWhat(s, id, v);
    if !Touches(s, id, v) {
      UntouchedIsKept(s, id, v);
    }
  }

  /** A message with one field that holds a NaN: rebuilt, and equal to what it was. */
  lemma NaNIsRebuilt(name: string)
    ensures var s := Schema([MessageType([Field(name, OtherScalar, 0, Singular, None)], None)], []);
            var v := Obj(map[Name(name) := NaN]);
            WellFormed(s) && Touches(s, 0, v) && Repair(s, 0, v) == v
  {
    var f := Field(name, OtherScalar, 0, Singular, None);
    var t := MessageType([f], None);
    var s := Schema([t], []);
    var props: map<Key, Js> := map[Name(name) := NaN];
    assert FieldAt(t, props, Name(name)) == Some(f);
    assert TouchesField(s, f, props[Name(name)]);
    assert Repair(s, 0, Obj(props)) == Obj(props);
  }
}
