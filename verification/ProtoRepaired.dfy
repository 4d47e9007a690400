/**
 * What repairMessage makes of a message, as a relation between the two (src/Compatibility/proto-runtime.ts):
 * every recognised leaf the codec would refuse has its replacement, and everything else is as it was.
 */
module ProtoRepaired {
  import opened Wrappers
  import opened JsText
  import opened ProtoSchema
  import opened ProtoValues
  import opened ProtoRepair
  import T = ProtoRepairTheorems

  /**
   * An empty text in a 64-bit field is the number 0; a known enum name is its number; in a string field every
   * unit without a partner is U+FFFD. Anything else, an unknown enum name included, is the same value.
   */
  ghost predicate LeafForm(s: Schema, f: Field, item: Js, r: Js) {
    if item.Text? && (f.kind == Signed64 || f.kind == Unsigned64) && item.units == [] then r == Number(0)
    else if item.Text? && f.kind == Enum && f.typeId < |s.enums| && item.units in s.enums[f.typeId] then
      r == Number(s.enums[f.typeId][item.units])
    else if item.Text? && f.kind == String then
      && r.Text? && |r.units| == |item.units|
      && forall i :: 0 <= i < |r.units| ==> r.units[i] == if PairedAt(item.units, i) then item.units[i] else 0xFFFD
    else r == item
  }

  /** The key is the field's own name, or the second spelling of it where the first is absent. */
  predicate Spells(t: MessageType, props: map<Key, Js>, key: Key, f: Field) {
    key == Name(f.name)
    || (t.alias.Some? && t.alias.value.public == f.name && key == Name(t.alias.value.bridge) && Name(f.name) !in props)
  }

  /** Each recognised key holds the form of what it held, every other key what it held. */
  ghost predicate RepairedForm(s: Schema, id: nat, v: Js, r: Js)
    decreases v, 0
  {
    if !v.Obj? || id >= |s.messages| then r == v
    else
      && r.Obj? && r.props.Keys == v.props.Keys
      && (forall key, f :: key in v.props && f in s.messages[id].fields && Spells(s.messages[id], v.props, key, f) ==>
            FieldForm(s, f, v.props[key], r.props[key]))
      && (forall key :: key in v.props && Unrecognised(s.messages[id], v.props, key) ==> r.props[key] == v.props[key])
  }

  predicate Unrecognised(t: MessageType, props: map<Key, Js>, key: Key) {
    forall f :: f in t.fields ==> !Spells(t, props, key, f)
  }

  /** The lookup by key finds the field the key spells. */
  lemma SpelledIsFound(t: MessageType, props: map<Key, Js>, key: Key)
    requires WellFormedType(t) && key in props
    ensures FieldAt(t, props, key).Some? ==>
              FieldAt(t, props, key).value in t.fields && Spells(t, props, key, FieldAt(t, props, key).value)
    ensures FieldAt(t, props, key).None? ==> Unrecognised(t, props, key)
    ensures forall f :: f in t.fields && Spells(t, props, key, f) ==> FieldAt(t, props, key) == Some(f)
  {
    forall f | f in t.fields && Spells(t, props, key, f)
      ensures FieldAt(t, props, key) == Some(f)
    {
      var i :| 0 <= i < |t.fields| && t.fields[i] == f;
      FieldOfName(t.fields, i);
      if t.alias.Some? {
        assert FieldIn(t.fields, t.alias.value.bridge).None?;
      }
    }
  }

  ghost predicate ItemForm(s: Schema, f: Field, item: Js, r: Js)
    decreases item, 1
  {
    if f.kind == Message then RepairedForm(s, f.typeId, item, r) else LeafForm(s, f, item, r)
  }

  /** An array in a map field becomes an object where something in it is replaced, or equal to nothing. */
  predicate Spreads(s: Schema, f: Field, current: Js) {
    ReachesField(s, f, current, RefusedScalar) || ReachesField(s, f, current, NotANumber)
  }

  ghost predicate FieldForm(s: Schema, f: Field, current: Js, r: Js)
    decreases current, 2
  {
    match f.shape
    case Singular => ItemForm(s, f, current, r)
    case Repeated =>
      if !current.Arr? then r == current
      else
        && r.Arr? && |r.items| == |current.items|
        && forall i :: 0 <= i < |r.items| ==> ItemForm(s, f, current.items[i], r.items[i])
    case Map =>
      if current.Obj? then
        && r.Obj? && r.props.Keys == current.props.Keys
        && forall key :: key in current.props ==> ItemForm(s, f, current.props[key], r.props[key])
      else if current.Arr? && Spreads(s, f, current) then
        && r.Obj? && r.props.Keys == IndexKeys(|current.items|)
        && forall i :: 0 <= i < |current.items| ==> ItemForm(s, f, current.items[i], r.props[Index(i)])
      else r == current
  }

  // ---------------------------------------------------------------- the repair gives it

  /** Unit by unit: a surrogate without its partner is replaced, all else kept. */
  lemma {:induction false} ReplacedAt(s: Units, i: nat)
    requires i < |s|
    ensures ReplaceUnpaired(s)[i] == if PairedAt(s, i) then s[i] else 0xFFFD
    decreases |s|
  {
    var k := if |s| > 1 && IsHigh(s[0]) && IsLow(s[1]) then 2 else 1;
    assert ReplaceUnpaired(s)[k..] == ReplaceUnpaired(s[k..]);
    if i >= k {
      ReplacedAt(s[k..], i - k);
      assert ReplaceUnpaired(s)[i] == ReplaceUnpaired(s)[k..][i - k];
      PairedBehindAt(s, k, i);
    }
  }

  lemma PairedBehindAt(s: Units, k: nat, i: nat)
    requires 0 < k <= i < |s| && (k == 2 <==> IsHigh(s[0]) && IsLow(s[1])) && k <= 2
    ensures PairedAt(s, i) <==> PairedAt(s[k..], i - k)
  {
    var t := s[k..];
    assert t[i - k] == s[i] && (i + 1 < |s| ==> t[i - k + 1] == s[i + 1]) && (i > k ==> t[i - k - 1] == s[i - 1]);
  }

  lemma ScalarHasForm(s: Schema, f: Field, item: Js)
    ensures LeafForm(s, f, item, RepairScalar(s, f, item))
  {
    if item.Text? && f.kind == String {
      forall i | 0 <= i < |item.units|
        ensures ReplaceUnpaired(item.units)[i] == if PairedAt(item.units, i) then item.units[i] else 0xFFFD
      {
        ReplacedAt(item.units, i);
      }
    }
  }

  lemma {:induction false} RepairHasForm(s: Schema, id: nat, v: Js)
    requires WellFormed(s)
    ensures RepairedForm(s, id, v, Repair(s, id, v))
    decreases v, 0
  {
    if v.Obj? && id < |s.messages| {
      var t, r := s.messages[id], Repair(s, id, v);
      forall key, f | key in v.props && f in t.fields && Spells(t, v.props, key, f)
        ensures FieldForm(s, f, v.props[key], r.props[key])
      {
        SpelledIsFound(t, v.props, key);
        assert FieldAt(t, v.props, key) == Some(f);
        assert r.props[key] == RepairEntry(s, FieldAt(t, v.props, key), v.props[key]);
        FieldHasForm(s, f, v.props[key]);
      }
      forall key | key in v.props && Unrecognised(t, v.props, key)
        ensures r.props[key] == v.props[key]
      {
        SpelledIsFound(t, v.props, key);
      }
    }
  }

  lemma {:induction false} ItemHasForm(s: Schema, f: Field, item: Js)
    requires WellFormed(s)
    ensures ItemForm(s, f, item, RepairItem(s, f, item))
    decreases item, 1
  {
    if f.kind == Message {
      RepairHasForm(s, f.typeId, item);
    } else {
      ScalarHasForm(s, f, item);
    }
  }

  lemma {:induction false} FieldHasForm(s: Schema, f: Field, current: Js)
    requires WellFormed(s)
    ensures FieldForm(s, f, current, RepairField(s, f, current))
    decreases current, 2
  {
    if f.shape == Singular {
      ItemHasForm(s, f, current);
    } else if current.Arr? {
      T.FieldTouchesWhat(s, f, current);
      forall i | 0 <= i < |current.items|
        ensures ItemForm(s, f, current.items[i], RepairItem(s, f, current.items[i]))
      {
        ItemHasForm(s, f, current.items[i]);
      }
      ArrayHasForm(s, f, current);
    } else if current.Obj? && f.shape == Map {
      forall key | key in current.props
        ensures ItemForm(s, f, current.props[key], RepairItem(s, f, current.props[key]))
      {
        ItemHasForm(s, f, current.props[key]);
      }
    }
  }

  lemma ArrayHasForm(s: Schema, f: Field, current: Js)
    requires f.shape != Singular && current.Arr?
    requires TouchesField(s, f, current) <==> Spreads(s, f, current)
    requires forall i :: 0 <= i < |current.items| ==>
               ItemForm(s, f, current.items[i], RepairItem(s, f, current.items[i]))
    ensures FieldForm(s, f, current, RepairField(s, f, current))
  {
    hide ItemForm, RepairItem, TouchesField, Spreads;
    assert forall i :: 0 <= i < |current.items| ==> Index(i) in IndexKeys(|current.items|);
  }

  // ---------------------------------------------------------------- and it is the only one

  lemma {:induction false} FormIsOne(s: Schema, id: nat, v: Js, a: Js, b: Js)
    requires WellFormed(s)
    requires RepairedForm(s, id, v, a) && RepairedForm(s, id, v, b)
    ensures a == b
    decreases v, 0
  {
    if v.Obj? && id < |s.messages| {
      forall key | key in v.props
        ensures a.props[key] == b.props[key]
      {
        SpelledIsFound(s.messages[id], v.props, key);
        if FieldAt(s.messages[id], v.props, key).Some? {
          FieldFormIsOne(s, FieldAt(s.messages[id], v.props, key).value, v.props[key], a.props[key], b.props[key]);
        }
      }
      assert a.props == b.props;
    }
  }

  lemma {:induction false} ItemFormIsOne(s: Schema, f: Field, item: Js, a: Js, b: Js)
    requires WellFormed(s)
    requires ItemForm(s, f, item, a) && ItemForm(s, f, item, b)
    ensures a == b
    decreases item, 1
  {
    if f.kind == Message {
      FormIsOne(s, f.typeId, item, a, b);
    } else if a.Text? && b.Text? {
      assert a.units == b.units;
    }
  }

  lemma {:induction false} FieldFormIsOne(s: Schema, f: Field, current: Js, a: Js, b: Js)
    requires WellFormed(s)
    requires FieldForm(s, f, current, a) && FieldForm(s, f, current, b)
    ensures a == b
    decreases current, 2
  {
    if f.shape == Singular {
      ItemFormIsOne(s, f, current, a, b);
    } else if current.Arr? && f.shape == Repeated {
      forall i | 0 <= i < |current.items|
        ensures a.items[i] == b.items[i]
      {
        ItemFormIsOne(s, f, current.items[i], a.items[i], b.items[i]);
      }
    } else if current.Arr? && Spreads(s, f, current) {
      forall key | key in IndexKeys(|current.items|)
        ensures a.props[key] == b.props[key]
      {
        assert key == Index(key.index);
        ItemFormIsOne(s, f, current.items[key.index], a.props[key], b.props[key]);
      }
      assert a.props == b.props;
    } else if current.Obj? && f.shape == Map {
      forall key | key in current.props
        ensures a.props[key] == b.props[key]
      {
        ItemFormIsOne(s, f, current.props[key], a.props[key], b.props[key]);
      }
      assert a.props == b.props;
    }
  }

  /** The repair of a message is its repaired form, and nothing else is. */
  lemma RepairIsTheForm(s: Schema, id: nat, v: Js, r: Js)
    requires WellFormed(s)
    ensures RepairedForm(s, id, v, r) <==> r == Repair(s, id, v)
  {
    RepairHasForm(s, id, v);
    if RepairedForm(s, id, v, r) {
      FormIsOne(s, id, v, r, Repair(s, id, v));
    }
  }
}
