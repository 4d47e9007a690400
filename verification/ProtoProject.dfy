/**
 * Alias projection (projectAliases of src/Compatibility/proto-runtime.ts), its laws with the repair,
 * and the retry that relies on them (src/Compatibility/encode-proto-core.ts).
 */
module ProtoProject {
  import opened Wrappers
  import opened ProtoSchema
  import opened ProtoValues
  import opened ProtoRepair
  import T = ProtoRepairTheorems

  /** Only message-typed fields are walked. */
  function MessageFieldAt(t: MessageType, key: Key): (f: Option<Field>)
    ensures f.Some? ==> key.Name? && f == FieldIn(t.fields, key.name) && f.value.kind == Message
  {
    if key.Index? then None
    else
      var f := FieldIn(t.fields, key.name);
      if f.Some? && f.value.kind == Message then f else None
  }

  /** The message spells its aliased field the public way. */
  predicate IsPublic(t: MessageType, props: map<Key, Js>) { t.alias.Some? && Name(t.alias.value.public) in props }

  function Project(s: Schema, id: nat, v: Js): Js
    decreases v, 0
  {
    if !v.Obj? || id >= |s.messages| then v
    else
      var t := s.messages[id];
      if IsPublic(t, v.props) then
        var public, bridge := Name(t.alias.value.public), Name(t.alias.value.bridge);
        Obj((map key | key in v.props && key != public :: ProjectEntry(s, t, key, v.props[key]))
              [bridge := ProjectMoved(s, t, v.props[public])])
      else Obj(map key | key in v.props :: ProjectEntry(s, t, key, v.props[key]))
  }

  /** The value that changes its spelling is walked too, when the field is a message. */
  function ProjectMoved(s: Schema, t: MessageType, moved: Js): Js
    requires t.alias.Some?
    decreases moved, 1
  {
    var f := MessageFieldAt(t, Name(t.alias.value.public));
    if f.Some? && !IsNullish(moved) then Project(s, f.value.typeId, moved) else moved
  }

  function ProjectEntry(s: Schema, t: MessageType, key: Key, current: Js): Js
    decreases current, 2
  {
    var f := MessageFieldAt(t, key);
    if f.None? then current else ProjectField(s, f.value, current)
  }

  function ProjectField(s: Schema, f: Field, current: Js): Js
    decreases current, 1
  {
    match f.shape
    case Singular => Project(s, f.typeId, current)
    case Repeated =>
      if current.Arr? then
        Arr(seq(|current.items|, i requires 0 <= i < |current.items| => Project(s, f.typeId, current.items[i])))
      else current
    case Map =>
      if current.Obj? then Obj(map key | key in current.props :: Project(s, f.typeId, current.props[key]))
      else if current.Arr? && MovesField(s, f, current) then
        Obj(map key | key in IndexKeys(|current.items|) :: Project(s, f.typeId, current.items[key.index]))
      else current
  }

  /** projectAliases hands back a new object. */
  predicate Moves(s: Schema, id: nat, v: Js)
    decreases v, 0
  {
    v.Obj? && id < |s.messages| &&
    (IsPublic(s.messages[id], v.props)
     || exists key :: key in v.props &&
          var f := MessageFieldAt(s.messages[id], key); f.Some? && MovesField(s, f.value, v.props[key]))
  }

  predicate MovesItem(s: Schema, id: nat, item: Js)
    decreases item, 1
  {
    item.NaN? || Moves(s, id, item)
  }

  predicate MovesField(s: Schema, f: Field, current: Js)
    decreases current, 2
  {
    current.NaN? ||
    match f.shape
    case Singular => MovesItem(s, f.typeId, current)
    case Repeated => current.Arr? && exists i :: 0 <= i < |current.items| && MovesItem(s, f.typeId, current.items[i])
    case Map =>
      || (current.Obj? && exists key :: key in current.props && MovesItem(s, f.typeId, current.props[key]))
      || (current.Arr? && exists i :: 0 <= i < |current.items| && MovesItem(s, f.typeId, current.items[i]))
  }

  // ---------------------------------------------------------------- left alone

  lemma {:induction false} UnmovedIsKept(s: Schema, id: nat, v: Js)
    requires !Moves(s, id, v)
    ensures Project(s, id, v) == v
    decreases v, 0
  {
    if v.Obj? && id < |s.messages| {
      forall key | key in v.props && MessageFieldAt(s.messages[id], key).Some?
        ensures ProjectField(s, MessageFieldAt(s.messages[id], key).value, v.props[key]) == v.props[key]
      {
        UnmovedFieldIsKept(s, MessageFieldAt(s.messages[id], key).value, v.props[key]);
      }
    }
  }

  lemma {:induction false} UnmovedFieldIsKept(s: Schema, f: Field, current: Js)
    requires !MovesField(s, f, current)
    ensures ProjectField(s, f, current) == current
    decreases current, 1
  {
    if f.shape == Singular {
      UnmovedIsKept(s, f.typeId, current);
    } else if current.Arr? {
      forall i | 0 <= i < |current.items|
        ensures Project(s, f.typeId, current.items[i]) == current.items[i]
      {
        UnmovedIsKept(s, f.typeId, current.items[i]);
      }
    } else if current.Obj? && f.shape == Map {
      forall key | key in current.props
        ensures Project(s, f.typeId, current.props[key]) == current.props[key]
      {
        UnmovedIsKept(s, f.typeId, current.props[key]);
      }
    }
  }

  // ---------------------------------------------------------------- commuting with the repair

  /** Rewriting an item and then rewriting it the other way round. */
  ghost predicate Commutes(s: Schema, id: nat, v: Js) {
    Repair(s, id, Project(s, id, v)) == Project(s, id, Repair(s, id, v))
  }

  lemma {:induction false} FieldsCommute(s: Schema, f: Field, current: Js)
    requires WellFormed(s) && f.kind == Message
    ensures RepairField(s, f, ProjectField(s, f, current)) == ProjectField(s, f, RepairField(s, f, current))
    decreases current, 1
  {
    if f.shape == Singular {
      RewritesCommute(s, f.typeId, current);
    } else if current.Arr? {
      forall i | 0 <= i < |current.items|
        ensures Commutes(s, f.typeId, current.items[i])
      {
        RewritesCommute(s, f.typeId, current.items[i]);
      }
      if f.shape == Map {
        SpreadsCommute(s, f, current);
      }
    } else if current.Obj? && f.shape == Map {
      forall key | key in current.props
        ensures Commutes(s, f.typeId, current.props[key])
      {
        RewritesCommute(s, f.typeId, current.props[key]);
      }
    }
  }

  /** An array in a map field: whichever rewrite finds something spreads it, and the other follows. */
  lemma {:induction false} SpreadsCommute(s: Schema, f: Field, current: Js)
    requires f.kind == Message && f.shape == Map && current.Arr?
    requires forall i :: 0 <= i < |current.items| ==> Commutes(s, f.typeId, current.items[i])
    ensures RepairField(s, f, ProjectField(s, f, current)) == ProjectField(s, f, RepairField(s, f, current))
  {
    if !TouchesField(s, f, current) {
      T.UntouchedFieldIsKept(s, f, current);
      forall i | 0 <= i < |current.items|
        ensures Repair(s, f.typeId, current.items[i]) == current.items[i]
      {
        T.UntouchedItemIsKept(s, f, current.items[i]);
      }
      SpreadIsRepaired(s, f, current);
    } else if !MovesField(s, f, current) {
      UnmovedFieldIsKept(s, f, current);
      forall i | 0 <= i < |current.items|
        ensures Project(s, f.typeId, current.items[i]) == current.items[i]
      {
        assert !MovesItem(s, f.typeId, current.items[i]);
        UnmovedIsKept(s, f.typeId, current.items[i]);
      }
      SpreadIsProjected(s, f, current);
    } else {
      SpreadTwice(s, f, current);
    }
  }

  lemma {:induction false} ProjectedThenRepaired(s: Schema, f: Field, current: Js, key: Key)
    requires f.kind == Message && f.shape == Map && current.Arr? && MovesField(s, f, current)
    requires key in IndexKeys(|current.items|)
    ensures var a := RepairField(s, f, ProjectField(s, f, current));
            a.Obj? && a.props.Keys == IndexKeys(|current.items|)
            && a.props[key] == Repair(s, f.typeId, Project(s, f.typeId, current.items[key.index]))
  {
    assert ProjectField(s, f, current).props[key] == Project(s, f.typeId, current.items[key.index]);
  }

  lemma {:induction false} RepairedThenProjected(s: Schema, f: Field, current: Js, key: Key)
    requires f.kind == Message && f.shape == Map && current.Arr? && TouchesField(s, f, current)
    requires key in IndexKeys(|current.items|)
    ensures var b := ProjectField(s, f, RepairField(s, f, current));
            b.Obj? && b.props.Keys == IndexKeys(|current.items|)
            && b.props[key] == Project(s, f.typeId, Repair(s, f.typeId, current.items[key.index]))
  {
    assert RepairField(s, f, current).props[key] == Repair(s, f.typeId, current.items[key.index]);
  }

  /** Either rewrite spreads the array, and the other goes through its entries. */
  lemma {:induction false} SpreadTwice(s: Schema, f: Field, current: Js)
    requires f.kind == Message && f.shape == Map && current.Arr? && TouchesField(s, f, current)
    requires MovesField(s, f, current)
    requires forall i :: 0 <= i < |current.items| ==> Commutes(s, f.typeId, current.items[i])
    ensures RepairField(s, f, ProjectField(s, f, current)) == ProjectField(s, f, RepairField(s, f, current))
  {
    hide ProjectField, RepairField, MovesField, TouchesField;
    assert current.items != [] by {
      SpreadHasItems(s, f, current);
    }
    var a, b := RepairField(s, f, ProjectField(s, f, current)), ProjectField(s, f, RepairField(s, f, current));
    forall key | key in IndexKeys(|current.items|)
      ensures a.Obj? && b.Obj? && a.props.Keys == b.props.Keys == IndexKeys(|current.items|)
      ensures a.props[key] == b.props[key]
    {
      ProjectedThenRepaired(s, f, current, key);
      RepairedThenProjected(s, f, current, key);
      assert Commutes(s, f.typeId, current.items[key.index]);
    }
    assert Index(0) in IndexKeys(|current.items|);
    assert a.props == b.props;
  }

  lemma SpreadHasItems(s: Schema, f: Field, current: Js)
    requires f.shape == Map && current.Arr? && MovesField(s, f, current)
    ensures current.items != []
  {
  }

  /** With nothing to project, the spread array has nothing to project either. */
  lemma {:induction false} SpreadIsProjected(s: Schema, f: Field, current: Js)
    requires f.kind == Message && f.shape == Map && current.Arr? && TouchesField(s, f, current)
    requires forall i :: 0 <= i < |current.items| ==>
               Commutes(s, f.typeId, current.items[i]) && Project(s, f.typeId, current.items[i]) == current.items[i]
    ensures ProjectField(s, f, RepairField(s, f, current)) == RepairField(s, f, current)
  {
  }

  /** With nothing to repair, the spread array has nothing to repair either. */
  lemma {:induction false} SpreadIsRepaired(s: Schema, f: Field, current: Js)
    requires f.kind == Message && f.shape == Map && current.Arr? && !TouchesField(s, f, current)
    requires forall i :: 0 <= i < |current.items| ==>
               Commutes(s, f.typeId, current.items[i]) && Repair(s, f.typeId, current.items[i]) == current.items[i]
    ensures RepairField(s, f, ProjectField(s, f, current)) == ProjectField(s, f, current)
  {
  }

  /** Alias projection and repair commute on every message. */
  lemma {:induction false} RewritesCommute(s: Schema, id: nat, v: Js)
    requires WellFormed(s)
    ensures Commutes(s, id, v)
    decreases v, 0
  {
    if v.Obj? && id < |s.messages| {
      var t := s.messages[id];
      forall key | key in v.props
        ensures EntryCommutes(s, t, key, v.props[key])
      {
        if MessageFieldAt(t, key).Some? {
          FieldsCommute(s, MessageFieldAt(t, key).value, v.props[key]);
        }
      }
      if IsPublic(t, v.props) {
        PublicCommutes(s, id, v);
      } else {
        NeutralCommutes(s, id, v);
      }
    }
  }

  lemma {:induction false} EntriesCommute(s: Schema, t: MessageType, props: map<Key, Js>, key: Key, current: Js)
    requires EntryCommutes(s, t, key, current)
    ensures var f := FieldAt(t, props, key);
            RepairEntry(s, f, ProjectEntry(s, t, key, current)) == ProjectEntry(s, t, key, RepairEntry(s, f, current))
  {
  }

  /** With no public spelling to move, each entry is rewritten where it is. */
  lemma {:induction false} NeutralCommutes(s: Schema, id: nat, v: Js)
    requires WellFormed(s) && v.Obj? && id < |s.messages| && !IsPublic(s.messages[id], v.props)
    requires forall key :: key in v.props ==> EntryCommutes(s, s.messages[id], key, v.props[key])
    ensures Commutes(s, id, v)
  {
    var t := s.messages[id];
    var a, b := Repair(s, id, Project(s, id, v)), Project(s, id, Repair(s, id, v));
    assert Project(s, id, v).props.Keys == v.props.Keys == Repair(s, id, v).props.Keys;
    assert a.props.Keys == b.props.Keys == v.props.Keys;
    forall key | key in v.props
      ensures a.props[key] == b.props[key]
    {
      assert FieldAt(t, Project(s, id, v).props, key) == FieldAt(t, v.props, key);
      EntriesCommute(s, t, v.props, key, v.props[key]);
    }
  }

  /** The moved value is found by the repair under its new spelling. */
  lemma {:induction false} PublicCommutes(s: Schema, id: nat, v: Js)
    requires WellFormed(s) && v.Obj? && id < |s.messages| && IsPublic(s.messages[id], v.props)
    requires forall key :: key in v.props ==> EntryCommutes(s, s.messages[id], key, v.props[key])
    ensures Commutes(s, id, v)
  {
    var t := s.messages[id];
    var public, bridge := Name(t.alias.value.public), Name(t.alias.value.bridge);
    var p, r := Project(s, id, v), Repair(s, id, v);
    var a, b := Repair(s, id, p), Project(s, id, r);
    assert WellFormedType(t);
    assert p.props.Keys == v.props.Keys - {public} + {bridge} && r.props.Keys == v.props.Keys;
    assert a.props.Keys == b.props.Keys == p.props.Keys;
    forall key | key in a.props
      ensures a.props[key] == b.props[key]
    {
      if key == bridge {
        MovedCommutes(s, t, v.props, p.props, v.props[public]);
        assert b.props[key] == ProjectMoved(s, t, r.props[public]);
        assert a.props[key] == RepairEntry(s, FieldAt(t, p.props, bridge), ProjectMoved(s, t, v.props[public]));
      } else {
        assert FieldAt(t, p.props, key) == FieldAt(t, v.props, key);
        EntriesCommute(s, t, v.props, key, v.props[key]);
      }
    }
  }

  lemma {:induction false} MovedCommutes(s: Schema, t: MessageType, before: map<Key, Js>, after: map<Key, Js>,
                                         moved: Js)
    requires WellFormedType(t) && IsPublic(t, before) && !IsPublic(t, after)
    requires EntryCommutes(s, t, Name(t.alias.value.public), moved)
    ensures FieldAt(t, after, Name(t.alias.value.bridge)) == FieldAt(t, before, Name(t.alias.value.public))
    ensures var f := FieldAt(t, before, Name(t.alias.value.public));
            RepairEntry(s, f, ProjectMoved(s, t, moved)) == ProjectMoved(s, t, RepairEntry(s, f, moved))
  {
    var f := FieldIn(t.fields, t.alias.value.public);
    assert FieldIn(t.fields, t.alias.value.bridge).None?;
    if f.Some? {
      assert f.value.shape == Singular;
    }
  }

  ghost predicate EntryCommutes(s: Schema, t: MessageType, key: Key, current: Js) {
    MessageFieldAt(t, key).Some? ==>
      var f := MessageFieldAt(t, key).value;
      RepairField(s, f, ProjectField(s, f, current)) == ProjectField(s, f, RepairField(s, f, current))
  }

  /** An aliased field is singular, so its value is rewritten as any other entry would be. */
  lemma {:induction false} MovedIsRewrittenInPlace(s: Schema, t: MessageType, moved: Js)
    requires WellFormedType(t) && t.alias.Some?
    ensures ProjectMoved(s, t, moved) == ProjectEntry(s, t, Name(t.alias.value.public), moved)
  {
    var f := FieldIn(t.fields, t.alias.value.public);
    if f.Some? {
      assert f.value.shape == Singular;
    }
  }

  // ---------------------------------------------------------------- the repair sees the same things

  lemma {:induction false} FieldTouchesAsBefore(s: Schema, f: Field, current: Js)
    requires WellFormed(s) && f.kind == Message
    ensures TouchesField(s, f, ProjectField(s, f, current)) <==> TouchesField(s, f, current)
    decreases current, 1
  {
    if f.shape == Singular {
      TouchesAsBefore(s, f.typeId, current);
    } else if current.Arr? {
      forall i | 0 <= i < |current.items|
        ensures TouchesItem(s, f, Project(s, f.typeId, current.items[i])) <==> TouchesItem(s, f, current.items[i])
      {
        TouchesAsBefore(s, f.typeId, current.items[i]);
      }
      SpreadTouches(s, f, current);
    } else if current.Obj? && f.shape == Map {
      var p := ProjectField(s, f, current);
      assert p.props.Keys == current.props.Keys;
      forall key | key in current.props
        ensures TouchesItem(s, f, p.props[key]) <==> TouchesItem(s, f, current.props[key])
      {
        TouchesAsBefore(s, f.typeId, current.props[key]);
      }
      assert (exists key :: key in current.props && TouchesItem(s, f, current.props[key]))
        <==> (exists key :: key in p.props && TouchesItem(s, f, p.props[key]));
    }
  }

  lemma {:induction false} SpreadTouches(s: Schema, f: Field, current: Js)
    requires f.kind == Message && f.shape != Singular && current.Arr?
    requires forall i :: 0 <= i < |current.items| ==>
               (TouchesItem(s, f, Project(s, f.typeId, current.items[i])) <==> TouchesItem(s, f, current.items[i]))
    ensures TouchesField(s, f, ProjectField(s, f, current)) <==> TouchesField(s, f, current)
  {
    var items, p := current.items, ProjectField(s, f, current);
    if TouchesField(s, f, current) {
      var i :| 0 <= i < |items| && TouchesItem(s, f, items[i]);
      if p.Obj? {
        assert Index(i) in p.props && p.props[Index(i)] == Project(s, f.typeId, items[i]);
      } else if f.shape == Repeated {
        assert p.items[i] == Project(s, f.typeId, items[i]);
      }
    } else if p.Obj? {
      forall key | key in p.props
        ensures !TouchesItem(s, f, p.props[key])
      {
        assert p.props[key] == Project(s, f.typeId, items[key.index]);
      }
    }
  }

  /** What the first attempt encoded needs a repair exactly when the caller's message does. */
  lemma {:induction false} TouchesAsBefore(s: Schema, id: nat, v: Js)
    requires WellFormed(s)
    ensures Touches(s, id, Project(s, id, v)) <==> Touches(s, id, v)
    ensures Project(s, id, v).NaN? <==> v.NaN?
    decreases v, 0
  {
    if v.Obj? && id < |s.messages| {
      var t := s.messages[id];
      forall key | key in v.props && MessageFieldAt(t, key).Some?
        ensures var f := MessageFieldAt(t, key).value;
                TouchesField(s, f, ProjectField(s, f, v.props[key])) <==> TouchesField(s, f, v.props[key])
      {
        FieldTouchesAsBefore(s, MessageFieldAt(t, key).value, v.props[key]);
      }
      forall key | key in v.props
        ensures TouchesEntry(s, FieldAt(t, v.props, key), ProjectEntry(s, t, key, v.props[key]))
           <==> TouchesEntry(s, FieldAt(t, v.props, key), v.props[key])
      {
      }
      if IsPublic(t, v.props) {
        PublicTouches(s, id, v);
      } else {
        NeutralTouches(s, id, v);
      }
    }
  }

  predicate TouchesEntry(s: Schema, f: Option<Field>, current: Js) { f.Some? && TouchesField(s, f.value, current) }

  lemma {:induction false} NeutralTouches(s: Schema, id: nat, v: Js)
    requires v.Obj? && id < |s.messages| && !IsPublic(s.messages[id], v.props)
    requires forall key :: key in v.props ==>
               var t := s.messages[id];
               (TouchesEntry(s, FieldAt(t, v.props, key), ProjectEntry(s, t, key, v.props[key]))
                <==> TouchesEntry(s, FieldAt(t, v.props, key), v.props[key]))
    ensures Touches(s, id, Project(s, id, v)) <==> Touches(s, id, v)
  {
    var t, p := s.messages[id], Project(s, id, v);
    assert p.props.Keys == v.props.Keys;
    forall key | key in v.props
      ensures TouchesEntry(s, FieldAt(t, p.props, key), p.props[key])
              <==> TouchesEntry(s, FieldAt(t, v.props, key), v.props[key])
    {
      assert FieldAt(t, p.props, key) == FieldAt(t, v.props, key);
    }
  }

  lemma {:induction false} PublicTouches(s: Schema, id: nat, v: Js)
    requires WellFormed(s) && v.Obj? && id < |s.messages| && IsPublic(s.messages[id], v.props)
    requires forall key :: key in v.props ==>
               var t := s.messages[id];
               (TouchesEntry(s, FieldAt(t, v.props, key), ProjectEntry(s, t, key, v.props[key]))
                <==> TouchesEntry(s, FieldAt(t, v.props, key), v.props[key]))
    ensures Touches(s, id, Project(s, id, v)) <==> Touches(s, id, v)
  {
    var t, p := s.messages[id], Project(s, id, v);
    var public, bridge := Name(t.alias.value.public), Name(t.alias.value.bridge);
    assert WellFormedType(t) && FieldIn(t.fields, bridge.name).None?;
    assert p.props.Keys == v.props.Keys - {public} + {bridge};
    assert FieldAt(t, p.props, bridge) == FieldAt(t, v.props, public) == FieldIn(t.fields, public.name);
    MovedIsRewrittenInPlace(s, t, v.props[public]);
    forall key | key in v.props && key != public && key != bridge
      ensures TouchesEntry(s, FieldAt(t, p.props, key), p.props[key])
              <==> TouchesEntry(s, FieldAt(t, v.props, key), v.props[key])
    {
      assert FieldAt(t, p.props, key) == FieldAt(t, v.props, key);
    }
    if Touches(s, id, v) {
      var key :| key in v.props && TouchesEntry(s, FieldAt(t, v.props, key), v.props[key]);
      assert key != bridge;
      var key' := if key == public then bridge else key;
      assert key' in p.props && TouchesEntry(s, FieldAt(t, p.props, key'), p.props[key']);
    }
    if Touches(s, id, p) {
      var key :| key in p.props && TouchesEntry(s, FieldAt(t, p.props, key), p.props[key]);
      var key' := if key == bridge then public else key;
      assert key' in v.props && TouchesEntry(s, FieldAt(t, v.props, key'), v.props[key']);
    }
  }
}

/** encodeProtoCompat, over a codec that is only a function. */
module EncodeProto {
  import opened Wrappers
  import opened ProtoSchema
  import opened ProtoValues
  import opened ProtoRepair
  import opened ProtoProject
  import F = ProtoRepaired
  import G = ProtoBridged
  import T = ProtoRepairTheorems

  /** A type name that is not in the schema leaves the message to the codec as it is. */
  function EncodeProtoCompat<B, E>(s: Schema, id: Option<nat>, message: Js, encode: Js -> Result<B, E>): Result<B, E> {
    if id.None? then encode(message)
    else
      var first := encode(Project(s, id.value, message));
      if first.Ok? then first
      else if !Touches(s, id.value, message) then first
      else encode(Project(s, id.value, Repair(s, id.value, message)))
  }

  /**
   * The first attempt encodes the bridged form of the message. The retry encodes the repaired form of that, and it
   * is made exactly when there is something to repair in it, or a NaN; otherwise the first failure is the answer.
   */
  lemma RetryEncodesTheRepairedForm<B, E>(s: Schema, id: nat, message: Js, first: Js, repaired: Js,
                                          encode: Js -> Result<B, E>)
    requires WellFormed(s) && G.BridgedForm(s, id, message, first) && F.RepairedForm(s, id, first, repaired)
    ensures EncodeProtoCompat(s, Some(id), message, encode)
         == if encode(first).Ok? || !(Reaches(s, id, first, RefusedScalar) || Reaches(s, id, first, NotANumber))
            then encode(first) else encode(repaired)
  {
    G.ProjectIsTheForm(s, id, message, first);
    RewritesCommute(s, id, message);
    TouchesAsBefore(s, id, message);
    T.RepairIsExact(s, id, first);
    F.RepairIsTheForm(s, id, first, repaired);
  }

  /** A codec that accepts what holds no refused scalar accepts every message of the compatible encode. */
  lemma CompatAccepts<B, E>(s: Schema, id: nat, message: Js, encode: Js -> Result<B, E>)
    requires WellFormed(s)
    requires forall v: Js :: !Reaches(s, id, v, RefusedScalar) ==> encode(v).Ok?
    ensures EncodeProtoCompat(s, Some(id), message, encode).Ok?
  {
    var first := Project(s, id, message);
    G.ProjectHasForm(s, id, message);
    F.RepairHasForm(s, id, first);
    RetryEncodesTheRepairedForm(s, id, message, first, Repair(s, id, first), encode);
    T.RepairIsExact(s, id, first);
    T.NothingRefusedIsLeft(s, id, first);
  }
}
