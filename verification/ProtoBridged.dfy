/**
 * What projectAliases makes of a message, as a relation between the two (src/Compatibility/proto-runtime.ts): an
 * aliased field has the codec's spelling wherever a message field leads, and nothing else is changed.
 */
module ProtoBridged {
  import opened Wrappers
  import opened ProtoSchema
  import opened ProtoValues
  import opened ProtoProject
  import opened ProtoAliases

  /** The message has its aliased field under the public spelling, which the codec does not know. */
  predicate IsSpelledPublicly(t: MessageType, props: map<Key, Js>) {
    t.alias.Some? && Name(t.alias.value.public) in props
  }

  /** Where the value under a key of the result comes from: the public spelling gives the codec's its value. */
  function Source(t: MessageType, props: map<Key, Js>, key: Key): Key {
    if IsSpelledPublicly(t, props) && key == Name(t.alias.value.bridge) then Name(t.alias.value.public) else key
  }

  /** A key of the result: one there was, except that the public spelling has become the codec's. */
  predicate IsBridgedKey(t: MessageType, props: map<Key, Js>, key: Key) {
    if IsSpelledPublicly(t, props)
    then key == Name(t.alias.value.bridge) || (key in props && key != Name(t.alias.value.public))
    else key in props
  }

  ghost predicate BridgedForm(s: Schema, id: nat, v: Js, r: Js)
    decreases v, 0
  {
    if !v.Obj? || id >= |s.messages| then r == v
    else
      var t := s.messages[id];
      && r.Obj?
      && (forall key :: key in r.props <==> IsBridgedKey(t, v.props, key))
      && (forall key :: key in r.props && Source(t, v.props, key) in v.props ==>
            EntryForm(s, t, Source(t, v.props, key), v.props[Source(t, v.props, key)], r.props[key]))
  }

  /** A message field is followed, and anything else is the same value. */
  ghost predicate EntryForm(s: Schema, t: MessageType, key: Key, current: Js, r: Js)
    decreases current, 3
  {
    && (forall f :: f in t.fields && f.kind == Message && key == Name(f.name) ==> FieldForm(s, f, current, r))
    && ((forall f :: f in t.fields && f.kind == Message ==> key != Name(f.name)) ==> r == current)
  }

  /** An array in a map field becomes an object where something in it is moved, or equal to nothing. */
  predicate Spreads(s: Schema, f: Field, current: Js) {
    FindsField(s, f, current, PublicSpelling, false) || FindsField(s, f, current, NotANumber, false)
  }

  ghost predicate FieldForm(s: Schema, f: Field, current: Js, r: Js)
    decreases current, 2
  {
    match f.shape
    case Singular => BridgedForm(s, f.typeId, current, r)
    case Repeated =>
      if !current.Arr? then r == current
      else
        && r.Arr? && |r.items| == |current.items|
        && forall i :: 0 <= i < |r.items| ==> BridgedForm(s, f.typeId, current.items[i], r.items[i])
    case Map =>
      if current.Obj? then
        && r.Obj? && r.props.Keys == current.props.Keys
        && forall key :: key in current.props ==> BridgedForm(s, f.typeId, current.props[key], r.props[key])
      else if current.Arr? && Spreads(s, f, current) then
        && r.Obj? && r.props.Keys == IndexKeys(|current.items|)
        && forall i :: 0 <= i < |current.items| ==> BridgedForm(s, f.typeId, current.items[i], r.props[Index(i)])
      else r == current
  }

  // ---------------------------------------------------------------- the projection gives it

  /** The lookup by key finds the message field of that name. */
  lemma NamedIsFound(t: MessageType, key: Key)
    requires WellFormedType(t)
    ensures MessageFieldAt(t, key).Some? ==>
              MessageFieldAt(t, key).value in t.fields && key == Name(MessageFieldAt(t, key).value.name)
    ensures forall f :: f in t.fields && f.kind == Message && key == Name(f.name) ==> MessageFieldAt(t, key) == Some(f)
  {
    forall f | f in t.fields && f.kind == Message && key == Name(f.name)
      ensures MessageFieldAt(t, key) == Some(f)
    {
      var i :| 0 <= i < |t.fields| && t.fields[i] == f;
      FieldOfName(t.fields, i);
    }
  }

  lemma {:induction false} ProjectHasForm(s: Schema, id: nat, v: Js)
    requires WellFormed(s)
    ensures BridgedForm(s, id, v, Project(s, id, v))
    decreases v, 0
  {
    if v.Obj? && id < |s.messages| {
      var t := s.messages[id];
      forall key | key in v.props
        ensures EntryForm(s, t, key, v.props[key], ProjectEntry(s, t, key, v.props[key]))
      {
        EntryHasForm(s, t, key, v.props[key]);
      }
      EntriesMakeForm(s, id, v);
    }
  }

  lemma EntriesMakeForm(s: Schema, id: nat, v: Js)
    requires WellFormed(s) && v.Obj? && id < |s.messages|
    requires var t := s.messages[id];
             forall key :: key in v.props ==> EntryForm(s, t, key, v.props[key], ProjectEntry(s, t, key, v.props[key]))
    ensures BridgedForm(s, id, v, Project(s, id, v))
  {
    var t, r := s.messages[id], Project(s, id, v);
    forall key | key in r.props
      ensures IsBridgedKey(t, v.props, key) && Source(t, v.props, key) in v.props
      ensures r.props[key] == ProjectEntry(s, t, Source(t, v.props, key), v.props[Source(t, v.props, key)])
    {
      EntryComesFrom(s, id, v, key);
    }
    KeysAreBridged(s, id, v);
    hide EntryForm, ProjectEntry, Project, Source, IsBridgedKey, WellFormed;
  }

  lemma EntryComesFrom(s: Schema, id: nat, v: Js, key: Key)
    requires WellFormed(s) && v.Obj? && id < |s.messages| && key in Project(s, id, v).props
    ensures var t := s.messages[id];
            && IsBridgedKey(t, v.props, key) && Source(t, v.props, key) in v.props
            && Project(s, id, v).props[key]
               == ProjectEntry(s, t, Source(t, v.props, key), v.props[Source(t, v.props, key)])
  {
    hide ProjectEntry, ProjectMoved;
    var t := s.messages[id];
    if IsSpelledPublicly(t, v.props) {
      MovedIsEntry(s, t, v.props[Name(t.alias.value.public)]);
    }
  }

  lemma KeysAreBridged(s: Schema, id: nat, v: Js)
    requires WellFormed(s) && v.Obj? && id < |s.messages|
    ensures Project(s, id, v).Obj?
    ensures forall key :: key in Project(s, id, v).props <==> IsBridgedKey(s.messages[id], v.props, key)
  {
    hide ProjectEntry, ProjectMoved;
  }

  /** The value that moves is that of a single field. */
  lemma MovedIsEntry(s: Schema, t: MessageType, moved: Js)
    requires WellFormedType(t) && t.alias.Some?
    ensures ProjectMoved(s, t, moved) == ProjectEntry(s, t, Name(t.alias.value.public), moved)
  {
    NamedIsFound(t, Name(t.alias.value.public));
  }

  lemma {:induction false} EntryHasForm(s: Schema, t: MessageType, key: Key, current: Js)
    requires WellFormed(s) && WellFormedType(t)
    ensures EntryForm(s, t, key, current, ProjectEntry(s, t, key, current))
    decreases current, 3
  {
    NamedIsFound(t, key);
    if MessageFieldAt(t, key).Some? {
      FieldHasForm(s, MessageFieldAt(t, key).value, current);
    }
  }

  lemma {:induction false} FieldHasForm(s: Schema, f: Field, current: Js)
    requires WellFormed(s)
    ensures FieldForm(s, f, current, ProjectField(s, f, current))
    decreases current, 2
  {
    if f.shape == Singular {
      ProjectHasForm(s, f.typeId, current);
    } else if current.Arr? {
      FieldMovesWhat(s, f, current);
      forall i | 0 <= i < |current.items|
        ensures BridgedForm(s, f.typeId, current.items[i], Project(s, f.typeId, current.items[i]))
      {
        ProjectHasForm(s, f.typeId, current.items[i]);
      }
      ArrayHasForm(s, f, current);
    } else if current.Obj? && f.shape == Map {
      forall key | key in current.props
        ensures BridgedForm(s, f.typeId, current.props[key], Project(s, f.typeId, current.props[key]))
      {
        ProjectHasForm(s, f.typeId, current.props[key]);
      }
    }
  }

  lemma ArrayHasForm(s: Schema, f: Field, current: Js)
    requires f.shape != Singular && current.Arr?
    requires MovesField(s, f, current) <==> Spreads(s, f, current)
    requires forall i :: 0 <= i < |current.items| ==>
               BridgedForm(s, f.typeId, current.items[i], Project(s, f.typeId, current.items[i]))
    ensures FieldForm(s, f, current, ProjectField(s, f, current))
  {
    hide BridgedForm, Project, MovesField, Spreads;
    assert forall i :: 0 <= i < |current.items| ==> Index(i) in IndexKeys(|current.items|);
  }

  // ---------------------------------------------------------------- and it is the only one

  lemma {:induction false} FormIsOne(s: Schema, id: nat, v: Js, a: Js, b: Js)
    requires WellFormed(s)
    requires BridgedForm(s, id, v, a) && BridgedForm(s, id, v, b)
    ensures a == b
    decreases v, 0
  {
    if v.Obj? && id < |s.messages| {
      var t := s.messages[id];
      assert forall key :: key in a.props <==> key in b.props;
      forall key | key in a.props
        ensures a.props[key] == b.props[key]
      {
        var source := Source(t, v.props, key);
        assert IsBridgedKey(t, v.props, key) && source in v.props;
        EntryIsOne(s, t, source, v.props[source], a.props[key], b.props[key]);
      }
      assert a.props == b.props;
    }
  }

  lemma {:induction false} EntryIsOne(s: Schema, t: MessageType, key: Key, current: Js, a: Js, b: Js)
    requires WellFormed(s)
    requires EntryForm(s, t, key, current, a) && EntryForm(s, t, key, current, b)
    ensures a == b
    decreases current, 3
  {
    if f :| f in t.fields && f.kind == Message && key == Name(f.name) {
      FieldFormIsOne(s, f, current, a, b);
    }
  }

  lemma {:induction false} FieldFormIsOne(s: Schema, f: Field, current: Js, a: Js, b: Js)
    requires WellFormed(s)
    requires FieldForm(s, f, current, a) && FieldForm(s, f, current, b)
    ensures a == b
    decreases current, 2
  {
    if f.shape == Singular {
      FormIsOne(s, f.typeId, current, a, b);
    } else if current.Arr? && f.shape == Repeated {
      forall i | 0 <= i < |current.items|
        ensures a.items[i] == b.items[i]
      {
        FormIsOne(s, f.typeId, current.items[i], a.items[i], b.items[i]);
      }
    } else if current.Arr? && Spreads(s, f, current) {
      forall key | key in IndexKeys(|current.items|)
        ensures a.props[key] == b.props[key]
      {
        assert key == Index(key.index);
        FormIsOne(s, f.typeId, current.items[key.index], a.props[key], b.props[key]);
      }
      assert a.props == b.props;
    } else if current.Obj? && f.shape == Map {
      forall key | key in current.props
        ensures a.props[key] == b.props[key]
      {
        FormIsOne(s, f.typeId, current.props[key], a.props[key], b.props[key]);
      }
      assert a.props == b.props;
    }
  }

  /** The projection of a message is its bridged form, and nothing else is. */
  lemma ProjectIsTheForm(s: Schema, id: nat, v: Js, r: Js)
    requires WellFormed(s)
    ensures BridgedForm(s, id, v, r) <==> r == Project(s, id, v)
  {
    ProjectHasForm(s, id, v);
    if BridgedForm(s, id, v, r) {
      FormIsOne(s, id, v, r, Project(s, id, v));
    }
  }
}
