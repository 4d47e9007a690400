/**
 * What alias projection leaves, and what hydrate makes of it (src/Compatibility/proto-runtime.ts).
 */
module ProtoAliases {
  import opened Wrappers
  import opened ProtoSchema
  import opened ProtoValues
  import opened ProtoProject

  datatype Why = PublicSpelling | NotANumber

  /** The message fields a walk follows: under their own names, or under either spelling. */
  function Walked(t: MessageType, props: map<Key, Js>, key: Key, either: bool): Option<Field> {
    var f := if either then FieldAt(t, props, key) else MessageFieldAt(t, key);
    if f.Some? && f.value.kind == Message then f else None
  }

  /** Such a walk finds an alias spelled the public way, or a NaN where a message belongs. */
  predicate Finds(s: Schema, id: nat, v: Js, why: Why, either: bool)
    decreases v, 0
  {
    v.Obj? && id < |s.messages| &&
    ((why.PublicSpelling? && IsPublic(s.messages[id], v.props))
     || exists key :: key in v.props &&
          var f := Walked(s.messages[id], v.props, key, either);
          f.Some? && FindsField(s, f.value, v.props[key], why, either))
  }

  predicate FindsItem(s: Schema, id: nat, item: Js, why: Why, either: bool)
    decreases item, 1
  {
    (why.NotANumber? && item.NaN?) || Finds(s, id, item, why, either)
  }

  predicate FindsField(s: Schema, f: Field, current: Js, why: Why, either: bool)
    decreases current, 2
  {
    (why.NotANumber? && current.NaN?) ||
    match f.shape
    case Singular => FindsItem(s, f.typeId, current, why, either)
    case Repeated =>
      current.Arr? && exists i :: 0 <= i < |current.items| && FindsItem(s, f.typeId, current.items[i], why, either)
    case Map =>
      || (current.Obj? && exists key :: key in current.props && FindsItem(s, f.typeId, current.props[key], why, either))
      || (current.Arr? && exists i :: 0 <= i < |current.items| && FindsItem(s, f.typeId, current.items[i], why, either))
  }

  // ---------------------------------------------------------------- what makes the projection copy

  lemma {:induction false} MovesWhat(s: Schema, id: nat, v: Js)
    ensures Moves(s, id, v) <==> Finds(s, id, v, PublicSpelling, false) || Finds(s, id, v, NotANumber, false)
    decreases v, 0
  {
    if v.Obj? && id < |s.messages| {
      forall key | key in v.props && MessageFieldAt(s.messages[id], key).Some?
        ensures var f := MessageFieldAt(s.messages[id], key).value;
                MovesField(s, f, v.props[key]) <==> FindsField(s, f, v.props[key], PublicSpelling, false)
                                                    || FindsField(s, f, v.props[key], NotANumber, false)
      {
        FieldMovesWhat(s, MessageFieldAt(s.messages[id], key).value, v.props[key]);
      }
    }
  }

  lemma {:induction false} FieldMovesWhat(s: Schema, f: Field, current: Js)
    ensures MovesField(s, f, current)
       <==> FindsField(s, f, current, PublicSpelling, false) || FindsField(s, f, current, NotANumber, false)
    decreases current, 1
  {
    if f.shape == Singular {
      MovesWhat(s, f.typeId, current);
    } else if current.Arr? {
      forall i | 0 <= i < |current.items|
        ensures MovesItem(s, f.typeId, current.items[i])
           <==> FindsItem(s, f.typeId, current.items[i], PublicSpelling, false)
                || FindsItem(s, f.typeId, current.items[i], NotANumber, false)
      {
        MovesWhat(s, f.typeId, current.items[i]);
      }
    } else if current.Obj? && f.shape == Map {
      forall key | key in current.props
        ensures MovesItem(s, f.typeId, current.props[key])
           <==> FindsItem(s, f.typeId, current.props[key], PublicSpelling, false)
                || FindsItem(s, f.typeId, current.props[key], NotANumber, false)
      {
        MovesWhat(s, f.typeId, current.props[key]);
      }
    }
  }

  // ---------------------------------------------------------------- no public spelling is left

  /**
   * A message that came in with the bridge spelling is not walked, so a public spelling below it
   * stays. This says that there is one.
   */
  predicate Hides(s: Schema, id: nat, v: Js)
    decreases v, 0
  {
    v.Obj? && id < |s.messages| &&
    (HidesUnderBridge(s, s.messages[id], v.props)
     || exists key :: key in v.props &&
          var f := MessageFieldAt(s.messages[id], key); f.Some? && HidesField(s, f.value, v.props[key]))
  }

  predicate HidesUnderBridge(s: Schema, t: MessageType, props: map<Key, Js>) {
    t.alias.Some? && !IsPublic(t, props) && Name(t.alias.value.bridge) in props
    && var f := Walked(t, props, Name(t.alias.value.bridge), true);
       f.Some? && FindsField(s, f.value, props[Name(t.alias.value.bridge)], PublicSpelling, true)
  }

  predicate HidesField(s: Schema, f: Field, current: Js)
    decreases current, 2
  {
    match f.shape
    case Singular => Hides(s, f.typeId, current)
    case Repeated => current.Arr? && exists i :: 0 <= i < |current.items| && Hides(s, f.typeId, current.items[i])
    case Map =>
      || (current.Obj? && exists key :: key in current.props && Hides(s, f.typeId, current.props[key]))
      || (current.Arr? && exists i :: 0 <= i < |current.items| && Hides(s, f.typeId, current.items[i]))
  }

  /** Walking by either spelling, the projection leaves a public spelling exactly where one was hidden. */
  lemma {:induction false} ProjectionEliminates(s: Schema, id: nat, v: Js)
    requires WellFormed(s)
    ensures Finds(s, id, Project(s, id, v), PublicSpelling, true) <==> Hides(s, id, v)
    decreases v, 0
  {
    if v.Obj? && id < |s.messages| {
      var t := s.messages[id];
      assert WellFormedType(t);
      forall key | key in v.props && MessageFieldAt(t, key).Some?
        ensures var f := MessageFieldAt(t, key).value;
                FindsField(s, f, ProjectField(s, f, v.props[key]), PublicSpelling, true)
                <==> HidesField(s, f, v.props[key])
      {
        FieldEliminates(s, MessageFieldAt(t, key).value, v.props[key]);
      }
      if IsPublic(t, v.props) {
        PublicEliminates(s, id, v);
      } else {
        NeutralEliminates(s, id, v);
      }
    }
  }

  lemma {:induction false} FieldEliminates(s: Schema, f: Field, current: Js)
    requires WellFormed(s) && f.kind == Message
    ensures FindsField(s, f, ProjectField(s, f, current), PublicSpelling, true) <==> HidesField(s, f, current)
    decreases current, 1
  {
    var p := ProjectField(s, f, current);
    if f.shape == Singular {
      ProjectionEliminates(s, f.typeId, current);
    } else if current.Arr? {
      forall i | 0 <= i < |current.items|
        ensures Finds(s, f.typeId, Project(s, f.typeId, current.items[i]), PublicSpelling, true)
           <==> Hides(s, f.typeId, current.items[i])
      {
        ProjectionEliminates(s, f.typeId, current.items[i]);
      }
      SpreadEliminates(s, f, current);
    } else if current.Obj? && f.shape == Map {
      assert p.props.Keys == current.props.Keys;
      forall key | key in current.props
        ensures FindsItem(s, f.typeId, p.props[key], PublicSpelling, true) <==> Hides(s, f.typeId, current.props[key])
      {
        ProjectionEliminates(s, f.typeId, current.props[key]);
      }
      assert (exists key :: key in p.props && FindsItem(s, f.typeId, p.props[key], PublicSpelling, true))
        <==> (exists key :: key in current.props && Hides(s, f.typeId, current.props[key]));
    }
  }

  lemma {:induction false} SpreadEliminates(s: Schema, f: Field, current: Js)
    requires f.shape != Singular && current.Arr?
    requires forall i :: 0 <= i < |current.items| ==>
               (Finds(s, f.typeId, Project(s, f.typeId, current.items[i]), PublicSpelling, true)
                <==> Hides(s, f.typeId, current.items[i]))
    ensures FindsField(s, f, ProjectField(s, f, current), PublicSpelling, true) <==> HidesField(s, f, current)
  {
    var items, p := current.items, ProjectField(s, f, current);
    if p.Arr? {
      forall i | 0 <= i < |items|
        ensures |p.items| == |items| && p.items[i] == Project(s, f.typeId, items[i])
      {
        if f.shape == Map {
          assert !MovesItem(s, f.typeId, items[i]);
          UnmovedIsKept(s, f.typeId, items[i]);
        }
      }
    } else {
      forall i | 0 <= i < |items|
        ensures Index(i) in p.props && p.props[Index(i)] == Project(s, f.typeId, items[i])
      {
      }
      forall key | key in p.props
        ensures key.Index? && key.index < |items| && p.props[key] == Project(s, f.typeId, items[key.index])
      {
      }
    }
  }

  /** Off the bridge name, both walks follow the same fields. */
  lemma WalksAgree(t: MessageType, props: map<Key, Js>, key: Key)
    requires t.alias.Some? ==> key != Name(t.alias.value.bridge)
    ensures Walked(t, props, key, true) == MessageFieldAt(t, key)
  {
  }

  predicate EntryFinds(s: Schema, t: MessageType, props: map<Key, Js>, key: Key)
    requires key in props
  {
    var f := Walked(t, props, key, true); f.Some? && FindsField(s, f.value, props[key], PublicSpelling, true)
  }

  predicate EntryHides(s: Schema, t: MessageType, props: map<Key, Js>, key: Key)
    requires key in props
  {
    var f := MessageFieldAt(t, key); f.Some? && HidesField(s, f.value, props[key])
  }

  lemma {:induction false} NeutralEliminates(s: Schema, id: nat, v: Js)
    requires v.Obj? && id < |s.messages| && !IsPublic(s.messages[id], v.props) && WellFormedType(s.messages[id])
    requires forall key :: key in v.props && MessageFieldAt(s.messages[id], key).Some? ==>
               var f := MessageFieldAt(s.messages[id], key).value;
               (FindsField(s, f, ProjectField(s, f, v.props[key]), PublicSpelling, true)
                <==> HidesField(s, f, v.props[key]))
    ensures Finds(s, id, Project(s, id, v), PublicSpelling, true) <==> Hides(s, id, v)
  {
    var t, p := s.messages[id], Project(s, id, v);
    assert p.props.Keys == v.props.Keys;
    forall key | key in v.props
      ensures EntryFinds(s, t, p.props, key) <==>
                EntryHides(s, t, v.props, key)
                || (t.alias.Some? && key == Name(t.alias.value.bridge) && HidesUnderBridge(s, t, v.props))
    {
      assert p.props[key] == ProjectEntry(s, t, key, v.props[key]);
      if t.alias.Some? && key == Name(t.alias.value.bridge) {
        assert FieldIn(t.fields, key.name).None? && FieldAt(t, p.props, key) == FieldAt(t, v.props, key);
      } else {
        WalksAgree(t, p.props, key);
      }
    }
    if Finds(s, id, p, PublicSpelling, true) {
      var key :| key in p.props && EntryFinds(s, t, p.props, key);
      assert EntryHides(s, t, v.props, key) || HidesUnderBridge(s, t, v.props);
    }
    if HidesUnderBridge(s, t, v.props) {
      assert EntryFinds(s, t, p.props, Name(t.alias.value.bridge));
    } else if Hides(s, id, v) {
      var key :| key in v.props && EntryHides(s, t, v.props, key);
      assert EntryFinds(s, t, p.props, key);
    }
  }

  lemma {:induction false} PublicEliminates(s: Schema, id: nat, v: Js)
    requires v.Obj? && id < |s.messages| && IsPublic(s.messages[id], v.props) && WellFormedType(s.messages[id])
    requires forall key :: key in v.props && MessageFieldAt(s.messages[id], key).Some? ==>
               var f := MessageFieldAt(s.messages[id], key).value;
               (FindsField(s, f, ProjectField(s, f, v.props[key]), PublicSpelling, true)
                <==> HidesField(s, f, v.props[key]))
    ensures Finds(s, id, Project(s, id, v), PublicSpelling, true) <==> Hides(s, id, v)
  {
    var t, p := s.messages[id], Project(s, id, v);
    var public, bridge := Name(t.alias.value.public), Name(t.alias.value.bridge);
    assert FieldIn(t.fields, bridge.name).None? && MessageFieldAt(t, bridge).None?;
    assert p.props.Keys == v.props.Keys - {public} + {bridge};
    MovedIsRewrittenInPlace(s, t, v.props[public]);
    assert FieldAt(t, p.props, bridge) == FieldIn(t.fields, public.name);
    assert EntryFinds(s, t, p.props, bridge) <==> EntryHides(s, t, v.props, public);
    forall key | key in v.props && key != public && key != bridge
      ensures EntryFinds(s, t, p.props, key) <==> EntryHides(s, t, v.props, key)
    {
      assert p.props[key] == ProjectEntry(s, t, key, v.props[key]);
      WalksAgree(t, p.props, key);
    }
    if Finds(s, id, p, PublicSpelling, true) {
      var key :| key in p.props && EntryFinds(s, t, p.props, key);
      assert EntryHides(s, t, v.props, if key == bridge then public else key);
    }
    if Hides(s, id, v) {
      assert !HidesUnderBridge(s, t, v.props);
      var key :| key in v.props && EntryHides(s, t, v.props, key);
      if key == public {
        assert EntryFinds(s, t, p.props, bridge);
      } else {
        assert EntryHides(s, t, v.props, key);
        assert MessageFieldAt(t, key).Some? && key != bridge;
        assert EntryFinds(s, t, p.props, key);
      }
    }
  }

  /** A message changes whenever a public spelling was reached by the projection's own walk. */
  lemma ProjectIsExact(s: Schema, id: nat, v: Js)
    requires WellFormed(s)
    ensures Finds(s, id, v, PublicSpelling, false) ==> Project(s, id, v) != v
    ensures Moves(s, id, v) <==> Finds(s, id, v, PublicSpelling, false) || Finds(s, id, v, NotANumber, false)
    ensures !Moves(s, id, v) ==> Project(s, id, v) == v
  {
    MovesWhat(s, id, v);
    NoneLeft(s, id, v);
    if !Moves(s, id, v) {
      UnmovedIsKept(s, id, v);
    }
  }

  lemma {:induction false} NoneLeft(s: Schema, id: nat, v: Js)
    requires WellFormed(s)
    ensures !Finds(s, id, Project(s, id, v), PublicSpelling, false)
    decreases v, 0
  {
    if v.Obj? && id < |s.messages| {
      var t, p := s.messages[id], Project(s, id, v);
      assert WellFormedType(t);
      forall key | key in p.props && MessageFieldAt(t, key).Some?
        ensures !FindsField(s, MessageFieldAt(t, key).value, p.props[key], PublicSpelling, false)
      {
        assert key in v.props && p.props[key] == ProjectEntry(s, t, key, v.props[key]);
        NoneLeftInField(s, MessageFieldAt(t, key).value, v.props[key]);
      }
    }
  }

  lemma {:induction false} NoneLeftInField(s: Schema, f: Field, current: Js)
    requires WellFormed(s)
    ensures !FindsField(s, f, ProjectField(s, f, current), PublicSpelling, false)
    decreases current, 1
  {
    var p := ProjectField(s, f, current);
    if f.shape == Singular {
      NoneLeft(s, f.typeId, current);
    } else if current.Arr? {
      forall i | 0 <= i < |current.items|
        ensures !FindsItem(s, f.typeId, Project(s, f.typeId, current.items[i]), PublicSpelling, false)
      {
        NoneLeft(s, f.typeId, current.items[i]);
      }
      if !MovesField(s, f, current) {
        UnmovedFieldIsKept(s, f, current);
        FieldMovesWhat(s, f, current);
      } else if p.Obj? {
        assert forall key :: key in p.props ==> p.props[key] == Project(s, f.typeId, current.items[key.index]);
      }
    } else if current.Obj? && f.shape == Map {
      forall key | key in current.props
        ensures !FindsItem(s, f.typeId, p.props[key], PublicSpelling, false)
      {
        NoneLeft(s, f.typeId, current.props[key]);
      }
    }
  }
}

module ProtoHydrate {
  import opened Wrappers
  import opened ProtoSchema
  import opened ProtoValues
  import opened ProtoProject

  /** How a 64-bit value becomes a `Long`; anything else comes back as it is. */
  type Longs = (Kind, Js) -> Js

  /** The key a public name is read from; the two spellings together are not a case this answers. */
  function SourceKey(t: MessageType, props: map<Key, Js>, key: Key): Key {
    if t.alias.Some? && key == Name(t.alias.value.public) && key !in props then Name(t.alias.value.bridge) else key
  }

  /** The keys of the result: the bridge name is read as the public one. */
  function PublicKeys(t: MessageType, props: map<Key, Js>): (keys: set<Key>)
    ensures forall key :: key in keys ==> SourceKey(t, props, key) in props
  {
    if t.alias.Some? && Name(t.alias.value.bridge) in props
    then props.Keys - {Name(t.alias.value.bridge)} + {Name(t.alias.value.public)}
    else props.Keys
  }

  function Hydrate(s: Schema, id: nat, longs: Longs, v: Js): Js
    decreases v, 0
  {
    if v.Arr? then Obj(map key | key in IndexKeys(|v.items|) :: v.items[key.index])
    else if !v.Obj? || id >= |s.messages| then v
    else
      var t := s.messages[id];
      Obj(map key | key in PublicKeys(t, v.props) ::
          HydrateEntry(s, t, longs, key, v.props[SourceKey(t, v.props, key)]))
  }

  function HydrateEntry(s: Schema, t: MessageType, longs: Longs, key: Key, nested: Js): Js
    decreases nested, 2
  {
    var f := MessageFieldAt(t, key);
    if f.Some? then HydrateField(s, f.value, longs, nested)
    else if key.Name? && FieldIn(t.fields, key.name).Some?
      && FieldIn(t.fields, key.name).value.kind in {Signed64, Unsigned64}
    then longs(FieldIn(t.fields, key.name).value.kind, nested)
    else nested
  }

  function HydrateItem(s: Schema, id: nat, longs: Longs, item: Js): Js
    decreases item, 1
  {
    if IsObject(item) then Hydrate(s, id, longs, item) else item
  }

  function HydrateField(s: Schema, f: Field, longs: Longs, nested: Js): Js
    decreases nested, 1
  {
    match f.shape
    case Singular => if IsObject(nested) then Hydrate(s, f.typeId, longs, nested) else nested
    case Repeated =>
      if nested.Arr? then
        Arr(seq(|nested.items|, i requires 0 <= i < |nested.items| =>
          HydrateItem(s, f.typeId, longs, nested.items[i])))
      else nested
    case Map =>
      if nested.Obj? then Obj(map key | key in nested.props :: HydrateItem(s, f.typeId, longs, nested.props[key]))
      else if nested.Arr? then
        Obj(map key | key in IndexKeys(|nested.items|) :: HydrateItem(s, f.typeId, longs, nested.items[key.index]))
      else nested
  }

  // ---------------------------------------------------------------- one spelling

  /** The name this library publishes a key under. */
  function PublicKey(t: MessageType, key: Key): Key {
    if t.alias.Some? && key == Name(t.alias.value.bridge) then Name(t.alias.value.public) else key
  }

  /**
   * No message spells its aliased field both ways: none that the projection walks, or, walking by either
   * spelling, none at all.
   */
  predicate OneSpelling(s: Schema, id: nat, v: Js, either: bool)
    decreases v, 0
  {
    v.Obj? && id < |s.messages| ==>
      var t := s.messages[id];
      && (t.alias.Some? ==> Name(t.alias.value.public) !in v.props || Name(t.alias.value.bridge) !in v.props)
      && forall key :: key in v.props ==>
           var f := MessageFieldAt(t, if either then PublicKey(t, key) else key);
           f.Some? ==> OneSpellingField(s, f.value, v.props[key], either)
  }

  predicate OneSpellingField(s: Schema, f: Field, current: Js, either: bool)
    decreases current, 1
  {
    match f.shape
    case Singular => OneSpelling(s, f.typeId, current, either)
    case Repeated =>
      current.Arr? ==> forall i :: 0 <= i < |current.items| ==> OneSpelling(s, f.typeId, current.items[i], either)
    case Map =>
      && (current.Obj? ==>
            forall key :: key in current.props ==> OneSpelling(s, f.typeId, current.props[key], either))
      && (current.Arr? ==>
            forall i :: 0 <= i < |current.items| ==> OneSpelling(s, f.typeId, current.items[i], either))
  }

  lemma {:induction false} EitherWalkIsWider(s: Schema, id: nat, v: Js)
    requires WellFormed(s) && OneSpelling(s, id, v, true)
    ensures OneSpelling(s, id, v, false)
    decreases v, 0
  {
    if v.Obj? && id < |s.messages| {
      var t := s.messages[id];
      assert WellFormedType(t);
      forall key | key in v.props && MessageFieldAt(t, key).Some?
        ensures OneSpellingField(s, MessageFieldAt(t, key).value, v.props[key], false)
      {
        assert PublicKey(t, key) == key;
        EitherFieldWalkIsWider(s, MessageFieldAt(t, key).value, v.props[key]);
      }
    }
  }

  lemma {:induction false} EitherFieldWalkIsWider(s: Schema, f: Field, current: Js)
    requires WellFormed(s) && OneSpellingField(s, f, current, true)
    ensures OneSpellingField(s, f, current, false)
    decreases current, 1
  {
    if f.shape == Singular {
      EitherWalkIsWider(s, f.typeId, current);
    } else if current.Arr? {
      forall i | 0 <= i < |current.items|
        ensures OneSpelling(s, f.typeId, current.items[i], false)
      {
        EitherWalkIsWider(s, f.typeId, current.items[i]);
      }
    } else if current.Obj? && f.shape == Map {
      forall key | key in current.props
        ensures OneSpelling(s, f.typeId, current.props[key], false)
      {
        EitherWalkIsWider(s, f.typeId, current.props[key]);
      }
    }
  }

  lemma ProjectKeepsObjects(s: Schema, id: nat, v: Js)
    ensures IsObject(Project(s, id, v)) == IsObject(v) && (!v.Obj? ==> Project(s, id, v) == v)
  {
  }

  /** Hydration reads a message and its projected form alike. */
  lemma {:induction false} HydratesAlike(s: Schema, id: nat, longs: Longs, v: Js)
    requires WellFormed(s) && OneSpelling(s, id, v, false)
    ensures Hydrate(s, id, longs, Project(s, id, v)) == Hydrate(s, id, longs, v)
    decreases v, 0
  {
    if v.Obj? && id < |s.messages| {
      var t := s.messages[id];
      forall key | key in v.props
        ensures HydrateEntry(s, t, longs, key, ProjectEntry(s, t, key, v.props[key]))
                == HydrateEntry(s, t, longs, key, v.props[key])
      {
        if MessageFieldAt(t, key).Some? {
          FieldHydratesAlike(s, MessageFieldAt(t, key).value, longs, v.props[key]);
        }
      }
      if IsPublic(t, v.props) {
        PublicHydratesAlike(s, id, longs, v);
      } else {
        NeutralHydratesAlike(s, id, longs, v);
      }
    }
  }

  lemma {:induction false} ItemHydratesAlike(s: Schema, id: nat, longs: Longs, item: Js)
    requires WellFormed(s) && OneSpelling(s, id, item, false)
    ensures HydrateItem(s, id, longs, Project(s, id, item)) == HydrateItem(s, id, longs, item)
    decreases item, 1
  {
    ProjectKeepsObjects(s, id, item);
    HydratesAlike(s, id, longs, item);
  }

  lemma {:induction false} FieldHydratesAlike(s: Schema, f: Field, longs: Longs, current: Js)
    requires WellFormed(s) && OneSpellingField(s, f, current, false)
    ensures HydrateField(s, f, longs, ProjectField(s, f, current)) == HydrateField(s, f, longs, current)
    decreases current, 2
  {
    if f.shape == Singular {
      ItemHydratesAlike(s, f.typeId, longs, current);
    } else if current.Arr? {
      forall i | 0 <= i < |current.items|
        ensures HydrateItem(s, f.typeId, longs, Project(s, f.typeId, current.items[i]))
                == HydrateItem(s, f.typeId, longs, current.items[i])
      {
        ItemHydratesAlike(s, f.typeId, longs, current.items[i]);
      }
      ArrayHydratesAlike(s, f, longs, current);
    } else if current.Obj? && f.shape == Map {
      forall key | key in current.props
        ensures HydrateItem(s, f.typeId, longs, Project(s, f.typeId, current.props[key]))
                == HydrateItem(s, f.typeId, longs, current.props[key])
      {
        ItemHydratesAlike(s, f.typeId, longs, current.props[key]);
      }
      hide Project, HydrateItem;
    }
  }

  lemma ArrayHydratesAlike(s: Schema, f: Field, longs: Longs, current: Js)
    requires f.shape != Singular && current.Arr?
    requires forall i :: 0 <= i < |current.items| ==>
               HydrateItem(s, f.typeId, longs, Project(s, f.typeId, current.items[i]))
               == HydrateItem(s, f.typeId, longs, current.items[i])
    ensures HydrateField(s, f, longs, ProjectField(s, f, current)) == HydrateField(s, f, longs, current)
  {
    hide Project, HydrateItem, MovesField;
  }

  ghost predicate EntriesAlike(s: Schema, t: MessageType, longs: Longs, props: map<Key, Js>) {
    forall key :: key in props ==>
      HydrateEntry(s, t, longs, key, ProjectEntry(s, t, key, props[key])) == HydrateEntry(s, t, longs, key, props[key])
  }

  lemma {:induction false} NeutralHydratesAlike(s: Schema, id: nat, longs: Longs, v: Js)
    requires v.Obj? && id < |s.messages| && !IsPublic(s.messages[id], v.props) && WellFormedType(s.messages[id])
    requires EntriesAlike(s, s.messages[id], longs, v.props)
    ensures Hydrate(s, id, longs, Project(s, id, v)) == Hydrate(s, id, longs, v)
  {
    var t, p := s.messages[id], Project(s, id, v);
    assert p.props.Keys == v.props.Keys;
    assert PublicKeys(t, p.props) == PublicKeys(t, v.props);
    var a, b := Hydrate(s, id, longs, p), Hydrate(s, id, longs, v);
    forall key | key in PublicKeys(t, v.props)
      ensures a.props[key] == b.props[key]
    {
      var source := SourceKey(t, v.props, key);
      assert p.props[source] == ProjectEntry(s, t, source, v.props[source]);
      if source != key {
        assert FieldIn(t.fields, t.alias.value.bridge).None?;
        assert p.props[source] == v.props[source];
      }
    }
  }

  lemma {:induction false} PublicHydratesAlike(s: Schema, id: nat, longs: Longs, v: Js)
    requires v.Obj? && id < |s.messages| && IsPublic(s.messages[id], v.props) && WellFormedType(s.messages[id])
    requires Name(s.messages[id].alias.value.bridge) !in v.props && EntriesAlike(s, s.messages[id], longs, v.props)
    ensures Hydrate(s, id, longs, Project(s, id, v)) == Hydrate(s, id, longs, v)
  {
    var t, p := s.messages[id], Project(s, id, v);
    var public, bridge := Name(t.alias.value.public), Name(t.alias.value.bridge);
    assert p.props.Keys == v.props.Keys - {public} + {bridge};
    assert PublicKeys(t, p.props) == v.props.Keys == PublicKeys(t, v.props);
    forall key | key in v.props
      ensures HydrateEntry(s, t, longs, key, p.props[SourceKey(t, p.props, key)])
              == HydrateEntry(s, t, longs, key, v.props[key])
    {
      if key == public {
        MovedIsRewrittenInPlace(s, t, v.props[public]);
      }
    }
    HydrateIs(s, id, longs, p, v.props.Keys);
    HydrateIs(s, id, longs, v, v.props.Keys);
  }

  lemma HydrateIs(s: Schema, id: nat, longs: Longs, v: Js, keys: set<Key>)
    requires v.Obj? && id < |s.messages| && keys == PublicKeys(s.messages[id], v.props)
    ensures Hydrate(s, id, longs, v)
         == Obj(map key | key in keys ::
             HydrateEntry(s, s.messages[id], longs, key, v.props[SourceKey(s.messages[id], v.props, key)]))
  {
  }

  // ---------------------------------------------------------------- every alias by its public name

  /**
   * `r` is `v` with every recognised key under its public name, at every depth: each entry of `v` is there,
   * nothing else is, and only 64-bit leaves differ. An array where an object belongs has become one.
   */
  ghost predicate PublicForm(s: Schema, id: nat, longs: Longs, v: Js, r: Js)
    decreases v, 0
  {
    if v.Arr? then r == Obj(map key | key in IndexKeys(|v.items|) :: v.items[key.index])
    else if !v.Obj? || id >= |s.messages| then r == v
    else
      var t := s.messages[id];
      && r.Obj?
      && (forall key :: key in v.props ==>
            PublicKey(t, key) in r.props
            && EntryForm(s, t, longs, PublicKey(t, key), v.props[key], r.props[PublicKey(t, key)]))
      && (forall key :: key in r.props ==> Named(t, v.props, key))
  }

  /** Some key of the message is published under this name. */
  ghost predicate Named(t: MessageType, props: map<Key, Js>, key: Key) {
    exists source :: source in props && PublicKey(t, source) == key
  }

  ghost predicate EntryForm(s: Schema, t: MessageType, longs: Longs, key: Key, nested: Js, r: Js)
    decreases nested, 3
  {
    var f := if key.Name? then FieldIn(t.fields, key.name) else None;
    if f.None? then r == nested
    else if f.value.kind in {Signed64, Unsigned64} then r == longs(f.value.kind, nested)
    else if f.value.kind == Message then FieldForm(s, f.value, longs, nested, r)
    else r == nested
  }

  ghost predicate ItemForm(s: Schema, id: nat, longs: Longs, item: Js, r: Js)
    decreases item, 1
  {
    if IsObject(item) then PublicForm(s, id, longs, item, r) else r == item
  }

  ghost predicate FieldForm(s: Schema, f: Field, longs: Longs, nested: Js, r: Js)
    decreases nested, 2
  {
    match f.shape
    case Singular => ItemForm(s, f.typeId, longs, nested, r)
    case Repeated =>
      if !nested.Arr? then r == nested
      else
        && r.Arr? && |r.items| == |nested.items|
        && forall i :: 0 <= i < |nested.items| ==> ItemForm(s, f.typeId, longs, nested.items[i], r.items[i])
    case Map =>
      if nested.Obj? then
        && r.Obj? && r.props.Keys == nested.props.Keys
        && forall key :: key in nested.props ==> ItemForm(s, f.typeId, longs, nested.props[key], r.props[key])
      else if nested.Arr? then
        && r.Obj? && r.props.Keys == IndexKeys(|nested.items|)
        && forall i :: 0 <= i < |nested.items| ==> ItemForm(s, f.typeId, longs, nested.items[i], r.props[Index(i)])
      else r == nested
  }

  /** Hydration gives every key its public name and drops none. */
  lemma {:induction false} HydrateIsPublicForm(s: Schema, id: nat, longs: Longs, v: Js)
    requires WellFormed(s) && OneSpelling(s, id, v, true)
    ensures PublicForm(s, id, longs, v, Hydrate(s, id, longs, v))
    decreases v, 0
  {
    if v.Obj? && id < |s.messages| {
      var t, r := s.messages[id], Hydrate(s, id, longs, v);
      forall key | key in v.props
        ensures PublicKey(t, key) in r.props
        ensures r.props[PublicKey(t, key)] == HydrateEntry(s, t, longs, PublicKey(t, key), v.props[key])
        ensures EntryForm(s, t, longs, PublicKey(t, key), v.props[key], r.props[PublicKey(t, key)])
      {
        assert SourceKey(t, v.props, PublicKey(t, key)) == key;
        HydrateEntryIsPublicForm(s, t, longs, PublicKey(t, key), v.props[key]);
      }
      KeysAreNamed(s, id, longs, v);
    }
  }

  lemma KeysAreNamed(s: Schema, id: nat, longs: Longs, v: Js)
    requires v.Obj? && id < |s.messages|
    ensures forall key :: key in Hydrate(s, id, longs, v).props ==> Named(s.messages[id], v.props, key)
  {
    var t := s.messages[id];
    forall key | key in PublicKeys(t, v.props)
      ensures Named(t, v.props, key)
    {
      assert PublicKey(t, SourceKey(t, v.props, key)) == key;
    }
  }

  lemma {:induction false} HydrateEntryIsPublicForm(s: Schema, t: MessageType, longs: Longs, key: Key, nested: Js)
    requires WellFormed(s)
    requires MessageFieldAt(t, key).Some? ==> OneSpellingField(s, MessageFieldAt(t, key).value, nested, true)
    ensures EntryForm(s, t, longs, key, nested, HydrateEntry(s, t, longs, key, nested))
    decreases nested, 3
  {
    if MessageFieldAt(t, key).Some? {
      HydrateFieldIsPublicForm(s, MessageFieldAt(t, key).value, longs, nested);
    }
  }

  lemma {:induction false} HydrateItemIsPublicForm(s: Schema, id: nat, longs: Longs, item: Js)
    requires WellFormed(s) && OneSpelling(s, id, item, true)
    ensures ItemForm(s, id, longs, item, HydrateItem(s, id, longs, item))
    decreases item, 1
  {
    if IsObject(item) {
      HydrateIsPublicForm(s, id, longs, item);
    }
  }

  lemma {:induction false} HydrateFieldIsPublicForm(s: Schema, f: Field, longs: Longs, nested: Js)
    requires WellFormed(s) && OneSpellingField(s, f, nested, true)
    ensures FieldForm(s, f, longs, nested, HydrateField(s, f, longs, nested))
    decreases nested, 2
  {
    if f.shape == Singular {
      HydrateItemIsPublicForm(s, f.typeId, longs, nested);
    } else if nested.Arr? {
      forall i | 0 <= i < |nested.items|
        ensures ItemForm(s, f.typeId, longs, nested.items[i], HydrateItem(s, f.typeId, longs, nested.items[i]))
      {
        HydrateItemIsPublicForm(s, f.typeId, longs, nested.items[i]);
      }
      assert forall i :: 0 <= i < |nested.items| ==> Index(i) in IndexKeys(|nested.items|);
    } else if nested.Obj? && f.shape == Map {
      forall key | key in nested.props
        ensures ItemForm(s, f.typeId, longs, nested.props[key], HydrateItem(s, f.typeId, longs, nested.props[key]))
      {
        HydrateItemIsPublicForm(s, f.typeId, longs, nested.props[key]);
      }
    }
  }

  /** There is one such form only. */
  lemma {:induction false} PublicFormIsOne(s: Schema, id: nat, longs: Longs, v: Js, a: Js, b: Js)
    requires PublicForm(s, id, longs, v, a) && PublicForm(s, id, longs, v, b)
    ensures a == b
    decreases v, 0
  {
    if v.Obj? && id < |s.messages| {
      var t := s.messages[id];
      forall key | key in v.props
        ensures a.props[PublicKey(t, key)] == b.props[PublicKey(t, key)]
      {
        EntryFormIsOne(s, t, longs, PublicKey(t, key), v.props[key],
                       a.props[PublicKey(t, key)], b.props[PublicKey(t, key)]);
      }
      forall key
        ensures key in a.props <==> key in b.props
        ensures key in a.props ==> a.props[key] == b.props[key]
      {
        if key in a.props || key in b.props {
          var source :| source in v.props && PublicKey(t, source) == key;
        }
      }
      assert a.props == b.props;
    }
  }

  lemma {:induction false} EntryFormIsOne(s: Schema, t: MessageType, longs: Longs, key: Key, nested: Js, a: Js, b: Js)
    requires EntryForm(s, t, longs, key, nested, a) && EntryForm(s, t, longs, key, nested, b)
    ensures a == b
    decreases nested, 3
  {
    if MessageFieldAt(t, key).Some? {
      FieldFormIsOne(s, MessageFieldAt(t, key).value, longs, nested, a, b);
    }
  }

  lemma {:induction false} ItemFormIsOne(s: Schema, id: nat, longs: Longs, item: Js, a: Js, b: Js)
    requires ItemForm(s, id, longs, item, a) && ItemForm(s, id, longs, item, b)
    ensures a == b
    decreases item, 1
  {
    if IsObject(item) {
      PublicFormIsOne(s, id, longs, item, a, b);
    }
  }

  lemma {:induction false} FieldFormIsOne(s: Schema, f: Field, longs: Longs, nested: Js, a: Js, b: Js)
    requires FieldForm(s, f, longs, nested, a) && FieldForm(s, f, longs, nested, b)
    ensures a == b
    decreases nested, 2
  {
    if f.shape == Singular {
      ItemFormIsOne(s, f.typeId, longs, nested, a, b);
    } else if nested.Arr? && f.shape == Repeated {
      forall i | 0 <= i < |nested.items|
        ensures a.items[i] == b.items[i]
      {
        ItemFormIsOne(s, f.typeId, longs, nested.items[i], a.items[i], b.items[i]);
      }
    } else if nested.Arr? {
      forall key | key in IndexKeys(|nested.items|)
        ensures a.props[key] == b.props[key]
      {
        assert key == Index(key.index);
        ItemFormIsOne(s, f.typeId, longs, nested.items[key.index], a.props[key], b.props[key]);
      }
      assert a.props == b.props;
    } else if nested.Obj? && f.shape == Map {
      forall key | key in nested.props
        ensures a.props[key] == b.props[key]
      {
        ItemFormIsOne(s, f.typeId, longs, nested.props[key], a.props[key], b.props[key]);
      }
      assert a.props == b.props;
    }
  }

  /** Nowhere along the recognised fields is there a bridge spelling. */
  predicate NoBridge(s: Schema, id: nat, v: Js)
    decreases v, 0
  {
    v.Obj? && id < |s.messages| ==>
      var t := s.messages[id];
      && (t.alias.Some? ==> Name(t.alias.value.bridge) !in v.props)
      && forall key :: key in v.props && MessageFieldAt(t, key).Some? ==>
           NoBridgeField(s, MessageFieldAt(t, key).value, v.props[key])
  }

  predicate NoBridgeField(s: Schema, f: Field, current: Js)
    decreases current, 1
  {
    match f.shape
    case Singular => NoBridge(s, f.typeId, current)
    case Repeated => current.Arr? ==> forall i :: 0 <= i < |current.items| ==> NoBridge(s, f.typeId, current.items[i])
    case Map => current.Obj? ==> forall key :: key in current.props ==> NoBridge(s, f.typeId, current.props[key])
  }

  lemma {:induction false} PublicFormHasNoBridge(s: Schema, id: nat, longs: Longs, v: Js, r: Js)
    requires WellFormed(s) && PublicForm(s, id, longs, v, r)
    ensures NoBridge(s, id, r)
    decreases v, 0
  {
    if v.Obj? && id < |s.messages| {
      var t := s.messages[id];
      assert WellFormedType(t);
      forall key | key in r.props && MessageFieldAt(t, key).Some?
        ensures NoBridgeField(s, MessageFieldAt(t, key).value, r.props[key])
      {
        var source :| source in v.props && PublicKey(t, source) == key;
        assert EntryForm(s, t, longs, key, v.props[source], r.props[key]);
        FieldFormHasNoBridge(s, MessageFieldAt(t, key).value, longs, v.props[source], r.props[key]);
      }
    }
  }

  lemma {:induction false} FieldFormHasNoBridge(s: Schema, f: Field, longs: Longs, nested: Js, r: Js)
    requires WellFormed(s) && FieldForm(s, f, longs, nested, r)
    ensures NoBridgeField(s, f, r)
    decreases nested, 2
  {
    if f.shape == Singular {
      ItemFormHasNoBridge(s, f.typeId, longs, nested, r);
    } else if nested.Arr? && f.shape == Repeated {
      forall i | 0 <= i < |r.items|
        ensures NoBridge(s, f.typeId, r.items[i])
      {
        ItemFormHasNoBridge(s, f.typeId, longs, nested.items[i], r.items[i]);
      }
    } else if nested.Arr? {
      forall key | key in r.props
        ensures NoBridge(s, f.typeId, r.props[key])
      {
        assert key in IndexKeys(|nested.items|) && key == Index(key.index);
        ItemFormHasNoBridge(s, f.typeId, longs, nested.items[key.index], r.props[key]);
      }
    } else if nested.Obj? && f.shape == Map {
      forall key | key in r.props
        ensures NoBridge(s, f.typeId, r.props[key])
      {
        ItemFormHasNoBridge(s, f.typeId, longs, nested.props[key], r.props[key]);
      }
    }
  }

  lemma {:induction false} ItemFormHasNoBridge(s: Schema, id: nat, longs: Longs, item: Js, r: Js)
    requires WellFormed(s) && ItemForm(s, id, longs, item, r)
    ensures NoBridge(s, id, r)
    decreases item, 1
  {
    if IsObject(item) {
      PublicFormHasNoBridge(s, id, longs, item, r);
    }
  }

  /**
   * Hydrating a projected message gives the message back with every alias under its public name, whichever
   * way each level spelled it, and with 64-bit values settled.
   */
  lemma HydrateUndoesProject(s: Schema, id: nat, longs: Longs, v: Js)
    requires WellFormed(s) && OneSpelling(s, id, v, true)
    ensures PublicForm(s, id, longs, v, Hydrate(s, id, longs, Project(s, id, v)))
    ensures NoBridge(s, id, Hydrate(s, id, longs, Project(s, id, v)))
  {
    EitherWalkIsWider(s, id, v);
    HydratesAlike(s, id, longs, v);
    HydrateIsPublicForm(s, id, longs, v);
    PublicFormHasNoBridge(s, id, longs, v, Hydrate(s, id, longs, v));
  }

  // ---------------------------------------------------------------- the public form comes back

  /** A message already in the form hydration gives: public spellings, 64-bit values settled, real objects. */
  predicate Settled(s: Schema, id: nat, longs: Longs, v: Js)
    decreases v, 0
  {
    !v.Arr? &&
    (v.Obj? && id < |s.messages| ==>
      var t := s.messages[id];
      && (t.alias.Some? ==> Name(t.alias.value.bridge) !in v.props)
      && forall key :: key in v.props ==> SettledEntry(s, t, longs, key, v.props[key]))
  }

  predicate SettledEntry(s: Schema, t: MessageType, longs: Longs, key: Key, nested: Js)
    decreases nested, 2
  {
    var f := MessageFieldAt(t, key);
    if f.Some? then SettledField(s, f.value, longs, nested)
    else HydrateEntry(s, t, longs, key, nested) == nested
  }

  predicate SettledField(s: Schema, f: Field, longs: Longs, nested: Js)
    decreases nested, 1
  {
    match f.shape
    case Singular => Settled(s, f.typeId, longs, nested)
    case Repeated =>
      nested.Arr? ==> forall i :: 0 <= i < |nested.items| ==> Settled(s, f.typeId, longs, nested.items[i])
    case Map =>
      && !nested.Arr?
      && (nested.Obj? ==> forall key :: key in nested.props ==> Settled(s, f.typeId, longs, nested.props[key]))
  }

  lemma {:induction false} SettledIsKept(s: Schema, id: nat, longs: Longs, v: Js)
    requires Settled(s, id, longs, v)
    ensures Hydrate(s, id, longs, v) == v && OneSpelling(s, id, v, false)
    decreases v, 0
  {
    if v.Obj? && id < |s.messages| {
      var t := s.messages[id];
      forall key | key in v.props
        ensures key in PublicKeys(t, v.props) && SourceKey(t, v.props, key) == key
        ensures HydrateEntry(s, t, longs, key, v.props[key]) == v.props[key]
        ensures MessageFieldAt(t, key).Some? ==> OneSpellingField(s, MessageFieldAt(t, key).value, v.props[key], false)
      {
        assert SettledEntry(s, t, longs, key, v.props[key]);
        if MessageFieldAt(t, key).Some? {
          SettledFieldIsKept(s, MessageFieldAt(t, key).value, longs, v.props[key]);
        }
      }
      assert PublicKeys(t, v.props) == v.props.Keys;
    }
  }

  lemma {:induction false} SettledFieldIsKept(s: Schema, f: Field, longs: Longs, nested: Js)
    requires SettledField(s, f, longs, nested)
    ensures HydrateField(s, f, longs, nested) == nested && OneSpellingField(s, f, nested, false)
    decreases nested, 1
  {
    if f.shape == Singular {
      SettledIsKept(s, f.typeId, longs, nested);
    } else if nested.Arr? {
      forall i | 0 <= i < |nested.items|
        ensures HydrateItem(s, f.typeId, longs, nested.items[i]) == nested.items[i]
                && OneSpelling(s, f.typeId, nested.items[i], false)
      {
        SettledIsKept(s, f.typeId, longs, nested.items[i]);
      }
    } else if nested.Obj? && f.shape == Map {
      forall key | key in nested.props
        ensures HydrateItem(s, f.typeId, longs, nested.props[key]) == nested.props[key]
                && OneSpelling(s, f.typeId, nested.props[key], false)
      {
        SettledIsKept(s, f.typeId, longs, nested.props[key]);
      }
    }
  }

  /** A message already in public form comes back as it was. */
  lemma SettledComesBack(s: Schema, id: nat, longs: Longs, v: Js)
    requires WellFormed(s) && Settled(s, id, longs, v)
    ensures Hydrate(s, id, longs, Project(s, id, v)) == v
  {
    SettledIsKept(s, id, longs, v);
    HydratesAlike(s, id, longs, v);
  }
}
