/**
 * repairMessage as it runs: on an object graph that may share nodes or contain cycles, with a mutable
 * set of ancestors and copies made on the first write (src/Compatibility/proto-runtime.ts).
 */
module ProtoGraph {
  import opened Wrappers
  import opened ProtoSchema
  import opened ProtoValues
  import opened ProtoRepair
  import F = ProtoRepaired
  import T = ProtoRepairTheorems

  type Ref = nat

  datatype Value = Prim(js: Js) | Pointer(ref: Ref)

  datatype Node = ArrNode(items: seq<Value>) | ObjNode(props: map<Key, Value>)

  type Heap = map<Ref, Node>

  predicate Known(h: Heap, v: Value) { if v.Pointer? then v.ref in h else !IsObject(v.js) }

  /** Every value held by an object of the graph belongs to the graph. */
  ghost predicate Closed(h: Heap) {
    forall ref :: ref in h ==>
      match h[ref]
      case ArrNode(items) => forall i :: 0 <= i < |items| ==> Known(h, items[i])
      case ObjNode(props) => forall key :: key in props ==> Known(h, props[key])
  }

  ghost predicate Extends(h: Heap, h0: Heap) { forall ref :: ref in h0 ==> ref in h && h[ref] == h0[ref] }

  lemma ExtendsOn(h: Heap, h': Heap, h'': Heap)
    requires Extends(h', h) && Extends(h'', h')
    ensures Extends(h'', h)
  {
  }

  /** `!==`: another object or primitive, or NaN. */
  predicate Differs(a: Value, b: Value) { a != b || a == Prim(NaN) }

  // ---------------------------------------------------------------- values and trees

  /**
   * The value unfolds to this tree. A tree may stop at an object and hold it as it is; what is held lies in the
   * graph as it lay.
   */
  ghost predicate Denotes(h: Heap, v: Value, t: Js)
    decreases t
  {
    match t
    case Arr(items) =>
      v.Pointer? && v.ref in h && h[v.ref].ArrNode? && |h[v.ref].items| == |items|
      && forall i :: 0 <= i < |items| ==> Denotes(h, h[v.ref].items[i], items[i])
    case Obj(props) =>
      v.Pointer? && v.ref in h && h[v.ref].ObjNode? && h[v.ref].props.Keys == props.Keys
      && forall key :: key in props ==> Denotes(h, h[v.ref].props[key], props[key])
    case Held(ref) => v == Pointer(ref)
    case _ => v == Prim(t)
  }

  lemma {:induction false} DenotesStill(h: Heap, h': Heap, v: Value, t: Js)
    requires Denotes(h, v, t) && Extends(h', h)
    ensures Denotes(h', v, t)
    decreases t
  {
    if t.Arr? {
      forall i | 0 <= i < |t.items|
        ensures Denotes(h', h[v.ref].items[i], t.items[i])
      {
        DenotesStill(h, h', h[v.ref].items[i], t.items[i]);
      }
    } else if t.Obj? {
      forall key | key in t.props
        ensures Denotes(h', h[v.ref].props[key], t.props[key])
      {
        DenotesStill(h, h', h[v.ref].props[key], t.props[key]);
      }
    }
  }

  predicate IsMessage(s: Schema, h: Heap, id: nat, v: Value) {
    v.Pointer? && v.ref in h && h[v.ref].ObjNode? && id < |s.messages|
  }

  /** The tree has the shape of the object it stands for. */
  predicate Matches(node: Node, t: Js) {
    match node
    case ArrNode(items) => t.Arr? && |t.items| == |items|
    case ObjNode(props) => t.Obj? && t.props.Keys == props.Keys
  }

  /**
   * The tree goes as far down as the recognised fields lead, which is as far as the repair may look, and no
   * message there comes by itself again on the way down, nor by one of those above. Below a key that holds no
   * field it may stop, or not, as it likes.
   */
  ghost predicate Reads(s: Schema, h: Heap, id: nat, v: Value, t: Js, above: set<Ref>)
    decreases t, 1
  {
    if !IsMessage(s, h, id, v) then Denotes(h, v, t)
    else v.ref !in above && ReadsFields(s, h, s.messages[id], h[v.ref].props, t, above + {v.ref})
  }

  ghost predicate ReadsFields(s: Schema, h: Heap, t: MessageType, given: map<Key, Value>, tree: Js, above: set<Ref>)
    decreases tree, 0
  {
    && tree.Obj? && tree.props.Keys == given.Keys
    && forall key :: key in given ==>
         ReadsEntry(s, h, FieldAt(t, tree.props, key), given[key], tree.props[key], above)
  }

  ghost predicate FieldsRead(s: Schema, h: Heap, t: MessageType, given: map<Key, Value>, props: map<Key, Js>,
                             above: set<Ref>)
    requires props.Keys == given.Keys
  {
    forall key :: key in given ==> ReadsEntry(s, h, FieldAt(t, props, key), given[key], props[key], above)
  }

  ghost predicate ReadsEntry(s: Schema, h: Heap, f: Option<Field>, v: Value, t: Js, above: set<Ref>)
    decreases t, 4
  {
    if f.None? then Denotes(h, v, t) else ReadsField(s, h, f.value, v, t, above)
  }

  ghost predicate ReadsField(s: Schema, h: Heap, f: Field, v: Value, t: Js, above: set<Ref>)
    decreases t, 3
  {
    if f.shape == Singular then ReadsItem(s, h, f, v, t, above)
    else if IsWalked(h, f, v) then
      && Matches(h[v.ref], t)
      && forall key :: key in EntryTrees(t) ==> ReadsItem(s, h, f, Entries(h[v.ref])[key], EntryTrees(t)[key], above)
    else Denotes(h, v, t)
  }

  /** The repair goes through the items of this value: an array of a repeated field, any object of a map field. */
  predicate IsWalked(h: Heap, f: Field, v: Value) {
    v.Pointer? && v.ref in h && (f.shape == Map || (f.shape == Repeated && h[v.ref].ArrNode?))
  }

  ghost predicate ReadsItem(s: Schema, h: Heap, f: Field, v: Value, t: Js, above: set<Ref>)
    decreases t, 2
  {
    if f.kind == Message then Reads(s, h, f.typeId, v, t, above) else Denotes(h, v, t)
  }

  lemma {:induction false} ReadsDenotes(s: Schema, h: Heap, id: nat, v: Value, t: Js, above: set<Ref>)
    requires Reads(s, h, id, v, t, above)
    ensures Denotes(h, v, t)
    decreases t, 1
  {
    if IsMessage(s, h, id, v) {
      FieldsDenote(s, h, s.messages[id], v, t, above + {v.ref});
    }
  }

  lemma {:induction false} FieldsDenote(s: Schema, h: Heap, t: MessageType, v: Value, tree: Js, above: set<Ref>)
    requires v.Pointer? && v.ref in h && h[v.ref].ObjNode? && ReadsFields(s, h, t, h[v.ref].props, tree, above)
    ensures Denotes(h, v, tree)
    decreases tree, 0
  {
    var given := h[v.ref].props;
    forall key | key in given
      ensures Denotes(h, given[key], tree.props[key])
    {
      assert ReadsEntry(s, h, FieldAt(t, tree.props, key), given[key], tree.props[key], above);
      if FieldAt(t, tree.props, key).Some? {
        FieldDenotes(s, h, FieldAt(t, tree.props, key).value, given[key], tree.props[key], above);
      }
    }
  }

  lemma {:induction false} ItemDenotes(s: Schema, h: Heap, f: Field, v: Value, t: Js, above: set<Ref>)
    requires ReadsItem(s, h, f, v, t, above)
    ensures Denotes(h, v, t)
    decreases t, 2
  {
    if f.kind == Message {
      ReadsDenotes(s, h, f.typeId, v, t, above);
    }
  }

  lemma {:induction false} FieldDenotes(s: Schema, h: Heap, f: Field, v: Value, t: Js, above: set<Ref>)
    requires ReadsField(s, h, f, v, t, above)
    ensures Denotes(h, v, t)
    decreases t, 3
  {
    if f.shape == Singular {
      ItemDenotes(s, h, f, v, t, above);
    } else if IsWalked(h, f, v) {
      forall key | key in EntryTrees(t)
        ensures Denotes(h, Entries(h[v.ref])[key], EntryTrees(t)[key])
      {
        ItemDenotes(s, h, f, Entries(h[v.ref])[key], EntryTrees(t)[key], above);
      }
      EntriesDenote(h, v, t);
    }
  }

  lemma EntriesDenote(h: Heap, v: Value, t: Js)
    requires v.Pointer? && v.ref in h && Matches(h[v.ref], t)
    requires forall key :: key in EntryTrees(t) ==> Denotes(h, Entries(h[v.ref])[key], EntryTrees(t)[key])
    ensures Denotes(h, v, t)
  {
    if t.Arr? {
      forall i | 0 <= i < |t.items|
        ensures Denotes(h, h[v.ref].items[i], t.items[i])
      {
        assert Index(i) in EntryTrees(t);
      }
    } else {
      assert EntryTrees(t) == t.props && Entries(h[v.ref]) == h[v.ref].props;
    }
  }

  lemma ItemsRead(s: Schema, h: Heap, f: Field, v: Value, t: Js, above: set<Ref>)
    requires f.shape == Repeated && v.Pointer? && v.ref in h && h[v.ref].ArrNode?
    requires ReadsField(s, h, f, v, t, above)
    ensures t.Arr? && |t.items| == |h[v.ref].items|
    ensures forall i :: 0 <= i < |t.items| ==> ReadsItem(s, h, f, h[v.ref].items[i], t.items[i], above)
  {
    forall i | 0 <= i < |t.items|
      ensures ReadsItem(s, h, f, h[v.ref].items[i], t.items[i], above)
    {
      assert Index(i) in EntryTrees(t);
    }
  }

  /** What an object of the graph holds belongs to the graph. */
  lemma EntriesAreKnown(h: Heap, v: Value)
    requires Closed(h) && v.Pointer? && v.ref in h
    ensures forall key :: key in Entries(h[v.ref]) ==> Known(h, Entries(h[v.ref])[key])
  {
  }

  /** The entries of an object, or of an array, as `for ... in` lists them. */
  function Entries(node: Node): map<Key, Value> {
    match node
    case ObjNode(props) => props
    case ArrNode(items) => map key | key in IndexKeys(|items|) :: items[key.index]
  }

  function EntryTrees(t: Js): (m: map<Key, Js>)
    ensures forall key :: key in m ==> m[key] < t
  {
    match t
    case Obj(props) => props
    case Arr(items) => map key | key in IndexKeys(|items|) :: items[key.index]
    case _ => map[]
  }

  // ---------------------------------------------------------------- the fields of one object

  /** `fieldKey` of the source: the public name, or the bridge name where that is missing. */
  function KeyOf(t: MessageType, keys: set<Key>, f: Field): Option<Key> {
    if Name(f.name) in keys then Some(Name(f.name))
    else if t.alias.Some? && t.alias.value.public == f.name && Name(t.alias.value.bridge) in keys
    then Some(Name(t.alias.value.bridge))
    else None
  }

  lemma {:induction false} FieldInIs(fields: seq<Field>, j: nat)
    requires j < |fields| && forall i, k :: 0 <= i < k < |fields| ==> fields[i].name != fields[k].name
    ensures FieldIn(fields, fields[j].name) == Some(fields[j])
  {
    if j > 0 {
      assert fields[0].name != fields[j].name;
      FieldInIs(fields[1..], j - 1);
    }
  }

  /** The loop over the fields and the lookup by key meet. */
  lemma KeyOfField(t: MessageType, props: map<Key, Js>, j: nat)
    requires WellFormedType(t) && j < |t.fields|
    ensures forall key :: key in props ==>
              (FieldAt(t, props, key) == Some(t.fields[j]) <==> KeyOf(t, props.Keys, t.fields[j]) == Some(key))
  {
    FieldInIs(t.fields, j);
    if t.alias.Some? {
      assert FieldIn(t.fields, t.alias.value.bridge).None?;
    }
  }

  // ---------------------------------------------------------------- facts about one level

  lemma NullishIsKept(s: Schema, f: Field, current: Js)
    requires IsNullish(current)
    ensures RepairField(s, f, current) == current && !TouchesField(s, f, current)
  {
  }

  function ItemTargets(s: Schema, f: Field, parts: map<Key, Js>): map<Key, Js> {
    map key | key in parts :: RepairItem(s, f, parts[key])
  }

  function TouchedItems(s: Schema, f: Field, parts: map<Key, Js>): set<Key> {
    set key | key in parts && TouchesItem(s, f, parts[key])
  }

  function FieldTargets(s: Schema, t: MessageType, props: map<Key, Js>): map<Key, Js> {
    map key | key in props :: RepairEntry(s, FieldAt(t, props, key), props[key])
  }

  predicate TouchesEntry(s: Schema, f: Option<Field>, current: Js) { f.Some? && TouchesField(s, f.value, current) }

  function TouchedFields(s: Schema, t: MessageType, props: map<Key, Js>): set<Key> {
    set key | key in props && TouchesEntry(s, FieldAt(t, props, key), props[key])
  }

  /** A map field is rewritten entry by entry. */
  lemma MapFieldIs(s: Schema, f: Field, t: Js)
    requires f.shape == Map && (t.Arr? || t.Obj?)
    ensures TouchesField(s, f, t) <==> TouchedItems(s, f, EntryTrees(t)) != {}
    ensures TouchesField(s, f, t) ==> RepairField(s, f, t) == Obj(ItemTargets(s, f, EntryTrees(t)))
  {
    var m := EntryTrees(t);
    if t.Arr? {
      if TouchesField(s, f, t) {
        var i :| 0 <= i < |t.items| && TouchesItem(s, f, t.items[i]);
        assert Index(i) in TouchedItems(s, f, m);
      }
      if TouchedItems(s, f, m) != {} {
        var key :| key in TouchedItems(s, f, m);
        assert TouchesItem(s, f, t.items[key.index]);
      }
    } else {
      assert m == t.props;
      if TouchesField(s, f, t) {
        var key :| key in t.props && TouchesItem(s, f, t.props[key]);
        assert key in TouchedItems(s, f, m);
      }
      if TouchedItems(s, f, m) != {} {
        var key :| key in TouchedItems(s, f, m);
        assert key in t.props && TouchesItem(s, f, t.props[key]);
      }
    }
  }

  /** What a map field denotes in the end, copied or not. */
  lemma MapFieldDenotes(s: Schema, f: Field, h0: Heap, h: Heap, current: Value, t: Js, parts: map<Key, Js>,
                        copied: bool)
    requires f.shape == Map && (t.Arr? || t.Obj?) && parts == EntryTrees(t) && Denotes(h0, current, t) && Extends(h, h0)
    requires copied <==> TouchedItems(s, f, parts) != {}
    ensures copied <==> TouchesField(s, f, t)
    ensures if copied then RepairField(s, f, t) == Obj(ItemTargets(s, f, parts))
            else Denotes(h, current, RepairField(s, f, t))
  {
    MapFieldIs(s, f, t);
    if !copied {
      T.UntouchedFieldIsKept(s, f, t);
      DenotesStill(h0, h, current, t);
    }
  }

  /** So is a message, field by field. */
  lemma MessageIs(s: Schema, id: nat, t: Js)
    requires t.Obj? && id < |s.messages|
    ensures Touches(s, id, t) <==> TouchedFields(s, s.messages[id], t.props) != {}
    ensures Repair(s, id, t) == Obj(FieldTargets(s, s.messages[id], t.props))
  {
    if Touches(s, id, t) {
      var key :| key in t.props && TouchesEntry(s, FieldAt(s.messages[id], t.props, key), t.props[key]);
      assert key in TouchedFields(s, s.messages[id], t.props);
    }
    if TouchedFields(s, s.messages[id], t.props) != {} {
      var key :| key in TouchedFields(s, s.messages[id], t.props);
      assert TouchesEntry(s, FieldAt(s.messages[id], t.props, key), t.props[key]);
    }
  }

  /**
   * A copy in progress: the keys in `done` hold what they should, the others what was given, and a
   * copy was begun exactly when one of the done keys is among the touched.
   */
  ghost predicate Partly(h: Heap, given: map<Key, Value>, output: map<Key, Value>, target: map<Key, Js>,
                         touched: set<Key>, done: set<Key>, copied: bool)
  {
    && given.Keys == output.Keys == target.Keys && done <= given.Keys
    && (forall key :: key in given && key !in done ==> output[key] == given[key])
    && (forall key :: key in done ==> Denotes(h, output[key], target[key]))
    && (copied <==> done * touched != {})
  }

  lemma NothingDone(s: Schema, f: Field, h: Heap, given: map<Key, Value>, parts: map<Key, Js>)
    requires parts.Keys == given.Keys
    ensures Partly(h, given, given, ItemTargets(s, f, parts), TouchedItems(s, f, parts), {}, false)
  {
  }

  lemma PartlyStill(h: Heap, h': Heap, given: map<Key, Value>, output: map<Key, Value>, target: map<Key, Js>,
                    touched: set<Key>, done: set<Key>, copied: bool)
    requires Partly(h, given, output, target, touched, done, copied) && Extends(h', h)
    ensures Partly(h', given, output, target, touched, done, copied)
  {
    forall key | key in done
      ensures Denotes(h', output[key], target[key])
    {
      DenotesStill(h, h', output[key], target[key]);
    }
  }

  /** One more key: `item` is what its value became. */
  lemma PartlyMore(h: Heap, h': Heap, given: map<Key, Value>, output: map<Key, Value>, target: map<Key, Js>,
                   touched: set<Key>, done: set<Key>, copied: bool, key: Key, item: Value)
    requires Partly(h, given, output, target, touched, done, copied) && key in given && key !in done && Extends(h', h)
    requires Denotes(h', item, target[key]) && (Differs(item, given[key]) <==> key in touched)
    ensures Partly(h', given, if Differs(item, given[key]) then output[key := item] else output, target, touched,
                   done + {key}, copied || Differs(item, given[key]))
  {
    PartlyStill(h, h', given, output, target, touched, done, copied);
    assert (done + {key}) * touched == done * touched + (if key in touched then {key} else {});
  }

  /** The same for an array: the first `n` items hold what they should. */
  ghost predicate PartlyArray(s: Schema, f: Field, h: Heap, given: seq<Value>, items: seq<Value>, trees: seq<Js>,
                              n: nat, copied: bool)
  {
    && n <= |given| == |items| == |trees|
    && (forall k :: n <= k < |given| ==> items[k] == given[k])
    && (forall k :: 0 <= k < n ==> Denotes(h, items[k], RepairItem(s, f, trees[k])))
    && (copied <==> exists k :: 0 <= k < n && TouchesItem(s, f, trees[k]))
  }

  lemma PartlyArrayStill(s: Schema, f: Field, h: Heap, h': Heap, given: seq<Value>, items: seq<Value>, trees: seq<Js>,
                         n: nat, copied: bool)
    requires PartlyArray(s, f, h, given, items, trees, n, copied) && Extends(h', h)
    ensures PartlyArray(s, f, h', given, items, trees, n, copied)
  {
    forall k | 0 <= k < n
      ensures Denotes(h', items[k], RepairItem(s, f, trees[k]))
    {
      DenotesStill(h, h', items[k], RepairItem(s, f, trees[k]));
    }
  }

  lemma PartlyArrayMore(s: Schema, f: Field, h: Heap, h': Heap, given: seq<Value>, items: seq<Value>, trees: seq<Js>,
                        n: nat, copied: bool, item: Value)
    requires PartlyArray(s, f, h, given, items, trees, n, copied) && Extends(h', h) && n < |given|
    requires Denotes(h', item, RepairItem(s, f, trees[n])) && (Differs(item, given[n]) <==> TouchesItem(s, f, trees[n]))
    ensures PartlyArray(s, f, h', given, if Differs(item, given[n]) then items[n := item] else items, trees, n + 1,
                        copied || Differs(item, given[n]))
  {
    PartlyArrayStill(s, f, h, h', given, items, trees, n, copied);
  }

  /** One key leaves the rest of a `for … in` for the part already seen. */
  lemma KeyMoves(left: set<Key>, done: set<Key>, key: Key, keys: set<Key>)
    requires done + left == keys && done !! left && key in left
    ensures done + {key} + (left - {key}) == keys && done + {key} !! left - {key}
  {
  }

  /** The running object: its graph, and the set of ancestors of the source. */
  class Repairer {
    const schema: Schema
    var heap: Heap
    var next: Ref
    var ancestors: set<Ref>

    constructor (schema: Schema, heap: Heap, next: Ref)
      requires forall ref :: ref in heap ==> ref < next
      ensures this.schema == schema && this.heap == heap && this.next == next && ancestors == {}
    {
      this.schema, this.heap, this.next, ancestors := schema, heap, next, {};
    }

    /** `h0` is the graph the walk was started on. */
    ghost predicate Valid(h0: Heap)
      reads this
    {
      Extends(heap, h0) && Closed(h0) && ancestors <= h0.Keys && forall ref :: ref in heap ==> ref < next
    }

    method Allocate(node: Node, ghost h0: Heap) returns (r: Value)
      requires Valid(h0)
      modifies this`heap, this`next
      ensures Valid(h0) && Extends(heap, old(heap)) && heap.Keys == old(heap).Keys + {old(next)}
      ensures r == Pointer(old(next)) && heap[r.ref] == node
    {
      r := Pointer(next);
      heap := heap[next := node];
      next := next + 1;
    }

    /** The closure `repair`. */
    method RewriteItem(f: Field, item: Value, ghost h0: Heap, ghost tree: Option<Js>)
      returns (r: Value)
      requires Valid(h0) && Known(h0, item)
      requires tree.Some? ==> WellFormed(schema) && ReadsItem(schema, h0, f, item, tree.value, ancestors)
      modifies this
      ensures Valid(h0) && ancestors == old(ancestors) && Extends(heap, old(heap))
      ensures tree.Some? ==> Denotes(heap, r, RepairItem(schema, f, tree.value))
      ensures tree.Some? ==> (Differs(r, item) <==> TouchesItem(schema, f, tree.value))
      decreases |h0.Keys - ancestors|, 1
    {
      if f.kind == Message {
        r := RewriteMessage(f.typeId, item, h0, tree);
      } else {
        r := if item.Prim? then Prim(RepairScalar(schema, f, item.js)) else item;
        if tree.Some? {
          ScalarIsExact(schema, f, tree.value);
          DenotesStill(h0, heap, item, tree.value);
        }
      }
    }

    /** One item of a repeated field, into the copy. */
    method RewriteAt(f: Field, index: nat, given: seq<Value>, items: seq<Value>, copied: bool, ghost h0: Heap,
                     ghost known: bool, ghost parts: seq<Js>)
      returns (items': seq<Value>, copied': bool)
      requires Valid(h0) && index < |given| == |items| && Known(h0, given[index])
      requires known ==> WellFormed(schema) && PartlyArray(schema, f, heap, given, items, parts, index, copied)
      requires known ==> ReadsItem(schema, h0, f, given[index], parts[index], ancestors)
      modifies this
      ensures Valid(h0) && ancestors == old(ancestors) && Extends(heap, old(heap)) && |items'| == |given|
      ensures known ==> PartlyArray(schema, f, heap, given, items', parts, index + 1, copied')
      decreases |h0.Keys - ancestors|, 2
    {
      ghost var before := heap;
      var item := RewriteItem(f, given[index], h0, if known then Some(parts[index]) else None);
      if known {
        PartlyArrayMore(schema, f, before, heap, given, items, parts, index, copied, item);
      }
      items', copied' := items, copied;
      if Differs(item, given[index]) {
        items', copied' := items[index := item], true;
      }
    }

    /** A repeated field: the array is copied on the first item that differs. */
    method RewriteArray(f: Field, current: Value, ghost h0: Heap, ghost tree: Option<Js>)
      returns (r: Value)
      requires Valid(h0) && Known(h0, current)
      requires tree.Some? ==> WellFormed(schema) && ReadsField(schema, h0, f, current, tree.value, ancestors)
      requires f.shape == Repeated && current.Pointer? && h0[current.ref].ArrNode?
      modifies this
      ensures Valid(h0) && ancestors == old(ancestors) && Extends(heap, old(heap))
      ensures tree.Some? ==> Denotes(heap, r, RepairField(schema, f, tree.value))
      ensures tree.Some? ==> (Differs(r, current) <==> TouchesField(schema, f, tree.value))
      decreases |h0.Keys - ancestors|, 4
    {
      var given := heap[current.ref].items;
      if tree.Some? {
        ItemsRead(schema, h0, f, current, tree.value, ancestors);
        FieldDenotes(schema, h0, f, current, tree.value, ancestors);
      }
      ghost var parts := if tree.Some? then tree.value.items else [];
      var items, copied := RewriteItems(f, given, h0, tree.Some?, parts);
      r := FinishArray(f, current, given, items, copied, h0, tree);
    }

    /** The loop over the items of a repeated field. */
    method RewriteItems(f: Field, given: seq<Value>, ghost h0: Heap, ghost known: bool, ghost parts: seq<Js>)
      returns (items: seq<Value>, copied: bool)
      requires Valid(h0) && forall i :: 0 <= i < |given| ==> Known(h0, given[i])
      requires known ==> WellFormed(schema) && |parts| == |given|
      requires known ==> forall i :: 0 <= i < |given| ==> ReadsItem(schema, h0, f, given[i], parts[i], ancestors)
      modifies this
      ensures Valid(h0) && ancestors == old(ancestors) && Extends(heap, old(heap))
      ensures known ==> PartlyArray(schema, f, heap, given, items, parts, |given|, copied)
      decreases |h0.Keys - ancestors|, 3
    {
      items, copied := given, false;
      var index := 0;
      assert known ==> PartlyArray(schema, f, heap, given, items, parts, index, copied);
      assert Extends(heap, old(heap));
      hide ReadsItem, PartlyArray, Extends, Closed, Known;
      while index < |given|
        invariant index <= |given| == |items| && Valid(h0) && ancestors == old(ancestors) && Extends(heap, old(heap))
        invariant known ==> PartlyArray(schema, f, heap, given, items, parts, index, copied)
      {
        ghost var before := heap;
        items, copied := RewriteAt(f, index, given, items, copied, h0, known, parts);
        ExtendsOn(old(heap), before, heap);
        index := index + 1;
      }
    }

    /** The copied array, if a copy was begun. */
    method FinishArray(f: Field, current: Value, given: seq<Value>, items: seq<Value>, copied: bool, ghost h0: Heap,
                       ghost tree: Option<Js>)
      returns (r: Value)
      requires Valid(h0) && Known(h0, current) && current.Pointer? && f.shape == Repeated
      requires tree.Some? ==> tree.value.Arr? && Denotes(h0, current, tree.value)
      requires tree.Some? ==> PartlyArray(schema, f, heap, given, items, tree.value.items, |given|, copied)
      modifies this`heap, this`next
      ensures Valid(h0) && Extends(heap, old(heap))
      ensures tree.Some? ==> Denotes(heap, r, RepairField(schema, f, tree.value))
      ensures tree.Some? ==> (Differs(r, current) <==> TouchesField(schema, f, tree.value))
    {
      r := current;
      if copied {
        ghost var before := heap;
        r := Allocate(ArrNode(items), h0);
        if tree.Some? {
          PartlyArrayStill(schema, f, before, heap, given, items, tree.value.items, |given|, copied);
        }
      } else if tree.Some? {
        T.UntouchedFieldIsKept(schema, f, tree.value);
        DenotesStill(h0, heap, current, tree.value);
      }
    }

    /** The copy, if one was begun. */
    method Finish(v: Value, given: map<Key, Value>, output: map<Key, Value>, copied: bool, ghost h0: Heap,
                  ghost whole: Option<Js>, ghost target: map<Key, Js>, ghost touched: set<Key>) returns (r: Value)
      requires Valid(h0) && Known(h0, v) && v.Pointer?
      requires whole.Some? ==> Partly(heap, given, output, target, touched, given.Keys, copied)
      requires whole.Some? ==> if copied then whole.value == Obj(target) else Denotes(heap, v, whole.value)
      modifies this`heap, this`next
      ensures Valid(h0) && Extends(heap, old(heap)) && (r != v <==> copied)
      ensures whole.Some? ==> Denotes(heap, r, whole.value)
    {
      r := v;
      if copied {
        ghost var before := heap;
        r := Allocate(ObjNode(output), h0);
        if whole.Some? {
          PartlyStill(before, heap, given, output, target, touched, given.Keys, copied);
        }
      }
    }

    /** One entry of a map field, into the copy. */
    method RewriteInto(f: Field, key: Key, given: map<Key, Value>, entries: map<Key, Value>, copied: bool,
                       ghost done: set<Key>, ghost h0: Heap, ghost known: bool, ghost parts: map<Key, Js>)
      returns (entries': map<Key, Value>, copied': bool)
      requires Valid(h0) && key in given && Known(h0, given[key])
      requires known ==> WellFormed(schema) && key in parts && key !in done
      requires known ==> ReadsItem(schema, h0, f, given[key], parts[key], ancestors)
      requires known ==> Partly(heap, given, entries, ItemTargets(schema, f, parts), TouchedItems(schema, f, parts),
                                done, copied)
      modifies this
      ensures Valid(h0) && ancestors == old(ancestors) && Extends(heap, old(heap))
      ensures known ==>
                Partly(heap, given, entries', ItemTargets(schema, f, parts), TouchedItems(schema, f, parts),
                       done + {key}, copied')
      decreases |h0.Keys - ancestors|, 2
    {
      ghost var before := heap;
      var item := RewriteItem(f, given[key], h0, if known then Some(parts[key]) else None);
      if known {
        PartlyMore(before, heap, given, entries, ItemTargets(schema, f, parts), TouchedItems(schema, f, parts), done,
                   copied, key, item);
      }
      entries', copied' := entries, copied;
      if Differs(item, given[key]) {
        entries', copied' := entries[key := item], true;
      }
    }

    /** The loop over the entries of a map field, in whatever order the engine lists them. */
    method RewriteAll(f: Field, given: map<Key, Value>, ghost h0: Heap, ghost known: bool, ghost parts: map<Key, Js>)
      returns (entries: map<Key, Value>, copied: bool)
      requires Valid(h0) && forall key :: key in given ==> Known(h0, given[key])
      requires known ==> parts.Keys == given.Keys && WellFormed(schema)
      requires known ==> forall key :: key in given ==>
               ReadsItem(schema, h0, f, given[key], parts[key], ancestors)
      modifies this
      ensures Valid(h0) && ancestors == old(ancestors) && Extends(heap, old(heap))
      ensures known ==>
                Partly(heap, given, entries, ItemTargets(schema, f, parts), TouchedItems(schema, f, parts),
                       given.Keys, copied)
      decreases |h0.Keys - ancestors|, 3
    {
      entries, copied := given, false;
      var left := given.Keys;
      ghost var done: set<Key> := {};
      if known {
        NothingDone(schema, f, heap, given, parts);
      }
      assert Extends(heap, old(heap));
      hide ReadsItem, ItemTargets, TouchedItems, Partly, Extends, Closed, Known;
      while left != {}
        invariant done + left == given.Keys && done !! left
        invariant Valid(h0) && ancestors == old(ancestors) && Extends(heap, old(heap))
        invariant known ==> Partly(heap, given, entries, ItemTargets(schema, f, parts),
                                   TouchedItems(schema, f, parts), done, copied)
        decreases left
      {
        var key :| key in left;
        ghost var before := heap;
        entries, copied := RewriteInto(f, key, given, entries, copied, done, h0, known, parts);
        ExtendsOn(old(heap), before, heap);
        KeyMoves(left, done, key, given.Keys);
        left, done := left - {key}, done + {key};
      }
    }

    /** A map field: an array in its place becomes a plain object, if anything is replaced. */
    method RewriteEntries(f: Field, current: Value, ghost h0: Heap, ghost tree: Option<Js>)
      returns (r: Value)
      requires Valid(h0) && Known(h0, current) && current.Pointer? && f.shape == Map
      requires tree.Some? ==> WellFormed(schema) && ReadsField(schema, h0, f, current, tree.value, ancestors)
      modifies this
      ensures Valid(h0) && ancestors == old(ancestors) && Extends(heap, old(heap))
      ensures tree.Some? ==> (r != current <==> TouchedItems(schema, f, EntryTrees(tree.value)) != {})
      ensures tree.Some? && r != current ==> Denotes(heap, r, Obj(ItemTargets(schema, f, EntryTrees(tree.value))))
      decreases |h0.Keys - ancestors|, 4
    {
      var given := Entries(heap[current.ref]);
      ghost var parts := if tree.Some? then EntryTrees(tree.value) else map[];
      EntriesAreKnown(h0, current);
      var entries, copied := RewriteAll(f, given, h0, tree.Some?, parts);
      ghost var target, touched := ItemTargets(schema, f, parts), TouchedItems(schema, f, parts);
      assert tree.Some? ==> given.Keys * touched == touched;
      ghost var whole := if tree.Some? && copied then Some(Obj(target)) else None;
      r := Finish(current, given, entries, copied, h0, whole, target, touched);
    }

    method RewriteField(f: Field, current: Value, ghost h0: Heap, ghost tree: Option<Js>)
      returns (r: Value)
      requires Valid(h0) && Known(h0, current)
      requires tree.Some? ==> WellFormed(schema) && ReadsField(schema, h0, f, current, tree.value, ancestors)
      modifies this
      ensures Valid(h0) && ancestors == old(ancestors) && Extends(heap, old(heap))
      ensures tree.Some? ==> Denotes(heap, r, RepairField(schema, f, tree.value))
      ensures tree.Some? ==> (Differs(r, current) <==> TouchesField(schema, f, tree.value))
      decreases |h0.Keys - ancestors|, 5
    {
      if f.shape == Repeated && current.Pointer? && heap[current.ref].ArrNode? {
        r := RewriteArray(f, current, h0, tree);
      } else if f.shape == Map && current.Pointer? {
        r := RewriteEntries(f, current, h0, tree);
        if tree.Some? {
          FieldDenotes(schema, h0, f, current, tree.value, ancestors);
          MapFieldDenotes(schema, f, h0, heap, current, tree.value, EntryTrees(tree.value), r != current);
        }
      } else if f.shape == Singular {
        r := RewriteItem(f, current, h0, tree);
      } else {
        r := current;
        if tree.Some? {
          DenotesStill(h0, heap, current, tree.value);
        }
      }
    }

    /** One turn of the loop over the fields: what becomes of the value under `fieldKey`. */
    method RewriteKey(f: Field, current: Value, ghost h0: Heap, ghost tree: Option<Js>)
      returns (r: Value)
      requires Valid(h0) && Known(h0, current)
      requires tree.Some? ==> WellFormed(schema) && ReadsField(schema, h0, f, current, tree.value, ancestors)
      modifies this
      ensures Valid(h0) && ancestors == old(ancestors) && Extends(heap, old(heap))
      ensures tree.Some? ==> Denotes(heap, r, RepairField(schema, f, tree.value))
      ensures tree.Some? ==> (Differs(r, current) <==> TouchesField(schema, f, tree.value))
      decreases |h0.Keys - ancestors|, 6
    {
      if current == Prim(Null) || current == Prim(Undefined) {
        r := current;
        if tree.Some? {
          FieldDenotes(schema, h0, f, current, tree.value, ancestors);
          NullishIsKept(schema, f, tree.value);
        }
      } else {
        r := RewriteField(f, current, h0, tree);
      }
    }

    /** repairMessage: terminates on every graph, and leaves the ancestors as it found them. */
    method RewriteMessage(id: nat, v: Value, ghost h0: Heap, ghost tree: Option<Js>)
      returns (r: Value)
      requires Valid(h0) && Known(h0, v)
      requires tree.Some? ==> WellFormed(schema) && Reads(schema, h0, id, v, tree.value, ancestors)
      modifies this
      ensures Valid(h0) && ancestors == old(ancestors) && Extends(heap, old(heap))
      ensures tree.Some? ==> Denotes(heap, r, Repair(schema, id, tree.value))
      ensures tree.Some? ==> (r != v <==> Touches(schema, id, tree.value))
      decreases |h0.Keys - ancestors|, 0
    {
      if tree.Some? {
        ReadsDenotes(schema, h0, id, v, tree.value, ancestors);
        DenotesStill(h0, heap, v, tree.value);
      }
      if v.Prim? || id >= |schema.messages| || v.ref in ancestors || heap[v.ref].ArrNode? {
        return v;
      }
      if tree.Some? {
        MessageIs(schema, id, tree.value);
      }
      ancestors := ancestors + {v.ref};
      r := RewriteFields(schema.messages[id], v, h0, tree);
      ancestors := ancestors - {v.ref};
    }

    /** One turn of the loop over the fields, into the copy. */
    method RewriteKeyInto(f: Field, key: Key, t: MessageType, given: map<Key, Value>, output: map<Key, Value>,
                          copied: bool, ghost done: set<Key>, ghost h0: Heap, ghost known: bool,
                          ghost props: map<Key, Js>)
      returns (output': map<Key, Value>, copied': bool)
      requires Valid(h0) && key in given && Known(h0, given[key])
      requires known ==> WellFormed(schema) && key in props && key !in done && FieldAt(t, props, key) == Some(f)
      requires known ==> ReadsField(schema, h0, f, given[key], props[key], ancestors)
      requires known ==> Partly(heap, given, output, FieldTargets(schema, t, props), TouchedFields(schema, t, props),
                                done, copied)
      modifies this
      ensures Valid(h0) && ancestors == old(ancestors) && Extends(heap, old(heap))
      ensures known ==>
                Partly(heap, given, output', FieldTargets(schema, t, props), TouchedFields(schema, t, props),
                       done + {key}, copied')
      decreases |h0.Keys - ancestors|, 7
    {
      ghost var before := heap;
      var converted := RewriteKey(f, given[key], h0, if known then Some(props[key]) else None);
      if known {
        PartlyMore(before, heap, given, output, FieldTargets(schema, t, props), TouchedFields(schema, t, props),
                   done, copied, key, converted);
      }
      output', copied' := output, copied;
      if Differs(converted, given[key]) {
        output', copied' := output[key := converted], true;
      }
    }

    /** One turn of the loop over the fields: the key that holds the field, if there is one. */
    method RewriteNext(t: MessageType, j: nat, given: map<Key, Value>, output: map<Key, Value>, copied: bool,
                       ghost done: set<Key>, ghost h0: Heap, ghost known: bool, ghost props: map<Key, Js>)
      returns (output': map<Key, Value>, copied': bool, ghost done': set<Key>)
      requires Valid(h0) && j < |t.fields| && forall key :: key in given ==> Known(h0, given[key])
      requires known ==> WellFormed(schema) && WellFormedType(t) && Visited(t, props, j, done)
      requires known ==> props.Keys == given.Keys && FieldsRead(schema, h0, t, given, props, ancestors)
      requires known ==> Partly(heap, given, output, FieldTargets(schema, t, props), TouchedFields(schema, t, props),
                                done, copied)
      modifies this
      ensures Valid(h0) && ancestors == old(ancestors) && Extends(heap, old(heap))
      ensures known ==> Visited(t, props, j + 1, done')
      ensures known ==>
                Partly(heap, given, output', FieldTargets(schema, t, props), TouchedFields(schema, t, props),
                       done', copied')
      decreases |h0.Keys - ancestors|, 8
    {
      output', copied', done' := output, copied, done;
      var key := KeyOf(t, given.Keys, t.fields[j]);
      if known {
        VisitedMore(t, props, j, done);
      }
      if key.Some? {
        output', copied' := RewriteKeyInto(t.fields[j], key.value, t, given, output, copied, done, h0, known, props);
        done' := done + {key.value};
      }
    }

    /** The loop over the fields. */
    method RewriteKeys(t: MessageType, given: map<Key, Value>, ghost h0: Heap, ghost known: bool,
                       ghost props: map<Key, Js>)
      returns (output: map<Key, Value>, copied: bool)
      requires Valid(h0) && forall key :: key in given ==> Known(h0, given[key])
      requires known ==> WellFormed(schema) && WellFormedType(t)
      requires known ==> props.Keys == given.Keys && FieldsRead(schema, h0, t, given, props, ancestors)
      modifies this
      ensures Valid(h0) && ancestors == old(ancestors) && Extends(heap, old(heap))
      ensures known ==>
                Partly(heap, given, output, FieldTargets(schema, t, props), TouchedFields(schema, t, props),
                       given.Keys, copied)
      decreases |h0.Keys - ancestors|, 9
    {
      output, copied := given, false;
      var j := 0;
      ghost var done: set<Key> := {};
      while j < |t.fields|
        invariant j <= |t.fields| && Valid(h0) && ancestors == old(ancestors) && Extends(heap, old(heap))
        invariant known ==> Partly(heap, given, output, FieldTargets(schema, t, props),
                                   TouchedFields(schema, t, props), done, copied)
        invariant known ==> Visited(t, props, j, done)
      {
        output, copied, done := RewriteNext(t, j, given, output, copied, done, h0, known, props);
        j := j + 1;
      }
      if known {
        OthersAreKept(schema, t, h0, heap, given, output, props, done, copied, ancestors);
      }
    }

    /** Below an object that is already among the ancestors. */
    method RewriteFields(t: MessageType, v: Value, ghost h0: Heap, ghost tree: Option<Js>)
      returns (r: Value)
      requires Valid(h0) && v.Pointer? && v.ref in ancestors && h0[v.ref].ObjNode?
      requires tree.Some? ==> WellFormed(schema) && WellFormedType(t)
      requires tree.Some? ==> ReadsFields(schema, h0, t, h0[v.ref].props, tree.value, ancestors)
      modifies this
      ensures Valid(h0) && ancestors == old(ancestors) && Extends(heap, old(heap))
      ensures tree.Some? ==> Denotes(heap, r, Obj(FieldTargets(schema, t, tree.value.props)))
      ensures tree.Some? ==> (r != v <==> TouchedFields(schema, t, tree.value.props) != {})
      decreases |h0.Keys - ancestors|, 10
    {
      var given := heap[v.ref].props;
      ghost var props := if tree.Some? then tree.value.props else map[];
      EntriesAreKnown(h0, v);
      var output, copied := RewriteKeys(t, given, h0, tree.Some?, props);
      ghost var target, touched := FieldTargets(schema, t, props), TouchedFields(schema, t, props);
      if tree.Some? {
        assert given.Keys * touched == touched;
        if !copied {
          UntouchedFieldsAreKept(schema, t, props);
          FieldsDenote(schema, h0, t, v, tree.value, ancestors);
          DenotesStill(h0, heap, v, tree.value);
        }
      }
      r := Finish(v, given, output, copied, h0, if tree.Some? then Some(Obj(target)) else None, target, touched);
    }
  }

  /** Keys that hold no field keep their value, and are not touched. */
  lemma OthersAreKept(s: Schema, t: MessageType, h0: Heap, h: Heap, given: map<Key, Value>, output: map<Key, Value>,
                      props: map<Key, Js>, done: set<Key>, copied: bool, above: set<Ref>)
    requires Partly(h, given, output, FieldTargets(s, t, props), TouchedFields(s, t, props), done, copied)
    requires Visited(t, props, |t.fields|, done) && Extends(h, h0)
    requires props.Keys == given.Keys && FieldsRead(s, h0, t, given, props, above)
    ensures Partly(h, given, output, FieldTargets(s, t, props), TouchedFields(s, t, props), given.Keys, copied)
  {
    var target, touched := FieldTargets(s, t, props), TouchedFields(s, t, props);
    forall key | key in given && key !in done
      ensures FieldAt(t, props, key).None? && key !in touched && Denotes(h, output[key], target[key])
    {
      DenotesStill(h0, h, given[key], props[key]);
    }
    assert done * touched == given.Keys * touched;
  }

  lemma UntouchedFieldsAreKept(s: Schema, t: MessageType, props: map<Key, Js>)
    requires TouchedFields(s, t, props) == {}
    ensures FieldTargets(s, t, props) == props
  {
    forall key | key in props && FieldAt(t, props, key).Some?
      ensures RepairField(s, FieldAt(t, props, key).value, props[key]) == props[key]
    {
      assert key !in TouchedFields(s, t, props);
      T.UntouchedFieldIsKept(s, FieldAt(t, props, key).value, props[key]);
    }
  }

  /** `done` holds the keys of the first `j` fields. */
  ghost predicate Visited(t: MessageType, props: map<Key, Js>, j: nat, done: set<Key>)
    requires j <= |t.fields|
  {
    forall key :: key in props ==>
      (key in done <==> exists i :: 0 <= i < j && FieldAt(t, props, key) == Some(t.fields[i]))
  }

  lemma VisitedMore(t: MessageType, props: map<Key, Js>, j: nat, done: set<Key>)
    requires WellFormedType(t) && j < |t.fields| && Visited(t, props, j, done)
    ensures var key := KeyOf(t, props.Keys, t.fields[j]);
            if key.None? then Visited(t, props, j + 1, done)
            else
              && key.value !in done && FieldAt(t, props, key.value) == Some(t.fields[j])
              && Visited(t, props, j + 1, done + {key.value})
  {
    KeyOfField(t, props, j);
    hide KeyOf, FieldAt;
    var key := KeyOf(t, props.Keys, t.fields[j]);
    forall k | k in props
      ensures FieldAt(t, props, k) == Some(t.fields[j]) <==> key == Some(k)
    {
    }
    if key.Some? {
      forall i | 0 <= i < j
        ensures t.fields[i] != t.fields[j]
      {
        assert t.fields[i].name != t.fields[j].name;
      }
    }
  }

  /**
   * The call from outside, with no ancestors yet. On every graph it returns, and what was there is as it
   * was. When the message is acyclic along its recognised fields the result unfolds to the plain recursive
   * repair of its tree, with nothing refused left in it, and it is another object exactly when there was
   * something to replace.
   */
  method RepairProtoMessage(schema: Schema, heap: Heap, next: Ref, id: nat, v: Value, ghost tree: Option<Js>)
    returns (r: Value, after: Heap)
    requires Closed(heap) && Known(heap, v) && forall ref :: ref in heap ==> ref < next
    requires tree.Some? ==> WellFormed(schema) && Reads(schema, heap, id, v, tree.value, {})
    ensures Extends(after, heap)
    ensures tree.Some? ==> Denotes(after, r, Repair(schema, id, tree.value))
    ensures tree.Some? ==> F.RepairedForm(schema, id, tree.value, Repair(schema, id, tree.value))
    ensures tree.Some? ==> !Reaches(schema, id, Repair(schema, id, tree.value), RefusedScalar)
    ensures tree.Some? ==>
              (r != v <==>
                 Reaches(schema, id, tree.value, RefusedScalar) || Reaches(schema, id, tree.value, NotANumber))
  {
    var repairer := new Repairer(schema, heap, next);
    r := repairer.RewriteMessage(id, v, heap, tree);
    after := repairer.heap;
    if tree.Some? {
      T.RepairIsExact(schema, id, tree.value);
      T.NothingRefusedIsLeft(schema, id, tree.value);
      F.RepairHasForm(schema, id, tree.value);
    }
  }
}
