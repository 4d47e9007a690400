/**
 * Which values of a graph are trees, and which the repair can read as one: those from which no path, or no path
 * along recognised fields, comes by an object twice.
 */
module ProtoCycles {
  import opened Wrappers
  import opened ProtoSchema
  import opened ProtoValues
  import opened ProtoGraph

  // ---------------------------------------------------------------- whole trees

  /** A tree that holds no object back. */
  predicate Whole(t: Js) {
    match t
    case Arr(items) => forall i :: 0 <= i < |items| ==> Whole(items[i])
    case Obj(props) => forall key :: key in props ==> Whole(props[key])
    case Held(_) => false
    case _ => true
  }

  lemma {:induction false} DenotesOne(h: Heap, v: Value, t: Js, u: Js)
    requires Denotes(h, v, t) && Denotes(h, v, u) && Whole(t) && Whole(u)
    ensures t == u
    decreases t
  {
    if t.Arr? && u.Arr? {
      forall i | 0 <= i < |t.items|
        ensures t.items[i] == u.items[i]
      {
        DenotesOne(h, h[v.ref].items[i], t.items[i], u.items[i]);
      }
    } else if t.Obj? && u.Obj? {
      forall key | key in t.props
        ensures t.props[key] == u.props[key]
      {
        DenotesOne(h, h[v.ref].props[key], t.props[key], u.props[key]);
      }
    }
  }

  /** Each ancestor unfolds to a whole tree that properly contains this one. */
  ghost predicate Above(h: Heap, ancestors: set<Ref>, trees: map<Ref, Js>, t: Js) {
    forall a :: a in ancestors ==> a in trees && Whole(trees[a]) && Denotes(h, Pointer(a), trees[a]) && t < trees[a]
  }

  lemma AncestorsAreNotBelow(h: Heap, ancestors: set<Ref>, trees: map<Ref, Js>, ref: Ref, t: Js)
    requires Above(h, ancestors, trees, t) && Whole(t) && Denotes(h, Pointer(ref), t)
    ensures ref !in ancestors
  {
    if ref in ancestors {
      DenotesOne(h, Pointer(ref), t, trees[ref]);
    }
  }

  /** A whole tree is read as far as any schema leads. */
  lemma {:induction false} WholeIsRead(s: Schema, h: Heap, id: nat, v: Value, t: Js, above: set<Ref>,
                                       trees: map<Ref, Js>)
    requires Whole(t) && Denotes(h, v, t) && Above(h, above, trees, t)
    ensures Reads(s, h, id, v, t, above)
    decreases t, 0
  {
    if IsMessage(s, h, id, v) {
      AncestorsAreNotBelow(h, above, trees, v.ref, t);
      var below := trees[v.ref := t];
      forall key | key in t.props
        ensures ReadsEntry(s, h, FieldAt(s.messages[id], t.props, key), h[v.ref].props[key], t.props[key],
                           above + {v.ref})
      {
        if FieldAt(s.messages[id], t.props, key).Some? {
          WholeFieldIsRead(s, h, FieldAt(s.messages[id], t.props, key).value, h[v.ref].props[key], t.props[key],
                           above + {v.ref}, below);
        }
      }
    }
  }

  lemma {:induction false} WholeItemIsRead(s: Schema, h: Heap, f: Field, v: Value, t: Js, above: set<Ref>,
                                           trees: map<Ref, Js>)
    requires Whole(t) && Denotes(h, v, t) && Above(h, above, trees, t)
    ensures ReadsItem(s, h, f, v, t, above)
    decreases t, 1
  {
    if f.kind == Message {
      WholeIsRead(s, h, f.typeId, v, t, above, trees);
    }
  }

  lemma {:induction false} WholeFieldIsRead(s: Schema, h: Heap, f: Field, v: Value, t: Js, above: set<Ref>,
                                            trees: map<Ref, Js>)
    requires Whole(t) && Denotes(h, v, t) && Above(h, above, trees, t)
    ensures ReadsField(s, h, f, v, t, above)
    decreases t, 2
  {
    if f.shape == Singular {
      WholeItemIsRead(s, h, f, v, t, above, trees);
    } else if IsWalked(h, f, v) {
      forall key | key in EntryTrees(t)
        ensures ReadsItem(s, h, f, Entries(h[v.ref])[key], EntryTrees(t)[key], above)
      {
        WholeItemIsRead(s, h, f, Entries(h[v.ref])[key], EntryTrees(t)[key], above, trees);
      }
    }
  }

  // ---------------------------------------------------------------- paths

  /** The object has this value in a field or among its items. */
  ghost predicate Holds(h: Heap, ref: Ref, v: Value) {
    ref in h && exists key :: key in Entries(h[ref]) && Entries(h[ref])[key] == v
  }

  /** Objects of the graph met one after the other on the way down from a value. */
  ghost predicate Path(h: Heap, v: Value, path: seq<Ref>) {
    && (path != [] ==> v == Pointer(path[0]))
    && (forall i :: 0 <= i < |path| ==> path[i] in h)
    && (forall i :: 0 < i < |path| ==> Holds(h, path[i - 1], Pointer(path[i])))
  }

  predicate Revisits(path: seq<Ref>) { exists i, j :: 0 <= i < j < |path| && path[i] == path[j] }

  ghost predicate Cyclic(h: Heap, v: Value) { exists path :: Path(h, v, path) && Revisits(path) }

  ghost predicate HasTree(h: Heap, v: Value) { exists t :: Whole(t) && Denotes(h, v, t) }

  // ---------------------------------------------------------------- a tree has no cycle

  /** What an object holds unfolds to a proper part of its tree. */
  lemma PartsUnfold(h: Heap, ref: Ref, v: Value, t: Js) returns (u: Js)
    requires Whole(t) && Denotes(h, Pointer(ref), t) && Holds(h, ref, v)
    ensures Whole(u) && Denotes(h, v, u) && u < t
  {
    var key :| key in Entries(h[ref]) && Entries(h[ref])[key] == v;
    u := if t.Arr? then t.items[key.index] else t.props[key];
  }

  lemma {:induction false} TreesShrink(h: Heap, v: Value, t: Js, path: seq<Ref>, j: nat) returns (u: Js)
    requires Whole(t) && Denotes(h, v, t) && Path(h, v, path) && 0 < j < |path|
    ensures Whole(u) && Denotes(h, Pointer(path[j]), u) && u < t
    decreases j
  {
    u := PartsUnfold(h, path[0], Pointer(path[1]), t);
    if j > 1 {
      PathBehind(h, v, path, 1);
      u := TreesShrink(h, Pointer(path[1]), u, path[1..], j - 1);
    }
  }

  lemma PathBehind(h: Heap, v: Value, path: seq<Ref>, i: nat)
    requires Path(h, v, path) && i < |path|
    ensures Path(h, Pointer(path[i]), path[i..])
  {
    forall k | 0 < k < |path[i..]|
      ensures Holds(h, path[i..][k - 1], Pointer(path[i..][k]))
    {
      assert path[i..][k - 1] == path[i + k - 1] && path[i..][k] == path[i + k];
    }
  }

  lemma TreesHaveNoCycle(h: Heap, v: Value, t: Js, path: seq<Ref>)
    requires Whole(t) && Denotes(h, v, t) && Path(h, v, path)
    ensures !Revisits(path)
  {
    if i, j :| 0 <= i < j < |path| && path[i] == path[j] {
      var a := t;
      if i > 0 {
        a := TreesShrink(h, v, t, path, i);
      }
      PathBehind(h, v, path, i);
      var b := TreesShrink(h, Pointer(path[i]), a, path[i..], j - i);
      DenotesOne(h, Pointer(path[i]), a, b);
    }
  }

  // ---------------------------------------------------------------- without a cycle there is a tree

  function Members(path: seq<Ref>): set<Ref> { set ref | ref in path }

  lemma {:induction false} PathFits(path: seq<Ref>, refs: set<Ref>)
    requires !Revisits(path) && Members(path) <= refs
    ensures |path| <= |refs|
    decreases |path|
  {
    if path != [] {
      var last := path[|path| - 1];
      var shorter := path[..|path| - 1];
      assert !Revisits(shorter) by {
        assert forall i :: 0 <= i < |shorter| ==> shorter[i] == path[i];
      }
      forall ref | ref in shorter
        ensures ref in refs - {last}
      {
        var i :| 0 <= i < |shorter| && shorter[i] == ref;
        assert path[i] == ref && ref in Members(path);
      }
      assert last in Members(path);
      PathFits(shorter, refs - {last});
    }
  }

  /** `v` is where this path leads. */
  ghost predicate LeadsTo(h: Heap, top: Value, path: seq<Ref>, v: Value) {
    Path(h, top, path) && (if path == [] then v == top else Holds(h, path[|path| - 1], v))
  }

  ghost function TreeOf(h: Heap, v: Value): (t: Js)
    requires HasTree(h, v)
    ensures Whole(t) && Denotes(h, v, t)
  {
    var t :| Whole(t) && Denotes(h, v, t); t
  }

  lemma TreeFromParts(h: Heap, ref: Ref)
    requires ref in h && forall key :: key in Entries(h[ref]) ==> HasTree(h, Entries(h[ref])[key])
    ensures HasTree(h, Pointer(ref))
  {
    match h[ref]
    case ArrNode(items) =>
      forall i | 0 <= i < |items|
        ensures HasTree(h, items[i])
      {
        assert Index(i) in Entries(h[ref]);
      }
      var t := Arr(seq(|items|, i requires 0 <= i < |items| => TreeOf(h, items[i])));
      assert Whole(t) && Denotes(h, Pointer(ref), t);
    case ObjNode(props) =>
      forall key | key in props
        ensures HasTree(h, props[key])
      {
        assert key in Entries(h[ref]);
      }
      var t := Obj(map key | key in props :: TreeOf(h, props[key]));
      assert Whole(t) && Denotes(h, Pointer(ref), t);
  }

  lemma {:induction false} UnfoldsBelow(h: Heap, top: Value, path: seq<Ref>, v: Value)
    requires Closed(h) && Known(h, v) && !Cyclic(h, top) && LeadsTo(h, top, path, v)
    ensures HasTree(h, v)
    decreases |h| - |path|
  {
    if v.Prim? {
      assert Whole(v.js) && Denotes(h, v, v.js);
    } else {
      var longer := path + [v.ref];
      assert Path(h, top, longer);
      PathFits(longer, h.Keys);
      assert |h.Keys| == |h|;
      forall key | key in Entries(h[v.ref])
        ensures HasTree(h, Entries(h[v.ref])[key])
      {
        assert Holds(h, v.ref, Entries(h[v.ref])[key]);
        UnfoldsBelow(h, top, longer, Entries(h[v.ref])[key]);
      }
      TreeFromParts(h, v.ref);
    }
  }

  /** A value unfolds to a whole tree exactly when no path through its keys and items comes by an object twice. */
  lemma CyclesDoNotUnfold(h: Heap, v: Value)
    requires Closed(h) && Known(h, v)
    ensures HasTree(h, v) <==> !Cyclic(h, v)
  {
    if HasTree(h, v) && Cyclic(h, v) {
      var path :| Path(h, v, path) && Revisits(path);
      TreesHaveNoCycle(h, v, TreeOf(h, v), path);
    }
    if !Cyclic(h, v) {
      UnfoldsBelow(h, v, [], v);
    }
  }

  /** And then the repair reads that tree, whatever the schema. */
  lemma WholeTreesAreRead(s: Schema, h: Heap, id: nat, v: Value, t: Js)
    requires Whole(t) && Denotes(h, v, t)
    ensures Reads(s, h, id, v, t, {})
  {
    WholeIsRead(s, h, id, v, t, {}, map[]);
  }

  // ---------------------------------------------------------------- along recognised fields

  /** A message the repair comes to, and as which type. */
  datatype Stop = Stop(id: nat, ref: Ref)

  /** The repair hands this value of the field on as an item. */
  ghost predicate Hands(h: Heap, f: Field, v: Value, item: Value) {
    if f.shape == Singular then item == v
    else IsWalked(h, f, v) && exists key :: key in Entries(h[v.ref]) && Entries(h[v.ref])[key] == item
  }

  ghost predicate HandsUnder(s: Schema, h: Heap, a: Stop, b: Stop, key: Key)
    requires IsMessage(s, h, a.id, Pointer(a.ref)) && key in h[a.ref].props
  {
    var f := FieldAt(s.messages[a.id], h[a.ref].props, key);
    f.Some? && f.value.kind == Message && f.value.typeId == b.id
    && Hands(h, f.value, h[a.ref].props[key], Pointer(b.ref))
  }

  /** From one message to another that it has in a recognised field. */
  ghost predicate Leads(s: Schema, h: Heap, a: Stop, b: Stop)
    requires IsMessage(s, h, a.id, Pointer(a.ref))
  {
    exists key :: key in h[a.ref].props && HandsUnder(s, h, a, b, key)
  }

  ghost predicate Walk(s: Schema, h: Heap, id: nat, v: Value, stops: seq<Stop>) {
    && (forall i :: 0 <= i < |stops| ==> IsMessage(s, h, stops[i].id, Pointer(stops[i].ref)))
    && (stops != [] ==> stops[0].id == id && v == Pointer(stops[0].ref))
    && (forall i :: 0 <= i < |stops| - 1 ==> Leads(s, h, stops[i], stops[i + 1]))
  }

  function Refs(stops: seq<Stop>): seq<Ref> { seq(|stops|, i requires 0 <= i < |stops| => stops[i].ref) }

  /** Some way down the recognised fields comes by one message twice, as whatever type. */
  ghost predicate CyclicFor(s: Schema, h: Heap, id: nat, v: Value) {
    exists stops :: Walk(s, h, id, v, stops) && Revisits(Refs(stops))
  }

  ghost predicate Readable(s: Schema, h: Heap, id: nat, v: Value) { exists t :: Reads(s, h, id, v, t, {}) }

  lemma WalkBehind(s: Schema, h: Heap, id: nat, v: Value, stops: seq<Stop>)
    requires Walk(s, h, id, v, stops) && |stops| > 1
    ensures Walk(s, h, stops[1].id, Pointer(stops[1].ref), stops[1..])
  {
    var rest := stops[1..];
    forall i | 0 <= i < |rest| - 1
      ensures Leads(s, h, rest[i], rest[i + 1])
    {
      assert Leads(s, h, stops[i + 1], stops[i + 2]);
    }
  }

  /** The tree of a message has one for each message it leads to. */
  lemma PartIsRead(s: Schema, h: Heap, a: Stop, t: Js, above: set<Ref>, b: Stop) returns (u: Js)
    requires IsMessage(s, h, a.id, Pointer(a.ref)) && Reads(s, h, a.id, Pointer(a.ref), t, above) && Leads(s, h, a, b)
    ensures Reads(s, h, b.id, Pointer(b.ref), u, above + {a.ref})
  {
    var key :| key in h[a.ref].props && HandsUnder(s, h, a, b, key);
    var given := h[a.ref].props;
    assert FieldAt(s.messages[a.id], t.props, key) == FieldAt(s.messages[a.id], given, key);
    var f := FieldAt(s.messages[a.id], given, key).value;
    assert ReadsEntry(s, h, Some(f), given[key], t.props[key], above + {a.ref});
    u := PartOfField(s, h, f, given[key], t.props[key], above + {a.ref}, Pointer(b.ref));
  }

  lemma PartOfField(s: Schema, h: Heap, f: Field, v: Value, t: Js, above: set<Ref>, item: Value) returns (u: Js)
    requires ReadsField(s, h, f, v, t, above) && Hands(h, f, v, item)
    ensures ReadsItem(s, h, f, item, u, above)
  {
    u := t;
    if f.shape != Singular {
      var key :| key in Entries(h[v.ref]) && Entries(h[v.ref])[key] == item;
      u := EntryTrees(t)[key];
    }
  }

  /** A walk through what is read meets nothing above, and nothing twice. */
  lemma {:induction false} WalksMeetNothingTwice(s: Schema, h: Heap, id: nat, v: Value, t: Js, above: set<Ref>,
                                                 stops: seq<Stop>)
    requires Reads(s, h, id, v, t, above) && Walk(s, h, id, v, stops)
    ensures !Revisits(Refs(stops)) && forall i :: 0 <= i < |stops| ==> stops[i].ref !in above
    decreases |stops|
  {
    if |stops| > 1 {
      var u := PartIsRead(s, h, stops[0], t, above, stops[1]);
      WalkBehind(s, h, id, v, stops);
      WalksMeetNothingTwice(s, h, stops[1].id, Pointer(stops[1].ref), u, above + {v.ref}, stops[1..]);
      forall i | 0 < i < |stops|
        ensures stops[i].ref !in above + {v.ref}
      {
        assert stops[i] == stops[1..][i - 1];
      }
      FirstIsNew(Refs(stops), Refs(stops[1..]));
    }
  }

  lemma FirstIsNew(path: seq<Ref>, rest: seq<Ref>)
    requires path != [] && rest == path[1..] && !Revisits(rest) && path[0] !in rest
    ensures !Revisits(path)
  {
    forall i, j | 0 <= i < j < |path|
      ensures path[i] != path[j]
    {
      assert path[j] == rest[j - 1] && (i > 0 ==> path[i] == rest[i - 1]);
    }
  }

  // ---------------------------------------------------------------- and without such a cycle it can be read

  ghost predicate ItemReadable(s: Schema, h: Heap, f: Field, v: Value, above: set<Ref>) {
    exists t :: ReadsItem(s, h, f, v, t, above)
  }

  ghost function ItemTree(s: Schema, h: Heap, f: Field, v: Value, above: set<Ref>): (t: Js)
    requires ItemReadable(s, h, f, v, above)
    ensures ReadsItem(s, h, f, v, t, above)
  {
    var t :| ReadsItem(s, h, f, v, t, above); t
  }

  ghost predicate EntryReadable(s: Schema, h: Heap, f: Option<Field>, v: Value, above: set<Ref>) {
    exists t :: ReadsEntry(s, h, f, v, t, above)
  }

  ghost function EntryTree(s: Schema, h: Heap, f: Option<Field>, v: Value, above: set<Ref>): (t: Js)
    requires EntryReadable(s, h, f, v, above)
    ensures ReadsEntry(s, h, f, v, t, above)
  {
    var t :| ReadsEntry(s, h, f, v, t, above); t
  }

  /** A value that is not looked into. */
  function Leaf(v: Value): Js { if v.Pointer? then Held(v.ref) else v.js }

  lemma LeafDenotes(h: Heap, v: Value)
    requires Known(h, v)
    ensures Denotes(h, v, Leaf(v))
  {
  }

  lemma FieldFromItems(s: Schema, h: Heap, f: Field, v: Value, above: set<Ref>)
    requires Closed(h) && Known(h, v)
    requires forall item :: Hands(h, f, v, item) ==> ItemReadable(s, h, f, item, above)
    ensures EntryReadable(s, h, Some(f), v, above)
  {
    if f.shape == Singular {
      assert Hands(h, f, v, v);
      assert ReadsEntry(s, h, Some(f), v, ItemTree(s, h, f, v, above), above);
    } else if IsWalked(h, f, v) {
      forall key | key in Entries(h[v.ref])
        ensures ItemReadable(s, h, f, Entries(h[v.ref])[key], above)
      {
        assert Hands(h, f, v, Entries(h[v.ref])[key]);
      }
      EntriesMakeField(s, h, f, v, above);
    } else {
      LeafDenotes(h, v);
      assert ReadsEntry(s, h, Some(f), v, Leaf(v), above);
    }
  }

  lemma EntriesMakeField(s: Schema, h: Heap, f: Field, v: Value, above: set<Ref>)
    requires f.shape != Singular && IsWalked(h, f, v)
    requires forall key :: key in Entries(h[v.ref]) ==> ItemReadable(s, h, f, Entries(h[v.ref])[key], above)
    ensures EntryReadable(s, h, Some(f), v, above)
  {
    var entries := Entries(h[v.ref]);
    var parts := map key | key in entries :: ItemTree(s, h, f, entries[key], above);
    var t := Obj(parts);
    if h[v.ref].ArrNode? {
      var items := h[v.ref].items;
      assert forall i :: 0 <= i < |items| ==> Index(i) in entries;
      t := Arr(seq(|items|, i requires 0 <= i < |items| => parts[Index(i)]));
      forall key | key in EntryTrees(t)
        ensures EntryTrees(t)[key] == parts[key]
      {
        assert key == Index(key.index);
      }
    }
    assert EntryTrees(t) == parts;
    assert ReadsEntry(s, h, Some(f), v, t, above);
  }

  lemma MessageFromEntries(s: Schema, h: Heap, a: Stop, above: set<Ref>) returns (t: Js)
    requires IsMessage(s, h, a.id, Pointer(a.ref)) && a.ref !in above
    requires forall key :: key in h[a.ref].props ==>
               EntryReadable(s, h, FieldAt(s.messages[a.id], h[a.ref].props, key), h[a.ref].props[key],
                             above + {a.ref})
    ensures Reads(s, h, a.id, Pointer(a.ref), t, above)
  {
    var given, m := h[a.ref].props, s.messages[a.id];
    var props := map key | key in given :: EntryTree(s, h, FieldAt(m, given, key), given[key], above + {a.ref});
    t := Obj(props);
    forall key | key in given
      ensures ReadsEntry(s, h, FieldAt(m, props, key), given[key], props[key], above + {a.ref})
    {
      assert FieldAt(m, props, key) == FieldAt(m, given, key);
    }
  }

  /** The walk so far leads to this value, as a message of this type. */
  ghost predicate Comes(s: Schema, h: Heap, id: nat, v: Value, stops: seq<Stop>, id': nat, v': Value) {
    Walk(s, h, id, v, stops)
    && (if stops == [] then id' == id && v' == v
        else v'.Pointer? ==> Leads(s, h, stops[|stops| - 1], Stop(id', v'.ref)))
  }

  lemma WalkOn(s: Schema, h: Heap, id: nat, v: Value, stops: seq<Stop>, b: Stop)
    requires IsMessage(s, h, b.id, Pointer(b.ref)) && Comes(s, h, id, v, stops, b.id, Pointer(b.ref))
    ensures Walk(s, h, id, v, stops + [b])
  {
    var longer := stops + [b];
    forall i | 0 <= i < |longer| - 1
      ensures Leads(s, h, longer[i], longer[i + 1])
    {
      assert longer[i] == stops[i];
      if i < |stops| - 1 {
        assert longer[i + 1] == stops[i + 1];
      }
    }
  }

  lemma {:induction false} ReadableBelow(s: Schema, h: Heap, id: nat, v: Value, stops: seq<Stop>, id': nat, v': Value)
    requires Closed(h) && Known(h, v') && !CyclicFor(s, h, id, v) && Comes(s, h, id, v, stops, id', v')
    ensures exists t :: Reads(s, h, id', v', t, Members(Refs(stops)))
    decreases |h| - |stops|, 0
  {
    if !IsMessage(s, h, id', v') {
      LeafDenotes(h, v');
      assert Reads(s, h, id', v', Leaf(v'), Members(Refs(stops)));
    } else {
      var b := Stop(id', v'.ref);
      WalkOn(s, h, id, v, stops, b);
      StopsFit(s, h, id, v, stops, b);
      forall key | key in h[b.ref].props
        ensures EntryReadable(s, h, FieldAt(s.messages[b.id], h[b.ref].props, key), h[b.ref].props[key],
                              Members(Refs(stops)) + {b.ref})
      {
        EntryReadableBelow(s, h, id, v, stops + [b], b, key);
      }
      var t := MessageFromEntries(s, h, b, Members(Refs(stops)));
    }
  }

  /** One more stop is a new one, and there is room for it. */
  lemma StopsFit(s: Schema, h: Heap, id: nat, v: Value, stops: seq<Stop>, b: Stop)
    requires !CyclicFor(s, h, id, v) && Walk(s, h, id, v, stops + [b])
    ensures b.ref !in Members(Refs(stops)) && |stops| < |h|
    ensures Members(Refs(stops + [b])) == Members(Refs(stops)) + {b.ref}
  {
    var longer := Refs(stops + [b]);
    assert longer == Refs(stops) + [b.ref];
    assert !Revisits(longer);
    forall ref | ref in Refs(stops)
      ensures ref != b.ref
    {
      var i :| 0 <= i < |stops| && Refs(stops)[i] == ref;
      assert longer[i] == ref && longer[|stops|] == b.ref;
    }
    forall ref | ref in longer
      ensures ref in h
    {
      var i :| 0 <= i < |longer| && longer[i] == ref;
      assert IsMessage(s, h, (stops + [b])[i].id, Pointer((stops + [b])[i].ref));
    }
    PathFits(longer, h.Keys);
    assert |h.Keys| == |h|;
  }

  lemma {:induction false} EntryReadableBelow(s: Schema, h: Heap, id: nat, v: Value, stops: seq<Stop>, b: Stop,
                                              key: Key)
    requires Closed(h) && !CyclicFor(s, h, id, v) && Walk(s, h, id, v, stops)
    requires stops != [] && stops[|stops| - 1] == b && |stops| <= |h| && key in h[b.ref].props
    ensures EntryReadable(s, h, FieldAt(s.messages[b.id], h[b.ref].props, key), h[b.ref].props[key],
                          Members(Refs(stops)))
    decreases |h| - |stops|, 2
  {
    var f, current, above := FieldAt(s.messages[b.id], h[b.ref].props, key), h[b.ref].props[key], Members(Refs(stops));
    if f.None? {
      LeafDenotes(h, current);
      assert ReadsEntry(s, h, f, current, Leaf(current), above);
    } else {
      forall item | Hands(h, f.value, current, item)
        ensures ItemReadable(s, h, f.value, item, above)
      {
        ItemReadableBelow(s, h, id, v, stops, b, key, f.value, item);
      }
      FieldFromItems(s, h, f.value, current, above);
    }
  }

  lemma {:induction false} ItemReadableBelow(s: Schema, h: Heap, id: nat, v: Value, stops: seq<Stop>, b: Stop, key: Key,
                                             f: Field, item: Value)
    requires Closed(h) && !CyclicFor(s, h, id, v) && Walk(s, h, id, v, stops)
    requires stops != [] && stops[|stops| - 1] == b && |stops| <= |h| && key in h[b.ref].props
    requires FieldAt(s.messages[b.id], h[b.ref].props, key) == Some(f) && Hands(h, f, h[b.ref].props[key], item)
    ensures ItemReadable(s, h, f, item, Members(Refs(stops)))
    decreases |h| - |stops|, 1
  {
    var above := Members(Refs(stops));
    assert Known(h, item);
    if f.kind == Message {
      if item.Pointer? {
        assert HandsUnder(s, h, b, Stop(f.typeId, item.ref), key);
      }
      ReadableBelow(s, h, id, v, stops, f.typeId, item);
      var t :| Reads(s, h, f.typeId, item, t, above);
      assert ReadsItem(s, h, f, item, t, above);
    } else {
      LeafDenotes(h, item);
      assert ReadsItem(s, h, f, item, Leaf(item), above);
    }
  }

  /**
   * The repair is the plain recursive one wherever that makes sense: a message can be read as a tree, as far as
   * the repair looks, exactly when no way down its recognised fields comes by one message twice.
   */
  lemma RecognisedCyclesOnly(s: Schema, h: Heap, id: nat, v: Value)
    requires Closed(h) && Known(h, v)
    ensures Readable(s, h, id, v) <==> !CyclicFor(s, h, id, v)
  {
    if Readable(s, h, id, v) && CyclicFor(s, h, id, v) {
      var t :| Reads(s, h, id, v, t, {});
      var stops :| Walk(s, h, id, v, stops) && Revisits(Refs(stops));
      WalksMeetNothingTwice(s, h, id, v, t, {}, stops);
    }
    if !CyclicFor(s, h, id, v) {
      ReadableBelow(s, h, id, v, [], id, v);
      assert Members(Refs([])) == {};
    }
  }
}
