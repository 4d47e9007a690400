/**
 * The own-field walk of src/Compatibility/proto-runtime.ts: `toObject` and `fromObject` visit the
 * positions a message holds instead of every field of its schema.
 */
module ProtoFields {
  import opened Wrappers
  import opened ProtoSchema

  /** `Fallback` is the default a prototype holds for a singular field, `Label` the name of a field as a value. */
  datatype Item =
    | Undefined | Null | Scalar(id: nat) | Fallback(kind: Kind) | Label(name: string)
    | List(items: seq<Item>) | Table(entries: seq<(string, Item)>)

  /** `Instance` is an object of one of this runtime's constructors, whose prototype holds the type's defaults. */
  datatype Prototype = NoPrototype | ObjectPrototype | Instance(of: MessageType) | Foreign(inherited: map<string, Item>)

  /** An object: its own keys in their order, what they hold, and where it inherits from. */
  datatype Data = Data(proto: Prototype, keys: seq<string>, own: map<string, Item>)

  ghost predicate IsData(d: Data) {
    (forall k :: k in d.own <==> k in d.keys) && forall i, j :: 0 <= i < j < |d.keys| ==> d.keys[i] != d.keys[j]
  }

  /** An object under construction: its keys in the order they were first written. */
  type Output = seq<(string, Item)>

  function Put(out: Output, key: string, value: Item): Output {
    if out == [] then [(key, value)]
    else if out[0].0 == key then [(key, value)] + out[1..]
    else [out[0]] + Put(out[1..], key, value)
  }

  // ---------------------------------------------------------------- reading a field

  predicate IsNullish(v: Item) { v.Undefined? || v.Null? }

  /** prototypeDefault: null for members of a group, messages and bytes. */
  function Default(f: Field): Item {
    match f.shape
    case Repeated => List([])
    case Map => Table([])
    case Singular => if f.oneof.Some? || f.kind in {Message, Bytes} then Null else Fallback(f.kind)
  }

  /** What a read of a name the object does not own gives. */
  function Inherited(proto: Prototype, name: string): Item {
    match proto
    case Instance(of) =>
      (match FieldIn(of.fields, name) case Some(f) => Default(f) case None => Undefined)
    case Foreign(inherited) => if name in inherited then inherited[name] else Undefined
    case _ => Undefined
  }

  /** `data[name]`, through the prototype. */
  function Read(d: Data, name: string): Item {
    if name in d.own then d.own[name] else Inherited(d.proto, name)
  }

  /** An array index as a key. */
  function Decimal(n: nat): string {
    if n < 10 then [DIGITS[n]] else Decimal(n / 10) + [DIGITS[n % 10]]
  }

  const DIGITS: string := "0123456789"

  function Number(digits: string): int {
    if digits == [] then 0
    else Number(digits[..|digits| - 1]) * 10 + (digits[|digits| - 1] as int - '0' as int)
  }

  lemma {:induction false} DecimalIsIndex(n: nat)
    ensures Decimal(n) != [] && Number(Decimal(n)) == n && (n > 0 ==> Decimal(n)[0] != '0')
    ensures forall k :: 0 <= k < |Decimal(n)| ==> '0' <= Decimal(n)[k] <= '9'
  {
    var last := DIGITS[n % 10];
    assert last as int == '0' as int + n % 10;
    if n >= 10 {
      DecimalIsIndex(n / 10);
      assert Decimal(n)[..|Decimal(n)| - 1] == Decimal(n / 10);
    } else {
      assert Number([]) == 0 && Decimal(n) == [last] && [last][..0] == [];
    }
  }

  /** The own keys of an object with what they hold; those of an array are its indices. */
  function EntriesOf(v: Item): Option<seq<(string, Item)>> {
    match v
    case Table(entries) => Some(entries)
    case List(items) => Some(seq(|items|, k requires 0 <= k < |items| => (Decimal(k), items[k])))
    case _ => None
  }

  predicate HasAlias(t: MessageType, f: Field) { t.alias.Some? && t.alias.value.public == f.name }

  function FieldValue(t: MessageType, d: Data, f: Field): Item {
    if HasAlias(t, f) && f.name !in d.own && t.alias.value.bridge in d.own then d.own[t.alias.value.bridge]
    else Read(d, f.name)
  }

  predicate HasOwnField(t: MessageType, d: Data, f: Field) {
    f.name in d.own || (HasAlias(t, f) && t.alias.value.bridge in d.own)
  }

  // ---------------------------------------------------------------- positions

  /** The key is one of the spellings of the field at this position. */
  predicate Spells(t: MessageType, i: nat, key: string)
    requires i < |t.fields|
  {
    key == t.fields[i].name || (HasAlias(t, t.fields[i]) && key == t.alias.value.bridge)
  }

  /** fieldPositionsOf, for the first `n` fields: either spelling maps to the position. */
  ghost predicate IsPositions(t: MessageType, positions: map<string, nat>, n: nat)
    requires n <= |t.fields|
  {
    (forall key :: key in positions ==> positions[key] < n && Spells(t, positions[key], key))
    && (forall i, key :: 0 <= i < n && Spells(t, i, key) ==> key in positions && positions[key] == i)
  }

  ghost predicate Ascending(p: seq<nat>) { forall a, b :: 0 <= a < b < |p| ==> p[a] < p[b] }

  /** The positions some of these keys map to. */
  ghost predicate Holds(p: seq<nat>, keys: seq<string>, positions: map<string, nat>) {
    forall i :: i in p <==> exists k :: 0 <= k < |keys| && keys[k] in positions && positions[keys[k]] == i
  }

  /** The caller keeps the full walk. */
  predicate NeedsFullWalk(d: Data, candidates: nat, allowInstances: bool) {
    d.proto.Foreign? || (d.proto.Instance? && !allowInstances) || |d.keys| >= candidates
  }

  /** Insertion into a sorted list without duplicates. */
  method Insert(found: seq<nat>, position: nat) returns (next: seq<nat>)
    requires Ascending(found)
    ensures Ascending(next) && forall i :: i in next <==> i in found || i == position
  {
    var at := |found|;
    while at > 0 && found[at - 1] > position
      invariant 0 <= at <= |found|
      invariant forall k :: at <= k < |found| ==> found[k] > position
    {
      at := at - 1;
    }
    if at > 0 && found[at - 1] == position {
      return found;
    }
    next := found[..at] + [position] + found[at..];
    Inserted(found, at, position, next);
  }

  lemma Inserted(found: seq<nat>, at: nat, position: nat, next: seq<nat>)
    requires Ascending(found) && at <= |found| && next == found[..at] + [position] + found[at..]
    requires at > 0 ==> found[at - 1] < position
    requires forall k :: at <= k < |found| ==> found[k] > position
    ensures Ascending(next) && forall i :: i in next <==> i in found || i == position
  {
    forall a, b | 0 <= a < b < |next|
      ensures next[a] < next[b]
    {
      var low := if a < at then found[a] else if a == at then position else found[a - 1];
      var high := if b < at then found[b] else if b == at then position else found[b - 1];
      assert next[a] == low && next[b] == high;
      if a < at && b == at {
        assert found[a] <= found[at - 1];
      } else if a < at && b > at {
        assert found[a] < found[b - 1];
      }
    }
    forall i
      ensures i in next <==> i in found || i == position
    {
      MembersOf(found[..at], [position], found[at..], i);
      MembersOf(found[..at], [], found[at..], i);
      assert found == found[..at] + [] + found[at..];
    }
  }

  lemma MembersOf(x: seq<nat>, y: seq<nat>, z: seq<nat>, i: nat)
    ensures i in x + y + z <==> i in x || i in y || i in z
  {
  }

  /** A strictly ascending list of exactly the positions the object holds, or none. */
  method OwnFieldPositions(d: Data, positions: map<string, nat>, candidates: nat, allowInstances: bool)
    returns (found: Option<seq<nat>>)
    ensures found.None? <==> NeedsFullWalk(d, candidates, allowInstances)
    ensures found.Some? ==> Ascending(found.value) && Holds(found.value, d.keys, positions)
  {
    if NeedsFullWalk(d, candidates, allowInstances) {
      return None;
    }
    var list: seq<nat> := [];
    var k := 0;
    while k < |d.keys|
      invariant k <= |d.keys|
      invariant Ascending(list) && Holds(list, d.keys[..k], positions)
    {
      ghost var before := list;
      if d.keys[k] in positions {
        list := Insert(list, positions[d.keys[k]]);
      }
      HoldsMore(before, list, d.keys, k, positions);
      k := k + 1;
    }
    assert d.keys[..k] == d.keys;
    return Some(list);
  }

  lemma HoldsMore(before: seq<nat>, list: seq<nat>, keys: seq<string>, k: nat, positions: map<string, nat>)
    requires k < |keys| && Holds(before, keys[..k], positions)
    requires if keys[k] in positions
             then forall i :: i in list <==> i in before || i == positions[keys[k]]
             else list == before
    ensures Holds(list, keys[..k + 1], positions)
  {
    var shorter, longer := keys[..k], keys[..k + 1];
    assert longer == shorter + [keys[k]];
    forall i: nat
      ensures i in list <==> exists j :: 0 <= j < |longer| && longer[j] in positions && positions[longer[j]] == i
    {
      if i in before {
        var j :| 0 <= j < |shorter| && shorter[j] in positions && positions[shorter[j]] == i;
        assert longer[j] == shorter[j];
      }
      if j :| 0 <= j < |longer| && longer[j] in positions && positions[longer[j]] == i {
        assert j < k ==> longer[j] == shorter[j];
      }
      assert longer[k] == keys[k];
    }
  }

  /** fieldPositionsOf, built field by field. */
  method FieldPositions(t: MessageType) returns (positions: map<string, nat>)
    requires WellFormedType(t)
    ensures IsPositions(t, positions, |t.fields|)
  {
    positions := map[];
    var i := 0;
    while i < |t.fields|
      invariant i <= |t.fields| && IsPositions(t, positions, i)
    {
      ghost var before := positions;
      positions := positions[t.fields[i].name := i];
      if HasAlias(t, t.fields[i]) {
        positions := positions[t.alias.value.bridge := i];
      }
      OneMoreField(t, before, positions, i);
      i := i + 1;
    }
  }

  lemma OneMoreField(t: MessageType, before: map<string, nat>, after: map<string, nat>, i: nat)
    requires WellFormedType(t) && i < |t.fields| && IsPositions(t, before, i)
    requires after == if HasAlias(t, t.fields[i]) then before[t.fields[i].name := i][t.alias.value.bridge := i]
                      else before[t.fields[i].name := i]
    ensures IsPositions(t, after, i + 1)
  {
    forall j, key | 0 <= j <= i && Spells(t, j, key)
      ensures key in after && after[key] == j
    {
      if j < i {
        assert key in before && before[key] == j;
        assert t.fields[j].name != t.fields[i].name;
      }
    }
  }

  /** The positions found are those of the own fields. */
  lemma HeldAreOwn(t: MessageType, d: Data, positions: map<string, nat>, found: seq<nat>)
    requires IsPositions(t, positions, |t.fields|) && IsData(d) && Holds(found, d.keys, positions)
    ensures forall i: nat :: i in found <==> i < |t.fields| && HasOwnField(t, d, t.fields[i])
  {
    forall i: nat
      ensures i in found <==> i < |t.fields| && HasOwnField(t, d, t.fields[i])
    {
      if i in found {
        var k :| 0 <= k < |d.keys| && d.keys[k] in positions && positions[d.keys[k]] == i;
        assert d.keys[k] in d.own && Spells(t, i, d.keys[k]);
      }
      if i < |t.fields| && HasOwnField(t, d, t.fields[i]) {
        var key := if t.fields[i].name in d.own then t.fields[i].name else t.alias.value.bridge;
        assert Spells(t, i, key) && key in positions && positions[key] == i;
        var k :| 0 <= k < |d.keys| && d.keys[k] == key;
        assert d.keys[k] in positions && positions[d.keys[k]] == i;
      }
    }
  }

  // ---------------------------------------------------------------- walks

  /** A visit may throw; the walk stops at the first error. */
  type Step<!E> = (nat, Output) -> Result<Output, E>

  /** The positions visited, in order. */
  function Walk<E>(step: Step<E>, positions: seq<nat>, out: Output): Result<Output, E> {
    if positions == [] then Ok(out)
    else
      match step(positions[0], out)
      case Err(e) => Err(e)
      case Ok(next) => Walk(step, positions[1..], next)
  }

  lemma WalkOn<E>(step: Step<E>, visited: seq<nat>, n: nat, out: Output)
    requires n < |visited|
    ensures Walk(step, visited[n..], out)
         == match step(visited[n], out) case Err(e) => Err(e) case Ok(next) => Walk(step, visited[n + 1..], next)
  {
    assert visited[n..][1..] == visited[n + 1..];
  }

  /** Every position below `count`. */
  function Every(count: nat): (all: seq<nat>)
    ensures |all| == count && forall i :: 0 <= i < count ==> all[i] == i
  {
    seq(count, i => i)
  }

  lemma Members(p: seq<nat>)
    ensures p == [] || exists i :: i in p
  {
    if p != [] {
      assert p[0] in p;
    }
  }

  /** A walk over an ascending list of everything that matters is the full walk. */
  lemma {:induction false} ShortWalkIsFull<E>(step: Step<E>, found: seq<nat>, from: nat, count: nat, out: Output)
    requires from <= count && Ascending(found)
    requires forall i :: i in found ==> from <= i < count
    requires forall i: nat, o: Output :: from <= i < count && i !in found ==> step(i, o) == Ok(o)
    ensures Walk(step, found, out) == Walk(step, Every(count)[from..], out)
    decreases count - from
  {
    if from < count {
      assert Every(count)[from..][1..] == Every(count)[from + 1..];
      if from in found {
        var k :| 0 <= k < |found| && found[k] == from;
        assert found[0] in found && found[0] <= found[k];
        assert found[0] == from;
        forall i | i in found[1..]
          ensures from + 1 <= i < count
        {
          var j :| 0 <= j < |found[1..]| && found[1..][j] == i;
          assert found[j + 1] == i && found[0] < found[j + 1] && found[j + 1] in found;
        }
        assert found == [found[0]] + found[1..];
        var next := step(from, out);
        if next.Ok? {
          ShortWalkIsFull(step, found[1..], from + 1, count, next.value);
        }
      } else {
        ShortWalkIsFull(step, found, from + 1, count, out);
      }
    } else {
      Members(found);
    }
  }
}
