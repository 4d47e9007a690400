/**
 * The exact order of the batch. What a message emits early passes one upsert at most: that of the run
 * still open when the message is read.
 */
module BatchOrder {
  import opened Wrappers
  import opened BatchDispatch

  // ---------------------------------------------------------------- the open run, looking back

  type Accepted = (Metadata, WaMessage)

  /** What becomes of one slot of the batch. */
  datatype Arrival =
    | Nothing                                      // no canonical event, or an ignored message
    | Boundary
    | Failed(message: Message)                     // an ordinary message that does not convert
    | Delivered(message: Message, accepted: Accepted)

  function ArrivalOf<E, S>(h: Hooks<E, S>, slot: Option<Event<E>>): Arrival {
    if slot.None? then Nothing
    else if IsBoundary(slot.value) then Boundary
    else
      var m := slot.value.message;
      if h.ignored(m.chatJid) then Nothing
      else if h.convert(m).None? then Failed(m)
      else Delivered(m, (MetadataOf(m), h.convert(m).value))
  }

  /** The ordinary messages delivered since the last boundary. */
  function SinceBoundary<E, S>(h: Hooks<E, S>, events: seq<Option<Event<E>>>): seq<Accepted> {
    if events == [] then []
    else
      var before := events[..|events| - 1];
      match ArrivalOf(h, events[|events| - 1])
      case Boundary => []
      case Delivered(_, accepted) => SinceBoundary(h, before) + [accepted]
      case _ => SinceBoundary(h, before)
  }

  /** How many messages at the end share the metadata of the last. */
  function TrailingLength(accepted: seq<Accepted>, md: Metadata): (n: nat)
    ensures n <= |accepted|
  {
    if accepted == [] || accepted[|accepted| - 1].0 != md then 0
    else 1 + TrailingLength(accepted[..|accepted| - 1], md)
  }

  function Messages(accepted: seq<Accepted>): seq<WaMessage> {
    seq(|accepted|, i requires 0 <= i < |accepted| => accepted[i].1)
  }

  /** The last maximal run of equal metadata. */
  function LastRun(accepted: seq<Accepted>): Option<Group> {
    if accepted == [] then None
    else
      var md := accepted[|accepted| - 1].0;
      Some(Group(md, Messages(accepted[|accepted| - TrailingLength(accepted, md)..])))
  }

  function OpenRun<E, S>(h: Hooks<E, S>, events: seq<Option<Event<E>>>): Option<Group> {
    LastRun(SinceBoundary(h, events))
  }

  /** A message is in that run exactly when every later one, itself included, has the metadata of the last. */
  lemma {:induction false} RunReachesBackToAChange(accepted: seq<Accepted>, md: Metadata, i: nat)
    requires i < |accepted|
    ensures i >= |accepted| - TrailingLength(accepted, md) <==> forall k :: i <= k < |accepted| ==> accepted[k].0 == md
    decreases |accepted|
  {
    var last := |accepted| - 1;
    var shorter := accepted[..last];
    if accepted[last].0 == md && i < last {
      RunReachesBackToAChange(shorter, md, i);
      assert forall k :: i <= k < last ==> shorter[k] == accepted[k];
    }
  }

  lemma RunGrowsOrStarts(accepted: seq<Accepted>, next: Accepted)
    ensures LastRun(accepted + [next])
         == if LastRun(accepted).Some? && LastRun(accepted).value.md == next.0
            then Some(Group(next.0, LastRun(accepted).value.messages + [next.1]))
            else Some(Group(next.0, [next.1]))
  {
    var all, md := accepted + [next], next.0;
    assert all[..|all| - 1] == accepted;
    var n := TrailingLength(accepted, md);
    assert TrailingLength(all, md) == 1 + n;
    assert all[|all| - 1 - n..] == accepted[|accepted| - n..] + [next];
    assert Messages(all[|all| - 1 - n..]) == Messages(accepted[|accepted| - n..]) + [next.1];
    if n == 0 {
      assert Messages(accepted[|accepted| - n..]) + [next.1] == [next.1];
    }
  }

  // ---------------------------------------------------------------- the log, event by event

  /** What a message emits before anything else: its push name, or that and the report of its failure. */
  function EarlyOf(a: Arrival): seq<Emission> {
    match a
    case Failed(m) => PushName(m) + [Reported("message")]
    case Delivered(m, _) => PushName(m)
    case _ => []
  }

  /** The upsert of the open run is due before a boundary, and after the early part of a message with other metadata. */
  function Due(open: Option<Group>, a: Arrival): seq<Emission> {
    match a
    case Boundary => Flush(open)
    case Delivered(_, accepted) => if open.Some? && open.value.md != accepted.0 then Flush(open) else []
    case _ => []
  }

  /** State and log by the time these events have been read; the open run is not out yet. */
  function Emitted<E, S>(h: Hooks<E, S>, events: seq<Option<Event<E>>>, s: S): (S, seq<Emission>) {
    if events == [] then (s, [])
    else
      var before, last := events[..|events| - 1], events[|events| - 1];
      var (s1, out) := Emitted(h, before, s);
      var a := ArrivalOf(h, last);
      var (s2, own) := if a.Boundary? then Single(h, last.value, s1) else (s1, []);
      (s2, out + EarlyOf(a) + Due(OpenRun(h, before), a) + own)
  }

  /** The open run after one more event. */
  function NextRun(open: Option<Group>, a: Arrival): Option<Group> {
    match a
    case Boundary => None
    case Delivered(_, accepted) =>
      if open.Some? && open.value.md == accepted.0
      then Some(open.value.(messages := open.value.messages + [accepted.1]))
      else Some(Group(accepted.0, [accepted.1]))
    case _ => open
  }

  /** One event on: the loop, with the open run for its pending upsert, does what the log above says. */
  lemma {:induction false} LoopStep<E, S>(h: Hooks<E, S>, slot: Option<Event<E>>, rest: seq<Option<Event<E>>>,
                                          open: Option<Group>, s: S, next: Option<Group>)
    requires next == NextRun(open, ArrivalOf(h, slot))
    ensures var a := ArrivalOf(h, slot);
            var (s1, own) := if a.Boundary? then Single(h, slot.value, s) else (s, []);
            Batch(h, [slot] + rest, open, s).0 == Batch(h, rest, next, s1).0
            && Batch(h, [slot] + rest, open, s).1 == EarlyOf(a) + Due(open, a) + own + Batch(h, rest, next, s1).1
  {
    assert ([slot] + rest)[1..] == rest;
  }

  lemma OpenRunIs<E, S>(h: Hooks<E, S>, events: seq<Option<Event<E>>>, slot: Option<Event<E>>)
    ensures OpenRun(h, events + [slot]) == NextRun(OpenRun(h, events), ArrivalOf(h, slot))
  {
    assert (events + [slot])[..|events|] == events;
    var a := ArrivalOf(h, slot);
    if a.Delivered? {
      RunGrowsOrStarts(SinceBoundary(h, events), a.accepted);
    }
  }

  lemma {:induction false} EmittedStep<E, S>(h: Hooks<E, S>, before: seq<Option<Event<E>>>, slot: Option<Event<E>>,
                                             s: S)
    ensures var a := ArrivalOf(h, slot);
            var (s1, out) := Emitted(h, before, s);
            var (s2, own) := if a.Boundary? then Single(h, slot.value, s1) else (s1, []);
            Emitted(h, before + [slot], s).0 == s2
            && Emitted(h, before + [slot], s).1 == out + EarlyOf(a) + Due(OpenRun(h, before), a) + own
  {
    assert (before + [slot])[..|before|] == before;
  }

  lemma Regroup(out: seq<Emission>, early: seq<Emission>, due: seq<Emission>, own: seq<Emission>,
                rest: seq<Emission>)
    ensures out + (early + due + own + rest) == out + early + due + own + rest
  {
  }

  lemma {:induction false} LoopTurns<E, S>(h: Hooks<E, S>, before: seq<Option<Event<E>>>, slot: Option<Event<E>>,
                                           rest: seq<Option<Event<E>>>, s: S)
    ensures var (s1, out) := Emitted(h, before, s);
            var (s2, more) := Emitted(h, before + [slot], s);
            var next := OpenRun(h, before + [slot]);
            Batch(h, [slot] + rest, OpenRun(h, before), s1).0 == Batch(h, rest, next, s2).0
            && out + Batch(h, [slot] + rest, OpenRun(h, before), s1).1 == more + Batch(h, rest, next, s2).1
  {
    var (s1, out) := Emitted(h, before, s);
    var a, open, next := ArrivalOf(h, slot), OpenRun(h, before), OpenRun(h, before + [slot]);
    var (s2, own) := if a.Boundary? then Single(h, slot.value, s1) else (s1, []);
    OpenRunIs(h, before, slot);
    EmittedStep(h, before, slot, s);
    LoopStep(h, slot, rest, open, s1, next);
    Regroup(out, EarlyOf(a), Due(open, a), own, Batch(h, rest, next, s2).1);
  }

  /** From any point on, the loop is left with the open run, looked at from there. */
  lemma {:induction false} LoopIsAt<E, S>(h: Hooks<E, S>, before: seq<Option<Event<E>>>, rest: seq<Option<Event<E>>>,
                                          s: S)
    ensures var (s1, out) := Emitted(h, before, s);
            Batch(h, before + rest, None, s).0 == Batch(h, rest, OpenRun(h, before), s1).0
            && Batch(h, before + rest, None, s).1 == out + Batch(h, rest, OpenRun(h, before), s1).1
    decreases |before|
  {
    if before == [] {
      assert before + rest == rest;
    } else {
      var earlier, slot := before[..|before| - 1], before[|before| - 1];
      assert before == earlier + [slot] && before + rest == earlier + ([slot] + rest);
      LoopIsAt(h, earlier, [slot] + rest, s);
      LoopTurns(h, earlier, slot, rest, s);
    }
  }

  /** The whole log: for each event its early part and the upsert that falls due with it, at the end the last. */
  lemma {:induction false} ExactLog<E, S>(h: Hooks<E, S>, events: seq<Option<Event<E>>>, s: S)
    ensures Batch(h, events, None, s).0 == Emitted(h, events, s).0
    ensures Batch(h, events, None, s).1 == Emitted(h, events, s).1 + Flush(OpenRun(h, events))
  {
    LoopIsAt(h, events, [], s);
    assert events + [] == events;
  }

  // ---------------------------------------------------------------- what may overtake what

  /**
   * What the slot at `j` emits early comes after everything the batch of the events before it emits, except
   * the last upsert of that batch when a run is open there: this is all it overtakes. The overtaken upsert
   * comes next when it falls due with that slot.
   */
  ghost predicate OvertakesOnlyTheOpenRun<E, S>(h: Hooks<E, S>, events: seq<Option<Event<E>>>, s: S, j: nat)
    requires j < |events|
  {
    exists head, tail :: CutsAt(h, events, s, j, head, tail)
  }

  predicate CutsAt<E, S>(h: Hooks<E, S>, events: seq<Option<Event<E>>>, s: S, j: nat,
                         head: seq<Emission>, tail: seq<Emission>)
    requires j < |events|
  {
    var before, a := events[..j], ArrivalOf(h, events[j]);
    InOrder(Batch(h, events, None, s).1, head, EarlyOf(a), Due(OpenRun(h, before), a), tail)
    && Batch(h, before, None, s).1 == head + Flush(OpenRun(h, before))
  }

  predicate InOrder(log: seq<Emission>, head: seq<Emission>, early: seq<Emission>, due: seq<Emission>,
                    tail: seq<Emission>)
  {
    log == head + early + due + tail
  }

  lemma InOrderWith(log: seq<Emission>, head: seq<Emission>, early: seq<Emission>, due: seq<Emission>,
                    own: seq<Emission>, later: seq<Emission>)
    requires log == head + early + due + own + later
    ensures InOrder(log, head, early, due, own + later)
  {
  }

  lemma {:induction false} CutAt<E, S>(h: Hooks<E, S>, before: seq<Option<Event<E>>>, slot: Option<Event<E>>,
                                       rest: seq<Option<Event<E>>>, s: S)
    returns (tail: seq<Emission>)
    ensures InOrder(Batch(h, before + [slot] + rest, None, s).1, Emitted(h, before, s).1, EarlyOf(ArrivalOf(h, slot)),
                    Due(OpenRun(h, before), ArrivalOf(h, slot)), tail)
  {
    var a := ArrivalOf(h, slot);
    var s1 := Emitted(h, before, s).0;
    var own := if a.Boundary? then Single(h, slot.value, s1).1 else [];
    var later := Batch(h, rest, OpenRun(h, before + [slot]), Emitted(h, before + [slot], s).0).1;
    tail := own + later;
    LoopIsAt(h, before + [slot], rest, s);
    EmittedStep(h, before, slot, s);
    InOrderWith(Batch(h, before + [slot] + rest, None, s).1, Emitted(h, before, s).1, EarlyOf(a),
                Due(OpenRun(h, before), a), own, later);
  }

  lemma {:induction false} EarlyOvertakesOnlyTheOpenRun<E, S>(h: Hooks<E, S>, events: seq<Option<Event<E>>>, s: S,
                                                              j: nat)
    requires j < |events|
    ensures OvertakesOnlyTheOpenRun(h, events, s, j)
  {
    var before := events[..j];
    assert events == before + [events[j]] + events[j + 1..];
    ExactLog(h, before, s);
    var tail := CutAt(h, before, events[j], events[j + 1..], s);
    assert CutsAt(h, events, s, j, Emitted(h, before, s).1, tail);
  }

  /** Even the push name of a message that closes the open upsert goes out ahead of that upsert. */
  lemma {:induction false} ClosingPushNameGoesFirst<E, S>(h: Hooks<E, S>, before: seq<Option<Event<E>>>, m: Message,
                                                          rest: seq<Option<Event<E>>>, s: S)
    requires ArrivalOf(h, Some(OfMessage(m))).Delivered?
    requires OpenRun(h, before).Some? && OpenRun(h, before).value.md != MetadataOf(m)
    ensures exists head, tail ::
              InOrder(Batch(h, before + [Some(OfMessage(m))] + rest, None, s).1,
                      head, PushName(m), Flush(OpenRun(h, before)), tail)
              && Batch(h, before, None, s).1 == head + Flush(OpenRun(h, before))
  {
    var slot := Some(OfMessage(m));
    assert EarlyOf(ArrivalOf(h, slot)) == PushName(m);
    assert Due(OpenRun(h, before), ArrivalOf(h, slot)) == Flush(OpenRun(h, before));
    hide Batch, Emitted, ArrivalOf, EarlyOf, Due, OpenRun, PushName, InOrder;
    ExactLog(h, before, s);
    var tail := CutAt(h, before, slot, rest, s);
  }

  predicate Carries(log: seq<Emission>, w: WaMessage) {
    exists k :: 0 <= k < |log| && log[k].Upsert? && w in log[k].messages
  }

  lemma CarriesJoined(a: seq<Emission>, b: seq<Emission>, w: WaMessage)
    requires Carries(a, w) || Carries(b, w)
    ensures Carries(a + b, w)
  {
    if Carries(a, w) {
      var k :| 0 <= k < |a| && a[k].Upsert? && w in a[k].messages;
      assert (a + b)[k] == a[k];
    } else {
      var k :| 0 <= k < |b| && b[k].Upsert? && w in b[k].messages;
      assert (a + b)[|a| + k] == b[k];
    }
  }

  function OpenLength(open: Option<Group>): nat { if open.Some? then |open.value.messages| else 0 }

  lemma {:induction false} OpenRunCarries(accepted: seq<Accepted>, i: nat)
    requires LastRun(accepted).Some? && |accepted| - OpenLength(LastRun(accepted)) <= i < |accepted|
    ensures Carries(Flush(LastRun(accepted)), accepted[i].1)
  {
    var n := OpenLength(LastRun(accepted));
    assert LastRun(accepted).value.messages[i - (|accepted| - n)] == accepted[i].1;
    assert Flush(LastRun(accepted))[0].messages == LastRun(accepted).value.messages;
  }

  /** A message outside the open run was outside it before, or its run falls due now. */
  lemma {:induction false} OutOfTheRun<E, S>(h: Hooks<E, S>, before: seq<Option<Event<E>>>, slot: Option<Event<E>>,
                                             i: nat)
    requires i < |SinceBoundary(h, before + [slot])| - OpenLength(OpenRun(h, before + [slot]))
    ensures i < |SinceBoundary(h, before)|
    ensures SinceBoundary(h, before + [slot])[i] == SinceBoundary(h, before)[i]
    ensures i < |SinceBoundary(h, before)| - OpenLength(OpenRun(h, before))
            || (OpenRun(h, before).Some? && Due(OpenRun(h, before), ArrivalOf(h, slot)) == Flush(OpenRun(h, before)))
  {
    assert (before + [slot])[..|before|] == before;
    OpenRunIs(h, before, slot);
  }

  /** The others have left already, in upserts the early part of the later message comes after. */
  lemma {:induction false} EarlierRunsAreOut<E, S>(h: Hooks<E, S>, events: seq<Option<Event<E>>>, s: S, i: nat)
    requires i < |SinceBoundary(h, events)| - OpenLength(OpenRun(h, events))
    ensures Carries(Emitted(h, events, s).1, SinceBoundary(h, events)[i].1)
    decreases |events|
  {
    var before, slot := events[..|events| - 1], events[|events| - 1];
    assert events == before + [slot];
    OutOfTheRun(h, before, slot, i);
    EmittedStep(h, before, slot, s);
    var a, w := ArrivalOf(h, slot), SinceBoundary(h, before)[i].1;
    var out := Emitted(h, before, s).1;
    var early, due := EarlyOf(a), Due(OpenRun(h, before), a);
    if i < |SinceBoundary(h, before)| - OpenLength(OpenRun(h, before)) {
      EarlierRunsAreOut(h, before, s, i);
      CarriesJoined(out, early, w);
    } else {
      OpenRunCarries(SinceBoundary(h, before), i);
    }
    CarriesJoined(out + early, due, w);
    CarriesJoined(out + early + due, [], w);
  }

  /**
   * Which messages that is, for an earlier message of the stretch: a later one's early part overtakes it
   * exactly when every message from the earlier one on, up to but not including the later, has the metadata
   * of the earlier. The upsert of one that is not overtaken is out already.
   */
  lemma {:induction false} OvertakenMessages<E, S>(h: Hooks<E, S>, before: seq<Option<Event<E>>>, s: S, i: nat)
    requires i < |SinceBoundary(h, before)|
    ensures var accepted := SinceBoundary(h, before);
            var n := OpenLength(OpenRun(h, before));
            0 < n <= |accepted|
            && OpenRun(h, before).value.messages == Messages(accepted[|accepted| - n..])
            && (i >= |accepted| - n <==> forall k :: i <= k < |accepted| ==> accepted[k].0 == accepted[i].0)
            && (i < |accepted| - n ==> Carries(Emitted(h, before, s).1, accepted[i].1))
  {
    var accepted := SinceBoundary(h, before);
    var md := accepted[|accepted| - 1].0;
    RunReachesBackToAChange(accepted, md, i);
    if forall k :: i <= k < |accepted| ==> accepted[k].0 == accepted[i].0 {
      assert accepted[|accepted| - 1].0 == accepted[i].0;
    } else {
      EarlierRunsAreOut(h, before, s, i);
    }
  }

  // ---------------------------------------------------------------- an empty request id

  function Pair<E>(first: Message, second: Message): seq<Option<Event<E>>> {
    [Some(OfMessage(first)), Some(OfMessage(second))]
  }

  /** Two upserts nobody can tell apart by anything but their messages. */
  predicate LookAlike(a: Emission, b: Emission) {
    a.Upsert? && b.Upsert? && a.kind == b.kind && a.requestId == b.requestId
  }

  /**
   * Two messages in a row share an upsert exactly when their metadata is the same. An empty request id is
   * kept apart from a missing one there and left out of the payload, so these two, and only these two, make
   * two upserts where the payload shows no reason for it.
   */
  lemma EmptyRequestIdSplits<E, S>(h: Hooks<E, S>, first: Message, second: Message, s: S)
    requires ArrivalOf(h, Some(OfMessage(first))).Delivered? && ArrivalOf(h, Some(OfMessage(second))).Delivered?
    ensures Batch(h, Pair(first, second), None, s).1
         == PushName(first) + PushName(second)
            + (if MetadataOf(first) == MetadataOf(second)
               then [UpsertOf([h.convert(first).value, h.convert(second).value], MetadataOf(first))]
               else [UpsertOf([h.convert(first).value], MetadataOf(first)),
                     UpsertOf([h.convert(second).value], MetadataOf(second))])
    ensures MetadataOf(first) != MetadataOf(second)
            && LookAlike(UpsertOf([h.convert(first).value], MetadataOf(first)),
                         UpsertOf([h.convert(second).value], MetadataOf(second)))
       <==> first.isOffline == second.isOffline
            && ((first.unavailableRequestId.None? && second.unavailableRequestId == Some(""))
                || (first.unavailableRequestId == Some("") && second.unavailableRequestId.None?))
  {
    var events: seq<Option<Event<E>>> := Pair(first, second);
    var one := Some(Group(MetadataOf(first), [h.convert(first).value]));
    var two := NextRun(one, ArrivalOf(h, events[1]));
    assert events == [events[0]] + [events[1]] && [events[1]] == [events[1]] + [];
    LoopStep(h, events[0], [events[1]], None, s, one);
    LoopStep(h, events[1], [], one, s, two);
    assert Batch(h, [], two, s).1 == Flush(two);
    assert [h.convert(first).value] + [h.convert(second).value] == [h.convert(first).value, h.convert(second).value];
  }
}
