/**
 * The batch refines one-at-a-time dispatch. Once every upsert is split into its messages, the two
 * emit the same things, in an order that differs only by swaps that move a push name, or the report
 * of a message that failed to convert, ahead of an upsert.
 */
module BatchTheorems {
  import opened Wrappers
  import opened BatchDispatch
  import BatchOrder

  // ---------------------------------------------------------------- comparing two logs

  function SplitOne(e: Emission): seq<Emission> {
    if e.Upsert?
    then seq(|e.messages|, i requires 0 <= i < |e.messages| => Upsert([e.messages[i]], e.kind, e.requestId))
    else [e]
  }

  function Split(log: seq<Emission>): seq<Emission> {
    if log == [] then [] else SplitOne(log[0]) + Split(log[1..])
  }

  predicate Early(e: Emission) { e.ContactsUpdate? || e.Reported? }

  /** One adjacent swap: something early passes an upsert. */
  ghost predicate Swap(a: seq<Emission>, b: seq<Emission>) {
    exists i :: 0 <= i < |a| - 1 && SwapAt(a, b, i)
  }

  predicate SwapAt(a: seq<Emission>, b: seq<Emission>, i: nat)
    requires i < |a| - 1
  {
    a[i].Upsert? && Early(a[i + 1]) && b == a[..i] + [a[i + 1], a[i]] + a[i + 2..]
  }

  ghost predicate Chain(c: seq<seq<Emission>>) {
    c != [] && forall j, k :: 0 <= j < k < |c| && k == j + 1 ==> Swap(c[j], c[k])
  }

  ghost predicate Reaches(a: seq<Emission>, b: seq<Emission>) {
    exists c :: Chain(c) && c[0] == a && c[|c| - 1] == b
  }

  lemma ReachesSame(a: seq<Emission>)
    ensures Reaches(a, a)
  {
    assert Chain([a]) && [a][0] == a;
  }

  lemma ReachesThen(a: seq<Emission>, b: seq<Emission>, d: seq<Emission>)
    requires Reaches(a, b) && Reaches(b, d)
    ensures Reaches(a, d)
  {
    var c1 :| Chain(c1) && c1[0] == a && c1[|c1| - 1] == b;
    var c2 :| Chain(c2) && c2[0] == b && c2[|c2| - 1] == d;
    var c := c1 + c2[1..];
    forall k | 0 <= k < |c| - 1
      ensures Swap(c[k], c[k + 1])
    {
      if k >= |c1| - 1 {
        assert c[k] == c2[k - (|c1| - 1)] && c[k + 1] == c2[k + 1 - (|c1| - 1)];
      }
    }
    assert Chain(c) && c[0] == a && c[|c| - 1] == d;
  }

  lemma SwapAround(p: seq<Emission>, a: seq<Emission>, b: seq<Emission>, q: seq<Emission>)
    requires Swap(a, b)
    ensures Swap(p + a + q, p + b + q)
  {
    var i :| 0 <= i < |a| - 1 && SwapAt(a, b, i);
    var x := p + a + q;
    var j := |p| + i;
    assert x[..j] == p + a[..i] && x[j + 2..] == a[i + 2..] + q;
    assert x[j] == a[i] && x[j + 1] == a[i + 1];
    assert p + b + q == x[..j] + [x[j + 1], x[j]] + x[j + 2..];
    assert SwapAt(x, p + b + q, j);
  }

  lemma ReachesAround(p: seq<Emission>, a: seq<Emission>, b: seq<Emission>, q: seq<Emission>)
    requires Reaches(a, b)
    ensures Reaches(p + a + q, p + b + q)
  {
    var c :| Chain(c) && c[0] == a && c[|c| - 1] == b;
    var d := seq(|c|, k requires 0 <= k < |c| => p + c[k] + q);
    forall j, k | 0 <= j < k < |d| && k == j + 1
      ensures Swap(d[j], d[k])
    {
      SwapAround(p, c[j], c[k], q);
    }
    assert Chain(d) && d[0] == p + a + q && d[|d| - 1] == p + b + q;
  }

  predicate AllUpserts(log: seq<Emission>) { forall i :: 0 <= i < |log| ==> log[i].Upsert? }

  predicate AllEarly(log: seq<Emission>) { forall i :: 0 <= i < |log| ==> Early(log[i]) }

  lemma {:induction false} OnePasses(ups: seq<Emission>, e: Emission)
    requires AllUpserts(ups) && Early(e)
    ensures Reaches(ups + [e], [e] + ups)
    decreases |ups|
  {
    if ups == [] {
      ReachesSame([e]);
    } else {
      var front, last := ups[..|ups| - 1], ups[|ups| - 1];
      var a, b := ups + [e], front + [e] + [last];
      assert SwapAt(a, b, |front|);
      assert Chain([a, b]) && [a, b][0] == a && [a, b][1] == b;
      OnePasses(front, e);
      ReachesAround([], front + [e], [e] + front, [last]);
      assert [] + (front + [e]) + [last] == b && [] + ([e] + front) + [last] == [e] + ups;
      ReachesThen(a, b, [e] + ups);
    }
  }

  lemma {:induction false} EarlyPasses(ups: seq<Emission>, early: seq<Emission>)
    requires AllUpserts(ups) && AllEarly(early)
    ensures Reaches(ups + early, early + ups)
    decreases |early|
  {
    if early == [] {
      assert ups + early == ups && early + ups == ups;
      ReachesSame(ups);
    } else {
      var first, rest := [early[0]], early[1..];
      OnePasses(ups, early[0]);
      ReachesAround([], ups + first, first + ups, rest);
      assert [] + (ups + first) + rest == ups + early;
      EarlyPasses(ups, rest);
      ReachesAround(first, ups + rest, rest + ups, []);
      assert first + (ups + rest) + [] == [] + (first + ups) + rest;
      assert first + (rest + ups) + [] == early + ups;
      ReachesThen(ups + early, first + (ups + rest) + [], early + ups);
    }
  }

  // ---------------------------------------------------------------- splitting

  lemma {:induction false} SplitJoins(a: seq<Emission>, b: seq<Emission>)
    ensures Split(a + b) == Split(a) + Split(b)
  {
    if a == [] {
      assert a + b == b;
    } else {
      assert (a + b)[1..] == a[1..] + b;
      SplitJoins(a[1..], b);
    }
  }

  lemma {:induction false} SplitOfEarly(log: seq<Emission>)
    requires AllEarly(log)
    ensures Split(log) == log
  {
    if log != [] {
      SplitOfEarly(log[1..]);
    }
  }

  lemma SplitOfOne(e: Emission)
    ensures Split([e]) == SplitOne(e)
  {
    assert Split([e]) == SplitOne(e) + Split([]);
  }

  /** A pending upsert, split, is what its messages emit one at a time. */
  lemma GrowingSplits(group: Group, w: WaMessage)
    ensures Split(Flush(Some(group.(messages := group.messages + [w]))))
         == Split(Flush(Some(group))) + [UpsertOf([w], group.md)]
  {
    var grown := group.(messages := group.messages + [w]);
    SplitOfOne(UpsertOf(group.messages, group.md));
    SplitOfOne(UpsertOf(grown.messages, group.md));
  }

  lemma FlushSplitsToUpserts(pending: Option<Group>)
    ensures AllUpserts(Split(Flush(pending)))
  {
    if pending.Some? {
      SplitOfOne(UpsertOf(pending.value.messages, pending.value.md));
    }
  }

  lemma PushNameIsEarly(m: Message)
    ensures AllEarly(PushName(m)) && AllEarly(PushName(m) + [Reported("message")])
  {
  }

  // ---------------------------------------------------------------- one step, on split logs

  lemma SplitsThree(x: seq<Emission>, y: seq<Emission>, z: seq<Emission>)
    ensures Split(x + y + z) == Split(x) + Split(y) + Split(z)
  {
    SplitJoins(x, y);
    SplitJoins(x + y, z);
  }

  /** What was open stays in front, and so does what a boundary emits. */
  lemma BoundaryLog(flush: seq<Emission>, out: seq<Emission>, a: seq<Emission>, b: seq<Emission>)
    requires Reaches(Split(a), Split(b))
    ensures Reaches(Split(flush) + Split(out + a), Split(flush + out + b))
  {
    SplitJoins(out, a);
    SplitsThree(flush, out, b);
    ReachesBehind(Split(flush), Split(out), Split(a), Split(b));
  }

  lemma ReachesBehind(p: seq<Emission>, q: seq<Emission>, a: seq<Emission>, b: seq<Emission>)
    requires Reaches(a, b)
    ensures Reaches(p + (q + a), p + q + b)
  {
    ReachesAround(p + q, a, b, []);
    assert p + q + a + [] == p + (q + a) && p + q + b + [] == p + q + b;
  }

  /**
   * A step that lets `early` pass the open messages `ups`, then emits `closed`, and leaves `open` and
   * the rest of the log for later.
   */
  lemma StepLog(ups: seq<Emission>, early: seq<Emission>, own: seq<Emission>, closed: seq<Emission>,
                open: seq<Emission>, a: seq<Emission>, b: seq<Emission>, before: seq<Emission>, after: seq<Emission>)
    requires AllUpserts(ups) && AllEarly(early) && closed + open == ups + own && Reaches(open + a, b)
    requires before == early + own + a && after == early + closed + b
    ensures Reaches(ups + before, after)
  {
    EarlyPasses(ups, early);
    ReachesAround([], ups + early, early + ups, own + a);
    assert [] + (ups + early) + (own + a) == ups + before;
    ReachesAround(early + closed, open + a, b, []);
    assert [] + (early + ups) + (own + a) == early + (ups + own) + a == early + closed + (open + a) + [];
    assert early + closed + b + [] == after;
    ReachesThen(ups + before, early + closed + (open + a) + [], after);
  }

  lemma EarlySplits(early: seq<Emission>, middle: seq<Emission>, rest: seq<Emission>, all: seq<Emission>)
    requires AllEarly(early) && all == early + middle + rest
    ensures Split(all) == early + Split(middle) + Split(rest)
  {
    SplitOfEarly(early);
    SplitsThree(early, middle, rest);
  }

  // ---------------------------------------------------------------- refinement

  /** One at a time, with the messages of the open upsert already out. */
  function Reference<E, S>(h: Hooks<E, S>, events: seq<Option<Event<E>>>, pending: Option<Group>, s: S): seq<Emission> {
    Split(Flush(pending)) + Split(SingleRun(h, events, s).1)
  }

  /** From any point of the loop on: what is left refines what one-at-a-time dispatch would emit. */
  lemma {:induction false} BatchFromRefines<E, S>(h: Hooks<E, S>, events: seq<Option<Event<E>>>,
                                                  pending: Option<Group>, s: S)
    ensures Batch(h, events, pending, s).0 == SingleRun(h, events, s).0
    ensures Reaches(Reference(h, events, pending, s), Split(Batch(h, events, pending, s).1))
    decreases |events|
  {
    if events == [] {
      assert Split(Flush(pending)) + Split([]) == Split(Flush(pending));
      ReachesSame(Split(Flush(pending)));
    } else if events[0].None? {
      BatchFromRefines(h, events[1..], pending, s);
    } else if IsBoundary(events[0].value) {
      BoundaryRefines(h, events, pending, s);
    } else {
      var m := events[0].value.message;
      if h.ignored(m.chatJid) {
        BatchFromRefines(h, events[1..], pending, s);
        assert Single(h, events[0].value, s) == (s, []);
        assert [] + SingleRun(h, events[1..], s).1 == SingleRun(h, events[1..], s).1;
      } else if h.convert(m).None? {
        FailureRefines(h, events, pending, s, m);
      } else {
        OrdinaryRefines(h, events, pending, s, m, h.convert(m).value);
      }
    }
  }

  lemma {:induction false} BoundaryRefines<E, S>(h: Hooks<E, S>, events: seq<Option<Event<E>>>,
                                                 pending: Option<Group>, s: S)
    requires events != [] && events[0].Some? && IsBoundary(events[0].value)
    ensures Batch(h, events, pending, s).0 == SingleRun(h, events, s).0
    ensures Reaches(Reference(h, events, pending, s), Split(Batch(h, events, pending, s).1))
    decreases |events|, 0
  {
    var (s1, out) := Single(h, events[0].value, s);
    BatchFromRefines(h, events[1..], None, s1);
    var a, b := SingleRun(h, events[1..], s1).1, Batch(h, events[1..], None, s1).1;
    assert Split(Flush(None)) + Split(a) == Split(a);
    BoundaryLog(Flush(pending), out, a, b);
  }

  /** The report and the push name of a message that failed pass the open upsert. */
  lemma {:induction false} FailureRefines<E, S>(h: Hooks<E, S>, events: seq<Option<Event<E>>>, pending: Option<Group>,
                                                s: S, m: Message)
    requires events != [] && events[0] == Some(OfMessage(m)) && !HasSideEffects(m)
    requires !h.ignored(m.chatJid) && h.convert(m).None?
    ensures Batch(h, events, pending, s).0 == SingleRun(h, events, s).0
    ensures Reaches(Reference(h, events, pending, s), Split(Batch(h, events, pending, s).1))
    decreases |events|, 0
  {
    BatchFromRefines(h, events[1..], pending, s);
    var a, b := SingleRun(h, events[1..], s).1, Batch(h, events[1..], pending, s).1;
    var early := PushName(m) + [Reported("message")];
    PushNameIsEarly(m);
    FlushSplitsToUpserts(pending);
    assert Split(Flush(pending)) + [] == [] + Split(Flush(pending));
    assert early + [] == early;
    EarlySplits(early, [], a, early + a);
    EarlySplits(early, [], b, early + b);
    StepLog(Split(Flush(pending)), early, [], [], Split(Flush(pending)), Split(a), Split(b), Split(early + a),
            Split(early + b));
  }

  /** A message that joins the open upsert, or closes it and opens its own. */
  lemma {:induction false} OrdinaryRefines<E, S>(h: Hooks<E, S>, events: seq<Option<Event<E>>>,
                                                 pending: Option<Group>, s: S, m: Message, w: WaMessage)
    requires events != [] && events[0] == Some(OfMessage(m)) && !HasSideEffects(m)
    requires !h.ignored(m.chatJid) && h.convert(m) == Some(w)
    ensures Batch(h, events, pending, s).0 == SingleRun(h, events, s).0
    ensures Reaches(Reference(h, events, pending, s), Split(Batch(h, events, pending, s).1))
    decreases |events|, 0
  {
    var next, own := Opened(pending, MetadataOf(m), w), [UpsertOf([w], MetadataOf(m))];
    BatchFromRefines(h, events[1..], next, s);
    OrdinarySingle(h, events, s, m, w, own);
    OrdinaryBatch(h, events, pending, s, m, w, next);
    FlushSplitsToUpserts(pending);
    PushNameIsEarly(m);
    OpenSplits(pending, MetadataOf(m), w);
    StepLog(Split(Flush(pending)), PushName(m), own, Split(Closed(pending, MetadataOf(m))), Split(Flush(next)),
            Split(SingleRun(h, events[1..], s).1), Split(Batch(h, events[1..], next, s).1),
            Split(SingleRun(h, events, s).1), Split(Batch(h, events, pending, s).1));
  }

  /** What an ordinary message adds to either log. */
  lemma {:induction false} OrdinarySingleLog<E, S>(h: Hooks<E, S>, events: seq<Option<Event<E>>>, s: S,
                                                   m: Message, w: WaMessage, own: seq<Emission>)
    requires events != [] && events[0] == Some(OfMessage(m)) && !HasSideEffects(m)
    requires !h.ignored(m.chatJid) && h.convert(m) == Some(w) && own == [UpsertOf([w], MetadataOf(m))]
    ensures SingleRun(h, events, s).0 == SingleRun(h, events[1..], s).0
    ensures SingleRun(h, events, s).1 == PushName(m) + own + SingleRun(h, events[1..], s).1
  {
    assert Secondary(m, w) == [];
    assert PushName(m) + own + [] == PushName(m) + own;
  }

  lemma {:induction false} OrdinarySingle<E, S>(h: Hooks<E, S>, events: seq<Option<Event<E>>>, s: S,
                                                m: Message, w: WaMessage, own: seq<Emission>)
    requires events != [] && events[0] == Some(OfMessage(m)) && !HasSideEffects(m)
    requires !h.ignored(m.chatJid) && h.convert(m) == Some(w) && own == [UpsertOf([w], MetadataOf(m))]
    ensures SingleRun(h, events, s).0 == SingleRun(h, events[1..], s).0
    ensures Split(SingleRun(h, events, s).1) == PushName(m) + own + Split(SingleRun(h, events[1..], s).1)
  {
    OrdinarySingleLog(h, events, s, m, w, own);
    PushNameIsEarly(m);
    SplitOfOne(own[0]);
    EarlySplits(PushName(m), own, SingleRun(h, events[1..], s).1, SingleRun(h, events, s).1);
  }

  lemma {:induction false} OrdinaryBatchLog<E, S>(h: Hooks<E, S>, events: seq<Option<Event<E>>>,
                                                  pending: Option<Group>, s: S, m: Message, w: WaMessage,
                                                  next: Option<Group>)
    requires events != [] && events[0] == Some(OfMessage(m)) && !HasSideEffects(m)
    requires !h.ignored(m.chatJid) && h.convert(m) == Some(w) && next == Opened(pending, MetadataOf(m), w)
    ensures Batch(h, events, pending, s).0 == Batch(h, events[1..], next, s).0
    ensures Batch(h, events, pending, s).1
            == PushName(m) + Closed(pending, MetadataOf(m)) + Batch(h, events[1..], next, s).1
  {
    assert PushName(m) + [] == PushName(m);
  }

  lemma {:induction false} OrdinaryBatch<E, S>(h: Hooks<E, S>, events: seq<Option<Event<E>>>, pending: Option<Group>,
                                               s: S, m: Message, w: WaMessage, next: Option<Group>)
    requires events != [] && events[0] == Some(OfMessage(m)) && !HasSideEffects(m)
    requires !h.ignored(m.chatJid) && h.convert(m) == Some(w) && next == Opened(pending, MetadataOf(m), w)
    ensures Batch(h, events, pending, s).0 == Batch(h, events[1..], next, s).0
    ensures Split(Batch(h, events, pending, s).1)
         == PushName(m) + Split(Closed(pending, MetadataOf(m))) + Split(Batch(h, events[1..], next, s).1)
  {
    OrdinaryBatchLog(h, events, pending, s, m, w, next);
    PushNameIsEarly(m);
    EarlySplits(PushName(m), Closed(pending, MetadataOf(m)), Batch(h, events[1..], next, s).1,
                Batch(h, events, pending, s).1);
  }

  /** The upsert that is open after a message with these metadata, and what closing the old one emits. */
  function Opened(pending: Option<Group>, md: Metadata, w: WaMessage): Option<Group> {
    if pending.Some? && pending.value.md == md then Some(pending.value.(messages := pending.value.messages + [w]))
    else Some(Group(md, [w]))
  }

  function Closed(pending: Option<Group>, md: Metadata): seq<Emission> {
    if pending.Some? && pending.value.md == md then [] else Flush(pending)
  }

  lemma OpenSplits(pending: Option<Group>, md: Metadata, w: WaMessage)
    ensures Split(Closed(pending, md)) + Split(Flush(Opened(pending, md, w)))
            == Split(Flush(pending)) + [UpsertOf([w], md)]
  {
    if pending.Some? && pending.value.md == md {
      GrowingSplits(pending.value, w);
      assert Split([]) + Split(Flush(Opened(pending, md, w))) == Split(Flush(Opened(pending, md, w)));
    } else {
      SplitOfOne(UpsertOf([w], md));
    }
  }

  /**
   * The batch emits what one-at-a-time dispatch emits, up to those swaps, and ends in its state. What a
   * message emits early overtakes the upsert of the run open when it is read, and nothing else.
   */
  lemma BatchRefines<E, S>(h: Hooks<E, S>, events: seq<Option<Event<E>>>, s: S)
    ensures Batch(h, events, None, s).0 == SingleRun(h, events, s).0
    ensures Reaches(Split(SingleRun(h, events, s).1), Split(Batch(h, events, None, s).1))
    ensures forall j :: 0 <= j < |events| ==> BatchOrder.OvertakesOnlyTheOpenRun(h, events, s, j)
  {
    hide Batch, SingleRun, Reaches, BatchOrder.OvertakesOnlyTheOpenRun;
    BatchFromRefines(h, events, None, s);
    NothingOpen(SingleRun(h, events, s).1);
    forall j | 0 <= j < |events|
      ensures BatchOrder.OvertakesOnlyTheOpenRun(h, events, s, j)
    {
      BatchOrder.EarlyOvertakesOnlyTheOpenRun(h, events, s, j);
    }
  }

  lemma NothingOpen(log: seq<Emission>)
    ensures Split(Flush(None)) + Split(log) == Split(log)
  {
    var out := Split(log);
    assert Split(Flush(None)) == [];
    hide Split;
    assert [] + out == out;
  }

  // ---------------------------------------------------------------- each channel

  function ChannelOf(e: Emission): Channel {
    match e
    case Upsert(_, _, _) => MessagesUpsert
    case ContactsUpdate(_, _) => ContactsUpdates
    case ReactionUpdate(_, _) => MessagesReaction
    case MemberTag(_, _, _) => GroupMemberTag
    case MessageRevoked(_, _) => MessagesUpdate
    case MessageEdited(_, _) => MessagesUpdate
    case Published(channel, _) => channel
    case Reported(_) => Errors
  }

  function Stream(channel: Channel, log: seq<Emission>): seq<Emission> {
    if log == [] then []
    else (if ChannelOf(log[0]) == channel then [log[0]] else []) + Stream(channel, log[1..])
  }

  lemma {:induction false} StreamJoins(channel: Channel, a: seq<Emission>, b: seq<Emission>)
    ensures Stream(channel, a + b) == Stream(channel, a) + Stream(channel, b)
  {
    if a == [] {
      assert a + b == b;
    } else {
      var head := if ChannelOf(a[0]) == channel then [a[0]] else [];
      assert (a + b)[1..] == a[1..] + b && (a + b)[0] == a[0];
      StreamJoins(channel, a[1..], b);
      assert Stream(channel, a + b) == head + Stream(channel, a[1..] + b);
      assert Stream(channel, a) == head + Stream(channel, a[1..]);
    }
  }

  lemma StreamOfPair(channel: Channel, x: Emission, y: Emission)
    requires x.Upsert? && Early(y)
    ensures Stream(channel, [x, y]) == Stream(channel, [y, x])
  {
    assert [x, y][1..] == [y] && [y, x][1..] == [x];
    assert Stream(channel, [x]) == (if ChannelOf(x) == channel then [x] else []) + Stream(channel, []);
    assert Stream(channel, [y]) == (if ChannelOf(y) == channel then [y] else []) + Stream(channel, []);
  }

  lemma SwapKeepsStreams(channel: Channel, a: seq<Emission>, b: seq<Emission>)
    requires Swap(a, b)
    ensures Stream(channel, a) == Stream(channel, b)
  {
    var i :| 0 <= i < |a| - 1 && SwapAt(a, b, i);
    var front, back := a[..i], a[i + 2..];
    StreamOfPair(channel, a[i], a[i + 1]);
    assert a == front + [a[i], a[i + 1]] + back;
    StreamJoins(channel, front, [a[i], a[i + 1]]);
    StreamJoins(channel, front + [a[i], a[i + 1]], back);
    StreamJoins(channel, front, [a[i + 1], a[i]]);
    StreamJoins(channel, front + [a[i + 1], a[i]], back);
  }

  lemma {:induction false} ChainKeepsStreams(channel: Channel, c: seq<seq<Emission>>)
    requires Chain(c)
    ensures Stream(channel, c[0]) == Stream(channel, c[|c| - 1])
  {
    if |c| > 1 {
      SwapKeepsStreams(channel, c[0], c[1]);
      assert forall j, k :: 0 <= j < k < |c[1..]| && k == j + 1 ==> Swap(c[1..][j], c[1..][k]) by {
        forall j, k | 0 <= j < k < |c[1..]| && k == j + 1
          ensures Swap(c[1..][j], c[1..][k])
        {
          assert Swap(c[j + 1], c[k + 1]);
        }
      }
      ChainKeepsStreams(channel, c[1..]);
    }
  }

  /** No listener can tell the batch apart: each channel carries the same messages in the same order. */
  lemma ChannelsAgree<E, S>(h: Hooks<E, S>, events: seq<Option<Event<E>>>, s: S, channel: Channel)
    ensures Stream(channel, Split(Batch(h, events, None, s).1)) == Stream(channel, Split(SingleRun(h, events, s).1))
  {
    BatchRefines(h, events, s);
    var c :| Chain(c) && c[0] == Split(SingleRun(h, events, s).1) && c[|c| - 1] == Split(Batch(h, events, None, s).1);
    ChainKeepsStreams(channel, c);
  }

  // ---------------------------------------------------------------- boundaries

  /** An event of another kind, or a message with something to say on another channel besides. */
  predicate StandsAlone<E>(e: Event<E>) {
    e.OfOther? || e.message.proto.reaction.Some? || e.message.proto.protocol.Some?
  }

  /**
   * Nothing moves across a boundary: the batch is cut there, and the boundary emits in between exactly
   * what it emits on its own.
   */
  lemma {:induction false} NothingCrossesABoundary<E, S>(h: Hooks<E, S>, before: seq<Option<Event<E>>>, e: Event<E>,
                                                         after: seq<Option<Event<E>>>, pending: Option<Group>, s: S)
    requires StandsAlone(e)
    ensures var (s1, head) := Batch(h, before, pending, s);
            var (s2, middle) := Single(h, e, s1);
            var (s3, tail) := Batch(h, after, None, s2);
            Batch(h, before + [Some(e)] + after, pending, s).0 == s3
            && Batch(h, before + [Some(e)] + after, pending, s).1 == head + middle + tail
    decreases |before|, 0
  {
    if before == [] {
      FirstCut(h, e, after, pending, s);
      assert before + [Some(e)] + after == [Some(e)] + after;
    } else {
      CutBehind(h, before[0], before[1..], e, after, pending, s);
      assert before == [before[0]] + before[1..];
      assert before + [Some(e)] + after == [before[0]] + (before[1..] + [Some(e)] + after);
    }
  }

  lemma {:induction false} FirstCut<E, S>(h: Hooks<E, S>, e: Event<E>, after: seq<Option<Event<E>>>,
                                          pending: Option<Group>, s: S)
    requires IsBoundary(e)
    ensures var (s1, head) := Batch(h, [], pending, s);
            var (s2, middle) := Single(h, e, s1);
            var (s3, tail) := Batch(h, after, None, s2);
            Batch(h, [Some(e)] + after, pending, s).0 == s3
            && Batch(h, [Some(e)] + after, pending, s).1 == head + middle + tail
  {
    assert ([Some(e)] + after)[1..] == after;
  }

  /** One more slot ahead of the cut. */
  lemma {:induction false} CutBehind<E, S>(h: Hooks<E, S>, slot: Option<Event<E>>, rest: seq<Option<Event<E>>>,
                                           e: Event<E>, after: seq<Option<Event<E>>>, pending: Option<Group>, s: S)
    requires IsBoundary(e)
    ensures var (s1, head) := Batch(h, [slot] + rest, pending, s);
            var (s2, middle) := Single(h, e, s1);
            var (s3, tail) := Batch(h, after, None, s2);
            Batch(h, [slot] + (rest + [Some(e)] + after), pending, s).0 == s3
            && Batch(h, [slot] + (rest + [Some(e)] + after), pending, s).1 == head + middle + tail
    decreases |rest|, 1
  {
    var a := BatchOrder.ArrivalOf(h, slot);
    var next := BatchOrder.NextRun(pending, a);
    BatchOrder.LoopStep(h, slot, rest, pending, s, next);
    BatchOrder.LoopStep(h, slot, rest + [Some(e)] + after, pending, s, next);
    var (s', own) := if a.Boundary? then Single(h, slot.value, s) else (s, []);
    NothingCrossesABoundary(h, rest, e, after, next, s');
    var (s1, head) := Batch(h, rest, next, s');
    var (s2, middle) := Single(h, e, s1);
    hide Batch, Single, BatchOrder.NextRun, BatchOrder.EarlyOf, BatchOrder.Due, BatchOrder.ArrivalOf;
    LaterCut(BatchOrder.EarlyOf(a) + BatchOrder.Due(pending, a) + own, head, middle, Batch(h, after, None, s2).1);
  }

  lemma LaterCut(first: seq<Emission>, head: seq<Emission>, middle: seq<Emission>, tail: seq<Emission>)
    ensures first + (head + middle + tail) == first + head + middle + tail
  {
  }

  // ---------------------------------------------------------------- which upserts

  /** Slots without an event, and messages that carry neither a reaction nor a protocol message. */
  predicate Ordinary<E>(events: seq<Option<Event<E>>>) {
    forall i :: 0 <= i < |events| ==> events[i].None? || !StandsAlone(events[i].value)
  }

  /** The messages an ordinary stretch delivers, each with its metadata. */
  function Accepted<E, S>(h: Hooks<E, S>, events: seq<Option<Event<E>>>): seq<(Metadata, WaMessage)>
    requires Ordinary(events)
  {
    if events == [] then []
    else if events[0].None? || h.ignored(events[0].value.message.chatJid) || h.convert(events[0].value.message).None?
    then Accepted(h, events[1..])
    else [(MetadataOf(events[0].value.message), h.convert(events[0].value.message).value)] + Accepted(h, events[1..])
  }

  function Flatten(groups: seq<Group>): seq<(Metadata, WaMessage)> {
    if groups == [] then [] else Tagged(groups[0]) + Flatten(groups[1..])
  }

  function Tagged(group: Group): seq<(Metadata, WaMessage)> {
    seq(|group.messages|, i requires 0 <= i < |group.messages| => (group.md, group.messages[i]))
  }

  function Upserts(log: seq<Emission>): seq<Emission> {
    if log == [] then [] else (if log[0].Upsert? then [log[0]] else []) + Upserts(log[1..])
  }

  function Payloads(groups: seq<Group>): seq<Emission> {
    seq(|groups|, i requires 0 <= i < |groups| => UpsertOf(groups[i].messages, groups[i].md))
  }

  /** As few groups as the metadata allow. */
  ghost predicate Maximal(groups: seq<Group>) {
    (forall i :: 0 <= i < |groups| ==> groups[i].messages != [])
    && (forall i, j :: 0 <= i < j < |groups| && j == i + 1 ==> groups[i].md != groups[j].md)
  }

  function OpenGroups(pending: Option<Group>): seq<Group> { if pending.None? then [] else [pending.value] }

  lemma {:induction false} UpsertsOfEarly(early: seq<Emission>, rest: seq<Emission>)
    requires AllEarly(early)
    ensures Upserts(early + rest) == Upserts(rest)
  {
    if early == [] {
      assert early + rest == rest;
    } else {
      assert (early + rest)[1..] == early[1..] + rest;
      UpsertsOfEarly(early[1..], rest);
    }
  }

  lemma UpsertsOfFlush(group: Group, rest: seq<Emission>)
    ensures Upserts(Flush(Some(group)) + rest) == Payloads([group]) + Upserts(rest)
  {
    assert (Flush(Some(group)) + rest)[1..] == rest;
  }

  /** An ordinary stretch emits one upsert for each maximal run of equal metadata, in order. */
  lemma {:induction false} RunsAreMaximal<E, S>(h: Hooks<E, S>, events: seq<Option<Event<E>>>, pending: Option<Group>,
                                                s: S)
    returns (groups: seq<Group>)
    requires Ordinary(events) && (pending.Some? ==> pending.value.messages != [])
    ensures Upserts(Batch(h, events, pending, s).1) == Payloads(groups) && Maximal(groups)
    ensures Flatten(groups) == Flatten(OpenGroups(pending)) + Accepted(h, events)
    ensures pending.Some? ==> groups != [] && groups[0].md == pending.value.md
    decreases |events|
  {
    if events == [] {
      groups := OpenGroups(pending);
      assert Flatten(groups) + [] == Flatten(groups);
      if pending.Some? {
        UpsertsOfFlush(pending.value, []);
        assert Flush(pending) + [] == Flush(pending);
      }
    } else if events[0].None? || h.ignored(events[0].value.message.chatJid) {
      groups := RunsAreMaximal(h, events[1..], pending, s);
    } else {
      var m := events[0].value.message;
      PushNameIsEarly(m);
      if h.convert(m).None? {
        groups := RunsAreMaximal(h, events[1..], pending, s);
        UpsertsOfEarly(PushName(m) + [Reported("message")], Batch(h, events[1..], pending, s).1);
      } else {
        groups := RunGrows(h, events, pending, s, m, h.convert(m).value);
      }
    }
  }

  lemma {:induction false} RunGrows<E, S>(h: Hooks<E, S>, events: seq<Option<Event<E>>>, pending: Option<Group>, s: S,
                                          m: Message, w: WaMessage)
    returns (groups: seq<Group>)
    requires events != [] && events[0] == Some(OfMessage(m)) && Ordinary(events)
    requires !h.ignored(m.chatJid) && h.convert(m) == Some(w) && (pending.Some? ==> pending.value.messages != [])
    ensures Upserts(Batch(h, events, pending, s).1) == Payloads(groups) && Maximal(groups)
    ensures Flatten(groups) == Flatten(OpenGroups(pending)) + Accepted(h, events)
    ensures pending.Some? ==> groups != [] && groups[0].md == pending.value.md
    decreases |events|, 0
  {
    var next := Opened(pending, MetadataOf(m), w);
    var rest := RunsAreMaximal(h, events[1..], next, s);
    groups := Grown(pending, MetadataOf(m), rest);
    OrdinaryBatchLog(h, events, pending, s, m, w, next);
    PushNameIsEarly(m);
    UpsertsGrow(pending, MetadataOf(m), PushName(m), Batch(h, events[1..], next, s).1,
                Batch(h, events, pending, s).1, rest);
    GroupGrows(pending, MetadataOf(m), w, Accepted(h, events[1..]), rest);
    MaximalGrows(pending, MetadataOf(m), rest);
  }

  function Grown(pending: Option<Group>, md: Metadata, rest: seq<Group>): seq<Group> {
    if pending.None? || pending.value.md == md then rest else [pending.value] + rest
  }

  lemma UpsertsGrow(pending: Option<Group>, md: Metadata, early: seq<Emission>, tail: seq<Emission>, all: seq<Emission>,
                    rest: seq<Group>)
    requires AllEarly(early) && all == early + Closed(pending, md) + tail && Upserts(tail) == Payloads(rest)
    ensures Upserts(all) == Payloads(Grown(pending, md, rest))
  {
    hide Upserts, Payloads, AllEarly;
    var closed := Closed(pending, md);
    assert all == early + (closed + tail);
    UpsertsOfEarly(early, closed + tail);
    if pending.None? || pending.value.md == md {
      assert closed + tail == tail;
    } else {
      UpsertsOfFlush(pending.value, tail);
      PayloadsJoin(pending.value, rest);
    }
  }

  lemma PayloadsJoin(group: Group, rest: seq<Group>)
    ensures Payloads([group]) + Payloads(rest) == Payloads([group] + rest)
  {
  }

  lemma MaximalGrows(pending: Option<Group>, md: Metadata, rest: seq<Group>)
    requires Maximal(rest) && rest != [] && rest[0].md == md
    requires pending.Some? ==> pending.value.messages != []
    ensures Maximal(Grown(pending, md, rest))
    ensures Grown(pending, md, rest) != [] && (pending.Some? ==> Grown(pending, md, rest)[0].md == pending.value.md)
  {
    var groups := Grown(pending, md, rest);
    if groups != rest {
      forall i, j | 0 <= i < j < |groups| && j == i + 1
        ensures groups[i].md != groups[j].md
      {
        assert groups[j] == rest[j - 1] && (i > 0 ==> groups[i] == rest[i - 1]);
      }
    }
  }

  lemma GroupGrows(pending: Option<Group>, md: Metadata, w: WaMessage, accepted: seq<(Metadata, WaMessage)>,
                   rest: seq<Group>)
    requires Flatten(rest) == Flatten(OpenGroups(Opened(pending, md, w))) + accepted
    ensures Flatten(Grown(pending, md, rest)) == Flatten(OpenGroups(pending)) + ([(md, w)] + accepted)
  {
    var next := Opened(pending, md, w).value;
    FlattenOne(next);
    if pending.Some? {
      FlattenOne(pending.value);
    }
    if pending.None? || pending.value.md == md {
      assert Tagged(next) == Flatten(OpenGroups(pending)) + [(md, w)];
    } else {
      assert ([pending.value] + rest)[1..] == rest;
      assert Tagged(next) == [(md, w)];
    }
  }

  lemma FlattenOne(group: Group)
    ensures Flatten([group]) == Tagged(group)
  {
    assert Flatten([group]) == Tagged(group) + Flatten([]);
  }

  ghost predicate AreRunsOf<E, S>(h: Hooks<E, S>, events: seq<Option<Event<E>>>, groups: seq<Group>)
    requires Ordinary(events)
  {
    Maximal(groups) && Flatten(groups) == Accepted(h, events)
  }

  lemma OneUpsertForEachRun<E, S>(h: Hooks<E, S>, events: seq<Option<Event<E>>>, s: S)
    requires Ordinary(events)
    ensures exists groups :: AreRunsOf(h, events, groups) && Upserts(Batch(h, events, None, s).1) == Payloads(groups)
  {
    var groups := RunsAreMaximal(h, events, None, s);
    assert Flatten([]) + Accepted(h, events) == Accepted(h, events);
    assert AreRunsOf(h, events, groups);
  }
}
