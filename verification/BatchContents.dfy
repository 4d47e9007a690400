/**
 * What the batch says of each message, in terms of the message's own fields: which upsert it is in, with
 * which kind and request id, and which of the other emissions it causes, with what payload.
 */
module BatchContents {
  import opened Wrappers
  import opened BatchDispatch
  import opened BatchTheorems

  // ---------------------------------------------------------------- one message

  ghost predicate EndsInBroadcast(jid: string) { exists name :: jid == name + "@broadcast" }

  /** Whose name it is: the sender's, or in a chat of two the chat's. */
  function NamedBy(m: Message): string { if m.senderJid.Some? then m.senderJid.value else m.chatJid }

  /** A push name is news about whoever sent it, unless that is the user or a broadcast list. */
  ghost predicate SaysName(m: Message, out: seq<Emission>) {
    if m.pushName.Some? && m.pushName.value != "" && !m.isFromMe && !EndsInBroadcast(NamedBy(m))
    then out == [ContactsUpdate(NamedBy(m), m.pushName.value)]
    else out == []
  }

  /** The message itself: appended when it came from the offline queue, and with its request id if it has one. */
  predicate SaysMessage(m: Message, w: WaMessage, out: seq<Emission>) {
    && |out| == 1 && out[0].Upsert? && out[0].messages == [w]
    && out[0].kind == (if m.isOffline then Append else Notify)
    && out[0].requestId == (if m.unavailableRequestId == Some("") then None else m.unavailableRequestId)
  }

  predicate SaysReaction(m: Message, w: WaMessage, out: seq<Emission>) {
    if m.proto.reaction.Some? && m.proto.reaction.value.target.Some?
    then out == [ReactionUpdate(m.proto.reaction.value.target.value, w.key)]
    else out == []
  }

  /** A changed member label, of the sender in that group. */
  predicate SaysTag(m: Message, out: seq<Emission>) {
    if m.proto.protocol.Some? && m.proto.protocol.value.kind.MemberLabelChange?
       && m.proto.protocol.value.memberLabel != "" && m.senderJid.Some? && m.senderJid.value != ""
    then out == [MemberTag(m.chatJid, m.proto.protocol.value.memberLabel, m.senderJid.value)]
    else out == []
  }

  /** A revoke or an edit, of the message in the same chat with the id it names. */
  predicate SaysUpdate(m: Message, w: WaMessage, out: seq<Emission>) {
    if m.proto.protocol.Some? && m.proto.protocol.value.keyId != "" && m.proto.protocol.value.kind.Revoke? then
      out == [MessageRevoked(Key(w.key.remoteJid, m.proto.protocol.value.keyId), w.key)]
    else if m.proto.protocol.Some? && m.proto.protocol.value.keyId != ""
            && m.proto.protocol.value.kind.MessageEdit? && m.proto.protocol.value.edited.Some? then
      out == [MessageEdited(Key(w.key.remoteJid, m.proto.protocol.value.keyId), m.proto.protocol.value.edited.value)]
    else out == []
  }

  /** The parts of what one message emits, in this order. */
  ghost predicate InFiveParts(m: Message, w: WaMessage, out: seq<Emission>, name: seq<Emission>, own: seq<Emission>,
                              reaction: seq<Emission>, tag: seq<Emission>, update: seq<Emission>)
  {
    && SaysName(m, name) && SaysMessage(m, w, own) && SaysReaction(m, w, reaction) && SaysTag(m, tag)
    && SaysUpdate(m, w, update) && out == name + own + reaction + tag + update
  }

  /** All that a message emits when it is dispatched alone. */
  ghost predicate SaysAll<E, S>(h: Hooks<E, S>, m: Message, out: seq<Emission>) {
    if h.ignored(m.chatJid) then out == []
    else if h.convert(m).None? then exists name :: SaysName(m, name) && out == name + [Reported("message")]
    else
      exists name, own, reaction, tag, update ::
        InFiveParts(m, h.convert(m).value, out, name, own, reaction, tag, update)
  }

  lemma BroadcastMeansSuffix(jid: string)
    ensures IsBroadcast(jid) <==> EndsInBroadcast(jid)
  {
    var suffix := "@broadcast";
    if IsBroadcast(jid) {
      assert jid == jid[..|jid| - |suffix|] + suffix;
    }
    if EndsInBroadcast(jid) {
      var name :| jid == name + suffix;
      assert jid[|jid| - |suffix|..] == suffix;
    }
  }

  lemma PushNameSays(m: Message)
    ensures SaysName(m, PushName(m))
  {
    BroadcastMeansSuffix(NamedBy(m));
  }

  lemma SingleSays<E, S>(h: Hooks<E, S>, m: Message, s: S)
    ensures Single(h, OfMessage(m), s).0 == s
    ensures SaysAll(h, m, Single(h, OfMessage(m), s).1)
  {
    PushNameSays(m);
    if !h.ignored(m.chatJid) && h.convert(m).Some? {
      var w := h.convert(m).value;
      var tag, update := PartsOfSecondary(m, w);
      assert Single(h, OfMessage(m), s).1
          == PushName(m) + [UpsertOf([w], MetadataOf(m))] + ReactionEmissions(m, w) + tag + update;
      assert InFiveParts(m, w, Single(h, OfMessage(m), s).1, PushName(m), [UpsertOf([w], MetadataOf(m))],
                         ReactionEmissions(m, w), tag, update);
    }
  }

  lemma PartsOfSecondary(m: Message, w: WaMessage) returns (tag: seq<Emission>, update: seq<Emission>)
    ensures SaysTag(m, tag) && SaysUpdate(m, w, update)
    ensures Secondary(m, w) == ReactionEmissions(m, w) + (tag + update)
  {
    tag, update := [], [];
    if m.proto.protocol.Some? {
      var p := m.proto.protocol.value;
      if p.kind.MemberLabelChange? && p.memberLabel != "" && m.senderJid.Some? && m.senderJid != Some("") {
        tag := [MemberTag(m.chatJid, p.memberLabel, m.senderJid.value)];
      }
      if p.keyId != "" && p.kind.Revoke? {
        update := [MessageRevoked(Key(w.key.remoteJid, p.keyId), w.key)];
      } else if p.keyId != "" && p.kind.MessageEdit? && p.edited.Some? {
        update := [MessageEdited(Key(w.key.remoteJid, p.keyId), p.edited.value)];
      }
    } else {
      assert tag + update == [];
    }
  }

  // ---------------------------------------------------------------- the batch, channel by channel

  /** What one slot of the batch contributes to a channel; `s` is the state other dispatchers have by then. */
  ghost predicate SaysOn<E, S>(h: Hooks<E, S>, channel: Channel, slot: Option<Event<E>>, s: S, out: seq<Emission>) {
    if slot.None? then out == []
    else if slot.value.OfOther? then out == Stream(channel, Split(h.other(slot.value.other, s).1))
    else
      var m := slot.value.message;
      if h.ignored(m.chatJid) then out == []
      else if channel.ContactsUpdates? then SaysName(m, out)
      else if h.convert(m).None? then out == if channel.Errors? then [Reported("message")] else []
      else
        var w := h.convert(m).value;
        match channel
        case MessagesUpsert => SaysMessage(m, w, out)
        case MessagesReaction => SaysReaction(m, w, out)
        case GroupMemberTag => SaysTag(m, out)
        case MessagesUpdate => SaysUpdate(m, w, out)
        case _ => out == []
  }

  /** A part of a log that is all on one channel, each upsert in it of one message. */
  predicate AllOn(channel: Channel, log: seq<Emission>) {
    forall i :: 0 <= i < |log| ==> ChannelOf(log[i]) == channel && (log[i].Upsert? ==> |log[i].messages| == 1)
  }

  lemma {:induction false} StreamOfPart(channel: Channel, own: Channel, part: seq<Emission>)
    requires AllOn(own, part)
    ensures Stream(channel, Split(part)) == if channel == own then part else []
  {
    if part != [] {
      assert SplitOne(part[0]) == [part[0]] by {
        if part[0].Upsert? {
          assert part[0].messages == [part[0].messages[0]];
        }
      }
      StreamOfPart(channel, own, part[1..]);
      assert Split(part) == [part[0]] + Split(part[1..]);
      assert ([part[0]] + Split(part[1..]))[1..] == Split(part[1..]);
      assert part == [part[0]] + part[1..];
    }
  }

  lemma StreamOfJoined(channel: Channel, a: seq<Emission>, b: seq<Emission>)
    ensures Stream(channel, Split(a + b)) == Stream(channel, Split(a)) + Stream(channel, Split(b))
  {
    SplitJoins(a, b);
    StreamJoins(channel, Split(a), Split(b));
  }

  lemma NameStream(channel: Channel, m: Message, name: seq<Emission>)
    requires SaysName(m, name)
    ensures Stream(channel, Split(name)) == if channel == ContactsUpdates then name else []
  {
    hide Stream, Split, EndsInBroadcast;
    StreamOfPart(channel, ContactsUpdates, name);
  }

  function Pick(channel: Channel, own: Channel, part: seq<Emission>): seq<Emission> {
    if channel == own then part else []
  }

  /** The one of the five parts that is on this channel. */
  function PartOn(channel: Channel, name: seq<Emission>, own: seq<Emission>, reaction: seq<Emission>,
                  tag: seq<Emission>, update: seq<Emission>): seq<Emission>
  {
    match channel
    case ContactsUpdates => name
    case MessagesUpsert => own
    case MessagesReaction => reaction
    case GroupMemberTag => tag
    case MessagesUpdate => update
    case _ => []
  }

  lemma PickedIsPart(channel: Channel, name: seq<Emission>, own: seq<Emission>, reaction: seq<Emission>,
                     tag: seq<Emission>, update: seq<Emission>)
    ensures Pick(channel, ContactsUpdates, name) + Pick(channel, MessagesUpsert, own)
            + Pick(channel, MessagesReaction, reaction) + Pick(channel, GroupMemberTag, tag)
            + Pick(channel, MessagesUpdate, update)
         == PartOn(channel, name, own, reaction, tag, update)
  {
    match channel
    case ContactsUpdates => assert name + [] + [] + [] + [] == name;
    case MessagesUpsert => assert [] + own + [] + [] + [] == own;
    case MessagesReaction => assert [] + [] + reaction + [] + [] == reaction;
    case GroupMemberTag => assert [] + [] + [] + tag + [] == tag;
    case _ =>
  }

  lemma FiveJoined(channel: Channel, name: seq<Emission>, own: seq<Emission>, reaction: seq<Emission>,
                   tag: seq<Emission>, update: seq<Emission>)
    ensures Stream(channel, Split(name + own + reaction + tag + update))
         == Stream(channel, Split(name)) + Stream(channel, Split(own)) + Stream(channel, Split(reaction))
            + Stream(channel, Split(tag)) + Stream(channel, Split(update))
  {
    hide Stream, Split;
    StreamOfJoined(channel, name + own + reaction + tag, update);
    StreamOfJoined(channel, name + own + reaction, tag);
    StreamOfJoined(channel, name + own, reaction);
    StreamOfJoined(channel, name, own);
  }

  lemma OwnStream(channel: Channel, m: Message, w: WaMessage, own: seq<Emission>)
    requires SaysMessage(m, w, own)
    ensures Stream(channel, Split(own)) == Pick(channel, MessagesUpsert, own)
  {
    hide Stream, Split;
    StreamOfPart(channel, MessagesUpsert, own);
  }

  lemma ReactionStream(channel: Channel, m: Message, w: WaMessage, reaction: seq<Emission>)
    requires SaysReaction(m, w, reaction)
    ensures Stream(channel, Split(reaction)) == Pick(channel, MessagesReaction, reaction)
  {
    hide Stream, Split;
    StreamOfPart(channel, MessagesReaction, reaction);
  }

  lemma TagStream(channel: Channel, m: Message, tag: seq<Emission>)
    requires SaysTag(m, tag)
    ensures Stream(channel, Split(tag)) == Pick(channel, GroupMemberTag, tag)
  {
    hide Stream, Split;
    StreamOfPart(channel, GroupMemberTag, tag);
  }

  lemma UpdateStream(channel: Channel, m: Message, w: WaMessage, update: seq<Emission>)
    requires SaysUpdate(m, w, update)
    ensures Stream(channel, Split(update)) == Pick(channel, MessagesUpdate, update)
  {
    hide Stream, Split;
    StreamOfPart(channel, MessagesUpdate, update);
  }

  lemma FivePicked(channel: Channel, m: Message, w: WaMessage, name: seq<Emission>, own: seq<Emission>,
                   reaction: seq<Emission>, tag: seq<Emission>, update: seq<Emission>)
    requires SaysName(m, name) && SaysMessage(m, w, own) && SaysReaction(m, w, reaction) && SaysTag(m, tag)
    requires SaysUpdate(m, w, update)
    ensures Stream(channel, Split(name)) == Pick(channel, ContactsUpdates, name)
    ensures Stream(channel, Split(own)) == Pick(channel, MessagesUpsert, own)
    ensures Stream(channel, Split(reaction)) == Pick(channel, MessagesReaction, reaction)
    ensures Stream(channel, Split(tag)) == Pick(channel, GroupMemberTag, tag)
    ensures Stream(channel, Split(update)) == Pick(channel, MessagesUpdate, update)
  {
    hide Stream, Split, SaysName, SaysMessage, SaysReaction, SaysTag, SaysUpdate;
    NameStream(channel, m, name);
    OwnStream(channel, m, w, own);
    ReactionStream(channel, m, w, reaction);
    TagStream(channel, m, tag);
    UpdateStream(channel, m, w, update);
  }

  lemma FivePartStream(channel: Channel, m: Message, w: WaMessage, out: seq<Emission>, name: seq<Emission>,
                       own: seq<Emission>, reaction: seq<Emission>, tag: seq<Emission>, update: seq<Emission>)
    requires InFiveParts(m, w, out, name, own, reaction, tag, update)
    ensures Stream(channel, Split(out)) == PartOn(channel, name, own, reaction, tag, update)
  {
    hide Stream, Split, SaysName, SaysMessage, SaysReaction, SaysTag, SaysUpdate, PartOn, Pick;
    FiveJoined(channel, name, own, reaction, tag, update);
    FivePicked(channel, m, w, name, own, reaction, tag, update);
    PickedIsPart(channel, name, own, reaction, tag, update);
  }

  lemma DeliveredSaysOn<E, S>(h: Hooks<E, S>, channel: Channel, m: Message, s: S, out: seq<Emission>)
    requires !h.ignored(m.chatJid) && h.convert(m).Some? && SaysAll(h, m, out)
    ensures SaysOn(h, channel, Some(OfMessage(m)), s, Stream(channel, Split(out)))
  {
    var w := h.convert(m).value;
    var name, own, reaction, tag, update :| InFiveParts(m, w, out, name, own, reaction, tag, update);
    hide Stream, Split, SaysName, SaysMessage, SaysReaction, SaysTag, SaysUpdate;
    FivePartStream(channel, m, w, out, name, own, reaction, tag, update);
  }

  lemma FailedStream(channel: Channel, m: Message, name: seq<Emission>)
    requires SaysName(m, name)
    ensures Stream(channel, Split(name + [Reported("message")]))
         == if channel.ContactsUpdates? then name else if channel.Errors? then [Reported("message")] else []
  {
    hide Stream, Split, SaysName;
    var report := [Reported("message")];
    StreamOfJoined(channel, name, report);
    NameStream(channel, m, name);
    StreamOfPart(channel, Errors, report);
    assert name + [] == name && [] + report == report;
  }

  lemma FailedSaysOn<E, S>(h: Hooks<E, S>, channel: Channel, m: Message, s: S, out: seq<Emission>)
    requires !h.ignored(m.chatJid) && h.convert(m).None? && SaysAll(h, m, out)
    ensures SaysOn(h, channel, Some(OfMessage(m)), s, Stream(channel, Split(out)))
  {
    hide Split, Stream, SaysName;
    var name :| SaysName(m, name) && out == name + [Reported("message")];
    FailedStream(channel, m, name);
  }

  lemma SingleSaysOn<E, S>(h: Hooks<E, S>, channel: Channel, e: Event<E>, s: S)
    ensures SaysOn(h, channel, Some(e), s, Stream(channel, Split(Single(h, e, s).1)))
  {
    if e.OfMessage? {
      var m, out := e.message, Single(h, e, s).1;
      SingleSays(h, m, s);
      if h.ignored(m.chatJid) {
        assert Split(out) == [];
      } else if h.convert(m).None? {
        FailedSaysOn(h, channel, m, s, out);
      } else {
        DeliveredSaysOn(h, channel, m, s, out);
      }
    }
  }

  function Joined(parts: seq<seq<Emission>>): seq<Emission> {
    if parts == [] then [] else parts[0] + Joined(parts[1..])
  }

  /** One part for each slot, and the state each slot finds. */
  ghost predicate Parts<E, S>(h: Hooks<E, S>, channel: Channel, events: seq<Option<Event<E>>>, s: S,
                              parts: seq<seq<Emission>>)
  {
    && |parts| == |events|
    && forall i :: 0 <= i < |events| ==> SaysOn(h, channel, events[i], SingleRun(h, events[..i], s).0, parts[i])
  }

  lemma {:induction false} SingleRunSays<E, S>(h: Hooks<E, S>, channel: Channel, events: seq<Option<Event<E>>>, s: S)
    returns (parts: seq<seq<Emission>>)
    ensures Parts(h, channel, events, s, parts)
    ensures Stream(channel, Split(SingleRun(h, events, s).1)) == Joined(parts)
    decreases |events|
  {
    parts := [];
    if events != [] {
      var next, out := StepOf(h, events, s);
      var rest := SingleRunSays(h, channel, events[1..], next);
      var first := Stream(channel, Split(out));
      if events[0].Some? {
        SingleSaysOn(h, channel, events[0].value, s);
      }
      parts := [first] + rest;
      StreamOfJoined(channel, out, SingleRun(h, events[1..], next).1);
      PartsBehind(h, channel, events, s, next, first, rest);
      assert parts[1..] == rest;
    }
  }

  /** The first slot, as one-at-a-time dispatch takes it. */
  lemma StepOf<E, S>(h: Hooks<E, S>, events: seq<Option<Event<E>>>, s: S) returns (next: S, out: seq<Emission>)
    requires events != []
    ensures if events[0].None? then next == s && out == [] else (next, out) == Single(h, events[0].value, s)
    ensures SingleRun(h, events, s).0 == SingleRun(h, events[1..], next).0
    ensures SingleRun(h, events, s).1 == out + SingleRun(h, events[1..], next).1
  {
    next, out := s, [];
    if events[0].Some? {
      next, out := Single(h, events[0].value, s).0, Single(h, events[0].value, s).1;
    }
  }

  lemma PartsBehind<E, S>(h: Hooks<E, S>, channel: Channel, events: seq<Option<Event<E>>>, s: S, next: S,
                          first: seq<Emission>, rest: seq<seq<Emission>>)
    requires events != [] && next == (if events[0].None? then s else Single(h, events[0].value, s).0)
    requires SaysOn(h, channel, events[0], s, first) && Parts(h, channel, events[1..], next, rest)
    ensures Parts(h, channel, events, s, [first] + rest)
  {
    forall i | 0 <= i < |events|
      ensures SaysOn(h, channel, events[i], SingleRun(h, events[..i], s).0, ([first] + rest)[i])
    {
      if i > 0 {
        var earlier := events[..i];
        var n, o := StepOf(h, earlier, s);
        assert earlier[1..] == events[1..][..i - 1] && earlier[0] == events[0];
        assert SaysOn(h, channel, events[1..][i - 1], SingleRun(h, events[1..][..i - 1], next).0, rest[i - 1]);
      }
    }
  }

  /**
   * Every channel of the batch, upserts taken message by message: one part for each event, in order, each what
   * the fields of that event's message call for on that channel, and nothing besides. So each message that
   * converts is in exactly one upsert, of its own kind and request id.
   */
  lemma BatchSays<E, S>(h: Hooks<E, S>, channel: Channel, events: seq<Option<Event<E>>>, s: S)
    returns (parts: seq<seq<Emission>>)
    ensures Parts(h, channel, events, s, parts)
    ensures Stream(channel, Split(Batch(h, events, None, s).1)) == Joined(parts)
  {
    ChannelsAgree(h, events, s, channel);
    parts := SingleRunSays(h, channel, events, s);
  }
}
