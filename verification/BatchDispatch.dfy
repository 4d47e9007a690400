/**
 * dispatchCanonicalBatch of src/Socket/events-core.ts: adjacent ordinary messages share one
 * `messages.upsert`. The reference is one-at-a-time dispatch; this module has both, as functions and
 * the batch also as the loop it is.
 */
module BatchDispatch {
  import opened Wrappers

  type Handle = nat

  datatype Key = Key(remoteJid: string, id: string)

  datatype Reaction = Reaction(target: Option<Key>)

  datatype ProtocolKind = Revoke | MessageEdit | MemberLabelChange | OtherKind

  datatype Protocol =
    Protocol(kind: ProtocolKind, memberLabel: string, keyId: string, edited: Option<Handle>)

  datatype Proto = Proto(reaction: Option<Reaction>, protocol: Option<Protocol>)

  datatype Message = Message(chatJid: string, senderJid: Option<string>, isFromMe: bool, id: string,
                             pushName: Option<string>, isOffline: bool, unavailableRequestId: Option<string>,
                             proto: Proto)

  /** Every canonical event but `message` is opaque here. */
  datatype Event<E> = OfMessage(message: Message) | OfOther(other: E)

  datatype WaMessage = WaMessage(key: Key, content: Handle)

  datatype Kind = Append | Notify

  datatype Metadata = Metadata(kind: Kind, requestId: Option<string>)

  datatype Channel =
    | MessagesUpsert | ContactsUpdates | MessagesReaction | GroupMemberTag | MessagesUpdate | Errors
    | Named(name: string)

  /** One call on the public emitter, or one report of a contained failure. */
  datatype Emission =
    | Upsert(messages: seq<WaMessage>, kind: Kind, requestId: Option<string>)
    | ContactsUpdate(id: string, notify: string)
    | ReactionUpdate(target: Key, source: Key)
    | MemberTag(group: string, tag: string, participant: string)
    | MessageRevoked(target: Key, source: Key)
    | MessageEdited(target: Key, edited: Handle)
    | Published(channel: Channel, payload: Handle)
    | Reported(context: string)

  /**
   * What the dispatchers call and this model leaves open: the consumer's predicate, the conversion
   * (None when it throws) and the dispatchers of the other events, with the state they keep.
   */
  datatype Hooks<!E, !S> = Hooks(ignored: string -> bool, convert: Message -> Option<WaMessage>,
                                 other: (E, S) -> (S, seq<Emission>))

  // ---------------------------------------------------------------- one message

  function MetadataOf(m: Message): Metadata {
    Metadata(if m.isOffline then Append else Notify, m.unavailableRequestId)
  }

  /** emitMessageUpsert: an empty request id is left out of the payload. */
  function UpsertOf(messages: seq<WaMessage>, md: Metadata): Emission {
    Upsert(messages, md.kind, if md.requestId == Some("") then None else md.requestId)
  }

  predicate IsBroadcast(jid: string) {
    var suffix := "@broadcast";
    |jid| >= |suffix| && jid[|jid| - |suffix|..] == suffix
  }

  function PushName(m: Message): seq<Emission> {
    var id := if m.senderJid.Some? then m.senderJid.value else m.chatJid;
    if m.pushName.None? || m.pushName == Some("") || m.isFromMe || IsBroadcast(id) then []
    else [ContactsUpdate(id, m.pushName.value)]
  }

  predicate HasSideEffects(m: Message) { m.proto.reaction.Some? || m.proto.protocol.Some? }

  function ReactionEmissions(m: Message, w: WaMessage): seq<Emission> {
    if m.proto.reaction.Some? && m.proto.reaction.value.target.Some?
    then [ReactionUpdate(m.proto.reaction.value.target.value, w.key)]
    else []
  }

  function ProtocolEmissions(m: Message, p: Protocol, w: WaMessage): seq<Emission> {
    var target := w.key.(id := p.keyId);
    (if p.kind.MemberLabelChange? && p.memberLabel != "" && m.senderJid.Some? && m.senderJid != Some("")
     then [MemberTag(m.chatJid, p.memberLabel, m.senderJid.value)] else [])
    + (if p.keyId == "" then []
       else if p.kind.Revoke? then [MessageRevoked(target, w.key)]
       else if p.kind.MessageEdit? && p.edited.Some? then [MessageEdited(target, p.edited.value)]
       else [])
  }

  function Secondary(m: Message, w: WaMessage): seq<Emission> {
    ReactionEmissions(m, w) + (if m.proto.protocol.Some? then ProtocolEmissions(m, m.proto.protocol.value, w) else [])
  }

  // ---------------------------------------------------------------- one at a time

  /** dispatchCanonicalEvent: a failing conversion is reported after the push name went out. */
  function Single<E, S>(h: Hooks<E, S>, e: Event<E>, s: S): (S, seq<Emission>) {
    match e
    case OfOther(o) => h.other(o, s)
    case OfMessage(m) =>
      if h.ignored(m.chatJid) then (s, [])
      else
        match h.convert(m)
        case None => (s, PushName(m) + [Reported("message")])
        case Some(w) => (s, PushName(m) + [UpsertOf([w], MetadataOf(m))] + Secondary(m, w))
  }

  /** A slot of a batch that did not adapt to a canonical event is None. */
  function SingleRun<E, S>(h: Hooks<E, S>, events: seq<Option<Event<E>>>, s: S): (S, seq<Emission>) {
    if events == [] then (s, [])
    else if events[0].None? then SingleRun(h, events[1..], s)
    else
      var (s1, out) := Single(h, events[0].value, s);
      var (s2, rest) := SingleRun(h, events[1..], s1);
      (s2, out + rest)
  }

  // ---------------------------------------------------------------- the batch

  datatype Group = Group(md: Metadata, messages: seq<WaMessage>)

  function Flush(pending: Option<Group>): seq<Emission> {
    if pending.None? then [] else [UpsertOf(pending.value.messages, pending.value.md)]
  }

  predicate IsBoundary<E>(e: Event<E>) { e.OfOther? || HasSideEffects(e.message) }

  /** The batch from some point on, with the upsert that is still open. */
  function Batch<E, S>(h: Hooks<E, S>, events: seq<Option<Event<E>>>, pending: Option<Group>, s: S): (S, seq<Emission>)
    decreases |events|
  {
    if events == [] then (s, Flush(pending))
    else if events[0].None? then Batch(h, events[1..], pending, s)
    else if IsBoundary(events[0].value) then
      var (s1, out) := Single(h, events[0].value, s);
      var (s2, rest) := Batch(h, events[1..], None, s1);
      (s2, Flush(pending) + out + rest)
    else
      var m := events[0].value.message;
      if h.ignored(m.chatJid) then Batch(h, events[1..], pending, s)
      else
        match h.convert(m)
        case None =>
          var (s2, rest) := Batch(h, events[1..], pending, s);
          (s2, PushName(m) + [Reported("message")] + rest)
        case Some(w) =>
          if pending.Some? && pending.value.md == MetadataOf(m) then
            var open := Some(pending.value.(messages := pending.value.messages + [w]));
            var (s2, rest) := Batch(h, events[1..], open, s);
            (s2, PushName(m) + rest)
          else
            var (s2, rest) := Batch(h, events[1..], Some(Group(MetadataOf(m), [w])), s);
            (s2, PushName(m) + Flush(pending) + rest)
  }

  /** Both ways of cutting a log: what is out, what a step adds, what remains. */
  lemma Appended(out: seq<Emission>, added: seq<Emission>, rest: seq<Emission>)
    ensures out + (added + rest) == out + added + rest
  {
  }

  /** The loop: `out` is what has reached the emitter, `pending` the open upsert. */
  method DispatchCanonicalBatch<E, S>(h: Hooks<E, S>, events: seq<Option<Event<E>>>, s: S)
    returns (state: S, out: seq<Emission>)
    ensures state == Batch(h, events, None, s).0 && out == Batch(h, events, None, s).1
  {
    state, out := s, [];
    var pending: Option<Group> := None;
    var index := 0;
    assert events[0..] == events;
    while index < |events|
      invariant index <= |events|
      invariant Batch(h, events, None, s).0 == Batch(h, events[index..], pending, state).0
      invariant Batch(h, events, None, s).1 == out + Batch(h, events[index..], pending, state).1
    {
      assert events[index..][1..] == events[index + 1..];
      ghost var before := out;
      var canonical := events[index];
      index := index + 1;
      if canonical.None? {
        continue;
      }
      if IsBoundary(canonical.value) {
        ghost var flushed := Flush(pending);
        if pending.Some? {
          out := out + [UpsertOf(pending.value.messages, pending.value.md)];
          pending := None;
        }
        var (next, emitted) := Single(h, canonical.value, state);
        state, out := next, out + emitted;
        assert out == before + (flushed + emitted);
        Appended(before, flushed + emitted, Batch(h, events[index..], None, state).1);
        continue;
      }
      var m := canonical.value.message;
      if h.ignored(m.chatJid) {
        continue;
      }
      out := out + PushName(m);
      var md := MetadataOf(m);
      var converted := h.convert(m);
      if converted.None? {
        out := out + [Reported("message")];
        assert out == before + (PushName(m) + [Reported("message")]);
        Appended(before, PushName(m) + [Reported("message")], Batch(h, events[index..], pending, state).1);
      } else if pending.Some? && pending.value.md == md {
        pending := Some(pending.value.(messages := pending.value.messages + [converted.value]));
        Appended(before, PushName(m), Batch(h, events[index..], pending, state).1);
      } else {
        ghost var flushed := Flush(pending);
        if pending.Some? {
          out := out + [UpsertOf(pending.value.messages, pending.value.md)];
        }
        pending := Some(Group(md, [converted.value]));
        assert out == before + (PushName(m) + flushed);
        Appended(before, PushName(m) + flushed, Batch(h, events[index..], pending, state).1);
      }
    }
    if pending.Some? {
      out := out + [UpsertOf(pending.value.messages, pending.value.md)];
    }
  }
}
