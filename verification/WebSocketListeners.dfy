/**
 * The listener side of the WebSocket facade (src/Compatibility/websocket-client.ts): keeping the
 * engine's raw-node forwarding flag equal to the presence of a `CB:` or `TAG:` listener, however
 * listener mutations and emits nest and throw.
 */
module WebSocketListeners {
  datatype Listener = Listener(id: nat, once: bool)

  /** Event name to listeners, in call order; a name is present only with a listener. */
  type Table = map<string, seq<Listener>>

  /** A call on the facade, or what a listener's body does with such calls. */
  datatype Op =
    | Add(name: string, listener: Listener, front: bool)  // on, once and the prepend forms
    | Remove(name: string, id: nat)
    | RemoveAll
    | RemoveAllOf(name: string)
    | Emit(name: string, bodies: seq<Op>)                 // body k is what the k-th listener does
    | Refused                                             // a mutation that throws before it changes anything
    | Throw                                               // a body throws
    | Try(body: Op)                                       // a body catches
    | Do(steps: seq<Op>)

  const CALLBACK_PREFIX := "CB:"
  const TAG_PREFIX := "TAG:"

  predicate IsRaw(name: string) {
    CALLBACK_PREFIX <= name || TAG_PREFIX <= name
  }

  /** `eventNames().some(isRawNodeEventName)`. */
  predicate HasRaw(t: Table) {
    exists name | name in t :: IsRaw(name)
  }

  function ListenersOf(t: Table, name: string): seq<Listener> {
    if name in t then t[name] else []
  }

  function WithListeners(t: Table, name: string, ls: seq<Listener>): Table {
    if ls == [] then t - {name} else t[name := ls]
  }

  /** The emitter drops the latest registration of a listener. */
  function Without(ls: seq<Listener>, id: nat): seq<Listener> {
    if ls == [] then []
    else if ls[|ls| - 1].id == id then ls[..|ls| - 1]
    else Without(ls[..|ls| - 1], id) + [ls[|ls| - 1]]
  }

  function Removed(t: Table, name: string, id: nat): Table {
    WithListeners(t, name, Without(ListenersOf(t, name), id))
  }

  function Added(t: Table, name: string, l: Listener, front: bool): Table {
    t[name := if front then [l] + ListenersOf(t, name) else ListenersOf(t, name) + [l]]
  }

  // ------------------------------------------------------ the listener table, on its own

  /** What the emitter alone makes of an operation: the table, and whether it threw. */
  function Run(t: Table, op: Op): (Table, bool)
    decreases op, 0
  {
    match op
    case Add(name, l, front) => (Added(t, name, l, front), false)
    case Remove(name, id) => (Removed(t, name, id), false)
    case RemoveAll => (map[], false)
    case RemoveAllOf(name) => (t - {name}, false)
    case Emit(name, bodies) => RunListeners(t, name, ListenersOf(t, name), bodies)
    case Refused => (t, true)
    case Throw => (t, true)
    case Try(body) => (Run(t, body).0, false)
    case Do(steps) => RunSteps(t, steps)
  }

  function RunSteps(t: Table, steps: seq<Op>): (Table, bool)
    decreases steps, |steps|
  {
    if steps == [] then (t, false)
    else var (t1, threw) := Run(t, steps[0]);
         if threw then (t1, true) else RunSteps(t1, steps[1..])
  }

  /** An emit calls the listeners there were when it began; a once-listener goes before it runs. */
  function RunListeners(t: Table, name: string, snapshot: seq<Listener>, bodies: seq<Op>): (Table, bool)
    decreases bodies, |snapshot|
  {
    if snapshot == [] then (t, false)
    else
      var t1 := if snapshot[0].once then Removed(t, name, snapshot[0].id) else t;
      if bodies == [] then RunListeners(t1, name, snapshot[1..], bodies)
      else var (t2, threw) := Run(t1, bodies[0]);
           if threw then (t2, true) else RunListeners(t2, name, snapshot[1..], bodies[1..])
  }

  // ------------------------------------------------------ the order an emitter keeps

  /** A name is present only with a listener. */
  ghost predicate IsTable(t: Table) { forall name :: name in t ==> t[name] != [] }

  ghost predicate SameElsewhere(t: Table, t': Table, name: string) {
    forall other :: other != name ==> ListenersOf(t', other) == ListenersOf(t, other) && (other in t' <==> other in t)
  }

  /** A new listener is called after all there are, or before all of them, and they keep their order. */
  lemma AddedInOrder(t: Table, name: string, l: Listener, front: bool)
    ensures var ls, ls' := ListenersOf(t, name), ListenersOf(Added(t, name, l, front), name);
            && |ls'| == |ls| + 1
            && (if front then ls'[0] == l else ls'[|ls|] == l)
            && forall k :: 0 <= k < |ls| ==> ls[k] == ls'[if front then k + 1 else k]
    ensures SameElsewhere(t, Added(t, name, l, front), name)
  {
    var ls := ListenersOf(t, name);
    assert ListenersOf(Added(t, name, l, front), name) == if front then [l] + ls else ls + [l];
  }

  lemma WithoutAt(init: seq<Listener>, last: Listener, at: nat)
    requires at < |init|
    ensures init[..at] + init[at + 1..] + [last] == (init + [last])[..at] + (init + [last])[at + 1..]
  {
    assert (init + [last])[..at] == init[..at];
    assert (init + [last])[at + 1..] == init[at + 1..] + [last];
  }

  lemma {:induction false} WithoutLatest(ls: seq<Listener>, id: nat) returns (at: int)
    ensures -1 <= at < |ls| && (forall k :: at < k < |ls| ==> ls[k].id != id)
    ensures if at < 0 then Without(ls, id) == ls else ls[at].id == id && Without(ls, id) == ls[..at] + ls[at + 1..]
  {
    if ls == [] {
      at := -1;
    } else {
      var init, last := ls[..|ls| - 1], ls[|ls| - 1];
      assert ls == init + [last];
      if last.id == id {
        at := |init|;
        assert ls[at + 1..] == [] && init + [] == init;
      } else {
        at := WithoutLatest(init, id);
        if at >= 0 {
          WithoutAt(init, last, at);
        }
      }
    }
  }

  /** A removal takes the latest of a listener's registrations, the others keep their order, and nothing else goes. */
  lemma RemovedIsLatest(t: Table, name: string, id: nat)
    requires IsTable(t)
    ensures var ls, ls' := ListenersOf(t, name), ListenersOf(Removed(t, name, id), name);
            if forall k :: 0 <= k < |ls| ==> ls[k].id != id then ls' == ls
            else exists at :: 0 <= at < |ls| && ls[at].id == id && (forall k :: at < k < |ls| ==> ls[k].id != id)
                              && ls' == ls[..at] + ls[at + 1..]
    ensures SameElsewhere(t, Removed(t, name, id), name) && IsTable(Removed(t, name, id))
  {
    var at := WithoutLatest(ListenersOf(t, name), id);
  }

  /** Whatever is called, no name stays without a listener. */
  lemma {:induction false} RunKeepsTable(t: Table, op: Op)
    requires IsTable(t)
    ensures IsTable(Run(t, op).0)
    decreases op, 0
  {
    match op
    case Emit(name, bodies) => ListenersKeepTable(t, name, ListenersOf(t, name), bodies);
    case Try(body) => RunKeepsTable(t, body);
    case Do(steps) => StepsKeepTable(t, steps);
    case _ =>
  }

  lemma {:induction false} StepsKeepTable(t: Table, steps: seq<Op>)
    requires IsTable(t)
    ensures IsTable(RunSteps(t, steps).0)
    decreases steps, |steps|
  {
    if steps != [] {
      RunKeepsTable(t, steps[0]);
      StepsKeepTable(Run(t, steps[0]).0, steps[1..]);
    }
  }

  lemma {:induction false} ListenersKeepTable(t: Table, name: string, snapshot: seq<Listener>, bodies: seq<Op>)
    requires IsTable(t)
    ensures IsTable(RunListeners(t, name, snapshot, bodies).0)
    decreases bodies, |snapshot|
  {
    if snapshot != [] {
      var t1 := if snapshot[0].once then Removed(t, name, snapshot[0].id) else t;
      if bodies == [] {
        ListenersKeepTable(t1, name, snapshot[1..], bodies);
      } else {
        RunKeepsTable(t1, bodies[0]);
        ListenersKeepTable(Run(t1, bodies[0]).0, name, snapshot[1..], bodies[1..]);
      }
    }
  }

  class WebSocketClient {
    var listeners: Table
    var listenerMutationDepth: nat
    var hasClient: bool       // getClient() finds a live client
    var synced: bool          // startup has passed the `isRawNodeForwardingEnabled` check
    var forwarding: bool      // the engine's flag; a fresh client has it off
    ghost var nativeCalls: seq<bool>

    /** Between mutations the engine's flag is what the listeners call for. */
    ghost predicate Coherent()
      reads this
    {
      && (!hasClient ==> !forwarding && !synced)
      && (forwarding ==> HasRaw(listeners))
      && (synced ==> forwarding == HasRaw(listeners))
    }

    constructor ()
      ensures Coherent() && listenerMutationDepth == 0 && listeners == map[] && nativeCalls == []
    {
      listeners, listenerMutationDepth, hasClient, synced, forwarding := map[], 0, false, false, false;
      nativeCalls := [];
    }

    /** The owner has adopted a client; its forwarding is off until told otherwise. */
    method Adopt()
      requires Coherent() && !hasClient
      modifies `hasClient
      ensures Coherent()
    {
      hasClient := true;
    }

    method SetRawNodeForwarding(enabled: bool)
      modifies `forwarding, `nativeCalls
      ensures forwarding == enabled && nativeCalls == old(nativeCalls) + [enabled]
    {
      forwarding := enabled;
      nativeCalls := nativeCalls + [enabled];
    }

    /** The startup sync: forward if somebody was already listening. */
    method StartupSync()
      requires Coherent() && hasClient && listenerMutationDepth == 0
      modifies `forwarding, `nativeCalls, `synced
      ensures Coherent() && synced
    {
      var enabled := HasRaw(listeners);
      if enabled {
        SetRawNodeForwarding(true);
      }
      synced := true;
    }

    /**
     * Any call on the facade. The table ends as the emitter alone would leave it; the depth is
     * restored even when the call throws; only the outermost call touches the engine, at most once,
     * and exactly when the presence of raw listeners changed across the whole of it.
     */
    method Call(op: Op) returns (threw: bool)
      requires listenerMutationDepth == 0 ==> Coherent()
      modifies `listeners, `listenerMutationDepth, `forwarding, `nativeCalls
      ensures (listeners, threw) == Run(old(listeners), op)
      ensures listenerMutationDepth == old(listenerMutationDepth)
      ensures listenerMutationDepth == 0 ==> Coherent()
      ensures listenerMutationDepth > 0 ==> nativeCalls == old(nativeCalls) && forwarding == old(forwarding)
      ensures listenerMutationDepth == 0 && !op.Do? && !op.Try? ==>
                nativeCalls == if hasClient && HasRaw(old(listeners)) != HasRaw(listeners)
                               then old(nativeCalls) + [HasRaw(listeners)] else old(nativeCalls)
      decreases op, 2
    {
      match op {
        case Throw =>
          threw := true;
        case Try(body) =>
          threw := Call(body);
          threw := false;
        case Do(steps) =>
          threw := CallAll(steps);
        case _ =>
          threw := MutateListeners(op);
      }
    }

    method CallAll(steps: seq<Op>) returns (threw: bool)
      requires listenerMutationDepth == 0 ==> Coherent()
      modifies `listeners, `listenerMutationDepth, `forwarding, `nativeCalls
      ensures (listeners, threw) == RunSteps(old(listeners), steps)
      ensures listenerMutationDepth == old(listenerMutationDepth)
      ensures listenerMutationDepth == 0 ==> Coherent()
      ensures listenerMutationDepth > 0 ==> nativeCalls == old(nativeCalls) && forwarding == old(forwarding)
      decreases steps, |steps|
    {
      threw := false;
      if steps != [] {
        threw := Call(steps[0]);
        if !threw {
          threw := CallAll(steps[1..]);
        }
      }
    }

    method MutateListeners(op: Op) returns (threw: bool)
      requires !op.Throw? && !op.Try? && !op.Do?
      requires listenerMutationDepth == 0 ==> Coherent()
      modifies `listeners, `listenerMutationDepth, `forwarding, `nativeCalls
      ensures (listeners, threw) == Run(old(listeners), op)
      ensures listenerMutationDepth == old(listenerMutationDepth)
      ensures listenerMutationDepth == 0 ==> Coherent()
      ensures listenerMutationDepth > 0 ==> nativeCalls == old(nativeCalls) && forwarding == old(forwarding)
      ensures listenerMutationDepth == 0 ==>
                nativeCalls == if hasClient && HasRaw(old(listeners)) != HasRaw(listeners)
                               then old(nativeCalls) + [HasRaw(listeners)] else old(nativeCalls)
      decreases op, 1
    {
      var outermost := listenerMutationDepth == 0;
      listenerMutationDepth := listenerMutationDepth + 1;
      var wasEnabled := outermost && HasRaw(listeners);
      threw := Mutation(op);
      listenerMutationDepth := listenerMutationDepth - 1;
      if outermost {
        var enabled := HasRaw(listeners);
        if enabled != wasEnabled && hasClient {
          SetRawNodeForwarding(enabled);
        }
      }
    }

    /** The mutation itself, on the emitter. */
    method Mutation(op: Op) returns (threw: bool)
      requires !op.Throw? && !op.Try? && !op.Do? && listenerMutationDepth > 0
      modifies `listeners, `listenerMutationDepth, `forwarding, `nativeCalls
      ensures (listeners, threw) == Run(old(listeners), op)
      ensures listenerMutationDepth == old(listenerMutationDepth)
      ensures nativeCalls == old(nativeCalls) && forwarding == old(forwarding)
      decreases op, 0
    {
      threw := false;
      match op {
        case Add(name, l, front) => listeners := Added(listeners, name, l, front);
        case Remove(name, id) => listeners := Removed(listeners, name, id);
        case RemoveAll => listeners := map[];
        case RemoveAllOf(name) => listeners := listeners - {name};
        case Emit(name, bodies) => threw := EmitToListeners(name, ListenersOf(listeners, name), bodies);
        case _ => threw := true;
      }
    }

    method EmitToListeners(name: string, snapshot: seq<Listener>, bodies: seq<Op>) returns (threw: bool)
      requires listenerMutationDepth > 0
      modifies `listeners, `listenerMutationDepth, `forwarding, `nativeCalls
      ensures (listeners, threw) == RunListeners(old(listeners), name, snapshot, bodies)
      ensures listenerMutationDepth == old(listenerMutationDepth)
      ensures nativeCalls == old(nativeCalls) && forwarding == old(forwarding)
      decreases bodies, |snapshot|
    {
      threw := false;
      var k := 0;
      ghost var left := RunListeners(listeners, name, snapshot, bodies);
      while k < |snapshot|
        invariant 0 <= k <= |snapshot| && !threw
        invariant listenerMutationDepth == old(listenerMutationDepth)
        invariant nativeCalls == old(nativeCalls) && forwarding == old(forwarding)
        invariant RunListeners(listeners, name, snapshot[k..], if k <= |bodies| then bodies[k..] else []) == left
      {
        assert snapshot[k..][0] == snapshot[k] && snapshot[k..][1..] == snapshot[k + 1..];
        if snapshot[k].once {
          listeners := Removed(listeners, name, snapshot[k].id);
        }
        if k < |bodies| {
          assert bodies[k..][0] == bodies[k] && bodies[k..][1..] == bodies[k + 1..];
          threw := Call(bodies[k]);
          if threw {
            return;
          }
        }
        k := k + 1;
      }
    }
  }
}
