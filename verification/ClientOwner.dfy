/** The owner's discriminated union (src/Socket/bridge-client-owner.ts), one value for its phase. */
module ClientPhase {
  import opened Wrappers

  /** A native client handle. The bridge never hands out the same one twice. */
  type Client = nat

  /** The discriminated union `OwnerState`, without the promise both closing phases carry. */
  datatype Phase =
    | Starting
    | Running(client: Client)
    | Closing(captured: Option<Client>)
    | Closed

  function Peek(p: Phase): Option<Client> {
    match p
    case Running(c) => Some(c)
    case Closing(c) => c
    case _ => None
  }

  predicate IsClosing(p: Phase) {
    p.Closing? || p.Closed?
  }

  /** `adopt` answers true exactly when the phase is `starting`. */
  function AdoptPhase(p: Phase, candidate: Client): Phase {
    if p.Starting? then Running(candidate) else p
  }

  function ClosePhase(p: Phase): Phase {
    if IsClosing(p) then p else Closing(Peek(p))
  }
}

/**
 * The owner of the native client handle (src/Socket/bridge-client-owner.ts).
 *
 * Every stretch of code between two awaits is one event. `Apply` says what each event does to
 * the owner seen as a value; the class below has the source's fields and updates them in place,
 * and each of its methods is tied to `Apply` by its postcondition.
 */
module ClientOwner {
  import opened Wrappers
  import opened ClientPhase

  /** Where the one run of `runClose` has got to; its promise `done` is pending until `Settled`. */
  datatype CloseRun =
    | NotStarted
    | Scheduled                        // the microtask that will call runClose is queued
    | TearingDown                      // awaiting opts.teardown
    | Releasing(client: Client)        // awaiting releaseQuietly
    | Draining(snapshot: set<Client>)  // awaiting Promise.all over one snapshot
    | Settled

  datatype Owner = Owner(
    phase: Phase,
    run: CloseRun,
    pending: set<Client>,      // pendingReleases
    adopted: set<Client>,      // every client ever passed to adopt
    released: set<Client>,     // clients whose release has finished
    starts: multiset<Client>,  // one entry for each call of `release`
    teardowns: nat             // calls of opts.teardown
  )

  datatype Event =
    | Adopt(candidate: Client)
    | Close
    | RunClose                         // the deferred microtask runs
    | TeardownSettled                  // teardown resolved or rejected: the `finally` runs
    | CloseReleaseSettled
    | DrainTurn                        // Promise.all over the snapshot resolved
    | Discard
    | TrackedReleaseSettled(target: Client)

  const INITIAL := Owner(Starting, NotStarted, {}, {}, {}, multiset{}, 0)

  predicate Enabled(o: Owner, e: Event) {
    match e
    case Adopt(c) => c !in o.adopted
    case Close => true
    case RunClose => o.run.Scheduled?
    case TeardownSettled => o.run.TearingDown?
    case CloseReleaseSettled => o.run.Releasing?
    case DrainTurn => o.run.Draining? && o.run.snapshot !! o.pending
    case Discard => true
    case TrackedReleaseSettled(c) => c in o.pending
  }

  /** `drainReleases`: stop when nothing is pending, otherwise wait for what is pending now. */
  function Drain(pending: set<Client>): CloseRun {
    if pending == {} then Settled else Draining(pending)
  }

  function Track(o: Owner, c: Client): Owner {
    o.(pending := o.pending + {c}, starts := o.starts + multiset{c})
  }

  function Apply(o: Owner, e: Event): Owner
    requires Enabled(o, e)
  {
    match e
    case Adopt(c) =>
      var o1 := o.(adopted := o.adopted + {c}, phase := AdoptPhase(o.phase, c));
      if o.phase.Starting? then o1 else Track(o1, c)
    case Close =>
      if IsClosing(o.phase) then o else o.(phase := ClosePhase(o.phase), run := Scheduled)
    case RunClose => o.(run := TearingDown, teardowns := o.teardowns + 1)
    case TeardownSettled =>
      var o1 := o.(phase := Closed);
      (match Peek(o.phase)
       case Some(c) => o1.(run := Releasing(c), starts := o.starts + multiset{c})
       case None => o1.(run := Drain(o.pending)))
    case CloseReleaseSettled =>
      o.(released := o.released + {o.run.client}, run := Drain(o.pending))
    case DrainTurn => o.(run := Drain(o.pending))
    case Discard =>
      if o.phase.Running? then Track(o.(phase := Starting), o.phase.client) else o
    case TrackedReleaseSettled(c) =>
      o.(pending := o.pending - {c}, released := o.released + {c})
  }

  // ---------------------------------------------------------------- what every step keeps

  /** The client the union itself carries. */
  function Owned(o: Owner): set<Client> {
    match Peek(o.phase)
    case Some(c) => {c}
    case None => {}
  }

  /** The clients whose release has begun and not finished. */
  function BeingReleased(o: Owner): set<Client> {
    o.pending + (if o.run.Releasing? then {o.run.client} else {})
  }

  /** Each adopted client is in exactly one of three hands. */
  ghost predicate Conserved(o: Owner) {
    && o.adopted == Owned(o) + BeingReleased(o) + o.released
    && Owned(o) !! BeingReleased(o)
    && Owned(o) !! o.released
    && BeingReleased(o) !! o.released
  }

  ghost predicate ReleasedOnce(o: Owner) {
    forall c: Client :: o.starts[c] == (if c in BeingReleased(o) + o.released then 1 else 0)
  }

  ghost predicate OneTeardown(o: Owner) {
    && o.teardowns == (if o.run.NotStarted? || o.run.Scheduled? then 0 else 1)
    && (o.phase.Closing? <==> o.run.Scheduled? || o.run.TearingDown?)
    && (o.phase.Closed? <==> o.run.Releasing? || o.run.Draining? || o.run.Settled?)
    && (o.run.Releasing? ==> o.run.client !in o.pending)
  }

  ghost predicate Valid(o: Owner) {
    Conserved(o) && ReleasedOnce(o) && OneTeardown(o)
  }

  lemma StepKeepsValid(o: Owner, e: Event)
    requires Valid(o) && Enabled(o, e)
    ensures Valid(Apply(o, e))
    ensures IsClosing(o.phase) ==> IsClosing(Apply(o, e).phase)
    ensures o.phase.Closed? ==> Apply(o, e).phase.Closed?
    ensures o.released <= Apply(o, e).released
  {
    var o' := Apply(o, e);
    match e {
      case TeardownSettled =>
        assert BeingReleased(o) == o.pending;
        if Peek(o.phase).Some? {
          assert Peek(o.phase).value in Owned(o);
        }
      case CloseReleaseSettled =>
        assert o.run.client in BeingReleased(o);
        assert BeingReleased(o') == o.pending;
      case TrackedReleaseSettled(c) =>
        assert c in BeingReleased(o);
      case Discard =>
        if o.phase.Running? {
          assert o.phase.client in Owned(o);
        }
      case _ =>
    }
  }

  // ---------------------------------------------------------------- over whole runs

  ghost predicate IsRun(o: Owner, events: seq<Event>)
    decreases |events|
  {
    events == [] || (Enabled(o, events[0]) && IsRun(Apply(o, events[0]), events[1..]))
  }

  ghost function Exec(o: Owner, events: seq<Event>): Owner
    requires IsRun(o, events)
    decreases |events|
  {
    if events == [] then o else Exec(Apply(o, events[0]), events[1..])
  }

  lemma {:induction false} RunKeepsValid(o: Owner, events: seq<Event>)
    requires Valid(o) && IsRun(o, events)
    ensures Valid(Exec(o, events))
    ensures IsClosing(o.phase) ==> IsClosing(Exec(o, events).phase)
    ensures o.phase.Closed? ==> Exec(o, events).phase.Closed?
    decreases |events|
  {
    if events != [] {
      StepKeepsValid(o, events[0]);
      RunKeepsValid(Apply(o, events[0]), events[1..]);
    }
  }

  /**
   * Over every run from a fresh owner: a client given to `adopt` is owned, being released or
   * released, never two of them; its release is started at most once; teardown runs at most
   * once; and a client that can be peeked at has not begun to be released.
   */
  lemma ClientsAreConserved(events: seq<Event>)
    requires IsRun(INITIAL, events)
    ensures var o := Exec(INITIAL, events);
            && Conserved(o)
            && (forall c: Client :: o.starts[c] <= 1)
            && (forall c: Client :: o.starts[c] == 1 <==> c in BeingReleased(o) + o.released)
            && o.teardowns <= 1
            && (Peek(o.phase).Some? ==> o.starts[Peek(o.phase).value] == 0)
  {
    RunKeepsValid(INITIAL, events);
    var o := Exec(INITIAL, events);
    if Peek(o.phase).Some? {
      assert Peek(o.phase).value in Owned(o);
    }
  }

  /** Once closing, whatever happens next the owner stays closing and never tears down again. */
  lemma ClosingIsForever(before: seq<Event>, after: seq<Event>)
    requires IsRun(INITIAL, before) && IsRun(Exec(INITIAL, before), after)
    requires IsClosing(Exec(INITIAL, before).phase)
    ensures IsClosing(Exec(Exec(INITIAL, before), after).phase)
    ensures Exec(Exec(INITIAL, before), after).teardowns <= 1
  {
    RunKeepsValid(INITIAL, before);
    RunKeepsValid(Exec(INITIAL, before), after);
  }

  /**
   * The step that settles `close()` leaves no release in flight: every client adopted so far
   * has been released.
   */
  lemma SettlingReleasesEverything(events: seq<Event>, e: Event)
    requires IsRun(INITIAL, events) && Enabled(Exec(INITIAL, events), e)
    requires var o := Exec(INITIAL, events); !o.run.Settled? && Apply(o, e).run.Settled?
    ensures var o' := Apply(Exec(INITIAL, events), e); o'.released == o'.adopted
  {
    RunKeepsValid(INITIAL, events);
    var o := Exec(INITIAL, events);
    StepKeepsValid(o, e);
    var o' := Apply(o, e);
    assert o'.phase.Closed? && Owned(o') == {} && BeingReleased(o') == {};
  }

  // ---------------------------------------------------------------- the source's own form

  class BridgeClientOwner {
    var state: Phase
    var closeRun: CloseRun
    var pendingReleases: set<Client>
    ghost var adopted: set<Client>
    ghost var released: set<Client>
    ghost var starts: multiset<Client>
    ghost var teardowns: nat

    ghost function View(): Owner
      reads this
    {
      Owner(state, closeRun, pendingReleases, adopted, released, starts, teardowns)
    }

    constructor ()
      ensures View() == INITIAL && Valid(View())
    {
      state, closeRun, pendingReleases := Starting, NotStarted, {};
      adopted, released, starts, teardowns := {}, {}, multiset{}, 0;
    }

    method TrackRelease(target: Client)
      modifies this
      ensures View() == Track(old(View()), target)
    {
      pendingReleases := pendingReleases + {target};
      starts := starts + multiset{target};
    }

    method AdoptClient(candidate: Client) returns (accepted: bool)
      requires Valid(View()) && Enabled(View(), Adopt(candidate))
      modifies this
      ensures Valid(View()) && View() == Apply(old(View()), Adopt(candidate))
      ensures accepted <==> Peek(state) == Some(candidate)
      ensures !accepted ==> candidate in pendingReleases
    {
      ghost var before := View();
      StepKeepsValid(before, Adopt(candidate));
      adopted := adopted + {candidate};
      if !state.Starting? {
        TrackRelease(candidate);
        assert Owned(before) <= before.adopted;
        return false;
      }
      state := Running(candidate);
      accepted := true;
    }

    /** Stores `closing` before any teardown work runs; a second caller changes nothing. */
    method CloseOwner()
      requires Valid(View())
      modifies this
      ensures Valid(View()) && View() == Apply(old(View()), Close)
      ensures IsClosing(state)
    {
      StepKeepsValid(View(), Close);
      if state.Closing? || state.Closed? {
        return;
      }
      var client := if state.Running? then Some(state.client) else None;
      closeRun := Scheduled;
      state := Closing(client);
    }

    method StartTeardown()
      requires Valid(View()) && Enabled(View(), RunClose)
      modifies this
      ensures Valid(View()) && View() == Apply(old(View()), RunClose)
    {
      StepKeepsValid(View(), RunClose);
      closeRun := TearingDown;
      teardowns := teardowns + 1;
    }

    method FinishTeardown()
      requires Valid(View()) && Enabled(View(), TeardownSettled)
      modifies this
      ensures Valid(View()) && View() == Apply(old(View()), TeardownSettled)
      ensures Peek(state) == None
    {
      StepKeepsValid(View(), TeardownSettled);
      var client := state.captured;
      state := Closed;
      if client.Some? {
        starts := starts + multiset{client.value};
        closeRun := Releasing(client.value);
      } else {
        DrainReleases();
      }
    }

    method FinishCloseRelease()
      requires Valid(View()) && Enabled(View(), CloseReleaseSettled)
      modifies this
      ensures Valid(View()) && View() == Apply(old(View()), CloseReleaseSettled)
    {
      StepKeepsValid(View(), CloseReleaseSettled);
      released := released + {closeRun.client};
      DrainReleases();
    }

    /** One turn of `while (pendingReleases.size) await Promise.all(pendingReleases)`. */
    method DrainReleases()
      modifies this
      ensures View() == old(View()).(run := Drain(old(pendingReleases)))
    {
      closeRun := if pendingReleases == {} then Settled else Draining(pendingReleases);
    }

    /** Hands a half-built client back, or joins the close that already owns it. */
    method DiscardClient() returns (joined: bool)
      requires Valid(View())
      modifies this
      ensures Valid(View()) && View() == Apply(old(View()), Discard)
      ensures joined <==> IsClosing(old(state))
      ensures !joined ==> state == Starting
    {
      StepKeepsValid(View(), Discard);
      if state.Closing? || state.Closed? {
        return true;
      }
      if !state.Running? {
        return false;
      }
      var client := state.client;
      state := Starting;
      TrackRelease(client);
      joined := false;
    }

    method FinishTrackedRelease(target: Client)
      requires Valid(View()) && Enabled(View(), TrackedReleaseSettled(target))
      modifies this
      ensures Valid(View()) && View() == Apply(old(View()), TrackedReleaseSettled(target))
    {
      StepKeepsValid(View(), TrackedReleaseSettled(target));
      pendingReleases := pendingReleases - {target};
      released := released + {target};
    }
  }
}
