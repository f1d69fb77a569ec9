/**
 What the privileged helper does with an action, and how it ends (packages/singbox/src/macos.rs): it
 runs the core, whose TUN device makes a resolver address reachable, and publishes that address to
 the system. The order matters: while the address is published and the core, and with it the route
 to the address, is gone, names cannot be resolved.

 The specification lists every moment of a helper's life; the class does what the source does, and
 records the moments it passes through.
 */
module HelperState {
  import opened Wrappers

  /** What the rest of the system can see at one moment. */
  datatype Moment = Moment(running: bool, published: bool)

  predicate Reachable(m: Moment) {
    m.published ==> m.running
  }

  /** How a start turns out: a check or the core refuses it, the resolver cannot be published, or
      the tunnel is up. */
  datatype StartOutcome = Refused | Unpublished | Up

  /** The actions that change the state, and the rest, which only ask. */
  datatype Command = Start(outcome: StartOutcome) | Stop | Exit | Ask

  /** What the accept loop gets: a connection with a command, whose answer can be written or not, one
      without an understood command, or an error that is not `WouldBlock`. */
  datatype Event = Request(command: Command, answered: bool) | NoRequest | AcceptError {
    /** The loop is left. An exit whose answer cannot be written counts as a failed connection. */
    predicate Ends() {
      AcceptError? || (Request? && command.Exit? && answered)
    }
  }

  const OFF := Moment(false, false)

  // ---------------------------------------------------------------------
  // The moments of a life
  // ---------------------------------------------------------------------

  /** The resolver is withdrawn, and then the core stopped. */
  function StopMoments(m: Moment): (r: seq<Moment>)
    ensures r != [] && r[|r| - 1] == OFF
  {
    [Moment(m.running, false)] + if m.running then [OFF] else []
  }

  /** The moments one command passes through, in order. */
  function CommandMoments(m: Moment, command: Command): seq<Moment> {
    match command
    case Start(outcome) =>
      if m.running || outcome.Refused? then []
      else [Moment(true, m.published)] + (if outcome.Up? then [Moment(true, true)] else [Moment(false, m.published)])
    case Stop => StopMoments(m)
    case Exit => StopMoments(m)
    case Ask => []
  }

  /** Leaving the loop by an error drops the fields of the state in the order they are declared in:
      first the core, then the resolver. */
  function DropMoments(m: Moment): seq<Moment> {
    (if m.running then [Moment(false, m.published)] else []) + [OFF]
  }

  function LastOf(m: Moment, moments: seq<Moment>): Moment {
    if moments == [] then m else moments[|moments| - 1]
  }

  /** The moments one event passes through. */
  function Passed(m: Moment, e: Event): seq<Moment> {
    match e
    case Request(command, answered) => CommandMoments(m, command)
    case NoRequest => []
    case AcceptError => DropMoments(m)
  }

  function AfterOne(m: Moment, e: Event): Moment {
    LastOf(m, Passed(m, e))
  }

  /** The moments after this one, to the end of the helper. When nothing more comes, the helper goes
      on waiting. */
  function Life(m: Moment, events: seq<Event>): seq<Moment>
    decreases |events|
  {
    if events == [] then []
    else Passed(m, events[0]) + if events[0].Ends() then [] else Life(AfterOne(m, events[0]), events[1..])
  }

  /** Where the helper stands after some events, none of which ends it. */
  function After(m: Moment, events: seq<Event>): Moment
    decreases |events|
  {
    if events == [] then m else After(AfterOne(m, events[0]), events[1..])
  }

  /** The accept loop is left by an error while the tunnel is up. */
  ghost predicate LeftWhileUp(m: Moment, events: seq<Event>) {
    exists k: nat :: LeftAt(m, events, k)
  }

  predicate LeftAt(m: Moment, events: seq<Event>, k: nat) {
    && k < |events| && events[k].AcceptError? && (forall i :: 0 <= i < k ==> !events[i].Ends())
    && After(m, events[..k]).published
  }

  predicate AllReachable(moments: seq<Moment>) {
    forall i :: 0 <= i < |moments| ==> Reachable(moments[i])
  }

  // ---------------------------------------------------------------------
  // When the published address is reachable
  // ---------------------------------------------------------------------

  /** No command ever breaks it: start publishes last, stop and exit withdraw first. Only an error of
      the accept loop does, while the tunnel is up. */
  lemma OnlyAcceptErrorsAreUnsafe(m: Moment, e: Event)
    requires Reachable(m)
    ensures AllReachable(Passed(m, e)) <==> !(e.AcceptError? && m.published)
    ensures Reachable(AfterOne(m, e))
  {
    assert m.published ==> DropMoments(m)[0] == Moment(false, true);
  }

  lemma AllReachableOfBoth(a: seq<Moment>, b: seq<Moment>)
    ensures AllReachable(a + b) <==> AllReachable(a) && AllReachable(b)
  {
    assert forall i :: 0 <= i < |a| ==> (a + b)[i] == a[i];
    assert forall i :: 0 <= i < |b| ==> (a + b)[|a| + i] == b[i];
  }

  lemma LeftWhileUpStep(m: Moment, events: seq<Event>)
    requires events != []
    ensures events[0].AcceptError? ==> (LeftWhileUp(m, events) <==> m.published)
    ensures !events[0].AcceptError? ==>
      (LeftWhileUp(m, events) <==> !events[0].Ends() && LeftWhileUp(AfterOne(m, events[0]), events[1..]))
  {
    var next := AfterOne(m, events[0]);
    hide AfterOne;
    forall k: nat ensures LeftAt(m, events, k + 1) <==> !events[0].Ends() && LeftAt(next, events[1..], k) {
      if k < |events| - 1 {
        assert events[..k + 1][1..] == events[1..][..k];
        assert After(m, events[..k + 1]) == After(next, events[1..][..k]);
        assert forall i :: 0 <= i < k ==> events[1..][i] == events[i + 1];
      }
    }
    assert events[..0] == [];
    if LeftWhileUp(m, events) {
      var k: nat :| LeftAt(m, events, k);
      if k > 0 {
        assert LeftAt(next, events[1..], k - 1);
      }
    }
    if !events[0].Ends() && LeftWhileUp(next, events[1..]) {
      var k: nat :| LeftAt(next, events[1..], k);
      assert LeftAt(m, events, k + 1);
    }
    if events[0].AcceptError? && m.published {
      assert LeftAt(m, events, 0);
    }
  }

  /** Over every life of a helper the published address is reachable at every single moment, if and
      only if the accept loop is not left by an error while the tunnel is up. */
  lemma {:induction false} ReachableUnlessLeftWhileUp(m: Moment, events: seq<Event>)
    requires Reachable(m)
    ensures AllReachable(Life(m, events)) <==> !LeftWhileUp(m, events)
    decreases |events|
  {
    if events == [] {
      assert !LeftWhileUp(m, events);
    } else {
      hide LeftWhileUp, Passed, AfterOne, AllReachable, Reachable;
      LeftWhileUpStep(m, events);
      OnlyAcceptErrorsAreUnsafe(m, events[0]);
      if events[0].Ends() {
        assert Passed(m, events[0]) + [] == Passed(m, events[0]);
      } else {
        var next := AfterOne(m, events[0]);
        ReachableUnlessLeftWhileUp(next, events[1..]);
        AllReachableOfBoth(Passed(m, events[0]), Life(next, events[1..]));
      }
    }
  }

  /** It does happen: the tunnel comes up, and accepting fails. For a moment the address stays
      published although the core is gone. */
  lemma AcceptErrorsBreakIt()
    ensures
      var events := [Request(Start(Up), true), AcceptError];
      && Life(OFF, events) == [Moment(true, false), Moment(true, true), Moment(false, true), OFF]
      && LeftWhileUp(OFF, events) && !AllReachable(Life(OFF, events))
  {
    var events := [Request(Start(Up), true), AcceptError];
    assert events[1..] == [AcceptError];
    assert Life(Moment(true, true), [AcceptError]) == [Moment(false, true), OFF];
    assert Life(OFF, events)[2] == Moment(false, true);
    ReachableUnlessLeftWhileUp(OFF, events);
  }

  lemma EndsOff(m: Moment, e: Event)
    requires e.Ends()
    ensures Passed(m, e) != [] && LastOf(m, Passed(m, e)) == OFF
  {
  }

  /** A helper that ends leaves nothing behind, whichever way it ends. */
  lemma {:induction false} EndedHelpersLeaveNothing(m: Moment, events: seq<Event>)
    requires exists k :: 0 <= k < |events| && events[k].Ends()
    ensures Life(m, events) != [] && LastOf(m, Life(m, events)) == OFF
    decreases |events|
  {
    hide Passed, AfterOne;
    var passed := Passed(m, events[0]);
    if events[0].Ends() {
      EndsOff(m, events[0]);
      assert passed + [] == passed;
    } else {
      var k :| 0 <= k < |events| && events[k].Ends();
      assert events[1..][k - 1] == events[k];
      var rest := Life(AfterOne(m, events[0]), events[1..]);
      EndedHelpersLeaveNothing(AfterOne(m, events[0]), events[1..]);
      assert (passed + rest)[|passed + rest| - 1] == rest[|rest| - 1];
    }
  }

  // ---------------------------------------------------------------------
  // The code
  // ---------------------------------------------------------------------

  datatype CoreError = AlreadyRunning | NotRunning | OtherError(message: string)

  class State {
    var running: bool
    var published: bool
    /** Every moment passed through so far. */
    var moments: seq<Moment>

    ghost function Now(): Moment
      reads this
    {
      Moment(running, published)
    }

    constructor ()
      ensures Now() == OFF && moments == []
    {
      running, published, moments := false, false, [];
    }

    method SetRunning(now: bool)
      modifies this`running, this`moments
      ensures running == now && moments == old(moments) + [Moment(now, published)]
    {
      running := now;
      moments := moments + [Moment(running, published)];
    }

    method SetPublished(now: bool)
      modifies this`published, this`moments
      ensures published == now && moments == old(moments) + [Moment(running, now)]
    {
      published := now;
      moments := moments + [Moment(running, published)];
    }

    /** `EmbeddedCore::stop`: the handle is given up even when stopping reports an error. */
    method StopCore() returns (r: Result<(), CoreError>)
      modifies this`running, this`moments
      ensures !running
      ensures moments == old(moments) + if old(running) then [Moment(false, published)] else []
      ensures r == Err(NotRunning) <==> !old(running)
    {
      if !running {
        return Err(NotRunning);
      }
      SetRunning(false);
      var message: string := *;
      r := Err(OtherError(message));
      if * {
        r := Ok(());
      }
    }

    /** `HelperState::start`: checks, core, resolver; if the resolver cannot be published the core is
        stopped again. A failed start leaves everything as it was. */
    method StartTunnel(outcome: StartOutcome) returns (r: Result<(), CoreError>)
      modifies this
      ensures moments == old(moments) + CommandMoments(old(Now()), Start(outcome))
      ensures r.Ok? <==> !old(running) && outcome.Up?
      ensures Now() == if r.Ok? then Moment(true, true) else old(Now())
      ensures old(running) ==> r == Err(AlreadyRunning)
    {
      if running {
        return Err(AlreadyRunning);
      }
      var message: string := *;
      if outcome.Refused? {
        return Err(OtherError(message));
      }
      SetRunning(true);
      if outcome.Up? {
        SetPublished(true);
        return Ok(());
      }
      var rollback := StopCore();
      r := Err(OtherError(message));
    }

    /** `HelperState::stop`: in the reverse order, and whatever it reports, nothing runs and nothing is
        published afterwards. */
    method StopTunnel() returns (r: Result<(), CoreError>)
      modifies this
      ensures Now() == OFF && moments == old(moments) + StopMoments(old(Now()))
      ensures r == Err(NotRunning) <==> !old(running)
    {
      SetPublished(false);
      r := StopCore();
    }

    /** `dispatch_helper_action`. Stopping what does not run counts as success; only an exit ends the
        helper, and it leaves nothing behind; a question changes nothing. */
    method Dispatch(command: Command) returns (response: Result<(), CoreError>, exit: bool)
      modifies this
      ensures moments == old(moments) + CommandMoments(old(Now()), command)
      ensures Now() == LastOf(old(Now()), CommandMoments(old(Now()), command))
      ensures exit == command.Exit?
      ensures command.Exit? || command.Stop? ==> Now() == OFF
      ensures command.Stop? && !old(running) ==> response.Ok?
      ensures command.Start? && response.Ok? ==> Now() == Moment(true, true)
      ensures command.Ask? || (command.Start? && response.Err?) ==> Now() == old(Now())
    {
      exit := false;
      match command
      case Start(outcome) => response := StartTunnel(outcome);
      case Stop =>
        response := StopTunnel();
        if response == Err(NotRunning) {
          response := Ok(());
        }
      case Exit =>
        exit := true;
        response := Ok(());
        if running {
          response := StopTunnel();
        } else {
          SetPublished(false);
        }
      case Ask =>
        response := Ok(());
        if * {
          var message: string := *;
          response := Err(OtherError(message));
        }
    }

    /** The end of `run_helper` behind the loop. */
    method StopIfRunning() returns (r: Result<(), CoreError>)
      modifies this
      ensures Now() == if old(running) then OFF else old(Now())
      ensures moments == old(moments) + if old(running) then StopMoments(old(Now())) else []
      ensures !old(running) ==> r.Ok?
    {
      r := Ok(());
      if running {
        r := StopTunnel();
      }
    }

    /** The fields go in the order they are declared in: the core with its own stop, the resolver. */
    method Drop()
      modifies this
      ensures Now() == OFF && moments == old(moments) + DropMoments(old(Now()))
    {
      if running {
        var r := StopCore();
      }
      SetPublished(false);
    }

    /** One turn of the accept loop: whether it leaves the loop, and with what. */
    method Turn(e: Event) returns (left: bool, r: Result<(), CoreError>)
      modifies this
      ensures moments == old(moments) + Passed(old(Now()), e) && Now() == AfterOne(old(Now()), e)
      ensures left == e.Ends()
      ensures r.Err? <==> e.AcceptError?
    {
      left, r := false, Ok(());
      match e
      case AcceptError =>
        Drop();
        var message: string := *;
        left, r := true, Err(OtherError(message));
      case NoRequest =>
      case Request(command, answered) =>
        var response, exit := Dispatch(command);
        left := exit && answered;
        if left {
          r := StopIfRunning();
        }
    }
  }

  /** `run_helper` from its accept loop on, which is left after an answered exit, where the core is
      stopped if it should still run, or by an error. Without either the helper goes on waiting. */
  method RunHelper(events: seq<Event>) returns (moments: seq<Moment>, r: Result<(), CoreError>)
    ensures moments == Life(OFF, events)
    ensures r.Err? ==> exists k :: 0 <= k < |events| && events[k].AcceptError?
  {
    hide Passed, AfterOne, Life;
    var state := new State();
    var left := false;
    var k := 0;
    r := Ok(());
    assert events[0..] == events && state.moments + Life(OFF, events) == Life(OFF, events);
    while k < |events| && !left
      invariant fresh(state) && k <= |events|
      invariant left ==> state.moments == Life(OFF, events)
      invariant !left ==> r.Ok? && state.moments + Life(state.Now(), events[k..]) == Life(OFF, events)
      invariant r.Err? ==> exists i :: 0 <= i < |events| && events[i].AcceptError?
      decreases |events| - k
    {
      LifeStep(state.moments, state.Now(), events, k);
      left, r := state.Turn(events[k]);
      k := k + 1;
    }
    if !left {
      NothingMore(state.Now());
      assert events[|events|..] == [] && state.moments + [] == state.moments;
    }
    moments := state.moments;
  }

  lemma NothingMore(m: Moment)
    ensures Life(m, []) == []
  {
  }

  lemma LifeStep(before: seq<Moment>, m: Moment, events: seq<Event>, k: nat)
    requires k < |events|
    ensures before + Life(m, events[k..]) ==
            before + Passed(m, events[k]) + if events[k].Ends() then [] else Life(AfterOne(m, events[k]), events[k + 1..])
  {
    hide Passed, AfterOne;
    assert events[k..][1..] == events[k + 1..];
  }
}
