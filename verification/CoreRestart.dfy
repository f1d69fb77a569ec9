/**
 Restarting the core (packages/api/src/core.rs): a transaction over an engine whose start, stop and
 status requests may all fail, and may have had their effect all the same.

 Error texts are modelled by the messages they are composed of, in order.
 */
module CoreRestart {
  import opened Wrappers
  import opened Text

  /** A complete core configuration; its content does not matter here. */
  type Config = string
  type Messages = seq<string>

  const MAX_ATTEMPTS: nat := 45
  const ADDRESS_IN_USE := "address already in use"

  // ---------------------------------------------------------------------
  // The engine
  // ---------------------------------------------------------------------

  /** A successful answer is truthful. A start that fails may have started the core, and a stop that
      fails may have stopped it. `starts` records the answers to start attempts, and `failures` the
      messages of the status, stop and (retried) start requests that failed. */
  class Engine {
    var running: Option<Config>
    ghost var starts: seq<Result<(), string>>
    ghost var failures: Messages

    constructor ()
      ensures running == None && starts == [] && failures == []
    {
      running := None;
      starts := [];
      failures := [];
    }

    method IsRunning() returns (r: Result<bool, string>)
      modifies this`failures
      ensures r.Ok? ==> r.value == running.Some?
      ensures failures == old(failures) + if r.Err? then [r.error] else []
    {
      if * {
        r := Ok(running.Some?);
      } else {
        var message: string := *;
        r := Err(message);
        failures := failures + [message];
      }
    }

    method Start(config: Config) returns (r: Result<(), string>)
      modifies this`running, this`starts
      ensures starts == old(starts) + [r]
      ensures r.Ok? ==> old(running).None? && running == Some(config)
      ensures r.Err? ==> running == old(running) || (old(running).None? && running == Some(config))
    {
      var message: string := *;
      r := Err(message);
      if running.None? {
        if * {
          running := Some(config);
          if * {
            r := Ok(());
          }
        }
      }
      starts := starts + [r];
    }

    method Stop() returns (r: Result<(), string>)
      modifies this`running, this`failures
      ensures r.Ok? ==> running == None
      ensures r.Err? ==> running in {old(running), None}
      ensures failures == old(failures) + if r.Err? then [r.error] else []
    {
      var message: string := *;
      r := Err(message);
      if * {
        running := None;
        if * {
          return Ok(());
        }
      }
      failures := failures + [message];
    }

    method ForceShutdown()
      modifies this`running
      ensures running == None
    {
      running := None;
    }

    /** The core may die between two operations. */
    method Die()
      modifies this`running
      ensures running in {old(running), None}
    {
      if * {
        running := None;
      }
    }
  }

  /** `start_config_with_bind_retry`: as long as the port is taken, and no more often than allowed,
      the start is tried again; the answer is that of the last attempt. */
  method StartWithBindRetry(engine: Engine, config: Config) returns (r: Result<(), string>)
    modifies engine
    ensures r.Ok? ==> engine.running == Some(config)
    ensures r.Err? ==> engine.running in {old(engine.running), Some(config)}
    ensures old(engine.running).Some? ==> r.Err? && engine.running == old(engine.running)
    ensures |old(engine.starts)| < |engine.starts| <= |old(engine.starts)| + MAX_ATTEMPTS
    ensures engine.starts[..|old(engine.starts)|] == old(engine.starts)
    ensures engine.starts[|engine.starts| - 1] == r
    ensures forall k :: |old(engine.starts)| <= k < |engine.starts| - 1 ==>
      engine.starts[k].Err? && Contains(engine.starts[k].error, ADDRESS_IN_USE)
    ensures r.Err? && Contains(r.error, ADDRESS_IN_USE) ==> |engine.starts| == |old(engine.starts)| + MAX_ATTEMPTS
    ensures engine.failures == old(engine.failures) + if r.Err? then [r.error] else []
  {
    var attempt := 0;
    while attempt < MAX_ATTEMPTS
      invariant attempt < MAX_ATTEMPTS && |engine.starts| == |old(engine.starts)| + attempt
      invariant engine.starts[..|old(engine.starts)|] == old(engine.starts)
      invariant engine.running in {old(engine.running), Some(config)}
      invariant old(engine.running).Some? ==> engine.running == old(engine.running)
      invariant forall k :: |old(engine.starts)| <= k < |engine.starts| ==>
        engine.starts[k].Err? && Contains(engine.starts[k].error, ADDRESS_IN_USE)
      invariant engine.failures == old(engine.failures)
    {
      r := engine.Start(config);
      if r.Ok? || FirstIndex(r.error, ADDRESS_IN_USE, 0).None? || attempt + 1 >= MAX_ATTEMPTS {
        engine.failures := engine.failures + if r.Err? then [r.error] else [];
        return;
      }
      attempt := attempt + 1;
    }
  }

  // ---------------------------------------------------------------------
  // The transaction
  // ---------------------------------------------------------------------

  datatype Observation = Running | Stopped(errors: Messages) | Unknown(errors: Messages)

  datatype Outcome =
    | CandidateRunning
    | PreviousPreserved(errors: Messages)
    | PreviousRestored(errors: Messages)
    | CoreOffline(errors: Messages)

  /** What an outcome claims about the engine, before and after the transaction. */
  predicate Truthful(outcome: Outcome, candidate: Config, previous: Option<Config>, before: Option<Config>, after: Option<Config>) {
    match outcome
    case CandidateRunning => after == Some(candidate)
    case PreviousPreserved(_) => after == before
    case PreviousRestored(_) => previous.Some? && after == previous
    case CoreOffline(_) => after == None
  }

  predicate UpToOneMore(reported: Messages, failures: Messages) {
    reported <= failures && |failures| <= |reported| + 1
  }

  /** `start_core_and_observe`, on a stopped engine. */
  method StartAndObserve(engine: Engine, config: Config) returns (o: Observation)
    requires engine.running == None
    modifies engine
    ensures engine.running in {None, Some(config)}
    ensures o.Running? ==> engine.running == Some(config)
    ensures o.Stopped? ==> engine.running == None
    ensures !o.Running? ==> o.errors != []
    ensures !o.Running? ==> engine.failures == old(engine.failures) + o.errors
    ensures o.Running? ==> UpToOneMore(old(engine.failures), engine.failures)
    ensures o.Unknown? ==> |o.errors| == 2
  {
    ghost var before := engine.failures;
    var started := StartWithBindRetry(engine, config);
    if started.Ok? {
      return Running;
    }
    var status := engine.IsRunning();
    assert status.Err? ==> engine.failures == before + [started.error, status.error];
    o := match status
         case Ok(true) => Running
         case Ok(false) => Stopped([started.error])
         case Err(error) => Unknown([started.error, error]);
  }

  /** `restore_previous_core`. */
  method RestorePrevious(engine: Engine, previous: Option<Config>, cause: Messages) returns (outcome: Outcome)
    requires engine.running == None
    modifies engine
    ensures outcome.PreviousRestored? || outcome.CoreOffline?
    ensures outcome.PreviousRestored? ==> previous.Some? && engine.running == previous
    ensures outcome.CoreOffline? ==> engine.running == None
    ensures cause <= outcome.errors
    ensures outcome.CoreOffline? ==> engine.failures == old(engine.failures) + outcome.errors[|cause|..]
    ensures outcome.PreviousRestored? ==> outcome.errors == cause && UpToOneMore(old(engine.failures), engine.failures)
    ensures outcome.CoreOffline? && previous.Some? ==> |engine.failures| > |old(engine.failures)|
  {
    assert engine.failures + [] == engine.failures;
    if previous.None? {
      return CoreOffline(cause);
    }
    var observed := StartAndObserve(engine, previous.value);
    match observed
    case Running => outcome := PreviousRestored(cause);
    case Stopped(errors) => outcome := CoreOffline(cause + errors);
    case Unknown(errors) =>
      engine.ForceShutdown();
      outcome := CoreOffline(cause + errors);
  }

  /** The end of the transaction: the engine is stopped, and the candidate is tried. */
  method SwitchToCandidate(engine: Engine, candidate: Config, previous: Option<Config>, cause: Messages)
    returns (outcome: Outcome)
    requires engine.running == None
    modifies engine
    ensures !outcome.PreviousPreserved?
    ensures Truthful(outcome, candidate, previous, None, engine.running)
    ensures !outcome.CandidateRunning? ==> cause < outcome.errors
    ensures outcome.CoreOffline? ==> engine.failures == old(engine.failures) + outcome.errors[|cause|..]
    ensures outcome.PreviousRestored? ==> UpToOneMore(old(engine.failures) + outcome.errors[|cause|..], engine.failures)
    ensures outcome.CandidateRunning? ==> UpToOneMore(old(engine.failures), engine.failures)
    ensures outcome.CoreOffline? && previous.Some? ==> |outcome.errors| >= |cause| + 2
  {
    var observed := StartAndObserve(engine, candidate);
    match observed
    case Running => outcome := CandidateRunning;
    case Stopped(errors) =>
      outcome := RestorePrevious(engine, previous, cause + errors);
      assert outcome.errors[|cause|..] == errors + outcome.errors[|cause + errors|..];
    case Unknown(errors) =>
      engine.ForceShutdown();
      outcome := CoreOffline(cause + errors);
  }

  /** `restart_core_transaction`. Whatever fails, the outcome tells the truth; a candidate that does
      not pass its check leaves the engine alone. If the candidate does not run in the end, the errors
      are the failures there were, in their order: all of them if the core is offline or was
      preserved, and all but perhaps the last, of a start that worked all the same, if it was
      restored. If nothing fails, the candidate runs; and while there is a previous configuration, one
      failing request alone does not take the core offline, unless it is the first look at its status. */
  method RestartTransaction(engine: Engine, candidate: Config, previous: Option<Config>, checked: Result<(), string>)
    returns (outcome: Outcome)
    modifies engine
    ensures Truthful(outcome, candidate, previous, old(engine.running), engine.running)
    ensures checked.Err? ==> outcome == PreviousPreserved([checked.error]) && engine.starts == old(engine.starts)
    ensures outcome.PreviousPreserved? ==> checked.Err? || old(engine.running).Some?
    ensures !outcome.CandidateRunning? ==> outcome.errors != []
    ensures checked.Ok? && (outcome.CoreOffline? || outcome.PreviousPreserved?) ==>
      engine.failures == old(engine.failures) + outcome.errors
    ensures checked.Ok? && outcome.PreviousRestored? ==>
      UpToOneMore(old(engine.failures) + outcome.errors, engine.failures)
    ensures engine.failures == old(engine.failures) ==> checked.Err? || outcome.CandidateRunning?
    ensures outcome.CoreOffline? && previous.Some? && |engine.failures| == |old(engine.failures)| + 1 ==>
      engine.starts == old(engine.starts)
  {
    ghost var before := engine.failures;
    if checked.Err? {
      return PreviousPreserved([checked.error]);
    }
    var status := engine.IsRunning();
    if status.Err? {
      engine.ForceShutdown();
      return CoreOffline([status.error]);
    }
    if status.value {
      var stopped := engine.Stop();
      if stopped.Err? {
        var again := engine.IsRunning();
        match again {
          case Ok(true) =>
            return PreviousPreserved([stopped.error]);
          case Ok(false) =>
            outcome := SwitchToCandidate(engine, candidate, previous, [stopped.error]);
            assert !outcome.CandidateRunning? ==>
              before + outcome.errors == before + [stopped.error] + outcome.errors[1..];
            return;
          case Err(error) =>
            engine.ForceShutdown();
            return CoreOffline([stopped.error, error]);
        }
      }
    }
    outcome := SwitchToCandidate(engine, candidate, previous, []);
    assert !outcome.CandidateRunning? ==> outcome.errors[0..] == outcome.errors;
  }

  /** `core_config_after_restart`. */
  function ConfigAfterRestart(outcome: Outcome, candidate: Config, previous: Option<Config>): Option<Config> {
    match outcome
    case CandidateRunning => Some(candidate)
    case PreviousPreserved(_) => previous
    case PreviousRestored(_) => previous
    case CoreOffline(_) => None
  }

  /** The stored configuration names nothing but what runs. */
  predicate Agrees(stored: Option<Config>, running: Option<Config>) {
    stored.Some? && running.Some? ==> stored == running
  }

  /** What runs is what is stored. */
  predicate Names(stored: Option<Config>, running: Option<Config>) {
    running.Some? ==> stored == running
  }

  /** What is stored runs. */
  predicate Backed(stored: Option<Config>, running: Option<Config>) {
    stored.Some? ==> stored == running
  }

  /** After a truthful outcome what is stored still agrees with what runs, still names it and is still
      backed by it, if it was before; it is both in any case unless the previous core was preserved. */
  lemma TruthfulOutcomesKeepAgreement(
    outcome: Outcome, candidate: Config, previous: Option<Config>, before: Option<Config>, after: Option<Config>)
    requires Truthful(outcome, candidate, previous, before, after)
    ensures
      var stored := ConfigAfterRestart(outcome, candidate, previous);
      && (Agrees(previous, before) ==> Agrees(stored, after))
      && (Names(previous, before) || !outcome.PreviousPreserved? ==> Names(stored, after))
      && (Backed(previous, before) || !outcome.PreviousPreserved? ==> Backed(stored, after))
  {
  }

  // ---------------------------------------------------------------------
  // The native core: engine, stored configuration and system proxy
  // ---------------------------------------------------------------------

  /** The system proxy as far as this program manages it. */
  class SystemProxy {
    var enabled: bool
    /** How often it was asked to be disabled, and how often that failed. */
    ghost var requests: nat
    ghost var refusals: nat

    constructor ()
      ensures !enabled && requests == 0 && refusals == 0
    {
      enabled, requests, refusals := false, 0, 0;
    }

    /** A status that cannot be read is passed over, so success does not imply that it is off. */
    method Disable() returns (r: Result<(), string>)
      modifies this
      ensures requests == old(requests) + 1
      ensures enabled ==> old(enabled)
      ensures r.Err? ==> enabled == old(enabled)
      ensures refusals == old(refusals) + if r.Err? then 1 else 0
    {
      requests := requests + 1;
      var message: string := *;
      r := Err(message);
      if * {
        r := Ok(());
        if * {
          enabled := false;
        }
      } else {
        refusals := refusals + 1;
      }
    }
  }

  /** `finish_core_restart`: the system proxy is disabled exactly when the core is offline. */
  method FinishRestart(outcome: Outcome, proxy: SystemProxy) returns (r: Result<(), Messages>)
    modifies proxy
    ensures r.Ok? <==> outcome.CandidateRunning?
    ensures r.Err? ==> outcome.errors <= r.error
    ensures r.Err? ==> |r.error| == |outcome.errors| + proxy.refusals - old(proxy.refusals)
    ensures proxy.requests == old(proxy.requests) + if outcome.CoreOffline? then 1 else 0
    ensures !outcome.CoreOffline? ==> proxy.enabled == old(proxy.enabled)
  {
    match outcome
    case CandidateRunning => r := Ok(());
    case PreviousPreserved(errors) => r := Err(errors);
    case PreviousRestored(errors) => r := Err(errors);
    case CoreOffline(errors) =>
      var disabled := proxy.Disable();
      r := match disabled
           case Ok(_) => Err(errors)
           case Err(error) => Err(errors + [error]);
  }

  class NativeCore {
    const engine: Engine
    const proxy: SystemProxy
    var config: Option<Config>

    constructor ()
      ensures fresh(engine) && fresh(proxy) && config == None && engine.running == None && proxy.requests == 0
    {
      engine := new Engine();
      proxy := new SystemProxy();
      config := None;
    }

    /** `restart_native_core`, from the preflight on. `outcome` is absent exactly if the preflight
        fails; the errors reported are those of the outcome and of the proxy. */
    method Restart(candidate: Config, prepared: Result<(), string>) returns (r: Result<(), Messages>, outcome: Option<Outcome>)
      modifies this, engine, proxy
      ensures outcome.None? <==> prepared.Err?
      ensures prepared.Err? ==>
        r == Err([prepared.error]) && config == old(config) && engine.running == old(engine.running)
      ensures outcome.Some? && !outcome.value.CandidateRunning? ==>
        r.Err? &&
        outcome.value.errors <= r.error && |r.error| == |outcome.value.errors| + proxy.refusals - old(proxy.refusals)
      ensures prepared.Ok? && engine.failures == old(engine.failures) ==> r.Ok?
      ensures outcome.Some? ==>
        && Truthful(outcome.value, candidate, old(config), old(engine.running), engine.running)
        && config == ConfigAfterRestart(outcome.value, candidate, old(config))
      ensures r.Ok? <==> outcome == Some(CandidateRunning)
      ensures r.Ok? ==> config == engine.running == Some(candidate)
      ensures Agrees(old(config), old(engine.running)) ==> Agrees(config, engine.running)
      ensures Names(old(config), old(engine.running)) ==> Names(config, engine.running)
      ensures Backed(old(config), old(engine.running)) ==> Backed(config, engine.running)
      ensures proxy.requests == old(proxy.requests) + if outcome.Some? && outcome.value.CoreOffline? then 1 else 0
    {
      var previous := config;
      if prepared.Err? {
        return Err([prepared.error]), None;
      }
      var result := RestartTransaction(engine, candidate, previous, Ok(()));
      TruthfulOutcomesKeepAgreement(result, candidate, previous, old(engine.running), engine.running);
      config := ConfigAfterRestart(result, candidate, previous);
      r := FinishRestart(result, proxy);
      outcome := Some(result);
    }

    /** The second half of `toggle_native_core`. A failed start is not looked into, so afterwards a
        core may run that is not stored; what is stored never names something else. */
    method SwitchOn(candidate: Config) returns (r: Result<(), string>)
      modifies this, engine
      ensures Agrees(old(config), old(engine.running)) ==> Agrees(config, engine.running)
      ensures Backed(old(config), old(engine.running)) ==> Backed(config, engine.running)
      ensures engine.failures == old(engine.failures) + if r.Err? then [r.error] else []
      ensures r.Ok? && old(engine.running).None? ==> config == engine.running == Some(candidate)
      ensures r.Ok? ==> engine.running.Some? && (config == engine.running || config == old(config))
      ensures old(engine.running).Some? ==> config == old(config) && engine.running == old(engine.running)
      ensures r.Err? && config != old(config) ==> config == None && engine.running in {None, Some(candidate)}
    {
      var status := engine.IsRunning();
      if status.Err? {
        return Err(status.error);
      }
      if status.value {
        return Ok(());
      }
      config := None;
      r := StartWithBindRetry(engine, candidate);
      if r.Err? {
        return;
      }
      config := Some(candidate);
    }

    /** The first half of `toggle_native_core`: the system proxy never points at a listener that is
        about to disappear. If it cannot be disabled, the core stays as it is; otherwise nothing
        runs and nothing is stored, except when not even the status can be read. */
    method SwitchOff() returns (r: Result<(), string>)
      modifies this, engine, proxy
      ensures proxy.requests == old(proxy.requests) + 1
      ensures r.Ok? ==> engine.running == None && config == None
      ensures r.Err? ==> proxy.refusals > old(proxy.refusals) || |engine.failures| > |old(engine.failures)|
      ensures r.Err? ==>
        || (engine.running == None && config == None)
        || (engine.running == old(engine.running) && config == old(config))
      ensures engine.running != old(engine.running) || config != old(config) ==> config == None
      ensures Agrees(old(config), old(engine.running)) ==> Agrees(config, engine.running)
      ensures Names(old(config), old(engine.running)) ==> Names(config, engine.running)
      ensures Backed(old(config), old(engine.running)) ==> Backed(config, engine.running)
    {
      var disabled := proxy.Disable();
      if disabled.Err? {
        return Err(disabled.error);
      }
      var status := engine.IsRunning();
      if status.Err? {
        return Err(status.error);
      }
      if status.value {
        var stopped := engine.Stop();
        if stopped.Err? {
          var state := engine.IsRunning();
          engine.ForceShutdown();
          config := None;
          return Err(stopped.error);
        }
      }
      config := None;
      r := Ok(());
    }
  }

  // ---------------------------------------------------------------------
  // Whole runs
  // ---------------------------------------------------------------------

  datatype Request = RestartWith(candidate: Config, prepared: Result<(), string>) | On(candidate: Config) | Off | CoreDies

  /** Over any sequence of requests, with the core dying now and then, the stored configuration never
      names anything other than what runs. Without the switch-on request it always names what runs,
      and as long as the core does not die by itself a stored configuration always runs. */
  method ServeRequests(core: NativeCore, requests: seq<Request>) returns (offline: nat)
    requires Names(core.config, core.engine.running)
    modifies core, core.engine, core.proxy
    ensures Agrees(core.config, core.engine.running)
    ensures (forall k :: 0 <= k < |requests| ==> !requests[k].On?) ==> Names(core.config, core.engine.running)
    ensures Backed(old(core.config), old(core.engine.running)) && (forall k :: 0 <= k < |requests| ==> !requests[k].CoreDies?) ==>
      Backed(core.config, core.engine.running)
    ensures (forall k :: 0 <= k < |requests| ==> !requests[k].Off?) ==>
      core.proxy.requests == old(core.proxy.requests) + offline
  {
    offline := 0;
    for i := 0 to |requests|
      invariant Agrees(core.config, core.engine.running)
      invariant (forall k :: 0 <= k < i ==> !requests[k].On?) ==> Names(core.config, core.engine.running)
      invariant Backed(old(core.config), old(core.engine.running)) && (forall k :: 0 <= k < i ==> !requests[k].CoreDies?) ==>
        Backed(core.config, core.engine.running)
      invariant (forall k :: 0 <= k < i ==> !requests[k].Off?) ==>
        core.proxy.requests == old(core.proxy.requests) + offline
    {
      match requests[i]
      case RestartWith(candidate, prepared) =>
        var r, outcome := core.Restart(candidate, prepared);
        if outcome.Some? && outcome.value.CoreOffline? {
          offline := offline + 1;
        }
      case On(candidate) => var r := core.SwitchOn(candidate);
      case Off => var r := core.SwitchOff();
      case CoreDies => core.engine.Die();
    }
  }
}
