/** The sync engine's fields and the synchronous stretches of its methods
    (src/db/sync-engine.ts); `runs` holds the openSession calls that are
    suspended at an await, `reconnectInFlight` the one suspended reconnect. */
module SyncEngine {
  import opened Wrappers
  import L = SessionLifecycle

  class SyncEngine {
    var session: Option<nat>
    var openingSession: bool
    var lifecycleGeneration: nat
    var sessionEpoch: nat
    var disposed: set<nat>
    var retryTimer: bool
    var authBlocked: bool
    var degraded: bool
    var live: set<nat>
    var runs: map<nat, L.Pc>
    var reconnectInFlight: Option<L.Reconnect>
    var queuedReconnect: bool
    var launches: nat
    const config: L.Config

    constructor (config: L.Config)
      ensures Valid() && State() == L.INIT && this.config == config
    {
      session, openingSession, lifecycleGeneration, sessionEpoch := None, false, 0, 0;
      disposed, retryTimer, authBlocked, degraded, live, runs := {}, false, false, false, {}, map[];
      reconnectInFlight, queuedReconnect, launches := None, false, 0;
      this.config := config;
    }

    function State(): L.State
      reads this
    {
      L.State(session, openingSession, lifecycleGeneration, sessionEpoch, disposed, retryTimer, authBlocked,
          degraded, live, runs, reconnectInFlight, queuedReconnect, launches)
    }

    /** What holds at every await and between any two calls. */
    ghost predicate Valid()
      reads this
    {
      L.Sound(State())
    }

    /** Any step of the lifecycle ends in a valid engine again. */
    lemma NextIsValid(ev: L.Event)
      requires Valid()
      ensures L.Sound(L.Step(config, State(), ev))
    {
      L.StepSound(config, State(), ev);
    }

    method Start(run: nat, syncing: bool)
      requires Valid() && run !in runs
      modifies this
      ensures Valid()
      ensures State() == L.Step(config, old(State()), L.Start(run, syncing))
    {
      NextIsValid(L.Start(run, syncing));
      if session.Some? {
        return;
      }
      authBlocked := false;
      degraded := false;
      OpenSession(run, syncing);
    }

    method Stop()
      modifies this
      ensures old(Valid()) ==> Valid()
      ensures State() == L.Step(config, old(State()), L.Stop)
    {
      if Valid() { NextIsValid(L.Stop); }
      retryTimer := false;
      Teardown();
    }

    method Teardown()
      modifies this
      ensures State() == L.TearDown(old(State()))
    {
      lifecycleGeneration := lifecycleGeneration + 1;
      var closing := session;
      session := None;
      if closing == None {
        return;
      }
      disposed := disposed + {closing.value};
    }

    /** The auth latch was raised from outside; an engine that already shows an
        error is left as it is. */
    method RaiseAuth(inError: bool)
      modifies this
      ensures old(Valid()) ==> Valid()
      ensures State() == L.Step(config, old(State()), L.AuthRaised(inError))
    {
      if Valid() { NextIsValid(L.AuthRaised(inError)); }
      authBlocked := true;
      if inError {
        return;
      }
      retryTimer := false;
      Teardown();
    }

    method HandleDegraded()
      modifies this
      ensures State() == L.HandleDegraded(old(State()))
    {
      if degraded {
        return;
      }
      degraded := true;
      retryTimer := false;
      Teardown();
    }

    method EnterError(kind: L.Kind)
      modifies this
      ensures State() == L.EnterError(old(State()), kind)
    {
      if kind == L.Auth {
        authBlocked := true;
        retryTimer := false;
        Teardown();
        return;
      }
      if kind == L.Terminal {
        retryTimer := false;
        Teardown();
        return;
      }
      if degraded {
        retryTimer := false;
        return;
      }
      ScheduleNextAttempt();
    }

    method Fail(kind: L.Kind)
      modifies this
      ensures State() == L.Fail(old(State()), kind)
    {
      if kind == L.Degraded {
        HandleDegraded();
      } else {
        EnterError(kind);
      }
    }

    method ScheduleNextAttempt()
      modifies this
      ensures State() == old(State()).(retry := true)
    {
      retryTimer := true;
    }

    method RetryFires(decision: L.Decision, higher: bool)
      requires Valid() && retryTimer
      modifies this
      ensures Valid()
      ensures State() == L.Step(config, old(State()), L.RetryFires(decision, higher))
    {
      NextIsValid(L.RetryFires(decision, higher));
      retryTimer := false;
      RequestReconnect(decision, higher);
    }

    /** Only one reconnect is in flight; a request that outranks it is queued. */
    method RequestReconnect(decision: L.Decision, higher: bool)
      modifies this
      ensures old(Valid()) ==> Valid()
      ensures State() == L.RequestReconnect(old(State()), decision, higher)
    {
      if Valid() { NextIsValid(L.Request(decision, higher)); }
      if reconnectInFlight.Some? {
        if higher {
          queuedReconnect := true;
        }
        return;
      }
      if decision == L.Skip || authBlocked {
        return;
      }
      if decision == L.Verify {
        reconnectInFlight := Some(L.Probing);
        return;
      }
      BeginRestart();
    }

    /** restart up to the await in its teardown. */
    method BeginRestart()
      modifies this
      ensures State() == L.BeginRestart(old(State()))
    {
      Teardown();
      reconnectInFlight := Some(L.Restarting);
    }

    /** What follows the reachability probe. */
    method AfterProbe(probe: L.Probe)
      requires Valid() && reconnectInFlight == Some(L.Probing)
      modifies this
      ensures Valid()
      ensures State() == L.Step(config, old(State()), L.Probed(probe))
    {
      NextIsValid(L.Probed(probe));
      match probe {
        case Reachable => BeginRestart();
        case Unreachable(kind) =>
          EnterError(kind);
          EndReconnect();
        case Inconclusive =>
          ScheduleNextAttempt();
          EndReconnect();
        case AlreadyInError => EndReconnect();
      }
    }

    /** restart after its teardown has settled. */
    method Reopen(run: nat, syncing: bool)
      requires Valid() && run !in runs && reconnectInFlight == Some(L.Restarting)
      modifies this
      ensures Valid()
      ensures State() == L.Step(config, old(State()), L.Reopened(run, syncing))
    {
      NextIsValid(L.Reopened(run, syncing));
      OpenSession(run, syncing);
      if run in runs {
        reconnectInFlight := Some(L.Opening(run));
      } else {
        EndReconnect();
      }
    }

    /** The reconnect in flight settles; a queued one is scheduled. */
    method EndReconnect()
      modifies this
      ensures State() == L.EndReconnect(old(State()))
    {
      reconnectInFlight := None;
      if queuedReconnect {
        queuedReconnect := false;
        launches := launches + 1;
      }
    }

    method LaunchQueued(decision: L.Decision, higher: bool)
      requires Valid() && launches > 0
      modifies this
      ensures Valid()
      ensures State() == L.Step(config, old(State()), L.Launch(decision, higher))
    {
      NextIsValid(L.Launch(decision, higher));
      assert L.Step(config, State(), L.Launch(decision, higher))
          == L.RequestReconnect(State().(launches := launches - 1), decision, higher);
      launches := launches - 1;
      RequestReconnect(decision, higher);
    }

    /** openSession up to its first await. */
    method OpenSession(run: nat, syncing: bool)
      requires run !in runs
      modifies this
      ensures State() == L.OpenRun(config, old(State()), run, syncing)
    {
      if session.Some? || openingSession {
        return;
      }
      if !syncing {
        return;
      }
      if authBlocked {
        return;
      }
      if degraded {
        return;
      }
      var gen := lifecycleGeneration;
      openingSession := true;
      if config.agreement {
        runs := runs[run := L.AtGate(gen)];
        return;
      }
      openingSession := false;
      Register(run);
    }

    /** The end of an openSession call settles the reconnect that awaits it. */
    method Finish(run: nat)
      modifies this
      ensures State() == L.Finish(old(State()), run)
    {
      runs := runs - {run};
      if reconnectInFlight == Some(L.Opening(run)) {
        EndReconnect();
      }
    }

    method Register(run: nat)
      modifies this
      ensures State() == L.Register(old(State()), run)
    {
      sessionEpoch := sessionEpoch + 1;
      session := Some(sessionEpoch);
      runs := runs[run := L.AtHealth(sessionEpoch)];
    }

    /** openSession from the await `runs[run]` to the next one. */
    method Resume(run: nat, outcome: L.Outcome)
      requires Valid() && run in runs
      modifies this
      ensures Valid()
      ensures live != old(live) ==>
                old(session).Some? && live == old(live) + {old(session).value} && old(live) <= disposed
      ensures State() == L.Step(config, old(State()), L.Resume(run, outcome))
    {
      NextIsValid(L.Resume(run, outcome));
      L.ResumeFrame(config, State(), run, outcome);
      assert L.RunOk(State(), runs[run]);
      Continue(run, outcome);
    }

    method Continue(run: nat, outcome: L.Outcome)
      requires run in runs
      modifies this
      ensures State() == L.ResumeRun(config, old(State()), run, outcome)
    {
      var pc := runs[run];
      if pc.AtGate? {
        ResumeGate(run, pc.generation, outcome);
        return;
      }
      var epoch := pc.epoch;
      if epoch in disposed {
        Finish(run);
        return;
      }
      if outcome != L.Passed && L.CanFail(pc) {
        Abandon(run, outcome.kind);
        return;
      }
      if pc.AtBackfill? {
        live := live + {epoch};
        Finish(run);
        return;
      }
      Advance(run, pc);
    }

    method Abandon(run: nat, kind: L.Kind)
      modifies this
      ensures State() == L.Abandon(old(State()), run, kind)
    {
      session := None;
      Finish(run);
      Fail(kind);
    }

    method Advance(run: nat, pc: L.Pc)
      requires !pc.AtGate? && !pc.AtBackfill?
      modifies this
      ensures State() == old(State()).(retry := old(retryTimer) && !pc.AtCatchup?,
                                       runs := old(runs)[run := L.NextAwait(config, pc)])
    {
      match pc {
        case AtHealth(epoch) => runs := runs[run := L.AtCheckpoints(epoch)];
        case AtCheckpoints(epoch) =>
          runs := runs[run := if config.stamps then L.AtStamp(epoch) else L.AtCatchup(epoch)];
        case AtStamp(epoch) => runs := runs[run := L.AtCatchup(epoch)];
        case AtCatchup(epoch) =>
          retryTimer := false;
          runs := runs[run := L.AtWarmup(epoch)];
        case AtWarmup(epoch) => runs := runs[run := L.AtBackfill(epoch)];
      }
    }

    /** openSession after the agreement check. */
    method ResumeGate(run: nat, gen: nat, outcome: L.Outcome)
      modifies this
      ensures State() == L.AfterGate(old(State()), run, gen, outcome)
    {
      openingSession := false;
      if lifecycleGeneration != gen {
        Finish(run);
        return;
      }
      match outcome {
        case Failed(kind) =>
          Finish(run);
          EnterError(kind);
        case BuildFailed(kind) =>
          Finish(run);
          EnterError(kind);
        case Passed => Register(run);
      }
    }
  }
}
