/** What stops and restarts of the sync engine leave under way. */
module Reconnects {
  // A stop cancels neither the reconnect in flight nor the queued one, and a
  // restart opens only when its teardown has settled (src/db/sync-engine.ts).

  import opened Wrappers
  import opened SessionLifecycle

  /** Something moves the engine on: a session, a run at the gate, the retry
      timer, or a reconnect under way or scheduled. */
  predicate Driven(s: State) {
    s.session.Some? || s.opening || s.retry || s.reconnect.Some? || s.launches > 0
  }

  /** A reconnect is under way or will be, apart from the one that awaits `run`. */
  predicate Reconnecting(s: State, run: nat) {
    s.launches > 0 || s.queued || (s.reconnect.Some? && s.reconnect != Some(Opening(run)))
  }

  /** Whether a run that returns from the agreement check leaves the engine
      driven: by another reconnect; or, overtaken, only by an armed retry; else
      unless its error is one that waits for the user or the local database is
      degraded. */
  lemma {:induction false} GateLeavesDriven(cfg: Config, s: State, run: nat, outcome: Outcome)
    requires Sound(s) && run in s.runs && s.runs[run].AtGate?
    ensures Driven(ResumeRun(cfg, s, run, outcome)) <==>
            Reconnecting(s, run)
            || if s.runs[run].generation < s.generation then s.retry
               else outcome == Passed || (outcome.kind != Auth && outcome.kind != Terminal && !s.degraded)
  {
    assert RunOk(s, s.runs[run]);
    GateFrame(s, run, s.runs[run].generation, outcome);
  }

  // ── What can still return by itself ────────────────────

  /** Steps of what is under way, teardowns, stops and errors that are not to be
      retried: no start, no reconnect request and no error that is. */
  predicate Uncaused(ev: Event) {
    !ev.Start? && !ev.Request? && ev != Error(Retriable)
  }

  predicate AllUncaused(evs: seq<Event>) {
    forall k :: 0 <= k < |evs| ==> Uncaused(evs[k])
  }

  /** Between `s` and `t` nothing came back. */
  predicate Still(s: State, t: State) {
    t.session == None && !t.retry && t.live == s.live
  }

  /** Whatever is under way, no session, timer or live loop comes out of it. */
  ghost predicate NothingReturns(cfg: Config, s: State) {
    forall later :: AllUncaused(later) ==> Still(s, Run(cfg, s, later))
  }

  /** No session, and every run still under way belongs to the past. */
  ghost predicate Quiet(s: State) {
    && s.session == None
    && (forall r :: r in s.runs && s.runs[r].AtGate? ==> s.runs[r].generation < s.generation)
    && (forall r :: r in s.runs && Registered(s.runs[r]) ==> s.runs[r].epoch in s.disposed)
  }

  /** A suspended reconnect that goes on by itself: a probe always, a restart
      unless an auth block or a degraded database keeps it from opening, and one
      queued or scheduled unless auth is blocked. */
  predicate ReconnectPending(s: State) {
    || s.reconnect == Some(Probing)
    || (!s.authBlocked && (s.queued || s.launches > 0 || (s.reconnect == Some(Restarting) && !s.degraded)))
  }

  ghost predicate Finished(s: State) {
    Quiet(s) && !s.retry && !ReconnectPending(s)
  }

  /** A run of the past only ends. */
  lemma {:induction false} QuietResume(cfg: Config, s: State, run: nat, outcome: Outcome)
    requires Quiet(s)
    ensures var s' := ResumeRun(cfg, s, run, outcome);
            s' == if run !in s.runs then s else Finish(s.(opening := s.opening && !s.runs[run].AtGate?), run)
    ensures Quiet(ResumeRun(cfg, s, run, outcome))
  {}

  lemma {:induction false} QuietOthers(cfg: Config, s: State, ev: Event)
    requires Quiet(s) && !ev.Start? && !ev.Reopened? && !ev.Resume?
    ensures Quiet(Step(cfg, s, ev)) && Step(cfg, s, ev).live == s.live
  {
    CoreOnly(cfg, s, ev);
  }

  /** Nothing came back in between, nor a reconnect where there was none. */
  ghost predicate StaysFinished(s: State, s': State) {
    && Finished(s') && s'.live == s.live
    && (s.reconnect == None && s.launches == 0 ==> s'.reconnect == None && s'.launches == 0)
  }

  lemma {:induction false} FinishedStep(cfg: Config, s: State, ev: Event)
    requires Finished(s) && Uncaused(ev)
    ensures StaysFinished(s, Step(cfg, s, ev))
  {
    if ev.Resume? {
      QuietResume(cfg, s, ev.run, ev.outcome);
    } else if ev.Reopened? {
      FinishedReopens(cfg, s, ev.run, ev.syncing);
    } else {
      QuietOthers(cfg, s, ev);
      FinishedOthers(cfg, s, ev);
    }
  }

  lemma FinishedReopens(cfg: Config, s: State, run: nat, syncing: bool)
    requires Finished(s)
    ensures Reopen(cfg, s, run, syncing) == s || Reopen(cfg, s, run, syncing) == EndReconnect(s)
  {}

  lemma {:induction false} FinishedOthers(cfg: Config, s: State, ev: Event)
    requires Finished(s) && Uncaused(ev) && !ev.Resume? && !ev.Reopened?
    ensures var s' := Step(cfg, s, ev);
            && !s'.retry && !ReconnectPending(s')
            && (s.reconnect == None && s.launches == 0 ==> s'.reconnect == None && s'.launches == 0)
  {
    if ev.Error? {
      FailFrame(s, ev.kind);
    } else if ev.Launch? && s.launches > 0 {
      FinishedLaunch(s, ev.decision, ev.higher);
    }
  }

  lemma FinishedLaunch(s: State, decision: Decision, higher: bool)
    requires Finished(s) && s.launches > 0
    ensures var s' := RequestReconnect(s.(launches := s.launches - 1), decision, higher);
            !s'.retry && !ReconnectPending(s')
  {}

  lemma {:induction false} FinishedStays(cfg: Config, s: State, evs: seq<Event>)
    requires Finished(s) && AllUncaused(evs)
    ensures StaysFinished(s, Run(cfg, s, evs))
    decreases |evs|
  {
    if evs != [] {
      FinishedStep(cfg, s, evs[0]);
      FinishedStays(cfg, Step(cfg, s, evs[0]), evs[1..]);
    }
  }

  // ── What does return ───────────────────────────────────

  lemma {:induction false} Unroll(cfg: Config, s: State, ev: Event, rest: seq<Event>)
    ensures Run(cfg, s, [ev] + rest) == Run(cfg, Step(cfg, s, ev), rest)
  {
    assert ([ev] + rest)[1..] == rest;
  }

  lemma {:induction false} After(cfg: Config, s: State, ev: Event, rest: seq<Event>)
    requires Uncaused(ev) && AllUncaused(rest)
    ensures AllUncaused([ev] + rest) && Run(cfg, s, [ev] + rest) == Run(cfg, Step(cfg, s, ev), rest)
  {
    Unroll(cfg, s, ev, rest);
  }

  lemma {:induction false} Fresh(keys: set<nat>) returns (bound: nat)
    ensures forall k :: k in keys ==> k < bound
    decreases |keys|
  {
    bound := 0;
    if keys != {} {
      var k :| k in keys;
      bound := Fresh(keys - {k});
      assert forall j :: j in keys && j != k ==> j in keys - {k};
      bound := if bound <= k then k + 1 else bound;
    }
  }

  lemma {:induction false} ProbeReturns(cfg: Config, s: State) returns (later: seq<Event>)
    requires s.reconnect == Some(Probing)
    ensures AllUncaused(later) && Run(cfg, s, later).retry
  {
    After(cfg, s, Probed(Inconclusive), []);
    later := [Probed(Inconclusive)] + [];
  }

  lemma {:induction false} LaunchReturns(cfg: Config, s: State) returns (later: seq<Event>)
    requires s.reconnect == None && s.launches > 0 && !s.authBlocked
    ensures AllUncaused(later) && Run(cfg, s, later).retry
  {
    var ev := Launch(Verify, false);
    later := ProbeReturns(cfg, Step(cfg, s, ev));
    After(cfg, s, ev, later);
    later := [ev] + later;
  }

  lemma {:induction false} QueuedReturns(cfg: Config, s: State) returns (later: seq<Event>)
    requires Quiet(s) && ReconnectOk(s) && s.queued && !s.authBlocked
    ensures AllUncaused(later) && Run(cfg, s, later).retry
  {
    if s.reconnect == Some(Probing) {
      later := ProbeReturns(cfg, s);
    } else {
      var ev;
      if s.reconnect == Some(Restarting) {
        var run := Fresh(s.runs.Keys);
        ev := Reopened(run, false);
      } else {
        ev := Resume(s.reconnect.value.run, Passed);
        QuietResume(cfg, s, ev.run, Passed);
      }
      later := LaunchReturns(cfg, Step(cfg, s, ev));
      After(cfg, s, ev, later);
      later := [ev] + later;
    }
  }

  lemma {:induction false} ScheduledReturns(cfg: Config, s: State) returns (later: seq<Event>)
    requires Quiet(s) && ReconnectOk(s) && s.launches > 0 && !s.authBlocked
    ensures AllUncaused(later) && Run(cfg, s, later).retry
  {
    if s.reconnect == None {
      later := LaunchReturns(cfg, s);
    } else {
      var ev := Launch(Verify, true);
      later := QueuedReturns(cfg, Step(cfg, s, ev));
      After(cfg, s, ev, later);
      later := [ev] + later;
    }
  }

  /** A run at the gate that nothing overtook registers. */
  lemma {:induction false} GateReturns(cfg: Config, s: State, run: nat) returns (later: seq<Event>)
    requires run in s.runs && s.runs[run] == AtGate(s.generation)
    ensures AllUncaused(later) && Run(cfg, s, later).session.Some?
  {
    After(cfg, s, Resume(run, Passed), []);
    later := [Resume(run, Passed)] + [];
  }

  lemma {:induction false} FreeRestartReturns(cfg: Config, s: State) returns (later: seq<Event>)
    requires s.session == None && !s.opening && s.reconnect == Some(Restarting) && !s.authBlocked && !s.degraded
    ensures AllUncaused(later) && Run(cfg, s, later).session.Some?
  {
    var run := Fresh(s.runs.Keys);
    var ev := Reopened(run, true);
    later := [];
    if cfg.agreement {
      later := GateReturns(cfg, Step(cfg, s, ev), run);
    }
    After(cfg, s, ev, later);
    later := [ev] + later;
  }

  lemma {:induction false} RestartReturns(cfg: Config, s: State) returns (later: seq<Event>)
    requires Quiet(s) && LatchHeld(s) && s.reconnect == Some(Restarting) && !s.authBlocked && !s.degraded
    ensures AllUncaused(later) && Run(cfg, s, later).session.Some?
  {
    if !s.opening {
      later := FreeRestartReturns(cfg, s);
    } else {
      var gate :| gate in s.runs && s.runs[gate].AtGate?;
      var ev := Resume(gate, Passed);
      QuietResume(cfg, s, gate, Passed);
      later := FreeRestartReturns(cfg, Step(cfg, s, ev));
      After(cfg, s, ev, later);
      later := [ev] + later;
    }
  }

  lemma {:induction false} UnfinishedReturns(cfg: Config, s: State) returns (later: seq<Event>)
    requires Sound(s) && !Finished(s)
    ensures AllUncaused(later) && !Still(s, Run(cfg, s, later))
  {
    if s.session.Some? || s.retry {
      later := [];
    } else if run :| run in s.runs && s.runs[run].AtGate? && s.runs[run].generation >= s.generation {
      assert RunOk(s, s.runs[run]);
      later := GateReturns(cfg, s, run);
    } else {
      NoSessionIsQuiet(s);
      if s.reconnect == Some(Probing) {
        later := ProbeReturns(cfg, s);
      } else if s.queued {
        later := QueuedReturns(cfg, s);
      } else if s.launches > 0 {
        later := ScheduledReturns(cfg, s);
      } else {
        later := RestartReturns(cfg, s);
      }
    }
  }

  lemma NoSessionIsQuiet(s: State)
    requires Inv(s) && s.session == None
    requires forall r :: r in s.runs && s.runs[r].AtGate? ==> s.runs[r].generation < s.generation
    ensures Quiet(s)
  {
    forall r | r in s.runs && Registered(s.runs[r]) ensures s.runs[r].epoch in s.disposed {
      assert RunOk(s, s.runs[r]);
    }
  }

  /** From any state the engine can be in, nothing ever comes back by itself,
      whatever is under way and in whatever order it goes on, exactly when no
      session is registered, every run waiting at the gate is overtaken, no retry
      is armed and no suspended reconnect can go on. */
  lemma {:induction false} NothingReturnsExactly(cfg: Config, s: State)
    requires Sound(s)
    ensures NothingReturns(cfg, s) <==> Finished(s)
  {
    if Finished(s) {
      forall later | AllUncaused(later) ensures Still(s, Run(cfg, s, later)) {
        FinishedStays(cfg, s, later);
      }
    } else {
      var later := UnfinishedReturns(cfg, s);
      assert !Still(s, Run(cfg, s, later));
    }
  }

  // ── Stops ──────────────────────────────────────────────

  /** A stop is final, until the next start, reconnect request or error to be
      retried, exactly when no reconnect is suspended that can go on. */
  lemma {:induction false} StopIsFinalExactly(cfg: Config, evs: seq<Event>)
    ensures var s := Run(cfg, INIT, evs);
            NothingReturns(cfg, Step(cfg, s, Stop)) <==> !ReconnectPending(s)
  {
    var s := Run(cfg, INIT, evs);
    RunSound(cfg, INIT, evs);
    StepSound(cfg, s, Stop);
    TearDownIsQuiet(s);
    NothingReturnsExactly(cfg, Step(cfg, s, Stop));
  }

  lemma TearDownIsQuiet(s: State)
    requires Inv(s)
    ensures Quiet(TearDown(s)) && Quiet(TearDown(s.(retry := false)))
  {
    forall r | r in s.runs ensures RunOk(s, s.runs[r]) {
    }
  }

  /** Only the open ends a restart, whatever else happens. */
  lemma {:induction false} RestartingStays(cfg: Config, s: State, evs: seq<Event>)
    requires s.reconnect == Some(Restarting) && forall k :: 0 <= k < |evs| ==> !evs[k].Reopened?
    ensures Run(cfg, s, evs).reconnect == Some(Restarting)
    decreases |evs|
  {
    if evs != [] {
      RestartingStep(cfg, s, evs[0]);
      RestartingStays(cfg, Step(cfg, s, evs[0]), evs[1..]);
    }
  }

  lemma {:induction false} RestartingStep(cfg: Config, s: State, ev: Event)
    requires s.reconnect == Some(Restarting) && !ev.Reopened?
    ensures Step(cfg, s, ev).reconnect == Some(Restarting)
  {
    if ev.Resume? {
      if ev.run in s.runs { ResumeFrame(cfg, s, ev.run, ev.outcome); }
    } else if ev.Error? {
      FailFrame(s, ev.kind);
    }
  }

  lemma {:induction false} QuietRestarting(cfg: Config, s: State, evs: seq<Event>)
    requires Quiet(s) && s.reconnect == Some(Restarting)
    requires forall k :: 0 <= k < |evs| ==> !evs[k].Reopened? && !evs[k].Start?
    ensures Quiet(Run(cfg, s, evs))
    decreases |evs|
  {
    if evs != [] {
      RestartingStep(cfg, s, evs[0]);
      if evs[0].Resume? {
        QuietResume(cfg, s, evs[0].run, evs[0].outcome);
      } else {
        QuietOthers(cfg, s, evs[0]);
      }
      QuietRestarting(cfg, Step(cfg, s, evs[0]), evs[1..]);
    }
  }

  /** A restart whose teardown a stop overtakes opens on the stopped engine,
      exactly when its guards let it: still syncing, no auth block, not degraded,
      and the latch free by then. */
  lemma {:induction false} RestartOpensAfterStop(cfg: Config, evs: seq<Event>, between: seq<Event>, run: nat,
      syncing: bool)
    requires Run(cfg, INIT, evs).reconnect == Some(Restarting)
    requires forall k :: 0 <= k < |between| ==> !between[k].Reopened? && !between[k].Start?
    requires run !in Run(cfg, Step(cfg, Run(cfg, INIT, evs), Stop), between).runs
    ensures var s := Run(cfg, Step(cfg, Run(cfg, INIT, evs), Stop), between);
            run in Step(cfg, s, Reopened(run, syncing)).runs
            <==> syncing && !s.authBlocked && !s.degraded && forall r :: r in s.runs ==> !s.runs[r].AtGate?
  {
    var s := Run(cfg, INIT, evs);
    RunSound(cfg, INIT, evs);
    StepSound(cfg, s, Stop);
    RunSound(cfg, Step(cfg, s, Stop), between);
    TearDownIsQuiet(s);
    QuietRestarting(cfg, Step(cfg, s, Stop), between);
    RestartingStays(cfg, Step(cfg, s, Stop), between);
    ReopenExactly(cfg, Run(cfg, Step(cfg, s, Stop), between), run, syncing);
  }

  lemma ReopenExactly(cfg: Config, s: State, run: nat, syncing: bool)
    requires Sound(s) && s.reconnect == Some(Restarting) && run !in s.runs
    ensures var s' := Step(cfg, s, Reopened(run, syncing));
            && (run in s'.runs <==> syncing && !s.authBlocked && !s.degraded && s.session == None
                                    && forall r :: r in s.runs ==> !s.runs[r].AtGate?)
            && (if run in s'.runs then s'.reconnect == Some(Opening(run)) else s' == EndReconnect(s))
  {
    forall r | r in s.runs && s.runs[r].AtGate? ensures s.opening {
      assert RunOk(s, s.runs[r]);
    }
  }

  /** A stop during a restart that is not final. */
  lemma {:induction false} RestartSurvivesStop()
    ensures Run(Config(false, false), INIT,
                [Start(0, true), Request(RestartNow, false), Stop, Reopened(1, true)]).session.Some?
  {}

  /** A stop during a probe that is not final. */
  lemma {:induction false} ProbeSurvivesStop()
    ensures Run(Config(false, false), INIT, [Request(Verify, false), Stop, Probed(Inconclusive)]).retry
  {}

  // ── Restarts ───────────────────────────────────────────

  /** Some run holds the latch though a teardown has overtaken it. */
  ghost predicate LatchLost(s: State) {
    exists r :: r in s.runs && s.runs[r].AtGate? && s.runs[r].generation < s.generation
  }

  /** In every run, when a restart comes to its open, it starts its own run
      exactly when the engine may sync, no session came up meanwhile and no run
      waits at the gate. */
  lemma {:induction false} RestartStartsExactly(cfg: Config, evs: seq<Event>, run: nat, syncing: bool)
    requires var s := Run(cfg, INIT, evs); s.reconnect == Some(Restarting) && run !in s.runs
    ensures var s := Run(cfg, INIT, evs); var s' := Step(cfg, s, Reopened(run, syncing));
            && (run in s'.runs <==> syncing && !s.authBlocked && !s.degraded && s.session == None
                                    && forall r :: r in s.runs ==> !s.runs[r].AtGate?)
            && (if run in s'.runs then s'.reconnect == Some(Opening(run)) else s' == EndReconnect(s))
  {
    RunSound(cfg, INIT, evs);
    ReopenExactly(cfg, Run(cfg, INIT, evs), run, syncing);
  }

  /** In every run a start opens a run exactly when the engine is syncing, no
      session is registered and no run waits at the gate. It clears the auth block
      and the degradation, but does nothing while a session is registered. */
  lemma {:induction false} StartOpensExactly(cfg: Config, evs: seq<Event>, run: nat, syncing: bool)
    requires run !in Run(cfg, INIT, evs).runs
    ensures var s := Run(cfg, INIT, evs); var s' := Step(cfg, s, Start(run, syncing));
            && (run in s'.runs <==> syncing && s.session == None && forall r :: r in s.runs ==> !s.runs[r].AtGate?)
            && (if s.session == None then !s'.authBlocked && !s'.degraded else s' == s)
  {
    var s := Run(cfg, INIT, evs);
    RunSound(cfg, INIT, evs);
    forall r | r in s.runs && s.runs[r].AtGate? ensures s.opening {
      assert RunOk(s, s.runs[r]);
    }
  }

  /** In every run, the restart of an engine that may sync is lost, so that
      nothing returns by itself, exactly when its open meets the latch of an
      overtaken run while no retry is armed and no reconnect queued. */
  lemma {:induction false} RestartLostExactly(cfg: Config, evs: seq<Event>, run: nat)
    requires var s := Run(cfg, INIT, evs);
             s.reconnect == Some(Restarting) && run !in s.runs && !s.authBlocked && !s.degraded
    ensures var s := Run(cfg, INIT, evs);
            NothingReturns(cfg, Step(cfg, s, Reopened(run, true)))
            <==> LatchLost(s) && !s.retry && !s.queued && s.launches == 0
  {
    var s := Run(cfg, INIT, evs);
    var s' := Step(cfg, s, Reopened(run, true));
    RunSound(cfg, INIT, evs);
    StepSound(cfg, s, Reopened(run, true));
    ReopenExactly(cfg, s, run, true);
    NothingReturnsExactly(cfg, s');
    if LatchLost(s) {
      LatchLostIsQuiet(s);
    } else if run in s'.runs {
      assert s'.session.Some? || s'.runs[run] == AtGate(s'.generation);
    } else if s.session == None {
      var r :| r in s.runs && s.runs[r].AtGate?;
      assert r in s'.runs && s'.runs[r] == s.runs[r];
    }
  }

  lemma LatchLostIsQuiet(s: State)
    requires Inv(s) && LatchLost(s)
    ensures Quiet(s)
  {
    var gate :| gate in s.runs && s.runs[gate].AtGate? && s.runs[gate].generation < s.generation;
    assert RunOk(s, s.runs[gate]);
    forall r | r in s.runs && s.runs[r].AtGate? ensures s.runs[r].generation < s.generation {
      assert r != gate ==> Apart(s.runs[r], s.runs[gate]);
    }
    NoSessionIsQuiet(s);
  }

  /** A restart that begins during another run's agreement check meets the latch
      of an overtaken run whenever that check is still out at the open, whatever
      else happens while the old session settles. */
  lemma {:induction false} RestartMeetsLostLatch(cfg: Config, evs: seq<Event>, higher: bool, gate: nat,
      between: seq<Event>)
    requires var s := Run(cfg, INIT, evs);
             s.reconnect == None && !s.authBlocked && gate in s.runs && s.runs[gate].AtGate?
    requires forall k :: 0 <= k < |between| ==>
               !between[k].Reopened? && !(between[k].Resume? && between[k].run == gate)
    ensures var begun := Step(cfg, Run(cfg, INIT, evs), Request(RestartNow, higher));
            var s := Run(cfg, begun, between);
            s.reconnect == Some(Restarting) && LatchLost(s)
  {
    var s := Run(cfg, INIT, evs);
    RunInv(cfg, INIT, evs);
    assert RunOk(s, s.runs[gate]);
    StepInv(cfg, s, Request(RestartNow, higher));
    var begun := Step(cfg, s, Request(RestartNow, higher));
    RestartingStays(cfg, begun, between);
    WaitsAtGate(cfg, begun, between, gate);
    assert Run(cfg, begun, between).runs[gate].generation < Run(cfg, begun, between).generation;
  }

  /** Once a restart is lost only the overtaken run is left, and when it has
      returned the engine stands still. */
  lemma {:induction false} LostRestartStandsStill(cfg: Config, s: State, run: nat, later: seq<Event>)
    requires Sound(s) && s.reconnect == Some(Restarting) && run !in s.runs
    requires LatchLost(s) && !s.retry && !s.queued && s.launches == 0 && AllUncaused(later)
    ensures var t := Run(cfg, Step(cfg, s, Reopened(run, true)), later);
            t.session == None && t.live == s.live && (Driven(t) <==> t.opening)
  {
    LatchLostIsQuiet(s);
    ReopenExactly(cfg, s, run, true);
    FinishedStays(cfg, Step(cfg, s, Reopened(run, true)), later);
  }

  /** The health watchdog revives an engine that stands still. */
  lemma {:induction false} WatchdogRevives(cfg: Config, s: State, higher: bool, next: nat)
    requires Sound(s) && !Driven(s) && !s.authBlocked && !s.degraded && next !in s.runs
    ensures var s' := Run(cfg, s, [Request(Verify, higher), Probed(Reachable), Reopened(next, true)]);
            next in s'.runs && s'.reconnect == Some(Opening(next)) && (s'.session.Some? || s'.opening)
  {
    var probing := Step(cfg, s, Request(Verify, higher));
    Unroll(cfg, s, Request(Verify, higher), [Probed(Reachable), Reopened(next, true)]);
    Unroll(cfg, probing, Probed(Reachable), [Reopened(next, true)]);
    Unroll(cfg, Step(cfg, probing, Probed(Reachable)), Reopened(next, true), []);
  }

  /** A run that ends so: a start, and a restart during its agreement check. */
  lemma {:induction false} RestartDuringGateStalls()
    ensures var s := Run(Config(true, true), INIT,
                         [Start(0, true), Request(RestartNow, false), Reopened(1, true), Resume(0, Passed)]);
            !Driven(s) && s.runs == map[] && !s.authBlocked && !s.degraded
  {}
}
