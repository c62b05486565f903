/** What a session has been through before it goes live, and what an error leaves behind. */
module SessionStages {
  // Stated over what happened in a run of the lifecycle: the events, and the
  // awaits they resumed (src/db/sync-engine.ts).

  import opened Wrappers
  import opened SessionLifecycle
  import opened Reconnects

  datatype Stage = Agreement | Health | Checkpoints | Stamp | Catchup | Warmup | Backfill

  function StageOf(pc: Pc): Stage {
    match pc
    case AtGate(_) => Agreement
    case AtHealth(_) => Health
    case AtCheckpoints(_) => Checkpoints
    case AtStamp(_) => Stamp
    case AtCatchup(_) => Catchup
    case AtWarmup(_) => Warmup
    case AtBackfill(_) => Backfill
  }

  /** The stages every session goes through, in order. */
  function AllStages(cfg: Config): seq<Stage> {
    (if cfg.agreement then [Agreement] else []) + [Health, Checkpoints] + (if cfg.stamps then [Stamp] else [])
    + [Catchup, Warmup, Backfill]
  }

  /** A drift stamp, a warm-up or a backfill that fails is only logged. */
  predicate MayFail(stage: Stage) {
    stage == Stamp || stage == Warmup || stage == Backfill
  }

  /** The await that the event, which leads from `s` to `s'`, ends successfully for
      the session of `epoch`: its run passed the agreement check and was given this
      epoch, or it is not disposed and passed a later await. */
  function Carried(s: State, ev: Event, s': State, epoch: nat): seq<Stage> {
    if !ev.Resume? || ev.run !in s.runs then []
    else
      var pc := s.runs[ev.run];
      var stage := StageOf(pc);
      if pc.AtGate? then
        if ev.outcome == Passed && s.lastEpoch + 1 == epoch == s'.lastEpoch then [Agreement] else []
      else if pc.epoch == epoch && epoch !in s.disposed && (ev.outcome == Passed || MayFail(stage)) then [stage]
      else []
  }

  /** The awaits that the session of `epoch` got through in a run of the engine. */
  function Trail(cfg: Config, evs: seq<Event>, epoch: nat): seq<Stage> {
    if evs == [] then []
    else
      var n := |evs| - 1;
      Trail(cfg, evs[..n], epoch) + Carried(Run(cfg, INIT, evs[..n]), evs[n], Run(cfg, INIT, evs), epoch)
  }

  // ── The stages in order ────────────────────────────────

  /** What lies behind a session suspended at `pc`. */
  function Behind(cfg: Config, pc: Pc): seq<Stage>
    requires Registered(pc)
  {
    var gate := if cfg.agreement then [Agreement] else [];
    var stamp := if cfg.stamps then [Stamp] else [];
    match pc
    case AtHealth(_) => gate
    case AtCheckpoints(_) => gate + [Health]
    case AtStamp(_) => gate + [Health, Checkpoints]
    case AtCatchup(_) => gate + [Health, Checkpoints] + stamp
    case AtWarmup(_) => gate + [Health, Checkpoints] + stamp + [Catchup]
    case AtBackfill(_) => gate + [Health, Checkpoints] + stamp + [Catchup, Warmup]
  }

  /** The trail `t` of `epoch` fits the state. */
  ghost predicate TrailOk(cfg: Config, s: State, epoch: nat, t: seq<Stage>) {
    && t <= AllStages(cfg)
    && (epoch in s.live <==> t == AllStages(cfg))
    && (epoch > s.lastEpoch ==> t == [])
    && (forall r :: r in s.runs && Registered(s.runs[r]) && s.runs[r].epoch == epoch ==>
          t == Behind(cfg, s.runs[r]) && (s.runs[r].AtStamp? ==> cfg.stamps))
  }

  /** Steps that carry no session on leave its runs, or start one. */
  lemma {:induction false} OpenTrail(cfg: Config, s: State, run: nat, syncing: bool, epoch: nat, t: seq<Stage>)
    requires Inv(s) && run !in s.runs && TrailOk(cfg, s, epoch, t)
    ensures TrailOk(cfg, OpenRun(cfg, s, run, syncing), epoch, t)
  {}

  lemma {:induction false} CoreTrail(cfg: Config, s: State, s': State, epoch: nat, t: seq<Stage>)
    requires TrailOk(cfg, s, epoch, t)
    requires s'.runs == s.runs && s'.live == s.live && s'.lastEpoch == s.lastEpoch
    ensures TrailOk(cfg, s', epoch, t)
  {}

  /** A run that only ends. */
  lemma {:induction false} EndTrail(cfg: Config, s: State, s': State, run: nat, epoch: nat, t: seq<Stage>)
    requires TrailOk(cfg, s, epoch, t)
    requires s'.runs == s.runs - {run} && s'.live == s.live && s'.lastEpoch == s.lastEpoch
    ensures TrailOk(cfg, s', epoch, t)
  {
    forall r | r in s'.runs ensures r in s.runs && s'.runs[r] == s.runs[r] {
    }
  }

  lemma {:induction false} GateTrail(cfg: Config, s: State, run: nat, outcome: Outcome, epoch: nat, t: seq<Stage>)
    requires Inv(s) && cfg.agreement && run in s.runs && s.runs[run].AtGate? && TrailOk(cfg, s, epoch, t)
    ensures var s' := ResumeRun(cfg, s, run, outcome);
            TrailOk(cfg, s', epoch, t + Carried(s, Resume(run, outcome), s', epoch))
  {
    var generation := s.runs[run].generation;
    if s.generation != generation || outcome != Passed {
      GateEnds(s, run, generation, outcome);
      EndTrail(cfg, s, ResumeRun(cfg, s, run, outcome), run, epoch, t);
      assert t + [] == t;
    } else {
      assert t == [] || epoch != s.lastEpoch + 1;
      forall r | r in s.runs && Registered(s.runs[r]) ensures s.runs[r].epoch <= s.lastEpoch {
        assert RunOk(s, s.runs[r]);
      }
    }
  }

  lemma {:induction false} GateEnds(s: State, run: nat, generation: nat, outcome: Outcome)
    requires s.generation != generation || outcome != Passed
    ensures var s' := AfterGate(s, run, generation, outcome);
            s'.runs == s.runs - {run} && s'.live == s.live && s'.lastEpoch == s.lastEpoch
  {
    if s.generation == generation {
      FailCore(Finish(s.(opening := false), run), outcome.kind);
    }
  }

  lemma {:induction false} AbandonEnds(s: State, run: nat, kind: Kind)
    ensures var s' := Abandon(s, run, kind);
            s'.runs == s.runs - {run} && s'.live == s.live && s'.lastEpoch == s.lastEpoch
  {
    FailCore(Finish(s.(session := None), run), kind);
  }

  /** A run past registration takes its await, or ends. */
  lemma {:induction false} ResumeTrail(cfg: Config, s: State, run: nat, outcome: Outcome, epoch: nat, t: seq<Stage>)
    requires Inv(s) && run in s.runs && Registered(s.runs[run]) && TrailOk(cfg, s, epoch, t)
    ensures var s' := ResumeRun(cfg, s, run, outcome);
            TrailOk(cfg, s', epoch, t + Carried(s, Resume(run, outcome), s', epoch))
  {
    var pc := s.runs[run];
    var s' := ResumeRun(cfg, s, run, outcome);
    assert t + [] == t;
    if pc.epoch in s.disposed {
      EndTrail(cfg, s, s', run, epoch, t);
    } else if outcome != Passed && !MayFail(StageOf(pc)) {
      AbandonEnds(s, run, outcome.kind);
      EndTrail(cfg, s, s', run, epoch, t);
    } else if pc.AtBackfill? {
      LiveTrail(cfg, s, run, epoch, t);
    } else {
      MoveTrail(cfg, s, run, outcome, epoch, t);
    }
  }

  lemma OnlyItsRun(s: State, run: nat)
    requires Inv(s) && run in s.runs && Registered(s.runs[run])
    ensures forall r :: r in s.runs && r != run && Registered(s.runs[r]) ==> s.runs[r].epoch != s.runs[run].epoch
  {
    forall r | r in s.runs && r != run ensures Apart(s.runs[r], s.runs[run]) {
    }
  }

  lemma {:induction false} LiveTrail(cfg: Config, s: State, run: nat, epoch: nat, t: seq<Stage>)
    requires Inv(s) && run in s.runs && s.runs[run].AtBackfill? && TrailOk(cfg, s, epoch, t)
    ensures var e := s.runs[run].epoch;
            TrailOk(cfg, Finish(s.(live := s.live + {e}), run), epoch, t + if e == epoch then [Backfill] else [])
  {
    var e := s.runs[run].epoch;
    var s' := Finish(s.(live := s.live + {e}), run);
    OnlyItsRun(s, run);
    assert RunOk(s, s.runs[run]);
    if e == epoch {
      OwnLiveTrail(cfg, s, s', run, t);
    } else {
      assert t + [] == t;
      EndTrail(cfg, s.(live := s'.live), s', run, epoch, t);
    }
  }

  lemma {:induction false} OwnLiveTrail(cfg: Config, s: State, s': State, run: nat, t: seq<Stage>)
    requires run in s.runs && s.runs[run].AtBackfill? && TrailOk(cfg, s, s.runs[run].epoch, t)
    requires s.runs[run].epoch <= s.lastEpoch
    requires forall r :: r in s.runs && r != run && Registered(s.runs[r]) ==> s.runs[r].epoch != s.runs[run].epoch
    requires s'.runs == s.runs - {run} && s'.live == s.live + {s.runs[run].epoch} && s'.lastEpoch == s.lastEpoch
    ensures TrailOk(cfg, s', s.runs[run].epoch, t + [Backfill])
  {
    assert t + [Backfill] == AllStages(cfg);
    forall r | r in s'.runs ensures r in s.runs && r != run && s'.runs[r] == s.runs[r] {
    }
  }

  lemma {:induction false} BehindNext(cfg: Config, pc: Pc)
    requires Registered(pc) && !pc.AtBackfill? && (pc.AtStamp? ==> cfg.stamps)
    ensures var next := NextAwait(cfg, pc);
            && Registered(next) && next.epoch == pc.epoch && (next.AtStamp? ==> cfg.stamps)
            && Behind(cfg, next) == Behind(cfg, pc) + [StageOf(pc)] <= AllStages(cfg)
            && Behind(cfg, next) != AllStages(cfg)
  {}

  lemma {:induction false} MoveTrail(cfg: Config, s: State, run: nat, outcome: Outcome, epoch: nat, t: seq<Stage>)
    requires Inv(s) && run in s.runs && Registered(s.runs[run]) && !s.runs[run].AtBackfill?
    requires s.runs[run].epoch !in s.disposed && (outcome == Passed || MayFail(StageOf(s.runs[run])))
    requires TrailOk(cfg, s, epoch, t)
    ensures TrailOk(cfg, ResumeRun(cfg, s, run, outcome), epoch,
                    t + if s.runs[run].epoch == epoch then [StageOf(s.runs[run])] else [])
  {
    var pc := s.runs[run];
    var s' := ResumeRun(cfg, s, run, outcome);
    assert s'.runs == s.runs[run := NextAwait(cfg, pc)] && s'.live == s.live && s'.lastEpoch == s.lastEpoch;
    OnlyItsRun(s, run);
    if pc.epoch == epoch {
      assert RunOk(s, pc);
      BehindNext(cfg, pc);
    } else {
      assert t + [] == t;
    }
  }

  lemma {:induction false} StepTrail(cfg: Config, s: State, ev: Event, epoch: nat, t: seq<Stage>)
    requires Inv(s) && TrailOk(cfg, s, epoch, t) && GateOk(cfg, s)
    ensures TrailOk(cfg, Step(cfg, s, ev), epoch, t + Carried(s, ev, Step(cfg, s, ev), epoch))
  {
    if ev.Resume? && ev.run in s.runs {
      if s.runs[ev.run].AtGate? {
        GateTrail(cfg, s, ev.run, ev.outcome, epoch, t);
      } else {
        ResumeTrail(cfg, s, ev.run, ev.outcome, epoch, t);
      }
    } else {
      assert t + [] == t;
      if ev.Start? || ev.Reopened? {
        OpensTrail(cfg, s, ev, epoch, t);
      } else if !ev.Resume? {
        CoreOnly(cfg, s, ev);
        CoreTrail(cfg, s, Step(cfg, s, ev), epoch, t);
      }
    }
  }

  lemma {:induction false} OpensTrail(cfg: Config, s: State, ev: Event, epoch: nat, t: seq<Stage>)
    requires Inv(s) && TrailOk(cfg, s, epoch, t) && (ev.Start? || ev.Reopened?)
    ensures TrailOk(cfg, Step(cfg, s, ev), epoch, t)
  {
    var from := if ev.Start? then s.(authBlocked := false, degraded := false) else s;
    CoreTrail(cfg, s, from, epoch, t);
    CoreInv(s, from);
    if ev.run !in s.runs && Step(cfg, s, ev).runs != s.runs {
      OpenTrail(cfg, from, ev.run, ev.syncing, epoch, t);
      CoreTrail(cfg, OpenRun(cfg, from, ev.run, ev.syncing), Step(cfg, s, ev), epoch, t);
    } else {
      SameRunsOpen(cfg, s, ev);
      CoreTrail(cfg, s, Step(cfg, s, ev), epoch, t);
    }
  }

  /** An open that starts no run changes neither the loops nor the epochs. */
  lemma {:induction false} SameRunsOpen(cfg: Config, s: State, ev: Event)
    requires (ev.Start? || ev.Reopened?) && (ev.run in s.runs || Step(cfg, s, ev).runs == s.runs)
    ensures var s' := Step(cfg, s, ev); s'.runs == s.runs && s'.live == s.live && s'.lastEpoch == s.lastEpoch
  {
    if ev.run !in s.runs {
      var pc := AtHealth(s.lastEpoch + 1);
      assert ev.run in s.runs[ev.run := pc] && ev.run in s.runs[ev.run := AtGate(s.generation)];
    }
  }

  /** Runs wait for the agreement only where there is one. */
  predicate GateOk(cfg: Config, s: State) {
    forall r :: r in s.runs && s.runs[r].AtGate? ==> cfg.agreement
  }

  lemma {:induction false} StepGate(cfg: Config, s: State, ev: Event)
    requires GateOk(cfg, s)
    ensures GateOk(cfg, Step(cfg, s, ev))
  {
    if ev.Resume? {
      if ev.run in s.runs {
        ResumeFrame(cfg, s, ev.run, ev.outcome);
        var s' := Step(cfg, s, ev);
        forall r | r in s'.runs && s'.runs[r].AtGate? ensures cfg.agreement {
          if r != ev.run {
            assert r in s'.runs - {ev.run} && (s'.runs - {ev.run})[r] == s'.runs[r];
            assert r in s.runs - {ev.run} && (s.runs - {ev.run})[r] == s.runs[r];
          } else {
            ResumeLeavesGate(cfg, s, r, ev.outcome);
          }
        }
      }
    } else if !ev.Start? && !ev.Reopened? {
      CoreOnly(cfg, s, ev);
    }
  }

  lemma {:induction false} ResumeLeavesGate(cfg: Config, s: State, run: nat, outcome: Outcome)
    requires run in s.runs
    ensures var s' := ResumeRun(cfg, s, run, outcome); run in s'.runs ==> !s'.runs[run].AtGate?
  {
    var pc := s.runs[run];
    if pc.AtGate? {
      if s.generation != pc.generation || outcome != Passed {
        GateEnds(s, run, pc.generation, outcome);
      }
    } else if outcome != Passed {
      AbandonEnds(s, run, outcome.kind);
    }
  }

  lemma {:induction false} RunSnoc(cfg: Config, s: State, evs: seq<Event>, ev: Event)
    ensures Run(cfg, s, evs + [ev]) == Step(cfg, Run(cfg, s, evs), ev)
    decreases |evs|
  {
    if evs == [] {
      assert [ev][1..] == [];
    } else {
      assert (evs + [ev])[1..] == evs[1..] + [ev];
      RunSnoc(cfg, Step(cfg, s, evs[0]), evs[1..], ev);
    }
  }

  lemma {:induction false} TrailFits(cfg: Config, evs: seq<Event>, epoch: nat)
    ensures var s := Run(cfg, INIT, evs); Inv(s) && GateOk(cfg, s) && TrailOk(cfg, s, epoch, Trail(cfg, evs, epoch))
  {
    if evs != [] {
      var n := |evs| - 1;
      assert evs == evs[..n] + [evs[n]];
      var s := Run(cfg, INIT, evs[..n]);
      TrailFits(cfg, evs[..n], epoch);
      RunSnoc(cfg, INIT, evs[..n], evs[n]);
      StepInv(cfg, s, evs[n]);
      StepGate(cfg, s, evs[n]);
      StepTrail(cfg, s, evs[n], epoch, Trail(cfg, evs[..n], epoch));
    }
  }

  /** In every run of the engine, the sessions whose loops were started are
      exactly those that got through the agreement check (where there is one),
      health, checkpoints, the drift stamp (where there is one), catch-up, warm-up
      and backfill, each once and in this order. */
  lemma {:induction false} LiveExactly(cfg: Config, evs: seq<Event>, epoch: nat)
    ensures epoch in Run(cfg, INIT, evs).live <==> Trail(cfg, evs, epoch) == AllStages(cfg)
    ensures Trail(cfg, evs, epoch) <= AllStages(cfg)
  {
    TrailFits(cfg, evs, epoch);
  }

  // ── Failures ───────────────────────────────────────────

  /** A session that no run carries and that is not live. */
  ghost predicate Gone(s: State, epoch: nat) {
    && epoch <= s.lastEpoch && epoch !in s.live
    && forall r :: r in s.runs && Registered(s.runs[r]) ==> s.runs[r].epoch != epoch
  }

  lemma {:induction false} GoneStep(cfg: Config, s: State, ev: Event, epoch: nat)
    requires Gone(s, epoch)
    ensures Gone(Step(cfg, s, ev), epoch)
  {
    if ev.Resume? {
      if ev.run in s.runs { GoneResume(cfg, s, ev.run, ev.outcome, epoch); }
    } else if !ev.Start? && !ev.Reopened? {
      CoreOnly(cfg, s, ev);
    }
  }

  lemma {:induction false} GoneResume(cfg: Config, s: State, run: nat, outcome: Outcome, epoch: nat)
    requires Gone(s, epoch) && run in s.runs
    ensures Gone(ResumeRun(cfg, s, run, outcome), epoch)
  {
    if s.runs[run].AtGate? {
      GoneGate(s, run, s.runs[run].generation, outcome, epoch);
    } else {
      GonePast(cfg, s, run, outcome, epoch);
    }
  }

  lemma {:induction false} GoneGate(s: State, run: nat, generation: nat, outcome: Outcome, epoch: nat)
    requires Gone(s, epoch)
    ensures Gone(AfterGate(s, run, generation, outcome), epoch)
  {
    if s.generation != generation || outcome != Passed {
      GateEnds(s, run, generation, outcome);
      GoneLater(s, AfterGate(s, run, generation, outcome), run, epoch);
    }
  }

  lemma {:induction false} GonePast(cfg: Config, s: State, run: nat, outcome: Outcome, epoch: nat)
    requires Gone(s, epoch) && run in s.runs && Registered(s.runs[run])
    ensures Gone(ResumeRun(cfg, s, run, outcome), epoch)
  {
    var pc := s.runs[run];
    if pc.epoch in s.disposed {
      GoneLater(s, Finish(s, run), run, epoch);
    } else if outcome != Passed && CanFail(pc) {
      AbandonEnds(s, run, outcome.kind);
      GoneLater(s, Abandon(s, run, outcome.kind), run, epoch);
    } else if pc.AtBackfill? {
      var lit := s.(live := s.live + {pc.epoch});
      GoneLater(lit, Finish(lit, run), run, epoch);
    } else {
      GoneMoves(s, ResumeRun(cfg, s, run, outcome), run, NextAwait(cfg, pc), epoch);
    }
  }

  lemma GoneMoves(s: State, s': State, run: nat, pc: Pc, epoch: nat)
    requires Gone(s, epoch) && (Registered(pc) ==> pc.epoch != epoch)
    requires s'.runs == s.runs[run := pc] && s'.live == s.live && s'.lastEpoch == s.lastEpoch
    ensures Gone(s', epoch)
  {}

  lemma {:induction false} GoneLater(s: State, s': State, run: nat, epoch: nat)
    requires Gone(s, epoch) && s'.runs == s.runs - {run} && s'.live == s.live && s'.lastEpoch == s.lastEpoch
    ensures Gone(s', epoch)
  {
    forall r | r in s'.runs ensures r in s.runs && s'.runs[r] == s.runs[r] {
    }
  }

  lemma {:induction false} GoneStays(cfg: Config, s: State, evs: seq<Event>, epoch: nat)
    requires Gone(s, epoch)
    ensures Gone(Run(cfg, s, evs), epoch)
    decreases |evs|
  {
    if evs != [] {
      GoneStep(cfg, s, evs[0], epoch);
      GoneStays(cfg, Step(cfg, s, evs[0]), evs[1..], epoch);
    }
  }

  /** A session whose health check, checkpoints or catch-up failed never goes
      live, whatever happens afterwards. */
  lemma {:induction false} FailedNeverLive(cfg: Config, evs: seq<Event>, run: nat, outcome: Outcome,
      later: seq<Event>)
    requires var s := Run(cfg, INIT, evs);
             run in s.runs && (s.runs[run].AtHealth? || s.runs[run].AtCheckpoints? || s.runs[run].AtCatchup?)
    requires outcome != Passed
    ensures var s := Run(cfg, INIT, evs);
            s.runs[run].epoch !in Run(cfg, Step(cfg, s, Resume(run, outcome)), later).live
  {
    var s := Run(cfg, INIT, evs);
    RunInv(cfg, INIT, evs);
    FailureEnds(cfg, s, run, outcome);
    EndedIsGone(s, ResumeRun(cfg, s, run, outcome), run);
    GoneStays(cfg, ResumeRun(cfg, s, run, outcome), later, s.runs[run].epoch);
  }

  lemma {:induction false} FailureEnds(cfg: Config, s: State, run: nat, outcome: Outcome)
    requires run in s.runs && (s.runs[run].AtHealth? || s.runs[run].AtCheckpoints? || s.runs[run].AtCatchup?)
    requires outcome != Passed
    ensures var s' := ResumeRun(cfg, s, run, outcome);
            s'.runs == s.runs - {run} && s'.live == s.live && s'.lastEpoch == s.lastEpoch
  {
    AbandonEnds(s, run, outcome.kind);
  }

  lemma {:induction false} EndedIsGone(s: State, s': State, run: nat)
    requires Inv(s) && run in s.runs && Registered(s.runs[run])
    requires s'.runs == s.runs - {run} && s'.live == s.live && s'.lastEpoch == s.lastEpoch
    ensures Gone(s', s.runs[run].epoch)
  {
    assert RunOk(s, s.runs[run]);
    forall r | r in s'.runs && Registered(s'.runs[r]) ensures s'.runs[r].epoch != s.runs[run].epoch {
      assert Apart(s.runs[r], s.runs[run]);
    }
  }

  /** A passed catch-up clears the retry timer and goes on with its session. */
  lemma {:induction false} CatchupClearsRetry(cfg: Config, evs: seq<Event>, run: nat)
    requires var s := Run(cfg, INIT, evs);
             run in s.runs && s.runs[run].AtCatchup? && s.runs[run].epoch !in s.disposed
    ensures var s := Run(cfg, INIT, evs); var s' := Step(cfg, s, Resume(run, Passed));
            !s'.retry && s'.session == s.session == Some(s.runs[run].epoch)
  {
    RunInv(cfg, INIT, evs);
    assert RunOk(Run(cfg, INIT, evs), Run(cfg, INIT, evs).runs[run]);
  }

  /** What an error leaves behind, by its kind: auth and terminal errors and a
      database that degrades end the session and the retries, and only the first
      and the last set their latch; any other error leaves a retry unless the
      database is degraded. */
  predicate LeftBy(s: State, s': State, kind: Kind) {
    && s'.authBlocked == (s.authBlocked || kind == Auth)
    && s'.degraded == (s.degraded || kind == Degraded)
    && match kind
       case Auth => s'.session == None && !s'.retry
       case Terminal => s'.session == None && !s'.retry
       case Degraded => if s.degraded then s'.retry == s.retry else s'.session == None && !s'.retry
       case Retriable => s'.retry == !s.degraded
  }

  lemma {:induction false} FailLeaves(s: State, kind: Kind)
    ensures LeftBy(s, Fail(s, kind), kind)
  {}

  /** A failing await of a session that is not disposed ends it, and leaves what
      an error of that kind leaves. */
  lemma {:induction false} FailureLeaves(cfg: Config, evs: seq<Event>, run: nat, outcome: Outcome)
    requires var s := Run(cfg, INIT, evs);
             run in s.runs && (s.runs[run].AtHealth? || s.runs[run].AtCheckpoints? || s.runs[run].AtCatchup?)
             && s.runs[run].epoch !in s.disposed
    requires outcome != Passed
    ensures var s := Run(cfg, INIT, evs); var s' := Step(cfg, s, Resume(run, outcome));
            s'.session == None && run !in s'.runs && LeftBy(s, s', outcome.kind)
  {
    var s := Run(cfg, INIT, evs);
    AbandonEnds(s, run, outcome.kind);
    FailLeaves(Finish(s.(session := None), run), outcome.kind);
  }

  /** So does a failing agreement check that nothing overtook; one that something
      overtook leaves the latches and the timer alone. */
  lemma {:induction false} GateFailureLeaves(cfg: Config, evs: seq<Event>, run: nat, outcome: Outcome)
    requires var s := Run(cfg, INIT, evs); run in s.runs && s.runs[run].AtGate?
    requires outcome != Passed && outcome.kind != Degraded
    ensures var s := Run(cfg, INIT, evs); var s' := Step(cfg, s, Resume(run, outcome));
            && s'.session == None && run !in s'.runs
            && if s.runs[run].generation == s.generation then LeftBy(s, s', outcome.kind)
               else s'.retry == s.retry && s'.authBlocked == s.authBlocked && s'.degraded == s.degraded
  {
    var s := Run(cfg, INIT, evs);
    RunInv(cfg, INIT, evs);
    assert RunOk(s, s.runs[run]);
    GateLeaves(s, run, s.runs[run].generation, outcome);
  }

  lemma {:induction false} GateLeaves(s: State, run: nat, generation: nat, outcome: Outcome)
    requires s.session == None && outcome != Passed && outcome.kind != Degraded
    ensures var s' := AfterGate(s, run, generation, outcome);
            && s'.session == None && run !in s'.runs
            && if generation == s.generation then LeftBy(s, s', outcome.kind)
               else s'.retry == s.retry && s'.authBlocked == s.authBlocked && s'.degraded == s.degraded
  {
    GateEnds(s, run, generation, outcome);
    if generation == s.generation {
      EnterLeaves(s, Finish(s.(opening := false), run), outcome.kind);
    }
  }

  lemma EnterLeaves(s: State, ended: State, kind: Kind)
    requires ended.session == None && kind != Degraded
    requires ended.retry == s.retry && ended.authBlocked == s.authBlocked && ended.degraded == s.degraded
    ensures LeftBy(s, EnterError(ended, kind), kind) && EnterError(ended, kind).session == None
  {}

  /** So does a probe that does not reach the server, and it ends the reconnect: one
      that proves nothing arms a retry, and one made while an error shows changes
      nothing more. A reachable server begins the restart. */
  lemma {:induction false} ProbeLeaves(cfg: Config, s: State, probe: Probe)
    requires s.reconnect == Some(Probing) && (probe.Unreachable? ==> probe.kind != Degraded)
    ensures var s' := Step(cfg, s, Probed(probe));
            && (match probe
                case Reachable => s'.reconnect == Some(Restarting) && s'.session == None && s'.retry == s.retry
                case Unreachable(kind) => LeftBy(s, s', kind)
                case Inconclusive => s'.retry && s'.session == s.session
                case AlreadyInError => s'.retry == s.retry && s'.session == s.session)
            && (probe != Reachable ==>
                  s'.reconnect == None && !s'.queued && s'.launches == s.launches + if s.queued then 1 else 0)
  {
    if probe.Unreachable? {
      FailLeaves(s, probe.kind);
      FailFrame(s, probe.kind);
    }
  }

  /** The retry timer fires once, and an unarmed one not at all. */
  lemma TimerFiresOnce(cfg: Config, s: State, decision: Decision, higher: bool)
    ensures var s' := Step(cfg, s, RetryFires(decision, higher)); !s'.retry && (!s.retry ==> s' == s)
  {}

  // ── Blocked until the next start ───────────────────────

  /** No session, nothing that could register one, and an auth block or a degraded
      database. */
  ghost predicate Blocked(s: State) {
    Quiet(s) && (s.authBlocked || s.degraded)
  }

  lemma {:induction false} BlockedStep(cfg: Config, s: State, ev: Event)
    requires Blocked(s) && !ev.Start?
    ensures Blocked(Step(cfg, s, ev)) && Step(cfg, s, ev).live == s.live
    ensures s.authBlocked ==> Step(cfg, s, ev).authBlocked
  {
    if ev.Resume? {
      QuietResume(cfg, s, ev.run, ev.outcome);
    } else if !ev.Reopened? {
      QuietOthers(cfg, s, ev);
      FlagsStay(cfg, s, ev);
    }
  }

  /** Only a start clears the two latches. */
  lemma {:induction false} FlagsStay(cfg: Config, s: State, ev: Event)
    requires !ev.Start? && !ev.Resume? && !ev.Reopened?
    ensures var s' := Step(cfg, s, ev); (s.authBlocked ==> s'.authBlocked) && (s.degraded ==> s'.degraded)
  {}

  lemma {:induction false} BlockedStays(cfg: Config, s: State, later: seq<Event>)
    requires Blocked(s) && forall k :: 0 <= k < |later| ==> !later[k].Start?
    ensures Blocked(Run(cfg, s, later)) && Run(cfg, s, later).live == s.live
    ensures s.authBlocked ==> Run(cfg, s, later).authBlocked
    decreases |later|
  {
    if later != [] {
      BlockedStep(cfg, s, later[0]);
      BlockedStays(cfg, Step(cfg, s, later[0]), later[1..]);
    }
  }

  /** After an auth error, wherever it shows, no session registers or goes live
      until the next start: no reconnect, retry or suspended open gets past it. */
  lemma {:induction false} AuthHaltsUntilStart(cfg: Config, evs: seq<Event>, ev: Event, later: seq<Event>)
    requires ev == Error(Auth) || ev == AuthRaised(false)
             || (ev == Probed(Unreachable(Auth)) && Run(cfg, INIT, evs).reconnect == Some(Probing))
    requires forall k :: 0 <= k < |later| ==> !later[k].Start?
    ensures var s := Step(cfg, Run(cfg, INIT, evs), ev); var t := Run(cfg, s, later);
            !s.retry && t.session == None && t.live == s.live && t.authBlocked
  {
    var s := Run(cfg, INIT, evs);
    RunInv(cfg, INIT, evs);
    CoreOnly(cfg, s, ev);
    TornIsQuiet(s, Step(cfg, s, ev));
    BlockedStays(cfg, Step(cfg, s, ev), later);
  }

  /** Raised while an error shows, the latch alone is set: until the next start no
      further run is opened and no reconnect begins. */
  lemma {:induction false} RaisedLatchKeepsOut(cfg: Config, s: State, inError: bool, later: seq<Event>)
    requires forall k :: 0 <= k < |later| ==> !later[k].Start?
    ensures var raised := Step(cfg, s, AuthRaised(inError)); var t := Run(cfg, raised, later);
            && raised.authBlocked && (inError ==> raised == s.(authBlocked := true))
            && t.authBlocked && t.runs.Keys <= s.runs.Keys && (s.reconnect == None ==> t.reconnect == None)
  {
    KeptOutStays(cfg, Step(cfg, s, AuthRaised(inError)), later);
  }

  lemma {:induction false} KeptOutStays(cfg: Config, s: State, later: seq<Event>)
    requires s.authBlocked && forall k :: 0 <= k < |later| ==> !later[k].Start?
    ensures var t := Run(cfg, s, later);
            t.authBlocked && t.runs.Keys <= s.runs.Keys && (s.reconnect == None ==> t.reconnect == None)
    decreases |later|
  {
    if later != [] {
      KeptOutStep(cfg, s, later[0]);
      KeptOutStays(cfg, Step(cfg, s, later[0]), later[1..]);
    }
  }

  lemma {:induction false} KeptOutStep(cfg: Config, s: State, ev: Event)
    requires s.authBlocked && !ev.Start?
    ensures var t := Step(cfg, s, ev);
            t.authBlocked && t.runs.Keys <= s.runs.Keys && (s.reconnect == None ==> t.reconnect == None)
  {
    if ev.Resume? {
      if ev.run in s.runs {
        ResumeFrame(cfg, s, ev.run, ev.outcome);
        ResumeKeepsAuth(cfg, s, ev.run, ev.outcome);
        var t := Step(cfg, s, ev);
        forall r | r in t.runs ensures r in s.runs {
          assert r != ev.run ==> r in t.runs - {ev.run} && r in s.runs - {ev.run};
        }
      }
    } else if ev.Reopened? {
      RefusedReopen(cfg, s, ev.run, ev.syncing);
    } else {
      CoreOnly(cfg, s, ev);
      FlagsStay(cfg, s, ev);
      if s.reconnect == None { BlockedRequests(cfg, s, ev); }
    }
  }

  lemma RefusedReopen(cfg: Config, s: State, run: nat, syncing: bool)
    requires s.authBlocked
    ensures var t := Reopen(cfg, s, run, syncing); t == s || t == EndReconnect(s)
  {}

  lemma {:induction false} BlockedRequests(cfg: Config, s: State, ev: Event)
    requires s.authBlocked && s.reconnect == None && !ev.Start? && !ev.Resume? && !ev.Reopened?
    ensures Step(cfg, s, ev).reconnect == None
  {
    if ev.Error? { FailFrame(s, ev.kind); }
  }

  lemma {:induction false} ResumeKeepsAuth(cfg: Config, s: State, run: nat, outcome: Outcome)
    requires s.authBlocked && run in s.runs
    ensures ResumeRun(cfg, s, run, outcome).authBlocked
  {
    if outcome != Passed {
      FailLeaves(Finish(s.(opening := false), run), outcome.kind);
      FailLeaves(Finish(s.(session := None), run), outcome.kind);
      EnterKeepsAuth(Finish(s.(opening := false), run), outcome.kind);
    }
  }

  lemma EnterKeepsAuth(s: State, kind: Kind)
    ensures s.authBlocked ==> EnterError(s, kind).authBlocked
  {}

  lemma {:induction false} TornIsQuiet(s: State, s': State)
    requires Inv(s) && SameCore(TearDown(s), s')
    ensures Quiet(s')
  {
    TearDownIsQuiet(s);
    assert Quiet(TearDown(s));
  }

  /** A degraded database, in every run, means no session and nothing under way
      that registers one; only a start ends that. */
  lemma {:induction false} DegradedIsQuiet(cfg: Config, evs: seq<Event>)
    ensures Run(cfg, INIT, evs).degraded ==> Quiet(Run(cfg, INIT, evs))
  {
    if evs != [] {
      var n := |evs| - 1;
      assert evs == evs[..n] + [evs[n]];
      var s := Run(cfg, INIT, evs[..n]);
      DegradedIsQuiet(cfg, evs[..n]);
      RunSnoc(cfg, INIT, evs[..n], evs[n]);
      RunInv(cfg, INIT, evs[..n]);
      DegradedStep(cfg, s, evs[n]);
    }
  }

  lemma {:induction false} DegradedStep(cfg: Config, s: State, ev: Event)
    requires Inv(s) && (s.degraded ==> Quiet(s))
    ensures Step(cfg, s, ev).degraded ==> Quiet(Step(cfg, s, ev))
  {
    if s.degraded && !ev.Start? {
      BlockedStep(cfg, s, ev);
    } else if ev.Resume? {
      if ev.run in s.runs && Step(cfg, s, ev).degraded {
        DegradedResume(cfg, s, ev.run, ev.outcome);
      }
    } else if !ev.Start? && !ev.Reopened? && Step(cfg, s, ev).degraded {
      CoreOnly(cfg, s, ev);
      OnlyErrorDegrades(cfg, s, ev);
      TornIsQuiet(s, Step(cfg, s, ev));
    }
  }

  lemma {:induction false} OnlyErrorDegrades(cfg: Config, s: State, ev: Event)
    requires !s.degraded && Step(cfg, s, ev).degraded && !ev.Resume? && !ev.Start? && !ev.Reopened?
    ensures ev == Error(Degraded)
  {}

  lemma {:induction false} DegradedResume(cfg: Config, s: State, run: nat, outcome: Outcome)
    requires Inv(s) && !s.degraded && run in s.runs && ResumeRun(cfg, s, run, outcome).degraded
    ensures Quiet(ResumeRun(cfg, s, run, outcome))
  {
    if s.runs[run].AtGate? {
      GateNeverDegrades(s, run, s.runs[run].generation, outcome);
    } else {
      assert outcome != Passed && s.runs[run].epoch !in s.disposed;
      AbandonDegrades(s, run, outcome.kind);
    }
  }

  lemma {:induction false} GateNeverDegrades(s: State, run: nat, generation: nat, outcome: Outcome)
    ensures AfterGate(s, run, generation, outcome).degraded == s.degraded
  {
    if outcome != Passed {
      EnterKeepsDegraded(Finish(s.(opening := false), run), outcome.kind);
    }
  }

  lemma EnterKeepsDegraded(s: State, kind: Kind)
    ensures EnterError(s, kind).degraded == s.degraded
  {}

  lemma {:induction false} AbandonDegrades(s: State, run: nat, kind: Kind)
    requires Inv(s) && run in s.runs && Registered(s.runs[run]) && s.runs[run].epoch !in s.disposed
    requires !s.degraded && Abandon(s, run, kind).degraded
    ensures Quiet(Abandon(s, run, kind))
  {
    DropInv(s, run);
    FailCore(Finish(s.(session := None), run), kind);
    TornIsQuiet(Finish(s.(session := None), run), Abandon(s, run, kind));
  }
}
