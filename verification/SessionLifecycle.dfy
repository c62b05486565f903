/** The session lifecycle of the sync engine (src/db/sync-engine.ts): a state
    machine whose steps are the stretches between two awaits, with the runs of
    openSession and the reconnect in flight suspended at theirs. */
module SessionLifecycle {
  import opened Wrappers

  /** What `enterError` and `handleDegraded` tell apart. */
  datatype Kind = Auth | Terminal | Degraded | Retriable

  datatype Outcome = Passed | Failed(kind: Kind) | BuildFailed(kind: Kind)

  /** The await an openSession run is suspended at. */
  datatype Pc =
    | AtGate(generation: nat)
    | AtHealth(epoch: nat)
    | AtCheckpoints(epoch: nat)
    | AtStamp(epoch: nat)
    | AtCatchup(epoch: nat)
    | AtWarmup(epoch: nat)
    | AtBackfill(epoch: nat)

  /** Whether the engine was given an agreement gate and a drift stamp. */
  datatype Config = Config(agreement: bool, stamps: bool)

  /** What the reconnect policy decides. */
  datatype Decision = Skip | Verify | RestartNow

  /** What the reachability probe ends in; the engine may already show an error. */
  datatype Probe = Reachable | Unreachable(kind: Kind) | Inconclusive | AlreadyInError

  /** The await the one reconnect in flight is suspended at. */
  datatype Reconnect =
    | Probing
    | Restarting
    | Opening(run: nat)

  // `queued`: a reconnect waits for the one in flight; `launches`: follow-ups
  // that are scheduled but have not begun.
  datatype State = State(
    session: Option<nat>,
    opening: bool,
    generation: nat,
    lastEpoch: nat,
    disposed: set<nat>,
    retry: bool,
    authBlocked: bool,
    degraded: bool,
    live: set<nat>,
    runs: map<nat, Pc>,
    reconnect: Option<Reconnect>,
    queued: bool,
    launches: nat)

  const INIT: State := State(None, false, 0, 0, {}, false, false, false, {}, map[], None, false, 0)

  // `higher`: whether the request outranks the reconnect in flight and the queue.
  datatype Event =
    | Start(run: nat, syncing: bool)
    | Request(decision: Decision, higher: bool)
    | Launch(decision: Decision, higher: bool)
    | RetryFires(decision: Decision, higher: bool)
    | Probed(probe: Probe)
    | Reopened(run: nat, syncing: bool)
    | Resume(run: nat, outcome: Outcome)
    | Teardown
    | Stop
    | AuthRaised(inError: bool)
    | Error(kind: Kind)

  // ── Synchronous helpers ────────────────────────────────

  function TearDown(s: State): State {
    s.(generation := s.generation + 1,
       session := None,
       disposed := if s.session.Some? then s.disposed + {s.session.value} else s.disposed)
  }

  function HandleDegraded(s: State): State {
    if s.degraded then s else TearDown(s.(degraded := true, retry := false))
  }

  function EnterError(s: State, kind: Kind): State {
    match kind
    case Auth => TearDown(s.(authBlocked := true, retry := false))
    case Terminal => TearDown(s.(retry := false))
    case _ => s.(retry := !s.degraded)
  }

  /** A DbError of kind degraded goes to `handleDegraded`, the rest to `enterError`. */
  function Fail(s: State, kind: Kind): State {
    if kind == Degraded then HandleDegraded(s) else EnterError(s, kind)
  }

  /** A queued request is scheduled when the reconnect in flight ends. */
  function EndReconnect(s: State): State {
    s.(reconnect := None, queued := false, launches := if s.queued then s.launches + 1 else s.launches)
  }

  /** The end of an openSession run ends the reconnect that awaits it. */
  function Finish(s: State, run: nat): State {
    var s' := s.(runs := s.runs - {run});
    if s.reconnect == Some(Opening(run)) then EndReconnect(s') else s'
  }

  // ── Segments of openSession ────────────────────────────

  function Register(s: State, run: nat): State {
    var epoch := s.lastEpoch + 1;
    s.(lastEpoch := epoch, session := Some(epoch), runs := s.runs[run := AtHealth(epoch)])
  }

  function OpenRun(cfg: Config, s: State, run: nat, syncing: bool): State {
    if s.session.Some? || s.opening || !syncing || s.authBlocked || s.degraded then s
    else if cfg.agreement then s.(opening := true, runs := s.runs[run := AtGate(s.generation)])
    else Register(s, run)
  }

  function AfterGate(s: State, run: nat, generation: nat, outcome: Outcome): State {
    var free := s.(opening := false);
    if s.generation != generation then Finish(free, run)
    else
      match outcome
      case Failed(kind) => EnterError(Finish(free, run), kind)
      case BuildFailed(kind) => EnterError(Finish(free, run), kind)
      case Passed => Register(free, run)
  }

  /** A failed step of a run that is still registered. */
  function Abandon(s: State, run: nat, kind: Kind): State {
    Fail(Finish(s.(session := None), run), kind)
  }

  /** The steps whose failure ends the run; the drift stamp, the warm-up and the
      backfill only log theirs. */
  predicate CanFail(pc: Pc) {
    pc.AtHealth? || pc.AtCheckpoints? || pc.AtCatchup?
  }

  function NextAwait(cfg: Config, pc: Pc): Pc
    requires !pc.AtGate? && !pc.AtBackfill?
  {
    match pc
    case AtHealth(epoch) => AtCheckpoints(epoch)
    case AtCheckpoints(epoch) => if cfg.stamps then AtStamp(epoch) else AtCatchup(epoch)
    case AtStamp(epoch) => AtCatchup(epoch)
    case AtCatchup(epoch) => AtWarmup(epoch)
    case AtWarmup(epoch) => AtBackfill(epoch)
  }

  function ResumeRun(cfg: Config, s: State, run: nat, outcome: Outcome): State {
    if run !in s.runs then s
    else
      var pc := s.runs[run];
      if pc.AtGate? then AfterGate(s, run, pc.generation, outcome)
      else if pc.epoch in s.disposed then Finish(s, run)
      else if outcome != Passed && CanFail(pc) then Abandon(s, run, outcome.kind)
      else if pc.AtBackfill? then Finish(s.(live := s.live + {pc.epoch}), run)
      else s.(retry := s.retry && !pc.AtCatchup?, runs := s.runs[run := NextAwait(cfg, pc)])
  }

  // ── Segments of requestReconnect ───────────────────────

  /** `restart` up to the await in its teardown. */
  function BeginRestart(s: State): State {
    TearDown(s).(reconnect := Some(Restarting))
  }

  function RequestReconnect(s: State, decision: Decision, higher: bool): State {
    if s.reconnect.Some? then s.(queued := s.queued || higher)
    else if decision == Skip || s.authBlocked then s
    else if decision == Verify then s.(reconnect := Some(Probing))
    else BeginRestart(s)
  }

  function AfterProbe(s: State, probe: Probe): State {
    if s.reconnect != Some(Probing) then s
    else
      match probe
      case Reachable => BeginRestart(s)
      case Unreachable(kind) => EndReconnect(EnterError(s, kind))
      case Inconclusive => EndReconnect(s.(retry := true))
      case AlreadyInError => EndReconnect(s)
  }

  /** `restart` after its teardown: an open, with the guards of that moment. */
  function Reopen(cfg: Config, s: State, run: nat, syncing: bool): State {
    if s.reconnect != Some(Restarting) || run in s.runs then s
    else
      var s' := OpenRun(cfg, s, run, syncing);
      if run in s'.runs then s'.(reconnect := Some(Opening(run))) else EndReconnect(s')
  }

  function Step(cfg: Config, s: State, ev: Event): State {
    match ev
    case Start(run, syncing) =>
      if s.session.Some? || run in s.runs then s
      else OpenRun(cfg, s.(authBlocked := false, degraded := false), run, syncing)
    case Request(decision, higher) => RequestReconnect(s, decision, higher)
    case Launch(decision, higher) =>
      if s.launches == 0 then s else RequestReconnect(s.(launches := s.launches - 1), decision, higher)
    case RetryFires(decision, higher) =>
      if !s.retry then s else RequestReconnect(s.(retry := false), decision, higher)
    case Probed(probe) => AfterProbe(s, probe)
    case Reopened(run, syncing) => Reopen(cfg, s, run, syncing)
    case Resume(run, outcome) => ResumeRun(cfg, s, run, outcome)
    case Teardown => TearDown(s)
    case Stop => TearDown(s.(retry := false))
    case AuthRaised(inError) =>
      if inError then s.(authBlocked := true) else TearDown(s.(authBlocked := true, retry := false))
    case Error(kind) => Fail(s, kind)
  }

  function Run(cfg: Config, s: State, evs: seq<Event>): State
    decreases |evs|
  {
    if evs == [] then s else Run(cfg, Step(cfg, s, evs[0]), evs[1..])
  }

  // ── Invariant ──────────────────────────────────────────

  predicate Registered(pc: Pc) {
    !pc.AtGate?
  }

  /** What a suspended run can rely on: the latch is held while it waits at the
      gate; past registration its session, unless disposed, is registered. */
  predicate RunOk(s: State, pc: Pc) {
    && (pc.AtGate? ==> s.opening && pc.generation <= s.generation)
    && (Registered(pc) ==>
          && pc.epoch <= s.lastEpoch && pc.epoch !in s.live
          && (pc.epoch !in s.disposed ==> s.session == Some(pc.epoch)))
  }

  /** Two runs never share the gate nor a session. */
  predicate Apart(p: Pc, q: Pc) {
    !(p.AtGate? && q.AtGate?) && (Registered(p) && Registered(q) ==> p.epoch != q.epoch)
  }

  ghost predicate SessionOk(s: State) {
    && (s.opening ==> s.session == None)
    && (s.session.Some? ==> s.session.value <= s.lastEpoch && s.session.value !in s.disposed)
    && (forall e :: e in s.disposed ==> e <= s.lastEpoch)
    && (forall e :: e in s.live ==> e <= s.lastEpoch && (e !in s.disposed ==> s.session == Some(e)))
  }

  ghost predicate Inv(s: State) {
    && SessionOk(s)
    && (forall r :: r in s.runs ==> RunOk(s, s.runs[r]))
    && (forall r, r' :: r in s.runs && r' in s.runs && r != r' ==> Apart(s.runs[r], s.runs[r']))
  }

  /** What the invariant speaks of; flags, timer and reconnects are apart. */
  predicate SameCore(s: State, s': State) {
    && s'.session == s.session && s'.opening == s.opening && s'.generation == s.generation
    && s'.lastEpoch == s.lastEpoch && s'.disposed == s.disposed && s'.live == s.live && s'.runs == s.runs
  }

  lemma CoreInv(s: State, s': State)
    requires Inv(s) && SameCore(s, s')
    ensures Inv(s')
  {
    forall r | r in s'.runs ensures RunOk(s', s'.runs[r]) {
      assert RunOk(s, s.runs[r]);
    }
  }

  lemma TearDownInv(s: State, s': State)
    requires Inv(s) && SameCore(TearDown(s), s')
    ensures Inv(s')
  {
    forall r | r in s'.runs ensures RunOk(s', s'.runs[r]) {
      assert RunOk(s, s.runs[r]);
    }
  }

  lemma FailCore(s: State, kind: Kind)
    ensures SameCore(if Overtakes(s, Error(kind)) then TearDown(s) else s, Fail(s, kind))
    ensures SameCore(if kind == Auth || kind == Terminal then TearDown(s) else s, EnterError(s, kind))
  {}

  lemma FailInv(s: State, kind: Kind)
    requires Inv(s)
    ensures Inv(Fail(s, kind)) && Inv(EnterError(s, kind))
  {
    FailCore(s, kind);
    CoreOrDownInv(s, Fail(s, kind));
    CoreOrDownInv(s, EnterError(s, kind));
  }

  lemma CoreOrDownInv(s: State, s': State)
    requires Inv(s) && (SameCore(s, s') || SameCore(TearDown(s), s'))
    ensures Inv(s')
  {
    if SameCore(s, s') {
      CoreInv(s, s');
    } else {
      TearDownInv(s, s');
    }
  }

  lemma StillApart(s: State, run: nat)
    requires Inv(s)
    ensures var runs := s.runs - {run};
            forall r, r' :: r in runs && r' in runs && r != r' ==> Apart(runs[r], runs[r'])
  {
    forall r, r' | r in s.runs && r' in s.runs && r != r' ensures Apart(s.runs[r], s.runs[r']) {
    }
  }

  /** A run that ends leaves the others as they are. */
  lemma FinishInv(s: State, run: nat)
    requires Inv(s)
    ensures Inv(Finish(s, run))
  {
    var s' := Finish(s, run);
    forall r | r in s'.runs ensures RunOk(s', s'.runs[r]) {
      assert RunOk(s, s.runs[r]);
    }
    StillApart(s, run);
  }

  /** Dropping a run together with its own registration. */
  lemma DropInv(s: State, run: nat)
    requires Inv(s) && run in s.runs && Registered(s.runs[run]) && s.runs[run].epoch !in s.disposed
    ensures Inv(Finish(s.(session := None), run))
  {
    var s' := Finish(s.(session := None), run);
    assert RunOk(s, s.runs[run]);
    forall r | r in s'.runs ensures RunOk(s', s'.runs[r]) {
      assert RunOk(s, s.runs[r]);
      assert Apart(s.runs[r], s.runs[run]);
    }
    StillApart(s, run);
  }

  lemma AbandonInv(s: State, run: nat, kind: Kind)
    requires Inv(s) && run in s.runs && Registered(s.runs[run]) && s.runs[run].epoch !in s.disposed
    ensures Inv(Abandon(s, run, kind))
  {
    DropInv(s, run);
    FailInv(Finish(s.(session := None), run), kind);
  }

  lemma MoveInv(s: State, run: nat, pc: Pc)
    requires Inv(s) && run in s.runs && Registered(s.runs[run]) && Registered(pc) && pc.epoch == s.runs[run].epoch
    ensures Inv(s.(runs := s.runs[run := pc]))
  {
    var s' := s.(runs := s.runs[run := pc]);
    assert RunOk(s, s.runs[run]);
    forall r | r in s'.runs ensures RunOk(s', s'.runs[r]) {
      assert RunOk(s, s.runs[r]);
    }
    forall r, r' | r in s'.runs && r' in s'.runs && r != r' ensures Apart(s'.runs[r], s'.runs[r']) {
      assert Apart(s.runs[r], s.runs[r']);
    }
  }

  /** With no session and no other run at the gate, a run may register. */
  lemma RegisterInv(s: State, run: nat)
    requires Inv(s) && s.session == None
    requires forall r :: r in s.runs ==> (r == run <==> s.runs[r].AtGate?)
    ensures Inv(Register(s.(opening := false), run))
  {
    var s' := Register(s.(opening := false), run);
    forall r | r in s'.runs && r != run
      ensures RunOk(s', s'.runs[r]) && Apart(s'.runs[r], s'.runs[run]) && Apart(s'.runs[run], s'.runs[r])
    {
      assert RunOk(s, s.runs[r]);
    }
    forall r, r' | r in s'.runs && r' in s'.runs && r != r' ensures Apart(s'.runs[r], s'.runs[r']) {
      assert r != run && r' != run ==> Apart(s.runs[r], s.runs[r']);
    }
  }

  /** The one run at the gate gives the latch back and ends. */
  lemma FreeGateInv(s: State, run: nat)
    requires Inv(s) && run in s.runs && s.runs[run].AtGate?
    ensures Inv(Finish(s.(opening := false), run))
  {
    var s' := Finish(s.(opening := false), run);
    forall r | r in s'.runs ensures RunOk(s', s'.runs[r]) {
      assert RunOk(s, s.runs[r]) && Apart(s.runs[r], s.runs[run]);
    }
    StillApart(s, run);
  }

  lemma {:induction false} AfterGateInv(s: State, run: nat, outcome: Outcome)
    requires Inv(s) && run in s.runs && s.runs[run].AtGate?
    ensures Inv(AfterGate(s, run, s.runs[run].generation, outcome))
  {
    FreeGateInv(s, run);
    if outcome == Passed {
      PassInv(s, run);
    } else {
      FailInv(Finish(s.(opening := false), run), outcome.kind);
    }
  }

  lemma PassInv(s: State, run: nat)
    requires Inv(s) && run in s.runs && s.runs[run].AtGate?
    ensures Inv(Register(s.(opening := false), run))
  {
    assert RunOk(s, s.runs[run]);
    forall r | r in s.runs ensures r == run <==> s.runs[r].AtGate? {
      assert r != run ==> Apart(s.runs[r], s.runs[run]);
    }
    RegisterInv(s, run);
  }

  lemma GoLiveSession(s: State, run: nat)
    requires SessionOk(s) && run in s.runs && RunOk(s, s.runs[run])
    requires Registered(s.runs[run]) && s.runs[run].epoch !in s.disposed
    ensures SessionOk(Finish(s.(live := s.live + {s.runs[run].epoch}), run))
  {}

  lemma GoLiveOther(s: State, epoch: nat, pc: Pc)
    requires RunOk(s, pc)
    ensures (Registered(pc) ==> pc.epoch != epoch) ==> RunOk(s.(live := s.live + {epoch}), pc)
  {}

  lemma GoLiveInv(s: State, run: nat)
    requires Inv(s) && run in s.runs && Registered(s.runs[run]) && s.runs[run].epoch !in s.disposed
    ensures Inv(Finish(s.(live := s.live + {s.runs[run].epoch}), run))
  {
    var s' := Finish(s.(live := s.live + {s.runs[run].epoch}), run);
    assert RunOk(s, s.runs[run]);
    GoLiveSession(s, run);
    forall r | r in s'.runs ensures RunOk(s', s'.runs[r]) {
      GoLiveOther(s, s.runs[run].epoch, s.runs[r]);
      assert Apart(s.runs[r], s.runs[run]);
    }
    StillApart(s, run);
  }

  lemma {:induction false} ResumeInv(cfg: Config, s: State, run: nat, outcome: Outcome)
    requires Inv(s)
    ensures Inv(ResumeRun(cfg, s, run, outcome))
  {
    if run !in s.runs {
    } else if s.runs[run].AtGate? {
      AfterGateInv(s, run, outcome);
    } else if s.runs[run].epoch in s.disposed {
      FinishInv(s, run);
    } else {
      var s' := ResumeRun(cfg, s, run, outcome);
      AdvanceInv(cfg, s, run);
      if s' != ResumeRun(cfg, s, run, Passed) {
        AbandonInv(s, run, outcome.kind);
      }
    }
  }

  /** A run that goes on to its next await, or live. */
  lemma AdvanceInv(cfg: Config, s: State, run: nat)
    requires Inv(s) && run in s.runs && Registered(s.runs[run]) && s.runs[run].epoch !in s.disposed
    ensures Inv(ResumeRun(cfg, s, run, Passed))
  {
    var e := s.runs[run].epoch;
    var s' := ResumeRun(cfg, s, run, Passed);
    if s.runs[run].AtBackfill? {
      GoLiveInv(s, run);
    } else {
      var moved := s.(runs := s.runs[run := s'.runs[run]]);
      MoveInv(s, run, s'.runs[run]);
      CoreInv(moved, s');
    }
  }

  lemma OpenInv(cfg: Config, s: State, run: nat, syncing: bool)
    requires Inv(s) && run !in s.runs
    ensures Inv(OpenRun(cfg, s, run, syncing))
  {
    var s' := OpenRun(cfg, s, run, syncing);
    if s' == s {
    } else if cfg.agreement {
      forall r | r in s'.runs ensures RunOk(s', s'.runs[r]) {
        assert r != run ==> RunOk(s, s.runs[r]);
      }
      forall r, r' | r in s'.runs && r' in s'.runs && r != r' ensures Apart(s'.runs[r], s'.runs[r']) {
        assert r != run ==> RunOk(s, s.runs[r]);
        assert r' != run ==> RunOk(s, s.runs[r']);
        assert r != run && r' != run ==> Apart(s.runs[r], s.runs[r']);
      }
    } else {
      forall r | r in s.runs ensures r == run <==> s.runs[r].AtGate? {
        assert RunOk(s, s.runs[r]);
      }
      RegisterInv(s, run);
    }
  }

  /** The request that begins with a restart. */
  predicate Restarts(s: State, decision: Decision) {
    s.reconnect == None && decision == RestartNow && !s.authBlocked
  }

  /** The events that tear the engine down: the explicit ones, an auth or
      terminal error, the first sign of a degraded local database, and the
      beginning of a restart. */
  predicate Overtakes(s: State, ev: Event) {
    match ev
    case Teardown => true
    case Stop => true
    case AuthRaised(inError) => !inError
    case Error(kind) => kind == Auth || kind == Terminal || (kind == Degraded && !s.degraded)
    case Request(decision, _) => Restarts(s, decision)
    case Launch(decision, _) => s.launches > 0 && Restarts(s, decision)
    case RetryFires(decision, _) => s.retry && Restarts(s, decision)
    case Probed(probe) =>
      s.reconnect == Some(Probing)
      && (probe == Reachable || probe == Unreachable(Auth) || probe == Unreachable(Terminal))
    case _ => false
  }

  lemma RequestCore(s: State, decision: Decision, higher: bool)
    ensures SameCore(if Restarts(s, decision) then TearDown(s) else s, RequestReconnect(s, decision, higher))
  {}

  lemma ProbeCore(s: State, probe: Probe)
    ensures SameCore(if Overtakes(s, Probed(probe)) then TearDown(s) else s, AfterProbe(s, probe))
  {
    if probe.Unreachable? { FailCore(s, probe.kind); }
  }

  lemma ReopenInv(cfg: Config, s: State, run: nat, syncing: bool)
    requires Inv(s)
    ensures Inv(Reopen(cfg, s, run, syncing))
  {
    if run !in s.runs {
      OpenInv(cfg, s, run, syncing);
      if Reopen(cfg, s, run, syncing) != s {
        CoreInv(OpenRun(cfg, s, run, syncing), Reopen(cfg, s, run, syncing));
      }
    }
  }

  lemma {:induction false} StepInv(cfg: Config, s: State, ev: Event)
    requires Inv(s)
    ensures Inv(Step(cfg, s, ev))
  {
    match ev
    case Start(run, syncing) =>
      CoreInv(s, s.(authBlocked := false, degraded := false));
      if run !in s.runs {
        OpenInv(cfg, s.(authBlocked := false, degraded := false), run, syncing);
      }
    case Resume(run, outcome) => ResumeInv(cfg, s, run, outcome);
    case Reopened(run, syncing) => ReopenInv(cfg, s, run, syncing);
    case _ =>
      CoreOnly(cfg, s, ev);
      CoreOrDownInv(s, Step(cfg, s, ev));
  }

  /** Every other event leaves the core alone or tears it down. */
  lemma {:induction false} CoreOnly(cfg: Config, s: State, ev: Event)
    requires !ev.Start? && !ev.Resume? && !ev.Reopened?
    ensures SameCore(if Overtakes(s, ev) then TearDown(s) else s, Step(cfg, s, ev))
  {
    if ev.Probed? {
      ProbeCore(s, ev.probe);
    } else if ev.Error? {
      FailCore(s, ev.kind);
    } else if ev.Request? || ev.Launch? || ev.RetryFires? {
      RequestsCore(cfg, s, ev);
    }
  }

  lemma {:induction false} RequestsCore(cfg: Config, s: State, ev: Event)
    requires ev.Request? || ev.Launch? || ev.RetryFires?
    ensures SameCore(if Overtakes(s, ev) then TearDown(s) else s, Step(cfg, s, ev))
  {
    if ev.Request? {
      RequestCore(s, ev.decision, ev.higher);
    } else if ev.RetryFires? {
      RequestCore(s.(retry := false), ev.decision, ev.higher);
    } else if s.launches > 0 {
      RequestCore(s.(launches := s.launches - 1), ev.decision, ev.higher);
    }
  }

  lemma {:induction false} RunInv(cfg: Config, s: State, evs: seq<Event>)
    requires Inv(s)
    ensures Inv(Run(cfg, s, evs))
    decreases |evs|
  {
    if evs != [] {
      StepInv(cfg, s, evs[0]);
      RunInv(cfg, Step(cfg, s, evs[0]), evs[1..]);
    }
  }

  // ── What follows ───────────────────────────────────────

  /** In every run of the engine, two runs past registration never both hold a
      session that is not disposed, and the one that does finds it registered. */
  lemma RunsNeverClobber(cfg: Config, evs: seq<Event>, r: nat, r': nat)
    requires var s := Run(cfg, INIT, evs);
             r in s.runs && r' in s.runs && Registered(s.runs[r]) && Registered(s.runs[r'])
    requires var s := Run(cfg, INIT, evs); s.runs[r].epoch !in s.disposed && s.runs[r'].epoch !in s.disposed
    ensures r == r' && Run(cfg, INIT, evs).session == Some(Run(cfg, INIT, evs).runs[r].epoch)
  {
    RunInv(cfg, INIT, evs);
  }

  /** Only the registered session starts its live loops, and every session that
      went live before it is disposed by then. */
  lemma OnlyRegisteredGoesLive(cfg: Config, evs: seq<Event>, ev: Event, epoch: nat)
    requires var s := Run(cfg, INIT, evs); epoch in Step(cfg, s, ev).live && epoch !in s.live
    ensures var s := Run(cfg, INIT, evs); s.session == Some(epoch) && forall e :: e in s.live ==> e in s.disposed
  {
    RunInv(cfg, INIT, evs);
    GoesLive(cfg, Run(cfg, INIT, evs), ev, epoch);
  }

  /** Only the last step of a run that is not disposed starts live loops. */
  lemma {:induction false} GoesLive(cfg: Config, s: State, ev: Event, epoch: nat)
    requires epoch in Step(cfg, s, ev).live && epoch !in s.live
    ensures ev.Resume? && ev.run in s.runs && s.runs[ev.run] == AtBackfill(epoch) && epoch !in s.disposed
  {
    if ev.Resume? {
      if ev.run in s.runs { ResumeFrame(cfg, s, ev.run, ev.outcome); }
    } else if !ev.Start? && !ev.Reopened? {
      CoreOnly(cfg, s, ev);
    }
  }

  /** A failing run clears the registration of its own session only. */
  lemma FailureClearsOwnSession(cfg: Config, evs: seq<Event>, run: nat, outcome: Outcome)
    requires var s := Run(cfg, INIT, evs); s.session.Some? && ResumeRun(cfg, s, run, outcome).session != s.session
    ensures var s := Run(cfg, INIT, evs);
            run in s.runs && Registered(s.runs[run]) && s.session == Some(s.runs[run].epoch)
  {
    RunInv(cfg, INIT, evs);
  }

  /** Some event of the run overtakes, in the state it meets. */
  predicate Overtaken(cfg: Config, s: State, evs: seq<Event>)
    decreases |evs|
  {
    evs != [] && (Overtakes(s, evs[0]) || Overtaken(cfg, Step(cfg, s, evs[0]), evs[1..]))
  }

  /** An error moves no run, starts no loop and leaves latch and reconnect alone. */
  predicate Untouched(s: State, s': State) {
    && s'.runs == s.runs && s'.live == s.live && s'.opening == s.opening && s'.generation >= s.generation
    && s'.reconnect == s.reconnect && s'.queued == s.queued && s'.launches == s.launches
  }

  lemma FailFrame(s: State, kind: Kind)
    ensures Untouched(s, Fail(s, kind)) && Untouched(s, EnterError(s, kind))
  {}

  /** What a step of one run leaves alone: the other runs, the loops, the latch,
      and the reconnect in flight unless it awaits a run that ends. */
  predicate OnlyMoves(s: State, s': State, run: nat) {
    && s'.generation >= s.generation && s'.runs - {run} == s.runs - {run}
    && s'.live == s.live && (s'.opening ==> s.opening)
    && if s.reconnect == Some(Opening(run)) && run !in s'.runs
       then s'.reconnect == None && !s'.queued && s'.launches == s.launches + (if s.queued then 1 else 0)
       else s'.reconnect == s.reconnect && s'.queued == s.queued && s'.launches == s.launches
  }

  lemma UpdateMoves(m: map<nat, Pc>, run: nat, pc: Pc)
    ensures m[run := pc] - {run} == m - {run} == m - {run} - {run}
  {}

  lemma FinishFrame(s: State, run: nat)
    ensures OnlyMoves(s, Finish(s, run), run)
  {
    UpdateMoves(s.runs, run, AtGate(0));
  }

  lemma {:induction false} GateFrame(s: State, run: nat, generation: nat, outcome: Outcome)
    ensures OnlyMoves(s, AfterGate(s, run, generation, outcome), run)
        && !AfterGate(s, run, generation, outcome).opening
  {
    var free := s.(opening := false);
    FinishFrame(free, run);
    if s.generation == generation && outcome == Passed {
      UpdateMoves(s.runs, run, AtHealth(s.lastEpoch + 1));
    } else if s.generation == generation {
      FailFrame(Finish(free, run), outcome.kind);
    }
  }

  lemma {:induction false} AbandonFrame(s: State, run: nat, kind: Kind)
    ensures OnlyMoves(s, Abandon(s, run, kind), run)
  {
    FinishFrame(s.(session := None), run);
    FailFrame(Finish(s.(session := None), run), kind);
  }

  /** A step of one run moves only that run, takes no latch, and starts the loops
      of its own session in its last stretch. */
  lemma {:induction false} ResumeFrame(cfg: Config, s: State, run: nat, outcome: Outcome)
    requires run in s.runs
    ensures var s' := ResumeRun(cfg, s, run, outcome);
            && OnlyMoves(s, s'.(live := s.live), run)
            && (s.runs[run].AtGate? ==> !s'.opening)
            && (s'.live == s.live
                || (s.runs[run].AtBackfill? && s.runs[run].epoch !in s.disposed
                    && s'.live == s.live + {s.runs[run].epoch}))
  {
    if s.runs[run].AtGate? {
      GateFrame(s, run, s.runs[run].generation, outcome);
    } else if s.runs[run].epoch in s.disposed {
      FinishFrame(s, run);
    } else if s.runs[run].AtBackfill? {
      FinishFrame(s.(live := s.live + {s.runs[run].epoch}), run);
    } else {
      ContinueFrame(cfg, s, run, outcome);
    }
  }

  lemma {:induction false} ContinueFrame(cfg: Config, s: State, run: nat, outcome: Outcome)
    requires run in s.runs && Registered(s.runs[run]) && s.runs[run].epoch !in s.disposed && !s.runs[run].AtBackfill?
    ensures OnlyMoves(s, ResumeRun(cfg, s, run, outcome), run)
  {
    if outcome != Passed && CanFail(s.runs[run]) {
      AbandonFrame(s, run, outcome.kind);
    } else {
      UpdateMoves(s.runs, run, NextAwait(cfg, s.runs[run]));
    }
  }

  /** While a run waits at the gate no other run can fail with a session. */
  lemma GateStepGeneration(cfg: Config, s: State, run: nat, other: nat, outcome: Outcome)
    requires Inv(s) && run in s.runs && s.runs[run].AtGate? && other != run
    ensures ResumeRun(cfg, s, other, outcome).generation == s.generation
  {
    assert RunOk(s, s.runs[run]);
    if other in s.runs {
      assert RunOk(s, s.runs[other]) && Apart(s.runs[other], s.runs[run]);
    }
  }

  lemma {:induction false} StepWaitsAtGate(cfg: Config, s: State, ev: Event, run: nat)
    requires Inv(s) && run in s.runs && s.runs[run].AtGate? && !(ev.Resume? && ev.run == run)
    ensures var s' := Step(cfg, s, ev);
            && run in s'.runs && s'.runs[run] == s.runs[run]
            && s'.generation >= s.generation && (Overtakes(s, ev) <==> s'.generation > s.generation)
  {
    match ev
    case Resume(other, outcome) =>
      if other in s.runs {
        ResumeFrame(cfg, s, other, outcome);
        assert run in s.runs - {other} && (s.runs - {other})[run] == s.runs[run];
        GateStepGeneration(cfg, s, run, other, outcome);
      }
    case Reopened(other, syncing) => OpenAtGate(cfg, s, other, syncing, run);
    case Start(other, syncing) => OpenAtGate(cfg, s.(authBlocked := false, degraded := false), other, syncing, run);
    case _ => CoreOnly(cfg, s, ev);
  }

  /** The latch keeps every other open out. */
  lemma OpenAtGate(cfg: Config, s: State, other: nat, syncing: bool, run: nat)
    requires run in s.runs && RunOk(s, s.runs[run]) && s.runs[run].AtGate?
    ensures OpenRun(cfg, s, other, syncing) == s
  {}

  /** Events that are no step of `run` keep it at its gate, and the generation
      moves past the one the run saw exactly when one of them overtakes it. */
  lemma {:induction false} WaitsAtGate(cfg: Config, s: State, evs: seq<Event>, run: nat)
    requires Inv(s) && run in s.runs && s.runs[run].AtGate?
    requires forall k :: 0 <= k < |evs| ==> !(evs[k].Resume? && evs[k].run == run)
    ensures var s' := Run(cfg, s, evs);
            && run in s'.runs && s'.runs[run] == s.runs[run] && s'.generation >= s.generation
            && (Overtaken(cfg, s, evs) <==> s'.generation > s.generation)
    decreases |evs|
  {
    if evs != [] {
      StepWaitsAtGate(cfg, s, evs[0], run);
      StepInv(cfg, s, evs[0]);
      WaitsAtGate(cfg, Step(cfg, s, evs[0]), evs[1..], run);
    }
  }

  /** A run overtaken during the agreement check registers no session, arms no
      retry timer and changes nothing but its latch. */
  lemma OvertakenRunChangesNothing(cfg: Config, s: State, evs: seq<Event>, run: nat, outcome: Outcome)
    requires Inv(s) && run in s.runs && s.runs[run] == AtGate(s.generation)
    requires forall k :: 0 <= k < |evs| ==> !(evs[k].Resume? && evs[k].run == run)
    requires Overtaken(cfg, s, evs)
    ensures var s' := Run(cfg, s, evs); ResumeRun(cfg, s', run, outcome) == Finish(s'.(opening := false), run)
  {
    WaitsAtGate(cfg, s, evs, run);
  }

  /** A run that passes the agreement check registers its session exactly when
      nothing overtook it. */
  lemma RegistersUnlessOvertaken(cfg: Config, s: State, evs: seq<Event>, run: nat)
    requires Inv(s) && run in s.runs && s.runs[run] == AtGate(s.generation)
    requires forall k :: 0 <= k < |evs| ==> !(evs[k].Resume? && evs[k].run == run)
    ensures ResumeRun(cfg, Run(cfg, s, evs), run, Passed).session.Some? <==> !Overtaken(cfg, s, evs)
  {
    WaitsAtGate(cfg, s, evs, run);
    RunInv(cfg, s, evs);
    assert RunOk(Run(cfg, s, evs), s.runs[run]);
  }

  // ── The latch and the reconnect in flight ──────────────

  /** The latch is held exactly by a run that waits at the gate. */
  ghost predicate LatchHeld(s: State) {
    s.opening ==> exists r :: r in s.runs && s.runs[r].AtGate?
  }

  lemma {:induction false} OnlyOpenTakesLatch(cfg: Config, s: State, ev: Event)
    requires !s.opening && Step(cfg, s, ev).opening
    ensures (ev.Start? || ev.Reopened?) && ev.run in Step(cfg, s, ev).runs && Step(cfg, s, ev).runs[ev.run].AtGate?
  {
    match ev
    case Resume(run, outcome) => if run in s.runs { ResumeFrame(cfg, s, run, outcome); }
    case Start(_, _) =>
    case Reopened(_, _) =>
    case _ => CoreOnly(cfg, s, ev);
  }

  lemma {:induction false} LatchStep(cfg: Config, s: State, ev: Event)
    requires Inv(s) && LatchHeld(s)
    ensures LatchHeld(Step(cfg, s, ev))
  {
    var s' := Step(cfg, s, ev);
    if s.opening && s'.opening {
      var r :| r in s.runs && s.runs[r].AtGate?;
      if ev.Resume? && ev.run == r {
        ResumeFrame(cfg, s, r, ev.outcome);
      } else {
        StepWaitsAtGate(cfg, s, ev, r);
        assert s'.runs[r].AtGate?;
      }
    } else if s'.opening {
      OnlyOpenTakesLatch(cfg, s, ev);
    }
  }

  /** The reconnect that awaits an openSession run awaits one under way, and only
      a reconnect in flight has a queue. */
  predicate ReconnectOk(s: State) {
    && (s.reconnect.Some? && s.reconnect.value.Opening? ==> s.reconnect.value.run in s.runs)
    && (s.queued ==> s.reconnect.Some?)
  }

  lemma {:induction false} ReconnectStep(cfg: Config, s: State, ev: Event)
    requires ReconnectOk(s)
    ensures ReconnectOk(Step(cfg, s, ev))
  {
    match ev
    case Resume(run, outcome) =>
      if run in s.runs {
        ResumeFrame(cfg, s, run, outcome);
        KeepsAwaited(s, Step(cfg, s, ev), run);
      }
    case Start(run, syncing) => OpenKeepsRuns(cfg, s.(authBlocked := false, degraded := false), run, syncing);
    case Reopened(run, syncing) => OpenKeepsRuns(cfg, s, run, syncing);
    case _ =>
      CoreOnly(cfg, s, ev);
      OthersReconnect(cfg, s, ev);
  }

  lemma {:induction false} OthersReconnect(cfg: Config, s: State, ev: Event)
    requires !ev.Start? && !ev.Resume? && !ev.Reopened? && ReconnectOk(s)
    ensures var s' := Step(cfg, s, ev);
            && (s'.reconnect == s.reconnect || s'.reconnect.None? || !s'.reconnect.value.Opening?)
            && (s'.queued ==> s'.reconnect.Some?)
  {
    if ev.Error? {
      FailFrame(s, ev.kind);
    } else if ev.Probed? && ev.probe.Unreachable? {
      FailFrame(s, ev.probe.kind);
    }
  }

  lemma OpenKeepsRuns(cfg: Config, s: State, run: nat, syncing: bool)
    ensures var s' := OpenRun(cfg, s, run, syncing);
            s.runs.Keys <= s'.runs.Keys
            && s'.reconnect == s.reconnect && s'.queued == s.queued && s'.launches == s.launches
  {}

  lemma KeepsAwaited(s: State, s': State, run: nat)
    requires ReconnectOk(s) && run in s.runs && OnlyMoves(s, s'.(live := s.live), run)
    ensures ReconnectOk(s')
  {
    if s.reconnect.Some? && s.reconnect.value.Opening? && s.reconnect.value.run != run {
      assert s.reconnect.value.run in s.runs - {run};
      assert s.reconnect.value.run in s'.runs - {run};
    }
  }

  /** All that holds between any two steps. */
  ghost predicate Sound(s: State) {
    Inv(s) && LatchHeld(s) && ReconnectOk(s)
  }

  lemma {:induction false} StepSound(cfg: Config, s: State, ev: Event)
    requires Sound(s)
    ensures Sound(Step(cfg, s, ev))
  {
    StepInv(cfg, s, ev);
    LatchStep(cfg, s, ev);
    ReconnectStep(cfg, s, ev);
  }

  /** Every interleaving of the events keeps what holds between two steps. */
  lemma {:induction false} RunSound(cfg: Config, s: State, evs: seq<Event>)
    requires Sound(s)
    ensures Sound(Run(cfg, s, evs))
    decreases |evs|
  {
    if evs != [] {
      StepSound(cfg, s, evs[0]);
      RunSound(cfg, Step(cfg, s, evs[0]), evs[1..]);
    }
  }
}
