/** The composition gate as steps between awaits. */
module CompositionSteps {
  // Deferred writes of a path run in order, one at a time, while nobody composes in
  // it (src/sync/composition-gate.ts).

  import opened Utf16
  import opened Sequences
  import opened Wrappers

  /** A deferred write; every call of `defer` makes a new one. */
  type Op = nat

  /** A drain that awaits `running`. */
  datatype Drain = Drain(force: bool, running: Op)

  /** One path of the gate, and what has happened to its writes so far. */
  datatype PathState = PathState(
    queue: seq<Op>,
    timer: bool,
    drain: Option<Drain>,
    composing: bool,
    deferred: seq<Op>,
    begun: seq<Op>,
    finished: seq<Op>,
    cancelled: set<Op>)

  const FRESH: PathState := PathState([], false, None, false, [], [], [], {})

  datatype State = State(started: bool, paths: map<Text, PathState>)

  datatype PathEvent = Defer(op: Op) | EntryDone | Begin | End | ForceFlush | Timeout

  datatype Event = On(path: Text, ev: PathEvent) | FlushAll | Start | Stop

  function At(s: State, path: Text): PathState {
    if path in s.paths then s.paths[path] else FRESH
  }

  // ── Steps of one path ──────────────────────────────────

  /** One turn of the drain loop: begin the next write or leave. */
  function Advance(s: PathState, force: bool): PathState {
    if s.queue == [] then s.(drain := None, timer := false)
    else if !force && s.composing then s.(drain := None)
    else s.(queue := s.queue[1..], drain := Some(Drain(force, s.queue[0])), begun := s.begun + [s.queue[0]])
  }

  function RunQueue(s: PathState, force: bool): PathState {
    if s.drain.Some? then s else Advance(s, force)
  }

  predicate Enabled(s: PathState, ev: PathEvent) {
    match ev
    case Defer(op) => op !in s.deferred
    case EntryDone => s.drain.Some?
    case Timeout => s.timer
    case _ => true
  }

  function PathStep(s: PathState, started: bool, ev: PathEvent): PathState {
    if !Enabled(s, ev) then s
    else
      match ev
      case Defer(op) => RunQueue(s.(queue := s.queue + [op], timer := true, deferred := s.deferred + [op]), false)
      case EntryDone => Advance(s.(finished := s.finished + [s.drain.value.running]), s.drain.value.force)
      case Begin => s.(composing := true)
      case End => if started then RunQueue(s.(composing := false), false) else s.(composing := false)
      case ForceFlush => RunQueue(s, true)
      case Timeout => RunQueue(s.(timer := false), true)
  }

  function Flush(s: PathState): PathState {
    s.(timer := false, queue := [], cancelled := s.cancelled + Members(s.queue))
  }

  function Step(s: State, ev: Event): State {
    match ev
    case On(path, pev) => s.(paths := s.paths[path := PathStep(At(s, path), s.started, pev)])
    case FlushAll => s.(paths := map p | p in s.paths :: Flush(s.paths[p]))
    case Start => s.(started := true)
    case Stop => s.(started := false, paths := map p | p in s.paths :: s.paths[p].(timer := false))
  }

  const INIT: State := State(false, map[])

  function Run(evs: seq<Event>): State {
    if evs == [] then INIT else Step(Run(evs[..|evs| - 1]), evs[|evs| - 1])
  }

  // ── Order, one at a time, exactly once ─────────────────

  /** The writes that were not cancelled, in the order they were deferred. */
  function Kept(ops: seq<Op>, cancelled: set<Op>): (r: seq<Op>) {
    if ops == [] then []
    else Kept(ops[..|ops| - 1], cancelled) + if ops[|ops| - 1] in cancelled then [] else [ops[|ops| - 1]]
  }

  function Running(s: PathState): seq<Op> {
    if s.drain.Some? then [s.drain.value.running] else []
  }

  ghost predicate PathInv(s: PathState) {
    && NoDup(s.deferred)
    && (forall op :: op in s.cancelled ==> op in s.deferred)
    && Kept(s.deferred, s.cancelled) == s.begun + s.queue
    && s.begun == s.finished + Running(s)
  }

  lemma {:induction false} KeptMembers(ops: seq<Op>, cancelled: set<Op>)
    requires NoDup(ops)
    ensures NoDup(Kept(ops, cancelled))
    ensures forall op :: op in Kept(ops, cancelled) <==> op in ops && op !in cancelled
  {
    if ops != [] {
      var n := |ops| - 1;
      KeptMembers(ops[..n], cancelled);
      assert ops == ops[..n] + [ops[n]];
    }
  }

  lemma {:induction false} KeptSame(ops: seq<Op>, a: set<Op>, b: set<Op>)
    requires forall op :: op in ops ==> (op in a <==> op in b)
    ensures Kept(ops, a) == Kept(ops, b)
  {
    if ops != [] {
      KeptSame(ops[..|ops| - 1], a, b);
    }
  }

  /** Cancelling also `q` drops it from the kept ones. */
  lemma {:induction false} KeptTwice(ops: seq<Op>, a: set<Op>, b: set<Op>)
    ensures Kept(ops, a + b) == Kept(Kept(ops, a), b)
  {
    if ops != [] {
      var n := |ops| - 1;
      KeptTwice(ops[..n], a, b);
      var k := Kept(ops[..n], a);
      if ops[n] !in a {
        assert (k + [ops[n]])[..|k|] == k;
      } else {
        assert k + [] == k;
      }
    }
  }

  lemma {:induction false} KeptFront(front: seq<Op>, back: seq<Op>, cancelled: set<Op>)
    requires forall op :: op in front ==> op !in cancelled
    requires forall op :: op in back ==> op in cancelled
    ensures Kept(front + back, cancelled) == front
  {
    if back != [] {
      var n := |back| - 1;
      assert (front + back)[..|front| + n] == front + back[..n];
      KeptFront(front, back[..n], cancelled);
    } else if front != [] {
      var n := |front| - 1;
      assert front + back == front && front + [] == front;
      KeptFront(front[..n], [], cancelled);
      assert front[..n] + [] == front[..n];
    } else {
      assert front + back == [];
    }
  }

  lemma AdvanceInv(s: PathState, force: bool)
    requires PathInv(s.(drain := None))
    ensures PathInv(Advance(s, force))
  {
    if s.queue != [] && (force || !s.composing) {
      assert s.begun + s.queue == s.begun + [s.queue[0]] + s.queue[1..];
    }
  }

  lemma DeferInv(s: PathState, op: Op)
    requires PathInv(s) && op !in s.deferred
    ensures PathInv(s.(queue := s.queue + [op], timer := true, deferred := s.deferred + [op]))
  {}

  lemma {:induction false} PathStepInv(s: PathState, started: bool, ev: PathEvent)
    requires PathInv(s)
    ensures PathInv(PathStep(s, started, ev))
  {
    if Enabled(s, ev) {
      match ev
      case Defer(op) =>
        var s' := s.(queue := s.queue + [op], timer := true, deferred := s.deferred + [op]);
        DeferInv(s, op);
        if s'.drain == None { AdvanceInv(s', false); }
      case EntryDone => AdvanceInv(s.(finished := s.finished + [s.drain.value.running]), s.drain.value.force);
      case End => if s.drain == None { AdvanceInv(s.(composing := false), false); }
      case ForceFlush => if s.drain == None { AdvanceInv(s, true); }
      case Timeout => if s.drain == None { AdvanceInv(s.(timer := false), true); }
      case Begin =>
    }
  }

  /** A flush cancels exactly the queued writes, none of which ran or was
      cancelled before. */
  lemma {:induction false} FlushInv(s: PathState)
    requires PathInv(s)
    ensures PathInv(Flush(s))
    ensures forall op :: op in s.queue ==> op !in s.begun && op !in s.cancelled
  {
    QueuedAreNew(s);
    FlushedKept(s);
  }

  lemma {:induction false} QueuedAreNew(s: PathState)
    requires PathInv(s)
    ensures forall op :: op in s.queue ==> op in s.deferred && op !in s.begun && op !in s.cancelled
  {
    KeptMembers(s.deferred, s.cancelled);
    NoDupParts(s.begun, s.queue);
    assert forall op :: op in s.begun + s.queue <==> op in s.begun || op in s.queue;
  }

  lemma {:induction false} FlushedKept(s: PathState)
    requires PathInv(s) && forall op :: op in s.queue ==> op !in s.begun
    ensures Kept(s.deferred, s.cancelled + Members(s.queue)) == s.begun + []
  {
    var q := Members(s.queue);
    assert forall op :: op in q <==> op in s.queue;
    KeptTwice(s.deferred, s.cancelled, q);
    KeptFront(s.begun, s.queue, q);
    assert s.begun + [] == s.begun;
  }

  lemma NoDupParts(a: seq<Op>, b: seq<Op>)
    requires NoDup(a + b)
    ensures forall op :: op in b ==> op !in a
  {
    forall op | op in b ensures op !in a {
      var j :| 0 <= j < |b| && b[j] == op;
      assert (a + b)[|a| + j] == op;
      assert forall i :: 0 <= i < |a| ==> (a + b)[i] == a[i];
    }
  }

  ghost predicate Inv(s: State) {
    forall p :: p in s.paths ==> PathInv(s.paths[p])
  }

  lemma {:induction false} StepInv(s: State, ev: Event)
    requires Inv(s)
    ensures Inv(Step(s, ev))
  {
    match ev
    case On(path, pev) => PathStepInv(At(s, path), s.started, pev);
    case FlushAll =>
      forall p | p in s.paths ensures PathInv(Flush(s.paths[p])) {
        FlushInv(s.paths[p]);
      }
    case _ =>
  }

  lemma {:induction false} RunInv(evs: seq<Event>)
    ensures Inv(Run(evs))
  {
    if evs != [] {
      RunInv(evs[..|evs| - 1]);
      StepInv(Run(evs[..|evs| - 1]), evs[|evs| - 1]);
    }
  }

  /** In every interleaving, the writes of a path that were not cancelled are,
      in the order they were deferred: those that finished, then at most one
      that runs, then those that wait. */
  lemma {:induction false} WritesRunInOrder(evs: seq<Event>, path: Text)
    ensures var s := At(Run(evs), path);
            Kept(s.deferred, s.cancelled) == s.finished + Running(s) + s.queue
  {
    RunInv(evs);
  }

  /** Every deferred write is in exactly one place, and there only once: begun,
      cancelled, or waiting. */
  lemma {:induction false} RunOrCancelledOnce(evs: seq<Event>, path: Text, op: Op)
    ensures var s := At(Run(evs), path);
            && NoDup(s.begun + s.queue)
            && (op in s.cancelled ==> op !in s.begun && op !in s.queue)
            && (op in s.deferred <==> op in s.begun || op in s.queue || op in s.cancelled)
  {
    RunInv(evs);
    var s := At(Run(evs), path);
    KeptMembers(s.deferred, s.cancelled);
    assert op in s.begun + s.queue <==> op in s.begun || op in s.queue;
  }

  // ── No write is forgotten ──────────────────────────────

  /** A non-empty queue that nobody drains is held by a composition. */
  predicate Held(s: PathState) {
    s.queue != [] && s.drain == None ==> s.composing
  }

  /** The one event that forgets a queue: a composition ends while the gate is
      stopped, for nobody listens then. */
  predicate Forgets(s: State, path: Text, ev: Event) {
    var p := At(s, path);
    ev == On(path, End) && !s.started && p.queue != [] && p.drain == None
  }

  lemma HeldExactly(s: State, path: Text, ev: Event)
    requires Held(At(s, path))
    ensures Held(At(Step(s, ev), path)) <==> !Forgets(s, path, ev)
  {}

  /** Compositions end only while the gate is started. */
  ghost predicate EndsHeard(evs: seq<Event>) {
    forall k :: 0 <= k < |evs| && evs[k].On? && evs[k].ev == End ==> Run(evs[..k]).started
  }

  lemma {:induction false} NoWriteForgotten(evs: seq<Event>, path: Text)
    requires EndsHeard(evs)
    ensures Held(At(Run(evs), path))
  {
    if evs != [] {
      var n := |evs| - 1;
      forall k | 0 <= k < n && evs[..n][k].On? && evs[..n][k].ev == End ensures Run(evs[..n][..k]).started {
        assert evs[..n][..k] == evs[..k];
      }
      NoWriteForgotten(evs[..n], path);
      HeldExactly(Run(evs[..n]), path, evs[n]);
    }
  }

  function PathRun(s: PathState, started: bool, evs: seq<PathEvent>): PathState
    decreases |evs|
  {
    if evs == [] then s else PathRun(PathStep(s, started, evs[0]), started, evs[1..])
  }

  // ── When a write begins ────────────────────────────────

  /** A step begins at most one write, the first that waits. It does so while the
      path composes only in a forced drain, and none but the forced flush and the
      timer start such a drain. */
  lemma {:induction false} BeginsExactly(s: State, path: Text, ev: Event)
    ensures var p, t := At(s, path), At(Step(s, ev), path);
            && (t.begun == p.begun
                || (t.drain.Some? && t.begun == p.begun + [t.drain.value.running]
                    && (t.composing ==> Forced(t))))
            && (Forced(t) && !Forced(p) ==> p.drain == None && (ev == On(path, ForceFlush) || ev == On(path, Timeout)))
            && (Forced(p) && !Forced(t) ==> t.drain == None && ev == On(path, EntryDone))
  {
    if ev.On? && ev.path == path {
      PathBegins(At(s, path), s.started, ev.ev);
    }
  }

  lemma {:induction false} PathBegins(p: PathState, started: bool, ev: PathEvent)
    ensures var t := PathStep(p, started, ev);
            && (t.begun == p.begun
                || (t.drain.Some? && t.begun == p.begun + [t.drain.value.running]
                    && (t.composing ==> Forced(t))))
            && (Forced(t) && !Forced(p) ==> p.drain == None && (ev == ForceFlush || ev == Timeout))
            && (Forced(p) && !Forced(t) ==> t.drain == None && ev == EntryDone)
  {}

  /** A path composes from the beginning of a composition to its end, heard or not,
      and the gate listens from a start to a stop. */
  lemma {:induction false} ComposingExactly(s: State, path: Text, ev: Event)
    ensures var p, t := At(s, path), At(Step(s, ev), path);
            t.composing == (ev == On(path, Begin) || (p.composing && ev != On(path, End)))
    ensures Step(s, ev).started == (ev == Start || (s.started && ev != Stop))
  {}

  /** A flush empties every queue, cancels what was in it and stops the timers, and
      leaves the writes that run alone. */
  lemma FlushEmptiesAll(s: State, path: Text)
    ensures var p, t := At(s, path), At(Step(s, FlushAll), path);
            && t.queue == [] && !t.timer && t.drain == p.drain && t.begun == p.begun && t.finished == p.finished
            && forall op :: op in t.cancelled <==> op in p.cancelled || op in p.queue
  {}

  /** Paths do not wait for each other. */
  lemma OtherPathsKeep(s: State, path: Text, ev: Event)
    requires ev.On? && ev.path != path
    ensures At(Step(s, ev), path) == At(s, path)
  {}

  // ── The forced drain ───────────────────────────────────

  predicate Forced(s: PathState) {
    s.drain.Some? && s.drain.value.force
  }

  /** What the gate does from a state on. */
  function RunFrom(s: State, evs: seq<Event>): State
    decreases |evs|
  {
    if evs == [] then s else RunFrom(Step(s, evs[0]), evs[1..])
  }

  lemma {:induction false} RunGoesOn(evs: seq<Event>, later: seq<Event>)
    ensures RunFrom(Run(evs), later) == Run(evs + later)
    decreases |later|
  {
    if later == [] {
      assert evs + later == evs;
    } else {
      assert (evs + [later[0]])[..|evs|] == evs;
      assert evs + later == evs + [later[0]] + later[1..];
      RunGoesOn(evs + [later[0]], later[1..]);
    }
  }

  /** How often a write of `path` is reported finished. */
  function Turns(evs: seq<Event>, path: Text): nat
    decreases |evs|
  {
    if evs == [] then 0 else (if evs[0] == On(path, EntryDone) then 1 else 0) + Turns(evs[1..], path)
  }

  lemma {:induction false} FinishedGrows(s: State, path: Text, evs: seq<Event>)
    ensures At(s, path).finished <= At(RunFrom(s, evs), path).finished
    decreases |evs|
  {
    if evs != [] {
      assert At(s, path).finished <= At(Step(s, evs[0]), path).finished;
      FinishedGrows(Step(s, evs[0]), path, evs[1..]);
    }
  }

  /** What is ahead of a forced drain: the writes finished, running and queued. */
  function Ahead(s: PathState): seq<Op> {
    s.finished + Running(s) + s.queue
  }

  /** Nothing but the end of its write moves a forced drain. */
  lemma {:induction false} ForcedStep(s: State, path: Text, ev: Event)
    requires Forced(At(s, path)) && ev != FlushAll && ev != On(path, EntryDone)
    ensures var p, t := At(s, path), At(Step(s, ev), path);
            && t.drain == p.drain && t.finished == p.finished && p.queue <= t.queue
            && (!(ev.On? && ev.path == path && ev.ev.Defer?) ==> t.queue == p.queue)
  {}

  lemma {:induction false} ForcedTurn(s: State, path: Text)
    requires Forced(At(s, path))
    ensures var p, t := At(s, path), At(Step(s, On(path, EntryDone)), path);
            && t.finished == p.finished + Running(p)
            && if p.queue == [] then t.drain == None && t.queue == [] && !t.timer
               else Forced(t) && t.queue == p.queue[1..] && Running(t) == [p.queue[0]]
  {}

  /** Whatever else happens in any path, short of a flush, a forced drain finishes
      the first `n` writes of its queue, in order, in `n + 1` turns. */
  lemma {:induction false} ForcedDrainRuns(s: State, path: Text, evs: seq<Event>, n: nat)
    requires Forced(At(s, path)) && n <= |At(s, path).queue| && n < Turns(evs, path)
    requires forall k :: 0 <= k < |evs| ==> evs[k] != FlushAll
    ensures var p := At(s, path); p.finished + Running(p) + p.queue[..n] <= At(RunFrom(s, evs), path).finished
    decreases |evs|
  {
    var p, s' := At(s, path), Step(s, evs[0]);
    if evs[0] != On(path, EntryDone) {
      ForcedStep(s, path, evs[0]);
      assert At(s', path).queue[..n] == p.queue[..n];
      ForcedDrainRuns(s', path, evs[1..], n);
    } else {
      ForcedTurn(s, path);
      if n == 0 {
        FinishedGrows(s', path, evs[1..]);
      } else {
        ForcedDrainRuns(s', path, evs[1..], n - 1);
        assert p.queue[..n] == [p.queue[0]] + p.queue[1..][..n - 1];
      }
    }
  }

  /** A forced drain runs everything that was queued, in order, composition or not,
      while writes are deferred, compositions begin and end, timers fire and the
      gate starts and stops. */
  lemma {:induction false} ForcedDrainRunsAll(s: State, path: Text, evs: seq<Event>)
    requires Forced(At(s, path)) && |At(s, path).queue| < Turns(evs, path)
    requires forall k :: 0 <= k < |evs| ==> evs[k] != FlushAll
    ensures Ahead(At(s, path)) <= At(RunFrom(s, evs), path).finished
  {
    var p := At(s, path);
    ForcedDrainRuns(s, path, evs, |p.queue|);
    assert p.queue[..|p.queue|] == p.queue;
  }

  /** And unless a write is deferred meanwhile it leaves with nothing queued. */
  lemma {:induction false} ForcedDrainLeaves(s: State, path: Text, evs: seq<Event>)
    requires Forced(At(s, path)) && |At(s, path).queue| < Turns(evs, path)
    requires forall k :: 0 <= k < |evs| ==>
               evs[k] != FlushAll && !(evs[k].On? && evs[k].path == path && evs[k].ev.Defer?)
    ensures var t := At(RunFrom(s, evs), path);
            t.queue == [] && t.drain == None && !t.timer && t.finished == Ahead(At(s, path))
    decreases |evs|
  {
    var p, s' := At(s, path), Step(s, evs[0]);
    if evs[0] != On(path, EntryDone) {
      ForcedStep(s, path, evs[0]);
      ForcedDrainLeaves(s', path, evs[1..]);
    } else {
      ForcedTurn(s, path);
      if p.queue == [] {
        IdleStays(s', path, evs[1..]);
        assert Ahead(p) == p.finished + Running(p);
      } else {
        ForcedDrainLeaves(s', path, evs[1..]);
        assert Ahead(At(s', path)) == Ahead(p);
      }
    }
  }

  /** A path with nothing queued stays so until a write is deferred. */
  lemma {:induction false} IdleStays(s: State, path: Text, evs: seq<Event>)
    requires var p := At(s, path); p.queue == [] && p.drain == None && !p.timer
    requires forall k :: 0 <= k < |evs| ==>
               evs[k] != FlushAll && !(evs[k].On? && evs[k].path == path && evs[k].ev.Defer?)
    ensures var t := At(RunFrom(s, evs), path);
            t.queue == [] && t.drain == None && !t.timer && t.finished == At(s, path).finished
    decreases |evs|
  {
    if evs != [] {
      IdleStays(Step(s, evs[0]), path, evs[1..]);
    }
  }

  // ── The time limit ─────────────────────────────────────

  /** Writes that no forced drain is running have the timer armed. */
  predicate Limited(s: PathState) {
    s.queue != [] && !Forced(s) ==> s.timer
  }

  /** The events that take the limit from waiting writes: the timer fires during
      a drain that a composition can stop, or the gate is stopped. */
  predicate LosesLimit(s: State, path: Text, ev: Event) {
    var p := At(s, path);
    p.queue != [] && !Forced(p) && (
      match ev
      case On(q, pev) => q == path && pev == Timeout && p.timer && p.drain.Some?
      case Stop => true
      case _ => false)
  }

  /** They, and no others. */
  lemma LimitLostExactly(s: State, path: Text, ev: Event)
    requires Limited(At(s, path))
    ensures Limited(At(Step(s, ev), path)) <==> !LosesLimit(s, path, ev)
  {}

  /** No event of the run takes the limit from writes of `path`. */
  ghost predicate LimitKept(evs: seq<Event>, path: Text) {
    forall k :: 0 <= k < |evs| ==> !LosesLimit(Run(evs[..k]), path, evs[k])
  }

  lemma {:induction false} WaitingIsLimited(evs: seq<Event>, path: Text)
    requires LimitKept(evs, path)
    ensures Limited(At(Run(evs), path))
  {
    if evs != [] {
      var n := |evs| - 1;
      forall k | 0 <= k < n ensures !LosesLimit(Run(evs[..n][..k]), path, evs[..n][k]) {
        assert evs[..n][..k] == evs[..k];
      }
      WaitingIsLimited(evs[..n], path);
      assert evs[..n] == evs[..|evs| - 1];
      LimitLostExactly(Run(evs[..n]), path, evs[n]);
    }
  }

  /** A timer that fires with no drain under way runs everything queued. */
  lemma {:induction false} TimerRunsAll(s: State, path: Text, later: seq<Event>)
    requires var p := At(s, path);
             p.timer && p.queue != [] && p.drain == None && |p.queue| <= Turns(later, path)
    requires forall k :: 0 <= k < |later| ==> later[k] != FlushAll
    ensures var p, t := At(s, path), At(RunFrom(Step(s, On(path, Timeout)), later), path);
            p.finished + p.queue <= t.finished
  {
    var p, fired := At(s, path), Step(s, On(path, Timeout));
    assert At(fired, path).queue == p.queue[1..] && Running(At(fired, path)) == [p.queue[0]];
    ForcedDrainRunsAll(fired, path, later);
    assert Ahead(At(fired, path)) == p.finished + p.queue;
  }

  /** What the limit is worth: writes that wait with no drain under way have a
      timer, and once it fires all of them run, in order, composition or not, as
      soon as that many writes have had their turn; only a flush can stop them. */
  lemma {:induction false} LimitedWritesRun(evs: seq<Event>, path: Text, later: seq<Event>)
    requires LimitKept(evs, path) && At(Run(evs), path).queue != [] && At(Run(evs), path).drain == None
    requires |At(Run(evs), path).queue| <= Turns(later, path)
    requires forall k :: 0 <= k < |later| ==> later[k] != FlushAll
    ensures var s, t := At(Run(evs), path), At(Run(evs + [On(path, Timeout)] + later), path);
            s.timer && s.finished + s.queue <= t.finished
  {
    WaitingIsLimited(evs, path);
    TimerRunsAll(Run(evs), path, later);
    assert (evs + [On(path, Timeout)])[..|evs|] == evs;
    RunGoesOn(evs + [On(path, Timeout)], later);
  }

  /** A timer that fires during a drain is spent without effect: a write can
      then wait for a composition with no drain and no timer. */
  lemma SpentTimerLeavesWriteWaiting()
    ensures var s := PathRun(FRESH, true, [Defer(0), Defer(1), Begin, Timeout, EntryDone]);
            s.queue == [1] && s.drain == None && s.composing && !s.timer
  {}

  /** So it does after the gate was stopped, though no timer ever fired. */
  lemma {:induction false} StopLeavesWriteUntimed(path: Text)
    ensures var s := At(Run([On(path, Begin), On(path, Defer(0)), Stop]), path);
            s.queue == [0] && s.drain == None && s.composing && !s.timer
  {
    var evs := [On(path, Begin), On(path, Defer(0)), Stop];
    RunGoesOn([], evs);
    assert [] + evs == evs;
    RunThree(INIT, On(path, Begin), On(path, Defer(0)), Stop);
  }

  lemma {:induction false} RunThree(s: State, a: Event, b: Event, c: Event)
    ensures RunFrom(s, [a, b, c]) == Step(Step(Step(s, a), b), c)
  {
    assert [a, b, c][1..] == [b, c] && [b, c][1..] == [c] && [c][1..] == [];
    assert RunFrom(s, [a, b, c]) == RunFrom(Step(s, a), [b, c]) == RunFrom(Step(Step(s, a), b), [c]);
    assert RunFrom(Step(Step(s, a), b), [c]) == RunFrom(Step(Step(Step(s, a), b), c), []);
  }

  /** A composition that ends while the gate is stopped leaves its write behind:
      nothing runs it, nothing composes and no timer is armed. */
  lemma {:induction false} UnheardEndForgetsWrite(path: Text)
    ensures var s := At(Run([Start, On(path, Begin), On(path, Defer(0)), Stop, On(path, End)]), path);
            s.queue == [0] && s.drain == None && !s.composing && !s.timer
  {
    var first, second := [Start, On(path, Begin), On(path, Defer(0))], [Stop, On(path, End)];
    RunGoesOn([], first);
    assert [] + first == first;
    RunThree(INIT, Start, On(path, Begin), On(path, Defer(0)));
    RunGoesOn(first, second);
    assert second[1..] == [On(path, End)];
    assert first + second == [Start, On(path, Begin), On(path, Defer(0)), Stop, On(path, End)];
    var s := Step(Run(first), Stop);
    assert [On(path, End)][1..] == [];
    assert RunFrom(Run(first), second) == RunFrom(s, second[1..]);
    assert RunFrom(s, [On(path, End)]) == RunFrom(Step(s, On(path, End)), []) == Step(s, On(path, End));
    assert At(Run(first), path).queue == [0] && At(Run(first), path).drain == None;
    assert At(s, path) == At(Run(first), path).(timer := false);
  }
}
