/** The gate's own fields and methods (src/sync/composition-gate.ts). A method
    covers one stretch between awaits: `EntryDone` is what follows an
    `await entry.run()` inside the drain loop. */
module CompositionGate {
  import opened Utf16
  import opened Sequences
  import opened Wrappers
  import opened CompositionSteps

  /** What has happened to a path's writes. */
  datatype Log = Log(deferred: seq<Op>, begun: seq<Op>, finished: seq<Op>, cancelled: set<Op>)

  class CompositionGate {
    var deferred: map<Text, seq<Op>>
    var timers: set<Text>
    var draining: map<Text, Drain>
    var subscribed: bool
    /** The tracker's answer to `isComposing`. */
    var composing: set<Text>
    ghost var logs: map<Text, Log>

    constructor ()
      ensures forall p :: PathOf(p) == FRESH
      ensures !subscribed
    {
      deferred, timers, draining, subscribed, composing, logs := map[], {}, map[], false, {}, map[];
    }

    function Queue(path: Text): seq<Op>
      reads this
    {
      if path in deferred then deferred[path] else []
    }

    ghost function LogOf(path: Text): Log
      reads this
    {
      if path in logs then logs[path] else Log([], [], [], {})
    }

    ghost function PathOf(path: Text): PathState
      reads this
    {
      var log := LogOf(path);
      PathState(Queue(path), path in timers, if path in draining then Some(draining[path]) else None, path in composing,
                log.deferred, log.begun, log.finished, log.cancelled)
    }

    method Start()
      modifies this
      ensures subscribed && forall p :: PathOf(p) == old(PathOf(p))
    {
      if subscribed {
        return;
      }
      subscribed := true;
    }

    method Stop()
      modifies this
      ensures !subscribed && forall p :: PathOf(p) == old(PathOf(p)).(timer := false)
    {
      subscribed := false;
      timers := {};
    }

    method Defer(path: Text, op: Op)
      requires op !in PathOf(path).deferred
      modifies this
      ensures PathOf(path) == PathStep(old(PathOf(path)), old(subscribed), PathEvent.Defer(op))
      ensures subscribed == old(subscribed) && forall p :: p != path ==> PathOf(p) == old(PathOf(p))
    {
      logs := logs[path := LogOf(path).(deferred := LogOf(path).deferred + [op])];
      deferred := deferred[path := Queue(path) + [op]];
      ArmTimer(path);
      RunQueue(path, false);
    }

    method ForceFlush(path: Text)
      modifies this
      ensures PathOf(path) == PathStep(old(PathOf(path)), old(subscribed), PathEvent.ForceFlush)
      ensures subscribed == old(subscribed) && forall p :: p != path ==> PathOf(p) == old(PathOf(p))
    {
      RunQueue(path, true);
    }

    method FlushAll()
      modifies this
      ensures subscribed == old(subscribed) && forall p :: PathOf(p) == Flush(old(PathOf(p)))
    {
      timers := {};
      logs := map p | p in logs.Keys + deferred.Keys ::
                LogOf(p).(cancelled := LogOf(p).cancelled + Members(Queue(p)));
      deferred := map[];
      forall p ensures PathOf(p) == Flush(old(PathOf(p))) {
        assert Members<Op>([]) == {};
        assert p in logs ==> LogOf(p) == old(LogOf(p).(cancelled := LogOf(p).cancelled + Members(Queue(p))));
      }
    }

    method ArmTimer(path: Text)
      modifies this
      ensures PathOf(path) == old(PathOf(path)).(timer := true)
      ensures subscribed == old(subscribed) && forall p :: p != path ==> PathOf(p) == old(PathOf(p))
    {
      if path in timers {
        return;
      }
      timers := timers + {path};
    }

    method TimerFires(path: Text)
      requires path in timers
      modifies this
      ensures PathOf(path) == PathStep(old(PathOf(path)), old(subscribed), Timeout)
      ensures subscribed == old(subscribed) && forall p :: p != path ==> PathOf(p) == old(PathOf(p))
    {
      timers := timers - {path};
      RunQueue(path, true);
    }

    /** The tracker sees a composition begin. */
    method CompositionBegins(path: Text)
      modifies this
      ensures PathOf(path) == PathStep(old(PathOf(path)), old(subscribed), Begin)
      ensures subscribed == old(subscribed) && forall p :: p != path ==> PathOf(p) == old(PathOf(p))
    {
      composing := composing + {path};
    }

    /** The tracker sees a composition end and tells the gate if it listens. */
    method CompositionEnds(path: Text)
      modifies this
      ensures PathOf(path) == PathStep(old(PathOf(path)), old(subscribed), End)
      ensures subscribed == old(subscribed) && forall p :: p != path ==> PathOf(p) == old(PathOf(p))
    {
      composing := composing - {path};
      if subscribed {
        RunQueue(path, false);
      }
    }

    method RunQueue(path: Text, force: bool)
      modifies this
      ensures PathOf(path) == CompositionSteps.RunQueue(old(PathOf(path)), force)
      ensures subscribed == old(subscribed) && forall p :: p != path ==> PathOf(p) == old(PathOf(p))
    {
      if path in draining {
        return;
      }
      Turn(path, force);
    }

    /** The awaited write of the drain of `path` is over. */
    method EntryDone(path: Text)
      requires path in draining
      modifies this
      ensures PathOf(path) == PathStep(old(PathOf(path)), old(subscribed), PathEvent.EntryDone)
      ensures subscribed == old(subscribed) && forall p :: p != path ==> PathOf(p) == old(PathOf(p))
    {
      var drain := draining[path];
      logs := logs[path := LogOf(path).(finished := LogOf(path).finished + [drain.running])];
      Turn(path, drain.force);
    }

    /** One turn of the drain loop, up to the next await or the way out. */
    method Turn(path: Text, force: bool)
      modifies this
      ensures PathOf(path) == Advance(old(PathOf(path)), force)
      ensures subscribed == old(subscribed) && forall p :: p != path ==> PathOf(p) == old(PathOf(p))
    {
      var queue := Queue(path);
      if queue != [] && (force || path !in composing) {
        var entry := queue[0];
        deferred := deferred[path := queue[1..]];
        draining := draining[path := Drain(force, entry)];
        logs := logs[path := LogOf(path).(begun := LogOf(path).begun + [entry])];
        return;
      }
      if queue == [] {
        deferred := deferred - {path};
        timers := timers - {path};
      }
      draining := draining - {path};
    }
  }
}
