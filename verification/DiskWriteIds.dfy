/** The disk-write-id protocol. */
module DiskWriteIds {
  // Many config stores share one id through one settings record
  // (src/sync/config-binding.ts); the process may crash between any two writes.

  import opened Utf16
  import opened Wrappers

  type Id = Text

  type StoreKey = Text

  /** One config store: the id its bases are valid for, and per path the moment
      at which the disk last took in the shared version. */
  datatype Store = Store(stamp: Option<Id>, bases: map<Text, nat>)

  /** The operation in progress; one at a time. */
  datatype Op =
    | Idle
    | Aligned(key: StoreKey)
    | Drawn(key: StoreKey)
    | Saved(key: StoreKey)
    | Recorded(key: StoreKey)

  /** `disk` is the id in the settings record in memory, `saved` the one in the
      settings file; `lastWrite` says when each store's Pull last wrote the
      disk, in units of `clock`. */
  datatype State = State(
    disk: Option<Id>,
    saved: Option<Id>,
    drawn: set<Id>,
    stores: map<StoreKey, Store>,
    lastWrite: map<StoreKey, nat>,
    clock: nat,
    op: Op)

  datatype Event =
    | Prepare(key: StoreKey)
    | Draw(id: Id)
    | SaveSettings
    | StampStore
    | WriteDisk
    | SettleBase(path: Text)
    | DropBase(path: Text)
    | Finish
    | Reset(key: StoreKey)
    | Crash

  const NEW_STORE: Store := Store(None, map[])

  const INIT: State := State(None, None, {}, map[], map[], 0, Idle)

  function StoreAt(s: State, key: StoreKey): Store {
    if key in s.stores then s.stores[key] else NEW_STORE
  }

  function WrittenBy(s: State, key: StoreKey): nat {
    if key in s.lastWrite then s.lastWrite[key] else 0
  }

  /** `alignBasesWithDisk` on one store. */
  function Align(store: Store, disk: Option<Id>): Store {
    if store.stamp == disk then store else Store(disk, map[])
  }

  function Put(s: State, key: StoreKey, store: Store): State {
    s.(stores := s.stores[key := store])
  }

  /** An event that the code cannot reach from here changes nothing. */
  function Step(s: State, ev: Event): State {
    match ev
    case Prepare(key) =>
      if s.op != Idle then s else Put(s, key, Align(StoreAt(s, key), s.disk)).(op := Aligned(key))
    case Draw(id) =>
      if !(s.op.Aligned? || s.op.Recorded?) || id in s.drawn then s
      else s.(disk := Some(id), drawn := s.drawn + {id}, op := Drawn(s.op.key))
    case SaveSettings => s.(saved := s.disk, op := if s.op.Drawn? then Saved(s.op.key) else s.op)
    case StampStore =>
      if !s.op.Saved? then s
      else Put(s, s.op.key, StoreAt(s, s.op.key).(stamp := s.disk)).(op := Recorded(s.op.key))
    case WriteDisk =>
      if !s.op.Recorded? then s
      else s.(clock := s.clock + 1, lastWrite := s.lastWrite[s.op.key := s.clock + 1])
    case SettleBase(path) =>
      if !(s.op.Aligned? || s.op.Recorded?) then s
      else
        var store := StoreAt(s, s.op.key);
        Put(s, s.op.key, store.(bases := store.bases[path := s.clock]))
    case DropBase(path) =>
      if !(s.op.Aligned? || s.op.Recorded?) then s
      else
        var store := StoreAt(s, s.op.key);
        Put(s, s.op.key, store.(bases := store.bases - {path}))
    case Finish => s.(op := Idle)
    case Reset(key) => if s.op != Idle then s else Put(s, key, NEW_STORE)
    case Crash => s.(disk := s.saved, op := Idle)
  }

  function Run(s: State, evs: seq<Event>): State
    decreases |evs|
  {
    if evs == [] then s else Run(Step(s, evs[0]), evs[1..])
  }

  // ── Stale bases ────────────────────────────────────────

  /** No base of the store predates a disk write by another store's Pull. */
  ghost predicate NoStaleBase(s: State, key: StoreKey) {
    forall p, other :: p in StoreAt(s, key).bases && other in s.lastWrite && other != key ==>
      WrittenBy(s, other) <= StoreAt(s, key).bases[p]
  }

  /** A store stamped with the id in memory or in the settings file has no stale
      base; nor has the store of the operation in progress. While the disk is
      being written its id is saved, and no other store carries it. */
  ghost predicate Inv(s: State) {
    && (forall key :: key in s.stores && (s.stores[key].stamp == s.disk || s.stores[key].stamp == s.saved) ==>
        NoStaleBase(s, key))
    && (s.op != Idle ==> NoStaleBase(s, s.op.key))
    && (forall key :: key in s.stores && s.stores[key].stamp.Some? ==> s.stores[key].stamp.value in s.drawn)
    && (s.disk.Some? ==> s.disk.value in s.drawn) && (s.saved.Some? ==> s.saved.value in s.drawn)
    && (s.op.Drawn? || s.op.Saved? || s.op.Recorded? ==> s.disk.Some?)
    && (s.op.Drawn? || s.op.Saved? ==> forall key :: key in s.stores ==> s.stores[key].stamp != s.disk)
    && (s.op.Saved? || s.op.Recorded? ==> s.saved == s.disk)
    && (s.op.Recorded? ==> forall key :: key in s.stores && s.stores[key].stamp == s.disk ==> key == s.op.key)
    && (forall key :: key in s.lastWrite ==> s.lastWrite[key] <= s.clock)
  }

  /** Changing one store leaves the bases of the others. */
  lemma OtherStores(s: State, key: StoreKey, store: Store)
    ensures forall k :: k != key ==> NoStaleBase(Put(s, key, store), k) == NoStaleBase(s, k)
    ensures (forall p, other :: p in store.bases && other in s.lastWrite && other != key ==>
        WrittenBy(s, other) <= store.bases[p])
              <==> NoStaleBase(Put(s, key, store), key)
  {
    var s' := Put(s, key, store);
    assert StoreAt(s', key) == store;
    forall k | k != key ensures NoStaleBase(s', k) == NoStaleBase(s, k) {
      assert StoreAt(s', k) == StoreAt(s, k);
    }
  }

  /** Only the bases and the writes decide staleness. */
  lemma SameBases(s: State, s': State)
    requires s'.stores == s.stores && s'.lastWrite == s.lastWrite
    ensures forall k :: NoStaleBase(s', k) == NoStaleBase(s, k)
  {
    forall k ensures NoStaleBase(s', k) == NoStaleBase(s, k) {
      assert StoreAt(s', k) == StoreAt(s, k);
      assert forall o :: WrittenBy(s', o) == WrittenBy(s, o);
    }
  }

  lemma PrepareInv(s: State, key: StoreKey)
    requires Inv(s) && s.op == Idle
    ensures Inv(Step(s, Prepare(key)))
  {
    var store := StoreAt(s, key);
    var aligned := Align(store, s.disk);
    var mid := Put(s, key, aligned);
    OtherStores(s, key, aligned);
    SameBases(mid, mid.(op := Aligned(key)));
    assert NoStaleBase(mid, key) by {
      if store.stamp == s.disk && key in s.stores {
        assert NoStaleBase(s, key);
      }
    }
  }

  lemma WriteInv(s: State)
    requires Inv(s) && s.op.Recorded?
    ensures Inv(Step(s, WriteDisk))
  {
    var s' := Step(s, WriteDisk);
    var key := s.op.key;
    assert NoStaleBase(s, key) && StoreAt(s', key) == StoreAt(s, key);
    forall p, other | p in StoreAt(s', key).bases && other in s'.lastWrite && other != key
      ensures WrittenBy(s', other) <= StoreAt(s', key).bases[p]
    {
      assert WrittenBy(s', other) == WrittenBy(s, other);
    }
    assert NoStaleBase(s', key);
  }

  lemma BasesInv(s: State, store: Store)
    requires Inv(s) && (s.op.Aligned? || s.op.Recorded?) && store.stamp == StoreAt(s, s.op.key).stamp
    requires forall p :: p in store.bases ==>
               store.bases[p] == s.clock
                   || (p in StoreAt(s, s.op.key).bases && store.bases[p] == StoreAt(s, s.op.key).bases[p])
    ensures Inv(Put(s, s.op.key, store))
  {
    var key := s.op.key;
    OtherStores(s, key, store);
    assert NoStaleBase(s, key);
    forall p, other | p in store.bases && other in s.lastWrite && other != key
        ensures WrittenBy(s, other) <= store.bases[p] {
    }
  }

  lemma ResetInv(s: State, key: StoreKey)
    requires Inv(s) && s.op == Idle
    ensures Inv(Put(s, key, NEW_STORE))
  {
    OtherStores(s, key, NEW_STORE);
  }

  lemma StepInv(s: State, ev: Event)
    requires Inv(s)
    ensures Inv(Step(s, ev))
  {
    var s' := Step(s, ev);
    match ev
    case Prepare(key) => if s.op == Idle { PrepareInv(s, key); }
    case Draw(id) => SameBases(s, s');
    case SaveSettings => SameBases(s, s');
    case StampStore => if s.op.Saved? { }
    case WriteDisk => if s.op.Recorded? { WriteInv(s); }
    case SettleBase(path) =>
      if s.op.Aligned? || s.op.Recorded? {
        var store := StoreAt(s, s.op.key);
        BasesInv(s, store.(bases := store.bases[path := s.clock]));
      }
    case DropBase(path) =>
      if s.op.Aligned? || s.op.Recorded? {
        var store := StoreAt(s, s.op.key);
        BasesInv(s, store.(bases := store.bases - {path}));
      }
    case Finish => SameBases(s, s');
    case Reset(key) => if s.op == Idle { ResetInv(s, key); }
    case Crash => SameBases(s, s');
  }

  lemma {:induction false} RunInv(s: State, evs: seq<Event>)
    requires Inv(s)
    ensures Inv(Run(s, evs))
    decreases |evs|
  {
    if evs != [] {
      StepInv(s, evs[0]);
      RunInv(Step(s, evs[0]), evs[1..]);
    }
  }

  /** After any run, crashes included, aligning a store leaves no base that
      predates a disk write by another store's Pull. */
  lemma AlignedHasNoStaleBase(evs: seq<Event>, key: StoreKey)
    requires Run(INIT, evs).op == Idle
    ensures NoStaleBase(Step(Run(INIT, evs), Prepare(key)), key)
  {
    RunInv(INIT, evs);
    StepInv(Run(INIT, evs), Prepare(key));
  }

  /** The same for every moment of an operation: planning and settling never
      meet a stale base. */
  lemma OperationSeesNoStaleBase(evs: seq<Event>)
    requires Run(INIT, evs).op != Idle
    ensures NoStaleBase(Run(INIT, evs), Run(INIT, evs).op.key)
  {
    RunInv(INIT, evs);
  }

  // ── What an operation does ─────────────────────────────

  /** An operation begins with its store aligned: the store is as it was if its stamp
      is the id in memory, else it has that id and no base. Within it a settled base
      has the present moment, a dropped one is gone, and the other bases stay. */
  lemma {:induction false} OperationExactly(s: State, key: StoreKey, path: Text)
    ensures s.op == Idle ==>
              var t := Step(s, Prepare(key));
              t.op == Aligned(key) && t.disk == s.disk && t.saved == s.saved
              && StoreAt(t, key) == if StoreAt(s, key).stamp == s.disk then StoreAt(s, key) else Store(s.disk, map[])
    ensures s.op == Aligned(key) || s.op == Recorded(key) ==>
              var settled, dropped := Step(s, SettleBase(path)), Step(s, DropBase(path));
              && StoreAt(settled, key) == StoreAt(s, key).(bases := StoreAt(s, key).bases[path := s.clock])
              && StoreAt(dropped, key) == StoreAt(s, key).(bases := StoreAt(s, key).bases - {path})
              && settled.op == dropped.op == s.op
    ensures Step(s, Finish) == s.(op := Idle)
  {}

  /** A crash keeps the files and loses the memory. */
  lemma CrashKeepsFiles(s: State)
    ensures var t := Step(s, Crash);
            t.disk == t.saved == s.saved && t.stores == s.stores && t.lastWrite == s.lastWrite && t.op == Idle
  {}

  /** No event touches another store than that of the operation in progress, a
      preparation or a reset. */
  lemma {:induction false} OtherStoresKeep(s: State, ev: Event, key: StoreKey)
    requires ev != Prepare(key) && ev != Reset(key) && (s.op != Idle ==> s.op.key != key)
    ensures StoreAt(Step(s, ev), key) == StoreAt(s, key)
  {}

  /** Bases and writes are of the past. */
  ghost predicate OfThePast(s: State) {
    && (forall key, p :: key in s.stores && p in s.stores[key].bases ==> s.stores[key].bases[p] <= s.clock)
    && (forall key :: key in s.lastWrite ==> s.lastWrite[key] <= s.clock)
  }

  lemma {:induction false} PastRun(s: State, evs: seq<Event>)
    requires OfThePast(s)
    ensures OfThePast(Run(s, evs))
    decreases |evs|
  {
    if evs != [] {
      PastRun(Step(s, evs[0]), evs[1..]);
    }
  }

  /** Dropping the others' bases is needed: once a Pull has written the disk, every
      base that another store still has is stale. */
  lemma {:induction false} WriteMakesOthersStale(evs: seq<Event>, key: StoreKey, path: Text)
    requires var s := Run(INIT, evs); s.op.Recorded? && s.op.key != key && path in StoreAt(s, key).bases
    ensures !NoStaleBase(Step(Run(INIT, evs), WriteDisk), key)
  {
    var s := Run(INIT, evs);
    var t := Step(s, WriteDisk);
    PastRun(INIT, evs);
    assert StoreAt(t, key) == StoreAt(s, key) && s.op.key in t.lastWrite;
    assert WrittenBy(t, s.op.key) == s.clock + 1 > StoreAt(t, key).bases[path];
  }

  // ── Nothing is dropped without need ────────────────────

  /** The store's stamp, the settings in memory and the settings file agree. */
  predicate Settled(s: State, key: StoreKey) {
    key in s.stores && s.stores[key].stamp == s.disk == s.saved
  }

  lemma RecordedIsSettled(evs: seq<Event>)
    requires Run(INIT, evs).op.Saved?
    ensures Settled(Step(Run(INIT, evs), StampStore), Run(INIT, evs).op.key)
  {
    RunInv(INIT, evs);
  }

  /** No event of the run settles or drops a base of the store's own operation. */
  predicate LeavesBases(s: State, key: StoreKey, evs: seq<Event>)
    decreases |evs|
  {
    evs == [] || (
      && !((evs[0].SettleBase? || evs[0].DropBase?) && s.op != Idle && s.op.key == key)
      && LeavesBases(Step(s, evs[0]), key, evs[1..]))
  }

  /** Without a new id and without a reset, a settled store stays settled, and
      its next alignment keeps what it has: crashes, saves and operations of
      other stores cost it nothing, and only its own operation, settling or
      dropping a base, changes its bases at all. */
  lemma {:induction false} SettledKeepsBases(s: State, key: StoreKey, evs: seq<Event>)
    requires Settled(s, key)
    requires s.op == Idle || s.op.Aligned? || s.op.Recorded?
    requires forall k :: 0 <= k < |evs| ==> !evs[k].Draw? && evs[k] != Reset(key)
    ensures var s' := Run(s, evs);
            && Settled(s', key) && Align(StoreAt(s', key), s'.disk) == StoreAt(s', key)
            && (LeavesBases(s, key, evs) ==> StoreAt(s', key) == StoreAt(s, key))
    decreases |evs|
  {
    if evs != [] {
      SettledKeepsBases(Step(s, evs[0]), key, evs[1..]);
    }
  }

  /** Every other store loses its bases at its next alignment once a Pull has
      recorded its write. */
  lemma OthersAreDropped(evs: seq<Event>, key: StoreKey)
    requires Run(INIT, evs).op.Recorded? && Run(INIT, evs).op.key != key
    ensures var s := Run(INIT, evs); Align(StoreAt(s, key), s.disk).bases == map[]
  {
    RunInv(INIT, evs);
  }
}
