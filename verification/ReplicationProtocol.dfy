/** Many devices replicating one path. */
module ReplicationProtocol {
  // Local edits, pulls acted on by verdict (src/conflict/conflict-resolver.ts),
  // conflict resolutions (src/conflict/conflict-orchestrator.ts), both ends of a
  // rename (`handleRename` of src/sync/vault-sync.ts) and accepted hard deletions
  // (src/db/sync/pull-writer.ts). A resolution commits only over the version its
  // dialog showed.

  import opened Wrappers
  import opened VectorClocks
  import opened SyncRelation

  /** One increment of a device's own entry, with the content it created. */
  datatype Event = Event(dev: Device, count: nat, content: Content)

  /** `versions` has every doc any device ever stored, so every doc a pull can
      bring; `log` lists the increments in the order they happened. */
  datatype State = State(docs: map<Device, Doc>, versions: set<Doc>, log: seq<Event>)

  datatype Step =
    | Edit(d: Device, chunks: seq<ChunkId>, deleted: bool)
    | Pull(d: Device, r: Doc)
    | KeepLocalDoc(d: Device, shown: Clock, remote: Doc)
    | TakeDeletion(d: Device, shown: Clock, remote: Doc)
    | TakeAlive(d: Device, shown: Clock, remote: Doc)
    | Rename(d: Device, other: Clock, twice: bool, chunks: seq<ChunkId>, deleted: bool)
    | AcceptDeletion(d: Device)

  const INIT: State := State(map[], {}, [])

  /** The tombstone a remote hard deletion shows in the dialog: its clock is unknown. */
  const PLACEHOLDER: Doc := Doc([], true, map[])

  function LocalDoc(s: State, d: Device): Option<Doc> {
    if d in s.docs then Some(s.docs[d]) else None
  }

  function LocalClock(s: State, d: Device): Clock {
    if d in s.docs then s.docs[d].vclock else map[]
  }

  function Store(s: State, d: Device, doc: Doc): State {
    s.(docs := s.docs[d := doc], versions := s.versions + {doc})
  }

  /** Store a doc whose clock has the device's own entry incremented. */
  function StoreNew(s: State, d: Device, doc: Doc): State {
    Store(s, d, doc).(log := s.log + [Event(d, Entry(doc.vclock, d), DocContent(doc))])
  }

  /** The doc in the store is the one the dialog showed. */
  predicate MatchesExpected(s: State, d: Device, shown: Clock) {
    d in s.docs && Compare(s.docs[d].vclock, shown) == Equal
  }

  predicate Known(s: State, remote: Doc) {
    remote in s.versions || remote == PLACEHOLDER
  }

  /** `handleRename`: the clock of the path at the other end of the rename is
      merged in; the new path's doc is incremented past the old path's tombstone. */
  function RenameBase(s: State, d: Device, other: Clock, twice: bool): Clock {
    var base := Join(other, LocalClock(s, d));
    if twice then Increment(base, d) else base
  }

  /** A step that cannot happen, or is stale, writes nothing. */
  function Apply(s: State, step: Step): State {
    match step
    case Edit(d, chunks, deleted) =>
      StoreNew(s, d, Doc(chunks, deleted, Increment(LocalClock(s, d), d)))
    case Pull(d, r) =>
      if r !in s.versions then s
      else (
        match ResolveOnPull(LocalDoc(s, d), r, false)
        case TakeRemote => Store(s, d, r)
        case SilentMerge => Store(s, d, r.(vclock := Join(LocalClock(s, d), r.vclock)))
        case KeepLocal => s
        case Conflict => s
      )
    case KeepLocalDoc(d, shown, remote) =>
      if !MatchesExpected(s, d, shown) || !Known(s, remote) then s
      else StoreNew(s, d, s.docs[d].(vclock := Increment(Join(remote.vclock, s.docs[d].vclock), d)))
    case TakeDeletion(d, shown, remote) =>
      if !MatchesExpected(s, d, shown) || !Known(s, remote) || !remote.deleted then s
      else StoreNew(s, d, remote.(vclock := Increment(Join(shown, remote.vclock), d)))
    case TakeAlive(d, shown, remote) =>
      if !MatchesExpected(s, d, shown) || remote !in s.versions || remote.deleted then s
      else Store(s, d, remote)
    case Rename(d, other, twice, chunks, deleted) =>
      StoreNew(s, d, Doc(chunks, deleted, Increment(RenameBase(s, d, other, twice), d)))
    case AcceptDeletion(d) =>
      if d !in s.docs || s.docs[d].deleted then s
      else Store(s, d, s.docs[d].(chunks := [], deleted := true))
  }

  function Run(s: State, steps: seq<Step>): State
    decreases |steps|
  {
    if steps == [] then s else Run(Apply(s, steps[0]), steps[1..])
  }

  /** The increment a step performs, if it performs one. */
  function Appended(s: State, step: Step): Option<Event> {
    var log := Apply(s, step).log;
    if |log| > |s.log| then Some(log[|s.log|]) else None
  }

  /** The step turns an alive doc into a tombstone under its old clock. */
  predicate KeepsClockOfDeleted(s: State, step: Step) {
    step.AcceptDeletion? && Apply(s, step) != s
  }

  /** An increment takes a count beyond all of that device's that a stored version
      has seen, so no count is used twice. Nothing is asked of other devices'
      entries, nor of taking an alive doc. */
  ghost predicate CountsFresh(s: State, step: Step) {
    && !KeepsClockOfDeleted(s, step)
    && (Appended(s, step).Some? ==>
          var e := Appended(s, step).value;
          forall v :: v in s.versions ==> Entry(v.vclock, e.dev) < e.count)
  }

  ghost predicate RunCountsFresh(s: State, steps: seq<Step>)
    decreases |steps|
  {
    steps != [] ==> CountsFresh(s, steps[0]) && RunCountsFresh(Apply(s, steps[0]), steps[1..])
  }

  // ── The invariant ──────────────────────────────────────

  predicate Holds(c: Clock, e: Event) {
    e.count <= Entry(c, e.dev)
  }

  /** `i` is the last increment that clock `c` has seen. */
  ghost predicate LastSeen(log: seq<Event>, c: Clock, i: int) {
    0 <= i < |log| && Holds(c, log[i]) && forall j :: i < j < |log| ==> !Holds(c, log[j])
  }

  /** A version has the content of the last increment its clock has seen. */
  ghost predicate Explained(log: seq<Event>, v: Doc) {
    exists i :: LastSeen(log, v.vclock, i) && log[i].content == DocContent(v)
  }

  ghost predicate Inv(s: State) {
    && (forall d :: d in s.docs ==> s.docs[d] in s.versions)
    && (forall v :: v in s.versions ==> Explained(s.log, v))
  }

  /** Equal clocks, equal content: for any two docs ever stored. */
  lemma EqualClocksEqualContent(s: State, a: Doc, b: Doc)
    requires Inv(s) && a in s.versions && b in s.versions
    requires Compare(a.vclock, b.vclock) == Equal
    ensures DocContent(a) == DocContent(b)
  {
    EqualEntries(a.vclock, b.vclock);
    var i :| LastSeen(s.log, a.vclock, i) && s.log[i].content == DocContent(a);
    var j :| LastSeen(s.log, b.vclock, j) && s.log[j].content == DocContent(b);
    assert Holds(a.vclock, s.log[j]) && Holds(b.vclock, s.log[i]);
  }

  /** Storing a version the log explains already. */
  lemma StoreInv(s: State, d: Device, doc: Doc)
    requires Inv(s) && Explained(s.log, doc)
    ensures Inv(Store(s, d, doc))
  {}

  /** A new increment: its clock has seen it, and no older version has. */
  lemma {:induction false} StoreNewInv(s: State, d: Device, doc: Doc)
    requires Inv(s) && forall v :: v in s.versions ==> Entry(v.vclock, d) < Entry(doc.vclock, d)
    ensures Inv(StoreNew(s, d, doc))
  {
    var s' := StoreNew(s, d, doc);
    forall v | v in s.versions ensures Explained(s'.log, v) {
      ExplainedLonger(s.log, v, s'.log[|s.log|]);
    }
    assert LastSeen(s'.log, doc.vclock, |s.log|);
  }

  /** An increment a version has not seen changes nothing about it. */
  lemma ExplainedLonger(log: seq<Event>, v: Doc, e: Event)
    requires Explained(log, v) && !Holds(v.vclock, e)
    ensures Explained(log + [e], v)
  {
    var i :| LastSeen(log, v.vclock, i) && log[i].content == DocContent(v);
    assert LastSeen(log + [e], v.vclock, i);
  }

  /** A silent merge joins two versions with one content: the join's last seen
      increment is the later of theirs. */
  lemma {:induction false} JoinExplained(s: State, l: Doc, r: Doc)
    requires Inv(s) && l in s.versions && r in s.versions && DocContent(l) == DocContent(r)
    ensures Explained(s.log, r.(vclock := Join(l.vclock, r.vclock)))
  {
    var i :| LastSeen(s.log, l.vclock, i) && s.log[i].content == DocContent(l);
    var j :| LastSeen(s.log, r.vclock, j) && s.log[j].content == DocContent(r);
    JoinSees(s.log, l.vclock, r.vclock, i, j);
  }

  lemma JoinSees(log: seq<Event>, a: Clock, b: Clock, i: int, j: int)
    requires LastSeen(log, a, i) && LastSeen(log, b, j)
    ensures LastSeen(log, Join(a, b), if i < j then j else i)
  {
    assert forall e: Event :: Holds(Join(a, b), e) <==> Holds(a, e) || Holds(b, e);
  }

  lemma {:induction false} PullInv(s: State, d: Device, r: Doc)
    requires Inv(s)
    ensures Inv(Apply(s, Pull(d, r)))
  {
    if r in s.versions {
      match ResolveOnPull(LocalDoc(s, d), r, false)
      case TakeRemote => StoreInv(s, d, r);
      case SilentMerge =>
        JoinExplained(s, s.docs[d], r);
        StoreInv(s, d, r.(vclock := Join(s.docs[d].vclock, r.vclock)));
      case KeepLocal =>
      case Conflict =>
    }
  }

  /** What a step does: it stores a new increment, a version that is explained
      already, or nothing; or else it accepts a deletion. */
  lemma {:induction false} StepStores(s: State, step: Step)
    requires Inv(s)
    ensures var s' := Apply(s, step);
            if Appended(s, step).Some? then
              && step.d in s'.docs && s' == StoreNew(s, step.d, s'.docs[step.d])
              && Appended(s, step) == Some(Event(step.d, Entry(s'.docs[step.d].vclock, step.d),
                                                 DocContent(s'.docs[step.d])))
            else s'.log == s.log && (Inv(s') || KeepsClockOfDeleted(s, step))
  {
    if step.Pull? {
      PullInv(s, step.d, step.r);
    } else if step.TakeAlive? && Apply(s, step) != s {
      StoreInv(s, step.d, step.remote);
    }
  }

  lemma {:induction false} StepInv(s: State, step: Step)
    requires Inv(s) && CountsFresh(s, step)
    ensures Inv(Apply(s, step))
  {
    StepStores(s, step);
    if Appended(s, step).Some? {
      StoreNewInv(s, step.d, Apply(s, step).docs[step.d]);
    }
  }

  lemma {:induction false} RunInv(s: State, steps: seq<Step>)
    requires Inv(s) && RunCountsFresh(s, steps)
    ensures Inv(Run(s, steps))
    decreases |steps|
  {
    if steps != [] {
      StepInv(s, steps[0]);
      RunInv(Apply(s, steps[0]), steps[1..]);
    }
  }

  /** In every run that keeps counts fresh, two docs with equal clocks have equal
      content, and so a pull never meets a clock tie with different content. */
  lemma {:induction false} NoClockTies(steps: seq<Step>, a: Doc, b: Doc)
    requires RunCountsFresh(INIT, steps)
    requires a in Run(INIT, steps).versions && b in Run(INIT, steps).versions
    requires Compare(a.vclock, b.vclock) == Equal
    ensures DocContent(a) == DocContent(b)
    ensures ResolveOnPull(Some(a), b, false) == KeepLocal
  {
    RunInv(INIT, steps);
    EqualClocksEqualContent(Run(INIT, steps), a, b);
  }

  // ── When a tie is born ─────────────────────────────────

  ghost predicate Tie(a: Doc, b: Doc) {
    Compare(a.vclock, b.vclock) == Equal && DocContent(a) != DocContent(b)
  }

  ghost predicate TieFree(s: State) {
    forall a, b :: a in s.versions && b in s.versions ==> !Tie(a, b)
  }

  lemma {:induction false} InvIsTieFree(s: State)
    requires Inv(s)
    ensures TieFree(s)
  {}

  /** A tie with the doc of an increment uses its count a second time. */
  lemma {:induction false} TieReusesCount(s: State, step: Step, v: Doc)
    requires Inv(s) && Appended(s, step).Some? && v in s.versions && Tie(v, Apply(s, step).docs[step.d])
    ensures Entry(v.vclock, step.d) == Appended(s, step).value.count && !CountsFresh(s, step)
  {
    StepStores(s, step);
    EqualEntries(v.vclock, Apply(s, step).docs[step.d].vclock);
  }

  /** After any run that keeps counts fresh the next step, of whatever kind, gives
      birth to a tie exactly when it stores a tombstone under the clock of an alive
      doc, or performs an increment whose new clock some version of other content
      has already: its count is then used again. */
  lemma {:induction false} TieBornExactly(steps: seq<Step>, step: Step)
    requires RunCountsFresh(INIT, steps)
    ensures var s := Run(INIT, steps); var s' := Apply(s, step);
            && TieFree(s)
            && (TieFree(s') <==>
                  !KeepsClockOfDeleted(s, step)
                  && (Appended(s, step).Some? ==> forall v :: v in s.versions ==> !Tie(v, s'.docs[step.d])))
            && (!TieFree(s') ==> !CountsFresh(s, step))
  {
    var s := Run(INIT, steps);
    var s' := Apply(s, step);
    RunInv(INIT, steps);
    InvIsTieFree(s);
    StepStores(s, step);
    if KeepsClockOfDeleted(s, step) {
      DeletionTies(s, step.d);
    } else if Appended(s, step).Some? {
      NewDocTies(s, step.d, s'.docs[step.d]);
      if v :| v in s.versions && Tie(v, s'.docs[step.d]) {
        TieReusesCount(s, step, v);
      }
    } else {
      InvIsTieFree(s');
    }
  }

  lemma {:induction false} NewDocTies(s: State, d: Device, doc: Doc)
    requires TieFree(s)
    ensures TieFree(StoreNew(s, d, doc)) <==> forall v :: v in s.versions ==> !Tie(v, doc)
  {
    var s' := StoreNew(s, d, doc);
    if forall v :: v in s.versions ==> !Tie(v, doc) {
      forall a, b | a in s'.versions && b in s'.versions ensures !Tie(a, b) {
        EqualIsSymmetric(a.vclock, b.vclock);
      }
    }
  }

  lemma EqualIsSymmetric(a: Clock, b: Clock)
    ensures Compare(a, b) == Equal <==> Compare(b, a) == Equal
    ensures Compare(a, a) == Equal
  {}

  /** Accepting a remote hard deletion of an alive doc keeps its clock: the alive
      version and the tombstone tie at once, and each meets the other as a
      conflict. */
  lemma {:induction false} DeletionTies(s: State, d: Device)
    requires Inv(s) && d in s.docs && !s.docs[d].deleted
    ensures var s' := Apply(s, AcceptDeletion(d)); var alive, tombstone := s.docs[d], s'.docs[d];
            && tombstone.deleted && tombstone.chunks == []
            && alive in s'.versions && tombstone in s'.versions && Tie(alive, tombstone) && !TieFree(s')
            && ResolveOnPull(Some(alive), tombstone, false) == Conflict
            && ResolveOnPull(Some(tombstone), alive, false) == Conflict
  {
    EqualIsSymmetric(s.docs[d].vclock, s.docs[d].vclock);
  }

  /** The device has seen, at this path, every count of its own. */
  ghost predicate OwnCountsSeen(s: State, d: Device) {
    forall v :: v in s.versions ==> Entry(v.vclock, d) <= Entry(LocalClock(s, d), d)
  }

  /** An edit uses a fresh count exactly when the device has seen its own counts. */
  lemma {:induction false} EditFreshExactly(s: State, d: Device, chunks: seq<ChunkId>, deleted: bool)
    ensures CountsFresh(s, Edit(d, chunks, deleted)) <==> OwnCountsSeen(s, d)
  {}

  /** A rename then does too, whatever clock it brings in from the other path. */
  lemma {:induction false} RenameIsFresh(s: State, step: Step)
    requires step.Rename? && OwnCountsSeen(s, step.d)
    ensures CountsFresh(s, step)
  {}

  // ── A rule each device can keep by itself ──────────────

  /** At this path every device has seen all of its own counts that any version
      has. */
  ghost predicate EntriesHeld(s: State) {
    && (forall d :: d in s.docs ==> s.docs[d] in s.versions)
    && (forall v :: v in s.versions ==> Bounded(s, v.vclock))
  }

  ghost predicate Bounded(s: State, c: Clock) {
    forall d :: Entry(c, d) <= Entry(LocalClock(s, d), d)
  }

  /** Taking an alive remote doc keeps this device's own entry, a rename brings in
      no more of another device than that device has at this path, and no hard
      deletion is accepted. */
  ghost predicate KeepsEntries(s: State, step: Step) {
    match step
    case TakeAlive(d, shown, remote) =>
      MatchesExpected(s, d, shown) ==> Entry(LocalClock(s, d), d) <= Entry(remote.vclock, d)
    case Rename(d, other, _, _, _) =>
      forall x :: x != d ==> Entry(other, x) <= Entry(LocalClock(s, x), x)
    case AcceptDeletion(_) => !KeepsClockOfDeleted(s, step)
    case _ => true
  }

  ghost predicate RunKeepsEntries(s: State, steps: seq<Step>)
    decreases |steps|
  {
    steps != [] ==> KeepsEntries(s, steps[0]) && RunKeepsEntries(Apply(s, steps[0]), steps[1..])
  }

  lemma {:induction false} StoreHeld(s: State, d: Device, doc: Doc)
    requires EntriesHeld(s) && Entry(LocalClock(s, d), d) <= Entry(doc.vclock, d)
    requires forall x :: x != d ==> Entry(doc.vclock, x) <= Entry(LocalClock(s, x), x)
    ensures EntriesHeld(Store(s, d, doc)) && EntriesHeld(StoreNew(s, d, doc))
  {
    var s' := Store(s, d, doc);
    assert forall x :: x != d ==> LocalClock(s', x) == LocalClock(s, x);
    forall v, x | v in s'.versions ensures Entry(v.vclock, x) <= Entry(LocalClock(s', x), x) {
      if v in s.versions {
        assert Bounded(s, v.vclock);
      }
    }
    assert StoreNew(s, d, doc).docs == s'.docs;
    forall v | v in s'.versions ensures Bounded(StoreNew(s, d, doc), v.vclock) {
      assert Bounded(s', v.vclock);
    }
  }

  /** An increment over the join of the device's own clock and one it may bring in. */
  lemma {:induction false} IncrementHeld(s: State, d: Device, c: Clock, doc: Doc)
    requires EntriesHeld(s) && doc.vclock == Increment(c, d) && Entry(LocalClock(s, d), d) <= Entry(c, d)
    requires forall x :: x != d ==> Entry(c, x) <= Entry(LocalClock(s, x), x)
    ensures EntriesHeld(StoreNew(s, d, doc))
    ensures forall v :: v in s.versions ==> Entry(v.vclock, d) < Entry(doc.vclock, d)
  {
    StoreHeld(s, d, doc);
    forall v | v in s.versions ensures Entry(v.vclock, d) < Entry(doc.vclock, d) {
      assert Bounded(s, v.vclock);
    }
  }

  lemma {:induction false} PullHeld(s: State, d: Device, r: Doc)
    requires EntriesHeld(s)
    ensures EntriesHeld(Apply(s, Pull(d, r)))
  {
    if r in s.versions {
      assert Bounded(s, r.vclock);
      match ResolveOnPull(LocalDoc(s, d), r, false)
      case TakeRemote =>
        if d in s.docs {
          TakenIsNewer(s.docs[d], r);
        }
        StoreHeld(s, d, r);
      case SilentMerge =>
        assert Bounded(s, s.docs[d].vclock);
        StoreHeld(s, d, r.(vclock := Join(s.docs[d].vclock, r.vclock)));
      case KeepLocal =>
      case Conflict =>
    }
  }

  lemma {:induction false} ResolutionHeld(s: State, step: Step)
    requires EntriesHeld(s) && (step.KeepLocalDoc? || step.TakeDeletion?)
    ensures EntriesHeld(Apply(s, step)) && CountsFresh(s, step)
  {
    var d, shown, remote := step.d, step.shown, step.remote;
    if MatchesExpected(s, d, shown) && Known(s, remote) {
      var l := s.docs[d];
      EqualEntries(l.vclock, shown);
      assert Bounded(s, l.vclock) && Bounded(s, remote.vclock);
      if step.KeepLocalDoc? {
        var c := Join(remote.vclock, l.vclock);
        IncrementHeld(s, d, c, l.(vclock := Increment(c, d)));
      } else if remote.deleted {
        var c := Join(shown, remote.vclock);
        IncrementHeld(s, d, c, remote.(vclock := Increment(c, d)));
      }
    }
  }

  /** The local rule is enough: while it is kept no count is used twice. */
  lemma {:induction false} KeptEntriesAreFresh(s: State, step: Step)
    requires EntriesHeld(s) && KeepsEntries(s, step)
    ensures EntriesHeld(Apply(s, step)) && CountsFresh(s, step)
  {
    match step
    case Edit(d, chunks, deleted) =>
      if d in s.docs {
        assert Bounded(s, s.docs[d].vclock);
      }
      var c := LocalClock(s, d);
      IncrementHeld(s, d, c, Doc(chunks, deleted, Increment(c, d)));
    case Pull(d, r) => PullHeld(s, d, r);
    case KeepLocalDoc(_, _, _) => ResolutionHeld(s, step);
    case TakeDeletion(_, _, _) => ResolutionHeld(s, step);
    case TakeAlive(d, shown, remote) =>
      if Apply(s, step) != s {
        assert Bounded(s, remote.vclock);
        StoreHeld(s, d, remote);
      }
    case Rename(d, other, twice, chunks, deleted) =>
      if d in s.docs {
        assert Bounded(s, s.docs[d].vclock);
      }
      var c := RenameBase(s, d, other, twice);
      IncrementHeld(s, d, c, Doc(chunks, deleted, Increment(c, d)));
    case AcceptDeletion(_) =>
  }

  lemma {:induction false} KeptRunsAreFresh(s: State, steps: seq<Step>)
    requires EntriesHeld(s) && RunKeepsEntries(s, steps)
    ensures RunCountsFresh(s, steps)
    decreases |steps|
  {
    if steps != [] {
      KeptEntriesAreFresh(s, steps[0]);
      KeptRunsAreFresh(Apply(s, steps[0]), steps[1..]);
    }
  }

  lemma {:induction false} OrdinaryRunsKeep(s: State, steps: seq<Step>)
    requires forall i :: 0 <= i < |steps| ==>
               !steps[i].TakeAlive? && !steps[i].Rename? && !steps[i].AcceptDeletion?
    ensures RunKeepsEntries(s, steps)
    decreases |steps|
  {
    if steps != [] {
      OrdinaryRunsKeep(Apply(s, steps[0]), steps[1..]);
    }
  }

  /** A run of edits, pulls, kept local docs and taken deletions never uses a
      count twice. */
  lemma OrdinaryRunsQualify(steps: seq<Step>)
    requires forall i :: 0 <= i < |steps| ==>
               !steps[i].TakeAlive? && !steps[i].Rename? && !steps[i].AcceptDeletion?
    ensures RunCountsFresh(INIT, steps)
  {
    OrdinaryRunsKeep(INIT, steps);
    KeptRunsAreFresh(INIT, steps);
  }

  // ── Two renames ────────────────────────────────────────

  const FROM_A: Step := Rename("A", map["A" := 2, "B" := 5], true, [ID_X], false)
  const FROM_B: Step := Rename("B", map["A" := 4, "B" := 3], true, [ID_Y], false)

  const X45: Doc := Doc([ID_X], false, map["A" := 4, "B" := 5])
  const Y45: Doc := Doc([ID_Y], false, map["A" := 4, "B" := 5])

  lemma {:induction false} FirstRename(s: State, d: Device, other: Clock)
    requires d !in s.docs
    ensures Increment(RenameBase(s, d, other, true), d) == other[d := Entry(other, d) + 2]
  {
    var base := Join(other, map[]);
    assert base == other;
  }

  lemma {:induction false} RenameClocks()
    ensures FROM_A.other["A" := Entry(FROM_A.other, "A") + 2] == X45.vclock
    ensures FROM_B.other["B" := Entry(FROM_B.other, "B") + 2] == Y45.vclock
  {}

  lemma {:induction false} RenamedByA()
    ensures Apply(INIT, FROM_A) == State(map["A" := X45], {X45}, [Event("A", 4, DocContent(X45))])
  {
    RenameClocks();
    FirstRename(INIT, "A", FROM_A.other);
  }

  lemma {:induction false} RenamedByB(s: State)
    requires s.docs == map["A" := X45] && s.versions == {X45}
    ensures Apply(s, FROM_B).versions == {X45, Y45}
  {
    RenameClocks();
    FirstRename(s, "B", FROM_B.other);
  }

  lemma {:induction false} TieBreaksRule(steps: seq<Step>, a: Doc, b: Doc)
    requires a in Run(INIT, steps).versions && b in Run(INIT, steps).versions && Tie(a, b)
    ensures !TieFree(Run(INIT, steps)) && !RunCountsFresh(INIT, steps)
  {
    if RunCountsFresh(INIT, steps) {
      NoClockTies(steps, a, b);
    }
  }

  /** Two devices rename two other paths onto this one: one clock, two contents,
      and a count used twice. */
  lemma {:induction false} RenamesCanTie()
    ensures exists steps :: !TieFree(Run(INIT, steps)) && !RunCountsFresh(INIT, steps)
  {
    RunTwo(INIT, FROM_A, FROM_B);
    RenamedByA();
    RenamedByB(Apply(INIT, FROM_A));
    assert X45.chunks[0] != Y45.chunks[0];
    TieBreaksRule([FROM_A, FROM_B], X45, Y45);
  }

  // ── When the own entry does go down ────────────────────

  const ID_X: ChunkId := [0x78]
  const ID_Y: ChunkId := [0x79]
  const ID_Z: ChunkId := [0x7A]
  const ID_W: ChunkId := [0x77]
  const ID_V: ChunkId := [0x76]

  const X1: Doc := Doc([ID_X], false, map["A" := 1])
  const Z2: Doc := Doc([ID_Z], false, map["A" := 2])
  const Y11: Doc := Doc([ID_Y], false, map["A" := 1, "B" := 1])
  const W21: Doc := Doc([ID_W], false, map["A" := 2, "B" := 1])
  const V21: Doc := Doc([ID_V], false, map["A" := 2, "B" := 1])

  lemma {:induction false} RunAppend(s: State, a: seq<Step>, b: seq<Step>)
    ensures Run(s, a + b) == Run(Run(s, a), b)
    decreases |a|
  {
    if a == [] {
      assert a + b == b;
    } else {
      assert (a + b)[1..] == a[1..] + b;
      RunAppend(Apply(s, a[0]), a[1..], b);
    }
  }

  lemma RunTwo(s: State, a: Step, b: Step)
    ensures Run(s, [a, b]) == Apply(Apply(s, a), b)
  {
    assert [a, b][1..] == [b];
    assert Run(Apply(s, a), [b]) == Run(Apply(Apply(s, a), b), [b][1..]);
  }

  lemma TwoBranches() returns (s: State)
    ensures s == Run(INIT, [Edit("A", [ID_X], false), Pull("B", X1)]
        + [Edit("A", [ID_Z], false), Edit("B", [ID_Y], false)])
    ensures s.docs == map["A" := Z2, "B" := Y11] && Z2 in s.versions && Y11 in s.versions
  {
    var s0 := Run(INIT, [Edit("A", [ID_X], false), Pull("B", X1)]);
    RunTwo(INIT, Edit("A", [ID_X], false), Pull("B", X1));
    assert s0.docs == map["A" := X1, "B" := X1];
    assert Increment(X1.vclock, "A") == Z2.vclock && Increment(X1.vclock, "B") == Y11.vclock;
    RunTwo(s0, Edit("A", [ID_Z], false), Edit("B", [ID_Y], false));
    RunAppend(INIT, [Edit("A", [ID_X], false), Pull("B", X1)], [Edit("A", [ID_Z], false), Edit("B", [ID_Y], false)]);
    s := Run(s0, [Edit("A", [ID_Z], false), Edit("B", [ID_Y], false)]);
  }

  lemma SwapAndEdit(s: State) returns (t: State)
    requires s.docs == map["A" := Z2, "B" := Y11] && Z2 in s.versions && Y11 in s.versions
    ensures t == Run(s, [TakeAlive("A", Z2.vclock, Y11), TakeAlive("B", Y11.vclock, Z2)]
        + [Edit("A", [ID_W], false), Edit("B", [ID_V], false)])
    ensures W21 in t.versions && V21 in t.versions
  {
    RunTwo(s, TakeAlive("A", Z2.vclock, Y11), TakeAlive("B", Y11.vclock, Z2));
    var s1 := Run(s, [TakeAlive("A", Z2.vclock, Y11), TakeAlive("B", Y11.vclock, Z2)]);
    assert s1.docs == map["A" := Y11, "B" := Z2];
    assert Increment(Y11.vclock, "A") == W21.vclock && Increment(Z2.vclock, "B") == V21.vclock;
    RunTwo(s1, Edit("A", [ID_W], false), Edit("B", [ID_V], false));
    RunAppend(s, [TakeAlive("A", Z2.vclock, Y11), TakeAlive("B", Y11.vclock, Z2)],
        [Edit("A", [ID_W], false), Edit("B", [ID_V], false)]);
    t := Run(s1, [Edit("A", [ID_W], false), Edit("B", [ID_V], false)]);
  }

  /** Two devices take each other's alive version, each dropping its own entry,
      and edit: one clock, two contents, and a count used twice. */
  lemma {:induction false} TakeAliveCanTie()
    ensures exists steps :: !TieFree(Run(INIT, steps)) && !RunCountsFresh(INIT, steps)
  {
    var first := [Edit("A", [ID_X], false), Pull("B", X1)] + [Edit("A", [ID_Z], false), Edit("B", [ID_Y], false)];
    var second := [TakeAlive("A", Z2.vclock, Y11), TakeAlive("B", Y11.vclock, Z2)]
        + [Edit("A", [ID_W], false), Edit("B", [ID_V], false)];
    var s := TwoBranches();
    var t := SwapAndEdit(s);
    RunAppend(INIT, first, second);
    assert t == Run(INIT, first + second);
    assert W21.vclock == V21.vclock && W21.chunks[0] != V21.chunks[0];
    TieBreaksRule(first + second, W21, V21);
  }

  // ── What each choice stores ────────────────────────────

  ghost predicate Above(a: Clock, b: Clock) {
    Leq(b, a) && !Leq(a, b)
  }

  lemma IncrementAbove(a: Clock, b: Clock, d: Device)
    ensures Above(Increment(Join(a, b), d), a) && Above(Increment(Join(a, b), d), b)
  {
    assert Entry(Increment(Join(a, b), d), d) == Max(Entry(a, d), Entry(b, d)) + 1;
  }

  /** A strictly newer version of other content is taken, and never taken back. */
  lemma {:induction false} NewerIsTaken(l: Doc, r: Doc, recreate: bool)
    requires Above(r.vclock, l.vclock) && DocContent(l) != DocContent(r)
    ensures ResolveOnPull(Some(l), r, recreate) == TakeRemote
    ensures ResolveOnPull(Some(r), l, recreate) == KeepLocal
  {}

  /** Only the device that acts changes its doc. */
  lemma OthersKeep(s: State, step: Step, x: Device)
    requires x != step.d
    ensures LocalDoc(Apply(s, step), x) == LocalDoc(s, x)
  {}

  /** What no dialog can offer is not taken: a version that was never stored, a tombstone
      as an alive version, or an alive version as a deletion. */
  lemma OnlyOfferedIsTaken(s: State, step: Step)
    requires || ((step.KeepLocalDoc? || step.TakeDeletion?)
                  && step.remote !in s.versions && step.remote != Doc([], true, map[]))
             || (step.TakeDeletion? && !step.remote.deleted)
             || (step.TakeAlive? && (step.remote !in s.versions || step.remote.deleted))
             || (step.Pull? && step.r !in s.versions)
    ensures Apply(s, step) == s
  {}

  /** A resolution writes over the version its dialog showed, and over no other. */
  lemma StaleChoiceWritesNothing(s: State, step: Step)
    requires step.KeepLocalDoc? || step.TakeDeletion? || step.TakeAlive?
    requires step.d !in s.docs || Compare(s.docs[step.d].vclock, step.shown) != Equal
    ensures Apply(s, step) == s
  {}

  /** Keeping the local version keeps its content under a clock strictly above both
      sides: whoever holds the remote version then takes it, and the keeper does
      not take the remote one back. */
  lemma {:induction false} KeepLocalKeeps(s: State, d: Device, shown: Clock, remote: Doc, recreate: bool)
    requires d in s.docs && Compare(s.docs[d].vclock, shown) == Equal && Known(s, remote)
    ensures var t := Apply(s, KeepLocalDoc(d, shown, remote));
            d in t.docs && t.docs[d] in t.versions
            && var l, kept := s.docs[d], t.docs[d];
               && kept.chunks == l.chunks && kept.deleted == l.deleted
               && Above(kept.vclock, l.vclock) && Above(kept.vclock, remote.vclock)
               && (DocContent(remote) != DocContent(l) ==>
                     && ResolveOnPull(Some(remote), kept, recreate) == TakeRemote
                     && ResolveOnPull(Some(kept), remote, recreate) == KeepLocal)
  {
    var kept := Apply(s, KeepLocalDoc(d, shown, remote)).docs[d];
    IncrementAbove(remote.vclock, s.docs[d].vclock, d);
    if DocContent(remote) != DocContent(s.docs[d]) {
      NewerIsTaken(remote, kept, recreate);
    }
  }

  /** Taking a deletion leaves the device's doc deleted, under a clock strictly
      above both sides, so that whoever holds either version alive takes it. */
  lemma {:induction false} TakenDeletionDeletes(s: State, d: Device, shown: Clock, remote: Doc, recreate: bool)
    requires d in s.docs && Compare(s.docs[d].vclock, shown) == Equal && Known(s, remote) && remote.deleted
    ensures var t := Apply(s, TakeDeletion(d, shown, remote));
            d in t.docs && t.docs[d] in t.versions
            && var l, gone := s.docs[d], t.docs[d];
               && gone.deleted && Above(gone.vclock, l.vclock) && Above(gone.vclock, remote.vclock)
               && (!l.deleted ==> ResolveOnPull(Some(l), gone, recreate) == TakeRemote)
  {
    ShownAbove(s.docs[d].vclock, shown, remote.vclock, d);
    if !s.docs[d].deleted {
      NewerIsTaken(s.docs[d], remote.(vclock := Increment(Join(shown, remote.vclock), d)), recreate);
    }
  }

  lemma {:induction false} ShownAbove(l: Clock, shown: Clock, r: Clock, d: Device)
    requires Compare(l, shown) == Equal
    ensures var c := Increment(Join(shown, r), d); Above(c, l) && Above(c, r)
  {
    EqualEntries(l, shown);
    IncrementAbove(shown, r, d);
    var c := Increment(Join(shown, r), d);
    assert Entry(c, d) > Entry(l, d);
    assert forall x :: Entry(l, x) <= Entry(c, x);
  }

  /** Taking an alive remote version stores that very version. */
  lemma TakenAliveIsStored(s: State, d: Device, shown: Clock, remote: Doc)
    requires d in s.docs && Compare(s.docs[d].vclock, shown) == Equal && remote in s.versions && !remote.deleted
    ensures Apply(s, TakeAlive(d, shown, remote)).docs == s.docs[d := remote]
  {}

  /** After an edit the device has the new content, strictly above its old doc: a
      device that still has that one takes it if the contents differ. */
  lemma {:induction false} EditStores(s: State, d: Device, chunks: seq<ChunkId>, deleted: bool, recreate: bool)
    ensures var t := Apply(s, Edit(d, chunks, deleted));
            d in t.docs && t.docs[d] in t.versions
            && DocContent(t.docs[d]) == ContentOf(chunks, deleted) && Above(t.docs[d].vclock, LocalClock(s, d))
            && (d in s.docs && DocContent(s.docs[d]) != ContentOf(chunks, deleted) ==>
                  ResolveOnPull(Some(s.docs[d]), t.docs[d], recreate) == TakeRemote)
  {
    assert Entry(Increment(LocalClock(s, d), d), d) > Entry(LocalClock(s, d), d);
  }

  /** A rename stores its content strictly above the doc at this path and the clock
      of the path it comes from: the larger of each entry, and one or two more of
      the device's own. */
  lemma {:induction false} RenameStores(s: State, step: Step)
    requires step.Rename?
    ensures var t := Apply(s, step);
            step.d in t.docs && t.docs[step.d] in t.versions
            && DocContent(t.docs[step.d]) == ContentOf(step.chunks, step.deleted)
            && Above(t.docs[step.d].vclock, LocalClock(s, step.d)) && Above(t.docs[step.d].vclock, step.other)
            && forall x :: Entry(t.docs[step.d].vclock, x)
                 == Max(Entry(step.other, x), Entry(LocalClock(s, step.d), x))
                    + if x != step.d then 0 else if step.twice then 2 else 1
  {
    var base := Join(step.other, LocalClock(s, step.d));
    var doc := Apply(s, step).docs[step.d];
    assert forall x :: Entry(base, x) <= Entry(doc.vclock, x);
    assert Entry(base, step.d) < Entry(doc.vclock, step.d);
  }

  // ── What pulling achieves ──────────────────────────────

  /** The docs of two devices after each pulls the other's. */
  ghost predicate Agree(a: Doc, b: Doc) {
    DocContent(a) == DocContent(b) && Compare(a.vclock, b.vclock) == Equal
  }

  lemma JoinAgrees(a: Doc, b: Doc)
    requires DocContent(a) == DocContent(b)
    ensures var m := a.(vclock := Join(b.vclock, a.vclock));
            && (ResolveOnPull(Some(a), m, false) == SilentMerge ==> Agree(m.(vclock := Join(a.vclock, m.vclock)), m))
            && (ResolveOnPull(Some(a), m, false) != SilentMerge ==>
                Agree(a, m) && ResolveOnPull(Some(a), m, false) == KeepLocal)
  {
    var m := a.(vclock := Join(b.vclock, a.vclock));
    assert forall d :: Entry(Join(a.vclock, m.vclock), d) == Entry(m.vclock, d);
  }

  lemma PullStores(s: State, d: Device, r: Doc)
    requires d in s.docs && r in s.versions
    ensures var verdict := ResolveOnPull(Some(s.docs[d]), r, false); var docs := Apply(s, Pull(d, r)).docs;
            && (verdict == TakeRemote ==> docs == s.docs[d := r])
            && (verdict == SilentMerge ==> docs == s.docs[d := r.(vclock := Join(s.docs[d].vclock, r.vclock))])
            && (verdict == KeepLocal || verdict == Conflict ==> Apply(s, Pull(d, r)) == s)
  {
  }

  lemma MergeConverges(s: State, x: Device, y: Device)
    requires x in s.docs && y in s.docs && x != y && s.docs[x] in s.versions
    requires ResolveOnPull(Some(s.docs[y]), s.docs[x], false) == SilentMerge
    ensures var s1 := Apply(s, Pull(y, s.docs[x]));
            && y in s1.docs
            && var s2 := Apply(s1, Pull(x, s1.docs[y]));
               x in s2.docs && y in s2.docs && Agree(s2.docs[x], s2.docs[y])
  {
    var a, b := s.docs[x], s.docs[y];
    var m := a.(vclock := Join(b.vclock, a.vclock));
    var s1 := Apply(s, Pull(y, a));
    PullStores(s, y, a);
    assert m in s1.versions;
    assert s1.docs[x] == a && s1.docs[y] == m;
    PullStores(s1, x, m);
    MergeAgrees(a, b);
  }

  lemma MergeAgrees(a: Doc, b: Doc)
    requires ResolveOnPull(Some(b), a, false) == SilentMerge
    ensures var m := a.(vclock := Join(b.vclock, a.vclock)); var verdict := ResolveOnPull(Some(a), m, false);
            (verdict == SilentMerge && Agree(m.(vclock := Join(a.vclock, m.vclock)), m))
                || (verdict == KeepLocal && Agree(a, m))
  {
    JoinAgrees(a, b);
  }

  /** Without a conflict, pulling each other's doc once makes two devices agree
      on content and clock. */
  lemma {:induction false} PullsConverge(s: State, x: Device, y: Device)
    requires x in s.docs && y in s.docs && x != y && s.docs[x] in s.versions && s.docs[y] in s.versions
    requires ResolveOnPull(Some(s.docs[y]), s.docs[x], false) != Conflict
    ensures var s1 := Apply(s, Pull(y, s.docs[x]));
            && y in s1.docs
            && var s2 := Apply(s1, Pull(x, s1.docs[y]));
               x in s2.docs && y in s2.docs && Agree(s2.docs[x], s2.docs[y])
  {
    var a, b := s.docs[x], s.docs[y];
    VerdictsMirror(b, a);
    VerdictsMirror(a, a);
    match ResolveOnPull(Some(b), a, false)
    case TakeRemote =>
    case KeepLocal => assert Apply(s, Pull(y, a)) == s;
    case SilentMerge => MergeConverges(s, x, y);
  }

  /** No step lowers what a device has seen, taking an alive doc aside. */
  lemma ClocksNeverGoBack(s: State, step: Step, d: Device)
    requires !step.TakeAlive?
    ensures Leq(LocalClock(s, d), LocalClock(Apply(s, step), d))
  {
    if step.d == d && d in s.docs {
      if step.Pull? {
        TakenIsNewer(s.docs[d], step.r);
      } else if step.TakeDeletion? && MatchesExpected(s, d, step.shown) {
        EqualEntries(s.docs[d].vclock, step.shown);
      }
    }
  }
}
