/** Repair of the drift a consistency report finds (src/sync/chunk-repair.ts). */
module ChunkRepair {
  import opened Utf16
  import opened Sequences
  import opened IdOrder
  import opened DocStore
  import opened ChunkConsistency
  import opened RemoteCouch

  datatype Plan = Plan(toPush: seq<DocId>, toPull: seq<DocId>, toDeleteLocal: seq<DocId>, toDeleteRemote: seq<DocId>)

  datatype Direction = Push | Pull | DeleteLocal | DeleteRemote

  datatype Failure = Failure(id: DocId, direction: Direction)

  datatype RepairResult = RepairResult(pushed: nat, pulled: nat, deletedLocal: nat, deletedRemote: nat,
      failed: seq<Failure>)

  /** What the surroundings answer during one repair: the phases that throw, the
      ids whose write had reached the server when a remote phase threw (a lost
      reply), the ids the server refuses, the pulled chunks that fail their hash
      check, and the references the two guards re-read. */
  datatype Env = Env(throws: set<Direction>, landed: set<DocId>, refusedPush: set<DocId>, badPull: set<DocId>,
      refusedDelete: set<DocId>,
                     localRefs: set<DocId>, remoteRefs: set<DocId>)

  /** The elements of `s` in `m`, in the order of `s`. */
  function Within(s: seq<Text>, m: set<Text>): (r: seq<Text>)
    ensures forall x :: x in r <==> x in s && x in m
  {
    if s == [] then []
    else
      var n := |s| - 1;
      assert s == s[..n] + [s[n]];
      Within(s[..n], m) + if s[n] in m then [s[n]] else []
  }

  function PlanFromReport(r: Report): Plan {
    Plan(Minus(r.localOnly, Members(r.orphanLocal)), Minus(r.remoteOnly, Members(r.orphanRemote)),
         Within(r.localOnly, Members(r.orphanLocal)), Within(r.remoteOnly, Members(r.orphanRemote)))
  }

  function FailAll(ids: seq<DocId>, direction: Direction): seq<Failure> {
    seq(|ids|, i requires 0 <= i < |ids| => Failure(ids[i], direction))
  }

  /** What a throwing phase may have done: the two local phases write in one
      transaction and so did nothing. */
  function Landed(direction: Direction, env: Env): set<DocId> {
    if direction == Push || direction == DeleteRemote then env.landed else {}
  }

  predicate Reached(direction: Direction, env: Env, id: DocId) {
    direction in env.throws ==> id in Landed(direction, env)
  }

  function Sent(ids: seq<DocId>, direction: Direction, env: Env): seq<DocId> {
    if direction in env.throws then Within(ids, Landed(direction, env)) else ids
  }

  /** The ids a phase changes, those it counts, and its failures: a phase that
      throws counts nothing and fails all of its ids. */
  function PhaseDone(ids: seq<DocId>, source: set<DocId>, refused: set<DocId>, direction: Direction,
      env: Env): seq<DocId> {
    Done(Sent(ids, direction, env), source, refused)
  }

  function PhaseCount(ids: seq<DocId>, source: set<DocId>, refused: set<DocId>, direction: Direction, env: Env): nat {
    if direction in env.throws then 0 else |PhaseDone(ids, source, refused, direction, env)|
  }

  function PhaseFailed(ids: seq<DocId>, direction: Direction, env: Env): seq<Failure> {
    if direction in env.throws then FailAll(ids, direction) else []
  }

  function Repaired(s: Stores, plan: Plan, env: Env): (Stores, RepairResult) {
    var pushed := PhaseDone(plan.toPush, s.local.Keys, env.refusedPush, Push, env);
    var remote1 := Copy(s.remote, s.local, pushed);
    var pulled := PhaseDone(plan.toPull, remote1.Keys, env.badPull, Pull, env);
    var local1 := Copy(s.local, remote1, pulled);
    var toDeleteLocal := Minus(plan.toDeleteLocal, env.localRefs);
    var dropped := Sent(toDeleteLocal, DeleteLocal, env);
    var toTombstone := Minus(plan.toDeleteRemote, env.remoteRefs);
    var tombstoned := PhaseDone(toTombstone, remote1.Keys, env.refusedDelete, DeleteRemote, env);
    (Stores(Drop(local1, dropped), Drop(remote1, tombstoned)),
     RepairResult(PhaseCount(plan.toPush, s.local.Keys, env.refusedPush, Push, env),
                  PhaseCount(plan.toPull, remote1.Keys, env.badPull, Pull, env),
                  |dropped|,
                  PhaseCount(toTombstone, remote1.Keys, env.refusedDelete, DeleteRemote, env),
                  PhaseFailed(plan.toPush, Push, env) + PhaseFailed(plan.toPull, Pull, env)
                  + PhaseFailed(toDeleteLocal, DeleteLocal, env) + PhaseFailed(toTombstone, DeleteRemote, env)))
  }

  lemma FailAllNext(ids: seq<DocId>, i: nat, direction: Direction)
    requires i < |ids|
    ensures FailAll(ids[..i + 1], direction) == FailAll(ids[..i], direction) + [Failure(ids[i], direction)]
  {}

  method FailPhase(ids: seq<DocId>, direction: Direction) returns (failed: seq<Failure>)
    ensures failed == FailAll(ids, direction)
  {
    failed := [];
    for i := 0 to |ids|
      invariant failed == FailAll(ids[..i], direction)
    {
      FailAllNext(ids, i, direction);
      failed := failed + [Failure(ids[i], direction)];
    }
    assert ids[..|ids|] == ids;
  }

  method DropReferenced(ids: seq<DocId>, refs: set<DocId>) returns (r: seq<DocId>)
    ensures r == Minus(ids, refs)
  {
    r := [];
    for i := 0 to |ids|
      invariant r == Minus(ids[..i], refs)
    {
      MinusNext(ids, i, refs);
      if ids[i] !in refs { r := r + [ids[i]]; }
    }
    assert ids[..|ids|] == ids;
  }

  lemma SentNothing(ids: seq<DocId>, direction: Direction, env: Env)
    requires direction in env.throws && Landed(direction, env) == {}
    ensures Sent(ids, direction, env) == []
  {
    WithinNone(ids);
  }

  lemma WithinNone(ids: seq<DocId>)
    ensures Within(ids, {}) == []
  {}

  lemma DropIs(before: map<DocId, Bytes>, after: map<DocId, Bytes>, ids: seq<DocId>)
    requires forall id :: id in ids ==> id !in after
    requires forall id :: id in before && id !in ids ==> id in after && after[id] == before[id]
    requires forall id :: id in after ==> id in before
    ensures after == Drop(before, ids)
  {}

  method RepairChunkDrift(stores: Replicas, plan: Plan, env: Env) returns (result: RepairResult)
    modifies stores
    ensures (Stores(stores.local, stores.remote), result) == Repaired(old(Stores(stores.local, stores.remote)), plan,
        env)
  {
    var failedPush: seq<Failure>, failedPull: seq<Failure>, failedLocal: seq<Failure>,
        failedRemote: seq<Failure> := [], [], [], [];
    var pushed := stores.PushDocs(Sent(plan.toPush, Push, env), env.refusedPush);
    if Push in env.throws {
      failedPush := FailPhase(plan.toPush, Push);
    }
    var pulled := stores.PullDocs(Sent(plan.toPull, Pull, env), env.badPull);
    if Pull in env.throws {
      failedPull := FailPhase(plan.toPull, Pull);
    }
    var toDeleteLocal := DropReferenced(plan.toDeleteLocal, env.localRefs);
    var dropped := Sent(toDeleteLocal, DeleteLocal, env);
    ghost var before := stores.local;
    stores.DeleteLocalDocs(dropped);
    DropIs(before, stores.local, dropped);
    if DeleteLocal in env.throws {
      failedLocal := FailPhase(toDeleteLocal, DeleteLocal);
    }
    var toTombstone := DropReferenced(plan.toDeleteRemote, env.remoteRefs);
    var tombstoned := stores.DeleteRemoteDocs(Sent(toTombstone, DeleteRemote, env), env.refusedDelete);
    if DeleteRemote in env.throws {
      failedRemote := FailPhase(toTombstone, DeleteRemote);
    }
    result := RepairResult(
      if Push in env.throws then 0 else |pushed|,
      if Pull in env.throws then 0 else |pulled|,
      |dropped|,
      if DeleteRemote in env.throws then 0 else |tombstoned|,
      failedPush + failedPull + failedLocal + failedRemote);
  }

  /** The phase an id belongs to, as its guard left it. */
  predicate InPhase(plan: Plan, env: Env, direction: Direction, id: DocId) {
    match direction
    case Push => id in plan.toPush
    case Pull => id in plan.toPull
    case DeleteLocal => id in plan.toDeleteLocal && id !in env.localRefs
    case DeleteRemote => id in plan.toDeleteRemote && id !in env.remoteRefs
  }

  lemma FailAllMember(ids: seq<DocId>, direction: Direction, f: Failure)
    ensures f in FailAll(ids, direction) <==> f.direction == direction && f.id in ids
  {
    if f.direction == direction && f.id in ids {
      var i :| 0 <= i < |ids| && ids[i] == f.id;
      assert FailAll(ids, direction)[i] == f;
    }
  }

  /** `failed` names exactly the ids of the phases that threw, each with its
      phase; ids that a guard dropped are not among them. */
  lemma {:induction false} FailedExactly(s: Stores, plan: Plan, env: Env, f: Failure)
    ensures f in Repaired(s, plan, env).1.failed <==> f.direction in env.throws && InPhase(plan, env, f.direction, f.id)
  {
    var local, remote := Minus(plan.toDeleteLocal, env.localRefs), Minus(plan.toDeleteRemote, env.remoteRefs);
    FailAllMember(plan.toPush, Push, f);
    FailAllMember(plan.toPull, Pull, f);
    FailAllMember(local, DeleteLocal, f);
    FailAllMember(remote, DeleteRemote, f);
    var a, b := PhaseFailed(plan.toPush, Push, env), PhaseFailed(plan.toPull, Pull, env);
    var c, d := PhaseFailed(local, DeleteLocal, env), PhaseFailed(remote, DeleteRemote, env);
    assert f in a + b + c + d <==> f in a || f in b || f in c || f in d;
  }

  // ── The fixed point ────────────────────────────────────

  /** The report of two inventories. */
  ghost predicate Reports(r: Report, s: Stores, referenced: seq<Text>) {
    exists local, remote ::
      Members(local) == s.local.Keys && Members(remote) == s.remote.Keys
          && IsFinal(r, local, remote, Members(referenced))
  }

  /** Which ids each part of the plan has. */
  lemma PlanMembers(r: Report, s: Stores, referenced: seq<Text>, id: DocId)
    requires Reports(r, s, referenced)
    ensures var plan := PlanFromReport(r);
            && (id in plan.toPush <==> id in s.local && id !in s.remote && id in referenced)
            && (id in plan.toPull <==> id in s.remote && id !in s.local && id in referenced)
            && (id in plan.toDeleteLocal <==> id in s.local && id !in s.remote && id !in referenced)
            && (id in plan.toDeleteRemote <==> id in s.remote && id !in s.local && id !in referenced)
  {}

  /** No FileDoc was written since the report. */
  ghost predicate SameReferences(env: Env, referenced: seq<Text>) {
    env.localRefs == Members(referenced) && env.remoteRefs == Members(referenced)
  }

  lemma PhaseDoneMember(ids: seq<DocId>, source: set<DocId>, refused: set<DocId>, direction: Direction, env: Env,
      id: DocId)
    ensures id in PhaseDone(ids, source, refused, direction, env)
       <==> Reached(direction, env, id) && id in ids && id in source && id !in refused
  {
    DoneMember(Sent(ids, direction, env), source, refused, id);
  }

  /** Where one id is after a repair, whatever the plan and the stores. */
  lemma {:induction false} RepairedAt(s: Stores, plan: Plan, env: Env, id: DocId)
    ensures var t := Repaired(s, plan, env).0;
            var remote1 := id in s.remote
              || (id in plan.toPush && id in s.local && id !in env.refusedPush && Reached(Push, env, id));
            var local1 := id in s.local
                || (id in plan.toPull && remote1 && id !in env.badPull && Reached(Pull, env, id));
            && (id in t.local <==>
                  local1 && !(id in plan.toDeleteLocal && id !in env.localRefs && Reached(DeleteLocal, env, id)))
            && (id in t.remote <==>
                  remote1 && !(id in plan.toDeleteRemote && id !in env.remoteRefs && id !in env.refusedDelete
                               && Reached(DeleteRemote, env, id)))
            && (id in t.local ==>
                  (id in s.local && t.local[id] == s.local[id]) || (id in s.remote && t.local[id] == s.remote[id]))
            && (id in t.remote ==>
                  (id in s.local && t.remote[id] == s.local[id]) || (id in s.remote && t.remote[id] == s.remote[id]))
  {
    var pushed := PhaseDone(plan.toPush, s.local.Keys, env.refusedPush, Push, env);
    var remote1 := Copy(s.remote, s.local, pushed);
    PhaseDoneMember(plan.toPush, s.local.Keys, env.refusedPush, Push, env, id);
    PhaseDoneMember(plan.toPull, remote1.Keys, env.badPull, Pull, env, id);
    PhaseDoneMember(Minus(plan.toDeleteRemote, env.remoteRefs), remote1.Keys, env.refusedDelete, DeleteRemote, env, id);
  }

  /** A local phase that throws changes nothing locally. */
  lemma {:induction false} ThrowingLocalPhases(s: Stores, plan: Plan, env: Env, id: DocId)
    ensures var t := Repaired(s, plan, env).0;
            && (Pull in env.throws && id in t.local ==> id in s.local)
            && (DeleteLocal in env.throws && id in s.local ==> id in t.local)
  {
    RepairedAt(s, plan, env, id);
  }

  /** A remote phase that throws changes only what reached the server, and that it
      does change. */
  lemma {:induction false} ThrowingRemotePhases(s: Stores, plan: Plan, env: Env, id: DocId)
    ensures var t := Repaired(s, plan, env).0;
            && (Push in env.throws && id in t.remote && id !in s.remote ==> id in env.landed)
            && (DeleteRemote in env.throws && id in s.remote && id !in t.remote ==> id in env.landed)
  {
    RepairedAt(s, plan, env, id);
  }

  lemma {:induction false} LandedIsDone(s: Stores, plan: Plan, env: Env, id: DocId)
    requires id in env.landed
    ensures var t := Repaired(s, plan, env).0;
            && (id in plan.toPush && id in s.local && id !in env.refusedPush && id !in plan.toDeleteRemote ==>
                  id in t.remote)
            && (id in plan.toDeleteRemote && id !in env.remoteRefs && id !in env.refusedDelete ==> id !in t.remote)
  {
    RepairedAt(s, plan, env, id);
  }

  /** A chunk id names one content, on whichever side it is stored. */
  ghost predicate SameContent(s: Stores) {
    forall id :: id in s.local && id in s.remote ==> s.local[id] == s.remote[id]
  }

  /** Whatever the plan, however stale the report it came from, and whatever
      fails: a stored chunk that a guard finds referenced is not deleted, every
      chunk kept or copied has its content, and none appears out of nowhere. */
  lemma {:induction false} RepairIsSafe(s: Stores, plan: Plan, env: Env, id: DocId)
    ensures var t := Repaired(s, plan, env).0;
            && (id in env.localRefs && id in s.local ==> id in t.local)
            && (id in env.remoteRefs && id in s.remote ==> id in t.remote)
            && (id in t.local || id in t.remote ==> id in s.local || id in s.remote)
            && (SameContent(s) && id in s.local && id in t.local ==> t.local[id] == s.local[id])
            && (SameContent(s) && id in s.remote && id in t.remote ==> t.remote[id] == s.remote[id])
            && (SameContent(s) && id in t.local && id in t.remote ==> t.local[id] == t.remote[id])
  {
    RepairedAt(s, plan, env, id);
  }

  /** With a report of these stores a chunk on both sides is not touched. */
  lemma {:induction false} TwoSidedUntouched(r: Report, s: Stores, referenced: seq<Text>, env: Env, id: DocId)
    requires Reports(r, s, referenced) && id in s.local && id in s.remote
    ensures var t := Repaired(s, PlanFromReport(r), env).0;
            id in t.local && id in t.remote && t.local[id] == s.local[id] && t.remote[id] == s.remote[id]
  {
    var plan := PlanFromReport(r);
    PlanMembers(r, s, referenced, id);
    RepairedAt(s, plan, env, id);
    PhaseDoneMember(plan.toPush, s.local.Keys, env.refusedPush, Push, env, id);
    var remote1 := Copy(s.remote, s.local, PhaseDone(plan.toPush, s.local.Keys, env.refusedPush, Push, env));
    PhaseDoneMember(plan.toPull, remote1.Keys, env.badPull, Pull, env, id);
  }

  /** Every phase did all of its ids, as the counts show. */
  ghost predicate CountsComplete(plan: Plan, result: RepairResult) {
    && result.pushed == |plan.toPush| && result.pulled == |plan.toPull|
    && result.deletedLocal == |plan.toDeleteLocal| && result.deletedRemote == |plan.toDeleteRemote|
  }

  lemma MinusNone(ids: seq<DocId>, m: set<DocId>)
    requires forall id :: id in ids ==> id !in m
    ensures Minus(ids, m) == ids
  {}

  lemma PhaseComplete(ids: seq<DocId>, source: set<DocId>, refused: set<DocId>, direction: Direction, env: Env)
    requires forall id :: id in ids ==> id in source
    ensures PhaseCount(ids, source, refused, direction, env) == |ids|
       <==> forall id :: id in ids ==> direction !in env.throws && id !in refused
  {
    DoneAll(ids, source, refused);
    if ids != [] {
      assert ids[0] in ids;
    }
  }

  /** The phase that owns `id`, if any, did its work. */
  ghost predicate Settled(plan: Plan, env: Env, id: DocId) {
    && (id in plan.toPush ==> Reached(Push, env, id) && id !in env.refusedPush)
    && (id in plan.toPull ==> Reached(Pull, env, id) && id !in env.badPull)
    && (id in plan.toDeleteLocal ==> Reached(DeleteLocal, env, id))
    && (id in plan.toDeleteRemote ==> Reached(DeleteRemote, env, id) && id !in env.refusedDelete)
  }

  /** It did, and its reply arrived. */
  ghost predicate Answered(plan: Plan, env: Env, id: DocId) {
    && (id in plan.toPush ==> Push !in env.throws && id !in env.refusedPush)
    && (id in plan.toPull ==> Pull !in env.throws && id !in env.badPull)
    && (id in plan.toDeleteLocal ==> DeleteLocal !in env.throws)
    && (id in plan.toDeleteRemote ==> DeleteRemote !in env.throws && id !in env.refusedDelete)
  }

  /** What the plan's parts are drawn from. */
  lemma PlanSources(r: Report, s: Stores, referenced: seq<Text>)
    requires Reports(r, s, referenced)
    ensures var plan := PlanFromReport(r);
            && (forall id :: id in plan.toPush ==> id in s.local.Keys)
            && (forall id :: id in plan.toPull ==> id in s.remote.Keys)
            && (forall id :: id in plan.toDeleteLocal ==> id !in Members(referenced))
            && (forall id :: id in plan.toDeleteRemote ==> id in s.remote.Keys && id !in Members(referenced))
  {}

  /** Each count is complete exactly when its phase settled all of its ids. */
  lemma CountsBySort(plan: Plan, s: Stores, env: Env)
    requires forall id :: id in plan.toPush ==> id in s.local.Keys
    requires forall id :: id in plan.toPull ==> id in s.remote.Keys
    requires forall id :: id in plan.toDeleteLocal ==> id !in env.localRefs
    requires forall id :: id in plan.toDeleteRemote ==> id in s.remote.Keys && id !in env.remoteRefs
    ensures var result := Repaired(s, plan, env).1;
            && (result.pushed == |plan.toPush| <==> forall id :: id in plan.toPush ==>
                Push !in env.throws && id !in env.refusedPush)
            && (result.pulled == |plan.toPull| <==> forall id :: id in plan.toPull ==>
                Pull !in env.throws && id !in env.badPull)
            && (result.deletedLocal == |plan.toDeleteLocal| <==> forall id :: id in plan.toDeleteLocal ==>
                DeleteLocal !in env.throws)
            && (result.deletedRemote == |plan.toDeleteRemote| <==>
                  forall id :: id in plan.toDeleteRemote ==> DeleteRemote !in env.throws && id !in env.refusedDelete)
  {
    MinusNone(plan.toDeleteLocal, env.localRefs);
    MinusNone(plan.toDeleteRemote, env.remoteRefs);
    var remote1 := Copy(s.remote, s.local, PhaseDone(plan.toPush, s.local.Keys, env.refusedPush, Push, env));
    PhaseComplete(plan.toPush, s.local.Keys, env.refusedPush, Push, env);
    PhaseComplete(plan.toPull, remote1.Keys, env.badPull, Pull, env);
    PhaseComplete(plan.toDeleteRemote, remote1.Keys, env.refusedDelete, DeleteRemote, env);
    if plan.toDeleteLocal != [] {
      assert plan.toDeleteLocal[0] in plan.toDeleteLocal;
    }
    if DeleteLocal in env.throws {
      SentNothing(plan.toDeleteLocal, DeleteLocal, env);
    }
  }

  /** The counts are complete exactly when nothing was refused or thrown. */
  lemma {:induction false} CountsMean(r: Report, s: Stores, referenced: seq<Text>, env: Env)
    requires Reports(r, s, referenced) && SameReferences(env, referenced)
    ensures CountsComplete(PlanFromReport(r), Repaired(s, PlanFromReport(r), env).1)
       <==> forall id :: Answered(PlanFromReport(r), env, id)
  {
    PlanSources(r, s, referenced);
    CountsBySort(PlanFromReport(r), s, env);
    AllAnswered(PlanFromReport(r), env);
  }

  lemma AllAnswered(plan: Plan, env: Env)
    ensures (forall id :: Answered(plan, env, id))
       <==> && (forall id :: id in plan.toPush ==> Push !in env.throws && id !in env.refusedPush)
            && (forall id :: id in plan.toPull ==> Pull !in env.throws && id !in env.badPull)
            && (forall id :: id in plan.toDeleteLocal ==> DeleteLocal !in env.throws)
            && (forall id :: id in plan.toDeleteRemote ==> DeleteRemote !in env.throws && id !in env.refusedDelete)
  {
    if forall id :: Answered(plan, env, id) {
      forall id
        ensures id in plan.toPush ==> Push !in env.throws && id !in env.refusedPush
        ensures id in plan.toPull ==> Pull !in env.throws && id !in env.badPull
        ensures id in plan.toDeleteLocal ==> DeleteLocal !in env.throws
        ensures id in plan.toDeleteRemote ==> DeleteRemote !in env.throws && id !in env.refusedDelete
      {
        assert Answered(plan, env, id);
      }
    }
  }

  lemma {:induction false} SettledMeans(r: Report, s: Stores, referenced: seq<Text>, env: Env, id: DocId)
    requires Reports(r, s, referenced) && SameReferences(env, referenced)
    ensures var t := Repaired(s, PlanFromReport(r), env).0;
            (id in t.local <==> id in t.remote) <==> Settled(PlanFromReport(r), env, id)
  {
    RepairedAt(s, PlanFromReport(r), env, id);
    PlanMembers(r, s, referenced, id);
  }

  lemma EqualKeys(t: Stores, plan: Plan, env: Env)
    requires forall id :: (id in t.local <==> id in t.remote) <==> Settled(plan, env, id)
    ensures t.local.Keys == t.remote.Keys <==> forall id :: Settled(plan, env, id)
  {}

  /** A remote phase threw although some of its writes had landed. */
  predicate LostReply(env: Env) {
    env.landed != {} && (Push in env.throws || DeleteRemote in env.throws)
  }

  /** Without interleaved writes the two inventories are equal afterwards
      exactly when every id's phase did its work; complete counts say so, and
      unless a reply was lost only complete counts do. */
  lemma {:induction false} RepairReachesFixedPoint(r: Report, s: Stores, referenced: seq<Text>, env: Env)
    requires Reports(r, s, referenced) && SameReferences(env, referenced)
    ensures var plan := PlanFromReport(r); var (t, result) := Repaired(s, plan, env);
            && (t.local.Keys == t.remote.Keys <==> forall id :: Settled(plan, env, id))
            && (CountsComplete(plan, result) ==> t.local.Keys == t.remote.Keys)
            && (!LostReply(env) ==> (t.local.Keys == t.remote.Keys <==> CountsComplete(plan, result)))
  {
    var plan := PlanFromReport(r);
    CountsMean(r, s, referenced, env);
    forall id
      ensures (id in Repaired(s, plan, env).0.local <==> id in Repaired(s, plan, env).0.remote)
          <==> Settled(plan, env, id)
    {
      SettledMeans(r, s, referenced, env, id);
    }
    EqualKeys(Repaired(s, plan, env).0, plan, env);
    AnsweredIsSettled(plan, env);
  }

  lemma AnsweredIsSettled(plan: Plan, env: Env)
    ensures (forall id :: Answered(plan, env, id)) ==> forall id :: Settled(plan, env, id)
    ensures !LostReply(env) && (forall id :: Settled(plan, env, id)) ==> forall id :: Answered(plan, env, id)
  {
    forall id
      ensures Answered(plan, env, id) ==> Settled(plan, env, id)
      ensures !LostReply(env) && Settled(plan, env, id) ==> Answered(plan, env, id)
    {
    }
  }

  /** What a report on the repaired stores says. */
  lemma {:induction false} ReanalysisAfterRepair(r: Report, s: Stores, referenced: seq<Text>, env: Env, r': Report)
    requires Reports(r, s, referenced) && SameReferences(env, referenced)
    requires CountsComplete(PlanFromReport(r), Repaired(s, PlanFromReport(r), env).1)
    requires Reports(r', Repaired(s, PlanFromReport(r), env).0, referenced)
    ensures r'.localOnly == [] && r'.remoteOnly == []
    ensures r'.missingReferenced == r.missingReferenced
    ensures forall id :: id in r'.orphanLocal <==> id in r.orphanLocal && id in r.orphanRemote
    ensures forall id :: id in r'.orphanRemote <==> id in r.orphanLocal && id in r.orphanRemote
  {
    var t := Repaired(s, PlanFromReport(r), env).0;
    RepairReachesFixedPoint(r, s, referenced, env);
    NoOneSided(r', t, referenced);
    forall id
      ensures id in r'.missingReferenced <==> id in r.missingReferenced
      ensures id in r'.orphanLocal <==> id in r.orphanLocal && id in r.orphanRemote
      ensures id in r'.orphanRemote <==> id in r.orphanLocal && id in r.orphanRemote
    {
      AfterRepairAt(r, s, referenced, env, r', id);
    }
    ReportAt(r, s, referenced, []);
    ReportAt(r', t, referenced, []);
    AscendingUnique(r'.missingReferenced, r.missingReferenced);
  }

  /** Equal inventories have no one-sided chunk. */
  lemma {:induction false} NoOneSided(r: Report, s: Stores, referenced: seq<Text>)
    requires Reports(r, s, referenced) && s.local.Keys == s.remote.Keys
    ensures r.localOnly == [] && r.remoteOnly == []
  {
    var local, remote :|
      Members(local) == s.local.Keys && Members(remote) == s.remote.Keys
          && IsFinal(r, local, remote, Members(referenced));
    assert forall id :: id in local ==> id in Members(local) && id in Members(remote);
    assert forall id :: id in remote ==> id in Members(remote) && id in Members(local);
    MinusAll(local, Members(remote));
    MinusAll(remote, Members(local));
  }

  lemma {:induction false} ReportAt(r: Report, s: Stores, referenced: seq<Text>, id: DocId)
    requires Reports(r, s, referenced)
    ensures id in r.orphanLocal <==> id in s.local && id !in referenced
    ensures id in r.orphanRemote <==> id in s.remote && id !in referenced
    ensures id in r.missingReferenced <==> id in referenced && id !in s.local && id !in s.remote
    ensures Ascending(r.missingReferenced)
  {
    var local, remote :|
      Members(local) == s.local.Keys && Members(remote) == s.remote.Keys
          && IsFinal(r, local, remote, Members(referenced));
    assert id in s.local <==> id in local;
    assert id in s.remote <==> id in remote;
  }

  /** The orphans on both sides stay orphans on both sides, and no others do. */
  lemma {:induction false} AfterRepairAt(r: Report, s: Stores, referenced: seq<Text>, env: Env, r': Report, id: DocId)
    requires Reports(r, s, referenced) && SameReferences(env, referenced)
    requires CountsComplete(PlanFromReport(r), Repaired(s, PlanFromReport(r), env).1)
    requires Reports(r', Repaired(s, PlanFromReport(r), env).0, referenced)
    ensures id in r'.orphanLocal <==> id in r.orphanLocal && id in r.orphanRemote
    ensures id in r'.orphanRemote <==> id in r.orphanLocal && id in r.orphanRemote
    ensures id in r'.missingReferenced <==> id in r.missingReferenced
    ensures Ascending(r.missingReferenced) && Ascending(r'.missingReferenced)
  {
    var t := Repaired(s, PlanFromReport(r), env).0;
    ReportAt(r, s, referenced, id);
    ReportAt(r', t, referenced, id);
    RepairReachesFixedPoint(r, s, referenced, env);
    assert id in t.local.Keys <==> id in t.remote.Keys;
    RepairedAt(s, PlanFromReport(r), env, id);
    PlanMembers(r, s, referenced, id);
  }

  lemma {:induction false} MinusAll(s: seq<Text>, m: set<Text>)
    requires forall x :: x in s ==> x in m
    ensures Minus(s, m) == []
    decreases |s|
  {
    if s != [] {
      var n := |s| - 1;
      assert s == s[..n] + [s[n]];
      MinusAll(s[..n], m);
    }
  }

  /** An empty failure list is not enough: a push the server refuses id by id
      is only missing from the count. */
  lemma {:induction false} FailedEmptyIsNotEnough(id: DocId, content: Bytes)
    ensures var s := Stores(map[id := content], map[]);
            var env := Env({}, {}, {id}, {}, {}, {id}, {id});
            var r := Report(1, 0, [id], [], [], [], []);
            && Reports(r, s, [id])
            && var (t, result) := Repaired(s, PlanFromReport(r), env);
               result.failed == [] && t.local.Keys != t.remote.Keys
  {
    var s := Stores(map[id := content], map[]);
    var env := Env({}, {}, {id}, {}, {}, {id}, {id});
    var r := Report(1, 0, [id], [], [], [], []);
    assert [id][..0] == [] && Members([id]) == {id} && Members<DocId>([]) == {};
    assert Minus([], {id}) == [] && Minus([id], {}) == [id] && Minus([id], {id}) == [] && Minus([], {}) == [];
    assert {id} + {} == {id};
    assert IsFinal(r, [id], [], {id});
    assert Members([id]) == s.local.Keys && Members([]) == s.remote.Keys;
    RepairedAt(s, PlanFromReport(r), env, id);
    PlanMembers(r, s, [id], id);
  }
}
