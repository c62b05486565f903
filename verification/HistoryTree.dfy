/** The branching history of a file. */
module HistoryTree {
  // Patches that hang off a parent record, a snapshot of the newest text, and the
  // reconstruction of any recorded text (src/history/history-manager.ts,
  // src/history/history-capture.ts).

  import opened Utf16
  import opened Sequences
  import opened Wrappers

  datatype Applied = Applied(text: Text, ok: bool)

  /** The three operations of the diff engine the history relies on. */
  datatype Engine = Engine(
    compute: (Text, Text) -> Text,
    apply: (Text, Text) -> Applied,
    applyReverse: (Text, Text) -> Applied)

  /** A patch applied forward and in reverse undo each other. */
  ghost predicate Inverts(e: Engine) {
    forall a, b :: e.apply(a, e.compute(a, b)).text == b && e.applyReverse(b, e.compute(a, b)).text == a
  }

  datatype Record = Record(path: Text, patches: Text, parentId: Option<nat>)

  datatype Snapshot = Snapshot(content: Text, head: Option<nat>)

  /** The two tables, and the next autoincremented record id. */
  datatype State = State(records: map<nat, Record>, snapshots: map<Text, Snapshot>, nextId: nat)

  datatype Event =
    | Capture(path: Text, content: Text, diffable: bool, saved: bool)
    | Restore(path: Text, id: nat, onDisk: bool)
    | Delete(ids: set<nat>)
    | DeleteByFile(path: Text)
    | DeleteAll
    | Rename(path: Text, newPath: Text)

  function FileRecords(s: State, path: Text): map<nat, Record> {
    map id | id in s.records && s.records[id].path == path :: s.records[id]
  }

  /** Ids from the oldest reachable ancestor down to `id`; stops at a missing
      or an already visited record. */
  function PathToRoot(m: map<nat, Record>, id: Option<nat>, visited: set<nat>): seq<nat>
    decreases |m.Keys - visited|
  {
    match id
    case None => []
    case Some(current) =>
      if current in visited || current !in m then []
      else
        assert m.Keys - (visited + {current}) < m.Keys - visited by {
          assert current in m.Keys - visited;
        }
        Shrinks(m.Keys - (visited + {current}), m.Keys - visited);
        PathToRoot(m, m[current].parentId, visited + {current}) + [current]
  }

  lemma Shrinks(a: set<nat>, b: set<nat>)
    requires a < b
    ensures |a| < |b|
  {
    var x :| x in b && x !in a;
    assert a <= b - {x};
    SubsetSize(a, b - {x});
  }

  /** How many leading ids two paths share. */
  function Shared(a: seq<nat>, b: seq<nat>): (n: nat)
    ensures n <= |a| && n <= |b| && a[..n] == b[..n]
    ensures n < |a| && n < |b| ==> a[n] != b[n]
  {
    if a == [] || b == [] || a[0] != b[0] then 0
    else
      var rest := Shared(a[1..], b[1..]);
      assert a[..rest + 1] == [a[0]] + a[1..][..rest] && b[..rest + 1] == [b[0]] + b[1..][..rest];
      rest + 1
  }

  /** `content` after the patches of `ids` are undone, last one first. */
  function Undo(e: Engine, m: map<nat, Record>, content: Text, ids: seq<nat>): Text
    requires forall k :: 0 <= k < |ids| ==> ids[k] in m
    decreases |ids|
  {
    if ids == [] then content
    else
      var n := |ids| - 1;
      Undo(e, m, e.applyReverse(content, m[ids[n]].patches).text, ids[..n])
  }

  /** `content` after the patches of `ids`, first one first. */
  function Redo(e: Engine, m: map<nat, Record>, content: Text, ids: seq<nat>): Text
    requires forall k :: 0 <= k < |ids| ==> ids[k] in m
  {
    if ids == [] then content
    else
      var n := |ids| - 1;
      e.apply(Redo(e, m, content, ids[..n]), m[ids[n]].patches).text
  }

  lemma {:induction false} PathInMap(m: map<nat, Record>, id: Option<nat>, visited: set<nat>)
    ensures forall k :: 0 <= k < |PathToRoot(m, id, visited)| ==> PathToRoot(m, id, visited)[k] in m
    decreases |m.Keys - visited|
  {
    if id.Some? && id.value !in visited && id.value in m {
      assert id.value in m.Keys - visited;
      Shrinks(m.Keys - (visited + {id.value}), m.Keys - visited);
      PathInMap(m, m[id.value].parentId, visited + {id.value});
    }
  }

  function Reconstruct(e: Engine, s: State, path: Text, id: nat): Option<Text> {
    if path !in s.snapshots then None
    else
      var snapshot := s.snapshots[path];
      if snapshot.head == Some(id) then Some(snapshot.content)
      else if snapshot.head == None then None
      else
        var m := FileRecords(s, path);
        var headPath := PathToRoot(m, snapshot.head, {});
        var targetPath := PathToRoot(m, Some(id), {});
        PathInMap(m, snapshot.head, {});
        PathInMap(m, Some(id), {});
        var n := Shared(headPath, targetPath);
        if n == 0 then None
        else Some(Redo(e, m, Undo(e, m, snapshot.content, headPath[n..]), targetPath[n..]))
  }

  function Previous(s: State, path: Text): Text {
    if path in s.snapshots then s.snapshots[path].content else []
  }

  function Head(s: State, path: Text): Option<nat> {
    if path in s.snapshots then s.snapshots[path].head else None
  }

  /** Whether a capture sees a new text, and whether it adds a record. */
  predicate Changes(s: State, ev: Event) {
    ev.Capture? && ev.diffable && Previous(s, ev.path) != ev.content
  }

  predicate Records(s: State, ev: Event) {
    Changes(s, ev) && ev.saved
  }

  /** Not a capture that fails to save its record while the file has a head. */
  predicate Harmless(s: State, ev: Event) {
    Changes(s, ev) && !ev.saved ==> Head(s, ev.path) == None
  }

  function Without(s: State, ids: set<nat>): map<nat, Record> {
    map id | id in s.records && id !in ids :: s.records[id]
  }

  function Step(e: Engine, s: State, ev: Event): State {
    match ev
    case Capture(path, content, _, saved) =>
      if !Changes(s, ev) then s
      else if !saved then s.(snapshots := s.snapshots[path := Snapshot(content, Head(s, path))])
      else
        State(
          s.records[s.nextId := Record(path, e.compute(Previous(s, path), content), Head(s, path))],
          s.snapshots[path := Snapshot(content, Some(s.nextId))],
          s.nextId + 1)
    case Restore(path, id, onDisk) =>
      var text := Reconstruct(e, s, path, id);
      if text == None || !onDisk then s
      else s.(snapshots := s.snapshots[path := Snapshot(text.value, Some(id))])
    case Delete(ids) => s.(records := Without(s, ids))
    case DeleteByFile(path) =>
      s.(records := map id | id in s.records && s.records[id].path != path :: s.records[id],
          snapshots := s.snapshots - {path})
    case DeleteAll => s.(records := map[], snapshots := map[])
    case Rename(path, newPath) =>
      s.(records := map id | id in s.records ::
                      if s.records[id].path == path then s.records[id].(path := newPath) else s.records[id],
         snapshots := if path in s.snapshots then (s.snapshots - {path})[newPath := s.snapshots[path]] else s.snapshots)
  }

  function Run(e: Engine, s: State, evs: seq<Event>): State {
    if evs == [] then s else Step(e, Run(e, s, evs[..|evs| - 1]), evs[|evs| - 1])
  }

  const EMPTY: State := State(map[], map[], 0)

  /** The text captured under every id that a run handed out. */
  function Captured(e: Engine, s: State, evs: seq<Event>): map<nat, Text> {
    if evs == [] then map[]
    else
      Note(Run(e, s, evs[..|evs| - 1]), Captured(e, s, evs[..|evs| - 1]), evs[|evs| - 1])
  }

  function Note(s: State, texts: map<nat, Text>, ev: Event): map<nat, Text> {
    if Records(s, ev) then texts[s.nextId := ev.content] else texts
  }

  // ── Invariant ──────────────────────────────────────────

  /** The patch of a record with a parent leads from the parent's text to its
      own, and a snapshot with a head holds the text of that head. A root's
      patch is never applied. */
  ghost predicate Inv(e: Engine, s: State, texts: map<nat, Text>) {
    && (forall id: nat :: id in texts <==> id < s.nextId)
    && (forall id :: id in s.records ==> id < s.nextId)
    && (forall id :: id in s.records && s.records[id].parentId.Some? ==> s.records[id].parentId.value < id)
    && Sound(e, s.records, texts)
    && (forall p :: p in s.snapshots && s.snapshots[p].head.Some? ==>
          s.snapshots[p].head.value < s.nextId && s.snapshots[p].content == texts[s.snapshots[p].head.value])
  }

  /** Consecutive ids of a path are parent and child. */
  ghost predicate Chain(m: map<nat, Record>, ids: seq<nat>) {
    && (forall k :: 0 <= k < |ids| ==> ids[k] in m)
    && (forall k :: 0 < k < |ids| ==> m[ids[k]].parentId == Some(ids[k - 1]))
  }

  lemma {:induction false} PathChains(m: map<nat, Record>, id: Option<nat>, visited: set<nat>)
    ensures var p := PathToRoot(m, id, visited); Chain(m, p) && (p != [] ==> Some(p[|p| - 1]) == id)
    decreases |m.Keys - visited|
  {
    if id.Some? && id.value !in visited && id.value in m {
      assert id.value in m.Keys - visited;
      Shrinks(m.Keys - (visited + {id.value}), m.Keys - visited);
      PathChains(m, m[id.value].parentId, visited + {id.value});
    }
  }

  /** Patches of `m` lead from the parent's text to the record's own. */
  ghost predicate Sound(e: Engine, m: map<nat, Record>, texts: map<nat, Text>) {
    forall id :: id in m && m[id].parentId.Some? ==>
      id in texts && m[id].parentId.value in texts && m[id].patches == e.compute(texts[m[id].parentId.value], texts[id])
  }

  lemma {:induction false} UndoReaches(e: Engine, m: map<nat, Record>, texts: map<nat, Text>, ids: seq<nat>, n: nat)
    requires Inverts(e) && Sound(e, m, texts) && Chain(m, ids) && 0 < n <= |ids|
        && (forall k :: 0 <= k < |ids| ==> ids[k] in texts)
    ensures Undo(e, m, texts[ids[|ids| - 1]], ids[n..]) == texts[ids[n - 1]]
    decreases |ids|
  {
    if n < |ids| {
      var k := |ids| - 1;
      assert m[ids[k]].parentId == Some(ids[k - 1]);
      assert e.applyReverse(texts[ids[k]], m[ids[k]].patches).text == texts[ids[k - 1]];
      assert ids[n..][..|ids| - n - 1] == ids[..k][n..];
      UndoReaches(e, m, texts, ids[..k], n);
    }
  }

  lemma {:induction false} RedoReaches(e: Engine, m: map<nat, Record>, texts: map<nat, Text>, ids: seq<nat>, n: nat)
    requires Inverts(e) && Sound(e, m, texts) && Chain(m, ids) && 0 < n <= |ids|
        && (forall k :: 0 <= k < |ids| ==> ids[k] in texts)
    ensures Redo(e, m, texts[ids[n - 1]], ids[n..]) == texts[ids[|ids| - 1]]
    decreases |ids|
  {
    if n < |ids| {
      var k := |ids| - 1;
      assert m[ids[k]].parentId == Some(ids[k - 1]);
      assert e.apply(texts[ids[k - 1]], m[ids[k]].patches).text == texts[ids[k]];
      assert ids[n..][..|ids| - n - 1] == ids[..k][n..];
      RedoReaches(e, m, texts, ids[..k], n);
    }
  }

  /** Whatever was deleted or renamed, a reconstruction is either refused or
      exactly the text captured under that id. */
  lemma ReconstructIsCaptured(e: Engine, s: State, texts: map<nat, Text>, path: Text, id: nat)
    requires Inverts(e) && Inv(e, s, texts)
    ensures Reconstruct(e, s, path, id).Some? ==> id in texts && Reconstruct(e, s, path, id) == Some(texts[id])
  {
    if Reconstruct(e, s, path, id).Some? && s.snapshots[path].head != Some(id) {
      var m := FileRecords(s, path);
      var head := s.snapshots[path].head;
      var headPath := PathToRoot(m, head, {});
      var targetPath := PathToRoot(m, Some(id), {});
      PathChains(m, head, {});
      PathChains(m, Some(id), {});
      var n := Shared(headPath, targetPath);
      assert Sound(e, m, texts);
      assert headPath[..n][n - 1] == targetPath[..n][n - 1];
      UndoReaches(e, m, texts, headPath, n);
      RedoReaches(e, m, texts, targetPath, n);
    }
  }

  /** Exactly when a reconstruction is refused: no snapshot, or the oldest
      reachable ancestors of the head and of the record differ. */
  lemma ReconstructExists(e: Engine, s: State, path: Text, id: nat)
    ensures Reconstruct(e, s, path, id).Some? <==>
              && path in s.snapshots
              && (s.snapshots[path].head == Some(id)
                  || (s.snapshots[path].head.Some?
                      && var m := FileRecords(s, path);
                         var a, b := PathToRoot(m, s.snapshots[path].head, {}), PathToRoot(m, Some(id), {});
                         a != [] && b != [] && a[0] == b[0]))
  {
    if path in s.snapshots && s.snapshots[path].head.Some? && s.snapshots[path].head != Some(id) {
      var m := FileRecords(s, path);
      var a, b := PathToRoot(m, s.snapshots[path].head, {}), PathToRoot(m, Some(id), {});
      var n := Shared(a, b);
      assert n > 0 ==> a[..n][0] == b[..n][0];
    }
  }

  lemma StepInv(e: Engine, s: State, texts: map<nat, Text>, ev: Event)
    requires Inverts(e) && Inv(e, s, texts) && Harmless(s, ev)
    ensures Inv(e, Step(e, s, ev), Note(s, texts, ev))
  {
    match ev
    case Restore(path, id, onDisk) => ReconstructIsCaptured(e, s, texts, path, id);
    case Capture(path, content, _, _) => CaptureInv(e, s, texts, ev);
    case Delete(ids) =>
    case DeleteByFile(path) =>
    case DeleteAll =>
    case Rename(path, newPath) =>
  }

  lemma CaptureInv(e: Engine, s: State, texts: map<nat, Text>, ev: Event)
    requires Inv(e, s, texts) && ev.Capture? && Harmless(s, ev)
    ensures Inv(e, Step(e, s, ev), Note(s, texts, ev))
  {
    if Records(s, ev) {
      var s' := Step(e, s, ev);
      var texts' := texts[s.nextId := ev.content];
      assert forall id :: id in s.records ==> s'.records[id] == s.records[id] && id != s.nextId;
      assert Sound(e, s'.records, texts');
    }
  }

  ghost predicate Truthful(e: Engine, s: State, texts: map<nat, Text>) {
    forall path, id: nat :: Reconstruct(e, s, path, id).Some? ==>
      id in texts && Reconstruct(e, s, path, id).value == texts[id]
  }

  /** A capture keeps the history truthful exactly when it saves its record,
      sees no new text, or the file has no head: otherwise the snapshot moves
      on under the old head. */
  lemma LostSaveBreaksHistory(e: Engine, s: State, texts: map<nat, Text>, ev: Event)
    requires Inverts(e) && Inv(e, s, texts) && ev.Capture?
    ensures Truthful(e, Step(e, s, ev), Note(s, texts, ev)) <==> Harmless(s, ev)
  {
    var s' := Step(e, s, ev);
    if Harmless(s, ev) {
      CaptureInv(e, s, texts, ev);
      forall path, id: nat | Reconstruct(e, s', path, id).Some?
        ensures id in Note(s, texts, ev) && Reconstruct(e, s', path, id).value == Note(s, texts, ev)[id]
      {
        ReconstructIsCaptured(e, s', Note(s, texts, ev), path, id);
      }
    } else {
      var head := Head(s, ev.path).value;
      assert Reconstruct(e, s', ev.path, head) == Some(ev.content);
      assert texts[head] == Previous(s, ev.path);
    }
  }

  /** A run that does so, with every engine: the newer text is what comes back for
      the record of the older one. */
  lemma {:induction false} LostSaveRun(e: Engine, path: Text, a: Text, b: Text)
    requires a != [] && a != b
    ensures var evs := [Capture(path, a, true, true), Capture(path, b, true, false)];
            && 0 in Captured(e, EMPTY, evs) && Captured(e, EMPTY, evs)[0] == a
            && Reconstruct(e, Run(e, EMPTY, evs), path, 0) == Some(b)
  {
    var first, second := Capture(path, a, true, true), Capture(path, b, true, false);
    assert [first, second][..1] == [first] && [first][..0] == [];
    assert Run(e, EMPTY, [first]) == Step(e, EMPTY, first);
    assert Run(e, EMPTY, [first, second]) == Step(e, Run(e, EMPTY, [first]), second);
    assert Captured(e, EMPTY, [first]) == map[0 := a];
  }

  // ── What each event does to the history ────────────────

  /** A file's records and its snapshot are as they were. */
  predicate SameFile(s: State, s': State, path: Text) {
    && FileRecords(s', path) == FileRecords(s, path)
    && (path in s'.snapshots <==> path in s.snapshots)
    && (path in s.snapshots ==> s'.snapshots[path] == s.snapshots[path])
  }

  /** A capture of new text that is saved hangs a record off the head, which it
      becomes, and its text comes back; no other file is touched. A capture that
      sees no new text does nothing. */
  lemma {:induction false} CaptureAddsHead(e: Engine, s: State, ev: Event, other: Text)
    requires ev.Capture? && other != ev.path && forall id :: id in s.records ==> id < s.nextId
    ensures var s' := Step(e, s, ev);
            && SameFile(s, s', other)
            && (if ev.diffable && Previous(s, ev.path) != ev.content then Previous(s', ev.path) == ev.content
                else s' == s)
            && (ev.diffable && Previous(s, ev.path) != ev.content && ev.saved ==>
                  && FileRecords(s', ev.path) == FileRecords(s, ev.path)[s.nextId :=
                       Record(ev.path, e.compute(Previous(s, ev.path), ev.content), Head(s, ev.path))]
                  && Head(s', ev.path) == Some(s.nextId)
                  && Reconstruct(e, s', ev.path, s.nextId) == Some(ev.content))
  {
    var s' := Step(e, s, ev);
    assert FileRecords(s', other) == FileRecords(s, other);
    if Records(s, ev) {
      assert FileRecords(s', ev.path) == FileRecords(s, ev.path)[s.nextId :=
          Record(ev.path, e.compute(Previous(s, ev.path), ev.content), Head(s, ev.path))];
    }
  }

  /** A restore of a record that can be reconstructed makes it the head, with its
      text as the newest, so that the next capture branches off it; it touches no
      record and no other file. Any other restore does nothing. */
  lemma {:induction false} RestoreMovesHead(e: Engine, s: State, path: Text, id: nat, onDisk: bool, other: Text)
    requires other != path
    ensures var s' := Step(e, s, Restore(path, id, onDisk)); var text := Reconstruct(e, s, path, id);
            && s'.records == s.records && SameFile(s, s', other)
            && (if text.Some? && onDisk
                then Head(s', path) == Some(id) && Previous(s', path) == text.value
                     && Reconstruct(e, s', path, id) == text
                else s' == s)
  {}

  /** Deletions take exactly the records they name, and clearing a file its
      snapshot too; all other files keep theirs. */
  lemma {:induction false} DeletionsExactly(e: Engine, s: State, ids: set<nat>, path: Text, other: Text)
    requires other != path
    ensures var s' := Step(e, s, Delete(ids));
            && s'.snapshots == s.snapshots
            && (forall id :: id in s'.records <==> id in s.records && id !in ids)
            && (forall id :: id in s'.records ==> s'.records[id] == s.records[id])
    ensures var s' := Step(e, s, DeleteByFile(path));
            FileRecords(s', path) == map[] && path !in s'.snapshots && SameFile(s, s', other)
    ensures var s' := Step(e, s, DeleteAll);
            FileRecords(s', path) == map[] && path !in s'.snapshots && s'.nextId == s.nextId
  {
    var s' := Step(e, s, DeleteByFile(path));
    assert FileRecords(s', other) == FileRecords(s, other);
  }

  /** Same ids, parents and patches. */
  predicate SameTreeOf(m: map<nat, Record>, m': map<nat, Record>) {
    m'.Keys == m.Keys && forall id :: id in m ==> m'[id].parentId == m[id].parentId && m'[id].patches == m[id].patches
  }

  lemma {:induction false} SamePath(m: map<nat, Record>, m': map<nat, Record>, id: Option<nat>, visited: set<nat>)
    requires SameTreeOf(m, m')
    ensures PathToRoot(m', id, visited) == PathToRoot(m, id, visited)
    decreases |m.Keys - visited|
  {
    if id.Some? && id.value !in visited && id.value in m {
      assert id.value in m.Keys - visited;
      Shrinks(m.Keys - (visited + {id.value}), m.Keys - visited);
      SamePath(m, m', m[id.value].parentId, visited + {id.value});
    }
  }

  lemma {:induction false} SameUndo(e: Engine, m: map<nat, Record>, m': map<nat, Record>, content: Text, ids: seq<nat>)
    requires SameTreeOf(m, m') && forall k :: 0 <= k < |ids| ==> ids[k] in m
    ensures Undo(e, m', content, ids) == Undo(e, m, content, ids)
    decreases |ids|
  {
    if ids != [] {
      var n := |ids| - 1;
      SameUndo(e, m, m', e.applyReverse(content, m[ids[n]].patches).text, ids[..n]);
    }
  }

  lemma {:induction false} SameRedo(e: Engine, m: map<nat, Record>, m': map<nat, Record>, content: Text, ids: seq<nat>)
    requires SameTreeOf(m, m') && forall k :: 0 <= k < |ids| ==> ids[k] in m
    ensures Redo(e, m', content, ids) == Redo(e, m, content, ids)
    decreases |ids|
  {
    if ids != [] {
      SameRedo(e, m, m', content, ids[..|ids| - 1]);
    }
  }

  lemma {:induction false} SameTreeReconstructs(e: Engine, s: State, s': State, path: Text, path': Text, id: nat)
    requires path in s.snapshots && path' in s'.snapshots && s'.snapshots[path'] == s.snapshots[path]
    requires SameTreeOf(FileRecords(s, path), FileRecords(s', path'))
    ensures Reconstruct(e, s', path', id) == Reconstruct(e, s, path, id)
  {
    var snapshot := s.snapshots[path];
    var m, m' := FileRecords(s, path), FileRecords(s', path');
    SamePath(m, m', snapshot.head, {});
    SamePath(m, m', Some(id), {});
    PathInMap(m, snapshot.head, {});
    PathInMap(m, Some(id), {});
    var headPath, targetPath := PathToRoot(m, snapshot.head, {}), PathToRoot(m, Some(id), {});
    var n := Shared(headPath, targetPath);
    SameUndo(e, m, m', snapshot.content, headPath[n..]);
    SameRedo(e, m, m', Undo(e, m, snapshot.content, headPath[n..]), targetPath[n..]);
  }

  /** A rename moves all records and the snapshot; nothing is left under the old
      path and no third file is touched. */
  lemma {:induction false} RenameMoves(e: Engine, s: State, path: Text, newPath: Text, other: Text)
    requires path != newPath && other != path && other != newPath
    ensures var s' := Step(e, s, Rename(path, newPath));
            && FileRecords(s', path) == map[] && path !in s'.snapshots && SameFile(s, s', other)
            && (if path in s.snapshots
                then newPath in s'.snapshots && s'.snapshots[newPath] == s.snapshots[path]
                else newPath in s'.snapshots <==> newPath in s.snapshots)
            && (forall id :: id in FileRecords(s, newPath) ==>
                  id in FileRecords(s', newPath) && s'.records[id] == s.records[id])
            && (forall id :: id in FileRecords(s, path) ==>
                  id in FileRecords(s', newPath) && s'.records[id] == s.records[id].(path := newPath))
            && (forall id :: id in FileRecords(s', newPath) ==>
                  id in FileRecords(s, path) || id in FileRecords(s, newPath))
  {
    var s' := Step(e, s, Rename(path, newPath));
    assert FileRecords(s', other) == FileRecords(s, other);
  }

  /** So a file that is renamed onto a path without records keeps its history:
      every record gives the same text there. */
  lemma {:induction false} RenameKeepsHistory(e: Engine, s: State, path: Text, newPath: Text, id: nat)
    requires path != newPath && path in s.snapshots && FileRecords(s, newPath) == map[]
    ensures Reconstruct(e, Step(e, s, Rename(path, newPath)), newPath, id) == Reconstruct(e, s, path, id)
  {
    var s' := Step(e, s, Rename(path, newPath));
    var m, m' := FileRecords(s, path), FileRecords(s', newPath);
    assert forall i :: i in s.records ==> s.records[i].path != newPath by {
      forall i | i in s.records ensures s.records[i].path != newPath {
        assert s.records[i].path == newPath ==> i in FileRecords(s, newPath);
      }
    }
    assert m'.Keys == m.Keys;
    SameTreeReconstructs(e, s, s', path, newPath, id);
  }

  // ── Harmless runs ──────────────────────────────────────

  /** No event of the run is a harmful lost save. */
  ghost predicate HarmlessRun(e: Engine, evs: seq<Event>) {
    forall k :: 0 <= k < |evs| ==> Harmless(Run(e, EMPTY, evs[..k]), evs[k])
  }

  lemma HarmlessPrefix(e: Engine, evs: seq<Event>)
    requires HarmlessRun(e, evs) && evs != []
    ensures HarmlessRun(e, evs[..|evs| - 1])
  {
    var n := |evs| - 1;
    forall k | 0 <= k < n ensures Harmless(Run(e, EMPTY, evs[..n][..k]), evs[..n][k]) {
      assert evs[..n][..k] == evs[..k];
    }
  }

  lemma {:induction false} RunInv(e: Engine, evs: seq<Event>)
    requires Inverts(e) && HarmlessRun(e, evs)
    ensures Inv(e, Run(e, EMPTY, evs), Captured(e, EMPTY, evs))
  {
    if evs != [] {
      var n := |evs| - 1;
      HarmlessPrefix(e, evs);
      RunInv(e, evs[..n]);
      StepInv(e, Run(e, EMPTY, evs[..n]), Captured(e, EMPTY, evs[..n]), evs[n]);
    }
  }

  /** In every run a reconstruction is refused or gives exactly the text that
      was captured under the id. */
  lemma {:induction false} HistoryTellsTheTruth(e: Engine, evs: seq<Event>, path: Text, id: nat)
    requires Inverts(e) && HarmlessRun(e, evs)
    ensures var r := Reconstruct(e, Run(e, EMPTY, evs), path, id);
            r == None || (id in Captured(e, EMPTY, evs) && r == Some(Captured(e, EMPTY, evs)[id]))
  {
    RunInv(e, evs);
    ReconstructIsCaptured(e, Run(e, EMPTY, evs), Captured(e, EMPTY, evs), path, id);
  }

  // ── When nothing was deleted ───────────────────────────

  /** The file's records form one tree below `root`, its snapshot points into
      it. */
  ghost predicate OneTree(s: State, path: Text, root: nat) {
    var m := FileRecords(s, path);
    && root in m && path in s.snapshots && s.snapshots[path].head.Some? && s.snapshots[path].head.value in m
    && (forall id :: id in m ==>
          match m[id].parentId
          case None => id == root
          case Some(p) => id != root && p in m && p < id)
  }

  /** No record and no head, or one tree. */
  ghost predicate Whole(s: State, path: Text) {
    (Head(s, path) == None && FileRecords(s, path) == map[]) || exists root: nat :: OneTree(s, path, root)
  }

  lemma {:induction false} PathStartsAtRoot(s: State, path: Text, root: nat, id: nat, visited: set<nat>)
    requires OneTree(s, path, root) && id in FileRecords(s, path) && (forall v :: v in visited ==> id < v)
    ensures var p := PathToRoot(FileRecords(s, path), Some(id), visited); p != [] && p[0] == root
    decreases id
  {
    var m := FileRecords(s, path);
    if m[id].parentId.Some? {
      PathStartsAtRoot(s, path, root, m[id].parentId.value, visited + {id});
    } else {
      assert PathToRoot(m, m[id].parentId, visited + {id}) == [];
    }
  }

  /** In a whole tree every record can be reconstructed. */
  lemma {:induction false} WholeReconstructs(e: Engine, s: State, path: Text, id: nat)
    requires Whole(s, path) && id in FileRecords(s, path)
    ensures Reconstruct(e, s, path, id).Some?
  {
    var root: nat :| OneTree(s, path, root);
    PathStartsAtRoot(s, path, root, id, {});
    PathStartsAtRoot(s, path, root, s.snapshots[path].head.value, {});
    ReconstructExists(e, s, path, id);
  }

  ghost predicate KeepsTrees(ev: Event) {
    ev.Capture? || ev.Restore?
  }

  lemma {:induction false} RestoreKeepsWhole(e: Engine, s: State, path: Text, ev: Event)
    requires Whole(s, path) && ev.Restore?
    ensures Whole(Step(e, s, ev), path)
  {
    var s' := Step(e, s, ev);
    assert FileRecords(s', path) == FileRecords(s, path);
    if s' != s && ev.path == path {
      var root: nat :| OneTree(s, path, root);
      var m := FileRecords(s, path);
      PathChains(m, Some(ev.id), {});
      ReconstructExists(e, s, path, ev.id);
      assert ev.id in m;
      assert OneTree(s', path, root);
    } else if exists root: nat :: OneTree(s, path, root) {
      var root: nat :| OneTree(s, path, root);
      assert OneTree(s', path, root);
    }
  }

  lemma CaptureGrowsTree(e: Engine, s: State, path: Text, ev: Event, root: nat)
    requires ev.Capture? && Records(s, ev) && ev.path == path && (forall id :: id in s.records ==> id < s.nextId)
    requires if Head(s, path).Some? then OneTree(s, path, root) else FileRecords(s, path) == map[] && root == s.nextId
    ensures OneTree(Step(e, s, ev), path, root)
  {
    var s' := Step(e, s, ev);
    var m, m' := FileRecords(s, path), FileRecords(s', path);
    assert m'.Keys == m.Keys + {s.nextId};
    assert forall id :: id in m ==> m'[id] == m[id];
  }

  lemma SameTree(s: State, s': State, path: Text)
    requires Whole(s, path) && FileRecords(s', path) == FileRecords(s, path) && Head(s', path) == Head(s, path)
    ensures Whole(s', path)
  {
    if exists root: nat :: OneTree(s, path, root) {
      var root: nat :| OneTree(s, path, root);
      assert OneTree(s', path, root);
    }
  }

  /** A capture of another file, or one that records nothing, touches no record. */
  lemma CaptureElsewhere(e: Engine, s: State, path: Text, ev: Event)
    requires ev.Capture? && Harmless(s, ev) && !(Records(s, ev) && ev.path == path)
    requires forall id :: id in s.records ==> id < s.nextId
    ensures var s' := Step(e, s, ev);
            FileRecords(s', path) == FileRecords(s, path) && Head(s', path) == Head(s, path)
  {
    assert FileRecords(Step(e, s, ev), path) == FileRecords(s, path);
  }

  lemma CaptureKeepsWhole(e: Engine, s: State, path: Text, ev: Event)
    requires Whole(s, path) && ev.Capture? && Harmless(s, ev) && (forall id :: id in s.records ==> id < s.nextId)
    ensures Whole(Step(e, s, ev), path)
  {
    if Records(s, ev) && ev.path == path {
      var root: nat := s.nextId;
      if Head(s, path).Some? {
        root :| OneTree(s, path, root);
      }
      CaptureGrowsTree(e, s, path, ev, root);
    } else {
      CaptureElsewhere(e, s, path, ev);
      SameTree(s, Step(e, s, ev), path);
    }
  }

  lemma {:induction false} RunKeepsWhole(e: Engine, evs: seq<Event>, path: Text)
    requires Inverts(e) && HarmlessRun(e, evs) && forall k :: 0 <= k < |evs| ==> KeepsTrees(evs[k])
    ensures Whole(Run(e, EMPTY, evs), path)
  {
    if evs == [] {
      assert FileRecords(EMPTY, path) == map[];
    } else {
      var n := |evs| - 1;
      HarmlessPrefix(e, evs);
      RunKeepsWhole(e, evs[..n], path);
      RunInv(e, evs[..n]);
      if evs[n].Capture? {
        CaptureKeepsWhole(e, Run(e, EMPTY, evs[..n]), path, evs[n]);
      } else {
        RestoreKeepsWhole(e, Run(e, EMPTY, evs[..n]), path, evs[n]);
      }
    }
  }

  /** As long as nothing is deleted or renamed, every captured text of every
      file stays reconstructible. */
  lemma {:induction false} CapturedStaysReachable(e: Engine, evs: seq<Event>, path: Text, id: nat)
    requires Inverts(e) && HarmlessRun(e, evs) && forall k :: 0 <= k < |evs| ==> KeepsTrees(evs[k])
    requires id in FileRecords(Run(e, EMPTY, evs), path)
    ensures id in Captured(e, EMPTY, evs)
    ensures Reconstruct(e, Run(e, EMPTY, evs), path, id) == Some(Captured(e, EMPTY, evs)[id])
  {
    RunKeepsWhole(e, evs, path);
    WholeReconstructs(e, Run(e, EMPTY, evs), path, id);
    HistoryTellsTheTruth(e, evs, path, id);
  }
}
