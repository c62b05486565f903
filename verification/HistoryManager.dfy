/** The history tables and the methods over them (src/history/history-manager.ts,
    src/history/history-capture.ts, src/history/storage.ts). */
module HistoryManager {
  import opened Utf16
  import opened Wrappers
  import opened HistoryTree

  class History {
    var records: map<nat, Record>
    var snapshots: map<Text, Snapshot>
    var nextId: nat
    const engine: Engine

    constructor (engine: Engine)
      ensures this.engine == engine && Tables() == EMPTY
    {
      this.engine := engine;
      records, snapshots, nextId := map[], map[], 0;
    }

    function Tables(): State
      reads this
    {
      State(records, snapshots, nextId)
    }

    static method BuildPathToRoot(recordId: nat, recordMap: map<nat, Record>) returns (path: seq<nat>)
      ensures path == PathToRoot(recordMap, Some(recordId), {})
    {
      path := [];
      var currentId: Option<nat> := Some(recordId);
      var visited: set<nat> := {};
      while currentId.Some?
        invariant PathToRoot(recordMap, currentId, visited) + path == PathToRoot(recordMap, Some(recordId), {})
        decreases |recordMap.Keys - visited|, if currentId.Some? then 1 else 0
      {
        var current := currentId.value;
        if current in visited {
          break;
        }
        if current !in recordMap {
          break;
        }
        assert current in recordMap.Keys - visited;
        Shrinks(recordMap.Keys - (visited + {current}), recordMap.Keys - visited);
        assert PathToRoot(recordMap, recordMap[current].parentId, visited + {current}) + [current] + path
            == PathToRoot(recordMap, recordMap[current].parentId, visited + {current}) + ([current] + path);
        visited := visited + {current};
        path := [current] + path;
        currentId := recordMap[current].parentId;
      }
      assert PathToRoot(recordMap, currentId, visited) == [];
    }

    /** The last index up to which both paths agree, or -1. */
    static method ForkIndex(headPath: seq<nat>, targetPath: seq<nat>) returns (forkIdx: int)
      ensures forkIdx == Shared(headPath, targetPath) - 1
    {
      forkIdx := -1;
      var minLen := if |headPath| <= |targetPath| then |headPath| else |targetPath|;
      for i := 0 to minLen
        invariant forkIdx == i - 1 && headPath[..i] == targetPath[..i]
      {
        if headPath[i] == targetPath[i] {
          forkIdx := i;
        } else {
          return;
        }
      }
    }

    method ReconstructAtRecord(filePath: Text, recordId: nat) returns (text: Option<Text>)
      ensures text == Reconstruct(engine, Tables(), filePath, recordId)
    {
      if filePath !in snapshots {
        return None;
      }
      var snapshot := snapshots[filePath];
      var recordMap := FileRecords(Tables(), filePath);
      if snapshot.head == Some(recordId) {
        return Some(snapshot.content);
      }
      if snapshot.head == None {
        return None;
      }
      var headPath := BuildPathToRoot(snapshot.head.value, recordMap);
      var targetPath := BuildPathToRoot(recordId, recordMap);
      PathInMap(recordMap, snapshot.head, {});
      PathInMap(recordMap, Some(recordId), {});
      var forkIdx := ForkIndex(headPath, targetPath);
      if forkIdx == -1 {
        return None;
      }
      var content := UndoFrom(engine, recordMap, snapshot.content, headPath, forkIdx + 1);
      content := RedoFrom(engine, recordMap, content, targetPath, forkIdx + 1);
      return Some(content);
    }

    static method UndoFrom(engine: Engine, recordMap: map<nat, Record>, start: Text, path: seq<nat>, n: nat)
        returns (content: Text)
      requires n <= |path| && forall k :: 0 <= k < |path| ==> path[k] in recordMap
      ensures content == Undo(engine, recordMap, start, path[n..])
    {
      content := start;
      var i := |path| - 1;
      assert path[n..|path|] == path[n..];
      while i > n - 1
        invariant n - 1 <= i < |path|
        invariant Undo(engine, recordMap, content, path[n..i + 1]) == Undo(engine, recordMap, start, path[n..])
      {
        assert path[n..i + 1][..i - n] == path[n..i];
        content := engine.applyReverse(content, recordMap[path[i]].patches).text;
        i := i - 1;
      }
    }

    static method RedoFrom(engine: Engine, recordMap: map<nat, Record>, start: Text, path: seq<nat>, n: nat)
        returns (content: Text)
      requires n <= |path| && forall k :: 0 <= k < |path| ==> path[k] in recordMap
      ensures content == Redo(engine, recordMap, start, path[n..])
    {
      content := start;
      for i := n to |path|
        invariant content == Redo(engine, recordMap, start, path[n..i])
      {
        assert path[n..i + 1][..i - n] == path[n..i];
        content := engine.apply(content, recordMap[path[i]].patches).text;
      }
      assert path[n..|path|] == path[n..];
    }

    /** `saved` is whether the record table took the new record. */
    method CaptureChange(path: Text, currentContent: Text, diffable: bool, saved: bool)
      modifies this
      ensures Tables() == Step(engine, old(Tables()), Capture(path, currentContent, diffable, saved))
    {
      if !diffable {
        return;
      }
      var prevContent := if path in snapshots then snapshots[path].content else [];
      if prevContent == currentContent {
        return;
      }
      var parentId := if path in snapshots then snapshots[path].head else None;
      var newId: Option<nat> := None;
      if saved {
        newId := Some(nextId);
        records := records[nextId := Record(path, engine.compute(prevContent, currentContent), parentId)];
        nextId := nextId + 1;
      }
      snapshots := snapshots[path := Snapshot(currentContent, if newId.Some? then newId else parentId)];
    }

    /** The text is also what the vault file holds afterwards. */
    method RestoreToRecord(filePath: Text, recordId: nat, onDisk: bool) returns (text: Option<Text>)
      modifies this
      ensures Tables() == Step(engine, old(Tables()), Restore(filePath, recordId, onDisk))
      ensures text == if onDisk then Reconstruct(engine, old(Tables()), filePath, recordId) else None
    {
      var reconstructed := ReconstructAtRecord(filePath, recordId);
      if reconstructed == None {
        return None;
      }
      if !onDisk {
        return None;
      }
      snapshots := snapshots[filePath := Snapshot(reconstructed.value, Some(recordId))];
      return reconstructed;
    }

    /** Retention deletes the records `ids`, whatever file they belong to. */
    method DeleteRecords(ids: set<nat>)
      modifies this
      ensures Tables() == Step(engine, old(Tables()), Delete(ids))
    {
      records := map id | id in records && id !in ids :: records[id];
    }

    method ClearFileHistory(filePath: Text)
      modifies this
      ensures Tables() == Step(engine, old(Tables()), DeleteByFile(filePath))
    {
      records := map id | id in records && records[id].path != filePath :: records[id];
      snapshots := snapshots - {filePath};
    }

    method ClearAllHistory()
      modifies this
      ensures Tables() == Step(engine, old(Tables()), DeleteAll)
    {
      records, snapshots := map[], map[];
    }

    method RenamePath(oldPath: Text, newPath: Text)
      modifies this
      ensures Tables() == Step(engine, old(Tables()), Rename(oldPath, newPath))
    {
      records := map id | id in records :: if records[id].path == oldPath then records[id].(path := newPath)
          else records[id];
      if oldPath in snapshots {
        var snapshot := snapshots[oldPath];
        snapshots := (snapshots - {oldPath})[newPath := snapshot];
      }
    }
  }
}
