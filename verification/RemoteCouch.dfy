/** One-shot transfers between the local store and the remote
    (src/db/remote-couch.ts). */
module RemoteCouch {
  import opened IdOrder
  import opened DocStore

  // ── splitForPush / pushSplit ───────────────────────────

  predicate IsChunkDocId(id: DocId) {
    CHUNK_PREFIX <= id
  }

  /** The positions of the docs of one kind: all of them, each once, in order. */
  ghost predicate ArePositions(docs: seq<DocId>, part: seq<DocId>, positions: seq<nat>, chunks: bool) {
    && |part| == |positions|
    && (forall j, k :: 0 <= j < k < |positions| ==> positions[j] < positions[k])
    && (forall k :: 0 <= k < |positions| ==> positions[k] < |docs| && docs[positions[k]] == part[k])
    && (forall k :: 0 <= k < |docs| && IsChunkDocId(docs[k]) == chunks ==> k in positions)
    && (forall k :: 0 <= k < |positions| ==> IsChunkDocId(part[k]) == chunks)
  }

  method SplitForPush(docs: seq<DocId>)
      returns (chunks: seq<DocId>, chunkPositions: seq<nat>, rest: seq<DocId>, restPositions: seq<nat>)
    ensures ArePositions(docs, chunks, chunkPositions, true)
    ensures ArePositions(docs, rest, restPositions, false)
  {
    chunks, chunkPositions, rest, restPositions := [], [], [], [];
    for i := 0 to |docs|
      invariant ArePositions(docs[..i], chunks, chunkPositions, true)
      invariant ArePositions(docs[..i], rest, restPositions, false)
    {
      if IsChunkDocId(docs[i]) {
        chunkPositions := chunkPositions + [i];
        chunks := chunks + [docs[i]];
      } else {
        restPositions := restPositions + [i];
        rest := rest + [docs[i]];
      }
    }
    assert docs[..|docs|] == docs;
  }

  /** Two requests, one result per doc, each at its doc's own position. */
  method PushSplit(docs: seq<DocId>, accepts: DocId -> bool) returns (results: seq<bool>)
    ensures |results| == |docs| && forall i :: 0 <= i < |docs| ==> results[i] == accepts(docs[i])
  {
    var chunks, chunkPositions, rest, restPositions := SplitForPush(docs);
    var slots := new bool[|docs|];
    for k := 0 to |rest|
      invariant forall x :: 0 <= x < k ==> slots[restPositions[x]] == accepts(rest[x])
    {
      slots[restPositions[k]] := accepts(rest[k]);
    }
    for k := 0 to |chunks|
      invariant forall x :: 0 <= x < |rest| ==> slots[restPositions[x]] == accepts(rest[x])
      invariant forall x :: 0 <= x < k ==> slots[chunkPositions[x]] == accepts(chunks[x])
    {
      slots[chunkPositions[k]] := accepts(chunks[k]);
    }
    forall i | 0 <= i < |docs|
      ensures slots[i] == accepts(docs[i])
    {
      if IsChunkDocId(docs[i]) {
        var x :| 0 <= x < |chunkPositions| && chunkPositions[x] == i;
      } else {
        var x :| 0 <= x < |restPositions| && restPositions[x] == i;
      }
    }
    results := slots[..];
  }

  // ── pushDocs, pullDocs, deleteRemoteDocs ───────────────

  /** The chunks held by the local store and the live ones on the remote. */
  datatype Stores = Stores(local: map<DocId, Bytes>, remote: map<DocId, Bytes>)

  /** The ids of a request that the operation completes. */
  function Done(ids: seq<DocId>, source: set<DocId>, refused: set<DocId>): (r: seq<DocId>)
    ensures |r| <= |ids|
  {
    if ids == [] then []
    else
      var n := |ids| - 1;
      Done(ids[..n], source, refused) + if ids[n] in source && ids[n] !in refused then [ids[n]] else []
  }

  lemma {:induction false} DoneMember(ids: seq<DocId>, source: set<DocId>, refused: set<DocId>, id: DocId)
    ensures id in Done(ids, source, refused) <==> id in ids && id in source && id !in refused
    decreases |ids|
  {
    if ids != [] {
      var n := |ids| - 1;
      DoneMember(ids[..n], source, refused, id);
      assert ids == ids[..n] + [ids[n]];
    }
  }

  lemma {:induction false} DoneAll(ids: seq<DocId>, source: set<DocId>, refused: set<DocId>)
    ensures |Done(ids, source, refused)| == |ids| <==> forall id :: id in ids ==> id in source && id !in refused
    decreases |ids|
  {
    if ids != [] {
      var n := |ids| - 1;
      DoneAll(ids[..n], source, refused);
      assert ids == ids[..n] + [ids[n]];
    }
  }

  function Copy(target: map<DocId, Bytes>, from: map<DocId, Bytes>, ids: seq<DocId>): map<DocId, Bytes> {
    target + map id | id in from && id in ids :: from[id]
  }

  lemma CopyNone(target: map<DocId, Bytes>, from: map<DocId, Bytes>)
    ensures Copy(target, from, []) == target
  {}

  lemma CopySnoc(target: map<DocId, Bytes>, from: map<DocId, Bytes>, ids: seq<DocId>, id: DocId)
    requires id in from
    ensures Copy(target, from, ids + [id]) == Copy(target, from, ids)[id := from[id]]
  {}

  lemma DoneSnoc(ids: seq<DocId>, id: DocId, source: set<DocId>, refused: set<DocId>)
    ensures Done(ids + [id], source, refused) == Done(ids, source, refused)
        + if id in source && id !in refused then [id] else []
  {}

  lemma DoneNext(ids: seq<DocId>, i: nat, source: set<DocId>, refused: set<DocId>)
    requires i < |ids|
    ensures Done(ids[..i + 1], source, refused) == Done(ids[..i], source, refused)
        + if ids[i] in source && ids[i] !in refused then [ids[i]] else []
  {
    assert ids[..i + 1] == ids[..i] + [ids[i]];
    DoneSnoc(ids[..i], ids[i], source, refused);
  }

  function Drop(m: map<DocId, Bytes>, ids: seq<DocId>): map<DocId, Bytes> {
    map id | id in m && id !in ids :: m[id]
  }

  class Replicas {
    var local: map<DocId, Bytes>
    var remote: map<DocId, Bytes>

    constructor (local: map<DocId, Bytes>, remote: map<DocId, Bytes>)
      ensures this.local == local && this.remote == remote
    {
      this.local, this.remote := local, remote;
    }

    /** Push the stored docs among `ids`; `refused` are the ids whose result is
        not ok. Returns the accepted ids, in order. */
    method PushDocs(ids: seq<DocId>, refused: set<DocId>) returns (pushed: seq<DocId>)
      modifies this`remote
      ensures pushed == Done(ids, local.Keys, refused)
      ensures remote == Copy(old(remote), local, pushed)
    {
      var docs := [];
      for i := 0 to |ids|
        invariant docs == Done(ids[..i], local.Keys, {}) && remote == old(remote)
      {
        DoneNext(ids, i, local.Keys, {});
        if ids[i] in local { docs := docs + [ids[i]]; }
      }
      assert ids[..|ids|] == ids;
      var results := PushSplit(docs, id => id !in refused);
      pushed := [];
      CopyNone(remote, local);
      forall i | 0 <= i < |docs|
        ensures docs[i] in local
      {
        DoneMember(ids, local.Keys, {}, docs[i]);
      }
      for i := 0 to |docs|
        invariant pushed == Done(docs[..i], local.Keys, refused)
        invariant remote == Copy(old(remote), local, pushed)
      {
        DoneNext(docs, i, local.Keys, refused);
        if results[i] {
          CopySnoc(old(remote), local, pushed, docs[i]);
          remote := remote[docs[i] := local[docs[i]]];
          pushed := pushed + [docs[i]];
        }
      }
      assert docs[..|docs|] == docs;
      DoneTwice(ids, local.Keys, refused);
    }

    /** Pull the live docs among `ids`; `bad` are those whose attachment is
        missing or fails the hash check. */
    method PullDocs(ids: seq<DocId>, bad: set<DocId>) returns (pulled: seq<DocId>)
      modifies this`local
      ensures pulled == Done(ids, remote.Keys, bad)
      ensures local == Copy(old(local), remote, pulled)
    {
      pulled := [];
      CopyNone(local, remote);
      for i := 0 to |ids|
        invariant pulled == Done(ids[..i], remote.Keys, bad)
        invariant local == Copy(old(local), remote, pulled)
      {
        DoneNext(ids, i, remote.Keys, bad);
        if ids[i] in remote && ids[i] !in bad {
          CopySnoc(old(local), remote, pulled, ids[i]);
          local := local[ids[i] := remote[ids[i]]];
          pulled := pulled + [ids[i]];
        }
      }
      assert ids[..|ids|] == ids;
    }

    /** Tombstone the live docs among `ids`. */
    method DeleteRemoteDocs(ids: seq<DocId>, refused: set<DocId>) returns (deleted: seq<DocId>)
      modifies this`remote
      ensures deleted == Done(ids, old(remote).Keys, refused)
      ensures remote == Drop(old(remote), deleted)
    {
      var listed := remote.Keys;
      deleted := [];
      for i := 0 to |ids|
        invariant deleted == Done(ids[..i], listed, refused)
        invariant remote == Drop(old(remote), deleted)
      {
        DoneNext(ids, i, listed, refused);
        if ids[i] in listed && ids[i] !in refused {
          remote := remote - {ids[i]};
          deleted := deleted + [ids[i]];
        }
      }
      assert ids[..|ids|] == ids;
    }

    /** One local transaction: the chunks asked for are gone, every other one is
        still there with its content, and none is added. */
    method DeleteLocalDocs(ids: seq<DocId>)
      modifies this`local
      ensures forall id :: id in ids ==> id !in local
      ensures forall id :: id in old(local) && id !in ids ==> id in local && local[id] == old(local)[id]
      ensures forall id :: id in local ==> id in old(local)
    {
      local := Drop(local, ids);
    }
  }

  lemma {:induction false} DoneTwice(ids: seq<DocId>, source: set<DocId>, refused: set<DocId>)
    ensures Done(Done(ids, source, {}), source, refused) == Done(ids, source, refused)
    decreases |ids|
  {
    if ids != [] {
      var n := |ids| - 1;
      DoneTwice(ids[..n], source, refused);
      if ids[n] in source {
        DoneSnoc(Done(ids[..n], source, {}), ids[n], source, refused);
      } else {
        assert Done(ids, source, {}) == Done(ids[..n], source, {});
      }
    }
  }
}
