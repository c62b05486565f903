/** File docs and their chunks in the local store. */
module FileStore {
  // With orphan collection (src/db/local-db.ts, src/db/chunk-refs.ts,
  // src/db/chunk-gc.ts).

  import opened Wrappers
  import opened Utf16
  import opened VectorClocks
  import opened IdOrder
  import opened DocStore
  import opened Chunker
  import DexieStore

  // ── Reads ──────────────────────────────────────────────

  /** `getChunks`: the bodies of the stored rows among `ids`; absent ids are dropped. */
  function GetChunks(docs: map<DocId, Row>, ids: seq<DocId>): seq<Body> {
    if ids == [] then []
    else
      var n := |ids| - 1;
      GetChunks(docs, ids[..n]) + if ids[n] in docs then [docs[ids[n]].body] else []
  }

  method ReadChunks(docs: map<DocId, Row>, ids: seq<DocId>) returns (chunks: seq<Body>)
    ensures chunks == GetChunks(docs, ids)
  {
    chunks := [];
    for i := 0 to |ids|
      invariant chunks == GetChunks(docs, ids[..i])
    {
      if ids[i] in docs {
        chunks := chunks + [docs[ids[i]].body];
      }
      assert ids[..i + 1][..i] == ids[..i];
    }
    assert ids[..|ids|] == ids;
  }

  function Reassemble(docs: map<DocId, Row>, ids: seq<DocId>): Result<Bytes, JoinError> {
    Joined(GetChunks(docs, ids))
  }

  method ReadFile(docs: map<DocId, Row>, ids: seq<DocId>) returns (r: Result<Bytes, JoinError>)
    ensures r == Reassemble(docs, ids)
  {
    var chunks := ReadChunks(docs, ids);
    r := JoinChunks(chunks);
  }

  // ── References ─────────────────────────────────────────

  /** A doc that owns chunks, with the owner `referencedBy` names it by. */
  datatype OwnerDoc = OwnerDoc(owner: Text, chunks: seq<DocId>, deleted: bool)

  function Repeats(chunks: seq<DocId>, id: DocId, owner: Text): seq<Text> {
    if chunks == [] then []
    else Repeats(chunks[..|chunks| - 1], id, owner) + if chunks[|chunks| - 1] == id then [owner] else []
  }

  /** The labels under `id`: one per occurrence in a live doc, in order. */
  function Labels(docs: seq<OwnerDoc>, id: DocId): seq<Text> {
    if docs == [] then []
    else
      var d := docs[|docs| - 1];
      Labels(docs[..|docs| - 1], id) + if d.deleted then [] else Repeats(d.chunks, id, d.owner)
  }

  lemma {:induction false} RepeatsCount(chunks: seq<DocId>, id: DocId, owner: Text)
    ensures |Repeats(chunks, id, owner)| == multiset(chunks)[id]
    ensures forall x :: x in Repeats(chunks, id, owner) ==> x == owner
  {
    if chunks != [] {
      var n := |chunks| - 1;
      assert chunks == chunks[..n] + [chunks[n]];
      RepeatsCount(chunks[..n], id, owner);
    }
  }

  /** One doc gives its label as often as it lists the chunk, a deleted one never. */
  lemma {:induction false} LabelsOfOne(d: OwnerDoc, id: DocId)
    ensures |Labels([d], id)| == if d.deleted then 0 else multiset(d.chunks)[id]
    ensures forall x :: x in Labels([d], id) ==> x == d.owner
  {
    RepeatsCount(d.chunks, id, d.owner);
    assert [d][..0] == [];
  }

  /** And the labels of many are those of the first ones, then those of the rest. */
  lemma {:induction false} LabelsInOrder(a: seq<OwnerDoc>, b: seq<OwnerDoc>, id: DocId)
    ensures Labels(a + b, id) == Labels(a, id) + Labels(b, id)
    decreases |b|
  {
    if b == [] {
      assert a + b == a;
    } else {
      var n := |b| - 1;
      var last := if b[n].deleted then [] else Repeats(b[n].chunks, id, b[n].owner);
      assert (a + b)[..|a| + n] == a + b[..n] && (a + b)[|a| + n] == b[n];
      LabelsInOrder(a, b[..n], id);
      assert Labels(a + b, id) == Labels(a + b[..n], id) + last;
      Regrouped(Labels(a, id), Labels(b[..n], id), last);
    }
  }

  lemma Regrouped<T>(a: seq<T>, b: seq<T>, c: seq<T>)
    ensures a + b + c == a + (b + c)
  {}

  /** The list stored under `id`, if any. */
  function RefsOf(refs: map<DocId, seq<Text>>, id: DocId): seq<Text> {
    if id in refs then refs[id] else []
  }

  ghost predicate NoEmptyEntry(refs: map<DocId, seq<Text>>) {
    forall id :: id in refs ==> refs[id] != []
  }

  lemma LabelsNext(docs: seq<OwnerDoc>, i: nat, id: DocId)
    requires i < |docs|
    ensures Labels(docs[..i + 1], id) == Labels(docs[..i], id) +
        if docs[i].deleted then [] else Repeats(docs[i].chunks, id, docs[i].owner)
  {
    assert docs[..i + 1][..i] == docs[..i];
  }

  lemma RepeatsNext(chunks: seq<DocId>, k: nat, id: DocId, owner: Text)
    requires k < |chunks|
    ensures Repeats(chunks[..k + 1], id, owner) == Repeats(chunks[..k], id, owner) +
        if chunks[k] == id then [owner] else []
  {
    assert chunks[..k + 1][..k] == chunks[..k];
  }

  lemma ReferenceStep(before: map<DocId, seq<Text>>, refs: map<DocId, seq<Text>>, d: OwnerDoc, k: nat, id: DocId)
    requires k < |d.chunks| && RefsOf(refs, id) == RefsOf(before, id) + Repeats(d.chunks[..k], id, d.owner)
    ensures var cid := d.chunks[k];
            RefsOf(refs[cid := RefsOf(refs, cid) + [d.owner]], id) == RefsOf(before, id)
                + Repeats(d.chunks[..k + 1], id, d.owner)
  {
    RepeatsNext(d.chunks, k, id, d.owner);
  }

  /** The references of one live doc, added to the map. */
  method AddReferences(before: map<DocId, seq<Text>>, d: OwnerDoc) returns (refs: map<DocId, seq<Text>>)
    requires NoEmptyEntry(before)
    ensures NoEmptyEntry(refs) && forall id :: RefsOf(refs, id) == RefsOf(before, id) + Repeats(d.chunks, id, d.owner)
  {
    refs := before;
    for k := 0 to |d.chunks|
      invariant NoEmptyEntry(refs)
      invariant forall id :: RefsOf(refs, id) == RefsOf(before, id) + Repeats(d.chunks[..k], id, d.owner)
    {
      var cid := d.chunks[k];
      forall id {
        ReferenceStep(before, refs, d, k, id);
      }
      refs := refs[cid := RefsOf(refs, cid) + [d.owner]];
    }
    assert d.chunks[..|d.chunks|] == d.chunks;
  }

  method CollectReferencedChunks(docs: seq<OwnerDoc>) returns (refs: map<DocId, seq<Text>>)
    ensures forall id :: (id in refs <==> Labels(docs, id) != []) && (id in refs ==> refs[id] == Labels(docs, id))
  {
    refs := map[];
    for i := 0 to |docs|
      invariant NoEmptyEntry(refs) && forall id :: RefsOf(refs, id) == Labels(docs[..i], id)
    {
      var d := docs[i];
      forall id ensures Labels(docs[..i + 1], id) == Labels(docs[..i], id) +
          if d.deleted then [] else Repeats(d.chunks, id, d.owner) {
        LabelsNext(docs, i, id);
      }
      if !d.deleted {
        refs := AddReferences(refs, d);
      }
    }
    assert docs[..|docs|] == docs;
    forall id ensures (id in refs <==> Labels(docs, id) != []) && (id in refs ==> refs[id] == Labels(docs, id)) {
      assert RefsOf(refs, id) == Labels(docs, id);
    }
  }

  lemma {:induction false} RepeatsMember(chunks: seq<DocId>, id: DocId, owner: Text)
    ensures Repeats(chunks, id, owner) != [] <==> id in chunks
    decreases |chunks|
  {
    if chunks != [] {
      var n := |chunks| - 1;
      RepeatsMember(chunks[..n], id, owner);
      assert chunks == chunks[..n] + [chunks[n]];
    }
  }

  predicate Lists(d: OwnerDoc, id: DocId) {
    !d.deleted && id in d.chunks
  }

  ghost predicate SomeLists(docs: seq<OwnerDoc>, id: DocId) {
    exists i :: 0 <= i < |docs| && Lists(docs[i], id)
  }

  lemma {:induction false} SomeListsLast(docs: seq<OwnerDoc>, id: DocId)
    requires docs != []
    ensures var n := |docs| - 1; SomeLists(docs, id) <==> SomeLists(docs[..n], id) || Lists(docs[n], id)
  {
    var rest := docs[..|docs| - 1];
    if i :| 0 <= i < |docs| && Lists(docs[i], id) {
      assert i < |rest| ==> Lists(rest[i], id);
    }
    if i :| 0 <= i < |rest| && Lists(rest[i], id) {
      assert Lists(docs[i], id);
    }
  }

  /** A chunk is in the reference map exactly when a live doc lists it. */
  lemma {:induction false} LabelsMember(docs: seq<OwnerDoc>, id: DocId)
    ensures Labels(docs, id) != [] <==> SomeLists(docs, id)
    decreases |docs|
  {
    if docs != [] {
      var n := |docs| - 1;
      LabelsMember(docs[..n], id);
      RepeatsMember(docs[n].chunks, id, docs[n].owner);
      SomeListsLast(docs, id);
    }
  }

  // ── Garbage collection ─────────────────────────────────

  function FileId(path: Text): DocId {
    FILE_PREFIX + path
  }

  predicate IsLiveFile(docs: map<DocId, Row>, id: DocId) {
    id in docs && docs[id].body.FileBody? && !docs[id].body.deleted
  }

  /** `allFileDocs` enumerates by key range. */
  predicate IsListedFile(docs: map<DocId, Row>, id: DocId) {
    IsLiveFile(docs, id) && InPrefixRange(id, FILE_PREFIX)
  }

  ghost predicate Referenced(docs: map<DocId, Row>, cid: DocId) {
    exists id :: id in docs && IsListedFile(docs, id) && cid in docs[id].body.chunks
  }

  /** The chunks in key range that no listed live file names. */
  ghost predicate AreOrphans(docs: map<DocId, Row>, orphans: seq<DocId>) {
    forall id :: id in orphans <==> id in docs && InPrefixRange(id, CHUNK_PREFIX) && !Referenced(docs, id)
  }

  function GcTx(orphans: seq<DocId>): WriteTx {
    WriteTx([], [], orphans, [], [])
  }

  /** Some listed live file has this chunk list. */
  ghost predicate FileLists(docs: map<DocId, Row>, chunks: seq<DocId>) {
    exists id :: id in docs && IsListedFile(docs, id) && docs[id].body.chunks == chunks
  }

  ghost predicate ListedWith(files: seq<OwnerDoc>, chunks: seq<DocId>) {
    exists i :: 0 <= i < |files| && !files[i].deleted && files[i].chunks == chunks
  }

  /** What `allFileDocs` returned, as owner docs. */
  ghost predicate IsFileListing(docs: map<DocId, Row>, files: seq<OwnerDoc>) {
    forall chunks :: FileLists(docs, chunks) <==> ListedWith(files, chunks)
  }

  ghost predicate IsChunkListing(docs: map<DocId, Row>, ids: seq<DocId>) {
    forall id :: id in ids <==> id in docs && InPrefixRange(id, CHUNK_PREFIX)
  }

  lemma ListingReferences(docs: map<DocId, Row>, files: seq<OwnerDoc>, cid: DocId)
    requires IsFileListing(docs, files)
    ensures Labels(files, cid) != [] <==> Referenced(docs, cid)
  {
    LabelsMember(files, cid);
    if Referenced(docs, cid) {
      var id :| id in docs && IsListedFile(docs, id) && cid in docs[id].body.chunks;
      assert FileLists(docs, docs[id].body.chunks);
      assert ListedWith(files, docs[id].body.chunks);
    }
    if Labels(files, cid) != [] {
      var i :| 0 <= i < |files| && !files[i].deleted && cid in files[i].chunks;
      assert ListedWith(files, files[i].chunks);
      assert FileLists(docs, files[i].chunks);
    }
  }

  lemma OrphansFound(docs: map<DocId, Row>, files: seq<OwnerDoc>, chunkIds: seq<DocId>, referenced: set<DocId>,
      orphans: seq<DocId>)
    requires IsFileListing(docs, files) && IsChunkListing(docs, chunkIds)
    requires forall id :: id in referenced <==> Labels(files, id) != []
    requires forall id :: id in orphans <==> id in chunkIds && id !in referenced
    ensures AreOrphans(docs, orphans)
  {
    forall id
      ensures id in orphans <==> id in docs && InPrefixRange(id, CHUNK_PREFIX) && !Referenced(docs, id)
    {
      ListingReferences(docs, files, id);
    }
  }

  /** `gcOrphanChunks`: delete exactly the orphans, in one transaction. */
  method GcOrphanChunks(store: DexieStore.DexieStore, files: seq<OwnerDoc>, chunkIds: seq<DocId>)
      returns (orphans: seq<DocId>)
    requires IsFileListing(store.docs, files) && IsChunkListing(store.docs, chunkIds)
    modifies store
    ensures AreOrphans(old(store.docs), orphans)
    ensures store.Model() == if orphans == [] then old(store.Model()) else After(old(store.Model()), GcTx(orphans))
  {
    var referenced := CollectReferencedChunks(files);
    orphans := [];
    for i := 0 to |chunkIds|
      invariant forall id :: id in orphans <==> id in chunkIds[..i] && id !in referenced
    {
      if chunkIds[i] !in referenced {
        orphans := orphans + [chunkIds[i]];
      }
      assert chunkIds[..i + 1] == chunkIds[..i] + [chunkIds[i]];
    }
    assert chunkIds[..|chunkIds|] == chunkIds;
    OrphansFound(store.docs, files, chunkIds, referenced.Keys, orphans);
    if orphans != [] {
      var _ := store.Transact(GcTx(orphans));
    }
  }

  // ── Runs ───────────────────────────────────────────────

  /** What a file was split from. */
  datatype Source = Source(bytes: Bytes, chunkBytes: nat)

  datatype FileState = FileState(store: State, sources: map<DocId, Source>)

  datatype Step =
    | Commit(path: Text, bytes: Bytes, chunkBytes: nat, vclock: Clock, expected: Option<Clock>)
    | MarkDeleted(path: Text, vclock: Clock, expected: Option<Clock>)
    | Collect(orphans: seq<DocId>)
    | Bookkeeping(meta: seq<MetaWrite>)

  function IdsOf(h: ChunkHasher, pieces: seq<Bytes>): (ids: seq<DocId>)
    ensures |ids| == |pieces| && forall i :: 0 <= i < |ids| ==> ids[i] == ChunkId(h, pieces[i])
  {
    seq(|pieces|, i requires 0 <= i < |pieces| => ChunkId(h, pieces[i]))
  }

  /** Chunks and doc in one transaction. */
  function CommitTx(h: ChunkHasher, step: Step): WriteTx
    requires step.Commit? && step.chunkBytes >= 1
  {
    var pieces := Pieces(step.bytes, step.chunkBytes);
    WriteTx(ChunkWrites(h, pieces),
            [DocWrite(FileId(step.path), Some(step.vclock), FileBody(IdsOf(h, pieces), false), step.expected)],
            [], [], [])
  }

  /** A tombstone keeps the chunk list of the doc it replaces. */
  function MarkDeletedTx(s: State, step: Step): WriteTx
    requires step.MarkDeleted?
  {
    var id := FileId(step.path);
    var chunks := if id in s.docs && s.docs[id].body.FileBody? then s.docs[id].body.chunks else [];
    WriteTx([], [DocWrite(id, Some(step.vclock), FileBody(chunks, true), step.expected)], [], [], [])
  }

  ghost predicate CanTake(s: State, step: Step) {
    match step
    case Commit(_, _, chunkBytes, _, _) => chunkBytes >= 1
    case Collect(orphans) => AreOrphans(s.docs, orphans)
    case _ => true
  }

  function Apply(h: ChunkHasher, fs: FileState, step: Step): FileState
    requires step.Commit? ==> step.chunkBytes >= 1
  {
    match step
    case Commit(path, bytes, chunkBytes, _, _) =>
      if ApplyTx(fs.store, CommitTx(h, step)).Err? then fs
      else FileState(After(fs.store, CommitTx(h, step)), fs.sources[FileId(path) := Source(bytes, chunkBytes)])
    case MarkDeleted(_, _, _) => fs.(store := After(fs.store, MarkDeletedTx(fs.store, step)))
    case Collect(orphans) => fs.(store := After(fs.store, GcTx(orphans)))
    case Bookkeeping(meta) => fs.(store := After(fs.store, WriteTx([], [], [], [], meta)))
  }

  /** The rows have the ids and contents their kind demands. */
  ghost predicate RowsOk(h: ChunkHasher, docs: map<DocId, Row>) {
    forall id :: id in docs ==>
      if docs[id].body.FileBody? then FILE_PREFIX <= id
      else docs[id].body.content.Some? && id == ChunkId(h, docs[id].body.content.value)
  }

  ghost predicate FileOk(h: ChunkHasher, fs: FileState, id: DocId) {
    && id in fs.store.docs && fs.store.docs[id].body.FileBody?
    && id in fs.sources && fs.sources[id].chunkBytes >= 1
    && fs.store.docs[id].body.chunks == IdsOf(h, Pieces(fs.sources[id].bytes, fs.sources[id].chunkBytes))
  }

  ghost predicate ChunksStored(docs: map<DocId, Row>, id: DocId)
    requires id in docs && docs[id].body.FileBody?
  {
    forall cid :: cid in docs[id].body.chunks ==> cid in docs
  }

  ghost predicate Inv(h: ChunkHasher, fs: FileState) {
    && RowsOk(h, fs.store.docs)
    && forall id :: IsLiveFile(fs.store.docs, id) ==> FileOk(h, fs, id) && ChunksStored(fs.store.docs, id)
  }

  lemma {:induction false} GetChunksAll(docs: map<DocId, Row>, ids: seq<DocId>)
    requires forall i :: 0 <= i < |ids| ==> ids[i] in docs
    ensures |GetChunks(docs, ids)| == |ids|
    ensures forall i :: 0 <= i < |ids| ==> GetChunks(docs, ids)[i] == docs[ids[i]].body
    decreases |ids|
  {
    if ids != [] {
      GetChunksAll(docs, ids[..|ids| - 1]);
    }
  }

  /** A live file whose chunks are stored reassembles to its bytes. */
  lemma StoredFileReassembles(h: ChunkHasher, fs: FileState, id: DocId)
    requires CollisionFree(h) && RowsOk(h, fs.store.docs) && FileOk(h, fs, id) && ChunksStored(fs.store.docs, id)
    ensures Reassemble(fs.store.docs, fs.store.docs[id].body.chunks) == Ok(fs.sources[id].bytes)
  {
    var docs := fs.store.docs;
    var pieces := Pieces(fs.sources[id].bytes, fs.sources[id].chunkBytes);
    var ids := docs[id].body.chunks;
    assert forall i :: 0 <= i < |ids| ==> ids[i] in ids;
    GetChunksAll(docs, ids);
    var bodies := GetChunks(docs, ids);
    forall i | 0 <= i < |ids|
      ensures HasContent(bodies[i]) && bodies[i].content.value == pieces[i]
    {
      ChunkIdNotFile(h, pieces[i]);
      ChunkIdInjective(h, pieces[i], docs[ids[i]].body.content.value);
    }
    assert Contents(bodies) == pieces;
    PiecesExact(fs.sources[id].bytes, fs.sources[id].chunkBytes);
  }

  lemma ChunkIdNotFile(h: ChunkHasher, c: Bytes)
    ensures !(FILE_PREFIX <= ChunkId(h, c))
    ensures InPrefixRange(ChunkId(h, c), CHUNK_PREFIX)
  {
    assert ChunkId(h, c)[0] == CHUNK_PREFIX[0] != FILE_PREFIX[0];
    PrefixRange(CHUNK_PREFIX, AlgTag(h.alg) + h.hash(c));
    assert (AlgTag(h.alg) + h.hash(c))[0] == AlgTag(h.alg)[0] < RANGE_END;
  }

  /** A transaction that writes one doc over its chunks. */
  lemma OneDoc(s: State, tx: WriteTx)
    requires |tx.docs| == 1 && tx.deletes == [] && ApplyTx(s, tx).Ok?
    ensures var withChunks := PutChunks(s.docs, tx.chunks, s.updateSeq + 1);
            After(s, tx).docs == withChunks[tx.docs[0].id := NewRow(withChunks, tx.docs[0], s.updateSeq + 1)]
  {
    var withChunks := PutChunks(s.docs, tx.chunks, s.updateSeq + 1);
    var rows := PutDocs(withChunks, tx.docs, s.updateSeq + 1);
    assert tx.docs[..0] == [];
    assert PutDocs(withChunks, tx.docs[..0], s.updateSeq + 1) == withChunks;
    assert DeleteDocs(rows, []) == rows;
  }

  /** Rows of a commit: those of before, the new chunks, and the file. */
  lemma CommitRow(h: ChunkHasher, s: State, step: Step, id: DocId)
    requires step.Commit? && step.chunkBytes >= 1 && ApplyTx(s, CommitTx(h, step)).Ok?
    requires id != FileId(step.path) && id in After(s, CommitTx(h, step)).docs
    ensures (id in s.docs && After(s, CommitTx(h, step)).docs[id] == s.docs[id])
         || (id !in s.docs
             && exists c :: id == ChunkId(h, c) && After(s, CommitTx(h, step)).docs[id].body == ChunkBody(Some(c)))
  {
    var tx := CommitTx(h, step);
    OneDoc(s, tx);
    PutChunksRows(s.docs, tx.chunks, s.updateSeq + 1, id);
    if id !in s.docs {
      var i :| 0 <= i < |tx.chunks| && tx.chunks[i].id == id
          && After(s, tx).docs[id] == Row(1, s.updateSeq + 1, None, tx.chunks[i].body);
      var c := Pieces(step.bytes, step.chunkBytes)[i];
      assert id == ChunkId(h, c) && After(s, tx).docs[id].body == ChunkBody(Some(c));
    }
  }

  lemma CommitKeepsRows(h: ChunkHasher, s: State, step: Step, id: DocId)
    requires step.Commit? && step.chunkBytes >= 1 && ApplyTx(s, CommitTx(h, step)).Ok?
    ensures id in s.docs ==> id in After(s, CommitTx(h, step)).docs
    ensures id in IdsOf(h, Pieces(step.bytes, step.chunkBytes)) ==> id in After(s, CommitTx(h, step)).docs
  {
    var tx := CommitTx(h, step);
    OneDoc(s, tx);
    PutChunksRows(s.docs, tx.chunks, s.updateSeq + 1, id);
    if id in IdsOf(h, Pieces(step.bytes, step.chunkBytes)) {
      var i :| 0 <= i < |tx.chunks| && tx.chunks[i].id == id;
    }
  }

  lemma CommitFileRow(h: ChunkHasher, s: State, step: Step)
    requires step.Commit? && step.chunkBytes >= 1 && ApplyTx(s, CommitTx(h, step)).Ok?
    ensures var t := After(s, CommitTx(h, step)); var id := FileId(step.path);
            id in t.docs && t.docs[id].body == FileBody(IdsOf(h, Pieces(step.bytes, step.chunkBytes)), false)
  {
    OneDoc(s, CommitTx(h, step));
  }

  lemma CommitInv(h: ChunkHasher, fs: FileState, step: Step)
    requires Inv(h, fs) && step.Commit? && step.chunkBytes >= 1
    ensures Inv(h, Apply(h, fs, step))
  {
    if ApplyTx(fs.store, CommitTx(h, step)).Ok? {
      var fs' := Apply(h, fs, step);
      var fid := FileId(step.path);
      CommitFileRow(h, fs.store, step);
      forall id | id in fs'.store.docs
        ensures if fs'.store.docs[id].body.FileBody? then FILE_PREFIX <= id
                else fs'.store.docs[id].body.content.Some? && id == ChunkId(h, fs'.store.docs[id].body.content.value)
      {
        if id != fid { CommitRow(h, fs.store, step, id); }
      }
      forall id | IsLiveFile(fs'.store.docs, id)
        ensures FileOk(h, fs', id) && ChunksStored(fs'.store.docs, id)
      {
        if id != fid {
          CommitRow(h, fs.store, step, id);
          assert IsLiveFile(fs.store.docs, id);
        }
        forall cid | cid in fs'.store.docs[id].body.chunks
          ensures cid in fs'.store.docs
        {
          CommitKeepsRows(h, fs.store, step, cid);
        }
      }
    }
  }

  lemma MarkDeletedInv(h: ChunkHasher, fs: FileState, step: Step)
    requires Inv(h, fs) && step.MarkDeleted?
    ensures Inv(h, Apply(h, fs, step))
  {
    var tx := MarkDeletedTx(fs.store, step);
    var fs' := Apply(h, fs, step);
    if ApplyTx(fs.store, tx).Ok? {
      OneDoc(fs.store, tx);
      forall id | IsLiveFile(fs'.store.docs, id)
        ensures FileOk(h, fs', id) && ChunksStored(fs'.store.docs, id)
      {
        assert IsLiveFile(fs.store.docs, id) && FileOk(h, fs, id);
      }
    }
  }

  /** The rows after a collection. */
  lemma CollectRows(s: State, orphans: seq<DocId>, id: DocId)
    ensures After(s, GcTx(orphans)).docs == DeleteDocs(s.docs, orphans)
    ensures id in After(s, GcTx(orphans)).docs <==> id in s.docs && id !in orphans
  {}

  /** A chunk of a live file survives exactly when a listed file names it. */
  lemma {:induction false} CollectedChunk(h: ChunkHasher, fs: FileState, orphans: seq<DocId>, id: DocId, cid: DocId)
    requires CollisionFree(h) && Inv(h, fs) && AreOrphans(fs.store.docs, orphans) && IsLiveFile(fs.store.docs, id)
    requires cid in fs.store.docs[id].body.chunks
    ensures cid in After(fs.store, GcTx(orphans)).docs <==> Referenced(fs.store.docs, cid)
  {
    var ids := fs.store.docs[id].body.chunks;
    var i :| 0 <= i < |ids| && ids[i] == cid;
    ChunkIdNotFile(h, Pieces(fs.sources[id].bytes, fs.sources[id].chunkBytes)[i]);
    CollectRows(fs.store, orphans, cid);
  }

  /** With a chunk gone a file with bytes no longer reassembles, an empty one
      still does. */
  lemma {:induction false} CollectBreaks(h: ChunkHasher, fs: FileState, t: map<DocId, Row>, id: DocId)
    requires CollisionFree(h) && Inv(h, fs) && IsLiveFile(fs.store.docs, id)
    requires forall x :: x in t ==> x in fs.store.docs && t[x] == fs.store.docs[x]
    requires exists cid :: cid in fs.store.docs[id].body.chunks && cid !in t
    ensures Reassemble(t, fs.store.docs[id].body.chunks) == Ok(fs.sources[id].bytes) <==> fs.sources[id].bytes == []
  {
    var docs := fs.store.docs;
    var ids := docs[id].body.chunks;
    var pieces := Pieces(fs.sources[id].bytes, fs.sources[id].chunkBytes);
    PiecesExact(fs.sources[id].bytes, fs.sources[id].chunkBytes);
    StoredFileReassembles(h, fs, id);
    assert forall i :: 0 <= i < |ids| ==> ids[i] in docs by {
      assert forall i :: 0 <= i < |ids| ==> ids[i] in ids;
    }
    var cid :| cid in ids && cid !in t;
    PartialLength(h, docs, t, ids, pieces, cid);
    if fs.sources[id].bytes != [] {
      PartialShorter(h, docs, t, ids, pieces, cid);
    }
  }

  /** A collection with no write in between keeps every file it lists, and
      breaks one it does not list exactly when that file holds bytes in a chunk
      no listed file names. */
  lemma {:induction false} CollectExact(h: ChunkHasher, fs: FileState, orphans: seq<DocId>, id: DocId)
    requires CollisionFree(h) && Inv(h, fs) && AreOrphans(fs.store.docs, orphans) && IsLiveFile(fs.store.docs, id)
    ensures var t := After(fs.store, GcTx(orphans));
            && id in t.docs && t.docs[id] == fs.store.docs[id]
            && (Reassemble(t.docs, t.docs[id].body.chunks) == Ok(fs.sources[id].bytes)
                <==> fs.sources[id].bytes == [] || forall cid :: cid in fs.store.docs[id].body.chunks ==>
                    Referenced(fs.store.docs, cid))
  {
    var docs := fs.store.docs;
    var t := After(fs.store, GcTx(orphans));
    var ids := docs[id].body.chunks;
    CollectRows(fs.store, orphans, id);
    FileIdNotChunk(id);
    forall cid | cid in ids
      ensures cid in t.docs <==> Referenced(docs, cid)
    {
      CollectedChunk(h, fs, orphans, id, cid);
    }
    if forall cid :: cid in ids ==> Referenced(docs, cid) {
      StoredFileReassembles(h, fs.(store := t), id);
    } else {
      CollectBreaks(h, fs, t.docs, id);
    }
  }

  lemma FileIdNotChunk(id: DocId)
    requires FILE_PREFIX <= id
    ensures !InPrefixRange(id, CHUNK_PREFIX)
  {
    assert id[0] == FILE_PREFIX[0];
    assert Lt(CHUNK_PREFIX + [RANGE_END], id);
    LtAsymmetric(CHUNK_PREFIX + [RANGE_END], id);
    LtIrreflexive(id);
  }

  /** Rows missing only shorten what is reassembled. */
  lemma {:induction false} PartialLength(h: ChunkHasher, docs: map<DocId, Row>, t: map<DocId, Row>, ids: seq<DocId>,
      pieces: seq<Bytes>, cid: DocId)
    requires CollisionFree(h) && RowsOk(h, docs) && ids == IdsOf(h, pieces)
    requires forall i :: 0 <= i < |ids| ==> ids[i] in docs
    requires forall x :: x in t ==> x in docs && t[x] == docs[x]
    ensures Reassemble(t, ids).Ok? && |Reassemble(t, ids).value| <= |Concat(pieces)|
    decreases |ids|
  {
    if ids != [] {
      var n := |ids| - 1;
      assert ids[..n] == IdsOf(h, pieces[..n]);
      PartialLength(h, docs, t, ids[..n], pieces[..n], cid);
      ChunkIdNotFile(h, pieces[n]);
      if ids[n] in t {
        ChunkIdInjective(h, pieces[n], t[ids[n]].body.content.value);
        JoinOneMore(GetChunks(t, ids[..n]), t[ids[n]].body);
      } else {
        assert GetChunks(t, ids) == GetChunks(t, ids[..n]);
      }
    }
  }

  lemma JoinOneMore(bodies: seq<Body>, b: Body)
    requires Joined(bodies).Ok? && HasContent(b)
    ensures Joined(bodies + [b]) == Ok(Joined(bodies).value + b.content.value)
  {
    var all := bodies + [b];
    assert FirstMissing(bodies) == |bodies|;
    assert forall i :: 0 <= i < |all| ==> HasContent(all[i]);
    assert Contents(all)[..|bodies|] == Contents(bodies);
  }

  lemma {:induction false} PartialShorter(h: ChunkHasher, docs: map<DocId, Row>, t: map<DocId, Row>, ids: seq<DocId>,
      pieces: seq<Bytes>, cid: DocId)
    requires CollisionFree(h) && RowsOk(h, docs) && ids == IdsOf(h, pieces)
    requires forall i :: 0 <= i < |ids| ==> ids[i] in docs && pieces[i] != []
    requires forall x :: x in t ==> x in docs && t[x] == docs[x]
    requires cid in ids && cid !in t
    ensures Reassemble(t, ids).Ok? && |Reassemble(t, ids).value| < |Concat(pieces)|
    decreases |ids|
  {
    var n := |ids| - 1;
    assert ids[..n] == IdsOf(h, pieces[..n]);
    assert ids == ids[..n] + [ids[n]];
    PartialLength(h, docs, t, ids[..n], pieces[..n], cid);
    ChunkIdNotFile(h, pieces[n]);
    if ids[n] in t {
      PartialShorter(h, docs, t, ids[..n], pieces[..n], cid);
      ChunkIdInjective(h, pieces[n], t[ids[n]].body.content.value);
      JoinOneMore(GetChunks(t, ids[..n]), t[ids[n]].body);
    } else {
      assert GetChunks(t, ids) == GetChunks(t, ids[..n]);
    }
  }

  /** Every live file is in the key range `allFileDocs` reads. */
  ghost predicate AllListed(docs: map<DocId, Row>) {
    forall id :: IsLiveFile(docs, id) ==> InPrefixRange(id, FILE_PREFIX)
  }

  lemma CollectInv(h: ChunkHasher, fs: FileState, orphans: seq<DocId>)
    requires Inv(h, fs) && AreOrphans(fs.store.docs, orphans) && AllListed(fs.store.docs)
    ensures Inv(h, Apply(h, fs, Collect(orphans)))
  {
    var fs' := Apply(h, fs, Collect(orphans));
    forall id | IsLiveFile(fs'.store.docs, id)
      ensures FileOk(h, fs', id) && ChunksStored(fs'.store.docs, id)
    {
      CollectRows(fs.store, orphans, id);
      assert IsLiveFile(fs.store.docs, id) && IsListedFile(fs.store.docs, id);
      forall cid | cid in fs.store.docs[id].body.chunks
        ensures cid in fs'.store.docs
      {
        CollectRows(fs.store, orphans, cid);
        assert Referenced(fs.store.docs, cid);
      }
    }
  }

  /** Each step can be taken, and commits only paths that are listed. */
  ghost predicate RunOk(h: ChunkHasher, fs: FileState, steps: seq<Step>)
    decreases |steps|
  {
    steps != [] ==>
      && CanTake(fs.store, steps[0])
      && (steps[0].Commit? ==> Listed(steps[0].path))
      && RunOk(h, Apply(h, fs, steps[0]), steps[1..])
  }

  function Run(h: ChunkHasher, fs: FileState, steps: seq<Step>): FileState
    requires forall i :: 0 <= i < |steps| && steps[i].Commit? ==> steps[i].chunkBytes >= 1
    decreases |steps|
  {
    if steps == [] then fs else Run(h, Apply(h, fs, steps[0]), steps[1..])
  }

  lemma StepListed(h: ChunkHasher, fs: FileState, step: Step)
    requires AllListed(fs.store.docs) && CanTake(fs.store, step) && (step.Commit? ==> Listed(step.path))
    ensures AllListed(Apply(h, fs, step).store.docs)
  {
    var t := Apply(h, fs, step).store;
    forall id | IsLiveFile(t.docs, id)
      ensures InPrefixRange(id, FILE_PREFIX)
    {
      match step
      case Commit(path, _, _, _, _) =>
        PrefixRange(FILE_PREFIX, path);
        if id != FileId(path) && ApplyTx(fs.store, CommitTx(h, step)).Ok? {
          CommitRow(h, fs.store, step, id);
        }
      case MarkDeleted(_, _, _) =>
        if ApplyTx(fs.store, MarkDeletedTx(fs.store, step)).Ok? {
          OneDoc(fs.store, MarkDeletedTx(fs.store, step));
        }
      case _ =>
    }
  }

  lemma StepInv(h: ChunkHasher, fs: FileState, step: Step)
    requires Inv(h, fs) && AllListed(fs.store.docs) && CanTake(fs.store, step)
    ensures Inv(h, Apply(h, fs, step))
  {
    match step
    case Commit(_, _, _, _, _) => CommitInv(h, fs, step);
    case MarkDeleted(_, _, _) => MarkDeletedInv(h, fs, step);
    case Collect(orphans) => CollectInv(h, fs, orphans);
    case Bookkeeping(meta) =>
      var fs' := Apply(h, fs, step);
      assert fs'.store.docs == fs.store.docs;
      assert forall id :: IsLiveFile(fs'.store.docs, id) ==> FileOk(h, fs, id);
  }

  /** A commit that is accepted leaves its path alive, under its clock, and reading it
      gives the bytes back; a refused one changes nothing. */
  lemma {:induction false} CommitStoresBytes(h: ChunkHasher, fs: FileState, step: Step)
    requires CollisionFree(h) && Inv(h, fs) && step.Commit? && step.chunkBytes >= 1
    ensures var t := Apply(h, fs, step); var id := FileId(step.path);
            if ApplyTx(fs.store, CommitTx(h, step)).Err? then t == fs
            else IsLiveFile(t.store.docs, id) && t.store.docs[id].vclock == Some(step.vclock)
                 && Reassemble(t.store.docs, t.store.docs[id].body.chunks) == Ok(step.bytes)
  {
    if ApplyTx(fs.store, CommitTx(h, step)).Ok? {
      var t := Apply(h, fs, step);
      CommitInv(h, fs, step);
      CommitFileRow(h, fs.store, step);
      TxWritesDocs(fs.store, CommitTx(h, step), FileId(step.path), 0);
      assert LastDoc(CommitTx(h, step), FileId(step.path), 0);
      StoredFileReassembles(h, t, FileId(step.path));
    }
  }

  /** It is refused exactly when it expects another clock than the stored one. */
  lemma {:induction false} CommitRefusedExactly(h: ChunkHasher, s: State, step: Step)
    requires step.Commit? && step.chunkBytes >= 1
    ensures ApplyTx(s, CommitTx(h, step)).Err?
       <==> step.expected.Some?
            && !ClockIs(if FileId(step.path) in s.docs then s.docs[FileId(step.path)].vclock else None,
                        step.expected.value)
  {
    var tx := CommitTx(h, step);
    forall i | 0 <= i < |tx.chunks| ensures tx.chunks[i].id != FileId(step.path) {
      ChunkIdNotFile(h, Pieces(step.bytes, step.chunkBytes)[i]);
      assert FILE_PREFIX <= FileId(step.path);
    }
    assert !WritesChunk(tx, FileId(step.path));
    TxRefusedExactly(s, tx);
    assert tx.docs[0].id == FileId(step.path) && tx.docs[0].expected == step.expected;
  }

  /** A tombstone that is accepted leaves the path deleted under its clock, with the
      chunk list it had. */
  lemma {:induction false} MarkDeletedDeletes(s: State, step: Step)
    requires step.MarkDeleted? && ApplyTx(s, MarkDeletedTx(s, step)).Ok?
    ensures var t := After(s, MarkDeletedTx(s, step)); var id := FileId(step.path);
            && id in t.docs && t.docs[id].body.FileBody? && t.docs[id].body.deleted
            && t.docs[id].vclock == Some(step.vclock)
            && (id in s.docs && s.docs[id].body.FileBody? ==> t.docs[id].body.chunks == s.docs[id].body.chunks)
  {
    assert LastDoc(MarkDeletedTx(s, step), FileId(step.path), 0);
    TxWritesDocs(s, MarkDeletedTx(s, step), FileId(step.path), 0);
  }

  /** In every state reached by commits, overwrites, tombstones and collections
      of listed paths, each live file reassembles to the bytes it was split
      from. */
  lemma {:induction false} FilesAlwaysReassemble(h: ChunkHasher, fs: FileState, steps: seq<Step>, id: DocId)
    requires CollisionFree(h) && Inv(h, fs) && AllListed(fs.store.docs) && RunOk(h, fs, steps)
    requires forall i :: 0 <= i < |steps| && steps[i].Commit? ==> steps[i].chunkBytes >= 1
    requires IsLiveFile(Run(h, fs, steps).store.docs, id)
    ensures var t := Run(h, fs, steps);
            id in t.sources && Reassemble(t.store.docs, t.store.docs[id].body.chunks) == Ok(t.sources[id].bytes)
    decreases |steps|
  {
    if steps == [] {
      StoredFileReassembles(h, fs, id);
    } else {
      StepInv(h, fs, steps[0]);
      StepListed(h, fs, steps[0]);
      FilesAlwaysReassemble(h, Apply(h, fs, steps[0]), steps[1..], id);
    }
  }

  lemma EmptyStoreInv(h: ChunkHasher)
    ensures Inv(h, EMPTY) && AllListed(map[])
  {}

  const EMPTY: FileState := FileState(State(map[], map[], 0), map[])

  /** A first commit of one byte. */
  predicate FirstCommit(step: Step) {
    step.Commit? && step.chunkBytes == 1 && |step.bytes| == 1 && step.expected == None
  }

  /** It makes two rows. */
  lemma OnlyTwoRows(h: ChunkHasher, step: Step, id: DocId)
    requires FirstCommit(step) && id in Apply(h, EMPTY, step).store.docs
    ensures id == FileId(step.path) || id == ChunkId(h, step.bytes)
  {
    var tx := CommitTx(h, step);
    PutChunksRows(EMPTY.store.docs, tx.chunks, 1, id);
    PutDocsRows(PutChunks(EMPTY.store.docs, tx.chunks, 1), tx.docs, 1, id);
  }

  lemma FirstFileRow(h: ChunkHasher, step: Step)
    requires FirstCommit(step)
    ensures var fs := Apply(h, EMPTY, step); var fid := FileId(step.path);
            && IsLiveFile(fs.store.docs, fid) && fs.store.docs[fid].body.chunks == [ChunkId(h, step.bytes)]
            && fid in fs.sources && fs.sources[fid].bytes == step.bytes
  {
    assert ApplyTx(EMPTY.store, CommitTx(h, step)).Ok?;
    CommitFileRow(h, EMPTY.store, step);
  }

  lemma FirstFileInv(h: ChunkHasher, step: Step)
    requires FirstCommit(step)
    ensures Inv(h, Apply(h, EMPTY, step))
  {
    EmptyStoreInv(h);
    CommitInv(h, EMPTY, step);
  }

  lemma FirstFileChunk(h: ChunkHasher, step: Step)
    requires FirstCommit(step)
    ensures ChunkId(h, step.bytes) in Apply(h, EMPTY, step).store.docs
  {
    var fs := Apply(h, EMPTY, step);
    FirstFileInv(h, step);
    FirstFileRow(h, step);
    assert ChunksStored(fs.store.docs, FileId(step.path));
    assert ChunkId(h, step.bytes) in fs.store.docs[FileId(step.path)].body.chunks;
  }

  /** With no listed file the one chunk is an orphan. */
  lemma LoneOrphan(docs: map<DocId, Row>, fid: DocId, cid: DocId)
    requires cid in docs && (forall id :: id in docs ==> id == fid || id == cid)
    requires InPrefixRange(cid, CHUNK_PREFIX) && !InPrefixRange(fid, CHUNK_PREFIX)
    requires !InPrefixRange(fid, FILE_PREFIX) && !InPrefixRange(cid, FILE_PREFIX)
    ensures AreOrphans(docs, [cid])
  {
    assert forall id :: id in docs ==> !IsListedFile(docs, id);
    assert forall id :: id in [cid] <==> id == cid;
  }

  /** A file named U+FFFD is outside the key range: the next collection takes
      its chunks. */
  lemma UnlistedFileLosesItsChunks(h: ChunkHasher, b: Byte, vclock: Clock) returns (orphans: seq<DocId>)
    requires CollisionFree(h)
    ensures var fs := Apply(h, EMPTY, Commit([0xFFFD], [b], 1, vclock, None));
            && IsLiveFile(fs.store.docs, FileId([0xFFFD]))
            && AreOrphans(fs.store.docs, orphans)
            && var t := After(fs.store, GcTx(orphans));
               FileId([0xFFFD]) in t.docs
               && Reassemble(t.docs, fs.store.docs[FileId([0xFFFD])].body.chunks) != Ok([b])
  {
    var step := Commit([0xFFFD], [b], 1, vclock, None);
    var fs := Apply(h, EMPTY, step);
    var fid := FileId([0xFFFD]);
    var cid := ChunkId(h, [b]);
    FirstFileInv(h, step);
    FirstFileRow(h, step);
    FirstFileChunk(h, step);
    forall id | id in fs.store.docs ensures id == fid || id == cid {
      OnlyTwoRows(h, step, id);
    }
    PrefixRange(FILE_PREFIX, [0xFFFD]);
    ChunkIdNotFile(h, [b]);
    FileIdNotChunk(fid);
    LoneOrphan(fs.store.docs, fid, cid);
    orphans := [cid];
    CollectExact(h, fs, orphans, fid);
  }
}
