/** The store of src/db/dexie-store.ts. */
module DocStore {
  // One sequence number per transaction, vector-clock compare-and-set, the
  // changes cursor and the change signature.

  import opened Wrappers
  import opened Utf16
  import opened VectorClocks

  type DocId = Text

  newtype Byte = x: int | 0 <= x < 256

  type Bytes = seq<Byte>

  /** A chunk doc may arrive without its content buffer. */
  datatype Body =
    | FileBody(chunks: seq<DocId>, deleted: bool)
    | ChunkBody(content: Option<Bytes>)

  /** A stored row: `_version`, `_localSeq`, the doc's clock and its body. */
  datatype Row = Row(version: nat, localSeq: nat, vclock: Option<Clock>, body: Body)

  datatype MetaWrite = Put(key: string, value: string) | Delete(key: string)

  datatype ChunkWrite = ChunkWrite(id: DocId, body: Body)

  datatype DocWrite = DocWrite(id: DocId, vclock: Option<Clock>, body: Body, expected: Option<Clock>)

  /** A complete write; `vclocks` are the per-path lastSynced rows of `meta`. */
  datatype WriteTx = WriteTx(chunks: seq<ChunkWrite>, docs: seq<DocWrite>, deletes: seq<DocId>,
                             vclocks: seq<MetaWrite>, meta: seq<MetaWrite>)

  /** The two tables; `updateSeq` is the meta row "_update_seq", 0 when absent. */
  datatype State = State(docs: map<DocId, Row>, meta: map<string, string>, updateSeq: nat)

  datatype DbError = CasConflict | Aborted | Failed

  // ── One transaction ────────────────────────────────────

  predicate VclocksEqual(a: Option<Clock>, b: Clock) {
    match a
    case None => b == map[]
    case Some(c) => forall k :: k in c.Keys + b.Keys ==> Entry(c, k) == Entry(b, k)
  }

  /** Chunks already stored before the transaction are left alone. */
  function PutChunks(before: map<DocId, Row>, chunks: seq<ChunkWrite>, seqNo: nat): map<DocId, Row> {
    if chunks == [] then before
    else
      var n := |chunks| - 1;
      var rest := PutChunks(before, chunks[..n], seqNo);
      if chunks[n].id in before then rest else rest[chunks[n].id := Row(1, seqNo, None, chunks[n].body)]
  }

  lemma {:induction false} PutChunksNext(before: map<DocId, Row>, chunks: seq<ChunkWrite>, seqNo: nat, i: nat)
    requires i < |chunks|
    ensures PutChunks(before, chunks[..i + 1], seqNo)
         == var rest := PutChunks(before, chunks[..i], seqNo);
            if chunks[i].id in before then rest else rest[chunks[i].id := Row(1, seqNo, None, chunks[i].body)]
  {
    assert chunks[..i + 1][..i] == chunks[..i];
  }

  function StoredClock(docs: map<DocId, Row>, id: DocId): Option<Clock> {
    if id in docs then docs[id].vclock else None
  }

  predicate CasHolds(before: map<DocId, Row>, w: DocWrite) {
    w.expected.Some? ==> VclocksEqual(StoredClock(before, w.id), w.expected.value)
  }

  function NewRow(before: map<DocId, Row>, w: DocWrite, seqNo: nat): Row {
    Row((if w.id in before then before[w.id].version else 0) + 1, seqNo, w.vclock, w.body)
  }

  /** Later writes of one id win; each is checked against the stored row. */
  function PutDocs(before: map<DocId, Row>, writes: seq<DocWrite>, seqNo: nat): map<DocId, Row> {
    if writes == [] then before
    else
      var n := |writes| - 1;
      PutDocs(before, writes[..n], seqNo)[writes[n].id := NewRow(before, writes[n], seqNo)]
  }

  lemma {:induction false} PutDocsNext(before: map<DocId, Row>, writes: seq<DocWrite>, seqNo: nat, i: nat)
    requires i < |writes|
    ensures PutDocs(before, writes[..i + 1], seqNo)
         == PutDocs(before, writes[..i], seqNo)[writes[i].id := NewRow(before, writes[i], seqNo)]
  {
    assert writes[..i + 1][..i] == writes[..i];
  }

  function DeleteDocs(docs: map<DocId, Row>, ids: seq<DocId>): map<DocId, Row> {
    map id | id in docs && id !in ids :: docs[id]
  }

  function WriteMeta(meta: map<string, string>, writes: seq<MetaWrite>): map<string, string> {
    if writes == [] then meta
    else
      var n := |writes| - 1;
      var rest := WriteMeta(meta, writes[..n]);
      match writes[n]
      case Put(k, v) => rest[k := v]
      case Delete(k) => rest - {k}
  }

  /** All of the transaction, or none of it. */
  function ApplyTx(s: State, tx: WriteTx): Result<State, DbError> {
    var seqNo := s.updateSeq + 1;
    var withChunks := PutChunks(s.docs, tx.chunks, seqNo);
    if exists i :: 0 <= i < |tx.docs| && !CasHolds(withChunks, tx.docs[i]) then Err(CasConflict)
    else Ok(State(DeleteDocs(PutDocs(withChunks, tx.docs, seqNo), tx.deletes),
                  WriteMeta(WriteMeta(s.meta, tx.vclocks), tx.meta), seqNo))
  }

  /** The state after an attempt: a failed one is rolled back. */
  function After(s: State, tx: WriteTx): State {
    match ApplyTx(s, tx)
    case Ok(s') => s'
    case Err(_) => s
  }

  function RunAll(s: State, txs: seq<WriteTx>): State
    decreases |txs|
  {
    if txs == [] then s else After(RunAll(s, txs[..|txs| - 1]), txs[|txs| - 1])
  }

  predicate Valid(s: State) {
    forall id :: id in s.docs ==> 1 <= s.docs[id].localSeq <= s.updateSeq
  }

  // ── What a transaction leaves alone ────────────────────

  /** Every row of `t` is a row of `s`, or carries a newer sequence number. */
  ghost predicate OnlyNewer(s: State, t: State) {
    && s.updateSeq <= t.updateSeq
    && forall id :: id in t.docs ==>
         (id in s.docs && t.docs[id] == s.docs[id]) || s.updateSeq < t.docs[id].localSeq <= t.updateSeq
  }

  lemma {:induction false} PutChunksRows(before: map<DocId, Row>, chunks: seq<ChunkWrite>, seqNo: nat, id: DocId)
    ensures id in before ==>
              id in PutChunks(before, chunks, seqNo) && PutChunks(before, chunks, seqNo)[id] == before[id]
    ensures id in PutChunks(before, chunks, seqNo) && id !in before ==>
              exists i :: 0 <= i < |chunks| && chunks[i].id == id
                  && PutChunks(before, chunks, seqNo)[id] == Row(1, seqNo, None, chunks[i].body)
    ensures id !in PutChunks(before, chunks, seqNo) ==> forall i :: 0 <= i < |chunks| ==> chunks[i].id != id
    decreases |chunks|
  {
    if chunks != [] {
      var n := |chunks| - 1;
      PutChunksRows(before, chunks[..n], seqNo, id);
      assert forall i :: 0 <= i < n ==> chunks[..n][i] == chunks[i];
      assert chunks[n].id == id ==> exists i :: 0 <= i < |chunks| && chunks[i] == chunks[n];
    }
  }

  lemma {:induction false} PutDocsRows(before: map<DocId, Row>, writes: seq<DocWrite>, seqNo: nat, id: DocId)
    ensures id in before ==> id in PutDocs(before, writes, seqNo)
    ensures id in PutDocs(before, writes, seqNo) ==>
              || (id in before && PutDocs(before, writes, seqNo)[id] == before[id]
                  && forall i :: 0 <= i < |writes| ==> writes[i].id != id)
              || (exists i ::
                    0 <= i < |writes| && writes[i].id == id
                    && PutDocs(before, writes, seqNo)[id] == NewRow(before, writes[i], seqNo))
    ensures id !in PutDocs(before, writes, seqNo) ==> forall i :: 0 <= i < |writes| ==> writes[i].id != id
    decreases |writes|
  {
    if writes != [] {
      var n := |writes| - 1;
      PutDocsRows(before, writes[..n], seqNo, id);
      assert forall i :: 0 <= i < n ==> writes[..n][i] == writes[i];
    }
  }

  lemma TxOnlyNewer(s: State, tx: WriteTx)
    ensures OnlyNewer(s, After(s, tx))
    ensures Valid(s) ==> Valid(After(s, tx))
  {
    var seqNo := s.updateSeq + 1;
    var withChunks := PutChunks(s.docs, tx.chunks, seqNo);
    forall id | id in After(s, tx).docs
      ensures (id in s.docs && After(s, tx).docs[id] == s.docs[id])
          || s.updateSeq < After(s, tx).docs[id].localSeq <= After(s, tx).updateSeq
    {
      PutChunksRows(s.docs, tx.chunks, seqNo, id);
      PutDocsRows(withChunks, tx.docs, seqNo, id);
    }
  }

  lemma {:induction false} RunOnlyNewer(s: State, txs: seq<WriteTx>)
    ensures OnlyNewer(s, RunAll(s, txs))
    ensures Valid(s) ==> Valid(RunAll(s, txs))
    decreases |txs|
  {
    if txs != [] {
      var n := |txs| - 1;
      RunOnlyNewer(s, txs[..n]);
      TxOnlyNewer(RunAll(s, txs[..n]), txs[n]);
    }
  }

  // ── What a committed transaction leaves ────────────────

  /** `i` is the last of the writes to `key`. */
  ghost predicate LastOf(ws: seq<MetaWrite>, key: string, i: int) {
    0 <= i < |ws| && ws[i].key == key && forall j :: i < j < |ws| ==> ws[j].key != key
  }

  ghost predicate MetaWritten(before: map<string, string>, ws: seq<MetaWrite>, after: map<string, string>) {
    && (forall key, i :: LastOf(ws, key, i) ==>
          match ws[i]
          case Put(_, v) => key in after && after[key] == v
          case Delete(_) => key !in after)
    && (forall key :: (forall i :: 0 <= i < |ws| ==> ws[i].key != key) ==>
          (key in after <==> key in before) && (key in after ==> after[key] == before[key]))
  }

  lemma {:induction false} WriteMetaWrites(before: map<string, string>, ws: seq<MetaWrite>)
    ensures MetaWritten(before, ws, WriteMeta(before, ws))
  {
    if ws != [] {
      var n := |ws| - 1;
      WriteMetaWrites(before, ws[..n]);
      var after := WriteMeta(before, ws);
      forall key, i | LastOf(ws, key, i)
        ensures match ws[i] case Put(_, v) => key in after && after[key] == v case Delete(_) => key !in after
      {
        if i < n {
          assert LastOf(ws[..n], key, i);
          assert ws[n].key != key;
        }
      }
      forall key | forall i :: 0 <= i < |ws| ==> ws[i].key != key
        ensures (key in after <==> key in before) && (key in after ==> after[key] == before[key])
      {
        assert forall i :: 0 <= i < n ==> ws[..n][i] == ws[i];
        assert ws[n].key != key;
      }
    }
  }

  lemma {:induction false} WriteMetaAppend(before: map<string, string>, a: seq<MetaWrite>, b: seq<MetaWrite>)
    ensures WriteMeta(before, a + b) == WriteMeta(WriteMeta(before, a), b)
    decreases |b|
  {
    if b == [] {
      assert a + b == a;
    } else {
      var n := |b| - 1;
      assert (a + b)[..|a| + n] == a + b[..n];
      WriteMetaAppend(before, a, b[..n]);
    }
  }

  /** After a committed transaction a key whose last write is a put has that value,
      one whose last write is a delete is absent, and the others are as they were;
      the lastSynced rows are written before the rest. */
  lemma {:induction false} TxWritesMeta(s: State, tx: WriteTx)
    requires ApplyTx(s, tx).Ok?
    ensures MetaWritten(s.meta, tx.vclocks + tx.meta, After(s, tx).meta)
  {
    WriteMetaAppend(s.meta, tx.vclocks, tx.meta);
    WriteMetaWrites(s.meta, tx.vclocks + tx.meta);
  }

  /** `i` is the last doc of the transaction with this id. */
  ghost predicate LastDoc(tx: WriteTx, id: DocId, i: int) {
    0 <= i < |tx.docs| && tx.docs[i].id == id && forall j :: i < j < |tx.docs| ==> tx.docs[j].id != id
  }

  ghost predicate LastChunk(tx: WriteTx, id: DocId, i: int) {
    0 <= i < |tx.chunks| && tx.chunks[i].id == id && forall j :: i < j < |tx.chunks| ==> tx.chunks[j].id != id
  }

  predicate WritesDoc(tx: WriteTx, id: DocId) {
    exists i :: 0 <= i < |tx.docs| && tx.docs[i].id == id
  }

  predicate WritesChunk(tx: WriteTx, id: DocId) {
    exists i :: 0 <= i < |tx.chunks| && tx.chunks[i].id == id
  }

  lemma {:induction false} PutChunksLast(before: map<DocId, Row>, chunks: seq<ChunkWrite>, seqNo: nat, id: DocId,
      i: nat)
    requires i < |chunks| && chunks[i].id == id && forall j :: i < j < |chunks| ==> chunks[j].id != id
    ensures var t := PutChunks(before, chunks, seqNo);
            id in t && t[id] == if id in before then before[id] else Row(1, seqNo, None, chunks[i].body)
    decreases |chunks|
  {
    var n := |chunks| - 1;
    PutChunksRows(before, chunks, seqNo, id);
    if i < n {
      PutChunksLast(before, chunks[..n], seqNo, id, i);
    }
  }

  lemma {:induction false} PutDocsLast(before: map<DocId, Row>, writes: seq<DocWrite>, seqNo: nat, id: DocId, i: nat)
    requires i < |writes| && writes[i].id == id && forall j :: i < j < |writes| ==> writes[j].id != id
    ensures var t := PutDocs(before, writes, seqNo); id in t && t[id] == NewRow(before, writes[i], seqNo)
    decreases |writes|
  {
    var n := |writes| - 1;
    if i < n {
      PutDocsLast(before, writes[..n], seqNo, id, i);
    }
  }

  lemma {:induction false} PutDocsNone(before: map<DocId, Row>, writes: seq<DocWrite>, seqNo: nat, id: DocId)
    requires forall j :: 0 <= j < |writes| ==> writes[j].id != id
    ensures var t := PutDocs(before, writes, seqNo); (id in t <==> id in before) && (id in t ==> t[id] == before[id])
    decreases |writes|
  {
    if writes != [] {
      PutDocsNone(before, writes[..|writes| - 1], seqNo, id);
    }
  }

  /** A committed transaction takes the next number and deletes what it says; the
      last doc written under an id gives the row its clock and body, and a version
      one above the stored one. */
  lemma {:induction false} TxWritesDocs(s: State, tx: WriteTx, id: DocId, i: nat)
    requires ApplyTx(s, tx).Ok?
    ensures After(s, tx).updateSeq == s.updateSeq + 1
    ensures id in tx.deletes ==> id !in After(s, tx).docs
    ensures id !in tx.deletes && LastDoc(tx, id, i) ==>
              var t := After(s, tx);
              id in t.docs && t.docs[id].vclock == tx.docs[i].vclock && t.docs[id].body == tx.docs[i].body
              && t.docs[id].localSeq == t.updateSeq
              && (id in s.docs ==> t.docs[id].version == s.docs[id].version + 1)
              && (id !in s.docs && !WritesChunk(tx, id) ==> t.docs[id].version == 1)
  {
    var seqNo := s.updateSeq + 1;
    var withChunks := PutChunks(s.docs, tx.chunks, seqNo);
    if id !in tx.deletes && LastDoc(tx, id, i) {
      PutChunksRows(s.docs, tx.chunks, seqNo, id);
      PutDocsLast(withChunks, tx.docs, seqNo, id, i);
    }
  }

  /** An id that is neither deleted nor a doc of the transaction keeps its row; one
      not stored before gets the last chunk written under it, or none. */
  lemma {:induction false} TxWritesChunks(s: State, tx: WriteTx, id: DocId, i: nat)
    requires ApplyTx(s, tx).Ok? && id !in tx.deletes && !WritesDoc(tx, id)
    ensures var t := After(s, tx);
            && (id in s.docs ==> id in t.docs && t.docs[id] == s.docs[id])
            && (id !in s.docs && !WritesChunk(tx, id) ==> id !in t.docs)
            && (id !in s.docs && LastChunk(tx, id, i) ==>
                  id in t.docs && t.docs[id] == Row(1, t.updateSeq, None, tx.chunks[i].body))
  {
    var seqNo := s.updateSeq + 1;
    PutChunksRows(s.docs, tx.chunks, seqNo, id);
    PutDocsNone(PutChunks(s.docs, tx.chunks, seqNo), tx.docs, seqNo, id);
    if LastChunk(tx, id, i) {
      PutChunksLast(s.docs, tx.chunks, seqNo, id, i);
    }
  }

  /** The stored clock is the one expected; no clock is stored where there is no doc,
      and only the empty one is expected there. */
  ghost predicate ClockIs(stored: Option<Clock>, expected: Clock) {
    match stored
    case None => expected == map[]
    case Some(c) => forall d :: Entry(c, d) == Entry(expected, d)
  }

  lemma EqualClockIs(stored: Option<Clock>, expected: Clock)
    ensures VclocksEqual(stored, expected) <==> ClockIs(stored, expected)
  {
    if stored.Some? && VclocksEqual(stored, expected) {
      forall d ensures Entry(stored.value, d) == Entry(expected, d) {
        assert d !in stored.value.Keys + expected.Keys ==> d !in stored.value && d !in expected;
      }
    }
  }

  /** A transaction is refused, and then changes nothing, exactly when some doc
      expects another clock than the stored one; a doc that is new here, and no
      chunk of the transaction, has the empty clock. */
  lemma {:induction false} TxRefusedExactly(s: State, tx: WriteTx)
    requires forall i :: 0 <= i < |tx.docs| ==> tx.docs[i].id in s.docs || !WritesChunk(tx, tx.docs[i].id)
    ensures ApplyTx(s, tx).Err?
       <==> exists i :: 0 <= i < |tx.docs| && tx.docs[i].expected.Some?
              && !ClockIs(if tx.docs[i].id in s.docs then s.docs[tx.docs[i].id].vclock else None,
                          tx.docs[i].expected.value)
    ensures ApplyTx(s, tx).Err? ==> ApplyTx(s, tx) == Err(CasConflict) && After(s, tx) == s
  {
    var withChunks := PutChunks(s.docs, tx.chunks, s.updateSeq + 1);
    forall i | 0 <= i < |tx.docs|
      ensures StoredClock(withChunks, tx.docs[i].id) == StoredClock(s.docs, tx.docs[i].id)
    {
      PutChunksRows(s.docs, tx.chunks, s.updateSeq + 1, tx.docs[i].id);
    }
    forall i | 0 <= i < |tx.docs|
      ensures CasHolds(withChunks, tx.docs[i]) <==>
                (tx.docs[i].expected.Some? ==>
                   ClockIs(if tx.docs[i].id in s.docs then s.docs[tx.docs[i].id].vclock else None,
                           tx.docs[i].expected.value))
    {
      if tx.docs[i].expected.Some? {
        EqualClockIs(StoredClock(s.docs, tx.docs[i].id), tx.docs[i].expected.value);
      }
    }
  }

  // ── The change signature ───────────────────────────────

  datatype Signature = Signature(maxDocSeq: nat, docCount: nat)

  ghost predicate IsSignature(s: State, sig: Signature) {
    && sig.docCount == |s.docs|
    && (forall id :: id in s.docs ==> s.docs[id].localSeq <= sig.maxDocSeq)
    && if s.docs == map[] then sig.maxDocSeq == 0
       else exists id :: id in s.docs && s.docs[id].localSeq == sig.maxDocSeq
  }

  lemma {:induction false} SubmapOfSameSize<K, V>(a: map<K, V>, b: map<K, V>)
    requires (forall k :: k in a ==> k in b && a[k] == b[k]) && |a| == |b|
    ensures a == b
  {
    if a != map[] {
      var k :| k in a;
      var a', b' := a - {k}, b - {k};
      assert a'.Keys == a.Keys - {k} && b'.Keys == b.Keys - {k};
      assert |a'.Keys| == |a.Keys| - 1 && |b'.Keys| == |b.Keys| - 1;
      assert |a| == |a.Keys| && |b| == |b.Keys| && |a'| == |a'.Keys| && |b'| == |b'.Keys|;
      SubmapOfSameSize(a', b');
      assert a == a'[k := a[k]] && b == b'[k := b[k]];
    }
  }

  /** Between any two states of a run, equal signatures mean equal tables. */
  lemma {:induction false} SignatureDetectsChange(s: State, txs: seq<WriteTx>, sig: Signature)
    requires Valid(s) && IsSignature(s, sig) && IsSignature(RunAll(s, txs), sig)
    ensures RunAll(s, txs).docs == s.docs
  {
    var t := RunAll(s, txs);
    RunOnlyNewer(s, txs);
    assert sig.maxDocSeq <= s.updateSeq;
    SubmapOfSameSize(t.docs, s.docs);
  }

  /** A state has one signature, so an unchanged table keeps it. */
  lemma SignatureUnique(s: State, t: State, a: Signature, b: Signature)
    requires s.docs == t.docs && IsSignature(s, a) && IsSignature(t, b)
    ensures a == b
  {}

  /** Bookkeeping transactions move neither the rows nor the signature. */
  lemma MetaOnlyKeepsSignature(s: State, tx: WriteTx, sig: Signature)
    requires tx.chunks == [] && tx.docs == [] && tx.deletes == []
    ensures After(s, tx).updateSeq == s.updateSeq + 1
    ensures IsSignature(s, sig) <==> IsSignature(After(s, tx), sig)
  {
    assert After(s, tx).docs == s.docs;
  }

  // ── The changes cursor ─────────────────────────────────

  datatype ChangeRow = ChangeRow(id: DocId, row: Row)

  /** The index range query behind `changes(since)`: the rows above `since`,
      in ascending sequence order. */
  ghost predicate IsChanges(s: State, since: nat, rows: seq<ChangeRow>) {
    && (forall i :: 0 <= i < |rows| ==>
          rows[i].id in s.docs && rows[i].row == s.docs[rows[i].id] && rows[i].row.localSeq > since)
    && (forall i, j :: 0 <= i < j < |rows| ==> rows[i].row.localSeq <= rows[j].row.localSeq)
    && (forall id :: id in s.docs && s.docs[id].localSeq > since ==> exists i :: 0 <= i < |rows| && rows[i].id == id)
  }

  function LastSeq(since: nat, rows: seq<ChangeRow>): nat {
    if rows == [] then since else rows[|rows| - 1].row.localSeq
  }

  /** A consumer of `changes`: its copy of the rows and its cursor. */
  datatype Consumer = Consumer(copy: map<DocId, Row>, cursor: nat)

  function Upsert(copy: map<DocId, Row>, rows: seq<ChangeRow>): map<DocId, Row> {
    if rows == [] then copy
    else Upsert(copy, rows[..|rows| - 1])[rows[|rows| - 1].id := rows[|rows| - 1].row]
  }

  function Poll(c: Consumer, rows: seq<ChangeRow>): Consumer {
    Consumer(Upsert(c.copy, rows), LastSeq(c.cursor, rows))
  }

  datatype Action = Write(tx: WriteTx) | Read(rows: seq<ChangeRow>)

  /** Writes and polls in any order; each poll reads the table as it is then. */
  ghost predicate Honest(s: State, c: Consumer, actions: seq<Action>)
    decreases |actions|
  {
    if actions == [] then true
    else match actions[0]
      case Write(tx) => Honest(After(s, tx), c, actions[1..])
      case Read(rows) => IsChanges(s, c.cursor, rows) && Honest(s, Poll(c, rows), actions[1..])
  }

  function Follow(s: State, c: Consumer, actions: seq<Action>): (State, Consumer)
    decreases |actions|
  {
    if actions == [] then (s, c)
    else match actions[0]
      case Write(tx) => Follow(After(s, tx), c, actions[1..])
      case Read(rows) => Follow(s, Poll(c, rows), actions[1..])
  }

  /** The copy agrees with the table on every row at or below the cursor. */
  ghost predicate NothingSkipped(s: State, c: Consumer) {
    && c.cursor <= s.updateSeq
    && forall id :: id in s.docs && s.docs[id].localSeq <= c.cursor ==> id in c.copy && c.copy[id] == s.docs[id]
  }

  lemma {:induction false} UpsertRow(copy: map<DocId, Row>, rows: seq<ChangeRow>, docs: map<DocId, Row>, id: DocId)
    requires forall i :: 0 <= i < |rows| ==> rows[i].id in docs && rows[i].row == docs[rows[i].id]
    requires id in docs
    requires (exists i :: 0 <= i < |rows| && rows[i].id == id) || (id in copy && copy[id] == docs[id])
    ensures id in Upsert(copy, rows) && Upsert(copy, rows)[id] == docs[id]
    decreases |rows|
  {
    if rows != [] {
      var n := |rows| - 1;
      if rows[n].id != id {
        assert forall i :: 0 <= i < n ==> rows[..n][i] == rows[i];
        UpsertRow(copy, rows[..n], docs, id);
      }
    }
  }

  /** A poll leaves nothing above the cursor: the copy has the whole table. */
  lemma PollCatchesUp(s: State, c: Consumer, rows: seq<ChangeRow>)
    requires Valid(s) && NothingSkipped(s, c) && IsChanges(s, c.cursor, rows)
    ensures NothingSkipped(s, Poll(c, rows))
    ensures forall id :: id in s.docs ==> s.docs[id].localSeq <= Poll(c, rows).cursor
  {
    forall id | id in s.docs
      ensures s.docs[id].localSeq <= Poll(c, rows).cursor
      ensures id in Poll(c, rows).copy && Poll(c, rows).copy[id] == s.docs[id]
    {
      if s.docs[id].localSeq > c.cursor {
        var i :| 0 <= i < |rows| && rows[i].id == id;
      }
      UpsertRow(c.copy, rows, s.docs, id);
    }
  }

  lemma WriteSkipsNothing(s: State, c: Consumer, tx: WriteTx)
    requires NothingSkipped(s, c)
    ensures NothingSkipped(After(s, tx), c)
  {
    TxOnlyNewer(s, tx);
  }

  /** With writes interleaved anywhere, no row is ever skipped. */
  lemma {:induction false} CursorNeverSkips(s: State, c: Consumer, actions: seq<Action>)
    requires Valid(s) && NothingSkipped(s, c) && Honest(s, c, actions)
    ensures NothingSkipped(Follow(s, c, actions).0, Follow(s, c, actions).1)
    decreases |actions|
  {
    if actions != [] {
      match actions[0]
      case Write(tx) =>
        TxOnlyNewer(s, tx);
        WriteSkipsNothing(s, c, tx);
        CursorNeverSkips(After(s, tx), c, actions[1..]);
      case Read(rows) =>
        PollCatchesUp(s, c, rows);
        CursorNeverSkips(s, Poll(c, rows), actions[1..]);
    }
  }

  // ── Compare-and-set ────────────────────────────────────

  ghost predicate Less(a: Clock, b: Clock) {
    Leq(a, b) && !Leq(b, a)
  }

  function ClockOf(c: Option<Clock>): Clock {
    if c.Some? then c.value else map[]
  }

  /** The writer gives the clock it read and writes a strictly greater one. */
  ghost predicate Disciplined(tx: WriteTx, id: DocId) {
    && id !in tx.deletes
    && forall i :: 0 <= i < |tx.docs| && tx.docs[i].id == id ==>
         tx.docs[i].expected.Some? && tx.docs[i].vclock.Some?
             && Less(tx.docs[i].expected.value, tx.docs[i].vclock.value)
  }

  /** A committed transaction replaced exactly docs whose stored clock was the
      one it gave. */
  lemma CommittedOverExpected(s: State, tx: WriteTx, i: nat)
    requires ApplyTx(s, tx).Ok? && i < |tx.docs| && tx.docs[i].expected.Some?
    requires tx.docs[i].id in s.docs
    ensures VclocksEqual(s.docs[tx.docs[i].id].vclock, tx.docs[i].expected.value)
  {
    PutChunksRows(s.docs, tx.chunks, s.updateSeq + 1, tx.docs[i].id);
    assert CasHolds(PutChunks(s.docs, tx.chunks, s.updateSeq + 1), tx.docs[i]);
  }

  /** The row of `id` is the same, or its clock went strictly up. */
  ghost predicate ClockAdvanced(s: State, t: State, id: DocId)
    requires id in s.docs
  {
    id in t.docs && (t.docs[id] == s.docs[id] || Less(ClockOf(s.docs[id].vclock), ClockOf(t.docs[id].vclock)))
  }

  lemma TxAdvances(s: State, tx: WriteTx, id: DocId)
    requires id in s.docs && Disciplined(tx, id)
    ensures ClockAdvanced(s, After(s, tx), id)
  {
    if ApplyTx(s, tx).Ok? {
      var seqNo := s.updateSeq + 1;
      var withChunks := PutChunks(s.docs, tx.chunks, seqNo);
      PutChunksRows(s.docs, tx.chunks, seqNo, id);
      PutDocsRows(withChunks, tx.docs, seqNo, id);
      if After(s, tx).docs[id] != s.docs[id] {
        var i :| 0 <= i < |tx.docs| && tx.docs[i].id == id
            && After(s, tx).docs[id] == NewRow(withChunks, tx.docs[i], seqNo);
        CommittedOverExpected(s, tx, i);
      }
    }
  }

  /** Whatever the order in which disciplined writers commit, and whatever of
      them fails, the clocks of a doc form a strictly increasing chain. */
  lemma {:induction false} ClocksFormAChain(s: State, txs: seq<WriteTx>, id: DocId)
    requires id in s.docs && forall i :: 0 <= i < |txs| ==> Disciplined(txs[i], id)
    ensures ClockAdvanced(s, RunAll(s, txs), id)
    decreases |txs|
  {
    if txs != [] {
      var n := |txs| - 1;
      ClocksFormAChain(s, txs[..n], id);
      TxAdvances(RunAll(s, txs[..n]), txs[n], id);
    }
  }

  // ── runWriteTx under faults ────────────────────────────

  /** The retries of a transient AbortError: 100, 200 and 400 ms. */
  const ABORT_RETRIES: nat := 3

  /** The first attempt that does not fail with AbortError. */
  function FirstSettled(faults: seq<Option<DbError>>): (a: nat)
    ensures a <= |faults|
    ensures forall i :: 0 <= i < a ==> faults[i] == Some(Aborted)
    ensures a < |faults| ==> faults[a] != Some(Aborted)
  {
    if faults == [] || faults[0] != Some(Aborted) then 0 else 1 + FirstSettled(faults[1..])
  }

  /** What `runTx` returns when IndexedDB answers attempt `a` with `faults[a]`. */
  function Outcome(s: State, tx: WriteTx, faults: seq<Option<DbError>>): Result<State, DbError>
    requires |faults| == ABORT_RETRIES + 1
  {
    var a := FirstSettled(faults);
    if a == |faults| then Err(Aborted)
    else if faults[a].Some? then Err(faults[a].value)
    else ApplyTx(s, tx)
  }

  /** Attempts before `a` were aborted. */
  ghost predicate AbortedBefore(faults: seq<Option<DbError>>, a: nat) {
    a <= |faults| && forall i :: 0 <= i < a ==> faults[i] == Some(Aborted)
  }

  /** The first attempt that is not aborted decides: it runs the transaction, or its
      error is the outcome; when all four are aborted, that is. */
  lemma {:induction false} OutcomeExactly(s: State, tx: WriteTx, faults: seq<Option<DbError>>, a: nat)
    requires |faults| == 4 && AbortedBefore(faults, a)
    ensures a < 4 && faults[a] == None ==> Outcome(s, tx, faults) == ApplyTx(s, tx)
    ensures a < 4 && faults[a].Some? && faults[a] != Some(Aborted) ==> Outcome(s, tx, faults) == Err(faults[a].value)
    ensures a == 4 ==> Outcome(s, tx, faults) == Err(Aborted)
  {
    var settled := FirstSettled(faults);
    assert a < 4 && faults[a] != Some(Aborted) ==> settled == a;
  }

  // ── runWriteBuilder ────────────────────────────────────

  /** What a builder does: refuse, build a transaction, or throw. */
  datatype Built = Nothing | Write(tx: WriteTx) | Throw(error: DbError)

  /** One attempt: what the builder did, whatever it read, the transactions that
      committed before its own, and IndexedDB's answers to its own. */
  datatype Attempt = Attempt(built: Built, others: seq<WriteTx>, faults: seq<Option<DbError>>)

  datatype BuilderOutcome = Committed(attempt: nat) | NoOp(attempt: nat) | Rethrown(attempt: nat, error: DbError)
      | GaveUp

  ghost predicate Answered(attempts: seq<Attempt>) {
    forall a :: 0 <= a < |attempts| ==> |attempts[a].faults| == ABORT_RETRIES + 1
  }

  /** A lost race is tried again, any other error ends the call. */
  function BuilderRun(s: State, attempts: seq<Attempt>, attempt: nat): (State, BuilderOutcome)
    requires Answered(attempts) && attempt <= |attempts|
    decreases |attempts| - attempt
  {
    if attempt == |attempts| then (s, GaveUp)
    else
      var mid := RunAll(s, attempts[attempt].others);
      match attempts[attempt].built
      case Nothing => (mid, NoOp(attempt))
      case Throw(e) => (mid, Rethrown(attempt, e))
      case Write(tx) =>
        match Outcome(mid, tx, attempts[attempt].faults)
        case Ok(t) => (t, Committed(attempt))
        case Err(e) => if e == CasConflict then BuilderRun(mid, attempts, attempt + 1) else (mid, Rethrown(attempt, e))
  }

  /** The state after the others' transactions of attempts `from` to `n - 1`. */
  function Met(s: State, attempts: seq<Attempt>, from: nat, n: nat): State
    requires from <= n <= |attempts|
    decreases n - from
  {
    if from == n then s else Met(RunAll(s, attempts[from].others), attempts, from + 1, n)
  }

  /** Attempt `a` lost its race. */
  ghost predicate LostRace(s: State, attempts: seq<Attempt>, from: nat, a: nat)
    requires Answered(attempts) && from <= a < |attempts|
  {
    && attempts[a].built.Write?
    && Outcome(Met(s, attempts, from, a + 1), attempts[a].built.tx, attempts[a].faults) == Err(CasConflict)
  }

  ghost predicate WritesOnce(s: State, attempts: seq<Attempt>, from: nat, t: State, outcome: BuilderOutcome)
    requires Answered(attempts) && from <= |attempts|
  {
    var n := if outcome == GaveUp then |attempts| else outcome.attempt;
    && from <= n && (outcome != GaveUp ==> n < |attempts|)
    && (forall a :: from <= a < n && a < |attempts| ==> LostRace(s, attempts, from, a))
    && match outcome
       case GaveUp => t == Met(s, attempts, from, |attempts|)
       case NoOp(a) => attempts[a].built == Nothing && t == Met(s, attempts, from, a + 1)
       case Rethrown(a, e) =>
         && t == Met(s, attempts, from, a + 1)
         && (attempts[a].built == Throw(e)
             || (attempts[a].built.Write? && e != CasConflict
                 && Outcome(t, attempts[a].built.tx, attempts[a].faults) == Err(e)))
       case Committed(a) =>
         && attempts[a].built.Write?
         && ApplyTx(Met(s, attempts, from, a + 1), attempts[a].built.tx) == Ok(t)
  }

  /** What holds from the next attempt on, after a lost race, holds from this
      one on. */
  lemma {:induction false} WritesOnceEarlier(s: State, attempts: seq<Attempt>, from: nat, t: State,
      outcome: BuilderOutcome)
    requires Answered(attempts) && from < |attempts| && LostRace(s, attempts, from, from)
    requires WritesOnce(RunAll(s, attempts[from].others), attempts, from + 1, t, outcome)
    ensures WritesOnce(s, attempts, from, t, outcome)
  {
    var mid := RunAll(s, attempts[from].others);
    assert forall a :: from < a < |attempts| && LostRace(mid, attempts, from + 1, a) ==> LostRace(s, attempts, from, a);
  }

  /** Every attempt before the last lost its race. The only write is that of the
      committed attempt, over the state it then met; giving up, a refusal and
      any other error write nothing. */
  lemma {:induction false} BuilderWritesOnce(s: State, attempts: seq<Attempt>, from: nat)
    requires Answered(attempts) && from <= |attempts|
    ensures WritesOnce(s, attempts, from, BuilderRun(s, attempts, from).0, BuilderRun(s, attempts, from).1)
    decreases |attempts| - from
  {
    if from < |attempts| {
      var mid := RunAll(s, attempts[from].others);
      assert Met(s, attempts, from, from + 1) == mid;
      if LostRace(s, attempts, from, from) {
        BuilderWritesOnce(mid, attempts, from + 1);
        var run := BuilderRun(mid, attempts, from + 1);
        WritesOnceEarlier(s, attempts, from, run.0, run.1);
      }
    }
  }
}
