/** The store object of src/db/dexie-store.ts over its two tables, proved
    against the transaction function of DocStore. */
module DexieStore {
  import opened Wrappers
  import opened DocStore

  class DexieStore {
    var docs: map<DocId, Row>
    var meta: map<string, string>
    var updateSeq: nat

    ghost function Model(): State
      reads this
    {
      State(docs, meta, updateSeq)
    }

    constructor ()
      ensures Model() == State(map[], map[], 0)
    {
      docs, meta, updateSeq := map[], map[], 0;
    }

    /** The body of one IndexedDB transaction: the tables change only when it
        reaches its end. */
    method Transact(tx: WriteTx) returns (error: Option<DbError>)
      modifies this
      ensures Model() == After(old(Model()), tx)
      ensures error == match ApplyTx(old(Model()), tx) case Ok(_) => None case Err(e) => Some(e)
    {
      ghost var before := Model();
      var seqNo := updateSeq + 1;
      var rows := docs;
      for i := 0 to |tx.chunks|
        invariant Model() == before && rows == PutChunks(docs, tx.chunks[..i], seqNo)
      {
        var c := tx.chunks[i];
        PutChunksNext(docs, tx.chunks, seqNo, i);
        if c.id !in docs {
          rows := rows[c.id := Row(1, seqNo, None, c.body)];
        }
      }
      assert tx.chunks[..|tx.chunks|] == tx.chunks;
      var existing := rows;
      var conflict;
      rows, conflict := PutDocRows(existing, tx.docs, seqNo);
      assert before == Model() && existing == PutChunks(before.docs, tx.chunks, before.updateSeq + 1);
      if conflict {
        return Some(CasConflict);
      }
      rows := DeleteDocs(rows, tx.deletes);
      var withClocks := WriteMetaRows(meta, tx.vclocks);
      var withMeta := WriteMetaRows(withClocks, tx.meta);
      docs, meta, updateSeq := rows, withMeta, seqNo;
      return None;
    }

    /** The docs of a transaction, each after its compare-and-set. */
    static method PutDocRows(existing: map<DocId, Row>, writes: seq<DocWrite>, seqNo: nat)
        returns (rows: map<DocId, Row>, conflict: bool)
      ensures conflict <==> exists i :: 0 <= i < |writes| && !CasHolds(existing, writes[i])
      ensures !conflict ==> rows == PutDocs(existing, writes, seqNo)
    {
      rows, conflict := existing, false;
      for i := 0 to |writes|
        invariant rows == PutDocs(existing, writes[..i], seqNo)
        invariant forall j :: 0 <= j < i ==> CasHolds(existing, writes[j])
      {
        var w := writes[i];
        if w.expected.Some? && !VclocksEqual(StoredClock(existing, w.id), w.expected.value) {
          assert !CasHolds(existing, writes[i]);
          conflict := true;
          return;
        }
        PutDocsNext(existing, writes, seqNo, i);
        rows := rows[w.id := NewRow(existing, w, seqNo)];
      }
      assert writes[..|writes|] == writes;
    }

    static method WriteMetaRows(before: map<string, string>, writes: seq<MetaWrite>) returns (rows: map<string, string>)
      ensures rows == WriteMeta(before, writes)
    {
      rows := before;
      for i := 0 to |writes|
        invariant rows == WriteMeta(before, writes[..i])
      {
        match writes[i] {
          case Put(k, v) => rows := rows[k := v];
          case Delete(k) => rows := rows - {k};
        }
        assert writes[..i + 1][..i] == writes[..i];
      }
      assert writes[..|writes|] == writes;
    }

    /** `runWriteTx` with the retry loop of `runTx`: it commits at most once,
        and an error leaves both tables as they were. */
    method RunWriteTx(tx: WriteTx, faults: seq<Option<DbError>>) returns (error: Option<DbError>)
      requires |faults| == ABORT_RETRIES + 1
      modifies this
      ensures match Outcome(old(Model()), tx, faults)
              case Ok(t) => error == None && Model() == t
              case Err(e) => error == Some(e) && Model() == old(Model())
    {
      var attempt := 0;
      while true
        invariant attempt <= ABORT_RETRIES
        invariant Model() == old(Model())
        invariant forall i :: 0 <= i < attempt ==> faults[i] == Some(Aborted)
        decreases ABORT_RETRIES - attempt
      {
        var fault := faults[attempt];
        if fault == None {
          assert FirstSettled(faults) == attempt;
          error := Transact(tx);
          return;
        }
        if fault == Some(Aborted) && attempt < ABORT_RETRIES {
          attempt := attempt + 1;
          continue;
        }
        return fault;
      }
    }

    /** `runWriteBuilder`: re-run the builder after each lost race. */
    method RunWriteBuilder(attempts: seq<Attempt>) returns (outcome: BuilderOutcome)
      requires Answered(attempts)
      modifies this
      ensures (Model(), outcome) == BuilderRun(old(Model()), attempts, 0)
    {
      for attempt := 0 to |attempts|
        invariant BuilderRun(Model(), attempts, attempt) == BuilderRun(old(Model()), attempts, 0)
      {
        Interleave(attempts[attempt].others);
        match attempts[attempt].built {
          case Nothing => return NoOp(attempt);
          case Throw(e) => return Rethrown(attempt, e);
          case Write(tx) =>
            var error := RunWriteTx(tx, attempts[attempt].faults);
            if error == None {
              return Committed(attempt);
            }
            if error.value != CasConflict {
              return Rethrown(attempt, error.value);
            }
        }
      }
      return GaveUp;
    }

    /** Other writers' transactions. */
    method Interleave(txs: seq<WriteTx>)
      modifies this
      ensures Model() == RunAll(old(Model()), txs)
    {
      for i := 0 to |txs|
        invariant Model() == RunAll(old(Model()), txs[..i])
      {
        var _ := Transact(txs[i]);
        assert txs[..i + 1][..i] == txs[..i];
      }
      assert txs[..|txs|] == txs;
    }
  }
}
