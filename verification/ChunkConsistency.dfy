/** Two chunk inventories: paging and sort-merge. */
module ChunkConsistency {
  // src/sync/chunk-consistency.ts, src/db/sync/pagination.ts.

  import opened Utf16
  import opened Sequences
  import opened IdOrder

  // ── Paging ─────────────────────────────────────────────

  /** The ids of an index between two keys, in its order. */
  function RangeIds(index: seq<Text>, startkey: Text, endkey: Text): (r: seq<Text>)
    ensures forall x :: x in r <==> x in index && InRange(x, startkey, endkey)
    ensures Ascending(index) ==> Ascending(r)
  {
    if index == [] then []
    else
      var rest := RangeIds(index[1..], startkey, endkey);
      assert index == [index[0]] + index[1..];
      assert forall i :: 0 <= i < |index[1..]| ==> index[1..][i] == index[i + 1];
      assert Ascending(index) ==> Ascending(index[1..]);
      assert Ascending(index) ==> forall x :: x in rest ==> Lt(index[0], x);
      if InRange(index[0], startkey, endkey) then [index[0]] + rest else rest
  }

  /** `listIds` with a limit. */
  function ListIds(index: seq<Text>, startkey: Text, endkey: Text, limit: nat): seq<Text> {
    var all := RangeIds(index, startkey, endkey);
    if |all| <= limit then all else all[..limit]
  }

  lemma {:induction false} AscendingUnique(a: seq<Text>, b: seq<Text>)
    requires Ascending(a) && Ascending(b) && forall x :: x in a <==> x in b
    ensures a == b
    decreases |a|
  {
    assert b != [] ==> b[0] in a;
    if a != [] {
      assert a[0] in b;
      var i :| 0 <= i < |b| && b[i] == a[0];
      var j :| 0 <= j < |a| && a[j] == b[0];
      if i > 0 && j > 0 {
        LtAsymmetric(a[0], b[0]);
      }
      assert a[0] == b[0];
      HeadLeaves(a);
      HeadLeaves(b);
      AscendingUnique(a[1..], b[1..]);
      assert a == [a[0]] + a[1..] && b == [b[0]] + b[1..];
    }
  }

  lemma HeadLeaves(a: seq<Text>)
    requires a != [] && Ascending(a)
    ensures Ascending(a[1..]) && forall x :: x in a[1..] <==> x in a && x != a[0]
  {
    LtIrreflexive(a[0]);
    assert a == [a[0]] + a[1..];
    assert forall i :: 0 <= i < |a[1..]| ==> Lt(a[0], a[1..][i]);
  }

  /** Past position `n - 1` of an ascending sequence is exactly above it. */
  lemma TailIsAbove(all: seq<Text>, n: nat, x: Text)
    requires Ascending(all) && 1 <= n <= |all|
    ensures x in all[n..] <==> x in all && Lt(all[n - 1], x)
  {
    if x in all[n..] {
      var i :| 0 <= i < |all[n..]| && all[n..][i] == x;
      assert all[n + i] == x;
    }
    if x in all && Lt(all[n - 1], x) {
      var i :| 0 <= i < |all| && all[i] == x;
      LtIrreflexive(x);
      if i < n - 1 {
        LtAsymmetric(all[n - 1], x);
      }
      assert all[n..][i - n] == x;
    }
  }

  /** What is left after the first `n` ids starts at the key after the last. */
  lemma RestAfter(index: seq<Text>, startkey: Text, endkey: Text, n: nat, next: Text)
    requires Ascending(index) && 1 <= n <= |RangeIds(index, startkey, endkey)|
    requires forall x :: x in index ==> (Le(next, x) <==> Lt(RangeIds(index, startkey, endkey)[n - 1], x))
    ensures RangeIds(index, next, endkey) == RangeIds(index, startkey, endkey)[n..]
  {
    var all := RangeIds(index, startkey, endkey);
    var last := all[n - 1];
    var left := RangeIds(index, next, endkey);
    assert last in all;
    forall x
      ensures x in left <==> x in all[n..]
    {
      TailIsAbove(all, n, x);
      LtTransitive(startkey, last, x);
    }
    assert Ascending(all[n..]);
    AscendingUnique(left, all[n..]);
  }

  /** `pagedLocalChunkIds`: for every page size the whole range, once, in order. */
  method PagedLocalIds(index: seq<Text>, start: Text, endkey: Text, pageSize: nat) returns (out: seq<Text>)
    requires Ascending(index) && pageSize >= 1
    ensures out == RangeIds(index, start, endkey)
  {
    out := [];
    var startkey := start;
    while true
      invariant out + RangeIds(index, startkey, endkey) == RangeIds(index, start, endkey)
      decreases |RangeIds(index, startkey, endkey)|
    {
      var ids := ListIds(index, startkey, endkey, pageSize);
      if |ids| == 0 { return; }
      ghost var all := RangeIds(index, startkey, endkey);
      assert all == ids + all[|ids|..];
      out := out + ids;
      if |ids| < pageSize { return; }
      var next := ids[|ids| - 1] + [NUL];
      forall x | x in index
        ensures Le(next, x) <==> Lt(all[|ids| - 1], x)
      {
        NulIsSuccessor(ids[|ids| - 1], x);
      }
      RestAfter(index, startkey, endkey, |ids|, next);
      startkey := next;
    }
  }

  /** The keys of an `_all_docs` listing that are not tombstones. */
  function Live(keys: seq<Text>, deleted: set<Text>): (r: seq<Text>)
    ensures forall x :: x in r <==> x in keys && x !in deleted
    ensures Ascending(keys) ==> Ascending(r)
  {
    if keys == [] then []
    else
      var n := |keys| - 1;
      assert keys == keys[..n] + [keys[n]];
      var rest := Live(keys[..n], deleted);
      assert Ascending(keys) ==> forall x :: x in rest ==> Lt(x, keys[n]);
      rest + if keys[n] in deleted then [] else [keys[n]]
  }

  lemma {:induction false} LiveAppend(a: seq<Text>, b: seq<Text>, deleted: set<Text>)
    ensures Live(a + b, deleted) == Live(a, deleted) + Live(b, deleted)
    decreases |b|
  {
    if b == [] {
      assert a + b == a;
    } else {
      var n := |b| - 1;
      assert (a + b)[..|a + b| - 1] == a + b[..n] && (a + b)[|a + b| - 1] == b[n];
      LiveAppend(a, b[..n], deleted);
      var last := if b[n] in deleted then [] else [b[n]];
      assert Live(a + b, deleted) == Live(a, deleted) + Live(b[..n], deleted) + last;
      assert Live(b, deleted) == Live(b[..n], deleted) + last;
    }
  }

  method DropTombstones(batch: seq<Text>, deleted: set<Text>) returns (out: seq<Text>)
    ensures out == Live(batch, deleted)
  {
    out := [];
    for i := 0 to |batch|
      invariant out == Live(batch[..i], deleted)
    {
      if batch[i] !in deleted {
        out := out + [batch[i]];
      }
      assert batch[..i + 1][..i] == batch[..i];
    }
    assert batch[..|batch|] == batch;
  }

  /** One over-fetched page: either the end, or a batch and where to go on. */
  lemma {:induction false} PageStep(index: seq<Text>, startkey: Text, endkey: Text, batchSize: nat)
    requires Ascending(index) && batchSize >= 1
    ensures var rows, all := ListIds(index, startkey, endkey, batchSize + 1), RangeIds(index, startkey, endkey);
            if |rows| <= batchSize then rows == all
            else rows[batchSize] != startkey && rows[..batchSize] + RangeIds(index, rows[batchSize], endkey) == all
  {
    var all := RangeIds(index, startkey, endkey);
    if |all| > batchSize {
      ContinuationMoves(index, startkey, endkey, batchSize);
    }
  }

  /** `paginateAllDocs` over-fetches one row and continues at its key;
      `pagedRemoteChunkIds` drops the tombstones. */
  method PagedRemoteIds(index: seq<Text>, deleted: set<Text>, start: Text, endkey: Text, batchSize: nat)
      returns (out: seq<Text>)
    requires Ascending(index) && batchSize >= 1
    ensures out == Live(RangeIds(index, start, endkey), deleted)
  {
    out := [];
    var startkey := start;
    ghost var whole := RangeIds(index, start, endkey);
    ghost var left := whole;
    while true
      invariant left == RangeIds(index, startkey, endkey)
      invariant out + Live(left, deleted) == Live(whole, deleted)
      decreases |left|
    {
      var rows := ListIds(index, startkey, endkey, batchSize + 1);
      if |rows| == 0 { return; }
      PageStep(index, startkey, endkey, batchSize);
      var hasMore := |rows| > batchSize;
      var batch := if hasMore then rows[..batchSize] else rows;
      var alive := DropTombstones(batch, deleted);
      out := out + alive;
      if !hasMore { return; }
      var continuation := rows[batchSize];
      if continuation == startkey { return; }
      LiveAppend(batch, RangeIds(index, continuation, endkey), deleted);
      left := RangeIds(index, continuation, endkey);
      startkey := continuation;
    }
  }

  /** The over-fetched row starts what is left, and is past the start key. */
  lemma ContinuationMoves(index: seq<Text>, startkey: Text, endkey: Text, n: nat)
    requires Ascending(index) && 1 <= n < |RangeIds(index, startkey, endkey)|
    ensures RangeIds(index, startkey, endkey)[n] != startkey
    ensures RangeIds(index, RangeIds(index, startkey, endkey)[n], endkey) == RangeIds(index, startkey, endkey)[n..]
  {
    var all := RangeIds(index, startkey, endkey);
    var next := all[n];
    assert all[0] in all && all[n - 1] in all && next in all;
    if next == startkey {
      assert Lt(all[0], next);
      LtAsymmetric(all[0], startkey);
      LtIrreflexive(startkey);
      assert false;
    }
    forall x | x in index
      ensures Le(next, x) <==> Lt(all[n - 1], x)
    {
      LtTransitive(all[n - 1], next, x);
      if Lt(all[n - 1], x) {
        LtTotal(next, x);
        if Lt(x, next) {
          NothingBetween(index, startkey, endkey, n, x);
        }
      }
    }
    RestAfter(index, startkey, endkey, n, next);
  }

  lemma {:induction false} NothingBetween(index: seq<Text>, startkey: Text, endkey: Text, n: nat, x: Text)
    requires Ascending(index) && 1 <= n < |RangeIds(index, startkey, endkey)| && x in index
    ensures !(Lt(RangeIds(index, startkey, endkey)[n - 1], x) && Lt(x, RangeIds(index, startkey, endkey)[n]))
  {
    var all := RangeIds(index, startkey, endkey);
    if Lt(all[n - 1], x) && Lt(x, all[n]) {
      assert all[n - 1] in all && all[n] in all;
      LtTransitive(startkey, all[n - 1], x);
      LtTransitive(x, all[n], endkey);
      assert x in all;
      var i :| 0 <= i < |all| && all[i] == x;
      if i < n {
        LtAsymmetric(all[n - 1], x);
        LtIrreflexive(x);
      } else {
        LtAsymmetric(x, all[n]);
        LtIrreflexive(x);
      }
    }
  }

  // ── Sort-merge ─────────────────────────────────────────

  datatype Report = Report(localChunks: nat, remoteChunks: nat, localOnly: seq<Text>, remoteOnly: seq<Text>,
                           orphanLocal: seq<Text>, orphanRemote: seq<Text>, missingReferenced: seq<Text>)

  /** The elements of `s` outside `m`, in the order of `s`. */
  function Minus(s: seq<Text>, m: set<Text>): (r: seq<Text>)
    ensures forall x :: x in r <==> x in s && x !in m
  {
    if s == [] then []
    else
      var n := |s| - 1;
      assert s == s[..n] + [s[n]];
      Minus(s[..n], m) + if s[n] in m then [] else [s[n]]
  }

  lemma MinusNext(s: seq<Text>, i: nat, m: set<Text>)
    requires i < |s|
    ensures Minus(s[..i + 1], m) == Minus(s[..i], m) + if s[i] in m then [] else [s[i]]
  {
    assert s[..i + 1][..i] == s[..i];
  }

  /** The two enumerations merged in one pass. `referenced` lists the keys of
      the reference map in its own order. */
  ghost predicate IsReport(r: Report, local: seq<Text>, remote: seq<Text>, referenced: seq<Text>) {
    && r.localChunks == |local| && r.remoteChunks == |remote|
    && r.localOnly == Minus(local, Members(remote))
    && r.remoteOnly == Minus(remote, Members(local))
    && r.orphanLocal == Minus(local, Members(referenced))
    && r.orphanRemote == Minus(remote, Members(referenced))
    && r.missingReferenced == Minus(referenced, Members(local) + Members(remote))
  }

  /** A report on the chunks of two stores against a set of references; the
      missing references come sorted. */
  ghost predicate IsFinal(r: Report, local: seq<Text>, remote: seq<Text>, refs: set<Text>) {
    && r.localChunks == |local| && r.remoteChunks == |remote|
    && r.localOnly == Minus(local, Members(remote)) && r.remoteOnly == Minus(remote, Members(local))
    && r.orphanLocal == Minus(local, refs) && r.orphanRemote == Minus(remote, refs)
    && Ascending(r.missingReferenced)
    && forall id :: id in r.missingReferenced <==> id in refs && id !in local && id !in remote
  }

  /** Both iterators stand past everything the other has yielded. */
  ghost predicate InStep(local: seq<Text>, remote: seq<Text>, i: nat, j: nat)
    requires i <= |local| && j <= |remote|
  {
    && (forall x, y :: 0 <= x < i && j <= y < |remote| ==> Lt(local[x], remote[y]))
    && (forall x, y :: 0 <= y < j && i <= x < |local| ==> Lt(remote[y], local[x]))
  }

  /** The next local id is below everything left of the other side. */
  lemma AdvanceOne(local: seq<Text>, remote: seq<Text>, i: nat, j: nat)
    requires Ascending(local) && Ascending(remote) && i < |local| && j <= |remote| && InStep(local, remote, i, j)
    requires j < |remote| ==> Lt(local[i], remote[j])
    ensures local[i] !in remote && InStep(local, remote, i + 1, j)
  {
    LtIrreflexive(local[i]);
    forall y | j <= y < |remote|
      ensures Lt(local[i], remote[y])
    {
      if y > j { LtTransitive(local[i], remote[j], remote[y]); }
    }
  }

  lemma AdvanceRemote(local: seq<Text>, remote: seq<Text>, i: nat, j: nat)
    requires Ascending(local) && Ascending(remote) && i <= |local| && j < |remote| && InStep(local, remote, i, j)
    requires i < |local| ==> Lt(remote[j], local[i])
    ensures remote[j] !in local && InStep(local, remote, i, j + 1)
  {
    InStepMirror(local, remote, i, j);
    AdvanceOne(remote, local, j, i);
    InStepMirror(local, remote, i, j + 1);
  }

  lemma AdvanceBoth(local: seq<Text>, remote: seq<Text>, i: nat, j: nat)
    requires Ascending(local) && Ascending(remote) && i < |local| && j < |remote| && InStep(local, remote, i, j)
    requires local[i] == remote[j]
    ensures local[i] in remote && remote[j] in local && InStep(local, remote, i + 1, j + 1)
  {}

  lemma InStepMirror(local: seq<Text>, remote: seq<Text>, i: nat, j: nat)
    requires i <= |local| && j <= |remote|
    ensures InStep(local, remote, i, j) <==> InStep(remote, local, j, i)
  {}

  lemma MembersNext(s: seq<Text>, i: nat)
    requires i < |s|
    ensures Members(s[..i + 1]) == Members(s[..i]) + {s[i]}
  {}

  /** What the merge has recorded at positions `i` and `j`. */
  ghost predicate Recorded(r: Report, seen: set<Text>, local: seq<Text>, remote: seq<Text>, refs: set<Text>, i: nat,
      j: nat)
    requires i <= |local| && j <= |remote|
  {
    && r.localChunks == i && r.remoteChunks == j
    && r.localOnly == Minus(local[..i], Members(remote)) && r.remoteOnly == Minus(remote[..j], Members(local))
    && r.orphanLocal == Minus(local[..i], refs) && r.orphanRemote == Minus(remote[..j], refs)
    && seen == refs * (Members(local[..i]) + Members(remote[..j]))
  }

  /** The report after one more id. */
  function Classified(r: Report, id: Text, inLocal: bool, inRemote: bool, refs: set<Text>): Report {
    r.(localChunks := r.localChunks + if inLocal then 1 else 0,
       remoteChunks := r.remoteChunks + if inRemote then 1 else 0,
       localOnly := r.localOnly + (if inLocal && !inRemote then [id] else []),
       remoteOnly := r.remoteOnly + (if inRemote && !inLocal then [id] else []),
       orphanLocal := r.orphanLocal + (if inLocal && id !in refs then [id] else []),
       orphanRemote := r.orphanRemote + (if inRemote && id !in refs then [id] else []))
  }

  /** `classify`: one id, on one side or on both. */
  method ClassifyId(id: Text, inLocal: bool, inRemote: bool, refs: set<Text>, r: Report, seen: set<Text>)
      returns (r': Report, seen': set<Text>)
    ensures seen' == seen + (refs * {id})
    ensures r' == Classified(r, id, inLocal, inRemote, refs)
  {
    r', seen' := r, seen;
    if inLocal { r' := r'.(localChunks := r'.localChunks + 1); }
    if inRemote { r' := r'.(remoteChunks := r'.remoteChunks + 1); }
    if inLocal && !inRemote { r' := r'.(localOnly := r'.localOnly + [id]); }
    if !inLocal && inRemote { r' := r'.(remoteOnly := r'.remoteOnly + [id]); }
    if id !in refs {
      if inLocal { r' := r'.(orphanLocal := r'.orphanLocal + [id]); }
      if inRemote { r' := r'.(orphanRemote := r'.orphanRemote + [id]); }
    } else {
      seen' := seen' + {id};
    }
  }

  lemma RecordLocal(r: Report, seen: set<Text>, local: seq<Text>, remote: seq<Text>, refs: set<Text>, i: nat, j: nat)
    requires i < |local| && j <= |remote| && Recorded(r, seen, local, remote, refs, i, j) && local[i] !in remote
    ensures Recorded(Classified(r, local[i], true, false, refs), seen + (refs * {local[i]}), local, remote, refs,
        i + 1, j)
  {
    MinusNext(local, i, Members(remote));
    MinusNext(local, i, refs);
    MembersNext(local, i);
  }

  lemma {:induction false} RecordRemote(r: Report, seen: set<Text>, local: seq<Text>, remote: seq<Text>,
      refs: set<Text>, i: nat, j: nat)
    requires i <= |local| && j < |remote| && Recorded(r, seen, local, remote, refs, i, j) && remote[j] !in local
    ensures Recorded(Classified(r, remote[j], false, true, refs), seen + (refs * {remote[j]}), local, remote, refs,
        i, j + 1)
  {
    MinusNext(remote, j, Members(local));
    MinusNext(remote, j, refs);
    MembersNext(remote, j);
  }

  lemma RecordBoth(r: Report, seen: set<Text>, local: seq<Text>, remote: seq<Text>, refs: set<Text>, i: nat, j: nat)
    requires i < |local| && j < |remote| && Recorded(r, seen, local, remote, refs, i, j)
    requires local[i] == remote[j] && local[i] in remote && remote[j] in local
    ensures Recorded(Classified(r, local[i], true, true, refs), seen + (refs * {local[i]}), local, remote, refs,
        i + 1, j + 1)
  {
    assert Minus(local[..i + 1], Members(remote)) == r.localOnly by { MinusNext(local, i, Members(remote)); }
    assert Minus(remote[..j + 1], Members(local)) == r.remoteOnly by { MinusNext(remote, j, Members(local)); }
    assert Minus(local[..i + 1], refs) == r.orphanLocal + (if local[i] !in refs then [local[i]] else [])
        by { MinusNext(local, i, refs); }
    assert Minus(remote[..j + 1], refs) == r.orphanRemote + (if local[i] !in refs then [local[i]] else [])
        by { MinusNext(remote, j, refs); }
    MembersNext(local, i);
    MembersNext(remote, j);
  }

  lemma {:induction false} RecordedAll(r: Report, seen: set<Text>, local: seq<Text>, remote: seq<Text>, refs: set<Text>)
    requires Recorded(r, seen, local, remote, refs, |local|, |remote|)
    ensures r.localChunks == |local| && r.remoteChunks == |remote|
    ensures r.localOnly == Minus(local, Members(remote)) && r.remoteOnly == Minus(remote, Members(local))
    ensures r.orphanLocal == Minus(local, refs) && r.orphanRemote == Minus(remote, refs)
    ensures seen == refs * (Members(local) + Members(remote))
  {
    assert local[..|local|] == local && remote[..|remote|] == remote;
  }

  method AnalyzeChunks(local: seq<Text>, remote: seq<Text>, referenced: seq<Text>) returns (r: Report)
    requires Ascending(local) && Ascending(remote)
    ensures IsReport(r, local, remote, referenced)
  {
    var i, j := 0, 0;
    var refs := Members(referenced);
    r := Report(0, 0, [], [], [], [], []);
    var seen: set<Text> := {};
    while i < |local| || j < |remote|
      invariant 0 <= i <= |local| && 0 <= j <= |remote| && InStep(local, remote, i, j)
      invariant Recorded(r, seen, local, remote, refs, i, j)
      decreases |local| - i + |remote| - j
    {
      if i < |local| && (j == |remote| || Lt(local[i], remote[j])) {
        AdvanceOne(local, remote, i, j);
        RecordLocal(r, seen, local, remote, refs, i, j);
        r, seen := ClassifyId(local[i], true, false, refs, r, seen);
        i := i + 1;
      } else if j < |remote| && (i == |local| || Lt(remote[j], local[i])) {
        AdvanceRemote(local, remote, i, j);
        RecordRemote(r, seen, local, remote, refs, i, j);
        r, seen := ClassifyId(remote[j], false, true, refs, r, seen);
        j := j + 1;
      } else {
        LtTotal(local[i], remote[j]);
        AdvanceBoth(local, remote, i, j);
        RecordBoth(r, seen, local, remote, refs, i, j);
        r, seen := ClassifyId(local[i], true, true, refs, r, seen);
        i, j := i + 1, j + 1;
      }
    }
    RecordedAll(r, seen, local, remote, refs);
    var missing := FindMissing(referenced, seen, Members(local) + Members(remote));
    r := r.(missingReferenced := missing);
  }

  method FindMissing(referenced: seq<Text>, seen: set<Text>, ghost present: set<Text>) returns (missing: seq<Text>)
    requires seen == Members(referenced) * present
    ensures missing == Minus(referenced, present)
  {
    missing := [];
    for k := 0 to |referenced|
      invariant missing == Minus(referenced[..k], present)
    {
      MinusNext(referenced, k, present);
      if referenced[k] !in seen { missing := missing + [referenced[k]]; }
    }
    assert referenced[..|referenced|] == referenced;
  }

  /** Enumerate both stores by pages and merge: the report does not depend on
      the page size. */
  method AnalyzeStores(localIndex: seq<Text>, remoteIndex: seq<Text>, tombstones: set<Text>, referenced: seq<Text>,
      pageSize: nat)
      returns (r: Report)
    requires Ascending(localIndex) && Ascending(remoteIndex) && pageSize >= 1
    ensures IsReport(r, RangeIds(localIndex, CHUNK_PREFIX, CHUNK_PREFIX + [RANGE_END]),
                     Live(RangeIds(remoteIndex, CHUNK_PREFIX, CHUNK_PREFIX + [RANGE_END]), tombstones), referenced)
  {
    var local := PagedLocalIds(localIndex, CHUNK_PREFIX, CHUNK_PREFIX + [RANGE_END], pageSize);
    var remote := PagedRemoteIds(remoteIndex, tombstones, CHUNK_PREFIX, CHUNK_PREFIX + [RANGE_END], pageSize);
    r := AnalyzeChunks(local, remote, referenced);
  }
}
