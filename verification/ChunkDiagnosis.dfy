/** The diagnosis as a whole: the gate, the references, the sort-merge. */
module ChunkDiagnosis {
  // `analyzeChunkConsistency` and `diffFileDocs` of src/sync/chunk-consistency.ts.

  import opened Utf16
  import opened Sequences
  import opened VectorClocks
  import opened IdOrder
  import opened ChunkConsistency
  import F = FileStore
  import S = SyncRelation
  import R = ReplicationProtocol

  datatype FileDoc = FileDoc(id: Text, doc: S.Doc)

  // ── Sorting by id ──────────────────────────────────────

  ghost predicate Sorted<T(!new)>(key: T -> Text, s: seq<T>) {
    forall i, j :: 0 <= i < j < |s| ==> Lt(key(s[i]), key(s[j]))
  }

  function Insert<T>(key: T -> Text, s: seq<T>, x: T): seq<T> {
    if s == [] || Lt(key(x), key(s[0])) then [x] + s else [s[0]] + Insert(key, s[1..], x)
  }

  function SortBy<T>(key: T -> Text, s: seq<T>): seq<T> {
    if s == [] then [] else Insert(key, SortBy(key, s[..|s| - 1]), s[|s| - 1])
  }

  lemma {:induction false} InsertMembers<T(!new)>(key: T -> Text, s: seq<T>, x: T, y: T)
    ensures y in Insert(key, s, x) <==> y == x || y in s
  {
    if s != [] && !Lt(key(x), key(s[0])) {
      InsertMembers(key, s[1..], x, y);
      assert s == [s[0]] + s[1..];
    }
  }

  lemma {:induction false} InsertSorted<T(!new)>(key: T -> Text, s: seq<T>, x: T)
    requires Sorted(key, s) && forall y :: y in s ==> key(y) != key(x)
    ensures Sorted(key, Insert(key, s, x))
  {
    if s == [] {
    } else if Lt(key(x), key(s[0])) {
      forall j | 0 <= j < |s| ensures Lt(key(x), key(s[j])) {
        LtTransitive(key(x), key(s[0]), key(s[j]));
      }
    } else {
      LtTotal(key(x), key(s[0]));
      assert s[0] in s;
      InsertSorted(key, s[1..], x);
      var rest := Insert(key, s[1..], x);
      forall j | 0 <= j < |rest| ensures Lt(key(s[0]), key(rest[j])) {
        InsertMembers(key, s[1..], x, rest[j]);
        assert rest[j] in rest;
        if rest[j] != x {
          var k :| 0 <= k < |s| - 1 && s[1..][k] == rest[j];
          assert s[k + 1] == rest[j];
        }
      }
    }
  }

  /** Sorting keeps the elements and puts distinct keys in ascending order. */
  lemma {:induction false} SortBySorts<T(!new)>(key: T -> Text, s: seq<T>)
    requires forall i, j :: 0 <= i < j < |s| ==> key(s[i]) != key(s[j])
    ensures Sorted(key, SortBy(key, s)) && forall x :: x in SortBy(key, s) <==> x in s
  {
    if s != [] {
      var n := |s| - 1;
      SortBySorts(key, s[..n]);
      InsertSorted(key, SortBy(key, s[..n]), s[n]);
      forall x ensures x in SortBy(key, s) <==> x in s {
        InsertMembers(key, SortBy(key, s[..n]), s[n], x);
        assert s == s[..n] + [s[n]];
      }
    }
  }

  // ── diffFileDocs ───────────────────────────────────────

  datatype Pair = Pair(id: Text, localVC: Clock, remoteVC: Clock, relation: VCRelation)

  datatype Divergence = Divergence(localOnly: seq<Text>, remoteOnly: seq<Text>, differing: seq<Pair>)

  /** The `Map` from ids to docs: a later doc of an id replaces an earlier one. */
  function ById(files: seq<FileDoc>): map<Text, FileDoc> {
    if files == [] then map[]
    else ById(files[..|files| - 1])[files[|files| - 1].id := files[|files| - 1]]
  }

  predicate Differs(l: map<Text, FileDoc>, r: map<Text, FileDoc>, id: Text) {
    id in l && id in r && Compare(l[id].doc.vclock, r[id].doc.vclock) != Equal
  }

  function PairOf(l: map<Text, FileDoc>, r: map<Text, FileDoc>, id: Text): Pair
    requires id in l && id in r
  {
    Pair(id, l[id].doc.vclock, r[id].doc.vclock, Compare(l[id].doc.vclock, r[id].doc.vclock))
  }

  ghost predicate IsDivergence(d: Divergence, l: map<Text, FileDoc>, r: map<Text, FileDoc>) {
    && Ascending(d.localOnly) && Ascending(d.remoteOnly) && Sorted((p: Pair) => p.id, d.differing)
    && (forall id :: id in d.localOnly <==> id in l && id !in r)
    && (forall id :: id in d.remoteOnly <==> id in r && id !in l)
    && (forall p: Pair :: p in d.differing <==> Differs(l, r, p.id) && p == PairOf(l, r, p.id))
  }

  /** The keys of a `Map`, each once. */
  method KeysOf<V>(m: map<Text, V>) returns (keys: seq<Text>)
    ensures NoDup(keys) && forall id :: id in keys <==> id in m
  {
    keys := [];
    var left := m.Keys;
    while left != {}
      invariant left <= m.Keys && NoDup(keys)
      invariant forall id :: id in keys <==> id in m && id !in left
      decreases left
    {
      var id :| id in left;
      keys := keys + [id];
      left := left - {id};
    }
  }

  method CollectById(files: seq<FileDoc>) returns (m: map<Text, FileDoc>)
    ensures m == ById(files)
  {
    m := map[];
    for i := 0 to |files|
      invariant m == ById(files[..i])
    {
      assert files[..i + 1][..i] == files[..i];
      m := m[files[i].id := files[i]];
    }
    assert files[..|files|] == files;
  }

  method SortIds(s: seq<Text>) returns (r: seq<Text>)
    requires NoDup(s)
    ensures Ascending(r) && forall id :: id in r <==> id in s
  {
    SortBySorts((x: Text) => x, s);
    r := SortBy((x: Text) => x, s);
  }

  /** The keys that the other side lacks, each once. */
  ghost predicate AreOnly(ids: seq<Text>, keys: seq<Text>, other: map<Text, FileDoc>) {
    NoDup(ids) && forall id :: id in ids <==> id in keys && id !in other
  }

  /** The pairs of the keys whose clocks differ, each key once. */
  ghost predicate AreDiffering(pairs: seq<Pair>, keys: seq<Text>, l: map<Text, FileDoc>, r: map<Text, FileDoc>) {
    && (forall j, k :: 0 <= j < k < |pairs| ==> pairs[j].id != pairs[k].id)
    && (forall p: Pair :: p in pairs <==> p.id in keys && Differs(l, r, p.id) && p == PairOf(l, r, p.id))
  }

  lemma OnlyNext(ids: seq<Text>, keys: seq<Text>, id: Text, other: map<Text, FileDoc>)
    requires AreOnly(ids, keys, other) && id !in keys
    ensures AreOnly(if id in other then ids else ids + [id], keys + [id], other)
  {}

  lemma DifferingNext(pairs: seq<Pair>, keys: seq<Text>, id: Text, l: map<Text, FileDoc>, r: map<Text, FileDoc>)
    requires AreDiffering(pairs, keys, l, r) && id !in keys
    ensures AreDiffering(if Differs(l, r, id) then pairs + [PairOf(l, r, id)] else pairs, keys + [id], l, r)
  {
    assert forall p: Pair :: p in pairs ==> p.id in keys;
  }

  method DiffFileDocs(localFiles: seq<FileDoc>, remoteFiles: seq<FileDoc>) returns (d: Divergence)
    ensures IsDivergence(d, ById(localFiles), ById(remoteFiles))
  {
    var localMap := CollectById(localFiles);
    var remoteMap := CollectById(remoteFiles);
    var localKeys := KeysOf(localMap);
    var localOnly: seq<Text>, differing: seq<Pair> := [], [];
    for i := 0 to |localKeys|
      invariant AreOnly(localOnly, localKeys[..i], remoteMap)
      invariant AreDiffering(differing, localKeys[..i], localMap, remoteMap)
    {
      var id := localKeys[i];
      assert localKeys[..i + 1] == localKeys[..i] + [id];
      OnlyNext(localOnly, localKeys[..i], id, remoteMap);
      DifferingNext(differing, localKeys[..i], id, localMap, remoteMap);
      if id !in remoteMap {
        localOnly := localOnly + [id];
      } else {
        var relation := CompareVC(localMap[id].doc.vclock, remoteMap[id].doc.vclock);
        if relation != Equal {
          differing := differing + [Pair(id, localMap[id].doc.vclock, remoteMap[id].doc.vclock, relation)];
        }
      }
    }
    assert localKeys[..|localKeys|] == localKeys;
    var remoteKeys := KeysOf(remoteMap);
    var remoteOnly: seq<Text> := [];
    for i := 0 to |remoteKeys|
      invariant AreOnly(remoteOnly, remoteKeys[..i], localMap)
    {
      assert remoteKeys[..i + 1] == remoteKeys[..i] + [remoteKeys[i]];
      OnlyNext(remoteOnly, remoteKeys[..i], remoteKeys[i], localMap);
      if remoteKeys[i] !in localMap {
        remoteOnly := remoteOnly + [remoteKeys[i]];
      }
    }
    assert remoteKeys[..|remoteKeys|] == remoteKeys;
    localOnly := SortIds(localOnly);
    remoteOnly := SortIds(remoteOnly);
    SortBySorts((p: Pair) => p.id, differing);
    d := Divergence(localOnly, remoteOnly, SortBy((p: Pair) => p.id, differing));
  }

  predicate HasDivergence(d: Divergence) {
    d.localOnly != [] || d.remoteOnly != [] || d.differing != []
  }

  /** Both sides hold the same ids, with equal clocks. */
  ghost predicate SameVersions(l: map<Text, FileDoc>, r: map<Text, FileDoc>) {
    l.Keys == r.Keys && forall id :: id in l ==> Compare(l[id].doc.vclock, r[id].doc.vclock) == Equal
  }

  /** The gate closes exactly when an id is missing on a side or two clocks of
      one id differ; tombstones take part. */
  lemma {:induction false} GateExactly(d: Divergence, l: map<Text, FileDoc>, r: map<Text, FileDoc>)
    requires IsDivergence(d, l, r)
    ensures HasDivergence(d) <==> !SameVersions(l, r)
  {
    if HasDivergence(d) {
      if d.localOnly != [] {
        assert d.localOnly[0] in d.localOnly;
      } else if d.remoteOnly != [] {
        assert d.remoteOnly[0] in d.remoteOnly;
      } else {
        assert d.differing[0] in d.differing;
      }
    } else {
      forall id ensures id in l <==> id in r {
        assert id !in d.localOnly && id !in d.remoteOnly;
      }
      forall id | id in l ensures Compare(l[id].doc.vclock, r[id].doc.vclock) == Equal {
        assert PairOf(l, r, id) !in d.differing;
      }
    }
  }

  // ── What the gate is worth ─────────────────────────────

  /** Some live doc lists the chunk. */
  ghost predicate Refers(m: map<Text, FileDoc>, chunk: Text) {
    exists id :: id in m && !m[id].doc.deleted && chunk in m[id].doc.chunks
  }

  /** Docs of one id with equal clocks have the same content. */
  ghost predicate ClocksNameContent(l: map<Text, FileDoc>, r: map<Text, FileDoc>) {
    forall id :: id in l && id in r && Compare(l[id].doc.vclock, r[id].doc.vclock) == Equal ==>
      S.DocContent(l[id].doc) == S.DocContent(r[id].doc)
  }

  /** Past the gate both sides reference the same chunks, so it does not matter
      which one the references are taken from. */
  lemma {:induction false} EitherSideRefers(l: map<Text, FileDoc>, r: map<Text, FileDoc>, chunk: Text)
    requires SameVersions(l, r) && ClocksNameContent(l, r)
    ensures Refers(l, chunk) <==> Refers(r, chunk)
  {
    forall id | id in l ensures S.DocContent(l[id].doc) == S.DocContent(r[id].doc) {
    }
    if Refers(l, chunk) {
      var id :| id in l && !l[id].doc.deleted && chunk in l[id].doc.chunks;
      assert id in r && !r[id].doc.deleted && chunk in r[id].doc.chunks;
    }
    if Refers(r, chunk) {
      var id :| id in r && !r[id].doc.deleted && chunk in r[id].doc.chunks;
      assert id in l && !l[id].doc.deleted && chunk in l[id].doc.chunks;
    }
  }

  /** The devices of a path have run the replication protocol, and no step
      broke its rule on clock entries. */
  ghost predicate Replicated(a: S.Doc, b: S.Doc) {
    exists steps :: R.RunCountsFresh(R.INIT, steps) && a in R.Run(R.INIT, steps).versions
        && b in R.Run(R.INIT, steps).versions
  }

  /** Clocks name content wherever the protocol keeps its rule: the gate rests
      on the absence of clock ties. */
  lemma {:induction false} ReplicationNamesContent(l: map<Text, FileDoc>, r: map<Text, FileDoc>)
    requires forall id :: id in l && id in r ==> Replicated(l[id].doc, r[id].doc)
    ensures ClocksNameContent(l, r)
  {
    forall id | id in l && id in r && Compare(l[id].doc.vclock, r[id].doc.vclock) == Equal
      ensures S.DocContent(l[id].doc) == S.DocContent(r[id].doc)
    {
      var steps :| R.RunCountsFresh(R.INIT, steps)
                   && l[id].doc in R.Run(R.INIT, steps).versions && r[id].doc in R.Run(R.INIT, steps).versions;
      R.NoClockTies(steps, l[id].doc, r[id].doc);
    }
  }

  /** And it fails with one: any two docs that tie, a deletion accepted under the
      clock of an alive doc among them, pass the gate, and a chunk that only one of
      them lists is referenced on one side only. */
  lemma {:induction false} TieFoolsGate(id: Text, a: S.Doc, b: S.Doc, c: Text)
    requires R.Tie(a, b) && !a.deleted && c in a.chunks && (b.deleted || c !in b.chunks)
    ensures var l, r := map[id := FileDoc(id, a)], map[id := FileDoc(id, b)];
            SameVersions(l, r) && Refers(l, c) && !Refers(r, c)
  {
    var l, r := map[id := FileDoc(id, a)], map[id := FileDoc(id, b)];
    assert l[id].doc == a && r[id].doc == b;
    var k :| 0 <= k < |a.chunks| && a.chunks[k] == c;
  }

  // ── analyzeChunkConsistency ────────────────────────────

  datatype Diagnosis = NeedsConvergence(divergence: Divergence) | Converged(report: Report, referencedIds: nat)

  function Owners(files: seq<FileDoc>): seq<F.OwnerDoc> {
    seq(|files|, i requires 0 <= i < |files| => F.OwnerDoc(files[i].id, files[i].doc.chunks, files[i].doc.deleted))
  }

  /** The ids that live docs of the list reference. */
  ghost predicate AreReferences(files: seq<FileDoc>, refs: set<Text>) {
    forall c :: c in refs <==> exists i :: 0 <= i < |files| && !files[i].doc.deleted && c in files[i].doc.chunks
  }

  lemma {:induction false} MinusDistinct(s: seq<Text>, m: set<Text>)
    requires NoDup(s)
    ensures NoDup(Minus(s, m))
    decreases |s|
  {
    if s != [] {
      var n := |s| - 1;
      MinusDistinct(s[..n], m);
      assert s[n] !in s[..n];
    }
  }

  method CollectReferences(files: seq<FileDoc>) returns (referenced: seq<Text>)
    ensures NoDup(referenced) && AreReferences(files, Members(referenced))
  {
    var refs := F.CollectReferencedChunks(Owners(files));
    referenced := KeysOf(refs);
    forall c
      ensures c in referenced <==> exists i :: 0 <= i < |files| && !files[i].doc.deleted && c in files[i].doc.chunks
    {
      F.LabelsMember(Owners(files), c);
      assert forall i :: 0 <= i < |files| ==>
          Owners(files)[i] == F.OwnerDoc(files[i].id, files[i].doc.chunks, files[i].doc.deleted);
    }
  }

  /** The report exists exactly when both sides hold the same versions; it is
      then about the chunks of both stores against the local references, for
      every page size. */
  method AnalyzeChunkConsistency(localFiles: seq<FileDoc>, remoteFiles: seq<FileDoc>,
      localIndex: seq<Text>, remoteIndex: seq<Text>, tombstones: set<Text>, pageSize: nat)
      returns (r: Diagnosis)
    requires Ascending(localIndex) && Ascending(remoteIndex) && pageSize >= 1
    ensures r.Converged? <==> SameVersions(ById(localFiles), ById(remoteFiles))
    ensures r.NeedsConvergence? ==> IsDivergence(r.divergence, ById(localFiles), ById(remoteFiles))
    ensures r.Converged? ==>
              exists refs :: AreReferences(localFiles, refs) && r.referencedIds == |refs|
                && IsFinal(r.report, RangeIds(localIndex, CHUNK_PREFIX, CHUNK_PREFIX + [RANGE_END]),
                           Live(RangeIds(remoteIndex, CHUNK_PREFIX, CHUNK_PREFIX + [RANGE_END]), tombstones), refs)
  {
    var divergence := DiffFileDocs(localFiles, remoteFiles);
    GateExactly(divergence, ById(localFiles), ById(remoteFiles));
    if HasDivergence(divergence) {
      return NeedsConvergence(divergence);
    }
    var referenced := CollectReferences(localFiles);
    var report := AnalyzeStores(localIndex, remoteIndex, tombstones, referenced, pageSize);
    ghost var local := RangeIds(localIndex, CHUNK_PREFIX, CHUNK_PREFIX + [RANGE_END]);
    ghost var remote := Live(RangeIds(remoteIndex, CHUNK_PREFIX, CHUNK_PREFIX + [RANGE_END]), tombstones);
    MinusDistinct(referenced, Members(local) + Members(remote));
    var missing := SortIds(report.missingReferenced);
    report := report.(missingReferenced := missing);
    assert IsFinal(report, local, remote, Members(referenced));
    DistinctSize(referenced);
    r := Converged(report, |referenced|);
  }

  lemma {:induction false} DistinctSize(s: seq<Text>)
    requires NoDup(s)
    ensures |Members(s)| == |s|
  {
    if s != [] {
      var n := |s| - 1;
      DistinctSize(s[..n]);
      assert Members(s) == Members(s[..n]) + {s[n]};
    }
  }
}
