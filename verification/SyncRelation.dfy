/** The relation of two versions of a path. */
module SyncRelation {
  // The classifier and the pull verdict (src/sync/classify-sync-relation.ts,
  // src/conflict/conflict-resolver.ts).

  import opened Utf16
  import opened Wrappers
  import opened VectorClocks

  type ChunkId = Text

  datatype Relation = Identical | VclockOnlyDrift | RemoteEdit | LocalEdit | TrueDivergent

  /** The integration baseline; entries of old builds have no fingerprint. */
  datatype LastSynced = LastSynced(chunks: Option<seq<ChunkId>>, size: Option<nat>, deleted: bool)

  datatype ClassifyInput = ClassifyInput(
    leftVC: Clock, leftChunks: seq<ChunkId>, leftDeleted: bool, leftVCAttributed: bool,
    rightVC: Clock, rightChunks: seq<ChunkId>, rightDeleted: bool,
    lastSynced: Option<LastSynced>, recreateAuthority: bool)

  /** Content as the classifier compares it: deletions are all alike. */
  datatype Content = Tombstone | Alive(chunks: seq<ChunkId>)

  function ContentOf(chunks: seq<ChunkId>, deleted: bool): Content {
    if deleted then Tombstone else Alive(chunks)
  }

  predicate LeftMatchesBaseline(i: ClassifyInput) {
    i.lastSynced.Some?
    && var ls := i.lastSynced.value;
       !ls.deleted && ls.chunks.Some? && ls.size.Some? && !i.leftDeleted && i.leftChunks == ls.chunks.value
  }

  function RefineRemoteEdit(i: ClassifyInput): Relation {
    if !i.leftVCAttributed then RemoteEdit
    else if LeftMatchesBaseline(i) then RemoteEdit
    else TrueDivergent
  }

  function Classify(i: ClassifyInput): Relation {
    var chunksEqual := i.leftDeleted == i.rightDeleted && (i.leftDeleted || i.leftChunks == i.rightChunks);
    var rel := Compare(i.leftVC, i.rightVC);
    if chunksEqual && rel == Equal then Identical
    else if chunksEqual then VclockOnlyDrift
    else if rel == Concurrent then TrueDivergent
    else if rel == Dominated then RefineRemoteEdit(i)
    else if rel == Equal && !i.leftVCAttributed then
      if i.recreateAuthority then RemoteEdit else TrueDivergent
    else LocalEdit
  }

  /** At a vault call site the disk is replaced exactly when the two contents
      differ, the doc is causally newer, and the disk still holds the alive
      content the baseline recorded: overwriting loses nothing unsynced. */
  lemma DiskReplacedOnlyWhenExplained(i: ClassifyInput)
    requires i.leftVCAttributed
    ensures Classify(i) == RemoteEdit
       <==> && ContentOf(i.leftChunks, i.leftDeleted) != ContentOf(i.rightChunks, i.rightDeleted)
            && Leq(i.leftVC, i.rightVC) && !Leq(i.rightVC, i.leftVC)
            && i.lastSynced.Some? && i.lastSynced.value.chunks == Some(i.leftChunks)
            && i.lastSynced.value.size.Some? && !i.lastSynced.value.deleted && !i.leftDeleted
  {}

  /** The disk still holds the alive content that the baseline recorded. */
  predicate BaselineOnDisk(i: ClassifyInput) {
    match i.lastSynced
    case None => false
    case Some(ls) => !ls.deleted && !i.leftDeleted && ls.size.Some? && ls.chunks == Some(i.leftChunks)
  }

  /** When each of the five relations holds, by content and by causal order. */
  lemma {:induction false} RelationExactly(i: ClassifyInput)
    ensures var same := ContentOf(i.leftChunks, i.leftDeleted) == ContentOf(i.rightChunks, i.rightDeleted);
            var older, newer := Leq(i.leftVC, i.rightVC), Leq(i.rightVC, i.leftVC);
            && (Classify(i) == Identical <==> same && older && newer)
            && (Classify(i) == VclockOnlyDrift <==> same && !(older && newer))
            && (Classify(i) == RemoteEdit <==>
                  !same && older
                  && if newer then !i.leftVCAttributed && i.recreateAuthority
                     else !i.leftVCAttributed || BaselineOnDisk(i))
            && (Classify(i) == LocalEdit <==> !same && newer && (!older || i.leftVCAttributed))
            && (Classify(i) == TrueDivergent <==>
                  !same
                  && (|| (!older && !newer)
                      || (older && !newer && i.leftVCAttributed && !BaselineOnDisk(i))
                      || (older && newer && !i.leftVCAttributed && !i.recreateAuthority)))
  {}

  // ── The pull verdict ───────────────────────────────────

  datatype Doc = Doc(chunks: seq<ChunkId>, deleted: bool, vclock: Clock)

  datatype Verdict = TakeRemote | KeepLocal | Conflict | SilentMerge

  function DocContent(d: Doc): Content {
    ContentOf(d.chunks, d.deleted)
  }

  function ResolveOnPull(localDoc: Option<Doc>, remoteDoc: Doc, recreateAuthority: bool): Verdict {
    if localDoc.None? then TakeRemote
    else
      var l := localDoc.value;
      match Classify(ClassifyInput(l.vclock, l.chunks, l.deleted, false,
                                   remoteDoc.vclock, remoteDoc.chunks, remoteDoc.deleted, None, recreateAuthority))
      case Identical => KeepLocal
      case VclockOnlyDrift => SilentMerge
      case RemoteEdit => TakeRemote
      case LocalEdit => KeepLocal
      case TrueDivergent => Conflict
  }

  /** When each of the four verdicts is given. A missing doc is taken; equal content
      is merged unless the clocks agree too; other content is taken from a strictly
      newer clock, kept under one, and a conflict where the clocks are concurrent
      or equal, a recreated remote aside. */
  lemma {:induction false} VerdictExactly(l: Option<Doc>, r: Doc, recreate: bool)
    ensures l == None ==> ResolveOnPull(l, r, recreate) == TakeRemote
    ensures l.Some? ==>
              var same := DocContent(l.value) == DocContent(r);
              var older, newer := Leq(l.value.vclock, r.vclock), Leq(r.vclock, l.value.vclock);
              && (ResolveOnPull(l, r, recreate) == SilentMerge <==> same && !(older && newer))
              && (ResolveOnPull(l, r, recreate) == TakeRemote <==> !same && older && (newer ==> recreate))
              && (ResolveOnPull(l, r, recreate) == KeepLocal <==> newer && (if older then same else !same))
              && (ResolveOnPull(l, r, recreate) == Conflict <==>
                    !same && (if older then newer && !recreate else !newer))
  {
    if l.Some? {
      RelationExactly(ClassifyInput(l.value.vclock, l.value.chunks, l.value.deleted, false,
          r.vclock, r.chunks, r.deleted, None, recreate));
    }
  }

  /** The two devices' verdicts on each other's docs are mirror images. */
  lemma VerdictsMirror(a: Doc, b: Doc)
    ensures var ab, ba := ResolveOnPull(Some(a), b, false), ResolveOnPull(Some(b), a, false);
            && (ab == TakeRemote ==> ba == KeepLocal)
            && (ab == SilentMerge <==> ba == SilentMerge)
            && (ab == Conflict <==> ba == Conflict)
            && (ab == KeepLocal && ba == KeepLocal
                <==> DocContent(a) == DocContent(b) && Compare(a.vclock, b.vclock) == Equal)
  {}

  /** A pull replaces different content only by a causally newer version. */
  lemma TakenIsNewer(l: Doc, r: Doc)
    ensures ResolveOnPull(Some(l), r, false) == TakeRemote
       <==> DocContent(l) != DocContent(r) && Leq(l.vclock, r.vclock) && !Leq(r.vclock, l.vclock)
  {}
}
