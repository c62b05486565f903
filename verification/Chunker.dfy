/** Splitting a file into content-addressed chunks and joining them
    (src/db/chunker.ts). */
module Chunker {
  import opened Wrappers
  import opened Utf16
  import opened IdOrder
  import opened DocStore

  datatype ChunkHashAlg = X64 | Hmac

  /** The hash function with the algorithm tag it stamps on ids. */
  datatype ChunkHasher = ChunkHasher(alg: ChunkHashAlg, hash: Bytes -> Text)

  function AlgTag(alg: ChunkHashAlg): Text {
    match alg
    case X64 => [0x78, 0x36, 0x34, 0x3A]
    case Hmac => [0x68, 0x6D, 0x61, 0x63, 0x3A]
  }

  /** No two contents share a hash. */
  ghost predicate CollisionFree(h: ChunkHasher) {
    forall a, b :: h.hash(a) == h.hash(b) ==> a == b
  }

  function ChunkId(h: ChunkHasher, content: Bytes): DocId {
    CHUNK_PREFIX + (AlgTag(h.alg) + h.hash(content))
  }

  lemma ChunkIdInjective(h: ChunkHasher, a: Bytes, b: Bytes)
    requires CollisionFree(h) && ChunkId(h, a) == ChunkId(h, b)
    ensures a == b
  {
    var n := |CHUNK_PREFIX| + |AlgTag(h.alg)|;
    assert ChunkId(h, a)[n..] == h.hash(a) && ChunkId(h, b)[n..] == h.hash(b);
  }

  /** Ids name their algorithm, `x64:` or `hmac:`, and so no id of one is an id of the
      other. */
  lemma AlgorithmsApart(h: ChunkHasher, h': ChunkHasher, a: Bytes, b: Bytes)
    ensures CHUNK_PREFIX + (if h.alg == X64 then [0x78, 0x36, 0x34, 0x3A] else [0x68, 0x6D, 0x61, 0x63, 0x3A])
         <= ChunkId(h, a)
    ensures h.alg != h'.alg ==> ChunkId(h, a) != ChunkId(h', b)
  {
    assert ChunkId(h, a)[|CHUNK_PREFIX|] == AlgTag(h.alg)[0];
    assert ChunkId(h', b)[|CHUNK_PREFIX|] == AlgTag(h'.alg)[0];
  }

  // ── Splitting ──────────────────────────────────────────

  function Pieces(bytes: Bytes, chunkBytes: nat): seq<Bytes>
    requires chunkBytes >= 1
    decreases |bytes|
  {
    if |bytes| <= chunkBytes then [bytes]
    else [bytes[..chunkBytes]] + Pieces(bytes[chunkBytes..], chunkBytes)
  }

  method SplitBinary(bytes: Bytes, chunkBytes: nat) returns (pieces: seq<Bytes>)
    requires chunkBytes >= 1
    ensures pieces == Pieces(bytes, chunkBytes)
  {
    if bytes == [] {
      return [[]];
    }
    if |bytes| <= chunkBytes {
      return [bytes];
    }
    pieces := [];
    var i := 0;
    while i < |bytes|
      invariant i < |bytes| ==> pieces + Pieces(bytes[i..], chunkBytes) == Pieces(bytes, chunkBytes)
      invariant i >= |bytes| ==> pieces == Pieces(bytes, chunkBytes)
      decreases |bytes| - i
    {
      var end := if i + chunkBytes < |bytes| then i + chunkBytes else |bytes|;
      ghost var rest := bytes[i..];
      if end < |bytes| {
        assert rest[..chunkBytes] == bytes[i..end] && rest[chunkBytes..] == bytes[end..];
      } else {
        assert rest == bytes[i..end];
      }
      pieces := pieces + [bytes[i..end]];
      i := i + chunkBytes;
    }
  }

  function Concat(pieces: seq<Bytes>): Bytes {
    if pieces == [] then [] else Concat(pieces[..|pieces| - 1]) + pieces[|pieces| - 1]
  }

  lemma {:induction false} ConcatCons(first: Bytes, rest: seq<Bytes>)
    ensures Concat([first] + rest) == first + Concat(rest)
    decreases |rest|
  {
    if rest == [] {
      assert [first] + rest == [first];
      assert [first][..0] == [];
    } else {
      var n := |rest| - 1;
      ConcatCons(first, rest[..n]);
      assert ([first] + rest)[..n + 1] == [first] + rest[..n];
    }
  }

  /** The pieces are the file, in order; none is over the limit, and all but
      the last are exactly at it. Only an empty file has an empty piece. */
  lemma {:induction false} PiecesExact(bytes: Bytes, chunkBytes: nat)
    requires chunkBytes >= 1
    ensures var ps := Pieces(bytes, chunkBytes);
            && ps != [] && Concat(ps) == bytes
            && (forall i :: 0 <= i < |ps| - 1 ==> |ps[i]| == chunkBytes)
            && |ps[|ps| - 1]| <= chunkBytes
            && (bytes != [] ==> forall i :: 0 <= i < |ps| ==> ps[i] != [])
    decreases |bytes|
  {
    if |bytes| <= chunkBytes {
      assert [bytes][..0] == [];
      assert Concat([bytes]) == [] + bytes;
    } else {
      PiecesExact(bytes[chunkBytes..], chunkBytes);
      ConcatCons(bytes[..chunkBytes], Pieces(bytes[chunkBytes..], chunkBytes));
      assert bytes == bytes[..chunkBytes] + bytes[chunkBytes..];
    }
  }

  function ChunkWrites(h: ChunkHasher, pieces: seq<Bytes>): (r: seq<ChunkWrite>)
    ensures |r| == |pieces|
    ensures forall i :: 0 <= i < |r| ==> r[i] == ChunkWrite(ChunkId(h, pieces[i]), ChunkBody(Some(pieces[i])))
  {
    if pieces == [] then []
    else
      var n := |pieces| - 1;
      ChunkWrites(h, pieces[..n]) + [ChunkWrite(ChunkId(h, pieces[n]), ChunkBody(Some(pieces[n])))]
  }

  method SplitIntoChunks(content: Bytes, h: ChunkHasher, chunkBytes: nat) returns (chunks: seq<ChunkWrite>)
    requires chunkBytes >= 1
    ensures chunks == ChunkWrites(h, Pieces(content, chunkBytes))
  {
    var pieces := SplitBinary(content, chunkBytes);
    chunks := [];
    for i := 0 to |pieces|
      invariant chunks == ChunkWrites(h, pieces[..i])
    {
      chunks := chunks + [ChunkWrite(ChunkId(h, pieces[i]), ChunkBody(Some(pieces[i])))];
      assert pieces[..i + 1][..i] == pieces[..i];
    }
    assert pieces[..|pieces|] == pieces;
  }

  // ── Joining ────────────────────────────────────────────

  /** ChunkContentMissingError, at the first chunk without a content buffer. */
  datatype JoinError = ContentMissing(index: nat)

  predicate HasContent(b: Body) {
    b.ChunkBody? && b.content.Some?
  }

  function Contents(bodies: seq<Body>): seq<Bytes>
    requires forall i :: 0 <= i < |bodies| ==> HasContent(bodies[i])
  {
    seq(|bodies|, i requires 0 <= i < |bodies| && HasContent(bodies[i]) => bodies[i].content.value)
  }

  /** The first body without content, or the length. */
  function FirstMissing(bodies: seq<Body>): (n: nat)
    ensures n <= |bodies|
    ensures forall i :: 0 <= i < n ==> HasContent(bodies[i])
    ensures n < |bodies| ==> !HasContent(bodies[n])
  {
    if bodies == [] || !HasContent(bodies[0]) then 0 else 1 + FirstMissing(bodies[1..])
  }

  function Joined(bodies: seq<Body>): Result<Bytes, JoinError> {
    var n := FirstMissing(bodies);
    if n < |bodies| then Err(ContentMissing(n)) else Ok(Concat(Contents(bodies)))
  }

  lemma ContentsPrefix(bodies: seq<Body>, i: nat)
    requires i < |bodies| && forall k :: 0 <= k < |bodies| ==> HasContent(bodies[k])
    ensures Concat(Contents(bodies[..i + 1])) == Concat(Contents(bodies[..i])) + bodies[i].content.value
  {
    assert Contents(bodies[..i + 1])[..i] == Contents(bodies[..i]);
  }

  lemma Appended(before: Bytes, c: Bytes, out: Bytes, off: nat)
    requires |before| == off && off + |c| <= |out|
    requires forall k :: 0 <= k < off ==> out[k] == before[k]
    requires forall k :: 0 <= k < |c| ==> out[off + k] == c[k]
    ensures out[..off + |c|] == before + c
  {}

  method JoinChunks(bodies: seq<Body>) returns (r: Result<Bytes, JoinError>)
    ensures r == Joined(bodies)
  {
    for i := 0 to |bodies|
      invariant forall k :: 0 <= k < i ==> HasContent(bodies[k])
    {
      if !HasContent(bodies[i]) {
        return Err(ContentMissing(i));
      }
    }
    var total := 0;
    for i := 0 to |bodies|
      invariant total == |Concat(Contents(bodies[..i]))|
    {
      ContentsPrefix(bodies, i);
      total := total + |bodies[i].content.value|;
    }
    assert bodies[..|bodies|] == bodies;
    var out := new Byte[total];
    var off := 0;
    for i := 0 to |bodies|
      invariant off == |Concat(Contents(bodies[..i]))| <= total
      invariant out[..off] == Concat(Contents(bodies[..i]))
    {
      var c := bodies[i].content.value;
      ContentsPrefix(bodies, i);
      ConcatGrows(bodies, i + 1);
      ghost var before := out[..off];
      forall k | 0 <= k < |c| {
        out[off + k] := c[k];
      }
      Appended(before, c, out[..], off);
      off := off + |c|;
    }
    assert out[..off] == out[..];
    return Ok(out[..]);
  }

  lemma {:induction false} ConcatGrows(bodies: seq<Body>, i: nat)
    requires i <= |bodies| && forall k :: 0 <= k < |bodies| ==> HasContent(bodies[k])
    ensures |Concat(Contents(bodies[..i]))| <= |Concat(Contents(bodies))|
    decreases |bodies| - i
  {
    if i < |bodies| {
      ContentsPrefix(bodies, i);
      ConcatGrows(bodies, i + 1);
    } else {
      assert bodies[..i] == bodies;
    }
  }

  /** Joining the chunks of a split gives the file back, whatever the size. */
  lemma JoinUndoesSplit(h: ChunkHasher, bytes: Bytes, chunkBytes: nat)
    requires chunkBytes >= 1
    ensures var chunks := ChunkWrites(h, Pieces(bytes, chunkBytes));
            Joined(seq(|chunks|, i requires 0 <= i < |chunks| => chunks[i].body)) == Ok(bytes)
  {
    var pieces := Pieces(bytes, chunkBytes);
    var chunks := ChunkWrites(h, pieces);
    var bodies := seq(|chunks|, i requires 0 <= i < |chunks| => chunks[i].body);
    PiecesExact(bytes, chunkBytes);
    assert forall i :: 0 <= i < |bodies| ==> HasContent(bodies[i]) && bodies[i].content.value == pieces[i];
    assert Contents(bodies) == pieces;
  }
}
