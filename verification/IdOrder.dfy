/** The order of document ids in the stores. */
module IdOrder {
  // By UTF-16 code units, with the key ranges of src/types/doc-id.ts.

  import opened Utf16

  const FILE_PREFIX: Text := [0x66, 0x69, 0x6C, 0x65, 0x3A]
  const CHUNK_PREFIX: Text := [0x63, 0x68, 0x75, 0x6E, 0x6B, 0x3A]
  const RANGE_END: CodeUnit := 0xFFF0
  const NUL: CodeUnit := 0

  predicate Lt(a: Text, b: Text) {
    if b == [] then false
    else if a == [] then true
    else if a[0] != b[0] then a[0] < b[0]
    else Lt(a[1..], b[1..])
  }

  predicate Le(a: Text, b: Text) {
    a == b || Lt(a, b)
  }

  predicate InRange(id: Text, startkey: Text, endkey: Text) {
    Le(startkey, id) && Le(id, endkey)
  }

  predicate InPrefixRange(id: Text, prefix: Text) {
    InRange(id, prefix, prefix + [RANGE_END])
  }

  predicate Ascending(s: seq<Text>) {
    forall i, j :: 0 <= i < j < |s| ==> Lt(s[i], s[j])
  }

  lemma {:induction false} LtIrreflexive(a: Text)
    ensures !Lt(a, a)
  {
    if a != [] { LtIrreflexive(a[1..]); }
  }

  lemma {:induction false} LtTransitive(a: Text, b: Text, c: Text)
    ensures Lt(a, b) && Lt(b, c) ==> Lt(a, c)
  {
    if a != [] && b != [] && c != [] { LtTransitive(a[1..], b[1..], c[1..]); }
  }

  lemma {:induction false} LtTotal(a: Text, b: Text)
    ensures a == b || Lt(a, b) || Lt(b, a)
  {
    if a != [] && b != [] {
      LtTotal(a[1..], b[1..]);
      assert a == [a[0]] + a[1..] && b == [b[0]] + b[1..];
    }
  }

  lemma LtAsymmetric(a: Text, b: Text)
    ensures !(Lt(a, b) && Lt(b, a))
  {}

  /** `last + "\x00"` is the immediate successor of `last`. */
  lemma {:induction false} NulIsSuccessor(a: Text, b: Text)
    ensures Lt(a, b) <==> Le(a + [NUL], b)
  {
    if a == [] {
      if b != [] {
        assert b == [b[0]] + b[1..];
        assert [] + [NUL] == [NUL] && [NUL][1..] == [];
        assert Lt([], b[1..]) <==> b[1..] != [];
      }
    } else if b != [] {
      NulIsSuccessor(a[1..], b[1..]);
      assert (a + [NUL])[1..] == a[1..] + [NUL];
      assert a + [NUL] == b <==> a[0] == b[0] && a[1..] + [NUL] == b[1..] by {
        assert b == [b[0]] + b[1..] && a + [NUL] == [a[0]] + (a[1..] + [NUL]);
      }
    }
  }

  lemma {:induction false} LePrefix(prefix: Text, a: Text, b: Text)
    ensures Lt(prefix + a, prefix + b) <==> Lt(a, b)
    ensures Le(prefix + a, prefix + b) <==> Le(a, b)
  {
    if prefix == [] {
      assert prefix + a == a && prefix + b == b;
    } else {
      LePrefix(prefix[1..], a, b);
      assert (prefix + a)[1..] == prefix[1..] + a && (prefix + b)[1..] == prefix[1..] + b;
      assert prefix + a == prefix + b <==> a == b by {
        assert (prefix + a)[|prefix|..] == a && (prefix + b)[|prefix|..] == b;
      }
    }
  }

  /** The ids a prefix range holds: those whose next unit is below the end
      marker, and the marker itself. */
  predicate Listed(rest: Text) {
    rest == [] || rest[0] < RANGE_END || rest == [RANGE_END]
  }

  lemma PrefixRange(prefix: Text, rest: Text)
    ensures InPrefixRange(prefix + rest, prefix) <==> Listed(rest)
  {
    LePrefix(prefix, [], rest);
    LePrefix(prefix, rest, [RANGE_END]);
    assert prefix + [] == prefix;
    assert Le([], rest);
    if rest != [] {
      assert Lt(rest[1..], [RANGE_END][1..]) == false;
    }
  }
}
