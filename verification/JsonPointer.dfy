/** JSON Pointers (sections 3 and 4 of RFC 6901). */
module JsonPointer {
  // As src/sync/config-merge.ts prints and parses them.

  import opened Utf16

  const TILDE: CodeUnit := 0x7E
  const SLASH: CodeUnit := 0x2F
  const ZERO: CodeUnit := 0x30
  const ONE: CodeUnit := 0x31

  /** `s.replace(/c/g, sub)` for a one-unit pattern. */
  function ReplaceUnit(s: Text, c: CodeUnit, sub: Text): Text {
    if s == [] then [] else (if s[0] == c then sub else [s[0]]) + ReplaceUnit(s[1..], c, sub)
  }

  /** `s.replace(/ab/g, sub)` for a two-unit pattern: leftmost matches, no overlap. */
  function ReplacePair(s: Text, a: CodeUnit, b: CodeUnit, sub: CodeUnit): Text {
    if |s| < 2 then s
    else if s[0] == a && s[1] == b then [sub] + ReplacePair(s[2..], a, b, sub)
    else [s[0]] + ReplacePair(s[1..], a, b, sub)
  }

  function EscapeToken(key: Text): Text {
    ReplaceUnit(ReplaceUnit(key, TILDE, [TILDE, ZERO]), SLASH, [TILDE, ONE])
  }

  function UnescapeToken(token: Text): Text {
    ReplacePair(ReplacePair(token, TILDE, ONE, SLASH), TILDE, ZERO, TILDE)
  }

  function ChildPointer(parent: Text, key: Text): Text {
    parent + [SLASH] + EscapeToken(key)
  }

  /** `s.split("/")` */
  function Split(s: Text): (parts: seq<Text>)
    ensures |parts| >= 1
  {
    if s == [] then [[]]
    else
      var rest := Split(s[1..]);
      if s[0] == SLASH then [[]] + rest else [[s[0]] + rest[0]] + rest[1..]
  }

  function UnescapeAll(parts: seq<Text>): (r: seq<Text>)
    ensures |r| == |parts|
    ensures forall i :: 0 <= i < |parts| ==> r[i] == UnescapeToken(parts[i])
  {
    if parts == [] then [] else [UnescapeToken(parts[0])] + UnescapeAll(parts[1..])
  }

  function PointerTokens(pointer: Text): seq<Text> {
    if pointer == [] then [] else UnescapeAll(Split(pointer[1..]))
  }

  /** The pointer of a token list: `childPointer` applied from the root. */
  function Print(tokens: seq<Text>): Text {
    if tokens == [] then [] else ChildPointer(Print(tokens[..|tokens| - 1]), tokens[|tokens| - 1])
  }

  predicate PointerCovers(declared: Text, pointer: Text) {
    pointer == declared || declared + [SLASH] <= pointer
  }

  // ── One token ──────────────────────────────────────────

  lemma {:induction false} ReplaceUnitAppend(s: Text, t: Text, c: CodeUnit, sub: Text)
    ensures ReplaceUnit(s + t, c, sub) == ReplaceUnit(s, c, sub) + ReplaceUnit(t, c, sub)
  {
    if s == [] {
      assert s + t == t;
    } else {
      assert (s + t)[1..] == s[1..] + t;
      ReplaceUnitAppend(s[1..], t, c, sub);
    }
  }

  /** The escape of one unit; `EscapeToken` maps it over the key. */
  function EscapeUnit(c: CodeUnit): Text {
    if c == TILDE then [TILDE, ZERO] else if c == SLASH then [TILDE, ONE] else [c]
  }

  lemma EscapeCons(key: Text)
    requires key != []
    ensures EscapeToken(key) == EscapeUnit(key[0]) + EscapeToken(key[1..])
  {
    var first: Text := if key[0] == TILDE then [TILDE, ZERO] else [key[0]];
    ReplaceUnitAppend(first, ReplaceUnit(key[1..], TILDE, [TILDE, ZERO]), SLASH, [TILDE, ONE]);
    assert first[1..] == if key[0] == TILDE then [ZERO] else [];
    assert [ZERO][1..] == [];
    assert ReplaceUnit([ZERO], SLASH, [TILDE, ONE]) == [ZERO];
  }

  lemma {:induction false} EscapeHasNoSlash(key: Text)
    ensures SLASH !in EscapeToken(key)
  {
    if key != [] {
      EscapeCons(key);
      EscapeHasNoSlash(key[1..]);
    }
  }

  /** The first unescape pass (`~1` to `/`) leaves exactly the `~0` escapes. */
  lemma {:induction false} UnescapeFirstPass(key: Text)
    ensures ReplacePair(EscapeToken(key), TILDE, ONE, SLASH) == ReplaceUnit(key, TILDE, [TILDE, ZERO])
  {
    if key != [] {
      var tail := EscapeToken(key[1..]);
      EscapeCons(key);
      UnescapeFirstPass(key[1..]);
      var e := EscapeToken(key);
      if key[0] == TILDE {
        assert e[1..] == [ZERO] + tail && e[1..][1..] == tail;
        assert ReplacePair(e[1..], TILDE, ONE, SLASH) == [ZERO] + ReplacePair(tail, TILDE, ONE, SLASH);
      } else if key[0] == SLASH {
        assert e[2..] == tail;
      } else {
        assert e[1..] == tail;
      }
    }
  }

  lemma {:induction false} UnescapeSecondPass(key: Text)
    ensures ReplacePair(ReplaceUnit(key, TILDE, [TILDE, ZERO]), TILDE, ZERO, TILDE) == key
  {
    if key != [] {
      var tail := ReplaceUnit(key[1..], TILDE, [TILDE, ZERO]);
      var e := ReplaceUnit(key, TILDE, [TILDE, ZERO]);
      UnescapeSecondPass(key[1..]);
      if key[0] == TILDE {
        assert e[2..] == tail;
      } else {
        assert e[1..] == tail;
      }
    }
  }

  /** Section 4 of RFC 6901: `~1` before `~0`, so `~01` reads back as `~1`. */
  lemma UnescapeEscape(key: Text)
    ensures UnescapeToken(EscapeToken(key)) == key
  {
    UnescapeFirstPass(key);
    UnescapeSecondPass(key);
  }

  /** A reference token of section 3 of RFC 6901: no `/`, and `~` only in `~0` or `~1`. */
  predicate ValidToken(t: Text) {
    t == [] ||
    if t[0] == TILDE then |t| >= 2 && (t[1] == ZERO || t[1] == ONE) && ValidToken(t[2..])
    else t[0] != SLASH && ValidToken(t[1..])
  }

  lemma {:induction false} EscapeIsValid(key: Text)
    ensures ValidToken(EscapeToken(key))
  {
    if key != [] {
      EscapeCons(key);
      EscapeIsValid(key[1..]);
      var tail := EscapeToken(key[1..]);
      assert EscapeToken(key)[|EscapeUnit(key[0])|..] == tail;
    }
  }

  lemma {:induction false} EscapeOnto(t: Text) returns (key: Text)
    requires ValidToken(t)
    ensures EscapeToken(key) == t
  {
    if t == [] {
      key := [];
    } else if t[0] == TILDE {
      var rest := EscapeOnto(t[2..]);
      key := [if t[1] == ZERO then TILDE else SLASH] + rest;
      assert key[1..] == rest;
      EscapeCons(key);
      assert t == t[..2] + t[2..];
    } else {
      var rest := EscapeOnto(t[1..]);
      key := [t[0]] + rest;
      assert key[1..] == rest;
      EscapeCons(key);
    }
  }

  lemma EscapeUnescape(t: Text)
    requires ValidToken(t)
    ensures EscapeToken(UnescapeToken(t)) == t
  {
    var key := EscapeOnto(t);
    UnescapeEscape(key);
  }

  // ── Splitting ──────────────────────────────────────────

  lemma {:induction false} SplitJoin(s: Text, t: Text)
    ensures Split(s + [SLASH] + t) == Split(s) + Split(t)
  {
    var u := s + [SLASH] + t;
    if s == [] {
      assert u[1..] == t;
    } else {
      assert u[1..] == s[1..] + [SLASH] + t;
      SplitJoin(s[1..], t);
    }
  }

  lemma {:induction false} SplitToken(t: Text)
    requires SLASH !in t
    ensures Split(t) == [t]
  {
    if t != [] {
      SplitToken(t[1..]);
      assert [t[0]] + t[1..] == t;
    }
  }

  lemma {:induction false} UnescapeAllAppend(a: seq<Text>, b: seq<Text>)
    ensures UnescapeAll(a + b) == UnescapeAll(a) + UnescapeAll(b)
  {}

  /** Text after a further `/` only adds tokens. */
  lemma {:induction false} TokensAfter(p: Text, t: Text)
    ensures PointerTokens(p + [SLASH] + t) == PointerTokens(p) + UnescapeAll(Split(t))
  {
    if p == [] {
      assert (p + [SLASH] + t)[1..] == t;
    } else {
      assert (p + [SLASH] + t)[1..] == p[1..] + [SLASH] + t;
      SplitJoin(p[1..], t);
      UnescapeAllAppend(Split(p[1..]), Split(t));
    }
  }

  /** Parsing undoes one step of printing, for every parent text and every key. */
  lemma {:induction false} TokensOfChild(p: Text, key: Text)
    ensures PointerTokens(ChildPointer(p, key)) == PointerTokens(p) + [key]
  {
    EscapeHasNoSlash(key);
    SplitToken(EscapeToken(key));
    TokensAfter(p, EscapeToken(key));
    UnescapeEscape(key);
  }

  lemma {:induction false} TokensOfPrint(tokens: seq<Text>)
    ensures PointerTokens(Print(tokens)) == tokens
  {
    if tokens != [] {
      var n := |tokens| - 1;
      TokensOfPrint(tokens[..n]);
      TokensOfChild(Print(tokens[..n]), tokens[n]);
      assert tokens == tokens[..n] + [tokens[n]];
    }
  }

  lemma PrintInjective(a: seq<Text>, b: seq<Text>)
    requires Print(a) == Print(b)
    ensures a == b
  {
    TokensOfPrint(a);
    TokensOfPrint(b);
  }

  lemma {:induction false} PrintAppend(a: seq<Text>, b: seq<Text>)
    ensures Print(a + b) == Print(a) + Print(b)
  {
    if b == [] {
      assert a + b == a;
    } else {
      var n := |b| - 1;
      PrintAppend(a, b[..n]);
      assert (a + b)[..|a + b| - 1] == a + b[..n];
    }
  }

  lemma PrintCons(key: Text, rest: seq<Text>, ptr: Text)
    ensures ptr + Print([key] + rest) == ChildPointer(ptr, key) + Print(rest)
  {
    PrintAppend([key], rest);
    assert [key][..0] == [];
    assert Print([key]) == ChildPointer([], key);
    assert ptr + ([] + [SLASH] + EscapeToken(key)) == ChildPointer(ptr, key);
  }

  lemma {:induction false} PrintStarts(tokens: seq<Text>)
    requires tokens != []
    ensures Print(tokens) != [] && Print(tokens)[0] == SLASH
  {
    if |tokens| > 1 {
      PrintStarts(tokens[..|tokens| - 1]);
    }
  }

  lemma CoversOnlyPrefix(a: seq<Text>, b: seq<Text>)
    requires PointerCovers(Print(a), Print(b))
    ensures a <= b
  {
    TokensOfPrint(a);
    TokensOfPrint(b);
    var p, q := Print(a), Print(b);
    if p != q {
      var t := q[|p| + 1..];
      TokensAfter(p, t);
      assert b == PointerTokens(p + [SLASH] + t) by {
        assert q == p + [SLASH] + t;
      }
    }
  }

  lemma PrefixCovers(a: seq<Text>, b: seq<Text>)
    requires a <= b
    ensures PointerCovers(Print(a), Print(b))
  {
    var c := b[|a|..];
    assert b == a + c;
    PrintAppend(a, c);
    if c != [] {
      PrintStarts(c);
      assert Print(b)[|Print(a)|] == SLASH;
      assert Print(a) + [SLASH] == Print(b)[..|Print(a)| + 1];
    } else {
      assert a == b;
    }
  }

  /** `pointerCovers` is the token-prefix order: no sibling with a longer
      name is covered, and everything below is. */
  lemma CoversIsPrefix(a: seq<Text>, b: seq<Text>)
    ensures PointerCovers(Print(a), Print(b)) <==> a <= b
  {
    if PointerCovers(Print(a), Print(b)) {
      CoversOnlyPrefix(a, b);
    }
    if a <= b {
      PrefixCovers(a, b);
    }
  }

  // ── Every valid pointer ────────────────────────────────

  predicate AllValid(parts: seq<Text>) {
    forall i :: 0 <= i < |parts| ==> ValidToken(parts[i])
  }

  /** Section 3 of RFC 6901: empty, or tokens each preceded by `/`. */
  predicate ValidPointer(p: Text) {
    p == [] || (p[0] == SLASH && AllValid(Split(p[1..])))
  }

  lemma {:induction false} PrintHead(head: Text, tail: seq<Text>)
    requires ValidToken(head)
    ensures Print(UnescapeAll([head] + tail)) == [SLASH] + head + Print(UnescapeAll(tail))
  {
    EscapeUnescape(head);
    PrintCons(UnescapeToken(head), UnescapeAll(tail), []);
    assert ([head] + tail)[1..] == tail;
    assert ChildPointer([], UnescapeToken(head)) == [SLASH] + head;
  }

  lemma SplitFirst(s: Text) returns (head: Text, tail: Text)
    requires SLASH in s
    ensures s == head + [SLASH] + tail && Split(s) == [head] + Split(tail)
  {
    var n := FirstSlash(s);
    head, tail := s[..n], s[n + 1..];
    SplitToken(head);
    assert s == head + [SLASH] + tail;
    SplitJoin(head, tail);
  }

  lemma PrintPartsStep(head: Text, parts: seq<Text>, tail: Text)
    requires ValidToken(head)
    requires Print(UnescapeAll(parts)) == [SLASH] + tail
    ensures Print(UnescapeAll([head] + parts)) == [SLASH] + (head + [SLASH] + tail)
  {
    PrintHead(head, parts);
    assert [SLASH] + head + ([SLASH] + tail) == [SLASH] + (head + [SLASH] + tail);
  }

  lemma {:induction false} PrintParts(s: Text)
    requires AllValid(Split(s))
    ensures Print(UnescapeAll(Split(s))) == [SLASH] + s
    decreases |s|
  {
    if SLASH !in s {
      SplitToken(s);
      assert ValidToken([s][0]);
      PrintHead(s, []);
      assert [s] + [] == [s];
    } else {
      var head, tail := SplitFirst(s);
      var rest := Split(tail);
      assert ValidToken(([head] + rest)[0]);
      assert AllValid(rest) by {
        assert forall i :: 0 <= i < |rest| ==> ([head] + rest)[i + 1] == rest[i];
      }
      PrintParts(tail);
      PrintPartsStep(head, rest, tail);
    }
  }

  function FirstSlash(s: Text): (n: nat)
    ensures n <= |s| && SLASH !in s[..n] && (n < |s| ==> s[n] == SLASH)
  {
    if s == [] || s[0] == SLASH then 0
    else
      var rest := FirstSlash(s[1..]);
      assert s[..rest + 1] == [s[0]] + s[1..][..rest];
      rest + 1
  }

  /** Printing undoes parsing exactly on the pointers the RFC allows. */
  lemma PrintTokens(p: Text)
    requires ValidPointer(p)
    ensures Print(PointerTokens(p)) == p
  {
    if p != [] {
      PrintParts(p[1..]);
    }
  }

  lemma {:induction false} PrintIsValid(tokens: seq<Text>)
    ensures ValidPointer(Print(tokens))
  {
    if tokens != [] {
      var n := |tokens| - 1;
      var p, e := Print(tokens[..n]), EscapeToken(tokens[n]);
      PrintIsValid(tokens[..n]);
      EscapeHasNoSlash(tokens[n]);
      EscapeIsValid(tokens[n]);
      SplitToken(e);
      if p == [] {
        assert Print(tokens)[1..] == e;
      } else {
        assert Print(tokens)[1..] == p[1..] + [SLASH] + e;
        SplitJoin(p[1..], e);
      }
    }
  }
}
