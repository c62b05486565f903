/** The loops of `normalizeSurrogateBoundaries` (src/history/diff-engine.ts). */
module SurrogatePasses {
  import opened Utf16
  import opened SurrogateDiff
  import opened SurrogateNormalize

  // ── The passes ─────────────────────────────────────────

  lemma PushFrontKeepsOps(g: seq<Diff>, h: CodeUnit, sawDel: bool, sawIns: bool)
    requires NoEqual(g)
    ensures NoEqual(PushFront(g, h, sawDel, sawIns))
    decreases |g|
  {}

  /** How many equalities are still ahead. */
  function Equals(ds: seq<Diff>): nat {
    if ds == [] then 0 else (if ds[0].op == Equal then 1 else 0) + Equals(ds[1..])
  }

  lemma EqualsSkip(g: seq<Diff>, rest: seq<Diff>)
    requires NoEqual(g)
    ensures Equals(g + rest) == Equals(rest)
    decreases |g|
  {
    if g == [] {
      assert g + rest == rest;
    } else {
      assert (g + rest)[1..] == g[1..] + rest;
      assert NoEqual(g[1..]);
      EqualsSkip(g[1..], rest);
    }
  }

  /** A snap leaves one equality less ahead of the next step. */
  lemma HighSnapProgress(ds: seq<Diff>, i: nat)
    requires SnapsHigh(ds, i)
    ensures i < |HighSnap(ds, i)| && Equals(HighSnap(ds, i)[i + 1..]) < Equals(ds[i..])
  {
    var e := GroupEnd(ds, i + 1);
    var g := ds[i + 1..e];
    var h := ds[i].text[|ds[i].text| - 1];
    var grown := GrowFront(g, h);
    PushFrontKeepsOps(g, h, false, false);
    assert NoEqual(grown);
    assert HighSnap(ds, i)[i + 1..] == grown + ds[e..];
    EqualsSkip(grown, ds[e..]);
    assert ds[i + 1..] == g + ds[e..];
    EqualsSkip(g, ds[e..]);
  }

  lemma GroupStops(ds: seq<Diff>, a: nat, j: nat)
    requires a <= |ds| && a <= j <= GroupEnd(ds, a) && (j < |ds| ==> ds[j].op == Equal)
    ensures j == GroupEnd(ds, a)
  {}

  lemma GroupStarts(ds: seq<Diff>, j: nat, i: nat)
    requires i <= |ds| && GroupStart(ds, i) <= j <= i && (j > 0 ==> ds[j - 1].op == Equal)
    ensures j == GroupStart(ds, i)
  {}

  /** A segment of the group after pass 1, given what was seen before it. */
  function Fronted(d: Diff, h: CodeUnit, sawDel: bool, sawIns: bool): Diff {
    if (d.op == Delete && !sawDel) || (d.op == Insert && !sawIns) then Diff(d.op, [h] + d.text) else d
  }

  lemma {:induction false} PushFrontAt(g: seq<Diff>, h: CodeUnit, sawDel: bool, sawIns: bool, k: nat)
    requires NoEqual(g) && k < |g|
    ensures PushFront(g, h, sawDel, sawIns)[k] == Fronted(g[k], h, sawDel || Has(g[..k], Delete), sawIns
        || Has(g[..k], Insert))
    decreases |g|
  {
    if k > 0 {
      var rest := g[1..];
      assert NoEqual(rest);
      PushFrontAt(rest, h, sawDel || g[0].op == Delete, sawIns || g[0].op == Insert, k - 1);
      assert g[..k] == [g[0]] + rest[..k - 1];
      HasCons(g[0], rest[..k - 1], Delete);
      HasCons(g[0], rest[..k - 1], Insert);
    }
  }

  lemma {:induction false} FrontAssembled(ds: seq<Diff>, s: nat, e: nat, h: CodeUnit, out: seq<Diff>)
    requires s <= e <= |ds| == |out| && NoEqual(ds[s..e])
    requires forall k :: s <= k < e ==> out[k] == Fronted(ds[k], h, Has(ds[s..k], Delete), Has(ds[s..k], Insert))
    requires forall k :: 0 <= k < s || e <= k < |ds| ==> out[k] == ds[k]
    ensures out == ds[..s] + PushFront(ds[s..e], h, false, false) + ds[e..]
  {
    var g := ds[s..e];
    forall k | 0 <= k < e - s ensures out[s + k] == PushFront(g, h, false, false)[k] {
      PushFrontAt(g, h, false, false, k);
      assert g[..k] == ds[s..s + k];
    }
    assert out[s..e] == PushFront(g, h, false, false);
    assert out == out[..s] + out[s..e] + out[e..];
    assert out[..s] == ds[..s] && out[e..] == ds[e..];
  }

  lemma SeenUpTo(ds: seq<Diff>, s: nat, j: nat, op: Op)
    requires s <= j < |ds|
    ensures Has(ds[s..j + 1], op) <==> ds[j].op == op || Has(ds[s..j], op)
  {
    assert ds[s..j + 1] == ds[s..j] + [ds[j]];
    HasSnoc(ds[s..j], ds[j], op);
  }

  /** `h` goes before the first deletion and insertion of the group at `start`. */
  method PrependInGroup(ds: seq<Diff>, start: nat, h: CodeUnit)
    returns (out: seq<Diff>, j: nat, sawDel: bool, sawIns: bool)
    requires start <= |ds|
    ensures j == GroupEnd(ds, start)
    ensures out == ds[..start] + PushFront(ds[start..j], h, false, false) + ds[j..]
    ensures sawDel == Has(ds[start..j], Delete) && sawIns == Has(ds[start..j], Insert)
  {
    out := ds;
    j := start;
    sawDel, sawIns := false, false;
    while j < |out| && out[j].op != Equal
      invariant start <= j <= GroupEnd(ds, start) && |out| == |ds|
      invariant forall k :: start <= k < j ==>
          out[k] == Fronted(ds[k], h, Has(ds[start..k], Delete), Has(ds[start..k], Insert))
      invariant forall k :: 0 <= k < start || j <= k < |ds| ==> out[k] == ds[k]
      invariant sawDel == Has(ds[start..j], Delete) && sawIns == Has(ds[start..j], Insert)
      decreases |ds| - j
    {
      SeenUpTo(ds, start, j, Delete);
      SeenUpTo(ds, start, j, Insert);
      if out[j].op == Delete && !sawDel {
        out := out[j := Diff(Delete, [h] + out[j].text)];
        sawDel := true;
      } else if out[j].op == Insert && !sawIns {
        out := out[j := Diff(Insert, [h] + out[j].text)];
        sawIns := true;
      }
      j := j + 1;
    }
    GroupStops(ds, start, j);
    FrontAssembled(ds, start, j, h, out);
  }

  lemma SameGroup(ds: seq<Diff>, ds': seq<Diff>, j: nat)
    requires j <= |ds| == |ds'| && ds[j..] == ds'[j..]
    ensures GroupEnd(ds, j) == GroupEnd(ds', j)
    decreases |ds| - j
  {
    if j < |ds| {
      assert ds[j] == ds[j..][0] == ds'[j..][0] == ds'[j];
      assert ds[j + 1..] == ds[j..][1..] == ds'[j..][1..] == ds'[j + 1..];
      SameGroup(ds, ds', j + 1);
    }
  }

  /** The body of pass 1 for an equality that ends high. */
  method MoveHighOut(ds: seq<Diff>, i: nat) returns (out: seq<Diff>)
    requires SnapsHigh(ds, i)
    ensures out == HighSnap(ds, i)
  {
    var text := ds[i].text;
    var h := text[|text| - 1];
    ghost var e := GroupEnd(ds, i + 1);
    ghost var g, tail := ds[i + 1..e], ds[e..];
    ghost var a := ds[..i] + [Diff(Equal, Front(text))];
    out := ds[i := Diff(Equal, text[..|text| - 1])];
    var j, sawDel, sawIns;
    HighFrame(ds, i);
    out, j, sawDel, sawIns := PrependInGroup(out, i + 1, h);
    ghost var pushed, ins := PushFront(g, h, false, false), Missing(g, Insert, h);
    InsertAt(a + pushed, [Diff(Insert, [h])], tail);
    if !sawIns {
      out := out[..j] + [Diff(Insert, [h])] + out[j..];
    }
    assert out == a + pushed + ins + tail;
    InsertFirst(a, [Diff(Delete, [h])], pushed, ins, tail);
    if !sawDel {
      out := out[..i + 1] + [Diff(Delete, [h])] + out[i + 1..];
    }
  }

  lemma HighFrame(ds: seq<Diff>, i: nat)
    requires SnapsHigh(ds, i)
    ensures var out := ds[i := Diff(Equal, Front(ds[i].text))]; var e := GroupEnd(ds, i + 1);
            && GroupEnd(out, i + 1) == e && out[..i + 1] == ds[..i] + [Diff(Equal, Front(ds[i].text))]
            && out[i + 1..e] == ds[i + 1..e] && out[e..] == ds[e..]
  {
    SameGroup(ds, ds[i := Diff(Equal, Front(ds[i].text))], i + 1);
  }

  lemma InsertFirst(a: seq<Diff>, del: seq<Diff>, g: seq<Diff>, ins: seq<Diff>, tail: seq<Diff>)
    ensures var out := a + g + ins + tail; out[..|a|] + del + out[|a|..] == a + (del + g + ins) + tail
    ensures a + g + ins + tail == a + ([] + g + ins) + tail
  {}

  // ── Pass 2, from the back ──────────────────────────────

  /** A segment of the group after pass 2, given what was seen after it. */
  function Backed(d: Diff, l: CodeUnit, sawDel: bool, sawIns: bool): Diff {
    if (d.op == Delete && !sawDel) || (d.op == Insert && !sawIns) then Diff(d.op, d.text + [l]) else d
  }

  lemma {:induction false} PushBackAt(g: seq<Diff>, l: CodeUnit, sawDel: bool, sawIns: bool, k: nat)
    requires NoEqual(g) && k < |g|
    ensures PushBack(g, l, sawDel, sawIns)[k] == Backed(g[k], l, sawDel || Has(g[k + 1..], Delete), sawIns
        || Has(g[k + 1..], Insert))
    decreases |g|
  {
    var n := |g| - 1;
    if k < n {
      var rest := g[..n];
      PushBackAt(rest, l, sawDel || g[n].op == Delete, sawIns || g[n].op == Insert, k);
      assert g[k + 1..] == rest[k + 1..] + [g[n]];
      HasSnoc(rest[k + 1..], g[n], Delete);
      HasSnoc(rest[k + 1..], g[n], Insert);
    }
  }

  lemma {:induction false} BackAssembled(ds: seq<Diff>, s: nat, e: nat, l: CodeUnit, out: seq<Diff>)
    requires s <= e <= |ds| == |out| && NoEqual(ds[s..e])
    requires forall k :: s <= k < e ==> out[k] == Backed(ds[k], l, Has(ds[k + 1..e], Delete), Has(ds[k + 1..e], Insert))
    requires forall k :: 0 <= k < s || e <= k < |ds| ==> out[k] == ds[k]
    ensures out == ds[..s] + PushBack(ds[s..e], l, false, false) + ds[e..]
  {
    var g := ds[s..e];
    forall k | 0 <= k < e - s ensures out[s + k] == PushBack(g, l, false, false)[k] {
      PushBackAt(g, l, false, false, k);
      assert g[k + 1..] == ds[s + k + 1..e];
    }
    assert out[s..e] == PushBack(g, l, false, false);
    assert out == out[..s] + out[s..e] + out[e..];
    assert out[..s] == ds[..s] && out[e..] == ds[e..];
  }

  /** What pass 2 has done to the segments from `j` on of the group `ds[s..e]`. */
  ghost predicate Backing(ds: seq<Diff>, out: seq<Diff>, j: nat, e: nat, l: CodeUnit) {
    && j <= e <= |ds| == |out|
    && (forall k :: j <= k < e ==> out[k] == Backed(ds[k], l, Has(ds[k + 1..e], Delete), Has(ds[k + 1..e], Insert)))
    && (forall k :: 0 <= k < j || e <= k < |ds| ==> out[k] == ds[k])
  }

  lemma BackingStep(ds: seq<Diff>, out: seq<Diff>, j: nat, e: nat, l: CodeUnit)
    requires Backing(ds, out, j + 1, e, l)
    ensures out[j] == ds[j]
    ensures Backing(ds, out[j := Backed(ds[j], l, Has(ds[j + 1..e], Delete), Has(ds[j + 1..e], Insert))], j, e, l)
    ensures Has(ds[j..e], Delete) == (ds[j].op == Delete || Has(ds[j + 1..e], Delete))
    ensures Has(ds[j..e], Insert) == (ds[j].op == Insert || Has(ds[j + 1..e], Insert))
    ensures out[j := out[j]] == out
  {}

  /** `l` goes after the last deletion and insertion of the group before `end`. */
  method AppendInGroup(ds: seq<Diff>, end: nat, l: CodeUnit) returns (out: seq<Diff>, sawDel: bool, sawIns: bool)
    requires end <= |ds|
    ensures var s := GroupStart(ds, end);
            && out == ds[..s] + PushBack(ds[s..end], l, false, false) + ds[end..]
            && sawDel == Has(ds[s..end], Delete) && sawIns == Has(ds[s..end], Insert)
  {
    out := ds;
    var j: int := end - 1;
    sawDel, sawIns := false, false;
    ghost var s := GroupStart(ds, end);
    while j >= 0 && out[j].op != Equal
      invariant s - 1 <= j && Backing(ds, out, j + 1, end, l)
      invariant sawDel == Has(ds[j + 1..end], Delete) && sawIns == Has(ds[j + 1..end], Insert)
    {
      BackingStep(ds, out, j, end, l);
      if out[j].op == Delete && !sawDel {
        out := out[j := Diff(Delete, out[j].text + [l])];
        sawDel := true;
      } else if out[j].op == Insert && !sawIns {
        out := out[j := Diff(Insert, out[j].text + [l])];
        sawIns := true;
      }
      j := j - 1;
    }
    GroupStarts(ds, j + 1, end);
    BackAssembled(ds, s, end, l, out);
  }

  lemma SameGroupBack(ds: seq<Diff>, ds': seq<Diff>, i: nat)
    requires i <= |ds| && i <= |ds'| && ds[..i] == ds'[..i]
    ensures GroupStart(ds, i) == GroupStart(ds', i)
  {
    if i > 0 {
      assert ds[i - 1] == ds[..i][i - 1] == ds'[..i][i - 1] == ds'[i - 1];
      assert ds[..i - 1] == ds[..i][..i - 1] == ds'[..i][..i - 1] == ds'[..i - 1];
      SameGroupBack(ds, ds', i - 1);
    }
  }

  /** The body of pass 2 for an equality that starts low; `i'` is where the
      equality ends up. */
  method MoveLowOut(ds: seq<Diff>, i: nat) returns (out: seq<Diff>, i': nat)
    requires SnapsLow(ds, i)
    ensures out == LowSnap(ds, i)
    ensures i' == GroupStart(ds, i) + |GrowBack(ds[GroupStart(ds, i)..i], ds[i].text[0])|
    ensures i <= i' && |out| - i' == |ds| - i
  {
    var text := ds[i].text;
    var l := text[0];
    ghost var s := GroupStart(ds, i);
    ghost var g, tail := ds[s..i], [Diff(Equal, text[1..])] + ds[i + 1..];
    out := ds[i := Diff(Equal, text[1..])];
    LowFrame(ds, i);
    var sawDel, sawIns;
    out, sawDel, sawIns := AppendInGroup(out, i, l);
    ghost var head := ds[..s] + PushBack(g, l, false, false);
    i' := i;
    InsertAt(head, [Diff(Delete, [l])], tail);
    if !sawDel {
      out := out[..i'] + [Diff(Delete, [l])] + out[i'..];
      i' := i' + 1;
    }
    head := head + Missing(g, Delete, l);
    assert out == head + tail;
    InsertAt(head, [Diff(Insert, [l])], tail);
    if !sawIns {
      out := out[..i'] + [Diff(Insert, [l])] + out[i'..];
      i' := i' + 1;
    }
    GrowBackFrame(ds[..s], PushBack(g, l, false, false), Missing(g, Delete, l), Missing(g, Insert, l),
        Diff(Equal, text[1..]), ds[i + 1..]);
  }

  lemma LowFrame(ds: seq<Diff>, i: nat)
    requires SnapsLow(ds, i)
    ensures var out := ds[i := Diff(Equal, ds[i].text[1..])]; var s := GroupStart(ds, i);
            && GroupStart(out, i) == s && out[..s] == ds[..s] && out[s..i] == ds[s..i]
            && out[i..] == [Diff(Equal, ds[i].text[1..])] + ds[i + 1..]
  {
    SameGroupBack(ds, ds[i := Diff(Equal, ds[i].text[1..])], i);
  }

  lemma InsertAt(head: seq<Diff>, x: seq<Diff>, tail: seq<Diff>)
    ensures (head + tail)[..|head|] + x + (head + tail)[|head|..] == head + x + tail
    ensures head + tail == head + [] + tail
  {}

  lemma GrowBackFrame(a: seq<Diff>, g: seq<Diff>, del: seq<Diff>, ins: seq<Diff>, x: Diff, tail: seq<Diff>)
    ensures a + g + del + ins + ([x] + tail) == a + (g + del + ins) + [x] + tail
  {}

  // ── The merge ──────────────────────────────────────────

  /** No empty segment and no two neighbours with one op. */
  ghost predicate Tidy(ds: seq<Diff>) {
    && (forall k :: 0 <= k < |ds| ==> ds[k].text != [])
    && (forall k :: 0 <= k < |ds| - 1 ==> ds[k].op != ds[k + 1].op)
  }

  ghost predicate AllSafe(ds: seq<Diff>) {
    forall k :: 0 <= k < |ds| ==> Safe(ds[k].text)
  }

  /** `merged` after one more segment. */
  function Absorb(merged: seq<Diff>, d: Diff): seq<Diff> {
    if d.text == [] then merged
    else if merged != [] && merged[|merged| - 1].op == d.op then
      merged[|merged| - 1 := Diff(d.op, merged[|merged| - 1].text + d.text)]
    else merged + [d]
  }

  lemma {:induction false} JoinLastSide(rest: seq<Diff>, last: Diff, t: Text, skip: Op)
    ensures Side(rest + [Diff(last.op, last.text + t)], skip) == Side(rest + [last], skip)
        + Part(Diff(last.op, t), skip)
  {
    SideSnoc(rest, Diff(last.op, last.text + t), skip);
    SideSnoc(rest, last, skip);
    assert Side(rest, skip) + (last.text + t) == Side(rest, skip) + last.text + t;
  }

  lemma {:induction false} AbsorbSide(merged: seq<Diff>, d: Diff, skip: Op)
    ensures Side(Absorb(merged, d), skip) == Side(merged, skip) + Part(d, skip)
  {
    if d.text != [] {
      if merged != [] && merged[|merged| - 1].op == d.op {
        var last := merged[|merged| - 1];
        var rest := merged[..|merged| - 1];
        assert merged == rest + [last];
        assert Absorb(merged, d) == rest + [Diff(d.op, last.text + d.text)];
        JoinLastSide(rest, last, d.text, skip);
      } else {
        SideSnoc(merged, d, skip);
      }
    }
  }

  lemma AbsorbTidy(merged: seq<Diff>, d: Diff)
    requires Tidy(merged)
    ensures Tidy(Absorb(merged, d))
  {
    var r := Absorb(merged, d);
    assert forall k :: 0 <= k < |merged| - 1 ==> r[k] == merged[k];
  }

  lemma AbsorbSafe(merged: seq<Diff>, d: Diff)
    requires AllSafe(merged) && Safe(d.text)
    ensures AllSafe(Absorb(merged, d))
  {
    var r := Absorb(merged, d);
    assert forall k :: 0 <= k < |merged| - 1 ==> r[k] == merged[k];
  }

  lemma {:induction false} AbsorbNext(merged: seq<Diff>, ds: seq<Diff>, n: nat)
    requires n < |ds| && forall skip :: Side(merged, skip) == Side(ds[..n], skip)
    ensures forall skip :: Side(Absorb(merged, ds[n]), skip) == Side(ds[..n + 1], skip)
  {
    assert ds[..n + 1] == ds[..n] + [ds[n]];
    forall skip ensures Side(Absorb(merged, ds[n]), skip) == Side(ds[..n + 1], skip) {
      AbsorbSide(merged, ds[n], skip);
      SideSnoc(ds[..n], ds[n], skip);
    }
  }

  /** Drops emptied segments and joins neighbours with one op. */
  method MergeSegments(ds: seq<Diff>) returns (merged: seq<Diff>)
    ensures OldText(merged) == OldText(ds) && NewText(merged) == NewText(ds)
    ensures Tidy(merged)
    ensures AllSafe(ds) ==> AllSafe(merged)
    ensures Tidy(ds) ==> merged == ds
  {
    merged := [];
    for n := 0 to |ds|
      invariant forall skip :: Side(merged, skip) == Side(ds[..n], skip)
      invariant Tidy(merged)
      invariant AllSafe(ds) ==> AllSafe(merged)
      invariant Tidy(ds) ==> merged == ds[..n]
    {
      var d := ds[n];
      ghost var before := merged;
      assert ds[..n + 1] == ds[..n] + [d];
      AbsorbTidy(before, d);
      if AllSafe(ds) { AbsorbSafe(before, d); }
      if d.text != [] {
        if merged != [] && merged[|merged| - 1].op == d.op {
          merged := merged[|merged| - 1 := Diff(d.op, merged[|merged| - 1].text + d.text)];
        } else {
          merged := merged + [d];
        }
      }
      assert merged == Absorb(before, d);
      AbsorbNext(before, ds, n);
    }
    assert ds[..|ds|] == ds;
  }

  // ── The whole ──────────────────────────────────────────

  lemma SnapKeepsTexts(ds: seq<Diff>, i: nat)
    ensures SnapsHigh(ds, i) ==> OldText(HighSnap(ds, i)) == OldText(ds) && NewText(HighSnap(ds, i)) == NewText(ds)
    ensures SnapsLow(ds, i) ==> OldText(LowSnap(ds, i)) == OldText(ds) && NewText(LowSnap(ds, i)) == NewText(ds)
  {
    if SnapsHigh(ds, i) {
      HighSnapSide(ds, i, Insert);
      HighSnapSide(ds, i, Delete);
    }
    if SnapsLow(ds, i) {
      LowSnapSide(ds, i, Insert);
      LowSnapSide(ds, i, Delete);
    }
  }

  /** The diff list is one that diff-match-patch makes of two well-formed texts. */
  ghost predicate Proper(ds: seq<Diff>) {
    Canonical(ds) && TextsWellFormed(ds)
  }

  lemma EqualsAhead(ds: seq<Diff>, i: nat)
    requires i < |ds| && !SnapsHigh(ds, i)
    ensures Equals(ds[i + 1..]) <= Equals(ds[i..])
  {}

  ghost predicate SameTexts(a: seq<Diff>, b: seq<Diff>) {
    OldText(a) == OldText(b) && NewText(a) == NewText(b)
  }

  lemma HighStep(input: seq<Diff>, out: seq<Diff>, i: nat)
    requires SnapsHigh(out, i) && SameTexts(out, input) && (Proper(input) ==> HighDone(out, i))
    ensures SameTexts(HighSnap(out, i), input) && (Proper(input) ==> HighDone(HighSnap(out, i), i + 1))
  {
    SnapKeepsTexts(out, i);
    if Proper(input) {
      HighSnapInv(out, i);
    }
  }

  lemma LowStep(input: seq<Diff>, out: seq<Diff>, i: nat)
    requires SnapsLow(out, i) && SameTexts(out, input)
        && (HighDone(input, |input|) && TextsWellFormed(input) ==> LowDone(out, i))
    ensures SameTexts(LowSnap(out, i), input)
    ensures HighDone(input, |input|) && TextsWellFormed(input) ==>
              var s := GroupStart(out, i); |GrowBack(out[s..i], out[i].text[0])| == 2 && LowDone(LowSnap(out, i), s + 3)
  {
    SnapKeepsTexts(out, i);
    if HighDone(input, |input|) && TextsWellFormed(input) {
      LowSnapInv(out, i);
      LowSnapWidth(out, i);
    }
  }

  /** A segment that needs no snap. */
  lemma LowPass(input: seq<Diff>, out: seq<Diff>, i: nat)
    requires i < |out| && !(out[i].op == Equal && StartsLow(out[i].text))
    requires HighDone(input, |input|) && TextsWellFormed(input) ==> LowDone(out, i)
    ensures HighDone(input, |input|) && TextsWellFormed(input) ==> LowDone(out, i + 1)
  {}

  method SnapHighEnds(input: seq<Diff>) returns (out: seq<Diff>)
    ensures SameTexts(out, input)
    ensures Proper(input) ==> HighDone(out, |out|)
    ensures AllSafe(input) ==> out == input
  {
    out := input;
    var i := 0;
    while i < |out|
      invariant i <= |out|
      invariant SameTexts(out, input)
      invariant Proper(input) ==> HighDone(out, i)
      invariant AllSafe(input) ==> out == input
      decreases Equals(out[i..]), |out| - i
    {
      if out[i].op == Equal && EndsHigh(out[i].text) {
        HighSnapProgress(out, i);
        HighStep(input, out, i);
        out := MoveHighOut(out, i);
      } else {
        EqualsAhead(out, i);
      }
      i := i + 1;
    }
  }

  method SnapLowStarts(input: seq<Diff>) returns (out: seq<Diff>)
    ensures SameTexts(out, input)
    ensures HighDone(input, |input|) && TextsWellFormed(input) ==> LowDone(out, |out|)
    ensures AllSafe(input) ==> out == input
  {
    out := input;
    var i := 0;
    while i < |out|
      invariant i <= |out|
      invariant SameTexts(out, input)
      invariant HighDone(input, |input|) && TextsWellFormed(input) ==> LowDone(out, i)
      invariant AllSafe(input) ==> out == input
      decreases |out| - i
    {
      if out[i].op == Equal && StartsLow(out[i].text) {
        LowStep(input, out, i);
        out, i := MoveLowOut(out, i);
      } else {
        LowPass(input, out, i);
      }
      i := i + 1;
    }
  }

  lemma {:induction false} LowSnapWidth(ds: seq<Diff>, i: nat)
    requires Alternates(ds) && SnapsLow(ds, i)
    ensures |GrowBack(ds[GroupStart(ds, i)..i], ds[i].text[0])| == 2
  {
    GroupShape(ds, GroupStart(ds, i), i);
    GrowBackShape(ds[GroupStart(ds, i)..i], ds[i].text[0]);
  }

  /** Both texts are kept for every list; the result is tidy; and for a
      canonical list of well-formed texts no segment splits a surrogate pair.
      A list without split pairs comes back as it is. */
  method NormalizeSurrogateBoundaries(input: seq<Diff>) returns (merged: seq<Diff>)
    ensures OldText(merged) == OldText(input) && NewText(merged) == NewText(input)
    ensures Tidy(merged)
    ensures Proper(input) ==> forall k :: 0 <= k < |merged| ==> WellFormed(merged[k].text)
    ensures Tidy(input) && AllSafe(input) ==> merged == input
  {
    var out := SnapHighEnds(input);
    out := SnapLowStarts(out);
    if Proper(input) {
      forall k | 0 <= k < |out| ensures Safe(out[k].text) {
        BothDoneSafe(out, k);
      }
    }
    merged := MergeSegments(out);
    if Proper(input) {
      forall k | 0 <= k < |merged| ensures WellFormed(merged[k].text) {
        SafeIsWellFormed(merged, k);
      }
    }
  }
}
