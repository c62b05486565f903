/** Diff segments snapped to code point boundaries (src/history/diff-engine.ts).
    A diff list stands for two texts; one snap moves a lone surrogate from an
    equality into the deletions and insertions beside it and leaves both texts
    as they are, whatever the list. */
module SurrogateDiff {
  import opened Utf16

  datatype Op = Delete | Insert | Equal

  datatype Diff = Diff(op: Op, text: Text)

  predicate IsHigh(c: CodeUnit) {
    0xD800 <= c <= 0xDBFF
  }

  predicate IsLow(c: CodeUnit) {
    0xDC00 <= c <= 0xDFFF
  }

  /** Section 3.9 of The Unicode Standard, D91: surrogates only in pairs. */
  predicate WellFormed(t: Text) {
    forall i :: 0 <= i < |t| ==>
      (IsHigh(t[i]) ==> i + 1 < |t| && IsLow(t[i + 1])) && (IsLow(t[i]) ==> i > 0 && IsHigh(t[i - 1]))
  }

  predicate StartsLow(t: Text) {
    t != [] && IsLow(t[0])
  }

  predicate StartsHigh(t: Text) {
    t != [] && IsHigh(t[0])
  }

  predicate EndsHigh(t: Text) {
    t != [] && IsHigh(t[|t| - 1])
  }

  predicate EndsLow(t: Text) {
    t != [] && IsLow(t[|t| - 1])
  }

  /** One of the two texts: the old one skips Insert, the new one skips Delete. */
  function Side(ds: seq<Diff>, skip: Op): Text {
    if ds == [] then []
    else Side(ds[..|ds| - 1], skip) + if ds[|ds| - 1].op == skip then [] else ds[|ds| - 1].text
  }

  function OldText(ds: seq<Diff>): Text { Side(ds, Insert) }

  function NewText(ds: seq<Diff>): Text { Side(ds, Delete) }

  /** The canonical form of diff-match-patch: no empty segment, no two
      neighbours with one op, at most one deletion and one insertion between
      two equalities. */
  ghost predicate Canonical(ds: seq<Diff>) {
    Alternates(ds) && forall k :: 0 <= k < |ds| ==> ds[k].text != []
  }

  ghost predicate Alternates(ds: seq<Diff>) {
    && (forall k :: 0 <= k < |ds| - 1 ==> ds[k].op != ds[k + 1].op)
    && (forall k :: 0 <= k < |ds| - 2 ==> ds[k].op == Equal || ds[k + 1].op == Equal || ds[k + 2].op == Equal)
  }

  lemma {:induction false} SideAppend(a: seq<Diff>, b: seq<Diff>, skip: Op)
    ensures Side(a + b, skip) == Side(a, skip) + Side(b, skip)
    decreases |b|
  {
    if b == [] {
      assert a + b == a;
    } else {
      var n := |b| - 1;
      assert (a + b)[..|a + b| - 1] == a + b[..n];
      SideAppend(a, b[..n], skip);
    }
  }

  lemma SideOne(d: Diff, skip: Op)
    ensures Side([d], skip) == if d.op == skip then [] else d.text
  {}

  // ── Groups between equalities ──────────────────────────

  predicate NoEqual(g: seq<Diff>) {
    forall k :: 0 <= k < |g| ==> g[k].op != Equal
  }

  predicate Has(g: seq<Diff>, op: Op) {
    exists k :: 0 <= k < |g| && g[k].op == op
  }

  /** `h` before the first deletion and the first insertion of a group. */
  function PushFront(g: seq<Diff>, h: CodeUnit, sawDel: bool, sawIns: bool): (r: seq<Diff>)
    ensures |r| == |g|
  {
    if g == [] then []
    else if g[0].op == Delete && !sawDel then [Diff(Delete, [h] + g[0].text)] + PushFront(g[1..], h, true, sawIns)
    else if g[0].op == Insert && !sawIns then [Diff(Insert, [h] + g[0].text)] + PushFront(g[1..], h, sawDel, true)
    else [g[0]] + PushFront(g[1..], h, sawDel, sawIns)
  }

  /** The segment for an op that a group lacks. */
  function Missing(g: seq<Diff>, op: Op, c: CodeUnit): seq<Diff> {
    if Has(g, op) then [] else [Diff(op, [c])]
  }

  lemma MissingSide(g: seq<Diff>, op: Op, c: CodeUnit, skip: Op)
    ensures Side(Missing(g, op, c), skip) == if Has(g, op) || op == skip then [] else [c]
  {}

  /** The group after an equality gave up its last unit `h`. */
  function GrowFront(g: seq<Diff>, h: CodeUnit): seq<Diff> {
    Missing(g, Delete, h) + PushFront(g, h, false, false) + Missing(g, Insert, h)
  }

  /** `l` after the last deletion and the last insertion of a group. */
  function PushBack(g: seq<Diff>, l: CodeUnit, sawDel: bool, sawIns: bool): (r: seq<Diff>)
    ensures |r| == |g|
  {
    if g == [] then []
    else
      var n := |g| - 1;
      if g[n].op == Delete && !sawDel then PushBack(g[..n], l, true, sawIns) + [Diff(Delete, g[n].text + [l])]
      else if g[n].op == Insert && !sawIns then PushBack(g[..n], l, sawDel, true) + [Diff(Insert, g[n].text + [l])]
      else PushBack(g[..n], l, sawDel, sawIns) + [g[n]]
  }

  /** The group before an equality gave up its first unit `l`. */
  function GrowBack(g: seq<Diff>, l: CodeUnit): seq<Diff> {
    PushBack(g, l, false, false) + Missing(g, Delete, l) + Missing(g, Insert, l)
  }

  lemma SideCons(d: Diff, rest: seq<Diff>, skip: Op)
    ensures Side([d] + rest, skip) == (if d.op == skip then [] else d.text) + Side(rest, skip)
  {
    SideAppend([d], rest, skip);
    SideOne(d, skip);
  }

  lemma SideFour(a: seq<Diff>, b: seq<Diff>, c: seq<Diff>, d: seq<Diff>, skip: Op)
    ensures Side(a + b + c + d, skip) == Side(a, skip) + Side(b, skip) + Side(c, skip) + Side(d, skip)
  {
    SideAppend(a + b + c, d, skip);
    SideAppend(a + b, c, skip);
    SideAppend(a, b, skip);
  }

  lemma SideThree(a: seq<Diff>, b: seq<Diff>, c: seq<Diff>, skip: Op)
    ensures Side(a + b + c, skip) == Side(a, skip) + Side(b, skip) + Side(c, skip)
  {
    SideAppend(a + b, c, skip);
    SideAppend(a, b, skip);
  }

  /** Two middle parts with the same text can be exchanged. */
  lemma {:induction false} SwapMiddle(a: seq<Diff>, b: seq<Diff>, c: seq<Diff>, b': seq<Diff>, c': seq<Diff>,
      d: seq<Diff>, skip: Op)
    requires Side(b, skip) + Side(c, skip) == Side(b', skip) + Side(c', skip)
    ensures Side(a + b + c + d, skip) == Side(a + b' + c' + d, skip)
  {
    SideFour(a, b, c, d, skip);
    SideFour(a, b', c', d, skip);
    SwapText(Side(a, skip), Side(b, skip), Side(c, skip), Side(b', skip), Side(c', skip), Side(d, skip));
  }

  lemma SwapText(a: Text, b: Text, c: Text, b': Text, c': Text, d: Text)
    requires b + c == b' + c'
    ensures a + b + c + d == a + b' + c' + d
  {
    assert a + b + c == a + (b + c);
    assert a + b' + c' == a + (b' + c');
  }

  lemma HasCons(d: Diff, rest: seq<Diff>, op: Op)
    ensures Has([d] + rest, op) <==> d.op == op || Has(rest, op)
  {
    var g := [d] + rest;
    assert g[0] == d;
    assert forall k :: 0 <= k < |rest| ==> g[k + 1] == rest[k];
  }

  lemma HasSnoc(rest: seq<Diff>, d: Diff, op: Op)
    ensures Has(rest + [d], op) <==> d.op == op || Has(rest, op)
  {
    var g := rest + [d];
    assert g[|rest|] == d;
    assert forall k :: 0 <= k < |rest| ==> g[k] == rest[k];
  }

  /** What a segment adds to side `skip`. */
  function Part(d: Diff, skip: Op): Text {
    if d.op == skip then [] else d.text
  }

  /** The op that side `skip` keeps besides Equal, and whether it was seen. */
  function Kept(skip: Op): Op {
    if skip == Insert then Delete else Insert
  }

  function SawKept(skip: Op, sawDel: bool, sawIns: bool): bool {
    if skip == Insert then sawDel else sawIns
  }

  /** The unit a group's kept side gains. */
  function Gain(g: seq<Diff>, c: CodeUnit, sawDel: bool, sawIns: bool, skip: Op): Text {
    if Has(g, Kept(skip)) && !SawKept(skip, sawDel, sawIns) then [c] else []
  }

  lemma PushFrontStep(d: Diff, rest: seq<Diff>, h: CodeUnit, sawDel: bool, sawIns: bool, skip: Op)
    requires d.op != Equal && (skip == Delete || skip == Insert)
    ensures var first := if (d.op == Delete && !sawDel) || (d.op == Insert && !sawIns) then Diff(d.op, [h] + d.text)
        else d;
            Part(first, skip) + Gain(rest, h, sawDel || d.op == Delete, sawIns || d.op == Insert, skip)
            == Gain([d] + rest, h, sawDel, sawIns, skip) + Part(d, skip)
  {
    HasCons(d, rest, Kept(skip));
  }

  lemma {:induction false} PushFrontSide(g: seq<Diff>, h: CodeUnit, sawDel: bool, sawIns: bool, skip: Op)
    requires NoEqual(g) && (skip == Delete || skip == Insert)
    ensures Side(PushFront(g, h, sawDel, sawIns), skip) == Gain(g, h, sawDel, sawIns, skip) + Side(g, skip)
    decreases |g|
  {
    if g != [] {
      var d, rest := g[0], g[1..];
      var del', ins' := sawDel || d.op == Delete, sawIns || d.op == Insert;
      var first := if (d.op == Delete && !sawDel) || (d.op == Insert && !sawIns) then Diff(d.op, [h] + d.text) else d;
      var tail := PushFront(rest, h, del', ins');
      assert PushFront(g, h, sawDel, sawIns) == [first] + tail;
      PushFrontSide(rest, h, del', ins', skip);
      SideCons(first, tail, skip);
      SideCons(d, rest, skip);
      assert g == [d] + rest;
      PushFrontStep(d, rest, h, sawDel, sawIns, skip);
      Regroup(Part(first, skip), Gain(rest, h, del', ins', skip), Side(rest, skip), Gain(g, h, sawDel, sawIns, skip),
          Part(d, skip));
    }
  }

  lemma Regroup(a: Text, b: Text, s: Text, c: Text, d: Text)
    requires a + b == c + d
    ensures a + (b + s) == c + (d + s)
  {
    assert a + (b + s) == (a + b) + s;
    assert c + (d + s) == (c + d) + s;
  }

  lemma {:induction false} NoneKept(g: seq<Diff>, skip: Op)
    requires NoEqual(g) && (skip == Delete || skip == Insert) && !Has(g, Kept(skip))
    ensures Side(g, skip) == []
    decreases |g|
  {
    if g != [] {
      var n := |g| - 1;
      assert g == g[..n] + [g[n]];
      HasSnoc(g[..n], g[n], Kept(skip));
      NoneKept(g[..n], skip);
    }
  }

  lemma {:induction false} GrowFrontSide(g: seq<Diff>, h: CodeUnit, skip: Op)
    requires NoEqual(g) && (skip == Delete || skip == Insert)
    ensures Side(GrowFront(g, h), skip) == [h] + Side(g, skip)
  {
    PushFrontSide(g, h, false, false, skip);
    SideThree(Missing(g, Delete, h), PushFront(g, h, false, false), Missing(g, Insert, h), skip);
    MissingSide(g, Delete, h, skip);
    MissingSide(g, Insert, h, skip);
    if !Has(g, Kept(skip)) {
      NoneKept(g, skip);
    }
  }

  lemma Assoc3(s: Text, a: Text, b: Text, c: Text)
    ensures s + a + b + c == s + (a + b + c)
  {}

  lemma SideSnoc(rest: seq<Diff>, d: Diff, skip: Op)
    ensures Side(rest + [d], skip) == Side(rest, skip) + if d.op == skip then [] else d.text
  {}

  lemma {:induction false} PushBackSide(g: seq<Diff>, l: CodeUnit, sawDel: bool, sawIns: bool, skip: Op)
    requires NoEqual(g) && (skip == Delete || skip == Insert)
    ensures Side(PushBack(g, l, sawDel, sawIns), skip) == Side(g, skip) + Gain(g, l, sawDel, sawIns, skip)
    decreases |g|
  {
    if g != [] {
      var n := |g| - 1;
      var d, rest := g[n], g[..n];
      var del', ins' := sawDel || d.op == Delete, sawIns || d.op == Insert;
      var last := if (d.op == Delete && !sawDel) || (d.op == Insert && !sawIns) then Diff(d.op, d.text + [l]) else d;
      var head := PushBack(rest, l, del', ins');
      assert PushBack(g, l, sawDel, sawIns) == head + [last];
      PushBackSide(rest, l, del', ins', skip);
      SideSnoc(head, last, skip);
      SideSnoc(rest, d, skip);
      assert g == rest + [d];
      PushBackStep(d, rest, l, sawDel, sawIns, skip);
      RegroupBack(Side(rest, skip), Gain(rest, l, del', ins', skip), Part(last, skip), Part(d, skip),
          Gain(g, l, sawDel, sawIns, skip));
    }
  }

  lemma PushBackStep(d: Diff, rest: seq<Diff>, l: CodeUnit, sawDel: bool, sawIns: bool, skip: Op)
    requires d.op != Equal && (skip == Delete || skip == Insert)
    ensures var last := if (d.op == Delete && !sawDel) || (d.op == Insert && !sawIns) then Diff(d.op, d.text + [l])
        else d;
            Gain(rest, l, sawDel || d.op == Delete, sawIns || d.op == Insert, skip) + Part(last, skip)
            == Part(d, skip) + Gain(rest + [d], l, sawDel, sawIns, skip)
  {
    HasSnoc(rest, d, Kept(skip));
  }

  lemma RegroupBack(s: Text, a: Text, b: Text, c: Text, d: Text)
    requires a + b == c + d
    ensures s + a + b == s + c + d
  {
    assert s + a + b == s + (a + b);
    assert s + c + d == s + (c + d);
  }

  lemma {:induction false} GrowBackSide(g: seq<Diff>, l: CodeUnit, skip: Op)
    requires NoEqual(g) && (skip == Delete || skip == Insert)
    ensures Side(GrowBack(g, l), skip) == Side(g, skip) + [l]
  {
    PushBackSide(g, l, false, false, skip);
    SideThree(PushBack(g, l, false, false), Missing(g, Delete, l), Missing(g, Insert, l), skip);
    MissingSide(g, Delete, l, skip);
    MissingSide(g, Insert, l, skip);
    Assoc3(Side(g, skip), Gain(g, l, false, false, skip), Side(Missing(g, Delete, l), skip),
        Side(Missing(g, Insert, l), skip));
    OneGain(g, l, skip);
  }

  /** A group's kept side gains the unit once: in a segment it has or a new one. */
  lemma OneGain(g: seq<Diff>, l: CodeUnit, skip: Op)
    requires skip == Delete || skip == Insert
    ensures Gain(g, l, false, false, skip) + (if Has(g, Delete) || Delete == skip then [] else [l])
        + (if Has(g, Insert) || Insert == skip then [] else [l]) == [l]
  {}

  // ── One snap ───────────────────────────────────────────

  /** The end of the group that starts at `j`. */
  function GroupEnd(ds: seq<Diff>, j: nat): (e: nat)
    requires j <= |ds|
    ensures j <= e <= |ds| && NoEqual(ds[j..e]) && (e < |ds| ==> ds[e].op == Equal)
    decreases |ds| - j
  {
    if j == |ds| || ds[j].op == Equal then j
    else
      var end := GroupEnd(ds, j + 1);
      assert ds[j..end] == [ds[j]] + ds[j + 1..end];
      end
  }

  /** The start of the group that ends before `i`. */
  function GroupStart(ds: seq<Diff>, i: nat): (s: nat)
    requires i <= |ds|
    ensures s <= i && NoEqual(ds[s..i]) && (s > 0 ==> ds[s - 1].op == Equal)
  {
    if i == 0 || ds[i - 1].op == Equal then i
    else
      var start := GroupStart(ds, i - 1);
      assert ds[start..i] == ds[start..i - 1] + [ds[i - 1]];
      start
  }

  predicate SnapsHigh(ds: seq<Diff>, i: nat) {
    i < |ds| && ds[i].op == Equal && EndsHigh(ds[i].text)
  }

  predicate SnapsLow(ds: seq<Diff>, i: nat) {
    i < |ds| && ds[i].op == Equal && StartsLow(ds[i].text)
  }

  function Front(t: Text): Text
    requires t != []
  {
    t[..|t| - 1]
  }

  /** Move the high surrogate at the end of segment `i` into its group. */
  function HighSnap(ds: seq<Diff>, i: nat): seq<Diff>
    requires SnapsHigh(ds, i)
  {
    var t := ds[i].text;
    var e := GroupEnd(ds, i + 1);
    ds[..i] + [Diff(Equal, Front(t))] + GrowFront(ds[i + 1..e], t[|t| - 1]) + ds[e..]
  }

  /** Move the low surrogate at the start of segment `i` into its group. */
  function LowSnap(ds: seq<Diff>, i: nat): seq<Diff>
    requires SnapsLow(ds, i)
  {
    var t := ds[i].text;
    var s := GroupStart(ds, i);
    ds[..s] + GrowBack(ds[s..i], t[0]) + [Diff(Equal, t[1..])] + ds[i + 1..]
  }

  lemma FrontLast(front: Text, s: Text, grown: Text, t: Text)
    requires t != [] && front == Front(t) && grown == [t[|t| - 1]] + s
    ensures t + s == front + grown
  {
  }

  lemma FirstRest(s: Text, t: Text)
    requires t != []
    ensures s + t == s + [t[0]] + t[1..]
  {}

  lemma CutThree(ds: seq<Diff>, i: nat, j: nat, e: nat)
    requires i <= j <= e <= |ds|
    ensures ds == ds[..i] + ds[i..j] + ds[j..e] + ds[e..]
  {}

  /** An equality that hands its last unit to the group after it. */
  lemma {:induction false} HandOn(t: Text, g: seq<Diff>, skip: Op)
    requires t != [] && NoEqual(g) && (skip == Delete || skip == Insert)
    ensures Side([Diff(Equal, t)], skip) + Side(g, skip)
         == Side([Diff(Equal, Front(t))], skip) + Side(GrowFront(g, t[|t| - 1]), skip)
  {
    SideOne(Diff(Equal, t), skip);
    SideOne(Diff(Equal, Front(t)), skip);
    GrowFrontSide(g, t[|t| - 1], skip);
    FrontLast(Side([Diff(Equal, Front(t))], skip), Side(g, skip), Side(GrowFront(g, t[|t| - 1]), skip), t);
  }

  /** An equality that hands its first unit to the group before it. */
  lemma {:induction false} HandBack(t: Text, g: seq<Diff>, skip: Op)
    requires t != [] && NoEqual(g) && (skip == Delete || skip == Insert)
    ensures Side(g, skip) + Side([Diff(Equal, t)], skip)
         == Side(GrowBack(g, t[0]), skip) + Side([Diff(Equal, t[1..])], skip)
  {
    SideOne(Diff(Equal, t), skip);
    SideOne(Diff(Equal, t[1..]), skip);
    GrowBackSide(g, t[0], skip);
    FirstRest(Side(g, skip), t);
  }

  lemma {:induction false} HighSnapSide(ds: seq<Diff>, i: nat, skip: Op)
    requires SnapsHigh(ds, i) && (skip == Delete || skip == Insert)
    ensures Side(HighSnap(ds, i), skip) == Side(ds, skip)
  {
    var t := ds[i].text;
    var e := GroupEnd(ds, i + 1);
    var g := ds[i + 1..e];
    HandOn(t, g, skip);
    CutThree(ds, i, i + 1, e);
    assert ds[i..i + 1] == [Diff(Equal, t)];
    SwapMiddle(ds[..i], [Diff(Equal, t)], g, [Diff(Equal, Front(t))], GrowFront(g, t[|t| - 1]), ds[e..], skip);
  }

  lemma {:induction false} LowSnapSide(ds: seq<Diff>, i: nat, skip: Op)
    requires SnapsLow(ds, i) && (skip == Delete || skip == Insert)
    ensures Side(LowSnap(ds, i), skip) == Side(ds, skip)
  {
    var t := ds[i].text;
    var s := GroupStart(ds, i);
    var g := ds[s..i];
    HandBack(t, g, skip);
    CutThree(ds, s, i, i + 1);
    assert ds[i..i + 1] == [Diff(Equal, t)];
    SwapMiddle(ds[..s], g, [Diff(Equal, t)], GrowBack(g, t[0]), [Diff(Equal, t[1..])], ds[i + 1..], skip);
  }
}
