/** Why no segment splits a surrogate pair after both passes of
    `normalizeSurrogateBoundaries` (src/history/diff-engine.ts): pass 1 leaves
    no equality that ends high and pass 2 none that starts low, an equality
    emptied on the way is flanked by a deletion and an insertion that decide
    what its neighbours start or end with, and deletions and insertions are
    cut only where an equality begins or ends. */
module SurrogateNormalize {
  import opened Utf16
  import opened SurrogateDiff

  // ── Shape of one snap on an alternating list ───────────

  predicate BothOps(p: Diff, q: Diff) {
    p.op != q.op && p.op != Equal && q.op != Equal
  }

  /** Segment `k` is an equality followed by a deletion and an insertion that
      both start high. */
  predicate Followed(ds: seq<Diff>, k: nat) {
    k + 2 < |ds| && BothOps(ds[k + 1], ds[k + 2]) && StartsHigh(ds[k + 1].text) && StartsHigh(ds[k + 2].text)
  }

  predicate Preceded(ds: seq<Diff>, k: nat) {
    2 <= k < |ds| && BothOps(ds[k - 1], ds[k - 2]) && EndsLow(ds[k - 1].text) && EndsLow(ds[k - 2].text)
  }

  lemma GroupShape(ds: seq<Diff>, a: nat, b: nat)
    requires Alternates(ds) && a <= b <= |ds| && NoEqual(ds[a..b])
    ensures b <= a + 2 && (b == a + 2 ==> BothOps(ds[a], ds[a + 1]))
  {
    var g := ds[a..b];
    if a + 2 < |ds| {
      assert ds[a].op == Equal || ds[a + 1].op == Equal || ds[a + 2].op == Equal;
    }
    assert forall k :: a <= k < b ==> ds[k] == g[k - a] && ds[k].op != Equal;
  }

  lemma GrowFrontShape(g: seq<Diff>, h: CodeUnit)
    requires NoEqual(g) && |g| <= 2 && (|g| == 2 ==> BothOps(g[0], g[1]))
    ensures var r := GrowFront(g, h);
            |r| == 2 && BothOps(r[0], r[1]) && r[0].text != [] && r[1].text != [] && r[0].text[0] == h
                && r[1].text[0] == h
  {
    if |g| == 0 {
      assert GrowFront(g, h) == [Diff(Delete, [h]), Diff(Insert, [h])];
    } else if |g| == 1 {
      assert PushFront(g[1..], h, true, false) == [] == PushFront(g[1..], h, false, true);
      assert Has(g, g[0].op);
    } else {
      assert g[1..][1..] == [];
      assert Has(g, g[0].op) && Has(g, g[1].op);
      assert GrowFront(g, h) == PushFront(g, h, false, false);
      assert PushFront(g, h, false, false) == [Diff(g[0].op, [h] + g[0].text), Diff(g[1].op, [h] + g[1].text)];
    }
  }

  lemma GrowBackShape(g: seq<Diff>, l: CodeUnit)
    requires NoEqual(g) && |g| <= 2 && (|g| == 2 ==> BothOps(g[0], g[1]))
    ensures var r := GrowBack(g, l);
            |r| == 2 && BothOps(r[0], r[1])
            && r[0].text != [] && r[1].text != [] && r[0].text[|r[0].text| - 1] == l && r[1].text[|r[1].text| - 1] == l
            && (|g| == 2 ==> r[0].text == g[0].text + [l] && r[1].text == g[1].text + [l])
  {
    if |g| == 0 {
      assert GrowBack(g, l) == [Diff(Delete, [l]), Diff(Insert, [l])];
    } else if |g| == 1 {
      assert PushBack(g[..0], l, true, false) == [] == PushBack(g[..0], l, false, true);
      assert Has(g, g[0].op);
    } else {
      assert g[..1][..0] == [];
      assert Has(g, g[0].op) && Has(g, g[1].op);
      assert GrowBack(g, l) == PushBack(g, l, false, false);
      assert PushBack(g, l, false, false) == [Diff(g[0].op, g[0].text + [l]), Diff(g[1].op, g[1].text + [l])];
    }
  }

  // ── No pair of equal surrogates inside a segment ───────

  lemma SegmentInSide(ds: seq<Diff>, k: nat, skip: Op)
    requires k < |ds| && ds[k].op != skip
    ensures Side(ds, skip) == Side(ds[..k], skip) + ds[k].text + Side(ds[k + 1..], skip)
  {
    assert ds == ds[..k] + [ds[k]] + ds[k + 1..];
    SideThree(ds[..k], [ds[k]], ds[k + 1..], skip);
    SideOne(ds[k], skip);
  }

  /** Both texts of the list are well-formed. */
  ghost predicate TextsWellFormed(ds: seq<Diff>) {
    WellFormed(OldText(ds)) && WellFormed(NewText(ds))
  }

  /** The side a segment contributes to (either one, for an equality). */
  function SideOf(op: Op): Op {
    if op == Insert then Delete else Insert
  }

  lemma InfixPairs(a: Text, t: Text, b: Text, i: nat)
    requires WellFormed(a + t + b) && i + 1 < |t|
    ensures IsHigh(t[i]) <==> IsLow(t[i + 1])
  {
    var whole := a + t + b;
    assert whole[|a| + i] == t[i] && whole[|a| + i + 1] == t[i + 1];
  }

  /** Inside a segment the surrogates pair up. */
  lemma SegmentPairs(ds: seq<Diff>, k: nat, i: nat)
    requires TextsWellFormed(ds) && k < |ds| && i + 1 < |ds[k].text|
    ensures IsHigh(ds[k].text[i]) <==> IsLow(ds[k].text[i + 1])
  {
    var skip := SideOf(ds[k].op);
    SegmentInSide(ds, k, skip);
    InfixPairs(Side(ds[..k], skip), ds[k].text, Side(ds[k + 1..], skip), i);
  }

  /** A segment that neither starts low nor ends high splits no pair. */
  predicate Safe(t: Text) {
    !StartsLow(t) && !EndsHigh(t)
  }

  lemma SafeIsWellFormed(ds: seq<Diff>, k: nat)
    requires TextsWellFormed(ds) && k < |ds| && Safe(ds[k].text)
    ensures WellFormed(ds[k].text)
  {
    var t := ds[k].text;
    forall i | 0 <= i < |t|
      ensures (IsHigh(t[i]) ==> i + 1 < |t| && IsLow(t[i + 1])) && (IsLow(t[i]) ==> i > 0 && IsHigh(t[i - 1]))
    {
      if i + 1 < |t| { SegmentPairs(ds, k, i); }
      if i > 0 { SegmentPairs(ds, k, i - 1); }
    }
  }

  // ── Invariants of the two passes ───────────────────────

  ghost predicate ChangesNonEmpty(ds: seq<Diff>) {
    forall k :: 0 <= k < |ds| && ds[k].op != Equal ==> ds[k].text != []
  }

  /** Pass 1 before step `i`. */
  ghost predicate HighDone(ds: seq<Diff>, i: nat) {
    && Alternates(ds) && ChangesNonEmpty(ds)
    && (forall k :: 0 <= k < |ds| && k < i && ds[k].op == Equal ==> !EndsHigh(ds[k].text))
    && (forall k :: 0 <= k < |ds| && ds[k].op == Equal && ds[k].text == [] ==> Followed(ds, k))
  }

  /** Pass 2 before step `i`. */
  ghost predicate LowDone(ds: seq<Diff>, i: nat) {
    && Alternates(ds) && ChangesNonEmpty(ds)
    && (forall k :: 0 <= k < |ds| && ds[k].op == Equal ==> !EndsHigh(ds[k].text))
    && (forall k :: 0 <= k < |ds| && k < i && ds[k].op == Equal ==> !StartsLow(ds[k].text))
    && (forall k :: 0 <= k < |ds| && ds[k].op == Equal && ds[k].text == [] ==> Followed(ds, k) || Preceded(ds, k))
  }

  /** `r` is `ds` with `ds[i..e]` replaced by three segments. */
  ghost predicate Splice(ds: seq<Diff>, i: nat, e: nat, r: seq<Diff>) {
    && i <= e <= |ds| && |r| == i + 3 + (|ds| - e)
    && (forall k :: 0 <= k < i ==> r[k] == ds[k])
    && (forall k :: i + 3 <= k < |r| ==> r[k] == ds[e + (k - i - 3)])
  }

  lemma SpliceOf(ds: seq<Diff>, i: nat, e: nat, x: Diff, y: Diff, z: Diff)
    requires i <= e <= |ds|
    ensures var r := ds[..i] + [x, y, z] + ds[e..];
            Splice(ds, i, e, r) && r[i] == x && r[i + 1] == y && r[i + 2] == z
  {}

  lemma HighSnapShape(ds: seq<Diff>, i: nat)
    requires Alternates(ds) && SnapsHigh(ds, i)
    ensures var e := GroupEnd(ds, i + 1); var r := HighSnap(ds, i);
            && e <= i + 3 && Splice(ds, i, e, r)
            && r[i] == Diff(Equal, Front(ds[i].text)) && BothOps(r[i + 1], r[i + 2])
            && StartsHigh(r[i + 1].text) && StartsHigh(r[i + 2].text)
  {
    var e := GroupEnd(ds, i + 1);
    var t := ds[i].text;
    var g := ds[i + 1..e];
    GroupShape(ds, i + 1, e);
    GrowFrontShape(g, t[|t| - 1]);
    var m := GrowFront(g, t[|t| - 1]);
    Three(ds[..i], Diff(Equal, Front(t)), m, ds[e..]);
    SpliceOf(ds, i, e, Diff(Equal, Front(t)), m[0], m[1]);
  }

  lemma Three(a: seq<Diff>, x: Diff, m: seq<Diff>, d: seq<Diff>)
    requires |m| == 2
    ensures a + [x] + m + d == a + [x, m[0], m[1]] + d
    ensures a + m + [x] + d == a + [m[0], m[1], x] + d
  {}

  /** The two segments that stand before the shortened equality. */
  lemma LowSnapParts(ds: seq<Diff>, i: nat) returns (p: Diff, q: Diff)
    requires Alternates(ds) && SnapsLow(ds, i)
    ensures var s := GroupStart(ds, i);
            && i <= s + 2 && LowSnap(ds, i) == ds[..s] + [p, q, Diff(Equal, ds[i].text[1..])] + ds[i + 1..]
            && BothOps(p, q) && EndsLow(p.text) && EndsLow(q.text)
            && (i == s + 2 && StartsHigh(ds[s].text) && StartsHigh(ds[s + 1].text) ==>
                StartsHigh(p.text) && StartsHigh(q.text))
  {
    var s := GroupStart(ds, i);
    var t := ds[i].text;
    var g := ds[s..i];
    GroupShape(ds, s, i);
    assert |g| == 2 ==> g[0] == ds[s] && g[1] == ds[s + 1];
    GrowBackShape(g, t[0]);
    var m := GrowBack(g, t[0]);
    p, q := m[0], m[1];
    Three(ds[..s], Diff(Equal, t[1..]), m, ds[i + 1..]);
  }

  lemma LowSnapShape(ds: seq<Diff>, i: nat)
    requires Alternates(ds) && SnapsLow(ds, i)
    ensures var s := GroupStart(ds, i); var r := LowSnap(ds, i);
            && i <= s + 2 && Splice(ds, s, i + 1, r)
            && r[s + 2] == Diff(Equal, ds[i].text[1..]) && BothOps(r[s], r[s + 1])
            && EndsLow(r[s].text) && EndsLow(r[s + 1].text)
            && (i == s + 2 && StartsHigh(ds[s].text) && StartsHigh(ds[s + 1].text) ==>
                StartsHigh(r[s].text) && StartsHigh(r[s + 1].text))
  {
    var p, q := LowSnapParts(ds, i);
    SpliceOf(ds, GroupStart(ds, i), i + 1, p, q, Diff(Equal, ds[i].text[1..]));
  }

  /** The new segments fit between their neighbours. */
  lemma SpliceAlternates(ds: seq<Diff>, i: nat, e: nat, r: seq<Diff>)
    requires Alternates(ds) && Splice(ds, i, e, r)
    requires r[i].op == Equal || r[i + 2].op == Equal
    requires r[i].op != r[i + 1].op && r[i + 1].op != r[i + 2].op
    requires i > 0 ==> (r[i].op == Equal) != (r[i - 1].op == Equal)
    requires i + 3 < |r| ==> (r[i + 2].op == Equal) != (r[i + 3].op == Equal)
    ensures Alternates(r)
  {
    forall k | 0 <= k < |r| - 1 ensures r[k].op != r[k + 1].op {
      if k >= i + 3 {
        var k' := e + (k - i - 3);
        assert r[k] == ds[k'] && r[k + 1] == ds[k' + 1];
      }
    }
    forall k | 0 <= k < |r| - 2 ensures r[k].op == Equal || r[k + 1].op == Equal || r[k + 2].op == Equal {
      if k >= i + 3 {
        var k' := e + (k - i - 3);
        assert r[k] == ds[k'] && r[k + 1] == ds[k' + 1] && r[k + 2] == ds[k' + 2];
      }
    }
  }

  lemma HighSnapInv(ds: seq<Diff>, i: nat)
    requires HighDone(ds, i) && SnapsHigh(ds, i) && TextsWellFormed(ds)
    ensures HighDone(HighSnap(ds, i), i + 1)
  {
    var r := HighSnap(ds, i);
    HighSnapShape(ds, i);
    if |ds[i].text| > 1 {
      SegmentPairs(ds, i, |ds[i].text| - 2);
    }
    HighSpliceInv(ds, i, GroupEnd(ds, i + 1), r);
  }

  lemma HighSpliceInv(ds: seq<Diff>, i: nat, e: nat, r: seq<Diff>)
    requires HighDone(ds, i) && i < e && Splice(ds, i, e, r)
    requires ds[i].op == Equal && (e < |ds| ==> ds[e].op == Equal)
    requires r[i].op == Equal && !EndsHigh(r[i].text)
    requires BothOps(r[i + 1], r[i + 2]) && StartsHigh(r[i + 1].text) && StartsHigh(r[i + 2].text)
    ensures HighDone(r, i + 1)
  {
    if i > 0 {
      assert ds[i - 1].op != ds[i].op;
    }
    SpliceAlternates(ds, i, e, r);
    forall k | 0 <= k < |r| && r[k].op == Equal && r[k].text == [] ensures Followed(r, k) {
    }
  }

  lemma RestIsSafe(ds: seq<Diff>, i: nat)
    requires SnapsLow(ds, i) && TextsWellFormed(ds) && !EndsHigh(ds[i].text)
    ensures Safe(ds[i].text[1..])
  {
    if |ds[i].text| > 1 {
      SegmentPairs(ds, i, 0);
    }
  }

  lemma LowSnapInv(ds: seq<Diff>, i: nat)
    requires LowDone(ds, i) && SnapsLow(ds, i) && TextsWellFormed(ds)
    ensures LowDone(LowSnap(ds, i), GroupStart(ds, i) + 3)
  {
    var s := GroupStart(ds, i);
    var r := LowSnap(ds, i);
    LowSnapShape(ds, i);
    RestIsSafe(ds, i);
    LowSpliceInv(ds, s, i, r);
  }

  lemma {:induction false} LowSpliceInv(ds: seq<Diff>, s: nat, i: nat, r: seq<Diff>)
    requires LowDone(ds, i) && i < |ds| && s <= i <= s + 2 && Splice(ds, s, i + 1, r)
    requires ds[i].op == Equal && (s > 0 ==> ds[s - 1].op == Equal) && (forall k :: s <= k < i ==> ds[k].op != Equal)
    requires r[s + 2].op == Equal && !EndsHigh(r[s + 2].text) && !StartsLow(r[s + 2].text)
    requires BothOps(r[s], r[s + 1]) && EndsLow(r[s].text) && EndsLow(r[s + 1].text)
    requires i == s + 2 && StartsHigh(ds[s].text) && StartsHigh(ds[s + 1].text) ==>
        StartsHigh(r[s].text) && StartsHigh(r[s + 1].text)
    ensures LowDone(r, s + 3)
  {
    if i + 1 < |ds| {
      assert ds[i].op != ds[i + 1].op;
      assert r[s + 3] == ds[i + 1];
    }
    SpliceAlternates(ds, s, i + 1, r);
    LowSpliceEdges(ds, s, i, r);
    forall k | 0 <= k < |r| && r[k].op == Equal && r[k].text == [] ensures Followed(r, k) || Preceded(r, k) {
      LowSpliceEmpty(ds, s, i, r, k);
    }
  }

  lemma LowSpliceEdges(ds: seq<Diff>, s: nat, i: nat, r: seq<Diff>)
    requires LowDone(ds, i) && i < |ds| && s <= i && Splice(ds, s, i + 1, r)
    requires r[s + 2].op == Equal && !EndsHigh(r[s + 2].text) && !StartsLow(r[s + 2].text)
    requires BothOps(r[s], r[s + 1]) && EndsLow(r[s].text) && EndsLow(r[s + 1].text)
    ensures ChangesNonEmpty(r)
    ensures forall k :: 0 <= k < |r| && r[k].op == Equal ==> !EndsHigh(r[k].text)
    ensures forall k :: 0 <= k < s + 3 && r[k].op == Equal ==> !StartsLow(r[k].text)
  {
  }

  /** An empty equality before the splice. */
  lemma LowSpliceBefore(ds: seq<Diff>, s: nat, i: nat, r: seq<Diff>, k: nat)
    requires i < |ds| && s <= i <= s + 2 && Splice(ds, s, i + 1, r) && k < s && k < |r|
    requires Followed(ds, k) || Preceded(ds, k)
    requires ds[i].op == Equal && (s > 0 ==> ds[s - 1].op == Equal)
    requires BothOps(r[s], r[s + 1]) && EndsLow(r[s].text) && EndsLow(r[s + 1].text)
    requires i == s + 2 && StartsHigh(ds[s].text) && StartsHigh(ds[s + 1].text) ==>
        StartsHigh(r[s].text) && StartsHigh(r[s + 1].text)
    ensures Followed(r, k) || Preceded(r, k)
  {
    assert forall m :: 0 <= m < s ==> r[m] == ds[m];
  }

  /** An empty equality that the splice puts in place, or one after it. */
  lemma LowSpliceAfter(ds: seq<Diff>, s: nat, i: nat, r: seq<Diff>, k: nat)
    requires i < |ds| && s <= i <= s + 2 && Splice(ds, s, i + 1, r) && s + 3 <= k < |r|
    requires var k' := i + 1 + (k - s - 3); k' < |ds| && (Followed(ds, k') || Preceded(ds, k'))
    requires ds[i].op == Equal && r[s + 2].op == Equal
    ensures Followed(r, k) || Preceded(r, k)
  {
    assert forall m :: s + 3 <= m < |r| ==> r[m] == ds[i + 1 + (m - s - 3)];
  }

  lemma LowSpliceEmpty(ds: seq<Diff>, s: nat, i: nat, r: seq<Diff>, k: nat)
    requires i < |ds| && s <= i <= s + 2 && Splice(ds, s, i + 1, r)
    requires forall k :: 0 <= k < |ds| && ds[k].op == Equal && ds[k].text == [] ==> Followed(ds, k) || Preceded(ds, k)
    requires ds[i].op == Equal && (s > 0 ==> ds[s - 1].op == Equal)
    requires r[s + 2].op == Equal
    requires BothOps(r[s], r[s + 1]) && EndsLow(r[s].text) && EndsLow(r[s + 1].text)
    requires i == s + 2 && StartsHigh(ds[s].text) && StartsHigh(ds[s + 1].text) ==>
        StartsHigh(r[s].text) && StartsHigh(r[s + 1].text)
    requires k < |r| && r[k].op == Equal && r[k].text == []
    ensures Followed(r, k) || Preceded(r, k)
  {
    if k < s {
      assert ds[k] == r[k];
      LowSpliceBefore(ds, s, i, r, k);
    } else if k >= s + 3 {
      assert ds[i + 1 + (k - s - 3)] == r[k];
      LowSpliceAfter(ds, s, i, r, k);
    }
  }

  // ── After both passes ──────────────────────────────────

  /** The last segment that gives side `skip` of the first `n` a unit. */
  lemma {:induction false} LastKept(ds: seq<Diff>, n: nat, skip: Op) returns (m: nat)
    requires n <= |ds| && Side(ds[..n], skip) != []
    ensures m < n && ds[m].op != skip && ds[m].text != []
    ensures ds[m].text[|ds[m].text| - 1] == Side(ds[..n], skip)[|Side(ds[..n], skip)| - 1]
    ensures forall x :: m < x < n ==> ds[x].op == skip || ds[x].text == []
  {
    assert ds[..n][..n - 1] == ds[..n - 1];
    var d := ds[n - 1];
    if d.op != skip && d.text != [] {
      m := n - 1;
    } else {
      m := LastKept(ds, n - 1, skip);
    }
  }

  /** The first segment that gives side `skip` of `ds[n..]` a unit. */
  lemma {:induction false} FirstKept(ds: seq<Diff>, n: nat, skip: Op) returns (m: nat)
    requires n <= |ds| && Side(ds[n..], skip) != []
    ensures n <= m < |ds| && ds[m].op != skip && ds[m].text != []
    ensures ds[m].text[0] == Side(ds[n..], skip)[0]
    decreases |ds| - n
  {
    var d := ds[n];
    assert ds[n..] == [d] + ds[n + 1..];
    SideCons(d, ds[n + 1..], skip);
    if d.op != skip && d.text != [] {
      m := n;
    } else {
      m := FirstKept(ds, n + 1, skip);
    }
  }

  lemma JoinPair(a: Text, t: Text, b: Text)
    requires WellFormed(a + t + b) && t != []
    ensures StartsLow(t) ==> EndsHigh(a)
    ensures EndsHigh(t) ==> StartsLow(b)
  {
    var whole := a + t + b;
    var j := |a| + |t| - 1;
    assert IsLow(whole[|a|]) ==> |a| > 0 && IsHigh(whole[|a| - 1]);
    assert IsHigh(whole[j]) ==> j + 1 < |whole| && IsLow(whole[j + 1]);
    assert whole[|a|] == t[0] && whole[j] == t[|t| - 1];
    assert |b| > 0 ==> whole[j + 1] == b[0];
    assert |a| > 0 ==> whole[|a| - 1] == a[|a| - 1];
  }

  /** Between two segments of one op lies an equality, one or two places on. */
  lemma EqualBetween(ds: seq<Diff>, m: nat, k: nat) returns (e: nat)
    requires Alternates(ds) && m < k < |ds| && ds[m].op == ds[k].op != Equal
    ensures m < e < k && e <= m + 2 && ds[e].op == Equal
  {
    assert ds[m].op != ds[m + 1].op;
    if ds[m + 1].op == Equal {
      e := m + 1;
    } else {
      assert m + 1 < k;
      assert ds[m + 1].op != ds[m + 2].op;
      assert ds[m].op == Equal || ds[m + 1].op == Equal || ds[m + 2].op == Equal;
      e := m + 2;
    }
  }

  lemma NoLowStart(ds: seq<Diff>, k: nat)
    requires LowDone(ds, |ds|) && TextsWellFormed(ds) && k < |ds|
    ensures !StartsLow(ds[k].text)
  {
    var op, t := ds[k].op, ds[k].text;
    if op != Equal && StartsLow(t) {
      var skip := SideOf(op);
      SegmentInSide(ds, k, skip);
      JoinPair(Side(ds[..k], skip), t, Side(ds[k + 1..], skip));
      var m := LastKept(ds, k, skip);
      assert EndsHigh(ds[m].text);
      assert ds[m].op == op;
      var e := EqualBetween(ds, m, k);
      assert ds[e].text == [];
      EmptyEqualDecides(ds, m, e, k);
    }
  }

  /** An emptied equality between a segment that ends high and one of the
      same op that starts low would contradict its neighbours. */
  lemma EmptyEqualDecides(ds: seq<Diff>, m: nat, e: nat, k: nat)
    requires LowDone(ds, |ds|) && m < e < k < |ds| && ds[m].op == ds[k].op != Equal
    requires ds[e].op == Equal && ds[e].text == []
    requires forall x :: m < x < k ==> ds[x].op == SideOf(ds[k].op) || ds[x].text == []
    requires EndsHigh(ds[m].text)
    ensures !StartsLow(ds[k].text)
  {
    assert Followed(ds, e) || Preceded(ds, e);
    if Followed(ds, e) {
      assert ds[e + 1].op == ds[k].op || ds[e + 2].op == ds[k].op;
      assert k == e + 1 || k == e + 2;
    }
  }

  /** After both passes no segment starts low or ends high. */
  lemma BothDoneSafe(ds: seq<Diff>, k: nat)
    requires LowDone(ds, |ds|) && TextsWellFormed(ds) && k < |ds|
    ensures Safe(ds[k].text)
  {
    NoLowStart(ds, k);
    var op, t := ds[k].op, ds[k].text;
    if op != Equal && EndsHigh(t) {
      var skip := SideOf(op);
      SegmentInSide(ds, k, skip);
      JoinPair(Side(ds[..k], skip), t, Side(ds[k + 1..], skip));
      var m := FirstKept(ds, k + 1, skip);
      NoLowStart(ds, m);
      assert false;
    }
  }
}
