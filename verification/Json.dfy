/** JSON values as src/sync/config-merge.ts walks them, and the equality it
    compares them with. */
module Json {
  import opened Utf16
  import opened Sequences

  /** An object is the order of its own keys and the value of each key. */
  datatype Json =
    | Null
    | Bool(b: bool)
    | Num(n: real)
    | Str(s: Text)
    | Arr(elems: seq<Json>)
    | Obj(keys: seq<Text>, vals: map<Text, Json>)

  /** A position that may be absent (the source's MISSING). */
  datatype Slot = Missing | Val(v: Json)

  /** Every JavaScript object lists each own key once. */
  ghost predicate Wf(j: Json) {
    match j
    case Arr(xs) => forall i :: 0 <= i < |xs| ==> Wf(xs[i])
    case Obj(ks, vs) =>
      && NoDup(ks)
      && (forall k :: k in ks <==> k in vs)
      && forall k :: k in vs ==> Wf(vs[k])
    case _ => true
  }

  ghost predicate WfSlot(s: Slot) {
    s.Val? ==> Wf(s.v)
  }

  predicate IsObj(s: Slot) {
    s.Val? && s.v.Obj?
  }

  const EMPTY: Json := Obj([], map[])

  function SlotOf(s: Slot, key: Text): Slot {
    if IsObj(s) && key in s.v.vals then Val(s.v.vals[key]) else Missing
  }

  /** `slotAt`: the position reached by following `tokens`. */
  function At(s: Slot, tokens: seq<Text>): Slot
    decreases |tokens|
  {
    if tokens == [] then s else At(SlotOf(s, tokens[0]), tokens[1..])
  }

  /** `jsonEqual`: key order is ignored, array order is not. */
  predicate JsonEqual(a: Json, b: Json) {
    match a
    case Arr(xs) =>
      b.Arr? && |xs| == |b.elems| && forall i :: 0 <= i < |xs| ==> JsonEqual(xs[i], b.elems[i])
    case Obj(_, vs) =>
      b.Obj? && |vs| == |b.vals| && forall k :: k in vs ==> k in b.vals && JsonEqual(vs[k], b.vals[k])
    case _ => a == b
  }

  predicate SlotEqual(a: Slot, b: Slot) {
    if a.Val? && b.Val? then JsonEqual(a.v, b.v) else a == b
  }

  // ── What equality means ────────────────────────────────

  /** The value with every key order forgotten. */
  function Content(j: Json): Json {
    match j
    case Arr(xs) => Arr(seq(|xs|, i requires 0 <= i < |xs| => Content(xs[i])))
    case Obj(_, vs) => Obj([], map k | k in vs :: Content(vs[k]))
    case _ => j
  }

  function SlotContent(s: Slot): Slot {
    if s.Val? then Val(Content(s.v)) else Missing
  }

  lemma SameKeys<K, V, W>(a: map<K, V>, b: map<K, W>)
    requires |a| == |b| && forall k :: k in a ==> k in b
    ensures a.Keys == b.Keys
  {
    assert |a.Keys| == |a| && |b.Keys| == |b|;
    assert a.Keys <= b.Keys;
    if exists k :: k in b && k !in a {
      var k :| k in b && k !in a;
      SubsetSize(a.Keys, b.Keys - {k});
    }
  }

  /** `jsonEqual` is equality of content; so it is an equivalence. */
  lemma {:induction false} EqualIsContent(a: Json, b: Json)
    ensures JsonEqual(a, b) <==> Content(a) == Content(b)
    decreases a
  {
    match a
    case Arr(xs) =>
      if b.Arr? && |xs| == |b.elems| {
        forall i | 0 <= i < |xs|
          ensures JsonEqual(xs[i], b.elems[i]) <==> Content(xs[i]) == Content(b.elems[i])
        {
          EqualIsContent(xs[i], b.elems[i]);
        }
        var ca, cb := Content(a).elems, Content(b).elems;
        assert |ca| == |xs| && |cb| == |b.elems|;
        assert forall i :: 0 <= i < |xs| ==> ca[i] == Content(xs[i]) && cb[i] == Content(b.elems[i]);
        assert ca == cb <==> forall i :: 0 <= i < |xs| ==> ca[i] == cb[i];
      } else if b.Arr? {
        assert |Content(a).elems| != |Content(b).elems|;
      }
    case Obj(_, vs) =>
      if b.Obj? {
        var ca, cb := Content(a).vals, Content(b).vals;
        forall k | k in vs && k in b.vals
          ensures JsonEqual(vs[k], b.vals[k]) <==> ca[k] == cb[k]
        {
          EqualIsContent(vs[k], b.vals[k]);
        }
        assert ca.Keys == vs.Keys && cb.Keys == b.vals.Keys;
        if JsonEqual(a, b) {
          SameKeys(vs, b.vals);
          assert ca == cb;
        }
        if ca == cb {
          assert vs.Keys == b.vals.Keys;
          assert |vs| == |vs.Keys| == |b.vals.Keys| == |b.vals|;
          assert forall k :: k in vs ==> ca[k] == cb[k];
        }
      }
    case _ =>
  }

  lemma SlotEqualIsContent(a: Slot, b: Slot)
    ensures SlotEqual(a, b) <==> SlotContent(a) == SlotContent(b)
  {
    if a.Val? && b.Val? {
      EqualIsContent(a.v, b.v);
    }
  }

  lemma SlotEqualEquivalence(a: Slot, b: Slot, c: Slot)
    ensures SlotEqual(a, a)
    ensures SlotEqual(a, b) <==> SlotEqual(b, a)
    ensures SlotEqual(a, b) && SlotEqual(b, c) ==> SlotEqual(a, c)
  {
    SlotEqualIsContent(a, a);
    SlotEqualIsContent(a, b);
    SlotEqualIsContent(b, a);
    SlotEqualIsContent(b, c);
    SlotEqualIsContent(a, c);
  }

  // ── Positions ──────────────────────────────────────────

  lemma SlotEqualOf(a: Slot, b: Slot, k: Text)
    requires SlotEqual(a, b)
    ensures SlotEqual(SlotOf(a, k), SlotOf(b, k))
    ensures IsObj(a) <==> IsObj(b)
  {
    if IsObj(a) {
      SameKeys(a.v.vals, b.v.vals);
    }
  }

  /** Equal values agree at every position. */
  lemma {:induction false} SlotEqualAt(a: Slot, b: Slot, p: seq<Text>)
    requires SlotEqual(a, b)
    ensures SlotEqual(At(a, p), At(b, p))
    ensures IsObj(At(a, p)) <==> IsObj(At(b, p))
    decreases |p|
  {
    if p == [] {
      SlotEqualOf(a, b, []);
    } else {
      SlotEqualOf(a, b, p[0]);
      SlotEqualAt(SlotOf(a, p[0]), SlotOf(b, p[0]), p[1..]);
    }
  }

  lemma {:induction false} AtAppend(s: Slot, p: seq<Text>, q: seq<Text>)
    ensures At(s, p + q) == At(At(s, p), q)
    decreases |p|
  {
    if p == [] {
      assert p + q == q;
    } else {
      assert (p + q)[1..] == p[1..] + q;
      AtAppend(SlotOf(s, p[0]), p[1..], q);
    }
  }

  lemma AtLast(s: Slot, p: seq<Text>, k: Text)
    ensures At(s, p + [k]) == SlotOf(At(s, p), k)
  {
    AtAppend(s, p, [k]);
    assert [k][1..] == [];
    assert At(At(s, p), [k]) == At(SlotOf(At(s, p), k), []);
  }

  lemma {:induction false} AtMissing(p: seq<Text>)
    ensures At(Missing, p) == Missing
  {
    if p != [] {
      AtMissing(p[1..]);
    }
  }

  lemma AtNotObj(s: Slot, p: seq<Text>)
    requires !IsObj(s) && p != []
    ensures At(s, p) == Missing
  {
    AtMissing(p[1..]);
  }

  /** Two objects agree when they agree at every key. */
  lemma ObjEqualByKeys(a: Slot, b: Slot)
    requires IsObj(a) && IsObj(b)
    requires forall k :: SlotEqual(SlotOf(a, k), SlotOf(b, k))
    ensures SlotEqual(a, b)
  {
    forall k
      ensures k in a.v.vals <==> k in b.v.vals
      ensures k in a.v.vals ==> JsonEqual(a.v.vals[k], b.v.vals[k])
    {
      assert SlotEqual(SlotOf(a, k), SlotOf(b, k));
    }
    assert a.v.vals.Keys == b.v.vals.Keys;
    assert |a.v.vals| == |a.v.vals.Keys|;
    assert |b.v.vals| == |b.v.vals.Keys|;
  }

  lemma {:induction false} WfAt(s: Slot, p: seq<Text>)
    requires WfSlot(s)
    ensures WfSlot(At(s, p))
    decreases |p|
  {
    if p != [] {
      WfAt(SlotOf(s, p[0]), p[1..]);
    }
  }

  /** Agreement at every position is equality: the converse of SlotEqualAt.
      At the positions where both are objects nothing more is asked. */
  lemma {:induction false} AgreeEverywhere(a: Slot, b: Slot)
    requires forall p :: SameShape(At(a, p), At(b, p))
    ensures SlotEqual(a, b)
    decreases a.Val?, if a.Val? then a.v else Null
  {
    assert SameShape(At(a, []), At(b, []));
    if IsObj(a) && IsObj(b) {
      forall k
        ensures SlotEqual(SlotOf(a, k), SlotOf(b, k))
      {
        forall p
          ensures SameShape(At(SlotOf(a, k), p), At(SlotOf(b, k), p))
        {
          assert SameShape(At(a, [k] + p), At(b, [k] + p));
          assert ([k] + p)[1..] == p;
        }
        AgreeEverywhere(SlotOf(a, k), SlotOf(b, k));
      }
      ObjEqualByKeys(a, b);
    }
  }

  /** Both objects, or equal. */
  predicate SameShape(a: Slot, b: Slot) {
    (IsObj(a) && IsObj(b)) || SlotEqual(a, b)
  }
}
