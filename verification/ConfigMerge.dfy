/** Three-way merge of config files (src/sync/config-merge.ts). */
module ConfigMerge {
  import opened Utf16
  import opened Sequences
  import opened JsonPointer
  import opened Json

  /** What merge3 and merge2 return and append. */
  datatype MergeOut = MergeOut(slot: Slot, conflicts: seq<Text>)

  datatype NoBaseRule = RemoteFirst | LocalFirst

  datatype MergeResult = MergeResult(value: Json, conflicts: seq<Text>)

  function Filter<T(!new)>(s: seq<T>, f: T -> bool): (r: seq<T>)
    ensures forall x :: x in r <==> x in s && f(x)
    ensures NoDup(s) ==> NoDup(r)
  {
    if s == [] then []
    else
      var rest := Filter(s[1..], f);
      assert s == [s[0]] + s[1..];
      assert NoDup(s) ==> NoDup(s[1..]) && s[0] !in s[1..];
      if f(s[0]) then [s[0]] + rest else rest
  }

  function KeysOf(s: Slot): seq<Text> {
    if IsObj(s) then s.v.keys else []
  }

  /** Every key of the two slots once: those of `first` come first, each slot's own
      order is kept. */
  function OrderedKeys(first: Slot, second: Slot): seq<Text> {
    KeysOf(first) + Filter(KeysOf(second), k => k !in KeysOf(first))
  }

  /** `out[k] = v` unless `v` is MISSING, for a key not written later. */
  function Prepend(k: Text, s: Slot, o: Json): Json
    requires o.Obj?
  {
    if s.Val? then Obj([k] + o.keys, o.vals[k := s.v]) else o
  }

  // ── merge3 ─────────────────────────────────────────────

  function Merge3(base: Slot, local: Slot, remote: Slot, ptr: Text): (r: MergeOut)
    ensures local.Val? && remote.Val? ==> r.slot.Val?
    decreases local.Val?, if local.Val? then local.v else Null, 1, 0
  {
    if SlotEqual(local, remote) then MergeOut(local, [])
    else if SlotEqual(base, local) then MergeOut(remote, [])
    else if SlotEqual(base, remote) then MergeOut(local, [])
    else if IsObj(local) && IsObj(remote) then
      Merge3Keys(OrderedKeys(local, remote), if IsObj(base) then base else Missing, local, remote, ptr)
    else MergeOut(local, [ptr])
  }

  /** The loop over the ordered keys. */
  function Merge3Keys(keys: seq<Text>, base: Slot, local: Slot, remote: Slot, ptr: Text): (r: MergeOut)
    requires IsObj(local)
    ensures IsObj(r.slot)
    decreases true, local.v, 0, |keys|
  {
    if keys == [] then MergeOut(Val(EMPTY), [])
    else
      var k := keys[0];
      var h := Merge3(SlotOf(base, k), SlotOf(local, k), SlotOf(remote, k), ChildPointer(ptr, k));
      var t := Merge3Keys(keys[1..], base, local, remote, ptr);
      MergeOut(Val(Prepend(k, h.slot, t.slot.v)), h.conflicts + t.conflicts)
  }

  /** The merge of one key of two objects. */
  function Merge3Child(base: Slot, local: Slot, remote: Slot, ptr: Text, k: Text): MergeOut {
    Merge3(SlotOf(base, k), SlotOf(local, k), SlotOf(remote, k), ChildPointer(ptr, k))
  }

  lemma {:induction false} Merge3KeysField(keys: seq<Text>, base: Slot, local: Slot, remote: Slot, ptr: Text, k: Text)
    requires IsObj(local)
    ensures SlotOf(Merge3Keys(keys, base, local, remote, ptr).slot, k)
         == if k in keys then Merge3Child(base, local, remote, ptr, k).slot else Missing
    decreases |keys|
  {
    if keys != [] {
      Merge3KeysField(keys[1..], base, local, remote, ptr, k);
    }
  }

  lemma {:induction false} Merge3KeysConflicts(keys: seq<Text>, base: Slot, local: Slot, remote: Slot, ptr: Text,
      c: Text)
    requires IsObj(local)
    ensures c in Merge3Keys(keys, base, local, remote, ptr).conflicts
       <==> exists k :: k in keys && c in Merge3Child(base, local, remote, ptr, k).conflicts
    decreases |keys|
  {
    if keys != [] {
      Merge3KeysConflicts(keys[1..], base, local, remote, ptr, c);
      assert keys == [keys[0]] + keys[1..];
      assert c in Merge3Child(base, local, remote, ptr, keys[0]).conflicts ==> keys[0] in keys;
    }
  }

  lemma OrderedKeysComplete(local: Slot, remote: Slot, k: Text)
    requires WfSlot(local) && WfSlot(remote)
    ensures k in OrderedKeys(local, remote) <==> SlotOf(local, k).Val? || SlotOf(remote, k).Val?
  {}

  lemma OrderedKeysDistinct(local: Slot, remote: Slot)
    requires WfSlot(local) && WfSlot(remote)
    ensures NoDup(OrderedKeys(local, remote))
  {
    NoDupConcat(KeysOf(local), Filter(KeysOf(remote), k => k !in KeysOf(local)));
  }

  /** Both sides changed this object: the result is the object of the merged keys. */
  lemma Merge3Object(base: Slot, local: Slot, remote: Slot, ptr: Text, k: Text)
    requires WfSlot(local) && WfSlot(remote) && IsObj(local) && IsObj(remote)
    requires !SlotEqual(local, remote) && !SlotEqual(base, local) && !SlotEqual(base, remote)
    ensures IsObj(Merge3(base, local, remote, ptr).slot)
    ensures SlotOf(Merge3(base, local, remote, ptr).slot, k) == Merge3Child(base, local, remote, ptr, k).slot
  {
    var b := if IsObj(base) then base else Missing;
    assert SlotOf(b, k) == SlotOf(base, k);
    OrderedKeysComplete(local, remote, k);
    Merge3KeysField(OrderedKeys(local, remote), b, local, remote, ptr, k);
  }

  // ── Conflicts ──────────────────────────────────────────

  /** The three versions pairwise differ at `q`, the two sides are not both
      objects there, and both are objects at every ancestor. */
  ghost predicate IsConflict(base: Slot, local: Slot, remote: Slot, q: seq<Text>) {
    && !SlotEqual(At(local, q), At(remote, q))
    && !SlotEqual(At(base, q), At(local, q))
    && !SlotEqual(At(base, q), At(remote, q))
    && !(IsObj(At(local, q)) && IsObj(At(remote, q)))
    && forall i :: 0 <= i < |q| ==> IsObj(At(local, q[..i])) && IsObj(At(remote, q[..i]))
  }

  lemma IsConflictCons(base: Slot, local: Slot, remote: Slot, k: Text, q: seq<Text>)
    ensures IsConflict(base, local, remote, [k] + q)
       <==> IsObj(local) && IsObj(remote)
            && IsConflict(SlotOf(base, k), SlotOf(local, k), SlotOf(remote, k), q)
  {
    var p := [k] + q;
    assert p[1..] == q;
    forall i | 0 <= i < |q|
      ensures At(local, p[..i + 1]) == At(SlotOf(local, k), q[..i])
      ensures At(remote, p[..i + 1]) == At(SlotOf(remote, k), q[..i])
    {
      assert p[..i + 1] == [k] + q[..i];
      assert p[..i + 1][1..] == q[..i];
    }
    if IsConflict(base, local, remote, p) {
      assert At(local, p[..0]) == local && At(remote, p[..0]) == remote;
    }
    if IsObj(local) && IsObj(remote) && IsConflict(SlotOf(base, k), SlotOf(local, k), SlotOf(remote, k), q) {
      forall i | 0 <= i < |p|
        ensures IsObj(At(local, p[..i])) && IsObj(At(remote, p[..i]))
      {
        if i > 0 {
          assert At(local, p[..(i - 1) + 1]) == At(SlotOf(local, k), q[..i - 1]);
          assert At(remote, p[..(i - 1) + 1]) == At(SlotOf(remote, k), q[..i - 1]);
        }
      }
    }
  }

  /** Where two versions agree, no position at or below is a conflict. */
  lemma NoConflictBelow(base: Slot, local: Slot, remote: Slot, q: seq<Text>)
    requires SlotEqual(local, remote) || SlotEqual(base, local) || SlotEqual(base, remote)
    ensures !IsConflict(base, local, remote, q)
  {
    if SlotEqual(local, remote) { SlotEqualAt(local, remote, q); }
    if SlotEqual(base, local) { SlotEqualAt(base, local, q); }
    if SlotEqual(base, remote) { SlotEqualAt(base, remote, q); }
  }

  /** A conflict reported for two objects comes from one of their members. */
  lemma {:induction false} ConflictInChild(base: Slot, local: Slot, remote: Slot, ptr: Text, c: Text) returns (k: Text)
    requires IsObj(local) && IsObj(remote) && c in Merge3(base, local, remote, ptr).conflicts
    requires WfSlot(local) && WfSlot(remote)
    ensures c in Merge3(SlotOf(base, k), SlotOf(local, k), SlotOf(remote, k), ChildPointer(ptr, k)).conflicts
    ensures WfSlot(SlotOf(local, k)) && WfSlot(SlotOf(remote, k))
    ensures IsConflict(base, local, remote, []) == false
        && !(SlotEqual(local, remote) || SlotEqual(base, local) || SlotEqual(base, remote))
  {
    var b := if IsObj(base) then base else Missing;
    Merge3KeysConflicts(OrderedKeys(local, remote), b, local, remote, ptr, c);
    k :| k in OrderedKeys(local, remote) && c in Merge3Child(b, local, remote, ptr, k).conflicts;
    assert SlotOf(b, k) == SlotOf(base, k);
  }

  lemma {:induction false} ConflictsSound(base: Slot, local: Slot, remote: Slot, ptr: Text, c: Text)
      returns (q: seq<Text>)
    requires WfSlot(local) && WfSlot(remote)
    requires c in Merge3(base, local, remote, ptr).conflicts
    ensures IsConflict(base, local, remote, q) && c == ptr + Print(q)
    decreases local.Val?, if local.Val? then local.v else Null
  {
    if IsObj(local) && IsObj(remote) {
      var k := ConflictInChild(base, local, remote, ptr, c);
      var rest := ConflictsSound(SlotOf(base, k), SlotOf(local, k), SlotOf(remote, k), ChildPointer(ptr, k), c);
      q := [k] + rest;
      IsConflictCons(base, local, remote, k, rest);
      PrintCons(k, rest, ptr);
    } else {
      q := [];
      assert ptr + Print([]) == ptr;
    }
  }

  lemma {:induction false} ConflictsComplete(base: Slot, local: Slot, remote: Slot, ptr: Text, q: seq<Text>)
    requires WfSlot(local) && WfSlot(remote)
    requires IsConflict(base, local, remote, q)
    ensures ptr + Print(q) in Merge3(base, local, remote, ptr).conflicts
    decreases |q|
  {
    if SlotEqual(local, remote) || SlotEqual(base, local) || SlotEqual(base, remote) {
      NoConflictBelow(base, local, remote, q);
    } else if q == [] {
      assert ptr + Print([]) == ptr;
    } else {
      var k, rest := q[0], q[1..];
      assert q == [k] + rest;
      IsConflictCons(base, local, remote, k, rest);
      ConflictsComplete(SlotOf(base, k), SlotOf(local, k), SlotOf(remote, k), ChildPointer(ptr, k), rest);
      PrintCons(k, rest, ptr);
      var b := if IsObj(base) then base else Missing;
      assert SlotOf(b, k) == SlotOf(base, k);
      if k !in OrderedKeys(local, remote) {
        OrderedKeysComplete(local, remote, k);
        AtMissing(rest);
        assert false;
      }
      Merge3KeysConflicts(OrderedKeys(local, remote), b, local, remote, ptr, ptr + Print(q));
    }
  }

  /** The reported conflicts are exactly the conflicting positions. */
  lemma ConflictsExact(base: Slot, local: Slot, remote: Slot, p: seq<Text>)
    requires WfSlot(local) && WfSlot(remote)
    ensures Print(p) in Merge3(base, local, remote, []).conflicts <==> IsConflict(base, local, remote, p)
  {
    assert [] + Print(p) == Print(p);
    if IsConflict(base, local, remote, p) {
      ConflictsComplete(base, local, remote, [], p);
    }
    if Print(p) in Merge3(base, local, remote, []).conflicts {
      var q := ConflictsSound(base, local, remote, [], Print(p));
      assert [] + Print(q) == Print(q);
      PrintInjective(p, q);
    }
  }

  lemma SameChild(ptr: Text, k: Text, q: seq<Text>, k': Text, q': seq<Text>)
    requires ChildPointer(ptr, k) + Print(q) == ChildPointer(ptr, k') + Print(q')
    ensures k == k'
  {
    PrintCons(k, q, ptr);
    PrintCons(k', q', ptr);
    assert (ptr + Print([k] + q))[|ptr|..] == Print([k] + q);
    assert (ptr + Print([k'] + q'))[|ptr|..] == Print([k'] + q');
    PrintInjective([k] + q, [k'] + q');
    assert ([k] + q)[0] == ([k'] + q')[0];
  }

  /** No position is reported twice. */
  lemma {:induction false} ConflictsDistinct(base: Slot, local: Slot, remote: Slot, ptr: Text)
    requires WfSlot(local) && WfSlot(remote)
    ensures NoDup(Merge3(base, local, remote, ptr).conflicts)
    decreases local.Val?, if local.Val? then local.v else Null, 1, 0
  {
    if IsObj(local) && IsObj(remote) && !SlotEqual(local, remote) {
      OrderedKeysDistinct(local, remote);
      ConflictsDistinctKeys(OrderedKeys(local, remote), if IsObj(base) then base else Missing, local, remote, ptr);
    }
  }

  lemma {:induction false} ConflictsDistinctKeys(keys: seq<Text>, base: Slot, local: Slot, remote: Slot, ptr: Text)
    requires WfSlot(local) && WfSlot(remote) && IsObj(local) && NoDup(keys)
    ensures NoDup(Merge3Keys(keys, base, local, remote, ptr).conflicts)
    decreases true, local.v, 0, |keys|
  {
    if keys != [] {
      var k := keys[0];
      var h := Merge3Child(base, local, remote, ptr, k).conflicts;
      var t := Merge3Keys(keys[1..], base, local, remote, ptr).conflicts;
      ConflictsDistinct(SlotOf(base, k), SlotOf(local, k), SlotOf(remote, k), ChildPointer(ptr, k));
      ConflictsDistinctKeys(keys[1..], base, local, remote, ptr);
      assert k !in keys[1..];
      HeadApart(keys[1..], base, local, remote, ptr, k);
      NoDupConcat(h, t);
    }
  }

  /** A conflict of one child is none of another. */
  lemma {:induction false} ChildrenApart(base: Slot, local: Slot, remote: Slot, ptr: Text, k: Text, k': Text, c: Text)
    requires WfSlot(SlotOf(local, k)) && WfSlot(SlotOf(remote, k))
    requires WfSlot(SlotOf(local, k')) && WfSlot(SlotOf(remote, k'))
    requires c in Merge3Child(base, local, remote, ptr, k).conflicts
    requires c in Merge3Child(base, local, remote, ptr, k').conflicts
    ensures k == k'
  {
    var q := ConflictsSound(SlotOf(base, k), SlotOf(local, k), SlotOf(remote, k), ChildPointer(ptr, k), c);
    var q' := ConflictsSound(SlotOf(base, k'), SlotOf(local, k'), SlotOf(remote, k'), ChildPointer(ptr, k'), c);
    SameChild(ptr, k, q, k', q');
  }

  lemma {:induction false} HeadApart(keys: seq<Text>, base: Slot, local: Slot, remote: Slot, ptr: Text, k: Text)
    requires WfSlot(local) && WfSlot(remote) && IsObj(local) && k !in keys
    ensures forall c :: c in Merge3Child(base, local, remote, ptr, k).conflicts ==>
              c !in Merge3Keys(keys, base, local, remote, ptr).conflicts
  {
    forall c | c in Merge3Child(base, local, remote, ptr, k).conflicts
      ensures c !in Merge3Keys(keys, base, local, remote, ptr).conflicts
    {
      Merge3KeysConflicts(keys, base, local, remote, ptr, c);
      if k' :| k' in keys && c in Merge3Child(base, local, remote, ptr, k').conflicts {
        ChildrenApart(base, local, remote, ptr, k, k', c);
      }
    }
  }

  lemma NoDupConcat<T(!new)>(a: seq<T>, b: seq<T>)
    requires NoDup(a) && NoDup(b) && forall x :: x in a && x in b ==> false
    ensures NoDup(a + b)
  {
    forall i, j | 0 <= i < j < |a + b|
      ensures (a + b)[i] != (a + b)[j]
    {
      if i < |a| <= j {
        assert a[i] in a && b[j - |a|] in b;
      }
    }
  }

  // ── The merged value at every position ─────────────────

  ghost predicate Covered(base: Slot, local: Slot, remote: Slot, p: seq<Text>) {
    exists i :: 0 <= i <= |p| && IsConflict(base, local, remote, p[..i])
  }

  /** What position `p` of the result holds, from the three versions there. */
  ghost predicate MergedSlot(base: Slot, local: Slot, remote: Slot, out: Slot, covered: bool) {
    if covered || SlotEqual(local, remote) then SlotEqual(out, local)
    else if SlotEqual(base, local) then SlotEqual(out, remote)
    else if SlotEqual(base, remote) then SlotEqual(out, local)
    else IsObj(local) && IsObj(remote) && IsObj(out)
  }

  lemma CoveredCons(base: Slot, local: Slot, remote: Slot, k: Text, q: seq<Text>)
    requires IsObj(local) && IsObj(remote)
    ensures Covered(base, local, remote, [k] + q)
       <==> Covered(SlotOf(base, k), SlotOf(local, k), SlotOf(remote, k), q)
  {
    var p := [k] + q;
    if Covered(base, local, remote, p) {
      var i :| 0 <= i <= |p| && IsConflict(base, local, remote, p[..i]);
      assert i != 0;
      assert p[..i] == [k] + q[..i - 1];
      IsConflictCons(base, local, remote, k, q[..i - 1]);
    }
    if Covered(SlotOf(base, k), SlotOf(local, k), SlotOf(remote, k), q) {
      var i :| 0 <= i <= |q| && IsConflict(SlotOf(base, k), SlotOf(local, k), SlotOf(remote, k), q[..i]);
      assert p[..i + 1] == [k] + q[..i];
      IsConflictCons(base, local, remote, k, q[..i]);
    }
  }

  lemma NotCovered(base: Slot, local: Slot, remote: Slot, p: seq<Text>)
    requires SlotEqual(local, remote) || SlotEqual(base, local) || SlotEqual(base, remote)
    ensures !Covered(base, local, remote, p)
  {
    forall i | 0 <= i <= |p|
      ensures !IsConflict(base, local, remote, p[..i])
    {
      NoConflictBelow(base, local, remote, p[..i]);
    }
  }

  lemma {:induction false} MergedOneSided(base: Slot, local: Slot, remote: Slot, p: seq<Text>, out: Slot)
    requires SlotEqual(local, remote) || SlotEqual(base, local) || SlotEqual(base, remote)
    requires out == if SlotEqual(local, remote) then local else if SlotEqual(base, local) then remote else local
    ensures MergedSlot(At(base, p), At(local, p), At(remote, p), At(out, p), false)
  {
    var b, l, r := At(base, p), At(local, p), At(remote, p);
    if SlotEqual(local, remote) { SlotEqualAt(local, remote, p); }
    else if SlotEqual(base, local) { SlotEqualAt(base, local, p); }
    else { SlotEqualAt(base, remote, p); }
    SlotEqualEquivalence(l, r, l);
    SlotEqualEquivalence(r, r, r);
    SlotEqualEquivalence(l, b, r);
    SlotEqualEquivalence(b, l, b);
  }

  lemma {:induction false} Merge3At(base: Slot, local: Slot, remote: Slot, ptr: Text, p: seq<Text>)
    requires WfSlot(local) && WfSlot(remote)
    ensures MergedSlot(At(base, p), At(local, p), At(remote, p),
                       At(Merge3(base, local, remote, ptr).slot, p), Covered(base, local, remote, p))
    decreases |p|
  {
    if SlotEqual(local, remote) || SlotEqual(base, local) || SlotEqual(base, remote) {
      NotCovered(base, local, remote, p);
      MergedOneSided(base, local, remote, p, Merge3(base, local, remote, ptr).slot);
    } else if IsObj(local) && IsObj(remote) {
      if p == [] {
        Merge3Object(base, local, remote, ptr, []);
      } else {
        var k, q := p[0], p[1..];
        assert p == [k] + q;
        Merge3Object(base, local, remote, ptr, k);
        CoveredCons(base, local, remote, k, q);
        Merge3At(SlotOf(base, k), SlotOf(local, k), SlotOf(remote, k), ChildPointer(ptr, k), q);
      }
    } else {
      assert p[..0] == [];
      assert IsConflict(base, local, remote, p[..0]);
      SlotEqualEquivalence(At(local, p), At(local, p), At(local, p));
    }
  }

  // ── orderLike ──────────────────────────────────────────

  function OrderLike(value: Json, reference: Slot): Json
    decreases value
  {
    if !value.Obj? then value
    else
      var keys := if IsObj(reference)
        then Filter(reference.v.keys, k => k in value.vals) + Filter(value.keys, k => k !in reference.v.vals)
        else value.keys;
      Obj(keys, map k | k in value.vals && k in keys :: OrderLike(value.vals[k], SlotOf(reference, k)))
  }

  lemma OrderLikeKeys(value: Json, reference: Slot)
    requires value.Obj? && Wf(value) && WfSlot(reference)
    ensures var out := OrderLike(value, reference);
            out.Obj? && NoDup(out.keys) && out.vals.Keys == value.vals.Keys
                && (forall k :: k in out.keys <==> k in value.vals)
  {
    if IsObj(reference) {
      NoDupConcat(Filter(reference.v.keys, k => k in value.vals), Filter(value.keys, k => k !in reference.v.vals));
    }
  }

  /** The final pass changes the key order only. */
  lemma {:induction false} OrderLikeContent(value: Json, reference: Slot)
    requires Wf(value) && WfSlot(reference)
    ensures Content(OrderLike(value, reference)) == Content(value)
    ensures Wf(OrderLike(value, reference))
    decreases value
  {
    if value.Obj? {
      forall k | k in value.vals
        ensures Content(OrderLike(value.vals[k], SlotOf(reference, k))) == Content(value.vals[k])
        ensures Wf(OrderLike(value.vals[k], SlotOf(reference, k)))
      {
        OrderLikeContent(value.vals[k], SlotOf(reference, k));
      }
      OrderLikeKeys(value, reference);
      SameContentHere(value, OrderLike(value, reference));
    }
  }

  lemma {:induction false} SameContentHere(value: Json, out: Json)
    requires value.Obj? && out.Obj? && Wf(value) && NoDup(out.keys) && out.vals.Keys == value.vals.Keys
    requires forall k :: k in out.keys <==> k in out.vals
    requires forall k :: k in value.vals ==> Content(out.vals[k]) == Content(value.vals[k]) && Wf(out.vals[k])
    ensures Content(out) == Content(value) && Wf(out)
  {
    assert Content(out).vals == Content(value).vals;
  }

  /** `keys` come in the order of `first`, those it lacks after them in the order of
      `second`. */
  ghost predicate OrderedLike<T>(keys: seq<T>, first: seq<T>, second: seq<T>) {
    forall i, j :: 0 <= i < j < |keys| ==>
      if keys[j] in first then keys[i] in first && Precedes(first, keys[i], keys[j])
      else keys[i] in first || Precedes(second, keys[i], keys[j])
  }

  ghost predicate Precedes<T>(s: seq<T>, x: T, y: T) {
    forall a, b :: 0 <= a < |s| && 0 <= b < |s| && s[a] == x && s[b] == y ==> a < b
  }

  lemma PrecedesTail<T>(s: seq<T>, x: T, y: T)
    requires s != [] && x != s[0] && y != s[0] && Precedes(s[1..], x, y)
    ensures Precedes(s, x, y)
  {
    forall a, b | 0 <= a < |s| && 0 <= b < |s| && s[a] == x && s[b] == y ensures a < b {
      assert s[1..][a - 1] == x && s[1..][b - 1] == y;
    }
  }

  lemma PrecedesHead<T>(s: seq<T>, y: T)
    requires NoDup(s) && s != [] && y != s[0]
    ensures Precedes(s, s[0], y)
  {}

  lemma {:induction false} FilterOrder(s: seq<Text>, f: Text -> bool, i: nat, j: nat)
    requires NoDup(s) && i < j < |Filter(s, f)|
    ensures Precedes(s, Filter(s, f)[i], Filter(s, f)[j])
    decreases |s|
  {
    var out, rest := Filter(s, f), Filter(s[1..], f);
    var at := if f(s[0]) then 1 else 0;
    assert s[0] !in s[1..];
    assert out[j] == rest[j - at] && rest[j - at] in rest;
    if i >= at {
      assert out[i] == rest[i - at] && rest[i - at] in rest;
      FilterOrder(s[1..], f, i - at, j - at);
      PrecedesTail(s, out[i], out[j]);
    } else {
      PrecedesHead(s, out[j]);
    }
  }

  lemma {:induction false} ConcatOrder(a: seq<Text>, b: seq<Text>, first: seq<Text>, second: seq<Text>)
    requires forall x :: x in a ==> x in first
    requires forall x :: x in b ==> x !in first
    requires forall i, j :: 0 <= i < j < |a| ==> Precedes(first, a[i], a[j])
    requires forall i, j :: 0 <= i < j < |b| ==> Precedes(second, b[i], b[j])
    ensures OrderedLike(a + b, first, second)
  {
    var keys := a + b;
    forall i, j | 0 <= i < j < |keys|
      ensures if keys[j] in first then keys[i] in first && Precedes(first, keys[i], keys[j])
              else keys[i] in first || Precedes(second, keys[i], keys[j])
    {
      assert i < |a| ==> keys[i] == a[i] && a[i] in a;
      assert i >= |a| ==> keys[i] == b[i - |a|] && b[i - |a|] in b;
      assert j < |a| ==> keys[j] == a[j] && a[j] in a;
      assert j >= |a| ==> keys[j] == b[j - |a|] && b[j - |a|] in b;
    }
  }

  lemma {:induction false} OrderLikeHere(value: Json, reference: Slot)
    requires value.Obj? && Wf(value) && WfSlot(reference)
    ensures OrderedLike(OrderLike(value, reference).keys, KeysOf(reference), value.keys)
  {
    if IsObj(reference) {
      var a, b := Filter(reference.v.keys, k => k in value.vals), Filter(value.keys, k => k !in reference.v.vals);
      forall i, j | 0 <= i < j < |a| ensures Precedes(reference.v.keys, a[i], a[j]) {
        FilterOrder(reference.v.keys, k => k in value.vals, i, j);
      }
      forall i, j | 0 <= i < j < |b| ensures Precedes(value.keys, b[i], b[j]) {
        FilterOrder(value.keys, k => k !in reference.v.vals, i, j);
      }
      ConcatOrder(a, b, reference.v.keys, value.keys);
    }
  }

  /** At every depth the keys that the reference has there come first, in its
      order, and the others after them in the order they had. */
  lemma {:induction false} OrderLikeOrders(value: Json, reference: Slot, p: seq<Text>)
    requires Wf(value) && WfSlot(reference) && IsObj(At(Val(value), p))
    ensures var out := At(Val(OrderLike(value, reference)), p);
            IsObj(out) && OrderedLike(out.v.keys, KeysOf(At(reference, p)), At(Val(value), p).v.keys)
    decreases |p|
  {
    if p == [] {
      OrderLikeHere(value, reference);
    } else {
      if !value.Obj? || p[0] !in value.vals {
        AtMissing(p[1..]);
      }
      OrderLikeKeys(value, reference);
      OrderLikeOrders(value.vals[p[0]], SlotOf(reference, p[0]), p[1..]);
    }
  }

  lemma OrderLikeAt(value: Json, reference: Slot, p: seq<Text>)
    requires Wf(value) && WfSlot(reference)
    ensures SlotEqual(At(Val(OrderLike(value, reference)), p), At(Val(value), p))
  {
    OrderLikeContent(value, reference);
    SlotEqualIsContent(Val(OrderLike(value, reference)), Val(value));
    SlotEqualAt(Val(OrderLike(value, reference)), Val(value), p);
  }

  lemma {:induction false} Merge3Wf(base: Slot, local: Slot, remote: Slot, ptr: Text)
    requires WfSlot(local) && WfSlot(remote)
    ensures WfSlot(Merge3(base, local, remote, ptr).slot)
    decreases local.Val?, if local.Val? then local.v else Null, 1, 0
  {
    if IsObj(local) && IsObj(remote) {
      OrderedKeysDistinct(local, remote);
      Merge3KeysWf(OrderedKeys(local, remote), if IsObj(base) then base else Missing, local, remote, ptr);
    }
  }

  lemma {:induction false} Merge3KeysWf(keys: seq<Text>, base: Slot, local: Slot, remote: Slot, ptr: Text)
    requires WfSlot(local) && WfSlot(remote) && IsObj(local) && NoDup(keys)
    ensures WfSlot(Merge3Keys(keys, base, local, remote, ptr).slot)
    ensures forall k :: k in Merge3Keys(keys, base, local, remote, ptr).slot.v.keys ==> k in keys
    decreases true, local.v, 0, |keys|
  {
    if keys != [] {
      var k := keys[0];
      Merge3Wf(SlotOf(base, k), SlotOf(local, k), SlotOf(remote, k), ChildPointer(ptr, k));
      Merge3KeysWf(keys[1..], base, local, remote, ptr);
      var rest := Merge3Keys(keys[1..], base, local, remote, ptr).slot.v.keys;
      assert k !in rest;
      NoDupConcat([k], rest);
    }
  }
}
