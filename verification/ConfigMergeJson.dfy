/** The merge of two config files. */
module ConfigMergeJson {
  // `mergeJson` with or without a base, as an object tree or as a set
  // (src/sync/config-merge.ts).

  import opened Wrappers
  import opened Utf16
  import opened Sequences
  import opened JsonPointer
  import opened Json
  import opened ConfigMerge

  // ── Sets of strings ────────────────────────────────────

  predicate IsStringSet(j: Json) {
    j.Arr? && (forall i :: 0 <= i < |j.elems| ==> j.elems[i].Str?) && NoDup(j.elems)
  }

  function Strings(j: Json): (r: seq<Text>)
    requires IsStringSet(j)
    ensures forall t :: t in r <==> Str(t) in j.elems
    ensures NoDup(r)
  {
    var r := seq(|j.elems|, i requires 0 <= i < |j.elems| => j.elems[i].s);
    assert forall i :: 0 <= i < |r| ==> j.elems[i] == Str(r[i]);
    r
  }

  function FromStrings(ts: seq<Text>): (j: Json)
    ensures j.Arr? && |j.elems| == |ts| && forall i :: 0 <= i < |ts| ==> j.elems[i] == Str(ts[i])
  {
    Arr(seq(|ts|, i requires 0 <= i < |ts| => Str(ts[i])))
  }

  /** The members of `ts` in `m`, in the order of `ts`. */
  function KeepIn(ts: seq<Text>, m: set<Text>): (r: seq<Text>)
    ensures forall t :: t in r <==> t in ts && t in m
    ensures NoDup(ts) ==> NoDup(r)
  {
    if ts == [] then []
    else
      var n := |ts| - 1;
      assert ts == ts[..n] + [ts[n]];
      KeepIn(ts[..n], m) + if ts[n] in m then [ts[n]] else []
  }

  /** A member of the base stays when both sides kept it; any other element
      is there when one side has it. */
  predicate MemberKept(base: Option<seq<Text>>, local: seq<Text>, remote: seq<Text>, e: Text) {
    if base.Some? && e in base.value then e in local && e in remote
    else e in local || e in remote
  }

  function MergedMembers(base: Option<seq<Text>>, local: seq<Text>, remote: seq<Text>): set<Text> {
    set e | e in local + remote && MemberKept(base, local, remote, e)
  }

  /** `members` ordered like `local`, then like `remote`. */
  function OrderedMembers(members: set<Text>, local: seq<Text>, remote: seq<Text>): seq<Text> {
    KeepIn(local, members) + KeepIn(remote, members - Members(local))
  }

  lemma {:induction false} KeepInNext(ts: seq<Text>, m: set<Text>, i: nat)
    requires i < |ts|
    ensures KeepIn(ts[..i + 1], m) == KeepIn(ts[..i], m) + if ts[i] in m then [ts[i]] else []
  {
    assert ts[..i + 1][..i] == ts[..i];
  }

  method OrderSet(members: set<Text>, local: seq<Text>, remote: seq<Text>) returns (out: seq<Text>)
    ensures out == OrderedMembers(members, local, remote)
  {
    out := [];
    for i := 0 to |local|
      invariant out == KeepIn(local[..i], members)
    {
      KeepInNext(local, members, i);
      if local[i] in members { out := out + [local[i]]; }
    }
    assert local[..|local|] == local;
    ghost var first, rest := out, members - Members(local);
    for i := 0 to |remote|
      invariant out == first + KeepIn(remote[..i], rest)
    {
      KeepInNext(remote, rest, i);
      assert remote[i] in rest <==> remote[i] in members && remote[i] !in local;
      if remote[i] in members && remote[i] !in local { out := out + [remote[i]]; }
    }
    assert remote[..|remote|] == remote;
  }

  method MergeSet(base: Option<seq<Text>>, local: seq<Text>, remote: seq<Text>) returns (out: seq<Text>)
    ensures out == OrderedMembers(MergedMembers(base, local, remote), local, remote)
  {
    var result := Members(remote);
    if base.Some? {
      var b := base.value;
      for i := 0 to |b|
        invariant result == set e | e in remote && (e in b[..i] ==> e in local)
      {
        if b[i] !in local { result := result - {b[i]}; }
        assert b[..i + 1] == b[..i] + [b[i]];
      }
      assert b[..|b|] == b;
      for i := 0 to |local|
        invariant result == (set e | e in remote && (e in b ==> e in local)) + (set e | e in local[..i] && e !in b)
      {
        if local[i] !in b { result := result + {local[i]}; }
        assert local[..i + 1] == local[..i] + [local[i]];
      }
      assert local[..|local|] == local;
    } else {
      for i := 0 to |local|
        invariant result == Members(remote) + Members(local[..i])
      {
        result := result + {local[i]};
        assert local[..i + 1] == local[..i] + [local[i]];
      }
      assert local[..|local|] == local;
    }
    assert result == MergedMembers(base, local, remote);
    out := OrderSet(result, local, remote);
  }

  /** The merged set has each member once, and no other element. */
  lemma MergedSetExact(base: Option<seq<Text>>, local: seq<Text>, remote: seq<Text>, e: Text)
    requires NoDup(local) && NoDup(remote)
    ensures var out := OrderedMembers(MergedMembers(base, local, remote), local, remote);
            NoDup(out) && (e in out <==> MemberKept(base, local, remote, e))
  {
    var m := MergedMembers(base, local, remote);
    NoDupConcat(KeepIn(local, m), KeepIn(remote, m - Members(local)));
  }

  // ── merge2 ─────────────────────────────────────────────

  function Merge2(local: Slot, remote: Slot, rule: NoBaseRule, ptr: Text): (r: MergeOut)
    ensures local.Val? || remote.Val? ==> r.slot.Val?
    decreases local.Val?, if local.Val? then local.v else Null, 1, 0
  {
    if local.Missing? then MergeOut(remote, [])
    else if remote.Missing? then MergeOut(local, [])
    else if SlotEqual(local, remote) then MergeOut(local, [])
    else if IsObj(local) && IsObj(remote) then
      Merge2Keys(OrderedKeys(local, remote), local, remote, rule, ptr)
    else if rule == LocalFirst then MergeOut(local, [ptr])
    else MergeOut(remote, [])
  }

  function Merge2Keys(keys: seq<Text>, local: Slot, remote: Slot, rule: NoBaseRule, ptr: Text): (r: MergeOut)
    requires IsObj(local)
    ensures IsObj(r.slot)
    decreases true, local.v, 0, |keys|
  {
    if keys == [] then MergeOut(Val(EMPTY), [])
    else
      var k := keys[0];
      var h := Merge2(SlotOf(local, k), SlotOf(remote, k), rule, ChildPointer(ptr, k));
      var t := Merge2Keys(keys[1..], local, remote, rule, ptr);
      MergeOut(Val(Prepend(k, h.slot, t.slot.v)), h.conflicts + t.conflicts)
  }

  /** Without a base, local-first is the three-way merge over nothing. */
  lemma {:induction false} LocalFirstIsMerge3(local: Slot, remote: Slot, ptr: Text)
    ensures Merge2(local, remote, LocalFirst, ptr) == Merge3(Missing, local, remote, ptr)
    decreases local.Val?, if local.Val? then local.v else Null, 1, 0
  {
    if IsObj(local) && IsObj(remote) {
      LocalFirstIsMerge3Keys(OrderedKeys(local, remote), local, remote, ptr);
    }
  }

  lemma {:induction false} LocalFirstIsMerge3Keys(keys: seq<Text>, local: Slot, remote: Slot, ptr: Text)
    requires IsObj(local)
    ensures Merge2Keys(keys, local, remote, LocalFirst, ptr) == Merge3Keys(keys, Missing, local, remote, ptr)
    decreases true, local.v, 0, |keys|
  {
    if keys != [] {
      LocalFirstIsMerge3(SlotOf(local, keys[0]), SlotOf(remote, keys[0]), ChildPointer(ptr, keys[0]));
      LocalFirstIsMerge3Keys(keys[1..], local, remote, ptr);
    }
  }

  lemma {:induction false} Merge2KeysField(keys: seq<Text>, local: Slot, remote: Slot, rule: NoBaseRule, ptr: Text,
      k: Text)
    requires IsObj(local)
    ensures SlotOf(Merge2Keys(keys, local, remote, rule, ptr).slot, k)
         == if k in keys then Merge2(SlotOf(local, k), SlotOf(remote, k), rule, ChildPointer(ptr, k)).slot else Missing
    decreases |keys|
  {
    if keys != [] {
      Merge2KeysField(keys[1..], local, remote, rule, ptr, k);
    }
  }

  /** Remote-first is local-first with the sides exchanged: the same value. */
  lemma {:induction false} RemoteFirstIsSwapped(local: Slot, remote: Slot, ptr: Text)
    requires WfSlot(local) && WfSlot(remote)
    ensures SlotEqual(Merge2(local, remote, RemoteFirst, ptr).slot, Merge2(remote, local, LocalFirst, ptr).slot)
    decreases local.Val?, if local.Val? then local.v else Null
  {
    SlotEqualEquivalence(local, remote, local);
    SlotEqualEquivalence(remote, remote, remote);
    if IsObj(local) && IsObj(remote) && !SlotEqual(local, remote) {
      var a, b := Merge2(local, remote, RemoteFirst, ptr).slot, Merge2(remote, local, LocalFirst, ptr).slot;
      forall k
        ensures SlotEqual(SlotOf(a, k), SlotOf(b, k))
      {
        OrderedKeysComplete(local, remote, k);
        OrderedKeysComplete(remote, local, k);
        Merge2KeysField(OrderedKeys(local, remote), local, remote, RemoteFirst, ptr, k);
        Merge2KeysField(OrderedKeys(remote, local), remote, local, LocalFirst, ptr, k);
        RemoteFirstIsSwapped(SlotOf(local, k), SlotOf(remote, k), ChildPointer(ptr, k));
      }
      ObjEqualByKeys(a, b);
    }
  }

  lemma {:induction false} RemoteFirstReportsNothing(local: Slot, remote: Slot, ptr: Text)
    ensures Merge2(local, remote, RemoteFirst, ptr).conflicts == []
    decreases local.Val?, if local.Val? then local.v else Null, 1, 0
  {
    if IsObj(local) && IsObj(remote) {
      RemoteFirstReportsNothingKeys(OrderedKeys(local, remote), local, remote, ptr);
    }
  }

  lemma {:induction false} RemoteFirstReportsNothingKeys(keys: seq<Text>, local: Slot, remote: Slot, ptr: Text)
    requires IsObj(local)
    ensures Merge2Keys(keys, local, remote, RemoteFirst, ptr).conflicts == []
    decreases true, local.v, 0, |keys|
  {
    if keys != [] {
      RemoteFirstReportsNothing(SlotOf(local, keys[0]), SlotOf(remote, keys[0]), ChildPointer(ptr, keys[0]));
      RemoteFirstReportsNothingKeys(keys[1..], local, remote, ptr);
    }
  }

  lemma {:induction false} Merge2Wf(local: Slot, remote: Slot, rule: NoBaseRule, ptr: Text)
    requires WfSlot(local) && WfSlot(remote)
    ensures WfSlot(Merge2(local, remote, rule, ptr).slot)
    decreases local.Val?, if local.Val? then local.v else Null, 1, 0
  {
    if IsObj(local) && IsObj(remote) {
      OrderedKeysDistinct(local, remote);
      Merge2KeysWf(OrderedKeys(local, remote), local, remote, rule, ptr);
    }
  }

  lemma {:induction false} Merge2KeysWf(keys: seq<Text>, local: Slot, remote: Slot, rule: NoBaseRule, ptr: Text)
    requires WfSlot(local) && WfSlot(remote) && IsObj(local) && NoDup(keys)
    ensures WfSlot(Merge2Keys(keys, local, remote, rule, ptr).slot)
    ensures forall k :: k in Merge2Keys(keys, local, remote, rule, ptr).slot.v.keys ==> k in keys
    decreases true, local.v, 0, |keys|
  {
    if keys != [] {
      var k := keys[0];
      Merge2Wf(SlotOf(local, k), SlotOf(remote, k), rule, ChildPointer(ptr, k));
      Merge2KeysWf(keys[1..], local, remote, rule, ptr);
      var rest := Merge2Keys(keys[1..], local, remote, rule, ptr).slot.v.keys;
      assert k !in rest;
      NoDupConcat([k], rest);
    }
  }

  // ── mergeJson ──────────────────────────────────────────

  predicate MergesAsSet(base: Slot, local: Json, remote: Json, asSet: bool) {
    asSet && IsStringSet(local) && IsStringSet(remote) && (base.Val? ==> IsStringSet(base.v))
  }

  function BaseStrings(base: Slot): Option<seq<Text>>
    requires base.Val? ==> IsStringSet(base.v)
  {
    if base.Val? then Some(Strings(base.v)) else None
  }

  /** `base` is Missing where the source passes `undefined`. */
  function MergeTree(base: Slot, local: Json, remote: Json, rule: NoBaseRule): MergeOut {
    if base.Missing? then Merge2(Val(local), Val(remote), rule, [])
    else Merge3(base, Val(local), Val(remote), [])
  }

  function Merged(base: Slot, local: Json, remote: Json, asSet: bool, rule: NoBaseRule): MergeResult {
    if MergesAsSet(base, local, remote, asSet) then
      var l, r := Strings(local), Strings(remote);
      MergeResult(FromStrings(OrderedMembers(MergedMembers(BaseStrings(base), l, r), l, r)), [])
    else
      var m := MergeTree(base, local, remote, rule);
      MergeResult(OrderLike(m.slot.v, Val(local)), m.conflicts)
  }

  method MergeJson(base: Slot, local: Json, remote: Json, asSet: bool, rule: NoBaseRule) returns (r: MergeResult)
    ensures r == Merged(base, local, remote, asSet, rule)
  {
    if MergesAsSet(base, local, remote, asSet) {
      var merged := MergeSet(BaseStrings(base), Strings(local), Strings(remote));
      return MergeResult(FromStrings(merged), []);
    }
    var m := MergeTree(base, local, remote, rule);
    return MergeResult(OrderLike(m.slot.v, Val(local)), m.conflicts);
  }

  /** Local, remote and the base, if there is one, are sets of strings. */
  ghost predicate SetFiles(base: Slot, local: Json, remote: Json) {
    IsStringSet(local) && IsStringSet(remote) && (base.Val? ==> IsStringSet(base.v))
  }

  lemma {:induction false} KeepInOrder(ts: seq<Text>, m: set<Text>, i: nat, j: nat)
    requires NoDup(ts) && i < j < |KeepIn(ts, m)|
    ensures Precedes(ts, KeepIn(ts, m)[i], KeepIn(ts, m)[j])
    decreases |ts|
  {
    var n := |ts| - 1;
    var front := KeepIn(ts[..n], m);
    assert ts == ts[..n] + [ts[n]];
    assert front[i] in front && ts[n] !in ts[..n];
    if j < |front| {
      assert front[j] in front;
      KeepInOrder(ts[..n], m, i, j);
    }
  }

  lemma {:induction false} MembersInOrder(m: set<Text>, local: seq<Text>, remote: seq<Text>)
    requires NoDup(local) && NoDup(remote)
    ensures OrderedLike(OrderedMembers(m, local, remote), local, remote)
  {
    var a, b := KeepIn(local, m), KeepIn(remote, m - Members(local));
    forall i, j | 0 <= i < j < |a| ensures Precedes(local, a[i], a[j]) {
      KeepInOrder(local, m, i, j);
    }
    forall i, j | 0 <= i < j < |b| ensures Precedes(remote, b[i], b[j]) {
      KeepInOrder(remote, m - Members(local), i, j);
    }
    ConcatOrder(a, b, local, remote);
  }

  lemma {:induction false} StringsInOrder(ts: seq<Text>, local: Json, remote: Json)
    requires IsStringSet(local) && IsStringSet(remote) && OrderedLike(ts, Strings(local), Strings(remote))
    ensures OrderedLike(FromStrings(ts).elems, local.elems, remote.elems)
  {
    var s, l, r := FromStrings(ts).elems, local.elems, remote.elems;
    forall i, j | 0 <= i < j < |s|
      ensures if s[j] in l then s[i] in l && Precedes(l, s[i], s[j]) else s[i] in l || Precedes(r, s[i], s[j])
    {
      PrecedesAsStrings(local, ts[i], ts[j]);
      PrecedesAsStrings(remote, ts[i], ts[j]);
    }
  }

  lemma PrecedesAsStrings(j: Json, x: Text, y: Text)
    requires IsStringSet(j)
    ensures Precedes(Strings(j), x, y) ==> Precedes(j.elems, Str(x), Str(y))
  {
    var r := Strings(j);
    assert forall a :: 0 <= a < |r| ==> j.elems[a] == Str(r[a]);
  }

  /** What a merge of sets returns: a member of the base is in it exactly when both
      sides hold it, any other element when one side does, and without a base the
      union. It is a set of strings again, in local's order and then remote's, and
      nothing is a conflict. */
  lemma {:induction false} MergedSetAt(base: Slot, local: Json, remote: Json, rule: NoBaseRule, e: Json)
    requires SetFiles(base, local, remote)
    ensures var r := Merged(base, local, remote, true, rule);
            && r.conflicts == [] && IsStringSet(r.value) && OrderedLike(r.value.elems, local.elems, remote.elems)
            && (e in r.value.elems <==>
                  if base.Val? && e in base.v.elems then e in local.elems && e in remote.elems
                  else e in local.elems || e in remote.elems)
  {
    var b, l, r := BaseStrings(base), Strings(local), Strings(remote);
    var ts := OrderedMembers(MergedMembers(b, l, r), l, r);
    var value := Merged(base, local, remote, true, rule).value;
    assert value == FromStrings(ts);
    MergedSetExact(b, l, r, []);
    MembersInOrder(MergedMembers(b, l, r), l, r);
    StringsInOrder(ts, local, remote);
    assert IsStringSet(value) by {
      assert forall i :: 0 <= i < |ts| ==> value.elems[i] == Str(ts[i]);
    }
    if e.Str? {
      MergedSetExact(b, l, r, e.s);
      assert e == Str(e.s);
    }
  }

  lemma {:induction false} MergedIsTree(base: Slot, local: Json, remote: Json, asSet: bool, rule: NoBaseRule,
      p: seq<Text>)
    requires Wf(local) && Wf(remote) && WfSlot(base) && !MergesAsSet(base, local, remote, asSet)
    ensures SlotEqual(At(Val(Merged(base, local, remote, asSet, rule).value), p),
                      At(MergeTree(base, local, remote, rule).slot, p))
  {
    if base.Missing? {
      Merge2Wf(Val(local), Val(remote), rule, []);
    } else {
      Merge3Wf(base, Val(local), Val(remote), []);
    }
    OrderLikeAt(MergeTree(base, local, remote, rule).slot.v, Val(local), p);
  }

  /** Every object of a merged file has local's keys first, in local's order. */
  lemma {:induction false} MergedKeepsLocalOrder(base: Slot, local: Json, remote: Json, asSet: bool,
      rule: NoBaseRule, p: seq<Text>)
    requires Wf(local) && Wf(remote) && WfSlot(base) && !(asSet && SetFiles(base, local, remote))
    requires IsObj(At(MergeTree(base, local, remote, rule).slot, p))
    ensures var out := At(Val(Merged(base, local, remote, asSet, rule).value), p);
            IsObj(out)
            && OrderedLike(out.v.keys, KeysOf(At(Val(local), p)),
                        At(MergeTree(base, local, remote, rule).slot, p).v.keys)
  {
    if base.Missing? {
      Merge2Wf(Val(local), Val(remote), rule, []);
    } else {
      Merge3Wf(base, Val(local), Val(remote), []);
    }
    OrderLikeOrders(MergeTree(base, local, remote, rule).slot.v, Val(local), p);
  }

  /** Every position of a merge against a base. */
  lemma {:induction false} MergeJsonAt(base: Json, local: Json, remote: Json, asSet: bool, rule: NoBaseRule,
      p: seq<Text>)
    requires Wf(base) && Wf(local) && Wf(remote) && !(asSet && SetFiles(Val(base), local, remote))
    ensures MergedSlot(At(Val(base), p), At(Val(local), p), At(Val(remote), p),
                       At(Val(Merged(Val(base), local, remote, asSet, rule).value), p),
                       Covered(Val(base), Val(local), Val(remote), p))
  {
    Merge3At(Val(base), Val(local), Val(remote), [], p);
    MergedIsTree(Val(base), local, remote, asSet, rule, p);
    var out := At(Val(Merged(Val(base), local, remote, asSet, rule).value), p);
    var tree := At(Merge3(Val(base), Val(local), Val(remote), []).slot, p);
    SlotEqualEquivalence(out, tree, At(Val(local), p));
    SlotEqualEquivalence(out, tree, At(Val(remote), p));
  }

  /** Every position of a merge without a base: the rule's winner is the side
      whose changes are kept, over an absent base. */
  lemma {:induction false} MergeJsonNoBaseAt(local: Json, remote: Json, asSet: bool, rule: NoBaseRule, p: seq<Text>)
    requires Wf(local) && Wf(remote) && !(asSet && SetFiles(Missing, local, remote))
    ensures var first, second := if rule == LocalFirst then local else remote,
        if rule == LocalFirst then remote else local;
            MergedSlot(Missing, At(Val(first), p), At(Val(second), p),
                       At(Val(Merged(Missing, local, remote, asSet, rule).value), p),
                       Covered(Missing, Val(first), Val(second), p))
  {
    var first, second := if rule == LocalFirst then local else remote, if rule == LocalFirst then remote else local;
    var tree := Merge2(Val(local), Val(remote), rule, []).slot;
    var want := Merge3(Missing, Val(first), Val(second), []).slot;
    LocalFirstIsMerge3(Val(first), Val(second), []);
    RemoteFirstIsSwapped(Val(local), Val(remote), []);
    SlotEqualEquivalence(tree, tree, tree);
    assert SlotEqual(tree, want);
    SlotEqualAt(tree, want, p);
    AtMissing(p);
    Merge3At(Missing, Val(first), Val(second), [], p);
    MergedIsTree(Missing, local, remote, asSet, rule, p);
    var out := At(Val(Merged(Missing, local, remote, asSet, rule).value), p);
    SlotEqualEquivalence(out, At(tree, p), At(want, p));
    SlotEqualEquivalence(out, At(want, p), At(Val(first), p));
    SlotEqualEquivalence(out, At(want, p), At(Val(second), p));
  }

  /** The conflicts of a merge against a base: exactly the conflicting
      positions, each once. */
  lemma {:induction false} MergeJsonConflicts(base: Json, local: Json, remote: Json, asSet: bool, rule: NoBaseRule,
      c: Text)
    requires Wf(base) && Wf(local) && Wf(remote) && !(asSet && SetFiles(Val(base), local, remote))
    ensures NoDup(Merged(Val(base), local, remote, asSet, rule).conflicts)
    ensures c in Merged(Val(base), local, remote, asSet, rule).conflicts
       <==> exists p :: c == Print(p) && IsConflict(Val(base), Val(local), Val(remote), p)
  {
    ConflictsDistinct(Val(base), Val(local), Val(remote), []);
    if c in Merged(Val(base), local, remote, asSet, rule).conflicts {
      var q := ConflictsSound(Val(base), Val(local), Val(remote), [], c);
      assert [] + Print(q) == Print(q);
    }
    if exists p :: c == Print(p) && IsConflict(Val(base), Val(local), Val(remote), p) {
      var p :| c == Print(p) && IsConflict(Val(base), Val(local), Val(remote), p);
      ConflictsExact(Val(base), Val(local), Val(remote), p);
    }
  }

  lemma {:induction false} CoveredIsReportedTree(base: Slot, local: Slot, remote: Slot, p: seq<Text>, c: Text)
    requires WfSlot(local) && WfSlot(remote)
    requires c in Merge3(base, local, remote, []).conflicts && PointerCovers(c, Print(p))
    ensures Covered(base, local, remote, p)
  {
    var q := ConflictsSound(base, local, remote, [], c);
    assert [] + Print(q) == Print(q);
    CoversIsPrefix(q, p);
    assert p[..|q|] == q;
  }

  /** A position is covered exactly when some reported pointer covers it. */
  lemma {:induction false} CoveredIsReported(base: Json, local: Json, remote: Json, p: seq<Text>)
    requires Wf(base) && Wf(local) && Wf(remote)
    ensures Covered(Val(base), Val(local), Val(remote), p)
       <==> exists c :: c in MergeTree(Val(base), local, remote, LocalFirst).conflicts && PointerCovers(c, Print(p))
  {
    var conflicts := Merge3(Val(base), Val(local), Val(remote), []).conflicts;
    if Covered(Val(base), Val(local), Val(remote), p) {
      var i :| 0 <= i <= |p| && IsConflict(Val(base), Val(local), Val(remote), p[..i]);
      ConflictsExact(Val(base), Val(local), Val(remote), p[..i]);
      CoversIsPrefix(p[..i], p);
      assert Print(p[..i]) in conflicts;
    }
    forall c | c in conflicts && PointerCovers(c, Print(p))
      ensures Covered(Val(base), Val(local), Val(remote), p)
    {
      CoveredIsReportedTree(Val(base), Val(local), Val(remote), p, c);
    }
  }

  lemma ConflictSwap(base: Slot, local: Slot, remote: Slot, p: seq<Text>)
    requires IsConflict(base, local, remote, p)
    ensures IsConflict(base, remote, local, p)
  {
    SlotEqualEquivalence(At(remote, p), At(local, p), At(remote, p));
  }

  lemma {:induction false} MergeJsonConflictsSwap(base: Json, local: Json, remote: Json, asSet: bool,
      rule: NoBaseRule, c: Text)
    requires Wf(base) && Wf(local) && Wf(remote) && !MergesAsSet(Val(base), local, remote, asSet)
    requires c in Merged(Val(base), local, remote, asSet, rule).conflicts
    ensures c in Merged(Val(base), remote, local, asSet, rule).conflicts
  {
    MergeJsonConflicts(base, local, remote, asSet, rule, c);
    var p :| c == Print(p) && IsConflict(Val(base), Val(local), Val(remote), p);
    ConflictSwap(Val(base), Val(local), Val(remote), p);
    MergeJsonConflicts(base, remote, local, asSet, rule, c);
  }

  /** Exchanging the two sides reports the same positions. */
  lemma {:induction false} MergeConflictsSymmetric(base: Json, local: Json, remote: Json, asSet: bool,
      rule: NoBaseRule, c: Text)
    requires Wf(base) && Wf(local) && Wf(remote)
    ensures c in Merged(Val(base), local, remote, asSet, rule).conflicts
       <==> c in Merged(Val(base), remote, local, asSet, rule).conflicts
  {
    if !MergesAsSet(Val(base), local, remote, asSet) {
      if c in Merged(Val(base), local, remote, asSet, rule).conflicts {
        MergeJsonConflictsSwap(base, local, remote, asSet, rule, c);
      }
      if c in Merged(Val(base), remote, local, asSet, rule).conflicts {
        MergeJsonConflictsSwap(base, remote, local, asSet, rule, c);
      }
    }
  }

  lemma {:induction false} NothingCovered(base: Json, local: Json, remote: Json, asSet: bool, rule: NoBaseRule,
      p: seq<Text>)
    requires Wf(base) && Wf(local) && Wf(remote) && !MergesAsSet(Val(base), local, remote, asSet)
    requires Merged(Val(base), local, remote, asSet, rule).conflicts == []
    ensures !Covered(Val(base), Val(local), Val(remote), p)
  {
    forall i | 0 <= i <= |p|
      ensures !IsConflict(Val(base), Val(local), Val(remote), p[..i])
    {
      ConflictsExact(Val(base), Val(local), Val(remote), p[..i]);
    }
  }

  /** Without conflicts the merge does not depend on which side is which:
      equal values, or the same members where the files are sets. */
  lemma {:induction false} MergeSymmetric(base: Json, local: Json, remote: Json, asSet: bool, rule: NoBaseRule)
    requires Wf(base) && Wf(local) && Wf(remote)
    requires Merged(Val(base), local, remote, asSet, rule).conflicts == []
    ensures var a, b := Merged(Val(base), local, remote, asSet, rule).value,
        Merged(Val(base), remote, local, asSet, rule).value;
            if MergesAsSet(Val(base), local, remote, asSet)
            then IsStringSet(a) && IsStringSet(b) && forall e :: e in a.elems <==> e in b.elems
            else JsonEqual(a, b)
  {
    var a, b := Merged(Val(base), local, remote, asSet, rule).value,
        Merged(Val(base), remote, local, asSet, rule).value;
    if MergesAsSet(Val(base), local, remote, asSet) {
      SetMergeSymmetric(BaseStrings(Val(base)), Strings(local), Strings(remote), a, b);
    } else {
      assert Merged(Val(base), remote, local, asSet, rule).conflicts == [] by {
        var cs := Merged(Val(base), remote, local, asSet, rule).conflicts;
        if cs != [] {
          MergeConflictsSymmetric(base, local, remote, asSet, rule, cs[0]);
        }
      }
      forall p
        ensures SameShape(At(Val(a), p), At(Val(b), p))
      {
        NothingCovered(base, local, remote, asSet, rule, p);
        NothingCovered(base, remote, local, asSet, rule, p);
        MergeJsonAt(base, local, remote, asSet, rule, p);
        MergeJsonAt(base, remote, local, asSet, rule, p);
        MergedSlotsAgree(At(Val(base), p), At(Val(local), p), At(Val(remote), p), At(Val(a), p), At(Val(b), p));
      }
      AgreeEverywhere(Val(a), Val(b));
    }
  }

  lemma MergedSlotsAgree(base: Slot, local: Slot, remote: Slot, a: Slot, b: Slot)
    requires MergedSlot(base, local, remote, a, false) && MergedSlot(base, remote, local, b, false)
    ensures SameShape(a, b)
  {
    SlotEqualIsContent(local, remote);
    SlotEqualIsContent(remote, local);
    SlotEqualIsContent(base, local);
    SlotEqualIsContent(base, remote);
    SlotEqualIsContent(a, local);
    SlotEqualIsContent(a, remote);
    SlotEqualIsContent(b, local);
    SlotEqualIsContent(b, remote);
    SlotEqualIsContent(a, b);
  }

  lemma SetMergeSymmetric(base: Option<seq<Text>>, l: seq<Text>, r: seq<Text>, a: Json, b: Json)
    requires NoDup(l) && NoDup(r)
    requires a == FromStrings(OrderedMembers(MergedMembers(base, l, r), l, r))
    requires b == FromStrings(OrderedMembers(MergedMembers(base, r, l), r, l))
    ensures IsStringSet(a) && IsStringSet(b) && forall e :: e in a.elems <==> e in b.elems
  {
    forall t
      ensures Str(t) in a.elems <==> Str(t) in b.elems
    {
      MergedSetExact(base, l, r, t);
      MergedSetExact(base, r, l, t);
    }
    MergedSetExact(base, l, r, []);
    MergedSetExact(base, r, l, []);
    forall e
      ensures e in a.elems <==> e in b.elems
    {
      if e in a.elems || e in b.elems {
        assert e.Str?;
        assert Str(e.s) in a.elems <==> Str(e.s) in b.elems;
      }
    }
  }

}
