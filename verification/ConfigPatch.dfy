/** Diff, patch and pinned positions of config files (src/sync/config-merge.ts). */
module ConfigPatch {
  import opened Utf16
  import opened JsonPointer
  import opened Json
  import opened ConfigMerge
  import opened ConfigMergeJson

  datatype Change =
    | SetValue(pointer: Text, value: Json, added: bool)
    | Remove(pointer: Text)
    | SetAdd(element: Text)
    | SetRemove(element: Text)

  // ── diffJson ───────────────────────────────────────────

  function DiffInto(base: Slot, local: Slot, ptr: Text): seq<Change>
    decreases local.Val?, if local.Val? then local.v else Null, 1, 0
  {
    if SlotEqual(base, local) then []
    else if local.Missing? then [Remove(ptr)]
    else if IsObj(base) && IsObj(local) then DiffKeys(OrderedKeys(local, base), base, local, ptr)
    else [SetValue(ptr, local.v, base.Missing?)]
  }

  function DiffKeys(keys: seq<Text>, base: Slot, local: Slot, ptr: Text): seq<Change>
    requires IsObj(local)
    decreases true, local.v, 0, |keys|
  {
    if keys == [] then []
    else
      DiffInto(SlotOf(base, keys[0]), SlotOf(local, keys[0]), ChildPointer(ptr, keys[0]))
      + DiffKeys(keys[1..], base, local, ptr)
  }

  predicate DiffsAsSet(base: Json, local: Json, asSet: bool) {
    asSet && IsStringSet(base) && IsStringSet(local)
  }

  /** The elements of `ts` not in `other`, each as a change. */
  function SetAdds(ts: seq<Text>, other: seq<Text>): seq<Change> {
    if ts == [] then []
    else
      SetAdds(ts[..|ts| - 1], other)
      + (if ts[|ts| - 1] in other then [] else [SetAdd(ts[|ts| - 1])])
  }

  function SetRemoves(ts: seq<Text>, other: seq<Text>): seq<Change> {
    if ts == [] then []
    else
      SetRemoves(ts[..|ts| - 1], other)
      + (if ts[|ts| - 1] in other then [] else [SetRemove(ts[|ts| - 1])])
  }

  function Diff(base: Json, local: Json, asSet: bool): seq<Change> {
    if DiffsAsSet(base, local, asSet)
    then SetAdds(Strings(local), Strings(base)) + SetRemoves(Strings(base), Strings(local))
    else DiffInto(Val(base), Val(local), [])
  }

  lemma SetAddsNext(l: seq<Text>, b: seq<Text>, i: nat)
    requires i < |l|
    ensures SetAdds(l[..i + 1], b) == SetAdds(l[..i], b) + if l[i] in b then [] else [SetAdd(l[i])]
  {
    assert l[..i + 1][..i] == l[..i];
  }

  lemma SetRemovesNext(b: seq<Text>, l: seq<Text>, i: nat)
    requires i < |b|
    ensures SetRemoves(b[..i + 1], l) == SetRemoves(b[..i], l) + if b[i] in l then [] else [SetRemove(b[i])]
  {
    assert b[..i + 1][..i] == b[..i];
  }

  method DiffJson(base: Json, local: Json, asSet: bool) returns (out: seq<Change>)
    ensures out == Diff(base, local, asSet)
  {
    if !DiffsAsSet(base, local, asSet) {
      return DiffInto(Val(base), Val(local), []);
    }
    var b, l := Strings(base), Strings(local);
    out := [];
    for i := 0 to |l|
      invariant out == SetAdds(l[..i], b)
    {
      if l[i] !in b { out := out + [SetAdd(l[i])]; }
      SetAddsNext(l, b, i);
    }
    assert l[..|l|] == l;
    ghost var adds := out;
    for i := 0 to |b|
      invariant out == adds + SetRemoves(b[..i], l)
    {
      if b[i] !in l { out := out + [SetRemove(b[i])]; }
      SetRemovesNext(b, l, i);
    }
    assert b[..|b|] == b;
  }

  // ── Where the changes are ──────────────────────────────

  /** A change is where the two differ, not both are objects, and both are at
      every ancestor. */
  ghost predicate IsDiffPoint(base: Slot, local: Slot, q: seq<Text>) {
    && !SlotEqual(At(base, q), At(local, q))
    && !(IsObj(At(base, q)) && IsObj(At(local, q)))
    && forall i :: 0 <= i < |q| ==> IsObj(At(base, q[..i])) && IsObj(At(local, q[..i]))
  }

  function PointOf(c: Change): seq<Text>
    requires c.SetValue? || c.Remove?
  {
    PointerTokens(c.pointer)
  }

  /** What a change puts at its position. */
  function SlotAfter(c: Change): Slot {
    if c.SetValue? then Val(c.value) else Missing
  }

  lemma IsDiffPointCons(base: Slot, local: Slot, k: Text, q: seq<Text>)
    requires IsObj(base) && IsObj(local) && IsDiffPoint(SlotOf(base, k), SlotOf(local, k), q)
    ensures IsDiffPoint(base, local, [k] + q)
  {
    var p := [k] + q;
    assert p[1..] == q;
    forall i | 0 <= i < |p|
      ensures IsObj(At(base, p[..i])) && IsObj(At(local, p[..i]))
    {
      if i > 0 {
        assert p[..i][1..] == q[..i - 1];
        assert p[..i][0] == k;
      }
    }
  }

  lemma IsDiffPointTail(base: Slot, local: Slot, q: seq<Text>)
    requires q != [] && IsDiffPoint(base, local, q)
    ensures IsObj(base) && IsObj(local)
    ensures IsDiffPoint(SlotOf(base, q[0]), SlotOf(local, q[0]), q[1..])
  {
    assert q[..0] == [];
    assert IsObj(At(base, q[..0])) && IsObj(At(local, q[..0]));
    forall i | 0 <= i < |q[1..]|
      ensures IsObj(At(SlotOf(base, q[0]), q[1..][..i])) && IsObj(At(SlotOf(local, q[0]), q[1..][..i]))
    {
      assert q[..i + 1][1..] == q[1..][..i];
      assert IsObj(At(base, q[..i + 1])) && IsObj(At(local, q[..i + 1]));
    }
  }

  lemma {:induction false} DiffKeysMember(keys: seq<Text>, base: Slot, local: Slot, ptr: Text, c: Change)
    requires IsObj(local)
    ensures c in DiffKeys(keys, base, local, ptr)
       <==> exists k :: k in keys && c in DiffInto(SlotOf(base, k), SlotOf(local, k), ChildPointer(ptr, k))
    decreases |keys|
  {
    if keys != [] {
      var head := DiffInto(SlotOf(base, keys[0]), SlotOf(local, keys[0]), ChildPointer(ptr, keys[0]));
      DiffKeysMember(keys[1..], base, local, ptr, c);
      assert DiffKeys(keys, base, local, ptr) == head + DiffKeys(keys[1..], base, local, ptr);
      assert keys == [keys[0]] + keys[1..];
      assert forall k :: k in keys <==> k == keys[0] || k in keys[1..];
    }
  }

  /** Every change is at a diff point and carries local's value there. */
  lemma {:induction false} DiffSound(base: Slot, local: Slot, ptr: Text, c: Change) returns (q: seq<Text>)
    requires c in DiffInto(base, local, ptr)
    ensures c.SetValue? || c.Remove?
    ensures c.pointer == ptr + Print(q) && IsDiffPoint(base, local, q)
    ensures SlotAfter(c) == At(local, q)
    ensures c.SetValue? ==> c.added == At(base, q).Missing?
    decreases local.Val?, if local.Val? then local.v else Null
  {
    if IsObj(base) && IsObj(local) {
      DiffKeysMember(OrderedKeys(local, base), base, local, ptr, c);
      var k :| k in OrderedKeys(local, base) && c in DiffInto(SlotOf(base, k), SlotOf(local, k), ChildPointer(ptr, k));
      var rest := DiffSound(SlotOf(base, k), SlotOf(local, k), ChildPointer(ptr, k), c);
      q := [k] + rest;
      assert q[1..] == rest;
      IsDiffPointCons(base, local, k, rest);
      PrintCons(k, rest, ptr);
    } else {
      q := [];
      assert ptr + Print([]) == ptr;
    }
  }

  /** Every diff point has its change. */
  lemma {:induction false} DiffComplete(base: Slot, local: Slot, ptr: Text, q: seq<Text>) returns (c: Change)
    requires WfSlot(base) && WfSlot(local) && IsDiffPoint(base, local, q)
    ensures c in DiffInto(base, local, ptr) && (c.SetValue? || c.Remove?) && c.pointer == ptr + Print(q)
    decreases |q|
  {
    if SlotEqual(base, local) {
      SlotEqualAt(base, local, q);
      assert false;
    }
    if q == [] {
      c := DiffInto(base, local, ptr)[0];
      assert ptr + Print([]) == ptr;
    } else {
      var k := q[0];
      IsDiffPointTail(base, local, q);
      c := DiffComplete(SlotOf(base, k), SlotOf(local, k), ChildPointer(ptr, k), q[1..]);
      PrintCons(k, q[1..], ptr);
      assert [k] + q[1..] == q;
      if k !in OrderedKeys(local, base) {
        AtMissing(q[1..]);
        assert false;
      }
      DiffKeysMember(OrderedKeys(local, base), base, local, ptr, c);
    }
  }

  /** No change is at or below another one. */
  lemma DiffPointsApart(base: Slot, local: Slot, p: seq<Text>, q: seq<Text>)
    requires IsDiffPoint(base, local, p) && IsDiffPoint(base, local, q) && p <= q
    ensures p == q
  {
    assert q[..|p|] == p;
  }

  // ── applyJsonChanges ───────────────────────────────────

  function Put(o: Json, k: Text, s: Slot): Json
    requires o.Obj?
  {
    if s.Missing? then Obj(Filter(o.keys, x => x != k), o.vals - {k})
    else if k in o.vals then Obj(o.keys, o.vals[k := s.v])
    else Obj(o.keys + [k], o.vals[k := s.v])
  }

  /** Walk to the parent of `tokens`, creating objects where there is none,
      then set or delete the last key. */
  function UpdatePath(root: Json, tokens: seq<Text>, s: Slot): (r: Json)
    requires tokens != []
    ensures r.Obj?
    decreases |tokens|
  {
    var o := if root.Obj? then root else EMPTY;
    var k := tokens[0];
    if |tokens| == 1 then Put(o, k, s)
    else Put(o, k, Val(UpdatePath(if k in o.vals then o.vals[k] else EMPTY, tokens[1..], s)))
  }

  function AddElement(root: Json, e: Text): Json {
    var elems := if root.Arr? then root.elems else [];
    Arr(if Str(e) in elems then elems else elems + [Str(e)])
  }

  function IndexOf<T(==)>(s: seq<T>, x: T): (i: int)
    ensures x in s ==> 0 <= i < |s| && s[i] == x && x !in s[..i]
    ensures x !in s ==> i == -1
  {
    if s == [] then -1
    else if s[0] == x then 0
    else
      var rest := IndexOf(s[1..], x);
      assert s == [s[0]] + s[1..];
      if rest < 0 then -1
      else
        assert s[..rest + 1] == [s[0]] + s[1..][..rest];
        rest + 1
  }

  function RemoveElement(root: Json, e: Text): Json {
    var elems := if root.Arr? then root.elems else [];
    Arr(RemoveFirst(elems, Str(e)))
  }

  function RemoveFirst<T(==)>(s: seq<T>, x: T): seq<T> {
    var i := IndexOf(s, x);
    if i >= 0 then s[..i] + s[i + 1..] else s
  }

  function ApplyOne(root: Json, c: Change): Json {
    match c
    case SetAdd(e) => AddElement(root, e)
    case SetRemove(e) => RemoveElement(root, e)
    case _ =>
      var tokens := PointOf(c);
      if tokens != [] then UpdatePath(root, tokens, SlotAfter(c))
      else if c.SetValue? then c.value
      else root
  }

  function ApplyAll(base: Json, changes: seq<Change>): Json {
    if changes == [] then base
    else ApplyOne(ApplyAll(base, changes[..|changes| - 1]), changes[|changes| - 1])
  }

  method ApplyJsonChanges(base: Json, changes: seq<Change>) returns (root: Json)
    ensures root == ApplyAll(base, changes)
  {
    root := base;
    for i := 0 to |changes|
      invariant root == ApplyAll(base, changes[..i])
    {
      root := ApplyOne(root, changes[i]);
      assert changes[..i + 1][..i] == changes[..i];
    }
    assert changes[..|changes|] == changes;
  }

  lemma SlotOfPut(o: Json, k: Text, s: Slot, k': Text)
    requires o.Obj?
    ensures SlotOf(Val(Put(o, k, s)), k') == if k' == k then s else SlotOf(Val(o), k')
  {}

  /** One update: the new value at and below `tokens`, objects above it, and
      nothing else moves. */
  lemma {:induction false} AtUpdate(root: Json, tokens: seq<Text>, s: Slot, q: seq<Text>)
    requires tokens != []
    ensures tokens <= q ==> At(Val(UpdatePath(root, tokens, s)), q) == At(s, q[|tokens|..])
    ensures q <= tokens && q != tokens ==> IsObj(At(Val(UpdatePath(root, tokens, s)), q))
    ensures !(tokens <= q) && !(q <= tokens) ==> At(Val(UpdatePath(root, tokens, s)), q) == At(Val(root), q)
    decreases |tokens|
  {
    if q != [] {
      var o := if root.Obj? then root else EMPTY;
      var k := tokens[0];
      var child := if k in o.vals then o.vals[k] else EMPTY;
      AtMissing(q[1..]);
      assert SlotOf(Val(root), q[0]) == SlotOf(Val(o), q[0]);
      if |tokens| == 1 {
        SlotOfPut(o, k, s, q[0]);
        assert tokens == [k];
        assert tokens <= q <==> q[0] == k;
      } else {
        SlotOfPut(o, k, Val(UpdatePath(child, tokens[1..], s)), q[0]);
        if q[0] == k {
          AtUpdate(child, tokens[1..], s, q[1..]);
          assert tokens == [k] + tokens[1..] && q == [k] + q[1..];
          assert tokens <= q <==> tokens[1..] <= q[1..];
          assert q <= tokens <==> q[1..] <= tokens[1..];
          if q[1..] != [] && k !in o.vals {
            AtMissing(q[1..][1..]);
          }
        } else {
          assert !(tokens <= q) && !(q <= tokens);
        }
      }
    }
  }

  /** An object on the way keeps its keys in their order; a key that is new goes
      last, and a removed one goes. */
  lemma {:induction false} UpdateKeys(root: Json, tokens: seq<Text>, s: Slot, n: nat)
    requires n < |tokens| && IsObj(At(Val(root), tokens[..n]))
    ensures var before := At(Val(root), tokens[..n]).v; var after := At(Val(UpdatePath(root, tokens, s)), tokens[..n]);
            IsObj(after)
            && after.v.keys == if n == |tokens| - 1 && s.Missing? then Filter(before.keys, k => k != tokens[n])
                               else if tokens[n] in before.vals then before.keys
                               else before.keys + [tokens[n]]
    decreases n
  {
    if n > 0 {
      var k := tokens[0];
      assert tokens[..n][0] == k && tokens[..n][1..] == tokens[1..][..n - 1];
      if !root.Obj? || k !in root.vals {
        AtMissing(tokens[1..][..n - 1]);
      }
      SlotOfPut(root, k, Val(UpdatePath(root.vals[k], tokens[1..], s)), k);
      UpdateKeys(root.vals[k], tokens[1..], s, n - 1);
    }
  }

  // ── Any selection of a diff ────────────────────────────

  ghost predicate Drawn(sel: seq<Change>, from: seq<Change>) {
    forall c :: c in sel ==> c in from
  }

  ghost predicate Selected(sel: seq<Change>, t: seq<Text>) {
    exists c :: c in sel && (c.SetValue? || c.Remove?) && c.pointer == Print(t)
  }

  /** `q` is at or below a selected change. */
  ghost predicate UnderSelected(sel: seq<Change>, q: seq<Text>) {
    exists i :: 0 <= i <= |q| && Selected(sel, q[..i])
  }

  /** `q` is above a selected change. */
  ghost predicate AboveSelected(sel: seq<Change>, q: seq<Text>) {
    exists t :: Selected(sel, t) && q <= t && q != t
  }

  /** What a patched file holds at `q`. */
  ghost predicate PatchedSlot(base: Slot, local: Slot, sel: seq<Change>, res: Slot, q: seq<Text>) {
    if UnderSelected(sel, q) then At(res, q) == At(local, q)
    else if AboveSelected(sel, q) then IsObj(At(res, q))
    else At(res, q) == At(base, q)
  }

  lemma SelectedLast(sel: seq<Change>, c: Change, t: seq<Text>, u: seq<Text>)
    requires (c.SetValue? || c.Remove?) && c.pointer == Print(t)
    ensures Selected(sel + [c], u) <==> Selected(sel, u) || u == t
  {
    if u == t {
      assert c in sel + [c];
    }
    if Selected(sel, u) {
      var d :| d in sel && (d.SetValue? || d.Remove?) && d.pointer == Print(u);
      assert d in sel + [c];
    }
    if Selected(sel + [c], u) {
      var d :| d in sel + [c] && (d.SetValue? || d.Remove?) && d.pointer == Print(u);
      if d !in sel {
        PrintInjective(t, u);
      }
    }
  }

  lemma {:induction false} SelectedIsDiffPoint(base: Json, local: Json, sel: seq<Change>, t: seq<Text>)
    requires Drawn(sel, DiffInto(Val(base), Val(local), [])) && Selected(sel, t)
    ensures IsDiffPoint(Val(base), Val(local), t)
  {
    var c :| c in sel && (c.SetValue? || c.Remove?) && c.pointer == Print(t);
    var q := DiffSound(Val(base), Val(local), [], c);
    assert [] + Print(q) == Print(q);
    PrintInjective(t, q);
  }

  /** How one more selected change moves the three kinds of positions. */
  lemma SelectionGrows(sel: seq<Change>, c: Change, t: seq<Text>, q: seq<Text>)
    requires (c.SetValue? || c.Remove?) && c.pointer == Print(t)
    ensures UnderSelected(sel + [c], q) <==> UnderSelected(sel, q) || t <= q
    ensures AboveSelected(sel + [c], q) <==> AboveSelected(sel, q) || (q <= t && q != t)
  {
    forall u
      ensures Selected(sel + [c], u) <==> Selected(sel, u) || u == t
    {
      SelectedLast(sel, c, t, u);
    }
    if t <= q {
      assert q[..|t|] == t;
      assert UnderSelected(sel + [c], q);
    }
    if UnderSelected(sel, q) {
      var i :| 0 <= i <= |q| && Selected(sel, q[..i]);
      assert Selected(sel + [c], q[..i]);
    }
    if UnderSelected(sel + [c], q) {
      var i :| 0 <= i <= |q| && Selected(sel + [c], q[..i]);
    }
    if AboveSelected(sel, q) {
      var u :| Selected(sel, u) && q <= u && q != u;
      assert Selected(sel + [c], u);
    }
    if q <= t && q != t {
      assert Selected(sel + [c], t);
    }
  }

  lemma {:induction false} ApplyOneAt(root: Json, c: Change, t: seq<Text>, local: Slot, q: seq<Text>)
    requires (c.SetValue? || c.Remove?) && c.pointer == Print(t)
    requires SlotAfter(c) == At(local, t) && (t == [] ==> c.SetValue?)
    ensures t <= q ==> At(Val(ApplyOne(root, c)), q) == At(local, q)
    ensures q <= t && q != t ==> IsObj(At(Val(ApplyOne(root, c)), q))
    ensures !(t <= q) && !(q <= t) ==> At(Val(ApplyOne(root, c)), q) == At(Val(root), q)
  {
    TokensOfPrint(t);
    if t <= q {
      AtAppend(local, t, q[|t|..]);
      assert q == t + q[|t|..];
    }
    if t != [] {
      AtUpdate(root, t, SlotAfter(c), q);
    }
  }

  /** Nothing selected stands above a diff point below `q`, nor below one above. */
  lemma {:induction false} SelectedApart(base: Json, local: Json, sel: seq<Change>, t: seq<Text>, q: seq<Text>)
    requires Drawn(sel, DiffInto(Val(base), Val(local), [])) && IsDiffPoint(Val(base), Val(local), t)
    ensures q <= t && q != t ==> !UnderSelected(sel, q)
    ensures t <= q && t != q ==> !AboveSelected(sel, q)
  {
    if q <= t && q != t && UnderSelected(sel, q) {
      var i :| 0 <= i <= |q| && Selected(sel, q[..i]);
      SelectedIsDiffPoint(base, local, sel, q[..i]);
      DiffPointsApart(Val(base), Val(local), q[..i], t);
    }
    if t <= q && t != q && AboveSelected(sel, q) {
      var u :| Selected(sel, u) && q <= u && q != u;
      SelectedIsDiffPoint(base, local, sel, u);
      DiffPointsApart(Val(base), Val(local), t, u);
    }
  }

  lemma {:induction false} PatchTreeAt(base: Json, local: Json, sel: seq<Change>, q: seq<Text>)
    requires Drawn(sel, DiffInto(Val(base), Val(local), []))
    ensures PatchedSlot(Val(base), Val(local), sel, Val(ApplyAll(base, sel)), q)
    decreases |sel|
  {
    if sel != [] {
      var n := |sel| - 1;
      var c, first := sel[n], sel[..n];
      assert sel == first + [c];
      var t := DiffSound(Val(base), Val(local), [], c);
      assert [] + Print(t) == Print(t);
      PatchTreeAt(base, local, first, q);
      SelectionGrows(first, c, t, q);
      ApplyOneAt(ApplyAll(base, first), c, t, Val(local), q);
      SelectedApart(base, local, first, t, q);
    } else {
      assert !UnderSelected(sel, q);
      assert !AboveSelected(sel, q);
    }
  }

  /** Any selection of what the diff returns, in any order and with repeats, where
      the files are not compared as sets: that is, unless the set option is on and
      both are lists of distinct strings. */
  lemma {:induction false} PatchAt(base: Json, local: Json, asSet: bool, sel: seq<Change>, q: seq<Text>)
    requires !(asSet && IsStringSet(base) && IsStringSet(local)) && Drawn(sel, Diff(base, local, asSet))
    ensures PatchedSlot(Val(base), Val(local), sel, Val(ApplyAll(base, sel)), q)
  {
    PatchTreeAt(base, local, sel, q);
  }

  /** Local's value at `q`, or its absence, with a mark where the base has none. */
  function ChangeAt(base: Slot, local: Slot, q: seq<Text>): Change {
    match At(local, q)
    case Val(v) => SetValue(Print(q), v, At(base, q).Missing?)
    case Missing => Remove(Print(q))
  }

  /** What the diff returns then: the changes at the diff points, and no others. */
  lemma {:induction false} DiffExactly(base: Json, local: Json, asSet: bool, c: Change)
    requires Wf(base) && Wf(local) && !(asSet && IsStringSet(base) && IsStringSet(local))
    ensures c in Diff(base, local, asSet)
       <==> exists q :: IsDiffPoint(Val(base), Val(local), q) && c == ChangeAt(Val(base), Val(local), q)
  {
    if c in Diff(base, local, asSet) {
      var q := DiffSound(Val(base), Val(local), [], c);
      assert [] + Print(q) == Print(q);
    }
    if q :| IsDiffPoint(Val(base), Val(local), q) && c == ChangeAt(Val(base), Val(local), q) {
      var d := DiffComplete(Val(base), Val(local), [], q);
      var p := DiffSound(Val(base), Val(local), [], d);
      assert [] + Print(q) == Print(q) && [] + Print(p) == Print(p);
      PrintInjective(p, q);
    }
  }

  // ── The whole diff ─────────────────────────────────────

  ghost predicate BothObj(a: Slot, b: Slot) {
    IsObj(a) && IsObj(b)
  }

  /** Where two files differ, some diff point is at or above. */
  lemma {:induction false} DiffPointAbove(base: Slot, local: Slot, p: seq<Text>) returns (i: nat)
    requires !SameShape(At(base, p), At(local, p))
    ensures i <= |p| && IsDiffPoint(base, local, p[..i])
    decreases |p|
  {
    if !BothObj(base, local) {
      if SlotEqual(base, local) {
        SlotEqualAt(base, local, p);
      }
      i := 0;
      assert p[..0] == [];
    } else {
      var j := DiffPointAbove(SlotOf(base, p[0]), SlotOf(local, p[0]), p[1..]);
      i := j + 1;
      assert p[..i] == [p[0]] + p[1..][..j];
      IsDiffPointCons(base, local, p[0], p[1..][..j]);
    }
  }

  lemma {:induction false} DifferenceIsSelected(base: Json, local: Json, sel: seq<Change>, p: seq<Text>)
    requires Wf(base) && Wf(local)
    requires Drawn(DiffInto(Val(base), Val(local), []), sel)
    requires !SameShape(At(Val(base), p), At(Val(local), p))
    ensures UnderSelected(sel, p)
  {
    var i := DiffPointAbove(Val(base), Val(local), p);
    var c := DiffComplete(Val(base), Val(local), [], p[..i]);
    assert [] + Print(p[..i]) == Print(p[..i]);
    assert Selected(sel, p[..i]);
  }

  /** Applying all that the diff returns, in any order, gives local's content. */
  lemma {:induction false} WholeDiff(base: Json, local: Json, asSet: bool, sel: seq<Change>)
    requires Wf(base) && Wf(local) && !(asSet && IsStringSet(base) && IsStringSet(local))
    requires Drawn(sel, Diff(base, local, asSet)) && Drawn(Diff(base, local, asSet), sel)
    ensures JsonEqual(ApplyAll(base, sel), local)
  {
    var b, l, r := Val(base), Val(local), Val(ApplyAll(base, sel));
    forall p
      ensures SameShape(At(r, p), At(l, p))
    {
      PatchAt(base, local, asSet, sel, p);
      if !SameShape(At(b, p), At(l, p)) {
        DifferenceIsSelected(base, local, sel, p);
      }
      if UnderSelected(sel, p) {
        SlotEqualEquivalence(At(l, p), At(l, p), At(l, p));
      } else if AboveSelected(sel, p) {
        var t :| Selected(sel, t) && p <= t && p != t;
        SelectedIsDiffPoint(base, local, sel, t);
        assert t[..|p|] == p;
      }
    }
    AgreeEverywhere(r, l);
  }

  // ── Sets ───────────────────────────────────────────────

  lemma {:induction false} SetAddsMember(ts: seq<Text>, other: seq<Text>, c: Change)
    ensures c in SetAdds(ts, other) <==> c.SetAdd? && c.element in ts && c.element !in other
  {
    if ts != [] {
      var n := |ts| - 1;
      SetAddsMember(ts[..n], other, c);
      assert ts == ts[..n] + [ts[n]];
    }
  }

  lemma {:induction false} SetRemovesMember(ts: seq<Text>, other: seq<Text>, c: Change)
    ensures c in SetRemoves(ts, other) <==> c.SetRemove? && c.element in ts && c.element !in other
  {
    if ts != [] {
      var n := |ts| - 1;
      SetRemovesMember(ts[..n], other, c);
      assert ts == ts[..n] + [ts[n]];
    }
  }

  lemma SetDiffMember(base: Json, local: Json, c: Change)
    requires IsStringSet(base) && IsStringSet(local)
    ensures c in Diff(base, local, true)
       <==> match c
            case SetAdd(e) => Str(e) in local.elems && Str(e) !in base.elems
            case SetRemove(e) => Str(e) in base.elems && Str(e) !in local.elems
            case _ => false
  {
    SetAddsMember(Strings(local), Strings(base), c);
    SetRemovesMember(Strings(base), Strings(local), c);
  }

  lemma AddElementSet(root: Json, e: Text, x: Json)
    requires IsStringSet(root)
    ensures IsStringSet(AddElement(root, e))
    ensures x in AddElement(root, e).elems <==> x in root.elems || x == Str(e)
  {}

  lemma RemoveElementSet(root: Json, e: Text, x: Json)
    requires IsStringSet(root)
    ensures IsStringSet(RemoveElement(root, e))
    ensures x in RemoveElement(root, e).elems <==> x in root.elems && x != Str(e)
  {}

  /** Any selection of a set diff: the selected elements as local has them, the
      others as the base has them. */
  lemma {:induction false} PatchSetAt(base: Json, local: Json, sel: seq<Change>, e: Text)
    requires IsStringSet(base) && IsStringSet(local) && Drawn(sel, Diff(base, local, true))
    ensures IsStringSet(ApplyAll(base, sel))
    ensures Str(e) in ApplyAll(base, sel).elems
       <==> Str(e) in (if SetAdd(e) in sel || SetRemove(e) in sel then local.elems else base.elems)
    decreases |sel|
  {
    if sel != [] {
      var n := |sel| - 1;
      var c, first := sel[n], sel[..n];
      assert sel == first + [c];
      PatchSetAt(base, local, first, e);
      SetDiffMember(base, local, c);
      ApplySetOne(ApplyAll(base, first), c, e);
      SameElementAgain(base, local, first, c, e);
    }
  }

  lemma ApplySetOne(root: Json, c: Change, e: Text)
    requires IsStringSet(root) && (c.SetAdd? || c.SetRemove?)
    ensures IsStringSet(ApplyOne(root, c))
    ensures Str(e) in ApplyOne(root, c).elems
       <==> if c.element == e then c.SetAdd? else Str(e) in root.elems
  {
    if c.SetAdd? {
      AddElementSet(root, c.element, Str(e));
    } else {
      RemoveElementSet(root, c.element, Str(e));
    }
  }

  /** What the changes of a set diff say of one element. */
  lemma SameElementAgain(base: Json, local: Json, first: seq<Change>, c: Change, e: Text)
    requires IsStringSet(base) && IsStringSet(local)
    requires Drawn(first + [c], Diff(base, local, true)) && (c.SetAdd? || c.SetRemove?)
    ensures c.element == e ==> (c.SetAdd? <==> Str(e) in local.elems)
    ensures (SetAdd(e) in first + [c] || SetRemove(e) in first + [c])
       <==> c.element == e || SetAdd(e) in first || SetRemove(e) in first
  {
    assert c in first + [c];
    SetDiffMember(base, local, c);
  }

  lemma WholeSetDiff(base: Json, local: Json, sel: seq<Change>, e: Text)
    requires IsStringSet(base) && IsStringSet(local)
    requires Drawn(sel, Diff(base, local, true)) && Drawn(Diff(base, local, true), sel)
    ensures IsStringSet(ApplyAll(base, sel))
    ensures Str(e) in ApplyAll(base, sel).elems <==> Str(e) in local.elems
  {
    PatchSetAt(base, local, sel, e);
    SetDiffMember(base, local, SetAdd(e));
    SetDiffMember(base, local, SetRemove(e));
  }

  // ── pinPointers ────────────────────────────────────────

  function PinOne(root: Json, source: Json, tokens: seq<Text>): Json {
    var src := At(Val(source), tokens);
    if tokens == [] then source
    else if src.Missing? && !IsObj(At(Val(root), tokens[..|tokens| - 1])) then root
    else UpdatePath(root, tokens, src)
  }

  function PinAll(value: Json, source: Json, pointers: seq<Text>): Json {
    if pointers == [] then value
    else
      var n := |pointers| - 1;
      PinOne(PinAll(value, source, pointers[..n]), source, PointerTokens(pointers[n]))
  }

  function PinMember(root: Json, source: Json, tokens: seq<Text>): Json
    requires root.Arr? && source.Arr?
  {
    if |tokens| != 1 then root
    else if Str(tokens[0]) in source.elems then AddElement(root, tokens[0])
    else RemoveElement(root, tokens[0])
  }

  function PinMembers(value: Json, source: Json, pointers: seq<Text>): (r: Json)
    requires value.Arr? && source.Arr?
    ensures r.Arr?
  {
    if pointers == [] then value
    else
      var n := |pointers| - 1;
      PinMember(PinMembers(value, source, pointers[..n]), source, PointerTokens(pointers[n]))
  }

  function Pinned(value: Json, source: Json, pointers: seq<Text>, asSet: bool): Json {
    if DiffsAsSet(value, source, asSet) then PinMembers(value, source, pointers)
    else PinAll(value, source, pointers)
  }

  method PinPointers(value: Json, source: Json, pointers: seq<Text>, asSet: bool) returns (root: Json)
    ensures root == Pinned(value, source, pointers, asSet)
  {
    root := value;
    if DiffsAsSet(value, source, asSet) {
      for i := 0 to |pointers|
        invariant root == PinMembers(value, source, pointers[..i])
      {
        root := PinMember(root, source, PointerTokens(pointers[i]));
        assert pointers[..i + 1][..i] == pointers[..i];
      }
    } else {
      for i := 0 to |pointers|
        invariant root == PinAll(value, source, pointers[..i])
      {
        root := PinOne(root, source, PointerTokens(pointers[i]));
        assert pointers[..i + 1][..i] == pointers[..i];
      }
    }
    assert pointers[..|pointers|] == pointers;
  }

  /** `q` is at or below a pinned position. */
  ghost predicate UnderPin(pointers: seq<Text>, q: seq<Text>) {
    exists i :: 0 <= i < |pointers| && PointerTokens(pointers[i]) <= q
  }

  /** `q` is above a pinned position. */
  ghost predicate AbovePin(pointers: seq<Text>, q: seq<Text>) {
    exists i :: 0 <= i < |pointers| && q <= PointerTokens(pointers[i])
  }

  lemma {:induction false} ObjAbove(s: Slot, t: seq<Text>, q: seq<Text>)
    requires q <= t && q != t && (At(s, t).Val? || IsObj(At(s, t[..|t| - 1])))
    ensures IsObj(At(s, q))
  {
    var n := |t| - 1;
    var rest := t[..n][|q|..];
    assert t[..n] == q + rest;
    AtAppend(s, q, rest);
    if rest != [] && !IsObj(At(s, q)) {
      AtNotObj(At(s, q), rest);
    }
    assert t == t[..n] + [t[n]];
    AtLast(s, t[..n], t[n]);
  }

  /** One pin, at every position. */
  lemma {:induction false} PinOneAt(root: Json, source: Json, t: seq<Text>, q: seq<Text>)
    ensures t <= q ==> At(Val(PinOne(root, source, t)), q) == At(Val(source), q)
    ensures q <= t && q != t && SameShape(At(Val(root), q), At(Val(source), q))
            ==> SameShape(At(Val(PinOne(root, source, t)), q), At(Val(source), q))
    ensures !(t <= q) && !(q <= t) ==> At(Val(PinOne(root, source, t)), q) == At(Val(root), q)
  {
    var src := At(Val(source), t);
    if t <= q {
      assert q == t + q[|t|..];
      AtAppend(Val(source), t, q[|t|..]);
      AtAppend(Val(root), t, q[|t|..]);
    }
    if t != [] {
      AtUpdate(root, t, src, q);
      var parent := At(Val(root), t[..|t| - 1]);
      if src.Missing? && !IsObj(parent) {
        AtLast(Val(root), t[..|t| - 1], t[|t| - 1]);
        assert t == t[..|t| - 1] + [t[|t| - 1]];
        assert At(Val(root), t) == Missing;
        AtMissing(if t <= q then q[|t|..] else []);
      } else if q <= t && q != t && SameShape(At(Val(root), q), At(Val(source), q)) {
        if src.Val? {
          ObjAbove(Val(source), t, q);
        } else {
          ObjAbove(Val(root), t, q);
          SlotEqualAt(At(Val(source), q), At(Val(source), q), []) by {
            SlotEqualEquivalence(At(Val(source), q), At(Val(source), q), At(Val(source), q));
          }
          if !IsObj(At(Val(source), q)) {
            SlotEqualOf(At(Val(root), q), At(Val(source), q), []);
          }
        }
      }
    }
  }

  lemma UnderPinGrows(pointers: seq<Text>, q: seq<Text>)
    requires pointers != []
    ensures var n := |pointers| - 1;
            UnderPin(pointers, q) <==> UnderPin(pointers[..n], q) || PointerTokens(pointers[n]) <= q
  {
    var rest := pointers[..|pointers| - 1];
    assert forall i :: 0 <= i < |rest| ==> rest[i] == pointers[i];
  }

  lemma AbovePinGrows(pointers: seq<Text>, q: seq<Text>)
    requires pointers != []
    ensures var n := |pointers| - 1;
            AbovePin(pointers, q) <==> AbovePin(pointers[..n], q) || q <= PointerTokens(pointers[n])
  {
    var rest := pointers[..|pointers| - 1];
    assert forall i :: 0 <= i < |rest| ==> rest[i] == pointers[i];
  }

  lemma {:induction false} PinAllAt(value: Json, source: Json, pointers: seq<Text>, q: seq<Text>)
    ensures UnderPin(pointers, q) ==> SameShape(At(Val(PinAll(value, source, pointers)), q), At(Val(source), q))
    ensures !UnderPin(pointers, q) && !AbovePin(pointers, q) ==>
        At(Val(PinAll(value, source, pointers)), q) == At(Val(value), q)
    decreases |pointers|
  {
    if pointers != [] {
      var n := |pointers| - 1;
      var t := PointerTokens(pointers[n]);
      PinAllAt(value, source, pointers[..n], q);
      PinOneAt(PinAll(value, source, pointers[..n]), source, t, q);
      SlotEqualEquivalence(At(Val(source), q), At(Val(source), q), At(Val(source), q));
      UnderPinGrows(pointers, q);
      AbovePinGrows(pointers, q);
      if !(t <= q) && q <= t {
        assert q != t;
      }
    }
  }

  /** Each pinned position holds the source's value, whatever is pinned before
      or after it; positions unrelated to every pin keep theirs. */
  lemma {:induction false} PinnedPositions(value: Json, source: Json, pointers: seq<Text>, asSet: bool, q: seq<Text>)
    requires !(asSet && IsStringSet(value) && IsStringSet(source))
    ensures var root := Pinned(value, source, pointers, asSet);
            && (UnderPin(pointers, q) ==> SlotEqual(At(Val(root), q), At(Val(source), q)))
            && (!UnderPin(pointers, q) && !AbovePin(pointers, q) ==> At(Val(root), q) == At(Val(value), q))
  {
    PinAllAt(value, source, pointers, q);
    if UnderPin(pointers, q) {
      var a, b := At(Val(PinAll(value, source, pointers)), q), At(Val(source), q);
      var i :| 0 <= i < |pointers| && PointerTokens(pointers[i]) <= q;
      forall p
        ensures SameShape(At(a, p), At(b, p))
      {
        assert PointerTokens(pointers[i]) <= q + p;
        PinAllAt(value, source, pointers, q + p);
        AtAppend(Val(PinAll(value, source, pointers)), q, p);
        AtAppend(Val(source), q, p);
      }
      AgreeEverywhere(a, b);
    }
  }

  ghost predicate PinnedMember(pointers: seq<Text>, e: Text) {
    exists i :: 0 <= i < |pointers| && PointerTokens(pointers[i]) == [e]
  }

  /** In set mode a pinned element is a member exactly as in the source. */
  lemma {:induction false} PinnedMembers(value: Json, source: Json, pointers: seq<Text>, e: Text)
    requires IsStringSet(value) && IsStringSet(source)
    ensures var root := Pinned(value, source, pointers, true);
            IsStringSet(root)
            && (Str(e) in root.elems <==> Str(e) in (if PinnedMember(pointers, e) then source.elems else value.elems))
  {
    PinMembersAt(value, source, pointers, e);
  }

  lemma {:induction false} PinMembersAt(value: Json, source: Json, pointers: seq<Text>, e: Text)
    requires IsStringSet(value) && IsStringSet(source)
    ensures IsStringSet(PinMembers(value, source, pointers))
    ensures Str(e) in PinMembers(value, source, pointers).elems
       <==> Str(e) in (if PinnedMember(pointers, e) then source.elems else value.elems)
    decreases |pointers|
  {
    if pointers != [] {
      var n := |pointers| - 1;
      var tokens := PointerTokens(pointers[n]);
      var root := PinMembers(value, source, pointers[..n]);
      PinMembersAt(value, source, pointers[..n], e);
      PinnedMemberGrows(pointers, e);
      PinMemberAt(root, source, tokens, e);
    }
  }

  lemma PinnedMemberGrows(pointers: seq<Text>, e: Text)
    requires pointers != []
    ensures var n := |pointers| - 1;
            PinnedMember(pointers, e) <==> PinnedMember(pointers[..n], e) || PointerTokens(pointers[n]) == [e]
  {}

  lemma PinMemberAt(root: Json, source: Json, tokens: seq<Text>, e: Text)
    requires IsStringSet(root) && IsStringSet(source)
    ensures IsStringSet(PinMember(root, source, tokens))
    ensures Str(e) in PinMember(root, source, tokens).elems
        <==> Str(e) in (if tokens == [e] then source.elems else root.elems)
  {
    if |tokens| == 1 {
      AddElementSet(root, tokens[0], Str(e));
      RemoveElementSet(root, tokens[0], Str(e));
    }
  }
}
