/** Vector clocks (src/sync/vector-clock.ts): a missing entry counts as 0. */
module VectorClocks {

  type Device = string

  type Clock = map<Device, nat>

  datatype VCRelation = Equal | Dominates | Dominated | Concurrent

  function Entry(c: Clock, d: Device): nat {
    if d in c then c[d] else 0
  }

  /** `a` has seen nothing that `b` has not. */
  predicate Leq(a: Clock, b: Clock): (r: bool)
    ensures r <==> forall d :: Entry(a, d) <= Entry(b, d)
  {
    assert forall d :: d in a ==> a[d] == Entry(a, d);
    forall d :: d in a ==> a[d] <= Entry(b, d)
  }

  function Compare(a: Clock, b: Clock): VCRelation {
    if Leq(a, b) then (if Leq(b, a) then Equal else Dominated)
    else if Leq(b, a) then Dominates
    else Concurrent
  }

  function Max(a: nat, b: nat): nat {
    if a < b then b else a
  }

  function Join(a: Clock, b: Clock): (c: Clock)
    ensures forall d :: Entry(c, d) == Max(Entry(a, d), Entry(b, d))
  {
    map d | d in a.Keys + b.Keys :: Max(Entry(a, d), Entry(b, d))
  }

  function Increment(c: Clock, d: Device): (r: Clock)
    ensures forall x :: Entry(r, x) == Entry(c, x) + if x == d then 1 else 0
  {
    c[d := Entry(c, d) + 1]
  }

  method CompareVC(a: Clock, b: Clock) returns (r: VCRelation)
    ensures r == Compare(a, b)
  {
    var anyGreater, anyLess := false, false;
    var keys := a.Keys + b.Keys;
    while keys != {}
      invariant keys <= a.Keys + b.Keys
      invariant anyGreater <==> exists d :: d in (a.Keys + b.Keys) - keys && Entry(a, d) > Entry(b, d)
      invariant anyLess <==> exists d :: d in (a.Keys + b.Keys) - keys && Entry(a, d) < Entry(b, d)
      decreases keys
    {
      var k :| k in keys;
      if Entry(a, k) > Entry(b, k) {
        anyGreater := true;
      } else if Entry(a, k) < Entry(b, k) {
        anyLess := true;
      }
      keys := keys - {k};
    }
    assert anyGreater <==> !Leq(a, b) by {
      assert forall d :: Entry(a, d) > Entry(b, d) ==> d in a.Keys + b.Keys;
    }
    assert anyLess <==> !Leq(b, a) by {
      assert forall d :: Entry(a, d) < Entry(b, d) ==> d in a.Keys + b.Keys;
    }
    if anyGreater && anyLess { return Concurrent; }
    if anyGreater { return Dominates; }
    if anyLess { return Dominated; }
    return Equal;
  }

  method MergeVC(a: Clock, b: Clock) returns (out: Clock)
    ensures out == Join(a, b)
  {
    out := map[];
    var keys := a.Keys + b.Keys;
    while keys != {}
      invariant keys <= a.Keys + b.Keys
      invariant out.Keys == (a.Keys + b.Keys) - keys
      invariant forall d :: d in out ==> out[d] == Max(Entry(a, d), Entry(b, d))
      decreases keys
    {
      var k :| k in keys;
      out := out[k := Max(Entry(a, k), Entry(b, k))];
      keys := keys - {k};
    }
  }

  lemma EqualEntries(a: Clock, b: Clock)
    requires Compare(a, b) == Equal
    ensures forall d :: Entry(a, d) == Entry(b, d)
  {}
}
