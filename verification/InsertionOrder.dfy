/** Tables as runs of adds leave them, and when the order of the adds is invisible to lookup. */
module InsertionOrder {
  import opened Packets
  import opened FlowEntries
  import opened FlowTables
  import opened TableInvariant
  import opened TableLookup

  function AddOf(e: Entry): (r: OfMsg) {
    Flow(FlowMod(Add, One(0), e.priority, e.match_, e.instructions, None))
  }

  /** One add after the other, in the order of a. */
  function AddsOf(a: Table): (r: seq<OfMsg>) {
    seq(|a|, i requires 0 <= i < |a| => AddOf(a[i]))
  }

  function OneTable(t: Table): (r: Switch) {
    Switch([t], map[])
  }

  /** What the adds leave of an empty table. */
  function Built(a: Table): (t: Table) {
    Run(OneTable([]), AddsOf(a), false).0.tables[0]
  }

  lemma {:induction false} AtPriorityConcat(a: Table, b: Table, p: nat)
    ensures AtPriority(a + b, p) == AtPriority(a, p) + AtPriority(b, p)
  {
    if a == [] {
      assert a + b == b;
    } else {
      assert a + b == [a[0]] + (a[1..] + b) && a == [a[0]] + a[1..];
      AtPriorityConcat(a[1..], b, p);
      AtPriorityCons(a[0], a[1..] + b, p);
      AtPriorityCons(a[0], a[1..], p);
    }
  }

  lemma SortAgain(p: Table, e: Entry)
    ensures Sort(Sort(p) + [e]) == Sort(p + [e])
  {
    SortProperties(p);
    SortProperties(Sort(p) + [e]);
    SortProperties(p + [e]);
    forall q ensures SameAt(Sort(Sort(p) + [e]), Sort(p + [e]), q) {
      AtPriorityConcat(Sort(p), [e], q);
      AtPriorityConcat(p, [e], q);
    }
    StableOrderIsUnique(Sort(Sort(p) + [e]), Sort(p + [e]));
  }

  lemma SortedStays(t: Table)
    requires Sorted(t)
    ensures Sort(t) == t
  {
    SortProperties(t);
    forall q ensures SameAt(Sort(t), t, q) {
    }
    StableOrderIsUnique(Sort(t), t);
  }

  lemma MadeAsIs(e: Entry)
    requires WellFormed(e)
    ensures MakeEntry(AddOf(e).mod) == e
  {
    assert Masked(e.match_) == e.match_;
  }

  lemma OneTableAdd(t: Table, e: Entry)
    requires WellFormed(e) && AddTo(t, e).Ok?
    ensures Step(OneTable(t), AddOf(e)) == (OneTable(Sort(AddTo(t, e).value)), Accepted)
  {
    MadeAsIs(e);
    RangeIsTablewise([t], 0, 1, Add, e);
    var ts := ApplyRange([t], 0, 1, Add, e).0;
    assert ts == [AddTo(t, e).value];
    assert SortTables(ts) == [Sort(AddTo(t, e).value)];
  }

  /** The next add goes behind what is there: nothing overlaps it. */
  lemma NextAdd(a: Table, i: nat)
    requires Good(a) && i < |a|
    ensures Step(OneTable(Sort(a[..i])), AddOf(a[i])) == (OneTable(Sort(a[..i + 1])), Accepted)
  {
    var p, e := a[..i], a[i];
    PrefixClear(a, i);
    SortGood(p);
    AddBehind(Sort(p), e);
    OneTableAdd(Sort(p), e);
    SortAgain(p, e);
    assert a[..i + 1] == p + [e];
  }

  lemma PrefixClear(a: Table, i: nat)
    requires Good(a) && i < |a|
    ensures Good(a[..i]) && WellFormed(a[i]) && ClearOf(a[i], a[..i])
  {
    assert a[i] in a && forall x | x in a[..i] :: x in a;
    forall x | x in a[..i] ensures !Overlaps(a[i], x) {
      var k :| 0 <= k < i && a[k] == x;
      assert !Overlaps(a[k], a[i]);
      OverlapsIffEqualSharedValues(a[i], x);
    }
  }

  lemma AddBehind(t: Table, e: Entry)
    requires Good(t) && WellFormed(e) && ClearOf(e, t)
    ensures AddTo(t, e) == Ok(t + [e])
  {
    AddMeaning(t, e);
    OthersOfClear(t, e);
  }

  lemma {:induction false} AddsFrom(a: Table, i: nat)
    requires Good(a) && i <= |a|
    ensures Run(OneTable(Sort(a[..i])), AddsOf(a)[i..], false) == (OneTable(Sort(a)), Accepted)
    decreases |a| - i
  {
    if i == |a| {
      assert a[..i] == a && AddsOf(a)[i..] == [];
    } else {
      NextAdd(a, i);
      assert AddsOf(a)[i..][0] == AddOf(a[i]) && AddsOf(a)[i..][1..] == AddsOf(a)[i + 1..];
      AddsFrom(a, i + 1);
    }
  }

  /** Adding non-overlapping entries in any order raises nothing and leaves them sorted, stably in that order. */
  lemma BuiltIsSorted(a: Table)
    requires Good(a)
    ensures Run(OneTable([]), AddsOf(a), false) == (OneTable(Sort(a)), Accepted) && Built(a) == Sort(a)
  {
    AddsFrom(a, 0);
    assert a[..0] == [] && AddsOf(a)[0..] == AddsOf(a);
  }

  /** A good sorted table is what the adds of its entries, in order, make of an empty one. */
  lemma TableIsBuilt(t: Table)
    requires Good(t) && Sorted(t)
    ensures Built(t) == t
  {
    BuiltIsSorted(t);
    SortedStays(t);
  }

  /** The entries of t in some order of insertion. */
  ghost predicate Orders(a: Table, t: Table) {
    Good(a) && forall x :: x in a <==> x in t
  }

  /** In whatever order the entries are added, every packet finds the same one. */
  ghost predicate InsertionInvisible(t: Table) {
    forall a, b, pkt | Orders(a, t) && Orders(b, t) :: Lookup(Built(a), pkt) == Lookup(Built(b), pkt)
  }

  /** That is so exactly when no packet has two best matches. */
  lemma InsertionInvisibleIff(t: Table)
    requires Good(t)
    ensures InsertionInvisible(t) <==> Unambiguous(t)
  {
    OrderIndependentIff(t);
    if Unambiguous(t) {
      forall a, b, pkt | Orders(a, t) && Orders(b, t) ensures Lookup(Built(a), pkt) == Lookup(Built(b), pkt) {
        OrderArranges(a, t);
        OrderArranges(b, t);
      }
    }
    if InsertionInvisible(t) {
      forall u, v, pkt | Arranges(u, t) && Arranges(v, t) ensures Lookup(u, pkt) == Lookup(v, pkt) {
        TableIsBuilt(u);
        TableIsBuilt(v);
        assert Orders(u, t) && Orders(v, t);
      }
      assert OrderIndependent(t);
    }
  }

  lemma OrderArranges(a: Table, t: Table)
    requires Orders(a, t)
    ensures Arranges(Built(a), t)
  {
    BuiltIsSorted(a);
    SortGood(a);
    SortProperties(a);
  }
}
