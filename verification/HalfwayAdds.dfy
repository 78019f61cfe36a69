/** Why error-free lists with adds aimed at every table are not redundant. */
module HalfwayAdds {
  import opened Packets
  import opened FlowEntries
  import opened FlowTables
  import opened TableInvariant
  import opened Redundancy

  /** An add to the second table, one to both, a delete from the first, and an add there that clashes. */
  function HalfwayList(k: Match, k2: Match): (r: seq<OfMsg>) {
    [Flow(FlowMod(Add, One(1), 5, k, [], None)), Flow(FlowMod(Add, AllTables, 5, k, [GotoTable(1)], None)),
     Flow(FlowMod(DeleteStrict, One(0), 5, k, [], None)), Flow(FlowMod(Add, One(0), 5, k2, [], None))]
  }

  predicate Clashing(k: Match, k2: Match) {
    Masked(k) == k && Masked(k2) == k2 && k != k2 && KeysOverlap(Key(5, k), Key(5, k2))
  }

  function TwoTables(t0: Table, t1: Table): (r: Switch) {
    Switch([t0, t1], map[])
  }

  lemma HalfwayOwnRun(k: Match, k2: Match, ignoreErrors: bool)
    requires Clashing(k, k2)
    ensures Run(TwoTables([], []), HalfwayList(k, k2), ignoreErrors) ==
            (TwoTables([Entry(5, k2, [], None)], [Entry(5, k, [GotoTable(1)], None)]), Accepted)
  {
    var msgs := HalfwayList(k, k2);
    var x, y, z := Entry(5, k, [], None), Entry(5, k, [GotoTable(1)], None), Entry(5, k2, [], None);
    OneEntryTable(x, y);
    OneEntryTable(y, x);
    OneEntryTable(z, z);
    AcceptedInTwo([], [], msgs[0].mod, [], [x]);
    AcceptedInTwo([], [x], msgs[1].mod, [y], [y]);
    AcceptedInTwo([y], [y], msgs[2].mod, [], [y]);
    AcceptedInTwo([], [y], msgs[3].mod, [z], [y]);
    FourSteps(TwoTables([], []), msgs, TwoTables([], [x]), TwoTables([y], [y]), TwoTables([], [y]),
              TwoTables([z], [y]), ignoreErrors);
  }

  lemma HalfwayCopy(k: Match, k2: Match)
    requires Clashing(k, k2)
    ensures Run(TwoTables([Entry(5, k2, [], None)], [Entry(5, k, [GotoTable(1)], None)]), HalfwayList(k, k2), true) ==
            (TwoTables([Entry(5, k2, [], None)], [Entry(5, k, [], None)]), Accepted)
  {
    var msgs := HalfwayList(k, k2);
    var x, y, z := Entry(5, k, [], None), Entry(5, k, [GotoTable(1)], None), Entry(5, k2, [], None);
    OneEntryTable(x, y);
    OneEntryTable(z, z);
    Clash(y, z);
    Clash(x, z);
    var missed := TwoTables([z], [x]);
    AcceptedInTwo([z], [y], msgs[0].mod, [z], [x]);
    assert ApplyRange(missed.tables, 0, 2, Add, y) == (missed.tables, Refused);
    AcceptedInTwo([z], [x], msgs[2].mod, [z], [x]);
    AcceptedInTwo([z], [x], msgs[3].mod, [z], [x]);
    FourSteps(TwoTables([z], [y]), msgs, missed, missed, missed, missed, true);
  }

  /**
   An add to every table is refused as a whole when the first table refuses it, so a table it had
   reached in the list's own, error-free run may miss it in the copy.
   */
  lemma AddToEveryTableDiverges(f: Field, g: Field)
    requires f != g
    ensures
      var k, k2 := map[f := FieldMatch({0}, {0})], map[g := FieldMatch({0}, {0})];
      var s, msgs := TwoTables([], []), HalfwayList(k, k2);
      && AllGood(s.tables) && FiltersSteady(s, msgs)
      && Run(s, msgs, false).1 == Accepted && !Converges(s, msgs, 4)
  {
    var k, k2 := map[f := FieldMatch({0}, {0})], map[g := FieldMatch({0}, {0})];
    OneBitMatchesClash(f, g);
    var s, msgs := TwoTables([], []), HalfwayList(k, k2);
    HalfwayOwnRun(k, k2, false);
    HalfwayOwnRun(k, k2, true);
    HalfwayCopy(k, k2);
    OneMissed(Entry(5, k2, [], None), Entry(5, k, [], None), Entry(5, k, [GotoTable(1)], None));
    UnmixedIsSteady(s, msgs);
    RepeatingDiverges(s, msgs);
  }

  lemma OneBitMatchesClash(f: Field, g: Field)
    requires f != g
    ensures Clashing(map[f := FieldMatch({0}, {0})], map[g := FieldMatch({0}, {0})])
  {
    var k, k2 := map[f := FieldMatch({0}, {0})], map[g := FieldMatch({0}, {0})];
    assert f in k && f !in k2;
    var bit: Word := {0};
    assert bit * bit == bit;
    assert Masked(k) == k && Masked(k2) == k2;
  }

  lemma OneMissed(z: Entry, x: Entry, y: Entry)
    requires x != y
    ensures !Alike(TwoTables([z], [x]).tables, TwoTables([z], [y]).tables)
  {
    var ts, us := TwoTables([z], [x]).tables, TwoTables([z], [y]).tables;
    assert x in ts[1] && x !in us[1];
  }

  lemma OneEntryTable(e: Entry, other: Entry)
    ensures AddTo([], e) == Ok([e])
    ensures SameMatch(e, other) && e.outPort.None? ==>
              AddTo([other], e) == Ok([e]) && DeleteStrictFrom([other], e) == []
    ensures DeleteStrictFrom([], e) == []
  {
    assert [other][1..] == [] && [] + [e] == [e];
  }

  lemma Clash(e: Entry, other: Entry)
    requires e.outPort.None? && !SameMatch(e, other) && Overlaps(e, other)
    ensures AddTo([other], e) == Raised && DeleteStrictFrom([other], e) == [other]
  {
    assert [other][1..] == [];
    assert [other] + [] == [other];
  }

  lemma AcceptedInTwo(t0: Table, t1: Table, fm: FlowMod, r0: Table, r1: Table)
    requires DistinctKinds(fm.instructions) && |r0| <= 1 && |r1| <= 1
    requires fm.target == AllTables || fm.target == One(0) || fm.target == One(1)
    requires if fm.target == One(1) then r0 == t0 else Apply(t0, fm.command, MakeEntry(fm)) == Ok(r0)
    requires if fm.target == One(0) then r1 == t1 else Apply(t1, fm.command, MakeEntry(fm)) == Ok(r1)
    ensures Step(Switch([t0, t1], map[]), Flow(fm)) == (Switch([r0, r1], map[]), Accepted)
  {
    var ts: Tables := [t0, t1];
    var e := MakeEntry(fm);
    var from := if fm.target.One? then fm.target.id else 0;
    var upto := if fm.target.One? then fm.target.id + 1 else 2;
    RangeIsTablewise(ts, from, upto, fm.command, e);
    assert ApplyRange(ts, from, upto, fm.command, e).0 == [r0, r1];
    ShortIsSorted(r0);
    ShortIsSorted(r1);
    assert SortTables([r0, r1]) == [r0, r1];
  }

  lemma ShortIsSorted(t: Table)
    requires |t| <= 1
    ensures Sort(t) == t
  {
    if |t| == 1 {
      assert t[1..] == [] && Insert(t[0], []) == t;
    }
  }

  lemma FourSteps(s: Switch, msgs: seq<OfMsg>, s1: Switch, s2: Switch, s3: Switch, s4: Switch, ignoreErrors: bool)
    requires |msgs| == 4 && Step(s, msgs[0]).0 == s1 && Step(s1, msgs[1]).0 == s2
    requires Step(s2, msgs[2]).0 == s3 && Step(s3, msgs[3]).0 == s4
    requires !Stops(Step(s, msgs[0]).1, ignoreErrors) && !Stops(Step(s1, msgs[1]).1, ignoreErrors)
    requires !Stops(Step(s2, msgs[2]).1, ignoreErrors) && !Stops(Step(s3, msgs[3]).1, ignoreErrors)
    ensures Run(s, msgs, ignoreErrors) == (s4, Accepted)
  {
    assert msgs[1..][1..] == msgs[2..] && msgs[2..][1..] == msgs[3..] && msgs[3..][1..] == [];
    assert Run(s3, msgs[3..], ignoreErrors) == (s4, Accepted);
    assert Run(s2, msgs[2..], ignoreErrors) == (s4, Accepted);
    assert Run(s1, msgs[1..], ignoreErrors) == (s4, Accepted);
  }
}
