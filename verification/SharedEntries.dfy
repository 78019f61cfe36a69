/**
 Redundant controllers and entry objects.  Convergence carries over from table contents to the objects
 the tables really hold, unless the list modifies entries while some object is in two tables; two lists
 show what goes wrong then.
 */
module SharedEntries {
  import opened Packets
  import opened FlowEntries
  import opened FlowTables
  import opened TableInvariant
  import opened TableLookup
  import opened Redundancy
  import opened ErrorFreeRedundancy
  import opened EntryObjects
  import opened ObjectRuns

  /** The repeated messages leave the same contents as one application of the list does. */
  ghost predicate ObjectsActAsList(o: Objects, msgs: seq<OfMsg>, sched: Schedule)
    requires AllRefsIn(o.rows, |o.store|)
  {
    && Within(sched, |msgs|)
    && var once, sent := RunObjects(o, msgs, true), RunObjects(o, Pick(msgs, sched), true);
       && once.1 == sent.1 == Accepted && Placed(once.0) && Placed(sent.0)
       && Alike(View(sent.0).tables, View(once.0).tables)
  }

  /** The list interleaved with itself acts as the list, and sent after the list it changes no contents. */
  ghost predicate ObjectsConverge(o: Objects, msgs: seq<OfMsg>, lag: nat)
    requires AllRefsIn(o.rows, |o.store|)
  {
    && ObjectsActAsList(o, msgs, Lagged(|msgs|, lag, 0 - lag))
    && var once := RunObjects(o, msgs, true).0;
       var replayed := RunObjects(once, Pick(msgs, Lagged(|msgs|, lag, 0 - lag)), true);
       replayed.1 == Accepted && Placed(replayed.0) && Alike(View(replayed.0).tables, View(once).tables)
  }

  lemma PartUnaliased(o: Objects, msgs: seq<OfMsg>, part: seq<OfMsg>)
    requires Unaliased(o, msgs) && forall m | m in part :: m in msgs
    ensures Unaliased(o, part)
  {
  }

  lemma AfterUnaliased(o: Objects, msgs: seq<OfMsg>)
    requires Placed(o) && Unaliased(o, msgs)
    ensures Unaliased(RunObjects(o, msgs, true).0, msgs)
  {
    RunView(o, msgs, true);
  }

  /** Any schedule whose last sendings come in list order, on the objects. */
  lemma ObjectScheduleActsAsList(o: Objects, msgs: seq<OfMsg>, sched: Schedule)
    requires Placed(o) && AllGood(View(o).tables) && SafelyRedundant(View(o), msgs) && Unaliased(o, msgs)
    requires EndsInListOrder(msgs, sched)
    ensures ObjectsActAsList(o, msgs, sched)
  {
    if ErrorFree(View(o), msgs) {
      ErrorFreeScheduleActsAsList(View(o), msgs, sched);
    } else {
      ScheduleActsAsList(View(o), msgs, sched);
    }
    PickMembers(msgs, sched);
    PartUnaliased(o, msgs, Pick(msgs, sched));
    RunView(o, msgs, true);
    RunView(o, Pick(msgs, sched), true);
  }

  /**
   The redundancy property: a list that cannot clash, or raises no error by itself, with filters that do
   not hang on what modifies change, and without a modify of entries that tables share.
   */
  lemma ObjectListConverges(o: Objects, msgs: seq<OfMsg>, lag: nat)
    requires Placed(o) && AllGood(View(o).tables) && SafelyRedundant(View(o), msgs) && Unaliased(o, msgs)
    requires lag >= 1
    ensures ObjectsConverge(o, msgs, lag)
  {
    SafelyRedundantConverges(View(o), msgs, lag);
    var sched := Lagged(|msgs|, lag, 0 - lag);
    LaggedMembers(|msgs|, lag, 0 - lag);
    LaggedKeepsListOrder(|msgs|, lag, 0 - lag);
    ObjectScheduleActsAsList(o, msgs, sched);
    PickMembers(msgs, sched);
    RunView(o, msgs, true);
    AfterUnaliased(o, msgs);
    var once := RunObjects(o, msgs, true).0;
    PartUnaliased(once, msgs, Pick(msgs, sched));
    RunView(once, Pick(msgs, sched), true);
  }

  /** Converged switches forward alike: every packet finds an equal entry in every table. */
  lemma ConvergedObjectsLookUpAlike(o: Objects, msgs: seq<OfMsg>, lag: nat, id: TableId, pkt: Packet)
    requires Placed(o) && AllGood(View(o).tables) && AllSorted(View(o).tables) && Unaliased(o, msgs)
    requires NoClash(View(o), msgs) && TablesExist(msgs, |o.rows|) && FiltersSteady(View(o), msgs)
    requires lag >= 1 && id < |o.rows|
    requires Unambiguous(Run(View(o), msgs, true).0.tables[id])
    ensures ObjectsConverge(o, msgs, lag)
    ensures
      var once := RunObjects(o, msgs, true).0;
      var replayed := RunObjects(once, Pick(msgs, Lagged(|msgs|, lag, 0 - lag)), true).0;
      Lookup(View(replayed).tables[id], pkt) == Lookup(View(once).tables[id], pkt)
  {
    ObjectListConverges(o, msgs, lag);
    ConvergedTablesLookUpAlike(View(o), msgs, lag, id, pkt);
    RunView(o, msgs, true);
    AfterUnaliased(o, msgs);
    PickMembers(msgs, Lagged(|msgs|, lag, 0 - lag));
    var once := RunObjects(o, msgs, true).0;
    PartUnaliased(once, msgs, Pick(msgs, Lagged(|msgs|, lag, 0 - lag)));
    RunView(once, Pick(msgs, Lagged(|msgs|, lag, 0 - lag)), true);
  }

  // ---------------------------------------------------------------------------------------------
  // Two tables and one match: following an object that may be in either
  // ---------------------------------------------------------------------------------------------

  datatype Shadow = Shadow(inFirst: bool, inSecond: bool, instructions: seq<Instruction>)

  predicate OneMatch(e: Entry) {
    e.priority == 1 && e.match_ == map[] && e.outPort.None?
  }

  function RowIf(here: bool, ref: Ref): (r: Row) {
    if here then [ref] else []
  }

  predicate AllOneMatch(store: Store) {
    forall x | 0 <= x < |store| :: OneMatch(store[x])
  }

  predicate ShadowAt(o: Objects, sh: Shadow, ref: Ref) {
    && AllOneMatch(o.store)
    && o.rows == [RowIf(sh.inFirst, ref), RowIf(sh.inSecond, ref)]
    && ((sh.inFirst || sh.inSecond) ==> (ref < |o.store| && o.store[ref].instructions == sh.instructions))
  }

  /** The tables hold at most one object, and where both hold one it is the same. */
  ghost predicate Shadows(o: Objects, sh: Shadow) {
    exists ref: Ref :: ShadowAt(o, sh, ref)
  }

  predicate OneMatchMod(fm: FlowMod) {
    && fm.priority == 1 && fm.match_ == map[] && DistinctKinds(fm.instructions) && fm.outPort.None?
    && ((fm.command == Add && fm.target == AllTables) ||
        (fm.command in {DeleteStrict, ModifyStrict} && (fm.target == One(0) || fm.target == One(1))))
  }

  function ShadowStep(sh: Shadow, fm: FlowMod): (r: Shadow)
    requires OneMatchMod(fm)
  {
    if fm.command == Add then Shadow(true, true, fm.instructions)
    else if fm.command == DeleteStrict then
      if fm.target == One(0) then sh.(inFirst := false) else sh.(inSecond := false)
    else if (if fm.target == One(0) then sh.inFirst else sh.inSecond) then sh.(instructions := fm.instructions)
    else sh
  }

  predicate OneMatchList(msgs: seq<OfMsg>) {
    forall i | 0 <= i < |msgs| :: msgs[i].Flow? && OneMatchMod(msgs[i].mod)
  }

  function ShadowRun(sh: Shadow, msgs: seq<OfMsg>): (r: Shadow)
    requires OneMatchList(msgs)
    decreases |msgs|
  {
    if msgs == [] then sh else ShadowRun(ShadowStep(sh, msgs[0].mod), msgs[1..])
  }

  lemma ShadowsPlaced(o: Objects, sh: Shadow)
    requires Shadows(o, sh)
    ensures Placed(o)
    ensures
      var e := Entry(1, map[], sh.instructions, None);
      View(o).tables == [if sh.inFirst then [e] else [], if sh.inSecond then [e] else []]
  {
    var ref: Ref :| ShadowAt(o, sh, ref);
    RowIfTable(o.store, sh.inFirst, ref, sh.instructions);
    RowIfTable(o.store, sh.inSecond, ref, sh.instructions);
  }

  lemma RowIfTable(store: Store, here: bool, ref: Ref, instructions: seq<Instruction>)
    requires AllOneMatch(store) && (here ==> ref < |store| && store[ref].instructions == instructions)
    ensures RefsIn(RowIf(here, ref), |store|) && NoRepeats(RowIf(here, ref))
    ensures TableOf(store, RowIf(here, ref)) == if here then [Entry(1, map[], instructions, None)] else []
  {
    if here {
      assert OneMatch(store[ref]);
      assert TableOf(store, [ref])[0] == store[ref];
    }
  }

  /** What the three kinds of request do to one row that holds at most one object. */
  lemma OneRow(store: Store, row: Row, made: Ref)
    requires RefsIn(row, |store|) && |row| <= 1 && made < |store| && AllOneMatch(store)
    ensures AddToRow(store, row, store[made], made) == Ok([made])
    ensures DeleteStrictFromRow(store, row, store[made]) == []
    ensures ModifyStrictThrough(store, row, store[made]) ==
            if row == [] then store else Instructed(store, row[0], store[made])
    ensures SortRow(store, row) == row
  {
    assert OneMatch(store[made]);
    if row != [] {
      assert OneMatch(store[row[0]]) && row[1..] == [] && [] + [made] == [made];
      assert InsertRef(store, row[0], []) == [row[0]] == row;
    }
  }

  lemma ShortRowsSorted(store: Store, rows: seq<Row>)
    requires AllRefsIn(rows, |store|) && (forall id | 0 <= id < |rows| :: |rows[id]| <= 1)
    ensures SortRows(store, rows) == rows
  {
    forall id | 0 <= id < |rows| ensures SortRow(store, rows[id]) == rows[id] {
      if rows[id] != [] {
        assert rows[id][1..] == [] && InsertRef(store, rows[id][0], []) == rows[id];
      }
    }
  }

  lemma ShadowAdds(o: Objects, sh: Shadow, fm: FlowMod)
    requires Shadows(o, sh) && OneMatchMod(fm) && fm.command == Add
    ensures Placed(o)
    ensures StepObjects(o, Flow(fm)).1 == Accepted && Shadows(StepObjects(o, Flow(fm)).0, ShadowStep(sh, fm))
  {
    ShadowsPlaced(o, sh);
    var e, made := MakeEntry(fm), |o.store|;
    assert Masked(map[]) == map[];
    var store := o.store + [e];
    var h := Held(store, o.rows);
    OneRow(store, o.rows[0], made);
    OneRow(store, o.rows[1], made);
    var h1 := h.(rows := o.rows[0 := [made]]);
    var h2 := h.(rows := h1.rows[1 := [made]]);
    assert ApplyToRow(h, 0, Add, made) == Ok(h1) && ApplyToRow(h1, 1, Add, made) == Ok(h2);
    assert ApplyToRows(h2, 2, 2, Add, made) == (h2, Accepted);
    assert ApplyToRows(h1, 1, 2, Add, made) == (h2, Accepted);
    assert ApplyToRows(h, 0, 2, Add, made) == (h2, Accepted);
    assert h2.rows == [[made], [made]];
    ShortRowsSorted(store, h2.rows);
    assert ShadowAt(StepObjects(o, Flow(fm)).0, ShadowStep(sh, fm), made);
  }

  /** A request on one table that holds at most one object, as one step of the switch. */
  lemma StepOnOneTable(o: Objects, fm: FlowMod, h: Held)
    requires AllRefsIn(o.rows, |o.store|) && OneMatchMod(fm) && fm.target.One? && fm.target.id < |o.rows|
    requires (forall id | 0 <= id < |h.rows| :: |h.rows[id]| <= 1)
    requires ApplyToRow(Held(o.store + [MakeEntry(fm)], o.rows), fm.target.id, fm.command, |o.store|) == Ok(h)
    ensures StepObjects(o, Flow(fm)) == (Objects(h.store, h.rows, o.groups), Accepted)
  {
    var made, id := |o.store|, fm.target.id;
    var before := Held(o.store + [MakeEntry(fm)], o.rows);
    assert ApplyToRows(h, id + 1, id + 1, fm.command, made) == (h, Accepted);
    assert ApplyToRows(before, id, id + 1, fm.command, made) == (h, Accepted);
    ShortRowsSorted(h.store, h.rows);
  }

  lemma ShadowDeletes(o: Objects, sh: Shadow, fm: FlowMod)
    requires Shadows(o, sh) && OneMatchMod(fm) && fm.command == DeleteStrict
    ensures Placed(o)
    ensures StepObjects(o, Flow(fm)).1 == Accepted && Shadows(StepObjects(o, Flow(fm)).0, ShadowStep(sh, fm))
  {
    ShadowsPlaced(o, sh);
    var ref: Ref :| ShadowAt(o, sh, ref);
    var id := fm.target.id;
    assert Masked(map[]) == map[];
    var store := o.store + [MakeEntry(fm)];
    OneRow(store, o.rows[id], |o.store|);
    var h := Held(store, o.rows[id := []]);
    StepOnOneTable(o, fm, h);
    ShadowKept(o, sh, ref, store);
    assert ShadowAt(Objects(h.store, h.rows, o.groups), ShadowStep(sh, fm), ref);
  }

  lemma ShadowKept(o: Objects, sh: Shadow, ref: Ref, store: Store)
    requires ShadowAt(o, sh, ref) && |store| == |o.store| + 1 && AllOneMatch(store) && store[..|o.store|] == o.store
    ensures ShadowAt(o.(store := store), sh, ref)
  {
    assert forall x | 0 <= x < |o.store| :: store[x] == store[..|o.store|][x];
  }

  /** A modify through one table shows in the other one that holds the object. */
  lemma ShadowModifies(o: Objects, sh: Shadow, fm: FlowMod)
    requires Shadows(o, sh) && OneMatchMod(fm) && fm.command == ModifyStrict
    ensures Placed(o)
    ensures StepObjects(o, Flow(fm)).1 == Accepted && Shadows(StepObjects(o, Flow(fm)).0, ShadowStep(sh, fm))
  {
    ShadowsPlaced(o, sh);
    var ref: Ref :| ShadowAt(o, sh, ref);
    var id := fm.target.id;
    assert Masked(map[]) == map[];
    var store := o.store + [MakeEntry(fm)];
    OneRow(store, o.rows[id], |o.store|);
    ShadowKept(o, sh, ref, store);
    if o.rows[id] == [] {
      StepOnOneTable(o, fm, Held(store, o.rows));
      assert ShadowAt(o.(store := store), ShadowStep(sh, fm), ref);
    } else {
      var h := Held(Instructed(store, ref, MakeEntry(fm)), o.rows);
      StepOnOneTable(o, fm, h);
      ShadowInstructed(o.(store := store), sh, ref, MakeEntry(fm));
    }
  }

  lemma ShadowInstructed(o: Objects, sh: Shadow, ref: Ref, e: Entry)
    requires ShadowAt(o, sh, ref) && ref < |o.store|
    ensures ShadowAt(o.(store := Instructed(o.store, ref, e)), sh.(instructions := e.instructions), ref)
  {
  }

  lemma {:induction false} ShadowRuns(o: Objects, sh: Shadow, msgs: seq<OfMsg>, ignoreErrors: bool)
    requires Shadows(o, sh) && OneMatchList(msgs)
    ensures Placed(o)
    ensures
      var r := RunObjects(o, msgs, ignoreErrors);
      r.1 == Accepted && Shadows(r.0, ShadowRun(sh, msgs))
    decreases |msgs|
  {
    ShadowsPlaced(o, sh);
    if msgs != [] {
      var fm := msgs[0].mod;
      if fm.command == Add {
        ShadowAdds(o, sh, fm);
      } else if fm.command == DeleteStrict {
        ShadowDeletes(o, sh, fm);
      } else {
        ShadowModifies(o, sh, fm);
      }
      ShadowRuns(StepObjects(o, msgs[0]).0, ShadowStep(sh, fm), msgs[1..], ignoreErrors);
    }
  }

  /** Different final shadows, of which one table at least tells. */
  predicate Differ(a: Shadow, b: Shadow) {
    a.inFirst == b.inFirst && a.inSecond == b.inSecond && (a.inFirst || a.inSecond) && a.instructions != b.instructions
  }

  lemma ShadowsDiffer(o: Objects, p: Objects, a: Shadow, b: Shadow)
    requires Shadows(o, a) && Shadows(p, b) && Differ(a, b)
    ensures Placed(o) && Placed(p) && !Alike(View(o).tables, View(p).tables)
  {
    ShadowsPlaced(o, a);
    ShadowsPlaced(p, b);
    var x, y := Entry(1, map[], a.instructions, None), Entry(1, map[], b.instructions, None);
    if a.inFirst {
      assert x in View(o).tables[0] && x !in View(p).tables[0];
    } else {
      assert x in View(o).tables[1] && x !in View(p).tables[1];
    }
  }

  lemma OneMatchNeverClashes(s: Switch, msgs: seq<OfMsg>)
    requires OneMatchList(msgs) && |s.tables| == 2
    requires forall id, e | 0 <= id < 2 && e in s.tables[id] :: OneMatch(e)
    ensures NoClash(s, msgs) && TablesExist(msgs, 2) && FiltersSteady(s, msgs)
  {
    assert Masked(map[]) == map[];
    forall id: nat, a | Occurs(s, msgs, id, a) ensures a == Key(1, map[]) {
      if e :| e in s.tables[id] && KeyOf(e) == a {
        assert OneMatch(e);
      } else {
        var m :| m in msgs && AddsKey(m, id, a);
        var i :| 0 <= i < |msgs| && msgs[i] == m;
        assert MakeEntry(m.mod).match_ == map[];
      }
    }
    forall m | m in msgs ensures m.Flow? && OneMatchMod(m.mod) {
      var i :| 0 <= i < |msgs| && msgs[i] == m;
    }
    UnmixedIsSteady(s, msgs);
  }

  // ---------------------------------------------------------------------------------------------
  // A list that shares an object and modifies it
  // ---------------------------------------------------------------------------------------------

  function SharingList(x: seq<Instruction>, y: seq<Instruction>): (r: seq<OfMsg>) {
    [Flow(FlowMod(Add, AllTables, 1, map[], x, None)),
     Flow(FlowMod(DeleteStrict, One(1), 1, map[], [], None)),
     Flow(FlowMod(ModifyStrict, One(1), 1, map[], y, None))]
  }

  lemma LagStep(i: int)
    requires -2 <= i < 3
    ensures Lagged(3, 2, i) == (if 0 <= i then [i] else []) + (if i < 1 then [i + 2] else []) + Lagged(3, 2, i + 1)
  {
    var later := Lagged(3, 2, i + 1);
    assert LeadThenLater(3, 2, i) == (if i < 1 then [i + 2] else []) + later;
  }

  lemma LagOfTwo()
    ensures Lagged(3, 2, -2) == [0, 1, 0, 2, 1, 2]
  {
    LagStep(-2);
    LagStep(-1);
    LagStep(0);
    LagStep(1);
    LagStep(2);
    assert Lagged(3, 2, 3) == [];
  }

  /** By itself the list leaves the first table as added; interleaved at lag 2 the modify reaches it. */
  lemma SharingListShadows(sh: Shadow, x: seq<Instruction>, y: seq<Instruction>)
    requires DistinctKinds(x) && DistinctKinds(y)
    ensures
      var msgs := SharingList(x, y);
      && Within(Lagged(3, 2, -2), 3) && OneMatchList(msgs) && OneMatchList(Pick(msgs, Lagged(3, 2, -2)))
      && ShadowRun(sh, msgs) == Shadow(true, false, x)
      && ShadowRun(sh, Pick(msgs, Lagged(3, 2, -2))) == Shadow(true, false, y)
  {
    var msgs := SharingList(x, y);
    LagOfTwo();
    var sent := Pick(msgs, [0, 1, 0, 2, 1, 2]);
    assert sent == [msgs[0], msgs[1], msgs[0], msgs[2], msgs[1], msgs[2]];
    ThreeShadowSteps(sh, msgs);
    ThreeShadowSteps(sh, [msgs[0], msgs[1], msgs[0]]);
    ThreeShadowSteps(Shadow(true, true, x), [msgs[2], msgs[1], msgs[2]]);
    assert sent == [msgs[0], msgs[1], msgs[0]] + [msgs[2], msgs[1], msgs[2]];
    ShadowRunConcat(sh, [msgs[0], msgs[1], msgs[0]], [msgs[2], msgs[1], msgs[2]]);
  }

  lemma ThreeShadowSteps(sh: Shadow, msgs: seq<OfMsg>)
    requires OneMatchList(msgs) && |msgs| == 3
    ensures ShadowRun(sh, msgs) ==
            ShadowStep(ShadowStep(ShadowStep(sh, msgs[0].mod), msgs[1].mod), msgs[2].mod)
  {
    var s1 := ShadowStep(sh, msgs[0].mod);
    var s2 := ShadowStep(s1, msgs[1].mod);
    assert msgs[1..][1..] == msgs[2..] && msgs[2..][1..] == [];
    assert ShadowRun(s2, msgs[2..]) == ShadowStep(s2, msgs[2].mod);
    assert ShadowRun(s1, msgs[1..]) == ShadowRun(s2, msgs[2..]);
  }

  lemma {:induction false} ShadowRunConcat(sh: Shadow, a: seq<OfMsg>, b: seq<OfMsg>)
    requires OneMatchList(a) && OneMatchList(b)
    ensures OneMatchList(a + b) && ShadowRun(sh, a + b) == ShadowRun(ShadowRun(sh, a), b)
    decreases |a|
  {
    if a == [] {
      assert a + b == b;
    } else {
      assert (a + b)[1..] == a[1..] + b;
      ShadowRunConcat(ShadowStep(sh, a[0].mod), a[1..], b);
    }
  }

  /** Without clashes, filters or errors, and from empty tables, this list does not converge at lag 2. */
  lemma SharingListDiverges(x: seq<Instruction>, y: seq<Instruction>)
    requires DistinctKinds(x) && DistinctKinds(y) && x != y
    ensures
      var o, msgs := NoObjects(2), SharingList(x, y);
      && SafelyRedundant(View(o), msgs) && RunObjects(o, msgs, false).1 == Accepted
      && !ObjectsActAsList(o, msgs, Lagged(3, 2, -2)) && !ObjectsConverge(o, msgs, 2)
  {
    var o, msgs, sh := NoObjects(2), SharingList(x, y), Shadow(false, false, []);
    assert ShadowAt(o, sh, 0);
    SharingListShadows(sh, x, y);
    OneMatchNeverClashes(View(o), msgs);
    ShadowRuns(o, sh, msgs, false);
    ShadowRuns(o, sh, msgs, true);
    ShadowRuns(o, sh, Pick(msgs, Lagged(3, 2, -2)), true);
    ShadowsDiffer(RunObjects(o, Pick(msgs, Lagged(3, 2, -2)), true).0, RunObjects(o, msgs, true).0,
                  Shadow(true, false, y), Shadow(true, false, x));
  }

  /** The check on the switch this list leaves reports the difference. */
  lemma CheckFindsSharing(x: seq<Instruction>, y: seq<Instruction>)
    requires DistinctKinds(x) && DistinctKinds(y) && x != y
    ensures Within(Lagged(3, 2, -2), 3)
    ensures
      var msgs := SharingList(x, y);
      var once := RunObjects(NoObjects(2), msgs, true).0;
      var replayed := RunObjects(once, Pick(msgs, Lagged(3, 2, -2)), true).0;
      Placed(once) && Placed(replayed) && !Alike(View(replayed).tables, View(once).tables)
  {
    var o, msgs, sh := NoObjects(2), SharingList(x, y), Shadow(false, false, []);
    assert ShadowAt(o, sh, 0);
    SharingListShadows(sh, x, y);
    ShadowRuns(o, sh, msgs, true);
    var once, left := RunObjects(o, msgs, true).0, Shadow(true, false, x);
    SharingListShadows(left, x, y);
    ShadowRuns(once, left, Pick(msgs, Lagged(3, 2, -2)), true);
    ShadowsDiffer(RunObjects(once, Pick(msgs, Lagged(3, 2, -2)), true).0, once, Shadow(true, false, y), left);
  }

  // ---------------------------------------------------------------------------------------------
  // A list that modifies an object shared before
  // ---------------------------------------------------------------------------------------------

  function ModifyingList(y: seq<Instruction>, z: seq<Instruction>): (r: seq<OfMsg>) {
    [Flow(FlowMod(ModifyStrict, One(1), 1, map[], y, None)),
     Flow(FlowMod(ModifyStrict, One(0), 1, map[], z, None)),
     Flow(FlowMod(DeleteStrict, One(0), 1, map[], [], None))]
  }

  /** The switch after one add to both its tables. */
  function BothHold(x: seq<Instruction>): (o: Objects)
    ensures Placed(o)
  {
    Objects([Entry(1, map[], x, None)], [[0], [0]], map[])
  }

  lemma BothHoldAfterAdd(x: seq<Instruction>)
    requires DistinctKinds(x)
    ensures StepObjects(NoObjects(2), Flow(FlowMod(Add, AllTables, 1, map[], x, None))) == (BothHold(x), Accepted)
  {
    var e := Entry(1, map[], x, None);
    assert Masked(map[]) == map[];
    var h := Held([e], [[], []]);
    var h1 := h.(rows := [[0], []]);
    var h2 := h.(rows := [[0], [0]]);
    OneRow([e], [], 0);
    assert NoObjects(2).rows == [[], []] && [] + [e] == [e];
    assert h.rows[0 := [0]] == h1.rows && h1.rows[1 := [0]] == h2.rows;
    assert ApplyToRow(h, 0, Add, 0) == Ok(h1) && ApplyToRow(h1, 1, Add, 0) == Ok(h2);
    assert ApplyToRows(h2, 2, 2, Add, 0) == (h2, Accepted);
    assert ApplyToRows(h1, 1, 2, Add, 0) == (h2, Accepted);
    assert ApplyToRows(h, 0, 2, Add, 0) == (h2, Accepted);
    ShortRowsSorted([e], h2.rows);
  }

  lemma ModifyingListShadows(y: seq<Instruction>, z: seq<Instruction>, x: seq<Instruction>)
    requires DistinctKinds(y) && DistinctKinds(z)
    ensures
      var msgs := ModifyingList(y, z);
      && OneMatchList(msgs)
      && ShadowRun(Shadow(true, true, x), msgs) == Shadow(false, true, z)
      && ShadowRun(Shadow(false, true, x), msgs) == Shadow(false, true, y)
  {
    var msgs := ModifyingList(y, z);
    ThreeShadowSteps(Shadow(true, true, x), msgs);
    ThreeShadowSteps(Shadow(false, true, x), msgs);
  }

  lemma ModifyingListTwice(y: seq<Instruction>, z: seq<Instruction>)
    requires DistinctKinds(y) && DistinctKinds(z)
    ensures
      var msgs := ModifyingList(y, z);
      OneMatchList(msgs + msgs) && ShadowRun(Shadow(false, true, z), msgs + msgs) == Shadow(false, true, y)
  {
    ModifyingListShadows(y, z, z);
    ModifyingListShadows(y, z, y);
    ShadowRunConcat(Shadow(false, true, z), ModifyingList(y, z), ModifyingList(y, z));
  }

  lemma BothHoldShadow(x: seq<Instruction>)
    requires DistinctKinds(x)
    ensures Shadows(BothHold(x), Shadow(true, true, x)) && AllGood(View(BothHold(x)).tables)
    ensures forall id, e | 0 <= id < 2 && e in View(BothHold(x)).tables[id] :: OneMatch(e)
  {
    var o, e := BothHold(x), Entry(1, map[], x, None);
    assert ShadowAt(o, Shadow(true, true, x), 0);
    ShadowsPlaced(o, Shadow(true, true, x));
    assert View(o).tables == [[e], [e]];
  }

  /** No add, no clash, no error: the object shared before makes the list diverge when it is sent again. */
  lemma ModifyingListDiverges(x: seq<Instruction>, y: seq<Instruction>, z: seq<Instruction>)
    requires DistinctKinds(x) && DistinctKinds(y) && DistinctKinds(z) && y != z
    ensures
      var o, msgs := BothHold(x), ModifyingList(y, z);
      && AllGood(View(o).tables) && SafelyRedundant(View(o), msgs) && (forall m | m in msgs :: !AddToEveryTable(m))
      && RunObjects(o, msgs, false).1 == Accepted && !ObjectsConverge(o, msgs, 3)
  {
    var o, msgs, sh := BothHold(x), ModifyingList(y, z), Shadow(true, true, x);
    BothHoldShadow(x);
    ModifyingListShadows(y, z, x);
    OneMatchNeverClashes(View(o), msgs);
    ShadowRuns(o, sh, msgs, false);
    ShadowRuns(o, sh, msgs, true);
    ReplayedDiffers(RunObjects(o, msgs, true).0, y, z);
  }

  lemma ReplayedDiffers(once: Objects, y: seq<Instruction>, z: seq<Instruction>)
    requires DistinctKinds(y) && DistinctKinds(z) && y != z && Shadows(once, Shadow(false, true, z))
    ensures Placed(once) && Within(Lagged(3, 3, -3), 3)
    ensures
      var replayed := RunObjects(once, Pick(ModifyingList(y, z), Lagged(3, 3, -3)), true).0;
      Placed(replayed) && !Alike(View(replayed).tables, View(once).tables)
  {
    var msgs := ModifyingList(y, z);
    ShadowsPlaced(once, Shadow(false, true, z));
    ModifyingListTwice(y, z);
    LagSendsTwice(msgs);
    ShadowRuns(once, Shadow(false, true, z), msgs + msgs, true);
    ShadowsDiffer(RunObjects(once, msgs + msgs, true).0, once, Shadow(false, true, y), Shadow(false, true, z));
  }
}
