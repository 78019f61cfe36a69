/**
 Runs over tables of entry objects: what they keep in any case, and when they are runs over table
 contents.
 */
module ObjectRuns {
  import opened Packets
  import opened FlowEntries
  import opened FlowTables
  import opened TableInvariant
  import opened Redundancy
  import opened EntryObjects

  predicate Modifies(command: Command) {
    command.Modify? || command.ModifyStrict?
  }

  // ---------------------------------------------------------------------------------------------
  // One request
  // ---------------------------------------------------------------------------------------------

  lemma AddDeleteView(h: Held, id: TableId, command: Command, made: Ref)
    requires HeldPlaced(h) && id < |h.rows| && made < |h.store| && !Modifies(command)
    ensures
      var r, t := ApplyToRow(h, id, command, made), Apply(Contents(h)[id], command, h.store[made]);
      && (r.Ok? <==> t.Ok?)
      && (r.Ok? ==> r.value.store == h.store && Contents(r.value) == Contents(h)[id := t.value])
  {
    var row, e := h.rows[id], h.store[made];
    match command
    case Add => AddToRowView(h.store, row, made);
    case Delete => UnselectedRowView(h.store, row, e);
    case DeleteStrict => DeleteStrictRowView(h.store, row, e);
  }

  lemma ModifyView(h: Held, id: TableId, command: Command, made: Ref)
    requires HeldPlaced(h) && id < |h.rows| && made < |h.store| && Modifies(command)
    requires h.store[made].outPort.None? && AllNoRepeats(h.rows) && Unshared(h.rows) && NowhereIn(h.rows, made)
    ensures
      var r, t := ApplyToRow(h, id, command, made), Apply(Contents(h)[id], command, h.store[made]);
      && r.Ok? && t.Ok? && r.value.rows == h.rows && r.value.store[made] == h.store[made]
      && Contents(r.value) == Contents(h)[id := t.value]
  {
    var store' := ApplyToRow(h, id, command, made).value.store;
    ModifiedTable(h, id, command, made, h.rows[id]);
    forall k | 0 <= k < |h.rows| && k != id ensures TableOf(store', h.rows[k]) == TableOf(h.store, h.rows[k]) {
      ModifiedTable(h, id, command, made, h.rows[k]);
    }
    ModifiedTable(h, id, command, made, [made]);
    assert TableOf(store', [made])[0] == TableOf(h.store, [made])[0];
  }

  lemma ModifiedTable(h: Held, id: TableId, command: Command, made: Ref, other: Row)
    requires HeldPlaced(h) && id < |h.rows| && made < |h.store| && Modifies(command)
    requires h.store[made].outPort.None? && NoRepeats(h.rows[id]) && RefsIn(other, |h.store|)
    ensures
      var store' := ApplyToRow(h, id, command, made).value.store;
      && TableOf(store', h.rows[id]) == Apply(Contents(h)[id], command, h.store[made]).value
      && ((forall r | r in h.rows[id] :: r !in other) ==> TableOf(store', other) == TableOf(h.store, other))
  {
    if command == Modify {
      ModifyThroughView(h.store, h.rows[id], h.store[made], other);
    } else {
      ModifyStrictThroughView(h.store, h.rows[id], h.store[made], other);
    }
  }

  /** What a request on a range of tables does to their contents, unless it modifies a shared entry. */
  lemma {:induction false} RangeView(h: Held, from: nat, upto: nat, command: Command, made: Ref)
    requires HeldPlaced(h) && from <= upto <= |h.rows| && made < |h.store|
    requires Modifies(command) ==>
      h.store[made].outPort.None? && AllNoRepeats(h.rows) && Unshared(h.rows) && NowhereIn(h.rows, made)
    ensures
      var (h', status) := ApplyToRows(h, from, upto, command, made);
      (Contents(h'), status) == ApplyRange(Contents(h), from, upto, command, h.store[made])
    decreases upto - from
  {
    if from < upto {
      if Modifies(command) {
        ModifyView(h, from, command, made);
      } else {
        AddDeleteView(h, from, command, made);
      }
      var r := ApplyToRow(h, from, command, made);
      if r.Ok? {
        RangeView(r.value, from + 1, upto, command, made);
      }
    }
  }

  // ---------------------------------------------------------------------------------------------
  // Runs over contents
  // ---------------------------------------------------------------------------------------------

  /** Unless it modifies while objects are shared, a message does to the contents what FlowTables says. */
  lemma StepView(o: Objects, m: OfMsg)
    requires Placed(o) && (IsModify(m) ==> Unshared(o.rows))
    ensures Placed(StepObjects(o, m).0)
    ensures (View(StepObjects(o, m).0), StepObjects(o, m).1) == Step(View(o), m)
  {
    StepPlaced(o, m);
    if m.Flow? && DistinctKinds(m.mod.instructions) && (m.mod.target.One? ==> m.mod.target.id < |o.rows|) {
      var fm := m.mod;
      var from := if fm.target.One? then fm.target.id else 0;
      var upto := if fm.target.One? then fm.target.id + 1 else |o.rows|;
      var h := Held(o.store + [MakeEntry(fm)], o.rows);
      NewObject(o, MakeEntry(fm));
      RangeView(h, from, upto, fm.command, |o.store|);
      var h' := ApplyToRows(h, from, upto, fm.command, |o.store|).0;
      SortRowsView(h'.store, h'.rows);
    } else if m.Flow? {
      assert StepObjects(o, m).0 == o;
    }
  }

  /** No modify in the list; or no object shared to begin with, and no add that would share one. */
  ghost predicate Unaliased(o: Objects, msgs: seq<OfMsg>) {
    NoModify(msgs) || (Unshared(o.rows) && forall m | m in msgs :: !AddToEveryTable(m))
  }

  lemma {:induction false} RunView(o: Objects, msgs: seq<OfMsg>, ignoreErrors: bool)
    requires Placed(o) && Unaliased(o, msgs)
    ensures Placed(RunObjects(o, msgs, ignoreErrors).0)
    ensures (View(RunObjects(o, msgs, ignoreErrors).0), RunObjects(o, msgs, ignoreErrors).1) ==
            Run(View(o), msgs, ignoreErrors)
    ensures Unshared(o.rows) && (forall m | m in msgs :: !AddToEveryTable(m)) ==>
              Unshared(RunObjects(o, msgs, ignoreErrors).0.rows)
    decreases |msgs|
  {
    if msgs != [] {
      assert msgs[0] in msgs && forall m | m in msgs[1..] :: m in msgs;
      StepPlaced(o, msgs[0]);
      StepView(o, msgs[0]);
      var (o', status) := StepObjects(o, msgs[0]);
      if !Stops(status, ignoreErrors) {
        RunView(o', msgs[1..], ignoreErrors);
      }
    }
  }

  // ---------------------------------------------------------------------------------------------
  // What every run keeps, shared objects or not
  // ---------------------------------------------------------------------------------------------

  /** Objects changed in nothing but their instructions. */
  ghost predicate Reinstructed(store: Store, store': Store, instructions: seq<Instruction>) {
    |store'| == |store| &&
    forall x | 0 <= x < |store| :: store'[x] == store[x] || store'[x] == store[x].(instructions := instructions)
  }

  lemma {:induction false} ModifyReinstructs(store: Store, row: Row, request: Entry)
    requires RefsIn(row, |store|)
    ensures Reinstructed(store, ModifyThrough(store, row, request), request.instructions)
    decreases |row|
  {
    if row != [] {
      ModifyReinstructs(
        if FteMatches(request, store[row[0]]) then Instructed(store, row[0], request) else store, row[1..], request);
    }
  }

  lemma {:induction false} ModifyStrictReinstructs(store: Store, row: Row, request: Entry)
    requires RefsIn(row, |store|)
    ensures Reinstructed(store, ModifyStrictThrough(store, row, request), request.instructions)
  {
    if row != [] && !StrictMatches(request, store[row[0]]) {
      ModifyStrictReinstructs(store, row[1..], request);
    }
  }

  lemma {:induction false} RangeReinstructs(h: Held, from: nat, upto: nat, command: Command, made: Ref)
    requires HeldPlaced(h) && from <= upto <= |h.rows| && made < |h.store| && Modifies(command)
    ensures
      var (h', status) := ApplyToRows(h, from, upto, command, made);
      status == Accepted && h'.rows == h.rows && Reinstructed(h.store, h'.store, h.store[made].instructions)
    decreases upto - from
  {
    if from < upto {
      ModifyReinstructs(h.store, h.rows[from], h.store[made]);
      ModifyStrictReinstructs(h.store, h.rows[from], h.store[made]);
      RangeReinstructs(ApplyToRow(h, from, command, made).value, from + 1, upto, command, made);
    }
  }

  lemma ReinstructedGood(store: Store, store': Store, rows: seq<Row>, instructions: seq<Instruction>)
    requires AllRefsIn(rows, |store|) && Reinstructed(store, store', instructions) && DistinctKinds(instructions)
    requires AllGood(TablesOf(store, rows))
    ensures AllGood(TablesOf(store', rows))
  {
    forall id | 0 <= id < |rows| ensures Good(TableOf(store', rows[id])) {
      var t := TableOf(store, rows[id]);
      assert Good(TablesOf(store, rows)[id]);
      assert forall i | 0 <= i < |t| :: t[i] in t;
      SameMatchesGood(t, TableOf(store', rows[id]));
    }
  }

  lemma ModifyStepKeepsGood(o: Objects, m: OfMsg)
    requires Placed(o) && AllGood(View(o).tables) && IsModify(m)
    ensures Placed(StepObjects(o, m).0) && AllGood(View(StepObjects(o, m).0).tables)
    ensures StepObjects(o, m).1 == Accepted ==> AllSorted(View(StepObjects(o, m).0).tables)
    ensures StepObjects(o, m).1 != Accepted ==> StepObjects(o, m).0 == o
  {
    StepPlaced(o, m);
    var fm := m.mod;
    if DistinctKinds(fm.instructions) && (fm.target.One? ==> fm.target.id < |o.rows|) {
      var from := if fm.target.One? then fm.target.id else 0;
      var upto := if fm.target.One? then fm.target.id + 1 else |o.rows|;
      var h := Held(o.store + [MakeEntry(fm)], o.rows);
      NewObject(o, MakeEntry(fm));
      RangeReinstructs(h, from, upto, fm.command, |o.store|);
      var store' := ApplyToRows(h, from, upto, fm.command, |o.store|).0.store;
      ReinstructedGood(h.store, store', o.rows, fm.instructions);
      SortRowsView(store', o.rows);
      SortedTablesGood(TablesOf(store', o.rows));
    }
  }

  lemma SortedTablesGood(ts: Tables)
    requires AllGood(ts)
    ensures AllGood(SortTables(ts)) && AllSorted(SortTables(ts))
  {
    forall id | 0 <= id < |ts| ensures Good(Sort(ts[id])) && Sorted(Sort(ts[id])) {
      SortGood(ts[id]);
      SortProperties(ts[id]);
    }
  }

  /** One message, shared objects or not, keeps every table pairwise non-overlapping; accepted flow mods sort. */
  lemma ObjectStepKeepsGood(o: Objects, m: OfMsg)
    requires Placed(o) && AllGood(View(o).tables)
    ensures Placed(StepObjects(o, m).0) && AllGood(View(StepObjects(o, m).0).tables)
    ensures m.Flow? && StepObjects(o, m).1 == Accepted ==> AllSorted(View(StepObjects(o, m).0).tables)
    ensures AllSorted(View(o).tables) ==>
              (AllSorted(View(StepObjects(o, m).0).tables) <==> KeepsOrder(View(o), m))
  {
    if IsModify(m) {
      ModifyStepKeepsGood(o, m);
    } else {
      StepView(o, m);
      StepKeepsGood(View(o), m);
      if AllSorted(View(o).tables) {
        StepSortedIff(View(o), m);
      }
    }
  }

  lemma {:induction false} ObjectRunKeepsGood(o: Objects, msgs: seq<OfMsg>, ignoreErrors: bool)
    requires Placed(o) && AllGood(View(o).tables)
    ensures Placed(RunObjects(o, msgs, ignoreErrors).0)
    ensures AllGood(View(RunObjects(o, msgs, ignoreErrors).0).tables)
    decreases |msgs|
  {
    if msgs != [] {
      ObjectStepKeepsGood(o, msgs[0]);
      var (o', status) := StepObjects(o, msgs[0]);
      if !Stops(status, ignoreErrors) {
        ObjectRunKeepsGood(o', msgs[1..], ignoreErrors);
      }
    }
  }

  /** From empty tables on, no table ever holds two entries of equal priority and match, shared objects or not. */
  lemma ObjectRunFromEmpty(numTables: nat, msgs: seq<OfMsg>, ignoreErrors: bool, id: TableId, i: nat, j: nat)
    ensures Placed(RunObjects(NoObjects(numTables), msgs, ignoreErrors).0)
    ensures
      var ts := View(RunObjects(NoObjects(numTables), msgs, ignoreErrors).0).tables;
      id < |ts| && i < j < |ts[id]| ==>
        !Overlaps(ts[id][i], ts[id][j]) && !SameMatch(ts[id][i], ts[id][j])
  {
    ObjectRunKeepsGood(NoObjects(numTables), msgs, ignoreErrors);
    var ts := View(RunObjects(NoObjects(numTables), msgs, ignoreErrors).0).tables;
    if id < |ts| && i < j < |ts[id]| {
      NoDuplicateMatch(ts[id], i, j);
    }
  }

  /** Every message the run gets to keeps the order of the tables it finds. */
  ghost predicate ObjectsKeepOrder(o: Objects, msgs: seq<OfMsg>, ignoreErrors: bool)
    requires Placed(o)
    decreases |msgs|
  {
    msgs != [] ==>
      var (o', status) := StepObjects(o, msgs[0]);
      && KeepsOrder(View(o), msgs[0])
      && (!Stops(status, ignoreErrors) ==> Placed(o') && ObjectsKeepOrder(o', msgs[1..], ignoreErrors))
  }

  /** Every state the run passes through has sorted tables. */
  ghost predicate ObjectsStaySorted(o: Objects, msgs: seq<OfMsg>, ignoreErrors: bool)
    requires Placed(o)
    decreases |msgs|
  {
    AllSorted(View(o).tables) &&
    (msgs != [] ==>
      var (o', status) := StepObjects(o, msgs[0]);
      Placed(o') && ObjectsStaySorted(o', if Stops(status, ignoreErrors) then [] else msgs[1..], ignoreErrors))
  }

  lemma {:induction false} ObjectRunSortedIff(o: Objects, msgs: seq<OfMsg>, ignoreErrors: bool)
    requires Placed(o) && AllGood(View(o).tables) && AllSorted(View(o).tables)
    ensures ObjectsStaySorted(o, msgs, ignoreErrors) <==> ObjectsKeepOrder(o, msgs, ignoreErrors)
    decreases |msgs|
  {
    if msgs != [] {
      ObjectStepKeepsGood(o, msgs[0]);
      var (o', status) := StepObjects(o, msgs[0]);
      if AllSorted(View(o').tables) && !Stops(status, ignoreErrors) {
        ObjectRunSortedIff(o', msgs[1..], ignoreErrors);
      }
    }
  }
}
