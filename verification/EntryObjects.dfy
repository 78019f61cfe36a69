/**
 Table entries as objects.  Tables hold references, so an entry that an add put into several tables is
 one object, and a modify that reaches it through one table shows in all of them.  The functions of
 FlowTables say what becomes of table contents as long as no modify meets a shared entry.
 */
module EntryObjects {
  import opened Packets
  import opened FlowEntries
  import opened FlowTables
  import opened TableInvariant

  // An entry object is its place in the list of all FlowMod objects made so far.
  type Ref = nat
  type Row = seq<Ref>
  type Store = seq<Entry>

  datatype Objects = Objects(store: Store, rows: seq<Row>, groups: Groups)

  predicate RefsIn(row: Row, n: nat) {
    forall i | 0 <= i < |row| :: row[i] < n
  }

  predicate AllRefsIn(rows: seq<Row>, n: nat) {
    forall id | 0 <= id < |rows| :: RefsIn(rows[id], n)
  }

  predicate NoRepeats(row: Row) {
    forall i, j | 0 <= i < j < |row| :: row[i] != row[j]
  }

  /** References exist, and no table holds one object twice. */
  predicate Placed(o: Objects) {
    AllRefsIn(o.rows, |o.store|) && forall id | 0 <= id < |o.rows| :: NoRepeats(o.rows[id])
  }

  /** No object is in two tables. */
  predicate Unshared(rows: seq<Row>) {
    forall i, j, r | 0 <= i < j < |rows| && r in rows[i] :: r !in rows[j]
  }

  function TableOf(store: Store, row: Row): (t: Table)
    requires RefsIn(row, |store|)
    ensures |t| == |row|
  {
    seq(|row|, i requires 0 <= i < |row| => store[row[i]])
  }

  function TablesOf(store: Store, rows: seq<Row>): (ts: Tables)
    requires AllRefsIn(rows, |store|)
    ensures |ts| == |rows|
  {
    seq(|rows|, id requires 0 <= id < |rows| => TableOf(store, rows[id]))
  }

  /** The contents of the tables, objects apart. */
  function View(o: Objects): (s: Switch)
    requires Placed(o)
  {
    Switch(TablesOf(o.store, o.rows), o.groups)
  }

  // ---------------------------------------------------------------------------------------------
  // One request on one table
  // ---------------------------------------------------------------------------------------------

  function AddToRow(store: Store, row: Row, e: Entry, made: Ref): (r: Result<Row>)
    requires RefsIn(row, |store|) && made < |store|
    ensures r.Ok? ==> RefsIn(r.value, |store|) && forall x | x in r.value :: x == made || x in row
  {
    if row == [] then Ok([made])
    else if StrictMatches(e, store[row[0]]) then Ok(row[1..] + [made])
    else if Overlaps(e, store[row[0]]) then Raised
    else match AddToRow(store, row[1..], e, made)
      case Ok(rest) => Ok([row[0]] + rest)
      case Raised => Raised
  }

  function UnselectedRow(store: Store, row: Row, request: Entry): (r: Row)
    requires RefsIn(row, |store|)
    ensures RefsIn(r, |store|) && forall x | x in r :: x in row
  {
    if row == [] then []
    else if FteMatches(request, store[row[0]]) then UnselectedRow(store, row[1..], request)
    else [row[0]] + UnselectedRow(store, row[1..], request)
  }

  function DeleteStrictFromRow(store: Store, row: Row, request: Entry): (r: Row)
    requires RefsIn(row, |store|)
    ensures RefsIn(r, |store|) && forall x | x in r :: x in row
  {
    if row == [] then []
    else if StrictMatches(request, store[row[0]]) then row[1..]
    else [row[0]] + DeleteStrictFromRow(store, row[1..], request)
  }

  function Instructed(store: Store, ref: Ref, request: Entry): (r: Store)
    requires ref < |store|
    ensures |r| == |store|
  {
    store[ref := store[ref].(instructions := request.instructions)]
  }

  /** Every selected object of the row gets the request's instructions, one after the other. */
  function ModifyThrough(store: Store, row: Row, request: Entry): (r: Store)
    requires RefsIn(row, |store|)
    ensures |r| == |store|
    decreases |row|
  {
    if row == [] then store
    else
      ModifyThrough(
        if FteMatches(request, store[row[0]]) then Instructed(store, row[0], request) else store,
        row[1..], request)
  }

  function ModifyStrictThrough(store: Store, row: Row, request: Entry): (r: Store)
    requires RefsIn(row, |store|)
    ensures |r| == |store|
  {
    if row == [] then store
    else if StrictMatches(request, store[row[0]]) then Instructed(store, row[0], request)
    else ModifyStrictThrough(store, row[1..], request)
  }

  function InsertRef(store: Store, ref: Ref, row: Row): (r: Row)
    requires RefsIn(row, |store|) && ref < |store|
    ensures RefsIn(r, |store|)
  {
    if row == [] || store[ref].priority >= store[row[0]].priority then [ref] + row
    else [row[0]] + InsertRef(store, ref, row[1..])
  }

  function SortRow(store: Store, row: Row): (r: Row)
    requires RefsIn(row, |store|)
    ensures RefsIn(r, |store|)
  {
    if row == [] then [] else InsertRef(store, row[0], SortRow(store, row[1..]))
  }

  function SortRows(store: Store, rows: seq<Row>): (r: seq<Row>)
    requires AllRefsIn(rows, |store|)
    ensures |r| == |rows| && AllRefsIn(r, |store|)
  {
    seq(|rows|, id requires 0 <= id < |rows| => SortRow(store, rows[id]))
  }

  // ---------------------------------------------------------------------------------------------
  // Messages and runs
  // ---------------------------------------------------------------------------------------------

  datatype Held = Held(store: Store, rows: seq<Row>)

  predicate HeldPlaced(h: Held) {
    AllRefsIn(h.rows, |h.store|)
  }

  /** A request on table id; made is the object the message was turned into. */
  function ApplyToRow(h: Held, id: TableId, command: Command, made: Ref): (r: Result<Held>)
    requires HeldPlaced(h) && id < |h.rows| && made < |h.store|
    ensures r.Ok? ==>
      HeldPlaced(r.value) && |r.value.store| == |h.store| && |r.value.rows| == |h.rows|
  {
    var e, row := h.store[made], h.rows[id];
    match command
    case Add => (match AddToRow(h.store, row, e, made)
      case Ok(row') => Ok(h.(rows := h.rows[id := row']))
      case Raised => Raised)
    case Delete => Ok(h.(rows := h.rows[id := UnselectedRow(h.store, row, e)]))
    case DeleteStrict => Ok(h.(rows := h.rows[id := DeleteStrictFromRow(h.store, row, e)]))
    case Modify => Ok(h.(store := ModifyThrough(h.store, row, e)))
    case ModifyStrict => Ok(h.(store := ModifyStrictThrough(h.store, row, e)))
  }

  function ApplyToRows(h: Held, from: nat, upto: nat, command: Command, made: Ref): (r: (Held, Status))
    requires HeldPlaced(h) && from <= upto <= |h.rows| && made < |h.store|
    ensures HeldPlaced(r.0) && |r.0.store| == |h.store| && |r.0.rows| == |h.rows| && r.1 != Crashed
    decreases upto - from
  {
    if from == upto then (h, Accepted)
    else match ApplyToRow(h, from, command, made)
      case Ok(h') => ApplyToRows(h', from + 1, upto, command, made)
      case Raised => (h, Refused)
  }

  function ApplyFlowModToRows(h: Held, fm: FlowMod): (r: (Held, Status))
    requires HeldPlaced(h)
    ensures HeldPlaced(r.0) && |r.0.rows| == |h.rows|
  {
    if fm.target.One? && fm.target.id >= |h.rows| then (h, Crashed)
    else if !DistinctKinds(fm.instructions) then (h, Refused)
    else
      var from := if fm.target.One? then fm.target.id else 0;
      var upto := if fm.target.One? then fm.target.id + 1 else |h.rows|;
      ApplyToRows(Held(h.store + [MakeEntry(fm)], h.rows), from, upto, fm.command, |h.store|)
  }

  function StepObjects(o: Objects, msg: OfMsg): (r: (Objects, Status))
    requires AllRefsIn(o.rows, |o.store|)
    ensures AllRefsIn(r.0.rows, |r.0.store|) && |r.0.rows| == |o.rows|
  {
    match msg
    case Ignorable => (o, Accepted)
    case Unsupported => (o, Refused)
    case GroupMod(command, id, buckets) =>
      var (groups, status) := ApplyGroupMod(o.groups, command, id, buckets);
      (o.(groups := groups), status)
    case Flow(fm) =>
      var (h, status) := ApplyFlowModToRows(Held(o.store, o.rows), fm);
      (Objects(h.store, if status == Accepted then SortRows(h.store, h.rows) else h.rows, o.groups), status)
  }

  function RunObjects(o: Objects, msgs: seq<OfMsg>, ignoreErrors: bool): (r: (Objects, Status))
    requires AllRefsIn(o.rows, |o.store|)
    ensures AllRefsIn(r.0.rows, |r.0.store|) && |r.0.rows| == |o.rows|
    decreases |msgs|
  {
    if msgs == [] then (o, Accepted)
    else
      var (o', status) := StepObjects(o, msgs[0]);
      if Stops(status, ignoreErrors) then (o', status)
      else RunObjects(o', msgs[1..], ignoreErrors)
  }

  // ---------------------------------------------------------------------------------------------
  // References kept apart
  // ---------------------------------------------------------------------------------------------

  lemma {:induction false} AddKeepsApart(store: Store, row: Row, e: Entry, made: Ref)
    requires RefsIn(row, |store|) && made < |store| && NoRepeats(row) && made !in row
    ensures AddToRow(store, row, e, made).Ok? ==> NoRepeats(AddToRow(store, row, e, made).value)
  {
    if row != [] {
      var tail := row[1..];
      assert forall i | 0 <= i < |tail| :: tail[i] == row[i + 1];
      AddKeepsApart(store, tail, e, made);
      assert row[0] !in tail;
    }
  }

  lemma {:induction false} UnselectedKeepsApart(store: Store, row: Row, request: Entry)
    requires RefsIn(row, |store|) && NoRepeats(row)
    ensures NoRepeats(UnselectedRow(store, row, request))
  {
    if row != [] {
      var tail := row[1..];
      assert forall i | 0 <= i < |tail| :: tail[i] == row[i + 1];
      UnselectedKeepsApart(store, tail, request);
      assert row[0] !in tail;
    }
  }

  lemma {:induction false} DeleteStrictKeepsApart(store: Store, row: Row, request: Entry)
    requires RefsIn(row, |store|) && NoRepeats(row)
    ensures NoRepeats(DeleteStrictFromRow(store, row, request))
  {
    if row != [] {
      var tail := row[1..];
      assert forall i | 0 <= i < |tail| :: tail[i] == row[i + 1];
      DeleteStrictKeepsApart(store, tail, request);
      assert row[0] !in tail;
    }
  }

  lemma {:induction false} InsertKeepsApart(store: Store, ref: Ref, row: Row)
    requires RefsIn(row, |store|) && ref < |store| && NoRepeats(row) && ref !in row
    ensures NoRepeats(InsertRef(store, ref, row))
    ensures forall x :: x in InsertRef(store, ref, row) <==> x == ref || x in row
  {
    if row != [] {
      var tail := row[1..];
      assert forall i | 0 <= i < |tail| :: tail[i] == row[i + 1];
      InsertKeepsApart(store, ref, tail);
      assert row[0] !in tail && row == [row[0]] + tail;
    }
  }

  lemma {:induction false} SortKeepsApart(store: Store, row: Row)
    requires RefsIn(row, |store|) && NoRepeats(row)
    ensures NoRepeats(SortRow(store, row)) && forall x :: x in SortRow(store, row) <==> x in row
  {
    if row != [] {
      var tail := row[1..];
      assert forall i | 0 <= i < |tail| :: tail[i] == row[i + 1];
      SortKeepsApart(store, tail);
      assert row[0] !in tail && row == [row[0]] + tail;
      InsertKeepsApart(store, row[0], SortRow(store, tail));
    }
  }

  // ---------------------------------------------------------------------------------------------
  // What becomes of the contents
  // ---------------------------------------------------------------------------------------------

  lemma TableOfTail(store: Store, row: Row)
    requires RefsIn(row, |store|) && row != []
    ensures RefsIn(row[1..], |store|) && TableOf(store, row[1..]) == TableOf(store, row)[1..]
    ensures TableOf(store, row) == [store[row[0]]] + TableOf(store, row[1..])
  {
  }

  lemma TableOfConcat(store: Store, a: Row, b: Row)
    requires RefsIn(a, |store|) && RefsIn(b, |store|)
    ensures RefsIn(a + b, |store|) && TableOf(store, a + b) == TableOf(store, a) + TableOf(store, b)
  {
  }

  lemma {:induction false} AddToRowView(store: Store, row: Row, made: Ref)
    requires RefsIn(row, |store|) && made < |store|
    ensures
      var r, t := AddToRow(store, row, store[made], made), AddTo(TableOf(store, row), store[made]);
      (r.Ok? <==> t.Ok?) && (r.Ok? ==> TableOf(store, r.value) == t.value)
  {
    if row != [] {
      TableOfTail(store, row);
      AddToRowView(store, row[1..], made);
      var rest := AddToRow(store, row[1..], store[made], made);
      TableOfConcat(store, row[1..], [made]);
      if rest.Ok? {
        TableOfConcat(store, [row[0]], rest.value);
      }
    }
  }

  lemma {:induction false} UnselectedRowView(store: Store, row: Row, request: Entry)
    requires RefsIn(row, |store|)
    ensures TableOf(store, UnselectedRow(store, row, request)) == Unselected(TableOf(store, row), request)
  {
    if row != [] {
      TableOfTail(store, row);
      UnselectedRowView(store, row[1..], request);
      TableOfConcat(store, [row[0]], UnselectedRow(store, row[1..], request));
    }
  }

  lemma {:induction false} DeleteStrictRowView(store: Store, row: Row, request: Entry)
    requires RefsIn(row, |store|)
    ensures TableOf(store, DeleteStrictFromRow(store, row, request)) == DeleteStrictFrom(TableOf(store, row), request)
  {
    if row != [] {
      TableOfTail(store, row);
      DeleteStrictRowView(store, row[1..], request);
      TableOfConcat(store, [row[0]], DeleteStrictFromRow(store, row[1..], request));
    }
  }

  lemma {:induction false} InsertRefView(store: Store, ref: Ref, row: Row)
    requires RefsIn(row, |store|) && ref < |store|
    ensures TableOf(store, InsertRef(store, ref, row)) == Insert(store[ref], TableOf(store, row))
  {
    if row != [] {
      TableOfTail(store, row);
      InsertRefView(store, ref, row[1..]);
      TableOfConcat(store, [row[0]], InsertRef(store, ref, row[1..]));
    }
    TableOfConcat(store, [ref], row);
  }

  lemma {:induction false} SortRowView(store: Store, row: Row)
    requires RefsIn(row, |store|)
    ensures TableOf(store, SortRow(store, row)) == Sort(TableOf(store, row))
  {
    if row != [] {
      TableOfTail(store, row);
      SortRowView(store, row[1..]);
      InsertRefView(store, row[0], SortRow(store, row[1..]));
    }
  }

  lemma SortRowsView(store: Store, rows: seq<Row>)
    requires AllRefsIn(rows, |store|)
    ensures TablesOf(store, SortRows(store, rows)) == SortTables(TablesOf(store, rows))
  {
    forall id | 0 <= id < |rows| ensures TableOf(store, SortRow(store, rows[id])) == Sort(TableOf(store, rows[id])) {
      SortRowView(store, rows[id]);
    }
  }

  /** Exactly the row's selected objects get the instructions, however often a row names them. */
  lemma {:induction false} ModifyThroughIs(store: Store, row: Row, request: Entry)
    requires RefsIn(row, |store|) && request.outPort.None?
    ensures forall x | 0 <= x < |store| ::
      ModifyThrough(store, row, request)[x] ==
      if x in row && FteMatches(request, store[x]) then store[x].(instructions := request.instructions) else store[x]
    decreases |row|
  {
    if row != [] {
      var store' := if FteMatches(request, store[row[0]]) then Instructed(store, row[0], request) else store;
      ModifyThroughIs(store', row[1..], request);
      assert forall x :: x in row <==> x == row[0] || x in row[1..];
    }
  }

  lemma ModifyThroughView(store: Store, row: Row, request: Entry, other: Row)
    requires RefsIn(row, |store|) && RefsIn(other, |store|) && request.outPort.None?
    ensures TableOf(ModifyThrough(store, row, request), row) == ModifyIn(TableOf(store, row), request)
    ensures (forall r | r in row :: r !in other) ==>
              TableOf(ModifyThrough(store, row, request), other) == TableOf(store, other)
  {
    ModifyThroughIs(store, row, request);
    assert forall i | 0 <= i < |row| :: row[i] in row;
    assert forall i | 0 <= i < |other| :: other[i] in other;
  }

  lemma {:induction false} ModifyStrictThroughView(store: Store, row: Row, request: Entry, other: Row)
    requires RefsIn(row, |store|) && RefsIn(other, |store|) && NoRepeats(row)
    ensures TableOf(ModifyStrictThrough(store, row, request), row) == ModifyStrictIn(TableOf(store, row), request)
    ensures (forall r | r in row :: r !in other) ==>
              TableOf(ModifyStrictThrough(store, row, request), other) == TableOf(store, other)
  {
    if row != [] {
      TableOfTail(store, row);
      var tail := row[1..];
      assert forall i | 0 <= i < |tail| :: tail[i] == row[i + 1];
      assert row[0] in row && row[0] !in tail && forall r | r in tail :: r in row;
      if StrictMatches(request, store[row[0]]) {
        ChangedElsewhere(store, row[0], request, tail);
        ChangedElsewhere(store, row[0], request, other);
        TableOfTail(Instructed(store, row[0], request), row);
      } else {
        ModifyStrictThroughView(store, tail, request, other);
        ModifyStrictThroughView(store, tail, request, [row[0]]);
        var store' := ModifyStrictThrough(store, tail, request);
        TableOfTail(store', row);
        assert TableOf(store', [row[0]])[0] == TableOf(store, [row[0]])[0];
      }
    }
  }

  lemma ChangedElsewhere(store: Store, ref: Ref, request: Entry, row: Row)
    requires RefsIn(row, |store|) && ref < |store|
    ensures ref !in row ==> TableOf(Instructed(store, ref, request), row) == TableOf(store, row)
  {
    assert forall i | 0 <= i < |row| :: row[i] in row;
  }

  // ---------------------------------------------------------------------------------------------
  // Where references may be
  // ---------------------------------------------------------------------------------------------

  predicate NowhereIn(rows: seq<Row>, ref: Ref) {
    forall id | 0 <= id < |rows| :: ref !in rows[id]
  }

  predicate AllNoRepeats(rows: seq<Row>) {
    forall id | 0 <= id < |rows| :: NoRepeats(rows[id])
  }

  function Contents(h: Held): (ts: Tables)
    requires HeldPlaced(h)
    ensures |ts| == |h.rows|
  {
    TablesOf(h.store, h.rows)
  }

  /** The rows hold what they held, and perhaps the new object where the request may have put it. */
  ghost predicate Grown(rows: seq<Row>, rows': seq<Row>, from: nat, upto: nat, made: Ref, adds: bool) {
    && |rows'| == |rows| && AllNoRepeats(rows')
    && forall id, x | 0 <= id < |rows| && x in rows'[id] :: x in rows[id] || (adds && x == made && from <= id < upto)
  }

  lemma RowGrows(h: Held, id: TableId, command: Command, made: Ref)
    requires HeldPlaced(h) && id < |h.rows| && made < |h.store| && AllNoRepeats(h.rows) && made !in h.rows[id]
    requires ApplyToRow(h, id, command, made).Ok?
    ensures Grown(h.rows, ApplyToRow(h, id, command, made).value.rows, id, id + 1, made, command == Add)
  {
    var row, e := h.rows[id], h.store[made];
    match command
    case Add => AddKeepsApart(h.store, row, e, made);
    case Delete => UnselectedKeepsApart(h.store, row, e);
    case DeleteStrict => DeleteStrictKeepsApart(h.store, row, e);
    case _ =>
  }

  lemma {:induction false} RangeGrows(h: Held, from: nat, upto: nat, command: Command, made: Ref)
    requires HeldPlaced(h) && from <= upto <= |h.rows| && made < |h.store| && AllNoRepeats(h.rows)
    requires forall id | from <= id < upto :: made !in h.rows[id]
    ensures Grown(h.rows, ApplyToRows(h, from, upto, command, made).0.rows, from, upto, made, command == Add)
    decreases upto - from
  {
    if from < upto {
      var r := ApplyToRow(h, from, command, made);
      if r.Ok? {
        RowGrows(h, from, command, made);
        RangeGrows(r.value, from + 1, upto, command, made);
      }
    }
  }

  lemma GrownUnshared(rows: seq<Row>, rows': seq<Row>, from: nat, upto: nat, made: Ref, adds: bool)
    requires Grown(rows, rows', from, upto, made, adds) && Unshared(rows) && NowhereIn(rows, made)
    requires adds ==> upto == from + 1
    ensures Unshared(rows')
  {
    assert forall id, x | 0 <= id < |rows| && x in rows[id] :: x != made;
  }

  lemma SortedRowsApart(store: Store, rows: seq<Row>)
    requires AllRefsIn(rows, |store|) && AllNoRepeats(rows)
    ensures AllNoRepeats(SortRows(store, rows))
    ensures Unshared(rows) ==> Unshared(SortRows(store, rows))
  {
    forall id | 0 <= id < |rows|
      ensures NoRepeats(SortRow(store, rows[id])) && forall x :: x in SortRow(store, rows[id]) <==> x in rows[id]
    {
      SortKeepsApart(store, rows[id]);
    }
    var sorted := SortRows(store, rows);
    assert forall id, x | 0 <= id < |rows| :: x in sorted[id] <==> x in rows[id];
  }

  lemma NewObject(o: Objects, e: Entry)
    requires Placed(o)
    ensures HeldPlaced(Held(o.store + [e], o.rows)) && Contents(Held(o.store + [e], o.rows)) == View(o).tables
    ensures NowhereIn(o.rows, |o.store|)
  {
    assert forall id | 0 <= id < |o.rows| :: TableOf(o.store + [e], o.rows[id]) == TableOf(o.store, o.rows[id]);
  }

  lemma StepPlaced(o: Objects, m: OfMsg)
    requires Placed(o)
    ensures Placed(StepObjects(o, m).0)
    ensures Unshared(o.rows) && !AddToEveryTable(m) ==> Unshared(StepObjects(o, m).0.rows)
  {
    if m.Flow? && DistinctKinds(m.mod.instructions) && (m.mod.target.One? ==> m.mod.target.id < |o.rows|) {
      var fm, made := m.mod, |o.store|;
      var from := if fm.target.One? then fm.target.id else 0;
      var upto := if fm.target.One? then fm.target.id + 1 else |o.rows|;
      var h := Held(o.store + [MakeEntry(fm)], o.rows);
      NewObject(o, MakeEntry(fm));
      RangeGrows(h, from, upto, fm.command, made);
      var h' := ApplyToRows(h, from, upto, fm.command, made).0;
      if Unshared(o.rows) && !AddToEveryTable(m) {
        GrownUnshared(o.rows, h'.rows, from, upto, made, fm.command == Add);
      }
      SortedRowsApart(h'.store, h'.rows);
    }
  }

  function NoObjects(numTables: nat): (o: Objects)
    ensures Placed(o) && Unshared(o.rows)
  {
    Objects([], seq(numTables, _ => []), map[])
  }
}
