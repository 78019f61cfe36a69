/**
 Redundant controllers: a second copy of a message list, arriving with a lag and interleaved with a
 first, must leave the tables as one application did.  The proof follows one cell at a time: the
 instructions a table holds under one priority and match.
 */
module Redundancy {
  import opened Packets
  import opened FlowEntries
  import opened FlowTables
  import opened TableInvariant
  import opened TableLookup

  datatype Key = Key(priority: nat, match_: Match)

  type Cell = Option<seq<Instruction>>

  function KeyOf(e: Entry): (r: Key) {
    Key(e.priority, e.match_)
  }

  function CellOf(t: Table, k: Key): (r: Cell) {
    if t == [] then None
    else if KeyOf(t[0]) == k then Some(t[0].instructions)
    else CellOf(t[1..], k)
  }

  predicate SameEntries(t: Table, u: Table) {
    (forall x | x in t :: x in u) && (forall x | x in u :: x in t)
  }

  // ---------------------------------------------------------------------------------------------
  // What one request does to one cell
  // ---------------------------------------------------------------------------------------------

  predicate CellOutPortMatches(request: Entry, cell: Cell) {
    request.outPort.Some? && cell.Some? ==> OutputsTo(cell.value, request.outPort.value)
  }

  function CellApply(command: Command, e: Entry, k: Key, cell: Cell): (r: Cell) {
    match command
    case Add => if KeyOf(e) == k then Some(e.instructions) else cell
    case Delete =>
      if FieldsSelect(e.match_, k.match_) && CellOutPortMatches(e, cell) then None else cell
    case DeleteStrict =>
      if KeyOf(e) == k && CellOutPortMatches(e, cell) then None else cell
    case Modify =>
      if cell.Some? && FieldsSelect(e.match_, k.match_) && CellOutPortMatches(e, cell)
      then Some(e.instructions) else cell
    case ModifyStrict =>
      if cell.Some? && KeyOf(e) == k && CellOutPortMatches(e, cell)
      then Some(e.instructions) else cell
  }

  predicate Targets(fm: FlowMod, id: TableId) {
    fm.target == AllTables || fm.target == One(id)
  }

  function CellStep(msg: OfMsg, id: TableId, k: Key, cell: Cell): (r: Cell) {
    if msg.Flow? && DistinctKinds(msg.mod.instructions) && Targets(msg.mod, id)
    then CellApply(msg.mod.command, MakeEntry(msg.mod), k, cell)
    else cell
  }

  function CellRun(msgs: seq<OfMsg>, id: TableId, k: Key, cell: Cell): (r: Cell)
    decreases |msgs|
  {
    if msgs == [] then cell else CellRun(msgs[1..], id, k, CellStep(msgs[0], id, k, cell))
  }

  // ---------------------------------------------------------------------------------------------
  // Tables as collections of cells
  // ---------------------------------------------------------------------------------------------

  lemma {:induction false} CellMembership(t: Table, k: Key, ins: seq<Instruction>)
    requires Good(t)
    ensures CellOf(t, k) == Some(ins) <==> Entry(k.priority, k.match_, ins, None) in t
  {
    if t != [] {
      GoodTail(t);
      CellMembership(t[1..], k, ins);
      assert forall x :: x in t <==> x == t[0] || x in t[1..];
      var e := Entry(k.priority, k.match_, ins, None);
      if KeyOf(t[0]) == k && e in t[1..] {
        SameMatchOverlaps(t[0], e);
      }
    }
  }

  /** Good tables with equal cells hold the same entries. */
  lemma CellsDetermineEntries(t: Table, u: Table)
    requires Good(t) && Good(u)
    requires forall k :: CellOf(t, k) == CellOf(u, k)
    ensures SameEntries(t, u)
  {
    forall x | x in t ensures x in u {
      CellMembership(t, KeyOf(x), x.instructions);
      CellMembership(u, KeyOf(x), x.instructions);
      assert x == Entry(x.priority, x.match_, x.instructions, None);
    }
    forall x | x in u ensures x in t {
      CellMembership(t, KeyOf(x), x.instructions);
      CellMembership(u, KeyOf(x), x.instructions);
      assert x == Entry(x.priority, x.match_, x.instructions, None);
    }
  }

  lemma EntriesDetermineCells(t: Table, u: Table, k: Key)
    requires Good(t) && Good(u) && SameEntries(t, u)
    ensures CellOf(t, k) == CellOf(u, k)
  {
    if CellOf(t, k).Some? {
      CellMembership(t, k, CellOf(t, k).value);
      CellMembership(u, k, CellOf(t, k).value);
    }
    if CellOf(u, k).Some? {
      CellMembership(t, k, CellOf(u, k).value);
      CellMembership(u, k, CellOf(u, k).value);
    }
  }

  lemma AbsentKey(t: Table, k: Key)
    ensures CellOf(t, k).None? <==> forall x | x in t :: KeyOf(x) != k
  {
  }

  lemma CellAfterAppend(t: Table, e: Entry, k: Key)
    ensures CellOf(t + [e], k) ==
            if CellOf(t, k).Some? then CellOf(t, k)
            else if KeyOf(e) == k then Some(e.instructions) else None
  {
    if t != [] {
      assert (t + [e])[1..] == t[1..] + [e];
      CellAfterAppend(t[1..], e, k);
    } else {
      assert t + [e] == [e];
    }
  }

  lemma CellCons(e: Entry, t: Table, k: Key)
    ensures CellOf([e] + t, k) == if KeyOf(e) == k then Some(e.instructions) else CellOf(t, k)
  {
    assert ([e] + t)[1..] == t;
  }

  lemma CellOfOthers(t: Table, e: Entry, k: Key)
    ensures CellOf(Others(t, e), k) == if KeyOf(e) == k then None else CellOf(t, k)
  {
    if t != [] {
      CellOfOthers(t[1..], e, k);
      CellCons(t[0], Others(t[1..], e), k);
    }
  }

  lemma CellOfUnselected(t: Table, request: Entry, k: Key)
    requires Good(t)
    ensures CellOf(Unselected(t, request), k) == CellApply(Delete, request, k, CellOf(t, k))
  {
    if t != [] {
      GoodTail(t);
      CellOfUnselected(t[1..], request, k);
      CellCons(t[0], Unselected(t[1..], request), k);
      if KeyOf(t[0]) == k && FteMatches(request, t[0]) {
        AbsentAfterHead(t, k);
        AbsentKey(t[1..], k);
      }
    }
  }

  lemma AbsentAfterHead(t: Table, k: Key)
    requires Good(t) && t != [] && KeyOf(t[0]) == k
    ensures CellOf(t[1..], k) == None
  {
    GoodTail(t);
    forall x | x in t[1..] ensures KeyOf(x) != k {
      if KeyOf(x) == k {
        SameMatchOverlaps(t[0], x);
      }
    }
    AbsentKey(t[1..], k);
  }

  lemma CellOfDeleteStrict(t: Table, request: Entry, k: Key)
    requires Good(t)
    ensures CellOf(DeleteStrictFrom(t, request), k) == CellApply(DeleteStrict, request, k, CellOf(t, k))
  {
    if t != [] {
      GoodTail(t);
      if KeyOf(t[0]) == k {
        AbsentAfterHead(t, k);
      }
      if SameMatch(request, t[0]) && !StrictMatches(request, t[0]) {
        AbsentAfterHead(t, KeyOf(request));
        AbsentKey(t[1..], KeyOf(request));
      }
      CellOfDeleteStrict(t[1..], request, k);
    }
  }

  lemma CellOfModify(t: Table, request: Entry, k: Key)
    ensures CellOf(ModifyIn(t, request), k) == CellApply(Modify, request, k, CellOf(t, k))
  {
    if t != [] {
      assert ModifyIn(t, request)[1..] == ModifyIn(t[1..], request);
      CellOfModify(t[1..], request, k);
    }
  }

  lemma CellOfModifyStrict(t: Table, request: Entry, k: Key)
    requires Good(t)
    ensures CellOf(ModifyStrictIn(t, request), k) == CellApply(ModifyStrict, request, k, CellOf(t, k))
  {
    if t != [] {
      GoodTail(t);
      if KeyOf(t[0]) == k {
        AbsentAfterHead(t, k);
      }
      CellOfModifyStrict(t[1..], request, k);
      if SameMatch(request, t[0]) && !StrictMatches(request, t[0]) {
        AbsentAfterHead(t, KeyOf(request));
      }
    }
  }

  lemma CellOfApply(t: Table, command: Command, e: Entry, k: Key)
    requires Good(t) && WellFormed(e.(outPort := None))
    requires command == Add ==> e.outPort.None?
    requires Apply(t, command, e).Ok?
    ensures CellOf(Apply(t, command, e).value, k) == CellApply(command, e, k, CellOf(t, k))
  {
    match command
    case Add =>
      AddMeaning(t, e);
      CellOfOthers(t, e, k);
      CellAfterAppend(Others(t, e), e, k);
    case Delete => CellOfUnselected(t, e, k);
    case DeleteStrict => CellOfDeleteStrict(t, e, k);
    case Modify => CellOfModify(t, e, k);
    case ModifyStrict => CellOfModifyStrict(t, e, k);
  }

  // ---------------------------------------------------------------------------------------------
  // Messages that cannot clash
  // ---------------------------------------------------------------------------------------------

  /** The code's overlap test, which looks at priority and match only. */
  predicate KeysOverlap(a: Key, b: Key) {
    Overlaps(Entry(a.priority, a.match_, [], None), Entry(b.priority, b.match_, [], None))
  }

  ghost predicate AddsKey(msg: OfMsg, id: TableId, k: Key) {
    msg.Flow? && msg.mod.command == Add && Targets(msg.mod, id) && KeyOf(MakeEntry(msg.mod)) == k
  }

  /** The keys a table holds to begin with or that some message adds to it. */
  ghost predicate Occurs(s: Switch, msgs: seq<OfMsg>, id: TableId, k: Key) {
    id < |s.tables| &&
    ((exists e | e in s.tables[id] :: KeyOf(e) == k) || (exists m | m in msgs :: AddsKey(m, id, k)))
  }

  /** No two overlapping but different matches among added and pre-existing entries of a table. */
  ghost predicate NoClash(s: Switch, msgs: seq<OfMsg>) {
    forall id, a, b | Occurs(s, msgs, id, a) && Occurs(s, msgs, id, b) && KeysOverlap(a, b) :: a == b
  }

  /** Every flow mod names an existing table; anything else raises past the error handling. */
  predicate TablesExist(msgs: seq<OfMsg>, numTables: nat) {
    forall m | m in msgs && m.Flow? && m.mod.target.One? :: m.mod.target.id < numTables
  }

  ghost predicate Fits(s: Switch, allowed: seq<iset<Key>>) {
    |allowed| == |s.tables| &&
    forall id, e | 0 <= id < |s.tables| && e in s.tables[id] :: KeyOf(e) in allowed[id]
  }

  ghost predicate ClashFree(allowed: seq<iset<Key>>) {
    forall id, a, b | 0 <= id < |allowed| && a in allowed[id] && b in allowed[id] && KeysOverlap(a, b) ::
      a == b
  }

  ghost predicate MsgFits(m: OfMsg, allowed: seq<iset<Key>>) {
    m.Flow? ==>
      && (m.mod.target.One? ==> m.mod.target.id < |allowed|)
      && (m.mod.command == Add ==>
            forall id | 0 <= id < |allowed| && Targets(m.mod, id) :: KeyOf(MakeEntry(m.mod)) in allowed[id])
  }

  lemma FittingAddIsAccepted(t: Table, e: Entry, allowed: seq<iset<Key>>, id: nat)
    requires Good(t) && WellFormed(e) && id < |allowed| && ClashFree(allowed)
    requires KeyOf(e) in allowed[id] && forall x | x in t :: KeyOf(x) in allowed[id]
    ensures AddTo(t, e).Ok?
  {
    AddMeaning(t, e);
    forall x | x in t && Overlaps(e, x) ensures SameMatch(e, x) {
      assert KeysOverlap(KeyOf(e), KeyOf(x));
    }
  }

  lemma CellOfSort(t: Table, k: Key)
    requires Good(t)
    ensures CellOf(Sort(t), k) == CellOf(t, k)
  {
    SortGood(t);
    EntriesDetermineCells(Sort(t), t, k);
  }

  lemma AppliedKeys(t: Table, command: Command, e: Entry, x: Entry)
    requires Apply(t, command, e).Ok? && x in Apply(t, command, e).value
    requires Good(t) && WellFormed(e.(outPort := None))
    requires command == Add ==> e.outPort.None?
    ensures (exists y | y in t :: KeyOf(y) == KeyOf(x)) || (command == Add && KeyOf(x) == KeyOf(e))
  {
    ApplyKeepsGood(t, command, e);
    CellOfApply(t, command, e, KeyOf(x));
    CellMembership(Apply(t, command, e).value, KeyOf(x), x.instructions);
    assert x == Entry(x.priority, x.match_, x.instructions, None);
    AbsentKey(t, KeyOf(x));
  }

  lemma FlowStepCells(s: Switch, fm: FlowMod, allowed: seq<iset<Key>>)
    requires AllGood(s.tables) && Fits(s, allowed) && ClashFree(allowed) && MsgFits(Flow(fm), allowed)
    requires DistinctKinds(fm.instructions)
    ensures
      var (s', status) := Step(s, Flow(fm));
      status == Accepted && |s'.tables| == |s.tables| &&
      forall id | 0 <= id < |s.tables| ::
        var t := s.tables[id];
        if Targets(fm, id)
        then Apply(t, fm.command, MakeEntry(fm)).Ok? &&
             s'.tables[id] == Sort(Apply(t, fm.command, MakeEntry(fm)).value)
        else s'.tables[id] == Sort(t)
  {
    var e := MakeEntry(fm);
    var from := if fm.target.One? then fm.target.id else 0;
    var upto := if fm.target.One? then fm.target.id + 1 else |s.tables|;
    forall id | from <= id < upto ensures Apply(s.tables[id], fm.command, e).Ok? {
      if fm.command == Add {
        FittingAddIsAccepted(s.tables[id], e, allowed, id);
      }
    }
    RangeIsTablewise(s.tables, from, upto, fm.command, e);
  }

  lemma StepCells(s: Switch, m: OfMsg, allowed: seq<iset<Key>>)
    requires AllGood(s.tables) && Fits(s, allowed) && ClashFree(allowed) && MsgFits(m, allowed)
    ensures
      var (s', status) := Step(s, m);
      && status != Crashed
      && (status == Refused ==> !m.Flow? || !DistinctKinds(m.mod.instructions))
      && AllGood(s'.tables) && Fits(s', allowed)
      && forall id, k :: 0 <= id < |s.tables| ==>
           CellOf(s'.tables[id], k) == CellStep(m, id, k, CellOf(s.tables[id], k))
  {
    StepKeepsGood(s, m);
    var (s', status) := Step(s, m);
    if m.Flow? && DistinctKinds(m.mod.instructions) {
      var fm := m.mod;
      var e := MakeEntry(fm);
      FlowStepCells(s, fm, allowed);
      forall id, k | 0 <= id < |s.tables|
        ensures CellOf(s'.tables[id], k) == CellStep(m, id, k, CellOf(s.tables[id], k))
      {
        if Targets(fm, id) {
          ApplyKeepsGood(s.tables[id], fm.command, e);
          CellOfSort(Apply(s.tables[id], fm.command, e).value, k);
          CellOfApply(s.tables[id], fm.command, e, k);
        } else {
          CellOfSort(s.tables[id], k);
        }
      }
      forall id, x | 0 <= id < |s'.tables| && x in s'.tables[id] ensures KeyOf(x) in allowed[id] {
        if Targets(fm, id) {
          ApplyKeepsGood(s.tables[id], fm.command, e);
          SortGood(Apply(s.tables[id], fm.command, e).value);
          AppliedKeys(s.tables[id], fm.command, e, x);
        } else {
          SortGood(s.tables[id]);
        }
      }
    }
  }

  /** A run that cannot clash acts on every cell independently. */
  lemma {:induction false} RunCells(s: Switch, msgs: seq<OfMsg>, allowed: seq<iset<Key>>)
    requires AllGood(s.tables) && Fits(s, allowed) && ClashFree(allowed)
    requires forall m | m in msgs :: MsgFits(m, allowed)
    ensures
      var (s', status) := Run(s, msgs, true);
      && status == Accepted && AllGood(s'.tables) && Fits(s', allowed)
      && forall id, k :: 0 <= id < |s.tables| ==>
           CellOf(s'.tables[id], k) == CellRun(msgs, id, k, CellOf(s.tables[id], k))
    decreases |msgs|
  {
    if msgs != [] {
      StepCells(s, msgs[0], allowed);
      var (s1, status) := Step(s, msgs[0]);
      RunCells(s1, msgs[1..], allowed);
    }
  }

  // ---------------------------------------------------------------------------------------------
  // Absorption: a request repeated later makes its earlier occurrence invisible
  // ---------------------------------------------------------------------------------------------

  predicate IsModify(m: OfMsg) {
    m.Flow? && m.mod.command in {Modify, ModifyStrict}
  }

  predicate HasOutPort(m: OfMsg) {
    m.Flow? && m.mod.command in {Delete, DeleteStrict} && m.mod.outPort.Some?
  }

  predicate NoModify(msgs: seq<OfMsg>) {
    forall m | m in msgs :: !IsModify(m)
  }

  predicate NoOutPort(msgs: seq<OfMsg>) {
    forall m | m in msgs :: !HasOutPort(m)
  }

  lemma {:induction false} CellRunConcat(a: seq<OfMsg>, b: seq<OfMsg>, id: TableId, k: Key, cell: Cell)
    ensures CellRun(a + b, id, k, cell) == CellRun(b, id, k, CellRun(a, id, k, cell))
    decreases |a|
  {
    if a == [] {
      assert a + b == b;
    } else {
      assert (a + b)[1..] == a[1..] + b;
      CellRunConcat(a[1..], b, id, k, CellStep(a[0], id, k, cell));
    }
  }

  predicate ActsOn(m: OfMsg, id: TableId) {
    m.Flow? && DistinctKinds(m.mod.instructions) && Targets(m.mod, id)
  }

  predicate Selects(m: OfMsg, k: Key)
    requires m.Flow?
  {
    if m.mod.command in {Delete, Modify} then FieldsSelect(MakeEntry(m.mod).match_, k.match_)
    else KeyOf(MakeEntry(m.mod)) == k
  }

  predicate Reaches(m: OfMsg, id: TableId, k: Key) {
    ActsOn(m, id) && Selects(m, k)
  }

  lemma ReachesOrStays(m: OfMsg, id: TableId, k: Key, cell: Cell)
    ensures CellStep(m, id, k, cell) != cell ==> Reaches(m, id, k)
  {
  }

  /** The instruction lists a cell starts with or may be given. */
  ghost function Holdings(cell: Cell, msgs: seq<OfMsg>, id: TableId, k: Key): (r: iset<seq<Instruction>>) {
    iset x: seq<Instruction> |
      cell == Some(x) || exists m | m in msgs :: Reaches(m, id, k) && !m.mod.command.Delete? &&
                                                !m.mod.command.DeleteStrict? && m.mod.instructions == x
  }

  predicate KeyUnmodified(msgs: seq<OfMsg>, id: TableId, k: Key) {
    forall m | m in msgs && IsModify(m) :: !Reaches(m, id, k)
  }

  /** Every filtered delete that reaches the key treats all these instruction lists alike. */
  ghost predicate FiltersAlike(msgs: seq<OfMsg>, id: TableId, k: Key, held: iset<seq<Instruction>>) {
    forall m, x, y | m in msgs && HasOutPort(m) && Reaches(m, id, k) && x in held && y in held ::
      OutputsTo(x, m.mod.outPort.value) == OutputsTo(y, m.mod.outPort.value)
  }

  /** Everything the messages give the cell is in held. */
  ghost predicate Gives(msgs: seq<OfMsg>, id: TableId, k: Key, held: iset<seq<Instruction>>) {
    forall m | m in msgs && Reaches(m, id, k) && !m.mod.command.Delete? && !m.mod.command.DeleteStrict? ::
      m.mod.instructions in held
  }

  /** What happens to the cell does not hang on its contents: filters cannot tell them apart, or they never change. */
  ghost predicate Steady(msgs: seq<OfMsg>, id: TableId, k: Key, held: iset<seq<Instruction>>) {
    Gives(msgs, id, k, held) && (KeyUnmodified(msgs, id, k) || FiltersAlike(msgs, id, k, held))
  }

  ghost predicate CellIn(cell: Cell, held: iset<seq<Instruction>>) {
    cell.Some? ==> cell.value in held
  }

  lemma SteadyPart(msgs: seq<OfMsg>, part: seq<OfMsg>, id: TableId, k: Key, held: iset<seq<Instruction>>)
    requires Steady(msgs, id, k, held) && forall m | m in part :: m in msgs
    ensures Steady(part, id, k, held)
  {
  }

  lemma {:induction false} RunStaysIn(msgs: seq<OfMsg>, id: TableId, k: Key, cell: Cell, held: iset<seq<Instruction>>)
    requires Gives(msgs, id, k, held) && CellIn(cell, held)
    ensures CellIn(CellRun(msgs, id, k, cell), held)
    decreases |msgs|
  {
    if msgs != [] {
      assert msgs[0] in msgs && forall m | m in msgs[1..] :: m in msgs;
      RunStaysIn(msgs[1..], id, k, CellStep(msgs[0], id, k, cell), held);
    }
  }

  /** Where nothing modifies, an empty cell either stays behind, or catches up with a filled one. */
  lemma {:induction false} FilledOrEqual(msgs: seq<OfMsg>, id: TableId, k: Key, cell: Cell)
    requires KeyUnmodified(msgs, id, k) && cell.Some?
    ensures
      var fromNone := CellRun(msgs, id, k, None);
      var fromSome := CellRun(msgs, id, k, cell);
      fromNone == fromSome || (fromNone == None && fromSome == cell)
    decreases |msgs|
  {
    if msgs != [] {
      assert msgs[0] in msgs && forall m | m in msgs[1..] :: m in msgs;
      var x := CellStep(msgs[0], id, k, None);
      var y := CellStep(msgs[0], id, k, cell);
      if x == None && y == cell {
        FilledOrEqual(msgs[1..], id, k, cell);
      }
    }
  }

  /** Where filters treat all contents alike, whether a cell is filled never depends on what it holds. */
  lemma {:induction false} EquallyFilled(
    msgs: seq<OfMsg>, id: TableId, k: Key, x: Cell, y: Cell, held: iset<seq<Instruction>>)
    requires Gives(msgs, id, k, held) && FiltersAlike(msgs, id, k, held)
    requires CellIn(x, held) && CellIn(y, held) && x.Some? == y.Some?
    ensures CellRun(msgs, id, k, x).Some? == CellRun(msgs, id, k, y).Some?
    decreases |msgs|
  {
    if msgs != [] {
      var m := msgs[0];
      assert m in msgs && forall m | m in msgs[1..] :: m in msgs;
      StepEquallyFilled(m, id, k, x, y, held);
      EquallyFilled(msgs[1..], id, k, CellStep(m, id, k, x), CellStep(m, id, k, y), held);
    }
  }

  lemma StepEquallyFilled(m: OfMsg, id: TableId, k: Key, x: Cell, y: Cell, held: iset<seq<Instruction>>)
    requires Gives([m], id, k, held) && FiltersAlike([m], id, k, held)
    requires CellIn(x, held) && CellIn(y, held) && x.Some? == y.Some?
    ensures CellStep(m, id, k, x).Some? == CellStep(m, id, k, y).Some?
    ensures CellIn(CellStep(m, id, k, x), held) && CellIn(CellStep(m, id, k, y), held)
  {
    assert m in [m];
  }

  lemma PlainStepIsConstant(m: OfMsg, id: TableId, k: Key, cell: Cell, y: Cell)
    requires !IsModify(m) && !HasOutPort(m) && CellStep(m, id, k, cell) != cell
    ensures CellStep(m, id, k, y) == CellStep(m, id, k, cell)
  {
  }

  lemma ModifyStepNeedsFilled(m: OfMsg, id: TableId, k: Key, cell: Cell, y: Cell)
    requires IsModify(m) && CellStep(m, id, k, cell) != cell
    ensures cell.Some? && CellStep(m, id, k, cell).Some?
    ensures CellStep(m, id, k, y) == if y.Some? then CellStep(m, id, k, cell) else None
  {
  }

  lemma FilteredStepEmpties(m: OfMsg, id: TableId, k: Key, cell: Cell, held: iset<seq<Instruction>>)
    requires HasOutPort(m) && CellStep(m, id, k, cell) != cell && CellIn(cell, held)
    ensures cell.Some? && CellStep(m, id, k, cell) == None && CellStep(m, id, k, None) == None
    ensures FiltersAlike([m], id, k, held) ==> forall y | CellIn(y, held) :: CellStep(m, id, k, y) == None
  {
    assert m in [m];
  }

  lemma Absorbed(m: OfMsg, z: seq<OfMsg>, id: TableId, k: Key, cell: Cell, held: iset<seq<Instruction>>)
    requires Steady([m] + z, id, k, held) && CellIn(cell, held)
    ensures CellStep(m, id, k, CellRun(z, id, k, CellStep(m, id, k, cell))) ==
            CellStep(m, id, k, CellRun(z, id, k, cell))
  {
    assert m in [m] + z && forall x | x in z :: x in [m] + z;
    SteadyPart([m] + z, [m], id, k, held);
    SteadyPart([m] + z, z, id, k, held);
    var after := CellStep(m, id, k, cell);
    var x, y := CellRun(z, id, k, after), CellRun(z, id, k, cell);
    RunStaysIn([m], id, k, cell, held);
    assert CellRun([m], id, k, cell) == after by {
      assert [m][1..] == [];
    }
    RunStaysIn(z, id, k, after, held);
    RunStaysIn(z, id, k, cell, held);
    ReachesOrStays(m, id, k, cell);
    if after == cell {
    } else if IsModify(m) {
      ModifyStepNeedsFilled(m, id, k, cell, x);
      ModifyStepNeedsFilled(m, id, k, cell, y);
      EquallyFilled(z, id, k, after, cell, held);
    } else if HasOutPort(m) {
      FilteredStepEmpties(m, id, k, cell, held);
      if KeyUnmodified([m] + z, id, k) {
        FilledOrEqual(z, id, k, cell);
      }
    } else {
      PlainStepIsConstant(m, id, k, cell, x);
      PlainStepIsConstant(m, id, k, cell, y);
    }
  }

  // ---------------------------------------------------------------------------------------------
  // Schedules: which message of the list is sent at each moment
  // ---------------------------------------------------------------------------------------------

  type Schedule = seq<nat>

  predicate Within(sched: Schedule, n: nat) {
    forall i | i in sched :: i < n
  }

  function Pick(msgs: seq<OfMsg>, sched: Schedule): (r: seq<OfMsg>)
    requires Within(sched, |msgs|)
    ensures |r| == |sched|
  {
    seq(|sched|, i requires 0 <= i < |sched| => assert sched[i] in sched; msgs[sched[i]])
  }

  /** The schedule with all but the last occurrence of every index removed. */
  function KeepLast(sched: Schedule): (r: Schedule) {
    if sched == [] then []
    else if sched[0] in sched[1..] then KeepLast(sched[1..])
    else [sched[0]] + KeepLast(sched[1..])
  }

  function Upward(lo: nat, n: nat): (r: Schedule)
    ensures forall i :: i in r <==> lo <= i < n
    decreases n - lo
  {
    if lo >= n then [] else [lo] + Upward(lo + 1, n)
  }

  lemma KeepLastMembers(sched: Schedule)
    ensures forall i :: i in KeepLast(sched) <==> i in sched
  {
    if sched != [] {
      KeepLastMembers(sched[1..]);
      assert forall i :: i in sched <==> i == sched[0] || i in sched[1..];
    }
  }

  lemma PickMembers(msgs: seq<OfMsg>, sched: Schedule)
    requires Within(sched, |msgs|)
    ensures forall m | m in Pick(msgs, sched) :: m in msgs
  {
    forall m | m in Pick(msgs, sched) ensures m in msgs {
      var i :| 0 <= i < |sched| && Pick(msgs, sched)[i] == m;
      assert sched[i] in sched;
    }
  }

  lemma PickHead(msgs: seq<OfMsg>, sched: Schedule)
    requires Within(sched, |msgs|) && sched != []
    ensures Within(sched[1..], |msgs|) && sched[0] < |msgs|
    ensures Pick(msgs, sched) == [msgs[sched[0]]] + Pick(msgs, sched[1..])
  {
    assert sched[0] in sched;
    assert forall i | i in sched[1..] :: i in sched;
  }

  lemma PickSplit(msgs: seq<OfMsg>, sched: Schedule, j: nat)
    requires Within(sched, |msgs|) && j < |sched|
    ensures Within(sched[..j], |msgs|) && Within(sched[j + 1..], |msgs|) && sched[j] < |msgs|
    ensures Pick(msgs, sched) == Pick(msgs, sched[..j]) + [msgs[sched[j]]] + Pick(msgs, sched[j + 1..])
  {
    assert sched[j] in sched;
    forall i | i in sched[..j] ensures i < |msgs| {
      assert i in sched;
    }
    var tail := sched[j + 1..];
    forall i | i in tail ensures i < |msgs| {
      assert i in sched;
    }
  }

  lemma UpwardShape(lo: nat, n: nat)
    requires lo <= n
    ensures |Upward(lo, n)| == n - lo
    ensures forall i | 0 <= i < n - lo :: Upward(lo, n)[i] == lo + i
    decreases n - lo
  {
  }

  lemma PickUpward(msgs: seq<OfMsg>)
    ensures Pick(msgs, Upward(0, |msgs|)) == msgs
  {
    UpwardShape(0, |msgs|);
  }

  /** Only the last occurrence of each message counts for what a cell ends up holding. */
  lemma {:induction false} OnlyLastCounts(
    msgs: seq<OfMsg>, sched: Schedule, id: TableId, k: Key, cell: Cell, held: iset<seq<Instruction>>)
    requires Within(sched, |msgs|)
    requires Steady(msgs, id, k, held) && CellIn(cell, held)
    ensures Within(KeepLast(sched), |msgs|)
    ensures CellRun(Pick(msgs, sched), id, k, cell) == CellRun(Pick(msgs, KeepLast(sched)), id, k, cell)
    decreases |sched|
  {
    KeepLastMembers(sched);
    if sched != [] {
      PickHead(msgs, sched);
      var m := msgs[sched[0]];
      var rest := sched[1..];
      if sched[0] in rest {
        EarlySendingIsAbsorbed(msgs, sched, id, k, cell, held);
        OnlyLastCounts(msgs, rest, id, k, cell, held);
      } else {
        SteadyPart(msgs, [m], id, k, held);
        assert [m][1..] == [];
        RunStaysIn([m], id, k, cell, held);
        OnlyLastCounts(msgs, rest, id, k, CellStep(m, id, k, cell), held);
        PickHead(msgs, KeepLast(sched));
        assert KeepLast(sched)[1..] == KeepLast(rest);
      }
    }
  }

  /** A message that is sent again later might as well not be sent now. */
  lemma EarlySendingIsAbsorbed(
    msgs: seq<OfMsg>, sched: Schedule, id: TableId, k: Key, cell: Cell, held: iset<seq<Instruction>>)
    requires Within(sched, |msgs|) && sched != [] && sched[0] in sched[1..]
    requires Steady(msgs, id, k, held) && CellIn(cell, held)
    ensures Within(sched[1..], |msgs|)
    ensures CellRun(Pick(msgs, sched), id, k, cell) == CellRun(Pick(msgs, sched[1..]), id, k, cell)
  {
    PickHead(msgs, sched);
    var m, rest := msgs[sched[0]], sched[1..];
    var j :| 0 <= j < |rest| && rest[j] == sched[0];
    PickSplit(msgs, rest, j);
    var z, tail := Pick(msgs, rest[..j]), Pick(msgs, rest[j + 1..]);
    PickMembers(msgs, rest[..j]);
    SteadyPart(msgs, [m] + z, id, k, held);
    Absorbed(m, z, id, k, cell, held);
    var after := CellStep(m, id, k, cell);
    RunToRepeat(m, z, tail, id, k, after);
    RunToRepeat(m, z, tail, id, k, cell);
    assert Pick(msgs, sched)[1..] == Pick(msgs, rest);
  }

  lemma RunToRepeat(m: OfMsg, z: seq<OfMsg>, tail: seq<OfMsg>, id: TableId, k: Key, cell: Cell)
    ensures CellRun(z + [m] + tail, id, k, cell) == CellRun(tail, id, k, CellStep(m, id, k, CellRun(z, id, k, cell)))
  {
    CellRunConcat(z + [m], tail, id, k, cell);
    CellRunConcat(z, [m], id, k, cell);
    assert [m][1..] == [];
  }

  // ---------------------------------------------------------------------------------------------
  // The lagged interleaving
  // ---------------------------------------------------------------------------------------------

  /** Iterations i..n-1: the trailing copy sends message i, then the leading copy message i+lag. */
  function Lagged(n: nat, lag: nat, i: int): (r: Schedule)
    requires 0 <= i + lag
    decreases n - i, 1
  {
    if i >= n then []
    else if 0 <= i then [i] + LeadThenLater(n, lag, i)
    else LeadThenLater(n, lag, i)
  }

  function LeadThenLater(n: nat, lag: nat, i: int): (r: Schedule)
    requires 0 <= i + lag && i < n
    decreases n - i, 0
  {
    if i + lag < n then [i + lag] + Lagged(n, lag, i + 1) else Lagged(n, lag, i + 1)
  }

  function Max(a: int, b: int): (r: int) {
    if a >= b then a else b
  }

  lemma {:induction false} LaggedMembers(n: nat, lag: nat, i: int)
    requires 0 <= i + lag
    ensures forall j :: j in Lagged(n, lag, i) <==> Max(i, 0) <= j < n
    decreases n - i
  {
    if i < n {
      LaggedMembers(n, lag, i + 1);
      var led := LeadThenLater(n, lag, i);
      assert forall j :: j in led <==> (i + lag < n && j == i + lag) || j in Lagged(n, lag, i + 1);
      assert forall j :: j in Lagged(n, lag, i) <==> (0 <= i && j == i) || j in led;
    }
  }

  lemma KeepLastCons(i: nat, sched: Schedule)
    ensures KeepLast([i] + sched) == if i in sched then KeepLast(sched) else [i] + KeepLast(sched)
  {
    assert ([i] + sched)[1..] == sched;
  }

  lemma LeadIsAbsorbed(n: nat, lag: nat, i: int)
    requires lag >= 1 && 0 <= i + lag && i < n
    ensures KeepLast(LeadThenLater(n, lag, i)) == KeepLast(Lagged(n, lag, i + 1))
    ensures forall j | j in LeadThenLater(n, lag, i) :: j >= Max(i + 1, 0)
  {
    var later := Lagged(n, lag, i + 1);
    LaggedMembers(n, lag, i + 1);
    if i + lag < n {
      KeepLastCons(i + lag, later);
    }
  }

  /** The last occurrences in the interleaving are the trailing copy's, in list order. */
  lemma {:induction false} LaggedKeepsListOrder(n: nat, lag: nat, i: int)
    requires lag >= 1 && 0 <= i + lag && i <= n
    ensures KeepLast(Lagged(n, lag, i)) == Upward(Max(i, 0), n)
    decreases n - i
  {
    if i < n {
      LaggedKeepsListOrder(n, lag, i + 1);
      var led := LeadThenLater(n, lag, i);
      LeadIsAbsorbed(n, lag, i);
      if 0 <= i {
        KeepLastCons(i, led);
        assert KeepLast([i] + led) == [i] + Upward(i + 1, n);
      }
    }
  }

  // ---------------------------------------------------------------------------------------------
  // Convergence
  // ---------------------------------------------------------------------------------------------

  lemma {:induction false} RunConcat(s: Switch, a: seq<OfMsg>, b: seq<OfMsg>)
    requires Run(s, a, true).1 == Accepted
    ensures Run(s, a + b, true) == Run(Run(s, a, true).0, b, true)
    decreases |a|
  {
    if a == [] {
      assert a + b == b;
    } else {
      assert (a + b)[1..] == a[1..] + b;
      RunConcat(Step(s, a[0]).0, a[1..], b);
    }
  }

  ghost function Occurring(s: Switch, msgs: seq<OfMsg>): (r: seq<iset<Key>>)
    ensures |r| == |s.tables|
  {
    seq(|s.tables|, id requires 0 <= id < |s.tables| => iset k: Key | Occurs(s, msgs, id, k))
  }

  lemma OccurringFits(s: Switch, msgs: seq<OfMsg>)
    requires NoClash(s, msgs) && TablesExist(msgs, |s.tables|)
    ensures Fits(s, Occurring(s, msgs)) && ClashFree(Occurring(s, msgs))
    ensures forall m | m in msgs :: MsgFits(m, Occurring(s, msgs))
  {
    var allowed := Occurring(s, msgs);
    forall m | m in msgs && m.Flow? && m.mod.command == Add
      ensures forall id | 0 <= id < |allowed| && Targets(m.mod, id) :: KeyOf(MakeEntry(m.mod)) in allowed[id]
    {
      forall id | 0 <= id < |allowed| && Targets(m.mod, id) ensures KeyOf(MakeEntry(m.mod)) in allowed[id] {
        assert AddsKey(m, id, KeyOf(MakeEntry(m.mod)));
      }
    }
  }

  lemma KeepLastAfterCopy(a: Schedule, b: Schedule)
    requires forall i | i in a :: i in b
    ensures KeepLast(a + b) == KeepLast(b)
  {
    if a == [] {
      assert a + b == b;
    } else {
      assert (a + b)[1..] == a[1..] + b;
      assert a[0] in b;
      KeepLastAfterCopy(a[1..], b);
    }
  }

  lemma PickConcat(msgs: seq<OfMsg>, a: Schedule, b: Schedule)
    requires Within(a, |msgs|) && Within(b, |msgs|)
    ensures Within(a + b, |msgs|)
    ensures Pick(msgs, a + b) == Pick(msgs, a) + Pick(msgs, b)
  {
  }

  // ---------------------------------------------------------------------------------------------
  // What a list must not mix
  // ---------------------------------------------------------------------------------------------

  /**
   Key by key, no modify reaches it, or every filtered delete that reaches it treats alike all the
   instruction lists it starts with or may be given.
   */
  ghost predicate FiltersSteady(s: Switch, msgs: seq<OfMsg>) {
    forall id, k | 0 <= id < |s.tables| ::
      KeyUnmodified(msgs, id, k) || FiltersAlike(msgs, id, k, Holdings(CellOf(s.tables[id], k), msgs, id, k))
  }

  lemma HoldingsSteady(s: Switch, msgs: seq<OfMsg>, id: TableId, k: Key)
    requires FiltersSteady(s, msgs) && id < |s.tables|
    ensures
      var cell := CellOf(s.tables[id], k);
      var held := Holdings(cell, msgs, id, k);
      Steady(msgs, id, k, held) && CellIn(cell, held)
  {
  }

  /** Lists without modifies or without out-port filters are steady, whatever the tables hold. */
  lemma UnmixedIsSteady(s: Switch, msgs: seq<OfMsg>)
    requires NoModify(msgs) || NoOutPort(msgs)
    ensures FiltersSteady(s, msgs)
  {
  }

  // ---------------------------------------------------------------------------------------------
  // Schedules and lags
  // ---------------------------------------------------------------------------------------------

  ghost predicate Alike(ts: Tables, us: Tables) {
    |ts| == |us| && forall id | 0 <= id < |ts| :: SameEntries(ts[id], us[id])
  }

  /** The last sending of each message comes in list order. */
  predicate EndsInListOrder(msgs: seq<OfMsg>, sched: Schedule) {
    Within(sched, |msgs|) && KeepLast(sched) == Upward(0, |msgs|)
  }

  /** The repeated messages leave the tables as one application of the list does. */
  ghost predicate ActsAsList(s: Switch, msgs: seq<OfMsg>, sched: Schedule) {
    && Within(sched, |msgs|)
    && var once, sent := Run(s, msgs, true), Run(s, Pick(msgs, sched), true);
       once.1 == sent.1 == Accepted && |once.0.tables| == |s.tables| && Alike(sent.0.tables, once.0.tables)
  }

  /** The list interleaved with itself acts as the list, and sent after the list it changes nothing. */
  ghost predicate Converges(s: Switch, msgs: seq<OfMsg>, lag: nat) {
    && ActsAsList(s, msgs, Lagged(|msgs|, lag, 0 - lag))
    && var once := Run(s, msgs, true).0;
       var replayed := Run(once, Pick(msgs, Lagged(|msgs|, lag, 0 - lag)), true);
       replayed.1 == Accepted && |once.tables| == |s.tables| && Alike(replayed.0.tables, once.tables)
  }

  lemma ListThenSchedule(s: Switch, msgs: seq<OfMsg>, sched: Schedule)
    requires EndsInListOrder(msgs, sched)
    ensures EndsInListOrder(msgs, Upward(0, |msgs|) + sched)
    ensures Run(s, msgs, true).1 == Accepted ==>
              Run(s, Pick(msgs, Upward(0, |msgs|) + sched), true) ==
              Run(Run(s, msgs, true).0, Pick(msgs, sched), true)
  {
    var all := Upward(0, |msgs|);
    PickUpward(msgs);
    PickConcat(msgs, all, sched);
    KeepLastMembers(sched);
    KeepLastAfterCopy(all, sched);
    if Run(s, msgs, true).1 == Accepted {
      RunConcat(s, msgs, Pick(msgs, sched));
    }
  }

  lemma SchedulesGiveLag(s: Switch, msgs: seq<OfMsg>, lag: nat)
    requires lag >= 1 && forall sched | EndsInListOrder(msgs, sched) :: ActsAsList(s, msgs, sched)
    ensures Converges(s, msgs, lag)
  {
    var sched := Lagged(|msgs|, lag, 0 - lag);
    LaggedMembers(|msgs|, lag, 0 - lag);
    LaggedKeepsListOrder(|msgs|, lag, 0 - lag);
    assert EndsInListOrder(msgs, sched);
    ListThenSchedule(s, msgs, sched);
    assert ActsAsList(s, msgs, Upward(0, |msgs|) + sched);
  }

  lemma {:induction false} LagOfLength(n: nat, i: int)
    requires 0 - n <= i <= 0
    ensures Lagged(n, n, i) == Upward(i + n, n) + Upward(0, n)
    decreases 0 - i
  {
    if i == 0 {
      TrailingOnly(n, 0);
    } else {
      LagOfLength(n, i + 1);
      LeadingStep(n, i);
      ConsConcat(i + n, Upward(i + 1 + n, n), Upward(0, n));
    }
  }

  lemma LeadingStep(n: nat, i: int)
    requires 0 - n <= i < 0
    ensures Lagged(n, n, i) == [i + n] + Lagged(n, n, i + 1)
    ensures Upward(i + n, n) == [i + n] + Upward(i + 1 + n, n)
  {
  }

  lemma ConsConcat(x: nat, a: Schedule, b: Schedule)
    ensures [x] + (a + b) == ([x] + a) + b
  {
  }

  lemma {:induction false} TrailingOnly(n: nat, i: nat)
    ensures Lagged(n, n, i) == Upward(i, n)
    decreases n - i
  {
    if i < n {
      TrailingOnly(n, i + 1);
    }
  }

  /** At a lag of its length the list is simply sent twice. */
  lemma RepeatingDiverges(s: Switch, msgs: seq<OfMsg>)
    requires Run(s, msgs, true).1 == Accepted
    requires
      var once := Run(s, msgs, true).0;
      !Alike(Run(once, msgs, true).0.tables, once.tables)
    ensures !Converges(s, msgs, |msgs|)
  {
    LagSendsTwice(msgs);
    RunConcat(s, msgs, msgs);
  }

  lemma LagSendsTwice(msgs: seq<OfMsg>)
    ensures Within(Lagged(|msgs|, |msgs|, 0 - |msgs|), |msgs|)
    ensures Pick(msgs, Lagged(|msgs|, |msgs|, 0 - |msgs|)) == msgs + msgs
  {
    var n := |msgs|;
    LagOfLength(n, 0 - n);
    PickUpward(msgs);
    PickConcat(msgs, Upward(0, n), Upward(0, n));
  }

  /**
   Any schedule of redundant copies in which the last sending of each message comes in list order
   leaves the tables exactly as one application of the list does, provided no two different matches
   clash and filters do not hang on what modifies change.
   */
  lemma ScheduleActsAsList(s: Switch, msgs: seq<OfMsg>, sched: Schedule)
    requires AllGood(s.tables) && NoClash(s, msgs) && TablesExist(msgs, |s.tables|)
    requires FiltersSteady(s, msgs) && EndsInListOrder(msgs, sched)
    ensures ActsAsList(s, msgs, sched)
  {
    var allowed := Occurring(s, msgs);
    OccurringFits(s, msgs);
    RunCells(s, msgs, allowed);
    PickMembers(msgs, sched);
    RunCells(s, Pick(msgs, sched), allowed);
    var once, sent := Run(s, msgs, true).0, Run(s, Pick(msgs, sched), true).0;
    PickUpward(msgs);
    forall id | 0 <= id < |s.tables| ensures SameEntries(sent.tables[id], once.tables[id]) {
      forall k ensures CellOf(sent.tables[id], k) == CellOf(once.tables[id], k) {
        var cell := CellOf(s.tables[id], k);
        HoldingsSteady(s, msgs, id, k);
        OnlyLastCounts(msgs, sched, id, k, cell, Holdings(cell, msgs, id, k));
      }
      CellsDetermineEntries(sent.tables[id], once.tables[id]);
    }
  }

  /** The redundancy check itself: the list interleaved with itself at any lag. */
  lemma LaggedCopyConverges(s: Switch, msgs: seq<OfMsg>, lag: nat)
    requires AllGood(s.tables) && NoClash(s, msgs) && TablesExist(msgs, |s.tables|)
    requires FiltersSteady(s, msgs) && lag >= 1
    ensures Converges(s, msgs, lag)
  {
    forall sched | EndsInListOrder(msgs, sched) ensures ActsAsList(s, msgs, sched) {
      ScheduleActsAsList(s, msgs, sched);
    }
    SchedulesGiveLag(s, msgs, lag);
  }

  /** Adds that cannot clash are never refused, so they keep the order of the tables. */
  lemma {:induction false} FittingRunKeepsOrder(s: Switch, msgs: seq<OfMsg>, allowed: seq<iset<Key>>)
    requires AllGood(s.tables) && AllSorted(s.tables) && Fits(s, allowed) && ClashFree(allowed)
    requires forall m | m in msgs :: MsgFits(m, allowed)
    ensures AlwaysKeepsOrder(s, msgs, true)
    decreases |msgs|
  {
    if msgs != [] {
      StepCells(s, msgs[0], allowed);
      StepSortedIff(s, msgs[0]);
      FittingRunKeepsOrder(Step(s, msgs[0]).0, msgs[1..], allowed);
    }
  }

  /** Converged tables forward alike: every packet finds the same entry in every table. */
  lemma ConvergedTablesLookUpAlike(s: Switch, msgs: seq<OfMsg>, lag: nat, id: TableId, pkt: Packet)
    requires AllGood(s.tables) && AllSorted(s.tables) && NoClash(s, msgs) && TablesExist(msgs, |s.tables|)
    requires FiltersSteady(s, msgs) && lag >= 1 && id < |s.tables|
    requires Unambiguous(Run(s, msgs, true).0.tables[id])
    ensures Within(Lagged(|msgs|, lag, 0 - lag), |msgs|)
    ensures
      var once := Run(s, msgs, true).0;
      var replayed := Run(once, Pick(msgs, Lagged(|msgs|, lag, 0 - lag)), true).0;
      |replayed.tables| == |s.tables| &&
      Lookup(replayed.tables[id], pkt) == Lookup(once.tables[id], pkt)
  {
    LaggedCopyConverges(s, msgs, lag);
    var sent := Pick(msgs, Lagged(|msgs|, lag, 0 - lag));
    PickMembers(msgs, Lagged(|msgs|, lag, 0 - lag));
    var allowed := Occurring(s, msgs);
    OccurringFits(s, msgs);
    RunCells(s, msgs, allowed);
    FittingRunKeepsOrder(s, msgs, allowed);
    RunKeepsSorted(s, msgs, true);
    var once := Run(s, msgs, true).0;
    RunCells(once, sent, allowed);
    FittingRunKeepsOrder(once, sent, allowed);
    RunKeepsSorted(once, sent, true);
    LookupDependsOnEntriesOnly(once.tables[id], Run(once, sent, true).0.tables[id], pkt);
  }

  /** Mixing a filtered delete with a modify is the exception: replaying this list empties the table. */
  lemma MixedRequestsDiverge(a: PortNo, b: PortNo)
    requires a != b
    ensures
      var toA, toB := [ApplyActions([Output(a)])], [ApplyActions([Output(b)])];
      var s := Switch([[Entry(1, map[], toB, None)]], map[]);
      var msgs := [Flow(FlowMod(Delete, One(0), 1, map[], [], Some(a))),
                   Flow(FlowMod(Modify, One(0), 1, map[], toA, None))];
      var once := Run(s, msgs, true).0;
      && AllGood(s.tables) && once.tables == [[Entry(1, map[], toA, None)]]
      && Run(once, msgs, true).0.tables == [[]] && !Converges(s, msgs, 2)
  {
    var toA, toB := [ApplyActions([Output(a)])], [ApplyActions([Output(b)])];
    var s := Switch([[Entry(1, map[], toB, None)]], map[]);
    var del := FlowMod(Delete, One(0), 1, map[], [], Some(a));
    var mod := FlowMod(Modify, One(0), 1, map[], toA, None);
    var ea, eb := Entry(1, map[], toA, None), Entry(1, map[], toB, None);
    assert Masked(map[]) == map[];
    assert OutputsTo(toA, a) by { assert Output(a) in toA[0].actions; }
    assert !OutputsTo(toB, a);
    OneTableStep(eb, del, [eb]);
    OneTableStep(eb, mod, [ea]);
    OneTableStep(ea, del, []);
    assert [eb][1..] == [] && [ea][1..] == [];
    assert Unselected([eb], MakeEntry(del)) == [eb];
    assert Unselected([ea], MakeEntry(del)) == [];
    assert ModifyIn([eb], MakeEntry(mod)) == [ea];
    var empty := Switch([[]], map[]);
    assert Step(empty, Flow(mod)) == (empty, Accepted) by {
      var ts: Tables := [[]];
      assert ModifyIn([], MakeEntry(mod)) == [];
      assert ts[0 := []] == ts;
      assert ApplyRange(ts, 0, 1, Modify, MakeEntry(mod)) == (ts, Accepted);
      assert SortTables(ts) == ts;
    }
    var once := Switch([[ea]], map[]);
    assert [Flow(del), Flow(mod)][1..] == [Flow(mod)] && [Flow(mod)][1..] == [];
    assert Step(s, Flow(del)) == (s, Accepted) && Step(s, Flow(mod)) == (once, Accepted);
    assert Run(s, [Flow(mod)], true) == Run(once, [], true);
    assert Step(once, Flow(del)) == (empty, Accepted);
    assert Run(empty, [Flow(mod)], true) == Run(empty, [], true);
    assert ea in once.tables[0] && ea !in empty.tables[0];
    RepeatingDiverges(s, [Flow(del), Flow(mod)]);
  }

  lemma OneTableStep(e: Entry, fm: FlowMod, r: Table)
    requires fm.target == One(0) && fm.command in {Delete, Modify} && DistinctKinds(fm.instructions) && |r| <= 1
    ensures Apply([e], fm.command, MakeEntry(fm)) == Ok(r) ==>
              Step(Switch([[e]], map[]), Flow(fm)) == (Switch([r], map[]), Accepted)
  {
    if Apply([e], fm.command, MakeEntry(fm)) == Ok(r) {
      var ts: Tables := [[e]];
      var ts' := ts[0 := r];
      assert ts' == [r];
      assert ApplyRange(ts, 0, 1, fm.command, MakeEntry(fm)) == (ts', Accepted);
      if |r| == 1 {
        assert r[1..] == [] && Insert(r[0], []) == r;
      }
      assert Sort(r) == r;
      assert SortTables([r]) == [r];
    }
  }
}
