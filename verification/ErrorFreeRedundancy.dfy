/**
 Redundant controllers once more, without assuming that no two matches ever clash: it is enough that the
 list raises no error when it is applied by itself, as the test harness insists.  A copy's adds may then
 still be refused while it lags, but never the last time they matter.
 */
module ErrorFreeRedundancy {
  import opened Packets
  import opened FlowEntries
  import opened FlowTables
  import opened TableInvariant
  import opened Redundancy

  // ---------------------------------------------------------------------------------------------
  // What a message does to a key of a table
  // ---------------------------------------------------------------------------------------------

  predicate Sets(m: OfMsg, id: TableId, k: Key) {
    Reaches(m, id, k) && m.mod.command == Add
  }

  function At(s: Switch, id: TableId, k: Key): (r: Cell) {
    if id < |s.tables| then CellOf(s.tables[id], k) else None
  }

  /** A different match that overlaps k is present. */
  ghost predicate Blocked(s: Switch, id: TableId, k: Key) {
    exists k2 :: k2 != k && KeysOverlap(k, k2) && At(s, id, k2).Some?
  }

  /** An add is refused exactly when it is blocked; everything else acts on the key alone. */
  ghost predicate Effect(s: Switch, m: OfMsg, id: TableId, k: Key) {
    var (s', status) := Step(s, m);
    if Sets(m, id, k) && status != Accepted then Blocked(s, id, k) && At(s', id, k) == At(s, id, k)
    else At(s', id, k) == CellStep(m, id, k, At(s, id, k)) && (Sets(m, id, k) ==> !Blocked(s, id, k))
  }

  lemma BlockedMeansRefused(s: Switch, id: TableId, e: Entry)
    requires AllGood(s.tables) && id < |s.tables| && WellFormed(e)
    ensures Blocked(s, id, KeyOf(e)) <==> AddTo(s.tables[id], e).Raised?
  {
    var t, k := s.tables[id], KeyOf(e);
    AddMeaning(t, e);
    if Blocked(s, id, k) {
      var k2 :| k2 != k && KeysOverlap(k, k2) && CellOf(t, k2).Some?;
      var x := Entry(k2.priority, k2.match_, CellOf(t, k2).value, None);
      CellMembership(t, k2, CellOf(t, k2).value);
      assert x in t && Overlaps(e, x) && !SameMatch(e, x);
    }
    if x :| x in t && Overlaps(e, x) && !SameMatch(e, x) {
      CellMembership(t, KeyOf(x), x.instructions);
      assert x == Entry(x.priority, x.match_, x.instructions, None);
      assert KeysOverlap(k, KeyOf(x)) && At(s, id, KeyOf(x)).Some?;
    }
  }

  /** What an accepted or refused flow mod leaves in each table of the switch. */
  lemma FlowStepTables(s: Switch, fm: FlowMod)
    requires AllGood(s.tables) && DistinctKinds(fm.instructions) && (fm.command == Add ==> fm.target.One?)
    requires fm.target.One? ==> fm.target.id < |s.tables|
    ensures
      var (s', status) := Step(s, Flow(fm));
      var e := MakeEntry(fm);
      && |s'.tables| == |s.tables|
      && (status == Accepted <==> fm.command != Add || AddTo(s.tables[fm.target.id], e).Ok?)
      && (status != Accepted ==> s' == s)
      && (status == Accepted ==>
            forall id | 0 <= id < |s.tables| ::
              (Targets(fm, id) ==> Apply(s.tables[id], fm.command, e).Ok?) &&
              s'.tables[id] == Sort(if Targets(fm, id) then Apply(s.tables[id], fm.command, e).value else s.tables[id]))
  {
    var e := MakeEntry(fm);
    var from := if fm.target.One? then fm.target.id else 0;
    var upto := if fm.target.One? then fm.target.id + 1 else |s.tables|;
    if fm.command == Add && AddTo(s.tables[fm.target.id], e).Raised? {
      assert ApplyRange(s.tables, from, upto, Add, e) == (s.tables, Refused);
      assert s.(tables := s.tables) == s;
    } else {
      RangeIsTablewise(s.tables, from, upto, fm.command, e);
    }
  }

  lemma StepEffect(s: Switch, m: OfMsg, id: TableId, k: Key)
    requires AllGood(s.tables) && id < |s.tables| && !AddToEveryTable(m)
    ensures |Step(s, m).0.tables| == |s.tables| && Effect(s, m, id, k)
  {
    if m.Flow? && DistinctKinds(m.mod.instructions) && (m.mod.target.One? ==> m.mod.target.id < |s.tables|) {
      var fm := m.mod;
      var e := MakeEntry(fm);
      FlowStepTables(s, fm);
      if Targets(fm, id) {
        if fm.command == Add && KeyOf(e) == k {
          BlockedMeansRefused(s, id, e);
        }
        if Step(s, m).1 == Accepted {
          ApplyKeepsGood(s.tables[id], fm.command, e);
          CellOfApply(s.tables[id], fm.command, e, k);
          CellOfSort(Apply(s.tables[id], fm.command, e).value, k);
        }
      } else {
        CellOfSort(s.tables[id], k);
      }
    }
  }

  /** A refused add to every table takes effect in the tables before the first that is blocked, and in no other. */
  lemma RefusedAddToAllEffect(s: Switch, m: OfMsg, id: TableId, k: Key, r: nat)
    requires AllGood(s.tables) && id < |s.tables| && AddToEveryTable(m) && DistinctKinds(m.mod.instructions)
    requires FirstRefusal(s.tables, MakeEntry(m.mod), r)
    ensures Step(s, m).1 == Refused && Blocked(s, r, KeyOf(MakeEntry(m.mod)))
    ensures At(Step(s, m).0, id, k) == if id < r then CellStep(m, id, k, At(s, id, k)) else At(s, id, k)
  {
    var ts, e := s.tables, MakeEntry(m.mod);
    RefusedRange(ts, 0, e, r);
    BlockedMeansRefused(s, r, e);
    if id < r {
      CellOfApply(ts[id], Add, e, k);
    }
  }

  lemma AcceptedAddToAllEffect(s: Switch, m: OfMsg, id: TableId, k: Key)
    requires AllGood(s.tables) && id < |s.tables| && AddToEveryTable(m) && DistinctKinds(m.mod.instructions)
    requires forall i | 0 <= i < |s.tables| :: AddTo(s.tables[i], MakeEntry(m.mod)).Ok?
    ensures Step(s, m).1 == Accepted && At(Step(s, m).0, id, k) == CellStep(m, id, k, At(s, id, k))
  {
    var ts, e := s.tables, MakeEntry(m.mod);
    RangeIsTablewise(ts, 0, |ts|, Add, e);
    AddKeepsGood(ts[id], e);
    CellOfApply(ts[id], Add, e, k);
    CellOfSort(AddTo(ts[id], e).value, k);
  }

  /** A good table never holds a key beside another that blocks it. */
  lemma BlockedIsAbsent(s: Switch, id: TableId, k: Key)
    requires AllGood(s.tables) && id < |s.tables| && Blocked(s, id, k)
    ensures At(s, id, k).None?
  {
    var t := s.tables[id];
    var k2 :| k2 != k && KeysOverlap(k, k2) && At(s, id, k2).Some?;
    if At(s, id, k).Some? {
      CellMembership(t, k, CellOf(t, k).value);
      CellMembership(t, k2, CellOf(t, k2).value);
      var x := Entry(k.priority, k.match_, CellOf(t, k).value, None);
      var y := Entry(k2.priority, k2.match_, CellOf(t, k2).value, None);
      OthersDoNotOverlap(t, x, y);
    }
  }

  // ---------------------------------------------------------------------------------------------
  // The list by itself
  // ---------------------------------------------------------------------------------------------

  /** The states an error-free application passes through. */
  ghost predicate Trace(msgs: seq<OfMsg>, r: seq<Switch>, numTables: nat) {
    && |r| == |msgs| + 1
    && (forall d | 0 <= d <= |msgs| :: AllGood(r[d].tables) && |r[d].tables| == numTables)
    && (forall d | 0 <= d < |msgs| :: Step(r[d], msgs[d]) == (r[d + 1], Accepted))
    && (forall m | m in msgs :: !AddToEveryTable(m))
  }

  lemma {:induction false} TraceOf(s: Switch, msgs: seq<OfMsg>) returns (r: seq<Switch>)
    requires AllGood(s.tables) && Run(s, msgs, false).1 == Accepted && forall m | m in msgs :: !AddToEveryTable(m)
    ensures Trace(msgs, r, |s.tables|) && r[0] == s && r[|msgs|] == Run(s, msgs, false).0
    decreases |msgs|
  {
    if msgs == [] {
      r := [s];
    } else {
      StepKeepsGood(s, msgs[0]);
      var s1 := Step(s, msgs[0]).0;
      assert forall m | m in msgs[1..] :: m in msgs;
      var rest := TraceOf(s1, msgs[1..]);
      r := [s] + rest;
      forall d | 0 <= d < |msgs| ensures Step(r[d], msgs[d]) == (r[d + 1], Accepted) {
        if d > 0 {
          assert r[d] == rest[d - 1] && msgs[d] == msgs[1..][d - 1] && r[d + 1] == rest[d];
        }
      }
    }
  }

  lemma TraceStep(msgs: seq<OfMsg>, r: seq<Switch>, n: nat, d: nat, id: TableId, k: Key)
    requires Trace(msgs, r, n) && d < |msgs| && id < n
    ensures At(r[d + 1], id, k) == CellStep(msgs[d], id, k, At(r[d], id, k))
    ensures Sets(msgs[d], id, k) ==> !Blocked(r[d], id, k)
  {
    assert msgs[d] in msgs;
    StepEffect(r[d], msgs[d], id, k);
    assert Step(r[d], msgs[d]) == (r[d + 1], Accepted);
  }

  predicate NoSets(msgs: seq<OfMsg>, d: nat, id: TableId, k: Key) {
    forall m | d <= m < |msgs| :: !Sets(msgs[m], id, k)
  }

  /** From each state of the list's own run the rest of the list leads to its final state. */
  lemma {:induction false} TraceFate(msgs: seq<OfMsg>, r: seq<Switch>, n: nat, d: nat, id: TableId, k: Key)
    requires Trace(msgs, r, n) && d <= |msgs| && id < n
    ensures CellRun(msgs[d..], id, k, At(r[d], id, k)) == At(r[|msgs|], id, k)
    decreases |msgs| - d
  {
    if d < |msgs| {
      TraceStep(msgs, r, n, d, id, k);
      TraceFate(msgs, r, n, d + 1, id, k);
      assert msgs[d..][1..] == msgs[d + 1..];
    }
  }

  lemma {:induction false} TraceHeld(
    msgs: seq<OfMsg>, r: seq<Switch>, n: nat, d: nat, id: TableId, k: Key, held: iset<seq<Instruction>>)
    requires Trace(msgs, r, n) && d <= |msgs| && id < n
    requires Gives(msgs, id, k, held) && CellIn(At(r[0], id, k), held)
    ensures CellIn(At(r[d], id, k), held)
    decreases d
  {
    if d > 0 {
      TraceHeld(msgs, r, n, d - 1, id, k, held);
      TraceStep(msgs, r, n, d - 1, id, k);
      assert msgs[d - 1] in msgs;
    }
  }

  lemma {:induction false} EmptyStaysEmpty(msgs: seq<OfMsg>, d: nat, id: TableId, k: Key)
    requires d <= |msgs| && NoSets(msgs, d, id, k)
    ensures CellRun(msgs[d..], id, k, None) == None
    decreases |msgs| - d
  {
    if d < |msgs| {
      EmptyStaysEmpty(msgs, d + 1, id, k);
      assert msgs[d..][1..] == msgs[d + 1..];
      assert !Sets(msgs[d], id, k);
    }
  }

  /** While a key stays, no message can add a match that overlaps it: that would have been an error. */
  lemma {:induction false} NothingBlocksLater(
      msgs: seq<OfMsg>, r: seq<Switch>, n: nat, d: nat, id: TableId, k: Key, k2: Key)
    requires Trace(msgs, r, n) && d <= |msgs| && id < n
    requires NoSets(msgs, d, id, k) && At(r[|msgs|], id, k).Some? && k2 != k && KeysOverlap(k2, k)
    ensures NoSets(msgs, d, id, k2)
    decreases |msgs| - d
  {
    if d < |msgs| {
      TraceFate(msgs, r, n, d, id, k);
      EmptyStaysEmpty(msgs, d, id, k);
      assert At(r[d], id, k).Some?;
      TraceStep(msgs, r, n, d, id, k2);
      NothingBlocksLater(msgs, r, n, d + 1, id, k, k2);
    }
  }

  lemma KeysOverlapSymmetric(t: Table, k: Key, k2: Key)
    requires Good(t) && CellOf(t, k2).Some? && WellMasked(k.match_) && KeysOverlap(k, k2)
    ensures KeysOverlap(k2, k)
  {
    CellMembership(t, k2, CellOf(t, k2).value);
    OverlapsIffEqualSharedValues(Entry(k.priority, k.match_, [], None), Entry(k2.priority, k2.match_, [], None));
  }

  // ---------------------------------------------------------------------------------------------
  // A schedule
  // ---------------------------------------------------------------------------------------------

  /**
   With every message before d sent for the last time: a key that no later message adds comes, by what
   is left of the list, to what it finally was; and if it is present, it was present at this point of
   the list's own run, with the same instructions unless something modifies it.
   */
  ghost predicate Settled(
    msgs: seq<OfMsg>, r: seq<Switch>, d: nat, cell: Cell, id: TableId, k: Key, held: iset<seq<Instruction>>)
    requires |r| == |msgs| + 1 && d <= |msgs|
  {
    CellIn(cell, held) &&
    (NoSets(msgs, d, id, k) ==>
      && CellRun(msgs[d..], id, k, cell) == At(r[|msgs|], id, k)
      && (cell.Some? ==>
            At(r[d], id, k).Some? && (KeyUnmodified(msgs, id, k) ==> cell == At(r[d], id, k))))
  }

  /** The key is settled as far as what the tables held before the list and the list's own gifts go. */
  ghost predicate SettledAt(msgs: seq<OfMsg>, r: seq<Switch>, d: nat, s: Switch, id: TableId, k: Key)
    requires |r| == |msgs| + 1 && d <= |msgs|
  {
    Settled(msgs, r, d, At(s, id, k), id, k, Holdings(At(r[0], id, k), msgs, id, k))
  }

  ghost predicate KeySteady(msgs: seq<OfMsg>, r: seq<Switch>, id: TableId, k: Key)
    requires |r| == |msgs| + 1
  {
    Steady(msgs, id, k, Holdings(At(r[0], id, k), msgs, id, k))
  }

  lemma StartIsSettled(msgs: seq<OfMsg>, r: seq<Switch>, n: nat, id: TableId, k: Key)
    requires Trace(msgs, r, n) && id < n
    ensures SettledAt(msgs, r, 0, r[0], id, k)
  {
    TraceFate(msgs, r, n, 0, id, k);
  }

  /** On a key it does not add, a message that is sent again later disturbs nothing settled. */
  lemma EarlyStepKeepsSettled(
    msgs: seq<OfMsg>, r: seq<Switch>, n: nat, d: nat, cell: Cell, j: nat, id: TableId, k: Key,
    held: iset<seq<Instruction>>)
    requires Trace(msgs, r, n) && d <= j < |msgs| && id < n
    requires Steady(msgs, id, k, held) && Settled(msgs, r, d, cell, id, k, held)
    ensures Settled(msgs, r, d, CellStep(msgs[j], id, k, cell), id, k, held)
  {
    var m := msgs[j];
    assert m in msgs;
    var after := CellStep(m, id, k, cell);
    ReachesOrStays(m, id, k, cell);
    if NoSets(msgs, d, id, k) {
      EarlyStepKeepsFate(msgs, d, cell, j, id, k, held);
      assert !Sets(m, id, k);
    }
  }

  lemma EarlyStepKeepsFate(
    msgs: seq<OfMsg>, d: nat, cell: Cell, j: nat, id: TableId, k: Key, held: iset<seq<Instruction>>)
    requires d <= j < |msgs| && Steady(msgs, id, k, held) && CellIn(cell, held)
    ensures CellRun(msgs[d..], id, k, CellStep(msgs[j], id, k, cell)) == CellRun(msgs[d..], id, k, cell)
  {
    var m, z, tail := msgs[j], msgs[d..j], msgs[j + 1..];
    assert msgs[d..] == z + [m] + tail;
    SteadyPart(msgs, [m] + z, id, k, held);
    Absorbed(m, z, id, k, cell, held);
    RunToRepeat(m, z, tail, id, k, CellStep(m, id, k, cell));
    RunToRepeat(m, z, tail, id, k, cell);
  }

  lemma EarlySendingKeepsSettled(
      msgs: seq<OfMsg>, r: seq<Switch>, n: nat, d: nat, s: Switch, j: nat, id: TableId, k: Key)
    requires Trace(msgs, r, n) && d <= j < |msgs| && AllGood(s.tables) && |s.tables| == n && id < n
    requires KeySteady(msgs, r, id, k) && SettledAt(msgs, r, d, s, id, k)
    ensures SettledAt(msgs, r, d, Step(s, msgs[j]).0, id, k)
  {
    assert msgs[j] in msgs;
    StepEffect(s, msgs[j], id, k);
    EarlyStepKeepsSettled(msgs, r, n, d, At(s, id, k), j, id, k, Holdings(At(r[0], id, k), msgs, id, k));
  }

  /** On a key it does not add, the last sending of message d settles the key for what comes after. */
  lemma LastStepSettles(
    msgs: seq<OfMsg>, r: seq<Switch>, n: nat, d: nat, cell: Cell, id: TableId, k: Key, held: iset<seq<Instruction>>)
    requires Trace(msgs, r, n) && d < |msgs| && id < n && !Sets(msgs[d], id, k)
    requires Steady(msgs, id, k, held) && Settled(msgs, r, d, cell, id, k, held) && CellIn(At(r[d], id, k), held)
    ensures Settled(msgs, r, d + 1, CellStep(msgs[d], id, k, cell), id, k, held)
  {
    StepStaysIn(msgs, d, cell, id, k, held);
    if NoSets(msgs, d + 1, id, k) {
      assert NoSets(msgs, d, id, k);
      LastStepFate(msgs, d, cell, id, k);
      if CellStep(msgs[d], id, k, cell).Some? {
        LastStepPresence(msgs, r, n, d, cell, id, k, held);
      }
    }
  }

  lemma StepStaysIn(msgs: seq<OfMsg>, d: nat, cell: Cell, id: TableId, k: Key, held: iset<seq<Instruction>>)
    requires d < |msgs| && Gives(msgs, id, k, held) && CellIn(cell, held)
    ensures CellIn(CellStep(msgs[d], id, k, cell), held)
  {
    assert msgs[d] in msgs;
    ReachesOrStays(msgs[d], id, k, cell);
  }

  lemma LastStepFate(msgs: seq<OfMsg>, d: nat, cell: Cell, id: TableId, k: Key)
    requires d < |msgs|
    ensures CellRun(msgs[d..], id, k, cell) == CellRun(msgs[d + 1..], id, k, CellStep(msgs[d], id, k, cell))
  {
    assert msgs[d..][1..] == msgs[d + 1..];
  }

  lemma LastStepPresence(
    msgs: seq<OfMsg>, r: seq<Switch>, n: nat, d: nat, cell: Cell, id: TableId, k: Key, held: iset<seq<Instruction>>)
    requires Trace(msgs, r, n) && d < |msgs| && id < n && !Sets(msgs[d], id, k)
    requires Steady(msgs, id, k, held) && CellIn(cell, held) && CellIn(At(r[d], id, k), held)
    requires cell.Some? ==> At(r[d], id, k).Some? && (KeyUnmodified(msgs, id, k) ==> cell == At(r[d], id, k))
    requires CellStep(msgs[d], id, k, cell).Some?
    ensures
      var after := CellStep(msgs[d], id, k, cell);
      At(r[d + 1], id, k).Some? && (KeyUnmodified(msgs, id, k) ==> after == At(r[d + 1], id, k))
  {
    var m := msgs[d];
    SteadyPart(msgs, [m], id, k, held);
    var fixed := KeyUnmodified(msgs, id, k);
    assert if fixed then KeyUnmodified([m], id, k) else FiltersAlike([m], id, k, held) by {
      assert forall x | x in [m] :: x in msgs;
    }
    StepPresence(m, id, k, cell, At(r[d], id, k), held, fixed);
    TraceStep(msgs, r, n, d, id, k);
  }

  /** A message that does not add keeps what is present in one run present in the other. */
  lemma StepPresence(
    m: OfMsg, id: TableId, k: Key, cell: Cell, was: Cell, held: iset<seq<Instruction>>, fixed: bool)
    requires !Sets(m, id, k) && Gives([m], id, k, held) && CellIn(cell, held) && CellIn(was, held)
    requires if fixed then KeyUnmodified([m], id, k) else FiltersAlike([m], id, k, held)
    requires cell.Some? ==> was.Some? && (fixed ==> cell == was)
    ensures
      var after, then_ := CellStep(m, id, k, cell), CellStep(m, id, k, was);
      after.Some? ==> then_.Some? && (fixed ==> after == then_)
  {
    assert m in [m];
    if cell.Some? && !fixed {
      StepEquallyFilled(m, id, k, cell, was, held);
    }
  }

  /** What an accepted add leaves is what the list's own run had then. */
  lemma AcceptedAddSettles(
    msgs: seq<OfMsg>, r: seq<Switch>, n: nat, d: nat, cell: Cell, id: TableId, k: Key, held: iset<seq<Instruction>>)
    requires Trace(msgs, r, n) && d < |msgs| && id < n && Sets(msgs[d], id, k) && Gives(msgs, id, k, held)
    ensures Settled(msgs, r, d + 1, CellStep(msgs[d], id, k, cell), id, k, held)
  {
    assert msgs[d] in msgs;
    TraceStep(msgs, r, n, d, id, k);
    TraceFate(msgs, r, n, d + 1, id, k);
  }

  /** The last sending of an add whose key finally stays cannot be refused. */
  lemma LastAddIsAccepted(msgs: seq<OfMsg>, r: seq<Switch>, n: nat, d: nat, s: Switch, id: TableId, k: Key)
    requires Trace(msgs, r, n) && d < |msgs| && AllGood(s.tables) && |s.tables| == n && id < n
    requires forall k2 :: SettledAt(msgs, r, d, s, id, k2)
    requires Sets(msgs[d], id, k) && NoSets(msgs, d + 1, id, k) && At(r[|msgs|], id, k).Some?
    ensures !Blocked(s, id, k)
  {
    forall k2 | k2 != k && KeysOverlap(k, k2) ensures At(s, id, k2).None? {
      assert SettledAt(msgs, r, d, s, id, k2);
      NoRivalRemains(msgs, r, n, d, s, id, k, k2);
    }
  }

  lemma NoRivalRemains(msgs: seq<OfMsg>, r: seq<Switch>, n: nat, d: nat, s: Switch, id: TableId, k: Key, k2: Key)
    requires Trace(msgs, r, n) && d < |msgs| && AllGood(s.tables) && |s.tables| == n && id < n
    requires SettledAt(msgs, r, d, s, id, k2)
    requires Sets(msgs[d], id, k) && NoSets(msgs, d + 1, id, k) && At(r[|msgs|], id, k).Some?
    requires k2 != k && KeysOverlap(k, k2)
    ensures At(s, id, k2).None?
  {
    if At(s, id, k2).Some? {
      KeysOverlapSymmetric(s.tables[id], k, k2);
      TraceStep(msgs, r, n, d, id, k);
      NothingBlocksLater(msgs, r, n, d + 1, id, k, k2);
      assert NoSets(msgs, d, id, k2) by {
        assert !Sets(msgs[d], id, k2);
      }
      assert false;
    }
  }

  lemma LastSendingSettles(msgs: seq<OfMsg>, r: seq<Switch>, n: nat, d: nat, s: Switch, id: TableId, k: Key)
    requires Trace(msgs, r, n) && d < |msgs| && AllGood(s.tables) && |s.tables| == n && id < n
    requires KeySteady(msgs, r, id, k) && forall k2 :: SettledAt(msgs, r, d, s, id, k2)
    ensures SettledAt(msgs, r, d + 1, Step(s, msgs[d]).0, id, k)
  {
    assert msgs[d] in msgs;
    var held := Holdings(At(r[0], id, k), msgs, id, k);
    assert SettledAt(msgs, r, d, s, id, k);
    StepEffect(s, msgs[d], id, k);
    if !Sets(msgs[d], id, k) {
      TraceHeld(msgs, r, n, d, id, k, held);
      LastStepSettles(msgs, r, n, d, At(s, id, k), id, k, held);
    } else if Step(s, msgs[d]).1 == Accepted {
      AcceptedAddSettles(msgs, r, n, d, At(s, id, k), id, k, held);
    } else {
      RefusedAddSettles(msgs, r, n, d, s, id, k);
    }
  }

  /** A refused last sending of an add leaves its key absent, as it finally is. */
  lemma RefusedAddSettles(msgs: seq<OfMsg>, r: seq<Switch>, n: nat, d: nat, s: Switch, id: TableId, k: Key)
    requires Trace(msgs, r, n) && d < |msgs| && AllGood(s.tables) && |s.tables| == n && id < n
    requires forall k2 :: SettledAt(msgs, r, d, s, id, k2)
    requires Sets(msgs[d], id, k) && Blocked(s, id, k)
    ensures Settled(msgs, r, d + 1, At(s, id, k), id, k, Holdings(At(r[0], id, k), msgs, id, k))
  {
    BlockedIsAbsent(s, id, k);
    if NoSets(msgs, d + 1, id, k) {
      EmptyStaysEmpty(msgs, d + 1, id, k);
      if At(r[|msgs|], id, k).Some? {
        LastAddIsAccepted(msgs, r, n, d, s, id, k);
      }
    }
  }

  lemma KeepLastHead(j: nat, rest: Schedule, d: nat, n: nat)
    requires KeepLast([j] + rest) == Upward(d, n) && d <= n
    ensures j >= d && j < n
    ensures j in rest ==> KeepLast(rest) == Upward(d, n)
    ensures j !in rest ==> j == d && KeepLast(rest) == Upward(d + 1, n)
  {
    KeepLastCons(j, rest);
    KeepLastMembers([j] + rest);
    assert j in [j] + rest;
    if j !in rest {
      UpwardShape(d, n);
      assert Upward(d, n)[0] == j;
      assert Upward(d, n) == [d] + Upward(d + 1, n);
      assert ([j] + KeepLast(rest))[1..] == KeepLast(rest);
    }
  }

  /** The list's own run reached every message, so every table it names exists. */
  lemma NeverCrashes(msgs: seq<OfMsg>, r: seq<Switch>, n: nat, s: Switch, j: nat)
    requires Trace(msgs, r, n) && j < |msgs| && |s.tables| == n
    ensures Step(s, msgs[j]).1 != Crashed
  {
    assert Step(r[j], msgs[j]) == (r[j + 1], Accepted);
    assert |r[j].tables| == n;
  }

  ghost predicate AllSettled(msgs: seq<OfMsg>, r: seq<Switch>, n: nat, d: nat, s: Switch)
    requires |r| == |msgs| + 1 && d <= |msgs|
  {
    AllGood(s.tables) && |s.tables| == n && forall id, k | 0 <= id < n :: SettledAt(msgs, r, d, s, id, k)
  }

  /** Sending message j keeps everything settled, and settles one message more if it was the last time. */
  lemma SendingSettles(msgs: seq<OfMsg>, r: seq<Switch>, n: nat, d: nat, s: Switch, j: nat, again: bool)
    requires Trace(msgs, r, n) && forall id, k | 0 <= id < n :: KeySteady(msgs, r, id, k)
    requires d <= j < |msgs| && (!again ==> j == d) && AllSettled(msgs, r, n, d, s)
    ensures AllSettled(msgs, r, n, if again then d else d + 1, Step(s, msgs[j]).0)
  {
    StepKeepsGood(s, msgs[j]);
    var s1, d1 := Step(s, msgs[j]).0, if again then d else d + 1;
    forall id, k | 0 <= id < n ensures SettledAt(msgs, r, d1, s1, id, k) {
      assert KeySteady(msgs, r, id, k);
      if again {
        EarlySendingKeepsSettled(msgs, r, n, d, s, j, id, k);
      } else {
        LastSendingSettles(msgs, r, n, d, s, id, k);
      }
    }
  }

  lemma {:induction false} ScheduleSettles(
    msgs: seq<OfMsg>, r: seq<Switch>, n: nat, d: nat, s: Switch, sched: Schedule)
    requires Trace(msgs, r, n) && forall id, k | 0 <= id < n :: KeySteady(msgs, r, id, k)
    requires d <= |msgs| && AllSettled(msgs, r, n, d, s)
    requires Within(sched, |msgs|) && KeepLast(sched) == Upward(d, |msgs|)
    ensures
      var t := Run(s, Pick(msgs, sched), true);
      t.1 == Accepted && AllGood(t.0.tables) && |t.0.tables| == n &&
      forall id, k | 0 <= id < n :: At(t.0, id, k) == At(r[|msgs|], id, k)
    decreases |sched|
  {
    if sched == [] {
      UpwardShape(d, |msgs|);
      assert d == |msgs| && Pick(msgs, sched) == [];
      forall id, k | 0 <= id < n ensures At(s, id, k) == At(r[|msgs|], id, k) {
        assert SettledAt(msgs, r, d, s, id, k);
        assert NoSets(msgs, d, id, k) && msgs[d..] == [];
      }
    } else {
      var j, rest := sched[0], sched[1..];
      assert sched == [j] + rest;
      KeepLastHead(j, rest, d, |msgs|);
      PickHead(msgs, sched);
      assert Pick(msgs, sched)[1..] == Pick(msgs, rest);
      NeverCrashes(msgs, r, n, s, j);
      SendingSettles(msgs, r, n, d, s, j, j in rest);
      ScheduleSettles(msgs, r, n, if j in rest then d else d + 1, Step(s, msgs[j]).0, rest);
    }
  }

  // ---------------------------------------------------------------------------------------------
  // Convergence
  // ---------------------------------------------------------------------------------------------

  /** An application that raises nothing does not depend on whether errors are ignored. */
  lemma {:induction false} ErrorFreeRunsAlike(s: Switch, msgs: seq<OfMsg>)
    requires Run(s, msgs, false).1 == Accepted
    ensures Run(s, msgs, true) == Run(s, msgs, false)
    decreases |msgs|
  {
    if msgs != [] {
      ErrorFreeRunsAlike(Step(s, msgs[0]).0, msgs[1..]);
    }
  }

  /** The list raises no error by itself, and has no add that could be refused half way when repeated. */
  predicate ErrorFree(s: Switch, msgs: seq<OfMsg>) {
    Run(s, msgs, false).1 == Accepted && forall m | m in msgs :: !AddToEveryTable(m)
  }

  lemma ErrorFreeScheduleActsAsList(s: Switch, msgs: seq<OfMsg>, sched: Schedule)
    requires AllGood(s.tables) && ErrorFree(s, msgs) && FiltersSteady(s, msgs) && EndsInListOrder(msgs, sched)
    ensures ActsAsList(s, msgs, sched)
  {
    var r := TraceOf(s, msgs);
    var n, once := |s.tables|, Run(s, msgs, false).0;
    ErrorFreeRunsAlike(s, msgs);
    forall id, k | 0 <= id < n ensures KeySteady(msgs, r, id, k) && SettledAt(msgs, r, 0, s, id, k) {
      HoldingsSteady(s, msgs, id, k);
      StartIsSettled(msgs, r, n, id, k);
    }
    ScheduleSettles(msgs, r, n, 0, s, sched);
    var sent := Run(s, Pick(msgs, sched), true).0;
    forall id | 0 <= id < n ensures SameEntries(sent.tables[id], once.tables[id]) {
      forall k ensures CellOf(sent.tables[id], k) == CellOf(once.tables[id], k) {
        assert At(sent, id, k) == At(once, id, k);
      }
      CellsDetermineEntries(sent.tables[id], once.tables[id]);
    }
  }

  /**
   A list without adds aimed at every table that raises no error by itself is redundant: interleaved
   with itself at any lag, errors ignored, it does what it does alone, whichever matches clash on the way.
   */
  lemma ErrorFreeListConverges(s: Switch, msgs: seq<OfMsg>, lag: nat)
    requires AllGood(s.tables) && ErrorFree(s, msgs) && FiltersSteady(s, msgs) && lag >= 1
    ensures Converges(s, msgs, lag)
  {
    forall sched | EndsInListOrder(msgs, sched) ensures ActsAsList(s, msgs, sched) {
      ErrorFreeScheduleActsAsList(s, msgs, sched);
    }
    SchedulesGiveLag(s, msgs, lag);
  }

  /** The two reasons for which a list may be sent twice. */
  ghost predicate SafelyRedundant(s: Switch, msgs: seq<OfMsg>) {
    FiltersSteady(s, msgs) && ((NoClash(s, msgs) && TablesExist(msgs, |s.tables|)) || ErrorFree(s, msgs))
  }

  lemma SafelyRedundantConverges(s: Switch, msgs: seq<OfMsg>, lag: nat)
    requires AllGood(s.tables) && SafelyRedundant(s, msgs) && lag >= 1
    ensures Converges(s, msgs, lag)
  {
    if ErrorFree(s, msgs) {
      ErrorFreeListConverges(s, msgs, lag);
    } else {
      LaggedCopyConverges(s, msgs, lag);
    }
  }
}
