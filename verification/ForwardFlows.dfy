/** Flows that respect a renumbered pipeline never go back in it. */
module ForwardFlows {
  import opened Packets
  import opened FlowEntries
  import opened FlowTables
  import opened TableLookup
  import opened Pipeline
  import R = Renumbering
  import opened Evaluators

  /** The IDs a table's flows may go to: those of its next tables and of its miss target. */
  predicate Allowed(tables: R.Tables, n: R.TableName, id: TableId)
    requires n in tables
  {
    exists m | m in tables :: (m in tables[n].nextTables || tables[n].missGoto == Some(m)) && tables[m].tableId == id
  }

  /** Gotos stay within the table's targets; any other instruction or action is free. */
  predicate Respects(tables: R.Tables, n: R.TableName, ins: seq<Instruction>)
    requires n in tables
  {
    forall i | i in ins && i.GotoTable? :: Allowed(tables, n, i.tableId)
  }

  /** Every table is some configured one, and every flow in it respects that. */
  ghost predicate FlowsRespect(tables: R.Tables, ts: Tables) {
    && (forall n | n in tables :: tables[n].tableId < |ts|)
    && forall id, e | 0 <= id < |ts| && e in ts[id] ::
         exists n | n in tables :: tables[n].tableId == id && Respects(tables, n, e.instructions)
  }

  // ---------------------------------------------------------------------------------------------
  // The pipeline without its goto check
  // ---------------------------------------------------------------------------------------------

  function FreeExecute(groups: Groups, id: TableId, st: TableState, instruction: Instruction): (r: Result<TableState>) {
    match instruction
    case GotoTable(to_) => Ok(st.(next := Some(to_)))
    case _ => Execute(groups, id, st, instruction)
  }

  function FreeExecuteAll(groups: Groups, id: TableId, st: TableState, instructions: seq<Instruction>)
    : (r: Result<TableState>)
    decreases |instructions|
  {
    if instructions == [] then Ok(st)
    else match FreeExecute(groups, id, st, instructions[0])
      case Ok(st') => FreeExecuteAll(groups, id, st', instructions[1..])
      case Raised => Raised
  }

  function FreeOutputOfTable(tables: Tables, groups: Groups, pkt: Packet, id: TableId): (r: Result<TableOutput>)
    ensures r.Ok? ==> id < |tables|
  {
    if id >= |tables| then Raised
    else match FreeExecuteAll(groups, id, TableState([], pkt, None, []), InstructionsOf(Lookup(tables[id], pkt)))
      case Ok(st) =>
        if st.next.None? && st.pending != [] then Raised else Ok(TableOutput(st.outs, st.pkt, st.next))
      case Raised => Raised
  }

  // Without the check a packet may go round for ever.
  datatype FreeWalked = Done(result: Result<Walk>) | StillGoing

  function FreeWalk(tables: Tables, groups: Groups, pkt: Packet, id: TableId, steps: nat): (r: FreeWalked)
    decreases steps
  {
    if steps == 0 then StillGoing
    else match FreeOutputOfTable(tables, groups, pkt, id)
      case Raised => Done(Raised)
      case Ok(t) =>
        var visit := Visit(id, Lookup(tables[id], pkt), t.outs);
        if t.next.None? then Done(Ok(Walk([visit], t.pkt)))
        else match FreeWalk(tables, groups, t.pkt, t.next.value, steps - 1)
          case StillGoing => StillGoing
          case Done(w) => Done(Prepend(visit, w))
  }

  lemma {:induction false} GotosUpNeedNoCheck(groups: Groups, id: TableId, st: TableState, ins: seq<Instruction>)
    requires forall i | i in ins && i.GotoTable? :: id < i.tableId
    ensures FreeExecuteAll(groups, id, st, ins) == ExecuteAll(groups, id, st, ins)
    decreases |ins|
  {
    if ins != [] {
      assert ins[0] in ins && forall i | i in ins[1..] :: i in ins;
      var r := Execute(groups, id, st, ins[0]);
      assert FreeExecute(groups, id, st, ins[0]) == r;
      if r.Ok? {
        GotosUpNeedNoCheck(groups, id, r.value, ins[1..]);
      }
    }
  }

  lemma {:induction false} GotosStayBelow(groups: Groups, id: TableId, top: nat, st: TableState, ins: seq<Instruction>)
    requires forall i | i in ins && i.GotoTable? :: i.tableId < top
    requires (st.next.Some? ==> st.next.value < top) && ExecuteAll(groups, id, st, ins).Ok?
    ensures
      var next := ExecuteAll(groups, id, st, ins).value.next;
      next.Some? ==> next.value < top
    decreases |ins|
  {
    if ins != [] {
      assert ins[0] in ins && forall i | i in ins[1..] :: i in ins;
      GotosStayBelow(groups, id, top, Execute(groups, id, st, ins[0]).value, ins[1..]);
    }
  }

  lemma RespectfulGotosGoUp(tables: R.Tables, ts: Tables, id: TableId, e: Entry)
    requires R.GotosGoUp(tables) && FlowsRespect(tables, ts) && id < |ts| && e in ts[id]
    ensures forall i | i in e.instructions && i.GotoTable? :: id < i.tableId < |ts|
  {
    var n :| n in tables && tables[n].tableId == id && Respects(tables, n, e.instructions);
    forall i | i in e.instructions && i.GotoTable? ensures id < i.tableId < |ts| {
      assert Allowed(tables, n, i.tableId);
    }
  }

  /** In one table the check is never what raises, and the next table exists. */
  lemma TableNeedsNoCheck(tables: R.Tables, ts: Tables, groups: Groups, pkt: Packet, id: TableId)
    requires R.GotosGoUp(tables) && FlowsRespect(tables, ts) && id < |ts|
    ensures FreeOutputOfTable(ts, groups, pkt, id) == OutputOfTable(ts, groups, pkt, id)
    ensures
      var r := OutputOfTable(ts, groups, pkt, id);
      r.Ok? && r.value.next.Some? ==> r.value.next.value < |ts|
  {
    var fte, st := Lookup(ts[id], pkt), TableState([], pkt, None, []);
    LookupIsMember(ts[id], pkt);
    if fte.Some? {
      RespectfulGotosGoUp(tables, ts, id, fte.value);
      GotosUpNeedNoCheck(groups, id, st, fte.value.instructions);
      if ExecuteAll(groups, id, st, fte.value.instructions).Ok? {
        GotosStayBelow(groups, id, |ts|, st, fte.value.instructions);
      }
    }
  }

  /**
   Over tables numbered so that gotos go up, flows that respect the numbering never trip the backward
   goto check: whatever their actions and whatever the packet, the pipeline without the check ends
   within the tables left, and comes to the same walk or raises for the same packets.
   */
  lemma {:induction false} RespectfulFlowsNeedNoCheck(
    tables: R.Tables, ts: Tables, groups: Groups, pkt: Packet, id: TableId, steps: nat)
    requires R.GotosGoUp(tables) && FlowsRespect(tables, ts) && id < |ts| && steps >= |ts| - id
    ensures FreeWalk(ts, groups, pkt, id, steps) == Done(OutputWalk(ts, groups, pkt, id))
    ensures OutputWalk(ts, groups, pkt, id).Ok? ==>
      var ids := Ids(Places(OutputWalk(ts, groups, pkt, id).value.visits));
      Upwards(ids) && |ids| <= |ts| - id
    decreases steps
  {
    TableNeedsNoCheck(tables, ts, groups, pkt, id);
    var r := OutputOfTable(ts, groups, pkt, id);
    if r.Ok? {
      WalkUnfolds(ts, groups, pkt, id, r.value);
      if r.value.next.Some? {
        RespectfulFlowsNeedNoCheck(tables, ts, groups, r.value.pkt, r.value.next.value, steps - 1);
      }
    }
    if OutputWalk(ts, groups, pkt, id).Ok? {
      OutputGoesUp(ts, groups, pkt, id);
    }
  }

  // ---------------------------------------------------------------------------------------------
  // Flows that cannot raise for any other reason either
  // ---------------------------------------------------------------------------------------------

  predicate EndsWithOutput(actions: seq<Action>) {
    actions != [] && actions[|actions| - 1].Output?
  }

  /** Some action; no pop, which needs a tag, and no group, which needs to exist. */
  predicate Harmless(actions: seq<Action>) {
    actions != [] && forall a | a in actions :: !a.Group? && !a.PopVlan?
  }

  /** A flow without a goto puts out the packet it makes. */
  predicate Complete(ins: seq<Instruction>) {
    && (forall i | i in ins && i.ApplyActions? :: Harmless(i.actions))
    && ((exists i | i in ins :: i.GotoTable?) || forall i | i in ins && i.ApplyActions? :: EndsWithOutput(i.actions))
  }

  lemma {:induction false} HarmlessRuns(groups: Groups, st: ActionState, actions: seq<Action>)
    requires forall a | a in actions :: !a.Group? && !a.PopVlan?
    ensures RunActions(groups, {}, st, actions).Ok?
    ensures EndsWithOutput(actions) ==> RunActions(groups, {}, st, actions).value.pending == []
    decreases |actions|
  {
    if actions != [] {
      assert actions[0] in actions;
      var st' := ActOn(groups, {}, st, actions[0]).value;
      HarmlessRuns(groups, st', actions[1..]);
      if |actions| == 1 {
        assert actions[1..] == [];
      } else {
        assert actions[1..][|actions| - 2] == actions[|actions| - 1];
      }
    }
  }

  lemma {:induction false} ForwardExecutes(groups: Groups, id: TableId, top: nat, st: TableState, ins: seq<Instruction>)
    requires forall i | i in ins && i.GotoTable? :: id < i.tableId < top
    requires forall i | i in ins && i.ApplyActions? :: Harmless(i.actions)
    requires st.next.Some? ==> st.next.value < top
    ensures
      var r := ExecuteAll(groups, id, st, ins);
      && r.Ok? && (r.value.next.Some? ==> r.value.next.value < top)
      && (r.value.next.Some? <==> st.next.Some? || exists i | i in ins :: i.GotoTable?)
      && (st.pending == [] && (forall i | i in ins && i.ApplyActions? :: EndsWithOutput(i.actions)) ==>
            r.value.pending == [])
    decreases |ins|
  {
    if ins != [] {
      assert ins[0] in ins && forall i :: i in ins <==> i == ins[0] || i in ins[1..];
      if ins[0].ApplyActions? {
        HarmlessRuns(groups, ActionState([], st.pkt, []), ins[0].actions);
      }
      ForwardExecutes(groups, id, top, Execute(groups, id, st, ins[0]).value, ins[1..]);
    }
  }

  lemma TableNeverRaises(tables: R.Tables, ts: Tables, groups: Groups, pkt: Packet, id: TableId)
    requires R.GotosGoUp(tables) && FlowsRespect(tables, ts) && id < |ts|
    requires forall e | e in ts[id] :: Complete(e.instructions)
    ensures
      var r := OutputOfTable(ts, groups, pkt, id);
      r.Ok? && (r.value.next.Some? ==> r.value.next.value < |ts|)
  {
    var fte := Lookup(ts[id], pkt);
    LookupIsMember(ts[id], pkt);
    if fte.Some? {
      RespectfulGotosGoUp(tables, ts, id, fte.value);
      assert Complete(fte.value.instructions);
    }
    ForwardExecutes(groups, id, |ts|, TableState([], pkt, None, []), InstructionsOf(fte));
  }

  /** So every packet then crosses the pipeline. */
  lemma {:induction false} CompleteFlowsNeverRaise(
      tables: R.Tables, ts: Tables, groups: Groups, pkt: Packet, id: TableId)
    requires R.GotosGoUp(tables) && FlowsRespect(tables, ts) && id < |ts|
    requires forall i, e | 0 <= i < |ts| && e in ts[i] :: Complete(e.instructions)
    ensures OutputWalk(ts, groups, pkt, id).Ok?
    decreases |ts| - id
  {
    TableNeverRaises(tables, ts, groups, pkt, id);
    var t := OutputOfTable(ts, groups, pkt, id).value;
    if t.next.Some? {
      CompleteFlowsNeverRaise(tables, ts, groups, t.pkt, t.next.value);
    }
  }
}
