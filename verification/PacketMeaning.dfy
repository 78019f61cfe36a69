/**
 What a packet's fields hold behind a list of actions, an entry and a whole lookup: the last value set, the
 metadata written, and otherwise what they held before.
 */
module PacketMeaning {
  import opened Packets
  import opened FlowEntries
  import opened FlowTables
  import opened TableLookup
  import opened Pipeline
  import opened Evaluators
  import opened StepMeaning

  // ---------------------------------------------------------------------------------------------
  // Set fields
  // ---------------------------------------------------------------------------------------------

  predicate Sets(a: Action, f: Field) {
    a.SetField? && a.key == f
  }

  predicate LeavesAlone(actions: seq<Action>, f: Field) {
    forall a | a in actions :: !Sets(a, f)
  }

  predicate LastSet(actions: seq<Action>, f: Field, k: nat) {
    k < |actions| && Sets(actions[k], f) && forall j: nat | k < j < |actions| :: !Sets(actions[j], f)
  }

  /** Field f of q is what the actions set it to last; without such an action it is that of p. */
  ghost predicate SetBy(actions: seq<Action>, p: Packet, q: Packet, f: Field) {
    && (forall k: nat | LastSet(actions, f, k) :: Holds(q, f, actions[k].value))
    && (LeavesAlone(actions, f) ==> AgreeAt(p, q, f))
  }

  /** The first action makes here of p, and the others q of here. */
  lemma SetByCons(actions: seq<Action>, p: Packet, here: Packet, q: Packet, f: Field)
    requires actions != [] && SetBy(actions[1..], here, q, f)
    requires if Sets(actions[0], f) then Holds(here, f, actions[0].value) else AgreeAt(p, here, f)
    ensures SetBy(actions, p, q, f)
  {
    var tail := actions[1..];
    forall k: nat | LastSet(actions, f, k) ensures Holds(q, f, actions[k].value) {
      if k == 0 {
        assert forall j: nat | j < |tail| :: tail[j] == actions[j + 1];
        assert LeavesAlone(tail, f);
      } else {
        assert tail[k - 1] == actions[k];
        assert forall j: nat | k - 1 < j < |tail| :: tail[j] == actions[j + 1];
        assert LastSet(tail, f, k - 1);
      }
    }
    if LeavesAlone(actions, f) {
      assert actions[0] in actions && forall a | a in tail :: a in actions;
    }
  }

  /**
   Behind a list of actions each field but those a push or a pop moves holds the last value set, and what it
   held before where none is set.
   */
  lemma {:induction false} RunSets(
    groups: Groups, active: set<GroupId>, st: ActionState, actions: seq<Action>, f: Field)
    requires f !in {VlanVid, VlanPcp, EncapVid} && RunActions(groups, active, st, actions).Ok?
    ensures SetBy(actions, st.pkt, RunActions(groups, active, st, actions).value.pkt, f)
    decreases |actions|
  {
    if actions != [] {
      ActionMeaning(groups, active, st, actions[0]);
      var here := ActOn(groups, active, st, actions[0]).value;
      RunSets(groups, active, here, actions[1..], f);
      var q := RunActions(groups, active, here, actions[1..]).value.pkt;
      SetByCons(actions, st.pkt, here.pkt, q, f);
    }
  }

  /** lookup does so for every field: pushes, pops, outputs and groups change nothing. */
  lemma {:induction false} LookupSets(p: Packet, actions: seq<Action>, f: Field)
    ensures SetBy(actions, p, LookupActions(p, actions), f)
    decreases |actions|
  {
    if actions != [] {
      var here := match actions[0] case SetField(key, value) => p[key := value] case _ => p;
      LookupSets(here, actions[1..], f);
      SetByCons(actions, p, here, LookupActions(here, actions[1..]), f);
    }
  }

  // ---------------------------------------------------------------------------------------------
  // A whole lookup
  // ---------------------------------------------------------------------------------------------

  /** What lookup does to its packet on account of one instruction. */
  ghost predicate LooksPast(i: Instruction, p: Packet, q: Packet) {
    match i
    case ApplyActions(actions) => forall f :: SetBy(actions, p, q, f)
    case WriteMetadata(metadata, mask) => MetadataWritten(p, q, metadata, mask)
    case _ => q == p
  }

  ghost predicate LookupChain(ins: seq<Instruction>, ps: seq<Packet>) {
    |ps| == |ins| + 1 && forall k: nat | k < |ins| :: LooksPast(ins[k], ps[k], ps[k + 1])
  }

  ghost predicate TurnsInto(ins: seq<Instruction>, p: Packet, q: Packet) {
    exists ps: seq<Packet> :: LookupChain(ins, ps) && ps[0] == p && ps[|ins|] == q
  }

  lemma NothingTurns(p: Packet)
    ensures TurnsInto([], p, p)
  {
    ghost var ps := [p];
    assert LookupChain([], ps);
  }

  lemma TurnsOnce(i: Instruction, p: Packet, q: Packet)
    requires LooksPast(i, p, q)
    ensures TurnsInto([i], p, q)
  {
    ghost var ps := [p, q];
    assert LookupChain([i], ps);
  }

  lemma TurnsJoin(a: seq<Instruction>, b: seq<Instruction>, p: Packet, m: Packet, q: Packet)
    requires TurnsInto(a, p, m) && TurnsInto(b, m, q)
    ensures TurnsInto(a + b, p, q)
  {
    var ps :| LookupChain(a, ps) && ps[0] == p && ps[|a|] == m;
    var qs :| LookupChain(b, qs) && qs[0] == m && qs[|b|] == q;
    var all := ps + qs[1..];
    forall k: nat | k < |a + b| ensures LooksPast((a + b)[k], all[k], all[k + 1]) {
      if k >= |a| {
        assert all[k] == qs[k - |a|] && all[k + 1] == qs[k - |a| + 1];
      }
    }
    assert LookupChain(a + b, all) && all[|a + b|] == q;
  }

  lemma ExecuteLooksPast(st: LookupState, i: Instruction)
    ensures LooksPast(i, st.pkt, LookupExecute(st, i).pkt)
  {
    match i {
      case ApplyActions(actions) =>
        forall f ensures SetBy(actions, st.pkt, LookupExecute(st, i).pkt, f) {
          LookupSets(st.pkt, actions, f);
        }
      case WriteMetadata(metadata, mask) => WroteMetadataBits(st.pkt, metadata, mask);
      case _ =>
    }
  }

  lemma {:induction false} ExecuteAllTurns(st: LookupState, ins: seq<Instruction>)
    ensures TurnsInto(ins, st.pkt, LookupExecuteAll(st, ins).pkt)
    decreases |ins|
  {
    if ins == [] {
      NothingTurns(st.pkt);
    } else {
      var here := LookupExecute(st, ins[0]);
      ExecuteLooksPast(st, ins[0]);
      ExecuteAllTurns(here, ins[1..]);
      TurnsOnce(ins[0], st.pkt, here.pkt);
      TurnsJoin([ins[0]], ins[1..], st.pkt, here.pkt, LookupExecuteAll(here, ins[1..]).pkt);
      assert [ins[0]] + ins[1..] == ins;
    }
  }

  /** The packet lookup ends with is what the instructions it returns make of the packet, in their order. */
  lemma {:induction false} LookupMeaning(tables: Tables, pkt: Packet, id: TableId)
    requires LookupWalk(tables, pkt, id).Ok?
    ensures
      var r := LookupWalk(tables, pkt, id).value;
      TurnsInto(r.instructions, pkt, r.pkt)
    decreases |tables| - id
  {
    var ins := InstructionsOf(Lookup(tables[id], pkt));
    var st := LookupExecuteAll(LookupState(pkt, id, false), ins);
    ExecuteAllTurns(LookupState(pkt, id, false), ins);
    if st.again {
      LookupMeaning(tables, st.pkt, st.id);
      var r := LookupWalk(tables, st.pkt, st.id).value;
      TurnsJoin(ins, r.instructions, pkt, st.pkt, r.pkt);
    }
  }

  /** Neither set by an action nor, being the metadata, written. */
  predicate Passes(i: Instruction, f: Field) {
    (i.ApplyActions? ==> LeavesAlone(i.actions, f)) && (i.WriteMetadata? ==> f != Metadata)
  }

  lemma {:induction false} ChainPasses(ins: seq<Instruction>, ps: seq<Packet>, f: Field, n: nat)
    requires LookupChain(ins, ps) && n <= |ins| && forall i | i in ins :: Passes(i, f)
    ensures AgreeAt(ps[0], ps[n], f)
  {
    if n > 0 {
      ChainPasses(ins, ps, f, n - 1);
      assert Passes(ins[n - 1], f) && LooksPast(ins[n - 1], ps[n - 1], ps[n]);
      if ins[n - 1].ApplyActions? {
        assert SetBy(ins[n - 1].actions, ps[n - 1], ps[n], f);
      }
      assert AgreeAt(ps[n - 1], ps[n], f);
    }
  }

  /** lookup changes nothing but the fields its instructions set and the metadata they write. */
  lemma LookupTouchesOnly(tables: Tables, pkt: Packet, id: TableId, f: Field)
    requires LookupWalk(tables, pkt, id).Ok?
    requires forall i | i in LookupWalk(tables, pkt, id).value.instructions :: Passes(i, f)
    ensures AgreeAt(pkt, LookupWalk(tables, pkt, id).value.pkt, f)
  {
    LookupMeaning(tables, pkt, id);
    var r := LookupWalk(tables, pkt, id).value;
    var ps :| LookupChain(r.instructions, ps) && ps[0] == pkt && ps[|r.instructions|] == r.pkt;
    ChainPasses(r.instructions, ps, f, |r.instructions|);
  }

  // ---------------------------------------------------------------------------------------------
  // Metadata written on the way to another table
  // ---------------------------------------------------------------------------------------------

  lemma ExecuteTwo(groups: Groups, id: TableId, st: TableState, a: Instruction, b: Instruction)
    ensures ExecuteAll(groups, id, st, [a, b]) ==
            match Execute(groups, id, st, a)
            case Ok(st') => Execute(groups, id, st', b)
            case Raised => Raised
  {
    assert [a, b][1..] == [b] && [b][1..] == [];
    match Execute(groups, id, st, a)
    case Ok(st') =>
      assert ExecuteAll(groups, id, st', [b]) == Execute(groups, id, st', b) by {
        match Execute(groups, id, st', b)
        case Ok(done) => assert ExecuteAll(groups, id, done, []) == Ok(done);
        case Raised =>
      }
    case Raised =>
  }

  lemma LookupTwo(st: LookupState, a: Instruction, b: Instruction)
    ensures LookupExecuteAll(st, [a, b]) == LookupExecute(LookupExecute(st, a), b)
  {
    var st' := LookupExecute(LookupExecute(st, a), b);
    assert [a, b][1..] == [b] && [b][1..] == [];
    assert LookupExecuteAll(st', []) == st';
    assert LookupExecuteAll(LookupExecute(st, a), [b]) == st';
  }

  /** get_output sends the packet on with the metadata written and nothing else changed. */
  lemma OutputSendsMetadata(
    tables: Tables, groups: Groups, pkt: Packet, id: TableId, e: Entry, metadata: Word, mask: Word, to_: TableId)
    requires id < |tables| && id < to_ && Lookup(tables[id], pkt) == Some(e)
    requires e.instructions == [WriteMetadata(metadata, mask), GotoTable(to_)]
    ensures OutputOfTable(tables, groups, pkt, id).Ok?
    ensures
      var t := OutputOfTable(tables, groups, pkt, id).value;
      t.outs == [] && t.next == Some(to_) && MetadataWritten(pkt, t.pkt, metadata, mask)
  {
    ExecuteTwo(groups, id, TableState([], pkt, None, []), WriteMetadata(metadata, mask), GotoTable(to_));
    WroteMetadataBits(pkt, metadata, mask);
  }

  /** lookup carries on at the next table with the metadata written and nothing else changed. */
  lemma LookupSendsMetadata(
    tables: Tables, pkt: Packet, id: TableId, e: Entry, metadata: Word, mask: Word, to_: TableId)
    requires id < |tables| && id < to_ && Lookup(tables[id], pkt) == Some(e)
    requires e.instructions == [WriteMetadata(metadata, mask), GotoTable(to_)]
    ensures exists q ::
      && MetadataWritten(pkt, q, metadata, mask)
      && match LookupWalk(tables, q, to_)
         case Ok(r) =>
           LookupWalk(tables, pkt, id) ==
           Ok(LookupResult([LookupVisit(id, Some(e))] + r.visits, e.instructions + r.instructions, r.pkt))
         case Raised => LookupWalk(tables, pkt, id).Raised?
  {
    LookupTwo(LookupState(pkt, id, false), WriteMetadata(metadata, mask), GotoTable(to_));
    WroteMetadataBits(pkt, metadata, mask);
    ghost var q := WroteMetadata(pkt, metadata, mask);
    assert LookupExecuteAll(LookupState(pkt, id, false), e.instructions) == LookupState(q, to_, true);
    assert MetadataWritten(pkt, q, metadata, mask);
  }

  // ---------------------------------------------------------------------------------------------
  // Actions left over
  // ---------------------------------------------------------------------------------------------

  /** Without groups, actions are left over exactly when the last one is no output. */
  lemma {:induction false} LeftOverIff(groups: Groups, active: set<GroupId>, st: ActionState, actions: seq<Action>)
    requires actions != [] && (forall a | a in actions :: !a.Group?)
    requires RunActions(groups, active, st, actions).Ok?
    ensures RunActions(groups, active, st, actions).value.pending == [] <==> actions[|actions| - 1].Output?
    decreases |actions|
  {
    assert actions[0] in actions;
    var here := ActOn(groups, active, st, actions[0]).value;
    var tail := actions[1..];
    if tail == [] {
      assert RunActions(groups, active, here, tail) == Ok(here);
    } else {
      assert forall a | a in tail :: a in actions;
      LeftOverIff(groups, active, here, tail);
    }
  }

  /**
   A last table whose entry only applies actions, none of them a group, answers exactly when there are some,
   the last of them is an output, and none of them raises.
   */
  lemma LastTableAnswersIff(
    tables: Tables, groups: Groups, pkt: Packet, id: TableId, e: Entry, actions: seq<Action>)
    requires id < |tables| && Lookup(tables[id], pkt) == Some(e) && e.instructions == [ApplyActions(actions)]
    requires forall a | a in actions :: !a.Group?
    ensures OutputOfTable(tables, groups, pkt, id).Ok? <==>
            && actions != [] && actions[|actions| - 1].Output?
            && !GetsStuck(groups, {}, ActionState([], pkt, []), actions)
  {
    var start, st := ActionState([], pkt, []), TableState([], pkt, None, []);
    var r := Execute(groups, id, st, e.instructions[0]);
    assert e.instructions[1..] == [];
    if r.Ok? {
      assert ExecuteAll(groups, id, r.value, []) == r;
    }
    StuckIff(groups, {}, start, actions);
    if actions != [] && RunActions(groups, {}, start, actions).Ok? {
      LeftOverIff(groups, {}, start, actions);
    }
  }
}
