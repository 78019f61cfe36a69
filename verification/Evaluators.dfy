/** The evaluators of one pipeline agree: lookup with get_output, get_port_outputs with get_output. */
module Evaluators {
  import opened Packets
  import opened FlowEntries
  import opened FlowTables
  import opened TableInvariant
  import opened TableLookup
  import opened Pipeline

  // ---------------------------------------------------------------------------------------------
  // lookup against get_output
  // ---------------------------------------------------------------------------------------------

  predicate NoVlanActions(actions: seq<Action>) {
    forall a | a in actions :: !a.PushVlan? && !a.PopVlan?
  }

  predicate PlainInstructions(instructions: seq<Instruction>) {
    forall i | i in instructions && i.ApplyActions? :: NoVlanActions(i.actions)
  }

  predicate PlainTables(ts: Tables) {
    forall id, e | 0 <= id < |ts| && e in ts[id] :: PlainInstructions(e.instructions)
  }

  lemma {:induction false} BucketsKeepPacket(groups: Groups, active: set<GroupId>, st: ActionState, buckets: Buckets)
    requires RunBuckets(groups, active, st, buckets).Ok?
    ensures RunBuckets(groups, active, st, buckets).value.pkt == st.pkt
    decreases |buckets|
  {
    if buckets != [] {
      var b := RunActions(groups, active, ActionState([], st.pkt, []), buckets[0]).value;
      BucketsKeepPacket(groups, active, AfterBucket(st, b.outs), buckets[1..]);
    }
  }

  lemma {:induction false} ActionsAgree(groups: Groups, active: set<GroupId>, st: ActionState, actions: seq<Action>)
    requires NoVlanActions(actions) && RunActions(groups, active, st, actions).Ok?
    ensures RunActions(groups, active, st, actions).value.pkt == LookupActions(st.pkt, actions)
    decreases |actions|
  {
    if actions != [] {
      assert actions[0] in actions;
      if actions[0].Group? {
        var st' := st.(pending := st.pending + [actions[0]]);
        BucketsKeepPacket(groups, active + {actions[0].id}, st', groups[actions[0].id]);
      }
      ActionsAgree(groups, active, ActOn(groups, active, st, actions[0]).value, actions[1..]);
    }
  }

  /** The second evaluator's state that mirrors a table state of the first. */
  function Mirror(id: TableId, st: TableState): (r: LookupState) {
    LookupState(st.pkt, if st.next.Some? then st.next.value else id, st.next.Some?)
  }

  lemma {:induction false} InstructionsAgree(groups: Groups, id: TableId, st: TableState, ins: seq<Instruction>)
    requires DistinctKinds(ins) && PlainInstructions(ins)
    requires st.next.Some? ==> forall i | i in ins :: !i.GotoTable?
    requires ExecuteAll(groups, id, st, ins).Ok?
    ensures LookupExecuteAll(Mirror(id, st), ins) == Mirror(id, ExecuteAll(groups, id, st, ins).value)
    decreases |ins|
  {
    if ins != [] {
      assert ins[0] in ins;
      assert forall i | i in ins[1..] :: i in ins;
      if ins[0].ApplyActions? {
        ActionsAgree(groups, {}, ActionState([], st.pkt, []), ins[0].actions);
      }
      forall i | i in ins[1..] && ins[0].GotoTable? ensures !i.GotoTable? {
        var j :| 0 <= j < |ins[1..]| && ins[1..][j] == i;
        assert Kind(ins[0]) != Kind(ins[j + 1]);
      }
      InstructionsAgree(groups, id, Execute(groups, id, st, ins[0]).value, ins[1..]);
    }
  }

  function Places(visits: seq<Visit>): (r: seq<LookupVisit>) {
    seq(|visits|, i requires 0 <= i < |visits| => LookupVisit(visits[i].id, visits[i].fte))
  }

  function Collected(visits: seq<Visit>): (r: seq<Instruction>) {
    if visits == [] then [] else InstructionsOf(visits[0].fte) + Collected(visits[1..])
  }

  /**
   Whenever get_output does not raise, lookup crosses the same tables, finds the same entries,
   collects exactly their instructions in order, and ends with the same packet.
   */
  lemma {:induction false} LookupFollowsOutput(tables: Tables, groups: Groups, pkt: Packet, id: TableId)
    requires AllGood(tables) && PlainTables(tables)
    requires OutputWalk(tables, groups, pkt, id).Ok?
    ensures
      var w := OutputWalk(tables, groups, pkt, id).value;
      LookupWalk(tables, pkt, id) == Ok(LookupResult(Places(w.visits), Collected(w.visits), w.pkt))
    decreases |tables| - id
  {
    var t := OutputOfTable(tables, groups, pkt, id).value;
    var here := Visit(id, Lookup(tables[id], pkt), t.outs);
    LookupStep(tables, groups, pkt, id);
    WalkUnfolds(tables, groups, pkt, id, t);
    if t.next.Some? {
      LookupFollowsOutput(tables, groups, t.pkt, t.next.value);
      VisitsCons(here, OutputWalk(tables, groups, t.pkt, t.next.value).value.visits);
    } else {
      VisitsCons(here, []);
    }
  }

  lemma VisitsCons(here: Visit, rest: seq<Visit>)
    ensures Places([here] + rest) == [LookupVisit(here.id, here.fte)] + Places(rest)
    ensures Collected([here] + rest) == InstructionsOf(here.fte) + Collected(rest)
  {
    assert ([here] + rest)[1..] == rest;
  }

  /** In one table both evaluators find the same entry, make the same packet and go on to the same table. */
  lemma LookupStep(tables: Tables, groups: Groups, pkt: Packet, id: TableId)
    requires AllGood(tables) && PlainTables(tables)
    requires OutputOfTable(tables, groups, pkt, id).Ok?
    ensures
      var t, fte := OutputOfTable(tables, groups, pkt, id).value, Lookup(tables[id], pkt);
      var here, ins := [LookupVisit(id, fte)], InstructionsOf(fte);
      LookupWalk(tables, pkt, id) ==
      if t.next.None? then Ok(LookupResult(here + [], ins + [], t.pkt))
      else match LookupWalk(tables, t.pkt, t.next.value)
        case Ok(r) => Ok(LookupResult(here + r.visits, ins + r.instructions, r.pkt))
        case Raised => Raised
  {
    var fte := Lookup(tables[id], pkt);
    LookupIsMember(tables[id], pkt);
    var ins := InstructionsOf(fte);
    InstructionsAgree(groups, id, TableState([], pkt, None, []), ins);
    assert [LookupVisit(id, fte)] + [] == [LookupVisit(id, fte)] && ins + [] == ins;
  }

  /** A push is invisible to lookup: behind it the two evaluators no longer see the same packet. */
  lemma PushSeparatesEvaluators()
    ensures
      var e := Entry(1, map[], [ApplyActions([PushVlan]), GotoTable(1)], None);
      var tables: Tables := [[e], []];
      && AllGood(tables) && OutputWalk(tables, map[], map[], 0).Ok? && LookupWalk(tables, map[], 0).Ok?
      && OutputWalk(tables, map[], map[], 0).value.pkt == map[VlanVid := VID_PRESENT]
      && LookupWalk(tables, map[], 0).value.pkt == map[]
  {
    var ins := [ApplyActions([PushVlan]), GotoTable(1)];
    var e := Entry(1, map[], ins, None);
    var tables: Tables := [[e], []];
    var pushed: Packet := map[VlanVid := VID_PRESENT];
    assert ins[1..] == [GotoTable(1)] && [GotoTable(1)][1..] == [] && [PushVlan][1..] == [];
    assert PktMatches(e, map[]);
    assert PushedVlan(map[]) == pushed;
    assert ProcessInstruction(map[], map[], [PushVlan]) == Ok(ActionState([], pushed, [PushVlan])) by {
      assert [] + [PushVlan] == [PushVlan];
    }
    var st := TableState([], pushed, None, [PushVlan]);
    assert Execute(map[], 0, TableState([], map[], None, []), ins[0]) == Ok(st);
    assert ExecuteAll(map[], 0, st.(next := Some(1)), []) == Ok(st.(next := Some(1)));
    assert ExecuteAll(map[], 0, st, ins[1..]) == Ok(st.(next := Some(1)));
    assert OutputOfTable(tables, map[], map[], 0) == Ok(TableOutput([], pushed, Some(1)));
    assert OutputOfTable(tables, map[], pushed, 1) == Ok(TableOutput([], pushed, None));
    assert LookupActions(map[], [PushVlan]) == map[];
    var ls := LookupState(map[], 1, true);
    assert LookupExecuteAll(ls, []) == ls;
    assert LookupExecuteAll(LookupState(map[], 0, false), ins[1..]) == ls;
    assert LookupExecuteAll(LookupState(map[], 0, false), ins) == ls;
    assert LookupWalk(tables, map[], 1).Ok?;
  }

  // ---------------------------------------------------------------------------------------------
  // Tables are crossed upwards
  // ---------------------------------------------------------------------------------------------

  predicate Upwards(ids: seq<TableId>) {
    forall i, j | 0 <= i < j < |ids| :: ids[i] < ids[j]
  }

  function Ids(visits: seq<LookupVisit>): (r: seq<TableId>) {
    seq(|visits|, i requires 0 <= i < |visits| => visits[i].id)
  }

  lemma {:induction false} UpwardsIsShort(ids: seq<TableId>, lo: nat, hi: nat)
    requires Upwards(ids) && (forall i | 0 <= i < |ids| :: lo <= ids[i] < hi) && lo <= hi
    ensures |ids| <= hi - lo
    decreases |ids|
  {
    if ids != [] {
      UpwardsIsShort(ids[1..], ids[0] + 1, hi);
    }
  }

  /** lookup visits strictly increasing table IDs, each table at most once. */
  lemma {:induction false} LookupGoesUp(tables: Tables, pkt: Packet, id: TableId)
    requires LookupWalk(tables, pkt, id).Ok?
    ensures
      var ids := Ids(LookupWalk(tables, pkt, id).value.visits);
      Upwards(ids) && (forall i | 0 <= i < |ids| :: id <= ids[i] < |tables|) && |ids| <= |tables| - id
    decreases |tables| - id
  {
    var fte := Lookup(tables[id], pkt);
    var st := LookupExecuteAll(LookupState(pkt, id, false), InstructionsOf(fte));
    var ids := Ids(LookupWalk(tables, pkt, id).value.visits);
    if st.again {
      LookupGoesUp(tables, st.pkt, st.id);
      var rest := Ids(LookupWalk(tables, st.pkt, st.id).value.visits);
      assert ids == [id] + rest;
    }
    UpwardsIsShort(ids, id, |tables|);
  }

  /** get_output does so too, whatever the entries hold. */
  lemma {:induction false} OutputGoesUp(tables: Tables, groups: Groups, pkt: Packet, id: TableId)
    requires OutputWalk(tables, groups, pkt, id).Ok?
    ensures
      var ids := Ids(Places(OutputWalk(tables, groups, pkt, id).value.visits));
      Upwards(ids) && (forall i | 0 <= i < |ids| :: id <= ids[i] < |tables|) && |ids| <= |tables| - id
    decreases |tables| - id
  {
    var t := OutputOfTable(tables, groups, pkt, id).value;
    var ids := Ids(Places(OutputWalk(tables, groups, pkt, id).value.visits));
    if t.next.Some? {
      OutputGoesUp(tables, groups, t.pkt, t.next.value);
      var rest := Ids(Places(OutputWalk(tables, groups, t.pkt, t.next.value).value.visits));
      assert ids == [id] + rest;
    }
    UpwardsIsShort(ids, id, |tables|);
  }

  // ---------------------------------------------------------------------------------------------
  // get_port_outputs against get_output
  // ---------------------------------------------------------------------------------------------

  predicate DistinctPorts(o: Outputs<Packet>) {
    forall i, j | 0 <= i < j < |o| :: o[i].port != o[j].port
  }

  predicate HasPort(o: Outputs<Packet>, port: PortNo) {
    exists i | 0 <= i < |o| :: o[i].port == port
  }

  lemma {:induction false} ExtendDistinct(o: Outputs<Packet>, port: PortNo, pkts: seq<Packet>)
    requires DistinctPorts(o)
    ensures DistinctPorts(Extend(o, port, pkts))
    ensures forall p :: HasPort(Extend(o, port, pkts), p) <==> HasPort(o, p) || p == port
  {
    if o == [] {
      assert Extend(o, port, pkts)[0].port == port;
    } else {
      var r := Extend(o, port, pkts);
      if o[0].port == port {
        assert forall i | 0 <= i < |o| :: r[i].port == o[i].port;
      } else {
        ExtendDistinct(o[1..], port, pkts);
        var rest := Extend(o[1..], port, pkts);
        assert forall p :: HasPort(r, p) <==> p == o[0].port || HasPort(rest, p) by {
          forall p ensures HasPort(r, p) <==> p == o[0].port || HasPort(rest, p) {
            if HasPort(rest, p) {
              var i :| 0 <= i < |rest| && rest[i].port == p;
              assert r[i + 1].port == p;
            }
            assert r[0].port == o[0].port;
          }
        }
        assert forall p :: HasPort(o, p) <==> p == o[0].port || HasPort(o[1..], p) by {
          forall p ensures HasPort(o, p) <==> p == o[0].port || HasPort(o[1..], p) {
            if HasPort(o[1..], p) {
              var i :| 0 <= i < |o[1..]| && o[1..][i].port == p;
              assert o[i + 1].port == p;
            }
          }
        }
        forall i, j | 0 <= i < j < |r| ensures r[i].port != r[j].port {
          assert r[j] == rest[j - 1];
          assert HasPort(rest, r[j].port);
          if i == 0 {
            assert !HasPort(o[1..], o[0].port);
          } else {
            assert r[i] == rest[i - 1];
          }
        }
      }
    }
  }

  lemma {:induction false} ExtendAllDistinct(o: Outputs<Packet>, more: Outputs<Packet>)
    requires DistinctPorts(o)
    ensures DistinctPorts(ExtendAll(o, more))
    decreases |more|
  {
    if more != [] {
      ExtendDistinct(o, more[0].port, more[0].pkts);
      ExtendAllDistinct(Extend(o, more[0].port, more[0].pkts), more[1..]);
    }
  }

  lemma {:induction false} ExecuteDistinct(groups: Groups, id: TableId, st: TableState, ins: seq<Instruction>)
    requires DistinctPorts(st.outs) && ExecuteAll(groups, id, st, ins).Ok?
    ensures DistinctPorts(ExecuteAll(groups, id, st, ins).value.outs)
    decreases |ins|
  {
    if ins != [] {
      if ins[0].ApplyActions? {
        var a := ProcessInstruction(groups, st.pkt, ins[0].actions).value;
        ExtendAllDistinct(st.outs, a.outs);
      }
      ExecuteDistinct(groups, id, Execute(groups, id, st, ins[0]).value, ins[1..]);
    }
  }

  /** The packets of s in order of first appearance, each once. */
  function Firsts(s: seq<Packet>): (r: seq<Packet>) {
    if s == [] then []
    else
      var earlier := s[..|s| - 1];
      if s[|s| - 1] in earlier then Firsts(earlier) else Firsts(earlier) + [s[|s| - 1]]
  }

  predicate NoRepeats(s: seq<Packet>) {
    forall i, j | 0 <= i < j < |s| :: s[i] != s[j]
  }

  lemma {:induction false} FirstsProperties(s: seq<Packet>)
    ensures NoRepeats(Firsts(s))
    ensures forall x :: x in Firsts(s) <==> x in s
  {
    if s != [] {
      FirstsProperties(s[..|s| - 1]);
      assert s == s[..|s| - 1] + [s[|s| - 1]];
    }
  }

  lemma {:induction false} AddNewExtendsFirsts(s: seq<Packet>, pkts: seq<Packet>)
    ensures AddNew(Firsts(s), pkts) == Firsts(s + pkts)
    decreases |pkts|
  {
    if pkts == [] {
      assert s + pkts == s;
    } else {
      var s' := s + [pkts[0]];
      FirstsProperties(s);
      assert s'[..|s'| - 1] == s;
      assert s + pkts == s' + pkts[1..];
      AddNewExtendsFirsts(s', pkts[1..]);
    }
  }

  lemma PacketsAtMerge(o: Outputs<Packet>, port: PortNo, pkts: seq<Packet>, p: PortNo)
    ensures PacketsAt(MergeNew(o, port, pkts), p) ==
            if p == port then AddNew(PacketsAt(o, port), pkts) else PacketsAt(o, p)
  {
    if o != [] && o[0].port != port {
      PacketsAtMerge(o[1..], port, pkts, p);
      assert ([o[0]] + MergeNew(o[1..], port, pkts))[1..] == MergeNew(o[1..], port, pkts);
    }
  }

  lemma AbsentPort(o: Outputs<Packet>, p: PortNo)
    requires !HasPort(o, p)
    ensures PacketsAt(o, p) == []
  {
    if o != [] {
      assert o[0].port != p;
      forall i | 0 <= i < |o[1..]| ensures o[1..][i].port != p {
        assert o[i + 1].port != p;
      }
      AbsentPort(o[1..], p);
    }
  }

  lemma {:induction false} PacketsAtMergeAll(o: Outputs<Packet>, more: Outputs<Packet>, p: PortNo)
    requires DistinctPorts(more)
    ensures PacketsAt(MergeAllNew(o, more), p) == AddNew(PacketsAt(o, p), PacketsAt(more, p))
    decreases |more|
  {
    if more != [] {
      PacketsAtMerge(o, more[0].port, more[0].pkts, p);
      PacketsAtMergeAll(MergeNew(o, more[0].port, more[0].pkts), more[1..], p);
      if more[0].port == p {
        forall i | 0 <= i < |more[1..]| ensures more[1..][i].port != p {
          assert more[1..][i] == more[i + 1];
        }
        AbsentPort(more[1..], p);
      }
    }
  }

  function ConcatAt(visits: seq<Visit>, p: PortNo): (r: seq<Packet>) {
    if visits == [] then [] else PacketsAt(visits[0].outs, p) + ConcatAt(visits[1..], p)
  }

  lemma ConcatCons(here: Visit, rest: seq<Visit>, p: PortNo)
    ensures ConcatAt([here] + rest, p) == PacketsAt(here.outs, p) + ConcatAt(rest, p)
  {
    assert ([here] + rest)[1..] == rest;
  }

  lemma TablePortsDistinct(tables: Tables, groups: Groups, pkt: Packet, id: TableId)
    requires OutputOfTable(tables, groups, pkt, id).Ok?
    ensures DistinctPorts(OutputOfTable(tables, groups, pkt, id).value.outs)
  {
    ExecuteDistinct(groups, id, TableState([], pkt, None, []), InstructionsOf(Lookup(tables[id], pkt)));
  }

  lemma GatherStep(o: Outputs<Packet>, outs: Outputs<Packet>, p: PortNo, seen: seq<Packet>)
    requires PacketsAt(o, p) == Firsts(seen) && DistinctPorts(outs)
    ensures PacketsAt(MergeAllNew(o, outs), p) == Firsts(seen + PacketsAt(outs, p))
  {
    PacketsAtMergeAll(o, outs, p);
    AddNewExtendsFirsts(seen, PacketsAt(outs, p));
  }

  ghost predicate Gathers(r: Result<Outputs<Packet>>, walk: Result<Walk>, p: PortNo, seen: seq<Packet>) {
    match walk
    case Raised => r.Raised?
    case Ok(w) => r.Ok? && PacketsAt(r.value, p) == Firsts(seen + ConcatAt(w.visits, p))
  }

  lemma GathersFromHere(
    r: Result<Outputs<Packet>>, walk: Result<Walk>, here: Visit, p: PortNo, seen: seq<Packet>)
    requires Gathers(r, walk, p, seen + PacketsAt(here.outs, p))
    ensures Gathers(r, Prepend(here, walk), p, seen)
  {
    if walk.Ok? {
      ConcatCons(here, walk.value.visits, p);
      assert seen + (PacketsAt(here.outs, p) + ConcatAt(walk.value.visits, p))
          == seen + PacketsAt(here.outs, p) + ConcatAt(walk.value.visits, p);
    }
  }

  lemma PortsUnfold(tables: Tables, groups: Groups, o: Outputs<Packet>, pkt: Packet, id: TableId, t: TableOutput)
    requires OutputOfTable(tables, groups, pkt, id) == Ok(t)
    ensures
      var o' := MergeAllNew(o, t.outs);
      PortOutputsFrom(tables, groups, o, pkt, id) ==
      if t.next.None? then Ok(o') else PortOutputsFrom(tables, groups, o', t.pkt, t.next.value)
  {
  }

  lemma {:induction false} PortOutputsGather(
    tables: Tables, groups: Groups, o: Outputs<Packet>, pkt: Packet, id: TableId, p: PortNo, seen: seq<Packet>)
    requires PacketsAt(o, p) == Firsts(seen)
    ensures Gathers(PortOutputsFrom(tables, groups, o, pkt, id), OutputWalk(tables, groups, pkt, id), p, seen)
    decreases |tables| - id
  {
    var r := OutputOfTable(tables, groups, pkt, id);
    if r.Ok? {
      var t := r.value;
      TablePortsDistinct(tables, groups, pkt, id);
      GatherStep(o, t.outs, p, seen);
      WalkUnfolds(tables, groups, pkt, id, t);
      PortsUnfold(tables, groups, o, pkt, id, t);
      var here := Visit(id, Lookup(tables[id], pkt), t.outs);
      var o' := MergeAllNew(o, t.outs);
      var seen' := seen + PacketsAt(t.outs, p);
      if t.next.Some? {
        PortOutputsGather(tables, groups, o', t.pkt, t.next.value, p, seen');
        GathersFromHere(PortOutputsFrom(tables, groups, o', t.pkt, t.next.value),
                        OutputWalk(tables, groups, t.pkt, t.next.value), here, p, seen);
      } else {
        assert seen' + ConcatAt([], p) == seen';
        GathersFromHere(Ok(o'), Ok(Walk([], t.pkt)), here, p, seen);
      }
    }
  }

  lemma {:induction false} ConcatMembers(visits: seq<Visit>, p: PortNo, x: Packet)
    ensures x in ConcatAt(visits, p) <==> exists v | v in visits :: x in PacketsAt(v.outs, p)
  {
    if visits != [] {
      ConcatMembers(visits[1..], p, x);
      assert forall v :: v in visits <==> v == visits[0] || v in visits[1..];
    }
  }

  /**
   get_port_outputs raises exactly when get_output does; otherwise each port holds, without repeats and
   in table order, the packets get_output records for it, so the (port, packet) pairs are the same.
   */
  lemma PortOutputsFlatten(tables: Tables, groups: Groups, pkt: Packet, p: PortNo)
    ensures PortOutputsFrom(tables, groups, [], pkt, 0).Ok? <==> OutputWalk(tables, groups, pkt, 0).Ok?
    ensures PortOutputsFrom(tables, groups, [], pkt, 0).Ok? ==>
      var listed := PacketsAt(PortOutputsFrom(tables, groups, [], pkt, 0).value, p);
      var visits := OutputWalk(tables, groups, pkt, 0).value.visits;
      && listed == Firsts(ConcatAt(visits, p))
      && NoRepeats(listed)
      && forall x :: x in listed <==> exists v | v in visits :: x in PacketsAt(v.outs, p)
  {
    PortOutputsGather(tables, groups, [], pkt, 0, p, []);
    if OutputWalk(tables, groups, pkt, 0).Ok? {
      var visits := OutputWalk(tables, groups, pkt, 0).value.visits;
      assert [] + ConcatAt(visits, p) == ConcatAt(visits, p);
      FirstsProperties(ConcatAt(visits, p));
      forall x ensures x in ConcatAt(visits, p) <==> exists v | v in visits :: x in PacketsAt(v.outs, p) {
        ConcatMembers(visits, p, x);
      }
    }
  }
}
