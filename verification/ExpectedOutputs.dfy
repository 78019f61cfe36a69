/**
 What is_full_output answers, in terms of the copies of the packet that leave the switch.  Its
 documentation asks whether some copy leaves as wanted; the code lets the first copy that leaves by the
 wanted port decide.
 */
module ExpectedOutputs {
  import opened Packets
  import opened FlowEntries
  import opened FlowTables
  import opened TableLookup
  import opened Pipeline

  // ---------------------------------------------------------------------------------------------
  // The ingress port stays on every copy
  // ---------------------------------------------------------------------------------------------

  predicate AllCarryInPort(o: Outputs<Packet>) {
    forall x, pkt | x in o && pkt in x.pkts :: InPort in pkt
  }

  lemma ExtendCarries(o: Outputs<Packet>, port: PortNo, pkts: seq<Packet>)
    requires AllCarryInPort(o) && forall pkt | pkt in pkts :: InPort in pkt
    ensures AllCarryInPort(Extend(o, port, pkts))
  {
    if o != [] {
      ExtendCarries(o[1..], port, pkts);
    }
  }

  lemma ExtendAllCarries(o: Outputs<Packet>, more: Outputs<Packet>)
    requires AllCarryInPort(o) && AllCarryInPort(more)
    ensures AllCarryInPort(ExtendAll(o, more))
    decreases |more|
  {
    if more != [] {
      ExtendCarries(o, more[0].port, more[0].pkts);
      ExtendAllCarries(Extend(o, more[0].port, more[0].pkts), more[1..]);
    }
  }

  ghost predicate StateCarries(st: ActionState) {
    InPort in st.pkt && AllCarryInPort(st.outs)
  }

  lemma {:induction false} ActionsCarry(groups: Groups, active: set<GroupId>, st: ActionState, actions: seq<Action>)
    requires StateCarries(st) && RunActions(groups, active, st, actions).Ok?
    ensures StateCarries(RunActions(groups, active, st, actions).value)
    decreases groups.Keys - active, 1, |actions|
  {
    if actions != [] {
      match actions[0] {
        case Output(port) => ExtendCarries(st.outs, port, [st.pkt]);
        case Group(id) =>
          BucketsCarry(groups, active + {id}, st.(pending := st.pending + [actions[0]]), groups[id]);
        case _ =>
      }
      ActionsCarry(groups, active, ActOn(groups, active, st, actions[0]).value, actions[1..]);
    }
  }

  lemma {:induction false} BucketsCarry(groups: Groups, active: set<GroupId>, st: ActionState, buckets: Buckets)
    requires StateCarries(st) && RunBuckets(groups, active, st, buckets).Ok?
    ensures StateCarries(RunBuckets(groups, active, st, buckets).value)
    decreases groups.Keys - active, 2, |buckets|
  {
    if buckets != [] {
      var start := ActionState([], st.pkt, []);
      ActionsCarry(groups, active, start, buckets[0]);
      var b := RunActions(groups, active, start, buckets[0]).value;
      ExtendAllCarries(st.outs, b.outs);
      BucketsCarry(groups, active, AfterBucket(st, b.outs), buckets[1..]);
    }
  }

  lemma {:induction false} ExecuteCarries(groups: Groups, id: TableId, st: TableState, ins: seq<Instruction>)
    requires InPort in st.pkt && AllCarryInPort(st.outs) && ExecuteAll(groups, id, st, ins).Ok?
    ensures
      var r := ExecuteAll(groups, id, st, ins).value;
      InPort in r.pkt && AllCarryInPort(r.outs)
    decreases |ins|
  {
    if ins != [] {
      if ins[0].ApplyActions? {
        var start := ActionState([], st.pkt, []);
        ActionsCarry(groups, {}, start, ins[0].actions);
        ExtendAllCarries(st.outs, RunActions(groups, {}, start, ins[0].actions).value.outs);
      }
      ExecuteCarries(groups, id, Execute(groups, id, st, ins[0]).value, ins[1..]);
    }
  }

  lemma {:induction false} WalkCarries(tables: Tables, groups: Groups, pkt: Packet, id: TableId)
    requires InPort in pkt && OutputWalk(tables, groups, pkt, id).Ok?
    ensures forall v | v in OutputWalk(tables, groups, pkt, id).value.visits :: AllCarryInPort(v.outs)
    decreases |tables| - id
  {
    ExecuteCarries(groups, id, TableState([], pkt, None, []), InstructionsOf(Lookup(tables[id], pkt)));
    var t := OutputOfTable(tables, groups, pkt, id).value;
    WalkUnfolds(tables, groups, pkt, id, t);
    if t.next.Some? {
      WalkCarries(tables, groups, t.pkt, t.next.value);
    }
  }

  predicate EmissionsCarry(es: seq<Emission>) {
    forall e | e in es :: InPort in e.pkt
  }

  lemma EmissionsOfOutputs(o: Outputs<Packet>)
    requires AllCarryInPort(o)
    ensures EmissionsCarry(Emissions(o))
  {
    if o != [] {
      EmissionsOfOutputs(o[1..]);
      forall e | e in AtPort(o[0].port, o[0].pkts) ensures InPort in e.pkt {
        assert o[0] in o && e.pkt in o[0].pkts;
      }
    }
  }

  lemma EmissionsOfTables(ts: seq<TableOutputs>)
    requires forall t | t in ts :: AllCarryInPort(t.outs)
    ensures EmissionsCarry(AllEmissions(ts))
  {
    if ts != [] {
      assert ts[0] in ts;
      EmissionsOfOutputs(ts[0].outs);
      EmissionsOfTables(ts[1..]);
    }
  }

  // ---------------------------------------------------------------------------------------------
  // Which copies count
  // ---------------------------------------------------------------------------------------------

  /** The copy leaves by the wanted port (any port will do when none is named) and is no reflection. */
  predicate Leaves(want: Expected, inPort: Option<PortNo>, e: Emission) {
    want.port.Some? ==>
      && (e.port == want.port.value || (e.port == OFPP_IN_PORT && inPort == want.port))
      && !(e.port == want.port.value && FieldOf(e.pkt, InPort) == want.port)
  }

  /** The copy has the wanted tag; where the wanted one lacks bit 12, it has no tag with bit 12. */
  predicate TaggedAs(vid: Word, pkt: Packet) {
    if 12 in vid then FieldOf(pkt, VlanVid) == Some(vid)
    else VlanVid in pkt ==> 12 !in pkt[VlanVid]
  }

  /** It leaves so with the wanted tag, if a port and a tag were named. */
  predicate Fulfils(want: Expected, inPort: Option<PortNo>, e: Emission) {
    Leaves(want, inPort, e) && (want.port.Some? && want.vid.Some? ==> TaggedAs(want.vid.value, e.pkt))
  }

  lemma TaggedIsBit12(vid: Word)
    ensures Tagged(vid) <==> 12 in vid
  {
    if 12 in vid {
      assert 12 in vid * VID_PRESENT;
    }
  }

  lemma CarriesVidIs(vid: Word, pkt: Packet)
    ensures CarriesVid(vid, pkt) <==> TaggedAs(vid, pkt)
  {
    TaggedIsBit12(vid);
    if VlanVid in pkt {
      TaggedIsBit12(pkt[VlanVid]);
    }
  }

  /** What the documentation asks for. */
  ghost predicate SomeFulfils(want: Expected, inPort: Option<PortNo>, es: seq<Emission>) {
    exists e :: e in es && Fulfils(want, inPort, e)
  }

  /** What the code looks at. */
  ghost predicate FirstLeaving(want: Expected, inPort: Option<PortNo>, es: seq<Emission>, i: nat) {
    i < |es| && Leaves(want, inPort, es[i]) && forall j: nat | j < i :: !Leaves(want, inPort, es[j])
  }

  ghost predicate FirstFulfils(want: Expected, inPort: Option<PortNo>, es: seq<Emission>) {
    exists i: nat :: FirstLeaving(want, inPort, es, i) && Fulfils(want, inPort, es[i])
  }

  /** A first copy that does not leave so is passed over. */
  lemma FirstFulfilsTail(want: Expected, inPort: Option<PortNo>, es: seq<Emission>)
    requires es != [] && !Leaves(want, inPort, es[0])
    ensures FirstFulfils(want, inPort, es) <==> FirstFulfils(want, inPort, es[1..])
  {
    var tail := es[1..];
    if i: nat :| FirstLeaving(want, inPort, tail, i) && Fulfils(want, inPort, tail[i]) {
      assert es[i + 1] == tail[i] && forall j: nat | 0 < j < i + 1 :: es[j] == tail[j - 1];
      assert FirstLeaving(want, inPort, es, i + 1);
    }
    if i: nat :| FirstLeaving(want, inPort, es, i) && Fulfils(want, inPort, es[i]) {
      assert es[i] == tail[i - 1] && forall j: nat | j < i - 1 :: es[j + 1] == tail[j];
      assert FirstLeaving(want, inPort, tail, i - 1);
    }
  }

  lemma FirstFulfilsHead(want: Expected, inPort: Option<PortNo>, es: seq<Emission>)
    requires es != [] && Leaves(want, inPort, es[0])
    ensures FirstFulfils(want, inPort, es) <==> Fulfils(want, inPort, es[0])
  {
    assert FirstLeaving(want, inPort, es, 0);
  }

  lemma JudgeMeaning(want: Expected, inPort: Option<PortNo>, e: Emission)
    requires InPort in e.pkt
    ensures Judge(want, inPort, e) ==
            if Leaves(want, inPort, e) then Answer(Fulfils(want, inPort, e)) else Continue
  {
    if want.vid.Some? {
      CarriesVidIs(want.vid.value, e.pkt);
    }
  }

  lemma {:induction false} ScanMeaning(want: Expected, inPort: Option<PortNo>, es: seq<Emission>)
    requires EmissionsCarry(es)
    ensures Scan(want, inPort, es) != KeyError
    ensures Scan(want, inPort, es) == Answer(true) <==> FirstFulfils(want, inPort, es)
    decreases |es|
  {
    if es != [] {
      assert es[0] in es;
      JudgeMeaning(want, inPort, es[0]);
      if Leaves(want, inPort, es[0]) {
        FirstFulfilsHead(want, inPort, es);
      } else {
        FirstFulfilsTail(want, inPort, es);
        ScanMeaning(want, inPort, es[1..]);
      }
    }
  }

  lemma {:induction false} FirstLeavingExists(want: Expected, inPort: Option<PortNo>, es: seq<Emission>, k: nat)
    requires k < |es| && Leaves(want, inPort, es[k])
    ensures exists i: nat :: i <= k && FirstLeaving(want, inPort, es, i)
    decreases k
  {
    if j: nat :| j < k && Leaves(want, inPort, es[j]) {
      FirstLeavingExists(want, inPort, es, j);
    } else {
      assert FirstLeaving(want, inPort, es, k);
    }
  }

  /** The copies of a packet that leave the switch, table after table. */
  function Copies(tables: Tables, groups: Groups, pkt: Packet): (r: seq<Emission>)
    requires OutputWalk(tables, groups, pkt, 0).Ok?
  {
    AllEmissions(ByTable(OutputWalk(tables, groups, pkt, 0).value.visits))
  }

  /** Copies are listed port by port, within a port packet by packet. */
  lemma {:induction false} EmissionsInOrder(a: Outputs<Packet>, port: PortNo, pkts: seq<Packet>, k: nat)
    requires k < |pkts|
    ensures
      var before, es := Emissions(a), Emissions(a + [PortPackets(port, pkts)]);
      && |es| == |before| + |pkts| && before <= es
      && es[|before| + k].port == port && es[|before| + k].pkt == pkts[k]
  {
    var last: PortPackets<Packet> := PortPackets(port, pkts);
    if a == [] {
      assert a + [last] == [last] && |[last][1..]| == 0;
      assert Emissions([last]) == AtPort(port, pkts) + [];
    } else {
      assert (a + [last])[0] == a[0] && (a + [last])[1..] == a[1..] + [last];
      EmissionsInOrder(a[1..], port, pkts, k);
    }
  }

  lemma AllEmissionsCons(t: TableOutputs, ts: seq<TableOutputs>)
    ensures AllEmissions([t] + ts) == Emissions(t.outs) + AllEmissions(ts)
  {
    assert ([t] + ts)[1..] == ts;
  }

  /** And table by table. */
  lemma {:induction false} TablesInOrder(a: seq<TableOutputs>, last: TableOutputs)
    ensures AllEmissions(a + [last]) == AllEmissions(a) + Emissions(last.outs)
    decreases |a|
  {
    if a == [] {
      AllEmissionsCons(last, []);
      assert a + [last] == [last] + [];
    } else {
      var here, tail := a[0], a[1..];
      TablesInOrder(tail, last);
      AllEmissionsCons(here, tail);
      AllEmissionsCons(here, tail + [last]);
      assert a == [here] + tail && a + [last] == [here] + (tail + [last]);
    }
  }

  lemma EmissionsAre(o: Outputs<Packet>, e: Emission)
    ensures e in Emissions(o) <==> exists x :: x in o && x.port == e.port && e.pkt in x.pkts
  {
    if o != [] {
      EmissionsAre(o[1..], e);
      var here := AtPort(o[0].port, o[0].pkts);
      if e in here {
        assert o[0] in o;
      }
      if o[0].port == e.port && e.pkt in o[0].pkts {
        var i :| 0 <= i < |o[0].pkts| && o[0].pkts[i] == e.pkt;
        assert here[i] == e;
      }
      assert forall x :: x in o <==> x == o[0] || x in o[1..];
    }
  }

  lemma AllEmissionsAre(ts: seq<TableOutputs>, e: Emission)
    ensures e in AllEmissions(ts) <==> exists t, x :: t in ts && x in t.outs && x.port == e.port && e.pkt in x.pkts
  {
    if ts != [] {
      AllEmissionsAre(ts[1..], e);
      EmissionsAre(ts[0].outs, e);
      assert forall t :: t in ts <==> t == ts[0] || t in ts[1..];
    }
  }

  /** The copies are exactly the packets some visited table puts out, each with its port. */
  lemma CopiesArePutOut(tables: Tables, groups: Groups, pkt: Packet, e: Emission)
    requires OutputWalk(tables, groups, pkt, 0).Ok?
    ensures e in Copies(tables, groups, pkt) <==>
            exists v, x :: v in OutputWalk(tables, groups, pkt, 0).value.visits && x in v.outs &&
                           x.port == e.port && e.pkt in x.pkts
  {
    var visits := OutputWalk(tables, groups, pkt, 0).value.visits;
    var ts := ByTable(visits);
    AllEmissionsAre(ts, e);
    if t, x :| t in ts && x in t.outs && x.port == e.port && e.pkt in x.pkts {
      var i :| 0 <= i < |visits| && ts[i] == t;
      assert visits[i] in visits && x in visits[i].outs;
    }
    if v, x :| v in visits && x in v.outs && x.port == e.port && e.pkt in x.pkts {
      var i :| 0 <= i < |visits| && visits[i] == v;
      assert ts[i] in ts && x in ts[i].outs;
    }
  }

  lemma CopiesCarry(tables: Tables, groups: Groups, pkt: Packet)
    requires InPort in pkt && OutputWalk(tables, groups, pkt, 0).Ok?
    ensures EmissionsCarry(Copies(tables, groups, pkt))
  {
    var visits := OutputWalk(tables, groups, pkt, 0).value.visits;
    WalkCarries(tables, groups, pkt, 0);
    forall t | t in ByTable(visits) ensures AllCarryInPort(t.outs) {
      var i :| 0 <= i < |visits| && ByTable(visits)[i] == t;
      assert visits[i] in visits;
    }
    EmissionsOfTables(ByTable(visits));
  }

  /**
   The first copy that leaves by the wanted port decides.  So a yes is always right, and without a tag to
   look for a no is right as well.
   */
  lemma FullOutputMeaning(tables: Tables, groups: Groups, pkt: Packet, want: Expected)
    requires InPort in pkt && OutputWalk(tables, groups, pkt, 0).Ok?
    ensures
      var es, inPort := Copies(tables, groups, pkt), Some(pkt[InPort]);
      var r := FullOutput(tables, groups, pkt, want);
      && r.Ok?
      && (r.value <==> FirstFulfils(want, inPort, es))
      && (r.value ==> SomeFulfils(want, inPort, es))
      && (want.port.None? || want.vid.None? ==> (r.value <==> SomeFulfils(want, inPort, es)))
  {
    var es, inPort := Copies(tables, groups, pkt), Some(pkt[InPort]);
    CopiesCarry(tables, groups, pkt);
    ScanMeaning(want, inPort, es);
    if r: nat :| FirstLeaving(want, inPort, es, r) && Fulfils(want, inPort, es[r]) {
      assert es[r] in es;
    }
    if (want.port.None? || want.vid.None?) && SomeFulfils(want, inPort, es) {
      var e :| e in es && Fulfils(want, inPort, e);
      var k :| 0 <= k < |es| && es[k] == e;
      FirstLeavingExists(want, inPort, es, k);
    }
  }

  /** One untagged copy by the port and then one tagged copy by the same port. */
  lemma SendsBothCopies(port: PortNo, vid: Word, pkt: Packet)
    requires VlanVid !in pkt
    ensures
      var actions := [Output(port), PushVlan, SetField(VlanVid, vid), Output(port)];
      var tagged := pkt[VlanVid := vid];
      ProcessInstruction(map[], pkt, actions) ==
      Ok(ActionState([PortPackets(port, [pkt, tagged])], tagged, []))
  {
    var actions := [Output(port), PushVlan, SetField(VlanVid, vid), Output(port)];
    var tagged := pkt[VlanVid := vid];
    assert PushedVlan(pkt)[VlanVid := vid] == tagged;
    var st0 := ActionState([], pkt, []);
    var st1 := ActionState([PortPackets(port, [pkt])], pkt, []);
    var st2 := ActionState(st1.outs, PushedVlan(pkt), [PushVlan]);
    var st3 := ActionState(st1.outs, tagged, [PushVlan, SetField(VlanVid, vid)]);
    var st4 := ActionState([PortPackets(port, [pkt, tagged])], tagged, []);
    assert actions[1..] == [PushVlan, SetField(VlanVid, vid), Output(port)];
    assert actions[1..][1..] == [SetField(VlanVid, vid), Output(port)];
    assert actions[1..][1..][1..] == [Output(port)] && [Output(port)][1..] == [];
    assert [pkt] + [tagged] == [pkt, tagged] && st1.outs[1..] == [];
    assert Extend(st1.outs, port, [tagged]) == st4.outs;
    assert ActOn(map[], {}, st2, SetField(VlanVid, vid)) == Ok(st3) by {
      assert [PushVlan] + [SetField(VlanVid, vid)] == [PushVlan, SetField(VlanVid, vid)];
    }
    assert ActOn(map[], {}, st1, PushVlan) == Ok(st2) by {
      assert [] + [PushVlan] == [PushVlan];
    }
    assert RunActions(map[], {}, st4, []) == Ok(st4);
    assert RunActions(map[], {}, st3, [Output(port)]) == Ok(st4);
    assert RunActions(map[], {}, st2, [SetField(VlanVid, vid), Output(port)]) == Ok(st4);
    assert RunActions(map[], {}, st1, actions[1..]) == Ok(st4);
    assert RunActions(map[], {}, st0, actions) == Ok(st4);
  }

  /** One table with one entry that applies these actions to everything. */
  lemma OneEntryCopies(actions: seq<Action>, pkt: Packet, port: PortNo, pkts: seq<Packet>, last: Packet)
    requires actions != []
    requires ProcessInstruction(map[], pkt, actions) == Ok(ActionState([PortPackets(port, pkts)], last, []))
    ensures
      var tables := [[Entry(0, map[], [ApplyActions(actions)], None)]];
      OutputWalk(tables, map[], pkt, 0).Ok? && Copies(tables, map[], pkt) == AtPort(port, pkts)
  {
    var ins := [ApplyActions(actions)];
    var entry := Entry(0, map[], ins, None);
    var tables := [[entry]];
    var outs := [PortPackets(port, pkts)];
    assert ins[1..] == [] && outs[1..] == [];
    assert ExtendAll([], outs) == outs;
    assert PktMatches(entry, pkt) && Lookup(tables[0], pkt) == Some(entry);
    var visits := [Visit(0, Some(entry), outs)];
    var start, done := TableState([], pkt, None, []), TableState(outs, last, None, []);
    assert Execute(map[], 0, start, ins[0]) == Ok(done);
    assert ExecuteAll(map[], 0, done, []) == Ok(done);
    assert ExecuteAll(map[], 0, start, ins) == Ok(done);
    WalkUnfolds(tables, map[], pkt, 0, TableOutput(outs, last, None));
    assert OutputWalk(tables, map[], pkt, 0) == Ok(Walk(visits, last));
    assert ByTable(visits) == [TableOutputs(0, outs)] && ByTable(visits)[1..] == [];
    var es := AtPort(port, pkts);
    assert es + [] == es;
    assert Emissions(outs) == es;
    assert AllEmissions([TableOutputs(0, outs)]) == es;
  }

  /** An untagged copy sent ahead of the tagged one makes the code deny that a tagged copy leaves. */
  lemma UntaggedCopyHidesTaggedOne(port: PortNo, vid: Word, inPort: PortNo)
    requires port != inPort && Tagged(vid)
    ensures
      var actions := [Output(port), PushVlan, SetField(VlanVid, vid), Output(port)];
      var tables := [[Entry(0, map[], [ApplyActions(actions)], None)]];
      var pkt: Packet := map[InPort := inPort];
      var want := Expected(Some(port), Some(vid));
      && OutputWalk(tables, map[], pkt, 0).Ok?
      && SomeFulfils(want, Some(inPort), Copies(tables, map[], pkt))
      && FullOutput(tables, map[], pkt, want) == Ok(false)
  {
    var actions := [Output(port), PushVlan, SetField(VlanVid, vid), Output(port)];
    var pkt: Packet := map[InPort := inPort];
    var tagged := pkt[VlanVid := vid];
    SendsBothCopies(port, vid, pkt);
    OneEntryCopies(actions, pkt, port, [pkt, tagged], tagged);
    var es := AtPort(port, [pkt, tagged]);
    assert es[0] == Emission(port, pkt) && es[1] == Emission(port, tagged) && es[1] in es;
  }

  // ---------------------------------------------------------------------------------------------
  // When the answer is the documented one
  // ---------------------------------------------------------------------------------------------

  /** On every switch and for every packet the answer is whether some copy leaves as wanted. */
  ghost predicate AnswersAsDocumented(want: Expected) {
    forall tables, groups, pkt | InPort in pkt && OutputWalk(tables, groups, pkt, 0).Ok? ::
      FullOutput(tables, groups, pkt, want) == Ok(SomeFulfils(want, Some(pkt[InPort]), Copies(tables, groups, pkt)))
  }

  /** One tagged copy by the port and then one untagged copy by the same port. */
  lemma SendsTaggedFirst(port: PortNo, pkt: Packet)
    requires VlanVid !in pkt && VlanPcp !in pkt && EncapVid !in pkt
    ensures
      var actions := [PushVlan, Output(port), PopVlan, Output(port)];
      var tagged, bare := pkt[VlanVid := VID_PRESENT], pkt[VlanVid := {}];
      ProcessInstruction(map[], pkt, actions) ==
      Ok(ActionState([PortPackets(port, [tagged, bare])], bare, []))
  {
    var actions := [PushVlan, Output(port), PopVlan, Output(port)];
    var tagged, bare := pkt[VlanVid := VID_PRESENT], pkt[VlanVid := {}];
    assert PushedVlan(pkt) == tagged && PoppedVlan(tagged) == bare;
    var st0 := ActionState([], pkt, []);
    var st1 := ActionState([], tagged, [PushVlan]);
    var st2 := ActionState([PortPackets(port, [tagged])], tagged, []);
    var st3 := ActionState(st2.outs, bare, [PopVlan]);
    var st4 := ActionState([PortPackets(port, [tagged, bare])], bare, []);
    assert actions[1..] == [Output(port), PopVlan, Output(port)];
    assert actions[1..][1..] == [PopVlan, Output(port)];
    assert actions[1..][1..][1..] == [Output(port)] && [Output(port)][1..] == [];
    assert [tagged] + [bare] == [tagged, bare] && st2.outs[1..] == [];
    assert Extend(st2.outs, port, [bare]) == st4.outs;
    assert ActOn(map[], {}, st2, PopVlan) == Ok(st3) by {
      assert [] + [PopVlan] == [PopVlan];
    }
    assert ActOn(map[], {}, st0, PushVlan) == Ok(st1) by {
      assert [] + [PushVlan] == [PushVlan];
    }
    assert RunActions(map[], {}, st4, []) == Ok(st4);
    assert RunActions(map[], {}, st3, [Output(port)]) == Ok(st4);
    assert RunActions(map[], {}, st2, [PopVlan, Output(port)]) == Ok(st4);
    assert RunActions(map[], {}, st1, actions[1..]) == Ok(st4);
    assert RunActions(map[], {}, st0, actions) == Ok(st4);
  }

  /** A tagged copy sent ahead of the untagged one makes the code deny that an untagged copy leaves. */
  lemma TaggedCopyHidesUntaggedOne(port: PortNo, vid: Word, inPort: PortNo)
    requires port != inPort && !Tagged(vid)
    ensures
      var actions := [PushVlan, Output(port), PopVlan, Output(port)];
      var tables := [[Entry(0, map[], [ApplyActions(actions)], None)]];
      var pkt: Packet := map[InPort := inPort];
      var want := Expected(Some(port), Some(vid));
      && OutputWalk(tables, map[], pkt, 0).Ok?
      && SomeFulfils(want, Some(inPort), Copies(tables, map[], pkt))
      && FullOutput(tables, map[], pkt, want) == Ok(false)
  {
    var actions := [PushVlan, Output(port), PopVlan, Output(port)];
    var pkt: Packet := map[InPort := inPort];
    var tagged, bare := pkt[VlanVid := VID_PRESENT], pkt[VlanVid := {}];
    SendsTaggedFirst(port, pkt);
    OneEntryCopies(actions, pkt, port, [tagged, bare], bare);
    assert 12 in VID_PRESENT * VID_PRESENT;
    var es := AtPort(port, [tagged, bare]);
    assert es[0] == Emission(port, tagged) && es[1] == Emission(port, bare) && es[1] in es;
  }

  lemma AnotherPort(port: PortNo) returns (other: PortNo)
    ensures other != port
  {
    other := if port == {} then {0} else {};
  }

  /** The answer is always the documented one exactly when no port or no tag is asked for. */
  lemma AnswersAsDocumentedIff(want: Expected)
    ensures AnswersAsDocumented(want) <==> want.port.None? || want.vid.None?
  {
    if want.port.None? || want.vid.None? {
      forall tables, groups, pkt | InPort in pkt && OutputWalk(tables, groups, pkt, 0).Ok?
        ensures FullOutput(tables, groups, pkt, want) ==
                Ok(SomeFulfils(want, Some(pkt[InPort]), Copies(tables, groups, pkt)))
      {
        FullOutputMeaning(tables, groups, pkt, want);
      }
    } else {
      var inPort := AnotherPort(want.port.value);
      if Tagged(want.vid.value) {
        UntaggedCopyHidesTaggedOne(want.port.value, want.vid.value, inPort);
      } else {
        TaggedCopyHidesUntaggedOne(want.port.value, want.vid.value, inPort);
      }
    }
  }
}
