/**
 Tunnel ACLs: the output rules built for the source, transit and destination switches of a tunnel, and
 what a packet looks like after crossing all of them.
 */
module TunnelRules {
  import opened Packets
  import opened Pipeline
  import opened VlanStack
  import StepMeaning

  type DpName = string
  type SourceId = string
  type TunnelId = Word

  // One entry of an ordered ACL output list.
  datatype RuleItem =
    | VlanVids(vids: seq<Word>)
    | SetPcp(pcp: Word)
    | ToPort(port: PortNo)
    | PopVlans(count: nat)
    | GotoId(tableId: TableId)

  datatype TunnelDest = TunnelDest(
    dstDp: DpName, biDirectional: bool, reverse: bool, maintain: bool, exit: seq<RuleItem>)

  const PCP_TUNNEL: Word := {0, 1}        // 3
  const PCP_TUNNEL_REVERSE: Word := {2}   // 4

  // ---------------------------------------------------------------------------------------------
  // From rules to actions
  // ---------------------------------------------------------------------------------------------

  function Pushes(vids: seq<Word>): (r: seq<Action>) {
    if vids == [] then [] else [PushVlan, SetField(VlanVid, vids[0] + VID_PRESENT)] + Pushes(vids[1..])
  }

  function Pops(count: nat): (r: seq<Action>) {
    if count == 0 then [] else [PopVlan] + Pops(count - 1)
  }

  function ItemActions(item: RuleItem): (r: seq<Action>) {
    match item
    case VlanVids(vids) => Pushes(vids)
    case SetPcp(pcp) => [SetField(VlanPcp, pcp)]
    case ToPort(port) => [Output(port)]
    case PopVlans(count) => Pops(count)
    case GotoId(_) => []
  }

  function Actions(items: seq<RuleItem>): (r: seq<Action>) {
    if items == [] then [] else ItemActions(items[0]) + Actions(items[1..])
  }

  function Gotos(items: seq<RuleItem>): (r: seq<TableId>) {
    if items == [] then []
    else if items[0].GotoId? then [items[0].tableId] + Gotos(items[1..])
    else Gotos(items[1..])
  }

  // What a switch does with a packet under a rule list: outputs, the packet left, and where it goes on.
  datatype Ran = Ran(outs: Outputs<Packet>, pkt: Packet, gotos: seq<TableId>)

  function RunRules(pkt: Packet, items: seq<RuleItem>): (r: Result<Ran>) {
    match ProcessInstruction(map[], pkt, Actions(items))
    case Ok(st) => Ok(Ran(st.outs, st.pkt, Gotos(items)))
    case Raised => Raised
  }

  // ---------------------------------------------------------------------------------------------
  // The rule lists
  // ---------------------------------------------------------------------------------------------

  function PcpFlag(dest: TunnelDest): (r: Word) {
    if dest.reverse then PCP_TUNNEL_REVERSE else PCP_TUNNEL
  }

  function Encapsulate(dest: TunnelDest, id: TunnelId): (r: seq<RuleItem>) {
    [VlanVids([id]), SetPcp(PcpFlag(dest))]
  }

  function Leave(outPort: Option<PortNo>, outputTable: TableId): (r: RuleItem) {
    match outPort case Some(port) => ToPort(port) case None => GotoId(outputTable)
  }

  function AtSource(dest: TunnelDest, id: TunnelId, outPort: PortNo): (r: seq<RuleItem>) {
    Encapsulate(dest, id) + [ToPort(outPort), PopVlans(1)]
  }

  function AtDestination(dest: TunnelDest, outPort: Option<PortNo>, outputTable: TableId): (r: seq<RuleItem>) {
    (if dest.maintain then [] else [PopVlans(1)]) + dest.exit + [Leave(outPort, outputTable)]
  }

  function AtSingle(dest: TunnelDest, id: TunnelId, outPort: Option<PortNo>, outputTable: TableId): (r: seq<RuleItem>) {
    dest.exit + (if dest.maintain then Encapsulate(dest, id) else []) + [Leave(outPort, outputTable)]
  }

  /** Callers leave the port out only at the destination, for a tunnel that ends at the switch itself. */
  function SourceRules(curr: DpName, src: DpName, dest: TunnelDest, id: TunnelId,
                       outPort: Option<PortNo>, outputTable: TableId): (r: seq<RuleItem>)
    requires curr != dest.dstDp ==> outPort.Some?
  {
    if curr == src && curr != dest.dstDp then AtSource(dest, id, outPort.value)
    else if curr == dest.dstDp && curr != src then AtDestination(dest, outPort, outputTable)
    else if curr == src then AtSingle(dest, id, outPort, outputTable)
    else [ToPort(outPort.value)]
  }

  function ReverseRules(curr: DpName, src: DpName, dest: TunnelDest,
                        outPort: Option<PortNo>, outputTable: TableId): (r: seq<RuleItem>)
    requires curr != src ==> outPort.Some?
  {
    if curr == src then [PopVlans(1), Leave(outPort, outputTable)] else [ToPort(outPort.value)]
  }

  /** The rules an ACL keeps for each tunnel and source. */
  class Acl {
    const tunnelSources: map<SourceId, DpName>
    const tunnelDests: map<TunnelId, TunnelDest>
    var dynTunnelRules: map<TunnelId, map<SourceId, seq<RuleItem>>>
    var dynReverseTunnelRules: map<TunnelId, map<SourceId, seq<RuleItem>>>

    constructor (sources: map<SourceId, DpName>, dests: map<TunnelId, TunnelDest>)
      ensures tunnelSources == sources && tunnelDests == dests
      ensures dynTunnelRules == (map id | id in dests :: map[])
      ensures dynReverseTunnelRules == (map id | id in dests :: map[])
    {
      tunnelSources, tunnelDests := sources, dests;
      dynTunnelRules := map id | id in dests :: map[];
      dynReverseTunnelRules := map id | id in dests :: map[];
    }

    method UpdateSourceTunnelRules(currDp: DpName, source: SourceId, id: TunnelId,
                                   outPort: Option<PortNo>, outputTable: TableId)
      returns (updated: bool)
      requires source in tunnelSources && id in tunnelDests && id in dynTunnelRules
      requires currDp != tunnelDests[id].dstDp ==> outPort.Some?
      modifies `dynTunnelRules
      ensures updated
      ensures dynTunnelRules == old(dynTunnelRules)[id := old(dynTunnelRules)[id][source :=
                SourceRules(currDp, tunnelSources[source], tunnelDests[id], id, outPort, outputTable)]]
    {
      var srcDp, dest := tunnelSources[source], tunnelDests[id];
      var rules := dynTunnelRules[id];
      var prevList := if source in rules then rules[source] else [];
      var newList: seq<RuleItem> := [];
      if currDp == srcDp && currDp != dest.dstDp {
        newList := [VlanVids([id]), SetPcp(PcpFlag(dest)), ToPort(outPort.value), PopVlans(1)];
        assert newList == AtSource(dest, id, outPort.value);
      } else if currDp == dest.dstDp && currDp != srcDp {
        if !dest.maintain {
          newList := [PopVlans(1)];
        }
        newList := newList + dest.exit;
        newList := newList + [Leave(outPort, outputTable)];
      } else if currDp == srcDp && currDp == dest.dstDp {
        newList := newList + dest.exit;
        if dest.maintain {
          newList := newList + [VlanVids([id]), SetPcp(PcpFlag(dest))];
        }
        newList := newList + [Leave(outPort, outputTable)];
        assert newList == AtSingle(dest, id, outPort, outputTable);
      } else {
        newList := [ToPort(outPort.value)];
      }
      assert newList == SourceRules(currDp, srcDp, dest, id, outPort, outputTable) && newList != [];
      if newList != prevList {
        dynTunnelRules := dynTunnelRules[id := rules[source := newList]];
      } else {
        assert rules == rules[source := newList];
        assert dynTunnelRules == dynTunnelRules[id := rules];
      }
      return true;
    }

    method UpdateReverseTunnelRules(currDp: DpName, source: SourceId, id: TunnelId,
                                    outPort: Option<PortNo>, outputTable: TableId)
      returns (updated: bool)
      requires source in tunnelSources && id in tunnelDests && id in dynReverseTunnelRules
      requires currDp != tunnelSources[source] ==> outPort.Some?
      modifies `dynReverseTunnelRules
      ensures updated == tunnelDests[id].biDirectional
      ensures dynReverseTunnelRules ==
              if updated then
                old(dynReverseTunnelRules)[id := old(dynReverseTunnelRules)[id][source :=
                  ReverseRules(currDp, tunnelSources[source], tunnelDests[id], outPort, outputTable)]]
              else old(dynReverseTunnelRules)
    {
      if !tunnelDests[id].biDirectional {
        return false;
      }
      var dstDp, srcDp := tunnelSources[source], tunnelDests[id].dstDp;
      var rules := dynReverseTunnelRules[id];
      var prevList := if source in rules then rules[source] else [];
      var newList: seq<RuleItem>;
      if currDp == srcDp && currDp != dstDp {
        newList := [ToPort(outPort.value)];
      } else if currDp == dstDp && currDp != srcDp {
        newList := [PopVlans(1)] + [Leave(outPort, outputTable)];
      } else if currDp == srcDp && currDp == dstDp {
        newList := [PopVlans(1)] + [Leave(outPort, outputTable)];
      } else {
        newList := [ToPort(outPort.value)];
      }
      assert newList == ReverseRules(currDp, dstDp, tunnelDests[id], outPort, outputTable);
      if newList != prevList {
        dynReverseTunnelRules := dynReverseTunnelRules[id := rules[source := newList]];
      } else {
        assert rules == rules[source := newList];
        assert dynReverseTunnelRules == dynReverseTunnelRules[id := rules];
      }
      return true;
    }
  }

  // ---------------------------------------------------------------------------------------------
  // Running rule lists
  // ---------------------------------------------------------------------------------------------

  lemma {:induction false} ActionsConcat(a: seq<RuleItem>, b: seq<RuleItem>)
    ensures Actions(a + b) == Actions(a) + Actions(b)
  {
    if a == [] {
      assert a + b == b && [] + Actions(b) == Actions(b);
    } else {
      assert (a + b)[1..] == a[1..] + b && (a + b)[0] == a[0];
      ActionsConcat(a[1..], b);
      assert ItemActions(a[0]) + (Actions(a[1..]) + Actions(b)) == (ItemActions(a[0]) + Actions(a[1..])) + Actions(b);
    }
  }

  lemma {:induction false} GotosConcat(a: seq<RuleItem>, b: seq<RuleItem>)
    ensures Gotos(a + b) == Gotos(a) + Gotos(b)
  {
    if a == [] {
      assert a + b == b && [] + Gotos(b) == Gotos(b);
    } else {
      assert (a + b)[1..] == a[1..] + b && (a + b)[0] == a[0];
      GotosConcat(a[1..], b);
    }
  }

  lemma {:induction false} RunConcat(st: ActionState, a: seq<Action>, b: seq<Action>)
    ensures RunActions(map[], {}, st, a + b) ==
            match RunActions(map[], {}, st, a)
            case Ok(mid) => RunActions(map[], {}, mid, b)
            case Raised => Raised
    decreases |a|
  {
    if a == [] {
      assert a + b == b;
    } else {
      assert (a + b)[1..] == a[1..] + b && (a + b)[0] == a[0];
      var r := ActOn(map[], {}, st, a[0]);
      if r.Ok? {
        RunConcat(r.value, a[1..], b);
      }
    }
  }

  /** The pending actions are only remembered; they influence neither outputs nor packet. */
  lemma {:induction false} PendingIsIrrelevant(st: ActionState, su: ActionState, actions: seq<Action>)
    requires st.outs == su.outs && st.pkt == su.pkt
    ensures
      var r, q := RunActions(map[], {}, st, actions), RunActions(map[], {}, su, actions);
      (r.Ok? <==> q.Ok?) && (r.Ok? ==> r.value.outs == q.value.outs && r.value.pkt == q.value.pkt)
    decreases |actions|
  {
    if actions != [] {
      var r, q := ActOn(map[], {}, st, actions[0]), ActOn(map[], {}, su, actions[0]);
      if r.Ok? {
        PendingIsIrrelevant(r.value, q.value, actions[1..]);
      }
    }
  }

  /** Rules run before the first output only prepare the packet for the rest. */
  lemma RunsAfter(pkt: Packet, a: seq<RuleItem>, b: seq<RuleItem>, mid: Packet)
    requires ProcessInstruction(map[], pkt, Actions(a)).Ok?
    requires ProcessInstruction(map[], pkt, Actions(a)).value.outs == []
    requires ProcessInstruction(map[], pkt, Actions(a)).value.pkt == mid
    requires Gotos(a) == []
    ensures RunRules(pkt, a + b) == RunRules(mid, b)
  {
    ActionsConcat(a, b);
    GotosConcat(a, b);
    RunConcat(ActionState([], pkt, []), Actions(a), Actions(b));
    assert [] + Gotos(b) == Gotos(b);
    var st := ProcessInstruction(map[], pkt, Actions(a)).value;
    PendingIsIrrelevant(st, ActionState([], mid, []), Actions(b));
  }

  function Encapsulated(pkt: Packet, dest: TunnelDest, id: TunnelId): (r: Packet) {
    PushedVlan(pkt)[VlanVid := id + VID_PRESENT][VlanPcp := PcpFlag(dest)]
  }

  lemma EncapsulateRuns(pkt: Packet, dest: TunnelDest, id: TunnelId)
    ensures
      var actions := [PushVlan, SetField(VlanVid, id + VID_PRESENT), SetField(VlanPcp, PcpFlag(dest))];
      Actions(Encapsulate(dest, id)) == actions && Gotos(Encapsulate(dest, id)) == [] &&
      ProcessInstruction(map[], pkt, actions) == Ok(ActionState([], Encapsulated(pkt, dest, id), actions))
  {
    var push, vid, pcp := PushVlan, SetField(VlanVid, id + VID_PRESENT), SetField(VlanPcp, PcpFlag(dest));
    var items := Encapsulate(dest, id);
    assert items[1..] == [SetPcp(PcpFlag(dest))] && items[1..][1..] == [];
    assert Gotos([SetPcp(PcpFlag(dest))]) == Gotos([]) == [];
    assert Gotos(items) == Gotos(items[1..]);
    assert [id][1..] == [] && Pushes([id]) == [push, vid] + [] == [push, vid];
    assert Actions([SetPcp(PcpFlag(dest))]) == [pcp] + Actions([]) == [pcp];
    assert Actions(items) == [push, vid] + [pcp] == [push, vid, pcp];
    assert [push, vid, pcp][1..] == [vid, pcp] && [vid, pcp][1..] == [pcp] && [pcp][1..] == [];
    var s0 := ActionState([], pkt, []);
    var s1 := ActionState([], PushedVlan(pkt), [push]);
    var s2 := ActionState([], PushedVlan(pkt)[VlanVid := id + VID_PRESENT], [push, vid]);
    var s3 := ActionState([], Encapsulated(pkt, dest, id), [push, vid, pcp]);
    assert [] + [push] == [push] && [push] + [vid] == [push, vid] && [push, vid] + [pcp] == [push, vid, pcp];
    assert ActOn(map[], {}, s0, push) == Ok(s1) && ActOn(map[], {}, s1, vid) == Ok(s2);
    assert ActOn(map[], {}, s2, pcp) == Ok(s3);
    assert RunActions(map[], {}, s3, []) == Ok(s3);
    assert RunActions(map[], {}, s2, [pcp]) == Ok(s3);
    assert RunActions(map[], {}, s1, [vid, pcp]) == Ok(s3);
  }

  /** The new outer tag and priority, the tag below it, and nothing else. */
  lemma EncapsulatedFields(pkt: Packet, dest: TunnelDest, id: TunnelId)
    ensures
      var q := Encapsulated(pkt, dest, id);
      && StepMeaning.Holds(q, VlanVid, id + {12})
      && StepMeaning.Holds(q, VlanPcp, if dest.reverse then {2} else {0, 1})
      && (VlanVid in pkt && 12 in pkt[VlanVid] ==> StepMeaning.Holds(q, EncapVid, pkt[VlanVid]))
      && (!(VlanVid in pkt && 12 in pkt[VlanVid]) ==> StepMeaning.AgreeAt(pkt, q, EncapVid))
      && StepMeaning.AgreeBut(pkt, q, {VlanVid, VlanPcp, EncapVid})
  {
    StepMeaning.PushRewrites(pkt);
  }

  lemma PopRuns(pkt: Packet)
    requires VlanVid in pkt
    ensures Actions([PopVlans(1)]) == [PopVlan] && Gotos([PopVlans(1)]) == []
    ensures ProcessInstruction(map[], pkt, [PopVlan]) == Ok(ActionState([], PoppedVlan(pkt), [PopVlan]))
  {
    assert [PopVlans(1)][1..] == [] && Pops(1) == [PopVlan] + Pops(0);
    assert [PopVlan][1..] == [] && [] + [PopVlan] == [PopVlan];
    assert RunActions(map[], {}, ActionState([], PoppedVlan(pkt), [PopVlan]), []).Ok?;
  }

  lemma OutputRuns(pkt: Packet, port: PortNo)
    ensures Actions([ToPort(port)]) == [Output(port)] && Gotos([ToPort(port)]) == []
    ensures RunRules(pkt, [ToPort(port)]) == Ok(Ran([PortPackets(port, [pkt])], pkt, []))
  {
    assert [ToPort(port)][1..] == [] && [Output(port)][1..] == [];
    var st := ActionState([PortPackets(port, [pkt])], pkt, []);
    assert ActOn(map[], {}, ActionState([], pkt, []), Output(port)) == Ok(st);
    assert RunActions(map[], {}, st, []) == Ok(st);
  }

  /** The source puts out one encapsulated copy and pops the tag off what it keeps. */
  lemma SourceRuns(pkt: Packet, dest: TunnelDest, id: TunnelId, port: PortNo)
    ensures RunRules(pkt, AtSource(dest, id, port)) ==
            Ok(Ran([PortPackets(port, [Encapsulated(pkt, dest, id)])], PoppedVlan(Encapsulated(pkt, dest, id)), []))
  {
    var enc := Encapsulated(pkt, dest, id);
    EncapsulateRuns(pkt, dest, id);
    var rest := [ToPort(port), PopVlans(1)];
    RunsAfter(pkt, Encapsulate(dest, id), rest, enc);
    assert rest == [ToPort(port)] + [PopVlans(1)];
    ActionsConcat([ToPort(port)], [PopVlans(1)]);
    GotosConcat([ToPort(port)], [PopVlans(1)]);
    OutputRuns(enc, port);
    PopRuns(enc);
    RunConcat(ActionState([], enc, []), [Output(port)], [PopVlan]);
    var st := ProcessInstruction(map[], enc, [Output(port)]).value;
    var popped := ActionState(st.outs, PoppedVlan(enc), st.pending + [PopVlan]);
    assert [PopVlan][1..] == [];
    assert RunActions(map[], {}, popped, []) == Ok(popped);
    assert RunActions(map[], {}, st, [PopVlan]) == Ok(popped);
  }

  /** The packets encapsulation gives back: see PushPopRestoresIff. */
  predicate Restorable(pkt: Packet) {
    VlanVid in pkt && EncapVid !in pkt && VlanPcp !in pkt && (Tagged(pkt[VlanVid]) || pkt[VlanVid] == {})
  }

  /** What stays at the source, and what the far end pops, is the original packet exactly for these. */
  lemma DecapsulationRestoresIff(pkt: Packet, dest: TunnelDest, id: TunnelId)
    ensures PoppedVlan(Encapsulated(pkt, dest, id)) == pkt <==> Restorable(pkt)
  {
    var enc := Encapsulated(pkt, dest, id);
    var r := PoppedVlan(enc);
    assert VlanVid in r && EncapVid !in r && VlanPcp !in r;
    if VlanVid in pkt && EncapVid !in pkt && VlanPcp !in pkt {
      assert r.Keys == pkt.Keys;
      assert forall k | k in pkt && k != VlanVid :: r[k] == pkt[k];
      assert r[VlanVid] == if Tagged(pkt[VlanVid]) then pkt[VlanVid] else {};
    }
  }

  lemma EncapsulatedTags(pkt: Packet, dest: TunnelDest, id: TunnelId)
    requires WellTagged(pkt) && |Tags(pkt)| < 2
    ensures WellTagged(Encapsulated(pkt, dest, id))
    ensures Tags(Encapsulated(pkt, dest, id)) == [id + VID_PRESENT] + Tags(pkt)
  {
    PushRefines(pkt);
    assert 12 in (id + VID_PRESENT) * VID_PRESENT;
    SetTopRefines(PushedVlan(pkt), id + VID_PRESENT);
  }

  // ---------------------------------------------------------------------------------------------
  // Across the stack
  // ---------------------------------------------------------------------------------------------

  /** The one packet a switch puts out, arriving at the next switch by the given port. */
  function NextHop(r: Result<Ran>, inPort: PortNo): (next: Result<Packet>) {
    if r.Ok? && |r.value.outs| == 1 && |r.value.outs[0].pkts| == 1
    then Ok(r.value.outs[0].pkts[0][InPort := inPort])
    else Raised
  }

  /** A packet sent through the rule lists of successive switches; inPorts name where it arrives. */
  function Travel(pkt: Packet, switches: seq<seq<RuleItem>>, inPorts: seq<PortNo>): (r: Result<Ran>)
    requires |switches| == |inPorts| + 1
    decreases |inPorts|
  {
    if inPorts == [] then RunRules(pkt, switches[0])
    else match NextHop(RunRules(pkt, switches[0]), inPorts[0])
      case Ok(next) => Travel(next, switches[1..], inPorts[1..])
      case Raised => Raised
  }

  function Transits(outPorts: seq<PortNo>): (r: seq<seq<RuleItem>>)
    ensures |r| == |outPorts|
  {
    seq(|outPorts|, i requires 0 <= i < |outPorts| => [ToPort(outPorts[i])])
  }

  /** Transit switches change nothing but the ingress port. */
  lemma {:induction false} TransitsCarry(pkt: Packet, outPorts: seq<PortNo>, last: seq<RuleItem>, inPorts: seq<PortNo>)
    requires |inPorts| == |outPorts|
    ensures
      var arrived := if inPorts == [] then pkt else pkt[InPort := inPorts[|inPorts| - 1]];
      Travel(pkt, Transits(outPorts) + [last], inPorts) == RunRules(arrived, last)
    decreases |outPorts|
  {
    var switches := Transits(outPorts) + [last];
    if outPorts == [] {
      assert switches == [last];
    } else {
      OutputRuns(pkt, outPorts[0]);
      assert switches[0] == [ToPort(outPorts[0])];
      assert switches[1..] == Transits(outPorts[1..]) + [last];
      var next := pkt[InPort := inPorts[0]];
      TransitsCarry(next, outPorts[1..], last, inPorts[1..]);
      if |inPorts| > 1 {
        assert next[InPort := inPorts[|inPorts| - 1]] == pkt[InPort := inPorts[|inPorts| - 1]];
      }
    }
  }

  /** The forward path: the source, any number of transit switches, the destination. */
  function ForwardPath(dest: TunnelDest, id: TunnelId, first: PortNo, transits: seq<PortNo>,
                       outPort: Option<PortNo>, outputTable: TableId): (r: seq<seq<RuleItem>>)
    ensures |r| == |transits| + 2
  {
    [AtSource(dest, id, first)] + Transits(transits) + [AtDestination(dest, outPort, outputTable)]
  }

  lemma ForwardReachesDestination(
    pkt: Packet, dest: TunnelDest, id: TunnelId, first: PortNo, transits: seq<PortNo>,
    outPort: Option<PortNo>, outputTable: TableId, inPorts: seq<PortNo>)
    requires |inPorts| == |transits| + 1
    ensures Travel(pkt, ForwardPath(dest, id, first, transits, outPort, outputTable), inPorts) ==
            RunRules(Encapsulated(pkt, dest, id)[InPort := inPorts[|inPorts| - 1]],
                     AtDestination(dest, outPort, outputTable))
  {
    var switches := ForwardPath(dest, id, first, transits, outPort, outputTable);
    var last := AtDestination(dest, outPort, outputTable);
    var enc := Encapsulated(pkt, dest, id);
    SourceRuns(pkt, dest, id, first);
    assert switches[1..] == Transits(transits) + [last];
    var next := enc[InPort := inPorts[0]];
    TransitsCarry(next, transits, last, inPorts[1..]);
    if |inPorts| > 1 {
      assert next[InPort := inPorts[|inPorts| - 1]] == enc[InPort := inPorts[|inPorts| - 1]];
    }
  }

  /**
   Over any number of switches a tunnel does to a restorable packet exactly what the same tunnel within
   one switch does to it on arrival: exit instructions on the original packet, then out or onwards.
   */
  lemma TunnelIsTransparent(
    pkt: Packet, dest: TunnelDest, id: TunnelId, first: PortNo, transits: seq<PortNo>,
    outPort: Option<PortNo>, outputTable: TableId, inPorts: seq<PortNo>)
    requires |inPorts| == |transits| + 1 && Restorable(pkt) && !dest.maintain
    ensures
      var arrived := pkt[InPort := inPorts[|inPorts| - 1]];
      Travel(pkt, ForwardPath(dest, id, first, transits, outPort, outputTable), inPorts) ==
      RunRules(arrived, AtSingle(dest, id, outPort, outputTable))
  {
    var port := inPorts[|inPorts| - 1];
    var enc := Encapsulated(pkt, dest, id)[InPort := port];
    var arrived := pkt[InPort := port];
    ForwardReachesDestination(pkt, dest, id, first, transits, outPort, outputTable, inPorts);
    DecapsulationRestoresIff(arrived, dest, id);
    assert enc == Encapsulated(arrived, dest, id);
    PopRuns(enc);
    var rest := dest.exit + [Leave(outPort, outputTable)];
    PlainLists(dest, id, outPort, outputTable);
    RunsAfter(enc, [PopVlans(1)], rest, arrived);
  }

  lemma PlainLists(dest: TunnelDest, id: TunnelId, outPort: Option<PortNo>, outputTable: TableId)
    requires !dest.maintain
    ensures AtDestination(dest, outPort, outputTable) == [PopVlans(1)] + (dest.exit + [Leave(outPort, outputTable)])
    ensures AtSingle(dest, id, outPort, outputTable) == dest.exit + [Leave(outPort, outputTable)]
  {
    assert dest.exit + [] == dest.exit;
  }

  /**
   When encapsulation is maintained, the far end runs the exit instructions and leaves with a packet that
   carries exactly one extra tag, the tunnel's.
   */
  lemma MaintainedTunnelKeepsOneTag(
    pkt: Packet, dest: TunnelDest, id: TunnelId, first: PortNo, transits: seq<PortNo>,
    outPort: Option<PortNo>, outputTable: TableId, inPorts: seq<PortNo>)
    requires |inPorts| == |transits| + 1 && dest.maintain
    requires WellTagged(pkt) && |Tags(pkt)| < 2
    ensures
      var tagged := Encapsulated(pkt[InPort := inPorts[|inPorts| - 1]], dest, id);
      && Travel(pkt, ForwardPath(dest, id, first, transits, outPort, outputTable), inPorts) ==
         RunRules(tagged, dest.exit + [Leave(outPort, outputTable)])
      && WellTagged(tagged) && Tags(tagged) == [id + VID_PRESENT] + Tags(pkt)
  {
    var inPort := inPorts[|inPorts| - 1];
    ForwardReachesDestination(pkt, dest, id, first, transits, outPort, outputTable, inPorts);
    ArrivesEncapsulated(pkt, dest, id, inPort);
    MaintainedList(dest, outPort, outputTable);
    ArrivedTags(pkt, dest, id, inPort);
  }

  lemma ArrivesEncapsulated(pkt: Packet, dest: TunnelDest, id: TunnelId, inPort: PortNo)
    ensures Encapsulated(pkt[InPort := inPort], dest, id) == Encapsulated(pkt, dest, id)[InPort := inPort]
  {
  }

  lemma MaintainedList(dest: TunnelDest, outPort: Option<PortNo>, outputTable: TableId)
    requires dest.maintain
    ensures AtDestination(dest, outPort, outputTable) == dest.exit + [Leave(outPort, outputTable)]
  {
    assert [] + dest.exit == dest.exit;
  }

  lemma ArrivedTags(pkt: Packet, dest: TunnelDest, id: TunnelId, inPort: PortNo)
    requires WellTagged(pkt) && |Tags(pkt)| < 2
    ensures
      var tagged := Encapsulated(pkt[InPort := inPort], dest, id);
      WellTagged(tagged) && Tags(tagged) == [id + VID_PRESENT] + Tags(pkt)
  {
    SetOtherRefines(pkt, InPort, inPort);
    EncapsulatedTags(pkt[InPort := inPort], dest, id);
  }

  /**
   A maintained tunnel within one switch runs the exit instructions before it encapsulates, so on the
   packet's own tags; at a destination they run on the tunnel's.
   */
  lemma MaintainedWithinOneSwitch(
    pkt: Packet, dest: TunnelDest, id: TunnelId, outPort: Option<PortNo>, outputTable: TableId, mid: ActionState)
    requires dest.maintain && Gotos(dest.exit) == []
    requires ProcessInstruction(map[], pkt, Actions(dest.exit)) == Ok(mid) && mid.outs == []
    ensures RunRules(pkt, AtSingle(dest, id, outPort, outputTable)) ==
            RunRules(Encapsulated(mid.pkt, dest, id), [Leave(outPort, outputTable)])
  {
    var leave := [Leave(outPort, outputTable)];
    assert AtSingle(dest, id, outPort, outputTable) == dest.exit + (Encapsulate(dest, id) + leave);
    RunsAfter(pkt, dest.exit, Encapsulate(dest, id) + leave, mid.pkt);
    EncapsulateRuns(mid.pkt, dest, id);
    RunsAfter(mid.pkt, Encapsulate(dest, id), leave, Encapsulated(mid.pkt, dest, id));
  }

  /** With a pop as exit instruction a destination takes the tunnel's tag off, a single switch the packet's own. */
  lemma MaintainedExitDiffers(pkt: Packet, dest: TunnelDest, id: TunnelId, port: PortNo, outputTable: TableId)
    requires dest.maintain && dest.exit == [PopVlans(1)]
    requires WellTagged(pkt) && |Tags(pkt)| == 1
    ensures
      var single := RunRules(pkt, AtSingle(dest, id, Some(port), outputTable));
      var far := RunRules(Encapsulated(pkt, dest, id), AtDestination(dest, Some(port), outputTable));
      && single.Ok? && Tags(single.value.pkt) == [id + VID_PRESENT]
      && far.Ok? && Tags(far.value.pkt) == Tags(pkt)
  {
    var enc, popped := Encapsulated(pkt, dest, id), PoppedVlan(pkt);
    PopRefines(pkt);
    PopRuns(pkt);
    MaintainedWithinOneSwitch(pkt, dest, id, Some(port), outputTable, ActionState([], popped, [PopVlan]));
    OutputRuns(Encapsulated(popped, dest, id), port);
    EncapsulatedTags(popped, dest, id);
    assert Tags(pkt)[1..] == [];
    EncapsulatedTags(pkt, dest, id);
    PopRefines(enc);
    PopRuns(enc);
    assert AtDestination(dest, Some(port), outputTable) == [PopVlans(1)] + [ToPort(port)];
    RunsAfter(enc, [PopVlans(1)], [ToPort(port)], PoppedVlan(enc));
    OutputRuns(PoppedVlan(enc), port);
  }

  // ---------------------------------------------------------------------------------------------
  // Exit instructions of a maintained tunnel
  // ---------------------------------------------------------------------------------------------

  /** Pops and priority settings only. */
  predicate TagItems(items: seq<RuleItem>) {
    forall i | 0 <= i < |items| :: items[i].PopVlans? || items[i].SetPcp?
  }

  function PopTotal(items: seq<RuleItem>): (r: nat) {
    if items == [] then 0
    else (if items[0].PopVlans? then items[0].count else 0) + PopTotal(items[1..])
  }

  function LastPcp(items: seq<RuleItem>): (r: Option<Word>) {
    if items == [] then None
    else if LastPcp(items[1..]).Some? then LastPcp(items[1..])
    else if items[0].SetPcp? then Some(items[0].pcp)
    else None
  }

  function WithPcp(pkt: Packet, pcp: Option<Word>): (r: Packet) {
    match pcp case Some(v) => pkt[VlanPcp := v] case None => pkt
  }

  /** The same on any packet, within one switch and at the far end of a path. */
  ghost predicate AlikeEverywhere(dest: TunnelDest, id: TunnelId) {
    forall pkt, outPort, outputTable ::
      RunRules(pkt, AtSingle(dest, id, outPort, outputTable)) ==
      RunRules(Encapsulated(pkt, dest, id), AtDestination(dest, outPort, outputTable))
  }

  lemma TagItemsTail(items: seq<RuleItem>)
    requires TagItems(items) && items != []
    ensures TagItems(items[1..]) && Gotos(items) == Gotos(items[1..])
    ensures Actions(items) == ItemActions(items[0]) + Actions(items[1..])
  {
    var tail := items[1..];
    assert forall i | 0 <= i < |tail| :: tail[i] == items[i + 1];
  }

  /** Without pops only the last priority setting counts. */
  lemma {:induction false} SettingsRun(st: ActionState, items: seq<RuleItem>)
    requires TagItems(items) && PopTotal(items) == 0
    ensures
      var r := RunActions(map[], {}, st, Actions(items));
      r.Ok? && r.value.outs == st.outs && r.value.pkt == WithPcp(st.pkt, LastPcp(items)) && Gotos(items) == []
    decreases |items|
  {
    if items != [] {
      TagItemsTail(items);
      var head := ItemActions(items[0]);
      RunConcat(st, head, Actions(items[1..]));
      if items[0].SetPcp? {
        assert head[1..] == [];
        var mid := ActOn(map[], {}, st, head[0]).value;
        assert RunActions(map[], {}, st, head) == Ok(mid);
        SettingsRun(mid, items[1..]);
      } else {
        assert head == [];
        SettingsRun(st, items[1..]);
      }
    }
  }

  lemma {:induction false} PopsRun(st: ActionState, count: nat)
    requires VlanVid in st.pkt
    ensures
      var r := RunActions(map[], {}, st, Pops(count));
      r.Ok? && VlanVid in r.value.pkt
    decreases count
  {
    if count > 0 {
      assert Pops(count)[0] == PopVlan && Pops(count)[1..] == Pops(count - 1);
      PopsRun(ActOn(map[], {}, st, PopVlan).value, count - 1);
    }
  }

  /** A packet with a vlan_vid field survives any number of pops. */
  lemma {:induction false} TagItemsRun(st: ActionState, items: seq<RuleItem>)
    requires TagItems(items) && VlanVid in st.pkt
    ensures RunActions(map[], {}, st, Actions(items)).Ok?
    decreases |items|
  {
    if items != [] {
      TagItemsTail(items);
      var head := ItemActions(items[0]);
      RunConcat(st, head, Actions(items[1..]));
      if items[0].SetPcp? {
        assert head[1..] == [];
        TagItemsRun(ActOn(map[], {}, st, head[0]).value, items[1..]);
      } else {
        PopsRun(st, items[0].count);
        TagItemsRun(RunActions(map[], {}, st, head).value, items[1..]);
      }
    }
  }

  /** One without it does not survive the first. */
  lemma {:induction false} FirstPopRaises(st: ActionState, items: seq<RuleItem>)
    requires TagItems(items) && PopTotal(items) > 0 && VlanVid !in st.pkt
    ensures RunActions(map[], {}, st, Actions(items)).Raised?
    decreases |items|
  {
    TagItemsTail(items);
    var head := ItemActions(items[0]);
    RunConcat(st, head, Actions(items[1..]));
    if items[0].SetPcp? {
      assert head[1..] == [];
      FirstPopRaises(ActOn(map[], {}, st, head[0]).value, items[1..]);
    } else if items[0].count > 0 {
      assert head[0] == PopVlan;
    } else {
      assert head == [];
      FirstPopRaises(st, items[1..]);
    }
  }

  lemma SettingsWithinOneSwitch(
    pkt: Packet, dest: TunnelDest, id: TunnelId, outPort: Option<PortNo>, outputTable: TableId)
    requires dest.maintain && TagItems(dest.exit) && PopTotal(dest.exit) == 0
    ensures RunRules(pkt, AtSingle(dest, id, outPort, outputTable)) ==
            RunRules(Encapsulated(pkt, dest, id), [Leave(outPort, outputTable)])
  {
    var st := ActionState([], pkt, []);
    SettingsRun(st, dest.exit);
    var mid := RunActions(map[], {}, st, Actions(dest.exit)).value;
    MaintainedWithinOneSwitch(pkt, dest, id, outPort, outputTable, mid);
    assert Encapsulated(WithPcp(pkt, LastPcp(dest.exit)), dest, id) == Encapsulated(pkt, dest, id);
  }

  lemma SettingsAtDestination(
    pkt: Packet, dest: TunnelDest, outPort: Option<PortNo>, outputTable: TableId)
    requires dest.maintain && TagItems(dest.exit) && PopTotal(dest.exit) == 0
    ensures RunRules(pkt, AtDestination(dest, outPort, outputTable)) ==
            RunRules(WithPcp(pkt, LastPcp(dest.exit)), [Leave(outPort, outputTable)])
  {
    SettingsRun(ActionState([], pkt, []), dest.exit);
    MaintainedList(dest, outPort, outputTable);
    RunsAfter(pkt, dest.exit, [Leave(outPort, outputTable)], WithPcp(pkt, LastPcp(dest.exit)));
  }

  lemma PopsTellApart(dest: TunnelDest, id: TunnelId)
    requires dest.maintain && TagItems(dest.exit) && PopTotal(dest.exit) > 0
    ensures !AlikeEverywhere(dest, id)
  {
    var pkt: Packet := map[];
    var enc := Encapsulated(pkt, dest, id);
    var st := ActionState([], pkt, []);
    FirstPopRaises(st, dest.exit);
    var rest := Encapsulate(dest, id) + [Leave(None, 0)];
    assert AtSingle(dest, id, None, 0) == dest.exit + rest;
    ActionsConcat(dest.exit, rest);
    RunConcat(st, Actions(dest.exit), Actions(rest));
    assert RunRules(pkt, AtSingle(dest, id, None, 0)).Raised?;
    var far := ActionState([], enc, []);
    TagItemsRun(far, dest.exit);
    MaintainedList(dest, None, 0);
    ActionsConcat(dest.exit, [Leave(None, 0)]);
    assert [GotoId(0)][1..] == [] && Actions([Leave(None, 0)]) == [];
    assert Actions(dest.exit) + [] == Actions(dest.exit);
    assert RunRules(enc, AtDestination(dest, None, 0)).Ok?;
  }

  /**
   Among exit lists of pops and priority settings a maintained tunnel does the same within one switch as
   at a destination exactly for those that pop nothing and finally set no priority but the tunnel's.
   */
  lemma MaintainedAlikeIff(dest: TunnelDest, id: TunnelId)
    requires dest.maintain && TagItems(dest.exit)
    ensures AlikeEverywhere(dest, id) <==>
              PopTotal(dest.exit) == 0 && LastPcp(dest.exit) in {None, Some(PcpFlag(dest))}
  {
    if PopTotal(dest.exit) > 0 {
      PopsTellApart(dest, id);
    } else {
      forall pkt, outPort, outputTable
        ensures RunRules(pkt, AtSingle(dest, id, outPort, outputTable)) ==
                RunRules(Encapsulated(pkt, dest, id), [Leave(outPort, outputTable)])
        ensures RunRules(Encapsulated(pkt, dest, id), AtDestination(dest, outPort, outputTable)) ==
                RunRules(WithPcp(Encapsulated(pkt, dest, id), LastPcp(dest.exit)), [Leave(outPort, outputTable)])
      {
        SettingsWithinOneSwitch(pkt, dest, id, outPort, outputTable);
        SettingsAtDestination(Encapsulated(pkt, dest, id), dest, outPort, outputTable);
      }
      if LastPcp(dest.exit) !in {None, Some(PcpFlag(dest))} {
        LastPcpTells(dest, id);
      } else {
        forall pkt ensures WithPcp(Encapsulated(pkt, dest, id), LastPcp(dest.exit)) == Encapsulated(pkt, dest, id) {
        }
      }
    }
  }

  lemma LastPcpTells(dest: TunnelDest, id: TunnelId)
    requires LastPcp(dest.exit).Some? && LastPcp(dest.exit).value != PcpFlag(dest)
    ensures
      var enc := Encapsulated(map[], dest, id);
      RunRules(enc, [Leave(None, 0)]) != RunRules(WithPcp(enc, LastPcp(dest.exit)), [Leave(None, 0)])
  {
    var enc := Encapsulated(map[], dest, id);
    LeaveRuns(enc, None, 0);
    LeaveRuns(WithPcp(enc, LastPcp(dest.exit)), None, 0);
    assert enc[VlanPcp] == PcpFlag(dest);
  }

  /** Whatever the packet, the far end runs the exit instructions and leaves with the original's tag stack. */
  lemma TunnelDeliversTags(
    pkt: Packet, dest: TunnelDest, id: TunnelId, first: PortNo, transits: seq<PortNo>,
    outPort: Option<PortNo>, outputTable: TableId, inPorts: seq<PortNo>)
    requires |inPorts| == |transits| + 1 && !dest.maintain
    requires WellTagged(pkt) && |Tags(pkt)| < 2
    ensures
      var bare := PoppedVlan(Encapsulated(pkt[InPort := inPorts[|inPorts| - 1]], dest, id));
      && Travel(pkt, ForwardPath(dest, id, first, transits, outPort, outputTable), inPorts) ==
         RunRules(bare, dest.exit + [Leave(outPort, outputTable)])
      && WellTagged(bare) && Tags(bare) == Tags(pkt)
  {
    var inPort := inPorts[|inPorts| - 1];
    var enc := Encapsulated(pkt, dest, id)[InPort := inPort];
    ForwardReachesDestination(pkt, dest, id, first, transits, outPort, outputTable, inPorts);
    ArrivesEncapsulated(pkt, dest, id, inPort);
    ArrivedTags(pkt, dest, id, inPort);
    PopRefines(enc);
    PopRuns(enc);
    PlainLists(dest, id, outPort, outputTable);
    RunsAfter(enc, [PopVlans(1)], dest.exit + [Leave(outPort, outputTable)], PoppedVlan(enc));
  }

  /** The way back: a packet that enters carrying the tunnel's tag leaves without it. */
  lemma ReversePathRemovesTag(
    pkt: Packet, first: PortNo, transits: seq<PortNo>, outPort: Option<PortNo>, outputTable: TableId,
    inPorts: seq<PortNo>)
    requires |inPorts| == |transits| + 1 && WellTagged(pkt) && Tags(pkt) != []
    ensures
      var path := Transits([first] + transits) + [[PopVlans(1), Leave(outPort, outputTable)]];
      var bare := PoppedVlan(pkt[InPort := inPorts[|inPorts| - 1]]);
      && Travel(pkt, path, inPorts) == RunRules(bare, [Leave(outPort, outputTable)])
      && WellTagged(bare) && Tags(bare) == Tags(pkt)[1..]
  {
    var inPort := inPorts[|inPorts| - 1];
    var last := [PopVlans(1), Leave(outPort, outputTable)];
    TransitsCarry(pkt, [first] + transits, last, inPorts);
    SetOtherRefines(pkt, InPort, inPort);
    var arrived := pkt[InPort := inPort];
    PopRefines(arrived);
    PopRuns(arrived);
    assert last == [PopVlans(1)] + [Leave(outPort, outputTable)];
    RunsAfter(arrived, [PopVlans(1)], [Leave(outPort, outputTable)], PoppedVlan(arrived));
  }

  /** Leaving puts out the packet by the port, or sends it on to the output table, as it is. */
  lemma LeaveRuns(pkt: Packet, outPort: Option<PortNo>, outputTable: TableId)
    ensures RunRules(pkt, [Leave(outPort, outputTable)]) ==
            Ok(match outPort
               case Some(port) => Ran([PortPackets(port, [pkt])], pkt, [])
               case None => Ran([], pkt, [outputTable]))
  {
    match outPort
    case Some(port) => OutputRuns(pkt, port);
    case None =>
      assert [GotoId(outputTable)][1..] == [];
      assert Actions([GotoId(outputTable)]) == [] && Gotos([GotoId(outputTable)]) == [outputTable];
  }

  /** The lists used above are the ones the ACL builds at each switch of the path. */
  lemma PathRulesAreTheAcls(
    src: DpName, transit: DpName, dest: TunnelDest, id: TunnelId, port: PortNo, last: Option<PortNo>,
    outputTable: TableId)
    requires src != dest.dstDp && transit != src && transit != dest.dstDp
    ensures SourceRules(src, src, dest, id, Some(port), outputTable) == AtSource(dest, id, port)
    ensures SourceRules(transit, src, dest, id, Some(port), outputTable) == Transits([port])[0]
    ensures SourceRules(dest.dstDp, src, dest, id, last, outputTable) == AtDestination(dest, last, outputTable)
    ensures ReverseRules(dest.dstDp, src, dest, Some(port), outputTable) == Transits([port])[0]
    ensures ReverseRules(transit, src, dest, Some(port), outputTable) == Transits([port])[0]
    ensures ReverseRules(src, src, dest, last, outputTable) == [PopVlans(1), Leave(last, outputTable)]
  {
  }
}
