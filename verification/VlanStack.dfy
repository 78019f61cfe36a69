/** The vlan_vid and encap_vid fields of a packet behave as a stack of at most two VLAN tags. */
module VlanStack {
  import opened Packets
  import opened Pipeline

  // The tag values, outermost first.
  type Stack = seq<Word>

  function Tags(pkt: Packet): (r: Stack) {
    if VlanVid in pkt && Tagged(pkt[VlanVid])
    then [pkt[VlanVid]] + (if EncapVid in pkt then [pkt[EncapVid]] else [])
    else []
  }

  /** An encapsulated tag sits below an outer one. */
  predicate WellTagged(pkt: Packet) {
    EncapVid in pkt ==> Tagged(pkt[EncapVid]) && VlanVid in pkt && Tagged(pkt[VlanVid])
  }

  function TagLists(pkts: seq<Packet>): (r: seq<Stack>) {
    seq(|pkts|, i requires 0 <= i < |pkts| => Tags(pkts[i]))
  }

  function TagOutputs(o: Outputs<Packet>): (r: Outputs<Stack>) {
    if o == [] then []
    else [PortPackets(o[0].port, TagLists(o[0].pkts))] + TagOutputs(o[1..])
  }

  // ---------------------------------------------------------------------------------------------
  // The abstract machine
  // ---------------------------------------------------------------------------------------------

  datatype StackState = StackState(outs: Outputs<Stack>, stack: Stack)

  /** Raises, besides where the original does, on a third tag and on popping or setting no tag. */
  function StackAct(groups: Groups, active: set<GroupId>, st: StackState, action: Action): (r: Result<StackState>)
    decreases groups.Keys - active, 0, 0
  {
    match action
    case Output(port) => Ok(StackState(Extend(st.outs, port, [st.stack]), st.stack))
    case SetField(key, value) =>
      if key == VlanVid then
        if st.stack != [] && Tagged(value) then Ok(st.(stack := [value] + st.stack[1..])) else Raised
      else if key == EncapVid then Raised
      else Ok(st)
    case PushVlan => if |st.stack| < 2 then Ok(st.(stack := [VID_PRESENT] + st.stack)) else Raised
    case PopVlan => if st.stack != [] then Ok(st.(stack := st.stack[1..])) else Raised
    case Group(id) =>
      if id !in groups || id in active then Raised
      else StackBuckets(groups, active + {id}, st, groups[id])
    case OtherAction => Ok(st)
  }

  function StackRun(groups: Groups, active: set<GroupId>, st: StackState, actions: seq<Action>): (r: Result<StackState>)
    decreases groups.Keys - active, 1, |actions|
  {
    if actions == [] then Ok(st)
    else match StackAct(groups, active, st, actions[0])
      case Ok(st') => StackRun(groups, active, st', actions[1..])
      case Raised => Raised
  }

  function StackBuckets(groups: Groups, active: set<GroupId>, st: StackState, buckets: Buckets): (r: Result<StackState>)
    decreases groups.Keys - active, 2, |buckets|
  {
    if buckets == [] then Ok(st)
    else match StackRun(groups, active, StackState([], st.stack), buckets[0])
      case Ok(b) => StackBuckets(groups, active, StackState(ExtendAll(st.outs, b.outs), st.stack), buckets[1..])
      case Raised => Raised
  }

  // ---------------------------------------------------------------------------------------------
  // Refinement
  // ---------------------------------------------------------------------------------------------

  ghost predicate Refines(st: ActionState, abs: StackState) {
    WellTagged(st.pkt) && Tags(st.pkt) == abs.stack && TagOutputs(st.outs) == abs.outs
  }

  lemma TagListsConcat(a: seq<Packet>, b: seq<Packet>)
    ensures TagLists(a + b) == TagLists(a) + TagLists(b)
  {
  }

  lemma TagOutputsCons(x: PortPackets<Packet>, o: Outputs<Packet>)
    ensures TagOutputs([x] + o) == [PortPackets(x.port, TagLists(x.pkts))] + TagOutputs(o)
  {
    assert ([x] + o)[1..] == o;
  }

  lemma {:induction false} TagOutputsExtend(o: Outputs<Packet>, port: PortNo, pkts: seq<Packet>)
    ensures TagOutputs(Extend(o, port, pkts)) == Extend(TagOutputs(o), port, TagLists(pkts))
  {
    if o == [] {
      TagOutputsCons(PortPackets(port, pkts), []);
      assert [PortPackets(port, pkts)] + [] == [PortPackets(port, pkts)];
    } else if o[0].port == port {
      TagListsConcat(o[0].pkts, pkts);
      TagOutputsCons(PortPackets(port, o[0].pkts + pkts), o[1..]);
    } else {
      TagOutputsExtend(o[1..], port, pkts);
      TagOutputsCons(o[0], Extend(o[1..], port, pkts));
      assert TagOutputs(o)[1..] == TagOutputs(o[1..]);
    }
  }

  lemma {:induction false} TagOutputsExtendAll(o: Outputs<Packet>, more: Outputs<Packet>)
    ensures TagOutputs(ExtendAll(o, more)) == ExtendAll(TagOutputs(o), TagOutputs(more))
    decreases |more|
  {
    if more != [] {
      TagOutputsExtend(o, more[0].port, more[0].pkts);
      TagOutputsExtendAll(Extend(o, more[0].port, more[0].pkts), more[1..]);
      assert TagOutputs(more)[1..] == TagOutputs(more[1..]);
    }
  }

  lemma PushRefines(pkt: Packet)
    requires WellTagged(pkt) && |Tags(pkt)| < 2
    ensures WellTagged(PushedVlan(pkt)) && Tags(PushedVlan(pkt)) == [VID_PRESENT] + Tags(pkt)
  {
    assert 12 in VID_PRESENT * VID_PRESENT;
  }

  lemma PopRefines(pkt: Packet)
    requires WellTagged(pkt) && Tags(pkt) != []
    ensures VlanVid in pkt && WellTagged(PoppedVlan(pkt)) && Tags(PoppedVlan(pkt)) == Tags(pkt)[1..]
  {
  }

  lemma SetTopRefines(pkt: Packet, value: Word)
    requires WellTagged(pkt) && Tags(pkt) != [] && Tagged(value)
    ensures WellTagged(pkt[VlanVid := value]) && Tags(pkt[VlanVid := value]) == [value] + Tags(pkt)[1..]
  {
  }

  lemma SetOtherRefines(pkt: Packet, key: Field, value: Word)
    requires WellTagged(pkt) && key != VlanVid && key != EncapVid
    ensures WellTagged(pkt[key := value]) && Tags(pkt[key := value]) == Tags(pkt)
  {
  }

  lemma {:induction false} ActRefines(
    groups: Groups, active: set<GroupId>, st: ActionState, abs: StackState, action: Action)
    requires Refines(st, abs) && StackAct(groups, active, abs, action).Ok?
    ensures ActOn(groups, active, st, action).Ok? &&
            Refines(ActOn(groups, active, st, action).value, StackAct(groups, active, abs, action).value)
    decreases groups.Keys - active, 0, 0
  {
    match action {
      case Output(port) =>
        TagOutputsExtend(st.outs, port, [st.pkt]);
        assert TagLists([st.pkt]) == [abs.stack];
      case SetField(key, value) =>
        if key == VlanVid {
          SetTopRefines(st.pkt, value);
        } else {
          SetOtherRefines(st.pkt, key, value);
        }
      case PushVlan => PushRefines(st.pkt);
      case PopVlan => PopRefines(st.pkt);
      case Group(id) =>
        BucketsRefine(groups, active + {id}, st.(pending := st.pending + [action]), abs, groups[id]);
      case OtherAction =>
    }
  }

  /**
   On every action list, group buckets included, for which the stack machine does not raise, the field
   updates do not raise either, end with the machine's stack, and put out at each port, in order,
   packets carrying exactly the stacks the machine puts out there.
   */
  lemma {:induction false} RunRefines(
    groups: Groups, active: set<GroupId>, st: ActionState, abs: StackState, actions: seq<Action>)
    requires Refines(st, abs) && StackRun(groups, active, abs, actions).Ok?
    ensures RunActions(groups, active, st, actions).Ok? &&
            Refines(RunActions(groups, active, st, actions).value, StackRun(groups, active, abs, actions).value)
    decreases groups.Keys - active, 1, |actions|
  {
    if actions != [] {
      ActRefines(groups, active, st, abs, actions[0]);
      RunRefines(groups, active, ActOn(groups, active, st, actions[0]).value,
                 StackAct(groups, active, abs, actions[0]).value, actions[1..]);
    }
  }

  lemma {:induction false} BucketsRefine(
    groups: Groups, active: set<GroupId>, st: ActionState, abs: StackState, buckets: Buckets)
    requires Refines(st, abs) && StackBuckets(groups, active, abs, buckets).Ok?
    ensures RunBuckets(groups, active, st, buckets).Ok? &&
            Refines(RunBuckets(groups, active, st, buckets).value, StackBuckets(groups, active, abs, buckets).value)
    decreases groups.Keys - active, 2, |buckets|
  {
    if buckets != [] {
      var fresh_, empty := ActionState([], st.pkt, []), StackState([], abs.stack);
      RunRefines(groups, active, fresh_, empty, buckets[0]);
      var b := RunActions(groups, active, fresh_, buckets[0]).value;
      var a := StackRun(groups, active, empty, buckets[0]).value;
      TagOutputsExtendAll(st.outs, b.outs);
      BucketsRefine(groups, active, AfterBucket(st, b.outs),
                    StackState(ExtendAll(abs.outs, a.outs), abs.stack), buckets[1..]);
    }
  }

  // ---------------------------------------------------------------------------------------------
  // Where the two fields stop being a stack
  // ---------------------------------------------------------------------------------------------

  /** A push adds a tag exactly while fewer than two are present: the third overwrites the innermost. */
  lemma PushIsAStackPushIff(pkt: Packet)
    requires WellTagged(pkt)
    ensures Tags(PushedVlan(pkt)) == [VID_PRESENT] + Tags(pkt) <==> |Tags(pkt)| < 2
    ensures |Tags(pkt)| == 2 ==> Tags(PushedVlan(pkt)) == [VID_PRESENT, Tags(pkt)[0]]
  {
    assert 12 in VID_PRESENT * VID_PRESENT;
  }

  /** Push then pop restores precisely the packets that had a vlan_vid field that was a tag or zero,
      no encapsulated tag, and no vlan_pcp. */
  lemma PushPopRestoresIff(pkt: Packet)
    ensures PoppedVlan(PushedVlan(pkt)) == pkt <==>
            && VlanVid in pkt && EncapVid !in pkt && VlanPcp !in pkt
            && (Tagged(pkt[VlanVid]) || pkt[VlanVid] == {})
  {
    var r := PoppedVlan(PushedVlan(pkt));
    assert VlanVid in r && EncapVid !in r && VlanPcp !in r;
    if VlanVid in pkt && EncapVid !in pkt && VlanPcp !in pkt {
      assert r.Keys == pkt.Keys;
      assert forall k | k in pkt && k != VlanVid :: r[k] == pkt[k];
      assert r[VlanVid] == if Tagged(pkt[VlanVid]) then pkt[VlanVid] else {};
    }
  }

  /** Whatever it does to the tags, push then pop leaves every other field alone. */
  lemma PushPopFrame(pkt: Packet, k: Field)
    requires k != VlanVid && k != EncapVid && k != VlanPcp
    ensures FieldOf(PoppedVlan(PushedVlan(pkt)), k) == FieldOf(pkt, k)
  {
  }
}
