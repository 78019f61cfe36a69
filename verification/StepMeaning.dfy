/**
 What each action and each instruction does to the packet, the outputs and the actions left over, said
 field by field, bit by bit and port by port; and that a table does to its packet exactly what its entry's
 instructions do one after the other.
 */
module StepMeaning {
  import opened Packets
  import opened FlowEntries
  import opened FlowTables
  import opened TableLookup
  import opened Pipeline
  import opened Evaluators

  // ---------------------------------------------------------------------------------------------
  // Packets
  // ---------------------------------------------------------------------------------------------

  ghost predicate AgreeAt(p: Packet, q: Packet, f: Field) {
    (f in p <==> f in q) && (f in p && f in q ==> p[f] == q[f])
  }

  /** The packets agree on every field outside fs. */
  ghost predicate AgreeBut(p: Packet, q: Packet, fs: set<Field>) {
    forall f | f !in fs :: AgreeAt(p, q, f)
  }

  ghost predicate Holds(p: Packet, f: Field, value: Word) {
    f in p && p[f] == value
  }

  /** The action makes q of p. */
  ghost predicate Rewrites(action: Action, p: Packet, q: Packet) {
    match action
    case SetField(key, value) => Holds(q, key, value) && AgreeBut(p, q, {key})
    case PushVlan =>
      && Holds(q, VlanVid, {12})
      && if VlanVid in p && 12 in p[VlanVid] then Holds(q, EncapVid, p[VlanVid]) && AgreeBut(p, q, {VlanVid, EncapVid})
         else AgreeBut(p, q, {VlanVid})
    case PopVlan =>
      && VlanVid in p && VlanPcp !in q && EncapVid !in q
      && Holds(q, VlanVid, if EncapVid in p then p[EncapVid] else {})
      && AgreeBut(p, q, {VlanVid, VlanPcp, EncapVid})
    case _ => q == p
  }

  /** Bit for bit: masked bits of the metadata come from the value written, the others stay. */
  ghost predicate MetadataBits(p: Packet, q: Packet, metadata: Word, mask: Word) {
    && Metadata in q
    && (forall b: Bit | b < 64 ::
          b in q[Metadata] <==> if b in mask then b in metadata else Metadata in p && b in p[Metadata])
    && (forall b: Bit | b >= 64 ::
          b in q[Metadata] <==> b in mask && (b in metadata || (Metadata in p && b in p[Metadata])))
  }

  /** And only the metadata changes. */
  ghost predicate MetadataWritten(p: Packet, q: Packet, metadata: Word, mask: Word) {
    MetadataBits(p, q, metadata, mask) && AgreeBut(p, q, {Metadata})
  }

  lemma WroteMetadataBits(p: Packet, metadata: Word, mask: Word)
    ensures MetadataWritten(p, WroteMetadata(p, metadata, mask), metadata, mask)
  {
    assert forall b: Bit :: b in METADATA_ALL <==> b < 64;
    assert forall b: Bit :: b in Xor(mask, METADATA_ALL) <==> (b in mask) != (b < 64);
  }

  lemma PushRewrites(p: Packet)
    ensures Rewrites(PushVlan, p, PushedVlan(p))
  {
    if VlanVid in p {
      if 12 in p[VlanVid] {
        assert 12 in p[VlanVid] * VID_PRESENT;
      }
    }
  }

  lemma PopRewrites(p: Packet)
    requires VlanVid in p
    ensures Rewrites(PopVlan, p, PoppedVlan(p))
  {
  }

  // ---------------------------------------------------------------------------------------------
  // Outputs
  // ---------------------------------------------------------------------------------------------

  function PortsOf(o: Outputs<Packet>): (r: seq<PortNo>) {
    seq(|o|, i requires 0 <= i < |o| => o[i].port)
  }

  /** The ports of a and then those of b that are new, in order of first appearance. */
  function JoinPorts(a: seq<PortNo>, b: seq<PortNo>): (r: seq<PortNo>)
    decreases |b|
  {
    if b == [] then a else JoinPorts(if b[0] in a then a else a + [b[0]], b[1..])
  }

  /** Per port the packets of a and then those of b. */
  ghost predicate OutputsJoined(a: Outputs<Packet>, b: Outputs<Packet>, r: Outputs<Packet>) {
    && (forall p :: PacketsAt(r, p) == PacketsAt(a, p) + PacketsAt(b, p))
    && PortsOf(r) == JoinPorts(PortsOf(a), PortsOf(b))
  }

  lemma PacketsAtCons(x: PortPackets<Packet>, o: Outputs<Packet>, p: PortNo)
    ensures PacketsAt([x] + o, p) == if x.port == p then x.pkts else PacketsAt(o, p)
  {
    assert ([x] + o)[1..] == o;
  }

  lemma PortsOfCons(x: PortPackets<Packet>, o: Outputs<Packet>)
    ensures PortsOf([x] + o) == [x.port] + PortsOf(o)
  {
  }

  lemma {:induction false} ExtendAt(o: Outputs<Packet>, port: PortNo, pkts: seq<Packet>, p: PortNo)
    ensures PacketsAt(Extend(o, port, pkts), p) == PacketsAt(o, p) + if p == port then pkts else []
  {
    if o != [] {
      if o[0].port == port {
        PacketsAtCons(PortPackets(port, o[0].pkts + pkts), o[1..], p);
      } else {
        ExtendAt(o[1..], port, pkts, p);
        PacketsAtCons(o[0], Extend(o[1..], port, pkts), p);
      }
    }
  }

  lemma {:induction false} ExtendPorts(o: Outputs<Packet>, port: PortNo, pkts: seq<Packet>)
    ensures PortsOf(Extend(o, port, pkts)) == if port in PortsOf(o) then PortsOf(o) else PortsOf(o) + [port]
  {
    if o == [] {
      assert PortsOf(o) == [] && PortsOf(Extend(o, port, pkts)) == [port];
    } else {
      var tail := o[1..];
      assert o == [o[0]] + tail;
      PortsOfCons(o[0], tail);
      if o[0].port == port {
        PortsOfCons(PortPackets(port, o[0].pkts + pkts), tail);
      } else {
        ExtendPorts(tail, port, pkts);
        PortsOfCons(o[0], Extend(tail, port, pkts));
        assert [o[0].port] + (PortsOf(tail) + [port]) == [o[0].port] + PortsOf(tail) + [port];
      }
    }
  }

  lemma AppendNothing(s: seq<Packet>)
    ensures s + [] == s
  {
  }

  /** A port listed once is not listed behind. */
  lemma NotListedBehind(o: Outputs<Packet>, p: PortNo)
    requires o != [] && DistinctPorts(o)
    ensures DistinctPorts(o[1..]) && (o[0].port == p ==> PacketsAt(o[1..], p) == [])
  {
    var tail := o[1..];
    assert forall i | 0 <= i < |tail| :: tail[i] == o[i + 1];
    if o[0].port == p {
      AbsentPort(tail, p);
    }
  }

  lemma {:induction false} ExtendAllAt(o: Outputs<Packet>, more: Outputs<Packet>, p: PortNo)
    requires DistinctPorts(more)
    ensures PacketsAt(ExtendAll(o, more), p) == PacketsAt(o, p) + PacketsAt(more, p)
    decreases |more|
  {
    if more != [] {
      var here, tail := more[0], more[1..];
      NotListedBehind(more, p);
      ExtendAt(o, here.port, here.pkts, p);
      var next := Extend(o, here.port, here.pkts);
      ExtendAllAt(next, tail, p);
      assert PacketsAt(more, p) == if here.port == p then here.pkts else PacketsAt(tail, p);
      if here.port == p {
        AppendNothing(PacketsAt(next, p));
      } else {
        AppendNothing(PacketsAt(o, p));
      }
    } else {
      AppendNothing(PacketsAt(o, p));
    }
  }

  lemma {:induction false} ExtendAllPorts(o: Outputs<Packet>, more: Outputs<Packet>)
    ensures PortsOf(ExtendAll(o, more)) == JoinPorts(PortsOf(o), PortsOf(more))
    decreases |more|
  {
    if more != [] {
      ExtendPorts(o, more[0].port, more[0].pkts);
      ExtendAllPorts(Extend(o, more[0].port, more[0].pkts), more[1..]);
      assert PortsOf(more)[1..] == PortsOf(more[1..]);
    }
  }

  lemma ExtendAllJoins(o: Outputs<Packet>, more: Outputs<Packet>)
    requires DistinctPorts(more)
    ensures OutputsJoined(o, more, ExtendAll(o, more))
  {
    forall p ensures PacketsAt(ExtendAll(o, more), p) == PacketsAt(o, p) + PacketsAt(more, p) {
      ExtendAllAt(o, more, p);
    }
    ExtendAllPorts(o, more);
  }

  lemma {:induction false} RunDistinct(groups: Groups, active: set<GroupId>, st: ActionState, actions: seq<Action>)
    requires DistinctPorts(st.outs) && RunActions(groups, active, st, actions).Ok?
    ensures DistinctPorts(RunActions(groups, active, st, actions).value.outs)
    decreases |actions|
  {
    if actions != [] {
      match actions[0] {
        case Output(port) => ExtendDistinct(st.outs, port, [st.pkt]);
        case Group(id) =>
          BucketsDistinct(groups, active + {id}, st.(pending := st.pending + [actions[0]]), groups[id]);
        case _ =>
      }
      RunDistinct(groups, active, ActOn(groups, active, st, actions[0]).value, actions[1..]);
    }
  }

  lemma {:induction false} BucketsDistinct(groups: Groups, active: set<GroupId>, st: ActionState, buckets: Buckets)
    requires DistinctPorts(st.outs) && RunBuckets(groups, active, st, buckets).Ok?
    ensures DistinctPorts(RunBuckets(groups, active, st, buckets).value.outs)
    decreases |buckets|
  {
    if buckets != [] {
      var b := RunActions(groups, active, ActionState([], st.pkt, []), buckets[0]).value;
      ExtendAllDistinct(st.outs, b.outs);
      BucketsDistinct(groups, active, AfterBucket(st, b.outs), buckets[1..]);
    }
  }

  // ---------------------------------------------------------------------------------------------
  // One action
  // ---------------------------------------------------------------------------------------------

  /** What a bucket run on pkt puts out by port p. */
  function BucketAt(groups: Groups, active: set<GroupId>, pkt: Packet, bucket: seq<Action>, p: PortNo): (r: seq<Packet>)
  {
    match RunActions(groups, active, ActionState([], pkt, []), bucket)
    case Ok(b) => PacketsAt(b.outs, p)
    case Raised => []
  }

  function BucketsAt(groups: Groups, active: set<GroupId>, pkt: Packet, buckets: Buckets, p: PortNo): (r: seq<Packet>)
    decreases |buckets|
  {
    if buckets == [] then []
    else BucketAt(groups, active, pkt, buckets[0], p) + BucketsAt(groups, active, pkt, buckets[1..], p)
  }

  ghost predicate SomeBucketRaises(groups: Groups, active: set<GroupId>, pkt: Packet, buckets: Buckets) {
    exists b :: b in buckets && RunActions(groups, active, ActionState([], pkt, []), b).Raised?
  }

  ghost predicate SomeBucketPutsOut(groups: Groups, active: set<GroupId>, pkt: Packet, buckets: Buckets) {
    exists b :: b in buckets && RunActions(groups, active, ActionState([], pkt, []), b).Ok? &&
                RunActions(groups, active, ActionState([], pkt, []), b).value.outs != []
  }

  ghost predicate BucketsMean(
    groups: Groups, active: set<GroupId>, st: ActionState, buckets: Buckets, after: ActionState) {
    && after.pkt == st.pkt
    && (forall p :: PacketsAt(after.outs, p) == PacketsAt(st.outs, p) + BucketsAt(groups, active, st.pkt, buckets, p))
    && after.pending == if SomeBucketPutsOut(groups, active, st.pkt, buckets) then [] else st.pending
  }

  lemma {:induction false} BucketsRaise(groups: Groups, active: set<GroupId>, st: ActionState, buckets: Buckets)
    ensures RunBuckets(groups, active, st, buckets).Raised? <==> SomeBucketRaises(groups, active, st.pkt, buckets)
    decreases |buckets|
  {
    if buckets != [] {
      var tail := buckets[1..];
      assert forall b :: b in buckets <==> b == buckets[0] || b in tail;
      var r := RunActions(groups, active, ActionState([], st.pkt, []), buckets[0]);
      if r.Ok? {
        BucketsRaise(groups, active, AfterBucket(st, r.value.outs), tail);
      }
    }
  }

  lemma BucketPutsOut(groups: Groups, active: set<GroupId>, st: ActionState, bucket: seq<Action>, p: PortNo)
    requires RunActions(groups, active, ActionState([], st.pkt, []), bucket).Ok?
    ensures
      var b := RunActions(groups, active, ActionState([], st.pkt, []), bucket).value;
      PacketsAt(AfterBucket(st, b.outs).outs, p) == PacketsAt(st.outs, p) + BucketAt(groups, active, st.pkt, bucket, p)
  {
    var start := ActionState([], st.pkt, []);
    RunDistinct(groups, active, start, bucket);
    ExtendAllAt(st.outs, RunActions(groups, active, start, bucket).value.outs, p);
  }

  lemma {:induction false} BucketsPutOut(
    groups: Groups, active: set<GroupId>, st: ActionState, buckets: Buckets, p: PortNo)
    requires RunBuckets(groups, active, st, buckets).Ok?
    ensures PacketsAt(RunBuckets(groups, active, st, buckets).value.outs, p) ==
            PacketsAt(st.outs, p) + BucketsAt(groups, active, st.pkt, buckets, p)
    decreases |buckets|
  {
    if buckets != [] {
      var tail := buckets[1..];
      var b := RunActions(groups, active, ActionState([], st.pkt, []), buckets[0]).value;
      var next := AfterBucket(st, b.outs);
      BucketPutsOut(groups, active, st, buckets[0], p);
      assert RunBuckets(groups, active, st, buckets) == RunBuckets(groups, active, next, tail);
      BucketsPutOut(groups, active, next, tail, p);
      AppendThrice(PacketsAt(st.outs, p), BucketAt(groups, active, st.pkt, buckets[0], p),
                   BucketsAt(groups, active, st.pkt, tail, p));
    }
  }

  lemma AppendThrice(a: seq<Packet>, b: seq<Packet>, c: seq<Packet>)
    ensures a + (b + c) == a + b + c
  {
  }

  lemma {:induction false} BucketsLeave(groups: Groups, active: set<GroupId>, st: ActionState, buckets: Buckets)
    requires RunBuckets(groups, active, st, buckets).Ok?
    ensures RunBuckets(groups, active, st, buckets).value.pending ==
            if SomeBucketPutsOut(groups, active, st.pkt, buckets) then [] else st.pending
    decreases |buckets|
  {
    if buckets != [] {
      var tail := buckets[1..];
      assert forall b :: b in buckets <==> b == buckets[0] || b in tail;
      var r := RunActions(groups, active, ActionState([], st.pkt, []), buckets[0]);
      BucketsLeave(groups, active, AfterBucket(st, r.value.outs), tail);
    }
  }

  lemma BucketsMeaning(groups: Groups, active: set<GroupId>, st: ActionState, buckets: Buckets)
    requires RunBuckets(groups, active, st, buckets).Ok?
    ensures BucketsMean(groups, active, st, buckets, RunBuckets(groups, active, st, buckets).value)
  {
    var after := RunBuckets(groups, active, st, buckets).value;
    BucketsKeepPacket(groups, active, st, buckets);
    BucketsLeave(groups, active, st, buckets);
    forall p
      ensures PacketsAt(after.outs, p) == PacketsAt(st.outs, p) + BucketsAt(groups, active, st.pkt, buckets, p)
    {
      BucketsPutOut(groups, active, st, buckets, p);
    }
  }

  /** The action raises. */
  ghost predicate Blocked(groups: Groups, active: set<GroupId>, st: ActionState, action: Action) {
    match action
    case PopVlan => VlanVid !in st.pkt
    case Group(id) =>
      id !in groups || id in active || SomeBucketRaises(groups, active + {id}, st.pkt, groups[id])
    case _ => false
  }

  /** The action makes after of st. */
  ghost predicate ActsAs(groups: Groups, active: set<GroupId>, st: ActionState, action: Action, after: ActionState) {
    && Rewrites(action, st.pkt, after.pkt)
    && match action
       case Output(port) =>
         && after.pending == []
         && (forall p :: PacketsAt(after.outs, p) == PacketsAt(st.outs, p) + if p == port then [st.pkt] else [])
         && PortsOf(after.outs) == if port in PortsOf(st.outs) then PortsOf(st.outs) else PortsOf(st.outs) + [port]
       case Group(id) =>
         && id in groups
         && BucketsMean(groups, active + {id}, st.(pending := st.pending + [action]), groups[id], after)
       case _ => after.outs == st.outs && after.pending == st.pending + [action]
  }

  /** What one action does, and when it raises. */
  lemma ActionMeaning(groups: Groups, active: set<GroupId>, st: ActionState, action: Action)
    ensures match ActOn(groups, active, st, action)
            case Raised => Blocked(groups, active, st, action)
            case Ok(after) => !Blocked(groups, active, st, action) && ActsAs(groups, active, st, action, after)
  {
    match action {
      case Output(port) =>
        forall p
          ensures PacketsAt(Extend(st.outs, port, [st.pkt]), p) ==
                  PacketsAt(st.outs, p) + if p == port then [st.pkt] else []
        {
          ExtendAt(st.outs, port, [st.pkt], p);
        }
        ExtendPorts(st.outs, port, [st.pkt]);
      case PushVlan => PushRewrites(st.pkt);
      case PopVlan => if VlanVid in st.pkt { PopRewrites(st.pkt); }
      case Group(id) =>
        if id in groups && id !in active {
          var st' := st.(pending := st.pending + [action]);
          BucketsRaise(groups, active + {id}, st', groups[id]);
          if RunBuckets(groups, active + {id}, st', groups[id]).Ok? {
            BucketsMeaning(groups, active + {id}, st', groups[id]);
          }
        }
      case _ =>
    }
  }

  // ---------------------------------------------------------------------------------------------
  // A list of actions
  // ---------------------------------------------------------------------------------------------

  /** The states between the first |states| - 1 of the actions. */
  ghost predicate ActionChain(
    groups: Groups, active: set<GroupId>, st: ActionState, actions: seq<Action>, states: seq<ActionState>) {
    && 1 <= |states| <= |actions| + 1 && states[0] == st
    && forall k: nat | k + 1 < |states| :: ActsAs(groups, active, states[k], actions[k], states[k + 1])
  }

  ghost predicate RunsTo(
    groups: Groups, active: set<GroupId>, st: ActionState, actions: seq<Action>, after: ActionState) {
    exists states: seq<ActionState> ::
      && ActionChain(groups, active, st, actions, states)
      && |states| == |actions| + 1 && states[|actions|] == after
  }

  /** The last of the states is one that the next action raises in. */
  ghost predicate StuckBehind(
    groups: Groups, active: set<GroupId>, st: ActionState, actions: seq<Action>, states: seq<ActionState>) {
    && ActionChain(groups, active, st, actions, states)
    && |states| <= |actions| && Blocked(groups, active, states[|states| - 1], actions[|states| - 1])
  }

  ghost predicate GetsStuck(groups: Groups, active: set<GroupId>, st: ActionState, actions: seq<Action>) {
    exists states: seq<ActionState> :: StuckBehind(groups, active, st, actions, states)
  }

  lemma ChainCons(
    groups: Groups, active: set<GroupId>, st: ActionState, actions: seq<Action>, states: seq<ActionState>)
    requires actions != [] && states != [] && ActsAs(groups, active, st, actions[0], states[0])
    requires ActionChain(groups, active, states[0], actions[1..], states)
    ensures ActionChain(groups, active, st, actions, [st] + states)
  {
    var all := [st] + states;
    forall k: nat | k + 1 < |all| ensures ActsAs(groups, active, all[k], actions[k], all[k + 1]) {
      if k > 0 {
        assert all[k] == states[k - 1] && all[k + 1] == states[k] && actions[k] == actions[1..][k - 1];
      }
    }
  }

  lemma RunsOneMore(
    groups: Groups, active: set<GroupId>, st: ActionState, actions: seq<Action>, here: ActionState, after: ActionState)
    requires actions != [] && ActsAs(groups, active, st, actions[0], here)
    requires RunsTo(groups, active, here, actions[1..], after)
    ensures RunsTo(groups, active, st, actions, after)
  {
    var tail := actions[1..];
    var states :| ActionChain(groups, active, here, tail, states)
                  && |states| == |tail| + 1 && states[|tail|] == after;
    ChainCons(groups, active, st, actions, states);
    assert ([st] + states)[|actions|] == after;
  }

  lemma StuckOneMore(
    groups: Groups, active: set<GroupId>, st: ActionState, actions: seq<Action>, here: ActionState)
    requires actions != [] && ActsAs(groups, active, st, actions[0], here)
    requires GetsStuck(groups, active, here, actions[1..])
    ensures GetsStuck(groups, active, st, actions)
  {
    var states :| StuckBehind(groups, active, here, actions[1..], states);
    ChainCons(groups, active, st, actions, states);
    var all, n := [st] + states, |states|;
    assert all[n] == states[n - 1] && actions[n] == actions[1..][n - 1];
    assert StuckBehind(groups, active, st, actions, all);
  }

  /** The actions take effect one after the other, up to the first that raises. */
  lemma {:induction false} ActionsMeaning(groups: Groups, active: set<GroupId>, st: ActionState, actions: seq<Action>)
    ensures match RunActions(groups, active, st, actions)
            case Raised => GetsStuck(groups, active, st, actions)
            case Ok(after) => RunsTo(groups, active, st, actions, after)
    decreases |actions|
  {
    ghost var alone := [st];
    if actions == [] {
      assert ActionChain(groups, active, st, actions, alone);
    } else {
      ActionMeaning(groups, active, st, actions[0]);
      match ActOn(groups, active, st, actions[0])
      case Raised => assert StuckBehind(groups, active, st, actions, alone);
      case Ok(here) =>
        ActionsMeaning(groups, active, here, actions[1..]);
        match RunActions(groups, active, here, actions[1..])
        case Ok(after) => RunsOneMore(groups, active, st, actions, here, after);
        case Raised => StuckOneMore(groups, active, st, actions, here);
    }
  }

  lemma RewritesOneWay(action: Action, p: Packet, q: Packet, r: Packet)
    requires Rewrites(action, p, q) && Rewrites(action, p, r)
    ensures q == r
  {
    forall f ensures (f in q <==> f in r) && (f in q && f in r ==> q[f] == r[f]) {
      assert (AgreeAt(p, q, f) && AgreeAt(p, r, f)) || f in {VlanVid, VlanPcp, EncapVid} || action == SetField(f, q[f]);
    }
  }

  lemma {:induction false} StuckRaises(
    groups: Groups, active: set<GroupId>, st: ActionState, actions: seq<Action>, states: seq<ActionState>)
    requires 1 <= |states| <= |actions| && states[0].pkt == st.pkt
    requires forall k: nat | k + 1 < |states| :: ActsAs(groups, active, states[k], actions[k], states[k + 1])
    requires Blocked(groups, active, states[|states| - 1], actions[|states| - 1])
    ensures RunActions(groups, active, st, actions).Raised?
    decreases |actions|
  {
    ActionMeaning(groups, active, st, actions[0]);
    var r := ActOn(groups, active, st, actions[0]);
    if |states| > 1 && r.Ok? {
      assert ActsAs(groups, active, states[0], actions[0], states[1]);
      RewritesOneWay(actions[0], st.pkt, r.value.pkt, states[1].pkt);
      var tail, rest := actions[1..], states[1..];
      forall k: nat | k + 1 < |rest| ensures ActsAs(groups, active, rest[k], tail[k], rest[k + 1]) {
        assert rest[k] == states[k + 1] && tail[k] == actions[k + 1] && rest[k + 1] == states[k + 2];
      }
      assert rest[|rest| - 1] == states[|states| - 1] && tail[|rest| - 1] == actions[|states| - 1];
      StuckRaises(groups, active, r.value, tail, rest);
    }
  }

  /** A list raises exactly when its actions, one after the other, reach one that raises. */
  lemma {:induction false} StuckIff(groups: Groups, active: set<GroupId>, st: ActionState, actions: seq<Action>)
    ensures RunActions(groups, active, st, actions).Raised? <==> GetsStuck(groups, active, st, actions)
  {
    ActionsMeaning(groups, active, st, actions);
    if GetsStuck(groups, active, st, actions) {
      var states :| StuckBehind(groups, active, st, actions, states);
      StuckRaises(groups, active, st, actions, states);
    }
  }

  // ---------------------------------------------------------------------------------------------
  // The instructions of one table
  // ---------------------------------------------------------------------------------------------

  /** The instruction, in table id, makes after of st. */
  ghost predicate ExecutesAs(groups: Groups, id: TableId, st: TableState, i: Instruction, after: TableState) {
    match i
    case GotoTable(to_) => id < to_ && after == st.(next := Some(to_))
    case WriteMetadata(metadata, mask) =>
      MetadataWritten(st.pkt, after.pkt, metadata, mask) && after == st.(pkt := after.pkt)
    case OtherInstruction(_) => after == st
    case ApplyActions(actions) =>
      && actions != [] && after.next == st.next
      && exists a: ActionState ::
           && RunsTo(groups, {}, ActionState([], st.pkt, []), actions, a)
           && OutputsJoined(st.outs, a.outs, after.outs)
           && after.pkt == a.pkt && after.pending == a.pending
  }

  ghost predicate Fails(groups: Groups, id: TableId, st: TableState, i: Instruction) {
    match i
    case GotoTable(to_) => to_ <= id
    case ApplyActions(actions) =>
      actions == [] || GetsStuck(groups, {}, ActionState([], st.pkt, []), actions)
    case _ => false
  }

  lemma InstructionMeaning(groups: Groups, id: TableId, st: TableState, i: Instruction)
    ensures match Execute(groups, id, st, i)
            case Raised => Fails(groups, id, st, i)
            case Ok(after) => ExecutesAs(groups, id, st, i, after)
  {
    match i {
      case ApplyActions(actions) =>
        var start := ActionState([], st.pkt, []);
        ActionsMeaning(groups, {}, start, actions);
        if RunActions(groups, {}, start, actions).Ok? {
          RunDistinct(groups, {}, start, actions);
          ExtendAllJoins(st.outs, RunActions(groups, {}, start, actions).value.outs);
        }
      case WriteMetadata(metadata, mask) => WroteMetadataBits(st.pkt, metadata, mask);
      case _ =>
    }
  }

  ghost predicate TableChain(
    groups: Groups, id: TableId, st: TableState, ins: seq<Instruction>, states: seq<TableState>) {
    && 1 <= |states| <= |ins| + 1 && states[0] == st
    && forall k: nat | k + 1 < |states| :: ExecutesAs(groups, id, states[k], ins[k], states[k + 1])
  }

  ghost predicate EndsIn(groups: Groups, id: TableId, st: TableState, ins: seq<Instruction>, after: TableState) {
    exists states: seq<TableState> ::
      TableChain(groups, id, st, ins, states) && |states| == |ins| + 1 && states[|ins|] == after
  }

  ghost predicate FailsBehind(
    groups: Groups, id: TableId, st: TableState, ins: seq<Instruction>, states: seq<TableState>) {
    && TableChain(groups, id, st, ins, states)
    && |states| <= |ins| && Fails(groups, id, states[|states| - 1], ins[|states| - 1])
  }

  ghost predicate FailsOnTheWay(groups: Groups, id: TableId, st: TableState, ins: seq<Instruction>) {
    exists states: seq<TableState> :: FailsBehind(groups, id, st, ins, states)
  }

  lemma TableChainCons(
    groups: Groups, id: TableId, st: TableState, ins: seq<Instruction>, states: seq<TableState>)
    requires ins != [] && states != [] && ExecutesAs(groups, id, st, ins[0], states[0])
    requires TableChain(groups, id, states[0], ins[1..], states)
    ensures TableChain(groups, id, st, ins, [st] + states)
  {
    var all := [st] + states;
    forall k: nat | k + 1 < |all| ensures ExecutesAs(groups, id, all[k], ins[k], all[k + 1]) {
      if k > 0 {
        assert all[k] == states[k - 1] && all[k + 1] == states[k] && ins[k] == ins[1..][k - 1];
      }
    }
  }

  lemma EndsOneMore(
    groups: Groups, id: TableId, st: TableState, ins: seq<Instruction>, here: TableState, after: TableState)
    requires ins != [] && ExecutesAs(groups, id, st, ins[0], here) && EndsIn(groups, id, here, ins[1..], after)
    ensures EndsIn(groups, id, st, ins, after)
  {
    var tail := ins[1..];
    var states :| TableChain(groups, id, here, tail, states) && |states| == |tail| + 1 && states[|tail|] == after;
    TableChainCons(groups, id, st, ins, states);
    assert ([st] + states)[|ins|] == after;
  }

  lemma FailsOneMore(groups: Groups, id: TableId, st: TableState, ins: seq<Instruction>, here: TableState)
    requires ins != [] && ExecutesAs(groups, id, st, ins[0], here) && FailsOnTheWay(groups, id, here, ins[1..])
    ensures FailsOnTheWay(groups, id, st, ins)
  {
    var states :| FailsBehind(groups, id, here, ins[1..], states);
    TableChainCons(groups, id, st, ins, states);
    var all, n := [st] + states, |states|;
    assert all[n] == states[n - 1] && ins[n] == ins[1..][n - 1];
    assert FailsBehind(groups, id, st, ins, all);
  }

  lemma {:induction false} InstructionsMeaning(groups: Groups, id: TableId, st: TableState, ins: seq<Instruction>)
    ensures match ExecuteAll(groups, id, st, ins)
            case Raised => FailsOnTheWay(groups, id, st, ins)
            case Ok(after) => EndsIn(groups, id, st, ins, after)
    decreases |ins|
  {
    ghost var alone := [st];
    if ins == [] {
      assert TableChain(groups, id, st, ins, alone);
    } else {
      InstructionMeaning(groups, id, st, ins[0]);
      match Execute(groups, id, st, ins[0])
      case Raised => assert FailsBehind(groups, id, st, ins, alone);
      case Ok(here) =>
        InstructionsMeaning(groups, id, here, ins[1..]);
        match ExecuteAll(groups, id, here, ins[1..])
        case Ok(after) => EndsOneMore(groups, id, st, ins, here, after);
        case Raised => FailsOneMore(groups, id, st, ins, here);
    }
  }

  /**
   A table's answer is what the instructions of the entry found make of the packet one after the other.  It
   raises when one of them does, and when actions are left over with no table to go to.
   */
  lemma TableMeaning(tables: Tables, groups: Groups, pkt: Packet, id: TableId, e: Entry)
    requires id < |tables| && Lookup(tables[id], pkt) == Some(e)
    ensures
      var start := TableState([], pkt, None, []);
      match OutputOfTable(tables, groups, pkt, id)
      case Ok(t) =>
        exists pending: seq<Action> ::
          && (t.next.None? ==> pending == [])
          && EndsIn(groups, id, start, e.instructions, TableState(t.outs, t.pkt, t.next, pending))
      case Raised =>
        || FailsOnTheWay(groups, id, start, e.instructions)
        || exists after: TableState ::
             after.next.None? && after.pending != [] && EndsIn(groups, id, start, e.instructions, after)
  {
    var start := TableState([], pkt, None, []);
    InstructionsMeaning(groups, id, start, e.instructions);
    match ExecuteAll(groups, id, start, e.instructions) {
      case Ok(st) =>
        assert st == TableState(st.outs, st.pkt, st.next, st.pending);
        assert EndsIn(groups, id, start, e.instructions, TableState(st.outs, st.pkt, st.next, st.pending));
      case Raised =>
    }
  }

  /** Where no entry matches, nothing is put out, nothing changes and nothing comes next. */
  lemma MissMeaning(tables: Tables, groups: Groups, pkt: Packet, id: TableId)
    requires id < |tables| && forall x | x in tables[id] :: !PktMatches(x, pkt)
    ensures OutputOfTable(tables, groups, pkt, id) == Ok(TableOutput([], pkt, None))
  {
    LookupIsMember(tables[id], pkt);
  }
}
