/** The states (switch, packet) a packet can reach over stack links, and why there are finitely many. */
module Reach {
  import opened Packets
  import opened FlowEntries
  import opened FlowTables
  import opened TableLookup
  import opened Pipeline

  type DpId = nat

  // A port either leads to a port of another switch of the stack or to the outside.
  datatype PortLink = Outside | Stacked(dp: DpId, port: PortNo)

  type Links = map<PortNo, PortLink>

  datatype Net = Net(switches: map<DpId, Switch>, links: map<DpId, Links>)

  datatype State = State(dp: DpId, pkt: Packet)

  /** Every switch has its ports, and stack links lead to switches of the network. */
  ghost predicate ValidNet(net: Net) {
    net.switches.Keys == net.links.Keys &&
    forall d, p | d in net.links && p in net.links[d] && net.links[d][p].Stacked? ::
      net.links[d][p].dp in net.switches
  }

  // ---------------------------------------------------------------------------------------------
  // One hop
  // ---------------------------------------------------------------------------------------------

  function Arrivals(link: PortLink, pkts: seq<Packet>): (r: seq<State>) {
    if link.Stacked?
    then seq(|pkts|, i requires 0 <= i < |pkts| => State(link.dp, pkts[i][InPort := link.port]))
    else []
  }

  /** The port an output really leaves by: the ingress port is looked up in the packet. */
  function RealPort(pkt: Packet, port: PortNo): (r: Result<PortNo>) {
    if port != OFPP_IN_PORT then Ok(port)
    else if InPort in pkt then Ok(pkt[InPort])
    else Raised
  }

  function HopsOver(links: Links, pkt: Packet, o: Outputs<Packet>): (r: Result<seq<State>>) {
    if o == [] then Ok([])
    else match RealPort(pkt, o[0].port)
      case Raised => Raised
      case Ok(port) =>
        var here := if port in links then Arrivals(links[port], o[0].pkts) else [];
        match HopsOver(links, pkt, o[1..])
        case Ok(rest) => Ok(here + rest)
        case Raised => Raised
  }

  function Hops(net: Net, s: State): (r: Result<seq<State>>)
    requires s.dp in net.switches && s.dp in net.links
  {
    match PortOutputsFrom(net.switches[s.dp].tables, net.switches[s.dp].groups, [], s.pkt, 0)
    case Ok(o) => HopsOver(net.links[s.dp], s.pkt, o)
    case Raised => Raised
  }

  predicate Edge(net: Net, s: State, t: State) {
    s.dp in net.switches && s.dp in net.links && Hops(net, s).Ok? && t in Hops(net, s).value
  }

  ghost predicate IsPath(net: Net, path: seq<State>) {
    path != [] && forall i | 0 <= i < |path| - 1 :: Edge(net, path[i], path[i + 1])
  }

  ghost predicate Reachable(net: Net, s: State, t: State) {
    exists path :: IsPath(net, path) && path[0] == s && path[|path| - 1] == t
  }

  lemma ReachesItself(net: Net, s: State)
    ensures Reachable(net, s, s)
  {
    assert IsPath(net, [s]);
  }

  lemma ReachesFurther(net: Net, s: State, t: State, u: State)
    requires Reachable(net, s, t) && Edge(net, t, u)
    ensures Reachable(net, s, u)
  {
    var path :| IsPath(net, path) && path[0] == s && path[|path| - 1] == t;
    assert IsPath(net, path + [u]);
  }

  /** A set that holds the start and is closed under hops holds everything reachable. */
  lemma {:induction false} ClosedHoldsPath(net: Net, seen: set<State>, path: seq<State>)
    requires IsPath(net, path) && path[0] in seen
    requires forall s, t | s in seen && Edge(net, s, t) :: t in seen
    ensures path[|path| - 1] in seen
    decreases |path|
  {
    if |path| > 1 {
      var shorter := path[..|path| - 1];
      assert forall i | 0 <= i < |shorter| :: shorter[i] == path[i];
      ClosedHoldsPath(net, seen, shorter);
      assert Edge(net, path[|path| - 2], path[|path| - 1]);
    }
  }

  // ---------------------------------------------------------------------------------------------
  // What a search at a state can come to
  // ---------------------------------------------------------------------------------------------

  function Judged(net: Net, want: Expected, s: State): (r: Result<bool>)
    requires s.dp in net.switches
  {
    FullOutput(net.switches[s.dp].tables, net.switches[s.dp].groups, s.pkt, want)
  }

  /** The packet is at the destination, which puts it out as wanted. */
  predicate Accepts(net: Net, dst: DpId, want: Expected, s: State) {
    s.dp == dst && s.dp in net.switches && Judged(net, want, s) == Ok(true)
  }

  /** Looking at s raises: at the destination while judging the output, otherwise while moving on. */
  predicate Raises(net: Net, dst: DpId, want: Expected, s: State) {
    s.dp in net.switches && s.dp in net.links &&
    ((s.dp == dst && Judged(net, want, s).Raised?) ||
     (!Accepts(net, dst, want, s) && Hops(net, s).Raised?))
  }

  /** What looking at one state may result in. */
  ghost predicate LookedAt(net: Net, dst: DpId, want: Expected, s: State, r: Result<bool>) {
    && s.dp in net.switches && s.dp in net.links
    && match r
       case Raised => Raises(net, dst, want, s)
       case Ok(true) => Accepts(net, dst, want, s)
       case Ok(false) => !Accepts(net, dst, want, s) && Hops(net, s).Ok?
  }

  ghost function SetOf(states: seq<State>): (r: set<State>) {
    set s | s in states
  }

  /**
   Without an exception the answer is exactly whether some reachable state accepts; an exception comes
   from a reachable state only.
   */
  ghost predicate Answers(net: Net, start: State, dst: DpId, want: Expected, r: Result<bool>) {
    match r
    case Ok(found) => found <==> exists s :: Reachable(net, start, s) && Accepts(net, dst, want, s)
    case Raised => exists s :: Reachable(net, start, s) && Raises(net, dst, want, s)
  }

  /** Expanded states accept nothing and lead to seen states only; seen states are expanded or waiting. */
  ghost predicate Explored(
    net: Net, start: State, dst: DpId, want: Expected, expanded: seq<State>, seen: set<State>, waiting: set<State>)
  {
    && start in seen && seen == SetOf(expanded) + waiting && SetOf(expanded) !! waiting
    && (forall i, j | 0 <= i < j < |expanded| :: expanded[i] != expanded[j])
    && (forall s | s in seen :: Reachable(net, start, s))
    && (forall s | s in expanded ::
          s.dp in net.switches && s.dp in net.links && !Accepts(net, dst, want, s) &&
          Hops(net, s).Ok? && SetOf(Hops(net, s).value) <= seen)
  }

  lemma ExploredFurther(
    net: Net, start: State, dst: DpId, want: Expected, expanded: seq<State>, seen: set<State>, waiting: set<State>,
    s: State, seen': set<State>, waiting': set<State>)
    requires Explored(net, start, dst, want, expanded, seen, waiting) && s in waiting
    requires LookedAt(net, dst, want, s, Ok(false))
    requires seen' == seen + SetOf(Hops(net, s).value)
    requires waiting' == (waiting - {s}) + (seen' - seen)
    ensures Explored(net, start, dst, want, expanded + [s], seen', waiting')
  {
    HopsReachable(net, start, s);
    assert SetOf(expanded + [s]) == SetOf(expanded) + {s};
    assert forall i | 0 <= i < |expanded| :: expanded[i] in SetOf(expanded);
  }

  lemma HopsReachable(net: Net, start: State, s: State)
    requires Reachable(net, start, s) && s.dp in net.switches && s.dp in net.links && Hops(net, s).Ok?
    ensures forall t | t in SetOf(Hops(net, s).value) :: Reachable(net, start, t)
  {
    forall t | t in Hops(net, s).value ensures Reachable(net, start, t) {
      assert Edge(net, s, t);
      ReachesFurther(net, start, s, t);
    }
  }

  lemma AnsweredBy(net: Net, start: State, dst: DpId, want: Expected, s: State, r: Result<bool>)
    requires Reachable(net, start, s)
    requires LookedAt(net, dst, want, s, r) && r != Ok(false)
    ensures Answers(net, start, dst, want, r)
  {
  }

  lemma ExploredStart(net: Net, start: State, dst: DpId, want: Expected)
    ensures Explored(net, start, dst, want, [], {start}, {start})
  {
    ReachesItself(net, start);
    assert SetOf([]) == {};
  }

  /** With nothing left waiting, no reachable state accepts. */
  lemma ExploredAll(net: Net, start: State, dst: DpId, want: Expected, expanded: seq<State>, seen: set<State>)
    requires Explored(net, start, dst, want, expanded, seen, {})
    ensures Answers(net, start, dst, want, Ok(false))
  {
    forall t | Reachable(net, start, t) ensures !Accepts(net, dst, want, t) {
      var path :| IsPath(net, path) && path[0] == start && path[|path| - 1] == t;
      forall u, v | u in seen && Edge(net, u, v) ensures v in seen {
        assert u in expanded && v in SetOf(Hops(net, u).value);
      }
      ClosedHoldsPath(net, seen, path);
      assert t in expanded;
    }
  }

  /** With nothing left waiting, exactly the reachable states have been expanded. */
  lemma ExploredReachable(
    net: Net, start: State, dst: DpId, want: Expected, expanded: seq<State>, seen: set<State>)
    requires Explored(net, start, dst, want, expanded, seen, {})
    ensures forall t :: t in expanded <==> Reachable(net, start, t)
  {
    forall t | Reachable(net, start, t) ensures t in expanded {
      var path :| IsPath(net, path) && path[0] == start && path[|path| - 1] == t;
      forall u, v | u in seen && Edge(net, u, v) ensures v in seen {
        assert u in expanded && v in SetOf(Hops(net, u).value);
      }
      ClosedHoldsPath(net, seen, path);
    }
  }

  /** The answer, and what was looked at: nothing twice, only what is reachable, and all of it before a no. */
  ghost predicate Found(
    net: Net, start: State, dst: DpId, want: Expected, r: Result<bool>, expanded: seq<State>)
  {
    && Answers(net, start, dst, want, r)
    && (forall i, j | 0 <= i < j < |expanded| :: expanded[i] != expanded[j])
    && (forall t | t in expanded :: Reachable(net, start, t) && !Accepts(net, dst, want, t))
    && (r == Ok(false) ==> forall t | Reachable(net, start, t) :: t in expanded)
  }

  // ---------------------------------------------------------------------------------------------
  // Fields never appear from nowhere
  // ---------------------------------------------------------------------------------------------

  predicate ActionsUse(actions: seq<Action>, fields: set<Field>) {
    forall a | a in actions && a.SetField? :: a.key in fields
  }

  predicate GroupsUse(groups: Groups, fields: set<Field>) {
    forall g, b | g in groups && b in groups[g] :: ActionsUse(b, fields)
  }

  predicate InstructionsUse(ins: seq<Instruction>, fields: set<Field>) {
    forall i | i in ins && i.ApplyActions? :: ActionsUse(i.actions, fields)
  }

  predicate SwitchUses(s: Switch, fields: set<Field>) {
    GroupsUse(s.groups, fields) &&
    forall id, e | 0 <= id < |s.tables| && e in s.tables[id] :: InstructionsUse(e.instructions, fields)
  }

  const OWN_FIELDS: set<Field> := {VlanVid, EncapVid, Metadata, InPort}

  predicate OutputsWithin(o: Outputs<Packet>, fields: set<Field>) {
    forall x, pkt | x in o && pkt in x.pkts :: pkt.Keys <= fields
  }

  lemma ExtendWithin(o: Outputs<Packet>, port: PortNo, pkts: seq<Packet>, fields: set<Field>)
    requires OutputsWithin(o, fields) && forall pkt | pkt in pkts :: pkt.Keys <= fields
    ensures OutputsWithin(Extend(o, port, pkts), fields)
  {
    if o != [] {
      ExtendWithin(o[1..], port, pkts, fields);
    }
  }

  lemma ExtendAllWithin(o: Outputs<Packet>, more: Outputs<Packet>, fields: set<Field>)
    requires OutputsWithin(o, fields) && OutputsWithin(more, fields)
    ensures OutputsWithin(ExtendAll(o, more), fields)
    decreases |more|
  {
    if more != [] {
      ExtendWithin(o, more[0].port, more[0].pkts, fields);
      ExtendAllWithin(Extend(o, more[0].port, more[0].pkts), more[1..], fields);
    }
  }

  ghost predicate StateWithin(st: ActionState, fields: set<Field>) {
    st.pkt.Keys <= fields && OutputsWithin(st.outs, fields)
  }

  lemma {:induction false} RunWithin(
    groups: Groups, active: set<GroupId>, st: ActionState, actions: seq<Action>, fields: set<Field>)
    requires OWN_FIELDS <= fields && GroupsUse(groups, fields) && ActionsUse(actions, fields)
    requires StateWithin(st, fields) && RunActions(groups, active, st, actions).Ok?
    ensures StateWithin(RunActions(groups, active, st, actions).value, fields)
    decreases groups.Keys - active, 1, |actions|
  {
    if actions != [] {
      var a := actions[0];
      assert a in actions && forall x | x in actions[1..] :: x in actions;
      match a {
        case Output(port) => ExtendWithin(st.outs, port, [st.pkt], fields);
        case Group(id) =>
          BucketsWithin(groups, active + {id}, st.(pending := st.pending + [a]), groups[id], fields);
        case _ =>
      }
      RunWithin(groups, active, ActOn(groups, active, st, a).value, actions[1..], fields);
    }
  }

  lemma {:induction false} BucketsWithin(
    groups: Groups, active: set<GroupId>, st: ActionState, buckets: Buckets, fields: set<Field>)
    requires OWN_FIELDS <= fields && GroupsUse(groups, fields)
    requires forall b | b in buckets :: ActionsUse(b, fields)
    requires StateWithin(st, fields) && RunBuckets(groups, active, st, buckets).Ok?
    ensures StateWithin(RunBuckets(groups, active, st, buckets).value, fields)
    decreases groups.Keys - active, 2, |buckets|
  {
    if buckets != [] {
      assert buckets[0] in buckets;
      var start := ActionState([], st.pkt, []);
      RunWithin(groups, active, start, buckets[0], fields);
      var b := RunActions(groups, active, start, buckets[0]).value;
      ExtendAllWithin(st.outs, b.outs, fields);
      BucketsWithin(groups, active, AfterBucket(st, b.outs), buckets[1..], fields);
    }
  }

  lemma {:induction false} ExecuteWithin(
    groups: Groups, id: TableId, st: TableState, ins: seq<Instruction>, fields: set<Field>)
    requires OWN_FIELDS <= fields && GroupsUse(groups, fields) && InstructionsUse(ins, fields)
    requires st.pkt.Keys <= fields && OutputsWithin(st.outs, fields) && ExecuteAll(groups, id, st, ins).Ok?
    ensures
      var r := ExecuteAll(groups, id, st, ins).value;
      r.pkt.Keys <= fields && OutputsWithin(r.outs, fields)
    decreases |ins|
  {
    if ins != [] {
      assert ins[0] in ins && forall x | x in ins[1..] :: x in ins;
      if ins[0].ApplyActions? {
        var start := ActionState([], st.pkt, []);
        RunWithin(groups, {}, start, ins[0].actions, fields);
        ExtendAllWithin(st.outs, RunActions(groups, {}, start, ins[0].actions).value.outs, fields);
      }
      ExecuteWithin(groups, id, Execute(groups, id, st, ins[0]).value, ins[1..], fields);
    }
  }

  lemma TableWithin(s: Switch, pkt: Packet, id: TableId, fields: set<Field>)
    requires OWN_FIELDS <= fields && SwitchUses(s, fields) && pkt.Keys <= fields
    requires OutputOfTable(s.tables, s.groups, pkt, id).Ok?
    ensures
      var t := OutputOfTable(s.tables, s.groups, pkt, id).value;
      t.pkt.Keys <= fields && OutputsWithin(t.outs, fields)
  {
    var fte := Lookup(s.tables[id], pkt);
    LookupIsMember(s.tables[id], pkt);
    ExecuteWithin(s.groups, id, TableState([], pkt, None, []), InstructionsOf(fte), fields);
  }

  lemma AddNewMembers(known: seq<Packet>, pkts: seq<Packet>)
    ensures forall x :: x in AddNew(known, pkts) <==> x in known || x in pkts
    decreases |pkts|
  {
    if pkts != [] {
      AddNewMembers(if pkts[0] in known then known else known + [pkts[0]], pkts[1..]);
      assert forall x :: x in pkts <==> x == pkts[0] || x in pkts[1..];
    }
  }

  lemma MergeWithin(o: Outputs<Packet>, port: PortNo, pkts: seq<Packet>, fields: set<Field>)
    requires OutputsWithin(o, fields) && forall pkt | pkt in pkts :: pkt.Keys <= fields
    ensures OutputsWithin(MergeNew(o, port, pkts), fields)
  {
    if o == [] {
      AddNewMembers([], pkts);
    } else {
      AddNewMembers(o[0].pkts, pkts);
      assert o[0] in o && forall x | x in o[1..] :: x in o;
      if o[0].port != port {
        MergeWithin(o[1..], port, pkts, fields);
      }
    }
  }

  lemma MergeAllWithin(o: Outputs<Packet>, more: Outputs<Packet>, fields: set<Field>)
    requires OutputsWithin(o, fields) && OutputsWithin(more, fields)
    ensures OutputsWithin(MergeAllNew(o, more), fields)
    decreases |more|
  {
    if more != [] {
      assert more[0] in more;
      MergeWithin(o, more[0].port, more[0].pkts, fields);
      MergeAllWithin(MergeNew(o, more[0].port, more[0].pkts), more[1..], fields);
    }
  }

  lemma {:induction false} PortOutputsWithin(
      s: Switch, o: Outputs<Packet>, pkt: Packet, id: TableId, fields: set<Field>)
    requires OWN_FIELDS <= fields && SwitchUses(s, fields) && pkt.Keys <= fields && OutputsWithin(o, fields)
    requires PortOutputsFrom(s.tables, s.groups, o, pkt, id).Ok?
    ensures OutputsWithin(PortOutputsFrom(s.tables, s.groups, o, pkt, id).value, fields)
    decreases |s.tables| - id
  {
    TableWithin(s, pkt, id, fields);
    var t := OutputOfTable(s.tables, s.groups, pkt, id).value;
    MergeAllWithin(o, t.outs, fields);
    if t.next.Some? {
      PortOutputsWithin(s, MergeAllNew(o, t.outs), t.pkt, t.next.value, fields);
    }
  }

  lemma {:induction false} HopsOverWithin(
      links: Links, pkt: Packet, o: Outputs<Packet>, fields: set<Field>, dps: set<DpId>)
    requires InPort in fields && OutputsWithin(o, fields) && HopsOver(links, pkt, o).Ok?
    requires forall p | p in links && links[p].Stacked? :: links[p].dp in dps
    ensures forall t | t in HopsOver(links, pkt, o).value :: t.pkt.Keys <= fields && t.dp in dps
  {
    if o != [] {
      HopsOverWithin(links, pkt, o[1..], fields, dps);
      var port := RealPort(pkt, o[0].port).value;
      assert o[0] in o;
      if port in links {
        forall t | t in Arrivals(links[port], o[0].pkts) ensures t.pkt.Keys <= fields && t.dp in dps {
          var i :| 0 <= i < |o[0].pkts| && Arrivals(links[port], o[0].pkts)[i] == t;
          assert o[0].pkts[i] in o[0].pkts;
        }
      }
    }
  }

  ghost predicate NetUses(net: Net, fields: set<Field>) {
    OWN_FIELDS <= fields && forall d | d in net.switches :: SwitchUses(net.switches[d], fields)
  }

  lemma EdgeWithin(net: Net, s: State, t: State, fields: set<Field>)
    requires ValidNet(net) && NetUses(net, fields) && s.pkt.Keys <= fields && Edge(net, s, t)
    ensures t.pkt.Keys <= fields && t.dp in net.switches
  {
    var sw := net.switches[s.dp];
    PortOutputsWithin(sw, [], s.pkt, 0, fields);
    var o := PortOutputsFrom(sw.tables, sw.groups, [], s.pkt, 0).value;
    HopsOverWithin(net.links[s.dp], s.pkt, o, fields, net.switches.Keys);
  }

  // ---------------------------------------------------------------------------------------------
  // The fields a network uses, and the finite set of states over them
  // ---------------------------------------------------------------------------------------------

  ghost function FieldsSet(actions: seq<Action>): (r: set<Field>) {
    set a | a in actions && a.SetField? :: a.key
  }

  ghost function GroupFields(groups: Groups): (r: set<Field>) {
    set g, b, f | g in groups && b in groups[g] && f in FieldsSet(b) :: f
  }

  ghost function TableFields(t: Table): (r: set<Field>) {
    set e, i, f | e in t && i in e.instructions && i.ApplyActions? && f in FieldsSet(i.actions) :: f
  }

  ghost function TablesFields(ts: Tables): (r: set<Field>) {
    set t, f | t in ts && f in TableFields(t) :: f
  }

  ghost function NetFields(net: Net): (r: set<Field>) {
    (set d, f | d in net.switches && f in GroupFields(net.switches[d].groups) :: f) +
    (set d, f | d in net.switches && f in TablesFields(net.switches[d].tables) :: f) +
    OWN_FIELDS
  }

  lemma NetUsesItsFields(net: Net, more: set<Field>)
    ensures NetUses(net, NetFields(net) + more)
  {
    var fields := NetFields(net) + more;
    forall d | d in net.switches ensures SwitchUses(net.switches[d], fields) {
      var s := net.switches[d];
      forall g, b | g in s.groups && b in s.groups[g] ensures ActionsUse(b, fields) {
        forall a | a in b && a.SetField? ensures a.key in fields {
          assert a.key in FieldsSet(b);
          assert a.key in GroupFields(s.groups);
        }
      }
      forall id, e | 0 <= id < |s.tables| && e in s.tables[id] ensures InstructionsUse(e.instructions, fields) {
        forall i, a | i in e.instructions && i.ApplyActions? && a in i.actions && a.SetField?
          ensures a.key in fields
        {
          assert a.key in FieldsSet(i.actions);
          assert a.key in TableFields(s.tables[id]);
          assert a.key in TablesFields(s.tables);
        }
      }
    }
  }

  ghost function Subsets(bits: Word): (r: set<Word>) {
    if bits == {} then {{}}
    else
      var b :| b in bits;
      var rest := Subsets(bits - {b});
      rest + set w | w in rest :: w + {b}
  }

  lemma SubsetsComplete(bits: Word, w: Word)
    requires w <= bits
    ensures w in Subsets(bits)
  {
    if bits == {} {
      assert w == {};
    } else {
      var b :| b in bits && Subsets(bits) == Subsets(bits - {b}) + set v | v in Subsets(bits - {b}) :: v + {b};
      if b in w {
        SubsetsComplete(bits - {b}, w - {b});
        assert w == (w - {b}) + {b};
      } else {
        SubsetsComplete(bits - {b}, w);
      }
    }
  }

  ghost const ALL_WORDS: set<Word> := Subsets(BitRange(0, 128))

  lemma EveryWord(w: Word)
    ensures w in ALL_WORDS
  {
    forall b | b in w ensures b in BitRange(0, 128) {
      var bit: Bit := b;
      assert 0 <= bit < 128;
    }
    SubsetsComplete(BitRange(0, 128), w);
  }

  function WithField(p: Packet, f: Field, w: Word): (r: Packet) {
    p[f := w]
  }

  ghost function Widened(ps: set<Packet>, f: Field): (r: set<Packet>)
    ensures ps <= r
  {
    ps + set p, w | p in ps && w in ALL_WORDS :: WithField(p, f, w)
  }

  ghost function PacketsOver(fields: set<Field>): (r: set<Packet>) {
    if fields == {} then {map[]}
    else
      var f :| f in fields;
      Widened(PacketsOver(fields - {f}), f)
  }

  lemma WidenedHolds(ps: set<Packet>, f: Field, pkt: Packet)
    requires f in pkt && pkt - {f} in ps
    ensures pkt in Widened(ps, f)
  {
    EveryWord(pkt[f]);
    assert pkt == WithField(pkt - {f}, f, pkt[f]);
  }

  lemma PacketsOverComplete(fields: set<Field>, pkt: Packet)
    requires pkt.Keys <= fields
    ensures pkt in PacketsOver(fields)
  {
    if fields == {} {
      assert pkt == map[];
    } else {
      var f :| f in fields && PacketsOver(fields) == Widened(PacketsOver(fields - {f}), f);
      if f in pkt {
        PacketsOverComplete(fields - {f}, pkt - {f});
        WidenedHolds(PacketsOver(fields - {f}), f, pkt);
      } else {
        PacketsOverComplete(fields - {f}, pkt);
        assert pkt in PacketsOver(fields - {f});
        assert pkt in Widened(PacketsOver(fields - {f}), f);
      }
    }
  }

  /** All states whose packets carry only the given fields. */
  ghost function Universe(net: Net, fields: set<Field>): (r: set<State>) {
    set d, p | d in net.switches && p in PacketsOver(fields) :: State(d, p)
  }

  /** Whatever the rules, a packet can only reach finitely many states: those of this finite set. */
  lemma {:induction false} ReachableIsFinite(net: Net, s: State, t: State)
    requires ValidNet(net) && s.dp in net.switches && Reachable(net, s, t)
    ensures t in Universe(net, NetFields(net) + s.pkt.Keys)
  {
    var fields := NetFields(net) + s.pkt.Keys;
    NetUsesItsFields(net, s.pkt.Keys);
    var path :| IsPath(net, path) && path[0] == s && path[|path| - 1] == t;
    var all := Universe(net, fields);
    PacketsOverComplete(fields, s.pkt);
    forall u, v | u in all && u.pkt.Keys <= fields && Edge(net, u, v) ensures v in all && v.pkt.Keys <= fields {
      EdgeWithin(net, u, v, fields);
      PacketsOverComplete(fields, v.pkt);
    }
    PathStaysWithin(net, path, fields, all);
  }

  lemma {:induction false} PathStaysWithin(net: Net, path: seq<State>, fields: set<Field>, all: set<State>)
    requires IsPath(net, path) && path[0] in all && path[0].pkt.Keys <= fields
    requires forall u, v | u in all && u.pkt.Keys <= fields && Edge(net, u, v) :: v in all && v.pkt.Keys <= fields
    ensures path[|path| - 1] in all && path[|path| - 1].pkt.Keys <= fields
    decreases |path|
  {
    if |path| > 1 {
      var shorter := path[..|path| - 1];
      assert forall i | 0 <= i < |shorter| :: shorter[i] == path[i];
      PathStaysWithin(net, shorter, fields, all);
      assert Edge(net, path[|path| - 2], path[|path| - 1]);
    }
  }

  /** A finite set that bounds every search from s. */
  lemma FiniteBound(net: Net, s: State) returns (all: set<State>)
    requires ValidNet(net) && s.dp in net.switches
    ensures forall t | Reachable(net, s, t) :: t in all && t.dp in net.switches
  {
    all := Universe(net, NetFields(net) + s.pkt.Keys);
    forall t | Reachable(net, s, t) ensures t in all && t.dp in net.switches {
      ReachableIsFinite(net, s, t);
    }
  }
}
