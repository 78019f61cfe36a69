/**
 A packet's way through the tables of one switch: the actions of an entry, the outputs of a table,
 and the two evaluators of the whole pipeline, as functions.  FakeSwitch holds the loops.
 */
module Pipeline {
  import opened Packets
  import opened FlowEntries
  import opened FlowTables
  import opened TableLookup

  // ---------------------------------------------------------------------------------------------
  // Ordered maps from port to packets
  // ---------------------------------------------------------------------------------------------

  // P is Packet here; VlanStack puts tag stacks in its place.
  datatype PortPackets<+P> = PortPackets(port: PortNo, pkts: seq<P>)

  type Outputs<+P> = seq<PortPackets<P>>

  /** setdefault(port, []).extend(pkts) on an OrderedDict. */
  function Extend<P>(o: Outputs<P>, port: PortNo, pkts: seq<P>): (r: Outputs<P>) {
    if o == [] then [PortPackets(port, pkts)]
    else if o[0].port == port then [PortPackets(port, o[0].pkts + pkts)] + o[1..]
    else [o[0]] + Extend(o[1..], port, pkts)
  }

  function ExtendAll<P>(o: Outputs<P>, more: Outputs<P>): (r: Outputs<P>)
    decreases |more|
  {
    if more == [] then o else ExtendAll(Extend(o, more[0].port, more[0].pkts), more[1..])
  }

  function PacketsAt<P>(o: Outputs<P>, port: PortNo): (r: seq<P>) {
    if o == [] then []
    else if o[0].port == port then o[0].pkts
    else PacketsAt(o[1..], port)
  }

  // ---------------------------------------------------------------------------------------------
  // Actions
  // ---------------------------------------------------------------------------------------------

  datatype ActionState = ActionState(outs: Outputs<Packet>, pkt: Packet, pending: seq<Action>)

  function PushedVlan(pkt: Packet): (r: Packet) {
    (if VlanVid in pkt && Tagged(pkt[VlanVid]) then pkt[EncapVid := pkt[VlanVid]] else pkt)
    [VlanVid := VID_PRESENT]
  }

  function PoppedVlan(pkt: Packet): (r: Packet) {
    var bare := pkt - {VlanVid, VlanPcp};
    if EncapVid in bare then (bare - {EncapVid})[VlanVid := bare[EncapVid]]
    else bare[VlanVid := {}]
  }

  /**
   One action.  Entering a group that is already being processed never ends in the original, which
   then raises for exhausted recursion unless something else raises first.
   */
  function ActOn(groups: Groups, active: set<GroupId>, st: ActionState, action: Action): (r: Result<ActionState>)
    decreases groups.Keys - active, 0, 0
  {
    var st' := st.(pending := st.pending + [action]);
    match action
    case Output(port) => Ok(ActionState(Extend(st.outs, port, [st.pkt]), st.pkt, []))
    case SetField(key, value) => Ok(st'.(pkt := st.pkt[key := value]))
    case PushVlan => Ok(st'.(pkt := PushedVlan(st.pkt)))
    case PopVlan => if VlanVid in st.pkt then Ok(st'.(pkt := PoppedVlan(st.pkt))) else Raised
    case Group(id) =>
      if id !in groups || id in active then Raised
      else RunBuckets(groups, active + {id}, st', groups[id])
    case OtherAction => Ok(st')
  }

  function RunActions(
      groups: Groups, active: set<GroupId>, st: ActionState, actions: seq<Action>): (r: Result<ActionState>)
    decreases groups.Keys - active, 1, |actions|
  {
    if actions == [] then Ok(st)
    else match ActOn(groups, active, st, actions[0])
      case Ok(st') => RunActions(groups, active, st', actions[1..])
      case Raised => Raised
  }

  /** Every bucket starts from the packet as it is now; only its outputs are kept. */
  function RunBuckets(groups: Groups, active: set<GroupId>, st: ActionState, buckets: Buckets): (r: Result<ActionState>)
    decreases groups.Keys - active, 2, |buckets|
  {
    if buckets == [] then Ok(st)
    else match RunActions(groups, active, ActionState([], st.pkt, []), buckets[0])
      case Ok(b) => RunBuckets(groups, active, AfterBucket(st, b.outs), buckets[1..])
      case Raised => Raised
  }

  function AfterBucket(st: ActionState, outs: Outputs<Packet>): (r: ActionState) {
    ActionState(ExtendAll(st.outs, outs), st.pkt, if outs == [] then st.pending else [])
  }

  function ProcessInstruction(groups: Groups, pkt: Packet, actions: seq<Action>): (r: Result<ActionState>) {
    RunActions(groups, {}, ActionState([], pkt, []), actions)
  }

  function WroteMetadata(pkt: Packet, metadata: Word, mask: Word): (r: Packet) {
    var old_ := if Metadata in pkt then pkt[Metadata] else {};
    pkt[Metadata := (old_ * Xor(mask, METADATA_ALL)) + (metadata * mask)]
  }

  // ---------------------------------------------------------------------------------------------
  // One table
  // ---------------------------------------------------------------------------------------------

  datatype TableState = TableState(
    outs: Outputs<Packet>, pkt: Packet, next: Option<TableId>, pending: seq<Action>)

  function Execute(groups: Groups, id: TableId, st: TableState, instruction: Instruction): (r: Result<TableState>)
  {
    match instruction
    case GotoTable(to_) => if id < to_ then Ok(st.(next := Some(to_))) else Raised
    case ApplyActions(actions) =>
      if actions == [] then Raised
      else (match ProcessInstruction(groups, st.pkt, actions)
        case Ok(a) =>
          Ok(st.(outs := ExtendAll(st.outs, a.outs), pkt := a.pkt, pending := a.pending))
        case Raised => Raised)
    case WriteMetadata(metadata, mask) => Ok(st.(pkt := WroteMetadata(st.pkt, metadata, mask)))
    case OtherInstruction(_) => Ok(st)
  }

  function ExecuteAll(
      groups: Groups, id: TableId, st: TableState, instructions: seq<Instruction>): (r: Result<TableState>)
    ensures r.Ok? && r.value.next.Some? ==> r.value.next == st.next || r.value.next.value > id
    decreases |instructions|
  {
    if instructions == [] then Ok(st)
    else match Execute(groups, id, st, instructions[0])
      case Ok(st') => ExecuteAll(groups, id, st', instructions[1..])
      case Raised => Raised
  }

  function InstructionsOf(fte: Option<Entry>): (r: seq<Instruction>) {
    match fte case Some(e) => e.instructions case None => []
  }

  datatype TableOutput = TableOutput(outs: Outputs<Packet>, pkt: Packet, next: Option<TableId>)

  /** A table raises when actions are left over after the last output and nothing comes next. */
  function OutputOfTable(tables: Tables, groups: Groups, pkt: Packet, id: TableId): (r: Result<TableOutput>)
    ensures r.Ok? ==> id < |tables| && (r.value.next.Some? ==> r.value.next.value > id)
  {
    if id >= |tables| then Raised
    else match ExecuteAll(groups, id, TableState([], pkt, None, []), InstructionsOf(Lookup(tables[id], pkt)))
      case Ok(st) =>
        if st.next.None? && st.pending != [] then Raised else Ok(TableOutput(st.outs, st.pkt, st.next))
      case Raised => Raised
  }

  // ---------------------------------------------------------------------------------------------
  // The whole pipeline
  // ---------------------------------------------------------------------------------------------

  datatype Visit = Visit(id: TableId, fte: Option<Entry>, outs: Outputs<Packet>)

  datatype Walk = Walk(visits: seq<Visit>, pkt: Packet)

  /** get_output from table id on: the tables crossed, what each put out, and the final packet. */
  function OutputWalk(tables: Tables, groups: Groups, pkt: Packet, id: TableId): (r: Result<Walk>)
    decreases |tables| - id
  {
    match OutputOfTable(tables, groups, pkt, id)
    case Raised => Raised
    case Ok(t) =>
      var visit := Visit(id, Lookup(tables[id], pkt), t.outs);
      if t.next.None? then Ok(Walk([visit], t.pkt))
      else match OutputWalk(tables, groups, t.pkt, t.next.value)
        case Ok(w) => Ok(Walk([visit] + w.visits, w.pkt))
        case Raised => Raised
  }

  function Prepend(here: Visit, walk: Result<Walk>): (r: Result<Walk>) {
    match walk
    case Raised => Raised
    case Ok(w) => Ok(Walk([here] + w.visits, w.pkt))
  }

  lemma WalkUnfolds(tables: Tables, groups: Groups, pkt: Packet, id: TableId, t: TableOutput)
    requires OutputOfTable(tables, groups, pkt, id) == Ok(t)
    ensures
      var here := Visit(id, Lookup(tables[id], pkt), t.outs);
      OutputWalk(tables, groups, pkt, id) ==
      Prepend(here, if t.next.None? then Ok(Walk([], t.pkt)) else OutputWalk(tables, groups, t.pkt, t.next.value))
  {
    var here := Visit(id, Lookup(tables[id], pkt), t.outs);
    assert [here] + [] == [here];
  }

  datatype TableOutputs = TableOutputs(id: TableId, outs: Outputs<Packet>)

  function ByTable(visits: seq<Visit>): (r: seq<TableOutputs>) {
    seq(|visits|, i requires 0 <= i < |visits| => TableOutputs(visits[i].id, visits[i].outs))
  }

  /** Appends the packets not yet listed. */
  function AddNew(known: seq<Packet>, pkts: seq<Packet>): (r: seq<Packet>)
    decreases |pkts|
  {
    if pkts == [] then known
    else AddNew(if pkts[0] in known then known else known + [pkts[0]], pkts[1..])
  }

  function MergeNew(o: Outputs<Packet>, port: PortNo, pkts: seq<Packet>): (r: Outputs<Packet>) {
    if o == [] then [PortPackets(port, AddNew([], pkts))]
    else if o[0].port == port then [PortPackets(port, AddNew(o[0].pkts, pkts))] + o[1..]
    else [o[0]] + MergeNew(o[1..], port, pkts)
  }

  function MergeAllNew(o: Outputs<Packet>, more: Outputs<Packet>): (r: Outputs<Packet>)
    decreases |more|
  {
    if more == [] then o else MergeAllNew(MergeNew(o, more[0].port, more[0].pkts), more[1..])
  }

  /** get_port_outputs from table id on, having gathered o already. */
  function PortOutputsFrom(
      tables: Tables, groups: Groups, o: Outputs<Packet>, pkt: Packet, id: TableId): (r: Result<Outputs<Packet>>)
    decreases |tables| - id
  {
    match OutputOfTable(tables, groups, pkt, id)
    case Raised => Raised
    case Ok(t) =>
      var o' := MergeAllNew(o, t.outs);
      if t.next.None? then Ok(o') else PortOutputsFrom(tables, groups, o', t.pkt, t.next.value)
  }

  // ---------------------------------------------------------------------------------------------
  // Is the packet put out as expected?
  // ---------------------------------------------------------------------------------------------

  datatype Emission = Emission(port: PortNo, pkt: Packet)

  function AtPort(port: PortNo, pkts: seq<Packet>): (r: seq<Emission>) {
    seq(|pkts|, i requires 0 <= i < |pkts| => Emission(port, pkts[i]))
  }

  function Emissions(o: Outputs<Packet>): (r: seq<Emission>) {
    if o == [] then [] else AtPort(o[0].port, o[0].pkts) + Emissions(o[1..])
  }

  function AllEmissions(ts: seq<TableOutputs>): (r: seq<Emission>) {
    if ts == [] then [] else Emissions(ts[0].outs) + AllEmissions(ts[1..])
  }

  datatype Expected = Expected(port: Option<PortNo>, vid: Option<Word>)

  datatype Verdict = Continue | Answer(found: bool) | KeyError

  /** Does this output leave by the port asked for, perhaps named as the ingress port? */
  predicate LeavesBy(port: PortNo, inPort: Option<PortNo>, outPort: PortNo) {
    port == outPort || (outPort == OFPP_IN_PORT && inPort == Some(port))
  }

  predicate CarriesVid(vid: Word, pkt: Packet) {
    if !Tagged(vid) then VlanVid in pkt ==> !Tagged(pkt[VlanVid])
    else VlanVid in pkt && pkt[VlanVid] == vid
  }

  function Judge(want: Expected, inPort: Option<PortNo>, e: Emission): (r: Verdict) {
    if want.port == Some(e.port) && InPort !in e.pkt then KeyError
    else if want.port == Some(e.port) && e.pkt[InPort] == e.port then Continue
    else if want.port.None? then Answer(true)
    else if !LeavesBy(want.port.value, inPort, e.port) then Continue
    else if want.vid.None? then Answer(true)
    else Answer(CarriesVid(want.vid.value, e.pkt))
  }

  /** The first verdict other than Continue. */
  function Scan(want: Expected, inPort: Option<PortNo>, es: seq<Emission>): (r: Verdict) {
    if es == [] then Continue
    else if Judge(want, inPort, es[0]) != Continue then Judge(want, inPort, es[0])
    else Scan(want, inPort, es[1..])
  }

  function FieldOf(pkt: Packet, f: Field): (r: Option<Word>) {
    if f in pkt then Some(pkt[f]) else None
  }

  function FullOutput(tables: Tables, groups: Groups, pkt: Packet, want: Expected): (r: Result<bool>) {
    match OutputWalk(tables, groups, pkt, 0)
    case Raised => Raised
    case Ok(w) =>
      match Scan(want, FieldOf(pkt, InPort), AllEmissions(ByTable(w.visits)))
      case Continue => Ok(false)
      case Answer(found) => Ok(found)
      case KeyError => Raised
  }

  // ---------------------------------------------------------------------------------------------
  // The second evaluator
  // ---------------------------------------------------------------------------------------------

  // It keeps only what rewrites the packet or chooses the next table.

  datatype LookupState = LookupState(pkt: Packet, id: TableId, again: bool)

  function LookupActions(pkt: Packet, actions: seq<Action>): (r: Packet)
    decreases |actions|
  {
    if actions == [] then pkt
    else
      LookupActions(
        match actions[0] case SetField(key, value) => pkt[key := value] case _ => pkt,
        actions[1..])
  }

  function LookupExecute(st: LookupState, instruction: Instruction): (r: LookupState)
    ensures r.id >= st.id && (r.again && !st.again ==> r.id > st.id)
  {
    match instruction
    case GotoTable(to_) => if st.id < to_ then st.(id := to_, again := true) else st
    case ApplyActions(actions) => st.(pkt := LookupActions(st.pkt, actions))
    case WriteMetadata(metadata, mask) => st.(pkt := WroteMetadata(st.pkt, metadata, mask))
    case OtherInstruction(_) => st
  }

  function LookupExecuteAll(st: LookupState, instructions: seq<Instruction>): (r: LookupState)
    ensures r.id >= st.id && (r.again && !st.again ==> r.id > st.id)
    decreases |instructions|
  {
    if instructions == [] then st
    else LookupExecuteAll(LookupExecute(st, instructions[0]), instructions[1..])
  }

  datatype LookupVisit = LookupVisit(id: TableId, fte: Option<Entry>)

  datatype LookupResult = LookupResult(visits: seq<LookupVisit>, instructions: seq<Instruction>, pkt: Packet)

  /** lookup from table id on. */
  function LookupWalk(tables: Tables, pkt: Packet, id: TableId): (r: Result<LookupResult>)
    decreases |tables| - id
  {
    if id >= |tables| then Raised
    else
      var fte := Lookup(tables[id], pkt);
      var st := LookupExecuteAll(LookupState(pkt, id, false), InstructionsOf(fte));
      if !st.again then Ok(LookupResult([LookupVisit(id, fte)], InstructionsOf(fte), st.pkt))
      else match LookupWalk(tables, st.pkt, st.id)
        case Ok(r) =>
          Ok(LookupResult([LookupVisit(id, fte)] + r.visits, InstructionsOf(fte) + r.instructions, r.pkt))
        case Raised => Raised
  }
}
