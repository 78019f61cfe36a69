/**
 Flow mods applied to a sequence of tables, as functions on table contents.  FakeSwitch holds the
 loops that compute these in place.
 */
module FlowTables {
  import opened Packets
  import opened FlowEntries

  type Table = seq<Entry>
  type Tables = seq<Table>

  datatype Command = Add | Delete | DeleteStrict | Modify | ModifyStrict

  datatype TableRef = AllTables | One(id: TableId)

  // An OFPFlowMod message; outPort is None for OFPP_ANY.
  datatype FlowMod = FlowMod(
    command: Command,
    target: TableRef,
    priority: nat,
    match_: Match,
    instructions: seq<Instruction>,
    outPort: Option<PortNo>)

  datatype GroupCommand = GroupAdd | GroupModify | GroupDelete | GroupDeleteAll

  datatype OfMsg =
    | Flow(mod: FlowMod)
    | GroupMod(command: GroupCommand, id: GroupId, buckets: Buckets)
    | Ignorable      // barriers, packet outs, set config, set async, description and meter requests
    | Unsupported

  // Refused is a FakeOFTableException; Crashed is any other exception, which nothing catches.
  datatype Status = Accepted | Refused | Crashed

  datatype Switch = Switch(tables: Tables, groups: Groups)

  // ---------------------------------------------------------------------------------------------
  // From message to FlowMod object
  // ---------------------------------------------------------------------------------------------

  function Kind(i: Instruction): (r: nat) {
    match i
    case GotoTable(_) => 0
    case ApplyActions(_) => 1
    case WriteMetadata(_, _) => 2
    case OtherInstruction(kind) => kind + 3
  }

  predicate DistinctKinds(instructions: seq<Instruction>) {
    forall i, j | 0 <= i < j < |instructions| :: Kind(instructions[i]) != Kind(instructions[j])
  }

  function Masked(m: Match): (r: Match)
    ensures WellMasked(r)
  {
    map k | k in m :: FieldMatch(m[k].value * m[k].mask, m[k].mask)
  }

  function MakeEntry(fm: FlowMod): (r: Entry) {
    Entry(fm.priority, Masked(fm.match_), fm.instructions,
          if fm.command in {Delete, DeleteStrict} then fm.outPort else None)
  }

  // ---------------------------------------------------------------------------------------------
  // One request on one table
  // ---------------------------------------------------------------------------------------------

  /** Scan from the front: an equal match is replaced (moving to the back), an overlap refuses. */
  function AddTo(t: Table, e: Entry): (r: Result<Table>) {
    if t == [] then Ok([e])
    else if StrictMatches(e, t[0]) then Ok(t[1..] + [e])
    else if Overlaps(e, t[0]) then Raised
    else match AddTo(t[1..], e)
      case Ok(rest) => Ok([t[0]] + rest)
      case Raised => Raised
  }

  function Unselected(t: Table, request: Entry): (r: Table) {
    if t == [] then []
    else if FteMatches(request, t[0]) then Unselected(t[1..], request)
    else [t[0]] + Unselected(t[1..], request)
  }

  function DeleteStrictFrom(t: Table, request: Entry): (r: Table) {
    if t == [] then []
    else if StrictMatches(request, t[0]) then t[1..]
    else [t[0]] + DeleteStrictFrom(t[1..], request)
  }

  function ModifyIn(t: Table, request: Entry): (r: Table) {
    seq(|t|, i requires 0 <= i < |t| =>
      if FteMatches(request, t[i]) then t[i].(instructions := request.instructions) else t[i])
  }

  function ModifyStrictIn(t: Table, request: Entry): (r: Table) {
    if t == [] then []
    else if StrictMatches(request, t[0]) then [t[0].(instructions := request.instructions)] + t[1..]
    else [t[0]] + ModifyStrictIn(t[1..], request)
  }

  function Apply(t: Table, command: Command, e: Entry): (r: Result<Table>) {
    match command
    case Add => AddTo(t, e)
    case Delete => Ok(Unselected(t, e))
    case DeleteStrict => Ok(DeleteStrictFrom(t, e))
    case Modify => Ok(ModifyIn(t, e))
    case ModifyStrict => Ok(ModifyStrictIn(t, e))
  }

  // ---------------------------------------------------------------------------------------------
  // Stable sort by descending priority
  // ---------------------------------------------------------------------------------------------

  function Insert(e: Entry, t: Table): (r: Table) {
    if t == [] || e.priority >= t[0].priority then [e] + t
    else [t[0]] + Insert(e, t[1..])
  }

  function Sort(t: Table): (r: Table) {
    if t == [] then [] else Insert(t[0], Sort(t[1..]))
  }

  function SortTables(ts: Tables): (r: Tables)
    ensures |r| == |ts|
  {
    seq(|ts|, i requires 0 <= i < |ts| => Sort(ts[i]))
  }

  // ---------------------------------------------------------------------------------------------
  // Messages and runs
  // ---------------------------------------------------------------------------------------------

  /** Tables from..upto-1 one after the other; a refusal keeps what the earlier tables became. */
  function ApplyRange(ts: Tables, from: nat, upto: nat, command: Command, e: Entry): (r: (Tables, Status))
    requires from <= upto <= |ts|
    ensures |r.0| == |ts| && r.1 != Crashed
    decreases upto - from
  {
    if from == upto then (ts, Accepted)
    else match Apply(ts[from], command, e)
      case Ok(t) => ApplyRange(ts[from := t], from + 1, upto, command, e)
      case Raised => (ts, Refused)
  }

  function ApplyFlowMod(ts: Tables, fm: FlowMod): (r: (Tables, Status))
    ensures |r.0| == |ts|
  {
    if fm.target.One? && fm.target.id >= |ts| then (ts, Crashed)
    else if !DistinctKinds(fm.instructions) then (ts, Refused)
    else
      var from := if fm.target.One? then fm.target.id else 0;
      var upto := if fm.target.One? then fm.target.id + 1 else |ts|;
      ApplyRange(ts, from, upto, fm.command, MakeEntry(fm))
  }

  function ApplyGroupMod(groups: Groups, command: GroupCommand, id: GroupId, buckets: Buckets): (r: (Groups, Status))
  {
    match command
    case GroupDeleteAll => (map[], Accepted)
    case GroupDelete => (groups - {id}, Accepted)
    case GroupAdd => if id in groups then (groups, Refused) else (groups[id := buckets], Accepted)
    case GroupModify => if id !in groups then (groups, Refused) else (groups[id := buckets], Accepted)
  }

  /** One message.  Only an accepted flow mod is followed by a sort of every table. */
  function Step(s: Switch, msg: OfMsg): (r: (Switch, Status))
    ensures |r.0.tables| == |s.tables|
  {
    match msg
    case Ignorable => (s, Accepted)
    case Unsupported => (s, Refused)
    case GroupMod(command, id, buckets) =>
      var (groups, status) := ApplyGroupMod(s.groups, command, id, buckets);
      (s.(groups := groups), status)
    case Flow(fm) =>
      var (tables, status) := ApplyFlowMod(s.tables, fm);
      (s.(tables := if status == Accepted then SortTables(tables) else tables), status)
  }

  predicate Stops(status: Status, ignoreErrors: bool) {
    status == Crashed || (status == Refused && !ignoreErrors)
  }

  function Run(s: Switch, msgs: seq<OfMsg>, ignoreErrors: bool): (r: (Switch, Status))
    ensures |r.0.tables| == |s.tables|
    decreases |msgs|
  {
    if msgs == [] then (s, Accepted)
    else
      var (s', status) := Step(s, msgs[0]);
      if Stops(status, ignoreErrors) then (s', status)
      else Run(s', msgs[1..], ignoreErrors)
  }
}
