/** The mutable switch: its entry objects, tables and groups, updated in place by loops that compute
    EntryObjects' functions, and read by loops that compute Pipeline's. */
module FakeSwitch {
  import opened Packets
  import opened FlowEntries
  import opened FlowTables
  import opened TableLookup
  import opened Pipeline
  import opened EntryObjects

  // ---------------------------------------------------------------------------------------------
  // Removing by equality
  // ---------------------------------------------------------------------------------------------

  /** list.remove: drops the first object that compares equal to e. */
  function RemoveFirst(store: Store, row: Row, e: Entry): (r: Row)
    requires RefsIn(row, |store|)
    ensures RefsIn(r, |store|)
  {
    if row == [] then []
    else if store[row[0]] == e then row[1..]
    else [row[0]] + RemoveFirst(store, row[1..], e)
  }

  function Selected(store: Store, row: Row, request: Entry): (r: Row)
    requires RefsIn(row, |store|)
    ensures RefsIn(r, |store|) && forall i | 0 <= i < |r| :: FteMatches(request, store[r[i]])
  {
    if row == [] then []
    else if FteMatches(request, store[row[0]]) then [row[0]] + Selected(store, row[1..], request)
    else Selected(store, row[1..], request)
  }

  /**
   Removing the first selected object by equality takes that very object out: an earlier equal one would
   have been selected before it.
   */
  lemma {:induction false} RemovingFirstSelected(store: Store, row: Row, request: Entry)
    requires RefsIn(row, |store|) && Selected(store, row, request) != []
    ensures
      var r := RemoveFirst(store, row, store[Selected(store, row, request)[0]]);
      && Selected(store, r, request) == Selected(store, row, request)[1..]
      && UnselectedRow(store, r, request) == UnselectedRow(store, row, request)
  {
    var first := Selected(store, row, request)[0];
    if !FteMatches(request, store[row[0]]) {
      var tail := row[1..];
      RemovingFirstSelected(store, tail, request);
      assert FteMatches(request, store[first]);
      var rest := RemoveFirst(store, tail, store[first]);
      assert ([row[0]] + rest)[1..] == rest;
    }
  }

  lemma NothingSelected(store: Store, row: Row, request: Entry)
    requires RefsIn(row, |store|) && Selected(store, row, request) == []
    ensures UnselectedRow(store, row, request) == row
  {
  }

  // ---------------------------------------------------------------------------------------------
  // Scanning prefixes
  // ---------------------------------------------------------------------------------------------

  lemma SplitCons<T>(t: seq<T>, i: nat, r: seq<T>)
    requires 0 < i <= |t|
    ensures [t[0]] + (t[1..][..i - 1] + r) == t[..i] + r
    ensures t[1..][i - 1..] == t[i..]
  {
  }

  lemma AddSkipsHead(store: Store, row: Row, e: Entry, made: Ref)
    requires RefsIn(row, |store|) && made < |store| && row != []
    requires !StrictMatches(e, store[row[0]]) && !Overlaps(e, store[row[0]])
    ensures AddToRow(store, row, e, made) ==
            match AddToRow(store, row[1..], e, made) case Ok(r) => Ok([row[0]] + r) case Raised => Raised
  {
  }

  lemma {:induction false} AddAfterPrefix(store: Store, row: Row, e: Entry, made: Ref, i: nat)
    requires RefsIn(row, |store|) && made < |store| && i <= |row|
    requires forall j | 0 <= j < i :: !StrictMatches(e, store[row[j]]) && !Overlaps(e, store[row[j]])
    ensures AddToRow(store, row, e, made) ==
            match AddToRow(store, row[i..], e, made) case Ok(r) => Ok(row[..i] + r) case Raised => Raised
  {
    if i == 0 {
      assert row[0..] == row;
      if AddToRow(store, row, e, made).Ok? {
        assert row[..0] + AddToRow(store, row, e, made).value == AddToRow(store, row, e, made).value;
      }
    } else {
      var tail := row[1..];
      assert forall j | 0 <= j < |tail| :: tail[j] == row[j + 1];
      AddSkipsHead(store, row, e, made);
      AddAfterPrefix(store, tail, e, made, i - 1);
      SplitCons(row, i, []);
      if AddToRow(store, row[i..], e, made).Ok? {
        SplitCons(row, i, AddToRow(store, row[i..], e, made).value);
      }
    }
  }

  lemma {:induction false} DeleteStrictAfterPrefix(store: Store, row: Row, e: Entry, i: nat)
    requires RefsIn(row, |store|) && i <= |row| && forall j | 0 <= j < i :: !StrictMatches(e, store[row[j]])
    ensures DeleteStrictFromRow(store, row, e) == row[..i] + DeleteStrictFromRow(store, row[i..], e)
  {
    if i == 0 {
      assert row[0..] == row && row[..0] + DeleteStrictFromRow(store, row, e) == DeleteStrictFromRow(store, row, e);
    } else {
      var tail := row[1..];
      assert forall j | 0 <= j < |tail| :: tail[j] == row[j + 1];
      DeleteStrictAfterPrefix(store, tail, e, i - 1);
      SplitCons(row, i, DeleteStrictFromRow(store, row[i..], e));
      assert DeleteStrictFromRow(store, row, e) == [row[0]] + DeleteStrictFromRow(store, tail, e);
    }
  }

  /** An equal earlier object would have matched strictly too, so removal by equality hits index i. */
  lemma {:induction false} RemoveAtFirstStrict(store: Store, row: Row, e: Entry, i: nat)
    requires RefsIn(row, |store|) && i < |row| && StrictMatches(e, store[row[i]])
    requires forall j | 0 <= j < i :: !StrictMatches(e, store[row[j]])
    ensures RemoveFirst(store, row, store[row[i]]) == row[..i] + row[i + 1..]
  {
    if i > 0 {
      var tail := row[1..];
      assert forall j | 0 <= j < |tail| :: tail[j] == row[j + 1];
      RemoveAtFirstStrict(store, tail, e, i - 1);
      assert tail[i..] == row[i + 1..];
      SplitCons(row, i, row[i + 1..]);
    }
  }

  lemma {:induction false} LookupAfterPrefix(t: Table, pkt: Packet, i: nat)
    requires i <= |t| && forall j | 0 <= j < i :: !PktMatches(t[j], pkt)
    ensures Lookup(t, pkt) == Lookup(t[i..], pkt)
  {
    if i == 0 {
      assert t[0..] == t;
    } else {
      LookupAfterPrefix(t[1..], pkt, i - 1);
      assert t[1..][i - 1..] == t[i..];
    }
  }

  lemma {:induction false} ExtendAllSnoc(o: Outputs<Packet>, more: Outputs<Packet>, i: nat)
    requires i < |more|
    ensures ExtendAll(o, more[..i + 1]) == Extend(ExtendAll(o, more[..i]), more[i].port, more[i].pkts)
    decreases i
  {
    if i == 0 {
      assert more[..1][1..] == [] && more[..0] == [];
    } else {
      assert more[..i + 1][1..] == more[1..][..i] && more[..i][1..] == more[1..][..i - 1];
      ExtendAllSnoc(Extend(o, more[0].port, more[0].pkts), more[1..], i - 1);
    }
  }

  lemma {:induction false} MergeAllSnoc(o: Outputs<Packet>, more: Outputs<Packet>, i: nat)
    requires i < |more|
    ensures MergeAllNew(o, more[..i + 1]) == MergeNew(MergeAllNew(o, more[..i]), more[i].port, more[i].pkts)
    decreases i
  {
    if i == 0 {
      assert more[..1][1..] == [] && more[..0] == [];
    } else {
      assert more[..i + 1][1..] == more[1..][..i] && more[..i][1..] == more[1..][..i - 1];
      MergeAllSnoc(MergeNew(o, more[0].port, more[0].pkts), more[1..], i - 1);
    }
  }

  lemma {:induction false} ScanConcat(want: Expected, inPort: Option<PortNo>, a: seq<Emission>, b: seq<Emission>)
    ensures Scan(want, inPort, a + b) ==
            if Scan(want, inPort, a) != Continue then Scan(want, inPort, a) else Scan(want, inPort, b)
  {
    if a == [] {
      assert a + b == b;
    } else {
      assert (a + b)[1..] == a[1..] + b;
      ScanConcat(want, inPort, a[1..], b);
    }
  }

  function Recorded(walk: Result<Walk>): (r: Result<seq<TableOutputs>>) {
    match walk case Ok(w) => Ok(ByTable(w.visits)) case Raised => Raised
  }

  /** What the walk adds behind the tables already crossed. */
  function Behind(done: seq<TableOutputs>, walk: Result<Walk>): (r: Result<seq<TableOutputs>>) {
    match walk case Ok(w) => Ok(done + ByTable(w.visits)) case Raised => Raised
  }

  lemma BehindNothing(walk: Result<Walk>)
    ensures Behind([], walk) == Recorded(walk)
  {
    if walk.Ok? {
      assert [] + ByTable(walk.value.visits) == ByTable(walk.value.visits);
    }
  }

  lemma BehindStep(done: seq<TableOutputs>, here: Visit, walk: Result<Walk>)
    ensures Behind(done, Prepend(here, walk)) == Behind(done + [TableOutputs(here.id, here.outs)], walk)
  {
    if walk.Ok? {
      assert ByTable([here] + walk.value.visits) == [TableOutputs(here.id, here.outs)] + ByTable(walk.value.visits);
      assert done + ([TableOutputs(here.id, here.outs)] + ByTable(walk.value.visits))
          == done + [TableOutputs(here.id, here.outs)] + ByTable(walk.value.visits);
    }
  }

  class FakeOFTable {
    // Every FlowMod object made so far; the tables hold references to them.
    var store: Store
    var tables: seq<Row>
    var groups: Groups

    constructor (numTables: nat)
      ensures Valid() && Current() == NoObjects(numTables)
    {
      store := [];
      tables := seq(numTables, _ => []);
      groups := map[];
    }

    ghost predicate Valid()
      reads this
    {
      Placed(Objects(store, tables, groups))
    }

    ghost function Current(): (o: Objects)
      reads this
    {
      Objects(store, tables, groups)
    }

    /** The contents of the tables. */
    function Contents(): (ts: Tables)
      requires Valid()
      reads this
    {
      TablesOf(store, tables)
    }

    ghost function State(): (s: Switch)
      requires Valid()
      reads this
    {
      Switch(Contents(), groups)
    }

    /** The switch holds these contents. */
    ghost predicate Shows(s: Switch)
      reads this
    {
      Valid() && State() == s
    }

    // -------------------------------------------------------------------------------------------
    // Flow mods
    // -------------------------------------------------------------------------------------------

    method Add(id: TableId, flowmod: Ref) returns (accepted: bool)
      requires AllRefsIn(tables, |store|) && id < |tables| && flowmod < |store| && store[flowmod].outPort.None?
      modifies `tables
      ensures
        var r := AddToRow(store, old(tables)[id], store[flowmod], flowmod);
        accepted == r.Ok? && tables == if accepted then old(tables)[id := r.value] else old(tables)
    {
      var row, e := tables[id], store[flowmod];
      var i := 0;
      while i < |row|
        invariant i <= |row| && tables == old(tables)
        invariant forall j | 0 <= j < i :: !StrictMatches(e, store[row[j]]) && !Overlaps(e, store[row[j]])
      {
        if StrictMatches(e, store[row[i]]) {
          AddAfterPrefix(store, row, e, flowmod, i);
          RemoveAtFirstStrict(store, row, e, i);
          assert row[i..][0] == row[i] && row[i..][1..] == row[i + 1..];
          var left := RemoveFirst(store, row, store[row[i]]);
          assert row[..i] + (row[i + 1..] + [flowmod]) == left + [flowmod];
          tables := tables[id := left + [flowmod]];
          return true;
        }
        if Overlaps(e, store[row[i]]) {
          AddAfterPrefix(store, row, e, flowmod, i);
          assert row[i..][0] == row[i];
          return false;
        }
        i := i + 1;
      }
      AddAfterPrefix(store, row, e, flowmod, |row|);
      assert row[|row|..] == [] && row[..|row|] == row;
      tables := tables[id := row + [flowmod]];
      return true;
    }

    method Delete(id: TableId, flowmod: Ref)
      requires AllRefsIn(tables, |store|) && id < |tables| && flowmod < |store|
      modifies `tables
      ensures tables == old(tables)[id := UnselectedRow(store, old(tables)[id], store[flowmod])]
    {
      var e := store[flowmod];
      var removals := Selected(store, tables[id], e);
      var i := 0;
      while i < |removals|
        invariant i <= |removals| && AllRefsIn(tables, |store|) && |tables| == |old(tables)|
        invariant tables == old(tables)[id := tables[id]]
        invariant Selected(store, tables[id], e) == removals[i..]
        invariant UnselectedRow(store, tables[id], e) == UnselectedRow(store, old(tables)[id], e)
      {
        RemovingFirstSelected(store, tables[id], e);
        tables := tables[id := RemoveFirst(store, tables[id], store[removals[i]])];
        i := i + 1;
      }
      NothingSelected(store, tables[id], e);
    }

    method DeleteStrict(id: TableId, flowmod: Ref)
      requires AllRefsIn(tables, |store|) && id < |tables| && flowmod < |store|
      modifies `tables
      ensures tables == old(tables)[id := DeleteStrictFromRow(store, old(tables)[id], store[flowmod])]
    {
      var row, e := tables[id], store[flowmod];
      var i := 0;
      while i < |row|
        invariant i <= |row| && tables == old(tables)
        invariant forall j | 0 <= j < i :: !StrictMatches(e, store[row[j]])
      {
        if StrictMatches(e, store[row[i]]) {
          DeleteStrictAfterPrefix(store, row, e, i);
          RemoveAtFirstStrict(store, row, e, i);
          assert row[i..][0] == row[i] && row[i..][1..] == row[i + 1..];
          tables := tables[id := RemoveFirst(store, row, store[row[i]])];
          return;
        }
        i := i + 1;
      }
      DeleteStrictAfterPrefix(store, row, e, |row|);
      assert row[|row|..] == [] && row[..|row|] + [] == row;
      assert tables == tables[id := row];
    }

    /** The selected objects change, in whichever tables they are. */
    method Modify(id: TableId, flowmod: Ref)
      requires AllRefsIn(tables, |store|) && id < |tables| && flowmod < |store|
      modifies `store
      ensures store == ModifyThrough(old(store), tables[id], old(store)[flowmod])
    {
      var row, e := tables[id], store[flowmod];
      var i := 0;
      assert row[0..] == row;
      while i < |row|
        invariant i <= |row| && |store| == |old(store)|
        invariant ModifyThrough(store, row[i..], e) == ModifyThrough(old(store), row, e)
      {
        assert row[i..][0] == row[i] && row[i..][1..] == row[i + 1..];
        if FteMatches(e, store[row[i]]) {
          store := store[row[i] := store[row[i]].(instructions := e.instructions)];
        }
        i := i + 1;
      }
    }

    method ModifyStrict(id: TableId, flowmod: Ref)
      requires AllRefsIn(tables, |store|) && id < |tables| && flowmod < |store|
      modifies `store
      ensures store == ModifyStrictThrough(old(store), tables[id], old(store)[flowmod])
    {
      var row, e := tables[id], store[flowmod];
      var i := 0;
      assert row[0..] == row;
      while i < |row|
        invariant i <= |row| && store == old(store)
        invariant ModifyStrictThrough(store, row[i..], e) == ModifyStrictThrough(store, row, e)
      {
        assert row[i..][0] == row[i] && row[i..][1..] == row[i + 1..];
        if StrictMatches(e, store[row[i]]) {
          store := store[row[i] := store[row[i]].(instructions := e.instructions)];
          return;
        }
        i := i + 1;
      }
    }

    method ApplyToTable(id: TableId, command: Command, flowmod: Ref) returns (accepted: bool)
      requires AllRefsIn(tables, |store|) && id < |tables| && flowmod < |store|
      requires command.Add? ==> store[flowmod].outPort.None?
      modifies `store, `tables
      ensures
        var r := ApplyToRow(old(Held(store, tables)), id, command, flowmod);
        accepted == r.Ok? && Held(store, tables) == if accepted then r.value else old(Held(store, tables))
    {
      accepted := true;
      match command {
        case Add => accepted := Add(id, flowmod);
        case Delete => Delete(id, flowmod);
        case DeleteStrict => DeleteStrict(id, flowmod);
        case Modify => Modify(id, flowmod);
        case ModifyStrict => ModifyStrict(id, flowmod);
      }
    }

    method ApplyFlowMod(fm: FlowMod) returns (status: Status)
      requires AllRefsIn(tables, |store|)
      modifies `store, `tables
      ensures (Held(store, tables), status) == ApplyFlowModToRows(old(Held(store, tables)), fm)
    {
      if fm.target.One? && fm.target.id >= |tables| {
        return Crashed;
      }
      if !DistinctKinds(fm.instructions) {
        return Refused;
      }
      var flowmod := |store|;
      store := store + [MakeEntry(fm)];
      var id := if fm.target.One? then fm.target.id else 0;
      var upto := if fm.target.One? then fm.target.id + 1 else |tables|;
      ghost var start := Held(store, tables);
      while id < upto
        invariant id <= upto <= |tables| && flowmod < |store| && AllRefsIn(tables, |store|)
        invariant fm.command.Add? ==> store[flowmod].outPort.None?
        invariant ApplyToRows(Held(store, tables), id, upto, fm.command, flowmod) ==
                  ApplyFlowModToRows(old(Held(store, tables)), fm)
      {
        ghost var h := Held(store, tables);
        var accepted := ApplyToTable(id, fm.command, flowmod);
        if !accepted {
          return Refused;
        }
        id := id + 1;
      }
      return Accepted;
    }

    method ApplyGroupMod(command: GroupCommand, id: GroupId, buckets: Buckets) returns (status: Status)
      modifies `groups
      ensures (groups, status) == FlowTables.ApplyGroupMod(old(groups), command, id, buckets)
    {
      status := Accepted;
      match command {
        case GroupDeleteAll => groups := map[];
        case GroupDelete => groups := groups - {id};
        case GroupAdd =>
          if id in groups {
            status := Refused;
          } else {
            groups := groups[id := buckets];
          }
        case GroupModify =>
          if id !in groups {
            status := Refused;
          } else {
            groups := groups[id := buckets];
          }
      }
    }

    method ApplyOfMsgs(ofmsgs: seq<OfMsg>, ignoreErrors: bool) returns (status: Status)
      requires Valid()
      modifies this
      ensures Valid() && (Current(), status) == RunObjects(old(Current()), ofmsgs, ignoreErrors)
    {
      var i := 0;
      assert ofmsgs[0..] == ofmsgs;
      while i < |ofmsgs|
        invariant i <= |ofmsgs| && Valid()
        invariant RunObjects(Current(), ofmsgs[i..], ignoreErrors) == RunObjects(old(Current()), ofmsgs, ignoreErrors)
      {
        assert ofmsgs[i..][0] == ofmsgs[i] && ofmsgs[i..][1..] == ofmsgs[i + 1..];
        status := ApplyOne(ofmsgs[i]);
        if Stops(status, ignoreErrors) {
          return;
        }
        i := i + 1;
      }
      return Accepted;
    }

    method ApplyOne(ofmsg: OfMsg) returns (status: Status)
      requires Valid()
      modifies this
      ensures Valid() && (Current(), status) == StepObjects(old(Current()), ofmsg)
    {
      StepPlaced(Current(), ofmsg);
      status := Accepted;
      match ofmsg {
        case Ignorable =>
        case Unsupported => status := Refused;
        case GroupMod(command, id, buckets) => status := ApplyGroupMod(command, id, buckets);
        case Flow(fm) =>
          status := ApplyFlowMod(fm);
          if status == Accepted {
            tables := SortRows(store, tables);
          }
      }
    }

    // -------------------------------------------------------------------------------------------
    // Sending a packet through
    // -------------------------------------------------------------------------------------------

    method SingleTableLookup(pkt: Packet, id: TableId) returns (fte: Option<Entry>)
      requires Valid() && id < |tables|
      ensures fte == Lookup(Contents()[id], pkt)
    {
      var row := tables[id];
      ghost var t := Contents()[id];
      var i := 0;
      while i < |row|
        invariant i <= |row| && forall j | 0 <= j < i :: !PktMatches(t[j], pkt)
      {
        if PktMatches(store[row[i]], pkt) {
          LookupAfterPrefix(t, pkt, i);
          return Some(store[row[i]]);
        }
        i := i + 1;
      }
      LookupAfterPrefix(t, pkt, |row|);
      return None;
    }

    /** active holds the groups being processed, so that re-entering one can be recognised. */
    method ProcessInstruction(pkt: Packet, actions: seq<Action>, active: set<GroupId>)
      returns (r: Result<ActionState>)
      ensures r == RunActions(groups, active, ActionState([], pkt, []), actions)
      decreases groups.Keys - active
    {
      var st := ActionState([], pkt, []);
      ghost var start := st;
      var i := 0;
      while i < |actions|
        invariant i <= |actions|
        invariant RunActions(groups, active, st, actions[i..]) == RunActions(groups, active, start, actions)
      {
        var action := actions[i];
        assert actions[i..][0] == action && actions[i..][1..] == actions[i + 1..];
        ghost var before := st;
        if action.Output? {
          st := ActionState(Extend(st.outs, action.port, [st.pkt]), st.pkt, []);
        } else {
          st := st.(pending := st.pending + [action]);
          match action {
            case SetField(key, value) => st := st.(pkt := st.pkt[key := value]);
            case PushVlan => st := st.(pkt := PushedVlan(st.pkt));
            case PopVlan =>
              if VlanVid !in st.pkt {
                return Raised;
              }
              st := st.(pkt := PoppedVlan(st.pkt));
            case Group(id) =>
              if id !in groups || id in active {
                return Raised;
              }
              var buckets := groups[id];
              ghost var entered := st;
              var b := 0;
              while b < |buckets|
                invariant b <= |buckets|
                invariant RunBuckets(groups, active + {id}, st, buckets[b..]) ==
                          RunBuckets(groups, active + {id}, entered, buckets)
              {
                assert buckets[b..][0] == buckets[b] && buckets[b..][1..] == buckets[b + 1..];
                var bucket := ProcessInstruction(st.pkt, buckets[b], active + {id});
                if bucket.Raised? {
                  return Raised;
                }
                var outs := bucket.value.outs;
                var o := 0;
                ghost var known := st;
                while o < |outs|
                  invariant o <= |outs| && st.pkt == known.pkt
                  invariant st.outs == ExtendAll(known.outs, outs[..o])
                  invariant st.pending == if o == 0 then known.pending else []
                {
                  ExtendAllSnoc(known.outs, outs, o);
                  st := ActionState(Extend(st.outs, outs[o].port, outs[o].pkts), st.pkt, []);
                  o := o + 1;
                }
                assert outs[..|outs|] == outs;
                assert st == AfterBucket(known, outs);
                b := b + 1;
              }
              assert RunBuckets(groups, active + {id}, entered, buckets) == Ok(st);
            case OtherAction =>
          }
        }
        assert ActOn(groups, active, before, action) == Ok(st);
        i := i + 1;
      }
      return Ok(st);
    }

    method GetTableOutput(pkt: Packet, id: TableId) returns (r: Result<TableOutput>)
      requires Valid()
      ensures r == OutputOfTable(Contents(), groups, pkt, id)
    {
      if id >= |tables| {
        return Raised;
      }
      var fte := SingleTableLookup(pkt, id);
      var st := TableState([], pkt, None, []);
      if fte.Some? {
        var ins := fte.value.instructions;
        ghost var start := st;
        var i := 0;
        while i < |ins|
          invariant i <= |ins|
          invariant ExecuteAll(groups, id, st, ins[i..]) == ExecuteAll(groups, id, start, ins)
        {
          assert ins[i..][0] == ins[i] && ins[i..][1..] == ins[i + 1..];
          match ins[i] {
            case GotoTable(to_) =>
              if id < to_ {
                st := st.(next := Some(to_));
              } else {
                return Raised;
              }
            case ApplyActions(actions) =>
              if actions == [] {
                return Raised;
              }
              var a := ProcessInstruction(st.pkt, actions, {});
              if a.Raised? {
                return Raised;
              }
              st := st.(pkt := a.value.pkt, pending := a.value.pending);
              var outs := a.value.outs;
              ghost var known := st.outs;
              var o := 0;
              while o < |outs|
                invariant o <= |outs|
                invariant st.outs == ExtendAll(known, outs[..o])
                invariant st.pkt == a.value.pkt && st.pending == a.value.pending && st.next == st.next
                invariant ExecuteAll(groups, id, st.(outs := ExtendAll(known, outs)), ins[i + 1..]) ==
                          ExecuteAll(groups, id, start, ins)
              {
                ExtendAllSnoc(known, outs, o);
                st := st.(outs := Extend(st.outs, outs[o].port, outs[o].pkts));
                o := o + 1;
              }
              assert outs[..|outs|] == outs;
            case WriteMetadata(metadata, mask) => st := st.(pkt := WroteMetadata(st.pkt, metadata, mask));
            case OtherInstruction(_) =>
          }
          i := i + 1;
        }
      }
      if st.next.None? && st.pending != [] {
        return Raised;
      }
      return Ok(TableOutput(st.outs, st.pkt, st.next));
    }

    method GetOutput(pkt: Packet) returns (r: Result<seq<TableOutputs>>)
      requires Valid()
      ensures r == Recorded(OutputWalk(Contents(), groups, pkt, 0))
    {
      ghost var ts := Contents();
      var tableOutputs: seq<TableOutputs> := [];
      var id: TableId := 0;
      var p := pkt;
      BehindNothing(OutputWalk(ts, groups, pkt, 0));
      while true
        invariant Behind(tableOutputs, OutputWalk(ts, groups, p, id)) ==
                  Recorded(OutputWalk(ts, groups, pkt, 0))
        decreases |ts| - id
      {
        var t := GetTableOutput(p, id);
        if t.Raised? {
          return Raised;
        }
        WalkUnfolds(ts, groups, p, id, t.value);
        ghost var rest := if t.value.next.None? then Ok(Walk([], t.value.pkt))
                          else OutputWalk(ts, groups, t.value.pkt, t.value.next.value);
        BehindStep(tableOutputs, Visit(id, Lookup(ts[id], p), t.value.outs), rest);
        tableOutputs := tableOutputs + [TableOutputs(id, t.value.outs)];
        if t.value.next.None? {
          assert tableOutputs + ByTable([]) == tableOutputs;
          return Ok(tableOutputs);
        }
        id, p := t.value.next.value, t.value.pkt;
      }
    }

    method GetPortOutputs(pkt: Packet) returns (r: Result<Outputs<Packet>>)
      requires Valid()
      ensures r == PortOutputsFrom(Contents(), groups, [], pkt, 0)
    {
      ghost var ts := Contents();
      var portOutputs: Outputs<Packet> := [];
      var id: TableId := 0;
      var p := pkt;
      while true
        invariant PortOutputsFrom(ts, groups, portOutputs, p, id) ==
                  PortOutputsFrom(ts, groups, [], pkt, 0)
        decreases |ts| - id
      {
        var t := GetTableOutput(p, id);
        if t.Raised? {
          return Raised;
        }
        var outs := t.value.outs;
        ghost var known := portOutputs;
        var o := 0;
        while o < |outs|
          invariant o <= |outs| && portOutputs == MergeAllNew(known, outs[..o])
        {
          MergeAllSnoc(known, outs, o);
          portOutputs := MergeNew(portOutputs, outs[o].port, outs[o].pkts);
          o := o + 1;
        }
        assert outs[..|outs|] == outs;
        if t.value.next.None? {
          return Ok(portOutputs);
        }
        id, p := t.value.next.value, t.value.pkt;
      }
    }

    method JudgePort(want: Expected, inPort: Option<PortNo>, port: PortNo, pkts: seq<Packet>) returns (v: Verdict)
      ensures v == Scan(want, inPort, AtPort(port, pkts))
    {
      var k := 0;
      while k < |pkts|
        invariant k <= |pkts|
        invariant Scan(want, inPort, AtPort(port, pkts[k..])) == Scan(want, inPort, AtPort(port, pkts))
      {
        var e := Emission(port, pkts[k]);
        assert AtPort(port, pkts[k..])[0] == e && AtPort(port, pkts[k..])[1..] == AtPort(port, pkts[k + 1..]);
        v := Judge(want, inPort, e);
        if v != Continue {
          return;
        }
        k := k + 1;
      }
      return Continue;
    }

    method JudgeTable(want: Expected, inPort: Option<PortNo>, outs: Outputs<Packet>) returns (v: Verdict)
      ensures v == Scan(want, inPort, Emissions(outs))
    {
      var j := 0;
      while j < |outs|
        invariant j <= |outs|
        invariant Scan(want, inPort, Emissions(outs[j..])) == Scan(want, inPort, Emissions(outs))
      {
        assert outs[j..][1..] == outs[j + 1..];
        ScanConcat(want, inPort, AtPort(outs[j].port, outs[j].pkts), Emissions(outs[j + 1..]));
        v := JudgePort(want, inPort, outs[j].port, outs[j].pkts);
        if v != Continue {
          return;
        }
        j := j + 1;
      }
      return Continue;
    }

    method JudgeTables(want: Expected, inPort: Option<PortNo>, ts: seq<TableOutputs>) returns (v: Verdict)
      ensures v == Scan(want, inPort, AllEmissions(ts))
    {
      var i := 0;
      while i < |ts|
        invariant i <= |ts|
        invariant Scan(want, inPort, AllEmissions(ts[i..])) == Scan(want, inPort, AllEmissions(ts))
      {
        assert ts[i..][1..] == ts[i + 1..];
        ScanConcat(want, inPort, Emissions(ts[i].outs), AllEmissions(ts[i + 1..]));
        v := JudgeTable(want, inPort, ts[i].outs);
        if v != Continue {
          return;
        }
        i := i + 1;
      }
      return Continue;
    }

    method IsFullOutput(pkt: Packet, want: Expected) returns (r: Result<bool>)
      requires Valid()
      ensures r == FullOutput(Contents(), groups, pkt, want)
    {
      var out := GetOutput(pkt);
      if out.Raised? {
        return Raised;
      }
      var v := JudgeTables(want, FieldOf(pkt, InPort), out.value);
      match v {
        case KeyError => return Raised;
        case Answer(found) => return Ok(found);
        case Continue => return Ok(false);
      }
    }

    method SetFields(pkt: Packet, actions: seq<Action>) returns (p: Packet)
      ensures p == LookupActions(pkt, actions)
    {
      p := pkt;
      var a := 0;
      while a < |actions|
        invariant a <= |actions|
        invariant LookupActions(p, actions[a..]) == LookupActions(pkt, actions)
      {
        assert actions[a..][0] == actions[a] && actions[a..][1..] == actions[a + 1..];
        if actions[a].SetField? {
          p := p[actions[a].key := actions[a].value];
        }
        a := a + 1;
      }
    }

    method FollowInstructions(start: LookupState, ins: seq<Instruction>) returns (st: LookupState)
      ensures st == LookupExecuteAll(start, ins)
    {
      st := start;
      var i := 0;
      while i < |ins|
        invariant i <= |ins|
        invariant LookupExecuteAll(st, ins[i..]) == LookupExecuteAll(start, ins)
      {
        assert ins[i..][0] == ins[i] && ins[i..][1..] == ins[i + 1..];
        match ins[i] {
          case GotoTable(to_) =>
            if st.id < to_ {
              st := st.(id := to_, again := true);
            }
          case ApplyActions(actions) =>
            var p := SetFields(st.pkt, actions);
            st := st.(pkt := p);
          case WriteMetadata(metadata, mask) => st := st.(pkt := WroteMetadata(st.pkt, metadata, mask));
          case OtherInstruction(_) =>
        }
        i := i + 1;
      }
    }

    /** What the walk adds behind the instructions already collected. */
    static ghost function Collecting(
        done: seq<Instruction>, walk: Result<LookupResult>): (r: Result<(seq<Instruction>, Packet)>)
    {
      match walk case Ok(w) => Ok((done + w.instructions, w.pkt)) case Raised => Raised
    }

    method LookupPipeline(pkt: Packet) returns (r: Result<(seq<Instruction>, Packet)>)
      requires Valid()
      ensures r == Collecting([], LookupWalk(Contents(), pkt, 0))
    {
      ghost var ts := Contents();
      var instructions: seq<Instruction> := [];
      var id: TableId := 0;
      var p := pkt;
      while true
        invariant Collecting(instructions, LookupWalk(ts, p, id)) ==
                  Collecting([], LookupWalk(ts, pkt, 0))
        decreases |ts| - id
      {
        if id >= |tables| {
          return Raised;
        }
        var fte := SingleTableLookup(p, id);
        var ins := InstructionsOf(fte);
        var st := FollowInstructions(LookupState(p, id, false), ins);
        ghost var done := instructions;
        instructions := instructions + ins;
        if !st.again {
          return Ok((instructions, st.pkt));
        }
        ghost var rest := LookupWalk(ts, st.pkt, st.id);
        if rest.Ok? {
          assert done + (ins + rest.value.instructions) == instructions + rest.value.instructions;
        }
        id, p := st.id, st.pkt;
      }
    }
  }
}
