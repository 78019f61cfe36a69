/** Best-first search that carries packets across a stack of switches. */
module FakeNetwork {
  import opened Packets
  import opened FlowTables
  import opened Pipeline
  import opened FakeSwitch
  import opened Reach

  datatype HeapItem = HeapItem(priority: nat, state: State)

  function RemoveAt(heap: seq<HeapItem>, i: nat): (r: seq<HeapItem>)
    requires i < |heap|
  {
    heap[..i] + heap[i + 1..]
  }

  predicate IsMin(heap: seq<HeapItem>, i: nat) {
    i < |heap| && forall j | 0 <= j < |heap| :: heap[i].priority <= heap[j].priority
  }

  lemma MinExists(heap: seq<HeapItem>)
    requires heap != []
    ensures exists i: nat | i < |heap| :: IsMin(heap, i)
  {
    if |heap| == 1 {
      assert IsMin(heap, 0);
    } else {
      MinExists(heap[1..]);
      var i: nat :| i < |heap[1..]| && IsMin(heap[1..], i);
      assert forall j | 1 <= j < |heap| :: heap[j] == heap[1..][j - 1];
      if heap[0].priority <= heap[i + 1].priority {
        assert IsMin(heap, 0);
      } else {
        assert IsMin(heap, i + 1);
      }
    }
  }

  ghost function States(heap: seq<HeapItem>): (r: set<State>) {
    set h | h in heap :: h.state
  }

  ghost predicate DistinctStates(heap: seq<HeapItem>) {
    forall i, j | 0 <= i < j < |heap| :: heap[i].state != heap[j].state
  }

  lemma RemovingState(heap: seq<HeapItem>, i: nat)
    requires i < |heap| && DistinctStates(heap)
    ensures DistinctStates(RemoveAt(heap, i))
    ensures States(RemoveAt(heap, i)) == States(heap) - {heap[i].state}
  {
    var r := RemoveAt(heap, i);
    assert forall j | 0 <= j < |r| :: r[j] == heap[if j < i then j else j + 1];
    forall s | s in States(heap) && s != heap[i].state ensures s in States(r) {
      var j :| 0 <= j < |heap| && heap[j].state == s;
      assert r[if j < i then j else j - 1] == heap[j];
    }
    forall s | s in States(r) ensures s in States(heap) && s != heap[i].state {
      var j :| 0 <= j < |r| && r[j].state == s;
      assert heap[if j < i then j else j + 1] == r[j];
    }
  }

  lemma AppendingState(heap: seq<HeapItem>, item: HeapItem)
    requires DistinctStates(heap) && item.state !in States(heap)
    ensures DistinctStates(heap + [item])
    ensures States(heap + [item]) == States(heap) + {item.state}
  {
    assert forall j | 0 <= j < |heap| :: heap[j] in heap;
    assert forall h :: h in heap + [item] <==> h in heap || h == item;
    forall s ensures s in States(heap + [item]) <==> s in States(heap) || s == item.state {
      if s == item.state {
        assert item in heap + [item];
      }
    }
  }

  /** A search that has seen more, and queued exactly what is new. */
  ghost predicate Grown(
    seen: set<State>, heap: seq<HeapItem>, added: set<State>, seen': set<State>, heap': seq<HeapItem>)
  {
    && seen' == seen + added
    && States(heap') == States(heap) + (seen' - seen)
    && (seen' == seen ==> heap' == heap)
  }

  lemma GrownFurther(
    s0: set<State>, h0: seq<HeapItem>, a: seq<State>, s1: set<State>, h1: seq<HeapItem>,
    b: seq<State>, s2: set<State>, h2: seq<HeapItem>)
    requires Grown(s0, h0, SetOf(a), s1, h1) && Grown(s1, h1, SetOf(b), s2, h2)
    ensures Grown(s0, h0, SetOf(a + b), s2, h2)
  {
    assert SetOf(a + b) == SetOf(a) + SetOf(b);
  }

  ghost predicate Carries(goal: Result<seq<State>>, carried: seq<State>, rest: Result<seq<State>>) {
    goal == match rest case Ok(r) => Ok(carried + r) case Raised => Raised
  }

  lemma CarriesStep(links: Links, pkt: Packet, o: Outputs<Packet>, goal: Result<seq<State>>, carried: seq<State>)
    requires o != [] && Carries(goal, carried, HopsOver(links, pkt, o))
    ensures RealPort(pkt, o[0].port).Raised? ==> goal.Raised?
    ensures RealPort(pkt, o[0].port).Ok? ==>
      var port := RealPort(pkt, o[0].port).value;
      var here := if port in links then Arrivals(links[port], o[0].pkts) else [];
      Carries(goal, carried + here, HopsOver(links, pkt, o[1..]))
  {
    var rest := HopsOver(links, pkt, o[1..]);
    if rest.Ok? && RealPort(pkt, o[0].port).Ok? {
      var port := RealPort(pkt, o[0].port).value;
      var here := if port in links then Arrivals(links[port], o[0].pkts) else [];
      assert carried + (here + rest.value) == (carried + here) + rest.value;
    }
  }

  lemma SearchShrinks(all: set<State>, seen: set<State>, seen': set<State>)
    requires seen <= seen' <= all
    ensures seen' == seen || all - seen' < all - seen
  {
    if seen' != seen {
      var s :| s in seen' && s !in seen;
      assert s in all - seen && s !in all - seen';
    }
  }

  function OutputsAt(net: Net, s: State): (r: Result<Outputs<Packet>>)
    requires s.dp in net.switches
  {
    PortOutputsFrom(net.switches[s.dp].tables, net.switches[s.dp].groups, [], s.pkt, 0)
  }

  lemma HopsAre(net: Net, s: State, links: Links)
    requires s.dp in net.switches && s.dp in net.links && net.links[s.dp] == links
    ensures Hops(net, s) ==
            match OutputsAt(net, s) case Ok(o) => HopsOver(links, s.pkt, o) case Raised => Raised
  {
  }

  /** The search so far: what was expanded, what was seen, and what waits. */
  ghost predicate Searching(
    net: Net, start: State, dst: DpId, want: Expected, expanded: seq<State>, all: set<State>,
    unseen: set<State>, seen: set<State>, heap: seq<HeapItem>)
  {
    && Explored(net, start, dst, want, expanded, seen, States(heap))
    && unseen == all - seen
    && forall t | Reachable(net, start, t) :: t in all && t.dp in net.switches
  }

  /** Something new was seen, or less is waiting. */
  ghost predicate Nearer(unseen: set<State>, waiting: nat, unseen': set<State>, waiting': nat) {
    unseen' < unseen || (unseen' == unseen && waiting' < waiting)
  }

  lemma SearchStarts(net: Net, start: State, dst: DpId, want: Expected, all: set<State>, heap: seq<HeapItem>)
    requires States(heap) == {start} && forall t | Reachable(net, start, t) :: t in all && t.dp in net.switches
    ensures Searching(net, start, dst, want, [], all, all - {start}, {start}, heap)
  {
    ExploredStart(net, start, dst, want);
  }

  lemma NothingWaits(
    net: Net, start: State, dst: DpId, want: Expected, expanded: seq<State>, all: set<State>,
    unseen: set<State>, seen: set<State>, heap: seq<HeapItem>)
    requires Searching(net, start, dst, want, expanded, all, unseen, seen, heap) && heap == []
    ensures Found(net, start, dst, want, Ok(false), expanded)
  {
    assert States(heap) == {};
    ExploredAll(net, start, dst, want, expanded, seen);
    ExploredReachable(net, start, dst, want, expanded, seen);
  }

  lemma WaitingIsKnown(
    net: Net, start: State, dst: DpId, want: Expected, expanded: seq<State>, all: set<State>,
    unseen: set<State>, seen: set<State>, heap: seq<HeapItem>, s: State)
    requires Searching(net, start, dst, want, expanded, all, unseen, seen, heap) && s in States(heap)
    ensures Reachable(net, start, s) && s.dp in net.switches && s in all
  {
  }

  lemma AnsweredHere(
    net: Net, start: State, dst: DpId, want: Expected, expanded: seq<State>, all: set<State>,
    unseen: set<State>, seen: set<State>, heap: seq<HeapItem>, s: State, r: Result<bool>)
    requires Searching(net, start, dst, want, expanded, all, unseen, seen, heap) && s in States(heap)
    requires LookedAt(net, dst, want, s, r) && r != Ok(false)
    ensures Found(net, start, dst, want, r, expanded)
  {
    WaitingIsKnown(net, start, dst, want, expanded, all, unseen, seen, heap, s);
    AnsweredBy(net, start, dst, want, s, r);
  }

  lemma OneMoreExpanded(
    net: Net, start: State, dst: DpId, want: Expected, expanded: seq<State>, all: set<State>,
    unseen: set<State>, seen: set<State>, heap: seq<HeapItem>, s: State, left: seq<HeapItem>,
    seen': set<State>, heap': seq<HeapItem>)
    requires Searching(net, start, dst, want, expanded, all, unseen, seen, heap) && s in States(heap)
    requires LookedAt(net, dst, want, s, Ok(false)) && States(left) == States(heap) - {s} && |left| < |heap|
    requires Grown(seen, left, SetOf(Hops(net, s).value), seen', heap')
    ensures Searching(net, start, dst, want, expanded + [s], all, all - seen', seen', heap')
    ensures Nearer(unseen, |heap|, all - seen', |heap'|)
  {
    ExploredFurther(net, start, dst, want, expanded, seen, States(heap), s, seen', States(heap'));
    assert seen' <= all;
    SearchShrinks(all, seen, seen');
  }

  /** The first i outputs have been carried: their hops are seen, and queued where new. */
  ghost predicate UnderWay(
    links: Links, pkt: Packet, outputs: Outputs<Packet>, i: nat, goal: Result<seq<State>>, carried: seq<State>,
    seen0: set<State>, heap0: seq<HeapItem>, seen: set<State>, heap: seq<HeapItem>)
    requires i <= |outputs|
  {
    Carries(goal, carried, HopsOver(links, pkt, outputs[i..])) && Grown(seen0, heap0, SetOf(carried), seen, heap)
  }

  lemma NothingCarried(links: Links, pkt: Packet, outputs: Outputs<Packet>, seen: set<State>, heap: seq<HeapItem>)
    ensures UnderWay(links, pkt, outputs, 0, HopsOver(links, pkt, outputs), [], seen, heap, seen, heap)
  {
    var goal := HopsOver(links, pkt, outputs);
    assert outputs[0..] == outputs;
    if goal.Ok? {
      assert [] + goal.value == goal.value;
    }
    assert SetOf([]) == {};
  }

  lemma OneMoreCarried(
    links: Links, pkt: Packet, outputs: Outputs<Packet>, i: nat, goal: Result<seq<State>>, carried: seq<State>,
    seen0: set<State>, heap0: seq<HeapItem>, seen: set<State>, heap: seq<HeapItem>, here: seq<State>,
    seen': set<State>, heap': seq<HeapItem>)
    requires i < |outputs| && UnderWay(links, pkt, outputs, i, goal, carried, seen0, heap0, seen, heap)
    requires RealPort(pkt, outputs[i].port).Ok? ==>
      var port := RealPort(pkt, outputs[i].port).value;
      here == (if port in links then Arrivals(links[port], outputs[i].pkts) else []) &&
      Grown(seen, heap, SetOf(here), seen', heap')
    ensures RealPort(pkt, outputs[i].port).Raised? ==> goal.Raised?
    ensures RealPort(pkt, outputs[i].port).Ok? ==>
      UnderWay(links, pkt, outputs, i + 1, goal, carried + here, seen0, heap0, seen', heap')
  {
    CarriesStep(links, pkt, outputs[i..], goal, carried);
    assert outputs[i..][0] == outputs[i] && outputs[i..][1..] == outputs[i + 1..];
    if RealPort(pkt, outputs[i].port).Ok? {
      GrownFurther(seen0, heap0, carried, seen, heap, here, seen', heap');
    }
  }

  lemma AllCarried(
    links: Links, pkt: Packet, outputs: Outputs<Packet>, goal: Result<seq<State>>, carried: seq<State>)
    requires Carries(goal, carried, HopsOver(links, pkt, outputs[|outputs|..]))
    ensures goal == Ok(carried)
  {
    assert outputs[|outputs|..] == [] && carried + [] == carried;
  }

  /** What has been seen and what is still to be looked at. */
  class DFS {
    var visited: map<DpId, seq<Packet>>
    var heap: seq<HeapItem>

    constructor ()
      ensures visited == map[] && heap == []
    {
      visited := map[];
      heap := [];
    }

    ghost function Seen(): (r: set<State>)
      reads this
    {
      set d, p | d in visited && p in visited[d] :: State(d, p)
    }

    ghost function Waiting(): (r: set<State>)
      reads this
    {
      States(heap)
    }

    /** Every waiting state has been seen, and waits once. */
    ghost predicate Valid()
      reads this
    {
      Waiting() <= Seen() && DistinctStates(heap)
    }

    method Visit(dp: DpId, pkt: Packet)
      modifies `visited
      ensures Seen() == old(Seen()) + {State(dp, pkt)}
    {
      if dp !in visited {
        visited := visited[dp := []];
      }
      assert Seen() == old(Seen());
      label before:
      if pkt !in visited[dp] {
        visited := visited[dp := visited[dp] + [pkt]];
      }
      assert forall d, p :: d in visited && p in visited[d] <==>
        (d in old@before(visited) && p in old@before(visited)[d]) || (d == dp && p == pkt);
      assert forall s :: s in Seen() <==> s in old@before(Seen()) || s == State(dp, pkt) by {
        forall s ensures s in Seen() <==> s in old@before(Seen()) || s == State(dp, pkt) {
          assert s == State(s.dp, s.pkt);
        }
      }
    }

    method HasVisited(dp: DpId, pkt: Packet) returns (seen: bool)
      ensures seen == (State(dp, pkt) in Seen())
    {
      if dp in visited {
        if pkt in visited[dp] {
          return true;
        }
      }
      return false;
    }

    method Push(dp: DpId, pkt: Packet, priority: nat)
      modifies `heap
      ensures heap == old(heap) + [HeapItem(priority, State(dp, pkt))]
    {
      heap := heap + [HeapItem(priority, State(dp, pkt))];
    }

    /** Some item of least priority value leaves; ties are broken arbitrarily. */
    method Pop() returns (r: Option<State>)
      requires Valid()
      modifies `heap
      ensures r.None? <==> old(heap) == []
      ensures r.None? ==> heap == []
      ensures r.Some? ==> r.value in old(Waiting()) && Waiting() == old(Waiting()) - {r.value}
      ensures r.Some? ==> exists i: nat :: IsMin(old(heap), i) && r.value == old(heap)[i].state
      ensures r.Some? ==> |heap| == |old(heap)| - 1 && Valid()
    {
      if heap == [] {
        return None;
      }
      MinExists(heap);
      var i: nat :| i < |heap| && IsMin(heap, i);
      RemovingState(heap, i);
      r := Some(heap[i].state);
      heap := RemoveAt(heap, i);
    }

    /** Marks and queues a state not seen before. */
    method Discover(s: State, priority: nat)
      requires Valid()
      modifies this
      ensures Valid() && Seen() == old(Seen()) + {s}
      ensures if s in old(Seen()) then heap == old(heap) else Waiting() == old(Waiting()) + {s}
    {
      var known := HasVisited(s.dp, s.pkt);
      if !known {
        AppendingState(heap, HeapItem(priority, s));
        Push(s.dp, s.pkt, priority);
        Visit(s.dp, s.pkt);
      }
    }
  }

  class FakeOFNetwork {
    const tables: map<DpId, FakeOFTable>
    const links: map<DpId, Links>
    // shortest_path_len to the destination; it only steers the order of the search
    const distance: DpId -> nat

    constructor (tables: map<DpId, FakeOFTable>, links: map<DpId, Links>, distance: DpId -> nat)
      ensures this.tables == tables && this.links == links && this.distance == distance
    {
      this.tables := tables;
      this.links := links;
      this.distance := distance;
    }

    /** The switches hold, and the ports lead to, what net says. */
    ghost predicate Shows(net: Net)
      reads this, tables.Values
    {
      && net.switches.Keys == tables.Keys && net.links == links
      && forall d | d in tables :: tables[d].Shows(net.switches[d])
    }

    method DiscoverAll(dfs: DFS, states: seq<State>)
      requires dfs.Valid()
      modifies dfs
      ensures dfs.Valid()
      ensures Grown(old(dfs.Seen()), old(dfs.heap), SetOf(states), dfs.Seen(), dfs.heap)
    {
      var i := 0;
      while i < |states|
        invariant i <= |states| && dfs.Valid()
        invariant Grown(old(dfs.Seen()), old(dfs.heap), SetOf(states[..i]), dfs.Seen(), dfs.heap)
      {
        dfs.Discover(states[i], distance(states[i].dp));
        assert states[..i + 1] == states[..i] + [states[i]];
        i := i + 1;
      }
      assert states[..|states|] == states;
    }

    /** The ports that lead nowhere or out of the stack carry nothing. */
    method TraverseOne(dfs: DFS, dp: DpId, pkt: Packet, output: PortPackets<Packet>)
      returns (ok: bool, ghost here: seq<State>)
      requires dfs.Valid() && dp in links
      modifies dfs
      ensures dfs.Valid() && ok == RealPort(pkt, output.port).Ok?
      ensures ok ==>
        var port := RealPort(pkt, output.port).value;
        here == (if port in links[dp] then Arrivals(links[dp][port], output.pkts) else []) &&
        Grown(old(dfs.Seen()), old(dfs.heap), SetOf(here), dfs.Seen(), dfs.heap)
    {
      var outPort := RealPort(pkt, output.port);
      if outPort.Raised? {
        return false, [];
      }
      var arrivals: seq<State> := [];
      if outPort.value in links[dp] {
        arrivals := Arrivals(links[dp][outPort.value], output.pkts);
      }
      DiscoverAll(dfs, arrivals);
      return true, arrivals;
    }

    /** Carries the outputs of one packet over the stack links. */
    method Traverse(dfs: DFS, dp: DpId, pkt: Packet, outputs: Outputs<Packet>) returns (ok: bool)
      requires dfs.Valid() && dp in links
      modifies dfs
      ensures dfs.Valid() && ok == HopsOver(links[dp], pkt, outputs).Ok?
      ensures ok ==> Grown(old(dfs.Seen()), old(dfs.heap), SetOf(HopsOver(links[dp], pkt, outputs).value),
                           dfs.Seen(), dfs.heap)
    {
      var i := 0;
      ghost var carried: seq<State> := [];
      ghost var goal, seen0, heap0 := HopsOver(links[dp], pkt, outputs), dfs.Seen(), dfs.heap;
      NothingCarried(links[dp], pkt, outputs, seen0, heap0);
      while i < |outputs|
        invariant i <= |outputs| && dfs.Valid()
        invariant UnderWay(links[dp], pkt, outputs, i, goal, carried, seen0, heap0, dfs.Seen(), dfs.heap)
      {
        ghost var seen, heap := dfs.Seen(), dfs.heap;
        var crossed, here := TraverseOne(dfs, dp, pkt, outputs[i]);
        OneMoreCarried(links[dp], pkt, outputs, i, goal, carried, seen0, heap0, seen, heap, here, dfs.Seen(), dfs.heap);
        if !crossed {
          return false;
        }
        carried := carried + here;
        i := i + 1;
      }
      AllCarried(links[dp], pkt, outputs, goal, carried);
      return true;
    }

    /** What there is to say about one state; nothing changes. */
    method LookAt(ghost net: Net, s: State, dst: DpId, want: Expected)
      returns (found: Result<bool>, outputs: Result<Outputs<Packet>>)
      requires Shows(net) && ValidNet(net) && s.dp in tables
      ensures found != Ok(false) ==> LookedAt(net, dst, want, s, found)
      ensures found == Ok(false) ==>
        !Accepts(net, dst, want, s) && outputs == OutputsAt(net, s)
    {
      outputs := Raised;
      if s.dp == dst {
        found := tables[s.dp].IsFullOutput(s.pkt, want);
        if found.Raised? || found.value {
          return;
        }
      }
      found := Ok(false);
      outputs := tables[s.dp].GetPortOutputs(s.pkt);
    }

    /** Looks at one state: accepts it, raises, or queues where it leads. */
    method Expand(dfs: DFS, ghost net: Net, s: State, dst: DpId, want: Expected) returns (r: Result<bool>)
      requires Shows(net) && ValidNet(net) && dfs.Valid() && s.dp in tables
      modifies dfs
      ensures dfs.Valid() && LookedAt(net, dst, want, s, r)
      ensures r == Ok(false) ==>
        Grown(old(dfs.Seen()), old(dfs.heap), SetOf(Hops(net, s).value), dfs.Seen(), dfs.heap)
    {
      var outputs: Result<Outputs<Packet>>;
      r, outputs := LookAt(net, s, dst, want);
      if r == Ok(false) {
        HopsAre(net, s, links[s.dp]);
        if outputs.Raised? {
          return Raised;
        }
        var ok := Traverse(dfs, s.dp, s.pkt, outputs.value);
        r := if ok then Ok(false) else Raised;
      }
    }

    /** Takes one state off the queue and looks at it; the search goes on exactly while this gives no answer. */
    method SearchStep(dfs: DFS, ghost net: Net, ghost start: State, ghost expanded: seq<State>, ghost all: set<State>,
                      ghost unseen: set<State>, dst: DpId, want: Expected)
      returns (answer: Option<Result<bool>>, ghost expanded': seq<State>, ghost unseen': set<State>)
      requires Shows(net) && ValidNet(net) && dfs.Valid()
      requires Searching(net, start, dst, want, expanded, all, unseen, dfs.Seen(), dfs.heap)
      modifies dfs
      ensures dfs.Valid()
      ensures answer.Some? ==> expanded' == expanded && Found(net, start, dst, want, answer.value, expanded)
      ensures answer.None? ==>
        && Searching(net, start, dst, want, expanded', all, unseen', dfs.Seen(), dfs.heap)
        && Nearer(unseen, |old(dfs.heap)|, unseen', |dfs.heap|)
    {
      expanded', unseen' := expanded, unseen;
      ghost var seen, heap := dfs.Seen(), dfs.heap;
      var popped := dfs.Pop();
      if popped.None? {
        NothingWaits(net, start, dst, want, expanded, all, unseen, seen, heap);
        return Some(Ok(false)), expanded', unseen';
      }
      var s := popped.value;
      ghost var left := dfs.heap;
      WaitingIsKnown(net, start, dst, want, expanded, all, unseen, seen, heap, s);
      var found := Expand(dfs, net, s, dst, want);
      if found != Ok(false) {
        AnsweredHere(net, start, dst, want, expanded, all, unseen, seen, heap, s, found);
        return Some(found), expanded', unseen';
      }
      OneMoreExpanded(net, start, dst, want, expanded, all, unseen, seen, heap, s, left, dfs.Seen(), dfs.heap);
      return None, expanded + [s], all - dfs.Seen();
    }

    method Search(dfs: DFS, ghost net: Net, ghost start: State, ghost all: set<State>, dst: DpId, want: Expected)
      returns (r: Result<bool>, ghost expanded: seq<State>)
      requires Shows(net) && ValidNet(net) && dfs.Valid()
      requires Searching(net, start, dst, want, [], all, all - {start}, dfs.Seen(), dfs.heap)
      modifies dfs
      ensures Found(net, start, dst, want, r, expanded)
    {
      expanded := [];
      ghost var unseen := all - {start};
      while true
        invariant dfs.Valid()
        invariant Searching(net, start, dst, want, expanded, all, unseen, dfs.Seen(), dfs.heap)
        decreases unseen, |dfs.heap|
      {
        var answer;
        answer, expanded, unseen := SearchStep(dfs, net, start, expanded, all, unseen, dst, want);
        if answer.Some? {
          return answer.value, expanded;
        }
      }
    }

    /** A search that has seen and queued only where the packet enters. */
    method Enter(ghost net: Net, start: State, ghost all: set<State>, dst: DpId, want: Expected) returns (dfs: DFS)
      requires forall t | Reachable(net, start, t) :: t in all && t.dp in net.switches
      ensures fresh(dfs) && dfs.Valid()
      ensures Searching(net, start, dst, want, [], all, all - {start}, dfs.Seen(), dfs.heap)
    {
      dfs := new DFS();
      dfs.Discover(start, distance(start.dp));
      SearchStarts(net, start, dst, want, all, dfs.heap);
    }

    /**
     The search always ends.  No state is looked at twice; a no comes after exactly the reachable states
     have been looked at, and whatever the answer only reachable ones are.
     */
    method IsOutput(match_: Packet, src: DpId, dst: DpId, want: Expected, ghost net: Net)
      returns (r: Result<bool>, ghost expanded: seq<State>)
      requires Shows(net) && ValidNet(net) && src in tables && dst in tables
      ensures Answers(net, State(src, match_), dst, want, r)
      ensures Found(net, State(src, match_), dst, want, r, expanded)
    {
      ghost var all := FiniteBound(net, State(src, match_));
      var dfs := Enter(net, State(src, match_), all, dst, want);
      r, expanded := Search(dfs, net, State(src, match_), all, dst, want);
    }
  }
}
