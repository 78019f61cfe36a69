/** What one hop over a stack link is, in terms of what get_output records and of the packet's fields. */
module HopMeaning {
  import opened Packets
  import opened FlowEntries
  import opened FlowTables
  import opened TableLookup
  import opened Pipeline
  import opened Reach

  /** The packet is listed under the port. */
  predicate Records(o: Outputs<Packet>, port: PortNo, pkt: Packet) {
    exists x | x in o :: x.port == port && pkt in x.pkts
  }

  predicate Names(o: Outputs<Packet>, port: PortNo) {
    exists x | x in o :: x.port == port
  }

  // ---------------------------------------------------------------------------------------------
  // Merging the outputs of the tables
  // ---------------------------------------------------------------------------------------------

  lemma ConsRecords(x: PortPackets<Packet>, o: Outputs<Packet>, port: PortNo, pkt: Packet)
    ensures Records([x] + o, port, pkt) <==> (x.port == port && pkt in x.pkts) || Records(o, port, pkt)
    ensures Names([x] + o, port) <==> x.port == port || Names(o, port)
  {
    var all := [x] + o;
    assert x in all && forall y :: y in all <==> y == x || y in o;
  }

  lemma {:induction false} MergeRecords(o: Outputs<Packet>, port: PortNo, pkts: seq<Packet>, p: PortNo, pkt: Packet)
    ensures Records(MergeNew(o, port, pkts), p, pkt) <==> Records(o, p, pkt) || (p == port && pkt in pkts)
    ensures Names(MergeNew(o, port, pkts), p) <==> Names(o, p) || p == port
  {
    if o == [] {
      AddNewMembers([], pkts);
      var x := PortPackets(port, AddNew([], pkts));
      assert MergeNew(o, port, pkts) == [x] + [];
      ConsRecords(x, [], p, pkt);
    } else {
      assert o == [o[0]] + o[1..];
      ConsRecords(o[0], o[1..], p, pkt);
      if o[0].port == port {
        AddNewMembers(o[0].pkts, pkts);
        ConsRecords(PortPackets(port, AddNew(o[0].pkts, pkts)), o[1..], p, pkt);
      } else {
        MergeRecords(o[1..], port, pkts, p, pkt);
        ConsRecords(o[0], MergeNew(o[1..], port, pkts), p, pkt);
      }
    }
  }

  lemma {:induction false} MergeAllRecords(o: Outputs<Packet>, more: Outputs<Packet>, p: PortNo, pkt: Packet)
    ensures Records(MergeAllNew(o, more), p, pkt) <==> Records(o, p, pkt) || Records(more, p, pkt)
    ensures Names(MergeAllNew(o, more), p) <==> Names(o, p) || Names(more, p)
    decreases |more|
  {
    if more != [] {
      assert more == [more[0]] + more[1..];
      ConsRecords(more[0], more[1..], p, pkt);
      MergeRecords(o, more[0].port, more[0].pkts, p, pkt);
      MergeAllRecords(MergeNew(o, more[0].port, more[0].pkts), more[1..], p, pkt);
    }
  }

  ghost predicate SomeVisitRecords(visits: seq<Visit>, port: PortNo, pkt: Packet) {
    exists v | v in visits :: Records(v.outs, port, pkt)
  }

  ghost predicate SomeVisitNames(visits: seq<Visit>, port: PortNo) {
    exists v | v in visits :: Names(v.outs, port)
  }

  lemma ConsVisits(here: Visit, rest: seq<Visit>, port: PortNo, pkt: Packet)
    ensures SomeVisitRecords([here] + rest, port, pkt) <==>
              Records(here.outs, port, pkt) || SomeVisitRecords(rest, port, pkt)
    ensures SomeVisitNames([here] + rest, port) <==> Names(here.outs, port) || SomeVisitNames(rest, port)
  {
    var all := [here] + rest;
    assert here in all && forall v :: v in all <==> v == here || v in rest;
  }

  /** What get_port_outputs gathers is what get_output records, table by table. */
  lemma {:induction false} GatheredIsRecorded(
    tables: Tables, groups: Groups, o: Outputs<Packet>, pkt: Packet, id: TableId, p: PortNo, q: Packet)
    ensures PortOutputsFrom(tables, groups, o, pkt, id).Ok? <==> OutputWalk(tables, groups, pkt, id).Ok?
    ensures OutputWalk(tables, groups, pkt, id).Ok? ==>
      var r := PortOutputsFrom(tables, groups, o, pkt, id).value;
      var visits := OutputWalk(tables, groups, pkt, id).value.visits;
      && (Records(r, p, q) <==> Records(o, p, q) || SomeVisitRecords(visits, p, q))
      && (Names(r, p) <==> Names(o, p) || SomeVisitNames(visits, p))
    decreases |tables| - id
  {
    var r := OutputOfTable(tables, groups, pkt, id);
    if r.Ok? {
      var t := r.value;
      var here := Visit(id, Lookup(tables[id], pkt), t.outs);
      WalkUnfolds(tables, groups, pkt, id, t);
      MergeAllRecords(o, t.outs, p, q);
      if t.next.Some? {
        GatheredIsRecorded(tables, groups, MergeAllNew(o, t.outs), t.pkt, t.next.value, p, q);
        var rest := OutputWalk(tables, groups, t.pkt, t.next.value);
        if rest.Ok? {
          ConsVisits(here, rest.value.visits, p, q);
        }
      } else {
        ConsVisits(here, [], p, q);
      }
    }
  }

  // ---------------------------------------------------------------------------------------------
  // Over the links
  // ---------------------------------------------------------------------------------------------

  /** The port a packet really leaves by. */
  predicate ReallyLeaves(pkt: Packet, port: PortNo, real_: PortNo) {
    if port == OFPP_IN_PORT then FieldOf(pkt, InPort) == Some(real_) else real_ == port
  }

  /** The arriving packet: the ingress port is the far end's, every other field is as it was sent. */
  ghost predicate ArrivesAt(sent: Packet, port: PortNo, arrived: Packet) {
    FieldOf(arrived, InPort) == Some(port) && forall f | f != InPort :: FieldOf(arrived, f) == FieldOf(sent, f)
  }

  ghost predicate Crosses(links: Links, pkt: Packet, port: PortNo, sent: Packet, t: State) {
    exists p, n: PortNo ::
      ReallyLeaves(pkt, port, p) && p in links && links[p] == Stacked(t.dp, n) && ArrivesAt(sent, n, t.pkt)
  }

  lemma ArrivesIs(sent: Packet, port: PortNo, arrived: Packet)
    ensures ArrivesAt(sent, port, arrived) <==> arrived == sent[InPort := port]
  {
    if ArrivesAt(sent, port, arrived) {
      forall f ensures (f in arrived <==> f in sent[InPort := port]) {
        if f != InPort {
          assert FieldOf(arrived, f) == FieldOf(sent, f);
        }
      }
      forall f | f in arrived ensures arrived[f] == sent[InPort := port][f] {
        if f != InPort {
          assert FieldOf(arrived, f) == FieldOf(sent, f);
        }
      }
    }
  }

  /** Where one port's packets arrive. */
  lemma ArrivalsAre(links: Links, pkt: Packet, x: PortPackets<Packet>, t: State)
    requires RealPort(pkt, x.port).Ok?
    ensures
      var port := RealPort(pkt, x.port).value;
      t in (if port in links then Arrivals(links[port], x.pkts) else []) <==>
      exists q | q in x.pkts :: Crosses(links, pkt, x.port, q, t)
  {
    var port := RealPort(pkt, x.port).value;
    assert forall p :: ReallyLeaves(pkt, x.port, p) <==> p == port;
    if port in links && links[port].Stacked? {
      var arrivals := Arrivals(links[port], x.pkts);
      if t in arrivals {
        var i :| 0 <= i < |arrivals| && arrivals[i] == t;
        ArrivesIs(x.pkts[i], links[port].port, t.pkt);
        assert Crosses(links, pkt, x.port, x.pkts[i], t);
      }
      if q :| q in x.pkts && Crosses(links, pkt, x.port, q, t) {
        var i :| 0 <= i < |x.pkts| && x.pkts[i] == q;
        ArrivesIs(q, links[port].port, t.pkt);
        assert arrivals[i] == t;
      }
    }
  }

  lemma {:induction false} HopsOverAre(links: Links, pkt: Packet, o: Outputs<Packet>, t: State)
    ensures HopsOver(links, pkt, o).Ok? <==> !Names(o, OFPP_IN_PORT) || InPort in pkt
    ensures HopsOver(links, pkt, o).Ok? ==>
      (t in HopsOver(links, pkt, o).value <==>
       exists x, q | x in o && q in x.pkts :: Crosses(links, pkt, x.port, q, t))
  {
    if o != [] {
      HopsOverAre(links, pkt, o[1..], t);
      assert o == [o[0]] + o[1..];
      ConsRecords(o[0], o[1..], OFPP_IN_PORT, pkt);
      if HopsOver(links, pkt, o).Ok? {
        ArrivalsAre(links, pkt, o[0], t);
        assert forall x :: x in o <==> x == o[0] || x in o[1..];
      }
    }
  }

  /** One hop, without the functions that compute it. */
  ghost predicate IsHop(net: Net, s: State, t: State) {
    && s.dp in net.switches && s.dp in net.links
    && var walk := OutputWalk(net.switches[s.dp].tables, net.switches[s.dp].groups, s.pkt, 0);
       && walk.Ok?
       && (SomeVisitNames(walk.value.visits, OFPP_IN_PORT) ==> InPort in s.pkt)
       && exists o, q ::
            SomeVisitRecords(walk.value.visits, o, q) && Crosses(net.links[s.dp], s.pkt, o, q, t)
  }

  lemma SomeHop(links: Links, pkt: Packet, r: Outputs<Packet>, visits: seq<Visit>, t: State)
    requires forall p, q :: Records(r, p, q) <==> SomeVisitRecords(visits, p, q)
    ensures (exists x, q | x in r && q in x.pkts :: Crosses(links, pkt, x.port, q, t)) <==>
            exists o, q :: SomeVisitRecords(visits, o, q) && Crosses(links, pkt, o, q, t)
  {
    if x, q :| x in r && q in x.pkts && Crosses(links, pkt, x.port, q, t) {
      assert Records(r, x.port, q);
    }
    if o, q :| SomeVisitRecords(visits, o, q) && Crosses(links, pkt, o, q, t) {
      var x :| x in r && x.port == o && q in x.pkts;
    }
  }

  /**
   A packet hops exactly where get_output does not raise, no output by the ingress port lacks one to go
   back by, and some visited table records the packet at a port that really is, or stands for, a stack
   port leading there; it arrives with the far port as its ingress port and is otherwise as it was sent.
   */
  lemma EdgeIsHop(net: Net, s: State, t: State)
    ensures Edge(net, s, t) <==> IsHop(net, s, t)
  {
    if s.dp in net.switches && s.dp in net.links {
      var tables, groups, links := net.switches[s.dp].tables, net.switches[s.dp].groups, net.links[s.dp];
      var walk, r := OutputWalk(tables, groups, s.pkt, 0), PortOutputsFrom(tables, groups, [], s.pkt, 0);
      GatheredIsRecorded(tables, groups, [], s.pkt, 0, OFPP_IN_PORT, s.pkt);
      if r.Ok? {
        forall p, q ensures Records(r.value, p, q) <==> SomeVisitRecords(walk.value.visits, p, q) {
          GatheredIsRecorded(tables, groups, [], s.pkt, 0, p, q);
        }
        SomeHop(links, s.pkt, r.value, walk.value.visits, t);
        HopsOverAre(links, s.pkt, r.value, t);
      }
    }
  }

  /** Across a link between two switches the ingress port becomes the far end's. */
  lemma HopSetsInPort(net: Net, s: State, t: State)
    requires Edge(net, s, t)
    ensures InPort in t.pkt && exists p | p in net.links[s.dp] :: net.links[s.dp][p] == Stacked(t.dp, t.pkt[InPort])
  {
    EdgeIsHop(net, s, t);
  }
}
