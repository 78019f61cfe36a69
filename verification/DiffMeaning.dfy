/** What the configuration diff reports, in terms of the two configurations' own fields. */
module DiffMeaning {
  import opened Packets
  import opened ConfigDiff

  // ---------------------------------------------------------------------------------------------
  // What can differ
  // ---------------------------------------------------------------------------------------------

  predicate PortInBoth(old_: Dp, new_: Dp, p: Port) {
    p in old_.ports && p in new_.ports
  }

  /** Its own configuration differs, description, mirror list and ingress ACLs aside. */
  predicate PortDiffers(old_: Dp, new_: Dp, p: Port)
    requires PortInBoth(old_, new_, p)
  {
    || old_.ports[p].own != new_.ports[p].own || old_.ports[p].vlans != new_.ports[p].vlans
    || old_.ports[p].stacked != new_.ports[p].stacked
  }

  /** A stack port while the stack's topology changes. */
  predicate Restarts(old_: Dp, new_: Dp, p: Port)
    requires PortInBoth(old_, new_, p)
  {
    old_.stack.Some? && new_.stack != old_.stack && new_.ports[p].stacked
  }

  predicate PortTouched(old_: Dp, new_: Dp, p: Port) {
    PortInBoth(old_, new_, p) && (PortDiffers(old_, new_, p) || Restarts(old_, new_, p))
  }

  predicate VlanInBoth(old_: Dp, new_: Dp, v: Vid) {
    v in old_.vlans && v in new_.vlans
  }

  /** Its own configuration differs, description and ingress ACLs aside. */
  predicate VlanDiffers(old_: Dp, new_: Dp, v: Vid) {
    VlanInBoth(old_, new_, v) &&
    (old_.vlans[v].own != new_.vlans[v].own || old_.vlans[v].name != new_.vlans[v].name ||
     old_.vlans[v].aclsOut != new_.vlans[v].aclsOut)
  }

  predicate AclIsNewOrDiffers(old_: Dp, new_: Dp, a: AclId) {
    a in new_.acls && (a !in old_.acls || old_.acls[a].own != new_.acls[a].own)
  }

  /** Other ACLs, or one of the new ones has new contents. */
  predicate AclsDiffer(old_: Dp, new_: Dp, oldAcls: seq<AclId>, newAcls: seq<AclId>) {
    oldAcls != newAcls || exists a | a in newAcls :: AclIsNewOrDiffers(old_, new_, a)
  }

  predicate VlanAclsDiffer(old_: Dp, new_: Dp, v: Vid) {
    VlanInBoth(old_, new_, v) && AclsDiffer(old_, new_, old_.vlans[v].aclsIn, new_.vlans[v].aclsIn)
  }

  /** The port is configured on the VLAN, by number or by name. */
  predicate OnVlan(dp: Dp, p: Port, v: Vid) {
    p in dp.ports && v in dp.vlans && (ByVid(v) in dp.ports[p].vlans || ByName(dp.vlans[v].name) in dp.ports[p].vlans)
  }

  predicate StackedIn(dp: Dp, p: Port) {
    p in dp.ports && dp.ports[p].stacked
  }

  // ---------------------------------------------------------------------------------------------
  // The building blocks
  // ---------------------------------------------------------------------------------------------

  lemma ChangedAclIff(old_: Dp, new_: Dp, a: AclId)
    ensures a in ChangedAcls(old_, new_) <==> AclIsNewOrDiffers(old_, new_, a)
  {
    assert a in AclKeys(old_) <==> a in old_.acls;
    assert a in AclKeys(new_) <==> a in new_.acls;
  }

  lemma AclRefsIff(old_: Dp, new_: Dp, oldAcls: seq<AclId>, newAcls: seq<AclId>)
    ensures AclRefChanges(oldAcls, newAcls, ChangedAcls(old_, new_)) <==> AclsDiffer(old_, new_, oldAcls, newAcls)
  {
    forall a | a in newAcls ensures a in ChangedAcls(old_, new_) <==> AclIsNewOrDiffers(old_, new_, a) {
      ChangedAclIff(old_, new_, a);
    }
  }

  lemma VlanPartsIff(old_: Dp, new_: Dp, v: Vid)
    ensures
      var c := VlanChangesOf(old_, new_, ChangedAcls(old_, new_));
      && (v in c.added <==> v in new_.vlans && v !in old_.vlans)
      && (v in c.deleted <==> v in old_.vlans && v !in new_.vlans)
      && (v in c.changed <==> VlanDiffers(old_, new_, v))
      && (v in c.aclChanged <==> VlanAclsDiffer(old_, new_, v) && !VlanDiffers(old_, new_, v))
  {
    assert (v in VlanKeys(old_) <==> v in old_.vlans) && (v in VlanKeys(new_) <==> v in new_.vlans);
    if VlanInBoth(old_, new_, v) {
      AclRefsIff(old_, new_, old_.vlans[v].aclsIn, new_.vlans[v].aclsIn);
    }
  }

  lemma PortPartsIff(old_: Dp, new_: Dp, p: Port)
    ensures
      var c := ChangesOf(PortKeys(old_), PortKeys(new_));
      && (p in c.added <==> p in new_.ports && p !in old_.ports)
      && (p in c.deleted <==> p in old_.ports && p !in new_.ports)
    ensures p in OwnChanged(old_, new_) <==> PortTouched(old_, new_, p)
    ensures p in OwnSame(old_, new_) <==> PortInBoth(old_, new_, p) && !PortTouched(old_, new_, p)
  {
    assert (p in PortKeys(old_) <==> p in old_.ports) && (p in PortKeys(new_) <==> p in new_.ports);
  }

  lemma MemberIff(dp: Dp, vids: set<Vid>, p: Port)
    ensures p in MembersOfAny(dp, vids) <==> exists v | v in vids :: OnVlan(dp, p, v)
  {
    if p in MembersOfAny(dp, vids) {
      var v :| v in vids && v in dp.vlans && p in Members(dp, v);
      assert OnVlan(dp, p, v);
    }
    if v :| v in vids && OnVlan(dp, p, v) {
      assert p in Members(dp, v);
    }
  }

  // ---------------------------------------------------------------------------------------------
  // The reports
  // ---------------------------------------------------------------------------------------------

  /** Added and deleted ports and VLANs are those of one configuration only. */
  lemma AddedAndDeletedAre(old_: Dp, new_: Dp)
    requires !ColdStart(old_, new_)
    ensures
      var d := DiffOf(old_, new_);
      && d.ports.added == new_.ports.Keys - old_.ports.Keys && d.ports.deleted == old_.ports.Keys - new_.ports.Keys
      && d.addedVlans == new_.vlans.Keys - old_.vlans.Keys && d.deletedVlans == old_.vlans.Keys - new_.vlans.Keys
  {
    var d := DiffOf(old_, new_);
    forall p ensures (p in d.ports.added <==> p in new_.ports && p !in old_.ports) &&
                     (p in d.ports.deleted <==> p in old_.ports && p !in new_.ports) {
      PortPartsIff(old_, new_, p);
    }
    forall v ensures (v in d.addedVlans <==> v in new_.vlans && v !in old_.vlans) &&
                     (v in d.deletedVlans <==> v in old_.vlans && v !in new_.vlans) {
      VlanPartsIff(old_, new_, v);
    }
  }

  /** All ports are reported when none is untouched, or every one of the new configuration is touched. */
  lemma AllPortsIff(old_: Dp, new_: Dp)
    ensures DiffOf(old_, new_).ports.all <==>
      || ColdStart(old_, new_)
      || (forall p | PortInBoth(old_, new_, p) :: PortTouched(old_, new_, p))
      || (forall p | p in new_.ports :: PortTouched(old_, new_, p))
  {
    forall p
      ensures p in OwnChanged(old_, new_) <==> PortTouched(old_, new_, p)
      ensures p in OwnSame(old_, new_) <==> PortInBoth(old_, new_, p) && !PortTouched(old_, new_, p)
    {
      PortPartsIff(old_, new_, p);
    }
    if forall p | p in new_.ports :: PortTouched(old_, new_, p) {
      assert OwnChanged(old_, new_) == new_.ports.Keys;
    }
    if OwnSame(old_, new_) != {} {
      var p :| p in OwnSame(old_, new_);
    }
  }

  predicate VlanNeedsPorts(old_: Dp, new_: Dp, v: Vid) {
    v in new_.vlans && (v !in old_.vlans || VlanDiffers(old_, new_, v) || VlanAclsDiffer(old_, new_, v))
  }

  /** Its own configuration, its stack's topology or its mirrors changed, or a VLAN it is on did. */
  predicate PortChanged(old_: Dp, new_: Dp, p: Port) {
    || PortTouched(old_, new_, p)
    || (PortInBoth(old_, new_, p) && old_.ports[p].mirror != new_.ports[p].mirror)
    || exists v | v in new_.vlans :: OnVlan(new_, p, v) && VlanNeedsPorts(old_, new_, v)
  }

  /** When not all ports are reported, exactly these are reported as changed. */
  lemma PortReportedIff(old_: Dp, new_: Dp, p: Port)
    requires !DiffOf(old_, new_).ports.all
    ensures p in DiffOf(old_, new_).ports.changed <==> PortChanged(old_, new_, p)
  {
    var v := VlanChangesOf(old_, new_, ChangedAcls(old_, new_));
    PortPartsIff(old_, new_, p);
    MemberIff(new_, v.aclChanged, p);
    MemberIff(new_, v.added + v.changed, p);
    forall w ensures w in v.aclChanged || w in v.added + v.changed <==> VlanNeedsPorts(old_, new_, w) {
      VlanPartsIff(old_, new_, w);
    }
  }

  /** And exactly these as changed in their ACLs only. */
  lemma AclPortReportedIff(old_: Dp, new_: Dp, p: Port)
    requires !DiffOf(old_, new_).ports.all
    ensures p in DiffOf(old_, new_).ports.aclChanged <==>
      && PortInBoth(old_, new_, p) && !PortTouched(old_, new_, p)
      && AclsDiffer(old_, new_, old_.ports[p].aclsIn, new_.ports[p].aclsIn)
  {
    PortPartsIff(old_, new_, p);
    if PortInBoth(old_, new_, p) {
      AclRefsIff(old_, new_, old_.ports[p].aclsIn, new_.ports[p].aclsIn);
    }
  }

  /** VLANs reported for their ACLs only. */
  lemma AclVlanReportedIff(old_: Dp, new_: Dp, v: Vid)
    requires !ColdStart(old_, new_)
    ensures v in DiffOf(old_, new_).aclVlans <==> VlanAclsDiffer(old_, new_, v) && !VlanDiffers(old_, new_, v)
  {
    VlanPartsIff(old_, new_, v);
  }

  /** A port in both configurations that is touched, or on a VLAN whose ACLs alone changed. */
  predicate PortRedone(old_: Dp, new_: Dp, p: Port) {
    || PortTouched(old_, new_, p)
    || exists v | v in new_.vlans :: OnVlan(new_, p, v) && VlanAclsDiffer(old_, new_, v) && !VlanDiffers(old_, new_, v)
  }

  /** The redone port joins or leaves the VLAN, or takes part in stacking anew or no more. */
  predicate MovesVlan(old_: Dp, new_: Dp, p: Port, v: Vid) {
    && PortInBoth(old_, new_, p) && PortRedone(old_, new_, p)
    && (OnVlan(old_, p, v) != OnVlan(new_, p, v) || StackedIn(old_, p) != StackedIn(new_, p))
  }

  /** The port is on the VLAN, or a stack port and so on all of them. */
  predicate Carries(dp: Dp, p: Port, v: Vid) {
    OnVlan(dp, p, v) || StackedIn(dp, p)
  }

  predicate VlanChanged(old_: Dp, new_: Dp, v: Vid) {
    VlanInBoth(old_, new_, v) &&
    (|| VlanDiffers(old_, new_, v)
     || (exists p | p in new_.ports :: MovesVlan(old_, new_, p, v))
     || (exists p | p in old_.ports :: p !in new_.ports && Carries(old_, p, v))
     || (exists p | p in new_.ports :: p !in old_.ports && Carries(new_, p, v)))
  }

  lemma MovedIff(old_: Dp, new_: Dp, ps: set<Port>, v: Vid)
    requires VlanInBoth(old_, new_, v)
    requires forall p | PortInBoth(old_, new_, p) :: p in ps <==> PortRedone(old_, new_, p)
    ensures v in MovedByAny(old_, new_, ps) <==> exists p | p in new_.ports :: MovesVlan(old_, new_, p, v)
  {
    forall p ensures p in ps && v in VlansMovedBy(old_, new_, p) <==> p in new_.ports && MovesVlan(old_, new_, p, v) {
      if PortInBoth(old_, new_, p) {
        assert v in Vids(old_, p) <==> OnVlan(old_, p, v);
        assert v in Vids(new_, p) <==> OnVlan(new_, p, v);
      }
    }
  }

  lemma OfAnyIff(dp: Dp, ps: set<Port>, v: Vid)
    requires v in dp.vlans && ps <= dp.ports.Keys
    ensures v in OfAnyPort(dp, ps) <==> exists p | p in ps :: Carries(dp, p, v)
  {
    forall p | p in ps ensures v in VlansOfPort(dp, p) <==> Carries(dp, p, v) {
      assert v in Vids(dp, p) <==> OnVlan(dp, p, v);
    }
  }

  lemma RedoneIff(old_: Dp, new_: Dp, p: Port)
    ensures
      var acls := ChangedAcls(old_, new_);
      p in OwnChanged(old_, new_) + MembersOfAny(new_, VlanChangesOf(old_, new_, acls).aclChanged) <==>
      PortRedone(old_, new_, p)
  {
    var v := VlanChangesOf(old_, new_, ChangedAcls(old_, new_));
    PortPartsIff(old_, new_, p);
    MemberIff(new_, v.aclChanged, p);
    forall w ensures w in v.aclChanged <==> VlanAclsDiffer(old_, new_, w) && !VlanDiffers(old_, new_, w) {
      VlanPartsIff(old_, new_, w);
    }
  }

  /** When not all ports are reported, exactly these VLANs are reported as changed. */
  lemma VlanReportedIff(old_: Dp, new_: Dp, v: Vid)
    requires !DiffOf(old_, new_).ports.all
    ensures v in DiffOf(old_, new_).ports.changedVlans <==> VlanChanged(old_, new_, v)
  {
    if VlanInBoth(old_, new_, v) {
      VlanOfBothReportedIff(old_, new_, v);
    } else {
      VlanOfOneIsNotChanged(old_, new_, v);
    }
  }

  lemma VlanOfOneIsNotChanged(old_: Dp, new_: Dp, v: Vid)
    requires !DiffOf(old_, new_).ports.all && !VlanInBoth(old_, new_, v)
    ensures v !in DiffOf(old_, new_).ports.changedVlans
  {
    VlanPartsIff(old_, new_, v);
    forall ps ensures v in MovedByAny(old_, new_, ps) ==> v in old_.vlans || v in new_.vlans {}
    forall ps ensures v in OfAnyPort(old_, ps) ==> v in old_.vlans {}
    forall ps ensures v in OfAnyPort(new_, ps) ==> v in new_.vlans {}
  }

  lemma VlanOfBothReportedIff(old_: Dp, new_: Dp, v: Vid)
    requires !DiffOf(old_, new_).ports.all && VlanInBoth(old_, new_, v)
    ensures v in DiffOf(old_, new_).ports.changedVlans <==> VlanChanged(old_, new_, v)
  {
    var c := ChangesOf(PortKeys(old_), PortKeys(new_));
    var w := VlanChangesOf(old_, new_, ChangedAcls(old_, new_));
    VlanPartsIff(old_, new_, v);
    var redone := OwnChanged(old_, new_) + MembersOfAny(new_, w.aclChanged);
    forall p | PortInBoth(old_, new_, p) ensures p in redone <==> PortRedone(old_, new_, p) {
      RedoneIff(old_, new_, p);
    }
    MovedIff(old_, new_, redone, v);
    ReportsOf(old_, new_, v, c.deleted, c.added);
  }

  lemma ReportsOf(old_: Dp, new_: Dp, v: Vid, deleted: set<Port>, added: set<Port>)
    requires VlanInBoth(old_, new_, v)
    requires
      var c := ChangesOf(PortKeys(old_), PortKeys(new_));
      deleted == c.deleted && added == c.added
    ensures v in OfAnyPort(old_, deleted) <==>
              exists p | p in old_.ports :: p !in new_.ports && Carries(old_, p, v)
    ensures v in OfAnyPort(new_, added) <==>
              exists p | p in new_.ports :: p !in old_.ports && Carries(new_, p, v)
  {
    forall p ensures (p in added <==> p in new_.ports && p !in old_.ports) &&
                     (p in deleted <==> p in old_.ports && p !in new_.ports) {
      PortPartsIff(old_, new_, p);
    }
    OfAnyIff(old_, deleted, v);
    OfAnyIff(new_, added, v);
  }

  /** Meters are compared by their own configuration. */
  lemma MeterReports(old_: Dp, new_: Dp)
    requires !ColdStart(old_, new_)
    ensures
      var m := DiffOf(old_, new_).meters;
      && m.added == new_.meters.Keys - old_.meters.Keys && m.deleted == old_.meters.Keys - new_.meters.Keys
      && (forall i :: i in m.changed <==>
            i in old_.meters && i in new_.meters && old_.meters[i].own != new_.meters[i].own)
      && (m.all <==> m.added != {} || m.deleted != {} || m.changed != {})
  {
    assert MeterKeys(old_).Keys == old_.meters.Keys && MeterKeys(new_).Keys == new_.meters.Keys;
  }

  // ---------------------------------------------------------------------------------------------
  // Cold starts, and reports that all ports changed
  // ---------------------------------------------------------------------------------------------

  /** A warm restart needs equal routers, equal own configuration, and one root of the stacks there are. */
  lemma ColdStartIff(old_: Dp, new_: Dp)
    ensures !ColdStart(old_, new_) <==>
      && old_.own == new_.own && old_.routers == new_.routers
      && (old_.stack.None? || new_.stack.None? || old_.stack.value.root == new_.stack.value.root)
    ensures ColdStart(old_, new_) ==>
      var d := DiffOf(old_, new_);
      && d.ports.all && d.ports.added == d.ports.deleted == d.ports.changed == d.ports.aclChanged == {}
      && d.ports.changedVlans == d.addedVlans == d.deletedVlans == d.aclVlans == {}
      && d.meters.all && d.meters.added == d.meters.deleted == d.meters.changed == {}
  {
  }

  /** When a warm restart reports all ports, the ports named are the touched ones and the VLANs those that differ. */
  lemma AllPortsReport(old_: Dp, new_: Dp, p: Port, v: Vid)
    requires DiffOf(old_, new_).ports.all && !ColdStart(old_, new_)
    ensures p in DiffOf(old_, new_).ports.changed <==> PortTouched(old_, new_, p)
    ensures DiffOf(old_, new_).ports.aclChanged == {}
    ensures v in DiffOf(old_, new_).ports.changedVlans <==> VlanDiffers(old_, new_, v)
  {
    PortPartsIff(old_, new_, p);
    VlanPartsIff(old_, new_, v);
  }
}
