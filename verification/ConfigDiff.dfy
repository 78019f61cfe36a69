/** Which ports and VLANs a configuration change touches: the diff that decides what a warm restart redoes. */
module ConfigDiff {
  import opened Packets

  type AclId = string
  type MeterId = string
  type Vid = nat
  type Port = nat
  type PortRef = nat

  datatype VlanRef = ByVid(vid: Vid) | ByName(name: string)

  // own stands for every other configured key; description is compared apart.
  datatype Acl = Acl(own: string, description: string)

  datatype Vlan = Vlan(own: string, name: string, description: string, aclsIn: seq<AclId>, aclsOut: seq<AclId>)

  datatype PortConf = PortConf(
    own: string, description: string, vlans: set<VlanRef>, stacked: bool, mirror: seq<Port>, aclsIn: seq<AclId>)

  datatype Meter = Meter(own: string, description: string)

  datatype Stack = Stack(root: string, topology: string)

  // The DP's own key leaves out interfaces, interface_ranges and routers.
  datatype Dp = Dp(
    own: string, routers: string, stack: Option<Stack>,
    acls: map<AclId, Acl>, vlans: map<Vid, Vlan>, ports: map<Port, PortConf>, meters: map<MeterId, Meter>)

  // ---------------------------------------------------------------------------------------------
  // Own configuration keys
  // ---------------------------------------------------------------------------------------------

  datatype OwnKey =
    | AclKey(own: string)
    | MeterKey(own: string)
    | VlanKey(own: string, name: string, aclsOut: seq<AclId>)
    | PortKey(own: string, vlans: set<VlanRef>, stacked: bool)

  datatype Conf = Conf(key: OwnKey, description: string)

  function KeyOfAcl(a: Acl): (r: Conf) { Conf(AclKey(a.own), a.description) }
  function KeyOfVlan(v: Vlan): (r: Conf) { Conf(VlanKey(v.own, v.name, v.aclsOut), v.description) }
  function KeyOfPort(p: PortConf): (r: Conf) { Conf(PortKey(p.own, p.vlans, p.stacked), p.description) }

  function KeyOfMeter(m: Meter): (r: Conf) { Conf(MeterKey(m.own), m.description) }

  function AclKeys(dp: Dp): (r: map<AclId, Conf>) { map a | a in dp.acls :: KeyOfAcl(dp.acls[a]) }
  function MeterKeys(dp: Dp): (r: map<MeterId, Conf>) { map m | m in dp.meters :: KeyOfMeter(dp.meters[m]) }
  function VlanKeys(dp: Dp): (r: map<Vid, Conf>) { map v | v in dp.vlans :: KeyOfVlan(dp.vlans[v]) }
  function PortKeys(dp: Dp): (r: map<Port, Conf>) { map p | p in dp.ports :: KeyOfPort(dp.ports[p]) }

  datatype Changes<I> = Changes(
    deleted: set<I>, added: set<I>, changed: set<I>, same: set<I>, descriptionOnly: set<I>)

  /** What the generic comparison sorts each identifier into. */
  function ChangesOf<I>(old_: map<I, Conf>, new_: map<I, Conf>): (r: Changes<I>) {
    var common := old_.Keys * new_.Keys;
    Changes(old_.Keys - new_.Keys, new_.Keys - old_.Keys,
            set i | i in common && old_[i].key != new_[i].key,
            set i | i in common && old_[i].key == new_[i].key,
            set i | i in common && old_[i].key == new_[i].key && old_[i].description != new_[i].description)
  }

  method GetConfChanges<I(==)>(old_: map<I, Conf>, new_: map<I, Conf>) returns (r: Changes<I>)
    ensures r == ChangesOf(old_, new_)
  {
    var added, changed, same, descriptionOnly: set<I> := {}, {}, {}, {};
    var todo := new_.Keys;
    while todo != {}
      invariant todo <= new_.Keys
      invariant added == ChangesOf(old_, new_).added - todo && changed == ChangesOf(old_, new_).changed - todo
      invariant same == ChangesOf(old_, new_).same - todo
      invariant descriptionOnly == ChangesOf(old_, new_).descriptionOnly - todo
      decreases todo
    {
      var id :| id in todo;
      if id in old_ {
        if old_[id] == new_[id] {
          same := same + {id};
        } else if old_[id].key == new_[id].key {
          same := same + {id};
          descriptionOnly := descriptionOnly + {id};
        } else {
          changed := changed + {id};
        }
      } else {
        added := added + {id};
      }
      todo := todo - {id};
    }
    return Changes(old_.Keys - new_.Keys, added, changed, same, descriptionOnly);
  }

  // ---------------------------------------------------------------------------------------------
  // VLAN membership and ACL references
  // ---------------------------------------------------------------------------------------------

  /** The VLANs a port's references resolve to. */
  function Vids(dp: Dp, p: Port): (r: set<Vid>)
    requires p in dp.ports
  {
    set v | v in dp.vlans && (ByVid(v) in dp.ports[p].vlans || ByName(dp.vlans[v].name) in dp.ports[p].vlans)
  }

  function Members(dp: Dp, v: Vid): (r: set<Port>) {
    set p | p in dp.ports && v in Vids(dp, p)
  }

  predicate AclRefChanges(oldAcls: seq<AclId>, newAcls: seq<AclId>, changedAcls: set<AclId>) {
    (exists a | a in newAcls :: a in changedAcls) || oldAcls != newAcls
  }

  function ChangedAcls(old_: Dp, new_: Dp): (r: set<AclId>) {
    var c := ChangesOf(AclKeys(old_), AclKeys(new_));
    c.added + c.changed
  }

  datatype VlanChanges = VlanChanges(added: set<Vid>, deleted: set<Vid>, changed: set<Vid>, aclChanged: set<Vid>)

  function VlanChangesOf(old_: Dp, new_: Dp, changedAcls: set<AclId>): (r: VlanChanges) {
    var c := ChangesOf(VlanKeys(old_), VlanKeys(new_));
    VlanChanges(c.added, c.deleted, c.changed,
                set v | v in c.same && AclRefChanges(old_.vlans[v].aclsIn, new_.vlans[v].aclsIn, changedAcls))
  }

  method GetVlanConfigChanges(old_: Dp, new_: Dp, changedAcls: set<AclId>) returns (r: VlanChanges)
    ensures r == VlanChangesOf(old_, new_, changedAcls)
  {
    var c := GetConfChanges(VlanKeys(old_), VlanKeys(new_));
    var aclChanged: set<Vid> := {};
    var todo := c.same;
    while todo != {}
      invariant todo <= c.same
      invariant aclChanged == VlanChangesOf(old_, new_, changedAcls).aclChanged - todo
      decreases todo
    {
      var v :| v in todo;
      if AclRefChanges(old_.vlans[v].aclsIn, new_.vlans[v].aclsIn, changedAcls) {
        aclChanged := aclChanged + {v};
      }
      todo := todo - {v};
    }
    return VlanChanges(c.added, c.deleted, c.changed, aclChanged);
  }

  // ---------------------------------------------------------------------------------------------
  // Port changes
  // ---------------------------------------------------------------------------------------------

  function StackPorts(dp: Dp): (r: set<Port>) {
    set p | p in dp.ports && dp.ports[p].stacked
  }

  predicate TopologyChanged(old_: Dp, new_: Dp) {
    old_.stack.Some? && new_.stack != old_.stack
  }

  function MembersOfAny(dp: Dp, vids: set<Vid>): (r: set<Port>) {
    set v, p | v in vids && v in dp.vlans && p in Members(dp, v) :: p
  }

  method PortsOfVlans(dp: Dp, vids: set<Vid>) returns (r: set<Port>)
    ensures r == MembersOfAny(dp, vids)
  {
    r := {};
    var todo := vids;
    while todo != {}
      invariant todo <= vids && r == MembersOfAny(dp, vids - todo)
      decreases todo
    {
      var v :| v in todo;
      assert vids - (todo - {v}) == (vids - todo) + {v};
      if v in dp.vlans {
        r := r + Members(dp, v);
      }
      todo := todo - {v};
    }
    assert vids - {} == vids;
  }

  function SymmetricDifference(a: set<Vid>, b: set<Vid>): (r: set<Vid>) {
    (a - b) + (b - a)
  }

  /** VLANs touched because a port is in another set of them, or takes part in stacking anew or no more. */
  function VlansMovedBy(old_: Dp, new_: Dp, p: Port): (r: set<Vid>) {
    if p in old_.ports && p in new_.ports then
      SymmetricDifference(Vids(old_, p), Vids(new_, p)) +
      (if old_.ports[p].stacked != new_.ports[p].stacked then new_.vlans.Keys else {})
    else {}
  }

  /** VLANs touched because a port appears or disappears. */
  function VlansOfPort(dp: Dp, p: Port): (r: set<Vid>) {
    if p in dp.ports then Vids(dp, p) + (if dp.ports[p].stacked then dp.vlans.Keys else {}) else {}
  }

  function MovedByAny(old_: Dp, new_: Dp, ps: set<Port>): (r: set<Vid>) {
    set p, v | p in ps && v in VlansMovedBy(old_, new_, p) :: v
  }

  function OfAnyPort(dp: Dp, ps: set<Port>): (r: set<Vid>) {
    set p, v | p in ps && v in VlansOfPort(dp, p) :: v
  }

  method VlansMoved(old_: Dp, new_: Dp, ps: set<Port>) returns (r: set<Vid>)
    ensures r == MovedByAny(old_, new_, ps)
  {
    r := {};
    var todo := ps;
    while todo != {}
      invariant todo <= ps && r == MovedByAny(old_, new_, ps - todo)
      decreases todo
    {
      var p :| p in todo;
      assert ps - (todo - {p}) == (ps - todo) + {p};
      r := r + VlansMovedBy(old_, new_, p);
      todo := todo - {p};
    }
    assert ps - {} == ps;
  }

  method VlansOfPorts(dp: Dp, ps: set<Port>) returns (r: set<Vid>)
    ensures r == OfAnyPort(dp, ps)
  {
    r := {};
    var todo := ps;
    while todo != {}
      invariant todo <= ps && r == OfAnyPort(dp, ps - todo)
      decreases todo
    {
      var p :| p in todo;
      assert ps - (todo - {p}) == (ps - todo) + {p};
      r := r + VlansOfPort(dp, p);
      todo := todo - {p};
    }
    assert ps - {} == ps;
  }

  datatype PortChanges = PortChanges(
    all: bool, deleted: set<Port>, changed: set<Port>, added: set<Port>, aclChanged: set<Port>, changedVlans: set<Vid>)

  /** Ports whose own configuration changed, and stack ports to restart after a topology change. */
  function OwnChanged(old_: Dp, new_: Dp): (r: set<Port>) {
    var c := ChangesOf(PortKeys(old_), PortKeys(new_));
    c.changed + if TopologyChanged(old_, new_) then StackPorts(new_) - c.added else {}
  }

  function OwnSame(old_: Dp, new_: Dp): (r: set<Port>) {
    ChangesOf(PortKeys(old_), PortKeys(new_)).same - OwnChanged(old_, new_)
  }

  predicate AllChanged(old_: Dp, new_: Dp) {
    OwnSame(old_, new_) == {} || OwnChanged(old_, new_) == new_.ports.Keys
  }

  function MirrorChanged(old_: Dp, new_: Dp): (r: set<Port>) {
    set p | p in OwnSame(old_, new_) && old_.ports[p].mirror != new_.ports[p].mirror
  }

  function AclOnlyChanged(old_: Dp, new_: Dp, changedAcls: set<AclId>): (r: set<Port>) {
    set p | p in OwnSame(old_, new_) &&
            AclRefChanges(old_.ports[p].aclsIn, new_.ports[p].aclsIn, changedAcls)
  }

  function PortChangesOf(old_: Dp, new_: Dp, v: VlanChanges, changedAcls: set<AclId>): (r: PortChanges) {
    var c := ChangesOf(PortKeys(old_), PortKeys(new_));
    if AllChanged(old_, new_) then
      PortChanges(true, c.deleted, OwnChanged(old_, new_), c.added, {}, v.changed - v.added - v.deleted)
    else
      var touched := OwnChanged(old_, new_) + MembersOfAny(new_, v.aclChanged);
      PortChanges(
        false, c.deleted,
        touched + MirrorChanged(old_, new_) + MembersOfAny(new_, v.added + v.changed),
        c.added, AclOnlyChanged(old_, new_, changedAcls),
        v.changed + MovedByAny(old_, new_, touched) + OfAnyPort(old_, c.deleted) + OfAnyPort(new_, c.added)
          - v.added - v.deleted)
  }

  method CompareSamePorts(old_: Dp, new_: Dp, samePorts: set<Port>, changedAcls: set<AclId>)
    returns (mirrorChanged: set<Port>, aclChanged: set<Port>)
    requires samePorts == OwnSame(old_, new_)
    ensures mirrorChanged == MirrorChanged(old_, new_) && aclChanged == AclOnlyChanged(old_, new_, changedAcls)
  {
    mirrorChanged, aclChanged := {}, {};
    var todo := samePorts;
    while todo != {}
      invariant todo <= samePorts
      invariant mirrorChanged == MirrorChanged(old_, new_) - todo
      invariant aclChanged == AclOnlyChanged(old_, new_, changedAcls) - todo
      decreases todo
    {
      var p :| p in todo;
      if old_.ports[p].mirror != new_.ports[p].mirror {
        mirrorChanged := mirrorChanged + {p};
      }
      if AclRefChanges(old_.ports[p].aclsIn, new_.ports[p].aclsIn, changedAcls) {
        aclChanged := aclChanged + {p};
      }
      todo := todo - {p};
    }
  }

  method GetPortConfigChanges(old_: Dp, new_: Dp, v: VlanChanges, changedAcls: set<AclId>)
    returns (r: Result<PortChanges>)
    ensures r == if old_.stack.Some? && new_.stack.None? then Raised else Ok(PortChangesOf(old_, new_, v, changedAcls))
  {
    var c := GetConfChanges(PortKeys(old_), PortKeys(new_));
    var changedPorts, samePorts := c.changed, c.same;
    if old_.stack.Some? {
      if new_.stack.None? {
        return Raised;
      }
      if old_.stack.value != new_.stack.value {
        changedPorts := changedPorts + (StackPorts(new_) - c.deleted - c.added);
        samePorts := samePorts - changedPorts;
      }
    }
    assert changedPorts == OwnChanged(old_, new_) && samePorts == OwnSame(old_, new_);
    var changedVlans := v.changed;
    if samePorts == {} || changedPorts == new_.ports.Keys {
      return Ok(PortChanges(true, c.deleted, changedPorts, c.added, {}, changedVlans - v.added - v.deleted));
    }
    var changedVlanPorts := PortsOfVlans(new_, v.added + v.changed);
    var aclVlanPorts := PortsOfVlans(new_, v.aclChanged);
    changedPorts := changedPorts + aclVlanPorts;
    var moved := VlansMoved(old_, new_, changedPorts);
    var gone := VlansOfPorts(old_, c.deleted);
    var come := VlansOfPorts(new_, c.added);
    changedVlans := changedVlans + moved + gone + come;
    var mirrorChanged, aclChanged := CompareSamePorts(old_, new_, samePorts, changedAcls);
    changedPorts := changedPorts + mirrorChanged + changedVlanPorts;
    return Ok(PortChanges(false, c.deleted, changedPorts, c.added, aclChanged, changedVlans - v.added - v.deleted));
  }

  // ---------------------------------------------------------------------------------------------
  // The whole diff
  // ---------------------------------------------------------------------------------------------

  datatype MeterChanges = MeterChanges(all: bool, deleted: set<MeterId>, added: set<MeterId>, changed: set<MeterId>)

  /** all only says that some meter changed. */
  function MeterChangesOf(old_: Dp, new_: Dp): (r: MeterChanges) {
    var c := ChangesOf(MeterKeys(old_), MeterKeys(new_));
    MeterChanges(c.deleted + c.added + c.changed != {}, c.deleted, c.added, c.changed)
  }

  method GetMeterConfigChanges(old_: Dp, new_: Dp) returns (r: MeterChanges)
    ensures r == MeterChangesOf(old_, new_)
  {
    var c := GetConfChanges(MeterKeys(old_), MeterKeys(new_));
    return MeterChanges(c.deleted + c.added + c.changed != {}, c.deleted, c.added, c.changed);
  }

  datatype Diff = Diff(
    ports: PortChanges, addedVlans: set<Vid>, deletedVlans: set<Vid>, aclVlans: set<Vid>, meters: MeterChanges)

  predicate ColdStart(old_: Dp, new_: Dp) {
    || (new_.stack.Some? && old_.stack.Some? && new_.stack.value.root != old_.stack.value.root)
    || new_.routers != old_.routers || old_.own != new_.own
  }

  const NOTHING := PortChanges(true, {}, {}, {}, {}, {})
  const NO_METERS := MeterChanges(true, {}, {}, {})

  /** The diff where it does not raise. */
  function DiffOf(old_: Dp, new_: Dp): (r: Diff) {
    if ColdStart(old_, new_) then Diff(NOTHING, {}, {}, {}, NO_METERS)
    else
      var acls := ChangedAcls(old_, new_);
      var v := VlanChangesOf(old_, new_, acls);
      Diff(PortChangesOf(old_, new_, v, acls), v.added, v.deleted, v.aclChanged, MeterChangesOf(old_, new_))
  }

  /** A warm restart that takes the last stack port away raises: there is no stack left to compare with. */
  method GetConfigChanges(old_: Dp, new_: Dp) returns (r: Result<Diff>)
    ensures r.Raised? <==> !ColdStart(old_, new_) && old_.stack.Some? && new_.stack.None?
    ensures r.Ok? ==> r.value == DiffOf(old_, new_)
  {
    if ColdStart(old_, new_) {
      return Ok(Diff(NOTHING, {}, {}, {}, NO_METERS));
    }
    var a := GetConfChanges(AclKeys(old_), AclKeys(new_));
    var acls := a.added + a.changed;
    var v := GetVlanConfigChanges(old_, new_, acls);
    var m := GetMeterConfigChanges(old_, new_);
    var p := GetPortConfigChanges(old_, new_, v, acls);
    if p.Raised? {
      return Raised;
    }
    return Ok(Diff(p.value, v.added, v.deleted, v.aclChanged, m));
  }

  // ---------------------------------------------------------------------------------------------
  // What the diff covers
  // ---------------------------------------------------------------------------------------------

  /** A configuration that passed its checks: references resolve, and VLAN names are unique. */
  ghost predicate Resolved(dp: Dp) {
    && (forall v, w | v in dp.vlans && w in dp.vlans && dp.vlans[v].name == dp.vlans[w].name :: v == w)
    && (forall p, r | p in dp.ports && r in dp.ports[p].vlans ::
          match r
          case ByVid(vid) => vid in dp.vlans
          case ByName(name) => exists v | v in dp.vlans :: dp.vlans[v].name == name)
    && (forall p, a | p in dp.ports && a in dp.ports[p].aclsIn :: a in dp.acls)
    && (forall v, a | v in dp.vlans && a in dp.vlans[v].aclsIn :: a in dp.acls)
  }

  predicate AclUnchanged(old_: Dp, new_: Dp, a: AclId) {
    a in old_.acls && a in new_.acls && old_.acls[a].own == new_.acls[a].own
  }

  predicate SameAcls(old_: Dp, new_: Dp, oldAcls: seq<AclId>, newAcls: seq<AclId>) {
    oldAcls == newAcls && forall a | a in newAcls :: AclUnchanged(old_, new_, a)
  }

  /** The VLAN is as it was: own configuration and, with their contents, its ingress ACLs. */
  predicate SameVlan(old_: Dp, new_: Dp, v: Vid) {
    && v in old_.vlans && v in new_.vlans
    && KeyOfVlan(old_.vlans[v]).key == KeyOfVlan(new_.vlans[v]).key
    && SameAcls(old_, new_, old_.vlans[v].aclsIn, new_.vlans[v].aclsIn)
  }

  lemma UnchangedAcls(old_: Dp, new_: Dp, oldAcls: seq<AclId>, newAcls: seq<AclId>)
    requires !AclRefChanges(oldAcls, newAcls, ChangedAcls(old_, new_)) && forall a | a in newAcls :: a in new_.acls
    ensures SameAcls(old_, new_, oldAcls, newAcls)
  {
    forall a | a in newAcls ensures AclUnchanged(old_, new_, a) {
      assert a !in ChangedAcls(old_, new_);
      assert a in AclKeys(new_);
      assert a in AclKeys(old_);
    }
  }

  lemma UnreportedVlan(old_: Dp, new_: Dp, v: Vid)
    requires Resolved(new_) && v in new_.vlans
    requires
      var c := VlanChangesOf(old_, new_, ChangedAcls(old_, new_));
      v !in c.added && v !in c.changed && v !in c.aclChanged
    ensures SameVlan(old_, new_, v)
  {
    assert v in VlanKeys(new_);
    assert v in VlanKeys(old_);
    UnchangedAcls(old_, new_, old_.vlans[v].aclsIn, new_.vlans[v].aclsIn);
  }

  lemma UnreportedPort(old_: Dp, new_: Dp, p: Port)
    requires !DiffOf(old_, new_).ports.all && p in old_.ports && p in new_.ports
    requires p !in DiffOf(old_, new_).ports.changed && p !in DiffOf(old_, new_).ports.aclChanged
    ensures
      var acls := ChangedAcls(old_, new_);
      var v := VlanChangesOf(old_, new_, acls);
      && !ColdStart(old_, new_)
      && p in OwnSame(old_, new_) && p !in MirrorChanged(old_, new_) && p !in AclOnlyChanged(old_, new_, acls)
      && p !in MembersOfAny(new_, v.added + v.changed) && p !in MembersOfAny(new_, v.aclChanged)
  {
    assert p in PortKeys(old_) && p in PortKeys(new_);
  }

  /**
   Coverage: when not all ports are reported, an existing port that is not reported has the same own
   configuration up to its description, mirrors to the same ports, has the same ACLs with the same
   contents, and is in the same VLANs, none of which changed.
   */
  lemma UnreportedPortIsUntouched(old_: Dp, new_: Dp, p: Port)
    requires Resolved(old_) && Resolved(new_)
    requires !DiffOf(old_, new_).ports.all && p in old_.ports && p in new_.ports
    requires p !in DiffOf(old_, new_).ports.changed && p !in DiffOf(old_, new_).ports.aclChanged
    ensures KeyOfPort(old_.ports[p]).key == KeyOfPort(new_.ports[p]).key
    ensures old_.ports[p].mirror == new_.ports[p].mirror
    ensures SameAcls(old_, new_, old_.ports[p].aclsIn, new_.ports[p].aclsIn)
    ensures Vids(old_, p) == Vids(new_, p)
    ensures forall v | v in Vids(new_, p) :: SameVlan(old_, new_, v)
  {
    var acls := ChangedAcls(old_, new_);
    var c := VlanChangesOf(old_, new_, acls);
    UnreportedPort(old_, new_, p);
    assert PortKeys(old_)[p].key == PortKeys(new_)[p].key;
    UnchangedAcls(old_, new_, old_.ports[p].aclsIn, new_.ports[p].aclsIn);
    forall v | v in Vids(new_, p) ensures SameVlan(old_, new_, v) {
      assert p in Members(new_, v);
      assert v !in c.added + c.changed && v !in c.aclChanged;
      UnreportedVlan(old_, new_, v);
    }
    SameVlansThroughout(old_, new_, p);
  }

  lemma SameVlansThroughout(old_: Dp, new_: Dp, p: Port)
    requires Resolved(old_) && Resolved(new_) && p in old_.ports && p in new_.ports
    requires old_.ports[p].vlans == new_.ports[p].vlans
    requires forall v | v in Vids(new_, p) :: SameVlan(old_, new_, v)
    ensures Vids(old_, p) == Vids(new_, p)
  {
    forall v | v in Vids(new_, p) ensures v in Vids(old_, p) {
      assert SameVlan(old_, new_, v);
    }
    forall v | v in Vids(old_, p) ensures v in Vids(new_, p) {
      if ByVid(v) !in old_.ports[p].vlans {
        var name := old_.vlans[v].name;
        assert ByName(name) in new_.ports[p].vlans;
        var w :| w in new_.vlans && new_.vlans[w].name == name;
        assert w in Vids(new_, p);
        assert SameVlan(old_, new_, w);
      }
    }
  }

  /** A port of unchanged own configuration leaves or joins only VLANs that are themselves reported. */
  lemma SameRefsMoveWithVlans(old_: Dp, new_: Dp, p: Port, v: Vid)
    requires p in old_.ports && p in new_.ports && old_.ports[p].vlans == new_.ports[p].vlans
    requires v in old_.vlans && v in new_.vlans && old_.vlans[v].name == new_.vlans[v].name
    ensures v in Vids(old_, p) <==> v in Vids(new_, p)
  {
  }

  /** The VLAN of a port that leaves or joins it is touched by that port. */
  lemma MovingPortTouches(old_: Dp, new_: Dp, v: Vid, p: Port)
    requires v in old_.vlans && v in new_.vlans && old_.vlans[v].name == new_.vlans[v].name
    requires p in Members(old_, v) <==> p !in Members(new_, v)
    ensures
      var pc := ChangesOf(PortKeys(old_), PortKeys(new_));
      || (p in pc.deleted && v in VlansOfPort(old_, p)) || (p in pc.added && v in VlansOfPort(new_, p))
      || (p in pc.changed && v in VlansMovedBy(old_, new_, p))
  {
    assert p in PortKeys(old_) <==> p in old_.ports;
    assert p in PortKeys(new_) <==> p in new_.ports;
    if p in old_.ports && p in new_.ports && PortKeys(old_)[p].key == PortKeys(new_)[p].key {
      SameRefsMoveWithVlans(old_, new_, p, v);
    }
  }

  /** A VLAN whose port membership differs is always reported as added, deleted or changed. */
  lemma MembershipChangesAreReported(old_: Dp, new_: Dp, v: Vid)
    requires !DiffOf(old_, new_).ports.all && (v in old_.vlans || v in new_.vlans)
    requires Members(old_, v) != Members(new_, v)
    ensures
      var d := DiffOf(old_, new_);
      v in d.addedVlans || v in d.deletedVlans || v in d.ports.changedVlans
  {
    var c := VlanChangesOf(old_, new_, ChangedAcls(old_, new_));
    assert v in VlanKeys(old_) <==> v in old_.vlans;
    assert v in VlanKeys(new_) <==> v in new_.vlans;
    if v in old_.vlans && v in new_.vlans && v !in c.changed {
      assert VlanKeys(old_)[v].key == VlanKeys(new_)[v].key;
      var p :| p in Members(old_, v) <==> p !in Members(new_, v);
      MovingPortTouches(old_, new_, v, p);
      var touched := OwnChanged(old_, new_) + MembersOfAny(new_, c.aclChanged);
      assert p in touched && v in VlansMovedBy(old_, new_, p) ==> v in MovedByAny(old_, new_, touched);
    }
  }

  /** The three VLAN reports never overlap. */
  lemma VlanReportsAreDisjoint(old_: Dp, new_: Dp)
    ensures
      var d := DiffOf(old_, new_);
      d.addedVlans !! d.deletedVlans && d.addedVlans !! d.ports.changedVlans && d.deletedVlans !! d.ports.changedVlans
  {
  }

  const NO_CHANGE := Diff(PortChanges(false, {}, {}, {}, {}, {}), {}, {}, {}, MeterChanges(false, {}, {}, {}))

  /** Nothing found anywhere means nothing reported. */
  lemma QuietDiff(old_: Dp, new_: Dp)
    requires !ColdStart(old_, new_) && !AllChanged(old_, new_) && OwnChanged(old_, new_) == {}
    requires ChangesOf(PortKeys(old_), PortKeys(new_)).deleted == {} == ChangesOf(PortKeys(old_), PortKeys(new_)).added
    requires VlanChangesOf(old_, new_, ChangedAcls(old_, new_)) == VlanChanges({}, {}, {}, {})
    requires MirrorChanged(old_, new_) == {} && AclOnlyChanged(old_, new_, ChangedAcls(old_, new_)) == {}
    requires old_.meters == new_.meters
    ensures DiffOf(old_, new_) == NO_CHANGE
  {
    QuietPorts(old_, new_, ChangedAcls(old_, new_));
    QuietMeters(old_, new_);
  }

  lemma QuietPorts(old_: Dp, new_: Dp, changedAcls: set<AclId>)
    requires !AllChanged(old_, new_) && OwnChanged(old_, new_) == {}
    requires ChangesOf(PortKeys(old_), PortKeys(new_)).deleted == {} == ChangesOf(PortKeys(old_), PortKeys(new_)).added
    requires MirrorChanged(old_, new_) == {} && AclOnlyChanged(old_, new_, changedAcls) == {}
    ensures PortChangesOf(old_, new_, VlanChanges({}, {}, {}, {}), changedAcls) ==
            PortChanges(false, {}, {}, {}, {}, {})
  {
    assert MembersOfAny(new_, {}) == {} && MovedByAny(old_, new_, {}) == {};
    assert OfAnyPort(old_, {}) == {} && OfAnyPort(new_, {}) == {};
  }

  lemma QuietMeters(old_: Dp, new_: Dp)
    requires old_.meters == new_.meters
    ensures MeterChangesOf(old_, new_) == MeterChanges(false, {}, {}, {})
  {
    assert MeterKeys(old_) == MeterKeys(new_);
  }

  lemma SelfParts(dp: Dp)
    ensures ChangesOf(PortKeys(dp), PortKeys(dp)) == Changes({}, {}, {}, dp.ports.Keys, {})
    ensures ChangedAcls(dp, dp) == {}
    ensures VlanChangesOf(dp, dp, {}) == VlanChanges({}, {}, {}, {})
    ensures MirrorChanged(dp, dp) == {} && AclOnlyChanged(dp, dp, {}) == {}
    ensures OwnChanged(dp, dp) == {} && OwnSame(dp, dp) == dp.ports.Keys
  {
  }

  /** Compared with itself a configuration reports nothing at all exactly when it has a port. */
  lemma SelfDiffIsEmptyIff(dp: Dp)
    ensures DiffOf(dp, dp) == NO_CHANGE <==> dp.ports != map[]
  {
    SelfParts(dp);
    if dp.ports != map[] {
      var p :| p in dp.ports;
      assert p in dp.ports.Keys;
      QuietDiff(dp, dp);
    } else {
      assert AllChanged(dp, dp);
      assert DiffOf(dp, dp).ports.all;
    }
  }

  predicate IngressAcl(dp: Dp, a: AclId) {
    (exists p | p in dp.ports :: a in dp.ports[p].aclsIn) || (exists v | v in dp.vlans :: a in dp.vlans[v].aclsIn)
  }

  function Edited(dp: Dp, a: AclId, edited: Acl): (r: Dp) {
    dp.(acls := dp.acls[a := edited])
  }

  lemma OnlyThatAclChanged(dp: Dp, a: AclId, edited: Acl)
    requires a in dp.acls && dp.acls[a].own != edited.own
    ensures ChangedAcls(dp, Edited(dp, a, edited)) == {a}
  {
    var old_, new_ := AclKeys(dp), AclKeys(Edited(dp, a, edited));
    assert old_.Keys == new_.Keys && old_[a].key != new_[a].key;
    assert forall b | b in old_ && b != a :: old_[b] == new_[b];
  }

  lemma EditParts(dp: Dp, a: AclId, edited: Acl, acls: set<AclId>)
    ensures
      var new_ := Edited(dp, a, edited);
      var v := VlanChangesOf(dp, new_, acls);
      && ChangesOf(PortKeys(dp), PortKeys(new_)) == Changes({}, {}, {}, dp.ports.Keys, {})
      && OwnChanged(dp, new_) == {} && OwnSame(dp, new_) == dp.ports.Keys && MirrorChanged(dp, new_) == {}
      && v.added == {} && v.deleted == {} && v.changed == {}
      && (forall p :: p in AclOnlyChanged(dp, new_, acls) <==>
            p in dp.ports && exists b | b in dp.ports[p].aclsIn :: b in acls)
      && (forall w :: w in v.aclChanged <==> w in dp.vlans && exists b | b in dp.vlans[w].aclsIn :: b in acls)
  {
    var new_ := Edited(dp, a, edited);
    assert PortKeys(new_) == PortKeys(dp) && VlanKeys(new_) == VlanKeys(dp);
    SelfParts(dp);
    assert VlanKeys(dp).Keys == dp.vlans.Keys;
  }

  /**
   An edit of an ACL's contents is reported exactly when some port or VLAN uses it as an ingress ACL:
   edits of egress ACLs (and of ACLs of the whole switch) go unnoticed.
   */
  lemma AclEditNoticedIff(dp: Dp, a: AclId, edited: Acl)
    requires a in dp.acls && dp.acls[a].own != edited.own && dp.ports != map[]
    ensures DiffOf(dp, Edited(dp, a, edited)) == NO_CHANGE <==> !IngressAcl(dp, a)
  {
    EditIsNoUpheaval(dp, a, edited);
    if IngressAcl(dp, a) {
      IngressEditIsNoticed(dp, a, edited);
    } else {
      OtherEditIsQuiet(dp, a, edited);
    }
  }

  lemma EditIsNoUpheaval(dp: Dp, a: AclId, edited: Acl)
    requires a in dp.acls && dp.ports != map[]
    ensures !AllChanged(dp, Edited(dp, a, edited)) && !ColdStart(dp, Edited(dp, a, edited))
  {
    EditParts(dp, a, edited, {});
    var p :| p in dp.ports;
    assert p in dp.ports.Keys;
  }

  lemma OtherEditIsQuiet(dp: Dp, a: AclId, edited: Acl)
    requires a in dp.acls && dp.acls[a].own != edited.own && !IngressAcl(dp, a)
    requires !AllChanged(dp, Edited(dp, a, edited)) && !ColdStart(dp, Edited(dp, a, edited))
    ensures DiffOf(dp, Edited(dp, a, edited)) == NO_CHANGE
  {
    var new_ := Edited(dp, a, edited);
    OnlyThatAclChanged(dp, a, edited);
    EditParts(dp, a, edited, {a});
    assert VlanChangesOf(dp, new_, {a}).aclChanged == {} && AclOnlyChanged(dp, new_, {a}) == {};
    QuietDiff(dp, new_);
  }

  lemma IngressEditIsNoticed(dp: Dp, a: AclId, edited: Acl)
    requires a in dp.acls && dp.acls[a].own != edited.own && IngressAcl(dp, a)
    requires !AllChanged(dp, Edited(dp, a, edited))
    ensures DiffOf(dp, Edited(dp, a, edited)) != NO_CHANGE
  {
    var new_ := Edited(dp, a, edited);
    OnlyThatAclChanged(dp, a, edited);
    EditParts(dp, a, edited, {a});
    var d := DiffOf(dp, new_);
    if q :| q in dp.ports && a in dp.ports[q].aclsIn {
      assert q in d.ports.aclChanged;
    } else {
      var w :| w in dp.vlans && a in dp.vlans[w].aclsIn;
      assert w in d.aclVlans;
    }
  }
}
