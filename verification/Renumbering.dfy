/** Table IDs of the switch's own pipeline: the included tables are numbered densely, and every goto goes up. */
module Renumbering {
  import opened Packets

  datatype TableName =
    | PortAcl | Vlan | Copro | VlanAcl | Classification | EthSrcTable | Ipv4Fib | Ipv6Fib | Vip
    | EthDstHairpin | EthDstTable | EgressAcl | Egress | Flood

  datatype TableConfig = TableConfig(
    name: TableName, tableId: TableId, missGoto: Option<TableName>, nextTables: seq<TableName>)

  const NEXT_ETH := [EthDstHairpin, EthDstTable, Flood]
  const NEXT_VIP := [Vip] + NEXT_ETH

  const FAUCET_PIPELINE: seq<TableConfig> := [
    TableConfig(PortAcl, 0, None, [Vlan] + NEXT_VIP),
    TableConfig(Vlan, 1, None, [Copro, VlanAcl, Classification, EthSrcTable]),
    TableConfig(Copro, 2, Some(EthDstTable), [EthDstTable]),
    TableConfig(VlanAcl, 2, None, [Classification, EthSrcTable] + NEXT_ETH),
    TableConfig(Classification, 3, Some(EthSrcTable), [EthSrcTable, Ipv4Fib, Ipv6Fib] + NEXT_VIP),
    TableConfig(EthSrcTable, 4, Some(EthDstTable), [Ipv4Fib, Ipv6Fib] + NEXT_VIP),
    TableConfig(Ipv4Fib, 5, None, NEXT_VIP),
    TableConfig(Ipv6Fib, 6, None, NEXT_VIP),
    TableConfig(Vip, 7, None, NEXT_ETH),
    TableConfig(EthDstHairpin, 8, Some(EthDstTable), []),
    TableConfig(EthDstTable, 9, Some(Flood), [Egress, EgressAcl]),
    TableConfig(EgressAcl, 10, None, [Egress]),
    TableConfig(Egress, 11, Some(Flood), [Flood]),
    TableConfig(Flood, 12, None, [])
  ]

  const MINIMUM_TABLES: set<TableName> := {Vlan, EthSrcTable, EthDstTable, Flood}

  // ---------------------------------------------------------------------------------------------
  // Pipelines whose gotos go up
  // ---------------------------------------------------------------------------------------------

  predicate DistinctNames(p: seq<TableConfig>) {
    forall i, j | 0 <= i < j < |p| :: p[i].name != p[j].name
  }

  /** The index of the table of that name, or the length of the list when there is none. */
  function Position(p: seq<TableConfig>, name: TableName): (i: nat)
    ensures i <= |p| && (i < |p| ==> p[i].name == name)
  {
    if p == [] || p[0].name == name then 0 else 1 + Position(p[1..], name)
  }

  predicate Before(p: seq<TableConfig>, a: TableName, b: TableName) {
    Position(p, a) < Position(p, b) < |p|
  }

  /** A table's possible targets; the miss target of eth_dst may be moved to the egress ACL table. */
  predicate Target(c: TableConfig, n: TableName) {
    n in c.nextTables || c.missGoto == Some(n) || (c.name == EthDstTable && n == EgressAcl)
  }

  /** Every target is a later table of the list. */
  predicate Forward(p: seq<TableConfig>) {
    forall c, n | c in p && Target(c, n) :: Before(p, c.name, n)
  }

  /** The listed static IDs rise along the gotos. */
  predicate IdsRise(p: seq<TableConfig>) {
    forall c, d | c in p && d in p && Target(c, d.name) :: c.tableId < d.tableId
  }

  /** The included tables hold every miss target among them. */
  predicate MissTargetsIncluded(p: seq<TableConfig>, included: set<TableName>) {
    forall c | c in p && c.name in included && c.missGoto.Some? :: c.missGoto.value in included
  }

  function Canonical(p: seq<TableConfig>, included: set<TableName>): (r: seq<TableConfig>) {
    if p == [] then []
    else if p[0].name in included then [p[0]] + Canonical(p[1..], included)
    else Canonical(p[1..], included)
  }

  lemma CanonicalMembers(p: seq<TableConfig>, included: set<TableName>)
    ensures forall c :: c in Canonical(p, included) <==> c in p && c.name in included
  {
  }

  lemma PositionCons(c: TableConfig, p: seq<TableConfig>, n: TableName)
    ensures Position([c] + p, n) == if c.name == n then 0 else 1 + Position(p, n)
  {
    assert ([c] + p)[1..] == p;
  }

  /** Leaving tables out never changes which of two others comes first. */
  lemma {:induction false} OrderSurvives(p: seq<TableConfig>, included: set<TableName>, a: TableName, b: TableName)
    requires Before(p, a, b) && a in included && b in included
    ensures Before(Canonical(p, included), a, b)
  {
    var rest := Canonical(p[1..], included);
    if p[0].name == a {
      PositionCons(p[0], rest, a);
      PositionCons(p[0], rest, b);
      StillPresent(p[1..], included, b);
    } else {
      OrderSurvives(p[1..], included, a, b);
      PositionCons(p[0], rest, a);
      PositionCons(p[0], rest, b);
    }
  }

  lemma {:induction false} StillPresent(p: seq<TableConfig>, included: set<TableName>, n: TableName)
    requires Position(p, n) < |p| && n in included
    ensures Position(Canonical(p, included), n) < |Canonical(p, included)|
  {
    PositionCons(p[0], Canonical(p[1..], included), n);
    if p[0].name != n {
      StillPresent(p[1..], included, n);
    }
  }

  lemma {:induction false} PositionIs(p: seq<TableConfig>, i: nat)
    requires i < |p| && DistinctNames(p)
    ensures Position(p, p[i].name) == i
  {
    if i > 0 {
      assert p[0].name != p[i].name;
      assert p[1..][i - 1] == p[i];
      PositionIs(p[1..], i - 1);
    }
  }

  lemma {:induction false} CanonicalDistinct(p: seq<TableConfig>, included: set<TableName>)
    requires DistinctNames(p)
    ensures DistinctNames(Canonical(p, included))
  {
    if p != [] {
      CanonicalDistinct(p[1..], included);
      CanonicalMembers(p[1..], included);
      var rest := Canonical(p[1..], included);
      forall c | c in p[1..] ensures c.name != p[0].name {
        var j :| 0 <= j < |p[1..]| && p[1..][j] == c;
        assert p[j + 1] == c;
      }
      assert forall j | 0 <= j < |rest| :: rest[j] in rest;
    }
  }

  // ---------------------------------------------------------------------------------------------
  // Configuring
  // ---------------------------------------------------------------------------------------------

  type Tables = map<TableName, TableConfig>

  /** ACL tables replace the canonical ones, with its ID and next tables but no miss target. */
  predicate AclTablesDerived(p: seq<TableConfig>, acl: Tables, included: set<TableName>) {
    acl.Keys <= included &&
    forall c | c in p && c.name in acl :: acl[c.name] == TableConfig(c.name, c.tableId, None, c.nextTables)
  }

  function Only(names: seq<TableName>, kept: set<TableName>): (r: seq<TableName>)
    ensures forall n :: n in r <==> n in names && n in kept
  {
    if names == [] then []
    else if names[0] in kept then [names[0]] + Only(names[1..], kept)
    else Only(names[1..], kept)
  }

  /** Every remaining next table and every miss target is configured, with a greater ID. */
  predicate GotosGoUp(tables: Tables) {
    forall n, m | n in tables && (m in tables[n].nextTables || tables[n].missGoto == Some(m)) ::
      m in tables && tables[m].tableId > tables[n].tableId
  }

  function AssignedId(list: seq<TableConfig>, c: TableConfig, static_: bool): (r: TableId) {
    if static_ then c.tableId else Position(list, c.name)
  }

  /** The table configured for c, before next tables that are not included are dropped. */
  predicate ConfiguredAs(
      list: seq<TableConfig>, included: set<TableName>, static_: bool, c: TableConfig, r: TableConfig) {
    && r.name == c.name && r.tableId == AssignedId(list, c, static_) && r.nextTables == c.nextTables
    && (r.missGoto == None || r.missGoto == c.missGoto ||
        (c.name == EthDstTable && r.missGoto == Some(EgressAcl) && EgressAcl in included))
  }

  predicate AllConfigured(list: seq<TableConfig>, included: set<TableName>, static_: bool, upto: nat, tables: Tables)
    requires upto <= |list|
  {
    && (forall n | n in tables :: exists i | 0 <= i < upto :: list[i].name == n)
    && forall i | 0 <= i < upto ::
         list[i].name in tables && ConfiguredAs(list, included, static_, list[i], tables[list[i].name])
  }

  lemma KeptConfig(list: seq<TableConfig>, included: set<TableName>, static_: bool, i: nat, tables: Tables, j: nat)
    requires j < i <= |list| && AllConfigured(list, included, static_, i, tables)
    ensures list[j].name in tables && ConfiguredAs(list, included, static_, list[j], tables[list[j].name])
  {
  }

  lemma NumberedOneMore(
    list: seq<TableConfig>, included: set<TableName>, static_: bool, i: nat, tables: Tables, config: TableConfig)
    requires DistinctNames(list) && i < |list| && AllConfigured(list, included, static_, i, tables)
    requires ConfiguredAs(list, included, static_, list[i], config)
    ensures AllConfigured(list, included, static_, i + 1, tables[list[i].name := config])
  {
    var r := tables[list[i].name := config];
    forall n | n in r ensures exists j | 0 <= j < i + 1 :: list[j].name == n {
      if n != list[i].name {
        var j :| 0 <= j < i && list[j].name == n;
      }
    }
    forall j | 0 <= j < i + 1
      ensures list[j].name in r && ConfiguredAs(list, included, static_, list[j], r[list[j].name])
    {
      if j != i {
        KeptConfig(list, included, static_, i, tables, j);
        assert list[j].name != list[i].name;
      }
    }
  }

  /** ACL tables have no miss target, the others the listed one. */
  predicate MissAsListed(list: seq<TableConfig>, acl: Tables, upto: nat, tables: Tables)
    requires upto <= |list|
  {
    forall i | 0 <= i < upto ::
      list[i].name in tables &&
      tables[list[i].name].missGoto == if list[i].name in acl then None else list[i].missGoto
  }

  lemma MissOneMore(list: seq<TableConfig>, acl: Tables, i: nat, tables: Tables, config: TableConfig)
    requires DistinctNames(list) && i < |list| && MissAsListed(list, acl, i, tables)
    requires config.missGoto == if list[i].name in acl then None else list[i].missGoto
    ensures MissAsListed(list, acl, i + 1, tables[list[i].name := config])
  {
    var r := tables[list[i].name := config];
    forall j | 0 <= j < i + 1
      ensures list[j].name in r &&
              r[list[j].name].missGoto == if list[j].name in acl then None else list[j].missGoto
    {
      if j != i {
        assert list[j].name != list[i].name;
      }
    }
  }

  method NumberTables(
      list: seq<TableConfig>, included: set<TableName>, acl: Tables, static_: bool) returns (tables: Tables)
    requires DistinctNames(list) && AclTablesDerived(list, acl, included)
    ensures AllConfigured(list, included, static_, |list|, tables)
    ensures MissAsListed(list, acl, |list|, tables)
  {
    tables := map[];
    var i := 0;
    while i < |list|
      invariant i <= |list| && AllConfigured(list, included, static_, i, tables)
      invariant MissAsListed(list, acl, i, tables)
    {
      var canonical := list[i];
      assert canonical in list;
      PositionIs(list, i);
      var config := if canonical.name in acl then acl[canonical.name] else canonical;
      if !static_ {
        config := config.(tableId := i);
      }
      NumberedOneMore(list, included, static_, i, tables, config);
      MissOneMore(list, acl, i, tables, config);
      tables := tables[canonical.name := config];
      i := i + 1;
    }
  }

  lemma ConfiguredGoUp(
      p: seq<TableConfig>, included: set<TableName>, static_: bool, tables: Tables, n: TableName, m: TableName)
    requires DistinctNames(p) && Forward(p) && MissTargetsIncluded(p, included) && (static_ ==> IdsRise(p))
    requires AllConfigured(Canonical(p, included), included, static_, |Canonical(p, included)|, tables)
    requires n in tables && ((m in tables[n].nextTables && m in tables) || tables[n].missGoto == Some(m))
    ensures m in tables && tables[m].tableId > tables[n].tableId
  {
    var list := Canonical(p, included);
    var c := ConfiguredTarget(p, included, static_, tables, n, m);
    CanonicalMembers(p, included);
    OrderSurvives(p, included, n, m);
    var k := Position(list, m);
    KeptConfig(list, included, static_, |list|, tables, k);
    assert list[k] in list && list[k] in p && list[k].name == m;
  }

  /** The pipeline's description of a configured table, which names its target. */
  lemma ConfiguredTarget(
      p: seq<TableConfig>, included: set<TableName>, static_: bool, tables: Tables, n: TableName, m: TableName)
    returns (c: TableConfig)
    requires Forward(p) && MissTargetsIncluded(p, included)
    requires AllConfigured(Canonical(p, included), included, static_, |Canonical(p, included)|, tables)
    requires n in tables && ((m in tables[n].nextTables && m in tables) || tables[n].missGoto == Some(m))
    ensures c in p && c.name == n && n in included && m in included && Target(c, m) && Before(p, n, m)
    ensures ConfiguredAs(Canonical(p, included), included, static_, c, tables[n])
  {
    var list := Canonical(p, included);
    CanonicalMembers(p, included);
    if m in tables {
      ConfiguredIncluded(p, included, static_, tables, m);
    }
    var i :| 0 <= i < |list| && list[i].name == n;
    KeptConfig(list, included, static_, |list|, tables, i);
    c := list[i];
    assert c in list;
  }

  lemma ConfiguredIncluded(p: seq<TableConfig>, included: set<TableName>, static_: bool, tables: Tables, n: TableName)
    requires AllConfigured(Canonical(p, included), included, static_, |Canonical(p, included)|, tables) && n in tables
    ensures n in included
  {
    var list := Canonical(p, included);
    CanonicalMembers(p, included);
    var i :| 0 <= i < |list| && list[i].name == n;
    assert list[i] in list;
  }

  /** Next tables that are not configured are dropped. */
  function Trimmed(tables: Tables): (r: Tables)
    ensures r.Keys == tables.Keys
  {
    map n | n in tables :: tables[n].(nextTables := Only(tables[n].nextTables, tables.Keys))
  }

  lemma AclOfIncluded(p: seq<TableConfig>, included: set<TableName>, acl: Tables)
    requires AclTablesDerived(p, acl, included)
    ensures AclTablesDerived(Canonical(p, included), acl, included)
  {
    CanonicalMembers(p, included);
  }

  lemma ConfiguredNames(p: seq<TableConfig>, included: set<TableName>, static_: bool, tables: Tables)
    requires AllConfigured(Canonical(p, included), included, static_, |Canonical(p, included)|, tables)
    ensures forall n :: n in tables <==> exists c | c in p :: c.name == n && n in included
    ensures forall c | c in p && c.name in included ::
              c.name in tables && tables[c.name].tableId == AssignedId(Canonical(p, included), c, static_) &&
              tables[c.name].nextTables == c.nextTables
  {
    var list := Canonical(p, included);
    CanonicalMembers(p, included);
    forall c | c in p && c.name in included
      ensures c.name in tables && ConfiguredAs(list, included, static_, c, tables[c.name])
    {
      var i :| 0 <= i < |list| && list[i] == c;
    }
    forall n | n in tables ensures exists c | c in p :: c.name == n && n in included {
      var i :| 0 <= i < |list| && list[i].name == n;
      assert list[i] in list;
    }
  }

  function MovedMiss(tables: Tables): (r: Tables)
    requires EthDstTable in tables
  {
    tables[EthDstTable := tables[EthDstTable].(missGoto := Some(EgressAcl))]
  }

  lemma MissMoved(list: seq<TableConfig>, included: set<TableName>, static_: bool, tables: Tables)
    requires AllConfigured(list, included, static_, |list|, tables) && EgressAcl in included && EthDstTable in tables
    ensures AllConfigured(list, included, static_, |list|, MovedMiss(tables))
  {
    var r := MovedMiss(tables);
    forall i | 0 <= i < |list|
      ensures list[i].name in r && ConfiguredAs(list, included, static_, list[i], r[list[i].name])
    {
      assert ConfiguredAs(list, included, static_, list[i], tables[list[i].name]);
    }
  }

  ghost predicate NamesAndIds(p: seq<TableConfig>, included: set<TableName>, static_: bool, tables: Tables) {
    && (forall n :: n in tables <==> exists c | c in p :: c.name == n && n in included)
    && (forall c | c in p && c.name in included ::
          c.name in tables &&
          tables[c.name].tableId == AssignedId(Canonical(p, included), c, static_) &&
          tables[c.name].nextTables == Only(c.nextTables, tables.Keys))
  }

  lemma TrimmedNames(p: seq<TableConfig>, included: set<TableName>, static_: bool, tables: Tables)
    requires AllConfigured(Canonical(p, included), included, static_, |Canonical(p, included)|, tables)
    ensures NamesAndIds(p, included, static_, Trimmed(tables))
  {
    ConfiguredNames(p, included, static_, tables);
    var r := Trimmed(tables);
    forall c | c in p && c.name in included
      ensures c.name in r && r[c.name].tableId == AssignedId(Canonical(p, included), c, static_) &&
              r[c.name].nextTables == Only(c.nextTables, r.Keys)
    {
      assert c.name in tables;
    }
  }

  /** Targets that are configured at all are configured later. */
  predicate PresentGotosGoUp(tables: Tables) {
    forall n, m | n in tables && ((m in tables[n].nextTables && m in tables) || tables[n].missGoto == Some(m)) ::
      m in tables && tables[m].tableId > tables[n].tableId
  }

  lemma AllConfiguredGoUp(p: seq<TableConfig>, included: set<TableName>, static_: bool, tables: Tables)
    requires DistinctNames(p) && Forward(p) && MissTargetsIncluded(p, included) && (static_ ==> IdsRise(p))
    requires AllConfigured(Canonical(p, included), included, static_, |Canonical(p, included)|, tables)
    ensures PresentGotosGoUp(tables)
  {
    forall n, m | n in tables && ((m in tables[n].nextTables && m in tables) || tables[n].missGoto == Some(m))
      ensures m in tables && tables[m].tableId > tables[n].tableId
    {
      ConfiguredGoUp(p, included, static_, tables, n, m);
    }
  }

  lemma TrimmedGoUp(tables: Tables)
    requires PresentGotosGoUp(tables)
    ensures GotosGoUp(Trimmed(tables))
  {
  }

  /** Where a packet goes that matches nothing in the table. */
  predicate MissTargets(p: seq<TableConfig>, included: set<TableName>, acl: Tables, tables: Tables) {
    forall c | c in p && c.name in included ::
      c.name in tables &&
      tables[c.name].missGoto ==
        if c.name == EthDstTable && EgressAcl in included then Some(EgressAcl)
        else if c.name in acl then None
        else c.missGoto
  }

  /** The listed static IDs. */
  predicate StaticIds(p: seq<TableConfig>, included: set<TableName>, tables: Tables) {
    forall c | c in p && c.name in included :: c.name in tables && tables[c.name].tableId == c.tableId
  }

  lemma MissesFollow(
    p: seq<TableConfig>, included: set<TableName>, acl: Tables, numbered: Tables, moved: Tables)
    requires MissAsListed(Canonical(p, included), acl, |Canonical(p, included)|, numbered)
    requires EgressAcl in included ==> EthDstTable in numbered
    requires moved == if EgressAcl in included then MovedMiss(numbered) else numbered
    ensures MissTargets(p, included, acl, Trimmed(moved))
  {
    var list := Canonical(p, included);
    CanonicalMembers(p, included);
    forall c | c in p && c.name in included
      ensures c.name in numbered &&
              numbered[c.name].missGoto == if c.name in acl then None else c.missGoto
    {
      var i :| 0 <= i < |list| && list[i] == c;
    }
  }

  /**
   The configured tables are the included ones; dynamic IDs are their places in the pipeline's order, so
   dense, and static IDs are the listed ones; next tables are the included next tables in order; and
   every remaining next or miss target has a greater ID than its table.  Miss targets are the listed ones,
   none for ACL tables, and for eth_dst the egress ACL table when there is one.
   */
  method ConfigureTables(
      p: seq<TableConfig>, included: set<TableName>, acl: Tables, static_: bool) returns (tables: Tables)
    requires DistinctNames(p) && Forward(p) && MissTargetsIncluded(p, included) && (static_ ==> IdsRise(p))
    requires AclTablesDerived(p, acl, included)
    requires EgressAcl in included ==> exists c | c in p :: c.name == EthDstTable && c.name in included
    ensures NamesAndIds(p, included, static_, tables)
    ensures MissTargets(p, included, acl, tables)
    ensures static_ ==> StaticIds(p, included, tables)
    ensures GotosGoUp(tables)
  {
    var list := Canonical(p, included);
    CanonicalMembers(p, included);
    CanonicalDistinct(p, included);
    AclOfIncluded(p, included, acl);
    var numbered := NumberTables(list, included, acl, static_);
    ghost var listed := numbered;
    if EgressAcl in included {
      ConfiguredNames(p, included, static_, numbered);
      MissMoved(list, included, static_, numbered);
      numbered := MovedMiss(numbered);
    }
    MissesFollow(p, included, acl, listed, numbered);
    TrimmedNames(p, included, static_, numbered);
    AllConfiguredGoUp(p, included, static_, numbered);
    TrimmedGoUp(numbered);
    return Trimmed(numbered);
  }

  /** Dynamic IDs are 0, 1, 2, ... without gaps or repeats, in the order of the full pipeline. */
  lemma DynamicIdsAreDense(p: seq<TableConfig>, included: set<TableName>, tables: Tables, a: TableName, b: TableName)
    requires DistinctNames(p) && NamesAndIds(p, included, false, tables) && a in tables && b in tables
    ensures tables[a].tableId < |Canonical(p, included)|
    ensures forall i | 0 <= i < |Canonical(p, included)| ::
              Canonical(p, included)[i].name in tables && tables[Canonical(p, included)[i].name].tableId == i
    ensures tables[a].tableId == tables[b].tableId ==> a == b
    ensures Before(p, a, b) ==> tables[a].tableId < tables[b].tableId
  {
    var list := Canonical(p, included);
    forall k | 0 <= k < |list| ensures list[k].name in tables && tables[list[k].name].tableId == k {
      PlaceIsId(p, included, tables, k);
    }
    IdIsPosition(p, included, tables, a);
    IdIsPosition(p, included, tables, b);
    if Before(p, a, b) {
      OrderSurvives(p, included, a, b);
    }
  }

  lemma PlaceIsId(p: seq<TableConfig>, included: set<TableName>, tables: Tables, k: nat)
    requires DistinctNames(p) && NamesAndIds(p, included, false, tables) && k < |Canonical(p, included)|
    ensures
      var list := Canonical(p, included);
      list[k].name in tables && tables[list[k].name].tableId == k == Position(list, list[k].name)
  {
    var list := Canonical(p, included);
    CanonicalMembers(p, included);
    CanonicalDistinct(p, included);
    assert list[k] in list;
    PositionIs(list, k);
  }

  lemma IdIsPosition(p: seq<TableConfig>, included: set<TableName>, tables: Tables, a: TableName)
    requires DistinctNames(p) && NamesAndIds(p, included, false, tables) && a in tables
    ensures
      var list := Canonical(p, included);
      a in included && tables[a].tableId == Position(list, a) < |list| && list[tables[a].tableId].name == a
  {
    var list := Canonical(p, included);
    CanonicalMembers(p, included);
    var c :| c in p && c.name == a && a in included;
    assert c in list;
    var i :| 0 <= i < |list| && list[i] == c;
    PlaceIsId(p, included, tables, i);
  }

  // ---------------------------------------------------------------------------------------------
  // The FAUCET pipeline
  // ---------------------------------------------------------------------------------------------

  function Place(n: TableName): (r: nat) {
    match n
    case PortAcl => 0 case Vlan => 1 case Copro => 2 case VlanAcl => 3 case Classification => 4
    case EthSrcTable => 5 case Ipv4Fib => 6 case Ipv6Fib => 7 case Vip => 8 case EthDstHairpin => 9
    case EthDstTable => 10 case EgressAcl => 11 case Egress => 12 case Flood => 13
  }

  lemma PlacesAreRight(i: nat)
    requires i < 14
    ensures |FAUCET_PIPELINE| == 14 && Place(FAUCET_PIPELINE[i].name) == i
  {
  }

  lemma PositionIsPlace(n: TableName)
    ensures Position(FAUCET_PIPELINE, n) == Place(n) < 14 && |FAUCET_PIPELINE| == 14
    ensures DistinctNames(FAUCET_PIPELINE)
  {
    PlacesAreRight(0);
    forall i, j | 0 <= i < j < |FAUCET_PIPELINE| ensures FAUCET_PIPELINE[i].name != FAUCET_PIPELINE[j].name {
      PlacesAreRight(i);
      PlacesAreRight(j);
    }
    PlacesAreRight(Place(n));
    PositionIs(FAUCET_PIPELINE, Place(n));
  }

  lemma SharedTargetsAreLate(n: TableName)
    ensures n in NEXT_ETH ==> Place(n) >= 9
    ensures n in NEXT_VIP ==> Place(n) >= 8
  {
    assert NEXT_VIP == [Vip, EthDstHairpin, EthDstTable, Flood];
  }

  lemma EarlyTargets(i: nat, n: TableName)
    requires i < 6 && i < |FAUCET_PIPELINE| && Target(FAUCET_PIPELINE[i], n)
    ensures Place(n) > i
  {
    SharedTargetsAreLate(n);
  }

  lemma LateTargets(i: nat, n: TableName)
    requires 6 <= i < 14 && i < |FAUCET_PIPELINE| && Target(FAUCET_PIPELINE[i], n)
    ensures Place(n) > i
  {
    SharedTargetsAreLate(n);
  }

  lemma TargetsHaveLaterPlaces(i: nat, n: TableName)
    requires i < 14 && i < |FAUCET_PIPELINE| && Target(FAUCET_PIPELINE[i], n)
    ensures Place(n) > i
  {
    if i < 6 {
      EarlyTargets(i, n);
    } else {
      LateTargets(i, n);
    }
  }

  lemma TargetIsBefore(c: TableConfig, n: TableName)
    requires c in FAUCET_PIPELINE && Target(c, n)
    ensures Before(FAUCET_PIPELINE, c.name, n)
  {
    PositionIsPlace(c.name);
    PositionIsPlace(n);
    var i :| 0 <= i < |FAUCET_PIPELINE| && FAUCET_PIPELINE[i] == c;
    TargetsHaveLaterPlaces(i, n);
    PlacesAreRight(i);
  }

  /** Whatever tables a configuration needs beyond the minimum, the pipeline can be numbered. */
  lemma FaucetPipelineIsForward(included: set<TableName>)
    requires MINIMUM_TABLES <= included
    ensures DistinctNames(FAUCET_PIPELINE) && Forward(FAUCET_PIPELINE)
    ensures MissTargetsIncluded(FAUCET_PIPELINE, included)
  {
    PositionIsPlace(Flood);
    forall c, n | c in FAUCET_PIPELINE && Target(c, n) ensures Before(FAUCET_PIPELINE, c.name, n) {
      TargetIsBefore(c, n);
    }
    FaucetMissTargets(included);
  }

  lemma FaucetMissTargets(included: set<TableName>)
    requires MINIMUM_TABLES <= included
    ensures MissTargetsIncluded(FAUCET_PIPELINE, included)
  {
  }

  /** The static IDs too rise along every goto. */
  lemma FaucetStaticIdsRise()
    ensures IdsRise(FAUCET_PIPELINE)
  {
    forall c, d | c in FAUCET_PIPELINE && d in FAUCET_PIPELINE && Target(c, d.name) ensures c.tableId < d.tableId {
      var i :| 0 <= i < |FAUCET_PIPELINE| && FAUCET_PIPELINE[i] == c;
      var j :| 0 <= j < |FAUCET_PIPELINE| && FAUCET_PIPELINE[j] == d;
      PlacesAreRight(0);
      StaticIdRises(i, j);
    }
  }

  lemma StaticIdRises(i: nat, j: nat)
    requires i < 14 && j < 14 && |FAUCET_PIPELINE| == 14 && Target(FAUCET_PIPELINE[i], FAUCET_PIPELINE[j].name)
    ensures FAUCET_PIPELINE[i].tableId < FAUCET_PIPELINE[j].tableId
  {
    PlacesAreRight(j);
    TargetsHaveLaterPlaces(i, FAUCET_PIPELINE[j].name);
    StaticIdsAlmostPlaces(i);
    StaticIdsAlmostPlaces(j);
    assert FAUCET_PIPELINE[2].nextTables == [EthDstTable];
  }

  lemma StaticIdsAlmostPlaces(i: nat)
    requires i < 14 && |FAUCET_PIPELINE| == 14
    ensures FAUCET_PIPELINE[i].tableId == if i < 3 then i else i - 1
  {
  }

  /** But they are not distinct: with static IDs the coprocessor and VLAN ACL tables share number 2. */
  lemma StaticIdsCollide(i: nat, j: nat)
    requires i < j < 14 && |FAUCET_PIPELINE| == 14
    ensures FAUCET_PIPELINE[i].tableId == FAUCET_PIPELINE[j].tableId <==>
              FAUCET_PIPELINE[i].name == Copro && FAUCET_PIPELINE[j].name == VlanAcl
  {
    PlacesAreRight(i);
    PlacesAreRight(j);
    StaticIdsAlmostPlaces(i);
    StaticIdsAlmostPlaces(j);
  }
}
