/** The VLAN ID each switch derives on its own for a tunnel, and when switches agree on it. */
module TunnelIds {
  import opened Packets

  type Vid = nat
  type AclName = string
  type Destination = string

  const MIN_VID := 1
  const MAX_VID := 4095

  // VID to whether the VLAN is reserved for internal use.
  type Vlans = map<Vid, bool>

  // ---------------------------------------------------------------------------------------------
  // Counting tunnels
  // ---------------------------------------------------------------------------------------------

  const TUNNEL := "tunnel"

  // The output action of a rule: one dictionary, or a list (or, once finalized, tuple) of them.
  datatype OutputConf =
    | NoOutput
    | Plain(keys: set<string>)
    | OrderedList(items: seq<set<string>>)
    | OrderedTuple(items: seq<set<string>>)

  function TunnelItems(items: seq<set<string>>): (r: nat) {
    if items == [] then 0 else (if TUNNEL in items[0] then 1 else 0) + TunnelItems(items[1..])
  }

  predicate ContainsTunnel(rule: OutputConf) {
    match rule
    case NoOutput => false
    case Plain(keys) => TUNNEL in keys
    case OrderedList(items) => exists i | 0 <= i < |items| :: TUNNEL in items[i]
    case OrderedTuple(items) => exists i | 0 <= i < |items| :: TUNNEL in items[i]
  }

  /** A tuple, unlike a list, is asked for the key itself and never holds it. */
  function RuleTunnels(rule: OutputConf): (r: nat) {
    match rule
    case NoOutput => 0
    case Plain(keys) => if TUNNEL in keys then 1 else 0
    case OrderedList(items) => TunnelItems(items)
    case OrderedTuple(_) => 0
  }

  function Tunnels(rules: seq<OutputConf>): (r: nat) {
    if rules == [] then 0 else RuleTunnels(rules[0]) + Tunnels(rules[1..])
  }

  lemma {:induction false} TunnelItemsPositive(items: seq<set<string>>)
    ensures TunnelItems(items) > 0 <==> exists i | 0 <= i < |items| :: TUNNEL in items[i]
  {
    if items != [] {
      TunnelItemsPositive(items[1..]);
      if i: nat :| i < |items[1..]| && TUNNEL in items[1..][i] {
        assert TUNNEL in items[i + 1];
      }
      if i: nat :| i < |items| && TUNNEL in items[i] && i > 0 {
        assert TUNNEL in items[1..][i - 1];
      }
    }
  }

  /** The count is positive exactly when some rule contains a tunnel, as long as no list became a tuple. */
  lemma {:induction false} CountsWhatIsContained(rules: seq<OutputConf>)
    requires forall r | r in rules :: !r.OrderedTuple?
    ensures Tunnels(rules) > 0 <==> exists r | r in rules :: ContainsTunnel(r)
  {
    if rules != [] {
      CountsWhatIsContained(rules[1..]);
      assert forall r :: r in rules <==> r == rules[0] || r in rules[1..];
      assert rules[0] in rules;
      if rules[0].OrderedList? {
        TunnelItemsPositive(rules[0].items);
      }
      assert RuleTunnels(rules[0]) > 0 <==> ContainsTunnel(rules[0]);
    }
  }

  lemma {:induction false} TunnelItemsSnoc(items: seq<set<string>>, i: nat)
    requires i < |items|
    ensures TunnelItems(items[..i + 1]) == TunnelItems(items[..i]) + if TUNNEL in items[i] then 1 else 0
  {
    if i == 0 {
      assert items[..1][1..] == [];
    } else {
      assert items[..i + 1][1..] == items[1..][..i] && items[..i][1..] == items[1..][..i - 1];
      TunnelItemsSnoc(items[1..], i - 1);
    }
  }

  lemma {:induction false} TunnelsSnoc(rules: seq<OutputConf>, i: nat)
    requires i < |rules|
    ensures Tunnels(rules[..i + 1]) == Tunnels(rules[..i]) + RuleTunnels(rules[i])
  {
    if i == 0 {
      assert rules[..1][1..] == [];
    } else {
      assert rules[..i + 1][1..] == rules[1..][..i] && rules[..i][1..] == rules[1..][..i - 1];
      TunnelsSnoc(rules[1..], i - 1);
    }
  }

  method DoesRuleContainTunnel(rule: OutputConf) returns (r: bool)
    ensures r == ContainsTunnel(rule)
  {
    match rule {
      case NoOutput => return false;
      case Plain(keys) => return TUNNEL in keys;
      case _ =>
        var i := 0;
        while i < |rule.items|
          invariant i <= |rule.items| && forall j | 0 <= j < i :: TUNNEL !in rule.items[j]
        {
          if TUNNEL in rule.items[i] {
            return true;
          }
          i := i + 1;
        }
        return false;
    }
  }

  method GetNumTunnels(rules: seq<OutputConf>) returns (numTunnels: nat)
    ensures numTunnels == Tunnels(rules)
  {
    numTunnels := 0;
    var i := 0;
    while i < |rules|
      invariant i <= |rules| && numTunnels == Tunnels(rules[..i])
    {
      TunnelsSnoc(rules, i);
      var contains := DoesRuleContainTunnel(rules[i]);
      if contains {
        match rules[i] {
          case OrderedList(items) =>
            var k := 0;
            while k < |items|
              invariant k <= |items| && numTunnels == Tunnels(rules[..i]) + TunnelItems(items[..k])
            {
              TunnelItemsSnoc(items, k);
              if TUNNEL in items[k] {
                numTunnels := numTunnels + 1;
              }
              k := k + 1;
            }
            assert items[..|items|] == items;
          case Plain(keys) => numTunnels := numTunnels + 1;
          case _ =>
        }
      } else if rules[i].OrderedList? {
        TunnelItemsPositive(rules[i].items);
      }
      i := i + 1;
    }
    assert rules[..|rules|] == rules;
  }

  // ---------------------------------------------------------------------------------------------
  // Choosing a VID
  // ---------------------------------------------------------------------------------------------

  /** The greatest VID of a VLAN that is not reserved. */
  predicate IsHighest(vlans: Vlans, v: Vid) {
    v in vlans && !vlans[v] && forall u | u in vlans && !vlans[u] :: u <= v
  }

  /** The least free VID from start on. */
  predicate IsFirstUnused(vlans: Vlans, start: Vid, v: Vid) {
    start <= v && v !in vlans && forall u | start <= u < v :: u in vlans
  }

  // The ACLs in the order of their sorted names, each with its number of tunnels.
  datatype NamedAcl = NamedAcl(name: AclName, tunnels: nat)

  /** The tunnels of the first k ACLs. */
  function Sum(acls: seq<NamedAcl>, k: nat): (r: nat)
    requires k <= |acls|
  {
    if k == 0 then 0 else Sum(acls, k - 1) + acls[k - 1].tunnels
  }

  predicate SumFor(acls: seq<NamedAcl>, name: AclName, sum: nat) {
    exists k | 0 <= k < |acls| :: acls[k].name == name && sum == Sum(acls, k + 1)
  }

  /** What the search comes out at: the least free VID from the highest ordinary one plus the offset on. */
  ghost predicate Searched(vlans: Vlans, acls: seq<NamedAcl>, name: AclName, vid: Vid) {
    exists high: Vid, sum: nat ::
      IsHighest(vlans, high) && SumFor(acls, name, sum) && IsFirstUnused(vlans, high + sum, vid)
  }

  predicate DistinctNames(acls: seq<NamedAcl>) {
    forall i, j | 0 <= i < j < |acls| :: acls[i].name != acls[j].name
  }

  // ---------------------------------------------------------------------------------------------
  // Resolving all tunnels in some order
  // ---------------------------------------------------------------------------------------------

  // An order names, tunnel by tunnel, the place of the ACL (among the sorted names) whose next tunnel,
  // to a destination new to that ACL, is resolved.
  type Order = seq<nat>

  function Count(order: Order, i: nat): (r: nat) {
    if order == [] then 0 else Count(order[..|order| - 1], i) + if order[|order| - 1] == i then 1 else 0
  }

  /** No more tunnels than the ACLs have. */
  predicate Allowed(acls: seq<NamedAcl>, order: Order) {
    && (forall i | i in order :: i < |acls|)
    && (forall i | 0 <= i < |acls| :: Count(order, i) <= acls[i].tunnels)
  }

  /** Every tunnel of every ACL. */
  predicate Complete(acls: seq<NamedAcl>, order: Order) {
    && (forall i | i in order :: i < |acls|)
    && (forall i | 0 <= i < |acls| :: Count(order, i) == acls[i].tunnels)
  }

  /** The VLANs once these IDs have been reserved too. */
  function After(vlans: Vlans, ids: seq<Vid>): (r: Vlans) {
    vlans + map v | v in ids :: true
  }

  /** Each ID is what the search comes out at after the IDs before it have been reserved. */
  ghost predicate Resolves(vlans: Vlans, acls: seq<NamedAcl>, order: Order, ids: seq<Vid>) {
    |ids| == |order| &&
    forall k | 0 <= k < |order| ::
      order[k] < |acls| && Searched(After(vlans, ids[..k]), acls, acls[order[k]].name, ids[k])
  }

  /** The IDs that went to the tunnels of ACL i, in the order they were resolved in. */
  function IdsOf(order: Order, ids: seq<Vid>, i: nat): (r: seq<Vid>)
    requires |ids| == |order|
  {
    if order == [] then []
    else
      var n := |order| - 1;
      IdsOf(order[..n], ids[..n], i) + if order[n] == i then [ids[n]] else []
  }

  /** Where the search for a tunnel of ACL i starts: what the documentation promises its only tunnel. */
  function StartOf(acls: seq<NamedAcl>, high: Vid, i: nat): (r: Vid)
    requires i < |acls|
  {
    high + Sum(acls, i + 1)
  }

  function Consecutive(start: Vid, n: nat): (r: seq<Vid>) {
    seq(n, c requires 0 <= c < n => start + c)
  }

  /** Along the sorted names, ACLs with tunnels have ever more of them, or as many. */
  predicate NeverDecreasing(acls: seq<NamedAcl>) {
    forall i, j | 0 <= i < j < |acls| && acls[j].tunnels > 0 :: acls[i].tunnels <= acls[j].tunnels
  }

  /** The VIDs each ACL would take from its starting point on are free and valid. */
  predicate RoomAbove(vlans: Vlans, acls: seq<NamedAcl>, high: Vid) {
    && IsHighest(vlans, high)
    && forall i | 0 <= i < |acls| && acls[i].tunnels > 0 ::
         && StartOf(acls, high, i) + acls[i].tunnels - 1 <= MAX_VID
         && forall v | v in vlans :: v <= high || v >= StartOf(acls, high, i) + acls[i].tunnels
  }

  /** Whatever the order, all tunnels get the same IDs. */
  ghost predicate OrderIndependent(vlans: Vlans, acls: seq<NamedAcl>) {
    forall o1, ids1, o2, ids2, i: nat |
      Complete(acls, o1) && Resolves(vlans, acls, o1, ids1) && Complete(acls, o2) && Resolves(vlans, acls, o2, ids2) ::
      IdsOf(o1, ids1, i) == IdsOf(o2, ids2, i)
  }

  // ---------------------------------------------------------------------------------------------
  // Sums and starting points
  // ---------------------------------------------------------------------------------------------

  lemma SumGrows(acls: seq<NamedAcl>, i: nat, j: nat)
    requires i <= j <= |acls|
    ensures Sum(acls, i) <= Sum(acls, j)
    decreases j - i
  {
    if i < j {
      SumGrows(acls, i, j - 1);
    }
  }

  /** The starting points of two ACLs lie at least the later one's tunnels apart. */
  lemma StartsApart(acls: seq<NamedAcl>, high: Vid, i: nat, j: nat)
    requires i < j < |acls|
    ensures StartOf(acls, high, i) + acls[j].tunnels <= StartOf(acls, high, j)
  {
    SumGrows(acls, i + 1, j);
  }

  lemma StartAboveHigh(acls: seq<NamedAcl>, high: Vid, i: nat)
    requires i < |acls|
    ensures StartOf(acls, high, i) >= high + acls[i].tunnels
  {
    SumGrows(acls, 0, i);
  }

  // ---------------------------------------------------------------------------------------------
  // What a search can come out at
  // ---------------------------------------------------------------------------------------------

  /** Reserved VLANs do not change which ordinary VID is the highest. */
  lemma HighestStays(vlans: Vlans, ids: seq<Vid>, high: Vid, h: Vid)
    requires IsHighest(vlans, high) && forall v | v in ids :: v !in vlans
    ensures IsHighest(After(vlans, ids), h) <==> h == high
  {
    var now_ := After(vlans, ids);
    assert forall v | v in now_ && !now_[v] :: v in vlans && !vlans[v];
    assert high in now_ && !now_[high];
  }

  lemma SearchedFrom(vlans: Vlans, acls: seq<NamedAcl>, ids: seq<Vid>, high: Vid, i: nat, vid: Vid)
    requires DistinctNames(acls) && i < |acls| && IsHighest(vlans, high) && forall v | v in ids :: v !in vlans
    ensures Searched(After(vlans, ids), acls, acls[i].name, vid) <==>
              IsFirstUnused(After(vlans, ids), StartOf(acls, high, i), vid)
  {
    var now_ := After(vlans, ids);
    HighestStays(vlans, ids, high, high);
    if Searched(now_, acls, acls[i].name, vid) {
      var h: Vid, sum: nat :|
        IsHighest(now_, h) && SumFor(acls, acls[i].name, sum) && IsFirstUnused(now_, h + sum, vid);
      HighestStays(vlans, ids, high, h);
      var k :| 0 <= k < |acls| && acls[k].name == acls[i].name && sum == Sum(acls, k + 1);
      assert k == i;
    }
    assert SumFor(acls, acls[i].name, Sum(acls, i + 1));
  }

  lemma SearchedIsNew(vlans: Vlans, ids: seq<Vid>, acls: seq<NamedAcl>, name: AclName, vid: Vid)
    requires Searched(After(vlans, ids), acls, name, vid)
    ensures vid !in vlans
  {
  }

  /** IDs handed out so far are all new. */
  lemma IdsAreNew(vlans: Vlans, acls: seq<NamedAcl>, order: Order, ids: seq<Vid>, k: nat)
    requires Resolves(vlans, acls, order, ids) && k <= |order|
    ensures forall v | v in ids[..k] :: v !in vlans
  {
    forall v | v in ids[..k] ensures v !in vlans {
      var p :| 0 <= p < k && ids[p] == v;
      SearchedIsNew(vlans, ids[..p], acls, acls[order[p]].name, ids[p]);
    }
  }

  lemma NextId(vlans: Vlans, acls: seq<NamedAcl>, high: Vid, order: Order, ids: seq<Vid>, k: nat)
    requires DistinctNames(acls) && IsHighest(vlans, high) && Resolves(vlans, acls, order, ids) && k < |order|
    ensures order[k] < |acls| && IsFirstUnused(After(vlans, ids[..k]), StartOf(acls, high, order[k]), ids[k])
  {
    IdsAreNew(vlans, acls, order, ids, k);
    assert Searched(After(vlans, ids[..k]), acls, acls[order[k]].name, ids[k]);
    SearchedFrom(vlans, acls, ids[..k], high, order[k], ids[k]);
  }

  function FromOn(vlans: Vlans, start: Vid): (r: set<Vid>) {
    set v | v in vlans && v >= start
  }

  lemma FirstUnusedExists(vlans: Vlans, start: Vid) returns (vid: Vid)
    ensures IsFirstUnused(vlans, start, vid)
    decreases FromOn(vlans, start)
  {
    if start !in vlans {
      vid := start;
    } else {
      assert start in FromOn(vlans, start) && start !in FromOn(vlans, start + 1);
      vid := FirstUnusedExists(vlans, start + 1);
    }
  }

  /** Every order can be resolved. */
  lemma {:induction false} RunExists(vlans: Vlans, acls: seq<NamedAcl>, high: Vid, order: Order) returns (ids: seq<Vid>)
    requires DistinctNames(acls) && IsHighest(vlans, high) && forall i | i in order :: i < |acls|
    ensures Resolves(vlans, acls, order, ids)
    decreases |order|
  {
    if order == [] {
      ids := [];
    } else {
      var n := |order| - 1;
      assert forall i | i in order[..n] :: i in order;
      var before := RunExists(vlans, acls, high, order[..n]);
      IdsAreNew(vlans, acls, order[..n], before, n);
      assert before[..n] == before && order[n] in order;
      var vid := FirstUnusedExists(After(vlans, before), StartOf(acls, high, order[n]));
      SearchedFrom(vlans, acls, before, high, order[n], vid);
      ids := before + [vid];
      OneMoreResolved(vlans, acls, order, before, vid);
    }
  }

  lemma OneMoreResolved(vlans: Vlans, acls: seq<NamedAcl>, order: Order, before: seq<Vid>, vid: Vid)
    requires order != [] && Resolves(vlans, acls, order[..|order| - 1], before)
    requires order[|order| - 1] < |acls|
    requires Searched(After(vlans, before), acls, acls[order[|order| - 1]].name, vid)
    ensures Resolves(vlans, acls, order, before + [vid])
  {
    var ids := before + [vid];
    forall k | 0 <= k < |order|
      ensures order[k] < |acls| && Searched(After(vlans, ids[..k]), acls, acls[order[k]].name, ids[k])
    {
      assert ids[..k] == before[..k];
      if k < |before| {
        assert order[k] == order[..|order| - 1][k];
      } else {
        assert before[..k] == before;
      }
    }
  }

  // ---------------------------------------------------------------------------------------------
  // Never decreasing counts: every order gives the same IDs
  // ---------------------------------------------------------------------------------------------

  /** Each of the first n tunnels got its ACL's starting point plus the tunnels of that ACL before it. */
  predicate Spread(acls: seq<NamedAcl>, high: Vid, order: Order, ids: seq<Vid>, n: nat) {
    n <= |order| == |ids| &&
    forall k | 0 <= k < n :: order[k] < |acls| && ids[k] == StartOf(acls, high, order[k]) + Count(order[..k], order[k])
  }

  lemma CountGrows(order: Order, p: nat, k: nat, i: nat)
    requires p <= k <= |order|
    ensures Count(order[..p], i) <= Count(order[..k], i)
    ensures p < k && order[p] == i ==> Count(order[..p], i) < Count(order[..k], i)
    decreases k - p
  {
    if p < k {
      assert order[..k][..k - 1] == order[..k - 1];
      CountGrows(order, p, k - 1, i);
    }
  }

  /** Every smaller count was the count before an earlier tunnel of the same ACL. */
  lemma {:induction false} EarlierTunnel(order: Order, k: nat, i: nat, c: nat)
    requires k <= |order| && c < Count(order[..k], i)
    ensures exists p | 0 <= p < k :: order[p] == i && Count(order[..p], i) == c
    decreases k
  {
    assert k > 0 && order[..k][..k - 1] == order[..k - 1];
    if c < Count(order[..k - 1], i) {
      EarlierTunnel(order, k - 1, i, c);
    } else {
      assert order[k - 1] == i && Count(order[..k - 1], i) == c;
    }
  }

  /** Tunnels of other ACLs stay clear of the IDs ACL i still needs. */
  lemma OthersStayClear(acls: seq<NamedAcl>, high: Vid, order: Order, ids: seq<Vid>, k: nat, p: nat)
    requires NeverDecreasing(acls) && Allowed(acls, order) && Spread(acls, high, order, ids, k)
    requires p < k < |order| && order[k] < |acls|
    ensures ids[p] != StartOf(acls, high, order[k]) + Count(order[..k], order[k])
  {
    var i, j := order[k], order[p];
    CountGrows(order, k, |order|, i);
    CountGrows(order, p, |order|, j);
    assert order[..|order|] == order;
    if i == j {
      CountGrows(order, p, k, i);
    } else if j < i {
      StartsApart(acls, high, j, i);
    } else {
      StartsApart(acls, high, i, j);
    }
  }

  lemma NextIdIsSpread(vlans: Vlans, acls: seq<NamedAcl>, high: Vid, order: Order, ids: seq<Vid>, k: nat, vid: Vid)
    requires RoomAbove(vlans, acls, high) && NeverDecreasing(acls) && Allowed(acls, order)
    requires Spread(acls, high, order, ids, k) && k < |order| && order[k] < |acls|
    requires IsFirstUnused(After(vlans, ids[..k]), StartOf(acls, high, order[k]), vid)
    ensures vid == StartOf(acls, high, order[k]) + Count(order[..k], order[k])
    ensures MIN_VID <= vid <= MAX_VID
  {
    var i, c := order[k], Count(order[..k], order[k]);
    var start := StartOf(acls, high, i);
    CountGrows(order, k, |order|, i);
    assert order[..|order|] == order;
    StartAboveHigh(acls, high, i);
    TakenBelow(vlans, acls, high, order, ids, k);
    FreeThere(vlans, acls, high, order, ids, k);
  }

  /** The IDs of the ACL's earlier tunnels are taken. */
  lemma TakenBelow(vlans: Vlans, acls: seq<NamedAcl>, high: Vid, order: Order, ids: seq<Vid>, k: nat)
    requires Spread(acls, high, order, ids, k) && k < |order| && order[k] < |acls|
    ensures
      var start := StartOf(acls, high, order[k]);
      forall u: Vid | start <= u < start + Count(order[..k], order[k]) :: u in After(vlans, ids[..k])
  {
    var i, start, taken := order[k], StartOf(acls, high, order[k]), ids[..k];
    forall u: Vid | start <= u < start + Count(order[..k], i) ensures u in After(vlans, taken) {
      EarlierTunnel(order, k, i, u - start);
      var p :| 0 <= p < k && order[p] == i && Count(order[..p], i) == u - start;
      assert taken[p] == u;
    }
  }

  /** The next one is free. */
  lemma FreeThere(vlans: Vlans, acls: seq<NamedAcl>, high: Vid, order: Order, ids: seq<Vid>, k: nat)
    requires RoomAbove(vlans, acls, high) && NeverDecreasing(acls) && Allowed(acls, order)
    requires Spread(acls, high, order, ids, k) && k < |order| && order[k] < |acls|
    ensures StartOf(acls, high, order[k]) + Count(order[..k], order[k]) !in After(vlans, ids[..k])
  {
    var i, taken := order[k], ids[..k];
    var next := StartOf(acls, high, i) + Count(order[..k], i);
    CountGrows(order, k, |order|, i);
    assert order[..|order|] == order;
    StartAboveHigh(acls, high, i);
    forall p | 0 <= p < k ensures taken[p] != next {
      OthersStayClear(acls, high, order, ids, k, p);
    }
    assert next !in vlans;
  }

  /** With room above and never decreasing counts, the IDs are the promised ones in every order. */
  lemma {:induction false} IdsAreSpread(
      vlans: Vlans, acls: seq<NamedAcl>, high: Vid, order: Order, ids: seq<Vid>, n: nat)
    requires DistinctNames(acls) && RoomAbove(vlans, acls, high) && NeverDecreasing(acls)
    requires Allowed(acls, order) && Resolves(vlans, acls, order, ids) && n <= |order|
    ensures Spread(acls, high, order, ids, n)
    decreases n
  {
    if n > 0 {
      IdsAreSpread(vlans, acls, high, order, ids, n - 1);
      OneMoreSpread(vlans, acls, high, order, ids, n - 1);
    }
  }

  lemma OneMoreSpread(vlans: Vlans, acls: seq<NamedAcl>, high: Vid, order: Order, ids: seq<Vid>, k: nat)
    requires DistinctNames(acls) && RoomAbove(vlans, acls, high) && NeverDecreasing(acls)
    requires Allowed(acls, order) && Resolves(vlans, acls, order, ids)
    requires k < |order| && Spread(acls, high, order, ids, k)
    ensures Spread(acls, high, order, ids, k + 1)
  {
    NextId(vlans, acls, high, order, ids, k);
    NextIdIsSpread(vlans, acls, high, order, ids, k, ids[k]);
  }

  lemma {:induction false} SpreadIdsOf(acls: seq<NamedAcl>, high: Vid, order: Order, ids: seq<Vid>, i: nat)
    requires Spread(acls, high, order, ids, |order|) && i < |acls|
    ensures IdsOf(order, ids, i) == Consecutive(StartOf(acls, high, i), Count(order, i))
    decreases |order|
  {
    if order != [] {
      var n := |order| - 1;
      SpreadPart(acls, high, order, ids, n);
      SpreadIdsOf(acls, high, order[..n], ids[..n], i);
      OneMoreOf(order, ids, i);
      if order[n] == i {
        ConsecutiveSnoc(StartOf(acls, high, i), Count(order[..n], i));
      }
    }
  }

  lemma OneMoreOf(order: Order, ids: seq<Vid>, i: nat)
    requires order != [] && |ids| == |order|
    ensures
      var n := |order| - 1;
      && IdsOf(order, ids, i) == IdsOf(order[..n], ids[..n], i) + (if order[n] == i then [ids[n]] else [])
      && Count(order, i) == Count(order[..n], i) + if order[n] == i then 1 else 0
  {
  }

  lemma SpreadPart(acls: seq<NamedAcl>, high: Vid, order: Order, ids: seq<Vid>, n: nat)
    requires Spread(acls, high, order, ids, |order|) && n <= |order|
    ensures Spread(acls, high, order[..n], ids[..n], n)
  {
    forall k | 0 <= k < n ensures order[..n][..k] == order[..k] {
    }
  }

  lemma ConsecutiveSnoc(start: Vid, n: nat)
    ensures Consecutive(start, n + 1) == Consecutive(start, n) + [start + n]
  {
  }

  lemma AllowedPart(acls: seq<NamedAcl>, order: Order, k: nat)
    requires Allowed(acls, order) && k <= |order|
    ensures Allowed(acls, order[..k])
  {
    assert forall i | i in order[..k] :: i in order;
    assert order[..|order|] == order;
    forall i | 0 <= i < |acls| ensures Count(order[..k], i) <= acls[i].tunnels {
      CountGrows(order, k, |order|, i);
    }
  }

  /** Then no resolution raises. */
  lemma AlwaysAvailable(vlans: Vlans, acls: seq<NamedAcl>, high: Vid, order: Order, ids: seq<Vid>, k: nat)
    requires DistinctNames(acls) && RoomAbove(vlans, acls, high) && NeverDecreasing(acls) && Allowed(acls, order)
    requires k < |order| && order[k] < |acls| && Resolves(vlans, acls, order[..k], ids)
    ensures !(forall u | u in After(vlans, ids) :: After(vlans, ids)[u])
    ensures forall v: Vid | Searched(After(vlans, ids), acls, acls[order[k]].name, v) :: MIN_VID <= v <= MAX_VID
  {
    IdsAreNew(vlans, acls, order[..k], ids, k);
    assert ids[..k] == ids;
    HighestStays(vlans, ids, high, high);
    forall v: Vid | Searched(After(vlans, ids), acls, acls[order[k]].name, v) ensures MIN_VID <= v <= MAX_VID {
      AvailableIfSearched(vlans, acls, high, order, ids, k, v);
    }
  }

  lemma AvailableIfSearched(
    vlans: Vlans, acls: seq<NamedAcl>, high: Vid, order: Order, ids: seq<Vid>, k: nat, v: Vid)
    requires DistinctNames(acls) && RoomAbove(vlans, acls, high) && NeverDecreasing(acls) && Allowed(acls, order)
    requires k < |order| && order[k] < |acls| && Resolves(vlans, acls, order[..k], ids)
    requires Searched(After(vlans, ids), acls, acls[order[k]].name, v)
    ensures MIN_VID <= v <= MAX_VID
  {
    var part, more := order[..k + 1], ids + [v];
    assert part[..k] == order[..k];
    OneMoreResolved(vlans, acls, part, ids, v);
    AllowedPart(acls, order, k + 1);
    IdsAreSpread(vlans, acls, high, part, more, k);
    NextId(vlans, acls, high, part, more, k);
    NextIdIsSpread(vlans, acls, high, part, more, k, v);
  }

  ghost predicate HasRoom(vlans: Vlans, acls: seq<NamedAcl>, order: Order) {
    NeverDecreasing(acls) && Allowed(acls, order) && exists high :: RoomAbove(vlans, acls, high)
  }

  lemma RaisesWithoutRoomOnly(vlans: Vlans, acls: seq<NamedAcl>, order: Order, ids: seq<Vid>, k: nat)
    requires DistinctNames(acls) && k < |order| && order[k] < |acls| && Resolves(vlans, acls, order[..k], ids)
    requires
      var now_, name := After(vlans, ids), acls[order[k]].name;
      || (forall u | u in now_ :: now_[u])
      || exists v: Vid :: Searched(now_, acls, name, v) && !(MIN_VID <= v <= MAX_VID)
    ensures !HasRoom(vlans, acls, order)
  {
    if HasRoom(vlans, acls, order) {
      var high :| RoomAbove(vlans, acls, high);
      AlwaysAvailable(vlans, acls, high, order, ids, k);
    }
  }

  lemma AfterOneMore(vlans: Vlans, ids: seq<Vid>, v: Vid)
    ensures After(vlans, ids + [v]) == After(vlans, ids)[v := true]
  {
  }

  /** ACL i takes the consecutive IDs from its starting point on, in whatever order all are resolved. */
  lemma IdsAreDetermined(vlans: Vlans, acls: seq<NamedAcl>, high: Vid, order: Order, ids: seq<Vid>, i: nat)
    requires DistinctNames(acls) && RoomAbove(vlans, acls, high) && NeverDecreasing(acls)
    requires Allowed(acls, order) && Resolves(vlans, acls, order, ids)
    ensures i < |acls| ==> IdsOf(order, ids, i) == Consecutive(StartOf(acls, high, i), Count(order, i))
    ensures i >= |acls| ==> IdsOf(order, ids, i) == []
  {
    IdsAreSpread(vlans, acls, high, order, ids, |order|);
    if i < |acls| {
      SpreadIdsOf(acls, high, order, ids, i);
    } else {
      NoIds(order, ids, i);
    }
  }

  /** No two tunnels get the same ID. */
  lemma IdsDiffer(vlans: Vlans, acls: seq<NamedAcl>, order: Order, ids: seq<Vid>, p: nat, k: nat)
    requires Resolves(vlans, acls, order, ids) && p < k < |order|
    ensures ids[p] != ids[k] && ids[p] !in vlans && ids[k] !in vlans
  {
    IdsAreNew(vlans, acls, order, ids, |order|);
    assert ids[..|order|] == ids && ids[..k][p] == ids[p];
    assert Searched(After(vlans, ids[..k]), acls, acls[order[k]].name, ids[k]);
  }

  /** With at most one tunnel in each ACL, each gets the highest ordinary VID plus the count up to it. */
  lemma SingleTunnelsKeepPromise(vlans: Vlans, acls: seq<NamedAcl>, high: Vid, order: Order, ids: seq<Vid>, k: nat)
    requires DistinctNames(acls) && RoomAbove(vlans, acls, high) && (forall a | a in acls :: a.tunnels <= 1)
    requires Allowed(acls, order) && Resolves(vlans, acls, order, ids) && k < |order|
    ensures order[k] < |acls| && ids[k] == high + Sum(acls, order[k] + 1)
  {
    forall i, j | 0 <= i < j < |acls| && acls[j].tunnels > 0 ensures acls[i].tunnels <= acls[j].tunnels {
      assert acls[i] in acls && acls[j] in acls;
    }
    IdsAreSpread(vlans, acls, high, order, ids, |order|);
    var i := order[k];
    assert i in order && acls[i] in acls;
    CountGrows(order, k, |order|, i);
    assert order[..|order|] == order;
  }

  /** Two switches with the same tunnel counts and the same highest ordinary VID agree on every ACL,
      in whatever orders they resolve as many of its tunnels. */
  lemma SwitchesAgree(
    acls: seq<NamedAcl>, high: Vid, vlans1: Vlans, o1: Order, ids1: seq<Vid>,
    vlans2: Vlans, o2: Order, ids2: seq<Vid>, i: nat)
    requires DistinctNames(acls) && NeverDecreasing(acls)
    requires RoomAbove(vlans1, acls, high) && Allowed(acls, o1) && Resolves(vlans1, acls, o1, ids1)
    requires RoomAbove(vlans2, acls, high) && Allowed(acls, o2) && Resolves(vlans2, acls, o2, ids2)
    requires Count(o1, i) == Count(o2, i)
    ensures IdsOf(o1, ids1, i) == IdsOf(o2, ids2, i)
  {
    IdsAreDetermined(vlans1, acls, high, o1, ids1, i);
    IdsAreDetermined(vlans2, acls, high, o2, ids2, i);
  }

  // ---------------------------------------------------------------------------------------------
  // Decreasing counts: two orders differ
  // ---------------------------------------------------------------------------------------------

  function Block(i: nat, n: nat): (r: Order) {
    seq(n, _ => i)
  }

  /** The tunnels of the first n ACLs other than i and j. */
  function OtherBlocks(acls: seq<NamedAcl>, i: nat, j: nat, n: nat): (r: Order)
    requires n <= |acls|
  {
    if n == 0 then []
    else OtherBlocks(acls, i, j, n - 1) + if n - 1 == i || n - 1 == j then [] else Block(n - 1, acls[n - 1].tunnels)
  }

  /** All of i's tunnels, then all of j's, then the others. */
  function FirstThen(acls: seq<NamedAcl>, i: nat, j: nat): (r: Order)
    requires i < |acls| && j < |acls|
  {
    Block(i, acls[i].tunnels) + (Block(j, acls[j].tunnels) + OtherBlocks(acls, i, j, |acls|))
  }

  lemma {:induction false} CountConcat(a: Order, b: Order, i: nat)
    ensures Count(a + b, i) == Count(a, i) + Count(b, i)
    decreases |b|
  {
    if b == [] {
      assert a + b == a;
    } else {
      var n := |b| - 1;
      assert (a + b)[..|a + b| - 1] == a + b[..n];
      CountConcat(a, b[..n], i);
    }
  }

  lemma {:induction false} CountBlock(i: nat, n: nat, x: nat)
    ensures Count(Block(i, n), x) == if x == i then n else 0
    decreases n
  {
    if n > 0 {
      assert Block(i, n)[..n - 1] == Block(i, n - 1);
      CountBlock(i, n - 1, x);
    }
  }

  lemma {:induction false} CountOtherBlocks(acls: seq<NamedAcl>, i: nat, j: nat, n: nat, x: nat)
    requires n <= |acls|
    ensures Count(OtherBlocks(acls, i, j, n), x) == if x < n && x != i && x != j then acls[x].tunnels else 0
    decreases n
  {
    if n > 0 {
      var k := n - 1;
      CountOtherBlocks(acls, i, j, k, x);
      if k != i && k != j {
        CountConcat(OtherBlocks(acls, i, j, k), Block(k, acls[k].tunnels), x);
        CountBlock(k, acls[k].tunnels, x);
      } else {
        assert OtherBlocks(acls, i, j, n) == OtherBlocks(acls, i, j, k);
      }
    }
  }

  lemma {:induction false} OtherBlocksMembers(acls: seq<NamedAcl>, i: nat, j: nat, n: nat)
    requires n <= |acls|
    ensures forall y | y in OtherBlocks(acls, i, j, n) :: y < n
    decreases n
  {
    if n > 0 {
      OtherBlocksMembers(acls, i, j, n - 1);
    }
  }

  lemma FirstThenIsComplete(acls: seq<NamedAcl>, i: nat, j: nat)
    requires i < |acls| && j < |acls| && i != j
    ensures Complete(acls, FirstThen(acls, i, j))
  {
    var others := OtherBlocks(acls, i, j, |acls|);
    OtherBlocksMembers(acls, i, j, |acls|);
    forall x | 0 <= x < |acls| ensures Count(FirstThen(acls, i, j), x) == acls[x].tunnels {
      CountOtherBlocks(acls, i, j, |acls|, x);
      CountConcat(Block(i, acls[i].tunnels), Block(j, acls[j].tunnels) + others, x);
      CountConcat(Block(j, acls[j].tunnels), others, x);
      CountBlock(i, acls[i].tunnels, x);
      CountBlock(j, acls[j].tunnels, x);
    }
  }

  /** The first of an ACL's IDs is the one its first tunnel got. */
  lemma {:induction false} FirstOfIds(order: Order, ids: seq<Vid>, i: nat, k: nat)
    requires |ids| == |order| && k < |order| && order[k] == i && forall p | 0 <= p < k :: order[p] != i
    ensures IdsOf(order, ids, i) != [] && IdsOf(order, ids, i)[0] == ids[k]
    decreases |order|
  {
    var n := |order| - 1;
    if k < n {
      FirstOfIds(order[..n], ids[..n], i, k);
    } else {
      NoIds(order[..n], ids[..n], i);
    }
  }

  lemma {:induction false} NoIds(order: Order, ids: seq<Vid>, i: nat)
    requires |ids| == |order| && forall p | 0 <= p < |order| :: order[p] != i
    ensures IdsOf(order, ids, i) == []
    decreases |order|
  {
    if order != [] {
      NoIds(order[..|order| - 1], ids[..|order| - 1], i);
    }
  }

  /** An ACL resolved first takes the consecutive IDs from its starting point on. */
  lemma {:induction false} FirstBlockIds(
      vlans: Vlans, acls: seq<NamedAcl>, high: Vid, order: Order, ids: seq<Vid>, i: nat, k: nat)
    requires DistinctNames(acls) && RoomAbove(vlans, acls, high) && Resolves(vlans, acls, order, ids)
    requires i < |acls| && k <= acls[i].tunnels && k <= |order| && forall p | 0 <= p < k :: order[p] == i
    ensures forall p | 0 <= p < k :: ids[p] == StartOf(acls, high, i) + p
    decreases k
  {
    if k > 0 {
      FirstBlockIds(vlans, acls, high, order, ids, i, k - 1);
      NextId(vlans, acls, high, order, ids, k - 1);
      StartAboveHigh(acls, high, i);
      var start, taken := StartOf(acls, high, i), ids[..k - 1];
      forall u: Vid | start <= u < start + k - 1 ensures u in After(vlans, taken) {
        assert taken[u - start] == u;
      }
      forall p | 0 <= p < k - 1 ensures taken[p] != start + k - 1 {
        assert taken[p] == ids[p];
      }
      assert start + k - 1 !in After(vlans, taken);
    }
  }

  /** A later ACL with tunnels, but fewer, is shifted by an earlier one that is resolved before it. */
  lemma DecreasingIsShifted(vlans: Vlans, acls: seq<NamedAcl>, high: Vid, i: nat, j: nat, ids: seq<Vid>)
    requires DistinctNames(acls) && RoomAbove(vlans, acls, high)
    requires i < j < |acls| && 0 < acls[j].tunnels < acls[i].tunnels
    requires (forall x | i < x < j :: acls[x].tunnels == 0) && Resolves(vlans, acls, FirstThen(acls, i, j), ids)
    ensures
      var r := IdsOf(FirstThen(acls, i, j), ids, j);
      r != [] && r[0] != StartOf(acls, high, j)
  {
    var order, n := FirstThen(acls, i, j), acls[i].tunnels;
    FirstBlockIds(vlans, acls, high, order, ids, i, n);
    NextId(vlans, acls, high, order, ids, n);
    SumOverNone(acls, i, j);
    var c := acls[j].tunnels;
    assert StartOf(acls, high, j) == StartOf(acls, high, i) + c;
    assert ids[..n][c] == StartOf(acls, high, j);
    FirstOfIds(order, ids, j, n);
  }

  lemma {:induction false} SumOverNone(acls: seq<NamedAcl>, i: nat, j: nat)
    requires i < j < |acls| && forall x | i < x < j :: acls[x].tunnels == 0
    ensures Sum(acls, j) == Sum(acls, i + 1)
    decreases j
  {
    if j > i + 1 {
      SumOverNone(acls, i, j - 1);
    }
  }

  lemma ResolvedFirst(vlans: Vlans, acls: seq<NamedAcl>, high: Vid, i: nat, j: nat, ids: seq<Vid>)
    requires DistinctNames(acls) && RoomAbove(vlans, acls, high) && i < |acls| && j < |acls| && acls[j].tunnels > 0
    requires Resolves(vlans, acls, FirstThen(acls, j, i), ids)
    ensures
      var r := IdsOf(FirstThen(acls, j, i), ids, j);
      r != [] && r[0] == StartOf(acls, high, j)
  {
    FirstBlockIds(vlans, acls, high, FirstThen(acls, j, i), ids, j, 1);
    FirstOfIds(FirstThen(acls, j, i), ids, j, 0);
  }

  /** Counts that decrease somewhere decrease between neighbours, ACLs without tunnels aside. */
  lemma {:induction false} NeighboursDecrease(acls: seq<NamedAcl>, i: nat, j: nat) returns (a: nat, b: nat)
    requires i < j < |acls| && 0 < acls[j].tunnels < acls[i].tunnels
    ensures a < b < |acls| && 0 < acls[b].tunnels < acls[a].tunnels && forall x | a < x < b :: acls[x].tunnels == 0
    decreases j - i
  {
    if x: nat :| i < x < j && acls[x].tunnels > 0 {
      if acls[x].tunnels < acls[i].tunnels {
        a, b := NeighboursDecrease(acls, i, x);
      } else {
        a, b := NeighboursDecrease(acls, x, j);
      }
    } else {
      a, b := i, j;
    }
  }

  lemma TwoOrdersDiffer(vlans: Vlans, acls: seq<NamedAcl>, high: Vid, i: nat, j: nat)
    requires DistinctNames(acls) && RoomAbove(vlans, acls, high)
    requires i < j < |acls| && 0 < acls[j].tunnels < acls[i].tunnels
    ensures !OrderIndependent(vlans, acls)
  {
    var a, b := NeighboursDecrease(acls, i, j);
    var o1, o2 := FirstThen(acls, a, b), FirstThen(acls, b, a);
    FirstThenIsComplete(acls, a, b);
    FirstThenIsComplete(acls, b, a);
    var ids1 := RunExists(vlans, acls, high, o1);
    var ids2 := RunExists(vlans, acls, high, o2);
    DecreasingIsShifted(vlans, acls, high, a, b, ids1);
    ResolvedFirst(vlans, acls, high, a, b, ids2);
    assert IdsOf(o1, ids1, b) != IdsOf(o2, ids2, b);
  }

  /**
   With room above the ordinary VLANs and no destination repeated within an ACL, the IDs are the same in
   every order of resolution exactly when ACLs with tunnels never have fewer of them than an earlier one.
   */
  lemma OrderIndependentIff(vlans: Vlans, acls: seq<NamedAcl>, high: Vid)
    requires DistinctNames(acls) && RoomAbove(vlans, acls, high)
    ensures OrderIndependent(vlans, acls) <==> NeverDecreasing(acls)
  {
    if NeverDecreasing(acls) {
      forall o1, ids1, o2, ids2, i: nat |
        Complete(acls, o1) && Resolves(vlans, acls, o1, ids1) && Complete(acls, o2) && Resolves(vlans, acls, o2, ids2)
        ensures IdsOf(o1, ids1, i) == IdsOf(o2, ids2, i)
      {
        IdsAreDetermined(vlans, acls, high, o1, ids1, i);
        IdsAreDetermined(vlans, acls, high, o2, ids2, i);
      }
    } else {
      var i, j :| 0 <= i < j < |acls| && acls[j].tunnels > 0 && acls[i].tunnels > acls[j].tunnels;
      TwoOrdersDiffer(vlans, acls, high, i, j);
    }
  }

  const ONE_VLAN: Vlans := map[100 := false]

  /** With two tunnels in a and one in b the IDs hang on the order; with two in each they do not. */
  lemma TwoTunnelsDependOnOrder()
    ensures
      var twoThenOne := [NamedAcl("a", 2), NamedAcl("b", 1)];
      RoomAbove(ONE_VLAN, twoThenOne, 100) && !OrderIndependent(ONE_VLAN, twoThenOne)
    ensures
      var twoEach := [NamedAcl("a", 2), NamedAcl("b", 2)];
      RoomAbove(ONE_VLAN, twoEach, 100) && OrderIndependent(ONE_VLAN, twoEach)
  {
    TwoAcls(1);
    TwoAcls(2);
  }

  lemma TwoAcls(n: nat)
    requires 1 <= n <= 2
    ensures
      var acls := [NamedAcl("a", 2), NamedAcl("b", n)];
      RoomAbove(ONE_VLAN, acls, 100) && (OrderIndependent(ONE_VLAN, acls) <==> n == 2)
  {
    var acls := [NamedAcl("a", 2), NamedAcl("b", n)];
    assert Sum(acls, 1) == Sum(acls, 0) + 2 && Sum(acls, 2) == Sum(acls, 1) + n;
    OrderIndependentIff(ONE_VLAN, acls, 100);
    assert NeverDecreasing(acls) <==> acls[0].tunnels <= acls[1].tunnels;
  }

  /** One switch while its configuration is being resolved. */
  class Resolver {
    var vlans: Vlans
    const acls: seq<NamedAcl>

    constructor (vlans: Vlans, acls: seq<NamedAcl>)
      ensures this.vlans == vlans && this.acls == acls
    {
      this.vlans := vlans;
      this.acls := acls;
    }

    method FirstUnusedVlanId(start: Vid) returns (vid: Vid)
      ensures IsFirstUnused(vlans, start, vid)
    {
      vid := start;
      ghost var used := set u | u in vlans && u >= vid;
      while vid in vlans
        invariant start <= vid && forall u | start <= u < vid :: u in vlans
        decreases set u | u in vlans && u >= vid
      {
        ghost var before := set u | u in vlans && u >= vid;
        assert vid in before && vid !in (set u | u in vlans && u >= vid + 1);
        vid := vid + 1;
      }
    }

    /** Raises for a VID in use or out of range. */
    method CreateVlan(vid: Vid) returns (ok: bool)
      modifies this
      ensures ok == (vid !in old(vlans) && MIN_VID <= vid <= MAX_VID)
      ensures vlans == if ok then old(vlans)[vid := true] else old(vlans)
    {
      if vid in vlans || !(MIN_VID <= vid <= MAX_VID) {
        return false;
      }
      vlans := vlans[vid := true];
      return true;
    }

    method HighestVid() returns (r: Option<Vid>)
      ensures match r
              case Some(v) => IsHighest(vlans, v)
              case None => forall u | u in vlans :: vlans[u]
    {
      r := None;
      var todo := vlans.Keys;
      while todo != {}
        invariant todo <= vlans.Keys
        invariant match r
                  case Some(v) => v in vlans && !vlans[v] && forall u | u in vlans && u !in todo && !vlans[u] :: u <= v
                  case None => forall u | u in vlans && u !in todo :: vlans[u]
        decreases todo
      {
        var u :| u in todo;
        if !vlans[u] && (r.None? || u > r.value) {
          r := Some(u);
        }
        todo := todo - {u};
      }
    }

    method TunnelOffset(name: AclName) returns (r: Option<nat>)
      requires DistinctNames(acls)
      ensures match r
              case Some(sum) => SumFor(acls, name, sum)
              case None => forall k | 0 <= k < |acls| :: acls[k].name != name
    {
      var sum, k := 0, 0;
      while k < |acls|
        invariant k <= |acls| && sum == Sum(acls, k)
        invariant forall j | 0 <= j < k :: acls[j].name != name
      {
        sum := sum + acls[k].tunnels;
        if acls[k].name == name {
          return Some(sum);
        }
        k := k + 1;
      }
      return None;
    }

    /**
     A tunnel without an ID of its own: the VLAN already made for the same destination within the ACL,
     otherwise a new reserved one with the least free VID from the ACL's starting point on.
     */
    method GetTunnelVlan(acl: AclName, dst: Destination, made: map<Destination, Vid>) returns (r: Result<Vid>)
      requires DistinctNames(acls)
      modifies this
      ensures dst in made ==> r == Ok(made[dst]) && vlans == old(vlans)
      ensures r.Raised? ==> vlans == old(vlans)
      ensures dst !in made && r.Ok? ==>
        Searched(old(vlans), acls, acl, r.value) && r.value <= MAX_VID && vlans == old(vlans)[r.value := true]
      ensures dst !in made && r.Raised? ==>
        || (forall u | u in vlans :: vlans[u])
        || (forall k | 0 <= k < |acls| :: acls[k].name != acl)
        || exists v: Vid :: Searched(vlans, acls, acl, v) && !(MIN_VID <= v <= MAX_VID)
    {
      if dst in made {
        return Ok(made[dst]);
      }
      var high := HighestVid();
      if high.None? {
        return Raised;
      }
      var sum := TunnelOffset(acl);
      if sum.None? {
        return Raised;
      }
      var vid := FirstUnusedVlanId(high.value + sum.value);
      assert IsHighest(vlans, high.value) && SumFor(acls, acl, sum.value);
      assert Searched(vlans, acls, acl, vid);
      var ok := CreateVlan(vid);
      return if ok then Ok(vid) else Raised;
    }

    /**
     Tunnels resolved in the given order, none to a destination its ACL already has a tunnel to.  It stops
     where it raises; with room above and never decreasing counts it does not.
     */
    method ResolveInOrder(order: Order, dst: Destination) returns (ok: bool, ids: seq<Vid>)
      requires DistinctNames(acls) && forall i | i in order :: i < |acls|
      modifies this
      ensures |ids| <= |order| && Resolves(old(vlans), acls, order[..|ids|], ids)
      ensures vlans == After(old(vlans), ids) && (ok <==> |ids| == |order|)
      ensures !ok ==> !HasRoom(old(vlans), acls, order)
    {
      ids := [];
      assert After(vlans, ids) == vlans;
      var k := 0;
      while k < |order|
        invariant k == |ids| <= |order|
        invariant Resolves(old(vlans), acls, order[..k], ids) && vlans == After(old(vlans), ids)
      {
        assert order[k] in order && order[..k + 1][..k] == order[..k];
        var r := GetTunnelVlan(acls[order[k]].name, dst, map[]);
        if r.Raised? {
          RaisesWithoutRoomOnly(old(vlans), acls, order, ids, k);
          return false, ids;
        }
        OneMoreResolved(old(vlans), acls, order[..k + 1], ids, r.value);
        AfterOneMore(old(vlans), ids, r.value);
        ids := ids + [r.value];
        k := k + 1;
      }
      assert order[..|order|] == order;
      return true, ids;
    }
  }
}
