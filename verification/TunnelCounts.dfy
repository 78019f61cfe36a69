/** The tunnel counts are numbers of places: of tunnel items in an ACL's rules, and of tunnels up to an ACL. */
module TunnelCounts {
  import opened TunnelIds

  // An item of a row: of an output action in a list of rules, or a tunnel of an ACL in a list of ACLs.
  datatype Place = Place(row: nat, item: nat)

  /** Does item j of this output action ask for a tunnel?  A tuple's items are not looked at. */
  predicate TunnelAt(rule: OutputConf, j: nat) {
    match rule
    case NoOutput => false
    case Plain(keys) => j == 0 && "tunnel" in keys
    case OrderedList(items) => j < |items| && "tunnel" in items[j]
    case OrderedTuple(_) => false
  }

  /** Exactly the items of this row that ask for a tunnel. */
  ghost predicate InRow(places: set<Place>, row: nat, rule: OutputConf) {
    forall i: nat, j: nat :: Place(i, j) in places <==> i == row && TunnelAt(rule, j)
  }

  ghost predicate AllTunnels(places: set<Place>, rules: seq<OutputConf>) {
    forall i: nat, j: nat :: Place(i, j) in places <==> i < |rules| && TunnelAt(rules[i], j)
  }

  ghost predicate AllUpTo(places: set<Place>, acls: seq<NamedAcl>, k: nat)
    requires k <= |acls|
  {
    forall i: nat, j: nat :: Place(i, j) in places <==> i < k && j < acls[i].tunnels
  }

  lemma {:induction false} ItemPlaces(items: seq<set<string>>, row: nat) returns (places: set<Place>)
    ensures |places| == TunnelItems(items)
    ensures InRow(places, row, OrderedList(items))
  {
    places := {};
    if items != [] {
      var n := |items| - 1;
      var front := items[..n];
      places := ItemPlaces(front, row);
      TunnelItemsSnoc(items, n);
      assert items[..n + 1] == items;
      assert forall i: nat, j: nat :: Place(i, j) in places <==> i == row && TunnelAt(OrderedList(front), j);
      if "tunnel" in items[n] {
        places := places + {Place(row, n)};
      }
    }
  }

  lemma RowPlaces(rule: OutputConf, row: nat) returns (places: set<Place>)
    ensures |places| == RuleTunnels(rule) && InRow(places, row, rule)
  {
    match rule
    case NoOutput => places := {};
    case Plain(keys) => places := if "tunnel" in keys then {Place(row, 0)} else {};
    case OrderedList(items) => places := ItemPlaces(items, row);
    case OrderedTuple(_) => places := {};
  }

  lemma {:induction false} RulePlaces(rules: seq<OutputConf>) returns (places: set<Place>)
    ensures |places| == Tunnels(rules) && AllTunnels(places, rules)
  {
    places := {};
    if rules != [] {
      var n := |rules| - 1;
      var front := rules[..n];
      var before := RulePlaces(front);
      var here := RowPlaces(rules[n], n);
      TunnelsSnoc(rules, n);
      assert rules[..n + 1] == rules;
      assert before !! here by {
        forall p | p in before ensures p !in here {
          assert p == Place(p.row, p.item);
        }
      }
      places := before + here;
    }
  }

  /** get_num_tunnels counts the items that ask for a tunnel, each once. */
  lemma CountsTunnelItems(rules: seq<OutputConf>)
    ensures exists places: set<Place> :: AllTunnels(places, rules) && |places| == Tunnels(rules)
  {
    var places := RulePlaces(rules);
  }

  lemma {:induction false} TunnelPlaces(tunnels: nat, row: nat) returns (places: set<Place>)
    ensures |places| == tunnels && forall i: nat, j: nat :: Place(i, j) in places <==> i == row && j < tunnels
  {
    places := {};
    if tunnels > 0 {
      places := TunnelPlaces(tunnels - 1, row);
      places := places + {Place(row, tunnels - 1)};
    }
  }

  lemma {:induction false} AclPlaces(acls: seq<NamedAcl>, k: nat) returns (places: set<Place>)
    requires k <= |acls|
    ensures |places| == Sum(acls, k) && AllUpTo(places, acls, k)
    decreases k
  {
    places := {};
    if k > 0 {
      var before := AclPlaces(acls, k - 1);
      var here := TunnelPlaces(acls[k - 1].tunnels, k - 1);
      assert before !! here by {
        forall p | p in before ensures p !in here {
          assert p == Place(p.row, p.item);
        }
      }
      places := before + here;
    }
  }

  /** The offset of an ACL's tunnels is the number of tunnels of the ACLs up to it. */
  lemma OffsetCountsTunnels(acls: seq<NamedAcl>, k: nat)
    requires k <= |acls|
    ensures exists places: set<Place> :: AllUpTo(places, acls, k) && |places| == Sum(acls, k)
  {
    var places := AclPlaces(acls, k);
  }
}
