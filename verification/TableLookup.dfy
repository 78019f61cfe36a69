/** Looking a packet up in one table, and why the answer depends only on which entries it holds. */
module TableLookup {
  import opened Packets
  import opened FlowEntries
  import opened FlowTables
  import opened TableInvariant

  function Lookup(t: Table, pkt: Packet): (r: Option<Entry>) {
    if t == [] then None
    else if PktMatches(t[0], pkt) then Some(t[0])
    else Lookup(t[1..], pkt)
  }

  lemma LookupIsMember(t: Table, pkt: Packet)
    ensures Lookup(t, pkt).Some? ==> Lookup(t, pkt).value in t && PktMatches(Lookup(t, pkt).value, pkt)
  {
  }

  predicate Highest(t: Table, pkt: Packet, e: Entry) {
    e in t && PktMatches(e, pkt) &&
    forall x | x in t && PktMatches(x, pkt) :: x.priority <= e.priority
  }

  lemma {:induction false} LookupIsHighest(t: Table, pkt: Packet)
    requires Sorted(t)
    ensures match Lookup(t, pkt)
            case Some(e) => Highest(t, pkt, e)
            case None => forall x | x in t :: !PktMatches(x, pkt)
  {
    if t != [] {
      SortedHead(t);
      LookupIsHighest(t[1..], pkt);
      assert forall x :: x in t <==> x == t[0] || x in t[1..];
    }
  }

  // ---------------------------------------------------------------------------------------------
  // When the order of insertion is invisible
  // ---------------------------------------------------------------------------------------------

  /** A sorted table holding the entries of t, in whatever order within a priority. */
  ghost predicate Arranges(u: Table, t: Table) {
    Good(u) && Sorted(u) && forall x :: x in u <==> x in t
  }

  ghost predicate OrderIndependent(t: Table) {
    forall u, v, pkt | Arranges(u, t) && Arranges(v, t) :: Lookup(u, pkt) == Lookup(v, pkt)
  }

  /** No packet has two best matches. */
  ghost predicate Unambiguous(t: Table) {
    forall pkt, a, b | Highest(t, pkt, a) && Highest(t, pkt, b) :: a == b
  }

  /** Any two entries of one priority differ on a bit that both of them look at. */
  predicate Separated(t: Table) {
    forall a, b | a in t && b in t && a.priority == b.priority && AgreeOnCommonBits(a.match_, b.match_) :: a == b
  }

  predicate MasksAgree(t: Table) {
    forall a, b | a in t && b in t && a.priority == b.priority :: EqualSharedMasks(a.match_, b.match_)
  }

  /** Equal sets of entries with one best match for each packet answer every packet alike. */
  lemma LookupDependsOnEntriesOnly(t: Table, u: Table, pkt: Packet)
    requires Good(t) && Sorted(t) && Unambiguous(t)
    requires Arranges(u, t)
    ensures Lookup(t, pkt) == Lookup(u, pkt)
  {
    LookupIsHighest(t, pkt);
    LookupIsHighest(u, pkt);
    if Lookup(t, pkt).Some? {
      assert Lookup(u, pkt).Some?;
      assert Highest(t, pkt, Lookup(u, pkt).value);
    }
  }

  lemma {:induction false} InsertedIsFound(e: Entry, t: Table, pkt: Packet)
    requires PktMatches(e, pkt) && forall x | x in t && PktMatches(x, pkt) :: x.priority <= e.priority
    ensures Lookup(Insert(e, t), pkt) == Some(e)
  {
    if t != [] && e.priority < t[0].priority {
      InsertedIsFound(e, t[1..], pkt);
      assert Insert(e, t)[1..] == Insert(e, t[1..]);
    }
  }

  function Without(t: Table, i: nat): (r: Table)
    requires i < |t|
  {
    t[..i] + t[i + 1..]
  }

  lemma WithoutGood(t: Table, i: nat)
    requires Good(t) && i < |t|
    ensures Good(Without(t, i)) && ClearOf(t[i], Without(t, i))
    ensures forall x :: x in t <==> x == t[i] || x in Without(t, i)
  {
    var rest := Without(t, i);
    forall k | 0 <= k < |rest| ensures rest[k] == t[if k < i then k else k + 1] {
    }
    forall x | x in t && x != t[i] ensures x in rest {
      var k :| 0 <= k < |t| && t[k] == x;
      assert rest[if k < i then k else k - 1] == x;
    }
    forall x | x in rest ensures !Overlaps(t[i], x) {
      var k :| 0 <= k < |rest| && rest[k] == x;
      var y := t[if k < i then k else k + 1];
      assert t[i] in t && y in t;
      OverlapsIffEqualSharedValues(t[i], y);
    }
  }

  /** Every best match of a packet is what some order of insertion makes lookup find. */
  lemma HighestCanBeFound(t: Table, pkt: Packet, e: Entry) returns (u: Table)
    requires Good(t) && Highest(t, pkt, e)
    ensures Arranges(u, t) && Lookup(u, pkt) == Some(e)
  {
    var i :| 0 <= i < |t| && t[i] == e;
    var rest := Without(t, i);
    WithoutGood(t, i);
    SortGood(rest);
    SortProperties(rest);
    InsertGood(e, Sort(rest));
    InsertSorted(e, Sort(rest));
    InsertedIsFound(e, Sort(rest), pkt);
    u := Insert(e, Sort(rest));
  }

  /** The order of insertion is invisible exactly when no packet has two best matches. */
  lemma OrderIndependentIff(t: Table)
    requires Good(t)
    ensures OrderIndependent(t) <==> Unambiguous(t)
  {
    if OrderIndependent(t) {
      forall pkt, a, b | Highest(t, pkt, a) && Highest(t, pkt, b) ensures a == b {
        var u := HighestCanBeFound(t, pkt, a);
        var v := HighestCanBeFound(t, pkt, b);
      }
    }
    if Unambiguous(t) {
      forall u, v, pkt | Arranges(u, t) && Arranges(v, t) ensures Lookup(u, pkt) == Lookup(v, pkt) {
        UnambiguousArrangement(t, u);
        LookupDependsOnEntriesOnly(u, v, pkt);
      }
    }
  }

  lemma UnambiguousArrangement(t: Table, u: Table)
    requires Unambiguous(t) && Arranges(u, t)
    ensures Unambiguous(u)
  {
    forall pkt, a, b | Highest(u, pkt, a) && Highest(u, pkt, b) ensures a == b {
      assert Highest(t, pkt, a) && Highest(t, pkt, b);
    }
  }

  /** The table-level test: it holds exactly when no packet matches two entries of one priority. */
  lemma SeparatedIff(t: Table)
    requires Good(t)
    ensures Separated(t) <==> forall a, b | a in t && b in t && ShareAPacket(a, b) :: a == b
    ensures Separated(t) ==> Unambiguous(t)
    ensures MasksAgree(t) ==> Separated(t)
  {
    forall a, b | a in t && b in t
      ensures ShareAPacket(a, b) <==> a.priority == b.priority && AgreeOnCommonBits(a.match_, b.match_)
    {
      ShareAPacketIff(a, b);
    }
    if MasksAgree(t) {
      forall a, b | a in t && b in t && ShareAPacket(a, b) ensures a == b {
        MaskedAlikeIsSame(t, a, b);
      }
    }
    if Separated(t) {
      forall pkt, a, b | Highest(t, pkt, a) && Highest(t, pkt, b) ensures a == b {
        assert ShareAPacket(a, b);
      }
    }
  }

  lemma MaskedAlikeIsSame(t: Table, a: Entry, b: Entry)
    requires Good(t) && MasksAgree(t) && a in t && b in t && ShareAPacket(a, b)
    ensures a == b
  {
    OverlapTestMeaning(a, b);
    if a != b {
      OthersDoNotOverlap(t, a, b);
    }
  }

  /** Two nested prefixes at one priority: the answer depends on the order they were added in. */
  lemma NestedPrefixesAreOrderDependent(f: Field)
    ensures
      var wide := Entry(1, map[f := FieldMatch({1}, {1})], [GotoTable(1)], None);
      var narrow := Entry(1, map[f := FieldMatch({0, 1}, {0, 1})], [GotoTable(2)], None);
      var pkt: Packet := map[f := {0, 1}];
      && Good([wide, narrow]) && Good([narrow, wide])
      && Sorted([wide, narrow]) && Sorted([narrow, wide])
      && Lookup([wide, narrow], pkt) == Some(wide) && Lookup([narrow, wide], pkt) == Some(narrow)
  {
    var wide := Entry(1, map[f := FieldMatch({1}, {1})], [GotoTable(1)], None);
    var narrow := Entry(1, map[f := FieldMatch({0, 1}, {0, 1})], [GotoTable(2)], None);
    OverlapsIffEqualSharedValues(wide, narrow);
    assert f in wide.match_ && f in narrow.match_;
    assert 0 in narrow.match_[f].value && 0 !in wide.match_[f].value;
    assert {0, 1} * {1} == {1} && {1} * {1} == {1} && {0, 1} * {0, 1} == {0, 1};
  }
}
