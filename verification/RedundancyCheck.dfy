/** The test harness's redundancy check, run on the mutable switch. */
module RedundancyCheck {
  import opened Packets
  import opened FlowTables
  import opened TableInvariant
  import opened FakeSwitch
  import opened Redundancy
  import opened ErrorFreeRedundancy
  import opened EntryObjects
  import opened ObjectRuns
  import opened SharedEntries

  /** What the schedule has sent so far, and what is left of it from iteration i on. */
  ghost predicate SentSoFar(goal: Schedule, sent: Schedule, n: nat, lag: nat, i: int) {
    0 <= i + lag && i <= n && goal == sent + Lagged(n, lag, i)
  }

  function TrailingNow(n: nat, i: int): (r: Schedule) {
    if 0 <= i < n then [i] else []
  }

  function LeadingNow(n: nat, lag: nat, i: int): (r: Schedule)
    requires 0 <= i + lag
  {
    if i + lag < n then [i + lag] else []
  }

  lemma OneIteration(goal: Schedule, sent: Schedule, n: nat, lag: nat, i: int)
    requires SentSoFar(goal, sent, n, lag, i) && i < n
    ensures SentSoFar(goal, sent + TrailingNow(n, i) + LeadingNow(n, lag, i), n, lag, i + 1)
  {
    var later := Lagged(n, lag, i + 1);
    assert Lagged(n, lag, i) == TrailingNow(n, i) + (LeadingNow(n, lag, i) + later);
    assert sent + (TrailingNow(n, i) + (LeadingNow(n, lag, i) + later)) ==
           (sent + TrailingNow(n, i) + LeadingNow(n, lag, i)) + later;
  }

  lemma PickSnoc(msgs: seq<OfMsg>, sent: Schedule, i: nat)
    requires Within(sent, |msgs|) && i < |msgs|
    ensures Within(sent + [i], |msgs|) && Pick(msgs, sent + [i]) == Pick(msgs, sent) + [msgs[i]]
  {
  }

  /** Two copies of the list, the second trailing the first by offset messages. */
  method BuildOffset(ofmsgs: seq<OfMsg>, offset: nat) returns (r: seq<OfMsg>)
    ensures Within(Lagged(|ofmsgs|, offset, 0 - offset), |ofmsgs|)
    ensures r == Pick(ofmsgs, Lagged(|ofmsgs|, offset, 0 - offset))
  {
    var n := |ofmsgs|;
    r := [];
    var i: int := 0 - offset;
    ghost var sent: Schedule := [];
    ghost var goal := Lagged(n, offset, i);
    assert [] + goal == goal;
    while i < n
      invariant SentSoFar(goal, sent, n, offset, i)
      invariant Within(sent, n) && r == Pick(ofmsgs, sent)
    {
      OneIteration(goal, sent, n, offset, i);
      if 0 <= i < n {
        PickSnoc(ofmsgs, sent, i);
        r := r + [ofmsgs[i]];
      }
      sent := sent + TrailingNow(n, i);
      var j := i + offset;
      if 0 <= j < n {
        PickSnoc(ofmsgs, sent, j);
        r := r + [ofmsgs[j]];
      }
      sent := sent + LeadingNow(n, offset, i);
      i := i + 1;
    }
    assert sent + [] == sent;
  }

  method SameTables(before: Tables, after: Tables) returns (same: bool)
    requires |before| == |after|
    ensures same <==> forall id | 0 <= id < |before| :: SameEntries(before[id], after[id])
  {
    var id := 0;
    while id < |before|
      invariant id <= |before|
      invariant forall k | 0 <= k < id :: SameEntries(before[k], after[k])
    {
      var was, now_ := (set x | x in before[id]), (set x | x in after[id]);
      assert (forall x :: x in was <==> x in before[id]) && (forall x :: x in now_ <==> x in after[id]);
      assert was == now_ <==> SameEntries(before[id], after[id]);
      if was != now_ {
        return false;
      }
      id := id + 1;
    }
    return true;
  }

  /** What the check finds after sending the interleaving to a switch in state o. */
  ghost function Checked(o: Objects, ofmsgs: seq<OfMsg>, offset: nat): (r: Objects)
    requires AllRefsIn(o.rows, |o.store|) && Within(Lagged(|ofmsgs|, offset, 0 - offset), |ofmsgs|)
  {
    RunObjects(o, Pick(ofmsgs, Lagged(|ofmsgs|, offset, 0 - offset)), true).0
  }

  ghost predicate MayBeSentTwice(o: Objects, ofmsgs: seq<OfMsg>)
    requires Placed(o)
  {
    AllGood(View(o).tables) && SafelyRedundant(View(o), ofmsgs) && Unaliased(o, ofmsgs)
  }

  /** What the check promises about a switch in state o. */
  ghost predicate ReportsTruly(o: Objects, ofmsgs: seq<OfMsg>, same: bool)
    requires Placed(o)
  {
    var once := RunObjects(o, ofmsgs, true).0;
    Placed(once) && (same <==> Alike(View(once).tables, View(o).tables))
  }

  /**
   What the check compares, for a switch in any state.  For a list that may be sent twice it reports no
   difference exactly when sending the list once more would change nothing.
   */
  method VerifyRedundantSafe(table: FakeOFTable, ofmsgs: seq<OfMsg>, offset: nat) returns (same: bool)
    requires table.Valid()
    modifies table
    ensures table.Valid()
    ensures offset == 0 ==> same && table.Current() == old(table.Current())
    ensures offset > 0 ==>
      && Within(Lagged(|ofmsgs|, offset, 0 - offset), |ofmsgs|)
      && table.Current() == Checked(old(table.Current()), ofmsgs, offset)
      && (same <==> Alike(table.Contents(), old(table.Contents())))
    ensures offset > 0 && MayBeSentTwice(old(table.Current()), ofmsgs) ==>
              ReportsTruly(old(table.Current()), ofmsgs, same)
  {
    if offset == 0 {
      return true;
    }
    ghost var before := table.Current();
    var beforeTables := table.Contents();
    var offsetOfmsgs := BuildOffset(ofmsgs, offset);
    var status := table.ApplyOfMsgs(offsetOfmsgs, true);
    same := SameTables(table.Contents(), beforeTables);
    if MayBeSentTwice(before, ofmsgs) {
      ObjectListConverges(before, ofmsgs, offset);
      AlikeEither(beforeTables, View(RunObjects(before, ofmsgs, true).0).tables, table.Contents());
    }
  }

  lemma AlikeEither(ts: Tables, us: Tables, vs: Tables)
    requires Alike(vs, us)
    ensures Alike(us, ts) <==> Alike(vs, ts)
  {
  }

  /** Sent to a switch as the list itself left it, the check never reports a difference. */
  lemma CheckPassesAfterList(o: Objects, ofmsgs: seq<OfMsg>, offset: nat)
    requires Placed(o) && MayBeSentTwice(o, ofmsgs) && offset >= 1
    ensures Within(Lagged(|ofmsgs|, offset, 0 - offset), |ofmsgs|)
    ensures
      var once := RunObjects(o, ofmsgs, true).0;
      var checked := Checked(once, ofmsgs, offset);
      Placed(once) && Placed(checked) && Alike(View(checked).tables, View(once).tables)
  {
    ObjectListConverges(o, ofmsgs, offset);
  }
}
