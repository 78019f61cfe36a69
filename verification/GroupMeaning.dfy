/** The group table, group by group: what group mods leave in it, one by one and over a whole run. */
module GroupMeaning {
  import opened Packets
  import opened FlowEntries
  import opened FlowTables

  function GroupOf(groups: Groups, g: GroupId): (r: Option<Buckets>) {
    if g in groups then Some(groups[g]) else None
  }

  /** What becomes of one group on account of one message. */
  function GroupAfter(was: Option<Buckets>, g: GroupId, msg: OfMsg): (r: Option<Buckets>) {
    if !msg.GroupMod? then was
    else match msg.command
      case GroupDeleteAll => None
      case GroupDelete => if msg.id == g then None else was
      case GroupAdd => if msg.id == g && was.None? then Some(msg.buckets) else was
      case GroupModify => if msg.id == g && was.Some? then Some(msg.buckets) else was
  }

  function GroupAfterAll(was: Option<Buckets>, g: GroupId, msgs: seq<OfMsg>): (r: Option<Buckets>)
    decreases |msgs|
  {
    if msgs == [] then was else GroupAfterAll(GroupAfter(was, g, msgs[0]), g, msgs[1..])
  }

  /**
   Every group after a group mod.  Only adding a group that is there and modifying one that is not are
   refused, and then nothing changes.
   */
  lemma GroupModMeaning(groups: Groups, command: GroupCommand, id: GroupId, buckets: Buckets)
    ensures
      var (after, status) := ApplyGroupMod(groups, command, id, buckets);
      && status == (if (command == GroupAdd && id in groups) || (command == GroupModify && id !in groups)
                    then Refused else Accepted)
      && (forall g :: GroupOf(after, g) == GroupAfter(GroupOf(groups, g), g, GroupMod(command, id, buckets)))
      && (status == Refused ==> after == groups)
  {
  }

  /** Through every run that is not cut short each group goes its own way, whatever else is sent. */
  lemma {:induction false} GroupsOfRun(s: Switch, msgs: seq<OfMsg>, ignoreErrors: bool, g: GroupId)
    requires Run(s, msgs, ignoreErrors).1 == Accepted
    ensures GroupOf(Run(s, msgs, ignoreErrors).0.groups, g) == GroupAfterAll(GroupOf(s.groups, g), g, msgs)
    decreases |msgs|
  {
    if msgs != [] {
      GroupsOfRun(Step(s, msgs[0]).0, msgs[1..], ignoreErrors, g);
    }
  }

  predicate Names(msg: OfMsg, g: GroupId) {
    msg.GroupMod? && (msg.command == GroupDeleteAll || msg.id == g)
  }

  /** Later messages that do not name a group leave it alone. */
  lemma {:induction false} UnnamedStays(was: Option<Buckets>, g: GroupId, msgs: seq<OfMsg>)
    requires forall m | m in msgs :: !Names(m, g)
    ensures GroupAfterAll(was, g, msgs) == was
    decreases |msgs|
  {
    if msgs != [] {
      assert msgs[0] in msgs && forall m | m in msgs[1..] :: m in msgs;
      UnnamedStays(was, g, msgs[1..]);
    }
  }

  lemma {:induction false} AfterAllJoin(was: Option<Buckets>, g: GroupId, a: seq<OfMsg>, b: seq<OfMsg>)
    ensures GroupAfterAll(was, g, a + b) == GroupAfterAll(GroupAfterAll(was, g, a), g, b)
    decreases |a|
  {
    if a == [] {
      assert a + b == b;
    } else {
      assert (a + b)[0] == a[0] && (a + b)[1..] == a[1..] + b;
      AfterAllJoin(GroupAfter(was, g, a[0]), g, a[1..], b);
    }
  }

  /**
   A group deleted and then added, and named no more, holds exactly the buckets of that add: what was in the
   group table before, and what else is sent, does not matter.
   */
  lemma ReplacedGroup(s: Switch, before: seq<OfMsg>, buckets: Buckets, later: seq<OfMsg>, g: GroupId)
    requires forall m | m in later :: !Names(m, g)
    requires
      var msgs := before + [GroupMod(GroupDelete, g, []), GroupMod(GroupAdd, g, buckets)] + later;
      Run(s, msgs, true).1 == Accepted
    ensures
      var msgs := before + [GroupMod(GroupDelete, g, []), GroupMod(GroupAdd, g, buckets)] + later;
      var groups := Run(s, msgs, true).0.groups;
      g in groups && groups[g] == buckets
  {
    var two := [GroupMod(GroupDelete, g, []), GroupMod(GroupAdd, g, buckets)];
    var was := GroupOf(s.groups, g);
    GroupsOfRun(s, before + two + later, true, g);
    AfterAllJoin(was, g, before + two, later);
    AfterAllJoin(was, g, before, two);
    assert two[1..] == [two[1]] && [two[1]][1..] == [];
    var mid := GroupAfterAll(was, g, before);
    assert GroupAfterAll(Some(buckets), g, []) == Some(buckets);
    assert GroupAfterAll(GroupAfter(mid, g, two[0]), g, [two[1]]) == Some(buckets);
    UnnamedStays(Some(buckets), g, later);
  }
}
