/**
 What a flow mod does to one table, said of the message's own fields and bits: which entries it selects,
 which of them go, which are changed, and which packets the entry it leaves behind matches.
 */
module CommandMeaning {
  import opened Packets
  import opened FlowEntries
  import opened FlowTables

  /** The value agrees with the field's on every bit of the field's mask. */
  predicate AgreesOnMask(value: Word, f: FieldMatch) {
    forall b: Bit | b in f.mask :: b in value <==> b in f.value
  }

  /** A delete may be limited to entries that put out by some port; no other command is. */
  predicate PutsOutAsAsked(fm: FlowMod, e: Entry) {
    (fm.command == Delete || fm.command == DeleteStrict) && fm.outPort.Some? ==>
      exists i, a | 0 <= i < |e.instructions| && e.instructions[i].ApplyActions? && a in e.instructions[i].actions ::
        a == Output(fm.outPort.value)
  }

  /** Not strictly: the entry has all the fields of the message, and their values on the message's masks. */
  predicate Selects(fm: FlowMod, e: Entry) {
    && PutsOutAsAsked(fm, e)
    && forall k | k in fm.match_ :: k in e.match_ && AgreesOnMask(e.match_[k].value, fm.match_[k])
  }

  /** Strictly: priority, fields and masks are those of the message, and so are the values under the masks. */
  predicate SelectsStrictly(fm: FlowMod, e: Entry) {
    && PutsOutAsAsked(fm, e)
    && e.priority == fm.priority
    && e.match_.Keys == fm.match_.Keys
    && forall k | k in fm.match_ && k in e.match_ ::
         && e.match_[k].mask == fm.match_[k].mask
         && forall b: Bit :: b in e.match_[k].value <==> b in fm.match_[k].value && b in fm.match_[k].mask
  }

  lemma MaskedEquality(value: Word, f: FieldMatch)
    ensures value * f.mask == f.value * f.mask <==> AgreesOnMask(value, f)
  {
    if AgreesOnMask(value, f) {
      assert forall b: Bit :: b in value * f.mask <==> b in f.value * f.mask;
    }
    if value * f.mask == f.value * f.mask {
      forall b: Bit | b in f.mask ensures b in value <==> b in f.value {
        assert b in value * f.mask <==> b in value;
        assert b in f.value * f.mask <==> b in f.value;
      }
    }
  }

  lemma OutPortMeaning(fm: FlowMod, e: Entry)
    ensures OutPortMatches(MakeEntry(fm), e) <==> PutsOutAsAsked(fm, e)
  {
    if OutPortMatches(MakeEntry(fm), e) && fm.outPort.Some? && fm.command in {Delete, DeleteStrict} {
      var i :| 0 <= i < |e.instructions| &&
        e.instructions[i].ApplyActions? && Output(fm.outPort.value) in e.instructions[i].actions;
      ghost var a := Output(fm.outPort.value);
      assert a in e.instructions[i].actions && a == Output(fm.outPort.value);
    }
  }

  lemma SelectionMeaning(fm: FlowMod, e: Entry)
    ensures FteMatches(MakeEntry(fm), e) <==> Selects(fm, e)
  {
    OutPortMeaning(fm, e);
    forall k | k in fm.match_ && k in e.match_
      ensures e.match_[k].value * fm.match_[k].mask == fm.match_[k].value * fm.match_[k].mask <==>
              AgreesOnMask(e.match_[k].value, fm.match_[k])
    {
      MaskedEquality(e.match_[k].value, fm.match_[k]);
    }
  }

  lemma StrictSelectionMeaning(fm: FlowMod, e: Entry)
    ensures StrictMatches(MakeEntry(fm), e) <==> SelectsStrictly(fm, e)
  {
    OutPortMeaning(fm, e);
    var m := MakeEntry(fm).match_;
    if SelectsStrictly(fm, e) {
      assert m.Keys == e.match_.Keys;
      forall k | k in m ensures m[k] == e.match_[k] {
        assert forall b: Bit :: b in m[k].value <==> b in e.match_[k].value;
      }
    }
    if StrictMatches(MakeEntry(fm), e) {
      assert m == e.match_;
      assert forall k :: k in m <==> k in fm.match_;
    }
  }

  /** The entry an add leaves matches exactly the packets that have the message's values under its masks. */
  lemma AddedMatches(fm: FlowMod, pkt: Packet)
    ensures PktMatches(MakeEntry(fm), pkt) <==>
            forall k | k in fm.match_ :: k in pkt && AgreesOnMask(pkt[k], fm.match_[k])
  {
    var m := MakeEntry(fm).match_;
    assert forall k :: k in m <==> k in fm.match_;
    forall k | k in fm.match_
      ensures m[k].value * m[k].mask == fm.match_[k].value * fm.match_[k].mask && m[k].mask == fm.match_[k].mask
      ensures k in pkt ==>
        (pkt[k] * fm.match_[k].mask == fm.match_[k].value * fm.match_[k].mask <==> AgreesOnMask(pkt[k], fm.match_[k]))
    {
      if k in pkt {
        MaskedEquality(pkt[k], fm.match_[k]);
      }
    }
  }

  // ---------------------------------------------------------------------------------------------
  // Deletes
  // ---------------------------------------------------------------------------------------------

  /** r holds the entries of t at these places, in order. */
  ghost predicate Picks(t: Table, r: Table, places: seq<nat>) {
    && |places| == |r|
    && (forall i, j | 0 <= i < j < |places| :: places[i] < places[j])
    && (forall i | 0 <= i < |places| :: places[i] < |t| && r[i] == t[places[i]])
  }

  /** Exactly the entries that the message does not select, in order. */
  ghost predicate Keeps(fm: FlowMod, t: Table, r: Table, kept: seq<nat>) {
    Picks(t, r, kept) && forall n: nat | n < |t| :: n in kept <==> !Selects(fm, t[n])
  }

  function Shifted(places: seq<nat>): (r: seq<nat>)
    ensures |r| == |places|
  {
    seq(|places|, i requires 0 <= i < |places| => places[i] + 1)
  }

  lemma ShiftedMembers(places: seq<nat>, n: nat)
    ensures n in Shifted(places) <==> n > 0 && n - 1 in places
  {
    if n > 0 && n - 1 in places {
      var i :| 0 <= i < |places| && places[i] == n - 1;
      assert Shifted(places)[i] == n;
    }
  }

  lemma PicksLater(t: Table, r: Table, later: seq<nat>)
    requires t != [] && Picks(t[1..], r, later)
    ensures Picks(t, r, Shifted(later)) && Picks(t, [t[0]] + r, [0] + Shifted(later))
  {
    var tail, shifted := t[1..], Shifted(later);
    forall i | 0 <= i < |shifted| ensures 0 < shifted[i] < |t| && r[i] == t[shifted[i]] {
      assert tail[later[i]] == t[later[i] + 1];
    }
    assert forall i, j | 0 <= i < j < |shifted| :: shifted[i] < shifted[j];
    var all, kept := [t[0]] + r, [0] + shifted;
    forall i | 0 <= i < |kept| ensures kept[i] < |t| && all[i] == t[kept[i]] {
      if i > 0 {
        assert kept[i] == shifted[i - 1] && all[i] == r[i - 1];
      }
    }
    forall i, j | 0 <= i < j < |kept| ensures kept[i] < kept[j] {
      assert kept[j] == shifted[j - 1] && (i > 0 ==> kept[i] == shifted[i - 1]);
    }
  }

  lemma KeepsWithout(fm: FlowMod, t: Table, r: Table, later: seq<nat>)
    requires t != [] && Selects(fm, t[0]) && Keeps(fm, t[1..], r, later)
    ensures Keeps(fm, t, r, Shifted(later))
  {
    PicksLater(t, r, later);
    forall n: nat | n < |t| ensures n in Shifted(later) <==> !Selects(fm, t[n]) {
      ShiftedMembers(later, n);
      assert n > 0 ==> t[n] == t[1..][n - 1];
    }
  }

  lemma KeepsWith(fm: FlowMod, t: Table, r: Table, later: seq<nat>)
    requires t != [] && !Selects(fm, t[0]) && Keeps(fm, t[1..], r, later)
    ensures Keeps(fm, t, [t[0]] + r, [0] + Shifted(later))
  {
    var kept := [0] + Shifted(later);
    PicksLater(t, r, later);
    forall n: nat | n < |t| ensures n in kept <==> !Selects(fm, t[n]) {
      ShiftedMembers(later, n);
      assert n > 0 ==> t[n] == t[1..][n - 1];
    }
  }

  lemma {:induction false} DeleteKeeps(fm: FlowMod, t: Table) returns (kept: seq<nat>)
    ensures Keeps(fm, t, Unselected(t, MakeEntry(fm)), kept)
  {
    kept := [];
    if t != [] {
      SelectionMeaning(fm, t[0]);
      var later := DeleteKeeps(fm, t[1..]);
      if Selects(fm, t[0]) {
        KeepsWithout(fm, t, Unselected(t[1..], MakeEntry(fm)), later);
        kept := Shifted(later);
      } else {
        KeepsWith(fm, t, Unselected(t[1..], MakeEntry(fm)), later);
        kept := [0] + Shifted(later);
      }
    }
  }

  /** A delete takes exactly the entries it selects and keeps the others in their order. */
  lemma DeleteMeaning(fm: FlowMod, t: Table)
    requires fm.command == Delete
    ensures Apply(t, fm.command, MakeEntry(fm)).Ok?
    ensures exists kept: seq<nat> :: Keeps(fm, t, Apply(t, fm.command, MakeEntry(fm)).value, kept)
  {
    var kept := DeleteKeeps(fm, t);
  }

  /** The first place strictly selected, or the end of the table. */
  ghost predicate FirstStrict(fm: FlowMod, t: Table, n: nat) {
    && n <= |t| && (n < |t| ==> SelectsStrictly(fm, t[n]))
    && forall j: nat | j < n :: !SelectsStrictly(fm, t[j])
  }

  /** The first strictly selected entry, if there is one, is gone. */
  ghost predicate FirstRemoved(fm: FlowMod, t: Table, r: Table) {
    exists n: nat :: FirstStrict(fm, t, n) && r == if n == |t| then t else t[..n] + t[n + 1..]
  }

  lemma FirstStrictLater(fm: FlowMod, t: Table, n: nat)
    requires t != [] && !SelectsStrictly(fm, t[0]) && FirstStrict(fm, t[1..], n)
    ensures FirstStrict(fm, t, n + 1)
  {
    forall j: nat | j < n + 1 ensures !SelectsStrictly(fm, t[j]) {
      if j > 0 {
        assert t[j] == t[1..][j - 1];
      }
    }
  }

  lemma RemovedLater(t: Table, n: nat)
    requires n + 1 < |t|
    ensures [t[0]] + (t[1..][..n] + t[1..][n + 1..]) == t[..n + 1] + t[n + 2..]
  {
    assert t[..n + 1] == [t[0]] + t[1..][..n];
  }

  lemma {:induction false} DeleteStrictRemoves(fm: FlowMod, t: Table)
    ensures FirstRemoved(fm, t, DeleteStrictFrom(t, MakeEntry(fm)))
  {
    if t == [] {
      assert FirstStrict(fm, t, 0);
    } else {
      StrictSelectionMeaning(fm, t[0]);
      if SelectsStrictly(fm, t[0]) {
        assert FirstStrict(fm, t, 0) && t[1..] == t[..0] + t[0 + 1..];
      } else {
        var tail := t[1..];
        DeleteStrictRemoves(fm, tail);
        var r := DeleteStrictFrom(tail, MakeEntry(fm));
        var n: nat :| FirstStrict(fm, tail, n) && r == if n == |tail| then tail else tail[..n] + tail[n + 1..];
        FirstStrictLater(fm, t, n);
        if n < |tail| {
          RemovedLater(t, n);
        }
      }
    }
  }

  /** A strict delete takes the first entry it selects, and only that. */
  lemma DeleteStrictMeaning(fm: FlowMod, t: Table)
    requires fm.command == DeleteStrict
    ensures Apply(t, fm.command, MakeEntry(fm)).Ok?
    ensures FirstRemoved(fm, t, Apply(t, fm.command, MakeEntry(fm)).value)
  {
    DeleteStrictRemoves(fm, t);
  }

  // ---------------------------------------------------------------------------------------------
  // Modifies
  // ---------------------------------------------------------------------------------------------

  /** The entry as it was but for the instructions, which are those of the message. */
  ghost predicate Instructs(fm: FlowMod, e: Entry, r: Entry) {
    r.priority == e.priority && r.match_ == e.match_ && r.outPort == e.outPort && r.instructions == fm.instructions
  }

  /** A modify gives its instructions to exactly the entries it selects, in their places. */
  lemma ModifyMeaning(fm: FlowMod, t: Table, i: nat)
    requires fm.command == Modify && i < |t|
    ensures Apply(t, fm.command, MakeEntry(fm)).Ok?
    ensures
      var r := Apply(t, fm.command, MakeEntry(fm)).value;
      |r| == |t| && if Selects(fm, t[i]) then Instructs(fm, t[i], r[i]) else r[i] == t[i]
  {
    SelectionMeaning(fm, t[i]);
  }

  /** Exactly the first entry strictly selected is instructed, in its place. */
  ghost predicate FirstInstructed(fm: FlowMod, t: Table, r: Table) {
    exists n: nat :: FirstStrict(fm, t, n) && |r| == |t| &&
      forall i | 0 <= i < |t| :: if i == n then Instructs(fm, t[i], r[i]) else r[i] == t[i]
  }

  lemma {:induction false} ModifyStrictInstructs(fm: FlowMod, t: Table)
    ensures FirstInstructed(fm, t, ModifyStrictIn(t, MakeEntry(fm)))
  {
    if t == [] {
      assert FirstStrict(fm, t, 0);
    } else {
      StrictSelectionMeaning(fm, t[0]);
      if SelectsStrictly(fm, t[0]) {
        assert FirstStrict(fm, t, 0);
      } else {
        var tail := t[1..];
        ModifyStrictInstructs(fm, tail);
        var r := ModifyStrictIn(tail, MakeEntry(fm));
        var n: nat :| FirstStrict(fm, tail, n) && |r| == |tail| &&
          forall i | 0 <= i < |tail| :: if i == n then Instructs(fm, tail[i], r[i]) else r[i] == tail[i];
        FirstStrictLater(fm, t, n);
        var all := [t[0]] + r;
        forall i | 0 <= i < |t|
          ensures if i == n + 1 then Instructs(fm, t[i], all[i]) else all[i] == t[i]
        {
          if i > 0 {
            assert t[i] == tail[i - 1] && all[i] == r[i - 1];
          }
        }
      }
    }
  }

  /** A strict modify gives its instructions to the first entry it selects, in its place, and only to that. */
  lemma ModifyStrictMeaning(fm: FlowMod, t: Table)
    requires fm.command == ModifyStrict
    ensures Apply(t, fm.command, MakeEntry(fm)).Ok?
    ensures FirstInstructed(fm, t, Apply(t, fm.command, MakeEntry(fm)).value)
  {
    ModifyStrictInstructs(fm, t);
  }
}
