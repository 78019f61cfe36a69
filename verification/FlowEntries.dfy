/**
 Flow mods and the predicates that compare them: which packets an entry matches, when two entries
 overlap and which entries a delete or modify request selects.
 */
module FlowEntries {
  import opened Packets

  datatype FieldMatch = FieldMatch(value: Word, mask: Word)

  type Match = map<Field, FieldMatch>

  // A FlowMod object: both a request and the table entry it leaves behind.
  datatype Entry = Entry(
    priority: nat,
    match_: Match,
    instructions: seq<Instruction>,
    outPort: Option<PortNo>)

  /** Values carry no bit outside their mask, as the constructor leaves them. */
  predicate WellMasked(m: Match) {
    forall k | k in m :: m[k].value * m[k].mask == m[k].value
  }

  predicate PktMatches(e: Entry, pkt: Packet) {
    forall k | k in e.match_ ::
      k in pkt && pkt[k] * e.match_[k].mask == e.match_[k].value * e.match_[k].mask
  }

  predicate SameMatch(a: Entry, b: Entry) {
    a.priority == b.priority && a.match_ == b.match_
  }

  predicate OutputsTo(instructions: seq<Instruction>, port: PortNo) {
    exists i | 0 <= i < |instructions| ::
      instructions[i].ApplyActions? && Output(port) in instructions[i].actions
  }

  predicate OutPortMatches(request: Entry, e: Entry) {
    request.outPort.Some? ==> OutputsTo(e.instructions, request.outPort.value)
  }

  predicate StrictMatches(request: Entry, e: Entry) {
    OutPortMatches(request, e) && SameMatch(request, e)
  }

  /** The code's non-strict field test: only the request's masks are applied. */
  predicate FieldsSelect(request: Match, m: Match) {
    forall k | k in request :: k in m && m[k].value * request[k].mask == request[k].value
  }

  predicate FteMatches(request: Entry, e: Entry) {
    OutPortMatches(request, e) && FieldsSelect(request.match_, e.match_)
  }

  predicate Overlaps(a: Entry, b: Entry) {
    a.priority == b.priority &&
    forall k | k in a.match_ && k in b.match_ ::
      && a.match_[k].value * b.match_[k].mask == b.match_[k].value
      && b.match_[k].value * a.match_[k].mask == a.match_[k].value
  }

  // ---------------------------------------------------------------------------------------------
  // What the overlap test means
  // ---------------------------------------------------------------------------------------------

  /** The specification's notion: one packet may match both, at the same priority. */
  ghost predicate ShareAPacket(a: Entry, b: Entry) {
    a.priority == b.priority && exists pkt: Packet :: PktMatches(a, pkt) && PktMatches(b, pkt)
  }

  predicate AgreeOnCommonBits(a: Match, b: Match) {
    forall k | k in a && k in b :: a[k].value * b[k].mask == b[k].value * a[k].mask
  }

  predicate EqualSharedValues(a: Match, b: Match) {
    forall k | k in a && k in b :: a[k].value == b[k].value
  }

  predicate EqualSharedMasks(a: Match, b: Match) {
    forall k | k in a && k in b :: a[k].mask == b[k].mask
  }

  lemma JoinValues(va: Word, ma: Word, vb: Word, mb: Word)
    requires va * ma == va && vb * mb == vb
    requires va * mb == vb * ma
    ensures (va + vb) * ma == va * ma && (va + vb) * mb == vb * mb
  {
    forall b | b in (va + vb) * ma ensures b in va * ma {
      if b in vb { assert b in vb * ma; }
    }
    forall b | b in (va + vb) * mb ensures b in vb * mb {
      if b in va { assert b in va * mb; }
    }
  }

  lemma SharedPacketBits(w: Word, va: Word, ma: Word, vb: Word, mb: Word)
    requires va * ma == va && vb * mb == vb
    requires w * ma == va * ma && w * mb == vb * mb
    ensures va * mb == vb * ma
  {}

  lemma MutualMaskingIsEquality(va: Word, ma: Word, vb: Word, mb: Word)
    requires va * ma == va && vb * mb == vb
    ensures va * mb == vb && vb * ma == va <==> va == vb
  {}

  function ValueOr0(m: Match, k: Field): (r: Word) {
    if k in m then m[k].value else {}
  }

  /** The packet built from both entries' value bits: a witness that they meet. */
  function Joined(a: Match, b: Match): (r: Packet) {
    map k | k in a.Keys + b.Keys :: ValueOr0(a, k) + ValueOr0(b, k)
  }

  lemma JoinedMatches(a: Entry, b: Entry)
    requires WellMasked(a.match_) && WellMasked(b.match_)
    requires AgreeOnCommonBits(a.match_, b.match_)
    ensures PktMatches(a, Joined(a.match_, b.match_)) && PktMatches(b, Joined(a.match_, b.match_))
  {
    var pkt := Joined(a.match_, b.match_);
    forall k | k in a.match_.Keys + b.match_.Keys
      ensures k in a.match_ ==> pkt[k] * a.match_[k].mask == a.match_[k].value * a.match_[k].mask
      ensures k in b.match_ ==> pkt[k] * b.match_[k].mask == b.match_[k].value * b.match_[k].mask
    {
      if k in a.match_ && k in b.match_ {
        JoinValues(a.match_[k].value, a.match_[k].mask, b.match_[k].value, b.match_[k].mask);
      }
    }
  }

  lemma ShareAPacketIff(a: Entry, b: Entry)
    requires WellMasked(a.match_) && WellMasked(b.match_)
    ensures ShareAPacket(a, b) <==> a.priority == b.priority && AgreeOnCommonBits(a.match_, b.match_)
  {
    if ShareAPacket(a, b) {
      var pkt: Packet :| PktMatches(a, pkt) && PktMatches(b, pkt);
      forall k | k in a.match_ && k in b.match_
        ensures a.match_[k].value * b.match_[k].mask == b.match_[k].value * a.match_[k].mask
      {
        SharedPacketBits(pkt[k], a.match_[k].value, a.match_[k].mask, b.match_[k].value, b.match_[k].mask);
      }
    }
    if a.priority == b.priority && AgreeOnCommonBits(a.match_, b.match_) {
      JoinedMatches(a, b);
    }
  }

  /** The two-way masking in the code amounts to plain equality of the shared fields' values. */
  lemma OverlapsIffEqualSharedValues(a: Entry, b: Entry)
    requires WellMasked(a.match_) && WellMasked(b.match_)
    ensures Overlaps(a, b) <==> a.priority == b.priority && EqualSharedValues(a.match_, b.match_)
    ensures Overlaps(a, b) <==> Overlaps(b, a)
  {
    forall k | k in a.match_ && k in b.match_
      ensures a.match_[k].value * b.match_[k].mask == b.match_[k].value &&
              b.match_[k].value * a.match_[k].mask == a.match_[k].value <==>
              a.match_[k].value == b.match_[k].value
    {
      MutualMaskingIsEquality(a.match_[k].value, a.match_[k].mask, b.match_[k].value, b.match_[k].mask);
    }
  }

  /**
   A reported overlap is always real.  A real overlap goes unreported exactly when the entries agree
   on every commonly masked bit although some shared field carries different values, which takes
   different masks on that field.
   */
  lemma OverlapTestMeaning(a: Entry, b: Entry)
    requires WellMasked(a.match_) && WellMasked(b.match_)
    ensures Overlaps(a, b) ==> ShareAPacket(a, b)
    ensures ShareAPacket(a, b) && !Overlaps(a, b) <==>
            a.priority == b.priority && AgreeOnCommonBits(a.match_, b.match_) &&
            !EqualSharedValues(a.match_, b.match_)
    ensures EqualSharedMasks(a.match_, b.match_) ==> (Overlaps(a, b) <==> ShareAPacket(a, b))
  {
    ShareAPacketIff(a, b);
    OverlapsIffEqualSharedValues(a, b);
  }

  /** 10.0.0.0/8 and 10.1.0.0/16 at one priority: packets match both, yet no overlap is reported. */
  lemma NestedPrefixesAreNotReported(priority: nat, dst: Field)
    ensures
      var wide := Entry(priority, map[dst := FieldMatch({25, 27}, BitRange(24, 32))], [], None);
      var narrow := Entry(priority, map[dst := FieldMatch({16, 25, 27}, BitRange(16, 32))], [], None);
      WellMasked(wide.match_) && WellMasked(narrow.match_) &&
      ShareAPacket(wide, narrow) && !Overlaps(wide, narrow)
  {
    var wide := Entry(priority, map[dst := FieldMatch({25, 27}, BitRange(24, 32))], [], None);
    var narrow := Entry(priority, map[dst := FieldMatch({16, 25, 27}, BitRange(16, 32))], [], None);
    assert dst in wide.match_ && dst in narrow.match_;
    OverlapTestMeaning(wide, narrow);
  }

  // ---------------------------------------------------------------------------------------------
  // What a non-strict request selects
  // ---------------------------------------------------------------------------------------------

  /** The specification's notion: every packet of the entry is a packet of the request. */
  ghost predicate Subsumes(request: Entry, e: Entry) {
    forall pkt: Packet :: PktMatches(e, pkt) ==> PktMatches(request, pkt)
  }

  predicate MasksContained(request: Match, m: Match) {
    forall k | k in request && k in m :: request[k].mask * m[k].mask == request[k].mask
  }

  lemma ForcedBits(ve: Word, me: Word, vf: Word, mf: Word)
    requires ve * me == ve && vf * mf == vf
    requires ve * mf == vf * mf && (ve + (mf - me)) * mf == vf * mf
    ensures ve * mf == vf && mf * me == mf
  {
    forall b | b in mf ensures b in me {
      assert b in (ve + (mf - me)) * mf <==> b in ve || b !in me;
      assert b in ve <==> b in ve * mf;
    }
  }

  lemma SlackBits(ve: Word, me: Word, mf: Word)
    requires ve * me == ve
    ensures (ve + (mf - me)) * me == ve * me
  {}

  lemma ContainedMaskBits(w: Word, ve: Word, me: Word, vf: Word, mf: Word)
    requires ve * me == ve && vf * mf == vf && mf * me == mf
    requires ve * mf == vf && w * me == ve * me
    ensures w * mf == vf * mf
  {}

  /** The entry's own values, with every bit of field k that only the request looks at switched on. */
  function Stretched(request: Match, m: Match, k: Field): (r: Packet)
    requires k in request && k in m
  {
    map f | f in m :: if f == k then m[k].value + (request[k].mask - m[k].mask) else m[f].value
  }

  lemma StretchedMatches(request: Entry, e: Entry, k: Field)
    requires WellMasked(e.match_) && k in request.match_ && k in e.match_
    ensures PktMatches(e, Stretched(request.match_, e.match_, k))
  {
    SlackBits(e.match_[k].value, e.match_[k].mask, request.match_[k].mask);
  }

  lemma SubsumesForcesFields(request: Entry, e: Entry)
    requires WellMasked(request.match_) && WellMasked(e.match_) && Subsumes(request, e)
    ensures FieldsSelect(request.match_, e.match_) && MasksContained(request.match_, e.match_)
  {
    var own: Packet := map f | f in e.match_ :: e.match_[f].value;
    assert PktMatches(e, own);
    assert PktMatches(request, own);
    forall k | k in request.match_
      ensures k in e.match_ &&
              e.match_[k].value * request.match_[k].mask == request.match_[k].value &&
              request.match_[k].mask * e.match_[k].mask == request.match_[k].mask
    {
      StretchedMatches(request, e, k);
      assert PktMatches(request, Stretched(request.match_, e.match_, k));
      ForcedBits(e.match_[k].value, e.match_[k].mask, request.match_[k].value, request.match_[k].mask);
    }
  }

  lemma FieldsForceSubsumes(request: Entry, e: Entry)
    requires WellMasked(request.match_) && WellMasked(e.match_)
    requires FieldsSelect(request.match_, e.match_) && MasksContained(request.match_, e.match_)
    ensures Subsumes(request, e)
  {
    forall pkt: Packet | PktMatches(e, pkt) ensures PktMatches(request, pkt) {
      forall k | k in request.match_
        ensures k in pkt &&
                pkt[k] * request.match_[k].mask == request.match_[k].value * request.match_[k].mask
      {
        ContainedMaskBits(pkt[k], e.match_[k].value, e.match_[k].mask,
                          request.match_[k].value, request.match_[k].mask);
      }
    }
  }

  /**
   Without an out-port filter every entry whose packets all satisfy the request is selected; an entry
   selected beyond those is exactly one on which the request looks at bits the entry leaves open.
   */
  lemma NonStrictSelectionMeaning(request: Entry, e: Entry)
    requires WellMasked(request.match_) && WellMasked(e.match_) && request.outPort.None?
    ensures Subsumes(request, e) <==>
            FteMatches(request, e) && MasksContained(request.match_, e.match_)
  {
    if Subsumes(request, e) {
      SubsumesForcesFields(request, e);
    }
    if FteMatches(request, e) && MasksContained(request.match_, e.match_) {
      FieldsForceSubsumes(request, e);
    }
  }

  /** Deleting 10.0.0.0/16 also selects the wider 10.0.0.0/8, most of whose packets it does not cover. */
  lemma NarrowDeleteSelectsWiderEntry(priority: nat, dst: Field)
    ensures
      var request := Entry(priority, map[dst := FieldMatch({25, 27}, BitRange(16, 32))], [], None);
      var wide := Entry(priority, map[dst := FieldMatch({25, 27}, BitRange(24, 32))], [], None);
      FteMatches(request, wide) && !Subsumes(request, wide)
  {
    var request := Entry(priority, map[dst := FieldMatch({25, 27}, BitRange(16, 32))], [], None);
    var wide := Entry(priority, map[dst := FieldMatch({25, 27}, BitRange(24, 32))], [], None);
    assert dst in request.match_ && dst in wide.match_;
    assert 16 in BitRange(16, 32) && 16 !in BitRange(24, 32);
    NonStrictSelectionMeaning(request, wide);
  }
}
