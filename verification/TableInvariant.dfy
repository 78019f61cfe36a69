/** What every run of messages keeps: non-overlapping, well-formed tables in stable priority order. */
module TableInvariant {
  import opened Packets
  import opened FlowEntries
  import opened FlowTables

  predicate WellFormed(e: Entry) {
    WellMasked(e.match_) && DistinctKinds(e.instructions) && e.outPort.None?
  }

  /** No entry of t overlaps e. */
  predicate ClearOf(e: Entry, t: Table) {
    forall x | x in t :: !Overlaps(e, x)
  }

  predicate NonOverlapping(t: Table) {
    forall i, j | 0 <= i < j < |t| :: !Overlaps(t[i], t[j])
  }

  predicate Good(t: Table) {
    (forall e | e in t :: WellFormed(e)) && NonOverlapping(t)
  }

  predicate AllGood(ts: Tables) {
    forall i | 0 <= i < |ts| :: Good(ts[i])
  }

  predicate Sorted(t: Table) {
    forall i, j | 0 <= i < j < |t| :: t[i].priority >= t[j].priority
  }

  predicate AllSorted(ts: Tables) {
    forall i | 0 <= i < |ts| :: Sorted(ts[i])
  }

  function AtPriority(t: Table, p: nat): (r: Table) {
    if t == [] then []
    else (if t[0].priority == p then [t[0]] else []) + AtPriority(t[1..], p)
  }

  /** The entries of t whose match differs from e's. */
  function Others(t: Table, e: Entry): (r: Table) {
    if t == [] then []
    else if SameMatch(e, t[0]) then Others(t[1..], e)
    else [t[0]] + Others(t[1..], e)
  }

  // ---------------------------------------------------------------------------------------------
  // Building blocks
  // ---------------------------------------------------------------------------------------------

  lemma GoodCons(e: Entry, t: Table)
    requires WellFormed(e) && Good(t) && ClearOf(e, t)
    ensures Good([e] + t)
  {
    var r := [e] + t;
    forall i, j | 0 <= i < j < |r| ensures !Overlaps(r[i], r[j]) {
      assert r[j] == t[j - 1];
      if i > 0 {
        assert r[i] == t[i - 1];
      }
    }
  }

  lemma GoodTail(t: Table)
    requires Good(t) && t != []
    ensures Good(t[1..]) && WellFormed(t[0]) && ClearOf(t[0], t[1..])
  {
    forall x | x in t[1..] ensures !Overlaps(t[0], x) {
      var j :| 0 <= j < |t[1..]| && t[1..][j] == x;
      assert x == t[j + 1];
    }
  }

  /** Equal matches overlap, so a good table never holds a priority and match twice. */
  lemma SameMatchOverlaps(a: Entry, b: Entry)
    requires WellMasked(a.match_) && SameMatch(a, b)
    ensures Overlaps(a, b)
  {
    OverlapsIffEqualSharedValues(a, b);
  }

  lemma OthersDoNotOverlap(t: Table, x: Entry, y: Entry)
    requires Good(t) && x in t && y in t && x != y
    ensures !Overlaps(x, y)
  {
    var i :| 0 <= i < |t| && t[i] == x;
    var j :| 0 <= j < |t| && t[j] == y;
    OverlapsIffEqualSharedValues(x, y);
    if i < j {
      assert !Overlaps(t[i], t[j]);
    } else {
      assert !Overlaps(t[j], t[i]);
    }
  }

  lemma NoDuplicateMatch(t: Table, i: nat, j: nat)
    requires Good(t) && i < j < |t|
    ensures !SameMatch(t[i], t[j])
  {
    assert t[i] in t;
    if SameMatch(t[i], t[j]) {
      SameMatchOverlaps(t[i], t[j]);
    }
  }

  lemma OthersOfClear(t: Table, e: Entry)
    requires WellMasked(e.match_) && ClearOf(e, t)
    ensures Others(t, e) == t
  {
    if t != [] {
      if SameMatch(e, t[0]) {
        SameMatchOverlaps(e, t[0]);
      }
      OthersOfClear(t[1..], e);
    }
  }

  lemma OthersMembers(t: Table, e: Entry)
    ensures forall x :: x in Others(t, e) <==> x in t && !SameMatch(e, x)
  {
  }

  lemma OthersGood(t: Table, e: Entry)
    requires Good(t)
    ensures Good(Others(t, e))
  {
    if t != [] {
      GoodTail(t);
      OthersGood(t[1..], e);
      OthersMembers(t[1..], e);
      GoodCons(t[0], Others(t[1..], e));
    }
  }

  // ---------------------------------------------------------------------------------------------
  // Adding
  // ---------------------------------------------------------------------------------------------

  /**
   On a good table an add is refused exactly when some entry overlaps it without having its very
   match, so re-adding a match is never refused; an accepted add replaces that match and nothing else.
   */
  lemma {:induction false} AddMeaning(t: Table, e: Entry)
    requires Good(t) && WellFormed(e)
    ensures AddTo(t, e).Raised? <==> exists x :: x in t && Overlaps(e, x) && !SameMatch(e, x)
    ensures (exists x :: x in t && SameMatch(e, x)) ==> AddTo(t, e).Ok?
    ensures AddTo(t, e).Ok? ==> AddTo(t, e).value == Others(t, e) + [e]
  {
    if t == [] {
    } else if SameMatch(e, t[0]) {
      GoodTail(t);
      assert ClearOf(e, t[1..]);
      OthersOfClear(t[1..], e);
    } else {
      GoodTail(t);
      AddMeaning(t[1..], e);
      if Overlaps(e, t[0]) {
        forall x | x in t ensures !SameMatch(e, x) {
          if x in t[1..] && SameMatch(e, x) {
            OverlapsIffEqualSharedValues(e, t[0]);
            assert Overlaps(t[0], x);
          }
        }
      } else {
        assert forall x :: x in t <==> x == t[0] || x in t[1..];
      }
    }
  }

  lemma AddKeepsGood(t: Table, e: Entry)
    requires Good(t) && WellFormed(e) && AddTo(t, e).Ok?
    ensures Good(AddTo(t, e).value)
  {
    AddMeaning(t, e);
    OthersGood(t, e);
    OthersMembers(t, e);
    var o := Others(t, e);
    forall x | x in o ensures !Overlaps(x, e) {
      OverlapsIffEqualSharedValues(x, e);
    }
    assert forall i | 0 <= i < |o| :: o[i] in o;
  }

  // ---------------------------------------------------------------------------------------------
  // Deleting and modifying
  // ---------------------------------------------------------------------------------------------

  lemma UnselectedMembers(t: Table, request: Entry)
    ensures forall x :: x in Unselected(t, request) <==> x in t && !FteMatches(request, x)
  {
  }

  lemma UnselectedGood(t: Table, request: Entry)
    requires Good(t)
    ensures Good(Unselected(t, request))
  {
    if t != [] {
      GoodTail(t);
      UnselectedGood(t[1..], request);
      UnselectedMembers(t[1..], request);
      if !FteMatches(request, t[0]) {
        GoodCons(t[0], Unselected(t[1..], request));
      }
    }
  }

  lemma DeleteStrictGood(t: Table, request: Entry)
    requires Good(t)
    ensures Good(DeleteStrictFrom(t, request))
    ensures forall x | x in DeleteStrictFrom(t, request) :: x in t
  {
    if t != [] {
      GoodTail(t);
      DeleteStrictGood(t[1..], request);
      if !StrictMatches(request, t[0]) {
        GoodCons(t[0], DeleteStrictFrom(t[1..], request));
      }
    }
  }

  /** Overlap looks at priority and match only, so changing instructions cannot create one. */
  lemma SameMatchesGood(t: Table, r: Table)
    requires Good(t) && |r| == |t|
    requires forall i | 0 <= i < |t| :: SameMatch(t[i], r[i]) && WellFormed(r[i])
    ensures Good(r)
  {
    forall i, j | 0 <= i < j < |r| ensures !Overlaps(r[i], r[j]) {
      assert !Overlaps(t[i], t[j]);
    }
  }

  lemma ModifyStrictShape(t: Table, request: Entry)
    ensures |ModifyStrictIn(t, request)| == |t|
    ensures forall i | 0 <= i < |t| ::
              var x := ModifyStrictIn(t, request)[i];
              x == t[i] || x == t[i].(instructions := request.instructions)
  {
  }

  lemma ApplyKeepsGood(t: Table, command: Command, e: Entry)
    requires Good(t) && WellMasked(e.match_) && DistinctKinds(e.instructions)
    requires command == Add ==> e.outPort.None?
    ensures Apply(t, command, e).Ok? ==> Good(Apply(t, command, e).value)
  {
    assert forall i | 0 <= i < |t| :: t[i] in t;
    match command
    case Add => if AddTo(t, e).Ok? { AddKeepsGood(t, e); }
    case Delete => UnselectedGood(t, e);
    case DeleteStrict => DeleteStrictGood(t, e);
    case Modify => SameMatchesGood(t, ModifyIn(t, e));
    case ModifyStrict =>
      ModifyStrictShape(t, e);
      SameMatchesGood(t, ModifyStrictIn(t, e));
  }

  // ---------------------------------------------------------------------------------------------
  // Sorting
  // ---------------------------------------------------------------------------------------------

  lemma InsertBehind(e: Entry, t: Table)
    requires t != [] && e.priority < t[0].priority
    ensures Insert(e, t) == [t[0]] + Insert(e, t[1..]) && t == [t[0]] + t[1..]
  {
  }

  lemma {:induction false} InsertMultiset(e: Entry, t: Table)
    ensures multiset(Insert(e, t)) == multiset{e} + multiset(t)
  {
    if t != [] && e.priority < t[0].priority {
      InsertBehind(e, t);
      InsertMultiset(e, t[1..]);
      assert multiset([t[0]] + t[1..]) == multiset{t[0]} + multiset(t[1..]);
    }
  }

  lemma InsertMembers(e: Entry, t: Table)
    ensures forall x :: x in Insert(e, t) <==> x == e || x in t
  {
    InsertMultiset(e, t);
    forall x ensures x in Insert(e, t) <==> x == e || x in t {
      assert x in Insert(e, t) <==> x in multiset(Insert(e, t));
      assert x in t <==> x in multiset(t);
    }
  }

  lemma InsertSorted(e: Entry, t: Table)
    requires Sorted(t)
    ensures Sorted(Insert(e, t))
  {
    if t != [] && e.priority < t[0].priority {
      InsertSorted(e, t[1..]);
      InsertMembers(e, t[1..]);
      var rest := Insert(e, t[1..]);
      forall i | 0 <= i < |rest| ensures rest[i].priority <= t[0].priority {
        assert rest[i] in rest;
      }
    }
  }

  lemma AtPriorityCons(e: Entry, t: Table, p: nat)
    ensures AtPriority([e] + t, p) == (if e.priority == p then [e] else []) + AtPriority(t, p)
  {
    assert ([e] + t)[1..] == t;
  }

  lemma {:induction false} InsertStable(e: Entry, t: Table, p: nat)
    ensures AtPriority(Insert(e, t), p) == AtPriority([e] + t, p)
  {
    if t != [] && e.priority < t[0].priority {
      var tail := t[1..];
      InsertBehind(e, t);
      InsertStable(e, tail, p);
      AtPriorityCons(t[0], Insert(e, tail), p);
      AtPriorityCons(e, tail, p);
      AtPriorityCons(t[0], tail, p);
      AtPriorityCons(e, t, p);
      if e.priority == p {
        assert AtPriority(t, p) == [] + AtPriority(tail, p) == AtPriority(tail, p);
      } else {
        assert AtPriority([e] + tail, p) == [] + AtPriority(tail, p) == AtPriority(tail, p);
      }
    }
  }

  /** The result is in descending priority, and each priority keeps its entries in their old order. */
  lemma {:induction false} SortProperties(t: Table)
    ensures Sorted(Sort(t))
    ensures multiset(Sort(t)) == multiset(t)
    ensures forall p :: AtPriority(Sort(t), p) == AtPriority(t, p)
  {
    if t != [] {
      var tail := t[1..];
      SortProperties(tail);
      InsertSorted(t[0], Sort(tail));
      InsertMultiset(t[0], Sort(tail));
      assert t == [t[0]] + tail;
      forall p ensures AtPriority(Sort(t), p) == AtPriority(t, p) {
        InsertStable(t[0], Sort(tail), p);
        AtPriorityCons(t[0], Sort(tail), p);
        AtPriorityCons(t[0], tail, p);
      }
    }
  }

  lemma AtPriorityNonempty(t: Table, e: Entry)
    requires e in t
    ensures AtPriority(t, e.priority) != []
  {
  }

  lemma AtPriorityMembers(t: Table, p: nat)
    ensures forall x | x in AtPriority(t, p) :: x in t && x.priority == p
  {
  }

  lemma SortedHead(t: Table)
    requires Sorted(t) && t != []
    ensures AtPriority(t, t[0].priority) == [t[0]] + AtPriority(t[1..], t[0].priority)
    ensures forall x | x in t :: x.priority <= t[0].priority
    ensures Sorted(t[1..])
  {
  }

  lemma SameSuffix(h: Table, a: Table, b: Table)
    requires h + a == h + b
    ensures a == b
  {
    assert a == (h + a)[|h|..] && b == (h + b)[|h|..];
  }

  predicate SameAt(r: Table, s: Table, p: nat) {
    AtPriority(r, p) == AtPriority(s, p)
  }

  lemma SameFirst(r: Table, s: Table)
    requires Sorted(r) && Sorted(s) && r != [] && s != []
    requires forall p :: SameAt(r, s, p)
    ensures r[0] == s[0]
  {
    SortedHead(r);
    SortedHead(s);
    assert SameAt(r, s, r[0].priority) && SameAt(r, s, s[0].priority);
    FirstNotLower(r, s);
    FirstNotLower(s, r);
    assert AtPriority(r, r[0].priority)[0] == r[0] && AtPriority(s, s[0].priority)[0] == s[0];
  }

  lemma FirstNotLower(r: Table, s: Table)
    requires Sorted(s) && r != [] && s != []
    requires SameAt(r, s, r[0].priority)
    ensures s[0].priority >= r[0].priority
  {
    AtPriorityNonempty(r, r[0]);
    var w := AtPriority(s, r[0].priority)[0];
    assert w in AtPriority(s, r[0].priority);
    AtPriorityMembers(s, r[0].priority);
    SortedHead(s);
  }

  lemma SameRest(r: Table, s: Table, p: nat)
    requires r != [] && s != [] && r[0] == s[0] && SameAt(r, s, p)
    ensures SameAt(r[1..], s[1..], p)
  {
    assert r == [r[0]] + r[1..] && s == [s[0]] + s[1..];
    AtPriorityCons(r[0], r[1..], p);
    AtPriorityCons(s[0], s[1..], p);
    SameSuffix(if r[0].priority == p then [r[0]] else [], AtPriority(r[1..], p), AtPriority(s[1..], p));
  }

  lemma EmptyTwin(r: Table, s: Table)
    requires r == [] && forall p :: SameAt(r, s, p)
    ensures s == []
  {
    var p := if s == [] then 0 else s[0].priority;
    assert SameAt(r, s, p);
  }

  /** Any stable descending order of t is the one computed: the sort is fully determined. */
  lemma {:induction false} StableOrderIsUnique(r: Table, s: Table)
    requires Sorted(r) && Sorted(s)
    requires forall p :: SameAt(r, s, p)
    ensures r == s
    decreases |r|
  {
    if r == [] {
      EmptyTwin(r, s);
    } else if s == [] {
      forall p ensures SameAt(s, r, p) {
        assert SameAt(r, s, p);
      }
      EmptyTwin(s, r);
    } else {
      SameFirst(r, s);
      SortedHead(r);
      SortedHead(s);
      var rest, other := r[1..], s[1..];
      forall p ensures SameAt(rest, other, p) {
        SameRest(r, s, p);
      }
      StableOrderIsUnique(rest, other);
      assert r == [r[0]] + rest && s == [s[0]] + other;
    }
  }

  lemma InsertGood(e: Entry, t: Table)
    requires WellFormed(e) && Good(t) && ClearOf(e, t)
    ensures Good(Insert(e, t))
    ensures forall x :: x in Insert(e, t) <==> x == e || x in t
  {
    if t == [] || e.priority >= t[0].priority {
      GoodCons(e, t);
    } else {
      GoodTail(t);
      InsertGood(e, t[1..]);
      OverlapsIffEqualSharedValues(e, t[0]);
      GoodCons(t[0], Insert(e, t[1..]));
      assert forall x :: x in t <==> x == t[0] || x in t[1..];
    }
  }

  lemma SortGood(t: Table)
    requires Good(t)
    ensures Good(Sort(t))
    ensures forall x :: x in Sort(t) <==> x in t
  {
    if t != [] {
      GoodTail(t);
      SortGood(t[1..]);
      InsertGood(t[0], Sort(t[1..]));
      assert forall x :: x in t <==> x == t[0] || x in t[1..];
    }
  }

  // ---------------------------------------------------------------------------------------------
  // Whole runs
  // ---------------------------------------------------------------------------------------------

  lemma ApplyRangeKeepsGood(ts: Tables, from: nat, upto: nat, command: Command, e: Entry)
    requires from <= upto <= |ts| && AllGood(ts)
    requires WellMasked(e.match_) && DistinctKinds(e.instructions)
    requires command == Add ==> e.outPort.None?
    ensures AllGood(ApplyRange(ts, from, upto, command, e).0)
    decreases upto - from
  {
    if from < upto {
      ApplyKeepsGood(ts[from], command, e);
      match Apply(ts[from], command, e)
      case Ok(t) => ApplyRangeKeepsGood(ts[from := t], from + 1, upto, command, e);
      case Raised =>
    }
  }

  lemma StepKeepsGood(s: Switch, msg: OfMsg)
    requires AllGood(s.tables)
    ensures AllGood(Step(s, msg).0.tables)
    ensures msg.Flow? && Step(s, msg).1 == Accepted ==> AllSorted(Step(s, msg).0.tables)
  {
    if msg.Flow? && !(msg.mod.target.One? && msg.mod.target.id >= |s.tables|) &&
       DistinctKinds(msg.mod.instructions) {
      var fm := msg.mod;
      var from := if fm.target.One? then fm.target.id else 0;
      var upto := if fm.target.One? then fm.target.id + 1 else |s.tables|;
      ApplyRangeKeepsGood(s.tables, from, upto, fm.command, MakeEntry(fm));
      var ts := ApplyFlowMod(s.tables, fm).0;
      forall i | 0 <= i < |ts| ensures Good(Sort(ts[i])) && Sorted(Sort(ts[i])) {
        SortGood(ts[i]);
        SortProperties(ts[i]);
      }
    }
  }

  /** Every run, errors ignored or not, keeps every table well formed and free of overlaps. */
  lemma {:induction false} RunKeepsGood(s: Switch, msgs: seq<OfMsg>, ignoreErrors: bool)
    requires AllGood(s.tables)
    ensures AllGood(Run(s, msgs, ignoreErrors).0.tables)
    decreases |msgs|
  {
    if msgs != [] {
      StepKeepsGood(s, msgs[0]);
      var (s', status) := Step(s, msgs[0]);
      if !Stops(status, ignoreErrors) {
        RunKeepsGood(s', msgs[1..], ignoreErrors);
      }
    }
  }

  /** From empty tables on, no table ever holds two entries of equal priority and match. */
  lemma RunFromEmpty(numTables: nat, msgs: seq<OfMsg>, ignoreErrors: bool, id: TableId, i: nat, j: nat)
    ensures
      var ts := Run(Switch(seq(numTables, _ => []), map[]), msgs, ignoreErrors).0.tables;
      id < |ts| && i < j < |ts[id]| ==>
        !Overlaps(ts[id][i], ts[id][j]) && !SameMatch(ts[id][i], ts[id][j])
  {
    var s := Switch(seq(numTables, _ => []), map[]);
    RunKeepsGood(s, msgs, ignoreErrors);
    var ts := Run(s, msgs, ignoreErrors).0.tables;
    if id < |ts| && i < j < |ts[id]| {
      NoDuplicateMatch(ts[id], i, j);
    }
  }

  // ---------------------------------------------------------------------------------------------
  // When the order survives a refusal
  // ---------------------------------------------------------------------------------------------

  /** A message that can be refused half way: only an add aimed at every table is. */
  predicate AddToEveryTable(msg: OfMsg) {
    msg.Flow? && msg.mod.command == Add && msg.mod.target.AllTables?
  }

  /** The add is refused by table r, after tables 0..r-1 took it. */
  predicate FirstRefusal(ts: Tables, e: Entry, r: nat) {
    r < |ts| && AddTo(ts[r], e).Raised? && forall id | 0 <= id < r :: AddTo(ts[id], e).Ok?
  }

  /** Every entry of another match has at least the priority of e. */
  predicate FitsAtEnd(t: Table, e: Entry) {
    forall x | x in t && !SameMatch(e, x) :: x.priority >= e.priority
  }

  /** If this is an add to every table that some table refuses, the tables before that one have e fit at their end. */
  predicate KeepsOrder(s: Switch, msg: OfMsg) {
    AddToEveryTable(msg) && DistinctKinds(msg.mod.instructions) ==>
      forall r, id | 0 <= id < r < |s.tables| && FirstRefusal(s.tables, MakeEntry(msg.mod), r) ::
        FitsAtEnd(s.tables[id], MakeEntry(msg.mod))
  }

  lemma RangeOfOthersNeverRefused(ts: Tables, from: nat, upto: nat, command: Command, e: Entry)
    requires from <= upto <= |ts| && command != Add
    ensures ApplyRange(ts, from, upto, command, e).1 == Accepted
    decreases upto - from
  {
  }

  lemma RefusedRangeOfOne(ts: Tables, id: TableId, command: Command, e: Entry)
    requires id < |ts|
    ensures
      var (ts', status) := ApplyRange(ts, id, id + 1, command, e);
      status == Accepted || (status == Refused && ts' == ts)
  {
  }

  /** Appending keeps the order exactly when the entry fits at the end. */
  lemma AddedSortedIff(t: Table, e: Entry)
    requires Good(t) && Sorted(t) && WellFormed(e) && AddTo(t, e).Ok?
    ensures Sorted(AddTo(t, e).value) <==> FitsAtEnd(t, e)
  {
    AddMeaning(t, e);
    OthersSorted(t, e);
    OthersMembers(t, e);
    var o := Others(t, e);
    forall x | x in o && Sorted(o + [e]) ensures x.priority >= e.priority {
      var i :| 0 <= i < |o| && o[i] == x;
      assert (o + [e])[i] == x && (o + [e])[|o|] == e;
    }
    assert forall i | 0 <= i < |o| :: o[i] in o;
  }

  lemma OthersSorted(t: Table, e: Entry)
    requires Sorted(t)
    ensures Sorted(Others(t, e))
  {
    if t != [] {
      SortedHead(t);
      OthersSorted(t[1..], e);
      OthersMembers(t[1..], e);
      var rest := Others(t[1..], e);
      assert forall i | 0 <= i < |rest| :: rest[i] in rest;
    }
  }

  /** A request that no table refuses takes effect on every table of its range. */
  lemma RangeIsTablewise(ts: Tables, from: nat, upto: nat, command: Command, e: Entry)
    requires from <= upto <= |ts|
    requires forall id | from <= id < upto :: Apply(ts[id], command, e).Ok?
    ensures
      var (r, status) := ApplyRange(ts, from, upto, command, e);
      status == Accepted && |r| == |ts| &&
      forall id | 0 <= id < |ts| ::
        r[id] == if from <= id < upto then Apply(ts[id], command, e).value else ts[id]
    decreases upto - from
  {
    if from < upto {
      var ts' := ts[from := Apply(ts[from], command, e).value];
      RangeIsTablewise(ts', from + 1, upto, command, e);
    }
  }

  /** A refused add keeps what the tables before the refusal became. */
  lemma RefusedRange(ts: Tables, from: nat, e: Entry, r: nat)
    requires from <= r < |ts| && AddTo(ts[r], e).Raised? && forall id | from <= id < r :: AddTo(ts[id], e).Ok?
    ensures
      var (ts', status) := ApplyRange(ts, from, |ts|, Add, e);
      status == Refused && |ts'| == |ts| &&
      forall id | 0 <= id < |ts| :: ts'[id] == if from <= id < r then AddTo(ts[id], e).value else ts[id]
    decreases r - from
  {
    if from < r {
      RefusedRange(ts[from := AddTo(ts[from], e).value], from + 1, e, r);
    }
  }

  lemma {:induction false} FirstRefusalExists(ts: Tables, e: Entry, r: nat)
    requires r < |ts| && AddTo(ts[r], e).Raised?
    ensures exists f: nat :: FirstRefusal(ts, e, f)
    decreases r
  {
    if q: nat :| q < r && AddTo(ts[q], e).Raised? {
      FirstRefusalExists(ts, e, q);
    } else {
      assert FirstRefusal(ts, e, r);
    }
  }

  /**
   On good sorted tables a message leaves every table sorted exactly when it keeps the order; only a
   refused add to every table may not.
   */
  lemma StepSortedIff(s: Switch, msg: OfMsg)
    requires AllGood(s.tables) && AllSorted(s.tables)
    ensures AllSorted(Step(s, msg).0.tables) <==> KeepsOrder(s, msg)
    ensures Step(s, msg).1 == Accepted ==> KeepsOrder(s, msg)
    ensures !AddToEveryTable(msg) && Step(s, msg).1 != Accepted ==> Step(s, msg).0.tables == s.tables
  {
    if AddToEveryTable(msg) && DistinctKinds(msg.mod.instructions) {
      AddToAllSortedIff(s, msg);
    } else if msg.Flow? && msg.mod.target.One? && msg.mod.target.id < |s.tables| {
      RefusedRangeOfOne(s.tables, msg.mod.target.id, msg.mod.command, MakeEntry(msg.mod));
      SortsAll(s, msg);
    } else if msg.Flow? {
      if msg.mod.command != Add {
        RangeOfOthersNeverRefused(s.tables, 0, |s.tables|, msg.mod.command, MakeEntry(msg.mod));
      }
      SortsAll(s, msg);
    }
  }

  lemma SortsAll(s: Switch, msg: OfMsg)
    requires AllGood(s.tables) && msg.Flow?
    ensures Step(s, msg).1 == Accepted ==> AllSorted(Step(s, msg).0.tables)
  {
    var ts := ApplyFlowMod(s.tables, msg.mod).0;
    forall i | 0 <= i < |ts| ensures Sorted(Sort(ts[i])) {
      SortProperties(ts[i]);
    }
  }

  lemma AddToAllSortedIff(s: Switch, msg: OfMsg)
    requires AllGood(s.tables) && AllSorted(s.tables)
    requires AddToEveryTable(msg) && DistinctKinds(msg.mod.instructions)
    ensures AllSorted(Step(s, msg).0.tables) <==> KeepsOrder(s, msg)
    ensures Step(s, msg).1 == Accepted ==> KeepsOrder(s, msg)
  {
    var ts, e := s.tables, MakeEntry(msg.mod);
    if r: nat :| FirstRefusal(ts, e, r) {
      RefusedRange(ts, 0, e, r);
      assert forall q: nat | FirstRefusal(ts, e, q) :: q == r;
      forall id | 0 <= id < r ensures Sorted(AddTo(ts[id], e).value) <==> FitsAtEnd(ts[id], e) {
        AddedSortedIff(ts[id], e);
      }
    } else {
      forall id | 0 <= id < |ts| ensures AddTo(ts[id], e).Ok? {
        if AddTo(ts[id], e).Raised? {
          FirstRefusalExists(ts, e, id);
        }
      }
      RangeIsTablewise(ts, 0, |ts|, Add, e);
      SortsAll(s, msg);
    }
  }

  /** Every state a run passes through has sorted tables. */
  ghost predicate AlwaysSorted(s: Switch, msgs: seq<OfMsg>, ignoreErrors: bool)
    decreases |msgs|
  {
    AllSorted(s.tables) &&
    (msgs != [] ==>
      var (s', status) := Step(s, msgs[0]);
      AlwaysSorted(s', if Stops(status, ignoreErrors) then [] else msgs[1..], ignoreErrors))
  }

  /** Every message a run gets to keeps the order. */
  ghost predicate AlwaysKeepsOrder(s: Switch, msgs: seq<OfMsg>, ignoreErrors: bool)
    decreases |msgs|
  {
    msgs != [] ==>
      var (s', status) := Step(s, msgs[0]);
      KeepsOrder(s, msgs[0]) && (!Stops(status, ignoreErrors) ==> AlwaysKeepsOrder(s', msgs[1..], ignoreErrors))
  }

  /** Tables are in priority order all through a run exactly when no refused add to every table disturbs it. */
  lemma {:induction false} RunSortedIff(s: Switch, msgs: seq<OfMsg>, ignoreErrors: bool)
    requires AllGood(s.tables) && AllSorted(s.tables)
    ensures AlwaysSorted(s, msgs, ignoreErrors) <==> AlwaysKeepsOrder(s, msgs, ignoreErrors)
    decreases |msgs|
  {
    if msgs != [] {
      StepKeepsGood(s, msgs[0]);
      StepSortedIff(s, msgs[0]);
      var (s', status) := Step(s, msgs[0]);
      if AllSorted(s'.tables) && !Stops(status, ignoreErrors) {
        RunSortedIff(s', msgs[1..], ignoreErrors);
      }
    }
  }

  lemma {:induction false} RunKeepsSorted(s: Switch, msgs: seq<OfMsg>, ignoreErrors: bool)
    requires AllGood(s.tables) && AllSorted(s.tables) && AlwaysKeepsOrder(s, msgs, ignoreErrors)
    ensures AllSorted(Run(s, msgs, ignoreErrors).0.tables)
    decreases |msgs|
  {
    if msgs != [] {
      StepKeepsGood(s, msgs[0]);
      StepSortedIff(s, msgs[0]);
      var (s', status) := Step(s, msgs[0]);
      if !Stops(status, ignoreErrors) {
        RunKeepsSorted(s', msgs[1..], ignoreErrors);
      }
    }
  }

  /** An add to every table that the second table refuses leaves the first one out of order. */
  lemma RefusedAddLeavesDisorder(f: Field, g: Field)
    requires f != g
    ensures
      var low := Entry(1, map[], [], None);
      var clash := Entry(5, map[f := FieldMatch({0}, {0})], [], None);
      var add := FlowMod(Add, AllTables, 5, map[g := FieldMatch({0}, {0})], [], None);
      var s := Switch([[low], [clash]], map[]);
      AllGood(s.tables) && AllSorted(s.tables) &&
      Step(s, Flow(add)).1 == Refused && !AllSorted(Step(s, Flow(add)).0.tables)
  {
    var low := Entry(1, map[], [], None);
    var clash := Entry(5, map[f := FieldMatch({0}, {0})], [], None);
    var add := FlowMod(Add, AllTables, 5, map[g := FieldMatch({0}, {0})], [], None);
    var e := MakeEntry(add);
    var ts: Tables := [[low], [clash]];
    assert [low][1..] == [];
    assert AddTo([], e) == Ok([e]);
    assert [low] + [e] == [low, e];
    assert AddTo(ts[0], e) == Ok([low, e]);
    assert g in e.match_ && g !in clash.match_;
    assert Overlaps(e, clash);
    assert AddTo([clash], e) == Raised;
    var ts': Tables := ts[0 := [low, e]];
    assert ts'[1] == [clash];
    assert ApplyRange(ts', 1, 2, Add, e) == (ts', Refused);
    assert ApplyRange(ts, 0, 2, Add, e) == (ts', Refused);
    assert ts'[0][0].priority < ts'[0][1].priority;
  }
}
