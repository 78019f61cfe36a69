/** The server that dispenses free TCP ports to tests: a queue, an age for each port, and who holds what. */
module PortServer {
  import opened Packets

  type Port = nat
  type Name = string

  const RESERVED_PORTS: set<Port> := {179, 5001, 5002, 6633, 6653}

  predicate NoDuplicates(q: seq<Port>) {
    forall i, j | 0 <= i < j < |q| :: q[i] != q[j]
  }

  /** A bound port that get_port keeps: neither low, reserved, nor obtained before. */
  predicate Acceptable(port: Port, known: set<Port>) {
    port >= 1024 && port !in RESERVED_PORTS && port !in known
  }

  function Queued(q: seq<Port>): (r: set<Port>) {
    set p | p in q
  }

  function Holding(m: map<Name, set<Port>>, name: Name): (r: set<Port>) {
    if name in m then m[name] else {}
  }

  ghost function Held(m: map<Name, set<Port>>): (r: set<Port>) {
    set n, p | n in m && p in m[n] :: p
  }

  ghost predicate HeldApart(m: map<Name, set<Port>>) {
    forall n, k | n in m && k in m && n != k :: m[n] !! m[k]
  }

  /** Every port ever obtained is either queued once or held by exactly one name, and nothing else is. */
  ghost predicate Conserved(q: seq<Port>, held: map<Name, set<Port>>, obtained: set<Port>) {
    && NoDuplicates(q) && HeldApart(held)
    && Queued(q) !! Held(held)
    && Queued(q) + Held(held) == obtained
  }

  function Rotate(q: seq<Port>, k: nat): (r: seq<Port>)
    ensures |r| == |q|
    decreases k
  {
    if k == 0 || q == [] then q else Rotate(q[1..] + [q[0]], k - 1)
  }

  // ---------------------------------------------------------------------------------------------
  // Conservation, step by step
  // ---------------------------------------------------------------------------------------------

  lemma AppendQueued(q: seq<Port>, p: Port)
    requires NoDuplicates(q) && p !in q
    ensures NoDuplicates(q + [p]) && Queued(q + [p]) == Queued(q) + {p}
  {
  }

  lemma HeadQueued(q: seq<Port>)
    requires q != [] && NoDuplicates(q)
    ensures NoDuplicates(q[1..]) && Queued(q[1..]) == Queued(q) - {q[0]}
  {
    assert q == [q[0]] + q[1..];
  }

  lemma HeldAfterGrant(m: map<Name, set<Port>>, name: Name, p: Port)
    ensures Held(m[name := Holding(m, name) + {p}]) == Held(m) + {p}
  {
    var m' := m[name := Holding(m, name) + {p}];
    assert name in m' && p in m'[name];
    forall x ensures x in Held(m') <==> x in Held(m) || x == p {
      if x in Held(m) {
        var n :| n in m && x in m[n];
        assert n in m' && x in m'[n];
      }
    }
  }

  lemma HeldAfterReturn(m: map<Name, set<Port>>, name: Name)
    requires HeldApart(m)
    ensures Held(m - {name}) == Held(m) - Holding(m, name) && HeldApart(m - {name})
  {
    var m' := m - {name};
    forall x ensures x in Held(m') <==> x in Held(m) && x !in Holding(m, name) {
      if x in Held(m) && x !in Holding(m, name) {
        var n :| n in m && x in m[n];
        assert n in m' && x in m'[n];
      }
    }
  }

  lemma ObtainKeeps(q: seq<Port>, m: map<Name, set<Port>>, obtained: set<Port>, p: Port)
    requires Conserved(q, m, obtained) && p !in obtained
    ensures Conserved(q + [p], m, obtained + {p})
  {
    AppendQueued(q, p);
  }

  lemma GrantKeeps(q: seq<Port>, m: map<Name, set<Port>>, obtained: set<Port>, name: Name)
    requires Conserved(q, m, obtained) && q != []
    ensures Conserved(q[1..], m[name := Holding(m, name) + {q[0]}], obtained)
  {
    HeadQueued(q);
    HeldAfterGrant(m, name, q[0]);
    assert q[0] in Queued(q);
    forall n | n in m ensures q[0] !in m[n] {
      assert m[n] <= Held(m);
    }
  }

  lemma RotateKeeps(q: seq<Port>, m: map<Name, set<Port>>, obtained: set<Port>)
    requires Conserved(q, m, obtained) && q != []
    ensures Conserved(q[1..] + [q[0]], m, obtained)
  {
    HeadQueued(q);
    AppendQueued(q[1..], q[0]);
    assert q[0] in Queued(q);
  }

  lemma ReturnKeeps(q: seq<Port>, m: map<Name, set<Port>>, obtained: set<Port>, name: Name, order: seq<Port>)
    requires Conserved(q, m, obtained) && NoDuplicates(order) && Queued(order) == Holding(m, name)
    ensures Conserved(q + order, m - {name}, obtained)
  {
    HeldAfterReturn(m, name);
    assert Holding(m, name) <= Held(m);
    assert Queued(q + order) == Queued(q) + Queued(order);
    forall i, j | 0 <= i < j < |q + order| ensures (q + order)[i] != (q + order)[j] {
      if i < |q| <= j {
        assert q[i] in Queued(q) && order[j - |q|] in Queued(order);
      }
    }
  }

  lemma RotateSnoc(q: seq<Port>, k: nat)
    requires q != []
    ensures Rotate(q, k + 1) == Rotate(q, k)[1..] + [Rotate(q, k)[0]]
    decreases k
  {
    if k > 0 {
      RotateSnoc(q[1..] + [q[0]], k - 1);
    }
  }

  /** Rotating k times brings every port k places forward, those at the front to the end. */
  lemma {:induction false} RotateAt(q: seq<Port>, k: nat, i: nat)
    requires k <= |q| && i < |q|
    ensures Rotate(q, k)[i] == if i + k < |q| then q[i + k] else q[i + k - |q|]
    decreases k
  {
    if k > 0 {
      RotateSnoc(q, k - 1);
      if i + 1 < |q| {
        RotateAt(q, k - 1, i + 1);
      } else {
        RotateAt(q, k - 1, 0);
      }
    }
  }

  /** The given ports were stamped between the two times, all others kept their age. */
  ghost predicate Restamped(ages: map<Port, real>, ages': map<Port, real>, ports: set<Port>, since: real, until: real) {
    && (forall p | p in ports :: p in ages' && since <= ages'[p] <= until)
    && (forall p | p !in ports :: (p in ages' <==> p in ages) && (p in ages ==> ages'[p] == ages[p]))
  }

  lemma RestampedOneMore(
    ages: map<Port, real>, ages': map<Port, real>, ports: set<Port>, port: Port, t: real, since: real, until: real)
    requires Restamped(ages, ages', ports, since, until) && since <= until <= t
    ensures Restamped(ages, ages'[port := t], ports + {port}, since, t)
  {
  }

  // ---------------------------------------------------------------------------------------------
  // Time
  // ---------------------------------------------------------------------------------------------

  /** A clock that may jump ahead at every reading but never goes back. */
  class Clock {
    var now_: real

    constructor () {
      now_ := 0.0;
    }

    method Read() returns (t: real)
      modifies this
      ensures t == now_ && t >= old(now_)
    {
      t := *;
      if t < now_ {
        t := now_;
      }
      now_ := t;
    }

    method Sleep(seconds: real)
      requires seconds >= 0.0
      modifies this
      ensures now_ >= old(now_) + seconds
    {
      var extra: real := *;
      now_ := now_ + seconds + if extra >= 0.0 then extra else 0.0;
    }
  }

  // ---------------------------------------------------------------------------------------------
  // What the system offers
  // ---------------------------------------------------------------------------------------------

  /** The offered ports that get_port would keep. */
  function Usable(offers: seq<Port>, known: set<Port>): (r: set<Port>) {
    set p | p in offers && Acceptable(p, known)
  }

  function Larger(a: nat, b: nat): (r: nat) {
    if a >= b then a else b
  }

  /** The first usable offer, and what follows it. */
  ghost predicate FirstUsable(offers: seq<Port>, known: set<Port>, port: Option<Port>, rest: seq<Port>) {
    match port
    case None => rest == [] && Usable(offers, known) == {}
    case Some(p) =>
      exists i | 0 <= i < |offers| ::
        offers[i] == p && Acceptable(p, known) && rest == offers[i + 1..] &&
        forall j | 0 <= j < i :: !Acceptable(offers[j], known)
  }

  /** Taking the first usable offer leaves the other usable ones. */
  lemma UsableAfterTaking(offers: seq<Port>, known: set<Port>, p: Port, rest: seq<Port>)
    requires FirstUsable(offers, known, Some(p), rest)
    ensures Usable(rest, known + {p}) == Usable(offers, known) - {p}
    ensures p in Usable(offers, known) && Queued(rest) <= Queued(offers)
    ensures |Usable(offers, known)| == |Usable(rest, known + {p})| + 1
  {
    var i :| 0 <= i < |offers| && offers[i] == p && rest == offers[i + 1..] &&
             forall j | 0 <= j < i :: !Acceptable(offers[j], known);
    UsableBehind(offers, known, i);
    assert p in Usable(offers, known);
    forall x ensures x in Usable(rest, known + {p}) <==> x in Usable(offers, known) && x != p {
      assert x in rest ==> x in offers by {
        assert x in Queued(rest) <==> x in rest;
        assert x in Queued(offers) <==> x in offers;
      }
    }
    assert Usable(rest, known + {p}) == Usable(offers, known) - {p};
  }

  lemma UsableBehind(offers: seq<Port>, known: set<Port>, i: nat)
    requires i < |offers| && forall j | 0 <= j < i :: !Acceptable(offers[j], known)
    ensures Queued(offers[i + 1..]) <= Queued(offers)
    ensures forall x | x in Usable(offers, known) && x != offers[i] :: x in offers[i + 1..]
  {
    var rest := offers[i + 1..];
    forall x | x in Usable(offers, known) && x != offers[i] ensures x in rest {
      var j :| 0 <= j < |offers| && offers[j] == x;
      assert rest[j - i - 1] == x;
    }
    forall x | x in rest ensures x in offers {
      var j :| 0 <= j < |rest| && rest[j] == x;
      assert offers[i + 1 + j] == x;
    }
  }

  /** Some usable offers have gone to the end of the queue, and rest still holds the others. */
  ghost predicate ToppedUp(
    q: seq<Port>, known: set<Port>, offers: seq<Port>, q': seq<Port>, known': set<Port>, rest: seq<Port>)
  {
    && q <= q' && known <= known' <= known + Queued(offers) && Queued(rest) <= Queued(offers)
    && (forall p | p in q'[|q|..] :: Acceptable(p, known))
    && |q'| + |Usable(rest, known')| == |q| + |Usable(offers, known)|
  }

  lemma ToppedUpFurther(
    q: seq<Port>, known: set<Port>, offers: seq<Port>, q': seq<Port>, known': set<Port>, left: seq<Port>,
    p: Port, rest: seq<Port>)
    requires ToppedUp(q, known, offers, q', known', left) && FirstUsable(left, known', Some(p), rest)
    ensures ToppedUp(q, known, offers, q' + [p], known' + {p}, rest)
  {
    UsableAfterTaking(left, known', p, rest);
    assert (q' + [p])[|q|..] == q'[|q|..] + [p];
    assert p in Queued(left);
  }

  lemma UsableShrinks(offers: seq<Port>, known: set<Port>, more: set<Port>)
    requires known <= more
    ensures Usable(offers, more) <= Usable(offers, known) && |Usable(offers, more)| <= |Usable(offers, known)|
  {
    SubsetSize(Usable(offers, more), Usable(offers, known));
  }

  lemma SubsetSize(a: set<Port>, b: set<Port>)
    requires a <= b
    ensures |a| <= |b|
  {
    if a != {} {
      var x :| x in a;
      SubsetSize(a - {x}, b - {x});
    }
  }

  // ---------------------------------------------------------------------------------------------
  // Requests
  // ---------------------------------------------------------------------------------------------

  datatype Request = GetSerial | PutPorts(name: Name) | GetPort(name: Name) | ListPorts(name: Name)

  // NoAnswer: the server is still waiting for the system to offer an acceptable port.
  datatype Response = Number(value: nat) | Ports(ports: set<Port>) | NoAnswer

  // The server's state between two requests, with the time.
  datatype Snapshot = Snapshot(
    queue: seq<Port>, held: map<Name, set<Port>>, obtained: set<Port>, ages: map<Port, real>,
    cold: bool, serial: nat, now_: real)

  /** The ages of the ports known so far did not change; ports obtained since are no older than since. */
  ghost predicate AgesKept(
    ages: map<Port, real>, ages': map<Port, real>, known: set<Port>, known': set<Port>, since: real)
  {
    && (forall p | p in known && p in ages :: p in ages' && ages'[p] == ages[p])
    && (forall p | p in known' && p !in known :: p in ages' && ages'[p] >= since)
  }

  predicate TooYoung(ages: map<Port, real>, port: Port, now_: real, minAge: real) {
    port in ages && now_ - ages[port] <= minAge
  }

  /**
   After some rotations, each past a port that was too young when the request came, the front of the
   queue went to name at the time popped; it was idle long enough then, unless no port ever came back.
   Only afterwards were new ports obtained.
   */
  ghost predicate Granted(
    s: Snapshot, name: Name, port: Port, rotated: nat, popped: real, s': Snapshot, minAge: real)
  {
    && s.queue != [] && s.now_ <= popped <= s'.now_ && |s.queue| <= |s'.queue| + 1
    && Rotate(s.queue, rotated) == [port] + s'.queue[..|s.queue| - 1]
    && (forall q: nat | q < rotated :: TooYoung(s.ages, Rotate(s.queue, q)[0], s.now_, minAge))
    && (if s.cold then rotated == 0 else port in s.ages && popped - s.ages[port] > minAge)
    && s'.held == s.held[name := Holding(s.held, name) + {port}]
    && (forall p | p in s'.queue[|s.queue| - 1..] :: Acceptable(p, s.obtained))
    && s.obtained <= s'.obtained && AgesKept(s.ages, s'.ages, s.obtained, s'.obtained, popped)
    && s'.cold == s.cold && s'.serial == s.serial
  }

  /** All ports of name came back to the end of the queue with fresh ages. */
  ghost predicate Returned(s: Snapshot, name: Name, s': Snapshot) {
    var back := Holding(s.held, name);
    && s.queue <= s'.queue && Queued(s'.queue[|s.queue|..]) == back
    && s'.held == s.held - {name} && s'.obtained == s.obtained
    && Restamped(s.ages, s'.ages, back, s.now_, s'.now_)
    && s'.cold == (s.cold && back == {}) && s'.serial == s.serial
  }

  /** The offers refill the queue, after one port was taken from it. */
  predicate Refills(s: Snapshot, offers: seq<Port>, minFreePorts: nat) {
    s.queue != [] && |s.queue| - 1 + |Usable(offers, s.obtained)| >= minFreePorts
  }

  /** One request: what is answered and the state it leaves. */
  ghost predicate Transition(
    s: Snapshot, request: Request, offers: seq<Port>, response: Response, s': Snapshot, minAge: real,
    minFreePorts: nat)
  {
    && s'.now_ >= s.now_ && s'.obtained <= s.obtained + Queued(offers)
    && match request
       case GetSerial => response == Number(s.serial + 1) && s' == s.(serial := s.serial + 1)
       case PutPorts(name) => response == Number(|Holding(s.held, name)|) && Returned(s, name, s')
       case GetPort(name) =>
         && (exists port, rotated, popped ::
               Granted(s, name, port, rotated, popped, s', minAge) &&
               response == if Refills(s, offers, minFreePorts) then Number(port) else NoAnswer)
         && (response.Number? ==> |s'.queue| == Larger(|s.queue| - 1, minFreePorts))
       case ListPorts(name) =>
         response == Ports(Holding(s.held, name)) &&
         s' == s.(held := s.held[name := Holding(s.held, name)])
  }

  /** Every state conserves the ports, and every answer and next state is the request's. */
  ghost predicate Runs(
    states: seq<Snapshot>, requests: seq<Request>, offers: seq<seq<Port>>, responses: seq<Response>, minAge: real,
    minFreePorts: nat)
  {
    && |states| == |responses| + 1 && |responses| <= |requests| == |offers|
    && (forall i | 0 <= i < |states| :: Conserved(states[i].queue, states[i].held, states[i].obtained))
    && (forall i | 0 <= i < |responses| ::
          Transition(states[i], requests[i], offers[i], responses[i], states[i + 1], minAge, minFreePorts))
  }

  /** The state once the queue has been filled for the first time. */
  ghost predicate Starts(s: Snapshot, before: Snapshot, startFreePorts: nat, offers: seq<Port>) {
    && |s.queue| == startFreePorts && s.obtained <= before.obtained + Queued(offers)
    && s.held == before.held && s.cold == before.cold && s.serial == before.serial
  }

  lemma OneMoreRequest(
    states: seq<Snapshot>, requests: seq<Request>, offers: seq<seq<Port>>, responses: seq<Response>, minAge: real,
    minFreePorts: nat, response: Response, s: Snapshot)
    requires Runs(states, requests, offers, responses, minAge, minFreePorts) && |responses| < |requests|
    requires
      var i := |responses|;
      Transition(states[i], requests[i], offers[i], response, s, minAge, minFreePorts)
    requires Conserved(s.queue, s.held, s.obtained)
    ensures Runs(states + [s], requests, offers, responses + [response], minAge, minFreePorts)
  {
    var longer, answers := states + [s], responses + [response];
    forall i | 0 <= i < |answers|
      ensures Transition(longer[i], requests[i], offers[i], answers[i], longer[i + 1], minAge, minFreePorts)
    {
      if i < |responses| {
        assert longer[i] == states[i] && longer[i + 1] == states[i + 1] && answers[i] == responses[i];
      }
    }
  }

  function Offered(offers: seq<seq<Port>>): (r: set<Port>) {
    set o, p | o in offers && p in o :: p
  }

  /** Whenever a port is asked for, the system offers enough usable ports that it never offered before. */
  predicate EnoughOffered(known: set<Port>, requests: seq<Request>, offers: seq<seq<Port>>, minFreePorts: nat)
    requires |requests| == |offers|
  {
    forall i | 0 <= i < |requests| && requests[i].GetPort? ::
      |Usable(offers[i], known + Offered(offers[..i]))| >= minFreePorts
  }

  lemma {:induction false} ObtainedWereOffered(
    states: seq<Snapshot>, requests: seq<Request>, offers: seq<seq<Port>>, responses: seq<Response>, minAge: real,
    minFreePorts: nat, known: set<Port>, i: nat)
    requires Runs(states, requests, offers, responses, minAge, minFreePorts) && states[0].obtained <= known
    requires i <= |responses|
    ensures states[i].obtained <= known + Offered(offers[..i])
    decreases i
  {
    if i > 0 {
      ObtainedWereOffered(states, requests, offers, responses, minAge, minFreePorts, known, i - 1);
      var k := i - 1;
      assert Transition(states[k], requests[k], offers[k], responses[k], states[k + 1], minAge, minFreePorts);
      assert offers[k] in offers[..i] && forall o | o in offers[..k] :: o in offers[..i];
    }
  }

  /** If enough is offered no request is left without an answer. */
  lemma EnoughIsAnswered(
    states: seq<Snapshot>, requests: seq<Request>, offers: seq<seq<Port>>, responses: seq<Response>, minAge: real,
    minFreePorts: nat, known: set<Port>, i: nat)
    requires Runs(states, requests, offers, responses, minAge, minFreePorts) && states[0].obtained <= known
    requires EnoughOffered(known, requests, offers, minFreePorts) && i < |responses|
    ensures responses[i] != NoAnswer
  {
    assert Transition(states[i], requests[i], offers[i], responses[i], states[i + 1], minAge, minFreePorts);
    if requests[i].GetPort? {
      ObtainedWereOffered(states, requests, offers, responses, minAge, minFreePorts, known, i);
      UsableShrinks(offers[i], states[i].obtained, known + Offered(offers[..i]));
    }
  }

  /** Every request is answered up to the first that is not, which is the last. */
  predicate StopsAtNoAnswer(requests: seq<Request>, responses: seq<Response>) {
    && (|responses| < |requests| ==> responses != [] && responses[|responses| - 1] == NoAnswer)
    && (forall i | 0 <= i < |responses| - 1 :: responses[i] != NoAnswer)
  }

  lemma AllAreAnswered(
    states: seq<Snapshot>, requests: seq<Request>, offers: seq<seq<Port>>, responses: seq<Response>, minAge: real,
    minFreePorts: nat, known: set<Port>)
    requires Runs(states, requests, offers, responses, minAge, minFreePorts) && states[0].obtained <= known
    requires EnoughOffered(known, requests, offers, minFreePorts) && StopsAtNoAnswer(requests, responses)
    ensures |responses| == |requests| && forall i | 0 <= i < |responses| :: responses[i] != NoAnswer
  {
    forall i | 0 <= i < |responses| ensures responses[i] != NoAnswer {
      EnoughIsAnswered(states, requests, offers, responses, minAge, minFreePorts, known, i);
    }
  }

  class Server {
    var portsQ: seq<Port>
    var freePorts: set<Port>
    var portAge: map<Port, real>
    var portsByName: map<Name, set<Port>>
    var coldStart: bool
    var serialNo: nat
    const minAge: real
    const minFreePorts: nat

    ghost predicate Valid(now_: real)
      reads this
    {
      && Conserved(portsQ, portsByName, freePorts)
      && (forall p | p in freePorts :: p in portAge && portAge[p] <= now_)
      && minAge >= 10.0
    }

    ghost function State(now_: real): (r: Snapshot)
      reads this
    {
      Snapshot(portsQ, portsByName, freePorts, portAge, coldStart, serialNo, now_)
    }

    constructor (minAge: real, minFreePorts: nat)
      requires minAge >= 10.0
      ensures forall t :: Valid(t)
      ensures portsQ == [] && freePorts == {} && portsByName == map[] && coldStart && serialNo == 0
      ensures this.minAge == minAge && this.minFreePorts == minFreePorts
    {
      portsQ, freePorts, portAge, portsByName := [], {}, map[], map[];
      coldStart, serialNo := true, 0;
      this.minAge, this.minFreePorts := minAge, minFreePorts;
    }

    /** Binds ports, in the order the system offers them, until one is acceptable. */
    method ObtainPort(offers: seq<Port>, clock: Clock) returns (port: Option<Port>, rest: seq<Port>)
      modifies this`freePorts, this`portAge, clock
      ensures clock.now_ >= old(clock.now_)
      ensures FirstUsable(offers, old(freePorts), port, rest)
      ensures port.None? ==> freePorts == old(freePorts) && portAge == old(portAge)
      ensures port.Some? ==>
        freePorts == old(freePorts) + {port.value} && portAge == old(portAge)[port.value := clock.now_]
    {
      var i := 0;
      while i < |offers|
        invariant i <= |offers| && clock.now_ == old(clock.now_)
        invariant forall j | 0 <= j < i :: !Acceptable(offers[j], freePorts)
        invariant freePorts == old(freePorts) && portAge == old(portAge)
      {
        var freePort := offers[i];
        i := i + 1;
        if freePort < 1024 || freePort in RESERVED_PORTS || freePort in freePorts {
          continue;
        }
        freePorts := freePorts + {freePort};
        var t := clock.Read();
        portAge := portAge[freePort := t];
        return Some(freePort), offers[i..];
      }
      return None, [];
    }

    method QueueOne(offers: seq<Port>, clock: Clock) returns (queued: bool, rest: seq<Port>)
      requires Valid(clock.now_)
      modifies this`portsQ, this`freePorts, this`portAge, clock
      ensures Valid(clock.now_) && clock.now_ >= old(clock.now_)
      ensures AgesKept(old(portAge), portAge, old(freePorts), freePorts, old(clock.now_))
      ensures !queued ==>
        portsQ == old(portsQ) && freePorts == old(freePorts) && FirstUsable(offers, old(freePorts), None, rest)
      ensures queued ==>
        portsQ != [] && portsQ[..|portsQ| - 1] == old(portsQ) &&
        freePorts == old(freePorts) + {portsQ[|portsQ| - 1]} &&
        FirstUsable(offers, old(freePorts), Some(portsQ[|portsQ| - 1]), rest)
    {
      ghost var known := freePorts;
      var port: Option<Port>;
      port, rest := ObtainPort(offers, clock);
      if port.None? {
        return false, rest;
      }
      ObtainKeeps(portsQ, portsByName, known, port.value);
      portsQ := portsQ + [port.value];
      var t := clock.Read();
      portAge := portAge[port.value := t];
      return true, rest;
    }

    /** Tops the queue up to its least size with the first usable offers; done unless there are too few. */
    method QueueFreePorts(minQueueSize: nat, offers: seq<Port>, clock: Clock) returns (done: bool, rest: seq<Port>)
      requires Valid(clock.now_)
      modifies this`portsQ, this`freePorts, this`portAge, clock
      ensures Valid(clock.now_) && clock.now_ >= old(clock.now_)
      ensures old(portsQ) <= portsQ && old(freePorts) <= freePorts <= old(freePorts) + Queued(offers)
      ensures AgesKept(old(portAge), portAge, old(freePorts), freePorts, old(clock.now_))
      ensures forall p | p in portsQ[|old(portsQ)|..] :: Acceptable(p, old(freePorts))
      ensures done <==> |old(portsQ)| + |Usable(offers, old(freePorts))| >= minQueueSize
      ensures done ==> |portsQ| == Larger(|old(portsQ)|, minQueueSize)
    {
      rest := offers;
      while |portsQ| < minQueueSize
        invariant Valid(clock.now_) && clock.now_ >= old(clock.now_)
        invariant |portsQ| <= Larger(|old(portsQ)|, minQueueSize)
        invariant AgesKept(old(portAge), portAge, old(freePorts), freePorts, old(clock.now_))
        invariant ToppedUp(old(portsQ), old(freePorts), offers, portsQ, freePorts, rest)
        decreases minQueueSize - |portsQ|
      {
        ghost var queue, left, known := portsQ, rest, freePorts;
        var queued: bool;
        queued, rest := QueueOne(rest, clock);
        if !queued {
          return false, rest;
        }
        ToppedUpFurther(old(portsQ), old(freePorts), offers, queue, known, left, portsQ[|queue|], rest);
        assert portsQ == queue + [portsQ[|queue|]];
      }
      return true, rest;
    }

    method RequeueOne(port: Port, clock: Clock)
      modifies this`portsQ, this`portAge, clock
      ensures portsQ == old(portsQ) + [port] && portAge == old(portAge)[port := clock.now_]
      ensures clock.now_ >= old(clock.now_)
    {
      portsQ := portsQ + [port];
      var t := clock.Read();
      portAge := portAge[port := t];
    }

    method Requeue(ports: set<Port>, clock: Clock) returns (returned: nat, ghost order: seq<Port>)
      modifies this`portsQ, this`portAge, clock
      ensures clock.now_ >= old(clock.now_)
      ensures returned == |ports| && portsQ == old(portsQ) + order
      ensures NoDuplicates(order) && Queued(order) == ports
      ensures Restamped(old(portAge), portAge, ports, old(clock.now_), clock.now_)
    {
      var todo := ports;
      returned, order := 0, [];
      while todo != {}
        invariant todo <= ports && Queued(order) == ports - todo && NoDuplicates(order)
        invariant returned + |todo| == |ports| && portsQ == old(portsQ) + order
        invariant clock.now_ >= old(clock.now_)
        invariant Restamped(old(portAge), portAge, ports - todo, old(clock.now_), clock.now_)
        decreases todo
      {
        var port :| port in todo;
        AppendQueued(order, port);
        returned := returned + 1;
        ghost var ages, before := portAge, clock.now_;
        RequeueOne(port, clock);
        RestampedOneMore(old(portAge), ages, ports - todo, port, clock.now_, old(clock.now_), before);
        order := order + [port];
        assert ports - (todo - {port}) == (ports - todo) + {port};
        todo := todo - {port};
      }
    }

    /**
     All ports a name holds go back to the end of the queue, in some order, with their age reset; once
     any port came back the cold start is over.
     */
    method Put(name: Name, clock: Clock) returns (returned: nat)
      requires Valid(clock.now_)
      modifies this`portsQ, this`portAge, this`portsByName, this`coldStart, clock
      ensures Valid(clock.now_) && clock.now_ >= old(clock.now_)
      ensures returned == |Holding(old(portsByName), name)|
      ensures old(portsQ) <= portsQ
      ensures Queued(portsQ[|old(portsQ)|..]) == Holding(old(portsByName), name)
      ensures portsByName == old(portsByName) - {name}
      ensures coldStart == (old(coldStart) && returned == 0)
      ensures Restamped(old(portAge), portAge, Holding(old(portsByName), name), old(clock.now_), clock.now_)
    {
      ghost var order;
      returned, order := Requeue(Holding(portsByName, name), clock);
      ReturnKeeps(old(portsQ), portsByName, freePorts, name, order);
      assert Holding(portsByName, name) <= Held(portsByName);
      portsByName := portsByName - {name};
      assert portsQ[|old(portsQ)|..] == order;
      if returned > 0 {
        coldStart := false;
      }
    }

    /**
     Rotates the queue past ports still too young, sleeping a second each time; rotated counts the
     rotations.
     */
    method AwaitOldEnough(clock: Clock) returns (ghost rotated: nat, ghost idle: real)
      requires Valid(clock.now_) && portsQ != []
      modifies this`portsQ, clock
      ensures Valid(clock.now_) && clock.now_ >= old(clock.now_)
      ensures portsQ == Rotate(old(portsQ), rotated) && Queued(portsQ) == Queued(old(portsQ))
      ensures portsQ[0] in old(portsQ) && portsQ[0] in portAge
      ensures forall q: nat | q < rotated ::
                TooYoung(portAge, Rotate(old(portsQ), q)[0], old(clock.now_), minAge)
      ensures idle == clock.now_ - portAge[portsQ[0]]
      ensures if coldStart then rotated == 0 else idle > minAge
      ensures rotated as real <= minAge + 1.0
    {
      rotated := 0;
      ghost var queue := portsQ;
      while true
        invariant Valid(clock.now_) && clock.now_ >= old(clock.now_) + rotated as real
        invariant portsQ == Rotate(queue, rotated) && portsQ != []
        invariant Queued(portsQ) == Queued(queue)
        invariant forall q: nat | q < rotated ::
                    TooYoung(portAge, Rotate(queue, q)[0], old(clock.now_), minAge)
        invariant coldStart ==> rotated == 0
        invariant rotated as real <= minAge + 1.0
        decreases (minAge + 1.0).Floor - rotated
      {
        var head := portsQ[0];
        assert head in Queued(portsQ);
        var t := clock.Read();
        idle := t - portAge[head];
        if t - portAge[head] > minAge || coldStart {
          return;
        }
        RotateKeeps(portsQ, portsByName, freePorts);
        RotateSnoc(queue, rotated);
        HeadQueued(portsQ);
        AppendQueued(portsQ[1..], head);
        portsQ := portsQ[1..] + [head];
        clock.Sleep(1.0);
        rotated := rotated + 1;
      }
    }

    /**
     After a cold start's end the port granted has been idle for more than the minimum age when it leaves
     the queue.  At most minAge + 1 rotations pass before one is found; the refill comes afterwards.
     */
    method Get(name: Name, offers: seq<Port>, clock: Clock)
      returns (port: Port, done: bool, rest: seq<Port>, ghost rotated: nat, ghost popped: real)
      requires Valid(clock.now_) && portsQ != []
      modifies this, clock
      ensures Valid(clock.now_) && clock.now_ >= old(clock.now_)
      ensures Granted(old(State(clock.now_)), name, port, rotated, popped, State(clock.now_), minAge)
      ensures rotated as real <= minAge + 1.0
      ensures freePorts <= old(freePorts) + Queued(offers)
      ensures done <==> Refills(old(State(clock.now_)), offers, minFreePorts)
      ensures done ==> |portsQ| == Larger(|old(portsQ)| - 1, minFreePorts)
    {
      ghost var idle;
      rotated, idle := AwaitOldEnough(clock);
      popped := clock.now_;
      ghost var rotatedQ := portsQ;
      port := portsQ[0];
      GrantKeeps(portsQ, portsByName, freePorts, name);
      portsQ := portsQ[1..];
      portsByName := portsByName[name := Holding(portsByName, name) + {port}];
      assert Valid(clock.now_);
      done, rest := QueueFreePorts(minFreePorts, offers, clock);
      assert portsQ[..|old(portsQ)| - 1] == rotatedQ[1..];
    }

    /** LISTPORTS on a name not seen before leaves it an empty set. */
    method List(name: Name, clock: Clock) returns (ports: set<Port>)
      requires Valid(clock.now_)
      modifies this`portsByName
      ensures Valid(clock.now_) && ports == Holding(old(portsByName), name)
      ensures portsByName == old(portsByName)[name := ports]
    {
      ports := Holding(portsByName, name);
      ghost var was := portsByName;
      portsByName := portsByName[name := ports];
      assert Held(portsByName) == Held(was) by {
        forall x ensures x in Held(portsByName) <==> x in Held(was) {
          if x in Held(was) {
            var n :| n in was && x in was[n];
            assert n in portsByName && x in portsByName[n];
          }
        }
      }
    }

    /**
     Whatever is asked for, in whatever order: every state of the run conserves the ports, every answer
     and the state behind it are the request's, and a get never finds the queue empty.  The server starts
     when the system offers enough ports, and waits for ever only at the first get whose refill it does
     not get; if enough is offered every request is answered.
     */
    method Serve(
      requests: seq<Request>, startFreePorts: nat, initialOffers: seq<Port>, offers: seq<seq<Port>>, clock: Clock)
      returns (started: bool, responses: seq<Response>, ghost states: seq<Snapshot>)
      requires Valid(clock.now_) && portsQ == [] && startFreePorts >= 1 && minFreePorts >= 1
      requires |offers| == |requests|
      modifies this, clock
      ensures Valid(clock.now_)
      ensures started <==> |Usable(initialOffers, old(freePorts))| >= startFreePorts
      ensures !started ==> responses == []
      ensures started ==>
        && Runs(states, requests, offers, responses, minAge, minFreePorts)
        && Starts(states[0], old(State(clock.now_)), startFreePorts, initialOffers)
        && states[|responses|] == State(clock.now_)
        && StopsAtNoAnswer(requests, responses)
        && (EnoughOffered(old(freePorts) + Queued(initialOffers), requests, offers, minFreePorts) ==>
              |responses| == |requests| && forall i | 0 <= i < |responses| :: responses[i] != NoAnswer)
    {
      responses, states := [], [];
      var rest;
      started, rest := QueueFreePorts(startFreePorts, initialOffers, clock);
      if started {
        ghost var known := old(freePorts) + Queued(initialOffers);
        responses, states := ServeAll(requests, offers, clock);
        if EnoughOffered(known, requests, offers, minFreePorts) {
          AllAreAnswered(states, requests, offers, responses, minAge, minFreePorts, known);
        }
      }
    }

    /** The request loop, once the queue is filled. */
    method ServeAll(requests: seq<Request>, offers: seq<seq<Port>>, clock: Clock)
      returns (responses: seq<Response>, ghost states: seq<Snapshot>)
      requires Valid(clock.now_) && portsQ != [] && minFreePorts >= 1 && |offers| == |requests|
      modifies this, clock
      ensures Valid(clock.now_) && Runs(states, requests, offers, responses, minAge, minFreePorts)
      ensures states[0] == old(State(clock.now_)) && states[|responses|] == State(clock.now_)
      ensures StopsAtNoAnswer(requests, responses)
    {
      responses, states := [], [State(clock.now_)];
      var i := 0;
      while i < |requests|
        invariant i <= |requests| && |responses| == i && Valid(clock.now_) && portsQ != []
        invariant Runs(states, requests, offers, responses, minAge, minFreePorts)
        invariant states[0] == old(State(clock.now_)) && states[i] == State(clock.now_)
        invariant forall k | 0 <= k < i :: responses[k] != NoAnswer
      {
        var response := ServeOne(requests[i], offers[i], clock);
        OneMoreRequest(states, requests, offers, responses, minAge, minFreePorts, response, State(clock.now_));
        responses := responses + [response];
        states := states + [State(clock.now_)];
        if response == NoAnswer {
          return;
        }
        i := i + 1;
      }
    }

    method ServeOne(request: Request, offers: seq<Port>, clock: Clock) returns (response: Response)
      requires Valid(clock.now_) && portsQ != [] && minFreePorts >= 1
      modifies this, clock
      ensures Valid(clock.now_) && (response != NoAnswer ==> portsQ != [])
      ensures Transition(
                old(State(clock.now_)), request, offers, response, State(clock.now_), minAge, minFreePorts)
    {
      match request {
        case GetSerial =>
          serialNo := serialNo + 1;
          return Number(serialNo);
        case PutPorts(name) =>
          var returned := Put(name, clock);
          return Number(returned);
        case GetPort(name) =>
          var port, filled, left, rotated, popped := Get(name, offers, clock);
          return if filled then Number(port) else NoAnswer;
        case ListPorts(name) =>
          var ports := List(name, clock);
          return Ports(ports);
      }
    }
  }
}
