// The bounded decode pool: two semaphores, requests that may be cancelled while
// they wait, and detached decodes that keep their permits until they are done.
module Pools {

  type Request = nat

  function One(b: bool): nat {
    if b then 1 else 0
  }

  // Where every live request stands, and the permits nobody holds. Waiters are
  // served first come, first served.
  datatype Pool = Pool(
    workers: nat,
    depth: nat,
    admission: int,            // free admission permits
    permits: int,              // free decode permits
    admitted: set<Request>,    // hold an admission permit, about to ask for a decode permit
    queue: seq<Request>,       // wait for a decode permit
    granted: set<Request>,     // were handed one, not yet resumed
    decoding: set<Request>,    // hold both permits
    draining: set<Request>,    // have given admission back, not yet the decode permit
    abandoned: set<Request>    // were cancelled, about to give admission back
  ) {
    predicate Live(r: Request) {
      r in admitted || r in queue || r in granted || r in decoding || r in draining || r in abandoned
    }

    // Requests that hold an admission permit, and those that hold a decode permit.
    function AdmissionHeld(): nat {
      |admitted| + |queue| + |granted| + |decoding| + |abandoned|
    }

    function DecodeHeld(): nat {
      |granted| + |decoding| + |draining|
    }

    // In how many places a request stands.
    ghost function Places(r: Request): nat {
      One(r in admitted) + multiset(queue)[r] + One(r in granted) + One(r in decoding) + One(r in draining)
      + One(r in abandoned)
    }

    ghost predicate Apart() {
      forall r :: Places(r) <= 1
    }

    ghost predicate Safe() {
      Apart() && Balanced(this)
    }

    // The two gauges of the metrics page.
    function InFlight(): nat {
      if permits <= workers then workers - permits else 0
    }

    function Queued(): nat {
      var holders := if admission <= workers + depth then workers + depth - admission else 0;
      if InFlight() <= holders then holders - InFlight() else 0
    }
  }

  function Start(workers: nat, depth: nat): Pool {
    Pool(workers, depth, workers + depth, workers, {}, [], {}, {}, {}, {})
  }

  datatype Step =
    | Refuse(r: Request)           // no admission permit free: 503
    | Admit(r: Request)            // try_acquire_owned on admission
    | Acquire(r: Request)          // acquire_owned on the decode permits
    | Resume(r: Request)           // a handed-over permit starts its decode
    | CancelWaiting(r: Request)    // the client goes away while waiting
    | CancelGranted(r: Request)    // ... or between hand-over and resumption
    | DropAdmission(r: Request)    // a cancelled request's admission permit
    | ReleaseAdmission(r: Request) // a finished decode: admission first
    | ReleasePermit(r: Request)    // ... then the decode permit

  predicate Enabled(p: Pool, s: Step) {
    match s
    case Refuse(r) => !p.Live(r) && p.admission <= 0
    case Admit(r) => !p.Live(r) && p.admission > 0
    case Acquire(r) => r in p.admitted
    case Resume(r) => r in p.granted
    case CancelWaiting(r) => r in p.queue
    case CancelGranted(r) => r in p.granted
    case DropAdmission(r) => r in p.abandoned
    case ReleaseAdmission(r) => r in p.decoding
    case ReleasePermit(r) => r in p.draining
  }

  // A decode permit given back goes straight to the longest waiter, if any.
  function HandOver(p: Pool): Pool {
    if p.queue == [] then p.(permits := p.permits + 1)
    else p.(queue := p.queue[1..], granted := p.granted + {p.queue[0]})
  }

  function Minus(q: seq<Request>, gone: set<Request>): seq<Request> {
    if q == [] then [] else (if q[0] in gone then [] else [q[0]]) + Minus(q[1..], gone)
  }

  function Apply(p: Pool, s: Step): Pool
    requires Enabled(p, s)
  {
    match s
    case Refuse(r) => p
    case Admit(r) => p.(admission := p.admission - 1, admitted := p.admitted + {r})
    case Acquire(r) =>
      var q := p.(admitted := p.admitted - {r});
      if p.permits > 0 then q.(permits := p.permits - 1, decoding := p.decoding + {r})
      else q.(queue := p.queue + [r])
    case Resume(r) => p.(granted := p.granted - {r}, decoding := p.decoding + {r})
    case CancelWaiting(r) => p.(queue := Minus(p.queue, {r}), abandoned := p.abandoned + {r})
    case CancelGranted(r) => HandOver(p.(granted := p.granted - {r}, abandoned := p.abandoned + {r}))
    case DropAdmission(r) => p.(abandoned := p.abandoned - {r}, admission := p.admission + 1)
    case ReleaseAdmission(r) =>
      p.(decoding := p.decoding - {r}, draining := p.draining + {r}, admission := p.admission + 1)
    case ReleasePermit(r) => HandOver(p.(draining := p.draining - {r}))
  }

  // A run of the pool: every interleaving of its requests' steps.
  predicate Runs(p: Pool, steps: seq<Step>)
    decreases |steps|
  {
    steps == [] || (Enabled(p, steps[0]) && Runs(Apply(p, steps[0]), steps[1..]))
  }

  function After(p: Pool, steps: seq<Step>): Pool
    requires Runs(p, steps)
    decreases |steps|
  {
    if steps == [] then p else After(Apply(p, steps[0]), steps[1..])
  }

  // ----- safety -----

  lemma {:induction false} MinusCounts(q: seq<Request>, gone: set<Request>, x: Request)
    ensures multiset(Minus(q, gone))[x] == if x in gone then 0 else multiset(q)[x]
  {
    if q != [] {
      assert q == [q[0]] + q[1..];
      MinusCounts(q[1..], gone, x);
    }
  }

  lemma {:induction false} MinusNobody(q: seq<Request>, gone: set<Request>)
    requires forall r :: r in gone ==> r !in q
    ensures Minus(q, gone) == q
  {
    if q != [] {
      MinusNobody(q[1..], gone);
    }
  }

  lemma {:induction false} MinusOne(q: seq<Request>, r: Request)
    requires multiset(q)[r] == 1
    ensures |Minus(q, {r})| == |q| - 1
  {
    assert q == [q[0]] + q[1..];
    if q[0] == r {
      assert multiset(q[1..])[r] == 0;
      MinusNobody(q[1..], {r});
    } else {
      MinusOne(q[1..], r);
    }
  }

  lemma OnePlace(p: Pool, r: Request)
    requires p.Apart()
    ensures p.Places(r) <= 1
  {
  }

  // Moving a request from one place to another keeps everyone in one place.
  lemma StepApart(p: Pool, s: Step)
    requires p.Apart() && Enabled(p, s)
    ensures Apply(p, s).Apart()
  {
    forall x
      ensures Apply(p, s).Places(x) <= 1
    {
      OnePlace(p, x);
      StepPlaces(p, s, x);
    }
  }

  lemma StepPlaces(p: Pool, s: Step, x: Request)
    requires p.Places(x) <= 1 && Enabled(p, s)
    ensures Apply(p, s).Places(x) <= 1
  {
    match s
    case CancelWaiting(r) =>
      MinusCounts(p.queue, {r}, x);
    case CancelGranted(r) =>
      HandOverPlaces(p.(granted := p.granted - {r}, abandoned := p.abandoned + {r}), x);
    case ReleasePermit(r) =>
      HandOverPlaces(p.(draining := p.draining - {r}), x);
    case _ =>
  }

  lemma HandOverPlaces(p: Pool, x: Request)
    ensures HandOver(p).Places(x) <= p.Places(x)
  {
    if p.queue != [] {
      assert p.queue == [p.queue[0]] + p.queue[1..];
    }
  }

  // The permit accounts after a step.
  ghost predicate Balanced(p: Pool) {
    && p.admission >= 0 && p.admission + p.AdmissionHeld() == p.workers + p.depth
    && p.permits >= 0 && p.permits + p.DecodeHeld() == p.workers
    && (p.permits > 0 ==> p.queue == [])
  }

  lemma HandOverBalanced(p: Pool)
    requires p.Apart() && p.admission >= 0 && p.admission + p.AdmissionHeld() == p.workers + p.depth
    requires p.permits >= 0 && p.permits + p.DecodeHeld() == p.workers - 1 && (p.permits > 0 ==> p.queue == [])
    ensures Balanced(HandOver(p))
  {
    if p.queue != [] {
      assert p.queue[0] in p.queue;
      OnePlace(p, p.queue[0]);
    }
  }

  lemma StepBalanced(p: Pool, s: Step)
    requires p.Safe() && Enabled(p, s)
    ensures Balanced(Apply(p, s))
  {
    match s
    case CancelWaiting(r) => WaitingBalanced(p, r);
    case CancelGranted(r) => GrantedBalanced(p, r);
    case ReleasePermit(r) => ReleaseBalanced(p, r);
    case Acquire(r) => AcquireBalanced(p, r);
    case _ => PlainBalanced(p, s);
  }

  lemma AcquireBalanced(p: Pool, r: Request)
    requires p.Safe() && r in p.admitted
    ensures Balanced(Apply(p, Acquire(r)))
  {
    OnePlace(p, r);
    if p.permits > 0 {
      assert |p.decoding + {r}| == |p.decoding| + 1;
    }
  }

  lemma PlainBalanced(p: Pool, s: Step)
    requires p.Safe() && Enabled(p, s) && (Arrival(s) || s.Resume? || s.DropAdmission? || s.ReleaseAdmission?)
    ensures Balanced(Apply(p, s))
  {
    OnePlace(p, s.r);
  }

  lemma WaitingBalanced(p: Pool, r: Request)
    requires p.Safe() && r in p.queue
    ensures Balanced(Apply(p, CancelWaiting(r)))
  {
    OnePlace(p, r);
    MinusOne(p.queue, r);
  }

  lemma GrantedBalanced(p: Pool, r: Request)
    requires p.Safe() && r in p.granted
    ensures Balanced(Apply(p, CancelGranted(r)))
  {
    OnePlace(p, r);
    var q := p.(granted := p.granted - {r}, abandoned := p.abandoned + {r});
    StillApart(p, q, r);
    HandOverBalanced(q);
  }

  lemma ReleaseBalanced(p: Pool, r: Request)
    requires p.Safe() && r in p.draining
    ensures Balanced(Apply(p, ReleasePermit(r)))
  {
    OnePlace(p, r);
    var q := p.(draining := p.draining - {r});
    StillApart(p, q, r);
    HandOverBalanced(q);
  }

  lemma StillApart(p: Pool, q: Pool, r: Request)
    requires p.Apart() && q.Places(r) <= 1 && forall x :: x != r ==> q.Places(x) == p.Places(x)
    ensures q.Apart()
  {
    forall x
      ensures q.Places(x) <= 1
    {
      OnePlace(p, x);
    }
  }

  lemma StepSafe(p: Pool, s: Step)
    requires p.Safe() && Enabled(p, s)
    ensures Apply(p, s).Safe() && Apply(p, s).workers == p.workers && Apply(p, s).depth == p.depth
  {
    StepApart(p, s);
    StepBalanced(p, s);
  }

  // Both kinds of permits are conserved over every run.
  lemma {:induction false} RunSafe(p: Pool, steps: seq<Step>)
    requires p.Safe() && Runs(p, steps)
    ensures After(p, steps).Safe() && After(p, steps).workers == p.workers && After(p, steps).depth == p.depth
    decreases |steps|
  {
    if steps != [] {
      StepSafe(p, steps[0]);
      RunSafe(Apply(p, steps[0]), steps[1..]);
    }
  }

  // What the two bounds buy, at any moment of any run from the start.
  lemma Bounds(workers: nat, depth: nat, steps: seq<Step>)
    requires Runs(Start(workers, depth), steps)
    ensures var p := After(Start(workers, depth), steps);
      && p.DecodeHeld() <= workers
      && p.AdmissionHeld() <= workers + depth
      && |p.queue| <= depth + |p.draining|
      && (forall r :: Enabled(p, Refuse(r)) ==> p.AdmissionHeld() == workers + depth)
  {
    RunSafe(Start(workers, depth), steps);
  }

  // Every new request can be admitted or refused, and only one of the two: it is
  // admitted exactly when fewer than workers + depth hold a permit.
  lemma ArrivalIff(p: Pool, r: Request)
    requires p.Safe() && !p.Live(r)
    ensures Enabled(p, Admit(r)) <==> p.AdmissionHeld() < p.workers + p.depth
    ensures Enabled(p, Refuse(r)) <==> p.AdmissionHeld() == p.workers + p.depth
  {
  }

  // A request that asks for a decode permit decodes at once exactly when one is
  // free, and otherwise waits behind all others; either way no one else moves.
  lemma AcquireIff(p: Pool, r: Request)
    requires p.Safe() && r in p.admitted
    ensures var n := Apply(p, Acquire(r));
      && (r in n.decoding <==> p.DecodeHeld() < p.workers)
      && (r in n.queue <==> p.DecodeHeld() == p.workers)
      && n.queue == p.queue + (if p.DecodeHeld() < p.workers then [] else [r])
      && forall x :: x != r ==> (x in n.decoding <==> x in p.decoding)
  {
    OnePlace(p, r);
  }

  // A permit given back is the first waiter's, who then decodes without asking
  // again; with no waiter it is free.
  lemma ReleaseIff(p: Pool, r: Request)
    requires p.Safe() && r in p.draining
    ensures var n := Apply(p, ReleasePermit(r));
      if p.queue == [] then n.permits == p.permits + 1 && n.granted == p.granted
      else n.permits == p.permits && n.granted == p.granted + {p.queue[0]} && Enabled(n, Resume(p.queue[0]))
  {
  }

  // More than `depth` requests wait exactly when more decodes are between their
  // two releases than there are admission permits outside queue and decodes.
  lemma QueueOverDepthIff(p: Pool)
    requires p.Safe() && p.queue != []
    ensures |p.queue| > p.depth <==> |p.draining| > p.admission + |p.admitted| + |p.abandoned|
  {
    assert |p.queue| + p.admission + |p.admitted| + |p.abandoned| == p.depth + |p.draining|;
  }

  lemma RunsFirst(p: Pool, s: Step, rest: seq<Step>)
    requires Enabled(p, s) && Runs(Apply(p, s), rest)
    ensures Runs(p, [s] + rest) && After(p, [s] + rest) == After(Apply(p, s), rest)
  {
    assert ([s] + rest)[1..] == rest;
  }

  // And that does happen: a pool of one worker and no queue, with a waiter.
  lemma QueueCanExceedDepth() returns (steps: seq<Step>)
    ensures Runs(Start(1, 0), steps) && |After(Start(1, 0), steps).queue| > After(Start(1, 0), steps).depth
  {
    var p0 := Start(1, 0);
    var p1 := Apply(p0, Admit(0));
    var p2 := Apply(p1, Acquire(0));
    var p3 := Apply(p2, ReleaseAdmission(0));
    var p4 := Apply(p3, Admit(1));
    RunsFirst(p4, Acquire(1), []);
    RunsFirst(p3, Admit(1), [Acquire(1)] + []);
    RunsFirst(p2, ReleaseAdmission(0), [Admit(1)] + ([Acquire(1)] + []));
    RunsFirst(p1, Acquire(0), [ReleaseAdmission(0)] + ([Admit(1)] + ([Acquire(1)] + [])));
    steps := [Admit(0)] + ([Acquire(0)] + ([ReleaseAdmission(0)] + ([Admit(1)] + ([Acquire(1)] + []))));
    RunsFirst(p0, Admit(0), [Acquire(0)] + ([ReleaseAdmission(0)] + ([Admit(1)] + ([Acquire(1)] + []))));
    assert Apply(p4, Acquire(1)).queue == [1];
  }

  // ----- gauges -----

  // `in flight` counts the decode permits held; `queued` the waiters, plus the
  // requests entering or leaving the wait, less the decodes between their two
  // releases.
  lemma GaugesCount(p: Pool)
    requires p.Safe()
    ensures p.InFlight() == p.DecodeHeld()
    ensures p.Queued() == if |p.admitted| + |p.queue| + |p.abandoned| >= |p.draining|
                          then |p.admitted| + |p.queue| + |p.abandoned| - |p.draining| else 0
    ensures p.Queued() == |p.queue| <==>
      |p.admitted| + |p.abandoned| == |p.draining|
      || (p.queue == [] && |p.admitted| + |p.abandoned| < |p.draining|)
  {
  }

  // ----- progress -----

  predicate Arrival(s: Step) {
    s.Refuse? || s.Admit?
  }

  // A waiter never waits on nobody: some permit holder can take a step that
  // leads to its release.
  lemma WaiterHasHolder(p: Pool)
    requires p.Safe() && p.workers > 0 && p.queue != []
    ensures exists s :: Enabled(p, s) && (s.Resume? || s.ReleaseAdmission? || s.ReleasePermit?)
  {
    assert p.DecodeHeld() > 0;
    if r :| r in p.granted {
      assert Enabled(p, Resume(r));
    } else if r :| r in p.decoding {
      assert Enabled(p, ReleaseAdmission(r));
    } else {
      var r :| r in p.draining;
      assert Enabled(p, ReleasePermit(r));
    }
  }

  // How many steps the live requests still have between them.
  function StepsLeft(p: Pool): nat {
    6 * |p.admitted| + 5 * |p.queue| + 4 * |p.granted| + 3 * |p.decoding| + 2 * |p.draining| + |p.abandoned|
  }

  lemma HandOverCounts(p: Pool)
    requires p.Apart()
    ensures StepsLeft(HandOver(p)) <= StepsLeft(p)
  {
    if p.queue != [] {
      OnePlace(p, p.queue[0]);
    }
  }

  lemma StepCounts(p: Pool, s: Step)
    requires p.Safe() && Enabled(p, s) && !Arrival(s)
    ensures StepsLeft(Apply(p, s)) < StepsLeft(p)
  {
    match s
    case CancelGranted(r) => CancelCounts(p, r);
    case ReleasePermit(r) => ReleaseCounts(p, r);
    case _ => OtherCounts(p, s);
  }

  lemma OtherCounts(p: Pool, s: Step)
    requires p.Safe() && Enabled(p, s) && !Arrival(s) && !s.CancelGranted? && !s.ReleasePermit?
    ensures StepsLeft(Apply(p, s)) < StepsLeft(p)
  {
    OnePlace(p, s.r);
    if s.CancelWaiting? {
      MinusOne(p.queue, s.r);
    }
  }

  lemma CancelCounts(p: Pool, r: Request)
    requires p.Safe() && r in p.granted
    ensures StepsLeft(Apply(p, CancelGranted(r))) < StepsLeft(p)
  {
    OnePlace(p, r);
    var q := p.(granted := p.granted - {r}, abandoned := p.abandoned + {r});
    StillApart(p, q, r);
    HandOverCounts(q);
  }

  lemma ReleaseCounts(p: Pool, r: Request)
    requires p.Safe() && r in p.draining
    ensures StepsLeft(Apply(p, ReleasePermit(r))) < StepsLeft(p)
  {
    OnePlace(p, r);
    var q := p.(draining := p.draining - {r});
    StillApart(p, q, r);
    HandOverCounts(q);
  }

  // With no new arrivals the pool comes to rest within StepsLeft steps, whatever
  // the interleaving.
  lemma {:induction false} RunsAreShort(p: Pool, steps: seq<Step>)
    requires p.Safe() && Runs(p, steps) && forall s :: s in steps ==> !Arrival(s)
    ensures |steps| + StepsLeft(After(p, steps)) <= StepsLeft(p)
    decreases |steps|
  {
    if steps != [] {
      assert steps[0] in steps;
      StepCounts(p, steps[0]);
      StepSafe(p, steps[0]);
      RunsAreShort(Apply(p, steps[0]), steps[1..]);
    }
  }

  ghost predicate AtRest(p: Pool) {
    forall s :: Enabled(p, s) ==> Arrival(s)
  }

  // It comes to rest exactly when it is as good as new: no permit is ever lost,
  // by no cancellation and no order of releases.
  lemma AtRestIff(p: Pool)
    requires p.Safe() && p.workers > 0
    ensures AtRest(p) <==> p == Start(p.workers, p.depth)
  {
    if AtRest(p) {
      if p.queue != [] {
        WaiterHasHolder(p);
      }
      assert forall r :: r !in p.admitted by {
        forall r ensures r !in p.admitted { assert Enabled(p, Acquire(r)) ==> false; }
      }
      assert forall r :: r !in p.granted by {
        forall r ensures r !in p.granted { assert Enabled(p, Resume(r)) ==> false; }
      }
      assert forall r :: r !in p.decoding by {
        forall r ensures r !in p.decoding { assert Enabled(p, ReleaseAdmission(r)) ==> false; }
      }
      assert forall r :: r !in p.draining by {
        forall r ensures r !in p.draining { assert Enabled(p, ReleasePermit(r)) ==> false; }
      }
      assert forall r :: r !in p.abandoned by {
        forall r ensures r !in p.abandoned { assert Enabled(p, DropAdmission(r)) ==> false; }
      }
    }
  }

  // ----- fairness -----

  // Who joins the queue in a step, who is handed a permit from its head, and
  // who gives up waiting.
  function JoinsNow(p: Pool, s: Step): seq<Request> {
    if s.Acquire? && p.permits <= 0 then [s.r] else []
  }

  function ServedNow(p: Pool, s: Step): seq<Request> {
    if p.queue != [] && (s.CancelGranted? || s.ReleasePermit?) then [p.queue[0]] else []
  }

  function QuitsNow(s: Step): set<Request> {
    if s.CancelWaiting? then {s.r} else {}
  }

  // The same over a run, in order.
  function Joined(p: Pool, steps: seq<Step>): seq<Request>
    requires Runs(p, steps)
    decreases |steps|
  {
    if steps == [] then [] else JoinsNow(p, steps[0]) + Joined(Apply(p, steps[0]), steps[1..])
  }

  function Served(p: Pool, steps: seq<Step>): seq<Request>
    requires Runs(p, steps)
    decreases |steps|
  {
    if steps == [] then [] else ServedNow(p, steps[0]) + Served(Apply(p, steps[0]), steps[1..])
  }

  function GaveUp(steps: seq<Step>): set<Request> {
    if steps == [] then {} else QuitsNow(steps[0]) + GaveUp(steps[1..])
  }

  ghost predicate Once(q: seq<Request>) {
    forall r :: multiset(q)[r] <= 1
  }

  lemma {:induction false} MinusJoins(a: seq<Request>, b: seq<Request>, gone: set<Request>)
    ensures Minus(a + b, gone) == Minus(a, gone) + Minus(b, gone)
  {
    if a == [] {
      assert a + b == b;
    } else {
      assert (a + b)[1..] == a[1..] + b;
      MinusJoins(a[1..], b, gone);
    }
  }

  lemma {:induction false} MinusTwice(q: seq<Request>, r: Request, gone: set<Request>)
    ensures Minus(Minus(q, {r}), gone) == Minus(q, {r} + gone)
  {
    if q != [] {
      MinusTwice(q[1..], r, gone);
      MinusJoins(if q[0] == r then [] else [q[0]], Minus(q[1..], {r}), gone);
    }
  }

  // Only those who wait, or come to wait, can give up.
  lemma {:induction false} QuittersWaited(p: Pool, steps: seq<Step>, r: Request)
    requires Runs(p, steps) && r in GaveUp(steps)
    ensures r in p.queue || r in Joined(p, steps)
    decreases |steps|
  {
    if steps[0] != CancelWaiting(r) {
      QuittersWaited(Apply(p, steps[0]), steps[1..], r);
      if r in Apply(p, steps[0]).queue {
        QueueFrom(p, steps[0], r);
      }
    }
  }

  lemma QueueFrom(p: Pool, s: Step, r: Request)
    requires Enabled(p, s) && r in Apply(p, s).queue
    ensures r in p.queue || r in JoinsNow(p, s)
  {
    if s.CancelWaiting? {
      MinusCounts(p.queue, {s.r}, r);
    }
  }

  // What one step does to those ahead, `later` being those still to come.
  lemma QuitterLeaves(q: seq<Request>, r: Request, later: seq<Request>, gone: set<Request>)
    requires r in q && Once(q + later)
    ensures Once(Minus(q, {r}) + later)
    ensures Minus(q + later, {r} + gone) == Minus(Minus(q, {r}) + later, gone)
  {
    forall x
      ensures multiset(Minus(q, {r}) + later)[x] <= 1
    {
      MinusCounts(q, {r}, x);
      assert multiset(q + later)[x] <= 1;
    }
    assert r !in later by {
      assert multiset(q + later)[r] <= 1;
    }
    MinusNobody(later, {r});
    MinusJoins(q, later, {r});
    MinusTwice(q + later, r, gone);
  }

  lemma HeadLeaves(q: seq<Request>, later: seq<Request>, gone: set<Request>)
    requires q != [] && Once(q + later)
    ensures Once(q[1..] + later) && q[0] !in q[1..] + later
    ensures q[0] !in gone ==> Minus(q + later, gone) == [q[0]] + Minus(q[1..] + later, gone)
  {
    var rest := q[1..] + later;
    assert q + later == [q[0]] + rest && (q + later)[1..] == rest;
    forall x
      ensures multiset(rest)[x] <= 1
    {
      assert multiset(q + later)[x] <= 1;
    }
    assert q[0] !in rest by {
      assert multiset(q + later)[q[0]] <= 1;
    }
  }

  // The three ways a step can change the queue.
  ghost predicate QueueMoves(q: seq<Request>, now: seq<Request>, joins: seq<Request>, served: seq<Request>,
                             quits: set<Request>) {
    || (joins == served == [] && exists r :: r in q && quits == {r} && now == Minus(q, {r}))
    || (joins == [] && quits == {} && q != [] && served == [q[0]] && now == q[1..])
    || (served == [] && quits == {} && now == q + joins)
  }

  lemma StepMovesQueue(p: Pool, s: Step)
    requires Enabled(p, s)
    ensures QueueMoves(p.queue, Apply(p, s).queue, JoinsNow(p, s), ServedNow(p, s), QuitsNow(s))
  {
  }

  lemma QueueAccount(q: seq<Request>, now: seq<Request>, joins: seq<Request>, served: seq<Request>, quits: set<Request>,
                     later: seq<Request>, gone: set<Request>)
    requires QueueMoves(q, now, joins, served, quits) && Once(q + (joins + later))
    requires forall r :: r in served && r in gone ==> r in now + later
    ensures Once(now + later)
    ensures Minus(q + (joins + later), quits + gone) == served + Minus(now + later, gone)
  {
    if joins == [] {
      assert joins + later == later;
    }
    if quits != {} {
      var r :| r in q && quits == {r} && now == Minus(q, {r});
      QuitterLeaves(q, r, later, gone);
    } else {
      assert quits + gone == gone;
      if served != [] {
        assert served[0] in served;
        HeadLeaves(q, later, gone);
      } else {
        assert q + (joins + later) == q + joins + later;
      }
    }
  }

  lemma StepAccount(p: Pool, s: Step, rest: seq<Step>)
    requires Enabled(p, s) && Runs(Apply(p, s), rest)
    requires Once(p.queue + (JoinsNow(p, s) + Joined(Apply(p, s), rest)))
    ensures var n := Apply(p, s);
      && Once(n.queue + Joined(n, rest))
      && Minus(p.queue + (JoinsNow(p, s) + Joined(n, rest)), QuitsNow(s) + GaveUp(rest))
         == ServedNow(p, s) + Minus(n.queue + Joined(n, rest), GaveUp(rest))
  {
    var n := Apply(p, s);
    StepMovesQueue(p, s);
    forall r | r in ServedNow(p, s) && r in GaveUp(rest)
      ensures r in n.queue + Joined(n, rest)
    {
      QuittersWaited(n, rest, r);
    }
    QueueAccount(p.queue, n.queue, JoinsNow(p, s), ServedNow(p, s), QuitsNow(s), Joined(n, rest), GaveUp(rest));
  }

  // First come, first served, over any run in which each request queues once:
  // those who were waiting or came to wait, less those who gave up, are exactly
  // those served followed by those still waiting, in the order they came.
  lemma {:induction false} FirstComeFirstServed(p: Pool, steps: seq<Step>)
    requires p.Safe() && Runs(p, steps) && Once(p.queue + Joined(p, steps))
    ensures Minus(p.queue + Joined(p, steps), GaveUp(steps)) == Served(p, steps) + After(p, steps).queue
    decreases |steps|
  {
    if steps == [] {
      MinusNobody(p.queue + [], {});
    } else {
      StepSafe(p, steps[0]);
      StepAccount(p, steps[0], steps[1..]);
      FirstComeFirstServed(Apply(p, steps[0]), steps[1..]);
    }
  }
}
